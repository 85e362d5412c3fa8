/**
 * The string primitives the source leans on: prefix and substring tests,
 * Go's `strings.Split`, `strings.TrimSpace` and `strings.Fields`, Python's
 * `str.strip`, and the two flavours of "base name of a path".
 */
module Text {

  predicate HasPrefix(s: string, p: string) {
    |p| <= |s| && s[..|p|] == p
  }

  predicate HasSuffix(s: string, p: string) {
    |p| <= |s| && s[|s| - |p|..] == p
  }

  /** `sub in s` in Python, `strings.Contains(s, sub)` in Go. */
  predicate Contains(s: string, sub: string)
    decreases |s|
  {
    HasPrefix(s, sub) || (|s| > 0 && Contains(s[1..], sub))
  }

  /** `sub` found at offset `k` is found. */
  lemma {:induction false} ContainsAt(s: string, sub: string, k: nat)
    requires k <= |s| && HasPrefix(s[k..], sub)
    ensures Contains(s, sub)
    decreases k
  {
    if k > 0 {
      assert s[1..][k - 1..] == s[k..];
      ContainsAt(s[1..], sub, k - 1);
    }
  }

  /** Go's `strings.TrimPrefix`: drops `p` once if `s` starts with it. */
  function TrimPrefix(s: string, p: string): string {
    if HasPrefix(s, p) then s[|p|..] else s
  }

  /** Go's `strings.ReplaceAll` for a one-character pattern and replacement. */
  function ReplaceChar(s: string, from: char, to: char): (r: string)
    ensures |r| == |s|
    ensures forall i :: 0 <= i < |s| ==> r[i] == (if s[i] == from then to else s[i])
  {
    seq(|s|, i requires 0 <= i < |s| => if s[i] == from then to else s[i])
  }

  // ---------------------------------------------------------------------------
  // Splitting on a separator

  /** Go's `strings.Split(s, string(c))`: never empty; `""` gives `[""]`. */
  function Split(s: string, c: char): (r: seq<string>)
    ensures |r| >= 1
    decreases |s|
  {
    if |s| == 0 then [""]
    else
      var rest := Split(s[1..], c);
      if s[0] == c then [""] + rest
      else [[s[0]] + rest[0]] + rest[1..]
  }

  /** Go's `strings.Join(parts, string(c))`. */
  function JoinWith(parts: seq<string>, c: char): string
    decreases |parts|
  {
    if |parts| == 0 then ""
    else if |parts| == 1 then parts[0]
    else parts[0] + [c] + JoinWith(parts[1..], c)
  }

  /** Splitting then joining on the same separator gives back the input, and no
      piece contains the separator. */
  lemma {:induction false} SplitJoin(s: string, c: char)
    ensures JoinWith(Split(s, c), c) == s
    ensures forall i :: 0 <= i < |Split(s, c)| ==> c !in Split(s, c)[i]
    decreases |s|
  {
    if |s| > 0 {
      var rest := Split(s[1..], c);
      SplitJoin(s[1..], c);
      if s[0] == c {
        assert Split(s, c) == [""] + rest;
        assert ([""] + rest)[1..] == rest;
        assert s == [c] + s[1..];
      } else {
        var r := [[s[0]] + rest[0]] + rest[1..];
        assert Split(s, c) == r;
        if |rest| == 1 {
          assert s == [s[0]] + rest[0];
        } else {
          assert r[1..] == rest[1..];
          assert JoinWith(rest, c) == rest[0] + [c] + JoinWith(rest[1..], c);
          assert s == [s[0]] + s[1..];
        }
        forall i | 0 <= i < |r|
          ensures c !in r[i]
        {
          if i == 0 {
            assert c !in rest[0];
          } else {
            assert r[i] == rest[i];
          }
        }
      }
    }
  }

  /** A piece without the separator splits to itself. */
  lemma {:induction false} SplitNoSeparator(x: string, c: char)
    requires c !in x
    ensures Split(x, c) == [x]
    decreases |x|
  {
    if |x| > 0 {
      SplitNoSeparator(x[1..], c);
      assert x == [x[0]] + x[1..];
    }
  }

  /** Splitting `x + c + r` peels off `x` when `x` holds no separator. */
  lemma {:induction false} SplitPeel(x: string, r: string, c: char)
    requires c !in x
    ensures Split(x + [c] + r, c) == [x] + Split(r, c)
    decreases |x|
  {
    var s := x + [c] + r;
    if |x| == 0 {
      assert s[1..] == r;
    } else {
      assert s[0] == x[0];
      assert s[1..] == x[1..] + [c] + r;
      SplitPeel(x[1..], r, c);
      assert x == [x[0]] + x[1..];
    }
  }

  /** Joining then splitting on a separator that no piece contains gives the
      pieces back. */
  lemma {:induction false} JoinSplit(parts: seq<string>, c: char)
    requires |parts| >= 1
    requires forall i :: 0 <= i < |parts| ==> c !in parts[i]
    ensures Split(JoinWith(parts, c), c) == parts
    decreases |parts|
  {
    if |parts| == 1 {
      SplitNoSeparator(parts[0], c);
    } else {
      JoinSplit(parts[1..], c);
      SplitPeel(parts[0], JoinWith(parts[1..], c), c);
      assert parts == [parts[0]] + parts[1..];
    }
  }

  // ---------------------------------------------------------------------------
  // White space

  /** Go's `unicode.IsSpace`. */
  predicate GoSpace(c: char) {
    c == ' ' || c == '\t' || c == '\n' || c == '\r'
    || c as int == 0x0B || c as int == 0x0C || c as int == 0x85 || c as int == 0xA0
    || c as int == 0x1680 || 0x2000 <= c as int <= 0x200A
    || c as int == 0x2028 || c as int == 0x2029 || c as int == 0x202F
    || c as int == 0x205F || c as int == 0x3000
  }

  /** Python's `str.isspace` on one character: Go's set plus the four
      information separators U+001C..U+001F. */
  predicate PySpace(c: char) {
    GoSpace(c) || 0x1C <= c as int <= 0x1F
  }

  /** Python's `str.splitlines` boundaries. */
  predicate PyLineBreak(c: char) {
    c == '\n' || c == '\r' || c as int == 0x0B || c as int == 0x0C
    || 0x1C <= c as int <= 0x1E || c as int == 0x85
    || c as int == 0x2028 || c as int == 0x2029
  }

  function TrimLeft(s: string, space: char -> bool): (r: string)
    ensures |r| <= |s| && r == s[|s| - |r|..]
    ensures |r| > 0 ==> !space(r[0])
    ensures forall i :: 0 <= i < |s| - |r| ==> space(s[i])
    decreases |s|
  {
    if |s| > 0 && space(s[0]) then TrimLeft(s[1..], space) else s
  }

  function TrimRight(s: string, space: char -> bool): (r: string)
    ensures |r| <= |s| && r == s[..|r|]
    ensures |r| > 0 ==> !space(r[|r| - 1])
    ensures forall i :: |r| <= i < |s| ==> space(s[i])
    decreases |s|
  {
    if |s| > 0 && space(s[|s| - 1]) then TrimRight(s[..|s| - 1], space) else s
  }

  /** Strip leading and trailing white space: `strings.TrimSpace` with
      `GoSpace`, `str.strip()` with `PySpace`. */
  function Trim(s: string, space: char -> bool): (r: string)
    ensures |r| > 0 ==> !space(r[0]) && !space(r[|r| - 1])
    ensures |r| <= |s|
  {
    TrimRight(TrimLeft(s, space), space)
  }

  /** Trimming leaves nothing exactly when every character is white space. */
  lemma TrimEmpty(s: string, space: char -> bool)
    ensures Trim(s, space) == "" <==> forall i :: 0 <= i < |s| ==> space(s[i])
  {
    var l := TrimLeft(s, space);
    assert forall i :: |s| - |l| <= i < |s| ==> s[i] == l[i - (|s| - |l|)];
  }

  // ---------------------------------------------------------------------------
  // Fields

  /** The longest prefix of `s` holding no white space. */
  function Word(s: string, space: char -> bool): (r: string)
    ensures |r| <= |s| && r == s[..|r|]
    ensures forall i :: 0 <= i < |r| ==> !space(r[i])
    ensures |r| < |s| ==> space(s[|r|])
    decreases |s|
  {
    if |s| == 0 || space(s[0]) then "" else [s[0]] + Word(s[1..], space)
  }

  /** Go's `strings.Fields`: the maximal runs of non-space characters. */
  function Fields(s: string, space: char -> bool): (r: seq<string>)
    ensures forall i :: 0 <= i < |r| ==> |r[i]| > 0
    ensures forall i, j :: 0 <= i < |r| && 0 <= j < |r[i]| ==> !space(r[i][j])
    decreases |s|
  {
    if |s| == 0 then []
    else if space(s[0]) then Fields(s[1..], space)
    else
      var w := Word(s, space);
      [w] + Fields(s[|w|..], space)
  }

  /** `s` with every white-space character removed. */
  function Squeeze(s: string, space: char -> bool): string
    decreases |s|
  {
    if |s| == 0 then "" else (if space(s[0]) then "" else [s[0]]) + Squeeze(s[1..], space)
  }

  function Concat(parts: seq<string>): string
    decreases |parts|
  {
    if |parts| == 0 then "" else parts[0] + Concat(parts[1..])
  }

  lemma {:induction false} SqueezeAppend(a: string, b: string, space: char -> bool)
    ensures Squeeze(a + b, space) == Squeeze(a, space) + Squeeze(b, space)
    decreases |a|
  {
    if |a| > 0 {
      SqueezeAppend(a[1..], b, space);
      assert (a + b)[1..] == a[1..] + b;
    } else {
      assert a + b == b;
    }
  }

  lemma {:induction false} SqueezeWord(w: string, space: char -> bool)
    requires forall i :: 0 <= i < |w| ==> !space(w[i])
    ensures Squeeze(w, space) == w
    decreases |w|
  {
    if |w| > 0 {
      SqueezeWord(w[1..], space);
      assert w == [w[0]] + w[1..];
    }
  }

  /** The fields, glued back together, are exactly the non-space characters. */
  lemma {:induction false} FieldsCoverText(s: string, space: char -> bool)
    ensures Concat(Fields(s, space)) == Squeeze(s, space)
    decreases |s|
  {
    if |s| > 0 {
      if space(s[0]) {
        FieldsCoverText(s[1..], space);
      } else {
        var w := Word(s, space);
        FieldsCoverText(s[|w|..], space);
        assert s == w + s[|w|..];
        SqueezeAppend(w, s[|w|..], space);
        SqueezeWord(w, space);
        assert ([w] + Fields(s[|w|..], space))[1..] == Fields(s[|w|..], space);
      }
    }
  }

  lemma {:induction false} WordStopsAtSpace(s: string, k: nat, space: char -> bool)
    requires k < |s| && space(s[k])
    ensures |Word(s, space)| <= k
    ensures Word(s[..k], space) == Word(s, space)
    decreases |s|
  {
    if |s| > 0 && !space(s[0]) {
      WordStopsAtSpace(s[1..], k - 1, space);
      assert s[..k][1..] == s[1..][..k - 1];
    }
  }

  lemma {:induction false} FieldsIgnoreTrailingSpace(s: string, k: nat, space: char -> bool)
    requires k <= |s|
    requires forall i :: k <= i < |s| ==> space(s[i])
    ensures Fields(s[..k], space) == Fields(s, space)
    decreases |s|
  {
    if |s| > 0 {
      if k == 0 {
        FieldsIgnoreTrailingSpace(s[1..], 0, space);
      } else if space(s[0]) {
        FieldsIgnoreTrailingSpace(s[1..], k - 1, space);
        assert s[..k][1..] == s[1..][..k - 1];
      } else {
        var w := Word(s, space);
        if k < |s| {
          WordStopsAtSpace(s, k, space);
        } else {
          assert s[..k] == s;
        }
        assert Word(s[..k], space) == w;
        FieldsIgnoreTrailingSpace(s[|w|..], k - |w|, space);
        assert s[..k][|w|..] == s[|w|..][..k - |w|];
      }
    }
  }

  lemma {:induction false} FieldsIgnoreLeadingSpace(s: string, space: char -> bool)
    ensures Fields(TrimLeft(s, space), space) == Fields(s, space)
    decreases |s|
  {
    if |s| > 0 && space(s[0]) {
      FieldsIgnoreLeadingSpace(s[1..], space);
    }
  }

  /** Trimming before splitting into fields changes nothing. */
  lemma FieldsOfTrim(s: string, space: char -> bool)
    ensures Fields(Trim(s, space), space) == Fields(s, space)
  {
    var l := TrimLeft(s, space);
    var r := TrimRight(l, space);
    FieldsIgnoreTrailingSpace(l, |r|, space);
    FieldsIgnoreLeadingSpace(s, space);
  }

  /** A run of non-space characters followed by a space (or nothing) is the
      first field. */
  lemma {:induction false} WordOfPrefix(d: string, rest: string, space: char -> bool)
    requires forall i :: 0 <= i < |d| ==> !space(d[i])
    requires rest == [] || space(rest[0])
    ensures Word(d + rest, space) == d
    decreases |d|
  {
    if |d| > 0 {
      assert (d + rest)[1..] == d[1..] + rest;
      WordOfPrefix(d[1..], rest, space);
      assert d == [d[0]] + d[1..];
    }
  }

  lemma FirstField(d: string, rest: string, space: char -> bool)
    requires d != [] && forall i :: 0 <= i < |d| ==> !space(d[i])
    requires rest == [] || space(rest[0])
    ensures |Fields(d + rest, space)| > 0 && Fields(d + rest, space)[0] == d
    ensures Fields(d + rest, space) == [d] + Fields(rest, space)
  {
    WordOfPrefix(d, rest, space);
    assert (d + rest)[|d|..] == rest;
  }

  // ---------------------------------------------------------------------------
  // Base names

  /** The part of `p` after its last `/` (all of `p` when it has none). */
  function AfterLastSlash(p: string): (r: string)
    ensures '/' !in r
    ensures |r| <= |p| && r == p[|p| - |r|..]
    ensures |r| < |p| ==> p[|p| - |r| - 1] == '/'
    decreases |p|
  {
    if |p| == 0 then ""
    else if p[|p| - 1] == '/' then ""
    else
      var q := p[..|p| - 1];
      var t := AfterLastSlash(q);
      var k := |q| - |t|;
      assert p[k..] == q[k..] + [p[|p| - 1]] by {
        assert p == q + [p[|p| - 1]];
      }
      assert k > 0 ==> p[k - 1] == q[k - 1];
      t + [p[|p| - 1]]
  }

  /** Python's `os.path.basename` on POSIX. */
  function PyBasename(p: string): string {
    AfterLastSlash(p)
  }

  function DropTrailingSlashes(p: string): (r: string)
    ensures |r| <= |p| && r == p[..|r|]
    ensures |r| > 0 ==> r[|r| - 1] != '/'
    decreases |p|
  {
    if |p| > 0 && p[|p| - 1] == '/' then DropTrailingSlashes(p[..|p| - 1]) else p
  }

  /** Go's `filepath.Base` on a slash-separated path: `"."` for the empty
      path, `"/"` for a path of slashes, else the last element. */
  function GoBase(p: string): (r: string)
    ensures |r| > 0
  {
    if p == "" then "."
    else
      var q := DropTrailingSlashes(p);
      if q == "" then "/" else AfterLastSlash(q)
  }

  /** The last element of `dir/name` is `name`. */
  lemma {:induction false} AfterLastSlashOfJoin(dir: string, name: string)
    requires '/' !in name
    ensures AfterLastSlash(dir + "/" + name) == name
    decreases |name|
  {
    var p := dir + "/" + name;
    if |name| > 0 {
      var init := name[..|name| - 1];
      assert p[..|p| - 1] == dir + "/" + init;
      AfterLastSlashOfJoin(dir, init);
      assert init + [p[|p| - 1]] == name;
    }
  }

  lemma GoBaseOfJoin(dir: string, name: string)
    requires name != "" && '/' !in name
    ensures GoBase(dir + "/" + name) == name
  {
    var p := dir + "/" + name;
    assert p[|p| - 1] == name[|name| - 1];
    AfterLastSlashOfJoin(dir, name);
  }
}
