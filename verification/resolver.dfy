/**
 * Pack resolution: a base tree composed with an ordered list of allow-listed
 * stack overlays, later writers winning, emitted sorted by destination path.
 * `FilesFromDotclaudeFS` (cli/internal/pack/fsloader.go) and `Files` /
 * `filesV11` (cli/internal/pack/pack.go) share the layering, differ in where
 * the trees live, in how a missing overlay is treated, and in the extra walk
 * of top-level files the former performs.
 */
module Resolver {
  import opened Wrappers
  import opened Types
  import opened Text
  import opened StringOrder

  /** The stack keys the loaders accept; anything else is dropped. */
  const AllowedStacks: seq<string> :=
    ["cloudflare-workers", "supabase", "trigger.dev", "go", "typescript", "python", "flutter"]

  /** Keep the allow-listed requests, in request order, duplicates included. */
  function FilterAllowed(stacks: seq<string>): (r: seq<string>)
    ensures |r| <= |stacks|
    ensures forall s :: s in r ==> s in AllowedStacks
    decreases |stacks|
  {
    if |stacks| == 0 then []
    else (if stacks[0] in AllowedStacks then [stacks[0]] else []) + FilterAllowed(stacks[1..])
  }

  /** Each allowed name survives exactly as often as it was requested. */
  lemma {:induction false} FilterAllowedCounts(stacks: seq<string>, s: string)
    requires s in AllowedStacks
    ensures multiset(FilterAllowed(stacks))[s] == multiset(stacks)[s]
    decreases |stacks|
  {
    if |stacks| > 0 {
      assert stacks == [stacks[0]] + stacks[1..];
      FilterAllowedCounts(stacks[1..], s);
    }
  }

  /** Filtering distributes over concatenation: survivors keep their relative order. */
  lemma {:induction false} FilterAllowedAppend(a: seq<string>, b: seq<string>)
    ensures FilterAllowed(a + b) == FilterAllowed(a) + FilterAllowed(b)
    decreases |a|
  {
    if |a| > 0 {
      var head := if a[0] in AllowedStacks then [a[0]] else [];
      assert (a + b)[0] == a[0];
      assert (a + b)[1..] == a[1..] + b;
      FilterAllowedAppend(a[1..], b);
      calc {
        FilterAllowed(a + b);
        head + FilterAllowed(a[1..] + b);
        head + (FilterAllowed(a[1..]) + FilterAllowed(b));
        (head + FilterAllowed(a[1..])) + FilterAllowed(b);
        FilterAllowed(a) + FilterAllowed(b);
      }
    } else {
      assert a + b == b;
    }
  }

  // ---------------------------------------------------------------------------
  // Layering

  /** Where a loader finds its trees. `prefix` is what a tree-relative path
      gets in front of it to become a destination. */
  datatype Layout = Layout(baseRoot: Path, stacksRoot: Path, prefix: string)

  const DotclaudeLayout: Layout := Layout(".claude/base", ".claude/stacks", ".claude/")

  const DefaultVersion: string := "v1.1"

  const V11Layout: Layout := Layout("templates/v1.1/core", "templates/v1.1/stacks", "")

  function StackRoot(l: Layout, s: string): Path {
    l.stacksRoot + "/" + s
  }

  /** The source path of destination `d` inside tree `root`. */
  function SourceIn(l: Layout, root: Path, d: Path): Path
    requires HasPrefix(d, l.prefix)
  {
    root + "/" + d[|l.prefix|..]
  }

  /** The index entries one tree contributes: destination ↦ source path, for
      every file below `root`. */
  function Layer(t: Tree, l: Layout, root: Path): (r: map<Path, Path>)
    ensures forall d :: d in r <==> HasPrefix(d, l.prefix) && SourceIn(l, root, d) in t.files
    ensures forall d :: d in r ==> r[d] == SourceIn(l, root, d)
  {
    var dests := set p | p in t.files.Keys && HasPrefix(p, root + "/") :: l.prefix + p[|root| + 1..];
    var r := map d | d in dests && HasPrefix(d, l.prefix) && SourceIn(l, root, d) in t.files :: SourceIn(l, root, d);
    forall d | HasPrefix(d, l.prefix) && SourceIn(l, root, d) in t.files
      ensures d in r
    {
      var p := SourceIn(l, root, d);
      assert p[|root| + 1..] == d[|l.prefix|..];
      assert d == l.prefix + d[|l.prefix|..];
      assert d in dests;
    }
    r
  }

  /** Apply the overlays of `want` in order on top of `acc`; an overlay whose
      tree is missing contributes nothing. */
  function Overlays(t: Tree, l: Layout, want: seq<string>, acc: map<Path, Path>): map<Path, Path>
    decreases |want|
  {
    if |want| == 0 then acc
    else
      var s := want[|want| - 1];
      Overlays(t, l, want[..|want| - 1], acc)
        + (if StackRoot(l, s) in t.dirs then Layer(t, l, StackRoot(l, s)) else map[])
  }

  /** An overlay whose tree is missing leaves the index as it was. */
  lemma OverlaysSkipMissing(t: Tree, l: Layout, want: seq<string>, s: string, acc: map<Path, Path>)
    requires StackRoot(l, s) !in t.dirs
    ensures Overlays(t, l, want + [s], acc) == Overlays(t, l, want, acc)
  {
    var w := want + [s];
    assert w[..|w| - 1] == want;
    assert w[|w| - 1] == s;
    var m := Overlays(t, l, want, acc);
    assert m + map[] == m;
  }

  /** Reference definition of precedence: the last overlay in request order
      that exists and holds the file wins, otherwise the base tree. */
  function Winner(t: Tree, l: Layout, want: seq<string>, d: Path): Option<Path>
    requires HasPrefix(d, l.prefix)
    decreases |want|
  {
    if |want| == 0 then
      if SourceIn(l, l.baseRoot, d) in t.files then Some(SourceIn(l, l.baseRoot, d)) else None
    else
      var root := StackRoot(l, want[|want| - 1]);
      if root in t.dirs && SourceIn(l, root, d) in t.files then Some(SourceIn(l, root, d))
      else Winner(t, l, want[..|want| - 1], d)
  }

  /** The layered index agrees with the reference precedence everywhere. */
  lemma {:induction false} OverlaysPickWinner(t: Tree, l: Layout, want: seq<string>, d: Path)
    ensures d in Overlays(t, l, want, Layer(t, l, l.baseRoot))
        <==> HasPrefix(d, l.prefix) && Winner(t, l, want, d).Some?
    ensures d in Overlays(t, l, want, Layer(t, l, l.baseRoot))
        ==> Overlays(t, l, want, Layer(t, l, l.baseRoot))[d] == Winner(t, l, want, d).value
    decreases |want|
  {
    if |want| > 0 {
      OverlaysPickWinner(t, l, want[..|want| - 1], d);
    }
  }

  // ---------------------------------------------------------------------------
  // Emission

  ghost predicate SourcesExist(t: Tree, idx: map<Path, Path>) {
    forall d :: d in idx ==> idx[d] in t.files
  }

  /** The index as a list of pack entries sorted by destination; each entry
      reads the bytes of its winning source. */
  function Emit(t: Tree, idx: map<Path, Path>): (r: seq<PackFile>)
    requires SourcesExist(t, idx)
    ensures Paths(r) == SortSet(idx.Keys)
    ensures forall i :: 0 <= i < |r| ==> r[i].relPath in idx && r[i].read == Some(t.files[idx[r[i].relPath]])
  {
    var keys := SortSet(idx.Keys);
    seq(|keys|, i requires 0 <= i < |keys| => PackFile(keys[i], Some(t.files[idx[keys[i]]])))
  }

  /** A path is emitted iff it is a key of the index. */
  lemma EmitCovers(t: Tree, idx: map<Path, Path>, d: Path)
    requires SourcesExist(t, idx)
    ensures d in idx <==> exists i :: 0 <= i < |Emit(t, idx)| && Emit(t, idx)[i].relPath == d
  {
    var r := Emit(t, idx);
    var keys := SortSet(idx.Keys);
    if d in idx {
      assert d in keys;
      var i :| 0 <= i < |keys| && keys[i] == d;
      assert Paths(r)[i] == d;
    }
  }

  function Paths(files: seq<PackFile>): (r: seq<Path>)
    ensures |r| == |files|
    ensures forall i :: 0 <= i < |r| ==> r[i] == files[i].relPath
  {
    seq(|files|, i requires 0 <= i < |files| => files[i].relPath)
  }

  // ---------------------------------------------------------------------------
  // cli/internal/pack/fsloader.go

  /** Step 3 of the loader: every file outside `.claude/` at its own path. */
  function TopLevel(t: Tree): (r: map<Path, Path>)
    ensures forall d :: d in r <==> d in t.files && !HasPrefix(d, ".claude/")
    ensures forall d :: d in r ==> r[d] == d
  {
    map p | p in t.files.Keys && !HasPrefix(p, ".claude/") :: p
  }

  function DotclaudeIndex(t: Tree, want: seq<string>): map<Path, Path> {
    Overlays(t, DotclaudeLayout, want, Layer(t, DotclaudeLayout, DotclaudeLayout.baseRoot)) + TopLevel(t)
  }

  /** Reference: the source path whose bytes destination `d` gets. */
  function DotclaudeSource(t: Tree, want: seq<string>, d: Path): Option<Path> {
    if !HasPrefix(d, ".claude/") then (if d in t.files then Some(d) else None)
    else Winner(t, DotclaudeLayout, want, d)
  }

  lemma DotclaudeIndexSources(t: Tree, want: seq<string>, d: Path)
    ensures d in DotclaudeIndex(t, want) <==> DotclaudeSource(t, want, d).Some?
    ensures d in DotclaudeIndex(t, want) ==> DotclaudeIndex(t, want)[d] == DotclaudeSource(t, want, d).value
    ensures d in DotclaudeIndex(t, want) ==> DotclaudeIndex(t, want)[d] in t.files
  {
    var l := DotclaudeLayout;
    var ov := Overlays(t, l, want, Layer(t, l, l.baseRoot));
    var top := TopLevel(t);
    var idx := ov + top;
    assert DotclaudeIndex(t, want) == idx;
    if HasPrefix(d, ".claude/") {
      assert d !in top;
      OverlaysPickWinner(t, l, want, d);
      WinnerExists(t, l, want, d);
      assert d in idx <==> d in ov;
    } else {
      assert !HasPrefix(d, l.prefix);
      OverlaysPickWinner(t, l, want, d);
      assert d !in ov;
    }
  }

  lemma {:induction false} WinnerExists(t: Tree, l: Layout, want: seq<string>, d: Path)
    requires HasPrefix(d, l.prefix)
    ensures Winner(t, l, want, d).Some? ==> Winner(t, l, want, d).value in t.files
    decreases |want|
  {
    if |want| > 0 {
      WinnerExists(t, l, want[..|want| - 1], d);
    }
  }

  lemma DotclaudeSourcesExist(t: Tree, want: seq<string>)
    ensures SourcesExist(t, DotclaudeIndex(t, want))
  {
    forall d | d in DotclaudeIndex(t, want)
      ensures DotclaudeIndex(t, want)[d] in t.files
    {
      DotclaudeIndexSources(t, want, d);
    }
  }

  /** `FilesFromDotclaudeFS`: base, then allowed overlays, then top-level files;
      only a failing base walk is an error. */
  function FilesFromDotclaudeFS(t: Tree, stacks: seq<string>): (r: Res<seq<PackFile>>)
    ensures r.Success? <==> DotclaudeLayout.baseRoot in t.dirs
    ensures r.Failure? ==> r.error == WalkFailed(DotclaudeLayout.baseRoot)
    ensures r.Success? ==> StrictlySorted(Paths(r.value))
  {
    if DotclaudeLayout.baseRoot !in t.dirs then Failure(WalkFailed(DotclaudeLayout.baseRoot))
    else
      var want := FilterAllowed(stacks);
      DotclaudeSourcesExist(t, want);
      Success(Emit(t, DotclaudeIndex(t, want)))
  }

  lemma DotclaudeUnfold(t: Tree, stacks: seq<string>)
    requires DotclaudeLayout.baseRoot in t.dirs
    ensures SourcesExist(t, DotclaudeIndex(t, FilterAllowed(stacks)))
    ensures FilesFromDotclaudeFS(t, stacks).value == Emit(t, DotclaudeIndex(t, FilterAllowed(stacks)))
  {
    var want := FilterAllowed(stacks);
    DotclaudeSourcesExist(t, want);
    assert FilesFromDotclaudeFS(t, stacks) == Success(Emit(t, DotclaudeIndex(t, want)));
  }

  /** Every entry of a successful resolution reads the bytes of the source the
      reference precedence picks, and exactly the destinations that have such a
      source are emitted. */
  lemma DotclaudeFilesCharacterised(t: Tree, stacks: seq<string>)
    requires DotclaudeLayout.baseRoot in t.dirs
    ensures var out := FilesFromDotclaudeFS(t, stacks).value;
            var want := FilterAllowed(stacks);
            && (forall i :: 0 <= i < |out| ==>
                  DotclaudeSource(t, want, out[i].relPath).Some?
                  && DotclaudeSource(t, want, out[i].relPath).value in t.files
                  && out[i].read == Some(t.files[DotclaudeSource(t, want, out[i].relPath).value]))
            && (forall d :: DotclaudeSource(t, want, d).Some? ==> exists i :: 0 <= i < |out| && out[i].relPath == d)
  {
    var want := FilterAllowed(stacks);
    var idx := DotclaudeIndex(t, want);
    DotclaudeUnfold(t, stacks);
    var out := Emit(t, idx);
    forall i | 0 <= i < |out|
      ensures DotclaudeSource(t, want, out[i].relPath).Some?
      ensures DotclaudeSource(t, want, out[i].relPath).value in t.files
      ensures out[i].read == Some(t.files[DotclaudeSource(t, want, out[i].relPath).value])
    {
      DotclaudeIndexSources(t, want, out[i].relPath);
    }
    forall d | DotclaudeSource(t, want, d).Some?
      ensures exists i :: 0 <= i < |out| && out[i].relPath == d
    {
      DotclaudeIndexSources(t, want, d);
      EmitCovers(t, idx, d);
    }
  }

  lemma {:induction false} WinnerFromBase(t: Tree, l: Layout, want: seq<string>, d: Path)
    requires HasPrefix(d, l.prefix) && SourceIn(l, l.baseRoot, d) in t.files
    ensures Winner(t, l, want, d).Some?
    decreases |want|
  {
    if |want| > 0 {
      WinnerFromBase(t, l, want[..|want| - 1], d);
    }
  }

  /** The last overlay in request order that holds a path wins it. */
  lemma LastOverlayWins(t: Tree, l: Layout, want: seq<string>, s: string, d: Path)
    requires HasPrefix(d, l.prefix)
    requires StackRoot(l, s) in t.dirs && SourceIn(l, StackRoot(l, s), d) in t.files
    ensures Winner(t, l, want + [s], d) == Some(SourceIn(l, StackRoot(l, s), d))
  {
    assert (want + [s])[..|want|] == want;
  }

  /** An overlay that holds a path beats the base tree, whatever comes after it. */
  lemma {:induction false} OverlayBeatsBase(t: Tree, l: Layout, want: seq<string>, k: nat, d: Path)
    requires HasPrefix(d, l.prefix) && k < |want|
    requires StackRoot(l, want[k]) in t.dirs && SourceIn(l, StackRoot(l, want[k]), d) in t.files
    ensures Winner(t, l, want, d).Some?
    ensures exists j :: k <= j < |want| && Winner(t, l, want, d) == Some(SourceIn(l, StackRoot(l, want[j]), d))
    decreases |want|
  {
    var n := |want| - 1;
    var root := StackRoot(l, want[n]);
    if root in t.dirs && SourceIn(l, root, d) in t.files {
      assert Winner(t, l, want, d) == Some(SourceIn(l, StackRoot(l, want[n]), d));
    } else {
      assert k < n;
      var w := want[..n];
      assert w[k] == want[k];
      OverlayBeatsBase(t, l, w, k, d);
      var j :| k <= j < |w| && Winner(t, l, w, d) == Some(SourceIn(l, StackRoot(l, w[j]), d));
      assert w[j] == want[j];
    }
  }

  // ---------------------------------------------------------------------------
  // cli/internal/pack/pack.go

  /** The pack version a request resolves to: the default when none is given. */
  function VersionOrDefault(v: string): (r: string)
    ensures r != ""
    ensures v == "" ==> r == DefaultVersion
    ensures v != "" ==> r == v
  {
    if v == "" then DefaultVersion else v
  }

  /** The first requested stack whose overlay tree is missing. */
  function FirstMissing(t: Tree, l: Layout, want: seq<string>): (r: Option<string>)
    ensures r.None? <==> forall s :: s in want ==> StackRoot(l, s) in t.dirs
    ensures r.Some? ==> r.value in want && StackRoot(l, r.value) !in t.dirs
    ensures r.Some? ==> exists i :: 0 <= i < |want| && want[i] == r.value
                                    && forall j :: 0 <= j < i ==> StackRoot(l, want[j]) in t.dirs
    decreases |want|
  {
    if |want| == 0 then None
    else if StackRoot(l, want[0]) !in t.dirs then Some(want[0])
    else FirstMissing(t, l, want[1..])
  }

  /** `filesV11` over the embedded tree: core, then the allowed stacks; unlike
      the FS loader, a missing overlay aborts. */
  function FilesV11(t: Tree, stacks: seq<string>): (r: Res<seq<PackFile>>)
    ensures r.Failure? <==> V11Layout.baseRoot !in t.dirs
                            || exists s :: s in FilterAllowed(stacks) && StackRoot(V11Layout, s) !in t.dirs
    ensures r.Success? ==> StrictlySorted(Paths(r.value))
    // the error names the missing core, else the first missing stack overlay
    ensures V11Layout.baseRoot !in t.dirs ==> r == Failure(WalkFailed(V11Layout.baseRoot))
    ensures r.Failure? && V11Layout.baseRoot in t.dirs ==>
              exists i :: 0 <= i < |FilterAllowed(stacks)|
                          && r.error == WalkFailed(StackRoot(V11Layout, FilterAllowed(stacks)[i]))
                          && StackRoot(V11Layout, FilterAllowed(stacks)[i]) !in t.dirs
                          && forall j :: 0 <= j < i ==> StackRoot(V11Layout, FilterAllowed(stacks)[j]) in t.dirs
  {
    var l := V11Layout;
    if l.baseRoot !in t.dirs then Failure(WalkFailed(l.baseRoot))
    else
      var want := FilterAllowed(stacks);
      match FirstMissing(t, l, want)
      case Some(s) => Failure(WalkFailed(StackRoot(l, s)))
      case None =>
        V11SourcesExist(t, want);
        Success(Emit(t, Overlays(t, l, want, Layer(t, l, l.baseRoot))))
  }

  lemma V11SourcesExist(t: Tree, want: seq<string>)
    ensures SourcesExist(t, Overlays(t, V11Layout, want, Layer(t, V11Layout, V11Layout.baseRoot)))
  {
    var l := V11Layout;
    var idx := Overlays(t, l, want, Layer(t, l, l.baseRoot));
    forall d | d in idx
      ensures idx[d] in t.files
    {
      OverlaysPickWinner(t, l, want, d);
      WinnerExists(t, l, want, d);
    }
  }

  /** `Files`: only the default version `v1.1` is known. */
  function Files(embedded: Tree, version: string, stacks: seq<string>): (r: Res<seq<PackFile>>)
    ensures version == "" || version == DefaultVersion ==> r == FilesV11(embedded, stacks)
    ensures version != "" && version != DefaultVersion ==> r == Failure(UnknownPackVersion(version))
  {
    var ver := VersionOrDefault(version);
    if ver == DefaultVersion then FilesV11(embedded, stacks) else Failure(UnknownPackVersion(ver))
  }

  /** Each entry of `filesV11` reads the winning tree's copy, and its
      destination is the source path with the tree root and `/` removed. */
  lemma V11Unfold(t: Tree, stacks: seq<string>)
    requires V11Layout.baseRoot in t.dirs && FirstMissing(t, V11Layout, FilterAllowed(stacks)).None?
    ensures SourcesExist(t, Overlays(t, V11Layout, FilterAllowed(stacks), Layer(t, V11Layout, V11Layout.baseRoot)))
    ensures FilesV11(t, stacks).value
            == Emit(t, Overlays(t, V11Layout, FilterAllowed(stacks), Layer(t, V11Layout, V11Layout.baseRoot)))
  {
    var want := FilterAllowed(stacks);
    V11SourcesExist(t, want);
    assert FilesV11(t, stacks) == Success(Emit(t, Overlays(t, V11Layout, want, Layer(t, V11Layout, V11Layout.baseRoot))));
  }

  lemma FilesV11Characterised(t: Tree, stacks: seq<string>)
    requires V11Layout.baseRoot in t.dirs && FirstMissing(t, V11Layout, FilterAllowed(stacks)).None?
    ensures var out := FilesV11(t, stacks).value;
            var want := FilterAllowed(stacks);
            && (forall i :: 0 <= i < |out| ==>
                  Winner(t, V11Layout, want, out[i].relPath).Some?
                  && Winner(t, V11Layout, want, out[i].relPath).value in t.files
                  && out[i].read == Some(t.files[Winner(t, V11Layout, want, out[i].relPath).value]))
            && (forall d :: Winner(t, V11Layout, want, d).Some? ==> exists i :: 0 <= i < |out| && out[i].relPath == d)
  {
    var l := V11Layout;
    var want := FilterAllowed(stacks);
    var idx := Overlays(t, l, want, Layer(t, l, l.baseRoot));
    V11Unfold(t, stacks);
    var out := Emit(t, idx);
    forall i | 0 <= i < |out|
      ensures Winner(t, l, want, out[i].relPath).Some?
      ensures Winner(t, l, want, out[i].relPath).value in t.files
      ensures out[i].read == Some(t.files[Winner(t, l, want, out[i].relPath).value])
    {
      OverlaysPickWinner(t, l, want, out[i].relPath);
      WinnerExists(t, l, want, out[i].relPath);
    }
    forall d | Winner(t, l, want, d).Some?
      ensures exists i :: 0 <= i < |out| && out[i].relPath == d
    {
      OverlaysPickWinner(t, l, want, d);
      EmitCovers(t, idx, d);
    }
  }
}
