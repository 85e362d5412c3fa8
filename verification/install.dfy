/**
 * Install-time placement of pack files (`CopySafe`, cli/internal/fsops/fsops.go,
 * and the loop over it in cli/cmd/init.go): a missing destination is created,
 * an equal one is left alone, and a different one is kept while the pack
 * version goes to a `.codo.new` sidecar beside it.
 */
module Install {
  import opened Wrappers
  import opened Types

  /** The result of placing one file: the printed line, the boolean
      `CopySafe` returns ("the destination now holds the pack content"), and
      the file system afterwards. */
  datatype Copy = Copy(line: Line, placed: bool, fs: FS)

  /** `filepath.Join(root, rel)` for a clean relative path: an empty root
      (what `init` passes when `os.Getwd` fails) leaves the path relative. */
  function JoinRoot(root: Path, rel: Path): (r: Path)
    ensures root == "" ==> r == rel
    ensures root != "" ==> |r| == |root| + 1 + |rel| && r[..|root|] == root && r[|root|] == '/' && r[|root| + 1..] == rel
  {
    if root == "" then rel else root + "/" + rel
  }

  /** `CopySafe`. The file system is keyed by paths relative to the working
      directory, where the files are placed; `root` is the directory the
      source joins onto a pack path, and it shows only in the conflict line,
      which names the sidecar by its joined path. */
  function CopySafe(f: PackFile, root: Path, fs: FS, dry: bool, h: Hasher): (r: Res<Copy>)
    ensures r.Failure? <==> f.read.None?
    ensures r.Failure? ==> r.error == ReadFailed(f.relPath)
    ensures r.Success? && f.relPath !in fs ==> r.value.line == Created(f.relPath) && r.value.placed
    ensures r.Success? && f.relPath in fs && h(fs[f.relPath]) == h(f.read.value) ==>
              r.value.line == Identical(f.relPath) && r.value.placed && r.value.fs == fs
    ensures r.Success? && f.relPath in fs && h(fs[f.relPath]) != h(f.read.value) ==>
              r.value.line == Conflict(Sidecar(JoinRoot(root, f.relPath))) && !r.value.placed
    ensures r.Success? && dry ==> r.value.fs == fs
    ensures r.Success? && !dry && r.value.line.Created? ==>
              f.relPath in r.value.fs && r.value.fs[f.relPath] == f.read.value
              && SameOutside(fs, r.value.fs, {f.relPath})
    ensures r.Success? && !dry && r.value.line.Conflict? ==>
              Sidecar(f.relPath) in r.value.fs && r.value.fs[Sidecar(f.relPath)] == f.read.value
              && SameOutside(fs, r.value.fs, {Sidecar(f.relPath)})
  {
    if f.read.None? then Failure(ReadFailed(f.relPath))
    else
      var src := f.read.value;
      var dst := f.relPath;
      if dst in fs then
        if h(fs[dst]) == h(src) then Success(Copy(Identical(dst), true, fs))
        else Success(Copy(Conflict(Sidecar(JoinRoot(root, dst))), false, if dry then fs else fs[Sidecar(dst) := src]))
      else Success(Copy(Created(dst), true, if dry then fs else fs[dst := src]))
  }

  /** Every path `CopySafe` of `f` may write. */
  function Touches(f: PackFile): set<Path> {
    {f.relPath, Sidecar(f.relPath)}
  }

  /** Only the destination and its sidecar can change, and never the live file
      of a destination that differs. */
  lemma CopySafeFrame(f: PackFile, root: Path, fs: FS, dry: bool, h: Hasher)
    requires CopySafe(f, root, fs, dry, h).Success?
    ensures SameOutside(fs, CopySafe(f, root, fs, dry, h).value.fs, Touches(f))
    ensures f.relPath in fs ==> f.relPath in CopySafe(f, root, fs, dry, h).value.fs
                                && CopySafe(f, root, fs, dry, h).value.fs[f.relPath] == fs[f.relPath]
  {
    assert f.relPath != Sidecar(f.relPath) by { assert |Sidecar(f.relPath)| > |f.relPath|; }
  }

  /** A dry run prints the same line and returns the same answer. */
  lemma DryRunClassifiesAlike(f: PackFile, root: Path, fs: FS, h: Hasher)
    requires f.read.Some?
    ensures CopySafe(f, root, fs, true, h).value.line == CopySafe(f, root, fs, false, h).value.line
    ensures CopySafe(f, root, fs, true, h).value.placed == CopySafe(f, root, fs, false, h).value.placed
  {
  }

  /** Placing a file that was created or found identical a second time finds
      it identical and writes nothing. */
  lemma CopySafeIdempotent(f: PackFile, root: Path, fs: FS, h: Hasher)
    requires CopySafe(f, root, fs, false, h).Success? && CopySafe(f, root, fs, false, h).value.placed
    ensures var fs' := CopySafe(f, root, fs, false, h).value.fs;
            CopySafe(f, root, fs', false, h) == Success(Copy(Identical(f.relPath), true, fs'))
  {
  }

  // ---------------------------------------------------------------------------
  // The placement loop of `init`

  /** What the loop leaves behind: lines printed, the file system, and the
      error that stopped it, if one did. */
  datatype Run = Run(lines: seq<Line>, fs: FS, err: Option<Error>)

  /** The line `CopySafe` may print for `f`. */
  predicate LineAbout(l: Line, f: PackFile, root: Path) {
    l == Created(f.relPath) || l == Identical(f.relPath) || l == Conflict(Sidecar(JoinRoot(root, f.relPath)))
  }

  ghost function Footprint(files: seq<PackFile>): set<Path> {
    set p, i | 0 <= i < |files| && p in Touches(files[i]) :: p
  }

  /** Every file in order through `CopySafe`; the first error stops the loop
      and leaves the writes made so far in place. */
  function InstallAll(files: seq<PackFile>, root: Path, fs: FS, dry: bool, h: Hasher): (r: Run)
    ensures r.err.None? <==> forall i :: 0 <= i < |files| ==> files[i].read.Some?
    ensures r.err.None? ==> |r.lines| == |files|
    ensures r.err.Some? ==> |r.lines| < |files| && files[|r.lines|].read.None?
                            && r.err == Some(ReadFailed(files[|r.lines|].relPath))
    ensures forall i :: 0 <= i < |r.lines| ==> files[i].read.Some? && LineAbout(r.lines[i], files[i], root)
    ensures dry ==> r.fs == fs
    decreases |files|
  {
    if |files| == 0 then Run([], fs, None)
    else
      match CopySafe(files[0], root, fs, dry, h)
      case Failure(e) => Run([], fs, Some(e))
      case Success(c) =>
        var rest := InstallAll(files[1..], root, c.fs, dry, h);
        assert forall i :: 1 <= i < |files| ==> files[i] == files[1..][i - 1];
        Run([c.line] + rest.lines, rest.fs, rest.err)
  }

  /** The loop writes nowhere but the destinations and sidecars of its files. */
  lemma {:induction false} InstallAllFrame(files: seq<PackFile>, root: Path, fs: FS, dry: bool, h: Hasher)
    ensures SameOutside(fs, InstallAll(files, root, fs, dry, h).fs, Footprint(files))
    decreases |files|
  {
    if |files| > 0 && files[0].read.Some? {
      var c := CopySafe(files[0], root, fs, dry, h).value;
      InstallAllFrame(files[1..], root, c.fs, dry, h);
      CopySafeFrame(files[0], root, fs, dry, h);
      FootprintCons(files);
    }
  }

  lemma FootprintCons(files: seq<PackFile>)
    requires |files| > 0
    ensures Footprint(files) == Touches(files[0]) + Footprint(files[1..])
  {
    forall p | p in Footprint(files)
      ensures p in Touches(files[0]) + Footprint(files[1..])
    {
      var i :| 0 <= i < |files| && p in Touches(files[i]);
      if i > 0 {
        assert files[i] == files[1..][i - 1];
      }
    }
    forall p | p in Footprint(files[1..])
      ensures p in Footprint(files)
    {
      var i :| 0 <= i < |files[1..]| && p in Touches(files[1..][i]);
      assert files[1..][i] == files[i + 1];
    }
  }

  /** Pack paths are pairwise distinct, and none is another's sidecar: what a
      sorted, duplicate-free pack list with no `.codo.new` entries gives. */
  predicate Separated(files: seq<PackFile>) {
    && (forall i, j :: 0 <= i < j < |files| ==> files[i].relPath != files[j].relPath)
    && (forall i, j :: 0 <= i < |files| && 0 <= j < |files| ==> files[i].relPath != Sidecar(files[j].relPath))
  }

  lemma SidecarInjective(p: Path, q: Path)
    ensures Sidecar(p) == Sidecar(q) ==> p == q
  {
    assert p == Sidecar(p)[..|p|];
    assert q == Sidecar(q)[..|q|];
  }

  /** In a separated list, the first file's destination and sidecar lie
      outside what the rest of the list may write. */
  lemma HeadOutsideRest(files: seq<PackFile>)
    requires |files| > 0 && Separated(files)
    ensures files[0].relPath !in Footprint(files[1..])
    ensures Sidecar(files[0].relPath) !in Footprint(files[1..])
    ensures Separated(files[1..])
  {
    var rest := files[1..];
    forall i | 0 <= i < |rest|
      ensures files[0].relPath !in Touches(rest[i])
      ensures Sidecar(files[0].relPath) !in Touches(rest[i])
    {
      assert rest[i] == files[i + 1];
      SidecarInjective(files[0].relPath, rest[i].relPath);
    }
    assert forall i :: 0 <= i < |rest| ==> rest[i] == files[i + 1];
  }

  /** The second-run classification of a file after the first run: the live
      file hashes like the pack content, or the sidecar already holds it. */
  predicate Settled(files: seq<PackFile>, g: FS, h: Hasher) {
    forall i :: 0 <= i < |files| ==>
      && files[i].read.Some?
      && files[i].relPath in g
      && (h(g[files[i].relPath]) == h(files[i].read.value)
          || (Sidecar(files[i].relPath) in g && g[Sidecar(files[i].relPath)] == files[i].read.value))
  }

  /** On a settled file system the loop writes nothing: created and
      identical files come out identical, conflicts stay conflicts. */
  lemma {:induction false} SettledIsFixedPoint(files: seq<PackFile>, root: Path, g: FS, h: Hasher)
    requires Settled(files, g, h)
    ensures var r := InstallAll(files, root, g, false, h);
            && r.err.None? && r.fs == g
            && forall i :: 0 <= i < |files| ==>
                 r.lines[i] == (if h(g[files[i].relPath]) == h(files[i].read.value) then Identical(files[i].relPath)
                                else Conflict(Sidecar(JoinRoot(root, files[i].relPath))))
    decreases |files|
  {
    if |files| > 0 {
      var f := files[0];
      var c := CopySafe(f, root, g, false, h).value;
      if h(g[f.relPath]) != h(f.read.value) {
        assert g[Sidecar(f.relPath) := f.read.value] == g;
      }
      assert c.fs == g;
      assert Settled(files[1..], g, h) by {
        forall i | 0 <= i < |files[1..]|
          ensures files[1..][i] == files[i + 1]
        {
        }
      }
      SettledIsFixedPoint(files[1..], root, g, h);
      var rest := InstallAll(files[1..], root, g, false, h);
      assert InstallAll(files, root, g, false, h) == Run([c.line] + rest.lines, g, None);
      forall i | 1 <= i < |files|
        ensures files[i] == files[1..][i - 1]
      {
      }
    }
  }

  /** What the first run leaves behind is settled. */
  lemma {:induction false} FirstRunSettles(files: seq<PackFile>, root: Path, fs: FS, h: Hasher)
    requires Separated(files)
    requires InstallAll(files, root, fs, false, h).err.None?
    ensures Settled(files, InstallAll(files, root, fs, false, h).fs, h)
    ensures forall i :: 0 <= i < |files| ==>
              (InstallAll(files, root, fs, false, h).lines[i].Conflict? <==>
                 h(InstallAll(files, root, fs, false, h).fs[files[i].relPath]) != h(files[i].read.value))
    decreases |files|
  {
    if |files| > 0 {
      var f := files[0];
      var c := CopySafe(f, root, fs, false, h).value;
      var rest := files[1..];
      var g := InstallAll(rest, root, c.fs, false, h).fs;
      HeadOutsideRest(files);
      FirstRunSettles(rest, root, c.fs, h);
      InstallAllFrame(rest, root, c.fs, false, h);
      assert InstallAll(files, root, fs, false, h).fs == g;
      CopySafeFrame(f, root, fs, false, h);
      assert f.relPath in c.fs;
      assert f.relPath in g && g[f.relPath] == c.fs[f.relPath];
      if c.line.Conflict? {
        assert g[Sidecar(f.relPath)] == c.fs[Sidecar(f.relPath)];
      }
      forall i | 1 <= i < |files|
        ensures files[i] == rest[i - 1]
      {
      }
    }
  }

  /** Idempotence of `init`'s placement loop: running it again on what it
      left behind writes nothing, prints "=" for every file it created or
      found identical, and reports the same conflicts again. */
  lemma InstallTwice(files: seq<PackFile>, root: Path, fs: FS, h: Hasher)
    requires Separated(files)
    requires InstallAll(files, root, fs, false, h).err.None?
    ensures var first := InstallAll(files, root, fs, false, h);
            var second := InstallAll(files, root, first.fs, false, h);
            && second.err.None? && second.fs == first.fs
            && forall i :: 0 <= i < |files| ==>
                 second.lines[i] == (if first.lines[i].Conflict? then first.lines[i] else Identical(files[i].relPath))
  {
    var first := InstallAll(files, root, fs, false, h);
    FirstRunSettles(files, root, fs, h);
    SettledIsFixedPoint(files, root, first.fs, h);
  }

  /** Two file systems that agree on every path in `ps`. */
  ghost predicate AgreeOn(a: FS, b: FS, ps: set<Path>) {
    forall p :: p in ps ==> (p in a <==> p in b) && (p in a ==> a[p] == b[p])
  }

  /** A dry run prints exactly the lines the real run prints, and stops at
      the same error. */
  lemma {:induction false} DryRunPreviews(files: seq<PackFile>, root: Path, dryFs: FS, fs: FS, h: Hasher)
    requires Separated(files)
    requires AgreeOn(dryFs, fs, Footprint(files))
    ensures InstallAll(files, root, dryFs, true, h).lines == InstallAll(files, root, fs, false, h).lines
    ensures InstallAll(files, root, dryFs, true, h).err == InstallAll(files, root, fs, false, h).err
    decreases |files|
  {
    if |files| > 0 {
      var f := files[0];
      FootprintCons(files);
      if f.read.Some? {
        var cd := CopySafe(f, root, dryFs, true, h).value;
        var c := CopySafe(f, root, fs, false, h).value;
        assert cd.line == c.line;
        HeadOutsideRest(files);
        CopySafeFrame(f, root, fs, false, h);
        DryRunPreviews(files[1..], root, dryFs, c.fs, h);
      }
    }
  }
}
