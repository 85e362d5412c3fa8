/**
 * `codo update` (cli/cmd/update.go): a three-way reconciliation between the
 * install record (what was installed, with the hash it had), the live file
 * system, and the newly resolved pack. Files the user has not touched follow
 * the pack; files the user edited are kept, and the pack's version is put
 * beside them; files the pack dropped are deleted only if untouched.
 */
module Update {
  import opened Wrappers
  import opened Types
  import opened StringOrder
  import opened Manifests
  import opened CommandBase
  import Resolver

  /** The advisory text written beside a modified file the pack dropped. */
  const Advisory: string :=
    "Upstream removed this file, but you have local changes.\nConsider removing it manually if no longer needed.\n"

  /** The new pack's contents by destination: entries whose `Read` fails are
      left out (and so look removed upstream); a later entry for the same
      path wins. */
  function NewContents(files: seq<PackFile>): (r: map<Path, Bytes>)
    ensures forall p :: p in r ==> exists i :: 0 <= i < |files| && files[i].relPath == p && files[i].read.Some?
    decreases |files|
  {
    if |files| == 0 then map[]
    else
      var head := if files[0].read.Some? then map[files[0].relPath := files[0].read.value] else map[];
      var rest := NewContents(files[1..]);
      assert forall i :: 1 <= i < |files| ==> files[i] == files[1..][i - 1];
      head + rest
  }

  /** Every readable pack entry is in the new map, with the content of the
      last readable entry for its path. */
  lemma {:induction false} NewContentsHasLastRead(files: seq<PackFile>, i: nat)
    requires i < |files| && files[i].read.Some?
    requires forall j :: i < j < |files| ==> files[j].relPath != files[i].relPath || files[j].read.None?
    ensures files[i].relPath in NewContents(files)
    ensures NewContents(files)[files[i].relPath] == files[i].read.value
    decreases |files|
  {
    var rest := files[1..];
    if i > 0 {
      assert forall j :: i - 1 < j < |rest| ==> rest[j] == files[j + 1];
      NewContentsHasLastRead(rest, i - 1);
      assert rest[i - 1] == files[i];
    } else {
      forall j | 0 <= j < |rest|
        ensures rest[j].relPath != files[i].relPath || rest[j].read.None?
      {
        assert rest[j] == files[j + 1];
      }
      assert files[i].relPath !in NewContents(rest);
    }
  }

  /** The paths one tracked file's reconciliation may write. */
  function Touch(p: Path): set<Path> {
    {p, Sidecar(p), Note(p)}
  }

  /** What part of the loop leaves behind: lines printed and the file system. */
  datatype Pass = Pass(lines: seq<Line>, fs: FS)

  /** One tracked file, judged against the new pack and the live file. */
  function Step(ent: Entry, newMap: map<Path, Bytes>, fs: FS, dry: bool, h: Hasher): (r: Pass)
    // gone from the pack
    ensures ent.path !in newMap && ent.path !in fs ==> r == Pass([], fs)
    ensures ent.path !in newMap && ent.path in fs && h(fs[ent.path]) == ent.sha256 ==>
              r.lines == [Pruned(ent.path)] && (!dry ==> ent.path !in r.fs)
    ensures ent.path !in newMap && ent.path in fs && h(fs[ent.path]) != ent.sha256 ==>
              r.lines == [Orphaned(Note(ent.path))]
              && (!dry ==> Note(ent.path) in r.fs && r.fs[Note(ent.path)] == AsciiBytes(Advisory))
    // still in the pack
    ensures ent.path in newMap && ent.path !in fs ==>
              r.lines == [Created(ent.path)] && (!dry ==> ent.path in r.fs && r.fs[ent.path] == newMap[ent.path])
    ensures ent.path in newMap && ent.path in fs && h(fs[ent.path]) == ent.sha256 ==>
              r.lines == [Refreshed(ent.path)] && (!dry ==> ent.path in r.fs && r.fs[ent.path] == newMap[ent.path])
    ensures ent.path in newMap && ent.path in fs && h(fs[ent.path]) != ent.sha256 ==>
              r.lines == [Conflict(Sidecar(ent.path))]
              && (!dry ==> Sidecar(ent.path) in r.fs && r.fs[Sidecar(ent.path)] == newMap[ent.path])
    // what never changes
    ensures ent.path in fs && h(fs[ent.path]) != ent.sha256 ==> ent.path in r.fs && r.fs[ent.path] == fs[ent.path]
    ensures SameOutside(fs, r.fs, Touch(ent.path))
    ensures dry ==> r.fs == fs
  {
    var p := ent.path;
    SuffixesDiffer(p);
    if p !in newMap then
      if p !in fs then Pass([], fs)
      else if h(fs[p]) == ent.sha256 then Pass([Pruned(p)], if dry then fs else fs - {p})
      else Pass([Orphaned(Note(p))], if dry then fs else fs[Note(p) := AsciiBytes(Advisory)])
    else if p !in fs then Pass([Created(p)], if dry then fs else fs[p := newMap[p]])
    else if h(fs[p]) == ent.sha256 then Pass([Refreshed(p)], if dry then fs else fs[p := newMap[p]])
    else Pass([Conflict(Sidecar(p))], if dry then fs else fs[Sidecar(p) := newMap[p]])
  }

  /** A file, its sidecar and its advisory are three different paths. */
  lemma SuffixesDiffer(p: Path)
    ensures p != Sidecar(p) && p != Note(p) && Sidecar(p) != Note(p)
  {
    assert |Sidecar(p)| == |p| + 9;
    assert |Note(p)| == |p| + 23;
  }

  /** Two file systems that agree on every path in `ps`. */
  ghost predicate AgreeOn(a: FS, b: FS, ps: set<Path>) {
    forall p :: p in ps ==> (p in a <==> p in b) && (p in a ==> a[p] == b[p])
  }

  /** A step reads and writes only its own three paths. */
  lemma StepLocal(ent: Entry, newMap: map<Path, Bytes>, a: FS, b: FS, dry: bool, h: Hasher)
    requires AgreeOn(a, b, Touch(ent.path))
    ensures Step(ent, newMap, a, dry, h).lines == Step(ent, newMap, b, dry, h).lines
    ensures AgreeOn(Step(ent, newMap, a, dry, h).fs, Step(ent, newMap, b, dry, h).fs, Touch(ent.path))
  {
    assert ent.path in Touch(ent.path);
  }

  /** The tracked loop: every manifest entry in manifest order. */
  function ProcessOld(entries: seq<Entry>, newMap: map<Path, Bytes>, fs: FS, dry: bool, h: Hasher): (r: Pass)
    ensures dry ==> r.fs == fs
    ensures |r.lines| <= |entries|
    decreases |entries|
  {
    if |entries| == 0 then Pass([], fs)
    else
      var s := Step(entries[0], newMap, fs, dry, h);
      var rest := ProcessOld(entries[1..], newMap, s.fs, dry, h);
      Pass(s.lines + rest.lines, rest.fs)
  }

  /** Every destination of the new pack the manifest does not track, in
      sorted order (Go iterates the map in an unspecified order). */
  function EntryPaths(entries: seq<Entry>): set<Path> {
    set i | 0 <= i < |entries| :: entries[i].path
  }

  function Fresh(entries: seq<Entry>, newMap: map<Path, Bytes>): (r: seq<Path>)
    ensures forall q :: q in r <==> q in newMap && q !in EntryPaths(entries)
    ensures StrictlySorted(r)
  {
    SortSet(newMap.Keys - EntryPaths(entries))
  }

  /** The untracked loop: each new pack path is written, whether or not a
      file is already there. */
  function AddNew(paths: seq<Path>, newMap: map<Path, Bytes>, fs: FS, dry: bool): (r: Pass)
    requires forall i :: 0 <= i < |paths| ==> paths[i] in newMap
    ensures |r.lines| == |paths| && forall i :: 0 <= i < |paths| ==> r.lines[i] == Created(paths[i])
    ensures !dry ==> forall i :: 0 <= i < |paths| ==> paths[i] in r.fs && r.fs[paths[i]] == newMap[paths[i]]
    ensures SameOutside(fs, r.fs, set i | 0 <= i < |paths| :: paths[i])
    ensures dry ==> r.fs == fs
    decreases |paths|
  {
    if |paths| == 0 then Pass([], fs)
    else
      var q := paths[0];
      var fs1 := if dry then fs else fs[q := newMap[q]];
      var rest := AddNew(paths[1..], newMap, fs1, dry);
      assert forall i :: 1 <= i < |paths| ==> paths[i] == paths[1..][i - 1];
      assert (set i | 0 <= i < |paths| :: paths[i]) == {q} + (set i | 0 <= i < |paths[1..]| :: paths[1..][i]);
      SameOutsideChain(fs, fs1, rest.fs, {q}, set i | 0 <= i < |paths[1..]| :: paths[1..][i]);
      assert !dry ==> q in rest.fs && rest.fs[q] == newMap[q];
      Pass([Created(q)] + rest.lines, rest.fs)
  }

  /** Both loops. */
  function Reconcile(entries: seq<Entry>, newMap: map<Path, Bytes>, fs: FS, dry: bool, h: Hasher): (r: Pass)
    ensures dry ==> r.fs == fs
  {
    var tracked := ProcessOld(entries, newMap, fs, dry, h);
    var untracked := Fresh(entries, newMap);
    var added := AddNew(untracked, newMap, tracked.fs, dry);
    Pass(tracked.lines + added.lines, added.fs)
  }

  // ---------------------------------------------------------------------------
  // What the loops do to each path

  /** Tracked paths are distinct, and none is another tracked file's sidecar
      or advisory. A manifest written from a sorted pack list without such
      names has this shape. */
  predicate Separated(entries: seq<Entry>) {
    && (forall i, j :: 0 <= i < j < |entries| ==> entries[i].path != entries[j].path)
    && (forall i, j :: 0 <= i < |entries| && 0 <= j < |entries| ==>
          entries[i].path != Sidecar(entries[j].path) && entries[i].path != Note(entries[j].path))
  }

  /** No new pack path is a tracked file's sidecar or advisory. */
  predicate Apart(entries: seq<Entry>, newMap: map<Path, Bytes>) {
    forall q, j :: q in newMap && 0 <= j < |entries| ==>
      q != Sidecar(entries[j].path) && q != Note(entries[j].path)
  }

  ghost function OldFootprint(entries: seq<Entry>): set<Path> {
    set p, i | 0 <= i < |entries| && p in Touch(entries[i].path) :: p
  }

  lemma OldFootprintCons(entries: seq<Entry>)
    requires |entries| > 0
    ensures OldFootprint(entries) == Touch(entries[0].path) + OldFootprint(entries[1..])
  {
    forall p | p in OldFootprint(entries)
      ensures p in Touch(entries[0].path) + OldFootprint(entries[1..])
    {
      var i :| 0 <= i < |entries| && p in Touch(entries[i].path);
      if i > 0 {
        assert entries[i] == entries[1..][i - 1];
      }
    }
    forall p | p in OldFootprint(entries[1..])
      ensures p in OldFootprint(entries)
    {
      var i :| 0 <= i < |entries[1..]| && p in Touch(entries[1..][i].path);
      assert entries[1..][i] == entries[i + 1];
    }
  }

  lemma SuffixInjective(p: Path, q: Path, suffix: string)
    ensures p + suffix == q + suffix ==> p == q
  {
    assert p == (p + suffix)[..|p|];
    assert q == (q + suffix)[..|q|];
  }

  /** A sidecar name ends in 'w', an advisory name in 'd'. */
  lemma SidecarIsNoNote(p: Path, q: Path)
    ensures Sidecar(p) != Note(q)
  {
    assert Sidecar(p)[|Sidecar(p)| - 1] == 'w';
    assert Note(q)[|Note(q)| - 1] == 'd';
  }

  /** Two tracked files that are neither equal nor each other's sidecar or
      advisory write disjoint sets of paths. */
  lemma TouchDisjoint(p: Path, q: Path)
    requires p != q && p != Sidecar(q) && p != Note(q) && q != Sidecar(p) && q != Note(p)
    ensures Touch(p) * Touch(q) == {}
  {
    SuffixInjective(p, q, NewSuffix);
    SuffixInjective(p, q, NoteSuffix);
    SidecarIsNoNote(p, q);
    SidecarIsNoNote(q, p);
  }

  lemma HeadApart(entries: seq<Entry>)
    requires |entries| > 0 && Separated(entries)
    ensures Touch(entries[0].path) * OldFootprint(entries[1..]) == {}
    ensures forall k :: 1 <= k < |entries| ==> Touch(entries[0].path) * Touch(entries[k].path) == {}
    ensures Separated(entries[1..])
  {
    var rest := entries[1..];
    forall k | 1 <= k < |entries|
      ensures Touch(entries[0].path) * Touch(entries[k].path) == {}
    {
      TouchDisjoint(entries[0].path, entries[k].path);
    }
    forall p | p in OldFootprint(rest)
      ensures p !in Touch(entries[0].path)
    {
      var i :| 0 <= i < |rest| && p in Touch(rest[i].path);
      assert rest[i] == entries[i + 1];
    }
    assert forall i :: 0 <= i < |rest| ==> rest[i] == entries[i + 1];
  }

  /** Reference for the printed lines of the tracked loop: every entry judged
      against the file system as it was before the loop. */
  function OldLines(entries: seq<Entry>, newMap: map<Path, Bytes>, fs: FS, h: Hasher): seq<Line>
    decreases |entries|
  {
    if |entries| == 0 then []
    else Step(entries[0], newMap, fs, true, h).lines + OldLines(entries[1..], newMap, fs, h)
  }

  lemma StepLinesIgnoreDry(ent: Entry, newMap: map<Path, Bytes>, fs: FS, h: Hasher)
    ensures Step(ent, newMap, fs, false, h).lines == Step(ent, newMap, fs, true, h).lines
  {
  }

  lemma {:induction false} OldLinesLocal(entries: seq<Entry>, newMap: map<Path, Bytes>, a: FS, b: FS, h: Hasher)
    requires AgreeOn(a, b, OldFootprint(entries))
    ensures OldLines(entries, newMap, a, h) == OldLines(entries, newMap, b, h)
    decreases |entries|
  {
    if |entries| > 0 {
      OldFootprintCons(entries);
      StepLocal(entries[0], newMap, a, b, true, h);
      OldLinesLocal(entries[1..], newMap, a, b, h);
    }
  }

  /** The tracked loop prints, given separated entries, the lines of each
      entry judged against the file system before the loop, in manifest
      order. */
  lemma {:induction false} ProcessOldLines(entries: seq<Entry>, newMap: map<Path, Bytes>, fs: FS, dry: bool, h: Hasher)
    requires Separated(entries)
    ensures ProcessOld(entries, newMap, fs, dry, h).lines == OldLines(entries, newMap, fs, h)
    decreases |entries|
  {
    if |entries| > 0 {
      var s := Step(entries[0], newMap, fs, dry, h);
      HeadApart(entries);
      OldFootprintCons(entries);
      ProcessOldLines(entries[1..], newMap, s.fs, dry, h);
      // the rest of the loop judges against `s.fs`, which differs from `fs`
      // only on the first entry's paths
      UntouchedAgree(fs, s.fs, Touch(entries[0].path), OldFootprint(entries[1..]));
      OldLinesLocal(entries[1..], newMap, s.fs, fs, h);
      StepLinesIgnoreDry(entries[0], newMap, fs, h);
      assert ProcessOld(entries, newMap, fs, dry, h).lines
          == s.lines + ProcessOld(entries[1..], newMap, s.fs, dry, h).lines;
    }
  }

  /** The tracked loop writes nothing outside the tracked paths, their
      sidecars and their advisories. */
  lemma {:induction false} ProcessOldFrame(entries: seq<Entry>, newMap: map<Path, Bytes>, fs: FS, dry: bool, h: Hasher)
    ensures SameOutside(fs, ProcessOld(entries, newMap, fs, dry, h).fs, OldFootprint(entries))
    decreases |entries|
  {
    if |entries| > 0 {
      var s := Step(entries[0], newMap, fs, dry, h);
      OldFootprintCons(entries);
      ProcessOldFrame(entries[1..], newMap, s.fs, dry, h);
    }
  }

  /** With separated entries, each tracked path (with its sidecar and
      advisory) ends up exactly as its own step on the initial file system
      leaves it. */
  lemma {:induction false} ProcessOldTracked(entries: seq<Entry>, newMap: map<Path, Bytes>, fs: FS, dry: bool, h: Hasher)
    requires Separated(entries)
    ensures forall k :: 0 <= k < |entries| ==>
              AgreeOn(ProcessOld(entries, newMap, fs, dry, h).fs, Step(entries[k], newMap, fs, dry, h).fs, Touch(entries[k].path))
    decreases |entries|
  {
    if |entries| > 0 {
      var s := Step(entries[0], newMap, fs, dry, h);
      var rest := entries[1..];
      var out := ProcessOld(entries, newMap, fs, dry, h).fs;
      HeadApart(entries);
      OldFootprintCons(entries);
      ProcessOldTracked(rest, newMap, s.fs, dry, h);
      ProcessOldFrame(rest, newMap, s.fs, dry, h);
      assert out == ProcessOld(rest, newMap, s.fs, dry, h).fs;
      forall k | 0 <= k < |entries|
        ensures AgreeOn(out, Step(entries[k], newMap, fs, dry, h).fs, Touch(entries[k].path))
      {
        if k > 0 {
          assert entries[k] == rest[k - 1];
          UntouchedAgree(fs, s.fs, Touch(entries[0].path), Touch(entries[k].path));
          StepLocal(entries[k], newMap, s.fs, fs, dry, h);
          AgreeTrans(out, Step(entries[k], newMap, s.fs, dry, h).fs, Step(entries[k], newMap, fs, dry, h).fs,
                     Touch(entries[k].path));
        } else {
          UntouchedAgree(s.fs, out, OldFootprint(rest), Touch(entries[0].path));
        }
      }
    }
  }

  /** The three facts about the tracked loop together. */
  lemma ProcessOldSpec(entries: seq<Entry>, newMap: map<Path, Bytes>, fs: FS, dry: bool, h: Hasher)
    requires Separated(entries)
    ensures var r := ProcessOld(entries, newMap, fs, dry, h);
            && r.lines == OldLines(entries, newMap, fs, h)
            && SameOutside(fs, r.fs, OldFootprint(entries))
            && forall k :: 0 <= k < |entries| ==>
                 AgreeOn(r.fs, Step(entries[k], newMap, fs, dry, h).fs, Touch(entries[k].path))
  {
    ProcessOldLines(entries, newMap, fs, dry, h);
    ProcessOldFrame(entries, newMap, fs, dry, h);
    ProcessOldTracked(entries, newMap, fs, dry, h);
  }

  /** The lines the untracked loop prints. */
  function CreatedLines(paths: seq<Path>): (r: seq<Line>)
    ensures |r| == |paths|
  {
    seq(|paths|, i requires 0 <= i < |paths| => Created(paths[i]))
  }

  /** The printed lines of both loops: the tracked ones in manifest order,
      each judged against the file system before the update (given separated
      entries), then one "+" per untracked pack path, in sorted order. */
  lemma ReconcileLines(entries: seq<Entry>, newMap: map<Path, Bytes>, fs: FS, dry: bool, h: Hasher)
    requires Separated(entries)
    ensures Reconcile(entries, newMap, fs, dry, h).lines
         == OldLines(entries, newMap, fs, h) + CreatedLines(Fresh(entries, newMap))
  {
    ProcessOldLines(entries, newMap, fs, dry, h);
    var tracked := ProcessOld(entries, newMap, fs, dry, h);
    var added := AddNew(Fresh(entries, newMap), newMap, tracked.fs, dry);
    assert added.lines == CreatedLines(Fresh(entries, newMap));
  }

  /** An update writes only tracked paths, their sidecars and advisories, and
      the paths of the new pack. */
  lemma ReconcileFrame(entries: seq<Entry>, newMap: map<Path, Bytes>, fs: FS, dry: bool, h: Hasher)
    requires Separated(entries)
    ensures SameOutside(fs, Reconcile(entries, newMap, fs, dry, h).fs, OldFootprint(entries) + newMap.Keys)
  {
    ProcessOldFrame(entries, newMap, fs, dry, h);
  }

  /** Untracked pack paths end up holding the new content. */
  lemma ReconcileWritesUntracked(entries: seq<Entry>, newMap: map<Path, Bytes>, fs: FS, h: Hasher, q: Path)
    requires q in newMap && q !in EntryPaths(entries)
    ensures q in Reconcile(entries, newMap, fs, false, h).fs
    ensures Reconcile(entries, newMap, fs, false, h).fs[q] == newMap[q]
  {
    var untracked := Fresh(entries, newMap);
    assert q in untracked;
  }

  /** The untracked loop never writes a tracked path, its sidecar or its
      advisory. */
  lemma UntrackedMissesTracked(entries: seq<Entry>, newMap: map<Path, Bytes>, k: nat)
    requires Apart(entries, newMap) && k < |entries|
    ensures forall i :: 0 <= i < |Fresh(entries, newMap)| ==> Fresh(entries, newMap)[i] !in Touch(entries[k].path)
  {
    var untracked := Fresh(entries, newMap);
    forall i | 0 <= i < |untracked|
      ensures untracked[i] !in Touch(entries[k].path)
    {
      assert untracked[i] in untracked;
      UntrackedPathApart(entries, newMap, k, untracked[i]);
    }
  }

  lemma UntrackedPathApart(entries: seq<Entry>, newMap: map<Path, Bytes>, k: nat, q: Path)
    requires Apart(entries, newMap) && k < |entries|
    requires q in newMap && q !in EntryPaths(entries)
    ensures q !in Touch(entries[k].path)
  {
    assert entries[k].path in EntryPaths(entries);
  }

  /** The untracked loop leaves alone every path it is not given. */
  lemma AddNewAvoids(paths: seq<Path>, newMap: map<Path, Bytes>, fs: FS, dry: bool, ps: set<Path>)
    requires forall i :: 0 <= i < |paths| ==> paths[i] in newMap
    requires forall i :: 0 <= i < |paths| ==> paths[i] !in ps
    ensures AgreeOn(AddNew(paths, newMap, fs, dry).fs, fs, ps)
  {
    var out := AddNew(paths, newMap, fs, dry).fs;
    forall p | p in ps
      ensures (p in out <==> p in fs) && (p in out ==> out[p] == fs[p])
    {
      assert p !in (set i | 0 <= i < |paths| :: paths[i]);
    }
  }

  /** Every tracked path ends up exactly as its own step, judged against the
      file system before the update, leaves it. */
  lemma ReconcileTracked(entries: seq<Entry>, newMap: map<Path, Bytes>, fs: FS, dry: bool, h: Hasher, k: nat)
    requires Separated(entries) && Apart(entries, newMap) && k < |entries|
    ensures AgreeOn(Reconcile(entries, newMap, fs, dry, h).fs, Step(entries[k], newMap, fs, dry, h).fs,
                    Touch(entries[k].path))
  {
    var tracked := ProcessOld(entries, newMap, fs, dry, h).fs;
    var T := Touch(entries[k].path);
    TrackedAfterOldLoop(entries, newMap, fs, dry, h, k);
    UntrackedLoopAvoids(entries, newMap, tracked, dry, k);
    AgreeTrans(Reconcile(entries, newMap, fs, dry, h).fs, tracked, Step(entries[k], newMap, fs, dry, h).fs, T);
  }

  /** One instance of the tracked-loop fact. */
  lemma TrackedAfterOldLoop(entries: seq<Entry>, newMap: map<Path, Bytes>, fs: FS, dry: bool, h: Hasher, k: nat)
    requires Separated(entries) && k < |entries|
    ensures AgreeOn(ProcessOld(entries, newMap, fs, dry, h).fs, Step(entries[k], newMap, fs, dry, h).fs,
                    Touch(entries[k].path))
  {
    ProcessOldTracked(entries, newMap, fs, dry, h);
  }

  /** The untracked loop, from any starting file system, leaves a tracked
      path, its sidecar and its advisory alone. */
  lemma UntrackedLoopAvoids(entries: seq<Entry>, newMap: map<Path, Bytes>, base: FS, dry: bool, k: nat)
    requires Apart(entries, newMap) && k < |entries|
    ensures AgreeOn(AddNew(Fresh(entries, newMap), newMap, base, dry).fs, base, Touch(entries[k].path))
  {
    UntrackedMissesTracked(entries, newMap, k);
    AddNewAvoids(Fresh(entries, newMap), newMap, base, dry, Touch(entries[k].path));
  }

  /** A change confined to `touched` leaves any set apart from it alone. */
  lemma UntouchedAgree(a: FS, b: FS, touched: set<Path>, ps: set<Path>)
    requires SameOutside(a, b, touched) && touched * ps == {}
    ensures AgreeOn(b, a, ps)
  {
    forall p | p in ps
      ensures p !in touched
    {
      assert p !in touched * ps;
    }
  }

  lemma AgreeTrans(a: FS, b: FS, c: FS, ps: set<Path>)
    requires AgreeOn(a, b, ps) && AgreeOn(b, c, ps)
    ensures AgreeOn(a, c, ps)
  {
  }

  /** The outcome for one tracked file after the whole update (outside a dry
      run), by case. */
  lemma TrackedOutcome(entries: seq<Entry>, newMap: map<Path, Bytes>, fs: FS, h: Hasher, k: nat)
    requires Separated(entries) && Apart(entries, newMap) && k < |entries|
    ensures var p := entries[k].path;
            var sha := entries[k].sha256;
            var out := Reconcile(entries, newMap, fs, false, h).fs;
            // refresh: untouched since install, still in the pack
            && (p in newMap && p in fs && h(fs[p]) == sha ==> p in out && out[p] == newMap[p])
            // conflict: the user's file stays, the pack's version goes beside it
            && (p in newMap && p in fs && h(fs[p]) != sha ==>
                  p in out && out[p] == fs[p] && Sidecar(p) in out && out[Sidecar(p)] == newMap[p])
            // re-create: deleted by the user, still in the pack
            && (p in newMap && p !in fs ==> p in out && out[p] == newMap[p])
            // already gone, and gone from the pack: nothing happens
            && (p !in newMap && p !in fs ==> AgreeOn(out, fs, Touch(p)))
            // prune: untouched, gone from the pack
            && (p !in newMap && p in fs && h(fs[p]) == sha ==> p !in out)
            // orphan: edited, gone from the pack; kept, with an advisory
            && (p !in newMap && p in fs && h(fs[p]) != sha ==>
                  p in out && out[p] == fs[p] && Note(p) in out && out[Note(p)] == AsciiBytes(Advisory))
  {
    var p := entries[k].path;
    ReconcileTracked(entries, newMap, fs, false, h, k);
    assert p in Touch(p) && Sidecar(p) in Touch(p) && Note(p) in Touch(p);
  }

  // ---------------------------------------------------------------------------
  // The command

  /** Reconciliation, then (outside a dry run) the manifest rewritten from the
      full pack list, labelled with where the pack came from, and the old stacks. */
  function UpdateCore(m: Manifest, files: seq<PackFile>, fs: FS, docs: Docs, loc: Loc, dry: bool,
                      source: string, h: Hasher): (r: Outcome)
    ensures dry ==> r.fs == fs && r.docs == docs && r.err.None?
    ensures r.lines == Reconcile(m.files, NewContents(files), fs, dry, h).lines
    ensures r.fs == Reconcile(m.files, NewContents(files), fs, dry, h).fs
    ensures !dry ==> (r.err.None? <==> WriteWithStacks(files, source, m.stacks, map[], r.fs, docs, loc, h).Success?)
    ensures r.err.Some? ==> r.docs == docs
  {
    var pass := Reconcile(m.files, NewContents(files), fs, dry, h);
    if dry then Outcome(pass.lines, pass.fs, docs, None)
    else
      match WriteWithStacks(files, source, m.stacks, map[], pass.fs, docs, loc, h)
      case Failure(e) => Outcome(pass.lines, pass.fs, docs, Some(e))
      case Success(docs') => Outcome(pass.lines, pass.fs, docs', None)
  }

  /** `updateCmd.RunE`: no manifest aborts before anything is read or
      written; otherwise open it, announce and choose the pack (never
      offline), resolve it for the recorded stacks, and reconcile. */
  function UpdateCommand(fs: FS, docs: Docs, loc: Loc, src: Sources, to: string, dry: bool, h: Hasher): (r: Outcome)
    ensures !Exists(docs, loc) ==> r == Outcome([], fs, docs, Some(NoManifest))
    ensures dry ==> r.fs == fs && r.docs == docs
    ensures r.lines != [] ==> Open(docs, loc).Success?
    ensures Exists(docs, loc) && Open(docs, loc).Success? ==>
              var pl := PackLines(src, false, to, true);
              |pl| <= |r.lines| && r.lines[..|pl|] == pl
    ensures r.fs != fs || r.docs != docs ==> ChoosePack(src, false, to).Success?
  {
    if !Exists(docs, loc) then Outcome([], fs, docs, Some(NoManifest))
    else
      match Open(docs, loc)
      case Failure(e) => Outcome([], fs, docs, Some(e))
      case Success(m) => Announced(PackLines(src, false, to, true), Fetched(m, fs, docs, loc, src, to, dry, h))
  }

  /** The command after the manifest opened: choose the pack, resolve it for
      the recorded stacks, reconcile. */
  function Fetched(m: Manifest, fs: FS, docs: Docs, loc: Loc, src: Sources, to: string, dry: bool, h: Hasher): (r: Outcome)
    ensures dry ==> r.fs == fs && r.docs == docs
    ensures ChoosePack(src, false, to).Failure? ==> r == Outcome([], fs, docs, Some(ChoosePack(src, false, to).error))
  {
    match ChoosePack(src, false, to)
    case Failure(e) => Outcome([], fs, docs, Some(e))
    case Success(c) =>
      match Resolver.FilesFromDotclaudeFS(c.tree, m.stacks)
      case Failure(e) => Outcome([], fs, docs, Some(e))
      case Success(files) => UpdateCore(m, files, fs, docs, loc, dry, c.source, h)
  }

  /** Pack paths are distinct and none is another's sidecar or advisory. */
  predicate PackSeparated(files: seq<PackFile>) {
    && (forall i, j :: 0 <= i < j < |files| ==> files[i].relPath != files[j].relPath)
    && (forall i, j :: 0 <= i < |files| && 0 <= j < |files| ==>
          files[i].relPath != Sidecar(files[j].relPath) && files[i].relPath != Note(files[j].relPath))
  }

  /** A record written from a separated pack list is separated, and apart
      from that pack's contents. */
  lemma RecordFromPackSeparated(files: seq<PackFile>, entries: seq<Entry>)
    requires PackSeparated(files)
    requires |entries| == |files| && forall i :: 0 <= i < |files| ==> entries[i].path == files[i].relPath
    ensures Separated(entries) && Apart(entries, NewContents(files))
  {
  }

  /** Behaviour of the code as written across two updates with the same pack: a file the
      user edited is reported as a conflict and kept by the first update; but
      the rewritten manifest records the hash of the edited file, so the
      second update judges it untouched and overwrites the edit with the
      pack's content. */
  lemma ConflictThenOverwrite(m: Manifest, files: seq<PackFile>, fs: FS, docs: Docs, loc: Loc,
                              source: string, h: Hasher, k: nat)
    requires loc.current.Some? ==> loc.current.value != loc.legacy
    requires PackSeparated(files)
    requires Separated(m.files) && Apart(m.files, NewContents(files))
    requires k < |m.files|
    requires m.files[k].path in NewContents(files) && m.files[k].path in fs
    requires h(fs[m.files[k].path]) != m.files[k].sha256
    requires UpdateCore(m, files, fs, docs, loc, false, source, h).err.None?
    ensures var p := m.files[k].path;
            var first := UpdateCore(m, files, fs, docs, loc, false, source, h);
            && Conflict(Sidecar(p)) in first.lines
            && p in first.fs && first.fs[p] == fs[p]
            && Open(first.docs, loc).Success?
    ensures var p := m.files[k].path;
            var first := UpdateCore(m, files, fs, docs, loc, false, source, h);
            var second := UpdateCore(Open(first.docs, loc).value, files, first.fs, first.docs, loc, false, source, h);
            && Refreshed(p) in second.lines
            && p in second.fs && second.fs[p] == NewContents(files)[p]
  {
    var p := m.files[k].path;
    var newMap := NewContents(files);
    var first := UpdateCore(m, files, fs, docs, loc, false, source, h);
    EditedTrackedFileKept(m, files, fs, docs, loc, source, h, k);
    WriteThenOpen(files, source, m.stacks, map[], first.fs, docs, loc, h);
    var m2 := Open(first.docs, loc).value;
    RecordFromPackSeparated(files, m2.files);
    var j :| 0 <= j < |files| && files[j].relPath == p && files[j].read.Some?;
    assert m2.files[j].path == p && m2.files[j].sha256 == h(first.fs[p]);
    UntouchedTrackedFileRefreshed(m2, files, first.fs, first.docs, loc, source, h, j);
  }

  /** An update that finds a tracked file edited reports a conflict and
      keeps the edit. */
  lemma EditedTrackedFileKept(m: Manifest, files: seq<PackFile>, fs: FS, docs: Docs, loc: Loc,
                              source: string, h: Hasher, k: nat)
    requires Separated(m.files) && Apart(m.files, NewContents(files))
    requires k < |m.files|
    requires m.files[k].path in NewContents(files) && m.files[k].path in fs
    requires h(fs[m.files[k].path]) != m.files[k].sha256
    ensures var p := m.files[k].path;
            var first := UpdateCore(m, files, fs, docs, loc, false, source, h);
            && Conflict(Sidecar(p)) in first.lines
            && p in first.fs && first.fs[p] == fs[p]
  {
    var newMap := NewContents(files);
    TrackedOutcome(m.files, newMap, fs, h, k);
    ReconcileLines(m.files, newMap, fs, false, h);
    StepLinesInOldLines(m.files, newMap, fs, h, k);
    StepLinesIgnoreDry(m.files[k], newMap, fs, h);
  }

  /** An update that finds a tracked file as recorded overwrites it with the
      pack's content and reports it refreshed. */
  lemma UntouchedTrackedFileRefreshed(m: Manifest, files: seq<PackFile>, fs: FS, docs: Docs, loc: Loc,
                                      source: string, h: Hasher, k: nat)
    requires Separated(m.files) && Apart(m.files, NewContents(files))
    requires k < |m.files|
    requires m.files[k].path in NewContents(files) && m.files[k].path in fs
    requires h(fs[m.files[k].path]) == m.files[k].sha256
    ensures var p := m.files[k].path;
            var r := UpdateCore(m, files, fs, docs, loc, false, source, h);
            && Refreshed(p) in r.lines
            && p in r.fs && r.fs[p] == NewContents(files)[p]
  {
    var newMap := NewContents(files);
    TrackedOutcome(m.files, newMap, fs, h, k);
    ReconcileLines(m.files, newMap, fs, false, h);
    StepLinesInOldLines(m.files, newMap, fs, h, k);
    assert Step(m.files[k], newMap, fs, true, h).lines == [Refreshed(m.files[k].path)];
    assert Refreshed(m.files[k].path) in OldLines(m.files, newMap, fs, h);
  }

  /** Each entry's own lines appear among the tracked loop's lines. */
  lemma {:induction false} StepLinesInOldLines(entries: seq<Entry>, newMap: map<Path, Bytes>, fs: FS, h: Hasher, k: nat)
    requires k < |entries|
    ensures forall l :: l in Step(entries[k], newMap, fs, true, h).lines ==> l in OldLines(entries, newMap, fs, h)
    decreases |entries|
  {
    if k > 0 {
      StepLinesInOldLines(entries[1..], newMap, fs, h, k - 1);
      assert entries[1..][k - 1] == entries[k];
    }
  }
}
