/**
 * `codo remove` (cli/cmd/remove.go): every managed file that exists is moved
 * into a time-stamped backup directory outside the repository and its
 * conflict sidecar deleted; unmanaged files are left alone (only their
 * sidecar goes); then the install record is deleted.
 *
 * The backup tree is a second map, `backups`, keyed by absolute path.
 * Directory creation always succeeds; what can fail is the move itself,
 * whose fault is an input per source path.
 */
module Remove {
  import opened Wrappers
  import opened Types
  import opened StatePath
  import opened Manifests

  /** Where the two file trees stand. */
  datatype Trees = Trees(fs: FS, backups: FS)

  /** Which step of `moveWithCopyFallback` fails for a source that exists.
      `Renamed`: the rename succeeds. Otherwise the rename fails for a reason
      other than a missing source and the copy fallback runs, failing at
      `stage` or (`NoFault`) succeeding. */
  datatype Stage = NoFault | OpenFails | CreateFails | CopyFails(written: nat) | CloseFails | RemoveSrcFails
  datatype MoveFault = Renamed | Fallback(stage: Stage)

  /** What a failed move leaves in the backup tree: nothing when the source
      could not be opened or the target created; a truncated copy when the
      copy broke off; the whole copy when only closing or deleting the
      source failed. */
  function Debris(data: Bytes, dst: Path, backups: FS, stage: Stage): (r: FS)
    ensures stage == OpenFails || stage == CreateFails ==> r == backups
    ensures stage != OpenFails && stage != CreateFails ==> r.Keys == backups.Keys + {dst}
    ensures stage == NoFault || stage == CloseFails || stage == RemoveSrcFails ==> r[dst] == data
    ensures forall q :: q != dst && q in backups ==> q in r && r[q] == backups[q]
  {
    match stage
    case NoFault => backups[dst := data]
    case OpenFails => backups
    case CreateFails => backups
    case CopyFails(n) => backups[dst := data[..if n < |data| then n else |data|]]
    case CloseFails => backups[dst := data]
    case RemoveSrcFails => backups[dst := data]
  }

  /** The trees after a move and the error it returned. */
  datatype Moved = Moved(trees: Trees, err: Option<Error>)

  /** `moveWithCopyFallback(src, dst)` from the repository into the backup
      tree. A missing source is a silent no-op. */
  function Move(src: Path, dst: Path, t: Trees, fault: MoveFault): (r: Moved)
    ensures src !in t.fs ==> r == Moved(t, None)
    ensures r.err.Some? ==> r.err == Some(MoveFailed(src)) && src in t.fs && r.trees.fs == t.fs
    ensures forall q :: q != dst && q in t.backups ==> q in r.trees.backups && r.trees.backups[q] == t.backups[q]
    ensures src in t.fs ==> (r.err.None? <==> fault == Renamed || fault == Fallback(NoFault))
    ensures src in t.fs && r.err.None? ==> r.trees == Trees(t.fs - {src}, t.backups[dst := t.fs[src]])
  {
    if src !in t.fs then Moved(t, None)
    else
      var data := t.fs[src];
      match fault
      case Renamed => Moved(Trees(t.fs - {src}, t.backups[dst := data]), None)
      case Fallback(NoFault) => Moved(Trees(t.fs - {src}, t.backups[dst := data]), None)
      case Fallback(stage) => Moved(Trees(t.fs, Debris(data, dst, t.backups, stage)), Some(MoveFailed(src)))
  }

  /** The copy fallback, when it succeeds, ends where a rename would. */
  lemma FallbackActsAsRename(src: Path, dst: Path, t: Trees)
    ensures Move(src, dst, t, Fallback(NoFault)) == Move(src, dst, t, Renamed)
  {
  }

  /** Where `remove` puts a file: `filepath.Join(backup, path)`. */
  function BackupPath(backup: Path, p: Path): Path {
    backup + "/" + p
  }

  lemma BackupPathInjective(backup: Path, p: Path, q: Path)
    ensures BackupPath(backup, p) == BackupPath(backup, q) ==> p == q
  {
    if BackupPath(backup, p) == BackupPath(backup, q) {
      var n := |backup| + 1;
      assert BackupPath(backup, p)[n..] == p;
      assert BackupPath(backup, q)[n..] == q;
    }
  }

  /** The lines printed, the trees afterwards and the error that stopped the
      loop. */
  datatype Pass = Pass(lines: seq<Line>, trees: Trees, err: Option<Error>)

  /** One entry of the loop. */
  function Visit(ent: Entry, t: Trees, backup: Path, dry: bool, fault: MoveFault): (r: Pass)
    ensures ent.unmanaged ==> r.lines == [SkippedUnmanaged(ent.path)] && r.err.None?
    ensures ent.unmanaged ==> r.trees == (if dry then t else Trees(t.fs - {Sidecar(ent.path)}, t.backups))
    ensures !ent.unmanaged && ent.path !in t.fs ==> r == Pass([], t, None)
    ensures !ent.unmanaged && ent.path in t.fs ==> r.lines == [BackedUp(ent.path)]
    ensures !ent.unmanaged && ent.path in t.fs && !dry ==>
              (r.err.None? <==> fault == Renamed || fault == Fallback(NoFault))
    ensures !ent.unmanaged && ent.path in t.fs && !dry && r.err.None? ==>
              && ent.path !in r.trees.fs && Sidecar(ent.path) !in r.trees.fs
              && BackupPath(backup, ent.path) in r.trees.backups
              && r.trees.backups[BackupPath(backup, ent.path)] == t.fs[ent.path]
    ensures r.err.Some? ==> r.err == Some(MoveFailed(ent.path)) && r.trees.fs == t.fs
    ensures dry ==> r.trees == t && r.err.None?
    ensures forall p :: p in r.trees.fs ==> p in t.fs && r.trees.fs[p] == t.fs[p]
    ensures forall p :: p in t.fs && (p != ent.path || ent.unmanaged) && p != Sidecar(ent.path) ==> p in r.trees.fs
  {
    if ent.unmanaged then
      Pass([SkippedUnmanaged(ent.path)], if dry then t else Trees(t.fs - {Sidecar(ent.path)}, t.backups), None)
    else if ent.path !in t.fs then Pass([], t, None)
    else if dry then Pass([BackedUp(ent.path)], t, None)
    else
      var mv := Move(ent.path, BackupPath(backup, ent.path), t, fault);
      if mv.err.Some? then Pass([BackedUp(ent.path)], mv.trees, mv.err)
      else Pass([BackedUp(ent.path)], Trees(mv.trees.fs - {Sidecar(ent.path)}, mv.trees.backups), None)
  }

  /** The loop over the record's entries; a failed move stops it. */
  function Sweep(entries: seq<Entry>, t: Trees, backup: Path, dry: bool, faults: Path -> MoveFault): (r: Pass)
    ensures dry ==> r.trees == t && r.err.None?
    decreases |entries|
  {
    if |entries| == 0 then Pass([], t, None)
    else
      var v := Visit(entries[0], t, backup, dry, faults(entries[0].path));
      if v.err.Some? then v
      else
        var rest := Sweep(entries[1..], v.trees, backup, dry, faults);
        Pass(v.lines + rest.lines, rest.trees, rest.err)
  }

  /** What `remove` leaves behind. */
  datatype RemoveOutcome = RemoveOutcome(lines: seq<Line>, trees: Trees, docs: Docs, err: Option<Error>)

  /** `removeCmd.RunE` for a repository at `site`, at time stamp `ts`. */
  function RemoveCommand(site: Site, ts: string, t: Trees, docs: Docs, dry: bool,
                         faults: Path -> MoveFault): (r: RemoveOutcome)
    ensures !Exists(docs, Locate(site)) ==> r == RemoveOutcome([], t, docs, Some(NoManifest))
    ensures dry ==> r.trees == t && r.docs == docs
    ensures r.docs != docs ==> !dry && r.err.None? && r.docs == Manifests.Remove(docs, Locate(site))
    ensures !dry && r.err.None? ==> !Exists(r.docs, Locate(site))
  {
    var loc := Locate(site);
    if !Exists(docs, loc) then RemoveOutcome([], t, docs, Some(NoManifest))
    else
      match Open(docs, loc)
      case Failure(e) => RemoveOutcome([], t, docs, Some(e))
      case Success(m) =>
        if dry then
          var p := Sweep(m.files, t, "", true, faults);
          RemoveOutcome(p.lines, p.trees, docs, p.err)
        else
          match BackupDir(site, ts)
          case None => RemoveOutcome([], t, docs, Some(StateDirUnavailable))
          case Some(backup) =>
            var p := Sweep(m.files, t, backup, false, faults);
            if p.err.Some? then RemoveOutcome(p.lines, p.trees, docs, p.err)
            else RemoveOutcome(p.lines, p.trees, Manifests.Remove(docs, loc), None)
  }

  // ---------------------------------------------------------------------------
  // Properties of the loop

  /** Paths are distinct and none is another entry's sidecar. */
  predicate Disjoint(entries: seq<Entry>) {
    && (forall i, j :: 0 <= i < j < |entries| ==> entries[i].path != entries[j].path)
    && (forall i, j :: 0 <= i < |entries| && 0 <= j < |entries| ==> entries[i].path != Sidecar(entries[j].path))
  }

  /** `p` is neither a managed entry's path nor any entry's sidecar, the
      only paths the loop deletes. */
  predicate Spared(entries: seq<Entry>, p: Path) {
    forall i :: 0 <= i < |entries| ==> (p != entries[i].path || entries[i].unmanaged) && p != Sidecar(entries[i].path)
  }

  /** The lines judged against the repository as it was before the loop: a
      skip line per unmanaged entry, a backup line per managed file present. */
  function Plan(entries: seq<Entry>, fs: FS): seq<Line>
    decreases |entries|
  {
    if |entries| == 0 then []
    else
      var e := entries[0];
      (if e.unmanaged then [SkippedUnmanaged(e.path)] else if e.path in fs then [BackedUp(e.path)] else [])
        + Plan(entries[1..], fs)
  }

  /** Everything the loop does, stated against the trees before it: when no
      move fails, it prints the plan, moves every managed file that existed
      to its backup path with the same bytes, deletes the sidecars of all
      entries but managed ones that were absent, and changes nothing else in
      the repository. Unmanaged files themselves stay. */
  lemma {:induction false} SweepSpec(entries: seq<Entry>, t: Trees, backup: Path, faults: Path -> MoveFault)
    requires Disjoint(entries)
    requires Sweep(entries, t, backup, false, faults).err.None?
    ensures var r := Sweep(entries, t, backup, false, faults);
            && r.lines == Plan(entries, t.fs)
            && (forall i :: 0 <= i < |entries| && !entries[i].unmanaged && entries[i].path in t.fs ==>
                  entries[i].path !in r.trees.fs
                  && BackupPath(backup, entries[i].path) in r.trees.backups
                  && r.trees.backups[BackupPath(backup, entries[i].path)] == t.fs[entries[i].path])
            && (forall p :: p in r.trees.fs ==> p in t.fs && r.trees.fs[p] == t.fs[p])
            && (forall p :: p in t.fs && Spared(entries, p) ==> p in r.trees.fs)
    decreases |entries|
  {
    if |entries| > 0 {
      var e := entries[0];
      var v := Visit(e, t, backup, false, faults(e.path));
      var rest := entries[1..];
      assert Disjoint(rest) by {
        forall i | 0 <= i < |rest|
          ensures rest[i] == entries[i + 1]
        {
        }
      }
      SweepSpec(rest, v.trees, backup, faults);
      var r := Sweep(entries, t, backup, false, faults);
      var rr := Sweep(rest, v.trees, backup, false, faults);
      assert r.trees == rr.trees && r.lines == v.lines + rr.lines;
      PlanUnaffected(rest, t.fs, v.trees.fs, e);
      forall i | 1 <= i < |entries|
        ensures entries[i] == rest[i - 1]
      {
      }
      forall p | p in t.fs && Spared(entries, p)
        ensures p in v.trees.fs && Spared(rest, p)
      {
        assert forall i :: 0 <= i < |rest| ==> rest[i] == entries[i + 1];
      }
      if !e.unmanaged && e.path in t.fs {
        assert e.path !in v.trees.fs;
        assert v.trees.backups[BackupPath(backup, e.path)] == t.fs[e.path];
        BackupKept(rest, v.trees, backup, faults, e.path);
      }
    }
  }

  /** The first entry's visit does not change what the rest of the plan sees. */
  lemma {:induction false} PlanUnaffected(rest: seq<Entry>, a: FS, b: FS, e: Entry)
    requires forall i :: 0 <= i < |rest| ==> rest[i].path != e.path && rest[i].path != Sidecar(e.path)
    requires forall p :: p != e.path && p != Sidecar(e.path) ==> (p in a <==> p in b)
    ensures Plan(rest, a) == Plan(rest, b)
    decreases |rest|
  {
    if |rest| > 0 {
      PlanUnaffected(rest[1..], a, b, e);
    }
  }

  /** A backup already made is not overwritten by later entries with other
      paths. */
  lemma {:induction false} BackupKept(entries: seq<Entry>, t: Trees, backup: Path, faults: Path -> MoveFault, p: Path)
    requires forall i :: 0 <= i < |entries| ==> entries[i].path != p
    requires BackupPath(backup, p) in t.backups
    ensures var r := Sweep(entries, t, backup, false, faults);
            BackupPath(backup, p) in r.trees.backups && r.trees.backups[BackupPath(backup, p)] == t.backups[BackupPath(backup, p)]
    decreases |entries|
  {
    if |entries| > 0 {
      var e := entries[0];
      BackupPathInjective(backup, e.path, p);
      var v := Visit(e, t, backup, false, faults(e.path));
      if v.err.None? {
        BackupKept(entries[1..], v.trees, backup, faults, p);
      }
    }
  }

  /** Unmanaged files stay exactly as they were, whatever the loop does to
      the rest. */
  lemma UnmanagedUntouched(entries: seq<Entry>, t: Trees, backup: Path, faults: Path -> MoveFault, k: nat)
    requires Disjoint(entries)
    requires Sweep(entries, t, backup, false, faults).err.None?
    requires k < |entries| && entries[k].unmanaged && entries[k].path in t.fs
    ensures var r := Sweep(entries, t, backup, false, faults);
            entries[k].path in r.trees.fs && r.trees.fs[entries[k].path] == t.fs[entries[k].path]
  {
    SweepSpec(entries, t, backup, faults);
    var p := entries[k].path;
    forall i | 0 <= i < |entries|
      ensures (p != entries[i].path || entries[i].unmanaged) && p != Sidecar(entries[i].path)
    {
      if i != k {
        assert entries[i].path != entries[k].path || i > k;
      }
    }
  }

  /** A dry run prints the plan and changes nothing. */
  lemma {:induction false} DrySweepPrintsPlan(entries: seq<Entry>, t: Trees, backup: Path, faults: Path -> MoveFault)
    ensures Sweep(entries, t, backup, true, faults) == Pass(Plan(entries, t.fs), t, None)
    decreases |entries|
  {
    if |entries| > 0 {
      DrySweepPrintsPlan(entries[1..], t, backup, faults);
    }
  }

  /** A dry run previews the real one: same lines, nothing written, record
      kept. */
  lemma DryRunPreviews(site: Site, ts: string, t: Trees, docs: Docs, faults: Path -> MoveFault)
    requires Exists(docs, Locate(site)) && Open(docs, Locate(site)).Success?
    requires Disjoint(Open(docs, Locate(site)).value.files)
    requires RemoveCommand(site, ts, t, docs, false, faults).err.None?
    ensures RemoveCommand(site, ts, t, docs, true, faults).lines == RemoveCommand(site, ts, t, docs, false, faults).lines
    ensures RemoveCommand(site, ts, t, docs, true, faults) == RemoveOutcome(Plan(Open(docs, Locate(site)).value.files, t.fs), t, docs, None)
  {
    var m := Open(docs, Locate(site)).value;
    DrySweepPrintsPlan(m.files, t, "", faults);
    SweepSpec(m.files, t, BackupDir(site, ts).value, faults);
  }
}
