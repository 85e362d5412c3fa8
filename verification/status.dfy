/**
 * `codo status` (cli/cmd/status.go): a read-only comparison of the install
 * record with the live files. It takes no file system to return, so it
 * cannot write one.
 */
module Status {
  import opened Wrappers
  import opened Types
  import opened Manifests

  /** What `status` reports: not installed, or the recorded version with the
      drift items. */
  datatype Report = NotInstalledReport | Installed(version: string, drift: seq<Line>)

  /** The report, when there is one, and the error returned. Under
      `--strict` a report with drift is printed and also fails. */
  datatype StatusOutcome = StatusOutcome(report: Option<Report>, err: Option<Error>)

  /** A tracked file has drifted when it cannot be read or no longer has the
      recorded hash. */
  predicate Drifted(e: Entry, fs: FS, h: Hasher) {
    e.path !in fs || h(fs[e.path]) != e.sha256
  }

  /** The drift item for one entry: none, missing or modified. */
  function DriftOf(e: Entry, fs: FS, h: Hasher): seq<Line> {
    if e.path !in fs then [DriftMissing(e.path)]
    else if h(fs[e.path]) != e.sha256 then [DriftModified(e.path)]
    else []
  }

  /** The drift items of the record, in record order. */
  function Drift(entries: seq<Entry>, fs: FS, h: Hasher): (r: seq<Line>)
    ensures |r| <= |entries|
    decreases |entries|
  {
    if |entries| == 0 then [] else DriftOf(entries[0], fs, h) + Drift(entries[1..], fs, h)
  }

  /** Status is clean exactly when no tracked file has drifted. */
  lemma {:induction false} DriftEmptyIff(entries: seq<Entry>, fs: FS, h: Hasher)
    ensures Drift(entries, fs, h) == [] <==> forall i :: 0 <= i < |entries| ==> !Drifted(entries[i], fs, h)
    decreases |entries|
  {
    if |entries| > 0 {
      DriftEmptyIff(entries[1..], fs, h);
      assert forall i :: 1 <= i < |entries| ==> entries[i] == entries[1..][i - 1];
    }
  }

  /** Every drifted file is reported: as missing when it cannot be read, as
      modified otherwise. */
  lemma {:induction false} DriftReportsDrifted(entries: seq<Entry>, fs: FS, h: Hasher, i: nat)
    requires i < |entries| && Drifted(entries[i], fs, h)
    ensures entries[i].path !in fs ==> DriftMissing(entries[i].path) in Drift(entries, fs, h)
    ensures entries[i].path in fs ==> DriftModified(entries[i].path) in Drift(entries, fs, h)
    decreases |entries|
  {
    if i > 0 {
      DriftReportsDrifted(entries[1..], fs, h, i - 1);
      assert entries[1..][i - 1] == entries[i];
    }
  }

  /** Nothing else is reported: every drift item is the item of some drifted
      file. */
  lemma {:induction false} DriftOnlyDrifted(entries: seq<Entry>, fs: FS, h: Hasher, l: Line)
    requires l in Drift(entries, fs, h)
    ensures exists i :: 0 <= i < |entries| && Drifted(entries[i], fs, h) && DriftOf(entries[i], fs, h) == [l]
    decreases |entries|
  {
    if l in DriftOf(entries[0], fs, h) {
      assert DriftOf(entries[0], fs, h) == [l];
    } else {
      DriftOnlyDrifted(entries[1..], fs, h, l);
      var j :| 0 <= j < |entries[1..]| && Drifted(entries[1..][j], fs, h) && DriftOf(entries[1..][j], fs, h) == [l];
      assert entries[j + 1] == entries[1..][j];
    }
  }

  /** Drift items follow record order: the drift of a concatenation is the
      concatenation of the drifts. */
  lemma {:induction false} DriftAppend(a: seq<Entry>, b: seq<Entry>, fs: FS, h: Hasher)
    ensures Drift(a + b, fs, h) == Drift(a, fs, h) + Drift(b, fs, h)
    decreases |a|
  {
    if |a| > 0 {
      assert (a + b)[0] == a[0];
      assert (a + b)[1..] == a[1..] + b;
      DriftAppend(a[1..], b, fs, h);
    } else {
      assert a + b == b;
    }
  }

  /** `statusCmd.RunE`. */
  function StatusCommand(fs: FS, docs: Docs, loc: Loc, strict: bool, h: Hasher): (r: StatusOutcome)
    ensures !Exists(docs, loc) ==> r == StatusOutcome(Some(NotInstalledReport), None)
    ensures Exists(docs, loc) && Open(docs, loc).Failure? ==> r == StatusOutcome(None, Some(Open(docs, loc).error))
    ensures Exists(docs, loc) && Open(docs, loc).Success? ==>
              && r.report == Some(Installed(Open(docs, loc).value.version, Drift(Open(docs, loc).value.files, fs, h)))
              && (r.err.Some? <==> strict && Drift(Open(docs, loc).value.files, fs, h) != [])
              && (r.err.Some? ==> r.err == Some(DriftDetected))
  {
    if !Exists(docs, loc) then StatusOutcome(Some(NotInstalledReport), None)
    else
      match Open(docs, loc)
      case Failure(e) => StatusOutcome(None, Some(e))
      case Success(m) =>
        var drift := Drift(m.files, fs, h);
        StatusOutcome(Some(Installed(m.version, drift)), if strict && drift != [] then Some(DriftDetected) else None)
  }

  /** Right after a record is written from the live files, status reports no
      drift for the files that were on disk. */
  lemma FreshRecordHasNoDrift(files: seq<PackFile>, fs: FS, unmanaged: map<Path, bool>, h: Hasher)
    requires forall i :: 0 <= i < |files| ==> files[i].relPath in fs
    ensures Records(files, fs, unmanaged, h).Success?
    ensures Drift(Records(files, fs, unmanaged, h).value, fs, h) == []
  {
    var es := Records(files, fs, unmanaged, h).value;
    forall i | 0 <= i < |es|
      ensures !Drifted(es[i], fs, h)
    {
      assert Record(files[i], fs, unmanaged, h) == Success(es[i]);
    }
    DriftEmptyIff(es, fs, h);
  }
}
