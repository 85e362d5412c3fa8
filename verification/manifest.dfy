/**
 * The install record (cli/internal/manifest/manifest.go): one entry per
 * installed file with the hash that was on disk when the record was
 * written, the pack version and the requested stacks. The record lives at
 * the per-user state path; an older release kept it inside the repository
 * and every write migrates it away from there.
 *
 * The JSON encoding is not modelled: a stored record is either a parsed
 * `Manifest` or `Corrupt` (present but not decodable).
 */
module Manifests {
  import opened Wrappers
  import opened Types
  import opened StatePath

  datatype Entry = Entry(path: Path, sha256: Digest, unmanaged: bool)

  datatype Manifest = Manifest(version: string, installedAt: string, files: seq<Entry>, stacks: seq<string>)

  datatype Doc = Parsed(m: Manifest) | Corrupt

  /** The two places a record may live: the state-path file (absent when no
      base directory can be found) and the legacy in-repository file. */
  datatype Loc = Loc(current: Option<Path>, legacy: Path)

  function Locate(s: Site): (r: Loc)
    ensures r.current == ManifestPath(s) && r.legacy == LegacyManifestPath(s.root)
    ensures r.current.Some? ==> r.current.value != r.legacy
  {
    if ManifestPath(s).Some? then
      ManifestLocationsDistinct(s);
      Loc(ManifestPath(s), LegacyManifestPath(s.root))
    else Loc(None, LegacyManifestPath(s.root))
  }

  /** Every state file that exists, keyed by absolute path. */
  type Docs = map<Path, Doc>

  /** A location that holds a file, whether or not it parses. */
  predicate Stored(docs: Docs, p: Option<Path>) {
    p.Some? && p.value in docs
  }

  /** `Exists`: either location holds a file. */
  function Exists(docs: Docs, loc: Loc): (r: bool)
    ensures r <==> Stored(docs, loc.current) || loc.legacy in docs
  {
    Stored(docs, loc.current) || loc.legacy in docs
  }

  /** `Open`: the current record when it is there and parses, otherwise the
      legacy one; a legacy file that is missing or does not parse is an
      error. */
  function Open(docs: Docs, loc: Loc): (r: Res<Manifest>)
    ensures r.Success? <==> ((Stored(docs, loc.current) && docs[loc.current.value].Parsed?)
                           || (loc.legacy in docs && docs[loc.legacy].Parsed?))
    ensures r.Failure? ==> r.error == (if loc.legacy in docs then ManifestCorrupt else ManifestNotFound)
  {
    if Stored(docs, loc.current) && docs[loc.current.value].Parsed? then Success(docs[loc.current.value].m)
    else if loc.legacy !in docs then Failure(ManifestNotFound)
    else if docs[loc.legacy].Corrupt? then Failure(ManifestCorrupt)
    else Success(docs[loc.legacy].m)
  }

  /** A parsed current record shadows the legacy one. */
  lemma OpenPrefersCurrent(docs: Docs, loc: Loc, m: Manifest)
    requires loc.current.Some? && loc.current.value in docs && docs[loc.current.value] == Parsed(m)
    ensures Open(docs, loc) == Success(m)
  {
  }

  /** A current record that is missing, unreachable or corrupt falls back to
      the legacy one, whatever that holds. */
  lemma OpenFallsBackToLegacy(docs: Docs, loc: Loc)
    requires !(Stored(docs, loc.current) && docs[loc.current.value].Parsed?)
    ensures loc.legacy in docs && docs[loc.legacy].Parsed? ==> Open(docs, loc) == Success(docs[loc.legacy].m)
    ensures loc.legacy !in docs ==> Open(docs, loc) == Failure(ManifestNotFound)
  {
  }

  /** `Unmanaged` is set only where the map marks the path (a nil map marks
      nothing). */
  predicate Marked(unmanaged: map<Path, bool>, p: Path) {
    p in unmanaged && unmanaged[p]
  }

  /** The hash recorded for one pack file: of the live file when it can be
      read, else of the pack content; an error when neither reads. */
  function Record(f: PackFile, fs: FS, unmanaged: map<Path, bool>, h: Hasher): (r: Res<Entry>)
    ensures r.Success? <==> f.relPath in fs || f.read.Some?
    ensures r.Failure? ==> r.error == ReadFailed(f.relPath)
    ensures r.Success? ==> r.value.path == f.relPath && r.value.unmanaged == Marked(unmanaged, f.relPath)
    ensures r.Success? && f.relPath in fs ==> r.value.sha256 == h(fs[f.relPath])
    ensures r.Success? && f.relPath !in fs ==> r.value.sha256 == h(f.read.value)
  {
    if f.relPath in fs then Success(Entry(f.relPath, h(fs[f.relPath]), Marked(unmanaged, f.relPath)))
    else if f.read.Some? then Success(Entry(f.relPath, h(f.read.value), Marked(unmanaged, f.relPath)))
    else Failure(ReadFailed(f.relPath))
  }

  /** Every pack file can be hashed, live or from the pack. */
  predicate Recordable(files: seq<PackFile>, fs: FS) {
    forall i :: 0 <= i < |files| ==> files[i].relPath in fs || files[i].read.Some?
  }

  /** The entries of a record, one per pack file and in pack order; the first
      file that can be read neither live nor from the pack stops the write. */
  function Records(files: seq<PackFile>, fs: FS, unmanaged: map<Path, bool>, h: Hasher): (r: Res<seq<Entry>>)
    ensures r.Success? <==> Recordable(files, fs)
    ensures r.Success? ==> |r.value| == |files|
    ensures r.Success? ==> forall i :: 0 <= i < |files| ==> Record(files[i], fs, unmanaged, h) == Success(r.value[i])
    decreases |files|
  {
    if |files| == 0 then Success([])
    else
      assert forall i :: 1 <= i < |files| ==> files[i] == files[1..][i - 1];
      match Record(files[0], fs, unmanaged, h)
      case Failure(e) => Failure(e)
      case Success(e) =>
        match Records(files[1..], fs, unmanaged, h)
        case Failure(err) => Failure(err)
        case Success(es) => Success([e] + es)
  }

  /** A failed write names the first pack file that reads neither live nor
      from the pack. */
  lemma {:induction false} RecordsFailure(files: seq<PackFile>, fs: FS, unmanaged: map<Path, bool>, h: Hasher)
    requires Records(files, fs, unmanaged, h).Failure?
    ensures exists i :: 0 <= i < |files| && Records(files, fs, unmanaged, h).error == ReadFailed(files[i].relPath)
                        && files[i].relPath !in fs && files[i].read.None?
                        && Recordable(files[..i], fs)
    decreases |files|
  {
    var err := Records(files, fs, unmanaged, h).error;
    if Record(files[0], fs, unmanaged, h).Failure? {
      assert files[..0] == [];
      assert err == ReadFailed(files[0].relPath);
    } else {
      RecordsFailure(files[1..], fs, unmanaged, h);
      var i :| 0 <= i < |files[1..]| && err == ReadFailed(files[1..][i].relPath)
               && files[1..][i].relPath !in fs && files[1..][i].read.None? && Recordable(files[1..][..i], fs);
      assert files[..i + 1] == [files[0]] + files[1..][..i];
      assert files[i + 1] == files[1..][i];
    }
  }

  /** `WriteWithStacks`: write the record to the current location, then
      delete the legacy file. No base directory, or a file nobody can read,
      means nothing is written. */
  function WriteWithStacks(files: seq<PackFile>, version: string, stacks: seq<string>,
                           unmanaged: map<Path, bool>, fs: FS, docs: Docs, loc: Loc, h: Hasher): (r: Res<Docs>)
    ensures loc.current.None? ==> r == Failure(StateDirUnavailable)
    ensures r.Success? <==> loc.current.Some? && Recordable(files, fs)
    ensures r.Success? ==> loc.legacy !in r.value
    ensures r.Success? ==> forall p :: p != loc.legacy && p != loc.current.value ==>
                             (p in r.value <==> p in docs) && (p in docs ==> r.value[p] == docs[p])
  {
    if loc.current.None? then Failure(StateDirUnavailable)
    else
      match Records(files, fs, unmanaged, h)
      case Failure(e) => Failure(e)
      case Success(entries) =>
        var m := Manifest(version, "", entries, stacks);
        Success(docs[loc.current.value := Parsed(m)] - {loc.legacy})
  }

  /** `Write`: no stacks, every entry managed. */
  function Write(files: seq<PackFile>, version: string, fs: FS, docs: Docs, loc: Loc, h: Hasher): (r: Res<Docs>)
    ensures r.Success? <==> loc.current.Some? && Recordable(files, fs)
  {
    WriteWithStacks(files, version, [], map[], fs, docs, loc, h)
  }

  /** `Remove`: delete both locations; deleting what is absent is no error. */
  function Remove(docs: Docs, loc: Loc): (r: Docs)
    ensures !Exists(r, loc)
    ensures forall p :: p in r <==> p in docs && p != loc.legacy && !(loc.current.Some? && p == loc.current.value)
  {
    var gone := if loc.current.Some? then {loc.current.value, loc.legacy} else {loc.legacy};
    docs - gone
  }

  /** What a successful write records, read back through `Open`: the given
      version and stacks, an empty install time, and for each pack file in
      order its path, the hash of the live file or else of the pack content,
      and its unmanaged mark. The legacy file is gone, so `Open` cannot fall
      back to a stale copy. */
  lemma WriteThenOpen(files: seq<PackFile>, version: string, stacks: seq<string>,
                      unmanaged: map<Path, bool>, fs: FS, docs: Docs, loc: Loc, h: Hasher)
    requires loc.current.Some? ==> loc.current.value != loc.legacy
    requires WriteWithStacks(files, version, stacks, unmanaged, fs, docs, loc, h).Success?
    ensures var docs' := WriteWithStacks(files, version, stacks, unmanaged, fs, docs, loc, h).value;
            && Exists(docs', loc)
            && Open(docs', loc).Success?
            && var m := Open(docs', loc).value;
            && m.version == version && m.installedAt == "" && m.stacks == stacks
            && |m.files| == |files|
            && (forall i :: 0 <= i < |files| ==>
                  m.files[i].path == files[i].relPath
                  && m.files[i].unmanaged == Marked(unmanaged, files[i].relPath)
                  && m.files[i].sha256 == (if files[i].relPath in fs then h(fs[files[i].relPath])
                                           else h(files[i].read.value)))
  {
    var docs' := WriteWithStacks(files, version, stacks, unmanaged, fs, docs, loc, h).value;
    var entries := Records(files, fs, unmanaged, h).value;
    assert docs'[loc.current.value] == Parsed(Manifest(version, "", entries, stacks));
  }

  /** `Write` is `WriteWithStacks` with no stacks and no unmanaged marks: every
      recorded entry is managed. */
  lemma WriteRecordsManagedOnly(files: seq<PackFile>, version: string, fs: FS, docs: Docs, loc: Loc, h: Hasher)
    requires loc.current.Some? ==> loc.current.value != loc.legacy
    requires Write(files, version, fs, docs, loc, h).Success?
    ensures var m := Open(Write(files, version, fs, docs, loc, h).value, loc).value;
            m.stacks == [] && forall i :: 0 <= i < |m.files| ==> !m.files[i].unmanaged
  {
    WriteThenOpen(files, version, [], map[], fs, docs, loc, h);
  }

  /** After `Remove`, every command sees "not installed" and `Open` fails. */
  lemma RemoveThenOpen(docs: Docs, loc: Loc)
    ensures Open(Remove(docs, loc), loc) == Failure(ManifestNotFound)
  {
  }
}
