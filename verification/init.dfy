/**
 * `codo init` (cli/cmd/init.go): choose stacks (from `--stacks` or the
 * picker), choose a pack, place every pack file with `CopySafe`, and unless
 * this is a dry run write the install record.
 */
module Init {
  import opened Wrappers
  import opened Types
  import opened Text
  import opened Manifests
  import opened CommandBase
  import opened Install
  import opened Wizard
  import Resolver
  import Status

  datatype InitFlags = InitFlags(version: string, dry: bool, stacks: string, noTui: bool, offline: bool)

  /** A stack key: non-empty, without white space at either end. */
  predicate CleanKey(k: string) {
    k != "" && !GoSpace(k[0]) && !GoSpace(k[|k| - 1])
  }

  /** One piece of the flag, trimmed, or nothing when it is blank. */
  function Piece(p: string): (r: seq<string>)
    ensures |r| <= 1
    ensures |r| == 1 <==> exists i :: 0 <= i < |p| && !GoSpace(p[i])
    ensures |r| == 1 ==> r[0] == Trim(p, GoSpace)
    ensures forall i :: 0 <= i < |r| ==> CleanKey(r[i])
  {
    TrimEmpty(p, GoSpace);
    var t := Trim(p, GoSpace);
    if t != "" then [t] else []
  }

  /** The non-empty trimmed pieces, in order. */
  function KeepPieces(pieces: seq<string>): (r: seq<string>)
    ensures |r| <= |pieces|
    ensures forall i :: 0 <= i < |r| ==> CleanKey(r[i])
    decreases |pieces|
  {
    if |pieces| == 0 then [] else Piece(pieces[0]) + KeepPieces(pieces[1..])
  }

  /** Every kept key is the trim of some piece, and every non-blank piece's
      trim is kept. */
  lemma {:induction false} KeepPiecesMembers(pieces: seq<string>)
    ensures forall k :: k in KeepPieces(pieces) ==> exists j :: 0 <= j < |pieces| && k == Trim(pieces[j], GoSpace)
    ensures forall j :: 0 <= j < |pieces| && Trim(pieces[j], GoSpace) != "" ==> Trim(pieces[j], GoSpace) in KeepPieces(pieces)
    decreases |pieces|
  {
    if |pieces| > 0 {
      var rest := pieces[1..];
      KeepPiecesMembers(rest);
      assert KeepPieces(pieces) == Piece(pieces[0]) + KeepPieces(rest);
      assert forall j :: 1 <= j < |pieces| ==> pieces[j] == rest[j - 1];
    }
  }

  /** Pieces without commas stay without commas. */
  lemma {:induction false} KeepNoComma(pieces: seq<string>)
    requires forall j :: 0 <= j < |pieces| ==> ',' !in pieces[j]
    ensures forall i :: 0 <= i < |KeepPieces(pieces)| ==> ',' !in KeepPieces(pieces)[i]
    decreases |pieces|
  {
    if |pieces| > 0 {
      TrimInside(pieces[0], GoSpace);
      assert forall j :: 0 <= j < |pieces[1..]| ==> pieces[1..][j] == pieces[j + 1];
      KeepNoComma(pieces[1..]);
    }
  }

  /** Kept pieces keep their order: keeping distributes over concatenation. */
  lemma {:induction false} KeepPiecesAppend(a: seq<string>, b: seq<string>)
    ensures KeepPieces(a + b) == KeepPieces(a) + KeepPieces(b)
    decreases |a|
  {
    if |a| > 0 {
      assert (a + b)[0] == a[0];
      assert (a + b)[1..] == a[1..] + b;
      KeepPiecesAppend(a[1..], b);
      calc {
        KeepPieces(a + b);
        Piece(a[0]) + KeepPieces(a[1..] + b);
        Piece(a[0]) + (KeepPieces(a[1..]) + KeepPieces(b));
        (Piece(a[0]) + KeepPieces(a[1..])) + KeepPieces(b);
        KeepPieces(a) + KeepPieces(b);
      }
    } else {
      assert a + b == b;
    }
  }

  /** `--stacks`: split on commas, trim white space, drop empty pieces. */
  function ParseStacks(flag: string): (r: seq<string>)
    ensures forall i :: 0 <= i < |r| ==> CleanKey(r[i]) && ',' !in r[i]
  {
    var pieces := Split(flag, ',');
    SplitJoin(flag, ',');
    KeepNoComma(pieces);
    KeepPieces(pieces)
  }

  /** Trimming only removes characters from the ends. */
  lemma TrimInside(s: string, space: char -> bool)
    ensures forall c :: c in Trim(s, space) ==> c in s
  {
    var l := TrimLeft(s, space);
    assert forall c :: c in TrimRight(l, space) ==> c in l;
  }

  /** A well-formed stack key survives trimming unchanged. */
  lemma TrimClean(x: string)
    requires CleanKey(x)
    ensures Piece(x) == [x]
  {
  }

  /** Keys without commas or surrounding white space, joined with commas,
      parse back to the same list (the empty list included). */
  lemma ParseStacksRoundTrip(keys: seq<string>)
    requires forall i :: 0 <= i < |keys| ==> CleanKey(keys[i]) && ',' !in keys[i]
    ensures ParseStacks(JoinWith(keys, ',')) == keys
  {
    if |keys| == 0 {
      assert Split("", ',') == [""];
    } else {
      JoinSplit(keys, ',');
      KeepClean(keys);
    }
  }

  /** Pieces without commas, blank or padded with white space, joined with
      commas, parse to their non-blank pieces, each trimmed. */
  lemma ParseStacksOfPieces(pieces: seq<string>)
    requires forall i :: 0 <= i < |pieces| ==> ',' !in pieces[i]
    ensures ParseStacks(JoinWith(pieces, ',')) == KeepPieces(pieces)
  {
    if |pieces| == 0 {
      assert Split("", ',') == [""];
      assert KeepPieces([""]) == Piece("") + KeepPieces([]);
    } else {
      JoinSplit(pieces, ',');
    }
  }

  lemma {:induction false} KeepClean(keys: seq<string>)
    requires forall i :: 0 <= i < |keys| ==> CleanKey(keys[i])
    ensures KeepPieces(keys) == keys
    decreases |keys|
  {
    if |keys| > 0 {
      TrimClean(keys[0]);
      KeepClean(keys[1..]);
      assert keys == [keys[0]] + keys[1..];
    }
  }

  /** A blank piece between two commas is dropped, the rest keep their
      order. */
  lemma BlankPieceDropped(a: seq<string>, blank: string, b: seq<string>)
    requires forall i :: 0 <= i < |blank| ==> GoSpace(blank[i])
    ensures KeepPieces(a + [blank] + b) == KeepPieces(a) + KeepPieces(b)
  {
    BlankPieceEmpty(blank);
    KeepPiecesAppend(a + [blank], b);
    KeepPiecesAppend(a, [blank]);
    KeepSingle(blank);
    calc {
      KeepPieces(a + [blank] + b);
      KeepPieces(a + [blank]) + KeepPieces(b);
      (KeepPieces(a) + KeepPieces([blank])) + KeepPieces(b);
      { assert KeepPieces([blank]) == []; assert KeepPieces(a) + [] == KeepPieces(a); }
      KeepPieces(a) + KeepPieces(b);
    }
  }

  lemma KeepSingle(p: string)
    ensures KeepPieces([p]) == Piece(p)
  {
    assert [p][1..] == [];
  }

  lemma BlankPieceEmpty(blank: string)
    requires forall i :: 0 <= i < |blank| ==> GoSpace(blank[i])
    ensures Piece(blank) == []
  {
    assert |TrimLeft(blank, GoSpace)| == 0;
  }

  /** Either flag skips the picker. */
  predicate Headless(flags: InitFlags) {
    flags.noTui || flags.stacks != ""
  }

  /** The stack choice: the parsed flag when headless (always confirmed),
      else whatever the picker returned. */
  function Choices(flags: InitFlags, wizard: Res<InitResult>): (r: Res<InitResult>)
    ensures Headless(flags) ==> r == Success(InitResult(ParseStacks(flags.stacks), true))
    ensures !Headless(flags) ==> r == wizard
  {
    if Headless(flags) then Success(InitResult(ParseStacks(flags.stacks), true)) else wizard
  }

  /** The version the record and the closing message name: the `--version`
      flag when given, else where the pack came from. */
  function InstalledVersion(flags: InitFlags, c: Chosen): (r: string)
    ensures flags.version != "" ==> r == flags.version
    ensures flags.version == "" ==> r == c.source
  {
    if flags.version != "" then flags.version else c.source
  }

  /** Placing the chosen files and, unless this is a dry run, recording them
      (lines 101-113 after the pack is loaded); the closing line is printed
      once nothing failed. */
  function Place(files: seq<PackFile>, root: Path, version: string, stacks: seq<string>, dry: bool,
                 fs: FS, docs: Docs, loc: Loc, h: Hasher): (r: Outcome)
    ensures r.fs == InstallAll(files, root, fs, dry, h).fs
    ensures r.lines == InstallAll(files, root, fs, dry, h).lines + (if r.err.None? then [Initialized(version)] else [])
    ensures dry ==> r.fs == fs && r.docs == docs && r.err == InstallAll(files, root, fs, dry, h).err
    ensures InstallAll(files, root, fs, dry, h).err.Some? ==> r.docs == docs && r.err == InstallAll(files, root, fs, dry, h).err
    ensures r.err.None? ==> |r.lines| > 0 && r.lines[|r.lines| - 1] == Initialized(version)
    ensures !dry && InstallAll(files, root, fs, dry, h).err.None? ==>
              (r.err.None? <==> WriteWithStacks(files, version, stacks, map[], r.fs, docs, loc, h).Success?)
    ensures r.docs != docs ==> r.err.None?
  {
    var run := InstallAll(files, root, fs, dry, h);
    if run.err.Some? then Outcome(run.lines, run.fs, docs, run.err)
    else if dry then Outcome(run.lines + [Initialized(version)], run.fs, docs, None)
    else
      match WriteWithStacks(files, version, stacks, map[], run.fs, docs, loc, h)
      case Failure(e) => Outcome(run.lines, run.fs, docs, Some(e))
      case Success(d) => Outcome(run.lines + [Initialized(version)], run.fs, d, None)
  }

  /** The command once the stacks are chosen and confirmed: announce and
      choose the pack, resolve it for the stacks, place and record. */
  function Proceed(flags: InitFlags, stacks: seq<string>, src: Sources, root: Path,
                   fs: FS, docs: Docs, loc: Loc, h: Hasher): (r: Outcome)
    ensures flags.dry ==> r.fs == fs && r.docs == docs
    ensures r.docs != docs ==> r.err.None?
    ensures var pl := PackLines(src, flags.offline, flags.version, false);
            |pl| <= |r.lines| && r.lines[..|pl|] == pl
    ensures r.err.None? ==> ChoosePack(src, flags.offline, flags.version).Success?
                            && r.lines[|r.lines| - 1] == Initialized(InstalledVersion(flags, ChoosePack(src, flags.offline, flags.version).value))
  {
    var pl := PackLines(src, flags.offline, flags.version, false);
    match ChoosePack(src, flags.offline, flags.version)
    case Failure(e) => Announced(pl, Outcome([], fs, docs, Some(e)))
    case Success(c) =>
      match Resolver.FilesFromDotclaudeFS(c.tree, stacks)
      case Failure(e) => Announced(pl, Outcome([], fs, docs, Some(e)))
      case Success(files) =>
        Announced(pl, Place(files, root, InstalledVersion(flags, c), stacks, flags.dry, fs, docs, loc, h))
  }

  /** `initCmd.RunE`. `wizard` is what the picker returns when it runs;
      `root` is what `os.Getwd` returned (`""` when it failed, whose error
      the command ignores). */
  function InitCommand(flags: InitFlags, wizard: Res<InitResult>, src: Sources, root: Path,
                       fs: FS, docs: Docs, loc: Loc, h: Hasher): (r: Outcome)
    ensures flags.dry ==> r.fs == fs && r.docs == docs
    ensures r.docs != docs ==> r.err.None?
    ensures Choices(flags, wizard).Failure? ==> r == Outcome([], fs, docs, Some(Choices(flags, wizard).error))
    ensures Choices(flags, wizard).Success? && !Choices(flags, wizard).value.confirmed ==>
              r == Outcome([Aborted], fs, docs, None)
    ensures Choices(flags, wizard).Success? && Choices(flags, wizard).value.confirmed ==>
              r == Proceed(flags, Choices(flags, wizard).value.stacks, src, root, fs, docs, loc, h)
  {
    match Choices(flags, wizard)
    case Failure(e) => Outcome([], fs, docs, Some(e))
    case Success(ch) =>
      if !ch.confirmed then Outcome([Aborted], fs, docs, None)
      else Proceed(flags, ch.stacks, src, root, fs, docs, loc, h)
  }

  /** A real placement run leaves every pack file at its destination and
      removes nothing. */
  lemma {:induction false} InstallAllPlaces(files: seq<PackFile>, root: Path, fs: FS, h: Hasher)
    requires InstallAll(files, root, fs, false, h).err.None?
    ensures forall p :: p in fs ==> p in InstallAll(files, root, fs, false, h).fs
    ensures forall i :: 0 <= i < |files| ==> files[i].relPath in InstallAll(files, root, fs, false, h).fs
    decreases |files|
  {
    if |files| > 0 {
      var c := CopySafe(files[0], root, fs, false, h).value;
      CopySafeFrame(files[0], root, fs, false, h);
      assert forall p :: p in fs ==> p in c.fs;
      assert files[0].relPath in c.fs;
      InstallAllPlaces(files[1..], root, c.fs, h);
      assert forall i :: 1 <= i < |files| ==> files[i] == files[1..][i - 1];
    }
  }

  /** A placement that records without error leaves a record naming the
      version and stacks, and nothing `status` counts as drift. */
  lemma PlaceThenStatusClean(files: seq<PackFile>, root: Path, version: string, stacks: seq<string>,
                             fs: FS, docs: Docs, loc: Loc, h: Hasher)
    requires loc.current.Some? ==> loc.current.value != loc.legacy
    requires Place(files, root, version, stacks, false, fs, docs, loc, h).err.None?
    ensures var r := Place(files, root, version, stacks, false, fs, docs, loc, h);
            && Open(r.docs, loc).Success?
            && Open(r.docs, loc).value.version == version
            && Open(r.docs, loc).value.stacks == stacks
            && Status.StatusCommand(r.fs, r.docs, loc, true, h) == Status.StatusOutcome(Some(Status.Installed(version, [])), None)
  {
    var run := InstallAll(files, root, fs, false, h);
    InstallAllPlaces(files, root, fs, h);
    var d := WriteWithStacks(files, version, stacks, map[], run.fs, docs, loc, h).value;
    var entries := Records(files, run.fs, map[], h).value;
    assert d[loc.current.value] == Parsed(Manifest(version, "", entries, stacks));
    Status.FreshRecordHasNoDrift(files, run.fs, map[], h);
  }

  /** Right after a successful `init` that is not a dry run, `status` finds
      no drift, and the record names the chosen version and stacks. */
  lemma InitThenStatusClean(flags: InitFlags, wizard: Res<InitResult>, src: Sources, root: Path,
                            fs: FS, docs: Docs, loc: Loc, h: Hasher)
    requires loc.current.Some? ==> loc.current.value != loc.legacy
    requires !flags.dry
    requires Choices(flags, wizard).Success? && Choices(flags, wizard).value.confirmed
    requires InitCommand(flags, wizard, src, root, fs, docs, loc, h).err.None?
    ensures var r := InitCommand(flags, wizard, src, root, fs, docs, loc, h);
            && Open(r.docs, loc).Success?
            && Open(r.docs, loc).value.version == InstalledVersion(flags, ChoosePack(src, flags.offline, flags.version).value)
            && Open(r.docs, loc).value.stacks == Choices(flags, wizard).value.stacks
    ensures var r := InitCommand(flags, wizard, src, root, fs, docs, loc, h);
            Status.StatusCommand(r.fs, r.docs, loc, true, h) == Status.StatusOutcome(Some(Status.Installed(Open(r.docs, loc).value.version, [])), None)
  {
    var ch := Choices(flags, wizard).value;
    var c := ChoosePack(src, flags.offline, flags.version).value;
    var files := Resolver.FilesFromDotclaudeFS(c.tree, ch.stacks).value;
    var v := InstalledVersion(flags, c);
    var o := Place(files, root, v, ch.stacks, false, fs, docs, loc, h);
    assert InitCommand(flags, wizard, src, root, fs, docs, loc, h) == Announced(PackLines(src, flags.offline, flags.version, false), o);
    PlaceThenStatusClean(files, root, v, ch.stacks, fs, docs, loc, h);
  }

  /** Placing as a dry run prints what the real placement prints, and
      also the closing line when the real run fails only at writing the
      record. */
  lemma PlaceDryPreviews(files: seq<PackFile>, root: Path, version: string, stacks: seq<string>,
                         fs: FS, docs: Docs, loc: Loc, h: Hasher)
    requires Separated(files)
    ensures var dryRun := Place(files, root, version, stacks, true, fs, docs, loc, h);
            var realRun := Place(files, root, version, stacks, false, fs, docs, loc, h);
            && (realRun.err.None? || dryRun.err.Some? ==> dryRun.lines == realRun.lines)
            && (dryRun.err.Some? ==> realRun.err == dryRun.err)
            && (realRun.err.Some? && dryRun.err.None? ==> dryRun.lines == realRun.lines + [Initialized(version)])
  {
    DryRunPreviews(files, root, fs, fs, h);
  }

  /** A confirmed run whose pack resolves is the announcement followed by
      the placement. */
  lemma InitUnfolds(flags: InitFlags, wizard: Res<InitResult>, src: Sources, root: Path,
                    fs: FS, docs: Docs, loc: Loc, h: Hasher)
    requires Choices(flags, wizard).Success? && Choices(flags, wizard).value.confirmed
    requires ChoosePack(src, flags.offline, flags.version).Success?
    requires Resolver.FilesFromDotclaudeFS(ChoosePack(src, flags.offline, flags.version).value.tree,
                                           Choices(flags, wizard).value.stacks).Success?
    ensures var c := ChoosePack(src, flags.offline, flags.version).value;
            var stacks := Choices(flags, wizard).value.stacks;
            var files := Resolver.FilesFromDotclaudeFS(c.tree, stacks).value;
            InitCommand(flags, wizard, src, root, fs, docs, loc, h)
              == Announced(PackLines(src, flags.offline, flags.version, false),
                           Place(files, root, InstalledVersion(flags, c), stacks, flags.dry, fs, docs, loc, h))
  {
  }

  /** A dry run prints what the real run would print and stops where it
      would stop, while writing nothing; only when the real run fails to
      write the record does it stop short of the closing line the dry run
      prints. */
  lemma DryRunMatchesRealRun(flags: InitFlags, wizard: Res<InitResult>, src: Sources, root: Path,
                             fs: FS, docs: Docs, loc: Loc, h: Hasher)
    requires flags.dry
    requires Choices(flags, wizard).Success? && Choices(flags, wizard).value.confirmed
    requires ChoosePack(src, flags.offline, flags.version).Success?
    requires Resolver.FilesFromDotclaudeFS(ChoosePack(src, flags.offline, flags.version).value.tree,
                                           Choices(flags, wizard).value.stacks).Success?
    requires Separated(Resolver.FilesFromDotclaudeFS(ChoosePack(src, flags.offline, flags.version).value.tree,
                                                     Choices(flags, wizard).value.stacks).value)
    ensures var dryRun := InitCommand(flags, wizard, src, root, fs, docs, loc, h);
            var realRun := InitCommand(flags.(dry := false), wizard, src, root, fs, docs, loc, h);
            && (realRun.err.None? || dryRun.err.Some? ==> dryRun.lines == realRun.lines)
            && (dryRun.err.Some? ==> realRun.err == dryRun.err)
            && (realRun.err.Some? && dryRun.err.None? ==>
                  dryRun.lines == realRun.lines + [Initialized(InstalledVersion(flags, ChoosePack(src, flags.offline, flags.version).value))])
            && dryRun.fs == fs && dryRun.docs == docs
  {
    var ch := Choices(flags, wizard).value;
    var c := ChoosePack(src, flags.offline, flags.version).value;
    var files := Resolver.FilesFromDotclaudeFS(c.tree, ch.stacks).value;
    var v := InstalledVersion(flags, c);
    var pl := PackLines(src, flags.offline, flags.version, false);
    var realFlags := flags.(dry := false);
    var d := Place(files, root, v, ch.stacks, true, fs, docs, loc, h);
    var w := Place(files, root, v, ch.stacks, false, fs, docs, loc, h);
    InitUnfolds(flags, wizard, src, root, fs, docs, loc, h);
    InitUnfolds(realFlags, wizard, src, root, fs, docs, loc, h);
    PlaceDryPreviews(files, root, v, ch.stacks, fs, docs, loc, h);
    if w.err.Some? && d.err.None? {
      AnnouncedOneMore(pl, d, w, Initialized(v));
    }
  }
}
