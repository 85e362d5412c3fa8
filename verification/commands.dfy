/**
 * What the `init` and `update` commands share (cli/cmd/init.go,
 * cli/cmd/update.go): the shape of a command's outcome, and where the pack
 * comes from — a local `pack` directory, else a downloaded release, else the
 * pack embedded in the binary.
 */
module CommandBase {
  import opened Wrappers
  import opened Types
  import opened Manifests

  /** What a command leaves behind: the per-file lines it printed, the
      repository and state files afterwards, and the error it returned. Work
      done before an error stays done. */
  datatype Outcome = Outcome(lines: seq<Line>, fs: FS, docs: Docs, err: Option<Error>)

  /** The release a download asks for: `latest` unless a version is given. */
  function VersionToFetch(version: string): (r: string)
    ensures r != ""
    ensures version != "" ==> r == version
  {
    if version == "" then "latest" else version
  }

  /** The three places a pack can come from. `download` answers a request for
      a release tag (`pack.Resolve` followed by opening the directory it
      returns); `embedded` is `None` when the embedded pack cannot be opened. */
  datatype Sources = Sources(localPack: Option<Tree>, download: string -> Res<Tree>, embedded: Option<Tree>)

  /** A chosen pack and the label the manifest records for it. */
  datatype Chosen = Chosen(source: string, tree: Tree)

  const EmbeddedLabel: string := "embedded-base"

  /** The pack-source priority: a local `pack` directory, else (unless
      offline) the requested release, else the embedded pack. */
  function ChoosePack(src: Sources, offline: bool, version: string): (r: Res<Chosen>)
    ensures src.localPack.Some? ==> r == Success(Chosen("local", src.localPack.value))
    ensures src.localPack.None? && !offline && src.download(VersionToFetch(version)).Success? ==>
              r == Success(Chosen(VersionToFetch(version), src.download(VersionToFetch(version)).value))
    ensures r.Failure? <==>
              src.localPack.None? && src.embedded.None? && (offline || src.download(VersionToFetch(version)).Failure?)
    ensures r.Failure? ==> r.error == EmbeddedPackUnavailable
  {
    if src.localPack.Some? then Success(Chosen("local", src.localPack.value))
    else if !offline && src.download(VersionToFetch(version)).Success? then
      Success(Chosen(VersionToFetch(version), src.download(VersionToFetch(version)).value))
    else if src.embedded.Some? then Success(Chosen(EmbeddedLabel, src.embedded.value))
    else Failure(EmbeddedPackUnavailable)
  }

  /** An outcome with the pack announcement printed before its lines. */
  function Announced(pl: seq<Line>, o: Outcome): (r: Outcome)
    ensures r.fs == o.fs && r.docs == o.docs && r.err == o.err
    ensures |pl| <= |r.lines| && r.lines[..|pl|] == pl && r.lines[|pl|..] == o.lines
    ensures |o.lines| > 0 ==> r.lines[|r.lines| - 1] == o.lines[|o.lines| - 1]
  {
    o.(lines := pl + o.lines)
  }

  /** One more line after the outcome is one more line after the
      announcement. */
  lemma AnnouncedOneMore(pl: seq<Line>, o: Outcome, o': Outcome, l: Line)
    requires o.lines == o'.lines + [l]
    ensures Announced(pl, o).lines == Announced(pl, o').lines + [l]
  {
    assert (pl + o'.lines) + [l] == pl + (o'.lines + [l]);
  }

  /** What choosing the pack prints, before anything else is done with it:
      the local directory, or the release being fetched and how that went,
      or (offline) the embedded pack. `update` never runs offline and says
      "for update" after the local directory. */
  function PackLines(src: Sources, offline: bool, version: string, forUpdate: bool): (r: seq<Line>)
    ensures 1 <= |r| <= 2
  {
    if src.localPack.Some? then [UsingLocalPack(forUpdate)]
    else if !offline then
      var v := VersionToFetch(version);
      [Downloading(v)] + (if src.download(v).Success? then [Downloaded] else [FallingBack(src.download(v).error)])
    else [UsingEmbeddedOffline]
  }

  /** What each announcement line means: the local directory iff there is
      one, a fetch iff there is none and the run is online, "downloaded" iff
      that fetch worked, and a fallback line carries the fetch's error. */
  lemma PackLinesSay(src: Sources, offline: bool, version: string, forUpdate: bool)
    ensures var r := PackLines(src, offline, version, forUpdate);
            && (src.localPack.Some? <==> r == [UsingLocalPack(forUpdate)])
            && (Downloaded in r <==> src.localPack.None? && !offline && src.download(VersionToFetch(version)).Success?)
            && (Downloading(VersionToFetch(version)) in r <==> src.localPack.None? && !offline)
            && (forall l :: l in r && l.FallingBack? ==>
                  src.download(VersionToFetch(version)).Failure? && l == FallingBack(src.download(VersionToFetch(version)).error))
  {
  }

  /** The announcement tells which pack was chosen: every run announces one
      of the three sources, and each announcement goes with that choice. */
  lemma PackLinesNameChoice(src: Sources, offline: bool, version: string, forUpdate: bool)
    requires ChoosePack(src, offline, version).Success?
    ensures var r := PackLines(src, offline, version, forUpdate);
            var c := ChoosePack(src, offline, version).value;
            && (r == [UsingLocalPack(forUpdate)] || Downloaded in r
                || r[|r| - 1].FallingBack? || r[|r| - 1].UsingEmbeddedOffline?)
            && (r == [UsingLocalPack(forUpdate)] ==> c == Chosen("local", src.localPack.value))
            && (Downloaded in r ==> c == Chosen(VersionToFetch(version), src.download(VersionToFetch(version)).value))
            && (r[|r| - 1].FallingBack? || r[|r| - 1].UsingEmbeddedOffline? ==>
                  src.embedded.Some? && c == Chosen(EmbeddedLabel, src.embedded.value))
  {
  }

  /** Offline, the download is never consulted: any two download answers
      give the same choice. */
  lemma OfflineIgnoresDownload(localPack: Option<Tree>, d1: string -> Res<Tree>, d2: string -> Res<Tree>,
                               embedded: Option<Tree>, version: string)
    ensures ChoosePack(Sources(localPack, d1, embedded), true, version)
         == ChoosePack(Sources(localPack, d2, embedded), true, version)
  {
  }

  /** A failed download falls back to the embedded pack, labelled as such. */
  lemma FailedDownloadFallsBack(src: Sources, offline: bool, version: string)
    requires src.localPack.None? && src.embedded.Some?
    requires offline || src.download(VersionToFetch(version)).Failure?
    ensures ChoosePack(src, offline, version) == Success(Chosen(EmbeddedLabel, src.embedded.value))
  {
  }
}
