/**
 * Fetching a pack release (cli/internal/pack/resolve.go, `Resolve`): from a
 * tag to the release URLs, the first asset naming pattern the server
 * answers for, the cache directory, the checksum file's first field, the
 * checksum comparison that gates extraction, and the choice of the
 * extracted pack root.
 *
 * The network, the home directory, SHA-256, zip extraction and the listing
 * of the extracted tree are inputs (`Net`, `Disk`).
 */
module Release {
  import opened Wrappers
  import opened Types
  import opened Text

  const ReleasesURL: string := "https://github.com/hergert/codo-agentic-toolkit/releases"

  /** The URL segment for a tag and the tag as used in asset and cache
      names. */
  datatype Tag = Tag(urlTag: string, tag: string)

  function NormalizeTag(tag: string): (r: Tag)
    ensures r.tag != ""
    ensures r.tag == "latest" <==> tag == "" || tag == "latest"
    ensures r.tag == "latest" ==> r.urlTag == "latest/download"
    ensures r.tag != "latest" ==> r.tag == tag && r.urlTag == "download/" + tag
  {
    if tag == "" || tag == "latest" then Tag("latest/download", "latest") else Tag("download/" + tag, tag)
  }

  /** Normalising a normalised tag changes nothing. */
  lemma NormalizeTagIdempotent(tag: string)
    ensures NormalizeTag(NormalizeTag(tag).tag) == NormalizeTag(tag)
  {
  }

  /** An asset naming pattern: the pack archive and its checksum file. */
  datatype Asset = Asset(zip: string, sha: string)

  /** Flat names first, then the older tag-suffixed names. */
  function Patterns(tag: string): (r: seq<Asset>)
    ensures |r| == 2 && r[0] == Asset("dotclaude-pack.zip", "dotclaude-pack.sha256")
  {
    [Asset("dotclaude-pack.zip", "dotclaude-pack.sha256"),
     Asset("dotclaude-pack-" + tag + ".zip", "dotclaude-pack-" + tag + ".sha256")]
  }

  function AssetURL(urlTag: string, name: string): string {
    ReleasesURL + "/" + urlTag + "/" + name
  }

  /** Both files of a pattern answer (`headOK`). */
  predicate Reachable(urlTag: string, a: Asset, reachable: string -> bool) {
    reachable(AssetURL(urlTag, a.zip)) && reachable(AssetURL(urlTag, a.sha))
  }

  /** The first pattern whose archive and checksum both answer. */
  function PickAsset(urlTag: string, pats: seq<Asset>, reachable: string -> bool): (r: Option<Asset>)
    ensures r.None? <==> forall i :: 0 <= i < |pats| ==> !Reachable(urlTag, pats[i], reachable)
    ensures r.Some? ==> exists i :: 0 <= i < |pats| && pats[i] == r.value && Reachable(urlTag, pats[i], reachable)
                                    && forall j :: 0 <= j < i ==> !Reachable(urlTag, pats[j], reachable)
    decreases |pats|
  {
    if |pats| == 0 then None
    else if Reachable(urlTag, pats[0], reachable) then Some(pats[0])
    else
      var r := PickAsset(urlTag, pats[1..], reachable);
      assert forall i :: 1 <= i < |pats| ==> pats[i] == pats[1..][i - 1];
      if r.Some? then
        var i :| 0 <= i < |pats[1..]| && pats[1..][i] == r.value && Reachable(urlTag, pats[1..][i], reachable)
                 && forall j :: 0 <= j < i ==> !Reachable(urlTag, pats[1..][j], reachable);
        assert forall j :: 0 <= j < i + 1 ==> !Reachable(urlTag, pats[j], reachable) by {
          forall j | 0 <= j < i + 1
            ensures !Reachable(urlTag, pats[j], reachable)
          {
            if j > 0 {
              assert pats[j] == pats[1..][j - 1];
            }
          }
        }
        r
      else r
  }

  /** When the flat names answer, the tag-suffixed ones are never used. */
  lemma FlatNamesWin(tag: string, reachable: string -> bool)
    requires Reachable(NormalizeTag(tag).urlTag, Patterns(NormalizeTag(tag).tag)[0], reachable)
    ensures PickAsset(NormalizeTag(tag).urlTag, Patterns(NormalizeTag(tag).tag), reachable)
            == Some(Asset("dotclaude-pack.zip", "dotclaude-pack.sha256"))
  {
  }

  /** `~/.codo/packs/<tag>` with every `/` of the tag replaced by `_`. */
  function CacheDir(home: Path, tag: string): (r: Path)
    ensures HasPrefix(r, home + "/.codo/packs/")
    ensures '/' !in r[|home + "/.codo/packs/"|..]
    ensures var pre := home + "/.codo/packs/";
            |r| == |pre| + |tag|
            && forall i :: 0 <= i < |tag| ==> r[|pre| + i] == (if tag[i] == '/' then '_' else tag[i])
  {
    var name := ReplaceChar(tag, '/', '_');
    assert forall i :: 0 <= i < |name| ==> name[i] != '/';
    var r := home + "/.codo/packs/" + name;
    assert r[|home + "/.codo/packs/"|..] == name;
    r
  }

  /** Tags without `_` get distinct cache directories. */
  lemma CacheDirsDistinct(home: Path, t1: string, t2: string)
    requires '_' !in t1 && '_' !in t2
    ensures CacheDir(home, t1) == CacheDir(home, t2) ==> t1 == t2
  {
    var pre := home + "/.codo/packs/";
    var n1 := ReplaceChar(t1, '/', '_');
    var n2 := ReplaceChar(t2, '/', '_');
    if CacheDir(home, t1) == CacheDir(home, t2) {
      assert (pre + n1)[|pre|..] == n1;
      assert (pre + n2)[|pre|..] == n2;
      assert |t1| == |t2|;
      forall i | 0 <= i < |t1|
        ensures t1[i] == t2[i]
      {
        assert n1[i] == n2[i];
        assert t1[i] != '_' && t2[i] != '_';
      }
    }
  }

  /** The expected checksum: the first field of the trimmed checksum file;
      an empty (or all-blank) file is an error. */
  function ExpectedChecksum(text: string): (r: Res<string>)
    ensures r.Failure? <==> Fields(Trim(text, GoSpace), GoSpace) == []
    ensures r.Failure? ==> r.error == EmptyChecksumFile
    ensures r.Success? ==> r.value != "" && forall i :: 0 <= i < |r.value| ==> !GoSpace(r.value[i])
    ensures r.Success? ==> r.value == Fields(Trim(text, GoSpace), GoSpace)[0]
  {
    var fields := Fields(Trim(text, GoSpace), GoSpace);
    if |fields| == 0 then Failure(EmptyChecksumFile) else Success(fields[0])
  }

  /** Trimming first changes nothing: the expected checksum is the first
      whitespace-separated field of the file as it was read. */
  lemma ExpectedChecksumIsFirstField(text: string)
    ensures ExpectedChecksum(text).Success? <==> Fields(text, GoSpace) != []
    ensures ExpectedChecksum(text).Success? ==> ExpectedChecksum(text).value == Fields(text, GoSpace)[0]
  {
    FieldsOfTrim(text, GoSpace);
  }

  /** A `sha256sum`-style line yields its digest back. */
  lemma ExpectedChecksumOfLine(digest: string, rest: string)
    requires digest != "" && forall i :: 0 <= i < |digest| ==> !GoSpace(digest[i])
    requires rest == [] || GoSpace(rest[0])
    ensures ExpectedChecksum(digest + rest) == Success(digest)
  {
    FieldsOfTrim(digest + rest, GoSpace);
    FirstField(digest, rest, GoSpace);
  }

  // ---------------------------------------------------------------------------
  // The pack root inside the extracted archive

  datatype DirEntry = DirEntry(name: string, isDir: bool)

  /** `strings.EqualFold(c, t)` for a lower-case ASCII letter `t`: the
      letter, its upper case, and for `k` also the Kelvin sign U+212A. */
  predicate FoldsTo(c: char, t: char)
    requires 'a' <= t <= 'z'
  {
    c == t || c as int == t as int - 32 || (t == 'k' && c as int == 0x212A)
  }

  /** `strings.EqualFold(name, "pack")`. */
  predicate IsPackName(name: string) {
    |name| == 4 && FoldsTo(name[0], 'p') && FoldsTo(name[1], 'a') && FoldsTo(name[2], 'c') && FoldsTo(name[3], 'k')
  }

  lemma KelvinSignFolds()
    ensures IsPackName("PAC\U{212A}") && IsPackName("Pack") && !IsPackName("packs") && !IsPackName("pacq")
  {
  }

  /** The first directory entry named like `pack`, if any. */
  function PackDir(entries: seq<DirEntry>): (r: Option<string>)
    ensures r.Some? ==> exists i :: 0 <= i < |entries| && entries[i].isDir && entries[i].name == r.value && IsPackName(r.value)
    ensures r.None? <==> forall i :: 0 <= i < |entries| ==> !(entries[i].isDir && IsPackName(entries[i].name))
    decreases |entries|
  {
    if |entries| == 0 then None
    else if entries[0].isDir && IsPackName(entries[0].name) then Some(entries[0].name)
    else
      var r := PackDir(entries[1..]);
      assert forall i :: 1 <= i < |entries| ==> entries[i] == entries[1..][i - 1];
      r
  }

  /** The directories to look in: a `pack`-like subdirectory first, then the
      root. A listing that fails leaves only the root. */
  function Candidates(root: Path, listing: Option<seq<DirEntry>>): (r: seq<Path>)
    ensures |r| >= 1 && r[|r| - 1] == root
  {
    if listing.Some? && PackDir(listing.value).Some? then [root + "/" + PackDir(listing.value).value, root] else [root]
  }

  /** The first candidate holding `dotclaude`. */
  function FirstWithDotclaude(cands: seq<Path>, present: Path -> bool): (r: Option<Path>)
    ensures r.Some? ==> r.value in cands && present(r.value + "/dotclaude")
    ensures r.None? <==> forall i :: 0 <= i < |cands| ==> !present(cands[i] + "/dotclaude")
    ensures |cands| > 0 && present(cands[0] + "/dotclaude") ==> r == Some(cands[0])
    decreases |cands|
  {
    if |cands| == 0 then None
    else if present(cands[0] + "/dotclaude") then Some(cands[0])
    else
      var r := FirstWithDotclaude(cands[1..], present);
      assert forall i :: 1 <= i < |cands| ==> cands[i] == cands[1..][i - 1];
      r
  }

  /** `canonicalPackRoot`. `present` answers `os.Stat`. */
  function CanonicalPackRoot(root: Path, listing: Option<seq<DirEntry>>, present: Path -> bool): (r: Res<Path>)
    ensures r.Failure? <==> forall i :: 0 <= i < |Candidates(root, listing)| ==> !present(Candidates(root, listing)[i] + "/dotclaude")
    ensures r.Failure? ==> r.error == NoPackRoot
    ensures r.Success? ==> r.value in Candidates(root, listing) && present(r.value + "/dotclaude")
  {
    match FirstWithDotclaude(Candidates(root, listing), present)
    case None => Failure(NoPackRoot)
    case Some(d) => Success(d)
  }

  /** A `pack` subdirectory holding `dotclaude` is chosen even when the root
      holds one too; without such a subdirectory the root is the only
      candidate. */
  lemma PackSubdirFirst(root: Path, listing: seq<DirEntry>, present: Path -> bool)
    ensures PackDir(listing).Some? && present(root + "/" + PackDir(listing).value + "/dotclaude") ==>
              CanonicalPackRoot(root, Some(listing), present) == Success(root + "/" + PackDir(listing).value)
    ensures PackDir(listing).None? ==>
              CanonicalPackRoot(root, Some(listing), present) == (if present(root + "/dotclaude") then Success(root) else Failure(NoPackRoot))
  {
  }

  // ---------------------------------------------------------------------------
  // Resolve

  /** What the extracted archive looks like on disk. */
  datatype Disk = Disk(listing: Option<seq<DirEntry>>, present: Path -> bool)

  /** The outside world `Resolve` talks to. */
  datatype Net = Net(reachable: string -> bool,
                     download: string -> Option<Bytes>,
                     checksumText: string -> Option<string>,
                     home: Option<Path>,
                     sha: Bytes -> string,
                     extract: (Bytes, Path) -> Option<Disk>)

  /** `Resolve`: the directory holding the pack's `dotclaude` tree. */
  function Resolve(tag: string, net: Net): (r: Res<Path>)
    ensures var t := NormalizeTag(tag);
            PickAsset(t.urlTag, Patterns(t.tag), net.reachable).None? ==> r == Failure(NoPackAsset(t.tag))
    ensures r.Success? ==>
              var t := NormalizeTag(tag);
              var a := PickAsset(t.urlTag, Patterns(t.tag), net.reachable);
              && a.Some? && net.home.Some?
              && net.download(AssetURL(t.urlTag, a.value.zip)).Some?
              && net.checksumText(AssetURL(t.urlTag, a.value.sha)).Some?
              && ExpectedChecksum(net.checksumText(AssetURL(t.urlTag, a.value.sha)).value)
                 == Success(net.sha(net.download(AssetURL(t.urlTag, a.value.zip)).value))
  {
    var t := NormalizeTag(tag);
    match PickAsset(t.urlTag, Patterns(t.tag), net.reachable)
    case None => Failure(NoPackAsset(t.tag))
    case Some(a) =>
      var packURL := AssetURL(t.urlTag, a.zip);
      var checksumURL := AssetURL(t.urlTag, a.sha);
      match net.home
      case None => Failure(NoHomeDir)
      case Some(home) =>
        var cache := CacheDir(home, t.tag);
        match net.download(packURL)
        case None => Failure(DownloadFailed(packURL))
        case Some(zip) =>
          match net.checksumText(checksumURL)
          case None => Failure(DownloadFailed(checksumURL))
          case Some(text) =>
            match ExpectedChecksum(text)
            case Failure(e) => Failure(e)
            case Success(expected) =>
              if net.sha(zip) != expected then Failure(ChecksumMismatch)
              else
                var extractDir := cache + "/pack";
                match net.extract(zip, extractDir)
                case None => Failure(ExtractFailed)
                case Some(disk) => CanonicalPackRoot(extractDir, disk.listing, disk.present)
  }

  /** With no reachable pattern nothing is downloaded: the answer does not
      depend on the download, the checksum file, or extraction. */
  lemma NoAssetNoDownload(tag: string, net: Net, net': Net)
    requires net'.reachable == net.reachable
    requires PickAsset(NormalizeTag(tag).urlTag, Patterns(NormalizeTag(tag).tag), net.reachable).None?
    ensures Resolve(tag, net) == Resolve(tag, net')
  {
  }

  /** A checksum mismatch is reported and nothing is extracted: the answer
      does not depend on the extraction at all. */
  lemma MismatchNeverExtracts(tag: string, net: Net, extract': (Bytes, Path) -> Option<Disk>)
    requires Resolve(tag, net) == Failure(ChecksumMismatch)
    ensures Resolve(tag, net.(extract := extract')) == Failure(ChecksumMismatch)
  {
    var t := NormalizeTag(tag);
    var a := PickAsset(t.urlTag, Patterns(t.tag), net.reachable);
    assert a.Some? && net.home.Some?;
    var zip := net.download(AssetURL(t.urlTag, a.value.zip));
    var text := net.checksumText(AssetURL(t.urlTag, a.value.sha));
    assert zip.Some? && text.Some?;
    assert ExpectedChecksum(text.value).Success?;
    assert net.sha(zip.value) != ExpectedChecksum(text.value).value;
  }
}
