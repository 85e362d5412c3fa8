/**
 * `codo upgrade` (cli/cmd/upgrade.go): compare the running version with the
 * latest release, pick the archive for this platform, look its checksum up
 * in `checksums.txt`, and install the binary only if the archive matches.
 *
 * Release detection, downloads, SHA-256, archive extraction and replacing
 * the executable are inputs (`UpgradeNet`). Versions are
 * `MAJOR.MINOR.PATCH`.
 */
module Upgrade {
  import opened Wrappers
  import opened Types
  import opened Text

  // ---------------------------------------------------------------------------
  // Versions

  datatype Version = Version(major: nat, minor: nat, patch: nat)

  /** `Version.GT`: strictly newer, compared field by field. */
  predicate Newer(a: Version, b: Version) {
    a.major > b.major
    || (a.major == b.major && (a.minor > b.minor || (a.minor == b.minor && a.patch > b.patch)))
  }

  lemma NewerIsStrictOrder(a: Version, b: Version, c: Version)
    ensures !Newer(a, a)
    ensures Newer(a, b) ==> !Newer(b, a)
    ensures Newer(a, b) && Newer(b, c) ==> Newer(a, c)
    ensures a != b ==> Newer(a, b) || Newer(b, a)
  {
  }

  function DigitChar(d: nat): char
    requires d < 10
  {
    ('0' as int + d) as char
  }

  predicate IsDigit(c: char) {
    '0' <= c <= '9'
  }

  /** The decimal numeral of `n`, without leading zeros. */
  function Decimal(n: nat): (r: string)
    ensures |r| > 0 && forall i :: 0 <= i < |r| ==> IsDigit(r[i])
    ensures |r| > 1 ==> r[0] != '0'
    decreases n
  {
    if n < 10 then [DigitChar(n)] else Decimal(n / 10) + [DigitChar(n % 10)]
  }

  /** The number a string of digits denotes. */
  function Value(s: string): nat
    requires forall i :: 0 <= i < |s| ==> IsDigit(s[i])
    decreases |s|
  {
    if |s| == 0 then 0
    else
      assert IsDigit(s[|s| - 1]);
      Value(s[..|s| - 1]) * 10 + (s[|s| - 1] as int - '0' as int)
  }

  lemma {:induction false} ValueOfDecimal(n: nat)
    ensures Value(Decimal(n)) == n
    decreases n
  {
    if n >= 10 {
      ValueOfDecimal(n / 10);
      var d := Decimal(n);
      assert d[..|d| - 1] == Decimal(n / 10);
    }
  }

  lemma NoDot(n: nat)
    ensures '.' !in Decimal(n)
  {
    var d := Decimal(n);
    forall k | 0 <= k < |d|
      ensures d[k] != '.'
    {
      assert IsDigit(d[k]);
    }
  }

  /** A numeric identifier: digits, and no leading zero unless it is `0`. */
  predicate Numeral(s: string) {
    |s| > 0 && (forall i :: 0 <= i < |s| ==> IsDigit(s[i])) && (|s| > 1 ==> s[0] != '0')
  }

  /** `Version.String()`. */
  function Show(v: Version): string {
    Decimal(v.major) + "." + Decimal(v.minor) + "." + Decimal(v.patch)
  }

  /** `semver.Parse` for versions without pre-release or build parts. */
  function ParseVersion(s: string): (r: Option<Version>)
    ensures r.Some? ==> |Split(s, '.')| == 3
  {
    var parts := Split(s, '.');
    if |parts| == 3 && Numeral(parts[0]) && Numeral(parts[1]) && Numeral(parts[2]) then
      Some(Version(Value(parts[0]), Value(parts[1]), Value(parts[2])))
    else None
  }

  /** Printing then parsing a version gives it back. */
  lemma ParseShow(v: Version)
    ensures ParseVersion(Show(v)) == Some(v)
  {
    var a, b, c := Decimal(v.major), Decimal(v.minor), Decimal(v.patch);
    assert Show(v) == JoinWith([a, b, c], '.') by {
      assert [a, b, c][1..] == [b, c];
      assert [b, c][1..] == [c];
      assert JoinWith([b, c], '.') == b + "." + c;
      assert a + "." + (b + "." + c) == a + "." + b + "." + c;
    }
    NoDot(v.major);
    NoDot(v.minor);
    NoDot(v.patch);
    JoinSplit([a, b, c], '.');
    ValueOfDecimal(v.major);
    ValueOfDecimal(v.minor);
    ValueOfDecimal(v.patch);
  }

  // ---------------------------------------------------------------------------
  // The archive for this platform

  /** `assetForCurrentPlatform`. */
  function AssetForPlatform(tag: string, os: string, arch: string): (r: Res<string>)
    ensures r.Success? <==> (os == "linux" || os == "darwin" || os == "windows") && (arch == "amd64" || arch == "arm64")
    ensures !(os == "linux" || os == "darwin" || os == "windows") ==> r == Failure(UnsupportedOS(os))
    ensures (os == "linux" || os == "darwin" || os == "windows") && !(arch == "amd64" || arch == "arm64") ==>
              r == Failure(UnsupportedArch(arch))
    ensures r.Success? ==> HasPrefix(r.value, "codo_" + tag + "_" + os + "_" + arch)
    // then only the extension: `.zip` on windows, `.tar.gz` elsewhere
    ensures r.Success? ==> HasSuffix(r.value, if os == "windows" then ".zip" else ".tar.gz")
    ensures r.Success? ==> |r.value| == |"codo_" + tag + "_" + os + "_" + arch| + (if os == "windows" then 4 else 7)
  {
    var ext := if os == "windows" then ".zip" else ".tar.gz";
    if !(os == "linux" || os == "darwin" || os == "windows") then Failure(UnsupportedOS(os))
    else if arch != "amd64" && arch != "arm64" then Failure(UnsupportedArch(arch))
    else
      var stem := "codo_" + tag + "_" + os + "_" + arch;
      assert (stem + ext)[..|stem|] == stem;
      Success(stem + ext)
  }

  /** The archive is a zip exactly on Windows (which is what the extractor
      branches on). */
  lemma ZipOnlyOnWindows(tag: string, os: string, arch: string)
    requires AssetForPlatform(tag, os, arch).Success?
    ensures HasSuffix(AssetForPlatform(tag, os, arch).value, ".zip") <==> os == "windows"
  {
    var name := AssetForPlatform(tag, os, arch).value;
    var stem := "codo_" + tag + "_" + os + "_" + arch;
    if os == "windows" {
      assert name == stem + ".zip";
      assert name[|name| - 4..] == ".zip";
    } else {
      assert name == stem + ".tar.gz";
      assert name[|name| - 1] == 'z';
      assert name[|name| - 4..] != ".zip" by {
        assert name[|name| - 4..][3] == 'z';
      }
    }
  }

  // ---------------------------------------------------------------------------
  // checksums.txt

  /** The line names `asset`: it has at least two fields and the last one
      is the asset or a path ending in it. */
  predicate NamesAsset(line: string, asset: string) {
    var fields := Fields(line, GoSpace);
    |fields| >= 2 && (fields[|fields| - 1] == asset || GoBase(fields[|fields| - 1]) == asset)
  }

  /** The digest a line gives for `asset`: its first field, when the
      trimmed line names the asset. */
  function LineDigest(line: string, asset: string): (r: Option<string>)
    ensures r.Some? <==> NamesAsset(line, asset)
    ensures r.Some? ==> r.value == Fields(line, GoSpace)[0]
    ensures r.Some? ==> r.value != "" && forall i :: 0 <= i < |r.value| ==> !GoSpace(r.value[i])
  {
    var t := Trim(line, GoSpace);
    FieldsOfTrim(line, GoSpace);
    if t == "" then
      assert Fields(t, GoSpace) == [];
      None
    else
      var fields := Fields(t, GoSpace);
      if |fields| < 2 then None
      else
        var name := fields[|fields| - 1];
        if name == asset || GoBase(name) == asset then Some(fields[0]) else None
  }

  /** The first line that names `asset`: every earlier line names
      something else. */
  function FindDigest(lines: seq<string>, asset: string): (r: Res<string>)
    ensures r.Failure? <==> forall i :: 0 <= i < |lines| ==> !NamesAsset(lines[i], asset)
    ensures r.Failure? ==> r.error == ChecksumNotFound(asset)
    ensures r.Success? ==> exists i :: 0 <= i < |lines| && NamesAsset(lines[i], asset)
                                       && r.value == Fields(lines[i], GoSpace)[0]
                                       && forall j :: 0 <= j < i ==> !NamesAsset(lines[j], asset)
    decreases |lines|
  {
    if |lines| == 0 then Failure(ChecksumNotFound(asset))
    else if NamesAsset(lines[0], asset) then Success(LineDigest(lines[0], asset).value)
    else
      var r := FindDigest(lines[1..], asset);
      assert forall i :: 1 <= i < |lines| ==> lines[i] == lines[1..][i - 1];
      r
  }

  /** The checksum parsing inside `fetchExpectedChecksum`. */
  function ChecksumFor(data: string, asset: string): (r: Res<string>)
    ensures r.Failure? ==> r.error == ChecksumNotFound(asset)
  {
    FindDigest(Split(data, '\n'), asset)
  }

  predicate Token(s: string) {
    s != "" && forall i :: 0 <= i < |s| ==> !GoSpace(s[i])
  }

  /** The fields of a `sha256sum` line are the digest and the asset. */
  lemma FieldsOfSumLine(digest: string, asset: string)
    requires Token(digest) && Token(asset)
    ensures Fields(digest + "  " + asset, GoSpace) == [digest, asset]
  {
    var tail := "  " + asset;
    assert digest + "  " + asset == digest + tail;
    FirstField(digest, tail, GoSpace);
    assert Fields(tail, GoSpace) == Fields(asset, GoSpace) by {
      assert tail[1..] == " " + asset;
      assert (" " + asset)[1..] == asset;
    }
    FirstField(asset, "", GoSpace);
    assert asset + "" == asset;
  }

  /** The line `sha256sum` writes for an asset yields its digest. */
  lemma DigestOfSumLine(digest: string, asset: string)
    requires Token(digest) && Token(asset)
    ensures LineDigest(digest + "  " + asset, asset) == Some(digest)
  {
    var line := digest + "  " + asset;
    FieldsOfSumLine(digest, asset);
    FieldsOfTrim(line, GoSpace);
    var t := Trim(line, GoSpace);
    assert Fields(t, GoSpace) == [digest, asset];
    assert t != "" by {
      assert Fields("", GoSpace) == [];
    }
  }

  /** A line naming the asset under a directory yields its digest too. */
  lemma DigestOfPathLine(digest: string, dir: string, asset: string)
    requires Token(digest) && Token(dir) && Token(asset) && '/' !in asset
    ensures LineDigest(digest + "  " + dir + "/" + asset, asset) == Some(digest)
  {
    var name := dir + "/" + asset;
    assert Token(name) by {
      forall i | 0 <= i < |name|
        ensures !GoSpace(name[i])
      {
        if i < |dir| {
          assert name[i] == dir[i];
        } else if i > |dir| {
          assert name[i] == asset[i - |dir| - 1];
        }
      }
    }
    var line := digest + "  " + name;
    assert digest + "  " + dir + "/" + asset == line;
    FieldsOfSumLine(digest, name);
    FieldsOfTrim(line, GoSpace);
    GoBaseOfJoin(dir, asset);
    assert Trim(line, GoSpace) != "" by {
      assert Fields("", GoSpace) == [];
    }
  }

  /** A file whose first line is the asset's `sha256sum` line yields that
      digest, whatever follows. */
  lemma ChecksumOfFirstLine(digest: string, asset: string, rest: string)
    requires Token(digest) && Token(asset)
    ensures ChecksumFor(digest + "  " + asset + "\n" + rest, asset) == Success(digest)
  {
    var line := digest + "  " + asset;
    assert '\n' !in line by {
      forall i | 0 <= i < |line|
        ensures line[i] != '\n'
      {
        if i < |digest| {
          assert line[i] == digest[i];
        } else if i >= |digest| + 2 {
          assert line[i] == asset[i - |digest| - 2];
        }
      }
    }
    SplitPeel(line, rest, '\n');
    DigestOfSumLine(digest, asset);
  }

  /** A line naming another asset is passed over. */
  lemma OtherAssetSkipped(line: string, asset: string, rest: string)
    requires '\n' !in line && LineDigest(line, asset).None?
    ensures ChecksumFor(line + "\n" + rest, asset) == ChecksumFor(rest, asset)
  {
    SplitPeel(line, rest, '\n');
    var ls := [line] + Split(rest, '\n');
    assert ls[1..] == Split(rest, '\n');
  }

  // ---------------------------------------------------------------------------
  // The command

  datatype UpgradeNet = UpgradeNet(checksums: string -> Option<string>,
                                   download: string -> Option<Bytes>,
                                   sha: Bytes -> string,
                                   extract: (string, Bytes) -> Option<Bytes>,
                                   apply: (Path, Bytes) -> bool)

  /** What an upgrade that does not fail ends with. */
  datatype Upgraded = DevBuild | UpToDate(current: Version) | Updated(tag: string, binary: Bytes)

  const DownloadBase: string := "https://github.com/hergert/codo-agentic-toolkit/releases/download/"

  /** Where a release's `checksums.txt` lives. */
  function SumsURL(tag: string): string {
    DownloadBase + tag + "/checksums.txt"
  }

  function ArchiveURL(tag: string, asset: string): string {
    DownloadBase + tag + "/" + asset
  }

  /** `upgradeCmd.RunE`. `latest` is what release detection answers: an
      error, no release, or the newest version. */
  function UpgradeCommand(version: string, exe: Option<Path>, latest: Res<Option<Version>>, os: string, arch: string,
                          net: UpgradeNet): (r: Res<Upgraded>)
    ensures version == "dev" ==> r == Success(DevBuild)
    ensures version != "dev" && ParseVersion(TrimPrefix(version, "v")).None? ==> r == Failure(BadCurrentVersion)
    // the executable is looked up after parsing and before release detection
    ensures version != "dev" && ParseVersion(TrimPrefix(version, "v")).Some? && exe.None? ==> r == Failure(NoExecutable)
    ensures r.Success? && r.value.Updated? ==> exe.Some? && net.apply(exe.value, r.value.binary)
    ensures r.Success? && r.value.Updated? ==>
              && version != "dev"
              && ParseVersion(TrimPrefix(version, "v")).Some?
              && latest.Success? && latest.value.Some?
              && Newer(latest.value.value, ParseVersion(TrimPrefix(version, "v")).value)
              && r.value.tag == "v" + Show(latest.value.value)
    ensures r.Success? && r.value.UpToDate? ==>
              latest.Success? && latest.value.Some? && !Newer(latest.value.value, r.value.current)
  {
    if version == "dev" then Success(DevBuild)
    else
      match ParseVersion(TrimPrefix(version, "v"))
      case None => Failure(BadCurrentVersion)
      case Some(current) =>
        if exe.None? then Failure(NoExecutable)
        else
        match latest
        case Failure(_) => Failure(DetectLatestFailed)
        case Success(None) => Failure(NoReleases)
        case Success(Some(newest)) =>
          if !Newer(newest, current) then Success(UpToDate(current))
          else
            var tag := "v" + Show(newest);
            match AssetForPlatform(tag, os, arch)
            case Failure(e) => Failure(e)
            case Success(asset) => Install(tag, asset, exe.value, net)
  }

  /** Lines 67-91: fetch the checksum, the archive, compare, extract, apply. */
  function Install(tag: string, asset: string, exe: Path, net: UpgradeNet): (r: Res<Upgraded>)
    ensures r.Success? ==> r.value.Updated? && r.value.tag == tag
    ensures r.Success? ==> net.apply(exe, r.value.binary)
    ensures r.Success? ==>
              && net.checksums(SumsURL(tag)).Some?
              && net.download(ArchiveURL(tag, asset)).Some?
              && ChecksumFor(net.checksums(SumsURL(tag)).value, asset)
                 == Success(net.sha(net.download(ArchiveURL(tag, asset)).value))
  {
    var sumsURL := SumsURL(tag);
    var assetURL := ArchiveURL(tag, asset);
    match net.checksums(sumsURL)
    case None => Failure(DownloadFailed(sumsURL))
    case Some(data) =>
      match ChecksumFor(data, asset)
      case Failure(e) => Failure(e)
      case Success(expected) =>
        match net.download(assetURL)
        case None => Failure(DownloadFailed(assetURL))
        case Some(archive) =>
          if net.sha(archive) != expected then Failure(ChecksumMismatch)
          else
            match net.extract(asset, archive)
            case None => Failure(ExtractFailed)
            case Some(binary) => if net.apply(exe, binary) then Success(Updated(tag, binary)) else Failure(ApplyFailed)
  }

  /** A mismatching archive is never unpacked or applied: the answer does
      not depend on extraction or on replacing the executable. */
  lemma MismatchNeverApplies(tag: string, asset: string, exe: Path, net: UpgradeNet,
                             extract': (string, Bytes) -> Option<Bytes>, apply': (Path, Bytes) -> bool)
    requires Install(tag, asset, exe, net) == Failure(ChecksumMismatch)
    ensures Install(tag, asset, exe, net.(extract := extract', apply := apply')) == Failure(ChecksumMismatch)
  {
    var sums := net.checksums(SumsURL(tag));
    var archive := net.download(ArchiveURL(tag, asset));
    assert sums.Some? && archive.Some?;
    assert ChecksumFor(sums.value, asset).Success?;
    assert net.sha(archive.value) != ChecksumFor(sums.value, asset).value;
  }

  /** A leading `v` on the running version makes no difference. */
  lemma LeadingVIgnored(s: string, exe: Option<Path>, latest: Res<Option<Version>>, os: string, arch: string, net: UpgradeNet)
    requires s != "dev" && !HasPrefix(s, "v")
    ensures UpgradeCommand("v" + s, exe, latest, os, arch, net) == UpgradeCommand(s, exe, latest, os, arch, net)
  {
    assert HasPrefix("v" + s, "v");
    assert ("v" + s)[1..] == s;
  }
}
