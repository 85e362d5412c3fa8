/**
 * Where codo keeps its state outside the repository
 * (cli/internal/statepath/statepath.go): a per-user base directory, a
 * per-repository key derived from the hash of the repository's absolute
 * path, the manifest file and the backup directories below it, and the
 * legacy in-repository manifest location.
 *
 * The environment lookups (`os.UserConfigDir`, `os.UserCacheDir`,
 * `os.UserHomeDir`, `filepath.Abs`) are inputs; `filepath.Join` is plain
 * concatenation with "/", which is what it yields on clean Unix paths.
 */
module StatePath {
  import opened Wrappers
  import opened Types
  import opened Text

  predicate IsHexDigit(c: char) {
    ('0' <= c <= '9') || ('a' <= c <= 'f')
  }

  /** `hex.EncodeToString` of a SHA-256 sum: 64 lower-case hex digits. */
  type Hex64 = s: string | |s| == 64 && forall i :: 0 <= i < |s| ==> IsHexDigit(s[i])
    witness seq(64, _ => '0')

  /** The outcome of each environment lookup; `None` is an error return. */
  datatype Env = Env(configDir: Option<Path>, cacheDir: Option<Path>, homeDir: Option<Path>)

  /** A directory lookup that succeeded with a non-empty answer. */
  predicate Usable(d: Option<Path>) {
    d.Some? && d.value != ""
  }

  /** `baseDir`: the first usable of the config and cache directories, else
      the home directory (an error there is the only way to fail). */
  function BaseDir(env: Env): (r: Option<Path>)
    ensures r.Some? <==> (Usable(env.configDir) || Usable(env.cacheDir) || env.homeDir.Some?)
    ensures Usable(env.configDir) ==> r == Some(env.configDir.value + "/codo")
    ensures (!Usable(env.configDir) && Usable(env.cacheDir)) ==> r == Some(env.cacheDir.value + "/codo")
    ensures (!Usable(env.configDir) && !Usable(env.cacheDir) && env.homeDir.Some?)
              ==> r == Some(env.homeDir.value + "/.codo")
  {
    if Usable(env.configDir) then Some(env.configDir.value + "/codo")
    else if Usable(env.cacheDir) then Some(env.cacheDir.value + "/codo")
    else if env.homeDir.Some? then Some(env.homeDir.value + "/.codo")
    else None
  }

  /** `repoKey`: the first 16 hex digits of the digest of the absolute root;
      when `filepath.Abs` fails the root is hashed as given. */
  function RepoKey(root: Path, abs: Option<Path>, sha: string -> Hex64): (r: string)
    ensures |r| == 16
    ensures forall i :: 0 <= i < |r| ==> IsHexDigit(r[i])
    ensures HasPrefix(sha(abs.GetOr(root)), r)
  {
    sha(abs.GetOr(root))[..16]
  }

  /** The inputs every state path is derived from. */
  datatype Site = Site(env: Env, root: Path, abs: Option<Path>, sha: string -> Hex64)

  function Key(s: Site): (r: string)
    ensures |r| == 16
  {
    RepoKey(s.root, s.abs, s.sha)
  }

  /** `ManifestPath`: `<base>/manifests/<key>.json`, an error without a base. */
  function ManifestPath(s: Site): (r: Option<Path>)
    ensures r.Some? <==> BaseDir(s.env).Some?
    ensures r.Some? ==> (HasPrefix(r.value, BaseDir(s.env).value + "/manifests/")
                      && HasSuffix(r.value, Key(s) + ".json"))
    // nothing between the two: the path is exactly base, "/manifests/", key, ".json"
    ensures r.Some? ==> |r.value| == |BaseDir(s.env).value| + |"/manifests/"| + 16 + |".json"|
  {
    match BaseDir(s.env)
    case None => None
    case Some(base) => Some(base + "/manifests/" + Key(s) + ".json")
  }

  /** `BackupDir`: `<base>/backups/<key>/<timestamp>`. */
  function BackupDir(s: Site, ts: string): (r: Option<Path>)
    ensures r.Some? <==> BaseDir(s.env).Some?
    ensures r.Some? ==> (HasPrefix(r.value, BaseDir(s.env).value + "/backups/" + Key(s) + "/")
                      && HasSuffix(r.value, ts))
    ensures r.Some? ==> |r.value| == |BaseDir(s.env).value + "/backups/" + Key(s) + "/"| + |ts|
  {
    match BaseDir(s.env)
    case None => None
    case Some(base) => Some(base + "/backups/" + Key(s) + "/" + ts)
  }

  /** `LegacyManifestPath`: inside the repository, whatever the environment. */
  function LegacyManifestPath(root: Path): (r: Path)
    ensures HasPrefix(r, root + "/") && HasSuffix(r, "/.claude/.codo-manifest.json")
    ensures |r| == |root| + |"/.claude/.codo-manifest.json"|
  {
    root + "/.claude/.codo-manifest.json"
  }

  /** Two runs at different timestamps never share a backup directory. */
  lemma BackupDirsDistinct(s: Site, ts1: string, ts2: string)
    requires BaseDir(s.env).Some?
    requires ts1 != ts2
    ensures BackupDir(s, ts1) != BackupDir(s, ts2)
  {
    var pre := BaseDir(s.env).value + "/backups/" + Key(s) + "/";
    assert BackupDir(s, ts1).value == pre + ts1;
    assert BackupDir(s, ts2).value == pre + ts2;
    assert (pre + ts1)[|pre|..] == ts1;
    assert (pre + ts2)[|pre|..] == ts2;
  }

  /** Repositories with different keys get different manifest files. */
  lemma ManifestPathSeparatesRepos(s1: Site, s2: Site)
    requires s1.env == s2.env && BaseDir(s1.env).Some?
    requires Key(s1) != Key(s2)
    ensures ManifestPath(s1) != ManifestPath(s2)
  {
    var pre := BaseDir(s1.env).value + "/manifests/";
    var p1 := pre + Key(s1) + ".json";
    var p2 := pre + Key(s2) + ".json";
    assert ManifestPath(s1).value == p1;
    assert ManifestPath(s2).value == p2;
    assert p1[|pre|..|pre| + 16] == Key(s1);
    assert p2[|pre|..|pre| + 16] == Key(s2);
  }

  /** The new and the legacy manifest are never the same file: the former
      ends in sixteen hex digits and ".json", the latter in "-manifest.json",
      whose '-' is no hex digit. So removing the legacy file after writing
      the new one cannot undo the write. */
  lemma ManifestLocationsDistinct(s: Site)
    requires ManifestPath(s).Some?
    ensures ManifestPath(s).value != LegacyManifestPath(s.root)
  {
    var base := BaseDir(s.env).value;
    var k := Key(s);
    var p := base + "/manifests/" + k + ".json";
    assert ManifestPath(s).value == p;
    var l := LegacyManifestPath(s.root);
    assert p[|p| - 14] == k[7];
    assert IsHexDigit(k[7]);
    assert l[|l| - 14] == '-';
    assert p[|p| - 14] != l[|l| - 14];
  }
}
