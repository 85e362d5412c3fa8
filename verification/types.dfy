/**
 * The vocabulary shared by the whole model: bytes, paths, the abstract hash,
 * the working tree as a map, pack trees, pack entries, printed lines and the
 * error taxonomy.
 */
module Types {
  import opened Wrappers

  newtype byte = b: int | 0 <= b < 256

  type Bytes = seq<byte>

  /** A slash-separated path. Repository files are relative to the project
      root; state files (manifests, backups) are absolute. */
  type Path = string

  /** A lower-case hex SHA-256 digest, as produced by `fmt.Sprintf("%x", …)`. */
  type Digest = string

  /** SHA-256 is not modelled: every command takes the hash as a parameter, and
      nothing below assumes it is collision-free. */
  type Hasher = Bytes -> Digest

  /** The live file system: a path is readable iff it is a key. */
  type FS = map<Path, Bytes>

  /** An `fs.FS` a pack is read from: its regular files and its directories. */
  datatype Tree = Tree(files: map<Path, Bytes>, dirs: set<Path>)

  /** A pack entry (`pack.File`): destination path and the outcome of its
      `Read` accessor, `None` when the read fails. */
  datatype PackFile = PackFile(relPath: Path, read: Option<Bytes>)

  /** Why a command stops. Each case is an error return (or `abortIf`) of the
      source. */
  datatype Error =
    | NoManifest                  // abortIf(!manifest.Exists(), …)
    | ManifestNotFound            // legacy manifest cannot be opened
    | ManifestCorrupt             // legacy manifest does not parse
    | StateDirUnavailable         // no config, cache or home directory
    | WalkFailed(root: Path)      // fs.WalkDir on a missing tree
    | UnknownPackVersion(version: string)
    | ReadFailed(path: Path)      // a pack entry's Read failed
    | EmbeddedPackUnavailable
    | WizardFailed
    | MoveFailed(path: Path)
    | DriftDetected
    | NoPackAsset(tag: string)
    | DownloadFailed(url: string)
    | EmptyChecksumFile
    | ChecksumMismatch
    | ExtractFailed
    | NoPackRoot
    | BadCurrentVersion
    | NoExecutable                // os.Executable failed
    | DetectLatestFailed
    | NoReleases
    | UnsupportedOS(os: string)
    | UnsupportedArch(arch: string)
    | ChecksumNotFound(asset: string)
    | ApplyFailed
    | NoHomeDir                   // os.UserHomeDir failed

  type Res<T> = Result<T, Error>

  /** Suffix of the conflict sidecar written beside a locally modified file. */
  const NewSuffix: string := ".codo.new"

  /** Suffix of the advisory written beside a modified file removed upstream. */
  const NoteSuffix: string := ".codo.removed.suggested"

  function Sidecar(p: Path): Path {
    p + NewSuffix
  }

  function Note(p: Path): Path {
    p + NoteSuffix
  }

  /** The UTF-8 encoding of an ASCII string. */
  function AsciiBytes(s: string): (r: Bytes)
    ensures |r| == |s|
  {
    seq(|s|, i requires 0 <= i < |s| => (s[i] as int % 256) as byte)
  }

  /** `fs` and `fs'` agree on every path outside `touched`. */
  ghost predicate SameOutside(fs: FS, fs': FS, touched: set<Path>) {
    forall p :: p !in touched ==> (p in fs <==> p in fs') && (p in fs ==> fs[p] == fs'[p])
  }

  /** Two steps that each keep the rest keep it together. */
  lemma SameOutsideChain(fs: FS, fs': FS, fs'': FS, t1: set<Path>, t2: set<Path>)
    requires SameOutside(fs, fs', t1) && SameOutside(fs', fs'', t2)
    ensures SameOutside(fs, fs'', t1 + t2)
  {
  }

  /** One line a command prints about a file (or the one-line verdict of
      `init` and `status`). */
  datatype Line =
    | Created(path: Path)              // "+ p"
    | Identical(path: Path)            // "= p"
    | Conflict(sidecar: Path)          // "! conflict → p.codo.new"
    | Refreshed(path: Path)            // "~ p"
    | Pruned(path: Path)               // "- p"
    | Orphaned(note: Path)             // "! modified & removed upstream → p.codo.removed.suggested"
    | SkippedUnmanaged(path: Path)     // "~ skip unmanaged p"
    | BackedUp(path: Path)             // "- p"
    | Aborted                          // "aborted"
    | NotInstalled                     // "codo: not installed"
    | DriftMissing(path: Path)         // "missing p"
    | DriftModified(path: Path)        // "~ p"
    | UsingLocalPack(forUpdate: bool)  // "Using local pack directory[ for update]"
    | Downloading(version: string)     // "Downloading pack version: v..."
    | Downloaded                       // "Downloaded pack from GitHub releases"
    | FallingBack(cause: Error)        // "Download failed (<cause>), using embedded base pack"
    | UsingEmbeddedOffline             // "Using embedded base pack (offline mode)"
    | Initialized(version: string)     // "Codo v initialized. ..."
  {
    function Text(): string {
      match this
      case Created(p) => "+ " + p
      case Identical(p) => "= " + p
      case Conflict(s) => "! conflict → " + s
      case Refreshed(p) => "~ " + p
      case Pruned(p) => "- " + p
      case Orphaned(n) => "! modified & removed upstream → " + n
      case SkippedUnmanaged(p) => "~ skip unmanaged " + p
      case BackedUp(p) => "- " + p
      case Aborted => "aborted"
      case NotInstalled => "codo: not installed"
      case DriftMissing(p) => "missing " + p
      case DriftModified(p) => "~ " + p
      case UsingLocalPack(u) => "Using local pack directory" + (if u then " for update" else "")
      case Downloading(v) => "Downloading pack version: " + v + "..."
      case Downloaded => "Downloaded pack from GitHub releases"
      case FallingBack(_) => "Download failed (…), using embedded base pack"
      case UsingEmbeddedOffline => "Using embedded base pack (offline mode)"
      case Initialized(v) => "\nCodo " + v + " initialized. See .claude/.codo-report/conflicts.txt if any."
    }
  }
}
