# codo reconciler, modelled in Dafny

codo installs a pack of template files (a `.claude/` tree, `CLAUDE.md`,
`docs/`) into a repository. It remembers one SHA-256 per installed file in a
manifest kept outside the repository. Later runs compare each live file with
that record, so they never overwrite a user's edit:

- `init` creates missing files, leaves identical ones alone, and writes a
  `.codo.new` sidecar where the user's file differs.
- `update` refreshes files that are still as installed, and writes a sidecar
  next to edited ones. It prunes clean files the pack dropped, and leaves an
  advisory next to edited ones the pack dropped.
- `status` reports drift.
- `remove` moves managed files into a backup tree and deletes the manifest.

The pack also ships two Python hooks: a guard that blocks dangerous tool
calls, and a hint printer that suggests the next slash command.

The model is functional. The working tree is a `map<Path, Bytes>`, where a
path is readable iff it is a key. SHA-256 is a parameter `h: Bytes -> Digest`,
and nothing assumes it is collision-free. Every decision the code makes is a
hash-equality test, and the model makes the same tests.

Each command is a pure function from (record, resolved pack, file system,
dry-run flag) to (printed lines, new file system, new manifest store, error).
The manifest store is a `map<Path, Doc>`, where a `Doc` is a parsed manifest
or a file that does not parse.

The network, archive extraction, release detection and the bubbletea runtime
are oracle parameters. So is the part of the file system the hooks probe.

| file | module | models |
|---|---|---|
| wrappers.dfy | Wrappers | `Option`, `Result` |
| types.dfy | Types | bytes, paths, the hash parameter, `FS`, pack `Tree`s, `PackFile`, printed `Line`s, the error taxonomy |
| text.dfy | Text | the Go and Python string functions the code calls: `strings.Fields`, `Split`, `TrimSpace`, `ReplaceAll`, `filepath.Base`, `str.strip`, `splitlines`, `os.path.basename` |
| order.dfy | StringOrder | `strings.Compare` order; sorting a key set |
| resolver.dfy, loader_facts.dfy | Resolver, LoaderFacts | `FilesFromDotclaudeFS`, `VersionOrDefault`, `Files`, `filesV11` |
| install.dfy | Install | `fsops.CopySafe` and the install loop of `init` |
| manifest.dfy | Manifests | `Exists`, `Open`, `Write`, `WriteWithStacks`, `Remove` |
| statepath.dfy | StatePath | `baseDir`, `repoKey`, `ManifestPath`, `BackupDir`, `LegacyManifestPath` |
| commands.dfy | CommandBase | pack-source priority shared by `init` and `update` |
| init.dfy | Init | `--stacks` parsing, the installed-version label, `init` itself |
| update.dfy | Update | the `update` reconciliation |
| status.dfy | Status | drift and strict mode |
| remove.dfy | Remove | `remove` and `moveWithCopyFallback` |
| wizard.dfy | Wizard | the stack picker's key handling and result |
| release.dfy | Release | `pack.Resolve` and `canonicalPackRoot` |
| upgrade.dfy | Upgrade | `codo upgrade`: version gate, asset naming, checksum-file parsing |
| guard.dfy | Guard | `pre_tool_use.py` |
| hint.dfy | Hint | `after_stop_hint.py` |

## Model

| member | source | states |
|---|---|---|
| Text.ReplaceChar | cli/internal/pack/resolve.go:86 | every occurrence of the character is replaced and every other character kept, position by position |
| Text.SplitJoin | cli/cmd/upgrade.go:135 | joining the pieces of a split with the separator gives back the text, and no piece contains the separator |
| Text.JoinSplit | cli/cmd/init.go:36 | splitting a join of separator-free pieces gives back the pieces |
| Text.Fields | cli/cmd/upgrade.go:141 | every field is non-empty and free of white space |
| Text.FieldsCoverText | cli/cmd/upgrade.go:141 | the fields, concatenated, are exactly the text with its white space removed: nothing is lost or reordered |
| Text.FieldsOfTrim | cli/internal/pack/resolve.go:109-110 | trimming before splitting into fields changes nothing |
| Text.AfterLastSlash | pack/dotclaude/hooks/pre_tool_use.py:15 | the basename has no slash, is a suffix of the path, and is preceded by a slash when shorter than the path |
| Text.GoBaseOfJoin | cli/cmd/upgrade.go:146 | the Go basename of `dir/name` is `name` |
| StringOrder.SortSet | cli/internal/pack/fsloader.go:59-67 | the sorted list holds exactly the set's elements, strictly increasing, so it has no duplicates |
| StringOrder.SortedUnique | cli/internal/pack/fsloader.go:67 | two strictly sorted lists with the same elements are equal, so the output does not depend on map iteration order |
| StringOrder.Total | cli/internal/pack/fsloader.go:67 | any two paths are ordered one way or the other |
| Resolver.FilterAllowed | cli/internal/pack/fsloader.go:30-35 | only allow-listed stacks survive, and nothing is added |
| Resolver.FilterAllowedCounts | cli/internal/pack/fsloader.go:30-35 | each allowed name survives exactly as often as it was requested |
| Resolver.FilterAllowedAppend | cli/internal/pack/types.go:9-17 | filtering distributes over concatenation, so the survivors keep their request order |
| Resolver.Layer | cli/internal/pack/fsloader.go:20-27 | a destination is indexed iff it carries the `.claude/` prefix and the corresponding path under the tree root is a file; it maps to that source path |
| Resolver.OverlaysSkipMissing | cli/internal/pack/fsloader.go:40 | adding a stack whose directory does not exist leaves the overlay index unchanged, because the walk error is discarded |
| Resolver.OverlaysPickWinner | cli/internal/pack/fsloader.go:38-48 | the composed index agrees with the reference `Winner`: the last requested stack that has the file, else base |
| Resolver.Emit | cli/internal/pack/fsloader.go:59-67 | the output paths are the index keys strictly sorted, and each entry reads the bytes of its indexed source |
| Resolver.EmitCovers | cli/internal/pack/fsloader.go:59-66 | a destination is in the output iff it is in the index |
| Resolver.TopLevel | cli/internal/pack/fsloader.go:51-57 | the top-level walk indexes exactly the files not under `.claude/`, each at its own path |
| Resolver.DotclaudeIndexSources | cli/internal/pack/fsloader.go:17-57 | the loader's index agrees with the reference source choice and points only at existing files |
| Resolver.FilesFromDotclaudeFS | cli/internal/pack/fsloader.go:13-69 | the loader fails, with the base walk's error, exactly when the base tree is missing; otherwise its output is strictly sorted |
| Resolver.DotclaudeFilesCharacterised | cli/internal/pack/fsloader.go:13-69 | every output entry reads the bytes of its reference source, and every destination that has a source is in the output |
| Resolver.LastOverlayWins | cli/internal/pack/fsloader.go:45 | if the last requested stack has the file, that stack's copy is the source |
| Resolver.OverlayBeatsBase | cli/internal/pack/fsloader.go:38-48 | if any requested stack has the file, the source is that stack's copy or a later stack's, never base |
| Resolver.VersionOrDefault | cli/internal/pack/pack.go:35-40 | the empty version means `v1.1`; any other version is kept as given |
| Resolver.FirstMissing | cli/internal/pack/pack.go:87-89 | nothing is missing iff every requested stack has a tree; otherwise it names the first requested stack without one |
| Resolver.FilesV11 | cli/internal/pack/pack.go:54-104 | composition fails iff the core tree or any requested allowed stack tree is missing, unlike the loader; the error names the core root, else the first missing stack root; otherwise the output is strictly sorted |
| Resolver.Files | cli/internal/pack/pack.go:44-52 | `""` and `v1.1` compose the v1.1 pack; every other version fails as unknown |
| Resolver.FilesV11Characterised | cli/internal/pack/pack.go:72-103 | each entry reads the bytes of the last tree (core, then the stacks in order) that has its path under the tree root; every path some tree has is in the output |
| LoaderFacts.BaseFilesIncluded | cli/internal/pack/fsloader.go:20-27 | every file `.claude/base/<r>` appears in the output as `.claude/<r>` |
| LoaderFacts.OverlayOrderDecides | cli/internal/pack/fsloader.go:38-48 | when two stacks both have a file, the one requested later wins, in either order |
| LoaderFacts.MissingOverlayIgnored | cli/internal/pack/fsloader.go:40 | requesting a stack whose directory is missing gives the same result as not requesting it |
| LoaderFacts.TopLevelFilesIncluded | cli/internal/pack/fsloader.go:51-57 | every top-level file outside `.claude/` appears at its own path with its own bytes |
| Install.CopySafe | cli/internal/fsops/fsops.go:26-67 | an unreadable entry fails before anything else; an absent destination is created (`+`, placed); identical content reports `=` and writes nothing; different content reports a conflict naming the sidecar under the absolute root (`<root>/<path>.codo.new`, or the bare relative path when the working directory is unknown), leaves the live file and writes the sidecar; a dry run writes nothing |
| Install.JoinRoot | cli/internal/fsops/fsops.go:27 | joining a known root gives the root, a slash, then the relative path; an unknown (empty) root leaves the relative path |
| Install.CopySafeFrame | cli/internal/fsops/fsops.go:26-67 | only the destination and its sidecar can change, and an existing destination is never modified |
| Install.DryRunClassifiesAlike | cli/internal/fsops/fsops.go:45-62 | a dry run prints the same line and returns the same placed flag as a real run |
| Install.CopySafeIdempotent | cli/internal/fsops/fsops.go:44-47 | copying a placed file again reports `=` and changes nothing |
| Install.InstallAll | cli/cmd/init.go:102-104 | the loop succeeds iff every entry reads; the first unreadable entry stops it; each printed line is about the entry at its position; a dry run writes nothing |
| Install.InstallAllFrame | cli/cmd/init.go:102-104 | only the entries' destinations and sidecars can change |
| Install.SettledIsFixedPoint | cli/internal/fsops/fsops.go:38-57 | on a tree where every file is identical or already has its sidecar, installing writes nothing |
| Install.FirstRunSettles | cli/cmd/init.go:102-104 | after a successful install every file is settled, and it was a conflict exactly when the live hash differs from the pack's |
| Install.InstallTwice | cli/internal/fsops/fsops.go:44-66 | a second install changes nothing; created files now report `=` and conflicts stay conflicts |
| Install.DryRunPreviews | cli/cmd/init.go:102-104 | a dry run prints exactly the lines of the real run and stops at the same error |
| Manifests.Locate | cli/internal/manifest/manifest.go:31-45 | the two manifest locations are the state-dir path and the in-repo legacy path, and they differ |
| Manifests.Exists | cli/internal/manifest/manifest.go:47-61 | true iff either location holds a file |
| Manifests.Open | cli/internal/manifest/manifest.go:102-127 | succeeds iff either location holds a parsable manifest; otherwise it fails as corrupt when a legacy file exists, else as not found |
| Manifests.OpenPrefersCurrent | cli/internal/manifest/manifest.go:104-114 | a parsable manifest at the current location is returned whatever the legacy file holds |
| Manifests.OpenFallsBackToLegacy | cli/internal/manifest/manifest.go:115-127 | without a parsable current manifest, the legacy one is returned, and a missing legacy file is an error |
| Manifests.Record | cli/internal/manifest/manifest.go:76-89 | an entry records the live file's hash when it reads, else the pack content's, and fails when neither reads; the unmanaged flag is set only where the map marks the path |
| Manifests.Records | cli/internal/manifest/manifest.go:75-90 | the entries are one per pack file, in pack order, and are produced iff every file can be read live or from the pack |
| Manifests.RecordsFailure | cli/internal/manifest/manifest.go:83-86 | a failed record names the first file that reads neither live nor from the pack |
| Manifests.WriteWithStacks | cli/internal/manifest/manifest.go:67-100 | without a state directory the write fails; it succeeds iff every file records; success removes the legacy file and touches no other state file |
| Manifests.Write | cli/internal/manifest/manifest.go:63-65 | the plain write succeeds under the same conditions as the stacked one |
| Manifests.Remove | cli/internal/manifest/manifest.go:129-136 | afterwards no manifest exists, and only the two manifest locations were deleted |
| Manifests.WriteThenOpen | cli/internal/manifest/manifest.go:67-127 | after a write, `Open` returns the given version, an empty install time, the given stacks, and one entry per file with the live-or-pack hash |
| Manifests.WriteRecordsManagedOnly | cli/internal/manifest/manifest.go:63-65 | the plain write records no stacks and marks every entry managed |
| Manifests.RemoveThenOpen | cli/internal/manifest/manifest.go:129-136 | after `Remove`, `Open` fails as not found |
| StatePath.BaseDir | cli/internal/statepath/statepath.go:10-22 | the config directory, else the cache directory, else `~/.codo`, and an error only when all three are unavailable |
| StatePath.RepoKey | cli/internal/statepath/statepath.go:24-31 | the key is 16 hex digits, a prefix of the digest of the absolute root, or of the root as given when it cannot be made absolute |
| StatePath.ManifestPath | cli/internal/statepath/statepath.go:33-39 | exists iff the base directory does; it starts `<base>/manifests/`, ends `<key>.json` and has nothing in between, so it is exactly `<base>/manifests/<key>.json` |
| StatePath.BackupDir | cli/internal/statepath/statepath.go:41-61 | exists iff the base directory does; it starts `<base>/backups/<key>/`, ends in the timestamp and has nothing in between |
| StatePath.LegacyManifestPath | cli/internal/statepath/statepath.go:64-66 | the legacy manifest starts `<root>/`, ends `/.claude/.codo-manifest.json` and is no longer than both, so it is exactly `<root>/.claude/.codo-manifest.json`, independent of the base directory |
| StatePath.BackupDirsDistinct | cli/internal/statepath/statepath.go:55-61 | distinct timestamps give distinct backup directories |
| StatePath.ManifestPathSeparatesRepos | cli/internal/statepath/statepath.go:33-39 | repositories with different keys get different manifest paths |
| StatePath.ManifestLocationsDistinct | cli/internal/statepath/statepath.go:33-66 | the manifest path is never the legacy path |
| Status.Drift | cli/cmd/status.go:24-29 | at most one drift item per entry |
| Status.DriftEmptyIff | cli/cmd/status.go:24-31 | no drift iff every entry is present with its recorded hash |
| Status.DriftReportsDrifted | cli/cmd/status.go:26-28 | a missing entry yields `missing <path>` and a changed one yields `~ <path>` |
| Status.DriftOnlyDrifted | cli/cmd/status.go:26-28 | every drift item comes from a drifted entry, and is that entry's item |
| Status.DriftAppend | cli/cmd/status.go:25-29 | drift items follow record order |
| Status.StatusCommand | cli/cmd/status.go:17-41 | without a manifest it reports not installed and succeeds; an unreadable manifest is the error; otherwise it reports the version and drift, and fails iff strict and drift is non-empty |
| Status.FreshRecordHasNoDrift | cli/internal/manifest/manifest.go:79-81 | a record taken from files that are all live shows no drift against them |
| CommandBase.VersionToFetch | cli/cmd/init.go:65-68 | never empty; a given version is kept |
| CommandBase.ChoosePack | cli/cmd/init.go:58-93 | a local pack wins; then a download, unless offline; then the embedded pack; it fails iff none is available |
| CommandBase.OfflineIgnoresDownload | cli/cmd/init.go:85-93 | offline, the download oracle does not matter |
| CommandBase.FailedDownloadFallsBack | cli/cmd/init.go:76-84 | with no local pack and a failed or skipped download, the embedded pack is used under the label `embedded-base` |
| CommandBase.PackLines | cli/cmd/init.go:58-88 | one or two announcement lines |
| CommandBase.PackLinesSay | cli/cmd/init.go:58-88 | the local-pack line iff a local pack exists; `Downloading pack version: <v>` iff no local pack and not offline, then `Downloaded …` iff the download succeeded, else `Download failed` with the download's error |
| CommandBase.PackLinesNameChoice | cli/cmd/init.go:58-93 | each announcement matches the pack chosen: local, the downloaded version, or the embedded pack |
| CommandBase.Announced | cli/cmd/init.go:58-114 | the announcement lines come first, then the rest of the command's lines; files, manifest and error are the rest's |
| Init.Piece | cli/cmd/init.go:37-38 | a piece yields a key iff it holds a non-space character, and the key is the piece trimmed: non-empty, with no white space at either end |
| Init.KeepPieces | cli/cmd/init.go:36-39 | the kept keys are all clean and no more than the pieces |
| Init.KeepPiecesMembers | cli/cmd/init.go:36-39 | every kept key is the trim of some piece, and every non-blank piece's trim is kept |
| Init.KeepPiecesAppend | cli/cmd/init.go:36-39 | keeping distributes over concatenation, so order is preserved |
| Init.ParseStacks | cli/cmd/init.go:35-40 | every key is non-empty, trimmed and comma-free |
| Init.ParseStacksRoundTrip | cli/cmd/init.go:35-40 | parsing the comma-join of clean keys gives back the keys in order |
| Init.ParseStacksOfPieces | cli/cmd/init.go:35-40 | comma-free pieces, blank or padded, joined with commas parse to the trims of the non-blank pieces, in order |
| Init.BlankPieceDropped | cli/cmd/init.go:37-38 | a blank piece between commas contributes nothing |
| Init.Choices | cli/cmd/init.go:33-49 | headless mode, chosen by `--no-tui` or a non-empty `--stacks`, uses the parsed flag, confirmed; otherwise the picker's answer |
| Init.InstalledVersion | cli/cmd/init.go:107-108 | the recorded version is `--version` when given, else the label of where the pack came from |
| Init.Place | cli/cmd/init.go:102-114 | the lines and files are those of the install loop, followed by `Codo <version> initialized` exactly when it succeeds; dry runs and failed loops leave the manifest alone; a real run succeeds iff the record is written |
| Init.InitCommand | cli/cmd/init.go:28-115 | a failed picker stops with its error and prints nothing; an unconfirmed picker prints `aborted` and changes nothing; a confirmed one proceeds; a dry run changes neither files nor manifest; the manifest changes only when the command succeeds |
| Init.Proceed | cli/cmd/init.go:55-114 | the pack announcement (`Using local pack directory`, `Downloading pack version: …` then `Downloaded …` or `Download failed …`, or `Using embedded base pack (offline mode)`) comes first; success needs a pack and ends with `Codo <version> initialized`, the version being the one recorded; a dry run changes nothing |
| Init.InitUnfolds | cli/cmd/init.go:55-114 | a confirmed run with a pack and its files is the announcement followed by the placement |
| Init.PlaceDryPreviews | cli/cmd/init.go:102-114 | on separated files a dry placement prints what the real one prints; when only the real run fails to record, the dry run prints the same lines plus `Codo … initialized` |
| Init.PlaceThenStatusClean | cli/cmd/init.go:102-110 | after a successful install and record, the manifest opens with that version and those stacks, and strict `status` finds no drift |
| Init.InitThenStatusClean | cli/cmd/init.go:95-110 | after a successful `init`, the manifest records the chosen version and stacks, and strict `status` succeeds with no drift |
| Init.DryRunMatchesRealRun | cli/cmd/init.go:102-110 | `init --dry-run` prints the lines the real run prints and changes nothing |
| Update.NewContents | cli/cmd/update.go:67-73 | only readable pack entries are in the new map, each under its own path |
| Update.NewContentsHasLastRead | cli/cmd/update.go:67-73 | a readable entry's bytes are in the map unless a later readable entry has the same path |
| Update.Step | cli/cmd/update.go:85-149 | the six cases of one tracked file: already gone, prune, orphan advisory, re-create, refresh, conflict; an edited file is never changed, only its three paths can change, and a dry run writes nothing |
| Update.StepLocal | cli/cmd/update.go:85-149 | a step's lines and writes depend only on its own three paths |
| Update.StepLinesIgnoreDry | cli/cmd/update.go:98-147 | a dry run prints the same line as a real run |
| Update.ProcessOld | cli/cmd/update.go:85-149 | at most one line per tracked file, and a dry run writes nothing |
| Update.ProcessOldSpec | cli/cmd/update.go:85-149 | with distinct tracked paths, the pass prints each step's line in record order, touches only the tracked files' paths, and leaves each file as its own step would |
| Update.Fresh | cli/cmd/update.go:151-153 | the new files are exactly the pack paths not in the record, listed in sorted order |
| Update.AddNew | cli/cmd/update.go:151-165 | each new file is announced with `+` and written with the pack bytes, whether or not a file was there; nothing else changes |
| Update.Reconcile | cli/cmd/update.go:78-165 | a dry run writes nothing |
| Update.ReconcileLines | cli/cmd/update.go:85-165 | the printed lines are the tracked files' lines in record order, then one `+` per new file |
| Update.ReconcileFrame | cli/cmd/update.go:78-165 | only tracked paths, their sidecars and advisories, and pack paths can change |
| Update.ReconcileWritesUntracked | cli/cmd/update.go:151-165 | every pack path missing from the record ends up holding the pack bytes |
| Update.ReconcileTracked | cli/cmd/update.go:85-165 | each tracked file's paths end up as that file's own step leaves them |
| Update.TrackedOutcome | cli/cmd/update.go:86-148 | per tracked file: refresh writes the new bytes; conflict keeps the user's file and puts the new bytes in the sidecar; re-create writes the new bytes; prune deletes; orphan keeps the file and writes the advisory; already gone changes nothing |
| Update.UpdateCore | cli/cmd/update.go:61-171 | the lines and files are those of the reconciliation; a dry run changes nothing; otherwise it succeeds iff the record of the new pack can be written, and a failure leaves the manifest alone |
| Update.UpdateCommand | cli/cmd/update.go:21-64 | without a manifest it stops before reading or writing anything; it prints nothing unless the manifest opens; once it opens, the pack announcement (`Using local pack directory for update`, or `Downloading pack version: …` then `Downloaded …` or `Download failed …`) comes first; files or manifest change only when a pack was found; a dry run changes nothing |
| Update.Fetched | cli/cmd/update.go:32-171 | without any pack it stops with that error, printing and changing nothing more; a dry run changes nothing |
| Update.ConflictThenOverwrite | cli/cmd/update.go:130-171 | an edited file still in the pack gets a sidecar and is kept; the rewritten record takes the edited file's hash, so the next `update` reports it refreshed and overwrites the edit |
| Update.EditedTrackedFileKept | cli/cmd/update.go:139-148 | an edited tracked file still in the pack is kept, and a conflict is reported |
| Update.UntouchedTrackedFileRefreshed | cli/cmd/update.go:130-138 | a tracked file still as recorded is overwritten with the new bytes and reported `~` |
| Remove.Debris | cli/cmd/remove.go:87-97 | a failed open or create leaves the backup tree alone; a later failure leaves a destination file, holding the full copy once the copy completed |
| Remove.Move | cli/cmd/remove.go:78-104 | a missing source is a silent no-op; a rename, or a fallback copy with no fault, moves the bytes into the backup tree; any fault is an error that leaves the source in place |
| Remove.FallbackActsAsRename | cli/cmd/remove.go:81-101 | a fault-free copy fallback ends exactly like a rename |
| Remove.BackupPathInjective | cli/cmd/remove.go:53 | different files get different backup paths |
| Remove.Visit | cli/cmd/remove.go:43-62 | an unmanaged entry is skipped and only its sidecar removed; a managed missing file is skipped silently; a managed present file is announced; in a real run the move succeeds iff the rename or the copy fallback does, and then the file and its sidecar are gone from the repository and its bytes are at `<backup>/<path>`; a failed move reports `MoveFailed(path)` and leaves the repository as it was; nothing is ever added or modified in the repository |
| Remove.Sweep | cli/cmd/remove.go:42-63 | a dry run changes nothing and cannot fail |
| Remove.SweepSpec | cli/cmd/remove.go:42-63 | a successful sweep prints the plan, moves every managed present file into the backup with identical bytes, removes nothing else but sidecars, and modifies nothing |
| Remove.BackupKept | cli/cmd/remove.go:53-57 | a backup of a path no entry names survives the sweep |
| Remove.UnmanagedUntouched | cli/cmd/remove.go:43-49 | an unmanaged file is still there afterwards, unchanged |
| Remove.DrySweepPrintsPlan | cli/cmd/remove.go:42-63 | a dry sweep prints the plan and changes nothing |
| Remove.RemoveCommand | cli/cmd/remove.go:20-71 | without a manifest it stops before any change; a dry run changes nothing; the manifest is deleted only by a successful real run, after every entry |
| Remove.DryRunPreviews | cli/cmd/remove.go:32-69 | `remove --dry-run` prints the lines the real run prints and keeps files and manifest |
| Wizard.Update | cli/internal/tui/init_wizard.go:41-76 | the cursor and selection stay in range; exactly `q`, `ctrl+c` and `enter` quit, with confirm only on `enter`; `up`/`k` and `down`/`j` move one step, stopping at the ends, and keep the ticks; every other key keeps the cursor; space flips only the option under the cursor; `a` ticks every option; `n` unticks everything; unknown keys change nothing |
| Wizard.Drive | cli/internal/tui/init_wizard.go:97-99 | the program ends in a quit state, with the cursor in range |
| Wizard.Finish | cli/internal/tui/init_wizard.go:104-116 | an abort gives no stacks and no confirmation; otherwise the selected keys, exactly, sorted and confirmed |
| Wizard.RunWizard | cli/internal/tui/init_wizard.go:96-117 | the stacks are strictly sorted |
| Wizard.CursorStaysInRange | cli/internal/tui/init_wizard.go:48-55 | after any key sequence the cursor is within the options |
| Wizard.ToggleTwice | cli/internal/tui/init_wizard.go:56-60 | pressing space twice restores the selection |
| Wizard.AbortDiscards | cli/internal/tui/init_wizard.go:45-47 | `q` and `ctrl+c` discard any selection |
| Wizard.OptionsAllowed | cli/internal/tui/init_wizard.go:23-28 | every picker option is an allowed stack |
| Wizard.WizardStacksSurviveFilter | cli/internal/tui/init_wizard.go:108-116 | the picker's result passes the pack's allow-list unchanged |
| Wizard.AllThenEnter | cli/internal/tui/init_wizard.go:61-67 | `a` then `enter` selects all four stacks, sorted |
| Wizard.EnterAlone | cli/internal/tui/init_wizard.go:70-72 | `enter` alone confirms an empty selection |
| Release.NormalizeTag | cli/internal/pack/resolve.go:49-55 | `""` and `latest` become `latest` under `latest/download`; any other tag is kept under `download/<tag>` |
| Release.NormalizeTagIdempotent | cli/internal/pack/resolve.go:49-55 | normalising a normalised tag changes nothing |
| Release.Patterns | cli/internal/pack/resolve.go:59-65 | two patterns, the flat names first |
| Release.PickAsset | cli/internal/pack/resolve.go:67-75 | the first pattern whose archive and checksum both answer, and none iff no pattern answers |
| Release.FlatNamesWin | cli/internal/pack/resolve.go:59-75 | when the flat names answer they are chosen |
| Release.CacheDir | cli/internal/pack/resolve.go:86 | the cache directory is `~/.codo/packs/` followed by the tag, character for character, with every `/` turned into `_`, so it is one path segment |
| Release.CacheDirsDistinct | cli/internal/pack/resolve.go:86 | tags without `_` get distinct cache directories |
| Release.ExpectedChecksum | cli/internal/pack/resolve.go:109-114 | fails iff the trimmed file has no field; otherwise the first field of the trimmed file, a non-empty token without white space |
| Release.ExpectedChecksumIsFirstField | cli/internal/pack/resolve.go:109-114 | trimming changes nothing: it succeeds iff the file has a field, with the file's first field |
| Release.ExpectedChecksumOfLine | cli/internal/pack/resolve.go:109-114 | for `<digest> <name>`, the expected checksum is the digest |
| Release.KelvinSignFolds | cli/internal/pack/resolve.go:145 | `strings.EqualFold` accepts `Pack` and `PAC` with a Kelvin sign, and rejects `packs` and `pacq` |
| Release.PackDir | cli/internal/pack/resolve.go:142-150 | the first directory entry named `pack` ignoring case, and none iff there is no such entry |
| Release.Candidates | cli/internal/pack/resolve.go:141-150 | the root is always the last candidate |
| Release.FirstWithDotclaude | cli/internal/pack/resolve.go:152-156 | the first candidate holding `dotclaude`, and none iff no candidate does |
| Release.CanonicalPackRoot | cli/internal/pack/resolve.go:140-159 | a candidate holding `dotclaude`, or an error iff no candidate holds it |
| Release.PackSubdirFirst | cli/internal/pack/resolve.go:140-159 | a `pack` subdirectory holding `dotclaude` is preferred to the root; without one, the root or an error |
| Release.Resolve | cli/internal/pack/resolve.go:45-138 | when no pattern answers it fails naming the normalised tag; success means the chosen pattern's archive and checksum downloaded and the expected checksum equals the archive's |
| Release.NoAssetNoDownload | cli/internal/pack/resolve.go:77-79 | when no pattern answers, nothing but reachability matters |
| Release.MismatchNeverExtracts | cli/internal/pack/resolve.go:122-128 | a checksum mismatch fails whatever extraction would do |
| Upgrade.NewerIsStrictOrder | cli/cmd/upgrade.go:56 | the version comparison is irreflexive, asymmetric, transitive and total on distinct versions |
| Upgrade.Decimal | cli/cmd/upgrade.go:61 | a version number prints as digits with no leading zero |
| Upgrade.ValueOfDecimal | cli/cmd/upgrade.go:61 | the printed digits read back as the number |
| Upgrade.ParseVersion | cli/cmd/upgrade.go:39 | a parsed version has exactly three dot-separated parts |
| Upgrade.ParseShow | cli/cmd/upgrade.go:39-61 | parsing a printed version gives it back |
| Upgrade.AssetForPlatform | cli/cmd/upgrade.go:96-118 | fails for an OS outside linux, darwin and windows, then for an arch outside amd64 and arm64; otherwise the name is exactly `codo_<tag>_<os>_<arch>` followed by `.zip` on windows and `.tar.gz` elsewhere (prefix, suffix and total length) |
| Upgrade.ZipOnlyOnWindows | cli/cmd/upgrade.go:99-102 | the asset is a `.zip` iff the OS is windows |
| Upgrade.LineDigest | cli/cmd/upgrade.go:136-148 | a line yields a digest iff it has at least two fields and its last field, or that field's base name, is the asset; the digest is the first field, a non-empty token without white space |
| Upgrade.FindDigest | cli/cmd/upgrade.go:135-150 | fails with "checksum not found" iff no line names the asset; otherwise yields the first field of the first line that does |
| Upgrade.ChecksumFor | cli/cmd/upgrade.go:135-150 | the only failure is "checksum not found" for that asset |
| Upgrade.DigestOfSumLine | cli/cmd/upgrade.go:141-147 | a `sha256sum` line `<digest>  <asset>` yields the digest |
| Upgrade.DigestOfPathLine | cli/cmd/upgrade.go:146 | a line naming `<dir>/<asset>` matches by basename |
| Upgrade.ChecksumOfFirstLine | cli/cmd/upgrade.go:135-150 | a matching first line decides, whatever follows |
| Upgrade.OtherAssetSkipped | cli/cmd/upgrade.go:136-148 | a line that does not match is skipped |
| Upgrade.UpgradeCommand | cli/cmd/upgrade.go:33-93 | `dev` skips; an unparsable current version fails; then a failed executable lookup fails before the release is looked at; an update replaces the executable found and happens only to a strictly newer release, tagged `v<version>`; up to date means the latest is not newer |
| Upgrade.Install | cli/cmd/upgrade.go:67-92 | success means the checksum file and archive downloaded and the listed digest equals the archive's |
| Upgrade.MismatchNeverApplies | cli/cmd/upgrade.go:77-89 | a checksum mismatch fails whatever extraction and applying would do |
| Upgrade.LeadingVIgnored | cli/cmd/upgrade.go:39 | `v1.2.3` and `1.2.3` behave alike |
| Guard.RmTargets | pack/dotclaude/hooks/pre_tool_use.py:28 | the targets are exactly the tokens that are neither flags nor `rm` |
| Guard.Gates | pack/dotclaude/hooks/pre_tool_use.py:34-60 | blocks iff the tool is a commit, tag or PR command, or a release command's flag file is missing; otherwise allows |
| Guard.EditIsNotBash | pack/dotclaude/hooks/pre_tool_use.py:11-12 | an edit tool never passes for a `Bash(` tool |
| Guard.DecideAsWritten | pack/dotclaude/hooks/pre_tool_use.py:11-62 | the script crashes exactly on an `rm -rf` command that no earlier check decided and that cannot be tokenised |
| Guard.Decide | pack/dotclaude/hooks/pre_tool_use.py:11-62 | always allow or block; docs edits allowed; sensitive paths, unconfined `rm -rf`, commits and ungated releases blocked |
| Guard.AllowIsDefault | pack/dotclaude/hooks/pre_tool_use.py:62 | allowed iff a docs edit, or no check objects |
| Guard.FlagsOnlyLoosen | pack/dotclaude/hooks/pre_tool_use.py:39-60 | creating flag files never turns an allow into a block |
| Guard.ConfinedRmAllowed | pack/dotclaude/hooks/pre_tool_use.py:26-31 | an `rm -rf` confined to `trees/` passes when nothing else objects |
| Guard.RmOutsideTreesBlocked | pack/dotclaude/hooks/pre_tool_use.py:26-31 | `rm -rf` with no target, or a target outside `trees/` or containing `..`, is blocked |
| Guard.TargetsOfExamples | pack/dotclaude/hooks/pre_tool_use.py:28-29 | `rm -rf build` targets `build`, outside `trees/`; `rm -rf trees/../src` targets a path with `..` |
| Guard.UnparsableRmEscapes | pack/dotclaude/hooks/pre_tool_use.py:26-31 | an untokenisable `rm -rf` crashes the script with a non-blocking exit code, while the corrected guard blocks it |
| Guard.UnclosedQuoteCall | pack/dotclaude/hooks/pre_tool_use.py:26-27 | `rm -rf / # don't` is an `rm -rf` call on a non-sensitive path |
| Hint.FirstLine | pack/dotclaude/hooks/after_stop_hint.py:41 | the first line is the longest prefix without a line break |
| Hint.HintFrom | pack/dotclaude/hooks/after_stop_hint.py:42-52 | the hint of the first command the line starts with, and none iff it starts with no command |
| Hint.HintFor | pack/dotclaude/hooks/after_stop_hint.py:37-52 | blank text has no hint; otherwise the hint of the first command the stripped first line starts with |
| Hint.HeadOfLine | pack/dotclaude/hooks/after_stop_hint.py:38-41 | a stripped single line is its own head |
| Hint.OnlyFirstLine | pack/dotclaude/hooks/after_stop_hint.py:41 | text after the first line break does not change the hint |
| Hint.CommandHints | pack/dotclaude/hooks/after_stop_hint.py:42-51 | each command, with any argument, gets its own hint |
| Hint.NotEarlier | pack/dotclaude/hooks/after_stop_hint.py:42-51 | a line starting with one command starts with no earlier one, so the order of the tests does not matter |
| Hint.Texts | pack/dotclaude/hooks/after_stop_hint.py:26-29 | no pieces iff no text block |
| Hint.TextsMembers | pack/dotclaude/hooks/after_stop_hint.py:26-29 | a string is a piece iff a text block carries it |
| Hint.TextsAppend | pack/dotclaude/hooks/after_stop_hint.py:26-29 | pieces are collected in block order: collecting distributes over concatenation |
| Hint.InterleaveTexts | pack/dotclaude/hooks/after_stop_hint.py:26-29 | text blocks with non-text blocks between them give back exactly their texts, in order |
| Hint.UserText | pack/dotclaude/hooks/after_stop_hint.py:19-31 | only a user message yields text; a user string is the text; a block list yields text iff it has a text block, and then the collected texts (see `Texts`, `TextsMembers`, `TextsAppend`) joined by newlines; other content yields none |
| Hint.UserTextJoinsBlocks | pack/dotclaude/hooks/after_stop_hint.py:25-31 | an instance: texts each followed by the same run of non-text blocks yield exactly those texts joined by newlines |
| Hint.Scan | pack/dotclaude/hooks/after_stop_hint.py:14-31 | the result is the earlier text or the text of some user message |
| Hint.ScanAppend | pack/dotclaude/hooks/after_stop_hint.py:14-31 | reading continues from where a run of events that do not raise left off |
| Hint.ScanSilent | pack/dotclaude/hooks/after_stop_hint.py:19-21 | events with no user text leave the text alone |
| Hint.ReadLastUserText | pack/dotclaude/hooks/after_stop_hint.py:8-34 | a missing transcript gives `""`, and the result is stripped |
| Hint.LastUserWins | pack/dotclaude/hooks/after_stop_hint.py:19-31 | the last user message with text wins |
| Hint.HaltKeepsEarlier | pack/dotclaude/hooks/after_stop_hint.py:32-33 | an event that raises ends reading with the text so far |
| Hint.NoTextBlocksKeepEarlier | pack/dotclaude/hooks/after_stop_hint.py:30-31 | a list with no text blocks does not replace the earlier text |
| Hint.Main | pack/dotclaude/hooks/after_stop_hint.py:55-69 | unreadable input prints nothing; otherwise the hint printed is the hint for the last user text of the transcript, a missing transcript reading as `""`; anything printed is one of the five hints |
| Hint.AfterPlan | pack/dotclaude/hooks/after_stop_hint.py:44-45 | a transcript ending in `/plan <key>` prints the `/execute` hint |

## Left out

- File-system failures other than a missing file are not modelled: `MkdirAll`, `WriteFile`, `Remove` and `Stat` always succeed. Only the errors the decision logic returns are modelled: a missing manifest, a failed walk, an unreadable pack entry, a missing state directory, and a failed move.
- Install.CopySafe: the hash error on an existing destination (cli/internal/fsops/fsops.go:40-42) is not modelled, because a present file always reads.
- Printed text is modelled as `Line` values plus their `Text()`. The `✋` prefix and stderr are not modelled. Neither are the summary prints (`Installed version:`, `Backup at`, `(dry-run) Removal would back up files outside the repo`, `Updated to`). `Download failed (...)` carries the download error as a model `Error`, not the Go error's text.
- `fsops.ChmodHooks` is left out: it only sets permission bits.
- The report directory `.claude/.codo-report` that `init` and `update` create is left out: nothing reads it.
- Release.CacheDir: `filepath.Join` cleaning is not modelled here either; a tag of `.` or `..` gives `~/.codo/packs` or `~/.codo` in the code but keeps the literal piece in the model.
- Text.GoBase: only `/` separates; on windows `filepath.Base` also splits at `\`, so a checksum line naming `dir\<asset>` matches there but not in Upgrade.NamesAsset.
- Install.JoinRoot: `filepath.Join` cleaning (`..`, doubled slashes, a root of `/`) is not modelled. Paths are joined with `/`, and pack paths are taken as already clean.
- SHA-256, hex encoding and JSON encoding are not modelled. The hash is a parameter. A manifest file is either a parsed record or a file that does not parse.
- The network (`headOK`, `downloadFile`, `fetchExpectedChecksum`'s HTTP part, `downloadReleaseAsset`, `selfupdate.DetectLatest`) is modelled as oracle functions in the command's parameters.
- Archive extraction (`extractZip`, `extractBinaryFromArchive`) and `update.Apply` are modelled as oracle functions in the command's parameters. The answer of `os.Executable` is an input: the path, or `None` for its error.
- Upgrade.ParseVersion: only `MAJOR.MINOR.PATCH` is accepted. Semver pre-release and build parts are rejected rather than parsed, so versions like `1.2.3-rc1` are not modelled. Components are unbounded; the `uint64` overflow of an over-long component is not modelled.
- `os.Getwd` and `time.Now` are parameters: the root and the timestamp.
- `filepath.Abs` is a parameter too: the absolute root or its failure.
- `os.UserConfigDir`, `UserCacheDir` and `UserHomeDir` are parameters.
- The `File` type and `allowedStacks` are declared twice, in cli/internal/pack/pack.go:19-33 and cli/internal/pack/types.go:3-17. The model defines them once.
- `CopySafe` returns two results but cli/cmd/init.go:103 uses one. `WriteWithStacks` takes four parameters but its callers pass three. Each function is modelled by its definition, and the callers pass an empty `unmanaged` map.
- Go map iteration order is modelled as sorted order. This affects the order of the new-file `+` lines in cli/cmd/update.go:152 and the wizard's key list, which the code sorts anyway.
- The wizard's `View`, the bubbletea runtime and `Init`'s tick are left out. The runtime is a sequence of key names; a sequence that ends before a quit key is a program that has not finished.
- `shlex.split` is not modelled: its token list, or its failure, is an input to the guard.
- The guard models only the JSON fields it reads. A missing field reads as `""`. Non-string JSON values are not modelled.
- Guard.Decide: stdin that is not JSON (`json.load`, pack/dotclaude/hooks/pre_tool_use.py:4) or JSON that is not an object (`E.get`, line 5) raises, and the hook exits 1, which does not block; the model starts from the decoded fields and has no such input.
- Reading the transcript file and decoding its JSON lines are left out. The transcript is a list of already-classified events.
- Hint.Main: stdin that is JSON but not an object makes `E.get` raise at pack/dotclaude/hooks/after_stop_hint.py:61, so the hook dies with a traceback and exit status 1 and prints no hint; the model has no exit status and states only that no hint is printed.
- Hint.Main: `json.dumps` escaping of the printed hint is not modelled. The contract states which hint is printed, not its JSON text.
- Doctor, selfupdate, zipbuild and the embed loaders are not part of this model.

## Findings

| source | as written | input that shows it | evidently intended | confidence | as-written member | corrected member |
|---|---|---|---|---|---|---|
| pack/dotclaude/hooks/pre_tool_use.py:26-31 | `shlex.split(cmd)` is not guarded. When it raises, the script dies with exit code 1, which the host treats as a non-blocking error, so the tool call goes ahead | tool `Bash(rm -rf /)`, command `rm -rf / # don't`: a shell runs `rm -rf /` (the rest is a comment), but `shlex.split` raises "No closing quotation" | an `rm -rf` command that cannot be tokenised is blocked like any other unconfined one (exit 2) | medium, not executed | Guard.DecideAsWritten, Guard.UnparsableRmEscapes, Guard.UnclosedQuoteCall | Guard.Decide |
