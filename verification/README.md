# Watched-folder backup: a Dafny model of its decision logic

The backup script watches a local directory tree. When a file's content
changes, it does three things in order:

1. saves a timestamped copy in a flat version directory;
2. uploads the file to a remote store (Google Drive), mirroring the file's
   directories as remote folders;
3. sends a notification.

This project models the sequential decisions behind that, with every
filesystem, network, mail and clock call replaced by data:

- **Change detection** (`BackupHandler.process_file`, `on_modified`). A hash
  store maps each path to its last digest. An unchanged digest is a no-op. A
  changed or new digest updates the store and emits a version, an upload and
  a notification (module `Backup`).
- **The initial pass** (`BackupManager.backup_existing_files`), modelled as a
  fold of the same step over the walked paths (module `Backup`).
- **Remote folder resolution** (`Uploader.get_or_create_folder`,
  `get_drive_path_id`). A cache keyed by (name, parent) sits in front of a
  title query against the remote store, and a folder is created when the
  query finds nothing. A relative path's directories are resolved one after
  the other, each under the previous result (module `Folders`).
- **The upload decision** (`Uploader.upload_file`). The first live
  same-titled entry under the resolved folder is updated in place; if there
  is none, exactly one entry is created (module `Upload`).
- **Version naming** (`VersionManager.save_version`). A version is named
  basename, `_`, then the `strftime('%Y%m%d_%H%M%S')` clock reading
  (modules `Versions` and `Timestamps`).

How the model represents the outside world:

- The remote store is a sequence of entries in listing order (module
  `Drive`), and ids come from a counter.
- The file digest is a function parameter `digest: Bytes -> Digest`, so MD5
  itself is not modelled.
- The local filesystem is a map from path to bytes.
- Clock readings are inputs.
- Paths are POSIX strings with `/` as the separator (module `Paths`).

The root-level query quirk is modelled as written. When the parent id is
`None`, the script's query carries no parent filter. The `Drive.RootQuery`
parameter chooses between the script's behaviour (`Unfiltered`) and the
evidently intended one (`RootOnly`), and every operation takes it, so both
can be stated. See "Findings".

Exceptions are not caught: an unreadable file ends `process_file` with an
error, and in the initial pass ends the pass (`Backup.BackupExisting` stops
at the first `Err`).

## Model

| member | source | states |
|---|---|---|
| Backup.ProcessFile | main.py:126-134 | An unchanged digest returns the state untouched with no effects. A changed or new digest stores the new digest, saves the version, uploads, and emits exactly [version saved, file uploaded, notified "Backup: rel"] in that order. Other paths' digests are unchanged. The path is synced afterwards. The call fails exactly when the path is outside the root or the file is unreadable, with that error. |
| Backup.ProcessTwice | main.py:128-130 | Processing a path again without a content change returns the same state and no effects. |
| Backup.OnEvent | main.py:136-138 | Only a modification event for a non-directory runs `process_file`. Directory events and other event kinds change nothing. |
| Backup.BackupExisting | main.py:151-156 | If the pass ends without error, every walked path is synced afterwards. The digest store gains only walked paths, and the digests of paths outside the pass are kept. At most three effects are emitted per file. Cached folder keys are never lost or re-bound, and remote ids stay unique. |
| Backup.BackupExistingSnoc | main.py:153-156 | The pass over `paths + [p]` is the pass over `paths` followed by one more `process_file` step on `p`, which is skipped once an error has occurred. |
| Backup.ReadablePassSucceeds | main.py:151-156 | From any state, a pass over files that are all readable and below the root ends without error. |
| Backup.PassStopsAtFirstError | main.py:153-156 | A pass that ends in an error stopped at some file `k`: its state and effects are exactly those of the error-free pass over the files before `k`, and `process_file` on file `k` in that state fails with that error. |
| Backup.BackupExistingIsFold | main.py:153-156 | The pass is the left fold of the `process_file` step over the walked paths. |
| Backup.PassOverSyncedIsNoop | main.py:151-156 | A pass over already-synced files emits nothing and changes nothing. |
| Backup.PassIdempotent | main.py:151-156 | Re-running a completed pass over unchanged files emits no effect and leaves the state as it was. |
| Backup.FreshPassBacksUpAll | main.py:151-156 | A first pass over distinct readable files below the root ends without error. Effects `3i..3i+3` belong to file `i`: its version `basename_<timestamp>` is saved, it is uploaded under its relative path, and "Backup: rel" is sent. |
| Backup.FreshStep | main.py:126-134 | A file not yet in the digest store is processed without error, emits its version, upload and notification, and the digest store gains exactly that path. |
| Backup.ProcessFileKeepsInv | main.py:126-134 | Processing keeps remote ids unique. It also keeps every cached folder id naming a live folder its key could have found. |
| Backup.BackupExistingKeepsInv | main.py:151-156 | The whole initial pass keeps the same invariant. |
| Backup.FirstBackupOfNestedFile | main.py:126-134 | On an empty store, the first backup of `dir/name` saves version `name_<timestamp>`, creates folder `dir` at the root, creates file `name` inside it, and notifies once. |
| Backup.ChangedFileIsUpdated | main.py:126-134 | Changing an already backed-up `dir/name` saves one new version and updates the existing remote entry in place. No folder and no entry is created. |
| Folders.GetOrCreateFolder | main.py:44-67 | A cache hit returns the cached id and leaves the store untouched. A miss returns the first live matching folder, or otherwise appends exactly one new folder with that title and parent. In every case the cache then maps (name, parent) to the returned id, and no key is lost or re-bound. |
| Folders.GetOrCreateFolderTwice | main.py:45-47 | A second call with the same key changes nothing and returns the same id. |
| Folders.GetOrCreateFolderSound | main.py:53-66 | Each cached id names a live folder that its key's query could have returned. |
| Folders.ResolveParts | main.py:71-74 | There is one `get_or_create_folder` call per part, in order, named by that part. The first call runs under the start folder and each later one under the previous call's result. The last result is returned, or the start folder when there are no parts. Every call's key ends up cached with the call's result. Cached keys are never lost or re-bound, and store entries are only appended. |
| Folders.ResolvePartsThreaded | main.py:71-74 | Each recorded call's result is what `get_or_create_folder` returns on the cache and store left by the previous call (the first call sees the starting ones). The final cache and store are those left by the last call. |
| Folders.ResolvePath | main.py:69-74 | A path without a separator resolves to the root with no call and changes nothing. Otherwise there is one call per directory component of the path, each under the previous result, and the result is the last folder. |
| Folders.ResolveReusesExisting | main.py:45-55 | When every folder on the chain already exists, and the cache agrees with the store, resolution creates nothing. It returns the folder that chain-walking the store's first matches finds, and the cache still agrees. |
| Folders.ResolvePathReusesExisting | main.py:69-74 | Starting from an empty cache, a path whose folders all exist resolves without changing the store, to the folder at the end of the existing chain. |
| Folders.ResolvedIsCovered | main.py:66 | After a resolution, the cache holds the whole chain of keys of the path. |
| Folders.CoveredIsCacheHit | main.py:45-47 | Resolving a fully cached chain touches neither the cache nor the store. |
| Folders.ResolvePathTwice | main.py:69-74 | Resolving the same path twice creates no folder the second time and yields the same folder. |
| Folders.ResolvePartsSound | main.py:69-74 | Resolution keeps the folder cache sound. |
| Folders.ResolvedFoldersAreChildren | main.py:49-53 | With root lookups restricted to the root, every folder on a resolved path is a live folder of that name directly inside the previous one. |
| Folders.RootLookupEscapes | main.py:49-53 | As written, with a folder `d` inside folder `a`, the top-level directory of `d/f` resolves to the nested `a/d`. |
| Upload.WriteFile | main.py:79-96 | If a live same-titled entry exists under the folder, only the first such entry gets the new content and nothing is created. Otherwise exactly one new file entry with that title and parent is appended. Ids stay unique and a created id is fresh. |
| Upload.UploadFile | main.py:76-96 | The folder is resolved from the relative path and the file is written there under its basename. Entries not updated keep their values. At most one entry per directory plus one file entry is added. |
| Upload.UploadTwice | main.py:76-96 | Uploading the same bytes again changes neither the store nor the cache. The second upload is an update, not a create. |
| Upload.UploadKeepsCacheSound | main.py:76-96 | An upload keeps the folder cache sound. |
| Upload.ScopedUploadStaysInFolder | main.py:79-84 | With root lookups restricted to the root, an update only rewrites an entry that sits directly in the resolved folder. |
| Upload.RootUploadOverwritesNested | main.py:79-84 | As written, uploading root-level `f` while folder `d` holds an `f` overwrites `d/f` and creates nothing at the root. |
| Versions.ParseVersionNameOf | main.py:30-32 | A version name splits back into the file's basename and the clock reading. |
| Versions.VersionNameOfParse | main.py:30-32 | Every name that parses is basename, `_`, then the rendered timestamp. |
| Versions.VersionNameIgnoresDirectory | main.py:30 | The name depends on the basename only, not on the directory. |
| Versions.VersionNameInjective | main.py:30-32 | Two version names are equal exactly when both basenames and both seconds are equal. |
| Versions.VersionNamesSortByTime | main.py:31-32 | Versions of one file sort lexicographically in chronological order. |
| Versions.SaveVersion | main.py:32-33 | The copy is recorded under its version name and every other version is kept. |
| Versions.SameSecondOverwrites | main.py:32-33 | Two same-named files saved in one second leave only the later copy. |
| Versions.DifferentSecondsKeepBoth | main.py:32-33 | Saves in different seconds keep both copies. |
| Timestamps.Render | main.py:31 | The rendering has 15 characters: 8 digits, `_`, then 6 digits. |
| Timestamps.ParseRender | main.py:31 | Parsing a rendered timestamp gives back the clock reading. |
| Timestamps.RenderParse | main.py:31 | Every string that parses is the rendering of what it parses to. |
| Timestamps.RenderOrder | main.py:31 | An earlier clock reading renders to a lexicographically smaller string, and conversely. |
| Paths.Split | main.py:70 | `split(os.sep)` yields one piece more than there are separators, and no piece contains one. |
| Paths.JoinSplit | main.py:70 | Re-joining the pieces of a split gives back the string. |
| Paths.SplitJoin | main.py:70 | Splitting a join of separator-free pieces gives back the pieces. |
| Paths.DirParts | main.py:70 | A path has as many directory components as separators, and none when it contains no separator. Joining the components and the basename with the separator gives back the path. |
| Paths.BasenameIsLongestPlainSuffix | main.py:30 | `basename` is the separator-free tail of the path, preceded by a separator unless it is the whole path. |
| Paths.BasenameIsLastPiece | main.py:30 | `basename` is the last piece of `split(os.sep)`. |
| Paths.RelPath | main.py:127 | `relpath` is defined exactly for paths of the form root (trailing separators dropped), separator, rest, and returns the rest. |
| Paths.TrailingSeparatorIgnored | main.py:127 | A root with a trailing separator gives the same relative paths as the root without it. |
| Paths.RelPathOfJoin | main.py:127 | Taking the root off a path joined to it gives back the relative path. |
| Paths.BasenameOfRelPath | main.py:127 | A file's basename is the same whether read from its full path or from its relative path. |
| Drive.FirstMatch | main.py:53-55 | The listing's first element is the lowest-positioned matching entry. The listing is empty exactly when no entry matches. |
| Drive.FirstMatchIs | main.py:53-55 | A matching entry with no matching entry before it is the listing's first element. |
| Drive.RootQueryModes | main.py:49-51 | With a parent id, the script's query and the root-only reading match the same entries: the live ones with the title (a folder, when folders are asked for) whose parent is that id. Without one, the script's query matches every live entry with the title (a folder, when folders are asked for) wherever it sits, and the root-only reading matches exactly those of them that have no parent. |
| Upload.FileQueryMatches | main.py:79-81 | The file query matches exactly the live entries with the file's title in the query's scope: under the folder when there is one, and (as written) anywhere when there is none. |
| Drive.FirstMatchAppend | main.py:53-55 | Entries appended after the first match do not move it. |
| Drive.Create | main.py:57-63 | Creating appends one live entry with the given title and parent and a fresh id, and keeps all earlier entries. |
| Drive.UpdateContent | main.py:86-87 | An update changes only the chosen entry's content. |

## Left out

- Notification delivery (the `Notifier`, main.py:99-115) is not modelled. Only the `Notified("Backup: rel")` effect is emitted, so SMTP, credentials and failures are out of scope.
- Drive authentication and the client (main.py:38-41) are not modelled. The remote store is a sequence of entries, and remote calls never fail.
- `compute_hash` (main.py:16-21) is not modelled as MD5. The digest is an uninterpreted function of the bytes, and file reads are a map lookup.
- `shutil.copy` and `os.makedirs` are not modelled. The version directory is a map from name to bytes.
- `datetime.now()` is not modelled. Clock readings are inputs, and years are limited to 1000..9999 so that `%Y` gives four digits.
- `os.walk` is not modelled. The initial pass takes the walked file paths, in walk order, as an input.
- Paths.RelPath: `os.path.relpath` is modelled only for paths strictly below the root. Trailing separators of the root are dropped. `.`, `..` and repeated separators inside either path are not normalised. Any other path is an `OutsideRoot` error.
- Paths.RelPath: the root followed by a separator yields the empty relative path, where `relpath` gives `.`. Such a path is the root directory itself, never a walked or modified file.
- Paths use the POSIX separator `/` only.
- Backup.ProcessFile: the version copy, the upload and the notification cannot fail. In the script the digest is stored (main.py:131) before those three stages (main.py:132-134), and each can raise. After such a failure the same content is a no-op (main.py:129-130), so that change is never versioned, uploaded or notified. The model does not show this loss, and it does not promise anything about the order of the digest update relative to the stages.
- The file is read once per change. The bytes hashed, copied and uploaded are the same snapshot, so a file changing mid-pipeline is not modelled.
- A remote entry has at most one parent, the only shape the script creates. Drive's multi-parent entries are not modelled.
- Drive's quoting of titles containing `'` is not modelled. A title matches exactly.
- The Drive listing order is modelled as store order: the script's `[0]` is the first matching entry in the sequence.
- The configuration JSON, the `BackupManager` wiring, `PollingObserver`, `ThreadPoolExecutor` and the sleep loop (main.py:141-149 and 158-171) are not modelled. They are bootstrap code and concurrency, and the model is single-threaded.
- Created, deleted and moved events do nothing, because only `on_modified` is overridden.
- Console messages are not modelled.
- `ma.py` is not part of this model. It is an earlier variant with no change-detection or folder logic.
- Versions.VersionName: its own contract states only the name's length. The full round trip is `Versions.ParseVersionNameOf`.

## Findings

| source | as written | input that shows it | evidently intended | confidence | as-written member | corrected member |
|---|---|---|---|---|---|---|
| main.py:49-53 | With `parent_id` None, the folder query has no parent filter, so a top-level directory lookup returns any same-titled folder in the store. | Store has folder `a` at the root and folder `d` inside `a`. Then `d/f` resolves its directory `d` to the nested `a/d`. | A top-level directory resolves to a folder at the root (`'root' in parents`). | not executed | Folders.RootLookupEscapes | Folders.ResolvedFoldersAreChildren |
| main.py:79-84 | With `parent_id` None, the file query has no parent filter, so a root-level file matches a same-titled file anywhere. | Store has folder `d` holding file `f`. Uploading root-level `f` overwrites `d/f` and creates nothing at the root. | A root-level file is looked up at the root only. | not executed | Upload.RootUploadOverwritesNested | Upload.ScopedUploadStaysInFolder |
