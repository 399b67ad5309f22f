/**
 * The log lines, as events, and the text each one is rendered to when it
 * enters the log history: the lines of one download task, and the lines of
 * the requests that queue tasks. Where the source appends an exception's type
 * and message, the rendered line stops before it.
 */
module Messages {
  import opened Wrappers
  import opened Text
  import opened FileSystem

  datatype Line =
    // get_target_path
    | KeyInvalid(key: string, modelName: string, subName: string)
    | KeyMissing(modelName: string, subName: string)
    | CannotEnsureTarget(target: Path)
    // early returns
    | MissingRepoIdLine(name: string)
    | MissingBasePathLine(name: string)
    | TargetUnconfirmed(target: Path, name: string)
    | SkipExisting(final: Path, name: string)
    // the pre-delete branch
    | NoSizeDataAvailable(name: string)
    | NoSizeDataFound(name: string)
    | PreDeleteExisting(final: Path)
    | RemovedForPreDelete(final: Path)
    | CouldNotRemove(final: Path)
    // the transfer
    | SnapshotDirExists(target: Path)
    | SnapshotDirCreating(target: Path)
    | Starting(name: string)
    | SnapshotFetching(repoId: string, target: Path)
    | SnapshotFetched(repoId: string, location: Path)
    | FileFetching(filename: string, repoId: string, target: Path)
    | FileFetched(location: Path)
    | InvalidConfig(name: string, missingField: string)
    // the rename guard
    | NoRenameNeeded
    | Renaming(fetched: Path, final: Path)
    | Refused(final: Path, fetched: Path)
    | RemovingBeforeRename(final: Path)
    | NotAFileWarning(final: Path)
    | RemoveBeforeRenameFailed(final: Path)
    | Renamed(final: Path)
    | RenameFailed(fetched: Path, final: Path)
    | LikelyRemains(fetched: Path)
    // how the task ended
    | Success(name: string, location: Path)
    | HubFailure(name: string)
    | FileSystemFailure(name: string)
    | OsFailure(name: string)
    | UnexpectedFailure(name: string)
    | StateBeforeError(final: Path)

  /** The text of a line, as the log history stores it (without its timestamp). */
  function Render(l: Line): string {
    match l
    case KeyInvalid(key, m, s) =>
      "WARNING: Invalid 'target_dir_key' ('" + key + "') for " + m + " in " + s + ". Using default 'diffusion_models'."
    case KeyMissing(m, s) =>
      "WARNING: Missing 'target_dir_key' for " + m + " in " + s + ". Using default 'diffusion_models'."
    case CannotEnsureTarget(t) => "ERROR: Could not ensure target directory " + PathString(t) + " exists"
    case MissingRepoIdLine(n) => "ERROR: Missing 'repo_id' for model " + n + ". Skipping."
    case MissingBasePathLine(n) => "ERROR: Missing 'base_path' for model " + n + ". Skipping."
    case TargetUnconfirmed(t, n) => "ERROR: Target directory " + PathString(t) + " could not be confirmed for " + n + ". Skipping."
    case SkipExisting(f, n) =>
      "INFO: Final target file '" + PathString(f) + "' already exists and overwrite not allowed. Skipping download for '" + n + "'."
    case NoSizeDataAvailable(n) => "INFO: No size data available for pre_delete model '" + n + "'. Will proceed with redownload."
    case NoSizeDataFound(n) => "INFO: No size data found for pre_delete model '" + n + "'. Will proceed with redownload."
    case PreDeleteExisting(f) => "INFO: File '" + PathString(f) + "' exists. pre_delete is enabled, will remove and redownload."
    case RemovedForPreDelete(f) => "INFO: Removed existing file for pre_delete model: " + PathString(f)
    case CouldNotRemove(f) => "WARNING: Could not remove existing file " + PathString(f)
    case SnapshotDirExists(t) =>
      "INFO: Snapshot target directory '" + PathString(t) + "' exists. Proceeding with snapshot_download (will auto-skip existing files)."
    case SnapshotDirCreating(t) => "INFO: Creating snapshot target directory '" + PathString(t) + "' for download."
    case Starting(n) => "Starting download: " + n + "..."
    case SnapshotFetching(r, t) => " -> Downloading snapshot from " + r + " directly to " + PathString(t) + "..."
    case SnapshotFetched(r, p) => " -> Snapshot download complete for " + r + " into " + PathString(p) + "."
    case FileFetching(f, r, t) =>
      " -> Downloading file '" + f + "' from " + r + " into '" + PathString(t) + "' (preserving structure from filename)..."
    case FileFetched(p) => " -> File downloaded to actual path: " + PathString(p)
    case InvalidConfig(n, field) => "ERROR: Invalid configuration for model " + n + ". Missing '" + field + "'. Skipping."
    case NoRenameNeeded => " -> Actual download path matches desired final path. No rename needed."
    case Renaming(p, f) => " -> Renaming '" + PathString(p) + "' to '" + PathString(f) + "'..."
    case Refused(f, p) =>
      "ERROR: Final target path " + PathString(f) + " exists and overwrite not allowed. Cannot rename. Downloaded file remains at '" + PathString(p) + "'."
    case RemovingBeforeRename(f) => " -> Final target path " + PathString(f) + " exists. Removing before rename..."
    case NotAFileWarning(f) => " -> WARNING: Cannot remove final target path as it's not a file: " + PathString(f)
    case RemoveBeforeRenameFailed(f) =>
      "ERROR: Failed to remove existing file at final path '" + PathString(f) + "' before rename. Aborting rename."
    case Renamed(f) => " -> Successfully renamed to: " + PathString(f)
    case RenameFailed(p, f) => "ERROR: Failed to rename '" + PathString(p) + "' to '" + PathString(f) + "'"
    case LikelyRemains(p) => " -> The originally downloaded file likely remains at: " + PathString(p)
    case Success(n, p) => "SUCCESS: Downloaded and processed " + n + ". Final location: " + PathString(p)
    case HubFailure(n) => "ERROR downloading " + n + " (HF Hub)"
    case FileSystemFailure(n) => "ERROR during file operation for " + n + " (File System)"
    case OsFailure(n) => "ERROR during file operation (rename/delete) for " + n + " (OS Error/Permissions)"
    case UnexpectedFailure(n) => "UNEXPECTED ERROR during download/process for " + n
    case StateBeforeError(f) => " -> State before error: final_target_path='" + PathString(f) + "'"
  }

  function RenderAll(lines: seq<Line>): (r: seq<string>)
    ensures |r| == |lines|
    ensures forall i :: 0 <= i < |lines| ==> r[i] == Render(lines[i])
  {
    seq(|lines|, i requires 0 <= i < |lines| => Render(lines[i]))
  }

  /** The lines the three requests to queue log. */
  datatype Note =
    | NoBaseForDownload
    | NoBaseForBulk
    | NoBaseForBundle
    | InvalidSubForModel(typeName: string, givenName: Option<string>)
    | InvalidSubForBulk(typeName: string)
    | CheckedForDownload(status: string)
    | CheckedForBulk(status: string)
    | CheckedForBundle(bundle: string, status: string)
    | SetupFailedForDownload(basePath: string, modelName: string)
    | SetupFailedForBulk(basePath: string, group: string)
    | SetupFailedForBundle(basePath: string, bundle: string)
    | DirError(error: string)
    | QueuedOne(modelName: string)
    | QueuedMany(count: nat, group: string)
    | QueueingBundle(bundle: string)
    | LookupFailed(message: string)
    | MissingRef(modelName: string)
    | BundleDone(bundle: string, queued: nat, errors: nat)

  function Say(n: Note): string {
    match n
    case NoBaseForDownload => "ERROR: Cannot queue download, base path input is empty."
    case NoBaseForBulk => "ERROR: Cannot queue bulk download, base path input is empty."
    case NoBaseForBundle => "ERROR: Cannot queue bundle download, base path input is empty."
    case InvalidSubForModel(t, m) =>
      "ERROR: Invalid sub_category_info type (" + t + ") for model " + m.GetOr("None") + ". Skipping queue."
    case InvalidSubForBulk(t) => "ERROR: Invalid sub_category_info type (" + t + ") for bulk download. Skipping queue."
    case CheckedForDownload(st) => "Directory check for download: " + st
    case CheckedForBulk(st) => "Directory check for bulk download: " + st
    case CheckedForBundle(b, st) => "Directory check for bundle '" + b + "': " + st
    case SetupFailedForDownload(base, m) =>
      "ERROR: Directory setup failed for '" + base + "'. Download of '" + m + "' aborted."
    case SetupFailedForBulk(base, g) =>
      "ERROR: Directory setup failed for '" + base + "'. Bulk download from '" + g + "' aborted."
    case SetupFailedForBundle(base, b) =>
      "ERROR: Directory setup failed for '" + base + "'. Bundle download '" + b + "' aborted."
    case DirError(e) => "  - " + e
    case QueuedOne(m) => "Queued: " + m
    case QueuedMany(c, g) => "Queued " + NatToString(c) + " models from '" + g + "'."
    case QueueingBundle(b) => "Queueing bundle: '" + b + "'..."
    case LookupFailed(msg) => msg
    case MissingRef(m) => "  -> ERROR: Could not find model '" + m + "' for bundle. Skipping."
    case BundleDone(b, q, e) => "Bundle '" + b + "' processed. Queued: " + NatToString(q) + ", Errors: " + NatToString(e) + "."
  }

  /** An entry of the log history: a line of a request to queue, or a line of a download task. */
  datatype Entry = FromRequest(note: Note) | FromTask(line: Line)

  /** The text of an entry, without its timestamp. */
  function EntryText(e: Entry): string {
    match e
    case FromRequest(n) => Say(n)
    case FromTask(l) => Render(l)
  }
}
