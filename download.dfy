/**
 * One download task (`_download_model_internal` with `get_target_path`):
 * choose and create the target folder, decide between skip, pre-delete and
 * fetch, call the fetch client, and move the fetched file to its final name
 * under the rename guard. The whole task is a function of the filesystem,
 * the environment, the fixed world (platform, catalog, size records, fetch
 * client) and the task itself; its result is the new filesystem, the log
 * lines in order, the fetch requests made, and how the task ended.
 */
module Download {
  import opened Wrappers
  import opened Text
  import opened Layout
  import opened FileSystem
  import opened Resolver
  import opened Catalog
  import opened Messages

  type Env = map<string, string>

  /** One queued task, the tuple the worker unpacks. */
  datatype Task = Task(
    model: Model,
    sub: SubCategory,
    basePath: string,
    useHfTransfer: bool,
    isComfyUi: bool,
    isForge: bool,
    lowercaseFolders: bool)

  /** What the fetch client is asked to do: one file, or a snapshot of a repository. */
  datatype FetchRequest =
    | FileFetch(repoId: string, filename: string, localDir: Path, force: bool)
    | SnapshotFetch(repoId: string, localDir: Path, allowPatterns: Option<seq<string>>, force: bool)

  /** The exception classes the task tells apart. */
  datatype FetchError = HubError | FileMissingError | OsError | OtherError

  /** The fetch client returns the path it wrote, or raises. */
  datatype FetchOutcome = Wrote(path: Path) | Raised(error: FetchError)

  /** The fetch client, which may read the environment (the transfer switch). */
  type Fetcher = (FetchRequest, Env) -> FetchOutcome

  /**
   * Everything the task reads but does not change: the platform, the catalog,
   * the size records (key to "the record exists and its expected size is
   * positive"), and the fetch client.
   */
  datatype World = World(windows: bool, catalog: Structure, sizes: map<string, bool>, fetch: Fetcher)

  /** The `except` clause that handled a failure. */
  datatype FailureKind = HubKind | FileSystemKind | OsKind | UnexpectedKind

  /** How a task ended. */
  datatype Outcome =
    | MissingRepoId
    | MissingBasePath
    | TargetDirUnavailable
    | AlreadyPresent
    | InvalidConfiguration
    | Completed(fetched: Path, location: Path)
    | RenameRefused(fetched: Path)
    | Errored(kind: FailureKind)

  datatype Run = Run(fs: FS, logs: seq<Line>, fetches: seq<FetchRequest>, outcome: Outcome)

  // ---------------------------------------------------------------------------
  // get_target_path

  function TaskTable(t: Task): (r: Table)
    ensures DefaultKey in r
  {
    CurrentSubdirs(t.isComfyUi, t.isForge)
  }

  function TaskKey(t: Task): (c: KeyChoice)
    ensures c.Chosen? ==> c.key in TaskTable(t)
  {
    ChooseKey(t.model.targetDirKey, t.sub.targetDirKey, TaskTable(t))
  }

  /** The relative folder the task's key selects. */
  function TaskSubdir(t: Task): string {
    SubdirFor(TaskKey(t), TaskTable(t))
  }

  /** The resolved target folder of a task. */
  function TargetDir(fs: FS, windows: bool, t: Task): Path {
    Resolve(fs, windows, Components(t.basePath), TaskSubdir(t), t.lowercaseFolders)
  }

  function KeyWarnings(c: KeyChoice, m: Model, sub: SubCategory): (r: seq<Line>)
    ensures |r| <= 1 && (r == [] <==> c.Chosen?)
  {
    var modelName := m.name.GetOr("Unknown Model");
    var subName := sub.name.GetOr("Unknown SubCategory");
    match c
    case Chosen(_) => []
    case Unknown(key) => [KeyInvalid(key, modelName, subName)]
    case Missing => [KeyMissing(modelName, subName)]
  }

  /** The folder chosen, the filesystem after trying to create it, and the lines logged. */
  datatype Placement = Placement(fs: FS, logs: seq<Line>, target: Path)

  /**
   * `get_target_path`: choose the key, resolve its folder below the models
   * root, and create it; a failure to create it is only logged.
   */
  function GetTargetPath(fs: FS, windows: bool, t: Task): (r: Placement)
    ensures r.target == TargetDir(fs, windows, t)
    ensures r.fs == if MakeDirs(fs, r.target).Done? then MakeDirs(fs, r.target).fs else fs
    ensures IsDir(r.fs, r.target) <==> MakeDirs(fs, r.target).Done?
    ensures KeyWarnings(TaskKey(t), t.model, t.sub) <= r.logs
  {
    var target := TargetDir(fs, windows, t);
    var warnings := KeyWarnings(TaskKey(t), t.model, t.sub);
    var made := MakeDirs(fs, target);
    if made.Done? then Placement(made.fs, warnings, target)
    else Placement(fs, warnings + [CannotEnsureTarget(target)], target)
  }

  // ---------------------------------------------------------------------------
  // The conflict policy

  /** `os.path.join(target_dir, save_filename) if save_filename else None`. */
  function FinalPath(target: Path, saveFilename: string): (r: Option<Path>)
    ensures r.Some? <==> saveFilename != ""
    ensures r.Some? ==> target <= r.value && r.value[|target|..] == Components(saveFilename)
  {
    if saveFilename == "" then None else Some(target + Components(saveFilename))
  }

  /** A single-file model whose final file exists, without `allow_overwrite`. */
  predicate Conflicts(fs: FS, m: Model, final: Option<Path>) {
    !m.isSnapshot && final.Some? && Exists(fs, final.value) && !m.allowOverwrite
  }

  /** Whether the pre-delete branch removes the existing file itself. */
  predicate PreDeleteRemoves(catalog: Structure, sizes: map<string, bool>, name: string) {
    || |sizes| == 0
    || SizeKeyOf(catalog, name).None?
    || (SizeKeyOf(catalog, name).value in sizes && sizes[SizeKeyOf(catalog, name).value])
  }

  /** One logged `os.remove` attempt of the pre-delete branch. */
  function RemoveLogged(fs: FS, final: Path, reason: Line): (r: (FS, seq<Line>))
    ensures IsFile(fs, final) ==> r.0.files == fs.files - {final} && r.0.dirs.Keys == fs.dirs.Keys
    ensures !IsFile(fs, final) ==> r.0 == fs
    ensures |r.1| == 2 && r.1[0] == reason
  {
    match Remove(fs, final)
    case Done(fs2) => (fs2, [reason, RemovedForPreDelete(final)])
    case Failed(_) => (fs, [reason, CouldNotRemove(final)])
  }

  /**
   * The pre-delete branch: with no size data at all, or when no catalog model
   * carries the name, or when its size record has a positive expected size,
   * the existing file is removed; when the model is found but its record is
   * missing or zero, nothing happens here and only the forced fetch applies.
   */
  function PreDelete(fs: FS, catalog: Structure, sizes: map<string, bool>, name: string, final: Path): (r: (FS, seq<Line>))
    ensures !PreDeleteRemoves(catalog, sizes, name) ==> r == (fs, [])
    ensures PreDeleteRemoves(catalog, sizes, name) && IsFile(fs, final) ==> !IsFile(r.0, final) && r.0.files == fs.files - {final}
    ensures !IsFile(fs, final) ==> r.0 == fs
  {
    if |sizes| == 0 then RemoveLogged(fs, final, NoSizeDataAvailable(name))
    else
      match SizeKeyOf(catalog, name)
      case None => RemoveLogged(fs, final, NoSizeDataFound(name))
      case Some(key) =>
        if key in sizes && sizes[key] then RemoveLogged(fs, final, PreDeleteExisting(final))
        else (fs, [])
  }

  // ---------------------------------------------------------------------------
  // Log lines of the outcome

  /** The lines the `except` clause of each kind logs. */
  function HandlerLines(kind: FailureKind, name: string, final: Option<Path>): (r: seq<Line>)
    ensures |r| >= 1
  {
    match kind
    case HubKind => [HubFailure(name)]
    case FileSystemKind => [FileSystemFailure(name)]
    case OsKind => [OsFailure(name)]
    case UnexpectedKind => [UnexpectedFailure(name)] + (if final.Some? then [StateBeforeError(final.value)] else [])
  }

  function KindOf(e: FetchError): FailureKind {
    match e
    case HubError => HubKind
    case FileMissingError => FileSystemKind
    case OsError => OsKind
    case OtherError => UnexpectedKind
  }

  function ConfigLine(m: Model, name: string): Line {
    InvalidConfig(name, if m.filenameInRepo == "" then "filename_in_repo" else "save_filename")
  }

  /** `os.path.dirname` of a path. */
  function DirName(p: Path): (r: Path)
    ensures r <= p && (p != [] ==> r == Parent(p))
  {
    if p == [] then [] else Parent(p)
  }

  // ---------------------------------------------------------------------------
  // The rename guard

  /**
   * After a single file landed at `fetched`: keep it if it is already the
   * final path; otherwise make the final folder and rename, removing an
   * existing final file first only under overwrite or pre-delete, only if it
   * is a regular file, and otherwise refusing and leaving the file where it
   * landed.
   */
  function Finish(fs: FS, name: string, force: bool, fetched: Path, final: Path, logs: seq<Line>): (r: Run)
    ensures r.fetches == []
    ensures r.outcome.Completed? || r.outcome.RenameRefused? || r.outcome == Errored(OsKind) || r.outcome == Errored(FileSystemKind)
    ensures fetched == final ==> r.fs == fs && r.outcome == Completed(fetched, final)
    ensures r.outcome.Completed? ==> r.outcome == Completed(fetched, final)
    ensures r.outcome.RenameRefused? ==> r.outcome.fetched == fetched
  {
    if fetched == final then
      Run(fs, logs + [NoRenameNeeded, Success(name, final)], [], Completed(fetched, final))
    else
      var logs1 := logs + [Renaming(fetched, final)];
      var made := MakeDirs(fs, DirName(final));
      if made.Failed? then Run(fs, logs1 + HandlerLines(OsKind, name, Some(final)), [], Errored(OsKind))
      else GuardedRename(made.fs, name, force, fetched, final, logs1)
  }

  /** The guard in front of `os.rename`, once the final folder exists. */
  function GuardedRename(fs: FS, name: string, force: bool, fetched: Path, final: Path, logs: seq<Line>): (r: Run)
    ensures r.fetches == []
    ensures r.outcome.Completed? || r.outcome.RenameRefused? || r.outcome == Errored(OsKind) || r.outcome == Errored(FileSystemKind)
    ensures r.outcome.Completed? ==> r.outcome == Completed(fetched, final)
    ensures r.outcome.RenameRefused? <==> Exists(fs, final) && !force
    ensures r.outcome.RenameRefused? ==> r.outcome.fetched == fetched && r.fs == fs
    ensures Exists(fs, final) && !IsFile(fs, final) ==> r.fs == fs && !r.outcome.Completed?
  {
    if Exists(fs, final) && !force then
      Run(fs, logs + [Refused(final, fetched)], [], RenameRefused(fetched))
    else if Exists(fs, final) && !IsFile(fs, final) then
      Run(fs, logs + [RemovingBeforeRename(final), NotAFileWarning(final), RemoveBeforeRenameFailed(final)] + HandlerLines(OsKind, name, Some(final)), [], Errored(OsKind))
    else
      var cleared := if Exists(fs, final) then Remove(fs, final) else Done(fs);
      var logs1 := logs + (if Exists(fs, final) then [RemovingBeforeRename(final)] else []);
      RenameLogged(cleared.fs, name, fetched, final, logs1)
  }

  /** `os.rename` and its log lines. */
  function RenameLogged(fs: FS, name: string, fetched: Path, final: Path, logs: seq<Line>): (r: Run)
    ensures r.fetches == []
    ensures r.outcome.Completed? <==> Rename(fs, fetched, final).Done?
    ensures r.outcome.Completed? ==> r.outcome == Completed(fetched, final) && r.fs == Rename(fs, fetched, final).fs
    ensures !r.outcome.Completed? ==> r.fs == fs && (r.outcome == Errored(OsKind) || r.outcome == Errored(FileSystemKind))
  {
    var renamed := Rename(fs, fetched, final);
    if renamed.Done? then
      Run(renamed.fs, logs + [Renamed(final), Success(name, final)], [], Completed(fetched, final))
    else
      var kind := if renamed.error.NoSuchFile? then FileSystemKind else OsKind;
      Run(fs, logs + [RenameFailed(fetched, final), LikelyRemains(fetched)] + HandlerLines(kind, name, Some(final)), [], Errored(kind))
  }

  // ---------------------------------------------------------------------------
  // The transfer and the whole task

  /** The fetch and what follows it, once the conflict policy let the task proceed. */
  function Transfer(fs: FS, env: Env, fetch: Fetcher, m: Model, target: Path, final: Option<Path>, logs: seq<Line>): (r: Run)
    ensures |r.fetches| <= 1
    ensures r.outcome.Completed? || r.outcome.RenameRefused? || r.outcome.Errored? || r.outcome == InvalidConfiguration
    ensures r.fetches == [] <==> r.outcome == InvalidConfiguration
    ensures r.outcome.RenameRefused? ==> !m.isSnapshot
    ensures r.outcome == InvalidConfiguration <==> !m.isSnapshot && (m.filenameInRepo == "" || final.None?)
    ensures forall q :: q in r.fetches ==> q.localDir == target && q.repoId == m.repoId && (q.SnapshotFetch? <==> m.isSnapshot)
    ensures forall q :: q in r.fetches && q.FileFetch? ==> q.filename == m.filenameInRepo && q.force == (m.allowOverwrite || m.preDeleteTarget)
    ensures forall q :: q in r.fetches && q.SnapshotFetch? ==> q.allowPatterns == m.allowPatterns && q.force == m.allowOverwrite
  {
    var name := ModelName(m);
    if m.isSnapshot then
      var request := SnapshotFetch(m.repoId, target, m.allowPatterns, m.allowOverwrite);
      var logs1 := logs + [SnapshotFetching(m.repoId, target)];
      match fetch(request, env)
      case Raised(e) => Run(fs, logs1 + HandlerLines(KindOf(e), name, final), [request], Errored(KindOf(e)))
      case Wrote(p) =>
        Run(fs, logs1 + [SnapshotFetched(m.repoId, p), Success(name, p)],
          [request], Completed(p, p))
    else if m.filenameInRepo != "" && final.Some? then
      var request := FileFetch(m.repoId, m.filenameInRepo, target, m.allowOverwrite || m.preDeleteTarget);
      var logs1 := logs + [FileFetching(m.filenameInRepo, m.repoId, target)];
      match fetch(request, env)
      case Raised(e) => Run(fs, logs1 + HandlerLines(KindOf(e), name, final), [request], Errored(KindOf(e)))
      case Wrote(p) =>
        match PutFile(fs, p)
        case Failed(_) => Run(fs, logs1 + HandlerLines(OsKind, name, final), [request], Errored(OsKind))
        case Done(fs2) =>
          var finished := Finish(fs2, name, m.allowOverwrite || m.preDeleteTarget, p, final.value,
            logs1 + [FileFetched(p)]);
          finished.(fetches := [request])
    else
      Run(fs, logs + [ConfigLine(m, name)], [], InvalidConfiguration)
  }

  function SnapshotLines(fs: FS, m: Model, target: Path): seq<Line> {
    if !m.isSnapshot then []
    else if Exists(fs, target) then [SnapshotDirExists(target)]
    else [SnapshotDirCreating(target)]
  }

  /** `_download_model_internal`. */
  function DownloadModel(fs: FS, env: Env, w: World, t: Task): (r: Run)
    ensures |r.fetches| <= 1
  {
    var m := t.model;
    var name := ModelName(m);
    if m.repoId == "" then
      Run(fs, [MissingRepoIdLine(name)], [], MissingRepoId)
    else if t.basePath == "" then
      Run(fs, [MissingBasePathLine(name)], [], MissingBasePath)
    else
      var placed := GetTargetPath(fs, w.windows, t);
      var target := placed.target;
      if !IsDir(placed.fs, target) then
        Run(placed.fs, placed.logs + [TargetUnconfirmed(target, name)],
          [], TargetDirUnavailable)
      else
        var final := FinalPath(target, m.saveFilename);
        if Conflicts(placed.fs, m, final) && !m.preDeleteTarget then
          Run(placed.fs, placed.logs + [SkipExisting(final.value, name)],
            [], AlreadyPresent)
        else
          var deleted := if Conflicts(placed.fs, m, final) then PreDelete(placed.fs, w.catalog, w.sizes, name, final.value) else (placed.fs, []);
          Transfer(deleted.0, env, w.fetch, m, target, final,
            placed.logs + deleted.1 + SnapshotLines(deleted.0, m, target) + [Starting(name)])
  }

  // ---------------------------------------------------------------------------
  // Properties of one task

  /** The rename guard, on disk: where a finished single-file task leaves the file. */
  lemma FinishEffects(fs: FS, name: string, force: bool, fetched: Path, final: Path, logs: seq<Line>)
    requires IsFile(fs, fetched)
    ensures var r := Finish(fs, name, force, fetched, final, logs);
      && (r.outcome.Completed? ==> IsFile(r.fs, final) && (fetched != final ==> !IsFile(r.fs, fetched)))
      && (r.outcome.RenameRefused? ==> fetched != final && !force && IsFile(r.fs, fetched) && Exists(r.fs, final))
  {
  }

  /** Under overwrite or pre-delete, a directory at the final path is not removed: the task fails and changes nothing. */
  lemma FinishRefusesNonFile(fs: FS, name: string, fetched: Path, final: Path, logs: seq<Line>)
    requires WF(fs) && fetched != final && IsDir(fs, final)
    ensures var r := Finish(fs, name, true, fetched, final, logs);
      r.outcome == Errored(OsKind) && r.fs == fs
  {
    DirAncestors(fs, final);
    if final != [] {
      assert Parent(final) == final[..|final| - 1];
    }
  }

  /** The same two facts, one level up: after the transfer of a single file. */
  lemma TransferEffects(fs: FS, env: Env, fetch: Fetcher, m: Model, target: Path, final: Option<Path>, logs: seq<Line>)
    ensures var r := Transfer(fs, env, fetch, m, target, final, logs);
      && (r.outcome.RenameRefused? ==>
            && !m.allowOverwrite && !m.preDeleteTarget && final.Some?
            && r.outcome.fetched != final.value && IsFile(r.fs, r.outcome.fetched) && Exists(r.fs, final.value))
      && (r.outcome.Completed? && !m.isSnapshot ==>
            && final.Some? && r.outcome.location == final.value
            && IsFile(r.fs, final.value) && (r.outcome.fetched != final.value ==> !IsFile(r.fs, r.outcome.fetched)))
  {
    if !m.isSnapshot && m.filenameInRepo != "" && final.Some? {
      var request := FileFetch(m.repoId, m.filenameInRepo, target, m.allowOverwrite || m.preDeleteTarget);
      var logs1 := logs + [FileFetching(m.filenameInRepo, m.repoId, target)];
      match fetch(request, env)
      case Raised(_) =>
      case Wrote(p) =>
        if PutFile(fs, p).Done? {
          FinishEffects(PutFile(fs, p).fs, ModelName(m), m.allowOverwrite || m.preDeleteTarget, p, final.value, logs1 + [FileFetched(p)]);
        }
    }
  }

  /** The lines logged before the transfer, once the conflict policy let the task proceed. */
  function Prelude(placed: Placement, deleted: (FS, seq<Line>), m: Model): seq<Line> {
    placed.logs + deleted.1 + SnapshotLines(deleted.0, m, placed.target) + [Starting(ModelName(m))]
  }

  /** How a task that got past its early checks reaches the transfer. */
  lemma DownloadUnfold(fs: FS, env: Env, w: World, t: Task)
    requires t.model.repoId != "" && t.basePath != ""
    ensures var placed := GetTargetPath(fs, w.windows, t);
      var m := t.model;
      var final := FinalPath(placed.target, m.saveFilename);
      var deleted := if Conflicts(placed.fs, m, final) then PreDelete(placed.fs, w.catalog, w.sizes, ModelName(m), final.value) else (placed.fs, []);
      IsDir(placed.fs, placed.target) && !(Conflicts(placed.fs, m, final) && !m.preDeleteTarget) ==>
        DownloadModel(fs, env, w, t) == Transfer(deleted.0, env, w.fetch, m, placed.target, final, Prelude(placed, deleted, m))
  {
  }

  /**
   * The skip rule: a task that got past its early checks skips exactly when
   * it is a single-file model whose final file exists and neither
   * `allow_overwrite` nor `pre_delete_target` is set; a skip fetches nothing
   * and changes nothing beyond making the target folder.
   */
  lemma SkipRule(fs: FS, env: Env, w: World, t: Task)
    requires t.model.repoId != "" && t.basePath != ""
    ensures var placed := GetTargetPath(fs, w.windows, t);
      var m := t.model;
      var r := DownloadModel(fs, env, w, t);
      && (r.outcome == AlreadyPresent <==>
            && IsDir(placed.fs, placed.target) && !m.isSnapshot && m.saveFilename != ""
            && Exists(placed.fs, placed.target + Components(m.saveFilename))
            && !m.allowOverwrite && !m.preDeleteTarget)
      && (r.outcome == AlreadyPresent ==> r.fetches == [] && r.fs == placed.fs)
  {
    DownloadUnfold(fs, env, w, t);
  }

  /** Snapshots are never skipped: once the target folder exists, the snapshot fetch is made. */
  lemma SnapshotsProceed(fs: FS, env: Env, w: World, t: Task)
    requires t.model.isSnapshot && t.model.repoId != "" && t.basePath != ""
    requires IsDir(GetTargetPath(fs, w.windows, t).fs, GetTargetPath(fs, w.windows, t).target)
    ensures var r := DownloadModel(fs, env, w, t);
      && |r.fetches| == 1 && r.fetches[0].SnapshotFetch? && r.fetches[0].force == t.model.allowOverwrite
      && r.outcome != AlreadyPresent && !r.outcome.RenameRefused?
  {
    DownloadUnfold(fs, env, w, t);
    var r := DownloadModel(fs, env, w, t);
    assert r.fetches[0] in r.fetches;
  }

  /**
   * The fetch rule: the only fetch a task makes goes to its target folder;
   * a single-file fetch is forced exactly under `allow_overwrite or
   * pre_delete_target`, a snapshot fetch exactly under `allow_overwrite`.
   */
  lemma FetchRule(fs: FS, env: Env, w: World, t: Task)
    ensures var r := DownloadModel(fs, env, w, t);
      var m := t.model;
      && |r.fetches| <= 1
      && forall q :: q in r.fetches ==>
        && q.localDir == GetTargetPath(fs, w.windows, t).target && q.repoId == m.repoId
        && (q.FileFetch? ==> !m.isSnapshot && q.filename == m.filenameInRepo && q.force == (m.allowOverwrite || m.preDeleteTarget))
        && (q.SnapshotFetch? ==> m.isSnapshot && q.allowPatterns == m.allowPatterns && q.force == m.allowOverwrite)
  {
    if t.model.repoId != "" && t.basePath != "" {
      DownloadUnfold(fs, env, w, t);
    }
  }

  /**
   * The rename guard for a whole task: a refused rename happens only without
   * overwrite and pre-delete, and leaves the fetched file where it landed next
   * to the existing final path; a completed single-file task has its file at
   * the final path and no longer at the fetched one.
   */
  lemma RenameGuard(fs: FS, env: Env, w: World, t: Task)
    ensures var r := DownloadModel(fs, env, w, t);
      var m := t.model;
      var final := FinalPath(GetTargetPath(fs, w.windows, t).target, m.saveFilename);
      && (r.outcome.RenameRefused? ==>
            && !m.isSnapshot && !m.allowOverwrite && !m.preDeleteTarget && final.Some?
            && r.outcome.fetched != final.value && IsFile(r.fs, r.outcome.fetched) && Exists(r.fs, final.value))
      && (r.outcome.Completed? && !m.isSnapshot ==>
            && final.Some? && r.outcome.location == final.value
            && IsFile(r.fs, final.value) && (r.outcome.fetched != final.value ==> !IsFile(r.fs, r.outcome.fetched)))
  {
    var m := t.model;
    if m.repoId != "" && t.basePath != "" {
      DownloadUnfold(fs, env, w, t);
      var placed := GetTargetPath(fs, w.windows, t);
      var final := FinalPath(placed.target, m.saveFilename);
      var deleted := if Conflicts(placed.fs, m, final) then PreDelete(placed.fs, w.catalog, w.sizes, ModelName(m), final.value) else (placed.fs, []);
      TransferEffects(deleted.0, env, w.fetch, m, placed.target, final, Prelude(placed, deleted, m));
    }
  }

  // ---------------------------------------------------------------------------
  // Running the same task twice

  /** A completed rename changes the filesystem only below `t`, and keeps it well formed. */
  lemma FinishConfined(fs: FS, name: string, force: bool, fetched: Path, final: Path, logs: seq<Line>, t: Path)
    requires WF(fs) && t < fetched && t < final
    requires Finish(fs, name, force, fetched, final, logs).outcome.Completed?
    ensures var r := Finish(fs, name, force, fetched, final, logs);
      WF(r.fs) && Confined(fs, r.fs, t)
  {
    if fetched != final {
      var dir := DirName(final);
      var fs1 := MakeDirs(fs, dir).fs;
      assert t <= dir by {
        assert dir == final[..|final| - 1];
      }
      MakeDirsWF(fs, dir);
      MakeDirsConfined(fs, dir, t);
      var cleared := if Exists(fs1, final) then Remove(fs1, final) else Done(fs1);
      assert cleared.Done?;
      if Exists(fs1, final) {
        RemoveConfined(fs1, final, t);
      }
      RenameWF(cleared.fs, fetched, final);
      RenameConfined(cleared.fs, fetched, final, t);
      ConfinedTrans(fs, fs1, cleared.fs, t);
      ConfinedTrans(fs, cleared.fs, Rename(cleared.fs, fetched, final).fs, t);
    }
  }

  /** A completed single-file transfer changes the filesystem only below the target folder. */
  lemma TransferConfined(fs: FS, env: Env, fetch: Fetcher, m: Model, target: Path, final: Option<Path>, logs: seq<Line>)
    requires WF(fs) && !m.isSnapshot
    requires final.Some? ==> target < final.value
    requires var r := Transfer(fs, env, fetch, m, target, final, logs);
      r.outcome.Completed? && target < r.outcome.fetched
    ensures var r := Transfer(fs, env, fetch, m, target, final, logs);
      WF(r.fs) && Confined(fs, r.fs, target)
  {
    var request := FileFetch(m.repoId, m.filenameInRepo, target, m.allowOverwrite || m.preDeleteTarget);
    var logs1 := logs + [FileFetching(m.filenameInRepo, m.repoId, target)];
    var p := fetch(request, env).path;
    var written := PutFile(fs, p);
    PutFileWF(fs, p);
    PutFileConfined(fs, p, target);
    FinishConfined(written.fs, ModelName(m), m.allowOverwrite || m.preDeleteTarget, p, final.value, logs1 + [FileFetched(p)], target);
    ConfinedTrans(fs, written.fs, Transfer(fs, env, fetch, m, target, final, logs).fs, target);
  }

  /**
   * Once the target folder and the final file exist, a single-file task
   * without overwrite or pre-delete skips: it fetches nothing and changes
   * nothing.
   */
  lemma ExistingFinalSkips(fs: FS, env: Env, w: World, t: Task)
    requires t.model.repoId != "" && t.basePath != "" && t.model.saveFilename != ""
    requires !t.model.isSnapshot && !t.model.allowOverwrite && !t.model.preDeleteTarget
    requires IsDir(fs, TargetDir(fs, w.windows, t))
    requires Exists(fs, TargetDir(fs, w.windows, t) + Components(t.model.saveFilename))
    ensures var r := DownloadModel(fs, env, w, t);
      r.outcome == AlreadyPresent && r.fetches == [] && r.fs == fs
  {
    SkipRule(fs, env, w, t);
  }

  /** Making the target folder keeps the filesystem well formed and confined to the folder, and makes all of it. */
  lemma PlacementEffects(fs: FS, windows: bool, t: Task)
    requires WF(fs)
    requires IsDir(GetTargetPath(fs, windows, t).fs, GetTargetPath(fs, windows, t).target)
    ensures var placed := GetTargetPath(fs, windows, t);
      && WF(placed.fs) && Confined(fs, placed.fs, placed.target)
      && forall k :: 0 <= k <= |placed.target| ==> IsDir(placed.fs, placed.target[..k])
  {
    var target := TargetDir(fs, windows, t);
    MakeDirsWF(fs, target);
    MakeDirsAncestors(fs, target);
    MakeDirsConfined(fs, target, target);
  }

  /** A completed transfer of a single file that did not conflict leaves the final file, below the target folder. */
  lemma CompletedTransferEffects(fs: FS, env: Env, fetch: Fetcher, m: Model, target: Path, logs: seq<Line>)
    requires WF(fs) && IsDir(fs, target) && !m.isSnapshot && !m.allowOverwrite
    requires !Conflicts(fs, m, FinalPath(target, m.saveFilename))
    requires var r := Transfer(fs, env, fetch, m, target, FinalPath(target, m.saveFilename), logs);
      r.outcome.Completed? && target < r.outcome.fetched
    ensures var r := Transfer(fs, env, fetch, m, target, FinalPath(target, m.saveFilename), logs);
      && m.saveFilename != "" && WF(r.fs) && Confined(fs, r.fs, target)
      && IsFile(r.fs, target + Components(m.saveFilename))
  {
    var final := FinalPath(target, m.saveFilename);
    TransferEffects(fs, env, fetch, m, target, final, logs);
    assert final.value != target;
    TransferConfined(fs, env, fetch, m, target, final, logs);
  }

  /** A completed first run without overwrite or pre-delete went straight from the placement to the transfer. */
  lemma FirstRunReachesTransfer(fs: FS, env: Env, w: World, t: Task)
    requires !t.model.isSnapshot && !t.model.preDeleteTarget
    requires DownloadModel(fs, env, w, t).outcome.Completed?
    ensures t.model.repoId != "" && t.basePath != ""
    ensures var placed := GetTargetPath(fs, w.windows, t);
      var final := FinalPath(placed.target, t.model.saveFilename);
      && IsDir(placed.fs, placed.target) && !Conflicts(placed.fs, t.model, final)
      && DownloadModel(fs, env, w, t) == Transfer(placed.fs, env, w.fetch, t.model, placed.target, final, Prelude(placed, (placed.fs, []), t.model))
  {
    DownloadUnfold(fs, env, w, t);
  }

  /** Making the target folder and then transferring a single file into it, when the transfer completes. */
  lemma PlacedTransferEffects(fs: FS, env: Env, fetch: Fetcher, windows: bool, t: Task, logs: seq<Line>)
    requires WF(fs) && !t.model.isSnapshot && !t.model.allowOverwrite
    requires var placed := GetTargetPath(fs, windows, t);
      && IsDir(placed.fs, placed.target) && !Conflicts(placed.fs, t.model, FinalPath(placed.target, t.model.saveFilename))
    requires var placed := GetTargetPath(fs, windows, t);
      var r := Transfer(placed.fs, env, fetch, t.model, placed.target, FinalPath(placed.target, t.model.saveFilename), logs);
      r.outcome.Completed? && placed.target < r.outcome.fetched
    ensures var placed := GetTargetPath(fs, windows, t);
      var target := placed.target;
      var r := Transfer(placed.fs, env, fetch, t.model, target, FinalPath(target, t.model.saveFilename), logs);
      && t.model.saveFilename != ""
      && WF(r.fs) && Confined(fs, r.fs, target)
      && (forall k :: 0 <= k <= |target| ==> IsDir(r.fs, target[..k]))
      && IsDir(r.fs, target) && IsFile(r.fs, target + Components(t.model.saveFilename))
  {
    var placed := GetTargetPath(fs, windows, t);
    var target := placed.target;
    var r := Transfer(placed.fs, env, fetch, t.model, target, FinalPath(target, t.model.saveFilename), logs);
    PlacementEffects(fs, windows, t);
    CompletedTransferEffects(placed.fs, env, fetch, t.model, target, logs);
    ConfinedTrans(fs, placed.fs, r.fs, target);
  }

  /** A change confined to the target folder, which keeps the whole folder, does not move the target folder. */
  lemma SameTargetAfter(fs: FS, fs1: FS, windows: bool, t: Task)
    requires WF(fs) && WF(fs1)
    requires Confined(fs, fs1, TargetDir(fs, windows, t))
    requires forall k :: 0 <= k <= |TargetDir(fs, windows, t)| ==> IsDir(fs1, TargetDir(fs, windows, t)[..k])
    ensures TargetDir(fs1, windows, t) == TargetDir(fs, windows, t)
  {
    ResolveStable(fs, fs1, windows, Components(t.basePath), TaskSubdir(t), t.lowercaseFolders);
  }

  /**
   * Downloading the same single-file model twice without overwrite or
   * pre-delete fetches once: the second run resolves the same target folder
   * on the filesystem the first run left, finds the final file there, and
   * skips without another fetch and without changing anything. The fetch
   * client of the first run is assumed to write below the folder it was
   * given, as `hf_hub_download(local_dir=...)` does.
   */
  lemma DownloadTwiceSkips(fs: FS, env: Env, env2: Env, w: World, t: Task)
    requires WF(fs)
    requires !t.model.isSnapshot && !t.model.allowOverwrite && !t.model.preDeleteTarget
    requires DownloadModel(fs, env, w, t).outcome.Completed?
    requires GetTargetPath(fs, w.windows, t).target < DownloadModel(fs, env, w, t).outcome.fetched
    ensures var r1 := DownloadModel(fs, env, w, t);
      var r2 := DownloadModel(r1.fs, env2, w, t);
      r2.outcome == AlreadyPresent && r2.fetches == [] && r2.fs == r1.fs
  {
    var placed := GetTargetPath(fs, w.windows, t);
    var logs := Prelude(placed, (placed.fs, []), t.model);
    FirstRunReachesTransfer(fs, env, w, t);
    PlacedTransferEffects(fs, env, w.fetch, w.windows, t, logs);
    var r := Transfer(placed.fs, env, w.fetch, t.model, placed.target, FinalPath(placed.target, t.model.saveFilename), logs);
    SameTargetAfter(fs, r.fs, w.windows, t);
    ExistingFinalSkips(r.fs, env2, w, t);
  }
}
