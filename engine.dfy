/**
 * The download engine around the placement logic: the bounded log history,
 * the three ways of queueing downloads (one model, every model of a
 * sub-category, a bundle of references), each of which first makes sure the
 * folder tree exists, and the worker that takes tasks off the queue one at a
 * time with the transfer-acceleration variable set for the task and restored
 * afterwards.
 */
module Engine {
  import opened Wrappers
  import opened Text
  import opened FileSystem
  import opened Catalog
  import opened EnsureDirs
  import opened EventLog
  import opened Messages
  import opened Download
  import opened SeqFacts

  /** The environment variable the worker sets around each task. */
  const HfTransferVar: string := "HF_HUB_ENABLE_HF_TRANSFER"

  /** The settings the interface passes along with every request to queue. */
  datatype Settings = Settings(
    basePath: string,
    useHfTransfer: bool,
    isComfyUi: bool,
    isForge: bool,
    lowercaseFolders: bool)

  /** The sub-category argument: a dictionary, or a value of some other type, by the text Python shows for that type. */
  datatype SubArg = Dict(sub: SubCategory) | NotADict(typeName: string)

  /** The tuple put on the queue. */
  function TaskOf(m: Model, sub: SubCategory, s: Settings): Task {
    Task(m, sub, s.basePath, s.useHfTransfer, s.isComfyUi, s.isForge, s.lowercaseFolders)
  }

  /**
   * A folder check, as a function of the filesystem: the filesystem after it,
   * its status line and its error lines. The requests to queue are specified
   * for any check; the engine runs `ensure_directories_exist`, `CheckOf`.
   */
  type Check = FS -> CheckResult

  type CheckResult = (FS, string, seq<string>)

  /** `ensure_directories_exist` with the settings of a request. */
  ghost function CheckOf(windows: bool, s: Settings): Check {
    fs => EnsureResult(fs, windows, s.basePath, s.isComfyUi, s.isForge, s.lowercaseFolders)
  }

  lemma CheckRuns(windows: bool, s: Settings, fs: FS)
    ensures CheckOf(windows, s)(fs) == EnsureResult(fs, windows, s.basePath, s.isComfyUi, s.isForge, s.lowercaseFolders)
  {
  }

  // Each request, past its argument checks, is its continuation after the folder check.

  lemma EnqueueAfterCheck(fs: FS, check: Check, m: Model, sub: SubArg, s: Settings)
    requires s.basePath != "" && sub.Dict?
    ensures EnqueueEffect(fs, check, m, sub, s) == DownloadAfterCheck(check(fs), m, sub.sub, s)
  {
  }

  lemma BulkAfterCheckIs(fs: FS, check: Check, models: seq<Model>, sub: SubArg, s: Settings)
    requires s.basePath != "" && sub.Dict?
    ensures BulkEffect(fs, check, models, sub, s) == BulkAfterCheck(check(fs), models, sub.sub, s)
  {
  }

  lemma BundleAfterCheckIs(fs: FS, check: Check, catalog: Structure, b: Bundle, s: Settings)
    requires s.basePath != ""
    ensures BundleEffect(fs, check, catalog, b, s) == BundleAfterCheck(check(fs), check, catalog, b, s)
  {
  }

  /** What every request to queue returns. */
  function QueueStatus(size: nat): string {
    "Queue Size: " + NatToString(size)
  }


  /** `sub_category_info.get("name", "Group")`. */
  function GroupName(sub: SubCategory): string {
    sub.name.GetOr("Group")
  }

  /** `bundle_definition.get("name", "Unnamed Bundle")`. */
  function BundleName(b: Bundle): string {
    b.name.GetOr("Unnamed Bundle")
  }

  // ---------------------------------------------------------------------------
  // What a request to queue does

  /** The filesystem after a request, the entries it logged and the tasks it queued. */
  datatype Effect = Effect(fs: FS, lines: seq<Entry>, queued: seq<Task>)

  /** The entries of the folder check's errors. */
  function ErrorEntries(errors: seq<string>): (r: seq<Entry>)
    ensures |r| == |errors|
    ensures forall i :: 0 <= i < |errors| ==> r[i] == FromRequest(DirError(errors[i]))
  {
    seq(|errors|, i requires 0 <= i < |errors| => FromRequest(DirError(errors[i])))
  }

  /** `enqueue_download`. */
  ghost function EnqueueEffect(fs: FS, check: Check, m: Model, sub: SubArg, s: Settings): (r: Effect)
    ensures |r.lines| >= 1
    ensures |r.queued| <= 1
    ensures s.basePath == "" || sub.NotADict? ==> r.fs == fs && r.queued == [] && |r.lines| == 1
    ensures s.basePath != "" && sub.Dict? ==> r.fs == check(fs).0 && (r.queued != [] <==> check(fs).2 == [])
  {
    if s.basePath == "" then
      Effect(fs, [FromRequest(NoBaseForDownload)], [])
    else if sub.NotADict? then
      Effect(fs, [FromRequest(InvalidSubForModel(sub.typeName, m.name))], [])
    else
      DownloadAfterCheck(check(fs), m, sub.sub, s)
  }

  /** The rest of `enqueue_download`, once the folder check has run with outcome `c`. */
  function DownloadAfterCheck(c: CheckResult, m: Model, sub: SubCategory, s: Settings): (r: Effect)
    ensures |r.lines| >= 1
    ensures |r.queued| <= 1
    ensures r.fs == c.0 && r.lines[0] == FromRequest(CheckedForDownload(c.1))
    ensures c.2 == [] ==> r.queued == [TaskOf(m, sub, s)] && |r.lines| == 2
    ensures c.2 != [] ==> r.queued == [] && |r.lines| == 2 + |c.2| && r.lines[2..] == ErrorEntries(c.2)
  {
    var checked := FromRequest(CheckedForDownload(c.1));
    if c.2 != [] then
      Effect(c.0, [checked, FromRequest(SetupFailedForDownload(s.basePath, ModelName(m)))] + ErrorEntries(c.2), [])
    else
      Effect(c.0, [checked, FromRequest(QueuedOne(ModelName(m)))], [TaskOf(m, sub, s)])
  }

  /**
   * A model is queued exactly when the base path is given, the sub-category
   * is a dictionary and the folder check reports no error; it is queued once,
   * with the settings of the request, and the request ends by saying so.
   */
  lemma EnqueueQueuesIffCheckPasses(fs: FS, check: Check, m: Model, sub: SubArg, s: Settings)
    ensures var r := EnqueueEffect(fs, check, m, sub, s);
      && (r.queued != [] <==> s.basePath != "" && sub.Dict? && check(fs).2 == [])
      && (r.queued != [] ==> r.queued == [TaskOf(m, sub.sub, s)] && Last(r.lines) == FromRequest(QueuedOne(ModelName(m))))
  {
  }

  /** A request rejected for its arguments leaves the disk alone and logs one error. */
  lemma EnqueueRejectsBeforeTouchingDisk(fs: FS, check: Check, m: Model, sub: SubArg, s: Settings)
    requires s.basePath == "" || sub.NotADict?
    ensures var r := EnqueueEffect(fs, check, m, sub, s);
      r.fs == fs && r.queued == [] && |r.lines| == 1
  {
  }

  /** The tasks of a bulk request, in the order of the list. */
  function BulkTasks(models: seq<Model>, sub: SubCategory, s: Settings): (r: seq<Task>)
    ensures |r| == |models|
    ensures forall i :: 0 <= i < |models| ==> r[i] == TaskOf(models[i], sub, s)
  {
    seq(|models|, i requires 0 <= i < |models| => TaskOf(models[i], sub, s))
  }

  /** `enqueue_bulk_download`. */
  ghost function BulkEffect(fs: FS, check: Check, models: seq<Model>, sub: SubArg, s: Settings): (r: Effect)
    ensures |r.lines| >= 1
    ensures s.basePath == "" || sub.NotADict? ==> r.fs == fs && r.queued == [] && |r.lines| == 1
    ensures s.basePath != "" && sub.Dict? ==> r.fs == check(fs).0
  {
    if s.basePath == "" then
      Effect(fs, [FromRequest(NoBaseForBulk)], [])
    else if sub.NotADict? then
      Effect(fs, [FromRequest(InvalidSubForBulk(sub.typeName))], [])
    else
      BulkAfterCheck(check(fs), models, sub.sub, s)
  }

  /** The rest of `enqueue_bulk_download`, once the folder check has run with outcome `c`. */
  function BulkAfterCheck(c: CheckResult, models: seq<Model>, sub: SubCategory, s: Settings): (r: Effect)
    ensures |r.lines| >= 1
    ensures r.fs == c.0 && r.lines[0] == FromRequest(CheckedForBulk(c.1))
    ensures c.2 == [] ==> r.queued == BulkTasks(models, sub, s) && |r.lines| == 2
    ensures c.2 != [] ==> r.queued == [] && |r.lines| == 2 + |c.2| && r.lines[2..] == ErrorEntries(c.2)
  {
    var checked := FromRequest(CheckedForBulk(c.1));
    if c.2 != [] then
      Effect(c.0, [checked, FromRequest(SetupFailedForBulk(s.basePath, GroupName(sub)))] + ErrorEntries(c.2), [])
    else
      Effect(c.0, [checked, FromRequest(QueuedMany(|models|, GroupName(sub)))], BulkTasks(models, sub, s))
  }

  /**
   * A bulk request queues all the models of the list, in order, or none of
   * them; when it queues them it reports how many, which is the length of
   * the list.
   */
  lemma BulkQueuesAllOrNone(fs: FS, check: Check, models: seq<Model>, sub: SubArg, s: Settings)
    ensures var r := BulkEffect(fs, check, models, sub, s);
      if s.basePath != "" && sub.Dict? && check(fs).2 == [] then
        && r.queued == BulkTasks(models, sub.sub, s)
        && (forall i :: 0 <= i < |models| ==> r.queued[i].model == models[i])
        && Last(r.lines) == FromRequest(QueuedMany(|models|, GroupName(sub.sub)))
      else
        r.queued == []
  {
  }

  /** Where the loop over a bundle's references stands. */
  datatype BundleState = BundleState(fs: FS, lines: seq<Entry>, queued: seq<Task>, found: nat, missing: nat)

  /**
   * The loop of `enqueue_bundle_download` over `refs`: a reference that is
   * found is queued as a single download, with its own folder check; one that
   * is not found is logged and counted as an error.
   */
  ghost function BundleLoop(fs: FS, check: Check, catalog: Structure, refs: seq<ModelRef>, s: Settings): (r: BundleState)
    ensures r.missing == MissingCount(catalog, refs)
    ensures r.found + r.missing == |refs|
    ensures |r.queued| <= r.found
    decreases |refs|
  {
    if refs == [] then BundleState(fs, [], [], 0, 0)
    else BundleStep(BundleLoop(fs, check, catalog, refs[..|refs| - 1], s), check, FindModel(catalog, refs[|refs| - 1]), refs[|refs| - 1], s)
  }

  /** The loop over a prefix one reference longer: one more step. */
  lemma BundleLoopExtends(fs: FS, check: Check, catalog: Structure, refs: seq<ModelRef>, i: nat, s: Settings)
    requires i < |refs|
    ensures BundleLoop(fs, check, catalog, refs[..i + 1], s)
      == BundleStep(BundleLoop(fs, check, catalog, refs[..i], s), check, FindModel(catalog, refs[i]), refs[i], s)
  {
    assert refs[..i + 1][..i] == refs[..i];
  }

  /** The tasks of the references the catalog holds, in the order the bundle declares them. */
  function ResolvedTasks(catalog: Structure, refs: seq<ModelRef>, s: Settings): (r: seq<Task>)
    ensures |r| == |refs| - MissingCount(catalog, refs)
    decreases |refs|
  {
    if refs == [] then []
    else
      var rest := ResolvedTasks(catalog, refs[..|refs| - 1], s);
      match FindModel(catalog, refs[|refs| - 1])
      case Found(m, sub) => rest + [TaskOf(m, sub, s)]
      case NotFound(_) => rest
  }

  /** The engine's folder check, once passing on a well-formed tree, passes again on the tree it leaves. */
  lemma CheckPassesAgain(fs: FS, windows: bool, s: Settings)
    requires WF(fs) && CheckOf(windows, s)(fs).2 == []
    ensures var fs2 := CheckOf(windows, s)(fs).0;
      WF(fs2) && CheckOf(windows, s)(fs2).2 == []
  {
    CheckRuns(windows, s, fs);
    EnsurePassesAgain(fs, windows, s.basePath, s.isComfyUi, s.isForge, s.lowercaseFolders);
    CheckRuns(windows, s, CheckOf(windows, s)(fs).0);
  }

  /**
   * A single download queued after a passing folder check, with the engine's
   * folder check on a well-formed filesystem, leaves a well-formed filesystem
   * on which the check passes again, and queues its task.
   */
  lemma DownloadKeepsPassing(fs: FS, windows: bool, m: Model, sub: SubCategory, s: Settings)
    requires WF(fs) && CheckOf(windows, s)(fs).2 == []
    ensures var e := EnqueueEffect(fs, CheckOf(windows, s), m, Dict(sub), s);
      && WF(e.fs) && CheckOf(windows, s)(e.fs).2 == []
      && e.queued == [TaskOf(m, sub, s)]
  {
    CheckRuns(windows, s, fs);
    CheckPassesAgain(fs, windows, s);
    EnqueueAfterCheck(fs, CheckOf(windows, s), m, Dict(sub), s);
  }

  /**
   * With the engine's folder check on a well-formed filesystem, once a check
   * passes every later one passes too: each reference the catalog holds is
   * queued by its own passing check, so the loop queues exactly the
   * references the catalog resolves, each once, in declared order.
   */
  lemma {:induction false} BundleLoopKeepsPassing(fs: FS, windows: bool, catalog: Structure, refs: seq<ModelRef>, s: Settings)
    requires WF(fs) && CheckOf(windows, s)(fs).2 == []
    ensures var st := BundleLoop(fs, CheckOf(windows, s), catalog, refs, s);
      && WF(st.fs) && CheckOf(windows, s)(st.fs).2 == []
      && st.queued == ResolvedTasks(catalog, refs, s)
    decreases |refs|
  {
    if refs != [] {
      var init := refs[..|refs| - 1];
      BundleLoopKeepsPassing(fs, windows, catalog, init, s);
      var prev := BundleLoop(fs, CheckOf(windows, s), catalog, init, s);
      var found := FindModel(catalog, refs[|refs| - 1]);
      if found.Found? {
        DownloadKeepsPassing(prev.fs, windows, found.model, found.sub, s);
      }
    }
  }

  /**
   * When the bundle's own folder check passes on a well-formed filesystem, the
   * bundle queues exactly the tasks of the references the catalog resolves,
   * each once, in the order the bundle declares them.
   */
  lemma BundleQueuesResolvedInOrder(fs: FS, windows: bool, catalog: Structure, b: Bundle, s: Settings)
    requires WF(fs) && CheckOf(windows, s)(fs).2 == []
    ensures BundleEffect(fs, CheckOf(windows, s), catalog, b, s).queued == ResolvedTasks(catalog, b.models, s)
  {
    CheckRuns(windows, s, fs);
    CheckPassesAgain(fs, windows, s);
    BundleLoopKeepsPassing(CheckOf(windows, s)(fs).0, windows, catalog, b.models, s);
  }

  /** One reference of the loop, given what `find_model_by_key` returned for it. */
  ghost function BundleStep(prev: BundleState, check: Check, found: Lookup, ref: ModelRef, s: Settings): (r: BundleState)
    ensures found.Found? ==> r.found == prev.found + 1 && r.missing == prev.missing && |r.queued| <= |prev.queued| + 1
    ensures found.NotFound? ==> r.found == prev.found && r.missing == prev.missing + 1 && r.queued == prev.queued
  {
    match found
    case Found(m, sub) =>
      var e := EnqueueEffect(prev.fs, check, m, Dict(sub), s);
      BundleState(e.fs, prev.lines + e.lines, prev.queued + e.queued, prev.found + 1, prev.missing)
    case NotFound(message) =>
      BundleState(prev.fs, prev.lines + [FromRequest(LookupFailed(message)), FromRequest(MissingRef(ref.model))],
        prev.queued, prev.found, prev.missing + 1)
  }

  /** How many of `refs` the catalog does not hold. */
  function MissingCount(catalog: Structure, refs: seq<ModelRef>): (r: nat)
    ensures r <= |refs|
    decreases |refs|
  {
    if refs == [] then 0
    else MissingCount(catalog, refs[..|refs| - 1]) + (if FindModel(catalog, refs[|refs| - 1]).Found? then 0 else 1)
  }

  /** No reference is missing when the catalog holds every one. */
  lemma {:induction false} AllFoundNoneMissing(catalog: Structure, refs: seq<ModelRef>)
    requires forall i :: 0 <= i < |refs| ==> FindModel(catalog, refs[i]).Found?
    ensures MissingCount(catalog, refs) == 0
    decreases |refs|
  {
    if refs != [] {
      var init := refs[..|refs| - 1];
      assert forall i :: 0 <= i < |init| ==> init[i] == refs[i];
      AllFoundNoneMissing(catalog, init);
    }
  }

  /** A reference the catalog does not hold is counted. */
  lemma {:induction false} MissingIsCounted(catalog: Structure, refs: seq<ModelRef>, j: nat)
    requires j < |refs| && !FindModel(catalog, refs[j]).Found?
    ensures MissingCount(catalog, refs) > 0
    decreases |refs|
  {
    var init := refs[..|refs| - 1];
    var lastFound := FindModel(catalog, refs[|refs| - 1]).Found?;
    assert MissingCount(catalog, refs) == MissingCount(catalog, init) + (if lastFound then 0 else 1);
    if j < |init| {
      assert init[j] == refs[j];
      MissingIsCounted(catalog, init, j);
    } else {
      assert refs[j] == refs[|refs| - 1];
    }
  }

  /** The error count of a bundle is zero exactly when the catalog holds every reference. */
  lemma NoneMissingIffAllFound(catalog: Structure, refs: seq<ModelRef>)
    ensures MissingCount(catalog, refs) == 0 <==> forall i :: 0 <= i < |refs| ==> FindModel(catalog, refs[i]).Found?
  {
    if forall i :: 0 <= i < |refs| ==> FindModel(catalog, refs[i]).Found? {
      AllFoundNoneMissing(catalog, refs);
    } else {
      var j :| 0 <= j < |refs| && !FindModel(catalog, refs[j]).Found?;
      MissingIsCounted(catalog, refs, j);
    }
  }

  /** `enqueue_bundle_download`. */
  ghost function BundleEffect(fs: FS, check: Check, catalog: Structure, b: Bundle, s: Settings): (r: Effect)
    ensures |r.lines| >= 1
    ensures s.basePath == "" ==> r.fs == fs && r.queued == [] && |r.lines| == 1
    ensures s.basePath != "" && check(fs).2 != [] ==> r.fs == check(fs).0 && r.queued == []
  {
    if s.basePath == "" then
      Effect(fs, [FromRequest(NoBaseForBundle)], [])
    else
      BundleAfterCheck(check(fs), check, catalog, b, s)
  }

  /** The rest of `enqueue_bundle_download`, once the folder check has run with outcome `c`. */
  ghost function BundleAfterCheck(c: CheckResult, check: Check, catalog: Structure, b: Bundle, s: Settings): (r: Effect)
    ensures |r.lines| >= 1
    ensures r.lines[0] == FromRequest(CheckedForBundle(BundleName(b), c.1))
    ensures c.2 != [] ==> r.fs == c.0 && r.queued == [] && |r.lines| == 2 + |c.2| && r.lines[2..] == ErrorEntries(c.2)
    ensures c.2 == [] ==>
      var e := MissingCount(catalog, b.models);
      && Last(r.lines) == FromRequest(BundleDone(BundleName(b), |b.models| - e, e))
      && |r.queued| <= |b.models| - e
  {
    var name := BundleName(b);
    var checked := FromRequest(CheckedForBundle(name, c.1));
    if c.2 != [] then
      Effect(c.0, [checked, FromRequest(SetupFailedForBundle(s.basePath, name))] + ErrorEntries(c.2), [])
    else
      var st := BundleLoop(c.0, check, catalog, b.models, s);
      Effect(st.fs, [checked, FromRequest(QueueingBundle(name))] + st.lines + [FromRequest(BundleDone(name, st.found, st.missing))],
        st.queued)
  }

  /**
   * Once the folder check passes, the bundle's summary accounts for every
   * reference: the error count is the number of references the catalog does
   * not hold, the queued count is the rest, and no more tasks are queued
   * than were counted.
   */
  lemma BundleAccountsForEveryRef(fs: FS, check: Check, catalog: Structure, b: Bundle, s: Settings)
    requires s.basePath != "" && check(fs).2 == []
    ensures var r := BundleEffect(fs, check, catalog, b, s);
      var e := MissingCount(catalog, b.models);
      && Last(r.lines) == FromRequest(BundleDone(BundleName(b), |b.models| - e, e))
      && |r.queued| <= |b.models| - e
  {
    var st := BundleLoop(check(fs).0, check, catalog, b.models, s);
    var r := BundleEffect(fs, check, catalog, b, s);
    assert r == BundleAfterCheck(check(fs), check, catalog, b, s);
    assert Last(r.lines) == FromRequest(BundleDone(BundleName(b), st.found, st.missing));
  }

  /** A request without a base path queues nothing, touches nothing, and logs one error. */
  lemma BundleWithoutBasePath(fs: FS, check: Check, catalog: Structure, b: Bundle, s: Settings)
    requires s.basePath == ""
    ensures var r := BundleEffect(fs, check, catalog, b, s);
      r.fs == fs && r.queued == [] && r.lines == [FromRequest(NoBaseForBundle)]
  {
  }

  function Last<T>(xs: seq<T>): T
    requires |xs| >= 1
  {
    xs[|xs| - 1]
  }

  // ---------------------------------------------------------------------------
  // The worker

  /** `'1' if use_hf_transfer and HF_TRANSFER_AVAILABLE else '0'`. */
  function TransferValue(useHfTransfer: bool, available: bool): string {
    if useHfTransfer && available then "1" else "0"
  }

  /** The environment a task runs in. */
  function TaskEnv(env: Env, t: Task, available: bool): (r: Env)
    ensures HfTransferVar in r && r[HfTransferVar] == TransferValue(t.useHfTransfer, available)
    ensures forall k :: k in env && k != HfTransferVar ==> k in r && r[k] == env[k]
  {
    env[HfTransferVar := TransferValue(t.useHfTransfer, available)]
  }

  /** `os.environ.get('HF_HUB_ENABLE_HF_TRANSFER')`. */
  function Saved(env: Env): (r: Option<string>)
    ensures r.Some? <==> HfTransferVar in env
    ensures r.Some? ==> r.value == env[HfTransferVar]
  {
    if HfTransferVar in env then Some(env[HfTransferVar]) else None
  }

  /** The `finally` clause: put the saved value back, or delete the variable when there was none. */
  function Restored(env: Env, original: Option<string>): (r: Env)
    ensures HfTransferVar in r <==> original.Some?
    ensures original.Some? ==> r[HfTransferVar] == original.value
    ensures forall k :: k != HfTransferVar ==> (k in r <==> k in env)
    ensures forall k :: k != HfTransferVar && k in r ==> r[k] == env[k]
  {
    match original
    case None => env - {HfTransferVar}
    case Some(v) => env[HfTransferVar := v]
  }

  /** Whatever the task ran with, the restore gives back the environment from before it. */
  lemma RestoreUndoesSet(env: Env, value: string)
    ensures Restored(env[HfTransferVar := value], Saved(env)) == env
  {
    if HfTransferVar !in env {
      assert (env[HfTransferVar := value] - {HfTransferVar}).Keys == env.Keys;
    }
  }

  /** The log entries of a task. */
  function TaskEntries(lines: seq<Line>): (r: seq<Entry>)
    ensures |r| == |lines|
    ensures forall i :: 0 <= i < |lines| ==> r[i] == FromTask(lines[i])
  {
    seq(|lines|, i requires 0 <= i < |lines| => FromTask(lines[i]))
  }

  /** The worker's progress over a run of tasks: the filesystem, the entries logged, the fetches made. */
  datatype Progress = Progress(fs: FS, lines: seq<Entry>, fetches: seq<FetchRequest>)

  /** The worker taking `tasks` off the queue in order, each in the environment set for it. */
  function Worked(fs: FS, env: Env, w: World, available: bool, tasks: seq<Task>): (r: Progress)
    ensures |r.fetches| <= |tasks|
    decreases |tasks|
  {
    if tasks == [] then Progress(fs, [], [])
    else
      var prev := Worked(fs, env, w, available, tasks[..|tasks| - 1]);
      var t := tasks[|tasks| - 1];
      var run := DownloadModel(prev.fs, TaskEnv(env, t, available), w, t);
      Progress(run.fs, prev.lines + TaskEntries(run.logs), prev.fetches + run.fetches)
  }

  /** One more task for the worker: it runs on the tree and the log the earlier tasks left. */
  lemma WorkedSnoc(fs: FS, env: Env, w: World, available: bool, tasks: seq<Task>, t: Task)
    ensures var prev := Worked(fs, env, w, available, tasks);
      var run := DownloadModel(prev.fs, TaskEnv(env, t, available), w, t);
      Worked(fs, env, w, available, tasks + [t]) == Progress(run.fs, prev.lines + TaskEntries(run.logs), prev.fetches + run.fetches)
  {
    assert (tasks + [t])[..|tasks|] == tasks;
  }

  /** The worker's run of two tasks: the second runs on the tree the first leaves. */
  lemma WorkedPair(fs: FS, env: Env, w: World, available: bool, t: Task, u: Task)
    ensures var first := DownloadModel(fs, TaskEnv(env, t, available), w, t);
      var second := DownloadModel(first.fs, TaskEnv(env, u, available), w, u);
      var both := Worked(fs, env, w, available, [t, u]);
      both.fs == second.fs && both.fetches == first.fetches + second.fetches
  {
    PairFacts(t, u);
    EmptyConcat(DownloadModel(fs, TaskEnv(env, t, available), w, t).fetches);
    WorkedSnoc(fs, env, w, available, [], t);
    WorkedSnoc(fs, env, w, available, [t], u);
  }

  /**
   * A single-file model queued twice over a well-formed tree is fetched once:
   * when the first task completes, the second finds the file in place.
   */
  lemma DuplicateTaskFetchesOnce(fs: FS, env: Env, w: World, available: bool, t: Task)
    requires WF(fs)
    requires !t.model.isSnapshot && !t.model.allowOverwrite && !t.model.preDeleteTarget
    requires DownloadModel(fs, TaskEnv(env, t, available), w, t).outcome.Completed?
    requires GetTargetPath(fs, w.windows, t).target < DownloadModel(fs, TaskEnv(env, t, available), w, t).outcome.fetched
    ensures var first := DownloadModel(fs, TaskEnv(env, t, available), w, t);
      var both := Worked(fs, env, w, available, [t, t]);
      both.fetches == first.fetches && both.fs == first.fs && |both.fetches| <= 1
  {
    var e := TaskEnv(env, t, available);
    WorkedPair(fs, env, w, available, t, t);
    DownloadTwiceSkips(fs, e, e, w, t);
  }

  // ---------------------------------------------------------------------------
  // The engine's state

  class Engine {
    var fs: FS
    var env: Env
    var queue: seq<Task>
    var history: seq<Entry>
    var tasksDone: nat
    const world: World
    const hfTransferAvailable: bool

    predicate Valid()
      reads this
    {
      |history| <= MaxEntries
    }

    constructor (fs0: FS, env0: Env, world0: World, available: bool)
      ensures Valid()
      ensures fs == fs0 && env == env0 && queue == [] && history == [] && tasksDone == 0
      ensures world == world0 && hfTransferAvailable == available
    {
      fs := fs0;
      env := env0;
      queue := [];
      history := [];
      tasksDone := 0;
      world := world0;
      hfTransferAvailable := available;
    }

    /** `add_log`: append, and drop the oldest entry past the bound. */
    method AddLog(entry: Entry)
      requires Valid()
      modifies this
      ensures Valid()
      ensures history == Appended(old(history), [entry])
      ensures fs == old(fs) && env == old(env) && queue == old(queue) && tasksDone == old(tasksDone)
    {
      history := history + [entry];
      if |history| > MaxEntries {
        history := history[1..];
      }
      LoggedIsAppended(old(history), entry);
    }

    method AddLogs(entries: seq<Entry>)
      requires Valid()
      modifies this
      ensures Valid()
      ensures history == Appended(old(history), entries)
      ensures fs == old(fs) && env == old(env) && queue == old(queue) && tasksDone == old(tasksDone)
    {
      var i := 0;
      while i < |entries|
        invariant 0 <= i <= |entries|
        invariant Valid()
        invariant history == Appended(old(history), entries[..i])
        invariant fs == old(fs) && env == old(env) && queue == old(queue) && tasksDone == old(tasksDone)
      {
        AddLog(entries[i]);
        AppendedTwice(old(history), entries[..i], [entries[i]]);
        assert entries[..i + 1] == entries[..i] + [entries[i]];
        i := i + 1;
      }
      assert entries[..|entries|] == entries;
    }

    /** Logs `check`, then the abort line and the folder errors. */
    method LogSetupFailure(check: Entry, abort: Entry, errors: seq<string>)
      requires Valid()
      modifies this
      ensures Valid()
      ensures history == Appended(old(history), [check, abort] + ErrorEntries(errors))
      ensures fs == old(fs) && env == old(env) && queue == old(queue) && tasksDone == old(tasksDone)
    {
      AddLogs([check, abort] + ErrorEntries(errors));
    }

    /** `ensure_directories_exist` with the settings of a request, on the current tree. */
    method CheckFolders(s: Settings) returns (c: CheckResult)
      ensures c == CheckOf(world.windows, s)(fs)
    {
      var fs2, dirStatus, dirErrors := EnsureDirectoriesExist(fs, world.windows, s.basePath, s.isComfyUi, s.isForge, s.lowercaseFolders);
      CheckRuns(world.windows, s, fs);
      c := (fs2, dirStatus, dirErrors);
    }

    /** `enqueue_download`. */
    method EnqueueDownload(m: Model, sub: SubArg, s: Settings) returns (status: string)
      requires Valid()
      modifies this
      ensures Valid()
      ensures var e := EnqueueEffect(old(fs), CheckOf(world.windows, s), m, sub, s);
        fs == e.fs && queue == old(queue) + e.queued && history == Appended(old(history), e.lines)
      ensures env == old(env) && tasksDone == old(tasksDone)
      ensures status == QueueStatus(|queue|)
    {
      if s.basePath == "" {
        AddLog(FromRequest(NoBaseForDownload));
      } else if sub.NotADict? {
        AddLog(FromRequest(InvalidSubForModel(sub.typeName, m.name)));
      } else {
        var c := CheckFolders(s);
        EnqueueAfterCheck(fs, CheckOf(world.windows, s), m, sub, s);
        FinishDownloadRequest(c, m, sub.sub, s);
      }
      status := QueueStatus(|queue|);
    }

    /** The rest of `enqueue_download`, after the folder check. */
    method FinishDownloadRequest(c: CheckResult, m: Model, sub: SubCategory, s: Settings)
      requires Valid()
      modifies this
      ensures Valid()
      ensures var e := DownloadAfterCheck(c, m, sub, s);
        fs == e.fs && queue == old(queue) + e.queued && history == Appended(old(history), e.lines)
      ensures env == old(env) && tasksDone == old(tasksDone)
    {
      fs := c.0;
      var checked := FromRequest(CheckedForDownload(c.1));
      if c.2 != [] {
        LogSetupFailure(checked, FromRequest(SetupFailedForDownload(s.basePath, ModelName(m))), c.2);
      } else {
        queue := queue + [TaskOf(m, sub, s)];
        AddLogs([checked, FromRequest(QueuedOne(ModelName(m)))]);
      }
    }

    /** `enqueue_bulk_download`. */
    method EnqueueBulkDownload(models: seq<Model>, sub: SubArg, s: Settings) returns (status: string)
      requires Valid()
      modifies this
      ensures Valid()
      ensures var e := BulkEffect(old(fs), CheckOf(world.windows, s), models, sub, s);
        fs == e.fs && queue == old(queue) + e.queued && history == Appended(old(history), e.lines)
      ensures env == old(env) && tasksDone == old(tasksDone)
      ensures status == QueueStatus(|queue|)
    {
      if s.basePath == "" {
        AddLog(FromRequest(NoBaseForBulk));
      } else if sub.NotADict? {
        AddLog(FromRequest(InvalidSubForBulk(sub.typeName)));
      } else {
        var c := CheckFolders(s);
        BulkAfterCheckIs(fs, CheckOf(world.windows, s), models, sub, s);
        FinishBulkRequest(c, models, sub.sub, s);
      }
      status := QueueStatus(|queue|);
    }

    /** The rest of `enqueue_bulk_download`, after the folder check. */
    method FinishBulkRequest(c: CheckResult, models: seq<Model>, sub: SubCategory, s: Settings)
      requires Valid()
      modifies this
      ensures Valid()
      ensures var e := BulkAfterCheck(c, models, sub, s);
        fs == e.fs && queue == old(queue) + e.queued && history == Appended(old(history), e.lines)
      ensures env == old(env) && tasksDone == old(tasksDone)
    {
      fs := c.0;
      var checked := FromRequest(CheckedForBulk(c.1));
      if c.2 != [] {
        LogSetupFailure(checked, FromRequest(SetupFailedForBulk(s.basePath, GroupName(sub))), c.2);
      } else {
        var name := GroupName(sub);
        var count := QueueAll(models, sub, s);
        AddLogs([checked, FromRequest(QueuedMany(count, name))]);
      }
    }

    /** The loop of `enqueue_bulk_download`: one task per model of the list, in order, counted. */
    method QueueAll(models: seq<Model>, sub: SubCategory, s: Settings) returns (count: nat)
      modifies this
      ensures queue == old(queue) + BulkTasks(models, sub, s) && count == |models|
      ensures fs == old(fs) && env == old(env) && history == old(history) && tasksDone == old(tasksDone)
    {
      count := 0;
      var i := 0;
      while i < |models|
        invariant 0 <= i <= |models| && count == i
        invariant queue == old(queue) + BulkTasks(models[..i], sub, s)
        invariant fs == old(fs) && env == old(env) && history == old(history) && tasksDone == old(tasksDone)
      {
        queue := queue + [TaskOf(models[i], sub, s)];
        assert BulkTasks(models[..i + 1], sub, s) == BulkTasks(models[..i], sub, s) + [TaskOf(models[i], sub, s)];
        count := count + 1;
        i := i + 1;
      }
      assert models[..|models|] == models;
    }

    /** `enqueue_bundle_download`. */
    method EnqueueBundleDownload(b: Bundle, s: Settings) returns (status: string)
      requires Valid()
      modifies this
      ensures Valid()
      ensures var e := BundleEffect(old(fs), CheckOf(world.windows, s), world.catalog, b, s);
        fs == e.fs && queue == old(queue) + e.queued && history == Appended(old(history), e.lines)
      ensures env == old(env) && tasksDone == old(tasksDone)
      ensures status == QueueStatus(|queue|)
    {
      if s.basePath == "" {
        AddLog(FromRequest(NoBaseForBundle));
      } else {
        var c := CheckFolders(s);
        BundleAfterCheckIs(fs, CheckOf(world.windows, s), world.catalog, b, s);
        FinishBundleRequest(c, b, s);
      }
      status := QueueStatus(|queue|);
    }

    /** The rest of `enqueue_bundle_download`, after the folder check. */
    method FinishBundleRequest(c: CheckResult, b: Bundle, s: Settings)
      requires Valid()
      modifies this
      ensures Valid()
      ensures var e := BundleAfterCheck(c, CheckOf(world.windows, s), world.catalog, b, s);
        fs == e.fs && queue == old(queue) + e.queued && history == Appended(old(history), e.lines)
      ensures env == old(env) && tasksDone == old(tasksDone)
    {
      fs := c.0;
      var name := BundleName(b);
      var checked := FromRequest(CheckedForBundle(name, c.1));
      if c.2 != [] {
        LogSetupFailure(checked, FromRequest(SetupFailedForBundle(s.basePath, name)), c.2);
        return;
      }
      var opening := [checked, FromRequest(QueueingBundle(name))];
      AddLogs(opening);
      ghost var h1 := history;
      var queuedCount, errors := QueueRefs(b.models, s);
      ghost var st := BundleLoop(c.0, CheckOf(world.windows, s), world.catalog, b.models, s);
      var summary := FromRequest(BundleDone(name, queuedCount, errors));
      AddLog(summary);
      AppendedTwice(h1, st.lines, [summary]);
      AppendedTwice(old(history), opening, st.lines + [summary]);
      ConcatAssoc(opening, st.lines, [summary]);
    }

    /** The loop of `enqueue_bundle_download` over the references. */
    method QueueRefs(refs: seq<ModelRef>, s: Settings) returns (queuedCount: nat, errors: nat)
      requires Valid()
      modifies this
      ensures Valid()
      ensures var st := BundleLoop(old(fs), CheckOf(world.windows, s), world.catalog, refs, s);
        && fs == st.fs && queue == old(queue) + st.queued && history == Appended(old(history), st.lines)
        && queuedCount == st.found && errors == st.missing
      ensures env == old(env) && tasksDone == old(tasksDone)
    {
      queuedCount, errors := 0, 0;
      var i := 0;
      ghost var st := BundleLoop(old(fs), CheckOf(world.windows, s), world.catalog, [], s);
      while i < |refs|
        invariant 0 <= i <= |refs|
        invariant Valid() && env == old(env) && tasksDone == old(tasksDone)
        invariant st == BundleLoop(old(fs), CheckOf(world.windows, s), world.catalog, refs[..i], s)
        invariant fs == st.fs && queue == old(queue) + st.queued && history == Appended(old(history), st.lines)
        invariant queuedCount == st.found && errors == st.missing
      {
        var found := QueueRefAt(refs, i, s, old(fs), old(history), old(queue));
        st := BundleLoop(old(fs), CheckOf(world.windows, s), world.catalog, refs[..i + 1], s);
        if found {
          queuedCount := queuedCount + 1;
        } else {
          errors := errors + 1;
        }
        i := i + 1;
      }
      assert refs[..|refs|] == refs;
    }

    /** `QueueRef` for the reference at `i`, as one step of the loop over the prefix. */
    method QueueRefAt(refs: seq<ModelRef>, i: nat, s: Settings, ghost fs0: FS, ghost h0: seq<Entry>, ghost q0: seq<Task>)
      returns (found: bool)
      requires Valid() && i < |refs|
      requires var st := BundleLoop(fs0, CheckOf(world.windows, s), world.catalog, refs[..i], s);
        fs == st.fs && queue == q0 + st.queued && history == Appended(h0, st.lines)
      modifies this
      ensures Valid()
      ensures var st := BundleLoop(fs0, CheckOf(world.windows, s), world.catalog, refs[..i], s);
        var st1 := BundleLoop(fs0, CheckOf(world.windows, s), world.catalog, refs[..i + 1], s);
        && fs == st1.fs && queue == q0 + st1.queued && history == Appended(h0, st1.lines)
        && st1.found == st.found + (if found then 1 else 0) && st1.missing == st.missing + (if found then 0 else 1)
      ensures env == old(env) && tasksDone == old(tasksDone)
    {
      ghost var prev := BundleLoop(fs0, CheckOf(world.windows, s), world.catalog, refs[..i], s);
      BundleLoopExtends(fs0, CheckOf(world.windows, s), world.catalog, refs, i, s);
      found := QueueRef(refs[i], s, prev, h0, q0);
    }

    /** One reference of the bundle: queue the model if the catalog has it, otherwise log that it is missing. */
    method QueueRef(ref: ModelRef, s: Settings, ghost prev: BundleState, ghost h0: seq<Entry>, ghost q0: seq<Task>) returns (found: bool)
      requires Valid()
      requires fs == prev.fs && queue == q0 + prev.queued && history == Appended(h0, prev.lines)
      modifies this
      ensures Valid()
      ensures var lookup := FindModel(world.catalog, ref);
        var next := BundleStep(prev, CheckOf(world.windows, s), lookup, ref, s);
        && fs == next.fs && queue == q0 + next.queued && history == Appended(h0, next.lines)
        && found == lookup.Found?
      ensures env == old(env) && tasksDone == old(tasksDone)
    {
      var lookup := FindModelByKey(world.catalog, ref);
      found := lookup.Found?;
      if found {
        QueueFound(lookup, ref, s, prev, h0, q0);
      } else {
        var missing := [FromRequest(LookupFailed(lookup.message)), FromRequest(MissingRef(ref.model))];
        AddLogs(missing);
        AppendedTwice(h0, prev.lines, missing);
      }
    }

    /** A reference the catalog holds: `enqueue_download` for its model and sub-category. */
    method QueueFound(lookup: Lookup, ref: ModelRef, s: Settings, ghost prev: BundleState, ghost h0: seq<Entry>, ghost q0: seq<Task>)
      requires Valid() && lookup.Found?
      requires fs == prev.fs && queue == q0 + prev.queued && history == Appended(h0, prev.lines)
      modifies this
      ensures Valid()
      ensures var next := BundleStep(prev, CheckOf(world.windows, s), lookup, ref, s);
        fs == next.fs && queue == q0 + next.queued && history == Appended(h0, next.lines)
      ensures env == old(env) && tasksDone == old(tasksDone)
    {
      var ignored := EnqueueDownload(lookup.model, Dict(lookup.sub), s);
      ghost var e := EnqueueEffect(prev.fs, CheckOf(world.windows, s), lookup.model, Dict(lookup.sub), s);
      AppendedTwice(h0, prev.lines, e.lines);
      ConcatAssoc(q0, prev.queued, e.queued);
    }

    /** One pass of `download_worker`'s loop, on a queue that is not empty. */
    method ProcessNext()
      requires Valid() && queue != []
      modifies this
      ensures Valid()
      ensures var t := old(queue)[0];
        var run := DownloadModel(old(fs), TaskEnv(old(env), t, hfTransferAvailable), world, t);
        && queue == old(queue)[1..]
        && fs == run.fs
        && history == Appended(old(history), TaskEntries(run.logs))
      ensures env == old(env) && tasksDone == old(tasksDone) + 1
    {
      var t := queue[0];
      queue := queue[1..];
      var original := Saved(env);
      env := env[HfTransferVar := TransferValue(t.useHfTransfer, hfTransferAvailable)];
      var run := DownloadModel(fs, env, world, t);
      fs := run.fs;
      AddLogs(TaskEntries(run.logs));
      RestoreUndoesSet(old(env), TransferValue(t.useHfTransfer, hfTransferAvailable));
      env := Restored(env, original);
      tasksDone := tasksDone + 1;
    }

    /** `ProcessNext`, seen as one more task of the worker's run so far. */
    method ProcessTracked(ghost fs0: FS, ghost env0: Env, ghost h0: seq<Entry>, ghost tasks: seq<Task>)
      requires Valid() && queue != [] && env == env0
      requires var p := Worked(fs0, env0, world, hfTransferAvailable, tasks);
        fs == p.fs && history == Appended(h0, p.lines)
      modifies this
      ensures Valid()
      ensures var p := Worked(fs0, env0, world, hfTransferAvailable, tasks + [old(queue)[0]]);
        && queue == old(queue)[1..]
        && fs == p.fs
        && history == Appended(h0, p.lines)
      ensures env == old(env) && tasksDone == old(tasksDone) + 1
    {
      ghost var p := Worked(fs0, env0, world, hfTransferAvailable, tasks);
      ghost var t := queue[0];
      ProcessNext();
      WorkedSnoc(fs0, env0, world, hfTransferAvailable, tasks, t);
      ghost var run := DownloadModel(p.fs, TaskEnv(env0, t, hfTransferAvailable), world, t);
      AppendedTwice(h0, p.lines, TaskEntries(run.logs));
    }

    /** `download_worker` until the queue is drained: every task runs once, in order. */
    method RunWorker()
      requires Valid()
      modifies this
      ensures Valid()
      ensures var p := Worked(old(fs), old(env), world, hfTransferAvailable, old(queue));
        && queue == []
        && fs == p.fs
        && history == Appended(old(history), p.lines)
      ensures env == old(env) && tasksDone == old(tasksDone) + |old(queue)|
    {
      ghost var q0 := queue;
      var k := 0;
      ghost var p := Worked(old(fs), old(env), world, hfTransferAvailable, []);
      while queue != []
        invariant 0 <= k <= |q0| && queue == q0[k..]
        invariant Valid() && env == old(env) && tasksDone == old(tasksDone) + k
        invariant p == Worked(old(fs), old(env), world, hfTransferAvailable, q0[..k])
        invariant fs == p.fs && history == Appended(old(history), p.lines)
        decreases |queue|
      {
        PrefixSnoc(q0, k);
        ProcessTracked(old(fs), old(env), old(history), q0[..k]);
        k := k + 1;
        p := Worked(old(fs), old(env), world, hfTransferAvailable, q0[..k]);
      }
      assert k == |q0|;
      PrefixAll(q0);
      assert p == Worked(old(fs), old(env), world, hfTransferAvailable, q0);
    }
  }
}
