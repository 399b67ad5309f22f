# Model downloader: download placement engine

This project models the core of the model-downloader script (`older_versions/80.py`): the engine that decides where a model downloaded from the Hugging Face Hub ends up on disk. It proves properties of that engine.

The modelled parts are:

- the table of sub-folders for the default, ComfyUI and Forge folder layouts, and how a model's `target_dir_key` picks one of them;
- the case-insensitive walk that turns a relative folder into an existing, or new, folder below the base path;
- the check that creates every folder of the layout and reports what it created, found or failed to create;
- one download task (`_download_model_internal`):
  - the skip rule for an existing final file;
  - the pre-delete branch;
  - the snapshot or single-file fetch;
  - the guarded rename into the final path;
  - the error handlers;
- the worker that runs queued tasks in order with `HF_HUB_ENABLE_HF_TRANSFER` set per task and restored afterwards;
- the bounded log history;
- the three requests that queue tasks: one model, a whole sub-category, a bundle;
- the lookup of a bundle's model references in the catalog;
- the search filter of the catalog view.

Disk state is a value `FS`: a map from directory paths to their listings, and a set of file paths. A path is a sequence of components. The fetch client of the Hub is a function parameter `Fetcher`. It maps a fetch request and the environment to the path it wrote, or to an error. A download task is a pure function `Download.DownloadModel`. It returns:

- the new filesystem;
- the log lines;
- the fetch requests it made;
- its outcome.

The engine's mutable state (filesystem, environment, queue, log history, counter of finished tasks) lives in the class `Engine.Engine`. Each of its methods is proved against a function of the old state.

## Model

| member | source | states |
|---|---|---|
| Layout.ConventionOf | older_versions/80.py:1381-1384 | the ComfyUI flag wins over the Forge flag; Forge applies only without ComfyUI; the default layout applies only without either flag |
| Layout.CurrentSubdirs | older_versions/80.py:1379-1450 | every layout table has the default key `diffusion_models` |
| Layout.NoFlagIsBase | older_versions/80.py:1361-1377 | without either flag the table is exactly `BASE_SUBDIRS` |
| Layout.ComfyUiChangesOnlyLora | older_versions/80.py:1382-1383 | the ComfyUI table has the same keys as the base table and differs only at `Lora`, which becomes `loras`, whatever the Forge flag |
| Layout.ComfyUiWins | older_versions/80.py:1381-1383 | with both flags set, the Forge flag is ignored |
| Layout.ForgeLayersOverBase | older_versions/80.py:1384-1448 | the Forge table holds the base keys plus the Forge keys; a Forge entry wins; a base entry Forge does not name is kept |
| Layout.ForgeEntry | older_versions/80.py:1386-1447 | a key that Forge assigns gets the Forge folder |
| Layout.ForgeConsolidatesCheckpoints | older_versions/80.py:1386-1447 | Forge files both checkpoint keys under `Stable-diffusion` |
| Layout.ForgeConsolidatesTextEncoders | older_versions/80.py:1386-1447 | Forge files CLIP and CLIP-vision models under `text_encoder` |
| Layout.ForgeRenamesFolders | older_versions/80.py:1386-1447 | Forge files the default upscalers under `ESRGAN` and the VAEs under `VAE` |
| Layout.ChooseKey | older_versions/80.py:1591-1600 | the key is missing exactly when neither the model nor the sub-category gives one; the model's key wins; a chosen key is in the table |
| Layout.SubdirFor | older_versions/80.py:1600-1602 | a chosen key gets its own folder, anything else gets the default key's folder |
| Layout.TargetFolderChoice | older_versions/80.py:1588-1602 | for every key and flag combination, the folder is the first given key's folder when that key is valid, else the default folder |
| Resolver.FirstCasedDir | older_versions/80.py:1459-1463 | no result exactly when no listed item is a directory matching up to case; otherwise the result is the first matching item in listing order |
| Resolver.CasedComponent | older_versions/80.py:1452-1467 | a result is a listed directory of the parent equal to the name up to case; there is no result exactly when the parent is not a directory or nothing matches |
| Resolver.FindActualCasedDirectoryComponent | older_versions/80.py:1452-1467 | the listing scan returns exactly `CasedComponent` |
| Resolver.ResolveFrom | older_versions/80.py:1504-1512 | the walk extends the current path by one component per requested component |
| Resolver.ResolveFromIgnoresCase | older_versions/80.py:1504-1512 | each component the walk appends equals the requested one up to case |
| Resolver.Resolve | older_versions/80.py:1469-1514 | the result is the base path followed by one component per requested component; on Windows it is the literal join |
| Resolver.ResolveIgnoresCase | older_versions/80.py:1469-1514 | each resolved component equals the requested component up to case, on every platform |
| Resolver.ResolveShape | older_versions/80.py:1491-1512 | off Windows, each component is the existing cased directory below the path so far when there is one, else the requested component |
| Resolver.ResolveTargetDirectory | older_versions/80.py:1469-1514 | the loop over the components returns exactly `Resolve` |
| Resolver.FreshTreeResolvesLiterally | older_versions/80.py:1504-1512 | below a folder that does not exist, the walk is the literal join |
| Resolver.ExistingSiblingReused | older_versions/80.py:1484-1485 | with lower-casing requested, an existing `models/Lora` is reused instead of creating `models/lora` |
| Resolver.ResolveStable | older_versions/80.py:1469-1514 | once the resolved folder exists, and any other change lies along or below it, resolving again gives the same folder |
| Resolver.FirstCasedDirOnGrown | older_versions/80.py:1459-1463 | when the listing grows only at its end, a first match that was already a directory is the first match of the old listing too |
| Resolver.StepOnGrown | older_versions/80.py:1491-1512 | after directories were only added, a step of the walk picks the same name as before or a directory that is new |
| Resolver.ResolveFromOnGrown | older_versions/80.py:1504-1512 | after directories were only added, the walk meets a file on its way only where the walk before met one |
| Resolver.ResolveOnGrown | older_versions/80.py:1469-1514 | after directories were only added, no resolved folder has a file above it when the folder resolved before had none |
| FileSystem.MakeDirs | older_versions/80.py:1608-1609 | `os.makedirs(exist_ok=True)`: no change when the folder exists; on success the folder and all previous folders exist, files are unchanged, and only ancestors of the path are new; in the model it fails only when a file is in the way |
| FileSystem.MakeDirsGrows | older_versions/80.py:1608-1609 | a successful `os.makedirs` keeps the tree well formed and only adds directories: the files and every old listing are kept |
| FileSystem.Remove | older_versions/80.py:1753-1754 | `os.remove` succeeds exactly on a file and removes only that file; on a directory it fails with `IsADirectory`, and on a missing path with `NoSuchFile` |
| FileSystem.Rename | older_versions/80.py:1764-1765 | `os.rename` succeeds exactly when the source is a file, the destination is not a directory and its parent exists; it moves the one file |
| PathOrder.SortUnique | older_versions/80.py:1531 | `sorted(set(...))` returns exactly the strictly sorted sequence of the collected folders |
| PathOrder.Insert | older_versions/80.py:1531 | insertion keeps the sequence strictly sorted and adds exactly the new element |
| PathOrder.SortedUnique | older_versions/80.py:1531 | two strictly sorted sequences with the same elements are equal |
| PathOrder.AncestorFirst | older_versions/80.py:1531 | a folder sorts before every folder below it, so parents are made first |
| EnsureDirs.TargetDirs | older_versions/80.py:1525-1530 | the folders to make are the base folder and the resolved folder of every table value, and nothing else |
| EnsureDirs.CollectTargets | older_versions/80.py:1525-1530 | the collecting loop returns exactly `TargetDirs` |
| EnsureDirs.EnsureOne | older_versions/80.py:1539-1554 | an existing path is verified and left alone; a created path did not exist before and is a directory afterwards |
| EnsureDirs.EnsureAll | older_versions/80.py:1538-1555 | created, verified and failed add up to the number of folders; every failure is one of the folders |
| EnsureDirs.EnsureAllEstablishes | older_versions/80.py:1538-1555 | every folder that did not fail exists afterwards, and nothing that existed disappears |
| EnsureDirs.EnsureAllGrows | older_versions/80.py:1538-1555 | the creation loop only adds directories to a well-formed tree |
| EnsureDirs.EnsureAllSucceeds | older_versions/80.py:1538-1555 | in the model, no folder fails when none of them has a file above it |
| EnsureDirs.EnsureAllClear | older_versions/80.py:1538-1555 | after a loop without failures, none of its folders has a file above it |
| EnsureDirs.TargetDirsClearOnGrown | older_versions/80.py:1525-1530 | after directories were only added, none of the folders collected again has a file above it when none collected before had one |
| EnsureDirs.EnsurePassesAgain | older_versions/80.py:1517-1561 | a folder check without errors on a well-formed tree only adds directories, and the same check on the tree it leaves reports no errors either |
| EnsureDirs.EnsureTwice | older_versions/80.py:1517-1561 | after a check without failures, the same check creates nothing and verifies every folder |
| EnsureDirs.EnsureEach | older_versions/80.py:1538-1555 | the loop over the sorted folders computes exactly `EnsureAll` and one error line per failure |
| EnsureDirs.EnsureResult | older_versions/80.py:1519-1521 | an empty base path changes nothing and returns the fixed error status and error list |
| EnsureDirs.EnsureDirectoriesExist | older_versions/80.py:1517-1561 | the method returns exactly the new filesystem, the status line and the errors of `EnsureResult` |
| EventLog.LoggedBounded | older_versions/80.py:1574-1577 | the history never grows past 100 entries, and grows by one until it reaches 100 |
| EventLog.LoggedKeepsOrder | older_versions/80.py:1574-1577 | the new message is the newest entry, and the earlier entries keep their order with at most the oldest one dropped |
| EventLog.LoggedAllKeepsNewest | older_versions/80.py:1571-1577 | after any run of messages, the history is the newest 100 of the old history and the messages, in logging order |
| EventLog.AppendedTwice | older_versions/80.py:1571-1577 | logging one run of messages and then another is the same as logging both runs together |
| EventLog.LoggedIsAppended | older_versions/80.py:1574-1577 | one `add_log` call agrees with the closed form |
| EventLog.Logged | older_versions/80.py:1574-1577 | one `add_log` call: the history grows by one until it holds 100 entries, the new message is the newest entry, and the entries before it are the newest of the old history |
| EventLog.LoggedAll | older_versions/80.py:1571-1577 | a run of `add_log` calls never takes a history within the bound past 100 entries, and the last message logged is the newest entry |
| Catalog.FindByKey | older_versions/80.py:1905-1906 | the dictionary lookups `model_structure[category]` and `sub_categories[sub_category]`: a found entry is stored and has the requested key; none is found exactly when no entry has that key |
| Catalog.ScanModels | older_versions/80.py:1907-1909 | a match is a model with the requested name, and every model before it has a different name; a model without a name before any match stops the scan; no match means every model has some other name |
| Catalog.FindModel | older_versions/80.py:1903-1917 | a found model has the requested name and lies in the requested sub-category of the requested category; otherwise the message is the not-found message or the key-error message |
| Catalog.ScanModelsFindsFirst | older_versions/80.py:1907-1909 | the scan stops at a model with the requested name when every model before it has another name, and returns that model |
| Catalog.FindModelFindsNamed | older_versions/80.py:1903-1910 | when the requested category and sub-category exist and the sub-category holds a model with the requested name after only differently named models, the lookup finds exactly that model, with its sub-category |
| Catalog.FindModelByKey | older_versions/80.py:1903-1917 | the lookup returns exactly `FindModel` |
| Catalog.FirstNamedInSubs | older_versions/80.py:1645-1650 | the key of the first sub-category holding a model with that name; none exactly when no sub-category holds one |
| Catalog.SizeKeyOf | older_versions/80.py:1643-1651 | the size-record key `cat::sub::name` of the first place the model is found; none exactly when no sub-category anywhere holds a model with that name |
| Download.KeyWarnings | older_versions/80.py:1593-1599 | at most one warning, and none exactly when the key was valid |
| Download.GetTargetPath | older_versions/80.py:1588-1611 | the target is the resolved folder of the chosen key; the folder is made when possible and the filesystem is unchanged otherwise; the folder exists exactly when making it succeeded; the key warning is logged |
| Download.FinalPath | older_versions/80.py:1636 | a final path exists exactly when `save_filename` is given, and it is the target followed by the components of the file name |
| Download.RemoveLogged | older_versions/80.py:1686-1699 | an existing file is removed, and nothing else is; a missing one changes nothing; two lines are logged, the reason first |
| Download.PreDelete | older_versions/80.py:1640-1699 | nothing happens unless the pre-delete rule applies; when it applies, an existing final file is removed |
| Download.HandlerLines | older_versions/80.py:1789-1800 | every error handler logs at least one line |
| Download.DirName | older_versions/80.py:1747 | `os.path.dirname` is a prefix of the path, and the parent of a non-empty path |
| Download.RenameLogged | older_versions/80.py:1764-1770 | the rename completes exactly when `os.rename` succeeds; a failure leaves the filesystem unchanged and ends in an OS or filesystem error |
| Download.GuardedRename | older_versions/80.py:1749-1770 | the rename is refused exactly when the final path exists and neither overwrite nor pre-delete is set; a refusal keeps the filesystem; a final path that is a directory is never replaced |
| Download.Finish | older_versions/80.py:1744-1772 | when the fetched path is already the final one, nothing changes and the task completes; otherwise the outcome is the guarded rename's outcome |
| Download.FinishRefusesNonFile | older_versions/80.py:1753-1760 | with overwrite, a final path that exists but is not a file stops the rename and leaves the disk unchanged |
| Download.Transfer | older_versions/80.py:1705-1787 | at most one fetch; no fetch exactly on the invalid-configuration path, which is a single file without a repository file name or a save name; the fetch goes to the target folder for the model's repository; a file fetch is forced under `allow_overwrite or pre_delete_target`, a snapshot fetch under `allow_overwrite` |
| Download.DownloadModel | older_versions/80.py:1613-1800 | a task makes at most one fetch |
| Download.SkipRule | older_versions/80.py:1639-1703 | once past the early checks, a task skips exactly when it is a single file whose final path exists and neither `allow_overwrite` nor `pre_delete_target` is set; a skip fetches nothing and changes nothing beyond making the target folder |
| Download.SnapshotsProceed | older_versions/80.py:1705-1721 | a snapshot is never skipped and never refused a rename; once its folder exists it makes exactly one snapshot fetch, forced under `allow_overwrite` |
| Download.FetchRule | older_versions/80.py:1718-1742 | for every task, the only fetch goes to the task's target folder with the model's repository and the forcing rule above |
| Download.RenameGuard | older_versions/80.py:1744-1787 | a refused rename happens only with neither overwrite nor pre-delete, and leaves the fetched file next to the existing final path; a completed single-file task has its file at the final path and no longer at the fetched path |
| Download.ExistingFinalSkips | older_versions/80.py:1639-1703 | when the target folder and the final file exist, a single-file task with neither overwrite nor pre-delete skips without fetching or changing anything |
| Download.DownloadTwiceSkips | older_versions/80.py:1613-1787 | running the same single-file task twice with neither overwrite nor pre-delete fetches once: the second run resolves the same folder, finds the file and changes nothing |
| Engine.EnqueueQueuesIffCheckPasses | older_versions/80.py:2140-2158 | one model is queued exactly when the base path is given, the sub-category is a dictionary and the folder check reports no errors; it is queued with the request's settings and the request ends with `Queued:` |
| Engine.EnqueueRejectsBeforeTouchingDisk | older_versions/80.py:2141-2146 | a request without a base path or with a non-dictionary sub-category leaves the disk alone, queues nothing and logs one line |
| Engine.EnqueueEffect | older_versions/80.py:2140-2158 | `enqueue_download`: one line at least and one task at most; without a base path or with a non-dictionary sub-category the disk is unchanged, nothing is queued and one line is logged; otherwise the disk is the one the folder check leaves, and a task is queued exactly when the check reports no errors |
| Engine.DownloadAfterCheck | older_versions/80.py:2149-2158 | the rest of `enqueue_download` after the folder check: the disk is the one the check leaves and the first line reports the check; with no errors the one task is queued after two lines; with errors nothing is queued and each error is logged after the abort line |
| Engine.BulkTasks | older_versions/80.py:2177-2182 | one task per model, in list order, each with the request's settings |
| Engine.BulkQueuesAllOrNone | older_versions/80.py:2160-2183 | a bulk request that passes the same checks queues every model in order and reports the list length; otherwise it queues nothing |
| Engine.BulkEffect | older_versions/80.py:2160-2183 | `enqueue_bulk_download`: without a base path or with a non-dictionary sub-category the disk is unchanged, nothing is queued and one line is logged; otherwise the disk is the one the folder check leaves |
| Engine.BulkAfterCheck | older_versions/80.py:2169-2183 | the rest of `enqueue_bulk_download` after the folder check: the first line reports the check; with no errors every model's task is queued in list order after two lines; with errors nothing is queued and each error is logged after the abort line |
| Engine.BundleLoop | older_versions/80.py:2204-2212 | the found and missing references add up to all references; the missing count is the number of references the lookup fails on |
| Engine.BundleStep | older_versions/80.py:2205-2212 | one reference of the bundle loop: a found one counts as found and queues at most one task; a missing one counts as an error and queues nothing |
| Engine.MissingCount | older_versions/80.py:2204-2212 | at most the number of references |
| Engine.AllFoundNoneMissing | older_versions/80.py:2204-2212 | when every reference resolves, none is counted as missing |
| Engine.MissingIsCounted | older_versions/80.py:2209-2212 | a reference that does not resolve is counted as missing |
| Engine.NoneMissingIffAllFound | older_versions/80.py:2204-2214 | the bundle reports zero errors exactly when every reference resolves |
| Engine.ResolvedTasks | older_versions/80.py:2204-2212 | one task per resolved reference, so the reference count minus the missing count |
| Engine.CheckPassesAgain | older_versions/80.py:1517-1561 | the engine's folder check, once it passes on a well-formed tree, leaves a well-formed tree on which it passes again |
| Engine.DownloadKeepsPassing | older_versions/80.py:2140-2158 | with the engine's folder check on a well-formed tree, a single download after a passing check queues its task and leaves a well-formed tree on which the check passes again |
| Engine.BundleLoopKeepsPassing | older_versions/80.py:2204-2212 | with the engine's folder check on a well-formed tree where the check passes, every inner check of the bundle loop passes, and the loop queues exactly the resolved references' tasks, in bundle order |
| Engine.BundleQueuesResolvedInOrder | older_versions/80.py:2185-2215 | with the engine's folder check on a well-formed tree, when the bundle's own folder check passes, the bundle queues exactly the resolved references' tasks, each once, in bundle order |
| Engine.BundleAccountsForEveryRef | older_versions/80.py:2204-2214 | after a passing folder check, the bundle summary reports as errors exactly the references the catalog does not hold and the rest as queued, and no more tasks are queued than that |
| Engine.BundleWithoutBasePath | older_versions/80.py:2186-2188 | a bundle request without a base path changes nothing, queues nothing and logs one line |
| Engine.BundleEffect | older_versions/80.py:2185-2215 | `enqueue_bundle_download`: without a base path the disk is unchanged, nothing is queued and one line is logged; when the folder check reports errors, the disk is the one it leaves and nothing is queued |
| Engine.BundleAfterCheck | older_versions/80.py:2192-2215 | the rest of `enqueue_bundle_download` after the folder check: the first line reports the check; with errors nothing is queued and each error is logged after the abort line; without errors the summary line counts the references the catalog does not hold as errors and the rest as queued, and no more tasks are queued than that |
| Engine.TaskEnv | older_versions/80.py:1814-1816 | the task sets `HF_HUB_ENABLE_HF_TRANSFER` to `1` only when both the request and the installation allow it, and keeps every other variable |
| Engine.Saved | older_versions/80.py:1814 | `os.environ.get`: a saved value exactly when the variable is set, and then its value |
| Engine.Restored | older_versions/80.py:1823-1828 | the `finally` clause: the variable is set exactly when a value was saved, to that value; every other variable is kept |
| Engine.RestoreUndoesSet | older_versions/80.py:1823-1828 | restoring the saved value after setting the variable gives back the environment from before the task |
| Engine.Worked | older_versions/80.py:1802-1829 | running tasks makes at most one fetch per task |
| Engine.WorkedSnoc | older_versions/80.py:1805-1829 | running one more task extends the run of the earlier ones by that task's lines and fetches |
| Engine.DuplicateTaskFetchesOnce | older_versions/80.py:1802-1829 | the worker running the same single-file task twice in a row, with neither overwrite nor pre-delete, fetches once and leaves the disk as the first run left it |
| Engine.Engine.constructor | older_versions/80.py:1565-1568 | a fresh engine has an empty queue, an empty history and no finished tasks |
| Engine.Engine.AddLog | older_versions/80.py:1571-1577 | the history becomes the bounded append of the entry; nothing else changes |
| Engine.Engine.AddLogs | older_versions/80.py:1571-1577 | the history becomes the bounded append of the entries in order; nothing else changes |
| Engine.Engine.CheckFolders | older_versions/80.py:1517-1561 | the folder check of a request, on the engine's filesystem |
| Engine.Engine.EnqueueDownload | older_versions/80.py:2140-2158 | the new filesystem, history and queue are those of `EnqueueEffect`; the status names the queue size |
| Engine.Engine.FinishDownloadRequest | older_versions/80.py:2149-2158 | after the folder check, the filesystem, queue and history become those of `DownloadAfterCheck`; the environment and the finished count are unchanged |
| Engine.Engine.EnqueueBulkDownload | older_versions/80.py:2160-2183 | the new filesystem, history and queue are those of `BulkEffect`; the status names the queue size |
| Engine.Engine.FinishBulkRequest | older_versions/80.py:2169-2183 | after the folder check, the filesystem, queue and history become those of `BulkAfterCheck`; the environment and the finished count are unchanged |
| Engine.Engine.QueueAll | older_versions/80.py:2177-2182 | the queue grows by exactly `BulkTasks`, and the count is the list length |
| Engine.Engine.EnqueueBundleDownload | older_versions/80.py:2185-2215 | the new filesystem, history and queue are those of `BundleEffect`; the status names the queue size |
| Engine.Engine.FinishBundleRequest | older_versions/80.py:2192-2215 | after the folder check, the filesystem, queue and history become those of `BundleAfterCheck`; the environment and the finished count are unchanged |
| Engine.Engine.QueueRefs | older_versions/80.py:2204-2212 | the loop over the references reaches the state of `BundleLoop`, and returns its found and missing counts |
| Engine.Engine.QueueRef | older_versions/80.py:2205-2212 | one reference: the lookup runs and the state advances by exactly one `BundleStep`; the result says whether the reference was found |
| Engine.Engine.ProcessNext | older_versions/80.py:1807-1829 | the first queued task runs once under its environment; the environment is restored, the task leaves the queue, and the finished count grows by one |
| Engine.Engine.RunWorker | older_versions/80.py:1802-1829 | draining the queue runs every task once, in queue order: the filesystem is that of `Worked`, and the history gains its lines |
| Engine.Engine.LogSetupFailure | older_versions/80.py:2149-2153 | the history gains the folder-check line, the abort line and one line per folder error, in that order, under the bounded log; the filesystem, environment, queue and finished count are unchanged |
| Engine.Engine.QueueFound | older_versions/80.py:2206-2209 | a reference the catalog resolves is enqueued with the bundle's settings: the filesystem, queue and history advance by exactly one `BundleStep` |
| Engine.Engine.QueueRefAt | older_versions/80.py:2204-2212 | one pass of the reference loop takes the state of `BundleLoop` over the first `i` references to its state over the first `i + 1`, and the found or missing count grows by one |
| Engine.Engine.ProcessTracked | older_versions/80.py:1805-1829 | one more worker iteration extends the run so far: the filesystem and history become those of `Worked` over the tasks already run plus the head of the queue, which leaves the queue |
| Filter.MarkedSets | older_versions/80.py:1838-1865 | marking sets exactly the keys of the catalog to the value, and keeps every other key |
| Filter.ShowMatchesShows | older_versions/80.py:1866-1898 | the show pass sets to true exactly the shown keys and keeps every other entry |
| Filter.Filtered | older_versions/80.py:1835-1899 | `filter_models`: under an empty search the result has exactly the catalog's keys, all shown |
| Filter.FilteredVisibility | older_versions/80.py:1835-1899 | the keys of the result are exactly the catalog's keys; an empty search shows everything; otherwise a key is shown exactly when the match rules make it shown |
| Filter.FilteredShowsParent | older_versions/80.py:1866-1898 | a shown sub-category, bundle or bundle button always has its category shown |
| Filter.FilterModels | older_versions/80.py:1835-1899 | the loops compute exactly `Filtered` |
| Filter.MarkAll | older_versions/80.py:1839-1851 | the marking loop over the categories computes exactly `Marked` (used with `true` for an empty search and with `false` before the show pass, lines 1853-1865) |
| Filter.MarkOne | older_versions/80.py:1840-1851 | one category: its key, then its sub-categories or its bundles and bundle buttons, get the value, as `MarkCategory` |
| Filter.ShowAll | older_versions/80.py:1866-1898 | the show loop over the categories computes exactly `ShowMatches` |
| Filter.ShowOne | older_versions/80.py:1867-1898 | one category of the show loop computes exactly `ShowCategory` |
| Filter.ShowSubsOf | older_versions/80.py:1870-1885 | the sub-category loop shows the sub-categories `ShowSubs` shows, and the category becomes visible exactly when its own name matches or some sub-category is shown |
| Filter.ShowBundlesOf | older_versions/80.py:1886-1898 | the bundle loop shows the bundles and buttons `ShowBundles` shows, and reports whether any bundle matched |
| Filter.AnyModelMatches | older_versions/80.py:1874-1878 | the scan with `break` finds a match exactly when some model name contains the term |

## Left out

- Text: `str.lower` and `str.strip` are modelled on ASCII letters and spaces only. Unicode case folding is not modelled.
- Paths: `os.path.normpath` is modelled as splitting on `/` and dropping empty and `.` components. `..` is not collapsed.
- Paths: `sorted()` over path strings is modelled as component-wise lexicographic order. That has the same parent-before-child property but can order siblings differently from character order.
- Paths: on Windows, the join is the same component sequence. Separators are not modelled.
- Paths: an absolute `save_filename` is taken as relative to the target folder.
- FileSystem.MakeDirs, FileSystem.Remove, FileSystem.Rename: permission, read-only and disk-full errors and every other `OSError` that does not come from the shape of the tree are not modelled. In the model `MakeDirs` fails only when a file is in the way, `Remove` fails only on a path that is not a file, and `Rename` fails only on its structural conditions. The source's handlers for such errors are reached only through these structural causes: the folder check's `except OSError` (lines 1549-1552), the pre-delete warnings (lines 1690-1691 and 1697-1698), the rename failure (lines 1766-1769) and the `OS Error/Permissions` handler (lines 1793-1794). `EnsureDirs.EnsureAllSucceeds` and `EnsureDirs.EnsurePassesAgain` hold only under this abstraction.
- Resolver.FindActualCasedDirectoryComponent: an `OSError` from `os.listdir` is not modelled; the listing of an existing directory always succeeds.
- Messages: exception type names and texts appended to log lines, and the timestamps of the history entries, are left out. The history keeps entries as events rendered by `Messages.EntryText`. `print` output and the `status_updates` queue are not modelled.
- Catalog: the size data is one boolean per size key, meaning "a size greater than zero is recorded". Sizes in gigabytes and the float comparison are not modelled. The `os.path.getsize` error path is not modelled.
- Catalog: a missing optional field and the value `None` are both the empty string or `None` of `Option`.
- Catalog: a sub-category always has a model list, so one without a `"models"` key is not represented. `find_model_by_key` raises `KeyError` for it at `older_versions/80.py:1907` and logs the not-found line of 1912-1914. The filter's `.get("models", [])` at 1876 reads it as an empty list.
- Engine.BundleAfterCheck: keeps the source's count at `older_versions/80.py:2206-2209`. `queued_count` grows for every resolved reference, even when its inner `enqueue_download` aborts on its own folder check. The summary's "Queued" count can therefore exceed the tasks actually queued, which the contract states only as `|r.queued| <= |b.models| - e`. In the model the inner check fails only for structural reasons, and after a clean outer check `Engine.BundleQueuesResolvedInOrder` shows it does not fail. In the source it can fail through the non-structural `OSError`s left out above.
- Download: a snapshot fetch is one opaque fetch request. Its internal file handling is the fetch client's. The model's filesystem is unchanged by a snapshot fetch, so later tasks in `Engine.Worked` and `Engine.Engine.RunWorker` do not see the files it writes. For example, a single-file task whose final file an earlier snapshot already wrote fetches in the model, where the source would skip it.
- Download: the pre-delete branch follows the code, not its comments at `older_versions/80.py:1641` ("always delete and re-download") and 1660 ("regardless of size"). When the model is found in the catalog but its size record is missing or zero, the code skips the explicit removal (and the fetch is still forced).
- Download: the `SUCCESS` line names the final location, as the code does.
- Download: the elapsed seconds in the `SUCCESS` line (line 1787) are left out, together with the clock they come from (`time.time()` at lines 1715 and 1785). `Messages.EntryText` renders the line without the `in … seconds` part.
- Download: the `Internal logic error` branch (lines 1775-1776) cannot be reached, so it is not modelled.
- Engine: `isinstance(sub_category_info, dict)` is modelled by the `SubArg` datatype. A non-dictionary carries only its type name.
- Engine: the `CRITICAL WORKER ERROR` handler (lines 1820-1822) cannot be reached, because `Download.DownloadModel` is total and every exception it raises is caught inside it.
- Engine: threads, locks, the one-second `get` timeout and `stop_worker` are left out. The worker is a loop that drains the queue; `qsize()` is the length of the queue.
- Engine: the environment is a map of variables. Only `HF_HUB_ENABLE_HF_TRANSFER` is set or restored.
- Catalog.FindModel: the `Unexpected error` branch of `find_model_by_key` (lines 1915-1917) cannot be reached on a well-typed catalog, so it is not modelled.
- Filter: visibility keys are the `Filter.Key` datatype, not formatted strings. Two categories whose formatted keys would collide stay distinct.
- Filter: under a non-empty search, a category with neither sub-categories nor bundles is never shown, even when its name matches. This follows the code.
- The Gradio interface, the settings file and the default-path helpers are left out, because they hold no placement logic.
