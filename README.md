# backupService in Dafny

A model of the core of backupService, a file backup system. It has a Windows client and an
ASP.NET Core server.

On the client:
- The client **reconciles** a local directory tree with the server at start-up
  (`SyncEngine.SynchroniseAsync`).
- It **debounces** file-system watcher events per (path, change type).
- It queues the settled events on a pausable **action queue**, which a worker drains one action
  at a time.

On the server:
- It keeps an **append-only history** of every directory and file. A record's effective
  Modified/Deleted is read from its newest history entry.
- It resolves '/'-separated paths, creating missing directories along the way.
- It accepts **multipart uploads**: it vets the request, collects the form values, resolves
  the parent directory and adds or updates the file record.

The project is imperative where the system is:
- The debouncer, the action queue, the sync engine and the database service are classes.
- Their methods change fields, and each method is proved equal to a pure specification
  function of the old state, or states the new state outright.
- Path and string functions, decisions and histories are pure functions.
- The properties live in the members' postconditions and in lemmas.

| file | module | models |
|---|---|---|
| `wrappers.dfy` | `Wrappers` | `Option`, `Result` |
| `text.dfy` | `Text` | the used parts of `System.String` and `System.IO.Path` (Windows separators) |
| `entities.dfy` | `Entities` | `BackedUpDirectory`, `BackedUpFile` (ServerApi/Database/Model.cs) |
| `sync_engine.dfy` | `Sync` | Client/SyncEngine.cs; the server as an abstract state `Remote` |
| `sync_properties.dfy` | `SyncProperties` | what the reconciliation guarantees |
| `application.dfy` | `Application` | Client/Application.cs: the ignore filter, the debouncers, the event handlers |
| `action_queue.dfy` | `Actions` | Client/ActionQueue.cs |
| `database_service.dfy` | `Database` | ServerApi/Database/DatabaseService.cs |
| `file_controller.dfy` | `Files` | ServerApi/Controllers/FileController.cs: `MultipartRequestHelper` and `Upload` |

Conventions:
- Times are integer ticks. `MinTime` (0) stands for `DateTime.MinValue`, the default of an
  unset `DateTime`.
- A database key is the row's position plus one, as SQLite's autoincrement assigns them to
  inserts into an empty table.
- Foreign keys are enforced, as the SQLite provider does. A violating save stores nothing and
  is reported as an error value.
- The clocks are a parameter `Clock(utc, offset)`. `DateTime.Now` is `utc + offset`.
- Exceptions are `Err`/`Thrown` values.

## Model

| member | source | states |
|---|---|---|
| Text.ToUpper | ServerApi/Controllers/FileController.cs:278 | the folded character is never a lower-case ASCII letter |
| Text.ToUpperIdempotent | ServerApi/Controllers/FileController.cs:278 | folding a folded character changes nothing |
| Text.SameUpper | ServerApi/Controllers/FileController.cs:278 | two characters fold alike exactly when they are equal or one is the lower-case ASCII letter of the other |
| Text.IndexOfIgnoreCaseFrom | ServerApi/Controllers/FileController.cs:278 | the result is -1 or a match at or after `from`, and no match lies between `from` and it |
| Text.IndexOfIgnoreCase | ServerApi/Controllers/FileController.cs:278 | non-negative exactly when the pattern occurs, case-insensitively; then it is the first occurrence |
| Text.Split | ServerApi/Database/DatabaseService.cs:83 | at least one piece, and no piece contains the separator |
| Text.SplitTwo | ServerApi/Database/DatabaseService.cs:83 | two separator-free pieces joined by the separator split back into exactly those two |
| Text.SplitPlain | ServerApi/Database/DatabaseService.cs:83 | a string without the separator splits into itself alone |
| Text.JoinSplit | ServerApi/Database/DatabaseService.cs:83 | splitting loses nothing: joining the pieces with the separator gives the string back |
| Text.ReplaceChar | ServerApi/Controllers/FileController.cs:162-163 | same length; every occurrence of `from` and only those become `to` |
| Text.LastIndexWhere | Client/Application.cs:183 | the last index whose character satisfies the predicate, or -1 when none does |
| Text.FileNameShape | Client/SyncEngine.cs:89 | `Path.GetFileName` is the separator-free tail of the path, preceded by a separator unless it is the whole path |
| Text.FileNameSuffix | Client/SyncEngine.cs:89 | the file name is a suffix of the path, and a separator precedes it |
| Text.FileNameNoSeparator | Client/SyncEngine.cs:89 | the file name holds no separator |
| Text.Extension | Client/Application.cs:183 | `Path.GetExtension` is "" exactly when the file name has no '.' or ends in one; otherwise it is the tail of the file name from its last '.', which holds no further '.' |
| Text.ExtensionOfDotSuffix | Client/Application.cs:183 | a suffix of the file name that starts with its only '.' is the extension |
| Text.DirectoryPart | ServerApi/Controllers/FileController.cs:162 | `Path.GetDirectoryName` is null exactly for an empty or all-space path and "" for a path with no separator; otherwise it holds the names of the path up to the separators before the file name, with no '/' and no trailing separator |
| Text.DirectoryEnd | ServerApi/Controllers/FileController.cs:162 | -1 exactly when the path has no separator; otherwise the start of the run of separators that ends at the last one |
| Text.Collapse | ServerApi/Controllers/FileController.cs:162 | no '/', no two separators in a row, and the first and last characters are separators exactly when the input's are |
| Text.CollapseKeepsNames | ServerApi/Controllers/FileController.cs:162 | collapsing changes separators only: the names stay in order |
| Text.NamesKeepSeparatorKind | ServerApi/Controllers/FileController.cs:162-163 | replacing separators by separators keeps the names |
| Text.CollapseNormal | ServerApi/Controllers/FileController.cs:162 | a string already made of single '\\' separators collapses to itself |
| Text.NormaliseSeparators | ServerApi/Controllers/FileController.cs:162 | `NormalizeDirectorySeparators`: no '/', no doubled separator after the first position, a leading separator kept as '\\', empty only for the empty string |
| Text.DirectoryPartNames | ServerApi/Controllers/FileController.cs:162 | normalisation keeps the names and a non-separator at the end |
| Text.NamesAfterSeparator | ServerApi/Controllers/FileController.cs:162 | a leading separator contributes no name |
| Text.NamesConcat | ServerApi/Controllers/FileController.cs:162 | the names of a concatenation are the names of its parts |
| Text.TrimEndSeparatorsShape | Client/SyncEngine.cs:53 | trimming removes exactly the run of separators at the end of the path |
| Text.LastComponentShape | Client/SyncEngine.cs:53 | a directory's name (its last component) holds no separator |
| Sync.Remote.FindIndex | Client/SyncEngine.cs:144-153 | a root query finds the record its path resolves to; a (parent, name) query finds the first child of that parent with that name; no earlier record matches |
| Sync.FirstChild | Client/SyncEngine.cs:146-148 | the first directory at or after `from` with that parent id and name, and no earlier one |
| Sync.FilesOf | Client/SyncEngine.cs:63 | a listing holds exactly the remote files whose parent is the directory |
| Sync.Query | Client/SyncEngine.cs:146-148 | a directory with no parent id is looked up by its full path with '\\' turned into '/'; any other is looked up by (parent id, last component) |
| Sync.LocalNames | Client/SyncEngine.cs:122-126 | one name per local file, in order, each the file name of its path |
| Sync.FilesToDelete | Client/SyncEngine.cs:127-134 | the batch holds exactly the listed files whose name is not among the local names |
| Sync.FirstIndexByName | Client/SyncEngine.cs:90 | the first position of a file with that name, and none before it |
| Sync.FirstByName | Client/SyncEngine.cs:90 | None exactly when no listed file has the name; otherwise the first one that has it |
| Sync.UploadDecision | Client/SyncEngine.cs:87-118 | a file the listing lacks is always uploaded under the directory with its local time; a listed one is uploaded exactly when the local time is strictly later, with that time and nothing else changed |
| Sync.TrimServerUri | Client/SyncEngine.cs:25-33 | one trailing '/' is removed and nothing else changes; the empty URI throws |
| Sync.SyncEngine.constructor | Client/SyncEngine.cs:25-33 | the stored URI is the trimmed one |
| Sync.SyncEngine.GetDirectoryInfo | Client/SyncEngine.cs:144-153 | the answer is what the query resolves to, with the directory's files only when asked for |
| Sync.SyncEngine.AddDirectory | Client/SyncEngine.cs:155-166 | the server state and the answer are those of the server's AddDirectory |
| Sync.SyncEngine.UpdateDirectory | Client/SyncEngine.cs:168-174 | the server state is that of the server's UpdateDirectory for the record's id and Modified |
| Sync.SyncEngine.Upload | Client/SyncEngine.cs:176-195 | the server state and the answer are those of the server's upload: the stored record, or None for an error status |
| Sync.SyncEngine.CheckForDeletedFiles | Client/SyncEngine.cs:120-142 | one DeleteFiles request with exactly FilesToDelete, and none when that batch is empty |
| Sync.SyncEngine.UpdateFile | Client/SyncEngine.cs:87-118 | the server state and the returned record are FileUpdate's: the server's answer after an upload (None when it was refused), the listed record otherwise |
| Sync.SyncEngine.Synchronise | Client/SyncEngine.cs:51-85 | the walk produces exactly the state and the success flag `SyncRun` specifies; false is the exception a refused upload raises |
| Sync.SyncEngine.ResolveDirectory | Client/SyncEngine.cs:57-58 | the record found, or the one AddDirectory creates when the lookup finds nothing |
| Sync.SyncEngine.SynchroniseFiles | Client/SyncEngine.cs:63-70 | deletions first, then one UpdateFile per local file against the one listing, up to the first refusal |
| Sync.SyncEngine.UpdateFiles | Client/SyncEngine.cs:67-70 | the loop produces UploadRun: UpdateFile for the local files in order, ending at the first refused upload |
| Sync.SyncEngine.SynchroniseSubdirectories | Client/SyncEngine.cs:72-76 | the subdirectories are walked, in order, under the directory's id, up to the first that fails |
| Sync.ExistingFileNames | Client/SyncEngine.cs:122-126 | the loop collects LocalNames |
| Sync.CollectFilesToDelete | Client/SyncEngine.cs:127-134 | the loop collects FilesToDelete |
| Sync.FindAfterResolve | Client/SyncEngine.cs:57-63 | the second lookup of a modified directory finds the record the first resolved to |
| Sync.FindAfterAdd | Client/SyncEngine.cs:155-166 | once a directory has been added because its lookup failed, that lookup finds it |
| Sync.UploadRun | Client/SyncEngine.cs:67-118 | a failed file loop sent nothing after the upload that was refused |
| Sync.VisitRun | Client/SyncEngine.cs:57-71 | a visit that failed sent nothing after the refused upload |
| Sync.SyncRun | Client/SyncEngine.cs:51-85 | a walk that failed, here or below, sent nothing after the refused upload, so no commit of this directory |
| Sync.SyncAllRun | Client/SyncEngine.cs:72-76 | the same for the walk over subdirectories |
| Sync.UploadRunStops | Client/SyncEngine.cs:67-70 | once the file loop has failed, the remaining files change nothing |
| Sync.SyncAllRunStops | Client/SyncEngine.cs:72-76 | once a subdirectory's walk has failed, the remaining ones are not walked |
| SyncProperties.GrowsTrans | Client/SyncEngine.cs:51-85 | growth of the server (records kept, calls only appended) is transitive |
| SyncProperties.FindStable | Client/SyncEngine.cs:144-153 | a lookup that succeeded finds the same record on a grown server |
| SyncProperties.AddDirectoryFacts | Client/SyncEngine.cs:155-166 | adding keeps the server valid and appends one record with the name, the parent, no Modified and the next id |
| SyncProperties.UpdateDirectoryFacts | Client/SyncEngine.cs:168-174 | the update changes only that directory's Modified and Deleted, and logs one call |
| SyncProperties.UploadFacts | Client/SyncEngine.cs:176-195 | an upload keeps the server valid, changes no directory or root, and logs one call |
| SyncProperties.DeleteFilesFacts | Client/SyncEngine.cs:135-141 | a deletion keeps the server valid, changes no directory or root, and logs one call; each file keeps its Modified, and it is deleted exactly when it was already or the batch names its id |
| SyncProperties.ResolveFacts | Client/SyncEngine.cs:57-58 | the lookup or add yields a record the query finds, after its parent, and all earlier records stay as they were |
| SyncProperties.FileUpdateFacts | Client/SyncEngine.cs:87-118 | UpdateFile touches only file records |
| SyncProperties.UploadPassFacts | Client/SyncEngine.cs:67-70 | the upload loop touches only file records |
| SyncProperties.FilesPassFacts | Client/SyncEngine.cs:63-70 | the file pass of a modified directory touches only file records |
| SyncProperties.VisitFacts | Client/SyncEngine.cs:57-71 | before the recursion the directory's record exists and is found by its query, and earlier records are unchanged |
| SyncProperties.CommitFacts | Client/SyncEngine.cs:77-81 | the commit changes only the directory's own record, setting its Modified to the local time, and changes nothing when the directory was not modified |
| SyncProperties.UnmodifiedSkipsFiles | Client/SyncEngine.cs:59-71 | an unmodified directory has no file diffed: its file records stay as they were and the only call sent is an AddDirectory |
| SyncProperties.SynchronisedGrows | Client/SyncEngine.cs:51-85 | the walk keeps the server valid and only adds to it; records up to the parent stay as they were |
| SyncProperties.SynchronisedAllGrows | Client/SyncEngine.cs:72-76 | the same for the walk over subdirectories under parent `p` |
| SyncProperties.SynchronisedSettles | Client/SyncEngine.cs:77-81 | after the walk, the directory's record carries the local last write time (the commit comes after all children) |
| SyncProperties.SynchronisedIdempotent | Client/SyncEngine.cs:51-85 | on a converged server the walk changes nothing and sends no call |
| SyncProperties.SynchronisedAllIdempotent | Client/SyncEngine.cs:72-76 | the same for a list of converged subdirectories |
| SyncProperties.DescendsAbove | ServerApi/Database/Model.cs:110 | a record descends only from records no later than itself |
| SyncProperties.DescendsTrans | ServerApi/Database/Model.cs:110 | descent through parents is transitive |
| SyncProperties.DescendsGrow | ServerApi/Database/Model.cs:110 | descent among existing records is unchanged on a grown server |
| SyncProperties.DescendsDisjoint | ServerApi/Database/Model.cs:110 | two different children of one parent share no descendant |
| SyncProperties.ChildDescends | ServerApi/Database/Model.cs:110 | a child descends from its parent |
| SyncProperties.ChangesWithinCompose | Client/SyncEngine.cs:72-76 | changes inside a subdirectory, after changes inside its parent, are changes inside the parent |
| SyncProperties.ChangesWithinOwn | Client/SyncEngine.cs:77-81 | changing only the directory's own record is a change inside it |
| SyncProperties.SynchronisedFrame | Client/SyncEngine.cs:51-85 | the walk of a directory changes, among existing records, only its own record and records inside it |
| SyncProperties.SubtreeFrame | Client/SyncEngine.cs:57-76 | the visit and the subdirectory walk change only records inside the directory |
| SyncProperties.SynchronisedAllFrame | Client/SyncEngine.cs:72-76 | the subdirectory walk changes only records inside the parent |
| SyncProperties.ConvergedFrame | Client/SyncEngine.cs:51-85 | convergence of a directory depends only on records inside its own |
| SyncProperties.ConvergedIntro | Client/SyncEngine.cs:51-85 | a record with the local time whose subdirectories are converged is converged |
| SyncProperties.CommitKeepsChildren | Client/SyncEngine.cs:77-81 | changing only the directory's own record keeps its subdirectories converged |
| SyncProperties.SiblingKeepsConverged | Client/SyncEngine.cs:72-76 | walking one subdirectory keeps a sibling with another name converged |
| SyncProperties.SubtreeConverges | Client/SyncEngine.cs:57-76 | after the visit and the subdirectory walk, all subdirectories are converged |
| SyncProperties.SynchronisedConverges | Client/SyncEngine.cs:51-85 | after the walk of a tree with distinct sibling names, every directory in it has a record with its local last write time |
| SyncProperties.CommitConverges | Client/SyncEngine.cs:77-81 | the post-order commit completes convergence of the directory |
| SyncProperties.SynchronisedAllConverges | Client/SyncEngine.cs:72-76 | after the subdirectory walk every subdirectory is converged |
| SyncProperties.InitKeepsShape | Client/SyncEngine.cs:72 | all but the last of some siblings still have distinct names |
| SyncProperties.LastSubdirectoryConverges | Client/SyncEngine.cs:72-76 | walking the last subdirectory converges it and changes only records inside it |
| SyncProperties.SiblingsStayConverged | Client/SyncEngine.cs:72-76 | walking the last subdirectory keeps its earlier siblings converged |
| SyncProperties.UploadRunOk | Client/SyncEngine.cs:67-70 | on a valid server that refuses no path, the file loop of a known directory over listed records goes through and is UploadPass |
| SyncProperties.VisitRunOk | Client/SyncEngine.cs:57-71 | the visit then goes through and is Visit |
| SyncProperties.SyncRunOk | Client/SyncEngine.cs:51-85 | the walk then goes through and is Synchronised, so the convergence and idempotence lemmas are about the walk itself |
| SyncProperties.SyncAllRunOk | Client/SyncEngine.cs:72-76 | the same for the walk over subdirectories |
| SyncProperties.UploadRunGrows | Client/SyncEngine.cs:67-70 | the file loop, stopped or not, keeps the server valid and changes only file records |
| SyncProperties.VisitRunGrows | Client/SyncEngine.cs:57-71 | the visit, stopped or not, leaves the directory's record found by its query, after its parent, and earlier records as they were |
| SyncProperties.SyncRunGrows | Client/SyncEngine.cs:51-85 | the walk, stopped or not, keeps the server valid, only adds to it, and leaves the records up to the parent as they were |
| SyncProperties.SyncAllRunGrows | Client/SyncEngine.cs:72-76 | the same for the walk over subdirectories |
| SyncProperties.FailedWalkSkipsCommit | Client/SyncEngine.cs:72-81 | a walk that fails, in its own files or in a subdirectory, leaves the directory's record as the visit found it: a modified directory's Modified is not advanced |
| SyncProperties.CompletedWalkCommits | Client/SyncEngine.cs:77-81 | a walk that goes through leaves the directory's record with the local last write time |
| SyncProperties.RefusedUploadStopsWalk | Client/SyncEngine.cs:51-118 | a first walk of a root whose subdirectory holds a refused file fails, and the root keeps no Modified |
| SyncProperties.RestoredFileNotUploadedAgain | Client/SyncEngine.cs:107-116 | a root holding "f" uploaded at 100: a run without the local file deletes it and commits the root; a run with "f" restored at 100 uploads nothing and only commits the root, so the server keeps "f" deleted with Modified 100 |
| SyncProperties.DeletionRun | Client/SyncEngine.cs:120-142 | the first run of that example: one DeleteFiles with "f", which keeps its Modified, then the commit |
| SyncProperties.RestoreRun | Client/SyncEngine.cs:107-116 | the second run of that example: the listed "f" is not older than the local file, so the run sends only the commit |
| Application.Debouncer.constructor | Client/Application.cs:196-199 | no window is pending, no timer exists and nothing has been raised |
| Application.Debouncer.Start | Client/Application.cs:208-226 | reports true exactly when no window is pending for (path, change type). Then it arms one new timer carrying the payload. Otherwise it replaces only the payload, keeps the timer and resets nothing. Other keys are untouched |
| Application.Debouncer.DebouncerCallback | Client/Application.cs:228-238 | removes the key's window and raises its latest payload; with no window nothing changes |
| Application.Burst | Client/Application.cs:201-238 | a burst of events on one key starts one window and one timer, raises one notification with the last payload, and a later Start reports true again |
| Application.DistinctKinds | Client/Application.cs:211 | the same path with two change types gets two independent windows; firing one leaves the other pending |
| Application.DictionaryKey.constructor | Client/Application.cs:253-257 | the key holds the path and change type |
| Application.ReferenceKeyDebouncer.constructor | Client/Application.cs:196-199 | no window is pending |
| Application.ReferenceKeyDebouncer.Start | Client/Application.cs:208-226 | as written: the fresh key is never found, so every call reports true and arms a new timer |
| Application.ReferenceKeysNeverCoalesce | Client/Application.cs:211-222 | as written, two events on the same path and change type leave two windows and two timers |
| Application.IgnoredExactly | Client/Application.cs:177-187 | a path is ignored exactly when its file name is the client database's or ends in ".db-journal" |
| Application.IgnoredFiles | Client/Application.cs:177-187 | in any directory the client database and its journal are ignored, and a ".txt" file is not |
| Application.DatabaseIgnored | Client/Application.cs:179-180 | the client database file is ignored by its name |
| Application.JournalIgnored | Client/Application.cs:183-184 | the SQLite journal is ignored by its ".db-journal" extension |
| Application.TextFileNotIgnored | Client/Application.cs:177-187 | a ".txt" file is neither the database nor a journal |
| Application.FileNameOfChild | Client/Application.cs:179 | the file name of `dir\name` is `name` when `name` holds no separator |
| Application.LastIndexOfChar | Client/Application.cs:183 | the last '.' of a string is found where it is |
| Application.App.constructor | Client/Application.cs:16-28 | two distinct, empty debouncers and a debounce time of 10000 ms |
| Application.App.WatcherModified | Client/Application.cs:141-146 | an ignored path leaves the debouncer untouched. Any other event is pending with its payload: a new window gets the next timer, a pending one keeps its timer, and other keys are untouched |
| Application.App.WatcherRenamed | Client/Application.cs:134-139 | the same filter and window facts, into the renamed debouncer |
| Application.App.ModifiedDebounced | Client/Application.cs:163-175 | a settled event becomes one action queued at the tail, stamped with the current time |
| Application.App.RenamedDebounced | Client/Application.cs:148-161 | only a rename becomes an action, keeping both paths |
| Application.App.ModifiedTimerElapsed | Client/Application.cs:228-238 | the key's window, and only it, closes. With a window, exactly one action carrying the latest payload is queued; without one nothing is raised or queued |
| Application.App.RenamedTimerElapsed | Client/Application.cs:228-238 | the same window facts for the renamed debouncer; only a rename payload is queued, anything else leaves the queue as it was |
| Actions.CreatedRecord | Client/ActionQueue.cs:54-58 | the uploaded record has no id and no parent; Modified is the action's time and Name the path's last component |
| Actions.Dispatch | Client/ActionQueue.cs:51-64 | uploads exactly for Created actions, with the action's path; every other kind is only logged |
| Actions.ActionQueue.constructor | Client/ActionQueue.cs:19-23 | a new queue is paused and empty |
| Actions.ActionQueue.Initialise | Client/ActionQueue.cs:25-29 | the worker runs |
| Actions.ActionQueue.Add | Client/ActionQueue.cs:33-36 | appends the action at the tail and changes nothing else |
| Actions.ActionQueue.SetPaused | Client/ActionQueue.cs:31 | sets only the flag |
| Actions.ActionQueue.Step | Client/ActionQueue.cs:38-81 | a paused or empty queue is unchanged. Otherwise exactly the head is removed and dispatched. A throwing upload ends the worker, and an ended worker does nothing |
| Actions.PausedThenDrained | Client/ActionQueue.cs:33-69 | actions queued while paused survive any number of steps, and after unpausing are dispatched one by one, oldest first |
| Actions.ExceptionEndsWorker | Client/ActionQueue.cs:40-79 | after one throwing upload the rest stays queued and every later step does nothing |
| Database.Pick | ServerApi/Database/DatabaseService.cs:116-117 | the entry picked belongs to the record |
| Database.PickSpec | ServerApi/Database/DatabaseService.cs:116-117 | `OrderByDescending(LastSeen).FirstOrDefault` finds an entry exactly when the record has one, and it is the first entry with the greatest key |
| Database.PickUnique | ServerApi/Database/DatabaseService.cs:116-117 | the first entry with the greatest key is the one picked |
| Database.NewestEntryWins | ServerApi/Database/DatabaseService.cs:163-166 | an entry later than all earlier ones of its record is picked |
| Database.ShadowedEntry | ServerApi/Database/DatabaseService.cs:163-166 | an entry no later than an earlier one of its record changes nothing the lookup sees |
| Database.OtherEntries | ServerApi/Database/DatabaseService.cs:163-166 | entries of other records leave a record's pick unchanged |
| Database.RecordedAppend | ServerApi/Database/DatabaseService.cs:56-61 | appending entries keeps every record recorded |
| Database.Entries | ServerApi/Database/DatabaseService.cs:291-296 | one entry per id, in order, with the given Modified, time and Deleted |
| Database.FirstDirectory | ServerApi/Database/DatabaseService.cs:91-92 | the first row with that name and parent id, and none before it |
| Database.AddRowValid | ServerApi/Database/DatabaseService.cs:95-108 | a new directory under an existing parent, with its entry, keeps the tables valid |
| Database.FirstDirectoryAppend | ServerApi/Database/DatabaseService.cs:95-100 | a directory that was missing is found at the end once appended |
| Database.WalkStepFacts | ServerApi/Database/DatabaseService.cs:91-110 | one component: the directory is found, or created with exactly one entry at the default Modified and the current time; rows are only appended |
| Database.CreatedEntriesStep | ServerApi/Database/DatabaseService.cs:101-107 | the entries of the created directories, in creation order |
| Database.WalkKeepsValid | ServerApi/Database/DatabaseService.cs:89-111 | the walk keeps the tables valid and only appends rows |
| Database.WalkHistory | ServerApi/Database/DatabaseService.cs:89-111 | every directory the walk creates gets exactly one entry, in creation order, and nothing else is added |
| Database.WalkExisting | ServerApi/Database/DatabaseService.cs:89-111 | walking an existing path creates nothing and reaches the directory it names |
| Database.FirstDirectoryStable | ServerApi/Database/DatabaseService.cs:91-92 | a directory found is still the first match after rows are appended |
| Database.WalkFinds | ServerApi/Database/DatabaseService.cs:89-111 | after the walk, the path names exactly the directory the walk returned, which exists whenever there is a component |
| Database.StepFinds | ServerApi/Database/DatabaseService.cs:91-110 | one component of the walk ends at a directory of that name under the current parent, found or appended, and no row is removed |
| Database.WalkRowsGrow | ServerApi/Database/DatabaseService.cs:89-111 | the walk removes no directory row |
| Database.LookupNamesLast | ServerApi/Database/DatabaseService.cs:89-111 | the directory a path names carries the path's last component as its name |
| Database.WalkIdempotent | ServerApi/Database/DatabaseService.cs:81-144 | a second GetDirectory(path) creates nothing and returns the same directory |
| Database.ChildFilesSound | ServerApi/Database/DatabaseService.cs:122-130 | every file loaded is a file of the directory, with the Modified of its entry ordered by Modified |
| Database.ChildFilesComplete | ServerApi/Database/DatabaseService.cs:122 | every file of the directory is loaded |
| Database.ChildDirectoriesSound | ServerApi/Database/DatabaseService.cs:131-140 | every subdirectory loaded is a child of the directory, with the Modified of its entry ordered by Modified |
| Database.ChildDirectoriesComplete | ServerApi/Database/DatabaseService.cs:131-132 | every child of the directory is loaded |
| Database.ModifiedByModifiedIsGreatest | ServerApi/Database/DatabaseService.cs:125-129 | a child loaded with children carries the greatest Modified among its entries |
| Database.FirstFile | ServerApi/Database/DatabaseService.cs:257 | the first file row with that name and parent, and none before it |
| Database.Ids | ServerApi/Database/DatabaseService.cs:291-296 | the ids of the batch, in order |
| Database.DatabaseService.constructor | ServerApi/Database/DatabaseService.cs:35-38 | EnsureCreated on a fresh database: all tables empty |
| Database.DatabaseService.DirectoryRecord | ServerApi/Database/DatabaseService.cs:163-166 | a looked-up directory carries its row's name and parent, and the Modified and Deleted of its entry with the greatest LastSeen |
| Database.DatabaseService.FileRecord | ServerApi/Database/DatabaseService.cs:262-265 | the same for a file |
| Database.DatabaseService.AddDirectory | ServerApi/Database/DatabaseService.cs:51-64 | adds the row and exactly one entry carrying its Modified at the current time; an unknown parent stores nothing |
| Database.DatabaseService.LookupOrCreate | ServerApi/Database/DatabaseService.cs:91-110 | one iteration of the path walk, as WalkStep specifies |
| Database.DatabaseService.GetDirectory | ServerApi/Database/DatabaseService.cs:81-144 | the tables and the directory returned are those of walking the '/'-split path from the roots. The directory carries its newest entry. Its children are loaded exactly when asked for |
| Database.DatabaseService.GetDirectoryByName | ServerApi/Database/DatabaseService.cs:146-170 | null exactly when no directory has that name and parent; otherwise the first such row, with its newest entry; with children, exactly the directory's files and subdirectories, the subdirectories with no Modified |
| Database.DatabaseService.UpdateDirectoryAsWritten | ServerApi/Database/DatabaseService.cs:198-219 | appends one entry carrying Modified, stamped with UTC time; no row changes |
| Database.DatabaseService.UpdateDirectory | ServerApi/Database/DatabaseService.cs:198-219 | appends one entry carrying Modified, stamped with local time; no row changes |
| Database.DatabaseService.AppendDirectoryEntry | ServerApi/Database/DatabaseService.cs:211-217 | exactly one entry appended, or none for an unknown directory |
| Database.DatabaseService.AddFile | ServerApi/Database/DatabaseService.cs:221-242 | a file with ParentId <= 0 is refused; otherwise the row and exactly one entry are added; an unknown parent stores nothing |
| Database.DatabaseService.GetFileAsWritten | ServerApi/Database/DatabaseService.cs:252-268 | as written: a null-reference failure exactly when no file matches, otherwise the intended answer |
| Database.DatabaseService.GetFile | ServerApi/Database/DatabaseService.cs:252-268 | null exactly when no file has that name and parent; otherwise the first such file, with its newest entry |
| Database.DatabaseService.UpdateFile | ServerApi/Database/DatabaseService.cs:270-285 | appends exactly one entry carrying Modified; no row changes |
| Database.DatabaseService.DeleteFiles | ServerApi/Database/DatabaseService.cs:287-299 | one Deleted entry per file, in order, and no row removed; a batch naming an unknown file stores nothing |
| Database.UtcUpdateIsLost | ServerApi/Database/DatabaseService.cs:215 | east of UTC, an update soon after creation is shadowed: the lookup still reports the old Modified |
| Database.NowUpdateIsSeen | ServerApi/Database/DatabaseService.cs:215 | stamped with local time, the same update is seen |
| Database.UpdateIsSeen | ServerApi/Database/DatabaseService.cs:211-217 | once the clock has passed every entry of the directory, the update's entry is the one lookups pick |
| Database.MissingFile | ServerApiTests/DatabaseTests.cs:31-39 | on an empty database GetFile throws as written and answers null as intended |
| Database.NestedDirectories | ServerApiTests/DatabaseTests.cs:86-113 | the path of the middle of three nested directories finds it, without children or with its one file and one subdirectory |
| Database.NestedLookup | ServerApiTests/DatabaseTests.cs:107 | "top/middle" names the second directory |
| Database.NestedChildren | ServerApiTests/DatabaseTests.cs:111-113 | the middle directory has exactly the one file and the one subdirectory |
| Database.ServiceHost.constructor | ServerApi/Database/DatabaseService.cs:41-49 | no service yet |
| Database.ServiceHost.Start | ServerApi/Database/DatabaseService.cs:41-49 | true exactly on the first call, which creates the service; later calls keep it |
| Files.RemoveQuotes | ServerApi/Controllers/FileController.cs:260 | one pair of surrounding quotes removed; null stays null; an unquoted value is unchanged |
| Files.GetBoundary | ServerApi/Controllers/FileController.cs:258-273 | accepted exactly when the unquoted boundary is neither null, white space nor longer than the limit, and then returned unchanged; each refusal names its reason |
| Files.QuotedBoundary | ServerApi/Controllers/FileController.cs:260 | a quoted boundary is the same boundary as sent bare |
| Files.MultipartExactly | ServerApi/Controllers/FileController.cs:275-279 | a content type is multipart exactly when "multipart/" occurs in it, ignoring case |
| Files.DispositionsPartition | ServerApi/Controllers/FileController.cs:281-297 | a section is never both a form value and a file, and every form-data section is one of them |
| Files.FormValue | ServerApi/Controllers/FileController.cs:132-135 | "undefined", in any case, is stored as the empty string; any other value unchanged |
| Files.ReadFormFacts | ServerApi/Controllers/FileController.cs:103-149 | a form read holds one value per form-data section and no more than the limit. No value is "undefined". It has a file exactly when some section names one |
| Files.TooManyExactly | ServerApi/Controllers/FileController.cs:138-141 | with named form values, the loop throws exactly when there are more of them than the limit |
| Files.ReadSections | ServerApi/Controllers/FileController.cs:103-149 | the section loop yields ReadForm: the accumulated form, or the first failure |
| Files.StopsThere | ServerApi/Controllers/FileController.cs:138-141 | a failure in one section is the loop's outcome |
| Files.FailureIsFinal | ServerApi/Controllers/FileController.cs:103-149 | a failure stays the outcome whatever sections follow |
| Files.Values | ServerApi/Controllers/FileController.cs:154 | no values exactly when no entry has the key, ignoring case |
| Files.ParentPath | ServerApi/Controllers/FileController.cs:162-163 | null exactly for an empty or all-space path; otherwise the directory part with every separator '/' and no '\\', no doubled '/' after the first position, "" without a separator, and else the names of the path up to the separators before the file name, with no trailing '/' |
| Files.ResolveParent | ServerApi/Controllers/FileController.cs:158-167 | a record with ParentId 0 and a "path" value gets the id that GetDirectory(path) walks to; the database changes as that walk specifies; any other record is left as it is |
| Files.StoreRecord | ServerApi/Controllers/FileController.cs:192-199 | a record with Id > 0 is an update (one entry, no row); any other record is an add (one row, one entry); an add under an unknown parent is a foreign-key failure that stores nothing |
| Files.Upload | ServerApi/Controllers/FileController.cs:86-219 | a non-multipart request is a bad request; a boundary or form failure throws; no decodable record throws; a ParentId still 0 throws. A failed bind is a bad request when the model is invalid and answers the record unstored otherwise. A refused store is a bad request with its reason and no new file history. An accepted store adds exactly one file entry, then a taken destination or a missing file is a bad request, and otherwise the record is answered with its stored id |

## Left out

- HTTP transport and filesystem access are not modelled: `PingAsync` and `GetFromPost`, the
  temp-file copy and move, and `Directory.GetLastWriteTimeUtc`/`GetFiles`/`GetDirectories`.
  - The local tree and its timestamps are an input value.
  - The server is the abstract state `Sync.Remote`. Its log of calls replaces the requests.
- Threads, timers, `ConcurrentDictionary`, `ConcurrentQueue`, `Task.Delay` and cancellation
  are not modelled. Instead:
  - a timer elapsing is the explicit step `DebouncerCallback(key)`;
  - the worker loop is one `Step` per iteration;
  - the event interleavings a real timer allows are not covered.
- `DateTime.Now`/`UtcNow` are the parameter `Clock`. The debounce duration does not affect the
  model.
- EF Core's change tracking is not modelled. When `Id` is read before `SaveChanges`
  (DatabaseService.cs:58, :103, :233), the model assumes EF's temporary-key fix-up, so each
  history row refers to its new record.
- The EF provider configuration, `DropDB`, MySQL, `InitDatabaseAsync`, `Startup.cs`,
  `Program.cs`, `UtilsController` and `DirectoryController` are left out as plumbing. The
  constructor of `DatabaseService` starts from empty tables.
- Depth, Hash and the navigation properties (`Parent`, `History`) are not modelled. `includeParent`
  only loads a navigation property and changes no value the model has.
- The model does not cover `GetFile(id)`, `GetDirectory(id)`, `DirectoryCount` or `FileCount`.
  These are single lookups by key.
- Database.DatabaseService.AddDirectory, Database.DatabaseService.AddFile: an `Id` the caller
  sets is ignored, and the new key is the next position.
- Ties between history entries with equal keys are broken as LINQ's stable sort breaks them:
  the earliest entry wins.
- Text.DirectoryPart: follows `Path.GetDirectoryName` of .NET Core 2.1 and later on Windows.
  Volume roots ("C:\") and UNC prefixes are not special: a path that is only a root yields its
  prefix instead of null, and a file directly under a root keeps no trailing separator
  ("C:\a.txt" gives "C:", where .NET gives "C:\", so Files.ParentPath yields "C:" and the walk
  has the one component "C:" instead of "C:" and ""). Its contract states the names and separators of the result, not the
  result character by character.
- Application.Debouncer.Start, Application.Debouncer.DebouncerCallback, Application.Burst,
  Application.DistinctKinds and the Application.App handlers use the key compared by value
  (path and change type), the coalescing the comment at Client/Application.cs:201-207
  describes. The key as written is compared by reference and never found again; that
  behaviour is Application.ReferenceKeyDebouncer (see ## Findings).
- Text.FileName: only '\\' and '/' end the file name. `Path.GetFileName` on Windows also stops
  at the volume separator ':' ("C:a.txt" gives "a.txt"); the client passes it full paths of
  files inside a directory, in which a ':' can only follow the drive letter.
- Text.ToUpper: only ASCII letters are case-folded. Ordinal case-insensitive comparison of
  other letters is not modelled.
- Text.LastComponent: `PathUtils.DirectoryName` is modelled as the last path component with
  trailing separators ignored. The full `DirectoryInfo` normalisation is not modelled.
- Files.Upload: these are inputs:
  - `MediaTypeHeaderValue.Parse`, reduced to the boundary parameter it yields;
  - the JSON deserialiser, a function parameter;
  - the outcome of `TryUpdateModelAsync`, as a flag only: the binding is taken to change no
    field of the record. The framework may also overwrite Id, ParentId, Name or Modified from
    form keys of the same names (ServerApi/Controllers/FileController.cs:177-178), after the
    ParentId check and before the Id branch; the client sends only "backedUpFile", "path" and
    the file section, so on the synchronisation none of these keys comes;
  - whether the destination file exists.
  The backed-up file's name (`hist.Id`) is not modelled; the model keeps no key for history rows.
  Section bodies are strings (no encodings or streams).
- Files.Upload: its contract states the directory tables after the parent's resolution and the
  file history after the store. It does not restate the file row an add appends; that row is
  stated by Files.StoreRecord.
- `FileController.Get`, `Get(id)`, `Post` and `DeleteMany` are left out as thin wrappers over
  the database calls modelled here.
  `DisableFormValueModelBindingAttribute` is left out as framework configuration.
- `DataUtils.MD5Hash` is not modelled (foreign cryptography).
- The test `GetNotExistingFileAndDir` (ServerApiTests/DatabaseTests.cs:37-38) expects
  `GetDirectory(path)` to return null for a missing path. The code creates the missing
  directories and returns the last one, and the model follows the code.
- Sync.SyncEngine.constructor: it requires a non-empty URI. The exception the empty URI
  causes is stated by Sync.TrimServerUri.
- Actions.ActionQueue.Step: the upload's effect on the server is not applied here. Step returns
  it as an outcome. The record it uploads is Actions.CreatedRecord, with ParentId 0, which the
  server resolves from the "path" value (Files.ResolveParent); Sync.Remote.Upload, which refuses
  ParentId 0, is not the model of this call.
- Sync.Remote: the server as the synchronisation sees it is idealised, and the convergence and
  idempotence lemmas hold against this server only:
  - a root looked up by its path always exists afterwards, since the server's path lookup
    creates the missing directories (Database.DatabaseService.GetDirectory), so that lookup is
    never null;
  - Sync.Remote.UpdateDirectory makes the sent Modified the effective one, as the corrected
    Database.DatabaseService.UpdateDirectory does when the clock has passed every earlier
    entry (Database.UpdateIsSeen); as written, the UTC stamp can lose it (Database.UtcUpdateIsLost);
  - a directory found by (parent, name) lists its files with their stored Modified, as the path
    lookup loads them (ServerApi/Database/DatabaseService.cs:122-130): the newest Modified of
    the file's history, which a Deleted entry (default Modified) does not replace; a file's
    Deleted flag is the model's own record of the history and the client never reads it; the
    name lookup as written
    (ServerApi/Database/DatabaseService.cs:154-158) leaves each file's Modified at the default,
    so against it every file of a modified subdirectory is uploaded again;
  - Sync.Remote.Upload refuses ParentId 0, which the client never sends, while the server would
    resolve it from "path";
  - the only request that can fail is an upload, for a path in `refusing`, or for an unknown id
    or parent. AddDirectory, UpdateDirectory and DeleteFiles always succeed: on the walk they
    are sent only for records the server has just named. A failure of one of these, or of a
    lookup, is not modelled.
- Sync.SyncEngine.GetDirectoryInfo: the answer is the idealised server's lookup, with the
  caveats under Sync.Remote; the HTTP request and the JSON encoding are not modelled.
- Sync.SyncEngine.UpdateDirectory: the server's effect is that of the idealised
  Sync.Remote.UpdateDirectory; the record the server answers with is not returned, as the
  walk ignores it.

## Findings

| source | as written | input that shows it | evidently intended | confidence | as-written member | corrected member |
|---|---|---|---|---|---|---|
| ServerApi/Database/DatabaseService.cs:215 | UpdateDirectory stamps its history entry with `DateTime.UtcNow`, while every other entry uses `DateTime.Now`, and lookups pick the entry with the greatest LastSeen | local time 60 ticks ahead of UTC: a directory created at UTC 1000 with Modified 5 (entry stamped 1060), then updated at UTC 1010 with Modified 9 (entry stamped 1010); the lookup still reports 5 | the update's entry is the newest one, and the lookup reports Modified 9 | not executed | Database.UtcUpdateIsLost | Database.NowUpdateIsSeen |
| ServerApi/Database/DatabaseService.cs:262-265 | GetFile(name, parentId) reads `file.Id` and sets `file.Modified` even when no file matched | GetFile("doesnotexist", 1) on an empty database: a NullReferenceException | null, as ServerApiTests/DatabaseTests.cs:34-35 asserts | not executed | Database.DatabaseService.GetFileAsWritten | Database.DatabaseService.GetFile |
| Client/Application.cs:253-257 | DictionaryKey overrides neither Equals nor GetHashCode, so the `TryGetValue` at line 212 never finds the fresh key | two Changed events on one path within the debounce time: both calls start, leaving two windows and two timers | one window per (path, change type), its payload replaced, as the comment at lines 201-207 promises | not executed | Application.ReferenceKeysNeverCoalesce | Application.Burst |
