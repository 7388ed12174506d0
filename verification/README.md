# pimsync in Dafny

pimsync keeps pairs of calendar and address-book storages synchronised. The synchronisation
algorithm is in the `vstorage` library; what the program itself has to get right is what this project
models and proves:

- start-up, where many concurrent pair tasks share lazily initialised storages;
- reading the configuration: which pairs and storages are selected, which commands are run;
- repairing items without a UID, so that UIDs stay unique;
- resolving conflicts with the user;
- running a synchronisation once, and the daemon that runs it for ever.

`vstorage`, the user, external commands and the clock are parameters: functions that may answer
anything, or anything within a law stated where it is used. Nothing of them is fixed, so each theorem
holds for every behaviour they may have.

## Layout

| files | contents |
|---|---|
| `Wrappers`, `Text`, `Counter`, `Vstorage`, `Plans` | options and results, strings, the wrapping counter, storages with conditional updates, plans |
| `Scfg`, `Cli`, `Config`, `Storages` | scfg blocks taken apart in place, name filters, `parse_config`, `parse_storages` |
| `ConfigTheorems`, `ParseOutcomes` | what a parsed configuration is, and when there is one, in terms of the file |
| `Startup`, `StartupSafety`, `StartupTheorems`, `Program` | start-up as a transition system, its invariant, its theorems, and parsing and start-up together |
| `Repair`, `RepairTheorems`, `RepairOutcomes`, `RepairTasks` | repairing one storage, what it leaves behind, what becomes of each item, and many storages at once |
| `Prompt`, `Conflict`, `ConflictTheorems`, `Property`, `Resolution` | questions, item conflicts, property conflicts, and both for one pair |
| `Sync`, `SyncTheorems`, `SyncHistories` | one synchronisation of all pairs, and what its history of events shows |
| `Daemon` | the daemon's loop beside two storages that anybody may change |

Code that changes things step by step is given as methods of classes (`Scfg`, `FilterNames`, `Shell`,
`Storage`, `PropertyStorage`, `Counter`, `Clock`, `Input`, `Editor`, `Log`) and as loops, each proved
equal to a function on values; the theorems are about those functions. Code whose point is concurrency
is given as transition systems, with one step for each stretch that nobody else can observe half-done:

| transition system | step | source |
|---|---|---|
| `Startup` | `Spawn` | `src/config.rs:98-106` |
| | `Lock` (the first critical section, in its three branches) | `src/config.rs:232-241`, `src/config.rs:266-269`, `src/config.rs:278` |
| | `Build` (`init_storage`) | `src/config.rs:245-250` |
| | `Publish` | `src/config.rs:253-256` |
| | `Notify` | `src/config.rs:259-264` |
| | `Wake`, `Relock` | `src/config.rs:271-276` |
| | `Conclude` (the rest of a pair's block, and the item kinds) | `src/config.rs:110-174` |
| | `Abort`, `Join`, `Exit` | `src/config.rs:179-189` |
| `RepairTasks` | one contact with a storage or the counter | `src/repair.rs:42-106` |
| `DaemonRuns` | `Change`, `Tick` (a monitor's event without a change) | `pimsync.conf.5:72-74` |
| | `MonitorStarts`, `StatusOpens` | `src/main.rs:210-223` |
| | `Take` | `src/main.rs:228-237` |
| | `Read`, `PlanFails`, `PlanReady` | `src/main.rs:241-243`, `src/main.rs:260` |
| | `Execute` | `src/main.rs:245-257` |

A `try_join!` that fails drops its other call in the same step (`Startup.Fail`), leaving the cell as it
is; that is how a storage can stay `Initialising` for ever.

## Where code and documentation disagree

The model follows the code.

- `get_storage` is documented to fail only when `init_storage` does (`src/config.rs:224-227`); it also
  fails for a name that is not defined (`src/config.rs:232-234`). `Program.NotDefinedIsTrue` says when.
- `parse_storages` is meant to run all commands before any storage is contacted
  (`src/config.rs:993`), but spawns initialisations inside that loop (`src/config.rs:1006-1011`).
  `NamedStorages.CommandsBeforeInitialisationExactly` says when the intention is met, and
  `NamedStorages.SecondCommandIsLate` gives a file for which it is not.
- `FilterNames::wants` is documented to answer `false` the second time it is asked for a name
  (`src/cli.rs:45-47`); without a filter it always answers `true` (`Cli.FilterNames.Wants`).
- A merge is documented to need identical files (`src/conflict.rs:244-247`); they need to be equal only
  up to blanks around, and A's is taken (`ItemConflicts.RunMergeCommand`).
- "No conflicts left" (`src/conflict.rs:78`) is also printed after conflicts were skipped.
  `InteractiveResolution.NoConflictsLeftExactly` says when it is true,
  `InteractiveResolution.DeclinedIsLeft` gives a run in which it is not.
- A failed repair or synchronisation is reported by a 32-bit counter that wraps around: 2^32 failures
  are a success (`RepairTasks.WrapAroundReportsSuccess`, `SyncTheorems.FullTurnSucceeds`).
- The daemon is documented to retry failed operations later (`pimsync.1:94-95`). It does so only at the
  next event, if there is one: neither a plan that cannot be made (`src/main.rs:260`) nor operations
  that fail (`src/main.rs:256`) leave anything to have them tried again
  (`DaemonRuns.FailedPlanLosesChange`, `DaemonRuns.FailedExecutionIsNotRetried`), and
  `DaemonRuns.LeftBehindExactly` says when that leaves changes behind. The first synchronisation, too,
  waits for an event (`src/main.rs:208-228`, `DaemonRuns.FirstSyncWaits`).

## Model

| member | source | states |
|---|---|---|
| StartupTheorems.RefinesSequential | src/config.rs:91-190 | Under every interleaving and cancellation, start-up returns Ok exactly when setting up the pairs one after another, opening each storage once, does; then with the same pairs, in joining order; an error is always the error of some pair |
| StartupTheorems.SucceedsExactly | src/config.rs:98-189 | Start-up returns Ok if and only if the status directory expands and for every pair the block is in order, both storages are defined and initialise, and the item kinds agree; the result is one pair for each block, with the storages, intervals and options of that block |
| StartupTheorems.FailsForAReason | src/config.rs:98-189 | When start-up fails, the error is what is wrong with the status directory or with some pair: its block, an undefined storage, one that does not initialise, its other directives, or calendar mixed with contacts, each named as such |
| StartupTheorems.ReasonExactly | src/config.rs:101-174 | The errors a pair can end with are exactly those reasons, in that order |
| StartupTheorems.EveryMaximalRunReturns | src/config.rs:179-190 | A run that cannot go on has returned, with the verdict of the sequential start-up, and no pair is left running |
| StartupTheorems.Progress | src/config.rs:91-281 | Until the supervisor has returned, some step is possible: start-up is never stuck, although a failed initialiser notifies nobody |
| StartupTheorems.Terminates | src/config.rs:91-281 | No schedule is longer than fourteen steps a pair and two more |
| StartupTheorems.StepDecreases | src/config.rs:91-281 | Every single step, of whichever thread, uses up a well-founded measure |
| StartupTheorems.NoLostWakeup | src/config.rs:252-271 | Whoever waits holds a ticket older than the one notification of the run it waits for; that came, or the run is still to publish or to notify, or its owner failed |
| StartupTheorems.StrandedForever | src/config.rs:248-250 | After an initialiser failed or was dropped its waiters are never woken in any continuation, and its owner's error is there for the join loop, which returns it |
| StartupTheorems.BlockedByFailure | src/config.rs:271-276 | A waiting call never halts start-up: it, the run it waits for, or the joining of that run's failure can go on |
| StartupTheorems.UnreachableBranches | src/config.rs:245-275 | In every run the three `unreachable!` branches are unreachable: the taken value was Raw, the publisher finds Initialising, a woken waiter finds Ready |
| StartupTheorems.InitialisedAtMostOnce | src/config.rs:219-221 | No two executions of the initialising branch are for one storage, at any time, also within one pair |
| StartupTheorems.SuccessSharesStorages | src/config.rs:219-281 | On success every storage that a pair names was initialised exactly once, no other was, and two users hold the same object exactly when they name the same storage |
| StartupSafety.StepKeeps | src/config.rs:91-281 | Every step of every thread keeps the invariant that ties cells, runs, calls, results and the supervisor together |
| Program.NotDefinedIsTrue | src/config.rs:232-234 | "Not defined" is reported only for a storage that a selected pair names and that no storage directive of the file defines |
| Program.NamesRecorded | src/config.rs:101-102 | Start-up reads for each side of a pair the storage name that parsing read and recorded for it |
| Program.RunningPairs | src/config.rs:895-981 | When start-up succeeds exactly the requested pairs (all defined ones without a filter) run, each once |
| Config.ParseConfig | src/config.rs:895-981 | The verdict, the configuration and the commands run are those of the specification `Parse`, which the theorems below are about |
| ParseOutcomes.ParsesExactly | src/config.rs:895-981 | Parsing succeeds if and only if the status path is given and resolves, every pair directive has one name that repeats no selected one, every selected pair names two storages in a block, every requested name is defined, every storage directive has one name, and every enabled one has a block of known type whose fields resolve one after the other; the status path is then its parameter or its command's trimmed output |
| ParseOutcomes.SelectsExactly | src/config.rs:912-950 | Selecting succeeds if and only if the pair directives are so, and enables exactly the storages that the wanted ones name first |
| ParseOutcomes.LoadsExactly | src/config.rs:956-972 | Loading succeeds if and only if the storage directives are so |
| ParseOutcomes.StorageResolvesExactly | src/config.rs:1077-1098 | A storage's commands resolve if and only if its type is known and its fields resolve one after the other |
| Config.TakePairs | src/config.rs:912-950 | The loop over pair directives selects, consumes the filter, and fails as `SelectPairs` |
| Config.TakeStorages | src/config.rs:956-972 | The loop over storage directives loads enabled storages only, running their commands in order, stopping at the first failure |
| Config.ResolveStorageCmds | src/config.rs:1077-1098 | In place, each field of the storage's type is resolved in order, stopping at the first failure; the block and the commands run are those of `ResolveStorage` |
| ConfigTheorems.FilteringIsRestriction | src/config.rs:895-981 | A filter of defined names gives exactly what no filter gives on the file without the other pairs: pairs, storages, commands run, and errors, duplicate definitions included |
| ConfigTheorems.UndefinedNameRejected | src/config.rs:952-954 | A requested pair that is not defined is always an error, and one that names exactly the undefined names unless something else is wrong |
| ConfigTheorems.ExactSelection | src/config.rs:912-972 | On success the pairs are exactly those asked for, each a block of the file; the storages are exactly the defined ones that these pairs name, each a block of the file in which every field that may be a command has its parameter or the trimmed output of its command, that command being among those run, and nothing else changed |
| ConfigTheorems.StorageResolved | src/config.rs:1077-1098 | Each resolvable field of a storage ends absent, with its parameter, or with the trimmed output that its command gave after those before it; all other directives are untouched; exactly the commands of its fields are run, in field order |
| ConfigTheorems.ResolvedByType | src/config.rs:1086-1097 | `path` for vdir, `url`, `username` and `password` for CalDAV, CardDAV and JMAP, `url` alone for webcal end with their values, every other directive as it was; no other type is accepted |
| ConfigTheorems.ResolvingIsIdempotent | src/config.rs:79-82 | A parsed configuration's storages can be taken to be resolved: resolving one again changes nothing and runs nothing |
| ConfigTheorems.CommandDiscipline | src/config.rs:957-971 | The commands run are the status path's and then those of the storages that enabled pairs name, in file and field order; all on success, none beyond the first failure; no other storage's |
| NamedStorages.ParseStorages | src/config.rs:984-1017 | Tasks, commands and errors are those of `SpawnAll`, and a requested storage that is not defined is an error |
| NamedStorages.SpawnsExactly | src/config.rs:994-1012 | All initialisations are started if and only if every storage directive has one name and every selected one has a block of known type whose fields resolve after the commands before; what is left of the filter is the names not defined |
| NamedStorages.SelectedExactly | src/config.rs:996-1001 | With a filter, the first definition of every requested name is used, once, and no other |
| NamedStorages.SelectedAll | src/config.rs:996-1001 | Without a filter every definition is used, duplicates too |
| NamedStorages.StartedExactly | src/config.rs:994-1012 | One initialisation is started for each selected directive, in order, on its block with the values of its fields, after the commands of its own and all earlier ones; up to the first failure, or for all of them |
| NamedStorages.CommandsBeforeInitialisationExactly | src/config.rs:993-1012 | In any run, failing or not, all commands precede all initialisations if and only if none was started or only the first selected storage's commands were run; in a run without failure, if and only if no other selected storage has a command |
| NamedStorages.SecondCommandIsLate | src/config.rs:993-1012 | Of two storages the second has its URL from a command: both are started, and that command is run after the first was |
| ScfgBlocks.Scfg.TakeSingleDirective | src/scfg_util.rs:24-40 | The directive is removed whatever happens; the result is it, nothing, or an error when it is repeated |
| ScfgBlocks.Scfg.TakeSingleParamFromDirective | src/scfg_util.rs:47-54 | The directive is removed; the result is its one parameter, or the error for none, several, no directive or several directives |
| ScfgBlocks.TakeSingleParam | src/scfg_util.rs:59-66 | The one parameter, or an error for none or several |
| ScfgBlocks.Scfg.ResolveCmdInplace | src/scfg_util.rs:71-124 | The verdict, the block left behind (without the directive on error) and the commands run are those of `ResolveField` |
| ScfgBlocks.FieldResolved | src/scfg_util.rs:71-124 | The field ends absent or as one plain parameter, nothing else changes, at most the one command that the field stands for is run |
| ScfgBlocks.ResolvesExactly | src/scfg_util.rs:71-124 | A field resolves if and only if it is absent, or given once by one parameter or by a `cmd` or `shell` block whose command succeeds with UTF-8 output, not blank for a password; its value is then that parameter or the trimmed output |
| ScfgBlocks.ResolveAgain | src/scfg_util.rs:71-124 | Resolving a resolved field changes nothing and runs nothing |
| Cli.FilterNames.Wants | src/cli.rs:45-54 | True exactly for a wanted name, which is consumed; always without a filter |
| Cli.FilterNames.NextMissing | src/cli.rs:57-59 | Some name not consumed yet, none exactly when there is none |
| Repair.RepairFetched | src/repair.rs:74-104 | One item: the UIDs seen, the storage, the clock readings and the failure count are those of `RepairItem`, modulo 2^32 |
| Repair.RepairCollection | src/repair.rs:63-107 | The same for a whole collection, a failed fetch included |
| Repair.RepairStorage | src/repair.rs:42-58 | The same for a whole storage, a failed discovery included |
| RepairOutcomes.CollectionExactly | src/repair.rs:63-107 | With dotless hashes: an item with a UID, given up on, or refused by the backend stays as it is; any other gets its hash for a UID, or, if that is taken, its hash, a dot and its clock reading; the updates attempted are exactly those of the items without UID not given up on, in order; failures and readings are counted exactly; nothing else is touched |
| RepairOutcomes.StorageExactly | src/repair.rs:42-58 | So for each collection in turn, from the state that those before it left; what is done to a collection stays; a failed discovery or fetch counts one failure and leaves things alone |
| RepairOutcomes.EverythingRepaired | src/repair.rs:63-107 | When updates are accepted, clock readings do not repeat, hashes have no dot and no UID of the collection is one of them joined with a number, every item has a UID afterwards and no failure is counted |
| RepairOutcomes.StorageRepaired | src/repair.rs:42-58 | The same for a whole storage |
| RepairTheorems.NoDuplicateUid | src/repair.rs:42-106 | Repairing a storage, also when updates are refused or their replies lost: in every collection, a UID that was there is on exactly the items that had it, any other on at most one; nothing changed but that items without UID got one |
| RepairTheorems.CollectionStaysUnique | src/repair.rs:63-107 | The same for one collection, and no other collection is touched |
| RepairTasks.NoDuplicateUidEver | src/repair.rs:22-107 | The same for every storage at every moment of every interleaving of the storages' tasks, also when one goes no further |
| RepairTheorems.NoUniqueUidExactly | src/repair.rs:77-93 | With dotless hashes and any clock, an item is given up on if and only if its hash is taken, and joined with its reading it was a UID of the collection to begin with, or an earlier item with the same hash was tried with an equal reading |
| RepairTheorems.FreshUidAlwaysFound | src/repair.rs:77-93 | With dotless hashes, a clock that never repeats a reading, and no UID in the collection that is one of the hashes, a dot and a number, no item is ever given up on, however many are identical |
| RepairTheorems.RepeatedReadingFails | src/repair.rs:79-93 | Of any number of identical items alone in a collection, with a dotless hash, the first gets the hash, and any other is given up on if and only if its clock reading repeats that of an earlier one |
| RepairTheorems.ItemAccounting | src/repair.rs:89-104 | A failure is counted for an item left without UID, and for one that was updated with the reply lost, and for no other |
| RepairTheorems.CollectionAccounting | src/repair.rs:63-107 | A collection's failures are exactly one if it cannot be fetched, otherwise the number of its items without UID afterwards, plus the updates done whose reply was lost |
| RepairTheorems.StorageAccounting | src/repair.rs:42-58 | A storage's failures are exactly the sum of what its collections fall short in the end and of the replies lost |
| RepairTheorems.CleanMeansRepaired | src/repair.rs:30-36 | No failure means that every item of every discovered collection has a UID |
| RepairTheorems.NothingToRepair | src/repair.rs:74-75 | When all items have UIDs no update is attempted and no clock read |
| RepairTasks.InterleavingIsIrrelevant | src/repair.rs:22-39 | However the storages' tasks interleave, each storage ends as if repaired alone, the counter is the sum of all failures modulo 2^32, and success is reported exactly when that is zero |
| RepairTasks.CounterIsWhatIsLeft | src/repair.rs:22-107 | The counter is, modulo 2^32, exactly the storages not discovered, the collections not fetched, the fetched items still without UID, and the updates done whose reply was lost |
| RepairTasks.SuccessMeansRepaired | src/repair.rs:22-39 | Below 2^32 failures, reported success means that every item of every collection has a UID and that repairing again writes nothing |
| RepairTasks.WrapAroundReportsSuccess | src/repair.rs:30-38 | 2^32 failures are reported as success |
| Text.DecimalInjective | src/repair.rs:80-84 | Different clock readings print differently |
| Text.DecimalExactly | src/repair.rs:79-83 | A clock reading is printed in the decimal digits that stand for it, without leading zeroes |
| Text.TrimExactly | src/scfg_util.rs:108 | Trimming leaves a text exactly when that has no blank at its edges and what was trimmed is it between blanks |
| Text.JoinPieces | src/scfg_util.rs:94 | Joining puts the separator once between any two pieces next to each other |
| Text.DotJoinInjective | src/repair.rs:84-85 | Hash and reading can be told from the joined UID when hashes have no dot |
| Prompt.ContinueSkipOrQuit | src/conflict.rs:189-206 | The answer is that of the first line that is one, yes at the end of the input, and the lines up to it are used up |
| Prompt.LineAnswers | src/conflict.rs:199-204 | A blank line or a `y` is yes, an `n` no, a `q` quit, small or capital and with blanks around; any other line is passed over; the end of the input is yes |
| Prompt.AskedOnce | src/conflict.rs:189-206 | Any answer is the first line's that is an answer, or yes after no line was one |
| ItemConflicts.RunMergeCommand | src/conflict.rs:248-285 | A's file, when the command succeeded and both files are equal but for blanks around and not blank; otherwise the first reason that it is not |
| ItemConflicts.MergedExactly | src/conflict.rs:260-284 | A merge is accepted if and only if the command succeeded and left two files, neither blank, the same but for blanks at their ends; otherwise the first of these reasons counts |
| ItemConflicts.UploadResolvedItem | src/conflict.rs:295-325 | A side is updated, on condition of the etag in conflict, exactly if its hash differs; both are tried before an error counts |
| ItemConflicts.ResolveItemConflicts | src/conflict.rs:84-129 | Both storages, the input, the editor and the verdict are those of `ResolveItems`; false only after Quit |
| ConflictTheorems.RunIsDecisions | src/conflict.rs:84-129 | For any storages, replies and concurrent edits: the loop does to each side exactly the changes that the user's lines and editor decide, computed beforehand, up to and including the first upload that fails on some side, which ends it; if none fails, all of them |
| ConflictTheorems.ChangeExactly | src/conflict.rs:303-310 | On each side: nothing, if the side has the decided hash; otherwise one update with the etag in conflict, which changes nothing and fails if the item is gone, has another etag, or the backend refuses, and is otherwise made |
| ConflictTheorems.EditsSurvive | src/conflict.rs:303-320 | With any concurrent edits, an entry of either side differs after the run only where it still had the etag in conflict, with a decision of another hash than the side had |
| ConflictTheorems.ResolutionConverges | src/conflict.rs:84-129 | Without concurrent edits, each side taking its updates or needing none: every resolved conflict ends with equal hashes, a side that has them already is not written, all else is unchanged, no upload fails |
| ConflictTheorems.RunFailsExactly | src/conflict.rs:295-325 | For any storages, concurrent edits and replies of both sides, the run fails if and only if some decided write, of either side, is stale or not accepted |
| ConflictTheorems.ReadOnlyAFailsExactly | src/conflict.rs:303-323 | Without concurrent edits, if A refuses all writes and B takes them, the run fails if and only if some decision differs from what A holds; A is never changed |
| ConflictTheorems.ReadOnlyBFailsExactly | src/conflict.rs:303-323 | The same with the sides exchanged |
| PropertyConflicts.ChoosePropertyValue | src/conflict.rs:209-242 | The choice made, or the failure to write temporary files, or neither where the question is asked for ever; with the input and editor runs used up |
| PropertyConflicts.LineChooses | src/conflict.rs:223-240 | What each line does: `a`, `b`, `s`, `q` choose, small or capital and with blanks around; `e` runs the editor, and its result is chosen, trimmed, if it is accepted, fails without temporary files, and is asked for again otherwise; any other line is passed over |
| PropertyConflicts.ReturnsExactly | src/conflict.rs:214-241 | The question is answered if and only if some line chooses, or asks for the editor in a run whose result is not rejected, each earlier such line having taken one run; what follows the first such line is left of the input |
| PropertyConflicts.FirstLineDecides | src/conflict.rs:224-239 | A line `a`, `b`, `s` or `q` decides for A's value, B's value, nothing, nothing from here on; `e` for the accepted result of the editor, trimmed |
| PropertyConflicts.UploadResolvedProperty | src/conflict.rs:327-357 | A side is written exactly if its value differs; both are tried before an error counts |
| PropertyConflicts.UploadReplies | src/conflict.rs:327-357 | A side ends with the value, for that collection and property alone, if it had another and does not refuse; it is well if and only if every write needed is accepted |
| PropertyConflicts.ResolvePropertyConflicts | src/conflict.rs:132-173 | Both storages, the input, the editor and the verdict are those of `ResolveProperties`, for any input |
| PropertyConflicts.PropertiesEndExactly | src/conflict.rs:132-173 | For any storages and replies: the run ends with a failed write if and only if some side does not accept a write decided for it and needed, and otherwise as the user's lines and editor say |
| PropertyConflicts.PropertiesConverge | src/conflict.rs:132-173 | Without concurrent edits, each side taking its writes or needing none: every property resolved with a value ends with it on both sides, exactly the sides that had another being written, in order; all other properties are unchanged, no write fails |
| InteractiveResolution.CollectConflicts | src/conflict.rs:39-62 | Item and property conflicts of the plan, each list in plan order |
| InteractiveResolution.CollectedInOrder | src/conflict.rs:39-62 | Conflicts are collected in the order of the plan |
| InteractiveResolution.ConflictsCollected | src/conflict.rs:39-62 | As many conflicts are collected as a synchronisation of the plan counts, and exactly the plan's conflicts |
| InteractiveResolution.ResolveInteractively | src/conflict.rs:27-79 | The whole run for a pair, its early ends included |
| InteractiveResolution.EndsEarly | src/conflict.rs:27-70 | Without a command, with an automatic policy, without a plan or without conflicts, nothing is touched and the run ends as such |
| InteractiveResolution.EndsExactly | src/conflict.rs:72-78 | Otherwise, for any storages: a failed upload if some decided write of an item is stale or not accepted; else as the lines end the item questions, no property being asked about or touched if that is by quitting or by failing; else as the property questions end |
| InteractiveResolution.NoConflictsLeftExactly | src/conflict.rs:71-78 | Without concurrent edits, each side taking its writes or needing none: both sides agree on exactly the item conflicts that the user resolved, and, where "No conflicts left" is printed, on exactly the property conflicts that the user resolved; after quitting the items no property is touched |
| InteractiveResolution.DeclinedIsLeft | src/conflict.rs:71-78 | The user declines the only conflict: nothing is written, both sides still differ, and "No conflicts left" is printed |
| SyncRuns.PrintAndCollectPlan | src/main.rs:144-202 | The operations collected are the plan, in its order; shown are a heading, one line for each operation but stale mappings, and totals, and errors in the plan are logged where they occur |
| SyncHistories.DisplayExactly | src/main.rs:144-202 | What is shown: the pair's name; for each operation but stale mappings, in order, a line that shows exactly it, or a log entry with exactly its error; and as totals the numbers of collection, item and property operations, of conflicts, and of stale mappings |
| SyncHistories.LinesTellPlans | src/main.rs:160-194 | Plans that are shown by the same lines are the same but for stale mappings |
| SyncRuns.SyncOnce | src/main.rs:266-310 | The events, the input used and the verdict for one pair are those of `SectionOf`; the counter grows by what the executor reported |
| SyncRuns.Sync | src/main.rs:457-482 | The events are those of `EventsOf`; Ok exactly when the errors in them are zero modulo 2^32, otherwise that remainder is reported |
| SyncTheorems.WhatIsShownIsWhatRuns | src/main.rs:266-310 | In every run, status is only written and the executor only started for a plan just shown in full and, if asked, accepted, on exactly the operations shown in that order; No ends a pair, Quit ends the run, nothing else ends a pair early; pairs are planned in order, each once, all unless Quit |
| SyncHistories.ExecutedWasShown | src/main.rs:266-310 | In every run, whatever is executed is the plan just made, or, for a policy that keeps a side, what keeping that side makes of it, displayed as above, accepted if the user is asked, with the status database opened just before |
| SyncHistories.EventsAreReal | src/main.rs:272-305 | Plans, status databases and executions are what the world gave after all that had happened before, for the pair whose turn it was |
| SyncHistories.AnswersAreTheUsers | src/main.rs:276-288 | The answers are those that the user's lines give, in order; none without `-i` |
| SyncTheorems.DryRunWritesNothing | src/main.rs:290 | A dry run neither opens the status database for writing nor executes |
| SyncTheorems.TotalsCountLines | src/main.rs:195-200 | The totals add up to the lines shown; errors in the plan are counted in none of them |
| SyncTheorems.ErrorsAreReportedOrFailed | src/main.rs:457-482 | The errors counted are those the executor reported and one for each pair that failed, also when the user quits after some |
| SyncHistories.ErrorsExactly | src/main.rs:457-482 | The errors counted are those the executor reported and one for each plan not made, status database not opened and execution not completed |
| SyncTheorems.FullTurnSucceeds | src/main.rs:476-481 | A synchronisation with 2^32 errors succeeds |
| DaemonRuns.StepKeeps | src/main.rs:207-263 | Every step of the daemon and of the world keeps the account: since any plan read a side, events queued and taken are those queued then, one for each change since, and those that came without a change |
| DaemonRuns.ExitsExactly | src/main.rs:207-263 | In every run, the daemon has exited for a monitor if and only if one did not start, and for the status if and only if the database did not open or an execution failed fatally; then it does nothing more |
| DaemonRuns.KnownIsRead | src/main.rs:241-243 | In every run, what counts as known of a storage is exactly what the latest plan that was made had read of it, at the moment at which it read it |
| DaemonRuns.NothingMissed | src/main.rs:207-263 | Whenever the daemon waits, a side has changes unknown to the latest plan that was made, and no event, if and only if no event is queued and attempts that made no plan took more than were left over when that plan read the side or came without a change; unless the latest attempt made no plan, there are at least as many events as unknown changes |
| DaemonRuns.LeftBehindExactly | src/main.rs:225-262 | Changes are unsynchronised with no event to have them synchronised if and only if no event is queued and their events were so wasted, or the latest plan made knew changes that no successful execution did; never after a successful one |
| DaemonRuns.IdleMeansSynced | src/main.rs:225-262 | After a successful synchronisation, with no event queued, it had read every change |
| DaemonRuns.ChangeIsDue | src/main.rs:207-219 | A change made while its monitor runs, also during start-up, always has an event queued for it or a plan to read it to come |
| DaemonRuns.EventMakesDue | src/main.rs:225-262 | Any event, of either side, with or without a change, makes every change due that no plan made knows: what was lost is lost until then only |
| DaemonRuns.ChangeIsPlannedSoon | src/main.rs:225-262 | A change that is due is known to a plan that was made within seven steps of the daemon, whichever side's events it takes and whatever else happens, unless a plan fails or the daemon exits |
| DaemonRuns.DueCanGoOn | src/main.rs:225-262 | While a change is due the daemon is not waiting |
| DaemonRuns.FailedPlanLosesChange | src/main.rs:260 | A plan that cannot be made, before or after it read the storages, loses its event: the change stays unknown, and the daemon does nothing until the next event |
| DaemonRuns.FailedExecutionIsNotRetried | src/main.rs:256 | After operations failed, too, the daemon does nothing until the next event |
| DaemonRuns.FirstSyncWaits | src/main.rs:208-228 | What differs when the daemon starts is left alone until the first event |

## Left out

- The planner, the executor, `KeepSideResolver`, the status database and the monitors are in `vstorage`, which is not part of this model; they are parameters, or steps with an assumed interface.
- HTTP clients, proxies, TLS, Unix sockets and the PEM loop: wrappers around libraries.
- scfg text parsing, argument tokenising, hashing: library code. Blocks are given parsed, hashes by a function.
- The keyword parsers for a pair's other directives, `expand_tilde` and `parse_interval`: settled by reading one branch; start-up takes them as functions.
- StartupTheorems.RefinesSequential: `get_storage` is a transition system on values, not methods on a shared heap, because its calls interleave inside one another; the two errors of `join_next` other than a panic do not occur.
- Panics other than `unreachable!`, among them a clock before 1970, are not modelled.
- DaemonRuns.NothingMissed: assumes that a monitor queues one event for each change after its start, besides any others, and that a `next_event` dropped by `select` loses none. The endless loop is a transition system, because a method would have to end; waiting for several daemons to exit (`src/main.rs:438-454`) adds nothing to one.
- DaemonRuns.ChangeIsPlannedSoon: a plan is said to read a storage at the first moment at which it does, and before it is executed; what its stream reads later only sees more. Time does not pass.
- RepairTheorems.NoUniqueUidExactly: requires hashes without a dot, which is for `vstorage` to see to; the program does not check it.
- RepairTheorems.NoDuplicateUid: nobody else changes the storage between fetch and update, and a fetch lists what is in the collection.
- Counters.Counter.FetchAdd: what an executor reports is added at once; adding one at a time comes to the same.
- ConflictTheorems.ResolutionConverges: the two uploads of one conflict run one after the other, which nobody can tell, as they are to different storages.
- PropertyConflicts.ChoosePropertyValue: returns None where the program goes on asking for ever, at the end of the input.
- Prompt.ContinueSkipOrQuit: lower-casing is that of ASCII; no other character becomes one of the answers. Failures of the terminal are not modelled.
- ConfigTheorems.ExactSelection: of two definitions of one storage it says only that one is used.
- Waiting for the initialisations that `parse_storages` started (`src/config.rs:1019-1027`): the first error, or all of them, as at start-up.
- `resolve_conflicts` over several pairs, `discover`, `list` and `check`: they call the above, or print.
