# Verified model of the collector

A Dafny model of six parts of the fleet collector, with proofs of what they are
for. `dafny verify dfyconfig.toml` checks all of it.

| part of the collector | modules |
|---|---|
| the crash-safe journal of device settings (`device-state.ts`) | `DeviceState`, `DeviceSafety`, `DeviceOutcomes`, `DeviceUndo`, `DeviceSweep`, `DeviceRuns`, `DeviceRepair`, `DeviceValues`, `DeviceCallers`, `DeviceCounterexamples`, `DeviceExecutor` |
| nested transactions and the schema migration (`db.ts`) | `Transactions`, `Migration`, `MigrationProofs`, `MigrationSteps`, `MigrationRows`, `MigrationDefaults`, `MigrationCounterexamples`, `MigrationStore` |
| accessibility trees and their judge (`a11y-tree.ts`) | `AccessibilityTree`, `MaestroTree`, `IndentedTree`, `AccessibilityJudge`, `AccessibilityMeasures` |
| cron search and the minute key (`cron.ts`) | `Calendar`, `Numerals`, `CronFields`, `CronSearch`, `CronExpressions`, `CronDates` |
| the alert lifecycle and schedule runs (`alerts.ts`) | `Alerts`, `AlertHistory`, `AlertRuns`, `ScheduleRuns` |
| the token file and its cache (`auth.ts`) | `Tokens`, `TokenCache` |

`Text` holds the string operations they share.

Each part has the same shape. The state a piece of code updates is a value, and
each operation is a function on it, branch for branch with the source. Where the
source works by loops over fields and maps, a class or a method with those loops
is proved to compute that function. The theorems are about the functions.

The environment is never assumed kind. In the journal model a *script* says how
each call to adb, simctl or the journal file goes: a write may take, do nothing
or leave something else, whatever its exit status; any call may throw; and when
the script runs out the process is dead. "For every script" is therefore "for
every environment and every crash point". Wherever a promise needs an
assumption, the assumption is a hypothesis the caller could check, and either
the theorem is an equivalence or a counterexample beside it shows what happens
without it.

## Where the code and its comments differ

The model follows the code.

- `nextRun` says "at or after"; it steps before it tests, so it is strictly after the starting minute (`CronSearch.NextRunIsLeast`).
- `isValidCron` compares the result of `fieldMatches` with `undefined`, which it never is; only the field count and the alphabet matter.
- Day of month and day of week are both required, not either.
- An empty number in a cron field is 0 (`CronFields.EmptyNumbersAreZero`).
- `applyState` refuses a null prior it could not restore from simctl, but not a null night mode (`DeviceCounterexamples.NullNightModeIsApplied`).
- The migration promises an attempt to every job claimed before leases; a claim that has a deadline is not touched (`MigrationCounterexamples.AClaimMayKeepNoAttempt`).
- The migration looks for a quoted status word anywhere in the DDL, comments included (`MigrationCounterexamples.AMentionIsTakenForACheck`).
- The comment that a subtree is the run of following deeper nodes holds for Android dumps and not for every Maestro hierarchy (`MaestroTree.MaestroRunsAreSubtreesExactlyWhen`).
- `closeDb` resets the transaction counter, so closing inside a transaction leaves it at -1 (`Transactions.ClosingInsideLeavesTheCounterShort`).
- A schedule whose id holds a double hyphen has all its runs counted as one (`ScheduleRuns.RunKeyIsTheRunExactlyWhen`).

## Model

| member | source | states |
|---|---|---|
| DeviceSafety.RestoreKeepsSafe | collector/src/device-state.ts:426-465 | From any state in which every changed setting's original is journalled, restoreState reaches only such states, whatever each tool call does and wherever the process dies |
| DeviceSafety.ApplyIsSafeExactlyWhen | collector/src/device-state.ts:346-414 | Main result. ApplyState keeps every original journalled, in every environment and at every crash point, if and only if it is refused before the journal write or the entry it overwrites records nothing still needed |
| DeviceSafety.FreshAndDisjointLosesNothing | collector/src/device-state.ts:381-385 | No entry of one's own on the target, and settings the other domain never names, are enough for that |
| DeviceSafety.KeysApart | collector/src/device-state.ts:189 | Two journal keys are equal only for the same domain and the same device id |
| DeviceOutcomes.RestoreEnds | collector/src/device-state.ts:426-465 | restoreState moves no setting outside the entry, and the entry goes only when every setting in it reads as recorded; an exception or a crash leaves it in place |
| DeviceOutcomes.ApplyIsAllOrJournalled | collector/src/device-state.ts:346-414 | In every environment: a return means every wanted setting read back and the entry holds every prior; an exception leaves all untouched, or all put back with no entry, or the entry in place; a crash never leaves a change without its entry; no other setting moves |
| DeviceOutcomes.RestoreClearsExactlyWhen | collector/src/device-state.ts:426-465 | Main result. With working tools an entry is cleared if and only if each of its settings already reads as recorded or can be written back, and a failed attempt does not change which |
| DeviceOutcomes.RestoreReportsRepair | collector/src/device-state.ts:426-465 | In every environment a restore that returns says true if and only if some setting of the entry did not read as recorded |
| DeviceValues.SameExactlyWhen | collector/src/device-state.ts:319-322 | Main result. Two values are the same if and only if what stands between the space around them is equally long and agrees at every position up to ASCII letter case and hyphens written as underscores |
| DeviceValues.UnsetIsBlank | collector/src/device-state.ts:320 | An unset value is the same as a blank one and as nothing else |
| DeviceValues.OneCharacterDiffers | collector/src/device-state.ts:319-322 | Two values that differ in one character, beyond case and hyphen for underscore, are not the same |
| Text.TrimSplits | collector/src/device-state.ts:320 | Every text is what stands between its first and last character that is not space, with space around it |
| Text.SpacesAre | collector/src/device-state.ts:320 | Twenty-five code points are space |
| DeviceValues.RestoreSetsExactly | collector/src/device-state.ts:436-458 | Main result. With working tools restoreState leaves each setting of the entry untouched where it reads the same, and else at its prior, spelling and all, with night mode no for unset and an unset simctl ui value left alone |
| DeviceValues.RestoreRepairsExactlyWhen | collector/src/device-state.ts:426-465 | An entry of one setting is cleared by working tools, and the recorded value written and a repair reported if and only if the two differ at some character |
| DeviceValues.IgnoredWriteIsNoticedExactlyWhen | collector/src/device-state.ts:387-413 | A write that exits cleanly and does nothing is taken as done if and only if the value asked for agrees with the one there at every character; else applyState throws that it did not take, and drops its entry |
| DeviceValues.HardwareIsRefused | collector/src/device-state.ts:234-244 | A target that is neither Android nor a simulator is refused by both calls, untouched |
| DeviceValues.UnknownNamesAreRefused | collector/src/device-state.ts:354-356 | The first name outside the vocabulary is refused before anything is read |
| DeviceValues.ApplyReturnsExactlyWhen | collector/src/device-state.ts:346-385 | Main result. With working tools a call that asks for something returns if and only if the target is Android or a simulator, every name is known, and no appearance or content size reads as unset; otherwise it throws with nothing touched |
| DeviceCallers.CallersAreDisciplined | collector/src/executor.ts:1317-1320 | The calls of locale-shots and of the accessibility variants keep the discipline if and only if no entry of their own is there |
| DeviceCallers.PassesAreApart | collector/src/display-settings.ts:67-133 | No pass of one caller touches a setting of the other |
| DeviceUndo.ApplyReturnsOrPutsBack | collector/src/device-state.ts:318-338 | Main result. With writes that exit cleanly, whatever they do, and tools that work from the read-back on, applyState returns if and only if every wanted setting took; otherwise it throws, naming the first that did not, the settings are all as before if and only if each can be written back from where the writes left it, and then the entry is gone, else it stays |
| DeviceUndo.AThrowingWriteIsPutBack | collector/src/device-state.ts:387-395 | When a write throws, whatever it and those before it did, and the tools work after it, applyState throws naming that setting, and puts back and drops the entry under the same condition |
| DeviceUndo.AThrowingReadBackIsPutBack | collector/src/device-state.ts:397-405 | So it does when a read-back throws after those before it found their settings taken |
| DeviceUndo.UndoPutsBack | collector/src/device-state.ts:391-411 | The restore whose own failure is swallowed puts back everything if and only if each setting can be, and the first error is the one thrown |
| DeviceSweep.KeySlicingInvertsKeyOf | collector/src/device-state.ts:500-503 | Slicing a journal key by its entry's domain gives the device id back, and only keys of that domain are rebuilt by it |
| DeviceSweep.SweepKeepsSafe | collector/src/device-state.ts:500-526 | The startup sweep loses no original in any environment, crashes included |
| DeviceSweep.SweepVisitsAttached | collector/src/device-state.ts:505-516 | The sweep restores both domains of every attached device and no other |
| DeviceSweep.SweepLeavesUnvisited | collector/src/device-state.ts:500-526 | Entries of devices that are not attached stay as they are; no entry is added or rewritten |
| DeviceSweep.SweepLeavesUnheld | collector/src/device-state.ts:500-526 | A setting that no visited entry names keeps its value |
| DeviceSweep.SweepDropsOnlyVerified | collector/src/device-state.ts:500-526 | An entry the sweep drops had every setting verified equal to its prior, and they still are when the sweep ends or dies |
| DeviceSweep.SweepClearsExactlyWhen | collector/src/device-state.ts:500-526 | With working tools one sweep clears an attached device's entry if and only if each setting in it can be put back |
| DeviceSweep.SweepKeepsUnclearable | collector/src/device-state.ts:500-526 | An entry that cannot be put back stays so through a sweep whose tools all work |
| DeviceSweep.SweepReturns | collector/src/device-state.ts:505-516 | With working tools the sweep reaches its end: one device's failed restore does not stop the next |
| DeviceSweep.SweepReportsTheMended | collector/src/device-state.ts:505-525 | Main result. In every environment a sweep that ends lists a device if and only if it dropped an entry of that device which named a setting out of place |
| DeviceSweep.SweepWithNothingToDo | collector/src/device-state.ts:500-526 | With no entry for an attached device a sweep changes nothing and reports no repairs, even in an environment where every call would fail |
| DeviceSweep.SweepConverges | collector/src/device-state.ts:500-526 | Main result. With working tools and restorable priors one sweep leaves no entry for an attached device and each named setting as recorded; a second sweep changes nothing and returns no repairs |
| DeviceRuns.ApplyWorks | collector/src/device-state.ts:346-414 | With working tools applyState sets exactly the wanted settings and journals exactly what was there |
| DeviceRuns.WithStateRoundTrip | collector/src/device-state.ts:476-489 | Main result. With working tools and no earlier entry, the device and the journal are as before however the caller's function ends, if and only if every prior can be written back |
| DeviceRuns.WithStateKeepsOutcome | collector/src/device-state.ts:476-489 | Once applied, withState ends as the caller's function ended, whether or not the restore worked; if not applied, it ends as applyState did |
| DeviceRuns.NoRunLosesAnOriginal | collector/src/device-state.ts:346-526 | Main result. Over every run of apply, withState, restore, sweep and outside changes, with crashes anywhere and tools that fail or silently do nothing, a setting that differs from its last unmanaged value has an entry, and every entry naming it holds that value |
| DeviceRuns.DisciplineIsEnough | collector/src/device-state.ts:346-526 | From an empty journal the above holds for every run in which applyState is called with its own domain's settings and no entry of that domain on the target |
| DeviceRepair.NoRunWritesAnImpossibleEntry | collector/src/device-state.ts:365-376 | Over every run whatever, no journal entry records an unset value of a simctl ui setting, to which there is no way back |
| DeviceRepair.UnclearableExactlyWhenNightIsStuck | collector/src/device-state.ts:295-298 | Of the entries such a run leaves, one cannot be put back if and only if it is a display entry with an unset night mode that does not read as unset |
| DeviceRepair.OneSweepRepairsTheDevice | collector/src/device-state.ts:346-526 | Main result. After any disciplined run from an empty journal one sweep with working tools leaves an attached, manageable device without an entry if and only if no unset night mode is stuck there; and then every setting of it is at its last unmanaged value |
| DeviceCounterexamples.OverwritingAnEntryLosesTheOriginal | collector/src/device-state.ts:381-385 | Apply, a failed restore, a second apply that is killed, a sweep with working tools: the journal ends empty and the original is nowhere |
| DeviceCounterexamples.SharingASettingLosesTheOriginal | collector/src/display-settings.ts:75-132 | Two domains holding one setting at once end with an empty journal and the first job's value left on the device |
| DeviceCounterexamples.NullNightModeIsApplied | collector/src/device-state.ts:371-376 | A null night mode is accepted, journalled and changed, where a null simctl value would be refused |
| DeviceCounterexamples.NoSweepClearsANullNightMode | collector/src/device-state.ts:295-298 | No number of sweeps with working tools ever clears that entry |
| DeviceExecutor.Executor.RestoreSettings | collector/src/device-state.ts:436-458 | The restore loop, with its changed flag and problem list, is the specified pass over the entry |
| DeviceExecutor.Executor.RestoreState | collector/src/device-state.ts:426-465 | restoreState as it changes the device and the journal ends in the specified state and outcome |
| DeviceExecutor.Executor.ReadAllPriors | collector/src/device-state.ts:358-378 | The loop that reads priors changes nothing, stops at the first failure or irrecoverable null, and otherwise gives every prior |
| DeviceExecutor.Executor.WriteAllWanted | collector/src/device-state.ts:387-395 | The write loop, with its undo on failure, is the specified one |
| DeviceExecutor.Executor.VerifyAllWanted | collector/src/device-state.ts:397-413 | The read-back loop, with its undo on failure or mismatch, is the specified one |
| DeviceExecutor.Executor.ApplyState | collector/src/device-state.ts:346-414 | Main result. ApplyState step by step ends in exactly the state and outcome of the specification above |
| DeviceExecutor.Executor.RunWithState | collector/src/device-state.ts:476-489 | withState step by step ends in exactly the specified state and outcome |
| DeviceExecutor.Executor.RestoreAttachedState | collector/src/device-state.ts:500-526 | Main result. The sweep's nested loops end in exactly the specified state and list |
| Transactions.TransactionsRefine | collector/src/db.ts:118-147 | Main result. For every tree of nested bodies over any handles, with writes, throws, caught throws and failing BEGIN, COMMIT and RELEASE, that does not come to close the open database, the savepoint stack ends in the state and outcome of snapshot-and-restore, every stack is as it was, and the counter equals the open frames at every step |
| Transactions.ThrowLeavesNoTrace | collector/src/db.ts:133-142 | A transaction that ends in an error leaves its own database exactly as it found it |
| Transactions.CounterReturnsExactlyWhenNothingCloses | collector/src/db.ts:143-145 | Main result. The counter returns to its starting value if and only if the transaction, as a caller expects it to go, does not come to a closeDb of the open database |
| Transactions.ClosesExactlyWhenExpected | collector/src/db.ts:99-105 | A program closes the database if and only if the reference semantics comes to a closeDb while it is open |
| Transactions.NothingClosesWithoutCloseDb | collector/src/db.ts:143-145 | With cleanups that fail the counter still returns, for every program that holds no closeDb |
| Transactions.ClosingInsideLeavesTheCounterShort | collector/src/db.ts:99-105 | closeDb inside a transaction leaves the counter at -1 and the caller with an error |
| Transactions.ClosedInsideIsRolledBack | collector/src/db.ts:98-105 | Main result. A closeDb inside a transaction of the module's database, however deep and whatever fails around it, leaves in the file exactly what was there when the transaction began |
| Transactions.NestingFailsFromAShortCounter | collector/src/db.ts:128-131 | From a counter of -1 no transaction can hold another on the same handle |
| Transactions.CleanupFailureKeepsTheOutcome | collector/src/db.ts:136-142 | Whether or not its cleanup fails, a transaction ends as expected: a failed ROLLBACK never replaces the error that caused it |
| Transactions.CleanupFailureUnbalancesExactlyWhen | collector/src/db.ts:137-141 | Main result. At any depth a failed cleanup unbalances the counter if and only if the body was going to throw or the transaction could not close; then one frame and the body's writes stay |
| Transactions.Database.WithTransaction | collector/src/db.ts:121-147 | withTransaction with its module-level counter ends in the specified machine and outcome |
| Transactions.Database.RunBody | collector/src/db.ts:121-147 | A body of nested calls, run step by step, ends as specified |
| MigrationProofs.MigrateEndsDone | collector/src/db.ts:246-873 | Whenever migrate returns, no step has anything left to do |
| MigrationProofs.MigrateIsIdempotent | collector/src/db.ts:196-202 | Main result. Run again on its own result, by any clock, migrate returns and changes nothing |
| MigrationSteps.StepsAreMigrate | collector/src/db.ts:246-873 | The thirty-eight statements and transactions, run one after another up to the first that throws, are migrate |
| MigrationSteps.KilledMigrateIsCompleted | collector/src/db.ts:196-202 | Main result. Killed between any two of its steps, at any database, migrate is completed by the next one: it ends, migrated or at the same throw, as it would have on the database the first was given |
| MigrationSteps.ThrowingMigrateThrowsAgain | collector/src/db.ts:83-93 | A migrate that throws leaves a database on which the next throws at the same place, with nothing further done |
| MigrationSteps.AttemptsAreCompleted | collector/src/db.ts:196-202 | However often migrate is killed or throws, and at whatever times, the next ends as one on the first database would have |
| MigrationProofs.MigrateReturnsExactlyWhen | collector/src/db.ts:588-841 | Main result. Migrate returns if and only if the early rebuild is not needed or finds its columns and only statuses it knows, and each CHECK to widen has the shape it knows |
| MigrationProofs.OlderDatabasesMigrate | collector/src/db.ts:196-202 | It returns on a new database, and on every one from before findings with the first jobs columns and a CHECK of known statuses |
| MigrationRows.MigrateKeepsJobsExactlyWhen | collector/src/db.ts:588-641 | Main result. Every job and every cell that was there is kept, and the four columns that may be written hold exactly what is promised, if and only if the early fixed-column rebuild meets no value outside its list |
| MigrationRows.JobsFourCells | collector/src/db.ts:816-873 | Main result. A relabelled job gets its status and reason, a claim without a deadline gets a deadline and an attempt, and every other job keeps status, last_error, lease_deadline and attempts as it had them |
| MigrationRows.JobsColumnsAfter | collector/src/db.ts:460-641 | The jobs table ends with the columns it had and those added, or with the rebuild's list and those added after it |
| MigrationRows.OthersColumnsAfter | collector/src/db.ts:481-577 | So do artifacts and devices, nickname under its new name |
| MigrationDefaults.AddedColumnsAre | collector/src/db.ts:463-577 | The columns added to jobs, artifacts and devices, and who asked, are exactly those named |
| MigrationDefaults.RebuildListIs | collector/src/db.ts:596-600 | The early rebuild keeps exactly the seventeen columns named |
| MigrationRows.OnlySkippedDoneJobsAreRelabelled | collector/src/db.ts:216-244 | A status changes only from done to skipped, if and only if the widening runs and the job's rows say it skipped; a job not relabelled keeps its last_error |
| MigrationRows.ClaimedJobsEndLeased | collector/src/db.ts:869-873 | Every claimed job ends with a deadline, and with at least one attempt if and only if it had one or had no deadline; an existing deadline keeps its attempts, and an unclaimed job keeps both |
| MigrationDefaults.OldJobsGet | collector/src/db.ts:463-472 | Main result. A job from before a column ends with a lease of 600 s, 3 attempts allowed, priority 0, and nothing in the five other columns |
| MigrationDefaults.OldClaimsGet | collector/src/db.ts:869-873 | A job claimed before leases existed ends with one attempt and a deadline of ten minutes; one not claimed with none of either |
| MigrationDefaults.LeasedAttemptsAre | collector/src/db.ts:870 | A claim without a deadline keeps its attempts, but for the one it is given if it had none |
| MigrationProofs.EveryStatusIsAdmittedExactlyWhen | collector/src/db.ts:588-840 | Main result. The CHECK ends admitting every job status if and only if the table was rebuilt, or it knew the older six and the quoted word 'skipped' stood in the DDL only if it stood in the CHECK |
| MigrationDefaults.JobsCheckEndsAs | collector/src/db.ts:592-840 | A jobs table without the quoted word 'cancelled' or 'waiting' ends with the CHECK of the seven statuses, one without 'skipped' alone gains it at the end, and any other keeps its CHECK |
| MigrationDefaults.FindingsCheckEndsAs | collector/src/db.ts:764-787 | A findings table without the quoted word 'fixed' gains it; any other keeps its CHECK |
| MigrationDefaults.NewDatabaseIs | collector/src/db.ts:246-311 | Main result. On a new directory migrate returns with empty tables of exactly these columns and CHECKs, and nothing left to do |
| MigrationRows.FindingsAreKept | collector/src/db.ts:764-787 | Findings keep every row and value, and every verdict is admitted unless the quoted word stood elsewhere in the DDL |
| MigrationRows.VerdictHistoryIsCompleted | collector/src/db.ts:787-791 | Main result. Verdict history gains exactly one line for each judged finding without history, in order, with its verdict and note, dated when judged or else when last seen |
| MigrationRows.ArtifactsAreKept | collector/src/db.ts:481-529 | No artifact is lost and what it held is kept; a missing publication time or sequence is filled from the upload |
| MigrationDefaults.OldArtifactsGet | collector/src/db.ts:485-527 | Main result. An artifact from before a column ends with its rowid for its sequence and its upload for its publication, not pinned, and with nothing in the six other columns |
| MigrationRows.DevicesAreKept | collector/src/db.ts:530-577 | No device is lost; every value is kept, nickname's under name unless name was there |
| MigrationDefaults.OldDevicesGet | collector/src/db.ts:542-577 | A device from before a column ends with nothing in it |
| MigrationCounterexamples.RebuildDropsDependencies | collector/src/db.ts:592-634 | On a jobs table without 'waiting' that already has depends_on, migrate returns and what depends_on held is gone |
| MigrationCounterexamples.AMentionIsTakenForACheck | collector/src/db.ts:817-820 | With 'skipped' in a DDL comment, migrate returns and the table goes on refusing skipped jobs |
| MigrationCounterexamples.AClaimMayKeepNoAttempt | collector/src/db.ts:869-873 | A claim with a deadline and no attempts comes out of migrate with none |
| MigrationStore.AddMissingColumns | collector/src/db.ts:460-474 | The loop that asks table_info once adds exactly the columns that are missing |
| MigrationStore.UpdateSkipped | collector/src/db.ts:225-241 | One UPDATE relabels the rows of its id that are done, and counts them |
| MigrationStore.CandidateIdsAre | collector/src/db.ts:217-223 | The ids are exactly those of the done jobs with a result row that mentions a skip |
| MigrationStore.Candidates | collector/src/db.ts:217-223 | The query's loop returns the specified ids, in the table's order |
| MigrationStore.RowsOfAre | collector/src/db.ts:224-235 | A job is judged on its own result rows, all of them and in the order they are read |
| MigrationStore.LastFinalIs | collector/src/db.ts:236-237 | It is judged by the last of those rows that is final, and not judged if none is |
| MigrationStore.SkippedExactlyWhen | collector/src/db.ts:217-240 | A job is relabelled for a reason if and only if a row of its own mentions a skip and the closing rule gives that reason for all its rows and the last final one |
| MigrationStore.JudgeCandidate | collector/src/db.ts:226-240 | Gathering the rows and searching them from the end gives the specified reason, or none |
| MigrationStore.BackfillSkipped | collector/src/db.ts:216-244 | Judging the candidates one by one relabels exactly the jobs the specification does, and returns how many |
| MigrationStore.BackfillTwiceIsOnce | collector/src/db.ts:213-215 | A second backfill finds nothing to do and changes nothing |
| MigrationStore.Store.MigrateStore | collector/src/db.ts:246-873 | Main result. Migrate, table by table and stopping where it throws, leaves exactly the specified database |
| AccessibilityTree.RunIsSubtree | collector/src/a11y-tree.ts:321-333 | Main result. On every forest's document order, the run of following deeper nodes is exactly the node's subtree |
| AccessibilityTree.RebuildInvertsPreorder | collector/src/a11y-tree.ts:321-333 | A forest can be rebuilt from its list of depths |
| AccessibilityTree.PreorderInvertsRebuildExactlyWhen | collector/src/a11y-tree.ts:321-333 | Main result. A list of depths is some forest's document order if and only if it starts at the base depth, never goes below it, and deepens by at most one |
| AccessibilityTree.ParsingGivesTrueDepths | collector/src/a11y-tree.ts:124-147 | The depth counter gives every node of a printed forest, leaves self-closed or not, its true depth, and is back where it started after it |
| AccessibilityTree.ParseUiautomatorTags | collector/src/a11y-tree.ts:127-147 | The tag loop computes the specified list for every tag sequence, unbalanced ones included |
| AccessibilityTree.CounterIsAboveItsLeast | collector/src/a11y-tree.ts:124-147 | Main result. On any tags, matched or not, the counter stands at tags opened less tags closed, counted from the least that this has been |
| AccessibilityTree.LeastIsReached | collector/src/a11y-tree.ts:129 | That least is over every prefix, and reached at one |
| AccessibilityTree.DumpAndParseRoundTrip | collector/src/a11y-tree.ts:112-150 | Main result. Dumping any forest and parsing the dump loses nothing of it |
| MaestroTree.WalkHierarchy | collector/src/a11y-tree.ts:194-215 | The recursive walk pushes exactly the nodes with attributes, at depths that count the ones without |
| MaestroTree.WalkShowsTheRest | collector/src/a11y-tree.ts:194-215 | The walk shows exactly the nodes with attributes, in document order, each as deep as it stands in the hierarchy |
| MaestroTree.MaestroRunsAreSubtreesExactlyWhen | collector/src/a11y-tree.ts:194-215 | Main result. In the parsed list every node's run has its subtree's length if and only if no bare container shows its first node deeper than a node of an earlier sibling |
| MaestroTree.FullHierarchiesAreRight | collector/src/a11y-tree.ts:198 | A hierarchy whose every node has attributes is judged by its true subtrees |
| MaestroTree.ACousinIsTakenForAChild | collector/src/a11y-tree.ts:198-212 | A button beside a bare container takes the container's child for its own |
| IndentedTree.ParseIndentedLines | collector/src/a11y-tree.ts:271-310 | The stack loop computes the specified depths, and pops no more often than it pushes |
| IndentedTree.OrderedIsIncreasing | collector/src/a11y-tree.ts:291-292 | An ordered stack's indents are strictly increasing from the bottom up |
| IndentedTree.PoppedIsOrdered | collector/src/a11y-tree.ts:291 | Popping keeps the stack ordered and leaves only indents smaller than the new line's |
| IndentedTree.StackHoldsOpenLines | collector/src/a11y-tree.ts:291-293 | A line is on the stack exactly while every line since is deeper |
| IndentedTree.DepthCountsEnclosingLines | collector/src/a11y-tree.ts:288-293 | Main result. For any ragged indentation a line's depth is the number of lines that enclose it |
| IndentedTree.DepthIsOneBelowParent | collector/src/a11y-tree.ts:288-293 | A line stands one below the nearest earlier line with a smaller indent, and at 0 without one |
| IndentedTree.IndentationIsRecoveredExactlyWhen | collector/src/a11y-tree.ts:267-315 | Main result. A printed forest gets its true depths if and only if children are deeper than their parent and no sibling is deeper than the one before it |
| AccessibilityJudge.DescendantAnnounces | collector/src/a11y-tree.ts:326-333 | The scan answers whether any node of the run has text, a label or a value |
| AccessibilityJudge.FirstOfEachNameIs | collector/src/a11y-tree.ts:386-444 | Deduplicating by name under a cap keeps the smaller of the cap and the number of distinct names, one of each |
| AccessibilityJudge.KeptAreTheFirsts | collector/src/a11y-tree.ts:386-444 | Those kept are the first node of each name, in document order, and the cap leaves out only names that come later |
| AccessibilityJudge.LabelErrorsAreTheFirsts | collector/src/a11y-tree.ts:405-420 | The label errors are the first unlabelled control of each name, up to the cap, in document order |
| AccessibilityJudge.SizeWarningsAreTheFirsts | collector/src/a11y-tree.ts:422-443 | So are the size warnings, of the judged nodes under the minimum in both dimensions |
| AccessibilityMeasures.SmallExactlyWhen | collector/src/a11y-tree.ts:377-429 | Main result. A target is small if and only if it can be tapped and is short both ways: in points against the minimum, in pixels when pixels by 160 are under the minimum by the density, and never in an unknown unit |
| AccessibilityMeasures.WarningDescribes | collector/src/a11y-tree.ts:423-440 | A warning names the element by label, text or name, and gives sizes that times the density are its pixels by 160 |
| AccessibilityMeasures.EveryWarningIsOfASmallTarget | collector/src/a11y-tree.ts:422-443 | Every size warning in the report is of a small target of the screen, so measured |
| AccessibilityMeasures.ADenseScreensButtonIsSmall | collector/src/a11y-tree.ts:381 | Sixty pixels at 480 to the inch are 20 points, under a minimum of 44; at 160 to the inch they are not |
| AccessibilityJudge.ReportCounts | collector/src/a11y-tree.ts:405-443 | Main result. Label errors number the smaller of the cap and the distinct names of unlabelled controls; size warnings likewise |
| AccessibilityJudge.SizesNotJudgedExactlyWhen | collector/src/a11y-tree.ts:446-458 | The report holds the coverage note if and only if some tappable node has bounds and either the unit cannot be converted or no judged node has any; it blames the unit exactly when it is unknown |
| AccessibilityMeasures.SizesUnjudgedExactlyWhen | collector/src/a11y-tree.ts:446-458 | Main result. The report says that no size was judged if and only if something tappable has bounds and the unit is unknown, or has no density, or nothing that can be tapped has bounds |
| AccessibilityJudge.SizedExactlyWhen | collector/src/a11y-tree.ts:377-384 | A size is judged if and only if the unit converts and some judged node has bounds |
| AccessibilityJudge.OverflowIsNotedExactlyWhen | collector/src/a11y-tree.ts:460-475 | The report names a total if and only if it is over the cap, and then the right one |
| AccessibilityJudge.UnlabelledMeansSilentSubtree | collector/src/a11y-tree.ts:392-406 | On a real tree a control is reported unlabelled if and only if it is judged and neither it nor its subtree announces anything |
| AccessibilityMeasures.UnlabelledExactlyWhen | collector/src/a11y-tree.ts:392-406 | Main result. On a real tree a control is called unlabelled if and only if it is tappable, enabled and not without area, and it and everything below it have only space for label, text and value |
| AccessibilityJudge.ACousinsLabelExcusesAButton | collector/src/a11y-tree.ts:326-333 | In a Maestro hierarchy a silent button beside a bare container is excused by the container's label |
| AccessibilityJudge.AccessibilityFindings | collector/src/a11y-tree.ts:368-477 | Main result. The loop with its counters, its seen set and its cap produces the declared report followed by the coverage notes |
| Calendar.DateOf | collector/src/cron.ts:46-57 | Every day has a Gregorian date that numbers back to it |
| Calendar.DatesInOrder | collector/src/cron.ts:84-87 | Dates are ordered and told apart as days are |
| Calendar.EpochIsAThursday | collector/src/cron.ts:54 | The weekday numbering agrees with 1970-01-01 |
| CronDates.FirstsOfMonths | collector/src/cron.ts:46-57 | The months of a year begin 31, 59, 90, ... days after its first, one later from March in a leap year, and the next year 365 or 366 |
| CronDates.EpochIsMidnight | collector/src/cron.ts:67-68 | The unix epoch is midnight of 1970-01-01, and an offset moves the clock by as much |
| Calendar.StartIsWithinTheMinute | collector/src/cron.ts:67-68 | Dropping the seconds goes back to the start of the minute an instant is in |
| CronFields.PartMeansTerm | collector/src/cron.ts:14-35 | Each printed number, range, star and step is read back as its arithmetic progression, and a step of 0 as nothing |
| CronFields.PrintedFieldMatchesUnion | collector/src/cron.ts:14-36 | Main result. A field printed from any list of terms matches exactly the union of their progressions |
| CronFields.ListFieldMatchesItsMembers | collector/src/cron.ts:14-36 | A comma-separated list of values is accepted on exactly those values |
| CronFields.EmptyNumbersAreZero | collector/src/cron.ts:26-31 | An empty range end, or an empty part, is read as 0 |
| CronFields.WhatFollowsIsNotRead | collector/src/cron.ts:16-27 | What follows a second hyphen or a second slash is not read |
| CronFields.NegativeStepsMeanNothing | collector/src/cron.ts:18 | A negative step matches nothing |
| CronExpressions.FieldsInvertLaid | collector/src/cron.ts:39 | Five parts laid out with any spaces before, between and after are split into just those parts |
| CronExpressions.WrittenSchedulesAreValid | collector/src/cron.ts:38-44 | Every schedule written from terms is valid and its fields are the ones written |
| CronExpressions.WrittenSchedulesMatch | collector/src/cron.ts:46-57 | It matches exactly the minutes whose five readings each lie in their field's union of progressions |
| CronExpressions.WrittenNextRunIsLeast | collector/src/cron.ts:65-77 | Its next run is the least such minute after the given one within a week, and null exactly when there is none |
| CronDates.WrittenSchedulesMatchDates | collector/src/cron.ts:46-57 | Main result. A written schedule matches the minute of a date, an hour and a minute if and only if each of minute, hour, day of the month, month and day of the week is selected in its own field |
| CronDates.WrittenRunsAreOnTheCalendar | collector/src/cron.ts:59-81 | Main result. Its next and previous runs are the first minutes after and before, within seven days, at whose date, hour and minute it fires, and null exactly when there are none |
| CronDates.TheDayOfTheMonthIsKept | collector/src/cron.ts:65-77 | In the twenty-four hours before a time of day on a given day of the month, the schedule for it has that minute as its next run |
| CronExpressions.ValidExactlyWhen | collector/src/cron.ts:38-44 | Main result. Parts laid out with spaces are a valid expression if and only if there are five, of digits, stars, commas, slashes and hyphens only; otherwise there is no run in either direction |
| CronExpressions.BlankIsNoSchedule | collector/src/cron.ts:39 | Nothing but space is no expression |
| CronExpressions.WrittenWeeklySchedulesRun | collector/src/cron.ts:59-63 | Main result. With a star for day of month and month, and minute, hour and weekday satisfiable, it has a next and a previous run from every minute |
| CronSearch.Walk | collector/src/cron.ts:65-75 | The minute-by-minute loop computes the bounded search, stepping before it tests |
| CronSearch.NextRunIsLeast | collector/src/cron.ts:77 | Main result. NextRun is the least matching minute strictly after the starting one within a week, and null exactly when the expression is invalid or there is none |
| CronSearch.PrevRunIsGreatest | collector/src/cron.ts:79-81 | prevRun is the mirror image |
| CronSearch.PrevOfNext | collector/src/cron.ts:65-81 | Main result. Back from the next run the search never passes the starting minute, and meets it if and only if it matches |
| CronSearch.NextOfPrev | collector/src/cron.ts:65-81 | And on from the previous run likewise |
| CronSearch.WeeklySchedulesAlwaysRun | collector/src/cron.ts:59-63 | With every day of the month and every month open, and minute, hour and weekday each satisfiable, both runs exist from every minute |
| CronSearch.EveryWeekHasIt | collector/src/cron.ts:63 | 10080 consecutive minutes hold every weekday, hour and minute |
| CronSearch.MinuteKeysInOrder | collector/src/cron.ts:84-87 | Main result. In years 1000 to 9999 the key orders minutes as time does, so no two share one |
| CronDates.KeyReadsBack | collector/src/cron.ts:84-87 | The key shows the year, month, day, hour and minute in their places, between fixed separators |
| CronDates.AKeyInFull | collector/src/cron.ts:84-87 | Seven past nine on 15 January 2026 has the key 2026-01-15T09:07 |
| CronSearch.MissedExactlyWhen | collector/src/alerts.ts:293-310 | Main result. Schedule-missed fires if and only if a schedule with history last ran in a minute other than its latest due one, and that is more than the threshold ago |
| Alerts.TheLastFindingWins | collector/src/alerts.ts:378 | Of several findings with one key the last is folded in |
| Alerts.OneLiveRowPerFinding | collector/src/alerts.ts:371-410 | Main result. From any table, duplicate live rows included, reconcile leaves exactly one live row for each distinct key found and none for others, and returns a row exactly for keys that were not live |
| Alerts.OpenedInTheOrderFound | collector/src/alerts.ts:378-407 | Alerts open, and are returned, in the order in which their conditions were first found |
| Alerts.ReconcileKeepsHistory | collector/src/alerts.ts:381-407 | Nothing is deleted, no resolved row rewritten; a live row is resolved as it stood or refreshed from the last finding of its own key; what is returned is what was appended, opened from such a finding and seen once |
| Alerts.KeysTellPairsApart | collector/src/alerts.ts:373-377 | With NUL-free rules two alerts share a key only if rule and subject agree |
| Alerts.ANulInARuleCollides | collector/src/alerts.ts:373-377 | With a NUL in a rule two different alerts can share a key |
| AlertHistory.OneAlertPerRisingEdge | collector/src/alerts.ts:371-418 | Main result. Over every interleaving of reconcile, snooze expiry, acknowledge and snooze: one live alert while a condition holds and none while not; its seen_count is the length of the present run of passes, its first_seen and last_seen the times of the run's ends, its words those of the last pass; and one announcement and one row per rising edge |
| AlertRuns.RowsAreTheRuns | collector/src/alerts.ts:371-418 | Main result. Over every such interleaving the rows of a key are, in order, exactly the maximal runs of passes in which it held: each has its run's first and last times, length and last words, and is live while the run lasts or was resolved at the time of the first pass without the condition |
| AlertRuns.SpansAreTheRuns | collector/src/alerts.ts:384-395 | The runs computed pass by pass are the maximal ones, apart and in order, and hold every pass at which the key was found |
| AlertHistory.TheCurrentRunIsUnique | collector/src/alerts.ts:384-390 | The length of the present run of passes is well defined |
| AlertHistory.OneMorePass | collector/src/alerts.ts:371-410 | A further pass lengthens the run or ends it, and adds a rising edge exactly when the condition begins |
| AlertHistory.ResolvedIsFinal | collector/src/alerts.ts:372-396 | No event moves an alert to another id or key, and none changes a resolved one |
| AlertHistory.SnoozeEndsExactlyWhenDue | collector/src/alerts.ts:412-418 | Main result. Left alone, a snoozed alert that has not resolved is open again if and only if an expiry has run at or after its time |
| AlertHistory.AcknowledgedStays | collector/src/api/mutations.ts:600-612 | Left alone, an acknowledged alert stays acknowledged until it resolves |
| AlertHistory.AcknowledgingAcks | collector/src/api/mutations.ts:600-612 | An acknowledge marks its live alert and changes nothing else, and left alone it stays so until it resolves |
| AlertHistory.SnoozingSnoozes | collector/src/api/mutations.ts:613-625 | A snooze snoozes its live alert until the time given and changes nothing else, and left alone it ends exactly when due |
| AlertHistory.OpenStays | collector/src/alerts.ts:412-418 | Left alone, an open alert stays open until it resolves |
| AlertHistory.ReturnedAlertsAreOpen | collector/src/alerts.ts:399-407 | What reconcile returns is open, unsnoozed, unresolved and seen once, now |
| AlertHistory.IdsStayFresh | collector/src/alerts.ts:399-407 | Over every history a new alert's id differs from every id there is |
| AlertHistory.Notify | collector/src/alerts.ts:472-485 | One message per returned row, in order, with its rule and words, urgent exactly for a critical one; none without a webhook |
| AlertHistory.AlertTable.SettleRows | collector/src/alerts.ts:381-397 | The first loop refreshes the first live row of each current key, resolves every other live row and leaves the unmet findings |
| AlertHistory.AlertTable.OpenRows | collector/src/alerts.ts:399-407 | The second loop opens one row per unmet finding, with the next ids |
| AlertHistory.AlertTable.ReconcileFindings | collector/src/alerts.ts:371-410 | reconcile over the stored rows leaves and returns exactly what is specified |
| AlertHistory.AlertTable.Update | collector/src/api/mutations.ts:600-625 | The expiry, acknowledge and snooze UPDATEs leave the specified rows and report a change exactly when a live row has the id |
| AlertHistory.AlertTable.AlertTick | collector/src/server.ts:1287-1305 | A tick expires, then reconciles, then sends one message per opened row |
| ScheduleRuns.RangeIsPrefix | collector/src/alerts.ts:58-61 | The id range [s-, s.) holds exactly the strings that begin with the schedule's id and a hyphen |
| ScheduleRuns.OwnExactlyWhen | collector/src/alerts.ts:62-63 | A job is the schedule's own if and only if its id is the schedule's, a hyphen and twelve digits, alone or followed by two hyphens and anything on one line |
| ScheduleRuns.OwnJobsAre | collector/src/alerts.ts:62-70 | Range scan and pattern together keep exactly the schedule's own jobs |
| ScheduleRuns.RunKeyIsTheRunExactlyWhen | collector/src/alerts.ts:73 | Main result. A job is counted under its run's id if and only if the schedule's id and hyphen hold no double hyphen; otherwise all the schedule's jobs share one key |
| ScheduleRuns.RunsAreNotShared | collector/src/alerts.ts:62-73 | Two schedules without double hyphens share no run |
| ScheduleRuns.AJobOfTwoSchedules | collector/src/alerts.ts:62-73 | With one, a job can be two schedules' own |
| ScheduleRuns.GroupsAre | collector/src/alerts.ts:71-79 | Each map entry sums the statuses and reasons of its own jobs and no others |
| ScheduleRuns.ScheduleRunsAre | collector/src/alerts.ts:80-91 | Main result. One entry per run whose jobs all finished, greatest id first, skipped exactly when none of its jobs is done or failed and some skipped, with its members' reasons |
| ScheduleRuns.MembersInOrder | collector/src/alerts.ts:62-79 | A run's members are exactly the schedule's own jobs with its key, in the scanned order |
| ScheduleRuns.ReasonsAreTheSkips | collector/src/alerts.ts:75-76 | Its reasons are the last errors of its skipped members that left one, in that order |
| ScheduleRuns.GatherRuns | collector/src/alerts.ts:71-79 | The loop that fills the map computes the specified groups |
| ScheduleRuns.ScheduleRunsOf | collector/src/alerts.ts:57-92 | scheduleRuns computes the specified list |
| ScheduleRuns.FiredRunsAreFound | collector/src/server.ts:1079 | A fired run's id, alone or with a fan-out child's suffix, is its schedule's own and names its run |
| ScheduleRuns.FiredIdIs | collector/src/server.ts:1072-1079 | A fired run's id ends in the digits of its minute's key |
| ScheduleRuns.GreatestIdIsLastFired | collector/src/alerts.ts:83-85 | Ids of one schedule are ordered as the minutes they fired in |
| ScheduleRuns.SkippingExactlyWhen | collector/src/alerts.ts:317-330 | Main result. Schedule-skipping fires if and only if the streak-th newest finished run and every one since have skipped |
| Tokens.NoTwoLiveTokensShareAName | collector/src/auth.ts:137-138 | Main result. Over every sequence of creations and revocations no two unrevoked records share a name |
| Tokens.RevokedIsForGood | collector/src/auth.ts:154-165 | No such sequence removes, reorders or edits a record except to revoke it, and none makes a revoked one live again |
| Tokens.AcceptedExactlyUntilRevoked | collector/src/auth.ts:193-204 | Main result. An issued token is accepted after any further operations if and only if none of them revoked its id or name and it has not expired |
| Tokens.CreatesExactlyWhenTheNameIsFree | collector/src/auth.ts:126-151 | A well-formed request succeeds if and only if the file is readable and the name has no live token; a corrupt file is left as it is |
| Tokens.UniqueIsASet | collector/src/auth.ts:143 | The record lists each scope asked for once, and no other |
| Tokens.IssuedAsAsked | collector/src/auth.ts:139-147 | An issued record has exactly the scopes asked for, each once, the trimmed name, the token's digest, and whole days to live if any were asked for |
| Tokens.AcceptedWithItsScopes | collector/src/auth.ts:193-204 | Whenever the token is accepted later it is with those scopes and under that name |
| Tokens.RefusesExactlyWhen | collector/src/auth.ts:130-138 | createToken refuses if and only if the trimmed name is empty, too long or holds another character, a scope is none of the five, none is asked for, the file cannot be read or a live token has the name |
| Tokens.RevokingFreesTheName | collector/src/auth.ts:154-165 | After a revoke by name the name is free |
| Tokens.RevokeStamps | collector/src/auth.ts:154-165 | A revoke stamps the time on every live record of the id or name and touches nothing else |
| Tokens.LookupFindsHolder | collector/src/auth.ts:193-204 | The one record of a token's digest decides |
| Tokens.LookupExactlyWhen | collector/src/auth.ts:193-204 | Main result. For every table, token and time, lookup gives a record if and only if it is the first with the token's digest, not revoked and not expired |
| Tokens.OnlyIssuedTokensAreAccepted | collector/src/auth.ts:193-204 | Main result. After any history of a new file an accepted token was issued in it |
| Tokens.NoFileNoToken | collector/src/auth.ts:184-189 | A file that is missing or corrupt denies everything |
| Tokens.TokenFile.CreateToken | collector/src/auth.ts:126-151 | createToken refuses in the specified order and otherwise appends exactly its record |
| Tokens.TokenFile.RevokeToken | collector/src/auth.ts:154-165 | revokeToken revokes exactly the live records that answer, returns their number, and writes only if there is one |
| TokenCache.ServedIsUnderASecondOld | collector/src/auth.ts:170-191 | Main result. With a monotone clock, an mtime no two contents share and no file appearing between a failed stat and its read, every table served is the file's content, or empty for a missing or corrupt file, at some instant under a second before the call, even with writes between stat and read and the file removed and made again |
| TokenCache.RevocationHoldsWithinASecond | collector/src/auth.ts:170-204 | So a token refused by every content from an instant on is refused by every call a second or more later |
| TokenCache.StatsAreASecondApart | collector/src/auth.ts:172-173 | Main result. Two calls that stat the file have clock readings at least a second apart, however many calls fall between and even if the clock is set back |
| TokenCache.ReadsExactlyWhenChanged | collector/src/auth.ts:169-191 | Main result. After the first call, which reads, a call that stats reads the file if and only if its mtime is not the one the last reading call found; a call that does not read serves what that one read |
| TokenCache.AWriteWithTheSameMtimeIsMissed | collector/src/auth.ts:179-182 | A write that keeps the mtime is never served |
| TokenCache.ARemovedFileIsServed | collector/src/auth.ts:174-182 | A file that appears between a failed stat and its read, and is removed, goes on being served |
| TokenCache.AClockSetBackKeepsTheCache | collector/src/auth.ts:172-173 | A clock set back keeps the cache in use until it has caught up |
| TokenCache.TokenReader.LookUp | collector/src/auth.ts:193-204 | The scan over the served table is the specified lookup |

## Left out

- A journal file write is atomic: a crash falls before or after it, never inside. The source reads a torn or unreadable journal as an empty one, and the model has no such journal.
- The journal entry's platform, kind and time stamp, which no decision reads.
- Two executors on one machine, or two command lines changing the token file at once: each operation is whole.
- DeviceRuns.NoRunLosesAnOriginal: asks of each applyState call what `ApplyIsSafeExactlyWhen` shows to be necessary and sufficient for that call.
- DeviceRuns.WithStateRoundTrip: the caller's function is its outcome; changes it makes to managed settings are outside changes in `DeviceRuns`.
- DeviceCallers.CallersAreDisciplined: takes the Android version as enough for every variant; passes that the source refuses below some version are among those it speaks of.
- Case folding is of ASCII letters; a setting value outside ASCII that differs only in case would be told apart.
- The output parsers of `device-state.ts`: a read that does not fail is truthful, while the parsers can also give null for output they do not recognise, although the setting has a value.
- SQLite errors that roll back a whole transaction by themselves; a statement that fails changes nothing.
- Transactions.CounterReturnsExactlyWhenNothingCloses: supposes cleanups that work; with ones that fail, `NothingClosesWithoutCloseDb` speaks of programs that hold no closeDb.
- Opening the database again after `closeDb`, and the write-ahead and timeout settings of `openDb`.
- Tables that the migration only creates, indexes, NOT NULL and UNIQUE constraints, and the executor CHECK; result rows are taken in the order (iter, rowid).
- MigrationRows.MigrateKeepsJobsExactlyWhen: supposes, as SQLite ensures, that rows hold cells of their table's columns and pass its CHECK.
- MigrationRows.ClaimedJobsEndLeased: supposes a number in attempts, as its NOT NULL INTEGER column holds.
- A result payload whose JSON is `null`, on which reading `final` throws and the widening is rolled back: every payload is judged final or not.
- MigrationSteps.KilledMigrateIsCompleted: supposes that later attempts judge skips by the same rules; only the clock may differ.
- `closingStatus`, JSON parsing and the clock are parameters of the migration.
- The regular expressions that cut tags, JSON and lines out of the tools' text, and the attributes they read: the parsers start from tags, from a JSON tree, and from indented lines.
- AccessibilityTree.DumpAndParseRoundTrip: is about the nesting; an element is carried along whole.
- AccessibilityJudge.AccessibilityFindings: an element's name is a field, and a finding carries its name and sizes, not its sentence; measures are reals.
- Daylight saving: local time is at a fixed offset.
- CronFields.PrintedFieldMatchesUnion: is about numbers of at most 308 digits, past which JavaScript reads infinity.
- CronSearch.MinuteKeysInOrder: is about four-digit years; the key is not padded beyond them.
- The rules of `evaluate` other than schedule-missed and schedule-skipping, and the wording of alert messages.
- The webhook itself: a message is what is posted, whether or not the post succeeds. The notified column is written and never read.
- The `created` field that `scheduleRuns` gathers and never returns. Strings compare by code point, as SQLite's do; JavaScript's order differs only outside the basic plane, where no run id has a digit.
- Tokens.AcceptedExactlyUntilRevoked: supposes that no other record is issued the same random token; hashing is taken to be injective.
- Comparing digests in constant time, scope expansion, and the table of routes and scopes, which is case reading.
- TokenCache.ServedIsUnderASecondOld: a stat fails only when there is no file, and an mtime is never -1.
- HTTP routes, the dashboard, the queue with its leases and claims, and the drivers of devices, browsers and emulators.
