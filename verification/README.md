# Models and proofs of AutoPlan's core

AutoPlan drives agent command line programs over the plans of a project. This project models the parts
of it that hold state over many steps, in Dafny 4.11, and proves what they keep. `dafny verify
dfyconfig.toml` checks all of it. What the source does by changing objects step by step is a class or a
method with loops here, proved against a specification function; the main results are lemmas about those
functions, over every input, every run or every reachable state.

| component | files |
|---|---|
| Writing the database to disk, crashes, backups, agreement of memory and disk | `durable_store.dfy`, `backups.dfy`, `sql_commands.dfy` |
| Single-owner lock of the database | `owner_lock.dfy` |
| Data migration at start-up | `sort_orders.dfy`, `intake_links.dfy`, `ai_configs.dfy`, `chat_messages.dfy`, `chat_homes.dfy`, `scan_files.dfy`, `sorting.dfy`, `migration.dfy`, `migration_carries.dfy` |
| Project loops: mutual exclusion, exclusive workspaces, who runs and who gets in | `loop_runtime.dfy`, `loop_entries.dfy` |
| Task time accounting | `task_time.dfy` |
| Session resume and fallback, session ids in program output | `text_patterns.dfy`, `text_spelling.dfy`, `pattern_readings.dfy`, `codex_session.dfy`, `session_protocol.dfy`, `session_complaints.dfy` |
| Activity printers | `text.dfy`, `line_stream.dfy`, `dedup_window.dfy`, `claude_activity.dfy`, `claude_events.dfy`, `codex_activity.dfy` |
| Command lines and prompt delivery | `agent_cli.dfy` |
| Duplicate detection, derived titles | `intake.dfy`, `intake_titles.dfy` |

How the state is represented: the disk is four files, each missing, torn or intact with some data, and a
crash is an end in any state that a call passes through; tables are sequences of rows in insertion order;
concurrent calls of the loop service are steps between two awaits, in any order; processes that compete
for the lock take one file or network call at a time, in any order. Clocks, random tokens, the outcomes
of file operations, the SQL engine's effect on the contents, the reading of a line as JSON, keyword
tables, PATH lookup and path resolution are parameters, and the results hold for all their values.

## Where a plausible promise does not hold

Each has a lemma that says exactly when it holds, for all inputs, and, where the condition does not show it
by itself, one at an input at which it fails.

- The activity window may show a line twice: the rebuild of `recent` forgets the newest line. It shows at
  most one line twice, never one three times (`RepeatExactly`, `RepeatWitness`, `RunsStayAlmostDistinct`).
- Chunk boundaries matter to the Codex printer when a chunk ends inside an escape sequence, and only then
  (`CutIsHarmlessIff`, with the continuation of `CutEscape`).
- `persist` is crash safe exactly when the main file or the backup is intact at its start (`SafeExactly`, with
  the states of `FaultlessVisits`).
  Where the swap is a copy, readers can take a torn main file although the mirror is whole
  (`ReaderSafeExactly`), and two persists in a row can lose everything (`TwoFailuresLoseAll`).
- A call that throws may have changed the memory: the schema guard of `persist` comes after the statement, or
  after the COMMIT of a batch (`ThrowChangesNothingExactly`, `RefusedBatch`). Memory and disk then differ
  without a recorded error (`AgreementExactly`).
- `busy` stays set for good when the finally block of `runOnce` throws on reading the phase or on recording
  a hook error (`ReleasedExactly`, `PhaseReadLeaks`, `LeakIsForever`).
- A single cycle asked for outside a running loop does not look at the workspace's owner, so two busy
  projects may share one; running projects never do (`StepKeepsApartExactly`, `BusyProjectsMayShare`).
- Editing a requirement is not checked for duplicates (`EditKeepsUniqueExactly`, `EditMayDuplicate`).
- After a fallback, the session id reported for Claude may be that of the failed resume, which the printer
  still holds (`ClaudeIdIsStaleExactly`, `FailedResumeIsReported`).
- After a fallback, Codex may report an id although neither output names one. It reports one exactly if the
  window after some chunk of either attempt shows an occurrence (`CodexIdIsStaleExactly`). One of neither output
  is torn out of a longer word by a window or a chunk, reaches from the one output to the other, or ends where
  the chunks end (`IdOfNeitherIsCutOrJoined`): inputs cut in the failed resume (`CutIdIsReported`), cut in the
  fresh attempt (`CutInFreshIsReported`), and joined (`JoinedIdIsReported`).
- The link backfill gives way to a first phase that leads to another plan (`LinkedExactly`,
  `TakenPhaseKeepsUnlinked`).
- Finishing a task into the running status breaks its account (`FinishIntoRunning`), and so does a writer that
  takes a running task out of running without finishing it: an interrupted plan, a reset, a redone task, or a
  plan file in which its box is checked. The account is the time spent running exactly if no such write comes
  after the start (`ConservedExactly`, with the writers of `EndsRunExactly` and the run of `CheckedBoxLosesRun`).
- A body that was just submitted may be accepted again in another spelling when no title is given: the title is
  derived from the raw text (`ResubmittedExactly`). It is refused with given titles (`GivenTitleIsRefused`) and
  with derived ones if the first lines are the same, or are short and no carriage return stands alone
  (`OmittedTitleIsRefused`); without each of the last two there is an input (`CutTitleIsAccepted`,
  `LoneReturnIsAccepted`).

## Model

| member | source | states |
|---|---|---|
| `AppDatabaseModel.AppDatabase.RetryFileOperation` | src/database.js:1115-1129 | The retry loop makes at most one attempt per delay and one more, stops at the first success or at an error that is not retryable, and passes through exactly the disk states of the specification |
| `AppDatabaseModel.AppDatabase.SwapIn` | src/database.js:998-1003 | The swap is a copy and a best-effort unlink on Windows, a rename elsewhere, with every state on the way |
| `AppDatabaseModel.AppDatabase.WriteFiles` | src/database.js:987-1009 | tmp, mirror, backup and swap in this order, a failed backup being tolerated and any other failure ending the sequence, with every state on the way |
| `AppDatabaseModel.AppDatabase.Persist` | src/database.js:981-1010 | The schema guard first, then the file operations; `lastPersistError` records their failure and nothing else does |
| `AppDatabaseModel.AppDatabase.RunStatement` | src/database.js:1012-1017 | A statement that throws changes nothing, one that changed rows or is no row statement persists |
| `AppDatabaseModel.AppDatabase.RunBatch` | src/database.js:1019-1043 | Blank statements are skipped, a failing statement or COMMIT restores the contents from before, and one persist follows if any statement asked for it |
| `CrashSafety.CrashIsRecoverable` | src/database.js:981-1010 | From an intact main file, a crash in any state of a persist under any failures leaves main, mirror or backup whole with old or new data; with a rename the main file itself is old or new |
| `CrashSafety.SafeExactly` | src/database.js:987-1009 | Every crash of every persist leaves a whole copy if and only if the main file or the backup is intact at the start |
| `CrashSafety.ReaderSafeExactly` | src/database.js:82-91 | Readers find old or new data in the main file after every crash if and only if the swap is a rename |
| `CrashSafety.TwoFailuresLoseAll` | src/database.js:989-999 | With the copying swap, a persist that failed in backup and swap lets a crash in the next one lose every copy |
| `CrashSafety.FaultlessVisits` | src/database.js:986-999 | Even without failures a persist passes through a torn mirror, and on Windows through a torn main file |
| `CrashSafety.MainNeverGoesBack` | src/database.js:58-72 | With the renaming swap, over any run of changes, persists, crashes and restarts that load what is read, the main file is intact, is what readers take, is never newer than the memory, and its generation never falls |
| `CrashSafety.HappenKeepsSound` | src/database.js:82-100 | No single change, persist, crash or restart takes the main file back or ahead of the memory |
| `Disks.RetryEnd` | src/database.js:1115-1129 | A successful retry sequence ends with the operation applied |
| `Disks.PersistSeen` | src/database.js:987-1009 | In every state of a persist main and backup are as at first, or the mirror is complete and a renamed main file is old or new; success ends with the new main file, a failed rename with the old |
| `Backups.RetryExactly` | src/database.js:1115-1129 | A file operation fails for good if and only if its first failure that may not be retried, or its sixth failure, comes before a success |
| `Backups.PersistExactly` | src/database.js:981-1010 | A persist succeeds if and only if the directory can be made and neither write nor the swap is given up; main and mirror then hold the new data and the backup the main file of before, unless its copying was given up |
| `Backups.FaultlessPersist` | src/database.js:986-1004 | On either platform a persist without failures leaves main and mirror with the new data, the backup with the old main file, and no temporary file |
| `Backups.MainIsBackedUp` | src/database.js:991-1003 | Under any failures, no state of a persist has another main file without a backup of the old one, unless the backup was given up |
| `Backups.BackupIsOneBehind` | src/database.js:991-997 | Over two persists that succeed the backup holds the data of the first, unless the second gave it up |
| `Backups.TmpIsRemoved` | src/database.js:998-1009 | Whether it succeeds or not, a persist leaves no temporary file unless its last call, the removal, fails |
| `Backups.PersistedStays` | src/database.js:58-72 | With the renaming swap, after a persist that succeeded every later start, over any run, reads contents at least as new |
| `Backups.CrashLosesTheLastChanges` | src/database.js:58-72 | With the renaming swap, the start after a crash has the contents persisted before or those that were being persisted |
| `Backups.MemoryCountsChanges` | src/database.js:1012-1017 | A program that does not crash has every change in memory, whatever its persists do |
| `Backups.ReadsFirstThatExists` | src/database.js:82-91 | A start reads the main file, the mirror only without it, and the backup only without both |
| `Backups.RestoredExactly` | src/database.js:93-100 | What was read is the main file then, unless the copying is given up, and the other files stay |
| `AppDatabaseModel.ThrowChangesNothingExactly` | src/database.js:1019-1043 | A call throws an SQL error if and only if a statement, BEGIN or COMMIT fails, and a schema error if and only if the guard refuses the contents it asks to persist; the disk is then untouched, and the memory if and only if those contents are the old ones |
| `AppDatabaseModel.RefusedBatch` | src/database.js:1034-1042 | A batch that throws after its COMMIT, with memory and disk apart and no error recorded |
| `AppDatabaseModel.AgreementExactly` | src/database.js:1004-1043 | A call keeps "no recorded error means the main file is the memory" if and only if an error was recorded before, it leads nowhere, or the contents it leads to are the old ones, or are to be persisted and accepted by the guard |
| `AppDatabaseModel.AgreementOverRuns` | src/database.js:1064-1080 | After a start, over any sequence of run, insert and runBatch whose own statements keep the schema acceptable, and of which SELECT, EXPLAIN and blank ones, and row statements that report no row, change nothing, memory and main file agree unless an error is recorded |
| `AppDatabaseModel.UnchangedBatch` | src/database.js:1026-1032 | A batch that asks for no persisting has not changed the contents, if SELECT, EXPLAIN and row statements that report no row change nothing |
| `SqlCommands.AsksExactly` | src/database.js:1073-1080 | A statement is persisted after unless it is blank, or starts, in any letter case and behind blanks, with SELECT or EXPLAIN, or with UPDATE, DELETE, INSERT or REPLACE without changing a row |
| `SqlCommands.FirstCommandExactly` | src/database.js:1145-1147 | The command is a word if and only if the text has blanks, then the word in any letter case, then a blank or its end |
| `AppDatabaseModel.PersistsExactly` | src/database.js:1012-1043 | A call that completes writes to disk if and only if one of its statements was to be persisted after; otherwise disk and error record stay, and if so the files are those of one persist of the new contents |
| `AppDatabaseModel.ExecAllExactly` | src/database.js:1026-1032 | A batch executes its statements in order, stops at one that throws, and asks for persisting if and only if one of them does |
| `AppDatabaseModel.NonBlankOneMore` | src/database.js:1021-1024 | The statements of a batch are exactly those that are not blank, in order |
| `AppDatabaseModel.BatchIsOneByOne` | src/database.js:1019-1043 | A batch that completes leaves the contents that its statements leave one by one |
| `OwnerLock.AtMostOneHolder` | src/database.js:1178-1221 | In any run of any number of processes, a holder finds its own record in the metadata file, and no other process has the port |
| `OwnerLock.HolderIsUndisturbed` | src/database.js:1206-1219 | No call of another process changes a holder's record or its port |
| `OwnerLock.ReleaseDeletesOnlyItsOwn` | src/database.js:1223-1243 | A step of a release changes the metadata only by deleting the own record, with the port still bound |
| `OwnerLock.CrashedLockCanBeTaken` | src/database.js:1205-1216 | Whatever metadata a crash leaves, a free port lets an unhindered process become the holder, unless the path is no regular file |
| `OwnerLock.RunInv` | src/database.js:1178-1243 | Exactly the process in a phase with the port has it, a holder's record is in place, and a writer finds no file |
| `OwnerLock.ReleaseIsClean` | src/database.js:1223-1243 | After an unhindered release there is no metadata, the port is free and nobody holds the database |
| `OwnerLock.UnreadReleaseLetsGo` | src/database.js:1223-1243 | A release that cannot read its record leaves it, and frees the port |
| `OwnerLock.UndeletedReleaseLetsGo` | src/database.js:1223-1243 | A release that cannot delete its record leaves it, and frees the port |
| `OwnerLock.SecondReleaseDoesNothing` | src/database.js:1223-1226 | A release asked for again, while it goes on or afterwards, does nothing more |
| `OwnerLock.CrashFreesPort` | src/database.js:1178-1221 | A crash in any phase frees the port that the process had, leaves the metadata, and ends its calls |
| `OwnerLock.CrashedHolderIsReplaced` | src/database.js:1205-1216 | After the crash of a holder another unhindered process becomes the holder |
| `OwnerLock.HolderExactly` | src/database.js:1206-1219 | A process becomes the holder if and only if it writes its record where there is none |
| `OwnerLock.HolderKeepsOthersOut` | src/database.js:1178-1204 | While a process holds the database, another that asks for it is refused and nothing else changes |
| `OwnerLock.HinderedTakingLetsGo` | src/database.js:1205-1221 | A process hindered after it has the port gives it back; what it leaves of the metadata is what it found, or nothing, or a partial record |
| `SortOrders.BackfillPlanSortOrders` | src/database.js:914-940 | The loops over the selected and grouped rows give every plan without a position the rank it has among those of its project, counted from the largest position |
| `SortOrders.BackfillGroup` | src/database.js:929-938 | Within a project the running `nextOrder` gives the n-th plan without position the largest position plus n, and touches no other row |
| `SortOrders.LargestOrder` | src/database.js:930-933 | The reduce yields the largest position of the project, 0 if there is none |
| `SortOrders.CollectByProject` | src/database.js:920-926 | The map holds for each project its plans in the order of the query, and its keys are distinct |
| `SortOrders.OrderBySorts` | src/database.js:915-919 | The query's order is strict by project, creation time as text, and id |
| `SortOrders.EveryPlanIsPlaced` | src/database.js:934-938 | Every plan ends with a position above 0, one above 0 is kept, and no other column changes |
| `SortOrders.NewOrdersAreConsecutive` | src/database.js:934-938 | New positions lie above all old ones of the project, follow creation order, and the next plan gets the next number |
| `SortOrders.CreationDecides` | src/database.js:914-940 | Of two plans of a project without position the one created first, or else the one with the smaller id, gets the smaller one; no project counts as project 0 |
| `JsText.TextBeforeExactly` | src/database.js:915-919 | A text sorts before those that it begins and those with a greater character where they first differ |
| `SortOrders.OrdersAreDistinctExactly` | src/database.js:914-940 | Positions end pairwise distinct within each project if and only if the old positive ones were |
| `SortOrders.BackfillIdempotent` | src/database.js:914-940 | A second backfill changes nothing |
| `IntakeLinks.InsertLinks` | src/database.js:691-711 | The insert-or-ignore over all joined intakes of a kind |
| `IntakeLinks.LinksOnlyGrow` | src/database.js:697-709 | Existing links stay in front unchanged and both unique indexes stay unique |
| `IntakeLinks.NewLinksAreJustified` | src/database.js:697-709 | A new link is the first phase of an intake whose positive linked plan exists in its project |
| `IntakeLinks.NewLinksExactly` | src/database.js:691-711 | New links are numbered on from the last, and each names an intake, its project, its existing plan of that project, phase 1 without title, and the time |
| `IntakeLinks.LinkedExactly` | src/database.js:677-681 | An intake with a plan ends linked with it if and only if it was, or no link held its first phase |
| `IntakeLinks.TakenPhaseKeepsUnlinked` | src/database.js:691-711 | An intake whose first phase leads to another plan, and which the backfill leaves unlinked |
| `IntakeLinks.BackfillLinksIdempotent` | src/database.js:691-711 | A second backfill at any later time adds no link |
| `AiConfigs.MigrateAiConfigsToGlobal` | src/database.js:764-813 | Grouping by identity, sorting each group, remapping conversations group by group and deleting the duplicates gives exactly the kept rows and the repointed conversations |
| `AiConfigs.RemapDuplicates` | src/database.js:792-808 | The collected identifiers are exactly those of rows that are not smallest under their key, and every conversation of one of them points at the smallest |
| `AiConfigs.GroupByKey` | src/database.js:775-788 | The groups hold for each key its rows in table order, and nothing else |
| `AiConfigs.NoTwoShareKey` | src/database.js:764-813 | Afterwards no two configurations are equal in all of name, provider, address, key, model, temperature, depth and budget, and identifiers are distinct |
| `AiConfigs.RemainingExactly` | src/database.js:793-796 | A row remains, unchanged, if and only if no row that is equal in those columns has a smaller identifier |
| `AiConfigs.EveryKeyKept` | src/database.js:794-796 | Every key is still there, on the row that had its smallest identifier |
| `AiConfigs.ReferencesKeepMeaning` | src/database.js:798-803 | A conversation that pointed at a configuration points at an existing one with the same key |
| `AiConfigs.RepointedExactly` | src/database.js:798-803 | A conversation changes if and only if its configuration is removed, and then only in two columns |
| `AiConfigs.SettledConfigsStay` | src/database.js:764-813 | Over global rows with distinct keys a pass changes neither configurations nor conversations |
| `AiConfigs.MigratedConfigsSettled` | src/database.js:764-813 | The result is global with distinct keys, holds only rows that were there, and is empty only if the table was |
| `ChatMessages.MigrateChatMessagesToConversation` | src/database.js:835-896 | The three updates and the loop over projects |
| `ChatMessages.MessageIntegrity` | src/database.js:835-896 | Afterwards every message has a project, one whose conversation exists has that of the conversation, and every message of a known project has a conversation |
| `ChatMessages.NoMessageLost` | src/database.js:838-864 | No message is lost or otherwise changed: it keeps its conversation if it has one, and its project if and only if it has one that its conversation does not contradict |
| `ChatHomes.MessageGoesHome` | src/database.js:838-895 | A message ends in the project of its conversation if that exists, else in its own, else in the default one; one without a conversation ends in a default conversation of its project if the project exists; nothing else about it changes |
| `ChatHomes.NewConversation` | src/database.js:880-890 | A new conversation is a default one of a known project, numbered on from the last, of the time of the pass |
| `ChatMessages.ConversationsStay` | src/database.js:837 | Conversations stay in front, changed only where the project was missing |
| `ChatMessages.CreatedExactly` | src/database.js:866-895 | A default conversation is created for exactly the projects that have a message without conversation and no default conversation, one for each |
| `ChatMessages.FileProjectIsSound` | src/database.js:866-895 | The turn of one project keeps projects of messages and conversations in agreement and leaves no message of the project without conversation |
| `ChatMessages.SettledIsSound` | src/database.js:837-864 | After the three updates everything has a project and messages agree with their conversations |
| `ChatMessages.ChatsIdempotent` | src/database.js:835-896 | A second pass changes nothing, whatever its time, default project and choice of rows |
| `ScanFiles.MigrateScanFilesTable` | src/database.js:942-979 | Nothing happens to a table that is keyed by project, another is filled row by row with insert-or-replace |
| `ScanFiles.RebuiltIsKeyed` | src/database.js:950-959 | The rebuilt table has no two rows of one project, type and path, and no row without a project |
| `ScanFiles.LastOfFileRemainsExactly` | src/database.js:962-976 | A row is in the rebuilt table if and only if it is an older row, with its project or the fallback, and the last of its file |
| `Migration.Migrator.Migrate` | src/database.js:608-617 | The steps in their order lead to the specified tables |
| `Migration.Migrator.EnsureDefaultProject` | src/database.js:620-632 | The first project by id, or a new one made from the legacy row |
| `Migration.Migrator.EnsureDefaultSettings` | src/database.js:718-762 | One insert-or-ignore for each default in turn |
| `Migration.Migrator.MigrateScanFiles` | src/database.js:942-979 | The scan table is rebuilt with the default project, or project 1 where that is 0 |
| `Migration.Migrator.AssignLegacyRows` | src/database.js:652-656 | Rows without a project in the six tables get the default project, others stay |
| `Migration.Migrator.BackfillWork` | src/database.js:612-613 | Links before positions, both over the assigned rows |
| `Migration.Migrator.EnsureProjectState` | src/database.js:634-650 | A state row for the project, from the legacy row, unless it has one |
| `Migration.Migrator.MigrateConfigs` | src/database.js:764-833 | Deduplication with remapped conversations, then the default configuration if no global one exists |
| `Migration.FirstProjectExists` | src/database.js:621-622 | The default project is one of the table and has the smallest identifier |
| `Migration.DefaultProjectSettled` | src/database.js:620-650 | After a pass the default project exists, has a state, and is the default of every later pass; other rows stay |
| `Migration.DefaultsOnlyFill` | src/database.js:759-761 | A setting keeps its value; it is there afterwards if and only if it was or is in the list, with a value of the list |
| `Migration.DefaultConfigExactly` | src/database.js:815-833 | There is a global configuration after a pass, and one is made if and only if the table was empty |
| `MigrationCarries.SettingsGoToTheirColumns` | src/database.js:821-832 | Through the whole pass, each column of the configuration that is made has the value of before the pass under its own key, else the default for that key, and where that is empty its fixed fallback |
| `MigrationCarries.OneSettingOneColumn` | src/database.js:821-832 | Another value of one setting changes the column of that setting and no other |
| `MigrationCarries.DefaultsExactly` | src/database.js:606-608 | A setting keeps its value, or gets the first default for its key |
| `MigrationCarries.LegacyRowIsCarried` | src/database.js:620-650 | Through the whole pass, the first project gets the workspace of the older row, and a new state its phase, interval, command, hash, error and time, each with its own fallback; what exists stays |
| `Migration.NoRowLeftBehind` | src/database.js:608-613 | After a pass the default project exists, no row of the six tables is without a project, and a rebuilt scan table meets its key |
| `Migration.RowsKeepTheirProject` | src/database.js:652-658 | In requirements, feedback, attachments, events and plans every row stays in place; one without a project is given the default one, any other keeps its own, and nothing else changes but the position of a plan |
| `Migration.ScanFilesKeepTheirProject` | src/database.js:942-979 | So does every row of a scan table that has its key; of an older one exactly the last row of each file remains, with its own project or the default one |
| `Migration.LegacyIntakesAreLinked` | src/database.js:611-612 | Assignment comes before the links, so an intake and its plan from the time before projects are linked, unless the first phase was taken |
| `Migration.PositionsDoNotMatter` | src/database.js:700-707 | Giving plans positions does not change which intakes have a plan to link |
| `Migration.MigratedWorkIdempotent` | src/database.js:611-613 | Assignment, links and positions together change nothing in a second pass |
| `Migration.ReferencesSurviveMigration` | src/database.js:608-617 | Through the whole pass a conversation keeps its place and points at an existing configuration with the identity of the one it had |
| `Migration.ChatsAreWhole` | src/database.js:608-617 | A pass keeps the tables valid and leaves every message with a project, and with a conversation if the project exists |
| `Migration.MigrationIdempotent` | src/database.js:608-617 | Over the result of any first pass a second one, at another time, with another token and other row choices, changes no row of any table |
| `LoopRuntime.LoopService.ActiveProjectForWorkspace` | src/loop/runtime.js:195-205 | The search finds an owner if and only if another active project has the same non-empty key |
| `LoopRuntime.LoopService.Start` | src/loopService.js:366-387 | Refused without workspace, when running or when owned; otherwise sets `running` and enters a cycle |
| `LoopRuntime.LoopService.Stop` | src/loopService.js:389-408 | Clears `running` and leaves `busy` alone |
| `LoopRuntime.LoopService.Configure` | src/loopService.js:262-279 | A running or busy project is not given a workspace that another active project has |
| `LoopRuntime.LoopService.RunOnce` | src/loopService.js:410-415 | Enters unless `busy`, and sets it before the first await |
| `LoopRuntime.LoopService.RunExclusive` | src/loopService.js:517-533 | Enters unless `busy`, invalid or owned; a refusal changes nothing |
| `LoopRuntime.LoopService.FinishBody` | src/loopService.js:504-506 | The end of a body, by return, throw or cancellation |
| `LoopRuntime.LoopService.FinishHooks` | src/loopService.js:507-514 | The rest of the finally block after the hooks |
| `LoopRuntime.MutualExclusion` | src/loopService.js:410-415 | In every interleaving at most one invocation of a project is between entry and end |
| `LoopRuntime.BusyMeansInside` | src/loopService.js:579-597 | `busy` is set if and only if one invocation is inside or an earlier one has left it set, never both |
| `LoopRuntime.InsideIsUndisturbed` | src/loopService.js:410-415 | In every reachable state, whatever else is called, and refused or not, an invocation that is inside stays inside with `busy` set until its own end |
| `LoopRuntime.ReleasedExactly` | src/loopService.js:504-514 | An invocation that ends clears `busy` unless reading the phase throws, or both a hook and its error event do |
| `LoopRuntime.PhaseReadLeaks` | src/loopService.js:504-506 | A run of three steps after which `busy` is set and no invocation is inside |
| `LoopRuntime.LeakIsForever` | src/loopService.js:504-514 | A flag left set is never cleared by any later step |
| `LoopRuntime.StepKeepsApartExactly` | src/loopService.js:366-415 | A step keeps counting projects in distinct workspaces if and only if it is not a cycle entered outside a running loop in a taken workspace |
| `LoopRuntime.BusyProjectsMayShare` | src/loopService.js:410-415 | A run of four steps after which two busy projects share a workspace |
| `LoopRuntime.RunningApart` | src/loopService.js:362-387 | In every reachable state no running project is in the workspace of another |
| `LoopRuntime.WorkspaceExclusivity` | src/loopService.js:262-279 | Two running projects with one non-empty workspace key are the same, also after reconfiguration |
| `LoopEntries.RunningExactly` | src/loopService.js:366-387 | Over any run, a project is running if and only if some start found it with a workspace that no other active project had, and no stop came since |
| `LoopEntries.EntersExactly` | src/loopService.js:366-387 | A start, cycle or exclusive call gets in if and only if the project is not busy and it stands its checks, as the one new invocation, leaving the project busy; otherwise it changes nothing, except that an accepted start leaves a busy project running |
| `LoopEntries.AcceptedStart` | src/loopService.js:366-387 | An accepted start leaves the project running and busy, and is inside if the project was not busy before |
| `LoopEntries.EndsExactly` | src/loopService.js:504-506 | An end of a body or of the hooks takes the invocation out, except the body of a cycle, which goes on to its hooks |
| `LoopEntries.ConfiguredExactly` | src/loopService.js:262-279 | A project gets another workspace if and only if it exists and is not at work, or no other active project has it |
| `LoopEntries.TwoMayRun` | src/loopService.js:366-387 | A run with two running projects in different workspaces |
| `LoopEntries.StartedAndStopped` | src/loopService.js:366-400 | A run in which a project starts and stops, with its cycle still inside |
| `TaskTime.PlanTasks.StartTaskRun` | src/loopService.js:730-741 | A running task keeps its start, another gets the given one; unknown ids change nothing |
| `TaskTime.PlanTasks.FinishTaskRun` | src/loopService.js:798-822 | The open interval is added once, and only if the task was running |
| `TaskTime.PlanTasks.RecordTaskFailure` | src/loopService.js:829-840 | Only a running task is put back to pending, by its stored row |
| `TaskTime.Conservation` | src/loopService.js:730-840 | Over any events in time order, status writes among them, stored duration plus open interval plus the intervals that writes have dropped grows by exactly the time spent running |
| `TaskTime.EventKeepsCredit` | src/loop/taskEvents.js:176-188 | A single event changes duration plus open interval at its time exactly by the interval it drops |
| `TaskTime.ConservedExactly` | src/loop/planLifecycle.js:189-194 | The account is the time spent running if and only if no status write has taken the task out of running after its start |
| `TaskTime.EndsRunExactly` | src/loop/taskEvents.js:150-157 | Of the status writers exactly interruption, redo, reset and a checked box end a run, and none begins one; an interruption loses nothing of a task that it has finished first |
| `TaskTime.WritersExactly` | src/loop/planLifecycle.js:189-360 | Which writers leave which tasks running, blocked, completed or failed; all others pending |
| `TaskTime.InterruptIsUndone` | src/loop/planLifecycle.js:189-246 | A plan interrupted and resumed has its unfinished tasks pending and the completed and failed ones untouched |
| `TaskTime.OneRunExactly` | src/loopService.js:730-840 | One run adds the time between its ends to the account, keeps both times and ends as it was finished; a failed one ends pending |
| `TaskTime.OneRunCountsOnce` | src/loopService.js:730-840 | A start within a run does not begin it anew, and a second finish or failure counts nothing |
| `TaskTime.CheckedBoxLosesRun` | src/loop/planTaskSync.js:33-43 | A run that is lost because the plan file is read with the box checked before the task is finished |
| `TaskTime.PlanTasks.WriteStatuses` | src/loop/runtime.js:165-168 | A status write gives each selected row the status its writer makes of the old one and changes nothing else |
| `TaskTime.FinishIntoRunning` | src/loopService.js:798-808 | Finishing any task into the running status keeps the account if and only if the call does nothing, or no time has passed since the last start |
| `SessionProtocol.AgentRunner.RunAgent` | src/loopService.js:1541-1711 | Every run makes one start or two; the second if and only if an uncancelled resume is judged missing, in new mode, without a session, and with an owned plan session cleared before; the result names the last mode and timeout, the id that provider reports, and the plan keeps what the last start leaves |
| `SessionProtocol.AgentRunner.RunOpenCode` | src/loopService.js:1541-1594 | The branch for OpenCode: starts, result and stored session of a run of the plan |
| `SessionProtocol.AgentRunner.RunClaude` | src/loopService.js:1596-1653 | The branch for Claude: one printer hears both attempts and its id is reported if the last was launched |
| `SessionProtocol.AgentRunner.RunCodexSession` | src/loopService.js:1661-1711 | The branch for Codex: the scan buffer and the id found go on from the failed resume to the fresh attempt |
| `SessionProtocol.AgentRunner.RunWithoutSession` | src/loopService.js:1655-1659 | A provider without sessions is started once, and its result names none |
| `SessionProtocol.AgentRunner.TryResume` | src/loopService.js:1553-1555 | The resume is the last start unless it is neither cancelled nor found |
| `SessionProtocol.AgentRunner.StoreResult` | src/loopService.js:1586-1590 | A timeout clears the session of the plan, another result stores its id if it has one |
| `SessionProtocol.AgentRunner.UpdatePlanSession` | src/loopService.js:786-796 | What is stored is the valid form of the id, or none |
| `SessionProtocol.AgentRunner.Listen` | src/agentCli.js:481-488 | The printer reads the chunks of a launched attempt in order and is flushed at its end |
| `SessionProtocol.AgentRunner.ScanOutput` | src/loopService.js:1514-1521 | The scan goes through the chunks of a launched attempt in order |
| `SessionProtocol.RunKeepsProtocol` | src/loopService.js:1339-1349 | The protocol of starts, result and id, for all behaviours of the program |
| `SessionProtocol.SuccessIsKept` | src/loopService.js:1555-1675 | A resume that ends with exit code 0 is the last start, whatever it prints |
| `SessionComplaints.SecondStartExactly` | src/loopService.js:1553-1675 | For every provider the first start resumes the session asked for or begins anew, and there is a second, new one if and only if there was a session to resume, the exit code is not 0, the resume was not cancelled, and its output says one of the provider phrases, for Codex without naming an id |
| `SessionComplaints.NamedExactly` | src/loopService.js:1541-1659 | A finished run of OpenCode names the resumed session, or the valid form of what the search by title found for a new one of a plan; oh-my-pi names none |
| `SessionComplaints.ComplainsExactly` | src/loop/agentCliRunner.js:39-83 | A text complains if and only if it has one of the phrases of the provider somewhere, in any letter case and with any white space between the words |
| `SessionComplaints.PhraseComplains` | src/loop/agentCliConfig.js:112 | A phrase complains whatever is printed around it |
| `SessionProtocol.NextRunResumesIt` | src/loopService.js:1541-1594 | A run that keeps the protocol leaves on its plan exactly the session that the next run asks for: the one returned, or none after a timeout |
| `SessionProtocol.ResumedWasReported` | src/loopService.js:1541-1594 | Over any runs of a plan that starts without a session, one that is resumed was found by an earlier fresh attempt, in time and uncancelled |
| `SessionProtocol.LostStaysLost` | src/loopService.js:1556-1591 | A session judged missing or lost to a timeout is never stored again unless a later fresh attempt finds it |
| `SessionProtocol.ClaudeIdIsStaleExactly` | src/agentCli.js:567-571 | After a fallback the reported id is not the one in the fresh output if and only if that has none and the output of the failed resume has one, which is then reported |
| `SessionProtocol.FailedResumeIsReported` | src/loopService.js:1610-1652 | Outputs at which the session of a failed resume is reported |
| `SessionProtocol.CodexIdIsStaleExactly` | src/loopService.js:1661-1711 | After a fallback, whatever both attempts print, an id is reported if and only if the window after some chunk of either shows an occurrence; where both outputs together name none, if and only if a chunk or a window was cut within a word next to an occurrence |
| `SessionProtocol.IdOfNeitherIsCutOrJoined` | src/loopService.js:1661-1711 | An id reported although neither output names one was torn out of a longer word, reaches from the one output to the other, or ends where the chunks end |
| `SessionProtocol.CutIdIsReported` | src/loopService.js:1514-1521 | Two chunks at which an id is reported that the whole output does not name |
| `SessionProtocol.CutInFreshIsReported` | src/loopService.js:1514-1521 | The same chunks printed by the fresh attempt, after a resume that names nothing |
| `SessionProtocol.JoinedIdIsReported` | src/loopService.js:1514-1521 | Two outputs that name no id, the one ending in a label and the other beginning with an id, at which that is reported |
| `CodexSession.ExtractsNothingExactly` | src/loop/agentCliConfig.js:486-494 | No id is extracted if and only if none of the three expressions matches anywhere |
| `PatternReadings.MatchesExactly` | src/loop/agentCliConfig.js:106-111 | An expression matches at a place if and only if a text in its form begins there: the words in any letter case, blanks where they may be, the id, and no word going on at either end unless it is quoted |
| `PatternReadings.MatchExactly` | src/loop/agentCliConfig.js:106-111 | Taking runs of blanks whole finds exactly what the expression reads with its blanks divided in any way |
| `PatternReadings.FirstOccurrenceIsExtracted` | src/loop/agentCliConfig.js:486-494 | The first occurrence of the first form that has one gives the id, in small letters |
| `CodexSession.ScanChunks` | src/loopService.js:1514-1521 | The buffer and the id last found, chunk by chunk |
| `CodexSession.BufferIsTail` | src/loopService.js:1516 | The buffer is always the last 4000 characters of everything scanned |
| `CodexSession.CapturedExactly` | src/loopService.js:1515-1521 | An id is captured if and only if the window after some chunk names one |
| `CodexSession.WindowNamesExactly` | src/loop/agentCliConfig.js:107-111 | A window of a text names an id if and only if it shows an occurrence; if the text names none, if and only if an edge of the window tears one out of a longer word |
| `CodexSession.CapturedByShownExactly` | src/loopService.js:1515-1521 | Over any chunks an id is captured if and only if some window shows an occurrence, and where the whole text names none, if and only if some window tears one out of a longer word |
| `TextPatterns.MatchInWindow` | src/loop/agentCliConfig.js:107-112 | An expression matches at a place of a window if and only if it does in the text and ends in time |
| `TextPatterns.Mentions` | src/loop/agentCliRunner.js:81-83 | The search finds an expression if and only if it matches somewhere |
| `ClaudeActivity.LinesSession` | src/claudeActivity.js:158-167 | A printer that reads on keeps its session id if and only if the further lines have none |
| `ClaudeActivity.NormalSessionId` | src/agentCli.js:89-93 | Validating a session id twice is validating it once |
| `ClaudeActivity.SessionIdExactly` | src/agentCli.js:89-93 | A session id is at most 256 letters, digits, dots, underscores, colons and hyphens between white space; anything else is none |
| `LineStream.ChunkInvariance` | src/claudeActivity.js:64-75 | Any cutting of a text into chunks leaves the state that the whole text leaves |
| `LineStream.FeedConcat` | src/claudeActivity.js:64-75 | Feeding two chunks is feeding their concatenation |
| `LineStream.StreamIsLines` | src/claudeActivity.js:64-75 | The incremental reading has handled the lines of the whole text but the last, which is pending |
| `LineStream.PendingIsUnbroken` | src/claudeActivity.js:66-74 | The pending line never holds a line break |
| `DedupWindow.ActivityWindow.Store` | src/claudeActivity.js:219-233 | One push: known keys are dropped, the oldest line leaves a full window, and an overfull `recent` is rebuilt before the new line is stored |
| `DedupWindow.WindowIsTail` | src/claudeActivity.js:219-233 | The window is always the last accepted lines, of its capacity |
| `DedupWindow.RunsStayAlmostDistinct` | src/claudeActivity.js:219-233 | `recent` never holds more than twice the window, and at most one line is in the window twice, none three times |
| `DedupWindow.ForgottenPosition` | src/claudeActivity.js:226-231 | The only line that is shown but not remembered has a position fixed by the size of `recent` |
| `DedupWindow.RepeatExactly` | src/claudeActivity.js:219-233 | A push makes a repeat if and only if the line is in the part that stays and not in `recent` |
| `DedupWindow.DistinctBeforeRebuild` | src/codexActivity.js:88-101 | Until the first rebuild all accepted lines differ |
| `DedupWindow.FirstRebuild` | src/codexActivity.js:94-97 | The line that causes the rebuild is not remembered |
| `DedupWindow.RepeatWitness` | src/codexActivity.js:88-101 | For every window of two lines or more, a run after which one line is shown twice |
| `DedupWindow.KeyInjective` | src/claudeActivity.js:223 | Different lines have different keys |
| `ClaudeActivity.ClaudeStreamJsonPrinter.Offer` | src/claudeActivity.js:64-75 | The splitting loop handles a chunk as the character stream does |
| `ClaudeActivity.ClaudeStreamJsonPrinter.FlushPending` | src/claudeActivity.js:77-81 | A pending line that is not blank is handled, and nothing is pending afterwards |
| `ClaudeActivity.ClaudeStreamJsonPrinter.Process` | src/claudeActivity.js:83-118 | One line: blank lines and lines that are no event change nothing, events change window, texts and session id |
| `ClaudeActivity.ClaudeStreamJsonPrinter.HandleAssistant` | src/claudeActivity.js:120-139 | Text blocks are collected and shown, tool calls shown, in order |
| `ClaudeActivity.ClaudeStreamJsonPrinter.HandleUser` | src/claudeActivity.js:141-156 | Tool results are shown, failures marked |
| `ClaudeActivity.ClaudeStreamJsonPrinter.HandleResultEvent` | src/claudeActivity.js:158-167 | A result replaces text and session id only by ones that are not empty |
| `ClaudeActivity.AnyCutting` | src/claudeActivity.js:64-95 | However the output is cut, and from any state, with an unfinished line too, lines, texts and session id end as if every line had been handled in order |
| `ClaudeEvents.EventsExactly` | src/claudeActivity.js:83-233 | After any lines a printer holds what their events say: the lines of texts, tool calls, tool results and ends in order and in their roles, cut to 200 characters; the last result that is not blank; the texts one to a line; the last valid session id |
| `ClaudeEvents.FinalText` | src/claudeActivity.js:241-245 | The final text is the last result, or without one the collected texts, trimmed |
| `ClaudeEvents.CompactTextExactly` | src/claudeActivity.js:219-221 | Compacting changes nothing but white space and leaves single blanks between words |
| `ClaudeActivity.WindowStaysBounded` | src/claudeActivity.js:97-233 | Whatever is printed, the window is one that pushes lead to: bounded, with at most one line twice |
| `CodexActivity.CodexActivityPrinter.OfferChunk` | src/codexActivity.js:43-53 | A chunk is stripped of escape sequences and then handled as the character stream is |
| `CodexActivity.CodexActivityPrinter.Process` | src/codexActivity.js:61-86 | Section markers switch role and echo skipping, other lines are cleaned, tested and pushed |
| `CodexActivity.CutIsHarmlessIff` | src/codexActivity.js:43-53 | A chunk boundary is harmless to every continuation if and only if it is not inside an escape sequence |
| `CodexActivity.AnyHarmlessCutting` | src/codexActivity.js:43-53 | Any cutting outside escape sequences leaves the same state |
| `CodexActivity.PlainTextIsLines` | src/codexActivity.js:43-86 | Text without ESC may be cut anywhere and is handled line by line |
| `CodexActivity.PlainTextIsHandled` | src/codexActivity.js:43-59 | With the flush the unfinished line is handled too, unless it is blank |
| `CodexActivity.SectionGivesRole` | src/codexActivity.js:61-92 | Under a section marker lines are shown in the role that it names, cut to 200 characters, and the marker is not |
| `CodexActivity.EchoIsInvisible` | src/codexActivity.js:61-80 | An echo of the user input, from its marker to a section or the start of an answer, leaves no trace |
| `CodexActivity.WindowStaysBounded` | src/codexActivity.js:88-101 | Whatever is printed and however it is cut, the window stays bounded with at most one line twice |
| `Ansi.StripConcat` | src/codexActivity.js:12 | Stripping distributes over a cut outside escape sequences |
| `Ansi.SequenceIsStripped` | src/codexActivity.js:12 | Every whole escape sequence disappears, and nothing around it does |
| `Ansi.CutEscape` | src/codexActivity.js:12 | A cut inside a sequence has a continuation for which stripping the parts leaves what stripping the whole removes |
| `WindowsCommandLine.DecodeInverts` | src/agentCli.js:875-884 | An independent decoder recovers every command and argument list, with empty ones, quotes and white space |
| `WindowsCommandLine.Injective` | src/agentCli.js:875-884 | Different commands or argument lists never give one command line |
| `WindowsCommandLine.CmdLineGrowth` | src/agentCli.js:875-884 | What further arguments add to the length of the line |
| `WindowsCommandLine.UnquotedExactly` | src/agentCli.js:879-884 | An argument goes unquoted if and only if it is not empty and has no white space and none of the characters special to cmd.exe |
| `PromptDelivery.PromptFiles.WritePromptSpilloverFile` | src/agentCli.js:745-788 | A prompt is written in full if and only if it has to be and can be; a failed write leaves no file |
| `PromptDelivery.PromptFiles.PrepareAttempt` | src/agentCli.js:355-408 | What is started, or that nothing is, and what is in the prompt file then |
| `PromptDelivery.ShimDelivery` | src/agentCli.js:790-851 | On a batch shim a prompt is the last argument, without line break, on a line of at most 8191 characters with an exact estimate for prompts that are not empty; or the arguments end in pointer, `-f` and file; or nothing is started |
| `PromptDelivery.ShimSpillsExactly` | src/agentCli.js:745-760 | A shim's prompt goes to a file if and only if it has a line break or would make the line longer than 7167 characters |
| `PromptDelivery.SpillCannotShorten` | src/agentCli.js:790-818 | Arguments that overrun the limit by themselves still do when the prompt is in a file |
| `PromptDelivery.SpillsExactly` | src/agentCli.js:745-830 | On every platform, the reason for a prompt file in terms of the characters of the line: more than 7167 in a shell or on a batch shim, 31743 for another program on Windows, or a line break on a shim |
| `PromptDelivery.DeliveredExactly` | src/agentCli.js:355-408 | On every platform, what is started with which arguments, in a shell or not, and through cmd.exe on a line that decodes to them; nothing if and only if the file is needed and cannot be written |
| `DuplicateText.NormalFormIsCanonical` | src/intakeService.js:228-235 | A normal form has no CR, no runs of blanks, and no white space at the ends of lines or of the text |
| `DuplicateText.FixpointsAreCanonical` | src/intakeService.js:228-235 | The texts that normalisation leaves alone are exactly the canonical ones |
| `DuplicateText.Idempotent` | src/intakeService.js:228-235 | Normalising twice is normalising once |
| `DuplicateText.NormalFormKeepsInk` | src/intakeService.js:228-235 | Normalising loses, adds and moves nothing but white space |
| `DuplicateText.LineEndingsDoNotMatter` | src/intakeService.js:228-235 | The CRLF, CR and LF versions of a text have one normal form |
| `Intake.FindDuplicate` | src/intakeService.js:219-226 | A duplicate is found if and only if an open row of the scope has the same normal title and body |
| `Intake.RunIsUnique` | src/intakeService.js:134-161 | Over any run of submissions and closings no two open ones of a scope say the same |
| `Intake.AcceptedExactly` | src/intakeService.js:31-69 | A submission is accepted if and only if no open row of its scope says the same; it is stored as given, open by default, under a new identifier, and a refusal stores nothing and names such a row |
| `Intake.RunIsNumbered` | src/intakeService.js:31-69 | Over any run identifiers grow, so none is given twice |
| `Intake.CloseMakesRoom` | src/intakeService.js:134-161 | Two submissions of one text leave one row, and two with a closing in between |
| `Intake.TitleExactly` | src/intakeService.js:206-217 | The stored title is the given one trimmed, else the first line of the body with text cut after 80 characters, else the fallback |
| `Intake.ResubmissionIsRefused` | src/intakeService.js:31-41 | What was just accepted is refused in any spelling with the same normal form, naming the accepted row |
| `IntakeTitles.ResubmittedExactly` | src/intakeService.js:31-41 | With given or derived titles, a body with the normal form of one just accepted is refused if and only if the stored titles have one normal form or an older open row clashes |
| `IntakeTitles.GivenTitleIsRefused` | src/intakeService.js:214-217 | With titles given both times, every spelling of title and body with the same normal form is refused |
| `IntakeTitles.OmittedTitleIsRefused` | src/intakeService.js:206-212 | With no titles, every spelling of the body is refused if the first lines are the same, or no carriage return stands alone and the first lines are not cut |
| `IntakeTitles.CrlfKeepsFirstText` | src/intakeService.js:206-212 | The CRLF version of a text has the same derived title, however long |
| `IntakeTitles.LoneReturnIsAccepted` | src/intakeService.js:206-212 | Bodies with one normal form, one with a lone carriage return, that are both accepted without a title |
| `IntakeTitles.CutTitleIsAccepted` | src/intakeService.js:206-212 | Bodies with one normal form whose first lines are cut at different places, that are both accepted without a title |
| `IntakeTitles.FirstTextOfNormalForm` | src/intakeService.js:206-235 | Without lone carriage returns, the first line of the normal form is the normal form of the first line |
| `TextEnds.TrimKeepsNormalForm` | src/intakeService.js:214-235 | Trimming a text does not change its normal form |
| `Intake.EditKeepsUniqueExactly` | src/main.js:1298-1330 | An edit keeps uniqueness if and only if the row is closed or no other open row says what it now says |
| `Intake.EditMayDuplicate` | src/main.js:1298-1330 | An edit after which two open rows say the same |
| `Intake.IntakeService.CreateRequirement` | src/intakeService.js:31-69 | Unknown projects are refused, otherwise check and insert as specified, keeping uniqueness |
| `Intake.IntakeService.ValidRequirementId` | src/intakeService.js:125-132 | 0 is no requirement; another id is refused as unknown, or as foreign, exactly as the first row with that id says |
| `Intake.LinkableExactly` | src/intakeService.js:125-132 | Feedback may name none, or a requirement that is there and belongs to the project; another is refused as missing or as foreign, exactly as it is |
| `Intake.IntakeService.CreateFeedback` | src/intakeService.js:72-112 | Unknown projects and requirements that may not be named are refused, and nothing else is before the duplicate check within project and requirement |

## Left out

- The renderer, IPC, HTTP, MCP tools, packaging and scripts: wiring and field-by-field validation, which would only add easy members.
- `src/attachments.js`, executors and terminals: file copying and process plumbing.
- Table creation and `ensureColumn`: the tables are modelled with their final columns; whether `scan_files` is already keyed by project, and whether it had the column, are properties of the table and its rows.
- Columns that the migration neither reads nor writes are one text per row; times that are only stored are integers.
- Row order without ORDER BY: a link's id follows table order, and the default conversation chosen among several is any of them.
- `nowIso()` is one time for each pass of the migration, although the steps read the clock separately.
- `Migration.MigrationIdempotent`: the second pass has default settings for no other keys than the first, as two starts of one version do.
- `ChatMessages.MessageIntegrity`: messages name only conversation identifiers that were handed out before, which AUTOINCREMENT guarantees for references made by the program.
- The names of temporary files are one slot: a leftover of an earlier process has another name and is never read.
- The order in which a write reaches the medium below the file system; a rename is taken to be atomic and a crash to lose no completed operation.
- `AppDatabaseModel.AgreementOverRuns`: statements of the run that report no changed row or only read leave the contents alone, as SQL promises; a failed COMMIT is taken to be rolled back.
- `OwnerLock.AtMostOneHolder`: one port and metadata path, one record digest per process; ports derived from different paths may collide, which only refuses more.
- Deleting projects and deriving `child` from operating system processes: `child` is set and cleared by steps of its own.
- `LoopRuntime.LoopService.Stop`: the stopping of child processes and the rows it writes are not modelled; `child` changes in its own step.
- Plan and task rows, hooks, batches and validation inside the bodies of `runOnce`, `runTask` and `runTaskBatches`: a body is what happens between entry and end.
- Rounding of durations to whole milliseconds, and task rows that a plan file no longer lists, which are deleted with their account.
- `SessionProtocol.AgentRunner.RunAgent`: texts that the program's runner adds to the output stand behind its chunks, and every chunk is heard; event texts and the environment of the programs are not modelled.
- Characters beyond the basic multilingual plane: a character stands for one UTF-16 code unit, and the type has no surrogates.
- The tool input summary and the text of tool results in Claude events, the cleaning and keyword tables of Codex lines, and the time stamps of lines.
- Interpretation of `%`, `^` and `!` by cmd.exe after quoting: the decoder reads the quoting that the printer writes.
- Attachments, events and loop starts that follow an accepted submission.
