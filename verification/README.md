# MouseKeeper: a verified model of the file engine and its neighbours

MouseKeeper moves a user's files on approved proposals and promises to be able to take everything
back. This project models the parts of it where that promise, and the ones around it, are hard to keep,
and proves them in Dafny 4.11. `dafny verify dfyconfig.toml` checks everything.

**The journaled file engine** (`FileSystem`, `Journal`, `Scripts`, `Steps`, `Engine` and the theorems on
top). A managed root is a map from paths to directories and files; a file has content, a modification
time and an identity. Every journal append and every system call (mkdir, rename, create, write, remove,
rmdir) is one atomic step. `Scripts` says what each operation does as a function of the state it starts
in: the steps in order, and how it ends. A crash leaves the state after the first n steps of a script.
`Engine.Machine` is the same engine as objects whose methods change the tree and the journal step by step
and test each answer; each of its methods is proved equal to its script, whole batches and whole undo
runs included, cut off by a crash after any number of steps. The theorems:

- undo inverts execute, for mixed batches with chains, also after a hard error (`UndoInverts`), with the
  exact condition for batches with distinct sources and the family of batches where it fails
  (`NestedBatch`); it does so when undo itself is cut any number of times, and a further undo changes nothing
  (`UndoRun`, `UndoTheory`, with the past of a batch from `ExecutePast`);
- a batch of moves cut off any number of times and started over ends in the tree of the run that was
  never cut, and can still be undone (`CrashRetry`);
- no non-empty file is lost or overwritten in any session (`Conservation`), no user file changes without
  a row that said so before (`WriteAhead`), and the rows of every operation follow one small grammar
  (`JournalRows`, `JournalStages`, `JournalLanguage`);
- for every operation of every reachable journal, what the history says of its undo and what undo does
  (`History`, on the invariant of `JournalStages`), and sessions on an empty journal after which the two
  disagree (`HistoryGaps`, `ReadmeGaps`);
- only approved work happens, on the files that were approved (`Decisions`, `Approval`);
- what every single operation and every single undo does, exactly when it does it, and that it does nothing to
  a file otherwise (`Effects`).

**The search index** (`Like`, `Scan`, `Index`, `Paging`, `Cursors`, `LinkFree`). Two recursive scanners,
two tables that have to agree, deletion of a subtree by an escaped LIKE pattern, a page scan in batches
that refines filtering the whole list, cursors bound to a query and a generation, and the check that a path
crosses no link.

**Sync events and notifications** (`SyncEvents`, `SyncReplay`, `Lease`). Interleaved transactions that
number events under a lock held to commit, desktops that read by cursor and crash, and a job queue whose
lease doubles as the time of the next attempt.

**Dates and clocks** (`Calendar`, `Timestamps`, `MonotoneClock`). The era-based date arithmetic against
the calendar rules (appendix C of RFC 3339), the fixed-width timestamps of section 5.6 of RFC 3339, and the
compare-and-swap clock.

Assumptions of the engine model: operation ids, file identities and times are read off one clock that ticks
at every step, so ids are fresh; no outside process acts between two steps; renames are atomic and keep
identity and time; there are no links under the root. "User files" are the files outside `.mousekeeper` and
`.mousekeeper_trash`.

Where the code and what is said about it disagree:

- The operation history is documented to mirror undo. It does not look at everything undo needs.
  `History.HistoryAgreesWithUndo` states exactly what each of them does. An offered undo fails in three
  families: the move leads from below its own destination (recovery can record such a move); a file lies where
  a parent directory of the original path is due; a README write has lost its copy, or a directory has taken
  the place of README.md. A refused undo is not skipped in two: an undo that was begun and cut off is refused
  from then on, though undo carries it on; a README write can be executed under the plan of a move.
  `HistoryGaps` and `ReadmeGaps` reach each of these from an empty journal, except for the lost copy.
- When a README write was executed under a plan that names README.md as its source, undo copies README.md onto
  itself. The model takes the copy to empty its target first, as it does on POSIX systems
  (`ReadmeGaps.RefusedUndoEmpties`).
- A batch in which one file moves away and another moves below its old name is not undoable, because the
  new directory stays. `UndoInverts.UndoRestoresIffUnblocked` states exactly when undo restores,
  `NestedBatch.NestedBatchIsNotRestored` proves that this family never does.
- The two index tables disagree about files whose names hold a backslash: one table normalizes the path, the
  other does not. `Scan.ScannersAgreeIff` and `Index.ReindexAgreesIff` state the exact condition.
- A worker that writes its result after its lease can reopen a completed notification job
  (`Lease.LateWriteReopens`). `Lease.CompletedStaysIff` states exactly when completion is final.

## Model

| member | source | states |
|---|---|---|
| Steps.ScriptSucceeds | tools/file-engine-cli/src/execute.rs:198-410 | A script predicts the operating system: from every well-formed tree, for forward operations, undo and direct file operations alike, every call in a script is performed. A call that the operating system would refuse is not in the script, which then ends as Failed. (This says that the model of the calls is right, not that the code checks enough before it makes them.) |
| Effects.CreatedIff | tools/file-engine-cli/src/execute.rs:198-288 | In every tree: a proposal to create a file or directory is done if and only if its place is vacant (an existing parent at any depth, a path the guard accepts, nothing there) and no text is asked for; then the new entry is the only change to the tree, a file is empty, and the journal has grown by the planned and the executed row. Otherwise the tree is as it was and the report is not a success. |
| Effects.EmptyFileIsCreatedIff | tools/file-engine-cli/src/file_ops.rs:54-85 | create_empty_file makes an empty file if and only if its place is vacant, as the only change and without a row; otherwise it fails and nothing changes. |
| Effects.MoveIsDoneIff | tools/file-engine-cli/src/execute.rs:359-410 | A move is done if and only if its file still has the size, time and identity of the proposal, the guard accepts both paths, nothing is at the target and no file above it. Then that very file is at the target and not at the source, only directories above the target may be new, and there are two rows. Otherwise no file changes, and success is reported only for a recovered move. |
| Effects.FileIsTrashedIff | tools/file-engine-cli/src/trash.rs:71-178 | A file goes to the trash if and only if it is a file the guard accepts and the place in the trash is free: that very file lies there then with its record, and there are two rows. Otherwise the operation fails and no file changes. |
| Effects.TrashIsDoneIff | tools/file-engine-cli/src/trash.rs:71-178 | The same for an approved proposal, whose file must also still be the one approved. |
| Effects.FileIsRenamedIff | tools/file-engine-cli/src/file_ops.rs:87-145 | A file is renamed if and only if it is a file the guard accepts and the name is plain and free in its directory; nothing else changes and there are two rows. Otherwise nothing happens at all. |
| Effects.ReadmeIsWrittenIff | tools/file-engine-cli/src/execute.rs:290-357 | README.md is written if and only if the proposal is for it, still fits what is there, and a copy can be kept. Then it has the approved text and its old identity, the former text is in the copy (or the mark says there was none), no other user path has changed, and there are two rows. Otherwise no user path changes. |
| Effects.PlansAreWritten | tools/file-engine-cli/src/journal.rs:531-570 | Writing a plan appends one planned row for each ready proposal, in their order, labelled as moves, and touches no file. |
| Effects.MoveIsTakenBack | tools/file-engine-cli/src/undo.rs:145-202 | Undoing a move or a trashing whose file is there and whose old place is free and reachable brings that very file back, with at most directories new, and marks it undone. |
| Effects.CreationIsTakenBack | tools/file-engine-cli/src/undo.rs:230-333 | Undoing a creation that is still empty removes it and nothing else, and marks it undone. |
| Effects.ReadmeIsTakenBack | tools/file-engine-cli/src/undo.rs:335-384 | Undoing a README write gives README.md the text of the copy, or removes it if there was none, changes nothing else, and marks it undone. |
| UndoRun.UndoConverges | tools/file-engine-cli/src/undo.rs:67-228 | For any past of executed deeds whose sources have not become directories: undo cut at any steps and started over any number of times never stops with an error, and when it gets to its end the user files are those of the beginning, no directory is missing, and every operation has an Undone row, but for created directories that are still there and not empty. |
| UndoRun.UndoneStayUntouched | tools/file-engine-cli/src/undo.rs:74-104 | For any journal and tree, one operation or all, cut anywhere: undo appends no row for an operation that has an Undone row. |
| UndoRun.UndoOnceMore | tools/file-engine-cli/src/undo.rs:67-228 | Undo is idempotent: when it has got to its end after any number of cuts, another run gets to its end and changes neither tree nor journal. |
| UndoInverts.UndoInvertsExecute | tools/file-engine-cli/src/undo.rs:67-228 | From an empty journal, for every batch of all five actions on user paths in which no ready source is a proper ancestor of another item's destination, run to its end or to a hard error: undo, with crashes allowed anywhere, restores exactly the original user files, leaves every operation with an Undone row but for created directories that are still there and not empty, and a further undo changes nothing. |
| UndoInverts.UndoRestoresIffUnblocked | tools/file-engine-cli/src/undo.rs:145-199 | For batches on user paths with distinct sources: undo finishes with all user files restored if and only if, when it starts, no source of an executed move or trashing is a directory. |
| NestedBatch.NestedBatchIsNotRestored | tools/file-engine-cli/src/execute.rs:384-397 | In every tree with two files a and b, the batch a to x, b to a/b runs to its end and is not restored by undo. |
| CrashRetry.RetryReachesSameTree | tools/file-engine-cli/src/execute.rs:105-196 | For moves with distinct sources, none of them a destination or above one: after any number of cut runs of the same batch, a run that is not cut leaves the very tree of the run that was never cut, and each moved file has an executed row and its content at its destination. |
| CrashRetry.UndoAfterRetries | tools/file-engine-cli/src/execute.rs:412-469 | After such retries, undo, itself cut any number of times, ends with every original entry back in place and no other file. |
| Conservation.SessionConserves | tools/file-engine-cli/src/execute.rs:384-397 | Over any sequence of moves, trashings, creations, renames, planned rows and undos on user paths, each cut anywhere, the set of non-empty files with their identities and contents never changes, trash payloads included. |
| WriteAhead.EffectsAreAnnounced | tools/file-engine-cli/src/execute.rs:365-401 | In every script but that of create_empty_file, the one effect on a user path comes after a planned or undo-planned row of the same operation that names the paths; every call before it only makes parent directories or private files. |
| WriteAhead.NoSilentChange | tools/file-engine-cli/src/undo.rs:192-202 | Over any session without create_empty_file, cut anywhere: a user file that differs from the start is one that a planned or undo-planned row works on: the target of a file creation, README.md for a README row, a file at or below either end of a move or trashing. Rows of directory creations, and rows with the root as an end, account for nothing. |
| JournalLanguage.SessionIsOrderly | tools/file-engine-cli/src/execute.rs:204-226 | Over any session whose batches repeat no pair of paths, cut anywhere: no operation has left the grammar of `PhaseSpells`, its rows agree on the paths, and its executed row has the action it was planned under (or the one that a move label stands for). |
| JournalStages.SessionIsTidy | tools/file-engine-cli/src/execute.rs:204-226 | Over any session whatever, repeated pairs included, cut anywhere: the rows of an operation are one planned row, then executed rows, then undo-planned and undone rows; they agree on the paths; each executed row has paths the guard accepts and the action it was planned under, or one that a move label stands for. |
| JournalLanguage.RepeatedPairBreaks | tools/file-engine-cli/src/execute.rs:412-444 | The condition is needed: where a move is pending and its source has gone, a batch that names the move twice recovers it twice, and the operation leaves the grammar. |
| JournalLanguage.PhaseSpells | tools/file-engine-cli/src/execute.rs:446-469 | An operation is in a phase if and only if its statuses, in the order of the journal and with repetitions, spell a word of that phase: nothing; planned; planned executed; planned executed and one or more undo-planned; planned executed, any number of undo-planned, undone. |
| JournalLanguage.ExecutedOnce | tools/file-engine-cli/src/undo.rs:74-78 | Two executed rows of one operation are outside the journal language. |
| History.ReadHistory | tools/file-engine-cli/src/journal.rs:300-386 | The loops over the journal and the tree compute the fold that later lemmas reason about. |
| History.LatestIsNewest | tools/file-engine-cli/src/journal.rs:310-360 | In every reachable state the history gives an operation the status of its newest row. |
| History.HistoryAgreesWithUndo | tools/file-engine-cli/src/journal.rs:388-478 | For every operation in every state a session can reach. The history offers the undo if and only if the operation was executed, no undo of it was begun, and nothing is in its way. What undo does depends on the tree alone, whether an undo was begun or not: with nothing in its way, it reports only successes if and only if the tree supports it (no file on the way to the original path; for README.md, its copy or the mark in place and no directory under that name) and the move does not lead from below its own destination, and but for README writes it otherwise stops with an error; with something in its way, it skips the operation and changes nothing if and only if no README write was executed under the plan of a move. An operation never executed, or already undone, gets an empty report and no change. |
| History.RecoveredIntoItself | tools/file-engine-cli/src/execute.rs:412-444 | In any reachable state in which a move from below its own destination is planned, unfinished, and its source has gone: running the batch again records it as executed, the history offers its undo, and no undo of it finishes. |
| HistoryGaps.RecoveryOffersInVain | tools/file-engine-cli/src/execute.rs:412-444 | That state is reached from an empty journal: a move onto a directory above its file is skipped, the file is renamed, the batch is run again, and then the history offers an undo that never finishes. |
| HistoryGaps.RecreationOffersInVain | tools/file-engine-cli/src/undo.rs:168-199 | The other family is reached from an empty journal too: make directory a, move x into it and out again as y, take a back, create an empty file a. The history then offers to undo the second move, and no undo of it finishes. |
| HistoryGaps.CutUndoIsRefused | tools/file-engine-cli/src/journal.rs:340-386 | From an empty journal: a file is moved and its undo cut off after the first row. From then on the history refuses to undo it, though an undo that is not cut takes it back. |
| ReadmeGaps.ReplacementOffersInVain | tools/file-engine-cli/src/journal.rs:407-409 | The family of README writes, from an empty journal: write README.md, rename it, make a directory under its name. The history goes on offering the undo, and no undo of it finishes. |
| ReadmeGaps.RefusedUndoEmpties | tools/file-engine-cli/src/undo.rs:335-362 | A refused undo that runs, from an empty journal: a move of README.md to itself is skipped, README.md renamed, and a batch moves x to README.md and writes a README.md of another size, which recovers the skipped plan. The history refuses to undo it; undo copies README.md onto itself, and the file that was x is empty. |
| Engine.Machine.CreateDirAll | tools/file-engine-cli/src/execute.rs:376-383 | Directories are made outermost first, all of them or none when a file is in the way; cut short, a prefix of them. |
| Engine.Machine.ExecuteMove | tools/file-engine-cli/src/execute.rs:359-410 | A move makes exactly the steps of its script, as far as the power goes, with the same outcome. |
| Engine.Machine.Recover | tools/file-engine-cli/src/execute.rs:412-444 | A missing source with a pending plan and an existing destination gets an executed row under the old id, and nothing else happens. |
| Engine.FindPending | tools/file-engine-cli/src/execute.rs:446-469 | The backward search finds the newest planned move of these paths without a later row of its operation, or there is none. |
| Journal.PendingIsNewest | tools/file-engine-cli/src/execute.rs:446-469 | What is found is the newest pending row: no row after it is pending for these paths. |
| Engine.Machine.Trash | tools/file-engine-cli/src/trash.rs:71-178 | Trashing writes its row, makes its home, writes the metadata, moves the file and closes, in that order, as far as the power goes. |
| Engine.Machine.ExecuteCreateDir | tools/file-engine-cli/src/execute.rs:198-235 | Creating a directory makes exactly the steps of its script. |
| Engine.Machine.ExecuteCreateFile | tools/file-engine-cli/src/execute.rs:237-288 | Creating an empty file makes exactly the steps of its script, and never over an existing entry. |
| Engine.Machine.ExecuteReadme | tools/file-engine-cli/src/execute.rs:290-357 | Writing README.md keeps a copy, or the mark that there was none, before its row and its effect. |
| Engine.Machine.Execute | tools/file-engine-cli/src/execute.rs:105-196 | The loop over the whole batch, with all prechecks and the journal read first, equals the run of its scripts, cut anywhere. |
| Engine.Machine.ReturnFile | tools/file-engine-cli/src/undo.rs:145-202 | Undoing a move or a trashing makes exactly the steps of its script, the branch for a file that is already back included. |
| Engine.Machine.RemoveCreatedFile | tools/file-engine-cli/src/undo.rs:230-280 | A created file is removed only while it is empty. |
| Engine.Machine.RemoveCreatedDir | tools/file-engine-cli/src/undo.rs:282-333 | A created directory is removed only while it is empty. |
| Engine.Machine.RestoreReadme | tools/file-engine-cli/src/undo.rs:335-384 | README.md is restored from its copy, or removed when there was none. |
| Engine.Machine.Undo | tools/file-engine-cli/src/undo.rs:67-228 | The reverse loop over the journal equals the run of its scripts, cut anywhere. |
| Engine.Machine.RenameFile | tools/file-engine-cli/src/file_ops.rs:87-145 | Renaming in place makes exactly the steps of its script. |
| Engine.Machine.CreateEmpty | tools/file-engine-cli/src/file_ops.rs:54-85 | The one operation that changes a user path without a row. |
| Decisions.ApplyDecisions | tools/file-engine-cli/src/decision.rs:83-157 | The first faulty decision is reported; otherwise the report is split in order into approved and rejected, rejected ones carry the reason given, and nothing is in both parts. |
| Decisions.SelectMeans | tools/file-engine-cli/src/decision.rs:109-148 | A proposal is in a part if and only if it is in the report and was decided that way. |
| Decisions.SelectInOrder | tools/file-engine-cli/src/decision.rs:109-148 | A part is the report in its own order, each position with that verdict exactly once. |
| Decisions.CleanMeans | tools/file-engine-cli/src/decision.rs:83-108 | Decisions are accepted if and only if each is on a proposal of the report, no two on the same one, and every rejection gives a reason. |
| Decisions.ErrorMeans | tools/file-engine-cli/src/decision.rs:83-108 | Which error is reported for which fault, unknown before repeated before missing reason. |
| Approval.UnnamedFilesAreKept | tools/file-engine-cli/src/execute.rs:87-196 | A user file at a path no proposal of the batch names is identical after the batch, for every batch, journal and crash point. |
| Approval.OnlyApprovedWorkHappens | tools/file-engine-cli/src/execute.rs:87-103 | After decisions and execution, a user file that only rejected or undecided proposals name is identical. |
| Approval.MovedFilesAreTheApprovedOnes | tools/file-engine-cli/src/precondition.rs:92-154 | When ready proposals have no path in common: each ready source passed the size, time and identity check of its proposal when the batch began, and at any crash point that very file (same identity, content and time) is in its place or lies at the destination that a row of this batch names for it. A reported success has an executed row and the file at its destination. |
| Like.EscapedPrefixIsLiteral | tools/file-engine-cli/src/file_index.rs:829-834 | The three chained replacements followed by a slash and a percent sign match exactly the strings that start with the path and a slash, up to ASCII case. |
| Scan.Analyzer.Collect | tools/file-engine-cli/src/analyzer.rs:72-152 | The recursive analyzer appends exactly the files below a directory, private and unreadable directories and links passed over. |
| Scan.Collector.Visit | tools/file-engine-cli/src/file_index.rs:520-583 | The recursive search scanner appends exactly the entries below a directory, or gives up at the first unreadable one. |
| Scan.ScannersAgreeIff | tools/file-engine-cli/src/file_index.rs:585-612 | Whenever the search scanner gets through, the files it visits are those the analyzer visits, in the order of the listings, if and only if no file path holds a backslash. (Each then sorts in its own way.) |
| Scan.BackslashDisagrees | tools/file-engine-cli/src/file_index.rs:585-612 | One file with a backslash in its name is enough for the two to differ. |
| Scan.FilesListed | tools/file-engine-cli/src/analyzer.rs:72-152 | The analyzer lists a file if and only if one comes to it by going down the tree through readable directories and past no private name. |
| Scan.EntriesListed | tools/file-engine-cli/src/file_index.rs:520-583 | The search scanner lists an entry if and only if it is that of a file or directory one comes to in the same way. |
| Scan.GivesUpIff | tools/file-engine-cli/src/file_index.rs:520-583 | The search scanner gives up if and only if one can come to a directory that cannot be read. |
| Scan.ReachesPublic | tools/file-engine-cli/src/file_index.rs:530-537 | No component on the way to a scanned entry is .mousekeeper or .mousekeeper_trash. |
| Index.Database.ReindexRoot | tools/file-engine-cli/src/file_index.rs:71-136 | Both tables are replaced together, or nothing changes. |
| Index.Database.UpsertFile | tools/file-engine-cli/src/file_index.rs:168-211 | One file row and one search row are replaced together, or nothing changes. |
| Index.Database.RemovePath | tools/file-engine-cli/src/file_index.rs:221-250 | Deletion by LIKE removes from both tables exactly the path and what lies under it up to ASCII case, so with foo also the rows below Foo/. |
| Index.Database.ClearIndex | tools/file-engine-cli/src/file_index.rs:254-275 | Both tables are emptied and the index is marked uninitialized. |
| Index.RemovalTakesSubtree | tools/file-engine-cli/src/file_index.rs:221-250 | After a removal a row is in either table if and only if it was there, is not the path, and does not begin with the path, stripped of trailing slashes, and a slash, up to ASCII case; rows that stay are unchanged. |
| Index.UpsertSetsRows | tools/file-engine-cli/src/file_index.rs:168-211 | An upsert of a path of plain names always goes through and sets exactly its row in each table: size, time, the last name, and the text after the last dot of that name in lower case. |
| Index.ReindexSetsRows | tools/file-engine-cli/src/file_index.rs:71-136 | A reindexing that goes through leaves in both tables exactly the rows of what can be reached in the tree, whatever was there before. |
| Index.TablesAlwaysAgree | tools/file-engine-cli/src/file_index.rs:71-275 | Any sequence of reindexing, upserts, removals and clearing on normal paths keeps the file table the exact projection of the file rows of the search table. |
| Index.UpsertAgreesIffNormal | tools/file-engine-cli/src/file_index.rs:168-211 | From tables that agree, an upsert that goes through leaves them in agreement if and only if its path is in normal form. |
| Index.ReindexAgreesIff | tools/file-engine-cli/src/file_index.rs:71-136 | Whatever was in the tables, a reindexing that goes through makes them agree if and only if no file path holds a backslash. |
| Index.GenerationTells | tools/file-engine-cli/src/file_index.rs:647-660 | Operations never lower the generation, and leave it only when they leave both tables. |
| Paging.ScanPage | tools/file-engine-cli/src/file_index.rs:448-517 | The scan in batches of 256 computes the page one would get row by row: the batches are invisible. |
| Paging.PageMeans | tools/file-engine-cli/src/file_index.rs:448-517 | A page is all kept rows from its offset on, or exactly limit of them with the next one's place. |
| Paging.PagingRefinesFiltering | tools/file-engine-cli/src/file_index.rs:448-517 | Following the pages terminates and concatenates to the filtered list; every page but the last is full. |
| Paging.NoRowTwice | tools/file-engine-cli/src/file_index.rs:448-517 | When validity changes between fetches, rows still come in order and none comes twice. |
| Paging.SteadyRowIsReturned | tools/file-engine-cli/src/file_index.rs:448-517 | A row that is valid at every fetch is not missed, whatever happens to the others. |
| Cursors.CursorRoundTrip | apps/desktop/src-tauri/src/file_browse_processor.rs:238-285 | A printed search cursor parses back to its generation and offset if and only if it is parsed for the same fingerprint, for all 64-bit values. |
| Cursors.CursorForm | apps/desktop/src-tauri/src/file_browse_processor.rs:238-285 | A printed cursor has four parts between colons: the word search, 16 hexadecimal digits of the fingerprint, and two decimal numbers. |
| Cursors.StaleCursorIsRefused | apps/desktop/src-tauri/src/file_browse_processor.rs:312-338 | After any index operations that changed something, a fetch with an old cursor is refused as invalidated, or as outside when the index cannot be rebuilt. |
| Cursors.ChainIsExactOrRefused | apps/desktop/src-tauri/src/file_browse_processor.rs:238-285 | With the tree fixed, a chain of fetches interleaved with index operations returns every browsable matching row once and in order, or a prefix of them and a refusal at the first fetch after a change. |
| Cursors.OwedMeans | apps/desktop/src-tauri/src/file_browse_processor.rs:312-338 | A row is owed if and only if it is selected, valid, of a wanted extension and browsable. |
| Cursors.AnswerMeans | apps/desktop/src-tauri/src/file_browse_processor.rs:312-338 | Answers come only for 1 to 200 rows and texts of 2 to 100 characters, have at most that many rows, and hold only rows that may be shown. |
| LinkFree.ValidateNoLinkPath | tools/file-engine-cli/src/file_index.rs:765-801 | A relative path is accepted if and only if its components are plain names and canonical resolution of the joined path is the join itself, so it lies below the root. |
| SyncEvents.StepKeepsSound | apps/worker/src/main.ts:78-112 | Every step of every transaction keeps each user's visible events numbered 1 to n in order of visibility, also when users share a lock. |
| SyncEvents.VisibleIsPublished | apps/worker/src/main.ts:78-112 | For every run: the visible events are exactly the users and bodies that committed transactions inserted, in the order of the commits and within each in the order of its inserts, told from the steps alone. |
| SyncEvents.VisibleWasCommitted | apps/worker/src/main.ts:78-112 | Every visible event was inserted by a transaction that went on without a break to its commit; what an aborted transaction inserted is never seen. |
| SyncEvents.Database.AppendSyncEvent | apps/worker/src/main.ts:78-112 | Lock, maximum and insert, made without interruption, are the three steps of the transaction model, and stage one more event, of this user and with this body. |
| SyncReplay.ValidateSyncEvents | apps/desktop/src-tauri/src/agent.rs:3109-3134 | Events are accepted if and only if their numbers ascend from the cursor and every envelope is complete. |
| SyncReplay.Desktop.ReplayEvents | apps/desktop/src-tauri/src/background.rs:1040-1080 | The cursor moves, to the last event, only when the whole page has been applied; otherwise some first events were applied and it stays. |
| SyncReplay.NoEventIsSkipped | apps/desktop/src-tauri/src/background.rs:1030-1081 | For every interleaving of transactions, aborts, fetches and crashes: every visible event of the user at or below the saved cursor of a desktop has been applied by it. |
| SyncReplay.FetchIsExact | apps/desktop/src-tauri/src/background.rs:1039-1043 | In every reachable state a fetch gets the user's committed events right after the cursor, without a gap, and none is rejected. |
| SyncReplay.PageAdvances | apps/desktop/src-tauri/src/background.rs:1040-1080 | Progress: from every reachable state, applying what is left of a page and advancing puts the cursor at its end, with every event up to there applied. |
| Lease.JobTable.ClaimJob | apps/worker/src/main.ts:585-618 | The claimable row with the earliest time that is not locked is taken, or there is none. |
| Lease.JobTable.FinishJob | apps/worker/src/main.ts:682-693 | A job is completed, or put off for a minute. |
| Lease.LeaseSafety | apps/worker/src/main.ts:585-632 | When final writes land within their leases: no two workers hold one job, and every job that is not completed can be claimed by a new worker after a bounded wait. |
| Lease.NoOneElseFor300Seconds | apps/worker/src/main.ts:585-632 | Whatever happens, for 300000 ms after a claim nobody can claim the job, unless a final write on it comes first. |
| Lease.WaitsInMilliseconds | apps/worker/src/main.ts:606-693 | A claimed job can be claimed again from exactly 300000 ms after the claim on, a retried one from exactly 60000 ms after the write on. |
| Lease.AttemptsAreClaims | apps/worker/src/main.ts:606-618 | Over every run the counter of a job grows by the number of its claims. |
| Lease.CompletedStaysIff | apps/worker/src/main.ts:620-693 | Without any assumption on timing: from a moment when a job is completed, it stays exactly as it is if and only if no worker with a claim on it later finishes by asking for a retry. |
| Lease.CompletedIsFinal | apps/worker/src/main.ts:620-632 | When final writes land within their leases, a completed job is never touched again. |
| Lease.LateWriteReopens | apps/worker/src/main.ts:682-693 | Without it, a late retry reopens a job that another worker completed. |
| Calendar.CivilFollows | apps/desktop/src-tauri/src/cleanliness.rs:253-269 | Every day has a valid date, day 0 is 1970-01-01, and the next day has the next date, for day counts of either sign. |
| Calendar.CivilIsExact | apps/desktop/src-tauri/src/cleanliness.rs:253-269 | A date is computed for a day count if and only if it is the valid date with that Gregorian day count. |
| Calendar.CivilFromDaysIsExact | apps/desktop/src-tauri/src/cleanliness.rs:253-269 | Narrowed to 32 bits the date is exact if and only if its year fits. |
| Timestamps.TimestampsSort | apps/desktop/src-tauri/src/cleanliness.rs:235-251 | Before 10000-01-01T00:00:00Z, that is below 253402300800000 milliseconds, a later time has a lexicographically larger text. |
| Timestamps.TimestampSays | apps/desktop/src-tauri/src/cleanliness.rs:235-269 | Below the same bound the text has the form YYYY-MM-DDTHH:MM:SS.mmmZ with a date and a time of day that exist, and its numbers, read back, are exactly the milliseconds it was made from. |
| Timestamps.FourDigitsEnd | apps/desktop/src-tauri/src/cleanliness.rs:235-269 | The year printed has four digits if and only if the time is below that bound, for every natural number of milliseconds, those whose seconds exceed 64 bits included. |
| MonotoneClock.CallsRise | apps/desktop/src-tauri/src/cleanliness.rs:218-233 | With any number of threads, stale loads and spurious failures, successful calls return strictly rising values below the largest 64-bit number: each exactly the time read if that is later than the clock, and else the next number. |
| MonotoneClock.Clock.MonotonicUnixMs | apps/desktop/src-tauri/src/cleanliness.rs:218-233 | Undisturbed, the loop ends and stores the larger of the time and the successor of the last value, whatever its first load returned. |

## Left out

Of the file engine:

- Paths are sequences of components: spellings with ".", empty components or drive prefixes of the same path are not told apart.
- Sources of moves that are directories: the size, time and identity of a directory are not modelled, so the precheck of one is always "source changed".
- Directories that `create_dir_all` may leave behind when the destination of a move is refused by the path guard only after they were made.
- Links under the managed root (`LinkFree` treats them for the search index), and journal appends that fail for another reason than a crash.
- Report texts, counters, trash metadata text, creation times of rows, and the sorting of the history by time.
- Corrupted journal rows, the lenient reader and `recover_journal`.
- UndoInverts.UndoInvertsExecute: stated for batches whose paths lie outside `.mousekeeper` and `.mousekeeper_trash` (the path guard accepts others, which can collide with the engine's own files); modification times of user files are claimed only when the batch writes no README.md.
- UndoInverts.UndoRestoresIffUnblocked: the same restriction to user paths, and the same on modification times.
- Conservation.SessionConserves: README writes are excluded, because undoing one may discard later edits; contents are counted per file identity.
- CrashRetry.RetryReachesSameTree: stated for moves, because only moves are recovered by the code; a trashing or creation cut between effect and row is done again or skipped.
- JournalLanguage.SessionIsOrderly: leaves out sessions with a batch that repeats a pair of paths, where one operation can get two executed rows (`JournalLanguage.RepeatedPairBreaks`); `JournalStages.SessionIsTidy` leaves out none.
- WriteAhead.NoSilentChange: compares files, not directories.
- Approval.MovedFilesAreTheApprovedOnes: assumes that paths of ready proposals are pairwise distinct and outside the private directories, as the prechecks all run before the first effect.
- WriteAhead.EffectsAreAnnounced: parent directories made on the way are not announced, on undo they are even made before the row.

Of the search index:

- SQL itself: tables are maps, a transaction is one step, and the ordered SELECT of a query is any function of the tables. The columns `file_id`, `parent_relative_path` and `normalized_name`, the width of integers, and entries whose metadata cannot be read are not modelled.
- The normalization of queries and extension filters, the check of the search directory, and the plain directory listing with its offset cursor.
- Cursors.ChainIsExactOrRefused: the fingerprint of a query is any 64-bit function of it; that two queries have different fingerprints is not claimed.
- LinkFree.ValidateNoLinkPath: components are taken as already split; reparse points count as links.

Of sync and notifications:

- SyncEvents.StepKeepsSound: takes it that every writer uses the same lock and reads committed events and its own; isolation levels and deadlocks of the database are not modelled.
- SyncReplay.NoEventIsSkipped: takes it that the server replays committed events after the cursor in order; what applying an event does is not modelled.
- The other job queues, transfers, token revocation and the sending of messages.

Of dates and clocks:

- Timestamps.TimestampsSort: says nothing from the year 10000 on, where the printed width changes (`Timestamps.FourDigitsEnd`).

Not modelled at all: rule matching, scoring, document parsing, pairing, chat, storage of the desktop, the server's endpoints and all user interface code.
