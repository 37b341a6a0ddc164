# Verified model of the Simplex worker and Hub

Simplex runs agent sessions: a *worker* process (C++) drives a model, its tools and a
session store, and a *Hub* (TypeScript) starts workers and shows what they do. This
project models the parts of the two programs in which one wrong branch is costly and
hard to see, and proves what those parts are for.

| files | what they model |
|---|---|
| `StoreJournal.dfy`, `Worker.dfy` | the run controller: admission, task segments, checkpoints, automatic compaction, settlement, retention, shutdown. The store may give any answer its contract allows, and a stop may be requested at any moment |
| `RunControl.dfy`, `Approval.dfy` | cancel, shutdown, admission and tool confirmation as atomic steps split where the source takes and releases its locks; theorems quantify over every interleaving |
| `Utf8.dfy`, `JsonText.dfy`, `JsonString.dfy` | section 4 of RFC 3629, the cut at a code point, the best escaped prefix, and a reader of strings after section 7 of RFC 8259 |
| `HistoryRecords.dfy`, `HistoryBounds.dfy`, `HistoryPaging.dfy`, `HistoryWalk.dfy` | the history pager: the exact text of a page, its best-fitting previews, its byte accounting, its worst case, and the walk with its two-level cursor |
| `AnswerPage.dfy`, `HistoryAnswers.dfy` | the exact-answer pager of the worker, the Hub's check of each page, and the way from a history preview to its answer |
| `PromptTemplate.dfy`, `Compact.dfy` | the byte budget of a compaction, over the real canonicalization and rendering of a prompt |
| `JsonPreview.dfy`, `JsonPreviewFacts.dfy`, `JsonReader.dfy`, `Fence.dfy` | the bounded JSON printer, a reader of JSON texts, and the fenced blocks of the readable export, read back by section 4.5 of the CommonMark specification |
| `Mailboxes.dfy`, `RequestWindow.dfy` | the bounded queues of the IO client and the recent-request index |
| `ConfigMerge.dfy`, `ConfigOrder.dfy`, `StripComments.dfy`, `PromptPath.dfy` | layering and reducing the Hub configuration, blanking comments, and the two validators of prompt paths |

Byte strings are Dafny strings with one character per byte. Objects whose methods update
their fields are classes proved against a ghost history or a function of their state;
loops are loops with invariants; concurrent protocols are state machines over schedules.

## What the proofs show

* Every run of the worker leaves a *safe* journal of store calls, tool dispatches and
  terminal events: tools run, and the batch that ran them projects its results, only from a
  state the store already holds; `durable` is true only if the store holds the live state;
  no snapshot is written behind a latched store, nothing at all follows a storage error, and
  every compaction attempt is committed, settled once and as what it was, or left as
  evidence behind a SQLite latch.
* Results that a *later* run projects before it accepts new work are in the store **if and
  only if** the last barrier was not missed, and always when ends of runs are saved
  (`save_run`). Without that, an exception before the barrier, such as a hook that changed
  the session identity or an observer that threw, ends the run failed and unsaved, and the
  next request projects results the store never got.
* Across a crash no batch is dispatched twice: until something else is stored the snapshot
  says that tools were running, and a worker that restores it dispatches and reports nothing.
* The status a request is reported with is the one its run ended with: that of the loop's
  own record when the loop accepted the run, failed after an exception, cancelled only after
  a requested stop, completed only of a completed and settled record. One status contradicts
  the record: when the retention after a committed automatic compaction latches the store,
  the error says completed while the controller has recorded failed
  (`core/src/application.cpp:1518-1521`).
* While the flag `run_saved` is set, the store holds the live state **unless** a compaction
  commit with an uncertain outcome was applied; then, and only then, it holds that
  replacement (`Worker.Application.SavedIsStored`, part of the invariant of every method).
  No other failure, latched or not, makes the flag wrong. The worker stays honest because
  the terminal event is then an error rather than a durable result. The one exception is
  the stamp that shutdown writes into the state before its own save, after which nothing
  reads the flag.
* A finished shutdown leaves no admitted run with an unstopped source, in every
  interleaving, also when the flag is set between the test and the installation of a run.
  At most one run is installed after the flag, it was tested before it, and no thread that
  set the flag had captured a run yet. A cancellation of the current run is carried out, and
  one that names a run is refused only when another was current.
* A tool call is approved **if and only if**, when it was decided, its run had a scope that
  nothing had cancelled, and the policy approves by itself, or asks and an approving reply
  with all four labels came in time. Nothing revives or blocks a decision.
* A history walk shows every turn and step once and in order, in pages of at most
  252 KiB, and cannot get stuck; a page ends only at the asked limit, at the end, or where
  the next turn or step does not fit. Each preview shows the most that fits of what is tried,
  which leaves 256 bytes for the rest of the record. The locator beside it leads to the
  whole answer **if and only if** that has content and none of it is binary. The last size test of `display_step`
  (`core/src/display.cpp:217`) can never fail, because the bisection keeps a probe that fits.
* A compaction plan that succeeds covers every summary. Contexts strictly shrink by the
  target alone exactly above 40960 bytes; at or below that the slack may exceed the saving.
* What the escaping makes of a text is read back as that text by section 7 of RFC 8259, and
  no shorter string is; a print of a tree from which nothing was clipped is read back as the
  tree.
* The bounded JSON preview is a prefix of the same printer without the block limit, for
  every tree, **if and only if** the string limit does not exceed the block limit.
  Otherwise the printer silently lowers the string limit to the block limit, and a string
  that is cut across a code point differs from the unlimited print inside the block.
* Reducing a Hub configuration to its differences and loading it again gives the same
  settings back **if and only if** it still has every default key wherever both are
  objects, and gives the same document back, key order included, if and only if it also
  begins with those keys in their order. One overlay on the defaults always does; two
  overlays need not have every key: a section that the file replaces by a scalar and the
  command line by an object gets the default keys back on the next start.
* `stripJsonComments` adds two characters when the text ends inside a block comment, and
  takes the three characters slash, star, slash as a closed comment.

## Model

| member | source | states |
|---|---|---|
| `Utf8.SplitAtBoundary` | core/src/display.cpp:16-23 | text split where no continuation byte starts gives two valid UTF-8 texts |
| `Utf8.FourContinuationsAreIllFormed` | core/src/display.cpp:16-23 | valid UTF-8 never has four continuation bytes in a row, so a cut loses at most three bytes |
| `Utf8.CutOfWellFormed` | core/src/display.cpp:16-23 | the position where the loop stops is a boundary at most three bytes back, and the prefix is valid |
| `Utf8.CutMonotone` | core/src/display.cpp:16-23 | a later limit never cuts earlier; the growth of display probes rests on it |
| `Utf8.Prefix` | load/src/persistence.cpp:20-27 | the longest boundary-aligned prefix within the limit, valid UTF-8 for valid input |
| `JsonText.Uint64Digits` | core/src/display.cpp:402-403 | a 64-bit counter prints in at most twenty digits |
| `JsonText.QuotedMonotone` | core/src/display.cpp:78-94 | the escaped size of a prefix grows with the prefix |
| `JsonText.EncodedPrefix` | core/src/display.cpp:78-94 | the longest code-point-aligned prefix whose escaped form fits: it fits, and no longer aligned prefix does |
| `JsonText.TooLongStaysTooLong` | core/src/display.cpp:84-92 | when a probe is too long, every boundary from there on is too long |
| `JsonString.QuotedReadsBack` | core/src/display.cpp:82-87 | a reader of section 7 of RFC 8259 gets every text back from its escaped form, whatever bytes it has |
| `JsonString.QuotedIsShortest` | core/src/display.cpp:82-87 | no JSON string that stands for a text is shorter than the escaped form that is measured |
| `JsonString.DecimalReadsBack` | core/src/display.cpp:402-403 | the printed digits stand for the number and have no leading zero |
| `HistoryRecords.PageAppend` | core/src/display.cpp:437-443 | adding a turn to a page costs exactly its text and one separator after the first |
| `HistoryRecords.PageCursorsShrink` | core/src/display.cpp:396-410 | replacing the reserved cursors by the final ones never lengthens the page |
| `HistoryRecords.TurnAppend` | core/src/display.cpp:460-465 | adding a step to a turn costs exactly its text and one separator after the first |
| `HistoryRecords.TurnOmissionShrinks` | core/src/display.cpp:474-476 | lowering the count of omitted steps never lengthens the turn |
| `HistoryBounds.StepBound` | core/src/display.cpp:192-225 | any step record prints in at most 129000 bytes when identities have at most 128 bytes |
| `HistoryBounds.TurnBound` | core/src/display.cpp:183-190 | a turn with its worst-case escaped user parts and no steps prints in at most 102500 bytes |
| `HistoryBounds.PageBound` | core/src/display.cpp:400-410 | the metadata of an empty page prints in at most 1200 bytes |
| `HistoryPaging.DisplayContent` | core/src/display.cpp:160-181 | a part is shown as the longest aligned prefix within its limit, and is marked truncated exactly when the prefix is proper |
| `HistoryPaging.ProbesGrow` | core/src/display.cpp:199-215 | truncated records of one part grow with what they show |
| `HistoryPaging.LastProbeIsBest` | core/src/display.cpp:199-215 | a probe that fits, while no larger one does, is the best of all records that show the part |
| `HistoryPaging.FitContent` | core/src/display.cpp:199-215 | the bisection finds the record that shows most: it fits the rest of the budget, and no record of a longer aligned prefix within what is tried does |
| `HistoryPaging.ShowParts` | core/src/display.cpp:196-220 | the first parts, each at its best within what the ones before it left, until 128 are shown or fewer than 1024 bytes are left |
| `HistoryPaging.DisplayStep` | core/src/display.cpp:192-225 | the same for a response, with the count of omitted parts, the calls and the reasoning cut to 4096 bytes |
| `HistoryPaging.DisplayParts` | core/src/display.cpp:183-190 | the first four user parts, each the longest aligned prefix within its limit |
| `HistoryPaging.ProjectStep` | core/src/display.cpp:445-461 | a step record shows its exchange with best-fitting parts, reasoning, commit, locator and execution identity; it fails only for unreadable metadata |
| `HistoryPaging.ProjectInput` | core/src/display.cpp:418-436 | the turn record before its steps; an internal input shows no user part |
| `HistoryPaging.AddSteps` | core/src/display.cpp:444-476 | whole steps in order, and the first one left out does not fit; the running total bounds the printed turn; the first step always fits on a fresh page |
| `HistoryPaging.CoversAppend` | core/src/display.cpp:475-483 | one more turn record extends the gapless stretch to the cursor the loop computes |
| `HistoryPaging.AddTurn` | core/src/display.cpp:413-483 | one turn with as many of its steps as fit, its exact cost, and no room only where its start or its first step does not fit |
| `HistoryPaging.ReadHistory` | core/src/display.cpp:388-487 | the page covers exactly the stretch from the asked to the returned cursor, prints in at most 252 KiB, ends only for a reason, and for every well-kept history it is shown exactly when the cursor lies inside it: no length error is reachable |
| `HistoryWalk.PageAccounts` | core/src/display.cpp:413-486 | all steps and turns from the old cursor are those on the page followed by all from the new cursor |
| `HistoryWalk.PageAdvances` | core/src/display.cpp:475-486 | the cursor moves strictly forward in lexicographic order |
| `HistoryWalk.WalkAccounts` | core/src/display.cpp:388-487 | after any number of pages, shown plus remaining is the whole history, and the number of pages is bounded by what was there |
| `HistoryWalk.WalkShowsEverything` | core/src/display.cpp:388-487 | a walk that reached the end showed every turn and every step exactly once, in order |
| `HistoryWalk.WorkerPagesExtendWalk` | core/src/display.cpp:484-487 | whatever page the worker returns for the walk's cursor continues the walk |
| `HistoryWalk.WalkHistory` | core/src/display.cpp:388-487 | a client that follows the cursor on a well-kept history reaches the end, and its pages show every turn and step once, each within 252 KiB |
| `AnswerPage.ReadPage` | core/src/display.cpp:489-554 | a page is answered exactly when the locator names a committed answer and the cursor a text boundary in it, with the part's own kind, modality, size and bytes and the asked request; otherwise which of the eight refusals |
| `AnswerPage.PageProgress` | core/src/display.cpp:529-538 | a page holds whole code points and ends the part or advances by at least 32 KiB less three bytes |
| `AnswerPage.WorkerPageIsAccepted` | hub/shared/answers.ts:7-35 | every page the worker produces for a text answer passes the Hub's checks for the query it answers |
| `AnswerPage.WalkIsAccepted` | hub/shared/answers.ts:18-35 | the Hub accepts every page of a walk for the cursor it asked with, and each cursor is the one the page before returned |
| `AnswerPage.ServedIff` | core/src/display.cpp:523-554 | an answer of valid text is served from its beginning to its last page if and only if it has content and none of it is binary |
| `AnswerPage.Walk` | core/src/display.cpp:523-554 | following the returned cursor terminates, and only the last page says it is done |
| `AnswerPage.WalkCollectsTheRest` | core/src/display.cpp:523-554 | from any readable cursor the pages hold exactly the unread bytes of every part |
| `AnswerPage.WalkRebuildsAnswer` | core/src/display.cpp:523-554 | the walk from the origin puts every part back byte for byte |
| `AnswerPage.WalkLabels` | core/src/display.cpp:543-553 | every page of a walk carries the asked request and source and says of its part what the part is |
| `AnswerPage.WalkVisits` | core/src/display.cpp:523-554 | a walk has a page for every part from its cursor on, empty ones included |
| `AnswerPage.WalkReassemblesAnswer` | core/src/display.cpp:523-554 | putting the pages of the walk together gives the parts back, each with kind, modality and every byte, in order |
| `HistoryAnswers.PreviewsCanBeCompleted` | core/src/display.cpp:449-454 | every locator on a history page names the committed response the step previews; it is served to the end if and only if that has content and none of it is binary, and then the walk gives its parts back |
| `PromptTemplate.FramedSize` | dataclass/include/dataclass/prompt_template.hpp:319-344 | in the canonical form of a framed body, head, body and tail contribute to the size separately |
| `PromptTemplate.FramedBodyIsAtMostAdditive` | dataclass/include/dataclass/prompt_template.hpp:319-344 | filling the frame adds at most the bytes of the filling |
| `PromptTemplate.CanonicalIsItsLines` | dataclass/include/dataclass/prompt_template.hpp:319-344 | a canonical body is, exactly, its lines without trailing blanks from the first to the last with ink |
| `PromptTemplate.RewriteLastSection` | dataclass/include/dataclass/prompt_template.hpp:286-317 | rewriting a titled last section changes the rendered size by exactly its body |
| `PromptTemplate.AddSection` | dataclass/include/dataclass/prompt_template.hpp:222-244 | a section is added exactly when its name is new and its stability does not go backwards, in canonical form |
| `Compact.CheckedAdd` | core/src/compact.cpp:13-18 | the exact sum, or an overflow exactly when it exceeds 64 bits |
| `Compact.ContextBytes` | core/src/compact.cpp:51-58 | the exact size of the context, or an overflow exactly when it exceeds 64 bits |
| `Compact.WorkerFrameIsValid` | core/src/compact.cpp:60-80 | the notice the worker writes begins with ink, as the additivity theorem needs |
| `Compact.CopySections` | core/src/compact.cpp:60-80 | copying a valid template without its old memory never fails and ends in an empty memory section |
| `Compact.MemoryHoldsSummary` | core/src/compact.cpp:104-125 | the memory section holds the lines of the summary between the notice with the opening marker and the closing marker |
| `Compact.PlanCompact` | core/src/compact.cpp:60-102 | the fixed size, target and allowances of a plan, and exactly when each refusal happens |
| `Compact.ShrinksIff` | core/src/compact.cpp:84-89 | the target is below the present size if and only if that exceeds 40960 bytes |
| `Compact.MarkerFits` | core/src/compact.cpp:104-125 | the reserve covers the truncation marker with any 64-bit count |
| `Compact.CutSummary` | core/src/compact.cpp:104-125 | a truncated summary is cut at a code point at most three bytes back, or after a line feed not far before that |
| `Compact.CompactPrompt` | core/src/compact.cpp:104-125 | for every summary the preview stays within the allowance, keeps an aligned prefix, and backs off at most three bytes or to a line end within 512 |
| `Compact.InjectionIsAtMostAdditive` | core/src/compact.cpp:104-125 | a summary enlarges the rendered prompt by at most its own bytes |
| `Compact.EverySummaryFits` | core/src/application.cpp:1244-1252 | under a successful plan every preview leads to a replacement within the hard target, so the size check after the model call never fires; contexts above 40960 bytes strictly shrink |
| `Compact.CompactContext` | core/src/application.cpp:1244-1252 | plan, preview and size test in a row: for every summary the test passes once a plan was made, and the replacement has the promised size |
| `JsonPreview.Preview.Append` | load/src/persistence.cpp:105-112 | the text stays the clipped form of the unlimited output, the room never underflows, and `full` holds exactly when that output is longer than the block |
| `JsonPreview.Preview.WriteQuoted` | load/src/persistence.cpp:115-124 | a string is cut before escaping, and the clip is recorded exactly when something was cut |
| `JsonPreview.Preview.Write` | load/src/persistence.cpp:50-92 | whatever the tree, the output is the clipped form of the recursive print of the tree |
| `JsonPreview.Preview.WriteContainer` | load/src/persistence.cpp:56-84 | the same for arrays and objects, with the depth limit |
| `JsonPreview.Preview.WriteMembers` | load/src/persistence.cpp:65-80 | the same for the element loop, with the item limit and the early exit when full |
| `JsonPreviewFacts.Print` | load/src/persistence.cpp:46-130 | one preview is at most a block, is a prefix of the unlimited output, carries the notice exactly when something is missing, and without it is read back as the tree |
| `JsonReader.PrintReadsBack` | load/src/persistence.cpp:50-92 | a print from which nothing was clipped is read back, by a reader of RFC 8259, as its tree, at every depth and whatever follows |
| `JsonPreviewFacts.RenderIsWellFormed` | load/src/persistence.cpp:50-92 | the unlimited output is valid UTF-8 for every tree |
| `JsonPreviewFacts.ShownIsWellFormed` | load/src/persistence.cpp:105-112 | the clipped text is valid UTF-8 and at most three bytes short of a full block |
| `JsonPreviewFacts.StraddlingDiffers` | load/src/persistence.cpp:115-124 | for every string limit above the block limit, a string whose preview is no prefix of the print without a block limit |
| `JsonPreviewFacts.RefinesUnlimitedIff` | load/src/persistence.cpp:105-124 | previews refine the print without a block limit for all trees if and only if the string limit is at most the block limit |
| `Fence.WriteBlock` | load/src/persistence.cpp:30-43 | the fence is at least three ticks and longer than every run of ticks in the text, and the block is laid out around it |
| `Fence.ReadingIsUnique` | load/src/persistence.cpp:30-43 | a document reads as a fenced block in at most one way |
| `Fence.NoCloseInside` | load/src/persistence.cpp:30-43 | no line of the content closes the block |
| `Fence.BlockReadsBack` | load/src/persistence.cpp:30-43 | a CommonMark reader gets back exactly the language and the content |
| `StoreJournal.NothingFollowsLatch` | core/src/application.cpp:1002-1060 | after a latching answer no checkpoint, archive or compaction commit and no finished run follows; with SQLite no settlement or retention; after an uncertain settlement no store call at all |
| `StoreJournal.ToolsAreWrittenAhead` | loop/src/loop.cpp:515-538 | when tools are dispatched or a batch projects its results, no write has failed, the store holds exactly the state that says so, and no stop or failed hook forbade the dispatch |
| `StoreJournal.RecoveredIffWritten` | loop/src/loop.cpp:402-417 | results that a later run projects are in the store if and only if the last barrier was not missed, and always with `save_run` |
| `StoreJournal.UnwrittenResultsMayBeRecovered` | core/src/application.cpp:530-531 | without `save_run`, a run whose barrier was missed and the next one that projects what the store never got |
| `StoreJournal.DispatchLeavesMark` | loop/src/loop.cpp:519-522 | after a dispatch, until something else is stored, the snapshot says that tools were running |
| `StoreJournal.NothingFollowsError` | core/src/application.cpp:1678-1693 | a reported storage error is the last thing a worker does |
| `StoreJournal.DurableMeansStored` | core/src/application.cpp:1702 | a run reported as durable is what the store holds at that moment |
| `StoreJournal.ReportsAreTruthful` | core/src/application.cpp:1652-1709 | every terminal event of a safe journal tells how its request ended; completed is reported of a completed and settled record, but for the error after the announcement of an automatic compaction |
| `StoreJournal.SafeEverywhere` | core/src/application.cpp:526-549 | every event of a safe journal was allowed after the events before it |
| `StoreJournal.AttemptEndsOnce` | core/src/application.cpp:1066-1141 | commits and settlements of one archive are exactly one after success or settlement and none before |
| `StoreJournal.CommittedIsNeverSettled` | core/src/application.cpp:1126-1138 | a committed attempt is never settled as failed or cancelled |
| `StoreJournal.PreparedIsNotSettled` | core/src/application.cpp:1126-1138 | an attempt still open has not been settled |
| `StoreJournal.UncertainCommitReplaces` | core/src/application.cpp:1299-1310 | wherever an attempt is open, an uncertain commit may be applied: the journal stays one the worker can produce and the store no longer holds the saved state |
| `Worker.Application.Save` | core/src/application.cpp:526-549 | a normal return means the live state is stored, a store error and nothing else latches and requests a stop, a missed barrier leaves store and flag alone, and nothing is written once latched |
| `Worker.Application.ToolBatch` | loop/src/loop.cpp:515-549 | a failed barrier ends the batch; with the three rows below, tools run and results are projected only behind a successful checkpoint of that very state, and buffered results agree with the store |
| `Worker.Application.RunTools` | loop/src/loop.cpp:515-530 | the barrier comes before the dispatch, and afterwards the store still holds the state in the tool phase |
| `Worker.Application.Dispatch` | loop/src/loop.cpp:524-530 | tools are dispatched only from the stored state in the tool phase, with no stop requested and no failed hook |
| `Worker.Application.Project` | loop/src/loop.cpp:532-536 | results are projected only from the stored state that buffers them |
| `Worker.Application.Recover` | loop/src/loop.cpp:402-417 | buffered results are projected by a later run, from the store exactly when their barrier was not missed; a failure keeps the buffer |
| `Worker.Application.AdmitRun` | loop/src/loop.cpp:376-425 | everything before the loop accepts work: recovery inspection, stop, validation and buffered results |
| `Worker.Application.Exchanges` | loop/src/loop.cpp:447-572 | at most the configured exchanges, and compaction is asked for only with a threshold and after an exchange |
| `Worker.Application.LoopRun` | loop/src/loop.cpp:357-626 | one segment keeps the invariants; nothing changes the state after the final barrier, so a saved segment is the stored one, and buffered results agree with the store or are still to be saved |
| `Worker.Application.FinishRun` | loop/src/loop.cpp:592-625 | the terminal record and the final barrier: uncertain tools become blocked, buffered results stay, and compaction is asked for only from a ready state |
| `Worker.Application.LatchOptional` | core/src/application.cpp:1002-1008 | only an uncertain outcome of archive bookkeeping latches the store |
| `Worker.Application.Prune` | core/src/application.cpp:1330-1345 | retention runs only for an ended attempt and an unlatched database, and leaves the snapshot alone |
| `Worker.Application.SettleFailedCompact` | core/src/application.cpp:1018-1060 | one settlement with the given outcome, or evidence kept behind a SQLite latch; retention only after a certain settlement |
| `Worker.Application.AddExchanges` | core/src/application.cpp:1359-1364 | the exact counter, or an overflow exactly when it would wrap |
| `Worker.Application.Summarize` | core/src/application.cpp:1162-1292 | everything before the commit leaves the live state alone and yields a replacement only when complete and with no stop requested by then |
| `Worker.Application.Commit` | core/src/application.cpp:1293-1316 | the commit is the boundary: the replacement is live and stored when it succeeds, and otherwise state and flag are unchanged, with another state in the store only after an applied uncertain commit |
| `Worker.Application.CompactAttempt` | core/src/application.cpp:1293-1356 | the live state becomes the replacement exactly when the commit succeeds and is then stored; otherwise it and the flag are unchanged and the attempt is still open, and only an uncertain commit that was applied leaves another state in the store |
| `Worker.Application.Announce` | core/src/application.cpp:1354 | a committed compaction is announced after its retention, and the store is left alone |
| `Worker.Application.Freeze` | core/src/application.cpp:1098-1112 | the live state is archived or the attempt does not exist; an uncertain outcome, or any SQLite error, latches |
| `Worker.Application.CompactSession` | core/src/application.cpp:1066-1141 | all or nothing: committed and stored, or unchanged and settled, as cancelled exactly for a cancelled attempt without an exception; every attempt is at rest on every exit |
| `Worker.Application.FinishController` | core/src/application.cpp:1399-1407 | exactly for a ready state the loop record becomes cancelled or failed and the state no longer counts as saved |
| `Worker.Application.AutoCompactCycle` | core/src/application.cpp:1452-1530 | one guarded cycle: refused without an archive after a success followed by one exchange and at the limit; it goes on only after a success, attempts exceed successes by at most one and never the limit, and where it ends, status and record agree |
| `Worker.Application.RunWithAutoCompact` | core/src/application.cpp:1414-1530 | at most limit plus one segments and as many times the exchange limit; the result is never an intermediate status, so the wire status is total, and it agrees with the record |
| `Worker.Application.Report` | core/src/application.cpp:1669-1709 | the terminal event: an error behind a latch, which stops the worker, otherwise a result that says durable only of a stored state, each with a truthful status |
| `Worker.Application.EndingIsAllowed` | core/src/application.cpp:1669-1709 | the terminal event that the state calls for is one the journal allows, with its status truthful |
| `Worker.Application.Catch` | core/src/application.cpp:1651-1655 | an exception is a failure, recorded in a ready state |
| `Worker.Application.Settle` | core/src/application.cpp:1659-1710 | what the final barrier did not save is saved before the report, the report is truthful, and buffered results agree with the store |
| `Worker.Application.SaveEnd` | core/src/application.cpp:1662-1673 | the save at the end of a run, exactly where it is due; it changes nothing of what is to be reported |
| `Worker.Application.Execute` | core/src/application.cpp:1633-1710 | one admitted request ends settled and is reported exactly once and truthfully, as the last event, unless an exception escapes; with `save_run` its state is then stored |
| `Worker.Application.Consume` | core/src/application.cpp:1551-1712 | every admitted request is reported once, except a last one that an exception escaped from; a latched store ends the admission |
| `Worker.Application.RunOwned` | core/src/application.cpp:1751-1785 | the shutdown save is skipped behind a latch, otherwise stores the live state when it returns, and keeps the journal safe |
| `Worker.RunWorker` | core/src/application.cpp:1714-1790 | for every configuration, stored snapshot, input list, store behaviour and stop: the whole journal is safe, no attempt is left half done, no more requests are reported than were given, and a restored session whose tools may have run is at most saved again |
| `Worker.RestartAfterCrash` | core/src/application.cpp:1564-1566 | if a worker dispatched tools and stored nothing since, the one that restores its session dispatches, projects and reports nothing |
| `RunControl.ReachableInv` | core/src/application.cpp:371-392 | the control invariant holds after every schedule of cancels, shutdowns, admission tests, installations and run ends |
| `RunControl.ShutdownStopsTheRun` | core/src/application.cpp:1620-1632 | once a thread that set the flag finished its cancel, the current run is stopped, its scope no longer approves, none is being installed and no admission passes its test |
| `RunControl.NamedCancelStopsOnlyItsRun` | core/src/application.cpp:371-382 | a cancel that names a run stops that run's scope and source and no other |
| `RunControl.EveryStopIsAccountedFor` | core/src/application.cpp:371-382 | a finished named cancel did stop its run, and every stopped run has a thread that captured exactly it |
| `RunControl.CancelIsCarriedOut` | core/src/application.cpp:376-382 | from its snapshot, the steps of a thread that names no run or the current one stop that run, and with a live scope the scope first |
| `RunControl.CapturedIsNeverBlocked` | core/src/application.cpp:380-382 | whatever the others did, a thread that captured a run can take its next step until it is done |
| `RunControl.RefusedOnlyIfStale` | core/src/application.cpp:376 | a cancellation that names a run is refused only if the run last installed before was another |
| `RunControl.AdmissionIsCarriedOut` | core/src/application.cpp:1625-1631 | without a shutdown an idle worker admits a run in its mode, with a live scope and nothing stopped |
| `RunControl.LateAdmissionWasTestedBefore` | core/src/application.cpp:1620-1632 | a run installed after the flag was tested before it, no thread that set a flag had captured a run yet, and no other test or installation follows the flag |
| `Approval.ReachableSystem` | core/src/confirmation.cpp:49-119 | the invariant of all confirmations holds after every interleaving with run control |
| `Approval.ApprovalIsSafe` | core/src/confirmation.cpp:61-119 | an approval comes from the run's policy, or from an approving reply that echoes all four labels with no expired deadline, and precedes every cancellation of that run's scope |
| `Approval.ApprovedIff` | core/src/confirmation.cpp:56-119 | a decided call is approved if and only if its run had a scope that nothing had cancelled by then, and the policy approves, or asks and an approving reply with all four labels came in time |
| `Approval.TimelyReplyDecides` | core/src/confirmation.cpp:92-115 | while the scope is not cancelled, a reply with the labels before the deadline is what the call is decided by |
| `Approval.AskIsNeverStuck` | intercom/src/cancellable_exchange.cpp:43-90 | whatever happened, some move brings an undecided call nearer to its decision |
| `Approval.TimerIsJoinedOnce` | intercom/src/cancellable_exchange.cpp:43-90 | a started timer is handled and joined exactly once by the decision, however the exchange ended, and one not started never is |
| `Approval.DecisionIsFinal` | core/src/confirmation.cpp:56-59 | whatever happens in the rest of a run, late replies and timers included, a decision stays what it was |
| `Mailboxes.Client.QueueFeedback` | io/src/client.cpp:153-162 | oversized labels are dropped, and a notice is queued or counted as unreported, or neither once the client is stopping |
| `Mailboxes.Client.OnText` | io/src/client.cpp:164-218 | the view after a message, and exactly when the handler throws |
| `Mailboxes.Client.Deliver` | io/src/client.cpp:220-263 | each consumer takes the oldest entry of its own queue |
| `Mailboxes.Client.CloseQueues` | io/src/client.cpp:265-271 | closing stops the client and touches nothing else |
| `Mailboxes.StepBalances` | io/src/client.cpp:153-263 | one event moves each message from one column of the account to another |
| `Mailboxes.NothingIsLost` | io/src/client.cpp:153-263 | before the stop: received is queued plus delivered plus rejected, rejected is queued plus published feedback plus unreported, and no queue exceeds its capacity |
| `Mailboxes.FirstInFirstOut` | io/src/client.cpp:164-263 | what a mailbox let in, in order, is what it delivered followed by what it holds |
| `Mailboxes.NoticesInOrder` | io/src/client.cpp:153-263 | each refused message has its own notice, as far as there was room, and notices are published in order |
| `Mailboxes.NoticeSays` | io/src/client.cpp:178-188 | a notice says which query it is about, readable as JSON, and why it was refused, within 640 bytes of labels |
| `Mailboxes.SignalsAreIsolated` | io/src/client.cpp:210-218 | payload, query and feedback traffic of any length leaves the signal queue as it was |
| `RequestWindow.LastOfLonger` | core/src/application.cpp:1613-1619 | one more recorded ID shifts the window of the last 4096 |
| `RequestWindow.Window.IsRecent` | core/src/application.cpp:1562-1563 | the duplicate check refuses exactly the last 4096 recorded IDs |
| `RequestWindow.Window.Record` | core/src/application.cpp:1613-1619 | set and queue stay the same IDs, without duplicates, and are the last 4096 of the history |
| `ConfigMerge.MergeConfig` | hub/src/config.ts:321-331 | the loop builds the overlay: base keys in their order with overlaid values, then new keys in theirs, for keys that are not integer-like |
| `ConfigOrder.MergeLookup` | hub/src/config.ts:321-331 | key by key and whatever the order: the overlay of both values, or the one that is there |
| `ConfigMerge.DifferencesOf` | hub/src/config.ts:719-730 | the loop collects the members that differ at some depth, and nothing when none does |
| `ConfigMerge.MergeCovers` | hub/src/config.ts:321-331 | overlaying never removes or moves a key of the base |
| `ConfigMerge.MergeIsWellKeyed` | hub/src/config.ts:321-331 | overlaying keeps keys distinct at every depth |
| `ConfigMerge.DifferencesTurn` | hub/src/config.ts:719-730 | at every depth the differences turn the baseline back into the value |
| `ConfigMerge.ReloadsIff` | hub/src/config.ts:719-730 | loading the differences over the defaults gives back the same document, key order included, if and only if it begins with the default keys in their order wherever both are objects |
| `ConfigMerge.MergedReloads` | hub/src/config.ts:719-730 | every configuration made by one overlay survives the round trip |
| `ConfigMerge.TwoOverlaysMayNotReload` | hub/src/config.ts:697 | a file and an override whose merged configuration does not survive it |
| `ConfigMerge.StartupReloadsIff` | hub/src/config.ts:714-739 | the same for the startup document, with any default sections written out whole |
| `ConfigOrder.SettingsReloadIff` | hub/src/config.ts:719-730 | loading the differences over the defaults gives the same settings back, up to key order, if and only if every default key is there wherever both are objects |
| `ConfigOrder.StartupSettingsReloadIff` | hub/src/config.ts:714-739 | the same for the startup document, with any default sections written out whole |
| `ConfigOrder.EqualHasNoDifferences` | hub/src/config.ts:719-730 | what equals its baseline is left out |
| `ConfigOrder.DifferencesAreSmallest` | hub/src/config.ts:719-730 | whatever document makes the configuration of the defaults has every setting that the differences have |
| `ConfigOrder.ReorderingReloads` | hub/src/config.ts:719-730 | a reordered configuration reloads to the same settings |
| `ConfigOrder.TwoOverlaysMayBringKeysBack` | hub/src/config.ts:697 | a file and an override whose merged configuration gets keys back that it does not have |
| `StripComments.StripJsonComments` | hub/src/config.ts:340-381 | the index and flag loop computes the recursive blanking of the text |
| `StripComments.EveryTextReads` | hub/src/config.ts:340-381 | every text is a sequence of plain characters, string literals and comments |
| `StripComments.StripBlanksComments` | hub/src/config.ts:340-381 | whatever such reading: literals and plain text stay, comments become blanks with their line ends |
| `StripComments.OffsetsStay` | hub/src/config.ts:333-338 | every character stays in place or becomes a blank, line ends always stay, and the length changes, by two, only if the text ends inside a block comment |
| `StripComments.StripIsIdempotent` | hub/src/config.ts:340-381 | stripping again changes nothing, for every text |
| `PromptPath.PiecesFindParents` | hub/src/config.ts:444-445 | splitting at runs of separators finds a parent component exactly where there is one |
| `PromptPath.HasParentTraversal` | load/src/configuration.cpp:95-106 | true exactly when some component between separators of either kind is the parent |
| `PromptPath.InstalledFile` | load/src/configuration.cpp:123-143 | accepted are exactly a missing setting, which takes the fallback, and an acceptable text; and the normalized place below the installation |
| `PromptPath.HubAgrees` | hub/src/config.ts:438-450 | the Hub, which leaves a missing field to the worker, passes exactly the settings the worker accepts, and a text unchanged |
| `PromptPath.NormalIsNormal` | load/src/configuration.cpp:142 | a normalized path has no empty or dot name, and parents only at the front of a relative path |
| `PromptPath.AcceptedStaysBelow` | load/src/configuration.cpp:123-143 | for every installation directory an accepted path names the directory's own names followed by the path's |

## Left out

- Model providers, event streams, SSE decoding, example programs, plugin discovery: network, terminal and filesystem plumbing.
- Hub routes, CLI parsing, logging, user interface and deployment files: plumbing.
- Store bodies: SQLite and JSON stores appear only through the contract in `persistence/include/persistence/store.hpp`, as any answer that contract allows.
- Tool execution, hooks and the model call: each is an arbitrary edit of the state or an arbitrary failure at the point where the loop calls it; what a tool does to the world is not modelled.
- `preview`, `bounded_preview`, tool call and tool result projections: bounded diagnostics whose annotations collide with source keys; a history step counts its tool calls only.
- SHA-256 fingerprints and generated identities: given values and fresh numbers; nothing about collisions.
- Enum converters and the wire codecs around the modelled records: one-branch facts.
- Real time and transport delivery: a deadline is a step that may happen at any moment.
- `archive_references` and the retention choice of archives: retention is one store call here.
- `expand`: credential substitution in one pass would only add an easy member.
- ConfirmationOptions: the admitted mode is a value of the run.
- HistoryPaging.ReadHistory: tool call arguments and nested extras are not part of the records; the limit of one to ten turns is the protocol's own check of the request; the exception that serializing malformed UTF-8 raises is not modelled, so what is promised for every history is promised for valid text.
- HistoryBounds.StepBound: assumes identity strings of at most 128 bytes, which the protocol promises but this code does not enforce.
- AnswerPage.WorkerPageIsAccepted: assumes counts that JavaScript represents exactly, a worker identity of 1 to 128 bytes and a hexadecimal digest.
- Compact.ContextBytes: the serialized sizes of tools and turns are given numbers.
- Compact.CompactPrompt: the fresh marker around the memory is an arbitrary text.
- JsonPreviewFacts.RefinesUnlimitedIff: block limits below three bytes are not characterized; the export itself refuses blocks below 64 bytes (`load/src/persistence.cpp:429`).
- JsonPreview.Preview.Write: scalars are given by their printed form, nonempty ASCII.
- Fence.BlockReadsBack: CommonMark's replacement of NUL is not modelled; the language is one line without ticks.
- Worker.Application.Consume: shutdown is observed at the admission test only; its interleavings are in `RunControl.dfy`.
- Worker.Application.Summarize: the private loop run is an arbitrary outcome.
- Mailboxes.NothingIsLost: the counters are unbounded; entries still queued when the client stops are dropped and not accounted for.
- ConfigMerge.MergeConfig: JavaScript lists integer-like keys first and treats the key `__proto__` specially; the ordered form holds of the other keys, the form up to key order does not depend on the order.
- ConfigMerge.ReloadsIff: equal printed JSON is taken as equal trees; `undefined` members, path resolution and validation around the merge are not modelled.
- PromptPath.AcceptedStaysBelow: lexical only, as in the source; a normal form is a list of names, so a trailing separator and the lone dot are not distinguished. Letters are those of the C locale.
