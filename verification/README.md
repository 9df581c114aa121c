# Verification of the notebook kernel, its registry, file system, page collector and prelude

A Dafny 4.11 model of the parts of the repository where many pieces of state must agree, with
proofs of what they promise together. `dafny verify dfyconfig.toml` checks all of it.

## The system

**Cells and calls.** A notebook cell is JavaScript run by an embedded engine. It can trigger
asynchronous calls: each gets an id, a command in a queue, and an entry with its resolve and
reject functions in a map on the JavaScript side. When the cell can go no further it yields the
queued commands as a batch. A loop gives each to a handler and resumes the engine with one
response at a time, until nothing is outstanding. `Engine` is the engine as the host sees it: user code is
an arbitrary deterministic program that answers each entry with a burst of operations (print,
trigger, set or clear a timer, enqueue a job, settle the top-level promise, use fuel) and may throw.
`Session` runs and resumes cells, `AsyncLoop` is the loop. `SessionLaws`, `LoopLaws` and
`LoopTheorems` say what every run keeps and guarantees; `EngineLaws`, `Outcomes`, `LoopTurns` and
`JobOrder` what one operation, one call, one turn and the jobs of a run do, written out against
what user code does; `TopPromise` and `LoopEndings` what the end of a run says about the cell, and
`Leftovers` what one cell leaves for the next. Ids are 32-bit and wrap; where a law needs the
counter not to have wrapped within one cell, it says so, and likewise where it needs ids to
fit the signed integer that `clearTimeout` reads.

**The API registry.** One record per action, registered singly or in a validated batch, and a freeze
flag (`Registry`, `RegistryLaws`, and `RegistryOutcomes` for each operation as a caller sees it).
`Bindings` prints the registered calls as JavaScript source, `BindingsReader` reads such source back,
and `FrozenBindings` joins the two.

**The file system.** `FileTree` is the stored tree and its flat view, a map from path to bytes and a set of
directories. `Opfs` walks and changes the tree through handles, following the WHATWG
File System Standard for `FileSystemDirectoryHandle`, `FileSystemFileHandle` and
`FileSystemWritableFileStream`; each operation is proved to do exactly its flat counterpart.
`FileLaws` holds the laws of the flat operations, `FileOutcomes` when each succeeds and what it leaves.

**The page collector.** `Collector` is the recursive walk that numbers, marks and lists the elements of
a page under a node limit, `CollectorLaws` its meaning for the tree, `Names` the computation of
accessible names.

**The prelude.** `Paths` with `PathLaws`, `Base64` with `Base64Laws`, and `TextCodec` with `TextLaws` are the
hand-written path functions and codecs; `Units`, `Strings` and `Sequences` hold what they share.

## Findings

Where the code and its documentation or names suggest different things, the model follows the code.

Each comes with a theorem that says when, and with one input at which it shows.

- `register_executable_entries_batch` is documented as atomic. It is not when a later action of the
  batch already has a record: `RegistryLaws.BatchIsAtomicExactlyWhen`, `RegistryLaws.BatchStopsHalfway`.
- The metadata-only registrations can let names clash: `RegistryLaws.NamesUniqueExactlyWhen`,
  `RegistryLaws.ManifestPathMissesAliases`.
- A resume reports a finished cell even though its top-level promise is still pending, where a run
  reports an error: `TopPromise.ResumeJudgesLikeRun`, `LoopEndings.FinishedPendingExactlyWhen`,
  `LoopEndings.FinishedWhileStillPending`.
- An abort is documented to unwind the cell cleanly; it can leave the run pending, with calls that
  nobody dispatches: `LoopEndings.AbortedPendingExactlyWhen`, `LoopEndings.AbortedWhileStillPending`.
- The loop reports only its last resume, so a good end can hide a resume that ran out of fuel:
  `LoopEndings.LastResumeDecides`, `LoopEndings.ExhaustedResumeHidden`; `LoopEndings.HiddenFailures`
  lists what else it can hide.
- Cells are not isolated: jobs that a cell leaves for want of fuel run in the next one and print there:
  `Leftovers.RunLeavesJobsExactlyWhen`, `Leftovers.ResumeLeavesJobsExactlyWhen`,
  `Leftovers.LeftoverPrintsInNextCell`.
- Clearing a timer whose command was handed out makes the later resume fail:
  `LoopTheorems.MissingEntryMeansCleared`, `LoopEndings.ClearedTimerFailsCell`.
- Renaming a path to itself deletes the file: `FileLaws.RenameMovesUnlessSame`, `FileLaws.RenameOntoItself`.
- A range read truncates its offset and wraps its end: `FileLaws.RangeExactlyWhen`,
  `FileLaws.LargeLengthTraps`, `FileLaws.FarOffsetReadsStart`.
- The prelude's `TextEncoder` encodes surrogates one by one, and `TextDecoder` drops four-byte
  characters: `TextLaws.EncodeIsUtf8`, `TextLaws.EncodeDecode`, `TextLaws.EmojiIsLost`.
- `resolve(from, relative(from, to))` needs both paths absolute or neither:
  `Paths.ResolveRelative`, `Paths.ResolveRelativeAnchors`.
- The interactive-only collection enters drawings whose children the full collection skips:
  `CollectorLaws.InteractiveOnlyVersusFull`, `CollectorLaws.LinkInsideDrawing`.
- The comment above `compute_name` puts the text content before the value of a button; the code asks
  for the value first: `Names.DocumentedOrderDiffers`, `Names.ValueBeforeText`.

## Model

| member | source | states |
|---|---|---|
| LoopTheorems.DispatchOrder | crates/web-js-base/src/session.rs:162-293 | In every run, whatever is cleared, thrown, aborted or out of fuel: the commands given to the handler are an initial segment, in trigger order, of those triggered and not cancelled while queued; their ids strictly increase and none is dispatched twice |
| LoopTheorems.Conservation | crates/web-js-base/src/session.rs:138-293 | Between any two resumes of any run, those of an abort included, the keys of `__webJsPending` are exactly: the queued ids, the handed-out ids not yet resumed unless a clear removed them, and the ids whose resume failed without a clear |
| LoopTheorems.CleanConservation | crates/web-js-base/src/session.rs:138-293 | With no failed resume and no cleared command outstanding, aborted or not, the keys are the disjoint union of queued ids, ids yielded meanwhile, and ids not yet resumed |
| LoopTheorems.DeliveredToItsTrigger | crates/web-js-base/src/session.rs:138-278 | The j-th resume is for the j-th command handed out, carries what the look at the abort flag before it decided, and, unless a clear removed its entry, calls the resolve function that its own trigger stored with the response's value, or null, or the reject function with the response's error, or `E_UNKNOWN`, in an entry into the engine that no other resume shares |
| LoopTurns.EveryAnswer | crates/web-js-base/src/session.rs:173-278 | In every run the j-th resume carries ok=false, `E_ABORTED`, `Runner aborted` if the abort flag was set at the look just before it, and otherwise the answer of its own handler call, an error of the handler as ok=false with that error; each resume of a dispatched command has a look of its own, and those of an aborted batch come last and share the look that ended the loop |
| LoopTurns.TurnMeaning | crates/web-js-base/src/session.rs:104-293 | One turn by its traces: an empty batch is the stuck error; a flag set at the head resumes the batch with the abort error and ends the loop without dispatching it; otherwise the batch is dispatched and resumed, one look and one answer each, and the result is that of the last resume, or pending with everything yielded if that is no error and something was |
| LoopTheorems.ClearedInQueueNeverRuns | crates/web-js-core/src/globals.rs:285-309 | A timer that an executed `clearTimeout` met in the queue is in no batch given to the handler and in no resume of the whole run |
| LoopTheorems.RunIsReplayed | crates/web-js-core/src/globals.rs:15-391 | At every point of every run, output, ids, commands, entries, cancelled and cleared ids are exactly what the operations executed since the cell started amount to |
| JobOrder.JobsRunInOrder | crates/web-js-core/src/error/classify.rs:40-63 | Over every run the jobs run since the cell started, followed by those waiting, are those an earlier cell left followed by those enqueued, in order: none is lost, repeated or overtaken |
| JobOrder.EvaluatesFirst | crates/web-js-base/src/session.rs:87-103 | The loop evaluates the code it was given, with its input, before anything else; before the first turn its result is that of this run |
| LoopTheorems.MissingEntryMeansCleared | crates/web-js-core/src/async_resume.rs:30-38 | A resume fails for want of an entry if and only if user code cleared that id after it was handed out |
| LoopTheorems.NeverEarly | crates/web-js-core/src/session.rs:598-668 | A resume, served or aborted, that reports success or a top-level rejection leaves nothing queued, no job, and outstanding ids only if user code cleared them; in a clean run it is the last of its batch |
| LoopTheorems.StuckExactlyAfterFault | crates/web-js-base/src/session.rs:104-130 | When a batch ends without error and with nothing new, the loop is stuck pending if and only if some failed resume left its entry behind |
| LoopTheorems.FirstBatchNotEmpty | crates/web-js-core/src/session.rs:420-462 | A run that yields hands out at least one command, so the stuck branch cannot be the first turn |
| LoopTheorems.NeverStuck | crates/web-js-base/src/session.rs:104-130 | While no resume has failed, a pending result at the head of the loop carries at least one command |
| LoopEndings.AbortSkipsHandler | crates/web-js-base/src/session.rs:141-153 | When an abort ends a run, every command given to the handler has been resumed, and the batch that was next is resumed with the abort error and never given to it |
| LoopEndings.AbortedPendingExactlyWhen | crates/web-js-base/src/session.rs:84-153 | An aborted run that ends without error is pending, not finished, if and only if user code left uncleared a call that the abort resumes yielded or whose own resume failed |
| LoopEndings.AbortedWhileStillPending | crates/web-js-base/src/session.rs:84-153 | One such cell: it answers the abort error with another call |
| LoopEndings.EndDropsYielded | crates/web-js-base/src/session.rs:141-293 | What a batch yields while it is resumed with the abort error, or before its last resume fails, is never dispatched by any later turn |
| LoopTheorems.Completion | crates/web-js-base/src/session.rs:104-300 | A run that ends well without an abort has dispatched once and resumed once, in order, exactly the commands triggered and not cancelled, and leaves no entry |
| LoopTheorems.StoppedWithoutAbort | crates/web-js-base/src/session.rs:104-154 | The loop returns early only after an abort or on an empty batch |
| LoopTheorems.TurnsNeedTriggers | crates/web-js-base/src/session.rs:104-296 | A run not over after n turns has resumed at least n commands and triggered at least as many; it goes on only while user code triggers |
| LoopTheorems.OutputIsComplete | crates/web-js-base/src/session.rs:157-293 | The stdout of the run and of every resume, both abort paths included, is a chain of prefixes ending in everything printed since the cell started, and the loop's result carries all of it |
| TopPromise.ResumeJudgesLikeRun | crates/web-js-core/src/session.rs:464-668 | With nothing outstanding, a resume reports what a run reports if and only if the top value is not a pending promise; then the run reports an error and the resume success |
| TopPromise.TurnsFollow | crates/web-js-core/src/session.rs:533-699 | Over every run the top value is what the attempts to settle it made of it, a good result never hides a rejected promise, and a reported rejection is one |
| LoopEndings.FinishedPendingExactlyWhen | crates/web-js-core/src/session.rs:615-688 | A run that ends well leaves the top promise pending if and only if the first evaluation did and no attempt to settle it was made since; it never leaves it rejected |
| LoopEndings.FinishedWhileStillPending | crates/web-js-core/src/session.rs:634-688 | One such cell: the loop reports success while its promise is pending |
| LoopEndings.LastResumeDecides | crates/web-js-base/src/session.rs:240-293 | The loop reports the failure of a resume if and only if it is the last one; so a run without error has had no failed resume if and only if none before the last one failed |
| LoopEndings.HiddenFailures | crates/web-js-base/src/session.rs:173-293 | Each failed resume that a good end hides is a drain out of fuel or over its job limit, or one whose entry user code cleared |
| LoopEndings.ExhaustedResumeHidden | crates/web-js-base/src/session.rs:240-293 | One such run: the first of two resumes runs out of fuel and the loop reports success |
| LoopEndings.ClearedTimerFailsCell | crates/web-js-core/src/globals.rs:285-309 | One cell that clears a timer already handed out, whose later resume fails the cell |
| LoopLaws.DeliverKeepsBetween | crates/web-js-core/src/session.rs:533-699 | One resume keeps the loop invariant and moves exactly one command from outstanding to delivered, appending what it yields |
| LoopLaws.ServeKeepsBetween | crates/web-js-base/src/session.rs:173-293 | A whole batch of serial resumes keeps the invariant, delivers the batch in order and accumulates everything yielded meanwhile |
| LoopLaws.AbortAllKeepsBetween | crates/web-js-base/src/session.rs:141-153 | Resuming a batch with the abort error delivers each command once and keeps ids, entries and output accounted for |
| LoopLaws.TurnsKeepLoopInv | crates/web-js-base/src/session.rs:104-296 | Every turn of the loop keeps the invariant tying its variables to the session |
| AsyncLoop.Runner.Resume | crates/web-js-base/src/session.rs:240-242 | One resume of the session is one delivery |
| AsyncLoop.Runner.ResumeAborted | crates/web-js-base/src/session.rs:141-153 | The abort loop computes the abort step function |
| AsyncLoop.Runner.ServeBatch | crates/web-js-base/src/session.rs:173-278 | The serial resume loop, with its abort check before each resume, computes the serving function |
| AsyncLoop.Runner.ServeAndForce | crates/web-js-base/src/session.rs:162-293 | Dispatching, serving and forcing a pending result together are one turn |
| AsyncLoop.Runner.RunBatch | crates/web-js-base/src/session.rs:104-293 | One pass of the while loop: stuck, aborted or served |
| AsyncLoop.Runner.RunCellAsyncLoop | crates/web-js-base/src/session.rs:87-300 | The whole loop is the start state followed by turns, cut after a given number of batches |
| SessionLaws.EngineInvariant | crates/web-js-core/src/globals.rs:92-391 | Over every legal sequence of session calls, until the counter wraps: queued ids increase and each has an entry, keys lie between 1 and the counter, the next id is fresh, and every id up to the counter is handed out, queued or cancelled, never two of these |
| SessionLaws.CallsKeepInv | crates/web-js-core/src/session.rs:259-699 | Run, resume, reset, immediate reset and fuel-limit changes, in any order, keep the invariant |
| SessionLaws.RunKeepsInv | crates/web-js-core/src/session.rs:305-530 | A run re-establishes the invariant from any state, and a run that finishes leaves an empty queue, no jobs, fuel, and no pending or rejected top promise |
| SessionLaws.ResumeKeepsInv | crates/web-js-core/src/session.rs:533-699 | A resume keeps the invariant, deletes exactly its own entry unless it failed, only extends output and triggers, fails for exactly the stated reasons, and otherwise calls resolve with the value, or null, or reject with the code and message of the error, or `E_UNKNOWN` |
| SessionLaws.DrainContract | crates/web-js-core/src/error/classify.rs:40-63 | Draining succeeds if and only if fewer jobs than the limit were left to run and fuel remains after them; the machine is then the one after those jobs |
| Outcomes.DrainOutcome | crates/web-js-core/src/error/classify.rs:40-63 | A drain reports exhausted fuel if and only if none is left after the jobs there is room for, the job limit if and only if fuel but also a job is left then, and otherwise succeeds |
| Outcomes.RunOutcome | crates/web-js-core/src/session.rs:305-524 | A run starts afresh and reports an exception if and only if the evaluation threw, exhausted fuel if it was interrupted; otherwise it is finished, pending with the queue, rejected, still pending or out of a limit, each if and only if the fuel, jobs, queue and top value after the jobs say so |
| Outcomes.ResumeRefused | crates/web-js-core/src/async_resume.rs:23-57 | A response that cannot be read changes nothing; a missing entry, or one that cannot be called, is reported if and only if it is so, changes nothing but the fuel and asks for a reset |
| Outcomes.ResumeOutcome | crates/web-js-core/src/session.rs:533-699 | Any other resume starts on full fuel and calls the stored function with the response; it reports a throw or an interrupt of that call if and only if it happened, keeping the entry and asking for a reset, and otherwise deletes the entry and reports, each case if and only if, what the machine after the jobs says |
| Session.DrainLeavesNothing | crates/web-js-core/src/error/classify.rs:40-63 | A successful drain leaves an empty job queue and fuel |
| Session.SettleAfterDrain | crates/web-js-core/src/session.rs:395-450 | After a successful drain the settle loop of a run turns at most once and runs no job, and the second drain of a resume does nothing |
| TopPromise.ResumeWithoutFuel | crates/web-js-core/src/session.rs:615-688 | Should no fuel be left when a resume reaches its last check, it reports that, unless the top promise is rejected |
| Leftovers.DrainLeavesJobsExactlyWhen | crates/web-js-core/src/error/classify.rs:40-63 | A drain leaves jobs if and only if some job within the limit is the last for want of fuel or by the limit, and more wait after it |
| Leftovers.RunLeavesJobsExactlyWhen | crates/web-js-core/src/session.rs:305-392 | A run leaves jobs for the next cell if and only if its evaluation failed with jobs waiting or its drain was cut short |
| Leftovers.ResumeLeavesJobsExactlyWhen | crates/web-js-core/src/session.rs:569-596 | A resume leaves jobs for the next cell if and only if no reset is due and its drain was cut short |
| Leftovers.LeftoversMeanLimits | crates/web-js-core/src/session.rs:361-392 | Jobs are left only by a run that reports a thrown exception, empty fuel or the job limit, or by a resume that reports one of the last two |
| Leftovers.LeftoverPrintsInNextCell | crates/web-js-core/src/session.rs:305-392 | Two cells at fuel 1: the first runs out of fuel, the second prints nothing itself and ends well with output of the first |
| Engine.StepKeepsInv | crates/web-js-core/src/globals.rs:15-391 | Every host function keeps ids ordered, entries and queue in step, and cleared and deleted ids accounted for |
| Engine.ActivateKeepsInv | crates/web-js-core/src/session.rs:329-341 | Every entry into the engine keeps the invariant, wherever the fuel stops it |
| EngineLaws.ActivateMeaning | crates/web-js-core/src/session.rs:329-341 | An entry executes the operations of user code in order, one unit of fuel for each poll; it is interrupted if and only if a poll meets empty fuel, and otherwise throws if and only if user code does |
| EngineLaws.ClearTimerRemoves | crates/web-js-core/src/globals.rs:285-309 | After a clear no queued command has the id read as unsigned and no entry the id as signed; all other commands and entries stay, in order, and nothing else changes |
| EngineLaws.IntervalGoesOn | crates/web-js-core/src/globals.rs:338-355 | A tick that returns has run the callback and then, last, triggered a sleep of the same length whose entry ticks again; a tick that throws triggers nothing more |
| EngineLaws.IgnoredRejection | crates/web-js-core/src/globals.rs:356-359 | The function that takes a rejected timer does nothing |
| Engine.QueueAfterDrained | crates/web-js-core/src/globals.rs:129-152 | What is queued comes after what was handed out; the two are disjoint from each other and from what was cancelled, and with it make up all ids |
| Session.JsSession.Push | crates/web-js-core/src/globals.rs:129-152 | Takes the next 32-bit id, queues the command and stores its entry |
| Session.JsSession.SetTimeout | crates/web-js-core/src/globals.rs:230-283 | Queues a sleep with the duration, or zero if that is negative, under the new id, with an entry that calls the callback; a missing callback changes nothing and gives no id |
| Session.JsSession.SetInterval | crates/web-js-core/src/globals.rs:311-365 | As `setTimeout`, with an entry whose callback ticks again |
| Session.JsSession.ClearTimer | crates/web-js-core/src/globals.rs:285-309 | Removes the entry under the signed id and the queued command under its unsigned reading, and nothing else |
| Session.JsSession.Perform | crates/web-js-core/src/globals.rs:15-391 | Each host-visible operation does exactly its step, and stops only at empty fuel |
| Session.JsSession.Enter | crates/web-js-core/src/session.rs:329-341 | Running a burst under the interrupt handler is the activation of the machine |
| Session.JsSession.DrainPendingJobs | crates/web-js-core/src/error/classify.rs:40-63 | The counting loop computes the drain function, error included |
| Session.JsSession.ExecutePendingJob | crates/web-js-core/src/error/classify.rs:46 | Runs the oldest job, or reports that there is none |
| Session.JsSession.ResumeAsyncPending | crates/web-js-core/src/async_resume.rs:23-143 | Looks the entry up, calls resolve or reject once, and deletes the entry only when that returned; what it is called with is part of `ResumeKeepsInv` and `DeliveredToItsTrigger` |
| Session.JsSession.TakePending | crates/web-js-core/src/session.rs:599-603 | Empties the queue and hands out all of it |
| Session.JsSession.ResumeTopPromise | crates/web-js-core/src/session.rs:615-688 | The top-promise check of a resume |
| Session.JsSession.ResumeInContext | crates/web-js-core/src/session.rs:569-689 | The part of a resume inside the engine, proved to end as soon as its first drain has succeeded |
| Session.JsSession.Resume | crates/web-js-core/src/session.rs:533-699 | A resume refuels, resumes, and asks for a reset exactly when the resume itself failed; a response that does not parse changes nothing |
| Session.JsSession.Reset | crates/web-js-core/src/session.rs:259-261 | Only marks the session for a reset at its next run |
| Session.JsSession.PerformReset | crates/web-js-core/src/session.rs:268-288 | Everything but the fuel limit starts afresh |
| Session.JsSession.BeginCell | crates/web-js-core/src/session.rs:306-350 | A new cell starts with empty output, queue, entries and counter and full fuel; jobs left by an earlier cell survive unless a reset was due |
| Session.JsSession.SettleTopPromise | crates/web-js-core/src/session.rs:395-450 | The settle loop computes the settle function, turn by turn |
| Session.JsSession.ConcludeRun | crates/web-js-core/src/session.rs:452-523 | A run ends by handing out the queue, else by fuel, else by a promise still pending, else well |
| Session.JsSession.RunInContext | crates/web-js-core/src/session.rs:345-524 | Evaluation, drain and settling together |
| Session.JsSession.Run | crates/web-js-core/src/session.rs:305-530 | A whole run of a cell |
| RegistryLaws.BatchEqualsSequence | crates/web-js-core/src/api_docs.rs:472-575 | For an unfrozen registry and new actions: the batch succeeds if and only if registering its entries one by one, in any order, succeeds; both give the same registry, and a failed batch changes nothing |
| RegistryLaws.BatchIsAtomicExactlyWhen | crates/web-js-core/src/api_docs.rs:479-508 | For any batch: it succeeds if and only if it validates and meets no taken action; a failed batch left the registry unchanged if and only if it did not validate or its first entry was taken, otherwise the entries before the taken one stay |
| RegistryLaws.BatchStopsHalfway | crates/web-js-core/src/api_docs.rs:484-508 | One such batch: its second action has a handler, and its first entry stays |
| RegistryLaws.EachMeansAdmissible | crates/web-js-core/src/api_docs.rs:541-575 | Registering new actions one by one succeeds if and only if all actions and names of the list are distinct and the names free in the original registry |
| RegistryLaws.BatchMeansAdmissible | crates/web-js-core/src/api_docs.rs:436-469 | Validating against the original registry plus the batch accepts exactly the same lists |
| RegistryLaws.AdmissiblePermuted | crates/web-js-core/src/api_docs.rs:436-469 | Whether a list can be registered does not depend on its order |
| Registry.ValidateNamesMeaning | crates/web-js-core/src/api_docs.rs:402-434 | Name validation accepts an entry if and only if its public name and aliases are distinct from each other and from every name in the registry |
| RegistryLaws.NamesStayUnique | crates/web-js-core/src/api_docs.rs:386-592 | In every registry built by executable registrations, handler registrations, removals, clears and freezes, no name belongs to two entries or twice to one, and each record is stored under its entry's action |
| RegistryLaws.StepKeepsNamesExactly | crates/web-js-core/src/api_docs.rs:755-811 | One operation of any kind keeps names unique if and only if, should it insert metadata only, the entry has an action and its names are distinct and free among the other records |
| RegistryLaws.NamesUniqueExactlyWhen | crates/web-js-core/src/api_docs.rs:386-890 | Over any sequence of all operations, names are unique at every point if and only if each metadata-only registration met that condition at its turn |
| RegistryLaws.ManifestPathMissesAliases | crates/web-js-core/src/api_docs.rs:779-811 | One pair of metadata-only registrations whose names clash through an alias |
| RegistryLaws.FrozenMeansExecutable | crates/web-js-core/src/api_docs.rs:630-890 | Over every sequence of registry operations, while the registry is frozen each entry that is not Sync has a handler, found by dispatching its action |
| RegistryOutcomes.RegisterEntryOutcome | crates/web-js-core/src/api_docs.rs:402-575 | One executable entry: each error if and only if its cause holds, success if and only if not frozen, action set and free, own names distinct and none of them the public name or dotted alias of a registered entry; then exactly that record is new |
| RegistryOutcomes.BatchOutcome | crates/web-js-core/src/api_docs.rs:436-509 | A batch goes through if and only if every entry is in order on its own, actions differ, no two entries share a name, and no name is taken in the registry as it was; it then adds one record for each entry |
| RegistryOutcomes.FreezeOutcome | crates/web-js-core/src/api_docs.rs:854-880 | The freeze succeeds if and only if every entry that is not Sync has a handler; it keeps the table, and afterwards no registration of any kind changes anything; a refused freeze changes nothing |
| Registry.ApiRegistry.CheckInternalAliases | crates/web-js-core/src/api_docs.rs:402-414 | The alias loop reports the first repeated name |
| Registry.ApiRegistry.CheckManifestNames | crates/web-js-core/src/api_docs.rs:416-434 | The name check reports the first clash, public name before aliases |
| Registry.ApiRegistry.ClaimNames | crates/web-js-core/src/api_docs.rs:454-464 | Claiming the names of one batch entry reports the first one already claimed |
| Registry.ApiRegistry.CheckBatch | crates/web-js-core/src/api_docs.rs:436-469 | The validation loop over a batch computes the first refusal |
| Registry.ApiRegistry.RegisterExecutableEntriesBatch | crates/web-js-core/src/api_docs.rs:472-509 | Validate, then commit until the first taken action |
| Registry.ApiRegistry.RegisterExecutableEntry | crates/web-js-core/src/api_docs.rs:541-575 | One entry: frozen, action, conflict and name checks in order, then exactly one new record; a refusal changes nothing |
| Registry.ApiRegistry.RegisterHandlerFor | crates/web-js-core/src/api_docs.rs:579-592 | Adds the handler if and only if not frozen and the record has none, keeping its manifest and every other record |
| Registry.ApiRegistry.Register | crates/web-js-core/src/api_docs.rs:755-776 | Metadata only, ignored when frozen or when namespace and name are known |
| Registry.ApiRegistry.RegisterManifestEntry | crates/web-js-core/src/api_docs.rs:779-811 | Metadata only, refused for a taken action or public name |
| Registry.ApiRegistry.FreezeManifest | crates/web-js-core/src/api_docs.rs:854-880 | Freezes if and only if no entry other than Sync lacks a handler |
| Registry.ApiRegistry.RemoveManifestEntry | crates/web-js-core/src/api_docs.rs:834-841 | Removes the record whole, handler included, and says whether it had a manifest |
| Registry.ApiRegistry.ClearHandlers | crates/web-js-core/src/api_docs.rs:746-751 | Drops every record that has a handler, manifest and all |
| Registry.ApiRegistry.ClearManifestEntries | crates/web-js-core/src/api_docs.rs:845-848 | Empties the registry and unfreezes it |
| Registry.ApiRegistry.UnfreezeManifest | crates/web-js-core/src/api_docs.rs:883-885 | Only unfreezes |
| Bindings.SixPassesAreOne | crates/web-js-core/src/api_docs.rs:1015-1022 | The six replace passes equal one left-to-right pass, for every string |
| Bindings.EscapeRoundTrip | crates/web-js-core/src/api_docs.rs:1015-1022 | Reading the escaped text as a double-quoted literal (section 12.9.4 of ECMA-262) gives back the input and stops at its closing quote, for every string |
| Bindings.NoScriptEnd | crates/web-js-core/src/api_docs.rs:1021 | The escaped text nowhere contains the end tag of a script |
| Bindings.EscapedIsOneLine | crates/web-js-core/src/api_docs.rs:1015-1022 | The escaped text has no line break, carriage return or tab |
| Bindings.PushEntry | crates/web-js-core/src/api_docs.rs:1064-1137 | One entry is printed with its aliases in order |
| Bindings.GenerateJsBindingsCode | crates/web-js-core/src/api_docs.rs:1044-1148 | The printer prints exactly the bindings of the async entries that have an action and a handler |
| BindingsReader.LexScript | crates/web-js-core/src/api_docs.rs:1096-1148 | The printed text splits into exactly the tokens of its array of specs |
| BindingsReader.ScriptRoundTrip | crates/web-js-core/src/api_docs.rs:1044-1148 | Reading the printed script gives back every binding, in order, for every list of bindings |
| FrozenBindings.FrozenScriptBindsEverything | crates/web-js-core/src/api_docs.rs:1044-1148 | For every registry that any sequence of operations left frozen, the script reads back as all async entries with an action, each followed by its aliases |
| FrozenBindings.ScriptBindsExactly | crates/web-js-core/src/api_docs.rs:1044-1148 | For any registry, frozen or not, the script reads back to a binding if and only if it is that of some listed async entry with a handler for its action, or of one of its aliases, without fields where the action is native; entries are bound in the order listed |
| Opfs.PathParts | crates/web-fs/src/path_util.rs:7-48 | Accepts exactly the non-empty paths without `..`, read from the root, and returns the pieces that name something |
| FileLaws.PathRoundTrip | crates/web-fs/src/path_util.rs:7-48 | Every list of valid names can be written as a path and read back, and an accepted path names only valid names |
| FileOutcomes.PathRefused | crates/web-fs/src/path_util.rs:7-48 | A path is refused if and only if it is empty or one of its pieces is `..` |
| FileOutcomes.PieceByPiece | crates/web-fs/src/path_util.rs:20-45 | Every piece but the empty one and `.` is a name, wherever it stands |
| Opfs.FileSystem.GetDirectoryHandle | crates/web-fs/src/opfs.rs:74-82 | The directory-handle primitive on the tree does its flat counterpart, type mismatch and missing entry included |
| Opfs.FileSystem.GetFileHandle | crates/web-fs/src/opfs.rs:114-121 | The file-handle primitive, likewise |
| Opfs.FileSystem.GetFile | crates/web-fs/src/opfs.rs:331-344 | The bytes the flat view has for a file |
| Opfs.FileSystem.RemoveEntry | crates/web-fs/src/opfs.rs:300-305 | Recursive removal takes away exactly the paths at and below the entry |
| Opfs.FileSystem.WriteToHandle | crates/web-fs/src/opfs.rs:169-211 | Truncating write, or write at an offset that keeps the other bytes and fills a gap with zeros |
| Opfs.FileSystem.ResolveDir | crates/web-fs/src/opfs.rs:55-68 | The walk finds a directory if and only if the flat view has one there, and otherwise says which of missing and mismatch it is |
| Opfs.FileSystem.ResolveDirCreate | crates/web-fs/src/opfs.rs:70-85 | Creating directories one by one is all or nothing: it adds every directory down to the path, or fails and changes nothing |
| Opfs.FileSystem.ResolveFile | crates/web-fs/src/opfs.rs:87-122 | Finds a file if and only if the flat view has one there |
| Opfs.FileSystem.ResolveFileCreate | crates/web-fs/src/opfs.rs:124-157 | Adds the directories above and an empty file, or fails and changes nothing |
| Opfs.FileSystem.Stat | crates/web-fs/src/opfs.rs:219-253 | File first, then directory, then the reason there is neither |
| Opfs.FileSystem.Mkdir | crates/web-fs/src/opfs.rs:293-295 | Exactly the flat operation |
| Opfs.FileSystem.Delete | crates/web-fs/src/opfs.rs:297-307 | Exactly the flat operation; the root is refused |
| Opfs.FileSystem.Read | crates/web-fs/src/opfs.rs:329-345 | Exactly the flat operation, changing nothing; above 2^31-1 bytes the buffer cannot be allocated and it panics |
| Opfs.FileSystem.ReadRange | crates/web-fs/src/opfs.rs:367-379 | The read, then the slice that 32-bit index arithmetic selects, panics of both included |
| Opfs.FileSystem.Write | crates/web-fs/src/opfs.rs:381-384 | Exactly the flat operation |
| Opfs.FileSystem.Append | crates/web-fs/src/opfs.rs:397-406 | Exactly the flat operation; the file is created only when nothing is there |
| Opfs.FileSystem.Update | crates/web-fs/src/opfs.rs:419-426 | Exactly the flat operation |
| Opfs.FileSystem.Copy | crates/web-fs/src/opfs.rs:309-316 | Exactly the flat operation, the source being read before the target is looked at |
| Opfs.FileSystem.Rename | crates/web-fs/src/opfs.rs:318-327 | Exactly the flat operation |
| FileLaws.OpIsLocal | crates/web-fs/src/opfs.rs:293-426 | A failed operation changes nothing at all, and a successful one changes no file it does not name as written or delete |
| FileLaws.UntouchedFilesSurvive | crates/web-fs/src/opfs.rs:293-426 | Over any sequence of operations a file that none of them touches keeps its bytes |
| FileLaws.OpKeepsTreeLike | crates/web-fs/src/opfs.rs:293-426 | Every operation leaves a proper tree: whatever is above an existing path is a directory, and no path is both file and directory |
| FileOutcomes.WriteOutcome | crates/web-fs/src/opfs.rs:381-384 | A write fails if and only if the path is none, a directory stands there or a file above; it makes the directories above, replaces the bytes, and leaves every other path alone |
| FileOutcomes.AppendOutcome | crates/web-fs/src/opfs.rs:397-406 | An append fails under exactly the same conditions and leaves the old bytes, or none, followed by the new ones |
| FileOutcomes.UpdateOutcome | crates/web-fs/src/opfs.rs:419-426 | An update succeeds if and only if a file is there, with the exact error otherwise, and makes no file or directory |
| FileOutcomes.MkdirOutcome | crates/web-fs/src/opfs.rs:293-295 | A directory is made with all above it if and only if no file stands at or above it; no file changes |
| FileOutcomes.DeleteOutcome | crates/web-fs/src/opfs.rs:297-307 | A delete takes away the entry and all below it and nothing else; it fails if and only if nothing is there or it is the root, with the exact error |
| FileOutcomes.ReadOutcome | crates/web-fs/src/opfs.rs:219-345 | Reading and the kind of a path, value or error, each if and only if the flat view says so |
| FileOutcomes.CopyOutcome | crates/web-fs/src/opfs.rs:309-316 | A copy succeeds if and only if the source can be read and the target written; the target then has the source's bytes and the source its own; a bad source decides the error |
| FileOutcomes.RenameOutcome | crates/web-fs/src/opfs.rs:318-327 | A rename reports exactly what the copy would |
| FileLaws.AppendThenRead | crates/web-fs/src/opfs.rs:397-406 | Append then read gives the old bytes, or none, followed by the new ones, or panics if they are more than a buffer can hold |
| FileLaws.WriteAtMeaning | crates/web-fs/src/opfs.rs:169-211 | A write at an offset places the data there, zero-fills a gap and keeps all other bytes |
| FileLaws.UpdateThenReadRange | crates/web-fs/src/opfs.rs:329-426 | Reading a range back after an update at the same offset gives the written bytes if and only if the file is then at most 2^31-1 bytes long; otherwise the read panics |
| FileLaws.RangeExactlyWhen | crates/web-fs/src/opfs.rs:367-379 | For every readable file, any 64-bit offset and any 32-bit length, the slice is the one asked for if and only if the truncated offset is beyond the end, or nothing is truncated and the end does not wrap, or a truncated offset comes with length zero |
| FileLaws.RangeTrapsExactlyWhen | crates/web-fs/src/opfs.rs:367-379 | The slice panics if and only if its truncated start lies in the file and its end wraps; without a wrap it is the range from the truncated start |
| FileLaws.LargeLengthTraps | crates/web-fs/src/opfs.rs:377-378 | From offset 1 a length of 2^32-1 panics, however small the file |
| FileLaws.FarOffsetReadsStart | crates/web-fs/src/opfs.rs:373 | An offset of 4 GiB returns the first byte where nothing was asked for |
| FileLaws.RenameMovesUnlessSame | crates/web-fs/src/opfs.rs:318-327 | A rename of a readable file to a writable path moves the bytes and touches no other file if and only if the paths differ; onto itself it deletes the file |
| FileLaws.RenameOntoItself | crates/web-fs/src/opfs.rs:318-327 | One such rename: `/a` to `a` leaves no file |
| FileLaws.FailedRenameChangesNothing | crates/web-fs/src/opfs.rs:318-327 | A rename that fails at any of its three steps leaves everything as it was |
| CollectorLaws.CollectedExactly | crates/dom-semantic-tree/src/collect.rs:125-488 | An element is collected if and only if it is kept and every element above it lets the walk through; its path prefix is the one spelled on the way down |
| CollectorLaws.CollectedWhen | crates/dom-semantic-tree/src/collect.rs:125-488 | The same with every rule written out: tags, the five ways to be hidden, size, the ways to be actionable, empty containers, pictures |
| CollectorLaws.NodeOfElement | crates/dom-semantic-tree/src/collect.rs:431-466 | Each field of each node is that of its own element |
| CollectorLaws.InViewportMeansOverlap | crates/dom-semantic-tree/src/visibility.rs:23-29 | A rectangle with an area is in the viewport if and only if the two have a place in common |
| CollectorLaws.DocumentOrder | crates/dom-semantic-tree/src/collect.rs:492-514 | Nodes come in document order, so no element is collected twice |
| CollectorLaws.TruncationIsPrefix | crates/dom-semantic-tree/src/collect.rs:137-139 | With `max_nodes` = k the collection is the first k nodes of the unlimited one with the same refs `e1`, `e2`, ..., and its outline a prefix of the full outline |
| CollectorLaws.OutlineListsHeadings | crates/dom-semantic-tree/src/collect.rs:441-447 | The outline has exactly one entry for each heading node, in node order, with its ref and name |
| CollectorLaws.OutlineOnlyWithHeadings | crates/dom-semantic-tree/src/collect.rs:108-121 | A snapshot has an outline if and only if some node is a heading |
| CollectorLaws.NothingHidden | crates/dom-semantic-tree/src/collect.rs:143-185 | Without `include_hidden`, no collected element and nothing above it is hidden; nothing collected lies at or below an excluded tag |
| CollectorLaws.VisibleMeansOwn | crates/dom-semantic-tree/src/collect.rs:230-234 | A node is marked visible if and only if its own element is not hidden, whatever lies above it |
| CollectorLaws.PathsSpellTags | crates/dom-semantic-tree/src/collect.rs:236-249 | Each node's path is the tags from the root to its element joined by slashes, skipped containers included |
| CollectorLaws.RefFindsItsElement | crates/dom-semantic-tree/src/collect.rs:437-438 | An element carries the ref of node i if and only if node i was made for it |
| CollectorLaws.InteractiveOnlyVersusFull | crates/dom-semantic-tree/src/collect.rs:236-488 | The interactive-only collection holds every interactive element of the full one, and each element it holds is in the full one if and only if it is not inside a plain drawing |
| CollectorLaws.LinkInsideDrawing | crates/dom-semantic-tree/src/collect.rs:469-471 | A concrete tree with a link that only the interactive-only collection finds |
| Collector.RefAllocator.Allocate | crates/dom-semantic-tree/src/refs.rs:12-16 | Refs count up from `e1` |
| Collector.Collector.Keep | crates/dom-semantic-tree/src/collect.rs:431-466 | Numbers, marks and records one element, and adds it to the outline if it is a heading |
| Collector.Collector.Traverse | crates/dom-semantic-tree/src/collect.rs:125-488 | The mutating walk below an element appends the unlimited preorder list of that subtree, cut where the limit falls |
| Collector.Collector.RecurseChildren | crates/dom-semantic-tree/src/collect.rs:492-514 | The child loop appends the walks of the children in order, cut at the limit |
| Collector.CollectElement | crates/dom-semantic-tree/src/collect.rs:69-122 | The snapshot is the first `max_nodes` visits of the whole walk, and the marks are theirs |
| Names.Normalize | crates/dom-semantic-tree/src/name.rs:109-128 | The character loop returns the words of the text with single spaces between them |
| Names.NormalizeKeepsWords | crates/dom-semantic-tree/src/name.rs:109-128 | Collapsing white space keeps the words, is idempotent, and is empty only for a text without words |
| Names.WordsAtSpace | crates/dom-semantic-tree/src/name.rs:109-128 | White space separates words and leaves no other trace |
| Names.LimitLength | crates/dom-semantic-tree/src/name.rs:130-140 | The byte-boundary loop returns the text, or its longest fitting prefix and an ellipsis |
| Names.LimitBounds | crates/dom-semantic-tree/src/name.rs:130-140 | A name of at most the limit stays; a longer one keeps a prefix that no further character would fit, and is exactly the three ellipsis bytes longer |
| Names.LimitIdempotent | crates/dom-semantic-tree/src/name.rs:130-140 | Limiting twice is limiting once, although the first result may exceed the limit |
| Names.WidthIsEncoded | crates/dom-semantic-tree/src/name.rs:130-140 | A character of one unit counts as many bytes as the text encoder makes of it |
| Names.TryAriaLabelledby | crates/dom-semantic-tree/src/name.rs:51-71 | The id loop collects the text of each distinct id in order |
| Names.RepeatedIdIgnored | crates/dom-semantic-tree/src/name.rs:54-58 | An id listed before contributes nothing more |
| Names.NewIdAdds | crates/dom-semantic-tree/src/name.rs:51-71 | An id not listed before adds the words of its text, if there are any |
| Names.ComputeName | crates/dom-semantic-tree/src/name.rs:35-49 | The first source present, collapsed and limited |
| Names.BlankSourceMasks | crates/dom-semantic-tree/src/name.rs:38-48 | The name is empty if and only if the first source present has no words; later sources are then never asked |
| Names.NamePrecedence | crates/dom-semantic-tree/src/name.rs:35-107 | The whole order of sources and what makes each count, written out |
| Names.DocumentedOrderDiffers | crates/dom-semantic-tree/src/name.rs:1-49 | The documented order of sources gives another name than the code if and only if nothing before the value is present, the value applies and is present, the text is not blank, and the two come out different |
| Names.ValueBeforeText | crates/dom-semantic-tree/src/name.rs:45-46 | One such button: the code names it by its value, the documentation by its text |
| Paths.ResolveRelative | crates/web-js-core/src/web/prelude.js:150-170 | `resolve(from, relative(from, to))` is `normalize(to)` if and only if both paths are absolute or neither is, the empty start counting as absolute |
| Paths.ResolveRelativeIs | crates/web-js-core/src/web/prelude.js:150-170 | `resolve(from, relative(from, to))` always has the segments of the target, and is absolute if and only if the start is absolute or empty |
| Paths.ResolveRelativeAnchors | crates/web-js-core/src/web/prelude.js:150-170 | One such pair: from `/a` to `b` the result is `/b` |
| Paths.NormalizeIdempotent | crates/web-js-core/src/web/prelude.js:139-148 | `normalize` is idempotent and leaves no empty, `.` or `..` segment |
| Paths.NormalizeFirstHalf | crates/web-js-core/src/web/prelude.js:139-148 | `normalize(a/b)` is `normalize(normalize(a)/b)` if and only if `a` does not collapse from something to the empty string; so for every absolute `a` |
| Paths.ResolveForgets | crates/web-js-core/src/web/prelude.js:150-158 | A resolved path does not depend on anything before an absolute part |
| Paths.JoinDirnameBasename | crates/web-js-core/src/web/prelude.js:135-137 | Joining the directory and base name of any path gives what joining the path gives |
| PathLaws.RelativeIsShortest | crates/web-js-core/src/web/prelude.js:159-170 | The relative path never starts at the root, leads from the one place to the other, and no path that does has fewer pieces; it is `.` if and only if the places are the same |
| PathLaws.ResolveIsJoin | crates/web-js-core/src/web/prelude.js:150-158 | Resolving parts of which none but the first is absolute and the last is not empty normalizes them joined by slashes, whatever precedes an absolute first part |
| PathLaws.JoinIsConcatenation | crates/web-js-core/src/web/prelude.js:136 | `join` has the same non-empty pieces in the same order, and the same normal form, as the parts with slashes between them under the root, and joining again changes nothing |
| PathLaws.DirnameCuts | crates/web-js-core/src/web/prelude.js:135-137 | The last slash cuts a path into directory and base name; without one the directory is the root |
| Paths.Normalize | crates/web-js-core/src/web/prelude.js:139-148 | The segment loop computes the normal form |
| Paths.Resolve | crates/web-js-core/src/web/prelude.js:150-158 | The backward loop computes the normal form of the parts from the last absolute one on |
| Paths.Relative | crates/web-js-core/src/web/prelude.js:159-170 | Up from where the normalized paths part, then down; `.` if they are the same |
| Paths.JoinParts | crates/web-js-core/src/web/prelude.js:136 | All non-empty pieces of all parts under the root |
| Base64Laws.BtoaIsRfc4648 | crates/web-js-core/src/web/prelude.js:61-75 | `btoa` returns the base64 encoding, by section 4 of RFC 4648, of the low bytes, and a text is that encoding only if it is what `btoa` returns |
| Base64Laws.AtobDecodes | crates/web-js-core/src/web/prelude.js:76-96 | `atob` returns the bytes of every text that is an encoding by section 4 of RFC 4648 |
| Base64Laws.AtobBtoa | crates/web-js-core/src/web/prelude.js:61-96 | `atob(btoa(s))` is `s` with each unit reduced to its low byte |
| Base64Laws.AtobIgnores | crates/web-js-core/src/web/prelude.js:81-85 | For every text: a character outside the alphabet changes nothing, and the first pad ends the text |
| Base64Laws.AtobLength | crates/web-js-core/src/web/prelude.js:86-95 | The symbols before the first pad give as many bytes as fit whole in their bits |
| Base64.Btoa | crates/web-js-core/src/web/prelude.js:61-75 | The grouping loop computes the encoding function |
| Base64.Atob | crates/web-js-core/src/web/prelude.js:76-96 | The loop with its buffer of four computes the decoding function |
| TextLaws.EncodeIsUtf8 | crates/web-js-core/src/web/prelude.js:100-112 | The encoder's bytes satisfy the grammar of section 4 of RFC 3629 if and only if the string has no surrogate; they then spell its units |
| TextLaws.EmojiIsLost | crates/web-js-core/src/web/prelude.js:100-130 | One character outside the basic plane: its encoding is not UTF-8, and its UTF-8 decodes to nothing |
| TextLaws.DecodeDropsSupplementary | crates/web-js-core/src/web/prelude.js:116-130 | Decoding any UTF-8 text gives its scalars that fit in one unit and silently drops the others |
| TextLaws.EncodeDecode | crates/web-js-core/src/web/prelude.js:100-130 | Decoding UTF-8 and encoding it again gives the bytes back if and only if every scalar fits in one unit |
| TextCodec.DecodeEncode | crates/web-js-core/src/web/prelude.js:100-130 | Decoding what was encoded gives back every sequence of 16-bit units, surrogates included |
| TextCodec.Encode | crates/web-js-core/src/web/prelude.js:100-112 | The loop computes the encoding unit by unit |
| TextCodec.Decode | crates/web-js-core/src/web/prelude.js:116-130 | The loop, reading past the end as zero, computes the decoding function |

## Left out

- QuickJS, promise internals and JSON text: the engine is an arbitrary deterministic program. User code does not touch `__webJsPending`, and the evaluation that clears stale entries succeeds.
- Result formatting, the getter read of `.value` on the final value, the execution count, stderr, stdin, source stacks, and guidance text in errors: decoration of results.
- AsyncLoop.Runner.RunCellAsyncLoop: cut after a given number of batches, because a cell can keep yielding for ever; the theorems hold for every such number.
- SessionLaws.EngineInvariant: the host resumes only ids that the current cell has handed out, as the loop does; a host that resumes a queued id breaks the tie between queue and entries.
- Session.SettleAfterDrain: leaves out the fuel that the engine's own evaluations can use. Counting the keys of `__webJsPending` after the drain of a resume runs under the interrupt handler and can use the last unit; what the resume then reports is `TopPromise.ResumeWithoutFuel`.
- User code that replaces `__webJsTopPromise`, `Object.keys` or `Reflect.deleteProperty`: the host's own evaluations are taken to do what they say.
- Cancelling an interval after its first tick: each tick is an ordinary trigger with a fresh id.
- The concurrency of the handler calls of one batch: they are awaited together before the first resume, so only each call's answer matters.
- `import_js_manifest_entries`, the body of a JavaScript callback handler and its timeout, the shared dispatch callback: foreign calls; only whether a handler is found is kept.
- The order of `list_manifest_entries`: the laws hold for every order.
- Bindings.EscapeRoundTrip: the reader knows the single-character escapes; numeric and Unicode escapes are never printed.
- Markdown and JSON documents, sync bindings: text layout.
- A buffer of at most 2^31-1 bytes is always allocated; OPFS quota, permission and stream faults, `list`, `hash`, text and base64 variants, MIME types and times; the rounding of offsets beyond 2^53 to a float; names that the browser refuses for other reasons than being empty, `.`, `..` or containing a slash.
- Role tables, state flags, computed styles, descriptions, classes and ids of elements: facts of the abstract element or absent. Marks left on the page by an earlier snapshot.
- The lookup of labels in the page, and the trimming of a required marker from a name.
- `extname`, URL parsing and the rest of the prelude: expressions without a partner.
- Browser API wrappers, page content handlers, parsers for spreadsheets and documents, user interface, build and publish scripts: I/O and thin wrappers.
