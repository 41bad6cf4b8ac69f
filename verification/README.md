# Verification model of cvforge

A Dafny model of the parts of cvforge in which several threads, several functions or
non-trivial arithmetic have to agree, with proofs of what they promise together.

- **Saving captures.** `SaveWorker.dfy` has the fields of the bounded save worker and one
  operation per critical section, each as a method on the object and as the function it is
  proved to compute. `SaveProtocol.dfy` interleaves worker thread, client and `drain` at the
  granularity of those sections, with sink calls, parking, spurious wakeups and timeouts in
  between. `SaveInvariant.dfy`, `SaveTheorems.dfy`, `SaveDeadline.dfy`, `SaveGate.dfy`,
  `SaveSecondWait.dfy` and `SaveDrain.dfy` prove what holds in every run, up to the
  termination of `drain`. `Finalization.dfy` and `CaptureStore.dfy` add the post-frame decision,
  the file names and the sink; `ArtifactTruth.dfy` puts everything together with a retention run that may delete
  captures at any moment, and relates what the caller is told to the files that exist.
- **Camera commands.** `CommandWorker.dfy` is the marshaller with deadlines and abandoned
  callers, `UvcSession.dfy` the stream session with its generation gate and the events of
  Media Foundation threads, `UvcBackend.dfy` their composition; `UvcOutcomes.dfy` and
  `UvcResults.dfy` say exactly when a capture ends in which result.
- **Locked frame buffers.** `FrameMath.dfy` is the overflow-checked arithmetic, `FrameDecode.dfy`
  the packed decoder, `PlanarDecode.dfy` the repacking of I420, YV12 and NV12, and
  `LockedDecode.dfy` the choice among them. `PackedLayout.dfy`, `PackedFormats.dfy` and
  `PlanarFormats.dfy` lay frames out by the public formats and prove what they decode to.
- **Retention.** `Retention.dfy` is the age-then-size run, `RetentionTrigger.dfy` the coalesced
  trigger with its maintenance thread.
- **Text, configuration, recipes.** `Utf8.dfy`, `DuplicateKeys.dfy` and `Catalog.dfy`.
  `Options.dfy` and `Sorting.dfy` hold what several modules share.

## Assumptions

- The inspection gate (src/runtime/context.cpp:375-381) makes the client of the save worker one
  thread that waits exactly once for each accepted submit. `SaveSecondWait.dfy` shows that
  a second wait would be answered wrongly.
- Sink calls return. Frame sequence numbers increase from one inspection to the next.
- Media Foundation completes a read at most once; `OnFlush` comes after every `OnReadSample` of
  that reader has returned and drops the reads that are still open.
- A timed wait may end at any moment, whether or not its deadline has passed. The clock of the
  retention trigger never goes back.
- `size_t` has 64 bits. When a lock reports no bounds, the driver vouches for the rows that
  the pitch describes.
- `std::sort` is a function to an ordered list of the same elements; `Sorting.SortIsUnique` shows
  that there is only one.
- The JSON parser numbers its events by depth as the comment in src/recipes/config.cpp:436-445
  says, arrays included.
- Time stamps, rename and remove results, the outcome of loading a single recipe file and of
  preparing an algorithm are parameters of the steps.

## Where a promise needs a condition

- Retention keeps the longest suffix within both limits if and only if the sizes of the files
  that are young enough add up to less than 2^64 (`Retention.ExactIffSumFits`).
- The check of single luma rows in the planar decoder can reject a view only when the pitch is
  smaller than the width (`PlanarDecode.WidePitchNeedsOneCheck`); the check of chroma rows and
  the row checks of the packed and NV12 decoders never do.
- The comment in src/artifacts/save_worker.h:128-137 says that a sink call under `publish_mutex_`
  never stalls `try_submit`, `executing` and `queued`. For `try_submit` that holds in every
  reachable state. For the two accessors, and for `drain`, it holds if and only if `wait_until`
  does not hold `mutex_` during the sink call, for which it is enough that no `wait_until` is in
  progress: `wait_until` locks the gate while it holds `mutex_` (`SaveGate.HeldUpExactly`, and
  the run in `SaveGate.SinkCallHoldsUpDrain`). There is still no deadlock (`SaveDrain.LockOrder`).
- With nothing requested, running or stopping, at most 2T - 2 captures that were counted have been
  committed since the last retention run began, and one more may be on disk and not yet counted
  (`RetentionTrigger.CoalescedBound`). The sum of both is reached if and only if the time
  trigger is positive or T is 1 (`RetentionTrigger.BoundIsReached`).

## Model

| member | source | states |
|---|---|---|
| SaveWorkerModel.SaveWorker.TrySubmit | src/artifacts/save_worker.cpp:20-42 | Accepted exactly when not stopping and a slot is free; the new job gets the next id and the executing slot before the queued one; the publication gate is untouched. |
| SaveWorkerModel.SaveWorker.Take | src/artifacts/save_worker.cpp:52-63 | Hands out the outcome of the target and forgets it and every older one, and nothing newer. |
| SaveWorkerModel.SaveWorker.BeginWait | src/artifacts/save_worker.cpp:44-70 | `wait_until` before it blocks: returns at once without a job, with a finished one, or with nothing in the slots; otherwise waits for the newest id. |
| SaveWorkerModel.SaveWorker.PublishDeadline | src/artifacts/save_worker.cpp:74-78 | The awaited id and deadline are published under the gate; the slots do not change. |
| SaveWorkerModel.SaveWorker.CancelTarget | src/artifacts/save_worker.cpp:113-134 | A queued target is dropped, an executing one is marked unless its decision was made, any other is left alone. |
| SaveWorkerModel.SaveWorker.Recover | src/artifacts/save_worker.cpp:97-108 | A client that lost the race gets the recorded decision once, and otherwise a cancellation. |
| SaveWorkerModel.SaveWorker.CancelPending | src/artifacts/save_worker.cpp:146-151 | Only the queued slot is emptied. |
| SaveWorkerModel.SaveWorker.Stop | src/artifacts/save_worker.cpp:153-160 | `drain` sets stopping and empties the queued slot; executing job and gate stay. |
| SaveWorkerModel.SaveWorker.RecordDecision | src/artifacts/save_worker.cpp:230-236 | The decision is stored, and cancellation mark and awaited deadline of that id are removed, in one step of the gate. |
| SaveWorkerModel.SaveWorker.CollectDecision | src/artifacts/save_worker.cpp:259-271 | A decision that was not handed out becomes a completed outcome; the gate forgets the id. |
| SaveWorkerModel.SaveWorker.PromoteQueued | src/artifacts/save_worker.cpp:273-278 | The queued job moves to the executing slot unless the worker is stopping. |
| SaveWorkerModel.SaveWorker.ResetExecuting | src/artifacts/save_worker.cpp:257-258 | Only the executing slot is emptied, before the gate is taken and the decision collected. |
| SaveInvariant.StepInv | src/artifacts/save_worker.cpp:20-281 | Every step of client, worker and drain keeps: a queued job is behind an executing one and the newest, ids only grow, decision and cancellation marks belong to the executing job, every outcome held anywhere tells the truth about the commit, every temporary is settled once. |
| SaveTheorems.RunInv | src/artifacts/save_worker.cpp:20-281 | The invariant holds in every interleaving of any length. |
| SaveTheorems.RunExtends | src/artifacts/save_worker.cpp:44-281 | What was written, committed, discarded or answered in a run stays so in every continuation. |
| SaveTheorems.CancelPublishAgreement | src/artifacts/save_worker.cpp:44-134 | For every answered wait and every continuation of the run: the answer is completed if and only if that job was or ever will be committed, and then it names the committed path; in particular any other answer means the job never gets a final file. |
| SaveTheorems.CommittedOnce | src/artifacts/save_worker.cpp:180-237 | A job is committed at most once, from a temporary it wrote, and a committed job was neither discarded nor dropped. |
| SaveSecondWait.SecondWaitMisreports | src/artifacts/save_worker.cpp:44-111 | Why one wait per submit is needed: in every reachable state after a completed answer, with both locks free, a second `wait_until` on that job either returns the empty outcome at once or, when it gives up, goes through publishing, cancelling and recovering and returns a cancellation of a published job. |
| SaveSecondWait.SecondWaitHappens | src/artifacts/save_worker.cpp:84-109 | A run of the worker and one client that reaches such a state with something to wait for, by losing the race against the commit, and the second wait that then answers with a cancellation. |
| SaveGate.HeldUpExactly | src/artifacts/save_worker.h:128-137 | In every reachable state with a sink call under the gate: `mutex_` is held up for the rest of that call, whatever the other threads do, if and only if `wait_until` holds it; while no `wait_until` is in progress or begun it stays free; `try_submit` is never held up. |
| SaveGate.SinkCallHoldsUpDrain | src/artifacts/save_worker.cpp:72-78 | A run in which the client holds `mutex_` and waits for the gate while the worker is inside a commit, so that `drain` and both accessors have to wait for the sink. |
| SaveDeadline.ExpiredIsNeverPublished | src/artifacts/save_worker.cpp:136-144 | A job submitted with deadline d is never committed if the clock reached d at any moment between the publication of the deadline and the decision, in every continuation of every run. |
| SaveDeadline.CancelledIsNeverPublished | src/artifacts/save_worker.cpp:113-144 | A job that is marked as cancelled before its decision is never committed, in every continuation of every run. |
| SaveDeadline.DecisionExactly | src/artifacts/save_worker.cpp:203-222 | The decision on a written temporary goes to commit if and only if the job is not marked as cancelled and either the clock has not reached its deadline or the client has not yet published that; otherwise the temporary is discarded as cancelled. |
| SaveDeadline.InTimeIsCompleted | src/artifacts/save_worker.cpp:44-111 | A job that is in time at its decision is committed; when the sink succeeds with a path, its wait can be brought to an answer within nine steps, and every answer in any continuation is completed with that path. |
| SaveDeadline.OutcomesExactly | src/artifacts/save_worker.cpp:182-228 | Which outcome each end of the two phases records: the error of the sink for a failed write or commit, cancelled for a discarded temporary, completed with the path of the commit. |
| SaveDeadline.RecordedIsTold | src/artifacts/save_worker.cpp:230-271 | The outcome recorded for a job whose wait was not answered yet is what the wait is told, in every continuation of every run. |
| SaveDeadline.EntryExactly | src/artifacts/save_worker.cpp:44-70 | In every reachable state `wait_until` returns the outcome of its job exactly if that is completed, blocks exactly if it is not and a job is in a slot, and else returns the empty outcome, which happens only to a dropped job. |
| SaveTheorems.NoStarvation | src/artifacts/save_worker.cpp:20-42 | Under the serialized client the queued slot is free at every submit, so a submit is refused exactly after stopping was set. |
| SaveTheorems.SlotDiscipline | src/artifacts/save_worker.h:117-150 | Slot order, id order and ownership of the decision and cancellation fields in every reachable state; the slot and decision order while no thread is inside a section of `mutex_`. |
| SaveTheorems.TakeEmpties | src/artifacts/save_worker.cpp:52-63 | In every reachable state handing out the newest outcome leaves no outcome behind. |
| SaveTheorems.ExecutedInOrderOrDropped | src/artifacts/save_worker.cpp:239-281 | Jobs start in strictly increasing id order, and an id was issued if and only if it has started, was dropped, or still sits in a slot; none is both started and dropped. |
| SaveTheorems.TemporaryConservation | src/artifacts/save_worker.cpp:180-228 | Temporaries written are the committed ones, the discarded ones and the one between the two phases of `execute`, disjointly, as sets and as counts. |
| SaveDrain.NoLostWakeup | src/artifacts/save_worker.cpp:72-82 | A parked thread is parked for a reason in every reachable state: what it waits for has not happened, or the thread that will notify it holds the mutex already. |
| SaveDrain.LockOrder | src/artifacts/save_worker.cpp:113-134 | `mutex_` has one holder, and whoever holds `publish_mutex_` has an enabled step whoever holds `mutex_`, so no thread waits for `mutex_` while holding the gate. |
| SaveDrain.RankShrinks | src/artifacts/save_worker.cpp:239-281 | After stopping is set no step of any thread, other than a further call of drain, raises the rank that counts what is left to do, and a step of the worker lowers it. |
| SaveDrain.DrainProgress | src/artifacts/save_worker.cpp:153-166 | In every reachable state of an unfinished drain some thread can take a step that lowers the measure: no deadlock. |
| SaveDrain.DrainReturns | src/artifacts/save_worker.cpp:153-166 | From every such state drain reaches its return, with worker exited and both slots empty, if the sink calls return. |
| SaveDrain.DrainTerminates | src/artifacts/save_worker.cpp:153-166 | The same from the initial state after any run whatever, within at most 38 steps. |
| SaveDrain.NothingAfterDrain | src/artifacts/save_worker.cpp:15-31 | After drain has returned no run contains a sink call or an accepted submit. |
| Finalization.PolicyExactly | src/artifacts/capture_store.cpp:162-175 | "always" saves every frame, "fail_or_error" exactly those of a failed execution or a FAIL, "never" and every unknown policy none. |
| Finalization.DueSaveHasRequirement | src/runtime/finalization.h:35-44 | Where the policy calls for a save, the requirement is required or optional as the recipe says; under other policies there is none. |
| Finalization.DecisionIsHonest | src/runtime/finalization.h:86-150 | After a valid frame: a verdict only with status OK, an image path exactly for a committed save, OK exactly when execution succeeded and a required save was committed, TIMEOUT or REQUIRED_ARTIFACT_ERROR by the clock for a missing one and before every other failure, the warning exactly for an optional save attempted in vain. |
| Finalization.NoFrameEchoesFailure | src/runtime/finalization.h:95-111 | Without a valid frame a capture failure is echoed, without verdict and path. |
| CaptureStore.SanitizeIdentifier | src/artifacts/capture_store.cpp:57-71 | The result has 1 to 64 bytes, all from the safe alphabet. |
| CaptureStore.SanitizedIsSafe | src/artifacts/capture_store.cpp:56-71 | Every sanitized identifier has 1 to 64 bytes of the safe alphabet, and sanitizing it again changes nothing. |
| CaptureStore.SanitizedExactly | src/artifacts/capture_store.cpp:49-71 | A safe identifier of at most 64 bytes is kept; of any other the first 64 bytes, each unsafe one as an underscore; the empty one becomes "unnamed". |
| CaptureStore.FilenameParts | src/artifacts/capture_store.cpp:95-99 | Stamp, recipe, request and frame sequence stand in the name in this order, with one underscore between them. |
| CaptureStore.TemporaryNamesExactly | src/artifacts/capture_store.cpp:248-252 | Temporaries are exactly the names that begin with ".cvftmp_". |
| CaptureStore.DecimalRoundTrip | src/artifacts/capture_store.cpp:95-99 | The decimal text of a sequence number determines the number. |
| CaptureStore.NamesAreDisjoint | src/artifacts/capture_store.cpp:248-252 | No capture name begins with the temporary prefix and every temporary name does. |
| CaptureStore.FilenameStaysBelowRoot | src/artifacts/capture_store.cpp:95-99 | Whatever the identifiers contain, a capture name has no separator and is no dot directory. |
| CaptureStore.SequenceIsInName | src/artifacts/capture_store.cpp:95-99 | Equal capture names have equal frame sequences, whatever stamps and identifiers are. |
| CaptureStore.CaptureStoreSink.WriteTemp | src/artifacts/capture_sink.cpp:10-24 | A written temporary is on disk and registered under its identity; a failed write registers nothing. |
| CaptureStore.CaptureStoreSink.Commit | src/artifacts/capture_sink.cpp:26-44 | Succeeds exactly for a registered temporary whose rename succeeds; then the capture name replaces the temporary; the registration is gone in either case. |
| CaptureStore.CaptureStoreSink.Discard | src/artifacts/capture_sink.cpp:46-54 | Unregisters the temporary and removes its file if that is possible. |
| ArtifactTruth.Refines | src/runtime/context.cpp:496-547 | Every step of the whole system is a step of the save protocol or leaves it alone. |
| ArtifactTruth.RunRefines | src/runtime/context.cpp:496-547 | Every run of the system is a run of the save protocol with the same protocol state at its end, so the protocol theorems hold of it. |
| ArtifactTruth.SysStepInv | src/runtime/context.cpp:496-583 | Every step keeps the correspondence of accepted jobs, reports, registered temporaries and files on disk, with a retention run removing any capture in between. |
| ArtifactTruth.SysRunInv | src/runtime/context.cpp:496-583 | The same for every run. |
| ArtifactTruth.EndToEnd | src/runtime/context.cpp:496-583 | For every answered inspection and every continuation: an image path is reported if and only if its job is ever committed, and is the committed name, made of recipe, request and frame of that inspection; that file is in the directory unless a retention step removed it, and no other capture of that frame is, beyond files of an earlier process; if policy text, verdict and failure call for a save, it is required and not committed, the answer is TIMEOUT or REQUIRED_ARTIFACT_ERROR by the clock, with no verdict; otherwise status and verdict are those of the inspection. |
| ArtifactTruth.SaveIsAttempted | src/runtime/context.cpp:510-547 | For every answered inspection, by its policy text, verdict and failure: no save is attempted, and no capture ever appears, exactly for "never", an unknown policy, and "fail_or_error" with a successful execution without FAIL; in every other case, unless the worker is stopping, a job with that recipe, request and frame was accepted and waited for. |
| ArtifactTruth.CommitExactly | src/artifacts/capture_sink.cpp:26-44 | In every run the sink commits exactly if the rename succeeds; then the capture named after the job is on disk and the temporary is gone. |
| ArtifactTruth.AnswerIsCurrent | src/runtime/context.cpp:549-582 | The answer is about the inspection under way, its attempt and the clock at that moment. |
| ArtifactTruth.RunKeepsDisk | src/artifacts/capture_sink.cpp:26-54 | In every run the file of every commit is on disk, unless a retention step of that run removed exactly that name; discards and later commits never take it. |
| ArtifactTruth.NoPathNoFile | src/runtime/context.cpp:574-576 | An inspection reported without image path has no capture of its frame on disk then or ever later, under any time stamp, unless the file was there before. |
| ArtifactTruth.CommitsAreApart | src/artifacts/capture_sink.cpp:26-44 | Different commits have different names, so no capture overwrites another. |
| ArtifactTruth.IdleWorkerLeavesNoTemporary | src/artifacts/capture_sink.cpp:10-54 | Outside the two phases of `execute` nothing is registered, and a temporary on disk was there at the start or could not be removed; a commit finds its temporary registered and on disk. |
| ArtifactTruth.PollingOnlyInShutdown | src/runtime/context.cpp:537-546 | The busy-wait for a refused required save is reachable only once the worker is stopping. |
| CommandWorker.Marshaller.Submit | src/camera/uvc_windows/uvc_command_worker.h:114-125 | Refused when not running, timed out when the deadline has passed, otherwise queued last under the next sequence number. |
| CommandWorker.Marshaller.TakeNext | src/camera/uvc_windows/uvc_command_worker.h:224-233 | A stop clears the queue and leaves; otherwise exactly the first command is taken. |
| CommandWorker.Marshaller.PublishCompletion | src/camera/uvc_windows/uvc_command_worker.h:240-243 | Only the completed sequence number changes. |
| CommandWorker.Marshaller.Resolve | src/camera/uvc_windows/uvc_command_worker.h:214-218 | Only the state of the worker changes, when startup resolves and when the thread ends. |
| CommandWorker.StepInv | src/camera/uvc_windows/uvc_command_worker.h:114-261 | Every step keeps: started and finished commands are 1, 2, 3, ..., the queue holds the next ones without gap, and every answer given stays justified. |
| CommandWorker.RunInv | src/camera/uvc_windows/uvc_command_worker.h:114-261 | The same for every run of one epoch. |
| CommandWorker.FifoMarshalling | src/camera/uvc_windows/uvc_command_worker.h:221-245 | In every run commands start and finish in submission order, once each, one at a time, and the completed sequence number is k exactly when commands 1 to k have finished, up to the publication under way. |
| CommandWorker.AnswersAreTrue | src/camera/uvc_windows/uvc_command_worker.h:114-136 | For every answered caller and every continuation: completed means the command has finished, unavailable means it never starts, and after a timeout it can start only in its own turn, hence at most once. |
| CommandWorker.AnswerExactly | src/camera/uvc_windows/uvc_command_worker.h:126-136 | In every reachable state a waiting caller that returns is told completed exactly if the completion of its command was published, timeout exactly if not and the worker is running, unavailable exactly if not and the worker is not running; never timeout without having run out of time. |
| CommandWorker.AdmissionExactly | src/camera/uvc_windows/uvc_command_worker.h:114-125 | A call is refused exactly while the worker is not running, times out at once exactly if its deadline has passed on a running worker, and otherwise waits for its command at the end of the queue. |
| CommandWorker.StopTakesEffect | src/camera/uvc_windows/uvc_command_worker.h:167-188 | After a stop request no command starts, no step of anyone delays the exit, and the worker always has a step towards it. |
| CommandWorker.StopAndJoinReturns | src/camera/uvc_windows/uvc_command_worker.h:167-188 | After any run in which a stop was requested, at most five steps of the worker and one of each waiting caller end with the thread exited and ready to join, no further command started, and every caller answered, never with a timeout if it was still waiting. |
| UvcSession.StreamGenerationGate.BeginStream | src/camera/uvc_windows/uvc_stream_generation.h:42-47 | The new generation is greater than every one before and is the active one. |
| UvcSession.StreamGenerationGate.Retire | src/camera/uvc_windows/uvc_stream_generation.h:50-53 | No generation is active; the counter of generations stays. |
| UvcSession.StreamGenerationGate.DiscardStale | src/camera/uvc_windows/uvc_stream_generation.h:62-68 | Counts exactly the events that the gate does not accept. |
| UvcOutcomes.ReadWaitExactly | src/camera/uvc_windows/uvc_backend.cpp:1479-1534 | The end of a read wait, by the completion recorded on the active generation: a frame of the awaited read exactly for success status, a refresh that succeeded where needed, a sample and its conversion; and likewise exactly when it is a failed capture, a timeout, another read or the cancellation of the read. |
| UvcOutcomes.ReadWaitMarks | src/camera/uvc_windows/uvc_backend.cpp:1498-1528 | The stream is marked for a reconnect exactly after a bad completion or the end of the stream. |
| UvcOutcomes.StartCaptureExactly | src/camera/uvc_windows/uvc_backend.cpp:1444-1454 | A capture begins to read exactly on an open and usable stream within its deadline; the refusals keep their order. |
| UvcOutcomes.IssueExactly | src/camera/uvc_windows/uvc_backend.cpp:1466-1477 | A read is issued for its call on the active generation, or the capture fails and the stream is marked. |
| UvcOutcomes.CancelExactly | src/camera/uvc_windows/uvc_backend.cpp:1545-1569 | A read that was given up is a timeout, and the stream stays usable exactly if the flush was requested, had time and completed on the active generation. |
| UvcOutcomes.OpenExactly | src/camera/uvc_windows/uvc_backend.cpp:1241-1293 | `open` and `reconnect` succeed exactly within the deadline with activation and format selection successful; then the session is open on a new generation, otherwise closed. |
| UvcSession.FlushInvKept | src/camera/uvc_windows/uvc_backend.cpp:1545-1569 | Giving a read up keeps the invariant: a stream stays usable only if the flush came through and no read is under way; otherwise it is marked for a reconnect. |
| UvcSession.ReadArrivesInv | src/camera/uvc_windows/uvc_backend.cpp:713-734 | A completion that arrives at any moment, also of a retired stream, keeps the invariant. |
| UvcSession.StepInv | src/camera/uvc_windows/uvc_backend.cpp:713-749 | Every step of the command body and of the Media Foundation threads keeps: gate, callback and reader agree, a usable stream has no read under way but the awaited one, a recorded completion is that of the awaited read. |
| UvcSession.RetiredStreamsAreHarmless | src/camera/uvc_windows/uvc_stream_generation.h:34-80 | Generations never return, and a completion of another generation changes neither the active callback nor the running command. |
| UvcBackend.StepInv | src/camera/uvc_windows/uvc_backend.cpp:922-944 | Marshaller and session together: a command body runs exactly while the worker executes it, every finished command has filled the slot of its own call. |
| UvcBackend.RunInv | src/camera/uvc_windows/uvc_backend.cpp:882-989 | The same for every run. |
| UvcBackend.StaleReadFreedom | src/camera/uvc_windows/uvc_backend.cpp:922-944 | In every run a call that was told completed finds its slot filled, and a frame in it answers a read that this same call issued on the generation the frame came through; timed-out and unavailable calls return no frame. |
| UvcResults.FrameExactly | src/camera/uvc_windows/uvc_backend.cpp:922-944 | In every run a returned call hands out a frame if and only if it was told completed and its latest read wait recorded a completion of success status with a sample, refreshed where needed and converted; and it is that frame. |
| UvcResults.FinalizedExactly | src/camera/uvc_windows/uvc_backend.cpp:1096-1108 | The result follows the answer of the command worker: the slot for completed, and a failure of its own otherwise. |
| UvcResults.AnswerGoesToSlot | src/camera/uvc_windows/uvc_backend.cpp:932-941 | The answer of a command goes into the slot of its own call and no other. |
| UvcResults.CaptureRun | src/camera/uvc_windows/uvc_backend.cpp:882-944 | A run of `open` and `capture` that ends in the frame of its read. |
| UvcBackend.FramesAreNotShared | src/camera/uvc_windows/uvc_backend.cpp:1442-1535 | No read is ever handed to two calls. |
| UvcBackend.FrameIsFromActiveStream | src/camera/uvc_windows/uvc_backend.cpp:1466-1524 | While a frame is on its way to its slot, its generation is the active one and its command is the one executing. |
| FrameMath.CheckedExactly | src/camera/uvc_windows/uvc_frame_math.h:39-55 | The checked operations fail exactly when the mathematical result does not fit a 64-bit size_t, and are exact otherwise. |
| FrameMath.ExtentCoversRows | src/camera/uvc_windows/uvc_frame_math.h:76-88 | The one check of the whole extent is equivalent to the check of every single row, for both signs of the pitch. |
| FrameMath.AccessibleExactly | src/camera/uvc_windows/uvc_frame_math.h:97-161 | The accessible length reaches from the lowest addressed byte to the end of the lock, and is refused exactly when that byte is outside the lock. |
| FrameMath.RowsInsideLock | src/camera/uvc_windows/uvc_frame_math.h:61-195 | After both checks every byte of every row has an address inside the lock, for both signs of the pitch and without wrap-around. |
| FrameDecode.ConvertPackedRow | src/camera/uvc_windows/uvc_frame_convert.cpp:89-147 | The row of the frame becomes the converted source row; the other rows stay. |
| FrameDecode.DecodePacked | src/camera/uvc_windows/uvc_frame_convert.cpp:149-183 | Fails exactly for the structural reasons (the row checks add none), and otherwise every row of the frame is the converted row of the picture, read inside the buffer. |
| LockedDecode.DecodeLocked | src/camera/uvc_windows/uvc_frame_convert.cpp:309-339 | For every view and pixel format: rejects exactly for the null pointer, the empty or too large frame, or the reasons of the decoder of that format, and otherwise yields what the locked buffer shows. |
| FrameDecode.AcceptedRowsInBuffer | src/camera/uvc_windows/uvc_frame_convert.cpp:149-183 | Every view that is accepted has all its rows inside the locked buffer. |
| PackedLayout.StoredViewAccepted | src/camera/uvc_windows/uvc_frame_convert.cpp:149-175 | Every picture laid out in memory with a pitch of either sign is accepted by all checks. |
| PackedLayout.StoredRow | src/camera/uvc_windows/uvc_frame_convert.cpp:47-52 | Reading visual row r of a stored picture through the signed pitch gives row r back. |
| PackedLayout.OrientationDoesNotMatter | src/camera/uvc_windows/uvc_frame_convert.cpp:176-182 | Top-down and bottom-up storage of one picture, with any pitches, paddings and addresses, decode to the same rows. |
| PackedFormats.RgbRoundTrip | src/camera/uvc_windows/uvc_frame_convert.cpp:61-113 | Any BGR image stored as RGB24, RGB32 or ARGB32, top-down or bottom-up, with any padding and filler, decodes to itself. |
| PackedFormats.PairRowConverts | src/camera/uvc_windows/uvc_frame_convert.cpp:114-146 | A row of luma and chroma stored as Y0 U Y1 V in YUY2, or U Y0 V Y1 in UYVY, converts to the colour of every pixel from its own luma and the chroma of its pair. |
| PackedFormats.PairRoundTrip | src/camera/uvc_windows/uvc_frame_convert.cpp:61-147 | The same for whole pictures, top-down or bottom-up, with any padding. |
| PackedFormats.PackedAcceptedExactly | src/camera/uvc_windows/uvc_frame_convert.cpp:149-175 | A packed view is accepted exactly if 4:2:2 rows have whole pairs, no row overlaps the next, and the rows fit the address space and the lock. |
| PackedFormats.YuvIsFullRangeBt601 | src/camera/uvc_windows/uvc_frame_math.h:214-229 | The colour conversion is full-range BT.601 up to rounding by about one step, in every channel. |
| PackedFormats.NeutralChromaIsGrey | src/camera/uvc_windows/uvc_frame_math.h:214-219 | Neutral chroma is exactly grey. |
| PlanarFormats.LumaSource | src/camera/uvc_windows/uvc_frame_convert.cpp:281-286 | Where in the lock every luma byte of a decoded I420 or YV12 frame comes from. |
| PlanarFormats.ChromaSource | src/camera/uvc_windows/uvc_frame_convert.cpp:287-301 | Where every U and V byte comes from: I420 stores U directly behind the luma rows and V behind it, YV12 the other way round. |
| PlanarFormats.Nv12Source | src/camera/uvc_windows/uvc_frame_convert.cpp:214-219 | Where every byte of a decoded NV12 frame comes from. |
| PlanarFormats.PlanarAcceptedExactly | src/camera/uvc_windows/uvc_frame_convert.cpp:225-273 | A planar view is accepted exactly if the sides are even, the pitch is positive and even, and luma and both chroma planes lie in the accessible bytes. |
| PlanarFormats.Nv12AcceptedExactly | src/camera/uvc_windows/uvc_frame_convert.cpp:185-212 | The same for NV12 with its rows. |
| PlanarFormats.LockedAcceptedExactly | src/camera/uvc_windows/uvc_frame_convert.cpp:309-339 | The common size limits, and which check decides for which public format. |
| PlanarDecode.PlaneByte | src/camera/uvc_windows/uvc_frame_convert.cpp:283-301 | Byte j of row r of a repacked plane is byte j of row r of the source plane. |
| PlanarDecode.CheckRows | src/camera/uvc_windows/uvc_frame_convert.cpp:253-272 | The loop over single rows accepts exactly when the last row fits. |
| PlanarDecode.WidePitchNeedsOneCheck | src/camera/uvc_windows/uvc_frame_convert.cpp:239-258 | With a pitch of at least the width the extent check makes the luma row checks redundant. |
| PlanarDecode.AcceptedPlanesFit | src/camera/uvc_windows/uvc_frame_convert.cpp:239-272 | Every accepted view has its luma rows and both chroma planes inside the lock, although only one chroma plane is checked row by row. |
| PlanarDecode.CheckPlanar | src/camera/uvc_windows/uvc_frame_convert.cpp:225-273 | All checks together reject exactly for the stated four reasons; overflow and chroma rows never are among them for supported sizes. |
| PlanarDecode.RepackedSize | src/camera/uvc_windows/uvc_frame_convert.cpp:281 | The three planes fill the allocated frame exactly. |
| PlanarDecode.CopyChroma | src/camera/uvc_windows/uvc_frame_convert.cpp:291-301 | The one loop over both chroma planes writes U and behind it V, each byte once more than before, and leaves the rest of the frame. |
| PlanarDecode.DecodePlanar420 | src/camera/uvc_windows/uvc_frame_convert.cpp:225-305 | Fails exactly when a check fails, and otherwise yields Y, then U, then V without padding, with U from the first chroma plane for I420 and from the second for YV12; every byte of the frame is written exactly once. |
| PlanarDecode.Yv12IsI420Swapped | src/camera/uvc_windows/uvc_frame_convert.cpp:288-294 | For every pitch, repacking a YV12 buffer equals repacking, as I420, any buffer with the same luma rows and the two chroma planes in each other's place. |
| PlanarDecode.Yv12IsI420Exchanged | src/camera/uvc_windows/uvc_frame_convert.cpp:288-294 | Where luma and chroma planes do not overlap, exchanging the two chroma planes makes such a buffer. |
| PlanarDecode.DecodeNv12 | src/camera/uvc_windows/uvc_frame_convert.cpp:185-219 | Fails exactly for the stated reasons, and otherwise yields the luma rows and the interleaved chroma rows without padding, every byte written exactly once. |
| Sorting.LexLessExactly | src/artifacts/capture_store.cpp:157 | Names compare by the first byte in which they differ, and a beginning comes before the whole. |
| Sorting.SortedInOrder | src/artifacts/capture_store.cpp:298 | Sorting elements with different keys puts them in the order of (write time, name). |
| Sorting.SortIsUnique | src/artifacts/capture_store.cpp:152-158 | Two lists of the same elements in that order are equal, so the sort has one possible result. |
| Retention.QueueInOrder | src/artifacts/capture_store.cpp:266-298 | Retention looks at exactly the regular files that are not temporaries, oldest first. |
| Retention.SizeStopExact | src/artifacts/capture_store.cpp:320-330 | With a true sum the size loop stops at the first place from which the rest fits. |
| Retention.SizeStopShort | src/artifacts/capture_store.cpp:315-330 | With a sum that lost a carry it stops while the rest is still over the limit. |
| Retention.ExactIffSumFits | src/artifacts/capture_store.cpp:306-330 | A run leaves the longest suffix that meets both limits if and only if the sizes of the files young enough add up to less than 2^64. |
| Retention.WrappedSumKeepsAll | src/artifacts/capture_store.cpp:315-330 | A concrete directory of two young files of 2^63 bytes each is left whole under a limit of zero. |
| Retention.LongestSuffixIsUnique | src/artifacts/capture_store.cpp:306-330 | At most one place can begin that suffix. |
| Retention.CapturesRoot.RemoveAged | src/artifacts/capture_store.cpp:306-317 | The age loop removes the aged files in order up to the first that cannot be removed, and keeps, sums (modulo 2^64) and counts (modulo 2^32) the rest. |
| Retention.CapturesRoot.RemoveForSize | src/artifacts/capture_store.cpp:319-330 | The size loop removes oldest first until the sum fits or a file cannot be removed. |
| Retention.CapturesRoot.EnforceRetention | src/artifacts/capture_store.cpp:254-333 | A scan error removes nothing; otherwise exactly a prefix of the ordered files is gone, up to the first that cannot be removed, and the count is that of the removed files, or the error is returned. |
| Retention.OnlyCapturesAreRemoved | src/artifacts/capture_store.cpp:269-297 | Whatever a run removes, failed or not, is a regular file whose name is not that of a temporary. |
| Retention.FileFate | src/artifacts/capture_store.cpp:269-330 | For a single file: only regular files that are not temporaries are removed; one older than the maximal age is; one exactly that old or younger is kept if the files of such an age fit the size limit. |
| Retention.OlderGoesFirst | src/artifacts/capture_store.cpp:298-330 | Every removed file is older than every eligible one that is kept, or of the same time and earlier by name. |
| Retention.ReachedExactly | src/artifacts/capture_store.cpp:308-327 | A run with a file that cannot be removed has removed exactly those before the first such file. |
| Retention.CountIsReported | src/artifacts/capture_store.cpp:304 | The reported count is the number of removed files as long as that fits 32 bits. |
| Retention.QueueAfter | src/artifacts/capture_store.cpp:254-298 | A later scan, in whatever order, sees exactly the files that were not removed. |
| Retention.SecondRunRemovesNone | src/artifacts/capture_store.cpp:254-333 | With a sum below 2^64 a run without errors leaves exactly the longest admissible suffix, and a second run at the same instant removes nothing. |
| RetentionTrigger.RetentionScheduler.OnCaptureCommitted | src/artifacts/retention_scheduler.h:32-36 | Counts the capture and fires exactly at or above a trigger that is not zero. |
| RetentionTrigger.Maintenance.ScheduleRetention | src/runtime/context.cpp:590-615 | The counter and the request flag after one inspection; a request that is pending stays. |
| RetentionTrigger.Maintenance.Iterate | src/runtime/context.cpp:619-637 | A run starts exactly if none is stopping the thread and a request is pending or the time trigger is due, and it clears the request. |
| RetentionTrigger.RunInv | src/runtime/context.cpp:590-646 | Invariant of every run of inspections, maintenance thread and destructor. |
| RetentionTrigger.TriggerIsNotLost | src/runtime/context.cpp:590-646 | Once the counter has reached a trigger that is not zero, a run is requested or in progress or a stop was requested. |
| RetentionTrigger.CoalescedBound | src/runtime/context.cpp:590-646 | With nothing requested, running or stopping, at most 2T - 2 captures were committed since the last run began, and 2T - 1 while the latest of them is still to be counted. |
| RetentionTrigger.RequestedExactly | src/runtime/context.cpp:600-612 | In every run an inspection requests a retention run exactly if the time of the time trigger has passed since the last run ended, or it counts the capture that reaches a capture trigger that is not zero; a pending request stays. |
| RetentionTrigger.StartsExactly | src/runtime/context.cpp:619-637 | In every run the maintenance thread starts a run exactly if no stop was requested and one is requested or the time has passed since the last one ended. |
| RetentionTrigger.ReachBound | src/runtime/context.cpp:590-646 | For every T and every positive time trigger there are runs with exactly 2T - 2 counted captures and with exactly 2T - 1. |
| RetentionTrigger.BoundIsReached | src/runtime/context.cpp:590-646 | The bound of 2T - 1 is reached if and only if the time trigger is positive or T is 1. |
| RetentionTrigger.NoRunAfterStop | src/runtime/context.cpp:322-333 | After a stop request no run starts and a returned thread stays returned. |
| Utf8.ValidExactly | src/core/text.cpp:36-74 | The accepted texts are exactly the concatenated encodings of Unicode scalar values (sections 3 and 4 of RFC 3629). |
| Utf8.HeadIsScalar | src/core/text.cpp:40-72 | Every sequence let pass is the encoding of one scalar value: none overlong, surrogate or above U+10FFFF. |
| Utf8.RangeEnds | src/core/text.cpp:36-74 | The ends of the encoding ranges of section 3 of RFC 3629, byte by byte. |
| Utf8.ForbiddenForms | src/core/text.cpp:40-72 | No text begins with a stray or unused byte, an overlong form, a surrogate or a code point above U+10FFFF. |
| Utf8.RfcExample | src/core/text.cpp:36-74 | The first example of section 7 of RFC 3629. |
| Utf8.EncodedIsValid | src/core/text.cpp:36-74 | Every sequence of scalar values has an accepted encoding. |
| Utf8.EncodingIsInjective | src/core/text.cpp:36-74 | An accepted text is the encoding of only one sequence of scalar values. |
| Utf8.CheckSequence | src/core/text.cpp:40-72 | The body of the loop yields the length of the well-formed sequence at the index, or refuses. |
| Utf8.ValidateUtf8 | src/core/text.cpp:36-74 | No problem is reported if and only if the text is well formed. |
| Utf8.ValidateText | src/core/text.cpp:76-85 | NUL before length before encoding, and no problem exactly when all three are in order; a bound of 0 is no bound. |
| Utf8.BoundariesAreValidCuts | src/core/text.cpp:92-98 | A prefix of a valid text is valid exactly if the cut is not before a continuation byte. |
| Utf8.Utf8SafePrefix | src/core/text.cpp:87-98 | On well-formed text the result is the longest well-formed prefix of at most the given number of bytes; on any text it is a prefix within the bound. |
| DuplicateKeys.DuplicateKeyCallback.Call | src/recipes/config.cpp:448-461 | One event of the callback: which set is cleared or extended, when the flag is set and what is kept. |
| DuplicateKeys.FedValue | src/recipes/config.cpp:436-461 | Feeding a value leaves the name sets of its own depth and above alone and sets the flag exactly if the value repeats a name somewhere. |
| DuplicateKeys.MembersFed | src/recipes/config.cpp:448-461 | The set of an open object holds exactly the names met so far, whatever its values contain. |
| DuplicateKeys.DetectsExactly | src/recipes/config.cpp:446-470 | Over the events of any document the flag is set if and only if some object anywhere repeats a name (names as in section 4 of RFC 8259), whether or not the inside of a refused value is reported. |
| DuplicateKeys.LoadJsonDocument | src/recipes/config.cpp:474-509 | A document is accepted exactly if it parses and no object in it repeats a name; the other errors keep their precedence. |
| Catalog.LoadAssetBytes | src/recipes/recipe_catalog.cpp:46-107 | Succeeds exactly for an acceptable file within its own bound whose size still fits the total, and returns its bytes. |
| Catalog.LoadAssets | src/recipes/recipe_catalog.cpp:174-186 | The bounds on each file and on the running total accept exactly the bundles whose files all fit and whose whole size is within the bound. |
| Catalog.AssetFitsExactly | src/recipes/recipe_catalog.cpp:46-107 | An asset fits exactly if it is a file of at most 16 MiB that reads in full. |
| Catalog.BundleFitsExactly | src/recipes/recipe_catalog.cpp:27-28 | A bundle is accepted exactly if every asset fits and all take at most 64 MiB together. |
| Catalog.CompleteExactly | src/recipes/recipe_catalog.cpp:149-198 | Files load completely exactly if each is a recipe whose algorithm is registered and prepares from assets that fit, and no two have one identifier. |
| Catalog.ProblemExactly | src/recipes/recipe_catalog.cpp:155-191 | What each error says about the first file that does not load. |
| Catalog.RecipeNameExactly | src/recipes/recipe_catalog.cpp:138-141 | A recipe file is named something and then ".json". |
| Catalog.LoadFiles | src/recipes/recipe_catalog.cpp:149-197 | Over the sorted files: either all of them, position by position with identifiers and positions one to one, or the problem of the first bad file. |
| Catalog.Load | src/recipes/recipe_catalog.cpp:118-198 | The error of listing the directory, or the load of its regular recipe files in the order of their names. |
| Catalog.ListingOrderDoesNotMatter | src/recipes/recipe_catalog.cpp:127-147 | Directories with the same entries have the same result, in whatever order the iterator gives them. |
| Catalog.LoadIsDetermined | src/recipes/recipe_catalog.cpp:149-198 | A list of files has exactly one possible result: there is one, and no other. |
| Catalog.LookupsAgree | src/recipes/recipe_catalog.cpp:200-226 | `find` and `find_prepared` of one identifier answer from the same file, whose recipe has that identifier; the errors for broken indices cannot occur; not found means no file has it. |
| Catalog.RecipeHolder.Reload | src/runtime/context.cpp:465-481 | The snapshot changes only if the context is open and the whole directory loads, and then to exactly that catalog. |
| Catalog.StepInv | src/runtime/context.cpp:383-481 | Every step of inspections and reloads keeps: published catalogs are whole loads, the running inspection holds a published one. |
| Catalog.ReloadAtomicity | src/runtime/context.cpp:383-481 | In every interleaving with any number of reloads every inspection dispatches the requested recipe with the object prepared from the same file of one published directory. |
| Catalog.BeginUsesCurrent | src/runtime/context.cpp:383-394 | An inspection takes the catalog that is current when it begins, and holds a recipe exactly if that has one of the requested identifier. |
| Catalog.DispatchSucceeds | src/runtime/context.cpp:427-435 | An inspection that comes to its dispatch always finds its prepared object. |
| Catalog.PublishMakesCurrent | src/runtime/context.cpp:478-480 | A reload that loaded the whole directory makes that catalog the current one and touches no inspection. |
| Catalog.PublishedStays | src/runtime/context.cpp:465-481 | History only grows, and a run without a publication leaves the current catalog. |

## Left out

- Colour conversion, resizing, template matching and PNG encoding by OpenCV, and all COM and
  Media Foundation calls: foreign code; they appear as outcomes of steps. The planar decoders end
  where the colour conversion begins.
- SaveTheorems.SlotDiscipline: 64-bit ids are unbounded here; so are the sequence numbers of the
  command worker, the stream generations and the capture counter of the retention trigger.
- ArtifactTruth.EndToEnd: does not claim that a required save whose wait ended by timeout is
  reported as TIMEOUT, because the remaining time is truncated to milliseconds and the wait may
  end just before the deadline counts as expired; which of the two errors is reported follows
  the later test of the clock, as in the source.
- ArtifactTruth.NoPathNoFile: paths are file names below one captures root; files of an earlier
  process may carry any name.
- CommandWorker.FifoMarshalling: one epoch from `start` to `stop_and_join`; a later `start`, which
  resets the sequence numbers, is not part of this model (the backend starts its worker once).
- The size of `completed_` over runs in which every wait times out.
- Retention.CapturesRoot.EnforceRetention: the directory does not change during the run; that captures may
  be committed or vanish meanwhile is modelled in `ArtifactTruth` only. Scan errors are one flag,
  and sorting is a function.
- RetentionTrigger.Maintenance.Iterate: the captures root that the maintenance thread cleans
  (`retention_root_`) and the limits taken from the configuration are not tracked.
- Catalog.Load: the errors while listing the recipes directory are one outcome, and the path checks
  of an asset reference are another, `Refused`.
- LockedDecode.DecodeLocked: buffers and rows are values that the decoder reads, the frame is an
  array it writes; formats outside the enumeration and exceptions of the colour conversion are
  not part of this model.
- `capture_with_one_retry`, `resolve_identity` and the parsing of device paths: single decisions
  over results of the camera.
- Range checks of configuration and recipe fields, error-code tables and texts, diagnostics.
- The C interface (src/c_api): structure checks, and the text and capacity rules of its result
  buffers.
- The example algorithms, the example host and the hardware smoke suite.
