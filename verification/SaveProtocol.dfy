/** The save worker, its one serialized client and `drain` as interleaved threads.

    A step is one critical section, one call into the sink, one parking on a condition
    variable or one wakeup.  The inspection gate (src/runtime/context.cpp:375-381) makes the
    client a single thread that waits exactly once for each accepted submit; a timed wait may
    end at any moment, and parked threads may wake spuriously.  A thread's program counter
    says which mutex it holds; `hist` records what happened and is read by no step. */
module SaveProtocol {
  import opened Options
  import opened SaveWorkerModel

  datatype WorkerPc =
    | WReady                                              // about to lock mutex_ and test work_cv_'s predicate
    | WParked                                             // waiting on work_cv_
    | WWriting(id: nat, job: SaveJob)                     // inside sink_.write_temp, no mutex
    | WDeciding(id: nat, written: Option<Path>, error: ErrorCode)  // about to lock publish_mutex_
    | WCommitting(id: nat, temp: Path)                    // inside sink_.commit, holds publish_mutex_
    | WDiscarding(id: nat, temp: Path, outcome: SaveOutcome)    // inside sink_.discard, holds publish_mutex_
    | WRecording(id: nat, outcome: SaveOutcome)           // holds publish_mutex_
    | WFinishing(id: nat)                                 // about to lock mutex_ again
    | WRetiring(id: nat)                                  // holds mutex_, about to lock publish_mutex_
    | WExited

  datatype ClientPc =
    | CIdle
    | CSubmitting(job: SaveJob, deadline: nat)
    | CRefused
    | CEntering(deadline: nat)                            // wait_until about to lock mutex_
    | CPublishing(target: nat, deadline: nat)             // holds mutex_, about to lock publish_mutex_
    | CParked(target: nat)                                // waiting on state_cv_
    | CReady(target: nat)                                 // woken or timed out, about to lock mutex_
    | CCancelling(target: nat)                            // holds mutex_, gave up
    | CRecovering(target: nat)                            // holds mutex_, about to lock publish_mutex_
    | CReturned(outcome: SaveOutcome)

  datatype DrainPc = DIdle | DEntering | DParked | DReady | DJoining | DDone

  /** What happened so far, by job id. */
  datatype History = History(
    started: set<nat>,
    order: seq<nat>,    // the started jobs, first to last
    temps: map<nat, Path>,
    commits: map<nat, Path>,
    discards: set<nat>,
    dropped: set<nat>,
    returned: map<nat, SaveOutcome>,
    tempCount: nat,
    commitCount: nat,
    discardCount: nat)

  datatype State = State(
    slots: Slots,
    gate: Gate,
    now: nat,
    worker: WorkerPc,
    client: ClientPc,
    current: nat,       // the id of the client's latest accepted submit
    drain: DrainPc,
    hist: History)

  const INITIAL := State(EMPTY_SLOTS, EMPTY_GATE, 0, WReady, CIdle, 0, DIdle,
                         History({}, [], map[], map[], {}, {}, map[], 0, 0, 0))

  predicate ClientHoldsMutex(c: ClientPc) {
    c.CPublishing? || c.CCancelling? || c.CRecovering?
  }

  predicate MutexFree(s: State) {
    !ClientHoldsMutex(s.client) && !s.worker.WRetiring?
  }

  /** The client takes and leaves `publish_mutex_` within one step. */
  predicate GateFree(s: State) {
    !s.worker.WCommitting? && !s.worker.WDiscarding? && !s.worker.WRecording?
  }

  // ----- the client: finalize_post_frame's calls into the worker ---------------------------

  datatype ClientStep =
    | Begin(job: SaveJob, deadline: nat)
    | TrySubmit
    | EnterWait
    | Publish
    | Wake
    | Resume(gaveUp: bool)
    | Cancel
    | Recover
    | Finish

  predicate ClientEnabled(s: State, c: ClientStep) {
    match c
    case Begin(_, _) => s.client.CIdle?
    case TrySubmit => s.client.CSubmitting? && MutexFree(s)
    case EnterWait => s.client.CEntering? && MutexFree(s)
    case Publish => s.client.CPublishing? && GateFree(s)
    case Wake => s.client.CParked?
    case Resume(_) => s.client.CReady? && MutexFree(s)
    case Cancel => s.client.CCancelling? && (CancelNeedsGate(s.slots, s.client.target) ==> GateFree(s))
    case Recover => s.client.CRecovering? && GateFree(s)
    case Finish => s.client.CRefused? || (s.client.CReturned? && MutexFree(s))
  }

  function NotifyWork(w: WorkerPc): WorkerPc {
    if w.WParked? then WReady else w
  }

  function Returning(s: State, outcome: SaveOutcome): State {
    s.(client := CReturned(outcome), hist := s.hist.(returned := s.hist.returned[s.current := outcome]))
  }

  function QueuedIds(s: Slots): set<nat> {
    if s.queued.Some? then {s.queuedId} else {}
  }

  function Dropping(h: History, ids: set<nat>): History {
    h.(dropped := h.dropped + ids)
  }

  function AfterSubmit(s: State): State
    requires ClientEnabled(s, TrySubmit)
  {
    if Accepts(s.slots) then
      var slots := Submit(s.slots, s.client.job);
      s.(slots := slots, current := slots.lastSubmittedId, client := CEntering(s.client.deadline),
         worker := if s.slots.executing.None? then NotifyWork(s.worker) else s.worker)
    else s.(client := CRefused)
  }

  function AfterEnter(s: State): State
    requires ClientEnabled(s, EnterWait)
  {
    match EntryOf(s.slots)
    case ReturnNow(outcome) => Returning(s.(slots := Entered(s.slots)), outcome)
    case Wait(target) => s.(client := CPublishing(target, s.client.deadline))
  }

  function AfterResume(s: State, gaveUp: bool): State
    requires ClientEnabled(s, Resume(gaveUp))
  {
    var target := s.client.target;
    if target in s.slots.completed
    then Returning(s.(slots := Taken(s.slots, target)), Outcome(s.slots, target))
    else if gaveUp then s.(client := CCancelling(target))
    else s.(client := CParked(target))
  }

  /** `cancel_target` and the look at `completed_` that follows it. */
  function AfterCancel(s: State): State
    requires ClientEnabled(s, Cancel)
  {
    var target := s.client.target;
    var dropped := if target != 0 && s.slots.queuedId == target then QueuedIds(s.slots) else {};
    var t := s.(slots := CancelledSlots(s.slots, target),
                gate := CancelledGate(s.slots, s.gate, target),
                hist := Dropping(s.hist, dropped));
    if target in t.slots.completed
    then Returning(t.(slots := Taken(t.slots, target)), Outcome(t.slots, target))
    else t.(client := CRecovering(target))
  }

  function AfterFinish(s: State): State
    requires ClientEnabled(s, Finish)
  {
    if s.client.CReturned? && s.client.outcome.state != Completed
    then s.(slots := QueueDropped(s.slots), hist := Dropping(s.hist, QueuedIds(s.slots)), client := CIdle)
    else s.(client := CIdle)
  }

  function ClientApply(s: State, c: ClientStep): State
    requires ClientEnabled(s, c)
  {
    match c
    case Begin(job, deadline) => s.(client := CSubmitting(job, deadline))
    case TrySubmit => AfterSubmit(s)
    case EnterWait => AfterEnter(s)
    case Publish => s.(gate := Awaited(s.gate, s.client.target, s.client.deadline), client := CParked(s.client.target))
    case Wake => s.(client := CReady(s.client.target))
    case Resume(gaveUp) => AfterResume(s, gaveUp)
    case Cancel => AfterCancel(s)
    case Recover =>
      Returning(s.(gate := RecoveredGate(s.gate, s.client.target)), RecoveredOutcome(s.gate, s.client.target))
    case Finish => AfterFinish(s)
  }

  // ----- the worker thread -----------------------------------------------------------------

  /** The result of a sink call; an exception counts as `InternalException`. */
  datatype SinkResult = Ok(path: Path) | Err(error: ErrorCode)

  datatype WorkerStep =
    | WakeWorker
    | Loop
    | Wrote(written: SinkResult)
    | Decide
    | Committed(committed: SinkResult)
    | Discarded
    | Record
    | Relock
    | Retire

  predicate WorkerEnabled(s: State, w: WorkerStep) {
    match w
    case WakeWorker => s.worker.WParked?
    case Loop => s.worker.WReady? && MutexFree(s)
    case Wrote(_) => s.worker.WWriting?
    case Decide => s.worker.WDeciding? && GateFree(s)
    case Committed(_) => s.worker.WCommitting?
    case Discarded => s.worker.WDiscarding?
    case Record => s.worker.WRecording?
    case Relock => s.worker.WFinishing? && MutexFree(s)
    case Retire => s.worker.WRetiring? && GateFree(s)
  }

  function Failure(error: ErrorCode): SaveOutcome {
    SaveOutcome(Failed, "", error)
  }

  function AfterLoop(s: State): State {
    if s.slots.executing.Some? then
      s.(worker := WWriting(s.slots.executingId, s.slots.executing.value),
         hist := s.hist.(started := s.hist.started + {s.slots.executingId},
                         order := s.hist.order + [s.slots.executingId]))
    else if s.slots.stopping then s.(worker := WExited)
    else s.(worker := WParked)
  }

  function AfterWrite(s: State, written: SinkResult): State
    requires WorkerEnabled(s, Wrote(written))
  {
    var id := s.worker.id;
    match written
    case Err(error) => s.(worker := WDeciding(id, None, error))
    case Ok(path) =>
      s.(worker := WDeciding(id, Some(path), NoError),
         hist := s.hist.(temps := s.hist.temps[id := path], tempCount := s.hist.tempCount + 1))
  }

  function AfterDecide(s: State): State
    requires WorkerEnabled(s, Decide)
  {
    var WDeciding(id, written, error) := s.worker;
    if written.None? then s.(worker := WRecording(id, Failure(error)))
    else if Withdrawn(s.gate, id, s.now) then s.(worker := WDiscarding(id, written.value, CANCELLED_OUTCOME))
    else s.(worker := WCommitting(id, written.value))
  }

  function AfterCommit(s: State, committed: SinkResult): State
    requires WorkerEnabled(s, Committed(committed))
  {
    var WCommitting(id, temp) := s.worker;
    match committed
    case Err(error) => s.(worker := WDiscarding(id, temp, Failure(error)))
    case Ok(path) =>
      s.(worker := WRecording(id, SaveOutcome(Completed, path, NoError)),
         hist := s.hist.(commits := s.hist.commits[id := path], commitCount := s.hist.commitCount + 1))
  }

  function AfterDiscard(s: State): State
    requires WorkerEnabled(s, Discarded)
  {
    s.(worker := WRecording(s.worker.id, s.worker.outcome),
       hist := s.hist.(discards := s.hist.discards + {s.worker.id}, discardCount := s.hist.discardCount + 1))
  }

  function NotifyClient(c: ClientPc): ClientPc {
    if c.CParked? then CReady(c.target) else c
  }

  function NotifyDrain(d: DrainPc): DrainPc {
    if d.DParked? then DReady else d
  }

  /** Collects the decision, promotes the queued job and notifies everyone on `state_cv_`. */
  function AfterRetire(s: State): State
    requires WorkerEnabled(s, Retire)
  {
    var id := s.worker.id;
    s.(slots := Promoted(Collected(s.slots, s.gate, id)), gate := CollectedGate(s.gate, id), worker := WReady,
       client := NotifyClient(s.client), drain := NotifyDrain(s.drain))
  }

  function WorkerApply(s: State, w: WorkerStep): State
    requires WorkerEnabled(s, w)
  {
    match w
    case WakeWorker => s.(worker := WReady)
    case Loop => AfterLoop(s)
    case Wrote(written) => AfterWrite(s, written)
    case Decide => AfterDecide(s)
    case Committed(committed) => AfterCommit(s, committed)
    case Discarded => AfterDiscard(s)
    case Record => s.(gate := Recorded(s.gate, s.worker.id, s.worker.outcome), worker := WFinishing(s.worker.id))
    case Relock => s.(slots := ExecutingReset(s.slots), worker := WRetiring(s.worker.id))
    case Retire => AfterRetire(s)
  }

  // ----- drain -------------------------------------------------------------------------------

  datatype DrainStep = StartDrain | StopWork | WakeDrain | Recheck | Join

  predicate DrainEnabled(s: State, d: DrainStep) {
    match d
    case StartDrain => s.drain.DIdle? || s.drain.DDone?
    case StopWork => s.drain.DEntering? && MutexFree(s)
    case WakeDrain => s.drain.DParked?
    case Recheck => s.drain.DReady? && MutexFree(s)
    case Join => s.drain.DJoining? && s.worker.WExited?
  }

  function AwaitingExecution(s: Slots): DrainPc {
    if s.executing.Some? then DParked else DJoining
  }

  function DrainApply(s: State, d: DrainStep): State
    requires DrainEnabled(s, d)
  {
    match d
    case StartDrain => s.(drain := DEntering)
    case StopWork =>
      s.(slots := Stopped(s.slots), hist := Dropping(s.hist, QueuedIds(s.slots)),
         worker := NotifyWork(s.worker), drain := AwaitingExecution(s.slots))
    case WakeDrain => s.(drain := DReady)
    case Recheck => s.(drain := AwaitingExecution(s.slots))
    case Join => s.(drain := DDone)
  }

  // ----- behaviours ----------------------------------------------------------------------------

  datatype Step = Tick(elapsed: nat) | Client(c: ClientStep) | Worker(w: WorkerStep) | Drain(d: DrainStep)

  predicate Enabled(s: State, step: Step) {
    match step
    case Tick(_) => true
    case Client(c) => ClientEnabled(s, c)
    case Worker(w) => WorkerEnabled(s, w)
    case Drain(d) => DrainEnabled(s, d)
  }

  function Apply(s: State, step: Step): State
    requires Enabled(s, step)
  {
    match step
    case Tick(elapsed) => s.(now := s.now + elapsed)
    case Client(c) => ClientApply(s, c)
    case Worker(w) => WorkerApply(s, w)
    case Drain(d) => DrainApply(s, d)
  }

  /** `steps` can be taken one after the other from `s`. */
  predicate Runnable(s: State, steps: seq<Step>)
    decreases |steps|
  {
    steps == [] || (Enabled(s, steps[0]) && Runnable(Apply(s, steps[0]), steps[1..]))
  }

  function Run(s: State, steps: seq<Step>): State
    requires Runnable(s, steps)
    decreases |steps|
  {
    if steps == [] then s else Run(Apply(s, steps[0]), steps[1..])
  }

  lemma {:induction false} RunConcat(s: State, a: seq<Step>, b: seq<Step>)
    requires Runnable(s, a) && Runnable(Run(s, a), b)
    ensures Runnable(s, a + b) && Run(s, a + b) == Run(Run(s, a), b)
    decreases |a|
  {
    if a == [] {
      assert a + b == b;
    } else {
      assert (a + b)[1..] == a[1..] + b;
      RunConcat(Apply(s, a[0]), a[1..], b);
    }
  }

  /** Writing down a run step by step. */
  lemma Then(start: State, steps: seq<Step>, s: State, step: Step) returns (steps': seq<Step>, s': State)
    requires Runnable(start, steps) && Run(start, steps) == s && Enabled(s, step)
    ensures steps' == steps + [step] && s' == Apply(s, step)
    ensures Runnable(start, steps') && Run(start, steps') == s'
  {
    assert [step][1..] == [];
    RunConcat(start, steps, [step]);
    steps', s' := steps + [step], Apply(s, step);
  }

  /** The run in which the first job has been submitted and its temporary written. */
  lemma FirstWrite(job: SaveJob, deadline: nat, temp: Path) returns (steps: seq<Step>, s: State)
    ensures Runnable(INITIAL, steps) && Run(INITIAL, steps) == s
    ensures s.client == CEntering(deadline) && s.worker == WDeciding(1, Some(temp), NoError) && s.drain == DIdle
    ensures s.slots == Slots(Some(job), None, 1, 0, 1, 1, map[], false) && s.gate == EMPTY_GATE && s.now == 0
    ensures s.current == 1 && s.hist.commits == map[] && s.hist.returned == map[]
  {
    steps, s := Then(INITIAL, [], INITIAL, Client(Begin(job, deadline)));
    steps, s := Then(INITIAL, steps, s, Client(TrySubmit));
    steps, s := Then(INITIAL, steps, s, Worker(Loop));
    steps, s := Then(INITIAL, steps, s, Worker(Wrote(Ok(temp))));
  }
}
