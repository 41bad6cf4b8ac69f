/** Shutdown of the save worker: no wakeup is lost, `drain` cannot deadlock, and nothing
    happens after it. */
module SaveDrain {
  import opened Options
  import opened SaveWorkerModel
  import opened SaveProtocol
  import opened SaveInvariant
  import opened SaveTheorems

  /** A thread that is parked on a condition variable is parked for a reason: what it waits
      for has not happened, or the thread that will notify it already holds the mutex. */
  lemma NoLostWakeup(steps: seq<Step>)
    requires Runnable(INITIAL, steps)
    ensures var s := Run(INITIAL, steps);
            && (s.worker.WParked? ==> s.slots.executing.None? && !s.slots.stopping)
            && (s.client.CParked? ==> s.client.target !in s.slots.completed)
            && (s.drain.DParked? ==> s.slots.executing.Some? || s.worker.WRetiring?)
  {
    InitialInv();
    RunInv(INITIAL, steps);
  }

  /** The step by which a thread that holds `publish_mutex_` goes on. */
  function GateHolderStep(w: WorkerPc): WorkerStep
    requires w.WCommitting? || w.WDiscarding? || w.WRecording?
  {
    if w.WCommitting? then Committed(Err(InternalException)) else if w.WDiscarding? then Discarded else Record
  }

  ghost predicate LocksMakeWay(s: State) {
    && !(ClientHoldsMutex(s.client) && s.worker.WRetiring?)
    && (!GateFree(s) ==> !s.worker.WRetiring? && WorkerEnabled(s, GateHolderStep(s.worker)))
    && (!MutexFree(s) && GateFree(s) ==>
          || ClientEnabled(s, Publish) || ClientEnabled(s, Cancel) || ClientEnabled(s, Recover)
          || WorkerEnabled(s, Retire))
  }

  lemma HoldersGoOn(s: State)
    requires OneMutexHolder(s.client, s.worker)
    ensures LocksMakeWay(s)
  {
  }

  /** `mutex_` has one holder, and a thread that holds `publish_mutex_` waits for nobody: its
      next step is enabled whoever holds `mutex_`. */
  lemma LockOrder(steps: seq<Step>)
    requires Runnable(INITIAL, steps)
    ensures LocksMakeWay(Run(INITIAL, steps))
  {
    InitialInv();
    RunInv(INITIAL, steps);
    HoldersGoOn(Run(INITIAL, steps));
  }

  // ----- a measure that drain only lets shrink --------------------------------------------------

  function WorkerRank(sl: Slots, w: WorkerPc): nat {
    match w
    case WExited => 0
    case WReady => if sl.executing.Some? then 9 else 1
    case WParked => if sl.executing.Some? then 9 else 1
    case WWriting(_, _) => 8
    case WDeciding(_, _, _) => 7
    case WCommitting(_, _) => 6
    case WDiscarding(_, _, _) => 5
    case WRecording(_, _) => 4
    case WFinishing(_) => 3
    case WRetiring(_) => 2
  }

  function DrainRank(d: DrainPc): nat {
    match d
    case DIdle => 4
    case DEntering => 3
    case DParked => 2
    case DReady => 2
    case DJoining => 1
    case DDone => 0
  }

  /** Steps the client still has to take before it lets go of `mutex_`. */
  function ClientHold(c: ClientPc): nat {
    if c.CCancelling? then 2 else if c.CPublishing? || c.CRecovering? then 1 else 0
  }

  function Rank(s: State): nat {
    WorkerRank(s.slots, s.worker) + DrainRank(s.drain)
  }

  /** A step the worker or `drain` can take, or one by which the client releases `mutex_`. */
  predicate Progress(step: Step) {
    match step
    case Tick(_) => false
    case Client(c) => c.Publish? || c.Cancel? || c.Recover?
    case Worker(w) => !w.WakeWorker?
    case Drain(d) => d.StopWork? || d.Join? || d.Recheck?
  }

  lemma ClientKeepsRank(s: State, c: ClientStep)
    requires s.slots.stopping && ClientEnabled(s, c)
    ensures ClientApply(s, c).slots.stopping && Rank(ClientApply(s, c)) <= Rank(s)
  {
  }

  lemma WorkerLowersRank(s: State, w: WorkerStep)
    requires SlotsInv(s.slots, s.worker) && WorkerInv(s.slots, s.worker)
    requires s.slots.stopping && WorkerEnabled(s, w)
    ensures WorkerApply(s, w).slots.stopping && Rank(WorkerApply(s, w)) <= Rank(s)
    ensures !w.WakeWorker? ==> Rank(WorkerApply(s, w)) < Rank(s)
  {
  }

  /** After `stopping_` is set, no step of any thread undoes what drain has achieved, and a
      step of the worker thread achieves more. */
  lemma RankShrinks(s: State, step: Step)
    requires FieldInv(s) && s.slots.stopping && Enabled(s, step) && step != Drain(StartDrain)
    ensures Apply(s, step).slots.stopping
    ensures Rank(Apply(s, step)) <= Rank(s)
    ensures step.Worker? && !step.w.WakeWorker? ==> Rank(Apply(s, step)) < Rank(s)
  {
    match step
    case Client(c) => ClientKeepsRank(s, c);
    case Worker(w) => WorkerLowersRank(s, w);
    case _ =>
  }

  function Measure(s: State): nat {
    3 * Rank(s) + ClientHold(s.client)
  }

  /** The next step towards the end of drain: the client's if it holds `mutex_`, else the
      worker's until the worker thread has exited, else drain's own. */
  function NextStep(s: State): Step {
    if s.client.CCancelling? && (CancelNeedsGate(s.slots, s.client.target) ==> GateFree(s)) then Client(Cancel)
    else if s.client.CPublishing? && GateFree(s) then Client(Publish)
    else if s.client.CRecovering? && GateFree(s) then Client(Recover)
    else match s.worker
      case WReady => Worker(Loop)
      case WParked => Worker(WakeWorker)
      case WWriting(_, _) => Worker(Wrote(Err(InternalException)))
      case WDeciding(_, _, _) => Worker(Decide)
      case WCommitting(_, _) => Worker(Committed(Err(InternalException)))
      case WDiscarding(_, _, _) => Worker(Discarded)
      case WRecording(_, _) => Worker(Record)
      case WFinishing(_) => Worker(Relock)
      case WRetiring(_) => Worker(Retire)
      case WExited =>
        if s.drain.DEntering? then Drain(StopWork)
        else if s.drain.DReady? then Drain(Recheck)
        else Drain(Join)
  }

  /** In every reachable state after `stopping_` is set, until drain has returned, some
      thread can take a step that brings the return nearer: there is no deadlock. */
  lemma DrainProgress(s: State)
    requires FieldInv(s) && s.slots.stopping && !s.drain.DIdle? && !s.drain.DDone?
    ensures Enabled(s, NextStep(s)) && Progress(NextStep(s))
    ensures Measure(Apply(s, NextStep(s))) < Measure(s)
  {
  }

  lemma DrainFieldStep(s: State, d: DrainStep)
    requires FieldInv(s) && OrderInv(s) && DrainEnabled(s, d)
    ensures FieldInv(DrainApply(s, d)) && OrderInv(DrainApply(s, d))
  {
  }

  lemma FieldStep(s: State, step: Step)
    requires FieldInv(s) && OrderInv(s) && Enabled(s, step)
    ensures FieldInv(Apply(s, step)) && OrderInv(Apply(s, step))
  {
    match step
    case Tick(_) =>
    case Client(c) => ClientFieldInv(s, c);
    case Worker(w) =>
      WorkerFieldInv(s, w);
      WorkerOrderInv(s, w);
    case Drain(d) => DrainFieldStep(s, d);
  }

  lemma ProgressStep(s: State)
    requires FieldInv(s) && OrderInv(s) && s.slots.stopping && !s.drain.DIdle? && !s.drain.DDone?
    ensures Enabled(s, NextStep(s)) && Progress(NextStep(s))
    ensures var t := Apply(s, NextStep(s));
            FieldInv(t) && OrderInv(t) && t.slots.stopping && !t.drain.DIdle? && Measure(t) < Measure(s)
  {
    DrainProgress(s);
    FieldStep(s, NextStep(s));
    RankShrinks(s, NextStep(s));
    assert !Apply(s, NextStep(s)).drain.DIdle?;
  }

  /** `drain` returns from every reachable state in which it has begun to stop the worker. */
  lemma {:induction false} DrainReturns(s: State) returns (steps: seq<Step>)
    requires FieldInv(s) && OrderInv(s) && s.slots.stopping && !s.drain.DIdle?
    ensures |steps| <= Measure(s) && Runnable(s, steps)
    ensures forall i :: 0 <= i < |steps| ==> Progress(steps[i])
    ensures var t := Run(s, steps);
            t.drain.DDone? && t.worker.WExited? && t.slots.executing.None? && t.slots.queued.None?
    decreases Measure(s)
  {
    if s.drain.DDone? {
      steps := [];
    } else {
      ProgressStep(s);
      var rest := DrainReturns(Apply(s, NextStep(s)));
      steps := [NextStep(s)] + rest;
      assert steps[0] == NextStep(s) && steps[1..] == rest;
    }
  }

  /** The same from the start: whatever happened before, once `drain` has set `stopping_` its
      return is at most `Measure` steps of worker, drain and mutex holder away. */
  lemma DrainTerminates(before: seq<Step>) returns (steps: seq<Step>)
    requires Runnable(INITIAL, before)
    requires Run(INITIAL, before).slots.stopping && !Run(INITIAL, before).drain.DIdle?
    ensures |steps| <= Measure(Run(INITIAL, before)) <= 38
    ensures Runnable(Run(INITIAL, before), steps) && Run(Run(INITIAL, before), steps).drain.DDone?
  {
    InitialInv();
    RunInv(INITIAL, before);
    MeasureIsSmall(Run(INITIAL, before));
    steps := DrainReturns(Run(INITIAL, before));
  }

  lemma MeasureIsSmall(s: State)
    requires !s.drain.DIdle?
    ensures Measure(s) <= 38
  {
  }

  // ----- after drain -----------------------------------------------------------------------------

  predicate Drained(s: State) {
    s.slots.stopping && s.worker.WExited?
  }

  lemma DrainedStep(s: State, step: Step)
    requires FieldInv(s) && Drained(s) && Enabled(s, step)
    ensures var t := Apply(s, step);
            && Drained(t)
            && t.current == s.current
            && t.hist.temps == s.hist.temps && t.hist.commits == s.hist.commits && t.hist.discards == s.hist.discards
  {
  }

  /** Once drain has returned, no sink call and no accepted submit ever follows. */
  lemma {:induction false} NothingAfterDrain(s: State, steps: seq<Step>)
    requires Inv(s) && (s.drain.DDone? || Drained(s)) && Runnable(s, steps)
    ensures var t := Run(s, steps);
            && Drained(t)
            && t.current == s.current
            && t.hist.temps == s.hist.temps && t.hist.commits == s.hist.commits && t.hist.discards == s.hist.discards
    decreases |steps|
  {
    if steps != [] {
      DrainedStep(s, steps[0]);
      StepInv(s, steps[0]);
      NothingAfterDrain(Apply(s, steps[0]), steps[1..]);
    }
  }
}
