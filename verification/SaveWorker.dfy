/** The bounded save worker of src/artifacts/save_worker.{h,cpp}: its fields, split by the
    mutex that guards them, and one operation per critical section.

    `Slots` holds what `mutex_` guards and `Gate` what `publish_mutex_` guards.  Each
    operation is given twice: as a function on these records, which the protocol in
    SaveProtocol.dfy interleaves, and as a method of the class `SaveWorker`, which updates
    the fields in place and is proved to do exactly what the function says. */
module SaveWorkerModel {
  import opened Options

  type Path = string

  datatype ErrorCode = NoError | InternalException | Detail(code: nat)

  datatype SaveState = Idle | Completed | Cancelled | Failed

  datatype SaveOutcome = SaveOutcome(state: SaveState, path: Path, error: ErrorCode)

  /** `SaveOutcome{}` of the source. */
  const NO_OUTCOME := SaveOutcome(Idle, "", NoError)

  const CANCELLED_OUTCOME := SaveOutcome(Cancelled, "", NoError)

  datatype SaveJob = SaveJob(recipeId: string, requestId: string, sequence: nat)

  /** The fields guarded by `mutex_`. */
  datatype Slots = Slots(
    executing: Option<SaveJob>,
    queued: Option<SaveJob>,
    executingId: nat,
    queuedId: nat,
    nextId: nat,
    lastSubmittedId: nat,
    completed: map<nat, SaveOutcome>,
    stopping: bool)

  /** The fields guarded by `publish_mutex_`. */
  datatype Gate = Gate(
    cancelledIds: set<nat>,
    awaitedId: nat,
    awaitedDeadline: Option<nat>,
    decidedId: nat,
    decided: Option<SaveOutcome>)

  const EMPTY_SLOTS := Slots(None, None, 0, 0, 0, 0, map[], false)

  const EMPTY_GATE := Gate({}, 0, None, 0, None)

  // ----- try_submit -------------------------------------------------------------------

  function Accepts(s: Slots): bool {
    !s.stopping && (s.executing.None? || s.queued.None?)
  }

  function Submit(s: Slots, job: SaveJob): Slots {
    var id := s.nextId + 1;
    if s.stopping then s
    else if s.executing.None? then
      s.(nextId := id, executing := Some(job), executingId := id, lastSubmittedId := id)
    else if s.queued.None? then
      s.(nextId := id, queued := Some(job), queuedId := id, lastSubmittedId := id)
    else s
  }

  // ----- wait_until -------------------------------------------------------------------

  /** What `wait_until` does before it blocks: return at once, or wait for `target`. */
  datatype Entry = ReturnNow(outcome: SaveOutcome) | Wait(target: nat)

  /** `take()`: hands out `target`'s outcome and forgets it and every older one. */
  function Taken(s: Slots, target: nat): Slots {
    if target in s.completed
    then s.(completed := map k | k in s.completed && target < k :: s.completed[k])
    else s
  }

  function Outcome(s: Slots, target: nat): SaveOutcome {
    if target in s.completed then s.completed[target] else NO_OUTCOME
  }

  function EntryOf(s: Slots): Entry {
    var target := s.lastSubmittedId;
    if target == 0 then ReturnNow(NO_OUTCOME)
    else if target in s.completed then ReturnNow(s.completed[target])
    else if s.executing.None? && s.queued.None? then ReturnNow(NO_OUTCOME)
    else Wait(target)
  }

  function Entered(s: Slots): Slots {
    if s.lastSubmittedId == 0 then s else Taken(s, s.lastSubmittedId)
  }

  function Awaited(g: Gate, target: nat, deadline: nat): Gate {
    g.(awaitedId := target, awaitedDeadline := Some(deadline))
  }

  // ----- cancel_target, cancel_pending and the recovery after a lost race ----------------

  function QueueDropped(s: Slots): Slots {
    s.(queued := None, queuedId := 0)
  }

  /** True when `cancel_target` has to take `publish_mutex_`. */
  predicate CancelNeedsGate(s: Slots, target: nat) {
    target != 0 && s.queuedId != target && s.executingId == target
  }

  function CancelledSlots(s: Slots, target: nat): Slots {
    if target != 0 && s.queuedId == target then QueueDropped(s) else s
  }

  function CancelledGate(s: Slots, g: Gate, target: nat): Gate {
    if CancelNeedsGate(s, target) && g.decidedId != target
    then g.(cancelledIds := g.cancelledIds + {target})
    else g
  }

  predicate HasDecision(g: Gate, target: nat) {
    g.decidedId == target && g.decided.Some?
  }

  function RecoveredGate(g: Gate, target: nat): Gate {
    if HasDecision(g, target) then g.(decidedId := 0, decided := None) else g
  }

  function RecoveredOutcome(g: Gate, target: nat): SaveOutcome {
    if HasDecision(g, target) then g.decided.value else CANCELLED_OUTCOME
  }

  // ----- execute (second phase) and worker_loop -------------------------------------------

  /** `is_cancelled_locked(id) || deadline_expired_locked(id)` at time `now`. */
  predicate Withdrawn(g: Gate, id: nat, now: nat) {
    id in g.cancelledIds || (g.awaitedId == id && g.awaitedDeadline.Some? && now >= g.awaitedDeadline.value)
  }

  function AwaitCleared(g: Gate, id: nat): Gate {
    if g.awaitedId == id then g.(awaitedId := 0, awaitedDeadline := None) else g
  }

  function Recorded(g: Gate, id: nat, outcome: SaveOutcome): Gate {
    AwaitCleared(g.(decidedId := id, decided := Some(outcome), cancelledIds := g.cancelledIds - {id}), id)
  }

  function ExecutingReset(s: Slots): Slots {
    s.(executing := None, executingId := 0)
  }

  function Collected(s: Slots, g: Gate, id: nat): Slots {
    if HasDecision(g, id) then s.(completed := s.completed[id := g.decided.value]) else s
  }

  function Promoted(s: Slots): Slots {
    if !s.stopping && s.queued.Some?
    then s.(executing := s.queued, executingId := s.queuedId, queued := None, queuedId := 0)
    else s
  }

  function CollectedGate(g: Gate, id: nat): Gate {
    var emptied := if HasDecision(g, id) then g.(decided := None) else g;
    AwaitCleared(emptied.(decidedId := 0, cancelledIds := g.cancelledIds - {id}), id)
  }

  // ----- drain ------------------------------------------------------------------------------

  function Stopped(s: Slots): Slots {
    QueueDropped(s).(stopping := true)
  }

  /** The worker object.  Every method is one critical section; where the source takes
      `publish_mutex_` inside a section of `mutex_`, each inner section is its own method. */
  class SaveWorker {
    // guarded by mutex_
    var executingJob: Option<SaveJob>
    var queuedJob: Option<SaveJob>
    var executingId: nat
    var queuedId: nat
    var nextId: nat
    var lastSubmittedId: nat
    var completed: map<nat, SaveOutcome>
    var stopping: bool

    // guarded by publish_mutex_
    var cancelledIds: set<nat>
    var awaitedId: nat
    var awaitedDeadline: Option<nat>
    var decidedId: nat
    var decidedOutcome: Option<SaveOutcome>

    function SlotsView(): Slots
      reads this
    {
      Slots(executingJob, queuedJob, executingId, queuedId, nextId, lastSubmittedId, completed, stopping)
    }

    function GateView(): Gate
      reads this
    {
      Gate(cancelledIds, awaitedId, awaitedDeadline, decidedId, decidedOutcome)
    }

    constructor ()
      ensures SlotsView() == EMPTY_SLOTS && GateView() == EMPTY_GATE
    {
      executingJob, queuedJob, executingId, queuedId := None, None, 0, 0;
      nextId, lastSubmittedId, completed, stopping := 0, 0, map[], false;
      cancelledIds, awaitedId, awaitedDeadline := {}, 0, None;
      decidedId, decidedOutcome := 0, None;
    }

    method TrySubmit(job: SaveJob) returns (accepted: bool)
      modifies this
      ensures accepted == Accepts(old(SlotsView()))
      ensures SlotsView() == Submit(old(SlotsView()), job)
      ensures GateView() == old(GateView())
    {
      if stopping {
        return false;
      }
      if executingJob.None? {
        nextId := nextId + 1;
        executingJob := Some(job);
        executingId := nextId;
        lastSubmittedId := nextId;
        return true;
      }
      if queuedJob.None? {
        nextId := nextId + 1;
        queuedJob := Some(job);
        queuedId := nextId;
        lastSubmittedId := nextId;
        return true;
      }
      return false;
    }

    method Take(target: nat) returns (outcome: SaveOutcome)
      modifies this
      ensures outcome == Outcome(old(SlotsView()), target)
      ensures SlotsView() == Taken(old(SlotsView()), target)
      ensures GateView() == old(GateView())
    {
      if target !in completed {
        return NO_OUTCOME;
      }
      outcome := completed[target];
      completed := completed - {target};
      completed := map k | k in completed && target <= k :: completed[k];
      assert completed == map k | k in old(completed) && target < k :: old(completed)[k];
    }

    /** `wait_until` up to the point where it takes `publish_mutex_` for the first time. */
    method BeginWait() returns (entry: Entry)
      modifies this
      ensures entry == EntryOf(old(SlotsView()))
      ensures SlotsView() == Entered(old(SlotsView()))
      ensures GateView() == old(GateView())
    {
      var target := lastSubmittedId;
      if target == 0 {
        return ReturnNow(NO_OUTCOME);
      }
      if target in completed {
        var outcome := Take(target);
        return ReturnNow(outcome);
      }
      if executingJob.None? && queuedJob.None? {
        return ReturnNow(NO_OUTCOME);
      }
      return Wait(target);
    }

    method PublishDeadline(target: nat, deadline: nat)
      modifies this
      ensures GateView() == Awaited(old(GateView()), target, deadline)
      ensures SlotsView() == old(SlotsView())
    {
      awaitedId := target;
      awaitedDeadline := Some(deadline);
    }

    method CancelTarget(target: nat)
      modifies this
      ensures SlotsView() == CancelledSlots(old(SlotsView()), target)
      ensures GateView() == CancelledGate(old(SlotsView()), old(GateView()), target)
    {
      if target == 0 {
        return;
      }
      if queuedId == target {
        queuedJob := None;
        queuedId := 0;
        return;
      }
      if executingId != target {
        return;
      }
      if decidedId == target {
        return;
      }
      cancelledIds := cancelledIds + {target};
    }

    /** After a lost race: the decided outcome if there is one, else a cancellation. */
    method Recover(target: nat) returns (outcome: SaveOutcome)
      modifies this
      ensures outcome == RecoveredOutcome(old(GateView()), target)
      ensures GateView() == RecoveredGate(old(GateView()), target)
      ensures SlotsView() == old(SlotsView())
    {
      if decidedId == target && decidedOutcome.Some? {
        outcome := decidedOutcome.value;
        decidedOutcome := None;
        decidedId := 0;
        return;
      }
      outcome := CANCELLED_OUTCOME;
    }

    method CancelPending()
      modifies this
      ensures SlotsView() == QueueDropped(old(SlotsView()))
      ensures GateView() == old(GateView())
    {
      queuedJob := None;
      queuedId := 0;
    }

    /** The part of `drain` before it waits for the executing job. */
    method Stop()
      modifies this
      ensures SlotsView() == Stopped(old(SlotsView()))
      ensures GateView() == old(GateView())
    {
      stopping := true;
      queuedJob := None;
      queuedId := 0;
    }

    method IsWithdrawn(id: nat, now: nat) returns (withdrawn: bool)
      ensures withdrawn == Withdrawn(GateView(), id, now)
    {
      withdrawn := id in cancelledIds ||
                   (awaitedId == id && awaitedDeadline.Some? && now >= awaitedDeadline.value);
    }

    /** The end of `execute`: stores the decision for the worker loop or a late waiter. */
    method RecordDecision(id: nat, outcome: SaveOutcome)
      modifies this
      ensures GateView() == Recorded(old(GateView()), id, outcome)
      ensures SlotsView() == old(SlotsView())
    {
      decidedId := id;
      decidedOutcome := Some(outcome);
      cancelledIds := cancelledIds - {id};
      if awaitedId == id {
        awaitedId := 0;
        awaitedDeadline := None;
      }
    }

    /** The worker loop after `execute`, as soon as it holds `mutex_` again. */
    method ResetExecuting()
      modifies this
      ensures SlotsView() == ExecutingReset(old(SlotsView()))
      ensures GateView() == old(GateView())
    {
      executingJob := None;
      executingId := 0;
    }

    /** Its inner section under `publish_mutex_`: the decision moves into `completed_`. */
    method CollectDecision(id: nat)
      modifies this
      ensures SlotsView() == Collected(old(SlotsView()), old(GateView()), id)
      ensures GateView() == CollectedGate(old(GateView()), id)
    {
      if decidedId == id && decidedOutcome.Some? {
        completed := completed[id := decidedOutcome.value];
        decidedOutcome := None;
      }
      decidedId := 0;
      cancelledIds := cancelledIds - {id};
      if awaitedId == id {
        awaitedId := 0;
        awaitedDeadline := None;
      }
    }

    method PromoteQueued()
      modifies this
      ensures SlotsView() == Promoted(old(SlotsView()))
      ensures GateView() == old(GateView())
    {
      if !stopping && queuedJob.Some? {
        executingJob := queuedJob;
        executingId := queuedId;
        queuedJob := None;
        queuedId := 0;
      }
    }
  }
}
