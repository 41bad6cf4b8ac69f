/** What the save worker promises over all runs. */
module SaveTheorems {
  import opened Options
  import opened SaveWorkerModel
  import opened SaveProtocol
  import opened SaveInvariant

  lemma {:induction false} RunInv(s: State, steps: seq<Step>)
    requires Inv(s) && Runnable(s, steps)
    ensures Inv(Run(s, steps))
    decreases |steps|
  {
    if steps != [] {
      StepInv(s, steps[0]);
      RunInv(Apply(s, steps[0]), steps[1..]);
    }
  }

  // ----- what happened stays ----------------------------------------------------------------

  /** Everything in history `h` is still there, unchanged, in `k`. */
  ghost predicate Extends(h: History, k: History) {
    && (forall id :: id in h.returned ==> id in k.returned && k.returned[id] == h.returned[id])
    && (forall id :: id in h.commits ==> id in k.commits && k.commits[id] == h.commits[id])
    && (forall id :: id in h.temps ==> id in k.temps && k.temps[id] == h.temps[id])
    && h.order <= k.order
    && h.dropped <= k.dropped && h.discards <= k.discards
  }

  lemma ClientExtends(s: State, c: ClientStep)
    requires FieldInv(s) && ClientEnabled(s, c)
    ensures Extends(s.hist, ClientApply(s, c).hist)
  {
  }

  lemma WorkerExtends(s: State, w: WorkerStep)
    requires WorkerEnabled(s, w)
    requires WorkerTruth(s.hist.commits, s.gate, s.worker) && PathInv(s.hist.temps, s.worker)
    ensures Extends(s.hist, WorkerApply(s, w).hist)
  {
  }

  lemma StepExtends(s: State, step: Step)
    requires FieldInv(s) && Enabled(s, step)
    requires WorkerTruth(s.hist.commits, s.gate, s.worker) && PathInv(s.hist.temps, s.worker)
    ensures Extends(s.hist, Apply(s, step).hist)
  {
    match step
    case Client(c) => ClientExtends(s, c);
    case Worker(w) => WorkerExtends(s, w);
    case _ =>
  }

  lemma {:induction false} RunExtends(s: State, steps: seq<Step>)
    requires Inv(s) && Runnable(s, steps)
    ensures Extends(s.hist, Run(s, steps).hist)
    decreases |steps|
  {
    if steps != [] {
      var t := Apply(s, steps[0]);
      StepInv(s, steps[0]);
      StepExtends(s, steps[0]);
      RunExtends(t, steps[1..]);
      assert s.hist.order <= t.hist.order <= Run(s, steps).hist.order;
    }
  }

  // ----- the caller is told the truth -----------------------------------------------------------

  /** In every interleaving, and however the run goes on after `wait_until` has returned:
      it returned `completed` exactly when the job's commit returned the reported path, and
      any other outcome means that the job is never committed. */
  lemma CancelPublishAgreement(before: seq<Step>, after: seq<Step>, id: nat)
    requires Runnable(INITIAL, before) && Runnable(Run(INITIAL, before), after)
    requires id in Run(INITIAL, before).hist.returned
    ensures var outcome := Run(INITIAL, before).hist.returned[id];
            var h := Run(Run(INITIAL, before), after).hist;
            && (outcome.state == Completed <==> id in h.commits)
            && (id in h.commits ==> outcome.path == h.commits[id])
  {
    InitialInv();
    RunInv(INITIAL, before);
    var s := Run(INITIAL, before);
    RunInv(s, after);
    RunExtends(s, after);
    var t := Run(s, after);
    assert Truthful(t.hist.commits, id, t.hist.returned[id]);
  }

  /** A committed job has one commit, and its temporary was not discarded as well. */
  lemma CommittedOnce(steps: seq<Step>, id: nat)
    requires Runnable(INITIAL, steps)
    ensures var h := Run(INITIAL, steps).hist;
            && |h.commits| == h.commitCount
            && (id in h.commits ==> id in h.temps && id !in h.discards && id !in h.dropped)
  {
    InitialInv();
    RunInv(INITIAL, steps);
  }

  // ----- slots --------------------------------------------------------------------------------

  /** Under the serialized client the queued slot is free at every submit, so a submit is
      refused exactly after `drain` has begun. */
  lemma NoStarvation(steps: seq<Step>)
    requires Runnable(INITIAL, steps)
    ensures var s := Run(INITIAL, steps);
            s.client.CSubmitting? ==> s.slots.queued.None? && (Accepts(s.slots) <==> !s.slots.stopping)
  {
    InitialInv();
    RunInv(INITIAL, steps);
  }

  /** The worker's slots, ids and hand-off fields in every reachable state. */
  lemma SlotDiscipline(steps: seq<Step>)
    requires Runnable(INITIAL, steps)
    ensures var s := Run(INITIAL, steps);
            var sl, g := s.slots, s.gate;
            && (MutexFree(s) && sl.queued.Some? ==> sl.executing.Some? && sl.executingId < sl.queuedId)
            && (sl.queued.Some? ==> sl.queuedId == sl.nextId)
            && sl.nextId == sl.lastSubmittedId
            && (MutexFree(s) ==> g.decidedId in {0, sl.executingId})
            && g.cancelledIds <= {sl.executingId}
            && (forall k :: k in sl.completed ==> 0 < k <= sl.nextId)
  {
    InitialInv();
    RunInv(INITIAL, steps);
  }

  /** `take` leaves `completed_` empty: the job it hands out is the newest. */
  lemma TakeEmpties(steps: seq<Step>)
    requires Runnable(INITIAL, steps)
    ensures var s := Run(INITIAL, steps);
            s.slots.lastSubmittedId in s.slots.completed ==> Taken(s.slots, s.slots.lastSubmittedId).completed == map[]
  {
    InitialInv();
    RunInv(INITIAL, steps);
  }

  /** Jobs start in submission order, each at most once, and a job that has neither started
      nor been dropped still sits in a slot. */
  lemma ExecutedInOrderOrDropped(steps: seq<Step>, id: nat)
    requires Runnable(INITIAL, steps)
    ensures var s := Run(INITIAL, steps);
            && Increasing(s.hist.order)
            && (0 < id <= s.slots.nextId <==>
                  id in s.hist.order || id in s.hist.dropped ||
                  (s.slots.queued.Some? && id == s.slots.queuedId) ||
                  (s.slots.executing.Some? && id == s.slots.executingId))
            && !(id in s.hist.order && id in s.hist.dropped)
  {
    InitialInv();
    RunInv(INITIAL, steps);
    var s := Run(INITIAL, steps);
    assert id in s.hist.order ==> id in s.hist.started;
    if 0 < id <= s.slots.nextId {
      assert id in s.hist.started || id in s.hist.dropped || id == s.slots.queuedId || id == s.slots.executingId;
    }
  }

  // ----- temporary files ---------------------------------------------------------------------

  function Unsettled(w: WorkerPc): set<nat> {
    if UnsettledId(w) == 0 then {} else {UnsettledId(w)}
  }

  lemma SizeOfUnion(a: set<nat>, b: set<nat>, c: set<nat>)
    requires a !! b !! c
    ensures |a + b + c| == |a| + |b| + |c|
  {
    assert a + b + c == (a + b) + c;
  }

  lemma SettledTemporaries(temps: map<nat, Path>, commits: map<nat, Path>, discards: set<nat>, w: WorkerPc)
    requires TempInv(temps, commits, discards, UnsettledId(w)) && 0 !in temps
    ensures temps.Keys == commits.Keys + discards + Unsettled(w)
    ensures commits.Keys !! discards !! Unsettled(w)
  {
    forall id
      ensures id in temps.Keys <==> id in commits.Keys + discards + Unsettled(w)
    {
    }
  }

  /** Every temporary the sink wrote was committed or discarded, never both and never
      twice, except the one between the two phases of `execute`. */
  lemma TemporaryConservation(steps: seq<Step>)
    requires Runnable(INITIAL, steps)
    ensures var s := Run(INITIAL, steps);
            && s.hist.temps.Keys == s.hist.commits.Keys + s.hist.discards + Unsettled(s.worker)
            && s.hist.commits.Keys !! s.hist.discards !! Unsettled(s.worker)
            && s.hist.tempCount == s.hist.commitCount + s.hist.discardCount + |Unsettled(s.worker)|
  {
    InitialInv();
    RunInv(INITIAL, steps);
    var s := Run(INITIAL, steps);
    assert 0 !in s.hist.started;
    assert 0 !in s.hist.temps;
    SettledTemporaries(s.hist.temps, s.hist.commits, s.hist.discards, s.worker);
    SizeOfUnion(s.hist.commits.Keys, s.hist.discards, Unsettled(s.worker));
    assert |s.hist.temps.Keys| == |s.hist.temps| && |s.hist.commits.Keys| == |s.hist.commits|;
  }
}
