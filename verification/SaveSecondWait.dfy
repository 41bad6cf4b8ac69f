/** Why the client of the save worker must wait exactly once for each accepted submit
    (src/artifacts/save_worker.cpp:44-111). */
module SaveSecondWait {
  import opened Options
  import opened SaveWorkerModel
  import opened SaveProtocol
  import opened SaveInvariant
  import opened SaveTheorems

  /** The client calls `wait_until` again instead of going on to the next inspection. */
  function WaitAgain(s: State, deadline: nat): State
    requires s.client.CReturned?
  {
    s.(client := CEntering(deadline))
  }

  /** The second wait gives up as soon as it can. */
  const GIVE_UP :=
    [Client(EnterWait), Client(Publish), Client(Wake), Client(Resume(true)), Client(Cancel), Client(Recover)]

  /** The second wait on a job that was answered `completed`, in every reachable state in which
      it has to wait and can have both locks: it ends with a cancellation of a published job. */
  lemma SecondWaitMisreports(steps: seq<Step>, deadline: nat)
    requires Runnable(INITIAL, steps)
    requires Run(INITIAL, steps).client.CReturned? && Run(INITIAL, steps).client.outcome.state == Completed
    requires MutexFree(Run(INITIAL, steps)) && GateFree(Run(INITIAL, steps))
    ensures var s := Run(INITIAL, steps);
            var again := WaitAgain(s, deadline);
            && s.current in s.hist.commits
            && if EntryOf(s.slots).ReturnNow?
               then AfterEnter(again).client == CReturned(NO_OUTCOME)
               else Runnable(again, GIVE_UP) && Run(again, GIVE_UP).client == CReturned(CANCELLED_OUTCOME)
  {
    InitialInv();
    RunInv(INITIAL, steps);
    var s := Run(INITIAL, steps);
    assert Truthful(s.hist.commits, s.current, s.hist.returned[s.current]);
    assert s.current !in s.slots.completed && !HasDecision(s.gate, s.current);
    if !EntryOf(s.slots).ReturnNow? {
      GiveUpRuns(WaitAgain(s, deadline), s.current);
    }
  }

  lemma GiveUpRuns(s: State, id: nat)
    requires s.client.CEntering? && MutexFree(s) && GateFree(s) && EntryOf(s.slots) == Wait(id)
    requires id !in s.slots.completed && !HasDecision(s.gate, id)
    ensures Runnable(s, GIVE_UP) && Run(s, GIVE_UP).client == CReturned(CANCELLED_OUTCOME)
  {
    var steps, t := WaitRuns(s, id);
    steps, t := Then(s, steps, t, Client(Resume(true)));
    steps, t := Then(s, steps, t, Client(Cancel));
    steps, t := Then(s, steps, t, Client(Recover));
    assert steps == GIVE_UP;
  }

  lemma WaitRuns(s: State, id: nat) returns (steps: seq<Step>, t: State)
    requires s.client.CEntering? && MutexFree(s) && GateFree(s) && EntryOf(s.slots) == Wait(id)
    ensures steps == GIVE_UP[..3] && Runnable(s, steps) && Run(s, steps) == t
    ensures t.client == CReady(id) && t.slots == s.slots && t.worker == s.worker
    ensures t.gate.decidedId == s.gate.decidedId && t.gate.decided == s.gate.decided
  {
    steps, t := Then(s, [], s, Client(EnterWait));
    steps, t := Then(s, steps, t, Client(Publish));
    steps, t := Then(s, steps, t, Client(Wake));
  }

  /** Such a state is reached when the client loses the race against the commit: its first wait
      recovers `completed` while the worker has not yet retired the job, and a second wait
      would then report a cancellation. */
  lemma SecondWaitHappens(job: SaveJob, deadline: nat, temp: Path, path: Path) returns (steps: seq<Step>)
    requires deadline > 0
    ensures Runnable(INITIAL, steps)
    ensures var s := Run(INITIAL, steps);
            && s.client == CReturned(SaveOutcome(Completed, path, NoError))
            && s.current in s.hist.commits && s.hist.commits[s.current] == path
            && EntryOf(s.slots) == Wait(s.current)
            && Runnable(WaitAgain(s, deadline), GIVE_UP)
            && Run(WaitAgain(s, deadline), GIVE_UP).client == CReturned(CANCELLED_OUTCOME)
  {
    var s;
    steps, s := GivingUp(job, deadline, temp);
    steps, s := Then(INITIAL, steps, s, Worker(Committed(Ok(path))));
    steps, s := Then(INITIAL, steps, s, Worker(Record));
    steps, s := Then(INITIAL, steps, s, Client(Cancel));
    steps, s := Then(INITIAL, steps, s, Client(Recover));
    SecondWaitMisreports(steps, deadline);
  }

  /** The client gives up its wait while the worker is inside `commit`. */
  lemma GivingUp(job: SaveJob, deadline: nat, temp: Path) returns (steps: seq<Step>, s: State)
    requires deadline > 0
    ensures Runnable(INITIAL, steps) && Run(INITIAL, steps) == s
    ensures s.client == CCancelling(1) && s.worker == WCommitting(1, temp) && s.current == 1
    ensures s.slots == Slots(Some(job), None, 1, 0, 1, 1, map[], false)
    ensures s.gate == Gate({}, 1, Some(deadline), 0, None)
    ensures s.hist.commits == map[] && s.hist.returned == map[]
  {
    steps, s := FirstWrite(job, deadline, temp);
    steps, s := Then(INITIAL, steps, s, Client(EnterWait));
    steps, s := Then(INITIAL, steps, s, Client(Publish));
    steps, s := Then(INITIAL, steps, s, Worker(Decide));
    steps, s := Then(INITIAL, steps, s, Client(Wake));
    steps, s := Then(INITIAL, steps, s, Client(Resume(true)));
  }
}
