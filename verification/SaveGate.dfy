/** What a sink call under `publish_mutex_` means for the other threads: who may have to wait
    for it. */
module SaveGate {
  import opened Options
  import opened SaveWorkerModel
  import opened SaveProtocol
  import opened SaveInvariant
  import opened SaveTheorems

  // ----- who waits for a sink call -------------------------------------------------------------

  /** The worker is inside `commit` or `discard`, which it calls under `publish_mutex_`. */
  predicate InSinkCall(w: WorkerPc) {
    w.WCommitting? || w.WDiscarding?
  }

  /** `executing()` and `queued()` take `mutex_` and nothing else. */
  predicate AccessorEnabled(s: State) {
    MutexFree(s)
  }

  predicate NoWorkerStep(steps: seq<Step>) {
    forall i :: 0 <= i < |steps| ==> !steps[i].Worker?
  }

  predicate NoWaitBegins(steps: seq<Step>) {
    forall i :: 0 <= i < |steps| ==> steps[i] != Client(EnterWait)
  }

  /** Whatever the other threads do, `mutex_` stays taken until the sink call returns. */
  ghost predicate HeldUp(s: State) {
    forall more :: NoWorkerStep(more) && Runnable(s, more) ==> !MutexFree(Run(s, more))
  }

  lemma HeldUpStep(s: State, step: Step)
    requires ClientInv(s.client, s.current, s.slots, s.hist.returned) && Enabled(s, step) && !step.Worker?
    requires InSinkCall(s.worker) && ClientHoldsMutex(s.client)
    ensures InSinkCall(Apply(s, step).worker) && ClientHoldsMutex(Apply(s, step).client)
  {
  }

  lemma {:induction false} HeldUpRun(s: State, more: seq<Step>)
    requires Inv(s) && Runnable(s, more) && NoWorkerStep(more)
    requires InSinkCall(s.worker) && ClientHoldsMutex(s.client)
    ensures !MutexFree(Run(s, more))
    decreases |more|
  {
    if more != [] {
      assert !more[0].Worker?;
      HeldUpStep(s, more[0]);
      StepInv(s, more[0]);
      HeldUpRun(Apply(s, more[0]), more[1..]);
    }
  }

  lemma FreeStep(s: State, step: Step)
    requires Enabled(s, step) && !step.Worker? && step != Client(EnterWait)
    requires InSinkCall(s.worker) && !Waiting(s.client)
    ensures InSinkCall(Apply(s, step).worker) && !Waiting(Apply(s, step).client)
  {
  }

  lemma {:induction false} FreeRun(s: State, more: seq<Step>)
    requires Runnable(s, more) && NoWorkerStep(more) && NoWaitBegins(more)
    requires InSinkCall(s.worker) && !Waiting(s.client)
    ensures MutexFree(Run(s, more))
    decreases |more|
  {
    if more != [] {
      assert !more[0].Worker? && more[0] != Client(EnterWait);
      FreeStep(s, more[0]);
      FreeRun(Apply(s, more[0]), more[1..]);
    }
  }

  /** When the comment on `publish_mutex_` is right, in every reachable state with a sink call
      under the gate: `mutex_` is held up for the rest of the call if and only if `wait_until`
      holds it; with no `wait_until` in progress, and none begun, it stays free throughout.
      `try_submit` never has to wait: its caller is the thread that would hold the mutex. */
  lemma HeldUpExactly(steps: seq<Step>)
    requires Runnable(INITIAL, steps) && InSinkCall(Run(INITIAL, steps).worker)
    ensures var s := Run(INITIAL, steps);
            && (HeldUp(s) <==> ClientHoldsMutex(s.client))
            && (AccessorEnabled(s) <==> !ClientHoldsMutex(s.client))
            && (s.client.CSubmitting? ==> ClientEnabled(s, TrySubmit))
            && (!Waiting(s.client) ==>
                  forall more ::
                    Runnable(s, more) && NoWorkerStep(more) && NoWaitBegins(more) ==> MutexFree(Run(s, more)))
  {
    InitialInv();
    RunInv(INITIAL, steps);
    var s := Run(INITIAL, steps);
    if ClientHoldsMutex(s.client) {
      forall more | NoWorkerStep(more) && Runnable(s, more)
        ensures !MutexFree(Run(s, more))
      {
        HeldUpRun(s, more);
      }
    } else {
      assert NoWorkerStep([]) && Runnable(s, []) && MutexFree(Run(s, []));
    }
    if !Waiting(s.client) {
      forall more | Runnable(s, more) && NoWorkerStep(more) && NoWaitBegins(more)
        ensures MutexFree(Run(s, more))
      {
        FreeRun(s, more);
      }
    }
  }

  /** The comment does fail: in this run the client holds `mutex_` and waits for the gate while
      the worker is inside `commit`; `drain` and both accessors have to wait for the sink. */
  lemma SinkCallHoldsUpDrain(job: SaveJob, deadline: nat, temp: Path) returns (steps: seq<Step>)
    ensures Runnable(INITIAL, steps)
    ensures var s := Run(INITIAL, steps);
            && s.worker.WCommitting? && s.client.CPublishing? && HeldUp(s)
            && s.drain.DEntering? && !DrainEnabled(s, StopWork) && !AccessorEnabled(s)
  {
    var s;
    steps, s := FirstWrite(job, deadline, temp);
    steps, s := Then(INITIAL, steps, s, Worker(Decide));
    steps, s := Then(INITIAL, steps, s, Drain(StartDrain));
    steps, s := Then(INITIAL, steps, s, Client(EnterWait));
    HeldUpExactly(steps);
  }
}
