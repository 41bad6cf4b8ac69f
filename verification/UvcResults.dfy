/** When a backend call returns a frame, as an equivalence over every run, and a run that does
    (src/camera/uvc_windows/uvc_backend.cpp:922-944, 1096-1108, 1479-1534). */
module UvcResults {
  import opened Options
  import K = CommandWorker
  import S = UvcSession
  import O = UvcOutcomes
  import opened UvcBackend

  /** The read wait ended with a sample of success status that was converted. */
  predicate IsFrame(end: WaitEnd) {
    end.recorded.Some? && O.YieldsFrame(end.recorded.value, end.refreshOk, end.convertOk)
  }

  /** The call's latest read wait ended so. */
  predicate HasFrame(waits: map<nat, WaitEnd>, call: nat) {
    call in waits && IsFrame(waits[call])
  }

  /** The result is a frame exactly if the latest read wait yields one, and then that one. */
  ghost predicate Matches(waits: map<nat, WaitEnd>, call: nat, r: S.Result) {
    && (r.Frame? <==> HasFrame(waits, call))
    && (r.Frame? ==> r.read == waits[call].read && r.generation == waits[call].generation)
  }

  ghost predicate BodyWaits(waits: map<nat, WaitEnd>, b: S.Body) {
    !b.NoCommand? ==> if b.Returning? then Matches(waits, b.call, b.result) else !HasFrame(waits, b.call)
  }

  ghost predicate SlotWaits(waits: map<nat, WaitEnd>, b: S.Body, outcomes: map<nat, S.Result>) {
    forall c :: c in outcomes && (b.NoCommand? || c != b.call) ==> Matches(waits, c, outcomes[c])
  }

  ghost predicate WaitsInv(y: System) {
    BodyWaits(y.waits, y.s.body) && SlotWaits(y.waits, y.s.body, y.outcomes)
  }

  /** No other step of a command answers with a frame. */
  lemma OnlyReadWaitsYieldFrames(s: S.Session, t: S.SessionStep)
    requires S.Enabled(s, t) && !t.ReadWaitEnds? && !t.Enter? && !t.Leave?
    ensures var b := S.Apply(s, t).body;
            b.Returning? && b.result.Frame? ==> b == s.body
  {
  }

  lemma StreamBodyWaits(y: System, t: S.SessionStep)
    requires S.Inv(y.s) && BodyWaits(y.waits, y.s.body) && Enabled(y, Stream(t))
    ensures BodyWaits(AfterStream(y, t).waits, AfterStream(y, t).s.body)
  {
    S.StepKeeps(y.s, t);
    match t
    case ReadWaitEnds(_, _, _, _) => ReadWaitBody(y, t);
    case _ =>
      OnlyReadWaitsYieldFrames(y.s, t);
      if y.s.body.Returning? {
        StreamReturnsOnce(y.s, t);
      }
  }

  lemma ReadWaitBody(y: System, t: S.SessionStep)
    requires S.Inv(y.s) && Enabled(y, Stream(t)) && t.ReadWaitEnds?
    ensures BodyWaits(AfterStream(y, t).waits, AfterStream(y, t).s.body)
  {
    O.ReadWaitExactly(y.s, t.timedOut, t.expired, t.refreshOk, t.convertOk);
  }

  lemma StreamReturnsOnce(s: S.Session, t: S.SessionStep)
    requires S.Enabled(s, t) && !t.Enter? && !t.Leave? && s.body.Returning?
    ensures S.Apply(s, t).body == s.body
  {
  }

  lemma StreamSlotWaits(y: System, t: S.SessionStep)
    requires SlotWaits(y.waits, y.s.body, y.outcomes) && Enabled(y, Stream(t))
    ensures var z := AfterStream(y, t); SlotWaits(z.waits, z.s.body, z.outcomes)
  {
    S.StepKeeps(y.s, t);
  }

  lemma MarshalWaits(y: System, m: K.Step<Task>)
    requires BodyInv(y.k.worker, y.s.body) && WaitsInv(y) && Enabled(y, Marshal(m))
    ensures WaitsInv(AfterMarshal(y, m))
  {
  }

  lemma StepWaits(y: System, step: Step)
    requires Inv(y) && WaitsInv(y) && Enabled(y, step)
    ensures WaitsInv(Apply(y, step))
  {
    match step
    case Marshal(m) => MarshalWaits(y, m);
    case Stream(t) =>
      StreamBodyWaits(y, t);
      StreamSlotWaits(y, t);
  }

  lemma {:induction false} RunWaits(y: System, steps: seq<Step>)
    requires Inv(y) && WaitsInv(y) && Runnable(y, steps)
    ensures Inv(Run(y, steps)) && WaitsInv(Run(y, steps))
    decreases |steps|
  {
    if steps != [] {
      StepInv(y, steps[0]);
      StepWaits(y, steps[0]);
      RunWaits(Apply(y, steps[0]), steps[1..]);
    }
  }

  /** A call that was told `completed` is not the one being executed. */
  lemma CompletedIsOver(y: System, call: nat)
    requires Inv(y) && HasReturned(y, call) && y.k.callers[call].state.Completed?
    ensures call in y.outcomes && (y.s.body.NoCommand? || y.s.body.call != call)
  {
    var r := y.k.callers[call];
    assert K.CallerInv(r, y.k.core, y.k.worker, |y.k.started|);
    assert y.k.finished[r.queuedAs.value - 1] == r.queuedAs.value;
  }

  /** In every run, a call that has returned hands out a frame if and only if it was told
      `completed` and its latest read wait ended with a recorded completion of success status,
      with a sample, after a successful refresh if the media type had changed, and with a
      successful conversion; and it is that read's frame on that generation. */
  lemma FrameExactly(steps: seq<Step>, call: nat)
    requires Runnable(INITIAL, steps) && HasReturned(Run(INITIAL, steps), call)
    ensures var y := Run(INITIAL, steps);
            && (y.k.callers[call].state.Completed? ==> call in y.outcomes)
            && var f := Finalized(y, call);
               && (f.FromSlot? && f.result.Frame? <==> y.k.callers[call].state.Completed? && HasFrame(y.waits, call))
               && (f.FromSlot? && f.result.Frame? ==>
                     f.result.read == y.waits[call].read && f.result.generation == y.waits[call].generation)
  {
    InitialInv();
    RunWaits(INITIAL, steps);
    var y := Run(INITIAL, steps);
    if y.k.callers[call].state.Completed? {
      CompletedIsOver(y, call);
    }
  }

  /** The answer of a call follows what `submit` told it; a completed call hands out its slot. */
  lemma FinalizedExactly(y: System, call: nat)
    requires HasReturned(y, call) && (y.k.callers[call].state.Completed? ==> call in y.outcomes)
    ensures var f, state := Finalized(y, call), y.k.callers[call].state;
            && (f == WorkerUnavailable <==> state == K.Unavailable)
            && (f == CallTimedOut <==> state == K.TimedOut)
            && (f.FromSlot? <==> state == K.Completed)
            && (f.FromSlot? ==> f.result == y.outcomes[call])
  {
  }

  /** When a command returns, its answer goes into the slot of its own call and no other. */
  lemma AnswerGoesToSlot(y: System)
    requires Enabled(y, Marshal(K.CommandReturns))
    ensures var z := Apply(y, Marshal(K.CommandReturns));
            && y.s.body.call in z.outcomes && z.outcomes[y.s.body.call] == y.s.body.result
            && forall c :: c != y.s.body.call ==>
                 (c in z.outcomes <==> c in y.outcomes) && (c in y.outcomes ==> z.outcomes[c] == y.outcomes[c])
  {
  }

  // ----- a run that ends in a frame -----------------------------------------------------------------

  lemma {:induction false} RunConcat(y: System, a: seq<Step>, b: seq<Step>)
    requires Runnable(y, a) && Runnable(Run(y, a), b)
    ensures Runnable(y, a + b) && Run(y, a + b) == Run(Run(y, a), b)
    decreases |a|
  {
    if a == [] {
      assert a + b == b;
    } else {
      assert (a + b)[1..] == a[1..] + b;
      RunConcat(Apply(y, a[0]), a[1..], b);
    }
  }

  lemma Then(steps: seq<Step>, y: System, step: Step) returns (steps': seq<Step>, z: System)
    requires Runnable(INITIAL, steps) && Run(INITIAL, steps) == y && Enabled(y, step)
    ensures steps' == steps + [step] && z == Apply(y, step)
    ensures Runnable(INITIAL, steps') && Run(INITIAL, steps') == z
  {
    assert [step][1..] == [];
    RunConcat(INITIAL, steps, [step]);
    steps', z := steps + [step], Apply(y, step);
  }

  /** The open session after the first `open`. */
  const OPENED := S.IDLE.(gate := S.Gate(1, 1, 0), callback := 1, reader := 1, isOpen := true,
                          callbacks := map[1 := S.FRESH_CALLBACK])

  const OPEN_TASK := Task(0, S.Open)

  const CAPTURE_TASK := Task(1, S.Capture)

  /** Call 0, an `open`, is picked up by the worker. */
  lemma OpenStarts() returns (steps: seq<Step>, y: System)
    ensures Runnable(INITIAL, steps) && Run(INITIAL, steps) == y
    ensures y.k == K.State(K.Core([], 1, 0, false, K.Running), K.Executing(K.Command(1, OPEN_TASK)),
                           map[0 := K.Waiting(1)], map[1 := OPEN_TASK], [1], [])
    ensures y.s == S.IDLE.(body := S.Tearing(0)) && y.outcomes == map[] && y.waits == map[]
  {
    steps, y := OpenQueued();
    steps, y := Then(steps, y, Marshal(K.Pick));
  }

  lemma OpenQueued() returns (steps: seq<Step>, y: System)
    ensures Runnable(INITIAL, steps) && Run(INITIAL, steps) == y
    ensures y.k == K.State(K.Core([K.Command(1, OPEN_TASK)], 1, 0, false, K.Running), K.InLoop,
                           map[0 := K.Waiting(1)], map[1 := OPEN_TASK], [], [])
    ensures y.s == S.IDLE && y.outcomes == map[] && y.waits == map[]
  {
    steps, y := Then([], INITIAL, Marshal(K.StartupDone(true)));
    steps, y := Then(steps, y, Marshal(K.Call(0, OPEN_TASK, false)));
  }

  lemma OpenAnswers() returns (steps: seq<Step>, y: System)
    ensures Runnable(INITIAL, steps) && Run(INITIAL, steps) == y
    ensures y.k == K.State(K.Core([], 1, 0, false, K.Running), K.Executing(K.Command(1, OPEN_TASK)),
                           map[0 := K.Waiting(1)], map[1 := OPEN_TASK], [1], [])
    ensures y.s == OPENED.(body := S.Returning(0, S.Opened)) && y.outcomes == map[] && y.waits == map[]
  {
    steps, y := OpenStarts();
    steps, y := Then(steps, y, Stream(S.Teardown(false)));
    steps, y := Then(steps, y, Stream(S.BeginStream(true)));
    steps, y := Then(steps, y, Stream(S.FinishStart(true)));
  }

  lemma OpenRun() returns (steps: seq<Step>, y: System)
    ensures Runnable(INITIAL, steps) && Run(INITIAL, steps) == y
    ensures y.k == K.State(K.Core([], 1, 1, false, K.Running), K.InLoop,
                           map[0 := K.Returned(K.Completed, Some(1))], map[1 := OPEN_TASK], [1], [1])
    ensures y.s == OPENED && y.outcomes == map[0 := S.Opened] && y.waits == map[]
  {
    steps, y := OpenReturns();
    steps, y := Then(steps, y, Marshal(K.Publish));
    steps, y := Then(steps, y, Marshal(K.Resume(0, false)));
  }

  lemma OpenReturns() returns (steps: seq<Step>, y: System)
    ensures Runnable(INITIAL, steps) && Run(INITIAL, steps) == y
    ensures y.k == K.State(K.Core([], 1, 0, false, K.Running), K.Executed(K.Command(1, OPEN_TASK)),
                           map[0 := K.Waiting(1)], map[1 := OPEN_TASK], [1], [1])
    ensures y.s == OPENED && y.outcomes == map[0 := S.Opened] && y.waits == map[]
  {
    steps, y := OpenAnswers();
    steps, y := Then(steps, y, Marshal(K.CommandReturns));
  }

  /** Call 1, a `capture`, issues its read. */
  lemma CaptureReads() returns (steps: seq<Step>, y: System)
    ensures Runnable(INITIAL, steps) && Run(INITIAL, steps) == y
    ensures y.k.core == K.Core([], 2, 1, false, K.Running) && y.k.worker == K.Executing(K.Command(2, CAPTURE_TASK))
    ensures y.k.callers == map[0 := K.Returned(K.Completed, Some(1)), 1 := K.Waiting(2)]
    ensures y.s == OPENED.(body := S.AwaitingRead(1, 0), issued := [S.Read(1, 1)], outstanding := {0})
  {
    steps, y := OpenRun();
    steps, y := Then(steps, y, Marshal(K.Call(1, CAPTURE_TASK, false)));
    steps, y := Then(steps, y, Marshal(K.Pick));
    steps, y := CaptureIssues(steps, y);
  }

  lemma CaptureIssues(before: seq<Step>, x: System) returns (steps: seq<Step>, y: System)
    requires Runnable(INITIAL, before) && Run(INITIAL, before) == x
    requires x.s == OPENED.(body := S.CaptureStart(1))
    ensures Runnable(INITIAL, steps) && Run(INITIAL, steps) == y && y.k == x.k
    ensures y.s == OPENED.(body := S.AwaitingRead(1, 0), issued := [S.Read(1, 1)], outstanding := {0})
  {
    steps, y := Then(before, x, Stream(S.StartCapture(false)));
    assert y.s.callbacks == map[1 := S.FRESH_CALLBACK];
    steps, y := Then(steps, y, Stream(S.IssueRead(true)));
  }

  /** The sample arrives while the capture waits for it. */
  lemma SampleArrives(before: seq<Step>, x: System) returns (steps: seq<Step>, y: System)
    requires Runnable(INITIAL, before) && Run(INITIAL, before) == x
    requires x.s == OPENED.(body := S.AwaitingRead(1, 0), issued := [S.Read(1, 1)], outstanding := {0})
    ensures Runnable(INITIAL, steps) && Run(INITIAL, steps) == y && y.k == x.k
    ensures y.s.body == S.Returning(1, S.Frame(0, 1))
  {
    steps, y := Then(before, x, Stream(S.ReadArrives(0)));
    steps, y := Then(steps, y, Stream(S.ReadWrites(0, S.Completion(true, false, false, true, 0))));
    steps, y := Then(steps, y, Stream(S.ReadWaitEnds(false, false, true, true)));
  }

  /** `open` and then `capture`: the capture hands out the frame of its read. */
  lemma CaptureRun() returns (steps: seq<Step>, y: System)
    ensures Runnable(INITIAL, steps) && Run(INITIAL, steps) == y
    ensures HasReturned(y, 1) && 1 in y.outcomes && Finalized(y, 1) == FromSlot(S.Frame(0, 1))
  {
    steps, y := CaptureReads();
    steps, y := SampleArrives(steps, y);
    steps, y := CaptureAnswers(steps, y);
  }

  lemma CaptureAnswers(before: seq<Step>, x: System) returns (steps: seq<Step>, y: System)
    requires Runnable(INITIAL, before) && Run(INITIAL, before) == x && x.s.body == S.Returning(1, S.Frame(0, 1))
    requires x.k.core == K.Core([], 2, 1, false, K.Running) && x.k.worker == K.Executing(K.Command(2, CAPTURE_TASK))
    requires x.k.callers == map[0 := K.Returned(K.Completed, Some(1)), 1 := K.Waiting(2)]
    ensures Runnable(INITIAL, steps) && Run(INITIAL, steps) == y
    ensures HasReturned(y, 1) && 1 in y.outcomes && Finalized(y, 1) == FromSlot(S.Frame(0, 1))
  {
    steps, y := Then(before, x, Marshal(K.CommandReturns));
    steps, y := Then(steps, y, Marshal(K.Publish));
    steps, y := Then(steps, y, Marshal(K.Resume(1, false)));
  }
}
