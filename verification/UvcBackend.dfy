/** The UVC backend: stream session commands marshalled through the command worker
    (src/camera/uvc_windows/uvc_backend.cpp:882-989, 1096-1108).  Each call of `open`,
    `reconnect` or `capture` owns an outcome slot that only its own command writes. */
module UvcBackend {
  import opened Options
  import K = CommandWorker
  import S = UvcSession
  import O = UvcOutcomes

  datatype Task = Task(call: nat, kind: S.Kind)

  /** The end of a read wait: what was recorded for which read on which generation, and what came
      of the clock, of refreshing the media type and of converting the sample. */
  datatype WaitEnd = WaitEnd(
    recorded: Option<S.Completion>,
    read: nat,
    generation: nat,
    expired: bool,
    refreshOk: bool,
    convertOk: bool)

  /** `waits` has the latest read wait of each call; no step reads it. */
  datatype System = System(k: K.State<Task>, s: S.Session, outcomes: map<nat, S.Result>, waits: map<nat, WaitEnd>)

  datatype Step = Marshal(m: K.Step<Task>) | Stream(session: S.SessionStep)

  const INITIAL := System(K.Initial<Task>(), S.IDLE, map[], map[])

  predicate Enabled(y: System, step: Step) {
    match step
    case Marshal(m) =>
      && K.Enabled(y.k, m)
      && (m.Call? ==> m.task.call == m.caller)
      && (m.CommandReturns? ==> y.s.body.Returning?)
    case Stream(t) => S.Enabled(y.s, t) && !t.Enter? && !t.Leave? && !t.WorkerTeardown?
  }

  /** The command the worker picks up in this step, if any. */
  function PickedUp(y: System, m: K.Step<Task>): Option<K.Command<Task>>
    requires K.Enabled(y.k, m)
  {
    if m.Pick? && K.PickNext(y.k.core).Execute? then Some(K.PickNext(y.k.core).command) else None
  }

  function AfterMarshal(y: System, m: K.Step<Task>): System
    requires Enabled(y, Marshal(m))
  {
    var t := y.(k := K.Apply(y.k, m));
    if PickedUp(y, m).Some? then
      var task := PickedUp(y, m).value.task;
      t.(s := S.AfterEnter(y.s, task.call, task.kind), waits := y.waits - {task.call})
    else if m.CommandReturns? then
      t.(s := y.s.(body := S.NoCommand), outcomes := y.outcomes[y.s.body.call := y.s.body.result])
    else if m.TeardownDone? then t.(s := S.TornDown(y.s))
    else t
  }

  function AfterStream(y: System, t: S.SessionStep): System
    requires Enabled(y, Stream(t))
  {
    var z := y.(s := S.Apply(y.s, t));
    match t
    case ReadWaitEnds(_, expired, refreshOk, convertOk) =>
      var end := WaitEnd(O.Recorded(y.s), y.s.body.read, y.s.gate.active, expired, refreshOk, convertOk);
      z.(waits := y.waits[y.s.body.call := end])
    case _ => z
  }

  function Apply(y: System, step: Step): System
    requires Enabled(y, step)
  {
    match step
    case Marshal(m) => AfterMarshal(y, m)
    case Stream(t) => AfterStream(y, t)
  }

  predicate Runnable(y: System, steps: seq<Step>)
    decreases |steps|
  {
    steps == [] || (Enabled(y, steps[0]) && Runnable(Apply(y, steps[0]), steps[1..]))
  }

  function Run(y: System, steps: seq<Step>): System
    requires Runnable(y, steps)
    decreases |steps|
  {
    if steps == [] then y else Run(Apply(y, steps[0]), steps[1..])
  }

  /** What the backend call returns, by `finalize`: the slot if the command completed in
      time, and a failure of its own otherwise. */
  datatype CallResult = FromSlot(result: S.Result) | WorkerUnavailable | CallTimedOut

  predicate HasReturned(y: System, call: nat) {
    call in y.k.callers && y.k.callers[call].Returned?
  }

  function Finalized(y: System, call: nat): CallResult
    requires HasReturned(y, call) && (y.k.callers[call].state.Completed? ==> call in y.outcomes)
  {
    match y.k.callers[call].state
    case Completed => FromSlot(y.outcomes[call])
    case Unavailable => WorkerUnavailable
    case TimedOut => CallTimedOut
  }

  // ----- invariant -------------------------------------------------------------------------------

  /** The session is inside a command exactly while the worker executes one, and it is that
      command's call. */
  ghost predicate BodyInv(w: K.WorkerPc<Task>, b: S.Body) {
    && (w.Executing? <==> !b.NoCommand?)
    && (w.Executing? ==> b.call == w.command.task.call)
  }

  function QueuedAs(r: K.Caller): Option<nat> {
    match r
    case Waiting(sequence) => Some(sequence)
    case Returned(_, queuedAs) => queuedAs
  }

  /** A queued command belongs to exactly one call. */
  ghost predicate CallInv(callers: map<nat, K.Caller>, tasks: map<nat, Task>) {
    && (forall c :: c in callers && QueuedAs(callers[c]).Some? ==>
          QueuedAs(callers[c]).value in tasks && tasks[QueuedAs(callers[c]).value].call == c)
    && (forall q :: q in tasks ==> tasks[q].call in callers && QueuedAs(callers[tasks[q].call]) == Some(q))
  }

  /** Every command that has finished has filled its slot. */
  ghost predicate SlotInv(finished: seq<nat>, tasks: map<nat, Task>, outcomes: map<nat, S.Result>) {
    forall i :: 0 <= i < |finished| ==> finished[i] in tasks && tasks[finished[i]].call in outcomes
  }

  /** A frame in a slot answers a read that the slot's own call issued. */
  ghost predicate OwnFrame(call: nat, r: S.Result, issued: seq<S.Read>) {
    r.Frame? ==> r.read < |issued| && r.generation != S.NO_GENERATION && issued[r.read] == S.Read(call, r.generation)
  }

  ghost predicate FramesInv(outcomes: map<nat, S.Result>, issued: seq<S.Read>) {
    forall c :: c in outcomes ==> OwnFrame(c, outcomes[c], issued)
  }

  ghost predicate Inv(y: System) {
    && K.Inv(y.k) && S.Inv(y.s)
    && BodyInv(y.k.worker, y.s.body)
    && CallInv(y.k.callers, y.k.tasks)
    && SlotInv(y.k.finished, y.k.tasks, y.outcomes)
    && FramesInv(y.outcomes, y.s.issued)
  }

  lemma InitialInv()
    ensures Inv(INITIAL)
  {
    K.InitialInv<Task>();
    S.InitialInv();
  }

  lemma MarshalCalls(y: System, m: K.Step<Task>)
    requires K.TaskInv(y.k.worker, y.k.tasks, y.k.core.submitted)
    requires CallInv(y.k.callers, y.k.tasks) && Enabled(y, Marshal(m))
    ensures var t := AfterMarshal(y, m); CallInv(t.k.callers, t.k.tasks)
  {
    if m.Call? {
      NewCall(y, m);
    }
  }

  lemma NewCall(y: System, m: K.Step<Task>)
    requires K.TaskInv(y.k.worker, y.k.tasks, y.k.core.submitted)
    requires CallInv(y.k.callers, y.k.tasks) && Enabled(y, Marshal(m)) && m.Call?
    ensures var t := AfterMarshal(y, m); CallInv(t.k.callers, t.k.tasks)
  {
  }

  lemma MarshalSlots(y: System, m: K.Step<Task>)
    requires K.TaskInv(y.k.worker, y.k.tasks, y.k.core.submitted) && K.QueueInv(y.k.core, y.k.tasks, |y.k.started|)
    requires S.ResultInv(y.s) && BodyInv(y.k.worker, y.s.body)
    requires SlotInv(y.k.finished, y.k.tasks, y.outcomes) && FramesInv(y.outcomes, y.s.issued)
    requires Enabled(y, Marshal(m))
    ensures var t := AfterMarshal(y, m);
            && BodyInv(t.k.worker, t.s.body)
            && SlotInv(t.k.finished, t.k.tasks, t.outcomes) && FramesInv(t.outcomes, t.s.issued)
  {
    MarshalBody(y, m);
    MarshalOutcomes(y, m);
  }

  lemma MarshalBody(y: System, m: K.Step<Task>)
    requires BodyInv(y.k.worker, y.s.body) && Enabled(y, Marshal(m))
    ensures BodyInv(AfterMarshal(y, m).k.worker, AfterMarshal(y, m).s.body)
  {
  }

  lemma MarshalOutcomes(y: System, m: K.Step<Task>)
    requires S.ResultInv(y.s) && BodyInv(y.k.worker, y.s.body) && FramesInv(y.outcomes, y.s.issued)
    requires Enabled(y, Marshal(m))
    ensures FramesInv(AfterMarshal(y, m).outcomes, AfterMarshal(y, m).s.issued)
  {
  }

  lemma MarshalSession(y: System, m: K.Step<Task>)
    requires S.Inv(y.s) && K.StateInv(y.k.core.state, y.k.worker, y.k.core.stopRequested)
    requires BodyInv(y.k.worker, y.s.body) && Enabled(y, Marshal(m))
    ensures S.Inv(AfterMarshal(y, m).s)
  {
    if PickedUp(y, m).Some? {
      var task := PickedUp(y, m).value.task;
      S.StepInv(y.s, S.Enter(task.call, task.kind));
    } else if m.CommandReturns? {
      S.StepInv(y.s, S.Leave);
    } else if m.TeardownDone? {
      S.StepInv(y.s, S.WorkerTeardown);
    }
  }

  lemma StreamLinks(y: System, t: S.SessionStep)
    requires BodyInv(y.k.worker, y.s.body) && FramesInv(y.outcomes, y.s.issued)
    requires Enabled(y, Stream(t))
    ensures var s := S.Apply(y.s, t); BodyInv(y.k.worker, s.body) && FramesInv(y.outcomes, s.issued)
  {
    S.StepKeeps(y.s, t);
  }

  lemma StepInv(y: System, step: Step)
    requires Inv(y) && Enabled(y, step)
    ensures Inv(Apply(y, step))
  {
    match step
    case Marshal(m) =>
      K.StepInv(y.k, m);
      MarshalSession(y, m);
      MarshalCalls(y, m);
      MarshalSlots(y, m);
    case Stream(t) =>
      S.StepInv(y.s, t);
      StreamLinks(y, t);
  }

  lemma {:induction false} RunInv(y: System, steps: seq<Step>)
    requires Inv(y) && Runnable(y, steps)
    ensures Inv(Run(y, steps))
    decreases |steps|
  {
    if steps != [] {
      StepInv(y, steps[0]);
      RunInv(Apply(y, steps[0]), steps[1..]);
    }
  }

  // ----- results -----------------------------------------------------------------------------------

  /** In every run: a call that was told `completed` finds its slot filled, and a frame it
      returns answers a ReadSample that this same call issued on the generation the frame
      came through; calls that timed out or found no worker return no frame at all. */
  lemma StaleReadFreedom(steps: seq<Step>, call: nat)
    requires Runnable(INITIAL, steps) && HasReturned(Run(INITIAL, steps), call)
    ensures var y := Run(INITIAL, steps);
            && (y.k.callers[call].state.Completed? ==> call in y.outcomes)
            && (Finalized(y, call).FromSlot? ==> OwnFrame(call, Finalized(y, call).result, y.s.issued))
  {
    InitialInv();
    RunInv(INITIAL, steps);
    var y := Run(INITIAL, steps);
    var r := y.k.callers[call];
    assert K.CallerInv(r, y.k.core, y.k.worker, |y.k.started|);
    if r.state.Completed? {
      assert y.k.finished[r.queuedAs.value - 1] == r.queuedAs.value;
    }
  }

  /** No read is ever handed to two calls. */
  lemma FramesAreNotShared(steps: seq<Step>, a: nat, b: nat)
    requires Runnable(INITIAL, steps)
    requires a in Run(INITIAL, steps).outcomes && b in Run(INITIAL, steps).outcomes && a != b
    ensures var y := Run(INITIAL, steps);
            y.outcomes[a].Frame? && y.outcomes[b].Frame? ==> y.outcomes[a].read != y.outcomes[b].read
  {
    InitialInv();
    RunInv(INITIAL, steps);
  }

  /** While a frame is on its way from the session to its slot, its generation is the active
      one: no other command can run and retire the stream in between. */
  lemma FrameIsFromActiveStream(steps: seq<Step>)
    requires Runnable(INITIAL, steps)
    ensures var y := Run(INITIAL, steps);
            y.s.body.Returning? && y.s.body.result.Frame? ==>
              && S.Accepts(y.s.gate, y.s.body.result.generation)
              && y.k.worker.Executing? && y.k.worker.command.task.call == y.s.body.call
  {
    InitialInv();
    RunInv(INITIAL, steps);
  }
}
