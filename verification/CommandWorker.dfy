/** The command marshaller of src/camera/uvc_windows/uvc_command_worker.h: one worker thread
    that runs queued commands in order for any number of callers with deadlines, through
    one epoch from `start` to `stop_and_join`. */
module CommandWorker {
  import opened Options

  datatype RunState = Stopped | Starting | Running | StartFailed

  datatype Command<T> = Command(sequence: nat, task: T)

  /** The fields guarded by `mutex_`. */
  datatype Core<T> = Core(
    queue: seq<Command<T>>,
    submitted: nat,
    completed: nat,
    stopRequested: bool,
    state: RunState)

  datatype SubmitState = Completed | TimedOut | Unavailable

  // ----- critical sections ---------------------------------------------------------------------

  /** `submit` up to its wait: the answer at once, or the sequence number to wait for. */
  datatype Admission = Answer(state: SubmitState) | Queued(sequence: nat)

  function Admit<T>(c: Core<T>, expired: bool): Admission {
    if c.state != Running then Answer(Unavailable)
    else if expired then Answer(TimedOut)
    else Queued(c.submitted + 1)
  }

  function Admitted<T>(c: Core<T>, task: T, expired: bool): Core<T> {
    if c.state != Running || expired then c
    else c.(submitted := c.submitted + 1, queue := c.queue + [Command(c.submitted + 1, task)])
  }

  /** The caller's wait predicate and the answer after the wait. */
  predicate Resolved<T>(c: Core<T>, sequence: nat) {
    c.completed >= sequence || c.state != Running
  }

  function AnswerFor<T>(c: Core<T>, sequence: nat): SubmitState {
    if c.completed >= sequence then Completed
    else if c.state != Running then Unavailable
    else TimedOut
  }

  function Cleared<T>(c: Core<T>): Core<T> {
    c.(queue := [])
  }

  function StopRequested<T>(c: Core<T>): Core<T> {
    Cleared(c).(stopRequested := true)
  }

  /** What the worker loop does when it holds the mutex. */
  datatype Pick<T> = Leave | Execute(command: Command<T>) | Park

  function PickNext<T>(c: Core<T>): Pick<T> {
    if c.stopRequested then Leave
    else if c.queue == [] then Park
    else Execute(c.queue[0])
  }

  function Picked<T>(c: Core<T>): Core<T> {
    if c.stopRequested then Cleared(c)
    else if c.queue == [] then c
    else c.(queue := c.queue[1..])
  }

  /** The object itself; each method is one critical section. */
  class Marshaller<T> {
    var queue: seq<Command<T>>
    var submittedSequence: nat
    var completedSequence: nat
    var stopRequested: bool
    var state: RunState

    function View(): Core<T>
      reads this
    {
      Core(queue, submittedSequence, completedSequence, stopRequested, state)
    }

    /** `start` when it spawns the thread. */
    constructor ()
      ensures View() == Core([], 0, 0, false, Starting)
    {
      queue, submittedSequence, completedSequence := [], 0, 0;
      stopRequested, state := false, Starting;
    }

    method Submit(task: T, expired: bool) returns (a: Admission)
      modifies this
      ensures a == Admit(old(View()), expired) && View() == Admitted(old(View()), task, expired)
    {
      if state != Running {
        return Answer(Unavailable);
      }
      if expired {
        return Answer(TimedOut);
      }
      submittedSequence := submittedSequence + 1;
      queue := queue + [Command(submittedSequence, task)];
      return Queued(submittedSequence);
    }

    method AfterWait(sequence: nat) returns (r: SubmitState)
      ensures r == AnswerFor(View(), sequence)
      ensures r == Completed <==> completedSequence >= sequence
      ensures r == Unavailable <==> completedSequence < sequence && state != Running
    {
      if completedSequence >= sequence {
        return Completed;
      }
      if state != Running {
        return Unavailable;
      }
      return TimedOut;
    }

    method RequestStop()
      modifies this
      ensures View() == StopRequested(old(View()))
    {
      stopRequested := true;
      queue := [];
    }

    method TakeNext() returns (p: Pick<T>)
      modifies this
      ensures p == PickNext(old(View())) && View() == Picked(old(View()))
    {
      if stopRequested {
        queue := [];
        return Leave;
      }
      if queue == [] {
        return Park;
      }
      p := Execute(queue[0]);
      queue := queue[1..];
    }

    method PublishCompletion(sequence: nat)
      modifies this
      ensures View() == old(View()).(completed := sequence)
    {
      completedSequence := sequence;
    }

    method Resolve(newState: RunState)
      modifies this
      ensures View() == old(View()).(state := newState)
    {
      state := newState;
    }
  }

  // ----- the threads ------------------------------------------------------------------------------

  datatype WorkerPc<T> =
    | InStartup
    | InLoop                          // about to lock the mutex
    | Parked
    | Executing(command: Command<T>)  // no mutex
    | Executed(command: Command<T>)   // the command returned; about to lock the mutex
    | InTeardown
    | Exited

  /** One call of `submit`; `sequence` is None if the command was never queued. */
  datatype Caller = Waiting(sequence: nat) | Returned(state: SubmitState, queuedAs: Option<nat>)

  datatype State<T> = State(
    core: Core<T>,
    worker: WorkerPc<T>,
    callers: map<nat, Caller>,
    tasks: map<nat, T>,             // the queued commands by sequence number
    started: seq<nat>,
    finished: seq<nat>)

  function Initial<T>(): State<T> {
    State(Core([], 0, 0, false, Starting), InStartup, map[], map[], [], [])
  }

  datatype Step<T> =
    | Call(caller: nat, task: T, expired: bool)
    | Resume(caller: nat, timedOut: bool)
    | StartupDone(ok: bool)
    | StartupAbandoned                // start()'s deadline expired while startup was running
    | Pick
    | Wake
    | CommandReturns
    | Publish
    | TeardownDone
    | StopAndJoin
    | JoinDone                        // stop_and_join after the thread has been joined

  predicate Enabled<T>(s: State<T>, step: Step<T>) {
    match step
    case Call(caller, _, _) => caller !in s.callers
    case Resume(caller, timedOut) =>
      caller in s.callers && s.callers[caller].Waiting? && (timedOut || Resolved(s.core, s.callers[caller].sequence))
    case StartupDone(_) => s.worker.InStartup?
    case StartupAbandoned => s.core.state.Starting?
    case Pick => s.worker.InLoop?
    case Wake => s.worker.Parked?
    case CommandReturns => s.worker.Executing?
    case Publish => s.worker.Executed?
    case TeardownDone => s.worker.InTeardown?
    case StopAndJoin => true
    case JoinDone => s.worker.Exited?
  }

  function Notified<T>(w: WorkerPc<T>): WorkerPc<T> {
    if w.Parked? then InLoop else w
  }

  function AfterCall<T>(s: State<T>, caller: nat, task: T, expired: bool): State<T> {
    var t := s.(core := Admitted(s.core, task, expired));
    match Admit(s.core, expired)
    case Answer(state) => t.(callers := s.callers[caller := Returned(state, None)])
    case Queued(sequence) =>
      t.(callers := s.callers[caller := Waiting(sequence)], tasks := s.tasks[sequence := task],
         worker := Notified(s.worker))
  }

  function AfterResume<T>(s: State<T>, caller: nat): State<T>
    requires caller in s.callers && s.callers[caller].Waiting?
  {
    var sequence := s.callers[caller].sequence;
    s.(callers := s.callers[caller := Returned(AnswerFor(s.core, sequence), Some(sequence))])
  }

  function AfterPick<T>(s: State<T>): State<T> {
    var t := s.(core := Picked(s.core));
    match PickNext(s.core)
    case Leave => t.(worker := InTeardown)
    case Park => t.(worker := Parked)
    case Execute(command) => t.(worker := Executing(command), started := s.started + [command.sequence])
  }

  function Apply<T>(s: State<T>, step: Step<T>): State<T>
    requires Enabled(s, step)
  {
    match step
    case Call(caller, task, expired) => AfterCall(s, caller, task, expired)
    case Resume(caller, _) => AfterResume(s, caller)
    case StartupDone(ok) =>
      s.(core := s.core.(state := if ok then Running else StartFailed), worker := if ok then InLoop else InTeardown)
    case StartupAbandoned => s.(core := s.core.(stopRequested := true))
    case Pick => AfterPick(s)
    case Wake => s.(worker := InLoop)
    case CommandReturns =>
      s.(worker := Executed(s.worker.command), finished := s.finished + [s.worker.command.sequence])
    case Publish => s.(core := s.core.(completed := s.worker.command.sequence), worker := InLoop)
    case TeardownDone => s.(core := s.core.(state := Stopped), worker := Exited)
    case StopAndJoin => s.(core := StopRequested(s.core), worker := Notified(s.worker))
    case JoinDone => s.(core := s.core.(state := Stopped))
  }

  predicate Runnable<T>(s: State<T>, steps: seq<Step<T>>)
    decreases |steps|
  {
    steps == [] || (Enabled(s, steps[0]) && Runnable(Apply(s, steps[0]), steps[1..]))
  }

  function Run<T>(s: State<T>, steps: seq<Step<T>>): State<T>
    requires Runnable(s, steps)
    decreases |steps|
  {
    if steps == [] then s else Run(Apply(s, steps[0]), steps[1..])
  }

  // ----- invariant ----------------------------------------------------------------------------------

  /** `xs` is 1, 2, ..., |xs|. */
  ghost predicate CountsUp(xs: seq<nat>) {
    forall i :: 0 <= i < |xs| ==> xs[i] == i + 1
  }

  ghost predicate ProgressInv<T>(completed: nat, w: WorkerPc<T>, started: seq<nat>, finished: seq<nat>) {
    && CountsUp(started) && CountsUp(finished)
    && |finished| == completed + (if w.Executed? then 1 else 0)
    && |started| == |finished| + (if w.Executing? then 1 else 0)
    && (w.Executing? || w.Executed? ==> w.command.sequence == |started|)
  }

  /** Commands wait in submission order; before a stop none is missing. */
  ghost predicate QueueInv<T>(c: Core<T>, tasks: map<nat, T>, startedCount: nat) {
    && startedCount <= c.submitted
    && (forall i :: 0 <= i < |c.queue| ==>
          var q := c.queue[i];
          && q.sequence == c.submitted - |c.queue| + 1 + i
          && q.sequence in tasks && tasks[q.sequence] == q.task)
    && (if c.stopRequested then |c.queue| <= c.submitted - startedCount else |c.queue| == c.submitted - startedCount)
  }

  ghost predicate StateInv<T>(state: RunState, w: WorkerPc<T>, stopRequested: bool) {
    && (state.Starting? ==> w.InStartup?)
    && (w.InStartup? ==> !state.Running?)
    && (w.Exited? ==> state.Stopped?)
    && (state.Stopped? ==> w.Exited?)
    && (state.StartFailed? ==> w.InTeardown?)
    && (w.InTeardown? && state.Running? ==> stopRequested)
    && (w.Parked? ==> !stopRequested)
  }

  ghost predicate TaskInv<T>(w: WorkerPc<T>, tasks: map<nat, T>, submitted: nat) {
    && (forall k: nat :: k in tasks <==> 0 < k <= submitted)
    && (w.Executing? || w.Executed? ==> w.command.sequence in tasks && tasks[w.command.sequence] == w.command.task)
  }

  /** No command from `sequence` on will ever run. */
  ghost predicate NeverRuns<T>(w: WorkerPc<T>, startedCount: nat, sequence: nat) {
    w.Exited? && startedCount < sequence
  }

  ghost predicate CallerInv<T>(r: Caller, c: Core<T>, w: WorkerPc<T>, startedCount: nat) {
    match r
    case Waiting(sequence) => 0 < sequence <= c.submitted
    case Returned(state, queuedAs) =>
      && (queuedAs.Some? ==> 0 < queuedAs.value <= c.submitted)
      && (state.Completed? ==> queuedAs.Some? && queuedAs.value <= c.completed)
      && (state.Unavailable? && queuedAs.Some? ==> NeverRuns(w, startedCount, queuedAs.value))
  }

  ghost predicate CallersInv<T>(callers: map<nat, Caller>, c: Core<T>, w: WorkerPc<T>, startedCount: nat) {
    forall k :: k in callers ==> CallerInv(callers[k], c, w, startedCount)
  }

  ghost predicate Inv<T>(s: State<T>) {
    && ProgressInv(s.core.completed, s.worker, s.started, s.finished)
    && QueueInv(s.core, s.tasks, |s.started|)
    && StateInv(s.core.state, s.worker, s.core.stopRequested)
    && (s.core.state.Starting? || s.core.state.StartFailed? ==> s.core.submitted == 0)
    && TaskInv(s.worker, s.tasks, s.core.submitted)
    && CallersInv(s.callers, s.core, s.worker, |s.started|)
  }

  lemma InitialInv<T>()
    ensures Inv(Initial<T>())
  {
  }

  lemma AdmittedQueueInv<T>(c: Core<T>, tasks: map<nat, T>, startedCount: nat, task: T)
    requires QueueInv(c, tasks, startedCount) && c.state.Running?
    requires forall k: nat :: k in tasks <==> 0 < k <= c.submitted
    ensures QueueInv(Admitted(c, task, false), tasks[c.submitted + 1 := task], startedCount)
  {
  }

  lemma CallStepInv<T>(s: State<T>, step: Step<T>)
    requires Inv(s) && Enabled(s, step) && step.Call?
    ensures Inv(Apply(s, step))
  {
    if s.core.state.Running? {
      AdmittedQueueInv(s.core, s.tasks, |s.started|, step.task);
    }
    CallCallersInv(s, step);
    CallCoreInv(s, step);
  }

  lemma CallCoreInv<T>(s: State<T>, step: Step<T>)
    requires Inv(s) && Enabled(s, step) && step.Call?
    ensures var t := Apply(s, step);
            && ProgressInv(t.core.completed, t.worker, t.started, t.finished)
            && StateInv(t.core.state, t.worker, t.core.stopRequested)
            && (t.core.state.Starting? || t.core.state.StartFailed? ==> t.core.submitted == 0)
            && TaskInv(t.worker, t.tasks, t.core.submitted)
  {
  }

  lemma CallCallersInv<T>(s: State<T>, step: Step<T>)
    requires CallersInv(s.callers, s.core, s.worker, |s.started|) && Enabled(s, step) && step.Call?
    ensures var t := Apply(s, step); CallersInv(t.callers, t.core, t.worker, |t.started|)
  {
  }

  lemma ResumeStepInv<T>(s: State<T>, step: Step<T>)
    requires Inv(s) && Enabled(s, step) && step.Resume?
    ensures Inv(Apply(s, step))
  {
  }

  lemma PickStepInv<T>(s: State<T>)
    requires Inv(s) && Enabled(s, Pick)
    ensures Inv(Apply(s, Pick))
  {
  }

  lemma ReturnStepInv<T>(s: State<T>)
    requires Inv(s) && Enabled(s, CommandReturns)
    ensures Inv(Apply(s, CommandReturns))
  {
  }

  lemma PublishStepInv<T>(s: State<T>)
    requires Inv(s) && Enabled(s, Publish)
    ensures Inv(Apply(s, Publish))
  {
  }

  lemma StepInv<T>(s: State<T>, step: Step<T>)
    requires Inv(s) && Enabled(s, step)
    ensures Inv(Apply(s, step))
  {
    match step
    case Call(_, _, _) => CallStepInv(s, step);
    case Resume(_, _) => ResumeStepInv(s, step);
    case Pick => PickStepInv(s);
    case CommandReturns => ReturnStepInv(s);
    case Publish => PublishStepInv(s);
    case _ =>
  }

  lemma {:induction false} RunInv<T>(s: State<T>, steps: seq<Step<T>>)
    requires Inv(s) && Runnable(s, steps)
    ensures Inv(Run(s, steps))
    decreases |steps|
  {
    if steps != [] {
      StepInv(s, steps[0]);
      RunInv(Apply(s, steps[0]), steps[1..]);
    }
  }

  // ----- what stays -------------------------------------------------------------------------------

  ghost predicate Extends<T>(s: State<T>, t: State<T>) {
    && s.started <= t.started && s.finished <= t.finished
    && (forall k :: k in s.tasks ==> k in t.tasks && t.tasks[k] == s.tasks[k])
    && (forall k :: k in s.callers && s.callers[k].Returned? ==> k in t.callers && t.callers[k] == s.callers[k])
    && (s.worker.Exited? ==> t.worker.Exited? && t.started == s.started)
  }

  lemma StepExtends<T>(s: State<T>, step: Step<T>)
    requires TaskInv(s.worker, s.tasks, s.core.submitted) && Enabled(s, step)
    ensures Extends(s, Apply(s, step))
  {
  }

  lemma ExtendsFurther<T>(s: State<T>, t: State<T>, u: State<T>)
    requires Extends(s, t) && Extends(t, u)
    ensures Extends(s, u)
  {
    assert s.started <= t.started <= u.started;
    assert s.finished <= t.finished <= u.finished;
  }

  lemma {:induction false} RunExtends<T>(s: State<T>, steps: seq<Step<T>>)
    requires Inv(s) && Runnable(s, steps)
    ensures Extends(s, Run(s, steps))
    decreases |steps|
  {
    if steps != [] {
      StepInv(s, steps[0]);
      StepExtends(s, steps[0]);
      RunExtends(Apply(s, steps[0]), steps[1..]);
      ExtendsFurther(s, Apply(s, steps[0]), Run(Apply(s, steps[0]), steps[1..]));
    }
  }

  // ----- FIFO marshalling -------------------------------------------------------------------------

  /** In every run commands are started in submission order, each once, one at a time, and
      `completed_sequence_ = k` exactly when commands 1 to k have finished, unless the next
      one has returned and its completion is just about to be published. */
  lemma FifoMarshalling<T>(steps: seq<Step<T>>)
    requires Runnable(Initial<T>(), steps)
    ensures var s := Run(Initial<T>(), steps);
            && CountsUp(s.started) && CountsUp(s.finished)
            && |s.finished| <= |s.started| <= |s.finished| + 1
            && (!s.worker.Executed? ==> |s.finished| == s.core.completed)
            && (s.worker.Executed? ==> |s.finished| == s.core.completed + 1)
  {
    InitialInv<T>();
    RunInv(Initial<T>(), steps);
  }

  /** What the answer of `submit` says about the caller's command, however the run goes on:
      `completed` means it has finished; `unavailable` means it never starts; a command that
      was never queued has no sequence number; and after `timeout` it starts at most once,
      after every earlier and before every later command. */
  lemma AnswersAreTrue<T>(before: seq<Step<T>>, after: seq<Step<T>>, caller: nat)
    requires Runnable(Initial<T>(), before) && Runnable(Run(Initial<T>(), before), after)
    requires caller in Run(Initial<T>(), before).callers && Run(Initial<T>(), before).callers[caller].Returned?
    ensures var s := Run(Initial<T>(), before);
            var t := Run(s, after);
            var r := s.callers[caller];
            && caller in t.callers && t.callers[caller] == r
            && (r.state.Completed? ==> r.queuedAs.Some? && r.queuedAs.value in s.finished)
            && (r.state.Unavailable? && r.queuedAs.Some? ==> r.queuedAs.value !in t.started)
            && (r.queuedAs.Some? ==>
                  forall i :: 0 <= i < |t.started| && t.started[i] == r.queuedAs.value ==> i + 1 == r.queuedAs.value)
  {
    InitialInv<T>();
    RunInv(Initial<T>(), before);
    var s := Run(Initial<T>(), before);
    RunInv(s, after);
    RunExtends(s, after);
    var t, r := Run(s, after), s.callers[caller];
    assert CallerInv(r, s.core, s.worker, |s.started|);
    if r.state.Completed? {
      assert s.finished[r.queuedAs.value - 1] == r.queuedAs.value;
    }
  }

  // ----- which answer is given -----------------------------------------------------------------------

  /** The completion of the command has been published: it has finished, and it is not the one
      whose completion the worker is just about to publish. */
  predicate IsPublished<T>(s: State<T>, sequence: nat) {
    sequence in s.finished && !(s.worker.Executed? && s.worker.command.sequence == sequence)
  }

  /** In every reachable state, a waiting caller that returns is told `completed` exactly if the
      completion of its command has been published, `timeout` exactly if it has not and the worker
      is running, and `unavailable` exactly if it has not and the worker is not running; a wait
      that did not run out of time never ends in `timeout`. */
  lemma AnswerExactly<T>(before: seq<Step<T>>, caller: nat, timedOut: bool)
    requires Runnable(Initial<T>(), before) && Enabled(Run(Initial<T>(), before), Resume(caller, timedOut))
    ensures var s := Run(Initial<T>(), before);
            var sequence := s.callers[caller].sequence;
            var r := Apply(s, Resume(caller, timedOut)).callers[caller];
            && r.Returned? && r.queuedAs == Some(sequence)
            && (r.state == Completed <==> IsPublished(s, sequence))
            && (r.state == TimedOut <==> !IsPublished(s, sequence) && s.core.state == Running)
            && (r.state == Unavailable <==> !IsPublished(s, sequence) && s.core.state != Running)
            && (!timedOut ==> r.state != TimedOut)
  {
    InitialInv<T>();
    RunInv(Initial<T>(), before);
    var s := Run(Initial<T>(), before);
    var sequence := s.callers[caller].sequence;
    assert CallerInv(s.callers[caller], s.core, s.worker, |s.started|);
    if sequence <= |s.finished| {
      assert s.finished[sequence - 1] == sequence;
    }
  }

  /** A call is refused exactly while the worker is not running, is told `timeout` at once exactly
      if its deadline has passed on a running worker, and otherwise waits for its command, which
      joins the end of the queue under the next sequence number. */
  lemma AdmissionExactly<T>(s: State<T>, caller: nat, task: T, expired: bool)
    requires Enabled(s, Call(caller, task, expired))
    ensures var t := Apply(s, Call(caller, task, expired));
            var r := t.callers[caller];
            && (r == Returned(Unavailable, None) <==> s.core.state != Running)
            && (r == Returned(TimedOut, None) <==> s.core.state == Running && expired)
            && (r == Waiting(s.core.submitted + 1) <==> s.core.state == Running && !expired)
            && (r.Returned? ==> t.core == s.core && t.tasks == s.tasks)
            && (r.Waiting? ==>
                  && t.core.queue == s.core.queue + [Command(s.core.submitted + 1, task)]
                  && t.tasks == s.tasks[s.core.submitted + 1 := task])
  {
  }

  // ----- stopping --------------------------------------------------------------------------------

  /** Steps the worker takes at most before it exits, once a stop was requested. */
  function StopRank<T>(w: WorkerPc<T>): nat {
    match w
    case InStartup => 5
    case Executing(_) => 4
    case Executed(_) => 3
    case InLoop => 2
    case Parked => 2
    case InTeardown => 1
    case Exited => 0
  }

  function WorkerStep<T>(w: WorkerPc<T>): Step<T>
    requires !w.Exited?
  {
    match w
    case InStartup => StartupDone(false)
    case Executing(_) => CommandReturns
    case Executed(_) => Publish
    case InLoop => Pick
    case Parked => Wake
    case InTeardown => TeardownDone
  }

  /** Once a stop was requested the worker always has a step that brings its exit nearer, no
      step of anyone puts it off, and no further command starts. */
  lemma StopTakesEffect<T>(s: State<T>, step: Step<T>)
    requires Inv(s) && s.core.stopRequested
    ensures !s.worker.Exited? ==>
              && Enabled(s, WorkerStep(s.worker))
              && StopRank(Apply(s, WorkerStep(s.worker)).worker) < StopRank(s.worker)
    ensures Enabled(s, step) ==>
              && Apply(s, step).core.stopRequested && StopRank(Apply(s, step).worker) <= StopRank(s.worker)
              && Apply(s, step).started == s.started
  {
  }

  /** Once a stop was requested the worker exits, within as many of its own steps as the rank says. */
  lemma {:induction false} WorkerExits<T>(s: State<T>) returns (steps: seq<Step<T>>)
    requires Inv(s) && s.core.stopRequested
    ensures |steps| <= StopRank(s.worker) && Runnable(s, steps) && Inv(Run(s, steps))
    ensures Run(s, steps).worker.Exited? && Run(s, steps).started == s.started
    ensures Run(s, steps).callers == s.callers
    decreases StopRank(s.worker)
  {
    if s.worker.Exited? {
      steps := [];
    } else {
      var step := WorkerStep(s.worker);
      StopTakesEffect(s, step);
      StepInv(s, step);
      var rest := WorkerExits(Apply(s, step));
      steps := [step] + rest;
      assert steps[1..] == rest;
    }
  }

  function WaitingCallers(callers: map<nat, Caller>): set<nat> {
    set k | k in callers && callers[k].Waiting?
  }

  /** After the exit every waiting caller can return, and none of them for lack of time. */
  lemma {:induction false} CallersReturn<T>(s: State<T>) returns (steps: seq<Step<T>>)
    requires Inv(s) && s.worker.Exited?
    ensures |steps| == |WaitingCallers(s.callers)| && Runnable(s, steps)
    ensures var t := Run(s, steps);
            && t.worker == s.worker && t.started == s.started && t.callers.Keys == s.callers.Keys
            && forall k :: k in s.callers ==>
                 && t.callers[k].Returned?
                 && (if s.callers[k].Waiting? then !t.callers[k].state.TimedOut? else t.callers[k] == s.callers[k])
    decreases |WaitingCallers(s.callers)|
  {
    var waiting := WaitingCallers(s.callers);
    if waiting == {} {
      steps := [];
      assert forall k :: k in s.callers && s.callers[k].Waiting? ==> k in waiting;
    } else {
      var k :| k in waiting;
      var step: Step<T> := Resume(k, false);
      var t := Apply(s, step);
      StepInv(s, step);
      assert WaitingCallers(t.callers) == waiting - {k};
      var rest := CallersReturn(t);
      steps := [step] + rest;
      assert steps[1..] == rest;
    }
  }

  /** `stop_and_join` returns, and every caller gets its answer: after any run whatever, once a
      stop is requested, at most five steps of the worker and one of each waiting caller end in
      a state in which the thread has exited, no further command has started, and every caller
      has returned, with `completed` or `unavailable` if it was still waiting. */
  lemma StopAndJoinReturns<T>(before: seq<Step<T>>) returns (steps: seq<Step<T>>)
    requires Runnable(Initial<T>(), before) && Run(Initial<T>(), before).core.stopRequested
    ensures var s := Run(Initial<T>(), before);
            && |steps| <= 5 + |WaitingCallers(s.callers)| && Runnable(s, steps)
            && var t := Run(s, steps);
               && t.worker.Exited? && t.started == s.started && t.callers.Keys == s.callers.Keys
               && Enabled(t, JoinDone)
               && forall k :: k in s.callers ==>
                    t.callers[k].Returned? && (s.callers[k].Waiting? ==> !t.callers[k].state.TimedOut?)
  {
    InitialInv<T>();
    RunInv(Initial<T>(), before);
    var s := Run(Initial<T>(), before);
    var exit := WorkerExits(s);
    var answers := CallersReturn(Run(s, exit));
    RunConcat(s, exit, answers);
    steps := exit + answers;
  }

  lemma {:induction false} RunConcat<T>(s: State<T>, a: seq<Step<T>>, b: seq<Step<T>>)
    requires Runnable(s, a) && Runnable(Run(s, a), b)
    ensures Runnable(s, a + b) && Run(s, a + b) == Run(Run(s, a), b)
    decreases |a|
  {
    if a == [] {
      assert a + b == b;
    } else {
      assert (a + b)[1..] == a[1..] + b;
      RunConcat(Apply(s, a[0]), a[1..], b);
    }
  }
}
