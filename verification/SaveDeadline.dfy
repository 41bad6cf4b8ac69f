/** What the deadline of a wait and a cancellation mean for the job
    (src/artifacts/save_worker.cpp:136-144, 200-222), stated in the fields of the worker: which
    jobs are discarded, which are committed, and what their wait is told. */
module SaveDeadline {
  import opened Options
  import opened SaveWorkerModel
  import opened SaveProtocol
  import opened SaveInvariant
  import opened SaveTheorems

  predicate BeforeCommit(w: WorkerPc) {
    w.WReady? || w.WWriting? || w.WDeciding?
  }

  /** The job is in a slot and its decision is still to be made. */
  predicate Undecided(s: State, id: nat) {
    id != 0 && (id == s.slots.queuedId || (id == s.slots.executingId && BeforeCommit(s.worker)))
  }

  /** The client has still to publish the deadline of its current wait. */
  predicate BeforePublish(c: ClientPc) {
    c.CEntering? || c.CPublishing?
  }

  // ----- which deadline is published ------------------------------------------------------------

  /** The awaited job is not newer than the client's, and the client publishes each deadline once. */
  ghost predicate AwaitInv(g: Gate, c: ClientPc, current: nat) {
    g.awaitedId <= current && (BeforePublish(c) ==> g.awaitedId != current)
  }

  /** `d` is the deadline of job `id`: its client still brings it along, or has published it, or
      has given up on the job; or the job will never be accepted. */
  ghost predicate HasDeadline(s: State, id: nat, d: nat) {
    if s.current < id then
      s.current == id - 1 && ((s.client.CSubmitting? && s.client.deadline == d) || s.slots.stopping)
    else if s.current == id && BeforePublish(s.client) then s.client.deadline == d
    else Undecided(s, id) ==> IsAwaited(s.gate, id, d) || id in s.gate.cancelledIds
  }

  predicate IsAwaited(g: Gate, id: nat, d: nat) {
    g.awaitedId == id && g.awaitedDeadline == Some(d)
  }

  /** Job `id` has not been committed, and its decision, if there will be one, discards it. */
  ghost predicate Hopeless(s: State, id: nat) {
    && 0 < id <= s.slots.nextId && id !in s.hist.commits
    && (id == s.slots.executingId ==> !s.worker.WCommitting?)
    && (Undecided(s, id) ==> id in s.gate.cancelledIds || HasExpired(s.gate, id, s.now))
  }

  predicate HasExpired(g: Gate, id: nat, now: nat) {
    g.awaitedId == id && g.awaitedDeadline.Some? && g.awaitedDeadline.value <= now
  }

  lemma ClientAwaits(s: State, c: ClientStep)
    requires AwaitInv(s.gate, s.client, s.current) && ClientEnabled(s, c) && s.slots.nextId == s.current
    requires Waiting(s.client) ==> s.client.target == s.current
    requires s.slots.lastSubmittedId == s.slots.nextId
    ensures var t := ClientApply(s, c); AwaitInv(t.gate, t.client, t.current)
  {
  }

  lemma WorkerAwaits(s: State, w: WorkerStep)
    requires AwaitInv(s.gate, s.client, s.current) && WorkerEnabled(s, w)
    ensures var t := WorkerApply(s, w); AwaitInv(t.gate, t.client, t.current)
  {
  }

  lemma StepAwaits(s: State, step: Step)
    requires FieldInv(s) && AwaitInv(s.gate, s.client, s.current) && Enabled(s, step)
    ensures var t := Apply(s, step); AwaitInv(t.gate, t.client, t.current)
  {
    match step
    case Client(c) => ClientAwaits(s, c);
    case Worker(w) => WorkerAwaits(s, w);
    case Drain(_) =>
    case Tick(_) =>
  }

  /** A job whose wait was answered is decided, or marked as cancelled. */
  lemma AnsweredIsSettled(s: State, id: nat)
    requires FieldInv(s) && OrderInv(s) && TruthInv(s)
    requires id in s.hist.returned && Undecided(s, id)
    ensures id != s.slots.queuedId && id in s.gate.cancelledIds && id !in s.hist.commits
  {
    UndecidedIsUncommitted(s, id);
    assert Doomed(s.slots, s.gate, s.worker, id);
  }

  lemma PublishKeepsDeadline(s: State, id: nat, d: nat)
    requires FieldInv(s) && OrderInv(s) && TruthInv(s) && HasDeadline(s, id, d)
    requires ClientEnabled(s, Publish)
    ensures HasDeadline(ClientApply(s, Publish), id, d)
  {
    if 0 < id < s.current && Undecided(s, id) {
      AnsweredIsSettled(s, id);
    }
  }

  lemma ClientKeepsDeadline(s: State, c: ClientStep, id: nat, d: nat)
    requires FieldInv(s) && OrderInv(s) && TruthInv(s) && HasDeadline(s, id, d)
    requires ClientEnabled(s, c)
    ensures HasDeadline(ClientApply(s, c), id, d)
  {
    if c.Publish? {
      PublishKeepsDeadline(s, id, d);
    }
  }

  lemma WorkerKeepsDeadline(s: State, w: WorkerStep, id: nat, d: nat)
    requires CoreInv(s) && HasDeadline(s, id, d) && WorkerEnabled(s, w)
    ensures HasDeadline(WorkerApply(s, w), id, d)
  {
  }

  lemma StepKeepsDeadline(s: State, step: Step, id: nat, d: nat)
    requires FieldInv(s) && OrderInv(s) && TruthInv(s) && HasDeadline(s, id, d) && Enabled(s, step)
    ensures HasDeadline(Apply(s, step), id, d)
  {
    match step
    case Client(c) => ClientKeepsDeadline(s, c, id, d);
    case Worker(w) => WorkerKeepsDeadline(s, w, id, d);
    case Drain(_) =>
    case Tick(_) =>
  }

  lemma {:induction false} RunKeepsDeadline(s: State, steps: seq<Step>, id: nat, d: nat)
    requires Inv(s) && AwaitInv(s.gate, s.client, s.current) && HasDeadline(s, id, d) && Runnable(s, steps)
    ensures Inv(Run(s, steps)) && HasDeadline(Run(s, steps), id, d)
    ensures var t := Run(s, steps); AwaitInv(t.gate, t.client, t.current)
    decreases |steps|
  {
    if steps != [] {
      StepInv(s, steps[0]);
      StepAwaits(s, steps[0]);
      StepKeepsDeadline(s, steps[0], id, d);
      RunKeepsDeadline(Apply(s, steps[0]), steps[1..], id, d);
    }
  }

  lemma {:induction false} RunAwaits(s: State, steps: seq<Step>)
    requires Inv(s) && AwaitInv(s.gate, s.client, s.current) && Runnable(s, steps)
    ensures Inv(Run(s, steps))
    ensures var t := Run(s, steps); AwaitInv(t.gate, t.client, t.current)
    decreases |steps|
  {
    if steps != [] {
      StepInv(s, steps[0]);
      StepAwaits(s, steps[0]);
      RunAwaits(Apply(s, steps[0]), steps[1..]);
    }
  }

  /** The run from the submit of the client in `s`, whose job gets the next id if it is accepted. */
  lemma SubmittedRun(before: seq<Step>, mid: seq<Step>)
    requires Runnable(INITIAL, before) && Runnable(Run(INITIAL, before), mid)
    requires Run(INITIAL, before).client.CSubmitting?
    ensures var s := Run(INITIAL, before);
            var u := Run(s, mid);
            && Inv(u) && AwaitInv(u.gate, u.client, u.current)
            && HasDeadline(u, s.current + 1, s.client.deadline)
  {
    InitialInv();
    RunAwaits(INITIAL, before);
    var s := Run(INITIAL, before);
    RunKeepsDeadline(s, mid, s.current + 1, s.client.deadline);
  }

  // ----- expired and cancelled jobs are never published -------------------------------------------

  lemma PublishKeepsHopeless(s: State, id: nat)
    requires FieldInv(s) && OrderInv(s) && TruthInv(s) && AwaitInv(s.gate, s.client, s.current) && Hopeless(s, id)
    requires ClientEnabled(s, Publish)
    ensures Hopeless(ClientApply(s, Publish), id)
  {
    if id != s.current && Undecided(s, id) {
      AnsweredIsSettled(s, id);
    }
  }

  lemma ClientKeepsHopeless(s: State, c: ClientStep, id: nat)
    requires FieldInv(s) && OrderInv(s) && TruthInv(s) && AwaitInv(s.gate, s.client, s.current) && Hopeless(s, id)
    requires ClientEnabled(s, c)
    ensures Hopeless(ClientApply(s, c), id)
  {
    if c.Publish? {
      PublishKeepsHopeless(s, id);
    }
  }

  lemma WorkerKeepsHopeless(s: State, w: WorkerStep, id: nat)
    requires CoreInv(s) && Hopeless(s, id) && WorkerEnabled(s, w)
    ensures Hopeless(WorkerApply(s, w), id)
  {
  }

  lemma DrainKeepsHopeless(s: State, d: DrainStep, id: nat)
    requires CoreInv(s) && Hopeless(s, id) && DrainEnabled(s, d)
    ensures Hopeless(DrainApply(s, d), id)
  {
  }

  lemma StepKeepsHopeless(s: State, step: Step, id: nat)
    requires FieldInv(s) && OrderInv(s) && TruthInv(s) && AwaitInv(s.gate, s.client, s.current)
    requires Hopeless(s, id) && Enabled(s, step)
    ensures Hopeless(Apply(s, step), id)
  {
    match step
    case Client(c) => ClientKeepsHopeless(s, c, id);
    case Worker(w) => WorkerKeepsHopeless(s, w, id);
    case Drain(d) => DrainKeepsHopeless(s, d, id);
    case Tick(_) =>
  }

  lemma {:induction false} RunKeepsHopeless(s: State, steps: seq<Step>, id: nat)
    requires Inv(s) && AwaitInv(s.gate, s.client, s.current) && Hopeless(s, id) && Runnable(s, steps)
    ensures Hopeless(Run(s, steps), id)
    decreases |steps|
  {
    if steps != [] {
      StepInv(s, steps[0]);
      StepAwaits(s, steps[0]);
      StepKeepsHopeless(s, steps[0], id);
      RunKeepsHopeless(Apply(s, steps[0]), steps[1..], id);
    }
  }

  lemma UndecidedIsUncommitted(s: State, id: nat)
    requires FieldInv(s) && OrderInv(s) && TruthInv(s) && Undecided(s, id)
    ensures 0 < id <= s.slots.nextId && id !in s.hist.commits
  {
    assert id in s.hist.commits ==> id in s.hist.started;
  }

  /** A job that is marked as cancelled before its decision is never committed, however the run
      goes on. */
  lemma CancelledIsNeverPublished(before: seq<Step>, after: seq<Step>, id: nat)
    requires Runnable(INITIAL, before) && Runnable(Run(INITIAL, before), after)
    requires Undecided(Run(INITIAL, before), id) && id in Run(INITIAL, before).gate.cancelledIds
    ensures id !in Run(Run(INITIAL, before), after).hist.commits
  {
    InitialInv();
    RunAwaits(INITIAL, before);
    var s := Run(INITIAL, before);
    UndecidedIsUncommitted(s, id);
    RunKeepsHopeless(s, after, id);
  }

  /** A job submitted with deadline `d` is never committed if the clock reached `d` at any moment
      between the publication of the deadline and the decision. */
  lemma ExpiredIsNeverPublished(before: seq<Step>, mid: seq<Step>, after: seq<Step>)
    requires Runnable(INITIAL, before) && Runnable(Run(INITIAL, before), mid)
    requires Runnable(Run(Run(INITIAL, before), mid), after)
    requires Run(INITIAL, before).client.CSubmitting?
    requires var s := Run(INITIAL, before);
             var u, id := Run(s, mid), s.current + 1;
             && id <= u.current && !(u.current == id && BeforePublish(u.client))
             && Undecided(u, id) && u.now >= s.client.deadline
    ensures var s := Run(INITIAL, before);
            s.current + 1 !in Run(Run(s, mid), after).hist.commits
  {
    SubmittedRun(before, mid);
    var s := Run(INITIAL, before);
    var u := Run(s, mid);
    UndecidedIsUncommitted(u, s.current + 1);
    RunKeepsHopeless(u, after, s.current + 1);
  }

  // ----- jobs in time are published -----------------------------------------------------------------

  /** The decision on a written temporary, for a job submitted with deadline `d`: it is committed
      if and only if it is not marked as cancelled and either the clock has not reached `d` or the
      client has not yet published `d`; otherwise it is discarded. */
  lemma DecisionExactly(before: seq<Step>, mid: seq<Step>, temp: Path)
    requires Runnable(INITIAL, before) && Runnable(Run(INITIAL, before), mid)
    requires Run(INITIAL, before).client.CSubmitting?
    requires var s := Run(INITIAL, before);
             var u, id := Run(s, mid), s.current + 1;
             id <= u.current && u.worker.WDeciding? && u.worker.id == id && u.worker.written == Some(temp)
    ensures var s := Run(INITIAL, before);
            var u, id := Run(s, mid), s.current + 1;
            var inTime := id !in u.gate.cancelledIds
                          && (u.now < s.client.deadline || (u.current == id && BeforePublish(u.client)));
            && Enabled(u, Worker(Decide))
            && Apply(u, Worker(Decide)).worker
                 == if inTime then WCommitting(id, temp) else WDiscarding(id, temp, SaveOutcome(Cancelled, "", NoError))
  {
    SubmittedRun(before, mid);
  }

  /** The step that brings the answer of a waiting client nearer: the client gives up as soon as
      it can, and the worker only lets go of the locks. */
  function AnswerStep(s: State): Step
    requires Waiting(s.client) || s.client.CEntering?
  {
    match s.worker
    case WCommitting(_, _) => Worker(Committed(Err(InternalException)))
    case WDiscarding(_, _, _) => Worker(Discarded)
    case WRecording(_, _) => Worker(Record)
    case WRetiring(_) => Worker(Retire)
    case _ =>
      match s.client
      case CEntering(_) => Client(EnterWait)
      case CPublishing(_, _) => Client(Publish)
      case CParked(_) => Client(Wake)
      case CReady(_) => Client(Resume(true))
      case CCancelling(_) => Client(Cancel)
      case _ => Client(Recover)
  }

  function ClientRank(c: ClientPc): nat {
    match c
    case CEntering(_) => 6
    case CPublishing(_, _) => 5
    case CParked(_) => 4
    case CReady(_) => 3
    case CCancelling(_) => 2
    case CRecovering(_) => 1
    case _ => 0
  }

  function LockRank(w: WorkerPc): nat {
    match w
    case WCommitting(_, _) => 3
    case WDiscarding(_, _, _) => 2
    case WRecording(_, _) => 1
    case WRetiring(_) => 1
    case _ => 0
  }

  function AnswerRank(s: State): nat {
    ClientRank(s.client) + LockRank(s.worker)
  }

  lemma AnswerProgress(s: State)
    requires OneMutexHolder(s.client, s.worker) && (Waiting(s.client) || s.client.CEntering?)
    ensures Enabled(s, AnswerStep(s))
    ensures var t := Apply(s, AnswerStep(s));
            && AnswerRank(t) < AnswerRank(s) && t.current == s.current
            && (Waiting(t.client) || t.client.CEntering? || t.client.CReturned?)
  {
  }

  lemma AnswerRankIsSmall(s: State)
    ensures AnswerRank(s) <= 9
  {
  }

  /** A wait can always be brought to its answer, in at most nine steps. */
  lemma {:induction false} WaitReturns(s: State) returns (steps: seq<Step>)
    requires Inv(s) && (Waiting(s.client) || s.client.CEntering?)
    ensures |steps| <= AnswerRank(s) <= 9 && Runnable(s, steps)
    ensures Run(s, steps).client.CReturned? && Run(s, steps).current == s.current
    decreases AnswerRank(s)
  {
    var step := AnswerStep(s);
    AnswerProgress(s);
    AnswerRankIsSmall(s);
    StepInv(s, step);
    var t := Apply(s, step);
    if t.client.CReturned? {
      steps := [step];
      assert steps[1..] == [];
    } else {
      var rest := WaitReturns(t);
      steps := [step] + rest;
      assert steps[1..] == rest;
    }
  }

  predicate Says(outcome: SaveOutcome, path: Path) {
    outcome.state == Completed && outcome.path == path
  }

  /** In every continuation from `c` the wait for job `id` is told `completed` with `path`. */
  ghost predicate AlwaysSays(c: State, id: nat, path: Path) {
    forall after ::
      Runnable(c, after) && id in Run(c, after).hist.returned ==> Says(Run(c, after).hist.returned[id], path)
  }

  /** A job that is in time is published, and its wait is told so: the decision goes to the sink,
      and when the sink commits the job under `path`, the wait can be brought to its answer, and
      every answer it is given in any continuation is `completed` with that path. */
  lemma InTimeIsCompleted(before: seq<Step>, mid: seq<Step>, temp: Path, path: Path)
    returns (c: State, steps: seq<Step>)
    requires Runnable(INITIAL, before) && Runnable(Run(INITIAL, before), mid)
    requires Run(INITIAL, before).client.CSubmitting?
    requires var s := Run(INITIAL, before);
             var u, id := Run(s, mid), s.current + 1;
             && u.current == id && (Waiting(u.client) || u.client.CEntering?)
             && u.worker.WDeciding? && u.worker.id == id && u.worker.written == Some(temp)
             && id !in u.gate.cancelledIds && (u.now < s.client.deadline || BeforePublish(u.client))
    ensures var u := Run(Run(INITIAL, before), mid);
            var committing := [Worker(Decide), Worker(Committed(Ok(path)))];
            Runnable(u, committing) && c == Run(u, committing)
    ensures |steps| <= 9 && Runnable(c, steps)
    ensures Run(c, steps).client.CReturned? && Says(Run(c, steps).client.outcome, path)
    ensures AlwaysSays(c, Run(INITIAL, before).current + 1, path)
  {
    SubmittedRun(before, mid);
    DecisionExactly(before, mid, temp);
    var id := Run(INITIAL, before).current + 1;
    c := CommitRuns(Run(Run(INITIAL, before), mid), id, temp, path);
    steps := CommitIsAnswered(c, id, path);
  }

  lemma CommitRuns(u: State, id: nat, temp: Path, path: Path) returns (c: State)
    requires Inv(u) && u.worker.WDeciding? && (Waiting(u.client) || u.client.CEntering?)
    requires Apply(u, Worker(Decide)).worker == WCommitting(id, temp)
    ensures var committing := [Worker(Decide), Worker(Committed(Ok(path)))];
            Runnable(u, committing) && c == Run(u, committing)
    ensures Inv(c) && c.client == u.client && c.current == u.current
    ensures id in c.hist.commits && c.hist.commits[id] == path
  {
    var v := Apply(u, Worker(Decide));
    c := Apply(v, Worker(Committed(Ok(path))));
    CommitState(u, id, temp, path);
    CommitInv(u, v, Worker(Decide));
    CommitInv(v, c, Worker(Committed(Ok(path))));
    TwoSteps(u, Worker(Decide), Worker(Committed(Ok(path))));
  }

  lemma TwoSteps(s: State, a: Step, b: Step)
    requires Enabled(s, a) && Enabled(Apply(s, a), b)
    ensures Runnable(s, [a, b]) && Run(s, [a, b]) == Apply(Apply(s, a), b)
  {
    var steps, t := Then(s, [], s, a);
    steps, t := Then(s, steps, t, b);
  }

  lemma CommitInv(s: State, t: State, step: Step)
    requires Inv(s) && Enabled(s, step) && t == Apply(s, step)
    ensures Inv(t)
  {
    StepInv(s, step);
  }

  lemma CommitState(u: State, id: nat, temp: Path, path: Path)
    requires u.worker.WDeciding? && Apply(u, Worker(Decide)).worker == WCommitting(id, temp)
    ensures var v := Apply(u, Worker(Decide));
            && Enabled(u, Worker(Decide)) && Enabled(v, Worker(Committed(Ok(path))))
            && var c := Apply(v, Worker(Committed(Ok(path))));
               && c.client == u.client && c.current == u.current
               && id in c.hist.commits && c.hist.commits[id] == path
  {
  }

  lemma CommitIsAnswered(c: State, id: nat, path: Path) returns (steps: seq<Step>)
    requires Inv(c) && c.current == id && (Waiting(c.client) || c.client.CEntering?)
    requires id in c.hist.commits && c.hist.commits[id] == path
    ensures |steps| <= 9 && Runnable(c, steps)
    ensures Run(c, steps).client.CReturned? && Says(Run(c, steps).client.outcome, path)
    ensures AlwaysSays(c, id, path)
  {
    steps := WaitReturns(c);
    CommittedAnswer(c, steps, id, path);
    forall after | Runnable(c, after) && id in Run(c, after).hist.returned
      ensures Says(Run(c, after).hist.returned[id], path)
    {
      CommittedAnswer(c, after, id, path);
    }
  }

  lemma CommittedAnswer(c: State, after: seq<Step>, id: nat, path: Path)
    requires Inv(c) && id in c.hist.commits && c.hist.commits[id] == path && Runnable(c, after)
    ensures var t := Run(c, after);
            && (id in t.hist.returned ==> Says(t.hist.returned[id], path))
            && (t.client.CReturned? && t.current == id ==> Says(t.client.outcome, path))
  {
    RunInv(c, after);
    RunExtends(c, after);
    var t := Run(c, after);
    assert id in t.hist.returned ==> Truthful(t.hist.commits, id, t.hist.returned[id]);
  }

  // ----- what a wait is told --------------------------------------------------------------------------

  /** How the two phases of `execute` end: a temporary that could not be written fails the job with
      the error of the sink, a commit that failed discards the temporary and fails with its error,
      and a commit that succeeded completes the job under its path. */
  lemma OutcomesExactly(s: State, step: WorkerStep)
    requires WorkerEnabled(s, step) && (step.Decide? || step.Committed? || step.Discarded?)
    ensures var w, v := s.worker, WorkerApply(s, step).worker;
            && (step.Decide? && w.written.None? ==> v == WRecording(w.id, SaveOutcome(Failed, "", w.error)))
            && (step.Decide? && w.written.Some? ==>
                  v == WCommitting(w.id, w.written.value)
                  || v == WDiscarding(w.id, w.written.value, SaveOutcome(Cancelled, "", NoError)))
            && (step.Committed? && step.committed.Ok? ==>
                  v == WRecording(w.id, SaveOutcome(Completed, step.committed.path, NoError)))
            && (step.Committed? && step.committed.Err? ==>
                  v == WDiscarding(w.id, w.temp, SaveOutcome(Failed, "", step.committed.error)))
            && (step.Discarded? ==> v == WRecording(w.id, w.outcome))
  {
  }

  /** The outcome `o` of job `id` has been handed out, or is on its way to the client. */
  ghost predicate OnItsWay(s: State, id: nat, o: SaveOutcome) {
    if id in s.hist.returned then s.hist.returned[id] == o
    else
      || s.worker == WRecording(id, o)
      || (AfterDecision(s.worker) && s.worker.id == id && s.gate.decidedId == id && s.gate.decided == Some(o))
      || (id in s.slots.completed && s.slots.completed[id] == o)
  }

  lemma ClientKeepsOutcome(s: State, c: ClientStep, id: nat, o: SaveOutcome)
    requires FieldInv(s) && OnItsWay(s, id, o) && ClientEnabled(s, c)
    ensures OnItsWay(ClientApply(s, c), id, o)
  {
  }

  lemma WorkerKeepsOutcome(s: State, w: WorkerStep, id: nat, o: SaveOutcome)
    requires FieldInv(s) && OnItsWay(s, id, o) && WorkerEnabled(s, w)
    ensures OnItsWay(WorkerApply(s, w), id, o)
  {
  }

  lemma {:induction false} RunKeepsOutcome(s: State, steps: seq<Step>, id: nat, o: SaveOutcome)
    requires Inv(s) && OnItsWay(s, id, o) && Runnable(s, steps)
    ensures Inv(Run(s, steps)) && OnItsWay(Run(s, steps), id, o)
    decreases |steps|
  {
    if steps != [] {
      StepInv(s, steps[0]);
      match steps[0] {
        case Client(c) => ClientKeepsOutcome(s, c, id, o);
        case Worker(w) => WorkerKeepsOutcome(s, w, id, o);
        case Drain(_) =>
        case Tick(_) =>
      }
      RunKeepsOutcome(Apply(s, steps[0]), steps[1..], id, o);
    }
  }

  /** The outcome that is recorded for a job whose wait was not answered yet is what the wait is
      told, in every continuation of every run. */
  lemma RecordedIsTold(before: seq<Step>, after: seq<Step>)
    requires Runnable(INITIAL, before) && Runnable(Run(INITIAL, before), after)
    requires Run(INITIAL, before).worker.WRecording?
    requires Run(INITIAL, before).worker.id !in Run(INITIAL, before).hist.returned
    ensures var w := Run(INITIAL, before).worker;
            var returned := Run(Run(INITIAL, before), after).hist.returned;
            w.id in returned ==> returned[w.id] == w.outcome
  {
    InitialInv();
    RunInv(INITIAL, before);
    var w := Run(INITIAL, before).worker;
    RunKeepsOutcome(Run(INITIAL, before), after, w.id, w.outcome);
  }

  /** What `wait_until` does first, in every reachable state: it returns the outcome of its job
      exactly if that is completed, blocks exactly if it is not and some job is in a slot, and
      otherwise returns the empty outcome, which happens only to a job that was dropped. */
  lemma EntryExactly(steps: seq<Step>)
    requires Runnable(INITIAL, steps) && ClientEnabled(Run(INITIAL, steps), EnterWait)
    ensures var s := Run(INITIAL, steps);
            var t := ClientApply(s, EnterWait);
            && (t.client == CPublishing(s.current, s.client.deadline) <==>
                  s.current !in s.slots.completed && (s.slots.executing.Some? || s.slots.queued.Some?))
            && (s.current in s.slots.completed ==> t.client == CReturned(s.slots.completed[s.current]))
            && (s.current !in s.slots.completed && s.slots.executing.None? && s.slots.queued.None? ==>
                  t.client == CReturned(SaveOutcome(Idle, "", NoError)) && s.current in s.hist.dropped)
  {
    InitialInv();
    RunInv(INITIAL, steps);
    var s := Run(INITIAL, steps);
    assert s.current in s.hist.started || s.current in s.hist.dropped || s.current == s.slots.queuedId
           || s.current == s.slots.executingId;
  }
}
