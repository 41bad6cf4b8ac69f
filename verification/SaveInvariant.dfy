/** The invariant of the save protocol.  Each conjunct takes just the parts of the state it
    speaks about, so a step that leaves those parts alone keeps it at once. */
module SaveInvariant {
  import opened Options
  import opened SaveWorkerModel
  import opened SaveProtocol

  /** The job the worker thread is busy with, 0 for none. */
  function BusyId(w: WorkerPc): nat {
    match w
    case WReady => 0
    case WParked => 0
    case WExited => 0
    case _ => w.id
  }

  predicate BeforeDecision(w: WorkerPc) {
    w.WWriting? || w.WDeciding? || w.WCommitting? || w.WDiscarding? || w.WRecording?
  }

  predicate AfterDecision(w: WorkerPc) {
    w.WFinishing? || w.WRetiring?
  }

  /** One executing job, one queued job behind it, and the queued job is the newest. */
  ghost predicate SlotsInv(sl: Slots, w: WorkerPc) {
    && (sl.executing.Some? <==> sl.executingId != 0)
    && (sl.queued.Some? <==> sl.queuedId != 0)
    && sl.nextId == sl.lastSubmittedId
    && sl.executingId <= sl.nextId
    && (sl.queued.Some? ==>
          && sl.queuedId == sl.nextId && !sl.stopping
          && (sl.executing.Some? || w.WRetiring?)
          && sl.executingId < sl.queuedId && BusyId(w) < sl.queuedId)
  }

  ghost predicate CompletedInv(sl: Slots) {
    forall k :: k in sl.completed ==> 0 < k <= sl.nextId && k != sl.executingId && k != sl.queuedId
  }

  /** What the worker's program counter says about the fields. */
  ghost predicate WorkerInv(sl: Slots, w: WorkerPc) {
    && (w.WParked? ==> sl.executing.None? && !sl.stopping)
    && (w.WExited? ==> sl.executing.None? && sl.stopping)
    && (BeforeDecision(w) || w.WFinishing? ==> sl.executing.Some? && w.id == sl.executingId)
    && (w.WWriting? ==> sl.executing == Some(w.job))
    && (w.WRetiring? ==> sl.executing.None? && 0 < w.id <= sl.nextId && w.id !in sl.completed)
  }

  ghost predicate GateInv(sl: Slots, g: Gate, w: WorkerPc) {
    && g.cancelledIds <= {sl.executingId}
    && (sl.executing.None? ==> g.cancelledIds == {})
    && (AfterDecision(w) ==> g.cancelledIds == {})
    && (if AfterDecision(w) then (g.decidedId == w.id && g.decided.Some?) || (g.decidedId == 0 && g.decided.None?)
        else g.decidedId == 0 && g.decided.None?)
  }

  predicate Waiting(c: ClientPc) {
    c.CPublishing? || c.CParked? || c.CReady? || c.CCancelling? || c.CRecovering?
  }

  /** The newest job whose outcome the serialized client has been given. */
  function LastAnswered(c: ClientPc, current: nat): int {
    if Waiting(c) || c.CEntering? then current - 1 else current
  }

  ghost predicate AnsweredUpTo(returned: map<nat, SaveOutcome>, last: int) {
    forall id: nat :: id in returned <==> 0 < id <= last
  }

  ghost predicate ClientInv(c: ClientPc, current: nat, sl: Slots, returned: map<nat, SaveOutcome>) {
    && sl.nextId == current
    && (if Waiting(c) || c.CEntering? then current != 0 else sl.queued.None?)
    && (c.CRecovering? ==> sl.queued.None?)
    && (c.CRefused? ==> sl.stopping)
    && (Waiting(c) ==> c.target == current)
    && (c.CReturned? ==> current in returned && returned[current] == c.outcome)
    && (c.CPublishing? || c.CParked? || c.CCancelling? || c.CRecovering? ==> c.target !in sl.completed)
  }

  ghost predicate DrainInv(d: DrainPc, sl: Slots, w: WorkerPc) {
    && (d.DParked? || d.DReady? || d.DJoining? || d.DDone? ==> sl.stopping)
    && (d.DParked? ==> sl.executing.Some? || w.WRetiring?)
    && (d.DJoining? || d.DDone? ==> sl.executing.None?)
    && (d.DDone? ==> w.WExited?)
  }

  ghost predicate Increasing(xs: seq<nat>) {
    forall i, j :: 0 <= i < j < |xs| ==> xs[i] < xs[j]
  }

  /** The jobs were started in submission order. */
  ghost predicate SequenceInv(order: seq<nat>, started: set<nat>) {
    && Increasing(order)
    && (forall i :: 0 <= i < |order| ==> order[i] in started)
    && (forall x :: x in started ==> x in order)
  }

  /** A started job is older than every job still in a slot; the busy one is the newest started. */
  ghost predicate StartedInv(sl: Slots, ready: bool, busy: nat, started: set<nat>) {
    && (forall x :: x in started ==> 0 < x <= sl.nextId)
    && (sl.queued.Some? ==> forall x :: x in started ==> x < sl.queuedId)
    && (sl.executing.Some? && ready ==> forall x :: x in started ==> x < sl.executingId)
    && (busy != 0 ==> busy in started && forall x :: x in started ==> x <= busy)
  }

  /** Every accepted job is started, dropped from the queue, or still in a slot. */
  ghost predicate AccountedInv(sl: Slots, ready: bool, started: set<nat>, dropped: set<nat>) {
    && (forall x :: x in dropped ==>
          0 < x <= sl.nextId && x !in started && x != sl.executingId && x != sl.queuedId)
    && (forall x: nat {:trigger x in started} {:trigger x in dropped} :: 0 < x <= sl.nextId ==>
          x in started || x in dropped || x == sl.queuedId || (ready && x == sl.executingId))
  }

  /** Every started job is the busy one, or its outcome is waiting or was returned. */
  ghost predicate AnsweredInv(completed: map<nat, SaveOutcome>, busy: nat, started: set<nat>,
                              returned: map<nat, SaveOutcome>) {
    forall x :: x in started ==> x == busy || x in completed || x in returned
  }

  /** A decision that is no longer there has been handed to the client. */
  ghost predicate HandedOver(g: Gate, w: WorkerPc, returned: map<nat, SaveOutcome>) {
    AfterDecision(w) && g.decided.None? ==> w.id in returned
  }

  /** `outcome` tells the truth about job `id`. */
  ghost predicate Truthful(commits: map<nat, Path>, id: nat, outcome: SaveOutcome) {
    && (outcome.state == Completed <==> id in commits)
    && (id in commits ==> outcome.path == commits[id])
  }

  ghost predicate AllTruthful(commits: map<nat, Path>, outcomes: map<nat, SaveOutcome>) {
    forall id :: id in outcomes ==> Truthful(commits, id, outcomes[id])
  }

  ghost predicate CommitsStarted(commits: map<nat, Path>, started: set<nat>) {
    forall id :: id in commits ==> id in started
  }

  ghost predicate WorkerTruth(commits: map<nat, Path>, g: Gate, w: WorkerPc) {
    && (g.decided.Some? ==> Truthful(commits, g.decidedId, g.decided.value))
    && (w.WRecording? ==> Truthful(commits, w.id, w.outcome))
    && (w.WWriting? || w.WDeciding? || w.WCommitting? || w.WDiscarding? ==> w.id !in commits)
    && (w.WDiscarding? ==> w.outcome.state != Completed)
  }

  /** No step from here on can commit job `id`. */
  ghost predicate Doomed(sl: Slots, g: Gate, w: WorkerPc, id: nat) {
    && id != sl.queuedId
    && (id == sl.executingId ==>
          && !w.WCommitting?
          && (w.WReady? || w.WWriting? || w.WDeciding? ==> id in g.cancelledIds))
  }

  ghost predicate DoomInv(sl: Slots, g: Gate, w: WorkerPc, commits: map<nat, Path>, returned: map<nat, SaveOutcome>) {
    forall id :: id in returned && id !in commits ==> Doomed(sl, g, w, id)
  }

  /** A client that gave up either withdrew its job in time or finds the decision recorded. */
  ghost predicate RaceInv(c: ClientPc, sl: Slots, g: Gate, w: WorkerPc, commits: map<nat, Path>) {
    c.CRecovering? ==>
      || (Doomed(sl, g, w, c.target) && c.target !in commits)
      || (w.WFinishing? && w.id == c.target == g.decidedId)
  }

  /** The job whose temporary file is neither committed nor discarded yet, 0 for none. */
  function UnsettledId(w: WorkerPc): nat {
    if (w.WDeciding? && w.written.Some?) || w.WCommitting? || w.WDiscarding? then w.id else 0
  }

  /** Each temporary file was committed, was discarded, or is being settled now. */
  ghost predicate TempInv(temps: map<nat, Path>, commits: map<nat, Path>, discards: set<nat>, unsettled: nat) {
    && (forall id :: id in temps ==> id in commits || id in discards || id == unsettled)
    && (forall id :: id in commits ==> id in temps && id !in discards && id != unsettled)
    && (forall id :: id in discards ==> id in temps && id != unsettled)
    && (unsettled != 0 ==> unsettled in temps)
  }

  ghost predicate PathInv(temps: map<nat, Path>, w: WorkerPc) {
    && (w.WDeciding? && w.written.Some? ==> w.id in temps && w.written.value == temps[w.id])
    && (w.WCommitting? || w.WDiscarding? ==> w.id in temps && w.temp == temps[w.id])
    && (w.WWriting? ==> w.id !in temps)
  }

  ghost predicate WrittenInv(temps: map<nat, Path>, started: set<nat>) {
    forall id :: id in temps ==> id in started
  }

  /** The counters count events, so equal sizes mean that no job had an event twice. */
  ghost predicate CountInv(h: History) {
    && |h.temps| == h.tempCount && |h.commits| == h.commitCount && |h.discards| == h.discardCount
  }

  predicate OneMutexHolder(c: ClientPc, w: WorkerPc) {
    !(ClientHoldsMutex(c) && w.WRetiring?)
  }

  /** A published outcome is handed out once: nothing is left of it for a second wait. */
  ghost predicate OnceInv(completed: map<nat, SaveOutcome>, g: Gate, w: WorkerPc, commits: map<nat, Path>,
                          returned: map<nat, SaveOutcome>) {
    && (forall id :: id in returned && id in commits ==> id !in completed && !HasDecision(g, id))
    && (w.WRecording? && w.id in commits ==> w.id !in returned)
  }

  ghost predicate CoreInv(s: State) {
    && SlotsInv(s.slots, s.worker)
    && CompletedInv(s.slots)
    && WorkerInv(s.slots, s.worker)
    && GateInv(s.slots, s.gate, s.worker)
  }

  ghost predicate ThreadInv(s: State) {
    && ClientInv(s.client, s.current, s.slots, s.hist.returned)
    && AnsweredUpTo(s.hist.returned, LastAnswered(s.client, s.current))
    && HandedOver(s.gate, s.worker, s.hist.returned)
    && DrainInv(s.drain, s.slots, s.worker)
    && OneMutexHolder(s.client, s.worker)
  }

  ghost predicate FieldInv(s: State) {
    CoreInv(s) && ThreadInv(s)
  }

  ghost predicate OrderInv(s: State) {
    && StartedInv(s.slots, s.worker.WReady?, BusyId(s.worker), s.hist.started)
    && AccountedInv(s.slots, s.worker.WReady?, s.hist.started, s.hist.dropped)
    && AnsweredInv(s.slots.completed, BusyId(s.worker), s.hist.started, s.hist.returned)
  }

  ghost predicate TruthInv(s: State) {
    && CommitsStarted(s.hist.commits, s.hist.started)
    && AllTruthful(s.hist.commits, s.slots.completed)
    && AllTruthful(s.hist.commits, s.hist.returned)
    && WorkerTruth(s.hist.commits, s.gate, s.worker)
    && DoomInv(s.slots, s.gate, s.worker, s.hist.commits, s.hist.returned)
    && RaceInv(s.client, s.slots, s.gate, s.worker, s.hist.commits)
  }

  ghost predicate HandOutInv(s: State) {
    OnceInv(s.slots.completed, s.gate, s.worker, s.hist.commits, s.hist.returned)
  }

  ghost predicate FileInv(s: State) {
    && TempInv(s.hist.temps, s.hist.commits, s.hist.discards, UnsettledId(s.worker))
    && PathInv(s.hist.temps, s.worker)
    && WrittenInv(s.hist.temps, s.hist.started)
    && CountInv(s.hist)
  }

  ghost predicate Inv(s: State) {
    && FieldInv(s) && OrderInv(s) && TruthInv(s) && HandOutInv(s) && FileInv(s)
    && SequenceInv(s.hist.order, s.hist.started)
  }

  lemma InitialInv()
    ensures Inv(INITIAL)
  {
  }

  // ----- preservation, actor by actor ----------------------------------------------------------

  lemma EnterCoreInv(s: State)
    requires FieldInv(s) && OrderInv(s) && ClientEnabled(s, EnterWait)
    ensures CoreInv(AfterEnter(s))
  {
  }

  lemma EnterThreadInv(s: State)
    requires FieldInv(s) && OrderInv(s) && ClientEnabled(s, EnterWait)
    ensures ThreadInv(AfterEnter(s))
  {
  }

  lemma EnterOrderInv(s: State)
    requires FieldInv(s) && OrderInv(s) && ClientEnabled(s, EnterWait)
    ensures OrderInv(AfterEnter(s))
  {
  }

  lemma ResumeCoreInv(s: State, gaveUp: bool)
    requires FieldInv(s) && OrderInv(s) && ClientEnabled(s, Resume(gaveUp))
    ensures CoreInv(AfterResume(s, gaveUp))
  {
  }

  lemma ResumeThreadInv(s: State, gaveUp: bool)
    requires FieldInv(s) && OrderInv(s) && ClientEnabled(s, Resume(gaveUp))
    ensures ThreadInv(AfterResume(s, gaveUp))
  {
  }

  lemma ResumeOrderInv(s: State, gaveUp: bool)
    requires FieldInv(s) && OrderInv(s) && ClientEnabled(s, Resume(gaveUp))
    ensures OrderInv(AfterResume(s, gaveUp))
  {
  }

  lemma SubmitCoreInv(s: State)
    requires FieldInv(s) && OrderInv(s) && ClientEnabled(s, TrySubmit)
    ensures CoreInv(AfterSubmit(s))
  {
  }

  lemma SubmitThreadInv(s: State)
    requires FieldInv(s) && OrderInv(s) && ClientEnabled(s, TrySubmit)
    ensures ThreadInv(AfterSubmit(s))
  {
  }

  lemma SubmitOrderInv(s: State)
    requires FieldInv(s) && OrderInv(s) && ClientEnabled(s, TrySubmit)
    ensures OrderInv(AfterSubmit(s))
  {
  }

  lemma CancelCoreInv(s: State)
    requires FieldInv(s) && OrderInv(s) && ClientEnabled(s, Cancel)
    ensures CoreInv(AfterCancel(s))
  {
  }

  lemma CancelThreadInv(s: State)
    requires FieldInv(s) && OrderInv(s) && ClientEnabled(s, Cancel)
    ensures ThreadInv(AfterCancel(s))
  {
  }

  lemma CancelOrderInv(s: State)
    requires FieldInv(s) && OrderInv(s) && ClientEnabled(s, Cancel)
    ensures OrderInv(AfterCancel(s))
  {
  }

  lemma FinishCoreInv(s: State)
    requires FieldInv(s) && OrderInv(s) && ClientEnabled(s, Finish)
    ensures CoreInv(AfterFinish(s))
  {
  }

  lemma FinishThreadInv(s: State)
    requires FieldInv(s) && OrderInv(s) && ClientEnabled(s, Finish)
    ensures ThreadInv(AfterFinish(s))
  {
  }

  lemma FinishOrderInv(s: State)
    requires FieldInv(s) && OrderInv(s) && ClientEnabled(s, Finish)
    ensures OrderInv(AfterFinish(s))
  {
  }

  lemma RecoverFieldInv(s: State)
    requires FieldInv(s) && OrderInv(s) && ClientEnabled(s, Recover)
    ensures FieldInv(ClientApply(s, Recover)) && OrderInv(ClientApply(s, Recover))
  {
  }

  lemma ClientFieldInv(s: State, c: ClientStep)
    requires FieldInv(s) && OrderInv(s) && ClientEnabled(s, c)
    ensures FieldInv(ClientApply(s, c)) && OrderInv(ClientApply(s, c))
  {
    match c
    case TrySubmit =>
      SubmitCoreInv(s);
      SubmitThreadInv(s);
      SubmitOrderInv(s);
    case EnterWait =>
      EnterCoreInv(s);
      EnterThreadInv(s);
      EnterOrderInv(s);
    case Resume(gaveUp) =>
      ResumeCoreInv(s, gaveUp);
      ResumeThreadInv(s, gaveUp);
      ResumeOrderInv(s, gaveUp);
    case Cancel =>
      CancelCoreInv(s);
      CancelThreadInv(s);
      CancelOrderInv(s);
    case Recover => RecoverFieldInv(s);
    case Finish =>
      FinishCoreInv(s);
      FinishThreadInv(s);
      FinishOrderInv(s);
    case _ =>
  }

  lemma EnterTruthInv(s: State)
    requires FieldInv(s) && OrderInv(s) && TruthInv(s) && ClientEnabled(s, EnterWait)
    ensures TruthInv(ClientApply(s, EnterWait))
  {
  }

  lemma ResumeTruthInv(s: State, gaveUp: bool)
    requires FieldInv(s) && OrderInv(s) && TruthInv(s) && ClientEnabled(s, Resume(gaveUp))
    ensures TruthInv(ClientApply(s, Resume(gaveUp)))
  {
  }

  lemma CancelTruthInv(s: State)
    requires FieldInv(s) && OrderInv(s) && TruthInv(s) && ClientEnabled(s, Cancel)
    ensures TruthInv(ClientApply(s, Cancel))
  {
  }

  lemma RecoverTruthInv(s: State)
    requires FieldInv(s) && OrderInv(s) && TruthInv(s) && ClientEnabled(s, Recover)
    ensures TruthInv(ClientApply(s, Recover))
  {
  }

  lemma ClientTruthInv(s: State, c: ClientStep)
    requires FieldInv(s) && OrderInv(s) && TruthInv(s) && ClientEnabled(s, c)
    ensures TruthInv(ClientApply(s, c))
  {
    match c
    case EnterWait => EnterTruthInv(s);
    case Resume(gaveUp) => ResumeTruthInv(s, gaveUp);
    case Cancel => CancelTruthInv(s);
    case Recover => RecoverTruthInv(s);
    case _ =>
  }

  lemma ClientHandOutInv(s: State, c: ClientStep)
    requires FieldInv(s) && OrderInv(s) && TruthInv(s) && HandOutInv(s) && ClientEnabled(s, c)
    ensures HandOutInv(ClientApply(s, c))
  {
  }

  lemma ClientFileInv(s: State, c: ClientStep)
    requires FileInv(s) && ClientEnabled(s, c)
    ensures FileInv(ClientApply(s, c))
  {
  }

  lemma WorkerCoreInv(s: State, w: WorkerStep)
    requires FieldInv(s) && OrderInv(s) && WorkerEnabled(s, w)
    ensures CoreInv(WorkerApply(s, w))
  {
  }

  lemma WorkerThreadInv(s: State, w: WorkerStep)
    requires FieldInv(s) && OrderInv(s) && WorkerEnabled(s, w)
    ensures ThreadInv(WorkerApply(s, w))
  {
  }

  lemma WorkerFieldInv(s: State, w: WorkerStep)
    requires FieldInv(s) && OrderInv(s) && WorkerEnabled(s, w)
    ensures FieldInv(WorkerApply(s, w))
  {
    WorkerCoreInv(s, w);
    WorkerThreadInv(s, w);
  }

  lemma RetireOrderInv(s: State)
    requires FieldInv(s) && OrderInv(s) && WorkerEnabled(s, Retire)
    ensures OrderInv(WorkerApply(s, Retire))
  {
  }

  lemma LoopOrderInv(s: State)
    requires FieldInv(s) && OrderInv(s) && WorkerEnabled(s, Loop)
    ensures OrderInv(WorkerApply(s, Loop))
  {
  }

  lemma WorkerOrderInv(s: State, w: WorkerStep)
    requires FieldInv(s) && OrderInv(s) && WorkerEnabled(s, w)
    ensures OrderInv(WorkerApply(s, w))
  {
    match w
    case Loop => LoopOrderInv(s);
    case Retire => RetireOrderInv(s);
    case _ =>
  }

  lemma RetireTruthInv(s: State)
    requires FieldInv(s) && OrderInv(s) && TruthInv(s) && WorkerEnabled(s, Retire)
    ensures TruthInv(WorkerApply(s, Retire))
  {
  }

  lemma LoopTruthInv(s: State)
    requires FieldInv(s) && OrderInv(s) && TruthInv(s) && WorkerEnabled(s, Loop)
    ensures TruthInv(WorkerApply(s, Loop))
  {
  }

  lemma DecideTruthInv(s: State)
    requires FieldInv(s) && OrderInv(s) && TruthInv(s) && WorkerEnabled(s, Decide)
    ensures TruthInv(WorkerApply(s, Decide))
  {
  }

  lemma RecordTruthInv(s: State)
    requires FieldInv(s) && OrderInv(s) && TruthInv(s) && WorkerEnabled(s, Record)
    ensures TruthInv(WorkerApply(s, Record))
  {
  }

  lemma RelockTruthInv(s: State)
    requires FieldInv(s) && OrderInv(s) && TruthInv(s) && WorkerEnabled(s, Relock)
    ensures TruthInv(WorkerApply(s, Relock))
  {
  }

  lemma CommitTruthInv(s: State, committed: SinkResult)
    requires FieldInv(s) && OrderInv(s) && TruthInv(s) && WorkerEnabled(s, Committed(committed))
    ensures TruthInv(WorkerApply(s, Committed(committed)))
  {
  }

  lemma WorkerTruthInv(s: State, w: WorkerStep)
    requires FieldInv(s) && OrderInv(s) && TruthInv(s) && WorkerEnabled(s, w)
    ensures TruthInv(WorkerApply(s, w))
  {
    match w
    case Loop => LoopTruthInv(s);
    case Decide => DecideTruthInv(s);
    case Record => RecordTruthInv(s);
    case Relock => RelockTruthInv(s);
    case Retire => RetireTruthInv(s);
    case Committed(committed) => CommitTruthInv(s, committed);
    case _ =>
  }

  lemma SinkInv(s: State, w: WorkerStep)
    requires SlotsInv(s.slots, s.worker) && WorkerInv(s.slots, s.worker) && OrderInv(s) && FileInv(s)
    requires WorkerEnabled(s, w) && (w.Wrote? || w.Committed? || w.Discarded?)
    ensures FileInv(WorkerApply(s, w))
  {
    if w.Committed? {
      CommitFileInv(s, w);
    }
  }

  lemma CommitFileInv(s: State, w: WorkerStep)
    requires SlotsInv(s.slots, s.worker) && WorkerInv(s.slots, s.worker) && OrderInv(s) && FileInv(s)
    requires WorkerEnabled(s, w) && w.Committed?
    ensures FileInv(WorkerApply(s, w))
  {
  }

  lemma WorkerHandOutInv(s: State, w: WorkerStep)
    requires FieldInv(s) && OrderInv(s) && TruthInv(s) && HandOutInv(s) && WorkerEnabled(s, w)
    ensures HandOutInv(WorkerApply(s, w))
  {
  }

  lemma WorkerFileInv(s: State, w: WorkerStep)
    requires SlotsInv(s.slots, s.worker) && WorkerInv(s.slots, s.worker) && OrderInv(s) && FileInv(s)
    requires WorkerEnabled(s, w)
    ensures FileInv(WorkerApply(s, w))
  {
    if w.Wrote? || w.Committed? || w.Discarded? {
      SinkInv(s, w);
    }
  }

  lemma WorkerSequenceInv(s: State, w: WorkerStep)
    requires SlotsInv(s.slots, s.worker) && OrderInv(s) && SequenceInv(s.hist.order, s.hist.started)
    requires WorkerEnabled(s, w)
    ensures var h := WorkerApply(s, w).hist; SequenceInv(h.order, h.started)
  {
    if w.Loop? && s.slots.executing.Some? {
      var order, id := s.hist.order, s.slots.executingId;
      forall x | x in s.hist.started + {id}
        ensures x in order + [id]
      {
        assert (order + [id])[|order|] == id;
      }
    }
  }

  lemma StopFieldInv(s: State)
    requires FieldInv(s) && OrderInv(s) && DrainEnabled(s, StopWork)
    ensures FieldInv(DrainApply(s, StopWork)) && OrderInv(DrainApply(s, StopWork))
  {
  }

  lemma StopTruthInv(s: State)
    requires FieldInv(s) && TruthInv(s) && DrainEnabled(s, StopWork)
    ensures TruthInv(DrainApply(s, StopWork))
  {
  }

  lemma StopOtherInv(s: State)
    requires HandOutInv(s) && FileInv(s) && DrainEnabled(s, StopWork)
    ensures var t := DrainApply(s, StopWork);
            && HandOutInv(t) && FileInv(t)
            && t.hist.order == s.hist.order && t.hist.started == s.hist.started
  {
  }

  lemma DrainStepInv(s: State, d: DrainStep)
    requires Inv(s) && DrainEnabled(s, d)
    ensures Inv(DrainApply(s, d))
  {
    if d.StopWork? {
      StopFieldInv(s);
      StopTruthInv(s);
      StopOtherInv(s);
    }
  }

  lemma ClientKeepsOrder(s: State, c: ClientStep)
    requires ClientEnabled(s, c)
    ensures ClientApply(s, c).hist.order == s.hist.order && ClientApply(s, c).hist.started == s.hist.started
  {
  }

  lemma ClientStepInv(s: State, c: ClientStep)
    requires Inv(s) && ClientEnabled(s, c)
    ensures Inv(ClientApply(s, c))
  {
    ClientFieldInv(s, c);
    ClientTruthInv(s, c);
    ClientHandOutInv(s, c);
    ClientFileInv(s, c);
    ClientKeepsOrder(s, c);
  }

  lemma WorkerStepInv(s: State, w: WorkerStep)
    requires Inv(s) && WorkerEnabled(s, w)
    ensures Inv(WorkerApply(s, w))
  {
    WorkerFieldInv(s, w);
    WorkerOrderInv(s, w);
    WorkerTruthInv(s, w);
    WorkerHandOutInv(s, w);
    WorkerFileInv(s, w);
    WorkerSequenceInv(s, w);
  }

  lemma StepInv(s: State, step: Step)
    requires Inv(s) && Enabled(s, step)
    ensures Inv(Apply(s, step))
  {
    match step
    case Tick(_) =>
    case Client(c) => ClientStepInv(s, c);
    case Worker(w) => WorkerStepInv(s, w);
    case Drain(d) => DrainStepInv(s, d);
  }
}
