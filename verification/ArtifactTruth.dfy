/** Inspections, save worker, capture sink and retention together: what the caller is told
    against which files exist (src/runtime/context.cpp:496-583).

    The worker protocol runs unchanged; here its sink calls act on the captures directory,
    its client steps are driven by `finalize_post_frame`, and a retention run may delete
    any file it is allowed to see at any moment. */
module ArtifactTruth {
  import opened Options
  import opened SaveWorkerModel
  import opened SaveProtocol
  import opened SaveInvariant
  import opened SaveTheorems
  import F = Finalization
  import CS = CaptureStore

  /** What an inspection brings to `finalize_post_frame` once it has a valid frame. */
  datatype Inspection = Inspection(
    policy: string,
    required: bool,
    verdict: F.Verdict,
    failure: Option<TechnicalFailure>,
    deadline: nat,
    job: SaveJob)

  datatype TechnicalFailure = TechnicalFailure(status: F.Status, error: F.Detail)

  datatype Attempt = NotDue | Refused | Finished(jobId: nat, outcome: SaveOutcome)

  /** What the caller of the inspection receives. */
  datatype Report = Report(
    insp: Inspection,
    attempt: Attempt,
    answeredAt: nat,
    status: F.Status,
    verdict: F.Verdict,
    imagePath: Path)

  datatype InspPc =
    | NoInspection
    | Saving(insp: Inspection)
    | Polling(insp: Inspection)                      // a refused required save waits out its deadline
    | Reporting(insp: Inspection, attempt: Attempt)

  datatype Sys = Sys(
    w: State,
    store: CS.Store,
    initial: set<string>,          // files found in the directory at start
    leftovers: set<string>,        // temporaries whose removal failed
    serial: nat,
    nextSequence: nat,             // every later frame has at least this sequence number
    jobs: map<nat, SaveJob>,       // the accepted jobs by id
    pc: InspPc,
    reports: seq<Report>)

  ghost predicate IsInitial(s: Sys) {
    && s.w == INITIAL && s.store == CS.Store(s.initial, map[]) && s.leftovers == {} && s.serial == 0
    && s.jobs == map[] && s.pc.NoInspection? && s.reports == []
  }

  function Identify(job: SaveJob): CS.Identity {
    CS.Identity(job.recipeId, job.requestId, job.sequence)
  }

  // ----- finalize_post_frame --------------------------------------------------------------------

  function ExecutionOk(i: Inspection): bool {
    i.failure.None?
  }

  function Verdict(i: Inspection): F.Verdict {
    if ExecutionOk(i) then i.verdict else F.NotEvaluated
  }

  predicate Due(i: Inspection) {
    F.DecideCaptureSave(i.policy, Verdict(i), ExecutionOk(i)) == F.Save
  }

  predicate WasCommitted(a: Attempt) {
    a.Finished? && a.outcome.state == Completed
  }

  function RequestOf(i: Inspection, a: Attempt, expired: bool): F.FinalizeRequest {
    F.FinalizeRequest(
      Verdict(i), ExecutionOk(i), true,
      if ExecutionOk(i) then F.StatusOk
      else if i.failure.value.status != F.StatusOk then i.failure.value.status else F.InternalError,
      if ExecutionOk(i) then F.NoDetail else i.failure.value.error,
      if Due(i) then F.SaveRequirementFor(i.policy, i.required) else F.NotRequired,
      !a.NotDue?, WasCommitted(a), !a.NotDue? && !WasCommitted(a),
      expired && !WasCommitted(a))
  }

  function ReportOf(i: Inspection, a: Attempt, now: nat): Report {
    var d := F.FinalizeAfterFrame(RequestOf(i, a, now >= i.deadline));
    Report(i, a, now, d.status, d.verdict,
           if d.publishImagePath && WasCommitted(a) && a.outcome.path != "" then a.outcome.path else "")
  }

  // ----- steps ------------------------------------------------------------------------------------

  datatype SysStep =
    | StartInspection(insp: Inspection)
    | Plain(step: Step)                                   // a worker, client, drain or clock step without files
    | SinkWrite(stamp: string, result: CS.WriteResult, error: ErrorCode)
    | SinkCommit(stamp: string, renameOk: bool, error: ErrorCode)
    | SinkDiscard(removeOk: bool)
    | FinishSave
    | EndPolling
    | Answer
    | Retain(name: string)

  predicate IsPlain(step: Step) {
    match step
    case Client(c) => !c.Begin? && !c.Finish?
    case Worker(w) => !w.Wrote? && !w.Committed? && !w.Discarded?
    case _ => true
  }

  predicate SysEnabled(s: Sys, step: SysStep) {
    match step
    case StartInspection(insp) => s.pc.NoInspection? && insp.job.sequence >= s.nextSequence
    case Plain(p) => IsPlain(p) && Enabled(s.w, p)
    case SinkWrite(stamp, _, _) => s.w.worker.WWriting? && CS.IsStamp(stamp)
    case SinkCommit(stamp, _, _) => s.w.worker.WCommitting? && CS.IsStamp(stamp)
    case SinkDiscard(_) => s.w.worker.WDiscarding?
    case FinishSave => s.pc.Saving? && ClientEnabled(s.w, Finish)
    case EndPolling => s.pc.Polling? && s.w.now >= s.pc.insp.deadline
    case Answer => s.pc.Reporting?
    case Retain(name) => name in s.store.files && !CS.IsTemporaryName(name)
  }

  /** A due save starts the client of the worker protocol; the gate made it idle. */
  function AfterStart(s: Sys, insp: Inspection): Sys
    requires SysEnabled(s, StartInspection(insp))
  {
    var t := s.(nextSequence := insp.job.sequence + 1);
    if Due(insp)
    then t.(w := s.w.(client := CSubmitting(insp.job, insp.deadline)), pc := Saving(insp))
    else t.(pc := Reporting(insp, NotDue))
  }

  function AfterPlain(s: Sys, p: Step): Sys
    requires SysEnabled(s, Plain(p))
  {
    var w := Apply(s.w, p);
    s.(w := w,
       jobs := if p == Client(TrySubmit) && Accepts(s.w.slots) then s.jobs[w.current := s.w.client.job] else s.jobs)
  }

  function AfterSinkWrite(s: Sys, stamp: string, result: CS.WriteResult, error: ErrorCode): Sys
    requires SysEnabled(s, SinkWrite(stamp, result, error))
  {
    var temp := CS.TemporaryName(stamp, s.serial);
    var reply := if result.Written? then Ok(temp) else Err(error);
    s.(w := WorkerApply(s.w, Wrote(reply)),
       store := CS.AfterWrite(s.store, temp, Identify(s.w.worker.job), result),
       leftovers := if result.WriteFailed? && result.partialLeft then s.leftovers + {temp} else s.leftovers,
       serial := s.serial + 1)
  }

  function AfterSinkCommit(s: Sys, stamp: string, renameOk: bool, error: ErrorCode): Sys
    requires SysEnabled(s, SinkCommit(stamp, renameOk, error))
  {
    var temp := s.w.worker.temp;
    var reply :=
      if CS.CanCommit(s.store, temp, renameOk) then Ok(CS.CommittedName(s.store, temp, stamp)) else Err(error);
    s.(w := WorkerApply(s.w, Committed(reply)), store := CS.AfterCommit(s.store, temp, stamp, renameOk))
  }

  function AfterSinkDiscard(s: Sys, removeOk: bool): Sys
    requires SysEnabled(s, SinkDiscard(removeOk))
  {
    var temp := s.w.worker.temp;
    s.(w := WorkerApply(s.w, Discarded), store := CS.AfterDiscard(s.store, temp, removeOk),
       leftovers := if removeOk then s.leftovers else s.leftovers + {temp})
  }

  function AfterFinishSave(s: Sys): Sys
    requires SysEnabled(s, FinishSave)
  {
    var i := s.pc.insp;
    var t := s.(w := ClientApply(s.w, Finish));
    if s.w.client.CReturned? then t.(pc := Reporting(i, Finished(s.w.current, s.w.client.outcome)))
    else if F.SaveRequirementFor(i.policy, i.required) == F.Required then t.(pc := Polling(i))
    else t.(pc := Reporting(i, Refused))
  }

  function AfterAnswer(s: Sys): Sys
    requires SysEnabled(s, Answer)
  {
    var report := ReportOf(s.pc.insp, s.pc.attempt, s.w.now);
    s.(pc := NoInspection, reports := s.reports + [report])
  }

  function SysApply(s: Sys, step: SysStep): Sys
    requires SysEnabled(s, step)
  {
    match step
    case StartInspection(insp) => AfterStart(s, insp)
    case Plain(p) => AfterPlain(s, p)
    case SinkWrite(stamp, result, error) => AfterSinkWrite(s, stamp, result, error)
    case SinkCommit(stamp, renameOk, error) => AfterSinkCommit(s, stamp, renameOk, error)
    case SinkDiscard(removeOk) => AfterSinkDiscard(s, removeOk)
    case FinishSave => AfterFinishSave(s)
    case EndPolling => s.(pc := Reporting(s.pc.insp, Refused))
    case Answer => AfterAnswer(s)
    case Retain(name) => s.(store := s.store.(files := s.store.files - {name}))
  }

  predicate SysRunnable(s: Sys, steps: seq<SysStep>)
    decreases |steps|
  {
    steps == [] || (SysEnabled(s, steps[0]) && SysRunnable(SysApply(s, steps[0]), steps[1..]))
  }

  function SysRun(s: Sys, steps: seq<SysStep>): Sys
    requires SysRunnable(s, steps)
    decreases |steps|
  {
    if steps == [] then s else SysRun(SysApply(s, steps[0]), steps[1..])
  }

  // ----- invariant ----------------------------------------------------------------------------------

  /** The inspection is in its saving phase exactly while the protocol's client is busy, and
      the client carries that inspection's job. */
  ghost predicate PcInv(pc: InspPc, c: ClientPc, current: nat, jobs: map<nat, SaveJob>) {
    && (pc.Saving? <==> !c.CIdle?)
    && (c.CSubmitting? ==> c.job == pc.insp.job && c.deadline == pc.insp.deadline)
    && (pc.Saving? ==> Due(pc.insp))
    && (pc.Saving? && !c.CSubmitting? && !c.CRefused? ==> current in jobs && jobs[current] == pc.insp.job)
    && (pc.Polling? ==> Due(pc.insp))
    && (pc.Reporting? ==> (Due(pc.insp) <==> !pc.attempt.NotDue?))
  }

  /** The accepted jobs carry increasing frame sequences. */
  ghost predicate JobsInv(jobs: map<nat, SaveJob>, nextId: nat, nextSequence: nat) {
    && (forall id: nat :: id in jobs <==> 0 < id <= nextId)
    && (forall id :: id in jobs ==> jobs[id].sequence < nextSequence)
    && (forall a, b :: a in jobs && b in jobs && a < b ==> jobs[a].sequence < jobs[b].sequence)
  }

  /** A job about to be submitted is newer than every accepted one. */
  ghost predicate FreshJobInv(c: ClientPc, jobs: map<nat, SaveJob>, nextSequence: nat) {
    c.CSubmitting? ==>
      && c.job.sequence < nextSequence
      && forall id :: id in jobs ==> jobs[id].sequence < c.job.sequence
  }

  /** `attempt` is what the worker returned for a job of this inspection. */
  ghost predicate AttemptInv(i: Inspection, a: Attempt, returned: map<nat, SaveOutcome>, jobs: map<nat, SaveJob>) {
    a.Finished? ==>
      && a.jobId in returned && returned[a.jobId] == a.outcome
      && a.jobId in jobs && jobs[a.jobId] == i.job
  }

  ghost predicate ReportInv(r: Report, returned: map<nat, SaveOutcome>, jobs: map<nat, SaveJob>) {
    && r == ReportOf(r.insp, r.attempt, r.answeredAt)
    && (Due(r.insp) <==> !r.attempt.NotDue?)
    && AttemptInv(r.insp, r.attempt, returned, jobs)
  }

  ghost predicate ReportsInv(reports: seq<Report>, returned: map<nat, SaveOutcome>, jobs: map<nat, SaveJob>) {
    forall i :: 0 <= i < |reports| ==> ReportInv(reports[i], returned, jobs)
  }

  /** Inspections are answered in the order of their frames. */
  ghost predicate AgesInv(pc: InspPc, reports: seq<Report>, nextSequence: nat) {
    && (!pc.NoInspection? ==> pc.insp.job.sequence < nextSequence)
    && (forall i :: 0 <= i < |reports| ==>
          reports[i].insp.job.sequence < if pc.NoInspection? then nextSequence else pc.insp.job.sequence)
    && (forall i, j :: 0 <= i < j < |reports| ==> reports[i].insp.job.sequence < reports[j].insp.job.sequence)
  }

  /** No accepted job has the frame sequence of inspection `i`. */
  ghost predicate Unsubmitted(i: Inspection, jobs: map<nat, SaveJob>) {
    forall id :: id in jobs ==> jobs[id].sequence != i.job.sequence
  }

  ghost predicate UnsubmittedInv(pc: InspPc, c: ClientPc, reports: seq<Report>, jobs: map<nat, SaveJob>) {
    && (pc.Polling? || (pc.Reporting? && !pc.attempt.Finished?) || (pc.Saving? && c.CRefused?) ==>
          Unsubmitted(pc.insp, jobs))
    && (forall i :: 0 <= i < |reports| && !reports[i].attempt.Finished? ==> Unsubmitted(reports[i].insp, jobs))
  }

  /** The capture name that job `id` was published under. */
  ghost predicate PublishedAs(jobs: map<nat, SaveJob>, id: nat, name: string) {
    id in jobs && exists stamp :: CS.IsStamp(stamp) && name == CS.CaptureFilename(stamp, Identify(jobs[id]))
  }

  ghost predicate PublishInv(commits: map<nat, Path>, jobs: map<nat, SaveJob>) {
    forall id :: id in commits ==> PublishedAs(jobs, id, commits[id])
  }

  /** Every final file was there at the start or is the commit of some job. */
  ghost predicate FinalFilesInv(files: set<string>, initial: set<string>, commits: map<nat, Path>) {
    forall name :: name in files && !CS.IsTemporaryName(name) && name !in initial ==>
      exists id :: id in commits && commits[id] == name
  }

  /** The temporary between the two phases of `execute`. */
  function Held(w: WorkerPc): Option<Path> {
    if w.WDeciding? then w.written else if w.WCommitting? || w.WDiscarding? then Some(w.temp) else None
  }

  /** Only that temporary is registered, under the identity of the job being executed. */
  ghost predicate PendingInv(pending: map<string, CS.Identity>, files: set<string>, held: Option<Path>, id: nat,
                             jobs: map<nat, SaveJob>) {
    && (held.Some? ==> CS.IsTemporaryName(held.value))
    && (forall t :: t in pending ==>
          t in files && held == Some(t) && id in jobs && pending[t] == Identify(jobs[id]))
  }

  ghost predicate RegisteredInv(pending: map<string, CS.Identity>, w: WorkerPc) {
    && (w.WDeciding? && w.written.Some? ==> w.written.value in pending)
    && (w.WCommitting? ==> w.temp in pending)
  }

  ghost predicate TempFilesInv(files: set<string>, initial: set<string>, leftovers: set<string>, held: Option<Path>) {
    forall name :: name in files && CS.IsTemporaryName(name) ==>
      name in initial || name in leftovers || held == Some(name)
  }

  ghost predicate JobSlotInv(sl: Slots, jobs: map<nat, SaveJob>) {
    && (sl.executing.Some? ==> sl.executingId in jobs && jobs[sl.executingId] == sl.executing.value)
    && (sl.queued.Some? ==> sl.queuedId in jobs && jobs[sl.queuedId] == sl.queued.value)
  }

  ghost predicate InspectionInv(s: Sys) {
    && PcInv(s.pc, s.w.client, s.w.current, s.jobs)
    && JobsInv(s.jobs, s.w.slots.nextId, s.nextSequence)
    && FreshJobInv(s.w.client, s.jobs, s.nextSequence)
    && JobSlotInv(s.w.slots, s.jobs)
    && (s.pc.Polling? ==> s.w.slots.stopping)
    && (s.pc.Reporting? ==> AttemptInv(s.pc.insp, s.pc.attempt, s.w.hist.returned, s.jobs))
    && ReportsInv(s.reports, s.w.hist.returned, s.jobs)
    && AgesInv(s.pc, s.reports, s.nextSequence)
    && UnsubmittedInv(s.pc, s.w.client, s.reports, s.jobs)
  }

  ghost predicate StoreInv(s: Sys) {
    && PublishInv(s.w.hist.commits, s.jobs)
    && FinalFilesInv(s.store.files, s.initial, s.w.hist.commits)
    && PendingInv(s.store.pending, s.store.files, Held(s.w.worker), BusyId(s.w.worker), s.jobs)
    && RegisteredInv(s.store.pending, s.w.worker)
    && TempFilesInv(s.store.files, s.initial, s.leftovers, Held(s.w.worker))
  }

  ghost predicate SysInv(s: Sys) {
    Inv(s.w) && InspectionInv(s) && StoreInv(s)
  }

  lemma InitialSysInv(s: Sys)
    requires IsInitial(s)
    ensures SysInv(s)
  {
    InitialInv();
  }

  lemma StartInspectionInv(s: Sys, insp: Inspection)
    requires InspectionInv(s) && SysEnabled(s, StartInspection(insp))
    ensures InspectionInv(AfterStart(s, insp))
  {
  }

  lemma StartStoreInv(s: Sys, insp: Inspection)
    requires StoreInv(s) && SysEnabled(s, StartInspection(insp))
    ensures StoreInv(AfterStart(s, insp))
  {
  }

  // ----- protocol steps that touch no file --------------------------------------------------------

  /** Slots `t` hold no job that slots `s` did not hold. */
  predicate SlotsFrom(s: Slots, t: Slots) {
    && (t.executing.Some? ==>
          || (t.executing == s.executing && t.executingId == s.executingId)
          || (t.executing == s.queued && t.executingId == s.queuedId))
    && (t.queued.Some? ==> t.queued == s.queued && t.queuedId == s.queuedId)
  }

  predicate Quiet(p: Step) {
    IsPlain(p) && p != Client(TrySubmit)
  }

  lemma QuietStep(w: State, p: Step)
    requires Quiet(p) && Enabled(w, p)
    ensures var t := Apply(w, p);
            && SlotsFrom(w.slots, t.slots)
            && t.slots.nextId == w.slots.nextId && t.current == w.current && (w.slots.stopping ==> t.slots.stopping)
            && t.hist.commits == w.hist.commits
            && Held(t.worker) == Held(w.worker)
            && (Held(t.worker).Some? ==> BusyId(t.worker) == BusyId(w.worker))
            && (t.worker.WDeciding? || t.worker.WCommitting? ==> w.worker.WDeciding? || w.worker.WCommitting?)
  {
    QuietWorker(w, p);
    QuietSlots(w, p);
  }

  lemma QuietSlots(w: State, p: Step)
    requires Quiet(p) && Enabled(w, p)
    ensures var t := Apply(w, p); SlotsFrom(w.slots, t.slots) && t.slots.nextId == w.slots.nextId
  {
  }

  lemma QuietWorker(w: State, p: Step)
    requires Quiet(p) && Enabled(w, p)
    ensures var t := Apply(w, p);
            && Held(t.worker) == Held(w.worker)
            && (Held(t.worker).Some? ==> BusyId(t.worker) == BusyId(w.worker))
            && (t.worker.WDeciding? || t.worker.WCommitting? ==> w.worker.WDeciding? || w.worker.WCommitting?)
  {
  }

  /** How the client moves when it neither begins, submits nor finishes. */
  lemma QuietClient(w: State, p: Step)
    requires Quiet(p) && Enabled(w, p)
    ensures var c, d := w.client, Apply(w, p).client;
            && (c.CIdle? <==> d.CIdle?)
            && (c.CSubmitting? <==> d.CSubmitting?) && (d.CSubmitting? ==> d == c)
            && (c.CRefused? <==> d.CRefused?)
  {
  }

  lemma ReportsKept(reports: seq<Report>, r: map<nat, SaveOutcome>, r': map<nat, SaveOutcome>, jobs: map<nat, SaveJob>,
                    jobs': map<nat, SaveJob>)
    requires ReportsInv(reports, r, jobs)
    requires forall id :: id in r ==> id in r' && r'[id] == r[id]
    requires forall id :: id in jobs ==> id in jobs' && jobs'[id] == jobs[id]
    ensures ReportsInv(reports, r', jobs')
  {
    forall i | 0 <= i < |reports|
      ensures ReportInv(reports[i], r', jobs')
    {
      assert ReportInv(reports[i], r, jobs);
    }
  }

  lemma QuietInspectionInv(s: Sys, p: Step)
    requires InspectionInv(s) && SysEnabled(s, Plain(p)) && Quiet(p)
    requires Extends(s.w.hist, Apply(s.w, p).hist)
    ensures InspectionInv(AfterPlain(s, p))
  {
    QuietStep(s.w, p);
    QuietClient(s.w, p);
    ReportsKept(s.reports, s.w.hist.returned, Apply(s.w, p).hist.returned, s.jobs, s.jobs);
  }

  lemma QuietStoreInv(s: Sys, p: Step)
    requires StoreInv(s) && SysEnabled(s, Plain(p)) && Quiet(p)
    ensures StoreInv(AfterPlain(s, p))
  {
    QuietStep(s.w, p);
  }

  lemma SubmitInspectionInv(s: Sys)
    requires FieldInv(s.w) && InspectionInv(s) && SysEnabled(s, Plain(Client(TrySubmit)))
    ensures InspectionInv(AfterPlain(s, Client(TrySubmit)))
  {
    var t := AfterPlain(s, Client(TrySubmit));
    assert t.w.hist == s.w.hist;
    ReportsKept(s.reports, s.w.hist.returned, t.w.hist.returned, s.jobs, t.jobs);
    SubmitJobsInv(s);
  }

  lemma SubmitJobsInv(s: Sys)
    requires FieldInv(s.w) && JobsInv(s.jobs, s.w.slots.nextId, s.nextSequence) && JobSlotInv(s.w.slots, s.jobs)
    requires PcInv(s.pc, s.w.client, s.w.current, s.jobs) && FreshJobInv(s.w.client, s.jobs, s.nextSequence)
    requires SysEnabled(s, Plain(Client(TrySubmit)))
    ensures var t := AfterPlain(s, Client(TrySubmit));
            && PcInv(t.pc, t.w.client, t.w.current, t.jobs) && FreshJobInv(t.w.client, t.jobs, t.nextSequence)
            && JobsInv(t.jobs, t.w.slots.nextId, t.nextSequence) && JobSlotInv(t.w.slots, t.jobs)
  {
    SubmitNewJob(s);
  }

  lemma SubmitNewJob(s: Sys)
    requires FieldInv(s.w) && JobsInv(s.jobs, s.w.slots.nextId, s.nextSequence)
    requires FreshJobInv(s.w.client, s.jobs, s.nextSequence) && SysEnabled(s, Plain(Client(TrySubmit)))
    ensures var t := AfterPlain(s, Client(TrySubmit)); JobsInv(t.jobs, t.w.slots.nextId, t.nextSequence)
  {
  }

  lemma SubmitStoreInv(s: Sys)
    requires FieldInv(s.w) && JobsInv(s.jobs, s.w.slots.nextId, s.nextSequence) && StoreInv(s)
    requires SysEnabled(s, Plain(Client(TrySubmit)))
    ensures StoreInv(AfterPlain(s, Client(TrySubmit)))
  {
    var t := AfterPlain(s, Client(TrySubmit));
    assert t.w.hist == s.w.hist;
    assert Held(t.w.worker) == Held(s.w.worker) && BusyId(t.w.worker) == BusyId(s.w.worker);
  }

  // ----- sink steps ----------------------------------------------------------------------------------

  lemma SinkWriteInspectionInv(s: Sys, stamp: string, result: CS.WriteResult, error: ErrorCode)
    requires InspectionInv(s) && SysEnabled(s, SinkWrite(stamp, result, error))
    ensures InspectionInv(AfterSinkWrite(s, stamp, result, error))
  {
    var t := AfterSinkWrite(s, stamp, result, error);
    assert t.w.hist.returned == s.w.hist.returned && t.w.client == s.w.client && t.w.slots == s.w.slots;
  }

  lemma SinkWriteStoreInv(s: Sys, stamp: string, result: CS.WriteResult, error: ErrorCode)
    requires WorkerInv(s.w.slots, s.w.worker) && SlotsInv(s.w.slots, s.w.worker) && JobSlotInv(s.w.slots, s.jobs)
    requires StoreInv(s) && SysEnabled(s, SinkWrite(stamp, result, error))
    ensures StoreInv(AfterSinkWrite(s, stamp, result, error))
  {
    CS.NamesAreDisjoint(stamp, Identify(s.w.worker.job), s.serial);
    var t := AfterSinkWrite(s, stamp, result, error);
    assert t.w.hist.commits == s.w.hist.commits;
  }

  lemma SinkCommitInspectionInv(s: Sys, stamp: string, renameOk: bool, error: ErrorCode)
    requires InspectionInv(s) && SysEnabled(s, SinkCommit(stamp, renameOk, error))
    ensures InspectionInv(AfterSinkCommit(s, stamp, renameOk, error))
  {
    var t := AfterSinkCommit(s, stamp, renameOk, error);
    assert t.w.hist.returned == s.w.hist.returned && t.w.slots == s.w.slots && t.w.client == s.w.client;
  }

  /** A successful commit: the temporary becomes the job's capture. */
  lemma CommitKeepsFiles(store: CS.Store, temp: string, stamp: string, id: nat, commits: map<nat, Path>,
                         initial: set<string>, jobs: map<nat, SaveJob>)
    requires temp in store.pending && CS.IsStamp(stamp) && id in jobs && store.pending[temp] == Identify(jobs[id])
    requires id !in commits
    requires PublishInv(commits, jobs) && FinalFilesInv(store.files, initial, commits)
    ensures var name := CS.CommittedName(store, temp, stamp);
            var commits' := commits[id := name];
            && PublishInv(commits', jobs)
            && FinalFilesInv(CS.AfterCommit(store, temp, stamp, true).files, initial, commits')
  {
    var name := CS.CommittedName(store, temp, stamp);
    var commits' := commits[id := name];
    assert PublishedAs(jobs, id, name);
    forall f | f in CS.AfterCommit(store, temp, stamp, true).files && !CS.IsTemporaryName(f) && f !in initial
      ensures exists k :: k in commits' && commits'[k] == f
    {
      if f == name {
        assert commits'[id] == f;
      } else {
        var k :| k in commits && commits[k] == f;
        assert commits'[k] == f;
      }
    }
  }

  lemma SinkCommitStoreInv(s: Sys, stamp: string, renameOk: bool, error: ErrorCode)
    requires StoreInv(s) && SysEnabled(s, SinkCommit(stamp, renameOk, error))
    requires WorkerTruth(s.w.hist.commits, s.w.gate, s.w.worker)
    ensures StoreInv(AfterSinkCommit(s, stamp, renameOk, error))
  {
    var id, temp := s.w.worker.id, s.w.worker.temp;
    CS.NamesAreDisjoint(stamp, Identify(s.jobs[id]), s.serial);
    if renameOk {
      CommitKeepsFiles(s.store, temp, stamp, id, s.w.hist.commits, s.initial, s.jobs);
    } else {
      FailedCommitStoreInv(s, stamp, error);
    }
  }

  lemma FailedCommitStoreInv(s: Sys, stamp: string, error: ErrorCode)
    requires StoreInv(s) && SysEnabled(s, SinkCommit(stamp, false, error))
    ensures StoreInv(AfterSinkCommit(s, stamp, false, error))
  {
    var t := AfterSinkCommit(s, stamp, false, error);
    Unregistered(s.store.pending, s.store.files, Some(s.w.worker.temp), s.w.worker.id, s.jobs, s.w.worker.temp);
    assert t.w.hist.commits == s.w.hist.commits && t.store.files == s.store.files;
    assert Held(t.w.worker) == Held(s.w.worker) && BusyId(t.w.worker) == BusyId(s.w.worker);
  }

  lemma Unregistered(pending: map<string, CS.Identity>, files: set<string>, held: Option<Path>, id: nat,
                     jobs: map<nat, SaveJob>, temp: string)
    requires PendingInv(pending, files, held, id, jobs)
    ensures PendingInv(pending - {temp}, files, held, id, jobs)
  {
  }

  lemma SinkDiscardInv(s: Sys, removeOk: bool)
    requires InspectionInv(s) && StoreInv(s) && SysEnabled(s, SinkDiscard(removeOk))
    ensures InspectionInv(AfterSinkDiscard(s, removeOk)) && StoreInv(AfterSinkDiscard(s, removeOk))
  {
    var t := AfterSinkDiscard(s, removeOk);
    assert t.w.hist.returned == s.w.hist.returned && t.w.hist.commits == s.w.hist.commits;
  }

  // ----- the other steps ------------------------------------------------------------------------------

  lemma FinishKeeps(w: State)
    requires ClientEnabled(w, Finish)
    ensures var t := ClientApply(w, Finish);
            && t.hist.returned == w.hist.returned && t.hist.commits == w.hist.commits && t.worker == w.worker
            && t.client.CIdle? && t.current == w.current && SlotsFrom(w.slots, t.slots)
            && t.slots.nextId == w.slots.nextId
            && t.slots.stopping == w.slots.stopping
  {
  }

  lemma FinishInspectionInv(s: Sys)
    requires FieldInv(s.w) && InspectionInv(s) && SysEnabled(s, FinishSave)
    ensures InspectionInv(AfterFinishSave(s))
  {
    FinishKeeps(s.w);
    FinishPcInv(s);
  }

  lemma FinishPcInv(s: Sys)
    requires ClientInv(s.w.client, s.w.current, s.w.slots, s.w.hist.returned)
    requires PcInv(s.pc, s.w.client, s.w.current, s.jobs) && UnsubmittedInv(s.pc, s.w.client, s.reports, s.jobs)
    requires SysEnabled(s, FinishSave)
    ensures var t := AfterFinishSave(s);
            && PcInv(t.pc, t.w.client, t.w.current, t.jobs) && UnsubmittedInv(t.pc, t.w.client, t.reports, t.jobs)
            && (t.pc.Reporting? ==> AttemptInv(t.pc.insp, t.pc.attempt, t.w.hist.returned, t.jobs))
  {
    FinishKeeps(s.w);
  }

  lemma FinishStoreInv(s: Sys)
    requires StoreInv(s) && SysEnabled(s, FinishSave)
    ensures StoreInv(AfterFinishSave(s))
  {
    FinishKeeps(s.w);
  }

  lemma EndPollingInv(s: Sys)
    requires InspectionInv(s) && StoreInv(s) && SysEnabled(s, EndPolling)
    ensures InspectionInv(SysApply(s, EndPolling)) && StoreInv(SysApply(s, EndPolling))
  {
  }

  lemma AnswerInspectionInv(s: Sys)
    requires InspectionInv(s) && SysEnabled(s, Answer)
    ensures InspectionInv(AfterAnswer(s))
  {
    var report := ReportOf(s.pc.insp, s.pc.attempt, s.w.now);
    assert ReportInv(report, s.w.hist.returned, s.jobs);
    AnswerAges(s);
  }

  lemma AnswerAges(s: Sys)
    requires AgesInv(s.pc, s.reports, s.nextSequence) && UnsubmittedInv(s.pc, s.w.client, s.reports, s.jobs)
    requires SysEnabled(s, Answer)
    ensures var t := AfterAnswer(s);
            AgesInv(t.pc, t.reports, t.nextSequence) && UnsubmittedInv(t.pc, t.w.client, t.reports, t.jobs)
  {
  }

  lemma AnswerStoreInv(s: Sys)
    requires StoreInv(s) && SysEnabled(s, Answer)
    ensures StoreInv(AfterAnswer(s))
  {
  }

  lemma RetainInv(s: Sys, name: string)
    requires InspectionInv(s) && StoreInv(s) && SysEnabled(s, Retain(name))
    ensures InspectionInv(SysApply(s, Retain(name))) && StoreInv(SysApply(s, Retain(name)))
  {
  }

  /** The protocol step behind a step of the whole system, if there is one. */
  function ProtocolStep(s: Sys, step: SysStep): Option<Step>
    requires SysEnabled(s, step)
  {
    match step
    case StartInspection(insp) =>
      if Due(insp) && s.w.client.CIdle? then Some(Client(Begin(insp.job, insp.deadline))) else None
    case Plain(p) => Some(p)
    case SinkWrite(stamp, result, error) =>
      Some(Worker(Wrote(if result.Written? then Ok(CS.TemporaryName(stamp, s.serial)) else Err(error))))
    case SinkCommit(stamp, renameOk, error) =>
      var temp := s.w.worker.temp;
      var reply :=
        if CS.CanCommit(s.store, temp, renameOk) then Ok(CS.CommittedName(s.store, temp, stamp)) else Err(error);
      Some(Worker(Committed(reply)))
    case SinkDiscard(_) => Some(Worker(Discarded))
    case FinishSave => Some(Client(Finish))
    case _ => None
  }

  /** The system refines the worker protocol: each of its steps is a protocol step or leaves
      the protocol alone. */
  lemma Refines(s: Sys, step: SysStep)
    requires SysEnabled(s, step) && PcInv(s.pc, s.w.client, s.w.current, s.jobs)
    ensures match ProtocolStep(s, step)
            case None => SysApply(s, step).w == s.w
            case Some(p) => Enabled(s.w, p) && SysApply(s, step).w == Apply(s.w, p)
  {
  }

  /** Every run of the system is a run of the protocol, with the same protocol state at its end,
      so what holds in every run of the protocol holds here. */
  lemma {:induction false} RunRefines(s: Sys, steps: seq<SysStep>) returns (ps: seq<Step>)
    requires SysInv(s) && SysRunnable(s, steps)
    ensures |ps| <= |steps| && Runnable(s.w, ps) && Run(s.w, ps) == SysRun(s, steps).w
    decreases |steps|
  {
    if steps == [] {
      ps := [];
    } else {
      SysStepInv(s, steps[0]);
      Refines(s, steps[0]);
      var rest := RunRefines(SysApply(s, steps[0]), steps[1..]);
      match ProtocolStep(s, steps[0]) {
        case None => ps := rest;
        case Some(p) =>
          ps := [p] + rest;
          assert ps[1..] == rest;
      }
    }
  }

  lemma ProtocolKept(s: Sys, step: SysStep)
    requires SysInv(s) && SysEnabled(s, step)
    ensures Inv(SysApply(s, step).w)
    ensures Extends(s.w.hist, SysApply(s, step).w.hist)
  {
    Refines(s, step);
    match ProtocolStep(s, step) {
      case None =>
      case Some(p) =>
        StepInv(s.w, p);
        StepExtends(s.w, p);
    }
  }

  lemma LayerInspectionInv(s: Sys, step: SysStep)
    requires FieldInv(s.w) && InspectionInv(s) && StoreInv(s) && SysEnabled(s, step)
    requires Extends(s.w.hist, SysApply(s, step).w.hist)
    ensures InspectionInv(SysApply(s, step))
  {
    match step
    case StartInspection(insp) => StartInspectionInv(s, insp);
    case Plain(p) => if p == Client(TrySubmit) { SubmitInspectionInv(s); } else { QuietInspectionInv(s, p); }
    case SinkWrite(stamp, result, error) => SinkWriteInspectionInv(s, stamp, result, error);
    case SinkCommit(stamp, renameOk, error) => SinkCommitInspectionInv(s, stamp, renameOk, error);
    case SinkDiscard(removeOk) => SinkDiscardInv(s, removeOk);
    case FinishSave => FinishInspectionInv(s);
    case EndPolling => EndPollingInv(s);
    case Answer => AnswerInspectionInv(s);
    case Retain(name) => RetainInv(s, name);
  }

  lemma LayerStoreInv(s: Sys, step: SysStep)
    requires FieldInv(s.w) && WorkerTruth(s.w.hist.commits, s.w.gate, s.w.worker)
    requires InspectionInv(s) && StoreInv(s) && SysEnabled(s, step)
    ensures StoreInv(SysApply(s, step))
  {
    match step
    case StartInspection(insp) => StartStoreInv(s, insp);
    case Plain(p) => if p == Client(TrySubmit) { SubmitStoreInv(s); } else { QuietStoreInv(s, p); }
    case SinkWrite(stamp, result, error) => SinkWriteStoreInv(s, stamp, result, error);
    case SinkCommit(stamp, renameOk, error) => SinkCommitStoreInv(s, stamp, renameOk, error);
    case SinkDiscard(removeOk) => SinkDiscardInv(s, removeOk);
    case FinishSave => FinishStoreInv(s);
    case EndPolling => EndPollingInv(s);
    case Answer => AnswerStoreInv(s);
    case Retain(name) => RetainInv(s, name);
  }

  lemma SysStepInv(s: Sys, step: SysStep)
    requires SysInv(s) && SysEnabled(s, step)
    ensures SysInv(SysApply(s, step))
    ensures Extends(s.w.hist, SysApply(s, step).w.hist)
  {
    ProtocolKept(s, step);
    LayerInspectionInv(s, step);
    LayerStoreInv(s, step);
  }

  lemma {:induction false} SysRunInv(s: Sys, steps: seq<SysStep>)
    requires SysInv(s) && SysRunnable(s, steps)
    ensures SysInv(SysRun(s, steps))
    decreases |steps|
  {
    if steps != [] {
      SysStepInv(s, steps[0]);
      SysRunInv(SysApply(s, steps[0]), steps[1..]);
    }
  }

  /** What `t` has kept of `s`: its history, its reports and the files at the start. */
  ghost predicate Grows(s: Sys, t: Sys) {
    Extends(s.w.hist, t.w.hist) && s.reports <= t.reports && s.initial == t.initial
  }

  lemma GrowsFurther(s: Sys, t: Sys, u: Sys)
    requires Grows(s, t) && Grows(t, u)
    ensures Grows(s, u)
  {
    assert s.w.hist.order <= t.w.hist.order <= u.w.hist.order;
    assert s.reports <= t.reports <= u.reports;
  }

  lemma StepKeepsReports(s: Sys, step: SysStep)
    requires SysEnabled(s, step)
    ensures s.reports <= SysApply(s, step).reports && SysApply(s, step).initial == s.initial
  {
  }

  lemma StepGrows(s: Sys, step: SysStep)
    requires SysInv(s) && SysEnabled(s, step)
    ensures SysInv(SysApply(s, step)) && Grows(s, SysApply(s, step))
  {
    SysStepInv(s, step);
    StepKeepsReports(s, step);
  }

  lemma {:induction false} SysRunGrows(s: Sys, steps: seq<SysStep>)
    requires SysInv(s) && SysRunnable(s, steps)
    ensures Grows(s, SysRun(s, steps))
    decreases |steps|
  {
    if steps != [] {
      StepGrows(s, steps[0]);
      SysRunGrows(SysApply(s, steps[0]), steps[1..]);
      GrowsFurther(s, SysApply(s, steps[0]), SysRun(SysApply(s, steps[0]), steps[1..]));
    }
  }

  // ----- what the caller is told against what is on disk -------------------------------------------

  /** The job behind a report was committed. */
  ghost predicate WasPublished(r: Report, commits: map<nat, Path>) {
    r.attempt.Finished? && r.attempt.jobId in commits
  }

  /** The status that the rest of the inspection calls for. */
  function TechnicalStatus(i: Inspection): F.Status {
    if i.failure.None? then F.StatusOk
    else if i.failure.value.status == F.StatusOk then F.InternalError
    else i.failure.value.status
  }

  /** The policy of the recipe calls for a save of this frame. */
  predicate MustSave(i: Inspection) {
    i.policy == "always" || (i.policy == "fail_or_error" && (i.failure.Some? || i.verdict == F.Fail))
  }

  lemma DueExactly(i: Inspection)
    ensures Due(i) <==> MustSave(i)
  {
    F.PolicyExactly(i.policy, Verdict(i), ExecutionOk(i));
  }

  /** The report is honest about the save, given all commits there ever are. */
  ghost predicate Honest(r: Report, commits: map<nat, Path>) {
    && (r.imagePath != "" <==> WasPublished(r, commits))
    && (r.imagePath != "" ==> r.imagePath == commits[r.attempt.jobId] && IsNamedAfter(r.imagePath, r.insp.job))
    && (if MustSave(r.insp) && r.insp.required && !WasPublished(r, commits)
        then
          && r.status == (if r.answeredAt >= r.insp.deadline then F.Timeout else F.RequiredArtifactError)
          && r.verdict == F.NotEvaluated
        else
          && r.status == TechnicalStatus(r.insp)
          && r.verdict == if r.insp.failure.None? then r.insp.verdict else F.NotEvaluated)
  }

  /** The file is named after recipe, request and frame, in this order. */
  ghost predicate IsNamedAfter(name: string, job: SaveJob) {
    exists stamp :: CS.IsStamp(stamp) &&
      name == stamp + "_" + CS.Sanitized(job.recipeId) + "_" + CS.Sanitized(job.requestId) + "_"
                + CS.Decimal(job.sequence) + ".png"
  }

  lemma ReportHonest(r: Report, commits: map<nat, Path>, returned: map<nat, SaveOutcome>, jobs: map<nat, SaveJob>)
    requires ReportInv(r, returned, jobs) && PublishInv(commits, jobs)
    requires AllTruthful(commits, returned)
    ensures Honest(r, commits)
  {
    DueExactly(r.insp);
    F.DueSaveHasRequirement(r.insp.policy, r.insp.required, Verdict(r.insp), ExecutionOk(r.insp));
    if WasPublished(r, commits) {
      assert Truthful(commits, r.attempt.jobId, r.attempt.outcome);
      assert PublishedAs(jobs, r.attempt.jobId, commits[r.attempt.jobId]);
    }
  }

  /** The report agrees with the directory: the reported file is there unless retention took
      it in `steps`, and no other capture of that frame is, under any time stamp, beyond the
      files of an earlier process. */
  ghost predicate MatchesFiles(r: Report, files: set<string>, initial: set<string>, steps: seq<SysStep>) {
    && (r.imagePath != "" ==> r.imagePath in files || Retain(r.imagePath) in steps)
    && (forall stamp :: CS.IsStamp(stamp) ==>
          OnlyCapture(r, files, initial, CS.CaptureFilename(stamp, Identify(r.insp.job))))
  }

  ghost predicate OnlyCapture(r: Report, files: set<string>, initial: set<string>, name: string) {
    name in files && name !in initial ==> name == r.imagePath
  }

  /** In every run, for every inspection that reached a frame and was answered, however the
      run goes on: the image path it was given is there exactly if its job was committed, and is
      the committed name; that file is in the directory until retention removes it, and is the
      only one of its frame; a required save that was not committed gives TIMEOUT or
      REQUIRED_ARTIFACT_ERROR and never PASS, FAIL or OK; in every other case status and
      verdict are those of the inspection itself. */
  lemma EndToEnd(s: Sys, before: seq<SysStep>, after: seq<SysStep>, i: nat)
    requires IsInitial(s) && SysRunnable(s, before) && SysRunnable(SysRun(s, before), after)
    requires i < |SysRun(s, before).reports|
    ensures var r, t := SysRun(s, before).reports[i], SysRun(SysRun(s, before), after);
            Honest(r, t.w.hist.commits) && MatchesFiles(r, t.store.files, s.initial, before + after)
  {
    var u := LaterState(s, before, after, i);
    var r := u.reports[i];
    ReportHonest(r, u.w.hist.commits, u.w.hist.returned, u.jobs);
    forall stamp | CS.IsStamp(stamp)
      ensures OnlyCapture(r, u.store.files, s.initial, CS.CaptureFilename(stamp, Identify(r.insp.job)))
    {
      FileMeansPublished(u, i, stamp);
    }
    if r.imagePath != "" {
      CommitStaysOnDisk(s, before, after, r.attempt.jobId);
    }
  }

  // ----- which frames are saved --------------------------------------------------------------------

  /** Only a worker that is stopping refuses a save. */
  ghost predicate RefusalInv(pc: InspPc, reports: seq<Report>, stopping: bool) {
    && (pc.Polling? || (pc.Reporting? && pc.attempt.Refused?) ==> stopping)
    && (forall i :: 0 <= i < |reports| && reports[i].attempt.Refused? ==> stopping)
  }

  lemma PlainKeepsStopping(w: State, p: Step)
    requires Enabled(w, p)
    ensures w.slots.stopping ==> Apply(w, p).slots.stopping
  {
  }

  lemma StepRefusals(s: Sys, step: SysStep)
    requires FieldInv(s.w) && PcInv(s.pc, s.w.client, s.w.current, s.jobs) && SysEnabled(s, step)
    requires RefusalInv(s.pc, s.reports, s.w.slots.stopping)
    ensures var t := SysApply(s, step); RefusalInv(t.pc, t.reports, t.w.slots.stopping)
  {
    match step
    case Plain(p) => PlainKeepsStopping(s.w, p);
    case FinishSave => FinishKeeps(s.w);
    case _ =>
  }

  lemma {:induction false} RunRefusals(s: Sys, steps: seq<SysStep>)
    requires SysInv(s) && RefusalInv(s.pc, s.reports, s.w.slots.stopping) && SysRunnable(s, steps)
    ensures var t := SysRun(s, steps); RefusalInv(t.pc, t.reports, t.w.slots.stopping)
    decreases |steps|
  {
    if steps != [] {
      SysStepInv(s, steps[0]);
      StepRefusals(s, steps[0]);
      RunRefusals(SysApply(s, steps[0]), steps[1..]);
    }
  }

  /** In every run, for every inspection that reached a frame and was answered: no save is
      attempted exactly if the policy is "never" or unknown, or is "fail_or_error" and the
      execution succeeded without FAIL, and then no capture of the frame ever appears; in every
      other case, unless the worker is stopping, a job with that very recipe, request and frame
      was accepted and waited for. */
  lemma SaveIsAttempted(s: Sys, before: seq<SysStep>, after: seq<SysStep>, i: nat, stamp: string)
    requires IsInitial(s) && SysRunnable(s, before) && SysRunnable(SysRun(s, before), after)
    requires i < |SysRun(s, before).reports| && CS.IsStamp(stamp)
    ensures var t := SysRun(s, before);
            var r := t.reports[i];
            && (r.attempt.NotDue? <==> !MustSave(r.insp))
            && (r.attempt.NotDue? ==> r.imagePath == "")
            && (r.attempt.NotDue? ==>
                  var job := r.insp.job;
                  var name := CS.CaptureFilename(stamp, CS.Identity(job.recipeId, job.requestId, job.sequence));
                  name in SysRun(t, after).store.files ==> name in s.initial)
            && (MustSave(r.insp) && !t.w.slots.stopping ==>
                  && r.attempt.Finished? && r.attempt.jobId in t.jobs && t.jobs[r.attempt.jobId] == r.insp.job
                  && r.attempt.jobId in t.w.hist.returned && t.w.hist.returned[r.attempt.jobId] == r.attempt.outcome)
  {
    InitialSysInv(s);
    SysRunInv(s, before);
    RunRefusals(s, before);
    var t := SysRun(s, before);
    var r := t.reports[i];
    assert ReportInv(r, t.w.hist.returned, t.jobs);
    DueExactly(r.insp);
    if r.attempt.NotDue? {
      NoPathNoFile(s, before, after, i, stamp);
    }
  }

  /** The answer of an inspection is about that inspection, its attempt and this moment. */
  lemma AnswerIsCurrent(s: Sys)
    requires SysEnabled(s, Answer)
    ensures var t := SysApply(s, Answer);
            && |t.reports| == |s.reports| + 1 && t.reports[..|s.reports|] == s.reports
            && var r := t.reports[|s.reports|];
               r.insp == s.pc.insp && r.attempt == s.pc.attempt && r.answeredAt == s.w.now
  {
  }

  /** In every run the sink commits exactly if the rename succeeds: then the capture named after the
      job is on disk, in the place of the temporary. */
  lemma CommitExactly(s: Sys, steps: seq<SysStep>, stamp: string, renameOk: bool, error: ErrorCode)
    requires IsInitial(s) && SysRunnable(s, steps) && SysEnabled(SysRun(s, steps), SinkCommit(stamp, renameOk, error))
    ensures var t := SysRun(s, steps);
            var id, temp := t.w.worker.id, t.w.worker.temp;
            var u := SysApply(t, SinkCommit(stamp, renameOk, error));
            && id in t.jobs
            && (id in u.w.hist.commits <==> renameOk)
            && (renameOk ==>
                  && u.w.hist.commits[id] in u.store.files && IsNamedAfter(u.w.hist.commits[id], t.jobs[id])
                  && temp !in u.store.files)
            && (!renameOk ==> u.store.files == t.store.files)
  {
    InitialSysInv(s);
    SysRunInv(s, steps);
    CommitSucceeds(SysRun(s, steps), stamp, renameOk, error);
  }

  lemma CommitSucceeds(t: Sys, stamp: string, renameOk: bool, error: ErrorCode)
    requires WorkerTruth(t.w.hist.commits, t.w.gate, t.w.worker) && SysEnabled(t, SinkCommit(stamp, renameOk, error))
    requires PendingInv(t.store.pending, t.store.files, Held(t.w.worker), BusyId(t.w.worker), t.jobs)
    requires RegisteredInv(t.store.pending, t.w.worker)
    ensures var id, temp := t.w.worker.id, t.w.worker.temp;
            var u := SysApply(t, SinkCommit(stamp, renameOk, error));
            && id in t.jobs
            && (id in u.w.hist.commits <==> renameOk)
            && (renameOk ==>
                  && u.w.hist.commits[id] in u.store.files && IsNamedAfter(u.w.hist.commits[id], t.jobs[id])
                  && temp !in u.store.files)
            && (!renameOk ==> u.store.files == t.store.files)
  {
    var id, temp := t.w.worker.id, t.w.worker.temp;
    assert temp in t.store.pending;
    CS.NamesAreDisjoint(stamp, Identify(t.jobs[id]), 0);
    if renameOk {
      NamedAfterJob(stamp, t.jobs[id]);
      assert CS.CommittedName(t.store, temp, stamp) == CS.CaptureFilename(stamp, Identify(t.jobs[id]));
    }
  }

  lemma NamedAfterJob(stamp: string, job: SaveJob)
    requires CS.IsStamp(stamp)
    ensures IsNamedAfter(CS.CaptureFilename(stamp, Identify(job)), job)
  {
  }

  // ----- committed captures on disk ----------------------------------------------------------------

  /** The capture of job `id` is on disk if the job was committed. */
  predicate IsOnDisk(s: Sys, id: nat) {
    id in s.w.hist.commits ==> s.w.hist.commits[id] in s.store.files
  }

  lemma CommitIsNoTemporary(commits: map<nat, Path>, jobs: map<nat, SaveJob>, id: nat)
    requires PublishInv(commits, jobs) && id in commits
    ensures !CS.IsTemporaryName(commits[id])
  {
    assert PublishedAs(jobs, id, commits[id]);
    var stamp :| CS.IsStamp(stamp) && commits[id] == CS.CaptureFilename(stamp, Identify(jobs[id]));
    CS.NamesAreDisjoint(stamp, Identify(jobs[id]), 0);
  }

  lemma PlainKeepsCommits(w: State, p: Step)
    requires IsPlain(p) && Enabled(w, p)
    ensures Apply(w, p).hist.commits == w.hist.commits
  {
  }

  lemma QuietKeepsDisk(s: Sys, step: SysStep)
    requires SysEnabled(s, step) && !step.SinkCommit? && !step.SinkDiscard?
    ensures var t := SysApply(s, step);
            && t.w.hist.commits == s.w.hist.commits
            && forall name :: name in s.store.files ==> name in t.store.files || step == Retain(name)
  {
    match step
    case Plain(p) => PlainKeepsCommits(s.w, p);
    case FinishSave => FinishKeeps(s.w);
    case _ =>
  }

  /** A step that publishes puts the file on disk, and only retention takes it away. */
  lemma StepKeepsDisk(s: Sys, step: SysStep, id: nat)
    requires PublishInv(s.w.hist.commits, s.jobs) && SysEnabled(s, step) && IsOnDisk(s, id)
    requires PendingInv(s.store.pending, s.store.files, Held(s.w.worker), BusyId(s.w.worker), s.jobs)
    ensures var t := SysApply(s, step);
            IsOnDisk(t, id) || (id in s.w.hist.commits && step == Retain(s.w.hist.commits[id]))
  {
    if id in s.w.hist.commits {
      CommitIsNoTemporary(s.w.hist.commits, s.jobs, id);
    }
    if !step.SinkCommit? && !step.SinkDiscard? {
      QuietKeepsDisk(s, step);
    }
  }

  lemma {:induction false} RunKeepsDisk(s: Sys, steps: seq<SysStep>, id: nat)
    requires SysInv(s) && SysRunnable(s, steps) && IsOnDisk(s, id)
    ensures var t := SysRun(s, steps);
            IsOnDisk(t, id) || (id in t.w.hist.commits && Retain(t.w.hist.commits[id]) in steps)
    decreases |steps|
  {
    if steps != [] {
      var s' := SysApply(s, steps[0]);
      StepGrows(s, steps[0]);
      StepKeepsDisk(s, steps[0], id);
      SysRunGrows(s', steps[1..]);
      if IsOnDisk(s', id) {
        RunKeepsDisk(s', steps[1..], id);
      } else {
        assert SysRun(s, steps).w.hist.commits[id] == s.w.hist.commits[id];
      }
    }
  }

  lemma {:induction false} SysRunConcat(s: Sys, a: seq<SysStep>, b: seq<SysStep>)
    requires SysRunnable(s, a) && SysRunnable(SysRun(s, a), b)
    ensures SysRunnable(s, a + b) && SysRun(s, a + b) == SysRun(SysRun(s, a), b)
    decreases |a|
  {
    if a == [] {
      assert a + b == b;
    } else {
      assert (a + b)[1..] == a[1..] + b;
      SysRunConcat(SysApply(s, a[0]), a[1..], b);
    }
  }

  lemma CommitStaysOnDisk(s: Sys, before: seq<SysStep>, after: seq<SysStep>, id: nat)
    requires IsInitial(s) && SysRunnable(s, before) && SysRunnable(SysRun(s, before), after)
    ensures var t := SysRun(SysRun(s, before), after);
            id in t.w.hist.commits ==>
              t.w.hist.commits[id] in t.store.files || Retain(t.w.hist.commits[id]) in before + after
  {
    InitialSysInv(s);
    SysRunConcat(s, before, after);
    RunKeepsDisk(s, before + after, id);
  }

  /** The state after both parts of a run, with its invariant; report `i` is still there. */
  lemma LaterState(s: Sys, before: seq<SysStep>, after: seq<SysStep>, i: nat) returns (u: Sys)
    requires IsInitial(s) && SysRunnable(s, before) && SysRunnable(SysRun(s, before), after)
    requires i < |SysRun(s, before).reports|
    ensures u == SysRun(SysRun(s, before), after) && u.initial == s.initial
    ensures i < |u.reports| && u.reports[i] == SysRun(s, before).reports[i]
    ensures InspectionInv(u) && StoreInv(u) && AllTruthful(u.w.hist.commits, u.w.hist.returned)
    ensures ReportInv(u.reports[i], u.w.hist.returned, u.jobs)
  {
    var t := Reached(s, before, after);
    u := SysRun(t, after);
    assert ReportInv(u.reports[i], u.w.hist.returned, u.jobs);
  }

  lemma Reached(s: Sys, before: seq<SysStep>, after: seq<SysStep>) returns (t: Sys)
    requires IsInitial(s) && SysRunnable(s, before) && SysRunnable(SysRun(s, before), after)
    ensures t == SysRun(s, before)
    ensures SysInv(SysRun(t, after)) && t.initial == s.initial
    ensures t.reports <= SysRun(t, after).reports && SysRun(t, after).initial == s.initial
  {
    t := SysRun(s, before);
    InitialSysInv(s);
    SysRunInv(s, before);
    SysRunGrows(s, before);
    SysRunInv(t, after);
    SysRunGrows(t, after);
  }

  /** An inspection that was given no image path never gets a file: no capture name of its
      frame, with whatever time stamp, is in the directory then or later, unless it was
      there before the process started. */
  lemma NoPathNoFile(s: Sys, before: seq<SysStep>, after: seq<SysStep>, i: nat, stamp: string)
    requires IsInitial(s) && SysRunnable(s, before) && SysRunnable(SysRun(s, before), after)
    requires i < |SysRun(s, before).reports| && SysRun(s, before).reports[i].imagePath == ""
    requires CS.IsStamp(stamp)
    ensures var name := CS.CaptureFilename(stamp, Identify(SysRun(s, before).reports[i].insp.job));
            name in SysRun(SysRun(s, before), after).store.files ==> name in s.initial
  {
    var u := LaterState(s, before, after, i);
    ReportHonest(u.reports[i], u.w.hist.commits, u.w.hist.returned, u.jobs);
    FileMeansPublished(u, i, stamp);
  }

  /** The only inspection whose frame a committed job can have is the one that submitted it. */
  lemma FrameIdentifiesJob(u: Sys, i: nat, id: nat)
    requires i < |u.reports| && id in u.jobs && u.jobs[id].sequence == u.reports[i].insp.job.sequence
    requires AttemptInv(u.reports[i].insp, u.reports[i].attempt, u.w.hist.returned, u.jobs)
    requires JobsInv(u.jobs, u.w.slots.nextId, u.nextSequence)
    requires UnsubmittedInv(u.pc, u.w.client, u.reports, u.jobs)
    ensures u.reports[i].attempt.Finished? && u.reports[i].attempt.jobId == id
  {
  }

  lemma FileMeansPublished(u: Sys, i: nat, stamp: string)
    requires i < |u.reports| && CS.IsStamp(stamp)
    requires InspectionInv(u) && ReportInv(u.reports[i], u.w.hist.returned, u.jobs)
    requires PublishInv(u.w.hist.commits, u.jobs) && FinalFilesInv(u.store.files, u.initial, u.w.hist.commits)
    ensures var name := CS.CaptureFilename(stamp, Identify(u.reports[i].insp.job));
            name in u.store.files && name !in u.initial ==>
              WasPublished(u.reports[i], u.w.hist.commits) && u.w.hist.commits[u.reports[i].attempt.jobId] == name
  {
    var identity := Identify(u.reports[i].insp.job);
    var name := CS.CaptureFilename(stamp, identity);
    CS.NamesAreDisjoint(stamp, identity, 0);
    if name in u.store.files && name !in u.initial {
      var id :| id in u.w.hist.commits && u.w.hist.commits[id] == name;
      CommitHasSequence(u, id, stamp, identity);
      FrameIdentifiesJob(u, i, id);
    }
  }

  lemma CommitHasSequence(u: Sys, id: nat, stamp: string, identity: CS.Identity)
    requires PublishInv(u.w.hist.commits, u.jobs)
    requires id in u.w.hist.commits && u.w.hist.commits[id] == CS.CaptureFilename(stamp, identity)
    ensures id in u.jobs && u.jobs[id].sequence == identity.sequence
  {
    assert PublishedAs(u.jobs, id, u.w.hist.commits[id]);
    var stamp' :| CS.IsStamp(stamp') && u.w.hist.commits[id] == CS.CaptureFilename(stamp', Identify(u.jobs[id]));
    CS.SequenceIsInName(stamp', Identify(u.jobs[id]), stamp, identity);
  }

  /** No capture replaces another: different commits have different names. */
  lemma CommitsAreApart(s: Sys, steps: seq<SysStep>, a: nat, b: nat)
    requires IsInitial(s) && SysRunnable(s, steps) && a != b
    ensures var commits := SysRun(s, steps).w.hist.commits;
            a in commits && b in commits ==> commits[a] != commits[b]
  {
    InitialSysInv(s);
    SysRunInv(s, steps);
    var t := SysRun(s, steps);
    var commits := t.w.hist.commits;
    if a in commits && b in commits && commits[a] == commits[b] {
      assert PublishedAs(t.jobs, a, commits[a]);
      var stamp :| CS.IsStamp(stamp) && commits[a] == CS.CaptureFilename(stamp, Identify(t.jobs[a]));
      CommitHasSequence(t, b, stamp, Identify(t.jobs[a]));
    }
  }

  /** Whenever the worker is not between the two phases of `execute`, no temporary is
      registered, and those on disk were there at the start or could not be removed;
      a commit always finds its temporary registered. */
  lemma IdleWorkerLeavesNoTemporary(s: Sys, steps: seq<SysStep>, name: string)
    requires IsInitial(s) && SysRunnable(s, steps)
    ensures var t := SysRun(s, steps);
            && (Held(t.w.worker).None? ==> t.store.pending == map[])
            && (Held(t.w.worker).None? && CS.IsTemporaryName(name) && name in t.store.files ==>
                  name in t.initial || name in t.leftovers)
            && (t.w.worker.WCommitting? ==> t.w.worker.temp in t.store.pending && t.w.worker.temp in t.store.files)
  {
    InitialSysInv(s);
    SysRunInv(s, steps);
  }

  /** The busy-wait for a required save that could not be queued runs only during shutdown. */
  lemma PollingOnlyInShutdown(s: Sys, steps: seq<SysStep>)
    requires IsInitial(s) && SysRunnable(s, steps)
    ensures SysRun(s, steps).pc.Polling? ==> SysRun(s, steps).w.slots.stopping
  {
    InitialSysInv(s);
    SysRunInv(s, steps);
  }
}
