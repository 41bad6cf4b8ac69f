/** The UVC stream session of src/camera/uvc_windows/uvc_backend.cpp over the generation gate
    of src/camera/uvc_windows/uvc_stream_generation.h.

    The body of one marshalled command runs on the worker thread while Media Foundation
    delivers completions from its own threads at any moment.  A completion first consults
    the gate and only later writes into its callback object, and anything may happen in
    between.  What is assumed of Media Foundation: a read completes at most once; `OnFlush`
    comes after every `OnReadSample` of that reader has returned, and drops its open reads. */
module UvcSession {
  import opened Options

  // ----- the generation gate ------------------------------------------------------------------

  const NO_GENERATION := 0

  datatype Gate = Gate(next: nat, active: nat, stale: nat)

  predicate Accepts(g: Gate, generation: nat) {
    generation != NO_GENERATION && generation == g.active
  }

  function Begun(g: Gate): Gate {
    g.(next := g.next + 1, active := g.next + 1)
  }

  function Retired(g: Gate): Gate {
    g.(active := NO_GENERATION)
  }

  function StaleDiscarded(g: Gate, generation: nat): Gate {
    if Accepts(g, generation) then g else g.(stale := g.stale + 1)
  }

  class StreamGenerationGate {
    var nextGeneration: nat
    var activeGeneration: nat
    var staleEventsDiscarded: nat

    function View(): Gate
      reads this
    {
      Gate(nextGeneration, activeGeneration, staleEventsDiscarded)
    }

    constructor ()
      ensures View() == Gate(0, NO_GENERATION, 0)
    {
      nextGeneration, activeGeneration, staleEventsDiscarded := 0, NO_GENERATION, 0;
    }

    method BeginStream() returns (generation: nat)
      modifies this
      ensures View() == Begun(old(View())) && generation == View().active
    {
      generation := nextGeneration + 1;
      nextGeneration := generation;
      activeGeneration := generation;
    }

    method Retire()
      modifies this
      ensures View() == Retired(old(View()))
    {
      activeGeneration := NO_GENERATION;
    }

    method DiscardStale(generation: nat) returns (count: nat)
      modifies this
      ensures View() == StaleDiscarded(old(View()), generation) && count == View().stale
    {
      if !(generation != NO_GENERATION && generation == activeGeneration) {
        staleEventsDiscarded := staleEventsDiscarded + 1;
      }
      count := staleEventsDiscarded;
    }
  }

  // ----- the session -----------------------------------------------------------------------------

  /** The completion state of one `ReadCallback`; `source` is the read that wrote it. */
  datatype Completion = Completion(statusOk: bool, typeChanged: bool, endOfStream: bool, hasSample: bool, source: nat)

  datatype Callback = Callback(read: Option<Completion>, flushed: bool)

  const FRESH_CALLBACK := Callback(None, false)

  datatype Failure = NotOpen | CaptureTimedOut | Disconnected | CaptureFailed | OpenFailed

  datatype Result = Frame(read: nat, generation: nat) | Opened | Failed(failure: Failure)

  /** Where the body of the running command is. */
  datatype Body =
    | NoCommand
    | Tearing(call: nat)                           // open or reconnect before teardown_stream
    | Activating(call: nat)                        // before begin_stream
    | Starting(call: nat)                          // stream begun, format not yet selected
    | CaptureStart(call: nat)
    | Issuing(call: nat)                           // completion state cleared, about to call ReadSample
    | AwaitingRead(call: nat, read: nat)
    | Cancelling(call: nat, read: nat)             // timed out, about to clear the flush state and call Flush
    | AwaitingFlush(call: nat, read: nat)
    | Returning(call: nat, result: Result)

  /** A read that was issued: for which call and on which generation. */
  datatype Read = Read(call: nat, generation: nat)

  datatype Session = Session(
    gate: Gate,
    callback: nat,                   // generation of callback_, 0 for none
    reader: nat,                     // generation of reader_, 0 for none
    isOpen: bool,
    needsReconnect: bool,
    body: Body,
    callbacks: map<nat, Callback>,   // every callback object ever created, by generation
    issued: seq<Read>,               // every read ever issued
    outstanding: set<nat>,           // reads Media Foundation has not completed
    writing: set<nat>,               // completions that passed the gate and have not written yet
    flushing: set<nat>,              // generations with a flush request under way
    flushWriting: set<nat>)          // flush completions that passed the gate

  const IDLE := Session(Gate(0, 0, 0), 0, 0, false, false, NoCommand, map[], [], {}, {}, {}, {})

  datatype Kind = Open | Reconnect(hasIdentity: bool) | Capture

  datatype SessionStep =
    // the worker thread
    | Enter(call: nat, kind: Kind)
    | Teardown(expired: bool)                      // deadline check after teardown_stream
    | BeginStream(ok: bool)                        // enumeration, matching and activation before begin_stream
    | FinishStart(ok: bool)
    | StartCapture(expired: bool)
    | IssueRead(ok: bool)
    | ReadWaitEnds(timedOut: bool, expired: bool, refreshOk: bool, convertOk: bool)
    | RequestFlush(ok: bool, budget: bool)
    | FlushWaitEnds(timedOut: bool)
    | Leave
    | WorkerTeardown                               // teardown_worker after the command loop
    // Media Foundation threads
    | ReadArrives(read: nat)
    | ReadWrites(read: nat, completion: Completion)
    | FlushArrives(generation: nat)
    | FlushWrites(generation: nat)

  function TornDown(s: Session): Session {
    s.(gate := Retired(s.gate), callback := 0, reader := 0, isOpen := false, needsReconnect := false)
  }

  function Cleared(s: Session): Session {
    if s.callback in s.callbacks
    then s.(callbacks := s.callbacks[s.callback := s.callbacks[s.callback].(read := None)])
    else s
  }

  function Answer(s: Session, call: nat, result: Result): Session {
    s.(body := Returning(call, result))
  }

  function Broken(s: Session, call: nat, failure: Failure): Session {
    Answer(s.(needsReconnect := true), call, Failed(failure))
  }

  /** The predicate of the read wait. */
  predicate ReadReady(s: Session) {
    s.callback in s.callbacks && s.callbacks[s.callback].read.Some? && Accepts(s.gate, s.callback)
  }

  predicate FlushReady(s: Session) {
    s.callback in s.callbacks && s.callbacks[s.callback].flushed && Accepts(s.gate, s.callback)
  }

  predicate Enabled(s: Session, step: SessionStep) {
    match step
    case Enter(_, _) => s.body.NoCommand?
    case Teardown(_) => s.body.Tearing?
    case BeginStream(_) => s.body.Activating?
    case FinishStart(_) => s.body.Starting?
    case StartCapture(_) => s.body.CaptureStart?
    case IssueRead(_) => s.body.Issuing?
    case ReadWaitEnds(timedOut, _, _, _) => s.body.AwaitingRead? && (timedOut || ReadReady(s))
    case RequestFlush(_, _) => s.body.Cancelling?
    case FlushWaitEnds(timedOut) => s.body.AwaitingFlush? && (timedOut || FlushReady(s))
    case Leave => s.body.Returning?
    case WorkerTeardown => s.body.NoCommand?
    case ReadArrives(read) => read in s.outstanding && read < |s.issued|
    case ReadWrites(read, completion) => read in s.writing && read < |s.issued| && completion.source == read
    case FlushArrives(generation) =>
      generation in s.flushing && forall r :: r in s.writing && r < |s.issued| ==> s.issued[r].generation != generation
    case FlushWrites(generation) => generation in s.flushWriting
  }

  function AfterEnter(s: Session, call: nat, kind: Kind): Session {
    match kind
    case Open => s.(body := Tearing(call))
    case Reconnect(hasIdentity) => if hasIdentity then s.(body := Tearing(call)) else Answer(s, call, Failed(NotOpen))
    case Capture => s.(body := CaptureStart(call))
  }

  function AfterTeardown(s: Session, expired: bool): Session
    requires s.body.Tearing?
  {
    if expired then Answer(TornDown(s), s.body.call, Failed(OpenFailed))
    else TornDown(s).(body := Activating(s.body.call))
  }

  function AfterBeginStream(s: Session, ok: bool): Session
    requires s.body.Activating?
  {
    if !ok then Answer(TornDown(s), s.body.call, Failed(OpenFailed))
    else
      var gate := Begun(s.gate);
      s.(gate := gate, callback := gate.active, callbacks := s.callbacks[gate.active := FRESH_CALLBACK],
         body := Starting(s.body.call))
  }

  function AfterFinishStart(s: Session, ok: bool): Session
    requires s.body.Starting?
  {
    if !ok then Answer(TornDown(s), s.body.call, Failed(OpenFailed))
    else Answer(s.(reader := s.callback, isOpen := true, needsReconnect := false), s.body.call, Opened)
  }

  function AfterStartCapture(s: Session, expired: bool): Session
    requires s.body.CaptureStart?
  {
    var call := s.body.call;
    if !s.isOpen || s.reader == 0 || s.callback == 0 then Answer(s, call, Failed(NotOpen))
    else if expired then Answer(s, call, Failed(CaptureTimedOut))
    else if s.needsReconnect then Answer(s, call, Failed(Disconnected))
    else Cleared(s).(body := Issuing(call))
  }

  function AfterIssue(s: Session, ok: bool): Session
    requires s.body.Issuing?
  {
    var read := |s.issued|;
    if !ok then Broken(s, s.body.call, CaptureFailed)
    else s.(issued := s.issued + [Read(s.body.call, s.reader)], outstanding := s.outstanding + {read},
            body := AwaitingRead(s.body.call, read))
  }

  /** The read wait is over: judge the completion, or give the read up. */
  function AfterReadWait(s: Session, expired: bool, refreshOk: bool, convertOk: bool): Session
    requires s.body.AwaitingRead?
  {
    var AwaitingRead(call, read) := s.body;
    if !ReadReady(s) then s.(body := Cancelling(call, read))
    else
      var c := s.callbacks[s.callback].read.value;
      if !c.statusOk then Broken(s, call, CaptureFailed)
      else if c.typeChanged && !refreshOk then Broken(s, call, CaptureFailed)
      else if c.hasSample then
        Answer(s, call, if convertOk then Frame(c.source, s.callback) else Failed(CaptureFailed))
      else if c.endOfStream then Broken(s, call, CaptureFailed)
      else if expired then Answer(s, call, Failed(CaptureTimedOut))
      else Cleared(s).(body := Issuing(call))
  }

  function FlushBegun(s: Session): Session {
    if s.callback in s.callbacks
    then s.(callbacks := s.callbacks[s.callback := s.callbacks[s.callback].(flushed := false)])
    else s
  }

  function AfterRequestFlush(s: Session, ok: bool, budget: bool): Session
    requires s.body.Cancelling?
  {
    var Cancelling(call, read) := s.body;
    var begun := FlushBegun(s);
    if !ok then Broken(begun, call, CaptureTimedOut)
    else
      var t := begun.(flushing := s.flushing + {s.reader});
      if budget then t.(body := AwaitingFlush(call, read)) else Broken(Cleared(t), call, CaptureTimedOut)
  }

  function AfterFlushWait(s: Session): Session
    requires s.body.AwaitingFlush?
  {
    if FlushReady(s) then Answer(Cleared(s), s.body.call, Failed(CaptureTimedOut))
    else Broken(Cleared(s), s.body.call, CaptureTimedOut)
  }

  function AfterReadArrives(s: Session, read: nat): Session
    requires read < |s.issued|
  {
    var t := s.(outstanding := s.outstanding - {read});
    var generation := s.issued[read].generation;
    if Accepts(s.gate, generation) then t.(writing := s.writing + {read})
    else t.(gate := StaleDiscarded(s.gate, generation))
  }

  function AfterReadWrites(s: Session, read: nat, completion: Completion): Session
    requires read < |s.issued|
  {
    var generation := s.issued[read].generation;
    var t := s.(writing := s.writing - {read});
    if generation in s.callbacks
    then t.(callbacks := s.callbacks[generation := s.callbacks[generation].(read := Some(completion))])
    else t
  }

  /** The reads of `generation` that Media Foundation can still complete or is completing. */
  function Live(issued: seq<Read>, some: set<nat>, generation: nat): set<nat> {
    set r | r in some && r < |issued| && issued[r].generation == generation
  }

  function AfterFlushArrives(s: Session, generation: nat): Session {
    var t := s.(flushing := s.flushing - {generation},
                outstanding := s.outstanding - Live(s.issued, s.outstanding, generation));
    if Accepts(s.gate, generation) then t.(flushWriting := s.flushWriting + {generation})
    else t.(gate := StaleDiscarded(s.gate, generation))
  }

  function AfterFlushWrites(s: Session, generation: nat): Session {
    var t := s.(flushWriting := s.flushWriting - {generation});
    if generation in s.callbacks
    then t.(callbacks := s.callbacks[generation := s.callbacks[generation].(flushed := true)])
    else t
  }

  function Apply(s: Session, step: SessionStep): Session
    requires Enabled(s, step)
  {
    match step
    case Enter(call, kind) => AfterEnter(s, call, kind)
    case Teardown(expired) => AfterTeardown(s, expired)
    case BeginStream(ok) => AfterBeginStream(s, ok)
    case FinishStart(ok) => AfterFinishStart(s, ok)
    case StartCapture(expired) => AfterStartCapture(s, expired)
    case IssueRead(ok) => AfterIssue(s, ok)
    case ReadWaitEnds(_, expired, refreshOk, convertOk) => AfterReadWait(s, expired, refreshOk, convertOk)
    case RequestFlush(ok, budget) => AfterRequestFlush(s, ok, budget)
    case FlushWaitEnds(_) => AfterFlushWait(s)
    case Leave => s.(body := NoCommand)
    case WorkerTeardown => TornDown(s)
    case ReadArrives(read) => AfterReadArrives(s, read)
    case ReadWrites(read, completion) => AfterReadWrites(s, read, completion)
    case FlushArrives(generation) => AfterFlushArrives(s, generation)
    case FlushWrites(generation) => AfterFlushWrites(s, generation)
  }

  // ----- invariant ---------------------------------------------------------------------------------

  predicate Capturing(b: Body) {
    b.Issuing? || b.AwaitingRead? || b.Cancelling? || b.AwaitingFlush?
  }

  predicate HasRead(b: Body) {
    b.AwaitingRead? || b.Cancelling? || b.AwaitingFlush?
  }

  /** The gate's active generation is that of the current callback, and an open session reads
      through a reader of that same generation. */
  ghost predicate StreamInv(s: Session) {
    && s.gate.active == s.callback <= s.gate.next
    && (s.reader != 0 ==> s.reader == s.callback)
    && (s.isOpen ==> s.reader != 0)
    && (Capturing(s.body) ==> s.isOpen && !s.needsReconnect)
    && (s.body.Activating? || s.body.Starting? ==> !s.isOpen && s.reader == 0 && !s.needsReconnect)
    && (s.body.Activating? ==> s.callback == 0)
    && (s.body.Starting? ==> s.callback != 0)
    && (forall g :: g in s.callbacks <==> 0 < g <= s.gate.next)
  }

  ghost predicate ReadsInv(s: Session) {
    && (forall r :: r in s.outstanding || r in s.writing ==> r < |s.issued|)
    && (forall r :: r in s.outstanding ==> r !in s.writing)
    && (forall r :: 0 <= r < |s.issued| ==> 0 < s.issued[r].generation <= s.gate.next)
    && (forall g :: g in s.flushing || g in s.flushWriting ==> 0 < g <= s.gate.next)
    && (HasRead(s.body) ==> s.body.read < |s.issued| && s.issued[s.body.read] == Read(s.body.call, s.callback))
  }

  predicate IsLive(s: Session, r: nat) {
    r < |s.issued| && s.issued[r].generation == s.callback && (r in s.outstanding || r in s.writing)
  }

  /** No read of generation `g` but `only` is under way. */
  ghost predicate NoneLiveBut(s: Session, g: nat, only: int) {
    && (forall r :: r in s.outstanding && r < |s.issued| && s.issued[r].generation == g ==> r == only)
    && (forall r :: r in s.writing && r < |s.issued| && s.issued[r].generation == g ==> r == only)
  }

  /** A usable stream has no read under way but the one its capture is waiting for. */
  ghost predicate LiveInv(s: Session) {
    s.callback != 0 && !s.needsReconnect ==>
      NoneLiveBut(s, s.callback, if HasRead(s.body) then s.body.read else -1)
  }

  /** A recorded completion is that of the awaited read, which is then no longer under way. */
  ghost predicate CompletionInv(s: Session) {
    && (s.body.Issuing? && s.callback in s.callbacks ==> s.callbacks[s.callback].read.None?)
    && (HasRead(s.body) && s.callback in s.callbacks && s.callbacks[s.callback].read.Some? ==>
          s.callbacks[s.callback].read.value.source == s.body.read && !IsLive(s, s.body.read))
  }

  predicate Flushed(s: Session) {
    s.callback in s.callbacks && s.callbacks[s.callback].flushed
  }

  /** Flush requests of a usable stream belong to the capture that is waiting for one, and
      when that flush has come through no read is under way. */
  ghost predicate FlushInv(s: Session) {
    s.callback != 0 && !s.needsReconnect ==>
      if s.body.AwaitingFlush? then
        && (s.callback in s.flushWriting || Flushed(s) ==> s.callback !in s.flushing && NoneLiveBut(s, s.callback, -1))
        && (Flushed(s) ==> s.callback !in s.flushWriting)
      else s.callback !in s.flushing && s.callback !in s.flushWriting
  }

  /** A frame on its way out answers a read of its own call on the active generation. */
  ghost predicate ResultInv(s: Session) {
    s.body.Returning? && s.body.result.Frame? ==>
      var Frame(read, generation) := s.body.result;
      && read < |s.issued| && s.issued[read] == Read(s.body.call, generation)
      && generation == s.gate.active != NO_GENERATION
  }

  ghost predicate Inv(s: Session) {
    StreamInv(s) && ReadsInv(s) && LiveInv(s) && CompletionInv(s) && FlushInv(s) && ResultInv(s)
  }

  lemma InitialInv()
    ensures Inv(IDLE)
  {
  }

  lemma TeardownInv(s: Session, step: SessionStep)
    requires Inv(s) && Enabled(s, step) && (step.Teardown? || step.WorkerTeardown?)
    ensures Inv(Apply(s, step))
  {
  }

  lemma StartInv(s: Session, step: SessionStep)
    requires Inv(s) && Enabled(s, step) && (step.BeginStream? || step.FinishStart?)
    ensures Inv(Apply(s, step))
  {
  }

  lemma IssueStream(s: Session, step: SessionStep)
    requires StreamInv(s) && ReadsInv(s) && ResultInv(s)
    requires Enabled(s, step) && (step.StartCapture? || step.IssueRead?)
    ensures StreamInv(Apply(s, step)) && ResultInv(Apply(s, step))
  {
  }

  lemma IssueReads(s: Session, step: SessionStep)
    requires StreamInv(s) && ReadsInv(s)
    requires Enabled(s, step) && (step.StartCapture? || step.IssueRead?)
    ensures ReadsInv(Apply(s, step))
  {
  }

  lemma IssueLive(s: Session, step: SessionStep)
    requires Inv(s) && Enabled(s, step) && (step.StartCapture? || step.IssueRead?)
    ensures LiveInv(Apply(s, step)) && CompletionInv(Apply(s, step))
  {
  }

  lemma IssueFlush(s: Session, step: SessionStep)
    requires Inv(s) && Enabled(s, step) && (step.StartCapture? || step.IssueRead?)
    ensures FlushInv(Apply(s, step))
  {
  }

  lemma IssueInv(s: Session, step: SessionStep)
    requires Inv(s) && Enabled(s, step) && (step.StartCapture? || step.IssueRead?)
    ensures Inv(Apply(s, step))
  {
    IssueStream(s, step);
    IssueReads(s, step);
    IssueLive(s, step);
    IssueFlush(s, step);
  }

  lemma ReadWaitStream(s: Session, step: SessionStep)
    requires StreamInv(s) && ReadsInv(s) && ResultInv(s) && CompletionInv(s)
    requires Enabled(s, step) && step.ReadWaitEnds?
    ensures StreamInv(Apply(s, step)) && ResultInv(Apply(s, step))
  {
  }

  lemma ReadWaitReads(s: Session, step: SessionStep)
    requires StreamInv(s) && ReadsInv(s)
    requires Enabled(s, step) && step.ReadWaitEnds?
    ensures ReadsInv(Apply(s, step))
  {
  }

  lemma ReadWaitLive(s: Session, step: SessionStep)
    requires Inv(s) && Enabled(s, step) && step.ReadWaitEnds?
    ensures LiveInv(Apply(s, step)) && CompletionInv(Apply(s, step))
  {
  }

  lemma ReadWaitFlush(s: Session, step: SessionStep)
    requires Inv(s) && Enabled(s, step) && step.ReadWaitEnds?
    ensures FlushInv(Apply(s, step))
  {
  }

  lemma ReadWaitInv(s: Session, step: SessionStep)
    requires Inv(s) && Enabled(s, step) && step.ReadWaitEnds?
    ensures Inv(Apply(s, step))
  {
    ReadWaitStream(s, step);
    ReadWaitReads(s, step);
    ReadWaitLive(s, step);
    ReadWaitFlush(s, step);
  }

  lemma FlushWaitStream(s: Session, step: SessionStep)
    requires StreamInv(s) && ReadsInv(s) && ResultInv(s)
    requires Enabled(s, step) && (step.RequestFlush? || step.FlushWaitEnds?)
    ensures StreamInv(Apply(s, step)) && ResultInv(Apply(s, step))
  {
  }

  lemma FlushWaitReads(s: Session, step: SessionStep)
    requires StreamInv(s) && ReadsInv(s)
    requires Enabled(s, step) && (step.RequestFlush? || step.FlushWaitEnds?)
    ensures ReadsInv(Apply(s, step))
  {
  }

  lemma FlushWaitLive(s: Session, step: SessionStep)
    requires Inv(s) && Enabled(s, step) && (step.RequestFlush? || step.FlushWaitEnds?)
    ensures LiveInv(Apply(s, step)) && CompletionInv(Apply(s, step))
  {
  }

  lemma FlushWaitFlush(s: Session, step: SessionStep)
    requires Inv(s) && Enabled(s, step) && (step.RequestFlush? || step.FlushWaitEnds?)
    ensures FlushInv(Apply(s, step))
  {
  }

  lemma FlushInvKept(s: Session, step: SessionStep)
    requires Inv(s) && Enabled(s, step) && (step.RequestFlush? || step.FlushWaitEnds?)
    ensures Inv(Apply(s, step))
  {
    FlushWaitStream(s, step);
    FlushWaitReads(s, step);
    FlushWaitLive(s, step);
    FlushWaitFlush(s, step);
  }

  lemma ReadArrivesStream(s: Session, step: SessionStep)
    requires StreamInv(s) && ReadsInv(s) && ResultInv(s)
    requires Enabled(s, step) && step.ReadArrives?
    ensures StreamInv(Apply(s, step)) && ResultInv(Apply(s, step))
  {
  }

  lemma ReadArrivesReads(s: Session, step: SessionStep)
    requires StreamInv(s) && ReadsInv(s)
    requires Enabled(s, step) && step.ReadArrives?
    ensures ReadsInv(Apply(s, step))
  {
  }

  lemma ReadArrivesLive(s: Session, step: SessionStep)
    requires Inv(s) && Enabled(s, step) && step.ReadArrives?
    ensures LiveInv(Apply(s, step)) && CompletionInv(Apply(s, step))
  {
  }

  lemma ReadArrivesFlush(s: Session, step: SessionStep)
    requires Inv(s) && Enabled(s, step) && step.ReadArrives?
    ensures FlushInv(Apply(s, step))
  {
  }

  lemma ReadArrivesInv(s: Session, step: SessionStep)
    requires Inv(s) && Enabled(s, step) && step.ReadArrives?
    ensures Inv(Apply(s, step))
  {
    ReadArrivesStream(s, step);
    ReadArrivesReads(s, step);
    ReadArrivesLive(s, step);
    ReadArrivesFlush(s, step);
  }

  lemma ReadWritesInv(s: Session, step: SessionStep)
    requires Inv(s) && Enabled(s, step) && step.ReadWrites?
    ensures Inv(Apply(s, step))
  {
  }

  lemma FlushArrivesStream(s: Session, step: SessionStep)
    requires StreamInv(s) && ReadsInv(s) && ResultInv(s)
    requires Enabled(s, step) && step.FlushArrives?
    ensures StreamInv(Apply(s, step)) && ResultInv(Apply(s, step))
  {
  }

  lemma FlushArrivesReads(s: Session, step: SessionStep)
    requires StreamInv(s) && ReadsInv(s)
    requires Enabled(s, step) && step.FlushArrives?
    ensures ReadsInv(Apply(s, step))
  {
  }

  lemma FlushArrivesLive(s: Session, step: SessionStep)
    requires Inv(s) && Enabled(s, step) && step.FlushArrives?
    ensures LiveInv(Apply(s, step)) && CompletionInv(Apply(s, step))
  {
  }

  lemma FlushArrivesFlush(s: Session, step: SessionStep)
    requires Inv(s) && Enabled(s, step) && step.FlushArrives?
    ensures FlushInv(Apply(s, step))
  {
  }

  lemma FlushArrivesInv(s: Session, step: SessionStep)
    requires Inv(s) && Enabled(s, step) && step.FlushArrives?
    ensures Inv(Apply(s, step))
  {
    FlushArrivesStream(s, step);
    FlushArrivesReads(s, step);
    FlushArrivesLive(s, step);
    FlushArrivesFlush(s, step);
  }

  lemma FlushWritesInv(s: Session, step: SessionStep)
    requires Inv(s) && Enabled(s, step) && step.FlushWrites?
    ensures Inv(Apply(s, step))
  {
  }

  /** A command begins or ends outside the capture loop, and nothing but the body changes. */
  lemma BodyMovesInv(s: Session, t: Session)
    requires StreamInv(s) && ReadsInv(s) && LiveInv(s) && CompletionInv(s) && FlushInv(s)
    requires t == s.(body := t.body) && !Capturing(s.body) && !Capturing(t.body)
    requires !t.body.Activating? && !t.body.Starting?
    ensures StreamInv(t) && ReadsInv(t) && LiveInv(t) && CompletionInv(t) && FlushInv(t)
  {
  }

  lemma EnterInv(s: Session, step: SessionStep)
    requires Inv(s) && Enabled(s, step) && step.Enter?
    ensures Inv(Apply(s, step))
  {
    BodyMovesInv(s, Apply(s, step));
  }

  lemma LeaveInv(s: Session, step: SessionStep)
    requires Inv(s) && Enabled(s, step) && step.Leave?
    ensures Inv(Apply(s, step))
  {
  }

  lemma StepInv(s: Session, step: SessionStep)
    requires Inv(s) && Enabled(s, step)
    ensures Inv(Apply(s, step))
  {
    match step
    case Enter(_, _) => EnterInv(s, step);
    case Leave => LeaveInv(s, step);
    case Teardown(_) => TeardownInv(s, step);
    case WorkerTeardown => TeardownInv(s, step);
    case BeginStream(_) => StartInv(s, step);
    case FinishStart(_) => StartInv(s, step);
    case StartCapture(_) => IssueInv(s, step);
    case IssueRead(_) => IssueInv(s, step);
    case ReadWaitEnds(_, _, _, _) => ReadWaitInv(s, step);
    case RequestFlush(_, _) => FlushInvKept(s, step);
    case FlushWaitEnds(_) => FlushInvKept(s, step);
    case ReadArrives(_) => ReadArrivesInv(s, step);
    case ReadWrites(_, _) => ReadWritesInv(s, step);
    case FlushArrives(_) => FlushArrivesInv(s, step);
    case FlushWrites(_) => FlushWritesInv(s, step);
  }

  // ----- what a step does to the outcome and the history ------------------------------------------

  /** The step that takes a frame takes it from the very read its capture has just issued,
      through the callback of the active generation. */
  lemma FrameComesFromAwaitedRead(s: Session, step: SessionStep)
    requires Inv(s) && Enabled(s, step) && step.ReadWaitEnds?
    ensures var t := Apply(s, step);
            t.body.Returning? && t.body.result.Frame? ==>
              && t.body.result.read == s.body.read
              && s.issued[s.body.read] == Read(s.body.call, s.gate.active)
              && t.body.result.generation == s.gate.active
              && NoneLiveBut(t, t.callback, -1)
  {
  }

  /** Reads are only appended, and the running command keeps its call. */
  lemma StepKeeps(s: Session, step: SessionStep)
    requires Enabled(s, step)
    ensures s.issued <= Apply(s, step).issued
    ensures !s.body.NoCommand? && !Apply(s, step).body.NoCommand? ==> Apply(s, step).body.call == s.body.call
    ensures !step.Enter? && !step.Leave? ==> (s.body.NoCommand? <==> Apply(s, step).body.NoCommand?)
  {
    StepKeepsCall(s, step);
  }

  lemma StepKeepsCall(s: Session, step: SessionStep)
    requires Enabled(s, step)
    ensures !s.body.NoCommand? && !Apply(s, step).body.NoCommand? ==> Apply(s, step).body.call == s.body.call
    ensures !step.Enter? && !step.Leave? ==> (s.body.NoCommand? <==> Apply(s, step).body.NoCommand?)
  {
  }

  /** How a step may change the gate. */
  predicate GateMoves(g: Gate, h: Gate) {
    h == g || h == Begun(g) || h == Retired(g) || h == g.(stale := g.stale + 1)
  }

  lemma WorkerMovesGate(s: Session, step: SessionStep)
    requires Enabled(s, step) && !step.ReadArrives? && !step.FlushArrives?
    ensures GateMoves(s.gate, Apply(s, step).gate)
  {
  }

  lemma GenerationsGrow(s: Session, step: SessionStep)
    requires Enabled(s, step)
    ensures GateMoves(s.gate, Apply(s, step).gate)
  {
    if !step.ReadArrives? && !step.FlushArrives? {
      WorkerMovesGate(s, step);
    }
  }

  /** A stream that has been retired stays so: generations never come back, and a completion
      of an older generation changes neither the active callback nor the running command. */
  lemma RetiredStreamsAreHarmless(s: Session, step: SessionStep)
    requires Inv(s) && Enabled(s, step)
    ensures s.gate.next <= Apply(s, step).gate.next
    ensures var active := Apply(s, step).gate.active;
            active == s.gate.active || active == NO_GENERATION || active == s.gate.next + 1
    ensures step.ReadWrites? && s.issued[step.read].generation != s.gate.active ==>
              var t := Apply(s, step);
              t.body == s.body && (s.callback in s.callbacks ==> t.callbacks[s.callback] == s.callbacks[s.callback])
    ensures step.ReadArrives? && s.issued[step.read].generation != s.gate.active ==>
              Apply(s, step)
                == s.(outstanding := s.outstanding - {step.read}, gate := s.gate.(stale := s.gate.stale + 1))
  {
    GenerationsGrow(s, step);
  }
}
