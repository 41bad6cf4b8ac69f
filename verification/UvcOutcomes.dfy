/** What each step of a session command answers, stated over the recorded completion, the inputs
    of the step and the fields of the session
    (src/camera/uvc_windows/uvc_backend.cpp:1442-1569). */
module UvcOutcomes {
  import opened Options
  import opened UvcSession

  /** The completion that the current callback has recorded, as long as its generation is active. */
  function Recorded(s: Session): Option<Completion> {
    if 0 < s.callback == s.gate.active && s.callback in s.callbacks then s.callbacks[s.callback].read else None
  }

  /** Success status, and a successful refresh if the media type changed. */
  predicate IsGood(c: Completion, refreshOk: bool) {
    c.statusOk && (c.typeChanged ==> refreshOk)
  }

  /** The completion yields a frame. */
  predicate YieldsFrame(c: Completion, refreshOk: bool, convertOk: bool) {
    IsGood(c, refreshOk) && c.hasSample && convertOk
  }

  /** The stream can be used no more: a bad completion, or the end of the stream. */
  predicate BreaksStream(c: Completion, refreshOk: bool) {
    !IsGood(c, refreshOk) || (!c.hasSample && c.endOfStream)
  }

  /** A completion without a frame that is no failure either, such as a stream tick. */
  predicate IsEmpty(c: Completion, refreshOk: bool) {
    IsGood(c, refreshOk) && !c.hasSample && !c.endOfStream
  }

  /** In every state the invariant allows, the end of a read wait is, by the completion that was
      recorded for the awaited read: a frame of that read through the active generation; a failed
      capture; a timeout; another read; or, if nothing was recorded, the cancellation of the read. */
  lemma ReadWaitExactly(s: Session, timedOut: bool, expired: bool, refreshOk: bool, convertOk: bool)
    requires Inv(s) && Enabled(s, ReadWaitEnds(timedOut, expired, refreshOk, convertOk))
    ensures var t := Apply(s, ReadWaitEnds(timedOut, expired, refreshOk, convertOk));
            var r, call, read := Recorded(s), s.body.call, s.body.read;
            && (t.body == Returning(call, Frame(read, s.gate.active)) <==>
                  r.Some? && YieldsFrame(r.value, refreshOk, convertOk))
            && (t.body.Returning? && t.body.result.Frame? ==> t.body.result == Frame(read, s.gate.active))
            && (t.body == Returning(call, Failed(CaptureFailed)) <==>
                  r.Some? && (BreaksStream(r.value, refreshOk) || (r.value.hasSample && !convertOk)))
            && (t.body == Returning(call, Failed(CaptureTimedOut)) <==>
                  r.Some? && IsEmpty(r.value, refreshOk) && expired)
            && (t.body == Issuing(call) <==> r.Some? && IsEmpty(r.value, refreshOk) && !expired)
            && (t.body == Cancelling(call, read) <==> r.None?)
  {
  }

  /** The stream is marked for a reconnect exactly after a completion that breaks it, and a
      further read starts with no completion recorded. */
  lemma ReadWaitMarks(s: Session, timedOut: bool, expired: bool, refreshOk: bool, convertOk: bool)
    requires Inv(s) && Enabled(s, ReadWaitEnds(timedOut, expired, refreshOk, convertOk))
    ensures var t := Apply(s, ReadWaitEnds(timedOut, expired, refreshOk, convertOk));
            && (t.needsReconnect <==> Recorded(s).Some? && BreaksStream(Recorded(s).value, refreshOk))
            && (t.body.Issuing? ==> Recorded(t).None?)
            && t.isOpen == s.isOpen && t.gate == s.gate && t.issued == s.issued
  {
  }

  /** A capture begins to read exactly on an open and usable stream within its deadline; the
      refusals take this order. */
  lemma StartCaptureExactly(s: Session, expired: bool)
    requires StreamInv(s) && Enabled(s, StartCapture(expired))
    ensures var t := Apply(s, StartCapture(expired));
            var call := s.body.call;
            && (t.body == Issuing(call) <==> s.isOpen && !expired && !s.needsReconnect)
            && (t.body == Returning(call, Failed(NotOpen)) <==> !s.isOpen)
            && (t.body == Returning(call, Failed(CaptureTimedOut)) <==> s.isOpen && expired)
            && (t.body == Returning(call, Failed(Disconnected)) <==> s.isOpen && !expired && s.needsReconnect)
            && (t.body.Issuing? ==> Recorded(t).None?)
  {
  }

  /** Issuing a read appends it for this call on the active generation; a failure to do so is a
      failed capture and marks the stream. */
  lemma IssueExactly(s: Session, ok: bool)
    requires StreamInv(s) && Enabled(s, IssueRead(ok))
    ensures var t := Apply(s, IssueRead(ok));
            && (ok ==>
                  && t.body == AwaitingRead(s.body.call, |s.issued|)
                  && t.issued == s.issued + [Read(s.body.call, s.gate.active)] && !t.needsReconnect)
            && (!ok ==>
                  t.body == Returning(s.body.call, Failed(CaptureFailed)) && t.needsReconnect && t.issued == s.issued)
  {
  }

  /** The current callback has recorded the flush, and its generation is active. */
  predicate FlushRecorded(s: Session) {
    0 < s.callback == s.gate.active && s.callback in s.callbacks && s.callbacks[s.callback].flushed
  }

  /** A read that was given up is a timeout, and the stream stays usable exactly if the flush was
      requested, some time was left for it, and it has completed on the active generation; then no
      late completion is left over. */
  lemma CancelExactly(s: Session, step: SessionStep)
    requires Inv(s) && Enabled(s, step) && (step.RequestFlush? || step.FlushWaitEnds?)
    ensures var t := Apply(s, step);
            && (t.body.Returning? ==> t.body == Returning(s.body.call, Failed(CaptureTimedOut)))
            && (t.body.Returning? && !t.needsReconnect ==> Recorded(t).None?)
            && (step.RequestFlush? ==>
                  && (t.body.AwaitingFlush? <==> step.ok && step.budget)
                  && (t.body.Returning? <==> !(step.ok && step.budget))
                  && (t.needsReconnect <==> !(step.ok && step.budget)))
            && (step.FlushWaitEnds? ==> t.body.Returning? && (t.needsReconnect <==> !FlushRecorded(s)))
  {
  }

  /** `open` and `reconnect` answer success exactly if the deadline had not passed after the old
      stream was torn down and both activation and format selection succeeded; then the session is
      open on a new generation, and after every failure it is closed. */
  lemma OpenExactly(s: Session, step: SessionStep)
    requires StreamInv(s) && Enabled(s, step) && (step.Teardown? || step.BeginStream? || step.FinishStart?)
    ensures var t := Apply(s, step);
            var call := s.body.call;
            && (t.body == Returning(call, Opened) <==> step.FinishStart? && step.ok)
            && (t.body == Returning(call, Failed(OpenFailed)) <==> if step.Teardown? then step.expired else !step.ok)
            && (t.body == Activating(call) <==> step.Teardown? && !step.expired)
            && (t.body == Starting(call) <==> step.BeginStream? && step.ok)
            && (t.body.Returning? ==> (t.isOpen <==> t.body.result == Opened))
            && (t.isOpen ==> t.reader == t.callback == t.gate.active != NO_GENERATION && !t.needsReconnect)
            && (t.body.Starting? ==> t.gate.active == s.gate.next + 1)
  {
  }

  /** Which command begins with what: only a reconnect of a session that was never opened is
      refused at once. */
  lemma EnterExactly(s: Session, call: nat, kind: Kind)
    requires Enabled(s, Enter(call, kind))
    ensures var t := Apply(s, Enter(call, kind));
            && (t.body == CaptureStart(call) <==> kind.Capture?)
            && (t.body == Tearing(call) <==> kind.Open? || (kind.Reconnect? && kind.hasIdentity))
            && (t.body == Returning(call, Failed(NotOpen)) <==> kind.Reconnect? && !kind.hasIdentity)
            && t == s.(body := t.body)
  {
  }
}
