/** The post-frame decision of src/runtime/finalization.h and the save policy of
    src/artifacts/capture_store.cpp. */
module Finalization {

  datatype Verdict = NotEvaluated | Pass | Fail

  datatype Status = StatusOk | Timeout | RequiredArtifactError | InternalError | OtherStatus(code: nat)

  datatype Detail = NoDetail | DeadlineExpired | RequiredArtifactFailed | InternalUnexpected | OtherDetail(code: nat)

  datatype SaveRequirement = NotRequired | Optional | Required

  datatype SaveDecision = Skip | Save

  function SaveRequirementFor(policy: string, required: bool): SaveRequirement {
    if policy == "never" then NotRequired
    else if policy == "always" || policy == "fail_or_error" then
      if required then Required else Optional
    else NotRequired
  }

  function DecideCaptureSave(policy: string, verdict: Verdict, executionOk: bool): SaveDecision {
    if policy == "never" then Skip
    else if policy == "always" then Save
    else if policy == "fail_or_error" then
      if !executionOk || verdict == Fail then Save else Skip
    else Skip
  }

  datatype FinalizeRequest = FinalizeRequest(
    verdict: Verdict,
    executionOk: bool,
    frameValid: bool,
    postFrameStatus: Status,
    postFrameError: Detail,
    requirement: SaveRequirement,
    saveAttempted: bool,
    saveCommitted: bool,
    saveFailed: bool,
    deadlineExpired: bool)

  datatype FinalizeDecision = FinalizeDecision(
    status: Status,
    verdict: Verdict,
    error: Detail,
    saveWarning: bool,       // warning_image_save_failed, or-ed into the base flags
    publishImagePath: bool)

  function TechnicalStatus(r: FinalizeRequest): Status {
    if r.postFrameStatus != StatusOk then r.postFrameStatus else InternalError
  }

  function TechnicalError(r: FinalizeRequest): Detail {
    if r.postFrameError != NoDetail then r.postFrameError else InternalUnexpected
  }

  predicate OptionalIncomplete(r: FinalizeRequest) {
    r.requirement == Optional && r.saveAttempted && !r.saveCommitted
  }

  predicate RequiredIncomplete(r: FinalizeRequest) {
    r.requirement == Required && !r.saveCommitted
  }

  function FinalizeAfterFrame(r: FinalizeRequest): FinalizeDecision {
    if !r.frameValid then
      if r.executionOk && r.postFrameStatus == StatusOk
      then FinalizeDecision(StatusOk, NotEvaluated, NoDetail, OptionalIncomplete(r), false)
      else FinalizeDecision(TechnicalStatus(r), NotEvaluated, TechnicalError(r), OptionalIncomplete(r), false)
    else if RequiredIncomplete(r) then
      if r.deadlineExpired
      then FinalizeDecision(Timeout, NotEvaluated, DeadlineExpired, false, false)
      else FinalizeDecision(RequiredArtifactError, NotEvaluated, RequiredArtifactFailed, false, false)
    else if !r.executionOk then
      FinalizeDecision(TechnicalStatus(r), NotEvaluated, TechnicalError(r), OptionalIncomplete(r), r.saveCommitted)
    else
      FinalizeDecision(StatusOk, r.verdict, NoDetail, OptionalIncomplete(r), r.saveCommitted)
  }

  /** What the save policies mean: "always" saves every frame, "fail_or_error" exactly those of a
      failed execution or a FAIL, and "never" and every unknown policy none. */
  lemma PolicyExactly(policy: string, verdict: Verdict, executionOk: bool)
    ensures DecideCaptureSave(policy, verdict, executionOk) == Save <==>
              policy == "always" || (policy == "fail_or_error" && (!executionOk || verdict == Fail))
  {
  }

  /** The two rules agree on when a save matters: a save is only ever due under a policy that
      has a requirement, which is the one that the recipe states. */
  lemma DueSaveHasRequirement(policy: string, required: bool, verdict: Verdict, executionOk: bool)
    ensures policy == "always" || (policy == "fail_or_error" && (!executionOk || verdict == Fail)) ==>
              SaveRequirementFor(policy, required) == (if required then Required else Optional)
    ensures policy != "always" && policy != "fail_or_error" ==> SaveRequirementFor(policy, required) == NotRequired
  {
  }

  /** After a valid frame the caller sees PASS or FAIL only with status OK, an image path
      only for a committed save, OK exactly if the execution succeeded and a required save was
      committed, and the warning exactly for an optional save that was attempted in vain.  A
      required save that is missing takes precedence over a failed execution. */
  lemma DecisionIsHonest(r: FinalizeRequest)
    requires r.frameValid
    ensures var d := FinalizeAfterFrame(r);
            var missing := r.requirement == Required && !r.saveCommitted;
            && d.verdict == (if d.status == StatusOk then r.verdict else NotEvaluated)
            && (d.publishImagePath <==> r.saveCommitted)
            && (d.status == StatusOk <==> r.executionOk && !missing)
            && (d.status == StatusOk <==> d.error == NoDetail)
            && (missing ==> d.status == if r.deadlineExpired then Timeout else RequiredArtifactError)
            && (missing ==> d.error == if r.deadlineExpired then DeadlineExpired else RequiredArtifactFailed)
            && (!missing && !r.executionOk && r.postFrameStatus != StatusOk ==> d.status == r.postFrameStatus)
            && (!missing && !r.executionOk && r.postFrameError != NoDetail ==> d.error == r.postFrameError)
            && (d.saveWarning <==> r.requirement == Optional && r.saveAttempted && !r.saveCommitted)
  {
  }

  /** Without a valid frame a capture failure is echoed and never becomes an artifact error. */
  lemma NoFrameEchoesFailure(r: FinalizeRequest)
    requires !r.frameValid
    ensures var d := FinalizeAfterFrame(r);
            && d.verdict == NotEvaluated && !d.publishImagePath
            && (r.postFrameStatus != StatusOk ==> d.status == r.postFrameStatus)
            && (r.postFrameStatus != StatusOk && r.postFrameError != NoDetail ==> d.error == r.postFrameError)
            && (d.status == StatusOk <==> r.executionOk && r.postFrameStatus == StatusOk)
  {
  }
}
