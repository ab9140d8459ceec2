/** How each report ends up in the attempt's row, the task's flags, the reply
    and the log: which state, which failure kind, which flags, whether the
    counter starts over. Stated report by report, for every policy.
*/
module OutcomeLaws {
  import opened Prelude
  import opened Git
  import opened Lifecycle
  import opened Transitions
  import opened TransitionLaws
  import opened QuarantineBound
  import W = Workflows
  import S = Store

  /** A submit with this status, of any kind of task. */
  predicate Reports(cause: Cause, status: RunStatus) {
    cause.Submit? && cause.outcome.status == status
  }

  /** An error was reported, or a document step came back without one. */
  predicate IsError(cause: Cause, policy: SubmitPolicy) {
    Reports(cause, ReportedError)
    || (Reports(cause, Completed) && cause.outcome.document.None?
        && policy.workflowStep.Some? && policy.workflowStep.value.kind == W.Doc)
  }

  /** The document of a document step. */
  predicate IsDocument(cause: Cause, policy: SubmitPolicy) {
    Reports(cause, Completed) && cause.outcome.document.Some?
    && policy.workflowStep.Some? && policy.workflowStep.value.kind == W.Doc
  }

  predicate IsRefused(cause: Cause) {
    cause.LandDone? && (cause.land.kind.Conflict? || cause.land.kind.PushRejected? || cause.land.kind.TransportFailed?)
  }

  predicate IsLanded(cause: Cause) {
    cause.Recover?
    || (cause.LandDone? && (cause.land.kind.LandedKind? || cause.land.kind.CheckoutBehind? || cause.land.kind.Adopted?))
  }

  /** The kind an error was reported with; a missing document is the worker's
      error. */
  function ReportedKind(cause: Cause): Option<FailureKind>
    requires cause.Submit?
  {
    if cause.outcome.status.ReportedError? then cause.outcome.failureKind else Some(WorkerError)
  }

  /** Only an error without a kind is taken for the worker's. */
  lemma KindOfIsExact(outcome: Outcome, kind: FailureKind)
    ensures KindOf(outcome) == kind <==>
            outcome.failureKind == Some(kind) || (outcome.failureKind.None? && kind == WorkerError)
  {}

  predicate IsMergeKind(kind: Option<FailureKind>) {
    kind == Some(MergeConflict) || kind == Some(MergeRejected)
  }

  // ----- The state ----------------------------------------------------------

  /** The state each report is stored as. */
  predicate IsStateOf(cause: Cause, policy: SubmitPolicy, state: AttemptState) {
    && (state == Blocked <==> Reports(cause, ReportedBlocked))
    && (state == Failed <==> IsError(cause, policy) && !IsMergeKind(ReportedKind(cause)))
    && (state == Conflicted <==>
        (IsError(cause, policy) && IsMergeKind(ReportedKind(cause))) || IsRefused(cause) || cause.Interrupt?)
    && (state == Skipped <==> Reports(cause, ReportedSkip))
    && (state == Aborted <==> Reports(cause, ReportedAbort) || Reports(cause, StillRunning) || cause.Stop?)
    && (state == Landed <==> IsLanded(cause))
    && (state == Expired <==> cause.Expire?)
    && (state == MidLand <==> cause.Enqueue?)
    && (state == NoChange <==>
        IsDocument(cause, policy) || cause.SplitDone? || (cause.LandDone? && cause.land.kind.NoChanges?))
  }

  lemma ErrorState(outcome: Outcome, policy: SubmitPolicy)
    ensures ErrorTransition(outcome, policy).state == if IsMergeKind(outcome.failureKind) then Conflicted else Failed
    ensures ErrorTransition(outcome, policy).fields == Fields(failureKind := Some(outcome.failureKind))
  {}

  lemma LandState(land: LandOutcome, policy: SubmitPolicy)
    ensures var t := TransitionFor(LandDone(land), policy).value;
            IsStateOf(LandDone(land), policy, t.state)
  {
    var t := TransitionFor(LandDone(land), policy).value;
    match land.kind
    case NoChanges => assert t.state == NoChange;
    case LandedKind | CheckoutBehind | Adopted => assert t.state == Landed;
    case Conflict | PushRejected | TransportFailed => assert t.state == Conflicted;
  }

  lemma SubmitState(outcome: Outcome, policy: SubmitPolicy)
    requires TransitionFor(Submit(outcome), policy).Some?
    ensures IsStateOf(Submit(outcome), policy, TransitionFor(Submit(outcome), policy).value.state)
  {
    var t := TransitionFor(Submit(outcome), policy).value;
    match outcome.status
    case ReportedError => ErrorState(outcome, policy);
    case Completed =>
      if outcome.document.None? {
        ErrorState(NO_DOCUMENT, policy);
      } else {
        assert t == OnDocument(policy.workflowStep.value, outcome.document.value);
      }
    case ReportedBlocked => assert t == BlockedTransition(outcome, policy);
    case _ => assert t == NeutralTransition(outcome);
  }

  /** Every state is stored for exactly its reports, whatever the policy. */
  lemma StatesAreExact(cause: Cause, policy: SubmitPolicy)
    requires TransitionFor(cause, policy).Some?
    ensures IsStateOf(cause, policy, TransitionFor(cause, policy).value.state)
  {
    match cause
    case Submit(outcome) => SubmitState(outcome, policy);
    case LandDone(land) => LandState(land, policy);
    case _ =>
  }

  // ----- The failure kind ---------------------------------------------------

  /** The failure kind a report writes, and the reports that leave the column
      alone. */
  function KindWritten(cause: Cause, policy: SubmitPolicy): Option<Option<FailureKind>> {
    if Reports(cause, ReportedBlocked) then
      Some(Some(if cause.outcome.failureKind.Some? then cause.outcome.failureKind.value else DeclaredBlock))
    else if IsError(cause, policy) then Some(ReportedKind(cause))
    else if IsRefused(cause) then Some(Some(if cause.land.kind.Conflict? then MergeConflict else MergeRejected))
    else if cause.Interrupt? then Some(Some(MergeRejected))
    else if cause.Submit? && !IsDocument(cause, policy) then Some(cause.outcome.failureKind)
    else None
  }

  lemma SubmitsKind(outcome: Outcome, policy: SubmitPolicy)
    requires TransitionFor(Submit(outcome), policy).Some?
    ensures TransitionFor(Submit(outcome), policy).value.fields.failureKind == KindWritten(Submit(outcome), policy)
  {
    var t := TransitionFor(Submit(outcome), policy).value;
    match outcome.status
    case ReportedError => ErrorState(outcome, policy);
    case Completed =>
      if outcome.document.None? {
        ErrorState(NO_DOCUMENT, policy);
      } else {
        assert t == OnDocument(policy.workflowStep.value, outcome.document.value);
      }
    case ReportedBlocked => assert t == BlockedTransition(outcome, policy);
    case _ => assert t == NeutralTransition(outcome);
  }

  lemma LandsKind(land: LandOutcome, policy: SubmitPolicy)
    ensures TransitionFor(LandDone(land), policy).value.fields.failureKind == KindWritten(LandDone(land), policy)
  {
    var t := TransitionFor(LandDone(land), policy).value;
    match land.kind
    case NoChanges => assert t == NoChangeTransition(policy);
    case LandedKind | CheckoutBehind | Adopted => assert t.fields == Fields(commit := Some(land.sha));
    case Conflict | PushRejected | TransportFailed => assert t == LandFailedTransition(land, policy);
  }

  /** Every report writes exactly this kind, or leaves the column alone. */
  lemma KindsAreExact(cause: Cause, policy: SubmitPolicy)
    requires TransitionFor(cause, policy).Some?
    ensures TransitionFor(cause, policy).value.fields.failureKind == KindWritten(cause, policy)
  {
    match cause
    case Submit(outcome) => SubmitsKind(outcome, policy);
    case LandDone(land) => LandsKind(land, policy);
    case _ =>
  }

  // ----- The flags, the counter, the workflow, the reply, the log -----------

  predicate IsAtItsEnd(policy: SubmitPolicy) {
    policy.workflowStep.Some? && policy.workflowStep.value.routeTo == W.END
  }

  predicate IsEvergreenWorkflow(policy: SubmitPolicy) {
    policy.workflowStep.Some? && policy.workflowStep.value.evergreen
  }

  /** Besides quarantine, hold, watch and pause: the task is flagged as failed
      exactly for a fruitless report below the limit, as completed for the last
      document of a workflow that is not evergreen; its counter starts over
      exactly for a land, a split that made something, and a document that moved
      on; and an evergreen workflow is reset at its end. */
  predicate IsTaskTold(cause: Cause, policy: SubmitPolicy, e: TaskEffects) {
    && (FailedFlag in e.frontmatter <==> IsNoProgress(cause, policy) && !IsAtLimit(policy))
    && (CompletedFlag in e.frontmatter <==>
        IsDocument(cause, policy) && IsAtItsEnd(policy) && !IsEvergreenWorkflow(policy))
    && (e.progress == Reset <==>
        || IsLanded(cause)
        || (cause.SplitDone? && (policy.workflowStep.Some? ==> cause.created))
        || (IsDocument(cause, policy) && (IsAtItsEnd(policy) || !policy.workflowStep.value.destVisitsExhausted)))
    && (e.workflowReset <==>
        IsEvergreenWorkflow(policy)
        && ((IsDocument(cause, policy) && IsAtItsEnd(policy))
            || (cause.LandDone? && IsLanded(cause) && IsAtItsEnd(policy))
            || (cause.SplitDone? && cause.created)))
  }

  /** What the worker is told, and what the log shows of the task's run and of
      the queue. */
  predicate IsReplied(cause: Cause, policy: SubmitPolicy, t: Transition) {
    && (t.response.landed <==> cause.LandDone? && IsLanded(cause))
    && (TaskResult in t.events <==> !cause.Enqueue? && !cause.Stop? && !cause.Expire?)
    && (QueueChanged in t.events <==>
        || IsLanded(cause) || cause.SplitDone? || (cause.LandDone? && cause.land.kind.NoChanges?)
        || (IsDocument(cause, policy) && (IsAtItsEnd(policy) || !policy.workflowStep.value.destVisitsExhausted)))
  }

  lemma ErrorTells(outcome: Outcome, policy: SubmitPolicy)
    ensures var t := ErrorTransition(outcome, policy); var worker := KindOf(outcome) == WorkerError;
            && (FailedFlag in t.effects.frontmatter <==> worker && !IsAtLimit(policy))
            && CompletedFlag !in t.effects.frontmatter && t.effects.progress != Reset && !t.effects.workflowReset
            && !t.response.landed && TaskResult in t.events && QueueChanged !in t.events
  {
    LadderTells(policy, true);
  }

  lemma LadderTells(policy: SubmitPolicy, retryPause: bool)
    ensures var rung := FailureLadder(policy, retryPause);
            && (FailedFlag in rung.frontmatter <==> !IsAtLimit(policy)) && CompletedFlag !in rung.frontmatter
            && QueueChanged !in rung.events
  {}

  lemma NoChangeTells(policy: SubmitPolicy)
    ensures var t := NoChangeTransition(policy);
            && (FailedFlag in t.effects.frontmatter <==> !IsAtLimit(policy))
            && CompletedFlag !in t.effects.frontmatter && t.effects.progress == Increment && !t.effects.workflowReset
            && !t.response.landed && TaskResult in t.events && QueueChanged in t.events
  {
    LadderTells(policy, false);
  }

  predicate IsToldAll(cause: Cause, policy: SubmitPolicy, t: Transition) {
    IsTaskTold(cause, policy, t.effects) && IsReplied(cause, policy, t)
  }

  lemma LandTells(land: LandOutcome, policy: SubmitPolicy)
    ensures IsToldAll(LandDone(land), policy, TransitionFor(LandDone(land), policy).value)
  {
    var t := TransitionFor(LandDone(land), policy).value;
    match land.kind
    case NoChanges =>
      NoChangeTells(policy);
      assert t == NoChangeTransition(policy);
    case LandedKind | CheckoutBehind | Adopted =>
      assert policy.workflowStep.None? ==> t == LandedTransition(land, policy);
    case Conflict | PushRejected | TransportFailed =>
      assert t == LandFailedTransition(land, policy);
  }

  lemma SubmitTells(outcome: Outcome, policy: SubmitPolicy)
    requires TransitionFor(Submit(outcome), policy).Some?
    ensures IsToldAll(Submit(outcome), policy, TransitionFor(Submit(outcome), policy).value)
  {
    var t := TransitionFor(Submit(outcome), policy).value;
    match outcome.status
    case ReportedBlocked => assert t == BlockedTransition(outcome, policy);
    case ReportedError => ErrorTells(outcome, policy);
    case Completed =>
      if outcome.document.None? {
        ErrorTells(NO_DOCUMENT, policy);
      } else {
        assert t == OnDocument(policy.workflowStep.value, outcome.document.value);
      }
    case _ => assert t == NeutralTransition(outcome);
  }

  /** Every report tells the task, the worker and the log exactly this. */
  lemma TasksAreToldExactly(cause: Cause, policy: SubmitPolicy)
    requires TransitionFor(cause, policy).Some?
    ensures var t := TransitionFor(cause, policy).value;
            IsTaskTold(cause, policy, t.effects) && IsReplied(cause, policy, t)
  {
    match cause
    case Submit(outcome) => SubmitTells(outcome, policy);
    case LandDone(land) => LandTells(land, policy);
    case _ =>
  }

  // ----- The attempt's row --------------------------------------------------

  /** What every report leaves in the attempt's own row: its state and failure
      kind, the landing phase from the enqueue on, and whether it is over. */
  lemma AttemptsFollowReports(cause: Cause, policy: SubmitPolicy, a: S.Attempt)
    requires TransitionFor(cause, policy).Some?
    ensures var after, kind := S.AttemptAfter(a, TransitionFor(cause, policy).value), KindWritten(cause, policy);
            && IsStateOf(cause, policy, after.state)
            && after.failureKind == (if kind.Some? then kind.value else a.failureKind)
            && after.phase == (if cause.Enqueue? then Some("landing") else a.phase)
            && (after.finished <==> a.finished || !cause.Enqueue?)
            && after.task == a.task && after.worker == a.worker
  {
    StatesAreExact(cause, policy);
    KindsAreExact(cause, policy);
    OnlyAnEnqueueStaysLive(cause, policy);
  }

  // ----- The task's row -----------------------------------------------------

  predicate IsCountedReport(cause: Cause, policy: SubmitPolicy) {
    IsNoProgress(cause, policy) || IsHeldError(cause, policy) || IsEmptySplit(cause, policy)
  }

  /** What a report makes of the task's counter and of the time before which it
      is not handed out again: one more and the delay from now on, or nothing to
      wait for; zero and no wait; or both as they were. */
  predicate IsRowOf(cause: Cause, policy: SubmitPolicy, was: S.TaskRow, reset: bool, now: real, after: S.TaskRow) {
    if IsCountedReport(cause, policy) then
      && after.attempts == was.attempts + 1
      && after.backoff == if IsNoProgress(cause, policy) && !IsAtLimit(policy)
                          then Some(now + policy.retry.backoff.Delay(policy.attempts + 1)) else None
    else if reset then after.attempts == 0 && after.backoff == None
    else after.attempts == was.attempts && after.backoff == was.backoff
  }

  /** A task without a row has the counter zero. */
  function Was(row: Option<S.TaskRow>): S.TaskRow {
    if row.Some? then row.value else S.TaskRow(None, 0, None)
  }

  /** What every report leaves in the task's row. */
  lemma RowsFollowReports(cause: Cause, policy: SubmitPolicy, row: Option<S.TaskRow>, now: real)
    requires TransitionFor(cause, policy).Some?
    ensures var e := TransitionFor(cause, policy).value.effects;
            var after := Was(S.RowAfter(row, e, now));
            && IsRowOf(cause, policy, Was(row), e.progress.Reset?, now, after)
            && (e.hold.Some? ==> after.hold == e.hold)
            && (e.hold.None? ==> after.hold == if e.clearHold then None else Was(row).hold)
  {
    CountedExactly(cause, policy);
  }
}
