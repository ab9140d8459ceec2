/** What each kind of report does to the task around the attempt: the hold,
    the failure watch, the queue, the brief, the worker. The table builds
    these effects branch by branch; here each is said once, for all branches.
*/
module EffectLaws {
  import opened Prelude
  import opened Lifecycle
  import opened Transitions
  import opened TransitionLaws
  import opened QuarantineBound
  import W = Workflows

  predicate IsBlockReport(cause: Cause) {
    cause.Submit? && cause.outcome.status.ReportedBlocked?
  }

  predicate IsRefusedLand(cause: Cause) {
    cause.LandDone?
    && (cause.land.kind.Conflict? || cause.land.kind.PushRejected?
        || (cause.land.kind.TransportFailed? && cause.land.retryable))
  }

  predicate IsLand(cause: Cause) {
    cause.Recover? || (cause.LandDone? && cause.land.kind in LAND_SUCCESS)
  }

  /** An error the box is to blame for. */
  predicate IsEnvironmentError(cause: Cause, policy: SubmitPolicy) {
    var error := ErrorOf(cause, policy);
    error.Some? && KindOf(error.value) !in {WorkerError, ValidationError, DeclaredBlock, MergeConflict, MergeRejected}
  }

  /** A failure the two-in-a-row watch sees. */
  predicate IsWatched(cause: Cause, policy: SubmitPolicy) {
    IsBlockReport(cause) || (IsNoProgress(cause, policy) && !IsAtLimit(policy)) || IsRefusedLand(cause)
  }

  /** A retried task failed once more; past the limit only an error still
      pauses the queue for it, and not in the worker's quarantine mode. */
  predicate IsFailedRetry(cause: Cause, policy: SubmitPolicy) {
    policy.wasRetry
    && (IsBlockReport(cause)
        || (IsNoProgress(cause, policy)
            && (!IsAtLimit(policy) || (ErrorOf(cause, policy).Some? && !policy.retry.immediateQuarantine))))
  }

  datatype Around = Around(hold: Option<TaskHold>, clearHold: bool, watch: Option<bool>, pause: Option<PauseReason>,
                           dropBrief: bool, startResolve: bool, cooldown: bool, artifact: Option<(string, string)>)

  function AroundOf(e: TaskEffects): Around {
    Around(e.hold, e.clearHold, e.watchArmed, e.pauseQueue, e.dropBrief, e.startResolve, e.workerCooldown,
           e.writeArtifact)
  }

  function Due(cause: Cause, policy: SubmitPolicy): Around {
    Around(
      if IsBlockReport(cause) then Some(TaskHold(true))
      else if IsHeldError(cause, policy) || IsRefusedLand(cause) || cause.Interrupt? then Some(TaskHold(false))
      else None,
      IsLand(cause) || (cause.SplitDone? && (policy.workflowStep.Some? ==> cause.created)),
      if IsWatched(cause, policy) then Some(true) else if IsLand(cause) then Some(false) else None,
      if IsFailedRetry(cause, policy) then Some(RetryFailed)
      else if IsWatched(cause, policy) && policy.watchArmed && !policy.queuePaused then Some(ConsecutiveFailures)
      else None,
      IsLand(cause) && !cause.Recover?
      && (if policy.workflowStep.Some? then
          policy.workflowStep.value.routeTo == W.END && !policy.workflowStep.value.evergreen
          else !policy.evergreen),
      IsRefusedLand(cause) && policy.autoResolve && !policy.prMode,
      IsEnvironmentError(cause, policy),
      if cause.Submit? && policy.workflowStep.Some? && IsStepDone(cause, policy.workflowStep.value)
         && policy.workflowStep.value.output.Some? && policy.workflowStep.value.output.value != ""
      then Some((policy.workflowStep.value.output.value, cause.outcome.document.value)) else None)
  }

  const NOTHING_AROUND := Around(None, false, None, None, false, false, false, None)

  lemma LadderAround(policy: SubmitPolicy, retryPause: bool)
    ensures var rung, limit := FailureLadder(policy, retryPause), IsAtLimit(policy);
            && rung.watch == (if limit then None else Some(true))
            && rung.pause
               == if policy.wasRetry && (!limit || (retryPause && !policy.retry.immediateQuarantine)) then
                    Some(RetryFailed)
                  else if limit then None
                  else WatchFailure(policy)
  {}

  lemma ErrorAround(outcome: Outcome, policy: SubmitPolicy)
    ensures var kind, rung := KindOf(outcome), FailureLadder(policy, true);
            AroundOf(ErrorTransition(outcome, policy).effects) ==
            if kind == WorkerError then NOTHING_AROUND.(watch := rung.watch, pause := rung.pause)
            else if kind in {ValidationError, DeclaredBlock, MergeConflict, MergeRejected}
            then NOTHING_AROUND.(hold := Some(TaskHold(false)))
            else NOTHING_AROUND.(cooldown := true)
  {}

  lemma ErrorIsDue(cause: Cause, policy: SubmitPolicy)
    requires ErrorOf(cause, policy).Some?
    ensures AroundOf(ErrorTransition(ErrorOf(cause, policy).value, policy).effects) == Due(cause, policy)
  {
    LadderAround(policy, true);
    ErrorAround(ErrorOf(cause, policy).value, policy);
  }

  lemma SubmitAround(outcome: Outcome, policy: SubmitPolicy)
    requires OnSubmit(outcome, policy).Apply?
    ensures AroundOf(OnSubmit(outcome, policy).t.effects) == Due(Submit(outcome), policy)
  {
    var t := OnSubmit(outcome, policy).t;
    match outcome.status
    case ReportedError => ErrorIsDue(Submit(outcome), policy);
    case Completed =>
      if outcome.document.Some? {
        DocumentAround(policy.workflowStep.value, outcome.document.value);
        assert t == OnDocument(policy.workflowStep.value, outcome.document.value);
      } else {
        ErrorIsDue(Submit(outcome), policy);
      }
    case ReportedBlocked => BlockAround(outcome, policy);
    case _ => assert t == NeutralTransition(outcome);
  }

  lemma BlockAround(outcome: Outcome, policy: SubmitPolicy)
    ensures AroundOf(BlockedTransition(outcome, policy).effects) ==
            NOTHING_AROUND.(hold := Some(TaskHold(true)), watch := Some(true),
                            pause := if policy.wasRetry then Some(RetryFailed) else WatchFailure(policy))
  {}

  lemma DocumentAround(step: WorkflowStepPolicy, document: string)
    ensures AroundOf(OnDocument(step, document).effects) ==
            NOTHING_AROUND.(artifact := if step.output.Some? && step.output.value != ""
                                        then Some((step.output.value, document)) else None)
  {}

  lemma RefusalAround(land: LandOutcome, policy: SubmitPolicy)
    requires land.kind in LAND_REFUSED
    ensures AroundOf(LandFailedTransition(land, policy).effects) == Due(LandDone(land), policy)
  {}

  lemma NoChangeAround(land: LandOutcome, policy: SubmitPolicy)
    requires land.kind.NoChanges?
    ensures AroundOf(NoChangeTransition(policy).effects) == Due(LandDone(land), policy)
  {
    LadderAround(policy, false);
  }

  lemma LandAround(land: LandOutcome, policy: SubmitPolicy)
    ensures AroundOf(TransitionFor(LandDone(land), policy).value.effects) == Due(LandDone(land), policy)
  {
    var t := TransitionFor(LandDone(land), policy).value;
    if land.kind in LAND_REFUSED {
      RefusalAround(land, policy);
      assert t == LandFailedTransition(land, policy);
    } else if land.kind.NoChanges? {
      NoChangeAround(land, policy);
      assert t == NoChangeTransition(policy);
    } else if policy.workflowStep.None? {
      assert t == LandedTransition(land, policy);
    } else {
      assert t == OnWorkflowLand(land, policy);
    }
  }

  /** For every report, exactly the effects that are due: a task is held for a
      resolve or released, the watch armed or disarmed, the queue paused and
      why, the brief consumed, a resolve started, the worker cooled down, the
      artifact written. */
  lemma EffectsAreDue(cause: Cause, policy: SubmitPolicy)
    requires TransitionFor(cause, policy).Some?
    ensures AroundOf(TransitionFor(cause, policy).value.effects) == Due(cause, policy)
  {
    match cause
    case Submit(outcome) => SubmitAround(outcome, policy);
    case LandDone(land) => LandAround(land, policy);
    case _ =>
  }

  /** What never happens together, in any branch: a held task is not released,
      consumed or moved along its workflow, and keeps its counter; a resolve is
      started only for a held task; a consumed brief leaves a released task with
      its counter reset and no flag; a task that backs off has counted, and is
      not held. */
  predicate AreCoherent(e: TaskEffects) {
    && (e.hold.Some? ==> !e.clearHold && !e.dropBrief && e.progress != Reset && e.engineMeta.None? && !e.workflowReset)
    && (e.startResolve ==> e.hold == Some(TaskHold(false)))
    && (e.dropBrief ==> e.clearHold && e.progress == Reset && e.frontmatter == [])
    && (e.nextEligibleIn.Some? ==> e.progress == Increment && e.hold.None?)
  }

  lemma ErrorIsCoherent(outcome: Outcome, policy: SubmitPolicy)
    ensures AreCoherent(ErrorTransition(outcome, policy).effects)
  {}

  lemma SubmitIsCoherent(outcome: Outcome, policy: SubmitPolicy)
    requires OnSubmit(outcome, policy).Apply?
    ensures AreCoherent(OnSubmit(outcome, policy).t.effects)
  {
    match outcome.status
    case ReportedError => ErrorIsCoherent(outcome, policy);
    case Completed =>
      if outcome.document.Some? {
        assert OnSubmit(outcome, policy).t == OnDocument(policy.workflowStep.value, outcome.document.value);
      } else {
        ErrorIsCoherent(NO_DOCUMENT, policy);
      }
    case ReportedBlocked => assert OnSubmit(outcome, policy).t == BlockedTransition(outcome, policy);
    case _ => assert OnSubmit(outcome, policy).t == NeutralTransition(outcome);
  }

  lemma LandIsCoherent(land: LandOutcome, policy: SubmitPolicy)
    ensures AreCoherent(TransitionFor(LandDone(land), policy).value.effects)
  {
    var t := TransitionFor(LandDone(land), policy).value;
    if land.kind in LAND_REFUSED {
      assert t == LandFailedTransition(land, policy);
    } else if land.kind.NoChanges? {
      assert t == NoChangeTransition(policy);
    } else if policy.workflowStep.None? {
      assert t == LandedTransition(land, policy);
    } else {
      assert t == OnWorkflowLand(land, policy);
    }
  }

  lemma EffectsAreCoherent(cause: Cause, policy: SubmitPolicy)
    requires TransitionFor(cause, policy).Some?
    ensures AreCoherent(TransitionFor(cause, policy).value.effects)
  {
    match cause
    case Submit(outcome) => SubmitIsCoherent(outcome, policy);
    case LandDone(land) => LandIsCoherent(land, policy);
    case _ =>
  }
}
