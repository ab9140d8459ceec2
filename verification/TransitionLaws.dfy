/** What the transition table guarantees, whatever is reported: the events
    tell the effects, only a success lands, failures never move a workflow's
    cursor; and over whole traces, when a task that makes no progress is
    quarantined.
*/
module TransitionLaws {
  import opened Prelude
  import opened Git
  import opened Lifecycle
  import opened Transitions
  import W = Workflows
  import V = Visits
  import RefLog
  import Landing

  /** Everything that can happen to an attempt. A land or a split reports
      after the submit that asked for it. */
  datatype Cause =
    | Submit(outcome: Outcome)
    | SplitDone(created: bool)
    | LandDone(land: LandOutcome)
    | Enqueue
    | Interrupt
    | Recover(sha: Commit)
    | Stop
    | Expire

  /** None for a submit that needs git work first. */
  function TransitionFor(cause: Cause, policy: SubmitPolicy): Option<Transition> {
    match cause
    case Submit(outcome) =>
      var decision := OnSubmit(outcome, policy);
      if decision.Apply? then Some(decision.t) else None
    case SplitDone(created) => Some(if policy.workflowStep.Some? then OnWorkflowSplit(created, policy)
                                    else OnSplitResult())
    case LandDone(land) => Some(if policy.workflowStep.Some? then OnWorkflowLand(land, policy)
                                else OnLandResult(land, policy))
    case Enqueue => Some(LAND_ENQUEUED)
    case Interrupt => Some(LAND_INTERRUPTED)
    case Recover(sha) => Some(OnLandRecovered(sha))
    case Stop => Some(OPERATOR_STOP)
    case Expire => Some(DEADLINE)
  }

  // ----- What the submit table sends where ----------------------------------

  /** A completed submit needs git work, except a document step's; nothing
      else does. */
  lemma SubmitsAreDecidedExactly(outcome: Outcome, policy: SubmitPolicy)
    ensures TransitionFor(Submit(outcome), policy).None? <==>
            outcome.status.Completed? && (policy.workflowStep.Some? ==> !policy.workflowStep.value.kind.Doc?)
    ensures OnSubmit(outcome, policy) == NeedsGit(LandPhase) ==> outcome.landable
    ensures OnSubmit(outcome, policy) == NeedsGit(AdoptCheck) ==> !outcome.landable
    ensures OnSubmit(outcome, policy) == NeedsGit(HarvestSplit) <==>
            outcome.status.Completed?
            && if policy.workflowStep.Some? then policy.workflowStep.value.kind.Split?
               else policy.split && !outcome.landable
  {}

  // ----- The event log ------------------------------------------------------

  /** What a reader of the event log knows about a task: whether it was
      quarantined, whether it is held, and why its queue was last paused. */
  datatype Known = Known(quarantined: bool, held: bool, pause: Option<PauseReason>)

  const NOTHING := Known(false, false, None)

  function Hear(k: Known, e: Event): Known {
    match e
    case TaskQuarantined => k.(quarantined := true)
    case TaskBlocked => k.(held := true)
    case QueuePaused(reason) => k.(pause := Some(reason))
    case TaskResult | QueueChanged => k
  }

  function Listen(k: Known, events: seq<Event>): Known
    decreases |events|
  {
    if events == [] then k else Listen(Hear(k, events[0]), events[1..])
  }

  lemma {:induction false} ListenOn(k: Known, a: seq<Event>, b: seq<Event>)
    ensures Listen(k, a + b) == Listen(Listen(k, a), b)
    decreases |a|
  {
    if a == [] {
      assert a + b == b;
    } else {
      assert (a + b)[1..] == a[1..] + b;
      ListenOn(Hear(k, a[0]), a[1..], b);
    }
  }

  lemma HearOne(k: Known, e: Event)
    ensures Listen(k, [e]) == Hear(k, e)
  {}

  lemma HearTwo(k: Known, e: Event, f: Event)
    ensures Listen(k, [e, f]) == Hear(Hear(k, e), f)
  {
    assert [e, f][1..] == [f];
    HearOne(Hear(k, e), f);
  }

  lemma HearPause(k: Known, pause: Option<PauseReason>)
    ensures Listen(k, PauseEvents(pause)) == if pause.Some? then k.(pause := pause) else k
  {
    if pause.Some? {
      HearOne(k, QueuePaused(pause.value));
    }
  }

  /** The log tells exactly what the effects do. */
  function KnownOf(e: TaskEffects): Known {
    Known(QuarantinedFlag in e.frontmatter, e.hold.Some?, e.pauseQueue)
  }

  lemma LadderIsHeard(policy: SubmitPolicy, retryPause: bool)
    ensures var rung := FailureLadder(policy, retryPause);
            Listen(NOTHING, rung.events) == Known(QuarantinedFlag in rung.frontmatter, false, rung.pause)
  {
    var rung, watch := FailureLadder(policy, retryPause), WatchFailure(policy);
    var retried := if retryPause && policy.wasRetry then Some(RetryFailed) else None;
    HearOne(NOTHING, TaskQuarantined);
    HearPause(NOTHING, watch);
    HearPause(Known(true, false, None), retried);
    ListenOn(NOTHING, [TaskQuarantined], PauseEvents(retried));
    ListenOn(NOTHING, PauseEvents(watch), [TaskQuarantined, QueuePaused(RetryFailed)]);
    HearTwo(Known(false, false, watch), TaskQuarantined, QueuePaused(RetryFailed));
  }

  lemma BlockIsHeard(outcome: Outcome, policy: SubmitPolicy)
    ensures var t := BlockedTransition(outcome, policy); Listen(NOTHING, t.events) == KnownOf(t.effects)
  {
    var watch := WatchFailure(policy);
    var retried := if policy.wasRetry then [TaskQuarantined, QueuePaused(RetryFailed)] else [];
    HearPause(NOTHING, watch);
    ListenOn(NOTHING, PauseEvents(watch), retried);
    HearTwo(Known(false, false, watch), TaskQuarantined, QueuePaused(RetryFailed));
    ListenOn(NOTHING, PauseEvents(watch) + retried, [TaskBlocked, TaskResult]);
    HearTwo(Listen(NOTHING, PauseEvents(watch) + retried), TaskBlocked, TaskResult);
  }

  lemma RefusalIsHeard(land: LandOutcome, policy: SubmitPolicy)
    requires land.kind in LAND_REFUSED
    ensures var t := LandFailedTransition(land, policy); Listen(NOTHING, t.events) == KnownOf(t.effects)
  {
    var pause := WatchFailure(policy);
    HearPause(NOTHING, pause);
    ListenOn(NOTHING, PauseEvents(pause), [TaskBlocked, TaskResult]);
    HearTwo(Known(false, false, pause), TaskBlocked, TaskResult);
    HearOne(NOTHING, TaskResult);
  }

  predicate IsHeard(t: Transition) {
    Listen(NOTHING, t.events) == KnownOf(t.effects)
  }

  lemma ErrorIsHeard(outcome: Outcome, policy: SubmitPolicy)
    ensures IsHeard(ErrorTransition(outcome, policy))
  {
    HearOne(NOTHING, TaskResult);
    HearTwo(NOTHING, TaskBlocked, TaskResult);
    LadderIsHeard(policy, true);
    ListenOn(NOTHING, FailureLadder(policy, true).events, [TaskResult]);
    HearOne(Listen(NOTHING, FailureLadder(policy, true).events), TaskResult);
  }

  lemma NoChangeIsHeard(policy: SubmitPolicy)
    ensures IsHeard(NoChangeTransition(policy))
  {
    LadderIsHeard(policy, false);
    ListenOn(NOTHING, FailureLadder(policy, false).events, [TaskResult, QueueChanged]);
    HearTwo(Listen(NOTHING, FailureLadder(policy, false).events), TaskResult, QueueChanged);
  }

  lemma LandIsHeard(land: LandOutcome, policy: SubmitPolicy)
    ensures IsHeard(OnLandResult(land, policy))
    ensures policy.workflowStep.Some? ==> IsHeard(OnWorkflowLand(land, policy))
  {
    if land.kind in LAND_REFUSED {
      RefusalIsHeard(land, policy);
    } else if land.kind.NoChanges? {
      NoChangeIsHeard(policy);
    } else {
      HearTwo(NOTHING, TaskResult, QueueChanged);
      ListenOn(NOTHING, [TaskResult, QueueChanged], [TaskQuarantined]);
      HearOne(NOTHING, TaskQuarantined);
    }
  }

  lemma SubmitIsHeard(outcome: Outcome, policy: SubmitPolicy)
    ensures OnSubmit(outcome, policy).Apply? ==> IsHeard(OnSubmit(outcome, policy).t)
  {
    match outcome.status
    case ReportedBlocked => BlockIsHeard(outcome, policy);
    case ReportedError => ErrorIsHeard(outcome, policy);
    case Completed =>
      ErrorIsHeard(NO_DOCUMENT, policy);
      HearTwo(NOTHING, TaskResult, QueueChanged);
      HearTwo(NOTHING, TaskQuarantined, TaskResult);
    case _ => HearOne(NOTHING, TaskResult);
  }

  /** The events a transition appends tell its task effects exactly: a reader
      of the log never misses a quarantine, a hold or a queue pause. */
  lemma EventsTellTheEffects(cause: Cause, policy: SubmitPolicy)
    requires TransitionFor(cause, policy).Some?
    ensures var t := TransitionFor(cause, policy).value; Listen(NOTHING, t.events) == KnownOf(t.effects)
  {
    HearTwo(NOTHING, TaskResult, QueueChanged);
    HearTwo(NOTHING, TaskBlocked, TaskResult);
    match cause
    case Submit(outcome) => SubmitIsHeard(outcome, policy);
    case LandDone(land) => LandIsHeard(land, policy);
    case _ =>
  }

  // ----- Which state, which fields ------------------------------------------

  /** Only an enqueued land leaves the attempt live, and it has no effects:
      everything else ends the attempt. */
  lemma OnlyAnEnqueueStaysLive(cause: Cause, policy: SubmitPolicy)
    requires TransitionFor(cause, policy).Some?
    ensures var t := TransitionFor(cause, policy).value;
            && (if cause.Enqueue? then t.state == MidLand && t.effects == TaskEffects() && t.events == []
                else t.state in TERMINAL)
            && (t.state == Expired <==> cause.Expire?)
            && (t.fields.phaseLanding <==> t.state == MidLand)
  {
    match cause
    case Submit(outcome) => SubmitEndsIt(outcome, policy);
    case LandDone(land) => LandEndsIt(land, policy);
    case _ =>
  }

  /** A transition of a submit or a split: terminal, and no land. */
  predicate IsPlainEnd(t: Transition) {
    && t.state in TERMINAL && t.state != Expired && t.state != Landed
    && t.fields.commit.None? && !t.fields.phaseLanding && !t.effects.dropBrief
  }

  lemma ErrorEndsIt(outcome: Outcome, policy: SubmitPolicy)
    ensures IsPlainEnd(ErrorTransition(outcome, policy))
  {}

  lemma SubmitEndsIt(outcome: Outcome, policy: SubmitPolicy)
    requires OnSubmit(outcome, policy).Apply?
    ensures IsPlainEnd(OnSubmit(outcome, policy).t)
  {
    ErrorEndsIt(outcome, policy);
    ErrorEndsIt(NO_DOCUMENT, policy);
    match outcome.status
    case ReportedBlocked => assert IsPlainEnd(BlockedTransition(outcome, policy));
    case ReportedError =>
    case Completed =>
      if outcome.document.Some? {
        assert IsPlainEnd(OnDocument(policy.workflowStep.value, outcome.document.value));
      }
    case _ => assert IsPlainEnd(NeutralTransition(outcome));
  }

  lemma LandEndsIt(land: LandOutcome, policy: SubmitPolicy)
    ensures var t := TransitionFor(LandDone(land), policy).value;
            if land.kind in LAND_SUCCESS then
              && t.state == Landed && t.fields.commit == Some(land.sha) && !t.fields.phaseLanding
              && t.effects.clearHold && t.effects.progress == Reset && t.effects.hold.None?
            else IsPlainEnd(t)
  {
    if land.kind in LAND_REFUSED {
      assert IsPlainEnd(LandFailedTransition(land, policy));
    } else if land.kind.NoChanges? {
      assert IsPlainEnd(NoChangeTransition(policy));
    } else if policy.workflowStep.None? {
      assert OnLandResult(land, policy) == LandedTransition(land, policy);
    } else {
      assert OnWorkflowLand(land, policy).state == Landed;
    }
  }

  /** An attempt is recorded as landed exactly when a land succeeded (now or
      as found by recovery), and it then records that land's commit. */
  lemma LandedExactly(cause: Cause, policy: SubmitPolicy)
    requires TransitionFor(cause, policy).Some?
    ensures var t := TransitionFor(cause, policy).value;
            && (t.state == Landed <==> cause.Recover? || (cause.LandDone? && cause.land.kind in LAND_SUCCESS))
            && (t.fields.commit.Some? <==> t.state == Landed)
            && (t.state == Landed ==>
                  t.fields.commit == Some(if cause.Recover? then Some(cause.sha) else cause.land.sha)
                  && t.effects.clearHold && t.effects.progress == Reset && t.effects.hold.None?)
            && (t.effects.dropBrief ==> t.state == Landed)
  {
    match cause
    case Submit(outcome) => SubmitEndsIt(outcome, policy);
    case LandDone(land) => LandEndsIt(land, policy);
    case _ =>
  }

  /** An error row whose state is what its failure kind says. */
  predicate IsSplitByKind(t: Transition) {
    t.state in {Failed, Conflicted} ==>
      t.fields.failureKind.Some? && t.state == ErrorStateFor(t.fields.failureKind.value)
  }

  lemma ErrorIsSplitByKind(outcome: Outcome, policy: SubmitPolicy)
    ensures IsSplitByKind(ErrorTransition(outcome, policy))
  {}

  lemma SubmitIsSplitByKind(outcome: Outcome, policy: SubmitPolicy)
    requires OnSubmit(outcome, policy).Apply?
    ensures IsSplitByKind(OnSubmit(outcome, policy).t)
  {
    ErrorIsSplitByKind(outcome, policy);
    ErrorIsSplitByKind(NO_DOCUMENT, policy);
    match outcome.status
    case ReportedBlocked => assert BlockedTransition(outcome, policy).state == Blocked;
    case ReportedError =>
    case Completed =>
    case _ => assert NeutralTransition(outcome).state in {Skipped, Aborted};
  }

  lemma LandIsSplitByKind(land: LandOutcome, policy: SubmitPolicy)
    ensures IsSplitByKind(OnLandResult(land, policy))
    ensures policy.workflowStep.Some? ==> IsSplitByKind(OnWorkflowLand(land, policy))
  {
    if land.kind in LAND_REFUSED {
      assert LandFailedTransition(land, policy).fields.failureKind == Some(LandFailureKind(land.kind));
    } else if land.kind.NoChanges? {
      assert NoChangeTransition(policy).state == NoChange;
    } else {
      assert OnLandResult(land, policy).state == Landed;
    }
  }

  /** Error rows are split by their failure kind: conflicts are exactly the
      ones of a merge kind. */
  lemma ErrorsAreSplitByKind(cause: Cause, policy: SubmitPolicy)
    requires TransitionFor(cause, policy).Some?
    ensures IsSplitByKind(TransitionFor(cause, policy).value)
  {
    match cause
    case Submit(outcome) => SubmitIsSplitByKind(outcome, policy);
    case LandDone(land) => LandIsSplitByKind(land, policy);
    case _ =>
  }

  /** The git side and the table agree: a land's attempt is stored as landed
      exactly when the land published its commit, and a land that moved no
      ref although it had something to land is stored as a conflict. */
  lemma LandsAreRecordedTruthfully(mode: LandingMode, land: LandOutcome, base: Option<Commit>, moves: seq<RefLog.Event>,
                                   policy: SubmitPolicy)
    requires Landing.IsLandTrace(mode, land, base, moves)
    requires land.kind in {LandedKind, CheckoutBehind, Conflict, PushRejected}
    ensures var t := TransitionFor(LandDone(land), policy).value;
            && (t.state == Landed ==> t.fields.commit == Some(land.sha) && (land.sha != base ==> moves != []))
            && (t.state != Landed ==> t.state == Conflicted && moves == [] && t.effects.hold.Some?)
  {}

  // ----- The workflow cursor ------------------------------------------------

  /** The work of a step was accepted: a document produced, or a land that
      succeeded. */
  predicate IsStepDone(cause: Cause, step: WorkflowStepPolicy) {
    || (cause.Submit? && cause.outcome.status.Completed? && step.kind.Doc? && cause.outcome.document.Some?)
    || (cause.LandDone? && cause.land.kind in LAND_SUCCESS)
  }

  /** The cursor moves exactly when a step's work was accepted and it routes
      to a step with budget left. Where the budget is spent the task is
      quarantined instead. At the end the workflow is over: an evergreen task
      is reset, any other is completed or consumed. */
  lemma CursorMovesExactly(cause: Cause, policy: SubmitPolicy)
    requires TransitionFor(cause, policy).Some? && policy.workflowStep.Some?
    ensures IsCursorRight(cause, policy.workflowStep.value, TransitionFor(cause, policy).value.effects)
  {
    match cause
    case Submit(outcome) => SubmitMovesCursor(outcome, policy);
    case LandDone(land) => LandMovesCursor(land, policy);
    case _ =>
  }

  predicate IsCursorRight(cause: Cause, step: WorkflowStepPolicy, e: TaskEffects) {
    var done, over := IsStepDone(cause, step), step.routeTo == W.END;
    && (e.engineMeta.Some? <==> done && !over && !step.destVisitsExhausted)
    && (e.engineMeta.Some? ==> e.engineMeta.value == AdvanceVisits(step))
    && (done && !over && step.destVisitsExhausted ==> e.frontmatter == [QuarantinedFlag])
    && (done && over ==>
          QuarantinedFlag !in e.frontmatter && e.workflowReset == step.evergreen
          && (e.dropBrief || CompletedFlag in e.frontmatter) == !step.evergreen)
  }

  lemma SubmitMovesCursor(outcome: Outcome, policy: SubmitPolicy)
    requires policy.workflowStep.Some? && OnSubmit(outcome, policy).Apply?
    ensures IsCursorRight(Submit(outcome), policy.workflowStep.value, OnSubmit(outcome, policy).t.effects)
  {
    assert ErrorTransition(outcome, policy).effects.engineMeta.None?;
    assert ErrorTransition(NO_DOCUMENT, policy).effects.engineMeta.None?;
    assert BlockedTransition(outcome, policy).effects.engineMeta.None?;
    match outcome.status
    case Completed =>
      if outcome.document.Some? {
        assert OnSubmit(outcome, policy).t == OnDocument(policy.workflowStep.value, outcome.document.value);
      }
    case _ =>
  }

  lemma LandMovesCursor(land: LandOutcome, policy: SubmitPolicy)
    requires policy.workflowStep.Some?
    ensures IsCursorRight(LandDone(land), policy.workflowStep.value, OnWorkflowLand(land, policy).effects)
  {
    if land.kind in LAND_REFUSED {
      assert LandFailedTransition(land, policy).effects.engineMeta.None?;
    } else if land.kind.NoChanges? {
      assert NoChangeTransition(policy).effects.engineMeta.None?;
    }
  }
}
