/** The pure transition table (`transitions.py`): what each report about an
    attempt does to the attempt, its task and the event log.

    Texts (result lines, reasons, payloads) and telemetry are not part of the
    model, except a document step's artifact and the cursor it moves.
*/
module Transitions {
  import opened Prelude
  import opened Git
  import opened Lifecycle
  import W = Workflows
  import V = Visits

  // ----- Inputs -------------------------------------------------------------

  datatype Outcome = Outcome(status: RunStatus, landable: bool, failureKind: Option<FailureKind>,
                             document: Option<string>, signal: Option<string>)

  /** The routing verdict for a workflow attempt, computed before the submit
      is decided. */
  datatype WorkflowStepPolicy = WorkflowStepPolicy(kind: W.StepKind, output: Option<string>, routeTo: string,
                                                   destVisitsExhausted: bool, evergreen: bool, visits: V.Counts)

  /** `attempts` is the persisted no-progress counter before this outcome. */
  datatype SubmitPolicy = SubmitPolicy(retry: RetryPolicy, attempts: nat, wasRetry: bool, watchArmed: bool,
                                       queuePaused: bool, split: bool, evergreen: bool, autoResolve: bool,
                                       prMode: bool, workflowStep: Option<WorkflowStepPolicy>)

  // ----- Outputs ------------------------------------------------------------

  datatype PauseReason = ConsecutiveFailures | RetryFailed

  /** A boolean written into the brief's frontmatter, always `true`. */
  datatype Flag = QuarantinedFlag | FailedFlag | CompletedFlag

  datatype TaskHold = TaskHold(retryEligible: bool)

  /** What a transition does to the no-progress counter. */
  datatype Progress = NoProgressOp | Increment | Reset

  datatype EngineMeta = EngineMeta(workflowStep: string, workflowVisits: string)

  datatype TaskEffects = TaskEffects(
    hold: Option<TaskHold> := None, clearHold: bool := false, progress: Progress := NoProgressOp,
    nextEligibleIn: Option<real> := None, workerCooldown: bool := false, frontmatter: seq<Flag> := [],
    watchArmed: Option<bool> := None, pauseQueue: Option<PauseReason> := None, dropBrief: bool := false,
    startResolve: bool := false, writeArtifact: Option<(string, string)> := None,
    engineMeta: Option<EngineMeta> := None, workflowReset: bool := false)

  datatype Event = QueuePaused(reason: PauseReason) | TaskQuarantined | TaskBlocked | TaskResult | QueueChanged

  /** The attempt columns a transition writes; None leaves the column alone. */
  datatype Fields = Fields(failureKind: Option<Option<FailureKind>> := None, commit: Option<Option<Commit>> := None,
                           phaseLanding: bool := false)

  datatype Response = Response(landed: bool, quarantined: bool := false)

  datatype Transition = Transition(state: AttemptState, fields: Fields, effects: TaskEffects, events: seq<Event>,
                                   response: Response)

  /** The git work a completed submit needs first. */
  datatype GitPhase = LandPhase | AdoptCheck | HarvestSplit

  datatype Decision = Apply(t: Transition) | NeedsGit(phase: GitPhase)

  // ----- Failures -----------------------------------------------------------

  /** A second failure while the watch is armed pauses a running queue. */
  function WatchFailure(policy: SubmitPolicy): Option<PauseReason> {
    if policy.watchArmed && !policy.queuePaused then Some(ConsecutiveFailures) else None
  }

  function PauseEvents(pause: Option<PauseReason>): seq<Event> {
    if pause.Some? then [QueuePaused(pause.value)] else []
  }

  datatype Rung = Rung(quarantined: bool, frontmatter: seq<Flag>, events: seq<Event>, pause: Option<PauseReason>,
                       watch: Option<bool>, backoff: Option<real>)

  /** `_failure_ladder`, shared by worker errors and runs without a change. */
  function FailureLadder(policy: SubmitPolicy, retryPauseAfterQuarantine: bool): Rung {
    var attempts := policy.attempts + 1;
    if policy.retry.immediateQuarantine then
      Rung(true, [QuarantinedFlag], [TaskQuarantined], None, None, None)
    else if policy.retry.quarantineAfter > 0 && attempts >= policy.retry.quarantineAfter then
      var pause := if retryPauseAfterQuarantine && policy.wasRetry then Some(RetryFailed) else None;
      Rung(true, [QuarantinedFlag], [TaskQuarantined] + PauseEvents(pause), pause, None, None)
    else if policy.wasRetry then
      Rung(false, [FailedFlag, QuarantinedFlag],
           PauseEvents(WatchFailure(policy)) + [TaskQuarantined, QueuePaused(RetryFailed)],
           Some(RetryFailed), Some(true), Some(policy.retry.backoff.Delay(attempts)))
    else
      Rung(false, [FailedFlag], PauseEvents(WatchFailure(policy)), WatchFailure(policy), Some(true),
           Some(policy.retry.backoff.Delay(attempts)))
  }

  function BlockedTransition(outcome: Outcome, policy: SubmitPolicy): Transition {
    var watch := WatchFailure(policy);
    Transition(
      Blocked,
      Fields(failureKind := Some(Some(if outcome.failureKind.Some? then outcome.failureKind.value else DeclaredBlock))),
      TaskEffects(hold := Some(TaskHold(true)),
                  frontmatter := if policy.wasRetry then [QuarantinedFlag] else [],
                  pauseQueue := if policy.wasRetry then Some(RetryFailed) else watch,
                  watchArmed := Some(true)),
      PauseEvents(watch) + (if policy.wasRetry then [TaskQuarantined, QueuePaused(RetryFailed)] else [])
      + [TaskBlocked, TaskResult],
      Response(false))
  }

  /** What an error without a kind counts as. */
  function KindOf(outcome: Outcome): FailureKind {
    if outcome.failureKind.Some? then outcome.failureKind.value else WorkerError
  }

  function ErrorTransition(outcome: Outcome, policy: SubmitPolicy): Transition {
    var fields := Fields(failureKind := Some(outcome.failureKind));
    match policy.retry.OnFailure(KindOf(outcome))
    case RetryElsewhere =>
      Transition(ErrorStateFor(outcome.failureKind), fields, TaskEffects(workerCooldown := true), [TaskResult],
                 Response(false))
    case HoldForResolve =>
      Transition(ErrorStateFor(Some(KindOf(outcome))), fields,
                 TaskEffects(hold := Some(TaskHold(false)), progress := Increment),
                 [TaskBlocked, TaskResult], Response(false))
    case Retry | Quarantine =>
      var rung := FailureLadder(policy, true);
      Transition(ErrorStateFor(Some(KindOf(outcome))), fields,
                 TaskEffects(progress := Increment, nextEligibleIn := rung.backoff, frontmatter := rung.frontmatter,
                             pauseQueue := rung.pause, watchArmed := rung.watch),
                 rung.events + [TaskResult], Response(false, rung.quarantined))
  }

  /** Operator-driven or indeterminate reports. */
  function NeutralTransition(outcome: Outcome): Transition {
    Transition(if outcome.status.ReportedSkip? then Skipped else Aborted,
               Fields(failureKind := Some(outcome.failureKind)), TaskEffects(), [TaskResult], Response(false))
  }

  // ----- Submits ------------------------------------------------------------

  /** `on_submit`. */
  function OnSubmit(outcome: Outcome, policy: SubmitPolicy): Decision {
    if policy.workflowStep.Some? then OnWorkflowStep(outcome, policy)
    else
      match outcome.status
      case ReportedBlocked => Apply(BlockedTransition(outcome, policy))
      case ReportedError => Apply(ErrorTransition(outcome, policy))
      case Completed =>
        NeedsGit(if policy.split && !outcome.landable then HarvestSplit
                 else if outcome.landable then LandPhase else AdoptCheck)
      case StillRunning | ReportedSkip | ReportedAbort => Apply(NeutralTransition(outcome))
  }

  /** `on_split_result`. */
  function OnSplitResult(): Transition {
    Transition(NoChange, Fields(), TaskEffects(clearHold := true, progress := Reset), [TaskResult, QueueChanged],
               Response(false))
  }

  function NoChangeTransition(policy: SubmitPolicy): Transition {
    var rung := FailureLadder(policy, false);
    Transition(NoChange, Fields(),
               TaskEffects(progress := Increment, nextEligibleIn := rung.backoff, frontmatter := rung.frontmatter,
                           pauseQueue := rung.pause, watchArmed := rung.watch),
               rung.events + [TaskResult, QueueChanged], Response(false, rung.quarantined))
  }

  function LandedTransition(land: LandOutcome, policy: SubmitPolicy): Transition {
    Transition(Landed, Fields(commit := Some(land.sha)),
               TaskEffects(clearHold := true, progress := Reset, watchArmed := Some(false),
                           dropBrief := !policy.evergreen), [TaskResult, QueueChanged], Response(true))
  }

  /** A refusal a resolve can repair, with the branch preserved. */
  predicate IsResolvable(land: LandOutcome) {
    land.kind.Conflict? || land.kind.PushRejected? || (land.kind.TransportFailed? && land.retryable)
  }

  function LandFailedTransition(land: LandOutcome, policy: SubmitPolicy): Transition
    requires land.kind in LAND_REFUSED
  {
    var kind := LandFailureKind(land.kind);
    if IsResolvable(land) then
      var pause := WatchFailure(policy);
      Transition(ErrorStateFor(kind), Fields(failureKind := Some(kind)),
                 TaskEffects(hold := Some(TaskHold(false)), pauseQueue := pause, watchArmed := Some(true),
                             startResolve := policy.autoResolve && !policy.prMode),
                 PauseEvents(pause) + [TaskBlocked, TaskResult], Response(false))
    else
      Transition(ErrorStateFor(kind), Fields(failureKind := Some(kind)), TaskEffects(), [TaskResult], Response(false))
  }

  /** `on_land_result`. */
  function OnLandResult(land: LandOutcome, policy: SubmitPolicy): Transition {
    match land.kind
    case NoChanges => NoChangeTransition(policy)
    case LandedKind | CheckoutBehind | Adopted => LandedTransition(land, policy)
    case Conflict | PushRejected | TransportFailed => LandFailedTransition(land, policy)
  }

  // ----- Recovery, stops and deadlines --------------------------------------

  const LAND_INTERRUPTED :=
    Transition(Conflicted, Fields(failureKind := Some(Some(MergeRejected))), TaskEffects(hold := Some(TaskHold(false))),
               [TaskBlocked, TaskResult], Response(false))

  function OnLandRecovered(sha: Commit): Transition {
    Transition(Landed, Fields(commit := Some(Some(sha))),
               TaskEffects(clearHold := true, progress := Reset, watchArmed := Some(false)),
               [TaskResult, QueueChanged], Response(false))
  }

  const LAND_ENQUEUED := Transition(MidLand, Fields(phaseLanding := true), TaskEffects(), [], Response(false))

  const OPERATOR_STOP := Transition(Aborted, Fields(), TaskEffects(), [], Response(false))

  const DEADLINE := Transition(Expired, Fields(), TaskEffects(), [], Response(false))

  // ----- Workflow steps -----------------------------------------------------

  /** Move the cursor onto the destination and count that entry. */
  function AdvanceVisits(step: WorkflowStepPolicy): EngineMeta {
    EngineMeta(step.routeTo, V.FormatVisits(V.Put(step.visits, step.routeTo, V.Count(step.visits, step.routeTo) + 1)))
  }

  const NO_DOCUMENT := Outcome(ReportedError, false, Some(WorkerError), None, None)

  /** A document step that produced its document. */
  function OnDocument(step: WorkflowStepPolicy, document: string): Transition {
    var artifact := if step.output.Some? && step.output.value != "" then Some((step.output.value, document)) else None;
    if step.routeTo == W.END then
      Transition(NoChange, Fields(),
                 if step.evergreen then TaskEffects(progress := Reset, writeArtifact := artifact, workflowReset := true)
                 else TaskEffects(progress := Reset, writeArtifact := artifact, frontmatter := [CompletedFlag]),
                 [TaskResult, QueueChanged], Response(false))
    else if step.destVisitsExhausted then
      Transition(NoChange, Fields(), TaskEffects(frontmatter := [QuarantinedFlag], writeArtifact := artifact),
                 [TaskQuarantined, TaskResult], Response(false, true))
    else
      Transition(NoChange, Fields(),
                 TaskEffects(progress := Reset, writeArtifact := artifact, engineMeta := Some(AdvanceVisits(step))),
                 [TaskResult, QueueChanged], Response(false))
  }

  /** `on_workflow_step`. */
  function OnWorkflowStep(outcome: Outcome, policy: SubmitPolicy): Decision
    requires policy.workflowStep.Some?
  {
    match outcome.status
    case ReportedBlocked => Apply(BlockedTransition(outcome, policy))
    case ReportedError => Apply(ErrorTransition(outcome, policy))
    case StillRunning | ReportedSkip | ReportedAbort => Apply(NeutralTransition(outcome))
    case Completed =>
      match policy.workflowStep.value.kind
      case Doc =>
        Apply(if outcome.document.None? then ErrorTransition(NO_DOCUMENT, policy)
              else OnDocument(policy.workflowStep.value, outcome.document.value))
      case Code => NeedsGit(if outcome.landable then LandPhase else AdoptCheck)
      case Split => NeedsGit(HarvestSplit)
  }

  /** `on_workflow_land`. */
  function OnWorkflowLand(land: LandOutcome, policy: SubmitPolicy): Transition
    requires policy.workflowStep.Some?
  {
    match land.kind
    case NoChanges => NoChangeTransition(policy)
    case Conflict | PushRejected | TransportFailed => LandFailedTransition(land, policy)
    case LandedKind | CheckoutBehind | Adopted =>
      var step := policy.workflowStep.value;
      var landed := TaskEffects(clearHold := true, progress := Reset, watchArmed := Some(false));
      var events := [TaskResult, QueueChanged];
      if step.routeTo == W.END then
        Transition(Landed, Fields(commit := Some(land.sha)),
                   landed.(dropBrief := !step.evergreen, workflowReset := step.evergreen), events, Response(true))
      else if step.destVisitsExhausted then
        Transition(Landed, Fields(commit := Some(land.sha)), landed.(frontmatter := [QuarantinedFlag]),
                   events + [TaskQuarantined], Response(true))
      else
        Transition(Landed, Fields(commit := Some(land.sha)), landed.(engineMeta := Some(AdvanceVisits(step))), events,
                   Response(true))
  }

  /** `on_workflow_split`. */
  function OnWorkflowSplit(created: bool, policy: SubmitPolicy): Transition
    requires policy.workflowStep.Some?
  {
    Transition(NoChange, Fields(),
               if created then
                 TaskEffects(clearHold := true, progress := Reset, workflowReset := policy.workflowStep.value.evergreen)
               else TaskEffects(progress := Increment),
               [TaskResult, QueueChanged], Response(false))
  }
}
