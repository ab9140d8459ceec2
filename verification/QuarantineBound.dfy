/** When a task that makes no progress is quarantined: which reports count,
    which of them quarantine, and the bound over whole traces of one task.
*/
module QuarantineBound {
  import opened Prelude
  import opened Lifecycle
  import opened Transitions
  import opened TransitionLaws
  import W = Workflows

  // ----- Which reports count ------------------------------------------------

  /** An error as the table sees it: reported, or a document step without its
      document. */
  function ErrorOf(cause: Cause, policy: SubmitPolicy): Option<Outcome> {
    if !cause.Submit? then None
    else if cause.outcome.status.ReportedError? then Some(cause.outcome)
    else if cause.outcome.status.Completed? && policy.workflowStep.Some? && policy.workflowStep.value.kind.Doc?
            && cause.outcome.document.None? then Some(NO_DOCUMENT)
    else None
  }

  /** A worker error, or a completed run without a change. */
  predicate IsNoProgress(cause: Cause, policy: SubmitPolicy) {
    var error := ErrorOf(cause, policy);
    if error.Some? then KindOf(error.value) == WorkerError
    else cause.LandDone? && cause.land.kind.NoChanges?
  }

  /** An error that holds the task for a resolve. */
  predicate IsHeldError(cause: Cause, policy: SubmitPolicy) {
    var error := ErrorOf(cause, policy);
    error.Some? && KindOf(error.value) in {ValidationError, DeclaredBlock, MergeConflict, MergeRejected}
  }

  predicate IsEmptySplit(cause: Cause, policy: SubmitPolicy) {
    cause.SplitDone? && policy.workflowStep.Some? && !cause.created
  }

  predicate IsBudgetSpent(cause: Cause, policy: SubmitPolicy) {
    policy.workflowStep.Some?
    && var step := policy.workflowStep.value;
       IsStepDone(cause, step) && step.routeTo != W.END && step.destVisitsExhausted
  }

  /** The two guards that quarantine at once: the worker's mode, and the
      counter having reached the threshold with this report. */
  predicate IsAtLimit(policy: SubmitPolicy) {
    policy.retry.immediateQuarantine
    || (policy.retry.quarantineAfter > 0 && policy.attempts + 1 >= policy.retry.quarantineAfter)
  }

  /** Whether a transition counts, quarantines, tells the worker so, and how
      long it backs off. */
  ghost predicate Counts(t: Transition, counted: bool, quarantines: bool, told: bool, backoff: Option<real>) {
    && (t.effects.progress == Increment <==> counted)
    && (QuarantinedFlag in t.effects.frontmatter <==> quarantines)
    && t.response.quarantined == told
    && t.effects.nextEligibleIn == backoff
  }

  function BackoffOf(policy: SubmitPolicy): Option<real> {
    if IsAtLimit(policy) then None else Some(policy.retry.backoff.Delay(policy.attempts + 1))
  }

  ghost predicate IsCounted(cause: Cause, policy: SubmitPolicy, t: Transition) {
    Counts(t,
      IsNoProgress(cause, policy) || IsHeldError(cause, policy) || IsEmptySplit(cause, policy),
      || (IsNoProgress(cause, policy) && (IsAtLimit(policy) || policy.wasRetry))
      || (cause.Submit? && cause.outcome.status.ReportedBlocked? && policy.wasRetry)
      || IsBudgetSpent(cause, policy),
      (IsNoProgress(cause, policy) && IsAtLimit(policy)) || (cause.Submit? && IsBudgetSpent(cause, policy)),
      if IsNoProgress(cause, policy) then BackoffOf(policy) else None)
  }

  lemma LadderQuarantines(policy: SubmitPolicy, retryPause: bool)
    ensures var rung := FailureLadder(policy, retryPause);
            && (QuarantinedFlag in rung.frontmatter <==> IsAtLimit(policy) || policy.wasRetry)
            && (rung.quarantined <==> IsAtLimit(policy))
            && rung.backoff == BackoffOf(policy)
  {}

  lemma ErrorCounts(outcome: Outcome, policy: SubmitPolicy)
    ensures var worker := KindOf(outcome) == WorkerError;
            Counts(ErrorTransition(outcome, policy),
                   worker || KindOf(outcome) in {ValidationError, DeclaredBlock, MergeConflict, MergeRejected},
                   worker && (IsAtLimit(policy) || policy.wasRetry), worker && IsAtLimit(policy),
                   if worker then BackoffOf(policy) else None)
  {
    LadderQuarantines(policy, true);
  }

  lemma NoChangeCounts(policy: SubmitPolicy)
    ensures Counts(NoChangeTransition(policy), true, IsAtLimit(policy) || policy.wasRetry, IsAtLimit(policy),
                   BackoffOf(policy))
  {
    LadderQuarantines(policy, false);
  }

  lemma OthersDoNotCount(outcome: Outcome, policy: SubmitPolicy, land: LandOutcome)
    ensures Counts(BlockedTransition(outcome, policy), false, policy.wasRetry, false, None)
    ensures Counts(NeutralTransition(outcome), false, false, false, None)
    ensures Counts(LandedTransition(land, policy), false, false, false, None)
    ensures land.kind in LAND_REFUSED ==> Counts(LandFailedTransition(land, policy), false, false, false, None)
  {}

  lemma DocumentCounts(step: WorkflowStepPolicy, document: string)
    ensures var spent := step.routeTo != W.END && step.destVisitsExhausted;
            Counts(OnDocument(step, document), false, spent, spent, None)
  {}

  lemma WorkflowLandCounts(land: LandOutcome, policy: SubmitPolicy)
    requires policy.workflowStep.Some? && land.kind in LAND_SUCCESS
    ensures var step := policy.workflowStep.value;
            Counts(OnWorkflowLand(land, policy), false, step.routeTo != W.END && step.destVisitsExhausted, false, None)
  {}

  lemma SubmitCounts(outcome: Outcome, policy: SubmitPolicy)
    requires OnSubmit(outcome, policy).Apply?
    ensures IsCounted(Submit(outcome), policy, OnSubmit(outcome, policy).t)
  {
    match outcome.status
    case ReportedError =>
      ErrorCounts(outcome, policy);
    case Completed =>
      if outcome.document.Some? {
        DocumentCounts(policy.workflowStep.value, outcome.document.value);
      } else {
        ErrorCounts(NO_DOCUMENT, policy);
      }
    case _ =>
      OthersDoNotCount(outcome, policy, LandOutcome(NoChanges, None, [], None));
  }

  lemma LandCounts(land: LandOutcome, policy: SubmitPolicy)
    ensures IsCounted(LandDone(land), policy, TransitionFor(LandDone(land), policy).value)
  {
    var t := TransitionFor(LandDone(land), policy).value;
    if land.kind.NoChanges? {
      NoChangeCounts(policy);
      assert t == NoChangeTransition(policy);
    } else if land.kind in LAND_REFUSED {
      OthersDoNotCount(NO_DOCUMENT, policy, land);
      assert t == LandFailedTransition(land, policy);
    } else if policy.workflowStep.Some? {
      WorkflowLandCounts(land, policy);
      assert t == OnWorkflowLand(land, policy);
    } else {
      OthersDoNotCount(NO_DOCUMENT, policy, land);
      assert t == LandedTransition(land, policy);
    }
  }

  /** What counts, what quarantines, what the worker is told and what backs
      off, exactly. Held errors and empty splits count without quarantining;
      a retry that fails again quarantines without the worker being told. */
  lemma CountedExactly(cause: Cause, policy: SubmitPolicy)
    requires TransitionFor(cause, policy).Some?
    ensures IsCounted(cause, policy, TransitionFor(cause, policy).value)
  {
    match cause
    case Submit(outcome) => SubmitCounts(outcome, policy);
    case LandDone(land) => LandCounts(land, policy);
    case _ =>
  }

  // ----- Whole traces -------------------------------------------------------

  function Progressed(attempts: nat, progress: Progress): nat {
    match progress
    case Increment => attempts + 1
    case Reset => 0
    case NoProgressOp => attempts
  }

  /** One report about the task, decided under `policy`. */
  datatype Report = Report(cause: Cause, policy: SubmitPolicy)

  function Effects(r: Report): TaskEffects
    requires TransitionFor(r.cause, r.policy).Some?
  {
    TransitionFor(r.cause, r.policy).value.effects
  }

  /** A task's reports under threshold `q`, each decided on the counter as the
      earlier ones left it. */
  ghost predicate IsTaskTrace(q: int, reports: seq<Report>, counters: seq<nat>) {
    && |counters| == |reports| + 1
    && forall i :: 0 <= i < |reports| ==>
         && TransitionFor(reports[i].cause, reports[i].policy).Some?
         && reports[i].policy.retry.quarantineAfter == q
         && reports[i].policy.attempts == counters[i]
         && counters[i + 1] == Progressed(counters[i], Effects(reports[i]).progress)
  }

  /** How many of the first `n` reports since the last one that `resets` satisfy
      `p`. */
  function CountSince(reports: seq<Report>, n: nat, resets: Report -> bool, p: Report -> bool): nat
    requires n <= |reports|
  {
    if n == 0 || resets(reports[n - 1]) then 0
    else CountSince(reports, n - 1, resets, p) + if p(reports[n - 1]) then 1 else 0
  }

  const RESETS := (r: Report) => TransitionFor(r.cause, r.policy).Some? && Effects(r).progress == Reset

  /** How many of the first `n` reports since the last reset of the counter
      satisfy `p`. */
  function SinceReset(reports: seq<Report>, n: nat, p: Report -> bool): nat
    requires n <= |reports|
  {
    CountSince(reports, n, RESETS, p)
  }

  const NO_PROGRESS := (r: Report) => IsNoProgress(r.cause, r.policy)
  const COUNTED := (r: Report) =>
    IsNoProgress(r.cause, r.policy) || IsHeldError(r.cause, r.policy) || IsEmptySplit(r.cause, r.policy)

  /** The counter counts the counted reports since the last reset, on top of
      what it started with. */
  lemma {:induction false} CounterCountsSinceReset(q: int, reports: seq<Report>, counters: seq<nat>, n: nat)
    requires IsTaskTrace(q, reports, counters) && n <= |reports| && counters[0] == 0
    ensures counters[n] == SinceReset(reports, n, COUNTED)
  {
    if n == 0 {
    } else {
      CounterCountsSinceReset(q, reports, counters, n - 1);
      CountedExactly(reports[n - 1].cause, reports[n - 1].policy);
    }
  }

  lemma {:induction false} FewerSince(reports: seq<Report>, n: nat, resets: Report -> bool, p: Report -> bool,
                                      p': Report -> bool)
    requires n <= |reports| && forall r :: p(r) ==> p'(r)
    ensures CountSince(reports, n, resets, p) <= CountSince(reports, n, resets, p')
  {
    if n == 0 || resets(reports[n - 1]) {
    } else {
      FewerSince(reports, n - 1, resets, p, p');
    }
  }

  lemma NoProgressIsCounted(q: int, reports: seq<Report>, counters: seq<nat>, n: nat)
    requires IsTaskTrace(q, reports, counters) && n <= |reports| && counters[0] == 0
    ensures SinceReset(reports, n, NO_PROGRESS) <= counters[n]
  {
    CounterCountsSinceReset(q, reports, counters, n);
    FewerSince(reports, n, RESETS, NO_PROGRESS, COUNTED);
  }

  /** A count that is never above the counter stays below `q` if it only grows
      where the counter is below `q - 1`. */
  lemma {:induction false} CountStaysBelow(reports: seq<Report>, n: nat, resets: Report -> bool, p: Report -> bool,
                                           counters: seq<nat>, q: int)
    requires n <= |reports| && n <= |counters| && q >= 1
    requires forall i :: 0 <= i < n ==> CountSince(reports, i, resets, p) <= counters[i]
    requires forall i :: 0 <= i < n && p(reports[i]) ==> counters[i] + 1 < q
    ensures CountSince(reports, n, resets, p) <= q - 1
  {
    if n == 0 {
    } else {
      CountStaysBelow(reports, n - 1, resets, p, counters, q);
      assert CountSince(reports, n - 1, resets, p) <= counters[n - 1];
    }
  }

  lemma UnquarantinedIsBelow(r: Report)
    requires TransitionFor(r.cause, r.policy).Some? && IsNoProgress(r.cause, r.policy)
    requires r.policy.retry.quarantineAfter >= 1 && QuarantinedFlag !in Effects(r).frontmatter
    ensures r.policy.attempts + 1 < r.policy.retry.quarantineAfter
  {
    CountedExactly(r.cause, r.policy);
  }

  /** The bound: a task that was never quarantined has had fewer than `q`
      worker errors and runs without a change since its last reset, whatever
      else came in between. */
  lemma UnquarantinedTasksAreBounded(q: int, reports: seq<Report>, counters: seq<nat>, n: nat)
    requires IsTaskTrace(q, reports, counters) && n <= |reports| && q >= 1 && counters[0] == 0
    requires forall i :: 0 <= i < n ==> QuarantinedFlag !in Effects(reports[i]).frontmatter
    ensures SinceReset(reports, n, NO_PROGRESS) <= q - 1
  {
    forall i | 0 <= i < n
      ensures SinceReset(reports, i, NO_PROGRESS) <= counters[i]
    {
      NoProgressIsCounted(q, reports, counters, i);
    }
    forall i | 0 <= i < n && NO_PROGRESS(reports[i])
      ensures counters[i] + 1 < q
    {
      UnquarantinedIsBelow(reports[i]);
    }
    CountStaysBelow(reports, n, RESETS, NO_PROGRESS, counters, q);
  }

  /** The bound is only about those reports: held errors alone never
      quarantine, whatever the counter and the threshold. */
  lemma HeldErrorsNeverQuarantine(q: int, reports: seq<Report>, counters: seq<nat>)
    requires IsTaskTrace(q, reports, counters) && counters[0] == 0
    requires forall i :: 0 <= i < |reports| ==> IsHeldError(reports[i].cause, reports[i].policy)
    ensures counters[|reports|] == |reports|
    ensures forall i :: 0 <= i < |reports| ==> QuarantinedFlag !in Effects(reports[i]).frontmatter
  {
    HeldErrorsCount(q, reports, counters, |reports|);
    forall i | 0 <= i < |reports|
      ensures QuarantinedFlag !in Effects(reports[i]).frontmatter
    {
      CountedExactly(reports[i].cause, reports[i].policy);
    }
  }

  lemma {:induction false} HeldErrorsCount(q: int, reports: seq<Report>, counters: seq<nat>, n: nat)
    requires IsTaskTrace(q, reports, counters) && counters[0] == 0 && n <= |reports|
    requires forall i :: 0 <= i < |reports| ==> IsHeldError(reports[i].cause, reports[i].policy)
    ensures counters[n] == n
  {
    if n == 0 {
    } else {
      HeldErrorsCount(q, reports, counters, n - 1);
      CountedExactly(reports[n - 1].cause, reports[n - 1].policy);
    }
  }
}
