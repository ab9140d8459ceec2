/** The schema migration of the attempt column (`lifecycle_compat.py`): the
    fold of the legacy lease and run statuses into one state, the split back,
    and when either is lossless.
*/
module LegacyFold {
  import opened Prelude
  import opened Lifecycle
  import opened Store
  import opened Interleavings
  import opened Transitions
  import TransitionLaws

  datatype LeaseStatus = Leased | Released | LandedLease | CancelledLease | ExpiredLease

  const RESOLVE_WORKER := "manager:resolve"

  function FoldLegacy(lease: Option<LeaseStatus>, run: RunStatus, phase: Option<string>, kind: Option<FailureKind>,
                      worker: string): AttemptState
  {
    if lease == Some(CancelledLease) then Aborted
    else if lease == Some(ExpiredLease) then Expired
    else if lease == Some(LandedLease) then Landed
    else if lease == Some(Leased) && run.StillRunning? then (if phase == Some(LANDING_PHASE) then MidLand else Running)
    else
      match run
      case Completed => NoChange
      case ReportedBlocked => Blocked
      case ReportedError => if kind.Some? && kind.value in MERGE_KINDS then Conflicted else Failed
      case ReportedAbort => Aborted
      case ReportedSkip => Skipped
      case StillRunning => if lease.None? && worker == RESOLVE_WORKER then Resolving else Aborted
  }

  /** None for the states that are never stored. */
  function SplitState(state: AttemptState): Option<(Option<LeaseStatus>, RunStatus)> {
    match state
    case Running | MidLand => Some((Some(Leased), StillRunning))
    case Landed => Some((Some(LandedLease), Completed))
    case NoChange => Some((Some(Released), Completed))
    case Blocked => Some((Some(Released), ReportedBlocked))
    case Failed | Conflicted => Some((Some(Released), ReportedError))
    case Skipped => Some((Some(Released), ReportedSkip))
    case Aborted => Some((Some(CancelledLease), ReportedAbort))
    case Expired => Some((Some(ExpiredLease), StillRunning))
    case Resolving => Some((None, StillRunning))
    case Claimed | Submitted => None
  }

  function Refolded(state: AttemptState, phase: Option<string>, kind: Option<FailureKind>, worker: string): AttemptState
    requires SplitState(state).Some?
  {
    FoldLegacy(SplitState(state).value.0, SplitState(state).value.1, phase, kind, worker)
  }

  /** Splitting a row and folding it back restores its state exactly when the
      columns both directions copy still tell the merged states apart. */
  lemma FoldInvertsSplitExactly(state: AttemptState, phase: Option<string>, kind: Option<FailureKind>, worker: string)
    requires SplitState(state).Some?
    ensures Refolded(state, phase, kind, worker) == state <==>
            && (state == MidLand ==> phase == Some(LANDING_PHASE))
            && (state == Running ==> phase != Some(LANDING_PHASE))
            && (state in {Failed, Conflicted} ==> state == ErrorStateFor(kind))
            && (state == Resolving ==> worker == RESOLVE_WORKER)
  {}

  /** Folding a legacy pair and splitting it back restores the pair exactly
      for the pairs the old code wrote when nothing was cut short. */
  lemma SplitInvertsFoldExactly(lease: Option<LeaseStatus>, run: RunStatus, phase: Option<string>,
                                kind: Option<FailureKind>, worker: string)
    ensures SplitState(FoldLegacy(lease, run, phase, kind, worker)) == Some((lease, run)) <==>
            match lease {
              case Some(Leased) => run.StillRunning?
              case Some(Released) => run in {Completed, ReportedBlocked, ReportedError, ReportedSkip}
              case Some(LandedLease) => run.Completed?
              case Some(CancelledLease) => run.ReportedAbort?
              case Some(ExpiredLease) => run.StillRunning?
              case None => run.StillRunning? && worker == RESOLVE_WORKER
            }
  {}

  /** Every legacy row, the ones cut short included, becomes a state that is
      stored, and the round trip back through the legacy columns leaves it
      alone. */
  lemma FoldIsCanonical(lease: Option<LeaseStatus>, run: RunStatus, phase: Option<string>, kind: Option<FailureKind>,
                        worker: string)
    ensures var state := FoldLegacy(lease, run, phase, kind, worker);
            SplitState(state).Some? && Refolded(state, phase, kind, worker) == state
  {
    FoldInvertsSplitExactly(FoldLegacy(lease, run, phase, kind, worker), phase, kind, worker);
  }

  /** What becomes of the rows cut short: a cancelled or expired lease decides
      whatever its run says, and a run left running without its lease is aborted,
      unless it is a resolve. */
  lemma CutShortExactly(lease: Option<LeaseStatus>, run: RunStatus, phase: Option<string>, kind: Option<FailureKind>,
                        worker: string)
    ensures var state := FoldLegacy(lease, run, phase, kind, worker);
            && (state == Expired <==> lease == Some(ExpiredLease))
            && (state == Landed <==> lease == Some(LandedLease))
            && (state == Resolving <==> lease == None && run == StillRunning && worker == "manager:resolve")
            && (state in LIVE <==> lease == Some(Leased) && run == StillRunning)
            && (state == Aborted <==>
                || lease == Some(CancelledLease)
                || (run.ReportedAbort? && (lease.None? || lease.value.Leased? || lease.value.Released?))
                || (run.StillRunning? && lease.Some? && lease.value.Released?)
                || (run.StillRunning? && lease.None? && worker != "manager:resolve"))
  {
    match lease
    case None =>
    case Some(Leased) =>
    case Some(_) =>
  }

  // ----- Reachable rows -----------------------------------------------------

  /** No worker reports a phase on an attempt that is landing, and none calls
      its own phase landing. */
  ghost predicate IsQuiet(dbs: seq<Db>, steps: seq<Step>)
    requires IsRun(dbs, steps)
  {
    forall k {:trigger steps[k]} :: 0 <= k < |steps| && steps[k].ReportPhase? ==>
      steps[k].phase != LANDING_PHASE && dbs[k].attempts[steps[k].id].state != MidLand
  }

  predicate DoesPhaseTell(a: Attempt) {
    (a.state == MidLand ==> a.phase == Some(LANDING_PHASE)) && (a.state == Running ==> a.phase != Some(LANDING_PHASE))
  }

  lemma StepKeepsPhase(db: Db, step: Step, id: string)
    requires IsInvariant(db) && IsWellFormed(db, step) && id in Next(db, step).attempts
    requires id in db.attempts ==> DoesPhaseTell(db.attempts[id])
    requires step.ReportPhase? ==> step.phase != LANDING_PHASE && db.attempts[step.id].state != MidLand
    ensures DoesPhaseTell(Next(db, step).attempts[id])
  {
    if IsActing(db, step) && step.id == id {
      ActKeepsAttempts(db, step);
      PhaseOf(db, step);
    }
  }

  lemma PhaseAfter(a: Attempt, t: Transition)
    requires (t.fields.phaseLanding <==> t.state == MidLand) && t.state != Running
    ensures DoesPhaseTell(AttemptAfter(a, t))
  {}

  lemma ActKeepsPhase(db: Db, step: Step, t: Transition)
    requires IsWellFormed(db, step) && IsActing(db, step)
             && TransitionLaws.TransitionFor(step.cause, step.policy) == Some(t)
    requires DoesPhaseTell(AttemptAfter(db.attempts[step.id], t))
    ensures DoesPhaseTell(Next(db, step).attempts[step.id])
  {}

  lemma PhaseOf(db: Db, step: Step)
    requires IsWellFormed(db, step) && IsActing(db, step)
    ensures DoesPhaseTell(Next(db, step).attempts[step.id])
  {
    var t := TransitionLaws.TransitionFor(step.cause, step.policy).value;
    TransitionLaws.OnlyAnEnqueueStaysLive(step.cause, step.policy);
    PhaseAfter(db.attempts[step.id], t);
    ActKeepsPhase(db, step, t);
  }

  /** On every reachable row the migration round-trips exactly when the phase
      still tells running from landing. */
  lemma MigrationIsLosslessExactly(dbs: seq<Db>, steps: seq<Step>, i: nat, id: string)
    requires IsRun(dbs, steps) && i < |dbs| && id in dbs[i].attempts
    ensures var a := dbs[i].attempts[id];
            && SplitState(a.state).Some?
            && (Refolded(a.state, a.phase, a.failureKind, a.worker) == a.state <==> DoesPhaseTell(a))
  {
    EveryReachableStoreIsSound(dbs, steps, i);
    var a := dbs[i].attempts[id];
    assert IsSound(a);
    FoldInvertsSplitExactly(a.state, a.phase, a.failureKind, a.worker);
  }

  /** It always does unless a phase report arrives in mid-land. */
  lemma {:induction false} MigrationIsLossless(dbs: seq<Db>, steps: seq<Step>, i: nat, id: string)
    requires IsRun(dbs, steps) && IsQuiet(dbs, steps) && i < |dbs| && id in dbs[i].attempts
    ensures var a := dbs[i].attempts[id];
            DoesPhaseTell(a) && SplitState(a.state).Some?
            && Refolded(a.state, a.phase, a.failureKind, a.worker) == a.state
  {
    MigrationIsLosslessExactly(dbs, steps, i, id);
    if i > 0 {
      if id in dbs[i - 1].attempts {
        MigrationIsLossless(dbs, steps, i - 1, id);
      }
      EveryReachableStoreIsSound(dbs, steps, i - 1);
      StepKeepsPhase(dbs[i - 1], steps[i - 1], id);
    }
  }

  /** A late phase report on a landing attempt is stored all the same, and
      the migration then turns that attempt back into a running one. */
  lemma LatePhaseReportsAreLossy(db: Db, id: string, phase: string)
    requires id in db.attempts && db.attempts[id].state == MidLand && phase != LANDING_PHASE
    ensures var a := Next(db, ReportPhase(id, phase)).attempts[id];
            a.state == MidLand && Refolded(a.state, a.phase, a.failureKind, a.worker) == Running
  {}
}
