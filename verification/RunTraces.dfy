/** The bound on fruitless attempts, over every interleaving: the reports
    applied to a task in a run of the store form one of its traces.
*/
module RunTraces {
  import opened Prelude
  import opened Lifecycle
  import opened Transitions
  import opened TransitionLaws
  import opened QuarantineBound
  import opened Store
  import opened Interleavings

  /** A step that applied a report about this task. */
  predicate IsReportOn(db: Db, step: Step, task: TaskKey) {
    IsActing(db, step) && step.task == task
  }

  /** The reports applied to the task in the first `n` steps. */
  function ReportsOn(dbs: seq<Db>, steps: seq<Step>, task: TaskKey, n: nat): seq<Report>
    requires n <= |steps| && |dbs| == |steps| + 1
  {
    if n == 0 then []
    else
      ReportsOn(dbs, steps, task, n - 1)
      + if IsReportOn(dbs[n - 1], steps[n - 1], task) then [Report(steps[n - 1].cause, steps[n - 1].policy)] else []
  }

  /** Under one threshold, and until the operator resets the task's counter. */
  ghost predicate IsUnreset(steps: seq<Step>, task: TaskKey, q: int, n: nat)
    requires n <= |steps|
  {
    && (forall k :: 0 <= k < n ==> steps[k] != ReleaseTask(task, true))
    && (forall k {:trigger steps[k]} :: 0 <= k < n && steps[k].Act? ==> steps[k].policy.retry.quarantineAfter == q)
  }

  lemma AppliedCounter(db: Db, id: string, task: TaskKey, t: Transition, now: real)
    requires id in db.attempts
    ensures CounterOf(Applied(db, id, task, t, now), task) == Progressed(CounterOf(db, task), t.effects.progress)
  {}

  lemma ActMovesTheCounter(db: Db, step: Step, task: TaskKey)
    requires IsWellFormed(db, step) && IsReportOn(db, step, task)
    ensures TransitionFor(step.cause, step.policy).Some?
    ensures CounterOf(Next(db, step), task)
            == Progressed(CounterOf(db, task), Effects(Report(step.cause, step.policy)).progress)
  {
    AppliedCounter(db, step.id, task, TransitionFor(step.cause, step.policy).value, step.now);
  }

  lemma OtherStepsLeaveTheCounter(db: Db, step: Step, task: TaskKey)
    requires IsInvariant(db) && IsWellFormed(db, step) && !IsReportOn(db, step, task) && step != ReleaseTask(task, true)
    ensures CounterOf(Next(db, step), task) == CounterOf(db, task)
  {
    if CounterOf(Next(db, step), task) != CounterOf(db, task) {
      CounterMovesOnlyAtAnEnd(db, step, task);
    }
  }

  lemma OneMoreReport(q: int, reports: seq<Report>, counters: seq<nat>, r: Report, counter: nat)
    requires IsTaskTrace(q, reports, counters) && TransitionFor(r.cause, r.policy).Some?
    requires r.policy.retry.quarantineAfter == q && r.policy.attempts == counters[|reports|]
    requires counter == Progressed(counters[|reports|], Effects(r).progress)
    ensures IsTaskTrace(q, reports + [r], counters + [counter])
  {
    var all, now := reports + [r], counters + [counter];
    forall i | 0 <= i < |all|
      ensures TransitionFor(all[i].cause, all[i].policy).Some? && all[i].policy.retry.quarantineAfter == q
      ensures all[i].policy.attempts == now[i] && now[i + 1] == Progressed(now[i], Effects(all[i]).progress)
    {
      assert i < |reports| ==> all[i] == reports[i] && now[i] == counters[i] && now[i + 1] == counters[i + 1];
    }
  }

  /** The reports applied in a run are a trace of the task, each decided on the
      counter as the ones before it left it: however their submits raced. */
  lemma {:induction false} RunsAreTraces(dbs: seq<Db>, steps: seq<Step>, task: TaskKey, q: int, n: nat)
    returns (counters: seq<nat>)
    requires IsRun(dbs, steps) && n <= |steps| && IsUnreset(steps, task, q, n)
    ensures IsTaskTrace(q, ReportsOn(dbs, steps, task, n), counters) && counters[0] == 0
    ensures counters[|ReportsOn(dbs, steps, task, n)|] == CounterOf(dbs[n], task)
  {
    if n == 0 {
      counters := [0];
    } else {
      counters := RunsAreTraces(dbs, steps, task, q, n - 1);
      var db, step := dbs[n - 1], steps[n - 1];
      EveryReachableStoreIsSound(dbs, steps, n - 1);
      if IsReportOn(db, step, task) {
        SubmitsDecideOnTheCurrentCounter(dbs, steps, n - 1);
        ActMovesTheCounter(db, step, task);
        OneMoreReport(q, ReportsOn(dbs, steps, task, n - 1), counters, Report(step.cause, step.policy),
                      CounterOf(dbs[n], task));
        counters := counters + [CounterOf(dbs[n], task)];
      } else {
        OtherStepsLeaveTheCounter(db, step, task);
      }
    }
  }

  /** So in every interleaving a task that no applied report has quarantined had
      fewer than `q` worker errors and runs without a change since its last
      reset. */
  lemma RunsAreBounded(dbs: seq<Db>, steps: seq<Step>, task: TaskKey, q: int, n: nat)
    requires IsRun(dbs, steps) && n <= |steps| && IsUnreset(steps, task, q, n) && q >= 1
    requires var reports := ReportsOn(dbs, steps, task, n);
             forall i :: 0 <= i < |reports| ==>
               TransitionFor(reports[i].cause, reports[i].policy).Some?
                 && QuarantinedFlag !in Effects(reports[i]).frontmatter
    ensures var reports := ReportsOn(dbs, steps, task, n); SinceReset(reports, |reports|, NO_PROGRESS) <= q - 1
  {
    var reports := ReportsOn(dbs, steps, task, n);
    var counters := RunsAreTraces(dbs, steps, task, q, n);
    UnquarantinedTasksAreBounded(q, reports, counters, |reports|);
  }
}
