/** Every interleaving of the actors that race on attempts: dispatch, worker
    submits, land completions, deadlines, operator stops, recovery, worker
    phase reports, holds and releases. Each is one atomic step on the store;
    what a submit decided on may have been read any number of steps earlier.
*/
module Interleavings {
  import opened Prelude
  import opened Lifecycle
  import opened Transitions
  import opened TransitionLaws
  import opened Store

  /** An `Act` applies `cause` by CAS from `expected`, with the counter its
      policy took from the store after step `readAt`. */
  datatype Step =
    | Dispatch(id: string, task: TaskKey, handedTo: string)
    | Act(id: string, task: TaskKey, cause: Cause, policy: SubmitPolicy, expected: AttemptState, worker: Option<string>,
          now: real, readAt: nat)
    | ReportPhase(id: string, phase: string)
    | HoldTask(task: TaskKey, hold: TaskHold)
    | ReleaseTask(task: TaskKey, resetProgress: bool)

  /** The state each actor expects: submits and their inline git work see a
      running attempt, a queued or recovered land one that is landing. */
  predicate IsExpected(cause: Cause, expected: AttemptState) {
    match cause
    case Submit(_) | SplitDone(_) | Enqueue | Expire => expected == Running
    case Interrupt | Recover(_) => expected == MidLand
    case LandDone(_) | Stop => expected == Running || expected == MidLand
  }

  predicate IsActing(db: Db, step: Step) {
    step.Act? && IsCasMet(db, step.id, step.expected, step.worker)
  }

  predicate IsWellFormed(db: Db, step: Step) {
    match step
    case Dispatch(id, _, _) => id !in db.attempts
    case Act(id, task, cause, policy, expected, _, _, _) =>
      && TransitionFor(cause, policy).Some? && IsExpected(cause, expected)
      && (id in db.attempts ==> db.attempts[id].task == task)
    case ReportPhase(id, _) => id in db.attempts
    case _ => true
  }

  function Next(db: Db, step: Step): Db
    requires IsWellFormed(db, step)
  {
    match step
    case Dispatch(id, task, worker) => Created(db, id, task, worker, Running)
    case Act(id, task, cause, policy, _, _, now, _) =>
      if IsActing(db, step) then Applied(db, id, task, TransitionFor(cause, policy).value, now) else db
    case ReportPhase(id, phase) => db.(attempts := db.attempts[id := db.attempts[id].(phase := Some(phase))])
    case HoldTask(task, hold) =>
      db.(tasks := db.tasks[task := TaskRow(Some(hold), CounterOf(db, task),
                                            if task in db.tasks then db.tasks[task].backoff else None)])
    case ReleaseTask(task, reset) => db.(tasks := WithRow(db.tasks, task, RowReleased(RowOf(db.tasks, task), reset)))
  }

  /** A run from the empty store. A policy's counter is the one its handler
      read, after it had found the attempt. */
  ghost predicate IsRun(dbs: seq<Db>, steps: seq<Step>) {
    && |dbs| == |steps| + 1 && dbs[0] == Db(map[], map[], [])
    && forall i {:trigger steps[i]} :: 0 <= i < |steps| ==>
         && IsWellFormed(dbs[i], steps[i]) && dbs[i + 1] == Next(dbs[i], steps[i])
         && (steps[i].Act? ==>
               && steps[i].readAt <= i
               && steps[i].policy.attempts == CounterOf(dbs[steps[i].readAt], steps[i].task)
               && steps[i].id in dbs[steps[i].readAt].attempts)
  }

  // ----- One step -----------------------------------------------------------

  /** What an attempt's state may become. */
  predicate MayBecome(a: AttemptState, b: AttemptState) {
    a == b || a == Running || (a == MidLand && b in TERMINAL && b != Expired)
  }

  predicate IsSound(a: Attempt) {
    && (a.state in LIVE || a.state in TERMINAL)
    && (a.finished <==> a.state in TERMINAL)
    && (a.state in {Failed, Conflicted} ==> a.state == ErrorStateFor(a.failureKind))
  }

  /** One live attempt per task, and every row sound. */
  ghost predicate IsInvariant(db: Db) {
    HasOneLiveAttemptPerTask(db) && forall id :: id in db.attempts ==> IsSound(db.attempts[id])
  }

  lemma ActKeepsAttempts(db: Db, step: Step)
    requires IsInvariant(db) && IsWellFormed(db, step) && IsActing(db, step)
    ensures var was, now := db.attempts[step.id], Next(db, step).attempts[step.id];
            MayBecome(was.state, now.state) && IsSound(now) && now.task == was.task && now.worker == was.worker
            && (now.state == MidLand <==> step.cause.Enqueue?)
  {
    OnlyAnEnqueueStaysLive(step.cause, step.policy);
    ErrorsAreSplitByKind(step.cause, step.policy);
  }

  /** What the steps beside the transitions write: a phase report the phase
      alone; an operator's hold the hold alone, in a row made for it if there is
      none; a release leaves a counter that is not reset and nothing else. */
  lemma OtherStepsAreExact(db: Db, step: Step)
    requires IsWellFormed(db, step) && !step.Act? && !step.Dispatch?
    ensures var next := Next(db, step);
            && next.outbox == db.outbox
            && (step.ReportPhase? ==>
                  && next.tasks == db.tasks && next.attempts.Keys == db.attempts.Keys
                  && (forall id :: id in db.attempts && id != step.id ==> next.attempts[id] == db.attempts[id])
                  && var was, now := db.attempts[step.id], next.attempts[step.id];
                     now.phase == Some(step.phase) && now == was.(phase := now.phase))
            && (!step.ReportPhase? ==>
                  && next.attempts == db.attempts
                  && (forall t :: t != step.task ==> RowOf(next.tasks, t) == RowOf(db.tasks, t)))
            && (step.HoldTask? ==>
                  && step.task in next.tasks && next.tasks[step.task].hold == Some(step.hold)
                  && (step.task in db.tasks ==>
                        next.tasks[step.task] == db.tasks[step.task].(hold := Some(step.hold)))
                  && (step.task !in db.tasks ==>
                        next.tasks[step.task].attempts == 0 && next.tasks[step.task].backoff.None?))
            && (step.ReleaseTask? ==>
                  && CounterOf(next, step.task) == (if step.resetProgress then 0 else CounterOf(db, step.task))
                  && (step.task in next.tasks <==> CounterOf(next, step.task) > 0)
                  && (step.task in next.tasks ==>
                        next.tasks[step.task].hold.None? && next.tasks[step.task].backoff.None?))
  {}

  /** No live attempt is stuck: an operator can stop each, and what is landing
      can end by its land, by recovery or as interrupted. */
  lemma LiveAttemptsCanEnd(db: Db, id: string, policy: SubmitPolicy, cause: Cause, now: real, readAt: nat)
    requires IsLive(db, id)
    requires cause.Stop? || (db.attempts[id].state.MidLand? && (cause.LandDone? || cause.Recover? || cause.Interrupt?))
    ensures var a := db.attempts[id];
            var step := Act(id, a.task, cause, policy, a.state, None, now, readAt);
            IsWellFormed(db, step) && IsActing(db, step) && Next(db, step).attempts[id].state in TERMINAL
  {
    OnlyAnEnqueueStaysLive(cause, policy);
  }

  lemma StepKeepsInvariant(db: Db, step: Step)
    requires IsInvariant(db) && IsWellFormed(db, step)
    ensures IsInvariant(Next(db, step))
  {
    var next := Next(db, step);
    if IsActing(db, step) {
      ActKeepsAttempts(db, step);
      OnlyAnEnqueueStaysLive(step.cause, step.policy);
      AppliedKeepsOneLive(db, step.id, step.task, TransitionFor(step.cause, step.policy).value, step.expected,
                          step.worker, step.now);
    } else {
      forall a, b | IsLive(next, a) && IsLive(next, b) && next.attempts[a].task == next.attempts[b].task
        ensures a == b
      {
        assert a in db.attempts ==> IsLive(db, a);
        assert b in db.attempts ==> IsLive(db, b);
      }
    }
  }

  lemma StepKeepsAttempt(db: Db, step: Step, id: string)
    requires IsInvariant(db) && IsWellFormed(db, step) && id in db.attempts
    ensures id in Next(db, step).attempts
    ensures var was, now := db.attempts[id], Next(db, step).attempts[id];
            && MayBecome(was.state, now.state) && now.task == was.task
            && (now.state != was.state ==> IsActing(db, step) && step.id == id)
  {
    if IsActing(db, step) && step.id == id {
      ActKeepsAttempts(db, step);
    }
  }

  /** The counter of a task moves only by a transition that ends a live
      attempt of it, or by an operator's reset. */
  lemma CounterMovesOnlyAtAnEnd(db: Db, step: Step, task: TaskKey)
    requires IsInvariant(db) && IsWellFormed(db, step) && CounterOf(Next(db, step), task) != CounterOf(db, task)
    ensures step == ReleaseTask(task, true)
            || (IsActing(db, step) && step.task == task && IsLive(db, step.id) && !IsLive(Next(db, step), step.id))
  {
    if IsActing(db, step) {
      ActKeepsAttempts(db, step);
      OnlyAnEnqueueStaysLive(step.cause, step.policy);
    }
  }

  /** As long as one live attempt of a task stays live, the counter rests. */
  lemma CounterRestsWhileLive(db: Db, step: Step, db': Db, id: string, task: TaskKey)
    requires IsInvariant(db) && IsWellFormed(db, step) && db' == Next(db, step) && step != ReleaseTask(task, true)
    requires IsLive(db, id) && IsLive(db', id) && db.attempts[id].task == task
    ensures CounterOf(db', task) == CounterOf(db, task)
  {
    if CounterOf(db', task) != CounterOf(db, task) {
      CounterMovesOnlyAtAnEnd(db, step, task);
    }
  }

  /** What an applied step leaves behind can be acted on again only when it
      enqueued a land. */
  lemma AfterAnAct(db: Db, step: Step, db': Db)
    requires IsInvariant(db) && IsWellFormed(db, step) && db' == Next(db, step) && IsActing(db, step)
    ensures step.id in db'.attempts
    ensures var state := db'.attempts[step.id].state;
            if step.cause.Enqueue? then state == MidLand else state in TERMINAL
  {
    ActKeepsAttempts(db, step);
    OnlyAnEnqueueStaysLive(step.cause, step.policy);
  }

  lemma ActsAreOnLiveAttempts(db: Db, step: Step)
    requires IsWellFormed(db, step) && IsActing(db, step)
    ensures IsLive(db, step.id) && (step.cause.Enqueue? ==> db.attempts[step.id].state == Running)
  {}

  // ----- Whole runs ---------------------------------------------------------

  /** In every reachable state a task has at most one live attempt, an
      attempt is finished exactly when its state is terminal, and error rows
      are split by their failure kind. */
  lemma {:induction false} EveryReachableStoreIsSound(dbs: seq<Db>, steps: seq<Step>, i: nat)
    requires IsRun(dbs, steps) && i < |dbs|
    ensures IsInvariant(dbs[i])
  {
    if i == 0 {
    } else {
      EveryReachableStoreIsSound(dbs, steps, i - 1);
      StepKeepsInvariant(dbs[i - 1], steps[i - 1]);
    }
  }

  /** An attempt's history is running, perhaps landing, then one terminal
      state for ever: a landing attempt never expires, and one that was
      stopped, expired or ended in any other way never lands. */
  lemma {:induction false} AttemptsRunLandAndEnd(dbs: seq<Db>, steps: seq<Step>, i: nat, j: nat, id: string)
    requires IsRun(dbs, steps) && i <= j < |dbs| && id in dbs[i].attempts
    ensures id in dbs[j].attempts && dbs[j].attempts[id].task == dbs[i].attempts[id].task
    ensures MayBecome(dbs[i].attempts[id].state, dbs[j].attempts[id].state)
    ensures dbs[i].attempts[id].state in TERMINAL ==> dbs[j].attempts[id].state == dbs[i].attempts[id].state
  {
    if i == j {
    } else {
      AttemptsRunLandAndEnd(dbs, steps, i, j - 1, id);
      EveryReachableStoreIsSound(dbs, steps, j - 1);
      StepKeepsAttempt(dbs[j - 1], steps[j - 1], id);
    }
  }

  /** Whatever races, an attempt's task effects are applied at most once:
      after an applied report, only an enqueued land can be followed by
      another one, and that had no effects. */
  lemma EffectsApplyAtMostOnce(dbs: seq<Db>, steps: seq<Step>, i: nat, j: nat)
    requires IsRun(dbs, steps) && i < j < |steps| && IsActing(dbs[i], steps[i]) && IsActing(dbs[j], steps[j])
    requires steps[i].id == steps[j].id
    ensures steps[i].cause.Enqueue? && !steps[j].cause.Enqueue?
  {
    ActLeavesIt(dbs, steps, i);
    NextActFindsItLive(dbs, steps, i + 1, j);
  }

  /** What an act finds later constrains what was there before. */
  lemma NextActFindsItLive(dbs: seq<Db>, steps: seq<Step>, k: nat, j: nat)
    requires IsRun(dbs, steps) && k <= j < |steps| && IsActing(dbs[j], steps[j]) && steps[j].id in dbs[k].attempts
    ensures dbs[k].attempts[steps[j].id].state !in TERMINAL
    ensures dbs[k].attempts[steps[j].id].state == MidLand ==> !steps[j].cause.Enqueue?
  {
    ActFoundIt(dbs, steps, j);
    AttemptsRunLandAndEnd(dbs, steps, k, j, steps[j].id);
  }

  lemma ActLeavesIt(dbs: seq<Db>, steps: seq<Step>, i: nat)
    requires IsRun(dbs, steps) && i < |steps| && IsActing(dbs[i], steps[i])
    ensures steps[i].id in dbs[i + 1].attempts
    ensures var state := dbs[i + 1].attempts[steps[i].id].state;
            if steps[i].cause.Enqueue? then state == MidLand else state in TERMINAL
  {
    EveryReachableStoreIsSound(dbs, steps, i);
    AfterAnAct(dbs[i], steps[i], dbs[i + 1]);
  }

  lemma ActFoundIt(dbs: seq<Db>, steps: seq<Step>, j: nat)
    requires IsRun(dbs, steps) && j < |steps| && IsActing(dbs[j], steps[j])
    ensures IsLive(dbs[j], steps[j].id)
    ensures steps[j].cause.Enqueue? ==> dbs[j].attempts[steps[j].id].state == Running
  {
    ActsAreOnLiveAttempts(dbs[j], steps[j]);
  }

  /** A submit that wins its CAS decided on the current counter, however long
      ago it read it: while an attempt is live nothing else of its task can
      end, so nothing moves the counter, an operator's reset aside. */
  lemma SubmitsDecideOnTheCurrentCounter(dbs: seq<Db>, steps: seq<Step>, i: nat)
    requires IsRun(dbs, steps) && i < |steps| && IsActing(dbs[i], steps[i])
    requires forall k :: steps[i].readAt <= k < i ==> steps[k] != ReleaseTask(steps[i].task, true)
    ensures steps[i].policy.attempts == CounterOf(dbs[i], steps[i].task)
  {
    CounterIsStill(dbs, steps, i, i);
  }

  lemma {:induction false} CounterIsStill(dbs: seq<Db>, steps: seq<Step>, i: nat, k: nat)
    requires IsRun(dbs, steps) && i < |steps| && IsActing(dbs[i], steps[i]) && steps[i].readAt <= k <= i
    requires forall n :: steps[i].readAt <= n < i ==> steps[n] != ReleaseTask(steps[i].task, true)
    ensures CounterOf(dbs[k], steps[i].task) == CounterOf(dbs[steps[i].readAt], steps[i].task)
  {
    if k == steps[i].readAt {
    } else {
      CounterIsStill(dbs, steps, i, k - 1);
      CounterRestsAt(dbs, steps, i, k - 1);
    }
  }

  lemma CounterRestsAt(dbs: seq<Db>, steps: seq<Step>, i: nat, k: nat)
    requires IsRun(dbs, steps) && i < |steps| && IsActing(dbs[i], steps[i]) && steps[i].readAt <= k < i
    requires steps[k] != ReleaseTask(steps[i].task, true)
    ensures CounterOf(dbs[k + 1], steps[i].task) == CounterOf(dbs[k], steps[i].task)
  {
    IsLiveBefore(dbs, steps, i, k);
    IsLiveBefore(dbs, steps, i, k + 1);
    EveryReachableStoreIsSound(dbs, steps, k);
    CounterRestsWhileLive(dbs[k], steps[k], dbs[k + 1], steps[i].id, steps[i].task);
  }

  /** An attempt live at step `i` was live ever since it was found. */
  lemma IsLiveBefore(dbs: seq<Db>, steps: seq<Step>, i: nat, k: nat)
    requires IsRun(dbs, steps) && i < |steps| && IsActing(dbs[i], steps[i]) && steps[i].readAt <= k <= i
    ensures IsLive(dbs[k], steps[i].id) && dbs[k].attempts[steps[i].id].task == steps[i].task
  {
    AttemptsRunLandAndEnd(dbs, steps, steps[i].readAt, k, steps[i].id);
    AttemptsRunLandAndEnd(dbs, steps, k, i, steps[i].id);
    EveryReachableStoreIsSound(dbs, steps, k);
    EveryReachableStoreIsSound(dbs, steps, i);
    assert IsSound(dbs[k].attempts[steps[i].id]);
  }
}
