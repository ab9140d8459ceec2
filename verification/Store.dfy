/** The attempt and task tables and the one transaction that applies a
    transition (`NightshiftStore`, `manager/store.py`).
*/
module Store {
  import opened Prelude
  import opened Lifecycle
  import opened Transitions
  import opened TransitionLaws
  import W = Workflows

  /** A queue and a task in it. */
  type TaskKey = (string, string)

  const LANDING_PHASE := "landing"

  datatype Attempt = Attempt(task: TaskKey, worker: string, state: AttemptState, failureKind: Option<FailureKind>,
                             phase: Option<string>, finished: bool)

  /** `backoff` is when the task becomes eligible again. */
  datatype TaskRow = TaskRow(hold: Option<TaskHold>, attempts: nat, backoff: Option<real>)

  datatype Db = Db(attempts: map<string, Attempt>, tasks: map<TaskKey, TaskRow>, outbox: seq<Event>)

  predicate IsLive(db: Db, id: string) {
    id in db.attempts && db.attempts[id].state in LIVE
  }

  /** The unique index on live attempts. */
  ghost predicate HasOneLiveAttemptPerTask(db: Db) {
    forall a, b :: IsLive(db, a) && IsLive(db, b) && db.attempts[a].task == db.attempts[b].task ==> a == b
  }

  // ----- One transaction ----------------------------------------------------

  predicate IsCasMet(db: Db, id: string, expected: AttemptState, worker: Option<string>) {
    && id in db.attempts && db.attempts[id].state == expected
    && (worker.Some? ==> db.attempts[id].worker == worker.value)
  }

  function AttemptAfter(a: Attempt, t: Transition): Attempt {
    a.(state := t.state,
       failureKind := if t.fields.failureKind.Some? then t.fields.failureKind.value else a.failureKind,
       phase := if t.fields.phaseLanding then Some(LANDING_PHASE) else a.phase,
       finished := a.finished || t.state in TERMINAL)
  }

  function RowOf(tasks: map<TaskKey, TaskRow>, task: TaskKey): Option<TaskRow> {
    if task in tasks then Some(tasks[task]) else None
  }

  function WithRow(tasks: map<TaskKey, TaskRow>, task: TaskKey, row: Option<TaskRow>): map<TaskKey, TaskRow> {
    if row.Some? then tasks[task := row.value] else tasks - {task}
  }

  /** The persisted no-progress counter. */
  function CounterOf(db: Db, task: TaskKey): nat {
    if task in db.tasks then db.tasks[task].attempts else 0
  }

  /** What a transition's effects make of the task's row: a hold is written
      or cleared, the counter moves, and a cleared row with nothing left to
      say is gone. */
  function RowAfter(row: Option<TaskRow>, e: TaskEffects, now: real): Option<TaskRow> {
    var was := if row.Some? then row.value else TaskRow(None, 0, None);
    var hold := if e.hold.Some? then e.hold else if e.clearHold then None else was.hold;
    var after := match e.progress {
      case Increment => TaskRow(hold, was.attempts + 1,
                                if e.nextEligibleIn.Some? then Some(now + e.nextEligibleIn.value) else None)
      case Reset => TaskRow(hold, 0, None)
      case NoProgressOp => TaskRow(hold, was.attempts, was.backoff)
    };
    if e.hold.None? && !e.progress.Increment? && (row.None? || (e.clearHold && !IsKept(after))) then None
      else Some(after)
  }

  function Applied(db: Db, id: string, task: TaskKey, t: Transition, now: real): Db
    requires id in db.attempts
  {
    Db(db.attempts[id := AttemptAfter(db.attempts[id], t)],
       WithRow(db.tasks, task, RowAfter(RowOf(db.tasks, task), t.effects, now)),
       db.outbox + t.events)
  }

  function Created(db: Db, id: string, task: TaskKey, worker: string, state: AttemptState): Db {
    if state in LIVE && exists a :: a in db.attempts && IsLive(db, a) && db.attempts[a].task == task then db
    else db.(attempts := db.attempts[id := Attempt(task, worker, state, None, None, false)])
  }

  /** The insert adds exactly the new row, and it does so unless the row would be
      the second live one of its task. */
  lemma CreatesExactly(db: Db, id: string, task: TaskKey, worker: string, state: AttemptState)
    requires id !in db.attempts
    ensures var after := Created(db, id, task, worker, state);
            && after.tasks == db.tasks && after.outbox == db.outbox
            && (id in after.attempts ==> after.attempts[id] == Attempt(task, worker, state, None, None, false))
            && (forall a :: a != id ==> (a in after.attempts <==> a in db.attempts))
            && (forall a :: a in db.attempts ==> after.attempts[a] == db.attempts[a])
            && (id !in after.attempts <==>
                state in {Running, MidLand}
                && exists a :: a in db.attempts && db.attempts[a].task == task
                               && db.attempts[a].state in {Running, MidLand})
  {
    if a :| a in db.attempts && db.attempts[a].task == task && db.attempts[a].state in {Running, MidLand} {
      assert IsLive(db, a);
    }
  }

  /** An explicit release: the counter alone keeps a row. */
  function RowReleased(row: Option<TaskRow>, resetProgress: bool): Option<TaskRow> {
    if row.None? || resetProgress || row.value.attempts == 0 then None
    else Some(TaskRow(None, row.value.attempts, None))
  }

  lemma AppliedKeepsOneLive(db: Db, id: string, task: TaskKey, t: Transition, expected: AttemptState,
                            worker: Option<string>, now: real)
    requires HasOneLiveAttemptPerTask(db) && IsCasMet(db, id, expected, worker)
    requires t.state in LIVE ==> expected in LIVE
    ensures HasOneLiveAttemptPerTask(Applied(db, id, task, t, now))
  {
    var after := Applied(db, id, task, t, now);
    forall a, b | IsLive(after, a) && IsLive(after, b) && after.attempts[a].task == after.attempts[b].task
      ensures a == b
    {
      assert IsLive(db, a) && IsLive(db, b);
    }
  }

  class NightshiftStore {
    var attempts: map<string, Attempt>
    var tasks: map<TaskKey, TaskRow>
    var outbox: seq<Event>

    function Contents(): Db
      reads this
    {
      Db(attempts, tasks, outbox)
    }

    constructor ()
      ensures Contents() == Db(map[], map[], [])
    {
      attempts, tasks, outbox := map[], map[], [];
    }

    /** `create_attempt`: nothing is created beside a live attempt of the
        same task. */
    method CreateAttempt(id: string, task: TaskKey, worker: string, state: AttemptState) returns (created: bool)
      requires id !in attempts && HasOneLiveAttemptPerTask(Contents())
      modifies this
      ensures Contents() == Created(old(Contents()), id, task, worker, state) && created == (id in attempts)
      ensures HasOneLiveAttemptPerTask(Contents())
    {
      created := !(state in LIVE && exists a :: a in attempts && IsLive(Contents(), a) && attempts[a].task == task);
      if created {
        attempts := attempts[id := Attempt(task, worker, state, None, None, false)];
      }
    }

    /** `apply_transition`: nothing at all without the CAS; otherwise the
        attempt, its task and the events move together. */
    method ApplyTransition(id: string, task: TaskKey, t: Transition, expected: AttemptState, worker: Option<string>,
                           now: real)
      returns (applied: bool)
      requires HasOneLiveAttemptPerTask(Contents()) && (t.state in LIVE ==> expected in LIVE)
      modifies this
      ensures applied <==> id in old(attempts) && old(attempts)[id].state == expected
                           && worker in {None, Some(old(attempts)[id].worker)}
      ensures Contents() == if applied then Applied(old(Contents()), id, task, t, now) else old(Contents())
      ensures HasOneLiveAttemptPerTask(Contents())
    {
      applied := IsCasMet(Contents(), id, expected, worker);
      if !applied {
        return;
      }
      AppliedKeepsOneLive(Contents(), id, task, t, expected, worker, now);
      attempts := attempts[id := AttemptAfter(attempts[id], t)];
      ApplyTaskEffects(task, t.effects, now);
      outbox := outbox + t.events;
    }

    /** The statements on the task's row, in order. */
    method ApplyTaskEffects(task: TaskKey, e: TaskEffects, now: real)
      modifies this`tasks
      ensures tasks == WithRow(old(tasks), task, RowAfter(RowOf(old(tasks), task), e, now))
    {
      if e.hold.Some? {
        UpsertHold(task, e.hold.value);
      }
      match e.progress {
        case Increment => IncrementCounter(task, e.nextEligibleIn, now);
        case Reset => ResetCounter(task);
        case NoProgressOp =>
      }
      if e.hold.None? && e.clearHold {
        DeleteIfClean(task);
        Demote(task);
      }
    }

    method UpsertHold(task: TaskKey, hold: TaskHold)
      modifies this`tasks
      ensures var row := RowOf(old(tasks), task);
              tasks == old(tasks)[task := if row.Some? then row.value.(hold := Some(hold))
                                  else TaskRow(Some(hold), 0, None)]
    {
      var row := RowOf(tasks, task);
      tasks := tasks[task := if row.Some? then row.value.(hold := Some(hold)) else TaskRow(Some(hold), 0, None)];
    }

    method IncrementCounter(task: TaskKey, delay: Option<real>, now: real)
      modifies this`tasks
      ensures var row := RowOf(old(tasks), task);
              var eligible := if delay.Some? then Some(now + delay.value) else None;
              tasks == old(tasks)[task := if row.Some? then
                                  row.value.(attempts := row.value.attempts + 1, backoff := eligible)
                                          else TaskRow(None, 1, eligible)]
    {
      var row := RowOf(tasks, task);
      var eligible := if delay.Some? then Some(now + delay.value) else None;
      tasks := tasks[task := if row.Some? then row.value.(attempts := row.value.attempts + 1, backoff := eligible)
                             else TaskRow(None, 1, eligible)];
    }

    method ResetCounter(task: TaskKey)
      modifies this`tasks
      ensures tasks == if task in old(tasks) then old(tasks)[task := old(tasks)[task].(attempts := 0, backoff := None)]
              else old(tasks)
    {
      if task in tasks {
        tasks := tasks[task := tasks[task].(attempts := 0, backoff := None)];
      }
    }

    method DeleteIfClean(task: TaskKey)
      modifies this`tasks
      ensures tasks == if task in old(tasks) && old(tasks)[task].attempts == 0 && old(tasks)[task].backoff.None?
                       then old(tasks) - {task} else old(tasks)
    {
      if task in tasks && tasks[task].attempts == 0 && tasks[task].backoff.None? {
        tasks := tasks - {task};
      }
    }

    method Demote(task: TaskKey)
      modifies this`tasks
      ensures tasks == if task in old(tasks) then old(tasks)[task := old(tasks)[task].(hold := None)] else old(tasks)
    {
      if task in tasks {
        tasks := tasks[task := tasks[task].(hold := None)];
      }
    }

    /** `clear_task_state`. */
    method ClearTaskState(task: TaskKey, resetProgress: bool)
      modifies this`tasks
      ensures tasks == WithRow(old(tasks), task, RowReleased(RowOf(old(tasks), task), resetProgress))
    {
      if task in tasks {
        if resetProgress || tasks[task].attempts == 0 {
          tasks := tasks - {task};
        } else {
          tasks := tasks[task := TaskRow(None, tasks[task].attempts, None)];
        }
      }
    }
  }

  // ----- The life of a task row ---------------------------------------------

  /** The row carries a hold or retry state. */
  predicate IsKept(row: TaskRow) {
    row.hold.Some? || row.attempts > 0 || row.backoff.Some?
  }

  predicate IsRowKept(row: Option<TaskRow>) {
    row.Some? ==> IsKept(row.value)
  }

  /** The documented invariant, that a row exists only while it carries a
      hold or retry state, survives a transition exactly unless it resets the
      counter of a row that has nothing else, without clearing the hold. */
  lemma RowsAreKeptExactly(row: Option<TaskRow>, e: TaskEffects, now: real)
    requires IsRowKept(row)
    ensures IsRowKept(RowAfter(row, e, now)) <==>
            !(e.progress.Reset? && e.hold.None? && !e.clearHold && row.Some? && row.value.hold.None?)
  {}

  /** In the transition table those are exactly the document steps that
      complete their workflow, or advance it to a step with budget left, after a
      failed attempt. */
  lemma OnlyDocumentsLeaveEmptyRows(cause: Cause, policy: SubmitPolicy, row: Option<TaskRow>, now: real)
    requires TransitionFor(cause, policy).Some? && IsRowKept(row)
    ensures !IsRowKept(RowAfter(row, TransitionFor(cause, policy).value.effects, now)) <==>
            && cause.Submit? && policy.workflowStep.Some? && IsStepDone(cause, policy.workflowStep.value)
            && (policy.workflowStep.value.routeTo == W.END || !policy.workflowStep.value.destVisitsExhausted)
            && row.Some? && row.value.hold.None?
  {
    RowsAreKeptExactly(row, TransitionFor(cause, policy).value.effects, now);
    match cause
    case Submit(outcome) => SubmitResets(outcome, policy);
    case LandDone(land) => LandResets(land, policy);
    case _ =>
  }

  lemma SubmitResets(outcome: Outcome, policy: SubmitPolicy)
    requires OnSubmit(outcome, policy).Apply?
    ensures var e := OnSubmit(outcome, policy).t.effects;
            && (e.progress.Reset? ==> e.hold.None? && !e.clearHold)
            && (e.progress.Reset? <==>
                  && policy.workflowStep.Some? && IsStepDone(Submit(outcome), policy.workflowStep.value)
                  && (policy.workflowStep.value.routeTo == W.END || !policy.workflowStep.value.destVisitsExhausted))
  {
    assert !ErrorTransition(outcome, policy).effects.progress.Reset?;
    assert !ErrorTransition(NO_DOCUMENT, policy).effects.progress.Reset?;
    match outcome.status
    case ReportedBlocked => assert OnSubmit(outcome, policy).t == BlockedTransition(outcome, policy);
    case Completed =>
      if outcome.document.Some? {
        assert OnSubmit(outcome, policy).t == OnDocument(policy.workflowStep.value, outcome.document.value);
      }
    case _ =>
  }

  lemma LandResets(land: LandOutcome, policy: SubmitPolicy)
    ensures var e := TransitionFor(LandDone(land), policy).value.effects; e.progress.Reset? ==> e.clearHold
  {
    if land.kind in LAND_REFUSED {
      assert LandFailedTransition(land, policy).effects.progress.NoProgressOp?;
    } else if land.kind.NoChanges? {
      assert NoChangeTransition(policy).effects.progress.Increment?;
    }
  }
}
