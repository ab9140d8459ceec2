/** The failure watch of a queue: two failed tasks in a row, with nothing
    landed in between, pause it. The watch is a flag in the manager's memory,
    the pause a row of its store. Each submit decides on the flag and the pause
    it read, perhaps long before its transition is applied, and what it decided
    is written in two steps.
*/
module QueueWatch {
  import opened Prelude
  import opened Lifecycle
  import opened Transitions
  import opened TransitionLaws
  import opened QuarantineBound
  import opened EffectLaws

  datatype Queue = Queue(armed: bool, paused: bool)

  /** `play` ends a pause, and so does `stop`, which paused the queue to abort
      what was running. */
  datatype Unpausing = ByPlay | ByStop

  /** What makes the manager forget the watch: `play`, after unpausing; an
      operator's `retry` of a failed task; an edit that clears a failed or a
      quarantined flag; a restart. */
  datatype Forgetting = Played | Retried | Released | Restarted

  /** What happens to a queue. A report's submit read the watch at `read` and
      the pause at `readPause`, and sets the watch here; its pause is written
      later, if the manager lives on. The reconciler's transitions, those of
      recovered lands among them, touch neither. */
  datatype Happening =
    | Reported(cause: Cause, policy: SubmitPolicy, read: nat, readPause: nat)
    | PauseWritten(report: nat)
    | OperatorPauses
    | Unpauses(how: Unpausing)
    | Forgets(why: Forgetting)
    | Reconciled

  predicate IsSubmitPath(cause: Cause) {
    cause.Submit? || cause.SplitDone? || cause.LandDone?
  }

  function EffectsIn(h: Happening): TaskEffects
    requires h.Reported? && TransitionFor(h.cause, h.policy).Some?
  {
    TransitionFor(h.cause, h.policy).value.effects
  }

  function After(q: Queue, h: Happening): Queue
    requires h.Reported? ==> TransitionFor(h.cause, h.policy).Some?
  {
    match h
    case Reported(_, _, _, _) =>
      var armed := EffectsIn(h).watchArmed;
      q.(armed := if armed.Some? then armed.value else q.armed)
    case PauseWritten(_) => q.(paused := true)
    case OperatorPauses => q.(paused := true)
    case Unpauses(_) => q.(paused := false)
    case Forgets(_) => q.(armed := false)
    case Reconciled => q
  }

  /** A report that asks for the queue to be paused. */
  predicate AsksToPause(h: Happening) {
    h.Reported? && TransitionFor(h.cause, h.policy).Some? && EffectsIn(h).pauseQueue.Some?
  }

  /** What can happen at point `i` of a queue's history. */
  predicate CanHappen(queues: seq<Queue>, happenings: seq<Happening>, i: nat)
    requires i < |happenings| < |queues|
  {
    match happenings[i]
    case Reported(cause, policy, read, readPause) =>
      && IsSubmitPath(cause) && TransitionFor(cause, policy).Some? && read <= readPause <= i
      && policy.watchArmed == queues[read].armed && policy.queuePaused == queues[readPause].paused
    case PauseWritten(report) => report < i && AsksToPause(happenings[report])
    case _ => true
  }

  /** A history from a start of the manager, when no watch is armed. */
  ghost predicate IsHistory(queues: seq<Queue>, happenings: seq<Happening>) {
    && |queues| == |happenings| + 1 && !queues[0].armed
    && forall i {:trigger happenings[i]} :: 0 <= i < |happenings| ==>
         CanHappen(queues, happenings, i) && queues[i + 1] == After(queues[i], happenings[i])
  }

  /** A failure that counts as one of two in a row. */
  predicate IsFailure(h: Happening) {
    h.Reported? && IsWatched(h.cause, h.policy)
  }

  predicate Disarms(h: Happening) {
    h.Forgets? || (h.Reported? && IsLand(h.cause))
  }

  predicate Pauses(h: Happening) {
    h.PauseWritten? || h.OperatorPauses?
  }

  predicate EndsPause(h: Happening) {
    h.Unpauses?
  }

  /** Before point `n` there was an `on`, and no `off` since. */
  ghost predicate IsOn(happenings: seq<Happening>, n: nat, on: Happening -> bool, off: Happening -> bool)
    requires n <= |happenings|
  {
    exists i :: 0 <= i < n && on(happenings[i]) && IsQuiet(happenings, i + 1, n, off)
  }

  ghost predicate IsQuiet(happenings: seq<Happening>, from: nat, to: nat, off: Happening -> bool)
    requires to <= |happenings|
  {
    forall j :: from <= j < to ==> !off(happenings[j])
  }

  lemma WatchMoves(cause: Cause, policy: SubmitPolicy)
    requires TransitionFor(cause, policy).Some?
    ensures var e := TransitionFor(cause, policy).value.effects;
            && e.watchArmed
              == (if IsWatched(cause, policy) then Some(true) else if IsLand(cause) then Some(false) else None)
            && e.pauseQueue == if IsFailedRetry(cause, policy) then Some(RetryFailed)
                               else if IsWatched(cause, policy) then WatchFailure(policy) else None
  {
    EffectsAreDue(cause, policy);
    assert AroundOf(TransitionFor(cause, policy).value.effects).watch == Due(cause, policy).watch;
  }

  lemma OneMore(happenings: seq<Happening>, n: nat, on: Happening -> bool, off: Happening -> bool)
    requires n < |happenings|
    ensures IsOn(happenings, n + 1, on, off) <==>
            on(happenings[n]) || (IsOn(happenings, n, on, off) && !off(happenings[n]))
  {
    if on(happenings[n]) {
      assert IsQuiet(happenings, n + 1, n + 1, off);
    }
    if IsOn(happenings, n, on, off) && !off(happenings[n]) {
      var i :| 0 <= i < n && on(happenings[i]) && IsQuiet(happenings, i + 1, n, off);
      assert IsQuiet(happenings, i + 1, n + 1, off);
    }
    if i :| 0 <= i < n + 1 && on(happenings[i]) && IsQuiet(happenings, i + 1, n + 1, off) {
      assert i < n ==> IsQuiet(happenings, i + 1, n, off) && !off(happenings[n]);
    }
  }

  lemma QueueMoves(q: Queue, h: Happening)
    requires h.Reported? ==> TransitionFor(h.cause, h.policy).Some?
    ensures After(q, h).armed == if IsFailure(h) then true else if Disarms(h) then false else q.armed
    ensures After(q, h).paused == if Pauses(h) then true else if EndsPause(h) then false else q.paused
  {
    if h.Reported? {
      WatchMoves(h.cause, h.policy);
    }
  }

  lemma HistoryMoves(queues: seq<Queue>, happenings: seq<Happening>, n: nat)
    requires IsHistory(queues, happenings) && n < |happenings|
    ensures var h := happenings[n];
            && queues[n + 1].armed == (if IsFailure(h) then true else if Disarms(h) then false else queues[n].armed)
            && queues[n + 1].paused == (if Pauses(h) then true else if EndsPause(h) then false else queues[n].paused)
  {
    assert CanHappen(queues, happenings, n);
    QueueMoves(queues[n], happenings[n]);
  }

  /** A flag that `on` sets and `off` clears, all along the happenings. */
  ghost predicate IsSwitched(flags: seq<bool>, happenings: seq<Happening>, on: Happening -> bool,
                             off: Happening -> bool) {
    && |flags| == |happenings| + 1
    && forall k {:trigger happenings[k]} :: 0 <= k < |happenings| ==>
         flags[k + 1] == if on(happenings[k]) then true else if off(happenings[k]) then false else flags[k]
  }

  lemma {:induction false} SwitchedExactly(flags: seq<bool>, happenings: seq<Happening>, on: Happening -> bool,
                                           off: Happening -> bool, n: nat)
    requires IsSwitched(flags, happenings, on, off) && n <= |happenings|
    ensures flags[n] <==> IsOn(happenings, n, on, off) || (flags[0] && IsQuiet(happenings, 0, n, off))
  {
    if n == 0 {
    } else {
      SwitchedExactly(flags, happenings, on, off, n - 1);
      OneMore(happenings, n - 1, on, off);
      assert IsQuiet(happenings, 0, n, off) <==> IsQuiet(happenings, 0, n - 1, off) && !off(happenings[n - 1]);
    }
  }

  /** The watch is armed exactly when some task has failed and since then
      nothing has landed and nobody made the manager forget it. */
  lemma ArmedExactly(queues: seq<Queue>, happenings: seq<Happening>, n: nat)
    requires IsHistory(queues, happenings) && n <= |happenings|
    ensures queues[n].armed <==> IsOn(happenings, n, IsFailure, Disarms)
  {
    var flags := seq(|queues|, i requires 0 <= i < |queues| => queues[i].armed);
    forall k | 0 <= k < |happenings|
      ensures var h := happenings[k];
              flags[k + 1] == if IsFailure(h) then true else if Disarms(h) then false else flags[k]
    {
      HistoryMoves(queues, happenings, k);
    }
    SwitchedExactly(flags, happenings, IsFailure, Disarms, n);
  }

  /** The queue is paused exactly when a pause, or the one of before, has not
      been ended since. */
  lemma PausedExactly(queues: seq<Queue>, happenings: seq<Happening>, n: nat)
    requires IsHistory(queues, happenings) && n <= |happenings|
    ensures queues[n].paused <==>
            IsOn(happenings, n, Pauses, EndsPause) || (queues[0].paused && IsQuiet(happenings, 0, n, EndsPause))
  {
    var flags := seq(|queues|, i requires 0 <= i < |queues| => queues[i].paused);
    forall k | 0 <= k < |happenings|
      ensures var h := happenings[k];
              flags[k + 1] == if Pauses(h) then true else if EndsPause(h) then false else flags[k]
    {
      HistoryMoves(queues, happenings, k);
    }
    SwitchedExactly(flags, happenings, Pauses, EndsPause, n);
  }

  /** A report asks to pause the queue for two failures in a row exactly when
      it is a failure, no retry that failed again, the queue was running when
      its submit looked, and by the time it read the watch another task had
      failed, with nothing landed and nothing forgotten since. So two failures
      whose submits both read before the other was applied do not pause it. */
  lemma PausedForTwoInARowExactly(queues: seq<Queue>, happenings: seq<Happening>, n: nat)
    requires IsHistory(queues, happenings) && n < |happenings| && happenings[n].Reported?
    ensures var h := happenings[n];
            && TransitionFor(h.cause, h.policy).Some? && h.read <= h.readPause <= n
            && (EffectsIn(h).pauseQueue == Some(ConsecutiveFailures) <==>
                && IsFailure(h) && !IsFailedRetry(h.cause, h.policy)
                && !queues[h.readPause].paused && IsOn(happenings, h.read, IsFailure, Disarms))
  {
    var h := happenings[n];
    assert CanHappen(queues, happenings, n);
    WatchMoves(h.cause, h.policy);
    ArmedExactly(queues, happenings, h.read);
  }

  /** When the second of two failures reads the watch after the first has set
      it, with no land, `play`, retry, release or restart in between, the queue
      was paused then or is asked to be. */
  lemma TwoInARowAlwaysPause(queues: seq<Queue>, happenings: seq<Happening>, i: nat, n: nat)
    requires IsHistory(queues, happenings) && i < n < |happenings|
    requires IsFailure(happenings[i]) && IsFailure(happenings[n])
    requires i < happenings[n].read <= n && IsQuiet(happenings, i + 1, happenings[n].read, Disarms)
    ensures happenings[n].readPause <= n && (queues[happenings[n].readPause].paused || AsksToPause(happenings[n]))
  {
    var h := happenings[n];
    PausedForTwoInARowExactly(queues, happenings, n);
    WatchMoves(h.cause, h.policy);
    assert IsOn(happenings, h.read, IsFailure, Disarms);
  }

  /** And once its pause is written, the queue stays paused until an operator
      ends it, restarts of the manager included. */
  lemma PausesHold(queues: seq<Queue>, happenings: seq<Happening>, m: nat, n: nat)
    requires IsHistory(queues, happenings) && m < n <= |happenings| && Pauses(happenings[m])
    requires forall k :: m < k < n ==> !happenings[k].Unpauses?
    ensures queues[n].paused
  {
    PausedExactly(queues, happenings, n);
    assert IsQuiet(happenings, m + 1, n, EndsPause);
  }

  /** After `play`, a retry or a release, one failure is the first again: its
      report does not count as the second in a row. A `stop` in its place
      forgets nothing. */
  lemma ForgettingForgives(queues: seq<Queue>, happenings: seq<Happening>, k: nat, n: nat)
    requires IsHistory(queues, happenings) && k < n < |happenings|
    requires happenings[k].Forgets? && happenings[n].Reported? && k < happenings[n].read <= n
    requires forall j :: k < j < happenings[n].read ==> !IsFailure(happenings[j])
    ensures var h := happenings[n];
            TransitionFor(h.cause, h.policy).Some? && EffectsIn(h).pauseQueue != Some(ConsecutiveFailures)
  {
    PausedForTwoInARowExactly(queues, happenings, n);
  }
}
