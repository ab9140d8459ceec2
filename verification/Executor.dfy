/** The per-repository executor (`git/executor.py`): one worker thread draining
    a FIFO queue, any number of callers submitting, cancelling, draining and
    shutting down. Every critical section and every queue operation is one
    step, and the steps of all threads interleave freely.
*/
module Executor {
  import opened Prelude

  datatype Item = Job(id: nat) | Sentinel

  datatype FutureState = Pending | Cancelled | Running | Done

  datatype Worker = NotStarted | Waiting | Working(id: nat) | Exited

  /** `accepted` and `taken` are the jobs ever enqueued and ever dequeued;
      `unfinished` is the queue's own count, which `drain` waits on. */
  datatype State = State(queue: seq<Item>, stopped: bool, worker: Worker, futures: map<nat, FutureState>,
                         unfinished: int, accepted: seq<nat>, taken: seq<nat>)

  const INITIAL := State([], false, NotStarted, map[], 0, [], [])

  datatype Step = Submit(id: nat) | Shutdown | Cancel(id: nat) | Take | Finish

  /** A new job has a new future; the worker acts in its own order. */
  predicate IsEnabled(s: State, step: Step) {
    match step
    case Submit(id) => id !in s.futures
    case Shutdown => true
    case Cancel(id) => id in s.futures
    case Take => s.worker.Waiting? && s.queue != []
    case Finish => s.worker.Working?
  }

  function Next(s: State, step: Step): State
    requires IsEnabled(s, step)
  {
    match step
    case Submit(id) =>
      if s.stopped then s
      else s.(worker := if s.worker.NotStarted? then Waiting else s.worker, queue := s.queue + [Job(id)],
              futures := s.futures[id := Pending], unfinished := s.unfinished + 1, accepted := s.accepted + [id])
    case Shutdown =>
      if s.stopped then s
      else if s.worker.NotStarted? then s.(stopped := true)
      else s.(stopped := true, queue := s.queue + [Sentinel], unfinished := s.unfinished + 1)
    case Cancel(id) => if s.futures[id].Pending? then s.(futures := s.futures[id := Cancelled]) else s
    case Take =>
      var rest := s.(queue := s.queue[1..]);
      if s.queue[0].Sentinel? then rest.(worker := Exited, unfinished := s.unfinished - 1)
      else
        var id := s.queue[0].id;
        if id in s.futures && s.futures[id].Cancelled? then
          rest.(taken := s.taken + [id], unfinished := s.unfinished - 1)
        else rest.(taken := s.taken + [id], futures := s.futures[id := Running], worker := Working(id))
    case Finish =>
      s.(futures := s.futures[s.worker.id := Done], worker := Waiting, unfinished := s.unfinished - 1)
  }

  /** When a call of `shutdown` returns: at once unless it is the one that
      stops a started worker, which joins the thread. */
  predicate DoesShutdownJoin(s: State) {
    !s.stopped && !s.worker.NotStarted?
  }

  // ----- The object ---------------------------------------------------------

  class RepoExecutor {
    var queue: seq<Item>
    var stopped: bool
    var worker: Worker
    var futures: map<nat, FutureState>
    var unfinished: int
    ghost var accepted: seq<nat>
    ghost var taken: seq<nat>

    ghost function Contents(): State
      reads this
    {
      State(queue, stopped, worker, futures, unfinished, accepted, taken)
    }

    constructor ()
      ensures Contents() == INITIAL
    {
      queue, stopped, worker, futures, unfinished, accepted, taken := [], false, NotStarted, map[], 0, [], [];
    }

    /** `submit`: False is the error of an executor that is shut down. */
    method SubmitJob(id: nat) returns (ok: bool)
      requires IsEnabled(Contents(), Submit(id))
      modifies this
      ensures Contents() == Next(old(Contents()), Submit(id)) && ok == !old(stopped)
    {
      if stopped {
        return false;
      }
      if worker.NotStarted? {
        worker := Waiting;
      }
      futures, queue := futures[id := Pending], queue + [Job(id)];
      unfinished, accepted := unfinished + 1, accepted + [id];
      ok := true;
    }

    /** The critical section of `shutdown`; `join` tells whether the caller
        then waits for the thread. */
    method BeginShutdown() returns (join: bool)
      modifies this
      ensures Contents() == Next(old(Contents()), Shutdown) && join == DoesShutdownJoin(old(Contents()))
    {
      if stopped {
        return false;
      }
      stopped := true;
      if worker.NotStarted? {
        return false;
      }
      queue, unfinished := queue + [Sentinel], unfinished + 1;
      join := true;
    }

    /** `_run` up to the job: dequeue, and claim the future unless it was
        cancelled. */
    method TakeItem()
      requires IsEnabled(Contents(), Take)
      modifies this
      ensures Contents() == Next(old(Contents()), Take)
    {
      var item := queue[0];
      queue := queue[1..];
      if item.Sentinel? {
        unfinished, worker := unfinished - 1, Exited;
        return;
      }
      taken := taken + [item.id];
      if item.id in futures && futures[item.id].Cancelled? {
        unfinished := unfinished - 1;
      } else {
        futures, worker := futures[item.id := Running], Working(item.id);
      }
    }

    /** The job returned or raised: either is delivered on its future. */
    method FinishJob()
      requires IsEnabled(Contents(), Finish)
      modifies this
      ensures Contents() == Next(old(Contents()), Finish)
    {
      futures, unfinished, worker := futures[worker.id := Done], unfinished - 1, Waiting;
    }
  }

  // ----- The invariant ------------------------------------------------------

  function Jobs(queue: seq<Item>): seq<nat> {
    if queue == [] then [] else (if queue[0].Job? then [queue[0].id] else []) + Jobs(queue[1..])
  }

  lemma {:induction false} JobsAppend(queue: seq<Item>, item: Item)
    ensures Jobs(queue + [item]) == Jobs(queue) + if item.Job? then [item.id] else []
  {
    var last := if item.Job? then [item.id] else [];
    if queue == [] {
      assert queue + [item] == [item] && [item][1..] == [];
      assert [] + last == last && last + [] == last;
    } else {
      var first := if queue[0].Job? then [queue[0].id] else [];
      assert (queue + [item])[0] == queue[0] && (queue + [item])[1..] == queue[1..] + [item];
      JobsAppend(queue[1..], item);
      assert first + (Jobs(queue[1..]) + last) == (first + Jobs(queue[1..])) + last;
    }
  }

  predicate AreDistinct(ids: seq<nat>) {
    forall i, j :: 0 <= i < j < |ids| ==> ids[i] != ids[j]
  }

  /** The stop marker is last, and there exactly from the shutdown of a
      started worker until that worker exits. */
  predicate IsMarked(s: State) {
    && (forall i :: 0 <= i < |s.queue| - 1 ==> s.queue[i].Job?)
    && ((s.queue != [] && s.queue[|s.queue| - 1].Sentinel?) <==> s.stopped && (s.worker.Waiting? || s.worker.Working?))
    && (s.worker.NotStarted? || s.worker.Exited? ==> s.queue == [])
    && (s.worker.NotStarted? ==> s.accepted == [])
    && (s.worker.Exited? ==> s.stopped)
  }

  /** Every job is taken in the order it was accepted, and once. */
  ghost predicate IsFifo(s: State) {
    && s.accepted == s.taken + Jobs(s.queue) && AreDistinct(s.accepted)
    && (forall id :: id in s.accepted <==> id in s.futures)
  }

  /** Only the job at work runs; what was taken before it is over. */
  ghost predicate AreFuturesRight(s: State) {
    && (forall id :: id in Jobs(s.queue) && id in s.futures ==> s.futures[id].Pending? || s.futures[id].Cancelled?)
    && (forall id :: id in s.taken && id in s.futures ==>
          if s.worker == Working(id) then s.futures[id].Running? else s.futures[id].Done? || s.futures[id].Cancelled?)
    && (s.worker.Working? ==> s.worker.id in s.taken)
    && s.unfinished == |s.queue| + if s.worker.Working? then 1 else 0
  }

  ghost predicate IsInvariant(s: State) {
    IsMarked(s) && IsFifo(s) && AreFuturesRight(s)
  }

  lemma JobsOfRest(queue: seq<Item>)
    requires queue != []
    ensures Jobs(queue) == (if queue[0].Job? then [queue[0].id] else []) + Jobs(queue[1..])
  {}

  lemma SubmitKeepsInvariant(s: State, id: nat)
    requires IsInvariant(s) && id !in s.futures
    ensures IsInvariant(Next(s, Submit(id)))
  {
    if !s.stopped {
      JobsAppend(s.queue, Job(id));
      assert s.taken + (Jobs(s.queue) + [id]) == (s.taken + Jobs(s.queue)) + [id];
      assert id !in s.accepted;
    }
  }

  lemma ShutdownKeepsInvariant(s: State)
    requires IsInvariant(s)
    ensures IsInvariant(Next(s, Shutdown))
  {
    JobsAppend(s.queue, Sentinel);
    assert Jobs(s.queue) + [] == Jobs(s.queue);
  }

  lemma TakeKeepsInvariant(s: State)
    requires IsInvariant(s) && s.worker.Waiting? && s.queue != []
    ensures IsInvariant(Next(s, Take))
  {
    if s.queue[0].Sentinel? {
      assert s.queue == [Sentinel] && s.queue[1..] == [];
      JobsOfRest(s.queue);
    } else {
      TakingAJobKeepsMarks(s);
      TakingAJobKeepsOrder(s);
      TakingAJobKeepsFutures(s);
    }
  }

  lemma TakingAJobKeepsMarks(s: State)
    requires IsMarked(s) && s.worker.Waiting? && s.queue != [] && s.queue[0].Job?
    ensures IsMarked(Next(s, Take))
  {
    var rest := s.queue[1..];
    assert rest != [] ==> rest[|rest| - 1] == s.queue[|s.queue| - 1];
  }

  lemma TakingAJobKeepsOrder(s: State)
    requires IsFifo(s) && s.worker.Waiting? && s.queue != [] && s.queue[0].Job?
    ensures IsFifo(Next(s, Take))
  {
    var id, rest := s.queue[0].id, s.queue[1..];
    JobsOfRest(s.queue);
    assert (s.taken + [id]) + Jobs(rest) == s.taken + ([id] + Jobs(rest));
    assert id in s.accepted by { assert (s.taken + ([id] + Jobs(rest)))[|s.taken|] == id; }
  }

  lemma TakingAJobKeepsFutures(s: State)
    requires IsFifo(s) && AreFuturesRight(s) && s.worker.Waiting? && s.queue != [] && s.queue[0].Job?
    ensures AreFuturesRight(Next(s, Take))
  {
    var id, rest := s.queue[0].id, s.queue[1..];
    JobsOfRest(s.queue);
    TakenOnce(s.taken, id, Jobs(rest));
    assert forall x :: x in s.taken + [id] <==> x in s.taken || x == id;
  }

  /** In a list without repetitions the head of the rest is in neither part. */
  lemma TakenOnce(a: seq<nat>, id: nat, b: seq<nat>)
    requires AreDistinct(a + ([id] + b))
    ensures id !in a && id !in b && forall x :: x in a ==> x !in b
  {
    var all := a + ([id] + b);
    assert all[|a|] == id;
    assert forall i :: 0 <= i < |a| ==> all[i] == a[i];
    assert forall j :: 0 <= j < |b| ==> all[|a| + 1 + j] == b[j];
  }

  lemma FinishKeepsInvariant(s: State)
    requires IsInvariant(s) && s.worker.Working?
    ensures IsInvariant(Next(s, Finish))
  {
    var id := s.worker.id;
    assert id in s.accepted;
    assert s.futures[id].Running?;
    assert id !in Jobs(s.queue);
  }

  lemma StepKeepsInvariant(s: State, step: Step)
    requires IsInvariant(s) && IsEnabled(s, step)
    ensures IsInvariant(Next(s, step))
  {
    match step
    case Submit(id) => SubmitKeepsInvariant(s, id);
    case Shutdown => ShutdownKeepsInvariant(s);
    case Cancel(_) =>
    case Take => TakeKeepsInvariant(s);
    case Finish => FinishKeepsInvariant(s);
  }

  // ----- Every interleaving -------------------------------------------------

  ghost predicate IsRun(states: seq<State>, steps: seq<Step>) {
    && |states| == |steps| + 1 && states[0] == INITIAL
    && forall i {:trigger steps[i]} :: 0 <= i < |steps| ==>
         IsEnabled(states[i], steps[i]) && states[i + 1] == Next(states[i], steps[i])
  }

  lemma {:induction false} EveryReachableStateIsSound(states: seq<State>, steps: seq<Step>, i: nat)
    requires IsRun(states, steps) && i < |states|
    ensures IsInvariant(states[i])
  {
    if i == 0 {
    } else {
      EveryReachableStateIsSound(states, steps, i - 1);
      StepKeepsInvariant(states[i - 1], steps[i - 1]);
    }
  }

  /** Jobs run in the order they were accepted, each taken once, and the queue
      holds exactly the ones still to come. */
  lemma JobsAreTakenInOrder(states: seq<State>, steps: seq<Step>, i: nat)
    requires IsRun(states, steps) && i < |states|
    ensures states[i].accepted == states[i].taken + Jobs(states[i].queue) && AreDistinct(states[i].accepted)
  {
    EveryReachableStateIsSound(states, steps, i);
  }

  /** Once stopped, always stopped: whatever is submitted later is refused. */
  lemma {:induction false} NothingIsAcceptedAfterShutdown(states: seq<State>, steps: seq<Step>, i: nat, j: nat)
    requires IsRun(states, steps) && i <= j < |states| && states[i].stopped
    ensures states[j].stopped && states[j].accepted == states[i].accepted
  {
    if i == j {
    } else {
      NothingIsAcceptedAfterShutdown(states, steps, i, j - 1);
      assert IsEnabled(states[j - 1], steps[j - 1]);
    }
  }

  /** Whoever calls it, a shutdown stops the executor; and before the first job it
      leaves neither a thread nor anything queued, for ever. */
  lemma {:induction false} ShutdownsStop(states: seq<State>, steps: seq<Step>, i: nat, j: nat)
    requires IsRun(states, steps) && i < j < |states| && steps[i].Shutdown?
    ensures states[j].stopped
    ensures states[i].worker.NotStarted? ==> states[j].worker.NotStarted? && states[j].queue == []
  {
    assert IsEnabled(states[j - 1], steps[j - 1]) && states[j] == Next(states[j - 1], steps[j - 1]);
    EveryReachableStateIsSound(states, steps, j - 1);
    if i + 1 < j {
      ShutdownsStop(states, steps, i, j - 1);
    }
    StopsForGood(states[j - 1], steps[j - 1]);
  }

  lemma StopsForGood(s: State, step: Step)
    requires IsInvariant(s) && IsEnabled(s, step) && (s.stopped || step.Shutdown?)
    ensures Next(s, step).stopped
    ensures s.worker.NotStarted? ==> Next(s, step).worker.NotStarted? && Next(s, step).queue == []
  {}

  /** The one call that joins the thread is the one that tells it to stop. */
  lemma ShutdownJoinsExactly(s: State)
    ensures DoesShutdownJoin(s) <==> Next(s, Shutdown).queue == s.queue + [Sentinel]
    ensures !DoesShutdownJoin(s) ==> Next(s, Shutdown).queue == s.queue
  {
    assert |s.queue + [Sentinel]| != |s.queue|;
  }

  /** Cancelling takes a job that has not begun, and no other: it never runs
      then, whatever else is called. */
  lemma {:induction false} CancelledJobsNeverRun(states: seq<State>, steps: seq<Step>, id: nat, i: nat, j: nat)
    requires IsRun(states, steps) && i < j < |states| && steps[i] == Cancel(id)
    ensures id in states[i].futures && id in states[j].futures
    ensures states[j].futures[id].Cancelled? <==>
            states[i].futures[id].Pending? || states[i].futures[id].Cancelled?
    ensures !states[j].futures[id].Pending?
  {
    if i + 1 == j {
      assert IsEnabled(states[i], steps[i]) && states[j] == Next(states[i], steps[i]);
    } else {
      CancelledJobsNeverRun(states, steps, id, i, j - 1);
      EveryReachableStateIsSound(states, steps, j - 1);
      BegunJobsAreNotCancelled(states[j - 1], steps[j - 1], id);
    }
  }

  lemma BegunJobsAreNotCancelled(s: State, step: Step, id: nat)
    requires IsInvariant(s) && IsEnabled(s, step) && id in s.futures && !s.futures[id].Pending?
    ensures id in Next(s, step).futures && !Next(s, step).futures[id].Pending?
    ensures Next(s, step).futures[id].Cancelled? <==> s.futures[id].Cancelled?
  {}

  /** Every job ever accepted is over. */
  ghost predicate IsExhausted(s: State) {
    s.queue == [] && s.taken == s.accepted
    && forall id :: id in s.accepted ==> id in s.futures && (s.futures[id].Done? || s.futures[id].Cancelled?)
  }

  /** `drain` and the join of the stopping `shutdown` wait long enough: when
      the queue's count is zero, and when the thread has exited, every job
      accepted so far is over. */
  lemma WaitingIsEnough(states: seq<State>, steps: seq<Step>, i: nat)
    requires IsRun(states, steps) && i < |states|
    ensures states[i].unfinished == 0 <==> IsExhausted(states[i])
    ensures states[i].worker.Exited? ==> IsExhausted(states[i])
  {
    var s := states[i];
    EveryReachableStateIsSound(states, steps, i);
    if s.queue == [] {
      assert s.taken + [] == s.taken;
    }
    if s.worker.Working? {
      assert s.futures[s.worker.id].Running? by { assert s.worker.id in s.accepted; }
    }
  }

  /** The other call of `shutdown`, that finds the executor stopped, returns
      at once, and the queue is then empty exactly when the worker never
      started or has exited already: it does not wait for the first call. */
  lemma SecondShutdownIsEnoughExactly(states: seq<State>, steps: seq<Step>, i: nat)
    requires IsRun(states, steps) && i < |states| && states[i].stopped
    ensures !DoesShutdownJoin(states[i])
    ensures states[i].queue == [] && !states[i].worker.Working? <==>
            states[i].worker.NotStarted? || states[i].worker.Exited?
    ensures states[i].worker.NotStarted? || states[i].worker.Exited? ==> IsExhausted(states[i])
  {
    EveryReachableStateIsSound(states, steps, i);
    WaitingIsEnough(states, steps, i);
    var s := states[i];
    if s.worker.NotStarted? {
      assert s.taken == [] by { assert |s.taken| <= |s.accepted|; }
    }
  }

  /** One submit and two shutdowns: the second has returned, and the job has
      not even been taken. */
  lemma SecondShutdownReturnsEarly()
    ensures var steps := [Submit(0), Shutdown, Shutdown];
            exists states :: IsRun(states, steps) && !DoesShutdownJoin(states[2]) && !IsExhausted(states[3])
  {
    var one := Next(INITIAL, Submit(0));
    var two := Next(one, Shutdown);
    var states := [INITIAL, one, two, two];
    assert IsRun(states, [Submit(0), Shutdown, Shutdown]);
    assert 0 in two.accepted && two.futures[0].Pending?;
  }

  // ----- It always gets there -----------------------------------------------

  /** What the worker still has to do. */
  function Remaining(s: State): nat {
    2 * |s.queue| + if s.worker.Working? then 1 else 0
  }

  /** After a shutdown the worker is never stuck: until it has exited one of
      its steps is possible, each of them leaves less to do, and nothing anyone
      else does leaves more. So the first shutdown's join returns. */
  lemma StoppedWorkersExit(states: seq<State>, steps: seq<Step>, i: nat, step: Step)
    requires IsRun(states, steps) && i < |states| && states[i].stopped
    ensures states[i].worker.Waiting? || states[i].worker.Working? ==>
              IsEnabled(states[i], Take) || IsEnabled(states[i], Finish)
    ensures IsEnabled(states[i], step) ==>
              if step.Take? || step.Finish? then Remaining(Next(states[i], step)) < Remaining(states[i])
              else Remaining(Next(states[i], step)) == Remaining(states[i])
  {
    EveryReachableStateIsSound(states, steps, i);
  }
}
