/** The per-repository lock (`git/locks.py`): a mutex inside each process and
    a file lock between processes. Every thread of every process runs
    `acquire` and `release` one step at a time, interleaved freely, and any
    process may die at any step.
*/
module RepoLock {
  import opened Prelude

  // ----- The registry -------------------------------------------------------

  class LockObject {
    const workspace: string
    const repo: string

    constructor (workspace: string, repo: string)
      ensures this.workspace == workspace && this.repo == repo
    {
      this.workspace, this.repo := workspace, repo;
    }
  }

  /** `_REGISTRY`, keyed by the resolved workspace and the repository. */
  class Registry {
    var locks: map<(string, string), LockObject>

    ghost predicate Valid()
      reads this
    {
      forall k :: k in locks ==> locks[k].workspace == k.0 && locks[k].repo == k.1
    }

    constructor ()
      ensures Valid() && locks == map[]
    {
      locks := map[];
    }

    /** `repo_lock`: one object per key, for ever; two keys never share one. */
    method RepoLockOf(workspace: string, repo: string) returns (lock: LockObject)
      requires Valid()
      modifies this
      ensures Valid() && (workspace, repo) in locks && lock == locks[(workspace, repo)]
      ensures (workspace, repo) in old(locks) ==> locks == old(locks)
      ensures forall k :: k in old(locks) ==> k in locks && locks[k] == old(locks)[k]
      ensures forall k :: k in locks && k != (workspace, repo) ==> locks[k] != lock
    {
      if (workspace, repo) !in locks {
        var created := new LockObject(workspace, repo);
        locks := locks[(workspace, repo) := created];
      }
      lock := locks[(workspace, repo)];
    }
  }

  // ----- Threads ------------------------------------------------------------

  datatype Thread = Thread(process: nat, id: nat)

  /** Where a thread is: outside; holding the process's mutex; holding the
      file lock too; inside, as the recorded owner; on the way out, no longer
      the owner; file lock dropped. */
  datatype Place = Outside | HasMutex | HasFileLock | Inside | Leaving | Unlocked

  /** The locked mutexes by process, each process's recorded owner, the
      process whose descriptor holds the file lock, and where threads are. */
  datatype World = World(mutexes: set<nat>, owners: map<nat, nat>, fileLock: Option<nat>, places: map<Thread, Place>)

  const INITIAL := World({}, map[], None, map[])

  function PlaceOf(w: World, t: Thread): Place {
    if t in w.places then w.places[t] else Outside
  }

  /** `is_held_by_current_thread`. */
  predicate IsHeldBy(w: World, t: Thread) {
    t.process in w.owners && w.owners[t.process] == t.id
  }

  datatype Step =
    | TakeMutex(t: Thread)
    | TakeFileLock(t: Thread)
    | FailToLock(t: Thread)
    | BecomeOwner(t: Thread)
    | GiveUpOwnership(t: Thread)
    | DropFileLock(t: Thread)
    | DropMutex(t: Thread)
    | Die(process: nat)

  /** `acquire` refuses its owner and otherwise waits for the mutex, then for
      the file lock; `release` refuses anyone but the owner. */
  predicate IsEnabled(w: World, step: Step) {
    match step
    case TakeMutex(t) => PlaceOf(w, t).Outside? && !IsHeldBy(w, t) && t.process !in w.mutexes
    case TakeFileLock(t) => PlaceOf(w, t).HasMutex? && w.fileLock.None?
    case FailToLock(t) => PlaceOf(w, t).HasMutex?
    case BecomeOwner(t) => PlaceOf(w, t).HasFileLock?
    case GiveUpOwnership(t) => IsHeldBy(w, t)
    case DropFileLock(t) => PlaceOf(w, t).Leaving?
    case DropMutex(t) => PlaceOf(w, t).Unlocked?
    case Die(_) => true
  }

  function At(w: World, t: Thread, place: Place): World {
    w.(places := w.places[t := place])
  }

  function Next(w: World, step: Step): World {
    match step
    case TakeMutex(t) => At(w, t, HasMutex).(mutexes := w.mutexes + {t.process})
    case TakeFileLock(t) => At(w, t, HasFileLock).(fileLock := Some(t.process))
    case FailToLock(t) => At(w, t, Outside).(mutexes := w.mutexes - {t.process})
    case BecomeOwner(t) => At(w, t, Inside).(owners := w.owners[t.process := t.id])
    case GiveUpOwnership(t) => At(w, t, Leaving).(owners := w.owners - {t.process})
    case DropFileLock(t) => At(w, t, Unlocked).(fileLock := None)
    case DropMutex(t) => At(w, t, Outside).(mutexes := w.mutexes - {t.process})
    case Die(p) =>
      World(w.mutexes - {p}, w.owners - {p}, if w.fileLock == Some(p) then None else w.fileLock,
            map t | t in w.places && t.process != p :: w.places[t])
  }

  // ----- The invariant ------------------------------------------------------

  predicate IsBusy(w: World, t: Thread) {
    !PlaceOf(w, t).Outside?
  }

  /** Past the file lock and not yet out of it. */
  predicate IsPastFileLock(w: World, t: Thread) {
    PlaceOf(w, t).HasFileLock? || PlaceOf(w, t).Inside? || PlaceOf(w, t).Leaving?
  }

  /** One busy thread per process, exactly where the mutex is locked. */
  ghost predicate IsMutexRight(w: World) {
    && (forall t, u :: IsBusy(w, t) && IsBusy(w, u) && t.process == u.process ==> t == u)
    && (forall t :: IsBusy(w, t) ==> t.process in w.mutexes)
  }

  /** The file lock is held exactly for a process with a thread past it. */
  ghost predicate IsFileLockRight(w: World) {
    && (forall t :: IsPastFileLock(w, t) ==> w.fileLock == Some(t.process))
    && (w.fileLock.Some? ==> exists t :: IsPastFileLock(w, t) && t.process == w.fileLock.value)
  }

  /** The owner field names a thread exactly while it is inside. */
  ghost predicate IsOwnerRight(w: World) {
    forall t :: IsHeldBy(w, t) <==> PlaceOf(w, t).Inside?
  }

  ghost predicate IsInvariant(w: World) {
    IsMutexRight(w) && IsFileLockRight(w) && IsOwnerRight(w)
  }

  lemma PlacesAfter(w: World, step: Step, t: Thread)
    ensures PlaceOf(Next(w, step), t) ==
            if step.Die? then (if t.process == step.process then Outside else PlaceOf(w, t))
            else if t == step.t then Moved(step) else PlaceOf(w, t)
  {}

  function Moved(step: Step): Place
    requires !step.Die?
  {
    match step
    case TakeMutex(_) => HasMutex
    case TakeFileLock(_) => HasFileLock
    case BecomeOwner(_) => Inside
    case GiveUpOwnership(_) => Leaving
    case DropFileLock(_) => Unlocked
    case FailToLock(_) | DropMutex(_) => Outside
  }

  lemma StepKeepsMutexRight(w: World, step: Step)
    requires IsInvariant(w) && IsEnabled(w, step)
    ensures IsMutexRight(Next(w, step))
  {
    var w' := Next(w, step);
    forall t
      ensures IsBusy(w', t) ==> IsBusy(w, t) || step == TakeMutex(t)
      ensures IsBusy(w', t) ==> t.process in w'.mutexes
    {
      PlacesAfter(w, step, t);
      if !step.Die? && t != step.t && IsBusy(w, t) && IsBusy(w, step.t) {
        assert t.process != step.t.process;
      }
    }
  }

  lemma StepKeepsFileLockRight(w: World, step: Step)
    requires IsInvariant(w) && IsEnabled(w, step)
    ensures IsFileLockRight(Next(w, step))
  {
    var w' := Next(w, step);
    forall t
      ensures PlaceOf(w', t) == if step.Die? then (if t.process == step.process then Outside else PlaceOf(w, t))
                                else if t == step.t then Moved(step) else PlaceOf(w, t)
    {
      PlacesAfter(w, step, t);
    }
    forall t | IsPastFileLock(w', t)
      ensures w'.fileLock == Some(t.process)
    {
      if step.DropFileLock? {
        assert IsPastFileLock(w, step.t) && IsBusy(w, step.t);
        assert IsBusy(w, t);
      }
    }
    if w'.fileLock.Some? {
      if step.TakeFileLock? {
        assert IsPastFileLock(w', step.t);
      } else {
        var t :| IsPastFileLock(w, t) && t.process == w.fileLock.value;
        assert IsPastFileLock(w', t);
      }
    }
  }

  lemma StepKeepsOwnerRight(w: World, step: Step)
    requires IsInvariant(w) && IsEnabled(w, step)
    ensures IsOwnerRight(Next(w, step))
  {
    var w' := Next(w, step);
    forall t
      ensures IsHeldBy(w', t) <==> PlaceOf(w', t).Inside?
    {
      PlacesAfter(w, step, t);
      if (step.BecomeOwner? || step.GiveUpOwnership?) && t != step.t && t.process == step.t.process {
        assert IsBusy(w, step.t) && !IsBusy(w, t);
      }
    }
  }

  // ----- Every interleaving -------------------------------------------------

  ghost predicate IsRun(worlds: seq<World>, steps: seq<Step>) {
    && |worlds| == |steps| + 1 && worlds[0] == INITIAL
    && forall i {:trigger steps[i]} :: 0 <= i < |steps| ==>
         IsEnabled(worlds[i], steps[i]) && worlds[i + 1] == Next(worlds[i], steps[i])
  }

  lemma {:induction false} EveryReachableWorldIsSound(worlds: seq<World>, steps: seq<Step>, i: nat)
    requires IsRun(worlds, steps) && i < |worlds|
    ensures IsInvariant(worlds[i])
  {
    if i == 0 {
    } else {
      EveryReachableWorldIsSound(worlds, steps, i - 1);
      StepKeepsMutexRight(worlds[i - 1], steps[i - 1]);
      StepKeepsFileLockRight(worlds[i - 1], steps[i - 1]);
      StepKeepsOwnerRight(worlds[i - 1], steps[i - 1]);
    }
  }

  /** At most one thread of all threads of all processes is inside, or even
      between taking the file lock and dropping it. */
  lemma AtMostOneHolder(worlds: seq<World>, steps: seq<Step>, i: nat, t: Thread, u: Thread)
    requires IsRun(worlds, steps) && i < |worlds| && IsPastFileLock(worlds[i], t) && IsPastFileLock(worlds[i], u)
    ensures t == u
  {
    EveryReachableWorldIsSound(worlds, steps, i);
    assert IsBusy(worlds[i], t) && IsBusy(worlds[i], u);
  }

  /** A thread reads itself as the owner exactly from the end of its acquire
      to the start of its release; so re-entry is always refused, and a
      release by anyone else too. */
  lemma OwnersAreInside(worlds: seq<World>, steps: seq<Step>, i: nat, t: Thread)
    requires IsRun(worlds, steps) && i < |worlds|
    ensures IsHeldBy(worlds[i], t) <==> PlaceOf(worlds[i], t).Inside?
    ensures PlaceOf(worlds[i], t).Inside? ==> !IsEnabled(worlds[i], TakeMutex(t))
    ensures !PlaceOf(worlds[i], t).Inside? ==> !IsEnabled(worlds[i], GiveUpOwnership(t))
  {
    EveryReachableWorldIsSound(worlds, steps, i);
    assert IsOwnerRight(worlds[i]);
  }

  /** The lock is never lost: when nobody is past the file lock it is free, so
      the next thread holding its mutex gets it, even after a holder died. */
  lemma TheFileLockIsNeverLost(worlds: seq<World>, steps: seq<Step>, i: nat)
    requires IsRun(worlds, steps) && i < |worlds|
    ensures worlds[i].fileLock.None? <==> forall t :: !IsPastFileLock(worlds[i], t)
  {
    EveryReachableWorldIsSound(worlds, steps, i);
  }

  // ----- Progress -----------------------------------------------------------

  /** A lock nobody holds can be taken by any thread, and given back by the one
      that took it; and a process that dies leaves nothing locked. */
  lemma FreeLocksCanBeTaken(w: World, t: Thread)
    requires IsInvariant(w) && t.process !in w.mutexes && w.fileLock.None?
    ensures IsEnabled(w, TakeMutex(t))
    ensures var first := Next(w, TakeMutex(t));
            var second := Next(first, TakeFileLock(t));
            var inside := Next(second, BecomeOwner(t));
            && IsEnabled(first, TakeFileLock(t)) && IsEnabled(second, BecomeOwner(t))
            && PlaceOf(inside, t).Inside? && IsHeldBy(inside, t)
            && !IsEnabled(inside, TakeMutex(t)) && IsEnabled(inside, GiveUpOwnership(t))
            && var left := Next(inside, GiveUpOwnership(t));
               var unlocked := Next(left, DropFileLock(t));
               && IsEnabled(left, DropFileLock(t)) && IsEnabled(unlocked, DropMutex(t))
               && var after := Next(unlocked, DropMutex(t));
                  PlaceOf(after, t).Outside? && after.mutexes == w.mutexes && after.fileLock.None?
  {
    assert !IsBusy(w, t);
  }

  lemma DeathsUnlock(w: World, process: nat, t: Thread)
    requires IsInvariant(w)
    ensures IsEnabled(w, Die(process))
    ensures var after := Next(w, Die(process));
            && process !in after.mutexes && after.fileLock != Some(process)
            && (t.process == process ==> PlaceOf(after, t).Outside? && !IsHeldBy(after, t))
            && (t.process != process ==> PlaceOf(after, t) == PlaceOf(w, t) && (IsHeldBy(after, t) <==> IsHeldBy(w, t)))
  {}
}
