/** What a sync that moved `main` did to the commits that were on it, for one
    sync and over whole histories.
*/
module SyncLaws {
  import opened Prelude
  import opened Git
  import opened Replay
  import opened RevList
  import opened RefLog

  // ----- One sync -----------------------------------------------------------

  /** The fate the rescue recorded for the `i`-th commit it listed, and the tip
      that commit met. */
  function FateOf(e: Event, i: nat): Fate
    requires e.Synced? && i < |Unpushed(e.listed)|
  {
    Rescue(e.target, Unpushed(e.listed), e.env).fates[i]
  }

  function TipMet(e: Event, i: nat): Commit
    requires e.Synced? && i <= |Unpushed(e.listed)|
  {
    Rescue(e.target, Unpushed(e.listed)[..i], e.env).tip
  }

  /** The `i`-th commit of a rescue, with a fate that is true of it: its own
      patch, replayed onto the tip it met and now on `main` above origin's; that
      tip held all of it already; or it was dropped, for a reason, and reported. */
  ghost predicate HasFate(e: Event, i: nat, x: Commit) {
    && e.Synced? && !Reaches(e.target, e.was) && i < |Unpushed(e.listed)| && Unpushed(e.listed)[i] == x
    && Reaches(e.to, TipMet(e, i)) && Reaches(TipMet(e, i), e.target)
    && FateIsTrue(TipMet(e, i), x, FateOf(e, i), e.env.FaultAt(i))
    && match FateOf(e, i)
       case Replayed(now) => Reaches(e.to, now) && !Reaches(e.target, now)
       case Redundant => true
       case Dropped => x in e.dropped
  }

  /** At or above origin's tip, `to` passes a commit that holds all `x` changed. */
  ghost predicate IsHeld(to: Commit, target: Commit, x: Commit) {
    x.parents != [] && exists tip :: Reaches(to, tip) && Reaches(tip, target) && AlreadyIn(tip.tree, x)
  }

  /** After a sync the commit is on `main`, some commit of the rebuilt `main` held
      what it changed, or it is reported as dropped. */
  ghost predicate IsAccountedFor(e: Event, x: Commit)
    requires e.Synced?
  {
    Reaches(e.to, x) || IsHeld(e.to, e.target, x) || x in e.dropped
  }

  lemma {:induction false} TipsClimb(target: Commit, cs: seq<Commit>, env: Env, i: nat)
    requires i <= |cs|
    ensures Reaches(Rescue(target, cs, env).tip, Rescue(target, cs[..i], env).tip)
    ensures Rescue(target, cs[..i], env).fates == Rescue(target, cs, env).fates[..i]
  {
    if i == |cs| {
      assert cs[..i] == cs;
    } else {
      var init := cs[..|cs| - 1];
      TipsClimb(target, init, env, i);
      assert init[..i] == cs[..i];
      var before := Rescue(target, init, env);
      StepIsTrue(before, cs[|cs| - 1], env);
      if before.tip != Rescue(target, cs, env).tip {
        ParentsReach(Rescue(target, cs, env).tip, before.tip);
        ReachesTransitive(Rescue(target, cs[..i], env).tip, before.tip, Rescue(target, cs, env).tip);
      }
    }
  }

  lemma {:induction false} DroppedAreReported(cs: seq<Commit>, fates: seq<Fate>, i: nat)
    requires |cs| == |fates| && i < |cs| && fates[i].Dropped?
    ensures cs[i] in DroppedOf(cs, fates)
  {
    if i == |cs| - 1 {
    } else {
      DroppedAreReported(cs[..|cs| - 1], fates[..|cs| - 1], i);
    }
  }

  lemma FatesAreTrue(e: Event, i: nat)
    requires e.Synced? && IsLawfulSync(e) && !Reaches(e.target, e.was) && i < |Unpushed(e.listed)|
    ensures HasFate(e, i, Unpushed(e.listed)[i])
  {
    var cs := Unpushed(e.listed);
    var before := TipMet(e, i);
    RescueAccountsForEveryCommit(e.target, cs, e.env, i);
    RescueDescendsFromOrigin(e.target, cs[..i], e.env);
    TipsClimb(e.target, cs, e.env, i);
    match FateOf(e, i)
    case Replayed(now) =>
      TipsClimb(e.target, cs, e.env, i + 1);
      RescueNextTip(e.target, cs, e.env, i);
      ParentsReach(now, before);
      if Reaches(e.target, now) {
        ReachesTransitive(now, e.target, before);
        AncestryIsAcyclic(before, now);
      }
    case Redundant =>
    case Dropped =>
      DroppedAreReported(cs, Rescue(e.target, cs, e.env).fates, i);
  }

  lemma RescueNextTip(target: Commit, cs: seq<Commit>, env: Env, i: nat)
    requires i < |cs| && Rescue(target, cs, env).fates[i].Replayed?
    ensures Rescue(target, cs[..i + 1], env).tip == Rescue(target, cs, env).fates[i].now
  {
    TipsClimb(target, cs, env, i + 1);
    assert cs[..i + 1][..i] == cs[..i];
    StepIsTrue(Rescue(target, cs[..i], env), cs[i], env);
  }

  /** Every commit that was on `main` before a sync is on it after, or was
      rescued with a fate that is true of it, provided the listing of the
      unpushed ones succeeded. */
  lemma SyncAccountsForMain(e: Event, x: Commit)
    requires e.Synced? && IsLawfulSync(e) && Reaches(e.was, x)
    requires e.listed.Some? || Reaches(e.target, e.was)
    ensures Reaches(e.to, x) || exists i :: HasFate(e, i, x)
  {
    if Reaches(e.target, e.was) {
      ReachesTransitive(x, e.was, e.target);
    } else if Reaches(e.target, x) {
      RescueDescendsFromOrigin(e.target, e.listed.value, e.env);
      ReachesTransitive(x, e.target, e.to);
    } else {
      assert x in Beyond(e.target, e.was) && x in e.listed.value;
      var i :| 0 <= i < |e.listed.value| && e.listed.value[i] == x;
      FatesAreTrue(e, i);
    }
  }

  /** A fate accounts for its commit. */
  lemma FatesAccount(e: Event, i: nat, x: Commit)
    requires HasFate(e, i, x)
    ensures IsAccountedFor(e, x)
  {
    match FateOf(e, i)
    case Replayed(now) =>
      ParentsReach(now, TipMet(e, i));
      ReachesTransitive(e.target, TipMet(e, i), now);
      assert AlreadyIn(now.tree, x);
    case _ =>
  }

  /** An unpushed commit some of whose content origin does not hold. */
  ghost predicate IsAtStake(target: Commit, was: Commit, x: Commit) {
    x in Beyond(target, was) && (x.parents == [] || !AlreadyIn(target.tree, x))
  }

  /** A failed listing is read as nothing to rescue. So a sync loses a commit
      without a word exactly when the listing failed and some unpushed commit
      held content that origin does not. */
  lemma SilentLossExactly(e: Event)
    requires e.Synced? && IsLawfulSync(e)
    ensures (exists x :: Reaches(e.was, x) && !IsAccountedFor(e, x)) <==>
            e.listed.None? && exists x :: IsAtStake(e.target, e.was, x)
  {
    if x :| Reaches(e.was, x) && !IsAccountedFor(e, x) {
      if e.listed.Some? || Reaches(e.target, e.was) {
        SyncAccountsForMain(e, x);
        var i :| HasFate(e, i, x);
        FatesAccount(e, i, x);
      }
      assert Reaches(e.target, e.target);
      assert IsAtStake(e.target, e.was, x);
    }
    if x :| e.listed.None? && IsAtStake(e.target, e.was, x) {
      if Reaches(e.target, e.was) {
        ReachesTransitive(x, e.was, e.target);
      }
      NothingRescued(e, x);
    }
  }

  lemma NothingRescued(e: Event, x: Commit)
    requires e.Synced? && IsLawfulSync(e) && e.listed.None? && !Reaches(e.target, e.was)
             && IsAtStake(e.target, e.was, x)
    ensures !IsAccountedFor(e, x)
  {
    if IsHeld(e.to, e.target, x) {
      var tip :| Reaches(e.to, tip) && Reaches(tip, e.target) && AlreadyIn(tip.tree, x);
      AncestryIsAcyclic(tip, e.target);
    }
  }

  // ----- A sync of linear work ----------------------------------------------

  lemma {:induction false} NothingReportedExactly(cs: seq<Commit>, fates: seq<Fate>)
    requires |cs| == |fates|
    ensures DroppedOf(cs, fates) == [] <==> NoDrops(fates)
  {
    if cs == [] {
    } else {
      var n := |cs| - 1;
      NothingReportedExactly(cs[..n], fates[..n]);
      assert NoDrops(fates) ==> NoDrops(fates[..n]);
      assert fates == fates[..n] + [fates[n]];
    }
  }

  ghost predicate IsRescueOfLinearWork(e: Event) {
    e.Synced? && IsLawfulSync(e) && e.listed.Some? && !Reaches(e.target, e.was) && HasNoMerges(e.target, e.was)
  }

  /** Some unpushed commit changed the path. */
  ghost predicate IsOurs(target: Commit, was: Commit, p: Path) {
    exists c :: c in Beyond(target, was) && Touches(c, p)
  }

  /** When the unpushed commits hold no merges and nothing is reported as
      dropped: a path one of them changed has the old `main`'s content and every
      other path origin's; so a path origin did not change since the fork has
      the old `main`'s. */
  lemma LinearSyncKeepsBothSides(e: Event) returns (fork: Commit)
    requires IsRescueOfLinearWork(e) && e.dropped == []
    ensures Reaches(e.target, fork) && Reaches(e.was, fork)
    ensures forall p :: At(e.to.tree, p) == At(if IsOurs(e.target, e.was, p) then e.was.tree else e.target.tree, p)
    ensures forall p :: At(e.target.tree, p) == At(fork.tree, p) ==> At(e.to.tree, p) == At(e.was.tree, p)
  {
    var cs := e.listed.value;
    fork := UnpushedIsAChain(cs, e.target, e.was);
    NothingReportedExactly(cs, Rescue(e.target, cs, e.env).fates);
    forall p
      ensures At(e.to.tree, p) == At(if IsOurs(e.target, e.was, p) then e.was.tree else e.target.tree, p)
      ensures At(e.target.tree, p) == At(fork.tree, p) ==> At(e.to.tree, p) == At(e.was.tree, p)
    {
      RescueKeepsBothSides(fork, e.target, cs, e.env, p);
      if c :| c in cs && Touches(c, p) {
        assert c in Beyond(e.target, e.was);
      }
    }
  }

  /** And when origin changed no path that local work changed, and git does not
      fail, nothing is dropped and the new `main` is the three-way merge. */
  lemma DisjointSyncIsTheMerge(e: Event, fork: Commit)
    requires IsRescueOfLinearWork(e) && e.env.faults == map[]
    requires IsLinear(fork, e.listed.value) && Replay.Head(fork, e.listed.value) == e.was
    requires forall p :: IsOurs(e.target, e.was, p) ==> At(e.target.tree, p) == At(fork.tree, p)
    ensures e.dropped == [] && Merge3(fork.tree, e.target.tree, e.was.tree) == Some(e.to.tree)
  {
    var cs := e.listed.value;
    forall p, c | c in cs && Touches(c, p)
      ensures At(e.target.tree, p) == At(fork.tree, p)
    {
      assert c in Beyond(e.target, e.was) && IsOurs(e.target, e.was, p);
    }
    DisjointEditsDropNothing(fork, e.target, cs, e.env);
    NothingReportedExactly(cs, Rescue(e.target, cs, e.env).fates);
  }

  // ----- Whole histories ----------------------------------------------------

  ghost predicate IsOn(log: seq<Event>, j: nat, y: Commit)
    requires j <= |log|
  {
    HistoryOf(log[..j]).main.Some? && Reaches(HistoryOf(log[..j]).main.value, y)
  }

  /** A move left the commit as it was, or replayed it. */
  ghost predicate Becomes(e: Event, x: Commit, now: Commit) {
    now == x || exists i :: HasFate(e, i, x) && FateOf(e, i) == Replayed(now)
  }

  /** A sync says that it did not carry the commit over: the tip it met held all
      of it, or it is reported as dropped. */
  ghost predicate IsGivenUp(e: Event, x: Commit) {
    exists i :: HasFate(e, i, x) && !FateOf(e, i).Replayed?
  }

  lemma UnpushedIsOnce(e: Event)
    requires e.Synced? && IsLawfulSync(e) && !Reaches(e.target, e.was)
    ensures IsOnce(Unpushed(e.listed))
  {}

  lemma OneFate(e: Event, i: nat, k: nat, x: Commit)
    requires HasFate(e, i, x) && HasFate(e, k, x) && IsOnce(Unpushed(e.listed))
    ensures i == k
  {
    var cs := Unpushed(e.listed);
    assert cs[i] == x && cs[k] == x;
  }

  /** A commit has one fate: what a sync replayed it has not given up. */
  lemma ReplayedIsNotGivenUp(e: Event, i: nat, x: Commit)
    requires e.Synced? && IsLawfulSync(e) && HasFate(e, i, x) && FateOf(e, i).Replayed?
    ensures !IsGivenUp(e, x)
  {
    UnpushedIsOnce(e);
    forall k | HasFate(e, k, x)
      ensures FateOf(e, k).Replayed?
    {
      OneFate(e, i, k, x);
    }
  }

  /** Nobody else moves `main` here, and listings succeed. */
  predicate IsOurMove(e: Event) {
    !e.OthersMovedMain? && (e.Synced? ==> e.listed.Some? || Reaches(e.target, e.was))
  }

  type Here = (nat, Commit) -> bool
  type Moving = (nat, Commit, Commit) -> bool

  /** Commits that hold at successive points, each moving to the next. */
  ghost predicate IsChain(on: Here, moves: Moving, i: nat, versions: seq<Commit>) {
    && versions != [] && (forall k :: 0 <= k < |versions| ==> on(i + k, versions[k]))
    && forall k :: 0 <= k < |versions| - 1 ==> IsLink(moves, i, versions, k)
  }

  ghost predicate IsLink(moves: Moving, i: nat, versions: seq<Commit>, k: nat)
    requires k + 1 < |versions|
  {
    moves(i + k, versions[k], versions[k + 1])
  }

  lemma ChainGrows(on: Here, moves: Moving, i: nat, versions: seq<Commit>, now: Commit)
    requires IsChain(on, moves, i, versions) && on(i + |versions|, now)
    requires moves(i + |versions| - 1, versions[|versions| - 1], now)
    ensures IsChain(on, moves, i, versions + [now])
  {
    var more := versions + [now];
    forall k | 0 <= k < |more| - 1
      ensures IsLink(moves, i, more, k)
    {
      assert k < |versions| - 1 ==> IsLink(moves, i, versions, k);
    }
  }

  ghost predicate GoesOn(on: Here, moves: Moving, ends: Here, n: nat, y: Commit) {
    ends(n, y) || exists y' :: moves(n, y, y') && on(n + 1, y')
  }

  ghost predicate AllGoOn(on: Here, moves: Moving, ends: Here, i: nat, j: nat) {
    forall n: nat, y {:trigger GoesOn(on, moves, ends, n, y)} | i <= n < j && on(n, y) :: GoesOn(on, moves, ends, n, y)
  }

  /** If whatever holds at a point ends there or moves to what holds at the next,
      there is a chain that ends or goes all the way. */
  lemma {:induction false} ChainsEndOrGoOn(on: Here, moves: Moving, ends: Here, i: nat, j: nat, x: Commit)
    returns (versions: seq<Commit>)
    requires i <= j && on(i, x)
    requires AllGoOn(on, moves, ends, i, j)
    ensures IsChain(on, moves, i, versions) && versions[0] == x
    ensures var last := i + |versions| - 1; last == j || (last < j && ends(last, versions[|versions| - 1]))
    decreases j
  {
    if j == i {
      versions := [x];
    } else {
      versions := ChainsEndOrGoOn(on, moves, ends, i, j - 1, x);
      var n, y := i + |versions| - 1, versions[|versions| - 1];
      assert on(i + (|versions| - 1), y);
      if n == j - 1 && !ends(n, y) {
        assert GoesOn(on, moves, ends, n, y);
        var y' :| moves(n, y, y') && on(n + 1, y');
        ChainGrows(on, moves, i, versions, y');
        versions := versions + [y'];
      }
    }
  }

  ghost function OnMain(log: seq<Event>): Here {
    (n: nat, y: Commit) => n <= |log| && IsOn(log, n, y)
  }

  ghost function StayedOrReplayed(log: seq<Event>): Moving {
    (n: nat, y: Commit, y': Commit) => n < |log| && Becomes(log[n], y, y')
  }

  ghost function GivenUp(log: seq<Event>): Here {
    (n: nat, y: Commit) => n < |log| && IsGivenUp(log[n], y)
  }

  lemma MovesGoOn(log: seq<Event>, n: nat, y: Commit)
    requires HistoryOf(log).lawful && n < |log| && IsOurMove(log[n]) && OnMain(log)(n, y)
    ensures GoesOn(OnMain(log), StayedOrReplayed(log), GivenUp(log), n, y)
  {
    var now := OneMove(log, n, y);
    if !IsGivenUp(log[n], y) {
      assert StayedOrReplayed(log)(n, y, now) && OnMain(log)(n + 1, now);
    }
  }

  lemma AllMovesGoOn(log: seq<Event>, i: nat, j: nat)
    requires HistoryOf(log).lawful && j <= |log|
    requires forall k {:trigger IsOurMove(log[k])} :: i <= k < j ==> IsOurMove(log[k])
    ensures AllGoOn(OnMain(log), StayedOrReplayed(log), GivenUp(log), i, j)
  {
    forall n: nat, y | i <= n < j && OnMain(log)(n, y)
      ensures GoesOn(OnMain(log), StayedOrReplayed(log), GivenUp(log), n, y)
    {
      MovesGoOn(log, n, y);
    }
  }

  /** As long as only lands and syncs move `main`, a commit that was on it at
      point `i` still is, as itself or as a replay of a replay, unless some sync
      on the way met its version of the time and gave it up. */
  lemma CommitsAreFollowed(log: seq<Event>, i: nat, j: nat, x: Commit) returns (versions: seq<Commit>)
    requires HistoryOf(log).lawful && i <= j <= |log| && IsOn(log, i, x)
    requires forall k {:trigger IsOurMove(log[k])} :: i <= k < j ==> IsOurMove(log[k])
    ensures IsChain(OnMain(log), StayedOrReplayed(log), i, versions) && versions[0] == x
    ensures var last := i + |versions| - 1;
            last == j || (last < j && GivenUp(log)(last, versions[|versions| - 1]))
  {
    AllMovesGoOn(log, i, j);
    versions := ChainsEndOrGoOn(OnMain(log), StayedOrReplayed(log), GivenUp(log), i, j, x);
  }

  /** One move: the commit is given up, or becomes something on the new `main`. */
  lemma OneMove(log: seq<Event>, n: nat, y: Commit) returns (now: Commit)
    requires HistoryOf(log).lawful && n < |log| && IsOurMove(log[n]) && IsOn(log, n, y)
    ensures IsGivenUp(log[n], y) || (Becomes(log[n], y, now) && IsOn(log, n + 1, now))
  {
    LawfulMove(log, n);
    MoveIsFollowed(HistoryOf(log[..n]), log[n], y);
    now := y;
    if !IsGivenUp(log[n], y) {
      now :| Becomes(log[n], y, now) && Reaches(HistoryOf(log[..n + 1]).main.value, now);
    }
  }

  lemma MoveIsFollowed(h: History, e: Event, y: Commit)
    requires Next(h, e).lawful && IsOurMove(e) && h.main.Some? && Reaches(h.main.value, y)
    ensures Next(h, e).main.Some?
    ensures IsGivenUp(e, y) || exists now :: Becomes(e, y, now) && Reaches(Next(h, e).main.value, now)
  {
    if e.Landed? {
      LawfulMoveKeepsMain(h, e, y);
    }
    if e.Synced? && !Reaches(e.to, y) {
      SyncAccountsForMain(e, y);
      var i :| HasFate(e, i, y);
      if FateOf(e, i).Replayed? {
        assert Becomes(e, y, FateOf(e, i).now);
      }
    } else {
      assert Becomes(e, y, y);
    }
  }

  // ----- An input that loses a commit ---------------------------------------

  const ROOT := Commit([], map[], "root", {}, 0)
  const OURS := Commit([ROOT], map["a" := "ours"], "ours", {}, 1)
  const THEIRS := Commit([ROOT], map[], "theirs", {}, 2)
  const RESET := Synced(OURS, THEIRS, THEIRS, None, Env(3, map[]), [])

  lemma OursIsAtStake()
    ensures !Reaches(THEIRS, OURS) && IsAtStake(THEIRS, OURS, OURS) && IsLawfulSync(RESET)
  {
    assert THEIRS.parents[0] == ROOT;
    assert Ancestors(ROOT) == {ROOT};
    assert Ancestors(THEIRS) == {THEIRS, ROOT};
    assert At(OURS.tree, "a") != At(ROOT.tree, "a") && Touches(OURS, "a");
  }

  /** Local `main` is one commit ahead of the root, origin another; a sync that
      resets the divergence loses the local one when its listing fails. */
  lemma FailedListingLosesACommit(log: seq<Event>)
    requires log == [OthersMovedMain(Some(OURS)), OthersMovedOrigin(Some(THEIRS)), RESET]
    ensures HistoryOf(log).lawful && HistoryOf(log).casualties == []
    ensures IsOn(log, 2, OURS) && !IsOn(log, 3, OURS) && !IsAccountedFor(RESET, OURS)
  {
    OursIsAtStake();
    NothingRescued(RESET, OURS);
    assert log[..1] == [] + [log[0]] && log[..2] == log[..1] + [log[1]] && log[..3] == log == log[..2] + [log[2]];
    HistoryAppend([], log[0]);
    HistoryAppend(log[..1], log[1]);
    HistoryAppend(log[..2], log[2]);
  }
}
