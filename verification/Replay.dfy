/** The plumbing cherry-pick (`refs.replay_commit`) and what folding it over
    the unpushed commits does to content (the divergence rescue of
    `sync._sync_main_to_origin_impl`).
*/
module Replay {
  import opened Prelude
  import opened Git

  /** `sha` is None on failure; `conflict` tells a merge conflict from a
      commit that cannot be replayed at all. */
  datatype ReplayResult = ReplayResult(sha: Option<Commit>, conflict: bool)

  /** What git itself may fail at: the merge, naming the merged tree, or
      writing the commit. */
  datatype Fault = NoFault | MergeFails | NoTreeNamed | CommitFails

  /** Replay `c` onto `base` as one three-way merge against `c`'s parent.
      `stamp` is the identity a freshly written commit gets, `trailer` the
      optional attempt trailer. A merge that fails for any reason is taken for
      a conflict. */
  function ReplayCommit(base: Commit, c: Commit, trailer: Option<string>, stamp: nat, fault: Fault): ReplayResult {
    if c.parents == [] then ReplayResult(None, false)
    else
      var merged := Merge3(c.parents[0].tree, base.tree, c.tree);
      if merged.None? || fault.MergeFails? then ReplayResult(None, true)
      else if fault.NoTreeNamed? then ReplayResult(None, false)
      else if merged.value == base.tree then ReplayResult(Some(base), false)
      else if fault.CommitFails? then ReplayResult(None, false)
      else
        var attempts := c.attempts + (if trailer.Some? then {trailer.value} else {});
        ReplayResult(Some(Commit([base], merged.value, c.message, attempts, stamp)), false)
  }

  /** The commit changes path `p` relative to its (first) parent. */
  predicate Touches(c: Commit, p: Path) {
    c.parents != [] && At(c.tree, p) != At(c.parents[0].tree, p)
  }

  /** Overwriting `t` at exactly the paths `c` touches, with `c`'s content. */
  ghost predicate IsPatched(t: Tree, c: Commit, r: Tree) {
    forall p :: At(r, p) == if Touches(c, p) then At(c.tree, p) else At(t, p)
  }

  /** `base` already differs, at a path `c` touches, from both sides of `c`. */
  predicate Overtaken(base: Commit, c: Commit, p: Path) {
    Touches(c, p) && At(base.tree, p) != At(c.parents[0].tree, p) && At(base.tree, p) != At(c.tree, p)
  }

  /** A replay is exactly the commit's own patch: the result is `base` or one
      new child of it, and its content is `base` with the touched paths
      overwritten. It is `base` itself exactly when the patch is already in. */
  lemma ReplayIsThePatch(base: Commit, c: Commit, trailer: Option<string>, stamp: nat, fault: Fault)
    requires ReplayCommit(base, c, trailer, stamp, fault).sha.Some?
    ensures var r := ReplayCommit(base, c, trailer, stamp, fault).sha.value;
            && IsPatched(base.tree, c, r.tree)
            && (r == base || (r.parents == [base] && r.stamp == stamp && r.message == c.message
                              && r.attempts == c.attempts + (if trailer.Some? then {trailer.value} else {})))
            && (r == base <==> AlreadyIn(base.tree, c))
  {
    var r := ReplayCommit(base, c, trailer, stamp, fault).sha.value;
    MergedIsPatched(base, c);
    if r != base {
      assert base < r by { assert r.parents[0] == base; }
    }
  }

  /** Every path `c` touches already holds `c`'s content. */
  ghost predicate AlreadyIn(t: Tree, c: Commit) {
    forall p :: Touches(c, p) ==> At(t, p) == At(c.tree, p)
  }

  lemma MergedIsPatched(base: Commit, c: Commit)
    requires c.parents != [] && Merge3(c.parents[0].tree, base.tree, c.tree).Some?
    ensures var t := Merge3(c.parents[0].tree, base.tree, c.tree).value;
            IsPatched(base.tree, c, t) && (t == base.tree <==> AlreadyIn(base.tree, c))
  {
    var t := Merge3(c.parents[0].tree, base.tree, c.tree).value;
    forall p
      ensures At(t, p) == if Touches(c, p) then At(c.tree, p) else At(base.tree, p)
    {
      MergeAt(c.parents[0].tree, base.tree, c.tree, p);
    }
    if AlreadyIn(base.tree, c) {
      SameAtSameTree(t, base.tree);
    }
    if t == base.tree {
      forall p | Touches(c, p)
        ensures At(base.tree, p) == At(c.tree, p)
      {
        assert At(t, p) == At(c.tree, p);
      }
    }
  }

  /** A replay fails exactly when the commit has no parent, some touched path
      was overtaken, or git failed at a step that was needed; it is taken for a
      conflict when a path was overtaken or the merge itself failed. */
  lemma ReplayFailsExactly(base: Commit, c: Commit, trailer: Option<string>, stamp: nat, fault: Fault)
    ensures var r := ReplayCommit(base, c, trailer, stamp, fault);
            && (r.sha.None? <==>
                || c.parents == []
                || (exists p :: Overtaken(base, c, p))
                || fault.MergeFails? || fault.NoTreeNamed?
                || (fault.CommitFails? && !AlreadyIn(base.tree, c)))
            && (r.conflict <==> (c.parents != [] && fault.MergeFails?) || exists p :: Overtaken(base, c, p))
  {
    if c.parents != [] {
      var parent := c.parents[0].tree;
      MergeByPath(parent, base.tree, c.tree);
      if p :| ClashAt(parent, base.tree, c.tree, p) {
        assert Overtaken(base, c, p);
      }
      if p :| Overtaken(base, c, p) {
        assert ClashAt(parent, base.tree, c.tree, p);
      }
      if Merge3(parent, base.tree, c.tree).Some? {
        MergedIsPatched(base, c);
      }
    }
  }

  // ----- The rescue: a fold over the unpushed commits ---------------------

  /** What became of one unpushed commit. */
  datatype Fate = Replayed(now: Commit) | Redundant | Dropped

  /** The environment of one rescue: which replays git fails, and the first
      stamp; the i-th replay is stamped `stamp + i`. */
  datatype Env = Env(stamp: nat, faults: map<nat, Fault>) {
    function FaultAt(i: nat): Fault {
      if i in faults then faults[i] else NoFault
    }
  }

  datatype Rescued = Rescued(tip: Commit, fates: seq<Fate>)

  function Step(r: Rescued, c: Commit, env: Env): Rescued {
    var replay := ReplayCommit(r.tip, c, None, env.stamp + |r.fates|, env.FaultAt(|r.fates|));
    if replay.sha.None? then r.(fates := r.fates + [Dropped])
    else if replay.sha.value == r.tip then r.(fates := r.fates + [Redundant])
    else Rescued(replay.sha.value, r.fates + [Replayed(replay.sha.value)])
  }

  /** Replaying `cs`, oldest first, onto `target`. */
  function Rescue(target: Commit, cs: seq<Commit>, env: Env): (r: Rescued)
    ensures |r.fates| == |cs|
  {
    if cs == [] then Rescued(target, [])
    else Step(Rescue(target, cs[..|cs| - 1], env), cs[|cs| - 1], env)
  }

  /** One step of the fold: the tip's content and the fate that is recorded. */
  lemma StepIsTrue(r: Rescued, c: Commit, env: Env)
    ensures var s := Step(r, c, env);
            && |s.fates| == |r.fates| + 1
            && s.fates[..|r.fates|] == r.fates
            && FateIsTrue(r.tip, c, s.fates[|r.fates|], env.FaultAt(|r.fates|))
            && s.tip == (if s.fates[|r.fates|].Replayed? then s.fates[|r.fates|].now else r.tip)
            && (s.fates[|r.fates|].Dropped? || IsPatched(r.tip.tree, c, s.tip.tree))
  {
    var stamp, fault := env.stamp + |r.fates|, env.FaultAt(|r.fates|);
    ReplayFailsExactly(r.tip, c, None, stamp, fault);
    if ReplayCommit(r.tip, c, None, stamp, fault).sha.Some? {
      ReplayIsThePatch(r.tip, c, None, stamp, fault);
    }
  }

  /** The dropped commits in order: what the caller is told about. */
  function DroppedOf(cs: seq<Commit>, fates: seq<Fate>): seq<Commit>
    requires |cs| == |fates|
  {
    if cs == [] then []
    else DroppedOf(cs[..|cs| - 1], fates[..|cs| - 1])
         + if fates[|cs| - 1].Dropped? then [cs[|cs| - 1]] else []
  }

  /** The next round of the replay loop. */
  lemma RescueNext(target: Commit, cs: seq<Commit>, i: nat, env: Env)
    requires i < |cs|
    ensures var before, r := Rescue(target, cs[..i], env), Rescue(target, cs[..i + 1], env);
            var replayed := ReplayCommit(before.tip, cs[i], None, env.stamp + i, env.FaultAt(i)).sha;
            && r.tip == (if replayed.None? then before.tip else replayed.value)
            && DroppedOf(cs[..i + 1], r.fates)
               == DroppedOf(cs[..i], before.fates) + (if replayed.None? then [cs[i]] else [])
  {
    var before := Rescue(target, cs[..i], env);
    assert cs[..i + 1][..i] == cs[..i];
    assert Step(before, cs[i], env).fates[..i] == before.fates;
  }

  /** The replayed commits in order, under their new identity. */
  function ReplayedOf(fates: seq<Fate>): seq<Commit> {
    if fates == [] then []
    else ReplayedOf(fates[..|fates| - 1])
         + if fates[|fates| - 1].Replayed? then [fates[|fates| - 1].now] else []
  }

  /** The last commit of `cs` that survived and touches `p`. */
  function LastTouch(cs: seq<Commit>, fates: seq<Fate>, p: Path): Option<Commit>
    requires |cs| == |fates|
  {
    if cs == [] then None
    else if !fates[|cs| - 1].Dropped? && Touches(cs[|cs| - 1], p) then Some(cs[|cs| - 1])
    else LastTouch(cs[..|cs| - 1], fates[..|cs| - 1], p)
  }

  /** Main content theorem of the rescue, for every list of commits, every
      drop and every fault: each path holds what the last surviving commit
      that touches it says, and origin's content where none does. */
  lemma {:induction false} RescuePreservesContent(target: Commit, cs: seq<Commit>, env: Env, p: Path)
    ensures var r := Rescue(target, cs, env);
            At(r.tip.tree, p) == match LastTouch(cs, r.fates, p) {
              case None => At(target.tree, p)
              case Some(c) => At(c.tree, p)
            }
  {
    if cs == [] {
    } else {
      var before := Rescue(target, cs[..|cs| - 1], env);
      RescuePreservesContent(target, cs[..|cs| - 1], env, p);
      StepIsTrue(before, cs[|cs| - 1], env);
    }
  }

  /** The commits between `from` and `tip` along first parents, oldest first. */
  ghost predicate IsFirstParentChain(from: Commit, chain: seq<Commit>, tip: Commit)
    decreases |chain|
  {
    if chain == [] then tip == from
    else tip == chain[|chain| - 1] && |tip.parents| == 1
         && IsFirstParentChain(from, chain[..|chain| - 1], tip.parents[0])
  }

  /** The new tip descends from origin's, and what lies between the two is
      exactly the replayed commits, in order. */
  lemma {:induction false} RescueDescendsFromOrigin(target: Commit, cs: seq<Commit>, env: Env)
    ensures var r := Rescue(target, cs, env);
            Reaches(r.tip, target) && IsFirstParentChain(target, ReplayedOf(r.fates), r.tip)
  {
    if cs == [] {
    } else {
      var before, r := Rescue(target, cs[..|cs| - 1], env), Rescue(target, cs, env);
      RescueDescendsFromOrigin(target, cs[..|cs| - 1], env);
      StepIsTrue(before, cs[|cs| - 1], env);
      assert r.fates[..|r.fates| - 1] == before.fates;
      if r.fates[|cs| - 1].Replayed? {
        assert Reaches(r.tip, before.tip) by { assert r.tip.parents[0] == before.tip; }
        ReachesTransitive(target, before.tip, r.tip);
        var chain := ReplayedOf(r.fates);
        assert chain == ReplayedOf(before.fates) + [r.tip];
        assert chain[..|chain| - 1] == ReplayedOf(before.fates);
        assert IsFirstParentChain(target, chain[..|chain| - 1], r.tip.parents[0]);
      } else {
        assert ReplayedOf(r.fates) == ReplayedOf(before.fates);
      }
    }
  }

  /** Every unpushed commit is, in order, replayed, redundant or dropped, and
      the recorded fate is true of it against the tip it met: its own patch
      and message when replayed, nothing to add when redundant, and no parent, an
      overtaken path or a failure of git exactly when dropped. */
  lemma {:induction false} RescueAccountsForEveryCommit(target: Commit, cs: seq<Commit>, env: Env, i: nat)
    requires i < |cs|
    ensures FateIsTrue(Rescue(target, cs[..i], env).tip, cs[i], Rescue(target, cs, env).fates[i],
                       if i in env.faults then env.faults[i] else NoFault)
  {
    var init := cs[..|cs| - 1];
    StepIsTrue(Rescue(target, init, env), cs[|cs| - 1], env);
    if i < |init| {
      RescueAccountsForEveryCommit(target, init, env, i);
      assert init[..i] == cs[..i];
    }
  }

  ghost predicate FateIsTrue(tip: Commit, c: Commit, fate: Fate, fault: Fault) {
    match fate
    case Replayed(now) => IsReplayOf(now, c) && now.parents == [tip] && !IsDoomed(tip, c, fault)
    case Redundant => c.parents != [] && AlreadyIn(tip.tree, c) && !IsDoomed(tip, c, fault)
    case Dropped => IsDoomed(tip, c, fault)
  }

  /** A replay of `c` onto `tip` cannot succeed: there is no parent, a path is
      overtaken, or git fails at a point the replay gets to. */
  ghost predicate IsDoomed(tip: Commit, c: Commit, fault: Fault) {
    || c.parents == []
    || (exists p :: Overtaken(tip, c, p))
    || fault.MergeFails? || fault.NoTreeNamed?
    || (fault.CommitFails? && !AlreadyIn(tip.tree, c))
  }

  /** `now` carries `c`'s own patch and message on top of its parent. */
  ghost predicate IsReplayOf(now: Commit, c: Commit) {
    && c.parents != [] && |now.parents| == 1 && now.message == c.message && now.attempts == c.attempts
    && IsPatched(now.parents[0].tree, c, now.tree)
  }

  // ----- Linear histories -------------------------------------------------

  /** `cs` is the chain of commits from just above `fork` up to its last. */
  predicate IsLinear(fork: Commit, cs: seq<Commit>) {
    forall i :: 0 <= i < |cs| ==> |cs[i].parents| == 1 && cs[i].parents[0] == Head(fork, cs[..i])
  }

  function Head(fork: Commit, cs: seq<Commit>): Commit {
    if cs == [] then fork else cs[|cs| - 1]
  }

  lemma LinearPrefix(fork: Commit, cs: seq<Commit>)
    requires IsLinear(fork, cs) && cs != []
    ensures IsLinear(fork, cs[..|cs| - 1])
    ensures cs[|cs| - 1].parents == [Head(fork, cs[..|cs| - 1])]
  {
    var init := cs[..|cs| - 1];
    forall i | 0 <= i < |init|
      ensures |init[i].parents| == 1 && init[i].parents[0] == Head(fork, init[..i])
    {
      assert init[..i] == cs[..i];
    }
  }

  predicate NoDrops(fates: seq<Fate>) {
    forall i :: 0 <= i < |fates| ==> !fates[i].Dropped?
  }

  lemma {:induction false} HeadContent(fork: Commit, cs: seq<Commit>, fates: seq<Fate>, p: Path)
    requires IsLinear(fork, cs) && |cs| == |fates| && NoDrops(fates)
    ensures At(Head(fork, cs).tree, p) == match LastTouch(cs, fates, p) {
              case None => At(fork.tree, p)
              case Some(c) => At(c.tree, p)
            }
  {
    if cs == [] {
    } else {
      LinearPrefix(fork, cs);
      HeadContent(fork, cs[..|cs| - 1], fates[..|cs| - 1], p);
    }
  }

  /** With no drops, every path a local commit touched holds the local head's
      content, whether origin touched it too or not, and every other path
      origin's. So a path origin left alone holds the local head's. */
  lemma RescueKeepsBothSides(fork: Commit, target: Commit, cs: seq<Commit>, env: Env, p: Path)
    requires IsLinear(fork, cs) && NoDrops(Rescue(target, cs, env).fates)
    ensures var tip := Rescue(target, cs, env).tip;
            && (At(target.tree, p) == At(fork.tree, p) ==> At(tip.tree, p) == At(Head(fork, cs).tree, p))
            && At(tip.tree, p)
              == At(if exists c :: c in cs && Touches(c, p) then Head(fork, cs).tree else target.tree, p)
  {
    var r := Rescue(target, cs, env);
    RescuePreservesContent(target, cs, env, p);
    HeadContent(fork, cs, r.fates, p);
    LastTouchIsAMember(cs, r.fates, p);
    if c :| c in cs && Touches(c, p) {
      TouchedPathsHaveALast(cs, r.fates, c, p);
    }
  }

  lemma {:induction false} TouchedPathsHaveALast(cs: seq<Commit>, fates: seq<Fate>, c: Commit, p: Path)
    requires |cs| == |fates| && NoDrops(fates) && c in cs && Touches(c, p)
    ensures LastTouch(cs, fates, p).Some?
  {
    if cs[|cs| - 1] == c {
    } else {
      TouchedPathsHaveALast(cs[..|cs| - 1], fates[..|cs| - 1], c, p);
    }
  }

  lemma {:induction false} LastTouchIsAMember(cs: seq<Commit>, fates: seq<Fate>, p: Path)
    requires |cs| == |fates|
    ensures LastTouch(cs, fates, p).Some? ==>
              LastTouch(cs, fates, p).value in cs && Touches(LastTouch(cs, fates, p).value, p)
  {
    if cs == [] {
    } else {
      LastTouchIsAMember(cs[..|cs| - 1], fates[..|cs| - 1], p);
    }
  }

  /** Origin changed no path that a local commit touches. */
  ghost predicate Disjoint(fork: Commit, target: Commit, cs: seq<Commit>) {
    forall p, c :: c in cs && Touches(c, p) ==> At(target.tree, p) == At(fork.tree, p)
  }

  /** Disjoint edits drop nothing, and the rebuilt tip is then exactly the
      three-way merge of the two lines of work. */
  lemma {:induction false} DisjointEditsDropNothing(fork: Commit, target: Commit, cs: seq<Commit>, env: Env)
    requires IsLinear(fork, cs) && Disjoint(fork, target, cs) && env.faults == map[]
    ensures var r := Rescue(target, cs, env);
            && NoDrops(r.fates)
            && Merge3(fork.tree, target.tree, Head(fork, cs).tree) == Some(r.tip.tree)
  {
    NothingDropped(fork, target, cs, env);
    var r, head := Rescue(target, cs, env), Head(fork, cs);
    forall p
      ensures At(r.tip.tree, p) == Pick(At(fork.tree, p), At(target.tree, p), At(head.tree, p))
      ensures !ClashAt(fork.tree, target.tree, head.tree, p)
    {
      RescuePreservesContent(target, cs, env, p);
      HeadContent(fork, cs, r.fates, p);
      LastTouchIsAMember(cs, r.fates, p);
    }
    MergeByPath(fork.tree, target.tree, head.tree);
    SameAtSameTree(r.tip.tree, Merge3(fork.tree, target.tree, head.tree).value);
  }

  lemma {:induction false} NothingDropped(fork: Commit, target: Commit, cs: seq<Commit>, env: Env)
    requires IsLinear(fork, cs) && Disjoint(fork, target, cs) && env.faults == map[]
    ensures NoDrops(Rescue(target, cs, env).fates)
  {
    if cs == [] {
    } else {
      var init, c := cs[..|cs| - 1], cs[|cs| - 1];
      LinearPrefix(fork, cs);
      NothingDropped(fork, target, init, env);
      var before := Rescue(target, init, env);
      forall p
        ensures !Overtaken(before.tip, c, p)
      {
        if Touches(c, p) {
          RescueKeepsBothSides(fork, target, init, env, p);
        }
      }
      ReplayFailsExactly(before.tip, c, None, env.stamp + |before.fates|, NoFault);
      StepIsTrue(before, c, env);
    }
  }
}
