/** `git rev-list --reverse target..head`: the commits of the head that the
    target does not contain, oldest first.
*/
module RevList {
  import opened Prelude
  import opened Git
  import opened Replay

  function Beyond(target: Commit, head: Commit): set<Commit> {
    Ancestors(head) - Ancestors(target)
  }

  /** What a listing that succeeded holds: exactly those commits, each once,
      and each but the head itself before one of its own children. (Git walks
      from the head by date, so with skewed clocks not before all of them.) */
  predicate IsUnpushed(listed: seq<Commit>, target: Commit, head: Commit) {
    Lists(listed, Beyond(target, head)) && IsOnce(listed) && IsOldestFirst(listed, head)
  }

  predicate Lists(listed: seq<Commit>, cs: set<Commit>) {
    (forall c :: c in listed ==> c in cs) && (forall c :: c in cs ==> c in listed)
  }

  predicate IsOnce(listed: seq<Commit>) {
    forall i, j :: 0 <= i < j < |listed| ==> listed[i] != listed[j]
  }

  predicate IsOldestFirst(listed: seq<Commit>, head: Commit) {
    forall i {:trigger HasChildAfter(listed, i)} :: 0 <= i < |listed| ==> listed[i] == head || HasChildAfter(listed, i)
  }

  predicate HasChildAfter(listed: seq<Commit>, i: nat)
    requires i < |listed|
  {
    exists j :: i < j < |listed| && listed[i] in listed[j].parents
  }

  /** The command, by its two ends; None when it fails. */
  type Listing = (Commit, Commit) -> Option<seq<Commit>>

  ghost predicate IsRevList(listing: Listing) {
    forall target, head :: listing(target, head).Some? ==> IsUnpushed(listing(target, head).value, target, head)
  }

  // ----- Such a listing always exists ---------------------------------------

  predicate HasChildIn(cs: set<Commit>, c: Commit) {
    exists d | d in cs :: c in d.parents
  }

  /** Everything in `cs` but the head has a child in it. */
  ghost predicate IsRooted(cs: set<Commit>, head: Commit) {
    forall c {:trigger HasChildIn(cs, c)} :: c in cs ==> c == head || HasChildIn(cs, c)
  }

  lemma ParentsReach(c: Commit, p: Commit)
    requires p in c.parents
    ensures Reaches(c, p) && p < c
  {
    var i :| 0 <= i < |c.parents| && c.parents[i] == p;
    assert p in Ancestors(c.parents[i]);
  }

  lemma {:induction false} BeyondIsRooted(target: Commit, head: Commit, c: Commit)
    requires c in Beyond(target, head) && c != head
    ensures HasChildIn(Beyond(target, head), c)
    decreases head
  {
    var i :| 0 <= i < |head.parents| && c in Ancestors(head.parents[i]);
    if c == head.parents[i] {
      if Reaches(target, head) {
        ParentsReach(head, c);
        ReachesTransitive(c, head, target);
      }
    } else {
      BeyondIsRooted(target, head.parents[i], c);
      var d :| d in Beyond(target, head.parents[i]) && c in d.parents;
      ParentsReach(head, head.parents[i]);
      ReachesTransitive(d, head.parents[i], head);
    }
  }

  /** Some commit of a non-empty set has no parent in it. */
  lemma {:induction false} SomeCommitIsOldest(cs: set<Commit>, c: Commit) returns (oldest: Commit)
    requires c in cs
    ensures oldest in cs && forall p :: p in oldest.parents ==> p !in cs
    decreases c
  {
    if p :| p in c.parents && p in cs {
      ParentsReach(c, p);
      oldest := SomeCommitIsOldest(cs, p);
    } else {
      oldest := c;
    }
  }

  lemma {:induction false} RootedSetsCanBeListed(cs: set<Commit>, head: Commit) returns (listed: seq<Commit>)
    requires IsRooted(cs, head)
    ensures Lists(listed, cs) && IsOnce(listed) && IsOldestFirst(listed, head)
    decreases |cs|
  {
    if cs == {} {
      listed := [];
    } else {
      var c :| c in cs;
      var oldest := SomeCommitIsOldest(cs, c);
      assert oldest == head || HasChildIn(cs, oldest);
      StaysRooted(cs, head, oldest);
      var rest := RootedSetsCanBeListed(cs - {oldest}, head);
      listed := [oldest] + rest;
      OldestGoesFirst(cs, oldest, rest, head);
    }
  }

  lemma StaysRooted(cs: set<Commit>, head: Commit, oldest: Commit)
    requires IsRooted(cs, head) && forall p :: p in oldest.parents ==> p !in cs
    ensures IsRooted(cs - {oldest}, head)
  {
    forall c | c in cs - {oldest} && c != head
      ensures HasChildIn(cs - {oldest}, c)
    {
      assert HasChildIn(cs, c);
    }
  }

  lemma OldestGoesFirst(cs: set<Commit>, oldest: Commit, rest: seq<Commit>, head: Commit)
    requires oldest in cs && Lists(rest, cs - {oldest}) && IsOldestFirst(rest, head)
    requires oldest == head || HasChildIn(cs, oldest)
    ensures IsOldestFirst([oldest] + rest, head)
  {
    var listed := [oldest] + rest;
    if oldest != head {
      var d :| d in cs && oldest in d.parents;
      ParentsReach(d, oldest);
      assert d in rest;
      var j :| 0 <= j < |rest| && rest[j] == d;
      assert listed[j + 1] == d && HasChildAfter(listed, 0);
    }
    forall i | 0 < i < |listed| && listed[i] != head
      ensures HasChildAfter(listed, i)
    {
      assert listed[i] == rest[i - 1] && HasChildAfter(rest, i - 1);
      var j :| i - 1 < j < |rest| && rest[i - 1] in rest[j].parents;
      assert listed[j + 1] == rest[j];
    }
  }

  lemma UnpushedCanBeListed(target: Commit, head: Commit) returns (listed: seq<Commit>)
    ensures IsUnpushed(listed, target, head)
  {
    forall c | c in Beyond(target, head) && c != head
      ensures HasChildIn(Beyond(target, head), c)
    {
      BeyondIsRooted(target, head, c);
    }
    listed := RootedSetsCanBeListed(Beyond(target, head), head);
  }

  // ----- Without merges it is the chain up to the head ----------------------

  ghost predicate HasNoMerges(target: Commit, head: Commit) {
    forall c :: c in Beyond(target, head) ==> |c.parents| == 1
  }

  ghost predicate HaveOneParent(listed: seq<Commit>) {
    forall i :: 0 <= i < |listed| ==> |listed[i].parents| == 1
  }

  lemma {:induction false} NextIsTheChild(listed: seq<Commit>, head: Commit, i: nat)
    requires IsOnce(listed) && IsOldestFirst(listed, head) && HaveOneParent(listed) && i < |listed| - 1
    requires listed[|listed| - 1] == head
    ensures listed[i + 1].parents[0] == listed[i]
    decreases |listed| - i
  {
    assert HasChildAfter(listed, i);
    var j :| i < j < |listed| && listed[i] in listed[j].parents;
    assert listed[j].parents[0] == listed[i];
    if j > i + 1 {
      NextIsTheChild(listed, head, j - 1);
    }
  }

  lemma HeadIsListedLast(listed: seq<Commit>, head: Commit)
    requires IsOldestFirst(listed, head) && listed != []
    ensures listed[|listed| - 1] == head
  {
    assert !HasChildAfter(listed, |listed| - 1);
  }

  lemma OneParentEachIsAChain(listed: seq<Commit>, head: Commit) returns (fork: Commit)
    requires IsOnce(listed) && IsOldestFirst(listed, head) && HaveOneParent(listed) && listed != []
    ensures IsLinear(fork, listed) && Replay.Head(fork, listed) == head && listed[0].parents == [fork]
  {
    HeadIsListedLast(listed, head);
    fork := listed[0].parents[0];
    forall i | 0 <= i < |listed|
      ensures |listed[i].parents| == 1 && listed[i].parents[0] == Replay.Head(fork, listed[..i])
    {
      LinkOfTheChain(listed, head, fork, i);
    }
  }

  lemma LinkOfTheChain(listed: seq<Commit>, head: Commit, fork: Commit, i: nat)
    requires IsOnce(listed) && IsOldestFirst(listed, head) && HaveOneParent(listed) && i < |listed|
    requires listed[|listed| - 1] == head && listed[0].parents[0] == fork
    ensures |listed[i].parents| == 1 && listed[i].parents[0] == Replay.Head(fork, listed[..i])
  {
    if i > 0 {
      NextIsTheChild(listed, head, i - 1);
      assert listed[..i][i - 1] == listed[i - 1];
    }
  }

  /** The chain starts at a commit both sides have, and ends at the head. */
  lemma UnpushedIsAChain(listed: seq<Commit>, target: Commit, head: Commit) returns (fork: Commit)
    requires IsUnpushed(listed, target, head) && HasNoMerges(target, head) && !Reaches(target, head)
    ensures IsLinear(fork, listed) && Replay.Head(fork, listed) == head
    ensures Reaches(target, fork) && Reaches(head, fork)
  {
    assert head in Beyond(target, head) && head in listed;
    assert HaveOneParent(listed) by {
      forall i | 0 <= i < |listed|
        ensures |listed[i].parents| == 1
      {
        assert listed[i] in listed && listed[i] in Beyond(target, head);
      }
    }
    fork := OneParentEachIsAChain(listed, head);
    ForkIsShared(listed, fork, target, head);
  }

  lemma ForkIsShared(listed: seq<Commit>, fork: Commit, target: Commit, head: Commit)
    requires Lists(listed, Beyond(target, head)) && IsLinear(fork, listed) && listed != []
             && listed[0].parents == [fork]
    ensures Reaches(target, fork) && Reaches(head, fork)
  {
    assert listed[0] in Beyond(target, head);
    ParentsReach(listed[0], fork);
    ReachesTransitive(fork, listed[0], head);
    if !Reaches(target, fork) {
      assert fork in Beyond(target, head) && fork in listed;
      var m :| 0 <= m < |listed| && listed[m] == fork;
      LaterReachesEarlier(listed, fork, 0, m);
      AncestryIsAcyclic(fork, listed[0]);
    }
  }

  lemma {:induction false} LaterReachesEarlier(listed: seq<Commit>, fork: Commit, i: nat, m: nat)
    requires IsLinear(fork, listed) && i <= m < |listed|
    ensures Reaches(listed[m], listed[i])
  {
    if i == m {
    } else {
      LaterReachesEarlier(listed, fork, i, m - 1);
      assert listed[m].parents[0] == Replay.Head(fork, listed[..m]) == listed[m - 1];
      ParentsReach(listed[m], listed[m - 1]);
      ReachesTransitive(listed[i], listed[m - 1], listed[m]);
    }
  }
}
