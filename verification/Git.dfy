/** Git as the landing pipeline sees it: an immutable commit graph, trees as
    path-to-content maps, and the path-level three-way merge.

    A commit is a value that contains its parents, so the graph is acyclic by
    construction and two commits are the same exactly when everything in them
    is. `stamp` stands for what makes two commit objects distinct even with
    the same parents, tree and message (author, committer, clock).
*/
module Git {
  import opened Prelude

  type Path = string
  type Content = string
  type Tree = map<Path, Content>

  /** `attempts` are the values of the `Nightshift-Attempt` trailers of the
      message; `message` is the rest of it. */
  datatype Commit = Commit(parents: seq<Commit>, tree: Tree, message: string, attempts: set<string>, stamp: nat)

  /** The content at `p`, or None where the tree has no such path. */
  function At(t: Tree, p: Path): Option<Content> {
    if p in t then Some(t[p]) else None
  }

  lemma SameAtSameTree(s: Tree, t: Tree)
    requires forall p :: At(s, p) == At(t, p)
    ensures s == t
  {
    forall p
      ensures p in s <==> p in t
      ensures p in s ==> s[p] == t[p]
    {
      assert At(s, p) == At(t, p);
    }
  }

  // ----- Ancestry ---------------------------------------------------------

  /** Every commit reachable from `c`, itself included. */
  function Ancestors(c: Commit): set<Commit> {
    {c} + set i, a | 0 <= i < |c.parents| && a in Ancestors(c.parents[i]) :: a
  }

  /** `git merge-base --is-ancestor a c`. */
  predicate Reaches(c: Commit, a: Commit) {
    a in Ancestors(c)
  }

  lemma {:induction false} ReachesTransitive(a: Commit, b: Commit, c: Commit)
    requires Reaches(c, b) && Reaches(b, a)
    ensures Reaches(c, a)
    decreases c
  {
    if b == c {
    } else {
      var i :| 0 <= i < |c.parents| && b in Ancestors(c.parents[i]);
      ReachesTransitive(a, b, c.parents[i]);
    }
  }

  /** The graph has no cycles: a proper ancestor never reaches back. */
  lemma {:induction false} AncestryIsAcyclic(a: Commit, c: Commit)
    requires Reaches(c, a)
    ensures a == c || !Reaches(a, c)
    decreases c
  {
    ReachesIsSmaller(c, a);
    if Reaches(a, c) {
      ReachesIsSmaller(a, c);
    }
  }

  lemma {:induction false} ReachesIsSmaller(c: Commit, a: Commit)
    requires Reaches(c, a)
    ensures a == c || a < c
  {
    if a == c {
    } else {
      var i :| 0 <= i < |c.parents| && a in Ancestors(c.parents[i]);
      ReachesIsSmaller(c.parents[i], a);
    }
  }

  /** Every commit reachable from `c` was stamped before `n`. */
  ghost predicate StampsBelow(c: Commit, n: nat) {
    forall a :: a in Ancestors(c) ==> a.stamp < n
  }

  // ----- Trees and merging ------------------------------------------------

  /** A path all three sides disagree on. */
  predicate Clash(o: Option<Content>, a: Option<Content>, b: Option<Content>) {
    a != b && a != o && b != o
  }

  function Pick(o: Option<Content>, a: Option<Content>, b: Option<Content>): Option<Content> {
    if a == o then b else a
  }

  predicate ClashAt(base: Tree, ours: Tree, theirs: Tree, p: Path) {
    Clash(At(base, p), At(ours, p), At(theirs, p))
  }

  function ClashingPaths(base: Tree, ours: Tree, theirs: Tree): set<Path> {
    set p | p in base.Keys + ours.Keys + theirs.Keys && ClashAt(base, ours, theirs, p)
  }

  /** `git merge-tree --write-tree` at path granularity: None on a conflict. */
  function Merge3(base: Tree, ours: Tree, theirs: Tree): Option<Tree> {
    if exists p | p in base.Keys + ours.Keys + theirs.Keys :: ClashAt(base, ours, theirs, p) then None
    else Some(Merged(base, ours, theirs))
  }

  function Merged(base: Tree, ours: Tree, theirs: Tree): Tree {
    map p | p in ours.Keys + theirs.Keys && Pick(At(base, p), At(ours, p), At(theirs, p)).Some?
      :: Pick(At(base, p), At(ours, p), At(theirs, p)).value
  }

  /** What a merge gives, path by path: it fails exactly when some path has
      three different contents, and otherwise takes the side that moved. */
  lemma MergeByPath(base: Tree, ours: Tree, theirs: Tree)
    ensures Merge3(base, ours, theirs).None? <==> exists p :: ClashAt(base, ours, theirs, p)
    ensures Merge3(base, ours, theirs).Some? ==>
              forall p :: At(Merge3(base, ours, theirs).value, p) == Pick(At(base, p), At(ours, p), At(theirs, p))
  {
    if p :| ClashAt(base, ours, theirs, p) {
      assert p in base.Keys + ours.Keys + theirs.Keys;
    }
  }

  lemma MergeAt(base: Tree, ours: Tree, theirs: Tree, p: Path)
    requires Merge3(base, ours, theirs).Some?
    ensures !ClashAt(base, ours, theirs, p)
    ensures At(Merge3(base, ours, theirs).value, p) == Pick(At(base, p), At(ours, p), At(theirs, p))
  {
    MergeByPath(base, ours, theirs);
  }

  /** Merging is symmetric in its two sides. */
  lemma MergeIsSymmetric(base: Tree, ours: Tree, theirs: Tree)
    ensures Merge3(base, ours, theirs) == Merge3(base, theirs, ours)
  {
    MergeByPath(base, ours, theirs);
    MergeByPath(base, theirs, ours);
    assert forall p :: ClashAt(base, ours, theirs, p) <==> ClashAt(base, theirs, ours, p);
    if Merge3(base, ours, theirs).Some? {
      forall p
        ensures At(Merge3(base, ours, theirs).value, p) == At(Merge3(base, theirs, ours).value, p)
      {
        assert !ClashAt(base, ours, theirs, p);
      }
      SameAtSameTree(Merge3(base, ours, theirs).value, Merge3(base, theirs, ours).value);
    }
  }

  /** Merging `theirs` a second time into the result changes nothing. */
  lemma MergeIsIdempotent(base: Tree, ours: Tree, theirs: Tree)
    requires Merge3(base, ours, theirs).Some?
    ensures Merge3(base, Merge3(base, ours, theirs).value, theirs) == Merge3(base, ours, theirs)
  {
    var m := Merge3(base, ours, theirs).value;
    MergeByPath(base, ours, theirs);
    MergeByPath(base, m, theirs);
    forall p
      ensures !ClashAt(base, m, theirs, p) && At(Merged(base, m, theirs), p) == At(m, p)
    {
      MergeAt(base, ours, theirs, p);
    }
    SameAtSameTree(Merge3(base, m, theirs).value, m);
  }

  /** The best common ancestors of two commits (`git merge-base --all`). */
  function MergeBases(a: Commit, b: Commit): set<Commit> {
    var common := Ancestors(a) * Ancestors(b);
    set x | x in common && forall y | y in common :: y == x || x !in Ancestors(y)
  }

  /** They are common ancestors that lie below no other one; and below some
      of them lies every common ancestor. */
  lemma MergeBasesAreBest(a: Commit, b: Commit, x: Commit)
    ensures x in MergeBases(a, b) ==>
              Reaches(a, x) && Reaches(b, x) && forall y :: Reaches(a, y) && Reaches(b, y) && y != x ==> !Reaches(y, x)
    ensures Reaches(a, x) && Reaches(b, x) ==> exists best :: best in MergeBases(a, b) && Reaches(best, x)
  {
    if Reaches(a, x) && Reaches(b, x) {
      var best := BestAbove(a, b, x, Ancestors(a) * Ancestors(b));
    }
  }

  lemma {:induction false} BestAbove(a: Commit, b: Commit, x: Commit, left: set<Commit>) returns (best: Commit)
    requires Reaches(a, x) && Reaches(b, x)
    requires forall y :: Reaches(a, y) && Reaches(b, y) && y != x && Reaches(y, x) ==> y in left
    ensures best in MergeBases(a, b) && Reaches(best, x)
    decreases |left|
  {
    if y :| Reaches(a, y) && Reaches(b, y) && y != x && Reaches(y, x) {
      forall z | Reaches(a, z) && Reaches(b, z) && z != y && Reaches(z, y)
        ensures z in left - {y}
      {
        ReachesTransitive(x, y, z);
        AncestryIsAcyclic(x, y);
        if z == x {
          AncestryIsAcyclic(y, x);
        }
      }
      best := BestAbove(a, b, y, left - {y});
      ReachesTransitive(x, y, best);
    } else {
      best := x;
      forall y | y in Ancestors(a) * Ancestors(b)
        ensures y == x || x !in Ancestors(y)
      {
        assert y != x ==> !Reaches(y, x);
      }
    }
  }

  /** A commit on top of `base` that the other side does not contain leaves
      the merge bases as they were. */
  lemma MergeBasesOfChild(child: Commit, base: Commit, other: Commit)
    requires child.parents == [base] && !Reaches(other, child)
    ensures MergeBases(child, other) == MergeBases(base, other)
  {
    assert Ancestors(child) == {child} + Ancestors(base) by {
      assert child.parents[0] == base;
    }
    assert Ancestors(child) * Ancestors(other) == Ancestors(base) * Ancestors(other);
  }
}
