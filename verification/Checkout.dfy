/** The operator's checkout (`refs.checkout_state`, `refs.advance_checkout`):
    HEAD, the index and the working tree, and the two-tree `read-tree -m -u`
    that carries them forward after `refs/heads/main` has moved.
*/
module Checkout {
  import opened Prelude
  import opened Git

  /** What HEAD is: attached to `main`, attached to another branch,
      or detached at a commit. */
  datatype Head = OnMain | OnBranch(at: Commit) | Detached(at: Commit)

  datatype WorkTree = WorkTree(index: Tree, files: Tree)

  /** The commit HEAD resolves to; None on an unborn branch. */
  function HeadCommit(head: Head, main: Option<Commit>): Option<Commit> {
    match head
    case OnMain => main
    case OnBranch(at) => Some(at)
    case Detached(at) => Some(at)
  }

  /** `p` carries uncommitted work relative to `tree`: staged, unstaged or
      untracked. */
  predicate Dirty(tree: Tree, w: WorkTree, p: Path) {
    At(w.index, p) != At(tree, p) || At(w.files, p) != At(w.index, p)
  }

  /** A path the two-tree merge would have to overwrite but must not. */
  predicate Blocks(was: Tree, tip: Tree, w: WorkTree, p: Path) {
    At(was, p) != At(tip, p) && Dirty(was, w, p) && At(w.index, p) != At(tip, p)
  }

  /** The paths the merge rewrites: changed between the trees, and clean. */
  predicate Rewrites(was: Tree, tip: Tree, w: WorkTree, p: Path) {
    At(was, p) != At(tip, p) && !Dirty(was, w, p)
  }

  function Overwrite(t: Tree, was: Tree, tip: Tree, w: WorkTree): Tree {
    map p | p in t.Keys + tip.Keys && (if Rewrites(was, tip, w, p) then p in tip else p in t)
      :: if Rewrites(was, tip, w, p) then tip[p] else t[p]
  }

  /** `git read-tree -m -u was tip`: None when it refuses (touching nothing). */
  function ReadTree(was: Tree, tip: Tree, w: WorkTree): Option<WorkTree> {
    if exists p | p in was.Keys + tip.Keys :: Blocks(was, tip, w, p) then None
    else Some(WorkTree(Overwrite(w.index, was, tip, w), Overwrite(w.files, was, tip, w)))
  }

  /** The checkout as captured before a ref move. */
  datatype CheckoutState = CheckoutState(sha: Option<Commit>, head: Head)

  datatype Advanced = Advanced(ok: bool, head: Head, work: WorkTree)

  /** `advance_checkout`, with `detached` telling whether git managed to
      detach HEAD after a refusal (the source ignores that failure). */
  function Advance(checkout: CheckoutState, tip: Commit, head: Head, w: WorkTree, detached: bool): Advanced {
    if checkout.sha.None? || checkout.sha.value == tip then Advanced(true, head, w)
    else if checkout.head.OnBranch? then Advanced(true, head, w)
    else if checkout.head.Detached? then Advanced(false, head, w)
    else
      var moved := ReadTree(checkout.sha.value.tree, tip.tree, w);
      if moved.Some? then Advanced(true, head, moved.value)
      else Advanced(false, if detached then Detached(checkout.sha.value) else head, w)
  }

  /** The path changes between the trees, its index entry is not yet the new
      one, and its entry and file are not both the old one. */
  predicate IsInTheWay(was: Tree, tip: Tree, w: WorkTree, p: Path) {
    && At(tip, p) != At(was, p) && At(tip, p) != At(w.index, p)
    && !(At(w.index, p) == At(was, p) && At(w.files, p) == At(was, p))
  }

  /** The two-tree merge refuses exactly when some path is in its way. When it
      goes through, a path has the new content in index and file where both had
      the old one, and everything else is as it was. */
  lemma ReadTreeAt(was: Tree, tip: Tree, w: WorkTree, p: Path)
    ensures ReadTree(was, tip, w).None? <==> exists q :: IsInTheWay(was, tip, w, q)
    ensures ReadTree(was, tip, w).Some? ==>
              var moved := ReadTree(was, tip, w).value;
              if At(w.index, p) == At(was, p) && At(w.files, p) == At(was, p)
              then At(moved.index, p) == At(tip, p) && At(moved.files, p) == At(tip, p)
              else At(moved.index, p) == At(w.index, p) && At(moved.files, p) == At(w.files, p)
  {
    if q :| IsInTheWay(was, tip, w, q) {
      assert q in was.Keys + tip.Keys && Blocks(was, tip, w, q);
    }
    if q :| Blocks(was, tip, w, q) {
      assert IsInTheWay(was, tip, w, q);
    }
  }

  /** Whatever happens, and whatever HEAD and the refs are by now: a path with
      unstaged or untracked work keeps both its index entry and its file, and
      every other path still has the file its index entry says. */
  lemma UnstagedWorkIsNeverTouched(checkout: CheckoutState, tip: Commit, head: Head, w: WorkTree, detached: bool,
                                   p: Path)
    ensures var r := Advance(checkout, tip, head, w, detached).work;
            if At(w.files, p) != At(w.index, p)
            then At(r.files, p) == At(w.files, p) && At(r.index, p) == At(w.index, p)
            else At(r.files, p) == At(r.index, p)
  {
    if checkout.sha.Some? {
      ReadTreeAt(checkout.sha.value.tree, tip.tree, w, p);
    }
  }

  // ----- A move of main and the advance after it ----------------------------

  /** The tree HEAD shows; empty on an unborn branch. */
  function HeadTree(head: Head, main: Option<Commit>): Tree {
    var at := HeadCommit(head, main);
    if at.Some? then at.value.tree else map[]
  }

  /** An operator on another branch, or detached, sees that commit's tree
      wherever `main` is. */
  lemma OtherHeadsStay(head: Head, main: Option<Commit>, main': Option<Commit>)
    ensures head.OnMain? || HeadTree(head, main) == HeadTree(head, main') == head.at.tree
    ensures HeadTree(OnMain, main) == if main.Some? then main.value.tree else map[]
  {}

  /** Where `main` is once a land or a sync has swapped `base` for `to`. When
      the two are the same nothing is swapped, and `main` is wherever others
      have put it since `base` was read. */
  function MainAfter(base: Commit, to: Commit, main: Option<Commit>): Option<Commit> {
    if to == base then main else Some(to)
  }

  /** The advance reads the tree of the commit captured before the move. */
  predicate IsRead(checkout: CheckoutState, to: Commit) {
    checkout.head.OnMain? && checkout.sha.Some? && checkout.sha.value != to
  }

  predicate IsRefused(checkout: CheckoutState, to: Commit, w: WorkTree)
    requires IsRead(checkout, to)
  {
    var was := checkout.sha.value.tree;
    exists p | p in was.Keys + to.tree.Keys :: Blocks(was, to.tree, w, p)
  }

  /** The advance reports success: there is nothing to do, the operator is on
      another branch, or no path stands in the way. */
  predicate Advances(checkout: CheckoutState, to: Commit, w: WorkTree) {
    if IsRead(checkout, to) then !IsRefused(checkout, to, w)
    else checkout.sha.None? || checkout.sha.value == to || checkout.head.OnBranch?
  }

  /** The captured commit is not where `main` was swapped: the advance takes a
      path for clean that is dirty, and rewrites it. */
  predicate IsOverwritten(checkout: CheckoutState, to: Commit, main: Option<Commit>, w: WorkTree, p: Path) {
    && IsRead(checkout, to) && !IsRefused(checkout, to, w)
    && Rewrites(checkout.sha.value.tree, to.tree, w, p)
    && At(checkout.sha.value.tree, p) != At(HeadTree(OnMain, main), p)
  }

  /** A clean path ends up dirty. With HEAD on `main` there are three ways: the
      checkout was carried forward from a commit `main` had left by then; it
      was refused and left at such a commit; or it was not carried at all. */
  predicate IsSoiled(checkout: CheckoutState, base: Commit, to: Commit, main: Option<Commit>, w: WorkTree,
                     detached: bool, p: Path)
  {
    && checkout.head.OnMain?
    && var was := At(HeadTree(OnMain, main), p);
       if IsRead(checkout, to) && !IsRefused(checkout, to, w) then
         if to == base then At(checkout.sha.value.tree, p) == was && was != At(to.tree, p)
         else At(checkout.sha.value.tree, p) != was && was != At(to.tree, p)
       else if IsRead(checkout, to) && detached then At(checkout.sha.value.tree, p) != was
       else At(HeadTree(OnMain, MainAfter(base, to, main)), p) != was
  }

  /** What a swap of `main` from `base` to `to`, with the advance after it, may
      do to one path: a dirty path keeps its file and index entry unless it is
      overwritten, and a clean one stays clean unless it is soiled. */
  ghost predicate IsCarriedAt(checkout: CheckoutState, base: Commit, to: Commit, main: Option<Commit>, w: WorkTree,
                              head': Head, main': Option<Commit>, w': WorkTree, detached: bool, p: Path)
  {
    if Dirty(HeadTree(checkout.head, main), w, p)
    then (At(w'.files, p) == At(w.files, p) && At(w'.index, p) == At(w.index, p))
         <==> !IsOverwritten(checkout, to, main, w, p)
    else Dirty(HeadTree(head', main'), w', p) <==> IsSoiled(checkout, base, to, main, w, detached, p)
  }

  /** Main theorem, for a checkout captured at any time before the swap, with
      `main` moved by others in between or not: exactly which dirty paths
      change and exactly which clean paths become dirty. HEAD itself is still
      attached where it was. */
  lemma CarriedExactly(checkout: CheckoutState, base: Commit, to: Commit, main: Option<Commit>, w: WorkTree,
                       detached: bool, p: Path)
    requires to == base || main == Some(base)
    requires checkout.head.OnMain? || checkout.sha == HeadCommit(checkout.head, main)
    ensures var r := Advance(checkout, to, checkout.head, w, detached);
            && (r.ok <==> Advances(checkout, to, w))
            && IsCarriedAt(checkout, base, to, main, w, r.head, MainAfter(base, to, main), r.work, detached, p)
  {
    if IsRead(checkout, to) {
      ReadTreeAt(checkout.sha.value.tree, to.tree, w, p);
    }
  }

  /** When `main` was still at the captured commit, no dirty path changes in any
      outcome, and a clean path becomes dirty exactly when the advance is
      refused, HEAD cannot be detached and the move changes that path. */
  lemma AdvanceNeverHarmsOperatorWork(checkout: CheckoutState, to: Commit, main: Commit, w: WorkTree, detached: bool,
                                      p: Path)
    requires checkout.sha == HeadCommit(checkout.head, Some(main))
    ensures var r := Advance(checkout, to, checkout.head, w, detached);
            if Dirty(HeadTree(checkout.head, Some(main)), w, p)
            then At(r.work.files, p) == At(w.files, p) && At(r.work.index, p) == At(w.index, p)
            else Dirty(HeadTree(r.head, Some(to)), r.work, p) <==>
                 IsRead(checkout, to) && IsRefused(checkout, to, w) && !detached && At(main.tree, p) != At(to.tree, p)
  {
    CarriedExactly(checkout, main, to, Some(main), w, detached, p);
  }

  /** The advance from where `main` was succeeds exactly when there is nothing
      to advance, or no dirty path stands in the way; then HEAD is untouched,
      and a path is dirty afterwards only if it was dirty before. */
  lemma AdvanceSucceedsExactly(before: Commit, tip: Commit, w: WorkTree, detached: bool)
    ensures var r := Advance(CheckoutState(Some(before), OnMain), tip, OnMain, w, detached);
            && (r.ok <==> before == tip || forall p :: !Blocks(before.tree, tip.tree, w, p))
            && (r.ok ==> r.head == OnMain && forall p :: Dirty(tip.tree, r.work, p) ==> Dirty(before.tree, w, p))
            && (!r.ok ==> r.work == w && (detached ==> r.head == Detached(before)))
  {
    var checkout := CheckoutState(Some(before), OnMain);
    var r := Advance(checkout, tip, OnMain, w, detached);
    if p :| Blocks(before.tree, tip.tree, w, p) {
      assert p in before.tree.Keys + tip.tree.Keys;
    }
    forall p | r.ok && Dirty(tip.tree, r.work, p)
      ensures Dirty(before.tree, w, p)
    {
      AdvanceNeverHarmsOperatorWork(checkout, tip, before, w, detached, p);
    }
  }

  /** A redundant land that meets an operator commit: the base was read, the
      operator committed on top of it in the clean checkout, and the advance
      takes the checkout back to the base. The land is reported as successful,
      and every path the commit changed is dirty. */
  lemma RedundantLandRewindsTheCheckout(base: Commit, mine: Commit, detached: bool, p: Path)
    requires mine != base
    ensures var checkout, w := CheckoutState(Some(mine), OnMain), WorkTree(mine.tree, mine.tree);
            var r := Advance(checkout, base, OnMain, w, detached);
            && r.ok && r.head == OnMain && MainAfter(base, base, Some(mine)) == Some(mine)
            && !Dirty(mine.tree, w, p)
            && (Dirty(mine.tree, r.work, p) <==> At(mine.tree, p) != At(base.tree, p))
            && (IsSoiled(checkout, base, base, Some(mine), w, detached, p) <==> At(mine.tree, p) != At(base.tree, p))
  {
    var w := WorkTree(mine.tree, mine.tree);
    assert !IsRefused(CheckoutState(Some(mine), OnMain), base, w);
    ReadTreeAt(mine.tree, base.tree, w, p);
  }
}
