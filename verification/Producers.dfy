/** The producers a land runs on the fresh tip (`squash_produce`,
    `cherry_produce`, `delete_produce`) and what makes a land idempotent: a
    second squash of the same branch is refused, and the trailer scan of
    `find_landed_attempt` keeps a crashed land from landing twice.
*/
module Producers {
  import opened Prelude
  import opened Git
  import opened Replay
  import opened Landing
  import opened Lifecycle
  import Frontmatter
  import RefLog
  import RevList

  /** What git merges against when the best common ancestors are these: the
      ancestor's own tree when there is one, some merge of them otherwise. */
  type MergeBaseTree = set<Commit> -> Tree

  /** `git merge-tree --write-tree base branch`: the two are refused outright
      when they have no common history. */
  function MergeTree(base: Commit, branch: Commit, baseTree: MergeBaseTree): Option<Tree> {
    if MergeBases(base, branch) == {} then None
    else Merge3(baseTree(MergeBases(base, branch)), base.tree, branch.tree)
  }

  /** `squash_produce`: the branch as one commit on the base. A missing
      branch, a conflict and an empty squash are all refusals. */
  function SquashProduce(branch: Option<Commit>, title: string, attempt: Option<string>, baseTree: MergeBaseTree,
                         base: Commit, stamp: nat): ProduceResult
  {
    if branch.None? then Refused({})
    else
      var merged := MergeTree(base, branch.value, baseTree);
      if merged.None? then
        Refused(if MergeBases(base, branch.value) == {} then {}
                else ClashingPaths(baseTree(MergeBases(base, branch.value)), base.tree, branch.value.tree))
      else if merged.value == base.tree then Refused({})
      else
        Produced(Commit([base], merged.value, title, if attempt.Some? then {attempt.value} else {}, stamp))
  }

  /** `cherry_produce`: the resolved commit replayed onto the base. */
  function CherryProduce(resolved: Option<Commit>, attempt: Option<string>, base: Commit, stamp: nat): ProduceResult {
    if resolved.None? then Refused({})
    else if resolved.value == base then Produced(base)
    else
      var replayed := ReplayCommit(base, resolved.value, attempt, stamp, NoFault);
      if replayed.sha.None? then Refused({}) else Produced(replayed.sha.value)
  }

  /** The companion edit of a removal: the base and the paths being deleted
      from it, to the files it rewrites. */
  type Rewrite = (Commit, set<Path>) -> Tree

  /** `delete_produce`: drop the paths present in the base, write the edits,
      and collapse to the base when there is nothing to do. */
  function DeleteProduce(paths: set<Path>, message: string, rewrite: Rewrite, base: Commit, stamp: nat): ProduceResult {
    var existing := paths * base.tree.Keys;
    var edits := rewrite(base, existing);
    if existing == {} && edits == map[] then Produced(base)
    else Produced(Commit([base], (base.tree - existing) + edits, message, {}, stamp))
  }

  /** Each producer keeps the contract the landing loop relies on. */
  lemma ProducersAreLawful(branch: Option<Commit>, title: string, attempt: Option<string>, baseTree: MergeBaseTree,
                           paths: set<Path>, rewrite: Rewrite)
    ensures IsLawful((base: Commit, stamp: nat) => SquashProduce(branch, title, attempt, baseTree, base, stamp))
    ensures IsLawful((base: Commit, stamp: nat) => CherryProduce(branch, attempt, base, stamp))
    ensures IsLawful((base: Commit, stamp: nat) => DeleteProduce(paths, title, rewrite, base, stamp))
  {
    forall base, stamp | CherryProduce(branch, attempt, base, stamp).Produced?
      ensures var sha := CherryProduce(branch, attempt, base, stamp).sha;
              sha == base || (sha.parents == [base] && sha.stamp == stamp)
    {
      if branch.value != base {
        ReplayIsThePatch(base, branch.value, attempt, stamp, NoFault);
      }
    }
  }

  // ----- What the producers write -------------------------------------------

  /** A squash commit is one child of the base that holds, path by path, what
      the branch changed since the merge base and the base's content everywhere
      else; and it carries exactly the attempt it was made for. */
  lemma SquashHoldsBothSides(branch: Commit, title: string, attempt: Option<string>, baseTree: MergeBaseTree,
                             base: Commit, stamp: nat, p: Path)
    requires SquashProduce(Some(branch), title, attempt, baseTree, base, stamp).Produced?
    ensures var sha := SquashProduce(Some(branch), title, attempt, baseTree, base, stamp).sha;
            var fork := baseTree(MergeBases(base, branch));
            && sha.parents == [base] && sha.message == title && sha.stamp == stamp
            && (forall a :: a in sha.attempts <==> attempt == Some(a))
            && At(sha.tree, p) == if At(branch.tree, p) != At(fork, p) then At(branch.tree, p) else At(base.tree, p)
  {
    MergeAt(baseTree(MergeBases(base, branch)), base.tree, branch.tree, p);
  }

  /** A squash is refused exactly without a branch, without a common history,
      when both sides changed some path differently, or when the base holds
      every change of the branch already. The conflicts it names are those
      paths. */
  lemma SquashIsRefusedExactly(branch: Option<Commit>, title: string, attempt: Option<string>, baseTree: MergeBaseTree,
                               base: Commit, stamp: nat)
    ensures var r := SquashProduce(branch, title, attempt, baseTree, base, stamp);
            && (r.Refused? <==>
                || branch.None?
                || (forall x :: Reaches(base, x) ==> !Reaches(branch.value, x))
                || (exists p :: IsConflict(branch.value, baseTree, base, p))
                || forall p :: IsChanged(branch.value, baseTree, base, p) ==>
                                 At(base.tree, p) == At(branch.value.tree, p))
            && (r.Refused? ==> forall p :: p in r.conflicts <==>
                  && branch.Some? && (exists x :: Reaches(base, x) && Reaches(branch.value, x))
                  && IsConflict(branch.value, baseTree, base, p))
  {
    if branch.Some? {
      var fork := baseTree(MergeBases(base, branch.value));
      CommonHistoryExactly(base, branch.value);
      assert forall p :: ClashAt(fork, base.tree, branch.value.tree, p) <==>
                         IsConflict(branch.value, baseTree, base, p);
      MergeByPath(fork, base.tree, branch.value.tree);
      var merged := Merge3(fork, base.tree, branch.value.tree);
      if merged.Some? {
        forall p
          ensures At(merged.value, p) == At(base.tree, p)
                  || (IsChanged(branch.value, baseTree, base, p) && At(merged.value, p) == At(branch.value.tree, p))
          ensures IsChanged(branch.value, baseTree, base, p) ==> At(merged.value, p) == At(branch.value.tree, p)
        {
          MergeAt(fork, base.tree, branch.value.tree, p);
        }
        if forall p :: IsChanged(branch.value, baseTree, base, p) ==> At(base.tree, p) == At(branch.value.tree, p) {
          SameAtSameTree(merged.value, base.tree);
        }
      }
    }
  }

  /** The branch changed the path since the merge base. */
  predicate IsChanged(branch: Commit, baseTree: MergeBaseTree, base: Commit, p: Path) {
    At(branch.tree, p) != At(baseTree(MergeBases(base, branch)), p)
  }

  /** So did the base, to something else. */
  predicate IsConflict(branch: Commit, baseTree: MergeBaseTree, base: Commit, p: Path) {
    && IsChanged(branch, baseTree, base, p)
    && At(base.tree, p) != At(baseTree(MergeBases(base, branch)), p) && At(base.tree, p) != At(branch.tree, p)
  }

  lemma CommonHistoryExactly(a: Commit, b: Commit)
    ensures MergeBases(a, b) == {} <==> forall x :: Reaches(a, x) ==> !Reaches(b, x)
  {
    if x :| Reaches(a, x) && Reaches(b, x) {
      MergeBasesAreBest(a, b, x);
    }
    if MergeBases(a, b) != {} {
      var x :| x in MergeBases(a, b);
      MergeBasesAreBest(a, b, x);
    }
  }

  /** A cherry-pick is the base itself when the commit is the base or adds
      nothing to it; otherwise one child of it that holds what the commit
      changed and the base's content everywhere else, with the commit's message
      and its trailers, and the attempt's. */
  lemma CherryIsThePatch(resolved: Commit, attempt: Option<string>, base: Commit, stamp: nat, p: Path)
    requires CherryProduce(Some(resolved), attempt, base, stamp).Produced?
    ensures var sha := CherryProduce(Some(resolved), attempt, base, stamp).sha;
            && (sha == base <==> resolved == base || AlreadyIn(base.tree, resolved))
            && (sha != base ==>
                  && sha.parents == [base] && sha.message == resolved.message && sha.stamp == stamp
                  && (forall a :: a in sha.attempts <==> a in resolved.attempts || attempt == Some(a))
                  && At(sha.tree, p) == if Touches(resolved, p) then At(resolved.tree, p) else At(base.tree, p))
  {
    if resolved != base {
      ReplayIsThePatch(base, resolved, attempt, stamp, NoFault);
    }
  }

  /** It is refused exactly without the commit, for one without a parent, or
      when the base changed a path of it differently. */
  lemma CherryIsRefusedExactly(resolved: Option<Commit>, attempt: Option<string>, base: Commit, stamp: nat)
    ensures CherryProduce(resolved, attempt, base, stamp).Refused? <==>
            || resolved.None?
            || (resolved.value != base
                && (resolved.value.parents == [] || exists p :: Overtaken(base, resolved.value, p)))
  {
    if resolved.Some? && resolved.value != base {
      ReplayFailsExactly(base, resolved.value, attempt, stamp, NoFault);
    }
  }

  /** A removal is the base itself when it has none of the paths and nothing to
      edit; otherwise one child of it with the paths gone, the edits made and
      everything else as it was. */
  lemma DeletionIsExact(paths: set<Path>, message: string, rewrite: Rewrite, base: Commit, stamp: nat, p: Path)
    ensures var r := DeleteProduce(paths, message, rewrite, base, stamp);
            var deleted := set q | q in paths && q in base.tree;
            var edits := rewrite(base, deleted);
            && r.Produced?
            && (r.sha == base || (r.sha.parents == [base] && r.sha.message == message && r.sha.attempts == {}))
            && (r.sha == base <==> edits == map[] && forall q :: q in paths ==> q !in base.tree)
            && (if p in edits then At(r.sha.tree, p) == Some(edits[p])
                else if p in paths then At(r.sha.tree, p) == None
                else At(r.sha.tree, p) == At(base.tree, p))
  {
    var deleted := set q | q in paths && q in base.tree;
    assert deleted == paths * base.tree.Keys;
    assert deleted == {} <==> forall q :: q in paths ==> q !in base.tree by {
      if q :| q in paths && q in base.tree {
        assert q in deleted;
      }
    }
    var r := DeleteProduce(paths, message, rewrite, base, stamp);
    if r.sha.parents == [base] {
      assert base < r.sha by { assert r.sha.parents[0] == base; }
    }
  }

  /** The resolve path: when a rescue has just carried the resolved commit
      over as the last unpushed one, replaying it again collapses to the tip
      itself, with or without a trailer to add. */
  lemma CherryAfterRescueIsRedundant(target: Commit, unpushed: seq<Commit>, env: Env, attempt: Option<string>,
                                     stamp: nat)
    requires unpushed != [] && !Rescue(target, unpushed, env).fates[|unpushed| - 1].Dropped?
    ensures var tip := Rescue(target, unpushed, env).tip;
            CherryProduce(Some(unpushed[|unpushed| - 1]), attempt, tip, stamp) == Produced(tip)
  {
    var c, tip := unpushed[|unpushed| - 1], Rescue(target, unpushed, env).tip;
    var before := Rescue(target, unpushed[..|unpushed| - 1], env);
    StepIsTrue(before, c, env);
    ReplayFailsExactly(before.tip, c, None, env.stamp + |before.fates|, env.FaultAt(|before.fates|));
    assert AlreadyIn(tip.tree, c);
    ReplayFailsExactly(tip, c, attempt, stamp, NoFault);
    if c != tip {
      ReplayIsThePatch(tip, c, attempt, stamp, NoFault);
    }
  }

  /** `disable_inbox_sources`: the refused sources that are not being deleted,
      each held in place, where that changes its text. */
  function DisableSources(sources: set<Path>, base: Commit, deleted: set<Path>): Tree {
    map p | p in sources - deleted && p in base.tree
            && Frontmatter.SetFrontmatter(base.tree[p], Frontmatter.DISABLE) != base.tree[p]
      :: Frontmatter.SetFrontmatter(base.tree[p], Frontmatter.DISABLE)
  }

  /** How a `config.json` text is read and rewritten: the order it holds, None
      when it holds none, and the text with another order. */
  datatype Json = Json(read: Content -> Option<seq<string>>, write: (Content, seq<string>) -> Content)

  ghost predicate IsJson(json: Json) {
    forall text, order :: json.read(text).Some? ==> json.read(json.write(text, order)) == Some(order)
  }

  const CONFIG := "/config.json"

  function Brief(inbox: Path, stem: string): Path {
    inbox + "/" + stem + ".md"
  }

  /** The inbox still has a brief of that stem, directly in it. */
  predicate Survives(tree: Tree, deleted: set<Path>, inbox: Path, stem: string) {
    '/' !in stem && Brief(inbox, stem) in tree && Brief(inbox, stem) !in deleted
  }

  function KeptOrder(order: seq<string>, tree: Tree, deleted: set<Path>, inbox: Path): seq<string> {
    if order == [] then []
    else
      (if Survives(tree, deleted, inbox, order[0]) then [order[0]] else [])
      + KeptOrder(order[1..], tree, deleted, inbox)
  }

  predicate NeedsPruning(json: Json, inbox: Path, base: Commit, deleted: set<Path>) {
    && inbox + CONFIG in base.tree
    && var order := json.read(base.tree[inbox + CONFIG]);
       order.Some? && KeptOrder(order.value, base.tree, deleted, inbox) != order.value
  }

  function InboxOf(config: Path): Path
    requires |config| >= |CONFIG|
  {
    config[..|config| - |CONFIG|]
  }

  /** `prune_inbox_orders`: the drained inboxes' orders without the stems they
      have no brief for any more. */
  function PruneOrders(json: Json, inboxes: set<Path>, base: Commit, deleted: set<Path>): Tree {
    map p | p in (set i | i in inboxes && NeedsPruning(json, i, base, deleted) :: i + CONFIG)
      :: json.write(base.tree[p], KeptOrder(json.read(base.tree[p]).value, base.tree, deleted, InboxOf(p)))
  }

  /** The removal's rewrite: both edits, the holds last. */
  function RemovalEdits(json: Json, inboxes: set<Path>, refused: set<Path>, base: Commit, deleted: set<Path>): Tree {
    PruneOrders(json, inboxes, base, deleted) + DisableSources(refused, base, deleted)
  }

  predicate IsMarkdown(p: Path) {
    |p| >= 3 && p[|p| - 3..] == ".md"
  }

  lemma ConfigIsNoBrief(inbox: Path, other: Path, stem: string)
    ensures !IsMarkdown(inbox + CONFIG) && IsMarkdown(Brief(other, stem))
    ensures InboxOf(inbox + CONFIG) == inbox
  {
    var p := inbox + CONFIG;
    assert p[|p| - 1] == 'n';
    assert Brief(other, stem)[|Brief(other, stem)| - 3..] == ".md";
  }

  lemma {:induction false} KeptIsKept(order: seq<string>, tree: Tree, deleted: set<Path>, tree': Tree, inbox: Path)
    requires forall stem :: Survives(tree, deleted, inbox, stem) ==> Survives(tree', {}, inbox, stem)
    ensures var kept := KeptOrder(order, tree, deleted, inbox); KeptOrder(kept, tree', {}, inbox) == kept
  {
    if order == [] {
    } else {
      KeptIsKept(order[1..], tree, deleted, tree', inbox);
      var rest, kept := KeptOrder(order[1..], tree, deleted, inbox), KeptOrder(order, tree, deleted, inbox);
      if Survives(tree, deleted, inbox, order[0]) {
        assert kept == [order[0]] + rest && kept[1..] == rest;
      } else {
        assert kept == rest;
      }
    }
  }

  /** A path outside the prunings and the deletions: the hold's text, or the
      base's. */
  lemma RemovedTree(json: Json, inboxes: set<Path>, refused: set<Path>, base: Commit, existing: set<Path>,
                    removed: Tree, p: Path)
    requires removed == (base.tree - existing) + RemovalEdits(json, inboxes, refused, base, existing)
    requires forall q :: q in refused ==> IsMarkdown(q)
    ensures IsMarkdown(p) ==>
              && (p in removed <==> p in base.tree && p !in existing)
              && (p in removed ==> var holds := DisableSources(refused, base, existing);
                    removed[p] == if p in holds then holds[p] else base.tree[p])
    ensures !IsMarkdown(p) && p !in existing ==>
              var pruned := PruneOrders(json, inboxes, base, existing);
              && (p in removed <==> p in base.tree)
              && (p in removed ==> removed[p] == if p in pruned then pruned[p] else base.tree[p])
  {
    if p in PruneOrders(json, inboxes, base, existing) {
      var i :| i in inboxes && NeedsPruning(json, i, base, existing) && p == i + CONFIG;
      ConfigIsNoBrief(i, i, "");
    }
  }

  lemma NoMorePruning(json: Json, inboxes: set<Path>, refused: set<Path>, base: Commit, existing: set<Path>,
                      removed: Commit, i: Path)
    requires IsJson(json) && i in inboxes && forall q :: q in refused + existing ==> IsMarkdown(q)
    requires removed.tree == (base.tree - existing) + RemovalEdits(json, inboxes, refused, base, existing)
    ensures !NeedsPruning(json, i, removed, {})
  {
    var p := i + CONFIG;
    ConfigIsNoBrief(i, i, "");
    RemovedTree(json, inboxes, refused, base, existing, removed.tree, p);
    if NeedsPruning(json, i, removed, {}) {
      forall stem | Survives(base.tree, existing, i, stem)
        ensures Survives(removed.tree, {}, i, stem)
      {
        ConfigIsNoBrief(i, i, stem);
        RemovedTree(json, inboxes, refused, base, existing, removed.tree, Brief(i, stem));
      }
      KeptIsKept(json.read(base.tree[p]).value, base.tree, existing, removed.tree, i);
    }
  }

  lemma NoMoreHolds(json: Json, inboxes: set<Path>, refused: set<Path>, base: Commit, existing: set<Path>,
                    removed: Commit)
    requires forall q :: q in refused ==> IsMarkdown(q)
    requires removed.tree == (base.tree - existing) + RemovalEdits(json, inboxes, refused, base, existing)
    ensures DisableSources(refused, removed, {}) == map[]
  {
    forall p | p in refused && p in removed.tree
      ensures Frontmatter.SetFrontmatter(removed.tree[p], Frontmatter.DISABLE) == removed.tree[p]
    {
      RemovedTree(json, inboxes, refused, base, existing, removed.tree, p);
      Frontmatter.DisablingIsIdempotent(base.tree[p]);
    }
  }

  /** A removal replayed on the commit it just produced makes no commit: the
      drained files are gone, their inboxes' orders name only briefs that are
      left, and the refused briefs are held already. */
  lemma RemovingAgainCollapses(json: Json, paths: set<Path>, message: string, inboxes: set<Path>, refused: set<Path>,
                               base: Commit, stamp: nat, later: nat)
    requires IsJson(json) && forall q :: q in refused + paths ==> IsMarkdown(q)
    ensures var rewrite := (b: Commit, deleted: set<Path>) => RemovalEdits(json, inboxes, refused, b, deleted);
            var removed := DeleteProduce(paths, message, rewrite, base, stamp);
            removed.Produced? && DeleteProduce(paths, message, rewrite, removed.sha, later) == Produced(removed.sha)
  {
    var rewrite := (b: Commit, deleted: set<Path>) => RemovalEdits(json, inboxes, refused, b, deleted);
    var removed := DeleteProduce(paths, message, rewrite, base, stamp).sha;
    var existing := paths * base.tree.Keys;
    assert removed.tree == (base.tree - existing) + RemovalEdits(json, inboxes, refused, base, existing);
    forall p | p in paths
      ensures p !in removed.tree
    {
      RemovedTree(json, inboxes, refused, base, existing, removed.tree, p);
    }
    assert paths * removed.tree.Keys == {};
    forall i | i in inboxes
      ensures !NeedsPruning(json, i, removed, {})
    {
      NoMorePruning(json, inboxes, refused, base, existing, removed, i);
    }
    assert PruneOrders(json, inboxes, removed, {}) == map[];
    NoMoreHolds(json, inboxes, refused, base, existing, removed);
  }

  // ----- What an import's removal leaves ------------------------------------

  /** The brief of that stem is directly in the inbox. */
  predicate IsThere(tree: Tree, inbox: Path, stem: string) {
    '/' !in stem && inbox + "/" + stem + ".md" in tree
  }

  /** `part` is `whole` with entries left out. */
  predicate IsPartOf(part: seq<string>, whole: seq<string>) {
    part == []
    || (whole != [] && (IsPartOf(part, whole[1..]) || (part[0] == whole[0] && IsPartOf(part[1..], whole[1..]))))
  }

  lemma {:induction false} NothingIsPartOfIt(whole: seq<string>)
    ensures IsPartOf([], whole)
  {}

  lemma {:induction false} KeptExactly(order: seq<string>, tree: Tree, deleted: set<Path>, inbox: Path, stem: string)
    ensures var kept := KeptOrder(order, tree, deleted, inbox);
            && IsPartOf(kept, order)
            && multiset(kept)[stem] == if Survives(tree, deleted, inbox, stem) then multiset(order)[stem] else 0
  {
    if order == [] {
    } else {
      KeptExactly(order[1..], tree, deleted, inbox, stem);
      assert order == [order[0]] + order[1..];
      var kept, rest := KeptOrder(order, tree, deleted, inbox), KeptOrder(order[1..], tree, deleted, inbox);
      if Survives(tree, deleted, inbox, order[0]) {
        assert kept == [order[0]] + rest && kept[1..] == rest;
        assert IsPartOf(kept[1..], order[1..]);
      } else {
        assert kept == rest;
      }
    }
  }

  /** Of a drained file nothing is left; a refused one is held, by the edit of
      its frontmatter; every other brief is as it was. */
  lemma RemovalIsExact(json: Json, paths: set<Path>, message: string, inboxes: set<Path>, refused: set<Path>,
                       base: Commit, stamp: nat, p: Path)
    requires IsMarkdown(p) && forall q :: q in refused + paths ==> IsMarkdown(q)
    ensures var rewrite := (b: Commit, deleted: set<Path>) => RemovalEdits(json, inboxes, refused, b, deleted);
            var removed := DeleteProduce(paths, message, rewrite, base, stamp).sha;
            At(removed.tree, p) ==
            if p in paths then None
            else if p in refused && p in base.tree
            then Some(Frontmatter.SetFrontmatter(base.tree[p], Frontmatter.DISABLE))
            else At(base.tree, p)
  {
    var rewrite := (b: Commit, deleted: set<Path>) => RemovalEdits(json, inboxes, refused, b, deleted);
    var existing := paths * base.tree.Keys;
    var removed := (base.tree - existing) + RemovalEdits(json, inboxes, refused, base, existing);
    RemovedTree(json, inboxes, refused, base, existing, removed, p);
    if DeleteProduce(paths, message, rewrite, base, stamp).sha == base {
      assert existing == {} ==> base.tree - existing == base.tree;
    }
  }

  /** The order of a drained inbox keeps, in its own order, exactly the names
      that still have a brief there. */
  lemma OrdersArePruned(json: Json, paths: set<Path>, message: string, inboxes: set<Path>, refused: set<Path>,
                        base: Commit, stamp: nat, inbox: Path, stem: string)
    requires IsJson(json) && inbox in inboxes && forall q :: q in refused + paths ==> IsMarkdown(q)
    requires inbox + "/config.json" in base.tree && json.read(base.tree[inbox + "/config.json"]).Some?
    ensures var rewrite := (b: Commit, deleted: set<Path>) => RemovalEdits(json, inboxes, refused, b, deleted);
            var removed := DeleteProduce(paths, message, rewrite, base, stamp).sha;
            var was := json.read(base.tree[inbox + "/config.json"]).value;
            && inbox + "/config.json" in removed.tree && json.read(removed.tree[inbox + "/config.json"]).Some?
            && var now := json.read(removed.tree[inbox + "/config.json"]).value;
               && IsPartOf(now, was)
               && multiset(now)[stem] == if IsThere(removed.tree, inbox, stem) then multiset(was)[stem] else 0
  {
    var p := inbox + "/config.json";
    var rewrite := (b: Commit, deleted: set<Path>) => RemovalEdits(json, inboxes, refused, b, deleted);
    var existing := paths * base.tree.Keys;
    var removed := (base.tree - existing) + RemovalEdits(json, inboxes, refused, base, existing);
    ConfigIsNoBrief(inbox, inbox, stem);
    RemovedTree(json, inboxes, refused, base, existing, removed, p);
    RemovedTree(json, inboxes, refused, base, existing, removed, Brief(inbox, stem));
    KeptExactly(json.read(base.tree[p]).value, base.tree, existing, inbox, stem);
    assert DeleteProduce(paths, message, rewrite, base, stamp).sha.tree == removed by {
      assert existing == {} && RemovalEdits(json, inboxes, refused, base, existing) == map[] ==> removed == base.tree;
    }
  }

  // ----- Landing twice ------------------------------------------------------

  /** Re-landing is refused. Squashing a branch onto the commit its own squash
      just produced is always empty, because that commit is not in the
      branch, so both squashes merge against the same base. */
  lemma RelandingIsRefused(branch: Commit, title: string, attempt: Option<string>, baseTree: MergeBaseTree,
                           base: Commit, stamp: nat, title': string, attempt': Option<string>, later: nat)
    requires StampsBelow(branch, stamp)
    requires SquashProduce(Some(branch), title, attempt, baseTree, base, stamp).Produced?
    ensures var landed := SquashProduce(Some(branch), title, attempt, baseTree, base, stamp).sha;
            && SquashProduce(Some(branch), title', attempt', baseTree, landed, later) == Refused({})
            && MergeTree(landed, branch, baseTree) == Some(landed.tree)
  {
    var landed := SquashProduce(Some(branch), title, attempt, baseTree, base, stamp).sha;
    assert landed.stamp == stamp && !Reaches(branch, landed);
    MergeBasesOfChild(landed, base, branch);
    MergeIsIdempotent(baseTree(MergeBases(base, branch)), base.tree, branch.tree);
  }

  /** The refusal outlives later work: it holds on any commit that descends
      from the landed one by commits the branch does not contain, as long as
      none of them changes a path the branch changed. */
  lemma {:induction false} RelandingStaysRefused(branch: Commit, baseTree: MergeBaseTree, landed: Commit,
                                                 above: seq<Commit>)
    requires IsLinear(landed, above) && MergeBases(landed, branch) != {}
    requires MergeTree(landed, branch, baseTree) == Some(landed.tree)
    requires forall c :: c in above ==> !Reaches(branch, c)
    requires forall c, p :: c in above && Touches(c, p) ==>
               At(branch.tree, p) == At(baseTree(MergeBases(landed, branch)), p)
    ensures var tip := Head(landed, above);
            MergeBases(tip, branch) == MergeBases(landed, branch) && MergeTree(tip, branch, baseTree) == Some(tip.tree)
  {
    if above != [] {
      var init, tip := above[..|above| - 1], above[|above| - 1];
      var was, fork := Head(landed, init), baseTree(MergeBases(landed, branch));
      LinearPrefix(landed, above);
      RelandingStaysRefused(branch, baseTree, landed, init);
      MergeBasesOfChild(tip, was, branch);
      forall p
        ensures !ClashAt(fork, tip.tree, branch.tree, p)
        ensures Pick(At(fork, p), At(tip.tree, p), At(branch.tree, p)) == At(tip.tree, p)
      {
        MergeAt(fork, was.tree, branch.tree, p);
        assert tip in above && tip.parents[0] == was;
        assert Touches(tip, p) ==> At(branch.tree, p) == At(fork, p);
      }
      MergeByPath(fork, tip.tree, branch.tree);
      SameAtSameTree(Merge3(fork, tip.tree, branch.tree).value, tip.tree);
    }
  }

  // ----- The trailer scan and the recovery ladder ---------------------------

  /** The commits of `main` that carry the attempt's trailer. */
  function Carriers(main: Commit, attempt: string): set<Commit> {
    set c | c in Ancestors(main) && attempt in c.attempts
  }

  /** `find_landed_attempt`: the first carrier among the last `limit` commits
      of the log. */
  function FindLandedAttempt(gitLog: seq<Commit>, attempt: string, limit: nat): Option<Commit> {
    if gitLog == [] || limit == 0 then None
    else if attempt in gitLog[0].attempts then Some(gitLog[0])
    else FindLandedAttempt(gitLog[1..], attempt, limit - 1)
  }

  /** The scan finds a carrier exactly when the window holds one. */
  lemma {:induction false} ScanFindsExactly(gitLog: seq<Commit>, attempt: string, limit: nat)
    ensures FindLandedAttempt(gitLog, attempt, limit).Some? <==>
            exists i :: 0 <= i < |gitLog| && i < limit && attempt in gitLog[i].attempts
    ensures FindLandedAttempt(gitLog, attempt, limit).Some? ==>
              FindLandedAttempt(gitLog, attempt, limit).value in gitLog
              && attempt in FindLandedAttempt(gitLog, attempt, limit).value.attempts
  {
    if gitLog == [] || limit == 0 || attempt in gitLog[0].attempts {
    } else {
      ScanFindsExactly(gitLog[1..], attempt, limit - 1);
      if i :| 0 <= i < |gitLog| && i < limit && attempt in gitLog[i].attempts {
        assert gitLog[1..][i - 1] == gitLog[i];
      }
    }
  }

  /** The log lists `main`'s history, and every carrier falls in the window. */
  ghost predicate IsWindowed(gitLog: seq<Commit>, main: Commit, attempt: string, limit: nat) {
    && (forall c :: c in gitLog ==> c in Ancestors(main))
    && (forall c :: c in Carriers(main, attempt) ==> exists i :: 0 <= i < |gitLog| && i < limit && gitLog[i] == c)
  }

  // ----- Carriers across a sync ---------------------------------------------

  function CarriersIn(cs: seq<Commit>, attempt: string): set<Commit> {
    set c | c in cs && attempt in c.attempts
  }

  lemma ReplayCarries(base: Commit, c: Commit, stamp: nat, fault: Fault, attempt: string)
    requires ReplayCommit(base, c, None, stamp, fault).sha.Some?
    ensures var r := ReplayCommit(base, c, None, stamp, fault).sha.value;
            |Carriers(r, attempt)| <= |Carriers(base, attempt)| + if attempt in c.attempts then 1 else 0
  {
    var r := ReplayCommit(base, c, None, stamp, fault).sha.value;
    if r != base {
      assert r.attempts == c.attempts && r.parents == [base];
      ChildCarries(base, r, attempt);
    }
  }

  lemma ChildCarries(base: Commit, child: Commit, attempt: string)
    requires child.parents == [base]
    ensures |Carriers(child, attempt)| <= |Carriers(base, attempt)| + if attempt in child.attempts then 1 else 0
  {
    assert child.parents[0] == base;
    assert Ancestors(child) == {child} + Ancestors(base);
    assert Carriers(child, attempt) == Carriers(base, attempt) + (if attempt in child.attempts then {child} else {});
  }

  lemma StepTip(r: Rescued, c: Commit, env: Env)
    ensures var sha := ReplayCommit(r.tip, c, None, env.stamp + |r.fates|, env.FaultAt(|r.fates|)).sha;
            Step(r, c, env).tip == if sha.None? then r.tip else sha.value
  {}

  /** A rescue gives each carrier it replays at most one successor. */
  lemma {:induction false} RescueCarriers(target: Commit, cs: seq<Commit>, env: Env, attempt: string)
    requires RevList.IsOnce(cs)
    ensures |Carriers(Rescue(target, cs, env).tip, attempt)|
            <= |Carriers(target, attempt)| + |CarriersIn(cs, attempt)|
  {
    if cs == [] {
    } else {
      var init, c := cs[..|cs| - 1], cs[|cs| - 1];
      assert cs == init + [c];
      OneMoreCarrier(init, c, attempt);
      RescueCarriers(target, init, env, attempt);
      StepCarries(Rescue(target, init, env), c, env, attempt);
    }
  }

  lemma StepCarries(r: Rescued, c: Commit, env: Env, attempt: string)
    ensures |Carriers(Step(r, c, env).tip, attempt)|
            <= |Carriers(r.tip, attempt)| + if attempt in c.attempts then 1 else 0
  {
    var stamp, fault := env.stamp + |r.fates|, env.FaultAt(|r.fates|);
    StepTip(r, c, env);
    if ReplayCommit(r.tip, c, None, stamp, fault).sha.Some? {
      ReplayCarries(r.tip, c, stamp, fault, attempt);
    }
  }

  lemma OneMoreCarrier(init: seq<Commit>, c: Commit, attempt: string)
    requires RevList.IsOnce(init + [c])
    ensures RevList.IsOnce(init)
    ensures |CarriersIn(init + [c], attempt)|
            == |CarriersIn(init, attempt)| + if attempt in c.attempts then 1 else 0
  {
    var cs := init + [c];
    assert forall i :: 0 <= i < |init| ==> cs[i] == init[i] && cs[i] != cs[|init|];
    assert CarriersIn(cs, attempt) == CarriersIn(init, attempt) + (if attempt in c.attempts then {c} else {});
    assert c !in init;
  }

  /** A sync leaves `main` with no more carriers than it had, if origin had none
      that `main` lacked. */
  lemma SyncAddsNoCarrier(e: RefLog.Event, attempt: string)
    requires e.Synced? && RefLog.IsLawfulSync(e) && Carriers(e.target, attempt) <= Carriers(e.was, attempt)
    ensures |Carriers(e.to, attempt)| <= |Carriers(e.was, attempt)|
  {
    var there, here := Carriers(e.target, attempt), Carriers(e.was, attempt);
    if Reaches(e.target, e.was) || e.listed.None? {
      SubsetIsNoLarger(there, here);
    } else {
      var ours := CarriersIn(e.listed.value, attempt);
      RescueCarriers(e.target, e.listed.value, e.env, attempt);
      forall c | c in ours
        ensures c in here && c !in there
      {
        assert c in RevList.Beyond(e.target, e.was);
      }
      assert |there + ours| == |there| + |ours|;
      SubsetIsNoLarger(there + ours, here);
    }
  }

  // ----- The life of an attempt ---------------------------------------------

  /** One step of an attempt's life in local mode, as `main` sees it. Others
      move `main`; a sync moves it, perhaps replaying a carrier under another
      identity; recovery scans its log for the trailer; a land gets as far as
      its CAS and puts a child there (whether it crashed right after is not
      visible); or it dies before. */
  datatype MainStep =
    | OthersMove(main: Commit)
    | Sync(sync: RefLog.Event)
    | Scan(gitLog: seq<Commit>)
    | LandCas(landed: Commit)
    | DiedBeforeCas

  /** Others move `main` anywhere, but neither write the trailer nor put back a
      carrier that `main` no longer had, by way of origin or not. A scan sees
      `main` as it is then. */
  ghost predicate IsMainStep(main: Commit, step: MainStep, main': Commit, attempt: string, limit: nat) {
    match step
    case OthersMove(moved) => main' == moved && Carriers(moved, attempt) <= Carriers(main, attempt)
    case Sync(e) =>
      && e.Synced? && RefLog.IsLawfulSync(e) && e.was == main && main' == e.to
      && Carriers(e.target, attempt) <= Carriers(main, attempt)
    case Scan(gitLog) => main' == main && IsWindowed(gitLog, main, attempt, limit)
    case LandCas(landed) => main' == landed && landed.parents == [main] && landed.attempts == {attempt}
    case DiedBeforeCas => main' == main
  }

  predicate HasLanded(steps: seq<MainStep>, from: nat, to: nat)
    requires from <= to <= |steps|
  {
    exists k :: from <= k < to && steps[k].LandCas?
  }

  predicate IsEmptyScan(step: MainStep, attempt: string, limit: nat) {
    step.Scan? && FindLandedAttempt(step.gitLog, attempt, limit).None?
  }

  /** A land may run when it is the attempt's first, or when a scan since the
      last one came back empty; others may move `main` between the scan and
      the land. */
  ghost predicate MayLand(steps: seq<MainStep>, i: nat, attempt: string, limit: nat)
    requires i <= |steps|
  {
    !HasLanded(steps, 0, i)
    || exists k :: 0 <= k < i && IsEmptyScan(steps[k], attempt, limit) && !HasLanded(steps, k, i)
  }

  ghost predicate IsMainRun(mains: seq<Commit>, steps: seq<MainStep>, attempt: string, limit: nat) {
    && |mains| == |steps| + 1
    && (forall i {:trigger steps[i]} :: 0 <= i < |steps| ==>
        IsMainStep(mains[i], steps[i], mains[i + 1], attempt, limit))
    && (forall i {:trigger steps[i]} :: 0 <= i < |steps| && steps[i].LandCas? ==> MayLand(steps, i, attempt, limit))
  }

  lemma OtherStepsAddNoCarrier(main: Commit, step: MainStep, main': Commit, attempt: string, limit: nat)
    requires IsMainStep(main, step, main', attempt, limit) && !step.LandCas?
    ensures |Carriers(main', attempt)| <= |Carriers(main, attempt)|
  {
    match step
    case OthersMove(_) => SubsetIsNoLarger(Carriers(main', attempt), Carriers(main, attempt));
    case Sync(e) => SyncAddsNoCarrier(e, attempt);
    case _ =>
  }

  /** Without a land in between, `main` gains no carrier. */
  lemma {:induction false} NoLandNoCarrier(mains: seq<Commit>, steps: seq<MainStep>, attempt: string, limit: nat,
                                           from: nat, to: nat)
    requires IsMainRun(mains, steps, attempt, limit) && from <= to < |mains|
    requires forall k :: from <= k < to ==> !steps[k].LandCas?
    ensures |Carriers(mains[to], attempt)| <= |Carriers(mains[from], attempt)|
  {
    if from == to {
    } else {
      NoLandNoCarrier(mains, steps, attempt, limit, from, to - 1);
      assert IsMainStep(mains[to - 1], steps[to - 1], mains[to], attempt, limit);
      OtherStepsAddNoCarrier(mains[to - 1], steps[to - 1], mains[to], attempt, limit);
    }
  }

  lemma EmptyScanMeansNoCarrier(main: Commit, gitLog: seq<Commit>, attempt: string, limit: nat)
    requires IsWindowed(gitLog, main, attempt, limit) && FindLandedAttempt(gitLog, attempt, limit).None?
    ensures Carriers(main, attempt) == {}
  {
    ScanFindsExactly(gitLog, attempt, limit);
  }

  /** Where a land may run, `main` carries no trailer of the attempt. */
  lemma LandsFindNoCarrier(mains: seq<Commit>, steps: seq<MainStep>, attempt: string, limit: nat, i: nat)
    requires IsMainRun(mains, steps, attempt, limit) && i < |steps| && MayLand(steps, i, attempt, limit)
    requires Carriers(mains[0], attempt) == {}
    ensures Carriers(mains[i], attempt) == {}
  {
    if !HasLanded(steps, 0, i) {
      NoLandNoCarrier(mains, steps, attempt, limit, 0, i);
    } else {
      var k :| 0 <= k < i && IsEmptyScan(steps[k], attempt, limit) && !HasLanded(steps, k, i);
      assert IsMainStep(mains[k], steps[k], mains[k + 1], attempt, limit);
      EmptyScanMeansNoCarrier(mains[k], steps[k].gitLog, attempt, limit);
      NoLandNoCarrier(mains, steps, attempt, limit, k, i);
    }
  }

  lemma LandingAddsOne(main: Commit, landed: Commit, attempt: string)
    requires landed.parents == [main] && landed.attempts == {attempt} && Carriers(main, attempt) == {}
    ensures Carriers(landed, attempt) == {landed}
  {
    assert Ancestors(landed) == {landed} + Ancestors(main) by { assert landed.parents[0] == main; }
  }

  /** At most one commit of `main` ever carries an attempt's trailer, however
      often the land is retried and wherever it crashes. */
  lemma {:induction false} AttemptLandsAtMostOnce(mains: seq<Commit>, steps: seq<MainStep>, attempt: string,
                                                  limit: nat, i: nat)
    requires IsMainRun(mains, steps, attempt, limit) && i < |mains|
    requires Carriers(mains[0], attempt) == {}
    ensures |Carriers(mains[i], attempt)| <= 1
  {
    if i == 0 {
    } else {
      AttemptLandsAtMostOnce(mains, steps, attempt, limit, i - 1);
      assert IsMainStep(mains[i - 1], steps[i - 1], mains[i], attempt, limit);
      if steps[i - 1].LandCas? {
        LandsFindNoCarrier(mains, steps, attempt, limit, i - 1);
        LandingAddsOne(mains[i - 1], steps[i - 1].landed, attempt);
      } else {
        OtherStepsAddNoCarrier(mains[i - 1], steps[i - 1], mains[i], attempt, limit);
      }
    }
  }

  lemma {:induction false} SubsetIsNoLarger<T>(a: set<T>, b: set<T>)
    requires a <= b
    ensures |a| <= |b|
  {
    if a == {} {
    } else {
      var x :| x in a;
      SubsetIsNoLarger(a - {x}, b - {x});
    }
  }
}
