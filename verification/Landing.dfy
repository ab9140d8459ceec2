/** The repository the pipeline mutates, the origin sync
    (`sync._sync_main_to_origin_impl`) and the integrate-and-push loop
    (`landing.integrate_and_push_locked`).

    Another actor (an operator, another process, another machine pushing to
    origin) may move `main` and origin between any two steps: `Interfere`.
    Every ref move is recorded in `log`, whoever made it, so the contracts
    below are about whole runs and not only about final states.
*/
module Landing {
  import opened Prelude
  import opened Git
  import opened Lifecycle
  import opened Replay
  import opened RevList
  import opened RefLog
  import opened Checkout

  // ----- Vocabulary ---------------------------------------------------------

  /** A commit built with the handed-in base as parent (or the base itself
      when the production is redundant), or a terminal failure. */
  datatype ProduceResult = Produced(sha: Commit) | Refused(conflicts: set<Path>)

  /** How one pass of the loop ends. */
  datatype Pass = Done(kind: LandKind, sha: Commit, pushed: Option<bool>) | NothingToLand | Lost

  type Producer = (Commit, nat) -> ProduceResult

  /** What `ProduceResult` promises: a fresh child of the base, or the base. */
  ghost predicate IsLawful(produce: Producer) {
    forall base, stamp :: produce(base, stamp).Produced? ==>
      var sha := produce(base, stamp).sha;
      sha == base || (sha.parents == [base] && sha.stamp == stamp)
  }

  /** `remote` is `sync and remote`: there is a rendezvous to re-sync with. */
  datatype RepoContext = RepoContext(remote: bool, rescueDivergenceOnFirstSync: bool)

  /** What the world answers in one pass: whether the first sync is due, whether
      origin can be fetched, which replays git fails, whether a push gets
      through, whether the pull request opens; and whether git can detach HEAD
      after the sync and after the land. */
  datatype Answers = Answers(due: bool, fetches: bool, faults: map<nat, Fault>, accepts: bool, opensPr: bool,
                             syncDetaches: bool, landDetaches: bool)

  type World = nat -> Answers

  /** Everything reachable from the ref was written before `clock`, and
      nothing in `hidden` is reachable from it. */
  predicate IsSafe(ref: Option<Commit>, clock: nat, hidden: set<Commit>) {
    ref.Some? ==> forall a | a in Ancestors(ref.value) :: a.stamp < clock && a !in hidden
  }

  lemma SafeLater(ref: Option<Commit>, clock: nat, hidden: set<Commit>, later: nat, fewer: set<Commit>)
    requires IsSafe(ref, clock, hidden) && clock <= later && fewer <= hidden
    ensures IsSafe(ref, later, fewer)
  {}

  /** Unstaged and untracked work is kept, path by path, and a path without
      any still has none. */
  ghost predicate KeepsUnstaged(was: WorkTree, now: WorkTree) {
    forall p :: IsKeptAt(was, now, p)
  }

  predicate IsKeptAt(was: WorkTree, now: WorkTree, p: Path) {
    if At(was.files, p) != At(was.index, p)
    then At(now.files, p) == At(was.files, p) && At(now.index, p) == At(was.index, p)
    else At(now.files, p) == At(now.index, p)
  }

  lemma KeptStill(was: WorkTree, mid: WorkTree, now: WorkTree)
    requires KeepsUnstaged(was, mid) && KeepsUnstaged(mid, now)
    ensures KeepsUnstaged(was, now)
  {
    forall p
      ensures IsKeptAt(was, now, p)
    {
      assert IsKeptAt(was, mid, p) && IsKeptAt(mid, now, p);
    }
  }

  predicate IsSuccess(out: LandOutcome) {
    out.kind.LandedKind? || out.kind.CheckoutBehind?
  }

  /** The moves a land of outcome `out` may have made in each mode. A failed
      land made none. A successful one made exactly one CAS of `main` to the
      commit it reports, or none when that commit was the base already; in
      push mode it first moved origin to that commit, and the CAS of `main`
      may have lost. */
  ghost predicate IsLandTrace(mode: LandingMode, out: LandOutcome, base: Option<Commit>, moves: seq<Event>) {
    if !IsSuccess(out) then moves == []
    else
      && out.sha.Some? && base.Some?
      && var cas := if out.sha == base then [] else [Event.Landed(base.value, out.sha.value)];
      if mode != Push then moves == cas
      else moves != [] && moves[0].Pushed? && moves[0].to == out.sha.value
           && (moves == [moves[0]] || moves == [moves[0]] + cas)
  }

  /** How a sync ended: nothing fetched or no local commit to compare;
      already at origin's tip; local work left alone; or a swap of `main`
      (`move`) that won or lost its race. */
  datatype SyncReport = NothingToCompare | Current | LeftAlone | Swapped(move: Event) | RaceLost(move: Event)

  /** What `report` claims about a sync of `was` to origin's `target`. */
  ghost predicate IsSyncOf(report: SyncReport, was: Commit, target: Commit, resetDivergence: bool, revList: Listing,
                           faults: map<nat, Fault>) {
    if was == target then report.Current?
    else if !Reaches(target, was) && !resetDivergence then report.LeftAlone?
    else (report.Swapped? || report.RaceLost?) && IsSwap(report.move, was, revList, faults)
         && report.move.target == target
  }

  /** A swap of `was` for the tip a sync builds; over a divergence, from what
      `rev-list` answered. */
  ghost predicate IsSwap(move: Event, was: Commit, revList: Listing, faults: map<nat, Fault>) {
    && move.Synced? && move.was == was && IsLawfulSync(move) && move.env.faults == faults
    && (Reaches(move.target, was) || move.listed == revList(move.target, was))
  }

  /** The report of a sync that compared `was` with the fetched `target`, and
      where it left `main` and the tip, `now`, that stands in for it. */
  ghost predicate IsReported(report: SyncReport, was: Option<Commit>, target: Option<Commit>, fetched: bool,
                             resetDivergence: bool, main: Option<Commit>, now: Option<Commit>, revList: Listing,
                             faults: map<nat, Fault>)
  {
    if !fetched || target.None? then report.NothingToCompare?
    else if was.None? then report.NothingToCompare? && now.None?
    else
      && IsSyncOf(report, was.value, target.value, resetDivergence, revList, faults)
      && match report
         case Swapped(move) => main == Some(move.to)
         case RaceLost(_) => main != was
         case _ => now == was
  }

  /** The checkout as captured, and `main` and the work tree as they were just
      before a swap of `main`; whether git could detach HEAD after a refusal. */
  datatype Carry = Carry(checkout: CheckoutState, main: Option<Commit>, work: WorkTree, detached: bool)

  ghost predicate IsCarriedBy(carry: Carry, base: Commit, to: Commit, head: Head, main: Option<Commit>,
                              work: WorkTree) {
    forall p :: IsCarriedAt(carry.checkout, base, to, carry.main, carry.work, head, main, work, carry.detached, p)
  }

  /** What the reported kind says about the checkout. A land that swapped
      `main` (or found nothing to swap) is LANDED exactly when the checkout
      could be advanced; a push whose swap lost left the checkout alone. */
  ghost predicate IsCheckoutTold(out: LandOutcome, base: Option<Commit>, carry: Option<Carry>,
                                 head: Head, main: Option<Commit>, work: WorkTree)
  {
    if !IsSuccess(out) || base.None? || out.sha.None? then carry.None?
    else if carry.None? then out.kind == LandedKind && out.sha != base
    else
      && (out.kind == LandedKind <==> Advances(carry.value.checkout, out.sha.value, carry.value.work))
      && IsCarriedBy(carry.value, base.value, out.sha.value, head, main, work)
  }

  // ----- Moments of a run ---------------------------------------------------

  /** The history so far, and HEAD. */
  datatype Moment = Moment(log: seq<Event>, head: Head)

  /** Canonical `main` at a moment, or HEAD where the branch does not exist. */
  function TipAt(m: Moment): Option<Commit> {
    var main := HistoryOf(m.log).main;
    if main.Some? then main else HeadCommit(m.head, None)
  }

  /** Between two moments of one run: the history has only grown, and HEAD is
      where it was or was detached. */
  ghost predicate IsAfter(was: Moment, now: Moment) {
    IsLater(was.log, now.log) && (now.head == was.head || now.head.Detached?)
  }

  lemma AfterAll(was: Moment, mid: Moment, now: Moment)
    requires IsAfter(was, mid) && IsAfter(mid, now)
    ensures IsAfter(was, now)
  {
    LaterStill(was.log, mid.log, now.log);
  }

  /** A sync that ran: what it reported, and the moments it started at, read
      the local commit, and ended. */
  datatype Opening = Opening(report: SyncReport, start: Moment, seen: Moment, end: Moment)

  /** The report is true of what the refs were at these moments. */
  ghost predicate IsTrueSync(sync: Opening, resetDivergence: bool, a: Answers, revList: Listing) {
    && IsAfter(sync.start, sync.seen) && IsAfter(sync.seen, sync.end)
    && IsReported(sync.report, TipAt(sync.seen), HistoryOf(sync.start.log).origin, a.fetches, resetDivergence,
                  HistoryOf(sync.end.log).main, TipAt(sync.end), revList, a.faults)
  }

  function DroppedBy(report: SyncReport): seq<Commit> {
    if report.Swapped? && report.move.Synced? then report.move.dropped else []
  }

  /** Why a land ended the way it did: success reports a commit the producer
      made on `base`; a conflict means there was nothing to land on, or the
      producer refused `base`. */
  ghost predicate IsExplained(out: LandOutcome, produce: Producer, base: Option<Commit>) {
    && (IsSuccess(out) ==>
          out.sha.Some? && base.Some? && exists stamp :: produce(base.value, stamp) == Produced(out.sha.value))
    && (out.kind == Conflict ==> base.None? || exists stamp :: produce(base.value, stamp).Refused?)
  }

  // ----- Stamps of replayed commits -----------------------------------------

  /** The rebuilt tip reaches nothing but origin's history and the commits the
      rescue itself wrote. */
  lemma {:induction false} RescueReachesOnlyFresh(target: Commit, cs: seq<Commit>, env: Env, x: Commit)
    requires Reaches(Rescue(target, cs, env).tip, x)
    ensures Reaches(target, x) || env.stamp <= x.stamp < env.stamp + |cs|
  {
    if cs == [] {
    } else {
      var before := Rescue(target, cs[..|cs| - 1], env);
      var stamp, fault := env.stamp + |before.fates|, env.FaultAt(|before.fates|);
      var replay := ReplayCommit(before.tip, cs[|cs| - 1], None, stamp, fault);
      if replay.sha.Some? {
        ReplayIsThePatch(before.tip, cs[|cs| - 1], None, stamp, fault);
      }
      if Reaches(before.tip, x) {
        RescueReachesOnlyFresh(target, cs[..|cs| - 1], env, x);
      } else {
        assert x == Rescue(target, cs, env).tip;
      }
    }
  }

  /** The replay loop of the rescue. */
  method ReplayUnpushed(target: Commit, unpushed: seq<Commit>, env: Env) returns (tip: Commit, dropped: seq<Commit>)
    ensures tip == Rescue(target, unpushed, env).tip
    ensures dropped == DroppedOf(unpushed, Rescue(target, unpushed, env).fates)
  {
    tip, dropped := target, [];
    for i := 0 to |unpushed|
      invariant tip == Rescue(target, unpushed[..i], env).tip
      invariant dropped == DroppedOf(unpushed[..i], Rescue(target, unpushed[..i], env).fates)
    {
      RescueNext(target, unpushed, i, env);
      var replayed := ReplayCommit(tip, unpushed[i], None, env.stamp + i, env.FaultAt(i));
      if replayed.sha.None? {
        dropped := dropped + [unpushed[i]];
      } else {
        tip := replayed.sha.value;
      }
    }
    assert unpushed[..|unpushed|] == unpushed;
  }

  lemma RescueIsSafe(target: Commit, cs: seq<Commit>, env: Env, clock: nat, hidden: set<Commit>)
    requires IsSafe(Some(target), env.stamp, hidden) && clock == env.stamp + |cs|
    requires forall x :: x in hidden ==> x.stamp < env.stamp
    ensures IsSafe(Some(Rescue(target, cs, env).tip), clock, hidden)
  {
    forall x | Reaches(Rescue(target, cs, env).tip, x)
      ensures x.stamp < clock && x !in hidden
    {
      RescueReachesOnlyFresh(target, cs, env, x);
    }
  }

  /** A pass that landed: its moves, its reason, and what it says about the
      checkout. */
  ghost predicate IsDone(mode: LandingMode, pass: Pass, produce: Producer, base: Option<Commit>, moves: seq<Event>,
                         carry: Option<Carry>, head: Head, main: Option<Commit>, work: WorkTree)
    requires pass.Done?
  {
    var out := LandOutcome(pass.kind, Some(pass.sha), [], pass.pushed);
    && IsSuccess(out) && IsExplained(out, produce, base) && IsLandTrace(mode, out, base, moves)
    && IsCheckoutTold(out, base, carry, head, main, work) && (mode != Push ==> carry.Some?)
  }

  /** What the loop returns for its last pass. */
  function OutcomeOf(mode: LandingMode, pass: Pass, dropped: seq<Commit>): LandOutcome {
    match pass
    case Done(kind, sha, pushed) => LandOutcome(kind, Some(sha), dropped, pushed)
    case NothingToLand => LandOutcome(Conflict, None, dropped, None)
    case Lost => LandOutcome(PushRejected, None, dropped, if mode == Push then Some(false) else None)
  }

  /** The moves of a land, its reason, and what it says about the checkout. */
  ghost predicate IsTold(mode: LandingMode, out: LandOutcome, produce: Producer, base: Option<Commit>,
                         moves: seq<Event>, carry: Option<Carry>, head: Head, main: Option<Commit>, work: WorkTree)
  {
    && out.kind in {LandedKind, CheckoutBehind, Conflict, PushRejected}
    && IsExplained(out, produce, base) && IsLandTrace(mode, out, base, moves)
    && IsCheckoutTold(out, base, carry, head, main, work) && (mode != Push && IsSuccess(out) ==> carry.Some?)
  }

  /** What the outcome says about the push of its mode. */
  predicate IsPushTold(mode: LandingMode, out: LandOutcome, opensPr: bool) {
    out.pushed == if IsSuccess(out) then PushedBy(mode, opensPr)
                  else if out.kind == PushRejected && mode == Push then Some(false) else None
  }

  /** The commit a land has published, if any. */
  function Published(out: Option<LandOutcome>): set<Commit> {
    if out.Some? && IsSuccess(out.value) && out.value.sha.Some? then {out.value.sha.value} else {}
  }

  /** Neither the casualties of the syncs nor the passes before it change what
      the last pass says. */
  lemma LastPassIsTold(mode: LandingMode, pass: Pass, dropped: seq<Commit>, produce: Producer, base: Option<Commit>,
                       moves: seq<Event>, carry: Option<Carry>, head: Head, main: Option<Commit>, work: WorkTree,
                       opensPr: bool)
    requires pass.Done? ==> pass.pushed == PushedBy(mode, opensPr)
    requires pass.Done? ==> IsDone(mode, pass, produce, base, moves, carry, head, main, work)
    requires !pass.Done? ==> moves == [] && carry.None?
    requires pass.NothingToLand? ==> IsExplained(LandOutcome(Conflict, None, [], None), produce, base)
    ensures var out := OutcomeOf(mode, pass, dropped);
            && IsTold(mode, out, produce, base, moves, carry, head, main, work) && IsPushTold(mode, out, opensPr)
            && (IsSuccess(out) <==> pass.Done?) && (out.kind == PushRejected <==> pass.Lost?)
  {
    if pass.Done? {
      assert IsSuccess(LandOutcome(pass.kind, Some(pass.sha), [], pass.pushed));
    }
  }

  /** Each pass opened with a sync exactly when there is a remote and, the first
      time, one was due; a retry rescues any divergence; and what each reported
      is true. */
  ghost predicate AreTrueSyncs(ctx: RepoContext, world: World, syncs: seq<Option<Opening>>, revList: Listing) {
    forall i :: 0 <= i < |syncs| ==> IsTrueOpening(ctx, world, syncs[i], i, revList)
  }

  ghost predicate IsTrueOpening(ctx: RepoContext, world: World, sync: Option<Opening>, i: nat, revList: Listing) {
    && (sync.Some? <==> ctx.remote && (i > 0 || world(i).due))
    && (sync.Some? ==> IsTrueSync(sync.value, i > 0 || ctx.rescueDivergenceOnFirstSync, world(i), revList))
  }

  /** The syncs ran one after the other, between the two moments. */
  ghost predicate IsSchedule(syncs: seq<Option<Opening>>, was: Moment, now: Moment) {
    if syncs == [] then IsAfter(was, now)
    else
      var n := |syncs| - 1;
      if syncs[n].None? then IsSchedule(syncs[..n], was, now)
      else IsSchedule(syncs[..n], was, syncs[n].value.start) && IsAfter(syncs[n].value.end, now)
  }

  lemma {:induction false} ScheduleLater(syncs: seq<Option<Opening>>, was: Moment, mid: Moment, now: Moment)
    requires IsSchedule(syncs, was, mid) && IsAfter(mid, now)
    ensures IsSchedule(syncs, was, now)
  {
    if syncs == [] {
      AfterAll(was, mid, now);
    } else if syncs[|syncs| - 1].None? {
      ScheduleLater(syncs[..|syncs| - 1], was, mid, now);
    } else {
      AfterAll(syncs[|syncs| - 1].value.end, mid, now);
    }
  }

  /** One more sync, if it ran, between `start` and `now`. */
  lemma ScheduleOneMore(syncs: seq<Option<Opening>>, sync: Option<Opening>, was: Moment, start: Moment, now: Moment)
    requires IsSchedule(syncs, was, start) && IsAfter(start, now)
    requires sync.Some? ==> IsAfter(start, sync.value.start) && IsAfter(sync.value.end, now)
    ensures IsSchedule(syncs + [sync], was, now)
  {
    assert (syncs + [sync])[..|syncs|] == syncs;
    ScheduleLater(syncs, was, start, if sync.Some? then sync.value.start else now);
  }

  function AllDropped(syncs: seq<Option<Opening>>): seq<Commit> {
    if syncs == [] then []
    else
      var n := |syncs| - 1;
      AllDropped(syncs[..n]) + if syncs[n].Some? then DroppedBy(syncs[n].value.report) else []
  }

  lemma OneMoreSync(ctx: RepoContext, world: World, syncs: seq<Option<Opening>>, sync: Option<Opening>,
                    revList: Listing)
    requires AreTrueSyncs(ctx, world, syncs, revList) && IsTrueOpening(ctx, world, sync, |syncs|, revList)
    ensures AreTrueSyncs(ctx, world, syncs + [sync], revList)
  {
    var all := syncs + [sync];
    forall i | 0 <= i < |all|
      ensures IsTrueOpening(ctx, world, all[i], i, revList)
    {
      if i < |syncs| {
        assert all[i] == syncs[i] && IsTrueOpening(ctx, world, syncs[i], i, revList);
      }
    }
  }

  lemma OneMoreDropped(syncs: seq<Option<Opening>>, sync: Option<Opening>)
    ensures AllDropped(syncs + [sync])
            == AllDropped(syncs) + if sync.Some? then DroppedBy(sync.value.report) else []
  {
    assert (syncs + [sync])[..|syncs|] == syncs;
  }

  lemma Booked(ctx: RepoContext, world: World, syncs: seq<Option<Opening>>, sync: Option<Opening>, revList: Listing,
               begun: Moment, start: Moment, at: Moment, now: Moment)
    requires AreTrueSyncs(ctx, world, syncs, revList) && IsTrueOpening(ctx, world, sync, |syncs|, revList)
    requires IsSchedule(syncs, begun, start) && IsAfter(start, at) && IsAfter(at, now)
    requires sync.Some? ==> IsAfter(start, sync.value.start) && IsAfter(sync.value.end, at)
    ensures AreTrueSyncs(ctx, world, syncs + [sync], revList)
    ensures AllDropped(syncs + [sync])
            == AllDropped(syncs) + if sync.Some? then DroppedBy(sync.value.report) else []
    ensures IsSchedule(syncs + [sync], begun, at) && IsSchedule(syncs + [sync], begun, now)
  {
    OneMoreSync(ctx, world, syncs, sync, revList);
    OneMoreDropped(syncs, sync);
    ScheduleOneMore(syncs, sync, begun, start, at);
    ScheduleLater(syncs + [sync], begun, at, now);
  }

  lemma Regroup<T>(a: seq<T>, b: seq<T>, c: seq<T>)
    ensures (a + b) + c == a + (b + c)
  {}

  // ----- A push that is refused, a pass that is lost --------------------------

  predicate IsPushRefused(accepts: bool, to: Commit, origin: Option<Commit>) {
    !accepts || (origin.Some? && !Reaches(to, origin.value))
  }

  /** A pass lost its race: it had produced a commit on the tip it read, but
      origin refused it, or `main` was no longer at that tip. */
  ghost predicate IsLost(mode: LandingMode, produce: Producer, base: Option<Commit>, accepts: bool,
                         main: Option<Commit>, origin: Option<Commit>) {
    base.Some? && exists stamp ::
      && produce(base.value, stamp).Produced?
      && if mode == Push then IsPushRefused(accepts, produce(base.value, stamp).sha, origin) else main != base
  }

  /** Whether something was pushed, as a land that succeeded reports it. */
  function PushedBy(mode: LandingMode, opensPr: bool): Option<bool> {
    match mode
    case Push => Some(true)
    case PullRequest => Some(opensPr)
    case LocalOnly => None
  }

  lemma AllCarried(carry: Carry, base: Commit, to: Commit, r: Advanced)
    requires to == base || carry.main == Some(base)
    requires carry.checkout.head.OnMain? || carry.checkout.sha == HeadCommit(carry.checkout.head, carry.main)
    requires r == Advance(carry.checkout, to, carry.checkout.head, carry.work, carry.detached)
    ensures r.ok <==> Advances(carry.checkout, to, carry.work)
    ensures IsCarriedBy(carry, base, to, r.head, MainAfter(base, to, carry.main), r.work)
  {
    forall p {
      CarriedExactly(carry.checkout, base, to, carry.main, carry.work, carry.detached, p);
    }
  }

  lemma HeadStaysSafe(head: Head, was: Option<Commit>, now: Option<Commit>, clock: nat, later: nat, hidden: set<Commit>)
    requires IsSafe(HeadCommit(head, was), clock, hidden) && IsSafe(now, later, hidden) && clock <= later
    ensures IsSafe(HeadCommit(head, now), later, hidden)
  {
    SafeLater(HeadCommit(head, was), clock, hidden, later, hidden);
  }

  lemma MoveOfOthers(log: seq<Event>, main: Option<Commit>, origin: Option<Commit>)
    ensures HistoryOf(log + [OthersMovedMain(main)] + [OthersMovedOrigin(origin)]) ==
            HistoryOf(log).(main := main, origin := origin)
  {
    HistoryAppend(log, OthersMovedMain(main));
    HistoryAppend(log + [OthersMovedMain(main)], OthersMovedOrigin(origin));
  }

  // ----- The repository -----------------------------------------------------

  class Repo {
    var main: Option<Commit>
    var origin: Option<Commit>
    var head: Head
    var work: WorkTree
    // The next fresh commit stamp.
    var clock: nat
    // Commits we wrote that no ref ever got.
    var unpublished: set<Commit>
    // Every ref move so far, and what replaying them says lands and syncs did.
    ghost var log: seq<Event>
    ghost var ours: seq<Event>
    ghost var casualties: seq<Commit>
    // `git rev-list --reverse target..head`; None when the command fails.
    const revList: Listing

    ghost predicate Valid()
      reads this
    {
      && IsRevList(revList)
      && HistoryOf(log) == History(main, origin, ours, casualties, true)
      && IsSafe(main, clock, unpublished)
      && IsSafe(origin, clock, unpublished)
      && IsSafe(HeadCommit(head, main), clock, unpublished)
      && (forall x :: x in unpublished ==> x.stamp < clock)
    }

    constructor (revList: Listing, head: Head, work: WorkTree)
      requires head.OnMain? && IsRevList(revList)
      ensures Valid() && main == None && origin == None && log == []
      ensures this.revList == revList && this.head == head && this.work == work
    {
      this.revList, this.head, this.work := revList, head, work;
      main, origin, clock, unpublished := None, None, 0, {};
      log, ours, casualties := [], [], [];
    }

    /** Canonical `main`, or HEAD in a repository without that branch. */
    function MainSha(): Option<Commit>
      reads this`main, this`head
    {
      if main.Some? then main else HeadCommit(head, main)
    }

    ghost function Now(): Moment
      reads this`log, this`head
    {
      Moment(log, head)
    }

    /** Anyone else moves `main`, origin, both or neither, anywhere, except to
        a commit that only ever existed in our object store. */
    method Interfere()
      requires Valid()
      modifies this`main, this`origin, this`clock, this`log
      ensures Valid() && clock >= old(clock) && IsAfter(old(Now()), Now())
    {
      var m: Option<Commit>, o: Option<Commit>, later: nat := *, *, *;
      if later >= clock && IsSafe(m, later, unpublished) && IsSafe(o, later, unpublished) {
        OthersMove(m, o, later);
      }
    }

    method OthersMove(m: Option<Commit>, o: Option<Commit>, later: nat)
      requires Valid() && later >= clock && IsSafe(m, later, unpublished) && IsSafe(o, later, unpublished)
      modifies this`main, this`origin, this`clock, this`log
      ensures Valid() && clock == later && IsAfter(old(Now()), Now())
    {
      MoveOfOthers(log, m, o);
      LaterByOne(log, log, OthersMovedMain(m));
      LaterByOne(log, log + [OthersMovedMain(m)], OthersMovedOrigin(o));
      HeadStaysSafe(head, main, m, clock, later, unpublished);
      log := log + [OthersMovedMain(m)] + [OthersMovedOrigin(o)];
      main, origin, clock := m, o, later;
    }

    /** The clock moves on by the stamps just used. */
    method PassTime(ticks: nat)
      requires Valid()
      modifies this`clock
      ensures Valid() && clock == old(clock) + ticks
    {
      SafeLater(main, clock, unpublished, clock + ticks, unpublished);
      SafeLater(origin, clock, unpublished, clock + ticks, unpublished);
      SafeLater(HeadCommit(head, main), clock, unpublished, clock + ticks, unpublished);
      clock := clock + ticks;
    }

    /** `git update-ref refs/heads/main to was`: the CAS every move of `main`
        goes through. `move` is what the history records when it wins. */
    method UpdateMainCas(to: Commit, was: Commit, ghost move: Event) returns (ok: bool)
      requires Valid() && IsSafe(Some(to), clock, unpublished - {to})
      requires (move == Event.Landed(was, to) && to.parents == [was])
               || (move.Synced? && move.was == was && move.to == to && IsLawfulSync(move))
      modifies this`main, this`unpublished, this`log, this`ours, this`casualties
      ensures Valid()
      ensures ok <==> old(main) == Some(was)
      ensures ok ==> main == Some(to) && log == old(log) + [move] && unpublished == old(unpublished) - {to}
      ensures ours == old(ours) + (if ok && move.Landed? then [move] else [])
      ensures casualties == old(casualties) + (if ok && move.Synced? then move.dropped else [])
      ensures !ok ==> main == old(main) && log == old(log) && unpublished == old(unpublished)
      ensures IsAfter(old(Now()), Now())
    {
      ok := main == Some(was);
      if ok {
        HistoryAppend(log, move);
        LaterByOne(log, log, move);
        SafeLater(origin, clock, unpublished, clock, unpublished - {to});
        SafeLater(HeadCommit(head, main), clock, unpublished, clock, unpublished - {to});
        main, unpublished, log := Some(to), unpublished - {to}, log + [move];
        if move.Landed? {
          ours := ours + [move];
        } else {
          casualties := casualties + move.dropped;
        }
      }
    }

    method AdvanceCheckout(checkout: CheckoutState, tip: Commit, detaches: bool) returns (ok: bool)
      requires Valid() && IsSafe(checkout.sha, clock, unpublished)
      modifies this`head, this`work
      ensures Valid() && KeepsUnstaged(old(work), work) && (head == old(head) || head.Detached?)
      ensures Advanced(ok, head, work) == Advance(checkout, tip, old(head), old(work), detaches)
    {
      forall p {
        UnstagedWorkIsNeverTouched(checkout, tip, head, work, detaches, p);
      }
      var result := Advance(checkout, tip, head, work, detaches);
      ok, head, work := result.ok, result.head, result.work;
    }

    /** `_sync_main_to_origin_impl`. `seen` is the moment the local commit was
        read; the casualties of the replay are reported exactly when the swap of
        `main` succeeded. */
    method SyncMain(resetDivergence: bool, a: Answers)
      returns (report: SyncReport, ghost seen: Moment, ghost carry: Option<Carry>)
      requires Valid()
      modifies this
      ensures Valid() && clock >= old(clock) && unpublished == old(unpublished) && KeepsUnstaged(old(work), work)
      ensures ours == old(ours) && casualties == old(casualties) + DroppedBy(report)
      ensures IsAfter(old(Now()), seen) && IsAfter(seen, Now())
      ensures IsReported(report, TipAt(seen), old(origin), a.fetches, resetDivergence, main, MainSha(), revList,
                         a.faults)
      ensures report.Swapped? ==> main == Some(report.move.to) && log != [] && log[|log| - 1] == report.move
      ensures report.Swapped? <==> carry.Some?
      ensures carry.Some? ==>
              carry.value.detached == a.syncDetaches
              && IsCarriedBy(carry.value, TipAt(seen).value, report.move.to, head, main, work)
    {
      seen, carry := Now(), None;
      if !a.fetches || origin.None? {
        return NothingToCompare, seen, carry;
      }
      var target := origin.value;
      Interfere();
      SafeLater(Some(target), old(clock), unpublished, clock, unpublished);
      seen := Now();
      var current := MainSha();
      if current.None? {
        return NothingToCompare, seen, carry;
      }
      report, carry := SyncFrom(current.value, target, resetDivergence, a);
    }

    /** Compare the local commit with origin's tip; over a divergence that may
        be reset, build the new tip, swap `main` and carry the checkout. */
    method SyncFrom(was: Commit, target: Commit, resetDivergence: bool, a: Answers)
      returns (report: SyncReport, ghost carry: Option<Carry>)
      requires Valid() && MainSha() == Some(was) && IsSafe(Some(target), clock, unpublished)
      modifies this
      ensures Valid() && clock >= old(clock) && unpublished == old(unpublished) && KeepsUnstaged(old(work), work)
      ensures IsAfter(old(Now()), Now())
      ensures ours == old(ours) && casualties == old(casualties) + DroppedBy(report)
      ensures IsReported(report, Some(was), Some(target), true, resetDivergence, main, MainSha(), revList, a.faults)
      ensures report.Swapped? ==> main == Some(report.move.to) && log != [] && log[|log| - 1] == report.move
      ensures report.Swapped? <==> carry.Some?
      ensures carry.Some? ==>
              carry.value.detached == a.syncDetaches
              && IsCarriedBy(carry.value, was, report.move.to, head, main, work)
    {
      carry := None;
      if was == target {
        return Current, carry;
      }
      var behind := Reaches(target, was);
      if !behind && !resetDivergence {
        return LeftAlone, carry;
      }
      var move := BuildTip(was, target, behind, a.faults);
      report, carry := SwapAndAdvance(move, was, a);
    }

    /** Over a divergence, replay the unpushed commits onto origin's tip. */
    method BuildTip(was: Commit, target: Commit, behind: bool, faults: map<nat, Fault>) returns (move: Event)
      requires Valid() && behind == Reaches(target, was) && IsSafe(Some(target), clock, unpublished)
      modifies this`clock
      ensures Valid() && clock >= old(clock)
      ensures IsSwap(move, was, revList, faults) && move.target == target && IsSafe(Some(move.to), clock, unpublished)
    {
      var env := Env(clock, faults);
      if behind {
        return Synced(was, target, target, None, env, []);
      }
      var listed := revList(target, was);
      var unpushed := Unpushed(listed);
      var tip, lost := ReplayUnpushed(target, unpushed, env);
      RescueIsSafe(target, unpushed, env, clock + |unpushed|, unpublished);
      PassTime(|unpushed|);
      move := Synced(was, tip, target, listed, env, lost);
    }

    /** The swap itself, to a tip that reaches nothing hidden. */
    method SwapTip(move: Event, was: Commit, ghost start: Moment) returns (ok: bool)
      requires Valid() && move.Synced? && IsSwap(move, was, revList, move.env.faults)
      requires IsSafe(Some(move.to), clock, unpublished)
      requires IsAfter(start, Now())
      modifies this`main, this`unpublished, this`log, this`ours, this`casualties
      ensures Valid() && IsAfter(start, Now()) && unpublished == old(unpublished) && ours == old(ours)
      ensures ok <==> old(main) == Some(was)
      ensures ok ==> main == Some(move.to) && log != [] && log[|log| - 1] == move
      ensures ok ==> casualties == old(casualties) + move.dropped
      ensures !ok ==> main == old(main) && casualties == old(casualties)
    {
      ghost var before := Now();
      assert unpublished - {move.to} == unpublished by { assert move.to in Ancestors(move.to); }
      ok := UpdateMainCas(move.to, was, move);
      AfterAll(start, before, Now());
    }

    /** The swap, and the checkout carried after it. */
    method SwapAndAdvance(move: Event, was: Commit, a: Answers)
      returns (report: SyncReport, ghost carry: Option<Carry>)
      requires Valid() && IsSwap(move, was, revList, a.faults) && IsSafe(Some(move.to), clock, unpublished)
      modifies this
      ensures Valid() && clock >= old(clock) && unpublished == old(unpublished) && KeepsUnstaged(old(work), work)
      ensures IsAfter(old(Now()), Now())
      ensures ours == old(ours) && casualties == old(casualties) + DroppedBy(report)
      ensures report == Swapped(move) || report == RaceLost(move)
      ensures report.Swapped? ==> main == Some(move.to) && log != [] && log[|log| - 1] == move
      ensures report.RaceLost? ==> main != Some(was)
      ensures report.Swapped? <==> carry.Some?
      ensures carry.Some? ==>
              carry.value.work == old(work) && carry.value.detached == a.syncDetaches
              && IsCarriedBy(carry.value, was, move.to, head, main, work)
    {
      var checkout := CheckoutState(HeadCommit(head, main), head);
      Interfere();
      SafeLater(checkout.sha, old(clock), unpublished, clock, unpublished);
      SafeLater(Some(move.to), old(clock), unpublished, clock, unpublished);
      var swapped := SwapTip(move, was, old(Now()));
      carry := None;
      if swapped {
        carry := CarryAlong(checkout, was, move.to, a.syncDetaches);
      }
      report := if swapped then Swapped(move) else RaceLost(move);
    }

    /** The advance after `main` was swapped from `was` to `to`. */
    method CarryAlong(checkout: CheckoutState, was: Commit, to: Commit, detaches: bool)
      returns (ghost carry: Option<Carry>)
      requires Valid() && IsSafe(checkout.sha, clock, unpublished) && main == Some(to) && checkout.head == head
      requires head.OnMain? || checkout.sha == HeadCommit(head, Some(was))
      modifies this`head, this`work
      ensures Valid() && KeepsUnstaged(old(work), work) && (head == old(head) || head.Detached?)
      ensures carry == Some(Carry(checkout, Some(was), old(work), detaches))
      ensures IsCarriedBy(carry.value, was, to, head, main, work)
    {
      var advanced := AdvanceCheckout(checkout, to, detaches);
      carry := Some(Carry(checkout, Some(was), old(work), detaches));
      AllCarried(carry.value, was, to, Advanced(advanced, head, work));
    }

    /** `git push remote to:refs/heads/main`, never forced. */
    method PushMain(to: Commit, accepts: bool) returns (ok: bool)
      requires Valid() && IsSafe(Some(to), clock, unpublished - {to})
      modifies this`origin, this`unpublished, this`log, this`ours
      ensures Valid() && IsAfter(old(Now()), Now())
      ensures ok <==> !IsPushRefused(accepts, to, old(origin))
      ensures ok ==>
              origin == Some(to) && ours == old(ours) + [Pushed(old(origin), to)]
                && unpublished == old(unpublished) - {to}
      ensures !ok ==> origin == old(origin) && ours == old(ours) && unpublished == old(unpublished) && log == old(log)
    {
      ok := accepts && (origin.None? || Reaches(to, origin.value));
      if ok {
        ghost var move := Pushed(origin, to);
        HistoryAppend(log, move);
        LaterByOne(log, log, move);
        SafeLater(main, clock, unpublished, clock, unpublished - {to});
        SafeLater(HeadCommit(head, main), clock, unpublished, clock, unpublished - {to});
        origin, unpublished, log, ours := Some(to), unpublished - {to}, log + [move], ours + [move];
      }
    }

    /** Steps 3 and 4 of the pipeline: None when the CAS lost a race. */
    method CasAndAdvance(checkout: CheckoutState, base: Commit, to: Commit, detaches: bool)
      returns (kind: Option<LandKind>, ghost carry: Option<Carry>)
      requires Valid() && IsSafe(checkout.sha, clock, unpublished)
      requires checkout.head == head && (head.OnMain? || checkout.sha == HeadCommit(head, main))
      requires to == base || to.parents == [base]
      requires IsSafe(Some(to), clock, unpublished - {to})
      modifies this`main, this`head, this`work, this`unpublished, this`log, this`ours, this`casualties
      ensures Valid() && KeepsUnstaged(old(work), work)
      ensures IsAfter(old(Now()), Now())
      ensures kind.None? <==> to != base && old(main) != Some(base)
      ensures kind.None? ==> main == old(main)
      ensures kind.Some? ==> kind.value == LandedKind || kind.value == CheckoutBehind
      ensures ours == old(ours) + (if kind.Some? && to != base then [Event.Landed(base, to)] else [])
      ensures casualties == old(casualties)
      ensures unpublished == old(unpublished) - (if kind.Some? && to != base then {to} else {})
      ensures if kind.None? then carry.None? && work == old(work) && head == old(head)
              else
                && carry == Some(Carry(checkout, old(main), old(work), detaches))
                && IsCheckoutTold(LandOutcome(kind.value, Some(to), [], None), Some(base), carry, head, main, work)
    {
      carry := None;
      if to != base {
        var swapped := UpdateMainCas(to, base, Event.Landed(base, to));
        if !swapped {
          return None, carry;
        }
      }
      var advanced := AdvanceCheckout(checkout, to, detaches);
      carry := Some(Carry(checkout, old(main), old(work), detaches));
      AllCarried(carry.value, base, to, Advanced(advanced, head, work));
      kind := Some(if advanced then LandedKind else CheckoutBehind);
    }

    /** Run the producer on `base`; what it writes is, so far, ours alone. */
    method Produce(produce: Producer, base: Commit) returns (produced: ProduceResult)
      requires Valid() && IsLawful(produce) && IsSafe(Some(base), clock, unpublished)
      modifies this`clock, this`unpublished
      ensures Valid() && clock > old(clock) && produced == produce(base, old(clock))
      ensures produced.Produced? && produced.sha != base ==>
                produced.sha.parents == [base] && unpublished == old(unpublished) + {produced.sha}
      ensures produced.Produced? ==> IsSafe(Some(produced.sha), clock, unpublished - {produced.sha})
      ensures !(produced.Produced? && produced.sha != base) ==> unpublished == old(unpublished)
    {
      produced := produce(base, clock);
      PassTime(1);
      if produced.Produced? && produced.sha != base {
        FreshIsUnseen(main, old(clock), unpublished, produced.sha);
        FreshIsUnseen(origin, old(clock), unpublished, produced.sha);
        FreshIsUnseen(HeadCommit(head, main), old(clock), unpublished, produced.sha);
        ChildIsSafe(produced.sha, base, old(clock), unpublished);
        unpublished := unpublished + {produced.sha};
        SafeLater(Some(produced.sha), clock, old(unpublished), clock, unpublished - {produced.sha});
      } else if produced.Produced? {
        SafeLater(Some(base), old(clock), unpublished, clock, unpublished - {base});
      }
    }

    /** Push mode: push first, CAS second. None when origin refused; a CAS
        that lost afterwards still counts as landed. */
    method PushThenCas(checkout: CheckoutState, base: Commit, to: Commit, a: Answers)
      returns (kind: Option<LandKind>, ghost moves: seq<Event>, ghost carry: Option<Carry>)
      requires Valid() && IsSafe(checkout.sha, clock, unpublished)
      requires checkout.head == head && (head.OnMain? || checkout.sha == HeadCommit(head, main))
      requires to == base || to.parents == [base]
      requires IsSafe(Some(to), clock, unpublished - {to})
      modifies this
      ensures Valid() && clock >= old(clock) && KeepsUnstaged(old(work), work) && IsAfter(old(Now()), Now())
      ensures unpublished == old(unpublished) - (if kind.Some? then {to} else {})
      ensures casualties == old(casualties) && ours == old(ours) + moves
      ensures kind.None? <==> IsPushRefused(a.accepts, to, old(origin))
      ensures carry.Some? ==> carry.value.detached == a.landDetaches
      ensures if kind.None? then moves == [] && carry.None? && origin == old(origin)
              else var out := LandOutcome(kind.value, Some(to), [], Some(true));
                && IsSuccess(out) && IsLandTrace(Push, out, Some(base), moves)
                && IsCheckoutTold(out, Some(base), carry, head, main, work)
    {
      var pushed := PushMain(to, a.accepts);
      if !pushed {
        return None, [], None;
      }
      ghost var sent := Now();
      moves := [Pushed(old(origin), to)];
      SafeLater(checkout.sha, clock, old(unpublished), clock, unpublished);
      assert old(unpublished) - {to} == unpublished - {to};
      Interfere();
      SafeLater(checkout.sha, old(clock), unpublished, clock, unpublished);
      SafeLater(Some(to), old(clock), unpublished - {to}, clock, unpublished - {to});
      AfterAll(old(Now()), sent, Now());
      kind, carry := AfterThePush(checkout, base, to, a.landDetaches, old(Now()));
      if kind.None? {
        kind := Some(LandedKind);
      } else if to != base {
        moves := moves + [Event.Landed(base, to)];
      }
    }

    /** The swap after a push that went through. */
    method AfterThePush(checkout: CheckoutState, base: Commit, to: Commit, detaches: bool, ghost start: Moment)
      returns (kind: Option<LandKind>, ghost carry: Option<Carry>)
      requires Valid() && IsSafe(checkout.sha, clock, unpublished) && to !in unpublished && IsAfter(start, Now())
      requires checkout.head == head && (head.OnMain? || checkout.sha == HeadCommit(head, main))
      requires to == base || to.parents == [base]
      requires IsSafe(Some(to), clock, unpublished - {to})
      modifies this`main, this`head, this`work, this`unpublished, this`log, this`ours, this`casualties
      ensures Valid() && KeepsUnstaged(old(work), work) && IsAfter(start, Now())
      ensures kind.None? ==> to != base
      ensures kind.Some? ==> kind.value == LandedKind || kind.value == CheckoutBehind
      ensures ours == old(ours) + (if kind.Some? && to != base then [Event.Landed(base, to)] else [])
      ensures casualties == old(casualties) && unpublished == old(unpublished)
      ensures if kind.None? then carry.None?
              else
                && carry.Some? && carry.value.detached == detaches
                && IsCheckoutTold(LandOutcome(kind.value, Some(to), [], None), Some(base), carry, head, main, work)
    {
      ghost var before := Now();
      kind, carry := CasAndAdvance(checkout, base, to, detaches);
      AfterAll(start, before, Now());
      assert unpublished == old(unpublished);
    }

    /** `integrate_and_push_locked`. None is the assertion error of a loop
        that never ran. `minted` are the commits the producer wrote, `syncs`
        what each pass's opening sync did, if it ran, and `at` the moment the
        last pass read the tip it produced on. */
    method IntegrateAndPush(ctx: RepoContext, produce: Producer, mode: LandingMode, maxRetries: int, world: World)
      returns (out: Option<LandOutcome>, passes: nat, minted: set<Commit>, ghost at: Moment,
               ghost moves: seq<Event>, ghost syncs: seq<Option<Opening>>, ghost carry: Option<Carry>,
               ghost last: Answers)
      requires Valid() && IsLawful(produce)
      modifies this
      ensures Valid() && KeepsUnstaged(old(work), work)
      ensures out.None? <==> maxRetries < 0
      ensures ours == old(ours) + moves && (out.Some? ==> casualties == old(casualties) + out.value.dropped)
      ensures out.Some? ==> 1 <= passes <= maxRetries + 1 && last == world(passes - 1)
      ensures out.Some? ==> IsSchedule(syncs, old(Now()), at) && IsAfter(at, Now())
      ensures out.Some? ==> IsTold(mode, out.value, produce, TipAt(at), moves, carry, head, main, work)
      ensures out.Some? ==> IsPushTold(mode, out.value, last.opensPr)
      ensures out.Some? && carry.Some? ==> carry.value.detached == last.landDetaches
      ensures out.Some? && out.value.kind == Conflict ==> at == Now()
      ensures out.Some? && out.value.kind == PushRejected ==>
                && passes == (if mode == Push && !ctx.remote then 1 else maxRetries + 1)
                && IsLost(mode, produce, TipAt(at), last.accepts, main, origin)
      ensures unpublished == old(unpublished) + minted - Published(out)
      ensures out.Some? ==> out.value.dropped == AllDropped(syncs)
      ensures |syncs| == passes && AreTrueSyncs(ctx, world, syncs, revList)
    {
      var dropped: seq<Commit> := [];
      out, passes, minted, at, moves, syncs, carry, last := None, 0, {}, Now(), [], [], None, world(0);
      while passes <= maxRetries
        invariant Valid() && KeepsUnstaged(old(work), work)
        invariant passes > 0 ==> passes <= maxRetries && (mode == Push ==> ctx.remote)
        invariant out.None? && moves == [] && unpublished == old(unpublished) + minted
        invariant ours == old(ours) && casualties == old(casualties) + dropped
        invariant |syncs| == passes && AreTrueSyncs(ctx, world, syncs, revList) && dropped == AllDropped(syncs)
        invariant IsSchedule(syncs, old(Now()), Now())
      {
        var wrote;
        ghost var before := work;
        out, dropped, wrote, at, moves, syncs, carry, last :=
          OneTurn(ctx, produce, mode, passes, maxRetries, world, old(casualties), dropped, syncs, old(Now()));
        KeptStill(old(work), before, work);
        passes, minted := passes + 1, minted + wrote;
        if out.Some? {
          return;
        }
      }
    }

    /** One turn of the loop: None when it lost a race and may try again.
        `before` are the casualties so far, `begun` the moment the land began. */
    method OneTurn(ctx: RepoContext, produce: Producer, mode: LandingMode, attempt: nat, maxRetries: int, world: World,
                   ghost start: seq<Commit>, before: seq<Commit>, ghost syncsBefore: seq<Option<Opening>>,
                   ghost begun: Moment)
      returns (out: Option<LandOutcome>, dropped: seq<Commit>, wrote: set<Commit>, ghost at: Moment,
               ghost moves: seq<Event>, ghost syncs: seq<Option<Opening>>, ghost carry: Option<Carry>,
               ghost last: Answers)
      requires Valid() && IsLawful(produce) && attempt <= maxRetries && casualties == start + before
      requires |syncsBefore| == attempt && AreTrueSyncs(ctx, world, syncsBefore, revList)
      requires before == AllDropped(syncsBefore) && IsSchedule(syncsBefore, begun, Now())
      modifies this
      ensures Valid() && KeepsUnstaged(old(work), work)
      ensures ours == old(ours) + moves && casualties == start + dropped
      ensures last == world(attempt)
      ensures |syncs| == attempt + 1 && AreTrueSyncs(ctx, world, syncs, revList) && dropped == AllDropped(syncs)
      ensures IsSchedule(syncs, begun, at) && IsAfter(at, Now()) && IsSchedule(syncs, begun, Now())
      ensures unpublished == old(unpublished) + wrote - Published(out)
      ensures out.Some? ==>
              && IsTold(mode, out.value, produce, TipAt(at), moves, carry, head, main, work)
              && IsPushTold(mode, out.value, last.opensPr) && out.value.dropped == dropped
              && (out.value.kind == Conflict ==> at == Now())
      ensures carry.Some? ==> carry.value.detached == last.landDetaches
      ensures out.None? || out.value.kind == PushRejected ==>
                IsLost(mode, produce, TipAt(at), last.accepts, main, origin)
      ensures out.Some? && out.value.kind == PushRejected ==>
                attempt == maxRetries || (mode == Push && !ctx.remote)
      ensures out.None? ==> moves == [] && attempt < maxRetries && (mode == Push ==> ctx.remote)
    {
      var pass, more;
      last := world(attempt);
      ghost var sync;
      ghost var began := Now();
      pass, more, wrote, at, moves, sync, carry := SyncThenLand(ctx, produce, mode, attempt, world);
      dropped, syncs := before + more, syncsBefore + [sync];
      Booked(ctx, world, syncsBefore, sync, revList, begun, began, at, Now());
      Regroup(start, before, more);
      if !pass.Lost? || attempt == maxRetries || (mode == Push && !ctx.remote) {
        out := Conclude(produce, mode, pass, dropped, at, moves, carry, last);
      } else {
        out := None;
      }
    }

    /** What the last pass comes to. */
    method Conclude(ghost produce: Producer, mode: LandingMode, pass: Pass, dropped: seq<Commit>, ghost at: Moment,
                    ghost moves: seq<Event>, ghost carry: Option<Carry>, ghost a: Answers)
      returns (out: Option<LandOutcome>)
      requires pass.Done? ==> pass.pushed == PushedBy(mode, a.opensPr)
      requires pass.Done? ==> IsDone(mode, pass, produce, TipAt(at), moves, carry, head, main, work)
      requires !pass.Done? ==> moves == [] && carry.None?
      requires pass.NothingToLand? ==> IsExplained(LandOutcome(Conflict, None, [], None), produce, TipAt(at))
      ensures out.Some? && IsTold(mode, out.value, produce, TipAt(at), moves, carry, head, main, work)
      ensures IsPushTold(mode, out.value, a.opensPr) && out.value.dropped == dropped
      ensures Published(out) == if pass.Done? then {pass.sha} else {}
      ensures (out.value.kind == PushRejected <==> pass.Lost?) && (out.value.kind == Conflict ==> pass.NothingToLand?)
    {
      LastPassIsTold(mode, pass, dropped, produce, TipAt(at), moves, carry, head, main, work, a.opensPr);
      out := Some(OutcomeOf(mode, pass, dropped));
    }

    /** Its opening sync and the pass itself. */
    method SyncThenLand(ctx: RepoContext, produce: Producer, mode: LandingMode, attempt: nat, world: World)
      returns (pass: Pass, dropped: seq<Commit>, wrote: set<Commit>, ghost at: Moment,
               ghost moves: seq<Event>, ghost sync: Option<Opening>, ghost carry: Option<Carry>)
      requires Valid() && IsLawful(produce)
      modifies this
      ensures Valid() && KeepsUnstaged(old(work), work)
      ensures ours == old(ours) + moves && casualties == old(casualties) + dropped
      ensures dropped == (if sync.Some? then DroppedBy(sync.value.report) else [])
      ensures IsTrueOpening(ctx, world, sync, attempt, revList)
      ensures sync.Some? ==> IsAfter(old(Now()), sync.value.start) && IsAfter(sync.value.end, at)
      ensures IsAfter(old(Now()), at) && IsAfter(at, Now())
      ensures unpublished == old(unpublished) + wrote - (if pass.Done? then {pass.sha} else {})
      ensures pass.Done? ==> IsDone(mode, pass, produce, TipAt(at), moves, carry, head, main, work)
      ensures pass.Done? ==> pass.pushed == PushedBy(mode, world(attempt).opensPr)
      ensures carry.Some? ==> carry.value.detached == world(attempt).landDetaches
      ensures !pass.Done? ==> moves == [] && carry.None?
      ensures pass.NothingToLand? ==>
              at == Now() && IsExplained(LandOutcome(Conflict, None, [], None), produce, TipAt(at))
      ensures pass.Lost? ==> IsLost(mode, produce, TipAt(at), world(attempt).accepts, main, origin)
    {
      Interfere();
      ghost var start := Now();
      dropped, sync := MaybeSync(ctx, attempt, world);
      ghost var ready := Now();
      AfterAll(old(Now()), start, ready);
      ghost var synced := work;
      pass, wrote, at, moves, carry := OnePass(produce, mode, world(attempt));
      KeptStill(old(work), synced, work);
      AfterAll(old(Now()), ready, at);
      if sync.Some? {
        AfterAll(sync.value.end, ready, at);
      }
    }

    /** Step 1 of a pass: the first one is throttled, a retry must re-sync,
        rescuing any divergence. */
    method MaybeSync(ctx: RepoContext, attempt: nat, world: World)
      returns (dropped: seq<Commit>, ghost sync: Option<Opening>)
      requires Valid()
      modifies this
      ensures Valid() && KeepsUnstaged(old(work), work) && unpublished == old(unpublished)
      ensures ours == old(ours) && casualties == old(casualties) + dropped
      ensures dropped == (if sync.Some? then DroppedBy(sync.value.report) else [])
      ensures IsTrueOpening(ctx, world, sync, attempt, revList) && IsAfter(old(Now()), Now())
      ensures sync.Some? ==> sync.value.start == old(Now()) && sync.value.end == Now()
    {
      dropped, sync := [], None;
      if ctx.remote && (attempt > 0 || world(attempt).due) {
        ghost var start, seen, carry := Now(), Now(), None;
        var report;
        report, seen, carry := SyncMain(attempt > 0 || ctx.rescueDivergenceOnFirstSync, world(attempt));
        AfterAll(start, seen, Now());
        dropped, sync := DroppedBy(report), Some(Opening(report, start, seen, Now()));
      }
    }

    /** Steps 2 to 4 of a pass: read the tip, produce on it, publish. */
    method OnePass(produce: Producer, mode: LandingMode, a: Answers)
      returns (pass: Pass, wrote: set<Commit>, ghost at: Moment, ghost moves: seq<Event>, ghost carry: Option<Carry>)
      requires Valid() && IsLawful(produce)
      modifies this
      ensures Valid() && KeepsUnstaged(old(work), work)
      ensures ours == old(ours) + moves && casualties == old(casualties)
      ensures IsAfter(old(Now()), at) && IsAfter(at, Now()) && at.head == old(head)
      ensures unpublished == old(unpublished) + wrote - (if pass.Done? then {pass.sha} else {})
      ensures pass.Done? ==> IsDone(mode, pass, produce, TipAt(at), moves, carry, head, main, work)
      ensures pass.Done? ==> pass.pushed == PushedBy(mode, a.opensPr)
      ensures !pass.Done? ==> moves == [] && carry.None?
      ensures carry.Some? ==> carry.value.detached == a.landDetaches
      ensures pass.NothingToLand? ==>
              at == Now() && IsExplained(LandOutcome(Conflict, None, [], None), produce, TipAt(at))
      ensures pass.Lost? ==> IsLost(mode, produce, TipAt(at), a.accepts, main, origin)
    {
      Interfere();
      at := Now();
      var tip := MainSha();
      if tip.None? {
        pass, wrote, moves, carry := NothingToLand, {}, [], None;
      } else {
        pass, wrote, moves, carry := LandOn(produce, mode, tip.value, a);
      }
    }

    /** Produce on the tip just read, and publish what came of it. */
    method LandOn(produce: Producer, mode: LandingMode, base: Commit, a: Answers)
      returns (pass: Pass, wrote: set<Commit>, ghost moves: seq<Event>, ghost carry: Option<Carry>)
      requires Valid() && IsLawful(produce) && MainSha() == Some(base)
      modifies this
      ensures Valid() && KeepsUnstaged(old(work), work) && IsAfter(old(Now()), Now())
      ensures ours == old(ours) + moves && casualties == old(casualties)
      ensures unpublished == old(unpublished) + wrote - (if pass.Done? then {pass.sha} else {})
      ensures pass.Done? ==> IsDone(mode, pass, produce, Some(base), moves, carry, head, main, work)
      ensures pass.Done? ==> pass.pushed == PushedBy(mode, a.opensPr)
      ensures !pass.Done? ==> moves == [] && carry.None?
      ensures carry.Some? ==> carry.value.detached == a.landDetaches
      ensures pass.NothingToLand? ==> old(Now()) == Now() && exists stamp :: produce(base, stamp).Refused?
      ensures pass.Lost? ==> IsLost(mode, produce, Some(base), a.accepts, main, origin)
    {
      wrote, moves, carry := {}, [], None;
      var produced := Produce(produce, base);
      if produced.Refused? {
        return NothingToLand, wrote, moves, carry;
      }
      if produced.sha != base {
        wrote := {produced.sha};
      }
      pass, moves, carry := Publish(produce, mode, base, produced.sha, a, Now());
    }

    /** What the producer made on the tip read at `at` is published, or lost. */
    method Publish(produce: Producer, mode: LandingMode, base: Commit, sha: Commit, a: Answers, ghost at: Moment)
      returns (pass: Pass, ghost moves: seq<Event>, ghost carry: Option<Carry>)
      requires Valid() && (sha == base || sha.parents == [base]) && IsSafe(Some(sha), clock, unpublished - {sha})
      requires sha == base ==> sha !in unpublished
      requires IsAfter(at, Now()) && exists stamp :: produce(base, stamp) == Produced(sha)
      modifies this
      ensures Valid() && KeepsUnstaged(old(work), work) && IsAfter(at, Now())
      ensures casualties == old(casualties) && ours == old(ours) + moves
      ensures unpublished == old(unpublished) - (if pass.Done? then {sha} else {})
      ensures !pass.NothingToLand? && (pass.Done? ==> pass.sha == sha && pass.pushed == PushedBy(mode, a.opensPr))
      ensures pass.Done? ==> IsDone(mode, pass, produce, Some(base), moves, carry, head, main, work)
      ensures carry.Some? ==> carry.value.detached == a.landDetaches
      ensures pass.Lost? ==>
              moves == [] && carry.None? && IsLost(mode, produce, Some(base), a.accepts, main, origin)
    {
      Interfere();
      ghost var before := Now();
      AfterAll(at, old(Now()), before);
      SafeLater(Some(sha), old(clock), unpublished - {sha}, clock, unpublished - {sha});
      var kind, pushed;
      kind, pushed, moves, carry := LandOnce(mode, base, sha, a);
      AfterAll(at, before, Now());
      pass := if kind.Some? then Done(kind.value, sha, pushed) else Lost;
    }

    /** One pass after the commit exists: observe the checkout, then publish
        the commit by the mode's policy. None is a lost race. */
    method LandOnce(mode: LandingMode, base: Commit, sha: Commit, a: Answers)
      returns (kind: Option<LandKind>, pushed: Option<bool>, ghost moves: seq<Event>, ghost carry: Option<Carry>)
      requires Valid() && (sha == base || sha.parents == [base]) && IsSafe(Some(sha), clock, unpublished - {sha})
      requires sha == base ==> sha !in unpublished
      modifies this
      ensures Valid() && KeepsUnstaged(old(work), work) && IsAfter(old(Now()), Now())
      ensures casualties == old(casualties) && ours == old(ours) + moves
      ensures unpublished == old(unpublished) - (if kind.Some? then {sha} else {})
      ensures kind.Some? ==> pushed == PushedBy(mode, a.opensPr)
      ensures carry.Some? ==> carry.value.detached == a.landDetaches
      ensures if kind.None? then
                && moves == [] && carry.None?
                && if mode == Push then IsPushRefused(a.accepts, sha, origin) else main != Some(base)
              else
                var out := LandOutcome(kind.value, Some(sha), [], pushed);
                && IsSuccess(out) && IsLandTrace(mode, out, Some(base), moves)
                && IsCheckoutTold(out, Some(base), carry, head, main, work) && (mode != Push ==> carry.Some?)
    {
      var checkout := CheckoutState(HeadCommit(head, main), head);
      Interfere();
      ghost var before := Now();
      SafeLater(checkout.sha, old(clock), unpublished, clock, unpublished);
      SafeLater(Some(sha), old(clock), unpublished - {sha}, clock, unpublished - {sha});
      if mode == Push {
        kind, moves, carry := PushThenCas(checkout, base, sha, a);
        pushed := Some(kind.Some?);
      } else {
        kind, carry := CasAndAdvance(checkout, base, sha, a.landDetaches);
        moves := if kind.Some? && sha != base then [Event.Landed(base, sha)] else [];
        // `open_pr`: the branch push may fail; the land stands either way.
        pushed := if kind.Some? && mode == PullRequest then Some(a.opensPr) else None;
      }
      AfterAll(old(Now()), before, Now());
    }
  }

  // ----- Why a land is refused ----------------------------------------------

  lemma {:induction false} ScheduleIsAfter(ctx: RepoContext, world: World, syncs: seq<Option<Opening>>,
                                           revList: Listing, was: Moment, now: Moment)
    requires IsSchedule(syncs, was, now) && AreTrueSyncs(ctx, world, syncs, revList)
    ensures IsAfter(was, now)
  {
    if syncs == [] {
    } else {
      var init, sync := syncs[..|syncs| - 1], syncs[|syncs| - 1];
      assert IsTrueOpening(ctx, world, sync, |syncs| - 1, revList);
      assert AreTrueSyncs(ctx, world, init, revList) by {
        assert forall i :: 0 <= i < |init| ==>
                 init[i] == syncs[i] && IsTrueOpening(ctx, world, syncs[i], i, revList);
      }
      if sync.None? {
        ScheduleIsAfter(ctx, world, init, revList, was, now);
      } else {
        ScheduleIsAfter(ctx, world, init, revList, was, sync.value.start);
        AfterAll(was, sync.value.start, sync.value.seen);
        AfterAll(was, sync.value.seen, sync.value.end);
        AfterAll(was, sync.value.end, now);
      }
    }
  }

  /** Only others can take `main` away. */
  lemma {:induction false} MainStaysThere(was: seq<Event>, now: seq<Event>)
    requires IsLater(was, now) && HistoryOf(was).main.Some?
    requires forall k :: |was| <= k < |now| ==> now[k] != OthersMovedMain(None)
    ensures HistoryOf(now).main.Some?
  {
    if now == was {
    } else {
      var init := now[..|now| - 1];
      LaterIsPrefix(was, init);
      MainStaysThere(was, init);
      assert now[|now| - 1] != OthersMovedMain(None);
    }
  }

  /** In a repository with `main`, a land is refused only because somebody took
      `main` away in the course of it, or because the producer refused the tip
      that `main` had when it ended. */
  lemma ConflictsHaveAReason(ctx: RepoContext, world: World, produce: Producer, out: LandOutcome, revList: Listing,
                             syncs: seq<Option<Opening>>, begun: Moment, at: Moment)
    requires HistoryOf(begun.log).main.Some? && out.kind == Conflict
    requires AreTrueSyncs(ctx, world, syncs, revList) && IsSchedule(syncs, begun, at)
    requires IsExplained(out, produce, TipAt(at))
    ensures || (exists k :: |begun.log| <= k < |at.log| && at.log[k] == OthersMovedMain(None))
            || (HistoryOf(at.log).main.Some? && exists stamp :: produce(HistoryOf(at.log).main.value, stamp).Refused?)
  {
    ScheduleIsAfter(ctx, world, syncs, revList, begun, at);
    if forall k :: |begun.log| <= k < |at.log| ==> at.log[k] != OthersMovedMain(None) {
      MainStaysThere(begun.log, at.log);
    }
  }

  lemma FreshIsUnseen(ref: Option<Commit>, clock: nat, hidden: set<Commit>, x: Commit)
    requires IsSafe(ref, clock, hidden) && x.stamp == clock
    ensures IsSafe(ref, clock + 1, hidden + {x})
  {}

  lemma ChildIsSafe(child: Commit, base: Commit, clock: nat, hidden: set<Commit>)
    requires IsSafe(Some(base), clock, hidden) && child.parents == [base] && child.stamp == clock && child !in hidden
    ensures IsSafe(Some(child), clock + 1, hidden)
  {
    forall a | a in Ancestors(child)
      ensures a.stamp < clock + 1 && a !in hidden
    {
      assert a == child || a in Ancestors(base);
    }
  }
}
