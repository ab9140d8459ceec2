/** The lifecycle vocabulary (`lifecycle.py`): attempt states, failure kinds,
    what a failure means for the task, and the retry backoff.
*/
module Lifecycle {
  import opened Prelude
  import opened Git

  /** What a worker's submit reports. */
  datatype RunStatus = StillRunning | Completed | ReportedBlocked | ReportedError | ReportedSkip | ReportedAbort

  /** The one stored lifecycle column of an attempt. */
  datatype AttemptState =
    | Claimed | Running | Submitted | MidLand | Resolving
    | Landed | NoChange | Blocked | Failed | Conflicted | Expired | Aborted | Skipped

  const TERMINAL := {Landed, NoChange, Blocked, Failed, Conflicted, Expired, Aborted, Skipped}

  /** A task with an attempt in one of these cannot be handed out again. */
  const LIVE := {Running, MidLand}

  datatype FailureKind =
    | ModelUnavailable | BackendUnavailable | RepoUnavailable | PreflightFailed | WorktreeFailed
    | WorkerLaunch | PublishFailed | DocumentUnavailable
    | WorkerError | ValidationError | DeclaredBlock
    | MergeConflict | MergeRejected

  const MERGE_KINDS := {MergeConflict, MergeRejected}

  /** The stored state of an error outcome. */
  function ErrorStateFor(kind: Option<FailureKind>): AttemptState {
    if kind.Some? && kind.value in MERGE_KINDS then Conflicted else Failed
  }

  // ----- Landing vocabulary, shared with the git layer ----------------------

  datatype LandingMode = LocalOnly | Push | PullRequest

  datatype LandKind = LandedKind | NoChanges | Adopted | Conflict | CheckoutBehind | PushRejected | TransportFailed

  const LAND_SUCCESS := {LandedKind, CheckoutBehind, Adopted}

  const LAND_REFUSED := {Conflict, PushRejected, TransportFailed}

  /** `pushed` is None when no remote action was attempted; `retryable`
      refines a transport failure. */
  datatype LandOutcome = LandOutcome(kind: LandKind, sha: Option<Commit>, dropped: seq<Commit>, pushed: Option<bool>,
                                     retryable: bool := false)

  /** The failure kind stored for a refused land; the other kinds have none. */
  function LandFailureKind(kind: LandKind): Option<FailureKind> {
    match kind
    case Conflict => Some(MergeConflict)
    case PushRejected | TransportFailed => Some(MergeRejected)
    case _ => None
  }

  /** A refused land, and nothing else, is stored as a conflict to resolve. */
  lemma RefusedLandsAreConflicts(kind: LandKind)
    ensures kind in LAND_REFUSED <==> LandFailureKind(kind).Some?
    ensures kind in LAND_REFUSED <==> ErrorStateFor(LandFailureKind(kind)) == Conflicted
    ensures kind in LAND_REFUSED + LAND_SUCCESS + {NoChanges}
  {}

  // ----- Retry policy -------------------------------------------------------

  datatype RetryAction = Retry | RetryElsewhere | HoldForResolve | Quarantine

  /** A positive `quarantineAfter` is the no-progress threshold. */
  datatype RetryPolicy = RetryPolicy(quarantineAfter: int, immediateQuarantine: bool, backoff: Backoff) {
    function OnFailure(kind: FailureKind): RetryAction {
      match kind
      case ModelUnavailable | BackendUnavailable | RepoUnavailable | PreflightFailed
         | WorktreeFailed | WorkerLaunch | PublishFailed | DocumentUnavailable => RetryElsewhere
      case WorkerError => if immediateQuarantine then Quarantine else Retry
      case ValidationError | DeclaredBlock | MergeConflict | MergeRejected => HoldForResolve
    }
  }

  /** What a failure means for its task: the box's own failures send it
      elsewhere, the worker's are retried or quarantined as the worker asks, and
      the rest wait for a resolve. */
  lemma FailuresAreSplit(policy: RetryPolicy, kind: FailureKind)
    ensures policy.OnFailure(kind) == Quarantine <==> kind == WorkerError && policy.immediateQuarantine
    ensures policy.OnFailure(kind) == Retry <==> kind == WorkerError && !policy.immediateQuarantine
    ensures policy.OnFailure(kind) == HoldForResolve <==>
            kind in {ValidationError, DeclaredBlock, MergeConflict, MergeRejected}
  {}

  // ----- Backoff ------------------------------------------------------------

  function PowerOf2(n: nat): (p: real)
    ensures p >= 1.0
  {
    if n == 0 then 1.0 else 2.0 * PowerOf2(n - 1)
  }

  function Min(a: real, b: real): real {
    if a <= b then a else b
  }

  datatype Backoff = Backoff(base: real, cap: real) {
    function Doubled(times: nat): real {
      Min(base * PowerOf2(times), cap)
    }

    /** The exponent is clamped so that a huge counter cannot overflow. */
    function Delay(attempts: nat): real
      requires attempts >= 1
    {
      Doubled(Clamped(attempts - 1, CLAMP))
    }

    /** The documented formula, with no clamp. */
    function Formula(attempts: nat): real
      requires attempts >= 1
    {
      Doubled(attempts - 1)
    }
  }

  const CLAMP: nat := 63

  function Clamped(n: nat, most: nat): nat {
    if n <= most then n else most
  }

  lemma {:induction false} PowerOf2Grows(m: nat, n: nat)
    requires m <= n
    ensures PowerOf2(m) <= PowerOf2(n)
    ensures m < n ==> PowerOf2(m) < PowerOf2(n)
  {
    if m == n {
    } else {
      PowerOf2Grows(m, n - 1);
    }
  }

  lemma ProductIsPositive(a: real, b: real)
    requires a > 0.0 && b > 0.0
    ensures a * b > 0.0
  {}

  lemma ProductOfDifference(a: real, x: real, y: real)
    ensures a * (y - x) == a * y - a * x
  {}

  lemma NegatedProduct(a: real, x: real)
    ensures (-a) * x == -(a * x)
  {}

  /** How a product moves when its second factor grows. */
  lemma ScaledGrows(base: real, x: real, y: real)
    requires x < y
    ensures if base > 0.0 then base * x < base * y else if base < 0.0 then base * x > base * y else base * x == base * y
  {
    ProductOfDifference(base, x, y);
    if base > 0.0 {
      ProductIsPositive(base, y - x);
    } else if base < 0.0 {
      ProductIsPositive(-base, y - x);
      NegatedProduct(base, y - x);
    }
  }

  lemma CappedGrows(p: real, q: real, cap: real)
    requires p < q
    ensures Min(p, cap) <= Min(q, cap) && (Min(p, cap) == Min(q, cap) <==> Min(p, cap) == cap)
  {}

  /** How the capped product moves when its factor grows. */
  lemma MinOfScaled(base: real, x: real, y: real, cap: real)
    requires x < y
    ensures base >= 0.0 ==> Min(base * x, cap) <= Min(base * y, cap)
    ensures Min(base * x, cap) == Min(base * y, cap) <==>
            base == 0.0 || (if base > 0.0 then Min(base * x, cap) else Min(base * y, cap)) == cap
  {
    var p, q := base * x, base * y;
    ScaledGrows(base, x, y);
    if base > 0.0 {
      CappedGrows(p, q, cap);
    } else if base < 0.0 {
      CappedGrows(q, p, cap);
    }
  }

  /** Two delays compared by how often the base was doubled. */
  lemma DoublingExactly(b: Backoff, i: nat, j: nat)
    requires i <= j
    ensures b.base >= 0.0 ==> b.Doubled(i) <= b.Doubled(j)
    ensures b.Doubled(i) == b.Doubled(j) <==>
            i == j || b.base == 0.0
            || (if b.base > 0.0 then b.Doubled(i) else b.Doubled(j)) == b.cap
  {
    if i < j {
      PowerOf2Grows(i, j);
      MinOfScaled(b.base, PowerOf2(i), PowerOf2(j), b.cap);
    }
  }

  /** The first delay is the base, below the cap every further attempt doubles
      it up to the cap, and from the 64th on it no longer moves. */
  lemma DelaysAreExact(b: Backoff, n: nat)
    requires n >= 1
    ensures b.Delay(1) == (if b.base > b.cap then b.cap else b.base) && b.Delay(n) <= b.cap
    ensures n < 64 && b.Delay(n) < b.cap ==>
              var twice := 2.0 * b.Delay(n); b.Delay(n + 1) == if twice > b.cap then b.cap else twice
    ensures n >= 64 ==> b.Delay(n) == b.Delay(64)
  {
    var p := PowerOf2(n - 1);
    DoubledBy(b, 0, 1.0);
    if n < 64 {
      DoubledBy(b, n - 1, p);
      NextDoubling(b, n - 1, p);
    }
  }

  lemma DoubledBy(b: Backoff, k: nat, p: real)
    requires p == PowerOf2(k)
    ensures b.Doubled(k) == Min(b.base * p, b.cap)
  {
    var q := PowerOf2(k);
    assert b.Doubled(k) == Min(b.base * q, b.cap);
  }

  lemma NextDoubling(b: Backoff, k: nat, p: real)
    requires p == PowerOf2(k)
    ensures b.Doubled(k + 1) == Min(2.0 * (b.base * p), b.cap)
  {
    var q := PowerOf2(k + 1);
    DoubledBy(b, k + 1, q);
    assert q == 2.0 * p;
  }

  /** That is the base times a power of 2, or the cap. */
  lemma DelayIsAPower(b: Backoff, n: nat, p: real)
    requires 1 <= n <= 64 && p == PowerOf2(n - 1)
    ensures var scaled := b.base * p; b.Delay(n) == if scaled > b.cap then b.cap else scaled
  {
    DoubledBy(b, n - 1, p);
  }

  /** Waiting never gets shorter, and never exceeds the cap. */
  lemma DelayIsMonotoneAndCapped(b: Backoff, m: nat, n: nat)
    requires b.base >= 0.0 && 1 <= m <= n
    ensures b.Delay(m) <= b.Delay(n) <= b.cap
  {
    DoublingExactly(b, Clamped(m - 1, CLAMP), Clamped(n - 1, CLAMP));
  }

  /** The clamp shows exactly when a base too small for the cap is doubled
      more than 63 times. */
  lemma DelayIsTheFormulaExactly(b: Backoff, n: nat)
    requires n >= 1
    ensures b.Delay(n) == b.Formula(n) <==>
            n - 1 <= 63 || b.base == 0.0
            || (if b.base > 0.0 then b.Doubled(63) else b.Formula(n)) == b.cap
  {
    DoublingExactly(b, Clamped(n - 1, CLAMP), n - 1);
  }

  /** So the documented delay is the real one for every counter exactly when
      63 doublings of the base reach the cap, or there is no base. */
  lemma DelayIsAlwaysTheFormulaExactly(b: Backoff)
    requires b.base >= 0.0
    ensures (forall n: nat | n >= 1 :: b.Delay(n) == b.Formula(n)) <==>
            b.base == 0.0 || b.Doubled(63) == b.cap
  {
    forall n: nat | n >= 1
      ensures b.Delay(n) == b.Formula(n) <==> n - 1 <= 63 || b.base == 0.0 || b.Doubled(63) == b.cap
    {
      DelayIsTheFormulaExactly(b, n);
    }
    var past: nat := CLAMP + 2;
    assert b.Delay(past) == b.Formula(past) <==> b.base == 0.0 || b.Doubled(63) == b.cap;
  }
}
