/** A workflow at run time: the cursor and the visit budget kept in the
    brief's file, moved by the transition table along the graph the validator
    accepted.
*/
module WorkflowRun {
  import opened Prelude
  import opened PyText
  import opened Lifecycle
  import opened Workflows
  import opened Visits
  import opened EngineLane
  import F = Frontmatter
  import L = FrontmatterLens
  import T = Transitions
  import TL = TransitionLaws

  // ----- The run ------------------------------------------------------------

  /** Dispatch stamps the first step and its first visit on a file without a
      cursor. */
  function Dispatched(lane: Lane, wf: Workflow, file: string): string
    requires wf.steps != []
  {
    if lane.cursor(file) != "" then file
    else lane.enter(file, wf.steps[0].id, FormatVisits([(wf.steps[0].id, 1)]))
  }

  /** `_build_workflow_step_policy`: where this step's outcome routes, and
      whether entering there would exceed that step's budget. */
  function StepPolicy(wf: Workflow, at: string, counts: Counts, signal: Option<string>,
                      evergreen: bool): T.WorkflowStepPolicy
    requires HasStep(wf, at)
  {
    var step := FindStep(wf.steps, at).value;
    var to := Route(step, signal);
    var dest := FindStep(wf.steps, to);
    T.WorkflowStepPolicy(step.kind, step.output, to,
                         to != END && dest.Some? && Count(counts, to) + 1 > dest.value.maxVisits, evergreen, counts)
  }

  /** One attempt at the current step: the signal it emitted, what was
      reported about it, and the rest of the policy. */
  datatype Turn = Turn(signal: Option<string>, cause: TL.Cause, policy: T.SubmitPolicy, evergreen: bool)

  function PolicyOf(lane: Lane, wf: Workflow, file: string, turn: Turn): T.SubmitPolicy
    requires wf.steps != [] && HasStep(wf, lane.cursor(Dispatched(lane, wf, file)))
  {
    var d := Dispatched(lane, wf, file);
    turn.policy.(workflowStep := Some(StepPolicy(wf, lane.cursor(d), lane.counts(d), turn.signal, turn.evergreen)))
  }

  predicate CanTurn(lane: Lane, wf: Workflow, file: string, turn: Turn)
    requires wf.steps != []
  {
    HasStep(wf, lane.cursor(Dispatched(lane, wf, file)))
      && TL.TransitionFor(turn.cause, PolicyOf(lane, wf, file, turn)).Some?
  }

  function EffectsOf(lane: Lane, wf: Workflow, file: string, turn: Turn): T.TaskEffects
    requires wf.steps != [] && CanTurn(lane, wf, file, turn)
  {
    TL.TransitionFor(turn.cause, PolicyOf(lane, wf, file, turn)).value.effects
  }

  /** The file after the transition's effects on the engine's lane. */
  function After(lane: Lane, wf: Workflow, file: string, turn: Turn): string
    requires wf.steps != [] && CanTurn(lane, wf, file, turn)
  {
    var d, effects := Dispatched(lane, wf, file), EffectsOf(lane, wf, file, turn);
    if effects.workflowReset then lane.clear(d)
    else if effects.engineMeta.Some? then
      lane.enter(d, effects.engineMeta.value.workflowStep, effects.engineMeta.value.workflowVisits)
    else d
  }

  // ----- The lane's laws, applied -------------------------------------------

  lemma Enters(lane: Lane, file: string, id: string, d: Counts)
    requires IsLane(lane) && lane.isFile(file) && IsStorable(id) && Fits(d)
    ensures var now := lane.enter(file, id, FormatVisits(d));
            lane.isFile(now) && lane.cursor(now) == id && (AreCountable(d) ==> lane.counts(now) == d)
              && lane.agree(file, now)
  {}

  lemma Reads(lane: Lane, file: string)
    requires IsLane(lane)
    ensures IsStorable(lane.cursor(file)) && AreCountable(lane.counts(file))
  {
    assert ReadsWell(lane, file);
  }

  lemma Clears(lane: Lane, file: string)
    requires IsLane(lane) && lane.isFile(file)
    ensures lane.isFile(lane.clear(file)) && lane.cursor(lane.clear(file)) == "" && lane.agree(file, lane.clear(file))
  {
    assert ClearsWell(lane, file);
  }

  lemma Agrees(lane: Lane, a: string, b: string, c: string)
    requires IsLane(lane)
    ensures lane.agree(a, a) && (lane.agree(a, b) && lane.agree(b, c) ==> lane.agree(a, c))
  {}

  lemma CountedEnters(lane: Lane, file: string, id: string, d: Counts)
    requires IsLane(lane) && lane.isFile(file) && IsStorable(id) && AreCountable(d)
    ensures var now := lane.enter(file, id, FormatVisits(d));
            lane.isFile(now) && lane.cursor(now) == id && lane.counts(now) == d && lane.agree(file, now)
  {
    assert Fits(d);
  }

  // ----- Budgets ------------------------------------------------------------

  function Cap(step: Step): nat {
    if step.maxVisits > 0 then step.maxVisits else 0
  }

  /** The budget of a whole definition. */
  function Budget(steps: seq<Step>): nat {
    if steps == [] then 0 else Cap(steps[0]) + Budget(steps[1..])
  }

  function Total(steps: seq<Step>, counts: Counts): int {
    if steps == [] then 0 else Count(counts, steps[0].id) + Total(steps[1..], counts)
  }

  lemma {:induction false} TotalPut(steps: seq<Step>, counts: Counts, id: string, n: int)
    requires AreIdsUnique(Workflow(steps))
    ensures Total(steps, Put(counts, id, n)) ==
            Total(steps, counts) + if FindStep(steps, id).Some? then n - Count(counts, id) else 0
  {
    if steps == [] {
    } else {
      TotalPut(steps[1..], counts, id, n);
      PutCounts(counts, id, n, steps[0].id);
      if steps[0].id == id {
        assert FindStep(steps[1..], id).None?;
      }
    }
  }

  lemma {:induction false} TotalIsWithinBudget(steps: seq<Step>, counts: Counts)
    requires forall s :: s in steps ==> Count(counts, s.id) <= Cap(s)
    ensures Total(steps, counts) <= Budget(steps)
  {
    if steps == [] {
    } else {
      TotalIsWithinBudget(steps[1..], counts);
    }
  }

  lemma {:induction false} NothingCounted(steps: seq<Step>)
    ensures Total(steps, []) == 0
  {
    if steps == [] {
    } else {
      NothingCounted(steps[1..]);
    }
  }

  // ----- Staying on the graph -----------------------------------------------

  /** Ids the engine's two lines can carry. */
  predicate AreIdsStorable(wf: Workflow) {
    forall s :: s in wf.steps ==> IsSafe(s.id)
  }

  /** An id that both the cursor and the counters can carry. */
  predicate IsSafe(id: string) {
    IsClean(id) && IsStorable(id)
  }

  /** A definition as the loader accepts it, with ids that survive storage. */
  ghost predicate IsRunnable(wf: Workflow) {
    IsValid(wf) && HasDefaults(wf) && AreIdsStorable(wf)
  }

  ghost predicate IsVisitedBehind(wf: Workflow, at: string, counts: Counts) {
    forall id :: Count(counts, id) >= 1 ==> id == at || Reaches(wf, id, at)
  }

  predicate IsWithinBudget(wf: Workflow, counts: Counts)
    requires wf.steps != []
  {
    forall s :: s in wf.steps ==> Count(counts, s.id) <= Cap(s) + if s.id == wf.steps[0].id then 1 else 0
  }

  /** Where the cursor `at` and the counts are after `advances` moves: on a
      step, every visited step leads to it, and no step is over its budget
      (the first one was entered once without asking). */
  ghost predicate IsOnTrack(wf: Workflow, at: string, counts: Counts, advances: nat)
    requires wf.steps != []
  {
    && HasStep(wf, at) && at != END && at != ""
    && AreCountable(counts)
    && IsVisitedBehind(wf, at, counts) && IsWithinBudget(wf, counts)
    && Total(wf.steps, counts) == advances + 1
  }

  lemma FirstStepIsOnTrack(wf: Workflow)
    requires IsRunnable(wf)
    ensures IsOnTrack(wf, wf.steps[0].id, [(wf.steps[0].id, 1)], 0)
  {
    assert wf.steps[0] in wf.steps;
    StalledPathNeedsAStart(wf);
    FirstCount(wf);
  }

  lemma FirstCount(wf: Workflow)
    requires wf.steps != [] && AreIdsUnique(wf)
    ensures var counts := [(wf.steps[0].id, 1)];
            IsVisitedBehind(wf, wf.steps[0].id, counts) && IsWithinBudget(wf, counts) && Total(wf.steps, counts) == 1
  {
    var first := wf.steps[0].id;
    NothingCounted(wf.steps);
    TotalPut(wf.steps, [], first, 1);
    assert Put([], first, 1) == [(first, 1)];
    assert forall id :: Count([(first, 1)], id) == if id == first then 1 else 0;
  }

  lemma StalledPathNeedsAStart(wf: Workflow)
    requires wf.steps != [] && DoesDefaultPathWork(wf)
    ensures wf.steps[0].id != END
  {
    if wf.steps[0].id == END {
      forall n: nat
        ensures !IsWork(wf, DefaultPath(wf, n))
      {
        StalledPathStays(wf, {}, n);
      }
    }
  }

  lemma AdvanceLeavesVisitedBehind(wf: Workflow, at: string, counts: Counts, to: string)
    requires IsVisitedBehind(wf, at, counts) && IsEdge(wf, at, to)
    ensures IsVisitedBehind(wf, to, Put(counts, to, Count(counts, to) + 1))
  {
    var after := Put(counts, to, Count(counts, to) + 1);
    forall id | Count(after, id) >= 1
      ensures id == to || Reaches(wf, id, to)
    {
      PutCounts(counts, to, Count(counts, to) + 1, id);
      if id == at {
        EdgeReaches(wf, at, to);
      } else if id != to {
        ReachesFurther(wf, id, at, to);
      }
    }
  }

  lemma AdvanceStaysWithinBudget(wf: Workflow, counts: Counts, to: string)
    requires wf.steps != [] && AreIdsUnique(wf) && IsWithinBudget(wf, counts)
    requires HasStep(wf, to) && Count(counts, to) + 1 <= FindStep(wf.steps, to).value.maxVisits
    ensures IsWithinBudget(wf, Put(counts, to, Count(counts, to) + 1))
  {
    var after := Put(counts, to, Count(counts, to) + 1);
    forall s | s in wf.steps
      ensures Count(after, s.id) <= Cap(s) + if s.id == wf.steps[0].id then 1 else 0
    {
      PutCounts(counts, to, Count(counts, to) + 1, s.id);
      if s.id == to {
        StepsAreFound(wf, s);
      }
    }
  }

  /** Entering a step within its budget. */
  lemma AdvanceStaysOnTrack(wf: Workflow, at: string, counts: Counts, to: string, advances: nat)
    requires wf.steps != [] && AreIdsUnique(wf) && AreIdsStorable(wf) && IsOnTrack(wf, at, counts, advances)
    requires IsEdge(wf, at, to) && HasStep(wf, to) && Count(counts, to) + 1 <= FindStep(wf.steps, to).value.maxVisits
    ensures IsOnTrack(wf, to, Put(counts, to, Count(counts, to) + 1), advances + 1)
  {
    PutKeys(counts, to, Count(counts, to) + 1);
    TotalPut(wf.steps, counts, to, Count(counts, to) + 1);
    AdvanceLeavesVisitedBehind(wf, at, counts, to);
    AdvanceStaysWithinBudget(wf, counts, to);
  }

  lemma StepsAreFound(wf: Workflow, s: Step)
    requires AreIdsUnique(wf) && s in wf.steps
    ensures FindStep(wf.steps, s.id) == Some(s)
  {
    var found := FindStep(wf.steps, s.id);
    assert found.Some?;
    var i :| 0 <= i < |wf.steps| && wf.steps[i] == s;
    var j :| 0 <= j < |wf.steps| && wf.steps[j] == found.value;
  }

  /** A spent budget was declared: an undeclared step is entered once, and a
      step that is entered again lies on a cycle. */
  lemma SpentBudgetsAreDeclared(wf: Workflow, at: string, counts: Counts, to: string, advances: nat)
    requires IsRunnable(wf) && IsOnTrack(wf, at, counts, advances)
    requires IsEdge(wf, at, to) && HasStep(wf, to) && Count(counts, to) + 1 > FindStep(wf.steps, to).value.maxVisits
    ensures FindStep(wf.steps, to).value.maxVisitsDeclared
  {
    var dest := FindStep(wf.steps, to).value;
    assert DeclaresVisits(wf, dest);
    if !dest.maxVisitsDeclared {
      if to == at {
        EdgeReaches(wf, at, to);
      } else {
        ReachesFurther(wf, to, at, to);
      }
    }
  }

  // ----- Whole runs ---------------------------------------------------------

  predicate IsAdvance(lane: Lane, wf: Workflow, file: string, turn: Turn)
    requires wf.steps != [] && CanTurn(lane, wf, file, turn)
  {
    EffectsOf(lane, wf, file, turn).engineMeta.Some?
  }

  /** The file with the cursor moved to `to` and the entry counted. */
  function Entered(lane: Lane, file: string, counts: Counts, to: string): string {
    lane.enter(file, to, FormatVisits(Put(counts, to, Count(counts, to) + 1)))
  }

  /** What a turn that does not reset the workflow writes. */
  lemma TurnWrites(lane: Lane, wf: Workflow, file: string, turn: Turn)
    requires wf.steps != [] && CanTurn(lane, wf, file, turn) && !EffectsOf(lane, wf, file, turn).workflowReset
    ensures var step, d := PolicyOf(lane, wf, file, turn).workflowStep.value, Dispatched(lane, wf, file);
            if !IsAdvance(lane, wf, file, turn) then After(lane, wf, file, turn) == d
            else
              && step.routeTo != END && !step.destVisitsExhausted
              && After(lane, wf, file, turn) == Entered(lane, d, lane.counts(d), step.routeTo)
  {
    TL.CursorMovesExactly(turn.cause, PolicyOf(lane, wf, file, turn));
  }

  lemma RoutesAreEdges(wf: Workflow, at: string, counts: Counts, signal: Option<string>, evergreen: bool)
    requires IsValid(wf) && HasStep(wf, at)
    ensures var step := StepPolicy(wf, at, counts, signal, evergreen);
            step.routeTo != END ==> IsEdge(wf, at, step.routeTo) && HasStep(wf, step.routeTo)
  {
    assert IsRouted(wf, FindStep(wf.steps, at).value);
  }

  predicate HasBudget(wf: Workflow, counts: Counts, to: string)
    requires HasStep(wf, to)
  {
    Count(counts, to) + 1 <= FindStep(wf.steps, to).value.maxVisits
  }

  ghost predicate IsFileOnTrack(lane: Lane, wf: Workflow, file: string, advances: nat)
    requires wf.steps != []
  {
    lane.isFile(file) && IsOnTrack(wf, lane.cursor(file), lane.counts(file), advances)
  }

  /** Entering a step within its budget is on track, and fits the lane; a step
      without budget left had declared one. */
  lemma EntryIsOnTrack(wf: Workflow, at: string, counts: Counts, to: string, advances: nat)
    requires IsRunnable(wf) && IsOnTrack(wf, at, counts, advances) && IsEdge(wf, at, to) && HasStep(wf, to)
    ensures var after := Put(counts, to, Count(counts, to) + 1);
            if HasBudget(wf, counts, to) then
              IsStorable(to) && AreCountable(after) && IsOnTrack(wf, to, after, advances + 1)
            else FindStep(wf.steps, to).value.maxVisitsDeclared
  {
    if HasBudget(wf, counts, to) {
      AdvanceStaysOnTrack(wf, at, counts, to, advances);
      assert FindStep(wf.steps, to).value in wf.steps;
    } else {
      SpentBudgetsAreDeclared(wf, at, counts, to, advances);
    }
  }

  lemma EnterKeepsTrack(lane: Lane, wf: Workflow, file: string, to: string, counts: Counts, advances: nat)
    requires IsLane(lane) && lane.isFile(file) && IsStorable(to) && AreCountable(counts)
    requires wf.steps != [] && IsOnTrack(wf, to, counts, advances)
    ensures IsFileOnTrack(lane, wf, lane.enter(file, to, FormatVisits(counts)), advances)
  {
    CountedEnters(lane, file, to, counts);
  }

  /** Stored and read back, it is on track again. */
  lemma EntryStaysOnTrack(lane: Lane, wf: Workflow, file: string, to: string, advances: nat)
    requires IsLane(lane) && IsRunnable(wf) && IsFileOnTrack(lane, wf, file, advances)
    requires IsEdge(wf, lane.cursor(file), to) && HasStep(wf, to)
    ensures var counts := lane.counts(file);
            if HasBudget(wf, counts, to) then IsFileOnTrack(lane, wf, Entered(lane, file, counts, to), advances + 1)
            else FindStep(wf.steps, to).value.maxVisitsDeclared
  {
    var counts := lane.counts(file);
    EntryIsOnTrack(wf, lane.cursor(file), counts, to, advances);
    if HasBudget(wf, counts, to) {
      EnterKeepsTrack(lane, wf, file, to, Put(counts, to, Count(counts, to) + 1), advances + 1);
    }
  }

  /** The file after a turn: as it was, or one step along the route. */
  lemma FileStaysOnTrack(lane: Lane, wf: Workflow, d: string, signal: Option<string>, evergreen: bool, advances: nat,
                         moved: bool, d': string)
    requires IsLane(lane) && IsRunnable(wf) && IsFileOnTrack(lane, wf, d, advances)
    requires var step := StepPolicy(wf, lane.cursor(d), lane.counts(d), signal, evergreen);
             if moved then
               step.routeTo != END && !step.destVisitsExhausted && d' == Entered(lane, d, lane.counts(d), step.routeTo)
             else d' == d
    ensures IsFileOnTrack(lane, wf, d', advances + if moved then 1 else 0)
    ensures var step := StepPolicy(wf, lane.cursor(d), lane.counts(d), signal, evergreen);
            step.destVisitsExhausted ==>
              HasStep(wf, step.routeTo) && FindStep(wf.steps, step.routeTo).value.maxVisitsDeclared
  {
    var to := StepPolicy(wf, lane.cursor(d), lane.counts(d), signal, evergreen).routeTo;
    RoutesAreEdges(wf, lane.cursor(d), lane.counts(d), signal, evergreen);
    if to != END {
      EntryStaysOnTrack(lane, wf, d, to, advances);
    }
  }

  /** One turn that does not reset the workflow: the file stays on track, one
      advance further exactly when the cursor was written, and a destination
      that was out of budget had declared one. */
  lemma TurnStaysOnTrack(lane: Lane, wf: Workflow, file: string, turn: Turn, advances: nat)
    requires IsLane(lane) && IsRunnable(wf) && CanTurn(lane, wf, file, turn)
             && !EffectsOf(lane, wf, file, turn).workflowReset
    requires IsFileOnTrack(lane, wf, Dispatched(lane, wf, file), advances)
    ensures IsFileOnTrack(lane, wf, After(lane, wf, file, turn),
                          advances + if IsAdvance(lane, wf, file, turn) then 1 else 0)
    ensures Dispatched(lane, wf, After(lane, wf, file, turn)) == After(lane, wf, file, turn)
    ensures var step := PolicyOf(lane, wf, file, turn).workflowStep.value;
            step.destVisitsExhausted ==>
              HasStep(wf, step.routeTo) && FindStep(wf.steps, step.routeTo).value.maxVisitsDeclared
  {
    TurnWrites(lane, wf, file, turn);
    FileStaysOnTrack(lane, wf, Dispatched(lane, wf, file), turn.signal, turn.evergreen, advances,
                     IsAdvance(lane, wf, file, turn), After(lane, wf, file, turn));
  }

  /** A turn that does not reset the workflow; `moved` tells whether it wrote
      the cursor. */
  predicate IsMove(lane: Lane, wf: Workflow, file: string, turn: Turn, moved: bool, file': string)
    requires wf.steps != []
  {
    && CanTurn(lane, wf, file, turn) && !EffectsOf(lane, wf, file, turn).workflowReset
    && moved == IsAdvance(lane, wf, file, turn) && file' == After(lane, wf, file, turn)
  }

  /** The file of a task that has no cursor, because it never ran or because its
      workflow was reset. */
  ghost predicate IsFresh(lane: Lane, file: string) {
    lane.isFile(file) && lane.cursor(file) == ""
  }

  /** A pass: turns from a fresh file, none of which reset the workflow. */
  ghost predicate IsPass(lane: Lane, wf: Workflow, files: seq<string>, turns: seq<Turn>, moved: seq<bool>)
    requires wf.steps != []
  {
    && |files| == |turns| + 1 && |moved| == |turns| && IsFresh(lane, files[0])
    && forall i {:trigger turns[i]} :: 0 <= i < |turns| ==> IsMove(lane, wf, files[i], turns[i], moved[i], files[i + 1])
  }

  function Trues(marks: seq<bool>, n: nat): nat
    requires n <= |marks|
  {
    if n == 0 then 0 else Trues(marks, n - 1) + if marks[n - 1] then 1 else 0
  }

  lemma FreshIsOnTrack(lane: Lane, wf: Workflow, file: string)
    requires IsLane(lane) && IsRunnable(wf) && IsFresh(lane, file)
    ensures IsFileOnTrack(lane, wf, Dispatched(lane, wf, file), 0)
  {
    FirstStepIsOnTrack(wf);
    assert wf.steps[0] in wf.steps;
    CountedEnters(lane, file, wf.steps[0].id, [(wf.steps[0].id, 1)]);
  }

  /** A reset makes the file fresh again, so every run is made of passes. */
  lemma ResetsStartOver(lane: Lane, wf: Workflow, file: string, turn: Turn, advances: nat)
    requires IsLane(lane) && IsRunnable(wf) && CanTurn(lane, wf, file, turn)
             && EffectsOf(lane, wf, file, turn).workflowReset
    requires IsFileOnTrack(lane, wf, Dispatched(lane, wf, file), advances)
    ensures IsFresh(lane, After(lane, wf, file, turn))
  {
    Clears(lane, Dispatched(lane, wf, file));
  }

  type Stepping = (string, Turn, bool, string) -> bool

  ghost predicate IsChain(step: Stepping, files: seq<string>, turns: seq<Turn>, moved: seq<bool>) {
    && |files| == |turns| + 1 && |moved| == |turns|
    && forall i {:trigger turns[i]} :: 0 <= i < |turns| ==> step(files[i], turns[i], moved[i], files[i + 1])
  }

  /** What every step keeps, counting the moves, holds all along a chain. */
  lemma {:induction false} ChainKeeps(step: Stepping, keeps: (nat, string) -> bool, files: seq<string>,
                                      turns: seq<Turn>, moved: seq<bool>, n: nat)
    requires IsChain(step, files, turns, moved) && n <= |turns| && keeps(0, files[0])
    requires forall k: nat, f, t, m, f' {:trigger step(f, t, m, f'), keeps(k, f)} ::
               step(f, t, m, f') && keeps(k, f) ==> keeps(k + if m then 1 else 0, f')
    ensures keeps(Trues(moved, n), files[n])
  {
    if n == 0 {
    } else {
      ChainKeeps(step, keeps, files, turns, moved, n - 1);
      assert step(files[n - 1], turns[n - 1], moved[n - 1], files[n]);
    }
  }

  lemma MoveStaysOnTrack(lane: Lane, wf: Workflow, file: string, turn: Turn, moved: bool, file': string, advances: nat)
    requires IsLane(lane) && IsRunnable(wf) && IsMove(lane, wf, file, turn, moved, file')
    requires IsFileOnTrack(lane, wf, Dispatched(lane, wf, file), advances)
    ensures IsFileOnTrack(lane, wf, Dispatched(lane, wf, file'), advances + if moved then 1 else 0)
  {
    TurnStaysOnTrack(lane, wf, file, turn, advances);
  }

  lemma PassStaysOnTrack(lane: Lane, wf: Workflow, files: seq<string>, turns: seq<Turn>, moved: seq<bool>, n: nat)
    requires IsLane(lane) && IsRunnable(wf) && IsPass(lane, wf, files, turns, moved) && n <= |turns|
    ensures IsFileOnTrack(lane, wf, Dispatched(lane, wf, files[n]), Trues(moved, n))
  {
    var step: Stepping := (f, t, m, f') => IsMove(lane, wf, f, t, m, f');
    var keeps := (k: nat, f: string) => IsFileOnTrack(lane, wf, Dispatched(lane, wf, f), k);
    FreshIsOnTrack(lane, wf, files[0]);
    forall k: nat, f, t, m, f' | step(f, t, m, f') && keeps(k, f)
      ensures keeps(k + if m then 1 else 0, f')
    {
      MoveStaysOnTrack(lane, wf, f, t, m, f', k);
    }
    ChainKeeps(step, keeps, files, turns, moved, n);
  }

  /** On any lane: the cursor always names a step, and it moves at most as
      often as the step budgets add up to. */
  lemma PassIsBounded(lane: Lane, wf: Workflow, files: seq<string>, turns: seq<Turn>, moved: seq<bool>, n: nat)
    requires IsLane(lane) && IsRunnable(wf) && IsPass(lane, wf, files, turns, moved) && n <= |turns|
    ensures HasStep(wf, lane.cursor(Dispatched(lane, wf, files[n])))
    ensures Trues(moved, n) <= Budget(wf.steps)
  {
    PassStaysOnTrack(lane, wf, files, turns, moved, n);
    OnTrackIsWithinBudget(wf, lane.cursor(Dispatched(lane, wf, files[n])), lane.counts(Dispatched(lane, wf, files[n])),
                          Trues(moved, n));
  }

  /** For every accepted definition and every sequence of signals and
      outcomes, with the lane kept in the task's file: the cursor always names a
      step, and it moves at most as often as the step budgets add up to. */
  lemma WorkflowsAreBounded(wf: Workflow, files: seq<string>, turns: seq<Turn>, moved: seq<bool>, n: nat)
    requires IsRunnable(wf) && IsPass(FILES, wf, files, turns, moved) && n <= |turns|
    ensures HasStep(wf, FILES.cursor(Dispatched(FILES, wf, files[n])))
    ensures Trues(moved, n) <= Budget(wf.steps)
  {
    FilesAreALane();
    PassIsBounded(FILES, wf, files, turns, moved, n);
  }

  lemma OnTrackIsWithinBudget(wf: Workflow, at: string, counts: Counts, advances: nat)
    requires wf.steps != [] && AreIdsUnique(wf) && IsOnTrack(wf, at, counts, advances)
    ensures advances <= Budget(wf.steps)
  {
    assert wf.steps[0] in wf.steps;
    forall s | s in wf.steps[1..]
      ensures Count(counts, s.id) <= Cap(s)
    {
      assert s in wf.steps && s.id != wf.steps[0].id;
    }
    TotalIsWithinBudget(wf.steps[1..], counts);
  }

  /** And no task is ever quarantined for the budget of a step that did not
      declare one. */
  lemma OnlyDeclaredBudgetsQuarantine(lane: Lane, wf: Workflow, files: seq<string>, turns: seq<Turn>, moved: seq<bool>,
                                      i: nat)
    requires IsLane(lane) && IsRunnable(wf) && IsPass(lane, wf, files, turns, moved) && i < |turns|
    ensures var step := PolicyOf(lane, wf, files[i], turns[i]).workflowStep.value;
            step.destVisitsExhausted ==>
              HasStep(wf, step.routeTo) && FindStep(wf.steps, step.routeTo).value.maxVisitsDeclared
  {
    PassStaysOnTrack(lane, wf, files, turns, moved, i);
    TurnStaysOnTrack(lane, wf, files[i], turns[i], Trues(moved, i));
  }

  // ----- What a run leaves alone --------------------------------------------

  lemma DispatchLeavesTheBrief(lane: Lane, wf: Workflow, file: string)
    requires IsLane(lane) && IsRunnable(wf) && lane.isFile(file)
    ensures lane.isFile(Dispatched(lane, wf, file)) && lane.agree(file, Dispatched(lane, wf, file))
  {
    var first := wf.steps[0];
    assert first in wf.steps;
    Enters(lane, file, first.id, [(first.id, 1)]);
  }

  lemma EntryLeavesTheBrief(lane: Lane, file: string, to: string)
    requires IsLane(lane) && lane.isFile(file) && IsStorable(to)
    ensures lane.isFile(Entered(lane, file, lane.counts(file), to))
            && lane.agree(file, Entered(lane, file, lane.counts(file), to))
  {
    var counts := lane.counts(file);
    Reads(lane, file);
    PutKeys(counts, to, Count(counts, to) + 1);
    Enters(lane, file, to, Put(counts, to, Count(counts, to) + 1));
  }

  lemma MoveLeavesTheBrief(lane: Lane, wf: Workflow, file: string, turn: Turn, moved: bool, file': string)
    requires IsLane(lane) && IsRunnable(wf) && lane.isFile(file) && IsMove(lane, wf, file, turn, moved, file')
    ensures lane.isFile(file') && lane.agree(file, file')
  {
    var d := Dispatched(lane, wf, file);
    DispatchLeavesTheBrief(lane, wf, file);
    TurnWrites(lane, wf, file, turn);
    if moved {
      var to := PolicyOf(lane, wf, file, turn).workflowStep.value.routeTo;
      RoutesAreEdges(wf, lane.cursor(d), lane.counts(d), turn.signal, turn.evergreen);
      assert FindStep(wf.steps, to).value in wf.steps;
      EntryLeavesTheBrief(lane, d, to);
    }
  }

  /** Over a whole pass, everything in the brief but the engine's own lines
      reads as the operator wrote it. */
  lemma RunsLeaveTheBrief(lane: Lane, wf: Workflow, files: seq<string>, turns: seq<Turn>, moved: seq<bool>, n: nat)
    requires IsLane(lane) && IsRunnable(wf) && IsPass(lane, wf, files, turns, moved) && n <= |turns|
    ensures lane.isFile(files[n]) && lane.agree(files[0], files[n])
  {
    var step: Stepping := (f, t, m, f') => IsMove(lane, wf, f, t, m, f');
    var keeps := (k: nat, f: string) => lane.isFile(f) && lane.agree(files[0], f);
    Agrees(lane, files[0], files[0], files[0]);
    forall k: nat, f, t, m, f' | step(f, t, m, f') && keeps(k, f)
      ensures keeps(k + if m then 1 else 0, f')
    {
      MoveLeavesTheBrief(lane, wf, f, t, m, f');
      Agrees(lane, files[0], f, f');
    }
    ChainKeeps(step, keeps, files, turns, moved, n);
  }

  // ----- Ids that do not survive --------------------------------------------

  /** A step whose id has a comma, a colon or blanks around it is never
      counted, whatever the file holds, so a positive budget of such a step is
      never spent. */
  lemma UncleanStepsAreNeverCounted(lane: Lane, wf: Workflow, file: string, at: string, signal: Option<string>,
                                    evergreen: bool)
    requires IsLane(lane) && HasStep(wf, at)
    requires !IsClean(StepPolicy(wf, at, lane.counts(file), signal, evergreen).routeTo)
    ensures var step := StepPolicy(wf, at, lane.counts(file), signal, evergreen);
            && Count(lane.counts(file), step.routeTo) == 0
            && (HasStep(wf, step.routeTo) && FindStep(wf.steps, step.routeTo).value.maxVisits >= 1 ==>
                !step.destVisitsExhausted)
  {
    Reads(lane, file);
    UncountedKeys(lane.counts(file), StepPolicy(wf, at, lane.counts(file), signal, evergreen).routeTo);
  }

  lemma {:induction false} UncountedKeys(counts: Counts, id: string)
    requires forall e :: e in counts ==> e.0 != id
    ensures Count(counts, id) == 0
  {
    if counts == [] {
    } else {
      UncountedKeys(counts[1..], id);
    }
  }

  /** A step id that reads as false or as zero is no cursor at all: once it has
      been written, the next dispatch stamps the file with the first step again
      and its counts are gone. */
  lemma FalsyStepsRestart(wf: Workflow, file: string, id: string, visits: string)
    requires IsRunnable(wf) && IsTaskFile(file) && FitsALine(visits) && IsFalsy(id)
    ensures var d := Dispatched(FILES, wf, FILES.enter(file, id, visits));
            FILES.cursor(d) == wf.steps[0].id && FILES.counts(d) == [(wf.steps[0].id, 1)]
  {
    FilesAreALane();
    FalsyLeavesNoCursor(file, id, visits);
    DispatchStamps(FILES, wf, FILES.enter(file, id, visits));
  }

  lemma DispatchStamps(lane: Lane, wf: Workflow, file: string)
    requires IsLane(lane) && IsRunnable(wf) && IsFresh(lane, file)
    ensures var d := Dispatched(lane, wf, file);
            lane.cursor(d) == wf.steps[0].id && lane.counts(d) == [(wf.steps[0].id, 1)]
  {
    assert wf.steps[0] in wf.steps;
    CountedEnters(lane, file, wf.steps[0].id, [(wf.steps[0].id, 1)]);
  }

  /** A first step that writes a document and may be sent back to itself. */
  predicate IsSelfLoop(wf: Workflow, signal: Option<string>) {
    && wf.steps != []
    && var first := wf.steps[0];
    && FindStep(wf.steps, first.id) == Some(first) && first.kind.Doc? && first.maxVisits >= 1
    && first.id != "" && first.id != END && IsStorable(first.id) && Route(first, signal) == first.id
  }

  /** A turn in which the document comes with the signal to go back. */
  predicate IsAgain(wf: Workflow, turn: Turn) {
    && IsSelfLoop(wf, turn.signal) && !turn.evergreen
    && turn.cause.Submit? && turn.cause.outcome.status.Completed? && turn.cause.outcome.document.Some?
  }

  ghost predicate IsAtStart(lane: Lane, wf: Workflow, file: string)
    requires wf.steps != []
  {
    lane.isFile(Dispatched(lane, wf, file)) && lane.cursor(Dispatched(lane, wf, file)) == wf.steps[0].id
  }

  lemma DispatchStarts(lane: Lane, wf: Workflow, file: string, signal: Option<string>)
    requires IsLane(lane) && IsSelfLoop(wf, signal) && IsFresh(lane, file)
    ensures IsAtStart(lane, wf, file)
  {
    var id := wf.steps[0].id;
    Enters(lane, file, id, [(id, 1)]);
  }

  lemma EntryReturns(lane: Lane, file: string, id: string)
    requires IsLane(lane) && lane.isFile(file) && IsStorable(id)
    ensures var now := Entered(lane, file, lane.counts(file), id); lane.isFile(now) && lane.cursor(now) == id
  {
    var counts := lane.counts(file);
    Reads(lane, file);
    PutKeys(counts, id, Count(counts, id) + 1);
    Enters(lane, file, id, Put(counts, id, Count(counts, id) + 1));
  }

  /** If the id is not counted, the cursor comes back to where it was. */
  lemma AgainAdvances(lane: Lane, wf: Workflow, file: string, turn: Turn)
    requires IsLane(lane) && IsAgain(wf, turn) && !IsClean(wf.steps[0].id) && IsAtStart(lane, wf, file)
    ensures CanTurn(lane, wf, file, turn) && IsMove(lane, wf, file, turn, true, After(lane, wf, file, turn))
    ensures After(lane, wf, file, turn)
            == Entered(lane, Dispatched(lane, wf, file), lane.counts(Dispatched(lane, wf, file)), wf.steps[0].id)
  {
    var d, id := Dispatched(lane, wf, file), wf.steps[0].id;
    UncleanStepsAreNeverCounted(lane, wf, d, id, turn.signal, turn.evergreen);
    DocumentsAdvance(turn, PolicyOf(lane, wf, file, turn));
  }

  lemma AgainReturns(lane: Lane, wf: Workflow, file: string, turn: Turn)
    requires IsLane(lane) && IsAgain(wf, turn) && !IsClean(wf.steps[0].id) && IsAtStart(lane, wf, file)
    ensures CanTurn(lane, wf, file, turn) && IsAtStart(lane, wf, After(lane, wf, file, turn))
  {
    AgainAdvances(lane, wf, file, turn);
    EntryReturns(lane, Dispatched(lane, wf, file), wf.steps[0].id);
  }

  lemma DocumentsAdvance(turn: Turn, policy: T.SubmitPolicy)
    requires turn.cause.Submit? && turn.cause.outcome.status.Completed? && turn.cause.outcome.document.Some?
    requires policy.workflowStep.Some? && !policy.workflowStep.value.evergreen
    requires var step := policy.workflowStep.value; step.kind.Doc? && step.routeTo != END && !step.destVisitsExhausted
    ensures var t := TL.TransitionFor(turn.cause, policy);
            t.Some? && t.value.effects.engineMeta == Some(T.AdvanceVisits(policy.workflowStep.value))
              && !t.value.effects.workflowReset
  {
    assert T.OnSubmit(turn.cause.outcome, policy).t
        == T.OnDocument(policy.workflowStep.value, turn.cause.outcome.document.value);
  }

  /** The files after each of `n` such turns. */
  lemma {:induction false} AgainAndAgain(lane: Lane, wf: Workflow, start: string, turn: Turn, n: nat)
    returns (files: seq<string>)
    requires IsLane(lane) && IsAgain(wf, turn) && !IsClean(wf.steps[0].id) && IsFresh(lane, start)
    ensures |files| == n + 1 && files[0] == start && IsAtStart(lane, wf, files[n])
    ensures forall i :: 0 <= i < n ==> IsMove(lane, wf, files[i], turn, true, files[i + 1])
  {
    if n == 0 {
      files := [start];
      DispatchStarts(lane, wf, start, turn.signal);
    } else {
      files := AgainAndAgain(lane, wf, start, turn, n - 1);
      AgainAdvances(lane, wf, files[n - 1], turn);
      AgainReturns(lane, wf, files[n - 1], turn);
      files := Extended(lane, wf, files, turn, After(lane, wf, files[n - 1], turn));
    }
  }

  lemma Extended(lane: Lane, wf: Workflow, files: seq<string>, turn: Turn, last: string) returns (all: seq<string>)
    requires wf.steps != [] && files != [] && IsMove(lane, wf, files[|files| - 1], turn, true, last)
    requires forall i :: 0 <= i < |files| - 1 ==> IsMove(lane, wf, files[i], turn, true, files[i + 1])
    ensures all == files + [last]
    ensures forall i :: 0 <= i < |files| ==> IsMove(lane, wf, all[i], turn, true, all[i + 1])
  {
    all := files + [last];
    forall i | 0 <= i < |files|
      ensures IsMove(lane, wf, all[i], turn, true, all[i + 1])
    {
      assert i < |files| - 1 ==> IsMove(lane, wf, files[i], turn, true, files[i + 1]);
    }
  }

  lemma MovesMakeAPass(lane: Lane, wf: Workflow, files: seq<string>, turn: Turn, n: nat)
    requires wf.steps != [] && |files| == n + 1 && IsFresh(lane, files[0])
    requires forall i :: 0 <= i < n ==> IsMove(lane, wf, files[i], turn, true, files[i + 1])
    ensures IsPass(lane, wf, files, seq(n, _ => turn), seq(n, _ => true))
  {}

  lemma {:induction false} AllTrue(marks: seq<bool>, n: nat)
    requires n <= |marks| && forall i :: 0 <= i < |marks| ==> marks[i]
    ensures Trues(marks, n) == n
  {
    if n == 0 {
    } else {
      AllTrue(marks, n - 1);
    }
  }

  /** With a comma or a colon in its id, a step that is sent back to itself
      makes any number of advances, whatever the budgets add up to. */
  lemma UncleanIdsAreUnbounded(lane: Lane, wf: Workflow, start: string, turn: Turn, n: nat)
    returns (files: seq<string>, turns: seq<Turn>, moved: seq<bool>)
    requires IsLane(lane) && IsAgain(wf, turn) && !IsClean(wf.steps[0].id) && IsFresh(lane, start)
    ensures |turns| == n && IsPass(lane, wf, files, turns, moved) && Trues(moved, n) == n
  {
    files := AgainAndAgain(lane, wf, start, turn, n);
    turns, moved := seq(n, _ => turn), seq(n, _ => true);
    MovesMakeAPass(lane, wf, files, turn, n);
    AllTrue(moved, n);
  }

  // ----- Which ids are safe -------------------------------------------------

  /** What a workflow promises of every pass: the cursor always names a step,
      and it moves no more often than the step budgets allow. */
  ghost predicate IsKept(lane: Lane, wf: Workflow)
    requires wf.steps != []
  {
    forall files, turns, moved :: IsPass(lane, wf, files, turns, moved) ==>
      HasStep(wf, lane.cursor(Dispatched(lane, wf, files[|turns|]))) && Trues(moved, |moved|) <= Budget(wf.steps)
  }

  /** A definition the loader accepts, whose first step may send the task back
      to itself once. */
  function Loop(id: string, work: string): Workflow {
    Workflow([
      Step(id, Doc, [], Some("plan.md"), Some("plan"), [("again", id)], work, 1, true),
      Step(work, Code, [], None, None, [], END, 1, false)])
  }

  predicate AreLoopIds(id: string, work: string) {
    id != "" && id != END && work != "" && work != END && id != work
  }

  lemma LoopGraph(id: string, work: string)
    requires AreLoopIds(id, work)
    ensures var steps := Loop(id, work).steps;
            FindStep(steps, id) == Some(steps[0]) && FindStep(steps, work) == Some(steps[1])
            && Destinations(steps[0]) == [id, work] && Destinations(steps[1]) == [END]
  {}

  lemma LoopWorks(id: string, work: string)
    requires AreLoopIds(id, work)
    ensures DoesDefaultPathWork(Loop(id, work))
  {
    var wf := Loop(id, work);
    LoopGraph(id, work);
    assert DefaultPath(wf, 0) == id && DefaultPath(wf, 1) == work;
    assert IsWork(wf, DefaultPath(wf, 1));
  }

  lemma WorkIsNotOnACycle(id: string, work: string)
    requires AreLoopIds(id, work)
    ensures !Reaches(Loop(id, work), work, work)
  {
    LoopGraph(id, work);
    forall walk: seq<string> | |walk| >= 2 && walk[0] == work
      ensures !IsWalk(Loop(id, work), walk)
    {
      assert !IsEdge(Loop(id, work), walk[0], walk[1]);
    }
  }

  lemma LoopIsWellFormed(id: string, work: string)
    requires AreLoopIds(id, work)
    ensures var wf := Loop(id, work);
            AreIdsUnique(wf) && forall s :: s in wf.steps ==> IsShaped(s) && IsRouted(wf, s) && IsFinal(s)
  {
    LoopGraph(id, work);
  }

  lemma LoopDefaults(id: string, work: string)
    requires AreLoopIds(id, work)
    ensures var wf := Loop(id, work); HasDefaults(wf) && forall i :: 0 <= i < |wf.steps| ==> AreInputsKnown(wf, i)
  {}

  lemma LoopIsAccepted(id: string, work: string)
    requires AreLoopIds(id, work)
    ensures IsValid(Loop(id, work)) && HasDefaults(Loop(id, work))
  {
    LoopIsWellFormed(id, work);
    LoopDefaults(id, work);
    LoopWorks(id, work);
    WorkIsNotOnACycle(id, work);
  }

  /** A definition the loader accepts, whose ids are this one and safe ones. */
  ghost predicate IsAcceptedWith(wf: Workflow, id: string) {
    && IsValid(wf) && HasDefaults(wf)
    && forall s :: s in wf.steps ==> s.id == id || IsSafe(s.id)
  }

  lemma LoopIsAcceptedWith(id: string, work: string)
    requires AreLoopIds(id, work) && IsSafe(work)
    ensures IsAcceptedWith(Loop(id, work), id)
  {
    LoopIsAccepted(id, work);
  }

  lemma RunnableIsKept(lane: Lane, wf: Workflow)
    requires IsLane(lane) && IsRunnable(wf)
    ensures IsKept(lane, wf)
  {
    forall files, turns, moved | IsPass(lane, wf, files, turns, moved)
      ensures HasStep(wf, lane.cursor(Dispatched(lane, wf, files[|turns|])))
              && Trues(moved, |moved|) <= Budget(wf.steps)
    {
      PassIsBounded(lane, wf, files, turns, moved, |turns|);
    }
  }

  lemma UncleanIsNotKept(lane: Lane, wf: Workflow, start: string, turn: Turn)
    requires IsLane(lane) && IsAgain(wf, turn) && !IsClean(wf.steps[0].id) && IsFresh(lane, start)
    ensures !IsKept(lane, wf)
  {
    var files, turns, moved := UncleanIdsAreUnbounded(lane, wf, start, turn, Budget(wf.steps) + 1);
    assert |moved| == Budget(wf.steps) + 1;
  }

  /** A turn that sends it back. */
  const AGAIN := Turn(Some("again"), TL.Submit(T.Outcome(Completed, false, None, Some("plan"), Some("again"))),
                      T.SubmitPolicy(RetryPolicy(3, false, Backoff(0.0, 0.0)), 0, false, false, false, false, false,
                                     false, false, None), false)

  /** Some name for the second step that neither the id nor what its cursor
      reads as has taken. */
  lemma SomeOtherName(id: string, cursor: string) returns (work: string)
    ensures work !in {id, cursor, "", END} && IsSafe(work)
  {
    work := if "work" !in {id, cursor} then "work" else if "code" !in {id, cursor} then "code" else "land";
    WordsAreSafe();
  }

  lemma WordsAreSafe()
    ensures IsSafe("work") && IsSafe("code") && IsSafe("land")
  {
    assert L.LowerText("work")[0] == 'w' && L.LowerText("code")[0] == 'c' && L.LowerText("land")[0] == 'l';
    DashesByCharacter("work");
    DashesByCharacter("code");
    DashesByCharacter("land");
  }

  /** An id the cursor cannot carry is lost by the first dispatch. */
  lemma UnstorableIsNotKept(lane: Lane, start: string, id: string, work: string)
    requires IsLane(lane) && AreLoopIds(id, work) && !IsStorable(id) && IsFresh(lane, start)
    requires work != lane.cursor(Dispatched(lane, Loop(id, work), start))
    ensures !IsKept(lane, Loop(id, work))
  {
    var wf, d := Loop(id, work), Dispatched(lane, Loop(id, work), start);
    LoopGraph(id, work);
    Reads(lane, d);
    assert IsPass(lane, wf, [start], [], []);
    assert !HasStep(wf, lane.cursor(d));
  }

  lemma UnsafeIsNotKept(lane: Lane, start: string, id: string) returns (wf: Workflow)
    requires IsLane(lane) && id != "" && id != END && !IsSafe(id) && IsFresh(lane, start)
    ensures IsAcceptedWith(wf, id) && !IsKept(lane, wf)
  {
    var work := SomeOtherName(id, lane.cursor(lane.enter(start, id, FormatVisits([(id, 1)]))));
    wf := Loop(id, work);
    LoopIsAcceptedWith(id, work);
    if IsStorable(id) {
      LoopGraph(id, work);
      UncleanIsNotKept(lane, wf, start, AGAIN);
    } else {
      UnstorableIsNotKept(lane, start, id, work);
    }
  }

  /** So an id is safe, in every definition, for every task file and under every
      sequence of signals and outcomes, exactly when both of the engine's lines
      can carry it. */
  lemma SafeIdsExactly(id: string)
    requires id != "" && id != END
    ensures IsSafe(id) <==> forall wf :: IsAcceptedWith(wf, id) ==> IsKept(FILES, wf)
  {
    FilesAreALane();
    if IsSafe(id) {
      forall wf | IsAcceptedWith(wf, id)
        ensures IsKept(FILES, wf)
      {
        RunnableIsKept(FILES, wf);
      }
    } else {
      NewFilesAreFresh();
      var wf := UnsafeIsNotKept(FILES, NEW_FILE, id);
    }
  }
}
