/** Workflow definitions and their validator (`workflows.py`). */
module Workflows {
  import opened Prelude

  datatype StepKind = Doc | Code | Split

  /** The cursor destination that ends a workflow. */
  const END := "$end"

  /** `signals` maps a token to a destination, in the order written. */
  datatype Step = Step(id: string, kind: StepKind, inputs: seq<string>, prompt: Option<string>, output: Option<string>,
                       signals: seq<(string, string)>, next: string, maxVisits: int, maxVisitsDeclared: bool)

  datatype Workflow = Workflow(steps: seq<Step>)

  // ----- Parsing ------------------------------------------------------------

  /** A step as written, before defaults. */
  datatype RawStep = RawStep(id: string, kind: StepKind, inputs: seq<string>, prompt: Option<string>,
                             output: Option<string>, signals: seq<(string, string)>, next: Option<string>,
                             maxVisits: Option<int>)

  /** The step is the one written at `i`, field by field: `next` defaults to
      the step after it, or the end for the last one, and an undeclared budget
      is one visit. */
  predicate IsParsedAs(raw: seq<RawStep>, i: nat, step: Step)
    requires i < |raw|
  {
    var r := raw[i];
    && step.id == r.id && step.kind == r.kind && step.inputs == r.inputs && step.prompt == r.prompt
    && step.output == r.output && step.signals == r.signals
    && (r.next.Some? ==> step.next == r.next.value)
    && (r.next.None? && i + 1 < |raw| ==> step.next == raw[i + 1].id)
    && (r.next.None? && i + 1 == |raw| ==> step.next == END)
    && (r.maxVisits.Some? ==> step.maxVisitsDeclared && step.maxVisits == r.maxVisits.value)
    && (r.maxVisits.None? ==> !step.maxVisitsDeclared && step.maxVisits == 1)
  }

  /** The definition as written, with its defaults filled in. */
  predicate IsParsed(raw: seq<RawStep>, wf: Workflow) {
    && |wf.steps| == |raw|
    && forall i {:trigger IsParsedAs(raw, i, wf.steps[i])} :: 0 <= i < |raw| ==> IsParsedAs(raw, i, wf.steps[i])
  }

  lemma ParsedOnce(raw: seq<RawStep>, wf: Workflow, wf': Workflow)
    requires IsParsed(raw, wf) && IsParsed(raw, wf')
    ensures wf == wf'
  {
    forall i | 0 <= i < |raw|
      ensures wf.steps[i] == wf'.steps[i]
    {
      assert IsParsedAs(raw, i, wf.steps[i]) && IsParsedAs(raw, i, wf'.steps[i]);
    }
  }

  /** `_parse_step`; a `next` that follows the list is resolved by the caller. */
  function ParseStep(r: RawStep, index: nat, total: nat): (Step, bool) {
    var (next, inList) :=
      if r.next.Some? then (r.next.value, false) else if index + 1 == total then (END, false) else ("", true);
    var (visits, declared) := if r.maxVisits.Some? then (r.maxVisits.value, true) else (1, false);
    (Step(r.id, r.kind, r.inputs, r.prompt, r.output, r.signals, next, visits, declared), inList)
  }

  /** The two passes over the steps: parse each, then point every omitted
      `next` at the following one. */
  method ParseSteps(raw: seq<RawStep>) returns (steps: seq<Step>)
    ensures IsParsed(raw, Workflow(steps))
  {
    var parsed: seq<(Step, bool)> := [];
    for i := 0 to |raw|
      invariant |parsed| == i && forall k :: 0 <= k < i ==> parsed[k] == ParseStep(raw[k], k, |raw|)
    {
      parsed := parsed + [ParseStep(raw[i], i, |raw|)];
    }
    steps := [];
    for i := 0 to |raw|
      invariant |steps| == i && forall k :: 0 <= k < i ==> IsParsedAs(raw, k, steps[k])
    {
      var step := parsed[i].0;
      if parsed[i].1 {
        step := step.(next := parsed[i + 1].0.id);
      }
      steps := steps + [step];
    }
  }

  // ----- The graph ----------------------------------------------------------

  /** Every place the cursor may go from a step. */
  function Destinations(step: Step): seq<string> {
    seq(|step.signals|, i requires 0 <= i < |step.signals| => step.signals[i].1) + [step.next]
  }

  function FindStep(steps: seq<Step>, id: string): (found: Option<Step>)
    ensures found.Some? ==> found.value in steps && found.value.id == id
    ensures found.None? <==> forall s :: s in steps ==> s.id != id
  {
    if steps == [] then None else if steps[0].id == id then Some(steps[0]) else FindStep(steps[1..], id)
  }

  predicate HasStep(wf: Workflow, id: string) {
    FindStep(wf.steps, id).Some?
  }

  /** The destinations of the step of this id that are steps. */
  predicate IsEdge(wf: Workflow, from: string, to: string) {
    HasStep(wf, from) && to in Destinations(FindStep(wf.steps, from).value) && to != END
  }

  function NotEnd(ds: seq<string>): (kept: seq<string>)
    ensures forall d :: d in kept <==> d in ds && d != END
  {
    if ds == [] then [] else (if ds[0] == END then [] else [ds[0]]) + NotEnd(ds[1..])
  }

  /** The edges out of a step, in order; none for an unknown step. */
  function Edges(wf: Workflow, from: string): (to: seq<string>)
    ensures forall id :: id in to <==> IsEdge(wf, from, id)
  {
    if HasStep(wf, from) then NotEnd(Destinations(FindStep(wf.steps, from).value)) else []
  }

  function AllTargets(wf: Workflow): (ids: set<string>)
    ensures forall from, to :: IsEdge(wf, from, to) ==> to in ids
  {
    set s, d | s in wf.steps && d in Destinations(s) :: d
  }

  ghost predicate IsWalk(wf: Workflow, walk: seq<string>) {
    forall i, j :: 0 <= i < j < |walk| && j == i + 1 ==> IsEdge(wf, walk[i], walk[j])
  }

  /** `to` can be reached from `from` over at least one edge. */
  ghost predicate Reaches(wf: Workflow, from: string, to: string) {
    exists walk :: |walk| >= 2 && walk[0] == from && walk[|walk| - 1] == to && IsWalk(wf, walk)
  }

  lemma EdgeReaches(wf: Workflow, from: string, to: string)
    requires IsEdge(wf, from, to)
    ensures Reaches(wf, from, to)
  {
    assert IsWalk(wf, [from, to]);
  }

  lemma ReachesFurther(wf: Workflow, from: string, mid: string, to: string)
    requires Reaches(wf, from, mid) && IsEdge(wf, mid, to)
    ensures Reaches(wf, from, to)
  {
    var walk :| |walk| >= 2 && walk[0] == from && walk[|walk| - 1] == mid && IsWalk(wf, walk);
    var longer := walk + [to];
    assert IsWalk(wf, longer) && longer[0] == from && longer[|longer| - 1] == to;
  }

  // ----- What a valid workflow is -------------------------------------------

  predicate AreIdsUnique(wf: Workflow) {
    forall i, j :: 0 <= i < j < |wf.steps| ==> wf.steps[i].id != wf.steps[j].id
  }

  /** Document steps name a prompt and an output, the others neither. */
  predicate IsShaped(step: Step) {
    if step.kind.Doc? then
      step.prompt.Some? && step.prompt.value != "" && step.output.Some? && step.output.value != ""
    else step.prompt.None? && step.output.None?
  }

  predicate IsRouted(wf: Workflow, step: Step) {
    forall d :: d in Destinations(step) ==> d == END || HasStep(wf, d)
  }

  predicate IsFinal(step: Step) {
    step.kind.Split? ==> forall d :: d in Destinations(step) ==> d == END
  }

  predicate IsInputKnown(wf: Workflow, i: nat, input: string)
    requires i <= |wf.steps|
  {
    input == "brief" || exists j :: 0 <= j < i && input != "" && wf.steps[j].output == Some(input)
  }

  predicate AreInputsKnown(wf: Workflow, i: nat)
    requires i < |wf.steps|
  {
    forall input :: input in wf.steps[i].inputs ==> IsInputKnown(wf, i, input)
  }

  /** Where following `next` from the first step leads after `n` moves. */
  function DefaultPath(wf: Workflow, n: nat): string
    requires wf.steps != []
  {
    if n == 0 then wf.steps[0].id
    else
      var at := DefaultPath(wf, n - 1);
      if at == END || !HasStep(wf, at) then END else FindStep(wf.steps, at).value.next
  }

  predicate IsWork(wf: Workflow, id: string) {
    id != END && HasStep(wf, id) && !FindStep(wf.steps, id).value.kind.Doc?
  }

  ghost predicate DoesDefaultPathWork(wf: Workflow)
    requires wf.steps != []
  {
    exists n: nat :: IsWork(wf, DefaultPath(wf, n))
  }

  ghost predicate DeclaresVisits(wf: Workflow, step: Step) {
    Reaches(wf, step.id, step.id) ==> step.maxVisitsDeclared
  }

  ghost predicate IsValid(wf: Workflow) {
    && wf.steps != []
    && AreIdsUnique(wf)
    && (forall s :: s in wf.steps ==> IsShaped(s) && IsRouted(wf, s) && IsFinal(s))
    && (forall i :: 0 <= i < |wf.steps| ==> AreInputsKnown(wf, i))
    && DoesDefaultPathWork(wf)
    && (forall s :: s in wf.steps ==> DeclaresVisits(wf, s))
  }

  // ----- The validator ------------------------------------------------------

  /** What is wrong, and at which step where there is one. */
  datatype Violation =
    | DuplicateIds | Misshapen(step: Step) | UnknownDestination(step: Step) | SplitNotFinal(step: Step)
    | UnknownInput(index: nat) | DefaultPathStalls | UndeclaredCycle(step: Step)

  ghost predicate IsViolated(wf: Workflow, v: Violation)
    requires wf.steps != []
  {
    match v
    case DuplicateIds => !AreIdsUnique(wf)
    case Misshapen(s) => s in wf.steps && !IsShaped(s)
    case UnknownDestination(s) => s in wf.steps && !IsRouted(wf, s)
    case SplitNotFinal(s) => s in wf.steps && !IsFinal(s)
    case UnknownInput(i) => i < |wf.steps| && !AreInputsKnown(wf, i)
    case DefaultPathStalls => !DoesDefaultPathWork(wf)
    case UndeclaredCycle(s) => s in wf.steps && !DeclaresVisits(wf, s)
  }

  /** `_validate`: it accepts exactly the valid workflows, and what it reports
      is really wrong. */
  method Validate(wf: Workflow) returns (violation: Option<Violation>)
    requires wf.steps != []
    ensures violation.None? <==> IsValid(wf)
    ensures violation.Some? ==> IsViolated(wf, violation.value)
  {
    violation := CheckSteps(wf);
    if violation.None? {
      violation := CheckInputs(wf);
    }
    if violation.None? {
      var works := CheckDefaultPath(wf);
      if !works {
        violation := Some(DefaultPathStalls);
      }
    }
    if violation.None? {
      violation := CheckCycles(wf);
    }
    if violation.Some? {
      ViolationsAreInvalid(wf, violation.value);
    }
  }

  lemma ViolationsAreInvalid(wf: Workflow, v: Violation)
    requires wf.steps != [] && IsViolated(wf, v)
    ensures !IsValid(wf)
  {}

  method CheckSteps(wf: Workflow) returns (violation: Option<Violation>)
    requires wf.steps != []
    ensures violation.Some? ==> IsViolated(wf, violation.value)
    ensures violation.None? ==>
              AreIdsUnique(wf) && forall s :: s in wf.steps ==> IsShaped(s) && IsRouted(wf, s) && IsFinal(s)
  {
    var ids: set<string> := {};
    for i := 0 to |wf.steps|
      invariant forall id :: id in ids <==> exists k :: 0 <= k < i && wf.steps[k].id == id
      invariant forall j, k :: 0 <= j < k < i ==> wf.steps[j].id != wf.steps[k].id
    {
      if wf.steps[i].id in ids {
        return Some(DuplicateIds);
      }
      ids := ids + {wf.steps[i].id};
    }
    violation := None;
    for i := 0 to |wf.steps|
      invariant violation.None?
      invariant forall k :: 0 <= k < i ==> IsShaped(wf.steps[k]) && IsRouted(wf, wf.steps[k]) && IsFinal(wf.steps[k])
    {
      violation := CheckStep(wf, ids, wf.steps[i]);
      if violation.Some? {
        return;
      }
    }
  }

  method CheckStep(wf: Workflow, ids: set<string>, step: Step) returns (violation: Option<Violation>)
    requires wf.steps != [] && step in wf.steps
    requires forall id :: id in ids <==> HasStep(wf, id)
    ensures violation.Some? ==> IsViolated(wf, violation.value)
    ensures violation.None? ==> IsShaped(step) && IsRouted(wf, step) && IsFinal(step)
  {
    if step.kind.Doc? {
      if step.prompt.None? || step.prompt.value == "" || step.output.None? || step.output.value == "" {
        return Some(Misshapen(step));
      }
    } else if step.prompt.Some? || step.output.Some? {
      return Some(Misshapen(step));
    }
    var destinations := Destinations(step);
    for k := 0 to |destinations|
      invariant forall m :: 0 <= m < k ==> destinations[m] == END || HasStep(wf, destinations[m])
    {
      if destinations[k] != END && destinations[k] !in ids {
        assert destinations[k] in Destinations(step);
        return Some(UnknownDestination(step));
      }
    }
    if step.kind.Split? {
      for k := 0 to |destinations|
        invariant forall m :: 0 <= m < k ==> destinations[m] == END
      {
        if destinations[k] != END {
          assert destinations[k] in Destinations(step);
          return Some(SplitNotFinal(step));
        }
      }
    }
    violation := None;
  }

  method CheckInputs(wf: Workflow) returns (violation: Option<Violation>)
    requires wf.steps != []
    ensures violation.Some? ==> IsViolated(wf, violation.value)
    ensures violation.None? ==> forall i :: 0 <= i < |wf.steps| ==> AreInputsKnown(wf, i)
  {
    var produced := {"brief"};
    for i := 0 to |wf.steps|
      invariant forall input :: input in produced <==> IsInputKnown(wf, i, input)
      invariant forall k :: 0 <= k < i ==> AreInputsKnown(wf, k)
    {
      var step := wf.steps[i];
      for k := 0 to |step.inputs|
        invariant forall m :: 0 <= m < k ==> IsInputKnown(wf, i, step.inputs[m])
      {
        if step.inputs[k] !in produced {
          assert !AreInputsKnown(wf, i);
          return Some(UnknownInput(i));
        }
      }
      if step.output.Some? && step.output.value != "" {
        produced := produced + {step.output.value};
      }
    }
    violation := None;
  }

  /** Steps without work, each leading to another of them, to `cur` or to
      the end. */
  predicate IsDull(wf: Workflow, seen: set<string>, cur: string) {
    forall id :: id in seen ==>
      && id != END && HasStep(wf, id) && !IsWork(wf, id)
      && var next := FindStep(wf.steps, id).value.next; next in seen || next == cur || next == END
  }

  lemma DullGrows(wf: Workflow, seen: set<string>, cur: string)
    requires IsDull(wf, seen, cur) && cur != END && HasStep(wf, cur) && FindStep(wf.steps, cur).value.kind.Doc?
    ensures IsDull(wf, seen + {cur}, FindStep(wf.steps, cur).value.next)
  {}

  /** Once the default path has closed on itself without meeting work, it
      never will. */
  lemma {:induction false} StalledPathStays(wf: Workflow, seen: set<string>, n: nat)
    requires wf.steps != [] && (wf.steps[0].id in seen || wf.steps[0].id == END)
    requires IsDull(wf, seen, END)
    ensures (DefaultPath(wf, n) in seen || DefaultPath(wf, n) == END) && !IsWork(wf, DefaultPath(wf, n))
  {
    if n == 0 {
    } else {
      StalledPathStays(wf, seen, n - 1);
    }
  }

  /** `_check_default_path_terminates`. */
  method CheckDefaultPath(wf: Workflow) returns (works: bool)
    requires wf.steps != [] && forall s :: s in wf.steps ==> IsRouted(wf, s)
    ensures works <==> DoesDefaultPathWork(wf)
  {
    var seen: set<string> := {};
    var cur := wf.steps[0].id;
    ghost var n: nat := 0;
    ghost var ids := set s | s in wf.steps :: s.id;
    assert wf.steps[0] in wf.steps;
    while cur != END
      invariant cur == DefaultPath(wf, n) && (cur != END ==> cur in ids)
      invariant wf.steps[0].id in seen || wf.steps[0].id == cur
      invariant IsDull(wf, seen, cur)
      decreases ids - seen
    {
      if cur in seen {
        break;
      }
      var found := FindStep(wf.steps, cur);
      assert cur in ids - seen;
      if !found.value.kind.Doc? {
        assert IsWork(wf, DefaultPath(wf, n));
        return true;
      }
      NextIsKnown(wf, found.value);
      DullGrows(wf, seen, cur);
      seen := seen + {cur};
      cur, n := found.value.next, n + 1;
    }
    forall n: nat
      ensures !IsWork(wf, DefaultPath(wf, n))
    {
      StalledPathStays(wf, seen, n);
    }
    works := false;
  }

  lemma NextIsKnown(wf: Workflow, step: Step)
    requires IsRouted(wf, step)
    ensures step.next == END || step.next in set s | s in wf.steps :: s.id
  {
    assert step.next in Destinations(step) by {
      assert Destinations(step)[|step.signals|] == step.next;
    }
    if step.next != END {
      var found := FindStep(wf.steps, step.next).value;
      assert found in wf.steps;
    }
  }

  /** A search from `start`: everything met is reachable, and every edge out
      of what was visited has been met. */
  ghost predicate IsSearch(wf: Workflow, start: string, seen: set<string>, stack: seq<string>) {
    && (forall id :: id in seen ==> Reaches(wf, start, id))
    && (forall id :: id in stack ==> Reaches(wf, start, id))
    && (forall from, to :: IsEdge(wf, from, to) && (from == start || from in seen) ==> to in seen || to in stack)
  }

  lemma SearchStarts(wf: Workflow, start: string)
    ensures IsSearch(wf, start, {}, Edges(wf, start))
  {
    forall to | to in Edges(wf, start)
      ensures Reaches(wf, start, to)
    {
      EdgeReaches(wf, start, to);
    }
  }

  lemma SearchPops(wf: Workflow, start: string, seen: set<string>, stack: seq<string>)
    requires stack != [] && IsSearch(wf, start, seen, stack)
    ensures var node, rest := stack[|stack| - 1], stack[..|stack| - 1];
            IsSearch(wf, start, seen + {node}, rest + if node in seen then [] else Edges(wf, node))
  {
    var node, rest := stack[|stack| - 1], stack[..|stack| - 1];
    assert forall id :: id in stack <==> id in rest || id == node;
    forall to | to in Edges(wf, node)
      ensures Reaches(wf, start, to)
    {
      ReachesFurther(wf, start, node, to);
    }
  }

  /** `reachable_from`: the depth-first search finds exactly the steps that
      can be reached over at least one edge. */
  method ReachableFrom(wf: Workflow, start: string) returns (seen: set<string>)
    ensures forall id :: id in seen <==> Reaches(wf, start, id)
  {
    seen := {};
    var stack := Edges(wf, start);
    SearchStarts(wf, start);
    ghost var all := AllTargets(wf);
    while stack != []
      invariant IsSearch(wf, start, seen, stack)
      invariant forall id :: id in stack ==> id in all
      decreases all - seen, |stack|
    {
      SearchPops(wf, start, seen, stack);
      var node := stack[|stack| - 1];
      stack := stack[..|stack| - 1];
      if node in seen {
        assert seen + {node} == seen && stack + [] == stack;
        continue;
      }
      assert node in all - seen;
      seen := seen + {node};
      stack := stack + Edges(wf, node);
    }
    forall id | Reaches(wf, start, id)
      ensures id in seen
    {
      var walk :| |walk| >= 2 && walk[0] == start && walk[|walk| - 1] == id && IsWalk(wf, walk);
      WalkStaysIn(wf, walk, seen);
    }
  }

  /** A closed set that holds every successor of the start holds every walk
      from it. */
  lemma {:induction false} WalkStaysIn(wf: Workflow, walk: seq<string>, closed: set<string>)
    requires |walk| >= 2 && IsWalk(wf, walk)
    requires forall from, to :: IsEdge(wf, from, to) && (from == walk[0] || from in closed) ==> to in closed
    ensures walk[|walk| - 1] in closed
  {
    assert IsEdge(wf, walk[0], walk[1]);
    if |walk| > 2 {
      var rest := walk[1..];
      forall i, j | 0 <= i < j < |rest| && j == i + 1
        ensures IsEdge(wf, rest[i], rest[j])
      {
        assert rest[i] == walk[i + 1] && rest[j] == walk[j + 1];
      }
      WalkStaysIn(wf, rest, closed);
    }
  }

  /** `_check_cycles_declare_visits`. */
  method CheckCycles(wf: Workflow) returns (violation: Option<Violation>)
    requires wf.steps != []
    ensures violation.Some? ==> IsViolated(wf, violation.value)
    ensures violation.None? ==> forall s :: s in wf.steps ==> DeclaresVisits(wf, s)
  {
    for i := 0 to |wf.steps|
      invariant forall k :: 0 <= k < i ==> DeclaresVisits(wf, wf.steps[k])
    {
      var step := wf.steps[i];
      var reachable := ReachableFrom(wf, step.id);
      if step.id in reachable && !step.maxVisitsDeclared {
        return Some(UndeclaredCycle(step));
      }
    }
    violation := None;
  }

  /** What every accepted definition guarantees besides being valid. */
  predicate HasDefaults(wf: Workflow) {
    forall s :: s in wf.steps ==> s.id != "" && (!s.maxVisitsDeclared ==> s.maxVisits == 1)
  }

  /** `parse_workflow`: a definition is accepted exactly when every step has an
      id and what is written, with the defaults filled in, is valid; and that is
      the result. */
  method ParseWorkflow(raw: seq<RawStep>) returns (wf: Option<Workflow>)
    ensures wf.Some? <==>
            raw != [] && (forall r :: r in raw ==> r.id != "") && exists w :: IsParsed(raw, w) && IsValid(w)
    ensures wf.Some? ==> IsParsed(raw, wf.value) && IsValid(wf.value) && HasDefaults(wf.value)
  {
    if raw == [] {
      return None;
    }
    for i := 0 to |raw|
      invariant forall k :: 0 <= k < i ==> raw[k].id != ""
    {
      if raw[i].id == "" {
        return None;
      }
    }
    var steps := ParseSteps(raw);
    var violation := Validate(Workflow(steps));
    wf := if violation.None? then Some(Workflow(steps)) else None;
    forall w | IsParsed(raw, w)
      ensures w == Workflow(steps)
    {
      ParsedOnce(raw, w, Workflow(steps));
    }
    forall s | s in steps
      ensures s.id != "" && (!s.maxVisitsDeclared ==> s.maxVisits == 1)
    {
      var i :| 0 <= i < |steps| && steps[i] == s;
      assert IsParsedAs(raw, i, steps[i]) && raw[i] in raw;
    }
  }

  /** Unique steps, none with a `next` of its own. */
  predicate IsPlainList(raw: seq<RawStep>, wf: Workflow) {
    IsParsed(raw, wf) && AreIdsUnique(wf) && forall r :: r in raw ==> r.next.None? && r.id != END
  }

  /** Without a `next` written anywhere, the default path visits the steps in
      the order they are written, and ends. */
  lemma {:induction false} OmittedNextsFollowTheList(raw: seq<RawStep>, wf: Workflow, n: nat)
    requires IsPlainList(raw, wf) && raw != [] && n <= |raw|
    ensures DefaultPath(wf, n) == if n < |raw| then raw[n].id else END
  {
    if n == 0 {
      FirstInTheList(raw, wf);
    } else {
      OmittedNextsFollowTheList(raw, wf, n - 1);
      NextInTheList(raw, wf, n - 1);
    }
  }

  lemma FirstInTheList(raw: seq<RawStep>, wf: Workflow)
    requires IsParsed(raw, wf) && raw != []
    ensures wf.steps[0].id == raw[0].id
  {
    assert IsParsedAs(raw, 0, wf.steps[0]);
  }

  lemma NextInTheList(raw: seq<RawStep>, wf: Workflow, i: nat)
    requires IsPlainList(raw, wf) && i < |raw|
    ensures raw[i].id != END && HasStep(wf, raw[i].id)
    ensures FindStep(wf.steps, raw[i].id).value.next == if i + 1 < |raw| then raw[i + 1].id else END
  {
    assert IsParsedAs(raw, i, wf.steps[i]) && raw[i] in raw;
    FoundWhereItIs(wf, i);
  }

  lemma FoundWhereItIs(wf: Workflow, i: nat)
    requires AreIdsUnique(wf) && i < |wf.steps|
    ensures FindStep(wf.steps, wf.steps[i].id) == Some(wf.steps[i])
  {
    var found := FindStep(wf.steps, wf.steps[i].id);
    assert wf.steps[i] in wf.steps;
    var k :| 0 <= k < |wf.steps| && wf.steps[k] == found.value;
  }

  // ----- Routing ------------------------------------------------------------

  /** `route`: a declared signal wins, anything else follows `next`. */
  function Route(step: Step, signal: Option<string>): (to: string)
    ensures to in Destinations(step)
  {
    assert Destinations(step)[|step.signals|] == step.next;
    if signal.Some? && Target(step.signals, signal.value).Some? then
      TargetIsDestination(step, signal.value);
      Target(step.signals, signal.value).value
    else step.next
  }

  /** The destination of a declared signal, wherever it is declared, and `next`
      without a signal or for one that is not. */
  lemma RouteExactly(step: Step, signal: Option<string>, i: nat)
    ensures i < |step.signals| && signal == Some(step.signals[i].0)
            && (forall j :: 0 <= j < i ==> step.signals[j].0 != step.signals[i].0) ==>
              Route(step, signal) == step.signals[i].1
    ensures (forall j :: 0 <= j < |step.signals| ==> signal != Some(step.signals[j].0)) ==>
              Route(step, signal) == step.next
  {
    if i < |step.signals| && signal == Some(step.signals[i].0)
       && forall j :: 0 <= j < i ==> step.signals[j].0 != step.signals[i].0 {
      TargetAt(step.signals, i);
    }
    if signal.Some? && forall j :: 0 <= j < |step.signals| ==> signal != Some(step.signals[j].0) {
      NoTarget(step.signals, signal.value);
    }
  }

  lemma {:induction false} TargetAt(signals: seq<(string, string)>, i: nat)
    requires i < |signals| && forall j :: 0 <= j < i ==> signals[j].0 != signals[i].0
    ensures Target(signals, signals[i].0) == Some(signals[i].1)
    decreases i
  {
    if i == 0 {
    } else {
      assert signals[1..][i - 1] == signals[i];
      TargetAt(signals[1..], i - 1);
    }
  }

  lemma {:induction false} NoTarget(signals: seq<(string, string)>, token: string)
    requires forall j :: 0 <= j < |signals| ==> signals[j].0 != token
    ensures Target(signals, token).None?
  {
    if signals == [] {
    } else {
      NoTarget(signals[1..], token);
    }
  }

  function Target(signals: seq<(string, string)>, token: string): Option<string> {
    if signals == [] then None
    else if signals[0].0 == token then Some(signals[0].1)
    else Target(signals[1..], token)
  }

  lemma {:induction false} TargetIsDestination(step: Step, token: string)
    requires Target(step.signals, token).Some?
    ensures Target(step.signals, token).value in Destinations(step)
    decreases |step.signals|
  {
    var ds := Destinations(step);
    if step.signals[0].0 == token {
      assert ds[0] == step.signals[0].1;
    } else {
      var rest := step.(signals := step.signals[1..]);
      TargetIsDestination(rest, token);
      assert Destinations(rest) == ds[1..];
    }
  }
}
