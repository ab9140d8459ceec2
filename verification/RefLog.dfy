/** The history of ref moves. Every move of `main` and of origin is an event,
    whoever made it; replaying the events from the beginning gives the refs
    and says whether every move was one git accepts.
*/
module RefLog {
  import opened Prelude
  import opened Git
  import opened Replay
  import opened RevList

  /** `Synced` is a sync's swap of `main`: `target` is origin's fetched tip,
      `listed` the answer of `rev-list` (None when the command failed) and
      `dropped` the casualties reported. `Landed` is the CAS of a land. */
  datatype Event =
    | Synced(was: Commit, to: Commit, target: Commit, listed: Option<seq<Commit>>, env: Env, dropped: seq<Commit>)
    | Landed(base: Commit, to: Commit)
    | Pushed(remoteWas: Option<Commit>, to: Commit)
    | OthersMovedMain(ref: Option<Commit>)
    | OthersMovedOrigin(ref: Option<Commit>)

  /** Where a history leaves the refs; the moves lands made themselves; the
      casualties of every sync; and whether each move was a lawful one. */
  datatype History = History(main: Option<Commit>, origin: Option<Commit>,
                             ours: seq<Event>, casualties: seq<Commit>, lawful: bool)

  /** `_unpushed_commits`: a failed `rev-list` reads as no commits. */
  function Unpushed(listed: Option<seq<Commit>>): seq<Commit> {
    if listed.Some? then listed.value else []
  }

  /** A sync moves `main` by fast-forward, or to the replay of the unpushed
      commits, and reports exactly the ones the replay dropped. A listing that
      succeeded holds exactly the unpushed commits. */
  predicate IsLawfulSync(e: Event)
    requires e.Synced?
  {
    if Reaches(e.target, e.was) then e.to == e.target && e.dropped == []
    else
      var r := Rescue(e.target, Unpushed(e.listed), e.env);
      && (e.listed.Some? ==> IsUnpushed(e.listed.value, e.target, e.was))
      && e.to == r.tip && e.dropped == DroppedOf(Unpushed(e.listed), r.fates)
  }

  /** A CAS of `main` needs it to be where the mover last saw it, and a land
      swaps in a child of it; a push fast-forwards. */
  function Next(h: History, e: Event): History {
    match e
    case Synced(was, to, _, _, _, dropped) =>
      h.(main := Some(to), casualties := h.casualties + dropped,
         lawful := h.lawful && h.main == Some(was) && IsLawfulSync(e))
    case Landed(base, to) =>
      h.(main := Some(to), ours := h.ours + [e],
         lawful := h.lawful && h.main == Some(base) && to.parents == [base])
    case Pushed(remoteWas, to) =>
      h.(origin := Some(to), ours := h.ours + [e],
         lawful := h.lawful && h.origin == remoteWas && (remoteWas.None? || Reaches(to, remoteWas.value)))
    case OthersMovedMain(ref) => h.(main := ref)
    case OthersMovedOrigin(ref) => h.(origin := ref)
  }

  function HistoryOf(log: seq<Event>): History {
    if log == [] then History(None, None, [], [], true)
    else Next(HistoryOf(log[..|log| - 1]), log[|log| - 1])
  }

  lemma HistoryAppend(log: seq<Event>, e: Event)
    ensures HistoryOf(log + [e]) == Next(HistoryOf(log), e)
  {
    assert (log + [e])[..|log + [e]| - 1] == log;
  }

  /** `now` is the history `was` with more moves after it, or none. */
  ghost predicate IsLater(was: seq<Event>, now: seq<Event>) {
    now == was || (now != [] && IsLater(was, now[..|now| - 1]))
  }

  lemma LaterByOne(was: seq<Event>, now: seq<Event>, e: Event)
    requires IsLater(was, now)
    ensures IsLater(was, now + [e])
  {
    assert (now + [e])[..|now + [e]| - 1] == now;
  }

  lemma {:induction false} LaterStill(was: seq<Event>, mid: seq<Event>, now: seq<Event>)
    requires IsLater(was, mid) && IsLater(mid, now)
    ensures IsLater(was, now)
  {
    if now == mid {
    } else {
      LaterStill(was, mid, now[..|now| - 1]);
    }
  }

  /** The old history is the beginning of the new one. */
  lemma {:induction false} LaterIsPrefix(was: seq<Event>, now: seq<Event>)
    requires IsLater(was, now)
    ensures was <= now
  {
    if now == was {
    } else {
      LaterIsPrefix(was, now[..|now| - 1]);
    }
  }

  /** What a history says at the end it says all along. */
  lemma {:induction false} LawfulPrefix(log: seq<Event>, i: nat)
    requires HistoryOf(log).lawful && i <= |log|
    ensures HistoryOf(log[..i]).lawful
  {
    if i == |log| {
      assert log[..i] == log;
    } else {
      LawfulPrefix(log[..|log| - 1], i);
      assert log[..|log| - 1][..i] == log[..i];
    }
  }

  /** One move of a lawful history, between the histories around it. */
  lemma LawfulMove(log: seq<Event>, i: nat)
    requires HistoryOf(log).lawful && i < |log|
    ensures HistoryOf(log[..i + 1]) == Next(HistoryOf(log[..i]), log[i])
    ensures HistoryOf(log[..i + 1]).lawful
  {
    LawfulPrefix(log, i + 1);
    MoveBetween(log, i);
  }

  lemma MoveBetween(log: seq<Event>, i: nat)
    requires i < |log|
    ensures HistoryOf(log[..i + 1]) == Next(HistoryOf(log[..i]), log[i])
  {
    HistoryAppend(log[..i], log[i]);
    assert log[..i] + [log[i]] == log[..i + 1];
  }

  /** A land or a fast-forward keeps every commit of `main` reachable. */
  lemma LawfulMoveKeepsMain(h: History, e: Event, x: Commit)
    requires Next(h, e).lawful && h.main.Some? && Reaches(h.main.value, x)
    requires e.Landed? || (e.Synced? && Reaches(e.target, e.was))
    ensures Next(h, e).main.Some? && Reaches(Next(h, e).main.value, x)
  {
    if e.Landed? {
      assert Reaches(e.to, e.base) by { assert e.to.parents[0] == e.base; }
      ReachesTransitive(x, e.base, e.to);
    } else {
      ReachesTransitive(x, e.was, e.target);
    }
  }
}
