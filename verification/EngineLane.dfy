/** The engine's lane in a brief: the cursor and the visit counters of a
    workflow, written into the fence by `set_engine_meta` and read back by every
    dispatch and submit through `split_frontmatter`.
*/
module EngineLane {
  import opened Prelude
  import opened PyText
  import opened Visits
  import F = Frontmatter
  import L = FrontmatterLens

  // ----- What the frontmatter gives back ------------------------------------

  /** `str(value or "")` of a scalar read from the frontmatter. */
  function Shown(v: F.Value): string {
    match v
    case Bool(b) => if b then "True" else ""
    case Int(i) => if i == 0 then "" else IntText(i)
    case Text(s) => s
  }

  /** A text as it comes back from the frontmatter. */
  function StoredBack(text: string): string {
    Shown(L.ParseScalar(F.Render(F.Text(text))))
  }

  lemma {:induction false} DigitsAreCanonical(s: string)
    requires AllDigits(s) && s[0] != '0'
    ensures DigitsValue(s) > 0 && Digits(DigitsValue(s)) == s
  {
    var init, last := s[..|s| - 1], s[|s| - 1];
    assert s == init + [last] && IsDigit(last);
    if init != "" {
      assert forall i :: 0 <= i < |init| ==> init[i] == s[i];
      DigitsAreCanonical(init);
      assert DigitsValue(s) / 10 == DigitsValue(init) && DigitsValue(s) % 10 == last as int - '0' as int;
    }
  }

  lemma {:induction false} DigitsStartNonZero(n: nat)
    requires n > 0
    ensures Digits(n)[0] != '0'
  {
    if n < 10 {
    } else {
      DigitsStartNonZero(n / 10);
      assert Digits(n)[0] == Digits(n / 10)[0];
    }
  }

  /** A step id that is still itself after the round trip through the
      frontmatter: no blanks around it, not a boolean, no number with a
      leading zero. */
  predicate IsReadBack(id: string) {
    && IsStripped(id)
    && (L.LowerText(id) == "true" ==> id == "True") && L.LowerText(id) != "false"
    && (AllDigits(id) ==> id[0] != '0')
  }

  lemma ScalarReadsBackExactly(id: string)
    ensures Strip(StoredBack(id)) == id <==> IsReadBack(id)
  {
    StripFixpoint(id);
    StripFixpoint("True");
    if IsStripped(id) {
      if L.LowerText(id) == "true" {
      } else if L.LowerText(id) == "false" {
        assert |L.LowerText(id)| == |id|;
      } else if AllDigits(id) {
        NumbersReadBackExactly(id);
      }
    } else {
      StripFixpoint(StoredBack(id));
    }
  }

  lemma NumbersReadBackExactly(id: string)
    requires AllDigits(id)
    ensures Strip(Shown(F.Int(DigitsValue(id)))) == id <==> id[0] != '0'
  {
    var n := DigitsValue(id);
    if id[0] != '0' {
      DigitsAreCanonical(id);
      DigitsAreStripped(n);
    } else if n > 0 {
      DigitsStartNonZero(n);
      DigitsAreStripped(n);
    }
  }

  lemma DigitsAreStripped(n: nat)
    ensures Strip(Digits(n)) == Digits(n)
  {
    var s := Digits(n);
    assert IsDigit(s[0]) && IsDigit(s[|s| - 1]);
    StripFixpoint(s);
  }

  lemma ColonsReadBack(text: string)
    requires IsStripped(text) && ':' in text
    ensures StoredBack(text) == text
  {
    var i :| 0 <= i < |text| && text[i] == ':';
    StripFixpoint(text);
    assert L.LowerText(text)[i] == ':' && !IsDigit(text[i]);
  }

  /** The counters as a scalar, when their keys are clean. */
  lemma CountsReadBack(d: Counts)
    requires AreKeysDistinct(d) && forall e :: e in d ==> IsClean(e.0)
    ensures Parsed(StoredBack(FormatVisits(d))) == d
  {
    VisitsRoundTripExactly(d);
    if d == [] {
      StripFixpoint("");
    } else {
      FormatEnds(d);
      ColonsReadBack(FormatVisits(d));
    }
  }

  lemma FormatFirst(d: Counts)
    requires d != []
    ensures FormatVisits(d) == if |d| == 1 then Item(d[0]) else Item(d[0]) + [','] + FormatVisits(d[1..])
  {
    if |d| > 1 {
      assert Items(d)[1..] == Items(d[1..]);
    }
  }

  lemma ItemEnds(e: (string, int))
    requires IsClean(e.0)
    ensures IsStripped(Item(e)) && ':' in Item(e) && Item(e) != ""
  {
    var s, number := Item(e), IntText(e.1);
    IntTextReads(e.1);
    assert s[|e.0|] == ':' && s[0] == e.0[0] && s[|s| - 1] == number[|number| - 1];
  }

  lemma GluedEnds(a: string, b: string)
    requires a != "" && IsStripped(a) && b != "" && IsStripped(b) && ':' in a
    ensures var s := a + [','] + b; IsStripped(s) && ':' in s
  {
    var s := a + [','] + b;
    var i :| 0 <= i < |a| && a[i] == ':';
    assert s[i] == ':' && s[0] == a[0] && s[|s| - 1] == b[|b| - 1];
  }

  lemma {:induction false} FormatEnds(d: Counts)
    requires d != [] && forall e :: e in d ==> IsClean(e.0)
    ensures IsStripped(FormatVisits(d)) && ':' in FormatVisits(d) && FormatVisits(d) != ""
  {
    assert d[0] in d;
    ItemEnds(d[0]);
    FormatFirst(d);
    if |d| > 1 {
      FormatEnds(d[1..]);
      GluedEnds(Item(d[0]), FormatVisits(d[1..]));
    }
  }

  // ----- The brief ----------------------------------------------------------

  const STEP := "workflow_step"
  const VISITS := "workflow_visits"
  const PIN := "docs_pin"
  const WORKFLOW := "workflow"

  /** A fence without three dashes in a line, which names a workflow and carries
      each engine key on one line at most. */
  predicate IsTaskFence(fence: seq<string>) {
    && L.AreBriefLines(fence) && F.Carriers(fence, WORKFLOW) >= 1
    && F.Carriers(fence, STEP) <= 1 && F.Carriers(fence, VISITS) <= 1 && F.Carriers(fence, PIN) <= 1
  }

  /** The file of a task that runs a workflow. */
  ghost predicate IsTaskFile(text: string) {
    exists fence, tail :: IsTaskFence(fence) && L.IsBrief(text, fence, tail)
  }

  /** `str(meta.get(key) or "")`. */
  function MetaText(text: string, key: string): string {
    var v := L.Lookup(L.ReadBrief(text).meta, key);
    if v.None? then "" else Shown(v.value)
  }

  /** The step the file names, empty when it names none. */
  function Cursor(text: string): string {
    Strip(MetaText(text, STEP))
  }

  function CountsOf(text: string): Counts {
    Parsed(MetaText(text, VISITS))
  }

  /** The changes that move the cursor. */
  function Entry(step: string, visits: string): seq<F.Change> {
    [F.Change(STEP, Some(F.Text(step))), F.Change(VISITS, Some(F.Text(visits)))]
  }

  /** The changes that take the engine's lines out. */
  const CLEARED: seq<F.Change> := [F.Change(STEP, None), F.Change(VISITS, None), F.Change(PIN, None)]

  // ----- Writing the lane ---------------------------------------------------

  /** A text that stays on one line and does not close the fence for the
      reader, which looks for the dashes anywhere. */
  predicate FitsALine(text: string) {
    IsLine(text) && !L.HasDashes(text)
  }

  /** Three dashes, character by character. */
  predicate DashesAt(s: string, i: nat) {
    i + 3 <= |s| && s[i] == '-' && s[i + 1] == '-' && s[i + 2] == '-'
  }

  lemma DashesByCharacter(s: string)
    ensures L.HasDashes(s) <==> exists i: nat :: DashesAt(s, i)
  {
    if i: nat :| i <= |s| && OccursAt(s, F.DASHES, i) {
      assert s[i..i + 3][0] == s[i] && s[i..i + 3][1] == s[i + 1] && s[i..i + 3][2] == s[i + 2];
      assert DashesAt(s, i);
    }
    if i: nat :| DashesAt(s, i) {
      assert s[i..i + 3] == F.DASHES && OccursAt(s, F.DASHES, i);
    }
  }

  lemma DashesAreInTheValue(key: string, v: string)
    requires '-' !in key
    ensures L.HasDashes(key + ": " + v) <==> L.HasDashes(v)
  {
    var l := key + ": " + v;
    DashesByCharacter(l);
    DashesByCharacter(v);
    if i: nat :| DashesAt(l, i) {
      assert i >= |key| + 2 && DashesAt(v, i - |key| - 2);
    }
    if i: nat :| DashesAt(v, i) {
      assert DashesAt(l, i + |key| + 2);
    }
  }

  lemma KeysAreKeys()
    ensures F.IsKey(STEP) && F.IsKey(VISITS) && F.IsKey(PIN) && F.IsKey(WORKFLOW)
    ensures '-' !in STEP && '-' !in VISITS && '-' !in WORKFLOW
    ensures STEP != VISITS && STEP != PIN && VISITS != PIN && WORKFLOW !in {STEP, VISITS, PIN}
  {
    assert STEP[0] == 'w' && VISITS[0] == 'w' && PIN[0] == 'd' && WORKFLOW[0] == 'w';
    assert STEP[9] == 's' && VISITS[9] == 'v' && |WORKFLOW| == 8;
  }

  lemma EntriesAreReadable(step: string, visits: string)
    requires FitsALine(step) && FitsALine(visits)
    ensures L.AreReadable(Entry(step, visits))
  {
    KeysAreKeys();
    DashesAreInTheValue(STEP, step);
    DashesAreInTheValue(VISITS, visits);
  }

  lemma EntryHas(step: string, visits: string, key: string)
    ensures F.HasChange(Entry(step, visits), key) <==> key in {STEP, VISITS}
    ensures F.HasChange(Entry(step, visits), key) ==>
              F.ChangeOf(Entry(step, visits), key) == Some(F.Text(if key == STEP then step else visits))
  {
    var changes := Entry(step, visits);
    KeysAreKeys();
    assert changes[0].key == STEP && changes[1].key == VISITS && changes[1..][0] == changes[1];
  }

  lemma EntryKeepsTheFence(fence: seq<string>, changes: seq<F.Change>, step: string, visits: string)
    requires IsTaskFence(fence) && changes == Entry(step, visits) && L.AreReadable(changes)
    ensures IsTaskFence(F.ApplyChanges(fence, changes))
  {
    KeysAreKeys();
    EntryHas(step, visits, WORKFLOW);
    EntryHas(step, visits, STEP);
    EntryHas(step, visits, VISITS);
    EntryHas(step, visits, PIN);
    L.ChangedFenceIsReadable(fence, changes);
    F.CarriersAfter(fence, changes, WORKFLOW);
    F.CarriersAfter(fence, changes, PIN);
    F.CarriersSet(fence, changes, STEP);
    F.CarriersSet(fence, changes, VISITS);
  }

  lemma EntryKeyReadsBack(fence: seq<string>, tail: string, step: string, visits: string, key: string)
    requires IsTaskFence(fence) && L.IsTail(tail) && FitsALine(step) && FitsALine(visits)
    ensures var text := L.BriefText(fence, tail);
            var now := F.SetFrontmatter(text, Entry(step, visits));
            && MetaText(now, key) == (if key == STEP then StoredBack(step) else if key == VISITS then StoredBack(visits)
                                      else MetaText(text, key))
            && L.Prose(L.ReadBrief(now).body) == L.Prose(L.ReadBrief(text).body)
  {
    EntriesAreReadable(step, visits);
    F.SomethingIsWritten(fence, Entry(step, visits), 0);
    KeysAreKeys();
    EntryHas(step, visits, key);
    L.EditedBriefReadsBack(fence, tail, Entry(step, visits), key);
  }

  lemma EntryStaysAFile(fence: seq<string>, tail: string, step: string, visits: string)
    requires IsTaskFence(fence) && L.IsTail(tail) && FitsALine(step) && FitsALine(visits)
    ensures IsTaskFile(F.SetFrontmatter(L.BriefText(fence, tail), Entry(step, visits)))
  {
    var changes := Entry(step, visits);
    EntriesAreReadable(step, visits);
    F.SomethingIsWritten(fence, changes, 0);
    EntryKeepsTheFence(fence, changes, step, visits);
    EditStaysAFile(fence, tail, changes);
  }

  lemma EditStaysAFile(fence: seq<string>, tail: string, changes: seq<F.Change>)
    requires L.AreBriefLines(fence) && L.IsTail(tail) && L.AreReadable(changes)
    requires F.ApplyChanges(fence, changes) != [] && IsTaskFence(F.ApplyChanges(fence, changes))
    ensures IsTaskFile(F.SetFrontmatter(L.BriefText(fence, tail), changes))
  {
    var below := F.DropTrailingEmpty([""] + F.StripLeadingBlanks(L.TailLines(tail)));
    L.EditedIsABrief(fence, tail, changes);
    ATaskFile(F.ApplyChanges(fence, changes), "\n" + Unlines(below));
  }

  lemma ATaskFile(fence: seq<string>, tail: string)
    requires IsTaskFence(fence) && L.IsTail(tail)
    ensures IsTaskFile(L.BriefText(fence, tail))
  {
    L.BriefTextIsABrief(fence, tail);
  }

  /** Blanks after the dashes do not show, before an edit or after it. */
  lemma PlainText(text: string, fence: seq<string>, tail: string, changes: seq<F.Change>)
    requires L.IsBrief(text, fence, tail)
    ensures var plain := L.BriefText(fence, tail);
            && F.SetFrontmatter(text, changes) == F.SetFrontmatter(plain, changes)
            && (forall key :: MetaText(text, key) == MetaText(plain, key))
            && L.Prose(L.ReadBrief(text).body) == L.Prose(L.ReadBrief(plain).body)
  {
    L.PaddingDoesNotShow(text, fence, tail);
  }

  /** An entry is written into the file of a task, and the file stays one: the
      cursor and the counters read back as their scalars do, every other key and
      the prose as they were. */
  lemma EntryReadsBack(text: string, step: string, visits: string)
    requires IsTaskFile(text) && FitsALine(step) && FitsALine(visits)
    ensures var now := F.SetFrontmatter(text, Entry(step, visits));
            && IsTaskFile(now) && MetaText(now, STEP) == StoredBack(step) && MetaText(now, VISITS) == StoredBack(visits)
            && (forall key :: key !in {STEP, VISITS} ==> MetaText(now, key) == MetaText(text, key))
            && L.Prose(L.ReadBrief(now).body) == L.Prose(L.ReadBrief(text).body)
  {
    var fence, tail :| IsTaskFence(fence) && L.IsBrief(text, fence, tail);
    PlainText(text, fence, tail, Entry(step, visits));
    EntryStaysAFile(fence, tail, step, visits);
    KeysAreKeys();
    forall key {
      EntryKeyReadsBack(fence, tail, step, visits, key);
    }
  }

  lemma ClearedHas(key: string)
    ensures L.AreReadable(CLEARED)
    ensures F.HasChange(CLEARED, key) <==> key in {STEP, VISITS, PIN}
    ensures F.HasChange(CLEARED, key) ==> F.ChangeOf(CLEARED, key).None?
  {
    KeysAreKeys();
    assert CLEARED[0].key == STEP && CLEARED[1].key == VISITS && CLEARED[2].key == PIN;
    if F.HasChange(CLEARED, key) {
      F.ChangeIsMember(CLEARED, key);
    }
  }

  lemma ClearedIsReadable()
    ensures L.AreReadable(CLEARED)
  {
    ClearedHas(STEP);
  }

  lemma ClearedKeepsTheFence(fence: seq<string>)
    requires IsTaskFence(fence)
    ensures IsTaskFence(F.ApplyChanges(fence, CLEARED)) && F.ApplyChanges(fence, CLEARED) != []
  {
    KeysAreKeys();
    ClearedHas(WORKFLOW);
    ClearedHas(STEP);
    ClearedHas(VISITS);
    ClearedHas(PIN);
    L.ChangedFenceIsReadable(fence, CLEARED);
    F.CarriersAfter(fence, CLEARED, WORKFLOW);
    F.CarriersAfter(fence, CLEARED, STEP);
    F.CarriersAfter(fence, CLEARED, VISITS);
    F.CarriersAfter(fence, CLEARED, PIN);
  }

  lemma ClearedReadsBack(fence: seq<string>, tail: string, key: string)
    requires IsTaskFence(fence) && L.IsTail(tail)
    ensures var text := L.BriefText(fence, tail);
            var now := F.SetFrontmatter(text, CLEARED);
            && MetaText(now, key) == (if key in {STEP, VISITS, PIN} then "" else MetaText(text, key))
            && L.Prose(L.ReadBrief(now).body) == L.Prose(L.ReadBrief(text).body)
  {
    KeysAreKeys();
    ClearedHas(key);
    ClearedKeepsTheFence(fence);
    L.EditedBriefReadsBack(fence, tail, CLEARED, key);
  }

  lemma ClearedStaysAFile(fence: seq<string>, tail: string)
    requires IsTaskFence(fence) && L.IsTail(tail)
    ensures IsTaskFile(F.SetFrontmatter(L.BriefText(fence, tail), CLEARED))
  {
    ClearedIsReadable();
    ClearedKeepsTheFence(fence);
    EditStaysAFile(fence, tail, CLEARED);
  }

  /** A reset leaves the file of a task without a cursor, as fresh as one that
      never ran; every other key and the prose are as they were. */
  lemma ResetReadsBack(text: string, key: string)
    requires IsTaskFile(text)
    ensures var now := F.SetFrontmatter(text, CLEARED);
            && IsTaskFile(now)
            && MetaText(now, key) == (if key in {STEP, VISITS, PIN} then "" else MetaText(text, key))
            && L.Prose(L.ReadBrief(now).body) == L.Prose(L.ReadBrief(text).body)
  {
    var fence, tail :| IsTaskFence(fence) && L.IsBrief(text, fence, tail);
    PlainText(text, fence, tail, CLEARED);
    ClearedStaysAFile(fence, tail);
    ClearedReadsBack(fence, tail, key);
  }

  // ----- Which step ids the lane can carry ----------------------------------

  /** What comes out of the reader, whatever the file holds. */
  predicate IsStorable(id: string) {
    IsReadBack(id) && FitsALine(id)
  }

  lemma SlicesFit(s: string, t: string, i: nat)
    requires i + |t| <= |s| && s[i..i + |t|] == t
    ensures L.HasDashes(t) ==> L.HasDashes(s)
    ensures IsLine(s) ==> IsLine(t)
  {
    DashesByCharacter(t);
    DashesByCharacter(s);
    if j: nat :| DashesAt(t, j) {
      assert forall k :: 0 <= k < |t| ==> t[k] == s[i + k];
      assert DashesAt(s, i + j);
    }
    forall k | IsLine(s) && 0 <= k < |t|
      ensures !IsBreak(t[k])
    {
      assert t[k] == s[i..i + |t|][k] == s[i + k];
    }
  }

  lemma AfterTheFirstLine(s: string) returns (from: nat)
    requires LineEnd(s) < |s|
    ensures 0 < from <= |s| && SplitLines(s) == [s[..LineEnd(s)]] + SplitLines(s[from..])
  {
    var n := LineEnd(s);
    var skip := if s[n] == '\r' && n + 1 < |s| && s[n + 1] == '\n' then 2 else 1;
    from := n + skip;
    SplitStep(s, s[..n], skip, s[from..]);
  }

  /** No line of a text without dashes has any. */
  lemma {:induction false} LinesFit(s: string)
    requires !L.HasDashes(s)
    ensures forall l :: l in SplitLines(s) ==> FitsALine(l)
    decreases |s|
  {
    if s == "" {
    } else {
      var n := LineEnd(s);
      SlicesFit(s, s[..n], 0);
      if n < |s| {
        var from := AfterTheFirstLine(s);
        SlicesFit(s, s[from..], from);
        LinesFit(s[from..]);
      } else {
        assert SplitLines(s) == [s] && s[..n] == s;
      }
    }
  }

  lemma DashesFirst(s: string)
    ensures DashesAt(s, 0) <==> |s| >= 3 && s[..3] == F.DASHES
  {
    if |s| >= 3 {
      assert s[..3][0] == s[0] && s[..3][1] == s[1] && s[..3][2] == s[2];
      assert DashesAt(s, 0) ==> s[..3] == [s[0], s[1], s[2]];
    }
  }

  /** The reader cuts at the first dashes. */
  lemma {:induction false} FirstDashes(s: string, i: nat)
    requires L.FindDashes(s).Some? && i < L.FindDashes(s).value
    ensures !DashesAt(s, i)
  {
    if i == 0 {
      DashesFirst(s);
    } else {
      FirstDashes(s[1..], i - 1);
    }
  }

  lemma NoDashesBefore(s: string)
    requires L.FindDashes(s).Some?
    ensures !L.HasDashes(s[..L.FindDashes(s).value])
  {
    var t := s[..L.FindDashes(s).value];
    DashesByCharacter(t);
    if i: nat :| DashesAt(t, i) {
      assert DashesAt(s, i);
      FirstDashes(s, i);
    }
  }

  lemma {:induction false} ValuesComeFromLines(lines: seq<string>, key: string)
    requires L.Lookup(L.MetaOf(lines), key).Some?
    ensures exists l :: l in lines && L.MetaOf(lines)[key] == L.ParseScalar(After(l, ':'))
  {
    L.MetaAppendOne(lines[0], lines[1..], key);
    assert [lines[0]] + lines[1..] == lines;
    if L.Lookup(L.MetaOf(lines[1..]), key).Some? {
      ValuesComeFromLines(lines[1..], key);
    } else {
      assert lines[0] in lines;
    }
  }

  lemma {:induction false} AfterIsASlice(l: string, c: char)
    ensures |After(l, c)| <= |l| && l[|l| - |After(l, c)|..] == After(l, c)
  {
    if l == "" || l[0] == c {
    } else {
      AfterIsASlice(l[1..], c);
    }
  }

  /** A scalar shown as text. */
  lemma ShownIsStorable(raw: string)
    requires FitsALine(raw)
    ensures IsStorable(Shown(L.ParseScalar(raw)))
  {
    L.StripIsASlice(raw);
    var i: nat :| i <= |raw| && OccursAt(raw, Strip(raw), i);
    SlicesFit(raw, Strip(raw), i);
    StripFixpoint(raw);
    match L.ParseScalar(raw)
    case Bool(b) =>
      TrueIsStorable();
    case Int(n) =>
      NumbersAreStorable(n);
    case Text(s) =>
  }

  lemma TrueIsStorable()
    ensures IsStorable("True") && IsStorable("")
  {
    assert L.LowerText("True") == "true" && L.LowerText("") == "";
  }

  lemma NumbersAreStorable(n: int)
    requires n >= 0
    ensures IsStorable(Shown(F.Int(n)))
  {
    TrueIsStorable();
    if n > 0 {
      var s := Digits(n);
      DigitsAreStripped(n);
      DigitsStartNonZero(n);
      assert L.LowerText(s)[0] == s[0] && IsDigit(s[0]);
      DashesByCharacter(s);
    }
  }

  /** Whatever a file holds, what is read from it is a storable text. */
  lemma MetaTextsAreStorable(text: string, key: string)
    ensures IsStorable(MetaText(text, key))
  {
    TrueIsStorable();
    if L.OpensForReader(text) {
      ReaderLinesFit(text);
      if L.Lookup(L.MetaOf(L.ReaderLines(text)), key).Some? {
        ValuesAreStorable(L.ReaderLines(text), key);
      }
    }
  }

  lemma ReaderLinesFit(text: string)
    requires L.OpensForReader(text)
    ensures forall l :: l in L.ReaderLines(text) ==> FitsALine(l)
  {
    var n := L.FindDashes(text[3..]).value;
    NoDashesBefore(text[3..]);
    assert text[3..3 + n] == text[3..][..n];
    LinesFit(text[3..3 + n]);
  }

  lemma ValuesAreStorable(lines: seq<string>, key: string)
    requires (forall l :: l in lines ==> FitsALine(l)) && L.Lookup(L.MetaOf(lines), key).Some?
    ensures IsStorable(Shown(L.MetaOf(lines)[key]))
  {
    ValuesComeFromLines(lines, key);
    var l :| l in lines && L.MetaOf(lines)[key] == L.ParseScalar(After(l, ':'));
    ValueOfALineIsStorable(l);
  }

  lemma ValueOfALineIsStorable(l: string)
    requires FitsALine(l)
    ensures IsStorable(Shown(L.ParseScalar(After(l, ':'))))
  {
    AfterIsASlice(l, ':');
    RestFits(l, |l| - |After(l, ':')|);
    ShownIsStorable(After(l, ':'));
  }

  lemma RestFits(l: string, i: nat)
    requires FitsALine(l) && i <= |l|
    ensures FitsALine(l[i..])
  {
    var t := l[i..];
    assert i + |t| == |l| && l[i..i + |t|] == t;
    SlicesFit(l, t, i);
  }

  lemma CursorsAreStorable(text: string)
    ensures IsStorable(Cursor(text)) && Cursor(text) == MetaText(text, STEP)
  {
    MetaTextsAreStorable(text, STEP);
    StripFixpoint(MetaText(text, STEP));
  }

  /** So a step id can be the cursor of a task exactly when it is storable: then
      it reads back from every file it is written into, and otherwise from no
      file at all. */
  lemma CursorReadsBackExactly(text: string, id: string, visits: string)
    requires IsTaskFile(text) && FitsALine(visits)
    ensures Cursor(F.SetFrontmatter(text, Entry(id, visits))) == id <==> IsStorable(id)
  {
    if IsStorable(id) {
      EntryReadsBack(text, id, visits);
      ScalarReadsBackExactly(id);
    } else {
      CursorsAreStorable(F.SetFrontmatter(text, Entry(id, visits)));
    }
  }

  // ----- The counters -------------------------------------------------------

  /** A step id the counters can carry. */
  predicate IsCountable(id: string) {
    IsClean(id) && FitsALine(id)
  }

  lemma NumberFits(n: int)
    ensures FitsALine(IntText(n))
  {
    var s := IntText(n);
    DashesByCharacter(s);
    assert forall i :: 1 <= i < |s| ==> IsDigit(s[i]);
  }

  /** Between two texts without dashes, a character that is no dash adds none. */
  lemma GluedFits(a: string, c: char, b: string)
    requires FitsALine(a) && FitsALine(b) && c != '-' && !IsBreak(c)
    ensures FitsALine(a + [c] + b)
  {
    var s := a + [c] + b;
    DashesByCharacter(a);
    DashesByCharacter(b);
    DashesByCharacter(s);
    if i: nat :| DashesAt(s, i) {
      assert s[|a|] == c;
      if i < |a| {
        assert DashesAt(a, i);
      } else {
        assert DashesAt(b, i - |a| - 1);
      }
    }
  }

  lemma ItemFits(e: (string, int))
    requires FitsALine(e.0)
    ensures FitsALine(Item(e))
  {
    NumberFits(e.1);
    GluedFits(e.0, ':', IntText(e.1));
  }

  lemma {:induction false} CountsFit(d: Counts)
    requires forall e :: e in d ==> FitsALine(e.0)
    ensures FitsALine(FormatVisits(d))
  {
    if d == [] {
      TrueIsStorable();
    } else {
      assert d[0] in d;
      ItemFits(d[0]);
      FormatFirst(d);
      if |d| > 1 {
        CountsFit(d[1..]);
        GluedFits(Item(d[0]), ',', FormatVisits(d[1..]));
      }
    }
  }

  predicate AreCountable(d: Counts) {
    AreKeysDistinct(d) && forall e :: e in d ==> IsCountable(e.0)
  }

  lemma {:induction false} FirstPartIsAPrefix(s: string, c: char)
    ensures Split(s, c)[0] <= s
  {
    if s == "" || s[0] == c {
    } else {
      FirstPartIsAPrefix(s[1..], c);
      assert [s[0]] + Split(s[1..], c)[0] <= [s[0]] + s[1..] == s;
    }
  }

  lemma {:induction false} PartsFit(s: string, c: char)
    requires FitsALine(s)
    ensures forall p :: p in Split(s, c) ==> FitsALine(p)
  {
    if s == "" {
    } else {
      SlicesFit(s, s[1..], 1);
      PartsFit(s[1..], c);
      var first := Split(s, c)[0];
      FirstPartIsAPrefix(s, c);
      SlicesFit(s, first, 0);
      assert Split(s, c) == [first] + if s[0] == c then Split(s[1..], c) else Split(s[1..], c)[1..];
    }
  }

  lemma StripFits(s: string)
    requires FitsALine(s)
    ensures FitsALine(Strip(s))
  {
    L.StripIsASlice(s);
    var i: nat :| i <= |s| && OccursAt(s, Strip(s), i);
    SlicesFit(s, Strip(s), i);
  }

  /** The keys of counters that were read fit a line too. */
  lemma {:induction false} ReadKeysFit(chunks: seq<string>)
    requires forall c :: c in chunks ==> FitsALine(c)
    ensures forall e :: e in ReadChunks(chunks) ==> FitsALine(e.0)
  {
    if chunks == [] {
    } else {
      var init, chunk := chunks[..|chunks| - 1], chunks[|chunks| - 1];
      ReadKeysFit(init);
      StripFits(chunk);
      var before := Before(Strip(chunk), ':');
      BeforeLacksIt(Strip(chunk), ':');
      SlicesFit(Strip(chunk), before, 0);
      StripFits(before);
      PutKeysAre(ReadChunks(init), Strip(before), IntOf(Strip(After(Strip(chunk), ':'))));
    }
  }

  lemma {:induction false} PutKeysAre(d: Counts, key: string, n: Option<int>)
    ensures n.Some? ==> forall e :: e in Put(d, key, n.value) ==> e.0 == key || e in d
  {
    if d == [] || n.None? || d[0].0 == key {
    } else {
      PutKeysAre(d[1..], key, n);
    }
  }

  /** What is read as counters: distinct clean keys that fit a line. */
  lemma ReadCountsAreCountable(text: string)
    ensures AreCountable(CountsOf(text))
  {
    var raw := MetaText(text, VISITS);
    MetaTextsAreStorable(text, VISITS);
    if raw != "" {
      SplitPartsLackIt(raw, ',');
      ReadKeysAreClean(Split(raw, ','));
      PartsFit(raw, ',');
      ReadKeysFit(Split(raw, ','));
    }
  }

  // ----- The document pin ---------------------------------------------------

  /** The change that records a pin: its JSON text, on one line. */
  function Pinned(rendered: string): seq<F.Change> {
    [F.Change(PIN, Some(F.Text(rendered)))]
  }

  lemma PinnedHas(rendered: string, key: string)
    ensures F.HasChange(Pinned(rendered), key) <==> key == PIN
    ensures F.HasChange(Pinned(rendered), key) ==> F.ChangeOf(Pinned(rendered), key) == Some(F.Text(rendered))
  {
    assert Pinned(rendered)[0].key == PIN;
  }

  lemma PinnedIsReadable(rendered: string)
    requires FitsALine(rendered)
    ensures L.AreReadable(Pinned(rendered))
  {
    KeysAreKeys();
    assert '-' !in PIN;
    DashesAreInTheValue(PIN, rendered);
  }

  lemma PinnedKeepsTheFence(fence: seq<string>, rendered: string)
    requires IsTaskFence(fence) && FitsALine(rendered)
    ensures IsTaskFence(F.ApplyChanges(fence, Pinned(rendered))) && F.ApplyChanges(fence, Pinned(rendered)) != []
  {
    var changes := Pinned(rendered);
    KeysAreKeys();
    PinnedIsReadable(rendered);
    PinnedHas(rendered, WORKFLOW);
    PinnedHas(rendered, STEP);
    PinnedHas(rendered, VISITS);
    PinnedHas(rendered, PIN);
    L.ChangedFenceIsReadable(fence, changes);
    F.CarriersAfter(fence, changes, WORKFLOW);
    F.CarriersAfter(fence, changes, STEP);
    F.CarriersAfter(fence, changes, VISITS);
    F.CarriersSet(fence, changes, PIN);
  }

  lemma PinnedKeyReadsBack(fence: seq<string>, tail: string, rendered: string, key: string)
    requires IsTaskFence(fence) && L.IsTail(tail) && FitsALine(rendered)
    ensures var text := L.BriefText(fence, tail);
            var now := F.SetFrontmatter(text, Pinned(rendered));
            && MetaText(now, key) == (if key == PIN then StoredBack(rendered) else MetaText(text, key))
            && L.Prose(L.ReadBrief(now).body) == L.Prose(L.ReadBrief(text).body)
  {
    PinnedKeepsTheFence(fence, rendered);
    PinnedIsReadable(rendered);
    PinnedHas(rendered, key);
    L.EditedBriefReadsBack(fence, tail, Pinned(rendered), key);
  }

  /** A pin written into the file of a task reads back as itself exactly when
      its text holds no three dashes; then nothing else changes. So a pin with a
      path that holds them is lost. */
  lemma PinReadsBackExactly(text: string, rendered: string)
    requires IsTaskFile(text) && IsLine(rendered) && IsStripped(rendered) && ':' in rendered
    ensures var now := F.SetFrontmatter(text, Pinned(rendered));
            && (MetaText(now, PIN) == rendered <==> !L.HasDashes(rendered))
            && (!L.HasDashes(rendered) ==>
                  && IsTaskFile(now) && (forall key :: key != PIN ==> MetaText(now, key) == MetaText(text, key))
                  && L.Prose(L.ReadBrief(now).body) == L.Prose(L.ReadBrief(text).body))
  {
    var now := F.SetFrontmatter(text, Pinned(rendered));
    MetaTextsAreStorable(now, PIN);
    if !L.HasDashes(rendered) {
      var fence, tail :| IsTaskFence(fence) && L.IsBrief(text, fence, tail);
      PlainText(text, fence, tail, Pinned(rendered));
      ColonsReadBack(rendered);
      PinnedIsReadable(rendered);
      PinnedKeepsTheFence(fence, rendered);
      EditStaysAFile(fence, tail, Pinned(rendered));
      forall key {
        PinnedKeyReadsBack(fence, tail, rendered, key);
      }
    }
  }

  /** An id that reads as false or as zero. */
  predicate IsFalsy(id: string) {
    FitsALine(id) && IsStripped(id) && (L.LowerText(id) == "false" || (AllDigits(id) && DigitsValue(id) == 0))
  }

  lemma FalsyIsEmpty(id: string)
    requires IsFalsy(id)
    ensures Strip(StoredBack(id)) == ""
  {
    StripFixpoint(id);
    if AllDigits(id) {
      assert L.LowerText(id) != "true" by {
        assert L.LowerText(id)[0] == id[0];
      }
    }
  }

  lemma FalsyLeavesNoCursor(text: string, id: string, visits: string)
    requires IsTaskFile(text) && IsFalsy(id) && FitsALine(visits)
    ensures var now := F.SetFrontmatter(text, Entry(id, visits)); IsTaskFile(now) && Cursor(now) == ""
  {
    EntryReadsBack(text, id, visits);
    FalsyIsEmpty(id);
  }

  /** The file of a task that never ran. */
  const NEW_FILE := L.BriefText([F.EntryLine(WORKFLOW, F.Text("w"))], "")

  lemma NewFilesAreFresh()
    ensures IsTaskFile(NEW_FILE) && Cursor(NEW_FILE) == ""
  {
    KeysAreKeys();
    F.EntryLineCarriesItsKey(WORKFLOW, F.Text("w"));
    DashesAreInTheValue(WORKFLOW, "w");
    DashesByCharacter("w");
    OneLineFile(F.EntryLine(WORKFLOW, F.Text("w")));
  }

  lemma OneLineFile(line: string)
    requires FitsALine(line) && F.LineKey(line) == Some(WORKFLOW)
    ensures IsTaskFile(L.BriefText([line], "")) && Cursor(L.BriefText([line], "")) == ""
  {
    OneLineFence(line);
    ATaskFile([line], "");
    L.ReadsFenceAndTail([line], "");
    L.KeysAreCarried([line], STEP);
    StripFixpoint("");
  }

  lemma OneLineFence(line: string)
    requires FitsALine(line) && F.LineKey(line) == Some(WORKFLOW)
    ensures IsTaskFence([line]) && F.Carriers([line], STEP) == 0
  {
    KeysAreKeys();
    assert [line][1..] == [];
  }

  // ----- The lane -----------------------------------------------------------

  /** Where the engine keeps its two lines, seen from the run: which texts are
      files of a task, what is read from one, what writing an entry (a step and
      the counters as text) or taking the lines out makes of it, and which texts
      agree on everything else. */
  datatype Lane = Lane(isFile: string -> bool, cursor: string -> string, counts: string -> Counts,
                       enter: (string, string, string) -> string, clear: string -> string,
                       agree: (string, string) -> bool)

  ghost predicate Fits(d: Counts) {
    forall e :: e in d ==> FitsALine(e.0)
  }

  /** Only storable cursors and countable counters are ever read; an entry that
      fits is a file again and reads back; a cleared file has no cursor; and
      neither changes anything else. */
  ghost predicate IsLane(lane: Lane) {
    && (forall f :: ReadsWell(lane, f))
    && (forall f, id, d {:trigger lane.enter(f, id, FormatVisits(d))} :: EntersWell(lane, f, id, d))
    && (forall f {:trigger lane.clear(f)} :: ClearsWell(lane, f))
    && (forall f :: lane.agree(f, f))
    && (forall f, g, h :: lane.agree(f, g) && lane.agree(g, h) ==> lane.agree(f, h))
  }

  predicate ReadsWell(lane: Lane, f: string) {
    IsStorable(lane.cursor(f)) && AreCountable(lane.counts(f))
  }

  ghost predicate EntersWell(lane: Lane, f: string, id: string, d: Counts) {
    lane.isFile(f) && IsStorable(id) && Fits(d) ==>
      var now := lane.enter(f, id, FormatVisits(d));
      && lane.isFile(now) && lane.cursor(now) == id && (AreCountable(d) ==> lane.counts(now) == d) && lane.agree(f, now)
  }

  predicate ClearsWell(lane: Lane, f: string) {
    lane.isFile(f) ==> var now := lane.clear(f); lane.isFile(now) && lane.cursor(now) == "" && lane.agree(f, now)
  }

  /** The brief's own file. */
  ghost const FILES := Lane(
    f => IsTaskFile(f), f => Cursor(f), f => CountsOf(f),
    (f, step, visits) => F.SetFrontmatter(f, Entry(step, visits)), f => F.SetFrontmatter(f, CLEARED),
    (f, g) => IsSameBrief(f, g))

  /** The two texts read the same, but for the engine's own lines. */
  ghost predicate IsSameBrief(was: string, now: string) {
    && (forall key :: !IsEngineKey(key) ==> MetaText(now, key) == MetaText(was, key))
    && L.Prose(L.ReadBrief(now).body) == L.Prose(L.ReadBrief(was).body)
  }

  predicate IsEngineKey(key: string) {
    key == STEP || key == VISITS || key == PIN
  }

  lemma FilesEnter(f: string, id: string, d: Counts)
    requires IsTaskFile(f) && IsStorable(id) && Fits(d)
    ensures var now := F.SetFrontmatter(f, Entry(id, FormatVisits(d)));
            IsTaskFile(now) && Cursor(now) == id && (AreCountable(d) ==> CountsOf(now) == d) && IsSameBrief(f, now)
  {
    CountsFit(d);
    EntryReadsBack(f, id, FormatVisits(d));
    ScalarReadsBackExactly(id);
    if AreCountable(d) {
      CountsReadBack(d);
    }
  }

  lemma FilesClear(f: string)
    requires IsTaskFile(f)
    ensures var now := F.SetFrontmatter(f, CLEARED); IsTaskFile(now) && Cursor(now) == "" && IsSameBrief(f, now)
  {
    var now := F.SetFrontmatter(f, CLEARED);
    ResetReadsBack(f, STEP);
    CursorsAreStorable(now);
    forall key | !IsEngineKey(key)
      ensures MetaText(now, key) == MetaText(f, key)
    {
      ResetReadsBack(f, key);
    }
  }

  /** The brief's file keeps the laws. */
  lemma FilesAreALane()
    ensures IsLane(FILES)
  {
    forall f
      ensures ReadsWell(FILES, f)
    {
      CursorsAreStorable(f);
      ReadCountsAreCountable(f);
    }
    forall f, id, d
      ensures EntersWell(FILES, f, id, d)
    {
      if IsTaskFile(f) && IsStorable(id) && Fits(d) {
        FilesEnter(f, id, d);
      }
    }
    forall f
      ensures ClearsWell(FILES, f)
    {
      if IsTaskFile(f) {
        FilesClear(f);
      }
    }
  }
}
