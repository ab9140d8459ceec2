/** The reader side of the frontmatter (`spawn_daily.split_frontmatter`) and
    the lens laws between it and the editor: what is set reads back, what is
    not set is unchanged, and the body survives.
*/
module FrontmatterLens {
  import opened Prelude
  import opened PyText
  import opened Frontmatter

  // ----- The reader ---------------------------------------------------------

  function Lower(c: char): char {
    if 'A' <= c <= 'Z' then (c as int + 32) as char else c
  }

  function LowerText(s: string): string {
    seq(|s|, i requires 0 <= i < |s| => Lower(s[i]))
  }

  /** The scalar a value's text stands for. */
  function ParseScalar(raw: string): Value {
    var text := Strip(raw);
    if LowerText(text) == "true" then Bool(true)
    else if LowerText(text) == "false" then Bool(false)
    else if AllDigits(text) then Int(DigitsValue(text))
    else Text(text)
  }

  /** A boolean is one of two words, in any mix of cases, between blanks. */
  lemma BooleansAreExact(raw: string)
    ensures var t := Strip(raw);
            && (ParseScalar(raw) == Bool(true) <==>
                |t| == 4 && t[0] in "tT" && t[1] in "rR" && t[2] in "uU" && t[3] in "eE")
            && (ParseScalar(raw) == Bool(false) <==>
                |t| == 5 && t[0] in "fF" && t[1] in "aA" && t[2] in "lL" && t[3] in "sS" && t[4] in "eE")
  {
    var t := Strip(raw);
    assert |t| == 4 ==> LowerText(t) == [Lower(t[0]), Lower(t[1]), Lower(t[2]), Lower(t[3])];
    assert |t| == 5 ==> LowerText(t) == [Lower(t[0]), Lower(t[1]), Lower(t[2]), Lower(t[3]), Lower(t[4])];
  }

  /** What one fence line contributes. */
  function LineMeta(l: string): map<string, Value> {
    if LineKey(l).Some? then map[LineKey(l).value := ParseScalar(After(l, ':'))] else map[]
  }

  /** The dict a list of fence lines makes; a later entry of a key wins. */
  function MetaOf(lines: seq<string>): map<string, Value> {
    if lines == [] then map[] else LineMeta(lines[0]) + MetaOf(lines[1..])
  }

  /** The loop of `split_frontmatter` over the fence lines. */
  method ReadMeta(lines: seq<string>) returns (meta: map<string, Value>)
    ensures meta == MetaOf(lines)
  {
    meta := map[];
    for i := 0 to |lines|
      invariant meta + MetaOf(lines[i..]) == MetaOf(lines)
    {
      MetaStep(meta, lines, i);
      meta := meta + LineMeta(lines[i]);
    }
  }

  lemma MetaStep(meta: map<string, Value>, lines: seq<string>, i: nat)
    requires i < |lines|
    ensures meta + MetaOf(lines[i..]) == (meta + LineMeta(lines[i])) + MetaOf(lines[i + 1..])
  {
    assert lines[i..][1..] == lines[i + 1..];
  }

  /** The first occurrence of the dashes in `s`. */
  function FindDashes(s: string): (at: Option<nat>)
    ensures at.Some? ==> at.value + 3 <= |s|
  {
    if |s| < 3 then None
    else if s[..3] == DASHES then Some(0)
    else var rest := FindDashes(s[1..]); if rest.None? then None else Some(rest.value + 1)
  }

  function LStripNewlines(s: string): string {
    if s != "" && s[0] == '\n' then LStripNewlines(s[1..]) else s
  }

  datatype Brief = Brief(meta: map<string, Value>, body: string)

  /** The reader takes the text for a brief with a fence: it looks for the
      dashes anywhere. */
  predicate OpensForReader(text: string) {
    DASHES <= text && FindDashes(text[3..]).Some?
  }

  function ReaderLines(text: string): seq<string>
    requires OpensForReader(text)
  {
    SplitLines(text[3..3 + FindDashes(text[3..]).value])
  }

  /** `split_frontmatter`. */
  function ReadBrief(text: string): Brief {
    if !OpensForReader(text) then Brief(map[], text)
    else Brief(MetaOf(ReaderLines(text)), LStripNewlines(text[6 + FindDashes(text[3..]).value..]))
  }

  // ----- Reading a well-formed brief ----------------------------------------

  predicate HasDashes(l: string) {
    exists i: nat | i <= |l| :: OccursAt(l, DASHES, i)
  }

  predicate AreBriefLines(fence: seq<string>) {
    AreLines(fence) && forall i :: 0 <= i < |fence| ==> !HasDashes(fence[i])
  }

  /** The text of a brief: the dashes alone on the first line and on the line
      closing the fence, and whatever follows. */
  function BriefText(fence: seq<string>, tail: string): string {
    DASHES + ("\n" + (Unlines(fence) + (DASHES + tail)))
  }

  predicate IsTail(tail: string) {
    tail == "" || tail[0] == '\n'
  }

  lemma {:induction false} DashesAfterLine(l: string, rest: string)
    requires !HasDashes(l) && IsLine(l)
    ensures FindDashes(l + "\n" + rest) ==
            if FindDashes(rest).Some? then Some(|l| + 1 + FindDashes(rest).value) else None
  {
    var s := l + "\n" + rest;
    assert |s| >= 3 ==> s[..3] != DASHES by {
      if |l| >= 3 {
        assert !OccursAt(l, DASHES, 0) && s[..3] == l[..3];
      } else {
        assert s[|l|] == '\n';
      }
    }
    if l == "" {
      assert s[1..] == rest;
    } else {
      assert s[1..] == l[1..] + "\n" + rest;
      NoDashesRest(l);
      DashesAfterLine(l[1..], rest);
    }
    if |s| < 3 {
      assert |rest| < 3;
    }
  }

  lemma NoDashesRest(l: string)
    requires l != "" && !HasDashes(l)
    ensures !HasDashes(l[1..])
  {
    if i: nat :| i <= |l[1..]| && OccursAt(l[1..], DASHES, i) {
      assert OccursAt(l, DASHES, i + 1);
    }
  }

  lemma {:induction false} DashesAfterLines(fence: seq<string>, tail: string)
    requires AreBriefLines(fence)
    ensures FindDashes(Unlines(fence) + (DASHES + tail)) == Some(|Unlines(fence)|)
  {
    if fence == [] {
      assert Unlines(fence) + (DASHES + tail) == DASHES + tail && (DASHES + tail)[..3] == DASHES;
    } else {
      DashesAfterLines(fence[1..], tail);
      var rest := Unlines(fence[1..]) + (DASHES + tail);
      assert Unlines(fence) + (DASHES + tail) == fence[0] + "\n" + rest;
      DashesAfterLine(fence[0], rest);
    }
  }

  lemma BlankLineAddsNothing(fence: seq<string>)
    ensures MetaOf([""] + fence) == MetaOf(fence)
  {
    assert ([""] + fence)[1..] == fence && LineKey("").None?;
  }

  lemma ReadsFenceAndTail(fence: seq<string>, tail: string)
    requires AreBriefLines(fence)
    ensures ReadBrief(BriefText(fence, tail)) == Brief(MetaOf(fence), LStripNewlines(tail))
  {
    var text, lines := BriefText(fence, tail), Unlines(fence);
    var n := 1 + |lines|;
    BriefParts(lines, tail);
    DashesAfterLines(fence, tail);
    DashesAfterLine("", lines + (DASHES + tail));
    assert "" + "\n" + (lines + (DASHES + tail)) == "\n" + (lines + (DASHES + tail));
    SplitLinesCons("", lines);
    assert "" + "\n" + lines == "\n" + lines;
    SplitLinesUnlines(fence);
    BlankLineAddsNothing(fence);
  }

  lemma BriefParts(lines: string, tail: string)
    ensures var text := DASHES + ("\n" + (lines + (DASHES + tail)));
            && DASHES <= text && text[3..] == "\n" + (lines + (DASHES + tail))
            && text[3..3 + (1 + |lines|)] == "\n" + lines && text[6 + (1 + |lines|)..] == tail
  {
    var rest := "\n" + (lines + (DASHES + tail));
    var text := DASHES + rest;
    assert text[3..] == rest;
    assert rest[..1 + |lines|] == "\n" + lines && rest[4 + |lines|..] == tail;
    assert text[3..4 + |lines|] == rest[..1 + |lines|] && text[7 + |lines|..] == rest[4 + |lines|..];
  }

  // ----- Editing a well-formed brief ----------------------------------------

  function TailLines(tail: string): seq<string> {
    if tail == "" then [] else SplitLines(tail[1..])
  }

  lemma Regroup<T>(a: seq<T>, b: seq<T>, c: seq<T>)
    ensures a + (b + c) == a + b + c
  {}

  lemma {:induction false} SplitLinesAfter(ls: seq<string>, rest: string)
    requires AreLines(ls)
    ensures SplitLines(Unlines(ls) + rest) == ls + SplitLines(rest)
  {
    if ls == [] {
      assert Unlines(ls) + rest == rest;
    } else {
      assert Unlines(ls) + rest == ls[0] + "\n" + (Unlines(ls[1..]) + rest);
      SplitLinesCons(ls[0], Unlines(ls[1..]) + rest);
      SplitLinesAfter(ls[1..], rest);
      Regroup([ls[0]], ls[1..], SplitLines(rest));
      assert [ls[0]] + ls[1..] == ls;
    }
  }

  lemma NoDashesNoClose(fence: seq<string>)
    requires AreBriefLines(fence)
    ensures forall i :: 0 <= i < |fence| ==> !IsDashes(fence[i])
  {
    forall i | 0 <= i < |fence|
      ensures !IsDashes(fence[i])
    {
      if IsDashes(fence[i]) {
        StripIsASlice(fence[i]);
      }
    }
  }

  lemma StripIsASlice(l: string)
    ensures exists i: nat :: i <= |l| && OccursAt(l, Strip(l), i)
  {
    LStripStarts(l);
    RStripEnds(LStrip(l));
    var i := |l| - |LStrip(l)|;
    assert l[i..i + |Strip(l)|] == LStrip(l)[..|Strip(l)|];
    assert OccursAt(l, Strip(l), i);
  }

  /** The editor finds the same fence the reader does. */
  lemma EditorSplits(fence: seq<string>, tail: string)
    requires AreBriefLines(fence) && IsTail(tail)
    ensures SplitFence(SplitLines(BriefText(fence, tail))) == Parts(fence, TailLines(tail))
  {
    BriefLines(fence, tail);
    NoDashesNoClose(fence);
    FenceIsFound(fence, TailLines(tail));
  }

  lemma BriefLines(fence: seq<string>, tail: string)
    requires AreLines(fence) && IsTail(tail)
    ensures SplitLines(BriefText(fence, tail)) == [DASHES] + fence + [DASHES] + TailLines(tail)
  {
    DashesAreDashes();
    ClosingLine(tail);
    OpenedLines(DASHES, fence, DASHES + tail);
    Regroup([DASHES], fence, [DASHES] + TailLines(tail));
    Regroup([DASHES] + fence, [DASHES], TailLines(tail));
  }

  lemma OpenedLines(first: string, ls: seq<string>, rest: string)
    requires IsLine(first) && AreLines(ls)
    ensures SplitLines(first + ("\n" + (Unlines(ls) + rest))) == [first] + (ls + SplitLines(rest))
  {
    var below := Unlines(ls) + rest;
    assert first + ("\n" + below) == first + "\n" + below;
    SplitLinesCons(first, below);
    SplitLinesAfter(ls, rest);
  }

  lemma ClosingLine(tail: string)
    requires IsTail(tail)
    ensures SplitLines(DASHES + tail) == [DASHES] + TailLines(tail)
  {
    DashesAreDashes();
    if tail == "" {
      LineEndOf(DASHES, "");
      assert DASHES + "" == DASHES;
    } else {
      assert DASHES + tail == DASHES + "\n" + tail[1..];
      SplitLinesCons(DASHES, tail[1..]);
    }
  }

  /** Changes whose keys and values also leave the reader's dashes alone. */
  predicate AreReadable(changes: seq<Change>) {
    AreSettable(changes)
    && forall i :: 0 <= i < |changes| && changes[i].value.Some? ==>
      !HasDashes(EntryLine(changes[i].key, changes[i].value.value))
  }

  lemma {:induction false} ChangedFenceIsReadable(fence: seq<string>, changes: seq<Change>)
    requires AreReadable(changes) && AreBriefLines(fence)
    ensures AreBriefLines(ApplyChanges(fence, changes))
  {
    if fence == [] {
      NewLinesAreReadable(changes);
    } else {
      var l := fence[0];
      LeftIsSettable(changes, l);
      forall i | 0 <= i < |Left(changes, l)| && Left(changes, l)[i].value.Some?
        ensures !HasDashes(EntryLine(Left(changes, l)[i].key, Left(changes, l)[i].value.value))
      {
        assert Left(changes, l)[i] in changes;
      }
      ChangedFenceIsReadable(fence[1..], Left(changes, l));
      if IsSet(changes, l) {
        var v := ChangeOf(changes, LineKey(l).value);
        ChangeIsMember(changes, LineKey(l).value);
        if v.Some? {
          EntryLineCarriesItsKey(LineKey(l).value, v.value);
        }
      }
    }
  }

  lemma {:induction false} NewLinesAreReadable(changes: seq<Change>)
    requires AreReadable(changes)
    ensures AreBriefLines(NewLines(changes))
  {
    if changes == [] {
    } else {
      NewLinesAreReadable(changes[1..]);
      var all, rest := NewLines(changes), NewLines(changes[1..]);
      assert changes[0] in changes;
      if changes[0].value.Some? {
        EntryLineCarriesItsKey(changes[0].key, changes[0].value.value);
        assert all[0] == EntryLine(changes[0].key, changes[0].value.value) && all[1..] == rest;
      } else {
        assert all == rest;
      }
    }
  }

  /** An edited brief is a brief again, with the changed fence and the prose
      below one blank line. */
  lemma EditedIsABrief(fence: seq<string>, tail: string, changes: seq<Change>)
    requires AreBriefLines(fence) && IsTail(tail) && AreReadable(changes) && ApplyChanges(fence, changes) != []
    ensures var below := DropTrailingEmpty([""] + StripLeadingBlanks(TailLines(tail)));
            && AreBriefLines(ApplyChanges(fence, changes))
            && SetFrontmatter(BriefText(fence, tail), changes)
              == BriefText(ApplyChanges(fence, changes), "\n" + Unlines(below))
  {
    var out := ApplyChanges(fence, changes);
    var below := DropTrailingEmpty([""] + StripLeadingBlanks(TailLines(tail)));
    EditorSplits(fence, tail);
    ChangedFenceIsReadable(fence, changes);
    NoDashesNoClose(out);
    WrittenBrief(out, TailLines(tail));
    BriefUnlines(out, below);
  }

  lemma BriefUnlines(fence: seq<string>, below: seq<string>)
    ensures Unlines([DASHES] + fence + [DASHES] + below) == BriefText(fence, "\n" + Unlines(below))
  {
    var rest := [DASHES] + below;
    assert [DASHES] + fence + [DASHES] + below == [DASHES] + (fence + rest);
    assert ([DASHES] + (fence + rest))[1..] == fence + rest && rest[1..] == below;
    UnlinesAppend(fence, rest);
    assert Unlines(rest) == DASHES + ("\n" + Unlines(below));
  }

  // ----- The lens laws ------------------------------------------------------

  function Lookup(meta: map<string, Value>, key: string): Option<Value> {
    if key in meta then Some(meta[key]) else None
  }

  lemma MetaAppendOne(l: string, rest: seq<string>, key: string)
    ensures Lookup(MetaOf([l] + rest), key) ==
            if Lookup(MetaOf(rest), key).Some? then Lookup(MetaOf(rest), key)
            else if LineKey(l) == Some(key) then Some(ParseScalar(After(l, ':')))
            else None
  {
    assert ([l] + rest)[1..] == rest;
  }

  lemma {:induction false} KeysAreCarried(lines: seq<string>, key: string)
    ensures key in MetaOf(lines) <==> Carriers(lines, key) > 0
  {
    if lines == [] {
    } else {
      KeysAreCarried(lines[1..], key);
    }
  }

  lemma PaddingIsStripped(v: string)
    ensures ParseScalar(" " + v) == ParseScalar(v)
  {
    assert (" " + v)[1..] == v;
  }

  /** Editing, seen through the reader, key by key and for every fence: a key
      no change mentions reads as before. A changed key reads as its new value
      (or not at all when removed) if at most one line carried it; if several
      did, only the first was edited and the reader still sees the last. */
  lemma {:induction false} EditReadsBack(fence: seq<string>, changes: seq<Change>, key: string)
    requires AreSettable(changes)
    ensures Lookup(MetaOf(ApplyChanges(fence, changes)), key) ==
            if !HasChange(changes, key) || Carriers(fence, key) > 1 then Lookup(MetaOf(fence), key)
            else if ChangeOf(changes, key).Some? then Some(ParseScalar(Render(ChangeOf(changes, key).value)))
            else None
  {
    if fence == [] {
      NewLinesReadBack(changes, key);
    } else {
      var l, rest := fence[0], fence[1..];
      var left := Left(changes, l);
      var out := ApplyChanges(rest, left);
      LeftIsSettable(changes, l);
      EditReadsBack(rest, left, key);
      KeysAreCarried(rest, key);
      MetaAppendOne(l, rest, key);
      assert [l] + rest == fence;
      if !IsSet(changes, l) {
        MetaAppendOne(l, out, key);
      } else {
        var k := LineKey(l).value;
        ChangeIsMember(changes, k);
        WithoutProperties(changes, k);
        if k != key {
          WithoutOther(changes, k, key);
        }
        if ChangeOf(changes, k).Some? {
          var v := ChangeOf(changes, k).value;
          EntryLineCarriesItsKey(k, v);
          PaddingIsStripped(Render(v));
          MetaAppendOne(EntryLine(k, v), out, key);
        } else {
          assert [] + out == out;
        }
      }
    }
  }

  lemma {:induction false} NewLinesReadBack(changes: seq<Change>, key: string)
    requires AreSettable(changes)
    ensures Lookup(MetaOf(NewLines(changes)), key) ==
            if HasChange(changes, key) && ChangeOf(changes, key).Some? then
              Some(ParseScalar(Render(ChangeOf(changes, key).value)))
            else None
  {
    if changes == [] {
    } else {
      var c, rest := changes[0], changes[1..];
      NewLinesReadBack(rest, key);
      assert HasChange(changes, key) <==> c.key == key || HasChange(rest, key) by {
        if i :| 0 <= i < |changes| && changes[i].key == key {
          assert i > 0 ==> rest[i - 1].key == key;
        }
        if i :| 0 <= i < |rest| && rest[i].key == key {
          assert changes[i + 1].key == key;
        }
      }
      if c.value.Some? {
        EntryLineCarriesItsKey(c.key, c.value.value);
        PaddingIsStripped(Render(c.value.value));
        MetaAppendOne(EntryLine(c.key, c.value.value), NewLines(rest), key);
      } else {
        assert [] + NewLines(rest) == NewLines(rest);
      }
    }
  }

  /** A value that reads back as itself. */
  predicate IsCanonical(v: Value) {
    match v
    case Bool(_) => true
    case Int(i) => i >= 0
    case Text(s) => IsStripped(s) && LowerText(s) != "true" && LowerText(s) != "false" && !AllDigits(s)
  }

  /** Writing a scalar and reading it returns the same value exactly for the
      canonical ones. */
  lemma ScalarRoundTripsExactly(v: Value)
    ensures ParseScalar(Render(v)) == v <==> IsCanonical(v)
  {
    match v
    case Bool(b) =>
      StripFixpoint(Render(v));
    case Int(i) =>
      StripFixpoint(Render(v));
      if i >= 0 {
        DigitsRoundTrip(i);
        assert LowerText(Digits(i))[0] == Digits(i)[0];
      } else {
        assert Render(v)[0] == '-';
        StripFixpoint(IntText(i));
      }
    case Text(s) =>
      StripFixpoint(s);
  }

  /** The prose of a body: its lines without leading blank ones and without
      the empty ones at the end. */
  function Prose(body: string): seq<string> {
    Trimmed(SplitLines(body))
  }

  lemma {:induction false} LeadingNewlinesAreBlank(s: string)
    ensures StripLeadingBlanks(SplitLines(LStripNewlines(s))) == StripLeadingBlanks(SplitLines(s))
  {
    if s == "" || s[0] != '\n' {
    } else {
      assert s == "" + "\n" + s[1..];
      SplitLinesCons("", s[1..]);
      assert ([""] + SplitLines(s[1..]))[1..] == SplitLines(s[1..]) && IsBlank("");
      LeadingNewlinesAreBlank(s[1..]);
    }
  }

  lemma BodySurvives(tail: string)
    requires IsTail(tail)
    ensures var below := DropTrailingEmpty([""] + StripLeadingBlanks(TailLines(tail)));
            Prose(LStripNewlines("\n" + Unlines(below))) == Prose(LStripNewlines(tail))
  {
    var prose := StripLeadingBlanks(TailLines(tail));
    var below := DropTrailingEmpty([""] + prose);
    TailProse(tail);
    BlanksAreASuffix(TailLines(tail));
    NormalBelow(prose);
    DropTrailingEmptyIdempotent([""] + prose);
    DropTrailingEmptyIdempotent(prose);
    TailProse("\n" + Unlines(below));
    assert ("\n" + Unlines(below))[1..] == Unlines(below);
    SplitLinesUnlines(below);
  }

  lemma TailProse(tail: string)
    requires IsTail(tail)
    ensures Prose(LStripNewlines(tail)) == DropTrailingEmpty(StripLeadingBlanks(TailLines(tail)))
  {
    LeadingNewlinesAreBlank(tail);
    if tail != "" {
      assert tail == "" + "\n" + tail[1..];
      SplitLinesCons("", tail[1..]);
      assert ([""] + SplitLines(tail[1..]))[1..] == SplitLines(tail[1..]) && IsBlank("");
    }
  }

  lemma EditedBriefReadsBack(fence: seq<string>, tail: string, changes: seq<Change>, key: string)
    requires AreBriefLines(fence) && IsTail(tail) && AreReadable(changes) && ApplyChanges(fence, changes) != []
    ensures var was, now := ReadBrief(BriefText(fence, tail)),
            ReadBrief(SetFrontmatter(BriefText(fence, tail), changes));
            && Lookup(now.meta, key) ==
               (if !HasChange(changes, key) || Carriers(fence, key) > 1 then Lookup(was.meta, key)
                else if ChangeOf(changes, key).Some? then Some(ParseScalar(Render(ChangeOf(changes, key).value)))
                else None)
            && Prose(now.body) == Prose(was.body)
  {
    var below := DropTrailingEmpty([""] + StripLeadingBlanks(TailLines(tail)));
    ReadsFenceAndTail(fence, tail);
    EditedIsABrief(fence, tail, changes);
    ReadsFenceAndTail(ApplyChanges(fence, changes), "\n" + Unlines(below));
    EditReadsBack(fence, changes, key);
    BodySurvives(tail);
  }

  // ----- Blanks after the dashes --------------------------------------------

  /** Blanks that may follow the dashes on the lines around the fence. */
  predicate IsPad(pad: string) {
    IsLine(pad) && forall i :: 0 <= i < |pad| ==> IsSpace(pad[i])
  }

  function PaddedText(open: string, fence: seq<string>, close: string, tail: string): string {
    DASHES + (Unlines([open] + fence) + (DASHES + (close + tail)))
  }

  /** The text is a brief with this fence, and with this below it. */
  ghost predicate IsBrief(text: string, fence: seq<string>, tail: string) {
    && AreBriefLines(fence) && IsTail(tail)
    && exists open, close :: IsPad(open) && IsPad(close) && text == PaddedText(open, fence, close, tail)
  }

  lemma BriefTextIsABrief(fence: seq<string>, tail: string)
    requires AreBriefLines(fence) && IsTail(tail)
    ensures IsBrief(BriefText(fence, tail), fence, tail)
  {
    assert Unlines([""] + fence) == "" + "\n" + Unlines(fence) by { assert ([""] + fence)[1..] == fence; }
    assert "" + "\n" + Unlines(fence) + (DASHES + ("" + tail)) == "\n" + (Unlines(fence) + (DASHES + tail));
    assert IsPad("") && BriefText(fence, tail) == PaddedText("", fence, "", tail);
  }

  lemma DashesAreHyphens(s: string)
    ensures HasDashes(s) ==> '-' in s
  {
    if i: nat :| i <= |s| && OccursAt(s, DASHES, i) {
      assert s[i..i + 3][0] == s[i];
    }
  }

  lemma PadsHaveNoDashes(pad: string)
    requires IsPad(pad)
    ensures !HasDashes(pad) && LineKey(pad).None? && IsBlank(pad) && IsDashes(DASHES + pad) && IsLine(DASHES + pad)
  {
    assert '-' !in pad;
    DashesAreHyphens(pad);
    BlanksAreStripped("", pad);
    BlanksAreStripped(DASHES, pad);
  }

  lemma BlanksAreStripped(s: string, pad: string)
    requires IsStripped(s) && IsPad(pad)
    ensures Strip(s + pad) == s
    ensures s == "" ==> Strip(pad) == ""
  {
    StripPadded("", s, pad);
    assert "" + s + pad == s + pad;
    assert s == "" ==> s + pad == pad;
  }

  lemma ReadsLines(lines: seq<string>, below: string)
    requires AreBriefLines(lines)
    ensures ReadBrief(DASHES + (Unlines(lines) + (DASHES + below))) == Brief(MetaOf(lines), LStripNewlines(below))
  {
    DashesAfterLines(lines, below);
    PaddedParts(Unlines(lines), below);
    SplitLinesUnlines(lines);
  }

  lemma UnkeyedLineAddsNothing(l: string, fence: seq<string>)
    requires LineKey(l).None?
    ensures MetaOf([l] + fence) == MetaOf(fence)
  {
    assert ([l] + fence)[1..] == fence;
  }

  lemma ReadsPadded(open: string, fence: seq<string>, close: string, tail: string)
    requires AreBriefLines(fence) && IsPad(open)
    ensures ReadBrief(PaddedText(open, fence, close, tail)) == Brief(MetaOf(fence), LStripNewlines(close + tail))
  {
    PadsHaveNoDashes(open);
    ReadsLines([open] + fence, close + tail);
    UnkeyedLineAddsNothing(open, fence);
  }

  lemma PaddedParts(inside: string, below: string)
    ensures var text := DASHES + (inside + (DASHES + below));
            && DASHES <= text && text[3..] == inside + (DASHES + below)
            && text[3..3 + |inside|] == inside && text[6 + |inside|..] == below
  {
    var rest := inside + (DASHES + below);
    var text := DASHES + rest;
    assert text[3..] == rest && rest[..|inside|] == inside && rest[|inside| + 3..] == below;
    assert text[3..3 + |inside|] == rest[..|inside|] && text[6 + |inside|..] == rest[3 + |inside|..];
  }

  /** A line and what follows it. */
  lemma LineAndTail(l: string, tail: string)
    requires IsLine(l) && IsTail(tail) && (l + tail != "")
    ensures SplitLines(l + tail) == [l] + TailLines(tail)
  {
    if tail == "" {
      LineEndOf(l, "");
      assert l + "" == l;
    } else {
      assert l + tail == l + "\n" + tail[1..];
      SplitLinesCons(l, tail[1..]);
    }
  }

  lemma PaddedProse(close: string, tail: string)
    requires IsPad(close) && IsTail(tail)
    ensures Prose(LStripNewlines(close + tail)) == Prose(LStripNewlines(tail))
  {
    if close == "" {
      assert close + tail == tail;
    } else {
      PadsHaveNoDashes(close);
      LineAndTail(close, tail);
      assert LStripNewlines(close + tail) == close + tail by { assert !IsBreak((close + tail)[0]); }
      assert ([close] + TailLines(tail))[1..] == TailLines(tail);
      TailProse(tail);
    }
  }

  lemma FenceIsFoundBetween(first: string, fence: seq<string>, last: string, below: seq<string>)
    requires IsDashes(first) && IsDashes(last) && forall i :: 0 <= i < |fence| ==> !IsDashes(fence[i])
    ensures SplitFence([first] + (fence + ([last] + below))) == Parts(fence, below)
  {
    var lines := [first] + (fence + ([last] + below));
    assert lines[|fence| + 1] == last && forall k :: 1 <= k <= |fence| ==> lines[k] == fence[k - 1];
    var c := CloseIndex(lines, 1);
    assert c == |fence| + 1;
    assert lines[1..c] == fence && lines[c + 1..] == below;
  }

  lemma EditorSplitsPadded(open: string, fence: seq<string>, close: string, tail: string)
    requires AreBriefLines(fence) && IsTail(tail) && IsPad(open) && IsPad(close)
    ensures SplitFence(SplitLines(PaddedText(open, fence, close, tail))) == Parts(fence, TailLines(tail))
  {
    PadsHaveNoDashes(open);
    PadsHaveNoDashes(close);
    PaddedLines(open, fence, close, tail);
    NoDashesNoClose(fence);
    FenceIsFoundBetween(DASHES + open, fence, DASHES + close, TailLines(tail));
  }

  lemma PaddedLines(open: string, fence: seq<string>, close: string, tail: string)
    requires AreLines(fence) && IsTail(tail) && IsLine(DASHES + open) && IsLine(DASHES + close)
    ensures SplitLines(PaddedText(open, fence, close, tail))
            == [DASHES + open] + (fence + ([DASHES + close] + TailLines(tail)))
  {
    var last := (DASHES + close) + tail;
    assert Unlines([open] + fence) == open + "\n" + Unlines(fence) by { assert ([open] + fence)[1..] == fence; }
    assert DASHES + (close + tail) == last;
    assert PaddedText(open, fence, close, tail) == (DASHES + open) + ("\n" + (Unlines(fence) + last));
    LineAndTail(DASHES + close, tail);
    OpenedLines(DASHES + open, fence, last);
  }

  /** Neither the reader nor the editor sees the blanks. */
  lemma PaddingDoesNotShow(text: string, fence: seq<string>, tail: string)
    requires IsBrief(text, fence, tail)
    ensures var plain := BriefText(fence, tail);
            && ReadBrief(text).meta == ReadBrief(plain).meta
            && Prose(ReadBrief(text).body) == Prose(ReadBrief(plain).body)
            && forall changes :: SetFrontmatter(text, changes) == SetFrontmatter(plain, changes)
  {
    var open, close :| IsPad(open) && IsPad(close) && text == PaddedText(open, fence, close, tail);
    ReadsPadded(open, fence, close, tail);
    ReadsFenceAndTail(fence, tail);
    PaddedProse(close, tail);
    EditorSplitsPadded(open, fence, close, tail);
    EditorSplits(fence, tail);
  }

  // ----- Removing the last key ----------------------------------------------

  function ProseText(prose: seq<string>): string {
    if prose == [] then "\n" else Unlines(prose)
  }

  predicate CarryNothing(lines: seq<string>) {
    forall i :: 0 <= i < |lines| ==> LineKey(lines[i]).None?
  }

  lemma {:induction false} NoKeysExactly(lines: seq<string>)
    ensures MetaOf(lines) == map[] <==> CarryNothing(lines)
  {
    if lines == [] {
    } else {
      NoKeysExactly(lines[1..]);
      assert CarryNothing(lines) <==> LineKey(lines[0]).None? && CarryNothing(lines[1..]);
      if LineKey(lines[0]).Some? {
        assert LineKey(lines[0]).value in MetaOf(lines);
      }
    }
  }

  lemma TrimmedStays(body: seq<string>)
    ensures Trimmed(Trimmed(body)) == Trimmed(body)
  {
    var prose := StripLeadingBlanks(body);
    BlanksAreASuffix(body);
    DropTrailingEmptyIdempotent(prose);
    if prose != [] {
      assert prose[0] != "" by { assert IsBlank(""); }
      KeepsFirst(prose);
    }
  }

  lemma ProseReadsBack(lines: seq<string>)
    requires AreLines(lines)
    ensures var prose := ProseText(Trimmed(lines));
            && (ReadBrief(prose).meta == map[] <==> !OpensForReader(prose) || CarryNothing(ReaderLines(prose)))
            && (!OpensForReader(prose) ==> Prose(ReadBrief(prose).body) == Trimmed(lines))
  {
    var prose := ProseText(Trimmed(lines));
    BareProse(lines);
    TrimmedStays(lines);
    if OpensForReader(prose) {
      NoKeysExactly(ReaderLines(prose));
    } else if Trimmed(lines) == [] {
      assert Trimmed([""]) == [];
    }
  }

  lemma EmptiedBriefReadsBack(fence: seq<string>, tail: string, changes: seq<Change>)
    requires AreBriefLines(fence) && IsTail(tail) && IsDict(changes) && ApplyChanges(fence, changes) == []
    ensures var was, now := ReadBrief(BriefText(fence, tail)), SetFrontmatter(BriefText(fence, tail), changes);
            var prose := ProseText(Prose(was.body));
            && now == prose
            && (ReadBrief(now).meta == map[] <==> !OpensForReader(prose) || CarryNothing(ReaderLines(prose)))
            && (!OpensForReader(prose) ==> Prose(ReadBrief(now).body) == Prose(was.body))
  {
    var lines := TailLines(tail);
    ReadsFenceAndTail(fence, tail);
    EditorSplits(fence, tail);
    TailProse(tail);
    BareProse(lines);
    ProseReadsBack(lines);
  }

  /** An edit that takes the last line of the fence leaves the prose alone in
      the file. The reader then sees no key exactly when the prose opens no
      fence for it, or one without keys; and where it opens none, the prose is
      read unchanged. */
  lemma RemovingTheLastKey(text: string, fence: seq<string>, tail: string, changes: seq<Change>)
    requires IsBrief(text, fence, tail) && IsDict(changes) && ApplyChanges(fence, changes) == []
    ensures var was, now := ReadBrief(text), SetFrontmatter(text, changes);
            var prose := ProseText(Prose(was.body));
            && now == prose
            && (ReadBrief(now).meta == map[] <==> !OpensForReader(prose) || CarryNothing(ReaderLines(prose)))
            && (!OpensForReader(prose) ==> Prose(ReadBrief(now).body) == Prose(was.body))
  {
    PaddingDoesNotShow(text, fence, tail);
    EmptiedBriefReadsBack(fence, tail, changes);
  }

  /** The frontmatter lens. Setting `changes` on a brief and reading it back:
      every key reads as EditReadsBack says, and the prose is unchanged; or,
      where nothing is left of the fence, the prose is the file, and reads
      unchanged and without keys unless it opens a fence of its own. */
  lemma FrontmatterIsALens(text: string, fence: seq<string>, tail: string, changes: seq<Change>, key: string)
    requires IsBrief(text, fence, tail) && AreReadable(changes)
    ensures var was, now := ReadBrief(text), ReadBrief(SetFrontmatter(text, changes));
            if ApplyChanges(fence, changes) != [] then
              && Lookup(now.meta, key) ==
                 (if !HasChange(changes, key) || Carriers(fence, key) > 1 then Lookup(was.meta, key)
                  else if ChangeOf(changes, key).Some? then Some(ParseScalar(Render(ChangeOf(changes, key).value)))
                  else None)
              && Prose(now.body) == Prose(was.body)
            else
              && SetFrontmatter(text, changes) == ProseText(Prose(was.body))
              && (!OpensForReader(ProseText(Prose(was.body))) ==>
                    Lookup(now.meta, key).None? && Prose(now.body) == Prose(was.body))
  {
    PaddingDoesNotShow(text, fence, tail);
    if ApplyChanges(fence, changes) != [] {
      EditedBriefReadsBack(fence, tail, changes, key);
    } else {
      RemovingTheLastKey(text, fence, tail, changes);
    }
  }

  lemma DisableIsReadable()
    ensures AreReadable(DISABLE)
  {
    DisableIsSettable();
    var line := EntryLine("disabled", Bool(true));
    assert line == "disabled: true";
    DashesAreHyphens(line);
  }

  /** A brief that is held reads as disabled, with every other key and the prose
      as they were. */
  lemma HeldBriefsReadDisabled(text: string, fence: seq<string>, tail: string, key: string)
    requires IsBrief(text, fence, tail) && Carriers(fence, "disabled") <= 1
    ensures var was, now := ReadBrief(text), ReadBrief(SetFrontmatter(text, DISABLE));
            && Lookup(now.meta, key) == (if key == "disabled" then Some(Bool(true)) else Lookup(was.meta, key))
            && Prose(now.body) == Prose(was.body)
  {
    DisableIsSettable();
    DisableIsReadable();
    SomethingIsWritten(fence, DISABLE, 0);
    FrontmatterIsALens(text, fence, tail, DISABLE, key);
    ScalarRoundTripsExactly(Bool(true));
  }

  /** The body is what lies behind the closing dashes, from its first character
      that is no line break. */
  lemma BodyIsBelowTheBreaks(text: string)
    requires OpensForReader(text)
    ensures var body, behind := ReadBrief(text).body, text[6 + FindDashes(text[3..]).value..];
            (body == "" || body[0] != '\n') && exists breaks :: AreBreaks(breaks) && behind == breaks + body
  {
    LStripNewlinesTakesBreaks(text[6 + FindDashes(text[3..]).value..]);
  }

  predicate AreBreaks(s: string) {
    forall i :: 0 <= i < |s| ==> s[i] == '\n'
  }

  lemma {:induction false} LStripNewlinesTakesBreaks(s: string)
    ensures LStripNewlines(s) == "" || LStripNewlines(s)[0] != '\n'
    ensures exists breaks :: AreBreaks(breaks) && s == breaks + LStripNewlines(s)
  {
    if s == "" || s[0] != '\n' {
      assert AreBreaks("") && s == "" + s;
    } else {
      LStripNewlinesTakesBreaks(s[1..]);
      var breaks :| AreBreaks(breaks) && s[1..] == breaks + LStripNewlines(s[1..]);
      assert AreBreaks(['\n'] + breaks) && s == ['\n'] + breaks + LStripNewlines(s);
    }
  }
}
