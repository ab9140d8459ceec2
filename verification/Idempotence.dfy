/** Which edits of the frontmatter are idempotent on every text. The editor
    writes a value as it is given: one with a line break in it becomes several
    lines of the fence, and the next edit meets them as such.
*/
module Idempotence {
  import opened Prelude
  import opened PyText
  import opened Frontmatter

  /** A value without the carriage return at its end, which the line feed after
      it joins. */
  function Chopped(v: string): string {
    if v != "" && v[|v| - 1] == '\r' then v[..|v| - 1] else v
  }

  /** With the line feed after it, the value ends one line. */
  predicate FitsItsLine(v: string) {
    IsLine(Chopped(v))
  }

  predicate AreAllSet(changes: seq<Change>) {
    forall i :: 0 <= i < |changes| ==> changes[i].value.Some?
  }

  predicate Fits(c: Change) {
    c.value.Some? ==> FitsItsLine(Render(c.value.value))
  }

  predicate AllFit(changes: seq<Change>) {
    forall c :: c in changes ==> Fits(c)
  }

  // ----- Texts written and split again --------------------------------------

  /** How many characters the break in front of `b` takes. */
  function BreakLength(b: string): nat {
    if |b| >= 2 && b[0] == '\r' && b[1] == '\n' then 2 else 1
  }

  lemma CutPast(l: string, b: string, k: nat)
    requires k <= |b|
    ensures (l + b)[|l| + k..] == b[k..] && (l + b)[..|l|] == l
  {}

  lemma SplitAtBreak(l: string, b: string)
    requires IsLine(l) && b != "" && IsBreak(b[0])
    ensures SplitLines(l + b) == [l] + SplitLines(b[BreakLength(b)..])
  {
    LineEndOf(l, b);
    CutPast(l, b, BreakLength(b));
    assert (l + b)[|l|] == b[0] && (|b| >= 2 ==> (l + b)[|l| + 1] == b[1]);
    SplitStep(l + b, l, BreakLength(b), b[BreakLength(b)..]);
  }

  lemma {:induction false} LineEndStays(s: string, q: string)
    requires LineEnd(s) < |s|
    ensures LineEnd(s + q) == LineEnd(s)
  {
    if IsBreak(s[0]) {
    } else {
      assert (s + q)[1..] == s[1..] + q;
      LineEndStays(s[1..], q);
    }
  }

  /** What follows the line feed after `s` is split on its own. */
  lemma {:induction false} SplitGlued(s: string, q: string)
    requires q != "" && q[0] == '\n'
    ensures SplitLines(s + q) == SplitLines(s + "\n") + SplitLines(q[1..])
    decreases |s|, 1
  {
    var n := LineEnd(s);
    if n == |s| {
      assert s[..n] == s && s + "\n" + q[1..] == s + q && s + "\n" + "" == s + "\n";
      SplitLinesCons(s, q[1..]);
      SplitLinesCons(s, "");
    } else {
      LineEndStays(s, "\n");
      LineEndStays(s, q);
      SplitGluedBreak(s, q, if s[n] == '\r' && (n + 1 == |s| || s[n + 1] == '\n') then 2 else 1);
    }
  }

  lemma Glue<T>(a: seq<T>, b: seq<T>, c: seq<T>)
    ensures (a + b) + c == a + (b + c)
  {}

  lemma CutBefore(s: string, q: string, k: nat)
    requires k <= |s|
    ensures (s + q)[k..] == s[k..] + q && (s + q)[..k] == s[..k]
  {}

  lemma CutAfter(s: string, q: string)
    requires q != ""
    ensures (s + q)[|s| + 1..] == q[1..]
  {}

  lemma SameSkip(s: string, q: string, skip: nat)
    requires q != "" && q[0] == '\n' && LineEnd(s) < |s|
    requires LineEnd(s + q) == LineEnd(s) == LineEnd(s + "\n") && IsSkip(s + "\n", skip)
    ensures IsSkip(s + q, skip)
  {
    var n := LineEnd(s);
    assert (s + q)[n] == s[n] == (s + "\n")[n];
    if n + 1 < |s| {
      assert (s + q)[n + 1] == s[n + 1] == (s + "\n")[n + 1];
    }
  }

  lemma {:induction false} SplitGluedBreak(s: string, q: string, skip: nat)
    requires q != "" && q[0] == '\n' && LineEnd(s) < |s|
    requires LineEnd(s + q) == LineEnd(s) == LineEnd(s + "\n") && IsSkip(s + "\n", skip)
    ensures SplitLines(s + q) == SplitLines(s + "\n") + SplitLines(q[1..])
    decreases |s|, 0
  {
    var n := LineEnd(s);
    SameSkip(s, q, skip);
    if n + skip <= |s| {
      SplitInside(s, q, skip);
      SplitInside(s, "\n", skip);
      SplitGlued(s[n + skip..], q);
      Glue([s[..n]], SplitLines(s[n + skip..] + "\n"), SplitLines(q[1..]));
    } else {
      SplitAtEnd(s, q, skip);
      SplitAtEnd(s, "\n", skip);
    }
  }

  lemma SplitInside(s: string, q: string, skip: nat)
    requires LineEnd(s + q) == LineEnd(s) < |s| && IsSkip(s + q, skip) && LineEnd(s) + skip <= |s|
    ensures SplitLines(s + q) == [s[..LineEnd(s)]] + SplitLines(s[LineEnd(s) + skip..] + q)
  {
    CutBefore(s, q, LineEnd(s));
    CutBefore(s, q, LineEnd(s) + skip);
    SplitStep(s + q, s[..LineEnd(s)], skip, s[LineEnd(s) + skip..] + q);
  }

  lemma SplitAtEnd(s: string, q: string, skip: nat)
    requires q != "" && LineEnd(s + q) == LineEnd(s) < |s| && IsSkip(s + q, skip) && LineEnd(s) + skip > |s|
    ensures SplitLines(s + q) == [s[..LineEnd(s)]] + SplitLines(q[1..])
  {
    CutBefore(s, q, LineEnd(s));
    CutAfter(s, q);
    assert LineEnd(s) + skip == |s| + 1;
    SplitStep(s + q, s[..LineEnd(s)], skip, q[1..]);
  }

  /** The lines that texts become when each is written on a line. */
  function Flat(texts: seq<string>): seq<string> {
    if texts == [] then [] else SplitLines(texts[0] + "\n") + Flat(texts[1..])
  }

  lemma {:induction false} SplitUnlines(texts: seq<string>)
    ensures SplitLines(Unlines(texts)) == Flat(texts)
  {
    if texts == [] {
    } else {
      var q := "\n" + Unlines(texts[1..]);
      assert Unlines(texts) == texts[0] + q && q[1..] == Unlines(texts[1..]);
      SplitGlued(texts[0], q);
      SplitUnlines(texts[1..]);
    }
  }

  lemma {:induction false} FlatAppend(a: seq<string>, b: seq<string>)
    ensures Flat(a + b) == Flat(a) + Flat(b)
  {
    if a == [] {
      assert a + b == b;
    } else {
      assert (a + b)[1..] == a[1..] + b;
      FlatAppend(a[1..], b);
    }
  }

  lemma FlatLines(ls: seq<string>)
    requires AreLines(ls)
    ensures Flat(ls) == ls
  {
    SplitUnlines(ls);
    SplitLinesUnlines(ls);
  }

  /** A text fits exactly when it becomes one line. */
  lemma OneLineExactly(s: string)
    ensures |SplitLines(s + "\n")| >= 1
    ensures FitsItsLine(s) <==> |SplitLines(s + "\n")| == 1
    ensures FitsItsLine(s) ==> SplitLines(s + "\n") == [Chopped(s)]
  {
    var n := LineEnd(s);
    if n == |s| {
      assert s[..n] == s && s + "\n" + "" == s + "\n";
      SplitLinesCons(s, "");
    } else {
      assert s + "\n" == s[..n] + (s[n..] + "\n");
      SplitAtBreak(s[..n], s[n..] + "\n");
      BrokenOrChopped(s, n);
    }
  }

  lemma BrokenOrChopped(s: string, n: nat)
    requires n < |s| && IsLine(s[..n]) && IsBreak(s[n])
    ensures var rest := (s[n..] + "\n")[BreakLength(s[n..] + "\n")..];
            if s[n..] == "\r" then Chopped(s) == s[..n] && rest == "" else rest != "" && !FitsItsLine(s)
  {
    if s[n..] != "\r" {
      assert s[|s| - 1] == s[n..][|s| - n - 1];
      assert Chopped(s)[n] == s[n];
    }
  }

  lemma ChoppedEntry(key: string, v: Value)
    requires IsKey(key)
    ensures FitsItsLine(EntryLine(key, v)) <==> FitsItsLine(Render(v))
    ensures Chopped(EntryLine(key, v)) == EntryLine(key, Text(Chopped(Render(v))))
  {
    var l, r := EntryLine(key, v), Render(v);
    assert r != "" ==> l[|l| - 1] == r[|r| - 1];
    assert Chopped(l) == (key + ": ") + Chopped(r);
    LineInTwo(key + ": ", Chopped(r));
  }

  lemma LineInTwo(x: string, y: string)
    requires IsLine(x)
    ensures IsLine(x + y) <==> IsLine(y)
  {
    assert forall i :: 0 <= i < |y| ==> (x + y)[|x| + i] == y[i];
  }

  // ----- What the editor writes ---------------------------------------------

  function Below(body: seq<string>): seq<string> {
    DropTrailingEmpty([""] + StripLeadingBlanks(body))
  }

  lemma {:induction false} JoinTail(a: seq<string>, b: seq<string>)
    requires b != []
    ensures Join("\n", a + b) == Unlines(a) + Join("\n", b)
  {
    if a == [] {
      assert a + b == b;
    } else {
      assert (a + b)[1..] == a[1..] + b;
      JoinTail(a[1..], b);
    }
  }

  lemma {:induction false} RStripTail(x: string, y: string)
    requires RStripNewlines(y) != ""
    ensures RStripNewlines(x + y) == x + RStripNewlines(y)
  {
    if y == "" || y[|y| - 1] != '\n' {
    } else {
      assert (x + y)[..|x + y| - 1] == x + y[..|y| - 1];
      RStripTail(x, y[..|y| - 1]);
    }
  }

  lemma WrittenTail(body: seq<string>)
    requires AreLines(body)
    ensures AreLines(Below(body))
    ensures var tail := [DASHES] + ([""] + StripLeadingBlanks(body));
            && RStripNewlines(Join("\n", tail)) + "\n" == Unlines([DASHES] + Below(body))
            && RStripNewlines(Join("\n", tail)) != ""
  {
    BlanksAreASuffix(body);
    DropTrailingEmptyIdempotent([""] + StripLeadingBlanks(body));
    DashesAreDashes();
    FinishedTail(DASHES, [""] + StripLeadingBlanks(body));
    assert Unlines([DASHES] + Below(body))[0] == '-';
  }

  lemma FinishedTail(dashes: string, ls: seq<string>)
    requires IsLine(dashes) && dashes != "" && AreLines(ls)
    ensures RStripNewlines(Join("\n", [dashes] + ls)) + "\n" == Unlines([dashes] + DropTrailingEmpty(ls))
  {
    FinishedText([dashes] + ls);
    DropTrailingEmptyAfter([dashes], ls);
  }

  lemma WrittenText(fence: seq<string>, body: seq<string>)
    requires fence != [] && AreLines(body)
    ensures JoinFence(fence, body) == Unlines(([DASHES] + fence) + ([DASHES] + Below(body)))
  {
    var head, tail := [DASHES] + fence, [DASHES] + ([""] + StripLeadingBlanks(body));
    var x, y := Unlines(head), Join("\n", tail);
    WrittenTail(body);
    assert [DASHES] + fence + [DASHES, ""] + StripLeadingBlanks(body) == head + tail;
    JoinTail(head, tail);
    RStripTail(x, y);
    UnlinesAppend(head, [DASHES] + Below(body));
    calc {
      JoinFence(fence, body);
      RStripNewlines(x + y) + "\n";
      (x + RStripNewlines(y)) + "\n";
      { Glue(x, RStripNewlines(y), "\n"); }
      x + (RStripNewlines(y) + "\n");
      x + Unlines([DASHES] + Below(body));
    }
  }

  /** The text of any fence, its entries broken or not, and its lines. */
  lemma WrittenWithAny(fence: seq<string>, body: seq<string>)
    requires fence != [] && AreLines(body)
    ensures AreLines(Below(body))
    ensures JoinFence(fence, body) == Unlines(([DASHES] + fence) + ([DASHES] + Below(body)))
    ensures SplitLines(JoinFence(fence, body)) == ([DASHES] + Flat(fence)) + ([DASHES] + Below(body))
  {
    WrittenTail(body);
    WrittenText(fence, body);
    DashesAreDashes();
    SplitUnlines(([DASHES] + fence) + ([DASHES] + Below(body)));
    FlatOfHead(fence, [DASHES] + Below(body));
  }

  lemma FlatOfHead(fence: seq<string>, below: seq<string>)
    requires AreLines(below)
    ensures Flat(([DASHES] + fence) + below) == ([DASHES] + Flat(fence)) + below
  {
    DashesAreDashes();
    FlatAppend([DASHES] + fence, below);
    FlatAppend([DASHES], fence);
    FlatLines([DASHES]);
    FlatLines(below);
  }

  // ----- Values that fit ----------------------------------------------------

  /** Two dicts that set the same keys, in the same order. */
  predicate SetTheSame(a: seq<Change>, b: seq<Change>) {
    && |a| == |b| && AreAllSet(a) && AreAllSet(b)
    && forall i :: 0 <= i < |a| ==> a[i].key == b[i].key
  }

  lemma {:induction false} SetTheSameKeys(a: seq<Change>, b: seq<Change>, key: string)
    requires SetTheSame(a, b)
    ensures HasChange(a, key) <==> HasChange(b, key)
    ensures HasChange(a, key) ==> ChangeOf(a, key).Some? && ChangeOf(b, key).Some?
    ensures SetTheSame(Without(a, key), Without(b, key))
  {
    if a == [] {
    } else {
      SetTheSameKeys(a[1..], b[1..], key);
      assert HasChange(a, key) ==> a[0].key == key || HasChange(a[1..], key);
      assert HasChange(b, key) ==> b[0].key == key || HasChange(b[1..], key);
      if i :| 0 <= i < |a| && a[i].key == key {
        assert b[i].key == key;
      }
      if i :| 0 <= i < |b| && b[i].key == key {
        assert a[i].key == key;
      }
    }
  }

  /** Setting the keys again to other values is setting them to those at once. */
  lemma {:induction false} SetAgain(fence: seq<string>, a: seq<Change>, b: seq<Change>)
    requires IsDict(a) && IsDict(b) && SetTheSame(a, b)
    ensures ApplyChanges(ApplyChanges(fence, a), b) == ApplyChanges(fence, b)
  {
    if fence == [] {
      NewLinesAgain(a, b);
    } else {
      var l := fence[0];
      var rest := ApplyChanges(fence[1..], Left(a, l));
      LeftIsSettable(a, l);
      LeftIsSettable(b, l);
      if IsSet(a, l) {
        var key := LineKey(l).value;
        SetTheSameKeys(a, b, key);
        var entry := EntryLine(key, ChangeOf(a, key).value);
        ChangeIsMember(a, key);
        EntryLineCarriesItsKey(key, ChangeOf(a, key).value);
        SetAgain(fence[1..], Left(a, l), Left(b, l));
        ApplyCons(entry, rest, b);
      } else {
        if LineKey(l).Some? {
          SetTheSameKeys(a, b, LineKey(l).value);
        }
        SetAgain(fence[1..], a, b);
        ApplyCons(l, rest, b);
      }
    }
  }

  lemma {:induction false} NewLinesAgain(a: seq<Change>, b: seq<Change>)
    requires IsDict(a) && IsDict(b) && SetTheSame(a, b)
    ensures ApplyChanges(NewLines(a), b) == NewLines(b)
  {
    if a == [] {
    } else {
      var key, entry := a[0].key, EntryLine(a[0].key, a[0].value.value);
      NewLinesAgain(a[1..], b[1..]);
      EntryLineCarriesItsKey(key, a[0].value.value);
      WithoutFirst(b);
      ApplyCons(entry, NewLines(a[1..]), b);
    }
  }

  function Fit(c: Change): Change {
    c.(value := if c.value.Some? then Some(Text(Chopped(Render(c.value.value)))) else None)
  }

  /** The changes with values that are lines. */
  function Fitted(changes: seq<Change>): seq<Change> {
    seq(|changes|, i requires 0 <= i < |changes| => Fit(changes[i]))
  }

  predicate AreFitted(a: seq<Change>, b: seq<Change>) {
    |a| == |b| && forall i :: 0 <= i < |a| ==> b[i] == Fit(a[i])
  }

  lemma FittedAreSettable(changes: seq<Change>)
    requires IsDict(changes) && AreAllSet(changes) && AllFit(changes)
    ensures var lines := Fitted(changes);
            AreFitted(changes, lines) && SetTheSame(changes, lines) && SetTheSame(lines, changes) && AreSettable(lines)
  {
    var lines := Fitted(changes);
    forall c | c in lines
      ensures IsSettable(c)
    {
      var i :| 0 <= i < |lines| && lines[i] == c;
      assert changes[i] in changes;
    }
  }

  lemma {:induction false} FittedKeys(a: seq<Change>, b: seq<Change>, key: string)
    requires AreFitted(a, b)
    ensures AreFitted(Without(a, key), Without(b, key))
    ensures HasChange(a, key) ==>
              HasChange(b, key) && Change(key, ChangeOf(b, key)) == Fit(Change(key, ChangeOf(a, key)))
  {
    if a == [] {
    } else {
      FittedKeys(a[1..], b[1..], key);
      if i :| 0 <= i < |a| && a[i].key == key {
        assert b[i].key == key;
        assert a[0].key != key ==> a[1..][i - 1].key == key;
      }
    }
  }

  lemma FittedEntry(key: string, v: Value)
    requires IsKey(key) && FitsItsLine(Render(v))
    ensures Flat([EntryLine(key, v)]) == [EntryLine(key, Text(Chopped(Render(v))))]
  {
    ChoppedEntry(key, v);
    OneLineExactly(EntryLine(key, v));
  }

  /** On its lines, a fence with such values is the fence with the lines. */
  lemma {:induction false} FlatApplied(fence: seq<string>, a: seq<Change>, b: seq<Change>)
    requires AreLines(fence) && IsDict(a) && IsDict(b) && AllFit(a)
    requires SetTheSame(a, b) && AreFitted(a, b)
    ensures Flat(ApplyChanges(fence, a)) == ApplyChanges(fence, b)
  {
    if fence == [] {
      FlatNewLines(a, b);
    } else {
      var l := fence[0];
      LeftIsSettable(a, l);
      LeftIsSettable(b, l);
      if LineKey(l).Some? {
        FittedKeys(a, b, LineKey(l).value);
        SetTheSameKeys(a, b, LineKey(l).value);
      }
      FlatApplied(fence[1..], Left(a, l), Left(b, l));
      FlatAppend(Rewritten(a, l), ApplyChanges(fence[1..], Left(a, l)));
      if IsSet(a, l) {
        ChangeIsMember(a, LineKey(l).value);
        FittedEntry(LineKey(l).value, ChangeOf(a, LineKey(l).value).value);
      } else {
        FlatLines([l]);
      }
    }
  }

  lemma {:induction false} FlatNewLines(a: seq<Change>, b: seq<Change>)
    requires IsDict(a) && AllFit(a) && SetTheSame(a, b) && AreFitted(a, b)
    ensures Flat(NewLines(a)) == NewLines(b)
  {
    if a == [] {
    } else {
      FlatNewLines(a[1..], b[1..]);
      assert a[0] in a;
      FittedEntry(a[0].key, a[0].value.value);
      assert NewLines(a)[0] == EntryLine(a[0].key, a[0].value.value) && NewLines(a)[1..] == NewLines(a[1..]);
      FlatAppend([EntryLine(a[0].key, a[0].value.value)], NewLines(a[1..]));
    }
  }

  /** Setting values that fit their lines is idempotent on every text. */
  lemma FittingIsIdempotent(text: string, changes: seq<Change>)
    requires IsDict(changes) && changes != [] && AreAllSet(changes) && AllFit(changes)
    ensures SetFrontmatter(SetFrontmatter(text, changes), changes) == SetFrontmatter(text, changes)
  {
    var parts, lines := SplitFence(SplitLines(text)), Fitted(changes);
    var out, flat := ApplyChanges(parts.fence, changes), ApplyChanges(parts.fence, lines);
    FenceOfLines(SplitLines(text));
    FittedAreSettable(changes);
    SomethingSet(parts.fence, changes);
    WrittenWithAny(out, parts.body);
    FlatApplied(parts.fence, changes, lines);
    ChangedFenceIsAFence(parts.fence, lines);
    assert ([DASHES] + flat) + ([DASHES] + Below(parts.body)) == [DASHES] + flat + [DASHES] + Below(parts.body);
    FenceIsFound(flat, Below(parts.body));
    SetAgain(parts.fence, lines, changes);
    BlanksAreASuffix(parts.body);
    NormalBelow(StripLeadingBlanks(parts.body));
    WrittenWithAny(out, Below(parts.body));
  }

  lemma SomethingSet(fence: seq<string>, changes: seq<Change>)
    requires IsDict(changes) && changes != [] && AreAllSet(changes)
    ensures ApplyChanges(fence, changes) != []
  {
    SomethingIsWritten(fence, changes, 0);
  }

  // ----- Values that do not -------------------------------------------------

  /** How many lines a fence takes in the text. */
  function Height(fence: seq<string>): nat {
    |Flat(fence)|
  }

  lemma {:induction false} EntriesAreHigh(changes: seq<Change>)
    requires IsDict(changes) && AreAllSet(changes)
    ensures Height(NewLines(changes)) >= |changes|
    ensures !AllFit(changes) ==> Height(NewLines(changes)) > |changes|
  {
    if changes == [] {
    } else {
      var c, rest := changes[0], changes[1..];
      var entry := EntryLine(c.key, c.value.value);
      EntriesAreHigh(rest);
      assert NewLines(changes)[0] == entry && NewLines(changes)[1..] == NewLines(rest);
      OneLineExactly(entry);
      ChoppedEntry(c.key, c.value.value);
      assert !AllFit(changes) ==> !Fits(c) || !AllFit(rest);
    }
  }

  /** Taking a key out of the changes takes its entry out of the new lines. */
  lemma {:induction false} HeightWithout(changes: seq<Change>, key: string)
    requires IsDict(changes) && AreAllSet(changes) && HasChange(changes, key)
    ensures ChangeOf(changes, key).Some? && |Without(changes, key)| == |changes| - 1
    ensures var entry := EntryLine(key, ChangeOf(changes, key).value);
            Height(NewLines(changes)) == |SplitLines(entry + "\n")| + Height(NewLines(Without(changes, key)))
  {
    var c, rest := changes[0], changes[1..];
    var entry := EntryLine(c.key, c.value.value);
    assert NewLines(changes)[0] == entry && NewLines(changes)[1..] == NewLines(rest);
    if c.key == key {
      WithoutFirst(changes);
    } else {
      var i :| 0 <= i < |changes| && changes[i].key == key;
      assert rest[i - 1].key == key;
      HeightWithout(rest, key);
      var w := Without(changes, key);
      assert w[0] == c && w[1..] == Without(rest, key);
      assert NewLines(w)[0] == entry && NewLines(w)[1..] == NewLines(w[1..]);
    }
  }

  function Least(a: nat, b: nat): nat {
    if a <= b then a else b
  }

  /** An edited fence holds all the entries, and every old line but one for
      each change. */
  lemma {:induction false} EditedIsHigh(fence: seq<string>, changes: seq<Change>)
    requires AreLines(fence) && IsDict(changes) && AreAllSet(changes)
    ensures Height(ApplyChanges(fence, changes))
            >= Height(NewLines(changes)) + |fence| - Least(|fence|, |changes|)
  {
    if fence == [] {
    } else {
      var l := fence[0];
      var left := Left(changes, l);
      LeftIsSettable(changes, l);
      FlatAppend(Rewritten(changes, l), ApplyChanges(fence[1..], left));
      assert forall i :: 0 <= i < |left| ==> left[i] in changes;
      EditedIsHigh(fence[1..], left);
      RewrittenIsHigh(l, changes);
    }
  }

  lemma HeightOfOne(entry: string)
    ensures Height([entry]) == |SplitLines(entry + "\n")|
  {
    var lines := SplitLines(entry + "\n");
    assert Flat([entry][1..]) == [] && lines + [] == lines;
  }

  lemma RewrittenIsHigh(l: string, changes: seq<Change>)
    requires IsLine(l) && IsDict(changes) && AreAllSet(changes)
    ensures !IsSet(changes, l) ==> Height(Rewritten(changes, l)) == 1
    ensures IsSet(changes, l) ==>
              && |Left(changes, l)| == |changes| - 1
              && Height(NewLines(changes)) == Height(Rewritten(changes, l)) + Height(NewLines(Left(changes, l)))
  {
    if IsSet(changes, l) {
      var key := LineKey(l).value;
      HeightWithout(changes, key);
      HeightOfOne(EntryLine(key, ChangeOf(changes, key).value));
    } else {
      FlatLines([l]);
    }
  }

  lemma BelowSomething(body: seq<string>)
    requires body != [] && body[|body| - 1] == DASHES
    ensures |Below(body)| >= 2
  {
    BlanksAreASuffix(body);
    var prose := StripLeadingBlanks(body);
    AllBlankExactly(body);
    assert DropTrailingEmpty([""] + prose) == [""] + prose;
  }

  lemma {:induction false} AllBlankExactly(ls: seq<string>)
    requires ls != [] && !IsBlank(ls[|ls| - 1])
    ensures StripLeadingBlanks(ls) != []
  {
    if IsBlank(ls[0]) {
      AllBlankExactly(ls[1..]);
    }
  }

  /** Edited again, an empty brief with a broken value grows. */
  lemma BreakingGrows(changes: seq<Change>)
    requires IsDict(changes) && AreAllSet(changes) && !AllFit(changes)
    ensures SetFrontmatter(SetFrontmatter("", changes), changes) != SetFrontmatter("", changes)
  {
    var entries := NewLines(changes);
    var lines := ([DASHES] + Flat(entries)) + ([DASHES] + Below([]));
    SomethingSet([], changes);
    WrittenWithAny(entries, []);
    EntriesAreHigh(changes);
    assert Below([]) == [] && |lines| == Height(entries) + 2 by { assert DropTrailingEmpty([""][..0]) == []; }
    ClosesSomewhere(Flat(entries));
    var parts := SplitFence(lines);
    FenceOfLines(lines);
    EditedIsHigh(parts.fence, changes);
    SomethingSet(parts.fence, changes);
    WrittenWithAny(ApplyChanges(parts.fence, changes), parts.body);
    if parts.body != [] {
      BelowSomething(parts.body);
    }
  }

  /** A closed fence is found, its own closing line or an earlier one. */
  lemma ClosesSomewhere(inside: seq<string>)
    ensures var parts := SplitFence(([DASHES] + inside) + ([DASHES] + []));
            |parts.fence| <= |inside| && (if parts.body == [] then parts.fence == inside
                                          else parts.body[|parts.body| - 1] == DASHES)
  {
    var lines := ([DASHES] + inside) + ([DASHES] + []);
    DashesAreDashes();
    assert lines[|lines| - 1] == DASHES && lines[0] == DASHES && |lines| == |inside| + 2;
    var c := CloseIndex(lines, 1);
    assert c < |lines|;
    if c == |lines| - 1 {
      assert lines[1..c] == inside;
    }
  }

  // ----- Removals -----------------------------------------------------------

  lemma {:induction false} FirstEntry(changes: seq<Change>) returns (key: string, v: Value)
    requires IsDict(changes) && NewLines(changes) != []
    ensures HasChange(changes, key) && IsKey(key) && ChangeOf(changes, key) == Some(v)
    ensures NewLines(changes)[0] == EntryLine(key, v)
  {
    if changes[0].value.Some? {
      key, v := changes[0].key, changes[0].value.value;
    } else {
      key, v := FirstEntry(changes[1..]);
      ChangeIsMember(changes[1..], key);
      assert HasChange(changes, key) by { assert Change(key, Some(v)) in changes; }
    }
  }

  lemma CutEntry(key: string, r: string, n: nat)
    requires n <= |r|
    ensures key + ": " + r + "\n" == (key + ": " + r[..n]) + (r[n..] + "\n")
  {
    assert r == r[..n] + r[n..];
    Glue(key + ": ", r[..n], r[n..]);
    Glue(key + ": " + r[..n], r[n..], "\n");
  }

  /** The first line of an entry carries its key, wherever its value breaks. */
  lemma FirstLine(key: string, v: Value)
    requires IsKey(key)
    ensures var lines := SplitLines(EntryLine(key, v) + "\n"); lines != [] && LineKey(lines[0]) == Some(key)
  {
    var r := Render(v);
    var n := LineEnd(r);
    var l, rest := EntryLine(key, Text(r[..n])), r[n..];
    EntryLineCarriesItsKey(key, Text(r[..n]));
    CutEntry(key, r, n);
    SplitAtBreak(l, rest + "\n");
  }

  /** The lines of a fence whose first line is `l`, and what removing `key`
      from it leaves. */
  lemma RemovedFirst(l: string, rest: seq<string>, changes: seq<Change>, key: string)
    requires IsDict(changes) && HasChange(changes, key) && ChangeOf(changes, key).None? && LineKey(l) == Some(key)
    ensures ApplyChanges([l, l] + rest, changes) == [l] + ApplyChanges(rest, Without(changes, key))
  {
    WithoutProperties(changes, key);
    assert [l, l] + rest == [l] + ([l] + rest);
    ApplyCons(l, [l] + rest, changes);
    UnsetFirst(l, rest, Without(changes, key));
  }

  lemma UnsetFirst(l: string, rest: seq<string>, changes: seq<Change>)
    requires !IsSet(changes, l)
    ensures ApplyChanges([l] + rest, changes) == [l] + ApplyChanges(rest, changes)
  {
    ApplyCons(l, rest, changes);
  }

  /** The first line that the entries, met again, are written back to. */
  lemma MetAgain(inside: seq<string>, changes: seq<Change>)
    requires IsDict(changes) && NewLines(changes) != []
    requires inside <= Flat(NewLines(changes))
    ensures Flat(NewLines(changes)) != []
    ensures var again := Flat(ApplyChanges(inside, changes)); again != [] && again[0] == Flat(NewLines(changes))[0]
  {
    var key, v := FirstEntry(changes);
    var entry, entries := EntryLine(key, v), NewLines(changes);
    FirstLine(key, v);
    assert Flat(entries) == SplitLines(entry + "\n") + Flat(entries[1..]);
    if inside != [] {
      assert inside[0] == Flat(entries)[0];
      ApplyCons(inside[0], inside[1..], changes);
      assert inside == [inside[0]] + inside[1..];
      FlatAppend([entry], ApplyChanges(inside[1..], Left(changes, inside[0])));
    }
  }

  /** The text of a fence of three lines that carry a key. */
  function Tripled(l: string): string {
    Unlines([DASHES] + [l, l, l] + [DASHES])
  }

  lemma UnsetLine(l: string, changes: seq<Change>)
    requires !IsSet(changes, l)
    ensures ApplyChanges([l], changes) == [l] + NewLines(changes)
  {
    assert [l] == [l] + [];
    UnsetFirst(l, [], changes);
  }

  lemma TripledSplits(l: string)
    requires IsLine(l) && !IsDashes(l)
    ensures SplitFence(SplitLines(Tripled(l))) == Parts([l, l, l], [])
  {
    var lines := [DASHES] + [l, l, l] + [DASHES];
    DashesAreDashes();
    SplitLinesUnlines(lines);
    FenceIsFound([l, l, l], []);
    assert lines == lines + [];
  }

  lemma RemovingOnce(changes: seq<Change>, key: string, l: string)
    requires IsDict(changes) && HasChange(changes, key) && ChangeOf(changes, key).None?
    requires IsLine(l) && LineKey(l) == Some(key) && !IsDashes(l)
    ensures SetFrontmatter(Tripled(l), changes) == JoinFence([l, l] + NewLines(Without(changes, key)), [])
  {
    var others := Without(changes, key);
    TripledSplits(l);
    WithoutProperties(changes, key);
    RemovedFirst(l, [l], changes, key);
    UnsetLine(l, others);
    Glue([l], [l], NewLines(others));
    assert [l] + [l] == [l, l] && [l, l] + [l] == [l, l, l];
  }

  /** The lines after the first edit. */
  lemma LinesAfterOne(l: string, entries: seq<string>)
    requires IsLine(l)
    ensures SplitLines(JoinFence([l, l] + entries, [])) == [DASHES] + ([l, l] + Flat(entries)) + [DASHES]
  {
    WrittenWithAny([l, l] + entries, []);
    FlatAppend([l, l], entries);
    FlatLines([l, l]);
    assert Below([]) == [] by { assert DropTrailingEmpty([""][..0]) == []; }
    assert [DASHES] + [] == [DASHES];
  }

  /** And the second of them after the next. */
  lemma SecondLineAfterTwo(l: string, rest: seq<string>, body: seq<string>)
    requires IsLine(l) && AreLines(body)
    ensures var lines := SplitLines(JoinFence([l] + rest, body));
            |lines| >= 3 && lines[2] == if Flat(rest) == [] then DASHES else Flat(rest)[0]
  {
    WrittenWithAny([l] + rest, body);
    FlatAppend([l], rest);
    FlatLines([l]);
  }

  /** Three lines of a key to be removed lose one in each of two edits. */
  lemma RemovingShows(changes: seq<Change>, key: string, l: string)
    requires IsDict(changes) && HasChange(changes, key) && ChangeOf(changes, key).None?
    requires IsLine(l) && LineKey(l) == Some(key) && !IsDashes(l)
    ensures SetFrontmatter(SetFrontmatter(Tripled(l), changes), changes) != SetFrontmatter(Tripled(l), changes)
  {
    var others := Without(changes, key);
    var entries := NewLines(others);
    var lines := [DASHES] + ([l, l] + Flat(entries)) + [DASHES];
    RemovingOnce(changes, key, l);
    LinesAfterOne(l, entries);
    TwoLinesStay(l, Flat(entries));
    var parts := SplitFence(lines);
    var inside := parts.fence[2..];
    assert parts.fence == [l, l] + inside;
    RemovedFirst(l, inside, changes, key);
    assert AreLines(lines);
    FenceOfLines(lines);
    SecondLineAfterTwo(l, ApplyChanges(inside, others), parts.body);
    assert lines[2] == l;
    SomethingElseFollows(inside, changes, key, l);
  }

  /** What follows the removed lines is not another of them. */
  lemma SomethingElseFollows(inside: seq<string>, changes: seq<Change>, key: string, l: string)
    requires IsDict(changes) && LineKey(l) == Some(key) && !IsDashes(l)
    requires inside <= Flat(NewLines(Without(changes, key)))
    ensures var next := Flat(ApplyChanges(inside, Without(changes, key)));
            l != if next == [] then DASHES else next[0]
  {
    var others := Without(changes, key);
    WithoutProperties(changes, key);
    DashesAreDashes();
    if NewLines(others) != [] {
      MetAgain(inside, others);
      var k, v := FirstEntry(others);
      FirstLine(k, v);
      assert Flat(NewLines(others)) == SplitLines(EntryLine(k, v) + "\n") + Flat(NewLines(others)[1..]);
    }
  }

  lemma TwoLinesStay(l: string, rest: seq<string>)
    requires !IsDashes(l)
    ensures var fence := SplitFence([DASHES] + ([l, l] + rest) + [DASHES]).fence;
            |fence| >= 2 && fence[..2] == [l, l] && fence[2..] <= rest
  {
    var lines := [DASHES] + ([l, l] + rest) + [DASHES];
    DashesAreDashes();
    assert lines[0] == DASHES && lines[1] == l && lines[2] == l && lines[|lines| - 1] == DASHES;
    assert CloseIndex(lines, 1) == CloseIndex(lines, 2) == CloseIndex(lines, 3);
    var c := CloseIndex(lines, 3);
    assert c < |lines| && lines[1..c][..2] == [l, l] && lines[1..c][2..] == lines[3..c] == rest[..c - 3];
  }

  // ----- No change at all ---------------------------------------------------

  const INDENTED := [" ---", "a", "---"]

  /** An empty fence above a fence with an indented first line: the first edit
      takes the empty one, the second straightens the other. */
  lemma NoChangeStraightens()
    ensures var text := Unlines([DASHES, DASHES] + INDENTED);
            SetFrontmatter(SetFrontmatter(text, []), []) != SetFrontmatter(text, [])
  {
    var lines := [DASHES, DASHES] + INDENTED;
    DashesAreDashes();
    SplitLinesUnlines(lines);
    assert lines == [DASHES] + [] + [DASHES] + INDENTED;
    FenceIsFound([], INDENTED);
    IndentedOpens();
    EmptiedFenceExactly(Unlines(lines), []);
  }

  lemma IndentedOpens()
    ensures Trimmed(INDENTED) == INDENTED && OpensFence(INDENTED) && !IsWrittenForm(INDENTED)
  {
    assert INDENTED[2] == DASHES && !IsBlank(INDENTED[0]);
    assert LStrip(" ---") == "---";
  }

  // ----- Exactly ------------------------------------------------------------

  /** Editing is idempotent on every text exactly when there is something to
      change, nothing is removed and each value fits its line. */
  lemma EditingIsIdempotentExactly(changes: seq<Change>)
    requires IsDict(changes)
    ensures (forall text ::
              SetFrontmatter(SetFrontmatter(text, changes), changes) == SetFrontmatter(text, changes)) <==>
            changes != [] && AreAllSet(changes) && AllFit(changes)
  {
    if changes == [] {
      NoChangeStraightens();
    } else if !AreAllSet(changes) {
      var i :| 0 <= i < |changes| && changes[i].value.None?;
      var key := changes[i].key;
      OnlyOneOf(changes, i);
      EntryLineCarriesItsKey(key, Text(""));
      RemovingShows(changes, key, EntryLine(key, Text("")));
    } else if AllFit(changes) {
      forall text
        ensures SetFrontmatter(SetFrontmatter(text, changes), changes) == SetFrontmatter(text, changes)
      {
        FittingIsIdempotent(text, changes);
      }
    } else {
      BreakingGrows(changes);
    }
  }

  lemma OnlyOneOf(changes: seq<Change>, i: nat)
    requires IsDict(changes) && i < |changes|
    ensures HasChange(changes, changes[i].key) && ChangeOf(changes, changes[i].key) == changes[i].value
  {
    assert HasChange(changes, changes[i].key);
    ChangeIsMember(changes, changes[i].key);
  }
}
