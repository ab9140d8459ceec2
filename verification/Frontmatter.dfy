/** The in-place frontmatter editor (`task_files._split_fence`,
    `_apply_fence_changes`, `_join_fence`, `set_frontmatter_text`) against the
    reader every other component uses (`spawn_daily.split_frontmatter`).
*/
module Frontmatter {
  import opened Prelude
  import opened PyText

  const DASHES := "---"

  /** A frontmatter scalar. Structured values are written as JSON text, so to
      both sides they are `Text`. */
  datatype Value = Bool(b: bool) | Int(i: int) | Text(s: string)

  /** One entry of the changes dict; None drops the key. */
  datatype Change = Change(key: string, value: Option<Value>)

  /** `_render_meta_value`. */
  function Render(v: Value): string {
    match v
    case Bool(b) => if b then "true" else "false"
    case Int(i) => IntText(i)
    case Text(s) => s
  }

  // ----- The writer ---------------------------------------------------------

  predicate IsDashes(l: string) {
    Strip(l) == DASHES
  }

  /** The first line at or after `i` that closes a fence, or the end. */
  function CloseIndex(lines: seq<string>, i: nat): (c: nat)
    requires i <= |lines|
    ensures i <= c <= |lines| && (c < |lines| ==> IsDashes(lines[c]))
    ensures forall k :: i <= k < c ==> !IsDashes(lines[k])
    decreases |lines| - i
  {
    if i == |lines| || IsDashes(lines[i]) then i else CloseIndex(lines, i + 1)
  }

  datatype Parts = Parts(fence: seq<string>, body: seq<string>)

  function SplitFence(lines: seq<string>): Parts {
    if lines == [] || !IsDashes(lines[0]) || CloseIndex(lines, 1) == |lines| then Parts([], lines)
    else Parts(lines[1..CloseIndex(lines, 1)], lines[CloseIndex(lines, 1) + 1..])
  }

  /** The key a fence line sets, if it is an entry at all. */
  function LineKey(l: string): Option<string> {
    if Strip(l) == "" || Strip(l)[0] == '#' || ':' !in l then None else Some(Strip(Before(l, ':')))
  }

  /** A line carries what lies before its first colon, without the blanks around
      it, unless the line is a comment. */
  lemma LineKeyExactly(l: string, key: string)
    ensures LineKey(l) == Some(key) <==>
            && (Strip(l) == "" || Strip(l)[0] != '#')
            && exists name, value :: ':' !in name && l == name + ":" + value && key == Strip(name)
  {
    if ':' in l {
      PartitionIs(l, ':');
      assert l == Before(l, ':') + ":" + After(l, ':');
      ColonIsNoBlank(l);
    }
    forall name, value | ':' !in name && l == name + ":" + value
      ensures Before(l, ':') == name && ':' in l
    {
      PartitionAt(name, ':', value);
      assert l == name + [':'] + value;
    }
  }

  lemma {:induction false} PartitionIs(s: string, c: char)
    requires c in s
    ensures c !in Before(s, c) && s == Before(s, c) + [c] + After(s, c)
  {
    if s[0] == c {
      assert s == [] + [c] + s[1..];
    } else {
      PartitionIs(s[1..], c);
      assert s == [s[0]] + s[1..];
    }
  }

  lemma ColonIsNoBlank(l: string)
    requires ':' in l
    ensures Strip(l) != ""
  {
    StripExactly(l, "");
    assert forall s :: AreBlanks(s) ==> ':' !in s;
  }

  function EntryLine(key: string, v: Value): string {
    key + ": " + Render(v)
  }

  predicate HasChange(changes: seq<Change>, key: string) {
    exists i | 0 <= i < |changes| :: changes[i].key == key
  }

  function ChangeOf(changes: seq<Change>, key: string): (v: Option<Value>)
    requires HasChange(changes, key)
  {
    if changes[0].key == key then changes[0].value else ChangeOf(changes[1..], key)
  }

  /** `remaining.pop(key)`, leaving the others in order. */
  function Without(changes: seq<Change>, key: string): seq<Change> {
    if changes == [] then []
    else if changes[0].key == key then Without(changes[1..], key)
    else [changes[0]] + Without(changes[1..], key)
  }

  /** The lines of the changes that set something, in order. */
  function NewLines(changes: seq<Change>): seq<string> {
    if changes == [] then []
    else (if changes[0].value.Some? then [EntryLine(changes[0].key, changes[0].value.value)] else [])
         + NewLines(changes[1..])
  }

  predicate IsSet(changes: seq<Change>, l: string) {
    LineKey(l).Some? && HasChange(changes, LineKey(l).value)
  }

  /** What one fence line becomes. */
  function Rewritten(changes: seq<Change>, l: string): seq<string> {
    if !IsSet(changes, l) then [l]
    else if ChangeOf(changes, LineKey(l).value).Some? then
      [EntryLine(LineKey(l).value, ChangeOf(changes, LineKey(l).value).value)]
    else []
  }

  function Left(changes: seq<Change>, l: string): seq<Change> {
    if IsSet(changes, l) then Without(changes, LineKey(l).value) else changes
  }

  /** `_apply_fence_changes`: each change lands on the first line of its key,
      and what no line took is appended. */
  function ApplyChanges(fence: seq<string>, changes: seq<Change>): seq<string> {
    if fence == [] then NewLines(changes)
    else Rewritten(changes, fence[0]) + ApplyChanges(fence[1..], Left(changes, fence[0]))
  }

  /** The loop of `_apply_fence_changes`. */
  method ApplyFenceChanges(fence: seq<string>, changes: seq<Change>) returns (out: seq<string>)
    ensures out == ApplyChanges(fence, changes)
  {
    var remaining := changes;
    out := [];
    for i := 0 to |fence|
      invariant out + ApplyChanges(fence[i..], remaining) == ApplyChanges(fence, changes)
    {
      assert fence[i..][1..] == fence[i + 1..];
      ghost var rest := ApplyChanges(fence[i + 1..], Left(remaining, fence[i]));
      assert out + (Rewritten(remaining, fence[i]) + rest) == (out + Rewritten(remaining, fence[i])) + rest;
      out, remaining := out + Rewritten(remaining, fence[i]), Left(remaining, fence[i]);
    }
    assert fence[|fence|..] == [];
    out := out + NewLines(remaining);
  }

  predicate IsBlank(l: string) {
    Strip(l) == ""
  }

  function StripLeadingBlanks(ls: seq<string>): seq<string> {
    if ls != [] && IsBlank(ls[0]) then StripLeadingBlanks(ls[1..]) else ls
  }

  function RStripNewlines(s: string): string {
    if s != "" && s[|s| - 1] == '\n' then RStripNewlines(s[..|s| - 1]) else s
  }

  function JoinFence(fence: seq<string>, body: seq<string>): string {
    var prose := StripLeadingBlanks(body);
    var out := if fence != [] then [DASHES] + fence + [DASHES, ""] + prose else prose;
    RStripNewlines(Join("\n", out)) + "\n"
  }

  /** `set_frontmatter_text`. */
  function SetFrontmatter(text: string, changes: seq<Change>): string {
    var parts := SplitFence(SplitLines(text));
    JoinFence(ApplyChanges(parts.fence, changes), parts.body)
  }

  // ----- The text a fence and a body make -----------------------------------

  function DropTrailingEmpty(ls: seq<string>): seq<string> {
    if ls != [] && ls[|ls| - 1] == "" then DropTrailingEmpty(ls[..|ls| - 1]) else ls
  }

  lemma {:induction false} DropTrailingEmptyAfter(a: seq<string>, b: seq<string>)
    requires a != [] && a[|a| - 1] != ""
    ensures DropTrailingEmpty(a + b) == a + DropTrailingEmpty(b)
  {
    if b == [] {
      assert a + b == a;
    } else {
      assert (a + b)[..|a + b| - 1] == a + b[..|b| - 1];
      DropTrailingEmptyAfter(a, b[..|b| - 1]);
    }
  }

  lemma {:induction false} DropTrailingEmptyIdempotent(ls: seq<string>)
    ensures DropTrailingEmpty(ls) <= ls
    ensures DropTrailingEmpty(DropTrailingEmpty(ls)) == DropTrailingEmpty(ls)
  {
    if ls == [] || ls[|ls| - 1] != "" {
    } else {
      DropTrailingEmptyIdempotent(ls[..|ls| - 1]);
    }
  }

  lemma {:induction false} JoinAppend(ls: seq<string>, l: string)
    requires ls != []
    ensures Join("\n", ls + [l]) == Join("\n", ls) + "\n" + l
  {
    if |ls| > 1 {
      assert (ls + [l])[1..] == ls[1..] + [l];
      JoinAppend(ls[1..], l);
    } else {
      assert (ls + [l])[1..] == [l];
    }
  }

  /** Writing lines out and trimming the end keeps the lines up to the last
      one that is not empty. */
  lemma {:induction false} FinishedText(ls: seq<string>)
    requires AreLines(ls) && ls != [] && ls[0] != ""
    ensures RStripNewlines(Join("\n", ls)) + "\n" == Unlines(DropTrailingEmpty(ls))
  {
    var last := ls[|ls| - 1];
    if |ls| == 1 {
      assert !IsBreak(last[|last| - 1]);
    } else {
      var init := ls[..|ls| - 1];
      assert ls == init + [last];
      JoinAppend(init, last);
      var s := Join("\n", ls);
      if last == "" {
        assert s[..|s| - 1] == Join("\n", init);
        FinishedText(init);
      } else {
        assert s[|s| - 1] == last[|last| - 1] && !IsBreak(last[|last| - 1]);
        UnlinesIsJoin(ls);
      }
    }
  }

  predicate IsFence(fence: seq<string>) {
    fence != [] && AreLines(fence) && forall i :: 0 <= i < |fence| ==> !IsDashes(fence[i])
  }

  lemma DashesAreDashes()
    ensures IsLine(DASHES) && IsDashes(DASHES)
  {}

  lemma WrittenLines(dashes: string, fence: seq<string>, prose: seq<string>)
    requires IsLine(dashes) && dashes != "" && AreLines(fence) && AreLines(prose)
    ensures var lines := [dashes] + fence + [dashes] + DropTrailingEmpty([""] + prose);
            AreLines(lines)
              && RStripNewlines(Join("\n", [dashes] + fence + [dashes, ""] + prose)) + "\n" == Unlines(lines)
  {
    var head := [dashes] + fence + [dashes];
    DropTrailingEmptyIdempotent([""] + prose);
    assert head + ([""] + prose) == [dashes] + fence + [dashes, ""] + prose;
    FinishedText(head + ([""] + prose));
    DropTrailingEmptyAfter(head, [""] + prose);
  }

  /** The lines of a brief written with a fence, and what splitting them again
      gives: the fence as written, and the prose below one blank line. */
  lemma WrittenBrief(fence: seq<string>, body: seq<string>)
    requires IsFence(fence) && AreLines(body)
    ensures var below := DropTrailingEmpty([""] + StripLeadingBlanks(body));
            && JoinFence(fence, body) == Unlines([DASHES] + fence + [DASHES] + below)
            && SplitLines(JoinFence(fence, body)) == [DASHES] + fence + [DASHES] + below
            && SplitFence(SplitLines(JoinFence(fence, body))) == Parts(fence, below)
  {
    var below := DropTrailingEmpty([""] + StripLeadingBlanks(body));
    DashesAreDashes();
    BlanksAreASuffix(body);
    WrittenLines(DASHES, fence, StripLeadingBlanks(body));
    SplitLinesUnlines([DASHES] + fence + [DASHES] + below);
    FenceIsFound(fence, below);
  }

  lemma FenceIsFound(fence: seq<string>, below: seq<string>)
    requires forall i :: 0 <= i < |fence| ==> !IsDashes(fence[i])
    ensures SplitFence([DASHES] + fence + [DASHES] + below) == Parts(fence, below)
  {
    var lines := [DASHES] + fence + [DASHES] + below;
    DashesAreDashes();
    var c := CloseIndex(lines, 1);
    assert lines[|fence| + 1] == DASHES && forall k :: 1 <= k <= |fence| ==> lines[k] == fence[k - 1];
    assert c == |fence| + 1;
    assert lines[1..c] == fence && lines[c + 1..] == below;
  }

  lemma {:induction false} BlanksAreASuffix(ls: seq<string>)
    ensures |StripLeadingBlanks(ls)| <= |ls| && StripLeadingBlanks(ls) == ls[|ls| - |StripLeadingBlanks(ls)|..]
    ensures StripLeadingBlanks(ls) == [] || !IsBlank(StripLeadingBlanks(ls)[0])
  {
    if ls == [] || !IsBlank(ls[0]) {
    } else {
      BlanksAreASuffix(ls[1..]);
    }
  }

  // ----- Idempotence --------------------------------------------------------

  /** A key a fence line can carry: nothing to strip, no colon, no comment. */
  predicate IsKey(key: string) {
    IsStripped(key) && IsLine(key) && ':' !in key && (key != "" ==> key[0] != '#')
  }

  /** The changes form a dict of such keys. */
  predicate IsDict(changes: seq<Change>) {
    && (forall i :: 0 <= i < |changes| ==> IsKey(changes[i].key))
    && forall i, j :: 0 <= i < j < |changes| ==> changes[i].key != changes[j].key
  }

  predicate IsSettable(c: Change) {
    c.value.Some? ==> IsLine(Render(c.value.value))
  }

  /** And its values stay on their lines. */
  predicate AreSettable(changes: seq<Change>) {
    IsDict(changes) && forall c :: c in changes ==> IsSettable(c)
  }

  /** An entry line carries its own key and closes no fence; it is one line if
      its value is. */
  lemma EntryLineCarriesItsKey(key: string, v: Value)
    requires IsKey(key)
    ensures LineKey(EntryLine(key, v)) == Some(key) && !IsDashes(EntryLine(key, v))
    ensures IsLine(Render(v)) ==> IsLine(EntryLine(key, v))
    ensures After(EntryLine(key, v), ':') == " " + Render(v)
  {
    if IsLine(Render(v)) {
      EntryIsALine(key, v);
    }
    var l := EntryLine(key, v);
    assert l == key + [':'] + (" " + Render(v));
    PartitionAt(key, ':', " " + Render(v));
    StripFixpoint(key);
    assert l[|key|] == ':';
    StripKeeps(l, ':');
    assert ':' !in DASHES;
    LineStart(l, key);
  }

  lemma EntryIsALine(key: string, v: Value)
    requires IsKey(key) && IsLine(Render(v))
    ensures IsLine(EntryLine(key, v))
  {}

  /** A line starting with a non-blank character still does when stripped. */
  lemma LineStart(l: string, key: string)
    requires IsStripped(key) && |key| < |l| && key <= l && l[|key|] == ':' && (key != "" ==> key[0] != '#')
    ensures Strip(l) != "" && Strip(l)[0] != '#'
  {
    assert LStrip(l) == l;
    StripKeeps(l, ':');
    RStripEnds(l);
  }

  lemma {:induction false} WithoutProperties(changes: seq<Change>, key: string)
    requires IsDict(changes)
    ensures IsDict(Without(changes, key)) && !HasChange(Without(changes, key), key)
    ensures forall c :: c in Without(changes, key) <==> c in changes && c.key != key
  {
    if changes == [] {
    } else {
      WithoutProperties(changes[1..], key);
      forall c
        ensures c in Without(changes, key) <==> c in changes && c.key != key
      {
        assert c in changes <==> c == changes[0] || c in changes[1..];
      }
      var w := Without(changes, key);
      forall i, j | 0 <= i < j < |w|
        ensures w[i].key != w[j].key
      {
        if changes[0].key != key {
          assert w[1..] == Without(changes[1..], key);
          if i == 0 {
            assert w[j] == w[1..][j - 1] && w[j] in changes[1..];
          }
        }
      }
      assert forall i :: 0 <= i < |w| ==> w[i] in changes;
    }
  }

  lemma ChangeIsMember(changes: seq<Change>, key: string)
    requires HasChange(changes, key)
    ensures Change(key, ChangeOf(changes, key)) in changes
  {
    if changes[0].key != key {
      ChangeIsMember(changes[1..], key);
    }
  }

  lemma LeftIsSettable(changes: seq<Change>, l: string)
    requires IsDict(changes)
    ensures IsDict(Left(changes, l))
    ensures forall c :: c in Left(changes, l) ==> c in changes
    ensures IsSet(changes, l) ==> forall c :: c in Left(changes, l) ==> c.key != LineKey(l).value
    ensures forall key :: HasChange(Left(changes, l), key) ==> HasChange(changes, key)
  {
    if IsSet(changes, l) {
      WithoutProperties(changes, LineKey(l).value);
      forall key | HasChange(Left(changes, l), key)
        ensures HasChange(changes, key)
      {
        ChangeIsMember(Left(changes, l), key);
      }
    }
  }

  /** The rewritten fence is again lines that close nothing. */
  lemma {:induction false} ChangedFenceIsAFence(fence: seq<string>, changes: seq<Change>)
    requires AreSettable(changes) && AreLines(fence) && forall i :: 0 <= i < |fence| ==> !IsDashes(fence[i])
    ensures var out := ApplyChanges(fence, changes);
            AreLines(out) && forall i :: 0 <= i < |out| ==> !IsDashes(out[i])
  {
    if fence == [] {
      NewLinesAreLines(changes);
    } else {
      var l := fence[0];
      LeftIsSettable(changes, l);
      ChangedFenceIsAFence(fence[1..], Left(changes, l));
      if IsSet(changes, l) {
        ChangeIsMember(changes, LineKey(l).value);
        var v := ChangeOf(changes, LineKey(l).value);
        if v.Some? {
          EntryLineCarriesItsKey(LineKey(l).value, v.value);
        }
      }
    }
  }

  lemma {:induction false} NewLinesAreLines(changes: seq<Change>)
    requires AreSettable(changes)
    ensures AreLines(NewLines(changes)) && forall i :: 0 <= i < |NewLines(changes)| ==> !IsDashes(NewLines(changes)[i])
  {
    if changes == [] {
    } else {
      NewLinesAreLines(changes[1..]);
      var all, rest := NewLines(changes), NewLines(changes[1..]);
      assert changes[0] in changes;
      if changes[0].value.Some? {
        EntryLineCarriesItsKey(changes[0].key, changes[0].value.value);
        assert all[0] == EntryLine(changes[0].key, changes[0].value.value) && all[1..] == rest;
      } else {
        assert all == rest;
      }
    }
  }

  /** No line of the fence carries `key`. */
  predicate Lacks(fence: seq<string>, key: string) {
    forall i :: 0 <= i < |fence| ==> LineKey(fence[i]) != Some(key)
  }

  /** Every key to be removed is carried by at most one line. */
  predicate RemovesOnce(fence: seq<string>, changes: seq<Change>) {
    forall i, j, k ::
      (0 <= i < j < |fence| && 0 <= k < |changes| && changes[k].value.None?
       && LineKey(fence[i]) == Some(changes[k].key))
      ==> LineKey(fence[j]) != Some(changes[k].key)
  }

  lemma {:induction false} LacksAfter(fence: seq<string>, changes: seq<Change>, key: string)
    requires IsDict(changes) && Lacks(fence, key) && !HasChange(changes, key)
    ensures Lacks(ApplyChanges(fence, changes), key)
  {
    if fence == [] {
      LacksNew(changes, key);
    } else {
      var l := fence[0];
      LeftIsSettable(changes, l);
      LacksAfter(fence[1..], Left(changes, l), key);
      if IsSet(changes, l) {
        ChangeIsMember(changes, LineKey(l).value);
        var v := ChangeOf(changes, LineKey(l).value);
        if v.Some? {
          EntryLineCarriesItsKey(LineKey(l).value, v.value);
        }
      }
    }
  }

  lemma {:induction false} LacksNew(changes: seq<Change>, key: string)
    requires IsDict(changes) && !HasChange(changes, key)
    ensures Lacks(NewLines(changes), key)
  {
    if changes == [] {
    } else {
      LacksNew(changes[1..], key);
      if changes[0].value.Some? {
        EntryLineCarriesItsKey(changes[0].key, changes[0].value.value);
      }
    }
  }

  /** A removal whose key the fence lacks makes no difference. */
  lemma {:induction false} RemovalOfNothing(fence: seq<string>, changes: seq<Change>, key: string)
    requires IsDict(changes) && Lacks(fence, key) && HasChange(changes, key) && ChangeOf(changes, key).None?
    ensures ApplyChanges(fence, changes) == ApplyChanges(fence, Without(changes, key))
  {
    if fence == [] {
      NewLinesWithout(changes, key);
    } else {
      var l := fence[0];
      LeftIsSettable(changes, l);
      WithoutAgrees(changes, key, l);
      RemovalOfNothing(fence[1..], Left(changes, l), key);
    }
  }

  lemma {:induction false} NewLinesWithout(changes: seq<Change>, key: string)
    requires IsDict(changes) && (HasChange(changes, key) ==> ChangeOf(changes, key).None?)
    ensures NewLines(changes) == NewLines(Without(changes, key))
  {
    if changes == [] {
    } else {
      if HasChange(changes[1..], key) {
        ChangeIsMember(changes[1..], key);
      }
      NewLinesWithout(changes[1..], key);
    }
  }

  lemma {:induction false} WithoutOther(changes: seq<Change>, key: string, other: string)
    requires key != other
    ensures HasChange(Without(changes, key), other) <==> HasChange(changes, other)
    ensures HasChange(changes, other) ==> ChangeOf(Without(changes, key), other) == ChangeOf(changes, other)
    ensures Without(Without(changes, key), other) == Without(Without(changes, other), key)
  {
    if changes == [] {
    } else {
      WithoutOther(changes[1..], key, other);
      assert HasChange(changes, other) <==> changes[0].key == other || HasChange(changes[1..], other) by {
        if i :| 0 <= i < |changes| && changes[i].key == other {
          assert i > 0 ==> changes[1..][i - 1].key == other;
        }
        if i :| 0 <= i < |changes[1..]| && changes[1..][i].key == other {
          assert changes[i + 1].key == other;
        }
      }
      var w := Without(changes, key);
      if changes[0].key != key {
        assert w[0] == changes[0] && w[1..] == Without(changes[1..], key);
        assert HasChange(w, other) <==> w[0].key == other || HasChange(w[1..], other) by {
          if i :| 0 <= i < |w| && w[i].key == other {
            assert i > 0 ==> w[1..][i - 1].key == other;
          }
          if i :| 0 <= i < |w[1..]| && w[1..][i].key == other {
            assert w[i + 1].key == other;
          }
        }
      }
    }
  }

  lemma WithoutAgrees(changes: seq<Change>, key: string, l: string)
    requires IsDict(changes) && LineKey(l) != Some(key)
    ensures Rewritten(Without(changes, key), l) == Rewritten(changes, l)
    ensures Left(Without(changes, key), l) == Without(Left(changes, l), key)
    ensures HasChange(changes, key) ==>
            HasChange(Left(changes, l), key) && ChangeOf(Left(changes, l), key) == ChangeOf(changes, key)
  {
    if LineKey(l).Some? {
      WithoutOther(changes, key, LineKey(l).value);
      WithoutOther(changes, LineKey(l).value, key);
    }
  }

  lemma ApplyCons(l: string, rest: seq<string>, changes: seq<Change>)
    ensures ApplyChanges([l] + rest, changes) == Rewritten(changes, l) + ApplyChanges(rest, Left(changes, l))
  {
    assert ([l] + rest)[1..] == rest;
  }

  /** The line a change wrote is rewritten to itself, using the change up. */
  lemma RewriteTwice(changes: seq<Change>, key: string, v: Value)
    requires IsDict(changes) && HasChange(changes, key) && ChangeOf(changes, key) == Some(v)
    ensures var line := EntryLine(key, v);
            Rewritten(changes, line) == [line] && Left(changes, line) == Without(changes, key)
  {
    ChangeIsMember(changes, key);
    EntryLineCarriesItsKey(key, v);
  }

  lemma {:induction false} ApplyTwice(fence: seq<string>, changes: seq<Change>)
    requires IsDict(changes) && RemovesOnce(fence, changes)
    ensures ApplyChanges(ApplyChanges(fence, changes), changes) == ApplyChanges(fence, changes)
  {
    if fence == [] {
      NewLinesTwice(changes);
    } else {
      var l, rest := fence[0], fence[1..];
      var left := Left(changes, l);
      var out := ApplyChanges(rest, left);
      LeftIsSettable(changes, l);
      RemovesOnceRest(fence, changes);
      ApplyTwice(rest, left);
      if !IsSet(changes, l) {
        ApplyCons(l, out, changes);
      } else {
        var key := LineKey(l).value;
        var v := ChangeOf(changes, key);
        if v.Some? {
          RewriteTwice(changes, key, v.value);
          ApplyCons(EntryLine(key, v.value), out, changes);
        } else {
          assert ApplyChanges(fence, changes) == out;
          RestLacks(fence, changes, key);
          WithoutProperties(changes, key);
          assert !HasChange(left, key);
          LacksAfter(rest, left, key);
          RemovalOfNothing(out, changes, key);
        }
      }
    }
  }

  lemma RestLacks(fence: seq<string>, changes: seq<Change>, key: string)
    requires IsDict(changes) && RemovesOnce(fence, changes)
    requires fence != [] && LineKey(fence[0]) == Some(key) && HasChange(changes, key) && ChangeOf(changes, key).None?
    ensures Lacks(fence[1..], key)
  {
    ChangeIsMember(changes, key);
    var k :| 0 <= k < |changes| && changes[k] == Change(key, None);
    forall j | 0 <= j < |fence[1..]|
      ensures LineKey(fence[1..][j]) != Some(key)
    {
      assert fence[1..][j] == fence[j + 1];
    }
  }

  lemma RemovesOnceRest(fence: seq<string>, changes: seq<Change>)
    requires IsDict(changes) && RemovesOnce(fence, changes) && fence != []
    ensures RemovesOnce(fence[1..], Left(changes, fence[0]))
  {
    var rest, left := fence[1..], Left(changes, fence[0]);
    LeftIsSettable(changes, fence[0]);
    forall i, j, k | 0 <= i < j < |rest| && 0 <= k < |left| && left[k].value.None?
      && LineKey(rest[i]) == Some(left[k].key)
      ensures LineKey(rest[j]) != Some(left[k].key)
    {
      assert left[k] in changes;
      var m :| 0 <= m < |changes| && changes[m] == left[k];
      assert rest[i] == fence[i + 1] && rest[j] == fence[j + 1];
    }
  }

  lemma {:induction false} NewLinesTwice(changes: seq<Change>)
    requires IsDict(changes)
    ensures ApplyChanges(NewLines(changes), changes) == NewLines(changes)
  {
    if changes == [] {
    } else {
      var c, rest := changes[0], changes[1..];
      NewLinesTwice(rest);
      WithoutFirst(changes);
      if c.value.Some? {
        var line := EntryLine(c.key, c.value.value);
        RewriteTwice(changes, c.key, c.value.value);
        ApplyCons(line, NewLines(rest), changes);
        calc {
          ApplyChanges(NewLines(changes), changes);
          [line] + ApplyChanges(NewLines(rest), rest);
          [line] + NewLines(rest);
        }
      } else {
        LacksNew(rest, c.key);
        RemovalOfNothing(NewLines(rest), changes, c.key);
        assert NewLines(changes) == NewLines(rest);
      }
    }
  }

  lemma WithoutFirst(changes: seq<Change>)
    requires IsDict(changes) && changes != []
    ensures Without(changes, changes[0].key) == changes[1..] && !HasChange(changes[1..], changes[0].key)
    ensures HasChange(changes, changes[0].key)
  {
    WithoutAbsent(changes[1..], changes[0].key);
  }

  lemma {:induction false} WithoutAbsent(changes: seq<Change>, key: string)
    requires forall i :: 0 <= i < |changes| ==> changes[i].key != key
    ensures Without(changes, key) == changes
  {
    if changes == [] {
    } else {
      WithoutAbsent(changes[1..], key);
    }
  }

  /** How many lines carry `key`. */
  function Carriers(fence: seq<string>, key: string): nat {
    if fence == [] then 0 else (if LineKey(fence[0]) == Some(key) then 1 else 0) + Carriers(fence[1..], key)
  }

  lemma {:induction false} CarriersAppend(a: seq<string>, b: seq<string>, key: string)
    ensures Carriers(a + b, key) == Carriers(a, key) + Carriers(b, key)
  {
    if a == [] {
      assert a + b == b;
    } else {
      assert (a + b)[1..] == a[1..] + b;
      CarriersAppend(a[1..], b, key);
    }
  }

  lemma {:induction false} CarriersByIndex(fence: seq<string>, key: string, i: nat)
    requires i < |fence| && LineKey(fence[i]) == Some(key)
    ensures Carriers(fence, key) >= 1
  {
    if i == 0 {
    } else {
      CarriersByIndex(fence[1..], key, i - 1);
    }
  }

  /** A key no change mentions keeps its lines; a removal takes away one. */
  lemma {:induction false} CarriersAfter(fence: seq<string>, changes: seq<Change>, key: string)
    requires IsDict(changes) && (HasChange(changes, key) ==> ChangeOf(changes, key).None?)
    ensures Carriers(ApplyChanges(fence, changes), key)
            == if HasChange(changes, key) && Carriers(fence, key) > 0
               then Carriers(fence, key) - 1 else Carriers(fence, key)
  {
    if fence == [] {
      NewLinesCarry(changes, key);
    } else {
      var l := fence[0];
      LeftIsSettable(changes, l);
      if LineKey(l) != Some(key) {
        WithoutAgrees(changes, key, l);
      }
      if HasChange(Left(changes, l), key) && LineKey(l) == Some(key) {
        ChangeIsMember(Left(changes, l), key);
      }
      CarriersAfter(fence[1..], Left(changes, l), key);
      CarriersAppend(Rewritten(changes, l), ApplyChanges(fence[1..], Left(changes, l)), key);
      if IsSet(changes, l) && ChangeOf(changes, LineKey(l).value).Some? {
        ChangeIsMember(changes, LineKey(l).value);
        EntryLineCarriesItsKey(LineKey(l).value, ChangeOf(changes, LineKey(l).value).value);
      }
    }
  }

  lemma {:induction false} NewLinesCarry(changes: seq<Change>, key: string)
    requires IsDict(changes) && (HasChange(changes, key) ==> ChangeOf(changes, key).None?)
    ensures Carriers(NewLines(changes), key) == 0
  {
    if changes == [] {
    } else {
      if HasChange(changes[1..], key) {
        ChangeIsMember(changes[1..], key);
      }
      NewLinesCarry(changes[1..], key);
      assert changes[0].key == key ==> HasChange(changes, key) && changes[0].value.None?;
      if changes[0].value.Some? {
        EntryLineCarriesItsKey(changes[0].key, changes[0].value.value);
        var line := EntryLine(changes[0].key, changes[0].value.value);
        assert NewLines(changes)[0] == line && NewLines(changes)[1..] == NewLines(changes[1..]);
      } else {
        assert NewLines(changes) == NewLines(changes[1..]);
      }
    }
  }

  /** A key that is set is carried once, or by as many lines as before. */
  lemma {:induction false} CarriersSet(fence: seq<string>, changes: seq<Change>, key: string)
    requires IsDict(changes) && HasChange(changes, key) && ChangeOf(changes, key).Some?
    ensures Carriers(ApplyChanges(fence, changes), key) == if Carriers(fence, key) > 0 then Carriers(fence, key) else 1
  {
    if fence == [] {
      NewLinesCarryOne(changes, key);
    } else {
      var l := fence[0];
      LeftIsSettable(changes, l);
      CarriersAppend(Rewritten(changes, l), ApplyChanges(fence[1..], Left(changes, l)), key);
      if LineKey(l) == Some(key) {
        ChangeIsMember(changes, key);
        EntryLineCarriesItsKey(key, ChangeOf(changes, key).value);
        WithoutProperties(changes, key);
        CarriersAfter(fence[1..], Left(changes, l), key);
      } else {
        WithoutAgrees(changes, key, l);
        CarriersSet(fence[1..], Left(changes, l), key);
        if IsSet(changes, l) && ChangeOf(changes, LineKey(l).value).Some? {
          ChangeIsMember(changes, LineKey(l).value);
          EntryLineCarriesItsKey(LineKey(l).value, ChangeOf(changes, LineKey(l).value).value);
        }
      }
    }
  }

  lemma {:induction false} NewLinesCarryOne(changes: seq<Change>, key: string)
    requires IsDict(changes) && HasChange(changes, key) && ChangeOf(changes, key).Some?
    ensures Carriers(NewLines(changes), key) == 1
  {
    var rest := changes[1..];
    if changes[0].key == key {
      assert !HasChange(rest, key);
      NewLinesCarry(rest, key);
    } else {
      NewLinesCarryOne(rest, key);
    }
    if changes[0].value.Some? {
      EntryLineCarriesItsKey(changes[0].key, changes[0].value.value);
      var line := EntryLine(changes[0].key, changes[0].value.value);
      assert NewLines(changes)[0] == line && NewLines(changes)[1..] == NewLines(rest);
    } else {
      assert NewLines(changes) == NewLines(rest);
    }
  }

  /** Rewriting a fence is idempotent exactly when no key to be removed is
      carried by two lines. */
  lemma ApplyTwiceExactly(fence: seq<string>, changes: seq<Change>)
    requires IsDict(changes)
    ensures ApplyChanges(ApplyChanges(fence, changes), changes) == ApplyChanges(fence, changes) <==>
            RemovesOnce(fence, changes)
  {
    if RemovesOnce(fence, changes) {
      ApplyTwice(fence, changes);
    } else {
      var i, j, k :| 0 <= i < j < |fence| && 0 <= k < |changes| && changes[k].value.None?
        && LineKey(fence[i]) == Some(changes[k].key) && LineKey(fence[j]) == Some(changes[k].key);
      var key := changes[k].key;
      assert HasChange(changes, key);
      ChangeIsMember(changes, key);
      TwoCarriers(fence, key, i, j);
      CarriersAfter(fence, changes, key);
      CarriersAfter(ApplyChanges(fence, changes), changes, key);
    }
  }

  lemma TwoCarriers(fence: seq<string>, key: string, i: nat, j: nat)
    requires i < j < |fence| && LineKey(fence[i]) == Some(key) && LineKey(fence[j]) == Some(key)
    ensures Carriers(fence, key) >= 2
  {
    assert fence == fence[..j] + fence[j..] && fence[..j][i] == fence[i] && fence[j..][0] == fence[j];
    CarriersAppend(fence[..j], fence[j..], key);
    CarriersByIndex(fence[..j], key, i);
    CarriersByIndex(fence[j..], key, 0);
  }

  /** The fence of `text` after the changes. */
  function ChangedFence(text: string, changes: seq<Change>): seq<string> {
    ApplyChanges(SplitFence(SplitLines(text)).fence, changes)
  }

  lemma FenceOfLines(lines: seq<string>)
    requires AreLines(lines)
    ensures var parts := SplitFence(lines);
            AreLines(parts.fence) && AreLines(parts.body) && forall i :: 0 <= i < |parts.fence| ==>
              !IsDashes(parts.fence[i])
  {}

  /** Editing twice is editing once exactly when no key to be removed is
      carried by two lines: for every text, and every settable change dict
      that leaves a fence. */
  lemma SetFrontmatterIsIdempotent(text: string, changes: seq<Change>)
    requires AreSettable(changes) && ChangedFence(text, changes) != []
    ensures SetFrontmatter(SetFrontmatter(text, changes), changes) == SetFrontmatter(text, changes)
            <==> RemovesOnce(SplitFence(SplitLines(text)).fence, changes)
  {
    var parts := SplitFence(SplitLines(text));
    FenceOfLines(SplitLines(text));
    ChangedFenceIsAFence(parts.fence, changes);
    ApplyTwiceExactly(parts.fence, changes);
    RewriteOfWritten(ChangedFence(text, changes), parts.body, changes);
  }

  /** Editing a brief that was written with a fence changes it exactly when it
      changes the fence. */
  lemma RewriteOfWritten(fence: seq<string>, body: seq<string>, changes: seq<Change>)
    requires AreSettable(changes) && IsFence(fence) && AreLines(body)
    ensures SetFrontmatter(JoinFence(fence, body), changes) == JoinFence(fence, body) <==>
            ApplyChanges(fence, changes) == fence
  {
    var prose := StripLeadingBlanks(body);
    var below, again := DropTrailingEmpty([""] + prose), ApplyChanges(fence, changes);
    BlanksAreASuffix(body);
    NormalBelow(prose);
    DropTrailingEmptyIdempotent([""] + prose);
    assert AreLines(below);
    WrittenBrief(fence, body);
    if again == [] {
      BodyOnly(below);
    } else {
      ChangedFenceIsAFence(fence, changes);
      WrittenBrief(again, below);
      if again != fence {
        FenceIsFound(fence, below);
        FenceIsFound(again, below);
      }
    }
  }

  /** A brief without a fence has no more lines than its prose, or one. */
  lemma BodyOnly(body: seq<string>)
    requires AreLines(body)
    ensures |SplitLines(JoinFence([], body))| <= |body| + 1
  {
    var prose := StripLeadingBlanks(body);
    BlanksAreASuffix(body);
    if prose == [] {
      SplitLinesCons("", "");
    } else {
      assert prose[0] != "" by { assert IsBlank(""); }
      FinishedText(prose);
      DropTrailingEmptyIdempotent(prose);
      SplitLinesUnlines(DropTrailingEmpty(prose));
    }
  }

  /** Reading the prose back from below the fence and writing it again. */
  lemma NormalBelow(prose: seq<string>)
    requires prose == [] || !IsBlank(prose[0])
    ensures var below := DropTrailingEmpty([""] + prose);
            && StripLeadingBlanks(below) == DropTrailingEmpty(prose)
            && DropTrailingEmpty([""] + StripLeadingBlanks(below)) == below
  {
    if prose == [] {
      assert [""] + prose == [""] && [""][..0] == [];
      assert DropTrailingEmpty([""]) == [];
    } else {
      var kept := DropTrailingEmpty(prose);
      KeepsFirst(prose);
      AfterBlank(prose);
      AfterBlank(kept);
      DropTrailingEmptyIdempotent(prose);
      assert ([""] + kept)[1..] == kept && IsBlank("");
    }
  }

  lemma KeepsFirst(prose: seq<string>)
    requires prose != [] && prose[0] != ""
    ensures DropTrailingEmpty(prose) != [] && DropTrailingEmpty(prose)[0] == prose[0]
  {
    assert prose == prose[..1] + prose[1..];
    DropTrailingEmptyAfter(prose[..1], prose[1..]);
  }

  lemma AfterBlank(prose: seq<string>)
    requires prose != [] && prose[0] != ""
    ensures DropTrailingEmpty([""] + prose) == [""] + DropTrailingEmpty(prose)
  {
    var first := [""] + prose[..1];
    assert [""] + prose == first + prose[1..] && prose == prose[..1] + prose[1..];
    DropTrailingEmptyAfter(first, prose[1..]);
    DropTrailingEmptyAfter(prose[..1], prose[1..]);
    assert first + DropTrailingEmpty(prose[1..]) == [""] + (prose[..1] + DropTrailingEmpty(prose[1..]));
  }

  // ----- When the edit takes the last line of the fence ----------------------

  predicate OpensFence(lines: seq<string>) {
    lines != [] && IsDashes(lines[0]) && CloseIndex(lines, 1) < |lines|
  }

  lemma {:induction false} NothingToAdd(changes: seq<Change>)
    requires forall k :: 0 <= k < |changes| ==> changes[k].value.None?
    ensures NewLines(changes) == []
  {
    if changes == [] {
    } else {
      NothingToAdd(changes[1..]);
    }
  }

  lemma EmptiedMeansRemoval(fence: seq<string>, changes: seq<Change>)
    requires IsDict(changes) && ApplyChanges(fence, changes) == []
    ensures forall k :: 0 <= k < |changes| ==> changes[k].value.None?
    ensures ApplyChanges([], changes) == []
  {
    forall k | 0 <= k < |changes|
      ensures changes[k].value.None?
    {
      if changes[k].value.Some? {
        SomethingIsWritten(fence, changes, k);
      }
    }
    NothingToAdd(changes);
  }

  /** No line carries a key that is to be removed. */
  predicate LacksAll(fence: seq<string>, changes: seq<Change>) {
    forall k :: 0 <= k < |changes| ==> Lacks(fence, changes[k].key)
  }

  /** Removals leave a fence as it is exactly when it lacks all their keys. */
  lemma RemovalsOfNothingExactly(fence: seq<string>, changes: seq<Change>)
    requires IsDict(changes) && forall k :: 0 <= k < |changes| ==> changes[k].value.None?
    ensures ApplyChanges(fence, changes) == fence <==> LacksAll(fence, changes)
  {
    if LacksAll(fence, changes) {
      NothingRemoved(fence, changes);
    } else {
      var k, i :| 0 <= k < |changes| && 0 <= i < |fence| && LineKey(fence[i]) == Some(changes[k].key);
      assert HasChange(changes, changes[k].key);
      ChangeIsMember(changes, changes[k].key);
      CarriersByIndex(fence, changes[k].key, i);
      CarriersAfter(fence, changes, changes[k].key);
    }
  }

  lemma {:induction false} NothingRemoved(fence: seq<string>, changes: seq<Change>)
    requires LacksAll(fence, changes) && forall k :: 0 <= k < |changes| ==> changes[k].value.None?
    ensures ApplyChanges(fence, changes) == fence
  {
    if fence == [] {
      NothingToAdd(changes);
    } else {
      assert !IsSet(changes, fence[0]);
      NothingRemoved(fence[1..], changes);
    }
  }

  /** A text written without a fence is its trimmed prose, and stays it. */
  lemma BodyTwice(body: seq<string>)
    requires AreLines(body)
    ensures JoinFence([], SplitLines(JoinFence([], body))) == JoinFence([], body)
  {
    var prose := StripLeadingBlanks(body);
    BlanksAreASuffix(body);
    if prose == [] {
      SplitLinesCons("", "");
      assert "" + "\n" + "" == "\n" && SplitLines("\n") == [""] && StripLeadingBlanks([""]) == [];
    } else {
      ProseTwice(prose);
    }
  }

  lemma ProseTwice(prose: seq<string>)
    requires AreLines(prose) && prose != [] && !IsBlank(prose[0])
    ensures JoinFence([], SplitLines(JoinFence([], prose))) == JoinFence([], prose)
  {
    var kept := DropTrailingEmpty(prose);
    assert prose[0] != "";
    FinishedText(prose);
    DropTrailingEmptyIdempotent(prose);
    KeepsFirst(prose);
    assert AreLines(kept);
    SplitLinesUnlines(kept);
    FinishedText(kept);
  }

  /** The prose of a body: its lines without leading blank ones and without
      the empty ones at the end. */
  function Trimmed(body: seq<string>): seq<string> {
    DropTrailingEmpty(StripLeadingBlanks(body))
  }

  /** Lines with a fence as the editor writes one: bare dashes around it, and
      below it nothing, or one blank line and trimmed prose. */
  predicate IsWrittenForm(lines: seq<string>) {
    && OpensFence(lines) && SplitFence(lines).fence != []
    && lines == [DASHES] + SplitFence(lines).fence + [DASHES]
                + DropTrailingEmpty([""] + StripLeadingBlanks(SplitFence(lines).body))
  }

  /** Where the edit takes the last line of the fence, the fence goes, and the
      prose is left to speak for itself: editing again changes nothing exactly
      when the prose opens no fence of its own, or one in written form that
      lacks every removed key. */
  lemma EmptiedFenceExactly(text: string, changes: seq<Change>)
    requires IsDict(changes) && ChangedFence(text, changes) == []
    ensures var prose := Trimmed(SplitFence(SplitLines(text)).body);
            SetFrontmatter(SetFrontmatter(text, changes), changes) == SetFrontmatter(text, changes) <==>
              || !OpensFence(prose)
              || (IsWrittenForm(prose) && LacksAll(SplitFence(prose).fence, changes))
  {
    var body := SplitFence(SplitLines(text)).body;
    var prose, once := Trimmed(body), SetFrontmatter(text, changes);
    FenceOfLines(SplitLines(text));
    EmptiedMeansRemoval(SplitFence(SplitLines(text)).fence, changes);
    BareProse(body);
    if !OpensFence(prose) {
      BodyTwice(body);
      NoFenceTwice(once, changes);
    } else {
      OwnFenceExactly(prose, once, changes);
    }
  }

  /** What a body is written as without a fence. */
  lemma BareProse(body: seq<string>)
    requires AreLines(body)
    ensures var prose := Trimmed(body);
            && AreLines(prose)
            && (if prose == [] then JoinFence([], body) == "\n" && SplitLines(JoinFence([], body)) == [""]
                else JoinFence([], body) == Unlines(prose) && SplitLines(JoinFence([], body)) == prose)
  {
    var lines := StripLeadingBlanks(body);
    BlanksAreASuffix(body);
    DropTrailingEmptyIdempotent(lines);
    if lines == [] {
      SplitLinesCons("", "");
      assert "" + "\n" + "" == "\n";
    } else {
      assert lines[0] != "" by { assert IsBlank(""); }
      FinishedText(lines);
      KeepsFirst(lines);
      SplitLinesUnlines(Trimmed(body));
    }
  }

  lemma NoFenceTwice(once: string, changes: seq<Change>)
    requires ApplyChanges([], changes) == [] && !OpensFence(SplitLines(once)) && JoinFence([], SplitLines(once)) == once
    ensures SetFrontmatter(once, changes) == once
  {}

  lemma OwnFenceExactly(prose: seq<string>, once: string, changes: seq<Change>)
    requires IsDict(changes) && forall k :: 0 <= k < |changes| ==> changes[k].value.None?
    requires AreLines(prose) && OpensFence(prose) && once == Unlines(prose) && SplitLines(once) == prose
    ensures SetFrontmatter(once, changes) == once <==>
            IsWrittenForm(prose) && LacksAll(SplitFence(prose).fence, changes)
  {
    var parts := SplitFence(prose);
    FenceOfLines(prose);
    RemovalsOfNothingExactly(parts.fence, changes);
    var again := ApplyChanges(parts.fence, changes);
    assert |prose| == |parts.fence| + 2 + |parts.body|;
    if again == [] {
      BodyOnly(parts.body);
    } else {
      ChangedFenceIsAFence(parts.fence, changes);
      WrittenBrief(again, parts.body);
      var below := DropTrailingEmpty([""] + StripLeadingBlanks(parts.body));
      assert SetFrontmatter(once, changes) == Unlines([DASHES] + again + [DASHES] + below);
      if SetFrontmatter(once, changes) == once {
        FenceIsFound(again, below);
        assert prose == [DASHES] + again + [DASHES] + below;
      }
    }
  }

  /** Prose that is already trimmed is written as it is. */
  lemma TrimmedProse(prose: seq<string>)
    requires AreLines(prose) && prose != [] && !IsBlank(prose[0]) && prose[|prose| - 1] != ""
    ensures JoinFence([], prose) == Unlines(prose) && SplitLines(Unlines(prose)) == prose
  {
    assert prose[0] != "";
    FinishedText(prose);
    SplitLinesUnlines(prose);
  }

  lemma FenceIsTrimmed(l: string, p: string)
    requires IsLine(l) && IsLine(p) && p != ""
    ensures var lines := [DASHES, l, DASHES] + [p];
            JoinFence([], lines) == Unlines(lines) && SplitLines(Unlines(lines)) == lines
  {
    DashesAreDashes();
    FenceIsLines(DASHES, l, [p]);
    TrimmedProse([DASHES, l, DASHES] + [p]);
  }

  lemma FenceOpens(l: string, below: seq<string>)
    requires IsLine(l) && !IsDashes(l)
    ensures SplitFence([DASHES, l, DASHES] + below) == Parts([l], below) && OpensFence([DASHES, l, DASHES] + below)
  {
    var lines := [DASHES, l, DASHES] + below;
    FenceIsFound([l], below);
    assert [DASHES] + [l] + [DASHES] + below == lines;
    DashesAreDashes();
    assert lines[2] == DASHES;
  }

  lemma FenceIsLines(dashes: string, l: string, below: seq<string>)
    requires IsLine(dashes) && IsLine(l) && AreLines(below)
    ensures AreLines([dashes, l, dashes] + below)
  {}

  /** Two fences in a row, each with nothing but the key being removed: the
      second edit takes the second one. */
  lemma RemovingTwiceCanDiffer(l: string, changes: seq<Change>, p: string)
    requires IsLine(l) && !IsDashes(l) && IsDict(changes) && ApplyChanges([l], changes) == []
    requires IsLine(p) && !IsBlank(p) && !IsDashes(p)
    ensures var text := Unlines([DASHES, l, DASHES] + ([DASHES, l, DASHES] + [p]));
            SetFrontmatter(SetFrontmatter(text, changes), changes) != SetFrontmatter(text, changes)
  {
    var rest := [DASHES, l, DASHES] + [p];
    var all := [DASHES, l, DASHES] + rest;
    DashesAreDashes();
    FenceIsLines(DASHES, l, [p]);
    FenceIsLines(DASHES, l, rest);
    SplitLinesUnlines(all);
    FirstFenceGoes(l, changes, rest);
    FenceIsTrimmed(l, p);
    SecondFenceGoes(l, changes, p);
  }

  lemma FirstFenceGoes(l: string, changes: seq<Change>, rest: seq<string>)
    requires IsLine(l) && !IsDashes(l) && ApplyChanges([l], changes) == []
    requires SplitLines(Unlines([DASHES, l, DASHES] + rest)) == [DASHES, l, DASHES] + rest
    ensures SetFrontmatter(Unlines([DASHES, l, DASHES] + rest), changes) == JoinFence([], rest)
  {
    FenceOpens(l, rest);
  }

  lemma SecondFenceGoes(l: string, changes: seq<Change>, p: string)
    requires IsLine(l) && !IsDashes(l) && IsDict(changes) && ApplyChanges([l], changes) == []
    requires SplitLines(Unlines([DASHES, l, DASHES] + [p])) == [DASHES, l, DASHES] + [p]
    ensures var once := Unlines([DASHES, l, DASHES] + [p]); SetFrontmatter(once, changes) != once
  {
    var prose := [DASHES, l, DASHES] + [p];
    FenceOpens(l, [p]);
    EmptiedMeansRemoval([l], changes);
    RemovalsOfNothingExactly([l], changes);
    OwnFenceExactly(prose, Unlines(prose), changes);
  }

  const DISABLE := [Change("disabled", Some(Bool(true)))]

  /** Editing with a dict that only sets values of one line is idempotent on
      every text. */
  lemma SettingIsIdempotent(text: string, changes: seq<Change>)
    requires AreSettable(changes) && changes != [] && forall k :: 0 <= k < |changes| ==> changes[k].value.Some?
    ensures SetFrontmatter(SetFrontmatter(text, changes), changes) == SetFrontmatter(text, changes)
  {
    SomethingIsWritten(SplitFence(SplitLines(text)).fence, changes, 0);
    SetFrontmatterIsIdempotent(text, changes);
  }

  lemma DisableIsSettable()
    ensures AreSettable(DISABLE) && |DISABLE| == 1 && DISABLE[0].value.Some?
  {}

  /** What `disable_inbox_sources` relies on, for every text whatsoever. */
  lemma DisablingIsIdempotent(text: string)
    ensures SetFrontmatter(SetFrontmatter(text, DISABLE), DISABLE) == SetFrontmatter(text, DISABLE)
  {
    DisableIsSettable();
    SettingIsIdempotent(text, DISABLE);
  }

  /** A change that sets a value always leaves a fence. */
  lemma {:induction false} SomethingIsWritten(fence: seq<string>, changes: seq<Change>, k: nat)
    requires IsDict(changes) && k < |changes| && changes[k].value.Some?
    ensures ApplyChanges(fence, changes) != []
  {
    if fence == [] {
      NewLinesWritten(changes, k);
    } else if Rewritten(changes, fence[0]) == [] {
      var key := LineKey(fence[0]).value;
      ChangeIsMember(changes, key);
      assert changes[k].key != key;
      WithoutProperties(changes, key);
      assert changes[k] in Without(changes, key);
      var m :| 0 <= m < |Without(changes, key)| && Without(changes, key)[m] == changes[k];
      SomethingIsWritten(fence[1..], Without(changes, key), m);
    }
  }

  lemma {:induction false} NewLinesWritten(changes: seq<Change>, k: nat)
    requires k < |changes| && changes[k].value.Some?
    ensures NewLines(changes) != []
  {
    if k == 0 {
    } else {
      NewLinesWritten(changes[1..], k - 1);
    }
  }
}
