/** The SEARCH/REPLACE engine (`agent/apply.py`): the fence parser and the
    literal, all-or-nothing applier.
*/
module ApplyEdits {
  import opened Prelude
  import opened PyText

  const SEARCH_MARKER := "<<<<<<< SEARCH"
  const DIVIDER_MARKER := "======="
  const REPLACE_MARKER := ">>>>>>> REPLACE"

  /** One edit; an empty `search` means "create this content". */
  datatype Block = Block(search: string, replace: string)

  datatype ErrorKind = Malformed | ZeroMatch | MultiMatch | CreateConflict

  datatype ApplyError = ApplyError(kind: ErrorKind, blockIndex: nat)

  // ----- The grammar of a reply --------------------------------------------

  /** What a line is to the parser, by its stripped text. The grammar below
      holds for any way to classify lines; `KindOf` is the parser's. */
  datatype LineKind = Opener | Divider | Closer | Plain

  type Classifier = string -> LineKind

  function KindOf(l: string): LineKind {
    var text := Strip(l);
    if text == SEARCH_MARKER then Opener
    else if text == DIVIDER_MARKER then Divider
    else if text == REPLACE_MARKER then Closer
    else Plain
  }

  /** The line is this text and blanks around it. */
  ghost predicate Shows(l: string, text: string) {
    exists left, right :: AreBlanks(left) && AreBlanks(right) && l == left + text + right
  }

  /** A marker is a line that shows nothing but one of the three texts. */
  lemma MarkersAreExact(l: string)
    ensures KindOf(l) == Opener <==> Shows(l, "<<<<<<< SEARCH")
    ensures KindOf(l) == Divider <==> Shows(l, "=======")
    ensures KindOf(l) == Closer <==> Shows(l, ">>>>>>> REPLACE")
  {
    StripExactly(l, "<<<<<<< SEARCH");
    StripExactly(l, "=======");
    StripExactly(l, ">>>>>>> REPLACE");
  }

  predicate NoMarkers(kind: Classifier, lines: seq<string>, start: nat, end: nat)
    requires end <= |lines|
  {
    forall i :: start <= i < end ==> kind(lines[i]) == Plain
  }

  /** A fence opens at line `i`: its divider is line `d`, its closer line `c`,
      and everything in between is plain. */
  predicate IsFence(kind: Classifier, lines: seq<string>, i: nat, d: nat, c: nat) {
    && i < d < c < |lines|
    && kind(lines[i]) == Opener && kind(lines[d]) == Divider && kind(lines[c]) == Closer
    && NoMarkers(kind, lines, i + 1, d) && NoMarkers(kind, lines, d + 1, c)
  }

  function FenceBlock(lines: seq<string>, i: nat, d: nat, c: nat): Block
    requires i < d < c < |lines|
  {
    Block(Join("\n", lines[i + 1..d]), Join("\n", lines[d + 1..c]))
  }

  /** From line `i` on, `lines` is narration and complete fences, and `blocks`
      are the fences in order. Only a SEARCH marker ends narration. */
  ghost predicate Derives(kind: Classifier, lines: seq<string>, i: nat, blocks: seq<Block>)
    requires i <= |lines|
    decreases |lines| - i
  {
    if i == |lines| then blocks == []
    else if kind(lines[i]) != Opener then Derives(kind, lines, i + 1, blocks)
    else
      blocks != [] && exists d: nat, c: nat :: IsFence(kind, lines, i, d, c) && FenceBlock(lines, i, d, c) == blocks[0]
                                     && Derives(kind, lines, c + 1, blocks[1..])
  }

  lemma FenceIsUnique(kind: Classifier, lines: seq<string>, i: nat, d: nat, c: nat, d': nat, c': nat)
    requires IsFence(kind, lines, i, d, c) && IsFence(kind, lines, i, d', c')
    ensures d == d' && c == c'
  {
    assert kind(lines[d]) != Plain && kind(lines[d']) != Plain && kind(lines[c]) != Plain && kind(lines[c']) != Plain;
  }

  /** With a fence at `i`, the readings from `i` on are its block followed by
      the readings from after it. */
  lemma FenceFirst(kind: Classifier, lines: seq<string>, i: nat, d: nat, c: nat, blocks: seq<Block>)
    requires IsFence(kind, lines, i, d, c)
    ensures Derives(kind, lines, i, blocks) <==>
            blocks != [] && blocks[0] == FenceBlock(lines, i, d, c) && Derives(kind, lines, c + 1, blocks[1..])
  {
    if Derives(kind, lines, i, blocks) {
      var d': nat, c': nat :| IsFence(kind, lines, i, d', c') && FenceBlock(lines, i, d', c') == blocks[0]
        && Derives(kind, lines, c' + 1, blocks[1..]);
      FenceIsUnique(kind, lines, i, d, c, d', c');
    }
  }

  lemma FenceAt(kind: Classifier, lines: seq<string>, i: nat, blocks: seq<Block>) returns (d: nat, c: nat)
    requires i < |lines| && kind(lines[i]) == Opener && Derives(kind, lines, i, blocks)
    ensures IsFence(kind, lines, i, d, c) && blocks != [] && blocks[0] == FenceBlock(lines, i, d, c)
    ensures Derives(kind, lines, c + 1, blocks[1..])
  {
    d, c :| IsFence(kind, lines, i, d, c) && FenceBlock(lines, i, d, c) == blocks[0]
      && Derives(kind, lines, c + 1, blocks[1..]);
  }

  lemma FirstFenceAgrees(kind: Classifier, lines: seq<string>, i: nat, a: seq<Block>, b: seq<Block>) returns (next: nat)
    requires i < |lines| && kind(lines[i]) == Opener && Derives(kind, lines, i, a) && Derives(kind, lines, i, b)
    ensures i < next <= |lines| && a != [] && b != [] && a[0] == b[0]
    ensures Derives(kind, lines, next, a[1..]) && Derives(kind, lines, next, b[1..])
  {
    var d, c := FenceAt(kind, lines, i, a);
    FenceFirst(kind, lines, i, d, c, b);
    next := c + 1;
  }

  lemma NarrationAgrees(kind: Classifier, lines: seq<string>, i: nat, a: seq<Block>)
    requires i < |lines| && kind(lines[i]) != Opener && Derives(kind, lines, i, a)
    ensures Derives(kind, lines, i + 1, a)
  {}

  /** A reply has at most one reading. */
  lemma {:induction false} ReadingIsUnique(kind: Classifier, lines: seq<string>, i: nat, a: seq<Block>, b: seq<Block>)
    requires i <= |lines| && Derives(kind, lines, i, a) && Derives(kind, lines, i, b)
    ensures a == b
    decreases |lines| - i
  {
    if i == |lines| {
    } else if kind(lines[i]) != Opener {
      NarrationAgrees(kind, lines, i, a);
      NarrationAgrees(kind, lines, i, b);
      ReadingIsUnique(kind, lines, i + 1, a, b);
    } else {
      var next := FirstFenceAgrees(kind, lines, i, a, b);
      ReadingIsUnique(kind, lines, next, a[1..], b[1..]);
      assert a == [a[0]] + a[1..] && b == [b[0]] + b[1..];
    }
  }

  /** The blocks read so far start every reading of the whole, and what may
      follow them is what the lines from `i` on derive. */
  ghost predicate ReadsAs(kind: Classifier, lines: seq<string>, i: nat, blocks: seq<Block>)
    requires i <= |lines|
  {
    forall bs :: Derives(kind, lines, 0, bs) <==> blocks <= bs && Derives(kind, lines, i, bs[|blocks|..])
  }

  lemma TakeFence(kind: Classifier, lines: seq<string>, i: nat, blocks: seq<Block>, d: nat, c: nat)
    requires i < |lines| && ReadsAs(kind, lines, i, blocks) && IsFence(kind, lines, i, d, c)
    ensures ReadsAs(kind, lines, c + 1, blocks + [FenceBlock(lines, i, d, c)])
  {
    var block := FenceBlock(lines, i, d, c);
    forall bs
      ensures Derives(kind, lines, 0, bs) <==> blocks + [block] <= bs && Derives(kind, lines, c + 1, bs[|blocks| + 1..])
    {
      if blocks <= bs {
        var more := bs[|blocks|..];
        FenceFirst(kind, lines, i, d, c, more);
        assert more != [] ==> more[1..] == bs[|blocks| + 1..];
        assert bs == blocks + more;
      }
    }
  }

  /** A fence that is not properly closed leaves the text without a reading. */
  lemma BrokenFence(kind: Classifier, lines: seq<string>, i: nat, blocks: seq<Block>)
    requires i < |lines| && ReadsAs(kind, lines, i, blocks) && kind(lines[i]) == Opener
    requires forall d: nat, c: nat :: !IsFence(kind, lines, i, d, c)
    ensures forall bs :: !Derives(kind, lines, 0, bs)
  {}

  /** `parse_blocks`: the blocks of the one reading the text has, and an error
      exactly when it has none. */
  method ParseBlocks(text: string) returns (r: Result<seq<Block>, ApplyError>)
    ensures r.Ok? ==> Derives(KindOf, SplitLines(text), 0, r.value)
    ensures r.Err? ==> r.error.kind == Malformed && forall bs :: !Derives(KindOf, SplitLines(text), 0, bs)
  {
    r := ParseLines(KindOf, SplitLines(text));
  }

  method ParseLines(kind: Classifier, lines: seq<string>) returns (r: Result<seq<Block>, ApplyError>)
    ensures r.Ok? ==> Derives(kind, lines, 0, r.value)
    ensures r.Err? ==> r.error.kind == Malformed && forall bs :: !Derives(kind, lines, 0, bs)
  {
    var blocks: seq<Block> := [];
    var i := 0;
    while i < |lines|
      invariant 0 <= i <= |lines| && ReadsAs(kind, lines, i, blocks)
    {
      if kind(lines[i]) != Opener {
        i := i + 1;
      } else {
        var d := ScanHalf(kind, lines, i + 1);
        if d == |lines| || kind(lines[d]) != Divider {
          NoDivider(kind, lines, i, d);
          BrokenFence(kind, lines, i, blocks);
          return Err(ApplyError(Malformed, |blocks|));
        }
        var c := ScanHalf(kind, lines, d + 1);
        if c == |lines| || kind(lines[c]) != Closer {
          NoCloser(kind, lines, i, d, c);
          BrokenFence(kind, lines, i, blocks);
          return Err(ApplyError(Malformed, |blocks|));
        }
        TakeFence(kind, lines, i, blocks, d, c);
        blocks := blocks + [FenceBlock(lines, i, d, c)];
        i := c + 1;
      }
    }
    assert blocks[|blocks|..] == [];
    r := Ok(blocks);
  }

  /** The first marker line from `start` on, or the end. */
  method ScanHalf(kind: Classifier, lines: seq<string>, start: nat) returns (end: nat)
    requires start <= |lines|
    ensures start <= end <= |lines| && NoMarkers(kind, lines, start, end)
            && (end < |lines| ==> kind(lines[end]) != Plain)
  {
    end := start;
    while end < |lines| && kind(lines[end]) == Plain
      invariant start <= end <= |lines| && NoMarkers(kind, lines, start, end)
    {
      end := end + 1;
    }
  }

  lemma NoDivider(kind: Classifier, lines: seq<string>, i: nat, d: nat)
    requires i < d <= |lines| && NoMarkers(kind, lines, i + 1, d)
    requires d < |lines| ==> kind(lines[d]) != Plain && kind(lines[d]) != Divider
    ensures forall d': nat, c: nat :: !IsFence(kind, lines, i, d', c)
  {
    forall d': nat, c: nat
      ensures !IsFence(kind, lines, i, d', c)
    {
      assert d' < |lines| && kind(lines[d']) == Divider ==> kind(lines[d']) != Plain;
    }
  }

  lemma NoCloser(kind: Classifier, lines: seq<string>, i: nat, d: nat, c: nat)
    requires i < d < c <= |lines| && NoMarkers(kind, lines, i + 1, d) && kind(lines[d]) == Divider
    requires NoMarkers(kind, lines, d + 1, c) && (c < |lines| ==> kind(lines[c]) != Plain && kind(lines[c]) != Closer)
    ensures forall d': nat, c': nat :: !IsFence(kind, lines, i, d', c')
  {
    forall d': nat, c': nat
      ensures !IsFence(kind, lines, i, d', c')
    {
      assert kind(lines[d]) != Plain;
      assert d' < |lines| && kind(lines[d']) == Divider ==> kind(lines[d']) != Plain;
      assert c' < |lines| && kind(lines[c']) == Closer ==> kind(lines[c']) != Plain;
    }
  }

  /** A fence opens at line `i`, and is properly divided and closed. */
  ghost predicate IsWhole(kind: Classifier, lines: seq<string>, i: nat) {
    exists d: nat, c: nat :: IsFence(kind, lines, i, d, c)
  }

  /** Every SEARCH marker from line `i` on is followed by a divider and a
      REPLACE marker, with no other marker in between. */
  ghost predicate AreWhole(kind: Classifier, lines: seq<string>, i: nat) {
    forall k :: i <= k < |lines| && kind(lines[k]) == Opener ==> IsWhole(kind, lines, k)
  }

  lemma {:induction false} WholeFencesDerive(kind: Classifier, lines: seq<string>, i: nat) returns (bs: seq<Block>)
    requires i <= |lines| && AreWhole(kind, lines, i)
    ensures Derives(kind, lines, i, bs)
    decreases |lines| - i
  {
    if i == |lines| {
      bs := [];
    } else if kind(lines[i]) != Opener {
      bs := WholeFencesDerive(kind, lines, i + 1);
    } else {
      assert IsWhole(kind, lines, i);
      var d: nat, c: nat :| IsFence(kind, lines, i, d, c);
      var rest := WholeFencesDerive(kind, lines, c + 1);
      bs := [FenceBlock(lines, i, d, c)] + rest;
      assert bs[1..] == rest;
    }
  }

  lemma {:induction false} DerivedFencesAreWhole(kind: Classifier, lines: seq<string>, i: nat, bs: seq<Block>, k: nat)
    requires i <= k < |lines| && kind(lines[k]) == Opener && Derives(kind, lines, i, bs)
    ensures IsWhole(kind, lines, k)
    decreases |lines| - i
  {
    if kind(lines[i]) != Opener {
      DerivedFencesAreWhole(kind, lines, i + 1, bs, k);
    } else {
      var d, c := FenceAt(kind, lines, i, bs);
      if k > i {
        assert k > c by { assert kind(lines[k]) != Plain; }
        DerivedFencesAreWhole(kind, lines, c + 1, bs[1..], k);
      }
    }
  }

  /** A text is accepted exactly when every SEARCH marker in it is followed by
      a divider and a REPLACE marker, in this order and with no marker in
      between. */
  lemma AcceptedExactly(kind: Classifier, lines: seq<string>)
    ensures (exists bs :: Derives(kind, lines, 0, bs)) <==> AreWhole(kind, lines, 0)
  {
    if bs :| Derives(kind, lines, 0, bs) {
      forall k | 0 <= k < |lines| && kind(lines[k]) == Opener
        ensures IsWhole(kind, lines, k)
      {
        DerivedFencesAreWhole(kind, lines, 0, bs, k);
      }
    }
    if AreWhole(kind, lines, 0) {
      var bs := WholeFencesDerive(kind, lines, 0);
      assert Derives(kind, lines, 0, bs);
    }
  }

  /** The fence that opens at `i` is out of order: its first marker, at `m`, is
      no divider, or the one after that, at `c`, does not close it. */
  predicate IsOutOfOrder(kind: Classifier, lines: seq<string>, i: nat, m: nat, c: nat) {
    && i < m < |lines| && kind(lines[i]) == Opener && NoMarkers(kind, lines, i + 1, m)
    && (|| kind(lines[m]) == Opener || kind(lines[m]) == Closer
        || (&& m < c < |lines| && kind(lines[m]) == Divider && NoMarkers(kind, lines, m + 1, c)
            && (kind(lines[c]) == Opener || kind(lines[c]) == Divider)))
  }

  /** A text with a fence out of order anywhere is rejected, whatever comes
      before and after it. */
  lemma OutOfOrderIsRejected(kind: Classifier, lines: seq<string>, start: nat, i: nat, m: nat, c: nat, bs: seq<Block>)
    requires IsOutOfOrder(kind, lines, i, m, c) && start <= i
    ensures !Derives(kind, lines, start, bs)
  {
    if kind(lines[m]) != Divider {
      NoDivider(kind, lines, i, m);
    } else {
      NoCloser(kind, lines, i, m, c);
    }
    if Derives(kind, lines, start, bs) {
      DerivedFencesAreWhole(kind, lines, start, bs, i);
    }
  }

  /** So is one with a SEARCH marker that no REPLACE marker follows. */
  lemma UnterminatedIsRejected(kind: Classifier, lines: seq<string>, start: nat, opener: nat, bs: seq<Block>)
    requires start <= opener < |lines| && kind(lines[opener]) == Opener
    requires forall k :: opener < k < |lines| ==> kind(lines[k]) != Closer
    ensures !Derives(kind, lines, start, bs)
  {
    if Derives(kind, lines, start, bs) {
      DerivedFencesAreWhole(kind, lines, start, bs, opener);
    }
  }

  // ----- Printing -----------------------------------------------------------

  /** One edit with the narration before it. */
  datatype Markers = Markers(opener: string, divider: string, closer: string)

  datatype Said = Said(narration: seq<string>, block: Block)

  function HalfLines(half: string): seq<string> {
    if half == "" then [] else Split(half, '\n')
  }

  function FenceLines(m: Markers, b: Block): seq<string> {
    [m.opener] + HalfLines(b.search) + [m.divider] + HalfLines(b.replace) + [m.closer]
  }

  function ReplyLines(m: Markers, said: seq<Said>, closing: seq<string>): seq<string> {
    if said == [] then closing else said[0].narration + FenceLines(m, said[0].block) + ReplyLines(m, said[1..], closing)
  }

  /** Only line feeds break the half, and none of its lines is a marker. */
  predicate IsPrintable(kind: Classifier, half: string) {
    AreLines(HalfLines(half)) && NoMarkers(kind, HalfLines(half), 0, |HalfLines(half)|)
  }

  predicate IsNarration(kind: Classifier, ls: seq<string>) {
    AreLines(ls) && forall i :: 0 <= i < |ls| ==> kind(ls[i]) != Opener
  }

  predicate IsPrintableReply(kind: Classifier, said: seq<Said>, closing: seq<string>) {
    && IsNarration(kind, closing)
    && forall i :: 0 <= i < |said| ==>
         IsNarration(kind, said[i].narration) && IsPrintable(kind, said[i].block.search)
           && IsPrintable(kind, said[i].block.replace)
  }

  function Blocks(said: seq<Said>): seq<Block> {
    if said == [] then [] else [said[0].block] + Blocks(said[1..])
  }

  lemma {:induction false} JoinSplit(s: string, c: char)
    ensures Join([c], Split(s, c)) == s
  {
    if s == "" {
    } else {
      JoinSplit(s[1..], c);
      var rest := Split(s[1..], c);
      assert s == [s[0]] + s[1..];
      if s[0] != c && |rest| > 1 {
        assert Split(s, c)[1..] == rest[1..];
        assert [s[0]] + (rest[0] + [c] + Join([c], rest[1..])) == [s[0]] + rest[0] + [c] + Join([c], rest[1..]);
      } else if s[0] == c {
        assert Split(s, c)[1..] == rest;
      }
    }
  }

  lemma HalfRoundTrip(half: string)
    ensures Join("\n", HalfLines(half)) == half
  {
    JoinSplit(half, '\n');
  }

  /** Marker lines of the three kinds. */
  ghost predicate AreMarkers(kind: Classifier, m: Markers) {
    && IsLine(m.opener) && IsLine(m.divider) && IsLine(m.closer)
    && kind(m.opener) == Opener && kind(m.divider) == Divider && kind(m.closer) == Closer
  }

  const MARKERS := Markers(SEARCH_MARKER, DIVIDER_MARKER, REPLACE_MARKER)

  lemma OpenerIsOne()
    ensures IsLine(SEARCH_MARKER) && KindOf(SEARCH_MARKER) == Opener
  {
    StripFixpoint(SEARCH_MARKER);
  }

  lemma DividerIsOne()
    ensures IsLine(DIVIDER_MARKER) && KindOf(DIVIDER_MARKER) == Divider
  {
    StripFixpoint(DIVIDER_MARKER);
    assert DIVIDER_MARKER[0] != SEARCH_MARKER[0];
  }

  lemma CloserIsOne()
    ensures IsLine(REPLACE_MARKER) && KindOf(REPLACE_MARKER) == Closer
  {
    StripFixpoint(REPLACE_MARKER);
    assert REPLACE_MARKER[0] != SEARCH_MARKER[0] && REPLACE_MARKER[0] != DIVIDER_MARKER[0];
  }

  lemma OwnMarkers()
    ensures AreMarkers(KindOf, MARKERS)
  {
    OpenerIsOne();
    DividerIsOne();
    CloserIsOne();
  }

  /** `parse_blocks` inverts the printer: whatever narration surrounds them,
      the printed fences read back as the same blocks, and (ReadingIsUnique)
      as nothing else. */
  lemma ParseInvertsPrint(said: seq<Said>, closing: seq<string>)
    requires IsPrintableReply(KindOf, said, closing)
    ensures Derives(KindOf, SplitLines(Unlines(ReplyLines(MARKERS, said, closing))), 0, Blocks(said))
  {
    OwnMarkers();
    PrintedReads(KindOf, MARKERS, said, closing);
  }

  lemma PrintedReads(kind: Classifier, m: Markers, said: seq<Said>, closing: seq<string>)
    requires AreMarkers(kind, m) && IsPrintableReply(kind, said, closing)
    ensures Derives(kind, SplitLines(Unlines(ReplyLines(m, said, closing))), 0, Blocks(said))
  {
    var lines := ReplyLines(m, said, closing);
    ReplyIsLines(kind, m, said, closing);
    SplitLinesUnlines(lines);
    assert lines[0..] == lines;
    ReplyDerives(kind, m, said, closing, lines, 0);
  }

  lemma LinesConcat(a: seq<string>, b: seq<string>)
    requires AreLines(a) && AreLines(b)
    ensures AreLines(a + b)
  {}

  lemma FenceIsLines(kind: Classifier, m: Markers, b: Block)
    requires AreMarkers(kind, m) && IsPrintable(kind, b.search) && IsPrintable(kind, b.replace)
    ensures AreLines(FenceLines(m, b))
  {
    LinesConcat([m.opener], HalfLines(b.search));
    LinesConcat([m.opener] + HalfLines(b.search), [m.divider]);
    LinesConcat([m.opener] + HalfLines(b.search) + [m.divider], HalfLines(b.replace));
    LinesConcat([m.opener] + HalfLines(b.search) + [m.divider] + HalfLines(b.replace), [m.closer]);
  }

  lemma {:induction false} ReplyIsLines(kind: Classifier, m: Markers, said: seq<Said>, closing: seq<string>)
    requires AreMarkers(kind, m) && IsPrintableReply(kind, said, closing)
    ensures AreLines(ReplyLines(m, said, closing))
  {
    if said == [] {
    } else {
      ReplyIsLines(kind, m, said[1..], closing);
      FenceIsLines(kind, m, said[0].block);
      LinesConcat(said[0].narration, FenceLines(m, said[0].block));
      LinesConcat(said[0].narration + FenceLines(m, said[0].block), ReplyLines(m, said[1..], closing));
    }
  }

  lemma {:induction false} ReplyDerives(kind: Classifier, m: Markers, said: seq<Said>, closing: seq<string>,
                                        lines: seq<string>, i: nat)
    requires AreMarkers(kind, m) && IsPrintableReply(kind, said, closing)
    requires i <= |lines| && lines[i..] == ReplyLines(m, said, closing)
    ensures Derives(kind, lines, i, Blocks(said))
  {
    if said == [] {
      assert lines[i..i + |closing|] == lines[i..] == closing;
      NarrationDerives(kind, closing, lines, i, []);
    } else {
      RestIsPrintable(kind, said, closing);
      var narration, b, rest := said[0].narration, said[0].block, ReplyLines(m, said[1..], closing);
      Layout(lines, i, narration, FenceLines(m, b), rest);
      ReplyDerives(kind, m, said[1..], closing, lines, i + |narration| + |FenceLines(m, b)|);
      SaidDerives(kind, m, said[0], lines, i, Blocks(said[1..]));
      assert Blocks(said) == [b] + Blocks(said[1..]);
    }
  }

  /** One printed edit with its narration. */
  lemma SaidDerives(kind: Classifier, m: Markers, one: Said, lines: seq<string>, i: nat, blocks: seq<Block>)
    requires AreMarkers(kind, m) && IsNarration(kind, one.narration)
    requires IsPrintable(kind, one.block.search) && IsPrintable(kind, one.block.replace)
    requires var d := i + |one.narration|;
             && d + |FenceLines(m, one.block)| <= |lines|
             && lines[i..d] == one.narration && lines[d..d + |FenceLines(m, one.block)|] == FenceLines(m, one.block)
             && Derives(kind, lines, d + |FenceLines(m, one.block)|, blocks)
    ensures Derives(kind, lines, i, [one.block] + blocks)
  {
    FenceDerives(kind, m, one.block, lines, i + |one.narration|, blocks);
    NarrationDerives(kind, one.narration, lines, i, [one.block] + blocks);
  }

  lemma RestIsPrintable(kind: Classifier, said: seq<Said>, closing: seq<string>)
    requires IsPrintableReply(kind, said, closing) && said != []
    ensures IsPrintableReply(kind, said[1..], closing) && IsNarration(kind, said[0].narration)
    ensures IsPrintable(kind, said[0].block.search) && IsPrintable(kind, said[0].block.replace)
  {}

  lemma Layout(lines: seq<string>, i: nat, a: seq<string>, b: seq<string>, c: seq<string>)
    requires i <= |lines| && lines[i..] == a + b + c
    ensures i + |a| + |b| <= |lines| && lines[i..i + |a|] == a
    ensures lines[i + |a|..i + |a| + |b|] == b && lines[i + |a| + |b|..] == c
  {
    var rest := lines[i..];
    assert lines[i..i + |a|] == rest[..|a|];
    assert lines[i + |a|..i + |a| + |b|] == rest[|a|..|a| + |b|];
    assert lines[i + |a| + |b|..] == rest[|a| + |b|..];
  }

  lemma {:induction false} NarrationDerives(kind: Classifier, narration: seq<string>, lines: seq<string>, i: nat,
                                            blocks: seq<Block>)
    requires IsNarration(kind, narration) && i + |narration| <= |lines| && lines[i..i + |narration|] == narration
    requires Derives(kind, lines, i + |narration|, blocks)
    ensures Derives(kind, lines, i, blocks)
  {
    if narration == [] {
    } else {
      assert lines[i] == lines[i..i + |narration|][0];
      assert lines[i + 1..i + |narration|] == lines[i..i + |narration|][1..];
      NarrationDerives(kind, narration[1..], lines, i + 1, blocks);
    }
  }

  lemma SliceAt<T>(lines: seq<T>, i: nat, slice: seq<T>, a: nat, b: nat)
    requires i + |slice| <= |lines| && lines[i..i + |slice|] == slice && a <= b <= |slice|
    ensures lines[i + a..i + b] == slice[a..b] && (a < |slice| ==> lines[i + a] == slice[a])
  {
    var s := lines[i..i + |slice|];
    forall k | a <= k < |slice|
      ensures lines[i + k] == slice[k]
    {
      assert s[k] == lines[i + k];
    }
    assert |lines[i + a..i + b]| == |slice[a..b]|;
  }

  lemma FenceParts<T>(lines: seq<T>, i: nat, opener: T, first: seq<T>, divider: T, second: seq<T>, closer: T)
    requires i + 3 + |first| + |second| <= |lines|
    requires lines[i..i + 3 + |first| + |second|] == [opener] + first + [divider] + second + [closer]
    ensures var d := i + 1 + |first|;
            var c := d + 1 + |second|;
            && lines[i] == opener && lines[d] == divider && lines[c] == closer
            && lines[i + 1..d] == first && lines[d + 1..c] == second
  {
    var fence := [opener] + first + [divider] + second + [closer];
    var d := 1 + |first|;
    var c := d + 1 + |second|;
    assert fence[0] == opener && fence[d] == divider && fence[c] == closer;
    assert fence[1..d] == first && fence[d + 1..c] == second;
    SliceAt(lines, i, fence, 0, 0);
    SliceAt(lines, i, fence, 1, d);
    SliceAt(lines, i, fence, d, d);
    SliceAt(lines, i, fence, d + 1, c);
    SliceAt(lines, i, fence, c, c);
  }

  lemma PlainSlice(kind: Classifier, lines: seq<string>, from: nat, to: nat, half: seq<string>)
    requires from <= to <= |lines| && lines[from..to] == half && NoMarkers(kind, half, 0, |half|)
    ensures NoMarkers(kind, lines, from, to)
  {
    forall k | from <= k < to
      ensures kind(lines[k]) == Plain
    {
      assert lines[k] == half[k - from];
    }
  }

  lemma FenceIsRead(kind: Classifier, m: Markers, b: Block, lines: seq<string>, i: nat)
    requires AreMarkers(kind, m) && IsPrintable(kind, b.search) && IsPrintable(kind, b.replace)
    requires i + |FenceLines(m, b)| <= |lines| && lines[i..i + |FenceLines(m, b)|] == FenceLines(m, b)
    ensures var d := i + 1 + |HalfLines(b.search)|;
            var c := d + 1 + |HalfLines(b.replace)|;
            c + 1 == i + |FenceLines(m, b)| && IsFence(kind, lines, i, d, c) && FenceBlock(lines, i, d, c) == b
  {
    var d := i + 1 + |HalfLines(b.search)|;
    var c := d + 1 + |HalfLines(b.replace)|;
    FenceParts(lines, i, m.opener, HalfLines(b.search), m.divider, HalfLines(b.replace), m.closer);
    PlainSlice(kind, lines, i + 1, d, HalfLines(b.search));
    PlainSlice(kind, lines, d + 1, c, HalfLines(b.replace));
    HalfRoundTrip(b.search);
    HalfRoundTrip(b.replace);
  }

  lemma FenceDerives(kind: Classifier, m: Markers, b: Block, lines: seq<string>, i: nat, blocks: seq<Block>)
    requires AreMarkers(kind, m) && IsPrintable(kind, b.search) && IsPrintable(kind, b.replace)
    requires i + |FenceLines(m, b)| <= |lines| && lines[i..i + |FenceLines(m, b)|] == FenceLines(m, b)
    requires Derives(kind, lines, i + |FenceLines(m, b)|, blocks)
    ensures Derives(kind, lines, i, [b] + blocks)
  {
    var d := i + 1 + |HalfLines(b.search)|;
    FenceIsRead(kind, m, b, lines, i);
    assert ([b] + blocks)[1..] == blocks;
    FenceFirst(kind, lines, i, d, d + 1 + |HalfLines(b.replace)|, [b] + blocks);
  }

  // ----- Applying -----------------------------------------------------------

  predicate OccursOnceAt(s: string, sub: string, i: nat) {
    OccursAt(s, sub, i) && forall j: nat | j <= |s| :: OccursAt(s, sub, j) ==> j == i
  }

  /** What one block does to the working copy, when it applies at all. */
  ghost predicate Applies(w: string, b: Block, w': string) {
    if b.search == "" then w == "" && w' == b.replace
    else exists i: nat :: OccursOnceAt(w, b.search, i) && w' == w[..i] + b.replace + w[i + |b.search|..]
  }

  /** The working copies of a batch: each block takes one to the next. */
  ghost predicate IsRun(copies: seq<string>, blocks: seq<Block>) {
    |copies| == |blocks| + 1 && forall i :: 0 <= i < |blocks| ==> Applies(copies[i], blocks[i], copies[i + 1])
  }

  /** A block applies in at most one way. */
  lemma AppliesIsUnique(w: string, b: Block, x: string, y: string)
    requires Applies(w, b, x) && Applies(w, b, y)
    ensures x == y
  {
    if b.search != "" {
      var i: nat :| OccursOnceAt(w, b.search, i) && x == w[..i] + b.replace + w[i + |b.search|..];
      var j: nat :| OccursOnceAt(w, b.search, j) && y == w[..j] + b.replace + w[j + |b.search|..];
      assert i == j;
    }
  }

  /** Two runs from the same text go through the same copies. */
  lemma {:induction false} RunIsUnique(a: seq<string>, b: seq<string>, blocks: seq<Block>, n: nat, i: nat)
    requires n <= |blocks| && IsRun(a, blocks[..n]) && IsRun(b, blocks) && a[0] == b[0] && i <= n
    ensures a[i] == b[i]
  {
    if i == 0 {
    } else {
      RunIsUnique(a, b, blocks, n, i - 1);
      assert blocks[..n][i - 1] == blocks[i - 1];
      AppliesIsUnique(a[i - 1], blocks[i - 1], a[i], b[i]);
    }
  }

  /** Why a block does not apply to the working copy `w`. */
  ghost predicate IsBlame(kind: ErrorKind, b: Block, w: string) {
    match kind
    case CreateConflict => b.search == "" && w != ""
    case ZeroMatch => b.search != "" && forall i: nat :: !OccursAt(w, b.search, i)
    case MultiMatch =>
      b.search != ""
      && exists i: nat, j: nat :: i < j && OccursAt(w, b.search, i) && OccursAt(w, b.search, j)
    case Malformed => false
  }

  /** A block applies exactly when nothing is to blame. */
  lemma AppliesOrBlame(w: string, b: Block)
    ensures (exists w' :: Applies(w, b, w')) <==> forall kind :: !IsBlame(kind, b, w)
  {
    if b.search == "" {
      assert w == "" ==> Applies(w, b, b.replace);
    } else if i: nat :| OccursAt(w, b.search, i) {
      if OccursOnceAt(w, b.search, i) {
        assert Applies(w, b, w[..i] + b.replace + w[i + |b.search|..]);
      } else {
        var j: nat :| j <= |w| && OccursAt(w, b.search, j) && j != i;
        assert IsBlame(MultiMatch, b, w) by { assert i < j || j < i; }
      }
    } else {
      assert IsBlame(ZeroMatch, b, w);
    }
    assert IsBlame(CreateConflict, b, w) ==> forall w' :: !Applies(w, b, w');
  }

  lemma BlameBlocks(kind: ErrorKind, b: Block, w: string, w': string)
    ensures IsBlame(kind, b, w) ==> !Applies(w, b, w')
  {
    AppliesOrBlame(w, b);
  }

  /** `apply_edits`: the text every block in turn leads to, or the first block
      that cannot be applied and why. Occurrences are counted with overlaps,
      and a failure means the batch has no run at all. */
  method ApplyEdits(original: string, blocks: seq<Block>)
    returns (r: Result<string, ApplyError>, ghost copies: seq<string>)
    ensures copies != [] && copies[0] == original
    ensures r.Ok? ==> IsRun(copies, blocks) && copies[|blocks|] == r.value
    ensures r.Err? ==>
              && r.error.blockIndex < |blocks| && IsRun(copies, blocks[..r.error.blockIndex])
              && IsBlame(r.error.kind, blocks[r.error.blockIndex], copies[r.error.blockIndex])
    ensures r.Err? ==> forall other :: IsRun(other, blocks) ==> other[0] != original
  {
    var working := original;
    copies := [original];
    for index := 0 to |blocks|
      invariant IsRun(copies, blocks[..index]) && copies[0] == original && copies[index] == working
    {
      var step := ApplyBlock(working, blocks[index]);
      if step.Err? {
        BlameIsFinal(copies, blocks, index, step.error);
        return Err(ApplyError(step.error, index)), copies;
      }
      working := step.value;
      copies := copies + [working];
    }
    assert blocks[..|blocks|] == blocks;
    r := Ok(working);
  }

  method ApplyBlock(working: string, block: Block) returns (r: Result<string, ErrorKind>)
    ensures r.Ok? ==> Applies(working, block, r.value)
    ensures r.Err? ==> IsBlame(r.error, block, working)
  {
    if block.search == "" {
      return if working != "" then Err(CreateConflict) else Ok(block.replace);
    }
    var first := Find(working, block.search, 0);
    if first.None? {
      return Err(ZeroMatch);
    }
    var second := Find(working, block.search, first.value + 1);
    if second.Some? {
      return Err(MultiMatch);
    }
    assert OccursOnceAt(working, block.search, first.value);
    r := Ok(working[..first.value] + block.replace + working[first.value + |block.search|..]);
  }

  lemma BlameIsFinal(copies: seq<string>, blocks: seq<Block>, index: nat, kind: ErrorKind)
    requires index < |blocks| && IsRun(copies, blocks[..index]) && IsBlame(kind, blocks[index], copies[index])
    ensures forall other :: IsRun(other, blocks) ==> other[0] != copies[0]
  {
    forall other | IsRun(other, blocks)
      ensures other[0] != copies[0]
    {
      BlameBlocks(kind, blocks[index], other[index], other[index + 1]);
      if other[0] == copies[0] {
        RunIsUnique(copies, other, blocks, index, index);
      }
    }
  }

  function Swap(b: Block): Block {
    Block(b.replace, b.search)
  }

  /** The batch that undoes `blocks`: halves swapped, last edit first. */
  function Inverse(blocks: seq<Block>): seq<Block> {
    seq(|blocks|, i requires 0 <= i < |blocks| => Swap(blocks[|blocks| - 1 - i]))
  }

  /** Swapping one edit's halves undoes it, empty halves included. */
  lemma UndoOne(w: string, b: Block, w': string, back: string)
    requires Applies(w, b, w') && Applies(w', Swap(b), back)
    ensures back == w
  {
    if b.search == "" {
      if b.replace != "" {
        assert OccursAt(w', b.replace, 0);
      }
    } else {
      var i: nat :| OccursOnceAt(w, b.search, i) && w' == w[..i] + b.replace + w[i + |b.search|..];
      assert w == w[..i] + b.search + w[i + |b.search|..];
      if b.replace != "" {
        assert OccursAt(w', b.replace, i);
        assert w'[..i] == w[..i] && w'[i + |b.replace|..] == w[i + |b.search|..];
      }
    }
  }

  /** Applying edits is undone by the inverse batch whenever that applies: it
      goes back through the very same copies. */
  lemma {:induction false} InverseRestoresTheOriginal(copies: seq<string>, blocks: seq<Block>, back: seq<string>,
                                                      i: nat)
    requires IsRun(copies, blocks) && IsRun(back, Inverse(blocks)) && back[0] == copies[|blocks|] && i <= |blocks|
    ensures back[i] == copies[|blocks| - i]
  {
    if i == 0 {
    } else {
      InverseRestoresTheOriginal(copies, blocks, back, i - 1);
      var k := |blocks| - i;
      assert Inverse(blocks)[i - 1] == Swap(blocks[k]);
      UndoOne(copies[k], blocks[k], copies[k + 1], back[i]);
    }
  }
}
