/** The visit counters of a workflow run (`parse_visits`, `format_visits`):
    a dict in insertion order, stored as one line of text.
*/
module Visits {
  import opened Prelude
  import opened PyText

  /** A dict from step ids to counts, in insertion order. */
  type Counts = seq<(string, int)>

  predicate AreKeysDistinct(d: Counts) {
    forall i, j :: 0 <= i < j < |d| ==> d[i].0 != d[j].0
  }

  /** `d.get(key, 0)`. */
  function Count(d: Counts, key: string): int {
    if d == [] then 0 else if d[0].0 == key then d[0].1 else Count(d[1..], key)
  }

  /** `d[key] = n`. */
  function Put(d: Counts, key: string, n: int): Counts {
    if d == [] then [(key, n)]
    else if d[0].0 == key then [(key, n)] + d[1..]
    else [d[0]] + Put(d[1..], key, n)
  }

  lemma {:induction false} PutCounts(d: Counts, key: string, n: int, other: string)
    ensures Count(Put(d, key, n), other) == if other == key then n else Count(d, other)
  {
    if d == [] || d[0].0 == key {
    } else {
      PutCounts(d[1..], key, n, other);
    }
  }

  lemma {:induction false} PutKeys(d: Counts, key: string, n: int)
    requires AreKeysDistinct(d)
    ensures AreKeysDistinct(Put(d, key, n))
    ensures forall e :: e in Put(d, key, n) ==> e == (key, n) || e in d
    ensures (forall e :: e in d ==> e.0 != key) ==> Put(d, key, n) == d + [(key, n)]
  {
    if d == [] {
    } else if d[0].0 == key {
      assert d[0] in d;
    } else {
      PutKeys(d[1..], key, n);
      var rest := Put(d[1..], key, n);
      forall i | 0 <= i < |rest|
        ensures rest[i].0 != d[0].0
      {
        assert rest[i] in rest;
      }
    }
  }

  // ----- Text ---------------------------------------------------------------

  /** `int(text)` for ASCII digits and an optional sign. */
  function IntOf(text: string): Option<int> {
    if AllDigits(text) then Some(DigitsValue(text))
    else if text != "" && text[0] == '-' && AllDigits(text[1..]) then Some(-(DigitsValue(text[1..]) as int))
    else if text != "" && text[0] == '+' && AllDigits(text[1..]) then Some(DigitsValue(text[1..]))
    else None
  }

  /** It reads digits, with one sign before them or none, and nothing else. */
  lemma IntsAreExact(text: string, n: int)
    ensures IntOf(text) == Some(n) <==>
            exists digits :: AllDigits(digits)
                             && if n < 0 then text == "-" + digits && DigitsValue(digits) == -n
                                else DigitsValue(digits) == n
                                     && (text == digits || text == "+" + digits || (n == 0 && text == "-" + digits))
  {
    if IntOf(text) == Some(n) {
      if AllDigits(text) {
      } else {
        assert text == text[..1] + text[1..];
      }
    }
    if digits :| AllDigits(digits) && text == "-" + digits && DigitsValue(digits) == -n {
      assert text[1..] == digits && text[0] == '-';
      assert !IsDigit(text[0]);
    } else if digits :| AllDigits(digits) && text == "+" + digits && DigitsValue(digits) == n {
      assert text[1..] == digits && text[0] == '+';
      assert !IsDigit(text[0]);
    }
  }

  /** What one chunk of the line does to the dict. */
  function ReadChunk(d: Counts, chunk: string): Counts {
    var key := Strip(Before(Strip(chunk), ':'));
    var n := IntOf(Strip(After(Strip(chunk), ':')));
    if Strip(chunk) == "" || key == "" || n.None? then d else Put(d, key, n.value)
  }

  function ReadChunks(chunks: seq<string>): Counts {
    if chunks == [] then [] else ReadChunk(ReadChunks(chunks[..|chunks| - 1]), chunks[|chunks| - 1])
  }

  function Parsed(raw: string): Counts {
    if raw == "" then [] else ReadChunks(Split(raw, ','))
  }

  /** `parse_visits`. */
  method ParseVisits(raw: Option<string>) returns (out: Counts)
    ensures out == if raw.None? then [] else Parsed(raw.value)
  {
    out := [];
    if raw.None? || raw.value == "" {
      return;
    }
    var chunks := Split(raw.value, ',');
    for i := 0 to |chunks|
      invariant out == ReadChunks(chunks[..i])
    {
      assert chunks[..i + 1][..i] == chunks[..i];
      var chunk := Strip(chunks[i]);
      if chunk == "" {
        continue;
      }
      var key := Strip(Before(chunk, ':'));
      if key == "" {
        continue;
      }
      var n := IntOf(Strip(After(chunk, ':')));
      if n.Some? {
        out := Put(out, key, n.value);
      }
    }
    assert chunks[..|chunks|] == chunks;
  }

  function Item(e: (string, int)): string {
    e.0 + [':'] + IntText(e.1)
  }

  function Items(d: Counts): seq<string> {
    seq(|d|, i requires 0 <= i < |d| => Item(d[i]))
  }

  /** `format_visits`. */
  function FormatVisits(d: Counts): string {
    Join([','], Items(d))
  }

  // ----- The round trip -----------------------------------------------------

  /** A key the text form can carry. */
  predicate IsClean(key: string) {
    key != "" && IsStripped(key) && ',' !in key && ':' !in key
  }

  lemma StripIsWithin(s: string, c: char)
    requires c in Strip(s)
    ensures c in s
  {
    LStripStarts(s);
    RStripEnds(LStrip(s));
  }

  lemma IntTextReads(n: int)
    ensures IntOf(IntText(n)) == Some(n)
    ensures IsStripped(IntText(n)) && IntText(n) != "" && ',' !in IntText(n)
  {
    var digits := Digits(if n < 0 then -n else n);
    DigitsRoundTrip(if n < 0 then -n else n);
    IntsAreExact(IntText(n), n);
    SignedEnds(digits);
  }

  lemma SignedEnds(digits: string)
    requires AllDigits(digits)
    ensures IsStripped(digits) && ',' !in digits
    ensures IsStripped("-" + digits) && ',' !in "-" + digits
  {
    var signed := "-" + digits;
    assert signed[0] == '-' && signed[|signed| - 1] == digits[|digits| - 1];
  }

  lemma CleanItemReads(d: Counts, e: (string, int))
    requires IsClean(e.0)
    ensures ReadChunk(d, Item(e)) == Put(d, e.0, e.1) && ',' !in Item(e)
  {
    var chunk, number := Item(e), IntText(e.1);
    IntTextReads(e.1);
    assert chunk[0] == e.0[0] && chunk[|chunk| - 1] == number[|number| - 1];
    StripFixpoint(chunk);
    PartitionAt(e.0, ':', number);
    StripFixpoint(e.0);
    StripFixpoint(number);
  }

  lemma {:induction false} CleanItemsRead(d: Counts)
    requires AreKeysDistinct(d) && forall e :: e in d ==> IsClean(e.0)
    ensures ReadChunks(Items(d)) == d
  {
    if d == [] {
    } else {
      var init, last := d[..|d| - 1], d[|d| - 1];
      CleanItemsRead(init);
      assert Items(d)[..|d| - 1] == Items(init);
      CleanItemReads(init, last);
      PutKeys(init, last.0, last.1);
      assert init + [last] == d;
    }
  }

  /** Only clean keys ever come out. */
  lemma {:induction false} ReadKeysAreClean(chunks: seq<string>)
    requires forall c :: c in chunks ==> ',' !in c
    ensures AreKeysDistinct(ReadChunks(chunks)) && forall e :: e in ReadChunks(chunks) ==> IsClean(e.0)
  {
    if chunks == [] {
    } else {
      var init, chunk := chunks[..|chunks| - 1], chunks[|chunks| - 1];
      ReadKeysAreClean(init);
      var before := Before(Strip(chunk), ':');
      var key := Strip(before);
      if key != "" && IntOf(Strip(After(Strip(chunk), ':'))).Some? && Strip(chunk) != "" {
        BeforeLacksIt(Strip(chunk), ':');
        StripFixpoint(before);
        if ',' in key {
          StripIsWithin(before, ',');
          StripIsWithin(chunk, ',');
        }
        if ':' in key {
          StripIsWithin(before, ':');
        }
        PutKeys(ReadChunks(init), key, IntOf(Strip(After(Strip(chunk), ':'))).value);
      }
    }
  }

  /** The counters survive the text form exactly when every step id is
      non-empty, has no blanks around it, and no comma or colon in it. */
  lemma VisitsRoundTripExactly(d: Counts)
    requires AreKeysDistinct(d)
    ensures Parsed(FormatVisits(d)) == d <==> forall e :: e in d ==> IsClean(e.0)
  {
    if forall e :: e in d ==> IsClean(e.0) {
      if d != [] {
        forall i | 0 <= i < |d|
          ensures ',' !in Items(d)[i] && Items(d)[i] != ""
        {
          assert d[i] in d;
          CleanItemReads([], d[i]);
        }
        SplitJoin(Items(d), ',');
        CleanItemsRead(d);
        assert FormatVisits(d) != "" by {
          assert FormatVisits(d) != [] by { JoinIsNotEmpty([','], Items(d)); }
        }
      }
    } else {
      SplitPartsLackIt(FormatVisits(d), ',');
      if FormatVisits(d) != "" {
        ReadKeysAreClean(Split(FormatVisits(d), ','));
      }
    }
  }

  lemma JoinIsNotEmpty(sep: string, parts: seq<string>)
    requires parts != [] && parts[0] != ""
    ensures Join(sep, parts) != ""
  {}
}
