/** The Python string operations the text engines are built on. */
module PyText {
  import opened Prelude

  /** `str.isspace` for one character: what `strip` removes. */
  predicate IsSpace(c: char) {
    || '\t' <= c <= '\r' || '\U{1c}' <= c <= ' ' || c == '\U{85}' || c == '\U{a0}' || c == '\U{1680}'
    || '\U{2000}' <= c <= '\U{200a}' || c == '\U{2028}' || c == '\U{2029}' || c == '\U{202f}'
    || c == '\U{205f}' || c == '\U{3000}'
  }

  /** The characters `splitlines` splits at. */
  predicate IsBreak(c: char) {
    '\n' <= c <= '\r' || '\U{1c}' <= c <= '\U{1e}' || c == '\U{85}' || c == '\U{2028}' || c == '\U{2029}'
  }

  predicate IsLine(s: string) {
    forall i :: 0 <= i < |s| ==> !IsBreak(s[i])
  }

  predicate AreLines(ls: seq<string>) {
    forall i :: 0 <= i < |ls| ==> IsLine(ls[i])
  }

  // ----- Stripping ----------------------------------------------------------

  function LStrip(s: string): string {
    if s != "" && IsSpace(s[0]) then LStrip(s[1..]) else s
  }

  function RStrip(s: string): string {
    if s != "" && IsSpace(s[|s| - 1]) then RStrip(s[..|s| - 1]) else s
  }

  function Strip(s: string): string {
    RStrip(LStrip(s))
  }

  /** Nothing to strip at either end. */
  predicate IsStripped(s: string) {
    s == "" || (!IsSpace(s[0]) && !IsSpace(s[|s| - 1]))
  }

  lemma {:induction false} RStripEnds(s: string)
    ensures RStrip(s) <= s && (RStrip(s) == "" || !IsSpace(RStrip(s)[|RStrip(s)| - 1]))
  {
    if s == "" || !IsSpace(s[|s| - 1]) {
    } else {
      RStripEnds(s[..|s| - 1]);
    }
  }

  lemma {:induction false} LStripStarts(s: string)
    ensures |LStrip(s)| <= |s| && LStrip(s) == s[|s| - |LStrip(s)|..]
    ensures LStrip(s) == "" || !IsSpace(LStrip(s)[0])
  {
    if s == "" || !IsSpace(s[0]) {
    } else {
      LStripStarts(s[1..]);
    }
  }

  /** `strip` returns its argument exactly when there is nothing to strip. */
  lemma StripFixpoint(s: string)
    ensures IsStripped(Strip(s))
    ensures Strip(s) == s <==> IsStripped(s)
  {
    LStripStarts(s);
    RStripEnds(LStrip(s));
  }

  /** Stripping ignores blank padding on either side. */
  lemma {:induction false} StripPadded(left: string, s: string, right: string)
    requires forall i :: 0 <= i < |left| ==> IsSpace(left[i])
    requires forall i :: 0 <= i < |right| ==> IsSpace(right[i])
    requires IsStripped(s)
    ensures Strip(left + s + right) == s
    decreases |left| + |right|
  {
    if left != "" {
      assert (left + s + right)[1..] == left[1..] + s + right;
      StripPadded(left[1..], s, right);
    } else if right == "" {
      assert left + s + right == s;
      StripFixpoint(s);
    } else if s == "" {
      assert right[1..] == (left + s + right)[1..] == left + s + right[1..];
      StripPadded(left, s, right[1..]);
    } else {
      var t := left + s + right;
      assert t[..|t| - 1] == left + s + right[..|right| - 1];
      StripPadded(left, s, right[..|right| - 1]);
      assert t[0] == s[0] && LStrip(t) == t && LStrip(t[..|t| - 1]) == t[..|t| - 1];
    }
  }

  predicate AreBlanks(s: string) {
    forall i :: 0 <= i < |s| ==> IsSpace(s[i])
  }

  lemma {:induction false} LStripTakesBlanks(s: string)
    ensures exists left :: AreBlanks(left) && s == left + LStrip(s)
  {
    if s == "" || !IsSpace(s[0]) {
      assert AreBlanks("") && s == "" + LStrip(s);
    } else {
      LStripTakesBlanks(s[1..]);
      var left :| AreBlanks(left) && s[1..] == left + LStrip(s[1..]);
      assert AreBlanks([s[0]] + left) && s == [s[0]] + left + LStrip(s);
    }
  }

  lemma {:induction false} RStripTakesBlanks(s: string)
    ensures exists right :: AreBlanks(right) && s == RStrip(s) + right
  {
    if s == "" || !IsSpace(s[|s| - 1]) {
      assert AreBlanks("") && s == RStrip(s) + "";
    } else {
      var init, last := s[..|s| - 1], s[|s| - 1];
      RStripTakesBlanks(init);
      var right :| AreBlanks(right) && init == RStrip(init) + right;
      assert AreBlanks(right + [last]) && s == RStrip(s) + (right + [last]);
    }
  }

  /** Stripped is what is left between the blanks around it. */
  lemma StripExactly(s: string, middle: string)
    requires IsStripped(middle)
    ensures Strip(s) == middle <==>
            exists left, right :: AreBlanks(left) && AreBlanks(right) && s == left + middle + right
  {
    LStripTakesBlanks(s);
    RStripTakesBlanks(LStrip(s));
    var left :| AreBlanks(left) && s == left + LStrip(s);
    var right :| AreBlanks(right) && LStrip(s) == Strip(s) + right;
    assert s == left + Strip(s) + right;
    if left', right' :| AreBlanks(left') && AreBlanks(right') && s == left' + middle + right' {
      StripPadded(left', middle, right');
    }
  }

  // ----- Lines --------------------------------------------------------------

  /** The length of the first line of `s`. */
  function LineEnd(s: string): (n: nat)
    ensures n <= |s| && IsLine(s[..n]) && (n < |s| ==> IsBreak(s[n]))
  {
    if s == "" || IsBreak(s[0]) then 0 else 1 + LineEnd(s[1..])
  }

  /** `str.splitlines`; a carriage return and line feed are one break. */
  function SplitLines(s: string): (ls: seq<string>)
    ensures AreLines(ls)
    decreases |s|
  {
    if s == "" then []
    else
      var n := LineEnd(s);
      if n == |s| then [s]
      else
        var skip := if s[n] == '\r' && n + 1 < |s| && s[n + 1] == '\n' then 2 else 1;
        [s[..n]] + SplitLines(s[n + skip..])
  }

  /** How many characters the break after the first line takes. */
  predicate IsSkip(t: string, skip: nat)
    requires LineEnd(t) < |t|
  {
    var n := LineEnd(t);
    skip == if t[n] == '\r' && n + 1 < |t| && t[n + 1] == '\n' then 2 else 1
  }

  /** One round of the split: the first line, and the lines of the rest. */
  lemma SplitStep(t: string, l: string, skip: nat, rest: string)
    requires LineEnd(t) == |l| < |t| && t[..|l|] == l && IsSkip(t, skip) && t[|l| + skip..] == rest
    ensures SplitLines(t) == [l] + SplitLines(rest)
  {}

  lemma {:induction false} LineEndOf(l: string, rest: string)
    requires IsLine(l) && (rest == "" || IsBreak(rest[0]))
    ensures LineEnd(l + rest) == |l|
  {
    if l == "" {
    } else {
      assert (l + rest)[1..] == l[1..] + rest;
      LineEndOf(l[1..], rest);
    }
  }

  lemma SplitLinesCons(l: string, rest: string)
    requires IsLine(l)
    ensures SplitLines(l + "\n" + rest) == [l] + SplitLines(rest)
  {
    var s := l + "\n" + rest;
    assert s == l + ("\n" + rest);
    LineEndOf(l, "\n" + rest);
    assert s[..|l|] == l && s[|l| + 1..] == rest;
  }

  /** Every line followed by a line feed. */
  function Unlines(ls: seq<string>): string {
    if ls == [] then "" else ls[0] + "\n" + Unlines(ls[1..])
  }

  /** `splitlines` inverts writing lines out. */
  lemma {:induction false} SplitLinesUnlines(ls: seq<string>)
    requires AreLines(ls)
    ensures SplitLines(Unlines(ls)) == ls
  {
    if ls == [] {
    } else {
      SplitLinesCons(ls[0], Unlines(ls[1..]));
      SplitLinesUnlines(ls[1..]);
    }
  }

  lemma {:induction false} UnlinesAppend(a: seq<string>, b: seq<string>)
    ensures Unlines(a + b) == Unlines(a) + Unlines(b)
  {
    if a == [] {
      assert a + b == b;
    } else {
      assert (a + b)[1..] == a[1..] + b;
      UnlinesAppend(a[1..], b);
    }
  }

  /** `sep.join(parts)`. */
  function Join(sep: string, parts: seq<string>): string {
    if parts == [] then ""
    else if |parts| == 1 then parts[0]
    else parts[0] + sep + Join(sep, parts[1..])
  }

  lemma {:induction false} UnlinesIsJoin(ls: seq<string>)
    requires ls != []
    ensures Unlines(ls) == Join("\n", ls) + "\n"
  {
    if |ls| <= 1 {
    } else {
      UnlinesIsJoin(ls[1..]);
    }
  }

  // ----- Splitting and searching -------------------------------------------

  /** `s.split(c)` for a one-character separator. */
  function Split(s: string, c: char): (parts: seq<string>)
    ensures parts != []
  {
    if s == "" then [""]
    else if s[0] == c then [""] + Split(s[1..], c)
    else var rest := Split(s[1..], c); [[s[0]] + rest[0]] + rest[1..]
  }

  lemma {:induction false} SplitWhole(s: string, c: char)
    requires c !in s
    ensures Split(s, c) == [s]
  {
    if s == "" {
    } else {
      SplitWhole(s[1..], c);
      assert [s[0]] + s[1..] == s;
    }
  }

  lemma {:induction false} SplitCons(s: string, c: char, rest: string)
    requires c !in s
    ensures Split(s + [c] + rest, c) == [s] + Split(rest, c)
  {
    if s == "" {
      assert s + [c] + rest == [c] + rest;
    } else {
      assert (s + [c] + rest)[1..] == s[1..] + [c] + rest;
      SplitCons(s[1..], c, rest);
      var t := s + [c] + rest;
      assert t[0] == s[0] && Split(t[1..], c)[0] == s[1..] && Split(t[1..], c)[1..] == Split(rest, c);
      assert [s[0]] + s[1..] == s;
    }
  }

  /** `split` inverts `join`. */
  lemma {:induction false} SplitJoin(parts: seq<string>, c: char)
    requires parts != [] && forall p :: p in parts ==> c !in p
    ensures Split(Join([c], parts), c) == parts
  {
    if |parts| == 1 {
      SplitWhole(parts[0], c);
    } else {
      SplitJoin(parts[1..], c);
      SplitCons(parts[0], c, Join([c], parts[1..]));
      assert Join([c], parts) == parts[0] + [c] + Join([c], parts[1..]);
      assert [parts[0]] + parts[1..] == parts;
    }
  }

  lemma {:induction false} SplitPartsLackIt(s: string, c: char)
    ensures forall p :: p in Split(s, c) ==> c !in p
  {
    if s == "" {
    } else {
      SplitPartsLackIt(s[1..], c);
      if s[0] != c {
        var rest := Split(s[1..], c);
        assert forall p :: p in Split(s, c) ==> p == [s[0]] + rest[0] || p in rest;
      }
    }
  }

  /** The part before the first `c` and the part after it (`partition`);
      without one, everything and nothing. */
  function Before(s: string, c: char): string {
    if s == "" || s[0] == c then "" else [s[0]] + Before(s[1..], c)
  }

  function After(s: string, c: char): string {
    if s == "" then "" else if s[0] == c then s[1..] else After(s[1..], c)
  }

  lemma {:induction false} PartitionAt(s: string, c: char, rest: string)
    requires c !in s
    ensures Before(s + [c] + rest, c) == s && After(s + [c] + rest, c) == rest
  {
    if s == "" {
    } else {
      assert (s + [c] + rest)[1..] == s[1..] + [c] + rest;
      PartitionAt(s[1..], c, rest);
    }
  }

  lemma {:induction false} BeforeLacksIt(s: string, c: char)
    ensures c !in Before(s, c) && Before(s, c) <= s
  {
    if s == "" || s[0] == c {
    } else {
      BeforeLacksIt(s[1..], c);
      assert Before(s, c) == [s[0]] + Before(s[1..], c) && s == [s[0]] + s[1..];
    }
  }

  /** `sub` occurs in `s` at index `i`. */
  predicate OccursAt(s: string, sub: string, i: nat) {
    i + |sub| <= |s| && s[i..i + |sub|] == sub
  }

  /** `s.find(sub, start)`, None for -1. */
  method Find(s: string, sub: string, start: nat) returns (at: Option<nat>)
    ensures at.Some? ==> start <= at.value && OccursAt(s, sub, at.value)
                         && forall i: nat :: start <= i < at.value ==> !OccursAt(s, sub, i)
    ensures at.None? ==> forall i: nat :: start <= i ==> !OccursAt(s, sub, i)
  {
    var i := start;
    while i + |sub| <= |s|
      invariant start <= i
      invariant forall k: nat :: start <= k < i ==> !OccursAt(s, sub, k)
    {
      if s[i..i + |sub|] == sub {
        return Some(i);
      }
      i := i + 1;
    }
    at := None;
  }

  // ----- Decimal integers ---------------------------------------------------

  predicate IsDigit(c: char) {
    '0' <= c <= '9'
  }

  predicate AllDigits(s: string) {
    s != "" && forall i :: 0 <= i < |s| ==> IsDigit(s[i])
  }

  /** `str` of a non-negative integer. */
  function Digits(n: nat): (s: string)
    ensures AllDigits(s)
  {
    if n < 10 then [('0' as int + n) as char] else Digits(n / 10) + [('0' as int + n % 10) as char]
  }

  function DigitsValue(s: string): nat
    requires forall i :: 0 <= i < |s| ==> IsDigit(s[i])
  {
    if s == "" then 0
    else assert IsDigit(s[|s| - 1]); 10 * DigitsValue(s[..|s| - 1]) + (s[|s| - 1] as int - '0' as int)
  }

  /** `str` of an integer. */
  function IntText(n: int): string {
    if n < 0 then "-" + Digits(-n) else Digits(n)
  }

  lemma {:induction false} DigitsRoundTrip(n: nat)
    ensures DigitsValue(Digits(n)) == n
  {
    if n < 10 {
    } else {
      DigitsRoundTrip(n / 10);
      var s := Digits(n);
      assert s[..|s| - 1] == Digits(n / 10);
    }
  }

  // ----- What stripping keeps -----------------------------------------------

  /** A character that is not white space survives stripping. */
  lemma {:induction false} StripKeeps(s: string, c: char)
    requires c in s && !IsSpace(c)
    ensures c in Strip(s)
  {
    LStripKeeps(s, c);
    RStripKeeps(LStrip(s), c);
  }

  lemma {:induction false} LStripKeeps(s: string, c: char)
    requires c in s && !IsSpace(c)
    ensures c in LStrip(s)
  {
    if !IsSpace(s[0]) {
    } else {
      LStripKeeps(s[1..], c);
    }
  }

  lemma {:induction false} RStripKeeps(s: string, c: char)
    requires c in s && !IsSpace(c)
    ensures c in RStrip(s)
  {
    if !IsSpace(s[|s| - 1]) {
    } else {
      RStripKeeps(s[..|s| - 1], c);
    }
  }
}
