/** The agent's tool loop (`agent/loop.py`) and its accounting, for every
    behaviour of the model, the tools, the clock and the controller.
*/
module AgentLoop {
  import opened Prelude

  // ----- What the model and the tools say -----------------------------------

  datatype ToolCall = ToolCall(id: string, name: string, input: string)

  /** Absent keys are absent or null on the wire. */
  type Usage = map<string, int>

  datatype Completion = Completion(text: string, toolCalls: seq<ToolCall>, usage: Usage, stop: Option<string>)

  datatype Block =
    | TextBlock(text: string)
    | ToolUse(id: string, name: string, input: string)
    | ToolResult(id: string, content: string, isError: bool)

  /** `marked` tells whether the last block carries a cache marker. */
  datatype Message = Brief(text: string) | Assistant(content: seq<Block>) | User(content: seq<Block>, marked: bool)

  /** Serialized sizes, of one block and of a message's content. */
  datatype Sizes = Sizes(block: Block -> nat, content: seq<Block> -> nat)

  // ----- What the loop reports ----------------------------------------------

  datatype CallRecord = CallRecord(name: string, resultChars: nat, err: bool)

  datatype TurnRecord = TurnRecord(turn: nat, usage: Usage, stop: Option<string>, transcriptChars: nat,
                                   toolCalls: seq<CallRecord>)

  datatype Exit = Completed | MaxTurns | Timeout | Aborted | TransportError

  datatype LoopResult = LoopResult(turns: nat, text: string, failed: bool, stoppedEarly: bool, exitReason: Option<Exit>,
                                   usage: Usage, perTurn: seq<TurnRecord>)

  // ----- Usage --------------------------------------------------------------

  const USAGE_KEYS := ["input_tokens", "output_tokens", "cache_creation_input_tokens", "cache_read_input_tokens"]

  function Get(u: Usage, key: string): int {
    if key in u then u[key] else 0
  }

  /** `acc` with one turn's usage of the first `n` keys added in. */
  function Summed(acc: Usage, turn: Usage, n: nat): Usage
    requires n <= |USAGE_KEYS|
  {
    if n == 0 then acc
    else
      var before := Summed(acc, turn, n - 1);
      var key := USAGE_KEYS[n - 1];
      if key in turn then before[key := Get(before, key) + turn[key]] else before
  }

  /** `_sum_usage`. */
  method SumUsage(acc: Usage, turn: Usage) returns (sum: Usage)
    ensures sum == Summed(acc, turn, |USAGE_KEYS|)
  {
    sum := acc;
    for i := 0 to |USAGE_KEYS|
      invariant sum == Summed(acc, turn, i)
    {
      var key := USAGE_KEYS[i];
      if key in turn {
        sum := sum[key := Get(sum, key) + turn[key]];
      }
    }
  }

  lemma {:induction false} SummedAddsUp(acc: Usage, turn: Usage, n: nat, key: string)
    requires n <= |USAGE_KEYS|
    ensures Get(Summed(acc, turn, n), key) ==
            Get(acc, key) + if key in USAGE_KEYS[..n] then Get(turn, key) else 0
    ensures key in Summed(acc, turn, n) <==> key in acc || (key in USAGE_KEYS[..n] && key in turn)
  {
    if n == 0 {
    } else {
      SummedAddsUp(acc, turn, n - 1, key);
      assert USAGE_KEYS[..n] == USAGE_KEYS[..n - 1] + [USAGE_KEYS[n - 1]];
      assert key == USAGE_KEYS[n - 1] ==> key !in USAGE_KEYS[..n - 1];
    }
  }

  /** The usage totals after these completions. */
  function TotalUsage(completions: seq<Completion>): Usage {
    if completions == [] then map[]
    else
      var n := |completions| - 1;
      Summed(TotalUsage(completions[..n]), completions[n].usage, |USAGE_KEYS|)
  }

  /** What the turns that report this key report, added up. */
  function SumOf(completions: seq<Completion>, key: string): int {
    if completions == [] then 0
    else
      var n := |completions| - 1;
      SumOf(completions[..n], key) + if key in completions[n].usage then completions[n].usage[key] else 0
  }

  predicate Reports(completions: seq<Completion>, key: string) {
    exists i :: 0 <= i < |completions| && key in completions[i].usage
  }

  /** Every total is the sum over the turns, and there is one for exactly the
      keys some turn reports. */
  lemma {:induction false} TotalsAreSums(completions: seq<Completion>, key: string)
    requires key in USAGE_KEYS
    ensures key in TotalUsage(completions) <==> Reports(completions, key)
    ensures key in TotalUsage(completions) ==> TotalUsage(completions)[key] == SumOf(completions, key)
    ensures !Reports(completions, key) ==> SumOf(completions, key) == 0
  {
    if completions == [] {
    } else {
      var n := |completions| - 1;
      assert Reports(completions, key) <==> Reports(completions[..n], key) || key in completions[n].usage by {
        assert forall i :: 0 <= i < n ==> completions[..n][i] == completions[i];
      }
      TotalsAreSums(completions[..n], key);
      SummedAddsUp(TotalUsage(completions[..n]), completions[n].usage, |USAGE_KEYS|, key);
      assert USAGE_KEYS[..|USAGE_KEYS|] == USAGE_KEYS;
    }
  }

  // ----- What happens around the loop ---------------------------------------

  /** Before a turn the controller may stop the loop and the deadline may have
      passed; the transport then answers, or fails. */
  datatype Turn = Turn(abort: bool, late: bool, reply: Option<Completion>)

  datatype Answer = Answer(content: string, isError: bool)

  /** What happens at each turn, and what the tools answer to each of its
      calls. */
  datatype Env = Env(turn: nat -> Turn, tool: (nat, nat) -> Answer)

  // ----- The conversation ---------------------------------------------------

  /** The model asks for nothing more. */
  predicate IsFinal(c: Completion) {
    c.toolCalls == [] && c.stop != Some("tool_use")
  }

  function AssistantContent(c: Completion): seq<Block> {
    (if c.text != "" then [TextBlock(c.text)] else [])
    + seq(|c.toolCalls|,
          i requires 0 <= i < |c.toolCalls| => ToolUse(c.toolCalls[i].id, c.toolCalls[i].name, c.toolCalls[i].input))
  }

  /** What the model said goes into the conversation whole: its text, if there
      is any, and then its calls in order. */
  lemma ContentIsWhatWasSaid(c: Completion)
    ensures var content := AssistantContent(c);
            && |content| == |c.toolCalls| + (if c.text == "" then 0 else 1)
            && (content != [] && c.text != "" ==> content[0] == TextBlock(c.text))
            && (forall b :: b in content && b.TextBlock? ==> b.text == c.text && c.text != "")
            && forall i :: 0 <= i < |c.toolCalls| ==>
                 content[|content| - |c.toolCalls| + i]
                 == ToolUse(c.toolCalls[i].id, c.toolCalls[i].name, c.toolCalls[i].input)
  {}

  /** One turn that went on: what the model said and what the tools gave. */
  datatype Exchange = Exchange(completion: Completion, results: seq<Block>)

  /** The results answer the calls one by one, under their ids. */
  predicate IsAnswered(e: Exchange) {
    && |e.results| == |e.completion.toolCalls|
    && forall i :: 0 <= i < |e.results| ==> e.results[i].ToolResult? && e.results[i].id == e.completion.toolCalls[i].id
  }

  /** The messages: the brief, then an assistant and a user message for each
      turn that went on; with `cached`, every user message with content before
      the `marked`-th exchange is marked. */
  function Conversation(brief: string, exchanges: seq<Exchange>, cached: bool, marked: nat): seq<Message> {
    if exchanges == [] then [Brief(brief)]
    else
      var n := |exchanges| - 1;
      Conversation(brief, exchanges[..n], cached, marked)
      + ([Assistant(AssistantContent(exchanges[n].completion))]
         + [User(exchanges[n].results, cached && n < marked && exchanges[n].results != [])])
  }

  function Chars(exchanges: seq<Exchange>, sizes: Sizes): nat {
    if exchanges == [] then 0
    else
      var n := |exchanges| - 1;
      Chars(exchanges[..n], sizes)
      + (sizes.content(AssistantContent(exchanges[n].completion)) + sizes.content(exchanges[n].results))
  }

  function Said(exchanges: seq<Exchange>): seq<Completion> {
    seq(|exchanges|, i requires 0 <= i < |exchanges| => exchanges[i].completion)
  }

  function LastText(completions: seq<Completion>): string {
    if completions == [] then ""
    else
      var n := |completions| - 1;
      if completions[n].text != "" then completions[n].text else LastText(completions[..n])
  }

  function CallRecords(e: Exchange, sizes: Sizes): seq<CallRecord>
    requires IsAnswered(e)
  {
    seq(|e.results|, i requires 0 <= i < |e.results| =>
      CallRecord(e.completion.toolCalls[i].name, sizes.block(e.results[i]), e.results[i].isError))
  }

  // ----- The loop -----------------------------------------------------------

  /** The results are what the tools answered, call by call. */
  ghost predicate AreAnswers(results: seq<Block>, c: Completion, k: nat, env: Env) {
    && |results| == |c.toolCalls|
    && forall i :: 0 <= i < |results| ==>
         results[i] == ToolResult(c.toolCalls[i].id, env.tool(k, i).content, env.tool(k, i).isError)
  }

  /** The calls of turn `k`; the answers keep the calls' ids. */
  method Dispatch(c: Completion, k: nat, env: Env, sizes: Sizes) returns (results: seq<Block>, records: seq<CallRecord>)
    ensures AreAnswers(results, c, k, env)
    ensures IsAnswered(Exchange(c, results)) && records == CallRecords(Exchange(c, results), sizes)
  {
    results, records := [], [];
    for i := 0 to |c.toolCalls|
      invariant |results| == |records| == i
      invariant forall j :: 0 <= j < i ==>
        && results[j] == ToolResult(c.toolCalls[j].id, env.tool(k, j).content, env.tool(k, j).isError)
        && records[j] == CallRecord(c.toolCalls[j].name, sizes.block(results[j]), results[j].isError)
    {
      var answer := env.tool(k, i);
      var block := ToolResult(c.toolCalls[i].id, answer.content, answer.isError);
      results := results + [block];
      records := records + [CallRecord(c.toolCalls[i].name, sizes.block(block), answer.isError)];
    }
  }

  /** `_apply_cache_breakpoints`, on the messages: the last one is marked when
      it has content blocks, and nothing is ever unmarked. */
  function Marked(messages: seq<Message>, cached: bool): seq<Message> {
    if cached && messages != [] && messages[|messages| - 1].User? && messages[|messages| - 1].content != [] then
      messages[|messages| - 1 := messages[|messages| - 1].(marked := true)]
    else messages
  }

  ghost predicate AreExchanges(exchanges: seq<Exchange>) {
    forall i :: 0 <= i < |exchanges| ==> IsAnswered(exchanges[i]) && !IsFinal(exchanges[i].completion)
  }

  /** The record of a turn that went on, the `k`-th from 0: the size of the
      transcript is what the exchanges before it added. */
  function RecordOf(exchanges: seq<Exchange>, k: nat, sizes: Sizes): TurnRecord
    requires k < |exchanges| && IsAnswered(exchanges[k])
  {
    var c := exchanges[k].completion;
    TurnRecord(k + 1, c.usage, c.stop, Chars(exchanges[..k], sizes), CallRecords(exchanges[k], sizes))
  }

  ghost predicate AreRecords(records: seq<TurnRecord>, exchanges: seq<Exchange>, sizes: Sizes)
    requires AreExchanges(exchanges)
  {
    |records| == |exchanges| && forall k :: 0 <= k < |records| ==> records[k] == RecordOf(exchanges, k, sizes)
  }

  /** What each turn sent: everything so far, with every earlier user message
      that has content marked. */
  ghost predicate AreRequests(requests: seq<seq<Message>>, brief: string, exchanges: seq<Exchange>, cached: bool) {
    |requests| <= |exchanges| + 1
    && forall k :: 0 <= k < |requests| ==> requests[k] == Conversation(brief, exchanges[..k], cached, k)
  }

  /** The books after the turns in `exchanges`, all of which went on. */
  ghost predicate IsBalanced(r: LoopResult, exchanges: seq<Exchange>, sizes: Sizes) {
    && AreExchanges(exchanges)
    && r.turns == |exchanges| && AreRecords(r.perTurn, exchanges, sizes)
    && r.usage == TotalUsage(Said(exchanges)) && r.text == LastText(Said(exchanges))
    && !r.failed && !r.stoppedEarly && r.exitReason.None?
  }

  /** The books after one more turn, in which the model was done. */
  function Closed(r: LoopResult, final: Completion, transcriptChars: nat): LoopResult {
    LoopResult(r.turns + 1, if final.text != "" then final.text else r.text, r.failed, r.stoppedEarly, Some(Completed),
               Summed(r.usage, final.usage, |USAGE_KEYS|),
               r.perTurn + [TurnRecord(r.turns + 1, final.usage, final.stop, transcriptChars, [])])
  }

  lemma MarkingMarksTheLast(brief: string, exchanges: seq<Exchange>, cached: bool, was: nat)
    requires was == if exchanges == [] then 0 else |exchanges| - 1
    ensures Marked(Conversation(brief, exchanges, cached, was), cached)
            == Conversation(brief, exchanges, cached, |exchanges|)
  {
    if exchanges != [] {
      var n := |exchanges| - 1;
      MarksBefore(brief, exchanges[..n], cached, was, |exchanges|);
      var before := Conversation(brief, exchanges[..n], cached, was);
      var m := Conversation(brief, exchanges, cached, was);
      var assistant := Assistant(AssistantContent(exchanges[n].completion));
      assert m == before + ([assistant] + [User(exchanges[n].results, false)]);
      assert m[|m| - 1] == User(exchanges[n].results, false);
      assert m[|m| - 1 := User(exchanges[n].results, true)]
             == before + ([assistant] + [User(exchanges[n].results, true)]);
    }
  }

  lemma {:induction false} MarksBefore(brief: string, exchanges: seq<Exchange>, cached: bool, a: nat, b: nat)
    requires |exchanges| <= a && |exchanges| <= b
    ensures Conversation(brief, exchanges, cached, a) == Conversation(brief, exchanges, cached, b)
  {
    if exchanges == [] {
    } else {
      MarksBefore(brief, exchanges[..|exchanges| - 1], cached, a, b);
    }
  }

  lemma OneMoreExchange(brief: string, exchanges: seq<Exchange>, e: Exchange, cached: bool, sizes: Sizes)
    ensures Conversation(brief, exchanges + [e], cached, |exchanges|) ==
            Conversation(brief, exchanges, cached, |exchanges|)
              + ([Assistant(AssistantContent(e.completion))] + [User(e.results, false)])
    ensures Chars(exchanges + [e], sizes) ==
            Chars(exchanges, sizes) + (sizes.content(AssistantContent(e.completion)) + sizes.content(e.results))
    ensures Said(exchanges + [e]) == Said(exchanges) + [e.completion]
  {
    assert (exchanges + [e])[..|exchanges|] == exchanges;
  }

  lemma OneMoreSaid(said: seq<Completion>, c: Completion)
    ensures TotalUsage(said + [c]) == Summed(TotalUsage(said), c.usage, |USAGE_KEYS|)
    ensures LastText(said + [c]) == if c.text != "" then c.text else LastText(said)
  {
    assert (said + [c])[..|said|] == said;
  }

  lemma OneMoreRecord(records: seq<TurnRecord>, exchanges: seq<Exchange>, e: Exchange, sizes: Sizes)
    requires AreExchanges(exchanges) && AreRecords(records, exchanges, sizes) && IsAnswered(e) && !IsFinal(e.completion)
    ensures AreExchanges(exchanges + [e])
    ensures AreRecords(records + [RecordOf(exchanges + [e], |exchanges|, sizes)], exchanges + [e], sizes)
  {
    var all := exchanges + [e];
    forall k | 0 <= k < |exchanges|
      ensures RecordOf(all, k, sizes) == RecordOf(exchanges, k, sizes)
    {
      assert all[..k] == exchanges[..k];
    }
  }

  lemma OneMoreRequest(requests: seq<seq<Message>>, brief: string, exchanges: seq<Exchange>, e: Exchange, cached: bool)
    requires AreRequests(requests, brief, exchanges, cached)
    ensures AreRequests(requests, brief, exchanges + [e], cached)
  {
    forall k | 0 <= k < |requests|
      ensures requests[k] == Conversation(brief, (exchanges + [e])[..k], cached, k)
    {
      assert (exchanges + [e])[..k] == exchanges[..k];
    }
  }

  /** The books closed before the model was done. */
  function Stopped(r: LoopResult, exit: Exit): LoopResult {
    r.(failed := exit.MaxTurns? || exit.TransportError?, stoppedEarly := exit.Aborted? || exit.Timeout?,
       exitReason := Some(exit))
  }

  /** What every run of the loop reports: one record per turn, at most `limit`
      turns, the reason it ended, and books that balance. */
  ghost predicate IsAccount(r: LoopResult, exchanges: seq<Exchange>, final: Option<Completion>, limit: int,
                            hasDeadline: bool, sizes: Sizes)
  {
    && r.exitReason.Some? && r.turns == |r.perTurn| && r.turns <= (if limit > 0 then limit else 0)
    && (r.exitReason == Some(Completed) <==> final.Some?) && (final.Some? ==> IsFinal(final.value))
    && (r.failed <==> r.exitReason in {Some(MaxTurns), Some(TransportError)})
    && (r.stoppedEarly <==> r.exitReason in {Some(Aborted), Some(Timeout)})
    && (r.exitReason == Some(MaxTurns) ==> limit <= r.turns)
    && (r.exitReason == Some(Timeout) ==> hasDeadline)
    && exists books :: IsBalanced(books, exchanges, sizes) &&
         r == if final.Some? then Closed(books, final.value, Chars(exchanges, sizes))
           else Stopped(books, r.exitReason.value)
  }

  /** Nothing ends the loop at this turn, and the model asks for more: it calls
      tools, or says that it would. */
  predicate GoesOn(t: Turn, hasDeadline: bool) {
    && !t.abort && (hasDeadline ==> !t.late)
    && t.reply.Some? && (t.reply.value.toolCalls != [] || t.reply.value.stop == Some("tool_use"))
  }

  /** The exchanges are the first turns: each went on, and holds what the model
      and the tools said. */
  ghost predicate AreTurns(exchanges: seq<Exchange>, hasDeadline: bool, env: Env) {
    forall k :: 0 <= k < |exchanges| ==>
      && GoesOn(env.turn(k), hasDeadline) && Some(exchanges[k].completion) == env.turn(k).reply
      && AreAnswers(exchanges[k].results, exchanges[k].completion, k, env)
  }

  /** Why the loop ended after `n` turns that went on, and the last word. */
  predicate IsEnd(exit: Option<Exit>, final: Option<Completion>, n: nat, limit: int, hasDeadline: bool, env: Env) {
    var t := env.turn(n);
    if n >= limit then exit == Some(MaxTurns) && final.None?
    else if t.abort then exit == Some(Aborted) && final.None?
    else if hasDeadline && t.late then exit == Some(Timeout) && final.None?
    else if t.reply.None? then exit == Some(TransportError) && final.None?
    else exit == Some(Completed) && final == t.reply && !GoesOn(t, hasDeadline)
  }

  lemma OneMoreTurn(exchanges: seq<Exchange>, e: Exchange, hasDeadline: bool, env: Env)
    requires AreTurns(exchanges, hasDeadline, env) && GoesOn(env.turn(|exchanges|), hasDeadline)
    requires Some(e.completion) == env.turn(|exchanges|).reply
    requires AreAnswers(e.results, e.completion, |exchanges|, env)
    ensures AreTurns(exchanges + [e], hasDeadline, env)
  {}

  /** Two runs with the same behaviour around them have the same turns and end
      for the same reason. */
  lemma RunsAreDetermined(a: seq<Exchange>, b: seq<Exchange>, exit: Option<Exit>, exit': Option<Exit>,
                          final: Option<Completion>, final': Option<Completion>, limit: int, hasDeadline: bool,
                          env: Env)
    requires AreTurns(a, hasDeadline, env) && IsEnd(exit, final, |a|, limit, hasDeadline, env)
    requires AreTurns(b, hasDeadline, env) && IsEnd(exit', final', |b|, limit, hasDeadline, env)
    requires |a| <= (if limit > 0 then limit else 0) && |b| <= (if limit > 0 then limit else 0)
    ensures a == b && exit == exit' && final == final'
  {
    forall k | 0 <= k < |a| && k < |b|
      ensures a[k] == b[k]
    {
      assert a[k].results == b[k].results;
    }
  }

  /** The books after one more turn that went on. */
  function Continued(r: LoopResult, c: Completion, transcriptChars: nat, calls: seq<CallRecord>): LoopResult {
    r.(turns := r.turns + 1, usage := Summed(r.usage, c.usage, |USAGE_KEYS|),
       text := if c.text != "" then c.text else r.text,
       perTurn := r.perTurn + [TurnRecord(r.turns + 1, c.usage, c.stop, transcriptChars, calls)])
  }

  lemma ContinuedIsBalanced(r: LoopResult, exchanges: seq<Exchange>, e: Exchange, sizes: Sizes)
    requires IsBalanced(r, exchanges, sizes) && IsAnswered(e) && !IsFinal(e.completion)
    ensures IsBalanced(Continued(r, e.completion, Chars(exchanges, sizes), CallRecords(e, sizes)),
                       exchanges + [e], sizes)
  {
    OneMoreExchange("", exchanges, e, false, sizes);
    OneMoreSaid(Said(exchanges), e.completion);
    OneMoreRecord(r.perTurn, exchanges, e, sizes);
    assert (exchanges + [e])[..|exchanges|] == exchanges;
  }

  /** The messages of these exchanges, however far the marking has come. */
  ghost predicate IsTalk(messages: seq<Message>, brief: string, exchanges: seq<Exchange>, cached: bool) {
    exists marked: nat :: messages == Conversation(brief, exchanges, cached, marked)
  }

  // ----- The report alone ---------------------------------------------------

  /** What these messages added to the transcript. */
  function Added(messages: seq<Message>, sizes: Sizes): nat {
    if messages == [] then 0
    else
      var n := |messages| - 1;
      Added(messages[..n], sizes)
      + match messages[n]
        case Brief(_) => 0
        case Assistant(content) => sizes.content(content)
        case User(content, _) => sizes.content(content)
  }

  function IdsOf(blocks: seq<Block>): seq<string> {
    if blocks == [] then []
    else
      var n := |blocks| - 1;
      IdsOf(blocks[..n]) + if blocks[n].TextBlock? then [] else [blocks[n].id]
  }

  /** The `k`-th pair after the brief: the model's calls, and their results
      under the same ids in the same order. */
  predicate IsPairAt(messages: seq<Message>, k: nat) {
    2 * k + 2 < |messages|
    && var said, answered := messages[2 * k + 1], messages[2 * k + 2];
    && said.Assistant? && answered.User? && IdsOf(said.content) == IdsOf(answered.content)
    && (forall b :: b in said.content ==> !b.ToolResult?) && (forall b :: b in answered.content ==> b.ToolResult?)
  }

  function Recorded(records: seq<TurnRecord>, key: string): int {
    if records == [] then 0
    else
      var n := |records| - 1;
      Recorded(records[..n], key) + if key in records[n].usage then records[n].usage[key] else 0
  }

  /** The `k`-th record: its number, and the size of all that was appended
      before that turn. */
  predicate IsRecordAt(records: seq<TurnRecord>, messages: seq<Message>, k: nat, sizes: Sizes) {
    k < |records| && 2 * k + 1 <= |messages|
    && records[k].turn == k + 1 && records[k].transcriptChars == Added(messages[..2 * k + 1], sizes)
  }

  /** What a caller can check on the result and the messages alone. */
  predicate IsReport(r: LoopResult, messages: seq<Message>, brief: string, limit: int, sizes: Sizes) {
    && r.exitReason.Some? && r.turns == |r.perTurn| && r.turns <= (if limit > 0 then limit else 0)
    && |messages| == 1 + 2 * (if r.exitReason == Some(Completed) then r.turns - 1 else r.turns)
      && messages[0] == Brief(brief)
    && (forall k :: 0 <= k < (|messages| - 1) / 2 ==> IsPairAt(messages, k))
    && (forall k :: 0 <= k < r.turns ==> IsRecordAt(r.perTurn, messages, k, sizes))
    && (forall key :: key in USAGE_KEYS ==> Get(r.usage, key) == Recorded(r.perTurn, key))
  }

  lemma {:induction false} ResultIds(calls: seq<ToolCall>, results: seq<Block>)
    requires |results| == |calls| && forall i :: 0 <= i < |results| ==>
             results[i].ToolResult? && results[i].id == calls[i].id
    ensures IdsOf(results) == seq(|calls|, i requires 0 <= i < |calls| => calls[i].id)
  {
    if calls == [] {
    } else {
      var n := |calls| - 1;
      ResultIds(calls[..n], results[..n]);
    }
  }

  lemma {:induction false} ContentIds(text: string, calls: seq<ToolCall>, stop: Option<string>)
    ensures IdsOf(AssistantContent(Completion(text, calls, map[], stop)))
            == seq(|calls|, i requires 0 <= i < |calls| => calls[i].id)
  {
    var content := AssistantContent(Completion(text, calls, map[], stop));
    if calls == [] {
      assert text != "" ==> content[..0] == [];
    } else {
      var n := |calls| - 1;
      ContentIds(text, calls[..n], stop);
      assert content[..|content| - 1] == AssistantContent(Completion(text, calls[..n], map[], stop));
      assert content[|content| - 1] == ToolUse(calls[n].id, calls[n].name, calls[n].input);
    }
  }

  lemma ExchangesPair(e: Exchange)
    requires IsAnswered(e)
    ensures IdsOf(AssistantContent(e.completion)) == IdsOf(e.results)
    ensures forall b :: b in AssistantContent(e.completion) ==> !b.ToolResult?
    ensures forall b :: b in e.results ==> b.ToolResult?
  {
    var c := e.completion;
    ContentIds(c.text, c.toolCalls, c.stop);
    assert AssistantContent(c) == AssistantContent(Completion(c.text, c.toolCalls, map[], c.stop));
    ResultIds(c.toolCalls, e.results);
  }

  /** A conversation is the brief and one pair per exchange. */
  lemma {:induction false} ConversationPairs(brief: string, exchanges: seq<Exchange>, cached: bool, marked: nat)
    requires AreExchanges(exchanges)
    ensures var m := Conversation(brief, exchanges, cached, marked);
            |m| == 1 + 2 * |exchanges| && m[0] == Brief(brief) && forall k :: 0 <= k < |exchanges| ==> IsPairAt(m, k)
  {
    if exchanges == [] {
    } else {
      var n := |exchanges| - 1;
      ConversationPairs(brief, exchanges[..n], cached, marked);
      ExchangesPair(exchanges[n]);
      var before := Conversation(brief, exchanges[..n], cached, marked);
      PairsStay(before, [Assistant(AssistantContent(exchanges[n].completion))]
                        + [User(exchanges[n].results, cached && n < marked && exchanges[n].results != [])], n);
    }
  }

  /** Its beginning is the conversation of the first exchanges. */
  lemma {:induction false} ConversationBegins(brief: string, exchanges: seq<Exchange>, cached: bool, marked: nat,
                                              k: nat)
    requires AreExchanges(exchanges) && k <= |exchanges|
    ensures var m := Conversation(brief, exchanges, cached, marked);
            2 * k + 1 <= |m| && m[..2 * k + 1] == Conversation(brief, exchanges[..k], cached, marked)
  {
    ConversationPairs(brief, exchanges, cached, marked);
    var n := |exchanges| - 1;
    if k > n {
      assert exchanges[..k] == exchanges;
    } else {
      ConversationBegins(brief, exchanges[..n], cached, marked, k);
      assert exchanges[..n][..k] == exchanges[..k];
    }
  }

  /** And it adds what the exchanges add. */
  lemma {:induction false} ConversationAdds(brief: string, exchanges: seq<Exchange>, cached: bool, marked: nat,
                                            sizes: Sizes)
    ensures Added(Conversation(brief, exchanges, cached, marked), sizes) == Chars(exchanges, sizes)
  {
    if exchanges == [] {
      assert [Brief(brief)][..0] == [];
    } else {
      var n := |exchanges| - 1;
      ConversationAdds(brief, exchanges[..n], cached, marked, sizes);
      AddedPair(Conversation(brief, exchanges[..n], cached, marked),
                [Assistant(AssistantContent(exchanges[n].completion))]
                + [User(exchanges[n].results, cached && n < marked && exchanges[n].results != [])], sizes);
    }
  }

  lemma AddedPair(before: seq<Message>, pair: seq<Message>, sizes: Sizes)
    requires |pair| == 2 && pair[0].Assistant? && pair[1].User?
    ensures Added(before + pair, sizes)
            == Added(before, sizes) + (sizes.content(pair[0].content) + sizes.content(pair[1].content))
  {
    assert (before + pair)[..|before| + 1] == before + [pair[0]];
    assert (before + [pair[0]])[..|before|] == before;
  }

  lemma PairsStay(before: seq<Message>, pair: seq<Message>, n: nat)
    requires |before| == 1 + 2 * n && |pair| == 2
    requires pair[0].Assistant? && pair[1].User? && IdsOf(pair[0].content) == IdsOf(pair[1].content)
    requires (forall b :: b in pair[0].content ==> !b.ToolResult?) && forall b :: b in pair[1].content ==> b.ToolResult?
    requires forall k :: 0 <= k < n ==> IsPairAt(before, k)
    ensures forall k :: 0 <= k <= n ==> IsPairAt(before + pair, k)
  {
    var after := before + pair;
    assert after[2 * n + 1] == pair[0] && after[2 * n + 2] == pair[1];
    forall k | 0 <= k < n
      ensures IsPairAt(after, k)
    {
      assert IsPairAt(before, k) && after[2 * k + 1] == before[2 * k + 1] && after[2 * k + 2] == before[2 * k + 2];
    }
  }

  lemma {:induction false} RecordedIsSaid(records: seq<TurnRecord>, said: seq<Completion>, key: string)
    requires |records| == |said| && forall k :: 0 <= k < |records| ==> records[k].usage == said[k].usage
    ensures Recorded(records, key) == SumOf(said, key)
  {
    if records == [] {
    } else {
      var n := |records| - 1;
      RecordedIsSaid(records[..n], said[..n], key);
    }
  }

  lemma RecordsReport(r: LoopResult, exchanges: seq<Exchange>, final: Option<Completion>, messages: seq<Message>,
                      brief: string, cached: bool, marked: nat, limit: int, hasDeadline: bool, sizes: Sizes, k: nat)
    requires IsAccount(r, exchanges, final, limit, hasDeadline, sizes) && k < r.turns
    requires messages == Conversation(brief, exchanges, cached, marked)
    ensures IsRecordAt(r.perTurn, messages, k, sizes)
  {
    ConversationBegins(brief, exchanges, cached, marked, k);
    ConversationAdds(brief, exchanges[..k], cached, marked, sizes);
    if k == |exchanges| {
      assert exchanges[..k] == exchanges;
    }
  }

  lemma UsageReport(r: LoopResult, exchanges: seq<Exchange>, final: Option<Completion>, limit: int, hasDeadline: bool,
                    sizes: Sizes, key: string)
    requires IsAccount(r, exchanges, final, limit, hasDeadline, sizes) && key in USAGE_KEYS
    ensures Get(r.usage, key) == Recorded(r.perTurn, key)
  {
    var said := Said(exchanges) + if final.Some? then [final.value] else [];
    if final.Some? {
      OneMoreSaid(Said(exchanges), final.value);
    } else {
      assert said == Said(exchanges);
    }
    RecordedIsSaid(r.perTurn, said, key);
    TotalsAreSums(said, key);
  }

  /** The text of a finished run is the last one that is not empty, and the
      usage the total, over all that the model said. */
  lemma AccountTells(r: LoopResult, exchanges: seq<Exchange>, final: Option<Completion>, limit: int, hasDeadline: bool,
                     sizes: Sizes)
    requires IsAccount(r, exchanges, final, limit, hasDeadline, sizes)
    ensures var said := Said(exchanges) + if final.Some? then [final.value] else [];
            && |said| == r.turns && r.usage == TotalUsage(said) && IsLastText(said, r.text)
  {
    var said := Said(exchanges) + if final.Some? then [final.value] else [];
    if final.Some? {
      OneMoreSaid(Said(exchanges), final.value);
    } else {
      assert said == Said(exchanges);
    }
    LastTextExactly(said);
  }

  ghost predicate IsLastText(said: seq<Completion>, text: string) {
    if text == "" then forall i :: 0 <= i < |said| ==> said[i].text == ""
    else exists i :: 0 <= i < |said| && said[i].text == text && forall j :: i < j < |said| ==> said[j].text == ""
  }

  lemma {:induction false} LastTextExactly(said: seq<Completion>)
    ensures IsLastText(said, LastText(said))
  {
    if said == [] {
    } else {
      var n := |said| - 1;
      LastTextExactly(said[..n]);
      OneMoreText(said[..n], said[n], LastText(said[..n]));
      assert said[..n] + [said[n]] == said;
    }
  }

  lemma OneMoreText(said: seq<Completion>, c: Completion, text: string)
    requires IsLastText(said, text)
    ensures IsLastText(said + [c], if c.text != "" then c.text else text)
  {
    var all := said + [c];
    if c.text != "" {
      assert all[|said|].text == c.text;
    } else if text != "" {
      var i :| 0 <= i < |said| && said[i].text == text && forall j :: i < j < |said| ==> said[j].text == "";
      assert all[i].text == text && forall j :: i < j < |all| ==> all[j].text == "";
    }
  }

  /** A balanced account can be read off the result and the messages. */
  lemma AccountIsReport(r: LoopResult, exchanges: seq<Exchange>, final: Option<Completion>, messages: seq<Message>,
                        brief: string, cached: bool, limit: int, hasDeadline: bool, sizes: Sizes)
    requires IsAccount(r, exchanges, final, limit, hasDeadline, sizes) && IsTalk(messages, brief, exchanges, cached)
    ensures IsReport(r, messages, brief, limit, sizes)
  {
    var marked: nat :| messages == Conversation(brief, exchanges, cached, marked);
    ConversationPairs(brief, exchanges, cached, marked);
    forall k | 0 <= k < r.turns
      ensures IsRecordAt(r.perTurn, messages, k, sizes)
    {
      RecordsReport(r, exchanges, final, messages, brief, cached, marked, limit, hasDeadline, sizes, k);
    }
    forall key | key in USAGE_KEYS
      ensures Get(r.usage, key) == Recorded(r.perTurn, key)
    {
      UsageReport(r, exchanges, final, limit, hasDeadline, sizes, key);
    }
  }

  /** Everything about a finished run: its account, its turns and why there are
      no more, what was said and what was sent. */
  ghost predicate IsOver(r: LoopResult, messages: seq<Message>, exchanges: seq<Exchange>, final: Option<Completion>,
                         requests: seq<seq<Message>>, brief: string, limit: int, hasDeadline: bool, cached: bool,
                         env: Env, sizes: Sizes)
  {
    && IsAccount(r, exchanges, final, limit, hasDeadline, sizes)
    && AreTurns(exchanges, hasDeadline, env) && IsEnd(r.exitReason, final, |exchanges|, limit, hasDeadline, env)
    && IsTalk(messages, brief, exchanges, cached) && AreRequests(requests, brief, exchanges, cached)
    && |requests| == r.turns + if r.exitReason == Some(TransportError) then 1 else 0
  }

  lemma StoppedIsOver(books: LoopResult, exchanges: seq<Exchange>, exit: Exit, messages: seq<Message>,
                      requests: seq<seq<Message>>, brief: string, limit: int, hasDeadline: bool, cached: bool, env: Env,
                      sizes: Sizes)
    requires IsBalanced(books, exchanges, sizes) && exit != Completed && books.turns <= (if limit > 0 then limit else 0)
    requires AreTurns(exchanges, hasDeadline, env) && IsEnd(Some(exit), None, |exchanges|, limit, hasDeadline, env)
    requires IsTalk(messages, brief, exchanges, cached) && AreRequests(requests, brief, exchanges, cached)
    requires |requests| == |exchanges| + if exit == TransportError then 1 else 0
    ensures IsOver(Stopped(books, exit), messages, exchanges, None, requests, brief, limit, hasDeadline, cached, env,
                   sizes)
    ensures IsReport(Stopped(books, exit), messages, brief, limit, sizes)
  {
    AccountIsReport(Stopped(books, exit), exchanges, None, messages, brief, cached, limit, hasDeadline, sizes);
  }

  lemma ClosedIsOver(books: LoopResult, exchanges: seq<Exchange>, final: Completion, messages: seq<Message>,
                     requests: seq<seq<Message>>, brief: string, limit: int, hasDeadline: bool, cached: bool, env: Env,
                     sizes: Sizes)
    requires IsBalanced(books, exchanges, sizes) && IsFinal(final) && books.turns < limit
    requires AreTurns(exchanges, hasDeadline, env)
    requires IsEnd(Some(Completed), Some(final), |exchanges|, limit, hasDeadline, env)
    requires IsTalk(messages, brief, exchanges, cached) && AreRequests(requests, brief, exchanges, cached)
    requires |requests| == |exchanges| + 1
    ensures IsOver(Closed(books, final, Chars(exchanges, sizes)), messages, exchanges, Some(final), requests, brief,
                   limit, hasDeadline, cached, env, sizes)
    ensures IsReport(Closed(books, final, Chars(exchanges, sizes)), messages, brief, limit, sizes)
  {
    AccountIsReport(Closed(books, final, Chars(exchanges, sizes)), exchanges, Some(final), messages, brief, cached,
                    limit, hasDeadline, sizes);
  }

  lemma NewRequest(requests: seq<seq<Message>>, brief: string, exchanges: seq<Exchange>, cached: bool)
    requires AreRequests(requests, brief, exchanges, cached) && |requests| == |exchanges|
    ensures AreRequests(requests + [Conversation(brief, exchanges, cached, |exchanges|)], brief, exchanges, cached)
  {
    assert exchanges[..|exchanges|] == exchanges;
  }

  /** The last turn's bookkeeping. */
  method CloseBooks(was: LoopResult, c: Completion, transcriptChars: nat) returns (r: LoopResult)
    ensures r == Closed(was, c, transcriptChars)
  {
    r := was.(turns := was.turns + 1);
    var usage := SumUsage(r.usage, c.usage);
    r := r.(usage := usage, perTurn := r.perTurn + [TurnRecord(r.turns, c.usage, c.stop, transcriptChars, [])]);
    if c.text != "" {
      r := r.(text := c.text);
    }
    r := r.(exitReason := Some(Completed));
  }

  /** The loop's variables before a turn. */
  ghost predicate IsUnderway(r: LoopResult, messages: seq<Message>, transcriptChars: nat, exchanges: seq<Exchange>,
                             requests: seq<seq<Message>>, brief: string, cached: bool, sizes: Sizes)
  {
    && IsBalanced(r, exchanges, sizes) && transcriptChars == Chars(exchanges, sizes)
    && messages == Conversation(brief, exchanges, cached, if exchanges == [] then 0 else |exchanges| - 1)
    && |requests| == |exchanges| && AreRequests(requests, brief, exchanges, cached)
  }

  /** A turn that goes on: its bookkeeping, the tools, and the two messages. */
  method GoOn(was: LoopResult, sent: seq<Message>, before: nat, ghost exchanges: seq<Exchange>,
              ghost requests: seq<seq<Message>>, brief: string, c: Completion, cached: bool, env: Env, sizes: Sizes)
    returns (r: LoopResult, messages: seq<Message>, transcriptChars: nat, ghost e: Exchange)
    requires IsBalanced(was, exchanges, sizes) && before == Chars(exchanges, sizes) && !IsFinal(c)
    requires sent == Conversation(brief, exchanges, cached, |exchanges|)
    requires AreRequests(requests, brief, exchanges, cached) && |requests| == |exchanges| + 1
    ensures r.turns == was.turns + 1
    ensures e.completion == c && AreAnswers(e.results, c, was.turns, env)
    ensures IsUnderway(r, messages, transcriptChars, exchanges + [e], requests, brief, cached, sizes)
  {
    r := was.(turns := was.turns + 1);
    var usage := SumUsage(r.usage, c.usage);
    r := r.(usage := usage);
    if c.text != "" {
      r := r.(text := c.text);
    }
    var results, calls := Dispatch(c, was.turns, env, sizes);
    e := Exchange(c, results);
    r := r.(perTurn := r.perTurn + [TurnRecord(r.turns, c.usage, c.stop, before, calls)]);
    ContinuedIsBalanced(was, exchanges, e, sizes);
    messages := sent + ([Assistant(AssistantContent(c))] + [User(results, false)]);
    transcriptChars := before + (sizes.content(AssistantContent(c)) + sizes.content(results));
    OneMoreExchange(brief, exchanges, e, cached, sizes);
    OneMoreRequest(requests, brief, exchanges, e, cached);
  }

  /** `run_loop`, whatever happens around it. `exchanges` are the turns that went
      on, `final` is the reply that did not. */
  method RunLoop(brief: string, limit: int, hasDeadline: bool, cached: bool, env: Env, sizes: Sizes)
    returns (r: LoopResult, messages: seq<Message>, ghost exchanges: seq<Exchange>, ghost final: Option<Completion>,
             ghost requests: seq<seq<Message>>)
    ensures IsReport(r, messages, brief, limit, sizes)
    ensures IsOver(r, messages, exchanges, final, requests, brief, limit, hasDeadline, cached, env, sizes)
  {
    r := LoopResult(0, "", false, false, None, map[], []);
    messages, exchanges, final, requests := [Brief(brief)], [], None, [];
    var transcriptChars := 0;
    while r.turns < limit
      invariant IsUnderway(r, messages, transcriptChars, exchanges, requests, brief, cached, sizes) && final.None?
      invariant r.turns <= (if limit > 0 then limit else 0) && AreTurns(exchanges, hasDeadline, env)
    {
      var t := env.turn(r.turns);
      if t.abort || (hasDeadline && t.late) {
        var exit := if t.abort then Aborted else Timeout;
        StoppedIsOver(r, exchanges, exit, messages, requests, brief, limit, hasDeadline, cached, env, sizes);
        r := Stopped(r, exit);
        return;
      }
      messages, requests := Send(messages, exchanges, requests, brief, cached);
      if t.reply.None? {
        StoppedIsOver(r, exchanges, TransportError, messages, requests, brief, limit, hasDeadline, cached, env, sizes);
        r := Stopped(r, TransportError);
        return;
      }
      if IsFinal(t.reply.value) {
        final := t.reply;
        ClosedIsOver(r, exchanges, t.reply.value, messages, requests, brief, limit, hasDeadline, cached, env, sizes);
        r := CloseBooks(r, t.reply.value, transcriptChars);
        return;
      }
      ghost var e;
      r, messages, transcriptChars, e :=
        GoOn(r, messages, transcriptChars, exchanges, requests, brief, t.reply.value, cached, env, sizes);
      OneMoreTurn(exchanges, e, hasDeadline, env);
      exchanges := exchanges + [e];
    }
    StoppedIsOver(r, exchanges, MaxTurns, messages, requests, brief, limit, hasDeadline, cached, env, sizes);
    r := Stopped(r, MaxTurns);
  }

  /** Marking the cache breakpoints and sending the request. */
  method Send(was: seq<Message>, ghost exchanges: seq<Exchange>, ghost before: seq<seq<Message>>, brief: string,
              cached: bool)
    returns (messages: seq<Message>, ghost requests: seq<seq<Message>>)
    requires was == Conversation(brief, exchanges, cached, if exchanges == [] then 0 else |exchanges| - 1)
    requires AreRequests(before, brief, exchanges, cached) && |before| == |exchanges|
    ensures messages == Conversation(brief, exchanges, cached, |exchanges|)
    ensures AreRequests(requests, brief, exchanges, cached) && |requests| == |exchanges| + 1
  {
    MarkingMarksTheLast(brief, exchanges, cached, if exchanges == [] then 0 else |exchanges| - 1);
    messages := Marked(was, cached);
    NewRequest(before, brief, exchanges, cached);
    requests := before + [messages];
  }

  // ----- Cache markers ------------------------------------------------------

  /** How many messages carry a marker; the system prefix carries one more. */
  function Markers(messages: seq<Message>): nat {
    if messages == [] then 0
    else
      var n := |messages| - 1;
      Markers(messages[..n]) + if messages[n].User? && messages[n].marked then 1 else 0
  }

  function WithResults(exchanges: seq<Exchange>): nat {
    if exchanges == [] then 0
    else var n := |exchanges| - 1; WithResults(exchanges[..n]) + if exchanges[n].results != [] then 1 else 0
  }

  lemma MarkersAppend(messages: seq<Message>, m: Message)
    ensures Markers(messages + [m]) == Markers(messages) + if m.User? && m.marked then 1 else 0
  {
    assert (messages + [m])[..|messages|] == messages;
  }

  /** The rolling marker is never taken off again: with caching on, the
      request after these exchanges carries one in every user message that has
      results. */
  lemma {:induction false} MarkersPileUp(brief: string, exchanges: seq<Exchange>, marked: nat)
    requires |exchanges| <= marked
    ensures Markers(Conversation(brief, exchanges, true, marked)) == WithResults(exchanges)
  {
    if exchanges == [] {
      assert [Brief(brief)][..0] == [];
    } else {
      var n := |exchanges| - 1;
      MarkersPileUp(brief, exchanges[..n], marked);
      var before := Conversation(brief, exchanges[..n], true, marked);
      var a := Assistant(AssistantContent(exchanges[n].completion));
      var u := User(exchanges[n].results, exchanges[n].results != []);
      assert before + ([a] + [u]) == (before + [a]) + [u];
      MarkersAppend(before, a);
      MarkersAppend(before + [a], u);
    }
  }

  /** So the two markers per request that the design allows, the prefix's and
      the rolling one, are all there is exactly until the second turn with
      results. */
  lemma TwoMarkersExactly(requests: seq<seq<Message>>, brief: string, exchanges: seq<Exchange>, k: nat)
    requires AreRequests(requests, brief, exchanges, true) && k < |requests|
    ensures 1 + Markers(requests[k]) <= 2 <==> WithResults(exchanges[..k]) <= 1
  {
    MarkersPileUp(brief, exchanges[..k], k);
  }
}
