// fromAnthropicMessages: Anthropic histories in, OpenAI-shaped messages out.

module AnthropicMessages {
  import opened Text
  import opened AnthropicStream
  import opened Buffered
  import Truncation

  // What a tool_result carries: a string, blocks with these texts, or another
  // value; `json` is its JSON text.
  datatype Result = Plain(text: string) | Blocks(texts: seq<string>, json: string) | Value(json: string)

  // A content block; Bare is a string inside the array.
  datatype InBlock<J> =
    | TextIn(text: string)
    | Bare(text: string)
    | ToolUse(id: string, name: string, input: J)
    | ToolResult(useId: string, result: Result)
    | Ignored

  // Shapeless: content that is neither a string nor an array.
  datatype InMessage<J> =
    | Said(role: string, text: string)
    | Turn(role: string, blocks: seq<InBlock<J>>)
    | Shapeless

  datatype ChatCall = ChatCall(id: string, name: string, args: string)

  datatype Chat = Chat(role: string, content: Option<string>, calls: seq<ChatCall>, callId: Option<string>)

  function TextOfBlock<J>(b: InBlock<J>): string {
    if b.TextIn? || b.Bare? then b.text else ""
  }

  predicate Filled(s: string) { s != "" }

  // .filter(Boolean).join("\n")
  function JoinFilled(texts: seq<string>): string {
    var filled := Filter(Filled, texts);
    if filled == [] then "" else Join(filled)
  }

  function Texts<J>(bs: seq<InBlock<J>>): seq<string> {
    if bs == [] then [] else [TextOfBlock(bs[0])] + Texts(bs[1..])
  }

  function BlocksToText<J>(bs: seq<InBlock<J>>): string {
    JoinFilled(Texts(bs))
  }

  function ResultText(r: Result): string {
    match r
    case Plain(text) => text
    case Blocks(texts, json) => if JoinFilled(texts) != "" then JoinFilled(texts) else json
    case Value(json) => json
  }

  // The tool calls of an assistant turn; stringify is JSON.stringify.
  function CallsOf<J>(stringify: J -> string, bs: seq<InBlock<J>>): seq<ChatCall> {
    if bs == [] then []
    else
      (if bs[0].ToolUse? then [ChatCall(bs[0].id, bs[0].name, stringify(bs[0].input))] else [])
      + CallsOf(stringify, bs[1..])
  }

  // One `tool` message for each tool_result.
  function ResultsOf<J>(bs: seq<InBlock<J>>): seq<Chat> {
    if bs == [] then []
    else
      (if bs[0].ToolResult? then [Chat("tool", Some(ResultText(bs[0].result)), [], Some(bs[0].useId))] else [])
      + ResultsOf(bs[1..])
  }

  function OrNull(text: string): Option<string> {
    if text == "" then None else Some(text)
  }

  // The text of a user turn, which follows the turn's results.
  function SaidText(text: string): seq<Chat> {
    if text != "" then [Chat("user", Some(text), [], None)] else []
  }

  function Convert<J>(stringify: J -> string, m: InMessage<J>): seq<Chat> {
    match m
    case Said(role, text) => [Chat(role, Some(text), [], None)]
    case Shapeless => []
    case Turn(role, blocks) =>
      if role == "assistant" then
        [Chat("assistant", OrNull(BlocksToText(blocks)), CallsOf(stringify, blocks), None)]
      else
        ResultsOf(blocks) + SaidText(BlocksToText(blocks))
  }

  function ConvertAll<J>(stringify: J -> string, ms: seq<InMessage<J>>): seq<Chat> {
    if ms == [] then [] else ConvertAll(stringify, ms[..|ms| - 1]) + Convert(stringify, ms[|ms| - 1])
  }

  method FromAnthropicMessages<J>(stringify: J -> string, ms: seq<InMessage<J>>) returns (out: seq<Chat>)
    ensures out == ConvertAll(stringify, ms)
  {
    out := [];
    var i := 0;
    while i < |ms|
      invariant 0 <= i <= |ms|
      invariant out == ConvertAll(stringify, ms[..i])
    {
      assert ms[..i + 1][..i] == ms[..i];
      var m := ms[i];
      match m {
        case Said(role, text) =>
          out := out + [Chat(role, Some(text), [], None)];
        case Shapeless =>
        case Turn(role, blocks) =>
          if role == "assistant" {
            out := out + [Chat("assistant", OrNull(BlocksToText(blocks)), CallsOf(stringify, blocks), None)];
          } else {
            out := out + ResultsOf(blocks);
            var text := BlocksToText(blocks);
            if text != "" {
              out := out + [Chat("user", Some(text), [], None)];
            }
          }
      }
      assert out == ConvertAll(stringify, ms[..i]) + Convert(stringify, m);
      i := i + 1;
    }
    assert ms[..i] == ms;
  }

  // --- conservation ---------------------------------------------------------

  // The calls and the results an Anthropic history holds: tool_use blocks of
  // assistant turns, tool_result blocks of the others.
  function CallIdsIn<J>(ms: seq<InMessage<J>>): seq<string> {
    if ms == [] then []
    else
      CallIdsIn(ms[..|ms| - 1])
      + (var m := ms[|ms| - 1]; if m.Turn? && m.role == "assistant" then UseIds(m.blocks) else [])
  }

  function UseIds<J>(bs: seq<InBlock<J>>): seq<string> {
    if bs == [] then [] else (if bs[0].ToolUse? then [bs[0].id] else []) + UseIds(bs[1..])
  }

  function ResultIdsIn<J>(ms: seq<InMessage<J>>): seq<string> {
    if ms == [] then []
    else
      ResultIdsIn(ms[..|ms| - 1])
      + (var m := ms[|ms| - 1]; if m.Turn? && m.role != "assistant" then ResultIds(m.blocks) else [])
  }

  function ResultIds<J>(bs: seq<InBlock<J>>): seq<string> {
    if bs == [] then [] else (if bs[0].ToolResult? then [bs[0].useId] else []) + ResultIds(bs[1..])
  }

  function IdsOf(calls: seq<ChatCall>): seq<string> {
    if calls == [] then [] else [calls[0].id] + IdsOf(calls[1..])
  }

  // The same of the converted messages.
  function ChatCallIds(cs: seq<Chat>): seq<string> {
    if cs == [] then [] else IdsOf(cs[0].calls) + ChatCallIds(cs[1..])
  }

  function ChatResultIds(cs: seq<Chat>): seq<string> {
    if cs == [] then [] else (if cs[0].callId.Some? then [cs[0].callId.value] else []) + ChatResultIds(cs[1..])
  }

  lemma {:induction false} ChatIdsAppend(a: seq<Chat>, b: seq<Chat>)
    ensures ChatCallIds(a + b) == ChatCallIds(a) + ChatCallIds(b)
    ensures ChatResultIds(a + b) == ChatResultIds(a) + ChatResultIds(b)
  {
    if a == [] {
      NothingInFront(b);
    } else {
      HeadTail(a, b);
      ChatIdsAppend(a[1..], b);
      Assoc(IdsOf(a[0].calls), ChatCallIds(a[1..]), ChatCallIds(b));
      Assoc(if a[0].callId.Some? then [a[0].callId.value] else [], ChatResultIds(a[1..]), ChatResultIds(b));
    }
  }

  lemma {:induction false} CallIdsKept<J>(stringify: J -> string, bs: seq<InBlock<J>>)
    ensures IdsOf(CallsOf(stringify, bs)) == UseIds(bs)
  {
    if bs != [] {
      CallIdsKept(stringify, bs[1..]);
      if bs[0].ToolUse? {
        assert CallsOf(stringify, bs)[1..] == CallsOf(stringify, bs[1..]);
      } else {
        assert CallsOf(stringify, bs) == CallsOf(stringify, bs[1..]);
      }
    }
  }

  lemma {:induction false} ResultIdsKept<J>(bs: seq<InBlock<J>>)
    ensures ChatResultIds(ResultsOf(bs)) == ResultIds(bs) && ChatCallIds(ResultsOf(bs)) == []
    ensures forall i :: 0 <= i < |ResultsOf(bs)| ==> ResultsOf(bs)[i].role == "tool"
  {
    if bs != [] {
      ResultIdsKept(bs[1..]);
      if bs[0].ToolResult? {
        assert ResultsOf(bs)[1..] == ResultsOf(bs[1..]);
      } else {
        assert ResultsOf(bs) == ResultsOf(bs[1..]);
      }
    }
  }

  lemma OneChat(c: Chat)
    ensures ChatCallIds([c]) == IdsOf(c.calls)
    ensures ChatResultIds([c]) == if c.callId.Some? then [c.callId.value] else []
  {
    assert [c][1..] == [];
  }

  lemma ConvertKeepsIds<J>(stringify: J -> string, m: InMessage<J>)
    ensures ChatCallIds(Convert(stringify, m)) == if m.Turn? && m.role == "assistant" then UseIds(m.blocks) else []
    ensures ChatResultIds(Convert(stringify, m)) == if m.Turn? && m.role != "assistant" then ResultIds(m.blocks) else []
  {
    match m {
      case Said(role, text) => OneChat(Chat(role, Some(text), [], None));
      case Shapeless =>
      case Turn(role, blocks) =>
        if role == "assistant" {
          CallIdsKept(stringify, blocks);
          OneChat(Chat("assistant", OrNull(BlocksToText(blocks)), CallsOf(stringify, blocks), None));
        } else {
          ResultIdsKept(blocks);
          var said := Chat("user", Some(BlocksToText(blocks)), [], None);
          OneChat(said);
          ChatIdsAppend(ResultsOf(blocks), SaidText(BlocksToText(blocks)));
        }
    }
  }

  // Every call and every result comes through, in number and in order, on every history.
  lemma {:induction false} CallsAndResultsConserved<J>(stringify: J -> string, ms: seq<InMessage<J>>)
    ensures ChatCallIds(ConvertAll(stringify, ms)) == CallIdsIn(ms)
    ensures ChatResultIds(ConvertAll(stringify, ms)) == ResultIdsIn(ms)
  {
    if ms != [] {
      var init, m := ms[..|ms| - 1], ms[|ms| - 1];
      CallsAndResultsConserved(stringify, init);
      ConvertKeepsIds(stringify, m);
      ChatIdsAppend(ConvertAll(stringify, init), Convert(stringify, m));
    }
  }

  // --- pairing --------------------------------------------------------------

  // Anthropic's own rules: two roles, and every result names a tool_use of the
  // assistant turn directly before it.
  ghost predicate ValidHistory<J>(ms: seq<InMessage<J>>) {
    forall i :: 0 <= i < |ms| ==> ValidTurn(ms, i)
  }

  ghost predicate ValidTurn<J>(ms: seq<InMessage<J>>, i: nat)
    requires i < |ms|
  {
    var m := ms[i];
    && (m.Said? ==> m.role == "user" || m.role == "assistant")
    && (m.Turn? && m.role != "assistant" && ResultIds(m.blocks) != [] ==>
          && i > 0 && ms[i - 1].Turn? && ms[i - 1].role == "assistant"
          && forall id :: id in ResultIds(m.blocks) ==> id in UseIds(ms[i - 1].blocks))
  }

  function IdSet(calls: seq<ChatCall>): set<string> {
    set id | id in IdsOf(calls)
  }

  // A converted message as the truncation stage sees it.
  function AsMessage(c: Chat): Truncation.Message {
    Truncation.Message(c.role, if c.content.Some? then Truncation.Str(c.content.value) else Truncation.NoContent,
                       IdSet(c.calls), c.callId)
  }

  function AsMessages(cs: seq<Chat>): (r: seq<Truncation.Message>)
    ensures |r| == |cs| && forall i :: 0 <= i < |cs| ==> r[i] == AsMessage(cs[i])
  {
    seq(|cs|, i requires 0 <= i < |cs| => AsMessage(cs[i]))
  }

  // In a run of tool messages right behind message j, everyone's owner is j.
  lemma {:induction false} RunOwner(ms: seq<Truncation.Message>, j: nat, i: nat)
    requires j < i < |ms| && !Truncation.IsToolResult(ms[j])
    requires forall k :: j < k < i ==> Truncation.IsToolResult(ms[k])
    ensures Truncation.Owner(ms, i) == Some(j)
  {
    if i - 1 > j {
      RunOwner(ms, j, i - 1);
    }
  }

  // Appending a message's chats keeps the pairing of what is there.
  lemma PairedPrefix(ms: seq<Truncation.Message>, more: seq<Truncation.Message>, i: nat)
    requires i < |ms|
    ensures Truncation.PairedAt(ms + more, i) == Truncation.PairedAt(ms, i)
  {
    OwnerPrefix(ms, more, i);
    assert (ms + more)[i] == ms[i];
    if Truncation.Owner(ms, i).Some? {
      assert (ms + more)[Truncation.Owner(ms, i).value] == ms[Truncation.Owner(ms, i).value];
    }
  }

  lemma {:induction false} OwnerPrefix(ms: seq<Truncation.Message>, more: seq<Truncation.Message>, i: nat)
    requires i < |ms|
    ensures Truncation.Owner(ms + more, i) == Truncation.Owner(ms, i)
  {
    if i > 0 {
      assert (ms + more)[i - 1] == ms[i - 1];
      OwnerPrefix(ms, more, i - 1);
    }
  }

  lemma {:induction false} ResultIdAt<J>(bs: seq<InBlock<J>>, i: nat)
    requires i < |ResultsOf(bs)|
    ensures ResultsOf(bs)[i].callId.Some? && ResultsOf(bs)[i].callId.value in ResultIds(bs)
  {
    if bs[0].ToolResult? {
      if i > 0 {
        ResultIdAt(bs[1..], i - 1);
        assert ResultsOf(bs)[i] == ResultsOf(bs[1..])[i - 1];
      }
    } else {
      assert ResultsOf(bs) == ResultsOf(bs[1..]);
      ResultIdAt(bs[1..], i);
    }
  }

  // An assistant turn is the last message out, with its calls.
  lemma AssistantLast<J>(stringify: J -> string, ms: seq<InMessage<J>>)
    requires ms != [] && ms[|ms| - 1].Turn? && ms[|ms| - 1].role == "assistant"
    ensures var out := ConvertAll(stringify, ms);
            && |out| > 0 && out[|out| - 1].role == "assistant" && out[|out| - 1].callId == None
            && IdsOf(out[|out| - 1].calls) == UseIds(ms[|ms| - 1].blocks)
  {
    CallIdsKept(stringify, ms[|ms| - 1].blocks);
  }

  // A list well paired so far, ending in an assistant message, and a run of tool
  // messages that answer its calls.
  lemma RunPaired(before: seq<Truncation.Message>, run: seq<Truncation.Message>)
    requires Truncation.WellPaired(before)
    requires run != [] ==> before != [] && !Truncation.IsToolResult(before[|before| - 1])
    requires forall k :: 0 <= k < |run| ==>
               Truncation.IsToolResult(run[k])
               && Truncation.AnswersOf(run[k]) <= Truncation.CallsOf(before[|before| - 1])
    ensures Truncation.WellPaired(before + run)
  {
    var all := before + run;
    forall i | 0 <= i < |all| ensures Truncation.PairedAt(all, i) {
      if i < |before| {
        PairedPrefix(before, run, i);
        assert Truncation.PairedAt(before, i);
      } else {
        RunOwner(all, |before| - 1, i);
      }
    }
  }

  // A message that is no tool result can always follow.
  lemma OtherPaired(before: seq<Truncation.Message>, m: Truncation.Message)
    requires Truncation.WellPaired(before) && !Truncation.IsToolResult(m)
    ensures Truncation.WellPaired(before + [m])
  {
    var all := before + [m];
    forall i | 0 <= i < |all| ensures Truncation.PairedAt(all, i) {
      if i < |before| {
        PairedPrefix(before, [m], i);
        assert Truncation.PairedAt(before, i);
      }
    }
  }

  lemma AsMessagesAppend(a: seq<Chat>, b: seq<Chat>)
    ensures AsMessages(a + b) == AsMessages(a) + AsMessages(b)
  {
  }

  // c is a tool message that answers a call of the last message before it.
  ghost predicate AnswersLast(before: seq<Chat>, c: Chat) {
    && before != [] && !Truncation.IsToolResult(AsMessage(before[|before| - 1]))
    && Truncation.IsToolResult(AsMessage(c))
    && Truncation.AnswersOf(AsMessage(c)) <= Truncation.CallsOf(AsMessage(before[|before| - 1]))
  }

  lemma RunFollows(before: seq<Chat>, run: seq<Chat>)
    requires Truncation.WellPaired(AsMessages(before))
    requires forall k :: 0 <= k < |run| ==> AnswersLast(before, run[k])
    ensures Truncation.WellPaired(AsMessages(before + run))
  {
    AsMessagesAppend(before, run);
    if run != [] {
      assert AnswersLast(before, run[0]);
      RunPaired(AsMessages(before), AsMessages(run));
    } else {
      NothingBehind(before);
    }
  }

  // One result of a valid turn answers a call of the message just converted.
  lemma ResultAnswers<J>(stringify: J -> string, ms: seq<InMessage<J>>, k: nat)
    requires ms != [] && ValidTurn(ms, |ms| - 1)
    requires ms[|ms| - 1].Turn? && ms[|ms| - 1].role != "assistant"
    requires k < |ResultsOf(ms[|ms| - 1].blocks)|
    ensures AnswersLast(ConvertAll(stringify, ms[..|ms| - 1]), ResultsOf(ms[|ms| - 1].blocks)[k])
  {
    var blocks := ms[|ms| - 1].blocks;
    ResultIdsKept(blocks);
    ResultIdAt(blocks, k);
    AssistantLast(stringify, ms[..|ms| - 1]);
    var before, c := ConvertAll(stringify, ms[..|ms| - 1]), ResultsOf(blocks)[k];
    var last := before[|before| - 1];
    assert c.callId.value in IdSet(last.calls);
    assert Truncation.AnswersOf(AsMessage(c)) == {c.callId.value};
    assert !Truncation.IsToolResult(AsMessage(last));
    assert Truncation.IsToolResult(AsMessage(c));
    assert c.callId.value in Truncation.CallsOf(AsMessage(last));
  }

  // The run one user turn turns into.
  lemma TurnRun<J>(stringify: J -> string, ms: seq<InMessage<J>>)
    requires ms != [] && ValidTurn(ms, |ms| - 1)
    requires ms[|ms| - 1].Turn? && ms[|ms| - 1].role != "assistant"
    requires Truncation.WellPaired(AsMessages(ConvertAll(stringify, ms[..|ms| - 1])))
    ensures Truncation.WellPaired(AsMessages(ConvertAll(stringify, ms[..|ms| - 1]) + ResultsOf(ms[|ms| - 1].blocks)))
  {
    var before, run := ConvertAll(stringify, ms[..|ms| - 1]), ResultsOf(ms[|ms| - 1].blocks);
    forall k | 0 <= k < |run| ensures AnswersLast(before, run[k]) {
      ResultAnswers(stringify, ms, k);
    }
    RunFollows(before, run);
  }

  lemma AppendOther(before: seq<Chat>, c: Chat)
    requires Truncation.WellPaired(AsMessages(before)) && !Truncation.IsToolResult(AsMessage(c))
    ensures Truncation.WellPaired(AsMessages(before + [c]))
  {
    AsMessagesAppend(before, [c]);
    assert AsMessages([c]) == [AsMessage(c)];
    OtherPaired(AsMessages(before), AsMessage(c));
  }

  // On every valid Anthropic history, each `tool` message out stands in a run of
  // tool messages directly behind the assistant message whose calls carry its id.
  lemma {:induction false} ConversionPairs<J>(stringify: J -> string, ms: seq<InMessage<J>>)
    requires ValidHistory(ms)
    ensures Truncation.WellPaired(AsMessages(ConvertAll(stringify, ms)))
  {
    if ms != [] {
      var n := |ms| - 1;
      forall i | 0 <= i < n ensures ValidTurn(ms[..n], i) {
        assert ValidTurn(ms, i);
      }
      ConversionPairs(stringify, ms[..n]);
      assert ValidTurn(ms, n);
      TurnPaired(stringify, ms);
    }
  }

  lemma PlainIsNoResult(c: Chat)
    requires c.role == "user" || c.role == "assistant"
    ensures !Truncation.IsToolResult(AsMessage(c))
  {
  }

  lemma OneMore<J>(stringify: J -> string, ms: seq<InMessage<J>>, c: Chat)
    requires ms != [] && Convert(stringify, ms[|ms| - 1]) == [c]
    requires c.role == "user" || c.role == "assistant"
    requires Truncation.WellPaired(AsMessages(ConvertAll(stringify, ms[..|ms| - 1])))
    ensures Truncation.WellPaired(AsMessages(ConvertAll(stringify, ms)))
  {
    PlainIsNoResult(c);
    AppendOther(ConvertAll(stringify, ms[..|ms| - 1]), c);
  }

  lemma TurnPaired<J>(stringify: J -> string, ms: seq<InMessage<J>>)
    requires ms != [] && ValidTurn(ms, |ms| - 1)
    requires Truncation.WellPaired(AsMessages(ConvertAll(stringify, ms[..|ms| - 1])))
    ensures Truncation.WellPaired(AsMessages(ConvertAll(stringify, ms)))
  {
    var m := ms[|ms| - 1];
    match m {
      case Shapeless => ShapelessTurn(stringify, ms);
      case Said(role, text) => OneMore(stringify, ms, Chat(role, Some(text), [], None));
      case Turn(role, blocks) =>
        if role == "assistant" {
          AssistantTurn(stringify, ms);
        } else {
          UserTurnPaired(stringify, ms);
        }
    }
  }

  lemma ShapelessTurn<J>(stringify: J -> string, ms: seq<InMessage<J>>)
    requires ms != [] && ms[|ms| - 1].Shapeless?
    ensures ConvertAll(stringify, ms) == ConvertAll(stringify, ms[..|ms| - 1])
  {
    assert ConvertAll(stringify, ms) == ConvertAll(stringify, ms[..|ms| - 1]) + [];
  }

  lemma AssistantTurn<J>(stringify: J -> string, ms: seq<InMessage<J>>)
    requires ms != [] && ms[|ms| - 1].Turn? && ms[|ms| - 1].role == "assistant"
    requires Truncation.WellPaired(AsMessages(ConvertAll(stringify, ms[..|ms| - 1])))
    ensures Truncation.WellPaired(AsMessages(ConvertAll(stringify, ms)))
  {
    var blocks := ms[|ms| - 1].blocks;
    OneMore(stringify, ms, Chat("assistant", OrNull(BlocksToText(blocks)), CallsOf(stringify, blocks), None));
  }

  lemma UserTurnPaired<J>(stringify: J -> string, ms: seq<InMessage<J>>)
    requires ms != [] && ValidTurn(ms, |ms| - 1) && ms[|ms| - 1].Turn? && ms[|ms| - 1].role != "assistant"
    requires Truncation.WellPaired(AsMessages(ConvertAll(stringify, ms[..|ms| - 1])))
    ensures Truncation.WellPaired(AsMessages(ConvertAll(stringify, ms)))
  {
    TurnRun(stringify, ms);
    UserTurn(stringify, ms);
    SaidAfter(
      ConvertAll(stringify, ms[..|ms| - 1]) + ResultsOf(ms[|ms| - 1].blocks), BlocksToText(ms[|ms| - 1].blocks));
  }

  lemma SaidAfter(before: seq<Chat>, text: string)
    requires Truncation.WellPaired(AsMessages(before))
    ensures Truncation.WellPaired(AsMessages(before + SaidText(text)))
  {
    if text != "" {
      AppendOther(before, Chat("user", Some(text), [], None));
    } else {
      NothingBehind(before);
    }
  }

  lemma UserTurn<J>(stringify: J -> string, ms: seq<InMessage<J>>)
    requires ms != [] && ms[|ms| - 1].Turn? && ms[|ms| - 1].role != "assistant"
    ensures var blocks := ms[|ms| - 1].blocks;
            ConvertAll(stringify, ms) ==
              ConvertAll(stringify, ms[..|ms| - 1]) + ResultsOf(blocks) + SaidText(BlocksToText(blocks))
  {
    var blocks := ms[|ms| - 1].blocks;
    Assoc(ConvertAll(stringify, ms[..|ms| - 1]), ResultsOf(blocks), SaidText(BlocksToText(blocks)));
  }

  // So the history the gateway forwards is still paired after any truncation.
  lemma ForwardedHistoryPaired<J>(stringify: J -> string, ms: seq<InMessage<J>>, window: int)
    requires ValidHistory(ms)
    ensures Truncation.WellPaired(Truncation.Kept(AsMessages(ConvertAll(stringify, ms)), window))
  {
    ConversionPairs(stringify, ms);
    Truncation.TruncationKeepsPairing(AsMessages(ConvertAll(stringify, ms)), window);
  }

  // --- round trip -----------------------------------------------------------

  // An answer's content, resent by the client as history.
  function AsHistory<J>(c: Content<J>): InBlock<J> {
    match c
    case Said(text) => TextIn(text)
    case Used(Given(id), name, input) => ToolUse(id, name, input)
    case Used(Made, name, input) => ToolUse("", name, input)
  }

  function Resent<J>(cs: seq<Content<J>>): seq<InBlock<J>> {
    if cs == [] then [] else [AsHistory(cs[0])] + Resent(cs[1..])
  }

  function Returned<J>(json: Json<J>, stringify: J -> string, calls: seq<Called>): seq<ChatCall> {
    if calls == [] then []
    else
      [ChatCall(calls[0].id, calls[0].name, stringify(InputOf(json, calls[0].args)))]
      + Returned(json, stringify, calls[1..])
  }

  function Blocks<J>(json: Json<J>, calls: seq<Called>): seq<Content<J>> {
    seq(|calls|, i requires 0 <= i < |calls| => BlockOf(json, calls[i]))
  }

  lemma {:induction false} CallsReturn<J>(json: Json<J>, stringify: J -> string, calls: seq<Called>)
    ensures CallsOf(stringify, Resent(Blocks(json, calls))) == Returned(json, stringify, calls)
    ensures Filter(Filled, Texts(Resent(Blocks(json, calls)))) == []
  {
    if calls != [] {
      var bs := Blocks(json, calls);
      assert bs[0] == BlockOf(json, calls[0]) && bs[1..] == Blocks(json, calls[1..]);
      CallsReturn(json, stringify, calls[1..]);
      var rs := Resent(bs);
      assert rs[0] == AsHistory(bs[0]) && rs[1..] == Resent(bs[1..]);
      assert rs[0].ToolUse? && rs[0].id == calls[0].id;
      assert Texts(rs)[0] == "" && Texts(rs)[1..] == Texts(rs[1..]);
    }
  }

  // Round trip: an answer written by toAnthropicResponse and resent as history
  // comes back as one assistant message with the same text, call ids and names,
  // and each call's arguments as the JSON text of the object they parsed to. (A
  // call without an id was given a made-up one, which is not the point here.)
  lemma AnswerRoundTrips<J>(json: Json<J>, stringify: J -> string, a: Answer)
    requires forall i :: 0 <= i < |a.calls| ==> a.calls[i].id != ""
    ensures Convert(stringify, Turn("assistant", Resent(Response(json, a))))
         == [Chat("assistant", OrNull(a.content), Returned(json, stringify, a.calls), None)]
  {
    var blocks := Blocks(json, a.calls);
    CallsReturn(json, stringify, a.calls);
    var rs := Resent(Response(json, a));
    if a.content == "" {
      assert Response(json, a) == blocks;
      assert rs == Resent(blocks);
    } else {
      var r := Response(json, a);
      assert r[0] == Content.Said(a.content) && r[1..] == blocks;
      assert rs[0] == TextIn(a.content) && rs[1..] == Resent(blocks);
      assert CallsOf(stringify, rs) == [] + CallsOf(stringify, rs[1..]);
      assert Texts(rs) == [a.content] + Texts(rs[1..]);
      assert Texts(rs)[1..] == Texts(rs[1..]);
      assert Filter(Filled, Texts(rs)) == [a.content];
      assert BlocksToText(rs) == a.content;
      assert CallsOf(stringify, rs) == Returned(json, stringify, a.calls);
    }
  }

  function AsCalled(calls: seq<ChatCall>): seq<Called> {
    if calls == [] then [] else [Called(calls[0].id, calls[0].name, calls[0].args)] + AsCalled(calls[1..])
  }

  lemma ReturnedTail<J>(json: Json<J>, stringify: J -> string, calls: seq<Called>)
    requires calls != []
    ensures Returned(json, stringify, calls)[1..] == Returned(json, stringify, calls[1..])
  {
  }

  lemma BlocksHead<J>(json: Json<J>, calls: seq<Called>)
    requires calls != []
    ensures Blocks(json, calls) == [BlockOf(json, calls[0])] + Blocks(json, calls[1..])
  {
  }

  // The arguments mean what they meant, and a second trip changes nothing more.
  lemma {:induction false} SecondTripChangesNothing<J>(json: Json<J>, stringify: J -> string, calls: seq<Called>)
    requires forall v :: stringify(v) != "" && json.parse(stringify(v)) == Some(v)
    ensures var again := AsCalled(Returned(json, stringify, calls));
            && Returned(json, stringify, again) == Returned(json, stringify, calls)
            && Blocks(json, again) == Blocks(json, calls)
  {
    if calls != [] {
      SecondTripChangesNothing(json, stringify, calls[1..]);
      var once := Returned(json, stringify, calls);
      var again := AsCalled(once);
      ReturnedTail(json, stringify, calls);
      BlocksHead(json, calls);
      assert again[1..] == AsCalled(once[1..]);
      assert InputOf(json, again[0].args) == InputOf(json, calls[0].args);
      ReturnedTail(json, stringify, again);
      BlocksHead(json, again);
    }
  }
}
