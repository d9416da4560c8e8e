// Nothing that an Anthropic history says is lost, changed or moved when it is
// converted (fromAnthropicMessages in src/inbound/anthropicInbound.js).

module AnthropicHistory {
  import opened Text
  import opened AnthropicMessages

  // What a history says, whatever messages it is packed in.
  datatype Entry =
    | Spoken(role: string, text: string)
    | Called(id: string, name: string, args: string)
    | Answered(role: string, id: string, text: string)

  // --- what the client sent ---------------------------------------------------------

  // The texts that are not empty.
  function Said(texts: seq<string>): seq<string> {
    if texts == [] then [] else (if texts[0] == "" then [] else [texts[0]]) + Said(texts[1..])
  }

  // One under the other.
  function Stacked(texts: seq<string>): string {
    if texts == [] then "" else if |texts| == 1 then texts[0] else texts[0] + ("\n" + Stacked(texts[1..]))
  }

  // The texts of a turn: its text blocks and the strings among its blocks.
  function TurnTexts<J>(bs: seq<InBlock<J>>): seq<string> {
    if bs == [] then []
    else
      (match bs[0]
       case TextIn(text) => [text]
       case Bare(text) => [text]
       case ToolUse(_, _, _) => []
       case ToolResult(_, _) => []
       case Ignored => [])
      + TurnTexts(bs[1..])
  }

  function TurnCalls<J>(stringify: J -> string, bs: seq<InBlock<J>>): seq<Entry> {
    if bs == [] then []
    else
      (if bs[0].ToolUse? then [Called(bs[0].id, bs[0].name, stringify(bs[0].input))] else [])
      + TurnCalls(stringify, bs[1..])
  }

  // A result's own text; where it has none, the JSON text of its content.
  function OwnText(r: Result): string {
    match r
    case Plain(text) => text
    case Blocks(texts, json) => if Stacked(Said(texts)) == "" then json else Stacked(Said(texts))
    case Value(json) => json
  }

  function TurnResults<J>(bs: seq<InBlock<J>>): seq<Entry> {
    if bs == [] then []
    else
      (if bs[0].ToolResult? then [Answered("tool", bs[0].useId, OwnText(bs[0].result))] else [])
      + TurnResults(bs[1..])
  }

  function SpokenIf(role: string, text: string): seq<Entry> {
    if text == "" then [] else [Spoken(role, text)]
  }

  function Sent<J>(stringify: J -> string, m: InMessage<J>): seq<Entry> {
    match m
    case Said(role, text) => [Spoken(role, text)]
    case Shapeless => []
    case Turn(role, bs) =>
      var text := Stacked(Said(TurnTexts(bs)));
      if role == "assistant" then SpokenIf("assistant", text) + TurnCalls(stringify, bs)
      else TurnResults(bs) + SpokenIf("user", text)
  }

  function AllSent<J>(stringify: J -> string, ms: seq<InMessage<J>>): seq<Entry> {
    if ms == [] then [] else Sent(stringify, ms[0]) + AllSent(stringify, ms[1..])
  }

  // --- what goes on -------------------------------------------------------------------

  function CallEntries(calls: seq<ChatCall>): seq<Entry> {
    if calls == [] then []
    else [Called(calls[0].id, calls[0].name, calls[0].args)] + CallEntries(calls[1..])
  }

  function Entries(c: Chat): seq<Entry> {
    (if c.content == None then []
     else if c.callId.Some? then [Answered(c.role, c.callId.value, c.content.value)]
     else [Spoken(c.role, c.content.value)])
    + CallEntries(c.calls)
  }

  function AllEntries(cs: seq<Chat>): seq<Entry> {
    if cs == [] then [] else Entries(cs[0]) + AllEntries(cs[1..])
  }

  // --- the same -------------------------------------------------------------------------

  lemma {:induction false} EntriesAppend(a: seq<Chat>, b: seq<Chat>)
    ensures AllEntries(a + b) == AllEntries(a) + AllEntries(b)
  {
    if a == [] {
      NothingInFront(b);
      NothingInFront(AllEntries(b));
    } else {
      HeadTail(a, b);
      EntriesAppend(a[1..], b);
      Assoc(Entries(a[0]), AllEntries(a[1..]), AllEntries(b));
    }
  }

  lemma {:induction false} SaidIsFilled(texts: seq<string>)
    ensures Said(texts) == Filter(Filled, texts)
  {
    if texts != [] {
      SaidIsFilled(texts[1..]);
    }
  }

  lemma {:induction false} StackedIsJoined(texts: seq<string>)
    ensures Stacked(texts) == if texts == [] then "" else Join(texts)
  {
    if |texts| > 1 {
      StackedIsJoined(texts[1..]);
      Assoc(texts[0], "\n", Join(texts[1..]));
    }
  }

  lemma StackedSaid(texts: seq<string>)
    ensures JoinFilled(texts) == Stacked(Said(texts))
  {
    SaidIsFilled(texts);
    StackedIsJoined(Said(texts));
  }

  // A block without text counts as an empty one.
  lemma {:induction false} TextsFilled<J>(bs: seq<InBlock<J>>)
    ensures Said(Texts(bs)) == Said(TurnTexts(bs))
  {
    if bs != [] {
      TextsFilled(bs[1..]);
      assert Texts(bs)[1..] == Texts(bs[1..]);
      if bs[0].TextIn? || bs[0].Bare? {
        assert TurnTexts(bs)[1..] == TurnTexts(bs[1..]);
      } else {
        NothingInFront(TurnTexts(bs[1..]));
        NothingInFront(Said(TurnTexts(bs[1..])));
      }
    }
  }

  lemma TurnText<J>(bs: seq<InBlock<J>>)
    ensures BlocksToText(bs) == Stacked(Said(TurnTexts(bs)))
  {
    TextsFilled(bs);
    StackedSaid(Texts(bs));
  }

  lemma {:induction false} CallsAreEntries<J>(stringify: J -> string, bs: seq<InBlock<J>>)
    ensures CallEntries(CallsOf(stringify, bs)) == TurnCalls(stringify, bs)
  {
    if bs != [] {
      CallsAreEntries(stringify, bs[1..]);
      if bs[0].ToolUse? {
        assert CallsOf(stringify, bs)[1..] == CallsOf(stringify, bs[1..]);
      } else {
        NothingInFront(CallsOf(stringify, bs[1..]));
        NothingInFront(TurnCalls(stringify, bs[1..]));
      }
    }
  }

  lemma ResultOwnText(r: Result)
    ensures ResultText(r) == OwnText(r)
  {
    if r.Blocks? {
      StackedSaid(r.texts);
    }
  }

  lemma OneEntry(c: Chat)
    ensures AllEntries([c]) == Entries(c)
    ensures c.calls == [] ==> |Entries(c)| == if c.content.Some? then 1 else 0
  {
    assert [c][1..] == [];
    NothingBehind(Entries(c));
  }

  lemma {:induction false} ResultsAreEntries<J>(bs: seq<InBlock<J>>)
    ensures AllEntries(ResultsOf(bs)) == TurnResults(bs)
  {
    if bs != [] {
      ResultsAreEntries(bs[1..]);
      if bs[0].ToolResult? {
        assert ResultsOf(bs)[1..] == ResultsOf(bs[1..]);
        ResultOwnText(bs[0].result);
        NothingBehind([Answered("tool", bs[0].useId, OwnText(bs[0].result))]);
      } else {
        NothingInFront(ResultsOf(bs[1..]));
        NothingInFront(TurnResults(bs[1..]));
      }
    }
  }

  lemma AssistantSent<J>(stringify: J -> string, bs: seq<InBlock<J>>)
    ensures AllEntries(Convert(stringify, Turn("assistant", bs))) == Sent(stringify, Turn("assistant", bs))
  {
    TurnText(bs);
    CallsAreEntries(stringify, bs);
    OneEntry(Chat("assistant", OrNull(BlocksToText(bs)), CallsOf(stringify, bs), None));
  }

  lemma SaidTextSent(text: string)
    ensures AllEntries(SaidText(text)) == SpokenIf("user", text)
  {
    if text != "" {
      OneEntry(Chat("user", Some(text), [], None));
      NothingBehind([Spoken("user", text)]);
    }
  }

  lemma TurnSent<J>(stringify: J -> string, role: string, bs: seq<InBlock<J>>)
    requires role != "assistant"
    ensures AllEntries(Convert(stringify, Turn(role, bs))) == Sent(stringify, Turn(role, bs))
  {
    TurnText(bs);
    ResultsAreEntries(bs);
    SaidTextSent(BlocksToText(bs));
    EntriesAppend(ResultsOf(bs), SaidText(BlocksToText(bs)));
  }

  lemma MessageSent<J>(stringify: J -> string, m: InMessage<J>)
    ensures AllEntries(Convert(stringify, m)) == Sent(stringify, m)
  {
    if m.Turn? && m.role == "assistant" {
      AssistantSent(stringify, m.blocks);
    } else if m.Turn? {
      TurnSent(stringify, m.role, m.blocks);
    } else if m.Said? {
      OneEntry(Chat(m.role, Some(m.text), [], None));
      NothingBehind([Spoken(m.role, m.text)]);
    }
  }

  lemma {:induction false} AllSentAppend<J>(stringify: J -> string, a: seq<InMessage<J>>, b: seq<InMessage<J>>)
    ensures AllSent(stringify, a + b) == AllSent(stringify, a) + AllSent(stringify, b)
  {
    if a == [] {
      NothingInFront(b);
      NothingInFront(AllSent(stringify, b));
    } else {
      HeadTail(a, b);
      AllSentAppend(stringify, a[1..], b);
      Assoc(Sent(stringify, a[0]), AllSent(stringify, a[1..]), AllSent(stringify, b));
    }
  }

  // On every history: the converted messages say, call and answer exactly what the
  // history did, in its order. A string message is forwarded as it is, in its role; of
  // an assistant turn its texts, one under the other, and then its calls with their
  // arguments as JSON text; of any other turn first each result under its own id, then
  // the texts as the user's.
  lemma {:induction false} HistoryConserved<J>(stringify: J -> string, ms: seq<InMessage<J>>)
    ensures AllEntries(ConvertAll(stringify, ms)) == AllSent(stringify, ms)
  {
    if ms != [] {
      var init, m := ms[..|ms| - 1], ms[|ms| - 1];
      HistoryConserved(stringify, init);
      MessageSent(stringify, m);
      EntriesAppend(ConvertAll(stringify, init), Convert(stringify, m));
      FrontAndLast(ms);
      AllSentAppend(stringify, init, [m]);
      OneSent(stringify, m);
    }
  }

  lemma OneSent<J>(stringify: J -> string, m: InMessage<J>)
    ensures AllSent(stringify, [m]) == Sent(stringify, m)
  {
    assert [m][1..] == [];
    NothingBehind(Sent(stringify, m));
  }
}
