// toAnthropicStream (src/inbound/anthropicInbound.js): flat OpenAI deltas in,
// Anthropic's block-structured event stream out.

module AnthropicStream {
  import opened Text

  // One fragment of a tool call; "" stands for a missing field.
  datatype Call = Call(index: Option<int>, id: string, name: string, args: string)

  datatype Choice = Choice(text: string, calls: seq<Call>, finish: string)

  datatype Usage = Usage(prompt: Option<nat>, completion: Option<nat>)

  datatype Delta = Delta(usage: Option<Usage>, choice: Option<Choice>)

  // A router event that carries no delta is None.
  type Event = Option<Delta>

  // The id of a tool_use block; Made is a freshly drawn `toolu_` id.
  datatype BlockId = Given(id: string) | Made

  datatype Block = TextBlock | ToolBlock(id: BlockId, name: string)

  datatype Frame =
    | MessageStart
    | BlockStart(index: nat, block: Block)
    | TextDelta(index: nat, text: string)
    | ArgsDelta(index: nat, partial: string)
    | BlockStop(index: nat)
    | MessageDelta(stopReason: string, inputTokens: nat, outputTokens: nat)
    | MessageStop
    | Error

  function StopReasonFor(finish: string): string {
    if finish == "tool_calls" then "tool_use"
    else if finish == "length" then "max_tokens"
    else if finish == "content_filter" then "refusal"
    else "end_turn"
  }

  function IdFor(id: string): BlockId {
    if id != "" then Given(id) else Made
  }

  // --- the content of the deltas, in order ----------------------------------

  datatype Item = TextItem(text: string) | CallItem(call: Call)

  function CallItems(calls: seq<Call>): seq<Item> {
    if calls == [] then [] else CallItems(calls[..|calls| - 1]) + [CallItem(calls[|calls| - 1])]
  }

  function ChoiceItems(choice: Choice): seq<Item> {
    (if choice.text != "" then [TextItem(choice.text)] else []) + CallItems(choice.calls)
  }

  function ItemsOf(e: Event): seq<Item> {
    if e.None? || e.value.choice.None? then [] else ChoiceItems(e.value.choice.value)
  }

  function Items(es: seq<Event>): seq<Item> {
    if es == [] then [] else Items(es[..|es| - 1]) + ItemsOf(es[|es| - 1])
  }

  // The key a call's fragments share: its integer index, else its id, else the
  // number of calls met so far.
  datatype Key = At(n: int) | Named(id: string)

  function KeyOf(c: Call, met: nat): Key {
    if c.index.Some? then At(c.index.value) else if c.id != "" then Named(c.id) else At(met)
  }

  datatype Keyed = Words(text: string) | Part(key: Key, id: string, name: string, args: string)

  function KeyItem(item: Item, met: nat): Keyed {
    match item
    case TextItem(text) => Words(text)
    case CallItem(c) => Part(KeyOf(c, met), c.id, c.name, c.args)
  }

  function WithKeys(items: seq<Item>): (ks: seq<Keyed>)
    ensures |ks| == |items|
  {
    if items == [] then []
    else
      var before := WithKeys(items[..|items| - 1]);
      before + [KeyItem(items[|items| - 1], |Order(before)|)]
  }

  // The calls' keys, by first appearance.
  function Order(ks: seq<Keyed>): seq<Key> {
    if ks == [] then []
    else
      var before := Order(ks[..|ks| - 1]);
      var last := ks[|ks| - 1];
      if last.Part? && last.key !in before then before + [last.key] else before
  }

  // --- the encoder ----------------------------------------------------------

  datatype Open = Nothing | OpenText(index: nat) | OpenTool(index: nat)

  datatype Encoder = Encoder(open: Open, next: nat, tools: map<Key, nat>, body: seq<Frame>)

  const START := Encoder(Nothing, 0, map[], [])

  function Close(e: Encoder): Encoder {
    if e.open == Nothing then e else e.(open := Nothing, body := e.body + [BlockStop(e.open.index)])
  }

  function OnWords(e: Encoder, text: string): Encoder {
    var o :=
      if e.open.OpenText? then e
      else
        var c := Close(e);
        Encoder(OpenText(c.next), c.next + 1, c.tools, c.body + [BlockStart(c.next, TextBlock)]);
    o.(body := o.body + [TextDelta(o.open.index, text)])
  }

  function OnPart(e: Encoder, key: Key, id: string, name: string, args: string): Encoder {
    var o :=
      if key in e.tools then e
      else
        var c := Close(e);
        Encoder(OpenTool(c.next), c.next + 1, c.tools[key := c.next],
                c.body + [BlockStart(c.next, ToolBlock(IdFor(id), name))]);
    if args == "" then o else o.(body := o.body + [ArgsDelta(o.tools[key], args)])
  }

  function Step(e: Encoder, k: Keyed): Encoder {
    match k
    case Words(text) => OnWords(e, text)
    case Part(key, id, name, args) => OnPart(e, key, id, name, args)
  }

  function Encode(ks: seq<Keyed>): Encoder {
    if ks == [] then START else Step(Encode(ks[..|ks| - 1]), ks[|ks| - 1])
  }

  // --- what the closing message_delta carries -------------------------------

  function FinishOf(e: Event): string {
    if e.Some? && e.value.choice.Some? then e.value.choice.value.finish else ""
  }

  function LastFinish(es: seq<Event>): string {
    if es == [] then ""
    else if FinishOf(es[|es| - 1]) != "" then FinishOf(es[|es| - 1])
    else LastFinish(es[..|es| - 1])
  }

  function PromptOf(e: Event): Option<nat> {
    if e.Some? && e.value.usage.Some? then e.value.usage.value.prompt else None
  }

  function InputTokens(es: seq<Event>): nat {
    if es == [] then 0
    else if PromptOf(es[|es| - 1]).Some? then PromptOf(es[|es| - 1]).value
    else InputTokens(es[..|es| - 1])
  }

  predicate HasText(e: Event) {
    e.Some? && e.value.choice.Some? && e.value.choice.value.text != ""
  }

  predicate Counts(e: Event) {
    e.Some? && e.value.usage.Some? && e.value.usage.value.completion.Some?
  }

  // The provider's count where it sends one, and one for each text delta since.
  function OutputTokens(es: seq<Event>): nat {
    if es == [] then 0
    else
      var e := es[|es| - 1];
      (if Counts(e) then e.value.usage.value.completion.value else OutputTokens(es[..|es| - 1]))
      + (if HasText(e) then 1 else 0)
  }

  function Frames(es: seq<Event>, fails: bool): seq<Frame> {
    var e := Encode(WithKeys(Items(es)));
    if fails then (if es == [] then [] else [MessageStart]) + e.body + [Error]
    else
      [MessageStart] + Close(e).body
      + [MessageDelta(StopReasonFor(LastFinish(es)), InputTokens(es), OutputTokens(es)), MessageStop]
  }

  // One tool-call fragment.
  method StreamCall(call: Call, e: Encoder, ghost items: seq<Item>)
    returns (open: Open, nextIndex: nat, toolBlocks: map<Key, nat>, body: seq<Frame>)
    requires e == Encode(WithKeys(items))
    ensures Encoder(open, nextIndex, toolBlocks, body) == Encode(WithKeys(items + [CallItem(call)]))
  {
    StepItem(items, CallItem(call));
    KeysMet(WithKeys(items));
    open, nextIndex, toolBlocks, body := e.open, e.next, e.tools, e.body;
    var key := KeyOf(call, |toolBlocks|);
    if key !in toolBlocks {
      if open != Nothing {
        body := body + [BlockStop(open.index)];
      }
      open := OpenTool(nextIndex);
      nextIndex := nextIndex + 1;
      toolBlocks := toolBlocks[key := open.index];
      body := body + [BlockStart(open.index, ToolBlock(IdFor(call.id), call.name))];
    }
    if call.args != "" {
      body := body + [ArgsDelta(toolBlocks[key], call.args)];
    }
  }

  // The loop over one delta's tool-call fragments.
  method StreamCalls(calls: seq<Call>, e: Encoder, ghost items: seq<Item>)
    returns (open: Open, nextIndex: nat, toolBlocks: map<Key, nat>, body: seq<Frame>)
    requires e == Encode(WithKeys(items))
    ensures Encoder(open, nextIndex, toolBlocks, body) == Encode(WithKeys(items + CallItems(calls)))
  {
    open, nextIndex, toolBlocks, body := e.open, e.next, e.tools, e.body;
    assert items + [] == items;
    var i := 0;
    while i < |calls|
      invariant 0 <= i <= |calls|
      invariant Encode(WithKeys(items + CallItems(calls[..i]))) == Encoder(open, nextIndex, toolBlocks, body)
    {
      NextCall(items, calls, i);
      open, nextIndex, toolBlocks, body :=
        StreamCall(calls[i], Encoder(open, nextIndex, toolBlocks, body), items + CallItems(calls[..i]));
      i := i + 1;
    }
    assert calls[..i] == calls;
  }

  lemma NextCall(items: seq<Item>, calls: seq<Call>, i: nat)
    requires i < |calls|
    ensures items + CallItems(calls[..i + 1]) == items + CallItems(calls[..i]) + [CallItem(calls[i])]
  {
    assert calls[..i + 1][..i] == calls[..i];
  }

  lemma NextEvent(es: seq<Event>, n: nat)
    requires n < |es|
    ensures Items(es[..n + 1]) == Items(es[..n]) + ItemsOf(es[n])
    ensures LastFinish(es[..n + 1]) == if FinishOf(es[n]) != "" then FinishOf(es[n]) else LastFinish(es[..n])
    ensures InputTokens(es[..n + 1]) == if PromptOf(es[n]).Some? then PromptOf(es[n]).value else InputTokens(es[..n])
    ensures OutputTokens(es[..n + 1]) ==
            (if Counts(es[n]) then es[n].value.usage.value.completion.value else OutputTokens(es[..n]))
            + (if HasText(es[n]) then 1 else 0)
  {
    assert es[..n + 1][..n] == es[..n];
  }

  // The text of one delta.
  method StreamText(text: string, e: Encoder, ghost items: seq<Item>)
    returns (open: Open, nextIndex: nat, body: seq<Frame>)
    requires text != "" && e == Encode(WithKeys(items))
    ensures Encoder(open, nextIndex, e.tools, body) == Encode(WithKeys(items + [TextItem(text)]))
  {
    StepItem(items, TextItem(text));
    open, nextIndex, body := e.open, e.next, e.body;
    if !open.OpenText? {
      if open != Nothing {
        body := body + [BlockStop(open.index)];
      }
      open := OpenText(nextIndex);
      nextIndex := nextIndex + 1;
      body := body + [BlockStart(open.index, TextBlock)];
    }
    body := body + [TextDelta(open.index, text)];
  }

  // The content of one delta: its text first, then its fragments.
  method StreamChoice(choice: Choice, e: Encoder, ghost items: seq<Item>)
    returns (open: Open, nextIndex: nat, toolBlocks: map<Key, nat>, body: seq<Frame>)
    requires e == Encode(WithKeys(items))
    ensures Encoder(open, nextIndex, toolBlocks, body) == Encode(WithKeys(items + ChoiceItems(choice)))
  {
    open, nextIndex, toolBlocks, body := e.open, e.next, e.tools, e.body;
    ghost var texts := items;
    if choice.text != "" {
      open, nextIndex, body := StreamText(choice.text, e, items);
      texts := items + [TextItem(choice.text)];
    }
    open, nextIndex, toolBlocks, body := StreamCalls(choice.calls, Encoder(open, nextIndex, toolBlocks, body), texts);
    ItemsTogether(items, texts, choice);
  }

  lemma ItemsTogether(items: seq<Item>, texts: seq<Item>, choice: Choice)
    requires texts == if choice.text != "" then items + [TextItem(choice.text)] else items
    ensures texts + CallItems(choice.calls) == items + ChoiceItems(choice)
  {
  }

  // What one event adds to the counts and the stop reason.
  method Tally(event: Event, stopReason: string, inputTokens: nat, outputTokens: nat)
    returns (stop: string, input: nat, output: nat)
    ensures stop == if FinishOf(event) != "" then StopReasonFor(FinishOf(event)) else stopReason
    ensures input == if PromptOf(event).Some? then PromptOf(event).value else inputTokens
    ensures output == (if Counts(event) then event.value.usage.value.completion.value else outputTokens)
                      + (if HasText(event) then 1 else 0)
  {
    stop, input, output := stopReason, inputTokens, outputTokens;
    if event.Some? {
      var delta := event.value;
      if delta.usage.Some? {
        input := if delta.usage.value.prompt.Some? then delta.usage.value.prompt.value else input;
        output := if delta.usage.value.completion.Some? then delta.usage.value.completion.value else output;
      }
      if delta.choice.Some? {
        output := output + (if delta.choice.value.text != "" then 1 else 0);
        if delta.choice.value.finish != "" {
          stop := StopReasonFor(delta.choice.value.finish);
        }
      }
    }
  }

  // The content of one event, if it has any.
  method StreamEvent(event: Event, e: Encoder, ghost items: seq<Item>)
    returns (open: Open, nextIndex: nat, toolBlocks: map<Key, nat>, body: seq<Frame>)
    requires e == Encode(WithKeys(items))
    ensures Encoder(open, nextIndex, toolBlocks, body) == Encode(WithKeys(items + ItemsOf(event)))
  {
    open, nextIndex, toolBlocks, body := e.open, e.next, e.tools, e.body;
    if event.Some? && event.value.choice.Some? {
      open, nextIndex, toolBlocks, body := StreamChoice(event.value.choice.value, e, items);
    } else {
      NothingBehind(items);
    }
  }

  // What comes after the last event: the close of the message, or the error.
  method EndStream(ghost es: seq<Event>, fails: bool, started: bool, e: Encoder,
                   stopReason: string, inputTokens: nat, outputTokens: nat)
    returns (out: seq<Frame>)
    requires e == Encode(WithKeys(Items(es))) && started == (es != [])
    requires stopReason == StopReasonFor(LastFinish(es))
    requires inputTokens == InputTokens(es) && outputTokens == OutputTokens(es)
    ensures out == Frames(es, fails)
  {
    if fails {
      return (if started then [MessageStart] else []) + e.body + [Error];
    }
    var body := e.body;
    if e.open != Nothing {
      body := body + [BlockStop(e.open.index)];
    }
    out := [MessageStart] + body + [MessageDelta(stopReason, inputTokens, outputTokens), MessageStop];
  }

  // The generator's loop; `body` is what it yields between the message_start and
  // the end. `fails` says whether the router stream threw once its events were
  // used up.
  method ToAnthropicStream(es: seq<Event>, fails: bool) returns (out: seq<Frame>)
    ensures out == Frames(es, fails)
  {
    var started := false;
    var open, nextIndex := Nothing, 0;
    var body: seq<Frame> := [];
    var stopReason := "end_turn";
    var outputTokens, inputTokens := 0, 0;
    var toolBlocks: map<Key, nat> := map[];
    var n := 0;
    while n < |es|
      invariant 0 <= n <= |es| && started == (n > 0)
      invariant Encode(WithKeys(Items(es[..n]))) == Encoder(open, nextIndex, toolBlocks, body)
      invariant stopReason == StopReasonFor(LastFinish(es[..n]))
      invariant inputTokens == InputTokens(es[..n]) && outputTokens == OutputTokens(es[..n])
    {
      started := true;
      NextEvent(es, n);
      stopReason, inputTokens, outputTokens := Tally(es[n], stopReason, inputTokens, outputTokens);
      open, nextIndex, toolBlocks, body :=
        StreamEvent(es[n], Encoder(open, nextIndex, toolBlocks, body), Items(es[..n]));
      n := n + 1;
    }
    assert es[..n] == es;
    out := EndStream(es, fails, started, Encoder(open, nextIndex, toolBlocks, body),
                     stopReason, inputTokens, outputTokens);
  }

  lemma StepItem(items: seq<Item>, item: Item)
    ensures var ks := WithKeys(items);
            WithKeys(items + [item]) == ks + [KeyItem(item, |Order(ks)|)]
            && Encode(WithKeys(items + [item])) == Step(Encode(ks), KeyItem(item, |Order(ks)|))
  {
    assert (items + [item])[..|items|] == items;
    var ks := WithKeys(items);
    assert (ks + [KeyItem(item, |Order(ks)|)])[..|ks|] == ks;
  }

  // The encoder's map knows exactly the calls met so far.
  lemma {:induction false} KeysMet(ks: seq<Keyed>)
    ensures forall k :: k in Encode(ks).tools <==> k in Order(ks)
    ensures |Encode(ks).tools| == |Order(ks)|
  {
    if ks != [] {
      KeysMet(ks[..|ks| - 1]);
    }
  }
}
