// What a message says at its end and in its blocks, in the words of the wire:
// streamed (toAnthropicStream, toOllamaStream) and whole (toAnthropicResponse,
// toOllamaResponse).

module Endings {
  import opened Text
  import opened Labels
  import opened AnthropicStream
  import opened StreamClient
  import opened Buffered
  import opened Places
  import opened Collected
  import Ollama = OllamaStream

  // --- what the provider said last -------------------------------------------------

  // The last finish reason that is not empty.
  function FinishGiven(es: seq<Event>): string {
    if es == [] then ""
    else
      var e := es[|es| - 1];
      if e.Some? && e.value.choice.Some? && e.value.choice.value.finish != "" then e.value.choice.value.finish
      else FinishGiven(es[..|es| - 1])
  }

  // The last count of either kind that the provider gave.
  function PromptGiven(es: seq<Event>): Option<nat> {
    if es == [] then None
    else
      var e := es[|es| - 1];
      if e.Some? && e.value.usage.Some? && e.value.usage.value.prompt.Some? then e.value.usage.value.prompt
      else PromptGiven(es[..|es| - 1])
  }

  function CompletionGiven(es: seq<Event>): Option<nat> {
    if es == [] then None
    else
      var e := es[|es| - 1];
      if e.Some? && e.value.usage.Some? && e.value.usage.value.completion.Some? then e.value.usage.value.completion
      else CompletionGiven(es[..|es| - 1])
  }

  // The events with text from the last count of output tokens on.
  function TextSinceCount(es: seq<Event>): nat {
    if es == [] then 0
    else
      var e := es[|es| - 1];
      (if e.Some? && e.value.choice.Some? && e.value.choice.value.text != "" then 1 else 0)
      + (if e.Some? && e.value.usage.Some? && e.value.usage.value.completion.Some? then 0
         else TextSinceCount(es[..|es| - 1]))
  }

  lemma {:induction false} LastIsGiven(es: seq<Event>)
    ensures LastFinish(es) == FinishGiven(es) && Prompt(es) == PromptGiven(es) && Completion(es) == CompletionGiven(es)
    ensures InputTokens(es) == OrZero(PromptGiven(es))
    ensures OutputTokens(es) == OrZero(CompletionGiven(es)) + TextSinceCount(es)
  {
    if es != [] {
      LastIsGiven(es[..|es| - 1]);
    }
  }

  lemma ReasonsDiffer()
    ensures "tool_use" != "max_tokens" && "tool_use" != "refusal" && "tool_use" != "end_turn"
    ensures "max_tokens" != "refusal" && "max_tokens" != "end_turn" && "refusal" != "end_turn"
    ensures "tool_calls" != "length" && "tool_calls" != "content_filter" && "length" != "content_filter"
  {
    assert |"tool_use"| == 8 && |"max_tokens"| == 10 && |"refusal"| == 7;
    assert "tool_use"[0] == 't' && "end_turn"[0] == 'e';
    assert |"tool_calls"| == 10 && |"length"| == 6 && |"content_filter"| == 14;
  }

  // The wire's word for a finish reason.
  predicate Says(reason: string, finish: string) {
    && (reason == "tool_use" <==> finish == "tool_calls")
    && (reason == "max_tokens" <==> finish == "length")
    && (reason == "refusal" <==> finish == "content_filter")
    && (reason == "end_turn" <==> finish !in ["tool_calls", "length", "content_filter"])
  }

  lemma ReasonSays(finish: string)
    ensures Says(StopReasonFor(finish), finish)
  {
    ReasonsDiffer();
  }

  // The stop reason of the message a client folds the stream to.
  lemma StreamStopReason<J>(json: Json<J>, es: seq<Event>)
    ensures var m := Fold(json, Frames(es, false)); m.Some? && Says(m.value.stopReason, FinishGiven(es))
  {
    hide Says, StopReasonFor;
    FramesFold(json, es);
    LastIsGiven(es);
    ReasonSays(FinishGiven(es));
  }

  lemma ResponseStopReason<J>(json: Json<J>, a: Answer)
    ensures Says(ToAnthropicResponse(json, a).stopReason, a.finish)
  {
    ReasonSays(a.finish);
  }

  // The counts of the folded message: the provider's last, or 0; and on the output
  // side one more for each event with text from there on.
  lemma StreamCounts<J>(json: Json<J>, es: seq<Event>)
    ensures var m := Fold(json, Frames(es, false));
            && m.Some?
            && m.value.inputTokens == (if PromptGiven(es).Some? then PromptGiven(es).value else 0)
            && m.value.outputTokens
               == (if CompletionGiven(es).Some? then CompletionGiven(es).value else 0) + TextSinceCount(es)
  {
    FramesFold(json, es);
    LastIsGiven(es);
  }

  // --- the blocks ----------------------------------------------------------------------

  // What the text of some arguments stands for: the value it parses to, {} when there
  // is none or it is malformed.
  predicate StandsFor<J(==)>(json: Json<J>, args: string, input: J) {
    if args == "" || json.parse(args) == None then input == json.empty else json.parse(args) == Some(input)
  }

  lemma InputStands<J>(json: Json<J>, args: string)
    requires Usable(json)
    ensures StandsFor(json, args, InputOf(json, args))
  {
  }

  ghost predicate Shows<J>(json: Json<J>, block: Content<J>, c: Called) {
    && block.Used? && block.name == c.name && StandsFor(json, c.args, block.input)
    && block.id == if c.id == "" then Made else Given(c.id)
  }

  lemma ResponseCall<J>(json: Json<J>, a: Answer, i: nat)
    requires Usable(json) && i < |a.calls|
    ensures var o := if a.content == "" then 0 else 1;
            o + i < |ToAnthropicResponse(json, a).content|
            && Shows(json, ToAnthropicResponse(json, a).content[o + i], a.calls[i])
  {
    ResponseAt(json, a, if a.content == "" then i else i + 1);
    InputStands(json, a.calls[i].args);
  }

  // toAnthropicResponse: the text, if there is any, then the calls in order, each with
  // its id, a made one where it has none, its name and what its arguments stand for.
  lemma ResponseIs<J>(json: Json<J>, a: Answer)
    requires Usable(json)
    ensures var m := ToAnthropicResponse(json, a);
            var o := if a.content == "" then 0 else 1;
            && |m.content| == o + |a.calls|
            && (o == 1 ==> m.content[0] == Said(a.content))
            && (forall i :: 0 <= i < |a.calls| ==> Shows(json, m.content[o + i], a.calls[i]))
            && m.inputTokens == (if a.prompt.Some? then a.prompt.value else 0)
            && m.outputTokens == (if a.completion.Some? then a.completion.value else 0)
  {
    var m := ToAnthropicResponse(json, a);
    var o := if a.content == "" then 0 else 1;
    forall i | 0 <= i < |a.calls| ensures Shows(json, m.content[o + i], a.calls[i]) {
      ResponseCall(json, a, i);
    }
    if o == 1 {
      ResponseAt(json, a, 0);
    }
  }

  // The same of a stream, whatever comes in between: each block for a call shows the
  // header of its key's first fragment and what the arguments stand for.
  lemma StreamBlocks<J>(json: Json<J>, es: seq<Event>, i: nat)
    requires Usable(json) && i < |Streamed(json, WithKeys(Items(es)))|
    ensures var ks := WithKeys(Items(es));
            var m, p := Fold(json, Frames(es, false)), Pieces(ks)[i];
            && m.Some? && |m.value.content| == |Pieces(ks)|
            && (p.Prose? ==> m.value.content[i] == Said(p.text))
            && (p.Tool? ==> p.key in Order(ks) && Shows(json, m.value.content[i], StartedAs(ks, p.key)))
  {
    var ks := WithKeys(Items(es));
    FramesFold(json, es);
    ShownPiece(json, ks, i);
    if Pieces(ks)[i].Tool? {
      ToolShown(json, ks, i);
      InputStands(json, StartedAs(ks, Pieces(ks)[i].key).args);
    }
  }

  // --- Ollama's side ---------------------------------------------------------------------

  // A call in Ollama's shape, of fragments put together.
  predicate IsCall<J(==)>(json: Json<J>, call: Ollama.OllamaCall<J>, name: string, args: string) {
    call.name == name && StandsFor(json, args, call.arguments)
  }

  lemma {:induction false} SlotsInUse(cs: seq<Call>, n: nat)
    ensures Ollama.Whole(StitchAll(cs), n) == SlotsOf(cs, Below(Holding(cs), n))
  {
    hide StitchAll, Joined, Placed;
    if n > 0 {
      SlotsInUse(cs, n - 1);
      SlotHoldsFragments(cs, n - 1);
      SlotsMore(cs, Below(Holding(cs), n - 1), n - 1);
      NothingBehind(Below(Holding(cs), n - 1));
      NothingBehind(SlotsOf(cs, Below(Holding(cs), n - 1)));
    }
  }

  function SlotsOf(cs: seq<Call>, places: seq<int>): seq<Slot> {
    seq(|places|, i requires 0 <= i < |places| => Joined(Placed(cs, places[i])))
  }

  lemma SlotsMore(cs: seq<Call>, places: seq<int>, i: int)
    ensures SlotsOf(cs, places + [i]) == SlotsOf(cs, places) + [Joined(Placed(cs, i))]
  {
  }

  // The calls a stream sends: one for each array place that holds fragments, by place,
  // with their names, and what their arguments stand for, put together.
  lemma OllamaSends<J>(json: Json<J>, es: seq<Event>)
    requires Usable(json)
    ensures var cs := Fragments(es);
            var sent := Ollama.Sent(Ollama.Stream(json, es, false));
            && |sent| == |InUse(cs)|
            && forall i :: 0 <= i < |sent| ==>
                 IsCall(json, sent[i], Names(Placed(cs, InUse(cs)[i])), ArgsText(Placed(cs, InUse(cs)[i])))
  {
    var cs := Fragments(es);
    var sent := Ollama.Sent(Ollama.Stream(json, es, false));
    Ollama.SentIsWhole(json, es);
    SlotsInUse(cs, StitchAll(cs).length);
    forall i | 0 <= i < |sent|
      ensures IsCall(json, sent[i], Names(Placed(cs, InUse(cs)[i])), ArgsText(Placed(cs, InUse(cs)[i])))
    {
      InputStands(json, ArgsText(Placed(cs, InUse(cs)[i])));
    }
  }

  // The last frame of a stream that ends: the reason and the provider's counts.
  lemma OllamaEnds<J>(json: Json<J>, es: seq<Event>)
    ensures var out := Ollama.Stream(json, es, false);
            && |out| > 0 && out[|out| - 1].DoneFrame?
            && out[|out| - 1].reason == (if FinishGiven(es) == "length" then "length" else "stop")
            && out[|out| - 1].prompt == (if PromptGiven(es).Some? then PromptGiven(es).value else 0)
            && out[|out| - 1].eval == (if CompletionGiven(es).Some? then CompletionGiven(es).value else 0)
            && Ollama.Shown(out) == AllText(es)
  {
    LastIsGiven(es);
    Ollama.StreamMatchesResponseIff(json, es);
  }

  // And toOllamaResponse, on the calls of the whole answer.
  lemma OllamaResponseIs<J>(json: Json<J>, es: seq<Event>)
    requires Usable(json)
    ensures var r, calls := Ollama.Response(json, es), Ollama.Assembled(Fragments(es));
            && r.content == AllText(es) && |r.calls| == |calls|
            && (forall i :: 0 <= i < |calls| ==> IsCall(json, r.calls[i], calls[i].name, calls[i].args))
            && r.reason == (if FinishGiven(es) == "length" then "length" else "stop")
            && r.prompt == (if PromptGiven(es).Some? then PromptGiven(es).value else 0)
            && r.eval == (if CompletionGiven(es).Some? then CompletionGiven(es).value else 0)
  {
    var r, calls := Ollama.Response(json, es), Ollama.Assembled(Fragments(es));
    LastIsGiven(es);
    forall i | 0 <= i < |calls| ensures IsCall(json, r.calls[i], calls[i].name, calls[i].args) {
      InputStands(json, calls[i].args);
    }
  }
}
