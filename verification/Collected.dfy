// The whole answer as the router collects it from a stream (collectDelta in
// src/routing/router.js): each call at the place its fragments name.

module Collected {
  import opened Text
  import opened Labels
  import opened AnthropicStream
  import opened Buffered
  import opened Places

  // --- the answer, by place ---------------------------------------------------

  // The last id any of the fragments carries.
  function LastId(cs: seq<Call>): string {
    if cs == [] then ""
    else if cs[|cs| - 1].id != "" then cs[|cs| - 1].id
    else LastId(cs[..|cs| - 1])
  }

  // One call out of its fragments.
  function CallOf(cs: seq<Call>): Called {
    Called(LastId(cs), Names(cs), ArgsText(cs))
  }

  function Holding(cs: seq<Call>): int -> bool { i => Placed(cs, i) != [] }

  // The places in the array that hold fragments.
  function InUse(cs: seq<Call>): seq<int> {
    Below(Holding(cs), StitchAll(cs).length)
  }

  function CallsAt(cs: seq<Call>, places: seq<int>): seq<Called> {
    seq(|places|, i requires 0 <= i < |places| => CallOf(Placed(cs, places[i])))
  }

  function Calls(cs: seq<Call>): seq<Called> {
    CallsAt(cs, InUse(cs))
  }

  function Assemble(es: seq<Event>): Answer {
    Answer(AllText(es), Calls(Fragments(es)), LastFinish(es), Prompt(es), Completion(es))
  }

  // --- the router's loops -----------------------------------------------------

  // streamedCalls, an array with holes.
  datatype Held = Held(at: map<int, Called>, length: nat)

  function Put(h: Held, c: Call): Held {
    var i := if c.index.Some? then c.index.value else h.length;
    var slot := if i in h.at then h.at[i] else Called("", "", "");
    Held(h.at[i := Called(if c.id != "" then c.id else slot.id, slot.name + c.name, slot.args + c.args)],
         if IsElement(i) && i >= h.length then i + 1 else h.length)
  }

  function PutAll(cs: seq<Call>): Held {
    if cs == [] then Held(map[], 0) else Put(PutAll(cs[..|cs| - 1]), cs[|cs| - 1])
  }

  lemma CallMore(cs: seq<Call>, c: Call)
    ensures CallOf(cs + [c])
         == Called(if c.id != "" then c.id else LastId(cs), Names(cs) + c.name, ArgsText(cs) + c.args)
  {
    assert (cs + [c])[..|cs|] == cs;
  }

  // Each slot holds the call that the fragments put there make.
  lemma {:induction false} HoldsCalls(cs: seq<Call>, i: int)
    ensures PutAll(cs).length == StitchAll(cs).length && (i in PutAll(cs).at <==> Placed(cs, i) != [])
    ensures i in PutAll(cs).at ==> PutAll(cs).at[i] == CallOf(Placed(cs, i))
  {
    if cs != [] {
      var init, c := cs[..|cs| - 1], cs[|cs| - 1];
      HoldsCalls(init, i);
      if IndexOf(StitchAll(init), c) == i {
        CallMore(Placed(init, i), c);
      } else {
        NothingBehind(Placed(init, i));
      }
    }
  }

  // One fragment, in collectDelta.
  method CollectFragment(tc: Call, h: Held) returns (r: Held)
    ensures r == Put(h, tc)
  {
    var i := if tc.index.Some? then tc.index.value else h.length;
    var slot := if i in h.at then h.at[i] else Called("", "", "");
    if tc.id != "" {
      slot := slot.(id := tc.id);
    }
    slot := slot.(name := slot.name + tc.name);
    slot := slot.(args := slot.args + tc.args);
    r := Held(h.at[i := slot], if IsElement(i) && i >= h.length then i + 1 else h.length);
  }

  lemma NextPut(before: seq<Call>, cs: seq<Call>, i: nat)
    requires i < |cs|
    ensures PutAll(before + cs[..i + 1]) == Put(PutAll(before + cs[..i]), cs[i])
  {
    assert (before + cs[..i + 1])[..|before| + i] == before + cs[..i];
  }

  method CollectFragments(cs: seq<Call>, h: Held, ghost before: seq<Call>) returns (r: Held)
    requires h == PutAll(before)
    ensures r == PutAll(before + cs)
  {
    r := h;
    assert before + cs[..0] == before;
    for i := 0 to |cs|
      invariant r == PutAll(before + cs[..i])
    {
      NextPut(before, cs, i);
      r := CollectFragment(cs[i], r);
    }
    assert cs[..|cs|] == cs;
  }

  lemma OneMorePlace(cs: seq<Call>, places: seq<int>, i: int)
    ensures CallsAt(cs, places + [i]) == CallsAt(cs, places) + [CallOf(Placed(cs, i))]
  {
  }

  // streamedCalls.filter(Boolean)
  method FilterCalls(h: Held, ghost cs: seq<Call>) returns (calls: seq<Called>)
    requires h == PutAll(cs)
    ensures calls == Calls(cs)
  {
    HoldsCalls(cs, 0);
    calls := [];
    for i := 0 to h.length
      invariant calls == CallsAt(cs, Below(Holding(cs), i))
    {
      HoldsCalls(cs, i);
      OneMorePlace(cs, Below(Holding(cs), i), i);
      NothingBehind(Below(Holding(cs), i));
      if i in h.at {
        calls := calls + [h.at[i]];
      }
    }
  }

  lemma NextCollected(es: seq<Event>, n: nat)
    requires n < |es|
    ensures AllText(es[..n + 1]) == AllText(es[..n]) + TextIn(es[n])
    ensures Fragments(es[..n + 1]) == Fragments(es[..n]) + FragmentsOf(es[n])
    ensures Prompt(es[..n + 1]) == if PromptOf(es[n]).Some? then PromptOf(es[n]) else Prompt(es[..n])
    ensures Completion(es[..n + 1]) == if Counts(es[n]) then es[n].value.usage.value.completion else Completion(es[..n])
  {
    assert es[..n + 1][..n] == es[..n];
  }

  // The counts in one event, if it has any.
  method CollectUsage(event: Event, p: Option<nat>, c: Option<nat>)
    returns (prompt: Option<nat>, completion: Option<nat>)
    ensures prompt == if PromptOf(event).Some? then PromptOf(event) else p
    ensures completion == if Counts(event) then event.value.usage.value.completion else c
  {
    prompt, completion := p, c;
    if event.Some? && event.value.usage.Some? {
      var usage := event.value.usage.value;
      prompt := if usage.prompt.Some? then usage.prompt else prompt;
      completion := if usage.completion.Some? then usage.completion else completion;
    }
  }

  // The content of one event.
  method CollectDelta(event: Event, text: string, finish: string, h: Held, ghost before: seq<Call>)
    returns (completionText: string, finishReason: string, streamedCalls: Held)
    requires h == PutAll(before)
    ensures completionText == text + TextIn(event)
    ensures finishReason == if FinishOf(event) != "" then FinishOf(event) else finish
    ensures streamedCalls == PutAll(before + FragmentsOf(event))
  {
    completionText, finishReason, streamedCalls := text, finish, h;
    NothingBehind(text);
    NothingBehind(before);
    if event.Some? && event.value.choice.Some? {
      var choice := event.value.choice.value;
      completionText := completionText + choice.text;
      if choice.finish != "" {
        finishReason := choice.finish;
      }
      streamedCalls := CollectFragments(choice.calls, h, before);
    }
  }

  // The router's loop over a stream's events, and the answer it records at the end.
  method Collect(es: seq<Event>) returns (a: Answer)
    ensures a == Assemble(es)
  {
    var completionText, finishReason := "", "";
    var prompt: Option<nat>, completion: Option<nat> := None, None;
    var streamedCalls := Held(map[], 0);
    for n := 0 to |es|
      invariant completionText == AllText(es[..n]) && finishReason == LastFinish(es[..n])
      invariant prompt == Prompt(es[..n]) && completion == Completion(es[..n])
      invariant streamedCalls == PutAll(Fragments(es[..n]))
    {
      NextEvent(es, n);
      NextCollected(es, n);
      prompt, completion := CollectUsage(es[n], prompt, completion);
      completionText, finishReason, streamedCalls :=
        CollectDelta(es[n], completionText, finishReason, streamedCalls, Fragments(es[..n]));
    }
    assert es[..|es|] == es;
    var calls := FilterCalls(streamedCalls, Fragments(es));
    a := Answer(completionText, calls, finishReason, prompt, completion);
  }
}
