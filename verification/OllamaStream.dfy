// toOllamaStream and toOllamaResponse (src/inbound/ollamaInbound.js): tool calls
// stitched from their fragments and sent whole before the final frame.

module OllamaStream {
  import opened Text
  import opened AnthropicStream
  import opened Buffered
  import opened Places

  datatype OllamaCall<J> = OllamaCall(name: string, arguments: J)

  datatype OllamaFrame<J> =
    | TextFrame(text: string)
    | ToolsFrame(calls: seq<OllamaCall<J>>)
    | DoneFrame(reason: string, prompt: nat, eval: nat)
    | ErrorFrame

  // What toOllamaResponse answers with, in one object.
  datatype OllamaAnswer<J> = OllamaAnswer(
    content: string, calls: seq<OllamaCall<J>>, reason: string, prompt: nat, eval: nat)

  function DoneReason(finish: string): string {
    if finish == "length" then "length" else "stop"
  }

  function ToOllamaToolCalls<J>(json: Json<J>, calls: seq<Slot>): (r: seq<OllamaCall<J>>)
    ensures |r| == |calls|
  {
    seq(|calls|, i requires 0 <= i < |calls| => OllamaCall(calls[i].name, InputOf(json, calls[i].args)))
  }

  // --- stitching ------------------------------------------------------------

  // calls.filter(Boolean)
  function Whole(s: Slots, n: nat): seq<Slot> {
    if n == 0 then [] else Whole(s, n - 1) + (if n - 1 in s.at then [s.at[n - 1]] else [])
  }

  function TextFrames<J>(es: seq<Event>): seq<OllamaFrame<J>> {
    if es == [] then []
    else TextFrames(es[..|es| - 1]) + (if TextIn(es[|es| - 1]) != "" then [TextFrame(TextIn(es[|es| - 1]))] else [])
  }

  function CompletionTokens(es: seq<Event>): nat {
    if Completion(es).Some? then Completion(es).value else 0
  }

  function Stream<J>(json: Json<J>, es: seq<Event>, fails: bool): seq<OllamaFrame<J>> {
    if fails then TextFrames(es) + [ErrorFrame]
    else
      var s := StitchAll(Fragments(es));
      var whole := Whole(s, s.length);
      TextFrames(es)
      + (if whole != [] then [ToolsFrame(ToOllamaToolCalls(json, whole))] else [])
      + [DoneFrame(DoneReason(LastFinish(es)), InputTokens(es), CompletionTokens(es))]
  }

  method StitchCalls(cs: seq<Call>, s: Slots, ghost before: seq<Call>) returns (t: Slots)
    requires s == StitchAll(before)
    ensures t == StitchAll(before + cs)
  {
    t := s;
    assert before + [] == before;
    var i := 0;
    while i < |cs|
      invariant 0 <= i <= |cs|
      invariant t == StitchAll(before + cs[..i])
    {
      var tc := cs[i];
      NextFragment(before, cs, i);
      var k := if tc.index.Some? then tc.index.value else t.length;
      var slot := if k in t.at then t.at[k] else Slot("", "");
      if tc.name != "" {
        slot := Slot(slot.name + tc.name, slot.args);
      } else {
        assert slot.name + tc.name == slot.name;
      }
      slot := Slot(slot.name, slot.args + tc.args);
      t := Slots(t.at[k := slot], if IsElement(k) && k >= t.length then k + 1 else t.length);
      i := i + 1;
    }
    assert cs[..i] == cs;
  }

  method Filled(s: Slots) returns (whole: seq<Slot>)
    ensures whole == Whole(s, s.length)
  {
    whole := [];
    for i := 0 to s.length
      invariant whole == Whole(s, i)
    {
      if i in s.at {
        whole := whole + [s.at[i]];
      }
    }
  }

  method ToOllamaStream<J>(json: Json<J>, es: seq<Event>, fails: bool) returns (out: seq<OllamaFrame<J>>)
    ensures out == Stream(json, es, fails)
  {
    out := [];
    var finishReason := "stop";
    var promptTokens, completionTokens := 0, 0;
    var calls := Slots(map[], 0);
    var n := 0;
    while n < |es|
      invariant 0 <= n <= |es|
      invariant out == TextFrames(es[..n])
      invariant finishReason == DoneReason(LastFinish(es[..n]))
      invariant promptTokens == InputTokens(es[..n]) && completionTokens == CompletionTokens(es[..n])
      invariant calls == StitchAll(Fragments(es[..n]))
    {
      NextEvent(es, n);
      NextFragments<J>(es, n);
      var event := es[n];
      ghost var before := Fragments(es[..n]);
      assert before + [] == before;
      n := n + 1;
      if event.Some? {
        var delta := event.value;
        if delta.usage.Some? {
          promptTokens := if delta.usage.value.prompt.Some? then delta.usage.value.prompt.value else promptTokens;
          completionTokens :=
            if delta.usage.value.completion.Some? then delta.usage.value.completion.value else completionTokens;
        }
        if delta.choice.Some? {
          var choice := delta.choice.value;
          if choice.finish != "" {
            finishReason := if choice.finish == "length" then "length" else "stop";
          }
          if choice.text != "" {
            out := out + [TextFrame(choice.text)];
          }
          calls := StitchCalls(choice.calls, calls, before);
        }
      }
    }
    assert es[..n] == es;
    if fails {
      out := out + [ErrorFrame];
      return;
    }
    var whole := Filled(calls);
    if |whole| > 0 {
      out := out + [ToolsFrame(ToOllamaToolCalls(json, whole))];
    }
    out := out + [DoneFrame(finishReason, promptTokens, completionTokens)];
  }

  lemma NextFragments<J>(es: seq<Event>, n: nat)
    requires n < |es|
    ensures Fragments(es[..n + 1]) == Fragments(es[..n]) + FragmentsOf(es[n])
    ensures TextFrames<J>(es[..n + 1]) ==
            TextFrames<J>(es[..n]) + (if TextIn(es[n]) != "" then [TextFrame(TextIn(es[n]))] else [])
    ensures Completion(es[..n + 1]) == if Counts(es[n]) then es[n].value.usage.value.completion else Completion(es[..n])
  {
    assert es[..n + 1][..n] == es[..n];
  }

  // --- the client -----------------------------------------------------------

  predicate IsDone<J>(f: OllamaFrame<J>) { f.DoneFrame? || f.ErrorFrame? }

  // Exactly one frame says done: the last, also when the upstream throws.
  lemma {:induction false} DoneOnceAndLast<J>(json: Json<J>, es: seq<Event>, fails: bool)
    ensures var out := Stream(json, es, fails);
            && |out| > 0
            && (forall i :: 0 <= i < |out| ==> (IsDone(out[i]) <==> i == |out| - 1))
            && (out[|out| - 1].ErrorFrame? <==> fails)
  {
    TextFramesAreText<J>(es);
  }

  lemma {:induction false} TextFramesAreText<J>(es: seq<Event>)
    ensures forall i :: 0 <= i < |TextFrames<J>(es)| ==> TextFrames<J>(es)[i].TextFrame?
  {
    if es != [] {
      TextFramesAreText<J>(es[..|es| - 1]);
    }
  }

  // A client adds up the contents and takes the tool calls it is sent.
  function Shown<J>(fs: seq<OllamaFrame<J>>): string {
    if fs == [] then "" else Shown(fs[..|fs| - 1]) + (if fs[|fs| - 1].TextFrame? then fs[|fs| - 1].text else "")
  }

  function Sent<J>(fs: seq<OllamaFrame<J>>): seq<OllamaCall<J>> {
    if fs == [] then [] else Sent(fs[..|fs| - 1]) + (if fs[|fs| - 1].ToolsFrame? then fs[|fs| - 1].calls else [])
  }

  function Collect<J>(fs: seq<OllamaFrame<J>>): OllamaAnswer<J>
    requires |fs| > 0 && fs[|fs| - 1].DoneFrame?
  {
    var done := fs[|fs| - 1];
    OllamaAnswer(Shown(fs), Sent(fs), done.reason, done.prompt, done.eval)
  }

  // --- what is sent, by index -------------------------------------------------

  // What a function puts down for each index from lo on, n of them.
  function Spread(f: int -> seq<Slot>, lo: int, n: nat): seq<Slot> {
    if n == 0 then [] else Spread(f, lo, n - 1) + f(lo + n - 1)
  }

  lemma {:induction false} SpreadSplit(f: int -> seq<Slot>, lo: int, m: nat, n: nat)
    ensures Spread(f, lo, m + n) == Spread(f, lo, m) + Spread(f, lo + m, n)
  {
    if n == 0 {
      NothingBehind(Spread(f, lo, m));
    } else {
      SpreadSplit(f, lo, m, n - 1);
      Assoc(Spread(f, lo, m), Spread(f, lo + m, n - 1), f(lo + m + n - 1));
    }
  }

  lemma {:induction false} SpreadNothing(f: int -> seq<Slot>, lo: int, n: nat)
    requires forall i :: lo <= i < lo + n ==> f(i) == []
    ensures Spread(f, lo, n) == []
  {
    if n > 0 {
      SpreadNothing(f, lo, n - 1);
    }
  }

  lemma {:induction false} SpreadSame(f: int -> seq<Slot>, g: int -> seq<Slot>, lo: int, n: nat)
    requires forall i :: lo <= i < lo + n ==> f(i) == g(i)
    ensures Spread(f, lo, n) == Spread(g, lo, n)
  {
    if n > 0 {
      SpreadSame(f, g, lo, n - 1);
    }
  }

  // f never puts down more than g, and the same exactly where p holds.
  ghost predicate Within(f: int -> seq<Slot>, g: int -> seq<Slot>, p: int -> bool, i: int) {
    |f(i)| <= |g(i)| && (|f(i)| == |g(i)| <==> p(i)) && (p(i) ==> f(i) == g(i))
  }

  ghost predicate Throughout(p: int -> bool, lo: int, n: nat) {
    forall i :: lo <= i < lo + n ==> p(i)
  }

  // Where f puts down nothing outside 0 to len, the range makes no difference.
  lemma SpreadPadded(f: int -> seq<Slot>, lo: int, len: nat, n: nat)
    requires lo <= 0 && len <= lo + n && forall i :: i < 0 || i >= len ==> f(i) == []
    ensures Spread(f, lo, n) == Spread(f, 0, len)
  {
    SpreadSplit(f, lo, -lo, lo + n);
    SpreadSplit(f, 0, len, lo + n - len);
    SpreadNothing(f, lo, -lo);
    SpreadNothing(f, len, lo + n - len);
    NothingInFront(Spread(f, 0, lo + n));
    NothingBehind(Spread(f, 0, len));
  }

  lemma {:induction false} SpreadWithin(f: int -> seq<Slot>, g: int -> seq<Slot>, p: int -> bool, lo: int, n: nat)
    requires forall i :: lo <= i < lo + n ==> Within(f, g, p, i)
    ensures |Spread(f, lo, n)| <= |Spread(g, lo, n)|
    ensures |Spread(f, lo, n)| == |Spread(g, lo, n)| <==> Throughout(p, lo, n)
    ensures Throughout(p, lo, n) ==> Spread(f, lo, n) == Spread(g, lo, n)
  {
    if n > 0 {
      SpreadWithin(f, g, p, lo, n - 1);
      assert Within(f, g, p, lo + n - 1);
      assert Throughout(p, lo, n) <==> Throughout(p, lo, n - 1) && p(lo + n - 1);
    }
  }

  // What is sent for index i.
  function SentAt(cs: seq<Call>, i: int): seq<Slot> {
    if IsElement(i) && Placed(cs, i) != [] then [Joined(Placed(cs, i))] else []
  }

  function SentTo(cs: seq<Call>): int -> seq<Slot> { i => SentAt(cs, i) }

  lemma {:induction false} WholeIsSent(cs: seq<Call>, n: nat)
    requires n <= 0xFFFF_FFFF
    ensures Whole(StitchAll(cs), n) == Spread(SentTo(cs), 0, n)
  {
    if n > 0 {
      WholeIsSent(cs, n - 1);
      SlotIsSent(cs, n - 1);
    }
  }

  lemma SlotIsSent(cs: seq<Call>, i: int)
    requires IsElement(i)
    ensures SentTo(cs)(i) == if i in StitchAll(cs).at then [StitchAll(cs).at[i]] else []
  {
    SlotHoldsFragments(cs, i);
  }

  // Outside the array nothing is sent.
  lemma NothingOutside(cs: seq<Call>, i: int)
    requires i < 0 || i >= StitchAll(cs).length
    ensures SentTo(cs)(i) == []
  {
    SlotHoldsFragments(cs, i);
  }

  // calls.filter(Boolean) at the end of the stream.
  function Sending(cs: seq<Call>): seq<Slot> {
    Whole(StitchAll(cs), StitchAll(cs).length)
  }

  // All that is sent, over any range that covers the array.
  lemma SentInRange(cs: seq<Call>, lo: int, n: nat)
    requires lo <= 0 && lo + n >= StitchAll(cs).length
    ensures Sending(cs) == Spread(SentTo(cs), lo, n)
  {
    var f, len := SentTo(cs), StitchAll(cs).length;
    LengthIsArrays(cs);
    WholeIsSent(cs, len);
    forall i | i < 0 || i >= len ensures f(i) == [] {
      NothingOutside(cs, i);
    }
    SpreadPadded(f, lo, len, n);
  }

  // --- the assembled answer -------------------------------------------------

  predicate HasIndex(c: Call) { c.index.Some? }
  predicate HasNone(c: Call) { c.index.None? }

  function Singles(cs: seq<Call>): seq<Slot> {
    if cs == [] then [] else [Slot(cs[0].name, cs[0].args)] + Singles(cs[1..])
  }

  // The calls of the whole answer that belong at place i: fragments of one index
  // are one call; a fragment without an index is a call of its own.
  function AssembledAt(cs: seq<Call>, i: int): seq<Slot> {
    var here := Placed(cs, i);
    Singles(Filter(HasNone, here)) + (if Filter(HasIndex, here) != [] then [Joined(Filter(HasIndex, here))] else [])
  }

  function AssembledTo(cs: seq<Call>): int -> seq<Slot> { i => AssembledAt(cs, i) }

  function Abs(i: int): int { if i < 0 then -i else i }

  // Every place, and the length, is nearer to 0 than this.
  function Reach(cs: seq<Call>): (r: int)
    ensures r >= 0
  {
    if cs == [] then 0
    else
      var init := cs[..|cs| - 1];
      Reach(init) + Abs(IndexOf(StitchAll(init), cs[|cs| - 1])) + 1
  }

  lemma {:induction false} InReach(cs: seq<Call>, i: int)
    ensures Placed(cs, i) != [] ==> Abs(i) < Reach(cs)
    ensures StitchAll(cs).length <= Reach(cs)
  {
    if cs != [] {
      InReach(cs[..|cs| - 1], i);
    }
  }

  // The calls of the whole answer, by place.
  function Assembled(cs: seq<Call>): seq<Slot> {
    Spread(AssembledTo(cs), -Reach(cs), 2 * Reach(cs))
  }

  // toOllamaResponse of the answer whose text and calls these deltas spell out.
  function Response<J>(json: Json<J>, es: seq<Event>): OllamaAnswer<J> {
    var cs := Fragments(es);
    OllamaAnswer(AllText(es), ToOllamaToolCalls(json, Assembled(cs)),
                 DoneReason(LastFinish(es)), InputTokens(es), CompletionTokens(es))
  }

  // The fragments at place i make one call, and it is sent.
  predicate Fits(cs: seq<Call>, i: int) {
    var here := Placed(cs, i);
    here == [] || (IsElement(i) && (Filter(HasNone, here) == [] || |here| == 1))
  }

  function FitsAt(cs: seq<Call>): int -> bool { i => Fits(cs, i) }

  lemma {:induction false} TwoKinds(cs: seq<Call>)
    ensures |Filter(HasNone, cs)| + |Filter(HasIndex, cs)| == |cs|
    ensures Filter(HasNone, cs) == [] ==> Filter(HasIndex, cs) == cs
    ensures |Singles(Filter(HasNone, cs))| == |Filter(HasNone, cs)|
  {
    if cs != [] {
      TwoKinds(cs[1..]);
      assert [cs[0]] + cs[1..] == cs;
      SinglesLength(Filter(HasNone, cs));
    }
  }

  lemma {:induction false} SinglesLength(cs: seq<Call>)
    ensures |Singles(cs)| == |cs|
  {
    if cs != [] {
      SinglesLength(cs[1..]);
    }
  }

  lemma OneFragment(c: Call)
    ensures Joined([c]) == Slot(c.name, c.args) && Singles([c]) == [Slot(c.name, c.args)]
  {
    JoinedMore([], c);
    NothingInFront([c]);
    NothingInFront(c.name);
    NothingInFront(c.args);
    assert [c][1..] == [];
  }

  // Place by place: never less is assembled than sent, and it is the same exactly
  // where the fragments fit.
  lemma PlaceMatches(cs: seq<Call>, i: int)
    ensures Within(SentTo(cs), AssembledTo(cs), FitsAt(cs), i)
  {
    var here := Placed(cs, i);
    TwoKinds(here);
    if here != [] && Filter(HasNone, here) == [] {
      NothingInFront([Joined(here)]);
    } else if |here| == 1 {
      OneFragment(here[0]);
      assert here == [here[0]];
      FilterOne(HasNone, here[0]);
      FilterOne(HasIndex, here[0]);
      NothingBehind(Singles(here));
    }
  }

  lemma {:induction false} ShownIsText<J>(es: seq<Event>)
    ensures Shown(TextFrames<J>(es)) == AllText(es) && Sent(TextFrames<J>(es)) == []
  {
    if es != [] {
      var init := TextFrames<J>(es[..|es| - 1]);
      ShownIsText<J>(es[..|es| - 1]);
      if TextIn(es[|es| - 1]) != "" {
        assert (init + [TextFrame(TextIn(es[|es| - 1]))])[..|init|] == init;
      } else {
        assert AllText(es[..|es| - 1]) + "" == AllText(es[..|es| - 1]);
        assert init + [] == init;
      }
    }
  }

  lemma AddFrame<J>(fs: seq<OllamaFrame<J>>, f: OllamaFrame<J>)
    ensures Shown(fs + [f]) == Shown(fs) + (if f.TextFrame? then f.text else "")
    ensures Sent(fs + [f]) == Sent(fs) + (if f.ToolsFrame? then f.calls else [])
  {
    assert (fs + [f])[..|fs|] == fs;
  }

  lemma CollectTail<J>(texts: seq<OllamaFrame<J>>, calls: seq<OllamaCall<J>>, done: OllamaFrame<J>)
    requires done.DoneFrame? && Sent(texts) == []
    ensures var out := texts + (if calls != [] then [ToolsFrame(calls)] else []) + [done];
            && |out| > 0 && out[|out| - 1] == done
            && Collect(out) == OllamaAnswer(Shown(texts), calls, done.reason, done.prompt, done.eval)
  {
    var mid := texts + (if calls != [] then [ToolsFrame(calls)] else []);
    if calls == [] {
      assert mid == texts;
    } else {
      AddFrame(texts, ToolsFrame(calls));
      assert Shown(texts) + "" == Shown(texts);
    }
    AddFrame(mid, done);
    assert Shown(mid) + "" == Shown(mid);
  }

  // Every fragment is put at an array index, and one without an index of its own
  // shares its place with no other.
  ghost predicate AllFit(cs: seq<Call>) {
    forall i :: Fits(cs, i)
  }

  // Equal exactly when `fits`, and of different lengths otherwise.
  predicate SameIff(sent: seq<Slot>, whole: seq<Slot>, fits: bool) {
    (|sent| == |whole| <==> fits) && (fits ==> sent == whole)
  }

  lemma SentMatchesIff(cs: seq<Call>)
    ensures SameIff(Sending(cs), Assembled(cs), AllFit(cs))
  {
    SentIsSpread(cs);
    FitEverywhere(cs);
    SpreadsAgree(cs, -Reach(cs), 2 * Reach(cs), AllFit(cs));
  }

  lemma SpreadsAgree(cs: seq<Call>, lo: int, n: nat, fits: bool)
    requires fits <==> Throughout(FitsAt(cs), lo, n)
    ensures SameIff(Spread(SentTo(cs), lo, n), Spread(AssembledTo(cs), lo, n), fits)
  {
    SpreadsCompare(cs, lo, n);
  }

  lemma SentIsSpread(cs: seq<Call>)
    ensures Sending(cs) == Spread(SentTo(cs), -Reach(cs), 2 * Reach(cs))
  {
    InReach(cs, 0);
    SentInRange(cs, -Reach(cs), 2 * Reach(cs));
  }

  lemma SpreadsCompare(cs: seq<Call>, lo: int, n: nat)
    ensures |Spread(SentTo(cs), lo, n)| <= |Spread(AssembledTo(cs), lo, n)|
    ensures |Spread(SentTo(cs), lo, n)| == |Spread(AssembledTo(cs), lo, n)| <==> Throughout(FitsAt(cs), lo, n)
    ensures Throughout(FitsAt(cs), lo, n) ==> Spread(SentTo(cs), lo, n) == Spread(AssembledTo(cs), lo, n)
  {
    forall i | lo <= i < lo + n ensures Within(SentTo(cs), AssembledTo(cs), FitsAt(cs), i) {
      PlaceMatches(cs, i);
    }
    SpreadWithin(SentTo(cs), AssembledTo(cs), FitsAt(cs), lo, n);
  }

  lemma FitEverywhere(cs: seq<Call>)
    ensures Throughout(FitsAt(cs), -Reach(cs), 2 * Reach(cs)) <==> AllFit(cs)
  {
    if Throughout(FitsAt(cs), -Reach(cs), 2 * Reach(cs)) {
      forall i ensures Fits(cs, i) {
        InReach(cs, i);
        assert -Reach(cs) <= i < Reach(cs) ==> FitsAt(cs)(i);
      }
    }
    if AllFit(cs) {
      forall i ensures FitsAt(cs)(i) {
        assert Fits(cs, i);
      }
    }
  }

  // Collecting the frames gives the text, the reason and the counts of
  // toOllamaResponse on every stream, and its whole answer if and only if the
  // fragments all fit.
  lemma StreamMatchesResponseIff<J>(json: Json<J>, es: seq<Event>)
    ensures var out, whole := Stream(json, es, false), Response(json, es);
            && |out| > 0 && out[|out| - 1].DoneFrame?
            && Collect(out).(calls := whole.calls) == whole
            && (Collect(out) == whole <==> AllFit(Fragments(es)))
  {
    ShownIsText<J>(es);
    SentMatchesIff(Fragments(es));
    CollectTail(TextFrames<J>(es), ToOllamaToolCalls(json, Sending(Fragments(es))),
                DoneFrame(DoneReason(LastFinish(es)), InputTokens(es), CompletionTokens(es)));
  }

  // --- when fragments fit, by the indices they name ---------------------------

  function Indices(cs: seq<Call>): seq<Option<int>> {
    if cs == [] then [] else Indices(cs[..|cs| - 1]) + [cs[|cs| - 1].index]
  }

  // The first free place behind fragments that name these indices.
  function Next(xs: seq<Option<int>>): nat {
    if xs == [] then 0
    else
      var n, x := Next(xs[..|xs| - 1]), xs[|xs| - 1];
      var i := if x.Some? then x.value else n;
      if IsElement(i) && i >= n then i + 1 else n
  }

  // Fragment k names an array index that no fragment without one was given before;
  // or it has none, and there is room.
  predicate FitsIn(xs: seq<Option<int>>, k: nat)
    requires k < |xs|
  {
    if xs[k].Some? then IsElement(xs[k].value) && Untaken(xs[..k], xs[k].value) else IsElement(Next(xs[..k]))
  }

  predicate FitIndices(xs: seq<Option<int>>) {
    forall k :: 0 <= k < |xs| ==> FitsIn(xs, k)
  }

  predicate GivenTo(xs: seq<Option<int>>, j: nat, i: int)
    requires j < |xs|
  {
    xs[j].None? && Next(xs[..j]) == i
  }

  // No fragment without an index has been given place i.
  predicate Untaken(xs: seq<Option<int>>, i: int) {
    forall j :: 0 <= j < |xs| ==> !GivenTo(xs, j, i)
  }

  lemma FitStep(xs: seq<Option<int>>)
    requires xs != []
    ensures var n := |xs| - 1; FitIndices(xs) <==> FitIndices(xs[..n]) && FitsIn(xs, n)
  {
    var n := |xs| - 1;
    forall k | 0 <= k < n ensures FitsIn(xs[..n], k) <==> FitsIn(xs, k) {
      assert xs[..n][..k] == xs[..k];
    }
  }

  lemma {:induction false} LengthIsNext(cs: seq<Call>)
    ensures |Indices(cs)| == |cs| && StitchAll(cs).length == Next(Indices(cs))
  {
    if cs != [] {
      var xs := Indices(cs);
      LengthIsNext(cs[..|cs| - 1]);
      assert xs[..|xs| - 1] == Indices(cs[..|cs| - 1]);
    }
  }

  lemma IndicesStep(cs: seq<Call>)
    requires cs != []
    ensures var n, xs := |cs| - 1, Indices(cs); |xs| == n + 1 && xs[..n] == Indices(cs[..n]) && xs[n] == cs[n].index
  {
    LengthIsNext(cs[..|cs| - 1]);
  }

  lemma UntakenStep(xs: seq<Option<int>>, i: int)
    requires xs != []
    ensures var n := |xs| - 1; Untaken(xs, i) <==> Untaken(xs[..n], i) && !GivenTo(xs, n, i)
  {
    var n := |xs| - 1;
    forall j | 0 <= j < n ensures GivenTo(xs[..n], j, i) <==> GivenTo(xs, j, i) {
      assert xs[..n][..j] == xs[..j];
    }
  }

  // The fragments without an index at place i, with one fragment more.
  lemma NonesStep(cs: seq<Call>, i: int)
    requires cs != []
    ensures var n := |cs| - 1;
            Filter(HasNone, Placed(cs, i)) == Filter(HasNone, Placed(cs[..n], i))
              + (if cs[n].index.None? && StitchAll(cs[..n]).length == i then [cs[n]] else [])
  {
    var n := |cs| - 1;
    NothingBehind(Placed(cs[..n], i));
    NothingBehind(Filter(HasNone, Placed(cs[..n], i)));
    FilterAppend(HasNone, Placed(cs[..n], i), [cs[n]]);
    FilterOne(HasNone, cs[n]);
  }

  // Whether a fragment without an index is at place i.
  lemma {:induction false} NoneAt(cs: seq<Call>, i: int)
    ensures Filter(HasNone, Placed(cs, i)) == [] <==> Untaken(Indices(cs), i)
  {
    if cs != [] {
      NoneAt(cs[..|cs| - 1], i);
      IndicesStep(cs);
      LengthIsNext(cs[..|cs| - 1]);
      NonesStep(cs, i);
      UntakenStep(Indices(cs), i);
    }
  }

  // Other places see nothing of the last fragment.
  lemma FitsElsewhere(cs: seq<Call>, i: int)
    requires cs != [] && i != IndexOf(StitchAll(cs[..|cs| - 1]), cs[|cs| - 1])
    ensures Fits(cs, i) <==> Fits(cs[..|cs| - 1], i)
  {
    NothingBehind(Placed(cs[..|cs| - 1], i));
  }

  lemma FitsHere(cs: seq<Call>, p: int)
    requires cs != [] && p == IndexOf(StitchAll(cs[..|cs| - 1]), cs[|cs| - 1])
    ensures var n := |cs| - 1;
            Fits(cs, p) <==>
              IsElement(p)
              && (if cs[n].index.Some? then Filter(HasNone, Placed(cs[..n], p)) == [] else Placed(cs[..n], p) == [])
  {
    FilterAppend(HasNone, Placed(cs[..|cs| - 1], p), [cs[|cs| - 1]]);
    FilterOne(HasNone, cs[|cs| - 1]);
    NothingBehind(Filter(HasNone, Placed(cs[..|cs| - 1], p)));
  }

  // One fragment more only matters at its own place.
  lemma AllFitStep(cs: seq<Call>)
    requires cs != []
    ensures var n := |cs| - 1;
            var p := IndexOf(StitchAll(cs[..n]), cs[n]);
            AllFit(cs) <==>
              AllFit(cs[..n]) && IsElement(p)
              && (if cs[n].index.Some? then Filter(HasNone, Placed(cs[..n], p)) == [] else Placed(cs[..n], p) == [])
  {
    var init := cs[..|cs| - 1];
    var p := IndexOf(StitchAll(init), cs[|cs| - 1]);
    FitsHere(cs, p);
    forall i | i != p ensures Fits(cs, i) <==> Fits(init, i) {
      FitsElsewhere(cs, i);
    }
    if AllFit(cs) {
      assert Fits(cs, p);
      forall i ensures Fits(init, i) {
        assert i != p ==> Fits(cs, i);
      }
    }
  }

  // The fragments fit if and only if the list of the indices they name, or do not
  // name, says so.
  lemma {:induction false} AllFitIff(cs: seq<Call>)
    ensures AllFit(cs) <==> FitIndices(Indices(cs))
  {
    if cs != [] {
      var n := |cs| - 1;
      var p := IndexOf(StitchAll(cs[..n]), cs[n]);
      AllFitIff(cs[..n]);
      AllFitStep(cs);
      IndicesStep(cs);
      FitStep(Indices(cs));
      LengthIsNext(cs[..n]);
      NoneAt(cs[..n], p);
      SlotHoldsFragments(cs[..n], p);
    } else {
      assert forall i :: Fits(cs, i);
    }
  }

  // --- fragments that all lack an index ---------------------------------------

  lemma {:induction false} CountedOut(cs: seq<Call>)
    requires Unindexed(cs) && |cs| <= 0xFFFF_FFFF
    ensures FitIndices(Indices(cs)) && StitchAll(cs).length == |cs|
  {
    if cs != [] {
      var n := |cs| - 1;
      CountedOut(cs[..n]);
      IndicesStep(cs);
      LengthIsNext(cs[..n]);
      FitStep(Indices(cs));
    }
  }

  // One more is put behind the others.
  lemma PutBehind(s: Slots, c: Call)
    requires c.index.None? && IsElement(s.length) && s.length !in s.at
    ensures var t := Stitch(s, c);
            Whole(t, s.length + 1) == Whole(s, s.length) + [Slot(c.name, c.args)]
  {
    var t := Stitch(s, c);
    WholeSame(s, t, s.length);
    NothingInFront(c.name);
    NothingInFront(c.args);
  }

  lemma {:induction false} SendsSingles(cs: seq<Call>)
    requires Unindexed(cs) && |cs| <= 0xFFFF_FFFF
    ensures Sending(cs) == Singles(cs)
  {
    if cs != [] {
      var init, c := cs[..|cs| - 1], cs[|cs| - 1];
      SendsSingles(init);
      CountedOut(init);
      SlotHoldsFragments(init, |init|);
      PutBehind(StitchAll(init), c);
      SinglesMore(init, c);
      assert cs == init + [c];
    }
  }

  lemma {:induction false} SinglesMore(cs: seq<Call>, c: Call)
    ensures Singles(cs + [c]) == Singles(cs) + [Slot(c.name, c.args)]
  {
    if cs == [] {
      assert [] + [c] == [c] && [c][1..] == [];
    } else {
      HeadTail(cs, [c]);
      SinglesMore(cs[1..], c);
      Assoc([Slot(cs[0].name, cs[0].args)], Singles(cs[1..]), [Slot(c.name, c.args)]);
    }
  }

  lemma {:induction false} WholeSame(s: Slots, t: Slots, n: nat)
    requires forall i :: 0 <= i < n ==> (i in s.at <==> i in t.at) && (i in s.at ==> s.at[i] == t.at[i])
    ensures Whole(s, n) == Whole(t, n)
  {
    if n > 0 {
      WholeSame(s, t, n - 1);
    }
  }

  // A stream of fragments without indices, as long as an array can be, sends each
  // as a call of its own in the order they came; so does the whole answer.
  lemma UnindexedFit(cs: seq<Call>)
    requires Unindexed(cs) && |cs| <= 0xFFFF_FFFF
    ensures AllFit(cs) && Sending(cs) == Singles(cs) && Assembled(cs) == Singles(cs)
  {
    CountedOut(cs);
    SendsSingles(cs);
    AllFitIff(cs);
    SentMatchesIff(cs);
  }

  // --- fragments that all carry an index ------------------------------------

  // The fragments that carry index i.
  function At(cs: seq<Call>, i: int): seq<Call> {
    if cs == [] then [] else At(cs[..|cs| - 1], i) + (if cs[|cs| - 1].index == Some(i) then [cs[|cs| - 1]] else [])
  }

  lemma {:induction false} PlacedByIndex(cs: seq<Call>, i: int)
    requires Indexed(cs)
    ensures Placed(cs, i) == At(cs, i)
    ensures Filter(HasNone, At(cs, i)) == []
  {
    if cs != [] {
      var n := |cs| - 1;
      assert Indexed(cs[..n]);
      PlacedByIndex(cs[..n], i);
      FilterAppend(HasNone, At(cs[..n], i), [cs[n]]);
      FilterOne(HasNone, cs[n]);
      NothingBehind(At(cs[..n], i));
    }
  }

  lemma {:induction false} IndexIsPlace(cs: seq<Call>, j: nat)
    requires j < |cs| && cs[j].index.Some?
    ensures At(cs, cs[j].index.value) != []
  {
    if j < |cs| - 1 {
      IndexIsPlace(cs[..|cs| - 1], j);
    }
  }

  lemma {:induction false} OnlyIndices(cs: seq<Call>, i: int)
    requires forall j :: 0 <= j < |cs| ==> cs[j].index != Some(i)
    ensures At(cs, i) == []
  {
    if cs != [] {
      OnlyIndices(cs[..|cs| - 1], i);
    }
  }

  // Fragments that all carry an index fit, however they interleave, if and only
  // if every index is an array index. One at any other index is stored and never
  // sent.
  lemma IndexedFitIff(cs: seq<Call>)
    requires Indexed(cs)
    ensures AllFit(cs) <==> forall j :: 0 <= j < |cs| ==> IsElement(cs[j].index.value)
  {
    if AllFit(cs) {
      forall j | 0 <= j < |cs| ensures IsElement(cs[j].index.value) {
        IndexIsPlace(cs, j);
        PlacedByIndex(cs, cs[j].index.value);
        assert Fits(cs, cs[j].index.value);
      }
    }
    if forall j :: 0 <= j < |cs| ==> IsElement(cs[j].index.value) {
      forall i ensures Fits(cs, i) {
        PlacedByIndex(cs, i);
        if !IsElement(i) {
          OnlyIndices(cs, i);
        }
      }
    }
  }

  predicate SameAt(cs: seq<Call>, ds: seq<Call>, i: int) { At(cs, i) == At(ds, i) }

  // The same fragments for every index, however the two lists interleave them.
  ghost predicate SameFragments(cs: seq<Call>, ds: seq<Call>) {
    forall i: int :: SameAt(cs, ds, i)
  }

  lemma SameSent(cs: seq<Call>, ds: seq<Call>, i: int)
    requires Indexed(cs) && Indexed(ds) && SameFragments(cs, ds)
    ensures SentTo(cs)(i) == SentTo(ds)(i)
  {
    assert SameAt(cs, ds, i);
    PlacedByIndex(cs, i);
    PlacedByIndex(ds, i);
  }

  lemma SentIsSlots<J>(json: Json<J>, es: seq<Event>, n: nat)
    requires n >= StitchAll(Fragments(es)).length
    ensures Sent(Stream(json, es, false)) == ToOllamaToolCalls(json, Spread(SentTo(Fragments(es)), 0, n))
  {
    SentInRange(Fragments(es), 0, n);
    SentIsWhole(json, es);
  }

  lemma SentIsWhole<J>(json: Json<J>, es: seq<Event>)
    ensures Sent(Stream(json, es, false)) == ToOllamaToolCalls(json, Sending(Fragments(es)))
  {
    ShownIsText<J>(es);
    CollectTail(TextFrames<J>(es), ToOllamaToolCalls(json, Sending(Fragments(es))),
                DoneFrame(DoneReason(LastFinish(es)), InputTokens(es), CompletionTokens(es)));
  }

  // Only each call's own fragments matter: two streams that interleave them
  // differently send the same calls.
  lemma InterleavingIrrelevant<J>(json: Json<J>, es: seq<Event>, ds: seq<Event>)
    requires Indexed(Fragments(es)) && Indexed(Fragments(ds)) && SameFragments(Fragments(es), Fragments(ds))
    ensures Sent(Stream(json, es, false)) == Sent(Stream(json, ds, false))
  {
    var n := StitchAll(Fragments(es)).length + StitchAll(Fragments(ds)).length;
    SentIsSlots(json, es, n);
    SentIsSlots(json, ds, n);
    forall i ensures SentTo(Fragments(es))(i) == SentTo(Fragments(ds))(i) {
      SameSent(Fragments(es), Fragments(ds), i);
    }
    SpreadSame(SentTo(Fragments(es)), SentTo(Fragments(ds)), 0, n);
  }

  // --- what is sent and what is lost ----------------------------------------

  function Weight(ss: seq<Slot>): nat {
    if ss == [] then 0 else Weight(ss[..|ss| - 1]) + |ss[|ss| - 1].name| + |ss[|ss| - 1].args|
  }

  function Content(c: Call): nat { |c.name| + |c.args| }

  // The characters of all fragments, and of those put at no array index.
  function Total(cs: seq<Call>): nat {
    if cs == [] then 0 else Total(cs[..|cs| - 1]) + Content(cs[|cs| - 1])
  }

  function Lost(cs: seq<Call>): nat {
    if cs == [] then 0
    else
      var init, c := cs[..|cs| - 1], cs[|cs| - 1];
      Lost(init) + if IsElement(IndexOf(StitchAll(init), c)) then 0 else Content(c)
  }

  lemma WeightMore(ss: seq<Slot>, x: Slot)
    ensures Weight(ss + [x]) == Weight(ss) + |x.name| + |x.args|
  {
    assert (ss + [x])[..|ss|] == ss;
  }

  // One fragment more adds its characters to what is sent if it goes to an index
  // below n, and changes nothing else.
  lemma {:induction false} StitchWeight(s: Slots, c: Call, n: nat)
    ensures var i := IndexOf(s, c);
            Weight(Whole(Stitch(s, c), n)) == Weight(Whole(s, n)) + if 0 <= i < n then Content(c) else 0
  {
    if n > 0 {
      StitchWeight(s, c, n - 1);
      var t := Stitch(s, c);
      if n - 1 in s.at {
        WeightMore(Whole(s, n - 1), s.at[n - 1]);
      } else {
        NothingBehind(Whole(s, n - 1));
      }
      if n - 1 in t.at {
        WeightMore(Whole(t, n - 1), t.at[n - 1]);
      } else {
        NothingBehind(Whole(t, n - 1));
      }
    }
  }

  lemma {:induction false} WholeStops(s: Slots, n: nat, m: nat)
    requires n <= m && forall i :: n <= i < m ==> i !in s.at
    ensures Whole(s, m) == Whole(s, n)
  {
    if n < m {
      WholeStops(s, n, m - 1);
    }
  }

  // Every stream: the characters sent and the characters lost are all there
  // were, and lost are exactly those of fragments put at no array index.
  lemma {:induction false} SentAndLost(cs: seq<Call>)
    ensures Weight(Sending(cs)) + Lost(cs) == Total(cs)
  {
    if cs != [] {
      var init, c := cs[..|cs| - 1], cs[|cs| - 1];
      var s, t := StitchAll(init), StitchAll(cs);
      SentAndLost(init);
      StitchWeight(s, c, t.length);
      LengthIsArrays(cs);
      forall i | s.length <= i < t.length ensures i !in s.at {
        SlotHoldsFragments(init, i);
      }
      WholeStops(s, s.length, t.length);
    }
  }

  // Nothing is lost if and only if every fragment with content is put at an
  // array index: the one it names, or the end of an array that is not full.
  lemma {:induction false} NothingLostIff(cs: seq<Call>)
    ensures Lost(cs) == 0 <==> forall j :: 0 <= j < |cs| && Content(cs[j]) > 0 ==> HasRoom(cs[..j], cs[j])
  {
    if cs != [] {
      var n := |cs| - 1;
      NothingLostIff(cs[..n]);
      assert Lost(cs) == 0 <==> Lost(cs[..n]) == 0 && (Content(cs[n]) > 0 ==> HasRoom(cs[..n], cs[n]));
      assert forall j :: 0 <= j < n ==> cs[..n][j] == cs[j] && cs[..n][..j] == cs[..j];
    }
  }

  // The fragment names an array index, or the array is not full.
  predicate HasRoom(before: seq<Call>, c: Call) {
    if c.index.Some? then IsElement(c.index.value) else StitchAll(before).length < 0xFFFF_FFFF
  }
}
