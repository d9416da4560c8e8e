// Streaming refines buffering: when a client that folds toAnthropicStream's frames
// ends up with toAnthropicResponse of the answer the router collects.

module Refinement {
  import opened Text
  import opened Labels
  import opened AnthropicStream
  import opened StreamClient
  import opened Buffered
  import opened Places
  import opened Collected
  import opened Alignment

  // --- the calls the stream shows -------------------------------------------------

  // A call as its block shows it: the header of its first fragment.
  function StartOf(fs: seq<Call>): Called {
    if fs == [] then Called("", "", "") else Called(fs[0].id, fs[0].name, ArgsText(fs))
  }

  function Begun(cs: seq<Call>): seq<Called> {
    seq(|Met(cs)|, i requires 0 <= i < |Met(cs)| => StartOf(ByKey(cs, Met(cs)[i])))
  }

  // The last fragment that gives an id gives the first one's, and none but the
  // first has a name.
  predicate WholeHeader(fs: seq<Call>) {
    fs != [] ==> LastId(fs) == fs[0].id && forall j :: 0 < j < |fs| ==> fs[j].name == ""
  }

  predicate HeadersWhole(cs: seq<Call>) {
    forall i :: 0 <= i < |InUse(cs)| ==> WholeHeader(Placed(cs, InUse(cs)[i]))
  }

  ghost predicate SameBlocks<J>(json: Json<J>, xs: seq<Called>, ys: seq<Called>) {
    |xs| == |ys| && forall i :: 0 <= i < |xs| ==> BlockOf(json, xs[i]) == BlockOf(json, ys[i])
  }

  lemma {:induction false} NamesWhole(fs: seq<Call>)
    requires fs != []
    ensures |Names(fs)| >= |fs[0].name|
    ensures Names(fs) == fs[0].name <==> forall j :: 0 < j < |fs| ==> fs[j].name == ""
  {
    var n := |fs| - 1;
    if n > 0 {
      NamesWhole(fs[..n]);
      assert forall j :: 0 < j < n ==> fs[..n][j] == fs[j];
      NameMore(fs[0].name, Names(fs[..n]), fs[n].name);
    } else {
      assert fs[..0] == [];
      NothingInFront(fs[0].name);
    }
  }

  lemma NameMore(first: string, before: string, more: string)
    requires |before| >= |first|
    ensures before + more == first <==> before == first && more == ""
  {
    if more == "" {
      NothingBehind(before);
    } else {
      assert |before + more| > |first|;
    }
  }

  // The block a call's fragments make is the whole call's if and only if its header
  // comes whole.
  lemma BlockWhole<J>(json: Json<J>, fs: seq<Call>)
    requires fs != []
    ensures BlockOf(json, StartOf(fs)) == BlockOf(json, CallOf(fs)) <==> WholeHeader(fs)
  {
    NamesWhole(fs);
    assert IdFor(fs[0].id) == IdFor(LastId(fs)) <==> fs[0].id == LastId(fs);
  }

  lemma AlignedFragments(cs: seq<Call>, n: nat)
    requires Aligned(cs) && n < |Met(cs)|
    ensures |Met(cs)| == |InUse(cs)|
    ensures ByKey(cs, Met(cs)[n]) == Placed(cs, InUse(cs)[n]) && Placed(cs, InUse(cs)[n]) != []
  {
    AppearInOrder(cs);
    FirstsAlike(KeysOf(cs), PlacesOf(cs));
    LabelledAlike(cs, KeysOf(cs), PlacesOf(cs), Met(cs)[n], InUse(cs)[n]);
    PlacedIsLabelled(cs, InUse(cs)[n]);
    SomeInUse(cs, n);
  }

  lemma SomeInUse(cs: seq<Call>, n: nat)
    requires n < |InUse(cs)|
    ensures Placed(cs, InUse(cs)[n]) != []
  {
    assert InUse(cs)[n] in InUse(cs);
    BelowMembers(Holding(cs), StitchAll(cs).length, InUse(cs)[n]);
  }

  lemma AlignedLengths(cs: seq<Call>)
    requires Aligned(cs)
    ensures |Met(cs)| == |InUse(cs)|
  {
    AppearInOrder(cs);
    FirstsAlike(KeysOf(cs), PlacesOf(cs));
  }

  lemma AlignedBlock<J>(json: Json<J>, cs: seq<Call>, n: nat)
    requires Aligned(cs) && n < |Met(cs)| == |InUse(cs)|
    ensures BlockOf(json, Begun(cs)[n]) == BlockOf(json, Calls(cs)[n]) <==> WholeHeader(Placed(cs, InUse(cs)[n]))
  {
    AlignedFragments(cs, n);
    BlockWhole(json, Placed(cs, InUse(cs)[n]));
  }

  lemma AlignedBlocks<J>(json: Json<J>, cs: seq<Call>)
    requires Aligned(cs)
    ensures SameBlocks(json, Begun(cs), Calls(cs)) <==> HeadersWhole(cs)
  {
    AlignedLengths(cs);
    forall n | 0 <= n < |Met(cs)|
      ensures BlockOf(json, Begun(cs)[n]) == BlockOf(json, Calls(cs)[n]) <==> WholeHeader(Placed(cs, InUse(cs)[n]))
    {
      AlignedBlock(json, cs, n);
    }
  }

  // --- the stream shows the calls begun --------------------------------------------

  function Frags(items: seq<Item>): seq<Call> {
    if items == [] then []
    else Frags(items[..|items| - 1]) + (if items[|items| - 1].CallItem? then [items[|items| - 1].call] else [])
  }

  lemma {:induction false} FragsAppend(xs: seq<Item>, ys: seq<Item>)
    ensures Frags(xs + ys) == Frags(xs) + Frags(ys)
  {
    if ys == [] {
      NothingBehind(xs);
      NothingBehind(Frags(xs));
    } else {
      var n := |ys| - 1;
      assert (xs + ys)[..|xs| + n] == xs + ys[..n];
      FragsAppend(xs, ys[..n]);
      Assoc(Frags(xs), Frags(ys[..n]), if ys[n].CallItem? then [ys[n].call] else []);
    }
  }

  lemma {:induction false} FragsOfCalls(calls: seq<Call>)
    ensures Frags(CallItems(calls)) == calls
  {
    if calls != [] {
      var n := |calls| - 1;
      FragsOfCalls(calls[..n]);
      FragsAppend(CallItems(calls[..n]), [CallItem(calls[n])]);
      OneFrag(CallItem(calls[n]));
      FrontAndLast(calls);
    }
  }

  lemma OneFrag(item: Item)
    ensures Frags([item]) == if item.CallItem? then [item.call] else []
  {
    assert [item][..0] == [];
  }

  lemma FragsOfEvent(e: Event)
    ensures Frags(ItemsOf(e)) == FragmentsOf(e)
  {
    if e.Some? && e.value.choice.Some? {
      var choice := e.value.choice.value;
      FragsOfCalls(choice.calls);
      FragsAppend(if choice.text != "" then [TextItem(choice.text)] else [], CallItems(choice.calls));
      OneFrag(TextItem(choice.text));
      NothingInFront(choice.calls);
    }
  }

  lemma {:induction false} FragsOfItems(es: seq<Event>)
    ensures Frags(Items(es)) == Fragments(es)
  {
    if es != [] {
      var n := |es| - 1;
      FragsOfItems(es[..n]);
      FragsOfEvent(es[n]);
      FragsAppend(Items(es[..n]), ItemsOf(es[n]));
    }
  }

  lemma KeyedStep(items: seq<Item>)
    requires items != []
    ensures var n, ks := |items| - 1, WithKeys(items);
            ks[..n] == WithKeys(items[..n]) && ks[n] == KeyItem(items[n], |Order(WithKeys(items[..n]))|)
  {
  }

  lemma {:induction false} OrderIsMet(items: seq<Item>)
    ensures Order(WithKeys(items)) == Met(Frags(items))
  {
    if items != [] {
      var n := |items| - 1;
      OrderIsMet(items[..n]);
      KeyedStep(items);
      if items[n].CallItem? {
        FragMore(Frags(items[..n]), items[n].call);
      } else {
        NothingBehind(Frags(items[..n]));
      }
    }
  }

  // One fragment more.
  lemma FragMore(cs: seq<Call>, c: Call)
    ensures KeysOf(cs + [c]) == KeysOf(cs) + [KeyOf(c, |Met(cs)|)]
    ensures var key := KeyOf(c, |Met(cs)|);
            && Met(cs + [c]) == (if key in Met(cs) then Met(cs) else Met(cs) + [key])
            && forall k :: ByKey(cs + [c], k) == ByKey(cs, k) + (if k == key then [c] else [])
  {
    assert (cs + [c])[..|cs|] == cs;
    var xs := KeysOf(cs) + [KeyOf(c, |Met(cs)|)];
    assert xs[..|cs|] == KeysOf(cs);
  }

  lemma {:induction false} ArgsByKey(items: seq<Item>, key: Key)
    ensures ArgsOf(WithKeys(items), key) == ArgsText(ByKey(Frags(items), key))
  {
    if items != [] {
      var n := |items| - 1;
      ArgsByKey(items[..n], key);
      OrderIsMet(items[..n]);
      KeyedStep(items);
      NothingBehind(Frags(items[..n]));
      NothingBehind(ArgsOf(WithKeys(items[..n]), key));
      if items[n].CallItem? {
        FragMore(Frags(items[..n]), items[n].call);
        ArgsMore(ByKey(Frags(items[..n]), key), items[n].call);
        NothingBehind(ByKey(Frags(items[..n]), key));
      }
    }
  }

  lemma ArgsMore(fs: seq<Call>, c: Call)
    ensures ArgsText(fs + [c]) == ArgsText(fs) + c.args
  {
    assert (fs + [c])[..|fs|] == fs;
  }

  lemma MetHasFragments(cs: seq<Call>, key: Key)
    ensures key in Met(cs) <==> ByKey(cs, key) != []
  {
    FirstsMembers(KeysOf(cs), key);
    SomeLabelled(cs, KeysOf(cs), key);
  }

  lemma {:induction false} OpenerIsFirst(items: seq<Item>, key: Key)
    requires key in Order(WithKeys(items))
    ensures ByKey(Frags(items), key) != []
    ensures var c := ByKey(Frags(items), key)[0]; Opener(WithKeys(items), key) == Called(c.id, c.name, "")
  {
    var n := |items| - 1;
    var cs := Frags(items[..n]);
    KeyedStep(items);
    OrderIsMet(items[..n]);
    MetHasFragments(cs, key);
    if items[n].CallItem? {
      FragMore(cs, items[n].call);
    } else {
      NothingBehind(cs);
    }
    if key in Order(WithKeys(items[..n])) {
      OpenerIsFirst(items[..n], key);
    }
  }

  lemma StartedIsBegun(items: seq<Item>)
    ensures Started(WithKeys(items)) == Begun(Frags(items))
  {
    var ks, cs := WithKeys(items), Frags(items);
    OrderIsMet(items);
    forall i | 0 <= i < |Order(ks)| ensures StartedAs(ks, Order(ks)[i]) == StartOf(ByKey(cs, Met(cs)[i])) {
      OpenerIsFirst(items, Order(ks)[i]);
      ArgsByKey(items, Order(ks)[i]);
    }
  }

  lemma {:induction false} TextIsAllText(es: seq<Event>)
    ensures TextOf(WithKeys(Items(es))) == AllText(es)
  {
    if es != [] {
      var n := |es| - 1;
      TextIsAllText(es[..n]);
      TextOfEvent(Items(es[..n]), es[n]);
    }
  }

  lemma TextOfEvent(items: seq<Item>, e: Event)
    ensures TextOf(WithKeys(items + ItemsOf(e))) == TextOf(WithKeys(items)) + TextIn(e)
  {
    if e.Some? && e.value.choice.Some? {
      TextOfChoice(items, e.value.choice.value);
    } else {
      NothingBehind(items);
      NothingBehind(TextOf(WithKeys(items)));
    }
  }

  lemma TextOfChoice(items: seq<Item>, choice: Choice)
    ensures TextOf(WithKeys(items + ChoiceItems(choice))) == TextOf(WithKeys(items)) + choice.text
  {
    var texts := if choice.text != "" then items + [TextItem(choice.text)] else items;
    ItemsTogether(items, texts, choice);
    TextOfCalls(texts, choice.calls);
    if choice.text != "" {
      StepItem(items, TextItem(choice.text));
      TextMore(WithKeys(items), Words(choice.text));
    } else {
      NothingBehind(TextOf(WithKeys(items)));
    }
  }

  lemma TextMore(ks: seq<Keyed>, k: Keyed)
    ensures TextOf(ks + [k]) == TextOf(ks) + (if k.Words? then k.text else "")
  {
    assert (ks + [k])[..|ks|] == ks;
  }

  lemma {:induction false} TextOfCalls(items: seq<Item>, calls: seq<Call>)
    ensures TextOf(WithKeys(items + CallItems(calls))) == TextOf(WithKeys(items))
  {
    if calls == [] {
      NothingBehind(items);
    } else {
      var n := |calls| - 1;
      var before := items + CallItems(calls[..n]);
      TextOfCalls(items, calls[..n]);
      Assoc(items, CallItems(calls[..n]), [CallItem(calls[n])]);
      StepItem(before, CallItem(calls[n]));
      TextMore(WithKeys(before), KeyItem(CallItem(calls[n]), |Order(WithKeys(before))|));
      NothingBehind(TextOf(WithKeys(before)));
    }
  }

  // --- when streaming equals buffering ----------------------------------------------

  // Fragments that keys and places assign differently, while the blocks happen to
  // look as they should.
  ghost predicate LookAlike<J>(json: Json<J>, cs: seq<Call>) {
    !Aligned(cs) && SameBlocks(json, Begun(cs), Calls(cs))
  }

  ghost predicate CallsAgree<J>(json: Json<J>, cs: seq<Call>) {
    (Aligned(cs) && HeadersWhole(cs)) || LookAlike(json, cs)
  }

  lemma CallsAgreeIff<J>(json: Json<J>, cs: seq<Call>)
    ensures CallsAgree(json, cs) <==> SameBlocks(json, Begun(cs), Calls(cs))
  {
    if Aligned(cs) {
      AlignedBlocks(json, cs);
    }
  }

  lemma SameResponseIff<J>(json: Json<J>, text: string, xs: seq<Called>, ys: seq<Called>)
    ensures Response(json, Plain(text, xs)) == Response(json, Plain(text, ys)) <==> SameBlocks(json, xs, ys)
  {
    var r, s := Response(json, Plain(text, xs)), Response(json, Plain(text, ys));
    var o := if text != "" then 1 else 0;
    forall i | 0 <= i < |xs| ensures r[o + i] == BlockOf(json, xs[i]) {
      ResponseAt(json, Plain(text, xs), o + i);
    }
    forall i | 0 <= i < |ys| ensures s[o + i] == BlockOf(json, ys[i]) {
      ResponseAt(json, Plain(text, ys), o + i);
    }
    assert |r| == o + |xs| && |s| == o + |ys|;
    if SameBlocks(json, xs, ys) {
      assert r == s;
    }
    if r == s {
      forall i | 0 <= i < |xs| ensures BlockOf(json, xs[i]) == BlockOf(json, ys[i]) {
        assert r[o + i] == s[o + i];
      }
    }
  }

  // The content blocks are those of toAnthropicResponse on the collected answer if
  // and only if no text follows a call and the calls agree.
  lemma ContentMatchesIff<J>(json: Json<J>, es: seq<Event>)
    requires Usable(json)
    ensures var ks, cs := WithKeys(Items(es)), Fragments(es);
            Streamed(json, ks) == Response(json, Assemble(es)) <==> TextFirst(ks) && CallsAgree(json, cs)
  {
    var ks, cs := WithKeys(Items(es)), Fragments(es);
    assert Response(json, Assemble(es)) == Response(json, Plain(AllText(es), Calls(cs)));
    if TextFirst(ks) {
      ItemsSolid(es);
      KeyedSolid(Items(es));
      StreamShowsStarted(json, ks);
      TextIsAllText(es);
      FragsOfItems(es);
      StartedIsBegun(Items(es));
      SameResponseIff(json, AllText(es), Begun(cs), Calls(cs));
      CallsAgreeIff(json, cs);
    } else {
      TextAfterDiffers(json, ks, Assemble(es));
    }
  }

  // Streaming refines buffering: folding the frames gives the whole answer of
  // toAnthropicResponse, its content, stop reason and counts, if and only if no
  // text follows a call; keys and places tell the same calls apart, all in the
  // array, and the calls appear in the order of their places, each with its header
  // whole in its first fragment, or else the blocks look the same by chance; and no
  // text follows the provider's last count. The stop reason and the input count
  // agree on every stream.
  lemma StreamMatchesBufferedIff<J>(json: Json<J>, es: seq<Event>)
    requires Usable(json)
    ensures var ks, cs := WithKeys(Items(es)), Fragments(es);
            var folded, whole := Fold(json, Frames(es, false)), ToAnthropicResponse(json, Assemble(es));
            && folded.Some?
            && folded.value.stopReason == whole.stopReason && folded.value.inputTokens == whole.inputTokens
            && (folded.value.content == whole.content <==> TextFirst(ks) && CallsAgree(json, cs))
            && (folded.value.outputTokens == whole.outputTokens <==> CountedLast(es))
            && (folded == Some(whole) <==> TextFirst(ks) && CallsAgree(json, cs) && CountedLast(es))
  {
    FramesFold(json, es);
    ContentMatchesIff(json, es);
    InputIsPrompt(es);
    TokensMatchIff(es);
  }

  // --- calls told apart by their ids ------------------------------------------------

  // Every call starts with an id, and no other call carries it.
  predicate ToldApart(cs: seq<Call>) {
    && (forall g :: 0 <= g < |cs| && PlacesOf(cs)[g] !in PlacesOf(cs)[..g] ==> cs[g].id != "")
    && (forall g, h :: 0 <= g < |cs| && 0 <= h < |cs| && cs[g].id == cs[h].id && cs[g].id != "" ==>
          PlacesOf(cs)[g] == PlacesOf(cs)[h])
  }

  // The first fragment with a label.
  lemma {:induction false} FirstLabelled<T>(cs: seq<Call>, xs: seq<T>, x: T) returns (g: nat)
    requires |cs| == |xs| && x in xs
    ensures g < |cs| && xs[g] == x && x !in xs[..g]
    ensures Labelled(cs, xs, x) != [] && Labelled(cs, xs, x)[0] == cs[g]
  {
    var n := |cs| - 1;
    FrontAndLast(xs);
    SomeLabelled(cs[..n], xs[..n], x);
    if x in xs[..n] {
      g := FirstLabelled(cs[..n], xs[..n], x);
      assert xs[..n][..g] == xs[..g];
    } else {
      g := n;
      NothingInFront([cs[n]]);
    }
  }

  lemma {:induction false} LastIdGiven(fs: seq<Call>)
    ensures fs != [] && fs[0].id != "" ==> LastId(fs) != ""
  {
    if |fs| > 1 {
      LastIdGiven(fs[..|fs| - 1]);
    }
  }

  // Some fragment with the label carries the last id.
  lemma {:induction false} LastIdCarried(cs: seq<Call>, ys: seq<int>, y: int) returns (h: nat)
    requires |cs| == |ys| && LastId(Labelled(cs, ys, y)) != ""
    ensures h < |cs| && ys[h] == y && cs[h].id == LastId(Labelled(cs, ys, y))
  {
    var n := |cs| - 1;
    if ys[n] == y {
      var fs := Labelled(cs[..n], ys[..n], y);
      assert (fs + [cs[n]])[..|fs|] == fs;
      if cs[n].id != "" {
        return n;
      }
    } else {
      NothingBehind(Labelled(cs[..n], ys[..n], y));
    }
    h := LastIdCarried(cs[..n], ys[..n], y);
  }

  // A call's id is carried by fragments at its place only.
  lemma IdIsAtPlace(cs: seq<Call>, y: int, o: nat)
    requires ToldApart(cs) && y in PlacesOf(cs) && o < |cs| && cs[o].id == LastId(Placed(cs, y))
    ensures cs[o].id != "" && PlacesOf(cs)[o] == y
  {
    PlacedIsLabelled(cs, y);
    var g := FirstLabelled(cs, PlacesOf(cs), y);
    LastIdGiven(Placed(cs, y));
    var h := LastIdCarried(cs, PlacesOf(cs), y);
  }

  // The ids of the blocks are those of the calls by place.
  ghost predicate SameIds(cs: seq<Call>) {
    |Met(cs)| == |InUse(cs)|
    && forall n :: 0 <= n < |Met(cs)| ==> StartOf(ByKey(cs, Met(cs)[n])).id == LastId(Placed(cs, InUse(cs)[n]))
  }

  lemma BlocksHaveIds<J>(json: Json<J>, cs: seq<Call>)
    requires SameBlocks(json, Begun(cs), Calls(cs))
    ensures SameIds(cs)
  {
    forall n | 0 <= n < |Met(cs)|
      ensures StartOf(ByKey(cs, Met(cs)[n])).id == LastId(Placed(cs, InUse(cs)[n]))
    {
      assert BlockOf(json, Begun(cs)[n]) == BlockOf(json, Calls(cs)[n]);
    }
  }

  // The fragment that opens a key is at the place of that rank.
  lemma OpenerAtPlace(cs: seq<Call>, n: nat) returns (o: nat)
    requires ToldApart(cs) && SameIds(cs) && n < |Met(cs)|
    ensures o < |cs| && KeysOf(cs)[o] == Met(cs)[n] && PlacesOf(cs)[o] == InUse(cs)[n] && cs[o].id != ""
    ensures IsElement(InUse(cs)[n])
  {
    assert Met(cs)[n] in Met(cs) && InUse(cs)[n] in InUse(cs);
    FirstsMembers(KeysOf(cs), Met(cs)[n]);
    InUseMembers(cs, InUse(cs)[n]);
    o := FirstLabelled(cs, KeysOf(cs), Met(cs)[n]);
    IdIsAtPlace(cs, InUse(cs)[n], o);
  }

  // Fragments with one key, neither nameless, are at one place.
  lemma NamedTogether(cs: seq<Call>, o: nat, g: nat)
    requires ToldApart(cs) && o < |cs| && g < |cs| && KeysOf(cs)[o] == KeysOf(cs)[g]
    requires !Nameless(cs[o]) && !Nameless(cs[g])
    ensures PlacesOf(cs)[o] == PlacesOf(cs)[g]
  {
    LabelsAt(cs, o);
    LabelsAt(cs, g);
  }

  lemma RankOf(cs: seq<Call>, g: nat) returns (n: nat)
    requires g < |cs|
    ensures n < |Met(cs)| && Met(cs)[n] == KeysOf(cs)[g]
  {
    assert KeysOf(cs)[g] in KeysOf(cs);
    FirstsMembers(KeysOf(cs), KeysOf(cs)[g]);
    n :| 0 <= n < |Met(cs)| && Met(cs)[n] == KeysOf(cs)[g];
  }

  lemma {:induction false} PlacesBefore(cs: seq<Call>, g: nat)
    requires g <= |cs|
    ensures PlacesOf(cs)[..g] == PlacesOf(cs[..g])
  {
    if g < |cs| {
      LabelsStep(cs);
      PlacesBefore(cs[..|cs| - 1], g);
      assert cs[..|cs| - 1][..g] == cs[..g];
      assert PlacesOf(cs)[..|cs| - 1][..g] == PlacesOf(cs)[..g];
    } else {
      assert cs[..g] == cs;
    }
  }

  // A nameless fragment would start a call without an id, or be outside the array.
  lemma NamelessOutside(cs: seq<Call>, g: nat)
    requires ToldApart(cs) && g < |cs| && Nameless(cs[g])
    ensures !IsElement(PlacesOf(cs)[g])
  {
    LabelsAt(cs, g);
    PlacesBefore(cs, g);
    var p := PlacesOf(cs)[g];
    if IsElement(p) && p in PlacesOf(cs[..g]) {
      var h :| 0 <= h < g && PlacesOf(cs[..g])[h] == p;
      BelowLength(cs[..g], h);
    }
  }

  lemma NoneNameless(cs: seq<Call>, g: nat)
    requires ToldApart(cs) && SameIds(cs) && g < |cs|
    ensures !Nameless(cs[g])
  {
    if Nameless(cs[g]) {
      NamelessOutside(cs, g);
      var p := PlacesOf(cs)[g];
      assert p in PlacesOf(cs);
      var h := FirstLabelled(cs, PlacesOf(cs), p);
      var n := RankOf(cs, h);
      var o := OpenerAtPlace(cs, n);
      NamedTogether(cs, o, h);
    }
  }

  // Fragment g is of the call of rank n, by key and by place.
  predicate Ranked(cs: seq<Call>, g: nat, n: nat)
    requires g < |cs|
  {
    n < |Met(cs)| == |InUse(cs)| && KeysOf(cs)[g] == Met(cs)[n] && PlacesOf(cs)[g] == InUse(cs)[n]
  }

  lemma EachRanked(cs: seq<Call>, g: nat) returns (n: nat)
    requires ToldApart(cs) && SameIds(cs) && g < |cs|
    ensures Ranked(cs, g, n) && IsElement(PlacesOf(cs)[g])
  {
    n := RankOf(cs, g);
    var o := OpenerAtPlace(cs, n);
    NoneNameless(cs, g);
    NamedTogether(cs, o, g);
  }

  lemma RanksAgree(cs: seq<Call>, g: nat, m: nat, h: nat, n: nat)
    requires g < |cs| && h < |cs| && Ranked(cs, g, m) && Ranked(cs, h, n)
    ensures KeysOf(cs)[g] == KeysOf(cs)[h] <==> PlacesOf(cs)[g] == PlacesOf(cs)[h]
  {
    FirstsDiffer(KeysOf(cs));
    BelowRises(Holding(cs), StitchAll(cs).length);
    SameRank(Met(cs), InUse(cs), m, n);
  }

  // With ids that tell the calls apart, blocks with the right ids are the right ones.
  lemma ToldApartAligned(cs: seq<Call>)
    requires ToldApart(cs) && SameIds(cs)
    ensures Aligned(cs)
  {
    AllInArray(cs);
    AllSameCalls(cs);
    FirstsInUse(cs);
    BelowRises(Holding(cs), StitchAll(cs).length);
  }

  lemma AllInArray(cs: seq<Call>)
    requires ToldApart(cs) && SameIds(cs)
    ensures InArray(PlacesOf(cs))
  {
    forall g | 0 <= g < |cs| ensures IsElement(PlacesOf(cs)[g]) {
      var n := EachRanked(cs, g);
    }
  }

  lemma AllSameCalls(cs: seq<Call>)
    requires ToldApart(cs) && SameIds(cs)
    ensures SameCalls(cs)
  {
    forall g, h | 0 <= g < |cs| && 0 <= h < |cs|
      ensures KeysOf(cs)[g] == KeysOf(cs)[h] <==> PlacesOf(cs)[g] == PlacesOf(cs)[h]
    {
      var m := EachRanked(cs, g);
      var n := EachRanked(cs, h);
      RanksAgree(cs, g, m, h, n);
    }
  }

  lemma FirstsInUse(cs: seq<Call>)
    requires ToldApart(cs) && SameIds(cs) && SameCalls(cs)
    ensures Firsts(PlacesOf(cs)) == InUse(cs)
  {
    var ps := Firsts(PlacesOf(cs));
    FirstsAlike(KeysOf(cs), PlacesOf(cs));
    forall n | 0 <= n < |ps| ensures ps[n] == InUse(cs)[n] {
      var o := OpenerAtPlace(cs, n);
      assert MarkAlike(KeysOf(cs), PlacesOf(cs), Met(cs)[n], ps[n]);
    }
  }

  // So nothing looks the same by chance, and the iff is without exception.
  lemma ToldApartMatchesIff<J>(json: Json<J>, es: seq<Event>)
    requires Usable(json) && ToldApart(Fragments(es))
    ensures var ks, cs := WithKeys(Items(es)), Fragments(es);
            Fold(json, Frames(es, false)) == Some(ToAnthropicResponse(json, Assemble(es)))
            <==> TextFirst(ks) && Aligned(cs) && HeadersWhole(cs) && CountedLast(es)
  {
    var cs := Fragments(es);
    StreamMatchesBufferedIff(json, es);
    if LookAlike(json, cs) {
      BlocksHaveIds(json, cs);
      ToldApartAligned(cs);
    }
  }

  // And when every fragment carries an index: the indices are in the array and first
  // appear in increasing order.
  lemma IndexedMatchesIff<J>(json: Json<J>, es: seq<Event>)
    requires Usable(json) && ToldApart(Fragments(es)) && Indexed(Fragments(es))
    ensures var ks, cs := WithKeys(Items(es)), Fragments(es);
            Fold(json, Frames(es, false)) == Some(ToAnthropicResponse(json, Assemble(es)))
            <==> TextFirst(ks) && OfEach(RisesOrReturns, cs) && HeadersWhole(cs) && CountedLast(es)
  {
    ToldApartMatchesIff(json, es);
    IndexedAlignedIff(Fragments(es));
  }

  // --- streams that fail -------------------------------------------------------------

  function OneDelta(calls: seq<Call>): seq<Event> {
    [Some(Delta(None, Some(Choice("", calls, "tool_calls"))))]
  }

  lemma DeltaHasCalls(calls: seq<Call>)
    ensures Fragments(OneDelta(calls)) == calls && TextFirst(WithKeys(Items(OneDelta(calls))))
    ensures CountedLast(OneDelta(calls)) && AllText(OneDelta(calls)) == ""
    ensures Prompt(OneDelta(calls)) == None && Completion(OneDelta(calls)) == None
    ensures LastFinish(OneDelta(calls)) == "tool_calls"
  {
    var es := OneDelta(calls);
    assert es[..0] == [];
    NothingInFront(calls);
    NothingInFront(CallItems(calls));
    CallsAreCalls(calls);
    assert Items(es) == CallItems(calls);
    NoWords(Items(es));
  }

  lemma {:induction false} NoWords(items: seq<Item>)
    requires forall i :: 0 <= i < |items| ==> items[i].CallItem?
    ensures forall i :: 0 <= i < |items| ==> WithKeys(items)[i].Part?
  {
    if items != [] {
      NoWords(items[..|items| - 1]);
      KeyedStep(items);
    }
  }

  lemma OneOfOne(x: Call)
    requires x.index.Some?
    ensures KeysOf([x]) == [At(x.index.value)] && PlacesOf([x]) == [x.index.value]
    ensures forall i :: Placed([x], i) == if i == x.index.value then [x] else []
  {
    var cs := [x];
    assert cs[..0] == [];
    NothingInFront(cs);
  }

  lemma TwoOfTwo(x: Call, y: Call)
    requires x.index.Some? && y.index.Some? && x.index != y.index
    ensures var cs := [x, y];
            && KeysOf(cs) == [At(x.index.value), At(y.index.value)]
            && PlacesOf(cs) == [x.index.value, y.index.value]
            && Placed(cs, x.index.value) == [x] && Placed(cs, y.index.value) == [y]
  {
    var cs := [x, y];
    assert cs[..1] == [x];
    OneOfOne(x);
    NothingInFront([y]);
    NothingBehind([x]);
  }

  // Two whole calls in one delta, the second place first. Nothing is amiss but the
  // order; and the same two fragments the other way round give the same answer,
  // which their stream shows.
  lemma OrderShows<J>(json: Json<J>, x: Call, y: Call)
    requires Usable(json) && x.index == Some(0) && y.index == Some(1)
    requires x.id != "" && y.id != "" && x.id != y.id
    ensures var es, ds := OneDelta([y, x]), OneDelta([x, y]);
            && TextFirst(WithKeys(Items(es))) && CountedLast(es) && HeadersWhole(Fragments(es))
            && SameCalls(Fragments(es)) && InArray(PlacesOf(Fragments(es)))
            && Fold(json, Frames(es, false)) != Some(ToAnthropicResponse(json, Assemble(es)))
            && Fold(json, Frames(ds, false)) == Some(ToAnthropicResponse(json, Assemble(es)))
  {
    TwoCalls(y, x);
    TwoCalls(x, y);
    DeltaHasCalls([y, x]);
    DeltaHasCalls([x, y]);
    ToldApartMatchesIff(json, OneDelta([y, x]));
    ToldApartMatchesIff(json, OneDelta([x, y]));
  }

  // Two whole calls with indices 0 and 1 and ids of their own.
  lemma TwoCalls(x: Call, y: Call)
    requires (x.index == Some(0) && y.index == Some(1)) || (x.index == Some(1) && y.index == Some(0))
    requires x.id != "" && y.id != "" && x.id != y.id
    ensures var cs := [x, y];
            && ToldApart(cs) && HeadersWhole(cs) && SameCalls(cs) && InArray(PlacesOf(cs))
            && (Aligned(cs) <==> x.index == Some(0))
            && Calls(cs) == (if x.index == Some(0) then [CallOf([x]), CallOf([y])] else [CallOf([y]), CallOf([x])])
  {
    TwoOfTwo(x, y);
    TwoInUse([x, y]);
    TwoHeaders([x, y], x, y);
    TwoTold([x, y]);
    TwoAligned([x, y], KeysOf([x, y]), PlacesOf([x, y]));
  }

  lemma TwoAligned(cs: seq<Call>, xs: seq<Key>, ys: seq<int>)
    requires xs == KeysOf(cs) && ys == PlacesOf(cs) && |xs| == 2 && xs[0] != xs[1]
    requires ys == [0, 1] || ys == [1, 0]
    ensures SameClasses(xs, ys) && InArray(ys) && (Aligned(cs) <==> ys[0] == 0)
  {
    FirstsOfTwo(ys[0], ys[1]);
    TwoClasses(xs, ys);
    assert ys == [ys[0], ys[1]];
  }

  lemma TwoHeaders(cs: seq<Call>, x: Call, y: Call)
    requires InUse(cs) == [0, 1]
    requires (Placed(cs, 0) == [x] && Placed(cs, 1) == [y]) || (Placed(cs, 0) == [y] && Placed(cs, 1) == [x])
    ensures HeadersWhole(cs) && Calls(cs) == [CallOf(Placed(cs, 0)), CallOf(Placed(cs, 1))]
  {
    HeaderOfOne(x);
    HeaderOfOne(y);
  }

  lemma HeaderOfOne(x: Call)
    ensures WholeHeader([x])
  {
  }

  lemma TwoTold(cs: seq<Call>)
    requires |cs| == 2 && cs[0].id != "" && cs[1].id != "" && cs[0].id != cs[1].id
    ensures ToldApart(cs)
  {
  }

  lemma TwoClasses(xs: seq<Key>, ys: seq<int>)
    requires |xs| == |ys| == 2 && xs[0] != xs[1] && ys[0] != ys[1]
    ensures SameClasses(xs, ys)
  {
  }

  lemma FirstsOfTwo(i: int, j: int)
    requires i != j
    ensures Firsts([i, j]) == [i, j] && (Rising([i, j]) <==> i < j)
  {
    var one, two := [i], [i, j];
    assert one[..0] == [] && two[..1] == one;
    NothingInFront(one);
    assert Firsts(one) == one;
    assert Firsts(two) == one + [j];
    assert two[0] == i && two[1] == j;
  }

  lemma TwoInUse(cs: seq<Call>)
    requires PlacesOf(cs) == [0, 1] || PlacesOf(cs) == [1, 0]
    ensures InUse(cs) == [0, 1]
  {
    var xs, ys := PlacesOf(cs), [0, 1];
    assert xs[0] in ys && xs[1] in ys && ys[0] in xs && ys[1] in xs;
    InUseIs(cs, xs, ys);
  }

  // One fragment more, by place.
  lemma PlaceMore(cs: seq<Call>, c: Call)
    ensures var p := IndexOf(StitchAll(cs), c);
            && PlacesOf(cs + [c]) == PlacesOf(cs) + [p]
            && (forall i :: Placed(cs + [c], i) == Placed(cs, i) + (if i == p then [c] else []))
            && StitchAll(cs + [c]).length
               == if IsElement(p) && p >= StitchAll(cs).length then p + 1 else StitchAll(cs).length
  {
    assert (cs + [c])[..|cs|] == cs;
  }

  lemma ThreePlaces(x: Call, y: Call, z: Call)
    requires x.index == Some(5) && Nameless(y) && z.index == Some(1)
    ensures var cs := [x] + [y] + [z];
            && PlacesOf(cs) == [5, 6, 1]
            && Placed(cs, 1) == [z] && Placed(cs, 5) == [x] && Placed(cs, 6) == [y]
  {
    OneOfOne(x);
    assert [x] == [] + [x];
    PlaceMore([], x);
    PlaceMore([x], y);
    PlaceMore([x] + [y], z);
    NothingInFront([y]);
    NothingInFront([z]);
    NothingBehind([x]);
    NothingBehind([y]);
    assert PlacesOf([x] + [y]) == [5] + [6];
  }

  lemma ThreeKeys(x: Call, y: Call, z: Call)
    requires x.index == Some(5) && Nameless(y) && z.index == Some(1)
    ensures var cs := [x] + [y] + [z];
            && KeysOf(cs) == [At(5), At(1), At(1)] && Met(cs) == [At(5), At(1)]
            && ByKey(cs, At(5)) == [x] && ByKey(cs, At(1)) == [y] + [z]
  {
    assert [x] == [] + [x];
    FragMore([], x);
    FragMore([x], y);
    FragMore([x] + [y], z);
    NothingInFront([x]);
    NothingInFront([y]);
    NothingInFront([At(5)]);
    NothingBehind([x]);
    assert Met([x]) == [At(5)];
    assert KeysOf([x] + [y]) == [At(5)] + [At(1)] && Met([x] + [y]) == [At(5)] + [At(1)];
  }

  lemma ThreeInUse(cs: seq<Call>)
    requires PlacesOf(cs) == [5, 6, 1]
    ensures InUse(cs) == [1, 5, 6]
  {
    var xs, ys := PlacesOf(cs), [1, 5, 6];
    assert xs[0] == ys[1] && xs[1] == ys[2] && xs[2] == ys[0];
    InUseIs(cs, xs, ys);
  }

  // A call at index 5, one with neither index nor id, and one at index 1: the last
  // two go by one key, and the third call is merged into the block of the second.
  lemma LateIndexIsMerged(x: Call, y: Call, z: Call)
    requires x.index == Some(5) && Nameless(y) && z.index == Some(1)
    ensures var cs := [x] + [y] + [z];
            && KeysOf(cs) == [At(5), At(1), At(1)] && PlacesOf(cs) == [5, 6, 1] && !KeptApart(cs)
            && Begun(cs) == [StartOf([x]), Called("", y.name, y.args + z.args)]
            && Calls(cs) == [CallOf([z]), CallOf([x]), CallOf([y])]
  {
    var cs := [x] + [y] + [z];
    ThreeKeys(x, y, z);
    ThreePlaces(x, y, z);
    ThreeInUse(cs);
    assert KeysOf(cs)[1] == KeysOf(cs)[2] && PlacesOf(cs)[1] != PlacesOf(cs)[2];
    ArgsMore([], y);
    ArgsMore([y], z);
    NothingInFront([y]);
    NothingInFront(y.args);
  }

  // Without ids two calls can look the same by chance, in either order.
  lemma LookAlikesExist<J>(json: Json<J>, name: string, args: string)
    ensures LookAlike(json, [Call(Some(1), "", name, args), Call(Some(0), "", name, args)])
  {
    var x, y := Call(Some(1), "", name, args), Call(Some(0), "", name, args);
    var cs := [x, y];
    TwoOfTwo(x, y);
    TwoInUse(cs);
    FirstsOfTwo(1, 0);
    TwoMet(x, y);
    HeaderOfOne(x);
    BlockWhole(json, [x]);
    BlockWhole(json, [y]);
  }

  lemma TwoMet(x: Call, y: Call)
    requires x.index.Some? && y.index.Some? && x.index != y.index
    ensures var cs := [x, y]; Begun(cs) == [StartOf([x]), StartOf([y])]
  {
    KeysOfTwo(x, y, At(x.index.value), At(y.index.value));
    assert [x, y] == [x] + [y];
  }

  lemma KeysOfTwo(x: Call, y: Call, a: Key, b: Key)
    requires x.index.Some? && y.index.Some? && a == At(x.index.value) && b == At(y.index.value) && a != b
    ensures Met([x] + [y]) == [a] + [b] && ByKey([x] + [y], a) == [x] && ByKey([x] + [y], b) == [y]
  {
    assert [x] == [] + [x];
    FragMore([], x);
    FragMore([x], y);
    NothingInFront([a]);
    NothingInFront([x]);
    NothingInFront([y]);
    NothingBehind([x]);
    assert Met([x]) == [a];
  }
}
