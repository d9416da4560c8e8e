// The buffered answer (toAnthropicResponse), and what a client folds a stream to.

module Buffered {
  import opened Text
  import opened AnthropicStream
  import opened StreamClient

  // JSON text, parsed: None when it is malformed. `empty` is the object {}.
  datatype Json<J> = Json(parse: string -> Option<J>, empty: J)

  // A whole answer, in the internal shape.
  datatype Called = Called(id: string, name: string, args: string)

  datatype Answer = Answer(
    content: string, calls: seq<Called>, finish: string, prompt: Option<nat>, completion: Option<nat>)

  datatype Content<J> = Said(text: string) | Used(id: BlockId, name: string, input: J)

  // JSON.parse(arguments || "{}"), degraded to {} when malformed.
  function InputOf<J>(json: Json<J>, args: string): J {
    var r := json.parse(if args == "" then "{}" else args);
    if r.Some? then r.value else json.empty
  }

  function BlockOf<J>(json: Json<J>, c: Called): Content<J> {
    Used(IdFor(c.id), c.name, InputOf(json, c.args))
  }

  // toAnthropicResponse's content.
  function Response<J>(json: Json<J>, a: Answer): seq<Content<J>> {
    (if a.content != "" then [Said(a.content)] else [])
    + seq(|a.calls|, i requires 0 <= i < |a.calls| => BlockOf(json, a.calls[i]))
  }

  // What an Anthropic client is answered, in one object or piece by piece.
  datatype Message<J> =
    Message(content: seq<Content<J>>, stopReason: string, inputTokens: nat, outputTokens: nat)

  function OrZero(count: Option<nat>): nat {
    if count.Some? then count.value else 0
  }

  function ToAnthropicResponse<J>(json: Json<J>, a: Answer): Message<J> {
    Message(Response(json, a), StopReasonFor(a.finish), OrZero(a.prompt), OrZero(a.completion))
  }

  // What the client ends up with: a tool block that got no arguments keeps the
  // {} it was opened with.
  function Finish<J>(json: Json<J>, b: Shown): Content<J> {
    match b.block
    case TextBlock => Said(b.body)
    case ToolBlock(id, name) => Used(id, name, if b.body == "" then json.empty else InputOf(json, b.body))
  }

  function FinishAll<J>(json: Json<J>, bs: seq<Shown>): seq<Content<J>> {
    seq(|bs|, i requires 0 <= i < |bs| => Finish(json, bs[i]))
  }

  // --- what the deltas carry ------------------------------------------------

  function TextOf(ks: seq<Keyed>): string {
    if ks == [] then ""
    else TextOf(ks[..|ks| - 1]) + (if ks[|ks| - 1].Words? then ks[|ks| - 1].text else "")
  }

  predicate Of(k: Keyed, key: Key) { k.Part? && k.key == key }

  function ArgsOf(ks: seq<Keyed>, key: Key): string {
    if ks == [] then ""
    else ArgsOf(ks[..|ks| - 1], key) + (if Of(ks[|ks| - 1], key) then ks[|ks| - 1].args else "")
  }

  // The last count of output tokens the provider sent.
  function Completion(es: seq<Event>): Option<nat> {
    if es == [] then None
    else if Counts(es[|es| - 1]) then es[|es| - 1].value.usage.value.completion
    else Completion(es[..|es| - 1])
  }

  function Prompt(es: seq<Event>): Option<nat> {
    if es == [] then None
    else if PromptOf(es[|es| - 1]).Some? then PromptOf(es[|es| - 1])
    else Prompt(es[..|es| - 1])
  }

  // --- what each block of the stream holds ----------------------------------

  // The first fragment of a call, as the block was opened from it.
  function Opener(ks: seq<Keyed>, key: Key): Called
    requires key in Order(ks)
  {
    var n := |ks| - 1;
    if key in Order(ks[..n]) then Opener(ks[..n], key) else Called(ks[n].id, ks[n].name, "")
  }

  function ToolKeys(ps: seq<Piece>): seq<Key> {
    if ps == [] then []
    else ToolKeys(ps[..|ps| - 1]) + (if ps[|ps| - 1].Tool? then [ps[|ps| - 1].key] else [])
  }

  function ProseIn(ps: seq<Piece>): string {
    if ps == [] then ""
    else ProseIn(ps[..|ps| - 1]) + (if ps[|ps| - 1].Prose? then ps[|ps| - 1].text else "")
  }

  lemma {:induction false} ToolKeysUpdate(ps: seq<Piece>, i: nat, p: Piece)
    requires i < |ps| && ps[i].Tool? && p.Tool? && p.key == ps[i].key
    ensures ToolKeys(ps[i := p]) == ToolKeys(ps) && ProseIn(ps[i := p]) == ProseIn(ps)
  {
    var n := |ps| - 1;
    if i < n {
      assert ps[i := p][..n] == ps[..n][i := p];
      ToolKeysUpdate(ps[..n], i, p);
    } else {
      assert ps[i := p][..n] == ps[..n];
    }
  }

  lemma {:induction false} FindMeansKey(ps: seq<Piece>, key: Key)
    ensures Find(ps, key) < |ps| <==> key in ToolKeys(ps)
  {
    if ps != [] {
      var n := |ps| - 1;
      FindMeansKey(ps[..n], key);
      FindAppend(ps[..n], ps[n], key);
      assert ps == ps[..n] + [ps[n]];
    }
  }

  lemma AddKeys(ps: seq<Piece>, k: Keyed)
    ensures ToolKeys(Add(ps, k)) == ToolKeys(ps) + (if k.Part? && k.key !in ToolKeys(ps) then [k.key] else [])
    ensures ProseIn(Add(ps, k)) == ProseIn(ps) + (if k.Words? then k.text else "")
  {
    if k.Words? {
      var n := |ps| - 1;
      if |ps| > 0 && ps[n].Prose? {
        assert Add(ps, k)[..n] == ps[..n];
        Assoc(ProseIn(ps[..n]), ps[n].text, k.text);
      } else {
        OneMorePiece(ps, Prose(k.text));
      }
    } else {
      FindMeansKey(ps, k.key);
      var i := Find(ps, k.key);
      if i < |ps| {
        ToolKeysUpdate(ps, i, ps[i].(args := ps[i].args + k.args));
      } else {
        OneMorePiece(ps, Tool(k.key, k.id, k.name, k.args));
      }
    }
  }

  lemma OneMorePiece(ps: seq<Piece>, p: Piece)
    ensures ToolKeys(ps + [p]) == ToolKeys(ps) + (if p.Tool? then [p.key] else [])
    ensures ProseIn(ps + [p]) == ProseIn(ps) + (if p.Prose? then p.text else "")
  {
    assert (ps + [p])[..|ps|] == ps;
  }

  // One tool block for each key, in order of first appearance, and all the text.
  lemma {:induction false} KeysAreOrder(ks: seq<Keyed>)
    ensures ToolKeys(Pieces(ks)) == Order(ks) && ProseIn(Pieces(ks)) == TextOf(ks)
  {
    if ks != [] {
      KeysAreOrder(ks[..|ks| - 1]);
      AddKeys(Pieces(ks[..|ks| - 1]), ks[|ks| - 1]);
    }
  }

  ghost predicate Holds(ks: seq<Keyed>, p: Piece) {
    p.Tool? ==> p.key in Order(ks) && p == Tool(p.key, Opener(ks, p.key).id, Opener(ks, p.key).name, ArgsOf(ks, p.key))
  }

  lemma {:induction false} NoArgsYet(ks: seq<Keyed>, key: Key)
    requires key !in Order(ks)
    ensures ArgsOf(ks, key) == ""
  {
    if ks != [] {
      NoArgsYet(ks[..|ks| - 1], key);
    }
  }

  // Conservation, for any interleaving: the block opened for a key holds exactly
  // the arguments of the fragments with that key, in order, under the header of the
  // first.
  lemma {:induction false} BlocksConserve(ks: seq<Keyed>)
    ensures forall i :: 0 <= i < |Pieces(ks)| ==> Holds(ks, Pieces(ks)[i])
  {
    if ks != [] {
      var n := |ks| - 1;
      var ps, qs := Pieces(ks[..n]), Pieces(ks);
      BlocksConserve(ks[..n]);
      EncoderTracks(ks[..n]);
      KeysAreOrder(ks[..n]);
      forall i | 0 <= i < |qs| ensures Holds(ks, qs[i]) {
        HoldsStep(ks, i);
      }
    }
  }

  lemma HoldsStep(ks: seq<Keyed>, i: nat)
    requires ks != [] && i < |Pieces(ks)|
    requires var ps := Pieces(ks[..|ks| - 1]);
             && DistinctTools(ps) && ToolKeys(ps) == Order(ks[..|ks| - 1])
             && forall j :: 0 <= j < |ps| ==> Holds(ks[..|ks| - 1], ps[j])
    ensures Holds(ks, Pieces(ks)[i])
  {
    var n := |ks| - 1;
    var ps, k := Pieces(ks[..n]), ks[n];
    if i < |ps| {
      assert Holds(ks[..n], ps[i]);
    }
    if k.Part? {
      HoldsPart(ks, i);
    }
  }

  lemma HoldsPart(ks: seq<Keyed>, i: nat)
    requires ks != [] && ks[|ks| - 1].Part? && i < |Pieces(ks)|
    requires var ps := Pieces(ks[..|ks| - 1]);
             && DistinctTools(ps) && ToolKeys(ps) == Order(ks[..|ks| - 1])
             && (i < |ps| ==> Holds(ks[..|ks| - 1], ps[i]))
    ensures Holds(ks, Pieces(ks)[i])
  {
    var n := |ks| - 1;
    FindMeansKey(Pieces(ks[..n]), ks[n].key);
    NoArgsUnlessMet(ks[..n], ks[n].key);
    NothingInFront(ks[n].args);
  }

  lemma NoArgsUnlessMet(ks: seq<Keyed>, key: Key)
    ensures key !in Order(ks) ==> ArgsOf(ks, key) == ""
  {
    if key !in Order(ks) {
      NoArgsYet(ks, key);
    }
  }

  // --- text before calls ----------------------------------------------------

  // No text comes after a call has started.
  predicate TextFirst(ks: seq<Keyed>) {
    forall i, j :: 0 <= i < j < |ks| && ks[i].Part? ==> !ks[j].Words?
  }

  // Deltas never carry empty text.
  predicate Solid(ks: seq<Keyed>) {
    forall i :: 0 <= i < |ks| && ks[i].Words? ==> ks[i].text != ""
  }

  lemma {:induction false} ItemsSolid(es: seq<Event>)
    ensures forall i :: 0 <= i < |Items(es)| && Items(es)[i].TextItem? ==> Items(es)[i].text != ""
  {
    if es != [] {
      ItemsSolid(es[..|es| - 1]);
      var e := es[|es| - 1];
      if e.Some? && e.value.choice.Some? {
        CallsAreCalls(e.value.choice.value.calls);
      }
    }
  }

  lemma {:induction false} CallsAreCalls(calls: seq<Call>)
    ensures forall i :: 0 <= i < |CallItems(calls)| ==> CallItems(calls)[i].CallItem?
  {
    if calls != [] {
      CallsAreCalls(calls[..|calls| - 1]);
    }
  }

  lemma {:induction false} KeyedSolid(items: seq<Item>)
    requires forall i :: 0 <= i < |items| && items[i].TextItem? ==> items[i].text != ""
    ensures Solid(WithKeys(items))
  {
    if items != [] {
      KeyedSolid(items[..|items| - 1]);
    }
  }

  // Every block after the first is a tool block.
  predicate ToolsBehind(ps: seq<Piece>) {
    forall i :: 0 < i < |ps| ==> ps[i].Tool?
  }

  lemma {:induction false} NoKeysNoTools(ps: seq<Piece>)
    ensures ToolKeys(ps) == [] <==> forall i :: 0 <= i < |ps| ==> !ps[i].Tool?
  {
    if ps != [] {
      var n := |ps| - 1;
      NoKeysNoTools(ps[..n]);
      assert forall i :: 0 <= i < n ==> ps[..n][i] == ps[i];
    }
  }

  lemma {:induction false} TextFirstShape(ks: seq<Keyed>)
    ensures TextFirst(ks) <==> ToolsBehind(Pieces(ks))
  {
    if ks != [] {
      var n := |ks| - 1;
      TextFirstShape(ks[..n]);
      KeysAreOrder(ks[..n]);
      NoKeysNoTools(Pieces(ks[..n]));
      EncoderTracks(ks[..n]);
      PartsMet(ks[..n]);
      TextFirstStep(ks);
      AddShape(Pieces(ks[..n]), ks[n]);
    }
  }

  lemma {:induction false} OrderMembers(ks: seq<Keyed>, key: Key)
    ensures key in Order(ks) <==> exists i :: 0 <= i < |ks| && ks[i].Part? && ks[i].key == key
  {
    if ks != [] {
      var n := |ks| - 1;
      OrderMembers(ks[..n], key);
      if key in Order(ks[..n]) {
        var i :| 0 <= i < n && ks[..n][i].Part? && ks[..n][i].key == key;
        assert ks[i].Part? && ks[i].key == key;
      }
      if i :| 0 <= i < |ks| && ks[i].Part? && ks[i].key == key {
        if i < n {
          assert ks[..n][i].Part? && ks[..n][i].key == key;
        }
      }
    }
  }

  lemma PartsMet(ks: seq<Keyed>)
    ensures Order(ks) == [] <==> forall i :: 0 <= i < |ks| ==> !ks[i].Part?
  {
    forall i | 0 <= i < |ks| && ks[i].Part? ensures Order(ks) != [] {
      OrderMembers(ks, ks[i].key);
    }
    if Order(ks) != [] {
      OrderMembers(ks, Order(ks)[0]);
    }
  }

  lemma TextFirstStep(ks: seq<Keyed>)
    requires ks != []
    ensures var n := |ks| - 1;
            TextFirst(ks) <==> TextFirst(ks[..n]) && (ks[n].Words? ==> forall i :: 0 <= i < n ==> !ks[..n][i].Part?)
  {
    var n := |ks| - 1;
    if TextFirst(ks) {
      forall i, j | 0 <= i < j < n && ks[..n][i].Part? ensures !ks[..n][j].Words? {
        assert ks[i].Part? && !ks[j].Words?;
      }
    } else {
      var i, j :| 0 <= i < j < |ks| && ks[i].Part? && ks[j].Words?;
      assert ks[..n][i].Part?;
      if j < n {
        assert ks[..n][j].Words?;
      }
    }
  }

  lemma AddShape(ps: seq<Piece>, k: Keyed)
    requires |ps| > 1 && ToolsBehind(ps) ==> ps[1].Tool?
    ensures ToolsBehind(Add(ps, k)) <==>
            ToolsBehind(ps) && (k.Words? ==> forall i :: 0 <= i < |ps| ==> !ps[i].Tool?)
  {
    var qs := Add(ps, k);
    var n := |ps| - 1;
    if k.Part? {
      assert forall i :: 0 <= i < |ps| ==> qs[i].Tool? == ps[i].Tool?;
    } else if |ps| > 0 && ps[n].Prose? {
      assert qs[n].Prose? && forall i :: 0 <= i < n ==> qs[i] == ps[i];
      if n > 0 {
        assert !ToolsBehind(qs) && !ToolsBehind(ps);
      }
    } else {
      assert qs[|ps|].Prose? && forall i :: 0 <= i < |ps| ==> qs[i] == ps[i];
      if |ps| > 0 {
        assert ps[n].Tool? && !ToolsBehind(qs);
      }
    }
  }

  lemma {:induction false} Layout(ps: seq<Piece>)
    requires ToolsBehind(ps)
    ensures var o := if |ps| > 0 && ps[0].Prose? then 1 else 0;
            && |ToolKeys(ps)| == |ps| - o
            && (forall i :: o <= i < |ps| ==> ps[i].Tool? && ToolKeys(ps)[i - o] == ps[i].key)
            && ProseIn(ps) == (if o == 1 then ps[0].text else "")
  {
    if |ps| > 1 {
      Layout(ps[..|ps| - 1]);
      LayoutStep(ps);
    } else if |ps| == 1 {
      assert ps[..0] == [];
      assert ps[0].Prose? ==> "" + ps[0].text == ps[0].text;
    }
  }

  lemma LayoutStep(ps: seq<Piece>)
    requires |ps| > 1 && ToolsBehind(ps)
    ensures var n := |ps| - 1; ToolKeys(ps) == ToolKeys(ps[..n]) + [ps[n].key] && ProseIn(ps) == ProseIn(ps[..n])
  {
    NothingBehind(ProseIn(ps[..|ps| - 1]));
  }

  lemma {:induction false} ProseIsSolid(ks: seq<Keyed>)
    requires Solid(ks)
    ensures forall i :: 0 <= i < |Pieces(ks)| && Pieces(ks)[i].Prose? ==> Pieces(ks)[i].text != ""
  {
    if ks != [] {
      ProseIsSolid(ks[..|ks| - 1]);
    }
  }

  ghost predicate Usable<J>(json: Json<J>) {
    json.parse("{}") == Some(json.empty)
  }

  function Streamed<J>(json: Json<J>, ks: seq<Keyed>): seq<Content<J>> {
    FinishAll(json, ShowAll(Pieces(ks)))
  }

  // Block by block: what the client shows for piece i.
  lemma ShownPiece<J>(json: Json<J>, ks: seq<Keyed>, i: nat)
    requires Usable(json) && i < |Pieces(ks)|
    ensures |Streamed(json, ks)| == |Pieces(ks)|
    ensures var p := Pieces(ks)[i];
            Streamed(json, ks)[i] ==
              if p.Prose? then Said(p.text) else Used(IdFor(p.id), p.name, InputOf(json, p.args))
  {
  }

  // Where the tool blocks start: behind the text, if there is any.
  function Offset(ks: seq<Keyed>): nat {
    if |Pieces(ks)| > 0 && Pieces(ks)[0].Prose? then 1 else 0
  }

  // The calls as the stream shows them: header of the first fragment, arguments of
  // all with its key.
  function Started(ks: seq<Keyed>): (r: seq<Called>)
    ensures |r| == |Order(ks)|
  {
    seq(|Order(ks)|, i requires 0 <= i < |Order(ks)| => StartedAs(ks, Order(ks)[i]))
  }

  function StartedAs(ks: seq<Keyed>, key: Key): Called
    requires key in Order(ks)
  {
    Opener(ks, key).(args := ArgsOf(ks, key))
  }

  function Plain(content: string, calls: seq<Called>): Answer {
    Answer(content, calls, "", None, None)
  }

  lemma ResponseAt<J>(json: Json<J>, a: Answer, i: nat)
    requires i < |Response(json, a)|
    ensures var o := if a.content != "" then 1 else 0;
            |Response(json, a)| == o + |a.calls|
            && Response(json, a)[i] == if i < o then Said(a.content) else BlockOf(json, a.calls[i - o])
  {
  }

  // The tool blocks come behind the text, if there is any.
  lemma BlocksLaidOut(ks: seq<Keyed>)
    requires Solid(ks) && TextFirst(ks)
    ensures |Pieces(ks)| == Offset(ks) + |Order(ks)| && (Offset(ks) == 1 <==> TextOf(ks) != "")
    ensures Offset(ks) == 1 ==> Pieces(ks)[0] == Prose(TextOf(ks))
    ensures forall i :: Offset(ks) <= i < |Pieces(ks)| ==>
                          Pieces(ks)[i].Tool? && Pieces(ks)[i].key == Order(ks)[i - Offset(ks)]
  {
    TextFirstShape(ks);
    KeysAreOrder(ks);
    Layout(Pieces(ks));
    ProseIsSolid(ks);
  }

  lemma ToolShown<J>(json: Json<J>, ks: seq<Keyed>, i: nat)
    requires Usable(json) && i < |Pieces(ks)| && Pieces(ks)[i].Tool?
    ensures Pieces(ks)[i].key in Order(ks) && |Streamed(json, ks)| == |Pieces(ks)|
    ensures Streamed(json, ks)[i] == BlockOf(json, StartedAs(ks, Pieces(ks)[i].key))
  {
    BlocksConserve(ks);
    assert Holds(ks, Pieces(ks)[i]);
    ShownPiece(json, ks, i);
  }

  // Where no text follows a call, the client shows the text and then those calls.
  lemma StreamShowsStarted<J>(json: Json<J>, ks: seq<Keyed>)
    requires Usable(json) && Solid(ks) && TextFirst(ks)
    ensures Streamed(json, ks) == Response(json, Plain(TextOf(ks), Started(ks)))
  {
    var shown, whole := Streamed(json, ks), Response(json, Plain(TextOf(ks), Started(ks)));
    BlocksLaidOut(ks);
    assert |shown| == |whole|;
    forall i | 0 <= i < |whole| ensures shown[i] == whole[i] {
      BlockShown(json, ks, i, shown, whole);
    }
  }

  lemma BlockShown<J>(json: Json<J>, ks: seq<Keyed>, i: nat, shown: seq<Content<J>>, whole: seq<Content<J>>)
    requires Usable(json) && Solid(ks) && TextFirst(ks)
    requires shown == Streamed(json, ks) && whole == Response(json, Plain(TextOf(ks), Started(ks)))
    requires i < |whole| && i < |shown|
    ensures shown[i] == whole[i]
  {
    BlocksLaidOut(ks);
    ResponseAt(json, Plain(TextOf(ks), Started(ks)), i);
    if i < Offset(ks) {
      ShownPiece(json, ks, i);
    } else {
      var key := Order(ks)[i - Offset(ks)];
      ToolShown(json, ks, i);
      assert Started(ks)[i - Offset(ks)] == StartedAs(ks, key);
    }
  }

  // Where some does, it is unlike every answer.
  lemma TextAfterDiffers<J>(json: Json<J>, ks: seq<Keyed>, a: Answer)
    requires Usable(json) && !TextFirst(ks)
    ensures Streamed(json, ks) != Response(json, a)
  {
    TextFirstShape(ks);
    var i :| 0 < i < |Pieces(ks)| && !Pieces(ks)[i].Tool?;
    ShownPiece(json, ks, i);
    assert Streamed(json, ks)[i].Said?;
    assert forall j :: 0 < j < |Response(json, a)| ==> Response(json, a)[j].Used?;
  }

  // --- token counts ---------------------------------------------------------

  // Every delta with text is followed by a count from the provider.
  predicate CountedLast(es: seq<Event>) {
    forall i :: 0 <= i < |es| && HasText(es[i]) ==> CountedAfter(es, i)
  }

  predicate CountedAfter(es: seq<Event>, i: nat) {
    exists j :: i < j < |es| && Counts(es[j])
  }

  lemma CountedAfterStep(es: seq<Event>, i: nat)
    requires i < |es| - 1
    ensures CountedAfter(es, i) <==> Counts(es[|es| - 1]) || CountedAfter(es[..|es| - 1], i)
  {
    var n := |es| - 1;
    assert forall j :: 0 <= j < n ==> es[..n][j] == es[j];
  }

  lemma CountedStep(es: seq<Event>)
    requires es != []
    ensures var n := |es| - 1;
            CountedLast(es) <==> !HasText(es[n]) && (Counts(es[n]) || CountedLast(es[..n]))
  {
    var n := |es| - 1;
    forall i | 0 <= i < n
      ensures CountedAfter(es, i) <==> Counts(es[n]) || CountedAfter(es[..n], i)
      ensures es[..n][i] == es[i]
    {
      CountedAfterStep(es, i);
    }
    assert !CountedAfter(es, n);
  }

  // The stream's output count is the buffered answer's (the provider's, or 0)
  // exactly when no text comes after the last count; otherwise it is larger.
  lemma {:induction false} TokensMatchIff(es: seq<Event>)
    ensures var counted := OrZero(Completion(es));
            OutputTokens(es) >= counted && (OutputTokens(es) == counted <==> CountedLast(es))
  {
    if es != [] {
      TokensMatchIff(es[..|es| - 1]);
      CountedStep(es);
    }
  }

  lemma {:induction false} InputIsPrompt(es: seq<Event>)
    ensures InputTokens(es) == OrZero(Prompt(es))
  {
    if es != [] {
      InputIsPrompt(es[..|es| - 1]);
    }
  }

  // --- the client's fold ----------------------------------------------------

  // What a client makes of the frames of a stream: message_start, blocks by the
  // block protocol, all closed, then message_delta and message_stop.
  function Fold<J>(json: Json<J>, fs: seq<Frame>): Option<Message<J>> {
    var n := |fs| - 2;
    if n < 1 || fs[0] != MessageStart || !fs[n].MessageDelta? || fs[n + 1] != MessageStop then None
    else
      var v := Client(fs[1..n]);
      if v.None? || v.value.open.Some? then None
      else Some(Message(FinishAll(json, v.value.blocks), fs[n].stopReason, fs[n].inputTokens, fs[n].outputTokens))
  }

  // Every stream that ends normally folds to a message: the blocks shown, the
  // stop reason and the counts.
  lemma FramesFold<J>(json: Json<J>, es: seq<Event>)
    ensures Fold(json, Frames(es, false))
         == Some(Message(Streamed(json, WithKeys(Items(es))),
                         StopReasonFor(LastFinish(es)), InputTokens(es), OutputTokens(es)))
  {
    var e := Encode(WithKeys(Items(es)));
    EncoderTracks(WithKeys(Items(es)));
    CloseShown(e, Pieces(WithKeys(Items(es))));
    FoldOf(json, Close(e).body, ShowAll(Pieces(WithKeys(Items(es)))),
           MessageDelta(StopReasonFor(LastFinish(es)), InputTokens(es), OutputTokens(es)));
  }

  lemma FoldOf<J>(json: Json<J>, body: seq<Frame>, bs: seq<Shown>, d: Frame)
    requires Client(body) == Some(View(bs, None)) && d.MessageDelta?
    ensures Fold(json, [MessageStart] + body + [d, MessageStop])
         == Some(Message(FinishAll(json, bs), d.stopReason, d.inputTokens, d.outputTokens))
  {
    var fs := [MessageStart] + body + [d, MessageStop];
    assert fs[1..|fs| - 2] == body;
    assert fs[|fs| - 2] == d && fs[|fs| - 1] == MessageStop;
  }
}
