// What an Anthropic client makes of the stream: the block protocol, and the
// conservation of text and arguments.

module StreamClient {
  import opened Text
  import opened AnthropicStream

  // --- the client -----------------------------------------------------------

  datatype Shown = Shown(block: Block, body: string)

  datatype View = View(blocks: seq<Shown>, open: Option<nat>)

  function Append(v: View, i: nat, text: string): View
    requires i < |v.blocks|
  {
    v.(blocks := v.blocks[i := v.blocks[i].(body := v.blocks[i].body + text)])
  }

  // The protocol: blocks are numbered 0, 1, 2, ..., one open at a time, each
  // stopped before the next starts; a delta names a started block of its kind.
  function Accept(v: View, f: Frame): Option<View> {
    match f
    case BlockStart(i, block) =>
      if v.open == None && i == |v.blocks| then Some(View(v.blocks + [Shown(block, "")], Some(i))) else None
    case BlockStop(i) => if v.open == Some(i) then Some(v.(open := None)) else None
    case TextDelta(i, text) =>
      if i < |v.blocks| && v.blocks[i].block.TextBlock? then Some(Append(v, i, text)) else None
    case ArgsDelta(i, partial) =>
      if i < |v.blocks| && v.blocks[i].block.ToolBlock? then Some(Append(v, i, partial)) else None
    case _ => None
  }

  function Client(fs: seq<Frame>): Option<View> {
    if fs == [] then Some(View([], None))
    else
      var v := Client(fs[..|fs| - 1]);
      if v.None? then None else Accept(v.value, fs[|fs| - 1])
  }

  lemma ClientStep(fs: seq<Frame>, f: Frame)
    ensures Client(fs + [f]) == if Client(fs).None? then None else Accept(Client(fs).value, f)
  {
    assert (fs + [f])[..|fs|] == fs;
  }

  // --- the answer as blocks, without any frames -----------------------------

  datatype Piece = Prose(text: string) | Tool(key: Key, id: string, name: string, args: string)

  function Find(ps: seq<Piece>, key: Key): (i: nat)
    ensures i <= |ps| && (i < |ps| ==> ps[i].Tool? && ps[i].key == key)
    ensures forall j :: 0 <= j < i ==> !(ps[j].Tool? && ps[j].key == key)
  {
    if ps == [] || (ps[0].Tool? && ps[0].key == key) then 0 else 1 + Find(ps[1..], key)
  }

  // Text goes on the last block if that is text, a fragment on its own call's.
  function Add(ps: seq<Piece>, k: Keyed): seq<Piece> {
    match k
    case Words(text) =>
      if |ps| > 0 && ps[|ps| - 1].Prose? then ps[..|ps| - 1] + [Prose(ps[|ps| - 1].text + text)]
      else ps + [Prose(text)]
    case Part(key, id, name, args) =>
      var i := Find(ps, key);
      if i < |ps| then ps[i := ps[i].(args := ps[i].args + args)]
      else ps + [Tool(key, id, name, args)]
  }

  function Pieces(ks: seq<Keyed>): seq<Piece> {
    if ks == [] then [] else Add(Pieces(ks[..|ks| - 1]), ks[|ks| - 1])
  }

  function ShownAs(p: Piece): Shown {
    match p
    case Prose(text) => Shown(TextBlock, text)
    case Tool(_, id, name, args) => Shown(ToolBlock(IdFor(id), name), args)
  }

  function ShowAll(ps: seq<Piece>): (r: seq<Shown>)
    ensures |r| == |ps| && forall i :: 0 <= i < |ps| ==> r[i] == ShownAs(ps[i])
  {
    seq(|ps|, i requires 0 <= i < |ps| => ShownAs(ps[i]))
  }

  // --- the stream shows exactly those blocks --------------------------------

  predicate DistinctTools(ps: seq<Piece>) {
    forall i, j :: 0 <= i < j < |ps| && ps[i].Tool? && ps[j].Tool? ==> ps[i].key != ps[j].key
  }

  // Each call met, and the number of its block.
  ghost predicate Knows(tools: map<Key, nat>, ps: seq<Piece>) {
    && (forall key :: key in tools <==> Find(ps, key) < |ps|)
    && (forall key :: key in tools ==> tools[key] == Find(ps, key))
  }

  // How the encoder stands to the blocks sent so far.
  ghost predicate Tracks(e: Encoder, ps: seq<Piece>) {
    && DistinctTools(ps)
    && e.next == |ps|
    && Knows(e.tools, ps)
    && (match e.open
        case Nothing => ps == []
        case OpenText(i) => i == |ps| - 1 && ps[i].Prose?
        case OpenTool(i) => i == |ps| - 1 && ps[i].Tool?)
    && Client(e.body) == Some(View(ShowAll(ps), if e.open == Nothing then None else Some(e.open.index)))
  }

  lemma FindAppend(ps: seq<Piece>, p: Piece, key: Key)
    ensures Find(ps + [p], key) ==
            if Find(ps, key) < |ps| then Find(ps, key)
            else if p.Tool? && p.key == key then |ps| else |ps| + 1
  {
    var all := ps + [p];
    var i := Find(all, key);
    assert forall j :: 0 <= j < |ps| ==> all[j] == ps[j];
    assert all[|ps|] == p;
  }

  lemma CloseShown(e: Encoder, ps: seq<Piece>)
    requires Tracks(e, ps)
    ensures Client(Close(e).body) == Some(View(ShowAll(ps), None))
  {
    if e.open != Nothing {
      ClientStep(e.body, BlockStop(e.open.index));
    }
  }

  lemma ShowMore(ps: seq<Piece>, p: Piece)
    ensures ShowAll(ps + [p]) == ShowAll(ps) + [ShownAs(p)]
  {
  }

  // Closing the open block and starting the next one.
  lemma OpenNext(e: Encoder, ps: seq<Piece>, p: Piece)
    requires Tracks(e, ps)
    requires p == Prose("") || (p.Tool? && p.args == "")
    ensures var c := Close(e);
            c.next == |ps| && Client(c.body + [BlockStart(c.next, ShownAs(p).block)])
            == Some(View(ShowAll(ps + [p]), Some(|ps|)))
  {
    var c := Close(e);
    CloseShown(e, ps);
    ShowMore(ps, p);
    ClientStep(c.body, BlockStart(c.next, ShownAs(p).block));
  }

  lemma AppendShown(body: seq<Frame>, ps: seq<Piece>, open: Option<nat>, i: nat, qs: seq<Piece>, f: Frame)
    requires i < |ps| && |qs| == |ps|
    requires Client(body) == Some(View(ShowAll(ps), open))
    requires forall j :: 0 <= j < |ps| && j != i ==> qs[j] == ps[j]
    requires (f.TextDelta? && f.index == i && ps[i].Prose? && qs[i] == Prose(ps[i].text + f.text))
          || (f.ArgsDelta? && f.index == i && ps[i].Tool? && qs[i] == ps[i].(args := ps[i].args + f.partial))
    ensures Client(body + [f]) == Some(View(ShowAll(qs), open))
  {
    ClientStep(body, f);
    var text := if f.TextDelta? then f.text else f.partial;
    assert Append(View(ShowAll(ps), open), i, text).blocks == ShowAll(qs);
  }

  // The same blocks, but for their contents.
  ghost predicate SameHeaders(ps: seq<Piece>, qs: seq<Piece>) {
    && |ps| == |qs|
    && forall j :: 0 <= j < |ps| ==> qs[j].Tool? == ps[j].Tool? && (ps[j].Tool? ==> qs[j].key == ps[j].key)
  }

  lemma SameFind(ps: seq<Piece>, qs: seq<Piece>, key: Key)
    requires SameHeaders(ps, qs)
    ensures Find(qs, key) == Find(ps, key)
  {
  }

  lemma StillTracks(e: Encoder, f: Encoder, ps: seq<Piece>, qs: seq<Piece>)
    requires Tracks(e, ps) && SameHeaders(ps, qs)
    requires f.open == e.open && f.next == e.next && f.tools == e.tools
    requires Client(f.body) == Some(View(ShowAll(qs), if e.open == Nothing then None else Some(e.open.index)))
    ensures Tracks(f, qs)
  {
    forall key ensures Find(qs, key) == Find(ps, key) {
      SameFind(ps, qs, key);
    }
  }

  lemma WordsTracked(e: Encoder, ps: seq<Piece>, text: string)
    requires Tracks(e, ps)
    ensures Tracks(OnWords(e, text), Add(ps, Words(text)))
  {
    var qs := Add(ps, Words(text));
    if e.open.OpenText? {
      var n := |ps| - 1;
      AppendShown(e.body, ps, Some(n), n, qs, TextDelta(n, text));
      StillTracks(e, OnWords(e, text), ps, qs);
    } else {
      NewWordsTracked(e, ps, text);
    }
  }

  lemma NewWordsShown(e: Encoder, ps: seq<Piece>, text: string)
    requires Tracks(e, ps) && !e.open.OpenText?
    ensures Client(OnWords(e, text).body) == Some(View(ShowAll(ps + [Prose(text)]), Some(|ps|)))
  {
    OpenNext(e, ps, Prose(""));
    NothingInFront(text);
    AppendShown(Close(e).body + [BlockStart(|ps|, TextBlock)], ps + [Prose("")], Some(|ps|), |ps|,
                ps + [Prose(text)], TextDelta(|ps|, text));
  }

  lemma NewProseKnown(tools: map<Key, nat>, ps: seq<Piece>, text: string)
    requires Knows(tools, ps)
    ensures Knows(tools, ps + [Prose(text)])
  {
    forall key ensures Find(ps + [Prose(text)], key) == if Find(ps, key) < |ps| then Find(ps, key) else |ps| + 1 {
      FindAppend(ps, Prose(text), key);
    }
  }

  lemma NewWordsTracked(e: Encoder, ps: seq<Piece>, text: string)
    requires Tracks(e, ps) && !e.open.OpenText?
    ensures Tracks(OnWords(e, text), ps + [Prose(text)])
  {
    NewWordsShown(e, ps, text);
    NewProseKnown(e.tools, ps, text);
  }

  lemma OldPartTracked(e: Encoder, ps: seq<Piece>, k: Keyed)
    requires Tracks(e, ps) && k.Part? && k.key in e.tools
    ensures Tracks(Step(e, k), Add(ps, k))
  {
    var qs := Add(ps, k);
    var i := Find(ps, k.key);
    if k.args != "" {
      AppendShown(e.body, ps, if e.open == Nothing then None else Some(e.open.index), i, qs, ArgsDelta(i, k.args));
    } else {
      assert ps[i].args + "" == ps[i].args;
      assert qs == ps;
    }
    StillTracks(e, Step(e, k), ps, qs);
  }

  lemma NewPartShown(e: Encoder, ps: seq<Piece>, k: Keyed)
    requires Tracks(e, ps) && k.Part? && k.key !in e.tools
    ensures Client(Step(e, k).body) == Some(View(ShowAll(ps + [Tool(k.key, k.id, k.name, k.args)]), Some(|ps|)))
  {
    var p := Tool(k.key, k.id, k.name, "");
    OpenNext(e, ps, p);
    var c := Close(e);
    var body := c.body + [BlockStart(c.next, ShownAs(p).block)];
    if k.args != "" {
      assert "" + k.args == k.args;
      AppendShown(body, ps + [p], Some(|ps|), |ps|, ps + [Tool(k.key, k.id, k.name, k.args)], ArgsDelta(|ps|, k.args));
    }
  }

  lemma NewPartTracked(e: Encoder, ps: seq<Piece>, k: Keyed)
    requires Tracks(e, ps) && k.Part? && k.key !in e.tools
    ensures Tracks(Step(e, k), Add(ps, k))
  {
    NewPartShown(e, ps, k);
    NewToolDistinct(ps, k);
    NewToolKnown(e.tools, ps, Tool(k.key, k.id, k.name, k.args));
  }

  lemma NewToolKnown(tools: map<Key, nat>, ps: seq<Piece>, p: Piece)
    requires Knows(tools, ps) && p.Tool? && p.key !in tools
    ensures Knows(tools[p.key := |ps|], ps + [p])
  {
    forall key ensures Find(ps + [p], key) ==
                       if Find(ps, key) < |ps| then Find(ps, key) else if key == p.key then |ps| else |ps| + 1 {
      FindAppend(ps, p, key);
    }
  }

  lemma NewToolDistinct(ps: seq<Piece>, k: Keyed)
    requires DistinctTools(ps) && k.Part? && Find(ps, k.key) == |ps|
    ensures DistinctTools(ps + [Tool(k.key, k.id, k.name, k.args)])
  {
  }

  lemma {:induction false} EncoderTracks(ks: seq<Keyed>)
    ensures Tracks(Encode(ks), Pieces(ks))
  {
    if ks == [] {
      assert ShowAll([]) == [];
    } else {
      var init, k := ks[..|ks| - 1], ks[|ks| - 1];
      EncoderTracks(init);
      if k.Words? {
        WordsTracked(Encode(init), Pieces(init), k.text);
      } else if k.key in Encode(init).tools {
        OldPartTracked(Encode(init), Pieces(init), k);
      } else {
        NewPartTracked(Encode(init), Pieces(init), k);
      }
    }
  }

  // Every stream that ends normally is message_start, then blocks numbered
  // 0, 1, 2, ..., each started once and stopped once with at most one open, then
  // message_delta and message_stop; and the client holds exactly the blocks of
  // the content. `body` is what stands between the first frame and the end.
  lemma StreamIsWellFormed(es: seq<Event>)
    ensures exists body ::
              && Frames(es, false) == [MessageStart] + body
                   + [MessageDelta(StopReasonFor(LastFinish(es)), InputTokens(es), OutputTokens(es)), MessageStop]
              && Client(body) == Some(View(ShowAll(Pieces(WithKeys(Items(es)))), None))
  {
    var ks := WithKeys(Items(es));
    EncoderTracks(ks);
    CloseShown(Encode(ks), Pieces(ks));
    var body := Close(Encode(ks)).body;
    assert Client(body) == Some(View(ShowAll(Pieces(ks)), None));
  }

  // A stream that fails is cut inside those blocks and ends in one error frame;
  // what was sent is still the content so far.
  lemma FailedStreamIsCut(es: seq<Event>)
    ensures exists body ::
              && Frames(es, true) == (if es == [] then [] else [MessageStart]) + body + [Error]
              && Client(body).Some? && Client(body).value.blocks == ShowAll(Pieces(WithKeys(Items(es))))
  {
    var ks := WithKeys(Items(es));
    EncoderTracks(ks);
    var body := Encode(ks).body;
    assert Client(body).Some? && Client(body).value.blocks == ShowAll(Pieces(ks));
  }

  // --- every delta names the open block -------------------------------------

  // The deltas that name the block open at that moment.
  predicate Strict(fs: seq<Frame>) {
    fs == []
    || (Strict(fs[..|fs| - 1])
        && (fs[|fs| - 1].TextDelta? || fs[|fs| - 1].ArgsDelta? ==>
              Client(fs[..|fs| - 1]).Some? && Client(fs[..|fs| - 1]).value.open == Some(fs[|fs| - 1].index)))
  }

  lemma StrictStep(fs: seq<Frame>, f: Frame)
    ensures Strict(fs + [f]) <==>
            Strict(fs) && (f.TextDelta? || f.ArgsDelta? ==> Client(fs).Some? && Client(fs).value.open == Some(f.index))
  {
    assert (fs + [f])[..|fs|] == fs;
  }

  // Text, or the first fragment of a call.
  predicate Starts(ks: seq<Keyed>, m: nat)
    requires m < |ks|
  {
    ks[m].Words? || ks[m].key !in Order(ks[..m])
  }

  predicate StartsAfter(ks: seq<Keyed>, key: Key, m: nat)
    requires m < |ks|
  {
    Starts(ks, m) && key in Order(ks[..m])
  }

  // Text, or another call, started after this call did.
  predicate Passed(ks: seq<Keyed>, key: Key) {
    exists m :: 0 <= m < |ks| && StartsAfter(ks, key, m)
  }

  // A fragment with arguments for a call that has been passed.
  predicate ReturnsAt(ks: seq<Keyed>, j: nat)
    requires j < |ks|
  {
    ks[j].Part? && ks[j].args != "" && Passed(ks[..j], ks[j].key)
  }

  predicate Contiguous(ks: seq<Keyed>) {
    forall j :: 0 <= j < |ks| ==> !ReturnsAt(ks, j)
  }

  // The call whose block is open.
  function OpenKey(ks: seq<Keyed>): Option<Key> {
    if ks == [] then None
    else
      var k := ks[|ks| - 1];
      if k.Words? then None
      else if k.key !in Order(ks[..|ks| - 1]) then Some(k.key)
      else OpenKey(ks[..|ks| - 1])
  }

  lemma SameBefore(ks: seq<Keyed>, key: Key, n: nat, m: nat)
    requires m < n <= |ks|
    ensures StartsAfter(ks[..n], key, m) <==> StartsAfter(ks, key, m)
  {
    assert ks[..n][..m] == ks[..m];
  }

  lemma PassedStep(ks: seq<Keyed>, key: Key)
    requires ks != []
    ensures var n := |ks| - 1; Passed(ks, key) <==> Passed(ks[..n], key) || StartsAfter(ks, key, n)
  {
    var n := |ks| - 1;
    forall m | 0 <= m < n ensures StartsAfter(ks[..n], key, m) <==> StartsAfter(ks, key, m) {
      SameBefore(ks, key, n, m);
    }
  }

  lemma {:induction false} OpenUnlessPassed(ks: seq<Keyed>, key: Key)
    requires key in Order(ks)
    ensures OpenKey(ks) == Some(key) <==> !Passed(ks, key)
  {
    var n := |ks| - 1;
    PassedStep(ks, key);
    if key in Order(ks[..n]) {
      OpenUnlessPassed(ks[..n], key);
    } else {
      NotPassedUnmet(ks[..n], key);
    }
  }

  lemma {:induction false} OrderGrows(ks: seq<Keyed>, m: nat)
    requires m <= |ks|
    ensures forall key :: key in Order(ks[..m]) ==> key in Order(ks)
  {
    if m < |ks| {
      OrderGrows(ks[..|ks| - 1], m);
      assert ks[..|ks| - 1][..m] == ks[..m];
    } else {
      assert ks[..m] == ks;
    }
  }

  lemma NotPassedUnmet(ks: seq<Keyed>, key: Key)
    requires key !in Order(ks)
    ensures !Passed(ks, key)
  {
    forall m | 0 <= m < |ks| ensures !StartsAfter(ks, key, m) {
      OrderGrows(ks, m);
    }
  }

  // The encoder's open block is the open call's.
  // The calls' blocks are below the next number, and no two calls have one.
  ghost predicate Numbers(tools: map<Key, nat>, n: nat) {
    && (forall key :: key in tools ==> tools[key] < n)
    && (forall a, b :: a in tools && b in tools && a != b ==> tools[a] != tools[b])
  }

  predicate OpenIs(e: Encoder, open: Option<Key>) {
    if open.Some? then open.value in e.tools && e.open == OpenTool(e.tools[open.value]) else !e.open.OpenTool?
  }

  lemma {:induction false} OpenIsOpenKey(ks: seq<Keyed>)
    ensures OpenIs(Encode(ks), OpenKey(ks)) && Numbers(Encode(ks).tools, Encode(ks).next)
  {
    if ks != [] {
      OpenIsOpenKey(ks[..|ks| - 1]);
      KeysMet(ks[..|ks| - 1]);
      if ks[|ks| - 1].Part? {
        NumbersMore(Encode(ks[..|ks| - 1]).tools, Encode(ks[..|ks| - 1]).next, ks[|ks| - 1].key);
      }
    }
  }

  lemma NumbersMore(tools: map<Key, nat>, n: nat, key: Key)
    requires Numbers(tools, n)
    ensures key !in tools ==> Numbers(tools[key := n], n + 1)
  {
  }

  lemma StepStrict(ks: seq<Keyed>)
    requires ks != []
    ensures var n := |ks| - 1;
            Strict(Encode(ks).body) <==>
              Strict(Encode(ks[..n]).body)
              && (ks[n].Part? && ks[n].args != "" ==> !Passed(ks[..n], ks[n].key))
  {
    var n := |ks| - 1;
    var k := ks[n];
    var e := Encode(ks[..n]);
    EncoderTracks(ks[..n]);
    EncoderTracks(ks);
    KeysMet(ks[..n]);
    OpenIsOpenKey(ks[..n]);
    if k.Part? && k.key in e.tools {
      OpenUnlessPassed(ks[..n], k.key);
      StrictStep(e.body, ArgsDelta(e.tools[k.key], k.args));
    } else {
      if k.Part? {
        NotPassedUnmet(ks[..n], k.key);
      }
      OpeningStrict(e, Pieces(ks[..n]), k);
    }
  }

  lemma CloseStrict(e: Encoder)
    ensures Strict(Close(e).body) <==> Strict(e.body)
  {
    if e.open != Nothing {
      StrictStep(e.body, BlockStop(e.open.index));
    }
  }

  // A delta behind the start of its block.
  lemma StartedStrict(e: Encoder, ps: seq<Piece>, p: Piece, f: Frame)
    requires Tracks(e, ps) && (p == Prose("") || (p.Tool? && p.args == ""))
    requires (f.TextDelta? || f.ArgsDelta?) && f.index == |ps|
    ensures var body := Close(e).body + [BlockStart(|ps|, ShownAs(p).block)];
            (Strict(body) <==> Strict(e.body)) && (Strict(body + [f]) <==> Strict(e.body))
  {
    var body := Close(e).body + [BlockStart(|ps|, ShownAs(p).block)];
    CloseStrict(e);
    StrictStep(Close(e).body, BlockStart(|ps|, ShownAs(p).block));
    OpenNext(e, ps, p);
    StrictStep(body, f);
  }

  lemma OpeningStrict(e: Encoder, ps: seq<Piece>, k: Keyed)
    requires Tracks(e, ps) && (k.Part? ==> k.key !in e.tools)
    ensures Strict(Step(e, k).body) <==> Strict(e.body)
  {
    if k.Part? {
      StartedStrict(e, ps, Tool(k.key, k.id, k.name, ""), ArgsDelta(|ps|, k.args));
    } else if e.open.OpenText? {
      StrictStep(e.body, TextDelta(e.open.index, k.text));
    } else {
      StartedStrict(e, ps, Prose(""), TextDelta(|ps|, k.text));
    }
  }

  lemma ContiguousStep(ks: seq<Keyed>)
    requires ks != []
    ensures var n := |ks| - 1; Contiguous(ks) <==> Contiguous(ks[..n]) && !ReturnsAt(ks, n)
  {
    var n := |ks| - 1;
    forall j | 0 <= j < n ensures ReturnsAt(ks[..n], j) <==> ReturnsAt(ks, j) {
      assert ks[..n][..j] == ks[..j];
    }
  }

  // A fragment that comes back to a call after text or another call has started
  // is sent to that call's closed block. So every delta names the open block if
  // and only if no fragment with arguments comes back.
  lemma {:induction false} DeltasNameOpenBlockIff(ks: seq<Keyed>)
    ensures Strict(Encode(ks).body) <==> Contiguous(ks)
  {
    if ks != [] {
      DeltasNameOpenBlockIff(ks[..|ks| - 1]);
      StepStrict(ks);
      ContiguousStep(ks);
    }
  }

  // One fragment of a call, some text, and another fragment of the call.
  lemma ReturningFragmentIsLate(key: Key, id: string, name: string, first: string, text: string, second: string)
    requires second != ""
    ensures !Strict(Encode([Part(key, id, name, first), Words(text), Part(key, id, name, second)]).body)
  {
    var ks := [Part(key, id, name, first), Words(text), Part(key, id, name, second)];
    DeltasNameOpenBlockIff(ks);
    assert ks[..2][..1] == [ks[0]] && [ks[0]][..0] == [];
    assert key in Order([ks[0]]);
    assert StartsAfter(ks[..2], key, 1);
    assert ReturnsAt(ks, 2);
  }
}
