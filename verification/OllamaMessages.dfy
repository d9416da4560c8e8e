// fromOllamaMessages (src/inbound/ollamaInbound.js): made-up call ids, and
// results handed to calls in order.

module OllamaMessages {
  import opened Text

  // "" stands for a missing id, name or tool_call_id.
  datatype InCall = InCall(id: string, name: string, args: string)

  datatype InMessage =
    | Assistant(calls: seq<InCall>, content: string)
    | Tool(name: string, callId: string, content: string)
    | Other(role: string, content: string)
    | NotObject

  datatype OutCall = OutCall(id: string, name: string, args: string)

  datatype OutMessage =
    | AssistantOut(text: Option<string>, calls: seq<OutCall>)
    | ToolOut(callId: string, content: string)
    | OtherOut(role: string, content: string)

  // --- generated ids --------------------------------------------------------

  function GenId(n: nat): string {
    "call_" + Decimal(n)
  }

  lemma GenIdInjective(a: nat, b: nat)
    requires GenId(a) == GenId(b)
    ensures a == b
  {
    assert GenId(a)[5..] == Decimal(a) && GenId(b)[5..] == Decimal(b);
    DecimalInjective(a, b);
  }

  // --- which call a result answers ------------------------------------------

  datatype Issued = Issued(id: string, name: string)

  // Everything decided so far: the calls in order of issue, for each result the
  // ordinal of the call it answers (None: no call was open), and the id counter.
  datatype Book = Book(issued: seq<Issued>, answers: seq<Option<nat>>, n: nat)

  predicate IsOpen(b: Book, k: nat) {
    k < |b.issued| && Some(k) !in b.answers
  }

  // The oldest open call from ordinal k on, of this name if one is asked for.
  function Oldest(b: Book, name: string, k: nat): (r: Option<nat>)
    requires k <= |b.issued|
    ensures r.Some? ==> k <= r.value && IsOpen(b, r.value) && (name == "" || b.issued[r.value].name == name)
    ensures forall j :: k <= j < |b.issued| && IsOpen(b, j) && (name == "" || b.issued[j].name == name) ==>
              r.Some? && r.value <= j
    decreases |b.issued| - k
  {
    if k == |b.issued| then None
    else if IsOpen(b, k) && (name == "" || b.issued[k].name == name) then Some(k)
    else Oldest(b, name, k + 1)
  }

  // The oldest open call of the result's name, else the oldest open call.
  function Pick(b: Book, name: string): Option<nat> {
    if Oldest(b, name, 0).Some? then Oldest(b, name, 0) else Oldest(b, "", 0)
  }

  function Issue(b: Book, c: InCall): Book {
    Book(b.issued + [Issued(IdFor(b, c), c.name)], b.answers, if c.id == "" then b.n + 1 else b.n)
  }

  function IdFor(b: Book, c: InCall): (id: string)
    ensures id != ""
  {
    if c.id != "" then c.id else GenId(b.n)
  }

  function IssueAll(b: Book, calls: seq<InCall>): Book {
    if calls == [] then b else Issue(IssueAll(b, calls[..|calls| - 1]), calls[|calls| - 1])
  }

  function CallsOut(b: Book, calls: seq<InCall>): seq<OutCall> {
    if calls == [] then []
    else
      var init, c := calls[..|calls| - 1], calls[|calls| - 1];
      CallsOut(b, init) + [OutCall(IdFor(IssueAll(b, init), c), c.name, c.args)]
  }

  predicate NeedsFresh(b: Book, m: InMessage) {
    m.Tool? && m.callId == "" && Pick(b, m.name).None?
  }

  function AnswerId(b: Book, m: InMessage): string
    requires m.Tool?
  {
    if m.callId != "" then m.callId
    else if Pick(b, m.name).Some? then b.issued[Pick(b, m.name).value].id
    else GenId(b.n)
  }

  function OnMessage(b: Book, m: InMessage): Book {
    match m
    case Assistant(calls, _) => IssueAll(b, calls)
    case Tool(name, _, _) => Book(b.issued, b.answers + [Pick(b, name)], if NeedsFresh(b, m) then b.n + 1 else b.n)
    case Other(_, _) => b
    case NotObject => b
  }

  function OutFor(b: Book, m: InMessage): seq<OutMessage> {
    match m
    case Assistant(calls, content) =>
      if calls == [] then [OtherOut("assistant", content)]
      else [AssistantOut(if content == "" then None else Some(content), CallsOut(b, calls))]
    case Tool(_, _, content) => [ToolOut(AnswerId(b, m), content)]
    case Other(role, content) => [OtherOut(role, content)]
    case NotObject => []
  }

  function Books(ms: seq<InMessage>): Book {
    if ms == [] then Book([], [], 0) else OnMessage(Books(ms[..|ms| - 1]), ms[|ms| - 1])
  }

  function Convert(ms: seq<InMessage>): seq<OutMessage> {
    if ms == [] then [] else Convert(ms[..|ms| - 1]) + OutFor(Books(ms[..|ms| - 1]), ms[|ms| - 1])
  }

  // --- the list of open calls the source splices ----------------------------

  // `open` is the open calls of the book, oldest first; `at` their ordinals.
  ghost predicate Mirrors(open: seq<Issued>, at: seq<nat>, b: Book) {
    && |open| == |at|
    && (forall i :: 0 <= i < |at| ==> at[i] < |b.issued| && open[i] == b.issued[at[i]] && open[i].id != "")
    && (forall i, j :: 0 <= i < j < |at| ==> at[i] < at[j])
    && (forall k: nat :: k in at <==> IsOpen(b, k))
  }

  method FindIndex(open: seq<Issued>, name: string) returns (i: nat)
    ensures i <= |open| && (i < |open| ==> open[i].name == name)
    ensures forall j :: 0 <= j < i ==> open[j].name != name
  {
    i := 0;
    while i < |open| && open[i].name != name
      invariant 0 <= i <= |open|
      invariant forall j :: 0 <= j < i ==> open[j].name != name
    {
      i := i + 1;
    }
  }

  // Splicing at the first call of the name, or at the front, takes out exactly
  // the call the book says.
  lemma SpliceIsPick(open: seq<Issued>, at: seq<nat>, b: Book, name: string, i: nat)
    requires Mirrors(open, at, b) && i < |open|
    requires name == "" ==> i == 0
    requires name != "" ==>
               if exists j :: 0 <= j < |open| && open[j].name == name
               then open[i].name == name && forall j :: 0 <= j < i ==> open[j].name != name
               else i == 0
    ensures Pick(b, name) == Some(at[i])
  {
    assert at[i] in at;
    var first := Oldest(b, name, 0);
    if first.Some? {
      var k := first.value;
      assert k in at;
      var j :| 0 <= j < |at| && at[j] == k;
      assert open[j] == b.issued[k];
    } else {
      assert forall j :: 0 <= j < |open| ==> at[j] in at;
      assert name != "";
    }
    var oldest := Oldest(b, "", 0);
    assert oldest.Some? && oldest.value in at;
  }

  lemma NoneOpen(open: seq<Issued>, at: seq<nat>, b: Book, name: string)
    requires Mirrors(open, at, b) && open == []
    ensures Pick(b, name) == None
  {
    assert forall k: nat :: !IsOpen(b, k);
  }

  lemma SpliceMirrors(open: seq<Issued>, at: seq<nat>, b: Book, i: nat, c: Book)
    requires Mirrors(open, at, b) && i < |open|
    requires c.issued == b.issued && c.answers == b.answers + [Some(at[i])]
    ensures Mirrors(open[..i] + open[i + 1..], at[..i] + at[i + 1..], c)
  {
    var rest := at[..i] + at[i + 1..];
    forall k: nat ensures k in rest <==> IsOpen(c, k) {
      assert k in at <==> IsOpen(b, k);
      InRest(at, i, k);
      AnsweredOneMore(b, c, at[i], k);
    }
  }

  lemma InRest(at: seq<nat>, i: nat, k: nat)
    requires i < |at| && forall m, n :: 0 <= m < n < |at| ==> at[m] < at[n]
    ensures k in at[..i] + at[i + 1..] <==> k in at && k != at[i]
  {
    assert at == at[..i] + [at[i]] + at[i + 1..];
    if k in at[..i] + at[i + 1..] {
      var j :| 0 <= j < |at| && j != i && at[j] == k;
    }
  }

  lemma AnsweredOneMore(b: Book, c: Book, answered: nat, k: nat)
    requires c.issued == b.issued && c.answers == b.answers + [Some(answered)]
    ensures IsOpen(c, k) <==> IsOpen(b, k) && k != answered
  {
  }

  // No answer is to a call that is yet to be issued.
  ghost predicate AnswersIssuedOnly(b: Book) {
    forall k: nat :: |b.issued| <= k ==> Some(k) !in b.answers
  }

  lemma IssueAllKeepsAnswers(b: Book, calls: seq<InCall>)
    requires AnswersIssuedOnly(b)
    ensures AnswersIssuedOnly(IssueAll(b, calls))
  {
    IssueAllGrows(b, calls);
  }

  lemma IssueMirrors(open: seq<Issued>, at: seq<nat>, b: Book, c: InCall)
    requires Mirrors(open, at, b)
    requires AnswersIssuedOnly(b)
    ensures Mirrors(open + [Issued(IdFor(b, c), c.name)], at + [|b.issued|], Issue(b, c))
  {
    var d := Issue(b, c);
    forall k: nat ensures k in at + [|b.issued|] <==> IsOpen(d, k) {
      assert k in at <==> IsOpen(b, k);
    }
  }

  lemma {:induction false} AnswersIssued(ms: seq<InMessage>)
    ensures AnswersIssuedOnly(Books(ms))
  {
    if ms != [] {
      AnswersIssued(ms[..|ms| - 1]);
      var b, m := Books(ms[..|ms| - 1]), ms[|ms| - 1];
      if m.Assistant? {
        IssueAllGrows(b, m.calls);
      }
    }
  }

  lemma {:induction false} IssueAllGrows(b: Book, calls: seq<InCall>)
    ensures b.issued <= IssueAll(b, calls).issued && IssueAll(b, calls).answers == b.answers
    ensures |IssueAll(b, calls).issued| == |b.issued| + |calls|
  {
    if calls != [] {
      IssueAllGrows(b, calls[..|calls| - 1]);
    }
  }

  lemma NextCall(b: Book, calls: seq<InCall>, i: nat)
    requires i < |calls|
    ensures IssueAll(b, calls[..i + 1]) == Issue(IssueAll(b, calls[..i]), calls[i])
    ensures CallsOut(b, calls[..i + 1])
         == CallsOut(b, calls[..i]) + [OutCall(IdFor(IssueAll(b, calls[..i]), calls[i]), calls[i].name, calls[i].args)]
  {
    assert calls[..i + 1][..i] == calls[..i];
  }

  // One more call issued.
  lemma NextMirrors(b: Book, calls: seq<InCall>, i: nat, open: seq<Issued>, at: seq<nat>)
    requires i < |calls| && Mirrors(open, at, IssueAll(b, calls[..i]))
    requires AnswersIssuedOnly(b)
    ensures var now := IssueAll(b, calls[..i]);
            Mirrors(open + [Issued(IdFor(now, calls[i]), calls[i].name)], at + [|now.issued|],
                    IssueAll(b, calls[..i + 1]))
  {
    NextCall(b, calls, i);
    IssueAllKeepsAnswers(b, calls[..i]);
    IssueMirrors(open, at, IssueAll(b, calls[..i]), calls[i]);
  }

  method OnAssistant(calls: seq<InCall>, open: seq<Issued>, n: nat, ghost at: seq<nat>, ghost b: Book)
    returns (callsOut: seq<OutCall>, open': seq<Issued>, n': nat, ghost at': seq<nat>)
    requires Mirrors(open, at, b) && n == b.n
    requires AnswersIssuedOnly(b)
    ensures callsOut == CallsOut(b, calls)
    ensures Mirrors(open', at', IssueAll(b, calls)) && n' == IssueAll(b, calls).n
  {
    callsOut, open', n', at' := [], open, n, at;
    var i := 0;
    while i < |calls|
      invariant 0 <= i <= |calls|
      invariant callsOut == CallsOut(b, calls[..i])
      invariant Mirrors(open', at', IssueAll(b, calls[..i])) && n' == IssueAll(b, calls[..i]).n
    {
      NextCall(b, calls, i);
      NextMirrors(b, calls, i, open', at');
      ghost var now := IssueAll(b, calls[..i]);
      var id := calls[i].id;
      if id == "" {
        id := GenId(n');
        n' := n' + 1;
      }
      open' := open' + [Issued(id, calls[i].name)];
      at' := at' + [|now.issued|];
      callsOut := callsOut + [OutCall(id, calls[i].name, calls[i].args)];
      i := i + 1;
    }
    assert calls[..i] == calls;
  }

  method OnTool(m: InMessage, open: seq<Issued>, n: nat, ghost at: seq<nat>, ghost b: Book)
    returns (callId: string, open': seq<Issued>, n': nat, ghost at': seq<nat>)
    requires m.Tool? && Mirrors(open, at, b) && n == b.n
    ensures callId == AnswerId(b, m)
    ensures Mirrors(open', at', OnMessage(b, m)) && n' == OnMessage(b, m).n
  {
    var i := 0;
    if m.name != "" {
      i := FindIndex(open, m.name);
      if i == |open| {
        i := 0;
      }
    }
    open', n', at' := open, n, at;
    callId := m.callId;
    if i < |open| {
      SpliceIsPick(open, at, b, m.name, i);
      SpliceMirrors(open, at, b, i, OnMessage(b, m));
      var call := open[i];
      open' := open[..i] + open[i + 1..];
      at' := at[..i] + at[i + 1..];
      if callId == "" {
        callId := call.id;
      }
    } else {
      NoneOpen(open, at, b, m.name);
      assert forall k: nat :: IsOpen(OnMessage(b, m), k) ==> IsOpen(b, k);
    }
    if callId == "" {
      callId := GenId(n);
      n' := n + 1;
    }
  }

  method HandleMessage(m: InMessage, open: seq<Issued>, n: nat, ghost at: seq<nat>, ghost b: Book)
    returns (sent: seq<OutMessage>, open': seq<Issued>, n': nat, ghost at': seq<nat>)
    requires Mirrors(open, at, b) && n == b.n
    requires AnswersIssuedOnly(b)
    ensures sent == OutFor(b, m)
    ensures Mirrors(open', at', OnMessage(b, m)) && n' == OnMessage(b, m).n
  {
    sent, open', n', at' := [], open, n, at;
    match m {
      case NotObject =>
      case Assistant(calls, content) =>
        var callsOut;
        callsOut, open', n', at' := OnAssistant(calls, open, n, at, b);
        if |calls| > 0 {
          sent := [AssistantOut(if content == "" then None else Some(content), callsOut)];
        } else {
          sent := [OtherOut("assistant", content)];
        }
      case Tool(name, id, content) =>
        var callId;
        callId, open', n', at' := OnTool(m, open, n, at, b);
        sent := [ToolOut(callId, content)];
      case Other(role, content) =>
        sent := [OtherOut(role, content)];
    }
  }

  method FromOllamaMessages(ms: seq<InMessage>) returns (out: seq<OutMessage>)
    ensures out == Convert(ms)
  {
    out := [];
    var open: seq<Issued> := [];
    var n := 0;
    ghost var at: seq<nat> := [];
    var k := 0;
    while k < |ms|
      invariant 0 <= k <= |ms|
      invariant out == Convert(ms[..k])
      invariant Mirrors(open, at, Books(ms[..k])) && n == Books(ms[..k]).n
    {
      assert ms[..k + 1][..k] == ms[..k];
      AnswersIssued(ms[..k]);
      var sent;
      sent, open, n, at := HandleMessage(ms[k], open, n, at, Books(ms[..k]));
      out := out + sent;
      k := k + 1;
    }
    assert ms[..k] == ms;
  }

  // --- what the pairing guarantees ------------------------------------------

  ghost predicate AnsweredOnce(b: Book) {
    && (forall i, j :: 0 <= i < j < |b.answers| && b.answers[i].Some? ==> b.answers[i] != b.answers[j])
    && (forall i :: 0 <= i < |b.answers| && b.answers[i].Some? ==> b.answers[i].value < |b.issued|)
  }

  lemma ResultKeepsOnce(b: Book, pick: Option<nat>)
    requires AnsweredOnce(b) && (pick.Some? ==> IsOpen(b, pick.value))
    ensures AnsweredOnce(b.(answers := b.answers + [pick]))
  {
    forall i | 0 <= i < |b.answers| && b.answers[i].Some? ensures b.answers[i] != pick {
      assert b.answers[i] in b.answers;
    }
  }

  // No call is answered twice, and every answered call was issued before.
  lemma {:induction false} EachCallAnsweredOnce(ms: seq<InMessage>)
    ensures AnsweredOnce(Books(ms))
  {
    if ms != [] {
      EachCallAnsweredOnce(ms[..|ms| - 1]);
      var b, m := Books(ms[..|ms| - 1]), ms[|ms| - 1];
      if m.Assistant? {
        IssueAllGrows(b, m.calls);
      } else if m.Tool? {
        ResultKeepsOnce(b, Pick(b, m.name));
      }
    }
  }

  // A result answers the oldest open call of its name; with no such call, the
  // oldest open call; and nothing, with a fresh id, exactly when none is open.
  lemma ResultAnswersOldest(b: Book, m: InMessage)
    requires m.Tool?
    ensures var pick := OnMessage(b, m).answers[|b.answers|];
            && (pick.None? <==> forall k: nat :: !IsOpen(b, k))
            && (NeedsFresh(b, m) <==> m.callId == "" && forall k: nat :: !IsOpen(b, k))
            && (pick.Some? ==>
                  && IsOpen(b, pick.value)
                  && (m.callId == "" ==> AnswerId(b, m) == b.issued[pick.value].id)
                  && if m.name != "" && exists k: nat :: IsOpen(b, k) && b.issued[k].name == m.name
                     then b.issued[pick.value].name == m.name
                          && forall k: nat :: IsOpen(b, k) && b.issued[k].name == m.name ==> pick.value <= k
                     else forall k: nat :: IsOpen(b, k) ==> pick.value <= k)
  {
  }

  // --- where ids come from --------------------------------------------------

  // The client gave the id, the counter made it, or the call of this ordinal has it.
  datatype Source = Given(id: string) | Made(k: nat) | Named(ordinal: nat)

  function CallSource(b: Book, c: InCall): Source {
    if c.id != "" then Given(c.id) else Made(b.n)
  }

  function SourcesIn(b: Book, calls: seq<InCall>): seq<Source> {
    if calls == [] then []
    else
      var init, c := calls[..|calls| - 1], calls[|calls| - 1];
      SourcesIn(b, init) + [CallSource(IssueAll(b, init), c)]
  }

  function ResultSource(b: Book, m: InMessage): Source
    requires m.Tool?
  {
    if m.callId != "" then Given(m.callId)
    else if Pick(b, m.name).Some? then Named(Pick(b, m.name).value)
    else Made(b.n)
  }

  // For every call and for every result of a history, in order.
  function CallSources(ms: seq<InMessage>): seq<Source> {
    if ms == [] then []
    else
      CallSources(ms[..|ms| - 1])
      + (if ms[|ms| - 1].Assistant? then SourcesIn(Books(ms[..|ms| - 1]), ms[|ms| - 1].calls) else [])
  }

  function ResultSources(ms: seq<InMessage>): seq<Source> {
    if ms == [] then []
    else
      ResultSources(ms[..|ms| - 1])
      + (if ms[|ms| - 1].Tool? then [ResultSource(Books(ms[..|ms| - 1]), ms[|ms| - 1])] else [])
  }

  function IdText(b: Book, s: Source): string {
    match s
    case Given(id) => id
    case Made(k) => GenId(k)
    case Named(k) => if k < |b.issued| then b.issued[k].id else ""
  }

  function IdTexts(b: Book, ss: seq<Source>): seq<string> {
    if ss == [] then [] else IdTexts(b, ss[..|ss| - 1]) + [IdText(b, ss[|ss| - 1])]
  }

  // --- the ids that are forwarded -------------------------------------------

  function IdsOf(calls: seq<OutCall>): seq<string> {
    if calls == [] then [] else IdsOf(calls[..|calls| - 1]) + [calls[|calls| - 1].id]
  }

  function CallIds(out: seq<OutMessage>): seq<string> {
    if out == [] then []
    else
      CallIds(out[..|out| - 1])
      + (if out[|out| - 1].AssistantOut? then IdsOf(out[|out| - 1].calls) else [])
  }

  function ResultIds(out: seq<OutMessage>): seq<string> {
    if out == [] then []
    else ResultIds(out[..|out| - 1]) + (if out[|out| - 1].ToolOut? then [out[|out| - 1].callId] else [])
  }

  lemma OneMoreOut(out: seq<OutMessage>, o: OutMessage)
    ensures CallIds(out + [o]) == CallIds(out) + (if o.AssistantOut? then IdsOf(o.calls) else [])
    ensures ResultIds(out + [o]) == ResultIds(out) + (if o.ToolOut? then [o.callId] else [])
  {
    assert (out + [o])[..|out|] == out;
  }

  lemma {:induction false} TextsAt(b: Book, ss: seq<Source>)
    ensures |IdTexts(b, ss)| == |ss|
    ensures forall i :: 0 <= i < |ss| ==> IdTexts(b, ss)[i] == IdText(b, ss[i])
  {
    if ss != [] {
      TextsAt(b, ss[..|ss| - 1]);
    }
  }

  lemma TextsAppend(b: Book, ss: seq<Source>, ts: seq<Source>)
    ensures IdTexts(b, ss + ts) == IdTexts(b, ss) + IdTexts(b, ts)
  {
    TextsAt(b, ss);
    TextsAt(b, ts);
    TextsAt(b, ss + ts);
  }

  predicate InReach(ss: seq<Source>, n: nat) {
    forall i :: 0 <= i < |ss| && ss[i].Named? ==> ss[i].ordinal < n
  }

  // Later calls do not change what an id reads.
  lemma TextsStay(b: Book, c: Book, ss: seq<Source>)
    requires b.issued <= c.issued && InReach(ss, |b.issued|)
    ensures IdTexts(c, ss) == IdTexts(b, ss)
  {
    TextsAt(b, ss);
    TextsAt(c, ss);
    forall i | 0 <= i < |ss| ensures IdText(c, ss[i]) == IdText(b, ss[i]) {
      if ss[i].Named? {
        assert c.issued[ss[i].ordinal] == b.issued[ss[i].ordinal];
      }
    }
  }

  lemma {:induction false} SourcesOfCalls(b: Book, calls: seq<InCall>)
    ensures |SourcesIn(b, calls)| == |calls|
    ensures forall i :: 0 <= i < |calls| ==> !SourcesIn(b, calls)[i].Named?
    ensures IdsOf(CallsOut(b, calls)) == IdTexts(IssueAll(b, calls), SourcesIn(b, calls))
    ensures forall i :: 0 <= i < |calls| ==>
              |IssueAll(b, calls).issued| == |b.issued| + |calls|
              && IssueAll(b, calls).issued[|b.issued| + i].id == IdText(IssueAll(b, calls), SourcesIn(b, calls)[i])
  {
    if calls != [] {
      var init, c := calls[..|calls| - 1], calls[|calls| - 1];
      SourcesOfCalls(b, init);
      IssueAllGrows(b, init);
      TextsStay(IssueAll(b, init), IssueAll(b, calls), SourcesIn(b, init));
      assert SourcesIn(b, calls)[..|init|] == SourcesIn(b, init);
      assert CallsOut(b, calls)[..|init|] == CallsOut(b, init) by { CallsOutLength(b, init); }
    }
  }

  lemma {:induction false} CallsOutLength(b: Book, calls: seq<InCall>)
    ensures |CallsOut(b, calls)| == |calls|
  {
    if calls != [] {
      CallsOutLength(b, calls[..|calls| - 1]);
    }
  }

  predicate NoneNamed(ss: seq<Source>) {
    forall i :: 0 <= i < |ss| ==> !ss[i].Named?
  }

  // Each issued call has the id its source reads as.
  predicate Sourced(b: Book, cs: seq<Source>) {
    |cs| == |b.issued| && NoneNamed(cs) && forall i :: 0 <= i < |cs| ==> b.issued[i].id == IdText(b, cs[i])
  }

  // These are the ids forwarded, for calls and for results.
  predicate Reads(b: Book, cs: seq<Source>, rs: seq<Source>, calls: seq<string>, results: seq<string>) {
    calls == IdTexts(b, cs) && results == IdTexts(b, rs) && Sourced(b, cs) && InReach(rs, |b.issued|)
  }

  // What is forwarded reads as its sources say.
  ghost predicate Traced(ms: seq<InMessage>) {
    Reads(Books(ms), CallSources(ms), ResultSources(ms), CallIds(Convert(ms)), ResultIds(Convert(ms)))
  }

  lemma SourcedMore(b: Book, calls: seq<InCall>, cs: seq<Source>)
    requires Sourced(b, cs)
    ensures Sourced(IssueAll(b, calls), cs + SourcesIn(b, calls))
  {
    SourcesOfCalls(b, calls);
    IssueAllGrows(b, calls);
    var c, all := IssueAll(b, calls), cs + SourcesIn(b, calls);
    forall i | 0 <= i < |all| ensures c.issued[i].id == IdText(c, all[i]) {
      if i < |cs| {
        assert c.issued[i] == b.issued[i];
      } else {
        assert c.issued[|b.issued| + (i - |cs|)].id == IdText(c, SourcesIn(b, calls)[i - |cs|]);
      }
    }
  }

  lemma CallsRead(
    b: Book, cs: seq<Source>, rs: seq<Source>, callIds: seq<string>, resultIds: seq<string>, calls: seq<InCall>)
    requires Reads(b, cs, rs, callIds, resultIds)
    ensures Reads(IssueAll(b, calls), cs + SourcesIn(b, calls), rs, callIds + IdsOf(CallsOut(b, calls)), resultIds)
  {
    var c := IssueAll(b, calls);
    SourcedMore(b, calls, cs);
    SourcesOfCalls(b, calls);
    IssueAllGrows(b, calls);
    TextsStay(b, c, cs);
    TextsStay(b, c, rs);
    TextsAppend(c, cs, SourcesIn(b, calls));
  }

  lemma ResultRead(
    b: Book, cs: seq<Source>, rs: seq<Source>, callIds: seq<string>, resultIds: seq<string>, m: InMessage)
    requires m.Tool? && Reads(b, cs, rs, callIds, resultIds)
    ensures Reads(OnMessage(b, m), cs, rs + [ResultSource(b, m)], callIds, resultIds + [AnswerId(b, m)])
  {
    var c, x := OnMessage(b, m), ResultSource(b, m);
    TextsStay(b, c, cs);
    TextsStay(b, c, rs);
    TextsMore(c, rs, x);
    SameIds(b, c, cs);
    assert IdText(c, x) == AnswerId(b, m);
  }

  lemma SameIds(b: Book, c: Book, cs: seq<Source>)
    requires Sourced(b, cs) && c.issued == b.issued
    ensures Sourced(c, cs)
  {
    forall i | 0 <= i < |cs| ensures c.issued[i].id == IdText(c, cs[i]) {
      assert b.issued[i].id == IdText(b, cs[i]) && !cs[i].Named?;
    }
  }

  lemma TextsMore(b: Book, ss: seq<Source>, x: Source)
    ensures IdTexts(b, ss + [x]) == IdTexts(b, ss) + [IdText(b, x)]
  {
    assert (ss + [x])[..|ss|] == ss;
  }

  // What the last message adds to the ids forwarded.
  lemma LastForwarded(ms: seq<InMessage>)
    requires ms != []
    ensures var init, m := ms[..|ms| - 1], ms[|ms| - 1];
            && CallIds(Convert(ms)) == CallIds(Convert(init))
                 + (if m.Assistant? then IdsOf(CallsOut(Books(init), m.calls)) else [])
            && ResultIds(Convert(ms)) == ResultIds(Convert(init)) + if m.Tool? then [AnswerId(Books(init), m)] else []
  {
    var init, m := ms[..|ms| - 1], ms[|ms| - 1];
    var out := OutFor(Books(init), m);
    NothingBehind(CallIds(Convert(init)));
    NothingBehind(ResultIds(Convert(init)));
    if out == [] {
      NothingBehind(Convert(init));
    } else {
      OneMoreOut(Convert(init), out[0]);
      assert out == [out[0]];
    }
  }

  lemma {:induction false} IdsAreTraced(ms: seq<InMessage>)
    ensures Traced(ms)
  {
    if ms != [] {
      var init, m := ms[..|ms| - 1], ms[|ms| - 1];
      var cs, rs := CallSources(init), ResultSources(init);
      var callIds, resultIds := CallIds(Convert(init)), ResultIds(Convert(init));
      IdsAreTraced(init);
      LastForwarded(ms);
      NothingBehind(cs);
      NothingBehind(rs);
      NothingBehind(callIds);
      NothingBehind(resultIds);
      if m.Assistant? {
        CallsRead(Books(init), cs, rs, callIds, resultIds, m.calls);
      } else if m.Tool? {
        ResultRead(Books(init), cs, rs, callIds, resultIds, m);
      }
    }
  }

  // --- each number is used once ---------------------------------------------

  predicate MadeOnce(ss: seq<Source>, n: nat) {
    && (forall i :: 0 <= i < |ss| && ss[i].Made? ==> ss[i].k < n)
    && (forall i, j :: 0 <= i < j < |ss| && ss[i].Made? && ss[j].Made? ==> ss[i].k != ss[j].k)
  }

  predicate MadeApart(ss: seq<Source>, ts: seq<Source>) {
    forall i, j :: 0 <= i < |ss| && 0 <= j < |ts| && ss[i].Made? && ts[j].Made? ==> ss[i].k != ts[j].k
  }

  predicate Numbered(cs: seq<Source>, rs: seq<Source>, n: nat) {
    MadeOnce(cs, n) && MadeOnce(rs, n) && MadeApart(cs, rs)
  }

  lemma CallNumbered(cs: seq<Source>, rs: seq<Source>, b: Book, c: InCall)
    requires Numbered(cs, rs, b.n)
    ensures Numbered(cs + [CallSource(b, c)], rs, Issue(b, c).n)
  {
  }

  lemma {:induction false} CallsNumbered(cs: seq<Source>, rs: seq<Source>, b: Book, calls: seq<InCall>)
    requires Numbered(cs, rs, b.n)
    ensures Numbered(cs + SourcesIn(b, calls), rs, IssueAll(b, calls).n)
  {
    if calls == [] {
      NothingBehind(cs);
    } else {
      var init, c := calls[..|calls| - 1], calls[|calls| - 1];
      CallsNumbered(cs, rs, b, init);
      CallNumbered(cs + SourcesIn(b, init), rs, IssueAll(b, init), c);
      Assoc(cs, SourcesIn(b, init), [CallSource(IssueAll(b, init), c)]);
    }
  }

  lemma {:induction false} EachNumberOnce(ms: seq<InMessage>)
    ensures Numbered(CallSources(ms), ResultSources(ms), Books(ms).n)
  {
    if ms != [] {
      var init, m := ms[..|ms| - 1], ms[|ms| - 1];
      EachNumberOnce(init);
      NothingBehind(CallSources(init));
      NothingBehind(ResultSources(init));
      if m.Assistant? {
        CallsNumbered(CallSources(init), ResultSources(init), Books(init), m.calls);
      }
    }
  }

  // A result without an id of its own takes the call the book has it answer.
  lemma {:induction false} NamedIsAnswered(ms: seq<InMessage>)
    ensures var rs, b := ResultSources(ms), Books(ms);
            |rs| == |b.answers| && forall i :: 0 <= i < |rs| && rs[i].Named? ==> b.answers[i] == Some(rs[i].ordinal)
  {
    if ms != [] {
      NamedIsAnswered(ms[..|ms| - 1]);
      if ms[|ms| - 1].Assistant? {
        IssueAllGrows(Books(ms[..|ms| - 1]), ms[|ms| - 1].calls);
      }
    }
  }

  // --- when ids are distinct ------------------------------------------------

  predicate Distinct(ids: seq<string>) {
    forall i, j :: 0 <= i < j < |ids| ==> ids[i] != ids[j]
  }

  // No id was given twice.
  predicate GivenOnce(ss: seq<Source>) {
    forall i, j :: 0 <= i < j < |ss| && ss[i].Given? && ss[j].Given? ==> ss[i].id != ss[j].id
  }

  // No given id is one the counter made.
  predicate GivenNotMade(ss: seq<Source>, ts: seq<Source>) {
    forall i, j :: 0 <= i < |ss| && 0 <= j < |ts| && ss[i].Given? && ts[j].Made? ==> ss[i].id != GenId(ts[j].k)
  }

  // No two of the sources read the same.
  predicate Apart(b: Book, ss: seq<Source>) {
    forall i, j :: 0 <= i < j < |ss| ==> IdText(b, ss[i]) != IdText(b, ss[j])
  }

  lemma DistinctIsApart(b: Book, ss: seq<Source>)
    ensures Distinct(IdTexts(b, ss)) <==> Apart(b, ss)
  {
    var ids := IdTexts(b, ss);
    TextsAt(b, ss);
    if Apart(b, ss) {
      forall i, j | 0 <= i < j < |ids| ensures ids[i] != ids[j] {
        assert IdText(b, ss[i]) != IdText(b, ss[j]);
      }
    }
    if Distinct(ids) {
      forall i, j | 0 <= i < j < |ss| ensures IdText(b, ss[i]) != IdText(b, ss[j]) {
        assert ids[i] != ids[j];
      }
    }
  }

  lemma ApartAnyway(b: Book, ss: seq<Source>, i: nat, j: nat)
    requires Apart(b, ss) && i < |ss| && j < |ss| && i != j
    ensures IdText(b, ss[i]) != IdText(b, ss[j])
  {
    if j < i {
      assert IdText(b, ss[j]) != IdText(b, ss[i]);
    }
  }

  lemma ApartIsClean(b: Book, ss: seq<Source>)
    requires Apart(b, ss)
    ensures GivenOnce(ss) && GivenNotMade(ss, ss)
  {
    forall i, j | 0 <= i < |ss| && 0 <= j < |ss| && ss[i].Given? && ss[j].Made? ensures ss[i].id != GenId(ss[j].k) {
      ApartAnyway(b, ss, i, j);
    }
  }

  lemma CleanIsApart(b: Book, cs: seq<Source>, n: nat)
    requires NoneNamed(cs) && MadeOnce(cs, n) && GivenOnce(cs) && GivenNotMade(cs, cs)
    ensures Apart(b, cs)
  {
    forall i, j | 0 <= i < j < |cs| ensures IdText(b, cs[i]) != IdText(b, cs[j]) {
      SourcesDiffer(b, cs, i, j);
    }
  }

  // The ids of the calls forwarded are distinct if and only if the client gave
  // none twice and none that the counter handed to another call.
  lemma CallIdsDistinctIff(ms: seq<InMessage>)
    ensures Distinct(CallIds(Convert(ms)))
       <==> GivenOnce(CallSources(ms)) && GivenNotMade(CallSources(ms), CallSources(ms))
  {
    var b, cs := Books(ms), CallSources(ms);
    IdsAreTraced(ms);
    EachNumberOnce(ms);
    DistinctIsApart(b, cs);
    if Apart(b, cs) {
      ApartIsClean(b, cs);
    }
    if GivenOnce(cs) && GivenNotMade(cs, cs) {
      CleanIsApart(b, cs, b.n);
    }
  }

  lemma CallIdsDiffer(ms: seq<InMessage>, i: nat, j: nat)
    requires i < j < |CallSources(ms)|
    requires GivenOnce(CallSources(ms)) && GivenNotMade(CallSources(ms), CallSources(ms))
    ensures IdText(Books(ms), CallSources(ms)[i]) != IdText(Books(ms), CallSources(ms)[j])
  {
    IdsAreTraced(ms);
    EachNumberOnce(ms);
    SourcesDiffer(Books(ms), CallSources(ms), i, j);
  }

  lemma SourcesDiffer(b: Book, cs: seq<Source>, i: nat, j: nat)
    requires i < j < |cs| && NoneNamed(cs) && GivenOnce(cs) && GivenNotMade(cs, cs)
    requires cs[i].Made? && cs[j].Made? ==> cs[i].k != cs[j].k
    ensures IdText(b, cs[i]) != IdText(b, cs[j])
  {
    if cs[i].Made? && cs[j].Made? && IdText(b, cs[i]) == IdText(b, cs[j]) {
      GenIdInjective(cs[i].k, cs[j].k);
    }
  }

  // The client gave no call an id twice, and none that the counter makes.
  predicate CleanCalls(ms: seq<InMessage>) {
    && GivenOnce(CallSources(ms))
    && GivenNotMade(CallSources(ms), CallSources(ms))
    && GivenNotMade(CallSources(ms), ResultSources(ms))
  }

  // No given result id is that of a call another result answers without one.
  predicate GivenNotNamed(b: Book, rs: seq<Source>) {
    forall i, j :: 0 <= i < |rs| && 0 <= j < |rs| && rs[i].Given? && rs[j].Named? ==> rs[i].id != IdText(b, rs[j])
  }

  // Two results that came without an id never share one.
  lemma IdlessResultsDiffer(ms: seq<InMessage>, i: nat, j: nat)
    requires CleanCalls(ms) && i < j < |ResultSources(ms)|
    requires !ResultSources(ms)[i].Given? && !ResultSources(ms)[j].Given?
    ensures IdText(Books(ms), ResultSources(ms)[i]) != IdText(Books(ms), ResultSources(ms)[j])
  {
    var b, rs := Books(ms), ResultSources(ms);
    EachNumberOnce(ms);
    IdsAreTraced(ms);
    if rs[i].Named? && rs[j].Named? {
      NamedDiffer(ms, i, j);
    } else if rs[i].Named? {
      MadeIsNoCalls(ms, j, rs[i].ordinal);
    } else if rs[j].Named? {
      MadeIsNoCalls(ms, i, rs[j].ordinal);
    } else if GenId(rs[i].k) == GenId(rs[j].k) {
      GenIdInjective(rs[i].k, rs[j].k);
    }
  }

  lemma NamedDiffer(ms: seq<InMessage>, i: nat, j: nat)
    requires CleanCalls(ms) && i < j < |ResultSources(ms)|
    requires ResultSources(ms)[i].Named? && ResultSources(ms)[j].Named?
    ensures IdText(Books(ms), ResultSources(ms)[i]) != IdText(Books(ms), ResultSources(ms)[j])
  {
    var b, cs, rs := Books(ms), CallSources(ms), ResultSources(ms);
    IdsAreTraced(ms);
    EachNumberOnce(ms);
    NamedIsAnswered(ms);
    EachCallAnsweredOnce(ms);
    var k, l := rs[i].ordinal, rs[j].ordinal;
    assert b.answers[i] != b.answers[j];
    assert b.issued[k].id == IdText(b, cs[k]) && b.issued[l].id == IdText(b, cs[l]);
    CallIdsDiffer(ms, if k < l then k else l, if k < l then l else k);
  }

  // An id made for a result is the id of no call, earlier or later.
  lemma MadeIsNoCalls(ms: seq<InMessage>, i: nat, k: nat)
    requires CleanCalls(ms) && i < |ResultSources(ms)| && ResultSources(ms)[i].Made?
    requires k < |Books(ms).issued|
    ensures Books(ms).issued[k].id != GenId(ResultSources(ms)[i].k)
  {
    var b, cs, rs := Books(ms), CallSources(ms), ResultSources(ms);
    IdsAreTraced(ms);
    EachNumberOnce(ms);
    assert b.issued[k].id == IdText(b, cs[k]);
    if cs[k].Made? && GenId(cs[k].k) == GenId(rs[i].k) {
      GenIdInjective(cs[k].k, rs[i].k);
    }
  }

  // The calls that results without an id answer have ids of their own, and none
  // that was made for a result.
  predicate AnsweredApart(b: Book, rs: seq<Source>) {
    && (forall i, j :: 0 <= i < j < |rs| && rs[i].Named? && rs[j].Named? ==> IdText(b, rs[i]) != IdText(b, rs[j]))
    && (forall i, j :: 0 <= i < |rs| && 0 <= j < |rs| && rs[i].Named? && rs[j].Made? ==>
          IdText(b, rs[i]) != GenId(rs[j].k))
  }

  predicate ResultsClean(b: Book, rs: seq<Source>) {
    GivenOnce(rs) && GivenNotNamed(b, rs) && GivenNotMade(rs, rs) && AnsweredApart(b, rs)
  }

  lemma ResultsDiffer(b: Book, rs: seq<Source>, n: nat, i: nat, j: nat)
    requires ResultsClean(b, rs) && MadeOnce(rs, n) && i < j < |rs|
    ensures IdText(b, rs[i]) != IdText(b, rs[j])
  {
    if rs[i].Made? && rs[j].Made? && GenId(rs[i].k) == GenId(rs[j].k) {
      GenIdInjective(rs[i].k, rs[j].k);
    }
  }

  lemma ApartIsResultsClean(b: Book, rs: seq<Source>)
    requires Apart(b, rs)
    ensures ResultsClean(b, rs)
  {
    ApartIsClean(b, rs);
    forall i, j | 0 <= i < |rs| && 0 <= j < |rs| && rs[i].Given? && rs[j].Named?
      ensures rs[i].id != IdText(b, rs[j])
    {
      ApartAnyway(b, rs, i, j);
    }
    forall i, j | 0 <= i < |rs| && 0 <= j < |rs| && rs[i].Named? && rs[j].Made?
      ensures IdText(b, rs[i]) != GenId(rs[j].k)
    {
      ApartAnyway(b, rs, i, j);
    }
  }

  lemma ResultsCleanIsApart(b: Book, rs: seq<Source>, n: nat)
    requires ResultsClean(b, rs) && MadeOnce(rs, n)
    ensures Apart(b, rs)
  {
    forall i, j | 0 <= i < j < |rs| ensures IdText(b, rs[i]) != IdText(b, rs[j]) {
      ResultsDiffer(b, rs, n, i, j);
    }
  }

  // On every history: the ids the results carry are distinct if and only if the
  // client gave none twice and none that a result without an id is handed, and the
  // calls whose ids are handed to results have different ones, none made for a
  // result.
  lemma ResultIdsDistinctIff(ms: seq<InMessage>)
    ensures Distinct(ResultIds(Convert(ms))) <==> ResultsClean(Books(ms), ResultSources(ms))
  {
    var b, rs := Books(ms), ResultSources(ms);
    IdsAreTraced(ms);
    EachNumberOnce(ms);
    DistinctIsApart(b, rs);
    if Apart(b, rs) {
      ApartIsResultsClean(b, rs);
    }
    if ResultsClean(b, rs) {
      ResultsCleanIsApart(b, rs, b.n);
    }
  }

  // With clean call ids the last condition holds of itself.
  lemma CleanResultIdsDistinctIff(ms: seq<InMessage>)
    requires CleanCalls(ms)
    ensures var rs := ResultSources(ms);
            Distinct(ResultIds(Convert(ms)))
            <==> GivenOnce(rs) && GivenNotNamed(Books(ms), rs) && GivenNotMade(rs, rs)
  {
    var rs := ResultSources(ms);
    ResultIdsDistinctIff(ms);
    forall i, j | 0 <= i < |rs| && 0 <= j < |rs| && i != j && !rs[i].Given? && !rs[j].Given?
      ensures IdText(Books(ms), rs[i]) != IdText(Books(ms), rs[j])
    {
      IdlessResultsDiffer(ms, if i < j then i else j, if i < j then j else i);
    }
  }

  // The usual case: the client gave no ids at all.
  predicate NothingGiven(ms: seq<InMessage>) {
    forall t :: 0 <= t < |ms| ==>
      (ms[t].Tool? ==> ms[t].callId == "")
      && (ms[t].Assistant? ==> forall i :: 0 <= i < |ms[t].calls| ==> ms[t].calls[i].id == "")
  }

  predicate NoneGiven(ss: seq<Source>) {
    forall i :: 0 <= i < |ss| ==> !ss[i].Given?
  }

  lemma {:induction false} NoneGivenIn(b: Book, calls: seq<InCall>)
    requires forall i :: 0 <= i < |calls| ==> calls[i].id == ""
    ensures NoneGiven(SourcesIn(b, calls))
  {
    if calls != [] {
      NoneGivenIn(b, calls[..|calls| - 1]);
    }
  }

  lemma {:induction false} NothingGivenAnywhere(ms: seq<InMessage>)
    requires NothingGiven(ms)
    ensures NoneGiven(CallSources(ms)) && NoneGiven(ResultSources(ms))
  {
    if ms != [] {
      var n := |ms| - 1;
      assert forall t :: 0 <= t < n ==> ms[..n][t] == ms[t];
      NothingGivenAnywhere(ms[..n]);
      if ms[n].Assistant? {
        NoneGivenIn(Books(ms[..n]), ms[n].calls);
      }
    }
  }

  // Then all ids are distinct, those of the calls and those the results carry.
  lemma WithoutGivenIds(ms: seq<InMessage>)
    requires NothingGiven(ms)
    ensures CleanCalls(ms) && Distinct(CallIds(Convert(ms))) && Distinct(ResultIds(Convert(ms)))
  {
    NothingGivenAnywhere(ms);
    CallIdsDistinctIff(ms);
    CleanResultIdsDistinctIff(ms);
  }

  // The client gives some call this id, before or after.
  predicate GivenToCall(ms: seq<InMessage>, id: string) {
    exists k :: 0 <= k < |CallSources(ms)| && CallSources(ms)[k] == Given(id)
  }

  // A result that comes without an id carries the id of a call forwarded before it
  // when some call is open; else a made one, which a call has, before or after, only
  // if the client gives it that very id.
  lemma ResultIdIsEarlierOrFresh(ms: seq<InMessage>, t: nat)
    requires t < |ms| && ms[t].Tool? && ms[t].callId == ""
    ensures var b := Books(ms[..t]);
            var id := AnswerId(b, ms[t]);
            if exists k: nat :: IsOpen(b, k) then id in CallIds(Convert(ms[..t]))
            else id in CallIds(Convert(ms)) <==> GivenToCall(ms, id)
  {
    var b := Books(ms[..t]);
    IdsAreTraced(ms[..t]);
    TextsAt(b, CallSources(ms[..t]));
    ResultAnswersOldest(b, ms[t]);
    if Pick(b, ms[t].name).Some? {
      var k := Pick(b, ms[t].name).value;
      assert IdTexts(b, CallSources(ms[..t]))[k] == b.issued[k].id;
    } else {
      MadeAt(ms, t);
      var i :| 0 <= i < |ResultSources(ms)| && ResultSources(ms)[i] == Made(b.n);
      FreshUnlessGiven(ms, i);
    }
  }

  lemma FreshUnlessGiven(ms: seq<InMessage>, i: nat)
    requires i < |ResultSources(ms)| && ResultSources(ms)[i].Made?
    ensures var id := GenId(ResultSources(ms)[i].k); id in CallIds(Convert(ms)) <==> GivenToCall(ms, id)
  {
    var id, ids, cs := GenId(ResultSources(ms)[i].k), CallIds(Convert(ms)), CallSources(ms);
    IdsAreTraced(ms);
    TextsAt(Books(ms), cs);
    forall k | 0 <= k < |cs| ensures ids[k] == id <==> cs[k] == Given(id) {
      MadeOrGiven(ms, i, k);
    }
    if id in ids {
      var k :| 0 <= k < |ids| && ids[k] == id;
      assert cs[k] == Given(id);
    }
  }

  // A call's id reads as one made for a result only if it was given.
  lemma MadeOrGiven(ms: seq<InMessage>, i: nat, k: nat)
    requires i < |ResultSources(ms)| && ResultSources(ms)[i].Made? && k < |CallSources(ms)|
    ensures var id := GenId(ResultSources(ms)[i].k);
            IdText(Books(ms), CallSources(ms)[k]) == id <==> CallSources(ms)[k] == Given(id)
  {
    var cs, rs := CallSources(ms), ResultSources(ms);
    IdsAreTraced(ms);
    EachNumberOnce(ms);
    if cs[k].Made? && GenId(cs[k].k) == GenId(rs[i].k) {
      GenIdInjective(cs[k].k, rs[i].k);
    }
  }

  // So on a history with clean call ids a made id is new.
  lemma CleanFreshIsNew(ms: seq<InMessage>, t: nat)
    requires CleanCalls(ms) && t < |ms| && ms[t].Tool? && ms[t].callId == ""
    requires !exists k: nat :: IsOpen(Books(ms[..t]), k)
    ensures AnswerId(Books(ms[..t]), ms[t]) !in CallIds(Convert(ms))
  {
    var b := Books(ms[..t]);
    ResultIdIsEarlierOrFresh(ms, t);
    ResultAnswersOldest(b, ms[t]);
    MadeAt(ms, t);
    var i :| 0 <= i < |ResultSources(ms)| && ResultSources(ms)[i] == Made(b.n);
    assert GivenNotMade(CallSources(ms), ResultSources(ms));
  }

  lemma {:induction false} MadeAt(ms: seq<InMessage>, t: nat)
    requires t < |ms| && ms[t].Tool?
    ensures ResultSource(Books(ms[..t]), ms[t]) in ResultSources(ms)
  {
    var n := |ms| - 1;
    if t < n {
      assert ms[..n][..t] == ms[..t] && ms[..n][t] == ms[t];
      MadeAt(ms[..n], t);
    }
  }

  lemma ConvertMore(ms: seq<InMessage>, m: InMessage)
    ensures Convert(ms + [m]) == Convert(ms) + OutFor(Books(ms), m)
    ensures Books(ms + [m]) == OnMessage(Books(ms), m)
  {
    assert (ms + [m])[..|ms|] == ms;
  }

  lemma TwoIssued(b: Book, x: InCall, y: InCall)
    requires x.id != "" && y.id != ""
    ensures IssueAll(b, [x, y]) == Book(b.issued + [Issued(x.id, x.name), Issued(y.id, y.name)], b.answers, b.n)
  {
    NextCall(b, [x, y], 0);
    NextCall(b, [x, y], 1);
    assert [x, y][..2] == [x, y] && [x, y][..0] == [];
    var c := Issue(b, x);
    assert c.issued + [Issued(y.id, y.name)] == b.issued + [Issued(x.id, x.name), Issued(y.id, y.name)];
  }

  // With two calls open, a result takes the older one off the list.
  lemma OlderIsPicked(b: Book, m: InMessage)
    requires |b.issued| == 2 && b.answers == [] && m.Tool? && m.name == ""
    ensures Pick(b, m.name) == Some(0) && Pick(OnMessage(b, m), "") == Some(1)
  {
    assert IsOpen(b, 0);
    var c := OnMessage(b, m);
    assert c.answers == [Some(0)] && !IsOpen(c, 0) && IsOpen(c, 1);
    assert Oldest(c, "", 1) == Some(1);
  }

  // A result's own id is not looked at when a call is taken off the list: a result
  // for the younger of two calls takes the older one off, and the next result is
  // forwarded with the younger one's id again. The older call is never answered.
  lemma GivenIdIsNotMatched(x: InCall, y: InCall, text: string, first: string, second: string)
    requires x.id != "" && y.id != ""
    ensures var ms := [Assistant([x, y], text)] + [Tool("", y.id, first)] + [Tool("", "", second)];
            Convert(ms) == Convert([Assistant([x, y], text)]) + [ToolOut(y.id, first)] + [ToolOut(y.id, second)]
  {
    var call := [Assistant([x, y], text)];
    var m, k := Tool("", y.id, first), Tool("", "", second);
    assert call == [] + [Assistant([x, y], text)];
    ConvertMore([], Assistant([x, y], text));
    TwoIssued(Book([], [], 0), x, y);
    OlderIsPicked(Books(call), m);
    ConvertMore(call, m);
    ConvertMore(call + [m], k);
  }

  // A client that itself uses an id of the generated form can collide with one.
  lemma SuppliedIdCollides()
    ensures var calls := [InCall("", "ls", "{}"), InCall("call_0", "cat", "{}")];
            CallIds(Convert([Assistant(calls, "")])) == ["call_0", "call_0"]
  {
    var calls := [InCall("", "ls", "{}"), InCall("call_0", "cat", "{}")];
    var b0 := Book([], [], 0);
    var m := Assistant(calls, "");
    assert [m][..0] == [];
    assert calls[..1] == [calls[0]] && calls[..1][..0] == [];
    assert Decimal(0) == "0";
    assert GenId(0) == "call_0";
    assert IssueAll(b0, calls[..1]) == Issue(b0, calls[0]);
    var out := CallsOut(b0, calls);
    assert CallsOut(b0, calls[..1]) == [] + [OutCall("call_0", "ls", "{}")];
    assert out == [OutCall("call_0", "ls", "{}"), OutCall("call_0", "cat", "{}")];
    assert out[..1] == [out[0]] && out[..1][..0] == [];
    assert IdsOf(out[..1]) == [] + ["call_0"];
    assert IdsOf(out) == ["call_0", "call_0"];
    assert Convert([m]) == [] + OutFor(b0, m);
    OneMoreOut([], OutFor(b0, m)[0]);
  }
}
