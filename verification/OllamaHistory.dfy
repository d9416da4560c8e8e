// Nothing that an Ollama history says is lost, changed or moved when it is converted
// (fromOllamaMessages in src/inbound/ollamaInbound.js); what its ids pair is said in
// OllamaMessages, and here which of them are made.

module OllamaHistory {
  import opened Text
  import opened OllamaMessages

  datatype Entry = Spoken(role: string, text: string) | Called(name: string, args: string) | Answered(text: string)

  // --- what the client sent ---------------------------------------------------------

  function CallsSent(calls: seq<InCall>): seq<Entry> {
    if calls == [] then [] else [Called(calls[0].name, calls[0].args)] + CallsSent(calls[1..])
  }

  // Text that comes with calls may be empty; the content of any other message is
  // forwarded whatever it is.
  function Sent(m: InMessage): seq<Entry> {
    match m
    case Assistant(calls, content) =>
      if calls == [] then [Spoken("assistant", content)]
      else (if content == "" then [] else [Spoken("assistant", content)]) + CallsSent(calls)
    case Tool(_, _, content) => [Answered(content)]
    case Other(role, content) => [Spoken(role, content)]
    case NotObject => []
  }

  function AllSent(ms: seq<InMessage>): seq<Entry> {
    if ms == [] then [] else Sent(ms[0]) + AllSent(ms[1..])
  }

  // --- what goes on -------------------------------------------------------------------

  function CallEntries(calls: seq<OutCall>): seq<Entry> {
    if calls == [] then [] else [Called(calls[0].name, calls[0].args)] + CallEntries(calls[1..])
  }

  function Entries(m: OutMessage): seq<Entry> {
    match m
    case AssistantOut(text, calls) =>
      (if text.Some? then [Spoken("assistant", text.value)] else []) + CallEntries(calls)
    case ToolOut(_, content) => [Answered(content)]
    case OtherOut(role, content) => [Spoken(role, content)]
  }

  function AllEntries(ms: seq<OutMessage>): seq<Entry> {
    if ms == [] then [] else Entries(ms[0]) + AllEntries(ms[1..])
  }

  // --- the same -------------------------------------------------------------------------

  lemma {:induction false} EntriesAppend(a: seq<OutMessage>, b: seq<OutMessage>)
    ensures AllEntries(a + b) == AllEntries(a) + AllEntries(b)
  {
    if a == [] {
      NothingInFront(b);
      NothingInFront(AllEntries(b));
    } else {
      HeadTail(a, b);
      EntriesAppend(a[1..], b);
      Assoc(Entries(a[0]), AllEntries(a[1..]), AllEntries(b));
    }
  }

  lemma {:induction false} SentAppend(a: seq<InMessage>, b: seq<InMessage>)
    ensures AllSent(a + b) == AllSent(a) + AllSent(b)
  {
    if a == [] {
      NothingInFront(b);
      NothingInFront(AllSent(b));
    } else {
      HeadTail(a, b);
      SentAppend(a[1..], b);
      Assoc(Sent(a[0]), AllSent(a[1..]), AllSent(b));
    }
  }

  lemma {:induction false} CallEntriesMore(calls: seq<OutCall>, c: OutCall)
    ensures CallEntries(calls + [c]) == CallEntries(calls) + [Called(c.name, c.args)]
  {
    if calls == [] {
      NothingInFront([c]);
      assert [c][1..] == [];
    } else {
      HeadTail(calls, [c]);
      CallEntriesMore(calls[1..], c);
      Assoc([Called(calls[0].name, calls[0].args)], CallEntries(calls[1..]), [Called(c.name, c.args)]);
    }
  }

  lemma {:induction false} CallsSentMore(calls: seq<InCall>, c: InCall)
    ensures CallsSent(calls + [c]) == CallsSent(calls) + [Called(c.name, c.args)]
  {
    if calls == [] {
      NothingInFront([c]);
      assert [c][1..] == [];
    } else {
      HeadTail(calls, [c]);
      CallsSentMore(calls[1..], c);
      Assoc([Called(calls[0].name, calls[0].args)], CallsSent(calls[1..]), [Called(c.name, c.args)]);
    }
  }

  lemma {:induction false} CallsKept(b: Book, calls: seq<InCall>)
    ensures CallEntries(CallsOut(b, calls)) == CallsSent(calls)
  {
    if calls != [] {
      var init, c := calls[..|calls| - 1], calls[|calls| - 1];
      CallsKept(b, init);
      CallEntriesMore(CallsOut(b, init), OutCall(IdFor(IssueAll(b, init), c), c.name, c.args));
      FrontAndLast(calls);
      CallsSentMore(init, c);
    }
  }

  lemma MessageKept(b: Book, m: InMessage)
    ensures AllEntries(OutFor(b, m)) == Sent(m)
  {
    if m.Assistant? {
      CallsKept(b, m.calls);
    }
    if !m.NotObject? {
      OneEntry(OutFor(b, m)[0]);
      assert OutFor(b, m) == [OutFor(b, m)[0]];
    }
  }

  lemma OneEntry(m: OutMessage)
    ensures AllEntries([m]) == Entries(m)
  {
    assert [m][1..] == [];
    NothingBehind(Entries(m));
  }

  lemma OneSent(m: InMessage)
    ensures AllSent([m]) == Sent(m)
  {
    assert [m][1..] == [];
    NothingBehind(Sent(m));
  }

  // On every history: the converted messages say, call and answer exactly what the
  // history did, in its order, in the same roles and with the same arguments.
  lemma {:induction false} HistoryConserved(ms: seq<InMessage>)
    ensures AllEntries(Convert(ms)) == AllSent(ms)
  {
    if ms != [] {
      var init, m := ms[..|ms| - 1], ms[|ms| - 1];
      HistoryConserved(init);
      MessageKept(Books(init), m);
      EntriesAppend(Convert(init), OutFor(Books(init), m));
      FrontAndLast(ms);
      SentAppend(init, [m]);
      OneSent(m);
    }
  }

  // --- which ids are made -------------------------------------------------------------

  // The calls that come without an id.
  function Nameless(calls: seq<InCall>): nat {
    if calls == [] then 0
    else Nameless(calls[..|calls| - 1]) + (if calls[|calls| - 1].id == "" then 1 else 0)
  }

  ghost predicate NothingOpen(b: Book) {
    forall k: nat :: !IsOpen(b, k)
  }

  // The ids made so far: one for each call without one, and one for each result
  // without one that finds no call open.
  ghost function MadeBefore(ms: seq<InMessage>): nat {
    if ms == [] then 0
    else
      var init, m := ms[..|ms| - 1], ms[|ms| - 1];
      MadeBefore(init)
      + match m
        case Assistant(calls, _) => Nameless(calls)
        case Tool(_, callId, _) => if callId == "" && NothingOpen(Books(init)) then 1 else 0
        case Other(_, _) => 0
        case NotObject => 0
  }

  lemma {:induction false} NamelessCounts(b: Book, calls: seq<InCall>)
    ensures IssueAll(b, calls).n == b.n + Nameless(calls)
  {
    if calls != [] {
      NamelessCounts(b, calls[..|calls| - 1]);
    }
  }

  lemma {:induction false} MadeCounts(ms: seq<InMessage>)
    ensures Books(ms).n == MadeBefore(ms)
  {
    if ms != [] {
      var init, m := ms[..|ms| - 1], ms[|ms| - 1];
      MadeCounts(init);
      if m.Assistant? {
        NamelessCounts(Books(init), m.calls);
      } else if m.Tool? {
        ResultAnswersOldest(Books(init), m);
      }
    }
  }

  lemma {:induction false} CallIdAt(b: Book, calls: seq<InCall>, i: nat)
    requires i < |calls|
    ensures |CallsOut(b, calls)| == |calls|
    ensures CallsOut(b, calls)[i].id
         == if calls[i].id != "" then calls[i].id else "call_" + Decimal(b.n + Nameless(calls[..i]))
  {
    hide IssueAll, Decimal;
    var n := |calls| - 1;
    CallsOutLength(b, calls);
    CallsOutLength(b, calls[..n]);
    if i < n {
      CallIdAt(b, calls[..n], i);
      assert calls[..n][..i] == calls[..i];
    } else {
      NamelessCounts(b, calls[..n]);
    }
  }

  // On every history: a call keeps the id it has; the ids made, for calls without one
  // and for results that find no call open, are call_0, call_1 and so on, none left out.
  lemma CallIdMade(init: seq<InMessage>, calls: seq<InCall>, i: nat)
    requires i < |calls|
    ensures |CallsOut(Books(init), calls)| == |calls|
    ensures CallsOut(Books(init), calls)[i].id
         == if calls[i].id != "" then calls[i].id else "call_" + Decimal(MadeBefore(init) + Nameless(calls[..i]))
  {
    hide CallsOut, MadeBefore, Books, Nameless;
    MadeCounts(init);
    CallIdAt(Books(init), calls, i);
  }

  lemma ResultIdMade(init: seq<InMessage>, m: InMessage)
    requires m.Tool? && m.callId == "" && NothingOpen(Books(init))
    ensures AnswerId(Books(init), m) == "call_" + Decimal(MadeBefore(init))
  {
    hide MadeBefore, Books;
    MadeCounts(init);
    ResultAnswersOldest(Books(init), m);
  }
}
