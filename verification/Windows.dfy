// What truncation keeps and what compression changes, in roles, ids and parts
// (src/compression/compress.js).

module Windows {
  import opened Text
  import opened Fences
  import opened Truncation

  // The messages with role "system", and the others.
  function Systems(ms: seq<Message>): seq<Message> {
    if ms == [] then [] else (if ms[0].Message? && ms[0].role == "system" then [ms[0]] else []) + Systems(ms[1..])
  }

  function Others(ms: seq<Message>): seq<Message> {
    if ms == [] then [] else (if ms[0].Message? && ms[0].role == "system" then [] else [ms[0]]) + Others(ms[1..])
  }

  predicate HoldsResult(parts: seq<Part>) {
    exists i :: 0 <= i < |parts| && parts[i].ToolResultPart?
  }

  // A message with tool results, in one dialect or the other.
  predicate Results(m: Message) {
    && m.Message?
    && (m.role == "tool" || m.role == "function"
        || (m.role == "user" && m.content.Parts? && HoldsResult(m.content.parts)))
  }

  predicate Task(m: Message) { m.Message? && m.role == "user" && !Results(m) }

  lemma ResultsAre(m: Message)
    ensures IsToolResult(m) <==> Results(m)
    ensures IsTask(m) <==> Task(m)
  {
    if m.Message? && m.content.Parts? {
      PartIn(m.content.parts);
    }
  }

  lemma PartIn(parts: seq<Part>)
    ensures HoldsResult(parts) <==> exists p :: p in parts && p.ToolResultPart?
  {
    if HoldsResult(parts) {
      var i :| 0 <= i < |parts| && parts[i].ToolResultPart?;
      assert parts[i] in parts;
    }
  }

  lemma {:induction false} PartedBySystem(ms: seq<Message>)
    ensures Filter(IsSystem, ms) == Systems(ms) && Filter(IsNotSystem, ms) == Others(ms)
  {
    if ms != [] {
      PartedBySystem(ms[1..]);
    }
  }

  ghost predicate FirstIs(ms: seq<Message>, task: nat) {
    && task <= |ms| && (task < |ms| ==> Task(ms[task]))
    && forall i :: 0 <= i < task ==> !Task(ms[i])
  }

  // The cut goes where the window begins, or behind the tool results standing there.
  ghost predicate CutIs(ms: seq<Message>, window: int, cut: nat) {
    if window <= 0 || |ms| <= window then cut == 0
    else
      && |ms| - window <= cut <= |ms| && (cut < |ms| ==> !Results(ms[cut]))
      && forall i :: |ms| - window <= i < cut ==> Results(ms[i])
  }

  // All of the truncated request: the system messages, the first user message that is
  // no tool result where the cut passed it, and what is behind the cut.
  lemma TruncatedIs(input: seq<Message>, window: int) returns (task: nat, cut: nat)
    ensures FirstIs(Others(input), task) && CutIs(Others(input), window, cut) && cut <= |Others(input)|
    ensures Truncated(input, window)
         == Systems(input) + ((if task < cut then [Others(input)[task]] else []) + Others(input)[cut..])
  {
    PartedBySystem(input);
    var ms := Others(input);
    task, cut := FirstTask(ms), Start(ms, window);
    forall i | 0 <= i < |ms| ensures (IsToolResult(ms[i]) <==> Results(ms[i])) && (IsTask(ms[i]) <==> Task(ms[i])) {
      ResultsAre(ms[i]);
    }
  }

  // --- pairing, in ids ----------------------------------------------------------

  predicate Calls(m: Message, id: string) {
    m.Message? && (id in m.calls || (m.content.Parts? && ToolUsePart(id) in m.content.parts))
  }

  predicate Answers(m: Message, id: string) {
    m.Message? && (m.callId == Some(id) || (m.content.Parts? && ToolResultPart(id) in m.content.parts))
  }

  // Only tool results stand between o and i.
  ghost predicate OwnerIs(ms: seq<Message>, i: nat, o: nat)
    requires i < |ms|
  {
    o < i && !Results(ms[o]) && forall k :: o < k < i ==> Results(ms[k])
  }

  ghost predicate Answered(ms: seq<Message>, i: nat, o: nat)
    requires i < |ms|
  {
    OwnerIs(ms, i, o) && forall id :: Answers(ms[i], id) ==> Calls(ms[o], id)
  }

  // Each message with tool results answers calls of the message it stands behind.
  ghost predicate Paired(ms: seq<Message>) {
    forall i :: 0 <= i < |ms| && Results(ms[i]) ==> exists o :: Answered(ms, i, o)
  }

  lemma IdsAre(m: Message, id: string)
    ensures id in CallsOf(m) <==> Calls(m, id)
    ensures id in AnswersOf(m) <==> Answers(m, id)
  {
  }

  lemma SubsetOfIds(m: Message, o: Message)
    ensures AnswersOf(m) <= CallsOf(o) <==> forall id :: Answers(m, id) ==> Calls(o, id)
  {
    forall id ensures (id in CallsOf(o) <==> Calls(o, id)) && (id in AnswersOf(m) <==> Answers(m, id)) {
      IdsAre(m, id);
      IdsAre(o, id);
    }
  }

  lemma OwnersAre(ms: seq<Message>, i: nat, o: nat)
    requires i < |ms|
    ensures Owner(ms, i) == Some(o) <==> OwnerIs(ms, i, o)
  {
    forall k | 0 <= k < |ms| ensures IsToolResult(ms[k]) <==> Results(ms[k]) {
      ResultsAre(ms[k]);
    }
  }

  lemma PairedAtIs(ms: seq<Message>, i: nat)
    requires i < |ms| && Results(ms[i])
    ensures PairedAt(ms, i) <==> exists o :: Answered(ms, i, o)
  {
    ResultsAre(ms[i]);
    if Owner(ms, i).Some? {
      var o := Owner(ms, i).value;
      OwnersAre(ms, i, o);
      SubsetOfIds(ms[i], ms[o]);
      assert PairedAt(ms, i) <==> Answered(ms, i, o);
    }
    if o: nat :| Answered(ms, i, o) {
      OwnersAre(ms, i, o);
      SubsetOfIds(ms[i], ms[o]);
    }
  }

  lemma PairedIs(ms: seq<Message>)
    ensures WellPaired(ms) <==> Paired(ms)
  {
    forall i | 0 <= i < |ms| ensures PairedAt(ms, i) <==> (Results(ms[i]) ==> exists o :: Answered(ms, i, o)) {
      ResultsAre(ms[i]);
      if Results(ms[i]) {
        PairedAtIs(ms, i);
      }
    }
  }

  // Whatever the window, a request whose results all answer calls of the message they
  // stand behind is left so.
  lemma PairingStays(input: seq<Message>, window: int)
    requires Paired(Others(input))
    ensures Paired(Truncated(input, window)) && Paired(CompressAll(Truncated(input, window)))
  {
    PartedBySystem(input);
    PairedIs(Others(input));
    TruncatedStaysPaired(input, window);
    CompressionKeepsPairing(Truncated(input, window));
    PairedIs(Truncated(input, window));
    PairedIs(CompressAll(Truncated(input, window)));
  }

  // --- what compression changes ----------------------------------------------------

  // n is m with its texts, and nothing else, compressed.
  predicate TextsCompressed(m: Message, n: Message) {
    if m.NotObject? then n == m
    else
      && n.Message? && n.role == m.role && n.calls == m.calls && n.callId == m.callId
      && match m.content
         case Str(text) => n.content == Str(CompressText(text))
         case NoContent => n.content == NoContent
         case Parts(parts) =>
           && n.content.Parts? && |n.content.parts| == |parts|
           && forall i :: 0 <= i < |parts| ==>
                n.content.parts[i] == if parts[i].TextPart? then TextPart(CompressText(parts[i].text)) else parts[i]
  }

  lemma OnlyTextsChange(input: seq<Message>, window: int)
    ensures var kept, out := Truncated(input, window), CompressAll(Truncated(input, window));
            |out| == |kept| && forall i :: 0 <= i < |kept| ==> TextsCompressed(kept[i], out[i])
  {
  }
}
