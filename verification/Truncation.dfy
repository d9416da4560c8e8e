// History truncation and the two passes of compressMessagesWithStats, with the
// structural and lossy layers off (compressMessages' defaults).

module Truncation {
  import opened Text
  import opened Fences

  datatype Part =
    | TextPart(text: string)
    | ToolUsePart(id: string)
    | ToolResultPart(useId: string)
    | OtherPart

  datatype Content = Str(text: string) | Parts(parts: seq<Part>) | NoContent

  // NotObject: null or a primitive, carried through untouched. `calls` are the
  // ids in tool_calls, `callId` is tool_call_id.
  datatype Message =
    | NotObject
    | Message(role: string, content: Content, calls: set<string>, callId: Option<string>)

  predicate IsSystem(m: Message) { m.Message? && m.role == "system" }

  predicate IsNotSystem(m: Message) { !IsSystem(m) }

  predicate IsToolResult(m: Message) {
    && m.Message?
    && (m.role == "tool" || m.role == "function"
        || (m.role == "user" && m.content.Parts? && exists p :: p in m.content.parts && p.ToolResultPart?))
  }

  predicate IsTask(m: Message) {
    m.Message? && m.role == "user" && !IsToolResult(m)
  }

  // The cut moves past tool results, so that it never starts on one.
  function CutFrom(ms: seq<Message>, start: nat): (r: nat)
    requires start <= |ms|
    ensures start <= r <= |ms| && (r < |ms| ==> !IsToolResult(ms[r]))
    ensures forall i :: start <= i < r ==> IsToolResult(ms[i])
    decreases |ms| - start
  {
    if start < |ms| && IsToolResult(ms[start]) then CutFrom(ms, start + 1) else start
  }

  // nonSystem.find(...): |ms| when there is none.
  function FirstTask(ms: seq<Message>): (t: nat)
    ensures t <= |ms| && (t < |ms| ==> IsTask(ms[t]))
    ensures forall i :: 0 <= i < t ==> !IsTask(ms[i])
  {
    if ms == [] || IsTask(ms[0]) then 0 else 1 + FirstTask(ms[1..])
  }

  function Start(ms: seq<Message>, window: int): (s: nat)
    ensures s <= |ms|
  {
    if 0 < window < |ms| then CutFrom(ms, |ms| - window) else 0
  }

  // The first task, when the cut passed it. The entries are distinct objects, so
  // it is "included" already when the cut did not.
  function Front(ms: seq<Message>, window: int): seq<Message> {
    if FirstTask(ms) < Start(ms, window) then [ms[FirstTask(ms)]] else []
  }

  function Kept(ms: seq<Message>, window: int): seq<Message> {
    Front(ms, window) + ms[Start(ms, window)..]
  }

  function Truncated(input: seq<Message>, window: int): seq<Message> {
    Filter(IsSystem, input) + Kept(Filter(IsNotSystem, input), window)
  }

  method Truncate(input: seq<Message>, window: int) returns (truncated: seq<Message>, dropped: int)
    ensures truncated == Truncated(input, window)
    ensures dropped == |input| - |truncated|
  {
    var systemMsgs := Filter(IsSystem, input);
    var nonSystem := Filter(IsNotSystem, input);
    var kept := nonSystem;
    if window > 0 && |nonSystem| > window {
      var start := |nonSystem| - window;
      while start < |nonSystem| && IsToolResult(nonSystem[start])
        invariant |nonSystem| - window <= start <= |nonSystem|
        invariant CutFrom(nonSystem, start) == Start(nonSystem, window)
      {
        start := start + 1;
      }
      assert start == Start(nonSystem, window);
      kept := nonSystem[start..];
      var task := FirstTask(nonSystem);
      if task < start {
        kept := [nonSystem[task]] + kept;
      }
    }
    assert kept == Kept(nonSystem, window);
    dropped := |nonSystem| - |kept|;
    truncated := systemMsgs + kept;
    SplitBySystem(input);
  }

  lemma {:induction false} SplitBySystem(input: seq<Message>)
    ensures |Filter(IsSystem, input)| + |Filter(IsNotSystem, input)| == |input|
  {
    if input != [] {
      SplitBySystem(input[1..]);
    }
  }

  // --- tool pairing ---------------------------------------------------------

  // Calls a message makes and calls it answers, in either dialect.
  function CallsOf(m: Message): set<string> {
    if !m.Message? then {}
    else m.calls + (if m.content.Parts? then set p | p in m.content.parts && p.ToolUsePart? :: p.id else {})
  }

  function AnswersOf(m: Message): set<string> {
    if !m.Message? then {}
    else
      (if m.callId.Some? then {m.callId.value} else {})
      + (if m.content.Parts? then set p | p in m.content.parts && p.ToolResultPart? :: p.useId else {})
  }

  // The message a run of tool results stands behind; None when the run starts the list.
  function Owner(ms: seq<Message>, i: nat): (o: Option<nat>)
    requires i < |ms|
    ensures o.Some? ==> o.value < i && !IsToolResult(ms[o.value])
    ensures o.Some? ==> forall k :: o.value < k < i ==> IsToolResult(ms[k])
    ensures o.None? ==> forall k :: 0 <= k < i ==> IsToolResult(ms[k])
  {
    if i == 0 then None
    else if IsToolResult(ms[i - 1]) then Owner(ms, i - 1)
    else Some(i - 1)
  }

  // A tool result directly behind the message that made its calls (other results
  // of that message may stand between), as providers require.
  predicate PairedAt(ms: seq<Message>, i: nat)
    requires i < |ms|
  {
    IsToolResult(ms[i]) ==>
      Owner(ms, i).Some? && AnswersOf(ms[i]) <= CallsOf(ms[Owner(ms, i).value])
  }

  predicate WellPaired(ms: seq<Message>) {
    forall i :: 0 <= i < |ms| ==> PairedAt(ms, i)
  }

  // The owner does not change under anything put in front, unless the run
  // reaches the front.
  lemma {:induction false} OwnerShifts(front: seq<Message>, ms: seq<Message>, i: nat)
    requires i < |ms| && Owner(ms, i).Some?
    ensures Owner(front + ms, |front| + i) == Some(|front| + Owner(ms, i).value)
  {
    assert (front + ms)[|front| + i - 1] == ms[i - 1];
    if IsToolResult(ms[i - 1]) {
      OwnerShifts(front, ms, i - 1);
    }
  }

  lemma {:induction false} OwnerExists(ms: seq<Message>, i: nat)
    requires 0 < i < |ms| && !IsToolResult(ms[0])
    ensures Owner(ms, i).Some?
  {
    if IsToolResult(ms[i - 1]) {
      OwnerExists(ms, i - 1);
    }
  }

  lemma PairedShifts(front: seq<Message>, ms: seq<Message>, i: nat)
    requires i < |ms| && (i == 0 || Owner(ms, i).Some?)
    requires i == 0 ==> !IsToolResult(ms[0])
    ensures PairedAt(front + ms, |front| + i) <==> PairedAt(ms, i)
  {
    assert (front + ms)[|front| + i] == ms[i];
    if i > 0 {
      OwnerShifts(front, ms, i);
      assert (front + ms)[|front| + Owner(ms, i).value] == ms[Owner(ms, i).value];
    }
  }

  // A stretch that does not start on a tool result is paired the same behind
  // any two fronts.
  lemma PairedBehind(front: seq<Message>, other: seq<Message>, ms: seq<Message>, i: nat)
    requires i < |ms| && !IsToolResult(ms[0])
    ensures PairedAt(front + ms, |front| + i) <==> PairedAt(other + ms, |other| + i)
  {
    if i > 0 {
      OwnerExists(ms, i);
    }
    PairedShifts(front, ms, i);
    PairedShifts(other, ms, i);
  }

  // Moved behind another front, a suffix that starts on no tool result keeps its pairing.
  lemma SuffixPaired(head: seq<Message>, ms: seq<Message>, start: nat, i: nat)
    requires start <= i < |ms|
    requires if start == 0 then head == [] else !IsToolResult(ms[start])
    ensures var k := |head| + i - start;
            (head + ms[start..])[k] == ms[i] && (PairedAt(head + ms[start..], k) <==> PairedAt(ms, i))
  {
    var tail := ms[start..];
    assert ms == ms[..start] + tail;
    assert (head + tail)[|head| + i - start] == tail[i - start];
    if start == 0 {
      NothingInFront(tail);
    } else {
      PairedBehind(head, ms[..start], tail, i - start);
    }
  }

  lemma PairedAfterCut(ms: seq<Message>, window: int, i: nat)
    requires Start(ms, window) <= i < |ms|
    ensures var k := |Front(ms, window)| + i - Start(ms, window);
            k < |Kept(ms, window)| && Kept(ms, window)[k] == ms[i]
            && (PairedAt(Kept(ms, window), k) <==> PairedAt(ms, i))
  {
    SuffixPaired(Front(ms, window), ms, Start(ms, window), i);
  }

  // Exactly the results that were paired before the cut are paired after it:
  // on every history and every window, truncation orphans nothing.
  lemma TruncationKeepsPairing(ms: seq<Message>, window: int)
    ensures WellPaired(Kept(ms, window)) <==> forall i :: Start(ms, window) <= i < |ms| ==> PairedAt(ms, i)
  {
    var kept, start, front := Kept(ms, window), Start(ms, window), |Front(ms, window)|;
    forall i | start <= i < |ms| ensures PairedAt(kept, front + i - start) == PairedAt(ms, i) {
      PairedAfterCut(ms, window, i);
    }
    if forall i :: start <= i < |ms| ==> PairedAt(ms, i) {
      forall k | 0 <= k < |kept| ensures PairedAt(kept, k) {
        if k < front {
          assert kept[k] == ms[FirstTask(ms)];
        } else {
          assert PairedAt(ms, k - front + start);
        }
      }
    } else {
      var i :| start <= i < |ms| && !PairedAt(ms, i);
      assert !PairedAt(kept, front + i - start);
    }
  }

  lemma SystemsUnpaired(front: seq<Message>, ms: seq<Message>)
    requires forall m :: m in front ==> !IsToolResult(m)
    requires WellPaired(ms)
    ensures WellPaired(front + ms)
  {
    var all := front + ms;
    forall i | 0 <= i < |all| ensures PairedAt(all, i) {
      if i < |front| {
        assert all[i] in front;
      } else {
        assert PairedAt(ms, i - |front|) && all[i] == ms[i - |front|];
        if IsToolResult(all[i]) {
          PairedShifts(front, ms, i - |front|);
        }
      }
    }
  }

  // Truncating a request keeps its pairing.
  lemma TruncatedStaysPaired(input: seq<Message>, window: int)
    requires WellPaired(Filter(IsNotSystem, input))
    ensures WellPaired(Truncated(input, window))
  {
    var ns := Filter(IsNotSystem, input);
    TruncationKeepsPairing(ns, window);
    SystemsUnpaired(Filter(IsSystem, input), Kept(ns, window));
  }

  // What else survives: every system message, in order; the first user task; at
  // most window + 1 messages that are not system messages.
  lemma TruncationKeeps(input: seq<Message>, window: int)
    ensures var ns := Filter(IsNotSystem, input);
            var out := Truncated(input, window);
            && Filter(IsSystem, out) == Filter(IsSystem, input)
            && Filter(IsNotSystem, out) == Kept(ns, window)
            && (FirstTask(ns) < |ns| ==> ns[FirstTask(ns)] in Kept(ns, window))
            && (window > 0 ==> |Kept(ns, window)| <= window + 1)
            && (window <= 0 || |ns| <= window ==> Kept(ns, window) == ns)
  {
    var ns, ss := Filter(IsNotSystem, input), Filter(IsSystem, input);
    var kept := Kept(ns, window);
    KeptAreMembers(ns, window);
    FilterParts(ss, kept);
    if FirstTask(ns) < |ns| && Start(ns, window) <= FirstTask(ns) {
      PairedAfterCut(ns, window, FirstTask(ns));
    }
  }

  // The cut: the window's first message that is no tool result, or the end when
  // the whole window is tool results.
  ghost predicate CutAt(ms: seq<Message>, window: int, t: nat) {
    if 0 < window < |ms| then
      && |ms| - window <= t <= |ms| && (t < |ms| ==> !IsToolResult(ms[t]))
      && forall i :: |ms| - window <= i < t ==> IsToolResult(ms[i])
    else t == 0
  }

  // There is one such cut. Everything behind it is kept, and before it the first
  // task only.
  lemma WindowCut(ms: seq<Message>, window: int, t: nat)
    ensures CutAt(ms, window, t) <==> t == Start(ms, window)
    ensures CutAt(ms, window, t) ==>
              t <= |ms| && Kept(ms, window) == (if FirstTask(ms) < t then [ms[FirstTask(ms)]] else []) + ms[t..]
  {
    assert CutAt(ms, window, Start(ms, window));
    NoLaterCut(ms, window, t, Start(ms, window));
    NoLaterCut(ms, window, Start(ms, window), t);
  }

  lemma NoLaterCut(ms: seq<Message>, window: int, t: nat, u: nat)
    ensures CutAt(ms, window, t) && CutAt(ms, window, u) ==> u <= t
  {
  }

  lemma KeptAreMembers(ms: seq<Message>, window: int)
    ensures forall m :: m in Kept(ms, window) ==> m in ms
  {
  }

  lemma FilterParts(ss: seq<Message>, ns: seq<Message>)
    requires (forall m :: m in ss ==> IsSystem(m)) && forall m :: m in ns ==> IsNotSystem(m)
    ensures Filter(IsSystem, ss + ns) == ss && Filter(IsNotSystem, ss + ns) == ns
  {
    FilterAppend(IsSystem, ss, ns);
    FilterAppend(IsNotSystem, ss, ns);
    FilterAll(IsSystem, ss);
    FilterAll(IsNotSystem, ns);
    FilterNone(IsSystem, ns);
    FilterNone(IsNotSystem, ss);
  }

  lemma {:induction false} FilterAll(p: Message -> bool, xs: seq<Message>)
    requires forall x :: x in xs ==> p(x)
    ensures Filter(p, xs) == xs
  {
    if xs != [] {
      FilterAll(p, xs[1..]);
      assert xs == [xs[0]] + xs[1..];
    }
  }

  lemma {:induction false} FilterNone(p: Message -> bool, xs: seq<Message>)
    requires forall x :: x in xs ==> !p(x)
    ensures Filter(p, xs) == []
  {
    if xs != [] {
      FilterNone(p, xs[1..]);
    }
  }

  // The cut looks at messages, not at ids: a result that does not directly
  // follow its call can lose it, though the call was in the history.
  lemma DistantResultOrphaned()
    ensures var call := Message("assistant", NoContent, {"c1"}, None);
            var aside := Message("user", Str("wait"), {}, None);
            var result := Message("tool", Str("ok"), {}, Some("c1"));
            var ms := [call, aside, result];
            && Kept(ms, 2) == [aside, result]
            && AnswersOf(result) <= CallsOf(call)
            && !WellPaired(Kept(ms, 2)) && !WellPaired(ms)
  {
    var call := Message("assistant", NoContent, {"c1"}, None);
    var aside := Message("user", Str("wait"), {}, None);
    var result := Message("tool", Str("ok"), {}, Some("c1"));
    var ms := [call, aside, result];
    assert CutFrom(ms, 1) == 1;
    assert FirstTask(ms) == 1 by {
      assert ms[1..] == [aside, result];
    }
    assert Kept(ms, 2) == [aside, result];
    assert "c1" in AnswersOf(result) && "c1" !in CallsOf(aside);
    assert Owner(ms, 2) == Some(1) && Owner([aside, result], 1) == Some(0);
    assert !PairedAt(ms, 2) && !PairedAt([aside, result], 1);
  }

  // --- the two passes -------------------------------------------------------

  function CompressPart(p: Part): Part {
    if p.TextPart? then TextPart(CompressText(p.text)) else p
  }

  function CompressContent(c: Content): Content {
    match c
    case Str(text) => Str(CompressText(text))
    case Parts(parts) => Parts(seq(|parts|, i requires 0 <= i < |parts| => CompressPart(parts[i])))
    case NoContent => NoContent
  }

  function CompressMessage(m: Message): Message {
    if m.Message? then m.(content := CompressContent(m.content)) else m
  }

  function CompressAll(ms: seq<Message>): (r: seq<Message>)
    ensures |r| == |ms| && forall i :: 0 <= i < |ms| ==> r[i] == CompressMessage(ms[i])
  {
    seq(|ms|, i requires 0 <= i < |ms| => CompressMessage(ms[i]))
  }

  // compressMessages: truncate, then the structural pass, then the prose pass.
  // With both layers off each of the two is the base pass.
  method CompressMessages(input: seq<Message>, window: int) returns (out: seq<Message>)
    ensures out == CompressAll(Truncated(input, window))
    ensures WellPaired(Filter(IsNotSystem, input)) ==> WellPaired(out)
  {
    var truncated, dropped := Truncate(input, window);
    var afterRtk := CompressAll(truncated);
    out := CompressAll(afterRtk);
    forall i | 0 <= i < |truncated| ensures out[i] == afterRtk[i] {
      CompressMessageTwice(truncated[i]);
    }
    assert out == afterRtk;
    if WellPaired(Filter(IsNotSystem, input)) {
      TruncatedStaysPaired(input, window);
    }
    CompressionKeepsPairing(truncated);
  }

  lemma CompressMessageTwice(m: Message)
    ensures CompressMessage(CompressMessage(m)) == CompressMessage(m)
  {
    if m.Message? {
      match m.content {
        case Str(text) => CompressTwice(text);
        case Parts(parts) =>
          forall i | 0 <= i < |parts| ensures CompressPart(CompressPart(parts[i])) == CompressPart(parts[i]) {
            if parts[i].TextPart? {
              CompressTwice(parts[i].text);
            }
          }
          assert CompressContent(CompressContent(m.content)) == CompressContent(m.content);
        case NoContent =>
      }
    }
  }

  lemma SameRoles(m: Message)
    ensures IsToolResult(CompressMessage(m)) == IsToolResult(m)
    ensures CallsOf(CompressMessage(m)) == CallsOf(m) && AnswersOf(CompressMessage(m)) == AnswersOf(m)
  {
    if m.Message? && m.content.Parts? {
      var ps, qs := m.content.parts, CompressMessage(m).content.parts;
      assert |qs| == |ps|;
      assert forall i :: 0 <= i < |ps| ==> qs[i] == CompressPart(ps[i]);
      assert forall p :: p in ps && !p.TextPart? ==> p in qs by {
        forall p | p in ps && !p.TextPart? ensures p in qs {
          var i :| 0 <= i < |ps| && ps[i] == p;
          assert qs[i] == p;
        }
      }
      assert forall q :: q in qs && !q.TextPart? ==> q in ps;
    }
  }

  lemma {:induction false} OwnerOfCompressed(ms: seq<Message>, i: nat)
    requires i < |ms|
    ensures Owner(CompressAll(ms), i) == Owner(ms, i)
  {
    if i > 0 {
      SameRoles(ms[i - 1]);
      OwnerOfCompressed(ms, i - 1);
    }
  }

  lemma CompressionKeepsPairing(ms: seq<Message>)
    ensures WellPaired(CompressAll(ms)) <==> WellPaired(ms)
  {
    forall i | 0 <= i < |ms| ensures PairedAt(CompressAll(ms), i) == PairedAt(ms, i) {
      OwnerOfCompressed(ms, i);
      SameRoles(ms[i]);
      if Owner(ms, i).Some? {
        SameRoles(ms[Owner(ms, i).value]);
      }
    }
  }
}
