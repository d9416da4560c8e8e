// trailingToolResults (src/audit/index.js), over a whole conversation.

module Conversation {
  import opened Text

  datatype Message = Message(role: string, text: string)

  predicate IsTool(m: Message) { m.role == "tool" }
  predicate IsAssistant(m: Message) { m.role == "assistant" }

  // The tool messages after the last assistant turn.
  function Trailing(ms: seq<Message>): seq<Message> {
    if ms == [] then []
    else
      var m := ms[|ms| - 1];
      if IsTool(m) then Trailing(ms[..|ms| - 1]) + [m]
      else if IsAssistant(m) then []
      else Trailing(ms[..|ms| - 1])
  }

  method TrailingToolResults(ms: seq<Message>) returns (out: seq<Message>)
    ensures out == Trailing(ms)
  {
    out := [];
    var i := |ms|;
    assert ms[..i] == ms;
    while i > 0
      invariant 0 <= i <= |ms|
      invariant Trailing(ms) == Trailing(ms[..i]) + out
    {
      var m := ms[i - 1];
      assert ms[..i][..i - 1] == ms[..i - 1];
      if IsTool(m) {
        out := [m] + out;
      } else if IsAssistant(m) {
        return;
      }
      i := i - 1;
    }
  }

  predicate HasAssistant(ms: seq<Message>) {
    exists i :: 0 <= i < |ms| && IsAssistant(ms[i])
  }

  // A tool result with an assistant turn after it.
  predicate Buried(ms: seq<Message>) {
    exists i, j :: 0 <= i < j < |ms| && IsTool(ms[i]) && IsAssistant(ms[j])
  }

  lemma {:induction false} TrailingOfAdded(ms: seq<Message>, added: seq<Message>)
    ensures Trailing(ms + added) == if HasAssistant(added) then Trailing(added) else Trailing(ms) + Trailing(added)
  {
    if added == [] {
      assert ms + added == ms;
    } else {
      var n := |added| - 1;
      assert (ms + added)[..|ms + added| - 1] == ms + added[..n];
      TrailingOfAdded(ms, added[..n]);
      assert HasAssistant(added) <==> HasAssistant(added[..n]) || IsAssistant(added[n]) by {
        if HasAssistant(added[..n]) {
          var i :| 0 <= i < n && IsAssistant(added[..n][i]);
          assert IsAssistant(added[i]);
        }
        if i :| 0 <= i < |added| && IsAssistant(added[i]) {
          assert i < n ==> IsAssistant(added[..n][i]);
        }
      }
    }
  }

  lemma BuriedStep(ms: seq<Message>)
    requires ms != []
    ensures var n := |ms| - 1;
            Buried(ms) <==> Buried(ms[..n]) || (IsAssistant(ms[n]) && Filter(IsTool, ms[..n]) != [])
  {
    var n := |ms| - 1;
    HasTools(ms[..n]);
    if Buried(ms[..n]) {
      var i, j :| 0 <= i < j < n && IsTool(ms[..n][i]) && IsAssistant(ms[..n][j]);
      assert IsTool(ms[i]) && IsAssistant(ms[j]);
    }
    if i :| 0 <= i < n && IsTool(ms[..n][i]) {
      assert IsTool(ms[i]);
    }
    if i, j :| 0 <= i < j < |ms| && IsTool(ms[i]) && IsAssistant(ms[j]) {
      assert IsTool(ms[..n][i]);
      assert j < n ==> IsAssistant(ms[..n][j]);
    }
  }

  lemma {:induction false} HasTools(ms: seq<Message>)
    ensures Filter(IsTool, ms) != [] <==> exists i :: 0 <= i < |ms| && IsTool(ms[i])
  {
    if ms != [] {
      HasTools(ms[1..]);
      if i :| 0 <= i < |ms| && IsTool(ms[i]) {
        assert i > 0 ==> IsTool(ms[1..][i - 1]);
      }
      if Filter(IsTool, ms[1..]) != [] {
        var i :| 0 <= i < |ms[1..]| && IsTool(ms[1..][i]);
        assert IsTool(ms[i + 1]);
      }
    }
  }

  // Trailing results are all results exactly when none is buried.
  lemma {:induction false} TrailingIsAllIff(ms: seq<Message>)
    ensures Trailing(ms) == Filter(IsTool, ms) <==> !Buried(ms)
    ensures |Trailing(ms)| <= |Filter(IsTool, ms)|
  {
    if ms != [] {
      var n := |ms| - 1;
      TrailingIsAllIff(ms[..n]);
      BuriedStep(ms);
      assert ms == ms[..n] + [ms[n]];
      FilterAppend(IsTool, ms[..n], [ms[n]]);
      FilterOne(IsTool, ms[n]);
      if IsTool(ms[n]) {
        assert Trailing(ms) == Trailing(ms[..n]) + [ms[n]];
        assert Trailing(ms)[..|Trailing(ms)| - 1] == Trailing(ms[..n]);
        assert Filter(IsTool, ms)[..|Filter(IsTool, ms)| - 1] == Filter(IsTool, ms[..n]);
      }
    }
  }

  // One more request: it records exactly the results it added if and only if
  // none of those is buried under a later assistant turn, and, when it added no
  // assistant turn at all, the earlier request had left none trailing.
  lemma RecordsAddedIff(ms: seq<Message>, added: seq<Message>)
    ensures Trailing(ms + added) == Filter(IsTool, added)
            <==> !Buried(added) && (HasAssistant(added) || Trailing(ms) == [])
  {
    TrailingOfAdded(ms, added);
    TrailingIsAllIff(added);
    if !HasAssistant(added) {
      assert !Buried(added);
      if Trailing(ms) != [] {
        assert |Trailing(ms) + Trailing(added)| > |Trailing(added)|;
      } else {
        assert [] + Trailing(added) == Trailing(added);
      }
    }
  }

  // The messages with role "tool".
  function ToolMessages(ms: seq<Message>): seq<Message> {
    if ms == [] then [] else (if ms[0].role == "tool" then [ms[0]] else []) + ToolMessages(ms[1..])
  }

  predicate NoneFrom(role: string, ms: seq<Message>) {
    forall i :: 0 <= i < |ms| ==> ms[i].role != role
  }

  lemma {:induction false} ToolsAreThose(ms: seq<Message>)
    ensures Filter(IsTool, ms) == ToolMessages(ms)
  {
    if ms != [] {
      ToolsAreThose(ms[1..]);
    }
  }

  // The trailing results are the tool messages behind the last assistant turn, or all
  // of them where there is no such turn.
  lemma TrailingIs(before: seq<Message>, turn: Message, after: seq<Message>)
    requires NoneFrom("assistant", after)
    ensures turn.role == "assistant" ==> Trailing(before + [turn] + after) == ToolMessages(after)
    ensures Trailing(after) == ToolMessages(after)
  {
    ToolsAreThose(after);
    TrailingIsAllIff(after);
    if turn.role == "assistant" {
      var ms := before + [turn];
      assert ms[..|ms| - 1] == before && ms[|ms| - 1] == turn;
      TrailingOfAdded(ms, after);
      NothingInFront(Trailing(after));
    }
  }

  // What each request of a conversation adds: an assistant turn, then messages
  // that are not assistant turns.
  predicate IsRound(added: seq<Message>) {
    added != [] && IsAssistant(added[0]) && forall i :: 0 < i < |added| ==> !IsAssistant(added[i])
  }

  function Request(first: seq<Message>, rounds: seq<seq<Message>>): seq<Message> {
    first + Concat(rounds)
  }

  // The results recorded by the requests after the first, in order.
  function Recorded(first: seq<Message>, rounds: seq<seq<Message>>): seq<Message> {
    if rounds == [] then []
    else Recorded(first, rounds[..|rounds| - 1]) + Trailing(Request(first, rounds))
  }

  lemma ConcatOne(xs: seq<Message>)
    ensures Concat([xs]) == xs
  {
    var one := [xs];
    assert |one[1..]| == 0;
  }

  lemma RoundRecorded(first: seq<Message>, init: seq<seq<Message>>, last: seq<Message>)
    requires IsRound(last)
    ensures Trailing(Request(first, init + [last])) == Filter(IsTool, last)
  {
    ConcatAppend(init, [last]);
    ConcatOne(last);
    assert Request(first, init + [last]) == Request(first, init) + last;
    assert IsAssistant(last[0]);
    RecordsAddedIff(Request(first, init), last);
  }

  // Over any conversation, every tool result added after the first request is
  // recorded by exactly one request, in order.
  lemma {:induction false} EachResultRecordedOnce(first: seq<Message>, rounds: seq<seq<Message>>)
    requires forall i :: 0 <= i < |rounds| ==> IsRound(rounds[i])
    ensures Recorded(first, rounds) == Filter(IsTool, Concat(rounds))
  {
    if rounds != [] {
      var init, last := rounds[..|rounds| - 1], rounds[|rounds| - 1];
      EachResultRecordedOnce(first, init);
      assert rounds == init + [last];
      ConcatAppend(init, [last]);
      ConcatOne(last);
      FilterAppend(IsTool, Concat(init), last);
      RoundRecorded(first, init, last);
    }
  }
}
