// What verifyAudit detects, whoever wrote the file: edits, insertions,
// deletions and stale appends.

module Tamper {
  import opened Text
  import opened Chain

  // A row that does not break is the digest of its payload under the head before it.
  lemma UnbrokenRow(key: Key, ps: seq<Parsed>, i: nat)
    requires i < |ps| && BrokenAt(key, ps) == []
    ensures ps[i].Row? && ps[i].h.Some?
    ensures HexEqual(ChainHashWith(key, HeadAfter(key, ps[..i]), ps[i].payload), ps[i].h.value)
    ensures HeadAfter(key, ps[..i + 1]) == ps[i].h.value
  {
    BrokenAtMembers(key, ps);
    assert i !in BrokenAt(key, ps);
    Snoc(key, ps, i);
  }

  // Equal heads after n unbroken rows: the rows are equal, payloads and hashes.
  lemma {:induction false} SameHeadSameRows(key: Key, ps: seq<Parsed>, qs: seq<Parsed>, n: nat)
    requires BrokenAt(key, ps) == [] && BrokenAt(key, qs) == []
    requires n <= |ps| && n <= |qs|
    requires HeadAfter(key, ps[..n]) == HeadAfter(key, qs[..n])
    ensures ps[..n] == qs[..n]
  {
    if n > 0 {
      UnbrokenRow(key, ps, n - 1);
      UnbrokenRow(key, qs, n - 1);
      SameRow(key, HeadAfter(key, ps[..n - 1]), ps[n - 1], HeadAfter(key, qs[..n - 1]), qs[n - 1]);
      SameHeadSameRows(key, ps, qs, n - 1);
      OneMore(ps, qs, n - 1);
    }
  }

  // Equal hashes: equal payloads under equal heads.
  lemma SameRow(key: Key, a: Head, p: Parsed, b: Head, q: Parsed)
    requires p.Row? && p.h.Some? && q.Row? && q.h == p.h
    requires HexEqual(ChainHashWith(key, a, p.payload), p.h.value)
    requires HexEqual(ChainHashWith(key, b, q.payload), q.h.value)
    ensures a == b && p == q
  {
  }

  lemma OneMore(ps: seq<Parsed>, qs: seq<Parsed>, n: nat)
    requires n < |ps| && n < |qs| && ps[..n] == qs[..n] && ps[n] == qs[n]
    ensures ps[..n + 1] == qs[..n + 1]
  {
    assert ps[..n + 1] == ps[..n] + [ps[n]] && qs[..n + 1] == qs[..n] + [qs[n]];
  }

  // The tamper theorem: two files found intact against one anchor hold the
  // same rows in the anchored part.
  lemma IntactFilesAgree(key: Key, ps: seq<Parsed>, qs: seq<Parsed>, a: Anchor)
    requires Intact(key, ps, Some(a)) && Intact(key, qs, Some(a))
    ensures a.count <= |ps| && a.count <= |qs|
    ensures forall i :: 0 <= i < a.count ==> ps[i] == qs[i]
  {
    if a.count >= 1 {
      UnbrokenRow(key, ps, a.count - 1);
      UnbrokenRow(key, qs, a.count - 1);
      SameHeadSameRows(key, ps, qs, a.count);
      forall i | 0 <= i < a.count ensures ps[i] == qs[i] {
        assert ps[..a.count][i] == qs[..a.count][i];
      }
    }
  }

  // Changing payloads while keeping the stored hashes is reported at exactly
  // the changed rows: breaks do not spread.
  lemma EditsReportedExactly(key: Key, ps: seq<Parsed>, qs: seq<Parsed>)
    requires BrokenAt(key, ps) == [] && |qs| == |ps|
    requires forall i :: 0 <= i < |qs| ==> qs[i].Row? && ps[i].Row? && qs[i].h == ps[i].h
    ensures forall i :: i in BrokenAt(key, qs) <==> 0 <= i < |ps| && qs[i].payload != ps[i].payload
    ensures HeadAfter(key, qs) == HeadAfter(key, ps)
  {
    BrokenAtMembers(key, qs);
    forall i | 0 <= i < |ps| ensures Breaks(key, qs, i) <==> qs[i].payload != ps[i].payload {
      UnbrokenRow(key, ps, i);
      SameHashesSameHead(key, ps, qs, i);
    }
    SameHashesSameHead(key, ps, qs, |ps|);
    assert ps[..|ps|] == ps && qs[..|ps|] == qs;
  }

  lemma SameHashesSameHead(key: Key, ps: seq<Parsed>, qs: seq<Parsed>, i: nat)
    requires i <= |ps| && BrokenAt(key, ps) == [] && |qs| == |ps|
    requires forall j :: 0 <= j < |qs| ==> qs[j].Row? && ps[j].Row? && qs[j].h == ps[j].h
    ensures HeadAfter(key, qs[..i]) == HeadAfter(key, ps[..i])
  {
    if i > 0 {
      UnbrokenRow(key, ps, i - 1);
      Snoc(key, qs, i - 1);
    }
  }

  // What the lines before a line leave of themselves: the stored hash of the
  // nearest row that has one, or the genesis head, and the payloads of the rows
  // without a hash since.
  datatype Trace = Trace(head: Head, since: seq<string>)

  function TraceBefore(ps: seq<Parsed>, i: nat): Trace
    requires i <= |ps|
  {
    if i == 0 then Trace(GENESIS, []) else TraceOn(TraceBefore(ps, i - 1), ps[i - 1])
  }

  function TraceOn(t: Trace, p: Parsed): Trace {
    if !p.Row? then t else if p.h.Some? then Trace(p.h.value, []) else t.(since := t.since + [p.payload])
  }

  function HeadOf(key: Key, t: Trace): Head
    decreases |t.since|
  {
    var n := |t.since|;
    if n == 0 then t.head else ChainHashWith(key, HeadOf(key, Trace(t.head, t.since[..n - 1])), t.since[n - 1])
  }

  lemma {:induction false} HeadIsTraced(key: Key, ps: seq<Parsed>, i: nat)
    requires i <= |ps|
    ensures HeadAfter(key, ps[..i]) == HeadOf(key, TraceBefore(ps, i))
  {
    if i > 0 {
      HeadIsTraced(key, ps, i - 1);
      Snoc(key, ps, i - 1);
      TraceOnHead(key, TraceBefore(ps, i - 1), ps[i - 1]);
    }
  }

  lemma TraceOnHead(key: Key, t: Trace, p: Parsed)
    ensures HeadOf(key, TraceOn(t, p)) == Advance(key, HeadOf(key, t), p)
  {
    if p.Row? && p.h.None? {
      assert (t.since + [p.payload])[..|t.since|] == t.since;
    }
  }

  // The verdict on a line depends on that line and on what the lines back to the
  // nearest row with a hash leave, whatever else the two files hold.
  lemma VerdictIsLocal(key: Key, ps: seq<Parsed>, i: nat, qs: seq<Parsed>, k: nat)
    requires i < |ps| && k < |qs| && ps[i] == qs[k]
    requires TraceBefore(ps, i) == TraceBefore(qs, k)
    ensures Breaks(key, ps, i) == Breaks(key, qs, k)
  {
    HeadIsTraced(key, ps, i);
    HeadIsTraced(key, qs, k);
  }

  // A row appended from any head is a break, at exactly that row, if and only
  // if that head is not the current one.
  lemma StaleAppend(key: Key, ps: seq<Parsed>, head: Head, payload: string)
    ensures var qs := ps + [Row(payload, Some(ChainHashWith(key, head, payload)))];
            && BrokenAt(key, qs) == BrokenAt(key, ps) + (if head != HeadAfter(key, ps) then [|ps|] else [])
            && HeadAfter(key, qs) == ChainHashWith(key, head, payload)
  {
    AppendBreaks(key, ps, head, payload);
    assert (ps + [Row(payload, Some(ChainHashWith(key, head, payload)))])[..|ps|] == ps;
  }
}
