// Hash-chain primitives (src/security/chain.js) and the verdict of
// verifyAudit (src/audit/log.js) as functions of the parsed lines.

module Chain {
  import opened Text

  // auditKey(): None when no secret is set.
  type Key = Option<string>

  // A string stored in a head or `h` field. Digests are injective in what they
  // hash (the collision-resistance idealisation). `caps` numbers the letter-case
  // spelling of the hex text; a freshly computed digest is all lower case (0).
  // Anything else a file may hold there is Plain.
  datatype Head =
    | Plain(text: string)
    | Digest(key: Key, prev: Head, payload: string, caps: nat)

  const GENESIS := Plain("tollpike-audit-v1")

  function ChainHashWith(key: Key, prev: Head, payload: string): Head {
    Digest(key, prev, payload, 0)
  }

  // Compares decoded hex, so letter case is ignored; a non-digest never equals a digest.
  predicate HexEqual(a: Head, b: Head) {
    a.Digest? && b.Digest? && a.(caps := 0) == b.(caps := 0)
  }

  // What JSON.parse makes of one line. `h` is None when it is not a string.
  // Null is the literal `null`, whose fields cannot be read.
  datatype Parsed = Unparsable | Null | Row(payload: string, h: Option<Head>)

  // The anchor's tag; only the holder of the key can make Tag(key, ...).
  datatype AnchorTag = NoTag | OtherTag | Tag(key: string, count: int, head: Head)

  datatype Anchor = Anchor(count: int, head: Head, tag: AnchorTag)

  function MakeAnchor(key: Key, count: int, head: Head): Anchor {
    Anchor(count, head, if key.Some? then Tag(key.value, count, head) else NoTag)
  }

  // --- verifyAudit ----------------------------------------------------------

  // The head after one more line: the stored hash if there is one (the
  // resynchronisation), else the expected one; an unparsable line leaves it.
  function Advance(key: Key, head: Head, p: Parsed): Head {
    match p
    case Unparsable => head
    case Null => head
    case Row(payload, Some(h)) => h
    case Row(payload, None) => ChainHashWith(key, head, payload)
  }

  function HeadAfter(key: Key, ls: seq<Parsed>): Head {
    if ls == [] then GENESIS else Advance(key, HeadAfter(key, ls[..|ls| - 1]), ls[|ls| - 1])
  }

  // Line i does not chain from the lines before it.
  predicate Breaks(key: Key, ls: seq<Parsed>, i: nat)
    requires i < |ls|
  {
    match ls[i]
    case Unparsable => true
    case Null => true
    case Row(payload, None) => true
    case Row(payload, Some(h)) => !HexEqual(ChainHashWith(key, HeadAfter(key, ls[..i]), payload), h)
  }

  // The lines reported as broken, in order.
  function BrokenAt(key: Key, ls: seq<Parsed>): seq<nat> {
    if ls == [] then []
    else BrokenAt(key, ls[..|ls| - 1]) + if Breaks(key, ls, |ls| - 1) then [|ls| - 1] else []
  }

  function HeadAtAnchor(key: Key, ls: seq<Parsed>, count: int): Option<Head> {
    if count == 0 then Some(GENESIS)
    else if 1 <= count <= |ls| && ls[count - 1].Row? then Some(HeadAfter(key, ls[..count]))
    else None
  }

  function AnchorOk(key: Key, anchor: Option<Anchor>, total: nat): Option<bool> {
    if anchor.Some? then
      var a := anchor.value;
      if key.Some? then Some(a.tag == Tag(key.value, a.count, a.head)) else None
    else if total > 0 then Some(false) else None
  }

  predicate Truncated(key: Key, ls: seq<Parsed>, anchor: Option<Anchor>) {
    anchor.Some? && AnchorOk(key, anchor, |ls|) != Some(false) && |ls| < anchor.value.count
  }

  predicate RolledBack(key: Key, ls: seq<Parsed>, anchor: Option<Anchor>) {
    && anchor.Some? && AnchorOk(key, anchor, |ls|) != Some(false) && |ls| >= anchor.value.count
    && var at := HeadAtAnchor(key, ls, anchor.value.count);
       at.Some? && at.value != anchor.value.head
  }

  predicate Intact(key: Key, ls: seq<Parsed>, anchor: Option<Anchor>) {
    && BrokenAt(key, ls) == []
    && !Truncated(key, ls, anchor)
    && !RolledBack(key, ls, anchor)
    && AnchorOk(key, anchor, |ls|) != Some(false)
  }

  datatype Report = Report(
    intact: bool, keyed: bool, total: nat, brokenLinks: nat, brokenAt: seq<nat>, unparsable: nat,
    anchored: bool, anchorOk: Option<bool>, truncated: bool, rolledBack: bool, head: Head)

  function Unparsables(ls: seq<Parsed>): nat {
    if ls == [] then 0 else Unparsables(ls[..|ls| - 1]) + if ls[|ls| - 1].Unparsable? then 1 else 0
  }

  // One more line: how each part of the verdict moves on.
  lemma Snoc(key: Key, ls: seq<Parsed>, i: nat)
    requires i < |ls|
    ensures HeadAfter(key, ls[..i + 1]) == Advance(key, HeadAfter(key, ls[..i]), ls[i])
    ensures Breaks(key, ls[..i + 1], i) == Breaks(key, ls, i)
    ensures BrokenAt(key, ls[..i + 1]) == BrokenAt(key, ls[..i]) + if Breaks(key, ls, i) then [i] else []
    ensures Unparsables(ls[..i + 1]) == Unparsables(ls[..i]) + if ls[i].Unparsable? then 1 else 0
  {
    assert ls[..i + 1][..i] == ls[..i];
  }

  // A row appended from any head is a break if and only if that head is not the
  // current one.
  lemma AppendBreaks(key: Key, ps: seq<Parsed>, head: Head, payload: string)
    ensures Breaks(key, ps + [Row(payload, Some(ChainHashWith(key, head, payload)))], |ps|)
       <==> head != HeadAfter(key, ps)
  {
    assert (ps + [Row(payload, Some(ChainHashWith(key, head, payload)))])[..|ps|] == ps;
  }

  lemma SnocAnchor(key: Key, ls: seq<Parsed>, i: nat, count: int)
    requires i < |ls|
    ensures HeadAtAnchor(key, ls[..i + 1], count) ==
            if count == i + 1 && count != 0 && ls[i].Row? then Some(HeadAfter(key, ls[..i + 1]))
            else HeadAtAnchor(key, ls[..i], count)
  {
    if 1 <= count <= i + 1 {
      assert ls[..i + 1][..count] == ls[..count];
      if count <= i {
        assert ls[..i][..count] == ls[..count];
      }
    }
  }

  lemma {:induction false} BrokenAtMembers(key: Key, ls: seq<Parsed>)
    ensures forall i :: i in BrokenAt(key, ls) <==> 0 <= i < |ls| && Breaks(key, ls, i)
    ensures forall j, k :: 0 <= j < k < |BrokenAt(key, ls)| ==> BrokenAt(key, ls)[j] < BrokenAt(key, ls)[k]
  {
    if ls != [] {
      var n := |ls| - 1;
      var b := BrokenAt(key, ls[..n]);
      BrokenAtMembers(key, ls[..n]);
      assert forall i :: 0 <= i < n ==> ls[..n][..i] == ls[..i];
      assert forall j :: 0 <= j < |b| ==> b[j] in b;
    }
  }

  // What the walk keeps of the head at the anchor's count.
  function AnchoredHead(key: Key, ls: seq<Parsed>, anchor: Option<Anchor>): Option<Head> {
    if anchor.Some? then HeadAtAnchor(key, ls, anchor.value.count) else None
  }

  // The walk over the file; not `ok` at a line that is the literal `null`.
  method Walk(key: Key, ls: seq<Parsed>, anchor: Option<Anchor>)
    returns (ok: bool, head: Head, brokenAt: seq<nat>, unparsable: nat, headAtAnchor: Option<Head>)
    ensures ok <==> Null !in ls
    ensures ok ==> head == HeadAfter(key, ls) && brokenAt == BrokenAt(key, ls)
    ensures ok ==> unparsable == Unparsables(ls) && headAtAnchor == AnchoredHead(key, ls, anchor)
  {
    ok, head, brokenAt, unparsable, headAtAnchor := true, GENESIS, [], 0, None;
    if anchor.Some? && anchor.value.count == 0 {
      headAtAnchor := Some(GENESIS);
    }
    var i := 0;
    while i < |ls|
      invariant 0 <= i <= |ls|
      invariant Null !in ls[..i]
      invariant head == HeadAfter(key, ls[..i])
      invariant brokenAt == BrokenAt(key, ls[..i])
      invariant unparsable == Unparsables(ls[..i])
      invariant headAtAnchor == AnchoredHead(key, ls[..i], anchor)
    {
      Snoc(key, ls, i);
      if anchor.Some? {
        SnocAnchor(key, ls, i, anchor.value.count);
      }
      match ls[i] {
        case Null =>
          ok := false;
          return;
        case Unparsable =>
          unparsable := unparsable + 1;
          brokenAt := brokenAt + [i];
        case Row(payload, h) =>
          var expected := ChainHashWith(key, head, payload);
          if h.None? || !HexEqual(expected, h.value) {
            brokenAt := brokenAt + [i];
          }
          head := if h.Some? then h.value else expected;
          if anchor.Some? && i + 1 == anchor.value.count {
            headAtAnchor := Some(head);
          }
      }
      i := i + 1;
    }
    assert ls[..i] == ls;
  }

  // It throws (None) exactly when some line is the literal `null`: reading the
  // keys of null is not caught there.
  method VerifyAudit(key: Key, ls: seq<Parsed>, anchor: Option<Anchor>) returns (r: Option<Report>)
    ensures r.None? <==> Null in ls
    ensures r.Some? ==>
      && r.value.intact == Intact(key, ls, anchor)
      && r.value.keyed == key.Some?
      && r.value.total == |ls|
      && r.value.brokenLinks == |BrokenAt(key, ls)|
      && r.value.brokenAt == (if |BrokenAt(key, ls)| <= 50 then BrokenAt(key, ls) else BrokenAt(key, ls)[..50])
      && r.value.unparsable == Unparsables(ls)
      && r.value.anchored == anchor.Some?
      && (r.value.anchorOk == Some(true) <==>
            && key.Some? && anchor.Some?
            && anchor.value.tag == Tag(key.value, anchor.value.count, anchor.value.head))
      && (r.value.anchorOk == None <==> if anchor.Some? then key == None else ls == [])
      && r.value.truncated == Truncated(key, ls, anchor)
      && r.value.rolledBack == RolledBack(key, ls, anchor)
      && r.value.head == HeadAfter(key, ls)
  {
    var ok, head, brokenAt, unparsable, headAtAnchor := Walk(key, ls, anchor);
    if !ok {
      return None;
    }
    var anchorOk: Option<bool> := None;
    var truncated, rolledBack := false, false;
    if anchor.Some? {
      var a := anchor.value;
      if key.Some? {
        anchorOk := Some(a.tag == Tag(key.value, a.count, a.head));
      }
      if anchorOk != Some(false) {
        if |ls| < a.count {
          truncated := true;
        } else if headAtAnchor.Some? && headAtAnchor.value != a.head {
          rolledBack := true;
        }
      }
    } else if |ls| > 0 {
      anchorOk := Some(false);
    }
    var intact := |brokenAt| == 0 && !truncated && !rolledBack && anchorOk != Some(false);
    r := Some(Report(intact, key.Some?, |ls|, |brokenAt|,
                     if |brokenAt| <= 50 then brokenAt else brokenAt[..50], unparsable,
                     anchor.Some?, anchorOk, truncated, rolledBack, head));
  }
}
