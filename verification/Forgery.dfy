// What somebody without the secret can make verifyAudit accept: nothing in the
// anchored part but what the gateway itself wrote.

module Forgery {
  import opened Text
  import opened Chain
  import opened AuditLog
  import opened Protocol
  import opened LockTiming
  import opened AuditSafety
  import Tamper

  // --- the tag ----------------------------------------------------------------

  // Under a key, no verdict but "the anchor is not ours" comes from an anchor whose
  // tag is not over its own count and head.
  lemma VerdictNeedsTag(k: string, ps: seq<Parsed>, a: Anchor)
    requires a.tag != Tag(k, a.count, a.head)
    ensures !Intact(Some(k), ps, Some(a)) && !Truncated(Some(k), ps, Some(a)) && !RolledBack(Some(k), ps, Some(a))
  {
  }

  // A file that holds anything is not intact without an anchor, key or no key.
  lemma VerdictNeedsAnchor(key: Key, ps: seq<Parsed>)
    ensures Intact(key, ps, None) <==> ps == []
  {
  }

  // Without a key the tag plays no part.
  lemma UnkeyedIgnoresTag(ps: seq<Parsed>, a: Anchor, tag: AnchorTag)
    ensures var b := a.(tag := tag);
            && (Intact(None, ps, Some(a)) <==> Intact(None, ps, Some(b)))
            && (Truncated(None, ps, Some(a)) <==> Truncated(None, ps, Some(b)))
            && (RolledBack(None, ps, Some(a)) <==> RolledBack(None, ps, Some(b)))
  {
  }

  // --- forged files and anchors -------------------------------------------------

  // Every anchor that a run has put on the disk.
  ghost function OnDisk(c: Codec, key: Key, s: Sys, steps: seq<Step>): set<Anchor>
    requires Legal(c, key, s, steps)
    decreases |steps|
  {
    if steps == [] then {}
    else
      var t := Apply(c, key, s, steps[0]);
      (if t.log.anchor.Some? then {t.log.anchor.value} else {}) + OnDisk(c, key, t, steps[1..])
  }

  // An anchor made without the secret: any count and head, and no tag, a tag of
  // one's own making, or one copied from an anchor that was on the disk.
  ghost predicate Forgeable(c: Codec, key: Key, s: Sys, steps: seq<Step>, a: Anchor)
    requires Legal(c, key, s, steps)
  {
    a.tag == NoTag || a.tag == OtherTag || exists w :: w in OnDisk(c, key, s, steps) && w.tag == a.tag
  }

  lemma WitnessesLater(key: Key, ps: seq<Parsed>, qs: seq<Parsed>, a: Anchor)
    requires Witnesses(key, ps, a) && ps <= qs
    ensures Witnesses(key, qs, a)
  {
    assert qs == ps + qs[|ps|..];
    WitnessStays(key, ps, qs[|ps|..], a);
  }

  // Each of them still fits the file the run ends with.
  lemma {:induction false} OnDiskFits(c: Codec, key: Key, s: Sys, steps: seq<Step>, w: Anchor)
    requires Faithful(c) && Inv(c, key, s) && Legal(c, key, s, steps) && Throughout(c, key, s, steps, KeepsGuard)
    requires w in OnDisk(c, key, s, steps)
    ensures Witnesses(key, ParsedLines(c, Run(c, key, s, steps).log.file), w)
    decreases |steps|
  {
    var t := Apply(c, key, s, steps[0]);
    GuardedStepIff(c, key, s, steps[0]);
    StepKeepsInv(c, key, s, steps[0]);
    if t.log.anchor == Some(w) {
      RunAppends(c, key, t, steps[1..]);
      WitnessesLater(key, ParsedLines(c, t.log.file), ParsedLines(c, Run(c, key, t, steps[1..]).log.file), w);
    } else {
      OnDiskFits(c, key, t, steps[1..], w);
    }
  }

  // The forgery theorem. Whatever file and anchor are put in place of those of a
  // guarded run, by somebody without the secret: if the report is intact, the anchor
  // is one the run itself wrote, and all lines it counts are the run's.
  lemma ForgeryIsReported(
    c: Codec, k: string, now: int, steps: seq<Step>, forged: seq<Parsed>, a: Anchor)
    requires var key := Some(k);
             && Faithful(c) && Legal(c, key, Init(now), steps) && Throughout(c, key, Init(now), steps, KeepsGuard)
             && Forgeable(c, key, Init(now), steps, a) && Intact(key, forged, Some(a))
    ensures var key := Some(k);
            var honest := ParsedLines(c, Run(c, key, Init(now), steps).log.file);
            && a in OnDisk(c, key, Init(now), steps)
            && 1 <= a.count <= |forged| && a.count <= |honest| && forged[..a.count] == honest[..a.count]
  {
    var key := Some(k);
    if a.tag != Tag(k, a.count, a.head) {
      VerdictNeedsTag(k, forged, a);
    }
    var w :| w in OnDisk(c, key, Init(now), steps) && w.tag == a.tag;
    InitIsGood(c, key, now);
    OnDiskFits(c, key, Init(now), steps, w);
    RunKeepsInv(c, key, Init(now), steps);
    TagNamesAnchor(key, ParsedLines(c, Run(c, key, Init(now), steps).log.file), w, a, k);
    WitnessedPartIsHonest(key, ParsedLines(c, Run(c, key, Init(now), steps).log.file), w, forged);
  }

  lemma TagNamesAnchor(key: Key, ps: seq<Parsed>, w: Anchor, a: Anchor, k: string)
    requires key == Some(k) && Witnesses(key, ps, w) && w.tag == a.tag == Tag(k, a.count, a.head)
    ensures w == a
  {
  }

  // --- the rows -----------------------------------------------------------------

  // The head the rows before line i leave: the hash stored last, or the genesis text.
  function HashBefore(ps: seq<Parsed>, i: nat): Head
    requires i <= |ps|
  {
    if i == 0 then Plain("tollpike-audit-v1")
    else if ps[i - 1].Row? && ps[i - 1].h.Some? then ps[i - 1].h.value
    else HashBefore(ps, i - 1)
  }

  // In a file without breaks every line is a row whose hash is a digest, under the
  // key and whatever its spelling, of its own payload behind the hash before it; so
  // a row cannot be made without the key.
  lemma {:induction false} RowsAreKeyed(key: Key, ps: seq<Parsed>, i: nat)
    requires BrokenAt(key, ps) == [] && i < |ps|
    ensures ps[i].Row? && ps[i].h.Some? && ps[i].h.value.Digest?
    ensures var h := ps[i].h.value; h == Digest(key, HashBefore(ps, i), ps[i].payload, h.caps)
  {
    HashBeforeIsHead(key, ps, i);
    Tamper.UnbrokenRow(key, ps, i);
  }

  lemma {:induction false} HashBeforeIsHead(key: Key, ps: seq<Parsed>, i: nat)
    requires BrokenAt(key, ps) == [] && i <= |ps|
    ensures HeadAfter(key, ps[..i]) == HashBefore(ps, i)
  {
    if i > 0 {
      HashBeforeIsHead(key, ps, i - 1);
      Tamper.UnbrokenRow(key, ps, i - 1);
      assert ps[..i - 1 + 1] == ps[..i];
    }
  }

  // Respelling the hex letters of a stored hash is no break of its own row: it shows
  // at the next row, which was hashed from the old spelling.
  lemma RespelledHash(key: Key, ps: seq<Parsed>, payload: string, next: string, caps: nat)
    requires caps != 0
    ensures var head := HeadAfter(key, ps);
            var h := Digest(key, head, payload, 0);
            var g := Digest(key, head, payload, caps);
            var row := Row(next, Some(Digest(key, h, next, 0)));
            && BrokenAt(key, ps + [Row(payload, Some(g))]) == BrokenAt(key, ps)
            && BrokenAt(key, (ps + [Row(payload, Some(h))]) + [row]) == BrokenAt(key, ps)
            && BrokenAt(key, (ps + [Row(payload, Some(g))]) + [row]) == BrokenAt(key, ps) + [|ps| + 1]
  {
    var head := HeadAfter(key, ps);
    var h, g := Digest(key, head, payload, 0), Digest(key, head, payload, caps);
    OneMoreLine(key, ps, Row(payload, Some(h)));
    OneMoreLine(key, ps, Row(payload, Some(g)));
    OneMoreLine(key, ps + [Row(payload, Some(h))], Row(next, Some(Digest(key, h, next, 0))));
    OneMoreLine(key, ps + [Row(payload, Some(g))], Row(next, Some(Digest(key, h, next, 0))));
    NothingBehind(BrokenAt(key, ps));
  }

  lemma OneMoreLine(key: Key, ps: seq<Parsed>, p: Parsed)
    ensures var qs := ps + [p];
            && HeadAfter(key, qs) == Advance(key, HeadAfter(key, ps), p)
            && BrokenAt(key, qs) == BrokenAt(key, ps) + (if Breaks(key, qs, |ps|) then [|ps|] else [])
            && qs[..|ps|] == ps
  {
    assert (ps + [p])[..|ps|] == ps;
  }
}
