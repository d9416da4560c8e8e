// What a fence is, on the text itself: what outsideFences (src/compression/compress.js)
// leaves as it is, and what it hands to the passes.

module FenceText {
  import opened Text
  import opened BasePass
  import opened Fences

  predicate IsFence(f: string) { f == "```" || f == "~~~" }

  // f stands at p.
  predicate StandsAt(s: string, f: string, p: nat) { p + |f| <= |s| && s[p..p + |f|] == f }

  // No fence of either kind starts before p.
  predicate NoneBefore(s: string, p: nat) {
    forall q :: 0 <= q < p ==> !StandsAt(s, "```", q) && !StandsAt(s, "~~~", q)
  }

  // f does not stand in b, nor across its seam with an f behind it.
  predicate ClosesBehind(b: string, f: string) {
    forall q :: 0 <= q < |b| ==> !StandsAt(b + f, f, q)
  }

  predicate NotIn(f: string, b: string) {
    forall q :: 0 <= q < |b| ==> !StandsAt(b, f, q)
  }

  predicate Blank(tail: string) {
    forall i :: 0 <= i < |tail| ==> tail[i] == ' ' || tail[i] == '\t'
  }

  predicate EndsBlank(body: string) {
    body != "" && (body[|body| - 1] == ' ' || body[|body| - 1] == '\t')
  }

  // --- the scanner sees those fences ------------------------------------------------

  lemma FenceStands(s: string, p: nat)
    ensures FenceAt(s, p) <==> StandsAt(s, "```", p) || StandsAt(s, "~~~", p)
  {
    if p + 3 <= |s| {
      var t := s[p..p + 3];
      assert t[0] == s[p] && t[1] == s[p + 1] && t[2] == s[p + 2];
      ThreeEqual(t);
    }
  }

  lemma ThreeEqual(t: string)
    requires |t| == 3
    ensures t == "```" <==> t[0] == '`' && t[1] == '`' && t[2] == '`'
    ensures t == "~~~" <==> t[0] == '~' && t[1] == '~' && t[2] == '~'
  {
  }

  lemma TripleStands(s: string, f: string, p: nat)
    requires IsFence(f)
    ensures TripleAt(s, f[0], p) <==> StandsAt(s, f, p)
  {
    if p + 3 <= |s| {
      var t := s[p..p + 3];
      assert t[0] == s[p] && t[1] == s[p + 1] && t[2] == s[p + 2];
      ThreeEqual(t);
    }
  }

  lemma NoneIsNoFence(s: string, p: nat)
    ensures NoneBefore(s, p) <==> forall q :: 0 <= q < p ==> !FenceAt(s, q)
  {
    forall q | 0 <= q < p ensures FenceAt(s, q) <==> StandsAt(s, "```", q) || StandsAt(s, "~~~", q) {
      FenceStands(s, q);
    }
  }

  lemma TrimmedBody(body: string, tail: string)
    requires Blank(tail) && !EndsBlank(body)
    ensures TrimEnd(body + tail) == body && (body + tail)[|body|..] == tail
  {
    assert TrimEnd(body) == body;
    TrimTail(body, tail);
  }

  // --- text without a fence -----------------------------------------------------------

  lemma PlainText(text: string, fn: string -> string)
    requires NoneBefore(text, |text|)
    ensures OutsideFences(text, fn) == fn(text)
  {
    NoneIsNoFence(text, |text|);
    NoFenceHasNone(text);
  }

  // --- a closed fence -----------------------------------------------------------------

  lemma SeamStands(b: string, f: string, v: string, q: nat)
    requires IsFence(f) && q <= |b|
    ensures StandsAt(b + (f + v), f, q) <==> StandsAt(b + f, f, q)
  {
    assert (b + (f + v))[q..q + 3] == (b + f)[q..q + 3];
  }

  lemma ClosedLength(f: string, b: string, v: string)
    requires IsFence(f) && ClosesBehind(b, f)
    ensures var s := (f + b + f) + v; FenceAt(s, 0) && FenceLength(s) == |f + b + f|
  {
    var s, rest := (f + b + f) + v, b + (f + v);
    assert s[3..] == rest;
    assert s[0..3] == f;
    FenceStands(s, 0);
    forall q | 0 <= q < |b| ensures !TripleAt(rest, f[0], q) {
      SeamStands(b, f, v, q);
      TripleStands(rest, f, q);
    }
    SeamStands(b, f, v, |b|);
    assert (b + f)[|b|..|b| + 3] == f;
    TripleStands(rest, f, |b|);
    assert FirstTriple(rest, f[0]) == |b|;
  }

  lemma NoneFurther(u: string, f: string, x: string)
    requires IsFence(f) && NoneBefore(u + f, |u|)
    ensures forall q :: 0 <= q < |u| ==> !FenceAt(u + (f + x), q)
  {
    NoneIsNoFence(u + f, |u|);
    forall q | 0 <= q < |u| ensures !FenceAt(u + (f + x), q) {
      assert !FenceAt(u + f, q);
      assert forall i :: 0 <= i < |u + f| ==> (u + (f + x))[i] == (u + f)[i];
    }
  }

  // Text up to a fence, the fence, and what follows it: only the text up to the spaces
  // and tabs before the fence is handed on, and what follows is dealt with in the same
  // way. The fence ends with the next f, whatever else is in it.
  lemma ClosedFence(body: string, tail: string, f: string, b: string, v: string, fn: string -> string)
    requires IsFence(f) && Blank(tail) && !EndsBlank(body)
    requires NoneBefore((body + tail) + f, |body + tail|) && ClosesBehind(b, f)
    ensures OutsideFences(((body + tail) + (f + b + f)) + v, fn)
         == ((fn(body) + tail) + (f + b + f)) + OutsideFences(v, fn)
  {
    var u, fence := body + tail, f + b + f;
    ClosedLength(f, b, v);
    ClosedLength(f, b, "");
    NothingBehind(fence);
    Assoc(f, b, f);
    NoneFurther(u, f, (b + f) + v);
    assert u + fence + v == u + (f + ((b + f) + v));
    SplitAtFence(u, fence, v);
    TrimmedBody(body, tail);
  }

  // --- a fence that is never closed -----------------------------------------------------

  lemma UnclosedLength(f: string, b: string)
    requires IsFence(f) && NotIn(f, b)
    ensures FenceAt(f + b, 0) && FenceLength(f + b) == |f + b|
  {
    var s := f + b;
    assert s[3..] == b && s[0..3] == f;
    FenceStands(s, 0);
    forall q | 0 <= q < |b| ensures !TripleAt(b, f[0], q) {
      TripleStands(b, f, q);
    }
  }

  // It protects everything to the end.
  lemma UnclosedFence(body: string, tail: string, f: string, b: string, fn: string -> string)
    requires IsFence(f) && Blank(tail) && !EndsBlank(body)
    requires NoneBefore((body + tail) + f, |body + tail|) && NotIn(f, b)
    ensures OutsideFences((body + tail) + (f + b), fn) == ((fn(body) + tail) + (f + b)) + fn("")
  {
    var u, fence := body + tail, f + b;
    UnclosedLength(f, b);
    NoneFurther(u, f, b);
    NothingBehind(fence);
    NothingBehind(u + fence);
    SplitAtFence(u, fence, "");
    TrimmedBody(body, tail);
  }

  // --- compressText ------------------------------------------------------------------------

  // With no other layer on: a fence of either kind comes through byte for byte, and
  // what is around it is compressed by itself.
  lemma CompressAroundFence(body: string, tail: string, f: string, b: string, v: string)
    requires IsFence(f) && Blank(tail) && !EndsBlank(body)
    requires NoneBefore((body + tail) + f, |body + tail|)
    ensures ClosesBehind(b, f) ==>
              CompressText(((body + tail) + (f + b + f)) + v)
              == ((Base(body) + tail) + (f + b + f)) + CompressText(v)
    ensures NotIn(f, b) ==> CompressText((body + tail) + (f + b)) == (Base(body) + tail) + (f + b)
  {
    if ClosesBehind(b, f) {
      ClosedFence(body, tail, f, b, v, Base);
    }
    if NotIn(f, b) {
      UnclosedFence(body, tail, f, b, Base);
      BaseOfEmpty();
      NothingBehind((Base(body) + tail) + (f + b));
    }
  }

  lemma CompressPlain(text: string)
    requires NoneBefore(text, |text|)
    ensures CompressText(text) == Base(text)
  {
    PlainText(text, Base);
  }

  // A text that is one fence, whatever spaces and empty lines are in it.
  lemma OneFenceKept(f: string, b: string)
    requires IsFence(f)
    ensures ClosesBehind(b, f) ==> CompressText(f + b + f) == f + b + f
    ensures NotIn(f, b) ==> CompressText(f + b) == f + b
  {
    NothingInFront("");
    CompressAroundFence("", "", f, b, "");
    BaseOfEmpty();
    NothingInFront(f + b + f);
    NothingBehind(f + b + f);
    NothingInFront(f + b);
  }

  // --- there are no other texts ------------------------------------------------------------

  predicate AroundFence(body: string, tail: string, f: string) {
    IsFence(f) && Blank(tail) && !EndsBlank(body) && NoneBefore((body + tail) + f, |body + tail|)
  }

  lemma FrontOfFence(text: string) returns (body: string, tail: string, f: string)
    requires !NoneBefore(text, |text|)
    ensures AroundFence(body, tail, f)
    ensures var n := |body + tail|; n + 3 <= |text| && text[..n] == body + tail && text[n..n + 3] == f
  {
    NoneIsNoFence(text, |text|);
    var i := FirstFence(text);
    var u := text[..i];
    body := TrimEnd(u);
    tail := u[|body|..];
    f := text[i..i + 3];
    assert u == body + tail;
    FenceStands(text, i);
    assert u + f == text[..i + 3];
    forall q | 0 <= q < i ensures !FenceAt(u + f, q) {
      FenceInPrefix(u + f, text, q);
    }
    NoneIsNoFence(u + f, i);
  }

  lemma RestOfFence(f: string, rest: string) returns (closed: bool, b: string, v: string)
    requires IsFence(f)
    ensures if closed then ClosesBehind(b, f) && rest == b + (f + v) else NotIn(f, b) && rest == b && v == ""
  {
    var k := FirstTriple(rest, f[0]);
    closed := k < |rest|;
    b := rest[..k];
    v := if closed then rest[k + 3..] else "";
    forall q | 0 <= q < k ensures !StandsAt(rest, f, q) {
      TripleStands(rest, f, q);
    }
    if closed {
      TripleStands(rest, f, k);
      assert rest == b + (f + v);
      forall q | 0 <= q < |b| ensures !StandsAt(b + f, f, q) {
        SeamStands(b, f, v, q);
      }
    } else {
      assert rest[..k] == rest;
    }
  }

  // Every text is plain, or has a fence that is closed, or one that is not.
  lemma EveryText(text: string) returns (body: string, tail: string, f: string, closed: bool, b: string, v: string)
    ensures NoneBefore(text, |text|)
         || (AroundFence(body, tail, f)
             && if closed then ClosesBehind(b, f) && text == ((body + tail) + (f + b + f)) + v
                else NotIn(f, b) && text == (body + tail) + (f + b))
  {
    body, tail, f, closed, b, v := "", "", "", false, "", "";
    if !NoneBefore(text, |text|) {
      body, tail, f := FrontOfFence(text);
      var n := |body + tail|;
      closed, b, v := RestOfFence(f, text[n + 3..]);
      assert text == (body + tail) + (f + text[n + 3..]);
      if closed {
        assert f + (b + (f + v)) == (f + b + f) + v;
        Assoc(body + tail, f + b + f, v);
      }
    }
  }
}
