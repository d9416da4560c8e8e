// Fenced code in compress.js: the scan that protects it from every pass.

module Fences {
  import opened Text
  import opened BasePass

  predicate IsFenceChar(c: char) { c == '`' || c == '~' }

  // Three equal fence characters at p.
  predicate FenceAt(s: string, p: nat) {
    p + 3 <= |s| && IsFenceChar(s[p]) && s[p] == s[p + 1] == s[p + 2]
  }

  predicate TripleAt(s: string, c: char, p: nat) {
    p + 3 <= |s| && s[p] == c && s[p + 1] == c && s[p + 2] == c
  }

  // The leftmost place a fence can open; |s| when there is none.
  function FirstFence(s: string): (i: nat)
    ensures i <= |s| && (i < |s| ==> FenceAt(s, i))
    ensures forall p :: 0 <= p < i ==> !FenceAt(s, p)
  {
    if s == "" || FenceAt(s, 0) then 0
    else
      assert forall p :: 0 < p ==> FenceAt(s, p) == FenceAt(s[1..], p - 1);
      1 + FirstFence(s[1..])
  }

  // The first triple of c, or |s|.
  function FirstTriple(s: string, c: char): (i: nat)
    ensures i <= |s| && (i < |s| ==> TripleAt(s, c, i))
    ensures forall p :: 0 <= p < i ==> !TripleAt(s, c, p)
  {
    if s == "" || TripleAt(s, c, 0) then 0
    else
      assert forall p :: 0 < p ==> TripleAt(s, c, p) == TripleAt(s[1..], c, p - 1);
      1 + FirstTriple(s[1..], c)
  }

  // How far the fence opening at 0 reaches: to the nearest closing triple of
  // its own character, or to the end of the text when it is never closed.
  function FenceLength(s: string): (n: nat)
    requires FenceAt(s, 0)
    ensures 3 <= n <= |s|
  {
    var k := FirstTriple(s[3..], s[0]);
    if k < |s[3..]| then 3 + k + 3 else |s|
  }

  predicate HasFence(s: string) { FirstFence(s) < |s| }

  // text = Before + Fence + After, around the first fence.
  function Before(text: string): string { text[..FirstFence(text)] }

  function Fence(text: string): (f: string)
    requires HasFence(text)
    ensures |Before(text)| + |f| <= |text| && |f| >= 3
  {
    var i := FirstFence(text);
    text[i..i + FenceLength(text[i..])]
  }

  function After(text: string): (a: string)
    requires HasFence(text)
    ensures |a| == |text| - |Before(text)| - |Fence(text)| < |text|
    ensures text == Before(text) + Fence(text) + a
  {
    text[FirstFence(text) + FenceLength(text[FirstFence(text)..])..]
  }

  // The first stretch and its fence: fn over the stretch, except the spaces and
  // tabs that run straight into the fence; the fence as it is.
  function Piece(before: string, fence: string, fn: string -> string): string {
    fn(TrimEnd(before)) + before[|TrimEnd(before)|..] + fence
  }

  // fn over everything outside the fences.
  function OutsideFences(text: string, fn: string -> string): string
    decreases |text|
  {
    if !HasFence(text) then fn(text)
    else Piece(Before(text), Fence(text), fn) + OutsideFences(After(text), fn)
  }

  // The fences of a text, in order.
  function FencesOf(text: string): seq<string>
    decreases |text|
  {
    if !HasFence(text) then [] else [Fence(text)] + FencesOf(After(text))
  }

  // compress.js's loop over FENCE.exec, from `last` on.
  method OutsideFencesLoop(text: string, fn: string -> string) returns (out: string)
    ensures out == OutsideFences(text, fn)
  {
    out := "";
    var last := 0;
    assert text[0..] == text;
    while HasFence(text[last..])
      invariant 0 <= last <= |text|
      invariant out + OutsideFences(text[last..], fn) == OutsideFences(text, fn)
      decreases |text| - last
    {
      var rest := text[last..];
      var before := Before(rest);
      var fence := Fence(rest);
      var body := TrimTrailingHorizontal(before);
      var tail := before[|body|..];
      Assoc(out, Piece(before, fence, fn), OutsideFences(After(rest), fn));
      out := out + (fn(body) + tail + fence);
      last := last + |before| + |fence|;
      assert text[last..] == After(rest);
    }
    out := out + fn(text[last..]);
  }

  // compressText with no other layer on.
  function CompressText(text: string): string {
    OutsideFences(text, Base)
  }

  // With the identity function the text comes through unchanged.
  lemma {:induction false} IdentityChangesNothing(text: string, fn: string -> string)
    requires forall s :: fn(s) == s
    ensures OutsideFences(text, fn) == text
    decreases |text|
  {
    if HasFence(text) {
      IdentityChangesNothing(After(text), fn);
      IdentityPiece(Before(text), Fence(text), fn);
    }
  }

  lemma IdentityPiece(before: string, fence: string, fn: string -> string)
    requires forall s :: fn(s) == s
    ensures Piece(before, fence, fn) == before + fence
  {
    assert before == before[..|TrimEnd(before)|] + before[|TrimEnd(before)|..];
  }

  // --- the pass makes and breaks no fence -----------------------------------

  ghost predicate NoFence(s: string) {
    forall p :: 0 <= p < |s| ==> !FenceAt(s, p)
  }

  lemma NoFenceInfix(a: string, b: string, c: string)
    requires NoFence(a + b + c)
    ensures NoFence(b)
  {
    var s := a + b + c;
    forall p | 0 <= p < |b| ensures !FenceAt(b, p) {
      assert !FenceAt(s, |a| + p);
      if p + 3 <= |b| {
        assert s[|a| + p] == b[p] && s[|a| + p + 1] == b[p + 1] && s[|a| + p + 2] == b[p + 2];
      }
    }
  }

  // A newline keeps the fences of its two sides apart.
  lemma NoFenceAround(x: string, y: string)
    requires NoFence(x) && NoFence(y)
    ensures NoFence(x + "\n" + y)
  {
    var s := x + "\n" + y;
    forall p | 0 <= p < |s| ensures !FenceAt(s, p) {
      assert s[|x|] == '\n';
      if p > |x| {
        assert !FenceAt(y, p - |x| - 1);
      } else if p + 3 <= |x| {
        assert !FenceAt(x, p);
      }
    }
  }

  // Line by line, with g after the last line.
  ghost predicate NoFenceLines(ls: seq<string>, g: string)
    requires ls != []
  {
    && (forall i :: 0 <= i < |ls| ==> NoFence(ls[i]))
    && NoFence(ls[|ls| - 1] + g)
  }

  lemma {:induction false} LinesNoFence(ls: seq<string>, g: string)
    requires ls != [] && NoFence(Join(ls) + g)
    ensures NoFenceLines(ls, g)
  {
    if |ls| == 1 {
      assert Join(ls) + g == "" + ls[0] + g;
      NoFenceInfix("", ls[0], g);
    } else {
      var rest := Join(ls[1..]);
      assert Join(ls) + g == "" + ls[0] + ("\n" + rest + g);
      NoFenceInfix("", ls[0], "\n" + rest + g);
      assert Join(ls) + g == (ls[0] + "\n") + (rest + g) + "";
      NoFenceInfix(ls[0] + "\n", rest + g, "");
      LinesNoFence(ls[1..], g);
      assert forall i :: 0 < i < |ls| ==> ls[i] == ls[1..][i - 1];
    }
  }

  lemma {:induction false} JoinNoFence(ls: seq<string>, g: string)
    requires ls != [] && NoFenceLines(ls, g)
    ensures NoFence(Join(ls) + g)
  {
    if |ls| > 1 {
      assert ls[1..][|ls[1..]| - 1] == ls[|ls| - 1];
      JoinNoFence(ls[1..], g);
      NoFenceAround(ls[0], Join(ls[1..]) + g);
      assert Join(ls) + g == ls[0] + "\n" + (Join(ls[1..]) + g);
    }
  }

  // Trimming the ends of lines makes no fence.
  lemma CleanNoFence(ls: seq<string>, g: string)
    requires ls != [] && NoFenceLines(ls, g) && TrimEnd(ls[|ls| - 1]) == ls[|ls| - 1]
    ensures NoFenceLines(Clean(ls), g)
  {
    var clean := Clean(ls);
    forall i | 0 <= i < |clean| ensures NoFence(clean[i]) {
      assert ls[i] == "" + clean[i] + ls[i][|clean[i]|..];
      NoFenceInfix("", clean[i], ls[i][|clean[i]|..]);
    }
  }

  // Nor does leaving lines out.
  lemma CollapseNoFence(ls: seq<string>, g: string)
    requires ls != [] && NoFenceLines(ls, g)
    ensures Collapse(ls, false) != [] && NoFenceLines(Collapse(ls, false), g)
  {
    var out := Collapse(ls, false);
    CollapseMembers(ls, false);
    CollapseLast(ls, false);
    forall i | 0 <= i < |out| ensures NoFence(out[i]) {
      assert out[i] in ls;
    }
  }

  // g: the two fence characters that may follow the stretch, or nothing.
  lemma BaseMakesNoFence(b: string, g: string)
    requires TrimEnd(b) == b && |g| <= 2 && NoFence(b + g)
    ensures NoFence(Base(b) + g)
  {
    var ls := Split(b);
    JoinSplit(b);
    LinesNoFence(ls, g);
    LastLineTrimmed(b, ls);
    CleanNoFence(ls, g);
    CollapseNoFence(Clean(ls), g);
    JoinNoFence(Collapse(Clean(ls), false), g);
  }

  lemma LastLineTrimmed(b: string, ls: seq<string>)
    requires TrimEnd(b) == b && ls == Split(b)
    ensures TrimEnd(ls[|ls| - 1]) == ls[|ls| - 1]
  {
    JoinSplit(b);
    JoinEnds(ls);
    var l := ls[|ls| - 1];
    if l != "" {
      assert b[|b| - |l|..][|l| - 1] == b[|b| - 1];
    }
  }

  lemma FenceInPrefix(a: string, b: string, p: nat)
    requires a <= b
    ensures p + 3 <= |a| ==> (FenceAt(b, p) <==> FenceAt(a, p))
  {
  }

  // The two characters of the fence that may belong to the stretch before it.
  function Seam(tail: string, fence: string): string
    requires |fence| >= 2
  {
    if tail == "" then fence[..2] else ""
  }

  lemma SeamIsPrefix(body: string, tail: string, fence: string)
    requires |fence| >= 2
    ensures body + Seam(tail, fence) <= body + tail + fence
  {
  }

  // No fence in the stretch up to the seam, and none in all of it, are the same.
  lemma NoFenceToSeam(body: string, tail: string, fence: string)
    requires FenceAt(fence, 0)
    requires forall p :: 0 <= p < |body + tail| ==> !FenceAt(body + tail + fence, p)
    ensures NoFence(body + Seam(tail, fence))
  {
    var a := body + Seam(tail, fence);
    SeamIsPrefix(body, tail, fence);
    forall p | 0 <= p < |a| ensures !FenceAt(a, p) {
      FenceInPrefix(a, body + tail + fence, p);
    }
  }

  lemma NoFenceFromSeam(u: string, tail: string, fence: string)
    requires forall i :: 0 <= i < |tail| ==> IsHorizontal(tail[i])
    requires FenceAt(fence, 0) && NoFence(u + Seam(tail, fence))
    ensures forall p :: 0 <= p < |u + tail| ==> !FenceAt(u + tail + fence, p)
  {
    var a, t := u + Seam(tail, fence), u + tail + fence;
    SeamIsPrefix(u, tail, fence);
    forall p | 0 <= p < |u + tail| ensures !FenceAt(t, p) {
      FenceInPrefix(a, t, p);
      if p + 3 > |a| {
        NotAFence(u, tail, fence, p);
      }
    }
  }

  // A fence is not made of spaces, in whole or in part.
  lemma NotAFence(u: string, tail: string, fence: string, p: nat)
    requires forall i :: 0 <= i < |tail| ==> IsHorizontal(tail[i])
    requires tail != "" && p < |u + tail| && p + 3 > |u|
    ensures !FenceAt(u + tail + fence, p)
  {
    var t := u + tail + fence;
    if p < |u| {
      assert t[|u|] == tail[0];
    } else {
      assert t[p] == tail[p - |u|];
    }
  }

  // Where the next fence opens after the pass: right behind what the pass and
  // the spaces before the fence leave.
  lemma FenceStaysFirst(body: string, tail: string, fence: string)
    requires TrimEnd(body) == body
    requires forall i :: 0 <= i < |tail| ==> IsHorizontal(tail[i])
    requires FenceAt(fence, 0)
    requires forall p :: 0 <= p < |body + tail| ==> !FenceAt(body + tail + fence, p)
    ensures forall p :: 0 <= p < |Base(body) + tail| ==> !FenceAt(Base(body) + tail + fence, p)
  {
    NoFenceToSeam(body, tail, fence);
    BaseMakesNoFence(body, Seam(tail, fence));
    NoFenceFromSeam(Base(body), tail, fence);
  }

  // A closed fence is the same fence whatever follows it.
  lemma FenceLengthStays(s: string, x: string)
    requires FenceAt(s, 0)
    requires FenceLength(s) < |s| || x == ""
    ensures var n := FenceLength(s); FenceAt(s[..n] + x, 0) && FenceLength(s[..n] + x) == n
  {
    var n := FenceLength(s);
    if x == "" {
      TakeLength(s, n);
      assert s[..n] + x == s[..n];
    } else {
      TripleStays(s[3..], s[0], x);
      assert (s[..n] + x)[3..] == s[3..][..n - 3] + x;
    }
  }

  lemma TakeLength(s: string, n: nat)
    requires FenceAt(s, 0) && n == FenceLength(s)
    ensures FenceAt(s[..n], 0) && FenceLength(s[..n]) == n
  {
    if n < |s| {
      TripleStays(s[3..], s[0], "");
      assert s[..n][3..] == s[3..][..n - 3] + "";
    } else {
      assert s[..n] == s;
    }
  }

  lemma {:induction false} TripleStays(s: string, c: char, x: string)
    requires FirstTriple(s, c) < |s|
    ensures FirstTriple(s[..FirstTriple(s, c) + 3] + x, c) == FirstTriple(s, c)
  {
    var i := FirstTriple(s, c);
    var t := s[..i + 3] + x;
    assert TripleAt(t, c, i);
    forall p | 0 <= p < i ensures !TripleAt(t, c, p) {
      assert !TripleAt(s, c, p);
    }
  }

  // Splitting a text at a fence the scan finds there.
  lemma SplitAtFence(u: string, fence: string, x: string)
    requires FenceAt(fence, 0) && FenceAt(fence + x, 0) && FenceLength(fence + x) == |fence|
    requires forall p :: 0 <= p < |u| ==> !FenceAt(u + fence + x, p)
    ensures var t := u + fence + x;
            HasFence(t) && Before(t) == u && Fence(t) == fence && After(t) == x
  {
    var t := u + fence + x;
    assert t[|u|..] == fence + x;
    assert FenceAt(t, |u|) by {
      assert t[|u|] == fence[0] && t[|u| + 1] == fence[1] && t[|u| + 2] == fence[2];
    }
    assert FirstFence(t) == |u|;
    assert t[|u|..|u| + |fence|] == fence;
  }

  lemma FenceOpens(text: string)
    requires HasFence(text)
    ensures FenceAt(Fence(text), 0)
    ensures var s := text[FirstFence(text)..];
            FenceAt(s, 0) && Fence(text) == s[..FenceLength(s)] && After(text) == s[FenceLength(s)..]
  {
  }

  // What the pass leaves of the stretch before a fence.
  function Kept(before: string): string {
    Base(TrimEnd(before)) + before[|TrimEnd(before)|..]
  }

  lemma NoFenceBefore(text: string)
    requires HasFence(text)
    ensures forall p :: 0 <= p < |Before(text)| ==> !FenceAt(Before(text) + Fence(text), p)
  {
    FenceOpens(text);
    var u := Before(text) + Fence(text);
    assert u == text[..|u|];
    forall p | 0 <= p < |Before(text)| ensures !FenceAt(u, p) {
      assert !FenceAt(text, p);
      FenceInPrefix(u, text, p);
    }
  }

  lemma NoFenceInKept(text: string)
    requires HasFence(text)
    ensures var u := Kept(Before(text));
            forall p :: 0 <= p < |u| ==> !FenceAt(u + Fence(text), p)
  {
    FenceOpens(text);
    var before, fence := Before(text), Fence(text);
    var body := TrimEnd(before);
    var tail := before[|body|..];
    assert before == body + tail;
    TrimTwice(before);
    NoFenceBefore(text);
    FenceStaysFirst(body, tail, fence);
  }

  lemma NoFenceFurther(u: string, fence: string, x: string)
    requires |fence| >= 3
    requires forall p :: 0 <= p < |u| ==> !FenceAt(u + fence, p)
    ensures forall p :: 0 <= p < |u| ==> !FenceAt(u + fence + x, p)
  {
    forall p | 0 <= p < |u| ensures !FenceAt(u + fence + x, p) {
      assert !FenceAt(u + fence, p);
      assert forall i :: 0 <= i < |u + fence| ==> (u + fence + x)[i] == (u + fence)[i];
    }
  }

  // The pass leaves the first fence where the scan finds it again.
  lemma ScanAgrees(text: string, x: string)
    requires HasFence(text) && (After(text) == "" ==> x == "")
    ensures var t := Kept(Before(text)) + Fence(text) + x;
            HasFence(t) && Before(t) == Kept(Before(text)) && Fence(t) == Fence(text) && After(t) == x
  {
    FenceOpens(text);
    var s := text[FirstFence(text)..];
    assert FenceLength(s) < |s| || x == "";
    FenceLengthStays(s, x);
    NoFenceInKept(text);
    NoFenceFurther(Kept(Before(text)), Fence(text), x);
    SplitAtFence(Kept(Before(text)), Fence(text), x);
  }

  lemma KeptTwice(before: string)
    ensures Kept(Kept(before)) == Kept(before)
  {
    var body := TrimEnd(before);
    var tail := before[|body|..];
    BaseShape(body);
    BaseIdempotent(body);
    TrimTail(Base(body), tail);
    assert TrimEnd(Base(body)) == Base(body);
    assert (Base(body) + tail)[|Base(body)|..] == tail;
  }

  lemma BaseOfEmpty()
    ensures Base("") == "" && CompressText("") == ""
  {
    assert Clean([""]) == [""];
    assert [""][1..] == [];
  }

  lemma CompressEmpty(text: string)
    requires HasFence(text)
    ensures After(text) == "" ==> CompressText(After(text)) == ""
  {
    BaseOfEmpty();
  }

  // Every fence, closed or not, comes through byte for byte and in order.
  lemma {:induction false} FencesSurvive(text: string)
    ensures FencesOf(CompressText(text)) == FencesOf(text)
    decreases |text|
  {
    if HasFence(text) {
      var x := CompressText(After(text));
      CompressEmpty(text);
      ScanAgrees(text, x);
      FencesSurvive(After(text));
    } else {
      NoFenceStays(text);
    }
  }

  lemma NoFenceStays(text: string)
    requires !HasFence(text)
    ensures !HasFence(Base(text))
  {
    // spaces at the very end cannot take part in a fence
    var body := TrimEnd(text);
    assert text == "" + body + text[|body|..];
    NoFenceInfix("", body, text[|body|..]);
    BaseIgnoresTail(text);
    TrimTwice(text);
    NothingBehind(body);
    BaseMakesNoFence(body, "");
    NothingBehind(Base(body));
    NoFenceHasNone(Base(text));
  }

  lemma NoFenceHasNone(s: string)
    ensures NoFence(s) ==> !HasFence(s)
  {
    assert HasFence(s) ==> FenceAt(s, FirstFence(s));
  }

  // Trailing spaces and tabs of the whole text make no difference to the pass.
  lemma BaseIgnoresTail(text: string)
    ensures Base(TrimEnd(text)) == Base(text)
  {
    var body := TrimEnd(text);
    var tail := text[|body|..];
    assert text == body + tail;
    SplitTail(body, tail);
    CleanIgnoresTail(Split(body), Split(text), tail);
  }

  lemma CleanIgnoresTail(ls: seq<string>, ms: seq<string>, tail: string)
    requires |ms| == |ls| >= 1 && ms[|ls| - 1] == ls[|ls| - 1] + tail
    requires forall i :: 0 <= i < |ls| - 1 ==> ms[i] == ls[i]
    requires forall i :: 0 <= i < |tail| ==> IsHorizontal(tail[i])
    ensures Clean(ls) == Clean(ms)
  {
    TrimTail(ls[|ls| - 1], tail);
    CleanSame(ls, ms);
  }

  lemma CleanSame(ls: seq<string>, ms: seq<string>)
    requires |ls| == |ms| && forall i :: 0 <= i < |ls| ==> TrimEnd(ls[i]) == TrimEnd(ms[i])
    ensures Clean(ls) == Clean(ms)
  {
  }

  lemma {:induction false} TrimTail(l: string, tail: string)
    requires forall i :: 0 <= i < |tail| ==> IsHorizontal(tail[i])
    ensures TrimEnd(l + tail) == TrimEnd(l)
  {
    if tail == "" {
      assert l + tail == l;
    } else {
      assert (l + tail)[..|l + tail| - 1] == l + tail[..|tail| - 1];
      TrimTail(l, tail[..|tail| - 1]);
    }
  }

  // Running the pass over its own output changes nothing, on every text: the
  // second of compressMessagesWithStats' two passes is the identity.
  lemma {:induction false} CompressTwice(text: string)
    ensures CompressText(CompressText(text)) == CompressText(text)
    decreases |text|
  {
    if HasFence(text) {
      var x := CompressText(After(text));
      CompressEmpty(text);
      ScanAgrees(text, x);
      CompressTwice(After(text));
      KeptTwice(Before(text));
    } else {
      NoFenceStays(text);
      BaseIdempotent(text);
    }
  }
}
