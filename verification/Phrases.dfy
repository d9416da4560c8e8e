// The phrase tables of caveman() (src/compression/caveman.js): rewrites at every
// level, filler phrases at level "aggressive". What they do to the words that
// must never be dropped.

module Phrases {
  import opened Text
  import opened Caveman

  // --- the words of a text --------------------------------------------------

  // Maximal runs of word characters, in lower case: what `\b` separates.
  function Tokens(s: string): (ts: seq<string>)
    ensures s != "" && IsWordChar(s[0]) ==> ts != []
  {
    if s == "" then []
    else if !IsWordChar(s[0]) then Tokens(s[1..])
    else if |s| > 1 && IsWordChar(s[1]) then [[ToLower(s[0])] + Tokens(s[1..])[0]] + Tokens(s[1..])[1..]
    else [[ToLower(s[0])]] + Tokens(s[1..])
  }

  function Times(w: string, ts: seq<string>): nat {
    multiset(ts)[w]
  }

  // No word runs across the seam of a + b.
  predicate Apart(a: string, b: string) {
    a == "" || b == "" || !IsWordChar(a[|a| - 1]) || !IsWordChar(b[0])
  }

  lemma {:induction false} TokensApart(a: string, b: string)
    requires Apart(a, b)
    ensures Tokens(a + b) == Tokens(a) + Tokens(b)
  {
    if a == "" {
      NothingInFront(b);
      NothingInFront(Tokens(b));
    } else {
      HeadTail(a, b);
      TokensApart(a[1..], b);
      TokensStep(a, b);
    }
  }

  lemma TokensStep(a: string, b: string)
    requires a != "" && Apart(a, b) && Tokens(a[1..] + b) == Tokens(a[1..]) + Tokens(b)
    ensures Tokens(a + b) == Tokens(a) + Tokens(b)
  {
    HeadTail(a, b);
    var c := [ToLower(a[0])];
    if |a| > 1 && IsWordChar(a[0]) && IsWordChar(a[1]) {
      var ts := Tokens(a[1..]);
      HeadTail(ts, Tokens(b));
      Assoc([c + ts[0]], ts[1..], Tokens(b));
    } else if IsWordChar(a[0]) {
      Assoc([c], Tokens(a[1..]), Tokens(b));
    }
  }

  // Text that nothing behind it, or nothing in front of it, can run into.
  predicate Closed(a: string) { a == "" || !IsWordChar(a[|a| - 1]) }
  predicate Fresh(b: string) { b == "" || !IsWordChar(b[0]) }

  lemma TokensOfThree(a: string, b: string, c: string)
    requires Closed(a) && Fresh(c)
    ensures Tokens(a + (b + c)) == Tokens(a) + (Tokens(b) + Tokens(c))
  {
    TokensApart(a, b + c);
    TokensApart(b, c);
  }

  // The same letters, whatever the case of the text's.
  predicate SameLetters(s: string, p: string) {
    |s| == |p| && forall i :: 0 <= i < |s| ==> ToLower(s[i]) == p[i]
  }

  lemma {:induction false} TokensOfLetters(s: string, p: string)
    requires SameLetters(s, p)
    ensures Tokens(s) == Tokens(p)
  {
    if s != "" {
      TokensOfLetters(s[1..], p[1..]);
      assert ToLower(s[0]) == p[0] == ToLower(p[0]);
      assert |s| > 1 ==> ToLower(s[1]) == p[1];
    }
  }

  // --- the patterns ---------------------------------------------------------

  predicate IsLowerWord(w: string) {
    w != "" && forall i :: 0 <= i < |w| ==> IsLower(w[i])
  }

  type LowerWord = w: string | IsLowerWord(w) witness "a"

  // A fixed phrase: words with single spaces, and a second part behind an
  // apostrophe if there is one.
  datatype Phrase = Phrase(words: seq<LowerWord>, more: seq<LowerWord>)

  function TextOf(p: Phrase): string {
    Spaced(p.words) + (if p.more == [] then "" else "'" + Spaced(p.more))
  }

  // A pattern: phrases in the order the alternation tries them, and what takes
  // their place.
  datatype Rule = Rule(phrases: seq<Phrase>, instead: string)

  predicate Proper(p: Phrase) { p.words != [] }

  predicate ProperRule(r: Rule) {
    forall i :: 0 <= i < |r.phrases| ==> Proper(r.phrases[i])
  }

  // --- String.prototype.replace with a global pattern -----------------------

  // The pattern `\bphrase\b`, case ignored, matches at i.
  predicate HitAt(s: string, i: nat, p: string) {
    && i + |p| <= |s| && SameLetters(s[i..i + |p|], p)
    && (i == 0 || !IsWordChar(s[i - 1]))
    && (i + |p| == |s| || !IsWordChar(s[i + |p|]))
  }

  // The first alternative that matches at i; |ps| when none does.
  function Alternative(ps: seq<Phrase>, s: string, i: nat): (k: nat)
    ensures k <= |ps| && (k < |ps| ==> HitAt(s, i, TextOf(ps[k])))
    ensures forall j :: 0 <= j < k ==> !HitAt(s, i, TextOf(ps[j]))
  {
    if ps == [] || HitAt(s, i, TextOf(ps[0])) then 0 else 1 + Alternative(ps[1..], s, i)
  }

  // The first match from i on; |s| when there is none.
  function FirstHit(ps: seq<Phrase>, s: string, i: nat): (j: nat)
    requires i <= |s|
    ensures i <= j <= |s| && (j < |s| ==> Alternative(ps, s, j) < |ps|)
    ensures forall k :: i <= k < j ==> Alternative(ps, s, k) == |ps|
    decreases |s| - i
  {
    if i == |s| then i
    else if Alternative(ps, s, i) < |ps| then i
    else FirstHit(ps, s, i + 1)
  }

  lemma {:induction false} SpacedEndsInWord(ws: seq<LowerWord>)
    requires ws != []
    ensures Spaced(ws) != "" && IsWordChar(Spaced(ws)[0]) && IsWordChar(Spaced(ws)[|Spaced(ws)| - 1])
  {
    assert IsLowerWord(ws[0]);
    if |ws| > 1 {
      SpacedEndsInWord(ws[1..]);
      assert Spaced(ws) == (ws[0] + " ") + Spaced(ws[1..]);
    }
  }

  // A phrase starts with a word character.
  lemma PhraseStarts(p: Phrase)
    requires Proper(p)
    ensures TextOf(p) != "" && IsWordChar(TextOf(p)[0])
  {
    SpacedEndsInWord(p.words);
  }

  lemma HitStarts(s: string, i: nat, p: Phrase)
    requires Proper(p) && HitAt(s, i, TextOf(p))
    ensures i < |s| && IsWordChar(s[i])
  {
    PhraseStarts(p);
    assert s[i..i + |TextOf(p)|][0] == s[i];
  }

  // Where the first match starts, what it matched, and where it ends.
  function Start(r: Rule, s: string): nat { FirstHit(r.phrases, s, 0) }

  function Hit(r: Rule, s: string): (p: Phrase)
    requires ProperRule(r) && Start(r, s) < |s|
    ensures Proper(p) && p in r.phrases && HitAt(s, Start(r, s), TextOf(p)) && TextOf(p) != ""
  {
    PhraseStarts(r.phrases[Alternative(r.phrases, s, Start(r, s))]);
    r.phrases[Alternative(r.phrases, s, Start(r, s))]
  }

  function Rest(r: Rule, s: string): (t: string)
    requires ProperRule(r) && Start(r, s) < |s|
    ensures |t| < |s|
  {
    s[Start(r, s) + |TextOf(Hit(r, s))|..]
  }

  function Replace(r: Rule, s: string): string
    requires ProperRule(r)
    decreases |s|
  {
    if Start(r, s) >= |s| then s else s[..Start(r, s)] + (r.instead + Replace(r, Rest(r, s)))
  }

  // The phrases replaced, in order.
  function Replaced(r: Rule, s: string): seq<Phrase>
    requires ProperRule(r)
    decreases |s|
  {
    if Start(r, s) >= |s| then [] else [Hit(r, s)] + Replaced(r, Rest(r, s))
  }

  // --- words are conserved, but for the phrases replaced ---------------------

  function Within(w: string, ps: seq<Phrase>): nat {
    if ps == [] then 0 else Times(w, Tokens(TextOf(ps[0]))) + Within(w, ps[1..])
  }

  function Gained(w: string, ps: seq<Phrase>, instead: string): nat {
    if ps == [] then 0 else Times(w, Tokens(instead)) + Gained(w, ps[1..], instead)
  }

  // A text that starts with no word keeps its first character.
  lemma StartKept(r: Rule, s: string)
    requires ProperRule(r) && Fresh(s)
    ensures Fresh(Replace(r, s))
  {
    if Start(r, s) < |s| {
      HitStarts(s, Start(r, s), Hit(r, s));
    }
  }

  // The parts of a text around its first match.
  lemma AroundHit(s: string, i: nat, p: string)
    requires HitAt(s, i, p) && p != ""
    ensures Tokens(s) == Tokens(s[..i]) + (Tokens(p) + Tokens(s[i + |p|..]))
    ensures Closed(s[..i]) && Fresh(s[i + |p|..])
  {
    var a, m, b := s[..i], s[i..i + |p|], s[i + |p|..];
    assert s == a + (m + b);
    TokensOfThree(a, m, b);
    TokensOfLetters(m, p);
  }

  // The first match leaves a and rest on its two sides.
  predicate Splits(r: Rule, s: string, a: string, p: Phrase, rest: string)
    requires ProperRule(r)
  {
    Start(r, s) < |s| && a == s[..Start(r, s)] && p == Hit(r, s) && rest == Rest(r, s)
  }

  lemma AroundFirstHit(r: Rule, s: string, a: string, p: Phrase, rest: string)
    requires ProperRule(r) && Splits(r, s, a, p, rest)
    ensures Closed(a) && Fresh(rest)
    ensures Tokens(s) == Tokens(a) + (Tokens(TextOf(p)) + Tokens(rest))
  {
    AroundHit(s, Start(r, s), TextOf(p));
  }

  lemma AfterReplace(r: Rule, s: string, a: string, p: Phrase, rest: string)
    requires ProperRule(r) && Splits(r, s, a, p, rest)
    ensures Tokens(Replace(r, s)) == Tokens(a) + (Tokens(r.instead) + Tokens(Replace(r, rest)))
  {
    AroundFirstHit(r, s, a, p, rest);
    StartKept(r, rest);
    TokensOfThree(a, r.instead, Replace(r, rest));
  }

  lemma InThreeParts(w: string, a: seq<string>, b: seq<string>, c: seq<string>)
    ensures Times(w, a + (b + c)) == Times(w, a) + Times(w, b) + Times(w, c)
  {
  }

  // For every word: what it had, and what the replacements bring, is what it
  // has and what the phrases replaced took away.
  lemma {:induction false} ReplaceConserves(r: Rule, s: string, w: string)
    requires ProperRule(r)
    ensures Times(w, Tokens(Replace(r, s))) + Within(w, Replaced(r, s))
         == Times(w, Tokens(s)) + Gained(w, Replaced(r, s), r.instead)
    decreases |s|
  {
    if Start(r, s) < |s| {
      var a, p, rest := s[..Start(r, s)], Hit(r, s), Rest(r, s);
      ReplaceConserves(r, rest, w);
      AroundFirstHit(r, s, a, p, rest);
      AfterReplace(r, s, a, p, rest);
      InThreeParts(w, Tokens(a), Tokens(TextOf(p)), Tokens(rest));
      InThreeParts(w, Tokens(a), Tokens(r.instead), Tokens(Replace(r, rest)));
    }
  }

  lemma {:induction false} TokensOfWord(w: LowerWord)
    ensures Tokens(w) == [w]
  {
    assert Tokens("") == [];
    if |w| > 1 {
      TokensOfWord(w[1..]);
      assert [w[0]] + w[1..] == w;
    } else {
      assert w[1..] == "" && w == [w[0]];
    }
  }

  lemma {:induction false} TokensOfSpaced(ws: seq<LowerWord>)
    ensures Tokens(Spaced(ws)) == ws
  {
    if ws != [] {
      TokensOfWord(ws[0]);
      if |ws| == 1 {
        assert ws == [ws[0]];
      } else {
        var rest := Spaced(ws[1..]);
        TokensOfSpaced(ws[1..]);
        assert (" " + rest)[1..] == rest;
        Assoc(ws[0], " ", rest);
        TokensApart(ws[0], " " + rest);
        assert [ws[0]] + ws[1..] == ws;
      }
    }
  }

  // A phrase holds its words and no others.
  lemma PhraseTokens(p: Phrase)
    requires Proper(p)
    ensures Tokens(TextOf(p)) == p.words + p.more
  {
    TokensOfSpaced(p.words);
    TokensOfSpaced(p.more);
    if p.more != [] {
      var more := Spaced(p.more);
      assert ("'" + more)[1..] == more;
      TokensApart(Spaced(p.words), "'" + more);
    } else {
      NothingBehind(Spaced(p.words));
      NothingBehind(p.words);
    }
  }

  predicate Lack(ps: seq<Phrase>, w: string) {
    forall i :: 0 <= i < |ps| ==> w !in ps[i].words && w !in ps[i].more
  }

  predicate AllProper(ps: seq<Phrase>) {
    forall i :: 0 <= i < |ps| ==> Proper(ps[i])
  }

  lemma {:induction false} WithinZeroIff(w: string, ps: seq<Phrase>)
    requires AllProper(ps)
    ensures Within(w, ps) == 0 <==> Lack(ps, w)
  {
    if ps != [] {
      WithinZeroIff(w, ps[1..]);
      NotInPhrase(w, ps[0]);
      LackStep(ps, w);
    }
  }

  lemma NotInPhrase(w: string, p: Phrase)
    requires Proper(p)
    ensures Times(w, Tokens(TextOf(p))) == 0 <==> w !in p.words && w !in p.more
  {
    PhraseTokens(p);
  }

  lemma LackStep(ps: seq<Phrase>, w: string)
    requires ps != []
    ensures Lack(ps, w) <==> w !in ps[0].words && w !in ps[0].more && Lack(ps[1..], w)
  {
    assert forall i :: 0 < i < |ps| ==> ps[i] == ps[1..][i - 1];
  }

  lemma {:induction false} ReplacedAreAlternatives(r: Rule, s: string, w: string)
    requires ProperRule(r)
    ensures AllProper(Replaced(r, s))
    ensures Lack(r.phrases, w) ==> Lack(Replaced(r, s), w)
    decreases |s|
  {
    if Start(r, s) < |s| {
      ReplacedAreAlternatives(r, Rest(r, s), w);
      AlternativeInFront(r.phrases, Hit(r, s), Replaced(r, Rest(r, s)), w);
    }
  }

  lemma AlternativeInFront(ps: seq<Phrase>, p: Phrase, qs: seq<Phrase>, w: string)
    requires p in ps && Proper(p) && AllProper(qs) && (Lack(ps, w) ==> Lack(qs, w))
    ensures AllProper([p] + qs) && (Lack(ps, w) ==> Lack([p] + qs, w))
  {
  }

  // --- one table, pattern after pattern -------------------------------------

  predicate ProperRules(rs: seq<Rule>) {
    forall i :: 0 <= i < |rs| ==> ProperRule(rs[i])
  }

  function Passes(rs: seq<Rule>, s: string): string
    requires ProperRules(rs)
  {
    if rs == [] then s else Passes(rs[1..], Replace(rs[0], s))
  }

  method ReplaceAll(rs: seq<Rule>, line: string) returns (out: string)
    requires ProperRules(rs)
    ensures out == Passes(rs, line)
  {
    out := line;
    var i := 0;
    while i < |rs|
      invariant 0 <= i <= |rs|
      invariant Passes(rs[i..], out) == Passes(rs, line)
    {
      assert rs[i..][1..] == rs[i + 1..];
      out := Replace(rs[i], out);
      i := i + 1;
    }
  }

  // All the phrases replaced on the way.
  function Removed(rs: seq<Rule>, s: string): seq<Phrase>
    requires ProperRules(rs)
  {
    if rs == [] then [] else Replaced(rs[0], s) + Removed(rs[1..], Replace(rs[0], s))
  }

  function Brought(w: string, rs: seq<Rule>, s: string): nat
    requires ProperRules(rs)
  {
    if rs == [] then 0
    else Gained(w, Replaced(rs[0], s), rs[0].instead) + Brought(w, rs[1..], Replace(rs[0], s))
  }

  lemma {:induction false} WithinAppend(w: string, ps: seq<Phrase>, qs: seq<Phrase>)
    ensures Within(w, ps + qs) == Within(w, ps) + Within(w, qs)
  {
    if ps == [] {
      NothingInFront(qs);
    } else {
      HeadTail(ps, qs);
      WithinAppend(w, ps[1..], qs);
    }
  }

  lemma {:induction false} PassesConserve(rs: seq<Rule>, s: string, w: string)
    requires ProperRules(rs)
    ensures Times(w, Tokens(Passes(rs, s))) + Within(w, Removed(rs, s)) == Times(w, Tokens(s)) + Brought(w, rs, s)
  {
    if rs != [] {
      ReplaceConserves(rs[0], s, w);
      PassesConserve(rs[1..], Replace(rs[0], s), w);
      WithinAppend(w, Replaced(rs[0], s), Removed(rs[1..], Replace(rs[0], s)));
    }
  }

  // No pattern of the table has the word.
  ghost predicate AllLack(rs: seq<Rule>, w: string) {
    forall i :: 0 <= i < |rs| ==> Lack(rs[i].phrases, w)
  }

  lemma {:induction false} RemovedAreAlternatives(rs: seq<Rule>, s: string, w: string)
    requires ProperRules(rs)
    ensures AllProper(Removed(rs, s))
    ensures AllLack(rs, w) ==> Lack(Removed(rs, s), w)
  {
    if rs != [] {
      ReplacedAreAlternatives(rs[0], s, w);
      RemovedAreAlternatives(rs[1..], Replace(rs[0], s), w);
    }
  }

  ghost predicate Erases(rs: seq<Rule>) {
    forall i :: 0 <= i < |rs| ==> rs[i].instead == ""
  }

  lemma {:induction false} NothingBrought(w: string, rs: seq<Rule>, s: string)
    requires ProperRules(rs) && Erases(rs)
    ensures Brought(w, rs, s) == 0
  {
    if rs != [] {
      NothingGained(w, Replaced(rs[0], s));
      NothingBrought(w, rs[1..], Replace(rs[0], s));
    }
  }

  lemma {:induction false} NothingGained(w: string, ps: seq<Phrase>)
    ensures Gained(w, ps, "") == 0
  {
    if ps != [] {
      NothingGained(w, ps[1..]);
    }
  }

  // A table that only erases leaves a word as often as it was if and only if no
  // phrase it removed on the way holds that word.
  lemma ErasedKeepsIff(rs: seq<Rule>, s: string, w: string)
    requires ProperRules(rs) && Erases(rs)
    ensures Times(w, Tokens(Passes(rs, s))) == Times(w, Tokens(s)) <==> Lack(Removed(rs, s), w)
    ensures Times(w, Tokens(Passes(rs, s))) <= Times(w, Tokens(s))
  {
    PassesConserve(rs, s, w);
    NothingBrought(w, rs, s);
    RemovedAreAlternatives(rs, s, w);
    WithinZeroIff(w, Removed(rs, s));
  }

  // No table takes away a word that none of its patterns has.
  lemma TableSpares(rs: seq<Rule>, s: string, w: string)
    requires ProperRules(rs) && AllLack(rs, w)
    ensures Times(w, Tokens(Passes(rs, s))) >= Times(w, Tokens(s))
  {
    PassesConserve(rs, s, w);
    RemovedAreAlternatives(rs, s, w);
    WithinZeroIff(w, Removed(rs, s));
  }

  lemma {:induction false} SpacedIsLower(ws: seq<LowerWord>)
    ensures forall i :: 0 <= i < |Spaced(ws)| ==> !IsUpper(Spaced(ws)[i])
  {
    if ws != [] {
      assert IsLowerWord(ws[0]);
      if |ws| > 1 {
        SpacedIsLower(ws[1..]);
        assert Spaced(ws) == (ws[0] + " ") + Spaced(ws[1..]);
      }
    }
  }

  // --- phrases that stand in a text -----------------------------------------

  // The phrase stands somewhere in the text, between word boundaries.
  ghost predicate Stands(q: Phrase, s: string) {
    exists i: nat :: HitAt(s, i, TextOf(q))
  }

  // No two characters side by side are both outside words.
  predicate Tight(s: string) {
    forall i :: 0 <= i < |s| - 1 ==> IsWordChar(s[i]) || IsWordChar(s[i + 1])
  }

  lemma TightJoin(a: string, c: char, b: string)
    requires Tight(a) && Tight(b) && a != "" && b != "" && IsWordChar(a[|a| - 1]) && IsWordChar(b[0])
    ensures Tight(a + ([c] + b))
  {
    var s := a + ([c] + b);
    forall i | 0 <= i < |s| - 1 ensures IsWordChar(s[i]) || IsWordChar(s[i + 1]) {
      if i < |a| - 1 {
        assert s[i] == a[i] && s[i + 1] == a[i + 1];
      } else if i > |a| {
        assert s[i] == b[i - |a| - 1] && s[i + 1] == b[i - |a|];
      }
    }
  }

  lemma {:induction false} SpacedIsTight(ws: seq<LowerWord>)
    requires ws != []
    ensures Tight(Spaced(ws))
  {
    assert IsLowerWord(ws[0]);
    if |ws| > 1 {
      SpacedIsTight(ws[1..]);
      SpacedEndsInWord(ws[1..]);
      TightJoin(ws[0], ' ', Spaced(ws[1..]));
      Assoc(ws[0], " ", Spaced(ws[1..]));
    }
  }

  lemma PhraseIsTight(p: Phrase)
    requires Proper(p)
    ensures Tight(TextOf(p)) && IsWordChar(TextOf(p)[|TextOf(p)| - 1])
  {
    SpacedIsTight(p.words);
    SpacedEndsInWord(p.words);
    if p.more != [] {
      SpacedIsTight(p.more);
      SpacedEndsInWord(p.more);
      TightJoin(Spaced(p.words), '\'', Spaced(p.more));
    } else {
      NothingBehind(Spaced(p.words));
    }
  }

  // --- hits on either side of a seam ----------------------------------------

  lemma HitLetters(s: string, i: nat, p: string, k: nat)
    requires HitAt(s, i, p) && k < |p|
    ensures ToLower(s[i + k]) == p[k] && (IsWordChar(s[i + k]) <==> IsWordChar(p[k]))
  {
    assert s[i..i + |p|][k] == s[i + k];
  }

  // A seam inside a hit has a word on one side at least.
  lemma SeamInHit(a: string, b: string, i: nat, q: Phrase)
    requires Proper(q) && HitAt(a + b, i, TextOf(q)) && i < |a| < i + |TextOf(q)|
    ensures b != "" && (IsWordChar(a[|a| - 1]) || IsWordChar(b[0]))
  {
    var s, t, k := a + b, TextOf(q), |a| - i;
    PhraseIsTight(q);
    HitLetters(s, i, t, k - 1);
    HitLetters(s, i, t, k);
    assert s[|a| - 1] == a[|a| - 1] && s[|a|] == b[0];
    assert IsWordChar(t[k - 1]) || IsWordChar(t[k]);
  }

  // No hit crosses a seam that has no word on either side.
  lemma NoHitAcross(a: string, b: string, i: nat, q: Phrase)
    requires Closed(a) && Fresh(b) && Proper(q) && HitAt(a + b, i, TextOf(q))
    ensures i + |TextOf(q)| <= |a| || i >= |a|
  {
    if i < |a| < i + |TextOf(q)| {
      SeamInHit(a, b, i, q);
    }
  }

  lemma HitInFront(a: string, b: string, i: nat, p: string)
    requires i + |p| <= |a| && Fresh(b)
    ensures HitAt(a + b, i, p) <==> HitAt(a, i, p)
  {
    assert (a + b)[i..i + |p|] == a[i..i + |p|];
  }

  lemma HitBehind(a: string, b: string, i: nat, p: string)
    requires Closed(a)
    ensures HitAt(a + b, |a| + i, p) <==> HitAt(b, i, p)
  {
    if i + |p| <= |b| {
      assert (a + b)[|a| + i..|a| + i + |p|] == b[i..i + |p|];
    }
  }

  // What stands in a + b stands in a or in b.
  lemma StandsApart(a: string, b: string, q: Phrase)
    requires Closed(a) && Fresh(b) && Proper(q)
    ensures Stands(q, a + b) <==> Stands(q, a) || Stands(q, b)
  {
    if Stands(q, a + b) {
      StandsOnASide(a, b, q);
    }
    if Stands(q, a) || Stands(q, b) {
      StandsInBoth(a, b, q);
    }
  }

  lemma StandsOnASide(a: string, b: string, q: Phrase)
    requires Closed(a) && Fresh(b) && Proper(q) && Stands(q, a + b)
    ensures Stands(q, a) || Stands(q, b)
  {
    var t := TextOf(q);
    var i: nat :| HitAt(a + b, i, t);
    NoHitAcross(a, b, i, q);
    if i + |t| <= |a| {
      HitInFront(a, b, i, t);
    } else {
      HitBehind(a, b, i - |a|, t);
      assert HitAt(b, i - |a|, t);
    }
  }

  lemma StandsInBoth(a: string, b: string, q: Phrase)
    requires Closed(a) && Fresh(b) && Proper(q) && (Stands(q, a) || Stands(q, b))
    ensures Stands(q, a + b)
  {
    var t := TextOf(q);
    if i: nat :| HitAt(a, i, t) {
      HitInFront(a, b, i, t);
    } else {
      var i: nat :| HitAt(b, i, t);
      HitBehind(a, b, i, t);
      assert HitAt(a + b, |a| + i, t);
    }
  }

  // --- hits that overlap ----------------------------------------------------

  function WordsOf(p: Phrase): seq<string> { p.words + p.more }

  // One list goes on as the other does, as far as both go.
  predicate Agree(x: seq<string>, y: seq<string>) { x <= y || y <= x }

  // Some end of p agrees with q.
  ghost predicate Meets(p: seq<string>, q: seq<string>) {
    exists u :: 0 <= u < |p| && Agree(p[u..], q)
  }

  ghost predicate Clash(p: Phrase, q: Phrase) {
    Meets(WordsOf(p), WordsOf(q)) || Meets(WordsOf(q), WordsOf(p))
  }

  // What stands at the front of a text, up to a boundary, are its first words.
  lemma FrontWords(s: string, p: string)
    requires HitAt(s, 0, p)
    ensures Tokens(p) <= Tokens(s)
  {
    if p == "" {
      assert Tokens(p) == [];
    } else {
      AroundHit(s, 0, p);
      assert s[..0] == "";
      NothingInFront(Tokens(p) + Tokens(s[|p|..]));
    }
  }

  lemma PrefixesAgree(x: seq<string>, y: seq<string>, z: seq<string>)
    requires x <= z && y <= z
    ensures Agree(x, y)
  {
  }

  // A hit of p that starts at i, and one of q that starts inside it.
  lemma OverlapMeets(s: string, i: nat, p: Phrase, j: nat, q: Phrase)
    requires Proper(p) && Proper(q) && HitAt(s, i, TextOf(p)) && HitAt(s, j, TextOf(q))
    requires i <= j < i + |TextOf(p)|
    ensures Meets(WordsOf(p), WordsOf(q))
  {
    var u := j - i;
    HitStarts(s, j, q);
    RestOfPhrase(s, i, p, u);
    var n :| 0 <= n < |WordsOf(p)| && Tokens(TextOf(p)[u..]) == WordsOf(p)[n..];
    HitFromHere(s, i, TextOf(p), u);
    FrontWords(s[j..], TextOf(p)[u..]);
    HitInFrontWords(s, j, q);
    PrefixesAgree(WordsOf(p)[n..], WordsOf(q), Tokens(s[j..]));
  }

  // What hits at j are the first words from there on.
  lemma HitInFrontWords(s: string, j: nat, q: Phrase)
    requires Proper(q) && HitAt(s, j, TextOf(q))
    ensures WordsOf(q) <= Tokens(s[j..])
  {
    PhraseTokens(q);
    PhraseStarts(q);
    HitFromHere(s, j, TextOf(q), 0);
    assert TextOf(q)[0..] == TextOf(q);
    FrontWords(s[j..], TextOf(q));
  }

  // From a word of the phrase on stand its last words.
  lemma RestOfPhrase(s: string, i: nat, p: Phrase, u: nat)
    requires Proper(p) && HitAt(s, i, TextOf(p)) && u < |TextOf(p)|
    requires IsWordChar(s[i + u]) && (i + u == 0 || !IsWordChar(s[i + u - 1]))
    ensures exists n :: 0 <= n < |WordsOf(p)| && Tokens(TextOf(p)[u..]) == WordsOf(p)[n..]
  {
    var t := TextOf(p);
    var x, y := t[..u], t[u..];
    HitLetters(s, i, t, u);
    if u > 0 {
      HitLetters(s, i, t, u - 1);
    }
    assert t == x + y;
    TokensApart(x, y);
    PhraseTokens(p);
    assert Tokens(y) != [];
    assert WordsOf(p)[|Tokens(x)|..] == Tokens(y);
  }

  // The rest of a hit, seen from where the rest starts.
  lemma HitFromHere(s: string, i: nat, p: string, u: nat)
    requires HitAt(s, i, p) && u < |p|
    requires u > 0 ==> !IsWordChar(s[i + u - 1])
    ensures HitAt(s[i + u..], 0, p[u..])
  {
    var t, y := s[i + u..], p[u..];
    forall k | 0 <= k < |y| ensures ToLower(t[k]) == y[k] {
      HitLetters(s, i, p, u + k);
    }
    assert t[0..|y|] == t[..|y|];
  }

  // --- erasing and what stands ----------------------------------------------

  predicate Disjoint(i: nat, m: nat, j: nat, n: nat) { j + n <= i || i + m <= j }

  // A hit that does not clash with the first match lies before or behind it.
  lemma BesideHit(r: Rule, s: string, j: nat, q: Phrase)
    requires ProperRule(r) && Start(r, s) < |s| && Proper(q) && HitAt(s, j, TextOf(q))
    requires !Clash(Hit(r, s), q)
    ensures Disjoint(Start(r, s), |TextOf(Hit(r, s))|, j, |TextOf(q)|)
  {
    var i, p := Start(r, s), Hit(r, s);
    if i <= j < i + |TextOf(p)| {
      OverlapMeets(s, i, p, j, q);
    } else if j <= i < j + |TextOf(q)| {
      OverlapMeets(s, j, q, i, p);
    }
  }

  // What stands on either side of the first match stands in the text.
  lemma StandsBeside(r: Rule, s: string, q: Phrase)
    requires ProperRule(r) && Start(r, s) < |s| && Proper(q)
    requires Stands(q, s[..Start(r, s)]) || Stands(q, Rest(r, s))
    ensures Stands(q, s)
  {
    var i, k := Start(r, s), Start(r, s) + |TextOf(Hit(r, s))|;
    AroundFirstHit(r, s, s[..i], Hit(r, s), Rest(r, s));
    if Stands(q, s[..i]) {
      StandsInFrontOf(s, i, q);
    } else {
      StandsBehind(s, k, q);
    }
  }

  lemma StandsInFrontOf(s: string, i: nat, q: Phrase)
    requires i <= |s| && Closed(s[..i]) && Proper(q) && Stands(q, s[..i])
    ensures Stands(q, s)
  {
    var j: nat :| HitAt(s[..i], j, TextOf(q));
    PhraseStarts(q);
    PhraseIsTight(q);
    InnerHit(s, j, TextOf(q), i);
    assert HitAt(s, j, TextOf(q));
  }

  lemma StandsBehind(s: string, k: nat, q: Phrase)
    requires k <= |s| && Fresh(s[k..]) && Proper(q) && Stands(q, s[k..])
    ensures Stands(q, s)
  {
    var j: nat :| HitAt(s[k..], j, TextOf(q));
    PhraseStarts(q);
    OuterHit(s, j, TextOf(q), k);
    assert HitAt(s, k + j, TextOf(q));
  }

  // And the other way round, if it does not clash with that match.
  lemma StandsAside(r: Rule, s: string, q: Phrase)
    requires ProperRule(r) && Start(r, s) < |s| && Proper(q)
    requires Stands(q, s) && !Clash(Hit(r, s), q)
    ensures Stands(q, s[..Start(r, s)]) || Stands(q, Rest(r, s))
  {
    var i, k := Start(r, s), Start(r, s) + |TextOf(Hit(r, s))|;
    var j: nat :| HitAt(s, j, TextOf(q));
    BesideHit(r, s, j, q);
    AroundFirstHit(r, s, s[..i], Hit(r, s), Rest(r, s));
    assert Rest(r, s) == s[k..];
    AsideAt(s, i, k, j, q);
  }

  lemma AsideAt(s: string, i: nat, k: nat, j: nat, q: Phrase)
    requires i <= k <= |s| && Closed(s[..i]) && Fresh(s[k..]) && Proper(q)
    requires HitAt(s, j, TextOf(q)) && (j + |TextOf(q)| <= i || k <= j)
    ensures Stands(q, s[..i]) || Stands(q, s[k..])
  {
    var t := TextOf(q);
    PhraseStarts(q);
    PhraseIsTight(q);
    if j + |t| <= i {
      InnerHit(s, j, t, i);
      assert HitAt(s[..i], j, t);
    } else {
      OuterHit(s, j - k, t, k);
      assert HitAt(s[k..], j - k, t);
    }
  }

  // Hits before a place where a word starts, and behind one where none goes on.
  lemma InnerHit(s: string, j: nat, t: string, i: nat)
    requires i <= |s| && j + |t| <= i && t != "" && Closed(s[..i]) && IsWordChar(t[|t| - 1])
    ensures HitAt(s[..i], j, t) <==> HitAt(s, j, t)
  {
    assert s[..i][j..j + |t|] == s[j..j + |t|];
    if HitAt(s[..i], j, t) && j + |t| == i {
      HitLetters(s[..i], j, t, |t| - 1);
      assert false;
    }
  }

  lemma OuterHit(s: string, j: nat, t: string, k: nat)
    requires k <= |s| && t != "" && Fresh(s[k..]) && IsWordChar(t[0])
    ensures HitAt(s[k..], j, t) <==> HitAt(s, k + j, t)
  {
    if k + j + |t| <= |s| {
      assert s[k..][j..j + |t|] == s[k + j..k + j + |t|];
    }
    if HitAt(s[k..], j, t) {
      HitLetters(s[k..], j, t, 0);
    }
    if HitAt(s, k + j, t) {
      HitLetters(s, k + j, t, 0);
    }
  }

  // A rule that only erases makes no phrase stand that did not.
  lemma {:induction false} ErasingMakesNone(r: Rule, s: string, q: Phrase)
    requires ProperRule(r) && r.instead == "" && Proper(q)
    ensures Stands(q, Replace(r, s)) ==> Stands(q, s)
    decreases |s|
  {
    if Start(r, s) < |s| && Stands(q, Replace(r, s)) {
      ErasingMakesNone(r, Rest(r, s), q);
      StandsAfter(r, s, q);
      StandsBeside(r, s, q);
    }
  }

  lemma StandsAfter(r: Rule, s: string, q: Phrase)
    requires ProperRule(r) && r.instead == "" && Proper(q) && Start(r, s) < |s|
    ensures Stands(q, Replace(r, s)) <==> Stands(q, s[..Start(r, s)]) || Stands(q, Replace(r, Rest(r, s)))
  {
    var a, rest := s[..Start(r, s)], Rest(r, s);
    AroundFirstHit(r, s, a, Hit(r, s), rest);
    StartKept(r, rest);
    NothingInFront(Replace(r, rest));
    StandsApart(a, Replace(r, rest), q);
  }

  // No alternative of the rule clashes with q.
  ghost predicate Clear(r: Rule, q: Phrase) {
    forall i :: 0 <= i < |r.phrases| ==> !Clash(r.phrases[i], q)
  }

  // And it leaves every phrase standing that clashes with none of its own.
  lemma {:induction false} ErasingKeeps(r: Rule, s: string, q: Phrase)
    requires ProperRule(r) && r.instead == "" && Proper(q) && Clear(r, q) && Stands(q, s)
    ensures Stands(q, Replace(r, s))
    decreases |s|
  {
    if Start(r, s) < |s| {
      StandsAside(r, s, q);
      if Stands(q, Rest(r, s)) {
        ErasingKeeps(r, Rest(r, s), q);
      }
      StandsAfter(r, s, q);
    }
  }

  // q clashes with no other alternative of its rule.
  ghost predicate ClearBut(r: Rule, q: Phrase) {
    forall i :: 0 <= i < |r.phrases| && r.phrases[i] != q ==> !Clash(r.phrases[i], q)
  }

  // An alternative that stands is replaced, if no other clashes with it.
  lemma {:induction false} StandingIsReplaced(r: Rule, s: string, q: Phrase)
    requires ProperRule(r) && q in r.phrases && ClearBut(r, q) && Stands(q, s)
    ensures q in Replaced(r, s)
    decreases |s|
  {
    SomethingHits(r, s, q);
    if Hit(r, s) != q {
      StandsAside(r, s, q);
      NotBeforeStart(r, s, q);
      StandingIsReplaced(r, Rest(r, s), q);
    }
  }

  lemma AlternativeFound(ps: seq<Phrase>, s: string, i: nat, q: Phrase)
    requires q in ps && HitAt(s, i, TextOf(q))
    ensures Alternative(ps, s, i) < |ps|
  {
    var k :| 0 <= k < |ps| && ps[k] == q;
  }

  lemma SomethingHits(r: Rule, s: string, q: Phrase)
    requires ProperRule(r) && q in r.phrases && Stands(q, s)
    ensures Start(r, s) < |s|
  {
    var j: nat :| HitAt(s, j, TextOf(q));
    HitStarts(s, j, q);
    AlternativeFound(r.phrases, s, j, q);
  }

  lemma NotBeforeStart(r: Rule, s: string, q: Phrase)
    requires ProperRule(r) && q in r.phrases && Start(r, s) < |s|
    ensures !Stands(q, s[..Start(r, s)])
  {
    var i, t := Start(r, s), TextOf(q);
    AroundFirstHit(r, s, s[..i], Hit(r, s), Rest(r, s));
    PhraseStarts(q);
    PhraseIsTight(q);
    forall j: nat ensures !HitAt(s[..i], j, t) {
      if j + |t| <= i {
        InnerHit(s, j, t, i);
        if HitAt(s, j, t) {
          AlternativeFound(r.phrases, s, j, q);
        }
      }
    }
  }

  // What is replaced stands.
  lemma {:induction false} ReplacedStands(r: Rule, s: string, q: Phrase)
    requires ProperRule(r) && q in Replaced(r, s)
    ensures Stands(q, s) && q in r.phrases && Proper(q)
    decreases |s|
  {
    if q != Hit(r, s) {
      ReplacedStands(r, Rest(r, s), q);
      StandsBeside(r, s, q);
    }
  }

  // --- a whole table, seen from the text it is given ------------------------

  // q is an alternative of some pattern, and neither the patterns before that
  // one nor its other alternatives can clash with it.
  ghost predicate Reached(rs: seq<Rule>, q: Phrase) {
    rs != []
    && ((q in rs[0].phrases && ClearBut(rs[0], q)) || (Clear(rs[0], q) && Reached(rs[1..], q)))
  }

  lemma {:induction false} ReachedIsRemoved(rs: seq<Rule>, s: string, q: Phrase)
    requires ProperRules(rs) && Erases(rs) && Proper(q) && Stands(q, s) && Reached(rs, q)
    ensures q in Removed(rs, s)
  {
    if q in rs[0].phrases && ClearBut(rs[0], q) {
      StandingIsReplaced(rs[0], s, q);
    } else {
      ErasingKeeps(rs[0], s, q);
      ReachedIsRemoved(rs[1..], Replace(rs[0], s), q);
    }
  }

  lemma ReachedHere(r: Rule, more: seq<Rule>, q: Phrase)
    requires q in r.phrases && ClearBut(r, q)
    ensures Reached([r] + more, q)
  {
  }

  lemma ReachedBehind(r: Rule, more: seq<Rule>, q: Phrase)
    requires Clear(r, q) && Reached(more, q)
    ensures Reached([r] + more, q)
  {
    assert ([r] + more)[1..] == more;
  }

  lemma {:induction false} RemovedStood(rs: seq<Rule>, s: string, q: Phrase)
    requires ProperRules(rs) && Erases(rs) && q in Removed(rs, s)
    ensures Stands(q, s) && Proper(q) && exists k :: 0 <= k < |rs| && q in rs[k].phrases
  {
    if q in Replaced(rs[0], s) {
      ReplacedStands(rs[0], s, q);
    } else {
      RemovedStood(rs[1..], Replace(rs[0], s), q);
      var k :| 0 <= k < |rs[1..]| && q in rs[1..][k].phrases;
      assert q in rs[k + 1].phrases;
      ErasingMakesNone(rs[0], s, q);
    }
  }

  // Only the phrases of `losers` have the word, and each of them is reached.
  ghost predicate Losers(rs: seq<Rule>, losers: seq<Phrase>, w: string) {
    && (forall q :: q in losers ==> Proper(q) && Reached(rs, q))
    && (forall k, i :: 0 <= k < |rs| && 0 <= i < |rs[k].phrases| && w in WordsOf(rs[k].phrases[i]) ==>
          rs[k].phrases[i] in losers)
  }

  // A table that only erases keeps a word's number if and only if no phrase with
  // that word stands in the text the table is given.
  lemma TableKeepsIff(rs: seq<Rule>, losers: seq<Phrase>, s: string, w: string)
    requires ProperRules(rs) && Erases(rs) && Losers(rs, losers, w)
    ensures Times(w, Tokens(Passes(rs, s))) == Times(w, Tokens(s))
       <==> forall q :: q in losers && w in WordsOf(q) ==> !Stands(q, s)
    ensures Times(w, Tokens(Passes(rs, s))) <= Times(w, Tokens(s))
  {
    ErasedKeepsIff(rs, s, w);
    if !Lack(Removed(rs, s), w) {
      var i :| 0 <= i < |Removed(rs, s)| && (w in Removed(rs, s)[i].words || w in Removed(rs, s)[i].more);
      RemovedStood(rs, s, Removed(rs, s)[i]);
      assert Removed(rs, s)[i] in losers && w in WordsOf(Removed(rs, s)[i]);
    }
    if Lack(Removed(rs, s), w) {
      forall q | q in losers && w in WordsOf(q) ensures !Stands(q, s) {
        if Stands(q, s) {
          ReachedIsRemoved(rs, s, q);
        }
      }
    }
  }

  // --- a phrase put between two texts ---------------------------------------

  lemma HitHasWords(s: string, i: nat, p: Phrase, w: string)
    requires Proper(p) && HitAt(s, i, TextOf(p)) && w in p.words
    ensures w in Tokens(s)
  {
    PhraseStarts(p);
    AroundHit(s, i, TextOf(p));
    PhraseTokens(p);
  }

  // What stands in a text stands among its words.
  lemma StandsAsWords(q: Phrase, s: string) returns (n: nat)
    requires Proper(q) && Stands(q, s)
    ensures n + |WordsOf(q)| <= |Tokens(s)|
    ensures forall k :: 0 <= k < |WordsOf(q)| ==> Tokens(s)[n + k] == WordsOf(q)[k]
  {
    var i: nat :| HitAt(s, i, TextOf(q));
    PhraseStarts(q);
    PhraseTokens(q);
    n := HitAsWords(s, i, TextOf(q), WordsOf(q));
  }

  lemma HitAsWords(s: string, i: nat, t: string, ws: seq<string>) returns (n: nat)
    requires HitAt(s, i, t) && t != "" && Tokens(t) == ws
    ensures n + |ws| <= |Tokens(s)| && forall k :: 0 <= k < |ws| ==> Tokens(s)[n + k] == ws[k]
  {
    AroundHit(s, i, t);
    n := |Tokens(s[..i])|;
    InTheMiddle(Tokens(s), Tokens(s[..i]), ws, Tokens(s[i + |t|..]));
  }

  lemma InTheMiddle(ts: seq<string>, a: seq<string>, b: seq<string>, c: seq<string>)
    requires ts == a + (b + c)
    ensures |a| + |b| <= |ts| && forall k :: 0 <= k < |b| ==> ts[|a| + k] == b[k]
  {
  }

  lemma PhraseIsLower(p: Phrase)
    ensures forall i :: 0 <= i < |TextOf(p)| ==> !IsUpper(TextOf(p)[i])
  {
    SpacedIsLower(p.words);
    SpacedIsLower(p.more);
  }

  lemma OwnHit(p: Phrase, a: string, b: string)
    requires Proper(p) && Closed(a) && Fresh(b)
    ensures HitAt(a + (TextOf(p) + b), |a|, TextOf(p))
  {
    var s, t := a + (TextOf(p) + b), TextOf(p);
    assert s[|a|..|a| + |t|] == t;
    PhraseIsLower(p);
  }

  lemma StandsInFront(p: Phrase, b: string)
    requires Proper(p) && Fresh(b)
    ensures Stands(p, TextOf(p) + b)
  {
    OwnHit(p, "", b);
    NothingInFront(TextOf(p) + b);
  }

  // A hit that starts in front of a seam has its first word there.
  lemma FirstWordInFront(p: Phrase, a: string, b: string, k: nat)
    requires Proper(p) && Closed(a) && k < |a| && HitAt(a + b, k, TextOf(p))
    ensures p.words[0] in Tokens(a)
  {
    HitStarts(a + b, k, p);
    PhraseStarts(p);
    PhraseTokens(p);
    WordInFront(a, b, k, TextOf(p), WordsOf(p));
  }

  lemma WordInFront(a: string, b: string, k: nat, t: string, ws: seq<string>)
    requires Closed(a) && k < |a| && HitAt(a + b, k, t) && t != "" && IsWordChar((a + b)[k])
    requires Tokens(t) == ws && ws != []
    ensures ws[0] in Tokens(a)
  {
    AroundHit(a + b, k, t);
    SameFront(a, b, k);
    CutAtWord(a, k);
    TokensApart(a, b);
    SharedFirst(Tokens(a[..k]), Tokens(a[k..]), Tokens(b), ws, Tokens((a + b)[k + |t|..]));
  }

  lemma SameFront(a: string, b: string, k: nat)
    requires k < |a|
    ensures (a + b)[..k] == a[..k] && (a + b)[k] == a[k] && (k > 0 ==> (a + b)[k - 1] == a[k - 1])
  {
  }

  // Before a place where a word starts.
  lemma CutAtWord(a: string, k: nat)
    requires k < |a| && IsWordChar(a[k]) && (k == 0 || !IsWordChar(a[k - 1]))
    ensures Tokens(a) == Tokens(a[..k]) + Tokens(a[k..]) && Tokens(a[k..]) != []
  {
    assert a == a[..k] + a[k..];
    TokensApart(a[..k], a[k..]);
  }

  // What comes behind x, on both sides.
  lemma SharedFirst(x: seq<string>, y: seq<string>, v: seq<string>, w: seq<string>, z: seq<string>)
    requires (x + y) + v == x + (w + z) && w != [] && y != []
    ensures w[0] in x + y
  {
    assert ((x + y) + v)[|x|] == y[0] && (x + (w + z))[|x|] == w[0];
    assert (x + y)[|x|] == y[0];
  }

  // A phrase whose first word is nowhere else is replaced where it stands.
  lemma ReplaceOnce(p: Phrase, t: string, a: string, b: string)
    requires Proper(p) && Closed(a) && Fresh(b) && p.words[0] !in Tokens(a) && p.words[0] !in Tokens(b)
    ensures Replace(Rule([p], t), a + (TextOf(p) + b)) == a + (t + b)
  {
    var r, s := Rule([p], t), a + (TextOf(p) + b);
    StartsThere(p, t, a, b);
    NoStart(p, t, b);
    assert Rest(r, s) == b && s[..|a|] == a;
  }

  lemma StartsThere(p: Phrase, t: string, a: string, b: string)
    requires Proper(p) && Closed(a) && Fresh(b) && p.words[0] !in Tokens(a)
    ensures var r, s := Rule([p], t), a + (TextOf(p) + b); Start(r, s) == |a| < |s| && Hit(r, s) == p
  {
    var r, s := Rule([p], t), a + (TextOf(p) + b);
    OwnHit(p, a, b);
    PhraseStarts(p);
    AlternativeFound([p], s, |a|, p);
    if Start(r, s) < |a| {
      FirstWordInFront(p, a, TextOf(p) + b, Start(r, s));
    }
  }

  lemma NoStart(p: Phrase, t: string, b: string)
    requires Proper(p) && p.words[0] !in Tokens(b)
    ensures Start(Rule([p], t), b) == |b|
  {
    if Start(Rule([p], t), b) < |b| {
      HitHasWords(b, Start(Rule([p], t), b), p, p.words[0]);
    }
  }

  // --- when two phrases cannot clash ----------------------------------------

  // Neither starts with a word of the other.
  predicate Strangers(p: seq<string>, q: seq<string>) {
    p != [] && q != [] && p[0] !in q && q[0] !in p
  }

  lemma StrangersDoNotClash(p: Phrase, q: Phrase)
    requires Strangers(WordsOf(p), WordsOf(q))
    ensures !Clash(p, q) && !Clash(q, p)
  {
    StrangersMiss(WordsOf(p), WordsOf(q));
    StrangersMiss(WordsOf(q), WordsOf(p));
  }

  lemma StrangersMiss(p: seq<string>, q: seq<string>)
    requires q != [] && q[0] !in p
    ensures !Meets(p, q)
  {
    forall u | 0 <= u < |p| ensures !Agree(p[u..], q) {
      assert p[u..][0] == p[u];
    }
  }

  // From word u on, p parts from q within three words.
  predicate Parts(p: seq<string>, u: nat, q: seq<string>) {
    PartsAt(p, u, q, 0) || PartsAt(p, u, q, 1) || PartsAt(p, u, q, 2)
  }

  predicate PartsAt(p: seq<string>, u: nat, q: seq<string>, k: nat) {
    u + k < |p| && k < |q| && p[u + k] != q[k]
  }

  lemma PartingMisses(p: seq<string>, q: seq<string>)
    requires forall u :: 0 <= u < |p| ==> Parts(p, u, q)
    ensures !Meets(p, q)
  {
    forall u | 0 <= u < |p| ensures !Agree(p[u..], q) {
      assert Parts(p, u, q);
      var k := if PartsAt(p, u, q, 0) then 0 else if PartsAt(p, u, q, 1) then 1 else 2;
      assert PartsAt(p, u, q, k) && p[u..][k] == p[u + k];
    }
  }
}
