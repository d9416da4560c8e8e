// cavemanRun (src/compression/caveman.js): drops the words a model re-infers
// from one run of prose, and must never drop the ones that carry its meaning.

module Caveman {
  import opened Text

  // A Set made from a list of words.
  predicate Has(words: seq<string>, l: string) {
    words != [] && (words[0] == l || Has(words[1..], l))
  }

  const DROPPABLE := [
    "a", "an", "the",
    "is", "are", "was", "were", "be", "been", "being", "am",
    "do", "does", "did",
    "of", "to", "in", "on", "at", "by", "for", "with", "from", "as", "into",
    "that", "this", "these", "those",
    "it", "its", "there", "here",
    "very", "quite", "rather", "really", "simply", "somewhat", "fairly",
    "then", "also", "just", "so"]

  const NEGATIONS := ["not", "no", "never", "none", "nor", "cannot", "cant", "dont", "doesnt"]
  const MORE_NEGATIONS := ["didnt", "wont", "isnt", "arent", "wasnt", "werent", "shouldnt", "wouldnt"]
  const EXCEPTIONS := ["without", "except", "unless", "but", "however", "instead"]
  const CONDITIONS := ["if", "else", "when", "while", "until", "before", "after", "because"]
  const MODALS := ["must", "should", "shall", "may", "might", "can", "will", "would"]
  const QUANTIFIERS := ["only", "all", "any", "every", "each", "both", "either", "neither"]
  const CONNECTIVES := ["and", "or", "than", "vs"]

  const NEVER_DROP :=
    NEGATIONS + (MORE_NEGATIONS + (EXCEPTIONS + (CONDITIONS + (MODALS + (QUANTIFIERS + CONNECTIVES)))))

  predicate IsUpper(c: char) { 'A' <= c <= 'Z' }
  predicate IsLower(c: char) { 'a' <= c <= 'z' }
  predicate IsWordChar(c: char) { IsUpper(c) || IsLower(c) || '0' <= c <= '9' || c == '_' }
  predicate IsStop(c: char) { c == '.' || c == '!' || c == '?' || c == ',' || c == ';' || c == ':' }

  function ToLower(c: char): char {
    if IsUpper(c) then (c as int + 32) as char else c
  }

  function ToUpper(c: char): char {
    if IsLower(c) then (c as int - 32) as char else c
  }

  // stripPunctuationForLookup: word characters only, in lower case.
  function Lookup(word: string): string {
    if word == "" then "" else (if IsWordChar(word[0]) then [ToLower(word[0])] else "") + Lookup(word[1..])
  }

  predicate Dropped(word: string) {
    var l := Lookup(word);
    l != "" && Has(DROPPABLE, l) && !Has(NEVER_DROP, l)
  }

  // The stops at the end of a word.
  function Stops(word: string): (r: string)
    ensures |r| <= |word| && r == word[|word| - |r|..]
    ensures forall i :: 0 <= i < |r| ==> IsStop(r[i])
  {
    if word != "" && IsStop(word[|word| - 1]) then Stops(word[..|word| - 1]) + [word[|word| - 1]] else ""
  }

  // run.split(/(\s+)/) without its separators: empty first or last where the
  // run starts or ends with white space.
  function Words(run: string): (ws: seq<string>)
    ensures |ws| >= 1
    ensures run != "" && IsSpace(run[0]) ==> ws[0] == ""
    ensures forall i :: 0 <= i < |ws| ==> Solid(ws[i])
    ensures forall i :: 0 < i < |ws| - 1 ==> ws[i] != ""
    ensures run != "" && !IsSpace(run[0]) ==> ws[0] != ""
  {
    if run == "" then [""]
    else
      var rest := Words(run[1..]);
      if !IsSpace(run[0]) then [[run[0]] + rest[0]] + rest[1..]
      else if run[1..] != "" && IsSpace(run[1]) then rest
      else [""] + rest
  }

  predicate Solid(w: string) {
    forall i :: 0 <= i < |w| ==> !IsSpace(w[i])
  }

  // The words kept; a dropped word leaves its stops on the last one kept.
  function Keep(ws: seq<string>): seq<string> {
    if ws == [] then [] else KeepOne(Keep(ws[..|ws| - 1]), ws[|ws| - 1])
  }

  function KeepOne(kept: seq<string>, w: string): seq<string> {
    if !Dropped(w) then kept + [w]
    else if kept == [] then []
    else kept[..|kept| - 1] + [kept[|kept| - 1] + Stops(w)]
  }

  predicate Filled(w: string) { w != "" }

  function Spaced(ws: seq<string>): string {
    if ws == [] then "" else if |ws| == 1 then ws[0] else ws[0] + " " + Spaced(ws[1..])
  }

  // .replace(/\s+/g, " ").trim(): the words with single spaces between them.
  function Squash(s: string): string {
    Spaced(Filter(Filled, Words(s)))
  }

  function FirstWord(run: string): string {
    var ws := Filter(Filled, Words(run));
    if ws == [] then "" else ws[0]
  }

  predicate StartsUpper(s: string) { s != "" && IsUpper(s[0]) }

  function Recapitalise(out: string, run: string): string {
    if out != "" && IsLower(out[0]) && StartsUpper(FirstWord(run)) then [ToUpper(out[0])] + out[1..] else out
  }

  function Run(run: string): string {
    Recapitalise(Spaced(Filter(Filled, Keep(Words(run)))), run)
  }

  // --- the loop -------------------------------------------------------------

  // kept, as the source builds it: words and single spaces.
  function KeptText(kept: seq<string>, gap: bool): string {
    Spaced(kept) + (if gap then " " else "")
  }

  lemma KeepNext(words: seq<string>, i: nat)
    requires i < |words|
    ensures Keep(words[..i + 1]) == KeepOne(Keep(words[..i]), words[i])
  {
    assert words[..i + 1][..i] == words[..i];
  }

  // Stops go on the last word; none change nothing.
  lemma OnLast(kept: seq<string>, stops: string)
    requires kept != []
    ensures var last := |kept| - 1;
            kept[last := kept[last] + stops] == kept[..last] + [kept[last] + stops]
    ensures stops == "" ==> kept[..|kept| - 1] + [kept[|kept| - 1] + stops] == kept
  {
    NothingBehind(kept[|kept| - 1]);
    FrontAndLast(kept);
  }

  // `words` are the pieces of the split; between two of them stood white space.
  method CavemanRun(run: string) returns (out: string)
    ensures out == Run(run)
  {
    hide Dropped, Words, Stops, Squash, Filter, Spaced, FirstWord, ToUpper;
    var words := Words(run);
    var kept: seq<string> := [];
    var gap := false;
    var i := 0;
    while i < |words|
      invariant 0 <= i <= |words|
      invariant kept == Keep(words[..i])
      invariant gap ==> kept != []
    {
      KeepNext(words, i);
      if i > 0 && kept != [] {
        gap := true;
      }
      var part := words[i];
      if Dropped(part) {
        var trailing := Stops(part);
        if kept != [] {
          var last := |kept| - 1;
          OnLast(kept, trailing);
          if trailing != "" {
            kept := kept[last := kept[last] + trailing];
          }
        }
      } else {
        kept := kept + [part];
        gap := false;
      }
      i := i + 1;
    }
    assert words[..i] == words;
    out := Squash(KeptText(kept, gap));
    KeepSolid(words);
    SquashText(kept, gap);
    if out != "" && IsLower(out[0]) && StartsUpper(FirstWord(run)) {
      out := [ToUpper(out[0])] + out[1..];
    }
  }

  // --- words and their text -------------------------------------------------

  ghost predicate AllSolid(ws: seq<string>) {
    forall i :: 0 <= i < |ws| ==> Solid(ws[i])
  }

  lemma SolidWithStops(v: string, w: string)
    requires Solid(v) && Solid(w)
    ensures Solid(v + Stops(w))
  {
    var t := Stops(w);
    assert forall i :: 0 <= i < |t| ==> t[i] == w[|w| - |t| + i];
  }

  lemma SolidOneMore(kept: seq<string>, w: string)
    requires AllSolid(kept) && Solid(w)
    ensures AllSolid(KeepOne(kept, w))
  {
    hide Dropped, Solid;
    if kept != [] {
      SolidWithStops(kept[|kept| - 1], w);
    }
  }

  lemma {:induction false} KeepSolid(ws: seq<string>)
    requires AllSolid(ws)
    ensures AllSolid(Keep(ws))
  {
    hide KeepOne, Solid;
    if ws != [] {
      KeepSolid(ws[..|ws| - 1]);
      SolidOneMore(Keep(ws[..|ws| - 1]), ws[|ws| - 1]);
    }
  }

  lemma {:induction false} WordsOfOne(w: string)
    requires Solid(w)
    ensures Words(w) == [w]
  {
    if w != "" {
      WordsOfOne(w[1..]);
      assert [w[0]] + w[1..] == w;
    }
  }

  // A word, a space, and more: the word comes first, the rest is split as before.
  lemma {:induction false} WordsCons(w: string, rest: string)
    requires Solid(w)
    ensures Words(w + " " + rest) == [w] + (if rest != "" && IsSpace(rest[0]) then Words(rest)[1..] else Words(rest))
  {
    var s := w + " " + rest;
    if w == "" {
      assert s[0] == ' ' && s[1..] == rest;
    } else {
      assert s[0] == w[0] && s[1..] == w[1..] + " " + rest;
      WordsCons(w[1..], rest);
      assert [w[0]] + w[1..] == w;
    }
  }

  lemma BlankHeadFilled(rest: string)
    requires rest != "" && IsSpace(rest[0])
    ensures Filter(Filled, Words(rest)[1..]) == Filter(Filled, Words(rest))
  {
    var ws := Words(rest);
    assert ws[0] == "";
    NothingInFront(Filter(Filled, ws[1..]));
  }

  lemma {:induction false} FilledWords(w: string, rest: string)
    requires Solid(w)
    ensures Filter(Filled, Words(w + " " + rest)) == Filter(Filled, [w]) + Filter(Filled, Words(rest))
  {
    WordsCons(w, rest);
    var blank := rest != "" && IsSpace(rest[0]);
    var tail := if blank then Words(rest)[1..] else Words(rest);
    hide Filled, Words, Filter;
    FilterAppend(Filled, [w], tail);
    if blank {
      BlankHeadFilled(rest);
    }
  }

  lemma {:induction false} SquashSpaced(kept: seq<string>, end: string)
    requires AllSolid(kept) && kept != [] && (end == "" || end == " ")
    ensures Filter(Filled, Words(Spaced(kept) + end)) == Filter(Filled, kept)
  {
    if |kept| == 1 {
      assert kept == [kept[0]];
      if end == "" {
        assert kept[0] + "" == kept[0];
        WordsOfOne(kept[0]);
      } else {
        assert kept[0] + " " == kept[0] + " " + "";
        FilledWords(kept[0], "");
        FilterOne(Filled, "");
        assert Filter(Filled, [kept[0]]) + [] == Filter(Filled, [kept[0]]);
      }
    } else {
      assert Spaced(kept) + end == kept[0] + " " + (Spaced(kept[1..]) + end);
      FilledWords(kept[0], Spaced(kept[1..]) + end);
      SquashSpaced(kept[1..], end);
      FilterAppend(Filled, [kept[0]], kept[1..]);
      assert [kept[0]] + kept[1..] == kept;
    }
  }

  lemma SquashText(kept: seq<string>, gap: bool)
    requires AllSolid(kept) && (gap ==> kept != [])
    ensures Squash(KeptText(kept, gap)) == Spaced(Filter(Filled, kept))
  {
    if kept == [] {
      assert KeptText(kept, gap) == "";
      FilterOne(Filled, "");
    } else {
      SquashSpaced(kept, if gap then " " else "");
    }
  }

  // Words that are all there and all solid are what their text splits into.
  lemma {:induction false} WordsOfSpaced(ws: seq<string>)
    requires AllSolid(ws) && ws != [] && forall i :: 0 <= i < |ws| ==> ws[i] != ""
    ensures Words(Spaced(ws)) == ws && Spaced(ws) != "" && Spaced(ws)[0] == ws[0][0]
  {
    if |ws| == 1 {
      WordsOfOne(ws[0]);
      assert ws == [ws[0]];
    } else {
      WordsOfSpaced(ws[1..]);
      WordsCons(ws[0], Spaced(ws[1..]));
      assert Spaced(ws) == ws[0] + " " + Spaced(ws[1..]);
      assert [ws[0]] + ws[1..] == ws;
    }
  }

  // --- what is kept ---------------------------------------------------------

  lemma {:induction false} LookupAppend(a: string, b: string)
    ensures Lookup(a + b) == Lookup(a) + Lookup(b)
  {
    if a == "" {
      NothingInFront(b);
    } else {
      HeadTail(a, b);
      LookupAppend(a[1..], b);
      Assoc(if IsWordChar(a[0]) then [ToLower(a[0])] else "", Lookup(a[1..]), Lookup(b));
    }
  }

  lemma {:induction false} StopsLookNothing(s: string)
    requires forall i :: 0 <= i < |s| ==> IsStop(s[i])
    ensures Lookup(s) == ""
  {
    if s != "" {
      StopsLookNothing(s[1..]);
    }
  }

  lemma StopsInvisible(w: string, part: string)
    ensures Lookup(w + Stops(part)) == Lookup(w)
  {
    LookupAppend(w, Stops(part));
    StopsLookNothing(Stops(part));
  }

  lemma CapitalInvisible(w: string)
    requires w != ""
    ensures Lookup([ToUpper(w[0])] + w[1..]) == Lookup(w)
  {
    var v := [ToUpper(w[0])] + w[1..];
    assert v[0] == ToUpper(w[0]) && v[1..] == w[1..];
  }

  predicate Undropped(w: string) { !Dropped(w) }

  // v is the word w with stops put behind it.
  ghost predicate Stopped(w: string, v: string) {
    w <= v && forall i :: |w| <= i < |v| ==> IsStop(v[i])
  }

  // The kept word v stands for the word w of the run.
  ghost predicate StandsFor(v: string, w: string) {
    Undropped(v) && Stopped(w, v) && Lookup(v) == Lookup(w)
  }

  lemma MoreStops(v: string, w: string, part: string)
    requires StandsFor(v, w)
    ensures StandsFor(v + Stops(part), w)
  {
    StopsInvisible(v, part);
  }

  // Two lists related element by element.
  ghost predicate Pairwise(p: (string, string) -> bool, vs: seq<string>, ws: seq<string>) {
    |vs| == |ws| && forall i :: 0 <= i < |vs| ==> p(vs[i], ws[i])
  }

  lemma PairwiseMore(p: (string, string) -> bool, vs: seq<string>, ws: seq<string>, v: string, w: string)
    requires Pairwise(p, vs, ws) && p(v, w)
    ensures Pairwise(p, vs + [v], ws + [w])
  {
  }

  lemma PairwiseLast(p: (string, string) -> bool, vs: seq<string>, ws: seq<string>, v: string)
    requires Pairwise(p, vs, ws) && vs != [] && p(v, ws[|vs| - 1])
    ensures Pairwise(p, vs[..|vs| - 1] + [v], ws)
  {
  }

  // Exactly the words that are not droppable are kept, in order, each as it was
  // except for stops that dropped words left behind it.
  lemma {:induction false} KeptExactly(ws: seq<string>)
    ensures Pairwise(StandsFor, Keep(ws), Filter(Undropped, ws))
  {
    if ws != [] {
      var init, w := ws[..|ws| - 1], ws[|ws| - 1];
      KeptExactly(init);
      FilterLast(Undropped, ws);
      KeptOneMore(Keep(init), Filter(Undropped, init), w);
    }
  }

  lemma KeptOneMore(vs: seq<string>, ws: seq<string>, w: string)
    requires Pairwise(StandsFor, vs, ws)
    ensures Pairwise(StandsFor, KeepOne(vs, w), ws + if Undropped(w) then [w] else [])
  {
    if Undropped(w) {
      PairwiseMore(StandsFor, vs, ws, w, w);
    } else {
      NothingBehind(ws);
      if vs != [] {
        var n := |vs| - 1;
        MoreStops(vs[n], ws[n], w);
        PairwiseLast(StandsFor, vs, ws, vs[n] + Stops(w));
      }
    }
  }

  // What words mean: their lookups, leaving out pieces of mere punctuation.
  function Meaning(ws: seq<string>): seq<string> {
    if ws == [] then [] else (if Lookup(ws[0]) != "" then [Lookup(ws[0])] else []) + Meaning(ws[1..])
  }

  predicate Survives(l: string) {
    !Has(DROPPABLE, l) || Has(NEVER_DROP, l)
  }

  lemma {:induction false} MeaningOfUndropped(ws: seq<string>)
    ensures Meaning(Filter(Undropped, ws)) == Filter(Survives, Meaning(ws))
  {
    if ws != [] {
      MeaningOfUndropped(ws[1..]);
      var head := if Lookup(ws[0]) != "" then [Lookup(ws[0])] else [];
      FilterAppend(Survives, head, Meaning(ws[1..]));
      if head != [] {
        FilterOne(Survives, Lookup(ws[0]));
      }
      var kept := Filter(Undropped, ws);
      if !Dropped(ws[0]) {
        assert kept == [ws[0]] + Filter(Undropped, ws[1..]);
        assert kept[1..] == Filter(Undropped, ws[1..]);
      } else {
        assert kept == Filter(Undropped, ws[1..]);
      }
    }
  }

  lemma {:induction false} SameLookups(a: seq<string>, b: seq<string>)
    requires |a| == |b| && forall i :: 0 <= i < |a| ==> Lookup(a[i]) == Lookup(b[i])
    ensures Meaning(a) == Meaning(b)
  {
    if a != [] {
      SameLookups(a[1..], b[1..]);
    }
  }

  lemma {:induction false} EmptyMeansNothing(ws: seq<string>)
    ensures Meaning(Filter(Filled, ws)) == Meaning(ws)
  {
    if ws != [] {
      EmptyMeansNothing(ws[1..]);
      var kept := Filter(Filled, ws);
      if ws[0] != "" {
        assert kept == [ws[0]] + Filter(Filled, ws[1..]);
        assert kept[1..] == Filter(Filled, ws[1..]);
      } else {
        assert kept == Filter(Filled, ws[1..]);
      }
    }
  }

  // The words of the result, the first one possibly with its capital back.
  function Final(run: string): seq<string> {
    var ws := Filter(Filled, Keep(Words(run)));
    if ws != [] && ws[0] != "" && IsLower(ws[0][0]) && StartsUpper(FirstWord(run))
    then [[ToUpper(ws[0][0])] + ws[0][1..]] + ws[1..]
    else ws
  }

  predicate Good(w: string) {
    w != "" && Undropped(w) && Solid(w)
  }

  lemma FilledKept(run: string)
    ensures forall i :: 0 <= i < |Filter(Filled, Keep(Words(run)))| ==> Good(Filter(Filled, Keep(Words(run)))[i])
  {
    var kept := Keep(Words(run));
    var ws := Filter(Filled, kept);
    KeepSolid(Words(run));
    KeptExactly(Words(run));
    forall i | 0 <= i < |ws| ensures Good(ws[i]) {
      assert ws[i] in kept;
      var j :| 0 <= j < |kept| && kept[j] == ws[i];
      assert StandsFor(kept[j], Filter(Undropped, Words(run))[j]);
    }
  }

  lemma CapitalGood(w: string)
    requires Good(w)
    ensures Good([ToUpper(w[0])] + w[1..])
  {
    CapitalInvisible(w);
    var v := [ToUpper(w[0])] + w[1..];
    assert forall i :: 0 < i < |w| ==> v[i] == w[i];
  }

  lemma RunIsFinal(run: string)
    ensures Run(run) == Spaced(Final(run))
    ensures forall i :: 0 <= i < |Final(run)| ==> Good(Final(run)[i])
    ensures Meaning(Final(run)) == Meaning(Filter(Filled, Keep(Words(run))))
  {
    hide Undropped;
    var ws := Filter(Filled, Keep(Words(run)));
    FilledKept(run);
    if ws != [] {
      assert Good(ws[0]);
      WordsOfSpaced(ws);
      CapitalGood(ws[0]);
      CapitalInvisible(ws[0]);
      CapitalText(ws);
      SameLookups(Final(run), ws);
    }
  }

  lemma CapitalText(ws: seq<string>)
    requires ws != [] && ws[0] != ""
    ensures Spaced(ws) != ""
    ensures Spaced([[ToUpper(ws[0][0])] + ws[0][1..]] + ws[1..]) == [ToUpper(Spaced(ws)[0])] + Spaced(ws)[1..]
    ensures !IsSpace(ws[0][0]) ==> !IsSpace(ToUpper(ws[0][0]))
  {
    var vs := [[ToUpper(ws[0][0])] + ws[0][1..]] + ws[1..];
    assert vs[1..] == ws[1..];
  }

  // The result means exactly what the run meant without its droppable words: the
  // same lookups, in order. Nothing else goes, nothing comes in.
  lemma MeaningKept(run: string)
    ensures Meaning(Words(Run(run))) == Filter(Survives, Meaning(Words(run)))
  {
    var ws := Words(run);
    RunIsFinal(run);
    KeptMeans(ws);
    EmptyMeansNothing(Keep(ws));
    if Final(run) != [] {
      WordsOfSpaced(Final(run));
    } else {
      NoWordsMeanNothing();
    }
  }

  lemma KeptMeans(ws: seq<string>)
    ensures Meaning(Keep(ws)) == Filter(Survives, Meaning(ws))
  {
    KeptExactly(ws);
    SameLookups(Keep(ws), Filter(Undropped, ws));
    MeaningOfUndropped(ws);
  }

  lemma NoWordsMeanNothing()
    ensures Words("") == [""] && Meaning([""]) == []
  {
    assert [""][1..] == [];
  }

  // So every word that would invert, gate or scope the meaning is still there,
  // as often as it was.
  lemma NeverDropSurvives(run: string, l: string)
    requires Has(NEVER_DROP, l)
    ensures multiset(Meaning(Words(Run(run))))[l] == multiset(Meaning(Words(run)))[l]
  {
    MeaningKept(run);
    CountKept(Meaning(Words(run)), l);
  }

  lemma {:induction false} CountKept(ls: seq<string>, l: string)
    requires Survives(l)
    ensures multiset(Filter(Survives, ls))[l] == multiset(ls)[l]
  {
    if ls != [] {
      CountKept(ls[1..], l);
      assert ls == [ls[0]] + ls[1..];
      CountStep(l, ls[0], ls[1..], Filter(Survives, ls[1..]));
    }
  }

  lemma CountStep(l: string, x: string, ls: seq<string>, kept: seq<string>)
    requires Survives(l) && multiset(kept)[l] == multiset(ls)[l]
    ensures multiset(if Survives(x) then [x] + kept else kept)[l] == multiset([x] + ls)[l]
  {
  }

  // Dropping words a second time changes nothing.
  lemma RunIdempotent(run: string)
    ensures Run(Run(run)) == Run(run)
  {
    var fs := Final(run);
    var out := Run(run);
    RunIsFinal(run);
    if fs == [] {
      assert out == "" && Words("") == [""];
      assert Keep([""]) == [""] by { assert [""][..0] == []; assert Lookup("") == ""; }
      FilterOne(Filled, "");
    } else {
      WordsOfSpaced(fs);
      NothingToDrop(fs);
      AllFilled(fs);
      FirstOfFinal(run);
    }
  }

  lemma {:induction false} NothingToDrop(ws: seq<string>)
    requires forall i :: 0 <= i < |ws| ==> Undropped(ws[i])
    ensures Keep(ws) == ws
  {
    if ws != [] {
      NothingToDrop(ws[..|ws| - 1]);
      assert ws == ws[..|ws| - 1] + [ws[|ws| - 1]];
    }
  }

  lemma {:induction false} AllFilled(ws: seq<string>)
    requires forall i :: 0 <= i < |ws| ==> ws[i] != ""
    ensures Filter(Filled, ws) == ws
  {
    if ws != [] {
      AllFilled(ws[1..]);
      assert ws == [ws[0]] + ws[1..];
    }
  }

  lemma FirstOfFinal(run: string)
    requires Final(run) != []
    ensures Recapitalise(Run(run), Run(run)) == Run(run)
  {
    RunIsFinal(run);
    WordsOfSpaced(Final(run));
    AllFilled(Final(run));
  }

  lemma KeepStep(ws: seq<string>, w: string)
    ensures Keep(ws + [w]) == KeepOne(Keep(ws), w)
  {
    assert (ws + [w])[..|ws|] == ws;
  }

  // --- stops of dropped words -----------------------------------------------

  // The stops of all dropped words, in order.
  function DroppedStops(ws: seq<string>): string {
    if ws == [] then ""
    else DroppedStops(ws[..|ws| - 1]) + (if Dropped(ws[|ws| - 1]) then Stops(ws[|ws| - 1]) else "")
  }

  // What the words kept carry beyond the words they stand for.
  function Added(vs: seq<string>, ws: seq<string>): string
    requires |vs| == |ws| && forall i :: 0 <= i < |vs| ==> |ws[i]| <= |vs[i]|
  {
    if vs == [] then ""
    else
      var n := |vs| - 1;
      Added(vs[..n], ws[..n]) + vs[n][|ws[n]|..]
  }

  // The stops of dropped words before any word is kept.
  function LeadingStops(ws: seq<string>): string {
    if ws == [] then ""
    else
      var init, w := ws[..|ws| - 1], ws[|ws| - 1];
      LeadingStops(init) + (if Dropped(w) && Keep(init) == [] then Stops(w) else "")
  }

  lemma StandsAreLonger(vs: seq<string>, ws: seq<string>)
    requires Pairwise(StandsFor, vs, ws)
    ensures |vs| == |ws| && forall i :: 0 <= i < |vs| ==> |ws[i]| <= |vs[i]|
  {
    forall i | 0 <= i < |vs| ensures |ws[i]| <= |vs[i]| {
      assert StandsFor(vs[i], ws[i]);
    }
  }

  // A word kept as it is adds nothing; stops put on the last word add themselves.
  lemma AddedMore(vs: seq<string>, ws: seq<string>, v: string)
    requires |vs| == |ws| && forall i :: 0 <= i < |vs| ==> |ws[i]| <= |vs[i]|
    ensures Added(vs + [v], ws + [v]) == Added(vs, ws)
  {
    assert (vs + [v])[..|vs|] == vs && (ws + [v])[..|ws|] == ws;
    assert v[|v|..] == "";
    NothingBehind(Added(vs, ws));
  }

  lemma AddedLast(vs: seq<string>, ws: seq<string>, x: string)
    requires |vs| == |ws| > 0 && forall i :: 0 <= i < |vs| ==> |ws[i]| <= |vs[i]|
    ensures Added(vs[..|vs| - 1] + [vs[|vs| - 1] + x], ws) == Added(vs, ws) + x
  {
    var n := |vs| - 1;
    var us := vs[..n] + [vs[n] + x];
    assert us[..n] == vs[..n];
    assert us[n][|ws[n]|..] == vs[n][|ws[n]|..] + x;
    Assoc(Added(vs[..n], ws[..n]), vs[n][|ws[n]|..], x);
  }

  // One word more.
  lemma StopsStep(vs: seq<string>, ws: seq<string>, w: string)
    requires Pairwise(StandsFor, vs, ws)
    ensures var us, xs := KeepOne(vs, w), ws + if Undropped(w) then [w] else [];
            && Pairwise(StandsFor, us, xs)
            && |us| == |xs| && (forall i :: 0 <= i < |us| ==> |xs[i]| <= |us[i]|)
            && |vs| == |ws| && (forall i :: 0 <= i < |vs| ==> |ws[i]| <= |vs[i]|)
            && Added(us, xs) == Added(vs, ws) + if Dropped(w) && vs != [] then Stops(w) else ""
  {
    KeptOneMore(vs, ws, w);
    StandsAreLonger(vs, ws);
    StandsAreLonger(KeepOne(vs, w), ws + if Undropped(w) then [w] else []);
    NothingBehind(ws);
    NothingBehind(Added(vs, ws));
    if Undropped(w) {
      AddedMore(vs, ws, w);
    } else if vs != [] {
      AddedLast(vs, ws, Stops(w));
    }
  }

  // The stops of dropped words: the leading ones are gone, the others are on the
  // words kept, in order.
  lemma {:induction false} StopsSplit(ws: seq<string>)
    ensures var vs, xs := Keep(ws), Filter(Undropped, ws);
            && |vs| == |xs| && (forall i :: 0 <= i < |vs| ==> |xs[i]| <= |vs[i]|)
            && DroppedStops(ws) == LeadingStops(ws) + Added(vs, xs)
  {
    KeptExactly(ws);
    StandsAreLonger(Keep(ws), Filter(Undropped, ws));
    if ws != [] {
      var init, w := ws[..|ws| - 1], ws[|ws| - 1];
      StopsSplit(init);
      KeptExactly(init);
      FilterLast(Undropped, ws);
      StopsStep(Keep(init), Filter(Undropped, init), w);
      StopsMoved(LeadingStops(init), Added(Keep(init), Filter(Undropped, init)), if Dropped(w) then Stops(w) else "",
                 Keep(init) == []);
    }
  }

  lemma StopsMoved(lost: string, added: string, x: string, lose: bool)
    requires lose ==> added == ""
    ensures (lost + added) + x == (lost + if lose then x else "") + (added + if lose then "" else x)
  {
    if lose {
      NothingBehind(lost);
      NothingBehind(lost + x);
    } else {
      Assoc(lost, added, x);
      NothingBehind(lost);
    }
  }

  // Every element up to i satisfies p.
  ghost predicate UpTo(p: string -> bool, ws: seq<string>, i: nat)
    requires i < |ws|
  {
    forall j :: 0 <= j <= i ==> p(ws[j])
  }

  // q holds of the elements at the front that all satisfy p.
  ghost predicate Leading(p: string -> bool, q: string -> bool, ws: seq<string>) {
    forall i :: 0 <= i < |ws| && UpTo(p, ws, i) ==> q(ws[i])
  }

  lemma LeadingStep(p: string -> bool, q: string -> bool, ws: seq<string>)
    requires ws != []
    ensures var n := |ws| - 1; Leading(p, q, ws) <==> Leading(p, q, ws[..n]) && (UpTo(p, ws, n) ==> q(ws[n]))
  {
    var n := |ws| - 1;
    forall i | 0 <= i < n ensures UpTo(p, ws[..n], i) <==> UpTo(p, ws, i) {
      assert forall j :: 0 <= j <= i ==> ws[..n][j] == ws[j];
    }
    assert forall i :: 0 <= i < n ==> ws[..n][i] == ws[i];
  }

  lemma UpToStep(p: string -> bool, ws: seq<string>)
    requires ws != []
    ensures var n := |ws| - 1; UpTo(p, ws, n) <==> p(ws[n]) && (n > 0 ==> UpTo(p, ws[..n], n - 1))
  {
    var n := |ws| - 1;
    assert forall j :: 0 <= j < n ==> ws[..n][j] == ws[j];
  }

  lemma {:induction false} NothingKept(ws: seq<string>)
    requires ws != []
    ensures Keep(ws) == [] <==> UpTo(Dropped, ws, |ws| - 1)
  {
    var n := |ws| - 1;
    UpToStep(Dropped, ws);
    if n > 0 {
      NothingKept(ws[..n]);
    }
  }

  predicate NoStops(w: string) { Stops(w) == "" }

  lemma {:induction false} LeadingStopsIff(ws: seq<string>)
    ensures LeadingStops(ws) == "" <==> Leading(Dropped, NoStops, ws)
  {
    if ws != [] {
      var n := |ws| - 1;
      LeadingStopsIff(ws[..n]);
      LeadingStep(Dropped, NoStops, ws);
      UpToStep(Dropped, ws);
      if n > 0 {
        NothingKept(ws[..n]);
      }
    }
  }

  // The words kept carry every stop of every dropped word, in order, if and only
  // if no dropped word with stops comes before the first word kept.
  lemma StopsCarriedIff(ws: seq<string>)
    ensures var vs, xs := Keep(ws), Filter(Undropped, ws);
            && |vs| == |xs| && (forall i :: 0 <= i < |vs| ==> |xs[i]| <= |vs[i]|)
            && (Added(vs, xs) == DroppedStops(ws) <==> Leading(Dropped, NoStops, ws))
  {
    StopsSplit(ws);
    LeadingStopsIff(ws);
    NothingInFront(Added(Keep(ws), Filter(Undropped, ws)));
  }

  lemma KeepTwo(w: string, v: string)
    requires Dropped(w) && Undropped(v)
    ensures Keep([w, v]) == [v]
  {
    KeepStep([], w);
    assert [] + [w] == [w];
    KeepStep([w], v);
    assert [w] + [v] == [w, v];
  }

  lemma KeepThree(w: string, v: string)
    requires Dropped(w) && Undropped(v)
    ensures Keep(["", w, v]) == [Stops(w), v]
  {
    assert Lookup("") == "";
    KeepStep([], "");
    assert [] + [""] == [""];
    KeepStep([""], w);
    assert [""] + [w] == ["", w];
    assert "" + Stops(w) == Stops(w);
    KeepStep(["", w], v);
    assert ["", w] + [v] == ["", w, v];
  }

  lemma TwoWords(w: string, v: string)
    requires Solid(w) && w != "" && Solid(v) && v != ""
    ensures Words(w + " " + v) == [w, v]
    ensures Words(" " + (w + " " + v)) == ["", w, v]
  {
    WordsOfOne(v);
    WordsCons(w, v);
    var rest := w + " " + v;
    assert rest[0] == w[0];
    WordsCons("", rest);
    assert "" + " " + rest == " " + rest;
  }

  // Stops at the end of a dropped word move to the word kept before it. With
  // nothing kept yet they are gone; a leading space is enough to keep them.
  lemma FirstStopsGone(w: string, v: string)
    requires Solid(w) && Dropped(w) && Good(v)
    ensures Keep(Words(w + " " + v)) == [v]
    ensures Keep(Words(" " + (w + " " + v))) == [Stops(w), v]
  {
    assert w != "";
    TwoWords(w, v);
    KeepTwo(w, v);
    KeepThree(w, v);
  }

  // --- the capital --------------------------------------------------------------

  lemma SpaceInFront(c: char, s: string)
    requires IsSpace(c)
    ensures Filter(Filled, Words([c] + s)) == Filter(Filled, Words(s))
  {
    var run := [c] + s;
    assert run[1..] == s;
    if s == "" || !IsSpace(s[0]) {
      assert Words(run) == [""] + Words(s);
      assert ([""] + Words(s))[1..] == Words(s);
    }
  }

  lemma SameFirst(c: char, s: string)
    requires IsSpace(c)
    ensures FirstWord([c] + s) == FirstWord(s)
  {
    SpaceInFront(c, s);
  }

  lemma {:induction false} BlankInFront(lead: string, s: string)
    requires IsBlank(lead)
    ensures FirstWord(lead + s) == FirstWord(s)
  {
    hide FirstWord;
    if lead == "" {
      NothingInFront(s);
    } else {
      BlankInFront(lead[1..], s);
      assert lead + s == [lead[0]] + (lead[1..] + s);
      SameFirst(lead[0], lead[1..] + s);
    }
  }

  lemma FirstWordStarts(c: char, s: string)
    requires !IsSpace(c)
    ensures FirstWord([c] + s) != "" && FirstWord([c] + s)[0] == c
  {
    var run := [c] + s;
    assert run[1..] == s && Words(run)[0] == [c] + Words(s)[0];
  }

  // The words kept, before anything is done about the capital.
  function Shortened(run: string): string {
    Spaced(Filter(Filled, Keep(Words(run))))
  }

  lemma RaisedIff(kept: string, run: string, c: char)
    requires FirstWord(run) != "" && FirstWord(run)[0] == c
    ensures var out := Recapitalise(kept, run);
            && |out| == |kept|
            && (kept != [] ==>
                  && out[1..] == kept[1..]
                  && (out[0] != kept[0] <==> 'A' <= c <= 'Z' && 'a' <= kept[0] <= 'z')
                  && (out[0] != kept[0] ==> out[0] as int == kept[0] as int - 32))
  {
    hide FirstWord;
  }

  lemma RunIs(run: string)
    ensures Run(run) == Recapitalise(Shortened(run), run)
  {
  }

  // The first letter is raised if and only if it is a small one and the run, behind
  // any white space, starts with a capital. Everything else stays as it is.
  lemma CapitalIff(lead: string, c: char, s: string)
    requires IsBlank(lead) && !IsSpace(c)
    ensures var kept, out := Shortened(lead + [c] + s), Run(lead + [c] + s);
            && |out| == |kept|
            && (kept != [] ==>
                  && out[1..] == kept[1..]
                  && (out[0] != kept[0] <==> 'A' <= c <= 'Z' && 'a' <= kept[0] <= 'z')
                  && (out[0] != kept[0] ==> out[0] as int == kept[0] as int - 32))
  {
    hide FirstWord, Recapitalise, Shortened, Spaced, Keep, Words;
    Assoc(lead, [c], s);
    BlankInFront(lead, [c] + s);
    FirstWordStarts(c, s);
    RaisedIff(Shortened(lead + [c] + s), lead + [c] + s, c);
    RunIs(lead + [c] + s);
  }

  // A run of white space has no letter to raise, and nothing is left of it.
  lemma BlankRun(run: string)
    requires IsBlank(run)
    ensures Run(run) == ""
  {
    BlankWords(run);
    NothingShort(Words(run));
  }

  lemma {:induction false} BlankWords(run: string)
    requires IsBlank(run)
    ensures Words(run) == if run == "" then [""] else ["", ""]
  {
    if run != "" {
      BlankWords(run[1..]);
    }
  }

  lemma NothingShort(ws: seq<string>)
    requires ws == [""] || ws == ["", ""]
    ensures Spaced(Filter(Filled, Keep(ws))) == ""
  {
    KeepStep([], "");
    assert [] + [""] == [""];
    FilterOne(Filled, "");
    if ws == ["", ""] {
      KeepStep([""], "");
      assert [""] + [""] == ["", ""];
      FilterAppend(Filled, [""], [""]);
    }
  }

  // --- which words are dropped ------------------------------------------------------

  // What is compared with the lists: letters in lower case, digits and underscores.
  lemma LookupIs(a: string, c: char, b: string)
    ensures Lookup("") == ""
    ensures Lookup(a + [c] + b)
         == Lookup(a)
            + (if 'A' <= c <= 'Z' then [(c as int + 32) as char]
               else if 'a' <= c <= 'z' || '0' <= c <= '9' || c == '_' then [c] else "")
            + Lookup(b)
  {
    LookupAppend(a + [c], b);
    LookupAppend(a, [c]);
    assert [c][1..] == "";
  }

  lemma {:induction false} HasAt(words: seq<string>, i: nat)
    requires i < |words|
    ensures Has(words, words[i])
  {
    if i > 0 {
      HasAt(words[1..], i - 1);
    }
  }

  lemma {:induction false} HasAppend(a: seq<string>, b: seq<string>, l: string)
    ensures Has(a + b, l) <==> Has(a, l) || Has(b, l)
  {
    if a == [] {
      NothingInFront(b);
    } else {
      HeadTail(a, b);
      HasAppend(a[1..], b, l);
    }
  }

  // The negations that the passes are tested for.
  lemma NegationsProtected()
    ensures Has(NEVER_DROP, "not") && Has(NEVER_DROP, "no") && Has(NEVER_DROP, "never")
    ensures Has(NEVER_DROP, "without") && Has(NEVER_DROP, "except") && Has(NEVER_DROP, "unless")
  {
    HasAt(NEGATIONS, 0);
    HasAt(NEGATIONS, 1);
    HasAt(NEGATIONS, 2);
    HasAt(EXCEPTIONS, 0);
    HasAt(EXCEPTIONS, 1);
    HasAt(EXCEPTIONS, 2);
    NegationProtected("not");
    NegationProtected("no");
    NegationProtected("never");
    NegationProtected("without");
    NegationProtected("except");
    NegationProtected("unless");
  }

  lemma NegationProtected(l: string)
    requires Has(NEGATIONS, l) || Has(EXCEPTIONS, l)
    ensures Has(NEVER_DROP, l)
  {
    HasAppend(
      NEGATIONS, MORE_NEGATIONS + (EXCEPTIONS + (CONDITIONS + (MODALS + (QUANTIFIERS + CONNECTIVES)))), l);
    HasAppend(MORE_NEGATIONS, EXCEPTIONS + (CONDITIONS + (MODALS + (QUANTIFIERS + CONNECTIVES))), l);
    HasAppend(EXCEPTIONS, CONDITIONS + (MODALS + (QUANTIFIERS + CONNECTIVES)), l);
  }

  lemma {:induction false} HasIn(words: seq<string>, l: string)
    ensures Has(words, l) <==> l in words
  {
    if words != [] {
      HasIn(words[1..], l);
      assert words == [words[0]] + words[1..];
    }
  }

  // A word goes if and only if its letters are on the first list and not on the second.
  lemma DroppedIff(word: string)
    ensures Dropped(word) <==> Lookup(word) in DROPPABLE && Lookup(word) !in NEVER_DROP
    ensures Dropped(word) ==> Lookup(word) != ""
  {
    HasIn(DROPPABLE, Lookup(word));
    HasIn(NEVER_DROP, Lookup(word));
    NoEmptyWord();
  }

  lemma NoEmptyWord()
    ensures "" !in DROPPABLE
  {
  }

  lemma StopIs(c: char)
    ensures IsStop(c) <==> c in ".!?,;:"
  {
    assert ".!?,;:"[1] == '!' && ".!?,;:"[2] == '?' && ".!?,;:"[3] == ',';
  }

  lemma StopsMore(w: string, c: char)
    requires IsStop(c)
    ensures Stops(w + [c]) == Stops(w) + [c]
  {
    assert (w + [c])[..|w|] == w;
  }

  // The stops of a word: the longest run of them at its end.
  lemma {:induction false} StopsAre(front: string, tail: string)
    requires forall i :: 0 <= i < |tail| ==> IsStop(tail[i])
    requires front != "" ==> !IsStop(front[|front| - 1])
    ensures Stops(front + tail) == tail
  {
    hide IsStop;
    if tail == "" {
      NothingBehind(front);
      assert Stops(front) == "";
    } else {
      hide Stops;
      var n := |tail| - 1;
      StopsAre(front, tail[..n]);
      FrontAndLast(tail);
      Assoc(front, tail[..n], [tail[n]]);
      StopsMore(front + tail[..n], tail[n]);
    }
  }
}
