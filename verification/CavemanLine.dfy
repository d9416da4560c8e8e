// cavemanLine (src/compression/caveman.js): the word-dropping pass on the prose
// between protected segments. Where the segments are is given: the matches of
// one regular expression, none empty, from left to right.

module CavemanLine {
  import opened Text
  import opened Caveman

  // --- one stretch of prose -------------------------------------------------

  predicate StartsBlank(s: string) { s != "" && IsSpace(s[0]) }
  predicate EndsBlank(s: string) { s != "" && IsSpace(s[|s| - 1]) }

  function Pad(blank: bool): string { if blank then " " else "" }

  // cavemanLine's glue: one stretch of prose between protected segments, with
  // the white space at its ends read off the original.
  function Glue(prose: string): string {
    if prose == "" then ""
    else
      var body := Run(prose);
      if body == "" then Pad(StartsBlank(prose) || EndsBlank(prose))
      else Pad(StartsBlank(prose)) + body + Pad(EndsBlank(prose))
  }

  // A result never starts or ends in white space of its own.
  lemma RunIsTrimmed(run: string)
    ensures Run(run) != "" ==> !StartsBlank(Run(run)) && !EndsBlank(Run(run)) && Final(run) != []
    ensures Run(run) == "" ==> Final(run) == []
  {
    RunIsFinal(run);
    var fs := Final(run);
    if fs != [] {
      WordsOfSpaced(fs);
      assert Good(fs[0]);
      SpacedEnds(fs);
    }
  }

  lemma {:induction false} SpacedEnds(ws: seq<string>)
    requires ws != [] && forall i :: 0 <= i < |ws| ==> Good(ws[i])
    ensures Spaced(ws) != "" && !EndsBlank(Spaced(ws))
  {
    if |ws| > 1 {
      SpacedEnds(ws[1..]);
      var rest := Spaced(ws[1..]);
      assert Spaced(ws) == (ws[0] + " ") + rest;
      assert Spaced(ws)[|Spaced(ws)| - 1] == rest[|rest| - 1];
    } else {
      assert Good(ws[0]);
    }
  }

  lemma NothingMakesNothing(prose: string)
    ensures Run(prose) != "" ==> prose != ""
  {
    if prose == "" {
      BlankRun("");
    }
  }

  lemma PaddedEnds(before: bool, body: string, after: bool)
    requires body != "" && !StartsBlank(body) && !EndsBlank(body)
    ensures StartsBlank(Pad(before) + body + Pad(after)) <==> before
    ensures EndsBlank(Pad(before) + body + Pad(after)) <==> after
  {
    var g := Pad(before) + body + Pad(after);
    assert g[0] == if before then ' ' else body[0];
    assert g[|g| - 1] == if after then ' ' else body[|body| - 1];
  }

  // Where words survive, the glued stretch touches its neighbours with a space
  // exactly on the sides where the original did; none is invented.
  lemma GlueKeepsBoundaries(prose: string)
    requires Run(prose) != ""
    ensures StartsBlank(Glue(prose)) <==> StartsBlank(prose)
    ensures EndsBlank(Glue(prose)) <==> EndsBlank(prose)
  {
    RunIsTrimmed(prose);
    NothingMakesNothing(prose);
    PaddedEnds(StartsBlank(prose), Run(prose), EndsBlank(prose));
  }

  // The whole rule: what is kept of a stretch, with a space on each side where the
  // stretch had white space there. Where nothing is kept, or nothing was there but
  // white space, one space stands for what there was on either side.
  lemma GlueOf(lead: string, core: string, trail: string)
    requires IsBlank(lead) && IsBlank(trail)
    requires core != "" && !IsSpace(core[0]) && !IsSpace(core[|core| - 1])
    ensures var prose := lead + core + trail;
            Glue(prose) == if Run(prose) != ""
                           then (if lead != "" then " " else "") + Run(prose) + (if trail != "" then " " else "")
                           else if lead != "" || trail != "" then " " else ""
    ensures Glue(lead) == if lead != "" then " " else ""
  {
    BlankEnds(lead, core, trail);
    if lead != "" {
      BlankRun(lead);
    }
  }

  lemma BlankEnds(lead: string, core: string, trail: string)
    requires IsBlank(lead) && IsBlank(trail)
    requires core != "" && !IsSpace(core[0]) && !IsSpace(core[|core| - 1])
    ensures var prose := lead + core + trail;
            prose != "" && (StartsBlank(prose) <==> lead != "") && (EndsBlank(prose) <==> trail != "")
  {
    var prose := lead + core + trail;
    assert prose[|prose| - 1] == if trail != "" then trail[|trail| - 1] else core[|core| - 1];
  }

  // Words with a letter in them each, and no white space.
  ghost predicate AllThere(ws: seq<string>) {
    AllSolid(ws) && forall i :: 0 <= i < |ws| ==> ws[i] != ""
  }

  lemma GoodAreThere(ws: seq<string>)
    requires forall i :: 0 <= i < |ws| ==> Good(ws[i])
    ensures AllThere(ws)
  {
    assert forall i :: 0 <= i < |ws| ==> Good(ws[i]) ==> Solid(ws[i]) && ws[i] != "";
  }

  lemma SpaceInFront(x: string)
    requires x != "" && !IsSpace(x[0])
    ensures Words(" " + x) == [""] + Words(x)
    ensures Filter(Filled, Words(" " + x)) == Filter(Filled, Words(x))
  {
    assert (" " + x)[1..] == x;
    FilterAppend(Filled, [""], Words(x));
    FilterOne(Filled, "");
    NothingInFront(Filter(Filled, Words(x)));
  }

  // White space at the ends only adds empty words.
  lemma PaddedWords(before: bool, ws: seq<string>, after: bool)
    requires ws != [] && AllThere(ws)
    ensures Filter(Filled, Words(Pad(before) + Spaced(ws) + Pad(after))) == ws
  {
    var x := Spaced(ws) + Pad(after);
    SpacedFilled(ws, Pad(after));
    SpacedStarts(ws, Pad(after));
    Assoc(Pad(before), Spaced(ws), Pad(after));
    if before {
      SpaceInFront(x);
    } else {
      NothingInFront(x);
    }
  }

  lemma SpacedStarts(ws: seq<string>, end: string)
    requires ws != [] && AllThere(ws)
    ensures Spaced(ws) + end != "" && !IsSpace((Spaced(ws) + end)[0])
  {
    WordsOfSpaced(ws);
  }

  lemma SpacedFilled(ws: seq<string>, end: string)
    requires ws != [] && (end == "" || end == " ") && AllThere(ws)
    ensures Filter(Filled, Words(Spaced(ws) + end)) == ws
  {
    SquashSpaced(ws, end);
    AllFilled(ws);
  }

  lemma BlankMeansNothing(blank: bool)
    ensures Meaning(Words(Pad(blank))) == []
  {
    NoWordsMeanNothing();
    if blank {
      assert " "[1..] == "";
      assert Words(" ") == [""] + [""];
      assert ([""] + [""])[1..] == [""];
    }
  }

  // The stretch keeps the meaning of its prose, but for the droppable words.
  lemma GlueMeans(prose: string)
    ensures Meaning(Words(Glue(prose))) == Filter(Survives, Meaning(Words(prose)))
  {
    MeaningKept(prose);
    RunIsFinal(prose);
    RunIsTrimmed(prose);
    var fs := Final(prose);
    if prose == "" {
      NoWordsMeanNothing();
    } else if fs == [] {
      NoWordsMeanNothing();
      BlankMeansNothing(StartsBlank(prose) || EndsBlank(prose));
    } else {
      GoodAreThere(fs);
      PaddedWords(StartsBlank(prose), fs, EndsBlank(prose));
      EmptyMeansNothing(Words(Glue(prose)));
      WordsOfSpaced(fs);
    }
  }

  // Dropping words in the stretch once more gives the same words.
  lemma FilledTwice(prose: string)
    requires prose != "" && Run(prose) != ""
    ensures Run(Glue(prose)) == Run(prose)
  {
    RunIsFinal(prose);
    RunIsTrimmed(prose);
    GoodAreThere(Final(prose));
    PaddedWords(StartsBlank(prose), Final(prose), EndsBlank(prose));
    FinalIsFixed(Glue(prose), Final(prose));
  }

  // A second pass over the stretch changes nothing.
  lemma GlueTwice(prose: string)
    ensures Glue(Glue(prose)) == Glue(prose)
  {
    RunIsTrimmed(prose);
    if prose != "" && Run(prose) != "" {
      FilledTwice(prose);
      GlueKeepsBoundaries(prose);
    } else if prose != "" && (StartsBlank(prose) || EndsBlank(prose)) {
      BlankRun(" ");
    }
  }

  // Text whose words are final ones and empty ones comes out as the final words.
  lemma FinalIsFixed(x: string, ws: seq<string>)
    requires ws != [] && Filter(Filled, Words(x)) == ws && forall i :: 0 <= i < |ws| ==> Good(ws[i])
    ensures Run(x) == Spaced(ws)
  {
    hide Run, Recapitalise;
    FilledOrEmpty(Words(x));
    AllUndropped(Words(x), ws);
    NothingToDrop(Words(x));
    WordsOfSpaced(ws);
    assert Shortened(x) == Spaced(ws);
    RunIs(x);
    CapitalThere(Spaced(ws), x);
  }

  // A text that starts as its first word does needs no capital.
  lemma CapitalThere(kept: string, x: string)
    requires kept != "" && FirstWord(x) != "" && FirstWord(x)[0] == kept[0]
    ensures Recapitalise(kept, x) == kept
  {
    hide FirstWord;
  }

  lemma AllUndropped(xs: seq<string>, ws: seq<string>)
    requires forall i :: 0 <= i < |xs| ==> xs[i] == "" || xs[i] in ws
    requires forall i :: 0 <= i < |ws| ==> Good(ws[i])
    ensures forall i :: 0 <= i < |xs| ==> Undropped(xs[i])
  {
    forall i | 0 <= i < |xs| ensures Undropped(xs[i]) {
      EmptyOrGood(xs[i], ws);
    }
  }

  lemma EmptyOrGood(w: string, ws: seq<string>)
    requires w == "" || w in ws
    requires forall i :: 0 <= i < |ws| ==> Good(ws[i])
    ensures Undropped(w)
  {
    if w == "" {
      assert Lookup("") == "";
    } else {
      GoodIsUndropped(w, ws);
    }
  }

  lemma GoodIsUndropped(w: string, ws: seq<string>)
    requires w in ws && forall i :: 0 <= i < |ws| ==> Good(ws[i])
    ensures Undropped(w)
  {
    var i :| 0 <= i < |ws| && ws[i] == w;
    assert Good(ws[i]);
  }

  lemma {:induction false} FilledOrEmpty(xs: seq<string>)
    ensures forall i :: 0 <= i < |xs| ==> xs[i] == "" || xs[i] in Filter(Filled, xs)
  {
    if xs != [] {
      FilledOrEmpty(xs[1..]);
      assert forall i :: 0 < i < |xs| ==> xs[i] == xs[1..][i - 1];
    }
  }

  // --- the line -------------------------------------------------------------

  datatype Span = Span(start: nat, end: nat)

  // Matches in the line from `cursor` on.
  predicate Matches(line: string, ms: seq<Span>, cursor: nat) {
    if ms == [] then cursor <= |line|
    else cursor <= ms[0].start < ms[0].end && Matches(line, ms[1..], ms[0].end)
  }

  lemma {:induction false} CursorInLine(line: string, ms: seq<Span>, cursor: nat)
    requires Matches(line, ms, cursor)
    ensures cursor <= |line| && (ms != [] ==> ms[0].end <= |line|)
  {
    if ms != [] {
      CursorInLine(line, ms[1..], ms[0].end);
    }
  }

  function Prose(line: string, ms: seq<Span>, cursor: nat): (r: seq<string>)
    requires Matches(line, ms, cursor)
    ensures |r| == |ms| + 1
  {
    CursorInLine(line, ms, cursor);
    if ms == [] then [line[cursor..]] else [line[cursor..ms[0].start]] + Prose(line, ms[1..], ms[0].end)
  }

  function Protected(line: string, ms: seq<Span>, cursor: nat): (r: seq<string>)
    requires Matches(line, ms, cursor)
    ensures |r| == |ms|
  {
    CursorInLine(line, ms, cursor);
    if ms == [] then [] else [line[ms[0].start..ms[0].end]] + Protected(line, ms[1..], ms[0].end)
  }

  // Stretches and segments in turn.
  function Weave(prose: seq<string>, segments: seq<string>): string
    requires |prose| == |segments| + 1
  {
    if segments == [] then prose[0] else prose[0] + (segments[0] + Weave(prose[1..], segments[1..]))
  }

  function GlueAll(prose: seq<string>): (r: seq<string>)
    ensures |r| == |prose| && forall i :: 0 <= i < |r| ==> r[i] == Glue(prose[i])
  {
    seq(|prose|, i requires 0 <= i < |prose| => Glue(prose[i]))
  }

  lemma GlueAllCons(p: string, ps: seq<string>)
    ensures GlueAll([p] + ps) == [Glue(p)] + GlueAll(ps)
  {
  }

  // The line is its stretches and segments in turn.
  lemma {:induction false} LineIsWoven(line: string, ms: seq<Span>, cursor: nat)
    requires Matches(line, ms, cursor)
    ensures cursor <= |line| && Weave(Prose(line, ms, cursor), Protected(line, ms, cursor)) == line[cursor..]
  {
    CursorInLine(line, ms, cursor);
    if ms != [] {
      LineIsWoven(line, ms[1..], ms[0].end);
      WeaveCons(line[cursor..ms[0].start], line[ms[0].start..ms[0].end],
                Prose(line, ms[1..], ms[0].end), Protected(line, ms[1..], ms[0].end));
      assert line[cursor..] == line[cursor..ms[0].start] + (line[ms[0].start..ms[0].end] + line[ms[0].end..]);
    }
  }

  lemma WeaveCons(p: string, q: string, ps: seq<string>, qs: seq<string>)
    requires |ps| == |qs| + 1
    ensures Weave([p] + ps, [q] + qs) == p + (q + Weave(ps, qs))
  {
    assert ([p] + ps)[1..] == ps && ([q] + qs)[1..] == qs;
  }

  // What cavemanLine makes of the rest of the line: the stretches rewritten, the
  // segments between them as they were.
  function Rewritten(line: string, ms: seq<Span>, cursor: nat): string
    requires Matches(line, ms, cursor)
  {
    Weave(GlueAll(Prose(line, ms, cursor)), Protected(line, ms, cursor))
  }

  // The lookups of several stretches, one after the other.
  function MeaningIn(prose: seq<string>): seq<string> {
    if prose == [] then [] else Meaning(Words(prose[0])) + MeaningIn(prose[1..])
  }

  lemma {:induction false} AllGlueMeans(prose: seq<string>)
    ensures MeaningIn(GlueAll(prose)) == Filter(Survives, MeaningIn(prose))
  {
    if prose != [] {
      var rest := GlueAll(prose[1..]);
      GlueMeans(prose[0]);
      AllGlueMeans(prose[1..]);
      assert GlueAll(prose)[1..] == rest;
      FilterAppend(Survives, Meaning(Words(prose[0])), MeaningIn(prose[1..]));
    }
  }

  // A whole line: its segments are there as they were, and the stretches between
  // them together keep their words but for the droppable ones, so every word that
  // must never be dropped is there as often as before.
  lemma LineMeans(line: string, ms: seq<Span>, l: string)
    requires Matches(line, ms, 0) && Has(NEVER_DROP, l)
    ensures var prose, kept := Prose(line, ms, 0), GlueAll(Prose(line, ms, 0));
            && line == Weave(prose, Protected(line, ms, 0))
            && Rewritten(line, ms, 0) == Weave(kept, Protected(line, ms, 0))
            && MeaningIn(kept) == Filter(Survives, MeaningIn(prose))
            && multiset(MeaningIn(kept))[l] == multiset(MeaningIn(prose))[l]
  {
    LineIsWoven(line, ms, 0);
    AllGlueMeans(Prose(line, ms, 0));
    CountKept(MeaningIn(Prose(line, ms, 0)), l);
  }

  lemma OneMatch(result: string, line: string, ms: seq<Span>, cursor: nat)
    requires ms != [] && Matches(line, ms, cursor)
    ensures cursor <= ms[0].start <= ms[0].end <= |line|
    ensures result + Rewritten(line, ms, cursor)
         == result + Glue(line[cursor..ms[0].start]) + line[ms[0].start..ms[0].end]
            + Rewritten(line, ms[1..], ms[0].end)
  {
    CursorInLine(line, ms, cursor);
    var p, q := Glue(line[cursor..ms[0].start]), line[ms[0].start..ms[0].end];
    var rest := Rewritten(line, ms[1..], ms[0].end);
    GlueAllCons(line[cursor..ms[0].start], Prose(line, ms[1..], ms[0].end));
    WeaveCons(p, q, GlueAll(Prose(line, ms[1..], ms[0].end)), Protected(line, ms[1..], ms[0].end));
    Assoc(result, p, q + rest);
    Assoc(result + p, q, rest);
  }

  lemma LastStretch(line: string, cursor: nat)
    requires cursor <= |line|
    ensures Rewritten(line, [], cursor) == Glue(line[cursor..])
  {
  }

  // One turn of the loop: the stretch before the next match, then the match.
  method Turn(result: string, line: string, ms: seq<Span>, cursor: nat) returns (next: string)
    requires ms != [] && Matches(line, ms, cursor)
    ensures next + Rewritten(line, ms[1..], ms[0].end) == result + Rewritten(line, ms, cursor)
  {
    OneMatch(result, line, ms, cursor);
    next := result + Glue(line[cursor..ms[0].start]);
    next := next + line[ms[0].start..ms[0].end];
  }

  method LastTurn(result: string, line: string, cursor: nat) returns (next: string)
    requires cursor <= |line|
    ensures next == result + Rewritten(line, [], cursor)
  {
    LastStretch(line, cursor);
    next := result + Glue(line[cursor..]);
  }

  // The loop over the matches.
  method CavemanLine(line: string, ms: seq<Span>) returns (result: string)
    requires Matches(line, ms, 0)
    ensures result == Rewritten(line, ms, 0)
  {
    result := "";
    var cursor := 0;
    NothingInFront(Rewritten(line, ms, 0));
    assert ms[0..] == ms;
    for i := 0 to |ms|
      invariant Matches(line, ms[i..], cursor)
      invariant result + Rewritten(line, ms[i..], cursor) == Rewritten(line, ms, 0)
    {
      assert ms[i..][0] == ms[i] && ms[i..][1..] == ms[i + 1..];
      result := Turn(result, line, ms[i..], cursor);
      cursor := ms[i].end;
    }
    CursorInLine(line, ms[|ms|..], cursor);
    result := LastTurn(result, line, cursor);
  }
}
