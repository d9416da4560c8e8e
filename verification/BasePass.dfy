// The linear whitespace pass of src/compression/compress.js, and the two
// regular-expression replacements it took the place of.

module BasePass {
  import opened Text

  predicate IsHorizontal(c: char) { c == ' ' || c == '\t' }

  function TrimEnd(s: string): (r: string)
    ensures |r| <= |s| && r == s[..|r|]
    ensures r != "" ==> !IsHorizontal(r[|r| - 1])
    ensures forall i :: |r| <= i < |s| ==> IsHorizontal(s[i])
  {
    if s == "" || !IsHorizontal(s[|s| - 1]) then s else TrimEnd(s[..|s| - 1])
  }

  method TrimTrailingHorizontal(line: string) returns (r: string)
    ensures r == TrimEnd(line)
  {
    var end := |line|;
    assert line[..end] == line;
    while end > 0
      invariant 0 <= end <= |line|
      invariant TrimEnd(line) == TrimEnd(line[..end])
    {
      if !IsHorizontal(line[end - 1]) {
        break;
      }
      assert line[..end][..end - 1] == line[..end - 1];
      end := end - 1;
    }
    r := line[..end];
  }

  function Clean(ls: seq<string>): (r: seq<string>)
    ensures |r| == |ls|
    ensures forall i :: 0 <= i < |ls| ==> r[i] == TrimEnd(ls[i])
  {
    seq(|ls|, i requires 0 <= i < |ls| => TrimEnd(ls[i]))
  }

  // Runs of empty lines down to one; `blank` says the line before was empty.
  function Collapse(ls: seq<string>, blank: bool): (r: seq<string>)
    ensures !blank && ls != [] ==> r != []
  {
    if ls == [] then []
    else if ls[0] == "" then (if blank then [] else [""]) + Collapse(ls[1..], true)
    else [ls[0]] + Collapse(ls[1..], false)
  }

  function Base(text: string): string {
    Join(Collapse(Clean(Split(text)), false))
  }

  // One line of the loop.
  lemma CollapseStep(done: seq<string>, rest: seq<string>, blank: bool)
    requires rest != []
    ensures done + Collapse(rest, blank)
         == (if rest[0] == "" && blank then done else done + [rest[0]]) + Collapse(rest[1..], rest[0] == "")
  {
    var tail := Collapse(rest[1..], rest[0] == "");
    Assoc(done, [rest[0]], tail);
    NothingInFront(tail);
  }

  method BasePass(text: string) returns (r: string)
    ensures r == Base(text)
  {
    var lines := Split(text);
    ghost var clean := Clean(lines);
    var deduped: seq<string> := [];
    var blankRun := 0;
    var i := 0;
    assert clean[0..] == clean;
    while i < |lines|
      invariant 0 <= i <= |lines|
      invariant deduped + Collapse(clean[i..], blankRun > 0) == Collapse(clean, false)
    {
      var line := TrimTrailingHorizontal(lines[i]);
      assert clean[i..][1..] == clean[i + 1..];
      CollapseStep(deduped, clean[i..], blankRun > 0);
      if line == "" {
        blankRun := blankRun + 1;
        if blankRun <= 1 {
          deduped := deduped + [line];
        }
      } else {
        blankRun := 0;
        deduped := deduped + [line];
      }
      i := i + 1;
    }
    assert clean[i..] == [];
    assert deduped == Collapse(clean, false);
    r := Join(deduped);
  }

  // --- the shape of its output ----------------------------------------------

  ghost predicate Tidy(ls: seq<string>) {
    && (forall i :: 0 <= i < |ls| ==> TrimEnd(ls[i]) == ls[i] && '\n' !in ls[i])
    && NoDoubleBlank(ls)
  }

  ghost predicate NoDoubleBlank(ls: seq<string>) {
    forall i :: 0 <= i < |ls| - 1 ==> ls[i] != "" || ls[i + 1] != ""
  }

  predicate NonEmpty(l: string) { l != "" }

  lemma TrimTwice(s: string)
    ensures TrimEnd(TrimEnd(s)) == TrimEnd(s)
  {
  }

  lemma {:induction false} AllBlank(ls: seq<string>)
    requires ls != [] && Collapse(ls, true) == []
    ensures ls[|ls| - 1] == ""
  {
    if |ls| > 1 {
      AllBlank(ls[1..]);
    }
  }

  lemma {:induction false} CollapseMembers(ls: seq<string>, blank: bool)
    ensures forall l :: l in Collapse(ls, blank) ==> l in ls
  {
    if ls != [] {
      CollapseMembers(ls[1..], ls[0] == "");
    }
  }

  lemma {:induction false} CollapseLast(ls: seq<string>, blank: bool)
    requires Collapse(ls, blank) != []
    ensures Collapse(ls, blank)[|Collapse(ls, blank)| - 1] == ls[|ls| - 1]
  {
    var more := Collapse(ls[1..], ls[0] == "");
    if more != [] {
      CollapseLast(ls[1..], ls[0] == "");
    } else if |ls| > 1 {
      AllBlank(ls[1..]);
    }
  }

  lemma {:induction false} CollapseNoDouble(ls: seq<string>, blank: bool)
    ensures NoDoubleBlank(Collapse(ls, blank))
    ensures blank && Collapse(ls, blank) != [] ==> Collapse(ls, blank)[0] != ""
  {
    if ls != [] {
      CollapseNoDouble(ls[1..], ls[0] == "");
    }
  }

  lemma CollapseTidy(ls: seq<string>)
    requires forall i :: 0 <= i < |ls| ==> TrimEnd(ls[i]) == ls[i] && '\n' !in ls[i]
    ensures Tidy(Collapse(ls, false))
  {
    CollapseNoDouble(ls, false);
    CollapseMembers(ls, false);
    var out := Collapse(ls, false);
    forall i | 0 <= i < |out| ensures TrimEnd(out[i]) == out[i] && '\n' !in out[i] {
      assert out[i] in ls;
    }
  }

  lemma {:induction false} TidyIsFixed(ls: seq<string>, blank: bool)
    requires NoDoubleBlank(ls) && (blank && ls != [] ==> ls[0] != "")
    ensures Collapse(ls, blank) == ls
  {
    if ls != [] {
      forall i | 0 <= i < |ls[1..]| - 1 ensures ls[1..][i] != "" || ls[1..][i + 1] != "" {
        assert ls[i + 1] != "" || ls[i + 2] != "";
      }
      TidyIsFixed(ls[1..], ls[0] == "");
      assert ls == [ls[0]] + ls[1..];
    }
  }

  lemma {:induction false} CollapseKeepsText(ls: seq<string>, blank: bool)
    ensures Filter(NonEmpty, Collapse(ls, blank)) == Filter(NonEmpty, ls)
  {
    if ls != [] {
      CollapseKeepsText(ls[1..], ls[0] == "");
      var head := if ls[0] != "" || !blank then [ls[0]] else [];
      FilterAppend(NonEmpty, head, Collapse(ls[1..], ls[0] == ""));
      if head != [] {
        FilterOne(NonEmpty, ls[0]);
      }
    }
  }

  lemma CleanTrimmed(ls: seq<string>)
    requires forall i :: 0 <= i < |ls| ==> '\n' !in ls[i]
    ensures forall i :: 0 <= i < |ls| ==> TrimEnd(Clean(ls)[i]) == Clean(ls)[i] && '\n' !in Clean(ls)[i]
  {
    forall i | 0 <= i < |ls| ensures TrimEnd(Clean(ls)[i]) == Clean(ls)[i] && '\n' !in Clean(ls)[i] {
      TrimTwice(ls[i]);
    }
  }

  // On every text: no trailing spaces or tabs, no two empty lines in a row, and
  // every line with text kept, in order, up to its trailing spaces and tabs.
  lemma BaseShape(text: string)
    ensures Tidy(Split(Base(text)))
    ensures Split(Base(text)) == Collapse(Clean(Split(text)), false)
    ensures Filter(NonEmpty, Split(Base(text))) == Filter(NonEmpty, Clean(Split(text)))
    ensures Base(text) != "" ==> !IsHorizontal(Base(text)[|Base(text)| - 1])
  {
    var clean := Clean(Split(text));
    CleanTrimmed(Split(text));
    CollapseTidy(clean);
    CollapseKeepsText(clean, false);
    var out := Collapse(clean, false);
    SplitJoin(out);
    JoinEnds(out);
    assert TrimEnd(out[|out| - 1]) == out[|out| - 1];
  }

  // A joined text ends as its last line does.
  lemma {:induction false} JoinEnds(ls: seq<string>)
    requires |ls| >= 1
    ensures |ls[|ls| - 1]| <= |Join(ls)|
    ensures Join(ls)[|Join(ls)| - |ls[|ls| - 1]|..] == ls[|ls| - 1]
    ensures |ls| > 1 ==> |Join(ls)| > |ls[|ls| - 1]| && Join(ls)[|Join(ls)| - |ls[|ls| - 1]| - 1] == '\n'
  {
    if |ls| > 1 {
      JoinEnds(ls[1..]);
      var rest := Join(ls[1..]);
      assert Join(ls) == (ls[0] + "\n") + rest;
      assert ls[1..][|ls[1..]| - 1] == ls[|ls| - 1];
    }
  }

  // The pipeline runs this pass twice over most messages; the second is the identity.
  lemma BaseIdempotent(text: string)
    ensures Base(Base(text)) == Base(text)
  {
    BaseShape(text);
    var out := Split(Base(text));
    assert Clean(out) == out;
    TidyIsFixed(out, false);
    JoinSplit(Base(text));
  }

  // --- the regular-expression form ------------------------------------------

  function HorizontalRun(s: string): (k: nat)
    ensures k <= |s|
    ensures forall i :: 0 <= i < k ==> IsHorizontal(s[i])
    ensures k < |s| ==> !IsHorizontal(s[k])
  {
    if s != "" && IsHorizontal(s[0]) then 1 + HorizontalRun(s[1..]) else 0
  }

  // text.replace(/[ \t]+\n/g, "\n"): the leftmost, greedy matches.
  function StripRegex(s: string): string {
    if s == "" then ""
    else
      var k := HorizontalRun(s);
      if 0 < k < |s| && s[k] == '\n' then "\n" + StripRegex(s[k + 1..])
      else [s[0]] + StripRegex(s[1..])
  }

  function NewlineRun(s: string): (k: nat)
    ensures k <= |s|
    ensures forall i :: 0 <= i < k ==> s[i] == '\n'
    ensures k < |s| ==> s[k] != '\n'
  {
    if s != "" && s[0] == '\n' then 1 + NewlineRun(s[1..]) else 0
  }

  // text.replace(/\n{3,}/g, "\n\n")
  function SqueezeRegex(s: string): string {
    if s == "" then ""
    else
      var k := NewlineRun(s);
      if k >= 3 then "\n\n" + SqueezeRegex(s[k..]) else [s[0]] + SqueezeRegex(s[1..])
  }

  function RegexForm(text: string): string {
    SqueezeRegex(StripRegex(text))
  }

  lemma TrimCons(c: char, s: string)
    ensures TrimEnd([c] + s) == if TrimEnd(s) == "" && IsHorizontal(c) then "" else [c] + TrimEnd(s)
  {
    var x := [c] + s;
    if s == "" {
      assert x == [c];
      assert [c][..0] == "";
    } else {
      assert x[|x| - 1] == s[|s| - 1];
      if IsHorizontal(s[|s| - 1]) {
        assert x[..|x| - 1] == [c] + s[..|s| - 1];
        TrimCons(c, s[..|s| - 1]);
      }
    }
  }

  lemma {:induction false} RunInLine(x: string, rest: string)
    ensures HorizontalRun(x + "\n" + rest) == HorizontalRun(x)
  {
    var s := x + "\n" + rest;
    if x == "" {
      assert s[0] == '\n';
    } else if IsHorizontal(x[0]) {
      assert s[0] == x[0] && s[1..] == x[1..] + "\n" + rest;
      RunInLine(x[1..], rest);
    } else {
      assert s[0] == x[0];
    }
  }

  lemma TrimStep(x: string)
    requires x != "" && HorizontalRun(x) < |x|
    ensures TrimEnd(x) == [x[0]] + TrimEnd(x[1..])
  {
    var k := HorizontalRun(x);
    TrimCons(x[0], x[1..]);
    assert x == [x[0]] + x[1..];
    if k > 0 {
      assert x[1..][k - 1] == x[k];
    }
  }

  lemma StripBlankLine(x: string, rest: string)
    requires HorizontalRun(x) == |x|
    ensures StripRegex(x + "\n" + rest) == "\n" + StripRegex(rest)
  {
    var s := x + "\n" + rest;
    RunInLine(x, rest);
    assert s[|x|] == '\n' && s[|x| + 1..] == rest;
  }

  lemma StripTextStep(x: string, rest: string)
    requires HorizontalRun(x) < |x| && '\n' !in x
    ensures StripRegex(x + "\n" + rest) == [x[0]] + StripRegex(x[1..] + "\n" + rest)
  {
    var s := x + "\n" + rest;
    var k := HorizontalRun(x);
    RunInLine(x, rest);
    assert s[k] == x[k] && s[0] == x[0];
    assert s[1..] == x[1..] + "\n" + rest;
  }

  lemma BlankTrims(x: string)
    requires HorizontalRun(x) == |x|
    ensures TrimEnd(x) == ""
  {
  }

  lemma {:induction false} StripLine(x: string, rest: string)
    requires '\n' !in x
    ensures StripRegex(x + "\n" + rest) == TrimEnd(x) + ("\n" + StripRegex(rest))
  {
    if HorizontalRun(x) == |x| {
      StripBlankLine(x, rest);
      BlankTrims(x);
      NothingInFront("\n" + StripRegex(rest));
    } else {
      StripTextStep(x, rest);
      StripLine(x[1..], rest);
      TrimStep(x);
      Assoc([x[0]], TrimEnd(x[1..]), "\n" + StripRegex(rest));
    }
  }

  lemma {:induction false} StripLast(x: string)
    requires '\n' !in x
    ensures StripRegex(x) == x
  {
    if x != "" {
      StripLast(x[1..]);
      assert x == [x[0]] + x[1..];
    }
  }

  // The first replacement strips every line but the last.
  lemma {:induction false} StripIsClean(ls: seq<string>)
    requires |ls| >= 1 && forall i :: 0 <= i < |ls| ==> '\n' !in ls[i]
    ensures StripRegex(Join(ls)) == Join(Clean(ls[..|ls| - 1]) + [ls[|ls| - 1]])
  {
    if |ls| == 1 {
      StripLast(ls[0]);
      assert Clean(ls[..0]) + [ls[0]] == [ls[0]];
    } else {
      StripLine(ls[0], Join(ls[1..]));
      assert TrimEnd(ls[0]) + ("\n" + StripRegex(Join(ls[1..]))) == TrimEnd(ls[0]) + "\n" + StripRegex(Join(ls[1..]));
      StripIsClean(ls[1..]);
      var all := Clean(ls[..|ls| - 1]) + [ls[|ls| - 1]];
      assert ls[1..][..|ls[1..]| - 1] == ls[..|ls| - 1][1..];
      assert all[1..] == Clean(ls[1..][..|ls[1..]| - 1]) + [ls[|ls| - 1]];
      assert all[0] == TrimEnd(ls[0]);
    }
  }

  lemma {:induction false} SqueezeThrough(x: string, rest: string)
    requires '\n' !in x
    ensures SqueezeRegex(x + rest) == x + SqueezeRegex(rest)
  {
    if x == "" {
      NothingInFront(rest);
      NothingInFront(SqueezeRegex(rest));
    } else {
      HeadTail(x, rest);
      SqueezeThrough(x[1..], rest);
      Assoc([x[0]], x[1..], SqueezeRegex(rest));
    }
  }

  function LeadingBlanks(ls: seq<string>): (j: nat)
    ensures j <= |ls| && (forall i :: 0 <= i < j ==> ls[i] == "") && (j < |ls| ==> ls[j] != "")
  {
    if ls != [] && ls[0] == "" then 1 + LeadingBlanks(ls[1..]) else 0
  }

  lemma BlankInFront(ls: seq<string>)
    requires |ls| > 1 && ls[0] == ""
    ensures Join(ls)[0] == '\n' && Join(ls)[1..] == Join(ls[1..])
  {
  }

  // j empty lines before a line with text: j newlines, then that line.
  lemma {:induction false} BlanksAreNewlines(ls: seq<string>)
    requires LeadingBlanks(ls) < |ls| && forall i :: 0 <= i < |ls| ==> '\n' !in ls[i]
    ensures var j := LeadingBlanks(ls);
            NewlineRun(Join(ls)) == j && Join(ls)[j..] == Join(ls[j..])
            && Collapse(ls, false) == (if j > 0 then [""] else []) + Collapse(ls[j..], false)
            && Collapse(ls, true) == Collapse(ls[j..], false)
  {
    var j := LeadingBlanks(ls);
    if j > 0 {
      BlanksAreNewlines(ls[1..]);
      BlankInFront(ls);
      assert Join(ls)[j..] == Join(ls)[1..][j - 1..];
      assert ls[1..][j - 1..] == ls[j..];
    } else {
      assert ls[0..] == ls && Join(ls)[0] == ls[0][0];
      assert Join(ls)[0] != '\n';
    }
  }

  predicate DoubleStart(ls: seq<string>) { |ls| >= 2 && ls[0] == "" && ls[1] == "" }
  predicate DoubleEnd(ls: seq<string>) { |ls| >= 2 && ls[|ls| - 2] == "" && ls[|ls| - 1] == "" }

  // A run of newlines comes out as at most two.
  lemma SqueezeRun(s: string)
    ensures var k := NewlineRun(s);
            SqueezeRegex(s) == (if k == 0 then "" else if k == 1 then "\n" else "\n\n") + SqueezeRegex(s[k..])
  {
    var k := NewlineRun(s);
    if k == 0 {
      assert s[0..] == s;
    } else if k == 2 {
      assert NewlineRun(s[1..]) == 1 && s[1..][1..] == s[2..];
      assert SqueezeRegex(s) == "\n" + ("\n" + SqueezeRegex(s[2..]));
    }
  }

  lemma JoinCons(x: string, ms: seq<string>)
    requires ms != []
    ensures Join([x] + ms) == x + ("\n" + Join(ms))
  {
    assert ([x] + ms)[1..] == ms;
    assert x + "\n" + Join(ms) == x + ("\n" + Join(ms));
  }

  // A newline in front of a text that starts with j newlines.
  lemma SqueezeInFront(t: string, j: nat)
    requires j == NewlineRun(t)
    ensures SqueezeRegex("\n" + t) == (if j == 0 then "\n" else "\n\n") + SqueezeRegex(t[j..])
  {
    var s := "\n" + t;
    assert s[1..] == t;
    assert s[j + 1..] == t[j..];
    assert NewlineRun(s) == j + 1;
    SqueezeRun(s);
  }

  // The newline that ends a line, and the lines after it: `rest` starts with
  // empty lines and goes on with the text `tail`.
  lemma SqueezeRest(rest: seq<string>, tail: seq<string>)
    requires |rest| >= 1 && forall i :: 0 <= i < |rest| ==> '\n' !in rest[i]
    requires LeadingBlanks(rest) < |rest| && tail == rest[LeadingBlanks(rest)..]
    requires SqueezeRegex(Join(tail)) == Join(Collapse(tail, false))
    ensures SqueezeRegex("\n" + Join(rest)) == "\n" + Join(Collapse(rest, false))
  {
    BlanksAreNewlines(rest);
    var j := LeadingBlanks(rest);
    SqueezeInFront(Join(rest), j);
    var t := Join(Collapse(tail, false));
    if j > 0 {
      JoinCons("", Collapse(tail, false));
      NothingInFront("\n" + t);
      Assoc("\n", "\n", t);
      assert "\n" + "\n" == "\n\n";
    } else {
      NoLines(Collapse(tail, false));
    }
  }

  lemma NoLines(ls: seq<string>)
    ensures [] + ls == ls
  {
  }

  lemma SqueezeFirst(x: string, rest: seq<string>)
    requires rest != [] && '\n' !in x
    ensures SqueezeRegex(Join([x] + rest)) == x + SqueezeRegex("\n" + Join(rest))
  {
    JoinCons(x, rest);
    SqueezeThrough(x, "\n" + Join(rest));
  }

  lemma SqueezeOne(x: string)
    requires '\n' !in x
    ensures SqueezeRegex(x) == x
    ensures Join([x]) == x && Collapse([x], false) == [x]
  {
    SqueezeThrough(x, "");
    assert x + "" == x && [x][1..] == [];
  }

  lemma CollapseCons(x: string, rest: seq<string>)
    requires rest != [] && (x == "" ==> rest[0] != "")
    ensures Join(Collapse([x] + rest, false)) == x + ("\n" + Join(Collapse(rest, false)))
  {
    assert ([x] + rest)[1..] == rest;
    JoinCons(x, Collapse(rest, false));
  }

  lemma SqueezeNewline()
    ensures SqueezeRegex("\n") == "\n"
  {
    assert "\n"[1..] == "";
  }

  // With no run of empty lines at either end, the second replacement collapses.
  lemma {:induction false} SqueezeIsCollapse(ls: seq<string>)
    requires |ls| >= 1 && forall i :: 0 <= i < |ls| ==> '\n' !in ls[i]
    requires !DoubleStart(ls) && !DoubleEnd(ls)
    ensures SqueezeRegex(Join(ls)) == Join(Collapse(ls, false))
  {
    var x, rest := ls[0], ls[1..];
    assert ls == [x] + rest;
    if rest == [] {
      SqueezeOne(x);
    } else {
      var j := LeadingBlanks(rest);
      if j == |rest| {
        assert rest[|rest| - 1] == "";
        assert |rest| == 1 && x != "";
        SqueezeOne("");
        SqueezeNewline();
        assert rest == [""] && "\n" + "" == "\n";
      } else {
        SqueezeIsCollapse(rest[j..]);
        SqueezeRest(rest, rest[j..]);
      }
      SqueezeFirst(x, rest);
      CollapseCons(x, rest);
    }
  }

  // --- when the two forms agree ---------------------------------------------

  lemma {:induction false} SqueezeKeepsLast(s: string)
    requires s != "" && s[|s| - 1] != '\n'
    ensures SqueezeRegex(s) != "" && SqueezeRegex(s)[|SqueezeRegex(s)| - 1] == s[|s| - 1]
  {
    var k := NewlineRun(s);
    if k >= 3 {
      SqueezeKeepsLast(s[k..]);
    } else if |s| > 1 {
      SqueezeKeepsLast(s[1..]);
    }
  }

  predicate StartsDouble(s: string) { |s| >= 2 && s[0] == '\n' && s[1] == '\n' }
  predicate EndsDouble(s: string) { |s| >= 2 && s[|s| - 2] == '\n' && s[|s| - 1] == '\n' }

  lemma SqueezeKeepsStart(s: string)
    requires StartsDouble(s)
    ensures StartsDouble(SqueezeRegex(s))
  {
    assert NewlineRun(s) >= 2;
    SqueezeRun(s);
  }

  lemma {:induction false} SqueezeKeepsEnd(s: string)
    requires EndsDouble(s)
    ensures EndsDouble(SqueezeRegex(s))
  {
    var k := NewlineRun(s);
    if k == |s| {
      SqueezeRun(s);
      assert s[k..] == "";
    } else if k >= 3 {
      assert s[k] != '\n';
      assert EndsDouble(s[k..]);
      SqueezeKeepsEnd(s[k..]);
    } else {
      assert |s| > 2;
      assert EndsDouble(s[1..]);
      SqueezeKeepsEnd(s[1..]);
    }
  }

  lemma DoublesSplit(t: string)
    requires StartsDouble(t) || EndsDouble(t) || t == "\n"
    ensures !NoDoubleBlank(Split(t))
  {
    var ls := Split(t);
    SplitNewline();
    if StartsDouble(t) || t == "\n" {
      assert StartsDouble(t) ==> Split(t[1..]) == Put('\n', Split(t[1..][1..]));
      assert ls[0] == "" && ls[0 + 1] == "";
    } else {
      var z := t[..|t| - 2];
      assert t == z + "\n" + "\n";
      SplitAtNewline(z, "\n");
      assert ls[|ls| - 2] == "" && ls[|ls| - 2 + 1] == "";
    }
  }

  // A tidy text neither starts nor ends with two newlines.
  lemma BaseHasNoDoubles(text: string)
    ensures !StartsDouble(Base(text)) && !EndsDouble(Base(text)) && Base(text) != "\n"
  {
    BaseShape(text);
    if StartsDouble(Base(text)) || EndsDouble(Base(text)) || Base(text) == "\n" {
      DoublesSplit(Base(text));
      assert false;
    }
  }

  lemma SplitNewline()
    ensures Split("\n") == ["", ""]
  {
    assert "\n"[1..] == "";
  }

  lemma {:induction false} DoublesShow(ls: seq<string>)
    requires DoubleStart(ls) || DoubleEnd(ls)
    ensures StartsDouble(Join(ls)) || EndsDouble(Join(ls)) || Join(ls) == "\n"
  {
    if |ls| == 2 {
      assert Join(ls) == "" + "\n" + "";
    } else if DoubleStart(ls) {
      assert ls == [""] + ([""] + ls[2..]);
      JoinCons("", [""] + ls[2..]);
      JoinCons("", ls[2..]);
    } else {
      var front := ls[..|ls| - 2];
      assert ls == front + ["", ""];
      JoinAppend(front, ["", ""]);
      assert ["", ""][1..] == [""];
      assert Join(["", ""]) == "\n";
      assert Join(ls) == Join(front) + "\n" + "\n";
    }
  }

  // What a caller can check: the last line has no trailing spaces or tabs, and
  // neither the first two nor the last two lines are both blank.
  predicate EndsAreClean(text: string) {
    var ls := Split(text);
    TrimEnd(ls[|ls| - 1]) == ls[|ls| - 1] && !DoubleStart(Clean(ls)) && !DoubleEnd(Clean(ls))
  }

  lemma SqueezeIsCollapseIff(text: string)
    ensures var clean := Clean(Split(text));
            SqueezeRegex(Join(clean)) == Base(text) <==> !DoubleStart(clean) && !DoubleEnd(clean)
  {
    var clean := Clean(Split(text));
    CleanTrimmed(Split(text));
    if !DoubleStart(clean) && !DoubleEnd(clean) {
      SqueezeIsCollapse(clean);
    } else {
      RegexKeepsDoubles(clean);
      BaseHasNoDoubles(text);
    }
  }

  // The regex form strips every line but the last.
  lemma RegexStrips(text: string)
    ensures var ls := Split(text);
            RegexForm(text) == SqueezeRegex(Join(Clean(ls[..|ls| - 1]) + [ls[|ls| - 1]]))
  {
    JoinSplit(text);
    StripIsClean(Split(text));
  }

  lemma TrimmedEnd(ls: seq<string>)
    requires ls != [] && TrimEnd(ls[|ls| - 1]) == ls[|ls| - 1]
    ensures Clean(ls[..|ls| - 1]) + [ls[|ls| - 1]] == Clean(ls)
  {
  }

  lemma BaseEnds(text: string)
    ensures Base(text) != "" ==> !IsHorizontal(Base(text)[|Base(text)| - 1])
  {
    BaseShape(text);
  }

  lemma UntrimmedEnd(text: string)
    requires var ls := Split(text); TrimEnd(ls[|ls| - 1]) != ls[|ls| - 1]
    ensures Base(text) != RegexForm(text)
  {
    var ls := Split(text);
    BaseEnds(text);
    RegexStrips(text);
    RegexKeepsTail(Clean(ls[..|ls| - 1]) + [ls[|ls| - 1]]);
  }

  // The source says the rewrite gives the same output as the two replacements.
  // It does on exactly these texts; everywhere else the two forms differ.
  lemma LinearMatchesRegexIff(text: string)
    ensures Base(text) == RegexForm(text) <==> EndsAreClean(text)
  {
    var ls := Split(text);
    if TrimEnd(ls[|ls| - 1]) == ls[|ls| - 1] {
      RegexStrips(text);
      TrimmedEnd(ls);
      SqueezeIsCollapseIff(text);
    } else {
      UntrimmedEnd(text);
    }
  }

  // So they differ on every text that ends in a space.
  lemma TrailingSpaceDiffers(text: string)
    ensures Base(text + " ") != RegexForm(text + " ")
  {
    SpaceAtTheEnd(text);
    UntrimmedEnd(text + " ");
  }

  lemma SpaceAtTheEnd(text: string)
    ensures var ls := Split(text + " "); TrimEnd(ls[|ls| - 1]) != ls[|ls| - 1]
  {
    LastTail(text, " ");
    var l := Split(text)[|Split(text)| - 1] + " ";
    assert IsHorizontal(l[|l| - 1]);
  }

  lemma LastTail(text: string, tail: string)
    requires '\n' !in tail
    ensures Split(text + tail)[|Split(text + tail)| - 1] == Split(text)[|Split(text)| - 1] + tail
  {
    SplitTail(text, tail);
  }

  // The regex form leaves the spaces and tabs that end the text.
  lemma RegexKeepsTail(ls: seq<string>)
    requires ls != [] && TrimEnd(ls[|ls| - 1]) != ls[|ls| - 1]
    ensures var t := SqueezeRegex(Join(ls)); t != "" && IsHorizontal(t[|t| - 1])
  {
    var l := ls[|ls| - 1];
    var t := Join(ls);
    JoinEnds(ls);
    assert t[|t| - 1] == t[|t| - |l|..][|l| - 1];
    assert IsHorizontal(l[|l| - 1]);
    SqueezeKeepsLast(t);
  }

  lemma RegexKeepsDoubles(ls: seq<string>)
    requires DoubleStart(ls) || DoubleEnd(ls)
    ensures StartsDouble(SqueezeRegex(Join(ls))) || EndsDouble(SqueezeRegex(Join(ls))) || SqueezeRegex(Join(ls)) == "\n"
  {
    DoublesShow(ls);
    if StartsDouble(Join(ls)) {
      SqueezeKeepsStart(Join(ls));
    } else if EndsDouble(Join(ls)) {
      SqueezeKeepsEnd(Join(ls));
    } else {
      SqueezeNewline();
    }
  }
}
