// The append side of src/audit/log.js: the file as text, the cached head, the
// torn-line repair, and one process's appendEvent.

module AuditLog {
  import opened Text
  import opened Chain

  // The JSON text of a row, and what JSON.parse makes of a line.
  datatype Codec = Codec(render: (string, Head) -> string, parse: string -> Parsed)

  // The first k characters of a row's text.
  datatype Start = Start(payload: string, h: Head, k: nat)

  function TextOf(c: Codec, x: Start): string {
    var text := c.render(x.payload, x.h);
    if x.k <= |text| then text[..x.k] else text
  }

  predicate IsStart(c: Codec, x: Start) {
    0 < x.k <= |c.render(x.payload, x.h)|
  }

  predicate Starts(c: Codec, xs: seq<Start>) {
    forall i :: 0 <= i < |xs| ==> IsStart(c, xs[i])
  }

  // What a line holds on which row after row was begun.
  function Glue(c: Codec, xs: seq<Start>): string {
    if xs == [] then "" else Glue(c, xs[..|xs| - 1]) + TextOf(c, xs[|xs| - 1])
  }

  // Such a line is a row when it is the whole text of one row, else not JSON.
  function LineOf(c: Codec, xs: seq<Start>): Parsed
    requires xs != []
  {
    if |xs| == 1 && xs[0].k == |c.render(xs[0].payload, xs[0].h)| then Row(xs[0].payload, Some(xs[0].h)) else Unparsable
  }

  // What the log relies on: the text of a row is one line and starts with its
  // brace; it parses back to the row; and no text glued together from the starts
  // of rows is valid JSON but that of one whole row.
  ghost predicate RowIsLine(c: Codec, payload: string, h: Head) {
    var text := c.render(payload, h);
    '\n' !in text && |text| > 0 && !IsSpace(text[0])
  }

  ghost predicate GlueParses(c: Codec, xs: seq<Start>) {
    Starts(c, xs) && xs != [] ==> c.parse(Glue(c, xs)) == LineOf(c, xs)
  }

  ghost predicate Faithful(c: Codec) {
    && (forall payload, h {:trigger c.render(payload, h)} :: RowIsLine(c, payload, h))
    && (forall xs: seq<Start> :: GlueParses(c, xs))
  }

  // readLines(): the lines that are not blank.
  function Lines(file: string): seq<string> {
    Filter(NotBlank, Split(file))
  }

  predicate NotBlank(l: string) {
    !IsBlank(l)
  }

  function ParseAll(c: Codec, ls: seq<string>): (ps: seq<Parsed>)
    ensures |ps| == |ls|
    ensures forall i :: 0 <= i < |ls| ==> ps[i] == c.parse(ls[i])
  {
    seq(|ls|, i requires 0 <= i < |ls| => c.parse(ls[i]))
  }

  function ParsedLines(c: Codec, file: string): seq<Parsed> {
    ParseAll(c, Lines(file))
  }

  // A newline first when the file ends mid-line.
  function Lead(file: string): string {
    if |file| > 0 && file[|file| - 1] != '\n' then "\n" else ""
  }

  // What appendFileSync is handed for a row.
  function Bytes(c: Codec, lead: string, payload: string, h: Head): string {
    lead + c.render(payload, h) + "\n"
  }

  function RowBytes(c: Codec, file: string, payload: string, h: Head): string {
    Bytes(c, Lead(file), payload, h)
  }

  lemma LinesAtNewline(a: string, b: string)
    ensures Lines(a + "\n" + b) == Lines(a) + Lines(b)
    ensures Lines(a + "\n") == Lines(a)
  {
    SplitAtNewline(a, b);
    SplitAtNewline(a, "");
    FilterAppend(NotBlank, Split(a), Split(b));
    FilterAppend(NotBlank, Split(a), [""]);
    assert a + "\n" + "" == a + "\n";
  }

  lemma LinesPlain(s: string)
    requires '\n' !in s
    ensures Lines(s) == if IsBlank(s) then [] else [s]
  {
    SplitPlain(s);
    FilterOne(NotBlank, s);
  }

  // --- what a write that lands in part does to the lines ----------------------

  function LastLine(file: string): string {
    Split(file)[|Split(file)| - 1]
  }

  // The row starts that make up the unfinished last line.
  ghost predicate EndsIn(c: Codec, file: string, tail: seq<Start>) {
    Starts(c, tail) && LastLine(file) == Glue(c, tail)
  }

  function NewLead(lead: string, k: nat): bool { lead != "" && k > 0 }

  // How much of the row's own text is among the first k characters.
  function Reached(c: Codec, lead: string, payload: string, h: Head, k: nat): nat {
    var n := |c.render(payload, h)|;
    if k <= |lead| then 0 else if k - |lead| <= n then k - |lead| else n
  }

  // The unfinished line the row's text goes on.
  function Onto(tail: seq<Start>, lead: string, k: nat): seq<Start> {
    if NewLead(lead, k) then [] else tail
  }

  // The lines of the file after the first k characters of a write landed.
  function LandedLines(
    c: Codec, ps: seq<Parsed>, tail: seq<Start>, lead: string, payload: string, h: Head, k: nat): seq<Parsed>
    requires tail != [] ==> ps != []
  {
    var j := Reached(c, lead, payload, h, k);
    if j == 0 then ps
    else if Onto(tail, lead, k) == [] then ps + [LineOf(c, [Start(payload, h, j)])]
    else ps[..|ps| - 1] + [Unparsable]
  }

  function LandedTail(c: Codec, tail: seq<Start>, lead: string, payload: string, h: Head, k: nat): seq<Start> {
    var j := Reached(c, lead, payload, h, k);
    if j == 0 then Onto(tail, lead, k)
    else if k > |lead| + |c.render(payload, h)| then []
    else Onto(tail, lead, k) + [Start(payload, h, j)]
  }

  lemma GlueMore(c: Codec, xs: seq<Start>, x: Start)
    ensures Glue(c, xs + [x]) == Glue(c, xs) + TextOf(c, x)
  {
    assert (xs + [x])[..|xs|] == xs;
  }

  // Glued text starts like its first row.
  lemma {:induction false} GlueStarts(c: Codec, xs: seq<Start>)
    requires Faithful(c) && Starts(c, xs) && xs != []
    ensures Glue(c, xs) != "" && !IsSpace(Glue(c, xs)[0]) && '\n' !in Glue(c, xs)
  {
    var x := xs[|xs| - 1];
    assert RowIsLine(c, x.payload, x.h) && IsStart(c, x);
    if |xs| > 1 {
      GlueStarts(c, xs[..|xs| - 1]);
    } else {
      NothingInFront(TextOf(c, x));
    }
  }

  // The lines of a file with its unfinished last line apart.
  lemma LinesOf(c: Codec, file: string, tail: seq<Start>)
    requires Faithful(c) && EndsIn(c, file, tail)
    ensures var ls := Split(file);
            Lines(file) == Filter(NotBlank, ls[..|ls| - 1]) + (if tail == [] then [] else [Glue(c, tail)])
  {
    var ls := Split(file);
    FilterLast(NotBlank, ls);
    if tail != [] {
      GlueStarts(c, tail);
      StartsInText(LastLine(file));
    } else {
      NothingOnIt(LastLine(file));
    }
  }

  lemma StartsInText(l: string)
    requires l != "" && !IsSpace(l[0])
    ensures NotBlank(l)
  {
  }

  lemma NothingOnIt(l: string)
    requires l == ""
    ensures !NotBlank(l)
  {
  }

  // The last line takes the text; the lines before it stay.
  lemma LastLineTakes(file: string, text: string)
    requires '\n' !in text
    ensures LastLine(file + text) == LastLine(file) + text
    ensures var ls, ms := Split(file), Split(file + text);
            ms[..|ms| - 1] == ls[..|ls| - 1]
  {
    SplitTail(file, text);
    SameFront(Split(file), Split(file + text));
  }

  lemma SameFront(ls: seq<string>, ms: seq<string>)
    requires |ls| == |ms| >= 1 && forall i :: 0 <= i < |ls| - 1 ==> ms[i] == ls[i]
    ensures ms[..|ms| - 1] == ls[..|ls| - 1]
  {
  }

  lemma StartIsPlain(c: Codec, x: Start)
    requires Faithful(c) && IsStart(c, x)
    ensures '\n' !in TextOf(c, x)
  {
    assert RowIsLine(c, x.payload, x.h);
  }

  lemma TailTakes(c: Codec, file: string, tail: seq<Start>, x: Start)
    requires Faithful(c) && EndsIn(c, file, tail) && IsStart(c, x)
    ensures EndsIn(c, file + TextOf(c, x), tail + [x])
  {
    StartIsPlain(c, x);
    LastLineTakes(file, TextOf(c, x));
    GlueMore(c, tail, x);
  }

  // More text on the last line.
  lemma OnLastLine(c: Codec, file: string, tail: seq<Start>, x: Start)
    requires Faithful(c) && EndsIn(c, file, tail) && IsStart(c, x)
    ensures EndsIn(c, file + TextOf(c, x), tail + [x]) && (tail != [] ==> Lines(file) != [])
    ensures Lines(file + TextOf(c, x)) ==
            (if tail == [] then Lines(file) else Lines(file)[..|Lines(file)| - 1]) + [Glue(c, tail + [x])]
  {
    TailTakes(c, file, tail, x);
    StartIsPlain(c, x);
    LastLineTakes(file, TextOf(c, x));
    LinesOf(c, file, tail);
    LinesOf(c, file + TextOf(c, x), tail + [x]);
    NothingBehind(Filter(NotBlank, Split(file)[..|Split(file)| - 1]));
  }

  // A newline ends the last line and changes nothing else.
  lemma EndLine(c: Codec, file: string)
    ensures Lines(file + "\n") == Lines(file) && EndsIn(c, file + "\n", [])
  {
    LinesAtNewline(file, "");
    SplitAtNewline(file, "");
    assert file + "\n" + "" == file + "\n";
  }

  lemma ParseMore(c: Codec, ls: seq<string>, l: string)
    ensures ParseAll(c, ls + [l]) == ParseAll(c, ls) + [c.parse(l)]
  {
  }

  // The text of the row lands on the line it is put on.
  lemma TextLands(c: Codec, file: string, tail: seq<Start>, x: Start)
    requires Faithful(c) && EndsIn(c, file, tail) && IsStart(c, x)
    ensures tail != [] ==> ParsedLines(c, file) != []
    ensures var ps := ParsedLines(c, file);
            ParsedLines(c, file + TextOf(c, x)) ==
              if tail == [] then ps + [LineOf(c, [x])] else ps[..|ps| - 1] + [Unparsable]
    ensures EndsIn(c, file + TextOf(c, x), tail + [x])
  {
    OnLastLine(c, file, tail, x);
    GlueIsLine(c, tail + [x]);
    if tail == [] {
      NothingInFront([x]);
      ParseMore(c, Lines(file), Glue(c, [x]));
    } else {
      ParseInstead(c, Lines(file), Glue(c, tail + [x]));
    }
  }

  lemma GlueIsLine(c: Codec, xs: seq<Start>)
    requires Faithful(c) && Starts(c, xs) && xs != []
    ensures c.parse(Glue(c, xs)) == LineOf(c, xs)
  {
    assert GlueParses(c, xs);
  }

  lemma ParseInstead(c: Codec, ls: seq<string>, l: string)
    requires ls != []
    ensures ParseAll(c, ls[..|ls| - 1] + [l]) == ParseAll(c, ls)[..|ls| - 1] + [c.parse(l)]
  {
  }

  lemma LeadLands(c: Codec, file: string, tail: seq<Start>, lead: string, k: nat)
    requires (lead == "" || lead == "\n") && EndsIn(c, file, tail) && k <= |lead|
    ensures Lines(file + lead[..k]) == Lines(file) && EndsIn(c, file + lead[..k], Onto(tail, lead, k))
  {
    if k == 0 {
      assert lead[..0] == "";
      NothingBehind(file);
    } else {
      assert lead[..k] == "\n";
      EndLine(c, file);
    }
  }

  // The cut pieces of a write: the lead, then the text, then the newline.
  lemma CutBytes(c: Codec, file: string, lead: string, payload: string, h: Head, k: nat)
    requires (lead == "" || lead == "\n") && |lead| < k <= |Bytes(c, lead, payload, h)|
    ensures var j := Reached(c, lead, payload, h, k);
            var text := c.render(payload, h);
            file + Bytes(c, lead, payload, h)[..k]
            == ((file + lead) + text[..j]) + if k > |lead| + |text| then "\n" else ""
  {
    var text, bytes := c.render(payload, h), Bytes(c, lead, payload, h);
    var j := Reached(c, lead, payload, h, k);
    if k > |lead| + |text| {
      assert bytes[..k] == lead + text[..j] + "\n";
    } else {
      assert bytes[..k] == lead + text[..j] + "";
    }
  }

  // Whatever prefix of a write lands, and wherever the file ended by then: the
  // lines before the unfinished one stay as they are. The row gets a line of its
  // own, whole or torn, or is glued to the unfinished one and lost with it.
  lemma WriteLands(c: Codec, file: string, tail: seq<Start>, lead: string, payload: string, h: Head, k: nat)
    requires Faithful(c) && EndsIn(c, file, tail) && (lead == "" || lead == "\n")
    requires k <= |Bytes(c, lead, payload, h)|
    ensures tail != [] ==> ParsedLines(c, file) != []
    ensures var after := file + Bytes(c, lead, payload, h)[..k];
            && ParsedLines(c, after) == LandedLines(c, ParsedLines(c, file), tail, lead, payload, h, k)
            && EndsIn(c, after, LandedTail(c, tail, lead, payload, h, k))
  {
    var text := c.render(payload, h);
    assert RowIsLine(c, payload, h);
    LinesOf(c, file, tail);
    if k <= |lead| {
      assert Bytes(c, lead, payload, h)[..k] == lead[..k];
      LeadLands(c, file, tail, lead, k);
    } else {
      RowLands(c, file, tail, lead, payload, h, k);
    }
  }

  lemma RowLands(c: Codec, file: string, tail: seq<Start>, lead: string, payload: string, h: Head, k: nat)
    requires Faithful(c) && EndsIn(c, file, tail) && (lead == "" || lead == "\n")
    requires |lead| < k <= |Bytes(c, lead, payload, h)| && RowIsLine(c, payload, h)
    requires tail != [] ==> ParsedLines(c, file) != []
    ensures var after := file + Bytes(c, lead, payload, h)[..k];
            && ParsedLines(c, after) == LandedLines(c, ParsedLines(c, file), tail, lead, payload, h, k)
            && EndsIn(c, after, LandedTail(c, tail, lead, payload, h, k))
  {
    var text, j := c.render(payload, h), Reached(c, lead, payload, h, k);
    assert lead[..|lead|] == lead;
    LeadLands(c, file, tail, lead, |lead|);
    TextLands(c, file + lead, Onto(tail, lead, k), Start(payload, h, j));
    CutBytes(c, file, lead, payload, h, k);
    if k > |lead| + |text| {
      EndLine(c, (file + lead) + text[..j]);
    } else {
      NothingBehind((file + lead) + text[..j]);
    }
  }

  // The lines that appear when the write started on a fresh line.
  function Landed(c: Codec, file: string, payload: string, h: Head, k: nat): seq<Parsed> {
    if k <= |Lead(file)| then []
    else if k < |Lead(file)| + |c.render(payload, h)| then [Unparsable]
    else [Row(payload, Some(h))]
  }

  lemma {:induction false} LeadByLastLine(file: string)
    ensures Lead(file) == "" <==> LastLine(file) == ""
  {
    if file != "" {
      JoinSplit(file);
      LeadByLastLine(file[1..]);
      LastOfPut(file[0], Split(file[1..]));
    }
  }

  lemma LastOfPut(c: char, ls: seq<string>)
    requires |ls| >= 1
    ensures var ms := Put(c, ls);
            |ms| >= 1 && (ms[|ms| - 1] == "" <==> ls[|ls| - 1] == "" && (c == '\n' || |ls| > 1))
  {
  }

  // Torn-write recovery, character by character: when the lead fits the file,
  // whatever prefix of a write lands, every earlier line stays and at most one
  // line is added, which is unparsable exactly when the row's text is cut.
  lemma TornAppend(c: Codec, file: string, tail: seq<Start>, payload: string, h: Head, k: nat)
    requires Faithful(c) && EndsIn(c, file, tail)
    requires k <= |RowBytes(c, file, payload, h)|
    ensures ParsedLines(c, file + RowBytes(c, file, payload, h)[..k])
         == ParsedLines(c, file) + Landed(c, file, payload, h, k)
  {
    WriteLands(c, file, tail, Lead(file), payload, h, k);
    LeadByLastLine(file);
    assert RowIsLine(c, payload, h);
    if tail != [] {
      GlueStarts(c, tail);
    }
    NothingBehind(ParsedLines(c, file));
  }

  // --- the cached head ------------------------------------------------------

  datatype Cache = Cache(head: Head, count: nat, size: nat)

  // load() walks back to the last line that parses to a row with a string `h`.
  function LastHead(ps: seq<Parsed>): Head {
    if ps == [] then GENESIS
    else
      var p := ps[|ps| - 1];
      if p.Row? && p.h.Some? then p.h.value else LastHead(ps[..|ps| - 1])
  }

  function LoadCache(c: Codec, file: string): Cache {
    Cache(LastHead(ParsedLines(c, file)), |Lines(file)|, |file|)
  }

  // The cache an append works from: kept only while the file size has not moved.
  function Refresh(c: Codec, file: string, state: Option<Cache>): Cache {
    if state.Some? && state.value.size == |file| then state.value else LoadCache(c, file)
  }

  // The last line that is a row, if any, carries `h`.
  predicate LastRowHashed(ps: seq<Parsed>) {
    ps == [] || (if ps[|ps| - 1].Row? then ps[|ps| - 1].h.Some? else LastRowHashed(ps[..|ps| - 1]))
  }

  function Depth(h: Head): nat {
    match h case Plain(_) => 0 case Digest(_, prev, _, _) => 1 + Depth(prev)
  }

  lemma {:induction false} HeadIsDeeper(key: Key, ps: seq<Parsed>)
    ensures if LastRowHashed(ps) then HeadAfter(key, ps) == LastHead(ps)
            else Depth(HeadAfter(key, ps)) > Depth(LastHead(ps))
  {
    if ps != [] {
      HeadIsDeeper(key, ps[..|ps| - 1]);
    }
  }

  // load() and verifyAudit agree on the head of a file if and only if its last
  // row, if any, carries `h`: verifyAudit advances over a row without one, and
  // load() walks past it.
  lemma LoadAgreesWithVerifyIff(key: Key, ps: seq<Parsed>)
    ensures LastHead(ps) == HeadAfter(key, ps) <==> LastRowHashed(ps)
  {
    HeadIsDeeper(key, ps);
  }

  // So the next append from load's head is itself reported as a break if and only
  // if that row has none.
  lemma AppendAfterLoadIff(key: Key, ps: seq<Parsed>, next: string)
    ensures Breaks(key, ps + [Row(next, Some(ChainHashWith(key, LastHead(ps), next)))], |ps|) <==> !LastRowHashed(ps)
  {
    AppendBreaks(key, ps, LastHead(ps), next);
    LoadAgreesWithVerifyIff(key, ps);
  }

  // --- one process ----------------------------------------------------------

  // What lands of a write that stops after `landed` characters.
  function FirstOf(bytes: string, landed: nat): string {
    if landed <= |bytes| then bytes[..landed] else bytes
  }

  // The two files every process shares.
  class Disk {
    var file: string
    var anchor: Option<Anchor>

    constructor ()
      ensures file == "" && anchor == None
    {
      file, anchor := "", None;
    }
  }

  // What the operating system did with the write of a row.
  datatype Outcome = Complete | Failed(landed: nat)

  class Writer {
    const key: Key
    const codec: Codec
    const disk: Disk
    var state: Option<Cache>
    var writeFailures: nat

    constructor (key: Key, codec: Codec, disk: Disk)
      ensures this.key == key && this.codec == codec && this.disk == disk
      ensures state == None && writeFailures == 0
    {
      this.key, this.codec, this.disk := key, codec, disk;
      state, writeFailures := None, 0;
    }

    // load()'s walk back to the last line that parses to a row with a string `h`.
    method LoadHead(lines: seq<string>) returns (head: Head)
      ensures head == LastHead(ParseAll(codec, lines))
    {
      ghost var ps := ParseAll(codec, lines);
      head := GENESIS;
      var i := |lines|;
      assert ps[..i] == ps;
      while i > 0
        invariant 0 <= i <= |lines|
        invariant head == GENESIS
        invariant LastHead(ps) == LastHead(ps[..i])
      {
        i := i - 1;
        assert ps[..i + 1][..i] == ps[..i] && ps[..i + 1][i] == codec.parse(lines[i]);
        var row := codec.parse(lines[i]);
        if row.Row? && row.h.Some? {
          return row.h.value;
        }
      }
    }

    method Load() returns (s: Cache)
      modifies this`state
      ensures state == Some(s)
      ensures s == if old(state).Some? then old(state).value else LoadCache(codec, disk.file)
    {
      if state.Some? {
        return state.value;
      }
      var lines := Lines(disk.file);
      var head := LoadHead(lines);
      s := Cache(head, |lines|, |disk.file|);
      state := Some(s);
    }

    method EndsWithNewline() returns (b: bool)
      ensures b <==> Lead(disk.file) == ""
    {
      if |disk.file| == 0 {
        return true;
      }
      b := disk.file[|disk.file| - 1] == '\n';
    }

    method LeadFor(size: nat) returns (lead: string)
      requires size == |disk.file|
      ensures lead == Lead(disk.file)
    {
      lead := "";
      if size > 0 {
        var ends := EndsWithNewline();
        lead := if ends then "" else "\n";
      }
    }

    // appendEvent between taking and giving back the lock. `outcome` and
    // `anchorWritten` say what the file system did; neither is ever raised.
    method AppendEvent(payload: string, outcome: Outcome, anchorWritten: bool) returns (h: Head)
      modifies this, disk
      ensures var s := Refresh(codec, old(disk.file), old(state));
              var bytes := RowBytes(codec, old(disk.file), payload, h);
              && h == ChainHashWith(key, s.head, payload)
              && (outcome.Complete? ==>
                    && disk.file == old(disk.file) + bytes
                    && state == Some(Cache(h, s.count + 1, |disk.file|))
                    && disk.anchor ==
                       (if anchorWritten then Some(MakeAnchor(key, s.count + 1, h)) else old(disk.anchor))
                    && writeFailures == old(writeFailures))
              && (outcome.Failed? ==>
                    && disk.file == old(disk.file) + FirstOf(bytes, outcome.landed)
                    && state == Some(s)
                    && disk.anchor == old(disk.anchor)
                    && writeFailures == old(writeFailures) + 1)
    {
      if state.Some? && |disk.file| != state.value.size {
        state := None;
      }
      var s := Load();
      h := ChainHashWith(key, s.head, payload);
      var lead := LeadFor(s.size);
      var bytes := lead + codec.render(payload, h) + "\n";
      match outcome {
        case Complete =>
          disk.file := disk.file + bytes;
          state := Some(Cache(h, s.count + 1, |disk.file|));
          if anchorWritten {
            disk.anchor := Some(MakeAnchor(key, s.count + 1, h));
          }
        case Failed(landed) =>
          disk.file := disk.file + FirstOf(bytes, landed);
          writeFailures := writeFailures + 1;
      }
    }
  }
}
