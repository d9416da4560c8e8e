// A row format that has the properties AuditLog asks of JSON text, so that
// asking for them asks for nothing impossible.

module RowText {
  import opened Text
  import opened Chain
  import opened AuditLog

  // A string as the numbers of its characters.
  function Chars(s: string): string {
    if s == "" then "." else Decimal(s[0] as int) + "," + Chars(s[1..])
  }

  function KeyText(k: Key): string {
    match k case None => "N" case Some(s) => "K" + Chars(s)
  }

  function HeadText(h: Head): string {
    match h
    case Plain(text) => "P" + Chars(text)
    case Digest(key, prev, payload, caps) =>
      "D" + (KeyText(key) + (HeadText(prev) + (Chars(payload) + (Decimal(caps) + ","))))
  }

  function Body(payload: string, h: Head): string {
    Chars(payload) + HeadText(h)
  }

  function Render(payload: string, h: Head): string {
    "{" + Body(payload, h) + "}"
  }

  ghost function Parse(line: string): Parsed {
    if exists payload, h :: line == Render(payload, h)
    then var payload, h :| line == Render(payload, h); Row(payload, Some(h))
    else Unparsable
  }

  predicate IsDigit(c: char) { '0' <= c <= '9' }

  ghost predicate Clean(s: string) {
    forall i :: 0 <= i < |s| ==> s[i] != '{' && s[i] != '}' && s[i] != '\n'
  }

  lemma {:induction false} DecimalIsDigits(n: nat)
    ensures forall i :: 0 <= i < |Decimal(n)| ==> IsDigit(Decimal(n)[i])
  {
    if n >= 10 {
      DecimalIsDigits(n / 10);
    }
  }

  lemma FirstComma(s: string, x: string)
    requires forall j :: 0 <= j < |s| ==> IsDigit(s[j])
    ensures (s + "," + x)[|s|] == ','
    ensures forall i :: 0 <= i < |s| ==> (s + "," + x)[i] != ','
  {
    assert forall i :: 0 <= i < |s| ==> (s + "," + x)[i] == s[i];
  }

  lemma NumberSplits(a: nat, b: nat, x: string, y: string)
    requires Decimal(a) + "," + x == Decimal(b) + "," + y
    ensures a == b && x == y
  {
    var s, t := Decimal(a), Decimal(b);
    var u := s + "," + x;
    DecimalIsDigits(a);
    DecimalIsDigits(b);
    FirstComma(s, x);
    FirstComma(t, y);
    assert |s| == |t|;
    assert u[..|s|] == s && u[..|t|] == t;
    DecimalInjective(a, b);
    assert u[|s| + 1..] == x && u[|s| + 1..] == y;
  }

  lemma {:induction false} CharsSplit(s: string, t: string, x: string, y: string)
    requires Chars(s) + x == Chars(t) + y
    ensures s == t && x == y
  {
    FirstOfChars(s);
    FirstOfChars(t);
    assert (Chars(s) + x)[0] == Chars(s)[0] && (Chars(t) + y)[0] == Chars(t)[0];
    if s == "" {
      assert ("." + x)[1..] == x && ("." + y)[1..] == y;
    } else {
      var p, q := Chars(s[1..]) + x, Chars(t[1..]) + y;
      assert Chars(s) + x == Decimal(s[0] as int) + "," + p;
      assert Chars(t) + y == Decimal(t[0] as int) + "," + q;
      NumberSplits(s[0] as int, t[0] as int, p, q);
      CharsSplit(s[1..], t[1..], x, y);
      assert s == [s[0]] + s[1..] && t == [t[0]] + t[1..];
    }
  }

  lemma FirstOfChars(s: string)
    ensures Chars(s) != "" && (s == "" <==> Chars(s)[0] == '.')
  {
    if s != "" {
      DecimalIsDigits(s[0] as int);
      assert Chars(s)[0] == Decimal(s[0] as int)[0];
    }
  }

  lemma KeySplits(j: Key, k: Key, x: string, y: string)
    requires KeyText(j) + x == KeyText(k) + y
    ensures j == k && x == y
  {
    var u, v := KeyText(j) + x, KeyText(k) + y;
    KeyHead(j, x);
    KeyHead(k, y);
    if j.Some? && k.Some? {
      CharsSplit(j.value, k.value, x, y);
    }
  }

  lemma KeyHead(k: Key, x: string)
    ensures var u := KeyText(k) + x;
            u != "" && u[0] == (if k.Some? then 'K' else 'N') && u[1..] == (if k.Some? then Chars(k.value) + x else x)
  {
    if k.Some? {
      assert ("K" + Chars(k.value) + x)[1..] == Chars(k.value) + x;
    } else {
      assert ("N" + x)[1..] == x;
    }
  }

  lemma {:induction false} HeadSplits(g: Head, h: Head, x: string, y: string)
    requires HeadText(g) + x == HeadText(h) + y
    ensures g == h && x == y
    decreases g
  {
    var u := HeadText(g) + x;
    assert u[0] == HeadText(g)[0] && u[0] == HeadText(h)[0];
    if g.Plain? {
      assert u[1..] == Chars(g.text) + x && u[1..] == Chars(h.text) + y;
      CharsSplit(g.text, h.text, x, y);
    } else {
      var g3, h3 := Decimal(g.caps) + "," + x, Decimal(h.caps) + "," + y;
      var g2, h2 := Chars(g.payload) + g3, Chars(h.payload) + h3;
      var g1, h1 := HeadText(g.prev) + g2, HeadText(h.prev) + h2;
      DigestText(g, x, g1, g2, g3);
      DigestText(h, y, h1, h2, h3);
      KeySplits(g.key, h.key, g1, h1);
      HeadSplits(g.prev, h.prev, g2, h2);
      CharsSplit(g.payload, h.payload, g3, h3);
      NumberSplits(g.caps, h.caps, x, y);
    }
  }

  lemma DigestText(g: Head, x: string, g1: string, g2: string, g3: string)
    requires g.Digest?
    requires g3 == Decimal(g.caps) + "," + x && g2 == Chars(g.payload) + g3 && g1 == HeadText(g.prev) + g2
    ensures (HeadText(g) + x)[1..] == KeyText(g.key) + g1
  {
    assert g3 == (Decimal(g.caps) + ",") + x;
    assert g2 == (Chars(g.payload) + (Decimal(g.caps) + ",")) + x;
    assert g1 == (HeadText(g.prev) + (Chars(g.payload) + (Decimal(g.caps) + ","))) + x;
  }

  lemma CleanConcat(a: string, b: string)
    requires Clean(a) && Clean(b)
    ensures Clean(a + b)
  {
  }

  lemma {:induction false} CharsClean(s: string)
    ensures Clean(Chars(s))
  {
    if s != "" {
      DecimalIsDigits(s[0] as int);
      CharsClean(s[1..]);
    }
  }

  lemma {:induction false} HeadClean(h: Head)
    ensures Clean(HeadText(h))
  {
    match h {
      case Plain(text) => CharsClean(text);
      case Digest(key, prev, payload, caps) =>
        if key.Some? {
          CharsClean(key.value);
        }
        HeadClean(prev);
        CharsClean(payload);
        DecimalIsDigits(caps);
        CleanConcat(Chars(payload), Decimal(caps) + ",");
        CleanConcat(HeadText(prev), Chars(payload) + (Decimal(caps) + ","));
        CleanConcat(KeyText(key), HeadText(prev) + (Chars(payload) + (Decimal(caps) + ",")));
    }
  }

  lemma BodyClean(payload: string, h: Head)
    ensures Clean(Body(payload, h))
  {
    CharsClean(payload);
    HeadClean(h);
    CleanConcat(Chars(payload), HeadText(h));
  }

  // The brace that starts a row is nowhere else in it, and the one that ends it.
  lemma Braces(payload: string, h: Head, i: nat)
    requires i < |Render(payload, h)|
    ensures var text := Render(payload, h);
            && (text[i] == '{' <==> i == 0) && (text[i] == '}' <==> i == |text| - 1) && text[i] != '\n'
  {
    BodyClean(payload, h);
    if 0 < i < |Render(payload, h)| - 1 {
      assert Render(payload, h)[i] == Body(payload, h)[i - 1];
    }
  }

  lemma BodiesDiffer(payload: string, h: Head, p: string, g: Head)
    requires Render(payload, h) == Render(p, g)
    ensures payload == p && h == g
  {
    var text := Render(payload, h);
    assert text[1..|text| - 1] == Body(payload, h) && text[1..|text| - 1] == Body(p, g);
    CharsSplit(payload, p, HeadText(h), HeadText(g));
    NothingBehind(HeadText(h));
    NothingBehind(HeadText(g));
    HeadSplits(h, g, "", "");
  }

  lemma WholeParses(payload: string, h: Head)
    ensures Parse(Render(payload, h)) == Row(payload, Some(h))
  {
    var text := Render(payload, h);
    var p, g :| text == Render(p, g) && Parse(text) == Row(p, Some(g));
    BodiesDiffer(payload, h, p, g);
  }

  // A row is one line that starts with its brace.
  lemma RowsAreLines(payload: string, h: Head)
    ensures RowIsLine(Codec(Render, Parse), payload, h)
  {
    var text := Render(payload, h);
    forall i | 0 <= i < |text| ensures text[i] != '\n' {
      Braces(payload, h, i);
    }
  }

  lemma StartsWithBrace(x: Start)
    requires IsStart(Codec(Render, Parse), x)
    ensures |TextOf(Codec(Render, Parse), x)| == x.k && TextOf(Codec(Render, Parse), x)[0] == '{'
  {
    Braces(x.payload, x.h, 0);
  }

  lemma GlueOne(c: Codec, x: Start)
    ensures Glue(c, [x]) == TextOf(c, x)
  {
    assert [x] == [] + [x];
    GlueMore(c, [], x);
    NothingInFront(TextOf(c, x));
  }

  // One start is a row when nothing of it is missing.
  lemma OneStart(x: Start)
    requires IsStart(Codec(Render, Parse), x)
    ensures Parse(TextOf(Codec(Render, Parse), x)) == LineOf(Codec(Render, Parse), [x])
  {
    var text := Render(x.payload, x.h);
    if x.k == |text| {
      assert text[..x.k] == text;
      WholeParses(x.payload, x.h);
    } else {
      Braces(x.payload, x.h, x.k - 1);
      forall p, g ensures text[..x.k] != Render(p, g) {
        Braces(p, g, |Render(p, g)| - 1);
      }
    }
  }

  // More than one start: a second brace.
  lemma MoreStarts(xs: seq<Start>)
    requires Starts(Codec(Render, Parse), xs) && |xs| > 1
    ensures Parse(Glue(Codec(Render, Parse), xs)) == Unparsable
  {
    var c := Codec(Render, Parse);
    var front, x := Glue(c, xs[..|xs| - 1]), xs[|xs| - 1];
    GlueHasBrace(xs[..|xs| - 1]);
    StartsWithBrace(x);
    assert (front + TextOf(c, x))[|front|] == '{';
    forall p, g ensures Glue(c, xs) != Render(p, g) {
      if Glue(c, xs) == Render(p, g) {
        Braces(p, g, |front|);
      }
    }
  }

  lemma GlueHasBrace(xs: seq<Start>)
    requires Starts(Codec(Render, Parse), xs) && xs != []
    ensures Glue(Codec(Render, Parse), xs) != ""
  {
    StartsWithBrace(xs[|xs| - 1]);
  }

  lemma GlueIsFaithful(xs: seq<Start>)
    ensures GlueParses(Codec(Render, Parse), xs)
  {
    var c := Codec(Render, Parse);
    if Starts(c, xs) && xs != [] {
      if |xs| == 1 {
        OneStart(xs[0]);
        GlueOne(c, xs[0]);
        assert xs == [xs[0]];
      } else {
        MoreStarts(xs);
      }
    }
  }

  // The properties asked of the row format can be had.
  lemma FaithfulFormatExists()
    ensures exists c :: Faithful(c)
  {
    var c := Codec(Render, Parse);
    forall payload, h ensures RowIsLine(c, payload, h) {
      RowsAreLines(payload, h);
    }
    forall xs: seq<Start> ensures GlueParses(c, xs) {
      GlueIsFaithful(xs);
    }
    assert Faithful(c);
  }
}
