// When the keys of toAnthropicStream (src/inbound/anthropicInbound.js) tell the calls
// apart that the router's places do, and meet them in the same order.

module Alignment {
  import opened Text
  import opened Labels
  import opened AnthropicStream
  import opened Places
  import opened Collected

  // --- keys and places ----------------------------------------------------------

  // The key each fragment goes by in toAnthropicStream, and the place it has here.
  function KeysOf(cs: seq<Call>): (r: seq<Key>)
    ensures |r| == |cs|
  {
    if cs == [] then []
    else
      var before := KeysOf(cs[..|cs| - 1]);
      before + [KeyOf(cs[|cs| - 1], |Firsts(before)|)]
  }

  function PlacesOf(cs: seq<Call>): (r: seq<int>)
    ensures |r| == |cs|
  {
    if cs == [] then []
    else
      var init := cs[..|cs| - 1];
      PlacesOf(init) + [IndexOf(StitchAll(init), cs[|cs| - 1])]
  }

  // The keys met, in order.
  function Met(cs: seq<Call>): seq<Key> { Firsts(KeysOf(cs)) }

  function ByKey(cs: seq<Call>, key: Key): seq<Call> { Labelled(cs, KeysOf(cs), key) }

  lemma {:induction false} PlacedIsLabelled(cs: seq<Call>, i: int)
    ensures Placed(cs, i) == Labelled(cs, PlacesOf(cs), i)
  {
    if cs != [] {
      PlacedIsLabelled(cs[..|cs| - 1], i);
      LabelsStep(cs);
    }
  }

  lemma LabelsStep(cs: seq<Call>)
    requires cs != []
    ensures var n := |cs| - 1;
            && KeysOf(cs)[..n] == KeysOf(cs[..n]) && KeysOf(cs)[n] == KeyOf(cs[n], |Met(cs[..n])|)
            && PlacesOf(cs)[..n] == PlacesOf(cs[..n]) && PlacesOf(cs)[n] == IndexOf(StitchAll(cs[..n]), cs[n])
  {
  }

  lemma {:induction false} LabelsAt(cs: seq<Call>, g: nat)
    requires g < |cs|
    ensures KeysOf(cs)[g] == KeyOf(cs[g], |Met(cs[..g])|)
    ensures PlacesOf(cs)[g] == IndexOf(StitchAll(cs[..g]), cs[g])
  {
    var n := |cs| - 1;
    LabelsStep(cs);
    if g < n {
      LabelsAt(cs[..n], g);
      assert cs[..n][..g] == cs[..g];
    }
  }

  // Keys and places tell the same calls apart.
  predicate SameCalls(cs: seq<Call>) {
    SameClasses(KeysOf(cs), PlacesOf(cs))
  }

  predicate InArray(places: seq<int>) {
    forall g :: 0 <= g < |places| ==> IsElement(places[g])
  }

  // Keys and places tell the same calls apart, every place is in the array, and
  // the calls first appear in the order of their places.
  predicate Aligned(cs: seq<Call>) {
    SameCalls(cs) && InArray(PlacesOf(cs)) && Rising(Firsts(PlacesOf(cs)))
  }

  // --- the places in use ---------------------------------------------------------

  lemma {:induction false} BelowLength(cs: seq<Call>, g: nat)
    requires g < |cs| && IsElement(PlacesOf(cs)[g])
    ensures PlacesOf(cs)[g] < StitchAll(cs).length
  {
    LabelsStep(cs);
    if g < |cs| - 1 {
      BelowLength(cs[..|cs| - 1], g);
    }
  }

  lemma PlaceIsUsed(cs: seq<Call>, i: int)
    ensures Placed(cs, i) != [] <==> i in PlacesOf(cs)
  {
    PlacedIsLabelled(cs, i);
    SomeLabelled(cs, PlacesOf(cs), i);
  }

  // The places in use are the array indices among the fragments' places.
  lemma InUseMembers(cs: seq<Call>, i: int)
    ensures i in InUse(cs) <==> IsElement(i) && i in PlacesOf(cs)
  {
    BelowMembers(Holding(cs), StitchAll(cs).length, i);
    PlaceIsUsed(cs, i);
    LengthIsArrays(cs);
    if IsElement(i) && i in PlacesOf(cs) {
      var g :| 0 <= g < |PlacesOf(cs)| && PlacesOf(cs)[g] == i;
      BelowLength(cs, g);
    }
  }

  lemma InUseIs(cs: seq<Call>, xs: seq<int>, ys: seq<int>)
    requires xs == PlacesOf(cs) && InArray(xs) && Rising(ys) && AmongThem(xs, ys) && AmongThem(ys, xs)
    ensures InUse(cs) == ys
  {
    var zs := InUse(cs);
    BelowRises(Holding(cs), StitchAll(cs).length);
    forall i | 0 <= i < |zs| ensures zs[i] in ys {
      assert zs[i] in zs;
      InUseMembers(cs, zs[i]);
    }
    forall i | 0 <= i < |ys| ensures ys[i] in zs {
      InUseMembers(cs, ys[i]);
    }
    RisingSame(zs, ys);
  }

  // In the order in which they appear, if that rises.
  lemma AppearInOrder(cs: seq<Call>)
    requires InArray(PlacesOf(cs)) && Rising(Firsts(PlacesOf(cs)))
    ensures Firsts(PlacesOf(cs)) == InUse(cs)
  {
    var xs, ys := PlacesOf(cs), Firsts(PlacesOf(cs));
    forall i | 0 <= i < |xs| ensures xs[i] in ys {
      assert xs[i] in xs;
      FirstsMembers(xs, xs[i]);
    }
    forall i | 0 <= i < |ys| ensures ys[i] in xs {
      assert ys[i] in ys;
      FirstsMembers(xs, ys[i]);
    }
    InUseIs(cs, xs, ys);
  }

  // --- by the indices and ids the fragments give ------------------------------------

  predicate NamesIndex(cs: seq<Call>, i: int) {
    exists g :: 0 <= g < |cs| && cs[g].index == Some(i)
  }

  predicate NamesId(cs: seq<Call>, id: string) {
    exists g :: 0 <= g < |cs| && cs[g].index.None? && cs[g].id == id
  }

  predicate Nameless(c: Call) { c.index.None? && c.id == "" }

  // Fragment g has neither index nor id and came when i keys had been met: its key
  // is that number, as if it had named index i.
  predicate CountedAs(cs: seq<Call>, g: nat, i: int)
    requires g < |cs|
  {
    Nameless(cs[g]) && |Met(cs[..g])| == i
  }

  predicate Counted(cs: seq<Call>, i: int) {
    exists g :: 0 <= g < |cs| && CountedAs(cs, g, i)
  }

  predicate PutAt(cs: seq<Call>, g: nat, i: int)
    requires g < |cs|
  {
    StitchAll(cs[..g]).length == i
  }

  predicate CountedThere(cs: seq<Call>, i: int) {
    exists g :: 0 <= g < |cs| && CountedAs(cs, g, i) && PutAt(cs, g, i)
  }

  lemma IndexMet(cs: seq<Call>, i: int)
    ensures At(i) in KeysOf(cs) <==> NamesIndex(cs, i) || Counted(cs, i)
  {
    forall g | 0 <= g < |cs| ensures KeysOf(cs)[g] == At(i) <==> cs[g].index == Some(i) || CountedAs(cs, g, i) {
      LabelsAt(cs, g);
    }
    if At(i) in KeysOf(cs) {
      var g :| 0 <= g < |KeysOf(cs)| && KeysOf(cs)[g] == At(i);
      assert cs[g].index == Some(i) || CountedAs(cs, g, i);
    }
  }

  lemma IdMet(cs: seq<Call>, id: string)
    requires id != ""
    ensures Named(id) in KeysOf(cs) <==> NamesId(cs, id)
  {
    forall g | 0 <= g < |cs| ensures KeysOf(cs)[g] == Named(id) <==> cs[g].index.None? && cs[g].id == id {
      LabelsAt(cs, g);
    }
    if Named(id) in KeysOf(cs) {
      var g :| 0 <= g < |KeysOf(cs)| && KeysOf(cs)[g] == Named(id);
      assert cs[g].index.None? && cs[g].id == id;
    }
  }

  // A fragment without an index opens a new call by its key: no earlier one without
  // an index gave its id; or, with no id either, no earlier one goes by the number
  // of keys met.
  predicate OpensKey(before: seq<Call>, c: Call)
    requires c.index.None?
  {
    if c.id != "" then !NamesId(before, c.id)
    else !NamesIndex(before, |Met(before)|) && !Counted(before, |Met(before)|)
  }

  lemma OpensKeyIff(before: seq<Call>, c: Call)
    requires c.index.None?
    ensures OpensKey(before, c) <==> KeyOf(c, |Met(before)|) !in KeysOf(before)
  {
    if c.id != "" {
      IdMet(before, c.id);
    } else {
      IndexMet(before, |Met(before)|);
    }
  }

  // No key is shared with a fragment at another place: one without an index opens a
  // key; one with index i shares it with no nameless one put elsewhere.
  predicate Clear(before: seq<Call>, c: Call) {
    if c.index.Some? then
      forall g :: 0 <= g < |before| && CountedAs(before, g, c.index.value) ==> PutAt(before, g, c.index.value)
    else OpensKey(before, c)
  }

  // And the calls are opened in the order of their places, in the array: an index
  // not named before, and by which no nameless fragment there goes, is behind all.
  predicate InLine(before: seq<Call>, c: Call) {
    if c.index.None? then IsElement(StitchAll(before).length) && OpensKey(before, c)
    else
      var i := c.index.value;
      IsElement(i) && (NamesIndex(before, i) ||
        if Counted(before, i) then CountedThere(before, i) else i >= StitchAll(before).length)
  }

  // The last fragment's key and place, with those before it.
  lemma AlignedStep(cs: seq<Call>)
    requires cs != []
    ensures var n := |cs| - 1;
            var xs, ys, x, y := KeysOf(cs[..n]), PlacesOf(cs[..n]), KeysOf(cs)[n], PlacesOf(cs)[n];
            Aligned(cs) <==> Aligned(cs[..n]) && MarkAlike(xs, ys, x, y) && IsElement(y) && (y in ys || Above(ys, y))
  {
    var n := |cs| - 1;
    var xs, ys := KeysOf(cs), PlacesOf(cs);
    LabelsStep(cs);
    SameClassesStep(xs, ys);
    InArrayStep(ys);
    RisingStep(ys);
  }

  lemma InArrayStep(ys: seq<int>)
    requires ys != []
    ensures InArray(ys) <==> InArray(ys[..|ys| - 1]) && IsElement(ys[|ys| - 1])
  {
    var n := |ys| - 1;
    assert forall g :: 0 <= g < n ==> ys[..n][g] == ys[g];
    if InArray(ys) {
      assert InArray(ys[..n]);
    }
  }

  lemma RisingStep(ys: seq<int>)
    requires ys != []
    ensures var n := |ys| - 1;
            Rising(Firsts(ys)) <==> Rising(Firsts(ys[..n])) && (ys[n] in ys[..n] || Above(ys[..n], ys[n]))
  {
    var n := |ys| - 1;
    FirstsMembers(ys[..n], ys[n]);
    RisingMore(Firsts(ys[..n]), ys[n]);
    AboveFirsts(ys[..n], ys[n]);
  }

  lemma AboveFirsts(ys: seq<int>, y: int)
    ensures Above(Firsts(ys), y) <==> Above(ys, y)
  {
    forall g | 0 <= g < |ys| ensures ys[g] in Firsts(ys) {
      assert ys[g] in ys;
      FirstsMembers(ys, ys[g]);
    }
    forall m | 0 <= m < |Firsts(ys)| ensures Firsts(ys)[m] in ys {
      assert Firsts(ys)[m] in Firsts(ys);
      FirstsMembers(ys, Firsts(ys)[m]);
    }
  }

  // The end of the array is above all places in it, and just above one of them.
  lemma {:induction false} EndIsAbove(cs: seq<Call>)
    requires InArray(PlacesOf(cs))
    ensures Above(PlacesOf(cs), StitchAll(cs).length)
    ensures cs != [] ==> StitchAll(cs).length - 1 in PlacesOf(cs)
    ensures cs == [] ==> StitchAll(cs).length == 0
  {
    if cs != [] {
      var n := |cs| - 1;
      LabelsStep(cs);
      InArrayStep(PlacesOf(cs));
      EndIsAbove(cs[..n]);
      FrontAndLast(PlacesOf(cs));
    }
  }

  lemma AboveIffBehind(cs: seq<Call>, i: int)
    requires InArray(PlacesOf(cs)) && IsElement(i)
    ensures Above(PlacesOf(cs), i) <==> i >= StitchAll(cs).length
    ensures i >= StitchAll(cs).length ==> i !in PlacesOf(cs)
  {
    EndIsAbove(cs);
    if Above(PlacesOf(cs), i) && cs != [] {
      var g :| 0 <= g < |PlacesOf(cs)| && PlacesOf(cs)[g] == StitchAll(cs).length - 1;
    }
  }

  // A fragment without an index.
  lemma UnindexedInLine(before: seq<Call>, c: Call)
    requires Aligned(before) && c.index.None?
    ensures var xs, ys := KeysOf(before), PlacesOf(before);
            var x, y := KeyOf(c, |Met(before)|), StitchAll(before).length;
            InLine(before, c) <==> MarkAlike(xs, ys, x, y) && IsElement(y) && (y in ys || Above(ys, y))
  {
    var y := StitchAll(before).length;
    OpensKeyIff(before, c);
    if IsElement(y) {
      AboveIffBehind(before, y);
      NotMarked(KeysOf(before), PlacesOf(before), KeyOf(c, |Met(before)|), y);
    }
  }

  lemma NotMarked(xs: seq<Key>, ys: seq<int>, x: Key, y: int)
    requires |xs| == |ys| && y !in ys
    ensures MarkAlike(xs, ys, x, y) <==> x !in xs
  {
    if x in xs {
      var g :| 0 <= g < |xs| && xs[g] == x;
      assert ys[g] != y;
    }
  }

  lemma NotMarkedBack(xs: seq<Key>, ys: seq<int>, x: Key, y: int)
    requires |xs| == |ys| && x !in xs
    ensures MarkAlike(xs, ys, x, y) <==> y !in ys
  {
    if y in ys {
      var g :| 0 <= g < |ys| && ys[g] == y;
      assert xs[g] != x;
    }
  }

  // A fragment with an index.
  lemma IndexedInLine(before: seq<Call>, c: Call)
    requires Aligned(before) && c.index.Some?
    ensures var xs, ys, i := KeysOf(before), PlacesOf(before), c.index.value;
            InLine(before, c) <==> MarkAlike(xs, ys, At(i), i) && IsElement(i) && (i in ys || Above(ys, i))
  {
    var xs, ys, i := KeysOf(before), PlacesOf(before), c.index.value;
    if NamesIndex(before, i) {
      var g :| 0 <= g < |before| && before[g].index == Some(i);
      LabelsAt(before, g);
      SharedMark(xs, ys, g);
      assert ys[g] in ys;
    } else if Counted(before, i) {
      CountedInLine(before, i);
    } else if IsElement(i) {
      IndexMet(before, i);
      NotMarkedBack(xs, ys, At(i), i);
      AboveIffBehind(before, i);
    }
  }

  lemma CountedInLine(before: seq<Call>, i: int)
    requires Aligned(before) && Counted(before, i)
    ensures CountedThere(before, i) <==>
            MarkAlike(KeysOf(before), PlacesOf(before), At(i), i)
            && (i in PlacesOf(before) || Above(PlacesOf(before), i))
  {
    if CountedThere(before, i) {
      var g :| 0 <= g < |before| && CountedAs(before, g, i) && PutAt(before, g, i);
      ThereIsMarked(before, i, g);
    } else {
      var g :| 0 <= g < |before| && CountedAs(before, g, i);
      ElsewhereIsNot(before, i, g);
    }
  }

  lemma ThereIsMarked(before: seq<Call>, i: int, g: nat)
    requires SameCalls(before) && g < |before| && CountedAs(before, g, i) && PutAt(before, g, i)
    ensures MarkAlike(KeysOf(before), PlacesOf(before), At(i), i) && i in PlacesOf(before)
  {
    LabelsAt(before, g);
    SharedMark(KeysOf(before), PlacesOf(before), g);
    assert PlacesOf(before)[g] in PlacesOf(before);
  }

  lemma ElsewhereIsNot(before: seq<Call>, i: int, g: nat)
    requires g < |before| && CountedAs(before, g, i) && !PutAt(before, g, i)
    ensures !MarkAlike(KeysOf(before), PlacesOf(before), At(i), i)
  {
    AwayFromIndex(before, g, i);
  }

  lemma LastInLine(cs: seq<Call>)
    requires cs != [] && Aligned(cs[..|cs| - 1])
    ensures Aligned(cs) <==> InLine(cs[..|cs| - 1], cs[|cs| - 1])
  {
    var n := |cs| - 1;
    AlignedStep(cs);
    LabelsStep(cs);
    if cs[n].index.Some? {
      IndexedInLine(cs[..n], cs[n]);
    } else {
      UnindexedInLine(cs[..n], cs[n]);
    }
  }

  // Something holds of every fragment and those before it.
  predicate OfEach(p: (seq<Call>, Call) -> bool, cs: seq<Call>) {
    forall j :: 0 <= j < |cs| ==> p(cs[..j], cs[j])
  }

  lemma OfEachStep(p: (seq<Call>, Call) -> bool, cs: seq<Call>)
    requires cs != []
    ensures OfEach(p, cs) <==> OfEach(p, cs[..|cs| - 1]) && p(cs[..|cs| - 1], cs[|cs| - 1])
  {
    var n := |cs| - 1;
    assert forall j :: 0 <= j < n ==> cs[..n][..j] == cs[..j] && cs[..n][j] == cs[j];
    if OfEach(p, cs) {
      assert forall j :: 0 <= j < n ==> p(cs[..n][..j], cs[..n][j]);
    }
    if OfEach(p, cs[..n]) && p(cs[..n], cs[n]) {
      forall j | 0 <= j < |cs| ensures p(cs[..j], cs[j]) {
        assert j < n ==> p(cs[..n][..j], cs[..n][j]);
      }
    }
  }

  // Keys and places agree, and so do their orders, if and only if every fragment is
  // in line with those before it.
  lemma {:induction false} AlignedIff(cs: seq<Call>)
    ensures Aligned(cs) <==> OfEach(InLine, cs)
  {
    if cs != [] {
      var n := |cs| - 1;
      AlignedIff(cs[..n]);
      OfEachStep(InLine, cs);
      AlignedLast(cs);
    }
  }

  lemma AlignedLast(cs: seq<Call>)
    requires cs != []
    ensures Aligned(cs) <==> Aligned(cs[..|cs| - 1]) && InLine(cs[..|cs| - 1], cs[|cs| - 1])
  {
    AlignedStep(cs);
    if Aligned(cs[..|cs| - 1]) {
      LastInLine(cs);
    }
  }

  // --- the same calls, in whatever order ---------------------------------------------

  // An earlier fragment without an index was put at place i.
  predicate Taken(cs: seq<Call>, i: int) {
    exists g :: 0 <= g < |cs| && cs[g].index.None? && PutAt(cs, g, i)
  }

  // The fragment opens a call by its key and by its place, or goes on with one by
  // both.
  predicate SameCall(before: seq<Call>, c: Call) {
    if c.index.None? then OpensKey(before, c)
    else
      var i := c.index.value;
      NamesIndex(before, i) || if Counted(before, i) then CountedThere(before, i) else !Taken(before, i)
  }

  lemma TakenIff(cs: seq<Call>, i: int)
    requires !NamesIndex(cs, i)
    ensures Taken(cs, i) <==> i in PlacesOf(cs)
  {
    if Taken(cs, i) {
      var g :| 0 <= g < |cs| && cs[g].index.None? && PutAt(cs, g, i);
      LabelsAt(cs, g);
      assert PlacesOf(cs)[g] in PlacesOf(cs);
    }
    if i in PlacesOf(cs) {
      var g :| 0 <= g < |PlacesOf(cs)| && PlacesOf(cs)[g] == i;
      LabelsAt(cs, g);
      assert cs[g].index.None? && PutAt(cs, g, i);
    }
  }

  lemma IndexSameCall(before: seq<Call>, i: int)
    requires SameCalls(before)
    ensures (NamesIndex(before, i) || if Counted(before, i) then CountedThere(before, i) else !Taken(before, i))
       <==> MarkAlike(KeysOf(before), PlacesOf(before), At(i), i)
  {
    var xs, ys := KeysOf(before), PlacesOf(before);
    if NamesIndex(before, i) {
      var g :| 0 <= g < |before| && before[g].index == Some(i);
      LabelsAt(before, g);
      SharedMark(xs, ys, g);
    } else if CountedThere(before, i) {
      var g :| 0 <= g < |before| && CountedAs(before, g, i) && PutAt(before, g, i);
      ThereIsMarked(before, i, g);
    } else if Counted(before, i) {
      var g :| 0 <= g < |before| && CountedAs(before, g, i);
      ElsewhereIsNot(before, i, g);
    } else {
      IndexMet(before, i);
      TakenIff(before, i);
      NotMarkedBack(xs, ys, At(i), i);
    }
  }

  lemma SameCallIff(before: seq<Call>, c: Call)
    requires SameCalls(before) && InArray(PlacesOf(before))
    requires IsElement(IndexOf(StitchAll(before), c))
    ensures SameCall(before, c) <==>
            MarkAlike(KeysOf(before), PlacesOf(before), KeyOf(c, |Met(before)|), IndexOf(StitchAll(before), c))
  {
    if c.index.Some? {
      IndexSameCall(before, c.index.value);
    } else {
      OpensKeyIff(before, c);
      AboveIffBehind(before, StitchAll(before).length);
      NotMarked(KeysOf(before), PlacesOf(before), KeyOf(c, |Met(before)|), StitchAll(before).length);
    }
  }

  // As long as all places are in the array: keys and places tell the same calls apart
  // if and only if every fragment is of the same call by both.
  lemma {:induction false} SameCallsIff(cs: seq<Call>)
    requires InArray(PlacesOf(cs))
    ensures SameCalls(cs) <==> OfEach(SameCall, cs)
  {
    if cs != [] {
      var n := |cs| - 1;
      LabelsStep(cs);
      InArrayStep(PlacesOf(cs));
      SameCallsIff(cs[..n]);
      SameClassesStep(KeysOf(cs), PlacesOf(cs));
      OfEachStep(SameCall, cs);
      if SameCalls(cs[..n]) {
        SameCallIff(cs[..n], cs[n]);
      }
    }
  }

  // Then the block of each call holds the fragments of that call and no others,
  // whatever the order and however they interleave.
  lemma OwnFragments(cs: seq<Call>, g: nat)
    requires SameCalls(cs) && g < |cs|
    ensures ByKey(cs, KeysOf(cs)[g]) == Placed(cs, PlacesOf(cs)[g])
  {
    SharedMark(KeysOf(cs), PlacesOf(cs), g);
    LabelledAlike(cs, KeysOf(cs), PlacesOf(cs), KeysOf(cs)[g], PlacesOf(cs)[g]);
    PlacedIsLabelled(cs, PlacesOf(cs)[g]);
  }

  // --- fragments of two calls under one key ------------------------------------------

  // Each block holds fragments of one place only.
  predicate KeptApart(cs: seq<Call>) {
    Finer(KeysOf(cs), PlacesOf(cs))
  }

  lemma ClearIff(before: seq<Call>, c: Call)
    requires InArray(PlacesOf(before)) && IsElement(IndexOf(StitchAll(before), c))
    ensures Clear(before, c) <==>
            MarksWithin(KeysOf(before), PlacesOf(before), KeyOf(c, |Met(before)|), IndexOf(StitchAll(before), c))
  {
    if c.index.None? {
      OpensKeyIff(before, c);
      AboveIffBehind(before, StitchAll(before).length);
      MarksNone(KeysOf(before), PlacesOf(before), KeyOf(c, |Met(before)|), StitchAll(before).length);
    } else {
      IndexClear(before, c.index.value);
    }
  }

  lemma MarksNone(xs: seq<Key>, ys: seq<int>, x: Key, y: int)
    requires |xs| == |ys| && y !in ys
    ensures MarksWithin(xs, ys, x, y) <==> x !in xs
  {
    if x in xs {
      var g :| 0 <= g < |xs| && xs[g] == x;
      assert ys[g] != y;
    }
  }

  lemma IndexClear(before: seq<Call>, i: int)
    ensures (forall g :: 0 <= g < |before| && CountedAs(before, g, i) ==> PutAt(before, g, i))
       <==> MarksWithin(KeysOf(before), PlacesOf(before), At(i), i)
  {
    var xs, ys := KeysOf(before), PlacesOf(before);
    if MarksWithin(xs, ys, At(i), i) {
      forall g | 0 <= g < |before| && CountedAs(before, g, i) ensures PutAt(before, g, i) {
        AwayFromIndex(before, g, i);
      }
    }
    if !MarksWithin(xs, ys, At(i), i) {
      var g :| 0 <= g < |xs| && xs[g] == At(i) && ys[g] != i;
      AwayFromIndex(before, g, i);
    }
  }

  // Only a nameless fragment goes by an index and is elsewhere.
  lemma AwayFromIndex(cs: seq<Call>, g: nat, i: int)
    requires g < |cs|
    ensures KeysOf(cs)[g] == At(i) && PlacesOf(cs)[g] != i <==> CountedAs(cs, g, i) && !PutAt(cs, g, i)
  {
    LabelsAt(cs, g);
  }

  // As long as all places are in the array: no block holds fragments of two calls
  // if and only if every fragment is clear of those before it.
  lemma {:induction false} KeptApartIff(cs: seq<Call>)
    requires InArray(PlacesOf(cs))
    ensures KeptApart(cs) <==> OfEach(Clear, cs)
  {
    if cs != [] {
      var n := |cs| - 1;
      LabelsStep(cs);
      InArrayStep(PlacesOf(cs));
      KeptApartIff(cs[..n]);
      FinerStep(KeysOf(cs), PlacesOf(cs));
      ClearIff(cs[..n], cs[n]);
      OfEachStep(Clear, cs);
    }
  }

  // --- fragments that all carry an index, or all lack one ----------------------------

  // The index is in the array, and named before or above all named before.
  predicate RisesOrReturns(before: seq<Call>, c: Call) {
    c.index.Some? && IsElement(c.index.value) && (NamesIndex(before, c.index.value) || AllBelow(before, c.index.value))
  }

  predicate AllBelow(cs: seq<Call>, i: int) {
    forall g :: 0 <= g < |cs| && cs[g].index.Some? ==> cs[g].index.value < i
  }

  lemma IndexedAbove(cs: seq<Call>, i: int)
    requires Indexed(cs)
    ensures Above(PlacesOf(cs), i) <==> AllBelow(cs, i)
    ensures !Counted(cs, i)
  {
    forall g | 0 <= g < |cs| ensures PlacesOf(cs)[g] == cs[g].index.value {
      LabelsAt(cs, g);
    }
  }

  // Indexed fragments: exactly when the indices are in the array and first appear in
  // increasing order.
  lemma {:induction false} IndexedAlignedIff(cs: seq<Call>)
    requires Indexed(cs)
    ensures Aligned(cs) <==> OfEach(RisesOrReturns, cs)
  {
    if cs != [] {
      var n := |cs| - 1;
      assert Indexed(cs[..n]);
      IndexedAlignedIff(cs[..n]);
      OfEachStep(RisesOrReturns, cs);
      AlignedLast(cs);
      if Aligned(cs[..n]) {
        IndexedRises(cs[..n], cs[n]);
      }
    }
  }

  lemma IndexedRises(before: seq<Call>, c: Call)
    requires Indexed(before) && Aligned(before) && c.index.Some?
    ensures InLine(before, c) <==> RisesOrReturns(before, c)
  {
    IndexedAbove(before, c.index.value);
    if IsElement(c.index.value) {
      AboveIffBehind(before, c.index.value);
    }
  }

  predicate NewId(before: seq<Call>, c: Call) {
    c.id != "" ==> !NamesId(before, c.id)
  }

  lemma {:induction false} UnindexedMet(cs: seq<Call>)
    requires Unindexed(cs) && Aligned(cs)
    ensures |Met(cs)| == |cs|
  {
    if cs != [] {
      var n := |cs| - 1;
      assert Unindexed(cs[..n]);
      AlignedStep(cs);
      UnindexedMet(cs[..n]);
      LastInLine(cs);
      OpensKeyIff(cs[..n], cs[n]);
      FirstsMembers(KeysOf(cs[..n]), KeysOf(cs)[n]);
      LabelsStep(cs);
    }
  }

  lemma {:induction false} NotLonger(cs: seq<Call>)
    requires Unindexed(cs)
    ensures StitchAll(cs).length <= |cs|
  {
    if cs != [] {
      assert Unindexed(cs[..|cs| - 1]);
      NotLonger(cs[..|cs| - 1]);
    }
  }

  lemma {:induction false} AlignedBefore(cs: seq<Call>, g: nat)
    requires Aligned(cs) && g <= |cs|
    ensures Aligned(cs[..g])
  {
    if g < |cs| {
      AlignedStep(cs);
      AlignedBefore(cs[..|cs| - 1], g);
      assert cs[..|cs| - 1][..g] == cs[..g];
    } else {
      assert cs[..g] == cs;
    }
  }

  lemma NoneCounted(cs: seq<Call>)
    requires Unindexed(cs) && Aligned(cs)
    ensures !NamesIndex(cs, |Met(cs)|) && !Counted(cs, |Met(cs)|)
  {
    UnindexedMet(cs);
    forall g | 0 <= g < |cs| ensures !CountedAs(cs, g, |Met(cs)|) {
      AlignedBefore(cs, g);
      UnindexedMet(cs[..g]);
    }
  }

  // Whole calls without an index, as many as an array can hold: exactly when no id
  // is given twice.
  lemma {:induction false} UnindexedAlignedIff(cs: seq<Call>)
    requires Unindexed(cs) && |cs| <= 0xFFFF_FFFF
    ensures Aligned(cs) <==> OfEach(NewId, cs)
  {
    if cs != [] {
      var n := |cs| - 1;
      assert Unindexed(cs[..n]);
      UnindexedAlignedIff(cs[..n]);
      OfEachStep(NewId, cs);
      AlignedLast(cs);
      if Aligned(cs[..n]) {
        UnindexedNew(cs[..n], cs[n]);
      }
    }
  }

  lemma UnindexedNew(before: seq<Call>, c: Call)
    requires Unindexed(before) && Aligned(before) && |before| < 0xFFFF_FFFF && c.index.None?
    ensures InLine(before, c) <==> NewId(before, c)
  {
    NotLonger(before);
    NoneCounted(before);
  }
}
