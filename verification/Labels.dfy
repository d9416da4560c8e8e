// Lists sorted into classes by a label for each element.

module Labels {
  import opened Text

  // The different labels, by first appearance.
  function Firsts<T(==)>(xs: seq<T>): seq<T> {
    if xs == [] then []
    else
      var before := Firsts(xs[..|xs| - 1]);
      if xs[|xs| - 1] in before then before else before + [xs[|xs| - 1]]
  }

  // The elements with one label, in order.
  function Labelled<C, T(==)>(cs: seq<C>, xs: seq<T>, x: T): seq<C>
    requires |cs| == |xs|
  {
    if cs == [] then []
    else
      var n := |cs| - 1;
      Labelled(cs[..n], xs[..n], x) + (if xs[n] == x then [cs[n]] else [])
  }

  // The labels x and y mark the same elements.
  predicate MarkAlike<A(==), B(==)>(xs: seq<A>, ys: seq<B>, x: A, y: B)
    requires |xs| == |ys|
  {
    forall g :: 0 <= g < |xs| ==> (xs[g] == x <==> ys[g] == y)
  }

  // What x marks, y marks too.
  predicate MarksWithin<A(==), B(==)>(xs: seq<A>, ys: seq<B>, x: A, y: B)
    requires |xs| == |ys|
  {
    forall g :: 0 <= g < |xs| && xs[g] == x ==> ys[g] == y
  }

  // Both labellings make the same classes.
  predicate SameClasses<A(==), B(==)>(xs: seq<A>, ys: seq<B>)
    requires |xs| == |ys|
  {
    forall i, j :: 0 <= i < |xs| && 0 <= j < |xs| ==> (xs[i] == xs[j] <==> ys[i] == ys[j])
  }

  // No class of the first holds elements of two classes of the second.
  predicate Finer<A(==), B(==)>(xs: seq<A>, ys: seq<B>)
    requires |xs| == |ys|
  {
    forall i, j :: 0 <= i < |xs| && 0 <= j < |xs| && xs[i] == xs[j] ==> ys[i] == ys[j]
  }

  lemma {:induction false} FirstsMembers<T>(xs: seq<T>, x: T)
    ensures x in Firsts(xs) <==> x in xs
  {
    if xs != [] {
      FirstsMembers(xs[..|xs| - 1], x);
      FrontAndLast(xs);
    }
  }

  lemma {:induction false} FirstsDiffer<T>(xs: seq<T>)
    ensures forall m, n :: 0 <= m < n < |Firsts(xs)| ==> Firsts(xs)[m] != Firsts(xs)[n]
  {
    if xs != [] {
      FirstsDiffer(xs[..|xs| - 1]);
    }
  }

  lemma SameClassesStep<A, B>(xs: seq<A>, ys: seq<B>)
    requires |xs| == |ys| > 0
    ensures var n := |xs| - 1;
            SameClasses(xs, ys) <==> SameClasses(xs[..n], ys[..n]) && MarkAlike(xs[..n], ys[..n], xs[n], ys[n])
  {
    var n := |xs| - 1;
    assert forall i :: 0 <= i < n ==> xs[..n][i] == xs[i] && ys[..n][i] == ys[i];
    if SameClasses(xs, ys) {
      assert forall i, j :: 0 <= i < n && 0 <= j < n ==> (xs[..n][i] == xs[..n][j] <==> ys[..n][i] == ys[..n][j]);
    }
    if SameClasses(xs[..n], ys[..n]) && MarkAlike(xs[..n], ys[..n], xs[n], ys[n]) {
      forall i, j | 0 <= i < |xs| && 0 <= j < |xs| ensures xs[i] == xs[j] <==> ys[i] == ys[j] {
        if i < n && j < n {
          assert xs[..n][i] == xs[..n][j] <==> ys[..n][i] == ys[..n][j];
        }
      }
    }
  }

  lemma FinerStep<A, B>(xs: seq<A>, ys: seq<B>)
    requires |xs| == |ys| > 0
    ensures var n := |xs| - 1;
            Finer(xs, ys) <==> Finer(xs[..n], ys[..n]) && MarksWithin(xs[..n], ys[..n], xs[n], ys[n])
  {
    var n := |xs| - 1;
    assert forall i :: 0 <= i < n ==> xs[..n][i] == xs[i] && ys[..n][i] == ys[i];
    if Finer(xs, ys) {
      assert forall i, j :: 0 <= i < n && 0 <= j < n && xs[..n][i] == xs[..n][j] ==> ys[..n][i] == ys[..n][j];
    }
    if Finer(xs[..n], ys[..n]) && MarksWithin(xs[..n], ys[..n], xs[n], ys[n]) {
      forall i, j | 0 <= i < |xs| && 0 <= j < |xs| && xs[i] == xs[j] ensures ys[i] == ys[j] {
        if i < n && j < n {
          assert xs[..n][i] == xs[..n][j];
        }
      }
    }
  }

  // One element that both labels mark is enough when the classes are the same.
  lemma SharedMark<A, B>(xs: seq<A>, ys: seq<B>, g: nat)
    requires |xs| == |ys| && SameClasses(xs, ys) && g < |xs|
    ensures MarkAlike(xs, ys, xs[g], ys[g])
  {
  }

  lemma {:induction false} LabelledAlike<C, A, B>(cs: seq<C>, xs: seq<A>, ys: seq<B>, x: A, y: B)
    requires |cs| == |xs| == |ys| && MarkAlike(xs, ys, x, y)
    ensures Labelled(cs, xs, x) == Labelled(cs, ys, y)
  {
    if cs != [] {
      var n := |cs| - 1;
      assert forall g :: 0 <= g < n ==> xs[..n][g] == xs[g] && ys[..n][g] == ys[g];
      LabelledAlike(cs[..n], xs[..n], ys[..n], x, y);
    }
  }

  // The same classes appear in the same order.
  lemma {:induction false} FirstsAlike<A, B>(xs: seq<A>, ys: seq<B>)
    requires |xs| == |ys| && SameClasses(xs, ys)
    ensures |Firsts(xs)| == |Firsts(ys)|
    ensures forall m :: 0 <= m < |Firsts(xs)| ==> MarkAlike(xs, ys, Firsts(xs)[m], Firsts(ys)[m])
  {
    if xs != [] {
      var n := |xs| - 1;
      SameClassesStep(xs, ys);
      FirstsAlike(xs[..n], ys[..n]);
      FirstsMembers(xs[..n], xs[n]);
      FirstsMembers(ys[..n], ys[n]);
      LastMetAlike(xs, ys);
      forall m | 0 <= m < |Firsts(xs)| ensures MarkAlike(xs, ys, Firsts(xs)[m], Firsts(ys)[m]) {
        FirstAlike(xs, ys, m);
      }
    }
  }

  lemma LastMetAlike<A, B>(xs: seq<A>, ys: seq<B>)
    requires |xs| == |ys| > 0
    requires var n := |xs| - 1; MarkAlike(xs[..n], ys[..n], xs[n], ys[n])
    ensures var n := |xs| - 1; xs[n] in xs[..n] <==> ys[n] in ys[..n]
  {
    var n := |xs| - 1;
    if xs[n] in xs[..n] {
      var g :| 0 <= g < n && xs[..n][g] == xs[n];
      assert ys[..n][g] == ys[n];
    }
    if ys[n] in ys[..n] {
      var g :| 0 <= g < n && ys[..n][g] == ys[n];
      assert xs[..n][g] == xs[n];
    }
  }

  lemma FirstAlike<A, B>(xs: seq<A>, ys: seq<B>, m: nat)
    requires |xs| == |ys| > 0 && SameClasses(xs, ys)
    requires |Firsts(xs)| == |Firsts(ys)| && m < |Firsts(xs)|
    requires var n := |xs| - 1;
             && |Firsts(xs[..n])| == |Firsts(ys[..n])|
             && (m < |Firsts(xs[..n])| ==> MarkAlike(xs[..n], ys[..n], Firsts(xs[..n])[m], Firsts(ys[..n])[m]))
    ensures MarkAlike(xs, ys, Firsts(xs)[m], Firsts(ys)[m])
  {
    var n := |xs| - 1;
    if m < |Firsts(xs[..n])| {
      var x := Firsts(xs[..n])[m];
      FirstsMembers(xs[..n], x);
      assert x in Firsts(xs[..n]) && x in xs[..n];
      var g :| 0 <= g < |xs[..n]| && xs[..n][g] == x;
      assert ys[..n][g] == Firsts(ys[..n])[m];
      SharedMark(xs, ys, g);
    } else {
      SharedMark(xs, ys, n);
    }
  }

  // Ranks in two lists without repetitions.
  lemma SameRank<A, B>(xs: seq<A>, ys: seq<B>, m: nat, n: nat)
    requires |xs| == |ys| && m < |xs| && n < |xs|
    requires forall i, j :: 0 <= i < j < |xs| ==> xs[i] != xs[j]
    requires forall i, j :: 0 <= i < j < |ys| ==> ys[i] != ys[j]
    ensures xs[m] == xs[n] <==> ys[m] == ys[n]
  {
  }

  lemma {:induction false} SomeLabelled<C, T>(cs: seq<C>, xs: seq<T>, x: T)
    requires |cs| == |xs|
    ensures Labelled(cs, xs, x) != [] <==> x in xs
  {
    if cs != [] {
      SomeLabelled(cs[..|cs| - 1], xs[..|cs| - 1], x);
      FrontAndLast(xs);
    }
  }

  // --- rising numbers -------------------------------------------------------

  // The numbers below n of which p holds.
  function Below(p: int -> bool, n: nat): seq<int> {
    if n == 0 then [] else Below(p, n - 1) + (if p(n - 1) then [n - 1] else [])
  }

  lemma {:induction false} BelowMembers(p: int -> bool, n: nat, i: int)
    ensures i in Below(p, n) <==> 0 <= i < n && p(i)
  {
    if n > 0 {
      BelowMembers(p, n - 1, i);
    }
  }

  lemma {:induction false} BelowRises(p: int -> bool, n: nat)
    ensures Rising(Below(p, n)) && Above(Below(p, n), n)
  {
    if n > 0 {
      BelowRises(p, n - 1);
      RisingMore(Below(p, n - 1), n - 1);
    }
  }

  predicate Rising(xs: seq<int>) {
    forall i, j :: 0 <= i < j < |xs| ==> xs[i] < xs[j]
  }

  predicate Above(xs: seq<int>, x: int) {
    forall i :: 0 <= i < |xs| ==> xs[i] < x
  }

  predicate AmongThem(xs: seq<int>, ys: seq<int>) {
    forall i :: 0 <= i < |xs| ==> xs[i] in ys
  }

  lemma RisingMore(xs: seq<int>, x: int)
    ensures Rising(xs + [x]) <==> Rising(xs) && Above(xs, x)
  {
    var ys := xs + [x];
    assert forall i :: 0 <= i < |xs| ==> ys[i] == xs[i];
    assert ys[|xs|] == x;
    if Rising(ys) {
      assert forall i, j :: 0 <= i < j < |xs| ==> ys[i] < ys[j];
    }
  }

  // Rising lists of the same numbers are the same.
  lemma {:induction false} RisingSame(xs: seq<int>, ys: seq<int>)
    requires Rising(xs) && Rising(ys) && AmongThem(xs, ys) && AmongThem(ys, xs)
    ensures xs == ys
  {
    NoneAlike(xs, ys);
    if xs != [] {
      var m, n := |xs| - 1, |ys| - 1;
      LastIsMost(xs);
      LastIsMost(ys);
      assert xs[m] in ys && ys[n] in xs;
      FrontAmong(xs, ys);
      FrontAmong(ys, xs);
      RisingSame(xs[..m], ys[..n]);
      FrontAndLast(xs);
      FrontAndLast(ys);
    }
  }

  lemma NoneAlike(xs: seq<int>, ys: seq<int>)
    requires AmongThem(xs, ys) && AmongThem(ys, xs)
    ensures xs == [] <==> ys == []
  {
    if xs != [] {
      assert xs[0] in ys;
    }
    if ys != [] {
      assert ys[0] in xs;
    }
  }

  lemma LastIsMost(xs: seq<int>)
    requires Rising(xs) && xs != []
    ensures forall i :: 0 <= i < |xs| ==> xs[i] <= xs[|xs| - 1]
  {
  }

  lemma FrontAmong(xs: seq<int>, ys: seq<int>)
    requires Rising(xs) && Rising(ys) && xs != [] && ys != [] && AmongThem(xs, ys)
    requires xs[|xs| - 1] == ys[|ys| - 1]
    ensures AmongThem(xs[..|xs| - 1], ys[..|ys| - 1])
  {
    var m, n := |xs| - 1, |ys| - 1;
    forall i | 0 <= i < m ensures xs[..m][i] in ys[..n] {
      var j :| 0 <= j < |ys| && ys[j] == xs[i];
      assert xs[i] < xs[m] && ys[..n][j] == xs[i];
    }
  }
}
