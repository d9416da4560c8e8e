// recordAuthFailure (src/audit/index.js): failed authentication, coalesced to
// one row per source and reason per minute.

module AuthWindow {
  import opened Text

  const WINDOW_MS := 60_000
  const MAX_ENTRIES := 5_000

  datatype Slot = Slot(since: int, count: nat)

  // A JavaScript Map: `order` lists the keys as first inserted.
  datatype Table = Table(slots: map<string, Slot>, order: seq<string>)

  // One auth.failed row; `suppressed` is its suppressedSinceLast.
  datatype Row = Row(key: string, at: int, suppressed: nat)

  // A failure: the key is `ip|reason`, `now` the clock, which may run backwards.
  datatype Failure = Failure(key: string, now: int)

  predicate Open(t: Table, f: Failure) {
    f.key in t.slots && f.now - t.slots[f.key].since < WINDOW_MS
  }

  function Put(t: Table, key: string, slot: Slot): Table {
    Table(t.slots[key := slot], if key in t.slots then t.order else t.order + [key])
  }

  predicate Overfull(t: Table) { |t.slots| > MAX_ENTRIES && t.order != [] }

  function Trim(t: Table): Table {
    if Overfull(t) then Table(t.slots - {t.order[0]}, t.order[1..]) else t
  }

  function Suppressed(t: Table, f: Failure): nat {
    if f.key in t.slots && t.slots[f.key].count > 0 then t.slots[f.key].count - 1 else 0
  }

  function Record(t: Table, f: Failure): Table {
    if Open(t, f) then Put(t, f.key, Slot(t.slots[f.key].since, t.slots[f.key].count + 1))
    else Trim(Put(t, f.key, Slot(f.now, 1)))
  }

  function RowFor(t: Table, f: Failure): Option<Row> {
    if Open(t, f) then None else Some(Row(f.key, f.now, Suppressed(t, f)))
  }

  class Window {
    var slots: map<string, Slot>
    var order: seq<string>

    function Contents(): Table
      reads this
    {
      Table(slots, order)
    }

    constructor ()
      ensures Contents() == Table(map[], [])
    {
      slots, order := map[], [];
    }

    method RecordAuthFailure(key: string, now: int) returns (row: Option<Row>)
      modifies this
      ensures Contents() == Record(old(Contents()), Failure(key, now))
      ensures row == RowFor(old(Contents()), Failure(key, now))
    {
      if key in slots && now - slots[key].since < WINDOW_MS {
        slots := slots[key := Slot(slots[key].since, slots[key].count + 1)];
        return None;
      }
      var suppressed := if key in slots && slots[key].count > 0 then slots[key].count - 1 else 0;
      if key !in slots {
        order := order + [key];
      }
      slots := slots[key := Slot(now, 1)];
      if |slots| > MAX_ENTRIES && order != [] {
        slots, order := slots - {order[0]}, order[1..];
      }
      row := Some(Row(key, now, suppressed));
    }
  }

  // --- whole runs -----------------------------------------------------------

  function Run(fs: seq<Failure>): Table {
    if fs == [] then Table(map[], []) else Record(Run(fs[..|fs| - 1]), fs[|fs| - 1])
  }

  function Rows(fs: seq<Failure>): seq<Row> {
    if fs == [] then []
    else
      var r := RowFor(Run(fs[..|fs| - 1]), fs[|fs| - 1]);
      Rows(fs[..|fs| - 1]) + (if r.Some? then [r.value] else [])
  }

  // `order` lists each key of the table once.
  ghost predicate Listed(t: Table) {
    multiset(t.order) == multiset(t.slots.Keys)
  }

  ghost predicate Counted(t: Table) {
    forall k :: k in t.slots ==> t.slots[k].count >= 1
  }

  ghost predicate Valid(t: Table) {
    Listed(t) && Counted(t) && |t.slots| <= 5_000
  }

  lemma PutListed(t: Table, key: string, slot: Slot)
    requires Listed(t)
    ensures Listed(Put(t, key, slot))
    ensures |Put(t, key, slot).slots| == |t.slots| + (if key in t.slots then 0 else 1)
  {
    var u := Put(t, key, slot);
    if key in t.slots {
      assert u.slots.Keys == t.slots.Keys;
    } else {
      assert u.slots.Keys == t.slots.Keys + {key};
      assert multiset(u.slots.Keys) == multiset(t.slots.Keys) + multiset{key};
    }
  }

  lemma OldestListed(t: Table)
    requires Listed(t) && t.order != []
    ensures t.order[0] in t.slots
  {
    assert t.order[0] in multiset(t.order);
  }

  lemma SizesAgree(t: Table)
    requires Listed(t)
    ensures |t.slots| == |t.order|
  {
    assert |multiset(t.order)| == |t.order|;
    assert |multiset(t.slots.Keys)| == |t.slots.Keys|;
  }

  lemma TrimListed(u: Table)
    requires Listed(u) && u.order != []
    ensures Listed(Table(u.slots - {u.order[0]}, u.order[1..]))
    ensures |u.slots - {u.order[0]}| == |u.slots| - 1
  {
    OldestListed(u);
    var v := Table(u.slots - {u.order[0]}, u.order[1..]);
    assert u.order == [u.order[0]] + v.order;
    assert v.slots.Keys == u.slots.Keys - {u.order[0]};
    assert u.slots.Keys == v.slots.Keys + {u.order[0]};
    assert multiset(u.order) == multiset{u.order[0]} + multiset(v.order);
    assert multiset(u.slots.Keys) == multiset{u.order[0]} + multiset(v.slots.Keys);
    Cancel(multiset{u.order[0]}, multiset(v.order), multiset(v.slots.Keys));
  }

  lemma Cancel(a: multiset<string>, x: multiset<string>, y: multiset<string>)
    requires a + x == a + y
    ensures x == y
  {
    forall k ensures x[k] == y[k] {
      assert (a + x)[k] == a[k] + x[k] && (a + y)[k] == a[k] + y[k];
    }
  }

  // The table never exceeds 5,000 entries, in any run.
  lemma RecordValid(t: Table, f: Failure)
    requires Valid(t)
    ensures Valid(Record(t, f))
  {
    var slot := if Open(t, f) then Slot(t.slots[f.key].since, t.slots[f.key].count + 1) else Slot(f.now, 1);
    var u := Put(t, f.key, slot);
    PutListed(t, f.key, slot);
    assert Counted(u);
    if !Open(t, f) {
      SizesAgree(u);
      if Overfull(u) {
        TrimListed(u);
      }
    }
  }

  lemma {:induction false} RunValid(fs: seq<Failure>)
    ensures Valid(Run(fs))
  {
    if fs != [] {
      RunValid(fs[..|fs| - 1]);
      RecordValid(Run(fs[..|fs| - 1]), fs[|fs| - 1]);
    }
  }

  // --- conservation ---------------------------------------------------------

  function Seen(fs: seq<Failure>, key: string): nat {
    if fs == [] then 0 else Seen(fs[..|fs| - 1], key) + (if fs[|fs| - 1].key == key then 1 else 0)
  }

  // What the rows of a key account for: themselves and what they report suppressed.
  function Accounted(rs: seq<Row>, key: string): nat {
    if rs == [] then 0
    else Accounted(rs[..|rs| - 1], key) + (if rs[|rs| - 1].key == key then 1 + rs[|rs| - 1].suppressed else 0)
  }

  // Counted since the key's last row, still to be reported.
  function Pending(t: Table, key: string): nat {
    if key in t.slots && t.slots[key].count > 0 then t.slots[key].count - 1 else 0
  }

  // The key this failure pushes out of a full table.
  function Evicted(t: Table, f: Failure): Option<string> {
    var u := Put(t, f.key, Slot(f.now, 1));
    if !Open(t, f) && Overfull(u) then Some(u.order[0]) else None
  }

  // Counts thrown away with evicted entries.
  function Lost(fs: seq<Failure>, key: string): nat {
    if fs == [] then 0
    else
      var t := Run(fs[..|fs| - 1]);
      Lost(fs[..|fs| - 1], key) + (if Evicted(t, fs[|fs| - 1]) == Some(key) then Pending(t, key) else 0)
  }

  // An eviction takes the oldest key, never the one just recorded, and only
  // when a new key meets a full table.
  lemma EvictionTakesOldest(t: Table, f: Failure)
    requires Valid(t)
    ensures Evicted(t, f).Some? <==> f.key !in t.slots && |t.slots| == 5_000
    ensures Evicted(t, f).Some? ==> t.order != [] && Evicted(t, f).value == t.order[0] != f.key
  {
    var u := Put(t, f.key, Slot(f.now, 1));
    PutListed(t, f.key, Slot(f.now, 1));
    SizesAgree(t);
    SizesAgree(u);
    if t.order != [] {
      OldestListed(t);
    }
  }

  // Keys stand in the order they came in: an old one stays where it is, a new one
  // goes behind the others, and the first of a full table makes room for it.
  lemma OrderKept(t: Table, f: Failure)
    requires Valid(t)
    ensures f.key in t.slots ==> Record(t, f).order == t.order
    ensures f.key !in t.slots && |t.slots| < 5_000 ==> Record(t, f).order == t.order + [f.key]
    ensures f.key !in t.slots && |t.slots| == 5_000 ==> t.order != [] && Record(t, f).order == t.order[1..] + [f.key]
  {
    PutListed(t, f.key, Slot(f.now, 1));
    SizesAgree(t);
    if t.order != [] {
      HeadTail(t.order, [f.key]);
    }
  }

  lemma PendingStep(t: Table, f: Failure, key: string)
    requires Valid(t)
    ensures Pending(Record(t, f), key) ==
            if Evicted(t, f) == Some(key) then 0
            else if f.key == key then (if Open(t, f) then Pending(t, key) + 1 else 0)
            else Pending(t, key)
  {
    EvictionTakesOldest(t, f);
  }

  // Conservation, over every run and for every source and reason: each failure
  // seen is in a row, in a row's suppressed count, still pending, or was thrown
  // away by an eviction.
  lemma {:induction false} FailuresConserved(fs: seq<Failure>, key: string)
    ensures Seen(fs, key) == Accounted(Rows(fs), key) + Pending(Run(fs), key) + Lost(fs, key)
  {
    if fs != [] {
      var init, f := fs[..|fs| - 1], fs[|fs| - 1];
      var t := Run(init);
      FailuresConserved(init, key);
      RunValid(init);
      PendingStep(t, f, key);
      EvictionTakesOldest(t, f);
      var r := RowFor(t, f);
      if r.Some? {
        assert Rows(fs)[..|Rows(init)|] == Rows(init);
      } else {
        assert Rows(fs) == Rows(init);
      }
    }
  }

  // --- spacing --------------------------------------------------------------

  predicate EverEvicted(fs: seq<Failure>, key: string) {
    fs != [] && (EverEvicted(fs[..|fs| - 1], key) || Evicted(Run(fs[..|fs| - 1]), fs[|fs| - 1]) == Some(key))
  }

  function Times(rs: seq<Row>, key: string): seq<int> {
    if rs == [] then []
    else Times(rs[..|rs| - 1], key) + (if rs[|rs| - 1].key == key then [rs[|rs| - 1].at] else [])
  }

  ghost predicate Spaced(ts: seq<int>) {
    forall i, j :: 0 <= i < j < |ts| ==> ts[j] - ts[i] >= 60_000
  }

  // While a key has not been evicted nothing of it is lost, its entry dates from
  // its last row, and its rows are at least a minute apart, whatever the clock does.
  lemma {:induction false} RowsSpaced(fs: seq<Failure>, key: string)
    requires !EverEvicted(fs, key)
    ensures Lost(fs, key) == 0
    ensures Spaced(Times(Rows(fs), key))
    ensures var ts := Times(Rows(fs), key);
            if ts == [] then key !in Run(fs).slots
            else key in Run(fs).slots && Run(fs).slots[key].since == ts[|ts| - 1]
  {
    if fs != [] {
      var init, f := fs[..|fs| - 1], fs[|fs| - 1];
      RowsSpaced(init, key);
      RunValid(init);
      EvictionTakesOldest(Run(init), f);
      SpacedStep(fs, key);
    }
  }

  lemma SpacedAppend(ts: seq<int>, now: int)
    requires Spaced(ts) && (ts != [] ==> now - ts[|ts| - 1] >= 60_000)
    ensures Spaced(ts + [now])
  {
    var us := ts + [now];
    forall i, j | 0 <= i < j < |us| ensures us[j] - us[i] >= 60_000 {
      if j == |ts| && i < |ts| - 1 {
        assert ts[|ts| - 1] - ts[i] >= WINDOW_MS;
      }
    }
  }

  lemma TimesStep(fs: seq<Failure>, key: string)
    requires fs != []
    ensures var init, f := fs[..|fs| - 1], fs[|fs| - 1];
            Times(Rows(fs), key)
            == Times(Rows(init), key) + (if !Open(Run(init), f) && f.key == key then [f.now] else [])
  {
    var init, f := fs[..|fs| - 1], fs[|fs| - 1];
    if RowFor(Run(init), f).Some? {
      assert Rows(fs)[..|Rows(init)|] == Rows(init);
    } else {
      assert Rows(fs) == Rows(init);
    }
  }

  lemma SlotStep(t: Table, f: Failure, key: string)
    requires Evicted(t, f) != Some(key)
    ensures var u := Record(t, f);
            if f.key == key
            then key in u.slots && u.slots[key].since == (if Open(t, f) then t.slots[key].since else f.now)
            else (key in u.slots <==> key in t.slots) && (key in t.slots ==> u.slots[key] == t.slots[key])
  {
  }

  lemma SpacedStep(fs: seq<Failure>, key: string)
    requires fs != [] && !EverEvicted(fs, key)
    requires var ts := Times(Rows(fs[..|fs| - 1]), key);
             && Spaced(ts)
             && if ts == [] then key !in Run(fs[..|fs| - 1]).slots
                else key in Run(fs[..|fs| - 1]).slots && Run(fs[..|fs| - 1]).slots[key].since == ts[|ts| - 1]
    ensures var ts := Times(Rows(fs), key);
            && Spaced(ts)
            && if ts == [] then key !in Run(fs).slots
               else key in Run(fs).slots && Run(fs).slots[key].since == ts[|ts| - 1]
  {
    var init, f := fs[..|fs| - 1], fs[|fs| - 1];
    var ts := Times(Rows(init), key);
    TimesStep(fs, key);
    SlotStep(Run(init), f, key);
    if !Open(Run(init), f) && f.key == key {
      SpacedAppend(ts, f.now);
    } else {
      assert ts + [] == ts;
    }
  }

  // When a failure gets a row: while its key has not been evicted, if and only if the
  // key has no row yet or its last one is a minute old. The row reports the failures
  // of that key that no earlier row accounts for.
  lemma RowEveryMinute(fs: seq<Failure>, f: Failure)
    requires !EverEvicted(fs, f.key)
    ensures var ts, row := Times(Rows(fs), f.key), RowFor(Run(fs), f);
            && (row.Some? <==> ts == [] || f.now - ts[|ts| - 1] >= 60_000)
            && (row.Some? ==>
                  && row.value.key == f.key && row.value.at == f.now
                  && row.value.suppressed == Seen(fs, f.key) - Accounted(Rows(fs), f.key))
  {
    RowsSpaced(fs, f.key);
    FailuresConserved(fs, f.key);
  }
}
