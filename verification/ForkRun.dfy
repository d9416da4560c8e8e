// A run in which the lock is lost by waiting: its holder takes longer than a
// waiter waits. The chain forks, and the holder's anchor is taken for a rollback.

module ForkRun {
  import opened Text
  import opened Chain
  import opened AuditLog
  import opened LockTurns
  import opened Protocol
  import opened Forks
  import opened Overtaken
  import opened LockTiming
  import opened AuditSafety

  lemma {:induction false} QuietIsPrompt(c: Codec, key: Key, s: Sys, steps: seq<Step>)
    requires Legal(c, key, s, steps) && Throughout(c, key, s, steps, Quiet)
    ensures Throughout(c, key, s, steps, Prompt)
    decreases |steps|
  {
    if steps != [] {
      QuietIsPrompt(c, key, Apply(c, key, s, steps[0]), steps[1..]);
    }
  }

  // Process p has this row ready, made when the log was empty.
  predicate ReadyFirst(key: Key, s: Sys, p: nat, payload: string) {
    && p in s.procs
    && s.procs[p].phase == Ready(payload, GENESIS, ChainHashWith(key, GENESIS, payload), "")
    && s.procs[p].cache == Some(Cache(GENESIS, 0, 0))
  }

  lemma EmptyLoads(c: Codec)
    ensures LoadCache(c, "") == Cache(GENESIS, 0, 0) && Lead("") == ""
  {
    LinesPlain("");
  }

  // It holds the lock.
  lemma HolderReady(c: Codec, key: Key, payload: string) returns (steps: seq<Step>, t: Sys)
    ensures Leads(c, key, Init(0), steps, t, Prompt) && ReadyFirst(key, t, 0, payload)
    ensures t.log == Init(0).log && t.now == 0 && t.lock.file == Some(LockFile(0, 0, 0))
    ensures t.procs.Keys == {0} && t.gone == {}
  {
    var s := Init(0);
    steps := Comes(c, key, s, 0);
    steps := ThenPlain(c, key, s, steps, Came(s, 0), Create(0));
    var inside := Apply(c, key, Came(s, 0), Create(0));
    var more: seq<Step>;
    more, t := Prepares(c, key, inside, 0, payload);
    EmptyLoads(c);
    Joined(c, key, s, steps, inside, more, t, Quiet);
    steps := steps + more;
    QuietIsPrompt(c, key, s, steps);
  }

  // Another comes, waits for two seconds and goes on without the lock.
  lemma WaitsInVain(c: Codec, key: Key, s: Sys, p: nat) returns (steps: seq<Step>, t: Sys)
    requires p !in s.procs && p !in s.gone && s.lock.file.Some? && s.lock.file.value.since == s.now
    ensures Leads(c, key, s, steps, t, Prompt) && t.log == s.log
    ensures p in t.procs && t.procs[p].phase == Entered && t.procs[p].cache == None
    ensures forall q :: q in s.procs ==> q in t.procs && t.procs[q] == s.procs[q]
  {
    steps := Comes(c, key, s, p);
    QuietIsPrompt(c, key, s, steps);
    var came := Came(s, p);
    steps := Then(c, key, s, steps, came, Miss(p), Prompt);
    var missed := Apply(c, key, came, Miss(p));
    steps := Then(c, key, s, steps, missed, Tick(s.now + LOCK_WAIT_MS + 1), Prompt);
    var late := Apply(c, key, missed, Tick(s.now + LOCK_WAIT_MS + 1));
    steps := Then(c, key, s, steps, late, CheckClock(p), Prompt);
    t := Apply(c, key, late, CheckClock(p));
  }

  lemma OtherReady(c: Codec, key: Key, s: Sys, p: nat, payload: string) returns (steps: seq<Step>, t: Sys)
    requires p !in s.procs && p !in s.gone && s.lock.file.Some? && s.lock.file.value.since == s.now
    requires s.log.file == ""
    ensures Leads(c, key, s, steps, t, Prompt) && t.log == s.log && ReadyFirst(key, t, p, payload)
    ensures forall q :: q in s.procs ==> q in t.procs && t.procs[q] == s.procs[q]
  {
    var first, inside := WaitsInVain(c, key, s, p);
    var more: seq<Step>;
    more, t := Prepares(c, key, inside, p, payload);
    EmptyLoads(c);
    QuietIsPrompt(c, key, inside, more);
    Joined(c, key, s, first, inside, more, t, Prompt);
    steps := first + more;
  }

  // A row lands on a file that is finished.
  lemma Writes(c: Codec, key: Key, s: Sys, p: nat, payload: string)
    requires Faithful(c) && ReadyFirst(key, s, p, payload) && EndsIn(c, s.log.file, []) && s.log.tail == []
    ensures Enabled(c, s, Write(p))
    ensures var t := Apply(c, key, s, Write(p));
            && EndsIn(c, t.log.file, []) && t.log.tail == []
            && ParsedLines(c, t.log.file)
               == ParsedLines(c, s.log.file) + [Row(payload, Some(ChainHashWith(key, GENESIS, payload)))]
            && p in t.procs && t.procs[p].phase == Wrote && t.procs[p].cache.Some?
            && t.procs[p].cache.value.head == ChainHashWith(key, GENESIS, payload)
            && t.procs[p].cache.value.count == 1
            && forall q :: q in s.procs && q != p ==> q in t.procs && t.procs[q] == s.procs[q]
  {
    var ready := s.procs[p].phase;
    var k := Whole(c, ready);
    WriteLands(c, s.log.file, [], ready.lead, ready.payload, ready.h, k);
    LandsAll(c, [], ParsedLines(c, s.log.file), ready, k);
    assert RowIsLine(c, ready.payload, ready.h);
  }

  lemma Anchors(c: Codec, key: Key, s: Sys, steps: seq<Step>, t: Sys, p: nat) returns (more: seq<Step>, u: Sys)
    requires Leads(c, key, s, steps, t, Prompt)
    requires p in t.procs && t.procs[p].phase == Wrote && t.procs[p].cache.Some?
    ensures Leads(c, key, s, more, u, Prompt) && u.log.file == t.log.file
    ensures var cache := t.procs[p].cache.value; u.log.anchor == Some(MakeAnchor(key, cache.count, cache.head))
  {
    more := Then(c, key, s, steps, t, MeasureAgain(p), Prompt);
    var sized := Apply(c, key, t, MeasureAgain(p));
    more := Then(c, key, s, more, sized, WriteAnchor(p, true), Prompt);
    u := Apply(c, key, sized, WriteAnchor(p, true));
  }

  lemma ForkShows(key: Key, x: string, y: string)
    requires x != y
    ensures var hx, hy := ChainHashWith(key, GENESIS, x), ChainHashWith(key, GENESIS, y);
            var ps := [Row(y, Some(hy))] + [Row(x, Some(hx))];
            BrokenAt(key, ps) == [1] && RolledBack(key, ps, Some(MakeAnchor(key, 1, hx)))
  {
    var hx, hy := ChainHashWith(key, GENESIS, x), ChainHashWith(key, GENESIS, y);
    var one := [Row(y, Some(hy))];
    var ps := one + [Row(x, Some(hx))];
    assert one[..0] == [] && ps[..1] == one;
    AppendBreaks(key, [], GENESIS, y);
    NothingInFront(one);
    AppendBreaks(key, one, GENESIS, x);
    assert BrokenAt(key, one) == [];
    assert HeadAfter(key, one) == hy;
  }

  // The holder is two seconds slow. Another appends without the lock, and then the
  // holder from the head it read before: a fork, reported at the holder's row; and
  // its anchor counts one row too few, which is reported as a rollback. Every
  // process is prompt in giving back its lock.
  lemma HolderIsOvertaken(c: Codec, key: Key, x: string, y: string) returns (steps: seq<Step>, t: Sys)
    requires Faithful(c) && x != y
    ensures Leads(c, key, Init(0), steps, t, Prompt)
    ensures BrokenAt(key, ParsedLines(c, t.log.file)) == [1]
    ensures RolledBack(key, ParsedLines(c, t.log.file), t.log.anchor)
  {
    var s := Init(0);
    var first, held := HolderReady(c, key, x);
    var second, both := OtherReady(c, key, held, 1, y);
    Joined(c, key, s, first, held, second, both, Prompt);
    InitOk(c, key, 0);
    Writes(c, key, both, 1, y);
    steps := Then(c, key, s, first + second, both, Write(1), Prompt);
    var once := Apply(c, key, both, Write(1));
    Writes(c, key, once, 0, x);
    steps := Then(c, key, s, steps, once, Write(0), Prompt);
    var twice := Apply(c, key, once, Write(0));
    NothingInFront([Row(y, Some(ChainHashWith(key, GENESIS, y)))]);
    ForkShows(key, x, y);
    steps, t := Anchors(c, key, s, steps, twice, 0);
  }
}
