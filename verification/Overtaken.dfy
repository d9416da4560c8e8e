// What makes a head stale: some other process appended since it was taken. Runs
// whose writes land whole or not at all, with new rows only.

module Overtaken {
  import opened Text
  import opened Chain
  import opened AuditLog
  import opened LockTurns
  import opened Protocol
  import opened Forks

  predicate DistinctRows(ps: seq<Parsed>) {
    && (forall i :: 0 <= i < |ps| ==> OwnHash(ps[i]))
    && (forall i, j :: 0 <= i < j < |ps| ==> ps[i].payload != ps[j].payload)
  }

  predicate NotIn(ps: seq<Parsed>, payload: string) {
    forall i :: 0 <= i < |ps| && ps[i].Row? ==> ps[i].payload != payload
  }

  // A process mid-write leaves all of its text or nothing.
  predicate Uncut(c: Codec, s: Sys, step: Step) {
    (step.FailWrite? || step.Crash?) && step.p in s.procs && s.procs[step.p].phase.Ready?
    ==> step.k == 0 || step.k == Whole(c, s.procs[step.p].phase)
  }

  // No row of the file, and none that is about to be written, has this payload;
  // every event carries a new id.
  predicate NewPayload(c: Codec, s: Sys, step: Step) {
    step.Prepare? ==>
      && NotIn(ParsedLines(c, s.log.file), step.payload)
      && forall q :: q in s.procs && s.procs[q].phase.Ready? ==> s.procs[q].phase.payload != step.payload
  }

  ghost predicate Orderly(c: Codec, key: Key, s: Sys, steps: seq<Step>)
    requires Legal(c, key, s, steps)
    decreases |steps|
  {
    steps == [] || (Uncut(c, s, steps[0]) && NewPayload(c, s, steps[0])
                    && Orderly(c, key, Apply(c, key, s, steps[0]), steps[1..]))
  }

  // --- the invariant ----------------------------------------------------------

  // The head of the first `seen` lines.
  predicate TakenAt(key: Key, ps: seq<Parsed>, head: Head, seen: nat) {
    seen <= |ps| && head == HeadAfter(key, ps[..seen])
  }

  predicate Took(key: Key, ps: seq<Parsed>, proc: Proc) {
    && (proc.cache.Some? ==> TakenAt(key, ps, proc.cache.value.head, proc.seen) && proc.cache.value.count <= proc.seen)
    && (proc.phase.Read? ==> TakenAt(key, ps, proc.phase.head, proc.seen) && proc.phase.count <= proc.seen)
    && (proc.phase.Ready? ==> TakenAt(key, ps, proc.phase.from, proc.seen) && NotIn(ps, proc.phase.payload))
    && (proc.phase == Unread || proc.phase.Read? ==> proc.cache == None)
  }

  ghost predicate AllTook(key: Key, ps: seq<Parsed>, procs: map<nat, Proc>) {
    forall p :: p in procs ==> Took(key, ps, procs[p])
  }

  ghost predicate ReadyApart(procs: map<nat, Proc>) {
    forall p, q :: p in procs && q in procs && p != q && procs[p].phase.Ready? && procs[q].phase.Ready?
      ==> procs[p].phase.payload != procs[q].phase.payload
  }

  ghost predicate LogTook(c: Codec, key: Key, log: Log) {
    && LogOk(c, key, log) && log.tail == [] && log.stale == log.overtaken
    && DistinctRows(ParsedLines(c, log.file))
  }

  ghost predicate OvertakenInv(c: Codec, key: Key, s: Sys) {
    && LogTook(c, key, s.log) && ProcsOk(key, s.procs)
    && AllTook(key, ParsedLines(c, s.log.file), s.procs) && ReadyApart(s.procs)
  }

  // --- heads of distinct rows are distinct ------------------------------------

  lemma HeadsDiffer(key: Key, ps: seq<Parsed>, i: nat, j: nat)
    requires DistinctRows(ps) && i < j <= |ps|
    ensures HeadAfter(key, ps[..i]) != HeadAfter(key, ps[..j])
  {
    Snoc(key, ps, j - 1);
    if i > 0 {
      Snoc(key, ps, i - 1);
    }
  }

  lemma TakenIsCurrentIff(key: Key, ps: seq<Parsed>, head: Head, seen: nat)
    requires DistinctRows(ps) && TakenAt(key, ps, head, seen)
    ensures head == HeadAfter(key, ps) <==> seen == |ps|
  {
    assert ps[..|ps|] == ps;
    if seen < |ps| {
      HeadsDiffer(key, ps, seen, |ps|);
    }
  }

  lemma TakenStays(key: Key, ps: seq<Parsed>, p: Parsed, head: Head, seen: nat)
    requires TakenAt(key, ps, head, seen)
    ensures TakenAt(key, ps + [p], head, seen)
  {
    assert (ps + [p])[..seen] == ps[..seen];
  }

  lemma DistinctHashed(ps: seq<Parsed>)
    requires DistinctRows(ps)
    ensures LastRowHashed(ps)
  {
  }

  // --- the steps --------------------------------------------------------------

  // What is added to the file: nothing, or one whole row.
  lemma LandsWholeOrNot(c: Codec, key: Key, log: Log, proc: Proc, k: nat)
    requires Faithful(c) && LogTook(c, key, log) && ReadyOk(key, proc) && CanLand(c, proc, k)
    requires k == 0 || k == Whole(c, proc.phase)
    requires Took(key, ParsedLines(c, log.file), proc)
    ensures var after, ps := Land(c, key, log, proc, k), ParsedLines(c, log.file);
            && LogTook(c, key, after)
            && ParsedLines(c, after.file) == ps + (if k == 0 then [] else [Row(proc.phase.payload, Some(proc.phase.h))])
  {
    var ready, ps := proc.phase, ParsedLines(c, log.file);
    LandKeepsOk(c, key, log, proc, k);
    WriteLands(c, log.file, log.tail, ready.lead, ready.payload, ready.h, k);
    TakenIsCurrentIff(key, ps, ready.from, proc.seen);
    LandsAll(c, log.tail, ps, ready, k);
    NothingBehind(ps);
    if k != 0 {
      OneMoreRow(ps, Row(ready.payload, Some(ready.h)));
    }
  }

  lemma OneMoreRow(ps: seq<Parsed>, row: Parsed)
    requires DistinctRows(ps) && OwnHash(row) && NotIn(ps, row.payload)
    ensures DistinctRows(ps + [row])
  {
  }

  // On a finished file, all of the text or nothing of it.
  lemma LandsAll(c: Codec, tail: seq<Start>, ps: seq<Parsed>, ready: Phase, k: nat)
    requires Faithful(c) && tail == [] && ready.Ready? && (k == 0 || k == Whole(c, ready))
    ensures LandedTail(c, tail, ready.lead, ready.payload, ready.h, k) == []
    ensures LandsWhole(c, tail, ready, k) <==> k != 0
    ensures LandedLines(c, ps, tail, ready.lead, ready.payload, ready.h, k)
         == ps + if k == 0 then [] else [Row(ready.payload, Some(ready.h))]
  {
    assert RowIsLine(c, ready.payload, ready.h);
    NothingBehind(ps);
  }

  // The lines after a step: none new, or the row the process had ready.
  lemma LinesAfter(c: Codec, key: Key, s: Sys, step: Step)
    requires Faithful(c) && OvertakenInv(c, key, s) && Enabled(c, s, step) && Uncut(c, s, step)
    requires !step.Tick? && !step.Spawn?
    ensures var ps := ParsedLines(c, s.log.file);
            var after := LogAfter(c, key, s.log, s.procs[step.p], step);
            var qs := ParsedLines(c, after.file);
            var proc := s.procs[step.p];
            && LogTook(c, key, after)
            && (qs == ps || (Lands(proc, step) && qs == ps + [Row(proc.phase.payload, Some(proc.phase.h))]))
            && (step.Write? ==> qs == ps + [Row(proc.phase.payload, Some(proc.phase.h))])
  {
    var proc := s.procs[step.p];
    assert Took(key, ParsedLines(c, s.log.file), proc) && ReadyOk(key, proc);
    LandsIsLand(c, key, s, proc, step);
    if Lands(proc, step) {
      LandsWholeOrNot(c, key, s.log, proc, Landing(c, proc, step));
      NothingBehind(ParsedLines(c, s.log.file));
    }
  }

  lemma BystanderTook(key: Key, ps: seq<Parsed>, p: Parsed, proc: Proc)
    requires Took(key, ps, proc) && p.Row? && (proc.phase.Ready? ==> proc.phase.payload != p.payload)
    ensures Took(key, ps + [p], proc)
  {
    if proc.cache.Some? {
      TakenStays(key, ps, p, proc.cache.value.head, proc.seen);
    }
    if proc.phase.Read? {
      TakenStays(key, ps, p, proc.phase.head, proc.seen);
    }
    if proc.phase.Ready? {
      TakenStays(key, ps, p, proc.phase.from, proc.seen);
    }
  }

  // A process that appends, or failed to, or does anything but append.
  lemma WriterTook(c: Codec, key: Key, s: Sys, proc: Proc, step: Step, ps: seq<Parsed>, row: Parsed)
    requires Can(c, s, proc, step) && step.Write? && Took(key, ps, proc) && ReadyOk(key, proc)
    requires row == Row(proc.phase.payload, Some(proc.phase.h))
    requires ParsedLines(c, LogAfter(c, key, s.log, proc, step).file) == ps + [row]
    ensures Took(key, ps + [row], ProcAfter(c, key, s, proc, step))
  {
    assert (ps + [row])[..|ps|] == ps && (ps + [row])[..|ps + [row]|] == ps + [row];
  }

  lemma FailedTook(c: Codec, key: Key, s: Sys, proc: Proc, step: Step, ps: seq<Parsed>, qs: seq<Parsed>)
    requires Can(c, s, proc, step) && step.FailWrite? && Took(key, ps, proc)
    requires qs == ps || (|qs| == |ps| + 1 && qs[..|ps|] == ps)
    ensures Took(key, qs, ProcAfter(c, key, s, proc, step))
  {
    if qs != ps {
      assert qs == ps + [qs[|ps|]];
      TakenStays(key, ps, qs[|ps|], proc.cache.value.head, proc.seen);
    }
  }

  lemma ReaderTook(c: Codec, key: Key, s: Sys, proc: Proc, step: Step, ps: seq<Parsed>)
    requires Can(c, s, proc, step) && !step.Write? && !step.FailWrite? && !step.Crash?
    requires ps == ParsedLines(c, s.log.file) && DistinctRows(ps) && Took(key, ps, proc) && NewPayload(c, s, step)
    ensures Took(key, ps, ProcAfter(c, key, s, proc, step))
  {
    if step.ReadLines? {
      DistinctHashed(ps);
      LoadAgreesWithVerifyIff(key, ps);
      assert ps[..|ps|] == ps;
    }
  }

  lemma StepperTook(c: Codec, key: Key, s: Sys, step: Step)
    requires Faithful(c) && OvertakenInv(c, key, s) && Enabled(c, s, step)
    requires Uncut(c, s, step) && NewPayload(c, s, step)
    requires !step.Tick? && !step.Spawn? && !step.Crash?
    ensures var qs := ParsedLines(c, LogAfter(c, key, s.log, s.procs[step.p], step).file);
            Took(key, qs, ProcAfter(c, key, s, s.procs[step.p], step))
  {
    var ps, proc := ParsedLines(c, s.log.file), s.procs[step.p];
    var qs := ParsedLines(c, LogAfter(c, key, s.log, proc, step).file);
    assert Took(key, ps, proc) && ReadyOk(key, proc);
    LinesAfter(c, key, s, step);
    if step.Write? {
      WriterTook(c, key, s, proc, step, ps, Row(proc.phase.payload, Some(proc.phase.h)));
    } else if step.FailWrite? {
      FailedTook(c, key, s, proc, step, ps, qs);
    } else {
      ReaderTook(c, key, s, proc, step, ps);
    }
  }

  lemma OthersTook(c: Codec, key: Key, s: Sys, step: Step, q: nat)
    requires Faithful(c) && OvertakenInv(c, key, s) && Enabled(c, s, step) && Uncut(c, s, step)
    requires !step.Tick? && !step.Spawn? && q in s.procs && q != step.p
    ensures Took(key, ParsedLines(c, LogAfter(c, key, s.log, s.procs[step.p], step).file), s.procs[q])
  {
    var proc := s.procs[step.p];
    assert Took(key, ParsedLines(c, s.log.file), s.procs[q]);
    LinesAfter(c, key, s, step);
    if Lands(proc, step) {
      BystanderTook(key, ParsedLines(c, s.log.file), Row(proc.phase.payload, Some(proc.phase.h)), s.procs[q]);
    }
  }

  // Only Prepare makes a process ready.
  lemma ApartAfter(c: Codec, key: Key, s: Sys, step: Step)
    requires ReadyApart(s.procs) && Enabled(c, s, step) && NewPayload(c, s, step)
    ensures ReadyApart(Apply(c, key, s, step).procs)
  {
    if !step.Tick? && !step.Spawn? && !step.Crash? {
      var proc := s.procs[step.p];
      ReadyAfter(c, key, s, proc, step);
      PutApart(s.procs, step.p, ProcAfter(c, key, s, proc, step));
    }
  }

  lemma ReadyAfter(c: Codec, key: Key, s: Sys, proc: Proc, step: Step)
    requires Can(c, s, proc, step) && !step.Crash?
    ensures var after := ProcAfter(c, key, s, proc, step);
            after.phase.Ready? ==> step.Prepare? && after.phase.payload == step.payload
  {
  }

  lemma PutApart(procs: map<nat, Proc>, p: nat, after: Proc)
    requires ReadyApart(procs) && p in procs
    requires after.phase.Ready? ==>
               forall q :: q in procs && procs[q].phase.Ready? ==> procs[q].phase.payload != after.phase.payload
    ensures ReadyApart(procs[p := after])
  {
  }

  lemma TookAfter(c: Codec, key: Key, s: Sys, step: Step)
    requires Faithful(c) && OvertakenInv(c, key, s) && Enabled(c, s, step)
    requires Uncut(c, s, step) && NewPayload(c, s, step)
    requires !step.Tick? && !step.Spawn?
    ensures var t := Apply(c, key, s, step);
            AllTook(key, ParsedLines(c, t.log.file), t.procs)
  {
    var t := Apply(c, key, s, step);
    forall q | q in t.procs ensures Took(key, ParsedLines(c, t.log.file), t.procs[q]) {
      if q != step.p {
        OthersTook(c, key, s, step, q);
      } else {
        StepperTook(c, key, s, step);
      }
    }
  }

  lemma StepKeepsInv(c: Codec, key: Key, s: Sys, step: Step)
    requires Faithful(c) && OvertakenInv(c, key, s) && Enabled(c, s, step)
    requires Uncut(c, s, step) && NewPayload(c, s, step)
    ensures OvertakenInv(c, key, Apply(c, key, s, step))
  {
    StepKeepsOk(c, key, s, step);
    ApartAfter(c, key, s, step);
    if !step.Tick? && !step.Spawn? {
      LinesAfter(c, key, s, step);
      TookAfter(c, key, s, step);
    }
  }

  lemma {:induction false} RunKeepsInv(c: Codec, key: Key, s: Sys, steps: seq<Step>)
    requires Faithful(c) && OvertakenInv(c, key, s) && Legal(c, key, s, steps) && Orderly(c, key, s, steps)
    ensures OvertakenInv(c, key, Run(c, key, s, steps))
    decreases |steps|
  {
    if steps != [] {
      StepKeepsInv(c, key, s, steps[0]);
      RunKeepsInv(c, key, Apply(c, key, s, steps[0]), steps[1..]);
    }
  }

  lemma InitInv(c: Codec, key: Key, now: int)
    ensures OvertakenInv(c, key, Init(now))
  {
    InitOk(c, key, now);
  }

  // When every write lands whole or not at all, the breaks reported are exactly
  // the rows of processes that some other append had overtaken, however they
  // interleave and whoever holds the lock.
  lemma BrokenIffOvertaken(c: Codec, key: Key, now: int, steps: seq<Step>)
    requires Faithful(c) && Legal(c, key, Init(now), steps) && Orderly(c, key, Init(now), steps)
    ensures var s := Run(c, key, Init(now), steps);
            var ps := ParsedLines(c, s.log.file);
            && (forall i :: i in BrokenAt(key, ps) <==> i in s.log.overtaken)
            && Unparsables(ps) == 0
  {
    InitInv(c, key, now);
    RunKeepsInv(c, key, Init(now), steps);
    var s := Run(c, key, Init(now), steps);
    ExplainedBreaks(key, ParsedLines(c, s.log.file), s.log.stale);
    NoneTorn(ParsedLines(c, s.log.file));
  }

  lemma {:induction false} NoneTorn(ps: seq<Parsed>)
    requires forall i :: 0 <= i < |ps| ==> ps[i].Row?
    ensures Unparsables(ps) == 0
  {
    if ps != [] {
      NoneTorn(ps[..|ps| - 1]);
    }
  }

  // --- the anchor of a process that was overtaken -----------------------------

  // What lies behind a process since it last read the file: whether no other row
  // has landed since it read or appended, and whether it has appended when one had.
  datatype Past = Past(upToDate: bool, forked: bool)

  function PastAfter(past: Past, p: nat, step: Step, landed: bool): Past {
    if step == ReadLines(p) then Past(true, false)
    else if step == Write(p) then Past(true, past.forked || !past.upToDate)
    else Past(past.upToDate && !landed, past.forked)
  }

  // The step puts a row in the file.
  predicate RowLands(c: Codec, key: Key, s: Sys, step: Step)
    requires Enabled(c, s, step)
  {
    |ParsedLines(c, Apply(c, key, s, step).log.file)| > |ParsedLines(c, s.log.file)|
  }

  ghost function PastOf(c: Codec, key: Key, s: Sys, steps: seq<Step>, p: nat, past: Past): Past
    requires Legal(c, key, s, steps)
    decreases |steps|
  {
    if steps == [] then past
    else
      PastOf(c, key, Apply(c, key, s, steps[0]), steps[1..], p,
             PastAfter(past, p, steps[0], RowLands(c, key, s, steps[0])))
  }

  // How the history tells it.
  predicate Recalls(n: nat, proc: Proc, past: Past) {
    && (proc.cache.Some? ==>
          (past.upToDate <==> proc.seen == n) && (past.forked <==> proc.cache.value.count != proc.seen))
    && (proc.phase.Read? ==> (past.upToDate <==> proc.seen == n) && proc.phase.count == proc.seen && !past.forked)
  }

  lemma StepperRecalls(c: Codec, key: Key, s: Sys, proc: Proc, step: Step, past: Past, n: nat)
    requires Can(c, s, proc, step) && !step.Crash? && Took(key, ParsedLines(c, s.log.file), proc)
    requires Recalls(|ParsedLines(c, s.log.file)|, proc, past)
    requires n == |ParsedLines(c, LogAfter(c, key, s.log, proc, step).file)|
    requires n >= |ParsedLines(c, s.log.file)| && (step.Write? ==> n == |ParsedLines(c, s.log.file)| + 1)
    ensures Recalls(n, ProcAfter(c, key, s, proc, step),
                    PastAfter(past, step.p, step, n > |ParsedLines(c, s.log.file)|))
  {
  }

  lemma BystanderRecalls(key: Key, ps: seq<Parsed>, n: nat, proc: Proc, past: Past, p: nat, step: Step)
    requires Took(key, ps, proc) && Recalls(|ps|, proc, past) && n >= |ps|
    requires step != ReadLines(p) && step != Write(p)
    ensures Recalls(n, proc, PastAfter(past, p, step, n > |ps|))
  {
  }

  // Every step keeps the history and the run's account of it together.
  lemma StepRecalls(c: Codec, key: Key, s: Sys, step: Step, p: nat, past: Past)
    requires Faithful(c) && OvertakenInv(c, key, s) && Enabled(c, s, step) && Uncut(c, s, step)
    requires p in s.procs ==> Recalls(|ParsedLines(c, s.log.file)|, s.procs[p], past)
    ensures var t := Apply(c, key, s, step);
            p in t.procs ==>
              Recalls(|ParsedLines(c, t.log.file)|, t.procs[p], PastAfter(past, p, step, RowLands(c, key, s, step)))
  {
    var t := Apply(c, key, s, step);
    var ps, n := ParsedLines(c, s.log.file), |ParsedLines(c, t.log.file)|;
    if !step.Tick? && !step.Spawn? {
      LinesAfter(c, key, s, step);
      if p in t.procs && p == step.p {
        assert Took(key, ps, s.procs[p]);
        StepperRecalls(c, key, s, s.procs[p], step, past, n);
      } else if p in t.procs {
        assert Took(key, ps, s.procs[p]);
        BystanderRecalls(key, ps, n, s.procs[p], past, p, step);
      }
    }
  }

  lemma {:induction false} RunRecalls(c: Codec, key: Key, s: Sys, steps: seq<Step>, p: nat, past: Past)
    requires Faithful(c) && OvertakenInv(c, key, s) && Legal(c, key, s, steps) && Orderly(c, key, s, steps)
    requires p in s.procs ==> Recalls(|ParsedLines(c, s.log.file)|, s.procs[p], past)
    ensures var t := Run(c, key, s, steps);
            p in t.procs ==> Recalls(|ParsedLines(c, t.log.file)|, t.procs[p], PastOf(c, key, s, steps, p, past))
    decreases |steps|
  {
    if steps != [] {
      StepKeepsInv(c, key, s, steps[0]);
      StepRecalls(c, key, s, steps[0], p, past);
      RunRecalls(c, key, Apply(c, key, s, steps[0]), steps[1..], p,
                 PastAfter(past, p, steps[0], RowLands(c, key, s, steps[0])));
    }
  }

  // The row a process appends is reported as a break if and only if another row
  // has landed since it last read the file or appended.
  lemma AppendBreaksIff(c: Codec, key: Key, now: int, steps: seq<Step>, p: nat)
    requires Faithful(c) && Legal(c, key, Init(now), steps) && Orderly(c, key, Init(now), steps)
    requires Enabled(c, Run(c, key, Init(now), steps), Write(p))
    ensures var s := Run(c, key, Init(now), steps);
            var ps, qs := ParsedLines(c, s.log.file), ParsedLines(c, Apply(c, key, s, Write(p)).log.file);
            && |qs| == |ps| + 1 && qs[..|ps|] == ps
            && (Breaks(key, qs, |ps|) <==> !PastOf(c, key, Init(now), steps, p, Past(true, false)).upToDate)
  {
    InitInv(c, key, now);
    RunKeepsInv(c, key, Init(now), steps);
    RunRecalls(c, key, Init(now), steps, p, Past(true, false));
    WriteBreaksIff(c, key, Run(c, key, Init(now), steps), p);
  }

  lemma WriteBreaksIff(c: Codec, key: Key, s: Sys, p: nat)
    requires Faithful(c) && OvertakenInv(c, key, s) && Enabled(c, s, Write(p))
    ensures var ps, qs := ParsedLines(c, s.log.file), ParsedLines(c, Apply(c, key, s, Write(p)).log.file);
            |qs| == |ps| + 1 && qs[..|ps|] == ps && (Breaks(key, qs, |ps|) <==> s.procs[p].seen != |ps|)
  {
    var ps, proc := ParsedLines(c, s.log.file), s.procs[p];
    assert Took(key, ps, proc) && ReadyOk(key, proc);
    LinesAfter(c, key, s, Write(p));
    AppendBreaks(key, ps, proc.phase.from, proc.phase.payload);
    TakenIsCurrentIff(key, ps, proc.phase.from, proc.seen);
  }

  lemma {:induction false} LinesGrow(c: Codec, key: Key, s: Sys, steps: seq<Step>)
    requires Faithful(c) && OvertakenInv(c, key, s) && Legal(c, key, s, steps) && Orderly(c, key, s, steps)
    ensures ParsedLines(c, s.log.file) <= ParsedLines(c, Run(c, key, s, steps).log.file)
    decreases |steps|
  {
    if steps != [] {
      if !steps[0].Tick? && !steps[0].Spawn? {
        LinesAfter(c, key, s, steps[0]);
      }
      StepKeepsInv(c, key, s, steps[0]);
      LinesGrow(c, key, Apply(c, key, s, steps[0]), steps[1..]);
    }
  }

  // What a cache's anchor says of the file, now or when it has grown.
  lemma MiscountShows(key: Key, ps: seq<Parsed>, qs: seq<Parsed>, proc: Proc)
    requires ps <= qs && DistinctRows(qs) && Took(key, ps, proc) && proc.cache.Some?
    ensures var a := MakeAnchor(key, proc.cache.value.count, proc.cache.value.head);
            RolledBack(key, qs, Some(a)) <==> proc.cache.value.count != proc.seen
  {
    var count := proc.cache.value.count;
    assert qs[..proc.seen] == ps[..proc.seen];
    if count > 0 {
      assert OwnHash(qs[count - 1]);
    }
    if count < proc.seen {
      HeadsDiffer(key, qs, count, proc.seen);
    }
  }

  // A process that has appended when another row had landed since it last read or
  // appended goes on with a count that is too low, until it reads the file again.
  // The anchor it writes meanwhile, and no other, is reported as a rollback, when it
  // is written and however far the file has grown since.
  lemma MiscountReportedAsRollback(c: Codec, key: Key, now: int, steps: seq<Step>, p: nat, more: seq<Step>)
    requires Faithful(c) && Legal(c, key, Init(now), steps) && Orderly(c, key, Init(now), steps)
    requires var s := Run(c, key, Init(now), steps);
             Enabled(c, s, WriteAnchor(p, true)) && Legal(c, key, s, more) && Orderly(c, key, s, more)
    ensures var s := Run(c, key, Init(now), steps);
            var written := Apply(c, key, s, WriteAnchor(p, true)).log.anchor;
            RolledBack(key, ParsedLines(c, Run(c, key, s, more).log.file), written)
            <==> PastOf(c, key, Init(now), steps, p, Past(true, false)).forked
  {
    InitInv(c, key, now);
    RunKeepsInv(c, key, Init(now), steps);
    RunRecalls(c, key, Init(now), steps, p, Past(true, false));
    AnchorShows(c, key, Run(c, key, Init(now), steps), p, more);
  }

  lemma AnchorShows(c: Codec, key: Key, s: Sys, p: nat, more: seq<Step>)
    requires Faithful(c) && OvertakenInv(c, key, s) && Enabled(c, s, WriteAnchor(p, true))
    requires Legal(c, key, s, more) && Orderly(c, key, s, more)
    ensures var written := Apply(c, key, s, WriteAnchor(p, true)).log.anchor;
            RolledBack(key, ParsedLines(c, Run(c, key, s, more).log.file), written)
            <==> s.procs[p].cache.value.count != s.procs[p].seen
  {
    LinesGrow(c, key, s, more);
    RunKeepsInv(c, key, s, more);
    AnchorIsCaches(c, key, s, p);
    LaterShows(c, key, s, Run(c, key, s, more), p, Apply(c, key, s, WriteAnchor(p, true)).log.anchor);
  }

  lemma AnchorIsCaches(c: Codec, key: Key, s: Sys, p: nat)
    requires Enabled(c, s, WriteAnchor(p, true))
    ensures var cache := s.procs[p].cache.value;
            Apply(c, key, s, WriteAnchor(p, true)).log.anchor == Some(MakeAnchor(key, cache.count, cache.head))
  {
  }

  lemma LaterShows(c: Codec, key: Key, s: Sys, t: Sys, p: nat, written: Option<Anchor>)
    requires OvertakenInv(c, key, s) && OvertakenInv(c, key, t) && p in s.procs && s.procs[p].cache.Some?
    requires ParsedLines(c, s.log.file) <= ParsedLines(c, t.log.file)
    requires var cache := s.procs[p].cache.value; written == Some(MakeAnchor(key, cache.count, cache.head))
    ensures RolledBack(key, ParsedLines(c, t.log.file), written) <==> s.procs[p].cache.value.count != s.procs[p].seen
  {
    assert Took(key, ParsedLines(c, s.log.file), s.procs[p]);
    MiscountShows(key, ParsedLines(c, s.log.file), ParsedLines(c, t.log.file), s.procs[p]);
  }
}
