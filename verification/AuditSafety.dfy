// What verifyAudit says of every state that guarded appends can reach.

module AuditSafety {
  import opened Text
  import opened Chain
  import opened AuditLog
  import opened LockTurns
  import opened Protocol
  import Forks
  import opened LockTiming
  import Tamper

  // --- the invariant ----------------------------------------------------------

  // Every line is torn, or a row hashed from the nearest row before it.
  predicate Chained(key: Key, ps: seq<Parsed>) {
    forall i :: 0 <= i < |ps| ==> ChainedAt(key, ps, i)
  }

  predicate ChainedAt(key: Key, ps: seq<Parsed>, i: nat)
    requires i < |ps|
  {
    ps[i].Unparsable?
    || (ps[i].Row? && ps[i].h == Some(ChainHashWith(key, HeadAfter(key, ps[..i]), ps[i].payload)))
  }

  // The anchor names a row of the file and the head up to it.
  predicate Witnesses(key: Key, ps: seq<Parsed>, a: Anchor) {
    && 1 <= a.count <= |ps|
    && ps[a.count - 1].Row?
    && a == MakeAnchor(key, a.count, HeadAfter(key, ps[..a.count]))
  }

  function Payloads(ps: seq<Parsed>): seq<string> {
    if ps == [] then []
    else Payloads(ps[..|ps| - 1]) + if ps[|ps| - 1].Row? then [ps[|ps| - 1].payload] else []
  }

  predicate LastIsRow(ps: seq<Parsed>) {
    |ps| > 0 && ps[|ps| - 1].Row?
  }

  predicate Current(c: Codec, key: Key, file: string, cache: Cache) {
    var ps := ParsedLines(c, file);
    cache == Cache(HeadAfter(key, ps), |ps|, |file|)
  }

  // A cache whose size matches the file is right about the file.
  predicate CacheOk(c: Codec, key: Key, file: string, cache: Option<Cache>) {
    cache.Some? ==>
      cache.value.size <= |file| && (cache.value.size == |file| ==> Current(c, key, file, cache.value))
  }

  // What a process inside knows of the file at each point.
  predicate Knows(c: Codec, key: Key, file: string, proc: Proc) {
    var ps := ParsedLines(c, file);
    match proc.phase
    case Read(head, count) => head == HeadAfter(key, ps) && count == |ps|
    case Loaded => proc.cache.Some? && Current(c, key, file, proc.cache.value)
    case Ready(_, from, _, lead) =>
      && proc.cache.Some? && Current(c, key, file, proc.cache.value)
      && from == proc.cache.value.head && lead == Lead(file)
    case Wrote =>
      && proc.cache.Some? && proc.cache.value.head == HeadAfter(key, ps) && proc.cache.value.count == |ps|
      && LastIsRow(ps)
    case Sized => proc.cache.Some? && Current(c, key, file, proc.cache.value) && LastIsRow(ps)
    case _ => true
  }

  predicate GoodProc(c: Codec, key: Key, file: string, proc: Proc) {
    CacheOk(c, key, file, proc.cache) && Knows(c, key, file, proc) && Forks.ReadyOk(key, proc)
  }

  ghost predicate GoodLog(c: Codec, key: Key, log: Log) {
    var ps := ParsedLines(c, log.file);
    && EndsIn(c, log.file, log.tail)
    && Chained(key, ps)
    && Payloads(ps) == log.rows
    && (log.anchor.Some? ==> Witnesses(key, ps, log.anchor.value))
  }

  ghost predicate Inv(c: Codec, key: Key, s: Sys) {
    && Guarded(s) && GoodLog(c, key, s.log)
    && forall p :: p in s.procs ==> GoodProc(c, key, s.log.file, s.procs[p])
  }

  // --- its preservation -------------------------------------------------------

  lemma ChainedLoads(key: Key, ps: seq<Parsed>)
    requires Chained(key, ps)
    ensures LastHead(ps) == HeadAfter(key, ps)
  {
    ChainedIsHashed(key, ps);
    LoadAgreesWithVerifyIff(key, ps);
  }

  lemma {:induction false} ChainedIsHashed(key: Key, ps: seq<Parsed>)
    requires Chained(key, ps)
    ensures LastRowHashed(ps)
  {
    if ps != [] {
      ChainedPrefix(key, ps, |ps| - 1);
      ChainedIsHashed(key, ps[..|ps| - 1]);
      assert ChainedAt(key, ps, |ps| - 1);
    }
  }

  lemma ChainedPrefix(key: Key, ps: seq<Parsed>, n: nat)
    requires Chained(key, ps) && n <= |ps|
    ensures Chained(key, ps[..n])
  {
    forall i | 0 <= i < n ensures ChainedAt(key, ps[..n], i) {
      assert ChainedAt(key, ps, i) && ps[..n][..i] == ps[..i];
    }
  }

  // One more line that is torn or chains from the current head.
  lemma Extend(key: Key, ps: seq<Parsed>, p: Parsed)
    requires Chained(key, ps)
    requires p.Unparsable? || (p.Row? && p.h == Some(ChainHashWith(key, HeadAfter(key, ps), p.payload)))
    ensures Chained(key, ps + [p])
    ensures HeadAfter(key, ps + [p]) == Advance(key, HeadAfter(key, ps), p)
    ensures Payloads(ps + [p]) == Payloads(ps) + if p.Row? then [p.payload] else []
  {
    var qs := ps + [p];
    assert qs[..|ps|] == ps;
    forall i | 0 <= i < |qs| ensures ChainedAt(key, qs, i) {
      assert i < |ps| ==> ChainedAt(key, ps, i) && qs[..i] == ps[..i];
    }
  }

  lemma WitnessStays(key: Key, ps: seq<Parsed>, more: seq<Parsed>, a: Anchor)
    requires Witnesses(key, ps, a)
    ensures Witnesses(key, ps + more, a)
  {
    assert (ps + more)[..a.count] == ps[..a.count];
  }

  // The lines once k characters of a row from the current head have landed.
  lemma LandedChains(c: Codec, key: Key, log: Log, ready: Phase, k: nat)
    requires GoodLog(c, key, log) && ready.Ready?
    requires ready.h == ChainHashWith(key, HeadAfter(key, ParsedLines(c, log.file)), ready.payload)
    ensures var ps := ParsedLines(c, log.file);
            var more := Landed(c, log.file, ready.payload, ready.h, k);
            && Chained(key, ps + more)
            && Payloads(ps + more) == log.rows + (if more != [] && more[0].Row? then [ready.payload] else [])
            && (log.anchor.Some? ==> Witnesses(key, ps + more, log.anchor.value))
            && (more != [] ==> HeadAfter(key, ps + more) == Advance(key, HeadAfter(key, ps), more[0]))
  {
    var ps, more := ParsedLines(c, log.file), Landed(c, log.file, ready.payload, ready.h, k);
    if log.anchor.Some? {
      WitnessStays(key, ps, more, log.anchor.value);
    }
    NothingBehind(log.rows);
    if more == [] {
      NothingBehind(ps);
    } else {
      Extend(key, ps, more[0]);
    }
  }

  // What a write on a lead that fits the file does to the log.
  lemma LandLines(c: Codec, key: Key, log: Log, proc: Proc, k: nat)
    requires Faithful(c) && EndsIn(c, log.file, log.tail) && CanLand(c, proc, k) && proc.phase.lead == Lead(log.file)
    ensures var after := Land(c, key, log, proc, k);
            && EndsIn(c, after.file, after.tail)
            && ParsedLines(c, after.file)
               == ParsedLines(c, log.file) + Landed(c, log.file, proc.phase.payload, proc.phase.h, k)
  {
    WriteLands(c, log.file, log.tail, proc.phase.lead, proc.phase.payload, proc.phase.h, k);
    TornAppend(c, log.file, log.tail, proc.phase.payload, proc.phase.h, k);
  }

  lemma LandRows(c: Codec, key: Key, log: Log, proc: Proc, k: nat)
    requires Faithful(c) && CanLand(c, proc, k) && proc.phase.lead == Lead(log.file)
    ensures var after := Land(c, key, log, proc, k);
            var row := Row(proc.phase.payload, Some(proc.phase.h));
            var more := Landed(c, log.file, proc.phase.payload, proc.phase.h, k);
            && after.anchor == log.anchor
            && after.rows == log.rows + (if more != [] && more[0].Row? then [proc.phase.payload] else [])
            && (more != [] ==> more == [row] || more == [Unparsable])
            && (k == Whole(c, proc.phase) ==> more == [row])
  {
    assert RowIsLine(c, proc.phase.payload, proc.phase.h);
  }

  lemma LandKeeps(c: Codec, key: Key, log: Log, proc: Proc, k: nat)
    requires Faithful(c) && GoodLog(c, key, log) && GoodProc(c, key, log.file, proc) && CanLand(c, proc, k)
    ensures var after := Land(c, key, log, proc, k);
            var ps, qs := ParsedLines(c, log.file), ParsedLines(c, after.file);
            && GoodLog(c, key, after)
            && qs == ps + Landed(c, log.file, proc.phase.payload, proc.phase.h, k)
            && (k == Whole(c, proc.phase) ==> LastIsRow(qs) && HeadAfter(key, qs) == proc.phase.h && |qs| == |ps| + 1)
  {
    LandLines(c, key, log, proc, k);
    LandRows(c, key, log, proc, k);
    LandedChains(c, key, log, proc.phase, k);
    LastLanded(ParsedLines(c, log.file), Landed(c, log.file, proc.phase.payload, proc.phase.h, k));
  }

  lemma LastLanded(ps: seq<Parsed>, more: seq<Parsed>)
    requires |more| <= 1
    ensures |more| == 1 && more[0].Row? ==> LastIsRow(ps + more) && |ps + more| == |ps| + 1
  {
  }

  // A process that is not inside keeps its part of the invariant: either nothing
  // landed or its cache no longer matches the size.
  lemma BystanderKeeps(c: Codec, key: Key, file: string, after: string, proc: Proc)
    requires GoodProc(c, key, file, proc) && !Inside(proc)
    requires |after| > |file| || after == file
    ensures GoodProc(c, key, after, proc)
  {
  }

  // Nothing lands only when nothing is to land.
  lemma Grows(c: Codec, key: Key, log: Log, proc: Proc, k: nat)
    requires CanLand(c, proc, k)
    ensures var after := Land(c, key, log, proc, k).file;
            |after| == |log.file| + k && (k == 0 ==> after == log.file)
  {
  }

  lemma LogKeeps(c: Codec, key: Key, s: Sys, proc: Proc, step: Step)
    requires Faithful(c) && GoodLog(c, key, s.log) && GoodProc(c, key, s.log.file, proc) && Can(c, s, proc, step)
    ensures var after := LogAfter(c, key, s.log, proc, step);
            && GoodLog(c, key, after)
            && (after.file == s.log.file || (|after.file| > |s.log.file| && Inside(proc)))
  {
    LandsIsLand(c, key, s, proc, step);
    if Lands(proc, step) {
      LandKeeps(c, key, s.log, proc, Landing(c, proc, step));
      Grows(c, key, s.log, proc, Landing(c, proc, step));
    } else if step.WriteAnchor? {
      AnchorKeeps(c, key, s.log, proc, step);
    }
  }

  lemma AnchorKeeps(c: Codec, key: Key, log: Log, proc: Proc, step: Step)
    requires GoodLog(c, key, log) && GoodProc(c, key, log.file, proc) && proc.phase == Sized && step.WriteAnchor?
    ensures GoodLog(c, key, LogAfter(c, key, log, proc, step)) && LogAfter(c, key, log, proc, step).file == log.file
  {
    var ps := ParsedLines(c, log.file);
    assert ps[..|ps|] == ps;
  }

  // The process that appended knows the file it left.
  lemma WriterKnows(c: Codec, key: Key, s: Sys, proc: Proc, step: Step)
    requires Faithful(c) && GoodLog(c, key, s.log) && GoodProc(c, key, s.log.file, proc) && Can(c, s, proc, step)
    requires step.Write? || step.FailWrite?
    ensures GoodProc(c, key, LogAfter(c, key, s.log, proc, step).file, ProcAfter(c, key, s, proc, step))
  {
    LandsIsLand(c, key, s, proc, step);
    LandKeeps(c, key, s.log, proc, Landing(c, proc, step));
    Grows(c, key, s.log, proc, Landing(c, proc, step));
  }

  lemma StepperKnows(c: Codec, key: Key, s: Sys, proc: Proc, step: Step)
    requires GoodLog(c, key, s.log) && GoodProc(c, key, s.log.file, proc) && Can(c, s, proc, step)
    requires !step.Write? && !step.FailWrite? && !step.Crash?
    ensures GoodProc(c, key, s.log.file, ProcAfter(c, key, s, proc, step))
  {
    ChainedLoads(key, ParsedLines(c, s.log.file));
  }

  lemma StepKeepsProcs(c: Codec, key: Key, s: Sys, step: Step, q: nat)
    requires Faithful(c) && Inv(c, key, s) && Enabled(c, s, step) && !step.Tick? && !step.Spawn?
    requires q in Apply(c, key, s, step).procs
    ensures GoodProc(c, key, Apply(c, key, s, step).log.file, Apply(c, key, s, step).procs[q])
  {
    var t, proc := Apply(c, key, s, step), s.procs[step.p];
    LogKeeps(c, key, s, proc, step);
    if q != step.p {
      assert t.procs[q] == s.procs[q];
      if t.log.file != s.log.file {
        GuardedStays(s, step.p, q);
        BystanderKeeps(c, key, s.log.file, t.log.file, s.procs[q]);
      }
    } else if step.Write? || step.FailWrite? {
      WriterKnows(c, key, s, proc, step);
    } else {
      StepperKnows(c, key, s, proc, step);
    }
  }

  lemma GuardedStays(s: Sys, p: nat, q: nat)
    requires Guarded(s) && p in s.procs && q in s.procs && p != q && Inside(s.procs[p])
    ensures !Inside(s.procs[q])
  {
  }

  // Every step that does not intrude keeps the invariant.
  lemma StepKeepsInv(c: Codec, key: Key, s: Sys, step: Step)
    requires Faithful(c) && Inv(c, key, s) && Enabled(c, s, step) && Guarded(Apply(c, key, s, step))
    ensures Inv(c, key, Apply(c, key, s, step))
  {
    var t := Apply(c, key, s, step);
    if !step.Tick? && !step.Spawn? {
      LogKeeps(c, key, s, s.procs[step.p], step);
      forall q | q in t.procs ensures GoodProc(c, key, t.log.file, t.procs[q]) {
        StepKeepsProcs(c, key, s, step, q);
      }
    }
  }

  lemma InitIsGood(c: Codec, key: Key, now: int)
    ensures Inv(c, key, Init(now))
  {
    LinesPlain("");
  }

  lemma {:induction false} RunKeepsInv(c: Codec, key: Key, s: Sys, steps: seq<Step>)
    requires Faithful(c) && Inv(c, key, s) && Legal(c, key, s, steps) && Throughout(c, key, s, steps, KeepsGuard)
    ensures Inv(c, key, Run(c, key, s, steps))
    decreases |steps|
  {
    if steps != [] {
      GuardedStepIff(c, key, s, steps[0]);
      StepKeepsInv(c, key, s, steps[0]);
      RunKeepsInv(c, key, Apply(c, key, s, steps[0]), steps[1..]);
    }
  }

  // --- the verdict ------------------------------------------------------------

  // A chained file: the broken lines are the torn ones, and nothing else is wrong
  // with a file its anchor witnesses.
  lemma ChainedVerdict(key: Key, ps: seq<Parsed>, anchor: Option<Anchor>)
    requires Chained(key, ps)
    requires anchor.Some? ==> Witnesses(key, ps, anchor.value)
    ensures Null !in ps
    ensures forall i :: i in BrokenAt(key, ps) <==> 0 <= i < |ps| && ps[i].Unparsable?
    ensures !Truncated(key, ps, anchor) && !RolledBack(key, ps, anchor)
    ensures AnchorOk(key, anchor, |ps|) == Some(false) <==> anchor == None && ps != []
    ensures Intact(key, ps, anchor) <==> Unparsables(ps) == 0 && (anchor.Some? || ps == [])
    ensures |BrokenAt(key, ps)| == Unparsables(ps)
  {
    BrokenAtMembers(key, ps);
    forall i | 0 <= i < |ps| ensures Breaks(key, ps, i) == ps[i].Unparsable? && ps[i] != Null {
      assert ChainedAt(key, ps, i);
    }
    BrokenCount(key, ps);
  }

  lemma {:induction false} BrokenCount(key: Key, ps: seq<Parsed>)
    requires Chained(key, ps)
    ensures |BrokenAt(key, ps)| == Unparsables(ps)
  {
    if ps != [] {
      var n := |ps| - 1;
      ChainedPrefix(key, ps, n);
      BrokenCount(key, ps[..n]);
      assert ChainedAt(key, ps, n);
    }
  }

  // The safety theorem. In every state of every run without an intrusion,
  // verifyAudit reports the torn lines and nothing else, never a truncation or a
  // rollback, and the file holds exactly the events whose text landed, in order.
  // It is called intact unless a line is torn or the first anchor is still to come.
  lemma HonestLogVerifies(c: Codec, key: Key, now: int, steps: seq<Step>)
    requires Faithful(c) && Legal(c, key, Init(now), steps) && Throughout(c, key, Init(now), steps, KeepsGuard)
    ensures var s := Run(c, key, Init(now), steps);
            var ps := ParsedLines(c, s.log.file);
            && Null !in ps
            && (forall i :: i in BrokenAt(key, ps) <==> 0 <= i < |ps| && ps[i].Unparsable?)
            && |BrokenAt(key, ps)| == Unparsables(ps)
            && !Truncated(key, ps, s.log.anchor) && !RolledBack(key, ps, s.log.anchor)
            && (Intact(key, ps, s.log.anchor) <==> Unparsables(ps) == 0 && (s.log.anchor.Some? || ps == []))
            && Payloads(ps) == s.log.rows
  {
    InitIsGood(c, key, now);
    RunKeepsInv(c, key, Init(now), steps);
    var s := Run(c, key, Init(now), steps);
    ChainedVerdict(key, ParsedLines(c, s.log.file), s.log.anchor);
  }

  // --- append only ------------------------------------------------------------

  // One step: earlier lines stay, the anchor never moves back, and only a write
  // cut short can tear a line.
  lemma StepAppends(c: Codec, key: Key, s: Sys, step: Step)
    requires Faithful(c) && Inv(c, key, s) && Enabled(c, s, step)
    ensures var t := Apply(c, key, s, step).log;
            && ParsedLines(c, s.log.file) <= ParsedLines(c, t.file)
            && s.log.rows <= t.rows
            && Unparsables(ParsedLines(c, t.file))
               <= Unparsables(ParsedLines(c, s.log.file)) + (if Forks.MayTear(step) then 1 else 0)
            && (s.log.anchor.Some? ==> t.anchor.Some? && s.log.anchor.value.count <= t.anchor.value.count)
  {
    if !step.Tick? && !step.Spawn? {
      LogAppends(c, key, s, s.procs[step.p], step);
    }
  }

  lemma LogAppends(c: Codec, key: Key, s: Sys, proc: Proc, step: Step)
    requires Faithful(c) && GoodLog(c, key, s.log) && GoodProc(c, key, s.log.file, proc) && Can(c, s, proc, step)
    ensures var t := LogAfter(c, key, s.log, proc, step);
            && ParsedLines(c, s.log.file) <= ParsedLines(c, t.file)
            && s.log.rows <= t.rows
            && Unparsables(ParsedLines(c, t.file))
               <= Unparsables(ParsedLines(c, s.log.file)) + (if Forks.MayTear(step) then 1 else 0)
            && (s.log.anchor.Some? ==> t.anchor.Some? && s.log.anchor.value.count <= t.anchor.value.count)
  {
    LandsIsLand(c, key, s, proc, step);
    if Lands(proc, step) {
      LandAppends(c, key, s.log, proc, Landing(c, proc, step));
    }
  }

  lemma LandAppends(c: Codec, key: Key, log: Log, proc: Proc, k: nat)
    requires Faithful(c) && GoodLog(c, key, log) && GoodProc(c, key, log.file, proc) && CanLand(c, proc, k)
    ensures var after := Land(c, key, log, proc, k);
            && ParsedLines(c, log.file) <= ParsedLines(c, after.file)
            && log.rows <= after.rows && after.anchor == log.anchor
            && Unparsables(ParsedLines(c, after.file))
               <= Unparsables(ParsedLines(c, log.file)) + (if 0 < k < Whole(c, proc.phase) then 1 else 0)
  {
    var ps, more := ParsedLines(c, log.file), Landed(c, log.file, proc.phase.payload, proc.phase.h, k);
    LandLines(c, key, log, proc, k);
    LandRows(c, key, log, proc, k);
    if more == [] {
      NothingBehind(ps);
    } else {
      assert (ps + more)[..|ps|] == ps;
    }
  }

  // Over a whole run: append-only, and at most one torn line for each write cut short.
  lemma {:induction false} RunAppends(c: Codec, key: Key, s: Sys, steps: seq<Step>)
    requires Faithful(c) && Inv(c, key, s) && Legal(c, key, s, steps) && Throughout(c, key, s, steps, KeepsGuard)
    ensures var t := Run(c, key, s, steps).log;
            && ParsedLines(c, s.log.file) <= ParsedLines(c, t.file)
            && s.log.rows <= t.rows
            && Unparsables(ParsedLines(c, t.file)) <= Unparsables(ParsedLines(c, s.log.file)) + Forks.Tears(steps)
            && (s.log.anchor.Some? ==> t.anchor.Some? && s.log.anchor.value.count <= t.anchor.value.count)
    decreases |steps|
  {
    if steps != [] {
      var mid := Apply(c, key, s, steps[0]);
      StepAppends(c, key, s, steps[0]);
      GuardedStepIff(c, key, s, steps[0]);
      StepKeepsInv(c, key, s, steps[0]);
      RunAppends(c, key, mid, steps[1..]);
    }
  }

  // --- deletion and rollback --------------------------------------------------

  // Cutting an honest file back to its first n lines while keeping the anchor is
  // reported as a truncation exactly when the cut reaches into the anchored part;
  // otherwise the torn lines that are left are all there is to report.
  lemma CutReportedIffAnchored(c: Codec, key: Key, s: Sys, n: nat)
    requires Inv(c, key, s) && s.log.anchor.Some? && n <= |ParsedLines(c, s.log.file)|
    ensures var cut := ParsedLines(c, s.log.file)[..n];
            && (Truncated(key, cut, s.log.anchor) <==> n < s.log.anchor.value.count)
            && !RolledBack(key, cut, s.log.anchor)
            && (Intact(key, cut, s.log.anchor) <==> s.log.anchor.value.count <= n && Unparsables(cut) == 0)
  {
    var ps, a := ParsedLines(c, s.log.file), s.log.anchor.value;
    ChainedPrefix(key, ps, n);
    if a.count <= n {
      assert ps[..n][..a.count] == ps[..a.count];
      ChainedVerdict(key, ps[..n], s.log.anchor);
    }
  }

  // The stated limit: putting back an older file together with the anchor of its
  // time is accepted unless a line of it is torn; putting back the file alone is
  // accepted only if, moreover, the anchor of today already fits it, and is
  // otherwise reported as a truncation.
  lemma OldCopies(c: Codec, key: Key, s: Sys, steps: seq<Step>)
    requires Faithful(c) && Inv(c, key, s) && Legal(c, key, s, steps) && Throughout(c, key, s, steps, KeepsGuard)
    requires s.log.anchor.Some?
    ensures var t := Run(c, key, s, steps).log;
            var earlier := ParsedLines(c, s.log.file);
            && (Intact(key, earlier, s.log.anchor) <==> Unparsables(earlier) == 0)
            && t.anchor.Some?
            && (Intact(key, earlier, t.anchor) <==> Unparsables(earlier) == 0 && t.anchor.value.count <= |earlier|)
            && (Truncated(key, earlier, t.anchor) <==> |earlier| < t.anchor.value.count)
  {
    RunAppends(c, key, s, steps);
    RunKeepsInv(c, key, s, steps);
    OldCopyVerdict(c, key, s, Run(c, key, s, steps));
  }

  lemma OldCopyVerdict(c: Codec, key: Key, s: Sys, t: Sys)
    requires Inv(c, key, s) && Inv(c, key, t) && s.log.anchor.Some? && t.log.anchor.Some?
    requires ParsedLines(c, s.log.file) <= ParsedLines(c, t.log.file)
    ensures var earlier := ParsedLines(c, s.log.file);
            && (Intact(key, earlier, s.log.anchor) <==> Unparsables(earlier) == 0)
            && (Intact(key, earlier, t.log.anchor)
                <==> Unparsables(earlier) == 0 && t.log.anchor.value.count <= |earlier|)
            && (Truncated(key, earlier, t.log.anchor) <==> |earlier| < t.log.anchor.value.count)
  {
    var earlier := ParsedLines(c, s.log.file);
    assert ParsedLines(c, t.log.file)[..|earlier|] == earlier;
    ChainedVerdict(key, earlier, s.log.anchor);
    CutReportedIffAnchored(c, key, t, |earlier|);
  }

  // --- forgery ----------------------------------------------------------------

  // The head's depth counts the rows of an honest file.
  lemma {:induction false} ChainedDepth(key: Key, ps: seq<Parsed>)
    requires Chained(key, ps)
    ensures Depth(HeadAfter(key, ps)) + Unparsables(ps) == |ps|
  {
    if ps != [] {
      ChainedPrefix(key, ps, |ps| - 1);
      ChainedDepth(key, ps[..|ps| - 1]);
      assert ChainedAt(key, ps, |ps| - 1);
    }
  }

  // A file without breaks has as many rows as lines.
  lemma {:induction false} UnbrokenDepth(key: Key, qs: seq<Parsed>)
    requires BrokenAt(key, qs) == []
    ensures Depth(HeadAfter(key, qs)) == |qs|
  {
    if qs != [] {
      UnbrokenDepth(key, qs[..|qs| - 1]);
    }
  }

  lemma {:induction false} UnbrokenPrefix(key: Key, qs: seq<Parsed>, n: nat)
    requires BrokenAt(key, qs) == [] && n <= |qs|
    ensures BrokenAt(key, qs[..n]) == []
  {
    if n < |qs| {
      UnbrokenPrefix(key, qs[..|qs| - 1], n);
      assert qs[..|qs| - 1][..n] == qs[..n];
    } else {
      assert qs[..n] == qs;
    }
  }

  // Any file that verifies against the anchor of an honest run holds that run's
  // lines in its anchored part: every edit, insertion, deletion or reordering
  // there is reported. No file at all fits an anchor that covers a torn line.
  lemma AnchoredPartIsHonest(c: Codec, key: Key, s: Sys, forged: seq<Parsed>)
    requires Inv(c, key, s) && s.log.anchor.Some? && Intact(key, forged, s.log.anchor)
    ensures var count := s.log.anchor.value.count;
            && count <= |forged|
            && forged[..count] == ParsedLines(c, s.log.file)[..count]
            && Unparsables(ParsedLines(c, s.log.file)[..count]) == 0
  {
    WitnessedPartIsHonest(key, ParsedLines(c, s.log.file), s.log.anchor.value, forged);
  }

  lemma WitnessedPartIsHonest(key: Key, ps: seq<Parsed>, a: Anchor, forged: seq<Parsed>)
    requires Chained(key, ps) && Witnesses(key, ps, a) && Intact(key, forged, Some(a))
    ensures a.count <= |forged| && forged[..a.count] == ps[..a.count] && Unparsables(ps[..a.count]) == 0
  {
    var n := a.count;
    var qs, fs := ps[..n], forged[..n];
    ChainedPrefix(key, ps, n);
    ChainedDepth(key, qs);
    UnbrokenPrefix(key, forged, n);
    UnbrokenDepth(key, fs);
    Tamper.UnbrokenRow(key, forged, n - 1);
    BrokenCount(key, qs);
    assert BrokenAt(key, qs) == [];
    assert qs[..n] == qs && fs[..n] == fs;
    Tamper.SameHeadSameRows(key, fs, qs, n);
  }

  // So some file verifies against the anchor if and only if no line it covers is
  // torn; the anchored part itself then does.
  lemma SomeFileFitsIff(c: Codec, key: Key, s: Sys)
    requires Inv(c, key, s) && s.log.anchor.Some?
    ensures var covered := ParsedLines(c, s.log.file)[..s.log.anchor.value.count];
            && ((exists fs :: Intact(key, fs, s.log.anchor)) <==> Unparsables(covered) == 0)
            && (Intact(key, covered, s.log.anchor) <==> Unparsables(covered) == 0)
  {
    CutReportedIffAnchored(c, key, s, s.log.anchor.value.count);
    if fs :| Intact(key, fs, s.log.anchor) {
      AnchoredPartIsHonest(c, key, s, fs);
    }
  }

  // --- appendEvent is its steps -----------------------------------------------

  // Process p has the row ready that appendEvent makes, and the cache it works from.
  predicate Prepared(c: Codec, key: Key, s: Sys, p: nat, payload: string, cache: Cache, t: Sys) {
    var h := ChainHashWith(key, cache.head, payload);
    && p in t.procs && t.log == s.log && t.gone == s.gone
    && t.procs[p].cache == Some(cache)
    && t.procs[p].phase == Ready(payload, cache.head, h, Lead(s.log.file))
  }

  // Nothing but process p itself has moved on.
  ghost predicate OnlyMoves(s: Sys, p: nat, t: Sys) {
    && t.log == s.log && t.lock == s.lock && t.now == s.now && t.gone == s.gone && t.procs.Keys == s.procs.Keys
    && forall q :: q in s.procs && q != p ==> t.procs[q] == s.procs[q]
  }

  predicate IsLocal(step: Step) {
    step.CheckSize? || step.ReadLines? || step.Measure? || step.Prepare?
  }

  // A look at the file, as the last of some quiet steps.
  lemma ThenLocal(c: Codec, key: Key, s: Sys, steps: seq<Step>, t: Sys, step: Step)
    returns (more: seq<Step>, u: Sys)
    requires Leads(c, key, s, steps, t, Quiet) && Enabled(c, t, step) && IsLocal(step) && OnlyMoves(s, step.p, t)
    ensures Leads(c, key, s, more, u, Quiet) && OnlyMoves(s, step.p, u) && step.p in u.procs
    ensures u.procs[step.p] == ProcAfter(c, key, t, t.procs[step.p], step)
  {
    more := ThenPlain(c, key, s, steps, t, step);
    u := Apply(c, key, t, step);
  }

  // The head is loaded, from the cache or from the file.
  lemma Loads(c: Codec, key: Key, s: Sys, p: nat) returns (steps: seq<Step>, t: Sys)
    requires p in s.procs && s.procs[p].phase == Entered
    ensures Leads(c, key, s, steps, t, Quiet) && OnlyMoves(s, p, t)
    ensures p in t.procs && t.procs[p].phase == Loaded
    ensures t.procs[p].cache == Some(Refresh(c, s.log.file, s.procs[p].cache))
  {
    steps, t := ThenLocal(c, key, s, [], s, CheckSize(p));
    if t.procs[p].phase == Unread {
      steps, t := ThenLocal(c, key, s, steps, t, ReadLines(p));
      steps, t := ThenLocal(c, key, s, steps, t, Measure(p));
    }
  }

  lemma Prepares(c: Codec, key: Key, s: Sys, p: nat, payload: string) returns (steps: seq<Step>, t: Sys)
    requires p in s.procs && s.procs[p].phase == Entered
    ensures Leads(c, key, s, steps, t, Quiet) && OnlyMoves(s, p, t)
    ensures Prepared(c, key, s, p, payload, Refresh(c, s.log.file, s.procs[p].cache), t)
  {
    steps, t := Loads(c, key, s, p);
    steps, t := ThenLocal(c, key, s, steps, t, Prepare(p, payload));
  }

  // The steps of the protocol, taken with no other process in between, do to the
  // file, the anchor and the cache what appendEvent does.
  lemma AppendEventIsItsSteps(c: Codec, key: Key, s: Sys, p: nat, payload: string, anchorWritten: bool)
    returns (steps: seq<Step>, t: Sys)
    requires p in s.procs && s.procs[p].phase == Entered
    ensures Leads(c, key, s, steps, t, Quiet) && p in t.procs && t.procs[p].phase == Done
    ensures var cache := Refresh(c, s.log.file, s.procs[p].cache);
            var h := ChainHashWith(key, cache.head, payload);
            && t.log.file == s.log.file + RowBytes(c, s.log.file, payload, h)
            && t.procs[p].cache == Some(Cache(h, cache.count + 1, |t.log.file|))
            && t.log.anchor == (if anchorWritten then Some(MakeAnchor(key, cache.count + 1, h)) else s.log.anchor)
  {
    var ready: Sys;
    steps, ready := Prepares(c, key, s, p, payload);
    var bytes := RowBytes(c, s.log.file, payload, ready.procs[p].phase.h);
    assert bytes[..|bytes|] == bytes;
    steps := ThenPlain(c, key, s, steps, ready, Write(p));
    var wrote := Apply(c, key, ready, Write(p));
    steps := ThenPlain(c, key, s, steps, wrote, MeasureAgain(p));
    var sized := Apply(c, key, wrote, MeasureAgain(p));
    steps := ThenPlain(c, key, s, steps, sized, WriteAnchor(p, anchorWritten));
    t := Apply(c, key, sized, WriteAnchor(p, anchorWritten));
  }

  // And when the write fails with k characters landed.
  lemma FailedAppendIsItsSteps(c: Codec, key: Key, s: Sys, p: nat, payload: string, k: nat)
    returns (steps: seq<Step>, t: Sys)
    requires p in s.procs && s.procs[p].phase == Entered
    requires var cache := Refresh(c, s.log.file, s.procs[p].cache);
             k <= |RowBytes(c, s.log.file, payload, ChainHashWith(key, cache.head, payload))|
    ensures Leads(c, key, s, steps, t, Quiet) && p in t.procs && t.procs[p].phase == Done
    ensures var cache := Refresh(c, s.log.file, s.procs[p].cache);
            && t.log.file == s.log.file + RowBytes(c, s.log.file, payload, ChainHashWith(key, cache.head, payload))[..k]
            && t.procs[p].cache == Some(cache) && t.log.anchor == s.log.anchor
  {
    var ready: Sys;
    steps, ready := Prepares(c, key, s, p, payload);
    steps := ThenPlain(c, key, s, steps, ready, FailWrite(p, k));
    t := Apply(c, key, ready, FailWrite(p, k));
  }

  // One row is written on an empty log.
  lemma FirstRow(c: Codec, payload: string, h: Head)
    requires Faithful(c)
    ensures ParsedLines(c, "" + RowBytes(c, "", payload, h)) == [Row(payload, Some(h))]
    ensures Unparsables([Row(payload, Some(h))]) == 0
  {
    var bytes := RowBytes(c, "", payload, h);
    assert RowIsLine(c, payload, h);
    LinesPlain("");
    TornAppend(c, "", [], payload, h, |bytes|);
    assert bytes[..|bytes|] == bytes;
    NothingInFront(Landed(c, "", payload, h, |bytes|));
  }

  // The window the verdict leaves open: a crash after the very first row and
  // before any anchor is reported as not intact, with no line torn.
  lemma FirstRowUnanchored(c: Codec, key: Key, payload: string) returns (steps: seq<Step>, t: Sys)
    requires Faithful(c)
    ensures Leads(c, key, Init(0), steps, t, Quiet) && t.gone == {0} && t.log.rows == [payload]
    ensures Unparsables(ParsedLines(c, t.log.file)) == 0 && !Intact(key, ParsedLines(c, t.log.file), t.log.anchor)
  {
    var ready: Sys;
    steps, ready := FirstReady(c, key, payload);
    var bytes := RowBytes(c, "", payload, ready.procs[0].phase.h);
    assert bytes[..|bytes|] == bytes;
    FirstRow(c, payload, ready.procs[0].phase.h);
    assert RowIsLine(c, payload, ready.procs[0].phase.h);
    NothingInFront([payload]);
    steps := ThenPlain(c, key, Init(0), steps, ready, Write(0));
    var wrote := Apply(c, key, ready, Write(0));
    steps := ThenPlain(c, key, Init(0), steps, wrote, Crash(0, 0));
    t := Apply(c, key, wrote, Crash(0, 0));
  }

  lemma FirstReady(c: Codec, key: Key, payload: string) returns (steps: seq<Step>, t: Sys)
    ensures Leads(c, key, Init(0), steps, t, Quiet)
    ensures exists cache :: Prepared(c, key, Init(0), 0, payload, cache, t)
  {
    var s := Init(0);
    steps := Comes(c, key, s, 0);
    steps := ThenPlain(c, key, s, steps, Came(s, 0), Create(0));
    var inside := Apply(c, key, Came(s, 0), Create(0));
    var more: seq<Step>;
    more, t := Prepares(c, key, inside, 0, payload);
    Joined(c, key, s, steps, inside, more, t, Quiet);
    steps := steps + more;
    var cache := Refresh(c, "", None);
    assert Prepared(c, key, s, 0, payload, cache, t);
  }
}
