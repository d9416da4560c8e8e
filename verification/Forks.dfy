// Every run of the append protocol, with the lock or without it: what
// verifyAudit reports of the file.

module Forks {
  import opened Text
  import opened Chain
  import opened AuditLog
  import opened LockTurns
  import opened Protocol

  // --- broken lines = torn lines + rows from a stale head ---------------------

  // A row as appendEvent writes it: its hash is of its own payload.
  predicate OwnHash(p: Parsed) {
    p.Row? && p.h.Some? && p.h.value.Digest? && p.h.value.payload == p.payload && p.h.value.caps == 0
  }

  predicate ExplainedAt(key: Key, ps: seq<Parsed>, stale: set<nat>, i: nat)
    requires i < |ps|
  {
    ps[i].Unparsable? || (OwnHash(ps[i]) && (i in stale <==> Breaks(key, ps, i)))
  }

  ghost predicate Explained(key: Key, ps: seq<Parsed>, stale: set<nat>) {
    && (forall i :: 0 <= i < |ps| ==> ExplainedAt(key, ps, stale, i))
    && (forall i :: i in stale ==> i < |ps|)
  }

  // What a process has ready is the row its head and payload make.
  predicate ReadyOk(key: Key, proc: Proc) {
    proc.phase.Ready? ==>
      && proc.phase.h == ChainHashWith(key, proc.phase.from, proc.phase.payload)
      && (proc.phase.lead == "" || proc.phase.lead == "\n")
  }

  ghost predicate LogOk(c: Codec, key: Key, log: Log) {
    EndsIn(c, log.file, log.tail) && Explained(key, ParsedLines(c, log.file), log.stale)
  }

  ghost predicate ProcsOk(key: Key, procs: map<nat, Proc>) {
    forall p :: p in procs ==> ReadyOk(key, procs[p])
  }

  lemma InitOk(c: Codec, key: Key, now: int)
    ensures LogOk(c, key, Init(now).log) && ProcsOk(key, Init(now).procs) && ParsedLines(c, "") == []
  {
    LinesPlain("");
  }

  // A line after the first m is explained by itself and the lines before it.
  lemma ExplainedPut(key: Key, ps: seq<Parsed>, m: nat, p: Parsed, stale: set<nat>, more: set<nat>)
    requires Explained(key, ps, stale) && |ps| <= m + 1 <= |ps| + 1
    requires forall i :: i in more ==> i == m
    requires p.Unparsable? || (m == |ps| && OwnHash(p) && (m in more <==> Breaks(key, ps + [p], m)))
    ensures Explained(key, ps[..m] + [p], stale + more)
  {
    var qs := ps[..m] + [p];
    assert m == |ps| ==> qs == ps + [p];
    forall i | 0 <= i < |qs| ensures ExplainedAt(key, qs, stale + more, i) {
      if i < m {
        assert ExplainedAt(key, ps, stale, i) && qs[..i] == ps[..i];
      }
    }
  }

  // The explanation of the lines once a write has landed.
  lemma LandedExplained(
    c: Codec, key: Key, log: Log, ready: Phase, k: nat)
    requires ready.Ready? && ready.h == ChainHashWith(key, ready.from, ready.payload)
    requires var ps := ParsedLines(c, log.file);
             Explained(key, ps, log.stale) && (log.tail != [] ==> ps != [])
    ensures var ps := ParsedLines(c, log.file);
            Explained(key, LandedLines(c, ps, log.tail, ready.lead, ready.payload, ready.h, k),
                      log.stale + Marked(c, log, ready, k, ready.from != HeadAfter(key, ps)))
  {
    var ps := ParsedLines(c, log.file);
    var more := Marked(c, log, ready, k, ready.from != HeadAfter(key, ps));
    var j := Reached(c, ready.lead, ready.payload, ready.h, k);
    if j == 0 {
      assert more == {} && log.stale + more == log.stale;
    } else if Onto(log.tail, ready.lead, k) == [] {
      AppendBreaks(key, ps, ready.from, ready.payload);
      assert ps[..|ps|] == ps;
      ExplainedPut(key, ps, |ps|, LineOf(c, [Start(ready.payload, ready.h, j)]), log.stale, more);
    } else {
      ExplainedPut(key, ps, |ps| - 1, Unparsable, log.stale, more);
    }
  }

  // Whatever lands, and wherever the file ends by then.
  lemma LandKeepsOk(c: Codec, key: Key, log: Log, proc: Proc, k: nat)
    requires Faithful(c) && LogOk(c, key, log) && ReadyOk(key, proc) && CanLand(c, proc, k)
    ensures LogOk(c, key, Land(c, key, log, proc, k))
  {
    var ready := proc.phase;
    WriteLands(c, log.file, log.tail, ready.lead, ready.payload, ready.h, k);
    LandedExplained(c, key, log, ready, k);
  }

  // --- finished lines stay, and what tears them -------------------------------

  // The lines that are finished with a newline.
  function Finished(ps: seq<Parsed>, tail: seq<Start>): seq<Parsed> {
    if tail == [] || ps == [] then ps else ps[..|ps| - 1]
  }

  // The torn lines, and the unfinished line if it is a whole row for now.
  function Torn(c: Codec, ps: seq<Parsed>, tail: seq<Start>): nat {
    Unparsables(ps) + if tail != [] && LineOf(c, tail).Row? then 1 else 0
  }

  // The last line is what the tail makes.
  predicate EndsLike(c: Codec, ps: seq<Parsed>, tail: seq<Start>) {
    tail != [] ==> ps != [] && ps[|ps| - 1] == LineOf(c, tail)
  }

  lemma UnfinishedLine(c: Codec, log: Log)
    requires Faithful(c) && EndsIn(c, log.file, log.tail)
    ensures EndsLike(c, ParsedLines(c, log.file), log.tail)
  {
    LinesOf(c, log.file, log.tail);
    if log.tail != [] {
      GlueIsLine(c, log.tail);
    }
  }

  // A row's text on a line of its own, cut or whole, finished or not.
  lemma OwnLineKeeps(c: Codec, ps: seq<Parsed>, tail: seq<Start>, x: Start, more: seq<Start>)
    requires more == [] || more == [x]
    ensures var qs := ps + [LineOf(c, [x])];
            && Finished(ps, tail) <= Finished(qs, more)
            && Torn(c, qs, more) <= Unparsables(ps) + if LineOf(c, [x]).Row? && more == [] then 0 else 1
  {
    assert (ps + [LineOf(c, [x])])[..|ps|] == ps;
  }

  // A row's text on the unfinished line.
  lemma GlueKeeps(c: Codec, ps: seq<Parsed>, tail: seq<Start>, more: seq<Start>)
    requires tail != [] && EndsLike(c, ps, tail) && (more == [] || |more| > 1)
    ensures var qs := ps[..|ps| - 1] + [Unparsable];
            Finished(ps, tail) <= Finished(qs, more) && Torn(c, qs, more) <= Torn(c, ps, tail)
  {
    assert (ps[..|ps| - 1] + [Unparsable])[..|ps| - 1] == ps[..|ps| - 1];
  }

  lemma LandedKeeps(c: Codec, ps: seq<Parsed>, tail: seq<Start>, ready: Phase, k: nat)
    requires ready.Ready? && EndsLike(c, ps, tail) && k <= Whole(c, ready)
    ensures var qs := LandedLines(c, ps, tail, ready.lead, ready.payload, ready.h, k);
            var more := LandedTail(c, tail, ready.lead, ready.payload, ready.h, k);
            && Finished(ps, tail) <= Finished(qs, more)
            && Torn(c, qs, more) <= Torn(c, ps, tail) + if 0 < k < Whole(c, ready) then 1 else 0
  {
    var j := Reached(c, ready.lead, ready.payload, ready.h, k);
    var more := LandedTail(c, tail, ready.lead, ready.payload, ready.h, k);
    if j > 0 && Onto(tail, ready.lead, k) == [] {
      NothingInFront([Start(ready.payload, ready.h, j)]);
      OwnLineKeeps(c, ps, tail, Start(ready.payload, ready.h, j), more);
    } else if j > 0 {
      GlueKeeps(c, ps, tail, more);
    }
  }

  lemma LandKeepsLines(c: Codec, key: Key, log: Log, proc: Proc, k: nat)
    requires Faithful(c) && EndsIn(c, log.file, log.tail) && ReadyOk(key, proc) && CanLand(c, proc, k)
    ensures var after := Land(c, key, log, proc, k);
            && FinishedLines(c, log) <= FinishedLines(c, after)
            && TornLines(c, after) <= TornLines(c, log) + if 0 < k < Whole(c, proc.phase) then 1 else 0
  {
    WriteLands(c, log.file, log.tail, proc.phase.lead, proc.phase.payload, proc.phase.h, k);
    UnfinishedLine(c, log);
    LandedKeeps(c, ParsedLines(c, log.file), log.tail, proc.phase, k);
  }

  function FinishedLines(c: Codec, log: Log): seq<Parsed> {
    Finished(ParsedLines(c, log.file), log.tail)
  }

  function TornLines(c: Codec, log: Log): nat {
    Torn(c, ParsedLines(c, log.file), log.tail)
  }

  // --- over a run -------------------------------------------------------------

  predicate MayTear(step: Step) {
    (step.FailWrite? || step.Crash?) && step.k > 0
  }

  function Tears(steps: seq<Step>): nat {
    if steps == [] then 0 else (if MayTear(steps[0]) then 1 else 0) + Tears(steps[1..])
  }

  // The process that steps has what it computed, or what it had, ready.
  lemma ProcStaysOk(c: Codec, key: Key, s: Sys, proc: Proc, step: Step)
    requires ReadyOk(key, proc) && Can(c, s, proc, step)
    ensures ReadyOk(key, ProcAfter(c, key, s, proc, step))
  {
  }

  lemma LogStaysOk(c: Codec, key: Key, log: Log, proc: Proc, step: Step)
    requires Faithful(c) && LogOk(c, key, log) && ReadyOk(key, proc)
    ensures var after := LogAfter(c, key, log, proc, step);
            && LogOk(c, key, after)
            && FinishedLines(c, log) <= FinishedLines(c, after)
            && TornLines(c, after) <= TornLines(c, log) + if MayTear(step) then 1 else 0
  {
    var k := match step
             case Write(_) => if CanLand(c, proc, 0) then Whole(c, proc.phase) else 0
             case FailWrite(_, k) => k
             case Crash(_, k) => k
             case _ => 0;
    if (step.Write? || step.FailWrite? || step.Crash?) && CanLand(c, proc, k) {
      LandKeepsOk(c, key, log, proc, k);
      LandKeepsLines(c, key, log, proc, k);
    }
  }

  lemma StepKeepsOk(c: Codec, key: Key, s: Sys, step: Step)
    requires Faithful(c) && LogOk(c, key, s.log) && ProcsOk(key, s.procs) && Enabled(c, s, step)
    ensures var t := Apply(c, key, s, step);
            && LogOk(c, key, t.log) && ProcsOk(key, t.procs)
            && FinishedLines(c, s.log) <= FinishedLines(c, t.log)
            && TornLines(c, t.log) <= TornLines(c, s.log) + if MayTear(step) then 1 else 0
  {
    if !step.Tick? && !step.Spawn? {
      LogStaysOk(c, key, s.log, s.procs[step.p], step);
      if !step.Crash? {
        ProcStaysOk(c, key, s, s.procs[step.p], step);
      }
    }
  }

  lemma {:induction false} RunKeepsOk(c: Codec, key: Key, s: Sys, steps: seq<Step>)
    requires Faithful(c) && LogOk(c, key, s.log) && ProcsOk(key, s.procs) && Legal(c, key, s, steps)
    ensures var t := Run(c, key, s, steps);
            && LogOk(c, key, t.log) && ProcsOk(key, t.procs)
            && FinishedLines(c, s.log) <= FinishedLines(c, t.log)
            && TornLines(c, t.log) <= TornLines(c, s.log) + Tears(steps)
    decreases |steps|
  {
    if steps != [] {
      StepKeepsOk(c, key, s, steps[0]);
      RunKeepsOk(c, key, Apply(c, key, s, steps[0]), steps[1..]);
    }
  }

  // Every run, whoever holds the lock, lets it go, takes it over or goes on
  // without it: the lines reported as broken are the torn ones and the rows
  // appended from a head that was no longer the current one. No line is torn
  // but by a write cut short, and each of those tears at most one.
  lemma BrokenIffTornOrStale(c: Codec, key: Key, now: int, steps: seq<Step>)
    requires Faithful(c) && Legal(c, key, Init(now), steps)
    ensures var s := Run(c, key, Init(now), steps);
            var ps := ParsedLines(c, s.log.file);
            && Null !in ps
            && (forall i :: i in BrokenAt(key, ps) <==> 0 <= i < |ps| && (ps[i].Unparsable? || i in s.log.stale))
            && Unparsables(ps) <= Tears(steps)
  {
    InitOk(c, key, now);
    RunKeepsOk(c, key, Init(now), steps);
    var s := Run(c, key, Init(now), steps);
    ExplainedBreaks(key, ParsedLines(c, s.log.file), s.log.stale);
  }

  lemma ExplainedBreaks(key: Key, ps: seq<Parsed>, stale: set<nat>)
    requires Explained(key, ps, stale)
    ensures Null !in ps
    ensures forall i :: i in BrokenAt(key, ps) <==> 0 <= i < |ps| && (ps[i].Unparsable? || i in stale)
  {
    BrokenAtMembers(key, ps);
    forall i | 0 <= i < |ps| ensures ps[i] != Null && (Breaks(key, ps, i) <==> ps[i].Unparsable? || i in stale) {
      assert ExplainedAt(key, ps, stale, i);
    }
  }

  // Nor does any run lose or change a line that a newline has finished.
  lemma FinishedLinesStay(c: Codec, key: Key, now: int, steps: seq<Step>, more: seq<Step>)
    requires Faithful(c) && Legal(c, key, Init(now), steps)
    requires Legal(c, key, Run(c, key, Init(now), steps), more)
    ensures var s := Run(c, key, Init(now), steps);
            FinishedLines(c, s.log) <= FinishedLines(c, Run(c, key, s, more).log)
  {
    InitOk(c, key, now);
    RunKeepsOk(c, key, Init(now), steps);
    RunKeepsOk(c, key, Run(c, key, Init(now), steps), more);
  }

  // --- the anchor never runs ahead of the file --------------------------------

  // What a process has counted is there.
  predicate Counted(c: Codec, log: Log, proc: Proc) {
    var lines := |ParsedLines(c, log.file)|;
    && (proc.phase.Read? ==> proc.phase.count <= lines)
    && (proc.cache.Some? ==>
          && proc.cache.value.count <= lines
          && (proc.cache.value.size == 0 && proc.phase != Wrote ==> proc.cache.value.count == 0))
    && (proc.cache.Some? && proc.phase.Ready? && proc.phase.lead == ""
        ==> proc.cache.value.count <= |FinishedLines(c, log)|)
  }

  ghost predicate CountsOk(c: Codec, s: Sys) {
    && (s.log.anchor.Some? ==> s.log.anchor.value.count <= |ParsedLines(c, s.log.file)|)
    && forall p :: p in s.procs ==> Counted(c, s.log, s.procs[p])
  }

  lemma LandedAdds(c: Codec, ps: seq<Parsed>, tail: seq<Start>, ready: Phase, k: nat)
    requires ready.Ready? && EndsLike(c, ps, tail)
    ensures var qs := LandedLines(c, ps, tail, ready.lead, ready.payload, ready.h, k);
            && |qs| >= |ps|
            && (Reached(c, ready.lead, ready.payload, ready.h, k) > 0 && (tail == [] || NewLead(ready.lead, k))
                ==> |qs| == |ps| + 1)
  {
  }

  // A whole row makes for a line more than its writer had counted.
  lemma WriteAdds(c: Codec, key: Key, log: Log, proc: Proc, k: nat)
    requires Faithful(c) && EndsIn(c, log.file, log.tail) && ReadyOk(key, proc) && CanLand(c, proc, k)
    requires Counted(c, log, proc)
    ensures var lines := |ParsedLines(c, Land(c, key, log, proc, k).file)|;
            && lines >= |ParsedLines(c, log.file)|
            && (k == Whole(c, proc.phase) ==> lines >= proc.cache.value.count + 1)
  {
    var ready, ps := proc.phase, ParsedLines(c, log.file);
    assert RowIsLine(c, ready.payload, ready.h);
    WriteLands(c, log.file, log.tail, ready.lead, ready.payload, ready.h, k);
    UnfinishedLine(c, log);
    LandedAdds(c, ps, log.tail, ready, k);
  }

  lemma NoLinesYet(c: Codec)
    ensures ParsedLines(c, "") == []
  {
    LinesPlain("");
  }

  // Nothing is unfinished when no leading newline is needed.
  lemma NoLeadNoTail(c: Codec, log: Log)
    requires Faithful(c) && EndsIn(c, log.file, log.tail) && Lead(log.file) == ""
    ensures FinishedLines(c, log) == ParsedLines(c, log.file)
  {
    LeadByLastLine(log.file);
    if log.tail != [] {
      GlueStarts(c, log.tail);
    }
  }

  lemma StepperCounts(c: Codec, key: Key, s: Sys, proc: Proc, step: Step)
    requires Faithful(c) && LogOk(c, key, s.log) && ReadyOk(key, proc) && Can(c, s, proc, step) && !step.Crash?
    requires Counted(c, s.log, proc)
    ensures Counted(c, LogAfter(c, key, s.log, proc, step), ProcAfter(c, key, s, proc, step))
  {
    NoLinesYet(c);
    LandsIsLand(c, key, s, proc, step);
    if Lands(proc, step) {
      WriteAdds(c, key, s.log, proc, Landing(c, proc, step));
    } else if step.Prepare? && Lead(s.log.file) == "" {
      NoLeadNoTail(c, s.log);
    }
  }

  lemma StepCounts(c: Codec, key: Key, s: Sys, step: Step)
    requires Faithful(c) && LogOk(c, key, s.log) && ProcsOk(key, s.procs) && Enabled(c, s, step)
    requires CountsOk(c, s)
    ensures CountsOk(c, Apply(c, key, s, step))
  {
    var t := Apply(c, key, s, step);
    if !step.Tick? && !step.Spawn? {
      var proc := s.procs[step.p];
      assert ReadyOk(key, proc) && Counted(c, s.log, proc);
      LinesGrow(c, key, s, proc, step);
      if !step.Crash? {
        StepperCounts(c, key, s, proc, step);
      }
    }
  }

  lemma LinesGrow(c: Codec, key: Key, s: Sys, proc: Proc, step: Step)
    requires Faithful(c) && LogOk(c, key, s.log) && ReadyOk(key, proc) && Can(c, s, proc, step)
    requires Counted(c, s.log, proc)
    ensures var after := LogAfter(c, key, s.log, proc, step);
            && |ParsedLines(c, after.file)| >= |ParsedLines(c, s.log.file)|
            && |FinishedLines(c, after)| >= |FinishedLines(c, s.log)|
            && (after.anchor == s.log.anchor
                || (after.anchor.Some? && proc.cache.Some?
                    && after.anchor.value.count == proc.cache.value.count))
  {
    LogStaysOk(c, key, s.log, proc, step);
    LandsIsLand(c, key, s, proc, step);
    if Lands(proc, step) {
      WriteAdds(c, key, s.log, proc, Landing(c, proc, step));
    }
  }

  lemma {:induction false} RunCounts(c: Codec, key: Key, s: Sys, steps: seq<Step>)
    requires Faithful(c) && LogOk(c, key, s.log) && ProcsOk(key, s.procs) && Legal(c, key, s, steps)
    requires CountsOk(c, s)
    ensures CountsOk(c, Run(c, key, s, steps))
    decreases |steps|
  {
    if steps != [] {
      StepKeepsOk(c, key, s, steps[0]);
      StepCounts(c, key, s, steps[0]);
      RunCounts(c, key, Apply(c, key, s, steps[0]), steps[1..]);
    }
  }

  // No run, with the lock or without it, is ever reported as truncated.
  lemma NeverTruncated(c: Codec, key: Key, now: int, steps: seq<Step>)
    requires Faithful(c) && Legal(c, key, Init(now), steps)
    ensures var s := Run(c, key, Init(now), steps);
            !Truncated(key, ParsedLines(c, s.log.file), s.log.anchor)
  {
    InitOk(c, key, now);
    RunCounts(c, key, Init(now), steps);
  }
}
