// In every run, torn writes and repeated payloads included: when the row a process
// appends breaks the chain.

module Heads {
  import opened Text
  import opened Chain
  import opened AuditLog
  import opened LockTurns
  import opened Protocol
  import opened Forks

  // The last line that is a row.
  function LastRow(ps: seq<Parsed>): Option<Parsed> {
    if ps == [] then None
    else if ps[|ps| - 1].Row? then Some(ps[|ps| - 1])
    else LastRow(ps[..|ps| - 1])
  }

  function HashOf(row: Option<Parsed>): Head {
    if row.Some? && row.value.Row? && row.value.h.Some? then row.value.h.value else GENESIS
  }

  predicate OwnRow(row: Option<Parsed>) {
    row.Some? ==> OwnHash(row.value)
  }

  predicate TornOrOwn(ps: seq<Parsed>) {
    forall i :: 0 <= i < |ps| ==> ps[i].Unparsable? || OwnHash(ps[i])
  }

  // verifyAudit and load() have the hash of that row for the head.
  lemma {:induction false} HeadIsLastRows(key: Key, ps: seq<Parsed>)
    requires TornOrOwn(ps)
    ensures HeadAfter(key, ps) == HashOf(LastRow(ps)) && LastHead(ps) == HashOf(LastRow(ps)) && OwnRow(LastRow(ps))
  {
    if ps != [] {
      HeadIsLastRows(key, ps[..|ps| - 1]);
    }
  }

  // A row's hash is of no other row.
  lemma SameHashSameRow(a: Option<Parsed>, b: Option<Parsed>)
    requires OwnRow(a) && OwnRow(b)
    ensures HashOf(a) == HashOf(b) <==> a == b
  {
  }

  lemma LogIsTornOrOwn(c: Codec, key: Key, log: Log)
    requires LogOk(c, key, log)
    ensures TornOrOwn(ParsedLines(c, log.file))
  {
    var ps := ParsedLines(c, log.file);
    forall i | 0 <= i < |ps| ensures ps[i].Unparsable? || OwnHash(ps[i]) {
      assert ExplainedAt(key, ps, log.stale, i);
    }
  }

  // --- the row a process goes on from -----------------------------------------

  // The last row of the file when the process last read it, or the one it has
  // appended since.
  function KnownAfter(c: Codec, s: Sys, p: nat, step: Step, known: Option<Parsed>): Option<Parsed> {
    if step == ReadLines(p) then LastRow(ParsedLines(c, s.log.file))
    else if step == Write(p) && p in s.procs && s.procs[p].phase.Ready?
    then Some(Row(s.procs[p].phase.payload, Some(s.procs[p].phase.h)))
    else known
  }

  ghost function Known(c: Codec, key: Key, s: Sys, steps: seq<Step>, p: nat, known: Option<Parsed>): Option<Parsed>
    requires Legal(c, key, s, steps)
    decreases |steps|
  {
    if steps == [] then known
    else Known(c, key, Apply(c, key, s, steps[0]), steps[1..], p, KnownAfter(c, s, p, steps[0], known))
  }

  // The heads a process keeps are all the hash of that row.
  predicate GoesOnFrom(proc: Proc, known: Option<Parsed>) {
    && (proc.cache.Some? ==> proc.cache.value.head == HashOf(known))
    && (proc.phase.Read? ==> proc.phase.head == HashOf(known))
    && (proc.phase.Ready? ==> proc.phase.from == HashOf(known))
    && (proc.phase == Unread || proc.phase.Read? ==> proc.cache == None)
  }

  lemma ReaderGoesOn(c: Codec, key: Key, s: Sys, proc: Proc, step: Step, known: Option<Parsed>)
    requires step.ReadLines? && Can(c, s, proc, step) && LogOk(c, key, s.log) && GoesOnFrom(proc, known)
    ensures var row := LastRow(ParsedLines(c, s.log.file));
            OwnRow(row) && GoesOnFrom(ProcAfter(c, key, s, proc, step), row)
  {
    LogIsTornOrOwn(c, key, s.log);
    HeadIsLastRows(key, ParsedLines(c, s.log.file));
  }

  lemma WriterGoesOn(c: Codec, key: Key, s: Sys, proc: Proc, step: Step)
    requires step.Write? && Can(c, s, proc, step) && ReadyOk(key, proc)
    ensures var row := Some(Row(proc.phase.payload, Some(proc.phase.h)));
            OwnRow(row) && GoesOnFrom(ProcAfter(c, key, s, proc, step), row)
  {
  }

  lemma OtherwiseGoesOn(c: Codec, key: Key, s: Sys, proc: Proc, step: Step, known: Option<Parsed>)
    requires Can(c, s, proc, step) && !step.ReadLines? && !step.Write? && !step.Crash? && GoesOnFrom(proc, known)
    ensures GoesOnFrom(ProcAfter(c, key, s, proc, step), known)
  {
  }

  lemma StepGoesOn(c: Codec, key: Key, s: Sys, step: Step, p: nat, known: Option<Parsed>)
    requires Enabled(c, s, step) && LogOk(c, key, s.log) && ProcsOk(key, s.procs) && OwnRow(known)
    requires p in s.procs ==> GoesOnFrom(s.procs[p], known)
    ensures var t, after := Apply(c, key, s, step), KnownAfter(c, s, p, step, known);
            OwnRow(after) && (p in t.procs ==> GoesOnFrom(t.procs[p], after))
  {
    if !step.Tick? && !step.Spawn? && step.p == p && !step.Crash? {
      StepperGoesOn(c, key, s, s.procs[p], step, p, known);
    }
  }

  lemma StepperGoesOn(c: Codec, key: Key, s: Sys, proc: Proc, step: Step, p: nat, known: Option<Parsed>)
    requires !step.Tick? && !step.Spawn? && !step.Crash? && step.p == p
    requires p in s.procs && s.procs[p] == proc && Can(c, s, proc, step)
    requires LogOk(c, key, s.log) && ReadyOk(key, proc) && OwnRow(known) && GoesOnFrom(proc, known)
    ensures var after := KnownAfter(c, s, p, step, known);
            OwnRow(after) && GoesOnFrom(ProcAfter(c, key, s, proc, step), after)
  {
    if step.ReadLines? {
      ReaderGoesOn(c, key, s, proc, step, known);
    } else if step.Write? {
      WriterGoesOn(c, key, s, proc, step);
    } else {
      OtherwiseGoesOn(c, key, s, proc, step, known);
    }
  }

  lemma {:induction false} RunGoesOn(c: Codec, key: Key, s: Sys, steps: seq<Step>, p: nat, known: Option<Parsed>)
    requires Faithful(c) && Legal(c, key, s, steps) && LogOk(c, key, s.log) && ProcsOk(key, s.procs) && OwnRow(known)
    requires p in s.procs ==> GoesOnFrom(s.procs[p], known)
    ensures var t, after := Run(c, key, s, steps), Known(c, key, s, steps, p, known);
            && LogOk(c, key, t.log) && ProcsOk(key, t.procs)
            && OwnRow(after) && (p in t.procs ==> GoesOnFrom(t.procs[p], after))
    decreases |steps|
  {
    if steps != [] {
      StepKeepsOk(c, key, s, steps[0]);
      StepGoesOn(c, key, s, steps[0], p, known);
      RunGoesOn(c, key, Apply(c, key, s, steps[0]), steps[1..], p, KnownAfter(c, s, p, steps[0], known));
    }
  }

  // --- the append ---------------------------------------------------------------

  // The row of a whole write gets a line of its own.
  predicate OwnLine(c: Codec, tail: seq<Start>, ready: Phase)
    requires ready.Ready?
  {
    Onto(tail, ready.lead, Whole(c, ready)) == []
  }

  // The lines after a whole write: the row on a line of its own, or lost with the
  // unfinished line it is glued to.
  predicate WriteAdds(c: Codec, tail: seq<Start>, ready: Phase, ps: seq<Parsed>, qs: seq<Parsed>)
    requires ready.Ready?
  {
    if OwnLine(c, tail, ready) then qs == ps + [Row(ready.payload, Some(ready.h))]
    else ps != [] && qs == ps[..|ps| - 1] + [Unparsable]
  }

  lemma WholeLands(c: Codec, log: Log, ready: Phase)
    requires Faithful(c) && EndsIn(c, log.file, log.tail)
    requires ready.Ready? && (ready.lead == "" || ready.lead == "\n")
    ensures var bytes := Bytes(c, ready.lead, ready.payload, ready.h);
            WriteAdds(c, log.tail, ready, ParsedLines(c, log.file), ParsedLines(c, log.file + bytes[..Whole(c, ready)]))
  {
    var ps, k := ParsedLines(c, log.file), Whole(c, ready);
    WriteLands(c, log.file, log.tail, ready.lead, ready.payload, ready.h, k);
    AllReached(c, ready);
    if OwnLine(c, log.tail, ready) {
      assert LandedLines(c, ps, log.tail, ready.lead, ready.payload, ready.h, k)
          == ps + [Row(ready.payload, Some(ready.h))];
    }
  }

  // The line glued to can be a whole row that lacked its newline: then the last row
  // of the file is again the one before it, and no row has landed.
  lemma UnfinishedRowIsLost(c: Codec, log: Log, ready: Phase, x: Start)
    requires Faithful(c) && EndsIn(c, log.file, log.tail) && log.tail == [x] && LineOf(c, [x]).Row?
    requires ready.Ready? && ready.lead == ""
    ensures var ps := ParsedLines(c, log.file);
            var bytes := Bytes(c, ready.lead, ready.payload, ready.h);
            var qs := ParsedLines(c, log.file + bytes[..Whole(c, ready)]);
            ps != [] && LastRow(ps) == Some(LineOf(c, [x])) && LastRow(qs) == LastRow(ps[..|ps| - 1])
  {
    var ps := ParsedLines(c, log.file);
    UnfinishedLine(c, log);
    WholeLands(c, log, ready);
    assert (ps[..|ps| - 1] + [Unparsable])[..|ps| - 1] == ps[..|ps| - 1];
  }

  lemma AllReached(c: Codec, ready: Phase)
    requires Faithful(c) && ready.Ready?
    ensures Reached(c, ready.lead, ready.payload, ready.h, Whole(c, ready)) == |c.render(ready.payload, ready.h)| > 0
  {
    assert RowIsLine(c, ready.payload, ready.h);
  }

  lemma WriteLines(c: Codec, key: Key, s: Sys, p: nat, ready: Phase)
    requires Faithful(c) && EndsIn(c, s.log.file, s.log.tail) && ProcsOk(key, s.procs) && Enabled(c, s, Write(p))
    requires ready == s.procs[p].phase
    ensures WriteAdds(c, s.log.tail, ready,
                      ParsedLines(c, s.log.file), ParsedLines(c, Apply(c, key, s, Write(p)).log.file))
  {
    assert ReadyOk(key, s.procs[p]);
    LandsIsLand(c, key, s, s.procs[p], Write(p));
    WholeLands(c, s.log, ready);
  }

  // A row made from a head the process goes on from.
  lemma RowBreaks(key: Key, ps: seq<Parsed>, from: Head, payload: string, known: Option<Parsed>)
    requires TornOrOwn(ps) && OwnRow(known) && from == HashOf(known)
    ensures Breaks(key, ps + [Row(payload, Some(ChainHashWith(key, from, payload)))], |ps|) <==> known != LastRow(ps)
  {
    HeadIsLastRows(key, ps);
    SameHashSameRow(known, LastRow(ps));
    AppendBreaks(key, ps, from, payload);
  }

  // The row a ready process appends, if it gets a line of its own, breaks the chain
  // if and only if the file's last row is not `known`. Otherwise it is lost with the
  // unfinished line.
  predicate BreaksUnless(
    c: Codec, key: Key, tail: seq<Start>, ready: Phase, ps: seq<Parsed>, qs: seq<Parsed>, known: Option<Parsed>)
    requires ready.Ready?
  {
    && WriteAdds(c, tail, ready, ps, qs)
    && (OwnLine(c, tail, ready) ==> (Breaks(key, qs, |ps|) <==> known != LastRow(ps)))
  }

  // In every run, with known the last row the process read there or appended itself.
  lemma AppendBreaksIff(c: Codec, key: Key, now: int, steps: seq<Step>, p: nat)
    requires Faithful(c) && Legal(c, key, Init(now), steps)
    requires Enabled(c, Run(c, key, Init(now), steps), Write(p))
    ensures var s := Run(c, key, Init(now), steps);
            BreaksUnless(c, key, s.log.tail, s.procs[p].phase,
                         ParsedLines(c, s.log.file), ParsedLines(c, Apply(c, key, s, Write(p)).log.file),
                         Known(c, key, Init(now), steps, p, None))
  {
    InitOk(c, key, now);
    RunGoesOn(c, key, Init(now), steps, p, None);
    WriteBreaks(c, key, Run(c, key, Init(now), steps), p, Known(c, key, Init(now), steps, p, None));
  }

  lemma WriteBreaks(c: Codec, key: Key, s: Sys, p: nat, known: Option<Parsed>)
    requires Faithful(c) && LogOk(c, key, s.log) && ProcsOk(key, s.procs) && Enabled(c, s, Write(p))
    requires OwnRow(known) && GoesOnFrom(s.procs[p], known)
    ensures BreaksUnless(c, key, s.log.tail, s.procs[p].phase,
                         ParsedLines(c, s.log.file), ParsedLines(c, Apply(c, key, s, Write(p)).log.file), known)
  {
    var ready := s.procs[p].phase;
    assert ReadyOk(key, s.procs[p]);
    WriteLines(c, key, s, p, ready);
    LogIsTornOrOwn(c, key, s.log);
    RowBreaks(key, ParsedLines(c, s.log.file), ready.from, ready.payload, known);
  }
}
