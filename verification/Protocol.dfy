// Any number of processes appending to one audit log, one look at the shared
// files at a time: waiting for the lock file, taking it over, giving up on it,
// stale caches, torn writes, lost anchors, and crashes at any point.

module Protocol {
  import opened Text
  import opened Chain
  import opened AuditLog
  import opened LockTurns

  // --- the shared files -----------------------------------------------------

  // The log and its anchor. The rest is history: `tail` is what the unfinished
  // last line is made of; `rows` the payloads whose whole text reached the file;
  // `stale` the lines that are rows hashed from a head that was no longer the
  // current one when they landed; `overtaken` the lines that are rows of a process
  // which had not seen the file's last line.
  datatype Log = Log(
    file: string, anchor: Option<Anchor>,
    tail: seq<Start>, rows: seq<string>, stale: set<nat>, overtaken: set<nat>)

  // `id` tells lock files apart, as their inodes do.
  datatype LockFile = LockFile(id: nat, maker: nat, since: int)

  datatype Lock = Lock(file: Option<LockFile>, made: nat)

  // --- the processes --------------------------------------------------------

  // Where a process is in a turn of acquireLock: about to create the file; told
  // that it is there; about to look at its age, by a clock read at `at` or later;
  // having seen file `id` to be stale and about to remove whatever is there.
  datatype Turn = Trying | Missed | Looking(at: int) | Found(id: nat)

  // Where it is in appendEvent. Each phase ends with one look at, or one change
  // to, a shared file.
  datatype Phase =
    | Idle
    | Waiting(deadline: int, turn: Turn)
    | Entered                                   // to compare the size with the cached one
    | Unread                                    // to read the lines
    | Read(head: Head, count: nat)              // to take the size that goes with them
    | Loaded                                    // to look at the last character
    | Ready(payload: string, from: Head, h: Head, lead: string) // to append
    | Wrote                                     // to take the new size
    | Sized                                     // to replace the anchor
    | Done                                      // to remove the lock file, if it holds it

  // `seen` is history: the lines there were when the cached head was the last of
  // them. So are `start`, `tries` and `removed`: when it came to the lock, its
  // turns there, and after which of them it removed a lock file.
  datatype Proc = Proc(
    cache: Option<Cache>, phase: Phase, holds: bool,
    seen: nat, start: int, tries: seq<Try>, removed: seq<nat>)

  // `gone` holds the processes that crashed; a name is not used again.
  datatype Sys = Sys(log: Log, lock: Lock, now: int, procs: map<nat, Proc>, gone: set<nat>)

  const NEW := Proc(None, Idle, false, 0, 0, [], [])

  function Init(now: int): Sys {
    Sys(Log("", None, [], [], {}, {}), Lock(None, 0), now, map[], {})
  }

  datatype Step =
    | Tick(to: int)
    | Spawn(p: nat)                      // a process starts, with nothing cached
    | Begin(p: nat)                      // it calls appendEvent
    | Create(p: nat)                     // it creates the lock file
    | Miss(p: nat)                       // it is told that the file exists or is busy
    | Refuse(p: nat, made: bool)         // it is refused, maybe after the file was made
    | CheckClock(p: nat)                 // past the deadline it goes on without the lock
    | Look(p: nat, at: int)              // it compares the file's age with the limit
    | Remove(p: nat)                     // it removes the lock file that is there now
    | CheckSize(p: nat)
    | ReadLines(p: nat)
    | Measure(p: nat)
    | Prepare(p: nat, payload: string)   // it computes the hash and the text
    | Write(p: nat)                      // the text lands whole
    | FailWrite(p: nat, k: nat)          // k characters land, the append reports failure
    | MeasureAgain(p: nat)
    | WriteAnchor(p: nat, done: bool)    // the anchor is replaced, or its write fails
    | Release(p: nat)
    | Crash(p: nat, k: nat)              // the process dies; mid-write, k characters landed

  predicate Waits(proc: Proc) { proc.phase.Waiting? }

  predicate HasLoaded(proc: Proc) { proc.phase.Loaded? && proc.cache.Some? }

  predicate CanLand(c: Codec, proc: Proc, k: nat) {
    proc.phase.Ready? && proc.cache.Some? && k <= |Bytes(c, proc.phase.lead, proc.phase.payload, proc.phase.h)|
  }

  // The whole length of what is about to be written.
  function Whole(c: Codec, phase: Phase): nat
    requires phase.Ready?
  {
    |Bytes(c, phase.lead, phase.payload, phase.h)|
  }

  predicate Enabled(c: Codec, s: Sys, step: Step) {
    if step.Tick? then step.to >= s.now
    else if step.Spawn? then step.p !in s.procs && step.p !in s.gone
    else step.p in s.procs && Can(c, s, s.procs[step.p], step)
  }

  predicate Can(c: Codec, s: Sys, proc: Proc, step: Step) {
    match step
    case Tick(_) => false
    case Spawn(_) => false
    case Begin(_) => proc.phase == Idle
    case Create(_) => Waits(proc) && proc.phase.turn == Trying && s.lock.file == None
    case Miss(_) => Waits(proc) && proc.phase.turn == Trying
    case Refuse(_, made) => Waits(proc) && proc.phase.turn == Trying && (made ==> s.lock.file == None)
    case CheckClock(_) => Waits(proc) && proc.phase.turn == Missed
    case Look(_, at) => Waits(proc) && proc.phase.turn.Looking? && proc.phase.turn.at <= at <= s.now
    case Remove(_) => Waits(proc) && proc.phase.turn.Found?
    case CheckSize(_) => proc.phase == Entered
    case ReadLines(_) => proc.phase == Unread
    case Measure(_) => proc.phase.Read?
    case Prepare(_, _) => HasLoaded(proc)
    case Write(_) => CanLand(c, proc, 0)
    case FailWrite(_, k) => CanLand(c, proc, k)
    case MeasureAgain(_) => proc.phase == Wrote && proc.cache.Some?
    case WriteAnchor(_, _) => proc.phase == Sized && proc.cache.Some?
    case Release(_) => proc.phase == Done
    case Crash(_, k) => proc.phase.Ready? ==> CanLand(c, proc, k)
  }

  // --- what a step does -----------------------------------------------------

  // The row of this write gets a line of its own, with all of its text.
  predicate LandsWhole(c: Codec, tail: seq<Start>, phase: Phase, k: nat)
    requires phase.Ready?
  {
    && Reached(c, phase.lead, phase.payload, phase.h, k) == |c.render(phase.payload, phase.h)| > 0
    && Onto(tail, phase.lead, k) == []
  }

  // The line the row gets, if it gets one whole and is to be marked.
  function Marked(c: Codec, log: Log, phase: Phase, k: nat, mark: bool): set<nat>
    requires phase.Ready?
  {
    if LandsWhole(c, log.tail, phase, k) && mark then {|ParsedLines(c, log.file)|} else {}
  }

  // k characters of the text that a process has ready reach the file.
  function Land(c: Codec, key: Key, log: Log, proc: Proc, k: nat): Log
    requires CanLand(c, proc, k)
  {
    var ready := proc.phase;
    var ps := ParsedLines(c, log.file);
    Log(log.file + Bytes(c, ready.lead, ready.payload, ready.h)[..k],
        log.anchor,
        LandedTail(c, log.tail, ready.lead, ready.payload, ready.h, k),
        log.rows + (if Reached(c, ready.lead, ready.payload, ready.h, k) == |c.render(ready.payload, ready.h)|
                    then [ready.payload] else []),
        log.stale + Marked(c, log, ready, k, ready.from != HeadAfter(key, ps)),
        log.overtaken + Marked(c, log, ready, k, proc.seen != |ps|))
  }

  function LogAfter(c: Codec, key: Key, log: Log, proc: Proc, step: Step): Log {
    if step.Write? && CanLand(c, proc, 0) then Land(c, key, log, proc, Whole(c, proc.phase))
    else if (step.FailWrite? || step.Crash?) && CanLand(c, proc, step.k) then Land(c, key, log, proc, step.k)
    else if step.WriteAnchor? && step.done && proc.cache.Some?
    then log.(anchor := Some(MakeAnchor(key, proc.cache.value.count, proc.cache.value.head)))
    else log
  }

  function LockAfter(lock: Lock, proc: Proc, now: int, step: Step): Lock {
    if step.Create? || (step.Refuse? && step.made) then Lock(Some(LockFile(lock.made, step.p, now)), lock.made + 1)
    else if step.Remove? || (step.Release? && proc.holds) then lock.(file := None)
    else lock
  }

  // How old the lock file looks at time `at`; None when there is none.
  function Age(lock: Lock, at: int): Option<int> {
    if lock.file.Some? then Some(at - lock.file.value.since) else None
  }

  function Enter(proc: Proc, holds: bool, last: Try): Proc {
    proc.(phase := Entered, holds := holds, tries := proc.tries + [last])
  }

  function Turning(proc: Proc, turn: Turn): Proc
    requires Waits(proc)
  {
    proc.(phase := Waiting(proc.phase.deadline, turn))
  }

  function LastTurn(tries: seq<Try>): nat {
    if tries == [] then 0 else |tries| - 1
  }

  // The process that steps, afterwards. (Crash takes it out; Tick has none.)
  function ProcAfter(c: Codec, key: Key, s: Sys, proc: Proc, step: Step): Proc
    requires Can(c, s, proc, step)
  {
    match step
    case Begin(_) =>
      proc.(phase := Waiting(s.now + LOCK_WAIT_MS, Trying), start := s.now, tries := [], removed := [])
    case Create(_) => Enter(proc, true, Created)
    case Miss(_) => Turning(proc, Missed)
    case Refuse(_, _) => Enter(proc, false, Refused)
    case CheckClock(_) =>
      if s.now > proc.phase.deadline then Enter(proc, false, Busy(s.now, None)) else Turning(proc, Looking(s.now))
    case Look(_, at) =>
      var last := Busy(proc.phase.turn.at, Age(s.lock, at));
      Turning(proc, if Stale(last) then Found(s.lock.file.value.id) else Trying).(tries := proc.tries + [last])
    case Remove(_) => Turning(proc, Trying).(removed := proc.removed + [LastTurn(proc.tries)])
    case CheckSize(_) =>
      if proc.cache.Some? && proc.cache.value.size == |s.log.file| then proc.(phase := Loaded)
      else proc.(phase := Unread, cache := None)
    case ReadLines(_) =>
      var ps := ParsedLines(c, s.log.file);
      proc.(phase := Read(LastHead(ps), |ps|), seen := |ps|)
    case Measure(_) =>
      proc.(phase := Loaded, cache := Some(Cache(proc.phase.head, proc.phase.count, |s.log.file|)))
    case Prepare(_, payload) =>
      var cache := proc.cache.value;
      var lead := if cache.size > 0 then Lead(s.log.file) else "";
      proc.(phase := Ready(payload, cache.head, ChainHashWith(key, cache.head, payload), lead))
    case Write(_) =>
      var cache := proc.cache.value;
      var after := LogAfter(c, key, s.log, proc, step).file;
      proc.(phase := Wrote, cache := Some(Cache(proc.phase.h, cache.count + 1, cache.size)),
            seen := |ParsedLines(c, after)|)
    case FailWrite(_, _) => proc.(phase := Done)
    case MeasureAgain(_) => proc.(phase := Sized, cache := Some(proc.cache.value.(size := |s.log.file|)))
    case WriteAnchor(_, _) => proc.(phase := Done)
    case Release(_) => proc.(phase := Idle, holds := false)
    case Crash(_, _) => proc
  }

  function Apply(c: Codec, key: Key, s: Sys, step: Step): Sys
    requires Enabled(c, s, step)
  {
    if step.Tick? then s.(now := step.to)
    else if step.Spawn? then s.(procs := s.procs[step.p := NEW])
    else
      var proc := s.procs[step.p];
      var log := LogAfter(c, key, s.log, proc, step);
      if step.Crash? then Sys(log, s.lock, s.now, s.procs - {step.p}, s.gone + {step.p})
      else
        Sys(log, LockAfter(s.lock, proc, s.now, step), s.now,
            s.procs[step.p := ProcAfter(c, key, s, proc, step)], s.gone)
  }

  // The step lands some of what the process has ready.
  predicate Lands(proc: Proc, step: Step) {
    (step.Write? || step.FailWrite? || step.Crash?) && proc.phase.Ready?
  }

  // How much of its text the step lands.
  function Landing(c: Codec, proc: Proc, step: Step): nat
    requires Lands(proc, step)
  {
    if step.Write? then Whole(c, proc.phase) else step.k
  }

  lemma LandsIsLand(c: Codec, key: Key, s: Sys, proc: Proc, step: Step)
    requires Can(c, s, proc, step)
    ensures if Lands(proc, step) then
              CanLand(c, proc, Landing(c, proc, step))
              && LogAfter(c, key, s.log, proc, step) == Land(c, key, s.log, proc, Landing(c, proc, step))
            else
              var after := LogAfter(c, key, s.log, proc, step);
              && after.file == s.log.file && after.tail == s.log.tail
              && after.stale == s.log.stale && after.overtaken == s.log.overtaken
  {
  }

  // --- runs -----------------------------------------------------------------

  ghost predicate Legal(c: Codec, key: Key, s: Sys, steps: seq<Step>)
    decreases |steps|
  {
    steps == [] || (Enabled(c, s, steps[0]) && Legal(c, key, Apply(c, key, s, steps[0]), steps[1..]))
  }

  ghost function Run(c: Codec, key: Key, s: Sys, steps: seq<Step>): Sys
    requires Legal(c, key, s, steps)
    decreases |steps|
  {
    if steps == [] then s else Run(c, key, Apply(c, key, s, steps[0]), steps[1..])
  }

  // Every step of a run is of some kind.
  ghost predicate Throughout(c: Codec, key: Key, s: Sys, steps: seq<Step>, kind: (Sys, Step) -> bool)
    requires Legal(c, key, s, steps)
    decreases |steps|
  {
    steps == [] || (kind(s, steps[0]) && Throughout(c, key, Apply(c, key, s, steps[0]), steps[1..], kind))
  }

  lemma Cons(c: Codec, key: Key, s: Sys, step: Step, rest: seq<Step>)
    requires Enabled(c, s, step) && Legal(c, key, Apply(c, key, s, step), rest)
    ensures Legal(c, key, s, [step] + rest)
    ensures Run(c, key, s, [step] + rest) == Run(c, key, Apply(c, key, s, step), rest)
  {
    assert ([step] + rest)[1..] == rest;
  }

  // One run after another.
  lemma {:induction false} RunOn(c: Codec, key: Key, s: Sys, steps: seq<Step>, more: seq<Step>)
    requires Legal(c, key, s, steps) && Legal(c, key, Run(c, key, s, steps), more)
    ensures Legal(c, key, s, steps + more)
    ensures Run(c, key, s, steps + more) == Run(c, key, Run(c, key, s, steps), more)
    decreases |steps|
  {
    if steps == [] {
      NothingInFront(more);
    } else {
      HeadTail(steps, more);
      RunOn(c, key, Apply(c, key, s, steps[0]), steps[1..], more);
    }
  }

  lemma {:induction false} ThroughoutOn(
    c: Codec, key: Key, s: Sys, steps: seq<Step>, more: seq<Step>, kind: (Sys, Step) -> bool)
    requires Legal(c, key, s, steps) && Legal(c, key, Run(c, key, s, steps), more)
    requires Throughout(c, key, s, steps, kind) && Throughout(c, key, Run(c, key, s, steps), more, kind)
    ensures Legal(c, key, s, steps + more) && Throughout(c, key, s, steps + more, kind)
    decreases |steps|
  {
    RunOn(c, key, s, steps, more);
    if steps == [] {
      NothingInFront(more);
    } else {
      HeadTail(steps, more);
      ThroughoutOn(c, key, Apply(c, key, s, steps[0]), steps[1..], more, kind);
    }
  }
}
