// What the lock file guards, and when: who may be between taking it and giving
// it back, which steps let a second process in, and what the clock rules out.

module LockTiming {
  import opened Text
  import opened Chain
  import opened AuditLog
  import opened LockTurns
  import opened Protocol

  // Between acquireLock and the end of appendEvent, with the lock or without it.
  predicate Inside(proc: Proc) {
    !proc.phase.Idle? && !proc.phase.Waiting?
  }

  // Every process inside holds the lock, and the lock file there is its own.
  ghost predicate Guarded(s: Sys) {
    forall p :: p in s.procs && Inside(s.procs[p]) ==>
      s.procs[p].holds && s.lock.file.Some? && s.lock.file.value.maker == p
  }

  // --- what breaks the guard --------------------------------------------------

  // The process goes on without the lock: it was refused, or its time is up.
  predicate EntersUnlocked(s: Sys, step: Step) {
    step.Refuse?
    || (step.CheckClock? && step.p in s.procs && Waits(s.procs[step.p]) && s.now > s.procs[step.p].phase.deadline)
  }

  // The lock file that is there belongs to a process inside.
  predicate InUse(s: Sys) {
    s.lock.file.Some? && s.lock.file.value.maker in s.procs && Inside(s.procs[s.lock.file.value.maker])
  }

  predicate RemovesInUse(s: Sys, step: Step) {
    step.Remove? && InUse(s)
  }

  predicate Intrudes(s: Sys, step: Step) {
    EntersUnlocked(s, step) || RemovesInUse(s, step)
  }

  // Which steps take a process in and out.
  lemma InsideAfter(c: Codec, key: Key, s: Sys, proc: Proc, step: Step)
    requires Can(c, s, proc, step) && !step.Crash?
    ensures var after := ProcAfter(c, key, s, proc, step);
            var unlocked := step.Refuse? || (step.CheckClock? && s.now > proc.phase.deadline);
            && (Inside(after) <==> step.Create? || unlocked || (Inside(proc) && !step.Release?))
            && (step.Create? ==> after.holds) && (unlocked ==> !after.holds)
            && (Inside(proc) && !step.Release? ==> after.holds == proc.holds)
  {
  }

  // A process stepped: what it may do to the lock file while the guard stays.
  lemma StaysGuarded(s: Sys, t: Sys, p: nat)
    requires Guarded(s) && p in s.procs && p in t.procs
    requires forall q :: q in t.procs && q != p ==> q in s.procs && t.procs[q] == s.procs[q]
    requires Inside(t.procs[p]) ==> t.procs[p].holds && t.lock.file.Some? && t.lock.file.value.maker == p
    requires t.lock.file == s.lock.file || s.lock.file == None || !InUse(s) || Inside(s.procs[p])
    ensures Guarded(t)
  {
  }

  // One step, whatever it is, keeps the guard if and only if it does not intrude.
  lemma GuardedStepIff(c: Codec, key: Key, s: Sys, step: Step)
    requires Guarded(s) && Enabled(c, s, step)
    ensures Guarded(Apply(c, key, s, step)) <==> !Intrudes(s, step)
  {
    var t := Apply(c, key, s, step);
    if !step.Tick? && !step.Spawn? && !step.Crash? {
      var proc, after := s.procs[step.p], t.procs[step.p];
      InsideAfter(c, key, s, proc, step);
      if EntersUnlocked(s, step) {
        assert Inside(after) && !after.holds;
      } else if RemovesInUse(s, step) {
        assert t.procs[s.lock.file.value.maker] == s.procs[s.lock.file.value.maker];
      } else {
        StaysGuarded(s, t, step.p);
      }
    }
  }

  predicate KeepsGuard(s: Sys, step: Step) {
    !Intrudes(s, step)
  }

  ghost predicate AlwaysGuarded(c: Codec, key: Key, s: Sys, steps: seq<Step>)
    requires Legal(c, key, s, steps)
    decreases |steps|
  {
    Guarded(s) && (steps == [] || AlwaysGuarded(c, key, Apply(c, key, s, steps[0]), steps[1..]))
  }

  // A run is guarded all along if and only if no step of it intrudes.
  lemma {:induction false} AlwaysGuardedIff(c: Codec, key: Key, s: Sys, steps: seq<Step>)
    requires Guarded(s) && Legal(c, key, s, steps)
    ensures AlwaysGuarded(c, key, s, steps) <==> Throughout(c, key, s, steps, KeepsGuard)
    decreases |steps|
  {
    if steps != [] {
      var t := Apply(c, key, s, steps[0]);
      GuardedStepIff(c, key, s, steps[0]);
      if Guarded(t) {
        AlwaysGuardedIff(c, key, t, steps[1..]);
      }
    }
  }

  lemma {:induction false} GuardedAtTheEnd(c: Codec, key: Key, s: Sys, steps: seq<Step>)
    requires Legal(c, key, s, steps) && AlwaysGuarded(c, key, s, steps)
    ensures Guarded(Run(c, key, s, steps))
    decreases |steps|
  {
    if steps != [] {
      GuardedAtTheEnd(c, key, Apply(c, key, s, steps[0]), steps[1..]);
    }
  }

  // So in a run without an intrusion no two processes are ever inside at once.
  lemma NoTwoInside(c: Codec, key: Key, now: int, steps: seq<Step>, p: nat, q: nat)
    requires Legal(c, key, Init(now), steps) && Throughout(c, key, Init(now), steps, KeepsGuard)
    requires var s := Run(c, key, Init(now), steps);
             p in s.procs && q in s.procs && Inside(s.procs[p]) && Inside(s.procs[q])
    ensures p == q
  {
    AlwaysGuardedIff(c, key, Init(now), steps);
    GuardedAtTheEnd(c, key, Init(now), steps);
  }

  // Removing a lock file in use lets a second process in: the one that removed it.
  lemma RemoverGetsIn(c: Codec, key: Key, s: Sys, p: nat)
    requires Guarded(s) && Enabled(c, s, Remove(p)) && RemovesInUse(s, Remove(p))
    ensures Legal(c, key, s, [Remove(p), Create(p)])
    ensures var t := Run(c, key, s, [Remove(p), Create(p)]);
            var q := s.lock.file.value.maker;
            p != q && p in t.procs && q in t.procs && Inside(t.procs[p]) && Inside(t.procs[q])
  {
    var mid := Apply(c, key, s, Remove(p));
    var last: seq<Step> := [];
    Cons(c, key, mid, Create(p), last);
    Cons(c, key, s, Remove(p), [Create(p)] + last);
    NothingBehind([Create(p)]);
    assert [Remove(p), Create(p)] == [Remove(p)] + ([Create(p)] + last);
    assert mid.procs[s.lock.file.value.maker] == s.procs[s.lock.file.value.maker];
  }

  // --- by the clock -----------------------------------------------------------

  // A running process gives its lock back before the file is LOCK_STALE_MS old.
  predicate Prompt(s: Sys, step: Step) {
    step.Tick? && InUse(s) ==> step.to - s.lock.file.value.since <= LOCK_STALE_MS
  }

  predicate Locked(s: Sys, step: Step) {
    !EntersUnlocked(s, step)
  }

  // No Remove takes away a file in use other than the one that was looked at.
  predicate AimsRight(s: Sys, step: Step) {
    step.Remove? && InUse(s) && step.p in s.procs && Waits(s.procs[step.p]) && s.procs[step.p].phase.turn.Found?
    ==> s.lock.file.value.id == s.procs[step.p].phase.turn.id
  }

  // The file there is a process's inside, or was left behind by a crash.
  predicate FileOk(s: Sys) {
    s.lock.file.Some? ==>
      var file := s.lock.file.value;
      && file.id < s.lock.made && (file.maker in s.gone || InUse(s))
      && (InUse(s) ==> s.now - file.since <= LOCK_STALE_MS)
  }

  // A file seen to be stale is one that a crash left behind.
  predicate FoundOk(s: Sys, proc: Proc) {
    proc.phase.Waiting? && proc.phase.turn.Found? ==>
      && proc.phase.turn.id < s.lock.made
      && (s.lock.file.Some? && s.lock.file.value.id == proc.phase.turn.id ==> s.lock.file.value.maker in s.gone)
  }

  ghost predicate ClockInv(s: Sys) {
    && Guarded(s) && FileOk(s)
    && (forall p :: p in s.procs ==> p !in s.gone && FoundOk(s, s.procs[p]))
  }

  // A Remove aimed right is of a file left behind, and no other is safe.
  lemma IntrudesIffAimedWrong(c: Codec, s: Sys, step: Step)
    requires ClockInv(s) && Enabled(c, s, step) && Locked(s, step)
    ensures Intrudes(s, step) <==> !AimsRight(s, step)
  {
    if step.Remove? {
      assert FoundOk(s, s.procs[step.p]);
    }
  }

  lemma StepKeepsClock(c: Codec, key: Key, s: Sys, step: Step)
    requires ClockInv(s) && Enabled(c, s, step) && Prompt(s, step) && !Intrudes(s, step)
    ensures ClockInv(Apply(c, key, s, step))
  {
    GuardedStepIff(c, key, s, step);
    var t := Apply(c, key, s, step);
    if !step.Tick? && !step.Spawn? && !step.Crash? {
      InsideAfter(c, key, s, s.procs[step.p], step);
    }
  }

  lemma {:induction false} PromptFromIff(c: Codec, key: Key, s: Sys, steps: seq<Step>)
    requires ClockInv(s) && Legal(c, key, s, steps)
    requires Throughout(c, key, s, steps, Prompt) && Throughout(c, key, s, steps, Locked)
    ensures AlwaysGuarded(c, key, s, steps) <==> Throughout(c, key, s, steps, AimsRight)
    decreases |steps|
  {
    if steps != [] {
      var t := Apply(c, key, s, steps[0]);
      GuardedStepIff(c, key, s, steps[0]);
      IntrudesIffAimedWrong(c, s, steps[0]);
      if Guarded(t) {
        StepKeepsClock(c, key, s, steps[0]);
        PromptFromIff(c, key, t, steps[1..]);
      }
    }
  }

  // With running processes prompt and none going on without the lock, a run is
  // guarded all along if and only if no process removes, in place of the stale
  // file it looked at, a newer one in use.
  lemma PromptGuardedIff(c: Codec, key: Key, now: int, steps: seq<Step>)
    requires Legal(c, key, Init(now), steps)
    requires Throughout(c, key, Init(now), steps, Prompt) && Throughout(c, key, Init(now), steps, Locked)
    ensures AlwaysGuarded(c, key, Init(now), steps) <==> Throughout(c, key, Init(now), steps, AimsRight)
  {
    PromptFromIff(c, key, Init(now), steps);
  }

  ghost predicate TwoInside(s: Sys) {
    exists p, q :: p in s.procs && q in s.procs && p != q
      && Inside(s.procs[p]) && s.procs[p].holds && Inside(s.procs[q]) && s.procs[q].holds
  }

  // --- the window between the look and the removal ----------------------------

  // A process that came to the lock at s.now, found it stale and is about to
  // remove it.
  function Finder(s: Sys): Proc
    requires s.lock.file.Some?
  {
    var file := s.lock.file.value;
    NEW.(phase := Waiting(s.now + LOCK_WAIT_MS, Found(file.id)), start := s.now,
         tries := [Busy(s.now, Some(s.now - file.since))])
  }

  predicate Fair(s: Sys, step: Step) {
    Prompt(s, step) && Locked(s, step)
  }

  // The process lets time pass properly and does not intrude.
  predicate Quiet(s: Sys, step: Step) {
    Prompt(s, step) && KeepsGuard(s, step)
  }

  // A run from s to t by steps of one kind.
  ghost predicate Leads(c: Codec, key: Key, s: Sys, steps: seq<Step>, t: Sys, kind: (Sys, Step) -> bool) {
    Legal(c, key, s, steps) && Throughout(c, key, s, steps, kind) && Run(c, key, s, steps) == t
  }

  lemma Then(c: Codec, key: Key, s: Sys, steps: seq<Step>, t: Sys, step: Step, kind: (Sys, Step) -> bool)
    returns (more: seq<Step>)
    requires Leads(c, key, s, steps, t, kind) && Enabled(c, t, step) && kind(t, step)
    ensures Leads(c, key, s, more, Apply(c, key, t, step), kind)
  {
    var end: seq<Step> := [];
    Cons(c, key, t, step, end);
    assert ([step] + end)[1..] == end;
    more := steps + ([step] + end);
    RunOn(c, key, s, steps, [step] + end);
    ThroughoutOn(c, key, s, steps, [step] + end, kind);
  }

  // Most steps are quiet whatever the state.
  predicate Plain(step: Step) {
    !step.Tick? && !step.Refuse? && !step.CheckClock? && !step.Remove?
  }

  lemma ThenPlain(c: Codec, key: Key, s: Sys, steps: seq<Step>, t: Sys, step: Step) returns (more: seq<Step>)
    requires Leads(c, key, s, steps, t, Quiet) && Enabled(c, t, step) && Plain(step)
    ensures Leads(c, key, s, more, Apply(c, key, t, step), Quiet)
  {
    more := Then(c, key, s, steps, t, step, Quiet);
  }

  lemma Joined(
    c: Codec, key: Key, s: Sys, steps: seq<Step>, t: Sys, more: seq<Step>, u: Sys, kind: (Sys, Step) -> bool)
    requires Leads(c, key, s, steps, t, kind) && Leads(c, key, t, more, u, kind)
    ensures Leads(c, key, s, steps + more, u, kind)
  {
    RunOn(c, key, s, steps, more);
    ThroughoutOn(c, key, s, steps, more, kind);
  }

  lemma {:induction false} QuietIsFair(c: Codec, key: Key, s: Sys, steps: seq<Step>)
    requires Legal(c, key, s, steps) && Throughout(c, key, s, steps, Quiet)
    ensures Throughout(c, key, s, steps, Fair) && Throughout(c, key, s, steps, KeepsGuard)
    decreases |steps|
  {
    if steps != [] {
      QuietIsFair(c, key, Apply(c, key, s, steps[0]), steps[1..]);
    }
  }

  function Came(s: Sys, p: nat): Sys {
    s.(procs := s.procs[p := NEW.(phase := Waiting(s.now + LOCK_WAIT_MS, Trying), start := s.now)])
  }

  // A new process comes to the lock.
  lemma Comes(c: Codec, key: Key, s: Sys, p: nat) returns (steps: seq<Step>)
    requires p !in s.procs && p !in s.gone
    ensures Leads(c, key, s, steps, Came(s, p), Quiet) && Leads(c, key, s, steps, Came(s, p), Fair)
  {
    steps := ThenPlain(c, key, s, [], s, Spawn(p));
    var t := Apply(c, key, s, Spawn(p));
    steps := ThenPlain(c, key, s, steps, t, Begin(p));
    QuietIsFair(c, key, s, steps);
  }

  // Anyone new who comes to a stale lock file finds it so.
  lemma Finds(c: Codec, key: Key, s: Sys, p: nat) returns (steps: seq<Step>)
    requires p !in s.procs && p !in s.gone
    requires s.lock.file.Some? && s.now - s.lock.file.value.since > LOCK_STALE_MS
    ensures Leads(c, key, s, steps, s.(procs := s.procs[p := Finder(s)]), Fair)
  {
    steps := Comes(c, key, s, p);
    var came := Came(s, p);
    steps := Then(c, key, s, steps, came, Miss(p), Fair);
    var missed := Apply(c, key, came, Miss(p));
    steps := Then(c, key, s, steps, missed, CheckClock(p), Fair);
    var looking := Apply(c, key, missed, CheckClock(p));
    NothingInFront(Finder(s).tries);
    assert Apply(c, key, looking, Look(p, s.now)).procs == s.procs[p := Finder(s)];
    steps := Then(c, key, s, steps, looking, Look(p, s.now), Fair);
  }

  // A process that has found a lock file stale gets in.
  lemma GetsIn(c: Codec, key: Key, s: Sys, p: nat) returns (steps: seq<Step>, t: Sys)
    requires p in s.procs && Waits(s.procs[p]) && s.procs[p].phase.turn.Found?
    ensures Leads(c, key, s, steps, t, Fair)
    ensures p in t.procs && Inside(t.procs[p]) && t.procs[p].holds
    ensures forall q :: q in s.procs && q != p ==> q in t.procs && t.procs[q] == s.procs[q]
  {
    steps := Then(c, key, s, [], s, Remove(p), Fair);
    var removed := Apply(c, key, s, Remove(p));
    steps := Then(c, key, s, steps, removed, Create(p), Fair);
    t := Apply(c, key, removed, Create(p));
  }

  // A process that crashed holding the lock, ten seconds and more ago.
  lemma LeavesFile(c: Codec, key: Key, p: nat) returns (steps: seq<Step>, t: Sys)
    ensures Leads(c, key, Init(0), steps, t, Fair)
    ensures t.procs == map[] && t.gone == {p} && t.lock.file == Some(LockFile(0, p, 0)) && t.now == LOCK_STALE_MS + 1
  {
    var s := Init(0);
    steps := Comes(c, key, s, p);
    var came := Came(s, p);
    steps := Then(c, key, s, steps, came, Create(p), Fair);
    var inside := Apply(c, key, came, Create(p));
    steps := Then(c, key, s, steps, inside, Crash(p, 0), Fair);
    var left := Apply(c, key, inside, Crash(p, 0));
    steps := Then(c, key, s, steps, left, Tick(LOCK_STALE_MS + 1), Fair);
    t := Apply(c, key, left, Tick(LOCK_STALE_MS + 1));
  }

  // However many have found a lock file stale, any two of them both get in.
  lemma BothGetIn(c: Codec, key: Key, s: Sys, p: nat, q: nat) returns (steps: seq<Step>, t: Sys)
    requires p != q && p in s.procs && q in s.procs
    requires Waits(s.procs[p]) && s.procs[p].phase.turn.Found? && Waits(s.procs[q]) && s.procs[q].phase.turn.Found?
    ensures Leads(c, key, s, steps, t, Fair) && TwoInside(t)
  {
    var first, mid := GetsIn(c, key, s, p);
    var second, end := GetsIn(c, key, mid, q);
    Joined(c, key, s, first, mid, second, end, Fair);
    steps, t := first + second, end;
    assert t.procs[p].holds && t.procs[q].holds;
  }

  // So a crash and two waiters are enough for two holders at once, with every
  // process prompt and none going on without the lock: looking at the file's age
  // and removing it are two steps.
  lemma TwoHolders(c: Codec, key: Key)
    ensures exists steps, t :: Leads(c, key, Init(0), steps, t, Fair) && TwoInside(t)
  {
    var a, s := LeavesFile(c, key, 0);
    var b := Finds(c, key, s, 1);
    var t := s.(procs := s.procs[1 := Finder(s)]);
    var d := Finds(c, key, t, 2);
    var u := t.(procs := t.procs[2 := Finder(t)]);
    var e, v := BothGetIn(c, key, u, 1, 2);
    Joined(c, key, Init(0), a, s, b, t, Fair);
    Joined(c, key, Init(0), a + b, t, d, u, Fair);
    Joined(c, key, Init(0), (a + b) + d, u, e, v, Fair);
  }

  // --- the turns are acquireLock's --------------------------------------------

  // A process at the lock went on after every turn it had so far; in the middle
  // of taking over, after every turn but the last.
  ghost predicate Turned(proc: Proc) {
    var deadline := proc.start + LOCK_WAIT_MS;
    match proc.phase
    case Idle => true
    case Waiting(until, turn) =>
      && until == deadline
      && (turn.Looking? ==> turn.at <= deadline)
      && (if turn.Found? then
            && proc.tries != [] && WentOn(proc.tries[..|proc.tries| - 1], deadline, proc.removed)
            && Stale(proc.tries[|proc.tries| - 1]) && !Ends(proc.tries[|proc.tries| - 1], deadline)
          else WentOn(proc.tries, deadline, proc.removed))
    case _ => Stopped(proc.tries, deadline, proc.removed, proc.holds)
  }

  // One more turn: after it the loop goes on, removes a file first, or stops.
  lemma GoesOn(tries: seq<Try>, deadline: int, removed: seq<nat>, t: Try)
    requires WentOn(tries, deadline, removed) && !Ends(t, deadline) && !Stale(t)
    ensures WentOn(tries + [t], deadline, removed)
  {
  }

  lemma RemovesFirst(tries: seq<Try>, deadline: int, removed: seq<nat>)
    requires tries != [] && WentOn(tries[..|tries| - 1], deadline, removed)
    requires Stale(tries[|tries| - 1]) && !Ends(tries[|tries| - 1], deadline)
    ensures WentOn(tries, deadline, removed + [|tries| - 1])
  {
    FrontAndLast(tries);
  }

  lemma Stops(tries: seq<Try>, deadline: int, removed: seq<nat>, t: Try)
    requires WentOn(tries, deadline, removed) && Ends(t, deadline)
    ensures Stopped(tries + [t], deadline, removed, t.Created?)
  {
    assert (tries + [t])[..|tries|] == tries;
  }

  // A process whose turns so far all went on.
  ghost predicate AtLock(proc: Proc) {
    proc.phase.Waiting? && !proc.phase.turn.Found? && Turned(proc)
  }

  lemma EnterTurns(proc: Proc, last: Try)
    requires AtLock(proc) && Ends(last, proc.phase.deadline)
    ensures Turned(Enter(proc, last.Created?, last))
  {
    Stops(proc.tries, proc.phase.deadline, proc.removed, last);
  }

  lemma LookTurns(c: Codec, key: Key, s: Sys, proc: Proc, step: Step)
    requires step.Look? && Can(c, s, proc, step) && AtLock(proc)
    ensures Turned(ProcAfter(c, key, s, proc, step))
  {
    var last := Busy(proc.phase.turn.at, Age(s.lock, step.at));
    assert (proc.tries + [last])[..|proc.tries|] == proc.tries;
    if !Stale(last) {
      GoesOn(proc.tries, proc.phase.deadline, proc.removed, last);
    }
  }

  lemma RemoveTurns(c: Codec, key: Key, s: Sys, proc: Proc, step: Step)
    requires step.Remove? && Can(c, s, proc, step) && Turned(proc)
    ensures Turned(ProcAfter(c, key, s, proc, step))
  {
    RemovesFirst(proc.tries, proc.phase.deadline, proc.removed);
  }

  lemma TryTurns(c: Codec, key: Key, s: Sys, proc: Proc, step: Step)
    requires step.Create? || step.Miss? || step.Refuse?
    requires Can(c, s, proc, step) && AtLock(proc)
    ensures Turned(ProcAfter(c, key, s, proc, step))
  {
    if step.Create? {
      EnterTurns(proc, Created);
    } else if step.Refuse? {
      EnterTurns(proc, Refused);
    }
  }

  lemma ClockTurns(c: Codec, key: Key, s: Sys, proc: Proc, step: Step)
    requires step.CheckClock? && Can(c, s, proc, step) && AtLock(proc)
    ensures Turned(ProcAfter(c, key, s, proc, step))
  {
    if s.now > proc.phase.deadline {
      EnterTurns(proc, Busy(s.now, None));
    }
  }

  predicate SameTurns(proc: Proc, after: Proc) {
    after.start == proc.start && after.tries == proc.tries && after.removed == proc.removed
  }

  // Inside, nothing is added to the turns.
  lemma InsideTurns(c: Codec, key: Key, s: Sys, proc: Proc, step: Step)
    requires Inside(proc) && Can(c, s, proc, step) && !step.Crash?
    ensures var after := ProcAfter(c, key, s, proc, step);
            && SameTurns(proc, after)
            && if step.Release? then after.phase.Idle? else Inside(after) && after.holds == proc.holds
  {
  }

  lemma StepTurns(c: Codec, key: Key, s: Sys, proc: Proc, step: Step)
    requires Can(c, s, proc, step) && !step.Crash? && Turned(proc)
    ensures Turned(ProcAfter(c, key, s, proc, step))
  {
    if step.Begin? {
    } else if step.Create? || step.Miss? || step.Refuse? {
      TryTurns(c, key, s, proc, step);
    } else if step.CheckClock? {
      ClockTurns(c, key, s, proc, step);
    } else if step.Look? {
      LookTurns(c, key, s, proc, step);
    } else if step.Remove? {
      RemoveTurns(c, key, s, proc, step);
    } else {
      assert Inside(proc);
      InsideTurns(c, key, s, proc, step);
    }
  }

  // In every run, the turns a process had at the lock and what it removed are what
  // acquireLock makes of the answers it got; once inside, so is whether it holds
  // the lock.
  lemma {:induction false} TurnsAreAcquireLock(c: Codec, key: Key, s: Sys, steps: seq<Step>)
    requires Legal(c, key, s, steps)
    requires forall p :: p in s.procs ==> Turned(s.procs[p])
    ensures forall p :: p in Run(c, key, s, steps).procs ==> Turned(Run(c, key, s, steps).procs[p])
    decreases |steps|
  {
    if steps != [] {
      var step := steps[0];
      if !step.Tick? && !step.Spawn? && !step.Crash? {
        StepTurns(c, key, s, s.procs[step.p], step);
      }
      TurnsAreAcquireLock(c, key, Apply(c, key, s, step), steps[1..]);
    }
  }

  // --- where lock files go ------------------------------------------------------

  // The lock files made along a run.
  ghost function FilesMade(c: Codec, key: Key, s: Sys, steps: seq<Step>): nat
    requires Legal(c, key, s, steps)
    decreases |steps|
  {
    if steps == [] then 0
    else
      (if steps[0].Create? || (steps[0].Refuse? && steps[0].made) then 1 else 0)
      + FilesMade(c, key, Apply(c, key, s, steps[0]), steps[1..])
  }

  // Those taken away: by a process that found the one there, or one before it, stale, or
  // by one that got the lock and gives it back.
  ghost function FilesTaken(c: Codec, key: Key, s: Sys, steps: seq<Step>): nat
    requires Legal(c, key, s, steps)
    decreases |steps|
  {
    if steps == [] then 0
    else
      var step := steps[0];
      (if s.lock.file.Some? && (step.Remove? || (step.Release? && step.p in s.procs && s.procs[step.p].holds))
       then 1 else 0)
      + FilesTaken(c, key, Apply(c, key, s, step), steps[1..])
  }

  // Conservation: each lock file made is there or was taken away in one of these two
  // ways. No file is made over another, none goes with a crash, and none is taken away
  // by a process that went on without the lock.
  lemma {:induction false} LockFilesConserved(c: Codec, key: Key, s: Sys, steps: seq<Step>)
    requires Legal(c, key, s, steps)
    ensures var t := Run(c, key, s, steps);
            && (if s.lock.file.Some? then 1 else 0) + FilesMade(c, key, s, steps)
               == (if t.lock.file.Some? then 1 else 0) + FilesTaken(c, key, s, steps)
            && t.lock.made == s.lock.made + FilesMade(c, key, s, steps)
    decreases |steps|
  {
    if steps != [] {
      LockFilesConserved(c, key, Apply(c, key, s, steps[0]), steps[1..]);
    }
  }
}
