// One process's attempt at the lock file (acquireLock in src/audit/log.js).

module LockTurns {
  import opened Text

  const LOCK_WAIT_MS := 2_000
  const LOCK_STALE_MS := 10_000

  // One turn of the retry loop, as the file system and the clock answer it: the
  // file was created; it is there (`age` is None when it could not be looked
  // at); or it cannot be made at all.
  datatype Try = Created | Busy(now: int, age: Option<int>) | Refused

  predicate Ends(t: Try, deadline: int) {
    t.Created? || t.Refused? || t.now > deadline
  }

  predicate Stale(t: Try) {
    t.Busy? && t.age.Some? && t.age.value > LOCK_STALE_MS
  }

  // None of the turns ended the loop, and a lock file was removed after exactly
  // those of them that saw it stale.
  ghost predicate WentOn(tries: seq<Try>, deadline: int, removed: seq<nat>) {
    && (forall i :: 0 <= i < |tries| ==> !Ends(tries[i], deadline))
    && (forall i :: i in removed <==> 0 <= i < |tries| && Stale(tries[i]))
  }

  // The loop stopped at the last of these turns, holding the lock exactly when
  // that turn created the file.
  ghost predicate Stopped(tries: seq<Try>, deadline: int, removed: seq<nat>, held: bool) {
    && tries != []
    && WentOn(tries[..|tries| - 1], deadline, removed)
    && Ends(tries[|tries| - 1], deadline)
    && (held <==> tries[|tries| - 1].Created?)
  }

  method AcquireLock(tries: seq<Try>, start: int) returns (held: bool, used: nat, removed: seq<nat>)
    requires exists i :: 0 <= i < |tries| && Ends(tries[i], start + LOCK_WAIT_MS)
    ensures 1 <= used <= |tries| && Stopped(tries[..used], start + LOCK_WAIT_MS, removed, held)
    ensures held <==> tries[used - 1] == Created
    ensures tries[used - 1].Busy? ==> tries[used - 1].now > start + 2_000
    ensures forall i :: 0 <= i < used - 1 ==> tries[i].Busy? && tries[i].now <= start + 2_000
    ensures forall i :: i in removed <==> 0 <= i < used - 1 && tries[i].age.Some? && tries[i].age.value > 10_000
  {
    var deadline := start + LOCK_WAIT_MS;
    used, removed := 0, [];
    while true
      invariant 0 <= used < |tries|
      invariant WentOn(tries[..used], deadline, removed)
      invariant exists i :: used <= i < |tries| && Ends(tries[i], deadline)
      decreases |tries| - used
    {
      assert tries[..used + 1][..used] == tries[..used];
      match tries[used] {
        case Created =>
          return true, used + 1, removed;
        case Refused =>
          return false, used + 1, removed;
        case Busy(now, age) =>
          if now > deadline {
            return false, used + 1, removed;
          }
          if age.Some? && age.value > LOCK_STALE_MS {
            removed := removed + [used];
          }
          used := used + 1;
      }
    }
  }

  lemma FirstEnd(tries: seq<Try>, deadline: int, m: nat, removed: seq<nat>, held: bool)
    requires m <= |tries| && Stopped(tries[..m], deadline, removed, held)
    ensures m > 0 && Ends(tries[m - 1], deadline) && (held <==> tries[m - 1].Created?)
    ensures forall i :: 0 <= i < m - 1 ==> !Ends(tries[i], deadline)
    ensures forall i :: i in removed <==> 0 <= i < m - 1 && Stale(tries[i])
  {
    var before := tries[..m][..m - 1];
    assert forall i :: 0 <= i < m - 1 ==> before[i] == tries[i];
  }

  // The turns settle the outcome: there is one place the loop can stop, one
  // answer, and one set of turns after which a lock file was removed.
  lemma OneOutcome(
    tries: seq<Try>, deadline: int, m: nat, removed: seq<nat>, held: bool, n: nat, others: seq<nat>, holds: bool)
    requires m <= |tries| && Stopped(tries[..m], deadline, removed, held)
    requires n <= |tries| && Stopped(tries[..n], deadline, others, holds)
    ensures m == n && held == holds && forall i :: i in removed <==> i in others
  {
    FirstEnd(tries, deadline, m, removed, held);
    FirstEnd(tries, deadline, n, others, holds);
  }
}
