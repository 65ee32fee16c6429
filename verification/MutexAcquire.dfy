/** The waiting acquire of the client: it polls the server, sleeps between attempts, and may give up at a deadline. */
module MutexClient {
  import opened TaskTypes
  import opened MutexServer

  const SLEEP := 0.5

  /**
  One turn of the loop, as the world decides it: what the server does for others before the attempt,
  the jitter drawn, and what the clock reads once the attempt has been answered.
  */
  datatype Turn = Turn(others: seq<MutexRequest>, jitter: real, now: real)

  datatype Ending = GotIt | TimedOut | StillTrying

  function Min(a: real, b: real): real {
    if a <= b then a else b
  }

  /** How long the loop sleeps after a turn; it never sleeps past the deadline. */
  function Delay(deadline: Option<real>, t: Turn): real {
    if deadline.Some? then Min(SLEEP + t.jitter, deadline.value - t.now) else SLEEP + t.jitter
  }

  function DeadlineOf(timeout: Option<real>, start: real): Option<real> {
    if timeout.Some? then Some(start + timeout.value) else None
  }

  predicate Expired(deadline: Option<real>, t: Turn) {
    deadline.Some? && t.now >= deadline.value
  }

  /** A deadline lies ahead, or none was set. */
  predicate TimeLeft(timeout: Option<real>, start: real, now: real) {
    timeout.Some? ==> now < start + timeout.value
  }

  /** The clock never goes back, and a sleep takes at least the time asked for. */
  ghost predicate Clocked(deadline: Option<real>, start: real, turns: seq<Turn>) {
    && (forall i :: 0 <= i < |turns| ==> -0.1 <= turns[i].jitter <= 0.1)
    && (|turns| > 0 ==> turns[0].now >= start)
    && (forall i, j :: 0 <= i < |turns| && j == i + 1 < |turns| && !Expired(deadline, turns[i]) ==>
          turns[j].now >= turns[i].now + Delay(deadline, turns[i]))
  }

  /** The mutexes after the first `n` turns, when no attempt before turn `n - 1` was granted. */
  function AfterTurns(m: Holders, key: string, worker: string, turns: seq<Turn>, n: nat): Holders
    requires n <= |turns|
    decreases n, 0
  {
    if n == 0 then m else MutexStep(BeforeAttempt(m, key, worker, turns, n - 1), TryAcquire(key, worker)).next
  }

  /** The mutexes when attempt `n` reaches the server. */
  function BeforeAttempt(m: Holders, key: string, worker: string, turns: seq<Turn>, n: nat): Holders
    requires n < |turns|
    decreases n, 1
  {
    Served(AfterTurns(m, key, worker, turns, n), turns[n].others)
  }

  /** Attempt `n` finds the key free. */
  predicate Granted(m: Holders, key: string, worker: string, turns: seq<Turn>, n: nat)
    requires n < |turns|
  {
    Free(BeforeAttempt(m, key, worker, turns, n), key)
  }

  // ---------- How long it can take ----------

  /** Each turn that does not time out brings the clock on by 0.4 seconds, or to the deadline. */
  lemma {:induction false} ClockAdvances(deadline: real, start: real, turns: seq<Turn>, n: nat)
    requires n < |turns| && Clocked(Some(deadline), start, turns)
    requires forall i :: 0 <= i < n ==> !Expired(Some(deadline), turns[i])
    ensures turns[n].now >= Min(start + 0.4 * n as real, deadline)
  {
    if n > 0 {
      ClockAdvances(deadline, start, turns, n - 1);
      assert turns[n].now >= turns[n - 1].now + Delay(Some(deadline), turns[n - 1]);
    }
  }

  /** With a timeout of T > 0 seconds there are fewer than T / 0.4 + 2 attempts; with none left to wait, one. */
  predicate FewEnough(timeout: Option<real>, attempts: nat) {
    timeout.Some? ==>
      && (timeout.value > 0.0 ==> attempts as real < timeout.value / 0.4 + 2.0)
      && (timeout.value <= 0.0 ==> attempts <= 1)
  }

  lemma AttemptsBounded(timeout: Option<real>, start: real, turns: seq<Turn>, attempts: nat)
    requires attempts <= |turns|
    requires forall i :: 0 <= i < attempts - 1 ==> !Expired(DeadlineOf(timeout, start), turns[i])
    ensures Clocked(DeadlineOf(timeout, start), start, turns) ==> FewEnough(timeout, attempts)
  {
    if timeout.Some? && Clocked(DeadlineOf(timeout, start), start, turns) && attempts > 1 {
      ClockAdvances(start + timeout.value, start, turns, attempts - 2);
      assert !Expired(Some(start + timeout.value), turns[attempts - 2]);
    }
  }

  /** The loop never asks for a sleep that ends past the deadline, and always for a positive one. */
  lemma SleepEndsInTime(timeout: Option<real>, start: real, turns: seq<Turn>, i: nat)
    requires i < |turns| && Clocked(DeadlineOf(timeout, start), start, turns)
    requires !Expired(DeadlineOf(timeout, start), turns[i])
    ensures var delay := Delay(DeadlineOf(timeout, start), turns[i]);
            && 0.0 < delay <= 0.6
            && (timeout.Some? ==> turns[i].now + delay <= start + timeout.value)
  {
    assert -0.1 <= turns[i].jitter <= 0.1;
  }

  /** Poll until the mutex is acquired, the deadline has passed, or the turns given here are used up. */
  method Acquire(server: Mutexes, key: string, worker: string, timeout: Option<real>, start: real, turns: seq<Turn>)
    returns (ending: Ending, attempts: nat, sleeps: seq<real>)
    requires server.Valid()
    modifies server
    ensures server.Valid() && attempts <= |turns|
    ensures server.Model() == AfterTurns(old(server.Model()), key, worker, turns, attempts)
    ensures var m := old(server.Model());
            && (forall i :: 0 <= i < attempts - 1 ==>
                  !Granted(m, key, worker, turns, i) && TimeLeft(timeout, start, turns[i].now))
            && (ending.GotIt? ==> attempts > 0 && Granted(m, key, worker, turns, attempts - 1))
            && (ending.TimedOut? ==> attempts > 0 && !Granted(m, key, worker, turns, attempts - 1)
                                     && !TimeLeft(timeout, start, turns[attempts - 1].now))
            && (ending.StillTrying? ==> attempts == |turns| && (attempts > 0 ==>
                  !Granted(m, key, worker, turns, attempts - 1) && TimeLeft(timeout, start, turns[attempts - 1].now)))
    ensures |sleeps| == if ending.StillTrying? then attempts else attempts - 1
    ensures forall i :: 0 <= i < |sleeps| ==>
              sleeps[i] == if timeout.Some? && start + timeout.value - turns[i].now < 0.5 + turns[i].jitter
                           then start + timeout.value - turns[i].now
                           else 0.5 + turns[i].jitter
    ensures ending.TimedOut? ==> timeout.Some? && turns[attempts - 1].now >= start + timeout.value
    ensures timeout.Some? ==> forall i :: 0 <= i < attempts - 1 ==> turns[i].now < start + timeout.value
    ensures ending.GotIt? ==> key in server.Model() && server.Model()[key] == Some(worker)
    ensures timeout.None? ==> !ending.TimedOut?
    ensures timeout.Some? ==> forall i :: 0 <= i < |sleeps| ==> turns[i].now + sleeps[i] <= start + timeout.value
    ensures Clocked(DeadlineOf(timeout, start), start, turns) ==> FewEnough(timeout, attempts)
  {
    hide Clocked, FewEnough, Served;
    ghost var m := server.Model();
    var deadline := DeadlineOf(timeout, start);
    attempts, sleeps := 0, [];
    AttemptsBounded(timeout, start, turns, attempts);
    while attempts < |turns|
      invariant server.Valid() && attempts <= |turns|
      invariant server.Model() == AfterTurns(m, key, worker, turns, attempts)
      invariant forall i :: 0 <= i < attempts ==> !Granted(m, key, worker, turns, i) && !Expired(deadline, turns[i])
      invariant Clocked(deadline, start, turns) ==> FewEnough(timeout, attempts)
      invariant |sleeps| == attempts
      invariant forall i :: 0 <= i < attempts ==> sleeps[i] == Delay(deadline, turns[i])
    {
      var turn := turns[attempts];
      server.Serve(turn.others);
      var acquired := server.TryAcquire(key, worker);
      attempts := attempts + 1;
      AttemptsBounded(timeout, start, turns, attempts);
      if acquired {
        return GotIt, attempts, sleeps;
      }
      var delay := SLEEP + turn.jitter;
      if deadline.Some? {
        var remaining := deadline.value - turn.now;
        if remaining <= 0.0 {
          return TimedOut, attempts, sleeps;
        }
        delay := Min(delay, remaining);
      }
      sleeps := sleeps + [delay];
    }
    ending := StillTrying;
  }
}
