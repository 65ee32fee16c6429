/** The order in which tasks leave the queues. */
module SchedulerOrder {
  import opened TaskTypes
  import opened Scheduler
  import opened SchedulerInvariant
  import opened SchedulerRuns

  // ---------- Which task task_get hands out ----------

  /** Among the first `n` rows, either none is offered or one is ahead of all the others offered. */
  lemma {:induction false} BestBelow(s: Sched, q: string, n: nat) returns (b: Option<nat>)
    requires Inv(s) && n <= |s.tasks|
    ensures b.None? ==> forall x: nat :: x < n ==> !Offers(s.tasks, q, x)
    ensures b.Some? ==> b.value < n && Offers(s.tasks, q, b.value)
    ensures b.Some? ==>
              forall x: nat :: x < n && x != b.value && Offers(s.tasks, q, x) ==> Ahead(s.tasks[b.value], s.tasks[x])
  {
    if n == 0 {
      b := None;
    } else {
      b := BestBelow(s, q, n - 1);
      assert RowOk(s.tasks, s.clock, n - 1);
      if Offers(s.tasks, q, n - 1) && (b.None? || Ahead(s.tasks[n - 1], s.tasks[b.value])) {
        b := Some(n - 1);
      }
    }
  }

  /** A queue has a best task exactly when a Ready task names it. */
  lemma BestExists(s: Sched, q: string)
    requires Inv(s)
    ensures Best(s.tasks, q).None? <==> forall x: nat :: !Offers(s.tasks, q, x)
  {
    var b := BestBelow(s, q, |s.tasks|);
    if b.Some? {
      assert IsBest(s.tasks, q, b.value);
    }
  }

  /**
  task_get finds nothing exactly when no Ready task names a listed queue. Otherwise it takes the best
  task of the first listed queue that any Ready task names.
  */
  lemma {:induction false} GetFindsBest(s: Sched, queues: seq<string>)
    requires Inv(s)
    ensures Choice(s.tasks, queues).None? <==> forall j, x: nat :: 0 <= j < |queues| ==> !Offers(s.tasks, queues[j], x)
    ensures Choice(s.tasks, queues).Some? ==>
              exists j :: 0 <= j < |queues| && IsBest(s.tasks, queues[j], Choice(s.tasks, queues).value)
                          && forall i, x: nat :: 0 <= i < j ==> !Offers(s.tasks, queues[i], x)
  {
    if queues != [] {
      var rest := queues[1..];
      BestExists(s, queues[0]);
      GetFindsBest(s, rest);
      assert forall j :: 0 <= j < |rest| ==> rest[j] == queues[j + 1];
      if Best(s.tasks, queues[0]).Some? {
        assert IsBest(s.tasks, queues[0], Choice(s.tasks, queues).value);
      } else if Choice(s.tasks, rest).Some? {
        var j :| 0 <= j < |rest| && IsBest(s.tasks, rest[j], Choice(s.tasks, rest).value)
                 && forall i, x: nat :: 0 <= i < j ==> !Offers(s.tasks, rest[i], x);
        assert queues[j + 1] == rest[j];
        forall i, x: nat | 0 <= i < j + 1
          ensures !Offers(s.tasks, queues[i], x)
        {
          assert i > 0 ==> queues[i] == rest[i - 1];
        }
      } else {
        forall j, x: nat | 0 <= j < |queues|
          ensures !Offers(s.tasks, queues[j], x)
        {
          assert j > 0 ==> queues[j] == rest[j - 1];
        }
      }
    }
  }

  // ---------- Entering the queues ----------

  /** The request changes the priority of row `k` while it is Ready. */
  ghost predicate Reprioritizes(s: Sched, r: Request, k: nat) {
    k < |s.tasks| && s.tasks[k].state.Ready? && r.SetPriority? && r.id == s.tasks[k].id
  }

  lemma ArrivalBounds(s: Sched, k: nat)
    requires Inv(s) && k < |s.tasks|
    ensures s.tasks[k].arrival <= s.clock && Find(s.tasks, s.tasks[k].id) == Some(k)
    ensures s.tasks[k].state.Ready? ==> s.tasks[k].arrival > 0
    ensures s.tasks[k].state.Waiting? ==> s.tasks[k].arrival == 0
  {
    assert RowOk(s.tasks, s.clock, k);
    FindIsUnique(s.tasks, k);
  }

  /** Ending a task badly, with everything that waits on it, puts no row into a queue. */
  lemma BadEndingEntersNone(s: Sched, r: Request, k: nat)
    requires r.Cancel? || (r.Done? && r.failed)
    ensures var s' := Step(s, r).next; s'.clock == s.clock && |s'.tasks| == |s.tasks| && !Enters(s, s', k)
  {
    var f := Find(s.tasks, r.id);
    if f.Some? && k < |s.tasks| {
      var t := s.tasks[f.value];
      if r.Cancel? && Live(t.state) {
        EndAt(s, f.value, Canceled, "", CANCELED_OUTPUT, k);
      } else if r.Done? && t.state.Running? && t.worker == r.worker {
        EndAt(s, f.value, Failed, r.worker, r.output, k);
      }
    }
  }

  /** A row enters its queues when it first becomes Ready, and again each time it is reprioritized while Ready. */
  lemma StepEnters(s: Sched, r: Request, k: nat)
    requires Inv(s)
    ensures var s' := Step(s, r).next;
            && s.clock <= s'.clock
            && (k < |s.tasks| ==> k < |s'.tasks|)
            && (Enters(s, s', k) ==> s.clock < s'.tasks[k].arrival <= s'.clock)
            && (Enters(s, s', k) <==>
                  || Reprioritizes(s, r, k)
                  || (k < |s'.tasks| && s'.tasks[k].arrival > 0 && (k < |s.tasks| ==> s.tasks[k].arrival == 0)))
            && (Reprioritizes(s, r, k) ==> s.tasks[k].arrival > 0)
  {
    hide Inv, End, CancelStep, NewOutput, NewState, NewOrigin, Resolve, Choice;
    if k < |s.tasks| {
      ArrivalBounds(s, k);
    }
    if r.Cancel? || (r.Done? && r.failed) {
      BadEndingEntersNone(s, r, k);
    } else if r.Done? {
      var f := Find(s.tasks, r.id);
      if f.Some? && s.tasks[f.value].state.Running? && s.tasks[f.value].worker == r.worker && k < |s.tasks| {
        ReleasedBeforeMonotone(Finish(s.tasks, f.value, r.output), k, |s.tasks|);
      }
    }
  }

  /** Rows released by the same step line up in the order they were added. */
  lemma StepEntersInOrder(s: Sched, r: Request, a: nat, b: nat)
    requires Inv(s) && a < b && Enters(s, Step(s, r).next, a) && Enters(s, Step(s, r).next, b)
    ensures Step(s, r).next.tasks[a].arrival < Step(s, r).next.tasks[b].arrival
  {
    StepEnters(s, r, a);
    StepEnters(s, r, b);
    if r.Done? && !r.failed {
      var f := Find(s.tasks, r.id);
      if f.Some? && s.tasks[f.value].state.Running? && s.tasks[f.value].worker == r.worker {
        ReleasedBeforeMonotone(Finish(s.tasks, f.value, r.output), a, b);
      }
    } else if r.Done? || r.Cancel? {
      BadEndingEntersNone(s, r, a);
    }
  }

  /** The last of the first `n` steps that put row `k` into its queues. */
  ghost function LastEntry(reqs: seq<Request>, n: nat, k: nat): (e: Option<nat>)
    requires n <= |reqs|
    ensures e.Some? ==> e.value < n
  {
    if n == 0 then None
    else if Enters(At(reqs, n - 1), At(reqs, n), k) then Some(n - 1)
    else LastEntry(reqs, n - 1, k)
  }

  lemma {:induction false} EntryEnters(reqs: seq<Request>, n: nat, k: nat)
    requires n <= |reqs| && LastEntry(reqs, n, k).Some?
    ensures var e := LastEntry(reqs, n, k).value; Enters(At(reqs, e), At(reqs, e + 1), k)
  {
    hide Step, Enters;
    if !Enters(At(reqs, n - 1), At(reqs, n), k) {
      EntryEnters(reqs, n - 1, k);
    }
  }

  /** The arrival number of a row was handed out by the step of its last entry. */
  lemma {:induction false} ArrivalOfEntry(reqs: seq<Request>, n: nat, k: nat)
    requires n <= |reqs| && k < |At(reqs, n).tasks|
    ensures var arrival, e := At(reqs, n).tasks[k].arrival, LastEntry(reqs, n, k);
            && (e.None? <==> arrival == 0)
            && (e.Some? ==>
                  && k < |At(reqs, e.value + 1).tasks| && At(reqs, e.value + 1).tasks[k].arrival == arrival
                  && At(reqs, e.value).clock < arrival <= At(reqs, e.value + 1).clock)
  {
    hide Step, Inv;
    if n > 0 {
      var s, s' := At(reqs, n - 1), At(reqs, n);
      RunKeepsInv(reqs, n - 1);
      StepEnters(s, reqs[n - 1], k);
      if !Enters(s, s', k) {
        if k < |s.tasks| {
          ArrivalOfEntry(reqs, n - 1, k);
        } else {
          NeverEntered(reqs, n - 1, k);
        }
      }
    }
  }

  lemma {:induction false} NeverEntered(reqs: seq<Request>, n: nat, k: nat)
    requires n <= |reqs| && |At(reqs, n).tasks| <= k
    ensures LastEntry(reqs, n, k) == None
  {
    hide Step, Inv;
    if n > 0 {
      RunKeepsInv(reqs, n - 1);
      StepEnters(At(reqs, n - 1), reqs[n - 1], k);
      NeverEntered(reqs, n - 1, k);
    }
  }

  lemma {:induction false} ClockOverRun(reqs: seq<Request>, i: nat, j: nat)
    requires i <= j <= |reqs|
    ensures At(reqs, i).clock <= At(reqs, j).clock
    decreases j
  {
    hide Step, Inv;
    if i < j {
      ClockOverRun(reqs, i, j - 1);
      RunKeepsInv(reqs, j - 1);
      StepEnters(At(reqs, j - 1), reqs[j - 1], 0);
    }
  }

  /** Row `b` last entered its queues before row `a` did; rows that entered together count in the order added. */
  ghost predicate EnteredBefore(reqs: seq<Request>, n: nat, b: nat, a: nat)
    requires n <= |reqs|
  {
    var eb, ea := LastEntry(reqs, n, b), LastEntry(reqs, n, a);
    eb.Some? && ea.Some? && (eb.value < ea.value || (eb.value == ea.value && b < a))
  }

  lemma ArrivalFollowsEntry(reqs: seq<Request>, n: nat, a: nat, b: nat)
    requires n <= |reqs| && a < |At(reqs, n).tasks| && b < |At(reqs, n).tasks|
    requires EnteredBefore(reqs, n, b, a)
    ensures At(reqs, n).tasks[b].arrival < At(reqs, n).tasks[a].arrival
  {
    hide Step, Inv, Enters;
    ArrivalOfEntry(reqs, n, a);
    ArrivalOfEntry(reqs, n, b);
    var ea, eb := LastEntry(reqs, n, a).value, LastEntry(reqs, n, b).value;
    if eb < ea {
      ClockOverRun(reqs, eb + 1, ea);
    } else {
      RunKeepsInv(reqs, ea);
      EntryEnters(reqs, n, a);
      EntryEnters(reqs, n, b);
      StepEntersInOrder(At(reqs, ea), reqs[ea], b, a);
    }
  }

  /**
  First in, first out among equals: of two Ready tasks of equal priority, one is ahead of the other
  exactly when it last entered the queues before it. It does not matter whether a task entered
  because it was added, released by a parent, or given a new priority.
  */
  lemma FifoAmongEquals(reqs: seq<Request>, n: nat, a: nat, b: nat)
    requires n <= |reqs| && a < |At(reqs, n).tasks| && b < |At(reqs, n).tasks| && a != b
    requires At(reqs, n).tasks[a].state.Ready? && At(reqs, n).tasks[b].state.Ready?
    requires At(reqs, n).tasks[a].priority == At(reqs, n).tasks[b].priority
    ensures Ahead(At(reqs, n).tasks[b], At(reqs, n).tasks[a]) <==> EnteredBefore(reqs, n, b, a)
  {
    RunKeepsInv(reqs, n);
    ReadyHasArrived(At(reqs, n), a);
    ReadyHasArrived(At(reqs, n), b);
    hide Step, Inv;
    ArrivalOfEntry(reqs, n, a);
    ArrivalOfEntry(reqs, n, b);
    if EnteredBefore(reqs, n, b, a) {
      ArrivalFollowsEntry(reqs, n, a, b);
    } else {
      ArrivalFollowsEntry(reqs, n, b, a);
    }
  }

  lemma ReadyHasArrived(s: Sched, k: nat)
    requires Inv(s) && k < |s.tasks| && s.tasks[k].state.Ready?
    ensures 0 < s.tasks[k].arrival <= s.clock
  {
    assert RowOk(s.tasks, s.clock, k);
  }

  lemma BestEnteredFirst(reqs: seq<Request>, n: nat, q: string, a: nat, b: nat)
    requires n <= |reqs| && IsBest(At(reqs, n).tasks, q, b) && Offers(At(reqs, n).tasks, q, a)
    requires At(reqs, n).tasks[a].priority == At(reqs, n).tasks[b].priority
    ensures !EnteredBefore(reqs, n, a, b)
  {
    if a != b {
      FifoAmongEquals(reqs, n, b, a);
    }
  }

  /** Task `b` is first in queue `q`: none there has a higher priority, or the same and entered before it. */
  ghost predicate FirstInQueue(reqs: seq<Request>, n: nat, q: string, b: nat)
    requires n <= |reqs|
  {
    var ts := At(reqs, n).tasks;
    && Offers(ts, q, b)
    && forall a: nat :: Offers(ts, q, a) ==>
         && ts[a].priority <= ts[b].priority
         && (ts[a].priority == ts[b].priority ==> !EnteredBefore(reqs, n, a, b))
  }

  /**
  A task handed out comes from the first listed queue that offers any, and there none of a higher
  priority was waiting, nor one of equal priority that had entered before it.
  */
  lemma ClaimIsFirstIn(reqs: seq<Request>, n: nat, b: nat, worker: string)
    requires ClaimedAt(reqs, n, b, worker)
    ensures exists j :: 0 <= j < |reqs[n].queues| && FirstInQueue(reqs, n, reqs[n].queues[j], b)
              && forall i, x: nat :: 0 <= i < j ==> !Offers(At(reqs, n).tasks, reqs[n].queues[i], x)
  {
    var ts, queues := At(reqs, n).tasks, reqs[n].queues;
    ClaimIsChoice(reqs, n, b, worker);
    RunKeepsInv(reqs, n);
    GetFindsBest(At(reqs, n), queues);
    hide At, EnteredBefore, Inv, Choice, ClaimedAt;
    var j :| 0 <= j < |queues| && IsBest(ts, queues[j], b)
             && forall i, x: nat :: 0 <= i < j ==> !Offers(ts, queues[i], x);
    forall a: nat | Offers(ts, queues[j], a)
      ensures ts[a].priority <= ts[b].priority
      ensures ts[a].priority == ts[b].priority ==> !EnteredBefore(reqs, n, a, b)
    {
      assert a == b || Ahead(ts[b], ts[a]);
      if ts[a].priority == ts[b].priority {
        BestEnteredFirst(reqs, n, queues[j], a, b);
      }
    }
    assert FirstInQueue(reqs, n, queues[j], b);
  }

  lemma ClaimIsChoice(reqs: seq<Request>, n: nat, b: nat, worker: string)
    requires ClaimedAt(reqs, n, b, worker)
    ensures n < |reqs| && reqs[n].Get? && b < |At(reqs, n).tasks|
    ensures Choice(At(reqs, n).tasks, reqs[n].queues) == Some(b)
  {
    RunKeepsInv(reqs, n);
    var ts, c := At(reqs, n).tasks, Choice(At(reqs, n).tasks, reqs[n].queues);
    FindIsUnique(ts, b);
    FindIsUnique(ts, c.value);
  }

  /** A new priority puts a Ready task behind every other Ready task that has it. */
  lemma ReprioritizedGoesBehind(s: Sched, r: Request, k: nat, x: nat)
    requires Inv(s) && Reprioritizes(s, r, k) && x < |s.tasks| && x != k
    requires s.tasks[x].state.Ready? && s.tasks[x].priority == r.priority
    ensures var ts := Step(s, r).next.tasks; ts[k].priority == r.priority && ts[x] == s.tasks[x] && Ahead(ts[x], ts[k])
  {
    FindIsUnique(s.tasks, k);
    ReadyHasArrived(s, x);
  }

  // ---------- How often a row enters ----------

  ghost function Reprioritizations(reqs: seq<Request>, n: nat, k: nat): nat
    requires n <= |reqs|
  {
    if n == 0 then 0
    else Reprioritizations(reqs, n - 1, k) + if Reprioritizes(At(reqs, n - 1), reqs[n - 1], k) then 1 else 0
  }

  ghost predicate HasEntered(s: Sched, k: nat) {
    k < |s.tasks| && s.tasks[k].arrival > 0
  }

  /**
  A row enters its queues once when it becomes Ready, and once more for each new priority it was given
  while Ready. A row that names a parent twice is still released once.
  */
  lemma {:induction false} EntriesExact(reqs: seq<Request>, n: nat, k: nat)
    requires n <= |reqs|
    ensures EntriesOf(reqs, n, k) == Reprioritizations(reqs, n, k) + if HasEntered(At(reqs, n), k) then 1 else 0
  {
    hide Step, Inv, Reprioritizes;
    if n > 0 {
      EntriesExact(reqs, n - 1, k);
      RunKeepsInv(reqs, n - 1);
      StepEnters(At(reqs, n - 1), reqs[n - 1], k);
      ReprioritizedHadEntered(At(reqs, n - 1), reqs[n - 1], k);
    }
  }

  lemma ReprioritizedHadEntered(s: Sched, r: Request, k: nat)
    requires Inv(s)
    ensures Reprioritizes(s, r, k) ==> HasEntered(s, k)
    ensures HasEntered(s, k) ==> HasEntered(Step(s, r).next, k)
  {
    StepEnters(s, r, k);
    if k < |s.tasks| {
      assert RowOk(s.tasks, s.clock, k);
    }
  }

  /** The most that the rows below `k` can have pushed into queue `q`: once each, and once for each new priority. */
  ghost function PushAllowance(reqs: seq<Request>, n: nat, q: string, k: nat): nat
    requires n <= |reqs| && k <= |At(reqs, n).tasks|
  {
    if k == 0 then 0
    else PushAllowance(reqs, n, q, k - 1)
         + Times(1 + Reprioritizations(reqs, n, k - 1), multiset(At(reqs, n).tasks[k - 1].queues)[q])
  }

  /** So stale entries cannot pile up beyond the priority changes that made them. */
  lemma {:induction false} PushesBounded(reqs: seq<Request>, n: nat, q: string, k: nat)
    requires n <= |reqs| && k <= |At(reqs, n).tasks|
    ensures PushesOf(reqs, n, q, k) <= PushAllowance(reqs, n, q, k)
  {
    hide At, Reprioritizations, EntriesOf;
    if k > 0 {
      PushesBounded(reqs, n, q, k - 1);
      EntriesExact(reqs, n, k - 1);
      MoreTimes(EntriesOf(reqs, n, k - 1), 1 + Reprioritizations(reqs, n, k - 1),
                multiset(At(reqs, n).tasks[k - 1].queues)[q]);
    }
  }

  lemma MoreTimes(a: nat, b: nat, c: nat)
    requires a <= b
    ensures Times(a, c) <= Times(b, c)
  {}
}
