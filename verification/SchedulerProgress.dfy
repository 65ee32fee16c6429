/** Nothing is ever stuck, unless a task was added that no queue can hand out; what workers can then still do. */
module SchedulerProgress {
  import opened TaskTypes
  import opened Scheduler
  import opened SchedulerInvariant
  import opened SchedulerRuns
  import opened SchedulerOrder
  import opened SchedulerDependencies
  import Coupling

  /** A chain of waiting tasks, each held back by the next, that ends in one that can move. */
  ghost predicate Chain(ts: seq<Task>, c: seq<nat>) {
    && |c| > 0 && InRange(c, |ts|)
    && (forall i :: 0 <= i < |c| - 1 ==> ts[c[i]].state.Waiting? && c[i + 1] in ts[c[i]].parents && c[i + 1] < c[i])
    && (ts[c[|c| - 1]].state.Ready? || ts[c[|c| - 1]].state.Running?)
  }

  /** Every waiting task waits, in the end, for one that is Ready or Running. */
  lemma {:induction false} WaitingHasChain(s: Sched, k: nat) returns (c: seq<nat>)
    requires Inv(s) && k < |s.tasks| && Live(s.tasks[k].state)
    ensures Chain(s.tasks, c) && c[0] == k
    decreases k
  {
    if s.tasks[k].state.Waiting? {
      var p := WaitingHasLiveParent(s, k);
      var rest := WaitingHasChain(s, p);
      c := [k] + rest;
    } else {
      c := [k];
    }
  }

  ghost predicate AllEnded(ts: seq<Task>) {
    forall k :: 0 <= k < |ts| ==> Final(ts[k].state)
  }

  /** The task was added without a queue, and waits to be handed out. */
  ghost predicate Stranded(ts: seq<Task>, k: nat) {
    k < |ts| && ts[k].state.Ready? && ts[k].queues == []
  }

  /**
  When no worker holds a task and asking every queue in use yields nothing, all tasks have ended, unless
  one is Ready that was added without a queue.
  */
  lemma NoDeadlock(s: Sched, queues: seq<string>)
    requires Inv(s)
    requires forall k, q :: 0 <= k < |s.tasks| && q in s.tasks[k].queues ==> q in queues
    requires forall k :: 0 <= k < |s.tasks| ==> !s.tasks[k].state.Running?
    requires Choice(s.tasks, queues).None?
    ensures AllEnded(s.tasks) <==> forall k: nat :: !Stranded(s.tasks, k)
  {
    GetFindsBest(s, queues);
    forall k: nat | k < |s.tasks| && !Final(s.tasks[k].state)
      ensures exists x: nat :: Stranded(s.tasks, x)
    {
      assert RowOk(s.tasks, s.clock, k);
      var c := WaitingHasChain(s, k);
      var x := c[|c| - 1];
      if s.tasks[x].queues != [] {
        var q := s.tasks[x].queues[0];
        assert q in queues;
        var j :| 0 <= j < |queues| && queues[j] == q;
        assert Offers(s.tasks, queues[j], x);
      }
      assert Stranded(s.tasks, x);
    }
  }

  /** The server accepts a task without a queue. */
  lemma StrandedTaskExists(queues: seq<string>)
    ensures var s := At([Add("a", [], [], 0.0, "", "")], 1); Stranded(s.tasks, 0) && Choice(s.tasks, queues).None?
  {
    var reqs := [Add("a", [], [], 0.0, "", "")];
    assert At(reqs, 0) == EMPTY;
    RunKeepsInv(reqs, 1);
    GetFindsBest(At(reqs, 1), queues);
  }

  lemma ClaimedHasQueue(reqs: seq<Request>, i: nat, k: nat, worker: string)
    requires ClaimedAt(reqs, i, k, worker)
    ensures i < |reqs| && k < |At(reqs, i).tasks| && At(reqs, i).tasks[k].queues != []
  {
    RunKeepsInv(reqs, i);
    FindIsUnique(At(reqs, i).tasks, k);
  }

  /** Such a task never runs, whatever is requested: it can only be canceled, or end with a task it depends on. */
  lemma QueuelessNeverRuns(reqs: seq<Request>, n: nat, k: nat)
    requires n <= |reqs| && k < |At(reqs, n).tasks| && At(reqs, n).tasks[k].queues == []
    ensures !At(reqs, n).tasks[k].state.Running? && !EndedByReport(At(reqs, n).tasks[k], k)
  {
    hide Step, Inv, ClaimedAt, ReportedAt;
    var t := At(reqs, n).tasks[k];
    if t.state.Running? {
      HolderClaimed(reqs, n, k);
      var i: nat :| i < n && ClaimedAt(reqs, i, k, t.worker);
      ClaimedHasQueue(reqs, i, k, t.worker);
      RowOverRun(reqs, i, n, k);
    } else if EndedByReport(t, k) {
      EndedByItsHolder(reqs, n, k);
      var i: nat, j: nat, worker: string :|
        i < j < n && ClaimedAt(reqs, i, k, worker) && ReportedAt(reqs, j, k, worker, t.output, t.state.Failed?);
      ClaimedHasQueue(reqs, i, k, worker);
      RowOverRun(reqs, i, n, k);
    }
  }

  // ---------- Every run can be completed ----------

  ghost predicate Unstranded(ts: seq<Task>) {
    forall k: nat :: !Stranded(ts, k)
  }

  /** The requests that workers make: claims and reports. */
  predicate AllWork(more: seq<Request>) {
    forall i :: 0 <= i < |more| ==> more[i].Get? || more[i].Done?
  }

  lemma {:induction false} AtPrefix(reqs: seq<Request>, more: seq<Request>, n: nat)
    requires n <= |reqs|
    ensures At(reqs + more, n) == At(reqs, n)
  {
    hide Step;
    if n > 0 {
      AtPrefix(reqs, more, n - 1);
    }
  }

  /** While some task has not ended, a worker can claim one, or report on one as it likes. */
  lemma SomeStepWorks(s: Sched, failed: bool) returns (r: Request)
    requires Inv(s) && Unstranded(s.tasks) && !AllEnded(s.tasks)
    ensures (r.Get? || (r.Done? && r.failed == failed)) && Effective(s, r)
  {
    var k :| 0 <= k < |s.tasks| && !Final(s.tasks[k].state);
    assert RowOk(s.tasks, s.clock, k);
    var c := WaitingHasChain(s, k);
    var x := c[|c| - 1];
    var t := s.tasks[x];
    if t.state.Running? {
      r := Done(t.id, t.worker, "", failed);
      ReportIsEffective(s, x, r);
    } else {
      assert !Stranded(s.tasks, x);
      r := Get("", [t.queues[0]]);
      ClaimIsEffective(s, x, r);
    }
  }

  lemma ReportIsEffective(s: Sched, x: nat, r: Request)
    requires Inv(s) && Reports(s, r, x)
    ensures Effective(s, r)
  {
    FindIsUnique(s.tasks, x);
    if r.failed {
      EndAt(s, x, Failed, r.worker, r.output, x);
    }
    assert !Step(s, r).next.tasks[x].state.Running?;
  }

  lemma ClaimIsEffective(s: Sched, x: nat, r: Request)
    requires Inv(s) && r.Get? && |r.queues| > 0 && Offers(s.tasks, r.queues[0], x)
    ensures Effective(s, r)
  {
    GetFindsBest(s, r.queues);
    var b := Choice(s.tasks, r.queues);
    assert Step(s, r).next.tasks[b.value].state.Running?;
  }

  // ---------- Every run can be brought to its end ----------

  /** A claim or a report of failure makes no task Ready. */
  lemma FailureKeepsUnstranded(s: Sched, r: Request)
    requires Inv(s) && Unstranded(s.tasks) && (r.Get? || (r.Done? && r.failed))
    ensures Unstranded(Step(s, r).next.tasks)
  {
    hide Step, Inv;
    StepAddsAtMostOne(s, r);
    forall k: nat
      ensures !Stranded(Step(s, r).next.tasks, k)
    {
      if k < |s.tasks| {
        StepMovesRow(s, r, k);
        if s.tasks[k].state.Waiting? {
          WaitingStays(s, r, k);
        }
        assert !Stranded(s.tasks, k);
      }
    }
  }

  /**
  Any run that leaves no task Ready without a queue can be continued, by claims and reports alone and in
  at most three steps for each task, until every task has ended.
  */
  lemma {:induction false} CanComplete(reqs: seq<Request>) returns (more: seq<Request>)
    requires Unstranded(At(reqs, |reqs|).tasks)
    ensures AllEnded(At(reqs + more, |reqs + more|).tasks)
    ensures |more| <= Potential(At(reqs, |reqs|).tasks, |At(reqs, |reqs|).tasks|)
    ensures AllWork(more)
    decreases Potential(At(reqs, |reqs|).tasks, |At(reqs, |reqs|).tasks|)
  {
    hide Step, Inv, Effective, Unstranded, AllEnded, Potential;
    var s := At(reqs, |reqs|);
    RunKeepsInv(reqs, |reqs|);
    if AllEnded(s.tasks) {
      more := [];
      assert reqs + more == reqs;
    } else {
      var r := SomeStepWorks(s, true);
      AtPrefix(reqs, [r], |reqs|);
      FailureKeepsUnstranded(s, r);
      StepAddsAtMostOne(s, r);
      StepLowersPotential(s, r);
      var rest := CanComplete(reqs + [r]);
      more := [r] + rest;
      assert reqs + more == reqs + [r] + rest;
    }
  }

  /** No claim and no report moves a task that is Ready without a queue. */
  lemma StrandedStays(s: Sched, r: Request, k: nat)
    requires Inv(s) && Stranded(s.tasks, k) && (r.Get? || r.Done?)
    ensures Stranded(Step(s, r).next.tasks, k)
  {
    hide Inv, Resolve, RowOk, Distinct;
    StepMovesRow(s, r, k);
    if r.Done? && r.failed {
      var f := Find(s.tasks, r.id);
      if f.Some? {
        EndAt(s, f.value, Failed, r.worker, r.output, k);
      }
    }
  }

  lemma {:induction false} StrandedOverRun(reqs: seq<Request>, more: seq<Request>, m: nat, k: nat)
    requires m <= |more| && AllWork(more) && Stranded(At(reqs, |reqs|).tasks, k)
    ensures Stranded(At(reqs + more, |reqs| + m).tasks, k)
  {
    hide Step, Inv, Stranded;
    if m == 0 {
      AtPrefix(reqs, more, |reqs|);
    } else {
      StrandedOverRun(reqs, more, m - 1, k);
      RunKeepsInv(reqs + more, |reqs| + m - 1);
      StrandedStays(At(reqs + more, |reqs| + m - 1), more[m - 1], k);
    }
  }

  /** Claims and reports can bring a run to the end of all its tasks. */
  ghost predicate Completes(reqs: seq<Request>, more: seq<Request>) {
    AllWork(more) && AllEnded(At(reqs + more, |reqs + more|).tasks)
  }

  /** Workers alone can end all tasks if and only if none is Ready without a queue. */
  lemma CompletableIff(reqs: seq<Request>)
    ensures (exists more :: Completes(reqs, more)) <==> Unstranded(At(reqs, |reqs|).tasks)
  {
    hide At, AllWork;
    if Unstranded(At(reqs, |reqs|).tasks) {
      var more := CanComplete(reqs);
      assert Completes(reqs, more);
    } else {
      var k: nat :| Stranded(At(reqs, |reqs|).tasks, k);
      forall more
        ensures !Completes(reqs, more)
      {
        if AllWork(more) {
          StrandedOverRun(reqs, more, |more|, k);
        }
      }
    }
  }

  // ---------- Every task can finish ----------

  ghost predicate LiveQueued(ts: seq<Task>) {
    forall k :: 0 <= k < |ts| && Live(ts[k].state) ==> ts[k].queues != []
  }

  /** A claim or a report of success takes no task away from a good ending. */
  ghost predicate Spared(ts: seq<Task>, ts': seq<Task>) {
    && |ts| == |ts'|
    && forall k :: 0 <= k < |ts| ==>
         && ts'[k].queues == ts[k].queues
         && (Live(ts[k].state) ==> Live(ts'[k].state) || ts'[k].state.Finished?)
         && (!Live(ts[k].state) ==> ts'[k].state == ts[k].state)
  }

  lemma SuccessSpares(s: Sched, r: Request)
    requires Inv(s) && (r.Get? || (r.Done? && !r.failed))
    ensures Spared(s.tasks, Step(s, r).next.tasks)
  {
    StepAddsAtMostOne(s, r);
    forall k: nat | k < |s.tasks|
      ensures RowSteps(s.tasks[k], Step(s, r).next.tasks[k]) && !s.tasks[k].state.Undefined?
      ensures Live(s.tasks[k].state) ==> !Bad(Step(s, r).next.tasks[k].state)
    {
      StepMovesRow(s, r, k);
      assert RowOk(s.tasks, s.clock, k);
    }
  }

  /**
  Any run in which every task that has not ended names a queue can be continued until each of those
  tasks has finished, in at most three steps for each.
  */
  lemma {:induction false} CanFinish(reqs: seq<Request>) returns (more: seq<Request>)
    requires LiveQueued(At(reqs, |reqs|).tasks)
    ensures Finishes(reqs, more)
    ensures |more| <= Potential(At(reqs, |reqs|).tasks, |At(reqs, |reqs|).tasks|)
    ensures AllWork(more)
    decreases Potential(At(reqs, |reqs|).tasks, |At(reqs, |reqs|).tasks|)
  {
    hide Step, Inv, Effective, Potential;
    var s := At(reqs, |reqs|);
    RunKeepsInv(reqs, |reqs|);
    if AllEnded(s.tasks) {
      more := [];
      assert reqs + more == reqs;
    } else {
      var r := SomeStepWorks(s, false);
      AtPrefix(reqs, [r], |reqs|);
      SuccessSpares(s, r);
      StepLowersPotential(s, r);
      var rest := CanFinish(reqs + [r]);
      more := [r] + rest;
      assert reqs + more == reqs + [r] + rest;
      StaysFinished(reqs + [r], rest);
    }
  }

  lemma StaysFinished(reqs: seq<Request>, more: seq<Request>)
    ensures var ts, ts' := At(reqs, |reqs|).tasks, At(reqs + more, |reqs + more|).tasks;
            forall k :: 0 <= k < |ts| && ts[k].state.Finished? ==> k < |ts'| && ts'[k].state.Finished?
  {
    hide At;
    AtPrefix(reqs, more, |reqs|);
    forall k: nat | k < |At(reqs, |reqs|).tasks| && At(reqs, |reqs|).tasks[k].state.Finished?
      ensures k < |At(reqs + more, |reqs + more|).tasks|
      ensures At(reqs + more, |reqs + more|).tasks[k].state.Finished?
    {
      FinalForever(reqs + more, |reqs|, |reqs + more|, k);
    }
  }

  /** Every task that has not ended after `reqs` has finished after `more` has followed. */
  ghost predicate Finishes(reqs: seq<Request>, more: seq<Request>) {
    var ts, ts' := At(reqs, |reqs|).tasks, At(reqs + more, |reqs + more|).tasks;
    forall k :: 0 <= k < |ts| && Live(ts[k].state) ==> k < |ts'| && ts'[k].state.Finished?
  }

  /** All tasks that have not ended can still finish, by whatever requests, if and only if each of them names a queue. */
  lemma FinishableIff(reqs: seq<Request>)
    ensures (exists more :: Finishes(reqs, more)) <==> LiveQueued(At(reqs, |reqs|).tasks)
  {
    hide At;
    if LiveQueued(At(reqs, |reqs|).tasks) {
      var more := CanFinish(reqs);
    } else {
      var k :| 0 <= k < |At(reqs, |reqs|).tasks| && Live(At(reqs, |reqs|).tasks[k].state)
               && At(reqs, |reqs|).tasks[k].queues == [];
      forall more
        ensures !Finishes(reqs, more)
      {
        AtPrefix(reqs, more, |reqs|);
        RowOverRun(reqs + more, |reqs|, |reqs + more|, k);
        QueuelessNeverRuns(reqs + more, |reqs + more|, k);
      }
    }
  }

  // ---------- The counts ----------

  lemma {:induction false} CountsCover(ts: seq<Task>, n: nat)
    requires n <= |ts| && forall k :: 0 <= k < n ==> !ts[k].state.Undefined?
    ensures var c := CountsOf(ts[..n]); c.waiting + c.ready + c.running + c.finished + c.failed + c.canceled == n
  {
    if n > 0 {
      CountsCover(ts, n - 1);
      Coupling.CountOneMore(ts, n - 1);
    }
  }
}
