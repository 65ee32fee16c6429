/** What the dependency graph guarantees: where a task starts, who may run, what moves a waiting task, who is blamed. */
module SchedulerDependencies {
  import opened TaskTypes
  import opened Scheduler
  import opened SchedulerInvariant
  import opened SchedulerRuns

  // ---------- Where a task starts ----------

  /** Parent `j` of task `t` is the first one in the state that `t` ends in, and `t` blames whom that one blames. */
  ghost predicate DecidedBy(ts: seq<Task>, t: Task, j: nat) {
    && j < |t.parents| && t.parents[j] < |ts|
    && ts[t.parents[j]].state == t.state && t.origin == ts[t.parents[j]].origin
    && forall i :: 0 <= i < j ==> t.parents[i] < |ts| && ts[t.parents[i]].state != t.state
  }

  lemma {:induction false} FirstIsFirst(ts: seq<Task>, ps: seq<nat>, st: TaskState) returns (j: nat)
    requires InRange(ps, |ts|) && FirstIn(ts, ps, st).Some?
    ensures j < |ps| && FirstIn(ts, ps, st) == Some(ps[j]) && ts[ps[j]].state == st
    ensures forall i :: 0 <= i < j ==> ts[ps[i]].state != st
  {
    var rest := ps[..|ps| - 1];
    if FirstIn(ts, rest, st).Some? {
      j := FirstIsFirst(ts, rest, st);
    } else {
      j := |ps| - 1;
      assert forall i :: 0 <= i < j ==> rest[i] == ps[i] && rest[i] in rest;
    }
  }

  /**
  An accepted task holds what the request says, and as parents the rows that its parent ids name. It
  starts Failed exactly when a parent has failed, else Canceled exactly when one was canceled, else Ready
  exactly when all have finished. An ending it starts with is that of the first parent that ended that way.
  */
  lemma AddDecides(s: Sched, r: Request)
    requires Inv(s) && r.Add? && AddStep(s, r).reply.Accepted?
    ensures var ts, n := AddStep(s, r).next.tasks, |s.tasks|;
            && |ts| == n + 1 && ts[..n] == s.tasks && ts[n].id == r.id
            && (forall k :: 0 <= k < n ==> s.tasks[k].id != r.id)
            && |ts[n].parents| == |r.parentIds|
            && (forall j :: 0 <= j < |r.parentIds| ==> ts[n].parents[j] < n && ts[ts[n].parents[j]].id == r.parentIds[j])
            && var t := ts[n];
               && t.queues == r.queues && t.fn == r.fn && t.input == r.input && t.priority == r.priority
               && t.state in {Waiting, Ready, Failed, Canceled} && t.worker == ""
               && (t.state.Failed? <==> exists p: nat :: p in t.parents && ts[p].state.Failed?)
               && (t.state.Canceled? <==> !t.state.Failed? && exists p: nat :: p in t.parents && ts[p].state.Canceled?)
               && (t.state.Ready? <==> forall p: nat :: p in t.parents ==> ts[p].state.Finished?)
               && (Live(t.state) ==> t.origin == n)
               && (Bad(t.state) ==> t.origin < n && ts[t.origin].state == t.state && Descends(ParentsOf(ts), n, t.origin))
               && (Bad(t.state) ==> exists j :: 0 <= j < |t.parents| && DecidedBy(ts, t, j))
  {
    NewRowOk(s, r);
    InheritsFromOlder(s, r);
    var ts, n := AddStep(s, r).next.tasks, |s.tasks|;
    var t := ts[n];
    if Bad(t.state) {
      var j := FirstIsFirst(s.tasks, t.parents, t.state);
      assert DecidedBy(ts, t, j);
    }
    forall p: nat | p in ts[n].parents
      ensures p < n && ts[p] == s.tasks[p]
    {}
  }

  // ---------- Who may run ----------

  /** A task that may run has nothing unfinished above it, however far up. */
  lemma {:induction false} AncestorsFinished(s: Sched, k: nat, a: nat)
    requires Inv(s) && k < |s.tasks| && Descends(ParentsOf(s.tasks), k, a)
    requires s.tasks[k].state.Ready? || s.tasks[k].state.Running? || s.tasks[k].state.Finished?
    ensures a < k && s.tasks[a].state.Finished?
    decreases k
  {
    assert RowOk(s.tasks, s.clock, k);
    var p: nat :| p in ParentsOf(s.tasks)[k] && p < k && (p == a || Descends(ParentsOf(s.tasks), p, a));
    if p != a {
      AncestorsFinished(s, p, a);
    }
  }

  /** A task that waits has an unfinished parent to wait for, and no parent that ended badly. */
  lemma WaitingHasLiveParent(s: Sched, k: nat) returns (p: nat)
    requires Inv(s) && k < |s.tasks| && s.tasks[k].state.Waiting?
    ensures p < k && p in s.tasks[k].parents && Live(s.tasks[p].state)
    ensures forall x: nat :: x in s.tasks[k].parents ==> x < k && !Bad(s.tasks[x].state)
  {
    assert RowOk(s.tasks, s.clock, k);
    p :| p in s.tasks[k].parents && !s.tasks[p].state.Finished?;
    assert RowOk(s.tasks, s.clock, p);
  }

  // ---------- Who cannot run ----------

  lemma {:induction false} DescendantOfBadIsBad(s: Sched, k: nat, a: nat)
    requires Inv(s) && k < |s.tasks| && Descends(ParentsOf(s.tasks), k, a)
    requires a < |s.tasks| && Bad(s.tasks[a].state)
    ensures Bad(s.tasks[k].state)
    decreases k
  {
    assert RowOk(s.tasks, s.clock, k);
    var p: nat :| p in ParentsOf(s.tasks)[k] && p < k && (p == a || Descends(ParentsOf(s.tasks), p, a));
    if p != a {
      DescendantOfBadIsBad(s, p, a);
    }
    assert p in s.tasks[k].parents && Bad(s.tasks[p].state);
  }

  /** Once a task has failed or been canceled, every task that depends on it has too, also one added later. */
  lemma BadEndingSpreads(reqs: seq<Request>, i: nat, j: nat, a: nat, k: nat)
    requires i <= j <= |reqs| && a < |At(reqs, i).tasks| && Bad(At(reqs, i).tasks[a].state)
    requires k < |At(reqs, j).tasks| && Descends(ParentsOf(At(reqs, j).tasks), k, a)
    ensures Bad(At(reqs, j).tasks[k].state)
  {
    hide Step, Inv;
    RunKeepsInv(reqs, j);
    FinalForever(reqs, i, j, a);
    DescendantOfBadIsBad(At(reqs, j), k, a);
  }

  // ---------- Which step moves a waiting task ----------

  /** The request is the report of the worker holding row `i`. */
  ghost predicate Reports(s: Sched, r: Request, i: nat) {
    && r.Done? && i < |s.tasks| && r.id == s.tasks[i].id
    && s.tasks[i].state.Running? && s.tasks[i].worker == r.worker
  }

  /**
  A waiting task is released exactly by the successful report of its last unfinished parent, whether it
  named that parent once or more often.
  */
  lemma ReleasedIff(s: Sched, r: Request, k: nat)
    requires Inv(s) && k < |s.tasks| && s.tasks[k].state.Waiting?
    ensures k < |Step(s, r).next.tasks|
    ensures Step(s, r).next.tasks[k].state.Ready? <==>
            exists i: nat :: Reports(s, r, i) && !r.failed && i in s.tasks[k].parents
              && forall p: nat :: p in s.tasks[k].parents && p != i ==> p < k && s.tasks[p].state.Finished?
  {
    hide Inv, AddStep, GetStep, CancelStep, SetPriorityStep, End;
    WaitingStays(s, r, k);
    WaitingHasParents(s, k);
    if r.Done? {
      ReportIsFound(s, r);
      var f := Find(s.tasks, r.id);
      if f.Some? && Reports(s, r, f.value) && !r.failed {
        ReleasedByFinish(s, f.value, r.output, k);
      }
    }
  }

  lemma WaitingHasParents(s: Sched, k: nat)
    requires Inv(s) && k < |s.tasks| && s.tasks[k].state.Waiting?
    ensures !AllFinished(s.tasks, s.tasks[k].parents)
    ensures forall p: nat :: p in s.tasks[k].parents ==> p < k
  {
    assert RowOk(s.tasks, s.clock, k);
  }

  lemma ReportIsFound(s: Sched, r: Request)
    requires Inv(s) && r.Done?
    ensures forall i: nat :: Reports(s, r, i) ==> Find(s.tasks, r.id) == Some(i)
  {}

  /** No request but a report or a cancellation moves a waiting task. */
  lemma WaitingStays(s: Sched, r: Request, k: nat)
    requires Inv(s) && k < |s.tasks| && s.tasks[k].state.Waiting?
    ensures k < |Step(s, r).next.tasks|
    ensures !r.Done? && !r.Cancel? ==> Step(s, r).next.tasks[k].state.Waiting?
    ensures r.Done? && r.failed ==> !Step(s, r).next.tasks[k].state.Ready?
    ensures r.Cancel? ==> !Step(s, r).next.tasks[k].state.Ready?
  {
    StepMovesRow(s, r, k);
    if r.Done? || r.Cancel? {
      var f := Find(s.tasks, r.id);
      if r.Done? && r.failed && f.Some? {
        EndAt(s, f.value, Failed, r.worker, r.output, k);
      } else if r.Cancel? && f.Some? {
        EndAt(s, f.value, Canceled, "", CANCELED_OUTPUT, k);
      }
    }
  }

  lemma ReleasedByFinish(s: Sched, i: nat, output: string, k: nat)
    requires i < |s.tasks| && k < |s.tasks| && s.tasks[i].state.Running? && s.tasks[k].state.Waiting?
    requires !AllFinished(s.tasks, s.tasks[k].parents)
    requires forall p: nat :: p in s.tasks[k].parents ==> p < k
    ensures var ts := Finish(s.tasks, i, output);
            Release(ts, s.clock)[k].state.Ready? <==>
            && i in s.tasks[k].parents
            && forall p: nat :: p in s.tasks[k].parents && p != i ==> p < k && s.tasks[p].state.Finished?
  {
    var ts := Finish(s.tasks, i, output);
    forall p: nat | p in s.tasks[k].parents
      ensures ts[p].state.Finished? <==> p == i || s.tasks[p].state.Finished?
    {}
  }

  /** The request ends row `a` badly: it reports its failure or cancels it. */
  ghost predicate EndsBadly(s: Sched, r: Request, a: nat) {
    || (Reports(s, r, a) && r.failed)
    || (r.Cancel? && a < |s.tasks| && r.id == s.tasks[a].id && Live(s.tasks[a].state))
  }

  /** A waiting task ends exactly when the request cancels it, or ends badly something it depends on. */
  lemma TakenDownIff(s: Sched, r: Request, k: nat)
    requires Inv(s) && k < |s.tasks| && s.tasks[k].state.Waiting?
    ensures k < |Step(s, r).next.tasks|
    ensures Bad(Step(s, r).next.tasks[k].state) <==>
            exists a: nat :: EndsBadly(s, r, a) && (a == k || Descends(ParentsOf(s.tasks), k, a))
  {
    hide AddStep, GetStep, SetPriorityStep, End;
    WaitingStays(s, r, k);
    if r.Done? || r.Cancel? {
      var f := Find(s.tasks, r.id);
      if f.Some? {
        assert forall a: nat :: EndsBadly(s, r, a) ==> a == f.value;
        if EndsBadly(s, r, f.value) {
          if r.Done? {
            EndAt(s, f.value, Failed, r.worker, r.output, k);
          } else {
            EndAt(s, f.value, Canceled, "", CANCELED_OUTPUT, k);
          }
        }
      }
    }
  }

  // ---------- Who is blamed ----------

  /** Step `j` is the cancellation that ends task `k`. */
  ghost predicate CanceledAt(reqs: seq<Request>, j: nat, k: nat) {
    && j < |reqs| && k < |At(reqs, j).tasks|
    && reqs[j] == Cancel(At(reqs, j).tasks[k].id) && ReplyAt(reqs, j) == CancelResult(true)
  }

  ghost predicate EndedByCancel(t: Task, k: nat) {
    t.state.Canceled? && t.origin == k
  }

  lemma EndsOnlyByCancel(s: Sched, r: Request, k: nat)
    requires Inv(s) && k < |Step(s, r).next.tasks|
    requires EndedByCancel(Step(s, r).next.tasks[k], k)
    requires k < |s.tasks| ==> !Final(s.tasks[k].state)
    ensures k < |s.tasks| && r == Cancel(s.tasks[k].id) && Step(s, r).reply == CancelResult(true)
  {
    match r
    case Add(_, _, _, _, _, _) => InheritsFromOlder(s, r);
    case Done(id, worker, output, failed) =>
      var f := Find(s.tasks, id);
      if f.Some? && failed {
        EndAt(s, f.value, Failed, worker, output, k);
      }
    case Cancel(id) =>
      var f := Find(s.tasks, id);
      if f.Some? && Live(s.tasks[f.value].state) {
        EndAt(s, f.value, Canceled, "", CANCELED_OUTPUT, k);
      }
    case _ =>
  }

  lemma {:induction false} EndedByItsCancel(reqs: seq<Request>, n: nat, k: nat)
    requires n <= |reqs| && k < |At(reqs, n).tasks| && EndedByCancel(At(reqs, n).tasks[k], k)
    ensures exists j: nat :: j < n && CanceledAt(reqs, j, k)
    decreases n
  {
    hide Step, Inv, RowOk;
    var s, r := At(reqs, n - 1), reqs[n - 1];
    RunKeepsInv(reqs, n - 1);
    if k < |s.tasks| && Final(s.tasks[k].state) {
      StepMovesRow(s, r, k);
      EndedByItsCancel(reqs, n - 1, k);
      var j: nat :| j < n - 1 && CanceledAt(reqs, j, k);
    } else {
      EndsOnlyByCancel(s, r, k);
      assert CanceledAt(reqs, n - 1, k);
    }
  }

  /**
  A task that failed or was canceled blames one task: itself, or one it depends on. That one ended the
  same way on its own account, and a task that inherited a failure names it in its output.
  */
  lemma OriginInState(s: Sched, k: nat)
    requires Inv(s) && k < |s.tasks|
    ensures var t := s.tasks[k];
            && t.origin <= k
            && s.tasks[t.origin].origin == t.origin
            && (t.origin != k ==>
                  && Bad(t.state) && Descends(ParentsOf(s.tasks), k, t.origin)
                  && s.tasks[t.origin].state == t.state
                  && (t.state.Failed? ==> t.output == "Dependency failed (task_id=" + s.tasks[t.origin].id + ")")
                  && (t.state.Canceled? ==> t.output == "Task canceled"))
  {
    assert RowOk(s.tasks, s.clock, k);
  }

  /** The task blamed for a failure was reported failed by the worker it had been handed to. */
  lemma FailureWasReported(reqs: seq<Request>, n: nat, k: nat)
    requires n <= |reqs| && k < |At(reqs, n).tasks| && At(reqs, n).tasks[k].state.Failed?
    ensures var o := At(reqs, n).tasks[k].origin;
            exists i: nat, j: nat, worker: string, output: string ::
              i < j < n && ClaimedAt(reqs, i, o, worker) && ReportedAt(reqs, j, o, worker, output, true)
  {
    RunKeepsInv(reqs, n);
    hide Step, Inv;
    OriginInState(At(reqs, n), k);
    var o := At(reqs, n).tasks[k].origin;
    EndedByItsHolder(reqs, n, o);
    var i: nat, j: nat, worker: string :|
      i < j < n && ClaimedAt(reqs, i, o, worker) && ReportedAt(reqs, j, o, worker, At(reqs, n).tasks[o].output, true);
  }

  /** The task blamed for a cancellation was canceled by name. */
  lemma CancellationWasRequested(reqs: seq<Request>, n: nat, k: nat)
    requires n <= |reqs| && k < |At(reqs, n).tasks| && At(reqs, n).tasks[k].state.Canceled?
    ensures exists j: nat :: j < n && CanceledAt(reqs, j, At(reqs, n).tasks[k].origin)
  {
    RunKeepsInv(reqs, n);
    hide Step, Inv;
    OriginInState(At(reqs, n), k);
    EndedByItsCancel(reqs, n, At(reqs, n).tasks[k].origin);
  }

  /** A task that is Running ends by its own report or by being canceled, never because of another task. */
  lemma RunningEndsOnItsOwn(s: Sched, r: Request, k: nat)
    requires Inv(s) && k < |s.tasks| && s.tasks[k].state.Running?
    ensures k < |Step(s, r).next.tasks|
    ensures var t := Step(s, r).next.tasks[k]; t.state.Running? || t.state.Finished? || (Bad(t.state) && t.origin == k)
  {
    hide Inv, RowOk, Distinct, AddStep;
    StepMovesRow(s, r, k);
    if r.Add? {
      AddLeavesRow(s, r, k);
    } else if r.Done? && r.failed {
      var f := Find(s.tasks, r.id);
      if f.Some? {
        EndAt(s, f.value, Failed, r.worker, r.output, k);
      }
    } else if r.Cancel? {
      var f := Find(s.tasks, r.id);
      if f.Some? {
        EndAt(s, f.value, Canceled, "", CANCELED_OUTPUT, k);
      }
    }
  }

  lemma AddLeavesRow(s: Sched, r: Request, k: nat)
    requires r.Add? && k < |s.tasks|
    ensures k < |AddStep(s, r).next.tasks| && AddStep(s, r).next.tasks[k] == s.tasks[k]
  {}

  lemma {:induction false} ClaimedIsOwnOrigin(reqs: seq<Request>, i: nat, n: nat, k: nat, worker: string)
    requires i < n <= |reqs| && ClaimedAt(reqs, i, k, worker)
    ensures k < |At(reqs, n).tasks|
    ensures var t := At(reqs, n).tasks[k]; t.state.Running? || t.state.Finished? || (Bad(t.state) && t.origin == k)
    decreases n
  {
    hide Step, Inv;
    ClaimMakesRunning(reqs, i, k, worker);
    if i + 1 < n {
      ClaimedIsOwnOrigin(reqs, i, n - 1, k, worker);
      RunKeepsInv(reqs, n - 1);
      StepMovesRow(At(reqs, n - 1), reqs[n - 1], k);
      if At(reqs, n - 1).tasks[k].state.Running? {
        RunningEndsOnItsOwn(At(reqs, n - 1), reqs[n - 1], k);
      }
    }
  }

  /** Some worker was handed the task, and reported it failed. */
  ghost predicate HandedBack(reqs: seq<Request>, n: nat, k: nat) {
    exists i: nat, j: nat, worker: string, output: string ::
      i < j < n && ClaimedAt(reqs, i, k, worker) && ReportedAt(reqs, j, k, worker, output, true)
  }

  /**
  A Failed task was handed to a worker if and only if it is its own origin, and then that worker handed it
  back. Every other Failed task ended with one it depends on, and no worker ever held it.
  */
  lemma FailedByWorkerIff(reqs: seq<Request>, n: nat, k: nat)
    requires n <= |reqs| && k < |At(reqs, n).tasks| && At(reqs, n).tasks[k].state.Failed?
    ensures At(reqs, n).tasks[k].origin == k <==> exists i: nat, worker: string :: i < n && ClaimedAt(reqs, i, k, worker)
    ensures At(reqs, n).tasks[k].origin == k <==> HandedBack(reqs, n, k)
  {
    hide At, ClaimedAt, ReportedAt;
    if At(reqs, n).tasks[k].origin == k {
      FailureWasReported(reqs, n, k);
    }
    forall i: nat, worker: string | i < n && ClaimedAt(reqs, i, k, worker)
      ensures At(reqs, n).tasks[k].origin == k
    {
      ClaimedIsOwnOrigin(reqs, i, n, k, worker);
    }
  }
}
