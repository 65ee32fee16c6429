/** What holds over whole runs of requests, whatever the requests are. */
module SchedulerRuns {
  import opened TaskTypes
  import opened Scheduler
  import opened SchedulerInvariant

  // ---------- How one step moves one row ----------

  /** The moves a task can make in one step; staying put is one of them. */
  ghost predicate CanMove(from: TaskState, to: TaskState) {
    || to == from
    || (from.Waiting? && (to.Ready? || Bad(to)))
    || (from.Ready? && (to.Running? || to.Canceled?))
    || (from.Running? && Final(to))
  }

  /** What a step may do to one task: nothing it was added with changes, and once it has ended only its priority can. */
  ghost predicate RowSteps(a: Task, b: Task) {
    && b.id == a.id && b.parents == a.parents && b.queues == a.queues && b.fn == a.fn && b.input == a.input
    && CanMove(a.state, b.state)
    && (Final(a.state) ==> b == a.(priority := b.priority))
  }

  lemma EndMovesRow(s: Sched, i: nat, st: TaskState, worker: string, output: string, k: nat)
    requires i < |s.tasks| && k < |s.tasks|
    requires (s.tasks[i].state.Running? && Bad(st)) || (Live(s.tasks[i].state) && st.Canceled?)
    ensures RowSteps(s.tasks[k], End(s.tasks, i, st, worker, output)[k])
  {
    hide End, Descends;
    EndAt(s, i, st, worker, output, k);
  }

  lemma FinishMovesRow(s: Sched, i: nat, output: string, k: nat)
    requires i < |s.tasks| && k < |s.tasks| && s.tasks[i].state.Running?
    ensures RowSteps(s.tasks[k], Release(Finish(s.tasks, i, output), s.clock)[k])
  {
    hide AllFinished;
  }

  /** Every step leaves every task where it was, or moves it on. */
  lemma StepMovesRow(s: Sched, r: Request, k: nat)
    requires Inv(s) && k < |s.tasks|
    ensures k < |Step(s, r).next.tasks| && RowSteps(s.tasks[k], Step(s, r).next.tasks[k])
  {
    hide Inv, Distinct, End, Release, Finish, Resolve, NewState, NewOrigin, NewOutput;
    match r
    case Done(id, worker, output, failed) =>
      var f := Find(s.tasks, id);
      if f.Some? && s.tasks[f.value].state.Running? && s.tasks[f.value].worker == worker {
        if failed {
          EndMovesRow(s, f.value, Failed, worker, output, k);
        } else {
          FinishMovesRow(s, f.value, output, k);
        }
      }
    case Cancel(id) =>
      var f := Find(s.tasks, id);
      if f.Some? && Live(s.tasks[f.value].state) {
        EndMovesRow(s, f.value, Canceled, "", CANCELED_OUTPUT, k);
      }
    case _ =>
  }

  /** Rows are never removed, and over any stretch of a run a task only moves on. */
  lemma {:induction false} RowOverRun(reqs: seq<Request>, i: nat, j: nat, k: nat)
    requires i <= j <= |reqs| && k < |At(reqs, i).tasks|
    ensures k < |At(reqs, j).tasks|
    ensures var a, b := At(reqs, i).tasks[k], At(reqs, j).tasks[k];
            && b.id == a.id && b.parents == a.parents && b.queues == a.queues && b.fn == a.fn && b.input == a.input
            && Rank(b.state) <= Rank(a.state)
            && (Rank(b.state) == Rank(a.state) ==> b.state == a.state)
            && (Final(a.state) ==> b == a.(priority := b.priority))
    decreases j
  {
    hide Step, Inv;
    if i < j {
      RowOverRun(reqs, i, j - 1, k);
      RunKeepsInv(reqs, j - 1);
      StepMovesRow(At(reqs, j - 1), reqs[j - 1], k);
    }
  }

  // ---------- Finality ----------

  /** Once a task has ended, its state, output, origin and worker never change again. */
  lemma FinalForever(reqs: seq<Request>, i: nat, j: nat, k: nat)
    requires i <= j <= |reqs| && k < |At(reqs, i).tasks| && Final(At(reqs, i).tasks[k].state)
    ensures k < |At(reqs, j).tasks|
    ensures var a, b := At(reqs, i).tasks[k], At(reqs, j).tasks[k];
            b.state == a.state && b.output == a.output && b.origin == a.origin && b.worker == a.worker
  {
    RowOverRun(reqs, i, j, k);
  }

  // ---------- Progress ----------

  function Rank(st: TaskState): nat {
    match st
    case Waiting => 3
    case Ready => 2
    case Running => 1
    case _ => 0
  }

  ghost function Potential(ts: seq<Task>, n: nat): nat
    requires n <= |ts|
  {
    if n == 0 then 0 else Potential(ts, n - 1) + Rank(ts[n - 1].state)
  }

  /** The step changes the state of a task that was there before it. */
  ghost predicate Effective(s: Sched, r: Request) {
    var s' := Step(s, r).next;
    exists k: nat :: k < |s.tasks| && k < |s'.tasks| && s'.tasks[k].state != s.tasks[k].state
  }

  ghost function EffectiveSteps(reqs: seq<Request>, n: nat): nat
    requires n <= |reqs|
  {
    if n == 0 then 0 else EffectiveSteps(reqs, n - 1) + if Effective(At(reqs, n - 1), reqs[n - 1]) then 1 else 0
  }

  ghost function AddedTasks(reqs: seq<Request>, n: nat): nat
    requires n <= |reqs|
  {
    if n == 0 then 0
    else AddedTasks(reqs, n - 1) + if reqs[n - 1].Add? && ReplyAt(reqs, n - 1).Accepted? then 1 else 0
  }

  lemma {:induction false} PotentialFalls(ts: seq<Task>, ts': seq<Task>, n: nat)
    requires n <= |ts| && n <= |ts'|
    requires forall k: nat :: k < n ==> CanMove(ts[k].state, ts'[k].state)
    ensures Potential(ts', n) <= Potential(ts, n)
    ensures (exists k: nat :: k < n && ts'[k].state != ts[k].state) ==> Potential(ts', n) < Potential(ts, n)
  {
    if n > 0 {
      PotentialFalls(ts, ts', n - 1);
    }
  }

  /** Only task_add appends a row, and only when it is accepted. */
  lemma StepAddsAtMostOne(s: Sched, r: Request)
    ensures |Step(s, r).next.tasks| == |s.tasks| + if r.Add? && Step(s, r).reply.Accepted? then 1 else 0
  {}

  /** A step that moves a task brings the tasks closer to their end; none ever takes one further from it. */
  lemma StepLowersPotential(s: Sched, r: Request)
    requires Inv(s)
    ensures var ts, ts' := s.tasks, Step(s, r).next.tasks;
            && |ts| <= |ts'|
            && Potential(ts', |ts|) + (if Effective(s, r) then 1 else 0) <= Potential(ts, |ts|)
  {
    StepAddsAtMostOne(s, r);
    forall k: nat | k < |s.tasks|
      ensures CanMove(s.tasks[k].state, Step(s, r).next.tasks[k].state)
    {
      StepMovesRow(s, r, k);
    }
    PotentialFalls(s.tasks, Step(s, r).next.tasks, |s.tasks|);
  }

  /** A run that adds N tasks has at most 3N effective steps, however long it is. */
  lemma {:induction false} ProgressBound(reqs: seq<Request>, n: nat)
    requires n <= |reqs|
    ensures |At(reqs, n).tasks| == AddedTasks(reqs, n)
    ensures EffectiveSteps(reqs, n) + Potential(At(reqs, n).tasks, |At(reqs, n).tasks|) <= 3 * AddedTasks(reqs, n)
  {
    hide Step, Inv, Effective;
    if n > 0 {
      ProgressBound(reqs, n - 1);
      RunKeepsInv(reqs, n - 1);
      StepAddsAtMostOne(At(reqs, n - 1), reqs[n - 1]);
      StepLowersPotential(At(reqs, n - 1), reqs[n - 1]);
    }
  }

  // ---------- Dispatch and ownership ----------

  /** Step `i` hands task `k` to `worker`. */
  ghost predicate ClaimedAt(reqs: seq<Request>, i: nat, k: nat, worker: string) {
    && i < |reqs| && k < |At(reqs, i).tasks|
    && reqs[i].Get? && reqs[i].worker == worker
    && var t := At(reqs, i).tasks[k]; ReplyAt(reqs, i) == Claimed(t.id, t.fn, t.input)
  }

  /** What a claim does, seen from the reply alone. */
  lemma ClaimMakesRunning(reqs: seq<Request>, i: nat, k: nat, worker: string)
    requires ClaimedAt(reqs, i, k, worker)
    ensures At(reqs, i).tasks[k].state.Ready?
    ensures At(reqs, i + 1).tasks == At(reqs, i).tasks[k := At(reqs, i).tasks[k].(state := Running, worker := worker)]
  {
    RunKeepsInv(reqs, i);
    var ts, b := At(reqs, i).tasks, Choice(At(reqs, i).tasks, reqs[i].queues);
    FindIsUnique(ts, k);
    FindIsUnique(ts, b.value);
  }

  /** No task is handed out twice. */
  lemma AtMostOneClaim(reqs: seq<Request>, i: nat, j: nat, k: nat, w: string, w': string)
    requires ClaimedAt(reqs, i, k, w) && ClaimedAt(reqs, j, k, w')
    ensures i == j && w == w'
  {
    hide Step, Inv, Choice;
    ClaimMakesRunning(reqs, i, k, w);
    ClaimMakesRunning(reqs, j, k, w');
    if i < j {
      RowOverRun(reqs, i + 1, j, k);
    } else if j < i {
      RowOverRun(reqs, j + 1, i, k);
    }
  }

  lemma AddedIsNotRunning(s: Sched, r: Request)
    ensures var ts := Step(s, r).next.tasks;
            |ts| <= |s.tasks| + 1 && (|ts| > |s.tasks| ==> !ts[|s.tasks|].state.Running?)
  {}

  /** A Running task is held by the worker it was handed to. */
  lemma {:induction false} HolderClaimed(reqs: seq<Request>, n: nat, k: nat)
    requires n <= |reqs| && k < |At(reqs, n).tasks| && At(reqs, n).tasks[k].state.Running?
    ensures exists i: nat :: i < n && ClaimedAt(reqs, i, k, At(reqs, n).tasks[k].worker)
    decreases n
  {
    hide Step, Inv, RowOk;
    var s, r, t := At(reqs, n - 1), reqs[n - 1], At(reqs, n).tasks[k];
    RunKeepsInv(reqs, n - 1);
    AddedIsNotRunning(s, r);
    if k < |s.tasks| {
      StepMovesRow(s, r, k);
      RunningOnlyByGet(s, r, k);
      if s.tasks[k].state.Running? {
        HolderClaimed(reqs, n - 1, k);
        var i: nat :| i < n - 1 && ClaimedAt(reqs, i, k, s.tasks[k].worker);
      } else {
        assert ClaimedAt(reqs, n - 1, k, t.worker);
      }
    }
  }

  /** A row becomes Running only when task_get hands it out, and keeps its holder while it stays Running. */
  lemma RunningOnlyByGet(s: Sched, r: Request, k: nat)
    requires Inv(s) && k < |s.tasks| && k < |Step(s, r).next.tasks| && Step(s, r).next.tasks[k].state.Running?
    ensures var t, t' := s.tasks[k], Step(s, r).next.tasks[k];
            if t.state.Running? then t'.worker == t.worker
            else r.Get? && t'.worker == r.worker && Step(s, r).reply == Claimed(t.id, t.fn, t.input)
  {
    StepMovesRow(s, r, k);
    match r
    case Done(id, worker, output, failed) =>
      var f := Find(s.tasks, id);
      if f.Some? && s.tasks[f.value].state.Running? && s.tasks[f.value].worker == worker && failed {
        EndAt(s, f.value, Failed, worker, output, k);
      }
    case Cancel(id) =>
      var f := Find(s.tasks, id);
      if f.Some? && Live(s.tasks[f.value].state) {
        EndAt(s, f.value, Canceled, "", CANCELED_OUTPUT, k);
      }
    case _ =>
  }

  /** Task `k` ended by itself: it finished, or it is the origin of its own failure. */
  ghost predicate EndedByReport(t: Task, k: nat) {
    t.state.Finished? || (t.state.Failed? && t.origin == k)
  }

  /** Step `j` is the report that ends task `k`. */
  ghost predicate ReportedAt(reqs: seq<Request>, j: nat, k: nat, worker: string, output: string, failed: bool) {
    && j < |reqs| && k < |At(reqs, j).tasks|
    && reqs[j] == Done(At(reqs, j).tasks[k].id, worker, output, failed)
    && At(reqs, j).tasks[k].state.Running? && At(reqs, j).tasks[k].worker == worker
  }

  /** A task added as Failed or Canceled blames a task that was there before it. */
  lemma InheritsFromOlder(s: Sched, r: Request)
    requires Inv(s) && r.Add?
    ensures var o := AddStep(s, r);
            o.reply.Accepted? && Bad(o.next.tasks[|s.tasks|].state) ==> o.next.tasks[|s.tasks|].origin < |s.tasks|
  {
    if AddStep(s, r).reply.Accepted? {
      var t := AddStep(s, r).next.tasks[|s.tasks|];
      if Bad(t.state) {
        assert RowOk(s.tasks, s.clock, FirstIn(s.tasks, t.parents, t.state).value);
      }
    }
  }

  /** A step that ends a task by report is task_done from its holder, and stores what that reported. */
  lemma EndsOnlyByDone(s: Sched, r: Request, k: nat)
    requires Inv(s) && k < |Step(s, r).next.tasks|
    requires EndedByReport(Step(s, r).next.tasks[k], k)
    requires k < |s.tasks| ==> !Final(s.tasks[k].state)
    ensures k < |s.tasks|
    ensures var t, t' := s.tasks[k], Step(s, r).next.tasks[k];
            && t.state.Running? && r == Done(t.id, t.worker, t'.output, t'.state.Failed?)
  {
    match r
    case Add(_, _, _, _, _, _) => InheritsFromOlder(s, r);
    case Done(id, worker, output, failed) =>
      var f := Find(s.tasks, id);
      if f.Some? && s.tasks[f.value].state.Running? && s.tasks[f.value].worker == worker && failed {
        EndAt(s, f.value, Failed, worker, output, k);
      }
    case Cancel(id) =>
      var f := Find(s.tasks, id);
      if f.Some? && Live(s.tasks[f.value].state) {
        EndAt(s, f.value, Canceled, "", CANCELED_OUTPUT, k);
      }
    case _ =>
  }

  /** A task that ended by report was handed to one worker, and that worker's report is what ended it. */
  lemma {:induction false} EndedByItsHolder(reqs: seq<Request>, n: nat, k: nat)
    requires n <= |reqs| && k < |At(reqs, n).tasks| && EndedByReport(At(reqs, n).tasks[k], k)
    ensures var t := At(reqs, n).tasks[k];
            exists i: nat, j: nat, worker: string ::
              i < j < n && ClaimedAt(reqs, i, k, worker) && ReportedAt(reqs, j, k, worker, t.output, t.state.Failed?)
    decreases n
  {
    hide Step, Inv, RowOk;
    var s, r, t := At(reqs, n - 1), reqs[n - 1], At(reqs, n).tasks[k];
    RunKeepsInv(reqs, n - 1);
    if k < |s.tasks| && Final(s.tasks[k].state) {
      StepMovesRow(s, r, k);
      EndedByItsHolder(reqs, n - 1, k);
      var i: nat, j: nat, worker: string :|
        i < j < n - 1 && ClaimedAt(reqs, i, k, worker) && ReportedAt(reqs, j, k, worker, t.output, t.state.Failed?);
    } else {
      EndsOnlyByDone(s, r, k);
      HolderClaimed(reqs, n - 1, k);
      var i: nat :| i < n - 1 && ClaimedAt(reqs, i, k, s.tasks[k].worker);
      assert ReportedAt(reqs, n - 1, k, s.tasks[k].worker, t.output, t.state.Failed?);
    }
  }
}
