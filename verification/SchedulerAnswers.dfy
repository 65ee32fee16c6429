/**
What each request answers and stores, said in terms of the tasks alone: which reply, which rows change,
and to what. Then the same over runs: what a task holds goes back to the requests that named it.
*/
module SchedulerAnswers {
  import opened TaskTypes
  import opened Scheduler
  import opened SchedulerInvariant
  import opened SchedulerRuns
  import opened SchedulerOrder
  import opened SchedulerDependencies

  ghost predicate Named(s: Sched, id: string, k: nat) {
    k < |s.tasks| && s.tasks[k].id == id
  }

  ghost predicate Unknown(s: Sched, id: string) {
    forall k: nat :: !Named(s, id, k)
  }

  lemma NamedIsFound(s: Sched, id: string)
    requires Inv(s)
    ensures forall k: nat :: Named(s, id, k) <==> Find(s.tasks, id) == Some(k)
    ensures Unknown(s, id) <==> Find(s.tasks, id) == None
  {
    forall k: nat
      ensures Named(s, id, k) <==> Find(s.tasks, id) == Some(k)
    {
      if Named(s, id, k) {
        FindIsUnique(s.tasks, k);
      }
    }
    if Find(s.tasks, id).Some? {
      assert Named(s, id, Find(s.tasks, id).value);
    }
  }

  // ---------- task_add ----------

  /** A known id is refused first, then an unknown parent; a refusal adds nothing, and any other request is accepted. */
  lemma AddAnswers(s: Sched, r: Request)
    requires Inv(s) && r.Add?
    ensures !Unknown(s, r.id) ==> Step(s, r) == Outcome(s, Refused(AlreadyExists))
    ensures Unknown(s, r.id) && (exists id :: id in r.parentIds && Unknown(s, id)) ==>
              Step(s, r) == Outcome(s, Refused(NotFound))
    ensures Unknown(s, r.id) && (forall id :: id in r.parentIds ==> !Unknown(s, id)) ==> Step(s, r).reply == Accepted
  {
    hide Inv, NewState, NewOrigin, NewOutput;
    NamedIsFound(s, r.id);
    forall id | id in r.parentIds
      ensures Unknown(s, id) <==> Find(s.tasks, id) == None
    {
      NamedIsFound(s, id);
    }
  }

  // ---------- task_get ----------

  /**
  Without a Ready task in any listed queue nothing changes. Otherwise one such task becomes Running for the
  caller, who is told its id, function and input; no other task changes.
  */
  lemma GetAnswers(s: Sched, r: Request)
    requires Inv(s) && r.Get?
    ensures (forall x: nat, q :: q in r.queues ==> !Offers(s.tasks, q, x)) ==>
              Step(s, r) == Outcome(s, Refused(NotFound))
    ensures (exists x: nat, q :: q in r.queues && Offers(s.tasks, q, x)) ==>
              exists b: nat, q :: q in r.queues && Offers(s.tasks, q, b)
                && var t := s.tasks[b];
                   Step(s, r) == Outcome(s.(tasks := s.tasks[b := t.(state := Running, worker := r.worker)]),
                                         Claimed(t.id, t.fn, t.input))
  {
    GetFindsBest(s, r.queues);
    hide Inv, Choice;
    var c := Choice(s.tasks, r.queues);
    if c.Some? {
      var j :| 0 <= j < |r.queues| && IsBest(s.tasks, r.queues[j], c.value);
      assert r.queues[j] in r.queues && Offers(s.tasks, r.queues[j], c.value);
    }
  }

  // ---------- task_done and task_cancel ----------

  /** Row `x` after row `k` has ended badly: it ends with it if it waits on it, and is left alone otherwise. */
  ghost predicate EndsWith(s: Sched, x: nat, t: Task, k: nat, st: TaskState, output: string)
    requires x < |s.tasks|
  {
    t == if s.tasks[x].state.Waiting? && Descends(ParentsOf(s.tasks), x, k)
         then s.tasks[x].(state := st, worker := "", output := output, origin := k)
         else s.tasks[x]
  }

  /** A report on a canceled task is accepted and dropped; any other that is not the holder's is refused. */
  lemma ReportAnswers(s: Sched, r: Request, k: nat)
    requires Inv(s) && r.Done? && Named(s, r.id, k)
    ensures var t := s.tasks[k];
            && (t.state.Canceled? ==> Step(s, r) == Outcome(s, Accepted))
            && (!t.state.Canceled? && !Reports(s, r, k) ==> Step(s, r) == Outcome(s, Refused(FailedPrecondition)))
            && (Reports(s, r, k) ==> Step(s, r).reply == Accepted)
  {
    NamedIsFound(s, r.id);
  }

  /** A failure stores what the worker reported, and every task waiting on it fails and names it. */
  lemma FailureStores(s: Sched, r: Request, k: nat)
    requires Inv(s) && Reports(s, r, k) && r.failed
    ensures var t, s' := s.tasks[k], Step(s, r).next;
            && s'.clock == s.clock && |s'.tasks| == |s.tasks|
            && s'.tasks[k] == t.(state := Failed, output := r.output, origin := k)
            && forall x: nat :: x < |s.tasks| && x != k ==>
                 EndsWith(s, x, s'.tasks[x], k, Failed, "Dependency failed (task_id=" + t.id + ")")
  {
    NamedIsFound(s, r.id);
    assert Named(s, r.id, k);
    hide Inv, End;
    EndAt(s, k, Failed, r.worker, r.output, k);
    forall x: nat | x < |s.tasks| && x != k
      ensures EndsWith(s, x, Step(s, r).next.tasks[x], k, Failed, "Dependency failed (task_id=" + s.tasks[k].id + ")")
    {
      EndAt(s, k, Failed, r.worker, r.output, x);
    }
  }

  /** A success stores what the worker reported, and makes Ready the waiting tasks that only it held back. */
  lemma SuccessStores(s: Sched, r: Request, k: nat)
    requires Inv(s) && Reports(s, r, k) && !r.failed
    ensures var t, s' := s.tasks[k], Step(s, r).next;
            && |s'.tasks| == |s.tasks|
            && s'.tasks[k] == t.(state := Finished, output := r.output)
            && forall x: nat :: x < |s.tasks| && x != k ==>
                 s'.tasks[x] == if s.tasks[x].state.Waiting? && s'.tasks[x].state.Ready?
                                then s.tasks[x].(state := Ready, arrival := s'.tasks[x].arrival)
                                else s.tasks[x]
  {
    NamedIsFound(s, r.id);
    assert Named(s, r.id, k);
    hide Inv, AllFinished, ReleasedBefore;
  }

  /** A live task is canceled with every task waiting on it; an ended one is left alone and the caller told so. */
  lemma CancelAnswers(s: Sched, r: Request, k: nat)
    requires Inv(s) && r.Cancel? && Named(s, r.id, k)
    ensures !Live(s.tasks[k].state) ==> Step(s, r) == Outcome(s, CancelResult(false))
    ensures Live(s.tasks[k].state) ==>
              var t, s' := s.tasks[k], Step(s, r).next;
              && Step(s, r).reply == CancelResult(true)
              && s'.clock == s.clock && |s'.tasks| == |s.tasks|
              && s'.tasks[k] == t.(state := Canceled, worker := "", output := "Task canceled", origin := k)
              && forall x: nat :: x < |s.tasks| && x != k ==> EndsWith(s, x, s'.tasks[x], k, Canceled, "Task canceled")
  {
    NamedIsFound(s, r.id);
    hide Inv, End;
    if Live(s.tasks[k].state) {
      EndAt(s, k, Canceled, "", CANCELED_OUTPUT, k);
      forall x: nat | x < |s.tasks| && x != k
        ensures EndsWith(s, x, Step(s, r).next.tasks[x], k, Canceled, "Task canceled")
      {
        EndAt(s, k, Canceled, "", CANCELED_OUTPUT, x);
      }
    }
  }

  // ---------- task_set_priority ----------

  /** The new priority is stored whatever state the task is in, and nothing else changes but a Ready task's arrival. */
  lemma SetPriorityAnswers(s: Sched, r: Request, k: nat)
    requires Inv(s) && r.SetPriority? && Named(s, r.id, k)
    ensures Step(s, r).reply == Accepted
    ensures var t, s' := s.tasks[k], Step(s, r).next;
            && (if t.state.Ready? then s.clock < s'.tasks[k].arrival <= s'.clock else s'.clock == s.clock)
            && s'.tasks == s.tasks[k := t.(priority := r.priority,
                                           arrival := if t.state.Ready? then s'.tasks[k].arrival else t.arrival)]
  {
    NamedIsFound(s, r.id);
  }

  /** Every request but task_add that names an unknown task is refused, and changes nothing. */
  lemma UnknownAnswers(s: Sched, r: Request)
    requires Inv(s)
    requires r.Done? || r.Cancel? || r.SetPriority? || r.GetPriority? || r.GetOutput? || r.GetWorkerId?
    requires Unknown(s, r.id)
    ensures Step(s, r) == Outcome(s, Refused(NotFound))
  {
    NamedIsFound(s, r.id);
  }

  // ---------- The queries ----------

  /** The queries answer what the named task holds, and change nothing. */
  lemma QueryAnswers(s: Sched, id: string, k: nat)
    requires Inv(s) && Named(s, id, k)
    ensures Step(s, GetPriority(id)) == Outcome(s, PriorityIs(s.tasks[k].priority))
    ensures Step(s, GetOutput(id)) == Outcome(s, OutputIs(s.tasks[k].output))
    ensures Step(s, GetWorkerId(id)) == Outcome(s, if s.tasks[k].state.Running? then WorkerIs(s.tasks[k].worker)
                                                   else Refused(FailedPrecondition))
  {
    NamedIsFound(s, id);
  }

  /** task_get_status answers in list order, and reports Undefined for an unknown id. */
  lemma StatusAnswers(s: Sched, ids: seq<string>)
    requires Inv(s)
    ensures var o := Step(s, GetStatus(ids));
            && o.next == s && o.reply.StatesAre? && |o.reply.states| == |ids|
            && forall j :: 0 <= j < |ids| ==>
                 && (Unknown(s, ids[j]) ==> o.reply.states[j] == Undefined)
                 && forall k: nat :: Named(s, ids[j], k) ==> o.reply.states[j] == s.tasks[k].state
  {
    hide Inv;
    forall j | 0 <= j < |ids|
      ensures Unknown(s, ids[j]) ==> StatesOf(s.tasks, ids)[j] == Undefined
      ensures forall k: nat :: Named(s, ids[j], k) ==> StatesOf(s.tasks, ids)[j] == s.tasks[k].state
    {
      NamedIsFound(s, ids[j]);
    }
  }

  /** task_get_count_by_state counts the tasks in each state. */
  lemma CountAnswers(s: Sched)
    ensures var o, ts := Step(s, GetCountByState), s.tasks;
            && o.next == s && o.reply.CountsAre?
            && o.reply.counts.waiting == |set k | 0 <= k < |ts| && ts[k].state.Waiting?|
            && o.reply.counts.ready == |set k | 0 <= k < |ts| && ts[k].state.Ready?|
            && o.reply.counts.running == |set k | 0 <= k < |ts| && ts[k].state.Running?|
            && o.reply.counts.finished == |set k | 0 <= k < |ts| && ts[k].state.Finished?|
            && o.reply.counts.failed == |set k | 0 <= k < |ts| && ts[k].state.Failed?|
            && o.reply.counts.canceled == |set k | 0 <= k < |ts| && ts[k].state.Canceled?|
  {
    var ts := s.tasks;
    assert (set k | 0 <= k < |ts| && ts[k].state.Waiting?) == set k | 0 <= k < |ts| && ts[k].state == Waiting;
    assert (set k | 0 <= k < |ts| && ts[k].state.Ready?) == set k | 0 <= k < |ts| && ts[k].state == Ready;
    assert (set k | 0 <= k < |ts| && ts[k].state.Running?) == set k | 0 <= k < |ts| && ts[k].state == Running;
    assert (set k | 0 <= k < |ts| && ts[k].state.Finished?) == set k | 0 <= k < |ts| && ts[k].state == Finished;
    assert (set k | 0 <= k < |ts| && ts[k].state.Failed?) == set k | 0 <= k < |ts| && ts[k].state == Failed;
    assert (set k | 0 <= k < |ts| && ts[k].state.Canceled?) == set k | 0 <= k < |ts| && ts[k].state == Canceled;
  }

  // ---------- Where what a task holds comes from ----------

  /** Step `i` is the task_add that adds task `k`. */
  ghost predicate AddedAt(reqs: seq<Request>, i: nat, k: nat) {
    i < |reqs| && reqs[i].Add? && ReplyAt(reqs, i) == Accepted && |At(reqs, i).tasks| == k
  }

  lemma {:induction false} RowAppears(reqs: seq<Request>, n: nat, k: nat) returns (i: nat)
    requires n <= |reqs| && k < |At(reqs, n).tasks|
    ensures i < n && AddedAt(reqs, i, k)
  {
    hide Step;
    StepAddsAtMostOne(At(reqs, n - 1), reqs[n - 1]);
    if k < |At(reqs, n - 1).tasks| {
      i := RowAppears(reqs, n - 1, k);
    } else {
      i := n - 1;
    }
  }

  /** Task `t` of `ts` is the one that request `r` describes. */
  ghost predicate AsRequested(ts: seq<Task>, t: Task, r: Request)
    requires r.Add?
  {
    && t.id == r.id && t.queues == r.queues && t.fn == r.fn && t.input == r.input
    && |t.parents| == |r.parentIds|
    && forall j :: 0 <= j < |t.parents| ==> t.parents[j] < |ts| && ts[t.parents[j]].id == r.parentIds[j]
  }

  lemma AddedAsRequested(reqs: seq<Request>, i: nat, k: nat)
    requires AddedAt(reqs, i, k)
    ensures i < |reqs| && reqs[i].Add? && k < |At(reqs, i + 1).tasks|
    ensures AsRequested(At(reqs, i + 1).tasks, At(reqs, i + 1).tasks[k], reqs[i])
  {
    RunKeepsInv(reqs, i);
    AddDecides(At(reqs, i), reqs[i]);
    hide AddStep, Inv;
  }

  /** A task keeps the id, parents, queues, function and input of the one request that added it. */
  lemma RowIsAsAdded(reqs: seq<Request>, n: nat, k: nat)
    requires n <= |reqs| && k < |At(reqs, n).tasks|
    ensures exists i: nat :: i < n && AddedAt(reqs, i, k) && AsRequested(At(reqs, n).tasks, At(reqs, n).tasks[k], reqs[i])
  {
    hide At, Inv, AddedAt, AsRequested;
    var i := RowAppears(reqs, n, k);
    AddedAsRequested(reqs, i, k);
    RowOverRun(reqs, i + 1, n, k);
    IdsStay(reqs, i + 1, n);
    StillAsRequested(At(reqs, i + 1).tasks, At(reqs, n).tasks, k, reqs[i]);
  }

  lemma IdsStay(reqs: seq<Request>, i: nat, n: nat)
    requires i <= n <= |reqs|
    ensures var ts, ts' := At(reqs, i).tasks, At(reqs, n).tasks;
            |ts| <= |ts'| && forall x: nat :: x < |ts| ==> ts'[x].id == ts[x].id
  {
    hide At, Inv;
    var ts, ts' := At(reqs, i).tasks, At(reqs, n).tasks;
    if ts != [] {
      RowOverRun(reqs, i, n, |ts| - 1);
    }
    forall x: nat | x < |ts|
      ensures x < |ts'| && ts'[x].id == ts[x].id
    {
      RowOverRun(reqs, i, n, x);
    }
  }

  lemma StillAsRequested(ts: seq<Task>, ts': seq<Task>, k: nat, r: Request)
    requires k < |ts| <= |ts'| && r.Add? && AsRequested(ts, ts[k], r)
    requires forall x: nat :: x < |ts| ==> ts'[x].id == ts[x].id
    requires ts'[k].queues == ts[k].queues && ts'[k].fn == ts[k].fn && ts'[k].input == ts[k].input
    requires ts'[k].parents == ts[k].parents
    ensures AsRequested(ts', ts'[k], r)
  {}

  /** Only task_set_priority changes the priority of a task that is there, and only of the one it names. */
  lemma StepPriority(s: Sched, r: Request, k: nat)
    requires Inv(s) && k < |s.tasks|
    ensures k < |Step(s, r).next.tasks|
    ensures Step(s, r).next.tasks[k].priority ==
            if r.SetPriority? && r.id == s.tasks[k].id then r.priority else s.tasks[k].priority
  {
    StepMovesRow(s, r, k);
    if r.SetPriority? {
      NamedIsFound(s, r.id);
    } else if (r.Done? && r.failed) || r.Cancel? {
      var f := Find(s.tasks, r.id);
      if f.Some? {
        EndAt(s, f.value, if r.Done? then Failed else Canceled, if r.Done? then r.worker else "",
              if r.Done? then r.output else CANCELED_OUTPUT, k);
      }
    }
  }

  /** Step `i` is an accepted request that sets the priority of the task named `id`. */
  ghost predicate Prices(reqs: seq<Request>, i: nat, id: string) {
    i < |reqs| && (reqs[i].Add? || reqs[i].SetPriority?) && reqs[i].id == id && ReplyAt(reqs, i) == Accepted
  }

  /** Step `i` is the last of the first `n` to set the priority of the task named `id`. */
  ghost predicate LastPrice(reqs: seq<Request>, n: nat, i: nat, id: string) {
    i < n && Prices(reqs, i, id) && forall j: nat :: i < j < n ==> !Prices(reqs, j, id)
  }

  /** A task has the priority of the last accepted task_add or task_set_priority that names it. */
  lemma {:induction false} PriorityFollowsRequests(reqs: seq<Request>, n: nat, k: nat)
    requires n <= |reqs| && k < |At(reqs, n).tasks|
    ensures var t := At(reqs, n).tasks[k];
            exists i: nat :: LastPrice(reqs, n, i, t.id) && t.priority == reqs[i].priority
    decreases n
  {
    hide Inv, Step;
    var s, r, t := At(reqs, n - 1), reqs[n - 1], At(reqs, n).tasks[k];
    RunKeepsInv(reqs, n - 1);
    StepAddsAtMostOne(s, r);
    if k < |s.tasks| {
      StepPriority(s, r, k);
      StepMovesRow(s, r, k);
      if (r.Add? || r.SetPriority?) && r.id == s.tasks[k].id {
        PricesIff(s, r, k);
      }
      if Prices(reqs, n - 1, t.id) {
        assert LastPrice(reqs, n, n - 1, t.id);
      } else {
        PriorityFollowsRequests(reqs, n - 1, k);
        var i: nat :| LastPrice(reqs, n - 1, i, t.id) && s.tasks[k].priority == reqs[i].priority;
        assert LastPrice(reqs, n, i, t.id);
      }
    } else {
      NewPriority(s, r);
      assert LastPrice(reqs, n, n - 1, t.id);
    }
  }

  lemma NewPriority(s: Sched, r: Request)
    requires Inv(s) && r.Add? && Step(s, r).reply == Accepted
    ensures var ts := Step(s, r).next.tasks;
            |ts| == |s.tasks| + 1 && ts[|s.tasks|].id == r.id && ts[|s.tasks|].priority == r.priority
  {
    AddDecides(s, r);
  }

  lemma PricesIff(s: Sched, r: Request, k: nat)
    requires Inv(s) && k < |s.tasks| && (r.Add? || r.SetPriority?) && r.id == s.tasks[k].id
    ensures Step(s, r).reply == Accepted <==> r.SetPriority?
  {
    assert Named(s, r.id, k);
    if r.Add? {
      AddAnswers(s, r);
    } else {
      SetPriorityAnswers(s, r, k);
    }
  }

  /**
  A claim answers the id, the function and the input of the request that added the task, which named one of
  the queues asked for; and the task stood there with the priority last set for it.
  */
  lemma ClaimAnswersAdd(reqs: seq<Request>, n: nat, k: nat, worker: string)
    requires ClaimedAt(reqs, n, k, worker)
    ensures exists a: nat, p: nat ::
              && a < n && AddedAt(reqs, a, k)
              && ReplyAt(reqs, n) == Claimed(reqs[a].id, reqs[a].fn, reqs[a].input)
              && (exists q :: q in reqs[a].queues && q in reqs[n].queues)
              && LastPrice(reqs, n, p, reqs[a].id) && At(reqs, n).tasks[k].priority == reqs[p].priority
  {
    ClaimIsFirstIn(reqs, n, k, worker);
    RowIsAsAdded(reqs, n, k);
    PriorityFollowsRequests(reqs, n, k);
    hide At, AddedAt, LastPrice, EnteredBefore, Prices;
    var t := At(reqs, n).tasks[k];
    var a: nat :| a < n && AddedAt(reqs, a, k) && AsRequested(At(reqs, n).tasks, t, reqs[a]);
    var p: nat :| LastPrice(reqs, n, p, t.id) && t.priority == reqs[p].priority;
    var j :| 0 <= j < |reqs[n].queues| && FirstInQueue(reqs, n, reqs[n].queues[j], k);
    assert reqs[n].queues[j] in t.queues && reqs[n].queues[j] in reqs[n].queues;
  }

  // ---------- What task_get_output tells ----------

  /** Whoever depends on the one task to look at is told its id. */
  lemma OutputAnswers(reqs: seq<Request>, n: nat, k: nat)
    requires n < |reqs| && k < |At(reqs, n).tasks| && reqs[n] == GetOutput(At(reqs, n).tasks[k].id)
    ensures var ts := At(reqs, n).tasks; var t := ts[k];
            && (Live(t.state) ==> ReplyAt(reqs, n) == OutputIs(""))
            && (t.state.Canceled? ==> ReplyAt(reqs, n) == OutputIs("Task canceled"))
            && (t.state.Failed? && t.origin != k ==>
                  && t.origin < k && HandedBack(reqs, n, t.origin)
                  && ReplyAt(reqs, n) == OutputIs("Dependency failed (task_id=" + ts[t.origin].id + ")"))
            && (EndedByReport(t, k) ==>
                  exists j: nat, worker: string, output: string ::
                    j < n && ReportedAt(reqs, j, k, worker, output, t.state.Failed?)
                    && ReplyAt(reqs, n) == OutputIs(output))
  {
    var s := At(reqs, n);
    RunKeepsInv(reqs, n);
    QueryAnswers(s, s.tasks[k].id, k);
    OriginInState(s, k);
    RecordInState(s, k);
    hide At, Inv, Step, ClaimedAt, ReportedAt;
    if s.tasks[k].state.Failed? {
      FailureWasReported(reqs, n, k);
    }
    if EndedByReport(s.tasks[k], k) {
      EndedByItsHolder(reqs, n, k);
    }
  }

  lemma RecordInState(s: Sched, k: nat)
    requires Inv(s) && k < |s.tasks|
    ensures Live(s.tasks[k].state) ==> s.tasks[k].output == ""
    ensures s.tasks[k].state.Canceled? ==> s.tasks[k].output == "Task canceled"
  {
    assert RowOk(s.tasks, s.clock, k);
  }

  /** Two tasks that failed because of different tasks say so differently. */
  lemma OutputsTellOriginsApart(s: Sched, k: nat, x: nat)
    requires Inv(s) && k < |s.tasks| && x < |s.tasks| && s.tasks[k].state.Failed? && s.tasks[x].state.Failed?
    requires s.tasks[k].origin != k && s.tasks[x].origin != x && s.tasks[k].origin != s.tasks[x].origin
    ensures s.tasks[k].output != s.tasks[x].output
  {
    OriginInState(s, k);
    OriginInState(s, x);
    var a, b := s.tasks[s.tasks[k].origin].id, s.tasks[s.tasks[x].origin].id;
    assert a != b;
    var prefix := "Dependency failed (task_id=";
    assert a == s.tasks[k].output[|prefix|..|s.tasks[k].output| - 1];
    assert b == s.tasks[x].output[|prefix|..|s.tasks[x].output| - 1];
  }
}
