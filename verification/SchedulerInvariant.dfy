/** What every reachable state of the task queue satisfies, and why every request keeps it. */
module SchedulerInvariant {
  import opened TaskTypes
  import opened Scheduler

  /** A row runs only after its parents, and a row that waits has something it can still wait for. */
  ghost predicate DependenciesOk(ts: seq<Task>, k: nat)
    requires k < |ts|
  {
    && (forall p :: p in ts[k].parents ==> p < k)
    && (ts[k].state.Ready? || ts[k].state.Running? || ts[k].state.Finished? ==> AllFinished(ts, ts[k].parents))
    && (ts[k].state.Waiting? ==>
          && !AllFinished(ts, ts[k].parents)
          && forall p :: p in ts[k].parents ==> p < |ts| && !Bad(ts[p].state))
  }

  /** The row blamed for an inherited ending is an ancestor that ended that way on its own account. */
  ghost predicate OriginOk(ts: seq<Task>, k: nat)
    requires k < |ts|
  {
    var t := ts[k];
    t.origin != k ==>
      && t.origin < k
      && Bad(t.state)
      && Descends(ParentsOf(ts), k, t.origin)
      && ts[t.origin].state == t.state
      && ts[t.origin].origin == t.origin
      && t.output == TerminalOutput(t.state, ts[t.origin].id)
      && t.worker == ""
  }

  ghost predicate RecordOk(t: Task, clock: nat) {
    && !t.state.Undefined?
    && (Live(t.state) ==> t.output == "")
    && (t.state.Canceled? ==> t.output == CANCELED_OUTPUT)
    && (t.state.Waiting? || t.state.Ready? || t.state.Canceled? ==> t.worker == "")
    && t.arrival <= clock
    && (t.state.Waiting? ==> t.arrival == 0)
    && (t.state.Ready? || t.state.Running? || t.state.Finished? ==> t.arrival > 0)
  }

  ghost predicate RowOk(ts: seq<Task>, clock: nat, k: nat)
    requires k < |ts|
  {
    DependenciesOk(ts, k) && OriginOk(ts, k) && RecordOk(ts[k], clock)
  }

  ghost predicate Distinct(ts: seq<Task>) {
    forall i, j :: 0 <= i < j < |ts| ==>
      ts[i].id != ts[j].id && (ts[i].arrival == ts[j].arrival ==> ts[i].arrival == 0)
  }

  ghost predicate Inv(s: Sched) {
    Distinct(s.tasks) && forall k: nat :: k < |s.tasks| ==> RowOk(s.tasks, s.clock, k)
  }

  // ---------- Facts about the graph ----------

  lemma {:induction false} DescendsIsEarlier(g: seq<seq<nat>>, k: nat, a: nat)
    requires Descends(g, k, a)
    ensures a < k
  {
    var p: nat :| p in g[k] && p < k && (p == a || Descends(g, p, a));
    if p != a {
      DescendsIsEarlier(g, p, a);
    }
  }

  /** Adding a task does not change who waits on whom among the rows already there. */
  lemma {:induction false} DescendsPrefix(g: seq<seq<nat>>, x: seq<nat>, k: nat, a: nat)
    requires k < |g|
    ensures Descends(g + [x], k, a) <==> Descends(g, k, a)
    decreases k
  {
    forall p: nat | p in g[k] && p < k
      ensures Descends(g + [x], p, a) <==> Descends(g, p, a)
    {
      DescendsPrefix(g, x, p, a);
    }
  }

  /** Everything that waits on an unfinished row is itself Waiting, or has already ended badly. */
  lemma {:induction false} DescendantIsHeld(s: Sched, k: nat, a: nat)
    requires Inv(s) && k < |s.tasks| && Descends(ParentsOf(s.tasks), k, a)
    requires a < |s.tasks| && !s.tasks[a].state.Finished?
    ensures s.tasks[k].state.Waiting? || Bad(s.tasks[k].state)
    decreases k
  {
    var g := ParentsOf(s.tasks);
    var p: nat :| p in g[k] && p < k && (p == a || Descends(g, p, a));
    if p != a {
      DescendantIsHeld(s, p, a);
    }
    assert RowOk(s.tasks, s.clock, k);
  }

  lemma FindIsUnique(ts: seq<Task>, k: nat)
    requires Distinct(ts) && k < |ts|
    ensures Find(ts, ts[k].id) == Some(k)
  {}

  // ---------- Each request keeps the invariant ----------

  lemma NewRowOk(s: Sched, r: Request)
    requires Inv(s) && r.Add? && AddStep(s, r).reply.Accepted?
    ensures var s' := AddStep(s, r).next; RowOk(s'.tasks, s'.clock, |s.tasks|)
  {
    var n, s' := |s.tasks|, AddStep(s, r).next;
    var t, g := s'.tasks[n], ParentsOf(s.tasks);
    assert ParentsOf(s'.tasks) == g + [t.parents];
    if Bad(t.state) {
      var p := FirstIn(s.tasks, t.parents, t.state).value;
      assert RowOk(s.tasks, s.clock, p);
      DescendsPrefix(g, t.parents, p, t.origin);
      assert p in ParentsOf(s'.tasks)[n];
      assert Descends(ParentsOf(s'.tasks), n, t.origin);
    }
  }

  /** Appending a row leaves the rows already there as they were. */
  lemma AppendKeepsRow(s: Sched, t: Task, clock: nat, k: nat)
    requires k < |s.tasks| && RowOk(s.tasks, s.clock, k) && s.clock <= clock
    ensures RowOk(s.tasks + [t], clock, k)
  {
    assert ParentsOf(s.tasks + [t]) == ParentsOf(s.tasks) + [t.parents];
    DescendsPrefix(ParentsOf(s.tasks), t.parents, k, s.tasks[k].origin);
  }

  lemma AppendKeepsInv(s: Sched, t: Task, clock: nat)
    requires Inv(s) && s.clock <= clock && Find(s.tasks, t.id).None?
    requires t.arrival == 0 || t.arrival > s.clock
    requires RowOk(s.tasks + [t], clock, |s.tasks|)
    ensures Inv(Sched(s.tasks + [t], clock))
  {
    forall k: nat | k < |s.tasks|
      ensures RowOk(s.tasks + [t], clock, k) && s.tasks[k].arrival <= s.clock
    {
      AppendKeepsRow(s, t, clock, k);
    }
  }

  lemma AddKeepsInv(s: Sched, r: Request)
    requires Inv(s) && r.Add?
    ensures Inv(AddStep(s, r).next)
  {
    if AddStep(s, r).reply.Accepted? {
      NewRowOk(s, r);
      var s' := AddStep(s, r).next;
      AppendKeepsInv(s, s'.tasks[|s.tasks|], s'.clock);
    }
  }

  /** A claim touches neither the graph nor what finished. */
  lemma GetKeepsRow(s: Sched, x: nat, worker: string, k: nat)
    requires Inv(s) && x < |s.tasks| && s.tasks[x].state.Ready? && k < |s.tasks|
    ensures RowOk(s.tasks[x := s.tasks[x].(state := Running, worker := worker)], s.clock, k)
  {
    var ts := s.tasks[x := s.tasks[x].(state := Running, worker := worker)];
    assert ParentsOf(ts) == ParentsOf(s.tasks);
    assert RowOk(s.tasks, s.clock, k);
    forall p | p in ts[k].parents
      ensures p < |ts| && ts[p].state.Finished? == s.tasks[p].state.Finished? && Bad(ts[p].state) == Bad(s.tasks[p].state)
    {}
    assert AllFinished(ts, ts[k].parents) == AllFinished(s.tasks, s.tasks[k].parents);
  }

  lemma GetKeepsInv(s: Sched, r: Request)
    requires Inv(s) && r.Get?
    ensures Inv(GetStep(s, r).next)
  {
    hide RowOk, Choice;
    var b := Choice(s.tasks, r.queues);
    if b.Some? {
      forall k: nat | k < |s.tasks|
        ensures RowOk(GetStep(s, r).next.tasks, s.clock, k)
      {
        GetKeepsRow(s, b.value, r.worker, k);
      }
    }
  }

  /** Dependencies and origins do not depend on priorities and arrival numbers. */
  lemma PriorityKeepsRow(s: Sched, x: nat, t: Task, clock: nat, k: nat)
    requires Inv(s) && x < |s.tasks| && t == s.tasks[x].(priority := t.priority, arrival := t.arrival)
    requires s.clock <= clock && (t.arrival == s.tasks[x].arrival || (t.state.Ready? && 0 < t.arrival <= clock))
    requires k < |s.tasks|
    ensures RowOk(s.tasks[x := t], clock, k)
  {
    var ts := s.tasks[x := t];
    assert ParentsOf(ts) == ParentsOf(s.tasks);
    assert RowOk(s.tasks, s.clock, k);
    assert AllFinished(ts, ts[k].parents) == AllFinished(s.tasks, s.tasks[k].parents);
  }

  lemma SetPriorityKeepsInv(s: Sched, r: Request)
    requires Inv(s) && r.SetPriority?
    ensures Inv(SetPriorityStep(s, r).next)
  {
    var f, s' := Find(s.tasks, r.id), SetPriorityStep(s, r).next;
    if f.Some? {
      forall k: nat | k < |s.tasks|
        ensures RowOk(s'.tasks, s'.clock, k) && s.tasks[k].arrival < s.clock + 1
      {
        PriorityKeepsRow(s, f.value, s'.tasks[f.value], s'.clock, k);
        assert RowOk(s.tasks, s.clock, k);
      }
    }
  }

  /** What `End` does to each row, and that it moves Waiting rows only. */
  lemma EndAt(s: Sched, i: nat, st: TaskState, worker: string, output: string, k: nat)
    requires i < |s.tasks| && k < |s.tasks| && Bad(st)
    ensures var ts', g := End(s.tasks, i, st, worker, output), ParentsOf(s.tasks);
            && ParentsOf(ts') == g
            && (k == i ==> ts'[k] == s.tasks[k].(state := st, worker := worker, output := output, origin := i))
            && (k != i && s.tasks[k].state.Waiting? && Descends(g, k, i) ==>
                  ts'[k] == s.tasks[k].(state := st, worker := "", output := TerminalOutput(st, s.tasks[i].id), origin := i))
            && (k != i && !(s.tasks[k].state.Waiting? && Descends(g, k, i)) ==> ts'[k] == s.tasks[k])
  {
    var ts1 := s.tasks[i := s.tasks[i].(state := st, worker := worker, output := output, origin := i)];
    assert ParentsOf(ts1) == ParentsOf(s.tasks);
    assert ParentsOf(End(s.tasks, i, st, worker, output)) == ParentsOf(s.tasks);
  }

  lemma EndKeepsRow(s: Sched, i: nat, st: TaskState, worker: string, output: string, k: nat)
    requires Inv(s) && i < |s.tasks| && Live(s.tasks[i].state) && Bad(st) && k < |s.tasks|
    requires st.Canceled? ==> worker == "" && output == CANCELED_OUTPUT
    ensures RowOk(End(s.tasks, i, st, worker, output), s.clock, k)
  {
    var ts, ts', g := s.tasks, End(s.tasks, i, st, worker, output), ParentsOf(s.tasks);
    assert RowOk(ts, s.clock, k);
    EndAt(s, i, st, worker, output, k);
    EndAt(s, i, st, worker, output, i);
    if k != i && ts[k].state.Waiting? && Descends(g, k, i) {
      DescendsIsEarlier(g, k, i);
    } else if k != i && Bad(ts[k].state) {
      EndAt(s, i, st, worker, output, ts[k].origin);
    } else if k != i {
      forall p | p in ts[k].parents
        ensures p < |ts| && ts'[p].state.Finished? == ts[p].state.Finished?
        ensures ts[k].state.Waiting? ==> !Bad(ts'[p].state)
      {
        EndAt(s, i, st, worker, output, p);
        assert p in g[k];
      }
    }
  }

  lemma EndKeepsInv(s: Sched, i: nat, st: TaskState, worker: string, output: string)
    requires Inv(s) && i < |s.tasks| && Live(s.tasks[i].state) && Bad(st)
    requires st.Canceled? ==> worker == "" && output == CANCELED_OUTPUT
    ensures Inv(s.(tasks := End(s.tasks, i, st, worker, output)))
  {
    forall k: nat | k < |s.tasks|
      ensures RowOk(End(s.tasks, i, st, worker, output), s.clock, k)
      ensures End(s.tasks, i, st, worker, output)[k].id == s.tasks[k].id
      ensures End(s.tasks, i, st, worker, output)[k].arrival == s.tasks[k].arrival
    {
      EndKeepsRow(s, i, st, worker, output, k);
      EndAt(s, i, st, worker, output, k);
    }
  }

  lemma {:induction false} ReleasedBeforeMonotone(ts: seq<Task>, i: nat, j: nat)
    requires i <= j
    ensures ReleasedBefore(ts, i) <= ReleasedBefore(ts, j)
    ensures i < j && Releasable(ts, i) ==> ReleasedBefore(ts, i) < ReleasedBefore(ts, j)
    decreases j
  {
    if i < j {
      ReleasedBeforeMonotone(ts, i, j - 1);
    }
  }

  /** Finishing row `i` and releasing what it held back. */
  ghost function AfterFinish(s: Sched, i: nat, output: string): Sched
    requires i < |s.tasks|
  {
    var ts := Finish(s.tasks, i, output);
    Sched(Release(ts, s.clock), s.clock + ReleasedBefore(ts, |ts|))
  }

  lemma FinishKeepsDependencies(s: Sched, i: nat, output: string, k: nat)
    requires Inv(s) && i < |s.tasks| && s.tasks[i].state.Running? && k < |s.tasks|
    ensures DependenciesOk(AfterFinish(s, i, output).tasks, k)
  {
    hide OriginOk, RecordOk, ReleasedBefore;
    var ts, ts' := Finish(s.tasks, i, output), AfterFinish(s, i, output).tasks;
    assert RowOk(s.tasks, s.clock, k);
    forall p | p in ts[k].parents
      ensures p < |ts| && ts'[p].state.Finished? == ts[p].state.Finished?
      ensures s.tasks[p].state.Finished? ==> ts[p].state.Finished?
      ensures Bad(ts'[p].state) == Bad(s.tasks[p].state)
    {}
    assert AllFinished(ts', ts[k].parents) == AllFinished(ts, ts[k].parents);
    assert AllFinished(s.tasks, ts[k].parents) ==> AllFinished(ts, ts[k].parents);
  }

  lemma FinishKeepsOrigin(s: Sched, i: nat, output: string, k: nat)
    requires Inv(s) && i < |s.tasks| && s.tasks[i].state.Running? && k < |s.tasks|
    ensures OriginOk(AfterFinish(s, i, output).tasks, k)
  {
    hide AllFinished, DependenciesOk, RecordOk, ReleasedBefore;
    assert ParentsOf(AfterFinish(s, i, output).tasks) == ParentsOf(s.tasks);
    assert RowOk(s.tasks, s.clock, k) && RowOk(s.tasks, s.clock, i);
  }

  lemma FinishKeepsRecord(s: Sched, i: nat, output: string, k: nat)
    requires Inv(s) && i < |s.tasks| && s.tasks[i].state.Running? && k < |s.tasks|
    ensures var s' := AfterFinish(s, i, output); RecordOk(s'.tasks[k], s'.clock)
  {
    hide AllFinished, DependenciesOk, OriginOk, ReleasedBefore;
    assert RowOk(s.tasks, s.clock, k);
    ReleasedBeforeMonotone(Finish(s.tasks, i, output), k, |s.tasks|);
  }

  lemma FinishKeepsRow(s: Sched, i: nat, output: string, k: nat)
    requires Inv(s) && i < |s.tasks| && s.tasks[i].state.Running? && k < |s.tasks|
    ensures var s' := AfterFinish(s, i, output); RowOk(s'.tasks, s'.clock, k)
  {
    hide Inv, DependenciesOk, OriginOk, RecordOk;
    FinishKeepsDependencies(s, i, output, k);
    FinishKeepsOrigin(s, i, output, k);
    FinishKeepsRecord(s, i, output, k);
  }

  lemma FinishKeepsInv(s: Sched, i: nat, output: string)
    requires Inv(s) && i < |s.tasks| && s.tasks[i].state.Running?
    ensures Inv(AfterFinish(s, i, output))
  {
    var ts, s' := Finish(s.tasks, i, output), AfterFinish(s, i, output);
    forall k: nat | k < |ts|
      ensures RowOk(s'.tasks, s'.clock, k)
    {
      FinishKeepsRow(s, i, output, k);
    }
    forall a, b | 0 <= a < b < |ts|
      ensures s'.tasks[a].id != s'.tasks[b].id
      ensures s'.tasks[a].arrival == s'.tasks[b].arrival ==> s'.tasks[a].arrival == 0
    {
      assert RowOk(s.tasks, s.clock, a) && RowOk(s.tasks, s.clock, b);
      ReleasedBeforeMonotone(ts, a, b);
    }
  }

  /** Every request, in every state that satisfies the invariant, leads to one that does. */
  lemma StepKeepsInv(s: Sched, r: Request)
    requires Inv(s)
    ensures Inv(Step(s, r).next)
  {
    match r
    case Add(_, _, _, _, _, _) => AddKeepsInv(s, r);
    case Get(_, _) => GetKeepsInv(s, r);
    case SetPriority(_, _) => SetPriorityKeepsInv(s, r);
    case Done(id, worker, output, failed) =>
      var f := Find(s.tasks, id);
      if f.Some? && s.tasks[f.value].state.Running? && s.tasks[f.value].worker == worker {
        if failed {
          EndKeepsInv(s, f.value, Failed, worker, output);
        } else {
          FinishKeepsInv(s, f.value, output);
        }
      }
    case Cancel(id) =>
      var f := Find(s.tasks, id);
      if f.Some? && Live(s.tasks[f.value].state) {
        EndKeepsInv(s, f.value, Canceled, "", CANCELED_OUTPUT);
      }
    case _ =>
  }

  /** Every state of every run satisfies the invariant. */
  lemma {:induction false} RunKeepsInv(reqs: seq<Request>, n: nat)
    requires n <= |reqs|
    ensures Inv(At(reqs, n))
  {
    if n > 0 {
      RunKeepsInv(reqs, n - 1);
      StepKeepsInv(At(reqs, n - 1), reqs[n - 1]);
    }
  }
}
