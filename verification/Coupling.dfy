/** How each change the server makes to its table keeps the redundant parts in agreement. */
module Coupling {
  import opened TaskTypes
  import opened Scheduler
  import opened SchedulerInvariant
  import opened TaskTable
  import opened CascadeWalk
  import opened ReleaseLoop

  /** The log `entered'` continues `entered` by exactly the rows that the step from `s` to `s'` queued. */
  ghost predicate Logged(entered: seq<nat>, s: Sched, entered': seq<nat>, s': Sched) {
    && entered <= entered'
    && forall k: nat :: multiset(entered')[k] == multiset(entered)[k] + if Enters(s, s', k) then 1 else 0
  }

  lemma LogSame(entered: seq<nat>, s: Sched)
    ensures Logged(entered, s, entered, s)
  {}

  // ---------- Rows that move without entering or finishing ----------

  /** Nothing but states, workers, outputs and origins differs, no row finishes and none becomes Ready. */
  ghost predicate QuietMove(t: Table, t': Table) {
    && Shape(t, |t.state|) && Shape(t', |t.state|)
    && t'.(state := t.state, workerId := t.workerId, output := t.output, terminalOrigin := t.terminalOrigin) == t
    && (forall k :: 0 <= k < |t.state| ==> t'.state[k].Finished? == t.state[k].Finished?)
    && (forall k :: 0 <= k < |t.state| && t'.state[k].Ready? ==> t.state[k].Ready?)
  }

  lemma QuietMoveKeepsGraph(t: Table, t': Table, g: seq<seq<nat>>)
    requires QuietMove(t, t') && Shape(t, |g|) && GraphOk(t, g)
    ensures GraphOk(t', g)
  {
    forall k: nat | k < |g|
      ensures CountOk(t'.state, t'.pendingParents, g, k) && EdgesOk(t'.state, t'.children, g, k)
    {
      assert CountOk(t.state, t.pendingParents, g, k) && EdgesOk(t.state, t.children, g, k);
      UnfinishedDependsOn(t.state, t'.state, g[k]);
    }
  }

  lemma QuietMoveKeepsCoupling(t: Table, t': Table, g: seq<seq<nat>>, index: map<string, nat>, nextSeq: nat, h: Heaps,
                               entered: seq<nat>, popped: multiset<string>)
    requires QuietMove(t, t') && Coupled(t, g, index, nextSeq, h, entered, popped)
    ensures Coupled(t', g, index, nextSeq, h, entered, popped)
  {
    QuietMoveKeepsGraph(t, t', g);
    HeapsOutlive(t, t', nextSeq, h, -1);
  }

  // ---------- A row that ends badly ----------

  function EndRoot(t: Table, i: nat, st: TaskState, worker: string, output: string): Table
    requires i < |t.state| && i < |t.workerId| && i < |t.output| && i < |t.terminalOrigin|
  {
    t.(state := t.state[i := st], workerId := t.workerId[i := worker], output := t.output[i := output],
       terminalOrigin := t.terminalOrigin[i := i])
  }

  lemma TableAcyclic(t: Table, g: seq<seq<nat>>, clock: nat)
    requires Shape(t, |g|) && Inv(Sched(Rows(t, g), clock))
    ensures Acyclic(g)
  {
    forall k: nat, p: nat | k < |g| && p in g[k]
      ensures p < k
    {
      assert RowOk(Rows(t, g), clock, k) && Rows(t, g)[k].parents == g[k];
    }
  }

  /** When a live row ends, all that wait on it are Waiting or have ended, so the walk may start. */
  lemma RootEnds(t: Table, g: seq<seq<nat>>, clock: nat, i: nat, st: TaskState, worker: string, output: string)
    requires Shape(t, |g|) && GraphOk(t, g) && Inv(Sched(Rows(t, g), clock))
    requires i < |g| && Live(t.state[i]) && Bad(st)
    ensures var t' := EndRoot(t, i, st, worker, output); CanCascade(t', g, i) && QuietMove(t, t')
  {
    var s, t' := Sched(Rows(t, g), clock), EndRoot(t, i, st, worker, output);
    forall k: nat | k < |g| && Descends(g, k, i)
      ensures t'.state[k].Waiting? || Bad(t'.state[k])
    {
      DescendantIsHeld(s, k, i);
    }
    TableAcyclic(t, g, clock);
    forall p: nat | p < |g|
      ensures EdgesOk(t'.state, t'.children, g, p)
    {
      assert EdgesOk(t.state, t.children, g, p);
    }
    forall k: nat | k < |g| && t'.state[k].Waiting?
      ensures NoBadParentBut(t'.state, g[k], i)
    {
      assert RowOk(s.tasks, clock, k) && s.tasks[k].parents == g[k];
    }
  }

  /** Ending the row and then walking its dependents is what the abstract queue calls `End`. */
  lemma EndIsEnd(t: Table, t': Table, g: seq<seq<nat>>, i: nat, st: TaskState, worker: string, output: string)
    requires Shape(t, |g|) && i < |g| && Bad(st) && Shape(t', |g|)
    requires Rows(t', g) == Cascade(Rows(EndRoot(t, i, st, worker, output), g), i, st, i)
    ensures Rows(t', g) == End(Rows(t, g), i, st, worker, output)
  {
    var ts := Rows(t, g);
    assert Rows(EndRoot(t, i, st, worker, output), g) ==
           ts[i := ts[i].(state := st, worker := worker, output := output, origin := i)];
  }

  lemma DependentsMoveQuietly(t: Table, t': Table, g: seq<seq<nat>>, i: nat, st: TaskState, output: string, origin: nat)
    requires Bad(st) && OnlyDependentsMoved(t, t', g, i, st, output, origin)
    ensures QuietMove(t, t')
  {
    forall k: nat | k < |g|
      ensures t'.state[k].Finished? == t.state[k].Finished? && (t'.state[k].Ready? ==> t.state[k].Ready?)
    {
      assert SameRow(t, t', k) || MovedRow(t, t', k, st, output, origin);
    }
  }

  // ---------- A row that finishes ----------

  function FinishRow(t: Table, i: nat, output: string): Table
    requires i < |t.state| && i < |t.output|
  {
    t.(state := t.state[i := Finished], output := t.output[i := output])
  }

  lemma FinishCanRelease(t: Table, g: seq<seq<nat>>, clock: nat, i: nat, output: string)
    requires Shape(t, |g|) && GraphOk(t, g) && Inv(Sched(Rows(t, g), clock))
    requires i < |g| && t.state[i].Running?
    ensures Rows(FinishRow(t, i, output), g) == Finish(Rows(t, g), i, output)
    ensures CanRelease(FinishRow(t, i, output), g, i, t.children[i])
  {
    var t', ts := FinishRow(t, i, output), Rows(t, g);
    assert Rows(t', g) == Finish(ts, i, output);
    assert EdgesOk(t.state, t.children, g, i);
    forall k: nat | k < |g|
      ensures CountLags(t', g, i, k)
      ensures Releasable(Rows(t', g), k) ==> i in g[k]
    {
      assert CountOk(t.state, t.pendingParents, g, k);
      UnfinishedAfterFinish(t.state, i, g[k]);
      if Releasable(Rows(t', g), k) && i !in g[k] {
        assert RowOk(ts, clock, k);
        assert AllFinished(ts, g[k]);
      }
    }
  }

  /** Releasing rows finishes none, so the counts taken after the finish still hold. */
  lemma ReleaseKeepsGraph(t: Table, t': Table, g: seq<seq<nat>>, i: nat, kids: seq<nat>, clock: nat, nextSeq: nat,
                          b: nat)
    requires Countdown(t, t', g, i, kids, clock, nextSeq, |kids|, b)
    requires forall p: nat :: p < |g| ==> EdgesOk(t.state, t.children, g, p)
    ensures GraphOk(t', g)
  {
    assert kids[|kids|..] == [];
    forall k: nat | k < |g|
      ensures CountOk(t'.state, t'.pendingParents, g, k) && EdgesOk(t'.state, t'.children, g, k)
    {
      assert EdgesOk(t.state, t.children, g, k);
      UnfinishedDependsOn(t.state, t'.state, g[k]);
    }
  }

  // ---------- A row that is added ----------

  lemma {:induction false} NoChildren(g: seq<seq<nat>>, p: nat)
    requires forall c :: 0 <= c < |g| ==> p !in g[c]
    ensures ChildrenOf(g, p) == []
  {
    if g != [] {
      NoChildren(g[..|g| - 1], p);
      assert p !in multiset(g[|g| - 1]);
    }
  }

  /** The columns with one more row. */
  function AppendRow(t: Table, r: Request, state: TaskState, output: string, origin: nat, pendingParents: nat): Table
    requires r.Add?
  {
    Table(t.taskId + [r.id], t.fn + [r.fn], t.input + [r.input], t.output + [output], t.state + [state],
          t.workerId + [""], t.priority + [r.priority], t.queues + [r.queues], t.seqNo + [0],
          t.pendingParents + [pendingParents], t.children + [[]], t.terminalOrigin + [origin])
  }

  /** What the loop over the parents has registered after `done` of them. */
  ghost predicate Registered(st: seq<TaskState>, before: seq<seq<nat>>, after: seq<seq<nat>>, n: nat, done: seq<nat>) {
    && |st| == |before| == |after|
    && forall p: nat :: p < |after| ==>
         after[p] == if st[p].Finished? then before[p] else before[p] + seq(multiset(done)[p], _ => n)
  }

  lemma RegisterOne(st: seq<TaskState>, before: seq<seq<nat>>, after: seq<seq<nat>>, n: nat, ps: seq<nat>, j: nat)
    requires j < |ps| && ps[j] < |st| && Registered(st, before, after, n, ps[..j])
    ensures var p := ps[j];
            Registered(st, before, if st[p].Finished? then after else after[p := after[p] + [n]], n, ps[..j + 1])
  {
    var p := ps[j];
    assert ps[..j + 1] == ps[..j] + [p];
    var m := multiset(ps[..j])[p];
    assert seq(m + 1, _ => n) == seq(m, _ => n) + [n];
  }

  lemma AddKeepsGraph(t: Table, t': Table, g: seq<seq<nat>>, ps: seq<nat>)
    requires Shape(t, |g|) && GraphOk(t, g) && Acyclic(g) && Shape(t', |g| + 1) && InRange(ps, |g|)
    requires t'.state[..|g|] == t.state && !t'.state[|g|].Finished?
    requires t'.pendingParents == t.pendingParents + [Unfinished(t.state, ps)]
    requires Registered(t'.state, t.children + [[]], t'.children, |g|, ps)
    ensures GraphOk(t', g + [ps])
  {
    var n, g' := |g|, g + [ps];
    forall k: nat | k < |g'|
      ensures CountOk(t'.state, t'.pendingParents, g', k)
    {
      forall j | 0 <= j < |g'[k]|
        ensures g'[k][j] < n
      {
        assert k < n ==> g'[k][j] in g[k];
      }
      assert k < n ==> CountOk(t.state, t.pendingParents, g, k);
      UnfinishedDependsOn(t.state, t'.state, g'[k]);
    }
    forall p: nat | p < |g'|
      ensures EdgesOk(t'.state, t'.children, g', p)
    {
      assert g'[..n] == g;
      if p == n {
        NoChildren(g, n);
        assert n !in multiset(ps);
      } else {
        assert EdgesOk(t.state, t.children, g, p);
      }
    }
  }

  lemma AddKeepsLedger(queues: seq<seq<string>>, names: seq<string>, h: Heaps, entered: seq<nat>,
                       popped: multiset<string>)
    requires LedgerOk(queues, h, entered, popped)
    ensures LedgerOk(queues + [names], h, entered, popped)
  {
    forall q
      ensures QueueBalanced(queues + [names], h, entered, popped, q)
    {
      assert QueueBalanced(queues, h, entered, popped, q);
      PushedPrefix(queues, names, entered, q);
    }
  }

  /** The columns after a row has been appended and registered with its parents. */
  ghost predicate Added(t: Table, g: seq<seq<nat>>, r: Request, ps: seq<nat>, st: TaskState, output: string,
                        origin: nat, t': Table)
    requires r.Add?
  {
    var t1 := AppendRow(t, r, st, output, origin, Unfinished(t.state, ps));
    t' == t1.(children := t'.children) && Registered(t1.state, t1.children, t'.children, |g|, ps)
  }

  lemma AddKeepsCoupling(t: Table, g: seq<seq<nat>>, index: map<string, nat>, nextSeq: nat, h: Heaps,
                         entered: seq<nat>, popped: multiset<string>, r: Request, ps: seq<nat>, st: TaskState,
                         output: string, origin: nat, t': Table)
    requires r.Add? && Coupled(t, g, index, nextSeq, h, entered, popped) && Acyclic(g) && r.id !in index
    requires InRange(ps, |g|) && !st.Finished? && Added(t, g, r, ps, st, output, origin, t')
    ensures Shape(t', |g| + 1) && IndexOk(t', index[r.id := |g|]) && GraphOk(t', g + [ps])
    ensures HeapsOk(t', nextSeq, h, |g|) && LedgerOk(t'.queues, h, entered, popped)
    ensures !st.Ready? ==> Coupled(t', g + [ps], index[r.id := |g|], nextSeq, h, entered, popped)
  {
    AddKeepsGraph(t, t', g, ps);
    AddKeepsLedger(t.queues, r.queues, h, entered, popped);
    HeapsExempt(t, nextSeq, h, |g|);
    HeapsOutlive(t, t', nextSeq, h, |g|);
    if !st.Ready? {
      HeapsNeedNoExemption(t', nextSeq, h, |g|);
    }
  }

  /** The origin a row carries is a row of the table. */
  lemma OriginInTable(t: Table, g: seq<seq<nat>>, clock: nat, p: nat)
    requires Shape(t, |g|) && Inv(Sched(Rows(t, g), clock)) && p < |g|
    ensures t.terminalOrigin[p] < |g|
  {
    assert RowOk(Rows(t, g), clock, p);
  }

  /** The task that a new row stands for. */
  ghost function NewTask(ts: seq<Task>, r: Request, ps: seq<nat>, arrival: nat): Task
    requires r.Add? && InRange(ps, |ts|)
  {
    Task(r.id, ps, r.queues, r.fn, r.input, r.priority, NewState(ts, ps), "", NewOutput(ts, ps), NewOrigin(ts, ps),
         arrival)
  }

  lemma AddedRows(t: Table, g: seq<seq<nat>>, r: Request, ps: seq<nat>, t1: Table, seqNo: nat)
    requires r.Add? && Shape(t, |g|) && InRange(ps, |g|)
    requires var ts := Rows(t, g); Added(t, g, r, ps, NewState(ts, ps), NewOutput(ts, ps), NewOrigin(ts, ps), t1)
    ensures Shape(t1, |g| + 1)
    ensures Rows(t1, g + [ps]) == Rows(t, g) + [NewTask(Rows(t, g), r, ps, 0)]
    ensures Rows(Numbered(t1, |g|, seqNo), g + [ps]) == Rows(t, g) + [NewTask(Rows(t, g), r, ps, seqNo)]
  {}

  lemma AddIsAppend(s: Sched, r: Request, ps: seq<nat>, entered: seq<nat>)
    requires r.Add? && Inv(s) && Find(s.tasks, r.id).None? && Resolve(s.tasks, r.parentIds) == Some(ps)
    ensures var ready := NewState(s.tasks, ps).Ready?;
            var clock := if ready then s.clock + 1 else s.clock;
            var s' := Sched(s.tasks + [NewTask(s.tasks, r, ps, if ready then clock else 0)], clock);
            && AddStep(s, r) == Outcome(s', Accepted)
            && Inv(s')
            && Logged(entered, s, if ready then entered + [|s.tasks|] else entered, s')
  {
    hide Inv, NewState, NewOrigin, NewOutput, Resolve;
    AddKeepsInv(s, r);
    var s' := AddStep(s, r).next;
    assert forall k: nat :: Enters(s, s', k) <==> NewState(s.tasks, ps).Ready? && k == |s.tasks|;
  }

  // ---------- A row that enters its queues ----------

  /** A row numbered afresh and pushed into its queues is queued as it should be, whatever was there before. */
  lemma EnqueueKeepsCoupling(t: Table, g: seq<seq<nat>>, index: map<string, nat>, nextSeq: nat, h: Heaps,
                             entered: seq<nat>, popped: multiset<string>, x: nat, h': Heaps, t': Table)
    requires Shape(t, |g|) && IndexOk(t, index) && GraphOk(t, g) && x < |g|
    requires HeapsOk(t, nextSeq, h, x) && LedgerOk(t.queues, h, entered, popped)
    requires Gained(h, h', t.queues[x], Entry(t.priority[x], nextSeq + 1, x)) && t' == Numbered(t, x, nextSeq + 1)
    ensures Coupled(t', g, index, nextSeq + 1, h', entered + [x], popped)
  {
    EnqueueKeepsHeaps(t, nextSeq, h, x, h');
    EnqueueKeepsLedger(t.queues, h, entered, popped, x, Entry(t.priority[x], nextSeq + 1, x), h');
  }

  /** The table with row `x` at a new priority. */
  function Reprioritize(t: Table, x: nat, priority: real): Table
    requires x < |t.priority|
  {
    t.(priority := t.priority[x := priority])
  }

  lemma ReprioritizeKeepsCoupling(t: Table, g: seq<seq<nat>>, index: map<string, nat>, nextSeq: nat, h: Heaps,
                                  entered: seq<nat>, popped: multiset<string>, x: nat, priority: real)
    requires Coupled(t, g, index, nextSeq, h, entered, popped) && x < |g|
    ensures var t' := Reprioritize(t, x, priority);
            && Shape(t', |g|) && IndexOk(t', index) && GraphOk(t', g)
            && HeapsOk(t', nextSeq, h, x) && LedgerOk(t'.queues, h, entered, popped)
            && (!t.state[x].Ready? ==> Coupled(t', g, index, nextSeq, h, entered, popped))
  {
    var t' := Reprioritize(t, x, priority);
    HeapsExempt(t, nextSeq, h, x);
    HeapsOutlive(t, t', nextSeq, h, x);
    if !t.state[x].Ready? {
      HeapsOutlive(t, t', nextSeq, h, -1);
    }
  }

  /** What the two ways of changing a priority come to. */
  lemma SetPriorityRefines(t: Table, g: seq<seq<nat>>, nextSeq: nat, x: nat, priority: real, t': Table, nextSeq': nat,
                           entered: seq<nat>)
    requires Shape(t, |g|) && Inv(Sched(Rows(t, g), nextSeq)) && x < |g|
    requires nextSeq' == if t.state[x].Ready? then nextSeq + 1 else nextSeq
    requires var r := Reprioritize(t, x, priority); t' == if t.state[x].Ready? then Numbered(r, x, nextSeq') else r
    ensures Shape(t', |g|)
    ensures var s, s', r := Sched(Rows(t, g), nextSeq), Sched(Rows(t', g), nextSeq'), SetPriority(t.taskId[x], priority);
            && SetPriorityStep(s, r) == Outcome(s', Accepted)
            && Inv(s')
            && Logged(entered, s, if t.state[x].Ready? then entered + [x] else entered, s')
  {
    var s, s', r := Sched(Rows(t, g), nextSeq), Sched(Rows(t', g), nextSeq'), SetPriority(t.taskId[x], priority);
    FindIsUnique(s.tasks, x);
    SetPriorityKeepsInv(s, r);
    assert s'.tasks == SetPriorityStep(s, r).next.tasks;
    assert RowOk(s.tasks, nextSeq, x);
    assert forall k: nat :: Enters(s, s', k) <==> t.state[x].Ready? && k == x;
  }

  // ---------- A row that is claimed ----------

  /** Two different entries of the heap never tie, so the top entry of a Ready row beats the others. */
  lemma TopIsBest(t: Table, g: seq<seq<nat>>, clock: nat, q: string, m: multiset<Entry>, e: Entry)
    requires Shape(t, |g|) && Inv(Sched(Rows(t, g), clock)) && HeapOk(t, clock, q, m, -1)
    requires IsTop(m, e)
    requires t.state[e.index].Ready? && e.seqNo == t.seqNo[e.index]
    ensures Best(Rows(t, g), q) == Some(e.index)
  {
    var ts, r := Rows(t, g), e.index;
    assert e == LiveEntry(t, r);
    assert q in multiset(t.queues[r]);
    forall x: nat | Offers(ts, q, x) && x != r
      ensures Ahead(ts[r], ts[x]) && !Ahead(ts[x], ts[r])
    {
      assert q in multiset(t.queues[x]);
      assert LiveEntry(t, x) in m;
      assert RowOk(ts, clock, x) && RowOk(ts, clock, r);
    }
    assert IsBest(ts, q, r);
  }

  lemma EmptyHeapOffersNothing(t: Table, g: seq<seq<nat>>, clock: nat, q: string)
    requires Shape(t, |g|) && HeapOk(t, clock, q, multiset{}, -1)
    ensures Best(Rows(t, g), q) == None
  {
    var ts := Rows(t, g);
    forall r: nat
      ensures !Offers(ts, q, r)
    {
      assert r < |g| ==> (q in t.queues[r] <==> q in multiset(t.queues[r]));
    }
  }

  function ClaimRow(t: Table, i: nat, worker: string): Table
    requires i < |t.state| && i < |t.workerId|
  {
    t.(state := t.state[i := Running], workerId := t.workerId[i := worker])
  }

  lemma ClaimKeepsCoupling(t: Table, g: seq<seq<nat>>, index: map<string, nat>, nextSeq: nat, h: Heaps,
                           entered: seq<nat>, popped: multiset<string>, i: nat, worker: string)
    requires Shape(t, |g|) && IndexOk(t, index) && GraphOk(t, g) && i < |g| && t.state[i].Ready?
    requires HeapsOk(t, nextSeq, h, i) && LedgerOk(t.queues, h, entered, popped)
    ensures Coupled(ClaimRow(t, i, worker), g, index, nextSeq, h, entered, popped)
  {
    var t' := ClaimRow(t, i, worker);
    QuietMoveKeepsGraph(t, t', g);
    HeapsOutlive(t, t', nextSeq, h, i);
    HeapsNeedNoExemption(t', nextSeq, h, i);
  }

  lemma ClaimRefines(t: Table, g: seq<seq<nat>>, nextSeq: nat, r: Request, i: nat, entered: seq<nat>)
    requires r.Get? && Shape(t, |g|) && Inv(Sched(Rows(t, g), nextSeq))
    requires Choice(Rows(t, g), r.queues) == Some(i) && i < |g|
    ensures var s, s' := Sched(Rows(t, g), nextSeq), Sched(Rows(ClaimRow(t, i, r.worker), g), nextSeq);
            && GetStep(s, r) == Outcome(s', Claimed(t.taskId[i], t.fn[i], t.input[i]))
            && Inv(s')
            && Logged(entered, s, entered, s')
  {
    var s, s' := Sched(Rows(t, g), nextSeq), Sched(Rows(ClaimRow(t, i, r.worker), g), nextSeq);
    GetKeepsInv(s, r);
    assert s'.tasks == GetStep(s, r).next.tasks;
  }

  // ---------- A row that finishes, and what it releases ----------

  /** The log during the countdown: every releasable row below `b` has been added to it once. */
  ghost predicate LoggedBelow(before: seq<nat>, after: seq<nat>, ts: seq<Task>, b: nat) {
    && before <= after
    && forall k: nat :: multiset(after)[k] == multiset(before)[k] + if k < b && Releasable(ts, k) then 1 else 0
  }

  lemma LogReaches(before: seq<nat>, after: seq<nat>, ts: seq<Task>, b: nat, c: nat)
    requires LoggedBelow(before, after, ts, b) && forall k: nat :: b <= k < c ==> !Releasable(ts, k)
    requires b <= c
    ensures LoggedBelow(before, after, ts, c)
  {}

  lemma FinishKeepsEdges(t: Table, g: seq<seq<nat>>, i: nat, output: string)
    requires Shape(t, |g|) && GraphOk(t, g) && i < |g| && !t.state[i].Finished?
    ensures var t' := FinishRow(t, i, output); forall p: nat :: p < |g| ==> EdgesOk(t'.state, t'.children, g, p)
  {
    forall p: nat | p < |g|
      ensures EdgesOk(FinishRow(t, i, output).state, t.children, g, p)
    {
      assert EdgesOk(t.state, t.children, g, p);
    }
  }

  /** Counting down one child adds it to the log exactly when it is due. */
  lemma CountdownLog(t: Table, t': Table, g: seq<seq<nat>>, i: nat, kids: seq<nat>, clock: nat, nextSeq: nat,
                     j: nat, before: seq<nat>, log: seq<nat>)
    requires j < |kids| && kids[j] < |g| && Countdown(t, t', g, i, kids, clock, nextSeq, j, kids[j])
    requires LoggedBelow(before, log, Rows(t, g), kids[j])
    ensures t'.pendingParents[kids[j]] > 0
    ensures var c := kids[j];
            var due := t'.pendingParents[c] == 1 && t'.state[c].Waiting?;
            LoggedBelow(before, if due then log + [c] else log, Rows(t, g), Next(kids, j))
  {
    var c, ts := kids[j], Rows(t, g);
    DueIffReleasable(t, t', g, i, kids, clock, nextSeq, j);
    if Next(kids, j) == c + 1 {
      LogPasses(before, log, ts, c);
    }
  }

  lemma LogPasses(before: seq<nat>, log: seq<nat>, ts: seq<Task>, c: nat)
    requires LoggedBelow(before, log, ts, c)
    ensures LoggedBelow(before, if Releasable(ts, c) then log + [c] else log, ts, c + 1)
  {}

  /** The next child is a row, and its count is not zero yet, so the decrement cannot underflow. */
  lemma NextChild(t: Table, t': Table, g: seq<seq<nat>>, i: nat, kids: seq<nat>, clock: nat, nextSeq: nat,
                  j: nat, b: nat)
    requires Countdown(t, t', g, i, kids, clock, nextSeq, j, b) && j < |kids|
    ensures Shape(t', |g|) && kids[j] < |g| && t'.pendingParents[kids[j]] > 0
  {
    CountdownReaches(t, t', g, i, kids, clock, nextSeq, j, b);
    DueIffReleasable(t, t', g, i, kids, clock, nextSeq, j);
  }

  /** One turn of the loop over the children, from `t'` to `t''`. */
  lemma CountdownTurn(t: Table, t': Table, t'': Table, g: seq<seq<nat>>, i: nat, kids: seq<nat>, clock: nat,
                      nextSeq: nat, nextSeq': nat, j: nat, b: nat, before: seq<nat>, log: seq<nat>, log': seq<nat>)
    requires Countdown(t, t', g, i, kids, clock, nextSeq, j, b) && LoggedBelow(before, log, Rows(t, g), b)
    requires j < |kids| && Shape(t', |g|) && kids[j] < |g| && t'.pendingParents[kids[j]] > 0
    requires t'' == CountedDown(t', kids[j], nextSeq + 1)
    requires var due := t'.pendingParents[kids[j]] == 1 && t'.state[kids[j]].Waiting?;
             && nextSeq' == (if due then nextSeq + 1 else nextSeq)
             && log' == if due then log + [kids[j]] else log
    ensures Countdown(t, t'', g, i, kids, clock, nextSeq', j + 1, Next(kids, j))
    ensures LoggedBelow(before, log', Rows(t, g), Next(kids, j))
  {
    CountdownReaches(t, t', g, i, kids, clock, nextSeq, j, b);
    GapIsEmpty(t, t', g, i, kids, clock, nextSeq, j, b);
    LogReaches(before, log, Rows(t, g), b, kids[j]);
    CountdownLog(t, t', g, i, kids, clock, nextSeq, j, before, log);
    CountdownSteps(t, t', t'', g, i, kids, clock, nextSeq, nextSeq', j);
  }

  lemma CountdownBegins(t: Table, g: seq<seq<nat>>, index: map<string, nat>, nextSeq: nat, h: Heaps,
                        entered: seq<nat>, popped: multiset<string>, i: nat, output: string)
    requires Coupled(t, g, index, nextSeq, h, entered, popped) && Inv(Sched(Rows(t, g), nextSeq))
    requires i < |g| && t.state[i].Running?
    ensures var t' := FinishRow(t, i, output);
            && Countdown(t', t', g, i, t.children[i], nextSeq, nextSeq, 0, 0)
            && HeapsOk(t', nextSeq, h, -1) && LedgerOk(t'.queues, h, entered, popped)
            && LoggedBelow(entered, entered, Rows(t', g), 0)
            && Rows(t', g) == Finish(Rows(t, g), i, output)
  {
    var t' := FinishRow(t, i, output);
    FinishCanRelease(t, g, nextSeq, i, output);
    HeapsOutlive(t, t', nextSeq, h, -1);
    CountdownStart(t', g, i, t.children[i], nextSeq);
  }

  lemma CountdownFinishes(t: Table, g: seq<seq<nat>>, index: map<string, nat>, nextSeq: nat, h: Heaps,
                          entered: seq<nat>, popped: multiset<string>, i: nat, output: string, t': Table, nextSeq': nat,
                          h': Heaps, entered': seq<nat>, b: nat)
    requires Coupled(t, g, index, nextSeq, h, entered, popped) && i < |g| && !t.state[i].Finished?
    requires var t1, kids := FinishRow(t, i, output), t.children[i];
             && Countdown(t1, t', g, i, kids, nextSeq, nextSeq', |kids|, b)
             && LoggedBelow(entered, entered', Rows(t1, g), b)
    requires HeapsOk(t', nextSeq', h', -1) && LedgerOk(t'.queues, h', entered', popped)
    ensures Coupled(t', g, index, nextSeq', h', entered', popped)
    ensures var ts := Rows(FinishRow(t, i, output), g);
            && Rows(t', g) == Release(ts, nextSeq) && nextSeq' == nextSeq + ReleasedBefore(ts, |g|)
            && LoggedBelow(entered, entered', ts, |g|)
  {
    var t1, kids := FinishRow(t, i, output), t.children[i];
    FinishKeepsEdges(t, g, i, output);
    CountdownEnds(t1, t', g, i, kids, nextSeq, nextSeq', b);
    ReleaseKeepsGraph(t1, t', g, i, kids, nextSeq, nextSeq', b);
    NothingLeft(t1, t', g, i, kids, nextSeq, nextSeq', b);
    LogReaches(entered, entered', Rows(t1, g), b, |g|);
  }

  lemma FinishIsDone(s: Sched, r: Request, i: nat, entered: seq<nat>, entered': seq<nat>)
    requires r.Done? && !r.failed && Inv(s) && i < |s.tasks|
    requires s.tasks[i].id == r.id && s.tasks[i].state.Running? && s.tasks[i].worker == r.worker
    requires LoggedBelow(entered, entered', Finish(s.tasks, i, r.output), |s.tasks|)
    ensures var s' := AfterFinish(s, i, r.output);
            DoneStep(s, r) == Outcome(s', Accepted) && Inv(s') && Logged(entered, s, entered', s')
  {
    var ts, s' := Finish(s.tasks, i, r.output), AfterFinish(s, i, r.output);
    FindIsUnique(s.tasks, i);
    FinishKeepsInv(s, i, r.output);
    forall k: nat
      ensures Enters(s, s', k) <==> k < |ts| && Releasable(ts, k)
    {
      if k < |ts| {
        assert RowOk(s.tasks, s.clock, k);
      }
    }
  }

  /** What taking the top entry `e` off the heap of `q` comes to, whether it is dead or live. */
  lemma PopTop(t: Table, g: seq<seq<nat>>, index: map<string, nat>, nextSeq: nat, h: Heaps, entered: seq<nat>,
               popped: multiset<string>, q: string, e: Entry)
    requires Coupled(t, g, index, nextSeq, h, entered, popped) && Inv(Sched(Rows(t, g), nextSeq)) && q in h
    requires IsTop(h[q], e)
    ensures Shape(t, |g|) && e.index < |g|
    ensures var h', popped' := h[q := h[q] - multiset{e}], popped + multiset{q};
            if t.state[e.index].Ready? && e.seqNo == t.seqNo[e.index]
            then && Best(Rows(t, g), q) == Some(e.index)
                 && HeapsOk(t, nextSeq, h', e.index) && LedgerOk(t.queues, h', entered, popped')
            else Coupled(t, g, index, nextSeq, h', entered, popped')
  {
    assert HeapOk(t, nextSeq, q, Entries(h, q), -1);
    PopKeepsLedger(t.queues, h, entered, popped, q, e);
    if t.state[e.index].Ready? && e.seqNo == t.seqNo[e.index] {
      PopKeepsHeaps(t, nextSeq, h, q, e, e.index);
      TopIsBest(t, g, nextSeq, q, Entries(h, q), e);
    } else {
      PopKeepsHeaps(t, nextSeq, h, q, e, -1);
    }
  }

  lemma NothingToPop(t: Table, g: seq<seq<nat>>, index: map<string, nat>, nextSeq: nat, h: Heaps, entered: seq<nat>,
                     popped: multiset<string>, q: string)
    requires Coupled(t, g, index, nextSeq, h, entered, popped) && Entries(h, q) == multiset{}
    ensures Shape(t, |g|) && Best(Rows(t, g), q) == None
  {
    assert HeapOk(t, nextSeq, q, Entries(h, q), -1);
    EmptyHeapOffersNothing(t, g, nextSeq, q);
  }

  /** All that a successful report comes to, once the countdown that it starts has ended. */
  lemma DoneRefines(t: Table, g: seq<seq<nat>>, index: map<string, nat>, nextSeq: nat, h: Heaps, entered: seq<nat>,
                    popped: multiset<string>, i: nat, r: Request, t': Table, nextSeq': nat, h': Heaps,
                    entered': seq<nat>, b: nat)
    requires Coupled(t, g, index, nextSeq, h, entered, popped) && Inv(Sched(Rows(t, g), nextSeq))
    requires r.Done? && !r.failed && i < |g| && t.taskId[i] == r.id && t.state[i].Running? && t.workerId[i] == r.worker
    requires var t1, kids := FinishRow(t, i, r.output), t.children[i];
             && Countdown(t1, t', g, i, kids, nextSeq, nextSeq', |kids|, b)
             && LoggedBelow(entered, entered', Rows(t1, g), b)
    requires HeapsOk(t', nextSeq', h', -1) && LedgerOk(t'.queues, h', entered', popped)
    ensures Coupled(t', g, index, nextSeq', h', entered', popped)
    ensures var s, s' := Sched(Rows(t, g), nextSeq), Sched(Rows(t', g), nextSeq');
            DoneStep(s, r) == Outcome(s', Accepted) && Inv(s') && Logged(entered, s, entered', s')
  {
    hide HeapsOk, LedgerOk, GraphOk, IndexOk, Inv, Countdown, DoneStep, LoggedBelow, Logged;
    CountdownFinishes(t, g, index, nextSeq, h, entered, popped, i, r.output, t', nextSeq', h', entered', b);
    FinishCanRelease(t, g, nextSeq, i, r.output);
    FinishIsDone(Sched(Rows(t, g), nextSeq), r, i, entered, entered');
  }

  // ---------- Counting the rows in each state ----------

  lemma CountInOneMore(ts: seq<Task>, j: nat, st: TaskState)
    requires j < |ts|
    ensures CountIn(ts[..j + 1], st) == CountIn(ts[..j], st) + if ts[j].state == st then 1 else 0
  {
    hide CountIn;
    CountInPrefix(ts, j, st);
    CountInPrefix(ts, j + 1, st);
    var before := set k | 0 <= k < j && ts[k].state == st;
    var after := set k | 0 <= k < j + 1 && ts[k].state == st;
    OneMoreMember(before, after, j, ts[j].state == st);
  }

  lemma OneMoreMember(before: set<int>, after: set<int>, j: int, more: bool)
    requires j !in before && forall k :: k in after <==> (k in before || (more && k == j))
    ensures |after| == |before| + if more then 1 else 0
  {
    var gained := if more then {j} else {};
    forall k
      ensures k in after <==> k in before + gained
    {}
    assert after == before + gained;
  }

  lemma CountInPrefix(ts: seq<Task>, n: nat, st: TaskState)
    requires n <= |ts|
    ensures CountIn(ts[..n], st) == |set k | 0 <= k < n && ts[k].state == st|
  {
    assert (set k | 0 <= k < |ts[..n]| && ts[..n][k].state == st) == set k | 0 <= k < n && ts[k].state == st;
  }

  lemma CountOneMore(ts: seq<Task>, j: nat)
    requires j < |ts|
    ensures var st, c := ts[j].state, CountsOf(ts[..j]);
            CountsOf(ts[..j + 1]) == match st
              case Waiting => c.(waiting := c.waiting + 1)
              case Ready => c.(ready := c.ready + 1)
              case Running => c.(running := c.running + 1)
              case Finished => c.(finished := c.finished + 1)
              case Failed => c.(failed := c.failed + 1)
              case Canceled => c.(canceled := c.canceled + 1)
              case Undefined => c
  {
    CountInOneMore(ts, j, Waiting);
    CountInOneMore(ts, j, Ready);
    CountInOneMore(ts, j, Running);
    CountInOneMore(ts, j, Finished);
    CountInOneMore(ts, j, Failed);
    CountInOneMore(ts, j, Canceled);
  }
}
