/**
The task manager of the server, method by method. Each method takes the lock for its whole body, so
a concurrent run is a sequence of calls. Each is proved to do to `Model()` what the abstract queue
does, and to give the same reply.
*/
module TaskServer {
  import opened TaskTypes
  import opened Scheduler
  import opened SchedulerInvariant
  import opened TaskTable
  import opened CascadeWalk
  import opened ReleaseLoop
  import opened Coupling

  lemma {:induction false} MaximumExists(m: multiset<Entry>)
    requires m != multiset{}
    ensures exists e :: IsTop(m, e)
    decreases |m|
  {
    var e :| e in m;
    var rest := m - multiset{e};
    assert m == rest + multiset{e};
    if rest == multiset{} {
      assert IsTop(m, e);
    } else {
      MaximumExists(rest);
      var b :| IsTop(rest, b);
      var top := if Less(b, e) then e else b;
      forall x | x in m
        ensures !Less(top, x)
      {
        assert x in rest || x == e;
      }
      assert IsTop(m, top);
    }
  }

  /** The ledger of the server and the count of the abstract run agree. */
  lemma {:induction false} PushesAreByRows(queues: seq<seq<string>>, entered: multiset<nat>, reqs: seq<Request>,
                                           q: string, k: nat)
    requires k <= |queues| == |At(reqs, |reqs|).tasks|
    requires forall i :: 0 <= i < |queues| ==> queues[i] == At(reqs, |reqs|).tasks[i].queues
    requires forall i: nat :: entered[i] == EntriesOf(reqs, |reqs|, i)
    ensures PushedByRows(queues, entered, q, k) == PushesOf(reqs, |reqs|, q, k)
  {
    hide At, EntriesOf;
    if k > 0 {
      PushesAreByRows(queues, entered, reqs, q, k - 1);
    }
  }

  class TaskManager {
    var tasks: Table
    var taskIndex: map<string, nat>
    var nextSeq: nat
    var queue: Heaps

    ghost var declared: seq<seq<nat>>     // the rows that each task's parent ids named when it was added
    ghost var entered: seq<nat>           // the row that entered its queues, each time one did
    ghost var popped: multiset<string>    // one queue name for each entry taken from a heap

    ghost predicate Valid()
      reads this
    {
      && Coupled(tasks, declared, taskIndex, nextSeq, queue, entered, popped)
      && Inv(Sched(Rows(tasks, declared), nextSeq))
    }

    /** What the server's state stands for. */
    ghost function Model(): Sched
      requires Shape(tasks, |declared|)
      reads this
    {
      Sched(Rows(tasks, declared), nextSeq)
    }

    constructor ()
      ensures Valid() && Model() == EMPTY && entered == []
    {
      tasks := Table([], [], [], [], [], [], [], [], [], [], [], []);
      taskIndex, nextSeq, queue := map[], 0, map[];
      declared, entered, popped := [], [], multiset{};
    }

    /** Push the entry into each of the named queues. */
    method PushEach(names: seq<string>, e: Entry)
      modifies this`queue
      ensures Gained(old(queue), queue, names, e)
    {
      for j := 0 to |names|
        invariant queue == PushAll(old(queue), names[..j], e)
      {
        assert names[..j + 1][..j] == names[..j];
        queue := Push(queue, names[j], e);
      }
      assert names[..|names|] == names;
      PushAllGains(old(queue), names, e);
    }

    /** The next number becomes the row's own, and every queue named gains an entry that carries it. */
    method Enqueue(index: nat)
      requires index < |tasks.queues| && index < |tasks.priority| && index < |tasks.seqNo|
      modifies this`tasks, this`nextSeq, this`queue, this`entered
      ensures nextSeq == old(nextSeq) + 1
      ensures tasks == Numbered(old(tasks), index, nextSeq)
      ensures Gained(old(queue), queue, old(tasks).queues[index], Entry(old(tasks).priority[index], nextSeq, index))
      ensures entered == old(entered) + [index]
    {
      nextSeq := nextSeq + 1;
      tasks := tasks.(seqNo := tasks.seqNo[index := nextSeq]);
      entered := entered + [index];
      PushEach(tasks.queues[index], Entry(tasks.priority[index], tasks.seqNo[index], index));
    }

    /**
    Hand the bad ending `state` of row `index` down to its dependents, with `origin` to blame.
    `iterations` counts the rows taken from the stack.
    */
    method PropagateToChildren(index: nat, state: TaskState, origin: nat) returns (ghost iterations: nat)
      requires CanCascade(tasks, declared, index) && Bad(state) && origin < |declared|
      modifies this`tasks
      ensures OnlyDependentsMoved(old(tasks), tasks, declared, index, state,
                                  TerminalOutput(state, old(tasks).taskId[origin]), origin)
      ensures Rows(tasks, declared) == Cascade(old(Rows(tasks, declared)), index, state, origin)
      ensures iterations == |old(tasks).children[index]|
                            + EdgesMoved(old(tasks).state, tasks.state, old(tasks).children, |declared|)
    {
      var output := TerminalOutput(state, tasks.taskId[origin]);
      var pending := tasks.children[index];
      iterations := 0;
      WalkStart(tasks, declared, index, state, output, origin);
      NoEdgesMoved(tasks.state, tasks.children, |declared|);
      while |pending| > 0
        invariant Walk(old(tasks), tasks, declared, index, state, output, origin, pending)
        invariant iterations + |pending| == |old(tasks).children[index]|
                                            + EdgesMoved(old(tasks).state, tasks.state, old(tasks).children, |declared|)
        decreases WaitingRows(tasks.state), |pending|
      {
        iterations := iterations + 1;
        VisitTop(old(tasks), tasks, declared, index, state, output, origin, pending);
        var current := pending[|pending| - 1];
        pending := pending[..|pending| - 1];
        if !Live(tasks.state[current]) {
          continue;
        }
        tasks := EndRow(tasks, current, state, output, origin);
        pending := pending + tasks.children[current];
      }
      WalkIsCascade(old(tasks), tasks, declared, index, state, origin);
    }

    /** Row `index` ends badly on its own account, and its dependents with it. */
    method EndWithDependents(index: nat, state: TaskState, worker: string, output: string)
      requires Valid() && index < |declared| && Live(tasks.state[index]) && Bad(state)
      requires state.Canceled? ==> worker == "" && output == CANCELED_OUTPUT
      modifies this`tasks
      ensures Valid()
      ensures Model() == old(Model()).(tasks := End(old(Model()).tasks, index, state, worker, output))
      ensures forall k :: 0 <= k < |declared| ==> tasks.seqNo[k] == old(tasks).seqNo[k]
    {
      ghost var t := tasks;
      RootEnds(t, declared, nextSeq, index, state, worker, output);
      EndKeepsInv(Model(), index, state, worker, output);
      tasks := EndRoot(tasks, index, state, worker, output);
      QuietMoveKeepsCoupling(t, tasks, declared, taskIndex, nextSeq, queue, entered, popped);
      ghost var t1 := tasks;
      ghost var n := PropagateToChildren(index, state, index);
      DependentsMoveQuietly(t1, tasks, declared, index, state, TerminalOutput(state, t1.taskId[index]), index);
      QuietMoveKeepsCoupling(t1, tasks, declared, taskIndex, nextSeq, queue, entered, popped);
      EndIsEnd(t, tasks, declared, index, state, worker, output);
    }

    method Cancel(id: string) returns (r: Reply)
      requires Valid()
      modifies this
      ensures Valid()
      ensures Outcome(Model(), r) == CancelStep(old(Model()), Request.Cancel(id))
      ensures Logged(old(entered), old(Model()), entered, Model())
    {
      FindInTable(tasks, declared, taskIndex, id);
      if id !in taskIndex {
        return Refused(NotFound);
      }
      var index := taskIndex[id];
      if !Live(tasks.state[index]) {
        return CancelResult(false);
      }
      EndWithDependents(index, Canceled, "", TerminalOutput(Canceled, id));
      return CancelResult(true);
    }

    method SetPriority(id: string, priority: real) returns (r: Reply)
      requires Valid()
      modifies this
      ensures Valid()
      ensures Outcome(Model(), r) == SetPriorityStep(old(Model()), Request.SetPriority(id, priority))
      ensures Logged(old(entered), old(Model()), entered, Model())
    {
      FindInTable(tasks, declared, taskIndex, id);
      if id !in taskIndex {
        return Refused(NotFound);
      }
      var index := taskIndex[id];
      ReprioritizeKeepsCoupling(tasks, declared, taskIndex, nextSeq, queue, entered, popped, index, priority);
      tasks := Reprioritize(tasks, index, priority);
      if tasks.state[index].Ready? {
        ghost var t := tasks;
        Enqueue(index);
        EnqueueKeepsCoupling(t, declared, taskIndex, old(nextSeq), old(queue), old(entered), popped, index, queue, tasks);
      }
      SetPriorityRefines(old(tasks), declared, old(nextSeq), index, priority, tasks, nextSeq, old(entered));
      return Accepted;
    }

    // ---------- task_get ----------

    /** The entry on top of a heap: none is greater. */
    static method Top(m: multiset<Entry>) returns (e: Entry)
      requires m != multiset{}
      ensures IsTop(m, e)
    {
      MaximumExists(m);
      e :| e in m && IsTop(m, e);
    }

    /** Take the top entry off the heap of `q`. When it is dead, everything still agrees without it. */
    method TakeTop(q: string) returns (entry: Entry)
      requires Valid() && q in queue && queue[q] != multiset{}
      modifies this`queue, this`popped
      ensures entry.index < |declared| && q in queue && |queue[q]| < |old(queue)[q]|
      ensures if tasks.state[entry.index].Ready? && entry.seqNo == tasks.seqNo[entry.index]
              then && Best(Rows(tasks, declared), q) == Some(entry.index)
                   && HeapsOk(tasks, nextSeq, queue, entry.index) && LedgerOk(tasks.queues, queue, entered, popped)
              else Valid()
    {
      hide HeapsOk, LedgerOk, Inv, Best, IsTop;
      entry := Top(queue[q]);
      PopTop(tasks, declared, taskIndex, nextSeq, queue, entered, popped, q, entry);
      queue := queue[q := queue[q] - multiset{entry}];
      popped := popped + multiset{q};
    }

    /** Pop the heap of `q` until an entry comes up that stands for a Ready row, dropping the dead ones. */
    method PopLive(q: string) returns (claimed: Option<nat>)
      requires Valid()
      modifies this`queue, this`popped
      ensures claimed == Best(Rows(tasks, declared), q)
      ensures claimed.None? ==> Valid()
      ensures claimed.Some? ==>
                && claimed.value < |declared| && tasks.state[claimed.value].Ready?
                && HeapsOk(tasks, nextSeq, queue, claimed.value) && LedgerOk(tasks.queues, queue, entered, popped)
    {
      hide HeapsOk, LedgerOk, Inv, Best;
      if q !in queue {
        NothingToPop(tasks, declared, taskIndex, nextSeq, queue, entered, popped, q);
        return None;
      }
      while queue[q] != multiset{}
        invariant q in queue && Valid()
        decreases |queue[q]|
      {
        var entry := TakeTop(q);
        if !tasks.state[entry.index].Ready? || entry.seqNo != tasks.seqNo[entry.index] {
          continue;
        }
        return Some(entry.index);
      }
      NothingToPop(tasks, declared, taskIndex, nextSeq, queue, entered, popped, q);
      return None;
    }

    method Get(worker: string, queues: seq<string>) returns (r: Reply)
      requires Valid()
      modifies this
      ensures Valid()
      ensures Outcome(Model(), r) == GetStep(old(Model()), Request.Get(worker, queues))
      ensures Logged(old(entered), old(Model()), entered, Model())
    {
      hide HeapsOk, LedgerOk, GraphOk, IndexOk, Inv, Best;
      for j := 0 to |queues|
        invariant Valid()
        invariant tasks == old(tasks) && nextSeq == old(nextSeq) && declared == old(declared) && entered == old(entered)
        invariant Choice(Rows(tasks, declared), queues) == Choice(Rows(tasks, declared), queues[j..])
      {
        assert queues[j..][0] == queues[j] && queues[j..][1..] == queues[j + 1..];
        var claimed := PopLive(queues[j]);
        if claimed.Some? {
          var index := claimed.value;
          ClaimKeepsCoupling(tasks, declared, taskIndex, nextSeq, queue, entered, popped, index, worker);
          ClaimRefines(tasks, declared, nextSeq, Request.Get(worker, queues), index, entered);
          tasks := ClaimRow(tasks, index, worker);
          return Claimed(tasks.taskId[index], tasks.fn[index], tasks.input[index]);
        }
      }
      return Refused(NotFound);
    }

    // ---------- task_done ----------

    /** Take one off the count of a child, and release the child when that was the last. */
    method CountDown(child: nat)
      requires child < |tasks.state| && Shape(tasks, |tasks.state|) && tasks.pendingParents[child] > 0
      requires HeapsOk(tasks, nextSeq, queue, -1) && LedgerOk(tasks.queues, queue, entered, popped)
      modifies this`tasks, this`nextSeq, this`queue, this`entered
      ensures tasks == CountedDown(old(tasks), child, old(nextSeq) + 1)
      ensures HeapsOk(tasks, nextSeq, queue, -1) && LedgerOk(tasks.queues, queue, entered, popped)
      ensures var due := old(tasks).pendingParents[child] == 1 && old(tasks).state[child].Waiting?;
              && nextSeq == (if due then old(nextSeq) + 1 else old(nextSeq))
              && entered == if due then old(entered) + [child] else old(entered)
    {
      tasks := tasks.(pendingParents := tasks.pendingParents[child := tasks.pendingParents[child] - 1]);
      if tasks.pendingParents[child] == 0 && tasks.state[child].Waiting? {
        tasks := tasks.(state := tasks.state[child := Ready]);
        ghost var t := tasks;
        HeapsExempt(old(tasks), nextSeq, queue, child);
        HeapsOutlive(old(tasks), t, nextSeq, queue, child);
        Enqueue(child);
        EnqueueKeepsHeaps(t, old(nextSeq), old(queue), child, queue);
        EnqueueKeepsLedger(t.queues, old(queue), old(entered), popped, child,
                           Entry(t.priority[child], nextSeq, child), queue);
      } else {
        HeapsOutlive(old(tasks), tasks, nextSeq, queue, -1);
      }
    }

    /** One turn of the loop below. The ghost parameters say where the countdown began and how far it is. */
    method CountDownNext(kids: seq<nat>, j: nat, ghost t: Table, ghost g: seq<seq<nat>>, ghost i: nat,
                         ghost clock: nat, ghost b: nat, ghost log: seq<nat>)
      requires j < |kids| && Countdown(t, tasks, g, i, kids, clock, nextSeq, j, b)
      requires HeapsOk(tasks, nextSeq, queue, -1) && LedgerOk(tasks.queues, queue, entered, popped)
      requires LoggedBelow(log, entered, Rows(t, g), b)
      modifies this`tasks, this`nextSeq, this`queue, this`entered
      ensures Countdown(t, tasks, g, i, kids, clock, nextSeq, j + 1, Next(kids, j))
      ensures HeapsOk(tasks, nextSeq, queue, -1) && LedgerOk(tasks.queues, queue, entered, popped)
      ensures LoggedBelow(log, entered, Rows(t, g), Next(kids, j))
    {
      hide Countdown, LedgerOk, LoggedBelow, HeapOk;
      ghost var t', n, log' := tasks, nextSeq, entered;
      NextChild(t, tasks, g, i, kids, clock, nextSeq, j, b);
      CountDown(kids[j]);
      CountdownTurn(t, t', tasks, g, i, kids, clock, n, nextSeq, j, b, log, log', entered);
    }

    /** Count down every child of row `index`, which has just finished. `b` is past the last child. */
    method ReleaseChildren(index: nat, ghost g: seq<seq<nat>>) returns (ghost b: nat)
      requires Shape(tasks, |g|) && index < |g| && CanRelease(tasks, g, index, tasks.children[index])
      requires HeapsOk(tasks, nextSeq, queue, -1) && LedgerOk(tasks.queues, queue, entered, popped)
      modifies this`tasks, this`nextSeq, this`queue, this`entered
      ensures Countdown(old(tasks), tasks, g, index, old(tasks).children[index], old(nextSeq), nextSeq,
                        |old(tasks).children[index]|, b)
      ensures HeapsOk(tasks, nextSeq, queue, -1) && LedgerOk(tasks.queues, queue, entered, popped)
      ensures LoggedBelow(old(entered), entered, Rows(old(tasks), g), b)
    {
      ghost var t, clock, log := tasks, nextSeq, entered;
      var kids := tasks.children[index];
      b := 0;
      CountdownStart(t, g, index, kids, clock);
      for j := 0 to |kids|
        invariant Countdown(t, tasks, g, index, kids, clock, nextSeq, j, b)
        invariant HeapsOk(tasks, nextSeq, queue, -1) && LedgerOk(tasks.queues, queue, entered, popped)
        invariant LoggedBelow(log, entered, Rows(t, g), b)
      {
        CountDownNext(kids, j, t, g, index, clock, b, log);
        b := Next(kids, j);
      }
    }

    /** Row `index` finishes, and releases the rows that were waiting on it alone. */
    method FinishAndRelease(index: nat, output: string)
      requires Valid() && index < |declared| && tasks.state[index].Running?
      modifies this`tasks, this`nextSeq, this`queue, this`entered
      ensures Valid()
      ensures var r := Request.Done(old(tasks).taskId[index], old(tasks).workerId[index], output, false);
              DoneStep(old(Model()), r) == Outcome(Model(), Accepted)
      ensures Logged(old(entered), old(Model()), entered, Model())
    {
      hide Countdown, HeapsOk, LedgerOk, GraphOk, IndexOk, LoggedBelow, Inv, DoneStep, Logged;
      ghost var t, g, n, h, log := tasks, declared, nextSeq, queue, entered;
      ghost var r := Request.Done(t.taskId[index], t.workerId[index], output, false);
      CountdownBegins(t, g, taskIndex, n, h, log, popped, index, output);
      tasks := FinishRow(tasks, index, output);
      ghost var b := ReleaseChildren(index, g);
      DoneRefines(t, g, taskIndex, n, h, log, popped, index, r, tasks, nextSeq, queue, entered, b);
    }

    method Done(id: string, worker: string, output: string, failed: bool) returns (r: Reply)
      requires Valid()
      modifies this
      ensures Valid()
      ensures Outcome(Model(), r) == DoneStep(old(Model()), Request.Done(id, worker, output, failed))
      ensures Logged(old(entered), old(Model()), entered, Model())
    {
      FindInTable(tasks, declared, taskIndex, id);
      if id !in taskIndex {
        return Refused(NotFound);
      }
      var index := taskIndex[id];
      if tasks.state[index].Canceled? {
        return Accepted;
      }
      if !tasks.state[index].Running? {
        return Refused(FailedPrecondition);
      }
      if tasks.workerId[index] != worker {
        return Refused(FailedPrecondition);
      }
      if failed {
        EndWithDependents(index, Failed, tasks.workerId[index], output);
        return Accepted;
      }
      FinishAndRelease(index, output);
      return Accepted;
    }

    // ---------- task_add ----------

    /** Look every parent id up; the first unknown one refuses the request. */
    method ResolveParents(ids: seq<string>) returns (ps: Option<seq<nat>>)
      requires Shape(tasks, |declared|) && IndexOk(tasks, taskIndex)
      ensures ps == Resolve(Rows(tasks, declared), ids)
    {
      ghost var ts := Rows(tasks, declared);
      var rows: seq<nat> := [];
      for j := 0 to |ids|
        invariant Resolve(ts, ids[..j]) == Some(rows)
      {
        assert ids[..j + 1][..j] == ids[..j];
        FindInTable(tasks, declared, taskIndex, ids[j]);
        if ids[j] !in taskIndex {
          return None;
        }
        rows := rows + [taskIndex[ids[j]]];
      }
      assert ids[..|ids|] == ids;
      return Some(rows);
    }

    /** Count the unfinished parents, and find the first canceled and the first failed one. */
    method Survey(ps: seq<nat>) returns (pending: nat, canceled: Option<nat>, failed: Option<nat>)
      requires Shape(tasks, |declared|) && InRange(ps, |declared|)
      ensures pending == Unfinished(tasks.state, ps)
      ensures canceled == FirstIn(Rows(tasks, declared), ps, Canceled)
      ensures failed == FirstIn(Rows(tasks, declared), ps, Failed)
    {
      ghost var ts := Rows(tasks, declared);
      pending, canceled, failed := 0, None, None;
      for j := 0 to |ps|
        invariant pending == Unfinished(tasks.state, ps[..j])
        invariant canceled == FirstIn(ts, ps[..j], Canceled) && failed == FirstIn(ts, ps[..j], Failed)
      {
        assert ps[..j + 1][..j] == ps[..j];
        var p := ps[j];
        if canceled.None? && tasks.state[p].Canceled? {
          canceled := Some(p);
        }
        if failed.None? && tasks.state[p].Failed? {
          failed := Some(p);
        }
        if !tasks.state[p].Finished? {
          pending := pending + 1;
        }
      }
      assert ps[..|ps|] == ps;
    }

    /** The state a new row starts in, the row to blame for it, and what it reports. */
    method Decide(ps: seq<nat>) returns (state: TaskState, origin: nat, output: string, pending: nat)
      requires Shape(tasks, |declared|) && InRange(ps, |declared|) && Inv(Model())
      ensures var ts := Rows(tasks, declared);
              state == NewState(ts, ps) && origin == NewOrigin(ts, ps) && output == NewOutput(ts, ps)
      ensures pending == Unfinished(tasks.state, ps) && !state.Finished?
    {
      var canceled, failed;
      pending, canceled, failed := Survey(ps);
      AllFinishedIsZero(tasks, declared, ps);
      state, origin, output := Ready, |tasks.taskId|, "";
      if failed.Some? {
        OriginInTable(tasks, declared, nextSeq, failed.value);
        state, origin := Failed, tasks.terminalOrigin[failed.value];
      } else if canceled.Some? {
        OriginInTable(tasks, declared, nextSeq, canceled.value);
        state, origin := Canceled, tasks.terminalOrigin[canceled.value];
      } else if pending > 0 {
        state := Waiting;
      }
      if state.Failed? || state.Canceled? {
        output := TerminalOutput(state, tasks.taskId[origin]);
      }
    }

    /** List row `index` as a child of each of its unfinished parents, once for each time it names one. */
    method RegisterChild(ps: seq<nat>, index: nat)
      requires Shape(tasks, |tasks.state|) && InRange(ps, |tasks.state|)
      modifies this`tasks
      ensures tasks == old(tasks).(children := tasks.children)
      ensures Registered(old(tasks).state, old(tasks).children, tasks.children, index, ps)
    {
      for j := 0 to |ps|
        invariant tasks == old(tasks).(children := tasks.children)
        invariant Registered(old(tasks).state, old(tasks).children, tasks.children, index, ps[..j])
      {
        var p := ps[j];
        RegisterOne(tasks.state, old(tasks).children, tasks.children, index, ps, j);
        if !tasks.state[p].Finished? {
          tasks := tasks.(children := tasks.children[p := tasks.children[p] + [index]]);
        }
      }
      assert ps[..|ps|] == ps;
    }

    /** Append the row and list it with its parents, but do not queue it yet. */
    method AppendAndRegister(request: Request, ps: seq<nat>, state: TaskState, output: string, origin: nat, pending: nat)
      requires request.Add? && Shape(tasks, |declared|) && InRange(ps, |declared|)
      requires pending == Unfinished(tasks.state, ps)
      modifies this`tasks, this`taskIndex, this`declared
      ensures Added(old(tasks), old(declared), request, ps, state, output, origin, tasks)
      ensures taskIndex == old(taskIndex)[request.id := |old(declared)|] && declared == old(declared) + [ps]
    {
      var index := |tasks.taskId|;
      taskIndex := taskIndex[request.id := index];
      tasks := AppendRow(tasks, request, state, output, origin, pending);
      RegisterChild(ps, index);
      declared := declared + [ps];
    }

    /** A request that is not refused adds its row, and queues it if nothing holds it back. */
    method Insert(request: Request, ps: seq<nat>)
      requires Valid() && request.Add? && InRange(ps, |declared|)
      requires Find(Rows(tasks, declared), request.id).None? && request.id !in taskIndex
      requires Resolve(Rows(tasks, declared), request.parentIds) == Some(ps)
      modifies this
      ensures Valid()
      ensures AddStep(old(Model()), request) == Outcome(Model(), Accepted)
      ensures Logged(old(entered), old(Model()), entered, Model())
    {
      hide HeapsOk, LedgerOk, GraphOk, IndexOk, Inv, Logged, AddStep, Added, NewState, Find, Resolve, InRange, Gained;
      ghost var t, g, i, n, h, log := tasks, declared, taskIndex, nextSeq, queue, entered;
      var index := |tasks.taskId|;
      var state, origin, output, pending := Decide(ps);
      AppendAndRegister(request, ps, state, output, origin, pending);
      AddedRows(t, g, request, ps, tasks, n + 1);
      AddIsAppend(Sched(Rows(t, g), n), request, ps, log);
      TableAcyclic(t, g, n);
      AddKeepsCoupling(t, g, i, n, h, log, popped, request, ps, state, output, origin, tasks);
      if state.Ready? {
        ghost var t1 := tasks;
        Enqueue(index);
        EnqueueKeepsCoupling(t1, declared, taskIndex, n, h, log, popped, index, queue, tasks);
      }
    }

    method Add(id: string, parentIds: seq<string>, queues: seq<string>, priority: real, fn: string, input: string)
      returns (r: Reply)
      requires Valid()
      modifies this
      ensures Valid()
      ensures Outcome(Model(), r) == AddStep(old(Model()), Request.Add(id, parentIds, queues, priority, fn, input))
      ensures Logged(old(entered), old(Model()), entered, Model())
    {
      var request := Request.Add(id, parentIds, queues, priority, fn, input);
      FindInTable(tasks, declared, taskIndex, id);
      if id in taskIndex {
        return Refused(AlreadyExists);
      }
      var ps := ResolveParents(parentIds);
      if ps.None? {
        return Refused(NotFound);
      }
      Insert(request, ps.value);
      return Accepted;
    }

    /** Each queue holds what the rows that entered it pushed, less what was popped. */
    lemma Balance(reqs: seq<Request>, q: string)
      requires Valid() && Model() == At(reqs, |reqs|)
      requires forall k: nat :: multiset(entered)[k] == EntriesOf(reqs, |reqs|, k)
      ensures |Entries(queue, q)| + popped[q] == PushesOf(reqs, |reqs|, q, |At(reqs, |reqs|).tasks|)
    {
      assert QueueBalanced(tasks.queues, queue, entered, popped, q);
      PushedIsByRows(tasks.queues, entered, q);
      PushesAreByRows(tasks.queues, multiset(entered), reqs, q, |tasks.queues|);
    }

    // ---------- The queries ----------

    method GetPriority(id: string) returns (r: Reply)
      requires Valid()
      ensures r == PriorityOf(Model().tasks, id)
    {
      FindInTable(tasks, declared, taskIndex, id);
      return if id in taskIndex then PriorityIs(tasks.priority[taskIndex[id]]) else Refused(NotFound);
    }

    method GetOutput(id: string) returns (r: Reply)
      requires Valid()
      ensures r == OutputOf(Model().tasks, id)
    {
      FindInTable(tasks, declared, taskIndex, id);
      return if id in taskIndex then OutputIs(tasks.output[taskIndex[id]]) else Refused(NotFound);
    }

    method GetWorkerId(id: string) returns (r: Reply)
      requires Valid()
      ensures r == HolderOf(Model().tasks, id)
    {
      FindInTable(tasks, declared, taskIndex, id);
      if id !in taskIndex {
        return Refused(NotFound);
      }
      var index := taskIndex[id];
      if !tasks.state[index].Running? {
        return Refused(FailedPrecondition);
      }
      return WorkerIs(tasks.workerId[index]);
    }

    method GetStatus(ids: seq<string>) returns (r: Reply)
      requires Valid()
      ensures r == StatesAre(StatesOf(Model().tasks, ids))
    {
      var states: seq<TaskState> := [];
      for j := 0 to |ids|
        invariant |states| == j && forall i :: 0 <= i < j ==> states[i] == StateOf(Model().tasks, ids[i])
      {
        FindInTable(tasks, declared, taskIndex, ids[j]);
        states := states + [if ids[j] in taskIndex then tasks.state[taskIndex[ids[j]]] else Undefined];
      }
      return StatesAre(states);
    }

    method GetCountByState() returns (r: Reply)
      requires Valid()
      ensures r == CountsAre(CountsOf(Model().tasks))
    {
      ghost var ts := Rows(tasks, declared);
      var c := Counts(0, 0, 0, 0, 0, 0);
      for j := 0 to |tasks.state|
        invariant c == CountsOf(ts[..j])
      {
        CountOneMore(ts, j);
        match tasks.state[j] {
          case Waiting => c := c.(waiting := c.waiting + 1);
          case Ready => c := c.(ready := c.ready + 1);
          case Running => c := c.(running := c.running + 1);
          case Finished => c := c.(finished := c.finished + 1);
          case Failed => c := c.(failed := c.failed + 1);
          case Canceled => c := c.(canceled := c.canceled + 1);
          case Undefined =>
        }
      }
      assert ts[..|ts|] == ts;
      return CountsAre(c);
    }

    // ---------- Whole runs ----------

    /** Any one request. */
    method Handle(request: Request) returns (r: Reply)
      requires Valid()
      modifies this
      ensures Valid()
      ensures Outcome(Model(), r) == Step(old(Model()), request)
      ensures Logged(old(entered), old(Model()), entered, Model())
    {
      hide HeapsOk, LedgerOk, GraphOk, IndexOk, Inv, Logged, AddStep, GetStep, DoneStep, CancelStep, SetPriorityStep;
      hide PriorityOf, StatesOf, OutputOf, HolderOf, CountsOf;
      LogSame(entered, Model());
      match request {
        case Add(id, parentIds, queues, priority, fn, input) => r := Add(id, parentIds, queues, priority, fn, input);
        case Get(worker, queues) => r := Get(worker, queues);
        case Done(id, worker, output, failed) => r := Done(id, worker, output, failed);
        case Cancel(id) => r := Cancel(id);
        case SetPriority(id, priority) => r := SetPriority(id, priority);
        case GetPriority(id) => r := GetPriority(id);
        case GetStatus(ids) => r := GetStatus(ids);
        case GetOutput(id) => r := GetOutput(id);
        case GetWorkerId(id) => r := GetWorkerId(id);
        case GetCountByState => r := GetCountByState();
      }
    }
  }

  /**
  A server that starts empty answers every run of requests as the abstract queue does, and ends in
  the state that stands for the abstract one. Its heaps lose nothing: for each queue, what is stored
  and what was popped are what the entries of the run pushed.
  */
  method Serve(reqs: seq<Request>) returns (m: TaskManager, replies: seq<Reply>)
    ensures fresh(m) && m.Valid() && m.Model() == At(reqs, |reqs|)
    ensures |replies| == |reqs| && forall i :: 0 <= i < |reqs| ==> replies[i] == ReplyAt(reqs, i)
    ensures forall k: nat :: multiset(m.entered)[k] == EntriesOf(reqs, |reqs|, k)
    ensures forall q :: |Entries(m.queue, q)| + m.popped[q] == PushesOf(reqs, |reqs|, q, |At(reqs, |reqs|).tasks|)
  {
    hide HeapsOk, LedgerOk, GraphOk, IndexOk, Inv, Step, Rows;
    m := new TaskManager();
    replies := [];
    for n := 0 to |reqs|
      invariant m.Valid() && m.Model() == At(reqs, n)
      invariant |replies| == n && forall i :: 0 <= i < n ==> replies[i] == ReplyAt(reqs, i)
      invariant forall k: nat :: multiset(m.entered)[k] == EntriesOf(reqs, n, k)
    {
      var r := m.Handle(reqs[n]);
      replies := replies + [r];
    }
    forall q
      ensures |Entries(m.queue, q)| + m.popped[q] == PushesOf(reqs, |reqs|, q, |At(reqs, |reqs|).tasks|)
    {
      m.Balance(reqs, q);
    }
  }
}
