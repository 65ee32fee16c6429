/**
The task queue as its callers see it: one record per task, and nothing derived.
There are no counts of unfinished parents, no lists of children and no heaps. Readiness, the
dependents of a task and the best task of a queue are recomputed from the records at every step.
*/
module Scheduler {
  import opened TaskTypes

  /** `parents` holds the rows that the declared parent ids named; `arrival` is 0 until the row is queued. */
  datatype Task = Task(
    id: string, parents: seq<nat>, queues: seq<string>, fn: string, input: string, priority: real,
    state: TaskState, worker: string, output: string, origin: nat, arrival: nat)

  datatype Sched = Sched(tasks: seq<Task>, clock: nat)

  datatype Outcome = Outcome(next: Sched, reply: Reply)

  const EMPTY := Sched([], 0)

  // ---------- Looking tasks up ----------

  ghost function Find(ts: seq<Task>, id: string): (r: Option<nat>)
    ensures r.Some? ==> r.value < |ts| && ts[r.value].id == id
    ensures r.None? ==> forall k :: 0 <= k < |ts| ==> ts[k].id != id
  {
    if exists k: nat :: k < |ts| && ts[k].id == id then
      var k: nat :| k < |ts| && ts[k].id == id;
      Some(k)
    else
      None
  }

  ghost predicate InRange(ps: seq<nat>, n: nat) {
    forall j :: 0 <= j < |ps| ==> ps[j] < n
  }

  /** The rows the given ids name, or None when one of them is unknown. */
  ghost function Resolve(ts: seq<Task>, ids: seq<string>): (r: Option<seq<nat>>)
    ensures r.Some? <==> forall id :: id in ids ==> Find(ts, id).Some?
    ensures r.Some? ==> |r.value| == |ids| && forall j :: 0 <= j < |ids| ==> Find(ts, ids[j]) == Some(r.value[j])
    ensures r.Some? ==> InRange(r.value, |ts|)
  {
    if ids == [] then Some([])
    else
      var init, last := Resolve(ts, ids[..|ids| - 1]), Find(ts, ids[|ids| - 1]);
      assert forall id :: id in ids <==> id in ids[..|ids| - 1] || id == ids[|ids| - 1];
      if init.Some? && last.Some? then Some(init.value + [last.value]) else None
  }

  // ---------- The dependency graph ----------

  ghost function ParentsOf(ts: seq<Task>): (g: seq<seq<nat>>)
    ensures |g| == |ts| && forall k :: 0 <= k < |ts| ==> g[k] == ts[k].parents
  {
    seq(|ts|, k requires 0 <= k < |ts| => ts[k].parents)
  }

  /** Row `k` waits on row `a`, directly or through the rows it declared as parents. */
  ghost predicate Descends(g: seq<seq<nat>>, k: nat, a: nat)
    decreases k
  {
    k < |g| && exists p: nat :: p in g[k] && p < k && (p == a || Descends(g, p, a))
  }

  ghost predicate AllFinished(ts: seq<Task>, ps: seq<nat>) {
    forall p :: p in ps ==> p < |ts| && ts[p].state.Finished?
  }

  /** The first of the rows `ps` that is in state `st`. */
  ghost function FirstIn(ts: seq<Task>, ps: seq<nat>, st: TaskState): (r: Option<nat>)
    requires InRange(ps, |ts|)
    ensures r.Some? ==> r.value in ps && ts[r.value].state == st
    ensures r.None? ==> forall p :: p in ps ==> ts[p].state != st
  {
    if ps == [] then None
    else
      var rest, last := ps[..|ps| - 1], ps[|ps| - 1];
      assert ps == rest + [last];
      var init := FirstIn(ts, rest, st);
      if init.Some? then init else if ts[last].state == st then Some(last) else None
  }

  // ---------- task_add ----------

  ghost function NewState(ts: seq<Task>, ps: seq<nat>): TaskState
    requires InRange(ps, |ts|)
  {
    if FirstIn(ts, ps, Failed).Some? then Failed
    else if FirstIn(ts, ps, Canceled).Some? then Canceled
    else if AllFinished(ts, ps) then Ready
    else Waiting
  }

  ghost function NewOrigin(ts: seq<Task>, ps: seq<nat>): nat
    requires InRange(ps, |ts|)
  {
    var st := NewState(ts, ps);
    if Bad(st) then ts[FirstIn(ts, ps, st).value].origin else |ts|
  }

  ghost function NewOutput(ts: seq<Task>, ps: seq<nat>): string
    requires InRange(ps, |ts|)
  {
    var st, origin := NewState(ts, ps), NewOrigin(ts, ps);
    if Bad(st) then TerminalOutput(st, if origin < |ts| then ts[origin].id else "") else ""
  }

  ghost function AddStep(s: Sched, r: Request): Outcome
    requires r.Add?
  {
    var ps := Resolve(s.tasks, r.parentIds);
    if Find(s.tasks, r.id).Some? then Outcome(s, Refused(AlreadyExists))
    else if ps.None? then Outcome(s, Refused(NotFound))
    else
      var st := NewState(s.tasks, ps.value);
      var clock := if st.Ready? then s.clock + 1 else s.clock;
      var t := Task(r.id, ps.value, r.queues, r.fn, r.input, r.priority, st, "",
                    NewOutput(s.tasks, ps.value), NewOrigin(s.tasks, ps.value), if st.Ready? then clock else 0);
      Outcome(Sched(s.tasks + [t], clock), Accepted)
  }

  // ---------- task_get ----------

  ghost predicate Offers(ts: seq<Task>, q: string, r: nat) {
    r < |ts| && ts[r].state.Ready? && q in ts[r].queues
  }

  /** Higher priority leaves first, and among equals the one that arrived first. */
  ghost predicate Ahead(a: Task, b: Task) {
    a.priority > b.priority || (a.priority == b.priority && a.arrival < b.arrival)
  }

  ghost predicate IsBest(ts: seq<Task>, q: string, r: nat) {
    Offers(ts, q, r) && forall x: nat :: Offers(ts, q, x) && x != r ==> Ahead(ts[r], ts[x])
  }

  ghost function Best(ts: seq<Task>, q: string): (b: Option<nat>)
    ensures b.Some? ==> IsBest(ts, q, b.value)
    ensures b.None? ==> forall r: nat :: !IsBest(ts, q, r)
  {
    if exists r: nat :: IsBest(ts, q, r) then
      var r: nat :| IsBest(ts, q, r);
      Some(r)
    else
      None
  }

  /** The best Ready task of the first listed queue that has one. */
  ghost function Choice(ts: seq<Task>, queues: seq<string>): (b: Option<nat>)
    ensures b.Some? ==> exists q :: q in queues && IsBest(ts, q, b.value)
  {
    if queues == [] then None
    else
      var b := Best(ts, queues[0]);
      if b.Some? then assert queues[0] in queues; b else Choice(ts, queues[1..])
  }

  ghost function GetStep(s: Sched, r: Request): Outcome
    requires r.Get?
  {
    var b := Choice(s.tasks, r.queues);
    if b.None? then Outcome(s, Refused(NotFound))
    else
      var t := s.tasks[b.value];
      Outcome(s.(tasks := s.tasks[b.value := t.(state := Running, worker := r.worker)]),
              Claimed(t.id, t.fn, t.input))
  }

  // ---------- task_done and task_cancel ----------

  /** End every Waiting dependent of row `a`, naming `origin` as the cause, and touch nothing else. */
  ghost function Cascade(ts: seq<Task>, a: nat, st: TaskState, origin: nat): (r: seq<Task>)
    requires origin < |ts|
    ensures |r| == |ts|
  {
    seq(|ts|, k requires 0 <= k < |ts| =>
      if ts[k].state.Waiting? && Descends(ParentsOf(ts), k, a)
      then ts[k].(state := st, worker := "", output := TerminalOutput(st, ts[origin].id), origin := origin)
      else ts[k])
  }

  /** Row `i` ends badly on its own account, and takes its dependents with it. */
  ghost function End(ts: seq<Task>, i: nat, st: TaskState, worker: string, output: string): (r: seq<Task>)
    requires i < |ts|
    ensures |r| == |ts|
  {
    Cascade(ts[i := ts[i].(state := st, worker := worker, output := output, origin := i)], i, st, i)
  }

  ghost predicate Releasable(ts: seq<Task>, k: nat) {
    k < |ts| && ts[k].state.Waiting? && AllFinished(ts, ts[k].parents)
  }

  /** How many of the first `k` rows are releasable. */
  ghost function ReleasedBefore(ts: seq<Task>, k: nat): nat {
    if k == 0 then 0 else ReleasedBefore(ts, k - 1) + if Releasable(ts, k - 1) then 1 else 0
  }

  /** Every releasable row becomes Ready; they arrive in the order they were added. */
  ghost function Release(ts: seq<Task>, clock: nat): (r: seq<Task>)
    ensures |r| == |ts|
  {
    seq(|ts|, k requires 0 <= k < |ts| =>
      if Releasable(ts, k)
      then ts[k].(state := Ready, arrival := clock + 1 + ReleasedBefore(ts, k))
      else ts[k])
  }

  ghost function Finish(ts: seq<Task>, i: nat, output: string): (r: seq<Task>)
    requires i < |ts|
    ensures |r| == |ts|
  {
    ts[i := ts[i].(state := Finished, output := output)]
  }

  ghost function DoneStep(s: Sched, r: Request): Outcome
    requires r.Done?
  {
    var f := Find(s.tasks, r.id);
    if f.None? then Outcome(s, Refused(NotFound))
    else
      var t := s.tasks[f.value];
      if t.state.Canceled? then Outcome(s, Accepted)
      else if !t.state.Running? || t.worker != r.worker then Outcome(s, Refused(FailedPrecondition))
      else if r.failed then
        Outcome(s.(tasks := End(s.tasks, f.value, Failed, t.worker, r.output)), Accepted)
      else
        var ts := Finish(s.tasks, f.value, r.output);
        Outcome(Sched(Release(ts, s.clock), s.clock + ReleasedBefore(ts, |ts|)), Accepted)
  }

  ghost function CancelStep(s: Sched, r: Request): Outcome
    requires r.Cancel?
  {
    var f := Find(s.tasks, r.id);
    if f.None? then Outcome(s, Refused(NotFound))
    else if !Live(s.tasks[f.value].state) then Outcome(s, CancelResult(false))
    else Outcome(s.(tasks := End(s.tasks, f.value, Canceled, "", CANCELED_OUTPUT)), CancelResult(true))
  }

  // ---------- task_set_priority ----------

  ghost function SetPriorityStep(s: Sched, r: Request): Outcome
    requires r.SetPriority?
  {
    var f := Find(s.tasks, r.id);
    if f.None? then Outcome(s, Refused(NotFound))
    else
      var i, t := f.value, s.tasks[f.value].(priority := r.priority);
      if t.state.Ready?
      then Outcome(Sched(s.tasks[i := t.(arrival := s.clock + 1)], s.clock + 1), Accepted)
      else Outcome(s.(tasks := s.tasks[i := t]), Accepted)
  }

  // ---------- The queries ----------

  ghost function CountIn(ts: seq<Task>, st: TaskState): nat {
    |set k | 0 <= k < |ts| && ts[k].state == st|
  }

  ghost function StateOf(ts: seq<Task>, id: string): TaskState {
    var f := Find(ts, id);
    if f.Some? then ts[f.value].state else Undefined
  }

  ghost function CountsOf(ts: seq<Task>): Counts {
    Counts(CountIn(ts, Waiting), CountIn(ts, Ready), CountIn(ts, Running),
           CountIn(ts, Finished), CountIn(ts, Failed), CountIn(ts, Canceled))
  }

  ghost function StatesOf(ts: seq<Task>, ids: seq<string>): (r: seq<TaskState>)
    ensures |r| == |ids|
  {
    seq(|ids|, j requires 0 <= j < |ids| => StateOf(ts, ids[j]))
  }

  ghost function PriorityOf(ts: seq<Task>, id: string): Reply {
    var f := Find(ts, id);
    if f.None? then Refused(NotFound) else PriorityIs(ts[f.value].priority)
  }

  ghost function OutputOf(ts: seq<Task>, id: string): Reply {
    var f := Find(ts, id);
    if f.None? then Refused(NotFound) else OutputIs(ts[f.value].output)
  }

  ghost function HolderOf(ts: seq<Task>, id: string): Reply {
    var f := Find(ts, id);
    if f.None? then Refused(NotFound)
    else if !ts[f.value].state.Running? then Refused(FailedPrecondition)
    else WorkerIs(ts[f.value].worker)
  }

  // ---------- The machine ----------

  ghost function Step(s: Sched, r: Request): Outcome {
    match r
    case Add(_, _, _, _, _, _) => AddStep(s, r)
    case Get(_, _) => GetStep(s, r)
    case Done(_, _, _, _) => DoneStep(s, r)
    case Cancel(_) => CancelStep(s, r)
    case SetPriority(_, _) => SetPriorityStep(s, r)
    case GetPriority(id) => Outcome(s, PriorityOf(s.tasks, id))
    case GetStatus(ids) => Outcome(s, StatesAre(StatesOf(s.tasks, ids)))
    case GetOutput(id) => Outcome(s, OutputOf(s.tasks, id))
    case GetWorkerId(id) => Outcome(s, HolderOf(s.tasks, id))
    case GetCountByState => Outcome(s, CountsAre(CountsOf(s.tasks)))
  }

  /** The state after the first `n` requests of a run. */
  ghost function At(reqs: seq<Request>, n: nat): Sched
    requires n <= |reqs|
  {
    if n == 0 then EMPTY else Step(At(reqs, n - 1), reqs[n - 1]).next
  }

  /** What the request numbered `n` is answered. */
  ghost function ReplyAt(reqs: seq<Request>, n: nat): Reply
    requires n < |reqs|
  {
    Step(At(reqs, n), reqs[n]).reply
  }

  // ---------- Entering the queues ----------

  /** The step from `s` to `s'` puts row `k` into its queues, under a new arrival number. */
  ghost predicate Enters(s: Sched, s': Sched, k: nat) {
    k < |s'.tasks| && s'.tasks[k].arrival != if k < |s.tasks| then s.tasks[k].arrival else 0
  }

  /** How often row `k` enters its queues in the first `n` steps of a run. */
  ghost function EntriesOf(reqs: seq<Request>, n: nat, k: nat): nat
    requires n <= |reqs|
  {
    if n == 0 then 0
    else EntriesOf(reqs, n - 1, k) + if Enters(At(reqs, n - 1), At(reqs, n), k) then 1 else 0
  }

  function Times(a: nat, b: nat): nat {
    a * b
  }

  /** The entries that the first `n` steps of a run push into queue `q` for the rows below `k`. */
  ghost function PushesOf(reqs: seq<Request>, n: nat, q: string, k: nat): nat
    requires n <= |reqs| && k <= |At(reqs, n).tasks|
  {
    if k == 0 then 0
    else PushesOf(reqs, n, q, k - 1) + Times(EntriesOf(reqs, n, k - 1), multiset(At(reqs, n).tasks[k - 1].queues)[q])
  }
}
