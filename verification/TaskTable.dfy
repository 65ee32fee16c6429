/**
The server's own representation: one sequence per column, the incremental graph, and one heap per
queue that deletes lazily. `Rows` is what it stands for, and `Coupled` says that its redundant
parts agree with that.
*/
module TaskTable {
  import opened TaskTypes
  import opened Scheduler

  datatype Table = Table(
    taskId: seq<string>, fn: seq<string>, input: seq<string>, output: seq<string>,
    state: seq<TaskState>, workerId: seq<string>, priority: seq<real>, queues: seq<seq<string>>,
    seqNo: seq<nat>, pendingParents: seq<nat>, children: seq<seq<nat>>, terminalOrigin: seq<nat>)

  ghost predicate Shape(t: Table, n: nat) {
    && |t.taskId| == |t.fn| == |t.input| == |t.output| == |t.state| == |t.workerId| == n
    && |t.priority| == |t.queues| == |t.seqNo| == |t.pendingParents| == |t.children| == |t.terminalOrigin| == n
  }

  /** The task that row `k` stands for; `g` records what each task declared. */
  ghost function Row(t: Table, g: seq<seq<nat>>, k: nat): Task
    requires Shape(t, |g|) && k < |g|
  {
    Task(t.taskId[k], g[k], t.queues[k], t.fn[k], t.input[k], t.priority[k],
         t.state[k], t.workerId[k], t.output[k], t.terminalOrigin[k], t.seqNo[k])
  }

  ghost function Rows(t: Table, g: seq<seq<nat>>): (ts: seq<Task>)
    requires Shape(t, |g|)
    ensures |ts| == |g| && forall k :: 0 <= k < |g| ==> ts[k] == Row(t, g, k)
    ensures ParentsOf(ts) == g
  {
    var ts := seq(|g|, k requires 0 <= k < |g| => Row(t, g, k));
    assert ParentsOf(ts) == g;
    ts
  }

  // ---------- The index ----------

  ghost predicate IndexOk(t: Table, index: map<string, nat>) {
    && (forall id :: id in index ==> index[id] < |t.taskId| && t.taskId[index[id]] == id)
    && (forall k :: 0 <= k < |t.taskId| ==> t.taskId[k] in index && index[t.taskId[k]] == k)
  }

  // ---------- The incremental graph ----------

  /** How many entries of `ps` name a row that has not finished; a row named twice counts twice. */
  ghost function Unfinished(st: seq<TaskState>, ps: seq<nat>): nat {
    if ps == [] then 0
    else
      var last := ps[|ps| - 1];
      Unfinished(st, ps[..|ps| - 1]) + if last < |st| && st[last].Finished? then 0 else 1
  }

  /** Every row that declares `p`, in the order added, once for each time it names `p`. */
  ghost function ChildrenOf(g: seq<seq<nat>>, p: nat): seq<nat> {
    if g == [] then []
    else ChildrenOf(g[..|g| - 1], p) + seq(multiset(g[|g| - 1])[p], _ => |g| - 1)
  }

  /** The count of row `k` is the number of parents it still waits for. */
  ghost predicate CountOk(st: seq<TaskState>, counts: seq<nat>, g: seq<seq<nat>>, k: nat) {
    k < |counts| && k < |g| && counts[k] == Unfinished(st, g[k])
  }

  /** Until row `p` finishes, its children are all the rows that declare it. */
  ghost predicate EdgesOk(st: seq<TaskState>, children: seq<seq<nat>>, g: seq<seq<nat>>, p: nat) {
    p < |st| && p < |children| && (!st[p].Finished? ==> children[p] == ChildrenOf(g, p))
  }

  ghost predicate GraphOk(t: Table, g: seq<seq<nat>>) {
    && (forall k: nat {:trigger CountOk(t.state, t.pendingParents, g, k)} :: k < |g| ==>
          CountOk(t.state, t.pendingParents, g, k))
    && (forall p: nat {:trigger EdgesOk(t.state, t.children, g, p)} :: p < |g| ==>
          EdgesOk(t.state, t.children, g, p))
  }

  lemma {:induction false} UnfinishedDependsOn(st: seq<TaskState>, st': seq<TaskState>, ps: seq<nat>)
    requires forall j :: 0 <= j < |ps| ==>
               (ps[j] < |st| && st[ps[j]].Finished?) == (ps[j] < |st'| && st'[ps[j]].Finished?)
    ensures Unfinished(st, ps) == Unfinished(st', ps)
  {
    if ps != [] {
      UnfinishedDependsOn(st, st', ps[..|ps| - 1]);
    }
  }

  /** Finishing one row lowers the count by the number of times it is named. */
  lemma {:induction false} UnfinishedAfterFinish(st: seq<TaskState>, i: nat, ps: seq<nat>)
    requires i < |st| && !st[i].Finished?
    ensures Unfinished(st, ps) == Unfinished(st[i := Finished], ps) + multiset(ps)[i]
  {
    if ps != [] {
      var rest := ps[..|ps| - 1];
      UnfinishedAfterFinish(st, i, rest);
      assert ps == rest + [ps[|ps| - 1]];
    }
  }

  lemma {:induction false} UnfinishedIsZero(st: seq<TaskState>, ps: seq<nat>)
    ensures Unfinished(st, ps) == 0 <==> forall j :: 0 <= j < |ps| ==> ps[j] < |st| && st[ps[j]].Finished?
  {
    if ps != [] {
      UnfinishedIsZero(st, ps[..|ps| - 1]);
    }
  }

  /** A child is listed exactly as often as it names the row. */
  lemma {:induction false} ChildrenCount(g: seq<seq<nat>>, p: nat, c: nat)
    ensures multiset(ChildrenOf(g, p))[c] == if c < |g| then multiset(g[c])[p] else 0
  {
    if g != [] {
      var n := |g| - 1;
      ChildrenCount(g[..n], p, c);
      RepeatCount(n, multiset(g[n])[p], c);
    }
  }

  lemma {:induction false} RepeatCount(x: nat, m: nat, c: nat)
    ensures multiset(seq(m, _ => x))[c] == if c == x then m else 0
  {
    if m > 0 {
      RepeatCount(x, m - 1, c);
      assert seq(m, _ => x) == seq(m - 1, _ => x) + [x];
    }
  }

  lemma ChildIffParent(g: seq<seq<nat>>, p: nat, c: nat)
    ensures c in ChildrenOf(g, p) <==> c < |g| && p in g[c]
  {
    ChildrenCount(g, p, c);
    assert c in ChildrenOf(g, p) <==> c in multiset(ChildrenOf(g, p));
    assert c < |g| ==> (p in g[c] <==> p in multiset(g[c]));
  }

  /** Children are listed in the order they were added. */
  lemma {:induction false} ChildrenSorted(g: seq<seq<nat>>, p: nat)
    ensures forall i, j :: 0 <= i <= j < |ChildrenOf(g, p)| ==> ChildrenOf(g, p)[i] <= ChildrenOf(g, p)[j] < |g|
  {
    if g != [] {
      ChildrenSorted(g[..|g| - 1], p);
    }
  }

  /** How often the unfinished rows below `n` list row `c` as a child. */
  ghost function EdgesInto(st: seq<TaskState>, children: seq<seq<nat>>, c: nat, n: nat): nat
    requires n <= |st| && n <= |children|
  {
    if n == 0 then 0
    else EdgesInto(st, children, c, n - 1) + if st[n - 1].Finished? then 0 else multiset(children[n - 1])[c]
  }

  /** How often `ps` names an unfinished row below `n`. */
  ghost function NamesUnfinished(st: seq<TaskState>, ps: seq<nat>, n: nat): nat
    requires n <= |st|
  {
    if n == 0 then 0
    else NamesUnfinished(st, ps, n - 1) + if st[n - 1].Finished? then 0 else multiset(ps)[n - 1]
  }

  lemma {:induction false} OneMoreName(st: seq<TaskState>, ps: seq<nat>, x: nat, n: nat)
    requires n <= |st|
    ensures NamesUnfinished(st, ps + [x], n)
            == NamesUnfinished(st, ps, n) + if x < n && !st[x].Finished? then 1 else 0
  {
    if n > 0 {
      OneMoreName(st, ps, x, n - 1);
    }
  }

  lemma {:induction false} NoNames(st: seq<TaskState>, n: nat)
    requires n <= |st|
    ensures NamesUnfinished(st, [], n) == 0
  {
    if n > 0 {
      NoNames(st, n - 1);
    }
  }

  lemma {:induction false} UnfinishedByRows(st: seq<TaskState>, ps: seq<nat>)
    requires InRange(ps, |st|)
    ensures Unfinished(st, ps) == NamesUnfinished(st, ps, |st|)
  {
    if ps == [] {
      NoNames(st, |st|);
    } else {
      var rest, last := ps[..|ps| - 1], ps[|ps| - 1];
      assert ps == rest + [last];
      UnfinishedByRows(st, rest);
      OneMoreName(st, rest, last, |st|);
    }
  }

  lemma {:induction false} EdgesAreNames(t: Table, g: seq<seq<nat>>, c: nat, n: nat)
    requires Shape(t, |g|) && GraphOk(t, g) && c < |g| && n <= |g|
    ensures EdgesInto(t.state, t.children, c, n) == NamesUnfinished(t.state, g[c], n)
  {
    if n > 0 {
      EdgesAreNames(t, g, c, n - 1);
      assert EdgesOk(t.state, t.children, g, n - 1);
      ChildrenCount(g, n - 1, c);
    }
  }

  /** The count of a row, the child lists that name it, and the parents it declared agree, with repetition. */
  lemma CountIsEdgesInto(t: Table, g: seq<seq<nat>>, c: nat)
    requires Shape(t, |g|) && GraphOk(t, g) && c < |g| && InRange(g[c], |g|)
    ensures t.pendingParents[c] == EdgesInto(t.state, t.children, c, |g|) == Unfinished(t.state, g[c])
  {
    assert CountOk(t.state, t.pendingParents, g, c);
    EdgesAreNames(t, g, c, |g|);
    UnfinishedByRows(t.state, g[c]);
  }

  // ---------- The heaps ----------

  datatype Entry = Entry(priority: real, seqNo: nat, index: nat)

  /** The comparator of the heap: the greatest entry leaves first. */
  predicate Less(a: Entry, b: Entry) {
    if a.priority != b.priority then a.priority < b.priority else a.seqNo > b.seqNo
  }

  /** `e` is on top of the heap: none of its entries is greater. */
  predicate IsTop(m: multiset<Entry>, e: Entry) {
    e in m && forall x :: x in m ==> !Less(e, x)
  }

  type Heaps = map<string, multiset<Entry>>

  function Entries(h: Heaps, q: string): multiset<Entry> {
    if q in h then h[q] else multiset{}
  }

  function Push(h: Heaps, q: string, e: Entry): Heaps {
    h[q := Entries(h, q) + multiset{e}]
  }

  function PushAll(h: Heaps, names: seq<string>, e: Entry): Heaps {
    if names == [] then h
    else Push(PushAll(h, names[..|names| - 1], e), names[|names| - 1], e)
  }

  ghost predicate HeapGained(m: multiset<Entry>, m': multiset<Entry>, e: Entry, times: nat) {
    && (forall d :: m'[d] == m[d] + if d == e then times else 0)
    && |m'| == |m| + times
  }

  /** From `h` to `h'`, each queue gained `e` as often as `names` lists it, and nothing else. */
  ghost predicate Gained(h: Heaps, h': Heaps, names: seq<string>, e: Entry) {
    forall q {:trigger HeapGained(Entries(h, q), Entries(h', q), e, multiset(names)[q])} ::
      HeapGained(Entries(h, q), Entries(h', q), e, multiset(names)[q])
  }

  /** The table after row `x` has entered its queues as number `seqNo`. */
  function Numbered(t: Table, x: nat, seqNo: nat): Table
    requires x < |t.seqNo|
  {
    t.(seqNo := t.seqNo[x := seqNo])
  }

  lemma TimesLast(names: seq<string>, q: string)
    requires names != []
    ensures multiset(names)[q] == multiset(names[..|names| - 1])[q] + if names[|names| - 1] == q then 1 else 0
  {
    assert names == names[..|names| - 1] + [names[|names| - 1]];
  }

  lemma PushCount(h: Heaps, p: string, e: Entry, q: string, x: Entry)
    ensures Entries(Push(h, p, e), q)[x] == Entries(h, q)[x] + if x == e && p == q then 1 else 0
  {}

  lemma {:induction false} PushAllCount(h: Heaps, names: seq<string>, e: Entry, q: string, x: Entry)
    ensures Entries(PushAll(h, names, e), q)[x] == Entries(h, q)[x] + if x == e then multiset(names)[q] else 0
  {
    if names != [] {
      var rest, last := names[..|names| - 1], names[|names| - 1];
      PushAllCount(h, rest, e, q, x);
      PushCount(PushAll(h, rest, e), last, e, q, x);
      TimesLast(names, q);
    }
  }

  lemma {:induction false} PushAllSize(h: Heaps, names: seq<string>, e: Entry, q: string)
    ensures |Entries(PushAll(h, names, e), q)| == |Entries(h, q)| + multiset(names)[q]
  {
    if names != [] {
      PushAllSize(h, names[..|names| - 1], e, q);
      TimesLast(names, q);
    }
  }

  lemma PushAllGains(h: Heaps, names: seq<string>, e: Entry)
    ensures Gained(h, PushAll(h, names, e), names, e)
  {
    forall q
      ensures HeapGained(Entries(h, q), Entries(PushAll(h, names, e), q), e, multiset(names)[q])
    {
      PushAllSize(h, names, e, q);
      forall d
        ensures Entries(PushAll(h, names, e), q)[d] == Entries(h, q)[d] + if d == e then multiset(names)[q] else 0
      {
        PushAllCount(h, names, e, q, d);
      }
    }
  }

  /** The entry that stands for row `r` while it is Ready. */
  ghost function LiveEntry(t: Table, r: nat): Entry
    requires r < |t.priority| && r < |t.seqNo|
  {
    Entry(t.priority[r], t.seqNo[r], r)
  }

  /**
  Each Ready row is in the heap `m` of queue `q` as often as it names `q`, and no other entry passes
  for it. Stale entries may be there in any number. Row `x` is exempt; -1 exempts none.
  */
  ghost predicate HeapOk(t: Table, nextSeq: nat, q: string, m: multiset<Entry>, x: int) {
    && Shape(t, |t.state|)
    && (forall e :: e in m ==> e.index < |t.state| && 0 < e.seqNo <= nextSeq)
    && (forall r: nat :: r < |t.state| && r != x && t.state[r].Ready? ==> m[LiveEntry(t, r)] == multiset(t.queues[r])[q])
    && (forall e :: e in m && e.index != x && t.state[e.index].Ready? && e.seqNo == t.seqNo[e.index] ==>
          e == LiveEntry(t, e.index))
  }

  ghost predicate HeapsOk(t: Table, nextSeq: nat, h: Heaps, x: int) {
    && Shape(t, |t.state|)
    && forall q {:trigger HeapOk(t, nextSeq, q, Entries(h, q), x)} :: HeapOk(t, nextSeq, q, Entries(h, q), x)
  }

  /** Rows may leave Ready, and rows that are not Ready may appear, without touching the heaps. */
  lemma HeapsOutlive(t: Table, t': Table, nextSeq: nat, h: Heaps, x: int)
    requires HeapsOk(t, nextSeq, h, x) && Shape(t', |t'.state|) && |t.state| <= |t'.state|
    requires forall k :: 0 <= k < |t'.state| && k != x && t'.state[k].Ready? ==>
               && k < |t.state| && t.state[k].Ready?
               && t'.seqNo[k] == t.seqNo[k] && t'.priority[k] == t.priority[k] && t'.queues[k] == t.queues[k]
    ensures HeapsOk(t', nextSeq, h, x)
  {
    forall q
      ensures HeapOk(t', nextSeq, q, Entries(h, q), x)
    {
      assert HeapOk(t, nextSeq, q, Entries(h, q), x);
    }
  }

  lemma HeapsExempt(t: Table, nextSeq: nat, h: Heaps, x: int)
    requires HeapsOk(t, nextSeq, h, -1)
    ensures HeapsOk(t, nextSeq, h, x)
  {
    forall q
      ensures HeapOk(t, nextSeq, q, Entries(h, q), x)
    {
      assert HeapOk(t, nextSeq, q, Entries(h, q), -1);
    }
  }

  lemma HeapsNeedNoExemption(t: Table, nextSeq: nat, h: Heaps, x: nat)
    requires HeapsOk(t, nextSeq, h, x) && x < |t.state| && !t.state[x].Ready?
    ensures HeapsOk(t, nextSeq, h, -1)
  {
    forall q
      ensures HeapOk(t, nextSeq, q, Entries(h, q), -1)
    {
      assert HeapOk(t, nextSeq, q, Entries(h, q), x);
    }
  }

  /** Entering the queues under a fresh number kills whatever was left from an earlier stay. */
  lemma EnqueueKeepsHeap(t: Table, nextSeq: nat, q: string, m: multiset<Entry>, x: nat, m': multiset<Entry>)
    requires x < |t.state| && HeapOk(t, nextSeq, q, m, x)
    requires HeapGained(m, m', Entry(t.priority[x], nextSeq + 1, x), multiset(t.queues[x])[q])
    ensures HeapOk(t.(seqNo := t.seqNo[x := nextSeq + 1]), nextSeq + 1, q, m', -1)
  {
    var t', e := t.(seqNo := t.seqNo[x := nextSeq + 1]), Entry(t.priority[x], nextSeq + 1, x);
    assert e !in m;
    forall d | d in m'
      ensures d == e || d in m
    {
      assert m'[d] > 0;
    }
    forall r: nat | r < |t.state| && t.state[r].Ready?
      ensures m'[LiveEntry(t', r)] == multiset(t.queues[r])[q]
    {}
  }

  lemma EnqueueKeepsHeaps(t: Table, nextSeq: nat, h: Heaps, x: nat, h': Heaps)
    requires x < |t.state| && HeapsOk(t, nextSeq, h, x)
    requires Gained(h, h', t.queues[x], Entry(t.priority[x], nextSeq + 1, x))
    ensures HeapsOk(Numbered(t, x, nextSeq + 1), nextSeq + 1, h', -1)
  {
    forall q
      ensures HeapOk(Numbered(t, x, nextSeq + 1), nextSeq + 1, q, Entries(h', q), -1)
    {
      assert HeapGained(Entries(h, q), Entries(h', q), Entry(t.priority[x], nextSeq + 1, x), multiset(t.queues[x])[q]);
      assert HeapOk(t, nextSeq, q, Entries(h, q), x);
      EnqueueKeepsHeap(t, nextSeq, q, Entries(h, q), x, Entries(h', q));
    }
  }

  /** Dropping an entry that stands for no Ready row but `x` changes nothing for the others. */
  lemma PopKeepsHeap(t: Table, nextSeq: nat, q: string, m: multiset<Entry>, e: Entry, x: int)
    requires HeapOk(t, nextSeq, q, m, -1) && e in m
    requires t.state[e.index].Ready? && e.seqNo == t.seqNo[e.index] ==> x == e.index
    ensures HeapOk(t, nextSeq, q, m - multiset{e}, x)
  {
    var m' := m - multiset{e};
    assert forall d :: d in m' ==> d in m;
    forall r: nat | r < |t.state| && r != x && t.state[r].Ready?
      ensures m'[LiveEntry(t, r)] == multiset(t.queues[r])[q]
    {
      assert LiveEntry(t, r) != e;
    }
  }

  lemma PopKeepsHeaps(t: Table, nextSeq: nat, h: Heaps, q: string, e: Entry, x: int)
    requires HeapsOk(t, nextSeq, h, -1) && e in Entries(h, q) && e.index < |t.state|
    requires t.state[e.index].Ready? && e.seqNo == t.seqNo[e.index] ==> x == e.index
    ensures HeapsOk(t, nextSeq, h[q := Entries(h, q) - multiset{e}], x)
  {
    var h' := h[q := Entries(h, q) - multiset{e}];
    forall p
      ensures HeapOk(t, nextSeq, p, Entries(h', p), x)
    {
      assert HeapOk(t, nextSeq, p, Entries(h, p), -1);
      if p == q {
        PopKeepsHeap(t, nextSeq, q, Entries(h, q), e, x);
      } else {
        assert Entries(h', p) == Entries(h, p);
      }
    }
  }

  // ---------- The ledger of queue entries ----------

  /** The entries ever pushed into `q`, when `entered` lists each row that entered its queues, as often as it did. */
  ghost function Pushed(queues: seq<seq<string>>, entered: seq<nat>, q: string): nat {
    if entered == [] then 0
    else
      var last := entered[|entered| - 1];
      Pushed(queues, entered[..|entered| - 1], q) + if last < |queues| then multiset(queues[last])[q] else 0
  }

  lemma {:induction false} PushedPrefix(queues: seq<seq<string>>, names: seq<string>, entered: seq<nat>, q: string)
    requires InRange(entered, |queues|)
    ensures Pushed(queues + [names], entered, q) == Pushed(queues, entered, q)
  {
    if entered != [] {
      PushedPrefix(queues, names, entered[..|entered| - 1], q);
    }
  }

  /** The same, counted row by row over the rows below `k`. */
  ghost function PushedByRows(queues: seq<seq<string>>, entered: multiset<nat>, q: string, k: nat): nat
    requires k <= |queues|
  {
    if k == 0 then 0 else PushedByRows(queues, entered, q, k - 1) + Times(entered[k - 1], multiset(queues[k - 1])[q])
  }

  lemma {:induction false} OneMorePushed(queues: seq<seq<string>>, entered: multiset<nat>, q: string, k: nat, x: nat)
    requires k <= |queues| && x < |queues|
    ensures PushedByRows(queues, entered + multiset{x}, q, k)
            == PushedByRows(queues, entered, q, k) + if x < k then multiset(queues[x])[q] else 0
  {
    if k > 0 {
      OneMorePushed(queues, entered, q, k - 1, x);
    }
  }

  lemma {:induction false} NonePushed(queues: seq<seq<string>>, q: string, k: nat)
    requires k <= |queues|
    ensures PushedByRows(queues, multiset{}, q, k) == 0
  {
    if k > 0 {
      NonePushed(queues, q, k - 1);
    }
  }

  lemma {:induction false} PushedIsByRows(queues: seq<seq<string>>, entered: seq<nat>, q: string)
    requires InRange(entered, |queues|)
    ensures Pushed(queues, entered, q) == PushedByRows(queues, multiset(entered), q, |queues|)
  {
    if entered == [] {
      NonePushed(queues, q, |queues|);
    } else {
      var rest, last := entered[..|entered| - 1], entered[|entered| - 1];
      assert entered == rest + [last];
      PushedIsByRows(queues, rest, q);
      OneMorePushed(queues, multiset(rest), q, |queues|, last);
    }
  }

  ghost predicate QueueBalanced(queues: seq<seq<string>>, h: Heaps, entered: seq<nat>, popped: multiset<string>,
                                q: string)
  {
    |Entries(h, q)| + popped[q] == Pushed(queues, entered, q)
  }

  /** Nothing pushed is lost: what is not stored was popped. */
  ghost predicate LedgerOk(queues: seq<seq<string>>, h: Heaps, entered: seq<nat>, popped: multiset<string>) {
    && InRange(entered, |queues|)
    && forall q {:trigger QueueBalanced(queues, h, entered, popped, q)} :: QueueBalanced(queues, h, entered, popped, q)
  }

  lemma EnqueueKeepsLedger(queues: seq<seq<string>>, h: Heaps, entered: seq<nat>, popped: multiset<string>, x: nat,
                           e: Entry, h': Heaps)
    requires LedgerOk(queues, h, entered, popped) && x < |queues| && Gained(h, h', queues[x], e)
    ensures LedgerOk(queues, h', entered + [x], popped)
  {
    forall q
      ensures QueueBalanced(queues, h', entered + [x], popped, q)
    {
      assert QueueBalanced(queues, h, entered, popped, q);
      assert HeapGained(Entries(h, q), Entries(h', q), e, multiset(queues[x])[q]);
      assert (entered + [x])[..|entered|] == entered;
    }
  }

  lemma PopKeepsLedger(queues: seq<seq<string>>, h: Heaps, entered: seq<nat>, popped: multiset<string>, q: string,
                       e: Entry)
    requires LedgerOk(queues, h, entered, popped) && e in Entries(h, q)
    ensures LedgerOk(queues, h[q := Entries(h, q) - multiset{e}], entered, popped + multiset{q})
  {
    var h' := h[q := Entries(h, q) - multiset{e}];
    forall p
      ensures QueueBalanced(queues, h', entered, popped + multiset{q}, p)
    {
      assert QueueBalanced(queues, h, entered, popped, p);
      assert p != q ==> Entries(h', p) == Entries(h, p);
    }
  }

  // ---------- Everything together ----------

  ghost predicate Coupled(t: Table, g: seq<seq<nat>>, index: map<string, nat>, nextSeq: nat, h: Heaps,
                          entered: seq<nat>, popped: multiset<string>)
  {
    && Shape(t, |g|)
    && IndexOk(t, index)
    && GraphOk(t, g)
    && HeapsOk(t, nextSeq, h, -1)
    && LedgerOk(t.queues, h, entered, popped)
  }

  lemma FindInTable(t: Table, g: seq<seq<nat>>, index: map<string, nat>, id: string)
    requires Shape(t, |g|) && IndexOk(t, index)
    ensures Find(Rows(t, g), id) == if id in index then Some(index[id]) else None
  {
    if id in index {
      assert Rows(t, g)[index[id]].id == id;
    }
  }
}
