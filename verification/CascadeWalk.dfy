/**
The stack walk that passes an ending down the graph. It stops at rows that have already ended,
which is sound only because such rows never have a live row below them.
*/
module CascadeWalk {
  import opened TaskTypes
  import opened Scheduler
  import opened TaskTable

  ghost predicate Acyclic(g: seq<seq<nat>>) {
    forall k: nat, p: nat :: k < |g| && p in g[k] ==> p < k
  }

  ghost predicate NoBadParentBut(st: seq<TaskState>, ps: seq<nat>, i: nat) {
    forall p: nat :: p in ps && p != i ==> p < |st| && !Bad(st[p])
  }

  /** Row `i` has just ended badly, and the rows waiting on it have not heard of it yet. */
  ghost predicate CanCascade(t: Table, g: seq<seq<nat>>, i: nat) {
    && Shape(t, |g|) && i < |g| && !t.state[i].Finished?
    && Acyclic(g)
    && (forall k: nat :: k < |g| && Descends(g, k, i) ==> t.state[k].Waiting? || Bad(t.state[k]))
    && (forall k: nat :: k < |g| && t.state[k].Waiting? ==> NoBadParentBut(t.state, g[k], i))
    && (forall p: nat :: p < |g| ==> EdgesOk(t.state, t.children, g, p))
  }

  ghost predicate SameRow(t: Table, t': Table, k: nat)
    requires Shape(t, |t.state|) && Shape(t', |t.state|) && k < |t.state|
  {
    t'.state[k] == t.state[k] && t'.workerId[k] == t.workerId[k] && t'.output[k] == t.output[k]
    && t'.terminalOrigin[k] == t.terminalOrigin[k]
  }

  ghost predicate MovedRow(t: Table, t': Table, k: nat, st: TaskState, output: string, origin: nat)
    requires Shape(t, |t.state|) && Shape(t', |t.state|) && k < |t.state|
  {
    t.state[k].Waiting? && t'.state[k] == st && t'.workerId[k] == "" && t'.output[k] == output
    && t'.terminalOrigin[k] == origin
  }

  /** Every one of the rows `cs` has ended, or is on the stack. */
  ghost predicate Announced(st: seq<TaskState>, cs: seq<nat>, pending: seq<nat>) {
    forall c: nat :: c in cs ==> c < |st| && (Bad(st[c]) || c in pending)
  }

  /** Only Waiting dependents of row `i` differ between the tables, and those have ended. */
  ghost predicate OnlyDependentsMoved(t: Table, t': Table, g: seq<seq<nat>>, i: nat, st: TaskState, output: string,
                                      origin: nat)
  {
    && Shape(t, |g|) && Shape(t', |g|)
    && t'.(state := t.state, workerId := t.workerId, output := t.output, terminalOrigin := t.terminalOrigin) == t
    && (forall k: nat :: k < |g| ==>
          SameRow(t, t', k) || (Descends(g, k, i) && MovedRow(t, t', k, st, output, origin)))
  }

  ghost predicate StackOk(g: seq<seq<nat>>, i: nat, pending: seq<nat>) {
    forall j :: 0 <= j < |pending| ==> pending[j] < |g| && Descends(g, pending[j], i)
  }

  ghost predicate AllAnnounced(t: Table, after: seq<TaskState>, i: nat, pending: seq<nat>)
    requires |after| == |t.state| == |t.children|
  {
    forall m: nat :: m < |after| && (m == i || after[m] != t.state[m]) ==> Announced(after, t.children[m], pending)
  }

  /** How far the walk from row `i` has come: `t` is where it began, `t'` where it is. */
  ghost predicate Walk(t: Table, t': Table, g: seq<seq<nat>>, i: nat, st: TaskState, output: string, origin: nat,
                       pending: seq<nat>)
  {
    && CanCascade(t, g, i) && Bad(st)
    && OnlyDependentsMoved(t, t', g, i, st, output, origin)
    && StackOk(g, i, pending)
    && AllAnnounced(t, t'.state, i, pending)
  }

  /** The table after the walk has ended row `c`. */
  function EndRow(t: Table, c: nat, st: TaskState, output: string, origin: nat): Table
    requires c < |t.state| && c < |t.workerId| && c < |t.output| && c < |t.terminalOrigin|
  {
    t.(state := t.state[c := st], workerId := t.workerId[c := ""], output := t.output[c := output],
       terminalOrigin := t.terminalOrigin[c := origin])
  }

  lemma ChildDescends(g: seq<seq<nat>>, m: nat, i: nat, c: nat)
    requires Acyclic(g)
    requires c in ChildrenOf(g, m) && (m == i || Descends(g, m, i))
    ensures c < |g| && Descends(g, c, i)
  {
    ChildIffParent(g, m, c);
  }

  lemma WalkStart(t: Table, g: seq<seq<nat>>, i: nat, st: TaskState, output: string, origin: nat)
    requires CanCascade(t, g, i) && Bad(st)
    ensures Walk(t, t, g, i, st, output, origin, t.children[i])
  {
    assert EdgesOk(t.state, t.children, g, i);
    forall j | 0 <= j < |t.children[i]|
      ensures t.children[i][j] < |g| && Descends(g, t.children[i][j], i)
    {
      ChildDescends(g, i, i, t.children[i][j]);
    }
  }

  /** A row taken from the stack has ended already, or it is Waiting: no worker ever holds it. */
  lemma WalkMeetsNoWorker(t: Table, t': Table, g: seq<seq<nat>>, i: nat, st: TaskState, output: string,
                          origin: nat, pending: seq<nat>)
    requires Walk(t, t', g, i, st, output, origin, pending) && pending != []
    ensures var c := pending[|pending| - 1];
            c < |g| && (Bad(t'.state[c]) || (t'.state[c].Waiting? && SameRow(t, t', c)))
  {
    var c := pending[|pending| - 1];
    assert SameRow(t, t', c) || MovedRow(t, t', c, st, output, origin);
  }

  lemma WalkSkips(t: Table, t': Table, g: seq<seq<nat>>, i: nat, st: TaskState, output: string,
                  origin: nat, pending: seq<nat>)
    requires Walk(t, t', g, i, st, output, origin, pending) && pending != []
    requires pending[|pending| - 1] < |g| && Bad(t'.state[pending[|pending| - 1]])
    ensures Walk(t, t', g, i, st, output, origin, pending[..|pending| - 1])
  {
    AnnounceMore(t, t'.state, t'.state, i, pending, pending[..|pending| - 1]);
  }

  /** Ending the row on top of the stack, and putting its children there, keeps every row announced. */
  lemma AnnounceMore(t: Table, before: seq<TaskState>, after: seq<TaskState>, i: nat, pending: seq<nat>,
                     pending': seq<nat>)
    requires |before| == |after| == |t.state| == |t.children| && pending != []
    requires AllAnnounced(t, before, i, pending)
    requires forall k :: 0 <= k < |after| && Bad(before[k]) ==> Bad(after[k])
    requires var rest, c := pending[..|pending| - 1], pending[|pending| - 1];
             && c < |after| && Bad(after[c]) && rest <= pending'
             && (forall m :: 0 <= m < |after| && m != c ==> after[m] == before[m])
             && (after[c] != before[c] ==> Announced(after, t.children[c], pending'))
    ensures AllAnnounced(t, after, i, pending')
  {
    var rest, c := pending[..|pending| - 1], pending[|pending| - 1];
    assert pending == rest + [c];
    forall m: nat | m < |after| && (m == i || after[m] != t.state[m])
      ensures Announced(after, t.children[m], pending')
    {
      if m == i || before[m] != t.state[m] {
        assert Announced(before, t.children[m], pending);
        forall d: nat | d in t.children[m]
          ensures d < |after| && (Bad(after[d]) || d in pending')
        {
          assert d in pending ==> d in rest || d == c;
        }
      }
    }
  }

  lemma StackGrows(t: Table, g: seq<seq<nat>>, i: nat, rest: seq<nat>, c: nat)
    requires CanCascade(t, g, i) && StackOk(g, i, rest) && c < |g| && Descends(g, c, i) && t.state[c].Waiting?
    ensures StackOk(g, i, rest + t.children[c])
    ensures forall d: nat :: d in t.children[c] ==> d < |g|
  {
    assert EdgesOk(t.state, t.children, g, c);
    forall d: nat | d in t.children[c]
      ensures d < |g| && Descends(g, d, i)
    {
      ChildDescends(g, c, i, d);
    }
    assert forall j :: 0 <= j < |t.children[c]| ==> t.children[c][j] in t.children[c];
  }

  lemma MoveOne(t: Table, t': Table, g: seq<seq<nat>>, i: nat, st: TaskState, output: string, origin: nat, c: nat)
    requires OnlyDependentsMoved(t, t', g, i, st, output, origin)
    requires c < |g| && Descends(g, c, i) && t.state[c].Waiting?
    ensures OnlyDependentsMoved(t, EndRow(t', c, st, output, origin), g, i, st, output, origin)
  {
    var t'' := EndRow(t', c, st, output, origin);
    forall k: nat | k < |g|
      ensures SameRow(t, t'', k) || (Descends(g, k, i) && MovedRow(t, t'', k, st, output, origin))
    {
      assert SameRow(t, t', k) || MovedRow(t, t', k, st, output, origin);
    }
  }

  lemma WalkMoves(t: Table, t': Table, g: seq<seq<nat>>, i: nat, st: TaskState, output: string,
                  origin: nat, pending: seq<nat>)
    requires Walk(t, t', g, i, st, output, origin, pending) && pending != []
    requires pending[|pending| - 1] < |g| && t'.state[pending[|pending| - 1]].Waiting?
    ensures var rest, c := pending[..|pending| - 1], pending[|pending| - 1];
            Walk(t, EndRow(t', c, st, output, origin), g, i, st, output, origin, rest + t.children[c])
  {
    var rest, c := pending[..|pending| - 1], pending[|pending| - 1];
    var t'', pending' := EndRow(t', c, st, output, origin), rest + t.children[c];
    WalkMeetsNoWorker(t, t', g, i, st, output, origin, pending);
    MoveOne(t, t', g, i, st, output, origin, c);
    StackGrows(t, g, i, rest, c);
    AnnounceMore(t, t'.state, t''.state, i, pending, pending');
  }

  /** When the stack is empty, every Waiting dependent has been reached. */
  lemma {:induction false} WalkReachesAll(t: Table, t': Table, g: seq<seq<nat>>, i: nat, st: TaskState,
                                          output: string, origin: nat, k: nat)
    requires Walk(t, t', g, i, st, output, origin, [])
    requires k < |g| && t.state[k].Waiting? && Descends(g, k, i)
    ensures MovedRow(t, t', k, st, output, origin)
    decreases k
  {
    var p: nat :| p in g[k] && p < k && (p == i || Descends(g, p, i));
    ChildIffParent(g, p, k);
    if p != i {
      WalkReachesAll(t, t', g, i, st, output, origin, p);
    }
    assert Announced(t'.state, t.children[p], []);
    assert EdgesOk(t.state, t.children, g, p);
  }

  /** The walk ends exactly the Waiting rows that depend on row `i`, and changes no other row. */
  lemma WalkIsCascade(t: Table, t': Table, g: seq<seq<nat>>, i: nat, st: TaskState, origin: nat)
    requires origin < |t.taskId|
    requires Walk(t, t', g, i, st, TerminalOutput(st, t.taskId[origin]), origin, [])
    ensures Rows(t', g) == Cascade(Rows(t, g), i, st, origin)
  {
    var output := TerminalOutput(st, t.taskId[origin]);
    forall k: nat | k < |g|
      ensures Rows(t', g)[k] == Cascade(Rows(t, g), i, st, origin)[k]
    {
      if t.state[k].Waiting? && Descends(g, k, i) {
        WalkReachesAll(t, t', g, i, st, output, origin, k);
      } else {
        assert SameRow(t, t', k);
      }
    }
  }

  // ---------- What the walk costs ----------

  /** The edges below the first `n` rows that changed state between `before` and `after`. */
  ghost function EdgesMoved(before: seq<TaskState>, after: seq<TaskState>, children: seq<seq<nat>>, n: nat): nat
    requires n <= |before| && |before| == |after| == |children|
  {
    if n == 0 then 0
    else EdgesMoved(before, after, children, n - 1) + if before[n - 1] != after[n - 1] then |children[n - 1]| else 0
  }

  lemma {:induction false} NoEdgesMoved(before: seq<TaskState>, children: seq<seq<nat>>, n: nat)
    requires n <= |before| == |children|
    ensures EdgesMoved(before, before, children, n) == 0
  {
    if n > 0 {
      NoEdgesMoved(before, children, n - 1);
    }
  }

  lemma {:induction false} EdgesMovedBy(before: seq<TaskState>, after: seq<TaskState>, children: seq<seq<nat>>,
                                        c: nat, st: TaskState, n: nat)
    requires n <= |before| && |before| == |after| == |children|
    requires c < |before| && after[c] == before[c] && st != before[c]
    ensures EdgesMoved(before, after[c := st], children, n) ==
            EdgesMoved(before, after, children, n) + if c < n then |children[c]| else 0
  {
    if n > 0 {
      EdgesMovedBy(before, after, children, c, st, n - 1);
    }
  }

  ghost function WaitingRows(st: seq<TaskState>): set<nat> {
    set k: nat | k < |st| && st[k].Waiting?
  }

  lemma FewerWaiting(st: seq<TaskState>, c: nat, to: TaskState)
    requires c < |st| && st[c].Waiting? && !to.Waiting?
    ensures WaitingRows(st[c := to]) < WaitingRows(st)
  {
    assert c in WaitingRows(st) && c !in WaitingRows(st[c := to]);
  }

  /** One turn of the walk: what is on top has ended and is dropped, or ends now and announces its children. */
  lemma VisitTop(t: Table, t': Table, g: seq<seq<nat>>, i: nat, st: TaskState, output: string,
                 origin: nat, pending: seq<nat>)
    requires Walk(t, t', g, i, st, output, origin, pending) && pending != []
    ensures var rest, c := pending[..|pending| - 1], pending[|pending| - 1];
            && c < |g| && Shape(t, |g|) && Shape(t', |g|) && t'.children == t.children
            && (!Live(t'.state[c]) ==> Walk(t, t', g, i, st, output, origin, rest))
            && (Live(t'.state[c]) ==>
                  var t'' := EndRow(t', c, st, output, origin);
                  && Walk(t, t'', g, i, st, output, origin, rest + t'.children[c])
                  && EdgesMoved(t.state, t''.state, t.children, |g|) ==
                     EdgesMoved(t.state, t'.state, t.children, |g|) + |t'.children[c]|
                  && WaitingRows(t''.state) < WaitingRows(t'.state))
  {
    var c := pending[|pending| - 1];
    WalkMeetsNoWorker(t, t', g, i, st, output, origin, pending);
    if Live(t'.state[c]) {
      WalkMoves(t, t', g, i, st, output, origin, pending);
      EdgesMovedBy(t.state, t'.state, t.children, c, st, |g|);
      FewerWaiting(t'.state, c, st);
    } else {
      WalkSkips(t, t', g, i, st, output, origin, pending);
    }
  }
}
