/** The loop that counts down the children of a finished row and releases those that reach zero. */
module ReleaseLoop {
  import opened TaskTypes
  import opened Scheduler
  import opened TaskTable

  /** The count of row `k` still includes row `i`, as often as `k` names it. */
  ghost predicate CountLags(t: Table, g: seq<seq<nat>>, i: nat, k: nat) {
    k < |g| && k < |t.pendingParents| && t.pendingParents[k] == Unfinished(t.state, g[k]) + multiset(g[k])[i]
  }

  /** Row `i` has just finished: `t` has its old counts, and `kids` are the rows it may release. */
  ghost predicate CanRelease(t: Table, g: seq<seq<nat>>, i: nat, kids: seq<nat>) {
    && Shape(t, |g|) && i < |g|
    && kids == ChildrenOf(g, i)
    && (forall k: nat {:trigger CountLags(t, g, i, k)} :: k < |g| ==> CountLags(t, g, i, k))
    && (forall k: nat {:trigger Releasable(Rows(t, g), k)} :: k < |g| && Releasable(Rows(t, g), k) ==> i in g[k])
  }

  /** The counts while the children in `left` are still to be counted down. */
  ghost function CountsLeft(st: seq<TaskState>, g: seq<seq<nat>>, left: seq<nat>): (r: seq<nat>)
    ensures |r| == |g|
  {
    seq(|g|, k requires 0 <= k < |g| => Unfinished(st, g[k]) + multiset(left)[k])
  }

  /** The states after the releasable rows below `b` have been released. */
  ghost function StatesBelow(st: seq<TaskState>, ts: seq<Task>, b: nat): (r: seq<TaskState>)
    ensures |r| == |st|
  {
    seq(|st|, k requires 0 <= k < |st| => if k < b && Releasable(ts, k) then Ready else st[k])
  }

  /** The arrival numbers after the releasable rows below `b` have been released. */
  ghost function NumbersBelow(seqNo: seq<nat>, ts: seq<Task>, clock: nat, b: nat): (r: seq<nat>)
    ensures |r| == |seqNo|
  {
    seq(|seqNo|, k requires 0 <= k < |seqNo| =>
      if k < b && Releasable(ts, k) then clock + 1 + ReleasedBefore(ts, k) else seqNo[k])
  }

  /** The columns that the loop does not write. */
  ghost predicate OthersSame(t: Table, t': Table) {
    && t'.taskId == t.taskId && t'.fn == t.fn && t'.input == t.input && t'.output == t.output
    && t'.workerId == t.workerId && t'.priority == t.priority && t'.queues == t.queues
    && t'.children == t.children && t'.terminalOrigin == t.terminalOrigin
  }

  /** The first `j` children are counted down, and exactly the releasable rows below `b` are released. */
  ghost predicate Countdown(t: Table, t': Table, g: seq<seq<nat>>, i: nat, kids: seq<nat>, clock: nat, nextSeq: nat,
                            j: nat, b: nat)
  {
    && CanRelease(t, g, i, kids) && j <= |kids|
    && OthersSame(t, t')
    && t'.pendingParents == CountsLeft(t.state, g, kids[j..])
    && t'.state == StatesBelow(t.state, Rows(t, g), b)
    && t'.seqNo == NumbersBelow(t.seqNo, Rows(t, g), clock, b)
    && nextSeq == clock + ReleasedBefore(Rows(t, g), b)
    && Frontier(kids, j, b) && b <= |g|
  }

  /**
  Where the countdown stands in the sorted list of children: the last one done is at most `b`, the
  next one at least `b`, and row `b` itself is either not reached or not done with.
  */
  ghost predicate Frontier(kids: seq<nat>, j: nat, b: nat)
    requires j <= |kids|
  {
    && (j > 0 ==> kids[j - 1] <= b)
    && (j < |kids| ==> kids[j] >= b)
    && (j > 0 && kids[j - 1] == b ==> j < |kids| && kids[j] == b)
  }

  /** The frontier after child `kids[j]` has been counted down once. */
  function Next(kids: seq<nat>, j: nat): nat
    requires j < |kids|
  {
    if j + 1 < |kids| && kids[j + 1] == kids[j] then kids[j] else kids[j] + 1
  }

  lemma {:induction false} NoneReleasedBetween(ts: seq<Task>, b: nat, c: nat)
    requires b <= c && forall k: nat :: b <= k < c ==> !Releasable(ts, k)
    ensures ReleasedBefore(ts, c) == ReleasedBefore(ts, b)
    decreases c
  {
    if b < c {
      NoneReleasedBetween(ts, b, c - 1);
    }
  }

  lemma CountdownStart(t: Table, g: seq<seq<nat>>, i: nat, kids: seq<nat>, clock: nat)
    requires CanRelease(t, g, i, kids)
    ensures Countdown(t, t, g, i, kids, clock, clock, 0, 0)
  {
    assert kids[0..] == kids;
    forall k: nat | k < |g|
      ensures CountsLeft(t.state, g, kids)[k] == t.pendingParents[k]
    {
      assert CountLags(t, g, i, k);
      ChildrenCount(g, i, k);
    }
    assert CountsLeft(t.state, g, kids) == t.pendingParents;
    assert StatesBelow(t.state, Rows(t, g), 0) == t.state;
    assert NumbersBelow(t.seqNo, Rows(t, g), clock, 0) == t.seqNo;
  }

  /** A releasable row at or past the frontier is still to come. */
  lemma FrontierGap(t: Table, g: seq<seq<nat>>, i: nat, kids: seq<nat>, j: nat, b: nat, k: nat)
    requires CanRelease(t, g, i, kids) && j <= |kids| && Frontier(kids, j, b)
    requires k < |g| && Releasable(Rows(t, g), k) && b <= k
    ensures j < |kids| && kids[j] <= k
  {
    ChildIffParent(g, i, k);
    ChildrenSorted(g, i);
    var x :| 0 <= x < |kids| && kids[x] == k;
  }

  lemma GapIsEmpty(t: Table, t': Table, g: seq<seq<nat>>, i: nat, kids: seq<nat>, clock: nat, nextSeq: nat,
                   j: nat, b: nat)
    requires Countdown(t, t', g, i, kids, clock, nextSeq, j, b) && j < |kids|
    ensures b <= kids[j] && forall k: nat :: b <= k < kids[j] ==> !Releasable(Rows(t, g), k)
  {
    ChildrenSorted(g, i);
    forall k: nat | b <= k < kids[j]
      ensures !Releasable(Rows(t, g), k)
    {
      if Releasable(Rows(t, g), k) {
        FrontierGap(t, g, i, kids, j, b, k);
      }
    }
  }

  /** The frontier can move up to the next child, because nothing before it is due. */
  lemma CountdownReaches(t: Table, t': Table, g: seq<seq<nat>>, i: nat, kids: seq<nat>, clock: nat, nextSeq: nat,
                         j: nat, b: nat)
    requires Countdown(t, t', g, i, kids, clock, nextSeq, j, b) && j < |kids|
    ensures kids[j] < |g| && Countdown(t, t', g, i, kids, clock, nextSeq, j, kids[j])
  {
    var c, ts := kids[j], Rows(t, g);
    ChildrenSorted(g, i);
    GapIsEmpty(t, t', g, i, kids, clock, nextSeq, j, b);
    NoneReleasedBetween(ts, b, c);
    assert kids[j..][0] == c;
    assert StatesBelow(t.state, ts, b) == StatesBelow(t.state, ts, c);
    assert NumbersBelow(t.seqNo, ts, clock, b) == NumbersBelow(t.seqNo, ts, clock, c);
  }

  /** The table after child `c` has been counted down once, and released as number `seqNo` if it is due. */
  function CountedDown(t: Table, c: nat, seqNo: nat): Table
    requires c < |t.pendingParents| && c < |t.state| && c < |t.seqNo| && t.pendingParents[c] > 0
  {
    var due := t.pendingParents[c] == 1 && t.state[c].Waiting?;
    t.(pendingParents := t.pendingParents[c := t.pendingParents[c] - 1],
       state := if due then t.state[c := Ready] else t.state,
       seqNo := if due then t.seqNo[c := seqNo] else t.seqNo)
  }

  lemma CountsStep(st: seq<TaskState>, g: seq<seq<nat>>, left: seq<nat>)
    requires left != [] && left[0] < |g|
    ensures var counts := CountsLeft(st, g, left);
            && counts[left[0]] > 0
            && CountsLeft(st, g, left[1..]) == counts[left[0] := counts[left[0]] - 1]
  {
    assert left == [left[0]] + left[1..];
  }

  lemma PassRow(t: Table, ts: seq<Task>, clock: nat, c: nat)
    requires Shape(t, |ts|) && c < |ts|
    ensures var st, no := StatesBelow(t.state, ts, c), NumbersBelow(t.seqNo, ts, clock, c);
            var due := Releasable(ts, c);
            && StatesBelow(t.state, ts, c + 1) == (if due then st[c := Ready] else st)
            && NumbersBelow(t.seqNo, ts, clock, c + 1) ==
               if due then no[c := clock + 1 + ReleasedBefore(ts, c)] else no
  {}

  /** The count of a child is about to reach zero exactly when all its parents have finished. */
  lemma DueIffReleasable(t: Table, t': Table, g: seq<seq<nat>>, i: nat, kids: seq<nat>, clock: nat, nextSeq: nat,
                         j: nat)
    requires j < |kids| && kids[j] < |g| && Countdown(t, t', g, i, kids, clock, nextSeq, j, kids[j])
    ensures var c := kids[j];
            && t'.pendingParents[c] > 0
            && (t'.pendingParents[c] == 1 && t'.state[c].Waiting? <==> Next(kids, j) == c + 1 && Releasable(Rows(t, g), c))
  {
    var c, rest := kids[j], kids[j + 1..];
    ChildrenSorted(g, i);
    assert kids[j..] == [c] + rest;
    assert c in rest <==> multiset(rest)[c] > 0;
    assert c in rest <==> Next(kids, j) == c by {
      assert forall x :: 0 <= x < |rest| ==> rest[x] == kids[j + 1 + x];
      assert j + 1 < |kids| ==> rest[0] == kids[j + 1];
    }
    AllFinishedIsZero(t, g, g[c]);
  }

  /** What one countdown of child `kids[j]` does to the columns it writes. */
  lemma CountdownColumns(t: Table, t': Table, g: seq<seq<nat>>, i: nat, kids: seq<nat>, clock: nat, nextSeq: nat,
                         j: nat)
    requires j < |kids| && kids[j] < |g| && Countdown(t, t', g, i, kids, clock, nextSeq, j, kids[j])
    requires t'.pendingParents[kids[j]] > 0
    ensures var t'', ts, next := CountedDown(t', kids[j], nextSeq + 1), Rows(t, g), Next(kids, j);
            && t''.pendingParents == CountsLeft(t.state, g, kids[j + 1..])
            && t''.state == StatesBelow(t.state, ts, next)
            && t''.seqNo == NumbersBelow(t.seqNo, ts, clock, next)
  {
    var c, ts := kids[j], Rows(t, g);
    var t'' := CountedDown(t', c, nextSeq + 1);
    assert kids[j..][1..] == kids[j + 1..];
    CountsStep(t.state, g, kids[j..]);
    DueIffReleasable(t, t', g, i, kids, clock, nextSeq, j);
    if t'.pendingParents[c] == 1 && t'.state[c].Waiting? {
      PassRow(t, ts, clock, c);
    } else {
      assert t''.state == t'.state && t''.seqNo == t'.seqNo;
      if Next(kids, j) == c + 1 {
        PassRow(t, ts, clock, c);
      }
    }
  }

  /** Counting down child `kids[j]`, and releasing it if it is due, takes the countdown one step on. */
  lemma CountdownSteps(t: Table, t': Table, t'': Table, g: seq<seq<nat>>, i: nat, kids: seq<nat>, clock: nat,
                       nextSeq: nat, nextSeq': nat, j: nat)
    requires j < |kids| && kids[j] < |g| && Countdown(t, t', g, i, kids, clock, nextSeq, j, kids[j])
    requires t'.pendingParents[kids[j]] > 0 && t'' == CountedDown(t', kids[j], nextSeq + 1)
    requires var due := t'.pendingParents[kids[j]] == 1 && t'.state[kids[j]].Waiting?;
             nextSeq' == if due then nextSeq + 1 else nextSeq
    ensures Countdown(t, t'', g, i, kids, clock, nextSeq', j + 1, Next(kids, j))
  {
    ChildrenSorted(g, i);
    CountdownColumns(t, t', g, i, kids, clock, nextSeq, j);
    DueIffReleasable(t, t', g, i, kids, clock, nextSeq, j);
  }

  lemma AllFinishedIsZero(t: Table, g: seq<seq<nat>>, ps: seq<nat>)
    requires Shape(t, |g|)
    ensures AllFinished(Rows(t, g), ps) <==> Unfinished(t.state, ps) == 0
  {
    UnfinishedIsZero(t.state, ps);
    if AllFinished(Rows(t, g), ps) {
      forall j | 0 <= j < |ps|
        ensures ps[j] < |t.state| && t.state[ps[j]].Finished?
      {
        assert ps[j] in ps;
      }
    }
  }

  lemma NothingLeft(t: Table, t': Table, g: seq<seq<nat>>, i: nat, kids: seq<nat>, clock: nat, nextSeq: nat, b: nat)
    requires Countdown(t, t', g, i, kids, clock, nextSeq, |kids|, b)
    ensures forall k: nat :: b <= k < |g| ==> !Releasable(Rows(t, g), k)
  {
    forall k: nat | b <= k < |g|
      ensures !Releasable(Rows(t, g), k)
    {
      if Releasable(Rows(t, g), k) {
        FrontierGap(t, g, i, kids, |kids|, b, k);
      }
    }
  }

  /** When every child is counted down, exactly the releasable rows are released. */
  lemma CountdownEnds(t: Table, t': Table, g: seq<seq<nat>>, i: nat, kids: seq<nat>, clock: nat, nextSeq: nat, b: nat)
    requires Countdown(t, t', g, i, kids, clock, nextSeq, |kids|, b)
    ensures Rows(t', g) == Release(Rows(t, g), clock)
    ensures nextSeq == clock + ReleasedBefore(Rows(t, g), |g|)
  {
    var ts := Rows(t, g);
    NothingLeft(t, t', g, i, kids, clock, nextSeq, b);
    NoneReleasedBetween(ts, b, |g|);
    forall k: nat | k < |g|
      ensures Rows(t', g)[k] == Release(ts, clock)[k]
    {
      assert t'.state[k] == StatesBelow(t.state, ts, b)[k] && t'.seqNo[k] == NumbersBelow(t.seqNo, ts, clock, b)[k];
    }
  }
}
