/**
Runs in which the queue does not do what one sentence of its documentation says. FailedByWorkerIff and
FifoAmongEquals say exactly when it does.
*/
module SchedulerDocumentation {
  import opened TaskTypes
  import opened Scheduler
  import opened SchedulerInvariant
  import opened SchedulerRuns
  import opened SchedulerDependencies

  /** Task `p` is added, `a` under it, and `b` on its own; `p` is claimed, and reported as finished or failed. */
  function Example(failed: bool): (reqs: seq<Request>)
    ensures |reqs| == 5
  {
    [Add("p", [], ["p"], 0.0, "", ""), Add("a", ["p"], ["q"], 0.0, "", ""), Add("b", [], ["q"], 0.0, "", ""),
     Get("w", ["p"]), Done("p", "w", "", failed)]
  }

  const P := Task("p", [], ["p"], "", "", 0.0, Ready, "", "", 0, 1)
  const A := Task("a", [0], ["q"], "", "", 0.0, Waiting, "", "", 1, 0)
  const B := Task("b", [], ["q"], "", "", 0.0, Ready, "", "", 2, 2)
  const CLAIMED := P.(state := Running, worker := "w")

  lemma FindOne(ts: seq<Task>, k: nat)
    requires k < |ts| && forall j :: 0 <= j < |ts| && j != k ==> ts[j].id != ts[k].id
    ensures Find(ts, ts[k].id) == Some(k)
  {}

  lemma After1(failed: bool)
    ensures At(Example(failed), 1) == Sched([P], 1)
  {
    assert At(Example(failed), 0) == EMPTY;
  }

  lemma ParentFound()
    ensures Resolve([P], ["p"]) == Some([0])
  {
    FindOne([P], 0);
    assert Find([P], "p") == Some(0);
    assert forall id :: id in ["p"] ==> id == "p";
    var r := Resolve([P], ["p"]);
    assert r.value[0] == 0;
    assert r.value == [0];
  }

  lemma After2(failed: bool)
    ensures At(Example(failed), 2) == Sched([P, A], 1)
  {
    After1(failed);
    ParentFound();
    hide Resolve;
    assert "p"[0] != "a"[0];
    assert Find([P], "a") == None;
    assert [0][..0] == [];
  }

  lemma After3(failed: bool)
    ensures At(Example(failed), 3) == Sched([P, A, B], 2)
  {
    After2(failed);
    assert "b"[0] != "a"[0] && "b"[0] != "p"[0];
    assert Find([P, A], "b") == None;
    assert Resolve([P, A], []) == Some([]);
    hide Resolve, Find;
  }

  lemma OnlyOffer()
    ensures Choice([P, A, B], ["p"]) == Some(0)
  {
    var ts := [P, A, B];
    assert "p"[0] != "q"[0];
    assert IsBest(ts, "p", 0);
    assert Best(ts, "p") == Some(0);
  }

  lemma After4(failed: bool)
    ensures At(Example(failed), 4) == Sched([CLAIMED, A, B], 2)
  {
    After3(failed);
    OnlyOffer();
    hide Choice;
  }

  lemma ReportFound()
    ensures Find([CLAIMED, A, B], "p") == Some(0)
  {
    assert "p"[0] != "a"[0] && "p"[0] != "b"[0];
    FindOne([CLAIMED, A, B], 0);
  }

  lemma After5(failed: bool)
    ensures At(Example(failed), 5) == DoneStep(Sched([CLAIMED, A, B], 2), Done("p", "w", "", failed)).next
  {
    hide DoneStep;
    After4(failed);
  }

  lemma Released()
    ensures var ts := DoneStep(Sched([CLAIMED, A, B], 2), Done("p", "w", "", false)).next.tasks;
            |ts| == 3 && ts[1] == A.(state := Ready, arrival := 3) && ts[2] == B
  {
    ReportFound();
    hide Find;
    var ts := Finish([CLAIMED, A, B], 0, "");
    assert Releasable(ts, 1) && !Releasable(ts, 0);
    assert ReleasedBefore(ts, 1) == ReleasedBefore(ts, 0) == 0;
  }

  lemma FailedWith()
    ensures var ts := DoneStep(Sched([CLAIMED, A, B], 2), Done("p", "w", "", true)).next.tasks;
            |ts| == 3 && ts[1].state.Failed? && ts[1].origin == 0
  {
    ReportFound();
    hide Find, End;
    var s := Sched([CLAIMED, A, B], 2);
    assert 0 in ParentsOf(s.tasks)[1];
    EndAt(s, 0, Failed, "w", "", 1);
  }

  /**
  Equals need not leave in the order they were added: `a` was added before `b`, but it waited for `p`, and
  now `b` is ahead of it in the queue that both name.
  */
  lemma AddedFirstCanLeaveLast()
    ensures var ts := At(Example(false), 5).tasks;
            && |ts| == 3 && ts[1].priority == ts[2].priority && Offers(ts, "q", 1) && Offers(ts, "q", 2)
            && Ahead(ts[2], ts[1])
  {
    hide At, DoneStep;
    After5(false);
    Released();
  }

  /** A Failed task need not have been handed back by a worker: `a` fails with `p`, and no task_get ever returned it. */
  lemma FailedCanBeUnclaimed()
    ensures |At(Example(true), 5).tasks| == 3 && At(Example(true), 5).tasks[1].state.Failed?
    ensures forall i: nat, worker: string :: !ClaimedAt(Example(true), i, 1, worker)
  {
    hide At, DoneStep, Example;
    After5(true);
    FailedWith();
    FailedByWorkerIff(Example(true), 5, 1);
  }
}
