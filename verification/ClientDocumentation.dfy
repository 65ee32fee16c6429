/**
Runs in which the client does not report what its documentation promises. ReportsClosedIff and
ReportsCancelledIff say exactly when it does.
*/
module ClientDocumentation {
  import opened ClientTransport

  ghost predicate Reachable(polls: bool, s: Client) {
    exists run: seq<Event> :: After(polls, run, |run|) == s
  }

  lemma {:induction false} AfterPrefix(polls: bool, run: seq<Event>, more: seq<Event>, n: nat)
    requires n <= |run|
    ensures After(polls, run + more, n) == After(polls, run, n)
  {
    hide Next;
    if n > 0 {
      AfterPrefix(polls, run, more, n - 1);
    }
  }

  lemma Reach(polls: bool, s: Client, e: Event)
    requires Reachable(polls, s)
    ensures Reachable(polls, Next(s, e))
  {
    hide Next;
    var run: seq<Event> :| After(polls, run, |run|) == s;
    AfterPrefix(polls, run, [e], |run|);
    assert After(polls, run + [e], |run + [e]|) == Next(s, e);
  }

  /** A client with one call. */
  function One(polls: bool, closed: bool, k: Call): Client {
    Client(polls, closed, Unlocked, if Active(k) then {0} else {}, map[0 := k])
  }

  lemma ReachInner(polls: bool, closed: bool, k: Call, e: Event, k': Call)
    requires Reachable(polls, One(polls, closed, k)) && Inner(e) && e.c == 0
    requires k' == Complete(Wait(polls, k, e), e) && Active(k') == Active(k)
    ensures Reachable(polls, One(polls, closed, k'))
  {
    hide Wait, Complete, Reachable, Active;
    Reach(polls, One(polls, closed, k), e);
    assert Next(One(polls, closed, k), e) == One(polls, closed, k');
  }

  lemma ReachStarted(polls: bool) returns (k: Call)
    ensures k == FRESH.(place := Entering, callback := Pending) && Reachable(polls, One(polls, false, k))
  {
    assert After(polls, [], 0) == Initial(polls);
    var k1 := FRESH.(place := Begun);
    Reach(polls, Initial(polls), Begin(0));
    assert Next(Initial(polls), Begin(0)) == One(polls, false, k1);
    k := k1.(place := Entering, callback := Pending);
    ReachInner(polls, false, k1, Start(0), k);
  }

  lemma ReachClosed(polls: bool, k: Call)
    requires Reachable(polls, One(polls, false, k)) && Active(k)
    ensures Reachable(polls, One(polls, true, k.(cancelRequested := true)))
  {
    hide Reachable;
    var s := One(polls, false, k);
    Reach(polls, s, CloseBegin);
    var s1 := s.(closed := true, callsLock := Closing({0}));
    assert Next(s, CloseBegin) == s1;
    Reach(polls, s1, CloseCancel(0));
    var s2 := s1.(calls := map[0 := k.(cancelRequested := true)], callsLock := Closing({}));
    assert {0} - {0} == {};
    assert Next(s1, CloseCancel(0)) == s2;
    Reach(polls, s2, CloseEnd);
    assert Next(s2, CloseEnd) == One(polls, true, k.(cancelRequested := true));
  }

  lemma ReachStatus(polls: bool, closed: bool, k: Call, st: Status)
    requires Reachable(polls, One(polls, closed, k)) && k.owner.Nobody? && k.callback.Pending?
    ensures Reachable(polls, One(polls, closed, k.(callback := StatusSet, owner := Completer, status := st)))
  {
    hide Reachable, Wait;
    var k1 := k.(callback := Holding, owner := Completer);
    ReachCallback(polls, closed, k, TakeLock(0), k1);
    ReachCallback(polls, closed, k1, SetStatus(0, st), k1.(callback := StatusSet, status := st));
  }

  lemma ReachCompleted(polls: bool, closed: bool, k: Call, st: Status)
    requires Reachable(polls, One(polls, closed, k)) && !k.place.Sleeping? && k.owner.Nobody? && k.callback.Pending?
    ensures Reachable(polls, One(polls, closed, k.(callback := Completed, status := st, done := true)))
  {
    hide Reachable, Wait, Active;
    ReachStatus(polls, closed, k, st);
    var k1 := k.(callback := StatusSet, owner := Completer, status := st);
    var k2 := k1.(callback := DoneSet, done := true);
    ReachCallback(polls, closed, k1, SetDone(0), k2);
    var k3 := k2.(callback := Notified);
    ReachCallback(polls, closed, k2, Notify(0), k3);
    ReachCallback(polls, closed, k3, DropLock(0), k3.(callback := Completed, owner := Nobody));
  }

  lemma ReachCallback(polls: bool, closed: bool, k: Call, e: Event, k': Call)
    requires Reachable(polls, One(polls, closed, k)) && Inner(e) && !ByWaiter(e) && e.c == 0
    requires k' == Complete(k, e) && k'.place == k.place
    ensures Reachable(polls, One(polls, closed, k'))
  {
    hide Reachable, Wait, Complete;
    OthersLeaveWaiter(polls, k, e);
    ReachInner(polls, closed, k, e, k');
  }

  /** From a call that waits, through its callback, to its end. */
  lemma ReachEnd(polls: bool, closed: bool, k: Call, st: Status) returns (k': Call)
    requires Reachable(polls, One(polls, closed, k)) && k.owner.Nobody?
    requires k.place == Entering || k.place == Waking(false)
    requires k.callback.Pending?
    ensures Reachable(polls, One(polls, closed, k'))
    ensures k'.place == Ended(Verdict(k.(status := st), closed)) && k'.status == st
    ensures k'.cancelRequested == k.cancelRequested && k'.waitCancels == k.waitCancels && k'.threw == k.threw
  {
    hide Reachable, Wait, Complete;
    ReachCompleted(polls, closed, k, st);
    k' := ReachReturn(polls, closed, k.(callback := Completed, status := st, done := true));
  }

  lemma ReachReturn(polls: bool, closed: bool, k: Call) returns (k': Call)
    requires Reachable(polls, One(polls, closed, k)) && k.owner.Nobody?
    requires k.place == Entering || k.place == Waking(false)
    requires k.callback.Completed? && k.done
    ensures Reachable(polls, One(polls, closed, k'))
    ensures k' == k.(place := Ended(Verdict(k, closed)), sawClosed := closed)
  {
    hide Reachable;
    var k1 := k.(place := Checking(false), owner := Waiter);
    ReachInner(polls, closed, k, Lock(0), k1);
    var k2 := k.(place := Leaving);
    ReachInner(polls, closed, k1, Check(0), k2);
    ReachEnded(polls, closed, k2);
    k' := k2.(place := Ended(Verdict(k2, closed)), sawClosed := closed);
  }

  lemma ReachEnded(polls: bool, closed: bool, k: Call)
    requires Reachable(polls, One(polls, closed, k)) && k.place.Leaving?
    ensures Reachable(polls, One(polls, closed, k.(place := Ended(Verdict(k, closed)), sawClosed := closed)))
  {
    hide Reachable, Wait, Complete, Verdict;
    Reach(polls, One(polls, closed, k), End(0));
    assert {0} - {0} == {};
    assert Next(One(polls, closed, k), End(0))
           == One(polls, closed, k.(place := Ended(Verdict(k, closed)), sawClosed := closed));
  }

  /** A call that `close` cancels need not report Closed: it returns if it completed before that. */
  lemma CanceledByCloseCanReturn()
    ensures exists s :: Reachable(false, s) && Of(s, 0).cancelRequested && Of(s, 0).place == Ended(Returned)
  {
    hide Reachable;
    var k := ReachStarted(false);
    ReachClosed(false, k);
    var k' := ReachEnd(false, true, k.(cancelRequested := true), Success);
    assert Of(One(false, true, k'), 0) == k';
  }

  /** The steps of a waiting thread that polls, and is told to cancel. */
  lemma ReachCancelled(k: Call) returns (k': Call)
    requires Reachable(true, One(true, false, k)) && k == FRESH.(place := Entering, callback := Pending)
    ensures k' == k.(place := Waking(false), cancelRequested := true, cancelled := true, waitCancels := 1)
    ensures Reachable(true, One(true, false, k'))
  {
    hide Reachable;
    ReachInner(true, false, k, Lock(0), k.(place := Checking(false), owner := Waiter));
    ReachInner(true, false, k.(place := Checking(false), owner := Waiter), Check(0), k.(place := Sleeping));
    ReachInner(true, false, k.(place := Sleeping), Wake(0, true), k.(place := Waking(true)));
    ReachInner(true, false, k.(place := Waking(true)), Lock(0), k.(place := Checking(true), owner := Waiter));
    ReachInner(true, false, k.(place := Checking(true), owner := Waiter), Check(0), k.(place := Asking));
    ReachInner(true, false, k.(place := Asking), Answer(0, true), k.(place := Answered(true)));
    ReachInner(true, false, k.(place := Answered(true)), Lock(0), k.(place := Deciding(true), owner := Waiter));
    k' := k.(place := Waking(false), cancelRequested := true, cancelled := true, waitCancels := 1);
    ReachInner(true, false, k.(place := Deciding(true), owner := Waiter), Decide(0),
               k'.(place := Checking(false), owner := Waiter));
    ReachInner(true, false, k'.(place := Checking(false), owner := Waiter), Check(0), k'.(place := Sleeping));
    ReachInner(true, false, k'.(place := Sleeping), Wake(0, false), k');
  }

  /** A call that should_cancel cancels need not report Cancelled: it may still complete, and return its response. */
  lemma CanceledByPollCanReturn()
    ensures exists s :: Reachable(true, s) && Of(s, 0).waitCancels == 1 && Of(s, 0).place == Ended(Returned)
  {
    hide Reachable;
    var k := ReachStarted(true);
    var k1 := ReachCancelled(k);
    var k2 := ReachEnd(true, false, k1, Success);
    assert Of(One(true, false, k2), 0) == k2;
  }

  /** Nor if it completes as canceled: a close may get in before its end_call. */
  lemma CanceledByPollCanReportClosed()
    ensures exists s :: Reachable(true, s) && Of(s, 0).waitCancels == 1 && Of(s, 0).place == Ended(Closed)
  {
    hide Reachable;
    var k := ReachStarted(true);
    var k1 := ReachCancelled(k);
    ReachClosed(true, k1);
    var k2 := ReachEnd(true, true, k1.(cancelRequested := true), Canceled);
    assert Of(One(true, true, k2), 0) == k2;
  }
}
