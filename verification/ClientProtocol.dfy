/** What every interleaving of calls, callbacks and closes guarantees. */
module ClientProtocol {
  import opened ClientTransport

  // ---------- A call and its callback ----------

  /** Nothing touches a call once `invoke` has left its frame: not the callback, and not `close`. */
  lemma EndedIsFixed(s: Client, e: Event, c: nat)
    requires Inv(s) && (Of(s, c).place.Ended? || Of(s, c).place.Rejected?)
    ensures Of(Next(s, e), c) == Of(s, c)
  {
    hide Wait, Complete, Verdict, Polling;
    assert EntryOk(s, c);
    EndedTakesNoStep(s.polls, Of(s, c), e);
  }

  lemma EndedTakesNoStep(polls: bool, k: Call, e: Event)
    requires CallOk(polls, k) && (k.place.Ended? || k.place.Rejected?)
    ensures Complete(Wait(polls, k, e), e) == k
  {}

  lemma {:induction false} EndedForever(polls: bool, run: seq<Event>, i: nat, j: nat, c: nat)
    requires i <= j <= |run|
    requires Of(After(polls, run, i), c).place.Ended? || Of(After(polls, run, i), c).place.Rejected?
    ensures Of(After(polls, run, j), c) == Of(After(polls, run, i), c)
    decreases j
  {
    hide Next, Inv;
    if i < j {
      EndedForever(polls, run, i, j - 1, c);
      RunKeepsInv(polls, run, j - 1);
      EndedIsFixed(After(polls, run, j - 1), run[j - 1], c);
    }
  }

  /** `invoke` leaves its frame only after the callback has stored the status, set `done` and let go of the lock. */
  lemma NoEarlyUnwind(polls: bool, run: seq<Event>, n: nat, c: nat)
    requires n <= |run|
    ensures var k := Of(After(polls, run, n), c); k.place.Leaving? || k.place.Ended? ==> k.done && k.callback.Completed?
  {
    RunKeepsInv(polls, run, n);
    assert EntryOk(After(polls, run, n), c);
  }

  /** No wake-up is lost: a thread that sleeps has its notification still to come, and that one wakes it. */
  lemma NoLostWakeUp(polls: bool, run: seq<Event>, n: nat, c: nat)
    requires n <= |run| && Of(After(polls, run, n), c).place.Sleeping?
    ensures var s := After(polls, run, n);
            && !Of(s, c).callback.Notified? && !Of(s, c).callback.Completed? && !Of(s, c).owner.Waiter?
            && (Of(s, c).callback.DoneSet? ==> Of(Next(s, Notify(c)), c).place.Waking?)
  {
    RunKeepsInv(polls, run, n);
    assert EntryOk(After(polls, run, n), c);
  }

  /** Whatever should_cancel answers and however long it takes, `wait` cancels the call at most once. */
  lemma WaitCancelsOnce(polls: bool, run: seq<Event>, n: nat, c: nat)
    requires n <= |run|
    ensures var k := Of(After(polls, run, n), c);
            && k.waitCancels <= 1
            && (k.place.Asking? ==> k.waitCancels == 0 && !k.owner.Waiter?)
            && (!polls ==> k.waitCancels == 0 && !k.threw)
  {
    RunKeepsInv(polls, run, n);
    assert EntryOk(After(polls, run, n), c);
  }

  // ---------- Close ----------

  lemma ClosedStep(s: Client, e: Event, c: nat)
    requires Inv(s) && s.closed
    ensures var s' := Next(s, e);
            && s'.closed
            && (c in s'.registered ==> c in s.registered)
            && (Of(s, c).place.Outside? ==> Of(s', c).place.Outside? || Of(s', c).place.Rejected?)
  {
    hide Complete, Wait;
    assert EntryOk(s, c);
    if Inner(e) {
      OutsideStays(s.polls, Of(s, c), e);
    }
  }

  lemma OutsideStays(polls: bool, k: Call, e: Event)
    requires CallOk(polls, k)
    ensures k.place.Outside? ==> Complete(Wait(polls, k, e), e).place.Outside?
  {}

  /** A closed client stays closed and registers no call; a later call is rejected without reaching the stub. */
  lemma {:induction false} ClosedForGood(polls: bool, run: seq<Event>, i: nat, j: nat, c: nat)
    requires i <= j <= |run| && After(polls, run, i).closed
    ensures var s, s' := After(polls, run, i), After(polls, run, j);
            && s'.closed
            && (c in s'.registered ==> c in s.registered)
            && (Of(s, c).place.Outside? ==> Of(s', c).place.Outside? || Of(s', c).place.Rejected?)
            && (Of(s', c).place.Outside? || Of(s', c).place.Rejected? ==> Of(s', c).callback.Idle?)
    decreases j
  {
    hide Next, Inv, EntryOk;
    RunKeepsInv(polls, run, j);
    NotStartedIsIdle(After(polls, run, j), c);
    if i < j {
      ClosedForGood(polls, run, i, j - 1, c);
      RunKeepsInv(polls, run, j - 1);
      ClosedStep(After(polls, run, j - 1), run[j - 1], c);
      if Of(After(polls, run, j - 1), c).place.Rejected? {
        EndedIsFixed(After(polls, run, j - 1), run[j - 1], c);
      }
    }
  }

  lemma NotStartedIsIdle(s: Client, c: nat)
    requires Inv(s)
    ensures Of(s, c).place.Outside? || Of(s, c).place.Rejected? ==> Of(s, c).callback.Idle?
  {
    assert EntryOk(s, c);
  }

  /**
  The calls that `close` visits have not ended, so their contexts are alive. Of the registered calls,
  only those that it has still to visit are not canceled, and when it is done there are none of them.
  */
  lemma CloseCancelsAll(polls: bool, run: seq<Event>, n: nat, c: nat)
    requires n <= |run|
    ensures var s := After(polls, run, n);
            && (c in s.registered <==> Active(Of(s, c)))
            && (s.callsLock.Closing? && c in s.callsLock.remaining ==> Active(Of(s, c)))
            && (s.closed && Active(Of(s, c)) ==>
                  Of(s, c).cancelRequested || (s.callsLock.Closing? && c in s.callsLock.remaining))
  {
    RunKeepsInv(polls, run, n);
    assert EntryOk(After(polls, run, n), c);
  }

  /** The loop of `close`, over the calls in the order visited. */
  function CancelAll(s: Client, order: seq<nat>): Client {
    if order == [] then s else Next(CancelAll(s, order[..|order| - 1]), CloseCancel(order[|order| - 1]))
  }

  lemma {:induction false} CancelsEach(s: Client, order: seq<nat>)
    requires s.callsLock.Closing?
    ensures var s' := CancelAll(s, order);
            && s'.polls == s.polls && s'.closed == s.closed && s'.registered == s.registered
            && s'.callsLock == Closing(s.callsLock.remaining - set c | c in order)
            && forall c: nat :: Of(s', c) == if c in order && c in s.callsLock.remaining
                                             then Of(s, c).(cancelRequested := true) else Of(s, c)
  {
    hide Next, Of;
    if order == [] {
      assert s.callsLock.remaining - {} == s.callsLock.remaining;
    } else {
      var rest, c := order[..|order| - 1], order[|order| - 1];
      assert order == rest + [c];
      CancelsEach(s, rest);
      CancelsOne(CancelAll(s, rest), c);
      assert (s.callsLock.remaining - set d | d in rest) - {c} == s.callsLock.remaining - set d | d in order;
    }
  }

  lemma CancelsOne(s: Client, c: nat)
    requires s.callsLock.Closing?
    ensures var s' := Next(s, CloseCancel(c));
            && s'.polls == s.polls && s'.closed == s.closed && s'.registered == s.registered
            && s'.callsLock == Closing(s.callsLock.remaining - {c})
            && forall d: nat :: Of(s', d) == if d == c && c in s.callsLock.remaining
                                             then Of(s, d).(cancelRequested := true) else Of(s, d)
  {
    hide Wait, Complete;
    assert c !in s.callsLock.remaining ==> s.callsLock.remaining - {c} == s.callsLock.remaining;
  }

  /** A close, in whatever order it visits the calls, closes the client and cancels every registered call, and no other. */
  lemma CloseCancelsRegistered(s: Client, order: seq<nat>)
    requires Inv(s) && s.callsLock.Unlocked? && forall c :: c in order <==> c in s.registered
    ensures var s' := Next(CancelAll(Next(s, CloseBegin), order), CloseEnd);
            && s'.closed && s'.callsLock.Unlocked? && s'.registered == s.registered && s'.polls == s.polls
            && forall c: nat :: Of(s', c) == if Active(Of(s, c)) then Of(s, c).(cancelRequested := true) else Of(s, c)
  {
    var s1 := Next(s, CloseBegin);
    CancelsEach(s1, order);
    assert s.registered - (set c | c in order) == {};
    var s' := Next(CancelAll(s1, order), CloseEnd);
    forall c: nat
      ensures Of(s', c) == if Active(Of(s, c)) then Of(s, c).(cancelRequested := true) else Of(s, c)
    {
      assert EntryOk(s, c);
    }
  }

  /** The client is closed exactly when some close has taken the lock. */
  lemma {:induction false} ClosedIff(polls: bool, run: seq<Event>, n: nat)
    requires n <= |run|
    ensures After(polls, run, n).closed <==>
            exists i: nat :: i < n && run[i] == CloseBegin && After(polls, run, i).callsLock.Unlocked?
  {
    hide Next;
    if n > 0 {
      ClosedIff(polls, run, n - 1);
      ClosesIff(After(polls, run, n - 1), run[n - 1]);
    }
  }

  lemma ClosesIff(s: Client, e: Event)
    ensures Next(s, e).closed <==> s.closed || (e == CloseBegin && s.callsLock.Unlocked?)
  {
    hide Wait, Complete;
  }

  lemma CancelNoMore(s: Client, c: nat)
    requires s.callsLock.Closing? && c in s.calls && s.calls[c].cancelRequested
    ensures Next(s, CloseCancel(c)) == s.(callsLock := Closing(s.callsLock.remaining - {c}))
  {
    assert s.calls[c].(cancelRequested := true) == s.calls[c];
    assert s.calls[c := s.calls[c]] == s.calls;
    assert c !in s.callsLock.remaining ==> s.callsLock.remaining - {c} == s.callsLock.remaining;
  }

  lemma {:induction false} CancelAgain(s: Client, order: seq<nat>)
    requires s.callsLock.Closing? && forall c :: c in order ==> c in s.calls && s.calls[c].cancelRequested
    ensures CancelAll(s, order) == s.(callsLock := Closing(s.callsLock.remaining - set c | c in order))
  {
    hide Next;
    if order == [] {
      assert s.callsLock.remaining - {} == s.callsLock.remaining;
    } else {
      var rest, c := order[..|order| - 1], order[|order| - 1];
      assert order == rest + [c];
      CancelAgain(s, rest);
      CancelNoMore(CancelAll(s, rest), c);
      assert (s.callsLock.remaining - set d | d in rest) - {c} == s.callsLock.remaining - set d | d in order;
    }
  }

  /** Closing a closed client changes nothing. */
  lemma CloseIsIdempotent(s: Client, order: seq<nat>)
    requires Inv(s) && s.closed && s.callsLock.Unlocked? && forall c :: c in order <==> c in s.registered
    ensures Next(CancelAll(Next(s, CloseBegin), order), CloseEnd) == s
  {
    forall c | c in order
      ensures c in s.calls && s.calls[c].cancelRequested
    {
      assert EntryOk(s, c);
    }
    CancelAgain(Next(s, CloseBegin), order);
    assert s.registered - (set c | c in order) == {};
  }

  // ---------- What a call reports ----------

  /** Step `i` is the end_call of call `c`. */
  ghost predicate EndCallAt(polls: bool, run: seq<Event>, i: nat, c: nat) {
    i < |run| && run[i] == End(c) && Of(After(polls, run, i), c).place.Leaving?
    && After(polls, run, i).callsLock.Unlocked?
  }

  /** Only end_call ends a call, and what the call then reports was decided by what end_call saw. */
  lemma EndsOnlyByEnd(s: Client, e: Event, c: nat)
    requires Inv(s) && Of(Next(s, e), c).place.Ended? && !Of(s, c).place.Ended?
    ensures e == End(c) && Of(s, c).place.Leaving? && s.callsLock.Unlocked?
    ensures var k := Of(s, c); Of(Next(s, e), c) == k.(place := Ended(Verdict(k, s.closed)), sawClosed := s.closed)
  {
    hide Wait, Complete, CallOk, Verdict;
    if Inner(e) {
      InnerEndsNone(s, e, c);
    }
  }

  lemma InnerEndsNone(s: Client, e: Event, c: nat)
    requires Inv(s) && Inner(e) && !Of(s, c).place.Ended?
    ensures !Of(Next(s, e), c).place.Ended?
  {
    hide Next, Of, Wait, Complete, CallOk;
    assert EntryOk(s, c);
    var k := Of(s, c);
    InnerTouches(s, e, c);
    WaitKeepsOk(s.polls, k, e);
    CompleteKeepsOk(s.polls, Wait(s.polls, k, e), e);
    OutsideStays(s.polls, k, e);
    if k.place.Rejected? {
      EndedTakesNoStep(s.polls, k, e);
    }
  }

  /** A step inside one call changes that call and no other. */
  lemma InnerTouches(s: Client, e: Event, c: nat)
    requires Inner(e)
    ensures Of(Next(s, e), c) == if c == e.c then Complete(Wait(s.polls, Of(s, c), e), e) else Of(s, c)
  {
    hide Wait, Complete;
  }

  lemma {:induction false} EndedByEnd(polls: bool, run: seq<Event>, n: nat, c: nat)
    requires n <= |run| && Of(After(polls, run, n), c).place.Ended?
    ensures exists i: nat :: i < n && EndCallAt(polls, run, i, c)
              && var s := After(polls, run, i); var k := Of(s, c);
                 Of(After(polls, run, n), c) == k.(place := Ended(Verdict(k, s.closed)), sawClosed := s.closed)
    decreases n
  {
    hide Next, Inv, Verdict;
    var s := After(polls, run, n - 1);
    RunKeepsInv(polls, run, n - 1);
    if Of(s, c).place.Ended? {
      EndedIsFixed(s, run[n - 1], c);
      EndedByEnd(polls, run, n - 1, c);
    } else {
      EndsOnlyByEnd(s, run[n - 1], c);
      assert EndCallAt(polls, run, n - 1, c);
    }
  }

  /**
  A call reports Closed, if it was not rejected, exactly when it completed as canceled, the client was
  closed by the time of its end_call, and should_cancel did not throw. It does not matter who canceled it.
  */
  lemma ReportsClosedIff(polls: bool, run: seq<Event>, n: nat, c: nat)
    requires n <= |run| && Of(After(polls, run, n), c).place.Ended?
    ensures var k := Of(After(polls, run, n), c);
            k.place.result.Closed? <==>
              && k.status.Canceled? && !k.threw
              && exists i: nat :: i < n && EndCallAt(polls, run, i, c) && After(polls, run, i).closed
  {
    hide Next;
    EndedByEnd(polls, run, n, c);
    var i: nat :| i < n && EndCallAt(polls, run, i, c)
      && var s := After(polls, run, i); var k := Of(s, c);
         Of(After(polls, run, n), c) == k.(place := Ended(Verdict(k, s.closed)), sawClosed := s.closed);
    forall j: nat | j < n && EndCallAt(polls, run, j, c)
      ensures j == i
    {
      EndsOnce(polls, run, i, j, c);
    }
  }

  /**
  A call that should_cancel canceled reports Cancelled exactly when it completed as canceled and the
  client was not closed by the time of its end_call.
  */
  lemma ReportsCancelledIff(polls: bool, run: seq<Event>, n: nat, c: nat)
    requires n <= |run| && Of(After(polls, run, n), c).place.Ended? && Of(After(polls, run, n), c).waitCancels == 1
    ensures var k := Of(After(polls, run, n), c);
            k.place.result == Failed(Canceled) <==>
              k.status.Canceled? && !exists i: nat :: i < n && EndCallAt(polls, run, i, c) && After(polls, run, i).closed
  {
    ReportsClosedIff(polls, run, n, c);
    RunKeepsInv(polls, run, n);
    hide Next;
    var k := Of(After(polls, run, n), c);
    assert EntryOk(After(polls, run, n), c);
    assert !k.threw;
  }

  lemma EndsOnce(polls: bool, run: seq<Event>, i: nat, j: nat, c: nat)
    requires EndCallAt(polls, run, i, c) && EndCallAt(polls, run, j, c)
    ensures i == j
  {
    if i < j {
      EndedForever(polls, run, i + 1, j, c);
    } else if j < i {
      EndedForever(polls, run, j + 1, i, c);
    }
  }

  /** A call that completes as canceled after the close reports Closed, unless should_cancel threw. */
  lemma CanceledAfterClose(polls: bool, run: seq<Event>, i: nat, n: nat, c: nat)
    requires i <= n <= |run| && After(polls, run, i).closed
    requires !Of(After(polls, run, i), c).place.Ended? && Of(After(polls, run, n), c).place.Ended?
    requires Of(After(polls, run, n), c).status.Canceled? && !Of(After(polls, run, n), c).threw
    ensures Of(After(polls, run, n), c).place.result.Closed?
  {
    hide Next;
    EndedByEnd(polls, run, n, c);
    var m: nat :| m < n && EndCallAt(polls, run, m, c)
      && var s := After(polls, run, m); var k := Of(s, c);
         Of(After(polls, run, n), c) == k.(place := Ended(Verdict(k, s.closed)), sawClosed := s.closed);
    if m < i {
      EndCallEnds(polls, run, m, c);
      EndedForever(polls, run, m + 1, i, c);
    } else {
      ClosedForGood(polls, run, i, m, c);
    }
  }

  lemma EndCallEnds(polls: bool, run: seq<Event>, m: nat, c: nat)
    requires EndCallAt(polls, run, m, c)
    ensures Of(After(polls, run, m + 1), c).place.Ended?
  {}

  // ---------- Every call can end ----------

  function CallbackLeft(k: Call): nat {
    match k.callback
    case Idle => 7
    case Pending => 6
    case Holding => 5
    case StatusSet => 4
    case DoneSet => 3
    case Notified => 2
    case Completed => 1
  }

  /** The steps the waiting thread still has to make, at most, once the callback has run. */
  function ThreadLeft(p: Place): nat {
    match p
    case Asking => 6
    case Answered(_) => 5
    case Unwinding => 5
    case Deciding(_) => 4
    case Waking(_) => 4
    case Entering => 4
    case Checking(t) => if t then 3 else 2
    case Leaving => 1
    case _ => 0
  }

  /** The steps until the waiting thread lets go of the lock that the callback needs. */
  function UnlockLeft(p: Place): nat {
    match p
    case Deciding(_) => 3
    case Checking(t) => if t then 2 else 1
    case _ => 0
  }

  function PlaceLeft(k: Call): nat {
    if k.callback.Completed? then ThreadLeft(k.place) else UnlockLeft(k.place)
  }

  lemma ThreadOnward(polls: bool, k: Call, e: Event)
    requires CallOk(polls, k) && k.callback.Completed?
    ensures var k' := Complete(Wait(polls, k, e), e);
            && k'.callback.Completed? && k'.status == k.status
            && (k'.place != k.place ==> ThreadLeft(k'.place) < ThreadLeft(k.place))
  {}

  /** After the callback has run, the waiting thread only gets closer to its end, whatever the others do. */
  lemma OnlyOnward(s: Client, e: Event, c: nat)
    requires Inv(s) && Of(s, c).callback.Completed?
    ensures var k, k' := Of(s, c), Of(Next(s, e), c);
            && k'.callback.Completed? && k'.status == k.status
            && (k'.place != k.place ==> ThreadLeft(k'.place) < ThreadLeft(k.place))
  {
    hide Next, Of, Inv, ThreadLeft;
    if Inner(e) {
      InnerOnward(s, e, c);
    } else {
      EdgeOnward(s, e, c);
    }
  }

  lemma InnerOnward(s: Client, e: Event, c: nat)
    requires Inv(s) && Of(s, c).callback.Completed? && Inner(e)
    ensures var k, k' := Of(s, c), Of(Next(s, e), c);
            && k'.callback.Completed? && k'.status == k.status
            && (k'.place != k.place ==> ThreadLeft(k'.place) < ThreadLeft(k.place))
  {
    hide Next, Of, Wait, Complete, CallOk;
    assert EntryOk(s, c);
    InnerTouches(s, e, c);
    ThreadOnward(s.polls, Of(s, c), e);
  }

  lemma EdgeOnward(s: Client, e: Event, c: nat)
    requires Inv(s) && Of(s, c).callback.Completed? && !Inner(e)
    ensures var k, k' := Of(s, c), Of(Next(s, e), c);
            && k'.callback.Completed? && k'.status == k.status
            && (k'.place != k.place ==> ThreadLeft(k'.place) < ThreadLeft(k.place))
  {
    hide Wait, Complete, Verdict, Polling;
    assert EntryOk(s, c);
  }

  function Steps(s: Client, more: seq<Event>): Client
    decreases |more|
  {
    if more == [] then s else Steps(Next(s, more[0]), more[1..])
  }

  function CloseLeft(s: Client): nat {
    if s.callsLock.Unlocked? then 0 else |s.callsLock.remaining| + 1
  }

  /** The step open to the call itself, or to its callback. */
  function MoveOf(k: Call, c: nat): Event {
    if k.place.Begun? then Start(c)
    else if k.callback.Holding? then SetStatus(c, Success)
    else if k.callback.StatusSet? then SetDone(c)
    else if k.callback.DoneSet? then Notify(c)
    else if k.callback.Notified? then DropLock(c)
    else if k.place.Checking? then Check(c)
    else if k.place.Deciding? then Decide(c)
    else if k.callback.Pending? then TakeLock(c)
    else if k.place.Asking? then Answer(c, false)
    else if k.place.Unwinding? then Unwind(c)
    else Lock(c)
  }

  ghost predicate Closer(k': Call, k: Call) {
    || CallbackLeft(k') < CallbackLeft(k)
    || (CallbackLeft(k') == CallbackLeft(k) && PlaceLeft(k') < PlaceLeft(k))
  }

  lemma MoveIsCloser(polls: bool, k: Call, c: nat)
    requires CallOk(polls, k) && Active(k) && !k.place.Leaving?
    ensures var e := MoveOf(k, c); Inner(e) && e.c == c && Closer(Complete(Wait(polls, k, e), e), k)
  {
    hide Wait, Complete, Closer, MoveOf;
    if k.callback.Completed? {
      ThreadIsCloser(polls, k, c);
    } else if k.owner.Waiter? {
      UnlockIsCloser(polls, k, c);
    } else {
      CallbackIsCloser(polls, k, c);
    }
  }

  lemma ThreadIsCloser(polls: bool, k: Call, c: nat)
    requires CallOk(polls, k) && Active(k) && !k.place.Leaving? && k.callback.Completed?
    ensures var e := MoveOf(k, c); Inner(e) && e.c == c && Closer(Complete(Wait(polls, k, e), e), k)
  {}

  lemma UnlockIsCloser(polls: bool, k: Call, c: nat)
    requires CallOk(polls, k) && k.owner.Waiter? && !k.callback.Completed?
    ensures var e := MoveOf(k, c); Inner(e) && e.c == c && Closer(Complete(Wait(polls, k, e), e), k)
  {}

  lemma CallbackIsCloser(polls: bool, k: Call, c: nat)
    requires CallOk(polls, k) && Active(k) && !k.owner.Waiter? && !k.callback.Completed?
    ensures var e := MoveOf(k, c); Inner(e) && e.c == c && Closer(Complete(Wait(polls, k, e), e), k)
  {}

  /** A begun call has a step to make, or its callback has, or a close in progress. */
  lemma SomeoneCanMove(s: Client, c: nat) returns (e: Event)
    requires Inv(s) && Active(Of(s, c))
    ensures var s' := Next(s, e); var k, k' := Of(s, c), Of(s', c);
            || k'.place.Ended?
            || (Active(k') && Closer(k', k))
            || (Active(k') && CallbackLeft(k') == CallbackLeft(k) && PlaceLeft(k') == PlaceLeft(k)
                && CloseLeft(s') < CloseLeft(s))
  {
    hide Wait, Complete, CallOk, Closer;
    assert EntryOk(s, c);
    var k := Of(s, c);
    if k.place.Leaving? {
      e := LeavingMoves(s, c);
    } else {
      e := MoveOf(k, c);
      MoveIsCloser(s.polls, k, c);
      WaitKeepsOk(s.polls, k, e);
      CompleteKeepsOk(s.polls, Wait(s.polls, k, e), e);
    }
  }

  lemma LeavingMoves(s: Client, c: nat) returns (e: Event)
    requires Of(s, c).place.Leaving?
    ensures var s' := Next(s, e); var k, k' := Of(s, c), Of(s', c);
            || k'.place.Ended?
            || (k'.place == k.place && k'.callback == k.callback && CloseLeft(s') < CloseLeft(s))
  {
    hide Wait, Complete;
    if s.callsLock.Unlocked? {
      e := End(c);
    } else if s.callsLock.remaining == {} {
      e := CloseEnd;
    } else {
      var d :| d in s.callsLock.remaining;
      e := CloseCancel(d);
    }
  }

  /**
  No interleaving deadlocks: from every reachable state each call that has begun can be brought to its
  end, by its own steps, those of its callback, and those that complete a close in progress.
  */
  lemma {:induction false} CallCanEnd(s: Client, c: nat) returns (more: seq<Event>)
    requires Inv(s) && (Active(Of(s, c)) || Of(s, c).place.Ended?)
    ensures Of(Steps(s, more), c).place.Ended?
    decreases CallbackLeft(Of(s, c)), PlaceLeft(Of(s, c)), CloseLeft(s)
  {
    hide Next, Inv, CallbackLeft, PlaceLeft, CloseLeft;
    if Of(s, c).place.Ended? {
      more := [];
    } else {
      var e := SomeoneCanMove(s, c);
      NextKeepsInv(s, e);
      var rest := [];
      if !Of(Next(s, e), c).place.Ended? {
        rest := CallCanEnd(Next(s, e), c);
      }
      more := [e] + rest;
      assert more[1..] == rest;
    }
  }

  // ---------- Every schedule ends every call ----------

  /** The schedule gives the thread of call `c` its turn, with any answer of should_cancel; end_call needs its lock. */
  predicate Turn(s: Client, e: Event, c: nat) {
    match Of(s, c).place
    case Asking => e == Answer(c, true) || e == Answer(c, false) || e == Throw(c)
    case Leaving => e == End(c) && s.callsLock.Unlocked?
    case _ => e == MoveOf(Of(s, c), c)
  }

  function Turns(s: Client, more: seq<Event>, c: nat): nat
    decreases |more|
  {
    if more == [] then 0 else (if Turn(s, more[0], c) then 1 else 0) + Turns(Next(s, more[0]), more[1..], c)
  }

  lemma CompletedIsOnItsWay(polls: bool, k: Call)
    requires CallOk(polls, k) && k.callback.Completed?
    ensures k.place.Ended? <==> ThreadLeft(k.place) == 0
    ensures k.place.Ended? || Active(k)
  {}

  lemma AskingMovesOn(polls: bool, k: Call, e: Event)
    requires k.place.Asking? && k.callback.Completed? && (e.Answer? || e.Throw?)
    ensures ThreadLeft(Complete(Wait(polls, k, e), e).place) < ThreadLeft(k.place)
  {}

  lemma LeavingEnds(s: Client, c: nat)
    requires Of(s, c).place.Leaving? && s.callsLock.Unlocked?
    ensures Of(Next(s, End(c)), c).place.Ended?
  {
    hide Wait, Complete, Verdict;
  }

  /** A turn of a thread whose callback has run takes it onward. */
  lemma TurnIsOnward(s: Client, e: Event, c: nat)
    requires Inv(s) && Of(s, c).callback.Completed? && !Of(s, c).place.Ended? && Turn(s, e, c)
    ensures ThreadLeft(Of(Next(s, e), c).place) < ThreadLeft(Of(s, c).place)
  {
    hide Next, Of, Wait, Complete, CallOk, MoveOf, Closer;
    assert EntryOk(s, c);
    var k := Of(s, c);
    CompletedIsOnItsWay(s.polls, k);
    if k.place.Leaving? {
      LeavingEnds(s, c);
    } else if k.place.Asking? {
      AskingMovesOn(s.polls, k, e);
      InnerTouches(s, e, c);
    } else {
      ThreadIsCloser(s.polls, k, c);
      InnerTouches(s, e, c);
      CompletedIsLeast(k, Of(Next(s, e), c));
    }
  }

  lemma CompletedIsLeast(k: Call, k': Call)
    requires k.callback.Completed? && Closer(k', k)
    ensures ThreadLeft(k'.place) < ThreadLeft(k.place)
  {}

  /**
  Once its callback has run, a call ends under every schedule that gives its thread its turn often
  enough, whatever the other threads do in between: six turns always are.
  */
  lemma {:induction false} EveryScheduleEnds(s: Client, more: seq<Event>, c: nat)
    requires Inv(s) && Of(s, c).callback.Completed?
    requires Turns(s, more, c) >= ThreadLeft(Of(s, c).place)
    ensures ThreadLeft(Of(s, c).place) <= 6
    ensures Of(Steps(s, more), c).place.Ended?
    decreases |more|
  {
    hide Next, CallOk, Turn;
    assert EntryOk(s, c);
    CompletedIsOnItsWay(s.polls, Of(s, c));
    if more != [] {
      var s' := Next(s, more[0]);
      NextKeepsInv(s, more[0]);
      OnlyOnward(s, more[0], c);
      if Of(s, c).place.Ended? {
        EndedIsFixed(s, more[0], c);
      } else if Turn(s, more[0], c) {
        TurnIsOnward(s, more[0], c);
      }
      EveryScheduleEnds(s', more[1..], c);
    }
  }
}
