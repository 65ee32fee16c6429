/**
The life of a call in the gRPC client: any number of threads in `invoke`, one completion callback for
each call, a waiting loop that may poll should_cancel, and `close`, which races with all of them.
An event is one atomic piece of one thread's work. gRPC is the environment: it runs the callback of a
started call once, with a status of its choice, and a cancellation it is asked for stays asked for.
*/
module ClientTransport {
  datatype Status = Success | Canceled | Failure(code: nat)

  /** How `invoke` ends: it returns, or throws Closed, the error of the status, or what should_cancel threw. */
  datatype Result = Returned | Closed | Failed(status: Status) | Rethrown

  /** Where the calling thread is. Checking and Deciding hold the lock of the call. */
  datatype Place =
    | Outside
    | Rejected                         // begin_call threw Closed
    | Begun                            // registered, not started
    | Entering                         // about to take the lock and wait, or wait out a canceled call
    | Checking(timedOut: bool)         // about to test `done`; timedOut: the last sleep ended by itself
    | Sleeping
    | Waking(timedOut: bool)
    | Asking                           // should_cancel is running
    | Answered(cancel: bool)
    | Deciding(cancel: bool)
    | Unwinding                        // should_cancel threw
    | Leaving                          // about to call end_call
    | Ended(result: Result)

  /** How far the completion callback is; between Holding and Notified it holds the lock of the call. */
  datatype Callback = Idle | Pending | Holding | StatusSet | DoneSet | Notified | Completed

  datatype Owner = Nobody | Waiter | Completer

  datatype Call = Call(
    place: Place, owner: Owner, callback: Callback, done: bool, status: Status,
    cancelRequested: bool,             // TryCancel was called on the context
    cancelled: bool,                   // the local flag of `wait`
    waitCancels: nat,                  // the TryCancel calls made by `wait`
    threw: bool,                       // should_cancel threw
    sawClosed: bool)                   // what end_call returned

  /** The lock over the registered calls: `close` holds it while it cancels what remains. */
  datatype CallsLock = Unlocked | Closing(remaining: set<nat>)

  datatype Client = Client(polls: bool, closed: bool, callsLock: CallsLock, registered: set<nat>, calls: map<nat, Call>)

  const FRESH := Call(Outside, Nobody, Idle, false, Success, false, false, 0, false, false)

  datatype Event =
    | Begin(c: nat)                    // begin_call
    | Start(c: nat)
    | Lock(c: nat)                     // the waiting thread takes the lock of the call
    | Check(c: nat)
    | Wake(c: nat, timedOut: bool)     // a sleep ends: spuriously, or after the poll interval
    | Answer(c: nat, cancel: bool)     // should_cancel returns
    | Throw(c: nat)                    // should_cancel throws
    | Decide(c: nat)
    | Unwind(c: nat)
    | End(c: nat)                      // end_call, and the return or throw that follows
    | TakeLock(c: nat)                 // the callback, from here
    | SetStatus(c: nat, status: Status)
    | SetDone(c: nat)
    | Notify(c: nat)
    | DropLock(c: nat)
    | CloseBegin                       // close, from here
    | CloseCancel(c: nat)
    | CloseEnd

  function Of(s: Client, c: nat): Call {
    if c in s.calls then s.calls[c] else FRESH
  }

  function With(s: Client, c: nat, k: Call): Client {
    s.(calls := s.calls[c := k])
  }

  /** Whether the wait in progress wakes up to poll. */
  predicate Polling(polls: bool, k: Call) {
    polls && !k.threw
  }

  /** The steps of the waiting thread under the lock of its call alone. */
  function Wait(polls: bool, k: Call, e: Event): Call {
    match (e, k.place)
    case (Start(_), Begun) => k.(place := Entering, callback := Pending)
    case (Lock(_), Entering) => if k.owner.Nobody? then k.(place := Checking(false), owner := Waiter) else k
    case (Lock(_), Waking(t)) => if k.owner.Nobody? then k.(place := Checking(t), owner := Waiter) else k
    case (Lock(_), Answered(b)) => if k.owner.Nobody? then k.(place := Deciding(b), owner := Waiter) else k
    case (Check(_), Checking(t)) =>
      if k.done then k.(place := Leaving, owner := Nobody)
      else if t && k.cancelled then k.(place := Checking(false))
      else if t then k.(place := Asking, owner := Nobody)
      else k.(place := Sleeping, owner := Nobody)
    case (Wake(_, t), Sleeping) => if t && !Polling(polls, k) then k else k.(place := Waking(t))
    case (Answer(_, b), Asking) => k.(place := Answered(b))
    case (Throw(_), Asking) => k.(place := Unwinding, threw := true)
    case (Decide(_), Deciding(b)) =>
      if b then k.(place := Checking(false), cancelRequested := true, cancelled := true, waitCancels := k.waitCancels + 1)
      else k.(place := Checking(false))
    case (Unwind(_), Unwinding) => k.(place := Entering, cancelRequested := true)
    case _ => k
  }

  /** The steps of the completion callback. */
  function Complete(k: Call, e: Event): Call {
    match (e, k.callback)
    case (TakeLock(_), Pending) => if k.owner.Nobody? then k.(callback := Holding, owner := Completer) else k
    case (SetStatus(_, st), Holding) => k.(callback := StatusSet, status := st)
    case (SetDone(_), StatusSet) => k.(callback := DoneSet, done := true)
    case (Notify(_), DoneSet) =>
      k.(callback := Notified, place := if k.place.Sleeping? then Waking(false) else k.place)
    case (DropLock(_), Notified) => k.(callback := Completed, owner := Nobody)
    case _ => k
  }

  function Verdict(k: Call, closed: bool): Result {
    if k.threw then Rethrown
    else if k.status.Success? then Returned
    else if closed && k.status.Canceled? then Closed
    else Failed(k.status)
  }

  /** What an event does; one that cannot happen now does nothing. */
  function Next(s: Client, e: Event): Client {
    match e
    case Begin(c) =>
      if !s.callsLock.Unlocked? || !Of(s, c).place.Outside? then s
      else if s.closed then With(s, c, Of(s, c).(place := Rejected))
      else With(s, c, Of(s, c).(place := Begun)).(registered := s.registered + {c})
    case End(c) =>
      if !s.callsLock.Unlocked? || !Of(s, c).place.Leaving? then s
      else
        var k := Of(s, c).(place := Ended(Verdict(Of(s, c), s.closed)), sawClosed := s.closed);
        With(s, c, k).(registered := s.registered - {c})
    case CloseBegin => if s.callsLock.Unlocked? then s.(closed := true, callsLock := Closing(s.registered)) else s
    case CloseCancel(c) =>
      if s.callsLock.Closing? && c in s.callsLock.remaining
      then With(s, c, Of(s, c).(cancelRequested := true)).(callsLock := Closing(s.callsLock.remaining - {c}))
      else s
    case CloseEnd => if s.callsLock == Closing({}) then s.(callsLock := Unlocked) else s
    case _ => With(s, e.c, Complete(Wait(s.polls, Of(s, e.c), e), e))
  }

  function Initial(polls: bool): Client {
    Client(polls, false, Unlocked, {}, map[])
  }

  ghost function After(polls: bool, run: seq<Event>, n: nat): Client
    requires n <= |run|
  {
    if n == 0 then Initial(polls) else Next(After(polls, run, n - 1), run[n - 1])
  }

  // ---------- The invariant ----------

  /** The call is registered: begun, and its end_call still to come. */
  predicate Active(k: Call) {
    !k.place.Outside? && !k.place.Rejected? && !k.place.Ended?
  }

  predicate Started(k: Call) {
    !k.place.Outside? && !k.place.Rejected? && !k.place.Begun?
  }

  predicate CallOk(polls: bool, k: Call) {
    && (k.owner.Waiter? <==> k.place.Checking? || k.place.Deciding?)
    && (k.owner.Completer? <==> k.callback in {Holding, StatusSet, DoneSet, Notified})
    && (k.callback.Idle? <==> !Started(k))
    && (k.done <==> k.callback in {DoneSet, Notified, Completed})
    && (k.place.Sleeping? ==> k.callback !in {Notified, Completed})
    && (k.place.Leaving? || k.place.Ended? ==> k.callback.Completed?)
    && k.waitCancels == (if k.cancelled then 1 else 0)
    && (k.cancelled || (k.threw && !k.place.Unwinding?) ==> k.cancelRequested)
    && (k.place.Asking? || k.place.Answered? || k.place.Deciding? ==> Polling(polls, k) && !k.cancelled)
    && (k.place.Checking? && k.place.timedOut ==> Polling(polls, k))
    && (k.place.Waking? && k.place.timedOut ==> Polling(polls, k))
    && (k.threw || k.cancelled ==> polls && Started(k))
    && (k.place.Unwinding? ==> k.threw)
    && !(k.threw && k.cancelled)
    && (k.place.Ended? ==> k.place.result == Verdict(k, k.sawClosed))
  }

  /** Call `c` and the registry agree; once the client is closed, a registered call is canceled or about to be. */
  ghost predicate EntryOk(s: Client, c: nat) {
    && CallOk(s.polls, Of(s, c))
    && (c in s.registered <==> Active(Of(s, c)))
    && (s.callsLock.Closing? ==> s.closed && (c in s.callsLock.remaining ==> c in s.registered))
    && (s.closed && c in s.registered ==>
          Of(s, c).cancelRequested || (s.callsLock.Closing? && c in s.callsLock.remaining))
    && (Of(s, c).sawClosed ==> s.closed)
  }

  ghost predicate Inv(s: Client) {
    forall c: nat :: EntryOk(s, c)
  }

  /** A step from `k` to `k'` keeps the invariant of the call, and what the registry relies on. */
  predicate Kept(polls: bool, k: Call, k': Call) {
    && CallOk(polls, k')
    && Active(k') == Active(k)
    && (k.cancelRequested ==> k'.cancelRequested)
    && k'.sawClosed == k.sawClosed
  }

  lemma LockKeepsOk(polls: bool, k: Call, e: Event)
    requires CallOk(polls, k) && (e.Start? || e.Lock?)
    ensures Kept(polls, k, Wait(polls, k, e))
  {}

  lemma CheckKeepsOk(polls: bool, k: Call, e: Event)
    requires CallOk(polls, k) && e.Check?
    ensures Kept(polls, k, Wait(polls, k, e))
  {}

  lemma WakeKeepsOk(polls: bool, k: Call, e: Event)
    requires CallOk(polls, k) && e.Wake?
    ensures Kept(polls, k, Wait(polls, k, e))
  {}

  lemma AnswerKeepsOk(polls: bool, k: Call, e: Event)
    requires CallOk(polls, k) && (e.Answer? || e.Throw? || e.Decide? || e.Unwind?)
    ensures Kept(polls, k, Wait(polls, k, e))
  {}

  /** The event is a step of the waiting thread under the lock of its call. */
  predicate ByWaiter(e: Event) {
    e.Start? || e.Lock? || e.Check? || e.Wake? || e.Answer? || e.Throw? || e.Decide? || e.Unwind?
  }

  lemma OthersLeaveWaiter(polls: bool, k: Call, e: Event)
    requires !ByWaiter(e)
    ensures Wait(polls, k, e) == k
  {}

  lemma WaitKeepsOk(polls: bool, k: Call, e: Event)
    requires CallOk(polls, k)
    ensures Kept(polls, k, Wait(polls, k, e))
  {
    hide Wait, CallOk, Active;
    if e.Start? || e.Lock? {
      LockKeepsOk(polls, k, e);
    } else if e.Check? {
      CheckKeepsOk(polls, k, e);
    } else if e.Wake? {
      WakeKeepsOk(polls, k, e);
    } else if ByWaiter(e) {
      AnswerKeepsOk(polls, k, e);
    } else {
      OthersLeaveWaiter(polls, k, e);
    }
  }

  lemma CompleteKeepsOk(polls: bool, k: Call, e: Event)
    requires CallOk(polls, k)
    ensures Kept(polls, k, Complete(k, e))
  {}

  /** The event is a step inside one call. */
  predicate Inner(e: Event) {
    !e.Begin? && !e.End? && !e.CloseBegin? && !e.CloseCancel? && !e.CloseEnd?
  }

  lemma InnerKeepsEntry(s: Client, e: Event, c: nat)
    requires Inner(e) && EntryOk(s, c)
    ensures EntryOk(Next(s, e), c)
  {
    hide Wait, Complete, CallOk, Active;
    WaitKeepsOk(s.polls, Of(s, c), e);
    CompleteKeepsOk(s.polls, Wait(s.polls, Of(s, c), e), e);
    assert Next(s, e) == With(s, e.c, Complete(Wait(s.polls, Of(s, e.c), e), e));
  }

  lemma EdgeKeepsEntry(s: Client, e: Event, c: nat)
    requires (e.Begin? || e.End?) && EntryOk(s, c)
    ensures EntryOk(Next(s, e), c)
  {
    hide Wait, Complete;
    assert c != e.c ==> Of(Next(s, e), c) == Of(s, c);
  }

  lemma CloseKeepsEntry(s: Client, e: Event, c: nat)
    requires (e.CloseBegin? || e.CloseCancel? || e.CloseEnd?) && EntryOk(s, c)
    ensures EntryOk(Next(s, e), c)
  {
    hide Wait, Complete;
    if e.CloseCancel? && e.c != c {
      assert Of(Next(s, e), c) == Of(s, c);
    }
  }

  lemma NextKeepsInv(s: Client, e: Event)
    requires Inv(s)
    ensures Inv(Next(s, e))
  {
    hide Next, EntryOk;
    forall c: nat
      ensures EntryOk(Next(s, e), c)
    {
      if Inner(e) {
        InnerKeepsEntry(s, e, c);
      } else if e.Begin? || e.End? {
        EdgeKeepsEntry(s, e, c);
      } else {
        CloseKeepsEntry(s, e, c);
      }
    }
  }

  lemma {:induction false} RunKeepsInv(polls: bool, run: seq<Event>, n: nat)
    requires n <= |run|
    ensures Inv(After(polls, run, n)) && After(polls, run, n).polls == polls
  {
    if n > 0 {
      RunKeepsInv(polls, run, n - 1);
      NextKeepsInv(After(polls, run, n - 1), run[n - 1]);
    }
  }
}
