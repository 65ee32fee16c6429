/** What a call holds and reports, traced back to the answers, the callback and the closes that decided it. */
module ClientHistory {
  import opened ClientTransport
  import opened ClientProtocol

  // ---------- The events that decide ----------

  /** Step `i`: should_cancel is running for call `c`, and says yes. */
  ghost predicate YesAt(polls: bool, run: seq<Event>, i: nat, c: nat) {
    i < |run| && run[i] == Answer(c, true) && Of(After(polls, run, i), c).place.Asking?
  }

  /** Step `i`: should_cancel is running for call `c`, and throws. */
  ghost predicate ThrowAt(polls: bool, run: seq<Event>, i: nat, c: nat) {
    i < |run| && run[i] == Throw(c) && Of(After(polls, run, i), c).place.Asking?
  }

  /** Step `i`: a close comes to call `c`. */
  ghost predicate CloseAt(polls: bool, run: seq<Event>, i: nat, c: nat) {
    i < |run| && Closes(After(polls, run, i), run[i], c)
  }

  predicate Closes(s: Client, e: Event, c: nat) {
    e == CloseCancel(c) && s.callsLock.Closing? && c in s.callsLock.remaining
  }

  /** Step `i`: the callback of call `c` stores the status `st`. */
  ghost predicate StatusAt(polls: bool, run: seq<Event>, i: nat, c: nat, st: Status) {
    i < |run| && run[i] == SetStatus(c, st) && Of(After(polls, run, i), c).callback.Holding?
  }

  // ---------- What one step does to a call ----------

  /** should_cancel has said yes, and the waiting thread has still to act on it. */
  predicate YesPending(k: Call) {
    k.place == Answered(true) || k.place == Deciding(true)
  }

  /** The waiting thread has canceled the call, after a yes or after a throw. */
  predicate Acted(k: Call) {
    k.cancelled || (k.threw && !k.place.Unwinding?)
  }

  predicate StatusKnown(k: Call) {
    k.callback.StatusSet? || k.callback.DoneSet? || k.callback.Notified? || k.callback.Completed?
  }

  /** How the step `e` takes call `c` from `k` to `k'`; `closes` says that it is a close coming to the call. */
  predicate Traced(k: Call, e: Event, c: nat, closes: bool, k': Call) {
    && (YesPending(k') || k'.cancelled <==> YesPending(k) || k.cancelled || (e == Answer(c, true) && k.place.Asking?))
    && (k.cancelled ==> k'.cancelled)
    && (k'.threw <==> k.threw || (e == Throw(c) && k.place.Asking?))
    && (Acted(k) ==> Acted(k'))
    && (k'.cancelRequested <==> k.cancelRequested || Acted(k') || closes)
    && (StatusKnown(k') <==> StatusKnown(k) || (e.SetStatus? && e.c == c && k.callback.Holding?))
    && (StatusKnown(k) ==> k'.status == k.status)
    && (StatusKnown(k') && !StatusKnown(k) ==> e == SetStatus(c, k'.status))
  }

  lemma LockTraced(polls: bool, k: Call, e: Event)
    requires CallOk(polls, k) && (e.Start? || e.Lock? || e.Check? || e.Wake?)
    ensures Traced(k, e, e.c, false, Wait(polls, k, e))
  {}

  lemma AnswerTraced(polls: bool, k: Call, e: Event)
    requires CallOk(polls, k) && (e.Answer? || e.Throw? || e.Decide? || e.Unwind?)
    ensures Traced(k, e, e.c, false, Wait(polls, k, e))
  {}

  lemma CompleteTraced(polls: bool, k: Call, e: Event)
    requires CallOk(polls, k) && Inner(e) && !ByWaiter(e)
    ensures Traced(k, e, e.c, false, Complete(k, e))
  {}

  lemma CallbackStays(k: Call, e: Event)
    requires ByWaiter(e)
    ensures Complete(k, e) == k
  {}

  lemma InnerTraced(polls: bool, k: Call, e: Event)
    requires CallOk(polls, k) && Inner(e)
    ensures Traced(k, e, e.c, false, Complete(Wait(polls, k, e), e))
  {
    hide Wait, Complete, CallOk, Traced;
    if ByWaiter(e) {
      if e.Start? || e.Lock? || e.Check? || e.Wake? {
        LockTraced(polls, k, e);
      } else {
        AnswerTraced(polls, k, e);
      }
      CallbackStays(Wait(polls, k, e), e);
    } else {
      OthersLeaveWaiter(polls, k, e);
      CompleteTraced(polls, k, e);
    }
  }

  lemma SameTraced(polls: bool, k: Call, e: Event, c: nat)
    requires CallOk(polls, k) && (Inner(e) ==> e.c != c)
    ensures Traced(k, e, c, false, k)
  {}

  lemma PlaceTraced(polls: bool, k: Call, e: Event, c: nat, k': Call)
    requires CallOk(polls, k) && (e.Begin? || e.End?)
    requires k' == k || (k' == k.(place := k'.place, sawClosed := k'.sawClosed) && (k.place.Outside? || k.place.Leaving?)
                         && (k'.place.Rejected? || k'.place.Begun? || k'.place.Ended?))
    ensures Traced(k, e, c, false, k')
  {}

  lemma EdgeTraced(s: Client, e: Event, c: nat)
    requires Inv(s) && (e.Begin? || e.End?)
    ensures Traced(Of(s, c), e, c, false, Of(Next(s, e), c))
  {
    hide Wait, Complete, Verdict, CallOk, Traced;
    assert EntryOk(s, c);
    PlaceTraced(s.polls, Of(s, c), e, c, Of(Next(s, e), c));
  }

  lemma CloseTraced(s: Client, e: Event, c: nat)
    requires Inv(s) && (e.CloseBegin? || e.CloseCancel? || e.CloseEnd?)
    ensures Traced(Of(s, c), e, c, Closes(s, e, c), Of(Next(s, e), c))
  {
    hide Wait, Complete, Verdict, Polling;
    assert EntryOk(s, c);
  }

  lemma StepTraced(s: Client, e: Event, c: nat)
    requires Inv(s)
    ensures Traced(Of(s, c), e, c, Closes(s, e, c), Of(Next(s, e), c))
  {
    hide Next, Of, Wait, Complete, CallOk, Traced;
    assert EntryOk(s, c);
    if Inner(e) {
      InnerTouches(s, e, c);
      if e.c == c {
        InnerTraced(s.polls, Of(s, c), e);
      } else {
        SameTraced(s.polls, Of(s, c), e, c);
      }
    } else if e.Begin? || e.End? {
      EdgeTraced(s, e, c);
    } else {
      CloseTraced(s, e, c);
    }
  }

  // ---------- Over runs ----------

  ghost predicate SaidYes(polls: bool, run: seq<Event>, n: nat, c: nat) {
    exists i: nat :: i < n && YesAt(polls, run, i, c)
  }

  ghost predicate HasThrown(polls: bool, run: seq<Event>, n: nat, c: nat) {
    exists i: nat :: i < n && ThrowAt(polls, run, i, c)
  }

  ghost predicate CameClose(polls: bool, run: seq<Event>, n: nat, c: nat) {
    exists i: nat :: i < n && CloseAt(polls, run, i, c)
  }

  ghost predicate CompletedAs(polls: bool, run: seq<Event>, n: nat, c: nat, st: Status) {
    exists i: nat :: i < n && StatusAt(polls, run, i, c, st)
  }

  /** Everything that the record of a call says about its past is so. */
  ghost predicate HistoryOk(polls: bool, run: seq<Event>, n: nat, c: nat)
    requires n <= |run|
  {
    var k := Of(After(polls, run, n), c);
    && (SaidYes(polls, run, n, c) <==> YesPending(k) || k.cancelled)
    && (HasThrown(polls, run, n, c) <==> k.threw)
    && (k.cancelRequested <==> Acted(k) || CameClose(polls, run, n, c))
    && (forall st :: CompletedAs(polls, run, n, c, st) <==> StatusKnown(k) && k.status == st)
  }

  lemma OneStepMore(polls: bool, run: seq<Event>, n: nat, c: nat)
    requires 0 < n <= |run|
    ensures SaidYes(polls, run, n, c) <==> SaidYes(polls, run, n - 1, c) || YesAt(polls, run, n - 1, c)
    ensures HasThrown(polls, run, n, c) <==> HasThrown(polls, run, n - 1, c) || ThrowAt(polls, run, n - 1, c)
    ensures CameClose(polls, run, n, c) <==> CameClose(polls, run, n - 1, c) || CloseAt(polls, run, n - 1, c)
    ensures forall st :: CompletedAs(polls, run, n, c, st) <==>
                         CompletedAs(polls, run, n - 1, c, st) || StatusAt(polls, run, n - 1, c, st)
  {
    hide YesAt, ThrowAt, CloseAt, StatusAt;
  }

  lemma {:induction false} HistoryIsOk(polls: bool, run: seq<Event>, n: nat, c: nat)
    requires n <= |run|
    ensures HistoryOk(polls, run, n, c)
  {
    hide Next, Inv, SaidYes, HasThrown, CameClose, CompletedAs, CallOk;
    if n == 0 {
      NothingYet(polls, run, c);
    } else {
      HistoryIsOk(polls, run, n - 1, c);
      RunKeepsInv(polls, run, n - 1);
      OneStepMore(polls, run, n, c);
      StepTraced(After(polls, run, n - 1), run[n - 1], c);
      CallIsOk(After(polls, run, n - 1), c);
    }
  }

  lemma CallIsOk(s: Client, c: nat)
    requires Inv(s)
    ensures Of(s, c).cancelled || (Of(s, c).threw && !Of(s, c).place.Unwinding?) ==> Of(s, c).cancelRequested
    ensures Of(s, c).waitCancels == (if Of(s, c).cancelled then 1 else 0) && (YesPending(Of(s, c)) ==> !Of(s, c).cancelled)
  {
    assert EntryOk(s, c);
  }

  lemma NothingYet(polls: bool, run: seq<Event>, c: nat)
    ensures HistoryOk(polls, run, 0, c)
  {}

  // ---------- Who canceled a call ----------

  /** `wait` has canceled a call exactly when should_cancel was asked and said yes, and `wait` has acted on that. */
  lemma CanceledByWaitIff(polls: bool, run: seq<Event>, n: nat, c: nat)
    requires n <= |run|
    ensures var k := Of(After(polls, run, n), c);
            k.waitCancels == 1 <==> SaidYes(polls, run, n, c) && !YesPending(k)
  {
    HistoryIsOk(polls, run, n, c);
    RunKeepsInv(polls, run, n);
    CallIsOk(After(polls, run, n), c);
  }

  /**
  A call is canceled exactly when should_cancel said yes or threw, and the waiting thread has acted on it,
  or a close came to it. Nothing else ever cancels a call.
  */
  lemma CancelRequestedIff(polls: bool, run: seq<Event>, n: nat, c: nat)
    requires n <= |run|
    ensures var k := Of(After(polls, run, n), c);
            k.cancelRequested <==>
              || (SaidYes(polls, run, n, c) && !YesPending(k))
              || (HasThrown(polls, run, n, c) && !k.place.Unwinding?)
              || CameClose(polls, run, n, c)
  {
    HistoryIsOk(polls, run, n, c);
    RunKeepsInv(polls, run, n);
    CallIsOk(After(polls, run, n), c);
  }

  /**
  What an ended call reports: what should_cancel threw, if it did; else its response, if it completed with
  success; else the error it completed with, unless that is a cancellation and the client was closed.
  */
  lemma ReportsIff(polls: bool, run: seq<Event>, n: nat, c: nat)
    requires n <= |run| && Of(After(polls, run, n), c).place.Ended?
    ensures var result, thrown := Of(After(polls, run, n), c).place.result, HasThrown(polls, run, n, c);
            && (result == Rethrown <==> thrown)
            && (result == Returned <==> !thrown && CompletedAs(polls, run, n, c, Success))
            && forall st :: result == Failed(st) <==>
                 && !thrown && st != Success && CompletedAs(polls, run, n, c, st)
                 && !(st == Canceled && exists i: nat ::
                        i < n && EndCallAt(polls, run, i, c) && After(polls, run, i).closed)
  {
    HistoryIsOk(polls, run, n, c);
    RunKeepsInv(polls, run, n);
    assert EntryOk(After(polls, run, n), c);
    ReportsClosedIff(polls, run, n, c);
    hide After, HasThrown, CompletedAs;
  }

  // ---------- How often should_cancel is asked ----------

  /** The last sleep of the waiting thread ended by itself, and it has not acted on that yet. */
  predicate SleptOut(k: Call) {
    k.place == Waking(true) || k.place == Checking(true)
  }

  /** Step `i`: a sleep of call `c` ends by itself, after the poll interval. */
  ghost predicate WokeAt(polls: bool, run: seq<Event>, i: nat, c: nat) {
    i < |run| && run[i] == Wake(c, true) && Of(After(polls, run, i), c).place.Sleeping?
  }

  /** Step `i`: the waiting thread of call `c` begins to ask should_cancel. */
  ghost predicate AsksAt(polls: bool, run: seq<Event>, i: nat, c: nat) {
    i < |run| && !Of(After(polls, run, i), c).place.Asking? && Of(After(polls, run, i + 1), c).place.Asking?
  }

  lemma WaiterSleepsOut(polls: bool, k: Call, e: Event)
    requires CallOk(polls, k) && Inner(e)
    ensures var k' := Complete(Wait(polls, k, e), e);
            && (SleptOut(k') ==> SleptOut(k) || (e == Wake(e.c, true) && k.place.Sleeping?))
            && (k'.place.Asking? && !k.place.Asking? ==> SleptOut(k))
  {
    hide Complete, CallOk;
    if ByWaiter(e) {
      CallbackStays(Wait(polls, k, e), e);
    } else {
      OthersLeaveWaiter(polls, k, e);
      CallbackKeepsPlace(k, e);
    }
  }

  lemma CallbackKeepsPlace(k: Call, e: Event)
    ensures var p := Complete(k, e).place; p == k.place || p == Waking(false)
  {}

  lemma EdgeKeepsPlace(s: Client, e: Event, c: nat)
    requires !Inner(e)
    ensures var p := Of(Next(s, e), c).place; p == Of(s, c).place || (!p.Asking? && !p.Waking? && !p.Checking?)
  {
    hide Wait, Complete, Verdict;
  }

  lemma StepSleepsOut(s: Client, e: Event, c: nat)
    requires Inv(s)
    ensures var k, k' := Of(s, c), Of(Next(s, e), c);
            && (SleptOut(k') ==> SleptOut(k) || (e == Wake(c, true) && k.place.Sleeping?))
            && (k'.place.Asking? && !k.place.Asking? ==> SleptOut(k))
  {
    hide Next, Of, Wait, Complete, CallOk;
    assert EntryOk(s, c);
    if Inner(e) {
      InnerTouches(s, e, c);
      WaiterSleepsOut(s.polls, Of(s, c), e);
    } else {
      EdgeKeepsPlace(s, e, c);
    }
  }

  lemma {:induction false} SleptOutSince(polls: bool, run: seq<Event>, i: nat, n: nat, c: nat)
    requires i <= n <= |run| && !SleptOut(Of(After(polls, run, i), c)) && SleptOut(Of(After(polls, run, n), c))
    ensures exists m: nat :: i <= m < n && WokeAt(polls, run, m, c)
    decreases n
  {
    hide Next, Inv, SleptOut, Of;
    RunKeepsInv(polls, run, n - 1);
    StepSleepsOut(After(polls, run, n - 1), run[n - 1], c);
    if SleptOut(Of(After(polls, run, n - 1), c)) {
      SleptOutSince(polls, run, i, n - 1, c);
      var m: nat :| i <= m < n - 1 && WokeAt(polls, run, m, c);
    } else {
      assert WokeAt(polls, run, n - 1, c);
    }
  }

  /** should_cancel is asked only after a sleep that ended by itself: a new one before every question. */
  lemma SleepsBeforeEachQuestion(polls: bool, run: seq<Event>, i: nat, n: nat, c: nat)
    requires i <= n && AsksAt(polls, run, n, c) && (i == 0 || (i < n && AsksAt(polls, run, i, c)))
    ensures exists m: nat :: i <= m < n && WokeAt(polls, run, m, c)
  {
    hide Next, Inv;
    RunKeepsInv(polls, run, n);
    StepSleepsOut(After(polls, run, n), run[n], c);
    if i == 0 {
      SleptOutSince(polls, run, 0, n, c);
    } else {
      SleptOutSince(polls, run, i + 1, n, c);
    }
  }

  // ---------- Steps that start or stop something ----------

  /** begin_call registers the call while the client is open, and rejects it once it is closed. */
  lemma BeginAnswers(s: Client, c: nat)
    requires Inv(s) && s.callsLock.Unlocked? && Of(s, c).place.Outside?
    ensures var s' := Next(s, Begin(c));
            && s'.registered == (if s.closed then s.registered else s.registered + {c})
            && Of(s', c).place == (if s.closed then Rejected else Begun)
            && forall d: nat :: d != c ==> Of(s', d) == Of(s, d)
  {}

  /**
  A thread that holds the lock leaves when the call is done. Otherwise it asks should_cancel when its sleep
  has ended by itself and no yes has been given, and sleeps on in every other case.
  */
  lemma CheckAnswers(s: Client, c: nat)
    requires Inv(s) && Of(s, c).place.Checking?
    ensures var k, k' := Of(s, c), Of(Next(s, Check(c)), c);
            && (k'.place.Leaving? <==> k.done)
            && (k'.place.Asking? <==> !k.done && k.place.timedOut && k.waitCancels == 0)
            && (k'.place.Checking? || k'.place.Sleeping? <==> !k.done && (!k.place.timedOut || k.waitCancels == 1))
            && (k'.owner.Nobody? <==> !k'.place.Checking?)
  {
    assert EntryOk(s, c);
  }
}
