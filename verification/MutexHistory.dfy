/** What the mutexes answer over a run of requests, traced back to the grants and releases before it. */
module MutexHistory {
  import opened TaskTypes
  import opened MutexServer

  /** The mutexes of a new server after the first `n` requests of a run. */
  function HoldersAt(rs: seq<MutexRequest>, n: nat): Holders
    requires n <= |rs|
  {
    Served(map[], rs[..n])
  }

  lemma OneMoreServed(rs: seq<MutexRequest>, n: nat)
    requires 0 < n <= |rs|
    ensures HoldersAt(rs, n) == MutexStep(HoldersAt(rs, n - 1), rs[n - 1]).next
  {
    assert rs[..n][..n - 1] == rs[..n - 1];
  }

  function MutexReplyAt(rs: seq<MutexRequest>, n: nat): MutexReply
    requires n < |rs|
  {
    MutexStep(HoldersAt(rs, n), rs[n]).reply
  }

  ghost predicate GrantAt(rs: seq<MutexRequest>, i: nat, key: string, worker: string) {
    i < |rs| && rs[i] == TryAcquire(key, worker) && MutexReplyAt(rs, i) == Acquired(true)
  }

  ghost predicate FreedAt(rs: seq<MutexRequest>, i: nat, key: string) {
    i < |rs| && rs[i].Release? && rs[i].key == key && MutexReplyAt(rs, i) == Released
  }

  /** The worker was granted the mutex by request `i`, and none of the first `n` requests after that freed it. */
  ghost predicate HoldsSince(rs: seq<MutexRequest>, n: nat, i: nat, key: string, worker: string) {
    i < n && GrantAt(rs, i, key, worker) && forall j: nat :: i < j < n ==> !FreedAt(rs, j, key)
  }

  ghost predicate Holds(rs: seq<MutexRequest>, n: nat, key: string, worker: string) {
    exists i: nat :: HoldsSince(rs, n, i, key, worker)
  }

  ghost predicate TriedBefore(rs: seq<MutexRequest>, n: nat, key: string) {
    exists i: nat :: i < n && i < |rs| && rs[i].TryAcquire? && rs[i].key == key
  }

  lemma HoldsOneMore(rs: seq<MutexRequest>, n: nat, key: string, worker: string)
    requires 0 < n <= |rs|
    ensures Holds(rs, n, key, worker) <==>
              GrantAt(rs, n - 1, key, worker) || (Holds(rs, n - 1, key, worker) && !FreedAt(rs, n - 1, key))
  {
    hide GrantAt, FreedAt;
    if Holds(rs, n, key, worker) {
      var i: nat :| HoldsSince(rs, n, i, key, worker);
      assert i < n - 1 ==> HoldsSince(rs, n - 1, i, key, worker);
    }
    if GrantAt(rs, n - 1, key, worker) {
      assert HoldsSince(rs, n, n - 1, key, worker);
    } else if Holds(rs, n - 1, key, worker) && !FreedAt(rs, n - 1, key) {
      var i: nat :| HoldsSince(rs, n - 1, i, key, worker);
      assert HoldsSince(rs, n, i, key, worker);
    }
  }

  lemma StepHolds(m: Holders, r: MutexRequest, key: string, worker: string)
    ensures var o := MutexStep(m, r);
            && ((key in o.next && o.next[key] == Some(worker)) <==>
                  || (r == TryAcquire(key, worker) && o.reply == Acquired(true))
                  || (key in m && m[key] == Some(worker) && !(r.Release? && r.key == key && o.reply == Released)))
            && (key in o.next <==> key in m || (r.TryAcquire? && r.key == key))
  {}

  /** A worker is recorded as the holder of a mutex exactly when it was granted it and nothing has freed it since. */
  lemma {:induction false} HolderIff(rs: seq<MutexRequest>, n: nat, key: string, worker: string)
    requires n <= |rs|
    ensures key in HoldersAt(rs, n) && HoldersAt(rs, n)[key] == Some(worker) <==> Holds(rs, n, key, worker)
    ensures key in HoldersAt(rs, n) <==> TriedBefore(rs, n, key)
  {
    hide MutexStep, Holds, Served;
    if n == 0 {
      NothingServed(rs);
      NobodyHolds(rs, key, worker);
    } else {
      HolderIff(rs, n - 1, key, worker);
      OneMoreServed(rs, n);
      HoldsOneMore(rs, n, key, worker);
      StepHolds(HoldersAt(rs, n - 1), rs[n - 1], key, worker);
    }
  }

  lemma NothingServed(rs: seq<MutexRequest>)
    ensures HoldersAt(rs, 0) == map[]
  {}

  lemma NobodyHolds(rs: seq<MutexRequest>, key: string, worker: string)
    ensures !Holds(rs, 0, key, worker)
  {}

  /**
  Every reply follows from the grants and releases before it. An attempt is granted exactly when nobody holds
  the mutex, the holder itself included; a release is accepted exactly from the holder; and the holder is
  reported, or that the mutex is free, or that nobody ever tried to acquire it.
  */
  lemma RepliesFollowHistory(rs: seq<MutexRequest>, n: nat)
    requires n < |rs|
    ensures rs[n].TryAcquire? ==>
              MutexReplyAt(rs, n) == Acquired(forall w :: !Holds(rs, n, rs[n].key, w))
    ensures rs[n].Release? ==>
              MutexReplyAt(rs, n) == if Holds(rs, n, rs[n].key, rs[n].worker) then Released
                                     else MutexRefused(FailedPrecondition)
    ensures rs[n].AskHolder? ==>
              && (forall w :: Holds(rs, n, rs[n].key, w) ==> MutexReplyAt(rs, n) == HeldBy(w))
              && ((forall w :: !Holds(rs, n, rs[n].key, w)) ==>
                    MutexReplyAt(rs, n) == MutexRefused(if TriedBefore(rs, n, rs[n].key) then FailedPrecondition
                                                        else NotFound))
  {
    hide Holds, TriedBefore;
    forall w
      ensures rs[n].key in HoldersAt(rs, n) && HoldersAt(rs, n)[rs[n].key] == Some(w) <==> Holds(rs, n, rs[n].key, w)
      ensures rs[n].key in HoldersAt(rs, n) <==> TriedBefore(rs, n, rs[n].key)
    {
      HolderIff(rs, n, rs[n].key, w);
    }
    HolderIff(rs, n, rs[n].key, "");
    var m, key := HoldersAt(rs, n), rs[n].key;
    if !Free(m, key) {
      assert Holds(rs, n, key, m[key].value);
    }
  }
}
