/**
Workers that guard critical sections with the named mutexes. The server takes a worker id at face
value, so what the mutexes guarantee depends on the ids and on who releases what.
*/
module MutexProtocol {
  import opened TaskTypes
  import opened MutexServer

  /**
  What participant `p` does about `key`. Attempt and Give are requests the server answers; Leave is
  the end of a critical section, after which the release is on its way. A participant waits for the
  answer to one request before it makes the next.
  */
  datatype Event =
    | Attempt(p: nat, key: string)
    | Leave(p: nat, key: string)
    | Give(p: nat, key: string)

  /** Who is inside a critical section, and whose release is on its way. */
  datatype Protocol = Protocol(holders: Holders, inside: set<(nat, string)>, leaving: set<(nat, string)>)

  const START := Protocol(map[], {}, {})

  /** The release is for something this participant did not acquire. */
  predicate Stray(s: Protocol, e: Event) {
    e.Give? && (e.p, e.key) !in s.inside && (e.p, e.key) !in s.leaving
  }

  ghost function Advance(ids: nat -> string, s: Protocol, e: Event): Protocol {
    var me := (e.p, e.key);
    match e
    case Attempt(p, key) =>
      var o := MutexStep(s.holders, TryAcquire(key, ids(p)));
      if me in s.leaving then s
      else if o.reply.acquired then s.(holders := o.next, inside := s.inside + {me})
      else s
    case Leave(p, key) =>
      if me in s.inside then s.(inside := s.inside - {me}, leaving := s.leaving + {me}) else s
    case Give(p, key) =>
      if me in s.inside then s
      else s.(holders := MutexStep(s.holders, Release(key, ids(p))).next, leaving := s.leaving - {me})
  }

  ghost function After(ids: nat -> string, run: seq<Event>): Protocol {
    if run == [] then START else Advance(ids, After(ids, run[..|run| - 1]), run[|run| - 1])
  }

  ghost predicate Exclusive(s: Protocol) {
    forall p, q, key :: (p, key) in s.inside && (q, key) in s.inside ==> p == q
  }

  ghost predicate DistinctIds(ids: nat -> string) {
    forall p, q :: ids(p) == ids(q) ==> p == q
  }

  /** No participant of the run releases what it did not acquire. */
  ghost predicate Honest(ids: nat -> string, run: seq<Event>) {
    forall n :: 0 <= n < |run| ==> !Stray(After(ids, run[..n]), run[n])
  }

  // ---------- Why exclusion holds ----------

  ghost predicate Claims(s: Protocol, p: nat, key: string) {
    (p, key) in s.inside || (p, key) in s.leaving
  }

  /** A key is held exactly while one participant claims it, and in that one's name. */
  ghost predicate KeyOk(ids: nat -> string, s: Protocol, key: string) {
    && (forall p: nat :: Claims(s, p, key) ==> !Free(s.holders, key) && s.holders[key] == Some(ids(p)))
    && (forall p: nat, q: nat :: Claims(s, p, key) && Claims(s, q, key) ==> p == q)
    && (!Free(s.holders, key) ==> exists p: nat :: Claims(s, p, key))
    && (forall p: nat :: !((p, key) in s.inside && (p, key) in s.leaving))
  }

  ghost predicate ProtocolOk(ids: nat -> string, s: Protocol) {
    forall key :: KeyOk(ids, s, key)
  }

  lemma AdvanceKeepsOk(ids: nat -> string, s: Protocol, e: Event)
    requires ProtocolOk(ids, s) && (DistinctIds(ids) || !Stray(s, e))
    ensures ProtocolOk(ids, Advance(ids, s, e))
  {
    var s' := Advance(ids, s, e);
    forall key
      ensures KeyOk(ids, s', key)
    {
      assert KeyOk(ids, s, key);
      if key != e.key {
        assert forall p: nat :: Claims(s', p, key) <==> Claims(s, p, key);
      } else {
        AdvanceKeepsKey(ids, s, e);
      }
    }
  }

  lemma AdvanceKeepsKey(ids: nat -> string, s: Protocol, e: Event)
    requires KeyOk(ids, s, e.key) && (DistinctIds(ids) || !Stray(s, e))
    ensures KeyOk(ids, Advance(ids, s, e), e.key)
  {
    var s' := Advance(ids, s, e);
    forall p: nat
      ensures p != e.p ==> (Claims(s', p, e.key) <==> Claims(s, p, e.key))
    {}
    if e.Attempt? && s' != s {
      assert Claims(s', e.p, e.key);
    } else if e.Leave? && s' != s {
      assert Claims(s, e.p, e.key) && Claims(s', e.p, e.key);
    } else if e.Give? && !Free(s.holders, e.key) {
      var p: nat :| Claims(s, p, e.key);
      if p != e.p {
        assert !Claims(s, e.p, e.key);
        assert ids(p) != ids(e.p);
        assert s' == s;
      } else if s' != s {
        assert Free(s'.holders, e.key) && !Claims(s', p, e.key);
      }
    }
  }

  lemma {:induction false} RunIsOk(ids: nat -> string, run: seq<Event>)
    requires DistinctIds(ids) || Honest(ids, run)
    ensures ProtocolOk(ids, After(ids, run))
  {
    if run != [] {
      var n := |run| - 1;
      assert forall m :: 0 <= m < n ==> run[..n][..m] == run[..m];
      RunIsOk(ids, run[..n]);
      AdvanceKeepsOk(ids, After(ids, run[..n]), run[n]);
    }
  }

  /** With distinct worker ids no two participants are ever inside together, even if some release what is not theirs. */
  lemma DistinctIdsExclude(ids: nat -> string, run: seq<Event>)
    requires DistinctIds(ids)
    ensures Exclusive(After(ids, run))
  {
    RunIsOk(ids, run);
    OkExcludes(ids, After(ids, run));
  }

  /** Participants that release only what they acquired never meet inside, even if some share a worker id. */
  lemma HonestRunsExclude(ids: nat -> string, run: seq<Event>)
    requires Honest(ids, run)
    ensures Exclusive(After(ids, run))
  {
    RunIsOk(ids, run);
    OkExcludes(ids, After(ids, run));
  }

  lemma OkExcludes(ids: nat -> string, s: Protocol)
    requires ProtocolOk(ids, s)
    ensures Exclusive(s)
  {
    forall p, q, key | (p, key) in s.inside && (q, key) in s.inside
      ensures p == q
    {
      assert KeyOk(ids, s, key) && Claims(s, p, key) && Claims(s, q, key);
    }
  }

  /** Two participants share an id: the second releases what the first acquired, and both are inside. */
  lemma SharedIdCollides(ids: nat -> string, p: nat, q: nat, key: string)
    requires p != q && ids(p) == ids(q)
    ensures !Exclusive(After(ids, [Attempt(p, key), Give(q, key), Attempt(q, key)]))
  {
    var run := [Attempt(p, key), Give(q, key), Attempt(q, key)];
    assert run[..2] == [Attempt(p, key), Give(q, key)] && run[..2][..1] == [Attempt(p, key)] && run[..2][..1][..0] == [];
    assert After(ids, run[..2][..1]).inside == {(p, key)};
    assert After(ids, run).inside == {(p, key)} + {(q, key)};
    assert (p, key) in After(ids, run).inside && (q, key) in After(ids, run).inside;
  }

  /** So the mutexes exclude in every run, whoever releases what, exactly when the worker ids are distinct. */
  lemma ExclusionIffDistinctIds(ids: nat -> string)
    ensures (forall run :: Exclusive(After(ids, run))) <==> DistinctIds(ids)
  {
    if DistinctIds(ids) {
      forall run
        ensures Exclusive(After(ids, run))
      {
        DistinctIdsExclude(ids, run);
      }
    } else {
      var p, q :| ids(p) == ids(q) && p != q;
      SharedIdCollides(ids, p, q, "");
    }
  }

  // ---------- What an attempt and a release are answered ----------

  /** An attempt is granted exactly when no participant is inside or has its release on the way. */
  lemma GrantedIffUnclaimed(ids: nat -> string, run: seq<Event>, p: nat, key: string)
    requires DistinctIds(ids) || Honest(ids, run)
    ensures var s := After(ids, run);
            MutexStep(s.holders, TryAcquire(key, ids(p))).reply.acquired <==> forall q: nat :: !Claims(s, q, key)
  {
    RunIsOk(ids, run);
    assert KeyOk(ids, After(ids, run), key);
  }

  /** The release of what was acquired is never refused. */
  lemma OwnReleaseSucceeds(ids: nat -> string, run: seq<Event>, p: nat, key: string)
    requires (DistinctIds(ids) || Honest(ids, run)) && Claims(After(ids, run), p, key)
    ensures MutexStep(After(ids, run).holders, Release(key, ids(p))).reply.Released?
  {
    RunIsOk(ids, run);
    assert KeyOk(ids, After(ids, run), key);
  }
}
