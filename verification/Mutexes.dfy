/** The named mutexes of the server. Each method holds the lock for its whole body. */
module MutexServer {
  import opened TaskTypes

  datatype MutexState = MutexState(held: bool, workerId: string)

  /** What the callers can tell: the keys that exist, and who holds each one. */
  type Holders = map<string, Option<string>>

  datatype MutexRequest =
    | TryAcquire(key: string, worker: string)
    | Release(key: string, worker: string)
    | AskHolder(key: string)

  datatype MutexReply =
    | Acquired(acquired: bool)
    | Released
    | HeldBy(worker: string)
    | MutexRefused(code: ErrorCode)

  datatype MutexOutcome = MutexOutcome(next: Holders, reply: MutexReply)

  predicate Free(m: Holders, key: string) {
    key !in m || m[key].None?
  }

  function MutexStep(m: Holders, r: MutexRequest): MutexOutcome {
    match r
    case TryAcquire(key, worker) =>
      if Free(m, key) then MutexOutcome(m[key := Some(worker)], Acquired(true)) else MutexOutcome(m, Acquired(false))
    case Release(key, worker) =>
      if !Free(m, key) && m[key] == Some(worker) then MutexOutcome(m[key := None], Released)
      else MutexOutcome(m, MutexRefused(FailedPrecondition))
    case AskHolder(key) =>
      MutexOutcome(m, if key !in m then MutexRefused(NotFound)
                      else if m[key].None? then MutexRefused(FailedPrecondition)
                      else HeldBy(m[key].value))
  }

  function Served(m: Holders, rs: seq<MutexRequest>): Holders {
    if rs == [] then m else MutexStep(Served(m, rs[..|rs| - 1]), rs[|rs| - 1]).next
  }

  class Mutexes {
    var data: map<string, MutexState>

    /** A mutex that nobody holds names no worker. */
    ghost predicate Valid()
      reads this
    {
      forall key :: key in data && !data[key].held ==> data[key].workerId == ""
    }

    ghost function Model(): Holders
      reads this
    {
      map key | key in data :: if data[key].held then Some(data[key].workerId) else None
    }

    constructor ()
      ensures Valid() && Model() == map[]
    {
      data := map[];
    }

    method TryAcquire(key: string, worker: string) returns (acquired: bool)
      requires Valid()
      modifies this
      ensures Valid()
      ensures MutexOutcome(Model(), Acquired(acquired)) == MutexStep(old(Model()), MutexRequest.TryAcquire(key, worker))
    {
      if key !in data {
        data := data[key := MutexState(false, "")];
      }
      if data[key].held {
        return false;
      }
      data := data[key := MutexState(true, worker)];
      return true;
    }

    method Release(key: string, worker: string) returns (r: MutexReply)
      requires Valid()
      modifies this
      ensures Valid()
      ensures MutexOutcome(Model(), r) == MutexStep(old(Model()), MutexRequest.Release(key, worker))
    {
      if key !in data || !data[key].held {
        return MutexRefused(FailedPrecondition);
      }
      if data[key].workerId != worker {
        return MutexRefused(FailedPrecondition);
      }
      data := data[key := MutexState(false, "")];
      return Released;
    }

    method GetWorkerId(key: string) returns (r: MutexReply)
      requires Valid()
      ensures MutexOutcome(Model(), r) == MutexStep(Model(), AskHolder(key))
    {
      if key !in data {
        return MutexRefused(NotFound);
      }
      if !data[key].held {
        return MutexRefused(FailedPrecondition);
      }
      return HeldBy(data[key].workerId);
    }

    /** Serve a batch of requests in order. */
    method Serve(rs: seq<MutexRequest>)
      requires Valid()
      modifies this
      ensures Valid() && Model() == Served(old(Model()), rs)
    {
      for j := 0 to |rs|
        invariant Valid() && Model() == Served(old(Model()), rs[..j])
      {
        assert rs[..j + 1][..j] == rs[..j];
        match rs[j] {
          case TryAcquire(key, worker) => var _ := TryAcquire(key, worker);
          case Release(key, worker) => var _ := Release(key, worker);
          case AskHolder(key) => var _ := GetWorkerId(key);
        }
      }
      assert rs[..|rs|] == rs;
    }
  }
}
