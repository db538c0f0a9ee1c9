/** The workstation's durable store: the fence counter and the mutation ledger.

    Transactions are functions on the durable value `Durable`; the class runs them in
    place, with `ioOk` saying whether SQLite commits. A failed transaction rolls back. */
module StateStore {

  import opened Outcomes

  type RequestId = string
  type Digest = string

  /** A reply as the agent builds it. `payload` stands for the result or error object;
      `replayed` is the mark put on a response read back from the ledger. */
  datatype Response = Response(requestId: RequestId, ok: bool, payload: string, replayed: bool)

  datatype Record =
    | Pending(sha: Digest)
    | Completed(sha: Digest, response: Response)

  datatype Durable = Durable(fence: nat, requests: map<RequestId, Record>)

  datatype StoreError = Unavailable | IdempotencyConflict | OutcomeUnknown | CapacityExceeded | UnknownRequest

  datatype Begin = New | Replay(response: Response)

  datatype HealthStatus = Healthy | DegradedNearCapacity | FullFailClosed

  function Begun(d: Durable, capacity: nat, id: RequestId, sha: Digest): (Durable, Result<Begin, StoreError>) {
    if id !in d.requests then
      if |d.requests| >= capacity then (d, Err(CapacityExceeded))
      else (d.(requests := d.requests[id := Pending(sha)]), Ok(New))
    else if d.requests[id].sha != sha then (d, Err(IdempotencyConflict))
    else if d.requests[id].Completed? then (d, Ok(Replay(d.requests[id].response)))
    else (d, Err(OutcomeUnknown))
  }

  function Finished(d: Durable, id: RequestId, sha: Digest, response: Response): (Durable, Result<(), StoreError>) {
    if id !in d.requests then (d, Err(UnknownRequest))
    else if d.requests[id].sha != sha then (d, Err(IdempotencyConflict))
    else if d.requests[id].Completed? then
      (d, if d.requests[id].response == response then Ok(()) else Err(IdempotencyConflict))
    else (d.(requests := d.requests[id := Completed(sha, response)]), Ok(()))
  }

  /** What no transaction may do to the ledger: forget an id, change a digest or change a
      completed response. */
  ghost predicate Extends(old_: Durable, new_: Durable) {
    && old_.fence <= new_.fence
    && (forall id <- old_.requests :: id in new_.requests && new_.requests[id].sha == old_.requests[id].sha)
    && (forall id <- old_.requests :: old_.requests[id].Completed? ==> new_.requests[id] == old_.requests[id])
  }

  lemma ExtendsIsTransitive(a: Durable, b: Durable, c: Durable)
    requires Extends(a, b) && Extends(b, c)
    ensures Extends(a, c)
  {
    forall id | id in a.requests
      ensures id in c.requests && c.requests[id].sha == a.requests[id].sha
      ensures a.requests[id].Completed? ==> c.requests[id] == a.requests[id]
    {
      assert id in b.requests;
    }
  }

  /** Both ledger transactions only extend the ledger and respect its capacity. */
  lemma TransactionsExtend(d: Durable, capacity: nat, id: RequestId, sha: Digest, response: Response)
    requires |d.requests| <= capacity
    ensures var d' := Begun(d, capacity, id, sha).0; Extends(d, d') && |d'.requests| <= capacity
    ensures var d' := Finished(d, id, sha, response).0; Extends(d, d') && |d'.requests| <= capacity
  {
    var d' := Finished(d, id, sha, response).0;
    if d' != d {
      assert d'.requests.Keys == d.requests.Keys;
      assert |d'.requests| == |d'.requests.Keys|;
    }
  }

  /** Admission is decided by the record alone: a caller is told to execute exactly when
      the id is unknown and there is room, and then the id is pending. */
  lemma AdmissionIsExact(d: Durable, capacity: nat, id: RequestId, sha: Digest)
    ensures Begun(d, capacity, id, sha).1 == Ok(New) <==> id !in d.requests && |d.requests| < capacity
    ensures Begun(d, capacity, id, sha).1 == Ok(New) ==> Begun(d, capacity, id, sha).0.requests[id] == Pending(sha)
    ensures forall response ::
              Begun(d, capacity, id, sha).1 == Ok(Replay(response)) <==>
              id in d.requests && d.requests[id] == Completed(sha, response)
  {
  }

  /** Completing and beginning again is a round trip: the replay is what was stored. */
  lemma CompletedRequestReplays(d: Durable, capacity: nat, id: RequestId, sha: Digest, response: Response)
    requires Finished(d, id, sha, response).1 == Ok(())
    ensures Begun(Finished(d, id, sha, response).0, capacity, id, sha).1 == Ok(Replay(response))
  {
  }

  class AgentStateStore {
    const capacity: nat
    const warnAt: nat
    var durable: Durable

    ghost predicate Valid()
      reads this
    {
      1 <= warnAt <= capacity && |durable.requests| <= capacity
    }

    /** Opens the store over whatever an earlier incarnation left on disk. */
    constructor (capacity: nat, warnAt: nat, onDisk: Durable)
      requires 1 <= warnAt <= capacity
      requires |onDisk.requests| <= capacity
      ensures Valid() && durable == onDisk && this.capacity == capacity && this.warnAt == warnAt
    {
      this.capacity := capacity;
      this.warnAt := warnAt;
      durable := onDisk;
    }

    method NextFence(ioOk: bool) returns (r: Result<nat, StoreError>)
      requires Valid()
      modifies this
      ensures Valid()
      ensures r.Ok? <==> ioOk
      ensures r.Ok? ==> r.value == old(durable.fence) + 1 && durable == old(durable).(fence := r.value)
      ensures r.Err? ==> r.error == Unavailable && durable == old(durable)
    {
      if !ioOk {
        return Err(Unavailable);
      }
      var value := durable.fence + 1;
      durable := durable.(fence := value);
      r := Ok(value);
    }

    /** A request is new exactly if its id is unknown and there is room. A known id replays if it
        was completed under the same digest; it is a conflict under another digest, and of
        unknown outcome while it is pending. */
    method BeginRequest(id: RequestId, sha: Digest, ioOk: bool) returns (r: Result<Begin, StoreError>)
      requires Valid()
      modifies this
      ensures Valid() && Extends(old(durable), durable)
      ensures r == Ok(New) <==> ioOk && id !in old(durable.requests) && |old(durable.requests)| < capacity
      ensures durable == if r == Ok(New) then old(durable).(requests := old(durable.requests)[id := Pending(sha)]) else old(durable)
      ensures r == Err(CapacityExceeded) <==> ioOk && id !in old(durable.requests) && |old(durable.requests)| == capacity
      ensures r == Err(IdempotencyConflict) <==> ioOk && id in old(durable.requests) && old(durable.requests)[id].sha != sha
      ensures r == Err(OutcomeUnknown) <==> ioOk && id in old(durable.requests) && old(durable.requests)[id] == Pending(sha)
      ensures forall response ::
                r == Ok(Replay(response)) <==> ioOk && id in old(durable.requests) && old(durable.requests)[id] == Completed(sha, response)
      ensures !ioOk ==> r == Err(Unavailable) && durable == old(durable)
      ensures ioOk ==> (durable, r) == Begun(old(durable), capacity, id, sha)
    {
      TransactionsExtend(durable, capacity, id, sha, Response(id, false, "", false));
      if !ioOk {
        return Err(Unavailable);
      }
      if id !in durable.requests {
        if |durable.requests| >= capacity {
          return Err(CapacityExceeded);
        }
        durable := durable.(requests := durable.requests[id := Pending(sha)]);
        return Ok(New);
      }
      var row := durable.requests[id];
      if row.sha != sha {
        return Err(IdempotencyConflict);
      }
      match row
      case Completed(_, response) => r := Ok(Replay(response));
      case Pending(_) => r := Err(OutcomeUnknown);
    }

    /** Completing succeeds exactly for a known id under the same digest that is pending or
        already holds this very response; only a pending record changes. */
    method CompleteRequest(id: RequestId, sha: Digest, response: Response, ioOk: bool) returns (r: Result<(), StoreError>)
      requires Valid()
      modifies this
      ensures Valid() && Extends(old(durable), durable)
      ensures r.Ok? <==> ioOk && id in old(durable.requests) && old(durable.requests)[id] in {Pending(sha), Completed(sha, response)}
      ensures durable == if r.Ok? then old(durable).(requests := old(durable.requests)[id := Completed(sha, response)]) else old(durable)
      ensures r == Err(UnknownRequest) <==> ioOk && id !in old(durable.requests)
      ensures r.Err? ==> r.error in {Unavailable, UnknownRequest, IdempotencyConflict}
      ensures !ioOk ==> r == Err(Unavailable) && durable == old(durable)
      ensures ioOk ==> (durable, r) == Finished(old(durable), id, sha, response)
    {
      TransactionsExtend(durable, capacity, id, sha, response);
      if !ioOk {
        return Err(Unavailable);
      }
      if id !in durable.requests {
        return Err(UnknownRequest);
      }
      var row := durable.requests[id];
      if row.sha != sha {
        return Err(IdempotencyConflict);
      }
      if row.Completed? {
        return if row.response == response then Ok(()) else Err(IdempotencyConflict);
      }
      durable := durable.(requests := durable.requests[id := Completed(sha, response)]);
      r := Ok(());
    }

    /** The health summary predicts admission: it reports a full ledger exactly when every
        unknown id would be refused, and otherwise how many more would be admitted. */
    method RequestLedgerHealth() returns (status: HealthStatus, remaining: nat)
      requires Valid()
      ensures status == FullFailClosed <==>
              forall id, sha :: id !in durable.requests ==> Begun(durable, capacity, id, sha).1 == Err(CapacityExceeded)
      ensures status == FullFailClosed <==> remaining == 0
      ensures status == DegradedNearCapacity <==> warnAt <= |durable.requests| < capacity
      ensures remaining + |durable.requests| == capacity
    {
      var count := |durable.requests|;
      if count >= capacity {
        status := FullFailClosed;
      } else if count >= warnAt {
        status := DegradedNearCapacity;
      } else {
        status := Healthy;
      }
      remaining := capacity - count;
      if status != FullFailClosed {
        SomeIdIsUnknown(durable.requests.Keys);
        ghost var id :| id !in durable.requests;
        AdmissionIsExact(durable, capacity, id, "");
      }
    }
  }

  /** A finite ledger never holds every id: one longer than all of them is missing. */
  lemma SomeIdIsUnknown(ids: set<RequestId>)
    ensures exists id: RequestId :: id !in ids
  {
    var n := LongerThanAll(ids);
    var id := seq(n, _ => 'x');
    assert |id| == n;
    assert id !in ids;
  }

  ghost function LongerThanAll(ids: set<RequestId>): (n: nat)
    ensures forall id <- ids :: |id| < n
  {
    if ids == {} then 0 else
      var id :| id in ids;
      var m := LongerThanAll(ids - {id});
      assert forall x <- ids :: x == id || x in ids - {id};
      if m > |id| then m else |id| + 1
  }
}
