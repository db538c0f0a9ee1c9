/** The pool's retry rule and the workstation's ledger together: one pool call has at most one
    effect, and a success the caller sees is that effect's recorded response. */
module ExactlyOnce {

  import opened Outcomes
  import opened StateStore
  import Failover
  import LedgerRuns

  /** What became of one attempt at the workstation. Endpoints with durable idempotency lead
      to an agent with a ledger, where the attempt is received at some point of the run; others
      lead to one that dispatches directly. */
  datatype Delivery =
    | NotDelivered
    | ThroughLedger(at: nat)
    | Direct(executed: bool)

  function DirectEffects(deliveries: seq<Delivery>): nat {
    if deliveries == [] then 0 else
      DirectEffects(deliveries[1..]) + if deliveries[0] == Direct(true) then 1 else 0
  }

  /** An attempt is delivered the way its endpoint allows, and what is received is the request as
      the session rewrites it: the same id, and a digest that depends on the session only. */
  ghost predicate CarriedAt(e: Failover.Endpoint, d: Delivery, events: seq<LedgerRuns.Event>, id: RequestId, digest: string -> Digest) {
    match d
    case NotDelivered => true
    case ThroughLedger(k) =>
      e.durable && k < |events| && events[k].Receive? && events[k].request == LedgerRuns.Request(id, digest(e.sessionId))
    case Direct(_) => !e.durable
  }

  ghost predicate Carried(trace: seq<Failover.Endpoint>, deliveries: seq<Delivery>, events: seq<LedgerRuns.Event>,
                          id: RequestId, digest: string -> Digest)
  {
    |deliveries| == |trace| && forall i :: 0 <= i < |trace| ==> CarriedAt(trace[i], deliveries[i], events, id, digest)
  }

  /** Nobody else uses the id. */
  ghost predicate OnlyThese(deliveries: seq<Delivery>, events: seq<LedgerRuns.Event>, id: RequestId) {
    forall k: nat :: k < |events| && LedgerRuns.Receives(events[k], id) ==> ThroughLedger(k) in deliveries
  }

  /** What the pool may retry is what the ledger protects: the same twelve operations. */
  lemma RetriedOperationsAreDurable()
    ensures Failover.MUTATING_OPERATIONS == LedgerRuns.DURABLE_MUTATING_OPERATIONS
    ensures |Failover.MUTATING_OPERATIONS| == 12
  {
  }

  lemma {:induction false} NoDirectEffects(deliveries: seq<Delivery>)
    requires forall d <- deliveries :: !d.Direct?
    ensures DirectEffects(deliveries) == 0
  {
    if deliveries != [] {
      NoDirectEffects(deliveries[1..]);
    }
  }

  /** Every retry that reaches the ledger brings the same request, whatever happens to the calls
      afterwards, so the ledger recognises it. */
  lemma RetriesCarryOneRequest(candidates: seq<Failover.Endpoint>, q: Failover.Query, trace: seq<Failover.Endpoint>,
                               deliveries: seq<Delivery>, events: seq<LedgerRuns.Event>, id: RequestId, digest: string -> Digest,
                               i: nat, j: nat)
    requires Failover.Allowed(candidates, q, trace) && q.mutating && Carried(trace, deliveries, events, id, digest)
    requires i < |trace| && j < |trace| && deliveries[i].ThroughLedger? && deliveries[j].ThroughLedger?
    ensures deliveries[i].at < |events| && deliveries[j].at < |events|
    ensures events[deliveries[i].at].Receive? && events[deliveries[j].at].Receive?
    ensures events[deliveries[i].at].request == events[deliveries[j].at].request
  {
    assert CarriedAt(trace[i], deliveries[i], events, id, digest) && CarriedAt(trace[j], deliveries[j], events, id, digest);
    if |trace| > 1 {
      Failover.MutationRetriesStayInSession(candidates, q, trace, i);
      Failover.MutationRetriesStayInSession(candidates, q, trace, j);
    }
  }

  /** Attempts are either one direct delivery or none. */
  lemma DirectIsAlone(candidates: seq<Failover.Endpoint>, q: Failover.Query, trace: seq<Failover.Endpoint>,
                      deliveries: seq<Delivery>, events: seq<LedgerRuns.Event>, id: RequestId, digest: string -> Digest)
    requires Failover.Allowed(candidates, q, trace) && q.mutating && Carried(trace, deliveries, events, id, digest)
    ensures DirectEffects(deliveries) <= 1
    ensures DirectEffects(deliveries) == 0 || forall d <- deliveries :: d.Direct?
  {
    if exists d <- deliveries :: d.Direct? {
      var k :| 0 <= k < |deliveries| && deliveries[k].Direct?;
      assert CarriedAt(trace[k], deliveries[k], events, id, digest);
      if |trace| > 1 {
        Failover.MutationRetriesStayInSession(candidates, q, trace, k);
      }
      assert deliveries == [deliveries[0]] && DirectEffects(deliveries[1..]) == 0;
    } else {
      NoDirectEffects(deliveries);
    }
  }

  /** At the ledger: whoever received a success holds the recorded response of the one execution,
      at any later time, crashes included. */
  lemma SuccessIsPermanent(capacity: nat, s0: LedgerRuns.State, before: seq<LedgerRuns.Event>, after: seq<LedgerRuns.Event>,
                           c: LedgerRuns.CallId, r: LedgerRuns.Request, reply: Response)
    requires LedgerRuns.Initial(capacity, s0) && LedgerRuns.Legal(capacity, s0, before)
    requires LedgerRuns.Legal(capacity, LedgerRuns.Exec(capacity, s0, before), after)
    requires var s := LedgerRuns.Exec(capacity, s0, before);
             c in s.calls && s.calls[c] == LedgerRuns.Call(r, LedgerRuns.Answered(reply)) && reply.ok
    ensures var s := LedgerRuns.Exec(capacity, LedgerRuns.Exec(capacity, s0, before), after);
            && LedgerRuns.Times(s.dispatched, r.id) == 1
            && r.id in s.durable.requests && s.durable.requests[r.id] == Completed(r.sha, reply.(replayed := false))
  {
    var s := LedgerRuns.Exec(capacity, s0, before);
    LedgerRuns.AtMostOnce(capacity, s0, before, r.id, c);
    LedgerRuns.LedgerIsPermanent(capacity, s0, before, after, r.id);
    LedgerRuns.RunKeepsInv(capacity, s0, before);
    LedgerRuns.RunKeepsInv(capacity, s, after);
    var later := LedgerRuns.Exec(capacity, s, after);
    assert LedgerRuns.RecordOk(later, r.id);
    LedgerRuns.NoRepeatsMeansOnce(later.dispatched, r.id);
  }

  /** One mutating pool call, over any network behaviour and any ledger run, with crashes and
      concurrent calls, in which only its own deliveries use its id: at most one execution
      anywhere. If the workstation's answer after `before` is what the pool returned as a success,
      then after every continuation there was exactly one execution and the success is its
      recorded response, apart from the replay mark. */
  lemma OneCallOneEffect(candidates: seq<Failover.Endpoint>, q: Failover.Query, net: string -> Failover.Attempt,
                         trace: seq<Failover.Endpoint>, r: Failover.PoolResult,
                         capacity: nat, s0: LedgerRuns.State, before: seq<LedgerRuns.Event>, after: seq<LedgerRuns.Event>,
                         deliveries: seq<Delivery>, id: RequestId, digest: string -> Digest, c: LedgerRuns.CallId)
    requires Failover.Outcome(candidates, q, net, trace, r) && q.mutating
    requires LedgerRuns.Initial(capacity, s0) && LedgerRuns.Legal(capacity, s0, before)
    requires LedgerRuns.Legal(capacity, LedgerRuns.Exec(capacity, s0, before), after)
    requires Carried(trace, deliveries, before + after, id, digest) && OnlyThese(deliveries, before + after, id)
    requires r.Ok? && r.value.ok && deliveries[|trace| - 1].ThroughLedger? ==>
               var s := LedgerRuns.Exec(capacity, s0, before);
               c in s.calls && s.calls[c] == LedgerRuns.Call((before + after)[deliveries[|trace| - 1].at].request, LedgerRuns.Answered(r.value))
    ensures var s := LedgerRuns.Exec(capacity, LedgerRuns.Exec(capacity, s0, before), after);
            && LedgerRuns.Times(s.dispatched, id) + DirectEffects(deliveries) <= 1
            && (r.Ok? && r.value.ok && deliveries[|trace| - 1].ThroughLedger? ==>
                  && LedgerRuns.Times(s.dispatched, id) == 1 && DirectEffects(deliveries) == 0
                  && id in s.durable.requests && s.durable.requests[id].Completed?
                  && s.durable.requests[id].response == r.value.(replayed := false))
  {
    LedgerRuns.RunsCompose(capacity, s0, before, after);
    AtMostOneEffect(candidates, q, trace, capacity, s0, before + after, deliveries, id, digest);
    if r.Ok? && r.value.ok && deliveries[|trace| - 1].ThroughLedger? {
      var last := |trace| - 1;
      assert CarriedAt(trace[last], deliveries[last], before + after, id, digest);
      SuccessIsPermanent(capacity, s0, before, after, c, (before + after)[deliveries[last].at].request, r.value);
    }
  }

  /** At the workstation and everywhere else together. */
  lemma AtMostOneEffect(candidates: seq<Failover.Endpoint>, q: Failover.Query, trace: seq<Failover.Endpoint>,
                        capacity: nat, s0: LedgerRuns.State, events: seq<LedgerRuns.Event>,
                        deliveries: seq<Delivery>, id: RequestId, digest: string -> Digest)
    requires Failover.Allowed(candidates, q, trace) && q.mutating
    requires LedgerRuns.Initial(capacity, s0) && LedgerRuns.Legal(capacity, s0, events)
    requires Carried(trace, deliveries, events, id, digest) && OnlyThese(deliveries, events, id)
    ensures LedgerRuns.Times(LedgerRuns.Exec(capacity, s0, events).dispatched, id) + DirectEffects(deliveries) <= 1
  {
    DirectIsAlone(candidates, q, trace, deliveries, events, id, digest);
    DispatchedCount(capacity, s0, events, id);
    if id in LedgerRuns.Exec(capacity, s0, events).dispatched {
      var k := LedgerRuns.DispatchedWasReceived(capacity, s0, events, id);
      assert ThroughLedger(k) in deliveries;
    }
  }

  lemma DispatchedCount(capacity: nat, s0: LedgerRuns.State, events: seq<LedgerRuns.Event>, id: RequestId)
    requires LedgerRuns.Initial(capacity, s0) && LedgerRuns.Legal(capacity, s0, events)
    ensures var s := LedgerRuns.Exec(capacity, s0, events);
            LedgerRuns.Times(s.dispatched, id) == if id in s.dispatched then 1 else 0
  {
    LedgerRuns.RunKeepsInv(capacity, s0, events);
    LedgerRuns.NoRepeatsMeansOnce(LedgerRuns.Exec(capacity, s0, events).dispatched, id);
  }
}
