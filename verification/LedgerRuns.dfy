/** Mutating requests over every interleaving of handler calls, ledger failures, cancellations
    and crashes.

    A handler call is begun against the ledger, dispatched, and completed against the ledger;
    these are separate steps because dispatch suspends. `dispatched` and `outcomes` are the
    history of effects: which requests reached dispatch, in order, and what they returned. */
module LedgerRuns {

  import opened Collections
  import opened Outcomes
  import opened StateStore
  import Failover

  type CallId = nat

  datatype Request = Request(id: RequestId, sha: Digest)

  /** How far a handler call has come. */
  datatype Phase =
    | Received
    | Admitted
    | Running
    | Executed(response: Response)
    | Answered(reply: Response)

  datatype Call = Call(request: Request, phase: Phase)

  datatype State = State(durable: Durable, calls: map<CallId, Call>,
                         dispatched: seq<RequestId>, outcomes: map<RequestId, Response>)

  datatype Event =
    | Receive(call: CallId, request: Request)
    | Begin(call: CallId, ioOk: bool)
    | Dispatch(call: CallId)
    | Return(call: CallId, ok: bool, payload: string)
    | Complete(call: CallId, ioOk: bool)
    | Cancel(call: CallId)
    | Crash

  predicate At(s: State, c: CallId, p: Phase) {
    c in s.calls && s.calls[c].phase == p
  }

  predicate Enabled(s: State, e: Event) {
    match e
    case Receive(c, _) => c !in s.calls
    case Begin(c, _) => At(s, c, Received)
    case Dispatch(c) => At(s, c, Admitted)
    case Return(c, _, _) => At(s, c, Running)
    case Complete(c, _) => c in s.calls && s.calls[c].phase.Executed?
    case Cancel(c) => c in s.calls && !s.calls[c].phase.Answered?
    case Crash => true
  }

  /** The error reply built from an exception; only its `ok` flag matters here. */
  function Refused(id: RequestId): Response {
    Response(id, false, "error", false)
  }

  function Marked(r: Response): Response {
    r.(replayed := true)
  }

  function Advanced(s: State, c: CallId, p: Phase): map<CallId, Call>
    requires c in s.calls
  {
    s.calls[c := s.calls[c].(phase := p)]
  }

  function Apply(capacity: nat, s: State, e: Event): State
    requires Enabled(s, e)
  {
    match e
    case Receive(c, r) => s.(calls := s.calls[c := Call(r, Received)])
    case Begin(c, ioOk) =>
      var r := s.calls[c].request;
      if !ioOk then s.(calls := Advanced(s, c, Answered(Refused(r.id)))) else
      var (d, begun) := Begun(s.durable, capacity, r.id, r.sha);
      var phase := match begun
                   case Ok(New) => Admitted
                   case Ok(Replay(stored)) => Answered(Marked(stored))
                   case Err(_) => Answered(Refused(r.id));
      s.(durable := d, calls := Advanced(s, c, phase))
    case Dispatch(c) => s.(calls := Advanced(s, c, Running), dispatched := s.dispatched + [s.calls[c].request.id])
    case Return(c, ok, payload) =>
      var id := s.calls[c].request.id;
      var response := Response(id, ok, payload, false);
      s.(calls := Advanced(s, c, Executed(response)), outcomes := s.outcomes[id := response])
    case Complete(c, ioOk) =>
      var r, response := s.calls[c].request, s.calls[c].phase.response;
      var (d, done) := if ioOk then Finished(s.durable, r.id, r.sha, response) else (s.durable, Err(Unavailable));
      s.(durable := d, calls := Advanced(s, c, Answered(if done.Ok? then response else Refused(r.id))))
    case Cancel(c) => s.(calls := s.calls - {c})
    case Crash => s.(calls := map[])
  }

  /** A call between admission and its end. */
  predicate Active(p: Phase) {
    p.Admitted? || p.Running? || p.Executed?
  }

  /** What the ledger and the history must say about a call in progress. */
  ghost predicate CallOk(s: State, c: CallId)
    requires c in s.calls
  {
    var Call(r, p) := s.calls[c];
    && (Active(p) ==> r.id in s.durable.requests && s.durable.requests[r.id] == Pending(r.sha))
    && (p.Admitted? ==> r.id !in s.dispatched)
    && (p.Running? ==> r.id in s.dispatched && r.id !in s.outcomes)
    && (p.Executed? ==> r.id in s.dispatched && r.id in s.outcomes && s.outcomes[r.id] == p.response)
    && (p.Answered? && p.reply.ok ==>
          && r.id in s.outcomes && r.id in s.durable.requests
          && s.durable.requests[r.id] == Completed(r.sha, s.outcomes[r.id])
          && p.reply.(replayed := false) == s.outcomes[r.id])
  }

  /** A completed record holds the response of the one execution. */
  ghost predicate RecordOk(s: State, id: RequestId)
    requires id in s.durable.requests
  {
    s.durable.requests[id].Completed? ==>
      id in s.dispatched && id in s.outcomes && s.outcomes[id] == s.durable.requests[id].response
  }

  ghost predicate Inv(capacity: nat, s: State) {
    && |s.durable.requests| <= capacity
    && NoRepeats(s.dispatched)
    && (forall id :: id in s.dispatched ==> id in s.durable.requests)
    && (forall id :: id in s.outcomes ==> id in s.dispatched && !s.outcomes[id].replayed)
    && (forall id :: id in s.durable.requests ==> RecordOk(s, id))
    && (forall c :: c in s.calls ==> CallOk(s, c))
    && (forall c, d :: c in s.calls && d in s.calls && c != d && Active(s.calls[c].phase) && Active(s.calls[d].phase) ==>
          s.calls[c].request.id != s.calls[d].request.id)
  }

  ghost predicate Initial(capacity: nat, s: State) {
    s.durable.requests == map[] && s.calls == map[] && s.dispatched == [] && s.outcomes == map[]
  }

  lemma StepExtends(capacity: nat, s: State, e: Event)
    requires Enabled(s, e) && |s.durable.requests| <= capacity
    ensures Extends(s.durable, Apply(capacity, s, e).durable)
    ensures |Apply(capacity, s, e).durable.requests| <= capacity
    ensures s.dispatched <= Apply(capacity, s, e).dispatched
  {
    match e
    case Begin(c, _) =>
      var r := s.calls[c].request;
      TransactionsExtend(s.durable, capacity, r.id, r.sha, Refused(r.id));
    case Complete(c, _) =>
      var r := s.calls[c].request;
      TransactionsExtend(s.durable, capacity, r.id, r.sha, s.calls[c].phase.response);
    case _ =>
  }

  /** A step leaves the calls it is not about as they were. */
  lemma StepKeepsOtherCalls(capacity: nat, s: State, e: Event, c: CallId)
    requires Inv(capacity, s) && Enabled(s, e) && c in s.calls && (e.Crash? || e.call != c)
    ensures c in Apply(capacity, s, e).calls ==> CallOk(Apply(capacity, s, e), c)
  {
    assert CallOk(s, c);
    match e
    case Dispatch(d) => assert CallOk(s, d);
    case Return(d, _, _) => assert CallOk(s, d);
    case Complete(d, _) => assert CallOk(s, d);
    case _ =>
  }

  lemma StepKeepsOwnCall(capacity: nat, s: State, e: Event)
    requires Inv(capacity, s) && Enabled(s, e) && !e.Crash?
    ensures e.call in Apply(capacity, s, e).calls ==> CallOk(Apply(capacity, s, e), e.call)
  {
    if e.call in s.calls {
      assert CallOk(s, e.call);
      assert s.calls[e.call].request.id in s.durable.requests ==> RecordOk(s, s.calls[e.call].request.id);
    }
  }

  lemma StepKeepsRecordOk(capacity: nat, s: State, e: Event, id: RequestId)
    requires Inv(capacity, s) && Enabled(s, e) && id in Apply(capacity, s, e).durable.requests
    ensures RecordOk(Apply(capacity, s, e), id)
  {
    if id in s.durable.requests {
      assert RecordOk(s, id);
    }
    match e
    case Return(d, _, _) => assert CallOk(s, d);
    case Complete(d, _) => assert CallOk(s, d);
    case _ =>
  }

  /** Two calls in progress never share a request id, and no dispatch is repeated. */
  lemma StepKeepsApart(capacity: nat, s: State, e: Event, c: CallId, d: CallId)
    requires Inv(capacity, s) && Enabled(s, e)
    requires var s' := Apply(capacity, s, e); c in s'.calls && d in s'.calls && c != d
    ensures var s' := Apply(capacity, s, e);
            Active(s'.calls[c].phase) && Active(s'.calls[d].phase) ==> s'.calls[c].request.id != s'.calls[d].request.id
  {
    if c in s.calls && d in s.calls {
      assert CallOk(s, c) && CallOk(s, d);
    }
  }

  lemma StepKeepsHistory(capacity: nat, s: State, e: Event)
    requires Inv(capacity, s) && Enabled(s, e)
    ensures var s' := Apply(capacity, s, e);
            && NoRepeats(s'.dispatched)
            && (forall id :: id in s'.dispatched ==> id in s'.durable.requests)
            && (forall id :: id in s'.outcomes ==> id in s'.dispatched && !s'.outcomes[id].replayed)
  {
    StepExtends(capacity, s, e);
    if e.Dispatch? || e.Return? {
      assert CallOk(s, e.call);
    }
  }

  lemma StepKeepsInv(capacity: nat, s: State, e: Event)
    requires Inv(capacity, s) && Enabled(s, e)
    ensures Inv(capacity, Apply(capacity, s, e))
  {
    var s' := Apply(capacity, s, e);
    StepExtends(capacity, s, e);
    StepKeepsHistory(capacity, s, e);
    forall c | c in s'.calls
      ensures CallOk(s', c)
    {
      if !e.Crash? && e.call == c {
        StepKeepsOwnCall(capacity, s, e);
      } else {
        StepKeepsOtherCalls(capacity, s, e, c);
      }
    }
    forall id | id in s'.durable.requests
      ensures RecordOk(s', id)
    {
      StepKeepsRecordOk(capacity, s, e, id);
    }
    forall c, d | c in s'.calls && d in s'.calls && c != d
      ensures Active(s'.calls[c].phase) && Active(s'.calls[d].phase) ==> s'.calls[c].request.id != s'.calls[d].request.id
    {
      StepKeepsApart(capacity, s, e, c, d);
    }
  }

  predicate Legal(capacity: nat, s: State, events: seq<Event>)
    decreases |events|
  {
    events != [] ==> Enabled(s, events[0]) && Legal(capacity, Apply(capacity, s, events[0]), events[1..])
  }

  function Exec(capacity: nat, s: State, events: seq<Event>): State
    requires Legal(capacity, s, events)
    decreases |events|
  {
    if events == [] then s else Exec(capacity, Apply(capacity, s, events[0]), events[1..])
  }

  lemma {:induction false} RunKeepsInv(capacity: nat, s: State, events: seq<Event>)
    requires Inv(capacity, s) && Legal(capacity, s, events)
    ensures Inv(capacity, Exec(capacity, s, events))
    ensures Extends(s.durable, Exec(capacity, s, events).durable)
    decreases |events|
  {
    if events != [] {
      var s' := Apply(capacity, s, events[0]);
      StepKeepsInv(capacity, s, events[0]);
      StepExtends(capacity, s, events[0]);
      RunKeepsInv(capacity, s', events[1..]);
      ExtendsIsTransitive(s.durable, s'.durable, Exec(capacity, s, events).durable);
    }
  }

  /** How often a request reached dispatch. */
  function Times(ids: seq<RequestId>, id: RequestId): nat {
    if ids == [] then 0 else Times(ids[1..], id) + if ids[0] == id then 1 else 0
  }

  lemma {:induction false} NoRepeatsMeansOnce(ids: seq<RequestId>, id: RequestId)
    requires NoRepeats(ids)
    ensures Times(ids, id) <= 1
    ensures Times(ids, id) == 1 <==> id in ids
  {
    if ids != [] {
      NoRepeatsMeansOnce(ids[1..], id);
      assert ids == [ids[0]] + ids[1..];
    }
  }

  /** Every request id reaches dispatch at most once, over any run of concurrent calls,
      retries, ledger failures, cancellations and crashes; the ledger stays within capacity;
      and a call that is answered with success was given the recorded response of that one
      execution, apart from the replay mark. */
  lemma AtMostOnce(capacity: nat, s0: State, events: seq<Event>, id: RequestId, c: CallId)
    requires Initial(capacity, s0) && Legal(capacity, s0, events)
    ensures var s := Exec(capacity, s0, events);
            && Times(s.dispatched, id) <= 1
            && |s.durable.requests| <= capacity
            && (c in s.calls && s.calls[c].phase.Answered? && s.calls[c].phase.reply.ok ==>
                  var Request(rid, sha) := s.calls[c].request;
                  && Times(s.dispatched, rid) == 1
                  && rid in s.outcomes && rid in s.durable.requests
                  && s.durable.requests[rid].Completed? && s.durable.requests[rid].sha == sha
                  && s.calls[c].phase.reply.(replayed := false) == s.durable.requests[rid].response == s.outcomes[rid])
  {
    RunKeepsInv(capacity, s0, events);
    var s := Exec(capacity, s0, events);
    NoRepeatsMeansOnce(s.dispatched, id);
    if c in s.calls && s.calls[c].phase.Answered? && s.calls[c].phase.reply.ok {
      assert CallOk(s, c);
      NoRepeatsMeansOnce(s.dispatched, s.calls[c].request.id);
    }
  }

  /** From any reachable point on, a known id keeps its digest and a completed response is
      never changed or forgotten. */
  lemma LedgerIsPermanent(capacity: nat, s0: State, first: seq<Event>, second: seq<Event>, id: RequestId)
    requires Initial(capacity, s0) && Legal(capacity, s0, first)
    requires Legal(capacity, Exec(capacity, s0, first), second)
    requires id in Exec(capacity, s0, first).durable.requests
    ensures var before := Exec(capacity, s0, first).durable.requests[id];
            var later := Exec(capacity, Exec(capacity, s0, first), second).durable.requests;
            id in later && later[id].sha == before.sha && (before.Completed? ==> later[id] == before)
  {
    RunKeepsInv(capacity, s0, first);
    RunKeepsInv(capacity, Exec(capacity, s0, first), second);
  }

  /** A run and its continuation are one run. */
  lemma {:induction false} RunsCompose(capacity: nat, s: State, first: seq<Event>, second: seq<Event>)
    requires Legal(capacity, s, first) && Legal(capacity, Exec(capacity, s, first), second)
    ensures Legal(capacity, s, first + second)
    ensures Exec(capacity, s, first + second) == Exec(capacity, Exec(capacity, s, first), second)
    decreases |first|
  {
    if first == [] {
      assert first + second == second;
    } else {
      RunsCompose(capacity, Apply(capacity, s, first[0]), first[1..], second);
      assert (first + second)[1..] == first[1..] + second;
    }
  }

  /** The id has been dispatched or belongs to a call. */
  ghost predicate Seen(s: State, id: RequestId) {
    id in s.dispatched || exists c <- s.calls :: s.calls[c].request.id == id
  }

  predicate Receives(e: Event, id: RequestId) {
    e.Receive? && e.request.id == id
  }

  lemma StaysUnseen(capacity: nat, s: State, e: Event, id: RequestId)
    requires Enabled(s, e) && !Seen(s, id) && !Receives(e, id)
    ensures !Seen(Apply(capacity, s, e), id)
  {
  }

  /** Only a request that was received is dispatched. */
  lemma {:induction false} DispatchedWasReceived(capacity: nat, s: State, events: seq<Event>, id: RequestId) returns (k: nat)
    requires Legal(capacity, s, events) && !Seen(s, id) && id in Exec(capacity, s, events).dispatched
    ensures k < |events| && Receives(events[k], id)
    decreases |events|
  {
    if Receives(events[0], id) {
      k := 0;
    } else {
      StaysUnseen(capacity, s, events[0], id);
      k := DispatchedWasReceived(capacity, Apply(capacity, s, events[0]), events[1..], id);
      k := k + 1;
    }
  }

  // ---- One handler call, run alone ----

  const DURABLE_MUTATING_OPERATIONS: set<string> := {
    "lane.open", "lane.renew", "lane.close", "fs.write_text", "fs.append_text", "fs.mkdir", "fs.move",
    "fs.replace_text", "process.exec", "process.start", "process.input", "process.terminate"}

  /** A request as it reaches the handler; `sha` is the digest of its canonical form. */
  datatype Message = Message(versionOk: bool, id: RequestId, operation: string, sha: Digest)

  predicate WellFormed(m: Message) {
    m.versionOk && m.id != "" && m.operation != ""
  }

  class Handler {
    const store: AgentStateStore?

    ghost predicate Valid()
      reads this, store
    {
      store != null ==> store.Valid()
    }

    constructor (store: AgentStateStore?)
      requires store != null ==> store.Valid()
      ensures Valid() && this.store == store
    {
      this.store := store;
    }

    /** Handles one message to the end. `effect` is what dispatch would return. A mutation of an
        unknown id is dispatched if there is room, answered with what it returned, and recorded; a
        known id is never dispatched, and replays exactly a completed record of the same digest.
        Other operations are dispatched and never touch the ledger. */
    method Handle(m: Message, effect: (bool, string), beginOk: bool, completeOk: bool)
      returns (reply: Response, dispatched: bool)
      requires Valid()
      modifies store
      ensures Valid()
      ensures !WellFormed(m) ==> !dispatched && !reply.ok
      ensures WellFormed(m) && (store == null || m.operation !in DURABLE_MUTATING_OPERATIONS) ==>
                dispatched && reply == Response(m.id, effect.0, effect.1, false)
      ensures store != null && !(WellFormed(m) && m.operation in DURABLE_MUTATING_OPERATIONS) ==>
                store.durable == old(store.durable)
      ensures store != null && WellFormed(m) && m.operation in Failover.MUTATING_OPERATIONS ==>
                (dispatched <==> beginOk && m.id !in old(store.durable.requests) && |old(store.durable.requests)| < store.capacity)
      ensures store != null && WellFormed(m) && m.operation in Failover.MUTATING_OPERATIONS && dispatched ==>
                && store.durable == old(store.durable).(requests := old(store.durable.requests)[m.id :=
                     if completeOk then Completed(m.sha, Response(m.id, effect.0, effect.1, false)) else Pending(m.sha)])
                && if completeOk then reply == Response(m.id, effect.0, effect.1, false) else !reply.ok
      ensures store != null && WellFormed(m) && m.operation in Failover.MUTATING_OPERATIONS && !dispatched ==>
                && store.durable == old(store.durable)
                && if beginOk && m.id in old(store.durable.requests) && old(store.durable.requests)[m.id].Completed?
                      && old(store.durable.requests)[m.id].sha == m.sha
                   then reply == old(store.durable.requests)[m.id].response.(replayed := true)
                   else !reply.ok
      ensures store != null && WellFormed(m) && m.operation in DURABLE_MUTATING_OPERATIONS ==>
                (store.durable, reply, dispatched) ==
                Handled(old(store.durable), store.capacity, Request(m.id, m.sha), effect, beginOk, completeOk)
    {
      reply, dispatched := Refused(m.id), false;
      if !WellFormed(m) {
        return;
      }
      var durable := store != null && m.operation in DURABLE_MUTATING_OPERATIONS;
      if durable {
        var begun := store.BeginRequest(m.id, m.sha, beginOk);
        if begun.Err? {
          return;
        }
        if begun.value.Replay? {
          reply := begun.value.response.(replayed := true);
          return;
        }
      }
      dispatched := true;
      var response := Response(m.id, effect.0, effect.1, false);
      reply := response;
      if durable {
        var done := store.CompleteRequest(m.id, m.sha, response, completeOk);
        if done.Err? {
          reply := Refused(m.id);
        }
      }
    }
  }

  /** Two calls with one new id and an available ledger: the first is executed, the second is
      not. Under the same digest it gets the first one's answer, marked; otherwise an error. */
  method HandleTwice(h: Handler, m: Message, again: Message, effect: (bool, string), other: (bool, string))
    returns (first: Response, second: Response, executions: nat)
    requires h.Valid() && h.store != null && WellFormed(m) && WellFormed(again) && m.id == again.id
    requires m.operation in Failover.MUTATING_OPERATIONS && again.operation in Failover.MUTATING_OPERATIONS
    requires m.id !in h.store.durable.requests && |h.store.durable.requests| < h.store.capacity
    modifies h.store
    ensures executions == 1 && first == Response(m.id, effect.0, effect.1, false)
    ensures if again.sha == m.sha then second == first.(replayed := true) else !second.ok
    ensures h.store.durable.requests == old(h.store.durable.requests)[m.id := Completed(m.sha, first)]
  {
    var done, doneAgain;
    first, done := h.Handle(m, effect, true, true);
    second, doneAgain := h.Handle(again, other, true, true);
    executions := (if done then 1 else 0) + if doneAgain then 1 else 0;
  }

  /** A whole durable handler call as one transition. */
  function Handled(d: Durable, capacity: nat, r: Request, effect: (bool, string), beginOk: bool, completeOk: bool)
    : (Durable, Response, bool)
  {
    if !beginOk then (d, Refused(r.id), false) else
    var (d1, begun) := Begun(d, capacity, r.id, r.sha);
    match begun
    case Err(_) => (d1, Refused(r.id), false)
    case Ok(Replay(stored)) => (d1, Marked(stored), false)
    case Ok(New) =>
      var response := Response(r.id, effect.0, effect.1, false);
      if !completeOk then (d1, Refused(r.id), true)
      else (Finished(d1, r.id, r.sha, response).0, response, true)
  }

  /** Running a call alone is a run of the interleaved model: same ledger, same reply, and it
      reaches dispatch in one exactly when it does in the other. */
  lemma HandledIsARun(capacity: nat, s: State, c: CallId, r: Request, effect: (bool, string), beginOk: bool, completeOk: bool)
    returns (events: seq<Event>)
    requires c !in s.calls
    ensures Legal(capacity, s, events)
    ensures var s' := Exec(capacity, s, events);
            var (d, reply, dispatched) := Handled(s.durable, capacity, r, effect, beginOk, completeOk);
            && s'.durable == d && c in s'.calls && s'.calls[c] == Call(r, Answered(reply))
            && s'.dispatched == if dispatched then s.dispatched + [r.id] else s.dispatched
  {
    var s1 := Apply(capacity, s, Receive(c, r));
    var s2 := Apply(capacity, s1, Begin(c, beginOk));
    if s2.calls[c].phase == Admitted {
      var s3 := Apply(capacity, s2, Dispatch(c));
      var s4 := Apply(capacity, s3, Return(c, effect.0, effect.1));
      PrefixRun(capacity, s4, Complete(c, completeOk), []);
      events := [Complete(c, completeOk)] + [];
      PrefixRun(capacity, s3, Return(c, effect.0, effect.1), events);
      events := [Return(c, effect.0, effect.1)] + events;
      PrefixRun(capacity, s2, Dispatch(c), events);
      events := [Dispatch(c)] + events;
    } else {
      events := [];
    }
    PrefixRun(capacity, s1, Begin(c, beginOk), events);
    events := [Begin(c, beginOk)] + events;
    PrefixRun(capacity, s, Receive(c, r), events);
    events := [Receive(c, r)] + events;
  }

  lemma PrefixRun(capacity: nat, s: State, e: Event, events: seq<Event>)
    requires Enabled(s, e) && Legal(capacity, Apply(capacity, s, e), events)
    ensures Legal(capacity, s, [e] + events)
    ensures Exec(capacity, s, [e] + events) == Exec(capacity, Apply(capacity, s, e), events)
  {
    assert ([e] + events)[1..] == events;
  }

  /** A crash loses every call and nothing durable. A request that it interrupted anywhere between
      admission and completion is refused from then on, never executed again. */
  lemma CrashedRequestIsRefused(capacity: nat, s: State, c: CallId, again: CallId)
    requires Inv(capacity, s) && c in s.calls && Active(s.calls[c].phase)
    ensures var r := s.calls[c].request;
            var events := [Crash, Receive(again, r), Begin(again, true)];
            && Legal(capacity, s, events)
            && var s' := Exec(capacity, s, events);
               && s'.calls == map[again := Call(r, Answered(Refused(r.id)))] && !Refused(r.id).ok
               && s'.durable == s.durable && s'.dispatched == s.dispatched && s'.outcomes == s.outcomes
  {
    var r := s.calls[c].request;
    assert CallOk(s, c);
    var s1 := Apply(capacity, s, Crash);
    var s2 := Apply(capacity, s1, Receive(again, r));
    PrefixRun(capacity, s2, Begin(again, true), []);
    PrefixRun(capacity, s1, Receive(again, r), [Begin(again, true)] + []);
    PrefixRun(capacity, s, Crash, [Receive(again, r)] + ([Begin(again, true)] + []));
    assert [Crash] + ([Receive(again, r)] + ([Begin(again, true)] + [])) == [Crash, Receive(again, r), Begin(again, true)];
  }

  /** Failures come at any time: a crash in every state, and a cancellation of any call that has not
      been answered, which forgets that call and nothing else. */
  lemma FailuresComeAnyTime(capacity: nat, s: State, c: CallId)
    ensures Enabled(s, Crash)
    ensures c in s.calls && !s.calls[c].phase.Answered? ==> Enabled(s, Cancel(c)) && Apply(capacity, s, Cancel(c)) == s.(calls := s.calls - {c})
  {
  }

  /** A retry of an answered call has no second effect and returns the same answer, marked;
      a retry after an unfinished one is refused for ever. */
  lemma RetryIsIdempotent(d: Durable, capacity: nat, r: Request, effect: (bool, string), completeOk: bool,
                          effect2: (bool, string), beginOk2: bool, completeOk2: bool)
    ensures var (d1, reply1, dispatched1) := Handled(d, capacity, r, effect, true, completeOk);
            var (d2, reply2, dispatched2) := Handled(d1, capacity, r, effect2, beginOk2, completeOk2);
            dispatched1 ==>
              && !dispatched2 && d2 == d1
              && (completeOk && beginOk2 ==> reply2 == Marked(reply1))
              && (!completeOk ==> !reply2.ok)
  {
    var (d1, begun) := Begun(d, capacity, r.id, r.sha);
    if begun == Ok(New) {
      CompletedRequestReplays(d1, capacity, r.id, r.sha, Response(r.id, effect.0, effect.1, false));
    }
  }
}
