/** Sessions sharing one agent: every session sees its lanes under its own names, and request
    ids are kept apart per controller.

    Session ids are base64url text (section 5 of RFC 4648), so they contain no colon. A
    controller principal is "controller:" and 64 hexadecimal digits. */
module SessionScope {

  import opened Outcomes
  import opened Resources
  import opened LaneRegistry
  import LaneRuns

  datatype Binding = Binding(sessionId: string, controller: string, granted: set<string>, expiresAt: int)

  predicate IsSessionId(s: string) {
    ':' !in s
  }

  predicate IsHex(c: char) {
    '0' <= c <= '9' || 'a' <= c <= 'f'
  }

  predicate IsController(p: string) {
    |p| == 11 + 64 && p[..11] == "controller:" && forall i :: 11 <= i < |p| ==> IsHex(p[i])
  }

  function LanePrefix(sessionId: string): string {
    sessionId + "::"
  }

  function RequestPrefix(controller: string): string {
    controller + "::"
  }

  /** The internal name of a session's lane. */
  function Scoped(sessionId: string, laneId: string): string {
    LanePrefix(sessionId) + laneId
  }

  predicate OwnedBy(sessionId: string, internal: string) {
    LanePrefix(sessionId) <= internal
  }

  /** Removes the prefix if it is there. */
  function External(sessionId: string, internal: string): string {
    if OwnedBy(sessionId, internal) then internal[|LanePrefix(sessionId)|..] else internal
  }

  /** Naming is a bijection between a session's names and the internal names it owns. */
  lemma ScopingRoundTrip(sessionId: string, laneId: string, internal: string)
    ensures External(sessionId, Scoped(sessionId, laneId)) == laneId && OwnedBy(sessionId, Scoped(sessionId, laneId))
    ensures OwnedBy(sessionId, internal) ==> Scoped(sessionId, External(sessionId, internal)) == internal
  {
    assert Scoped(sessionId, laneId)[|LanePrefix(sessionId)|..] == laneId;
  }

  /** The owner is what precedes the first colon. */
  lemma OwnerEndsAtFirstColon(a: string, internal: string)
    requires IsSessionId(a) && OwnedBy(a, internal)
    ensures ':' in internal && ColonAt(internal) == |a|
  {
    assert internal[|a|] == LanePrefix(a)[|a|] == ':';
  }

  /** No internal name belongs to two sessions. */
  lemma OwnersAreUnique(a: string, b: string, internal: string)
    requires IsSessionId(a) && IsSessionId(b) && OwnedBy(a, internal) && OwnedBy(b, internal)
    ensures a == b
  {
    OwnerEndsAtFirstColon(a, internal);
    OwnerEndsAtFirstColon(b, internal);
    assert a == LanePrefix(a)[..|a|] && b == LanePrefix(b)[..|b|];
    assert LanePrefix(a) == internal[..|a| + 2] == LanePrefix(b);
  }

  lemma ScopingIsInjective(a: string, x: string, b: string, y: string)
    requires IsSessionId(a) && IsSessionId(b) && Scoped(a, x) == Scoped(b, y)
    ensures a == b && x == y
  {
    ScopingRoundTrip(a, x, "");
    ScopingRoundTrip(b, y, "");
    OwnersAreUnique(a, b, Scoped(a, x));
  }

  /** Ledger ids are kept apart: controller and request id can be read back. */
  lemma RequestIdsAreInjective(p: string, x: string, q: string, y: string)
    requires IsController(p) && IsController(q) && RequestPrefix(p) + x == RequestPrefix(q) + y
    ensures p == q && x == y
  {
    var id := RequestPrefix(p) + x;
    assert id[..|p|] == p && id[..|q|] == q;
    assert id[|p| + 2..] == x && id[|q| + 2..] == y;
  }

  // ---- The session handler ----

  /** A field of a request that should hold text. */
  datatype Field = Absent | NotText | Text(text: string)

  /** A request as it arrives; `body` is everything that passes through unchanged. */
  datatype Incoming = Incoming(requestId: Field, operation: Field, laneId: Field, capabilities: Option<set<string>>, body: string)

  datatype HandlerError = SessionExpired | InvalidRequest | SessionCapabilityDenied

  predicate IsName(f: Field) {
    f.Text? && f.text != ""
  }

  /** What the handler passes on to the agent, or the error it answers with. */
  function Internal(b: Binding, now: int, r: Incoming): Result<Incoming, HandlerError> {
    if now >= b.expiresAt then Err(SessionExpired)
    else if !IsName(r.requestId) || !IsName(r.operation) then Err(InvalidRequest)
    else if r.operation.text == "lane.open" && r.capabilities.None? then Err(InvalidRequest)
    else if r.operation.text == "lane.open" && !(r.capabilities.value <= b.granted) then Err(SessionCapabilityDenied)
    else if r.laneId != Absent && !IsName(r.laneId) then Err(InvalidRequest)
    else Ok(r.(requestId := Text(RequestPrefix(b.controller) + r.requestId.text),
               laneId := if r.laneId == Absent then Absent else Text(Scoped(b.sessionId, r.laneId.text))))
  }

  /** What is forwarded, and when: exactly the well formed requests of an unexpired session that ask
      for no more than it was granted. The id gets the controller's prefix, the lane the session's,
      and the rest passes unchanged. */
  lemma ForwardingIsExact(b: Binding, now: int, r: Incoming)
    ensures Internal(b, now, r).Ok? <==>
            && now < b.expiresAt
            && r.requestId.Text? && r.requestId.text != "" && r.operation.Text? && r.operation.text != ""
            && (r.laneId.Absent? || (r.laneId.Text? && r.laneId.text != ""))
            && (r.operation.text == "lane.open" ==> r.capabilities.Some? && forall c <- r.capabilities.value :: c in b.granted)
    ensures now >= b.expiresAt ==> Internal(b, now, r) == Err(SessionExpired)
    ensures Internal(b, now, r).Ok? ==>
            var f := Internal(b, now, r).value;
            && f.requestId == Text(b.controller + "::" + r.requestId.text)
            && f.laneId == (if r.laneId.Absent? then Absent else Text(b.sessionId + "::" + r.laneId.text))
            && f.operation == r.operation && f.capabilities == r.capabilities && f.body == r.body
  {
  }

  /** Ledger ids across sessions: two forwarded requests carry the same id exactly if they come from
      the same controller under the same request id. So one controller's retry keeps its id in
      another session, and different controllers never meet. */
  lemma LedgerIdsAreExact(b: Binding, now: int, r: Incoming, b2: Binding, now2: int, r2: Incoming)
    requires IsController(b.controller) && IsController(b2.controller)
    requires Internal(b, now, r).Ok? && Internal(b2, now2, r2).Ok?
    ensures Internal(b, now, r).value.requestId == Internal(b2, now2, r2).value.requestId <==>
            b.controller == b2.controller && r.requestId == r2.requestId
  {
    ForwardingIsExact(b, now, r);
    ForwardingIsExact(b2, now2, r2);
    if Internal(b, now, r).value.requestId == Internal(b2, now2, r2).value.requestId {
      RequestIdsAreInjective(b.controller, r.requestId.text, b2.controller, r2.requestId.text);
    }
  }

  /** Lanes across sessions: two forwarded requests name the same lane exactly if session and name
      agree. */
  lemma LaneIdsAreExact(b: Binding, now: int, r: Incoming, b2: Binding, now2: int, r2: Incoming)
    requires IsSessionId(b.sessionId) && IsSessionId(b2.sessionId) && r.laneId.Text? && r2.laneId.Text?
    requires Internal(b, now, r).Ok? && Internal(b2, now2, r2).Ok?
    ensures Internal(b, now, r).value.laneId == Internal(b2, now2, r2).value.laneId <==>
            b.sessionId == b2.sessionId && r.laneId == r2.laneId
  {
    ForwardingIsExact(b, now, r);
    ForwardingIsExact(b2, now2, r2);
    if Internal(b, now, r).value.laneId == Internal(b2, now2, r2).value.laneId {
      ScopingIsInjective(b.sessionId, r.laneId.text, b2.sessionId, r2.laneId.text);
    }
  }

  /** A forwarded request names only a lane of its own session and asks only for granted
      capabilities, and two forwarded requests of one session are the same exactly if the
      originals were: retries over several paths of a session keep one identity. */
  lemma ForwardedRequestsStayInSession(b: Binding, now: int, r: Incoming, r2: Incoming)
    requires Internal(b, now, r).Ok?
    ensures r.laneId.Text? ==> Internal(b, now, r).value.laneId.Text? && OwnedBy(b.sessionId, Internal(b, now, r).value.laneId.text)
    ensures r.operation == Text("lane.open") ==> Internal(b, now, r).value.capabilities.value <= b.granted
    ensures Internal(b, now, r2).Ok? ==> (Internal(b, now, r) == Internal(b, now, r2) <==> r == r2)
  {
    if r.laneId.Text? {
      ScopingRoundTrip(b.sessionId, r.laneId.text, "");
    }
    if Internal(b, now, r2).Ok? && Internal(b, now, r) == Internal(b, now, r2) {
      var p := RequestPrefix(b.controller);
      assert (p + r.requestId.text)[|p|..] == r.requestId.text && (p + r2.requestId.text)[|p|..] == r2.requestId.text;
      if r2.laneId.Text? {
        ScopingRoundTrip(b.sessionId, r2.laneId.text, "");
      }
    }
  }

  /** A reply's lane fields: the lane it is about and, for a listing, the lanes it names. */
  datatype Payload = Payload(laneId: Option<string>, lanes: Option<seq<string>>)

  /** The listed lanes a session gets to see, under its own names. */
  function Visible(sessionId: string, lanes: seq<string>): seq<string> {
    if lanes == [] then [] else
      (if OwnedBy(sessionId, lanes[0]) then [External(sessionId, lanes[0])] else []) + Visible(sessionId, lanes[1..])
  }

  function Externalized(sessionId: string, p: Payload): Payload {
    Payload(if p.laneId.Some? then Some(External(sessionId, p.laneId.value)) else None,
            if p.lanes.Some? then Some(Visible(sessionId, p.lanes.value)) else None)
  }

  /** A listing shows a session exactly its own lanes. */
  lemma {:induction false} ListingShowsOwnLanes(sessionId: string, lanes: seq<string>, x: string)
    ensures x in Visible(sessionId, lanes) <==> Scoped(sessionId, x) in lanes
  {
    if lanes != [] {
      ListingShowsOwnLanes(sessionId, lanes[1..], x);
      ScopingRoundTrip(sessionId, x, lanes[0]);
      assert lanes == [lanes[0]] + lanes[1..];
    }
  }

  function ScopedAll(sessionId: string, names: seq<string>): seq<string> {
    seq(|names|, i requires 0 <= i < |names| => Scoped(sessionId, names[i]))
  }

  /** Externalizing a reply about a session's own lanes undoes the prefixes and keeps the order. */
  lemma {:induction false} ExternalizingUndoesScoping(sessionId: string, about: string, names: seq<string>)
    ensures Externalized(sessionId, Payload(Some(Scoped(sessionId, about)), Some(ScopedAll(sessionId, names))))
         == Payload(Some(about), Some(names))
  {
    ScopingRoundTrip(sessionId, about, "");
    if names != [] {
      ScopingRoundTrip(sessionId, names[0], "");
      ExternalizingUndoesScoping(sessionId, about, names[1..]);
      assert ScopedAll(sessionId, names)[1..] == ScopedAll(sessionId, names[1..]);
      assert names == [names[0]] + names[1..];
    }
  }

  // ---- Sessions over a shared registry ----

  datatype Request =
    | Open(req: OpenRequest, ioOk: bool)
    | Renew(laneId: string, fence: int, ttl: real)
    | Close(laneId: string, fence: int)
    | Authorize(laneId: string, fence: int, access: Access)
    | List

  datatype Event =
    | ByRequest(sessionId: string, request: Request)
    | Elapse(time: real)

  /** The registry step a session's request becomes. */
  function RegistryEvent(e: Event): LaneRuns.Event {
    match e
    case Elapse(time) => LaneRuns.Tick(time)
    case ByRequest(s, Open(req, ioOk)) => LaneRuns.Open(req.(laneId := Scoped(s, req.laneId)), ioOk)
    case ByRequest(s, Renew(id, fence, ttl)) => LaneRuns.Renew(Scoped(s, id), fence, ttl)
    case ByRequest(s, Close(id, fence)) => LaneRuns.Close(Scoped(s, id), fence)
    case ByRequest(s, Authorize(id, fence, access)) => LaneRuns.Authorize(Scoped(s, id), fence, access)
    case ByRequest(_, List) => LaneRuns.Reap
  }

  predicate Legal(e: Event) {
    match e
    case Elapse(time) => time >= 0.0
    case ByRequest(s, _) => IsSessionId(s)
  }

  function Exec(cfg: LaneRuns.Setup, w: LaneRuns.World, events: seq<Event>): LaneRuns.World
    decreases |events|
  {
    if events == [] then w else Exec(cfg, LaneRuns.Apply(cfg, w, RegistryEvent(events[0])), events[1..])
  }

  /** The lane is unchanged, or gone because it had expired. */
  predicate Untouched(before: LaneRuns.World, after: LaneRuns.World, id: LaneId)
    requires id in before.table.lanes
  {
    if id in after.table.lanes then after.table.lanes[id] == before.table.lanes[id]
    else after.now >= before.table.lanes[id].expiresAt
  }

  /** A registry step that does not name a lane leaves it as it is, or reaps it. */
  lemma OtherLanesUntouched(cfg: LaneRuns.Setup, w: LaneRuns.World, e: LaneRuns.Event, id: LaneId)
    requires id in w.table.lanes && LaneRuns.Legal(e) && !e.Restart?
    requires match e
             case Open(req, _) => req.laneId != id
             case Renew(x, _, _) => x != id
             case Close(x, _) => x != id
             case Authorize(x, _, _) => x != id
             case _ => true
    ensures Untouched(w, LaneRuns.Apply(cfg, w, e), id)
    ensures w.now <= LaneRuns.Apply(cfg, w, e).now
  {
  }

  lemma ForeignNameDiffers(owner: string, id: LaneId, sessionId: string, named: string)
    requires IsSessionId(owner) && IsSessionId(sessionId) && owner != sessionId && OwnedBy(owner, id)
    ensures Scoped(sessionId, named) != id
  {
    ScopingRoundTrip(sessionId, named, "");
    if Scoped(sessionId, named) == id {
      OwnersAreUnique(owner, sessionId, id);
    }
  }

  lemma OthersDoNotTouch(cfg: LaneRuns.Setup, w: LaneRuns.World, e: Event, owner: string, id: LaneId)
    requires IsSessionId(owner) && OwnedBy(owner, id) && id in w.table.lanes
    requires Legal(e) && (e.ByRequest? ==> e.sessionId != owner)
    ensures Untouched(w, LaneRuns.Apply(cfg, w, RegistryEvent(e)), id)
    ensures w.now <= LaneRuns.Apply(cfg, w, RegistryEvent(e)).now
  {
    if e.ByRequest? && !e.request.List? {
      ForeignNameDiffers(owner, id, e.sessionId, if e.request.Open? then e.request.req.laneId else e.request.laneId);
    }
    OtherLanesUntouched(cfg, w, RegistryEvent(e), id);
  }

  /** Isolation over whole runs: whatever other sessions do, and however long it takes, a
      session's lane stays exactly as it is until it expires. */
  lemma {:induction false} SessionsAreIsolated(cfg: LaneRuns.Setup, w: LaneRuns.World, events: seq<Event>, owner: string, id: LaneId)
    requires IsSessionId(owner) && OwnedBy(owner, id) && id in w.table.lanes
    requires forall e <- events :: Legal(e) && (e.ByRequest? ==> e.sessionId != owner)
    ensures w.now <= Exec(cfg, w, events).now
    ensures Untouched(w, Exec(cfg, w, events), id) || Exec(cfg, w, events).now >= w.table.lanes[id].expiresAt
    decreases |events|
  {
    if events != [] {
      var w' := LaneRuns.Apply(cfg, w, RegistryEvent(events[0]));
      OthersDoNotTouch(cfg, w, events[0], owner, id);
      if id in w'.table.lanes {
        SessionsAreIsolated(cfg, w', events[1..], owner, id);
      } else {
        ClockAdvances(cfg, w', events[1..]);
      }
    }
  }

  lemma {:induction false} ClockAdvances(cfg: LaneRuns.Setup, w: LaneRuns.World, events: seq<Event>)
    requires forall e <- events :: Legal(e)
    ensures w.now <= Exec(cfg, w, events).now
    decreases |events|
  {
    if events != [] {
      assert Legal(events[0]);
      ClockAdvances(cfg, LaneRuns.Apply(cfg, w, RegistryEvent(events[0])), events[1..]);
    }
  }

  /** Draining a session closes its lanes and nobody else's. `at` gives the time of each close;
      `terminates` says whether the lane's processes could be terminated first. A lane whose
      processes could not be is reported and kept; one that expired meanwhile is reported and
      gone. The session is drained exactly when nothing is reported. */
  method CloseSession(reg: Registry, sessionId: string, now: real, at: LaneId -> real, terminates: LaneId -> bool)
    returns (closed: set<LaneId>, unresolved: set<LaneId>)
    requires reg.Valid()
    modifies reg`table
    ensures reg.Valid()
    ensures Tallied((set id | id in Unexpired(old(reg.table.lanes), now) && OwnedBy(sessionId, id)), closed, unresolved,
                    old(reg.table.lanes), at, terminates)
    ensures reg.table.lanes ==
            map id | id in Unexpired(old(reg.table.lanes), now) && !(OwnedBy(sessionId, id) && terminates(id)) :: old(reg.table.lanes)[id]
    ensures unresolved == {} ==> forall id <- reg.table.lanes :: !OwnedBy(sessionId, id)
  {
    ghost var listed := reg.table.lanes;
    var own := OwnLanes(reg, sessionId, now);
    ghost var live := reg.table.lanes;
    closed, unresolved := CloseAll(reg, own, at, terminates);
    SameTally(own, closed, unresolved, live, listed, at, terminates);
  }

  lemma SameTally(done: set<LaneId>, closed: set<LaneId>, unresolved: set<LaneId>, live: map<LaneId, Lane>, listed: map<LaneId, Lane>,
                  at: LaneId -> real, terminates: LaneId -> bool)
    requires Tallied(done, closed, unresolved, live, at, terminates) && done <= live.Keys
    requires forall id <- live :: id in listed && listed[id] == live[id]
    ensures Tallied(done, closed, unresolved, listed, at, terminates)
  {
    forall id | id in done
      ensures ClosesInTime(live, id, at, terminates) <==> ClosesInTime(listed, id, at, terminates)
    {
    }
  }

  /** The listed lanes of the session. */
  method OwnLanes(reg: Registry, sessionId: string, now: real) returns (own: set<LaneId>)
    requires reg.Valid()
    modifies reg`table
    ensures reg.Valid() && reg.table.lanes == Unexpired(old(reg.table.lanes), now)
    ensures own == set id | id in reg.table.lanes && OwnedBy(sessionId, id)
  {
    var visible := reg.Snapshot(now);
    own := set lane | lane in visible && OwnedBy(sessionId, lane.laneId) :: lane.laneId;
    OwnIds(reg.cfg, reg.table, visible, sessionId);
  }

  lemma OwnIds(cfg: Limits, t: LaneTable, visible: seq<Lane>, sessionId: string)
    requires Consistent(cfg, t)
    requires forall lane: Lane :: lane in visible <==> lane.laneId in t.lanes && t.lanes[lane.laneId] == lane
    ensures (set lane | lane in visible && OwnedBy(sessionId, lane.laneId) :: lane.laneId) == set id | id in t.lanes && OwnedBy(sessionId, id)
  {
    forall id | id in t.lanes
      ensures t.lanes[id] in visible && t.lanes[id].laneId == id
    {
      assert WellFormed(cfg, t, id);
    }
  }

  method CloseAll(reg: Registry, own: set<LaneId>, at: LaneId -> real, terminates: LaneId -> bool)
    returns (closed: set<LaneId>, unresolved: set<LaneId>)
    requires reg.Valid() && own <= reg.table.lanes.Keys
    modifies reg`table
    ensures reg.Valid() && Tallied(own, closed, unresolved, old(reg.table.lanes), at, terminates)
    ensures reg.table.lanes == old(reg.table.lanes) - Terminated(own, terminates)
  {
    ghost var listed := reg.table.lanes;
    closed, unresolved := {}, {};
    var remaining := own;
    ghost var done: set<LaneId> := {};
    while remaining != {}
      invariant reg.Valid() && reg.table.lanes == listed - Terminated(done, terminates)
      invariant Split(own, done, remaining) && Tallied(done, closed, unresolved, listed, at, terminates)
    {
      var id :| id in remaining;
      TerminatedNext(listed, done, id, terminates);
      TallyNext(done, closed, unresolved, listed, at, terminates, id);
      var ok := CloseTurn(reg, id, at(id), terminates(id));
      if ok {
        closed := closed + {id};
      } else {
        unresolved := unresolved + {id};
      }
      done, remaining := done + {id}, remaining - {id};
    }
    assert done == own;
  }

  /** The lanes done are sorted into those that were closed and those that were not. */
  ghost predicate Tallied(done: set<LaneId>, closed: set<LaneId>, unresolved: set<LaneId>, lanes: map<LaneId, Lane>,
                          at: LaneId -> real, terminates: LaneId -> bool)
  {
    && (forall id :: id in closed <==> id in done && ClosesInTime(lanes, id, at, terminates))
    && (forall id :: id in unresolved <==> id in done && !ClosesInTime(lanes, id, at, terminates))
  }

  lemma TallyNext(done: set<LaneId>, closed: set<LaneId>, unresolved: set<LaneId>, lanes: map<LaneId, Lane>,
                  at: LaneId -> real, terminates: LaneId -> bool, id: LaneId)
    requires Tallied(done, closed, unresolved, lanes, at, terminates)
    ensures if ClosesInTime(lanes, id, at, terminates)
            then Tallied(done + {id}, closed + {id}, unresolved - {id}, lanes, at, terminates)
            else Tallied(done + {id}, closed - {id}, unresolved + {id}, lanes, at, terminates)
    ensures id !in done ==> id !in closed && id !in unresolved && closed - {id} == closed && unresolved - {id} == unresolved
  {
  }

  /** The lane's processes could be terminated, and it had not expired when its turn came. */
  ghost predicate ClosesInTime(lanes: map<LaneId, Lane>, id: LaneId, at: LaneId -> real, terminates: LaneId -> bool) {
    terminates(id) && id in lanes && at(id) < lanes[id].expiresAt
  }

  /** Two disjoint parts of a whole. */
  ghost predicate Split(whole: set<LaneId>, a: set<LaneId>, b: set<LaneId>) {
    (forall id :: id in whole <==> id in a || id in b) && forall id :: !(id in a && id in b)
  }

  ghost function Terminated(ids: set<LaneId>, terminates: LaneId -> bool): set<LaneId> {
    set id | id in ids && terminates(id)
  }

  lemma TerminatedNext(lanes: map<LaneId, Lane>, done: set<LaneId>, id: LaneId, terminates: LaneId -> bool)
    requires id in lanes && id !in done
    ensures id in lanes - Terminated(done, terminates) && (lanes - Terminated(done, terminates))[id] == lanes[id]
    ensures lanes - Terminated(done + {id}, terminates) ==
            if terminates(id) then (lanes - Terminated(done, terminates)) - {id} else lanes - Terminated(done, terminates)
  {
    assert Terminated(done + {id}, terminates) == if terminates(id) then Terminated(done, terminates) + {id} else Terminated(done, terminates);
  }

  /** One lane of the loop: without its processes it is closed, otherwise it stays. */
  method CloseTurn(reg: Registry, id: LaneId, now: real, terminated: bool) returns (ok: bool)
    requires reg.Valid() && id in reg.table.lanes
    modifies reg`table
    ensures reg.Valid() && reg.table.lanes == if terminated then old(reg.table.lanes) - {id} else old(reg.table.lanes)
    ensures ok <==> terminated && now < old(reg.table.lanes)[id].expiresAt
  {
    ok := false;
    if terminated {
      ok := CloseOne(reg, id, now);
    }
  }

  /** Closing a lane with its own fence always removes it: a lane that has expired is dropped
      by the lookup. */
  method CloseOne(reg: Registry, id: LaneId, now: real) returns (ok: bool)
    requires reg.Valid() && id in reg.table.lanes
    modifies reg`table
    ensures reg.Valid() && reg.table.lanes == old(reg.table.lanes) - {id}
    ensures ok <==> now < old(reg.table.lanes)[id].expiresAt
  {
    var r := reg.Close(id, reg.table.lanes[id].fence, now);
    ok := r.Ok?;
  }
}
