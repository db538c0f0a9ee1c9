/** The lane registry: capability narrowing, claim exclusion, expiry and fencing.

    `LaneTable` is the registry's value and the functions on it are the registry calls;
    the class performs them in place. Times are seconds, as reals. */
module LaneRegistry {

  import opened Collections
  import opened Outcomes
  import opened Resources
  import opened StateStore
  import opened Ordering

  datatype Lane = Lane(laneId: LaneId, taskId: string, capabilities: set<string>,
                       claims: set<ResourceClaim>, fence: int, expiresAt: real)

  datatype LaneError = InvalidArgument | CapabilityDenied | CollisionBlocked | LaneNotFound
                     | StaleFence | LaneExpired | AllocatorStalled | AllocatorFailed

  datatype LaneTable = LaneTable(lanes: map<LaneId, Lane>, lastFence: int)

  /** What the registry is configured with. */
  datatype Limits = Limits(ceiling: set<string>, maxLanes: nat, fold: Fold)

  datatype OpenRequest = OpenRequest(laneId: LaneId, taskId: string, capabilities: set<string>,
                                     claims: set<ResourceClaim>, ttl: real)

  /** Where the next fence comes from: the registry's own counter, the value an allocator
      returns, or an allocator that raises. */
  datatype FenceSource = Internal | Allocated(value: int) | Failing

  /** Characters removed by Python's `str.strip`. */
  predicate IsSpace(c: char) {
    || '\t' <= c <= '\r' || '\U{1C}' <= c <= ' ' || c == '\U{85}' || c == '\U{A0}' || c == '\U{1680}'
    || '\U{2000}' <= c <= '\U{200A}' || c == '\U{2028}' || c == '\U{2029}' || c == '\U{202F}'
    || c == '\U{205F}' || c == '\U{3000}'
  }

  predicate Blank(s: string) {
    forall c <- s :: IsSpace(c)
  }

  function Reaped(lanes: map<LaneId, Lane>, now: real): map<LaneId, Lane> {
    map id | id in lanes && now < lanes[id].expiresAt :: lanes[id]
  }

  /** The checks before the registry lock is taken. */
  function Refusal(cfg: Limits, req: OpenRequest): Option<LaneError> {
    if Blank(req.laneId) || Blank(req.taskId) then Some(InvalidArgument)
    else if req.ttl <= 0.0 then Some(InvalidArgument)
    else if !(req.capabilities <= cfg.ceiling) then Some(CapabilityDenied)
    else None
  }

  /** The checks under the lock, on the reaped table. */
  predicate Blocked(cfg: Limits, lanes: map<LaneId, Lane>, req: OpenRequest) {
    || req.laneId in lanes
    || |lanes| >= cfg.maxLanes
    || exists id <- lanes :: !Compatible(req.claims, lanes[id].claims, cfg.fold)
  }

  /** An open that gets as far as asking for a fence. */
  predicate TakesFence(cfg: Limits, t: LaneTable, req: OpenRequest, now: real) {
    Refusal(cfg, req).None? && !Blocked(cfg, Reaped(t.lanes, now), req)
  }

  function Opened(cfg: Limits, t: LaneTable, req: OpenRequest, source: FenceSource, now: real)
    : (LaneTable, Result<Lane, LaneError>)
  {
    var refusal := Refusal(cfg, req);
    if refusal.Some? then (t, Err(refusal.value)) else
    var reaped := t.(lanes := Reaped(t.lanes, now));
    if Blocked(cfg, reaped.lanes, req) then (reaped, Err(CollisionBlocked))
    else if source.Failing? then (reaped, Err(AllocatorFailed))
    else if source.Allocated? && source.value <= t.lastFence then (reaped, Err(AllocatorStalled))
    else
      var fence := if source.Internal? then t.lastFence + 1 else source.value;
      var lane := Lane(req.laneId, req.taskId, req.capabilities, req.claims, fence, now + req.ttl);
      (LaneTable(reaped.lanes[req.laneId := lane], fence), Ok(lane))
  }

  /** The lookup every lane operation starts with; an expired lane is dropped on the way. */
  function Required(t: LaneTable, id: LaneId, fence: int, now: real): (LaneTable, Result<Lane, LaneError>) {
    if id !in t.lanes then (t, Err(LaneNotFound))
    else if t.lanes[id].fence != fence then (t, Err(StaleFence))
    else if now >= t.lanes[id].expiresAt then (t.(lanes := t.lanes - {id}), Err(LaneExpired))
    else (t, Ok(t.lanes[id]))
  }

  function Renewed(t: LaneTable, id: LaneId, fence: int, ttl: real, now: real): (LaneTable, Result<Lane, LaneError>) {
    if ttl <= 0.0 then (t, Err(InvalidArgument)) else
    var (found, lane) := Required(t, id, fence, now);
    if lane.Err? then (found, lane) else
    var updated := lane.value.(expiresAt := now + ttl);
    (found.(lanes := found.lanes[id := updated]), Ok(updated))
  }

  function Closed(t: LaneTable, id: LaneId, fence: int, now: real): (LaneTable, Result<Lane, LaneError>) {
    var (found, lane) := Required(t, id, fence, now);
    if lane.Err? then (found, lane) else (found.(lanes := found.lanes - {id}), lane)
  }

  /** An access a lane asks for: a capability and, usually, a resource with a mode. */
  datatype Access = Access(capability: string, resource: Option<(string, ClaimMode)>)

  /** Whether a lane's capabilities and claims allow an access. */
  function Permission(lane: Lane, access: Access, fold: Fold): Result<(), LaneError> {
    if access.capability !in lane.capabilities then Err(CapabilityDenied)
    else if access.resource.None? then Ok(())
    else
      var (key, mode) := access.resource.value;
      if exists c <- lane.claims :: Covers(c, key, mode, fold) == Ok(true) then Ok(())
      else if exists c <- lane.claims :: Covers(c, key, mode, fold).Err? then Err(InvalidArgument)
      else Err(CapabilityDenied)
  }

  function Authorized(t: LaneTable, id: LaneId, fence: int, access: Access, now: real, fold: Fold)
    : (LaneTable, Result<Lane, LaneError>)
  {
    var (found, lane) := Required(t, id, fence, now);
    if lane.Err? then (found, lane) else
    var p := Permission(lane.value, access, fold);
    (found, if p.Ok? then lane else Err(p.error))
  }

  /** A lane holder can act: the pair (id, fence) names a lane that has not expired. */
  predicate Live(t: LaneTable, id: LaneId, fence: int, now: real) {
    id in t.lanes && t.lanes[id].fence == fence && now < t.lanes[id].expiresAt
  }

  /** A claim gives access to a resource: same namespace, at or above its path, and a write
      claim for a write. */
  ghost predicate Grants(claim: ResourceClaim, key: string, mode: ClaimMode, fold: Fold) {
    && ':' in key && Namespace(claim.key) == Namespace(key)
    && (PathOf(key, fold) == PathOf(claim.key, fold) || PathOf(claim.key, fold) + "/" <= PathOf(key, fold))
    && (mode == Write ==> claim.mode == Write)
  }

  /** The lane was given the capability and, if a resource is named, a claim to it. */
  ghost predicate Entitled(lane: Lane, access: Access, fold: Fold) {
    && access.capability in lane.capabilities
    && (access.resource.Some? ==> exists c <- lane.claims :: Grants(c, access.resource.value.0, access.resource.value.1, fold))
  }

  /** Authorization succeeds exactly for a live pair whose lane is entitled to the access. */
  lemma AuthorizedIsExact(t: LaneTable, id: LaneId, fence: int, access: Access, now: real, fold: Fold)
    ensures Authorized(t, id, fence, access, now, fold).1.Ok? <==>
            && id in t.lanes && t.lanes[id].fence == fence && now < t.lanes[id].expiresAt
            && Entitled(t.lanes[id], access, fold)
    ensures Authorized(t, id, fence, access, now, fold).1 == Err(InvalidArgument) <==>
            && Live(t, id, fence, now) && access.capability in t.lanes[id].capabilities
            && access.resource.Some? && ':' !in access.resource.value.0
            && exists c <- t.lanes[id].claims :: access.resource.value.1 == Write ==> c.mode == Write
  {
    if Live(t, id, fence, now) && access.resource.Some? {
      var (key, mode) := access.resource.value;
      forall c | c in t.lanes[id].claims
        ensures Covers(c, key, mode, fold) == Ok(true) <==> Grants(c, key, mode, fold)
        ensures Covers(c, key, mode, fold).Err? <==> ':' !in key && (mode == Write ==> c.mode == Write)
      {
      }
    }
  }

  /** Operations succeed only for live pairs, whatever else they check. */
  lemma OnlyLivePairsAct(t: LaneTable, id: LaneId, fence: int, access: Access, ttl: real, now: real, fold: Fold)
    ensures Authorized(t, id, fence, access, now, fold).1.Ok? ==> Live(t, id, fence, now)
    ensures Renewed(t, id, fence, ttl, now).1.Ok? <==> Live(t, id, fence, now) && ttl > 0.0
    ensures Closed(t, id, fence, now).1.Ok? <==> Live(t, id, fence, now)
  {
  }

  /** Two lanes that may coexist: different fences, no conflicting claims. */
  ghost predicate Apart(a: Lane, b: Lane, fold: Fold) {
    a.fence != b.fence && Compatible(a.claims, b.claims, fold)
  }

  ghost predicate WellFormed(cfg: Limits, t: LaneTable, id: LaneId)
    requires id in t.lanes
  {
    t.lanes[id].laneId == id && t.lanes[id].capabilities <= cfg.ceiling && t.lanes[id].fence <= t.lastFence
  }

  /** The registry's structural invariant. */
  ghost predicate Consistent(cfg: Limits, t: LaneTable) {
    && |t.lanes| <= cfg.maxLanes
    && (forall id {:trigger WellFormed(cfg, t, id)} :: id in t.lanes ==> WellFormed(cfg, t, id))
    && (forall a, b {:trigger Apart(t.lanes[a], t.lanes[b], cfg.fold)} ::
          a in t.lanes && b in t.lanes && a != b ==> Apart(t.lanes[a], t.lanes[b], cfg.fold))
  }

  lemma ApartIsSymmetric(a: Lane, b: Lane, fold: Fold)
    requires Apart(a, b, fold)
    ensures Apart(b, a, fold)
  {
    forall x: ResourceClaim, y: ResourceClaim | x in b.claims && y in a.claims
      ensures !Conflict(x, y, fold)
    {
      assert !Conflict(y, x, fold);
    }
  }

  /** Dropping lanes keeps the invariant. */
  lemma SubTableIsConsistent(cfg: Limits, t: LaneTable, lanes: map<LaneId, Lane>)
    requires Consistent(cfg, t)
    requires forall id <- lanes :: id in t.lanes && lanes[id] == t.lanes[id]
    ensures Consistent(cfg, t.(lanes := lanes))
  {
    assert lanes.Keys <= t.lanes.Keys;
    SubsetSize(lanes.Keys, t.lanes.Keys);
    assert |lanes| == |lanes.Keys| && |t.lanes| == |t.lanes.Keys|;
    var t' := t.(lanes := lanes);
    forall id | id in lanes
      ensures WellFormed(cfg, t', id)
    {
      assert WellFormed(cfg, t, id);
    }
  }

  /** Adding a lane that is apart from all others, under a new largest fence, keeps it. */
  lemma InsertIsConsistent(cfg: Limits, t: LaneTable, lane: Lane)
    requires Consistent(cfg, t) && lane.laneId !in t.lanes && |t.lanes| < cfg.maxLanes
    requires lane.capabilities <= cfg.ceiling && lane.fence > t.lastFence
    requires forall id <- t.lanes :: Compatible(lane.claims, t.lanes[id].claims, cfg.fold)
    ensures Consistent(cfg, LaneTable(t.lanes[lane.laneId := lane], lane.fence))
  {
    var t' := LaneTable(t.lanes[lane.laneId := lane], lane.fence);
    assert t'.lanes.Keys == t.lanes.Keys + {lane.laneId};
    assert |t'.lanes| == |t'.lanes.Keys|;
    forall id | id in t'.lanes
      ensures WellFormed(cfg, t', id)
    {
      assert id in t.lanes ==> WellFormed(cfg, t, id);
    }
    forall id | id in t.lanes
      ensures Apart(lane, t.lanes[id], cfg.fold) && Apart(t.lanes[id], lane, cfg.fold)
    {
      assert WellFormed(cfg, t, id);
      ApartIsSymmetric(lane, t.lanes[id], cfg.fold);
    }
  }

  /** Moving an expiry keeps it. */
  lemma ExtendIsConsistent(cfg: Limits, t: LaneTable, id: LaneId, expiresAt: real)
    requires Consistent(cfg, t) && id in t.lanes
    ensures Consistent(cfg, t.(lanes := t.lanes[id := t.lanes[id].(expiresAt := expiresAt)]))
  {
    var t' := t.(lanes := t.lanes[id := t.lanes[id].(expiresAt := expiresAt)]);
    assert t'.lanes.Keys == t.lanes.Keys;
    assert |t'.lanes| == |t'.lanes.Keys|;
    forall x | x in t'.lanes
      ensures WellFormed(cfg, t', x)
    {
      assert WellFormed(cfg, t, x);
    }
    forall a, b | a in t'.lanes && b in t'.lanes && a != b
      ensures Apart(t'.lanes[a], t'.lanes[b], cfg.fold)
    {
      assert Apart(t.lanes[a], t.lanes[b], cfg.fold);
    }
  }

  lemma OpenKeepsConsistent(cfg: Limits, t: LaneTable, req: OpenRequest, source: FenceSource, now: real)
    requires Consistent(cfg, t)
    ensures Consistent(cfg, Opened(cfg, t, req, source, now).0)
  {
    var reaped := t.(lanes := Reaped(t.lanes, now));
    SubTableIsConsistent(cfg, t, reaped.lanes);
    var r := Opened(cfg, t, req, source, now).1;
    if r.Ok? {
      InsertIsConsistent(cfg, reaped, r.value);
    }
  }

  lemma ReapKeepsConsistent(cfg: Limits, t: LaneTable, now: real)
    requires Consistent(cfg, t)
    ensures Consistent(cfg, t.(lanes := Reaped(t.lanes, now)))
  {
    SubTableIsConsistent(cfg, t, Reaped(t.lanes, now));
  }

  lemma RequireKeepsConsistent(cfg: Limits, t: LaneTable, id: LaneId, fence: int, now: real)
    requires Consistent(cfg, t)
    ensures Consistent(cfg, Required(t, id, fence, now).0)
  {
    SubTableIsConsistent(cfg, t, t.lanes - {id});
  }

  lemma RenewKeepsConsistent(cfg: Limits, t: LaneTable, id: LaneId, fence: int, ttl: real, now: real)
    requires Consistent(cfg, t)
    ensures Consistent(cfg, Renewed(t, id, fence, ttl, now).0)
  {
    RequireKeepsConsistent(cfg, t, id, fence, now);
    if Live(t, id, fence, now) {
      ExtendIsConsistent(cfg, t, id, now + ttl);
    }
  }

  lemma CloseKeepsConsistent(cfg: Limits, t: LaneTable, id: LaneId, fence: int, now: real)
    requires Consistent(cfg, t)
    ensures Consistent(cfg, Closed(t, id, fence, now).0)
  {
    SubTableIsConsistent(cfg, t, t.lanes - {id});
  }

  /** Exclusion at authorization: if two different lanes are both authorized at one instant
      for overlapping resources, neither access is a write. */
  lemma AuthorizedOverlapsAreReads(cfg: Limits, t: LaneTable, now: real,
                                   idA: LaneId, fenceA: int, capA: string, keyA: string, modeA: ClaimMode,
                                   idB: LaneId, fenceB: int, capB: string, keyB: string, modeB: ClaimMode)
    requires Consistent(cfg, t) && idA != idB
    requires ':' in keyA && ':' in keyB && Overlap(keyA, keyB, cfg.fold)
    requires Authorized(t, idA, fenceA, Access(capA, Some((keyA, modeA))), now, cfg.fold).1.Ok?
    requires Authorized(t, idB, fenceB, Access(capB, Some((keyB, modeB))), now, cfg.fold).1.Ok?
    ensures modeA == Read && modeB == Read
  {
    var a :| a in t.lanes[idA].claims && Covers(a, keyA, modeA, cfg.fold) == Ok(true);
    var b :| b in t.lanes[idB].claims && Covers(b, keyB, modeB, cfg.fold) == Ok(true);
    CoverageLiftsOverlap(a, b, keyA, keyB, modeA, modeB, cfg.fold);
    assert Apart(t.lanes[idA], t.lanes[idB], cfg.fold);
    assert !Conflict(a, b, cfg.fold);
  }

  /** The lanes that have not expired. */
  ghost function Unexpired(lanes: map<LaneId, Lane>, now: real): (live: map<LaneId, Lane>)
    ensures forall id :: id in live <==> id in lanes && now < lanes[id].expiresAt
    ensures forall id <- live :: live[id] == lanes[id]
  {
    map id | id in lanes && now < lanes[id].expiresAt :: lanes[id]
  }

  /** A request that fits beside the given lanes: its id is free, there is room, and wherever
      claims overlap both sides read. */
  ghost predicate Admissible(cfg: Limits, lanes: map<LaneId, Lane>, req: OpenRequest) {
    && req.laneId !in lanes && |lanes| < cfg.maxLanes
    && forall id, a, b :: id in lanes && a in req.claims && b in lanes[id].claims && Overlap(a.key, b.key, cfg.fold) ==>
         a.mode == Read && b.mode == Read
  }

  lemma AdmissibleIsUnblocked(cfg: Limits, lanes: map<LaneId, Lane>, req: OpenRequest, now: real)
    ensures Reaped(lanes, now) == Unexpired(lanes, now)
    ensures Admissible(cfg, Unexpired(lanes, now), req) <==> !Blocked(cfg, Reaped(lanes, now), req)
  {
    var live := Unexpired(lanes, now);
    assert Reaped(lanes, now) == live;
    if !Blocked(cfg, live, req) {
      forall id, a, b | id in live && a in req.claims && b in live[id].claims && Overlap(a.key, b.key, cfg.fold)
        ensures a.mode == Read && b.mode == Read
      {
        assert Compatible(req.claims, live[id].claims, cfg.fold);
        assert !Conflict(a, b, cfg.fold);
      }
    }
  }

  class Registry {
    const cfg: Limits
    const allocator: AgentStateStore?
    var table: LaneTable

    ghost predicate Valid()
      reads this, allocator
    {
      Consistent(cfg, table) && (allocator != null ==> allocator.Valid())
    }

    constructor (cfg: Limits, allocator: AgentStateStore?)
      requires 1 <= cfg.maxLanes
      requires allocator != null ==> allocator.Valid()
      ensures Valid() && this.cfg == cfg && this.allocator == allocator && table == LaneTable(map[], 0)
    {
      this.cfg := cfg;
      this.allocator := allocator;
      table := LaneTable(map[], 0);
    }

    /** Opening succeeds exactly for a well formed request within the ceiling that finds its id
        free, room, and no conflicting claim among the unexpired lanes. It asks
        the allocator for a fence only after every check has passed, so a refused open consumes no
        durable fence. */
    method OpenLane(req: OpenRequest, now: real, ioOk: bool) returns (r: Result<Lane, LaneError>)
      requires Valid()
      modifies this`table, allocator
      ensures Valid()
      ensures r.Ok? <==>
                && !Blank(req.laneId) && !Blank(req.taskId) && req.ttl > 0.0 && req.capabilities <= cfg.ceiling
                && Admissible(cfg, Unexpired(old(table.lanes), now), req)
                && (allocator != null ==> ioOk && old(allocator.durable.fence) + 1 > old(table.lastFence))
      ensures r.Ok? ==>
                && r.value == Lane(req.laneId, req.taskId, req.capabilities, req.claims, table.lastFence, now + req.ttl)
                && table.lastFence == (if allocator == null then old(table.lastFence) else old(allocator.durable.fence)) + 1
                && table.lanes == Unexpired(old(table.lanes), now)[req.laneId := r.value]
      ensures r.Err? ==>
                && table.lastFence == old(table.lastFence)
                && (table.lanes == old(table.lanes) || table.lanes == Unexpired(old(table.lanes), now))
      ensures r == Err(InvalidArgument) <==> Blank(req.laneId) || Blank(req.taskId) || req.ttl <= 0.0
      ensures r == Err(CapabilityDenied) <==>
                !Blank(req.laneId) && !Blank(req.taskId) && req.ttl > 0.0 && !(req.capabilities <= cfg.ceiling)
      ensures (table, r) == Opened(cfg, old(table), req, old(Source(ioOk)), now)
      ensures allocator != null ==>
                allocator.durable == if TakesFence(cfg, old(table), req, now) && ioOk
                                     then old(allocator.durable).(fence := old(allocator.durable.fence) + 1)
                                     else old(allocator.durable)
    {
      OpenKeepsConsistent(cfg, table, req, Source(ioOk), now);
      AdmissibleIsUnblocked(cfg, table.lanes, req, now);
      var refusal := Refused(req, now);
      if refusal.Some? {
        r := Err(refusal.value);
      } else {
        var source := TakeFence(ioOk);
        if source.Failing? {
          r := Err(AllocatorFailed);
        } else if source.Allocated? && source.value <= table.lastFence {
          r := Err(AllocatorStalled);
        } else {
          var fence := if source.Internal? then table.lastFence + 1 else source.value;
          var lane := Lane(req.laneId, req.taskId, req.capabilities, req.claims, fence, now + req.ttl);
          table := LaneTable(table.lanes[req.laneId := lane], fence);
          r := Ok(lane);
        }
      }
    }

    /** The fence an open would be given now. */
    ghost function Source(ioOk: bool): FenceSource
      reads this, allocator
    {
      if allocator == null then Internal
      else if ioOk then Allocated(allocator.durable.fence + 1)
      else Failing
    }

    /** Runs the checks; everything past the first group happens on the reaped table. */
    method Refused(req: OpenRequest, now: real) returns (refusal: Option<LaneError>)
      requires Valid()
      modifies this`table
      ensures Valid()
      ensures refusal.None? <==> TakesFence(cfg, old(table), req, now)
      ensures refusal.Some? ==> (table, Err(refusal.value)) == Opened(cfg, old(table), req, Internal, now)
      ensures refusal.None? ==> table == old(table).(lanes := Reaped(old(table.lanes), now))
    {
      refusal := Refusal(cfg, req);
      if refusal.None? {
        ReapKeepsConsistent(cfg, table, now);
        table := table.(lanes := Reaped(table.lanes, now));
        if Blocked(cfg, table.lanes, req) {
          refusal := Some(CollisionBlocked);
        }
      }
    }

    method TakeFence(ioOk: bool) returns (source: FenceSource)
      requires Valid()
      modifies allocator
      ensures Valid() && source == old(Source(ioOk))
      ensures allocator != null ==>
                allocator.durable == if ioOk then old(allocator.durable).(fence := old(allocator.durable.fence) + 1)
                                     else old(allocator.durable)
    {
      if allocator == null {
        source := Internal;
      } else {
        var next := allocator.NextFence(ioOk);
        source := match next case Ok(value) => Allocated(value) case Err(_) => Failing;
      }
    }

    method RequireLane(id: LaneId, fence: int, now: real) returns (r: Result<Lane, LaneError>)
      requires Valid()
      modifies this`table
      ensures Valid() && (table, r) == Required(old(table), id, fence, now)
      ensures r.Ok? <==> id in old(table.lanes) && old(table.lanes)[id].fence == fence && now < old(table.lanes)[id].expiresAt
      ensures r.Ok? ==> table == old(table) && r.value == old(table.lanes)[id]
      ensures r == Err(LaneNotFound) <==> id !in old(table.lanes)
      ensures r == Err(StaleFence) <==> id in old(table.lanes) && old(table.lanes)[id].fence != fence
      ensures r.Err? ==>
                && r.error in {LaneNotFound, StaleFence, LaneExpired}
                && table == if r.error == LaneExpired then old(table).(lanes := old(table.lanes) - {id}) else old(table)
    {
      RequireKeepsConsistent(cfg, table, id, fence, now);
      if id !in table.lanes {
        return Err(LaneNotFound);
      }
      var lane := table.lanes[id];
      if lane.fence != fence {
        return Err(StaleFence);
      }
      if now >= lane.expiresAt {
        table := table.(lanes := table.lanes - {id});
        return Err(LaneExpired);
      }
      r := Ok(lane);
    }

    method Renew(id: LaneId, fence: int, ttl: real, now: real) returns (r: Result<Lane, LaneError>)
      requires Valid()
      modifies this`table
      ensures Valid() && (table, r) == Renewed(old(table), id, fence, ttl, now)
      ensures r.Ok? <==> ttl > 0.0 && id in old(table.lanes) && old(table.lanes)[id].fence == fence && now < old(table.lanes)[id].expiresAt
      ensures r.Ok? ==>
                && r.value == old(table.lanes)[id].(expiresAt := now + ttl)
                && table == old(table).(lanes := old(table.lanes)[id := r.value])
    {
      RenewKeepsConsistent(cfg, table, id, fence, ttl, now);
      if ttl <= 0.0 {
        return Err(InvalidArgument);
      }
      r := RequireLane(id, fence, now);
      if r.Ok? {
        var updated := r.value.(expiresAt := now + ttl);
        table := table.(lanes := table.lanes[id := updated]);
        r := Ok(updated);
      }
    }

    method Close(id: LaneId, fence: int, now: real) returns (r: Result<Lane, LaneError>)
      requires Valid()
      modifies this`table
      ensures Valid() && (table, r) == Closed(old(table), id, fence, now)
      ensures r.Ok? <==> id in old(table.lanes) && old(table.lanes)[id].fence == fence && now < old(table.lanes)[id].expiresAt
      ensures r.Ok? ==> r.value == old(table.lanes)[id] && table == old(table).(lanes := old(table.lanes) - {id})
    {
      CloseKeepsConsistent(cfg, table, id, fence, now);
      r := RequireLane(id, fence, now);
      if r.Ok? {
        table := table.(lanes := table.lanes - {id});
      }
    }

    /** Authorization succeeds exactly for a live pair whose lane has the capability and, if a
        resource is named, a claim to it. */
    method Authorize(id: LaneId, fence: int, access: Access, now: real) returns (r: Result<Lane, LaneError>)
      requires Valid()
      modifies this`table
      ensures Valid() && (table, r) == Authorized(old(table), id, fence, access, now, cfg.fold)
      ensures r.Ok? <==>
                && id in old(table.lanes) && old(table.lanes)[id].fence == fence && now < old(table.lanes)[id].expiresAt
                && Entitled(old(table.lanes)[id], access, cfg.fold)
      ensures r.Ok? ==> r.value == old(table.lanes)[id] && table == old(table)
      ensures Live(old(table), id, fence, now) && access.capability !in old(table.lanes)[id].capabilities ==> r == Err(CapabilityDenied)
    {
      AuthorizedIsExact(table, id, fence, access, now, cfg.fold);
      r := RequireLane(id, fence, now);
      if r.Ok? {
        var p := Permission(r.value, access, cfg.fold);
        if p.Err? {
          r := Err(p.error);
        }
      }
    }

    /** Listing reaps first: the result holds every lane that has not expired and no other, in
        the order of their ids. */
    method Snapshot(now: real) returns (visible: seq<Lane>)
      requires Valid()
      modifies this`table
      ensures Valid() && table == old(table).(lanes := Reaped(old(table.lanes), now))
      ensures table.lanes == Unexpired(old(table.lanes), now)
      ensures forall lane: Lane :: lane in visible <==> lane.laneId in table.lanes && table.lanes[lane.laneId] == lane
      ensures forall i, j :: 0 <= i < j < |visible| ==> LessText(visible[i].laneId, visible[j].laneId)
    {
      ReapKeepsConsistent(cfg, table, now);
      table := table.(lanes := Reaped(table.lanes, now));
      var ids := SortTexts(table.lanes.Keys);
      visible := [];
      for i := 0 to |ids|
        invariant |visible| == i && forall j :: 0 <= j < i ==> visible[j] == table.lanes[ids[j]] && visible[j].laneId == ids[j]
      {
        assert ids[i] in table.lanes && WellFormed(cfg, table, ids[i]);
        visible := visible + [table.lanes[ids[i]]];
      }
      forall lane: Lane | lane.laneId in table.lanes && table.lanes[lane.laneId] == lane
        ensures lane in visible
      {
        var k :| 0 <= k < |ids| && ids[k] == lane.laneId;
        assert visible[k] == lane;
      }
    }
  }
}
