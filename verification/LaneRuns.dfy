/** Whole runs of the lane registry: opens, renewals, closes, authorizations, reaping, clock
    movement and restarts, in any order and number.

    A restart loses the lane table and the in-memory fence mark and may restart the
    monotonic clock; the fence counter in the store survives. */
module LaneRuns {

  import opened Outcomes
  import opened Resources
  import opened LaneRegistry

  /** `durableFences` says whether the registry was given the store's allocator. */
  datatype Setup = Setup(limits: Limits, durableFences: bool)

  datatype World = World(table: LaneTable, counter: nat, now: real)

  datatype Event =
    | Tick(elapsed: real)
    | Open(req: OpenRequest, ioOk: bool)
    | Renew(id: LaneId, fence: int, ttl: real)
    | Close(id: LaneId, fence: int)
    | Authorize(id: LaneId, fence: int, access: Access)
    | Reap
    | Restart(clock: real)

  /** Within one incarnation the clock does not go back. */
  predicate Legal(e: Event) {
    e.Tick? ==> e.elapsed >= 0.0
  }

  function Source(cfg: Setup, w: World, ioOk: bool): FenceSource {
    if !cfg.durableFences then Internal else if ioOk then Allocated(w.counter + 1) else Failing
  }

  function Apply(cfg: Setup, w: World, e: Event): World {
    match e
    case Tick(elapsed) => w.(now := w.now + elapsed)
    case Open(req, ioOk) =>
      w.(table := Opened(cfg.limits, w.table, req, Source(cfg, w, ioOk), w.now).0,
         counter := if cfg.durableFences && ioOk && TakesFence(cfg.limits, w.table, req, w.now)
                    then w.counter + 1 else w.counter)
    case Renew(id, fence, ttl) => w.(table := Renewed(w.table, id, fence, ttl, w.now).0)
    case Close(id, fence) => w.(table := Closed(w.table, id, fence, w.now).0)
    case Authorize(id, fence, access) => w.(table := Authorized(w.table, id, fence, access, w.now, cfg.limits.fold).0)
    case Reap => w.(table := w.table.(lanes := Reaped(w.table.lanes, w.now)))
    case Restart(clock) => World(LaneTable(map[], 0), w.counter, clock)
  }

  function Exec(cfg: Setup, w: World, events: seq<Event>): World
    decreases |events|
  {
    if events == [] then w else Exec(cfg, Apply(cfg, w, events[0]), events[1..])
  }

  /** The largest fence handed out so far, as far as the next open can tell. */
  function Issued(cfg: Setup, w: World): int {
    if cfg.durableFences then w.counter else w.table.lastFence
  }

  /** The registry's mark never runs ahead of the fences handed out. */
  predicate Marked(cfg: Setup, w: World) {
    0 <= w.table.lastFence <= Issued(cfg, w)
  }

  ghost predicate Inv(cfg: Setup, w: World) {
    Consistent(cfg.limits, w.table) && Marked(cfg, w)
  }

  ghost predicate Initial(cfg: Setup, w: World) {
    w.table == LaneTable(map[], 0) && cfg.limits.maxLanes >= 1
  }

  lemma StepKeepsMarked(cfg: Setup, w: World, e: Event)
    requires Marked(cfg, w)
    ensures Marked(cfg, Apply(cfg, w, e))
    ensures cfg.durableFences || !e.Restart? ==> Issued(cfg, w) <= Issued(cfg, Apply(cfg, w, e))
  {
  }

  lemma StepKeepsConsistent(cfg: Setup, w: World, e: Event)
    requires Consistent(cfg.limits, w.table)
    ensures Consistent(cfg.limits, Apply(cfg, w, e).table)
  {
    match e
    case Tick(_) =>
    case Open(req, ioOk) => OpenKeepsConsistent(cfg.limits, w.table, req, Source(cfg, w, ioOk), w.now);
    case Renew(id, fence, ttl) => RenewKeepsConsistent(cfg.limits, w.table, id, fence, ttl, w.now);
    case Close(id, fence) => CloseKeepsConsistent(cfg.limits, w.table, id, fence, w.now);
    case Authorize(id, fence, _) => RequireKeepsConsistent(cfg.limits, w.table, id, fence, w.now);
    case Reap => ReapKeepsConsistent(cfg.limits, w.table, w.now);
    case Restart(_) =>
  }

  lemma {:induction false} RunKeepsInv(cfg: Setup, w: World, events: seq<Event>)
    requires Inv(cfg, w)
    ensures Inv(cfg, Exec(cfg, w, events))
    decreases |events|
  {
    if events != [] {
      StepKeepsMarked(cfg, w, events[0]);
      StepKeepsConsistent(cfg, w, events[0]);
      RunKeepsInv(cfg, Apply(cfg, w, events[0]), events[1..]);
    }
  }

  /** Exclusion in every reachable state: whatever happened before, two different lanes that
      are authorized at one instant on overlapping resources only read. */
  lemma ReachableExclusion(cfg: Setup, w0: World, events: seq<Event>,
                           idA: LaneId, fenceA: int, capA: string, keyA: string, modeA: ClaimMode,
                           idB: LaneId, fenceB: int, capB: string, keyB: string, modeB: ClaimMode)
    requires Initial(cfg, w0) && idA != idB
    requires ':' in keyA && ':' in keyB && Overlap(keyA, keyB, cfg.limits.fold)
    ensures var w := Exec(cfg, w0, events);
            && Authorized(w.table, idA, fenceA, Access(capA, Some((keyA, modeA))), w.now, cfg.limits.fold).1.Ok?
            && Authorized(w.table, idB, fenceB, Access(capB, Some((keyB, modeB))), w.now, cfg.limits.fold).1.Ok?
            ==> modeA == Read && modeB == Read
  {
    var w := Exec(cfg, w0, events);
    RunKeepsInv(cfg, w0, events);
    if && Authorized(w.table, idA, fenceA, Access(capA, Some((keyA, modeA))), w.now, cfg.limits.fold).1.Ok?
       && Authorized(w.table, idB, fenceB, Access(capB, Some((keyB, modeB))), w.now, cfg.limits.fold).1.Ok? {
      AuthorizedOverlapsAreReads(cfg.limits, w.table, w.now, idA, fenceA, capA, keyA, modeA,
                                 idB, fenceB, capB, keyB, modeB);
    }
  }

  /** A pair whose fence was handed out and that names no live lane. */
  predicate Dead(cfg: Setup, w: World, id: LaneId, fence: int) {
    fence <= Issued(cfg, w) && !Live(w.table, id, fence, w.now)
  }

  /** Runs over which a handed-out fence is never handed out again: every run with the
      durable counter, and every run within one incarnation without it. */
  predicate Remembers(cfg: Setup, events: seq<Event>) {
    cfg.durableFences || forall e <- events :: !e.Restart?
  }

  /** A lane as its request described it. */
  ghost predicate OpenedBy(lane: Lane, e: Event) {
    e.Open? && lane.laneId == e.req.laneId && lane.capabilities == e.req.capabilities && lane.claims == e.req.claims
  }

  lemma StepKeepsOrigin(cfg: Setup, w: World, e: Event, id: LaneId)
    requires id in Apply(cfg, w, e).table.lanes
    ensures var lane := Apply(cfg, w, e).table.lanes[id];
            || (OpenedBy(lane, e) && id == lane.laneId && lane.capabilities <= cfg.limits.ceiling)
            || (id in w.table.lanes && lane == w.table.lanes[id].(expiresAt := lane.expiresAt))
  {
  }

  /** Where the lanes of a run come from: they were there, or an open of the run made them. */
  lemma {:induction false} LaneOrigin(cfg: Setup, w: World, events: seq<Event>, id: LaneId) returns (k: nat)
    requires id in Exec(cfg, w, events).table.lanes
    ensures var lane := Exec(cfg, w, events).table.lanes[id];
            || (k < |events| && OpenedBy(lane, events[k]) && id == lane.laneId && lane.capabilities <= cfg.limits.ceiling)
            || (id in w.table.lanes && lane == w.table.lanes[id].(expiresAt := lane.expiresAt))
    decreases |events|
  {
    k := 0;
    if events != [] {
      var w1 := Apply(cfg, w, events[0]);
      k := LaneOrigin(cfg, w1, events[1..], id);
      var lane := Exec(cfg, w, events).table.lanes[id];
      if k < |events[1..]| && OpenedBy(lane, events[1..][k]) && id == lane.laneId && lane.capabilities <= cfg.limits.ceiling {
        k := k + 1;
      } else {
        StepKeepsOrigin(cfg, w, events[0], id);
        k := 0;
      }
    }
  }

  /** Over every run: whatever is authorized was asked for. Some open of the run named this lane,
      asked for the capability within the ceiling, and, if a resource is named, claimed it. */
  lemma AuthorizedWasRequested(cfg: Setup, w0: World, events: seq<Event>, id: LaneId, fence: int, access: Access) returns (k: nat)
    requires Initial(cfg, w0)
    requires var w := Exec(cfg, w0, events); Authorized(w.table, id, fence, access, w.now, cfg.limits.fold).1.Ok?
    ensures k < |events| && events[k].Open? && events[k].req.laneId == id
    ensures access.capability in events[k].req.capabilities && access.capability in cfg.limits.ceiling
    ensures access.resource.Some? ==>
              exists c <- events[k].req.claims :: Grants(c, access.resource.value.0, access.resource.value.1, cfg.limits.fold)
  {
    var w := Exec(cfg, w0, events);
    AuthorizedIsExact(w.table, id, fence, access, w.now, cfg.limits.fold);
    k := LaneOrigin(cfg, w0, events, id);
  }

  /** A durable open that nothing stands against adds the lane under the next fence of the store,
      which stays taken after a restart. */
  lemma DurableOpen(cfg: Setup, w: World, req: OpenRequest, clock: real)
    requires cfg.durableFences && Marked(cfg, w)
    requires !Blank(req.laneId) && !Blank(req.taskId) && req.ttl > 0.0 && req.capabilities <= cfg.limits.ceiling
    requires Admissible(cfg.limits, Unexpired(w.table.lanes, w.now), req)
    ensures var w' := Apply(cfg, w, Open(req, true));
            && req.laneId in w'.table.lanes && w'.table.lanes[req.laneId].fence == w.counter + 1 == w'.counter
            && Apply(cfg, w', Restart(clock)).counter == w'.counter
  {
    AdmissibleIsUnblocked(cfg.limits, w.table.lanes, req, w.now);
  }


  lemma StepKeepsDead(cfg: Setup, w: World, e: Event, id: LaneId, fence: int)
    requires Marked(cfg, w) && Legal(e) && Dead(cfg, w, id, fence) && (cfg.durableFences || !e.Restart?)
    ensures Dead(cfg, Apply(cfg, w, e), id, fence)
  {
  }

  lemma {:induction false} DeadPairsStayDead(cfg: Setup, w: World, events: seq<Event>, id: LaneId, fence: int)
    requires Marked(cfg, w) && Dead(cfg, w, id, fence)
    requires (forall e <- events :: Legal(e)) && Remembers(cfg, events)
    ensures Dead(cfg, Exec(cfg, w, events), id, fence)
    decreases |events|
  {
    if events != [] {
      StepKeepsDead(cfg, w, events[0], id, fence);
      StepKeepsMarked(cfg, w, events[0]);
      DeadPairsStayDead(cfg, Apply(cfg, w, events[0]), events[1..], id, fence);
    }
  }

  /** Fencing over whole runs. A pair that is live at some point and later is not (closed, reaped,
      expired, or lost in a restart) never authorizes, renews or closes again, even if its lane
      id is opened again. */
  lemma EndedPairsNeverActAgain(cfg: Setup, w0: World, first: seq<Event>, second: seq<Event>, third: seq<Event>,
                                id: LaneId, fence: int, access: Access, ttl: real)
    requires Initial(cfg, w0)
    requires forall e <- second + third :: Legal(e)
    requires Remembers(cfg, second + third)
    requires var w := Exec(cfg, w0, first); Live(w.table, id, fence, w.now)
    requires var w := Exec(cfg, Exec(cfg, w0, first), second); !Live(w.table, id, fence, w.now)
    ensures var w := Exec(cfg, Exec(cfg, Exec(cfg, w0, first), second), third);
            && Authorized(w.table, id, fence, access, w.now, cfg.limits.fold).1.Err?
            && Renewed(w.table, id, fence, ttl, w.now).1.Err?
            && Closed(w.table, id, fence, w.now).1.Err?
  {
    var w1 := Exec(cfg, w0, first);
    RunKeepsInv(cfg, w0, first);
    assert WellFormed(cfg.limits, w1.table, id);
    IssuedGrows(cfg, w1, second);
    RunKeepsInv(cfg, w1, second);
    var w2 := Exec(cfg, w1, second);
    DeadPairsStayDead(cfg, w2, third, id, fence);
    var w3 := Exec(cfg, w2, third);
    OnlyLivePairsAct(w3.table, id, fence, access, ttl, w3.now, cfg.limits.fold);
  }

  lemma {:induction false} IssuedGrows(cfg: Setup, w: World, events: seq<Event>)
    requires Marked(cfg, w) && Remembers(cfg, events)
    ensures Issued(cfg, w) <= Issued(cfg, Exec(cfg, w, events))
    decreases |events|
  {
    if events != [] {
      StepKeepsMarked(cfg, w, events[0]);
      IssuedGrows(cfg, Apply(cfg, w, events[0]), events[1..]);
    }
  }

  lemma ExecTwo(cfg: Setup, w: World, e1: Event, e2: Event)
    ensures Exec(cfg, w, [e1, e2]) == Apply(cfg, Apply(cfg, w, e1), e2)
  {
    var w1 := Apply(cfg, w, e1);
    assert [e1, e2][1..] == [e2];
    assert Exec(cfg, w1, [e2]) == Exec(cfg, Apply(cfg, w1, e2), []);
  }

  /** The first lane of an incarnation without the store gets fence 1. */
  lemma FirstOpen(limits: Limits, w: World, req: OpenRequest)
    requires limits.maxLanes >= 1 && w.table == LaneTable(map[], 0) && Refusal(limits, req).None?
    ensures Apply(Setup(limits, false), w, Open(req, true)).table ==
            LaneTable(map[req.laneId := Lane(req.laneId, req.taskId, req.capabilities, req.claims, 1, w.now + req.ttl)], 1)
  {
    assert Reaped(w.table.lanes, w.now) == map[];
  }

  /** Without the durable counter a restart does revive a closed pair, so `Remembers` cannot
      be dropped: the first lane after the restart is given fence 1 again. */
  lemma ForgetfulRestartRevives(limits: Limits, w0: World)
    requires limits.maxLanes >= 1 && Initial(Setup(limits, false), w0)
    ensures var cfg := Setup(limits, false);
            var req := OpenRequest("a", "t", {}, {}, 1.0);
            var closed := Exec(cfg, w0, [Open(req, true), Close("a", 1)]);
            var again := Exec(cfg, closed, [Restart(0.0), Open(req, true)]);
            Dead(cfg, closed, "a", 1) && Live(again.table, "a", 1, again.now)
  {
    var cfg := Setup(limits, false);
    var req := OpenRequest("a", "t", {}, {}, 1.0);
    assert 'a' in "a" && 't' in "t";
    var w1 := Apply(cfg, w0, Open(req, true));
    FirstOpen(limits, w0, req);
    var w2 := Apply(cfg, w1, Close("a", 1));
    ExecTwo(cfg, w0, Open(req, true), Close("a", 1));
    var w3 := Apply(cfg, w2, Restart(0.0));
    FirstOpen(limits, w3, req);
    ExecTwo(cfg, w2, Restart(0.0), Open(req, true));
  }

  /** The registry object takes the steps of this machine: each call moves table and fence counter
      as the event does. `counter` is the store's, if the registry has one. */
  method Perform(cfg: Setup, reg: Registry, e: Event, counter: nat, now: real) returns (later: real)
    requires reg.Valid() && reg.cfg == cfg.limits && !e.Restart? && (cfg.durableFences <==> reg.allocator != null)
    requires reg.allocator != null ==> counter == reg.allocator.durable.fence
    modifies reg`table, reg.allocator
    ensures reg.Valid()
    ensures World(reg.table, if reg.allocator == null then counter else reg.allocator.durable.fence, later)
         == Apply(cfg, World(old(reg.table), counter, now), e)
  {
    later := now;
    match e {
      case Tick(elapsed) => later := now + elapsed;
      case Open(req, ioOk) => var _ := reg.OpenLane(req, now, ioOk);
      case Renew(id, fence, ttl) => var _ := reg.Renew(id, fence, ttl, now);
      case Close(id, fence) => var _ := reg.Close(id, fence, now);
      case Authorize(id, fence, access) => var _ := reg.Authorize(id, fence, access, now);
      case Reap => var _ := reg.Snapshot(now);
    }
  }
}
