/** The gateway's cache of live paths: dialling, re-probing, expiry, invalidation and shutdown.

    A session is identified by the number of its dial, so `dialled` sessions exist in all;
    `closed` records which were closed. Network behaviour is given per endpoint. */
module GatewayPaths {

  import opened Outcomes
  import PathSelection
  import Ordering

  datatype Session = Session(handle: nat, sessionId: string, expiresAt: int)

  datatype EndpointConfig = EndpointConfig(id: string, mode: string)

  datatype LivePath = LivePath(session: Session, endpoint: EndpointConfig, observedAt: int, rtt: real)

  /** How one configured endpoint answers during one refresh: the data-plane probe of the
      cached session, the dial, and the probe of the new session. */
  datatype Weather = Weather(reprobe: Option<real>, dial: Option<(string, int)>, probe: Option<real>)

  function ModeOf(mode: string): PathSelection.PathMode {
    if mode == "DIRECT_STREAM" then PathSelection.DirectStream
    else if mode == "EDGE_STREAM" then PathSelection.EdgeStream
    else PathSelection.DurableRelay
  }

  /** A live path's sort key, as a path observation. */
  function Key(p: LivePath): PathSelection.Path {
    PathSelection.Path(p.endpoint.id, ModeOf(p.endpoint.mode), true, true, p.observedAt, Some(p.rtt))
  }

  predicate Before(a: LivePath, b: LivePath) {
    PathSelection.Before(Key(a), Key(b))
  }

  /** The order of two paths, in their own terms: the mode decides first, a direct stream before an
      edge stream before anything else; then the round trip; then the endpoint id. */
  lemma OrderIsExact(a: LivePath, b: LivePath)
    ensures Before(a, b) <==>
            || (a.endpoint.mode == "DIRECT_STREAM" && b.endpoint.mode != "DIRECT_STREAM")
            || (a.endpoint.mode == "EDGE_STREAM" && b.endpoint.mode !in {"DIRECT_STREAM", "EDGE_STREAM"})
            || (ModeOf(a.endpoint.mode) == ModeOf(b.endpoint.mode)
                && (a.rtt < b.rtt || (a.rtt == b.rtt && Ordering.LessText(a.endpoint.id, b.endpoint.id))))
    ensures ModeOf(a.endpoint.mode) == ModeOf(b.endpoint.mode) <==>
            || a.endpoint.mode == b.endpoint.mode
            || (a.endpoint.mode !in {"DIRECT_STREAM", "EDGE_STREAM"} && b.endpoint.mode !in {"DIRECT_STREAM", "EDGE_STREAM"})
  {
  }

  predicate Fresh(p: LivePath, now: int, maxAge: int) {
    p.observedAt <= now && now - p.observedAt <= maxAge
  }

  predicate Current(p: LivePath, now: int, maxAge: int) {
    now < p.session.expiresAt && Fresh(p, now, maxAge)
  }

  ghost predicate Sorted(paths: seq<LivePath>) {
    forall i, j :: 0 <= i < j < |paths| ==> Before(paths[i], paths[j])
  }

  /** Sorted insertion among paths of other endpoints. */
  method Insert(paths: seq<LivePath>, p: LivePath) returns (r: seq<LivePath>)
    requires Sorted(paths) && forall q <- paths :: q.endpoint.id != p.endpoint.id
    ensures Sorted(r)
    ensures forall q :: q in r <==> q == p || q in paths
  {
    var k := 0;
    while k < |paths| && Before(paths[k], p)
      invariant 0 <= k <= |paths|
      invariant forall i :: 0 <= i < k ==> Before(paths[i], p)
    {
      k := k + 1;
    }
    r := paths[..k] + [p] + paths[k..];
    forall j | k <= j < |paths|
      ensures Before(p, paths[j])
    {
      PathSelection.BeforeIsTotal(Key(p), Key(paths[k]));
      if k < j {
        PathSelection.BeforeIsTransitive(Key(p), Key(paths[k]), Key(paths[j]));
      }
    }
    InsertedIsOrdered(paths, p, k, (a, b) => Before(a, b));
  }

  lemma InsertedIsOrdered<T>(s: seq<T>, x: T, k: nat, before: (T, T) -> bool)
    requires k <= |s| && forall i, j :: 0 <= i < j < |s| ==> before(s[i], s[j])
    requires (forall i :: 0 <= i < k ==> before(s[i], x)) && (forall j :: k <= j < |s| ==> before(x, s[j]))
    ensures var r := s[..k] + [x] + s[k..];
            (forall i, j :: 0 <= i < j < |r| ==> before(r[i], r[j])) && forall y :: y in r <==> y == x || y in s
  {
    assert s == s[..k] + s[k..];
  }

  /** The cached path of an endpoint agrees with the session counts. */
  ghost predicate Entry(paths: map<string, LivePath>, dialled: nat, closed: set<nat>, id: string)
    requires id in paths
  {
    paths[id].endpoint.id == id && paths[id].session.handle < dialled && paths[id].session.handle !in closed
  }

  /** Every session ever dialled is cached under exactly one endpoint or closed, never both. */
  ghost predicate Conserved(paths: map<string, LivePath>, dialled: nat, closed: set<nat>) {
    && (forall id :: id in paths ==> Entry(paths, dialled, closed, id))
    && (forall a, b :: a in paths && b in paths && paths[a].session.handle == paths[b].session.handle ==> a == b)
    && (forall h :: h in closed ==> h < dialled)
    && (forall h: nat :: h < dialled ==> h in closed || Cached(paths, h))
  }

  ghost predicate Cached(paths: map<string, LivePath>, handle: nat) {
    exists id :: id in paths && paths[id].session.handle == handle
  }

  lemma DropKeepsConserved(paths: map<string, LivePath>, dialled: nat, closed: set<nat>, id: string)
    requires Conserved(paths, dialled, closed) && id in paths
    ensures Conserved(paths - {id}, dialled, closed + {paths[id].session.handle})
  {
    var paths', closed' := paths - {id}, closed + {paths[id].session.handle};
    assert Entry(paths, dialled, closed, id);
    forall x | x in paths'
      ensures Entry(paths', dialled, closed', x)
    {
      assert Entry(paths, dialled, closed, x);
    }
    forall h: nat | h < dialled && h !in closed'
      ensures Cached(paths', h)
    {
      var x :| x in paths && paths[x].session.handle == h;
      assert x in paths' && paths'[x].session.handle == h;
    }
  }

  lemma DialKeepsConserved(paths: map<string, LivePath>, dialled: nat, closed: set<nat>, p: LivePath)
    requires Conserved(paths, dialled, closed) && p.endpoint.id !in paths && p.session.handle == dialled
    ensures Conserved(paths[p.endpoint.id := p], dialled + 1, closed)
    ensures Conserved(paths, dialled + 1, closed + {dialled})
  {
    var paths' := paths[p.endpoint.id := p];
    assert paths'[p.endpoint.id].session.handle == dialled;
    assert dialled !in closed;
    forall x | x in paths
      ensures paths[x].session.handle < dialled
      ensures Entry(paths', dialled + 1, closed, x) && Entry(paths, dialled + 1, closed + {dialled}, x)
    {
      assert Entry(paths, dialled, closed, x);
    }
    forall h: nat | h < dialled && h !in closed
      ensures Cached(paths', h)
    {
      assert Cached(paths, h);
      var x :| x in paths && paths[x].session.handle == h;
      assert x in paths' && paths'[x].session.handle == h;
    }
    assert Cached(paths', dialled);
  }

  lemma RefreshKeepsConserved(paths: map<string, LivePath>, dialled: nat, closed: set<nat>, id: string, p: LivePath)
    requires Conserved(paths, dialled, closed) && id in paths
    requires p.session == paths[id].session && p.endpoint == paths[id].endpoint
    ensures Conserved(paths[id := p], dialled, closed)
  {
    var paths' := paths[id := p];
    forall x | x in paths'
      ensures Entry(paths', dialled, closed, x)
    {
      assert Entry(paths, dialled, closed, x);
    }
    forall h: nat | h < dialled && h !in closed
      ensures Cached(paths', h)
    {
      assert Cached(paths, h);
      var x :| x in paths && paths[x].session.handle == h;
      assert x in paths' && paths'[x].session.handle == h;
    }
  }

  /** The cache as a value: cached paths, sessions dialled so far, sessions closed. */
  datatype Cache = Cache(paths: map<string, LivePath>, dialled: nat, closed: set<nat>)

  function Dropped(c: Cache, id: string): Cache
    requires id in c.paths
  {
    c.(paths := c.paths - {id}, closed := c.closed + {c.paths[id].session.handle})
  }

  /** The cached session of an endpoint, judged: kept as it is, re-probed and kept, or dropped.
      `done` says that no dial follows. */
  function Judged(c: Cache, ep: EndpointConfig, now: int, maxAge: int, w: Weather): (Cache, bool) {
    if ep.id !in c.paths then (c, false) else
    var p := c.paths[ep.id];
    if now >= p.session.expiresAt then (Dropped(c, ep.id), false)
    else if Fresh(p, now, maxAge) then (c, true)
    else if w.reprobe.Some? then (c.(paths := c.paths[ep.id := p.(observedAt := now, rtt := w.reprobe.value)]), true)
    else (Dropped(c, ep.id), false)
  }

  /** A dial, and the probe that decides whether the new session is cached or closed. */
  function Dialled(c: Cache, ep: EndpointConfig, now: int, w: Weather): Cache {
    if w.dial.None? then c else
    var session := Session(c.dialled, w.dial.value.0, w.dial.value.1);
    if w.probe.None? then c.(dialled := c.dialled + 1, closed := c.closed + {c.dialled})
    else c.(dialled := c.dialled + 1, paths := c.paths[ep.id := LivePath(session, ep, now, w.probe.value)])
  }

  function Refreshed(c: Cache, ep: EndpointConfig, now: int, maxAge: int, w: Weather): Cache {
    var (kept, done) := Judged(c, ep, now, maxAge, w);
    if done then kept else Dialled(kept, ep, now, w)
  }

  function RefreshedAll(c: Cache, endpoints: seq<EndpointConfig>, now: int, maxAge: int, w: seq<Weather>): Cache
    requires |w| == |endpoints|
  {
    if endpoints == [] then c else
      var n := |endpoints| - 1;
      Refreshed(RefreshedAll(c, endpoints[..n], now, maxAge, w[..n]), endpoints[n], now, maxAge, w[n])
  }

  ghost predicate Balanced(c: Cache) {
    Conserved(c.paths, c.dialled, c.closed)
  }

  /** A refresh of one endpoint loses no session and opens none it does not track. */
  lemma RefreshKeepsBalance(c: Cache, ep: EndpointConfig, now: int, maxAge: int, w: Weather)
    requires Balanced(c)
    ensures Balanced(Refreshed(c, ep, now, maxAge, w))
  {
    var (kept, done) := Judged(c, ep, now, maxAge, w);
    if ep.id in c.paths {
      DropKeepsConserved(c.paths, c.dialled, c.closed, ep.id);
      if done {
        RefreshKeepsConserved(c.paths, c.dialled, c.closed, ep.id, kept.paths[ep.id]);
      }
    }
    if !done && w.dial.Some? {
      var session := Session(kept.dialled, w.dial.value.0, w.dial.value.1);
      DialKeepsConserved(kept.paths, kept.dialled, kept.closed,
                         LivePath(session, ep, now, if w.probe.Some? then w.probe.value else 0.0));
    }
  }

  /** One turn, case by case. An unexpired fresh path stays; a stale one is probed again and, if
      that works, carries the new time and round trip. An expired one, and one whose probe failed,
      is closed. Then, or if there was none, the endpoint is dialled; the new session is cached
      with its own round trip if its probe works and closed if not. */
  lemma RefreshIsExact(c: Cache, ep: EndpointConfig, now: int, maxAge: int, w: Weather)
    ensures var c' := Refreshed(c, ep, now, maxAge, w);
            var cached := ep.id in c.paths;
            var alive := cached && now < c.paths[ep.id].session.expiresAt;
            var recent := alive && c.paths[ep.id].observedAt <= now && now - c.paths[ep.id].observedAt <= maxAge;
            var closedNow := if cached && !recent && !(alive && w.reprobe.Some?) then {c.paths[ep.id].session.handle} else {};
            if recent then c' == c
            else if alive && w.reprobe.Some? then
              c' == c.(paths := c.paths[ep.id := LivePath(c.paths[ep.id].session, c.paths[ep.id].endpoint, now, w.reprobe.value)])
            else if w.dial.None? then c' == Cache(c.paths - {ep.id}, c.dialled, c.closed + closedNow)
            else if w.probe.None? then c' == Cache(c.paths - {ep.id}, c.dialled + 1, c.closed + closedNow + {c.dialled})
            else c' == Cache(c.paths[ep.id := LivePath(Session(c.dialled, w.dial.value.0, w.dial.value.1), ep, now, w.probe.value)],
                             c.dialled + 1, c.closed + closedNow)
  {
    assert ep.id !in c.paths ==> c.paths - {ep.id} == c.paths;
    if w.dial.Some? && w.probe.Some? {
      var p := LivePath(Session(c.dialled, w.dial.value.0, w.dial.value.1), ep, now, w.probe.value);
      assert (c.paths - {ep.id})[ep.id := p] == c.paths[ep.id := p];
    }
  }

  lemma {:induction false} RefreshAllKeepsBalance(c: Cache, endpoints: seq<EndpointConfig>, now: int, maxAge: int, w: seq<Weather>)
    requires Balanced(c) && |w| == |endpoints|
    ensures Balanced(RefreshedAll(c, endpoints, now, maxAge, w))
  {
    if endpoints != [] {
      var n := |endpoints| - 1;
      RefreshAllKeepsBalance(c, endpoints[..n], now, maxAge, w[..n]);
      RefreshKeepsBalance(RefreshedAll(c, endpoints[..n], now, maxAge, w[..n]), endpoints[n], now, maxAge, w[n]);
    }
  }

  function Invalidated(c: Cache, handle: nat): Cache {
    c.(paths := map id | id in c.paths && c.paths[id].session.handle != handle :: c.paths[id],
       closed := if exists id :: id in c.paths && c.paths[id].session.handle == handle then c.closed + {handle} else c.closed)
  }

  /** An invalidated session ends up closed, and no other session is touched. */
  lemma InvalidateKeepsBalance(c: Cache, handle: nat)
    requires Balanced(c)
    ensures Balanced(Invalidated(c, handle))
    ensures handle < c.dialled ==> handle in Invalidated(c, handle).closed
  {
    var c' := Invalidated(c, handle);
    if id :| id in c.paths && c.paths[id].session.handle == handle {
      DropKeepsConserved(c.paths, c.dialled, c.closed, id);
      assert c'.paths == c.paths - {id};
    } else {
      assert c'.paths == c.paths;
      assert !Cached(c.paths, handle);
    }
  }

  /** After its turn, an endpoint is cached only with a path that is fresh; a session dialled in
      that turn is the next one and carries what the dial returned. */
  lemma RefreshedPathIsFresh(c: Cache, ep: EndpointConfig, now: int, maxAge: int, w: Weather)
    requires maxAge >= 0
    ensures var c' := Refreshed(c, ep, now, maxAge, w);
            && (forall id :: id != ep.id ==> (id in c'.paths <==> id in c.paths) && (id in c'.paths ==> c'.paths[id] == c.paths[id]))
            && (ep.id in c'.paths ==> Fresh(c'.paths[ep.id], now, maxAge))
            && (c'.dialled > c.dialled ==>
                  && w.dial.Some? && c'.dialled == c.dialled + 1
                  && (if w.probe.None? then c.dialled in c'.closed && ep.id !in c'.paths
                      else ep.id in c'.paths && c'.paths[ep.id].session == Session(c.dialled, w.dial.value.0, w.dial.value.1)))
  {
  }

  /** After all turns, every configured endpoint is fresh or absent. */
  lemma {:induction false} RefreshedAllAreFresh(c: Cache, endpoints: seq<EndpointConfig>, now: int, maxAge: int, w: seq<Weather>, ep: EndpointConfig)
    requires maxAge >= 0 && |w| == |endpoints| && ep in endpoints
    ensures var c' := RefreshedAll(c, endpoints, now, maxAge, w);
            ep.id in c'.paths ==> Fresh(c'.paths[ep.id], now, maxAge)
  {
    var n := |endpoints| - 1;
    RefreshedPathIsFresh(RefreshedAll(c, endpoints[..n], now, maxAge, w[..n]), endpoints[n], now, maxAge, w[n]);
    if ep.id != endpoints[n].id {
      assert endpoints == endpoints[..n] + [endpoints[n]];
      RefreshedAllAreFresh(c, endpoints[..n], now, maxAge, w[..n], ep);
    }
  }

  /** An endpoint that can be dialled and probed is cached after all turns, if its id is configured
      once. */
  lemma {:induction false} ReachableEndpointsAreCached(c: Cache, endpoints: seq<EndpointConfig>, now: int, maxAge: int, w: seq<Weather>, i: nat)
    requires |w| == |endpoints| && i < |endpoints| && w[i].dial.Some? && w[i].probe.Some?
    requires forall j :: 0 <= j < |endpoints| && j != i ==> endpoints[j].id != endpoints[i].id
    ensures endpoints[i].id in RefreshedAll(c, endpoints, now, maxAge, w).paths
  {
    var n := |endpoints| - 1;
    var before := RefreshedAll(c, endpoints[..n], now, maxAge, w[..n]);
    RefreshIsExact(before, endpoints[n], now, maxAge, w[n]);
    if i < n {
      ReachableEndpointsAreCached(c, endpoints[..n], now, maxAge, w[..n], i);
    }
  }

  class PathCache {
    const endpoints: seq<EndpointConfig>
    const maxAge: int
    var paths: map<string, LivePath>
    var dialled: nat
    var closed: set<nat>

    /** The successful data-plane probes so far: session and time. */
    ghost var probes: set<(nat, int)>

    function Value(): Cache
      reads this
    {
      Cache(paths, dialled, closed)
    }

    ghost predicate Probed()
      reads this
    {
      forall id :: id in paths ==> (paths[id].session.handle, paths[id].observedAt) in probes
    }

    ghost predicate Valid()
      reads this
    {
      Balanced(Value()) && Probed() && maxAge >= 0
    }

    constructor (endpoints: seq<EndpointConfig>, configuredMaxAge: int)
      ensures Valid() && Value() == Cache(map[], 0, {})
      ensures this.endpoints == endpoints && maxAge == if configuredMaxAge <= 0 then 5000 else configuredMaxAge
    {
      this.endpoints := endpoints;
      maxAge := if configuredMaxAge <= 0 then 5000 else configuredMaxAge;
      paths, dialled, closed, probes := map[], 0, {}, {};
    }

    /** Closes the session cached for an endpoint and forgets it. */
    method Drop(id: string)
      requires id in paths && Probed()
      modifies this
      ensures Value() == Dropped(old(Value()), id) && Probed() && probes == old(probes)
    {
      closed := closed + {paths[id].session.handle};
      paths := paths - {id};
    }

    /** One endpoint's turn in a refresh. */
    method RefreshOne(ep: EndpointConfig, now: int, weather: Weather)
      requires Probed()
      modifies this
      ensures Value() == Refreshed(old(Value()), ep, now, maxAge, weather)
      ensures Probed() && probes >= old(probes)
    {
      if ep.id in paths {
        var current := paths[ep.id];
        if now >= current.session.expiresAt {
          Drop(ep.id);
        } else if Fresh(current, now, maxAge) {
          return;
        } else if weather.reprobe.Some? {
          probes := probes + {(current.session.handle, now)};
          paths := paths[ep.id := current.(observedAt := now, rtt := weather.reprobe.value)];
          return;
        } else {
          Drop(ep.id);
        }
      }
      if weather.dial.None? {
        return;
      }
      var session := Session(dialled, weather.dial.value.0, weather.dial.value.1);
      dialled := dialled + 1;
      if weather.probe.None? {
        closed := closed + {session.handle};
        return;
      }
      probes := probes + {(session.handle, now)};
      paths := paths[ep.id := LivePath(session, ep, now, weather.probe.value)];
    }

    /** The current paths in (mode, round trip, id) order. The map is visited in any order. */
    method OrderedCurrentPaths(now: int) returns (out: seq<LivePath>)
      requires Valid()
      ensures Sorted(out)
      ensures forall p :: p in out <==> exists id :: id in paths && paths[id] == p && Current(p, now, maxAge)
    {
      out := [];
      var remaining := paths.Keys;
      while remaining != {}
        invariant remaining <= paths.Keys
        invariant Sorted(out)
        invariant forall p <- out :: p.endpoint.id in paths.Keys - remaining && paths[p.endpoint.id] == p && Current(p, now, maxAge)
        invariant forall id <- paths.Keys - remaining :: Current(paths[id], now, maxAge) ==> paths[id] in out
      {
        var id :| id in remaining;
        assert Entry(paths, dialled, closed, id);
        if Current(paths[id], now, maxAge) {
          out := Insert(out, paths[id]);
        }
        remaining := remaining - {id};
      }
    }

    /** A refresh. What it returns is exactly the cached paths whose session has not expired and
        whose last successful probe is recent, in order; it fails when there is none. */
    method EnsurePaths(now: int, weather: seq<Weather>) returns (r: Result<seq<LivePath>, ()>)
      requires Valid() && |weather| == |endpoints|
      modifies this
      ensures Valid()
      ensures Value() == RefreshedAll(old(Value()), endpoints, now, maxAge, weather)
      ensures r.Ok? ==>
                && r.value != [] && Sorted(r.value)
                && forall p <- r.value ::
                     && p.endpoint.id in paths && paths[p.endpoint.id] == p
                     && now < p.session.expiresAt && 0 <= now - p.observedAt <= maxAge
                     && (p.session.handle, p.observedAt) in probes && p.session.handle !in closed
      ensures forall id :: id in paths && Current(paths[id], now, maxAge) ==> r.Ok? && paths[id] in r.value
      ensures forall ep <- endpoints :: ep.id in paths && now < paths[ep.id].session.expiresAt ==> r.Ok? && paths[ep.id] in r.value
    {
      forall ep | ep in endpoints
        ensures var c := RefreshedAll(Value(), endpoints, now, maxAge, weather); ep.id in c.paths ==> Fresh(c.paths[ep.id], now, maxAge)
      {
        RefreshedAllAreFresh(Value(), endpoints, now, maxAge, weather, ep);
      }
      RefreshAllKeepsBalance(Value(), endpoints, now, maxAge, weather);
      for i := 0 to |endpoints|
        invariant Probed() && Value() == RefreshedAll(old(Value()), endpoints[..i], now, maxAge, weather[..i])
      {
        assert endpoints[..i + 1][..i] == endpoints[..i] && weather[..i + 1][..i] == weather[..i];
        RefreshOne(endpoints[i], now, weather[i]);
      }
      assert endpoints[..|endpoints|] == endpoints && weather[..|endpoints|] == weather;
      var ordered := OrderedCurrentPaths(now);
      forall p | p in ordered
        ensures p.endpoint.id in paths && paths[p.endpoint.id] == p && p.session.handle !in closed
      {
        var id :| id in paths && paths[id] == p;
        assert Entry(paths, dialled, closed, id);
      }
      r := if ordered == [] then Err(()) else Ok(ordered);
    }

    /** Drops a session wherever it is cached. */
    method Invalidate(session: Session)
      requires Valid()
      modifies this
      ensures Valid() && Value() == Invalidated(old(Value()), session.handle)
      ensures session.handle < dialled ==> session.handle in closed
      ensures closed <= old(closed) + {session.handle} && dialled == old(dialled)
      ensures forall id :: id in paths <==> id in old(paths) && old(paths)[id].session.handle != session.handle
      ensures forall id <- paths :: paths[id] == old(paths)[id]
    {
      InvalidateKeepsBalance(Value(), session.handle);
      DropSession(session);
    }

    method DropSession(session: Session)
      requires Probed()
      modifies this
      ensures Probed() && Value() == Invalidated(old(Value()), session.handle)
    {
      ghost var before := Value();
      var remaining := paths.Keys;
      var found := false;
      while remaining != {}
        invariant Probed() && dialled == before.dialled && remaining <= before.paths.Keys
        invariant forall id :: id in paths <==> id in before.paths && (id in remaining || before.paths[id].session.handle != session.handle)
        invariant forall id :: id in paths ==> paths[id] == before.paths[id]
        invariant found <==> exists id :: id in before.paths && id !in remaining && before.paths[id].session.handle == session.handle
        invariant closed == if found then before.closed + {session.handle} else before.closed
      {
        var id :| id in remaining;
        if paths[id].session.handle == session.handle {
          Drop(id);
          found := true;
        }
        remaining := remaining - {id};
      }
    }

    /** Shutdown closes every session ever dialled. */
    method Close()
      requires Valid()
      modifies this
      ensures Valid() && paths == map[] && dialled == old(dialled)
      ensures forall h: nat :: h < dialled ==> h in closed
    {
      while paths != map[]
        invariant Valid() && dialled == old(dialled)
        decreases |paths|
      {
        var id :| id in paths;
        assert |paths - {id}| < |paths| by {
          assert (paths - {id}).Keys == paths.Keys - {id};
          assert |paths| == |paths.Keys| && |paths - {id}| == |(paths - {id}).Keys|;
        }
        DropKeepsConserved(paths, dialled, closed, id);
        Drop(id);
      }
      forall h: nat | h < dialled
        ensures h in closed
      {
        assert h in closed || Cached(paths, h);
      }
    }
  }

  datatype Operation = Ensure(now: int, weather: seq<Weather>) | Invalidate(session: Session) | Shutdown

  /** Any run of refreshes, invalidations and shutdowns conserves the sessions, and a final
      shutdown leaves none open. */
  method Lifetime(endpoints: seq<EndpointConfig>, configuredMaxAge: int, operations: seq<Operation>) returns (dialled: nat, open: set<nat>)
    requires forall op <- operations :: op.Ensure? ==> |op.weather| == |endpoints|
    ensures open == {}
  {
    var cache := new PathCache(endpoints, configuredMaxAge);
    for i := 0 to |operations|
      invariant cache.Valid() && cache.endpoints == endpoints
      invariant fresh(cache)
    {
      match operations[i]
      case Ensure(now, weather) => var _ := cache.EnsurePaths(now, weather);
      case Invalidate(session) => cache.Invalidate(session);
      case Shutdown => cache.Close();
    }
    cache.Close();
    dialled := cache.dialled;
    open := set h | 0 <= h < cache.dialled && h !in cache.closed;
  }
}
