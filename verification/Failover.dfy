/** The controller's session pool: which endpoints a request is tried on, in which order, and
    what the caller is told when transports fail. */
module Failover {

  import opened Collections
  import opened Outcomes
  import opened PathSelection
  import opened StateStore

  /** A registered endpoint; `expiresAt` and `sessionId` come from its session binding. */
  datatype Endpoint = Endpoint(endpointId: string, workstation: string, controller: string, sessionId: string,
                               expiresAt: int, path: Path, durable: bool)

  const MUTATING_OPERATIONS: set<string> := {
    "lane.open", "lane.renew", "lane.close", "fs.write_text", "fs.append_text", "fs.mkdir", "fs.move",
    "fs.replace_text", "process.exec", "process.start", "process.input", "process.terminate"}

  /** What one attempt brings: a response, a lost transport (closed stream or timeout), or
      another exception, which is passed on. */
  datatype Attempt = Replied(response: Response) | Lost | Raised(code: string)

  datatype PoolError = InvalidArgument | NoCurrentPath | StreamClosed | AmbiguousDelivery | Other(code: string)

  type PoolResult = Result<Response, PoolError>

  /** The parameters of one request call. */
  datatype Query = Query(now: int, maxAge: int, mutating: bool)

  /** The pool finds an endpoint by the id of the path it selected. The runtime uses the endpoint
      id for both; the pool itself does not ask for unique path ids. */
  ghost predicate UniquePaths(endpoints: seq<Endpoint>) {
    forall i, j :: 0 <= i < j < |endpoints| ==> endpoints[i].path.id != endpoints[j].path.id
  }

  predicate Tried(trace: seq<Endpoint>, e: Endpoint) {
    exists i :: 0 <= i < |trace| && trace[i].endpointId == e.endpointId
  }

  /** After a lost mutation, on a durable endpoint, only durable endpoints of the same session
      may be tried; after one on another endpoint, none. */
  predicate MayFollow(mutating: bool, trace: seq<Endpoint>, e: Endpoint) {
    && !Tried(trace, e)
    && (mutating && trace != [] ==>
          trace[|trace| - 1].durable && e.durable && e.sessionId == trace[|trace| - 1].sessionId)
  }

  predicate Usable(q: Query, trace: seq<Endpoint>, e: Endpoint) {
    MayFollow(q.mutating, trace, e) && Eligible(e.path, q.now, q.maxAge)
  }

  /** `e` may be tried after `trace`. */
  ghost predicate IsAllowed(candidates: seq<Endpoint>, q: Query, trace: seq<Endpoint>, e: Endpoint) {
    e in candidates && MayFollow(q.mutating, trace, e)
  }

  ghost predicate Allowed(candidates: seq<Endpoint>, q: Query, trace: seq<Endpoint>) {
    forall i :: 0 <= i < |trace| ==> IsAllowed(candidates, q, trace[..i], trace[i])
  }

  /** `e` is the endpoint to try after `trace`: usable, and before every other usable one. */
  ghost predicate IsNext(candidates: seq<Endpoint>, q: Query, trace: seq<Endpoint>, e: Endpoint) {
    && e in candidates && Usable(q, trace, e)
    && (forall f :: f in candidates && f != e && Usable(q, trace, f) ==> Before(e.path, f.path))
  }

  /** Every attempt was the one to make next. */
  ghost predicate Attempts(candidates: seq<Endpoint>, q: Query, trace: seq<Endpoint>) {
    forall i :: 0 <= i < |trace| ==> IsNext(candidates, q, trace[..i], trace[i])
  }

  ghost predicate AllLost(trace: seq<Endpoint>, net: string -> Attempt) {
    forall i :: 0 <= i < |trace| ==> net(trace[i].endpointId) == Lost
  }

  /** The last attempt brought `attempt`, after lost ones only. */
  ghost predicate EndedWith(trace: seq<Endpoint>, net: string -> Attempt, attempt: Attempt) {
    && trace != [] && AllLost(trace[..|trace| - 1], net)
    && net(trace[|trace| - 1].endpointId) == attempt
  }

  ghost predicate NoneUsable(candidates: seq<Endpoint>, q: Query, trace: seq<Endpoint>) {
    forall e <- candidates :: !Usable(q, trace, e)
  }

  /** A mutation whose last attempt was lost may be retried. */
  predicate Retryable(candidates: seq<Endpoint>, trace: seq<Endpoint>) {
    trace != [] && exists e <- candidates :: MayFollow(true, trace, e)
  }

  /** What the caller is told after the attempts in `trace`, for a network that treats each
      endpoint as `net` says. */
  ghost predicate Reported(candidates: seq<Endpoint>, q: Query, net: string -> Attempt, trace: seq<Endpoint>, r: PoolResult) {
    match r
    case Ok(response) => EndedWith(trace, net, Replied(response))
    case Err(Other(code)) => EndedWith(trace, net, Raised(code))
    case Err(NoCurrentPath) => trace == [] && NoneUsable(candidates, q, trace)
    case Err(AmbiguousDelivery) => q.mutating && trace != [] && AllLost(trace, net) && !Retryable(candidates, trace)
    case Err(StreamClosed) =>
      && trace != [] && AllLost(trace, net) && NoneUsable(candidates, q, trace)
      && (q.mutating ==> Retryable(candidates, trace))
    case Err(InvalidArgument) => trace == [] && (q.now < 0 || q.maxAge < 0)
  }

  /** The complete outcome of a request: attempts that were allowed, and the report. */
  ghost predicate Outcome(candidates: seq<Endpoint>, q: Query, net: string -> Attempt, trace: seq<Endpoint>, r: PoolResult) {
    Allowed(candidates, q, trace) && Reported(candidates, q, net, trace, r)
  }

  type Route = (string, string)

  function Group(byRoute: map<Route, seq<Endpoint>>, route: Route): seq<Endpoint> {
    if route in byRoute then byRoute[route] else []
  }

  class HotSessionPool {
    /** Endpoints per route, in registration order. */
    var byRoute: map<Route, seq<Endpoint>>

    constructor ()
      ensures byRoute == map[]
    {
      byRoute := map[];
    }

    /** Registering replaces the endpoint of that id, or adds it. */
    method Register(e: Endpoint)
      modifies this
      ensures var route := (e.workstation, e.controller);
              && byRoute == old(byRoute)[route := Group(byRoute, route)]
              && e in Group(byRoute, route)
              && (forall f: Endpoint :: f.endpointId != e.endpointId ==>
                    (f in Group(byRoute, route) <==> f in Group(old(byRoute), route)))
              && (forall f: Endpoint :: f in Group(byRoute, route) && f.endpointId == e.endpointId ==> f == e)
    {
      var route := (e.workstation, e.controller);
      var group := Group(byRoute, route);
      var updated: seq<Endpoint> := [];
      var found := false;
      for i := 0 to |group|
        invariant |updated| == i
        invariant forall j :: 0 <= j < i ==> updated[j] == if group[j].endpointId == e.endpointId then e else group[j]
        invariant found <==> exists j :: 0 <= j < i && group[j].endpointId == e.endpointId
      {
        if group[i].endpointId == e.endpointId {
          updated := updated + [e];
          found := true;
        } else {
          updated := updated + [group[i]];
        }
      }
      if !found {
        updated := updated + [e];
      }
      byRoute := byRoute[route := updated];
      assert Group(byRoute, route) == updated;
      forall f: Endpoint | f.endpointId != e.endpointId
        ensures f in updated <==> f in group
      {
        if f in group {
          var j :| 0 <= j < |group| && group[j] == f;
          assert updated[j] == f;
        }
      }
      if found {
        var j :| 0 <= j < |group| && group[j].endpointId == e.endpointId;
        assert updated[j] == e;
      }
    }

    /** The endpoints of a route whose session is still current, in registration order. */
    method CurrentEndpoints(workstation: string, controller: string, now: int) returns (result: seq<Endpoint>)
      ensures forall e :: e in result <==>
                e in Group(byRoute, (workstation, controller)) && now < e.expiresAt
                && e.workstation == workstation && e.controller == controller
      ensures UniquePaths(Group(byRoute, (workstation, controller))) ==> UniquePaths(result)
    {
      var group := Group(byRoute, (workstation, controller));
      result := [];
      for i := 0 to |group|
        invariant forall e :: e in result <==>
                    e in group[..i] && now < e.expiresAt && e.workstation == workstation && e.controller == controller
        invariant UniquePaths(group) ==> UniquePaths(result)
      {
        var e := group[i];
        assert group[..i + 1] == group[..i] + [e];
        AppendUnique(group, i, result);
        if now < e.expiresAt && e.workstation == workstation && e.controller == controller {
          result := result + [e];
        }
      }
      assert group[..|group|] == group;
    }

    /** A request on a route: the outcome over the endpoints whose sessions are current. If path
        ids are unique, each attempt is the best one left. */
    method Request(workstation: string, controller: string, requestId: string, operation: string, now: int, maxAge: int,
                   timeoutPositive: bool, net: string -> Attempt)
      returns (r: PoolResult, candidates: seq<Endpoint>, trace: seq<Endpoint>)
      ensures requestId == "" || operation == "" || !timeoutPositive ==> r == Err(InvalidArgument) && trace == []
      ensures requestId != "" && operation != "" && timeoutPositive ==>
                var q := Query(now, maxAge, operation in MUTATING_OPERATIONS);
                && Outcome(candidates, q, net, trace, r)
                && (UniquePaths(Group(byRoute, (workstation, controller))) ==> Attempts(candidates, q, trace))
                && forall e :: e in candidates <==>
                     e in Group(byRoute, (workstation, controller)) && now < e.expiresAt
                     && e.workstation == workstation && e.controller == controller
    {
      if requestId == "" || operation == "" || !timeoutPositive {
        return Err(InvalidArgument), [], [];
      }
      candidates := CurrentEndpoints(workstation, controller, now);
      r, trace := TryInOrder(candidates, Query(now, maxAge, operation in MUTATING_OPERATIONS), net);
    }

    /** The failover loop. */
    static method TryInOrder(candidates: seq<Endpoint>, q: Query, net: string -> Attempt) returns (r: PoolResult, trace: seq<Endpoint>)
      ensures Outcome(candidates, q, net, trace, r)
      ensures UniquePaths(candidates) ==> Attempts(candidates, q, trace)
    {
      trace := [];
      var pinned: Option<string> := None;
      while true
        invariant Going(candidates, q, net, trace, pinned)
        invariant UniquePaths(candidates) ==> Attempts(candidates, q, trace)
        decreases |candidates| - |trace|
      {
        var choice := Choose(candidates, q, trace, pinned);
        if choice.Err? {
          StopsInvalid(candidates, q, net, trace, pinned);
          return Err(InvalidArgument), trace;
        }
        if choice.value.None? {
          StopsUnusable(candidates, q, net, trace, pinned);
          return Err(if trace != [] then StreamClosed else NoCurrentPath), trace;
        }
        var e := choice.value.value;
        var attempt := net(e.endpointId);
        Grow(candidates, q, net, trace, pinned, e);
        if UniquePaths(candidates) {
          AttemptsGrow(candidates, q, trace, e);
        }
        trace := trace + [e];
        match attempt {
          case Replied(response) => return Ok(response), trace;
          case Raised(code) => return Err(Other(code)), trace;
          case Lost =>
            if q.mutating {
              if !e.durable {
                StopsAmbiguous(candidates, q, net, trace);
                return Err(AmbiguousDelivery), trace;
              }
              pinned := Some(e.sessionId);
              var compatible := AnyMayFollow(candidates, trace);
              if !compatible {
                return Err(AmbiguousDelivery), trace;
              }
            }
        }
      }
    }
  }

  /** Between attempts: all allowed and lost; after a lost mutation the session is pinned and some
      candidate may follow. */
  ghost predicate Going(candidates: seq<Endpoint>, q: Query, net: string -> Attempt, trace: seq<Endpoint>, pinned: Option<string>) {
    && Allowed(candidates, q, trace) && AllLost(trace, net)
    && pinned == (if q.mutating && trace != [] then Some(trace[|trace| - 1].sessionId) else None)
    && (q.mutating && trace != [] ==> Retryable(candidates, trace))
    && (trace != [] ==> 0 <= q.now && 0 <= q.maxAge)
  }

  lemma StopsInvalid(candidates: seq<Endpoint>, q: Query, net: string -> Attempt, trace: seq<Endpoint>, pinned: Option<string>)
    requires Going(candidates, q, net, trace, pinned) && (q.now < 0 || q.maxAge < 0)
    ensures Outcome(candidates, q, net, trace, Err(InvalidArgument))
  {
  }

  lemma StopsUnusable(candidates: seq<Endpoint>, q: Query, net: string -> Attempt, trace: seq<Endpoint>, pinned: Option<string>)
    requires Going(candidates, q, net, trace, pinned) && NoneUsable(candidates, q, trace)
    ensures Outcome(candidates, q, net, trace, Err(if trace != [] then StreamClosed else NoCurrentPath))
  {
  }

  lemma StopsAmbiguous(candidates: seq<Endpoint>, q: Query, net: string -> Attempt, trace: seq<Endpoint>)
    requires Allowed(candidates, q, trace) && AllLost(trace, net) && q.mutating && trace != [] && !trace[|trace| - 1].durable
    ensures Outcome(candidates, q, net, trace, Err(AmbiguousDelivery))
  {
  }

  /** One more attempt: allowed, so the trace is still bounded, and the outcome if it was not lost. */
  lemma Grow(candidates: seq<Endpoint>, q: Query, net: string -> Attempt, trace: seq<Endpoint>, pinned: Option<string>, e: Endpoint)
    requires Going(candidates, q, net, trace, pinned) && IsAllowed(candidates, q, trace, e)
    ensures Allowed(candidates, q, trace + [e]) && |trace + [e]| <= |candidates|
    ensures match net(e.endpointId)
            case Replied(response) => Outcome(candidates, q, net, trace + [e], Ok(response))
            case Raised(code) => Outcome(candidates, q, net, trace + [e], Err(Other(code)))
            case Lost => AllLost(trace + [e], net)
  {
    AllowedGrow(candidates, q, trace, e);
    AttemptsAreBounded(candidates, q, trace + [e]);
    assert (trace + [e])[..|trace|] == trace;
  }

  method AnyMayFollow(candidates: seq<Endpoint>, trace: seq<Endpoint>) returns (compatible: bool)
    requires trace != []
    ensures compatible <==> Retryable(candidates, trace)
  {
    compatible := exists e <- candidates :: MayFollow(true, trace, e);
  }

  /** The endpoint of the best eligible path among those that may follow. */
  method Choose(candidates: seq<Endpoint>, q: Query, trace: seq<Endpoint>, pinned: Option<string>) returns (r: Result<Option<Endpoint>, ()>)
    requires pinned == if q.mutating && trace != [] then Some(trace[|trace| - 1].sessionId) else None
    requires pinned.Some? ==> trace[|trace| - 1].durable
    ensures r.Err? <==> q.now < 0 || q.maxAge < 0
    ensures r == Ok(None) ==> NoneUsable(candidates, q, trace)
    ensures r.Ok? && r.value.Some? ==>
              && IsAllowed(candidates, q, trace, r.value.value)
              && (UniquePaths(candidates) ==> IsNext(candidates, q, trace, r.value.value))
  {
    var remaining := Remaining(candidates, q, trace, pinned);
    var decision := SelectPath(PathsOf(remaining), q.now, q.maxAge);
    if decision.Err? {
      return Err(());
    }
    if decision.value.selected.None? {
      NothingUsable(candidates, q, trace, remaining);
      return Ok(None);
    }
    var selected := decision.value.selected.value;
    SelectedHasEndpoint(remaining, selected);
    var e := EndpointOf(remaining, selected.id);
    if UniquePaths(candidates) {
      NextIsBest(candidates, q, trace, remaining, selected, e);
    }
    r := Ok(Some(e));
  }

  lemma SelectedHasEndpoint(endpoints: seq<Endpoint>, selected: Path)
    requires selected in PathsOf(endpoints)
    ensures exists x <- endpoints :: x.path.id == selected.id
  {
    var k :| 0 <= k < |endpoints| && PathsOf(endpoints)[k] == selected;
    assert endpoints[k] in endpoints;
  }

  function PathsOf(endpoints: seq<Endpoint>): (r: seq<Path>)
    ensures |r| == |endpoints| && forall i :: 0 <= i < |r| ==> r[i] == endpoints[i].path
  {
    seq(|endpoints|, i requires 0 <= i < |endpoints| => endpoints[i].path)
  }

  /** The candidates still allowed by the attempts so far. */
  method Remaining(candidates: seq<Endpoint>, q: Query, trace: seq<Endpoint>, pinned: Option<string>)
    returns (remaining: seq<Endpoint>)
    requires pinned == if q.mutating && trace != [] then Some(trace[|trace| - 1].sessionId) else None
    requires pinned.Some? ==> trace[|trace| - 1].durable
    ensures forall e :: e in remaining <==> e in candidates && MayFollow(q.mutating, trace, e)
    ensures UniquePaths(candidates) ==> UniquePaths(remaining)
  {
    remaining := [];
    for i := 0 to |candidates|
      invariant forall e :: e in remaining <==> e in candidates[..i] && MayFollow(q.mutating, trace, e)
      invariant UniquePaths(candidates) ==> UniquePaths(remaining)
    {
      var e := candidates[i];
      assert candidates[..i + 1] == candidates[..i] + [e];
      AppendUnique(candidates, i, remaining);
      if !Tried(trace, e) && (pinned.None? || (e.sessionId == pinned.value && e.durable)) {
        remaining := remaining + [e];
      }
    }
    assert candidates[..|candidates|] == candidates;
  }

  /** The first endpoint with the chosen path id. */
  method EndpointOf(endpoints: seq<Endpoint>, id: string) returns (e: Endpoint)
    requires exists x <- endpoints :: x.path.id == id
    ensures e in endpoints && e.path.id == id
  {
    var i := 0;
    while endpoints[i].path.id != id
      invariant 0 <= i < |endpoints|
      invariant forall j :: 0 <= j < i ==> endpoints[j].path.id != id
      decreases |endpoints| - i
    {
      i := i + 1;
    }
    e := endpoints[i];
  }

  /** A selection from a prefix stays free of repeated ids when the next element joins it. */
  lemma AppendUnique(all: seq<Endpoint>, i: nat, part: seq<Endpoint>)
    requires i < |all| && (UniquePaths(all) ==> UniquePaths(part)) && forall e <- part :: e in all[..i]
    ensures UniquePaths(all) ==> UniquePaths(part + [all[i]])
  {
    if UniquePaths(all) {
      forall k | 0 <= k < |part|
        ensures part[k].path.id != all[i].path.id
      {
        assert part[k] in all[..i];
        var j :| 0 <= j < i && all[..i][j] == part[k];
      }
    }
  }

  lemma UniqueByPath(endpoints: seq<Endpoint>, a: Endpoint, b: Endpoint)
    requires UniquePaths(endpoints) && a in endpoints && b in endpoints
    requires a.path.id == b.path.id
    ensures a == b
  {
    var i :| 0 <= i < |endpoints| && endpoints[i] == a;
    var j :| 0 <= j < |endpoints| && endpoints[j] == b;
    assert i == j;
  }

  lemma NothingUsable(candidates: seq<Endpoint>, q: Query, trace: seq<Endpoint>, remaining: seq<Endpoint>)
    requires forall e :: e in remaining <==> e in candidates && MayFollow(q.mutating, trace, e)
    requires forall p <- PathsOf(remaining) :: !Eligible(p, q.now, q.maxAge)
    ensures forall e <- candidates :: !Usable(q, trace, e)
  {
    forall e | e in candidates && MayFollow(q.mutating, trace, e)
      ensures !Eligible(e.path, q.now, q.maxAge)
    {
      var i :| 0 <= i < |remaining| && remaining[i] == e;
      assert PathsOf(remaining)[i] == e.path;
    }
  }

  /** The endpoint found through the selected path is the next one in order. */
  lemma NextIsBest(candidates: seq<Endpoint>, q: Query, trace: seq<Endpoint>, remaining: seq<Endpoint>,
                   selected: Path, e: Endpoint)
    requires UniquePaths(candidates) && UniquePaths(remaining)
    requires forall x :: x in remaining <==> x in candidates && MayFollow(q.mutating, trace, x)
    requires selected in PathsOf(remaining) && Eligible(selected, q.now, q.maxAge)
    requires forall p <- PathsOf(remaining) :: Eligible(p, q.now, q.maxAge) ==> !Before(p, selected)
    requires e in remaining && e.path.id == selected.id
    ensures IsNext(candidates, q, trace, e)
  {
    var k :| 0 <= k < |remaining| && remaining[k].path == selected;
    UniqueByPath(remaining, remaining[k], e);
    forall f | f in candidates && f != e && Usable(q, trace, f)
      ensures Before(e.path, f.path)
    {
      var i :| 0 <= i < |remaining| && remaining[i] == f;
      assert PathsOf(remaining)[i] == f.path;
      if f.path.id == e.path.id {
        UniqueByPath(remaining, f, e);
      }
      BeforeIsTotal(e.path, f.path);
    }
  }

  lemma AttemptsGrow(candidates: seq<Endpoint>, q: Query, trace: seq<Endpoint>, e: Endpoint)
    requires Attempts(candidates, q, trace) && IsNext(candidates, q, trace, e)
    ensures Attempts(candidates, q, trace + [e])
  {
    forall i | 0 <= i < |trace + [e]|
      ensures IsNext(candidates, q, (trace + [e])[..i], (trace + [e])[i])
    {
      if i < |trace| {
        assert (trace + [e])[..i] == trace[..i];
      } else {
        assert (trace + [e])[..i] == trace;
      }
    }
  }

  lemma AllowedGrow(candidates: seq<Endpoint>, q: Query, trace: seq<Endpoint>, e: Endpoint)
    requires Allowed(candidates, q, trace) && IsAllowed(candidates, q, trace, e)
    ensures Allowed(candidates, q, trace + [e])
  {
    forall i | 0 <= i < |trace + [e]|
      ensures IsAllowed(candidates, q, (trace + [e])[..i], (trace + [e])[i])
    {
      if i < |trace| {
        assert (trace + [e])[..i] == trace[..i];
      } else {
        assert (trace + [e])[..i] == trace;
      }
    }
  }

  /** No endpoint is tried twice, so there are no more attempts than candidates. */
  lemma AttemptsAreBounded(candidates: seq<Endpoint>, q: Query, trace: seq<Endpoint>)
    requires Allowed(candidates, q, trace)
    ensures forall i, j :: 0 <= i < j < |trace| ==> trace[i].endpointId != trace[j].endpointId
    ensures |trace| <= |candidates|
  {
    forall i, j | 0 <= i < j < |trace|
      ensures trace[i].endpointId != trace[j].endpointId
    {
      assert IsAllowed(candidates, q, trace[..j], trace[j]);
      assert trace[..j][i] == trace[i];
    }
    var tried := set e | e in trace;
    var all := set e | e in candidates;
    forall e | e in tried
      ensures e in all
    {
      var i :| 0 <= i < |trace| && trace[i] == e;
      assert IsAllowed(candidates, q, trace[..i], trace[i]);
    }
    DistinctSize(trace);
    SetSize(candidates);
    SubsetSize(tried, all);
  }

  lemma {:induction false} SetSize<T>(s: seq<T>)
    ensures |set e | e in s| <= |s|
  {
    if s != [] {
      SetSize(s[1..]);
      assert (set e | e in s) == {s[0]} + (set e | e in s[1..]);
    }
  }

  lemma {:induction false} DistinctSize(s: seq<Endpoint>)
    requires forall i, j :: 0 <= i < j < |s| ==> s[i].endpointId != s[j].endpointId
    ensures |set e | e in s| == |s|
  {
    if s != [] {
      DistinctSize(s[1..]);
      assert (set e | e in s) == {s[0]} + (set e | e in s[1..]);
      assert s[0] !in s[1..];
    }
  }

  // ---- What the outcome relation means ----

  lemma NextIsLater(candidates: seq<Endpoint>, q: Query, trace: seq<Endpoint>, k: nat)
    requires Attempts(candidates, q, trace) && k + 1 < |trace|
    ensures Before(trace[k].path, trace[k + 1].path)
  {
    var e, f := trace[k], trace[k + 1];
    assert IsNext(candidates, q, trace[..k], e) && IsNext(candidates, q, trace[..k + 1], f);
    assert trace[..k + 1] == trace[..k] + [e];
    UsableEarlier(q, trace[..k], e, f);
  }

  /** Attempts come in strictly increasing (mode, round trip, id) order. */
  lemma AttemptsAreOrdered(candidates: seq<Endpoint>, q: Query, trace: seq<Endpoint>, i: nat, j: nat)
    requires Attempts(candidates, q, trace) && i < j < |trace|
    ensures Before(trace[i].path, trace[j].path)
  {
    var paths := PathsOf(trace);
    forall k | 0 <= k < |paths| - 1
      ensures Step(paths, k)
    {
      NextIsLater(candidates, q, trace, k);
    }
    ChainIsOrdered(paths, i, j);
  }

  ghost predicate Step(paths: seq<Path>, k: nat)
    requires k + 1 < |paths|
  {
    Before(paths[k], paths[k + 1])
  }

  lemma {:induction false} ChainIsOrdered(paths: seq<Path>, i: nat, j: nat)
    requires i < j < |paths| && forall k: nat :: k < |paths| - 1 ==> Step(paths, k)
    ensures Before(paths[i], paths[j])
    decreases j - i
  {
    assert Step(paths, j - 1);
    if i < j - 1 {
      ChainIsOrdered(paths, i, j - 1);
      BeforeIsTransitive(paths[i], paths[j - 1], paths[j]);
    }
  }

  lemma UsableEarlier(q: Query, trace: seq<Endpoint>, e: Endpoint, f: Endpoint)
    requires Usable(q, trace, e) && Usable(q, trace + [e], f)
    ensures Usable(q, trace, f) && f != e
  {
    forall i | 0 <= i < |trace|
      ensures trace[i].endpointId != f.endpointId
    {
      assert (trace + [e])[i] == trace[i];
    }
    assert (trace + [e])[|trace|] == e;
  }

  /** A mutation is attempted a second time only if every attempt, the first included, is on
      an endpoint with durable idempotency, and all are in one session. */
  lemma {:induction false} MutationRetriesStayInSession(candidates: seq<Endpoint>, q: Query, trace: seq<Endpoint>, i: nat)
    requires Allowed(candidates, q, trace) && q.mutating && |trace| > 1 && i < |trace|
    ensures trace[i].durable && trace[i].sessionId == trace[0].sessionId
  {
    var k := if i == 0 then 1 else i;
    assert IsAllowed(candidates, q, trace[..k], trace[k]);
    assert trace[..k][|trace[..k]| - 1] == trace[k - 1];
    if i > 0 {
      MutationRetriesStayInSession(candidates, q, trace, i - 1);
    }
  }

  /** A read fails with a transport error only after every eligible endpoint was tried. */
  lemma ReadsTryEverything(candidates: seq<Endpoint>, q: Query, net: string -> Attempt, trace: seq<Endpoint>, r: PoolResult,
                           e: Endpoint)
    requires Outcome(candidates, q, net, trace, r) && !q.mutating && r == Err(StreamClosed)
    requires e in candidates && Eligible(e.path, q.now, q.maxAge)
    ensures Tried(trace, e) && net(e.endpointId) == Lost
  {
    assert !Usable(q, trace, e);
  }

  /** A mutation is not given up early: if it fails for lost transports, then the last endpoint
      tried was not durable, or no untried candidate is durable, of the same session and eligible. */
  lemma MutationsAreRetried(candidates: seq<Endpoint>, q: Query, net: string -> Attempt, trace: seq<Endpoint>, r: PoolResult, e: Endpoint)
    requires Outcome(candidates, q, net, trace, r) && q.mutating && trace != []
    requires r == Err(AmbiguousDelivery) || r == Err(StreamClosed)
    requires e in candidates && (forall i :: 0 <= i < |trace| ==> trace[i].endpointId != e.endpointId)
    ensures var last := trace[|trace| - 1];
            !last.durable || !e.durable || e.sessionId != last.sessionId || !Eligible(e.path, q.now, q.maxAge)
  {
  }

  /** A request is tried at all if a candidate is eligible. */
  lemma EligibleMeansTried(candidates: seq<Endpoint>, q: Query, net: string -> Attempt, trace: seq<Endpoint>, r: PoolResult, e: Endpoint)
    requires Outcome(candidates, q, net, trace, r) && 0 <= q.now && 0 <= q.maxAge
    requires e in candidates && Eligible(e.path, q.now, q.maxAge)
    ensures trace != []
  {
    assert trace == [] ==> Usable(q, trace, e);
  }

  /** When a lost mutation is reported as ambiguous and when as a closed stream: ambiguous
      exactly if no untried durable endpoint of the session was registered at all. A stale or
      unhealthy one turns the report into a closed stream. */
  lemma LostMutationReport(candidates: seq<Endpoint>, q: Query, net: string -> Attempt, trace: seq<Endpoint>, r: PoolResult)
    requires Outcome(candidates, q, net, trace, r) && q.mutating && trace != [] && AllLost(trace, net)
    ensures r == Err(AmbiguousDelivery) || r == Err(StreamClosed)
    ensures r == Err(AmbiguousDelivery) <==> forall e <- candidates :: !MayFollow(true, trace, e)
  {
  }

  /** The outcome is determined: the same pool, query and network give the same attempts and
      the same result. */
  lemma OutcomeIsUnique(candidates: seq<Endpoint>, q: Query, net: string -> Attempt,
                        t1: seq<Endpoint>, r1: PoolResult, t2: seq<Endpoint>, r2: PoolResult)
    requires 0 <= q.now && 0 <= q.maxAge
    requires Attempts(candidates, q, t1) && Reported(candidates, q, net, t1, r1)
    requires Attempts(candidates, q, t2) && Reported(candidates, q, net, t2, r2)
    ensures t1 == t2 && r1 == r2
  {
    if |t1| <= |t2| {
      SameStart(candidates, q, t1, t2, |t1|);
      NoLonger(candidates, q, net, t1, r1, t2, r2);
    } else {
      SameStart(candidates, q, t2, t1, |t2|);
      NoLonger(candidates, q, net, t2, r2, t1, r1);
    }
    SameResult(candidates, q, net, t1, r1, r2);
  }

  lemma SameResult(candidates: seq<Endpoint>, q: Query, net: string -> Attempt, t: seq<Endpoint>, r1: PoolResult, r2: PoolResult)
    requires 0 <= q.now && 0 <= q.maxAge
    requires Reported(candidates, q, net, t, r1) && Reported(candidates, q, net, t, r2)
    ensures r1 == r2
  {
    if t != [] {
      var last := net(t[|t| - 1].endpointId);
      assert AllLost(t, net) ==> last == Lost;
    }
  }

  lemma {:induction false} SameStart(candidates: seq<Endpoint>, q: Query, t1: seq<Endpoint>, t2: seq<Endpoint>, n: nat)
    requires Attempts(candidates, q, t1) && Attempts(candidates, q, t2) && n <= |t1| && n <= |t2|
    ensures t1[..n] == t2[..n]
  {
    if n > 0 {
      SameStart(candidates, q, t1, t2, n - 1);
      SameAttempt(candidates, q, t1, t2, n - 1);
      OneMore(t1, t2, n - 1);
    }
  }

  lemma SameAttempt(candidates: seq<Endpoint>, q: Query, t1: seq<Endpoint>, t2: seq<Endpoint>, i: nat)
    requires i < |t1| && i < |t2| && t1[..i] == t2[..i]
    requires IsNext(candidates, q, t1[..i], t1[i]) && IsNext(candidates, q, t2[..i], t2[i])
    ensures t1[i] == t2[i]
  {
    NextIsUnique(candidates, q, t1[..i], t1[i], t2[i]);
  }

  lemma OneMore<T>(a: seq<T>, b: seq<T>, i: nat)
    requires i < |a| && i < |b| && a[..i] == b[..i] && a[i] == b[i]
    ensures a[..i + 1] == b[..i + 1]
  {
    assert a[..i + 1] == a[..i] + [a[i]] && b[..i + 1] == b[..i] + [b[i]];
  }

  /** There is at most one endpoint to try next. */
  lemma NextIsUnique(candidates: seq<Endpoint>, q: Query, trace: seq<Endpoint>, e: Endpoint, f: Endpoint)
    requires IsNext(candidates, q, trace, e) && IsNext(candidates, q, trace, f)
    ensures e == f
  {
    if e != f {
      BeforeIsStrict(e.path, f.path);
    }
  }

  /** An outcome whose attempts were all lost leaves no endpoint to go on with. */
  lemma StoppedForGood(candidates: seq<Endpoint>, q: Query, net: string -> Attempt, t: seq<Endpoint>, r: PoolResult, e: Endpoint)
    requires 0 <= q.now && 0 <= q.maxAge
    requires Reported(candidates, q, net, t, r) && AllLost(t, net)
    ensures !IsNext(candidates, q, t, e)
  {
    if t != [] {
      assert net(t[|t| - 1].endpointId) == Lost;
    }
  }

  lemma LostSoFar(candidates: seq<Endpoint>, q: Query, net: string -> Attempt, t: seq<Endpoint>, r: PoolResult, n: nat)
    requires Reported(candidates, q, net, t, r) && n < |t|
    ensures AllLost(t[..n], net)
  {
    forall i | 0 <= i < n
      ensures net(t[..n][i].endpointId) == Lost
    {
      assert t[..|t| - 1][i] == t[i];
    }
  }

  /** Of two outcomes that start alike, neither goes on where the other stopped. */
  lemma NoLonger(candidates: seq<Endpoint>, q: Query, net: string -> Attempt,
                 t1: seq<Endpoint>, r1: PoolResult, t2: seq<Endpoint>, r2: PoolResult)
    requires 0 <= q.now && 0 <= q.maxAge
    requires Reported(candidates, q, net, t1, r1) && Reported(candidates, q, net, t2, r2) && Attempts(candidates, q, t2)
    requires |t1| <= |t2| && t2[..|t1|] == t1
    ensures t1 == t2
  {
    if |t1| < |t2| {
      LostSoFar(candidates, q, net, t2, r2, |t1|);
      assert IsNext(candidates, q, t2[..|t1|], t2[|t1|]);
      StoppedForGood(candidates, q, net, t1, r1, t2[|t1|]);
    }
  }
}
