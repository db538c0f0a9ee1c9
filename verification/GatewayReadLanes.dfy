/** The gateway's logical read lanes: one client-visible lane mirrored as real lanes on several
    endpoints, with a fence per endpoint session.

    Every operation runs under the lane mutex from its lookup to its end, so each is one step;
    the list of paths it works on was taken earlier and may be out of date. `newest` is the
    history: the last mirror each endpoint issued for each lane. */
module GatewayReadLanes {

  import opened Outcomes
  import opened GatewayPaths
  import LogicalFences

  datatype Mirror = Mirror(sessionId: string, fence: int)

  datatype ReadLane = ReadLane(taskId: string, claims: string, fence: int, expiresAt: int, mirrors: map<string, Mirror>)

  /** A remote answer to lane.open: no answer, a refusal, or success with the fence it carries. */
  datatype OpenReply = OpenLost | OpenRefused | OpenAccepted(fence: Option<int>)

  /** A remote answer to any other request. */
  datatype Reply = Lost | Refused | Accepted(payload: string)

  datatype LaneError = InvalidArgument | AlreadyActive | FencesExhausted | NotFound | StaleFence | Expired
                     | OpenRejected | InvalidRemoteFence | NoPathAnswered | CloseIncomplete

  /** A read as it was sent: on which session, with which fence, and the newest mirror the
      endpoint had issued for the lane at that moment. */
  datatype ReadSent = ReadSent(lane: string, endpoint: string, session: Session, fence: int, newest: Mirror)

  /** The read carries the fence that the session it is sent on issued for the lane, and that
      fence is the newest one. */
  predicate Justified(r: ReadSent) {
    r.newest == Mirror(r.session.sessionId, r.fence)
  }

  type Newest = map<(string, string), Mirror>

  /** Every recorded mirror is the newest its endpoint issued for the lane. */
  ghost predicate MirrorsCurrent(lanes: map<string, ReadLane>, newest: Newest) {
    forall id, e :: id in lanes && e in lanes[id].mirrors ==> (id, e) in newest && newest[(id, e)] == lanes[id].mirrors[e]
  }

  /** The path per endpoint; a later entry replaces an earlier one. */
  function ById(paths: seq<LivePath>): map<string, LivePath> {
    if paths == [] then map[] else
      var n := |paths| - 1;
      ById(paths[..n])[paths[n].endpoint.id := paths[n]]
  }

  /** The path that counts for an endpoint is the last one listed for it. */
  predicate LastFor(paths: seq<LivePath>, e: string, i: nat)
    requires i < |paths|
  {
    paths[i].endpoint.id == e && forall j :: i < j < |paths| ==> paths[j].endpoint.id != e
  }

  lemma {:induction false} ByIdIsLast(paths: seq<LivePath>, e: string)
    ensures e in ById(paths) <==> exists i :: 0 <= i < |paths| && LastFor(paths, e, i)
    ensures forall i :: 0 <= i < |paths| && LastFor(paths, e, i) ==> e in ById(paths) && ById(paths)[e] == paths[i]
  {
    if paths != [] {
      var n := |paths| - 1;
      ByIdIsLast(paths[..n], e);
      if paths[n].endpoint.id == e {
        assert LastFor(paths, e, n);
      } else {
        forall i | 0 <= i < n
          ensures LastFor(paths, e, i) <==> LastFor(paths[..n], e, i)
        {
          if LastFor(paths, e, i) {
            forall j | i < j < n
              ensures paths[..n][j].endpoint.id != e
            {
              assert paths[..n][j] == paths[j];
            }
          }
          if LastFor(paths[..n], e, i) {
            forall j | i < j < |paths|
              ensures paths[j].endpoint.id != e
            {
              assert j < n ==> paths[..n][j] == paths[j];
            }
          }
        }
      }
    }
  }

  /** A mirror counts as acknowledged exactly if its endpoint's path is on the very session that
      issued it and the answer there was yes. */
  lemma AcknowledgedIsExact(paths: seq<LivePath>, e: string, m: Mirror, reply: string -> Reply)
    ensures Acknowledged(ById(paths), e, m, reply) <==>
            exists i :: 0 <= i < |paths| && LastFor(paths, e, i) && paths[i].session.sessionId == m.sessionId && reply(e).Accepted?
  {
    ByIdIsLast(paths, e);
  }

  /** A mirror can be reached: its endpoint has a path on the session that issued it. */
  predicate Reachable(byId: map<string, LivePath>, endpoint: string, m: Mirror) {
    endpoint in byId && byId[endpoint].session.sessionId == m.sessionId
  }

  /** The mirror acknowledged a request on the session that issued it. */
  predicate Acknowledged(byId: map<string, LivePath>, endpoint: string, m: Mirror, reply: string -> Reply) {
    Reachable(byId, endpoint, m) && reply(endpoint).Accepted?
  }

  /** The mirrors that acknowledged a request. */
  function Acknowledging(mirrors: map<string, Mirror>, byId: map<string, LivePath>, reply: string -> Reply): map<string, Mirror> {
    map e | e in mirrors && Acknowledged(byId, e, mirrors[e], reply) :: mirrors[e]
  }

  /** The mirrors that did not. */
  function Unresolved(mirrors: map<string, Mirror>, byId: map<string, LivePath>, reply: string -> Reply): (r: map<string, Mirror>)
    ensures r == map[] <==> forall e <- mirrors :: Acknowledged(byId, e, mirrors[e], reply)
  {
    var r := map e | e in mirrors && !Acknowledged(byId, e, mirrors[e], reply) :: mirrors[e];
    assert forall e <- mirrors :: Acknowledged(byId, e, mirrors[e], reply) || e in r;
    r
  }

  /** A lane that a request with this fence may use now. */
  predicate Live(lanes: map<string, ReadLane>, laneId: string, fence: int, now: int) {
    laneId in lanes && lanes[laneId].fence == fence && now < lanes[laneId].expiresAt
  }

  ghost predicate SameOthers(now: map<string, ReadLane>, before: map<string, ReadLane>, laneId: string) {
    forall id :: id != laneId ==> (id in now <==> id in before) && (id in now ==> now[id] == before[id])
  }

  predicate SentOn(r: ReadSent, laneId: string, path: LivePath) {
    r.lane == laneId && r.endpoint == path.endpoint.id && r.session == path.session
  }

  /** The first endpoint that answers at all. */
  predicate FirstToAnswer(replies: seq<OpenReply>, k: nat)
    requires k < |replies|
  {
    replies[k] != OpenLost && forall j :: 0 <= j < k ==> replies[j] == OpenLost
  }

  /** The endpoint would issue a mirror. */
  predicate Grants(open: OpenReply) {
    open.OpenAccepted? && open.fence.Some? && open.fence.value >= 1
  }

  /** A read that was sent on one of the paths and lost. */
  ghost predicate LostOn(r: ReadSent, laneId: string, paths: seq<LivePath>, replies: seq<Reply>)
    requires |replies| == |paths|
  {
    exists j :: 0 <= j < |paths| && SentOn(r, laneId, paths[j]) && replies[j] == Lost
  }

  /** All reads sent since `before` were lost. */
  ghost predicate LostSince(before: seq<ReadSent>, after: seq<ReadSent>, laneId: string, paths: seq<LivePath>, replies: seq<Reply>)
    requires |replies| == |paths|
  {
    before <= after && forall k :: |before| <= k < |after| ==> LostOn(after[k], laneId, paths, replies)
  }

  /** The first `n` paths brought nothing: no answer, or no mirror to read through. */
  predicate PassedOver(opens: seq<OpenReply>, replies: seq<Reply>, n: nat)
    requires n <= |opens| == |replies|
  {
    forall j :: 0 <= j < n ==> replies[j] == Lost || !Grants(opens[j])
  }

  lemma LostAt(start: seq<ReadSent>, before: seq<ReadSent>, after: seq<ReadSent>, laneId: string, paths: seq<LivePath>, replies: seq<Reply>, i: nat)
    requires |replies| == |paths| && i < |paths| && LostSince(start, before, laneId, paths, replies)
    requires after == before || (SentOne(before, after, laneId, paths[i]) && replies[i] == Lost)
    ensures LostSince(start, after, laneId, paths, replies)
  {
    if after != before {
      assert LostOn(after[|before|], laneId, paths, replies);
    }
  }

  lemma AnsweredAt(start: seq<ReadSent>, before: seq<ReadSent>, after: seq<ReadSent>, laneId: string, paths: seq<LivePath>, replies: seq<Reply>, i: nat)
    requires |replies| == |paths| && i < |paths| && LostSince(start, before, laneId, paths, replies)
    requires SentOne(before, after, laneId, paths[i])
    ensures |after| > |start| && start <= after && LostSince(start, after[..|after| - 1], laneId, paths, replies)
    ensures SentOn(after[|after| - 1], laneId, paths[i])
  {
    assert after[..|after| - 1] == before;
  }

  ghost predicate SentOne(before: seq<ReadSent>, after: seq<ReadSent>, laneId: string, path: LivePath) {
    |after| == |before| + 1 && before <= after && SentOn(after[|before|], laneId, path)
  }

  class ReadLanes {
    const cache: PathCache
    var lanes: map<string, ReadLane>
    var epoch: int
    var next: nat
    ghost var newest: Newest
    ghost var sent: seq<ReadSent>

    ghost predicate Valid()
      reads this, cache
    {
      cache.Valid() && Recorded()
    }

    ghost predicate Recorded()
      reads this
    {
      && MirrorsCurrent(lanes, newest)
      && (forall r <- sent :: Justified(r))
      && next <= LogicalFences.MAX_COUNTER && (epoch == 0 || LogicalFences.IsEpoch(epoch))
      && (forall id <- lanes :: 1 <= lanes[id].fence <= LogicalFences.Token(epoch, next))
    }

    constructor (cache: PathCache, random: nat)
      requires cache.Valid()
      ensures Valid() && lanes == map[] && sent == [] && this.cache == cache
    {
      this.cache := cache;
      lanes, newest, sent := map[], map[], [];
      epoch, next := LogicalFences.NewEpoch(random), 0;
    }

    /** The lookup under the mutex; an expired lane is dropped on the way. */
    method Require(laneId: string, fence: int, now: int) returns (r: Result<ReadLane, LaneError>)
      requires Recorded()
      modifies this`lanes
      ensures Recorded()
      ensures r.Ok? <==> Live(old(lanes), laneId, fence, now)
      ensures r.Ok? ==> lanes == old(lanes) && r.value == old(lanes)[laneId]
      ensures r.Err? ==>
                && (r.error == NotFound <==> laneId !in old(lanes))
                && (r.error == Expired <==> laneId in old(lanes) && old(lanes)[laneId].fence == fence)
                && (r.error == Expired || r.error == NotFound || r.error == StaleFence)
                && lanes == if r.error == Expired then old(lanes) - {laneId} else old(lanes)
    {
      if laneId !in lanes {
        return Err(NotFound);
      }
      var lane := lanes[laneId];
      if lane.fence != fence {
        return Err(StaleFence);
      }
      if now >= lane.expiresAt {
        lanes := lanes - {laneId};
        return Err(Expired);
      }
      r := Ok(lane);
    }

    /** A new fence is larger than every fence in use, or there is none left. */
    method AllocateFence(random: nat) returns (r: Result<int, LaneError>)
      requires Recorded()
      modifies this`epoch, this`next
      ensures Recorded()
      ensures (epoch, next, if r.Ok? then Ok(r.value) else Err(())) == LogicalFences.Allocate(old(epoch), old(next), random)
      ensures r.Ok? <==> old(next) < LogicalFences.MAX_COUNTER
      ensures r.Ok? ==> forall id <- lanes :: lanes[id].fence < r.value
      ensures r.Ok? ==> 1 <= r.value == LogicalFences.Token(epoch, next)
    {
      if epoch == 0 {
        epoch := LogicalFences.NewEpoch(random);
      }
      if next >= LogicalFences.MAX_COUNTER {
        return Err(FencesExhausted);
      }
      next := next + 1;
      r := Ok(LogicalFences.Token(epoch, next));
    }

    /** Opening tries the paths in order and records the first endpoint that accepts; the lane
        exists only from then on. */
    method Open(paths: seq<LivePath>, laneId: string, taskId: string, claims: string, ttlMs: int, now: int, random: nat,
                replies: seq<OpenReply>)
      returns (r: Result<int, LaneError>)
      requires Valid() && |replies| == |paths|
      modifies this, cache
      ensures Valid() && sent == old(sent)
      ensures r.Err? ==> lanes == old(lanes)
      ensures r.Ok? <==>
                && laneId != "" && taskId != "" && ttlMs > 0 && (laneId in old(lanes) ==> old(lanes)[laneId].expiresAt <= now)
                && old(next) < LogicalFences.MAX_COUNTER
                && exists k :: 0 <= k < |paths| && FirstToAnswer(replies, k) && Grants(replies[k])
      ensures r.Ok? ==>
                && (forall id <- old(lanes) :: old(lanes)[id].fence < r.value)
                && exists k, f :: 0 <= k < |paths| && replies[k] == OpenAccepted(Some(f)) && f >= 1
                     && (forall j :: 0 <= j < k ==> replies[j] == OpenLost)
                     && lanes == old(lanes)[laneId := ReadLane(taskId, claims, r.value, now + ttlMs,
                                            map[paths[k].endpoint.id := Mirror(paths[k].session.sessionId, f)])]
    {
      if laneId == "" || taskId == "" || ttlMs <= 0 {
        return Err(InvalidArgument);
      }
      if laneId in lanes && now < lanes[laneId].expiresAt {
        return Err(AlreadyActive);
      }
      var fence := AllocateFence(random);
      if fence.Err? {
        return fence;
      }
      var k := FirstAnswer(paths, replies);
      if k == |paths| {
        return Err(NoPathAnswered);
      }
      if replies[k] == OpenRefused {
        return Err(OpenRejected);
      }
      if !Grants(replies[k]) {
        return Err(InvalidRemoteFence);
      }
      var mirror := Mirror(paths[k].session.sessionId, replies[k].fence.value);
      newest := newest[(laneId, paths[k].endpoint.id) := mirror];
      lanes := lanes[laneId := ReadLane(taskId, claims, fence.value, now + ttlMs, map[paths[k].endpoint.id := mirror])];
      r := fence;
    }

    /** Asks the paths in order until one answers; the sessions that do not are invalidated. */
    method FirstAnswer(paths: seq<LivePath>, replies: seq<OpenReply>) returns (k: nat)
      requires cache.Valid() && |replies| == |paths|
      modifies cache
      ensures cache.Valid() && k <= |paths| && (forall j :: 0 <= j < k ==> replies[j] == OpenLost)
      ensures k < |paths| ==> replies[k] != OpenLost
    {
      k := 0;
      while k < |paths| && replies[k] == OpenLost
        invariant k <= |paths| && cache.Valid() && forall j :: 0 <= j < k ==> replies[j] == OpenLost
      {
        cache.Invalidate(paths[k].session);
        k := k + 1;
      }
    }

    /** The fence to use on a path: the recorded mirror if its session is still the path's, a
        newly opened one otherwise. */
    method EnsureMirror(laneId: string, path: LivePath, now: int, reply: OpenReply) returns (r: Result<int, LaneError>)
      requires Valid() && laneId in lanes
      modifies this`lanes, this`newest, cache
      ensures Valid() && laneId in lanes
      ensures r.Err? ==> lanes == old(lanes) && newest == old(newest)
      ensures r.Ok? <==>
                || (path.endpoint.id in old(lanes)[laneId].mirrors
                    && old(lanes)[laneId].mirrors[path.endpoint.id].sessionId == path.session.sessionId)
                || (now < old(lanes)[laneId].expiresAt && Grants(reply))
      ensures r.Ok? ==>
                && lanes == old(lanes)[laneId := old(lanes)[laneId].(mirrors :=
                     old(lanes)[laneId].mirrors[path.endpoint.id := Mirror(path.session.sessionId, r.value)])]
                && (laneId, path.endpoint.id) in newest
                && newest[(laneId, path.endpoint.id)] == Mirror(path.session.sessionId, r.value)
    {
      var lane := lanes[laneId];
      var e := path.endpoint.id;
      if e in lane.mirrors && lane.mirrors[e].sessionId == path.session.sessionId {
        assert lane.mirrors == lane.mirrors[e := lane.mirrors[e]];
        return Ok(lane.mirrors[e].fence);
      }
      if lane.expiresAt - now <= 0 {
        return Err(Expired);
      }
      match reply
      case OpenLost =>
        cache.Invalidate(path.session);
        r := Err(NoPathAnswered);
      case OpenRefused => r := Err(OpenRejected);
      case OpenAccepted(remote) =>
        if remote.None? || remote.value < 1 {
          return Err(InvalidRemoteFence);
        }
        var mirror := Mirror(path.session.sessionId, remote.value);
        newest := newest[(laneId, e) := mirror];
        lanes := lanes[laneId := lane.(mirrors := lane.mirrors[e := mirror])];
        r := Ok(remote.value);
    }

    /** One path's turn in a read: nothing is sent if no fence could be had for it. */
    method ReadOn(laneId: string, path: LivePath, now: int, open: OpenReply, reply: Reply) returns (answer: Reply)
      requires Valid() && laneId in lanes
      modifies this`lanes, this`newest, this`sent, cache
      ensures Valid() && laneId in lanes && SameOthers(lanes, old(lanes), laneId)
      ensures lanes[laneId].expiresAt == old(lanes)[laneId].expiresAt
      ensures sent == old(sent) || SentOne(old(sent), sent, laneId, path)
      ensures answer != Lost ==> answer == reply && SentOne(old(sent), sent, laneId, path)
      ensures answer == Lost ==> reply == Lost || sent == old(sent)
      ensures sent == old(sent) && now < old(lanes)[laneId].expiresAt ==> !Grants(open)
    {
      answer := Lost;
      var remote := EnsureMirror(laneId, path, now, open);
      if remote.Ok? {
        sent := sent + [ReadSent(laneId, path.endpoint.id, path.session, remote.value, newest[(laneId, path.endpoint.id)])];
        answer := reply;
        if reply == Lost {
          cache.Invalidate(path.session);
        }
      }
    }

    /** A mirrored read. Each request it sends is recorded, and every one, over all operations
        ever performed, was justified when it was sent. The paths are tried in order: the answer is
        the first one given, all reads before it were lost, and a path was passed over without a
        read only if its endpoint would not open a mirror. */
    method Read(paths: seq<LivePath>, laneId: string, fence: int, now: int,
                opens: seq<OpenReply>, replies: seq<Reply>)
      returns (r: Result<Reply, LaneError>)
      requires Valid() && |opens| == |replies| == |paths|
      modifies this, cache
      ensures Valid() && old(sent) <= sent && SameOthers(lanes, old(lanes), laneId)
      ensures r.Ok? ==>
                && Live(old(lanes), laneId, fence, now) && r.value != Lost && |sent| > |old(sent)|
                && LostSince(old(sent), sent[..|sent| - 1], laneId, paths, replies)
                && exists i :: 0 <= i < |paths| && replies[i] == r.value && SentOn(sent[|sent| - 1], laneId, paths[i])
                               && PassedOver(opens, replies, i)
      ensures Live(old(lanes), laneId, fence, now) && r.Err? ==>
                LostSince(old(sent), sent, laneId, paths, replies) && PassedOver(opens, replies, |paths|)
      ensures !Live(old(lanes), laneId, fence, now) ==> r.Err? && sent == old(sent)
    {
      var found := Require(laneId, fence, now);
      if found.Err? {
        return Err(found.error);
      }
      r := ReadInOrder(paths, laneId, now, opens, replies);
    }

    /** Tries the paths in order on a live lane. */
    method ReadInOrder(paths: seq<LivePath>, laneId: string, now: int, opens: seq<OpenReply>, replies: seq<Reply>)
      returns (r: Result<Reply, LaneError>)
      requires Valid() && |opens| == |replies| == |paths| && laneId in lanes && now < lanes[laneId].expiresAt
      modifies this`lanes, this`newest, this`sent, cache
      ensures Valid() && old(sent) <= sent && SameOthers(lanes, old(lanes), laneId)
      ensures r.Ok? ==>
                && r.value != Lost && |sent| > |old(sent)| && LostSince(old(sent), sent[..|sent| - 1], laneId, paths, replies)
                && exists i :: 0 <= i < |paths| && replies[i] == r.value && SentOn(sent[|sent| - 1], laneId, paths[i])
                               && PassedOver(opens, replies, i)
      ensures r.Err? ==> LostSince(old(sent), sent, laneId, paths, replies) && PassedOver(opens, replies, |paths|)
    {
      var i := 0;
      while i < |paths|
        invariant 0 <= i <= |paths| && Valid() && laneId in lanes && now < lanes[laneId].expiresAt
        invariant SameOthers(lanes, old(lanes), laneId)
        invariant LostSince(old(sent), sent, laneId, paths, replies) && PassedOver(opens, replies, i)
      {
        ghost var before := sent;
        var answer := ReadOn(laneId, paths[i], now, opens[i], replies[i]);
        if answer != Lost {
          AnsweredAt(old(sent), before, sent, laneId, paths, replies, i);
          return Ok(answer);
        }
        LostAt(old(sent), before, sent, laneId, paths, replies, i);
        i := i + 1;
      }
      r := Err(NoPathAnswered);
    }

    /** Renewal extends the logical lane and keeps exactly the mirrors that could be reached on
        their own session and accepted it. */
    method Renew(paths: seq<LivePath>, laneId: string, fence: int, ttlMs: int, now: int, reply: string -> Reply)
      returns (r: Result<(), LaneError>)
      requires Valid()
      modifies this, cache
      ensures Valid() && sent == old(sent)
      ensures r.Ok? <==> ttlMs > 0 && Live(old(lanes), laneId, fence, now)
      ensures r.Ok? ==>
                lanes == old(lanes)[laneId := old(lanes)[laneId].(expiresAt := now + ttlMs,
                  mirrors := Acknowledging(old(lanes)[laneId].mirrors, ById(paths), reply))]
    {
      var byId := ById(paths);
      if ttlMs <= 0 {
        return Err(InvalidArgument);
      }
      var found := Require(laneId, fence, now);
      if found.Err? {
        return Err(found.error);
      }
      var mirrors := found.value.mirrors;
      var kept := KeepMirrors(mirrors, byId, reply);
      lanes := lanes[laneId := found.value.(expiresAt := now + ttlMs, mirrors := kept)];
      r := Ok(());
    }

    /** Visits the mirrors in any order and returns those that answered with success. */
    method KeepMirrors(mirrors: map<string, Mirror>, byId: map<string, LivePath>, reply: string -> Reply)
      returns (kept: map<string, Mirror>)
      requires cache.Valid()
      modifies cache
      ensures cache.Valid()
      ensures kept == Acknowledging(mirrors, byId, reply)
    {
      kept := mirrors;
      var remaining := mirrors.Keys;
      while remaining != {}
        invariant cache.Valid() && remaining <= mirrors.Keys
        invariant forall e :: e in kept <==> e in mirrors && (e in remaining || Acknowledged(byId, e, mirrors[e], reply))
        invariant forall e :: e in kept ==> kept[e] == mirrors[e]
      {
        var e :| e in remaining;
        if !Reachable(byId, e, mirrors[e]) {
          kept := kept - {e};
        } else if reply(e).Lost? {
          cache.Invalidate(byId[e].session);
          kept := kept - {e};
        } else if reply(e).Refused? {
          kept := kept - {e};
        }
        remaining := remaining - {e};
      }
    }

    /** Closing removes the lane only if every recorded mirror acknowledged the close on the
        session that issued it. Otherwise the lane stays, with the mirrors still to be closed. */
    method Close(ensured: Result<seq<LivePath>, ()>, laneId: string, fence: int, now: int, reply: string -> Reply)
      returns (r: Result<(), LaneError>)
      requires Valid()
      modifies this, cache
      ensures Valid() && sent == old(sent)
      ensures var byId := ById(if ensured.Ok? then ensured.value else []);
              if Live(old(lanes), laneId, fence, now) then
                var lane := old(lanes)[laneId];
                var left := Unresolved(lane.mirrors, byId, reply);
                && (r.Ok? <==> ensured.Ok? && left == map[])
                && lanes == if r.Ok? then old(lanes) - {laneId} else old(lanes)[laneId := lane.(mirrors := left)]
              else r.Err?
    {
      var byId := ById(if ensured.Ok? then ensured.value else []);
      var found := Require(laneId, fence, now);
      if found.Err? {
        return Err(found.error);
      }
      var left := CloseRecorded(laneId, byId, reply);
      if left != map[] || ensured.Err? {
        return Err(CloseIncomplete);
      }
      lanes := lanes - {laneId};
      r := Ok(());
    }

    /** The lane keeps the mirrors that are not known to be closed. */
    method CloseRecorded(laneId: string, byId: map<string, LivePath>, reply: string -> Reply) returns (left: map<string, Mirror>)
      requires Valid() && laneId in lanes
      modifies this`lanes, cache
      ensures Valid() && left == Unresolved(old(lanes)[laneId].mirrors, byId, reply)
      ensures lanes == old(lanes)[laneId := old(lanes)[laneId].(mirrors := left)]
    {
      left := CloseMirrors(lanes[laneId].mirrors, byId, reply);
      lanes := lanes[laneId := lanes[laneId].(mirrors := left)];
    }

    /** Visits the mirrors in any order and returns those that are not known to be closed. */
    method CloseMirrors(mirrors: map<string, Mirror>, byId: map<string, LivePath>, reply: string -> Reply)
      returns (left: map<string, Mirror>)
      requires cache.Valid()
      modifies cache
      ensures cache.Valid()
      ensures left == Unresolved(mirrors, byId, reply)
    {
      left := mirrors;
      var remaining := mirrors.Keys;
      while remaining != {}
        invariant cache.Valid() && remaining <= mirrors.Keys
        invariant forall e :: e in left <==> e in mirrors && (e in remaining || !Acknowledged(byId, e, mirrors[e], reply))
        invariant forall e :: e in left ==> left[e] == mirrors[e]
      {
        var e :| e in remaining;
        if Reachable(byId, e, mirrors[e]) {
          if reply(e).Lost? {
            cache.Invalidate(byId[e].session);
          } else if reply(e).Accepted? {
            left := left - {e};
          }
        }
        remaining := remaining - {e};
      }
    }
  }
}
