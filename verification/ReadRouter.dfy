/** The Python controller's mirrored read lanes, under every interleaving of its coroutines.

    A logical lane is an object with its own lock; the table maps lane ids to objects, and a
    coroutine may go on using an object that the table no longer names. Opening does not take
    the lock. Every `await` is a point where other coroutines run: waiting for the lock, for a
    mirror to be opened, for a read to be answered, for a mirror to be renewed or closed. */
module ReadRouter {

  import opened Outcomes
  import LogicalFences

  type ObjectId = nat
  type TaskId = nat

  datatype Mirror = Mirror(session: string, fence: int)

  /** A live endpoint and the session its channel belongs to, as one coroutine saw it. */
  datatype Endpoint = Endpoint(id: string, session: string)

  /** `opener` is the coroutine that is still opening the lane, if any. */
  datatype Lane = Lane(id: string, fence: nat, expiresAt: int, mirrors: map<string, Mirror>, opener: Option<TaskId>)

  datatype Operation = ReadOperation | RenewOperation(ttlMs: int) | CloseOperation

  datatype Phase =
    | Opening(todo: seq<Endpoint>)
    | OpenAsked(at: Endpoint, todo: seq<Endpoint>)
    | Waiting(operation: Operation, fence: int)
    | Reading(todo: seq<Endpoint>)
    | ReadAsked(at: Endpoint, todo: seq<Endpoint>)
    | ReadSent(at: Endpoint, todo: seq<Endpoint>)
    | Renewing(paths: map<string, string>, left: map<string, Mirror>)
    | Closing(paths: map<string, string>, left: map<string, Mirror>, close: Closure, unresolved: set<string>)

  /** A close: the mirrors recorded when it began, and whether the open had ended by then. */
  datatype Closure = Closure(had: map<string, Mirror>, afterOpen: bool)

  /** `lock` is the object whose lock the coroutine takes, `lane` the one it works on. */
  datatype Task = Task(lock: ObjectId, lane: ObjectId, phase: Phase)

  /** A read as it was sent, and the newest mirror its endpoint had issued for the lane by then. */
  datatype SentRead = SentRead(lane: ObjectId, endpoint: Endpoint, fence: int, newest: Option<Mirror>)

  type Newest = map<(ObjectId, string), Mirror>

  /** `epoch` and `lastFence` make the logical fences. History: `owners`, the lane each logical
      fence was given to; `newest`, the last mirror each endpoint issued for each lane; `sent`, the
      reads; `acked`, the closes of mirrors that were acknowledged; `closed`, the successful
      closes. */
  datatype State = State(now: int, epoch: nat, lastFence: nat, table: map<string, ObjectId>, lanes: map<ObjectId, Lane>,
                         owners: map<nat, ObjectId>, holders: map<ObjectId, TaskId>, tasks: map<TaskId, Task>,
                         newest: Newest, sent: seq<SentRead>,
                         acked: set<(ObjectId, string, Mirror)>, closed: map<ObjectId, Closure>)

  /** The remote side of a request. A timeout counts as lost. */
  datatype OpenReply = OpenLost | OpenRefused | OpenAccepted(fence: int)
  datatype Reply = Lost | Refused | Accepted

  datatype Event =
    | Open(task: TaskId, lane: ObjectId, laneId: string, ttlMs: int, paths: seq<Endpoint>)
    | Request(task: TaskId, laneId: string, fence: int, operation: Operation)
    | Acquire(task: TaskId, paths: seq<Endpoint>)
    | Try(task: TaskId)
    | OpenAnswer(task: TaskId, openReply: OpenReply)
    | ReadAnswer(task: TaskId, lost: bool)
    | Visit(task: TaskId, endpoint: string, reply: Reply)
    | Finish(task: TaskId)
    | Cancel(task: TaskId)
    | Tick(time: int)

  predicate Holding(p: Phase) {
    p.Reading? || p.ReadAsked? || p.ReadSent? || p.Renewing? || p.Closing?
  }

  predicate IsOpening(p: Phase) {
    p.Opening? || p.OpenAsked?
  }

  /** The objects that the table and the tasks name exist. */
  predicate Closed(s: State) {
    && (forall id <- s.table :: s.table[id] in s.lanes)
    && (forall t <- s.tasks :: s.tasks[t].lock in s.lanes && s.tasks[t].lane in s.lanes)
  }

  predicate Enabled(s: State, e: Event) {
    && Closed(s)
    && match e
       case Open(t, o, _, ttl, _) => t !in s.tasks && o !in s.lanes && ttl > 0
       case Request(t, _, _, _) => t !in s.tasks
       case Acquire(t, _) => t in s.tasks && s.tasks[t].phase.Waiting? && s.tasks[t].lock !in s.holders
       case Try(t) => t in s.tasks && (s.tasks[t].phase.Opening? || s.tasks[t].phase.Reading?)
       case OpenAnswer(t, _) => t in s.tasks && (s.tasks[t].phase.OpenAsked? || s.tasks[t].phase.ReadAsked?)
       case ReadAnswer(t, _) => t in s.tasks && s.tasks[t].phase.ReadSent?
       case Visit(t, e, _) => t in s.tasks && (s.tasks[t].phase.Renewing? || s.tasks[t].phase.Closing?) && e in s.tasks[t].phase.left
       case Finish(t) => t in s.tasks && (s.tasks[t].phase.Renewing? || s.tasks[t].phase.Closing?) && s.tasks[t].phase.left == map[]
       case Cancel(t) => t in s.tasks
       case Tick(_) => true
  }

  // ---- Steps ----

  /** No lane gets a fence. */
  ghost predicate SameFences(s: State, s': State) {
    s'.epoch == s.epoch && s'.lastFence == s.lastFence && s'.owners == s.owners
  }

  function At(s: State, t: TaskId, p: Phase): State
    requires t in s.tasks
  {
    s.(tasks := s.tasks[t := s.tasks[t].(phase := p)])
  }

  function Spawned(s: State, t: TaskId, task: Task): State {
    s.(tasks := s.tasks[t := task])
  }

  /** The coroutine ends; leaving the `async with` block frees the lock it holds. */
  function Ended(s: State, t: TaskId): State
    requires t in s.tasks
  {
    var task := s.tasks[t];
    s.(tasks := s.tasks - {t}, holders := if Holding(task.phase) then s.holders - {task.lock} else s.holders)
  }

  function WithLane(s: State, o: ObjectId, lane: Lane): State {
    s.(lanes := s.lanes[o := lane])
  }

  /** The open ends. If it failed, the table forgets the lane, if it still names this one. */
  function OpenEnds(s: State, t: TaskId, failed: bool): (r: State)
    requires Closed(s) && t in s.tasks
    ensures SameFences(s, r)
  {
    var o := s.tasks[t].lane;
    var id := s.lanes[o].id;
    var s1 := WithLane(Ended(s, t), o, s.lanes[o].(opener := None));
    if failed && id in s.table && s.table[id] == o then s1.(table := s.table - {id}) else s1
  }

  /** The lookup by id and fence. An expired lane is removed on the way. */
  function Require(s: State, laneId: string, fence: int): (State, Option<ObjectId>)
    requires Closed(s)
  {
    if laneId !in s.table || s.lanes[s.table[laneId]].fence != fence then (s, None)
    else if s.now >= s.lanes[s.table[laneId]].expiresAt then (s.(table := s.table - {laneId}), None)
    else (s, Some(s.table[laneId]))
  }

  /** An endpoint's mirror is good if the session that issued it is the endpoint's. */
  predicate Mirrored(lane: Lane, at: Endpoint) {
    at.id in lane.mirrors && lane.mirrors[at.id].session == at.session
  }

  /** The session has issued a mirror: it is recorded in the lane. */
  function Record(s: State, o: ObjectId, at: Endpoint, fence: int): (r: State)
    requires o in s.lanes
    ensures SameFences(s, r) && r.tasks == s.tasks && (Closed(s) ==> Closed(r))
  {
    WithLane(s, o, s.lanes[o].(mirrors := s.lanes[o].mirrors[at.id := Mirror(at.session, fence)]))
      .(newest := s.newest[(o, at.id) := Mirror(at.session, fence)])
  }

  function Sending(s: State, o: ObjectId, at: Endpoint, fence: int): SentRead {
    SentRead(o, at, fence, if (o, at.id) in s.newest then Some(s.newest[(o, at.id)]) else None)
  }

  /** The read goes out on the endpoint's channel. */
  function Send(s: State, t: TaskId, at: Endpoint, todo: seq<Endpoint>, fence: int): State
    requires t in s.tasks
  {
    At(s, t, ReadSent(at, todo)).(sent := s.sent + [Sending(s, s.tasks[t].lane, at, fence)])
  }

  function SessionsById(paths: seq<Endpoint>): map<string, string> {
    if paths == [] then map[] else
      var n := |paths| - 1;
      SessionsById(paths[..n])[paths[n].id := paths[n].session]
  }

  /** With the lock held: what the operation does first. A renewal for no time raises, and has
      nothing left to do but to free the lock. */
  function Started(s: State, t: TaskId, operation: Operation, paths: seq<Endpoint>): (r: State)
    requires Closed(s) && t in s.tasks
    ensures SameFences(s, r) && r.sent == s.sent
  {
    var o := s.tasks[t].lane;
    match operation
    case ReadOperation => At(s, t, Reading(paths))
    case RenewOperation(ttl) =>
      if ttl <= 0 then At(s, t, Reading([]))
      else At(WithLane(s, o, s.lanes[o].(expiresAt := s.now + ttl)), t, Renewing(SessionsById(paths), s.lanes[o].mirrors))
    case CloseOperation =>
      At(s, t, Closing(SessionsById(paths), s.lanes[o].mirrors, Closure(s.lanes[o].mirrors, s.lanes[o].opener.None?), {}))
  }

  function Tried(s: State, t: TaskId): (r: State)
    requires Closed(s) && t in s.tasks && (s.tasks[t].phase.Opening? || s.tasks[t].phase.Reading?)
    ensures SameFences(s, r)
  {
    var Task(_, o, phase) := s.tasks[t];
    var lane := s.lanes[o];
    if phase.todo == [] || (!Mirrored(lane, phase.todo[0]) && lane.expiresAt <= s.now) then
      if phase.Opening? then OpenEnds(s, t, true) else Ended(s, t)
    else
      var at, todo := phase.todo[0], phase.todo[1..];
      if phase.Opening? then
        if Mirrored(lane, at) then OpenEnds(s, t, false) else At(s, t, OpenAsked(at, todo))
      else
        if Mirrored(lane, at) then Send(s, t, at, todo, lane.mirrors[at.id].fence) else At(s, t, ReadAsked(at, todo))
  }

  function OpenAnswered(s: State, t: TaskId, reply: OpenReply): (r: State)
    requires Closed(s) && t in s.tasks && (s.tasks[t].phase.OpenAsked? || s.tasks[t].phase.ReadAsked?)
    ensures SameFences(s, r)
  {
    var Task(_, o, phase) := s.tasks[t];
    match reply
    case OpenLost => At(s, t, if phase.OpenAsked? then Opening(phase.todo) else Reading(phase.todo))
    case OpenRefused => if phase.OpenAsked? then OpenEnds(s, t, true) else Ended(s, t)
    case OpenAccepted(fence) =>
      var s1 := Record(s, o, phase.at, fence);
      if phase.OpenAsked? then OpenEnds(s1, t, false) else Send(s1, t, phase.at, phase.todo, fence)
  }

  function Dropped(s: State, o: ObjectId, e: string): State
    requires o in s.lanes
  {
    WithLane(s, o, s.lanes[o].(mirrors := s.lanes[o].mirrors - {e}))
  }

  /** The mirror's endpoint is still on the session that issued it, and said yes. */
  predicate Agreed(phase: Phase, e: string, reply: Reply)
    requires (phase.Renewing? || phase.Closing?) && e in phase.left
  {
    e in phase.paths && phase.paths[e] == phase.left[e].session && reply.Accepted?
  }

  function RenewVisited(s: State, t: TaskId, e: string, reply: Reply): (r: State)
    requires Closed(s) && t in s.tasks && s.tasks[t].phase.Renewing? && e in s.tasks[t].phase.left
    ensures SameFences(s, r) && r.sent == s.sent
  {
    var Task(_, o, phase) := s.tasks[t];
    At(if Agreed(phase, e, reply) then s else Dropped(s, o, e), t, Renewing(phase.paths, phase.left - {e}))
  }

  function CloseVisited(s: State, t: TaskId, e: string, reply: Reply): (r: State)
    requires Closed(s) && t in s.tasks && s.tasks[t].phase.Closing? && e in s.tasks[t].phase.left
    ensures SameFences(s, r) && r.sent == s.sent
  {
    var Task(_, o, phase) := s.tasks[t];
    var Closing(paths, left, close, unresolved) := phase;
    if Agreed(phase, e, reply)
    then At(Dropped(s, o, e), t, Closing(paths, left - {e}, close, unresolved)).(acked := s.acked + {(o, e, left[e])})
    else At(s, t, Closing(paths, left - {e}, close, unresolved + {e}))
  }

  function Visited(s: State, t: TaskId, e: string, reply: Reply): (r: State)
    requires Closed(s) && t in s.tasks && (s.tasks[t].phase.Renewing? || s.tasks[t].phase.Closing?) && e in s.tasks[t].phase.left
    ensures SameFences(s, r) && r.sent == s.sent
  {
    if s.tasks[t].phase.Renewing? then RenewVisited(s, t, e, reply) else CloseVisited(s, t, e, reply)
  }

  function Finished(s: State, t: TaskId): (r: State)
    requires Closed(s) && t in s.tasks && (s.tasks[t].phase.Renewing? || s.tasks[t].phase.Closing?)
    ensures SameFences(s, r) && r.sent == s.sent
  {
    var Task(_, o, phase) := s.tasks[t];
    var s1 := Ended(s, t);
    if phase.Renewing? || phase.unresolved != {} then s1
    else
      var id := s.lanes[o].id;
      s1.(closed := s.closed[o := phase.close],
          table := if id in s.table && s.table[id] == o then s.table - {id} else s.table)
  }

  /** A new lane object. */
  function WithNewLane(s: State, o: ObjectId, lane: Lane): State {
    s.(table := s.table[lane.id := o], lastFence := s.lastFence + 1, owners := s.owners[lane.fence := o],
       lanes := s.lanes[o := lane])
  }

  /** The fence the next lane gets. */
  function NextFence(s: State): nat {
    LogicalFences.WideToken(s.epoch, s.lastFence + 1)
  }

  function Opened(s: State, t: TaskId, o: ObjectId, laneId: string, ttl: int, paths: seq<Endpoint>): State
    requires Closed(s)
  {
    if laneId in s.table && s.now < s.lanes[s.table[laneId]].expiresAt then s
    else Spawned(WithNewLane(s, o, Lane(laneId, NextFence(s), s.now + ttl, map[], Some(t))), t, Task(o, o, Opening(paths)))
  }

  function Requested(s: State, t: TaskId, laneId: string, fence: int, operation: Operation): (r: State)
    requires Closed(s)
    ensures SameFences(s, r) && r.sent == s.sent
  {
    var (s1, o) := Require(s, laneId, fence);
    if o.None? then s1 else Spawned(s1, t, Task(o.value, o.value, Waiting(operation, fence)))
  }

  /** The lock is free: it is taken, and the lane looked up again. */
  function Acquired(s: State, t: TaskId, paths: seq<Endpoint>): (r: State)
    requires Closed(s) && t in s.tasks && s.tasks[t].phase.Waiting?
    ensures SameFences(s, r) && r.sent == s.sent
  {
    var Task(lock, o, Waiting(operation, fence)) := s.tasks[t];
    var (s1, again) := Require(s, s.lanes[o].id, fence);
    if again.None? then Ended(s1, t)
    else Started(s1.(holders := s1.holders[lock := t], tasks := s1.tasks[t := s.tasks[t].(lane := again.value)]), t, operation, paths)
  }

  function Apply(s: State, e: Event): State
    requires Enabled(s, e)
  {
    match e
    case Open(t, o, laneId, ttl, paths) => Opened(s, t, o, laneId, ttl, paths)
    case Request(t, laneId, fence, operation) => Requested(s, t, laneId, fence, operation)
    case Acquire(t, paths) => Acquired(s, t, paths)
    case Try(t) => Tried(s, t)
    case OpenAnswer(t, reply) => OpenAnswered(s, t, reply)
    case ReadAnswer(t, lost) => if lost then At(s, t, Reading(s.tasks[t].phase.todo)) else Ended(s, t)
    case Visit(t, endpoint, reply) => Visited(s, t, endpoint, reply)
    case Finish(t) => Finished(s, t)
    case Cancel(t) => if IsOpening(s.tasks[t].phase) then OpenEnds(s, t, false) else Ended(s, t)
    case Tick(time) => s.(now := time)
  }

  // ---- Invariant ----

  /** Every recorded mirror is the newest its endpoint issued for this lane. */
  ghost predicate LaneOk(s: State, o: ObjectId)
    requires o in s.lanes
  {
    var lane := s.lanes[o];
    && lane.fence in s.owners && s.owners[lane.fence] == o
    && (forall e <- lane.mirrors :: (o, e) in s.newest && s.newest[(o, e)] == lane.mirrors[e])
  }

  /** A close in progress: what it began with is still to be visited, failed or acknowledged; and
      if the open had ended, nothing else is recorded. */
  ghost predicate CloseOk(s: State, o: ObjectId, p: Phase)
    requires p.Closing? && o in s.lanes
  {
    && (forall e <- p.left :: e in p.close.had && p.left[e] == p.close.had[e])
    && (forall e <- p.close.had :: e in p.left || e in p.unresolved || (o, e, p.close.had[e]) in s.acked)
    && (p.close.afterOpen ==> s.lanes[o].opener.None? && forall e <- s.lanes[o].mirrors :: e in p.left || e in p.unresolved)
  }

  /** A coroutine inside the lock works on the object whose lock it holds. */
  ghost predicate TaskOk(s: State, t: TaskId)
    requires t in s.tasks && s.tasks[t].lane in s.lanes
  {
    var Task(lock, o, p) := s.tasks[t];
    && lock == o
    && (Holding(p) ==> o in s.holders && s.holders[o] == t && o !in s.closed)
    && (p.Waiting? ==> s.lanes[o].fence == p.fence)
    && (IsOpening(p) ==> s.lanes[o].opener == Some(t))
    && (p.Closing? ==> CloseOk(s, o, p))
  }

  /** The read carries the fence that the session it is sent on issued for the lane, and that
      fence is the newest one its endpoint issued for it. */
  predicate Justified(r: SentRead) {
    r.newest == Some(Mirror(r.endpoint.session, r.fence))
  }

  /** A closed lane: all the mirrors its close began with acknowledged it; if the open had ended
      by then, none is left. */
  ghost predicate ClosedOk(s: State, o: ObjectId)
    requires o in s.closed
  {
    && o in s.lanes
    && (forall e <- s.closed[o].had :: (o, e, s.closed[o].had[e]) in s.acked)
    && (s.closed[o].afterOpen ==> s.lanes[o].opener.None? && s.lanes[o].mirrors == map[])
  }

  ghost predicate TableOk(s: State, id: string)
    requires id in s.table
  {
    s.table[id] in s.lanes && s.lanes[s.table[id]].id == id && s.table[id] !in s.closed
  }

  /** The clauses of the invariant. A proof names the one it needs. */
  datatype Clause = Tables | Lanes | Tasks | Reads | Closes

  ghost predicate Holds(s: State, clause: Clause)
    requires Closed(s)
  {
    match clause
    case Tables => forall id <- s.table :: TableOk(s, id)
    case Lanes => forall o <- s.lanes :: LaneOk(s, o)
    case Tasks => forall t <- s.tasks :: TaskOk(s, t)
    case Reads => forall r <- s.sent :: Justified(r)
    case Closes => forall o <- s.closed :: ClosedOk(s, o)
  }

  ghost predicate Inv(s: State) {
    Closed(s) && forall clause :: Holds(s, clause)
  }

  lemma TableInv(s: State, id: string)
    requires Inv(s) && id in s.table
    ensures TableOk(s, id)
  {
    assert Holds(s, Tables);
  }

  lemma LaneInv(s: State, o: ObjectId)
    requires Inv(s) && o in s.lanes
    ensures LaneOk(s, o)
  {
    assert Holds(s, Lanes);
  }

  lemma TaskInv(s: State, t: TaskId)
    requires Inv(s) && t in s.tasks
    ensures TaskOk(s, t)
  {
    assert Holds(s, Tasks);
  }

  lemma ReadInv(s: State, r: SentRead)
    requires Inv(s) && r in s.sent
    ensures Justified(r)
  {
    assert Holds(s, Reads);
  }

  lemma CloseInv(s: State, o: ObjectId)
    requires Inv(s) && o in s.closed
    ensures ClosedOk(s, o)
  {
    assert Holds(s, Closes);
  }

  lemma Establish(s: State)
    requires Closed(s)
    requires (forall id <- s.table :: TableOk(s, id)) && (forall o <- s.lanes :: LaneOk(s, o))
    requires (forall t <- s.tasks :: TaskOk(s, t)) && (forall r <- s.sent :: Justified(r))
    requires forall o <- s.closed :: ClosedOk(s, o)
    ensures Inv(s)
  {
    forall clause
      ensures Holds(s, clause)
    {
      match clause
      case Tables =>
      case Lanes =>
      case Tasks =>
      case Reads =>
      case Closes =>
    }
  }

  ghost predicate Initial(s: State) {
    s == State(s.now, s.epoch, 0, map[], map[], map[], map[], map[], map[], [], {}, map[])
  }

  /** What no step undoes. */
  datatype Legacy = History | Identities | Closures

  ghost predicate Preserved(s: State, s': State, legacy: Legacy) {
    match legacy
    case History =>
      && s.acked <= s'.acked && s.sent <= s'.sent && s.epoch == s'.epoch && s.lastFence <= s'.lastFence
      && s.newest.Keys <= s'.newest.Keys
    case Identities => forall o <- s.lanes :: o in s'.lanes && s'.lanes[o].id == s.lanes[o].id && s'.lanes[o].fence == s.lanes[o].fence
    case Closures => forall o <- s.closed :: o in s'.closed && s'.closed[o] == s.closed[o]
  }

  ghost predicate Grows(s: State, s': State) {
    forall legacy :: Preserved(s, s', legacy)
  }

  ghost predicate Good(s: State, s': State) {
    Inv(s') && Grows(s, s')
  }

  lemma Then(s: State, s1: State, s2: State)
    requires Good(s, s1) && Good(s1, s2)
    ensures Good(s, s2)
  {
    forall legacy
      ensures Preserved(s, s2, legacy)
    {
      assert Preserved(s, s1, legacy) && Preserved(s1, s2, legacy);
    }
  }

  /** Establishes what a small change has to show. */
  lemma Establishes(s: State, s': State)
    requires Closed(s')
    requires (forall id <- s'.table :: TableOk(s', id)) && (forall o <- s'.lanes :: LaneOk(s', o))
    requires (forall t <- s'.tasks :: TaskOk(s', t)) && (forall r <- s'.sent :: Justified(r))
    requires forall o <- s'.closed :: ClosedOk(s', o)
    requires Preserved(s, s', History) && Preserved(s, s', Identities) && Preserved(s, s', Closures)
    ensures Good(s, s')
  {
    Establish(s');
    forall legacy
      ensures Preserved(s, s', legacy)
    {
      match legacy
      case History =>
      case Identities =>
      case Closures =>
    }
  }

  lemma Stays(s: State)
    requires Inv(s)
    ensures Good(s, s)
  {
    forall t | t in s.tasks ensures TaskOk(s, t) { TaskInv(s, t); }
    SameLanes(s, s);
  }

  // ---- Small changes that keep the invariant ----

  /** A coroutine moves on. */
  lemma AtIsGood(s: State, t: TaskId, p: Phase)
    requires Inv(s) && t in s.tasks && TaskOk(At(s, t, p), t)
    ensures Good(s, At(s, t, p))
  {
    var s' := At(s, t, p);
    forall u | u in s'.tasks
      ensures TaskOk(s', u)
    {
      if u != t {
        TaskInv(s, u);
      }
    }
    SameLanes(s, s');
  }

  /** The parts of the invariant that look at neither tasks nor locks. */
  lemma SameLanes(s: State, s': State)
    requires Inv(s) && s'.lanes == s.lanes && s'.epoch == s.epoch && s'.lastFence == s.lastFence && s'.owners == s.owners
    requires s'.newest == s.newest && s'.acked == s.acked
    requires s'.closed == s.closed && s'.sent == s.sent && (forall id <- s'.table :: id in s.table && s'.table[id] == s.table[id])
    requires Closed(s') && forall t <- s'.tasks :: TaskOk(s', t)
    ensures Good(s, s')
  {
    forall id | id in s'.table ensures TableOk(s', id) { TableInv(s, id); }
    forall o | o in s'.lanes ensures LaneOk(s', o) { LaneInv(s, o); }
    forall o | o in s'.closed ensures ClosedOk(s', o) { CloseInv(s, o); }
    forall r | r in s'.sent ensures Justified(r) { ReadInv(s, r); }
    Establishes(s, s');
  }

  lemma EndedIsGood(s: State, t: TaskId)
    requires Inv(s) && t in s.tasks
    ensures Good(s, Ended(s, t))
  {
    var s' := Ended(s, t);
    TaskInv(s, t);
    forall u | u in s'.tasks
      ensures TaskOk(s', u)
    {
      TaskInv(s, u);
    }
    SameLanes(s, s');
  }

  lemma ForgetIsGood(s: State, id: string)
    requires Inv(s)
    ensures Good(s, s.(table := s.table - {id}))
  {
    var s' := s.(table := s.table - {id});
    forall u | u in s'.tasks
      ensures TaskOk(s', u)
    {
      TaskInv(s, u);
    }
    SameLanes(s, s');
  }

  /** A lane may take new mirrors: no close relies on its list. */
  ghost predicate MayRecord(s: State, o: ObjectId) {
    && (o in s.closed ==> !s.closed[o].afterOpen)
    && (forall t <- s.tasks :: s.tasks[t].lane == o && s.tasks[t].phase.Closing? ==> !s.tasks[t].phase.close.afterOpen)
  }

  lemma UserMayRecord(s: State, t: TaskId)
    requires Inv(s) && t in s.tasks
    requires var p := s.tasks[t].phase; IsOpening(p) || (Holding(p) && !p.Closing?)
    ensures MayRecord(s, s.tasks[t].lane)
  {
    var o := s.tasks[t].lane;
    TaskInv(s, t);
    if o in s.closed {
      CloseInv(s, o);
    }
    forall u | u in s.tasks && s.tasks[u].lane == o && s.tasks[u].phase.Closing?
      ensures !s.tasks[u].phase.close.afterOpen
    {
      TaskInv(s, u);
    }
  }

  lemma LaneChangeKeepsTask(s: State, o: ObjectId, lane: Lane, u: TaskId)
    requires u in s.tasks && s.tasks[u].lane in s.lanes && TaskOk(s, u) && o in s.lanes
    requires lane.id == s.lanes[o].id && lane.fence == s.lanes[o].fence
    requires lane.mirrors.Keys <= s.lanes[o].mirrors.Keys || MayRecord(s, o)
    requires lane.opener == s.lanes[o].opener || (lane.opener.None? && (IsOpening(s.tasks[u].phase) ==> s.tasks[u].lane != o))
    ensures TaskOk(WithLane(s, o, lane), u)
  {
  }

  lemma LaneChangeKeepsClosed(s: State, o: ObjectId, lane: Lane, p: ObjectId)
    requires p in s.closed && ClosedOk(s, p) && o in s.lanes
    requires lane.mirrors.Keys <= s.lanes[o].mirrors.Keys || MayRecord(s, o)
    requires lane.opener == s.lanes[o].opener || lane.opener.None?
    ensures ClosedOk(WithLane(s, o, lane), p)
  {
  }

  /** A lane object changes: its time, its mirrors, or the end of its open. */
  lemma LaneChangeIsGood(s: State, o: ObjectId, lane: Lane)
    requires Inv(s) && o in s.lanes && lane.id == s.lanes[o].id && lane.fence == s.lanes[o].fence
    requires LaneOk(WithLane(s, o, lane), o)
    requires lane.mirrors.Keys <= s.lanes[o].mirrors.Keys || MayRecord(s, o)
    requires lane.opener == s.lanes[o].opener
          || (lane.opener.None? && forall t <- s.tasks :: IsOpening(s.tasks[t].phase) ==> s.tasks[t].lane != o)
    ensures Good(s, WithLane(s, o, lane))
  {
    var s' := WithLane(s, o, lane);
    forall id | id in s'.table ensures TableOk(s', id) { TableInv(s, id); }
    forall p | p in s'.lanes ensures LaneOk(s', p) {
      if p != o {
        LaneInv(s, p);
      }
    }
    forall p | p in s'.closed ensures ClosedOk(s', p) {
      CloseInv(s, p);
      LaneChangeKeepsClosed(s, o, lane, p);
    }
    forall u | u in s'.tasks ensures TaskOk(s', u) {
      TaskInv(s, u);
      LaneChangeKeepsTask(s, o, lane, u);
    }
    forall r | r in s'.sent ensures Justified(r) { ReadInv(s, r); }
    Establishes(s, s');
  }

  /** More reads sent, more closes acknowledged. */
  lemma HistoryIsGood(s: State, s': State)
    requires Inv(s) && s' == s.(acked := s'.acked, sent := s'.sent)
    requires s.acked <= s'.acked && s.sent <= s'.sent
    requires forall r <- s'.sent :: r in s.sent || Justified(r)
    ensures Good(s, s')
  {
    forall id | id in s'.table ensures TableOk(s', id) { TableInv(s, id); }
    forall o | o in s'.lanes ensures LaneOk(s', o) { LaneInv(s, o); }
    forall o | o in s'.closed ensures ClosedOk(s', o) { CloseInv(s, o); }
    forall u | u in s'.tasks ensures TaskOk(s', u) { TaskInv(s, u); }
    forall r | r in s'.sent ensures Justified(r) {
      if r in s.sent {
        ReadInv(s, r);
      }
    }
    Establishes(s, s');
  }

  // ---- The steps ----

  lemma OpenEndsIsGood(s: State, t: TaskId, failed: bool)
    requires Inv(s) && t in s.tasks && IsOpening(s.tasks[t].phase)
    ensures Good(s, OpenEnds(s, t, failed))
  {
    var o := s.tasks[t].lane;
    var s1 := Ended(s, t);
    EndedIsGood(s, t);
    TaskInv(s, t);
    forall u | u in s1.tasks && IsOpening(s1.tasks[u].phase)
      ensures s1.tasks[u].lane != o
    {
      TaskInv(s, u);
    }
    var s2 := WithLane(s1, o, s.lanes[o].(opener := None));
    LaneInv(s1, o);
    LaneChangeIsGood(s1, o, s.lanes[o].(opener := None));
    Then(s, s1, s2);
    ForgetIsGood(s2, s.lanes[o].id);
    Then(s, s2, s2.(table := s2.table - {s.lanes[o].id}));
  }

  /** An endpoint issues a mirror for a lane that has none recorded for it. */
  lemma NewestIsGood(s: State, o: ObjectId, e: string, m: Mirror)
    requires Inv(s) && o in s.lanes && e !in s.lanes[o].mirrors
    ensures Good(s, s.(newest := s.newest[(o, e) := m]))
  {
    var s' := s.(newest := s.newest[(o, e) := m]);
    forall id | id in s'.table ensures TableOk(s', id) { TableInv(s, id); }
    forall p | p in s'.lanes ensures LaneOk(s', p) { LaneInv(s, p); }
    forall p | p in s'.closed ensures ClosedOk(s', p) { CloseInv(s, p); }
    forall u | u in s'.tasks ensures TaskOk(s', u) { TaskInv(s, u); }
    forall r | r in s'.sent ensures Justified(r) { ReadInv(s, r); }
    Establishes(s, s');
  }

  /** Recording: the old mirror goes, the history is written, the new mirror comes. */
  lemma RecordIsGood(s: State, o: ObjectId, at: Endpoint, fence: int)
    requires Inv(s) && o in s.lanes && MayRecord(s, o)
    ensures Good(s, Record(s, o, at, fence))
  {
    var m := Mirror(at.session, fence);
    var s1 := RecordStarts(s, o, at, m);
    NewMirrorIsGood(s1, o, at.id, m);
    Then(s, s1, Record(s, o, at, fence));
  }

  lemma RecordStarts(s: State, o: ObjectId, at: Endpoint, m: Mirror) returns (s2: State)
    requires Inv(s) && o in s.lanes && MayRecord(s, o) && m.session == at.session
    ensures Good(s, s2) && o in s2.lanes && MayRecord(s2, o) && (o, at.id) in s2.newest && s2.newest[(o, at.id)] == m
    ensures WithLane(s2, o, s2.lanes[o].(mirrors := s2.lanes[o].mirrors[at.id := m])) == Record(s, o, at, m.fence)
  {
    var s1 := Dropped(s, o, at.id);
    s2 := s1.(newest := s.newest[(o, at.id) := m]);
    assert s2.lanes[o].mirrors[at.id := m] == s.lanes[o].mirrors[at.id := m];
    assert WithLane(s2, o, s2.lanes[o].(mirrors := s2.lanes[o].mirrors[at.id := m])) == Record(s, o, at, m.fence);
    DroppedIsGood(s, o, at.id);
    NewestIsGood(s1, o, at.id, m);
    Then(s, s1, s2);
  }

  lemma NewMirrorIsGood(s: State, o: ObjectId, e: string, m: Mirror)
    requires Inv(s) && o in s.lanes && MayRecord(s, o) && (o, e) in s.newest && s.newest[(o, e)] == m
    ensures Good(s, WithLane(s, o, s.lanes[o].(mirrors := s.lanes[o].mirrors[e := m])))
  {
    LaneInv(s, o);
    LaneChangeIsGood(s, o, s.lanes[o].(mirrors := s.lanes[o].mirrors[e := m]));
  }

  lemma SendIsGood(s: State, t: TaskId, at: Endpoint, todo: seq<Endpoint>, fence: int)
    requires Inv(s) && t in s.tasks && (s.tasks[t].phase.Reading? || s.tasks[t].phase.ReadAsked?)
    requires Justified(Sending(s, s.tasks[t].lane, at, fence))
    ensures Good(s, Send(s, t, at, todo, fence))
  {
    TaskInv(s, t);
    var s1 := At(s, t, ReadSent(at, todo));
    AtIsGood(s, t, ReadSent(at, todo));
    HistoryIsGood(s1, Send(s, t, at, todo, fence));
    Then(s, s1, Send(s, t, at, todo, fence));
  }

  lemma TriedIsGood(s: State, t: TaskId)
    requires Inv(s) && t in s.tasks && (s.tasks[t].phase.Opening? || s.tasks[t].phase.Reading?)
    ensures Good(s, Tried(s, t))
  {
    var Task(_, o, phase) := s.tasks[t];
    var lane := s.lanes[o];
    TaskInv(s, t);
    LaneInv(s, o);
    if phase.todo == [] || (!Mirrored(lane, phase.todo[0]) && lane.expiresAt <= s.now) {
      if phase.Opening? { OpenEndsIsGood(s, t, true); } else { EndedIsGood(s, t); }
    } else {
      var at, todo := phase.todo[0], phase.todo[1..];
      if phase.Opening? {
        if Mirrored(lane, at) { OpenEndsIsGood(s, t, false); } else { AtIsGood(s, t, OpenAsked(at, todo)); }
      } else {
        if Mirrored(lane, at) { SendIsGood(s, t, at, todo, lane.mirrors[at.id].fence); } else { AtIsGood(s, t, ReadAsked(at, todo)); }
      }
    }
  }

  lemma OpenAnsweredIsGood(s: State, t: TaskId, reply: OpenReply)
    requires Inv(s) && t in s.tasks && (s.tasks[t].phase.OpenAsked? || s.tasks[t].phase.ReadAsked?)
    ensures Good(s, OpenAnswered(s, t, reply))
  {
    var Task(_, o, phase) := s.tasks[t];
    TaskInv(s, t);
    match reply
    case OpenLost => AtIsGood(s, t, if phase.OpenAsked? then Opening(phase.todo) else Reading(phase.todo));
    case OpenRefused => if phase.OpenAsked? { OpenEndsIsGood(s, t, true); } else { EndedIsGood(s, t); }
    case OpenAccepted(fence) =>
      var s1 := Record(s, o, phase.at, fence);
      UserMayRecord(s, t);
      RecordIsGood(s, o, phase.at, fence);
      if phase.OpenAsked? {
        OpenEndsIsGood(s1, t, false);
      } else {
        SendIsGood(s1, t, phase.at, phase.todo, fence);
      }
      Then(s, s1, OpenAnswered(s, t, reply));
  }

  lemma DroppedIsGood(s: State, o: ObjectId, e: string)
    requires Inv(s) && o in s.lanes
    ensures Good(s, Dropped(s, o, e))
  {
    LaneInv(s, o);
    LaneChangeIsGood(s, o, s.lanes[o].(mirrors := s.lanes[o].mirrors - {e}));
  }

  lemma VisitedIsGood(s: State, t: TaskId, e: string, reply: Reply)
    requires Inv(s) && t in s.tasks && (s.tasks[t].phase.Renewing? || s.tasks[t].phase.Closing?) && e in s.tasks[t].phase.left
    ensures Good(s, Visited(s, t, e, reply))
  {
    var phase := s.tasks[t].phase;
    if phase.Renewing? {
      RenewVisitIsGood(s, t, e, reply);
    } else if Agreed(phase, e, reply) {
      AcknowledgedIsGood(s, t, e);
    } else {
      TaskInv(s, t);
      AtIsGood(s, t, Closing(phase.paths, phase.left - {e}, phase.close, phase.unresolved + {e}));
    }
  }

  lemma RenewVisitIsGood(s: State, t: TaskId, e: string, reply: Reply)
    requires Inv(s) && t in s.tasks && s.tasks[t].phase.Renewing? && e in s.tasks[t].phase.left
    ensures Good(s, Visited(s, t, e, reply))
  {
    var Task(_, o, phase) := s.tasks[t];
    var p := Renewing(phase.paths, phase.left - {e});
    TaskInv(s, t);
    AtIsGood(s, t, p);
    DroppedIsGood(At(s, t, p), o, e);
    Then(s, At(s, t, p), Dropped(At(s, t, p), o, e));
  }

  /** A mirror has acknowledged the close. */
  lemma AcknowledgedIsGood(s: State, t: TaskId, e: string)
    requires Inv(s) && t in s.tasks && s.tasks[t].phase.Closing? && e in s.tasks[t].phase.left
    ensures var Task(_, o, Closing(paths, left, close, unresolved)) := s.tasks[t];
            Good(s, At(Dropped(s, o, e), t, Closing(paths, left - {e}, close, unresolved)).(acked := s.acked + {(o, e, left[e])}))
  {
    var Task(_, o, Closing(paths, left, close, unresolved)) := s.tasks[t];
    var s1 := s.(acked := s.acked + {(o, e, left[e])});
    var s2 := Dropped(s1, o, e);
    HistoryIsGood(s, s1);
    DroppedIsGood(s1, o, e);
    Then(s, s1, s2);
    TaskInv(s2, t);
    AcknowledgedTask(s2, t, e);
    AtIsGood(s2, t, Closing(paths, left - {e}, close, unresolved));
    Then(s, s2, At(s2, t, Closing(paths, left - {e}, close, unresolved)));
  }

  lemma AcknowledgedTask(s: State, t: TaskId, e: string)
    requires t in s.tasks && s.tasks[t].lane in s.lanes && TaskOk(s, t) && s.tasks[t].phase.Closing? && e in s.tasks[t].phase.left
    requires (s.tasks[t].lane, e, s.tasks[t].phase.left[e]) in s.acked && e !in s.lanes[s.tasks[t].lane].mirrors
    ensures var Closing(paths, left, close, unresolved) := s.tasks[t].phase;
            TaskOk(At(s, t, Closing(paths, left - {e}, close, unresolved)), t)
  {
  }

  lemma ClosureKeepsTask(s: State, o: ObjectId, close: Closure, u: TaskId)
    requires u in s.tasks && s.tasks[u].lane in s.lanes && TaskOk(s, u) && (Holding(s.tasks[u].phase) ==> s.tasks[u].lane != o)
    ensures TaskOk(s.(closed := s.closed[o := close]), u)
  {
  }

  /** A lane that no table entry and no lock holder uses any more counts as closed. */
  lemma ClosureIsGood(s: State, o: ObjectId, close: Closure)
    requires Inv(s) && o in s.lanes && o !in s.closed
    requires (forall id <- s.table :: s.table[id] != o) && (forall t <- s.tasks :: Holding(s.tasks[t].phase) ==> s.tasks[t].lane != o)
    requires forall e <- close.had :: (o, e, close.had[e]) in s.acked
    requires close.afterOpen ==> s.lanes[o].opener.None? && s.lanes[o].mirrors == map[]
    ensures Good(s, s.(closed := s.closed[o := close]))
  {
    var s' := s.(closed := s.closed[o := close]);
    forall id | id in s'.table ensures TableOk(s', id) { TableInv(s, id); }
    forall p | p in s'.lanes ensures LaneOk(s', p) { LaneInv(s, p); }
    forall p | p in s'.closed ensures ClosedOk(s', p) {
      if p != o {
        CloseInv(s, p);
      }
    }
    forall u | u in s'.tasks ensures TaskOk(s', u) {
      TaskInv(s, u);
      ClosureKeepsTask(s, o, close, u);
    }
    forall r | r in s'.sent ensures Justified(r) { ReadInv(s, r); }
    Establishes(s, s');
  }

  lemma FinishedIsGood(s: State, t: TaskId)
    requires Inv(s) && t in s.tasks && (s.tasks[t].phase.Renewing? || s.tasks[t].phase.Closing?) && s.tasks[t].phase.left == map[]
    ensures Good(s, Finished(s, t))
  {
    var Task(_, o, phase) := s.tasks[t];
    var s1 := Ended(s, t);
    EndedIsGood(s, t);
    TaskInv(s, t);
    if phase.Closing? && phase.unresolved == {} {
      var id := s.lanes[o].id;
      var s2 := if id in s.table && s.table[id] == o then s1.(table := s.table - {id}) else s1;
      ForgetIsGood(s1, id);
      Then(s, s1, s2);
      forall u | u in s2.tasks && Holding(s2.tasks[u].phase)
        ensures s2.tasks[u].lane != o
      {
        TaskInv(s, u);
      }
      forall i | i in s2.table
        ensures s2.table[i] != o
      {
        TableInv(s, i);
      }
      ClosureIsGood(s2, o, phase.close);
      Then(s, s2, Finished(s, t));
    }
  }

  /** Inside the lock of a lane that is not closed. */
  ghost predicate Entered(s: State, t: TaskId)
    requires t in s.tasks && s.tasks[t].lane in s.lanes
  {
    var Task(lock, o, phase) := s.tasks[t];
    phase.Waiting? && lock == o && o in s.holders && s.holders[o] == t && o !in s.closed
  }

  lemma EnteredTask(s: State, t: TaskId, p: Phase)
    requires t in s.tasks && s.tasks[t].lane in s.lanes && Entered(s, t)
    requires p.Reading? || p.Renewing? || (p.Closing? && CloseOk(s, s.tasks[t].lane, p))
    ensures TaskOk(At(s, t, p), t)
  {
  }

  /** With the lock taken, the first step of an operation. */
  lemma StartedIsGood(s: State, t: TaskId, operation: Operation, paths: seq<Endpoint>)
    requires Inv(s) && t in s.tasks && Entered(s, t)
    ensures Good(s, Started(s, t, operation, paths))
  {
    match operation
    case ReadOperation => ReadStartedIsGood(s, t, paths);
    case CloseOperation => CloseStartedIsGood(s, t, paths);
    case RenewOperation(ttl) => RenewStartedIsGood(s, t, ttl, paths);
  }

  lemma ReadStartedIsGood(s: State, t: TaskId, paths: seq<Endpoint>)
    requires Inv(s) && t in s.tasks && Entered(s, t)
    ensures Good(s, Started(s, t, ReadOperation, paths))
  {
    assert Started(s, t, ReadOperation, paths) == At(s, t, Reading(paths));
    EnteredTask(s, t, Reading(paths));
    AtIsGood(s, t, Reading(paths));
  }

  lemma RenewStartedIsGood(s: State, t: TaskId, ttl: int, paths: seq<Endpoint>)
    requires Inv(s) && t in s.tasks && Entered(s, t)
    ensures Good(s, Started(s, t, RenewOperation(ttl), paths))
  {
    var o := s.tasks[t].lane;
    var p := if ttl <= 0 then Reading([]) else Renewing(SessionsById(paths), s.lanes[o].mirrors);
    var expiresAt := if ttl <= 0 then s.lanes[o].expiresAt else s.now + ttl;
    SameLane(s, t, p);
    assert Started(s, t, RenewOperation(ttl), paths) == At(WithLane(s, o, s.lanes[o].(expiresAt := expiresAt)), t, p);
    EnteredTask(s, t, p);
    RenewBeginsIsGood(s, t, p, o, expiresAt);
  }

  lemma SameLane(s: State, t: TaskId, p: Phase)
    requires t in s.tasks && s.tasks[t].lane in s.lanes
    ensures var o := s.tasks[t].lane; At(WithLane(s, o, s.lanes[o].(expiresAt := s.lanes[o].expiresAt)), t, p) == At(s, t, p)
  {
    var o := s.tasks[t].lane;
    assert s.lanes[o := s.lanes[o]] == s.lanes;
  }

  lemma CloseStartedIsGood(s: State, t: TaskId, paths: seq<Endpoint>)
    requires Inv(s) && t in s.tasks && Entered(s, t)
    ensures Good(s, Started(s, t, CloseOperation, paths))
  {
    var lane := s.lanes[s.tasks[t].lane];
    var p := Closing(SessionsById(paths), lane.mirrors, Closure(lane.mirrors, lane.opener.None?), {});
    EnteredTask(s, t, p);
    AtIsGood(s, t, p);
  }

  lemma RenewBeginsIsGood(s: State, t: TaskId, p: Phase, o: ObjectId, expiresAt: int)
    requires Inv(s) && t in s.tasks && o in s.lanes && TaskOk(At(s, t, p), t)
    ensures Good(s, At(WithLane(s, o, s.lanes[o].(expiresAt := expiresAt)), t, p))
  {
    var s1 := At(s, t, p);
    AtIsGood(s, t, p);
    RenewedIsGood(s1, o, expiresAt);
    Then(s, s1, WithLane(s1, o, s.lanes[o].(expiresAt := expiresAt)));
  }

  lemma RenewedIsGood(s: State, o: ObjectId, expiresAt: int)
    requires Inv(s) && o in s.lanes
    ensures Good(s, WithLane(s, o, s.lanes[o].(expiresAt := expiresAt)))
  {
    LaneInv(s, o);
    LaneChangeIsGood(s, o, s.lanes[o].(expiresAt := expiresAt));
  }

  /** A waiting coroutine takes a free lock. */
  lemma Locked(s: State, t: TaskId) returns (s': State)
    requires Inv(s) && t in s.tasks && s.tasks[t].phase.Waiting? && s.tasks[t].lock !in s.holders
    ensures s' == s.(holders := s.holders[s.tasks[t].lock := t]) && Good(s, s')
  {
    s' := s.(holders := s.holders[s.tasks[t].lock := t]);
    TaskInv(s, t);
    forall u | u in s'.tasks
      ensures TaskOk(s', u)
    {
      TaskInv(s, u);
    }
    SameLanes(s, s');
  }

  /** The lane that is looked up again under the lock is the one whose lock was taken, because no
      two lanes ever get the same fence. */
  lemma SameLaneAgain(s: State, t: TaskId)
    requires Inv(s) && t in s.tasks && s.tasks[t].phase.Waiting?
    ensures var (s1, again) := Require(s, s.lanes[s.tasks[t].lane].id, s.tasks[t].phase.fence);
            && Good(s, s1) && s1.tasks == s.tasks && s1.holders == s.holders
            && (again.Some? ==> s1 == s && again.value == s.tasks[t].lane && again.value !in s.closed)
  {
    var id := s.lanes[s.tasks[t].lane].id;
    TaskInv(s, t);
    if id in s.table {
      TableInv(s, id);
      LaneInv(s, s.table[id]);
      LaneInv(s, s.tasks[t].lane);
    }
    ForgetIsGood(s, id);
    Stays(s);
  }

  lemma AcquireIsGood(s: State, t: TaskId, paths: seq<Endpoint>)
    requires Inv(s) && t in s.tasks && s.tasks[t].phase.Waiting? && s.tasks[t].lock !in s.holders
    ensures Good(s, Acquired(s, t, paths))
  {
    var Task(lock, o, Waiting(operation, fence)) := s.tasks[t];
    var (s1, again) := Require(s, s.lanes[o].id, fence);
    SameLaneAgain(s, t);
    if again.None? {
      EndedIsGood(s1, t);
      Then(s, s1, Ended(s1, t));
    } else {
      assert s.tasks[t := s.tasks[t].(lane := o)] == s.tasks;
      LockedAndStartedIsGood(s, t, operation, paths);
    }
  }

  lemma LockedAndStartedIsGood(s: State, t: TaskId, operation: Operation, paths: seq<Endpoint>)
    requires Inv(s) && t in s.tasks && s.tasks[t].phase.Waiting? && s.tasks[t].lock !in s.holders && s.tasks[t].lane !in s.closed
    ensures Good(s, Started(s.(holders := s.holders[s.tasks[t].lock := t]), t, operation, paths))
  {
    TaskInv(s, t);
    var s2 := Locked(s, t);
    StartedIsGood(s2, t, operation, paths);
    Then(s, s2, Started(s2, t, operation, paths));
  }

  /** A new coroutine. */
  lemma TaskIsGood(s: State, t: TaskId, task: Task)
    requires Inv(s) && t !in s.tasks && task.lock in s.lanes && task.lane in s.lanes
    requires TaskOk(Spawned(s, t, task), t)
    ensures Good(s, Spawned(s, t, task))
  {
    var s' := Spawned(s, t, task);
    forall u | u in s'.tasks
      ensures TaskOk(s', u)
    {
      if u != t {
        TaskInv(s, u);
      }
    }
    SameLanes(s, s');
  }

  lemma RequestIsGood(s: State, t: TaskId, laneId: string, fence: int, operation: Operation)
    requires Inv(s) && t !in s.tasks
    ensures Good(s, Requested(s, t, laneId, fence, operation))
  {
    var (s1, o) := Require(s, laneId, fence);
    ForgetIsGood(s, laneId);
    Stays(s);
    if o.Some? {
      TaskIsGood(s, t, Task(o.value, o.value, Waiting(operation, fence)));
    }
  }

  lemma NewLaneIsGood(s: State, o: ObjectId, lane: Lane)
    requires Inv(s) && o !in s.lanes && lane.fence !in s.owners && lane.mirrors == map[]
    ensures Good(s, WithNewLane(s, o, lane))
  {
    var s' := WithNewLane(s, o, lane);
    if o in s.closed {
      CloseInv(s, o);
    }
    forall id | id in s'.table ensures TableOk(s', id) {
      if id != lane.id {
        TableInv(s, id);
      }
    }
    forall p | p in s'.lanes ensures LaneOk(s', p) {
      if p != o {
        LaneInv(s, p);
      }
    }
    forall p | p in s'.closed ensures ClosedOk(s', p) { CloseInv(s, p); }
    forall u | u in s'.tasks ensures TaskOk(s', u) { TaskInv(s, u); }
    forall r | r in s'.sent ensures Justified(r) { ReadInv(s, r); }
    Establishes(s, s');
  }

  lemma OpenedIsGood(s: State, t: TaskId, o: ObjectId, lane: Lane, paths: seq<Endpoint>)
    requires Inv(s) && t !in s.tasks && o !in s.lanes
    requires lane.fence !in s.owners && lane.mirrors == map[] && lane.opener == Some(t)
    ensures Good(s, Spawned(WithNewLane(s, o, lane), t, Task(o, o, Opening(paths))))
  {
    var s1 := WithNewLane(s, o, lane);
    NewLaneIsGood(s, o, lane);
    TaskIsGood(s1, t, Task(o, o, Opening(paths)));
    Then(s, s1, Spawned(s1, t, Task(o, o, Opening(paths))));
  }

  lemma OpenIsGood(s: State, t: TaskId, o: ObjectId, laneId: string, ttl: int, paths: seq<Endpoint>)
    requires Inv(s) && t !in s.tasks && o !in s.lanes
    requires Opened(s, t, o, laneId, ttl, paths).lastFence > s.lastFence ==> NextFence(s) !in s.owners
    ensures Good(s, Opened(s, t, o, laneId, ttl, paths))
  {
    var s' := Opened(s, t, o, laneId, ttl, paths);
    if laneId in s.table && s.now < s.lanes[s.table[laneId]].expiresAt {
      assert s' == s;
      Stays(s);
    } else {
      var lane := Lane(laneId, NextFence(s), s.now + ttl, map[], Some(t));
      assert s' == Spawned(WithNewLane(s, o, lane), t, Task(o, o, Opening(paths)));
      OpenedIsGood(s, t, o, lane, paths);
    }
  }

  /** A lane that is opened gets a fence that no lane had before. */
  predicate Fresh(s: State, e: Event)
    requires Enabled(s, e)
  {
    Apply(s, e).lastFence > s.lastFence ==> NextFence(s) !in s.owners
  }

  /** Every step keeps the invariant, whatever coroutine takes it. */
  lemma StepIsGood(s: State, e: Event)
    requires Inv(s) && Enabled(s, e) && Fresh(s, e)
    ensures Good(s, Apply(s, e))
  {
    match e
    case Open(t, o, laneId, ttl, paths) => OpenIsGood(s, t, o, laneId, ttl, paths);
    case Request(t, laneId, fence, operation) => RequestIsGood(s, t, laneId, fence, operation);
    case Acquire(t, paths) => AcquireIsGood(s, t, paths);
    case Try(t) => TriedIsGood(s, t);
    case OpenAnswer(t, reply) => OpenAnsweredIsGood(s, t, reply);
    case ReadAnswer(t, lost) => ReadAnsweredIsGood(s, t, lost);
    case Visit(t, endpoint, reply) => VisitedIsGood(s, t, endpoint, reply);
    case Finish(t) => FinishedIsGood(s, t);
    case Cancel(t) => if IsOpening(s.tasks[t].phase) { OpenEndsIsGood(s, t, false); } else { EndedIsGood(s, t); }
    case Tick(time) => TickIsGood(s, time);
  }

  lemma ReadAnsweredIsGood(s: State, t: TaskId, lost: bool)
    requires Inv(s) && t in s.tasks && s.tasks[t].phase.ReadSent?
    ensures Good(s, if lost then At(s, t, Reading(s.tasks[t].phase.todo)) else Ended(s, t))
  {
    TaskInv(s, t);
    if lost {
      AtIsGood(s, t, Reading(s.tasks[t].phase.todo));
    } else {
      EndedIsGood(s, t);
    }
  }

  lemma TickIsGood(s: State, time: int)
    requires Inv(s)
    ensures Good(s, s.(now := time))
  {
    var s' := s.(now := time);
    forall u | u in s'.tasks ensures TaskOk(s', u) { TaskInv(s, u); }
    SameLanes(s, s');
  }

  // ---- Runs ----

  predicate Legal(s: State, events: seq<Event>)
    decreases |events|
  {
    events != [] ==> Enabled(s, events[0]) && Legal(Apply(s, events[0]), events[1..])
  }

  function Exec(s: State, events: seq<Event>): State
    requires Legal(s, events)
    decreases |events|
  {
    if events == [] then s else Exec(Apply(s, events[0]), events[1..])
  }

  /** Every open of the run gets a fresh fence. */
  predicate AllFresh(s: State, events: seq<Event>)
    requires Legal(s, events)
    decreases |events|
  {
    events != [] ==> Fresh(s, events[0]) && AllFresh(Apply(s, events[0]), events[1..])
  }

  lemma {:induction false} RunIsGood(s: State, events: seq<Event>)
    requires Inv(s) && Legal(s, events) && AllFresh(s, events)
    ensures Good(s, Exec(s, events))
    decreases |events|
  {
    if events == [] {
      Stays(s);
    } else {
      StepIsGood(s, events[0]);
      RunIsGood(Apply(s, events[0]), events[1..]);
      Then(s, Apply(s, events[0]), Exec(s, events));
    }
  }

  lemma InitialIsGood(s: State)
    requires Initial(s)
    ensures Inv(s)
  {
    Establish(s);
  }

  /** The fences given out so far are the tokens of the counter values so far. */
  ghost predicate Numbered(s: State) {
    forall f <- s.owners :: exists n: nat :: 1 <= n <= s.lastFence && f == LogicalFences.WideToken(s.epoch, n)
  }

  /** Only an open touches what the fences are made of. */
  lemma StepNumbers(s: State, e: Event)
    requires Enabled(s, e)
    ensures var s' := Apply(s, e);
            || SameFences(s, s')
            || (e.Open? && s'.epoch == s.epoch && s'.lastFence == s.lastFence + 1 && s'.owners == s.owners[NextFence(s) := e.lane])
  {
  }

  lemma StepKeepsNumbered(s: State, e: Event)
    requires Numbered(s) && Enabled(s, e)
    ensures Numbered(Apply(s, e)) && Apply(s, e).epoch == s.epoch && Apply(s, e).lastFence >= s.lastFence
    ensures Apply(s, e).lastFence < LogicalFences.WIDE_SPAN ==> Fresh(s, e)
  {
    StepNumbers(s, e);
    forall n: nat | n < LogicalFences.WIDE_SPAN && s.lastFence + 1 < LogicalFences.WIDE_SPAN
      ensures LogicalFences.WideToken(s.epoch, n) == LogicalFences.WideToken(s.epoch, s.lastFence + 1) <==> n == s.lastFence + 1
    {
      LogicalFences.WideTokensAreUnique(s.epoch, n, s.lastFence + 1);
    }
  }

  lemma {:induction false} CounterGrows(s: State, events: seq<Event>)
    requires Legal(s, events)
    ensures s.lastFence <= Exec(s, events).lastFence
    decreases |events|
  {
    if events != [] {
      StepNumbers(s, events[0]);
      CounterGrows(Apply(s, events[0]), events[1..]);
    }
  }

  /** Fewer than 2^32 opens all get fresh fences, whatever the epoch. */
  lemma {:induction false} FewOpensAreFresh(s: State, events: seq<Event>)
    requires Numbered(s) && Legal(s, events) && Exec(s, events).lastFence < LogicalFences.WIDE_SPAN
    ensures AllFresh(s, events)
    decreases |events|
  {
    if events != [] {
      CounterGrows(Apply(s, events[0]), events[1..]);
      StepNumbers(s, events[0]);
      StepKeepsNumbered(s, events[0]);
      FewOpensAreFresh(Apply(s, events[0]), events[1..]);
    }
  }

  /** Over every run whose opens get fresh fences: each read went out with the fence that the very
      session it was sent on had issued for that lane, the newest one of its endpoint; and for each
      lane closed successfully, every mirror it had when the close began acknowledged the close,
      and the table names it no more. If the open had ended when the close began, no mirror is
      left, now or later. */
  lemma ReadsAreJustified(s: State, events: seq<Event>)
    requires Initial(s) && Legal(s, events) && AllFresh(s, events)
    ensures var s' := Exec(s, events);
            && (forall r <- s'.sent :: Justified(r))
            && (forall o <- s'.closed :: ClosedOk(s', o))
            && (forall id <- s'.table :: s'.table[id] !in s'.closed)
  {
    InitialIsGood(s);
    RunIsGood(s, events);
    var s' := Exec(s, events);
    forall r | r in s'.sent ensures Justified(r) { ReadInv(s', r); }
    forall o | o in s'.closed ensures ClosedOk(s', o) { CloseInv(s', o); }
    forall id | id in s'.table ensures s'.table[id] !in s'.closed { TableInv(s', id); }
  }

  /** What is sent from `s` to `s'` is not for a closed lane. */
  ghost predicate SendsForOpenLanes(s: State, s': State) {
    s'.sent == s.sent || exists r :: s'.sent == s.sent + [r] && r.lane !in s.closed
  }

  lemma SendIsForOpenLane(s: State, s1: State, t: TaskId, at: Endpoint, todo: seq<Endpoint>, fence: int)
    requires Inv(s) && t in s.tasks && Holding(s.tasks[t].phase) && s1.sent == s.sent && s1.tasks == s.tasks
    ensures SendsForOpenLanes(s, Send(s1, t, at, todo, fence))
  {
    TaskInv(s, t);
    assert Send(s1, t, at, todo, fence).sent == s.sent + [Sending(s1, s.tasks[t].lane, at, fence)];
  }

  /** A step sends at most one read, and only for a lane that is not closed. */
  lemma StepSendsForOpenLanes(s: State, e: Event)
    requires Inv(s) && Enabled(s, e)
    ensures SendsForOpenLanes(s, Apply(s, e))
  {
    if e.Try? {
      TrySendsForOpenLanes(s, e.task);
    } else if e.OpenAnswer? {
      OpenAnswerSendsForOpenLanes(s, e.task, e.openReply);
    } else {
      QuietStep(s, e);
    }
  }

  lemma QuietStep(s: State, e: Event)
    requires Enabled(s, e) && !e.Try? && !e.OpenAnswer?
    ensures Apply(s, e).sent == s.sent
  {
  }

  lemma TrySendsForOpenLanes(s: State, t: TaskId)
    requires Inv(s) && Enabled(s, Try(t))
    ensures SendsForOpenLanes(s, Tried(s, t))
  {
    var Task(_, o, phase) := s.tasks[t];
    if phase.Reading? && phase.todo != [] && Mirrored(s.lanes[o], phase.todo[0]) {
      SendIsForOpenLane(s, s, t, phase.todo[0], phase.todo[1..], s.lanes[o].mirrors[phase.todo[0].id].fence);
    } else {
      assert Tried(s, t).sent == s.sent;
    }
  }

  lemma OpenAnswerSendsForOpenLanes(s: State, t: TaskId, reply: OpenReply)
    requires Inv(s) && Enabled(s, OpenAnswer(t, reply))
    ensures SendsForOpenLanes(s, OpenAnswered(s, t, reply))
  {
    var Task(_, o, phase) := s.tasks[t];
    if phase.ReadAsked? && reply.OpenAccepted? {
      SendIsForOpenLane(s, Record(s, o, phase.at, reply.fence), t, phase.at, phase.todo, reply.fence);
    } else {
      assert OpenAnswered(s, t, reply).sent == s.sent;
    }
  }

  /** No read for lane `o` was sent from `s` to `s'`. */
  ghost predicate Silent(s: State, s': State, o: ObjectId) {
    s.sent <= s'.sent && forall i :: |s.sent| <= i < |s'.sent| ==> s'.sent[i].lane != o
  }

  lemma StepIsSilent(s: State, e: Event, o: ObjectId)
    requires Inv(s) && Enabled(s, e) && o in s.closed
    ensures Silent(s, Apply(s, e), o)
  {
    StepSendsForOpenLanes(s, e);
  }

  /** After a successful close, no continuation sends another read for the lane. */
  lemma {:induction false} ClosedLanesStaySilent(s: State, events: seq<Event>, o: ObjectId)
    requires Inv(s) && Legal(s, events) && AllFresh(s, events) && o in s.closed
    ensures Silent(s, Exec(s, events), o)
    decreases |events|
  {
    if events != [] {
      StepIsSilent(s, events[0], o);
      StepIsGood(s, events[0]);
      assert Preserved(s, Apply(s, events[0]), Closures);
      ClosedLanesStaySilent(Apply(s, events[0]), events[1..], o);
      SilentThen(s, Apply(s, events[0]), Exec(s, events), o);
    }
  }

  lemma SilentThen(s: State, s1: State, s2: State, o: ObjectId)
    requires Silent(s, s1, o) && Silent(s1, s2, o)
    ensures Silent(s, s2, o)
  {
    forall i | |s.sent| <= i < |s2.sent|
      ensures s2.sent[i].lane != o
    {
      if i < |s1.sent| {
        assert s2.sent[i] == s1.sent[i];
      }
    }
  }

  lemma PrefixRun(s: State, e: Event, events: seq<Event>)
    requires Enabled(s, e) && Legal(Apply(s, e), events)
    ensures Legal(s, [e] + events) && Exec(s, [e] + events) == Exec(Apply(s, e), events)
    ensures Fresh(s, e) && AllFresh(Apply(s, e), events) ==> AllFresh(s, [e] + events)
  {
    assert ([e] + events)[1..] == events;
  }

  /** The condition on the open is needed. In every state where a close is about to succeed while
      the lane's open waits for an answer, the close does succeed, and the mirror that is answered
      afterwards stays open: nobody closed it and the table no longer names its lane. */
  lemma CloseOvertakesOpen(s: State, closer: TaskId, opener: TaskId, fence: int) returns (events: seq<Event>)
    requires Inv(s) && closer in s.tasks && opener in s.tasks && s.tasks[closer].lane == s.tasks[opener].lane
    requires s.tasks[closer].phase.Closing? && s.tasks[closer].phase.left == map[] && s.tasks[closer].phase.unresolved == {}
    requires s.tasks[opener].phase.OpenAsked?
    ensures Legal(s, events)
    ensures var s', o, at := Exec(s, events), s.tasks[opener].lane, s.tasks[opener].phase.at;
            && o in s'.closed && (forall id <- s'.table :: s'.table[id] != o)
            && o in s'.lanes && at.id in s'.lanes[o].mirrors && s'.lanes[o].mirrors[at.id] == Mirror(at.session, fence)
            && s'.acked == s.acked
  {
    var o := s.tasks[opener].lane;
    var finish, answer := Finish(closer), OpenAnswer(opener, OpenAccepted(fence));
    FinishedIsGood(s, closer);
    TaskInv(s, closer);
    var s1 := Apply(s, finish);
    assert s1.tasks == s.tasks - {closer} && o in s1.closed && s1.acked == s.acked;
    PrefixRun(s1, answer, []);
    PrefixRun(s, finish, [answer] + []);
    events := [finish] + ([answer] + []);
    OpenAnsweredIsGood(s1, opener, OpenAccepted(fence));
    forall id | id in Exec(s, events).table
      ensures Exec(s, events).table[id] != o
    {
      TableInv(Exec(s, events), id);
    }
  }

  /** Such a state is reachable: a caller that names the fence before the open has returned it can
      bring it about. */
  lemma CloseDuringOpen(s: State, at: Endpoint) returns (events: seq<Event>)
    requires Initial(s)
    ensures Legal(s, events) && AllFresh(s, events)
    ensures var s' := Exec(s, events);
            && s'.tasks == map[0 := Task(0, 0, OpenAsked(at, [])), 1 := Task(0, 0, Closing(map[], map[], Closure(map[], false), {}))]
  {
    var e1, e2 := Open(0, 0, "lane", 1000, [at]), Try(0);
    var e3, e4 := Request(1, "lane", NextFence(s), CloseOperation), Acquire(1, []);
    var s1 := Apply(s, e1);
    assert s1.tasks == map[0 := Task(0, 0, Opening([at]))];
    assert [at][1..] == [];
    var s2 := Apply(s1, e2);
    assert s2 == s1.(tasks := map[0 := Task(0, 0, OpenAsked(at, []))]);
    var s3 := Apply(s2, e3);
    assert s3.tasks == s2.tasks[1 := Task(0, 0, Waiting(CloseOperation, NextFence(s)))] && s3.holders == map[];
    PrefixRun(s3, e4, []);
    PrefixRun(s2, e3, [e4] + []);
    PrefixRun(s1, e2, [e3] + ([e4] + []));
    PrefixRun(s, e1, [e2] + ([e3] + ([e4] + [])));
    events := [e1] + ([e2] + ([e3] + ([e4] + [])));
  }

  // ---- What goes through if nothing interferes ----

  /** A lane that a coroutine with this fence finds, with its lock free. */
  predicate Available(s: State, laneId: string, fence: int, o: ObjectId) {
    && laneId in s.table && s.table[laneId] == o && o in s.lanes && s.lanes[o].id == laneId
    && s.lanes[o].fence == fence && s.now < s.lanes[o].expiresAt && o !in s.holders
  }

  /** The lookup finds exactly an unexpired lane of that id and fence, and forgets an expired one. */
  lemma LookupIsExact(s: State, laneId: string, fence: int, o: ObjectId)
    requires Closed(s)
    ensures Require(s, laneId, fence).1 == Some(o) <==>
            laneId in s.table && s.table[laneId] == o && s.lanes[o].fence == fence && s.now < s.lanes[o].expiresAt
    ensures Require(s, laneId, fence).0 ==
            if laneId in s.table && s.lanes[s.table[laneId]].fence == fence && s.lanes[s.table[laneId]].expiresAt <= s.now
            then s.(table := s.table - {laneId}) else s
  {
  }

  /** The state after a coroutine has looked an available lane up and taken its lock. */
  ghost function InLock(s: State, t: TaskId, fence: int, o: ObjectId, operation: Operation): State {
    s.(holders := s.holders[o := t], tasks := s.tasks[t := Task(o, o, Waiting(operation, fence))])
  }

  lemma EnterThen(s: State, t: TaskId, laneId: string, fence: int, o: ObjectId, operation: Operation, paths: seq<Endpoint>, events: seq<Event>)
    returns (all: seq<Event>)
    requires Closed(s) && Available(s, laneId, fence, o) && t !in s.tasks
    requires Closed(InLock(s, t, fence, o, operation))
    requires Legal(Started(InLock(s, t, fence, o, operation), t, operation, paths), events)
    ensures Legal(s, all) && Exec(s, all) == Exec(Started(InLock(s, t, fence, o, operation), t, operation, paths), events)
  {
    var e1, e2 := Request(t, laneId, fence, operation), Acquire(t, paths);
    var s1 := Apply(s, e1);
    assert s1 == s.(tasks := s.tasks[t := Task(o, o, Waiting(operation, fence))]);
    assert s1.tasks[t := s1.tasks[t].(lane := o)] == s1.tasks;
    assert Apply(s1, e2) == Started(InLock(s, t, fence, o, operation), t, operation, paths);
    PrefixRun(s1, e2, events);
    PrefixRun(s, e1, [e2] + events);
    all := [e1] + ([e2] + events);
  }

  /** The session that counts for an endpoint is that of the last path listed for it. */
  lemma {:induction false} LastSessionCounts(paths: seq<Endpoint>, i: nat)
    requires i < |paths| && forall j :: i < j < |paths| ==> paths[j].id != paths[i].id
    ensures paths[i].id in SessionsById(paths) && SessionsById(paths)[paths[i].id] == paths[i].session
  {
    var n := |paths| - 1;
    if i < n {
      LastSessionCounts(paths[..n], i);
    }
  }

  /** A read on an available lane reaches the first path: with the recorded fence if the mirror is
      on the path's session, and otherwise with the fence the path's session issues now. */
  lemma ReadGoesOut(s: State, t: TaskId, laneId: string, fence: int, o: ObjectId, at: Endpoint, issued: int) returns (events: seq<Event>)
    requires Closed(s) && Available(s, laneId, fence, o) && t !in s.tasks
    ensures Legal(s, events)
    ensures var s' := Exec(s, events);
            var used := if Mirrored(s.lanes[o], at) then s.lanes[o].mirrors[at.id].fence else issued;
            && |s'.sent| == |s.sent| + 1 && s.sent <= s'.sent
            && s'.sent[|s.sent|].lane == o && s'.sent[|s.sent|].endpoint == at && s'.sent[|s.sent|].fence == used
  {
    var s2 := Started(InLock(s, t, fence, o, ReadOperation), t, ReadOperation, [at]);
    events := ReadFirst(s2, t, o, at, issued);
    events := EnterThen(s, t, laneId, fence, o, ReadOperation, [at], events);
  }

  lemma ReadFirst(s: State, t: TaskId, o: ObjectId, at: Endpoint, issued: int) returns (events: seq<Event>)
    requires Closed(s) && t in s.tasks && s.tasks[t] == Task(o, o, Reading([at])) && s.now < s.lanes[o].expiresAt
    ensures Legal(s, events)
    ensures var s' := Exec(s, events);
            var used := if Mirrored(s.lanes[o], at) then s.lanes[o].mirrors[at.id].fence else issued;
            && |s'.sent| == |s.sent| + 1 && s.sent <= s'.sent
            && s'.sent[|s.sent|].lane == o && s'.sent[|s.sent|].endpoint == at && s'.sent[|s.sent|].fence == used
  {
    var s1 := Apply(s, Try(t));
    if Mirrored(s.lanes[o], at) {
      PrefixRun(s, Try(t), []);
      events := [Try(t)] + [];
    } else {
      var answer := OpenAnswer(t, OpenAccepted(issued));
      PrefixRun(s1, answer, []);
      PrefixRun(s, Try(t), [answer] + []);
      events := [Try(t)] + ([answer] + []);
    }
  }

  /** A close on an available lane goes through if every mirror is on its own session and
      acknowledges: the lane is closed, no mirror is left, and the table forgets it. */
  lemma CloseGoesThrough(s: State, t: TaskId, laneId: string, fence: int, o: ObjectId, paths: seq<Endpoint>) returns (events: seq<Event>)
    requires Closed(s) && Available(s, laneId, fence, o) && t !in s.tasks
    requires forall e <- s.lanes[o].mirrors :: e in SessionsById(paths) && SessionsById(paths)[e] == s.lanes[o].mirrors[e].session
    ensures Legal(s, events)
    ensures var s' := Exec(s, events);
            && o in s'.closed && laneId !in s'.table && o in s'.lanes && s'.lanes[o].mirrors == map[] && s'.sent == s.sent
            && forall e <- s.lanes[o].mirrors :: (o, e, s.lanes[o].mirrors[e]) in s'.acked
  {
    var s2 := Started(InLock(s, t, fence, o, CloseOperation), t, CloseOperation, paths);
    events := VisitAll(s2, t, o);
    events := EnterThen(s, t, laneId, fence, o, CloseOperation, paths, events);
  }

  /** A close at work: the mirrors left to visit are the lane's, and all are on their sessions. */
  ghost predicate Visiting(s: State, t: TaskId, o: ObjectId) {
    && Closed(s) && t in s.tasks && s.tasks[t].lane == o && s.tasks[t].phase.Closing? && s.tasks[t].phase.unresolved == {}
    && s.lanes[o].mirrors == s.tasks[t].phase.left
    && (forall e <- s.tasks[t].phase.left :: e in s.tasks[t].phase.paths && s.tasks[t].phase.paths[e] == s.tasks[t].phase.left[e].session)
    && s.lanes[o].id in s.table && s.table[s.lanes[o].id] == o
  }

  lemma {:induction false} VisitAll(s: State, t: TaskId, o: ObjectId) returns (events: seq<Event>)
    requires Visiting(s, t, o)
    ensures Legal(s, events)
    ensures var s' := Exec(s, events);
            && o in s'.closed && s.lanes[o].id !in s'.table && o in s'.lanes && s'.lanes[o].mirrors == map[] && s'.sent == s.sent
            && s.acked <= s'.acked && forall e <- s.lanes[o].mirrors :: (o, e, s.lanes[o].mirrors[e]) in s'.acked
    decreases |s.lanes[o].mirrors|
  {
    if s.lanes[o].mirrors == map[] {
      PrefixRun(s, Finish(t), []);
      events := [Finish(t)] + [];
    } else {
      var e :| e in s.lanes[o].mirrors;
      var s1 := VisitOne(s, t, o, e);
      events := VisitAll(s1, t, o);
      PrefixRun(s, Visit(t, e, Accepted), events);
      events := [Visit(t, e, Accepted)] + events;
    }
  }

  lemma VisitOne(s: State, t: TaskId, o: ObjectId, e: string) returns (s1: State)
    requires Visiting(s, t, o) && e in s.lanes[o].mirrors
    ensures Enabled(s, Visit(t, e, Accepted)) && s1 == Apply(s, Visit(t, e, Accepted)) && Visiting(s1, t, o)
    ensures s1.lanes[o] == s.lanes[o].(mirrors := s.lanes[o].mirrors - {e}) && s1.sent == s.sent
    ensures |s1.lanes[o].mirrors| < |s.lanes[o].mirrors| && s1.acked == s.acked + {(o, e, s.lanes[o].mirrors[e])}
  {
    s1 := Apply(s, Visit(t, e, Accepted));
    var left := s.lanes[o].mirrors;
    assert (left - {e}).Keys == left.Keys - {e} && |left| == |left.Keys| && |left - {e}| == |(left - {e}).Keys|;
  }

  /** A renewal at work: the mirrors left to visit are still recorded. */
  ghost predicate RenewingOn(s: State, t: TaskId, o: ObjectId) {
    && Closed(s) && t in s.tasks && s.tasks[t].lane == o && s.tasks[t].phase.Renewing?
    && forall e <- s.tasks[t].phase.left :: e in s.lanes[o].mirrors && s.lanes[o].mirrors[e] == s.tasks[t].phase.left[e]
  }

  /** The mirrors a renewal keeps of those it has to visit, and all it has not. */
  ghost function Kept(mirrors: map<string, Mirror>, left: map<string, Mirror>, paths: map<string, string>, reply: string -> Reply): map<string, Mirror> {
    map e | e in mirrors && (e in left ==> e in paths && paths[e] == mirrors[e].session && reply(e).Accepted?) :: mirrors[e]
  }

  lemma KeptNext(mirrors: map<string, Mirror>, left: map<string, Mirror>, paths: map<string, string>, reply: string -> Reply, e: string)
    requires e in left && e in mirrors && left[e] == mirrors[e]
    ensures Kept(if e in paths && paths[e] == left[e].session && reply(e).Accepted? then mirrors else mirrors - {e}, left - {e}, paths, reply)
         == Kept(mirrors, left, paths, reply)
  {
  }

  lemma {:induction false} RenewAll(s: State, t: TaskId, o: ObjectId, reply: string -> Reply) returns (events: seq<Event>)
    requires RenewingOn(s, t, o)
    ensures Legal(s, events) && o in Exec(s, events).lanes
    ensures Exec(s, events).lanes[o] ==
            s.lanes[o].(mirrors := Kept(s.lanes[o].mirrors, s.tasks[t].phase.left, s.tasks[t].phase.paths, reply))
    decreases |s.tasks[t].phase.left|
  {
    var Renewing(paths, left) := s.tasks[t].phase;
    if left == map[] {
      PrefixRun(s, Finish(t), []);
      events := [Finish(t)] + [];
      assert Kept(s.lanes[o].mirrors, left, paths, reply) == s.lanes[o].mirrors;
    } else {
      var e :| e in left;
      KeptNext(s.lanes[o].mirrors, left, paths, reply, e);
      var s1 := RenewOne(s, t, o, e, reply(e));
      events := RenewAll(s1, t, o, reply);
      PrefixRun(s, Visit(t, e, reply(e)), events);
      events := [Visit(t, e, reply(e))] + events;
    }
  }

  /** One mirror's turn in a renewal. */
  lemma RenewOne(s: State, t: TaskId, o: ObjectId, e: string, reply: Reply) returns (s1: State)
    requires RenewingOn(s, t, o) && e in s.tasks[t].phase.left
    ensures Enabled(s, Visit(t, e, reply)) && s1 == Apply(s, Visit(t, e, reply)) && RenewingOn(s1, t, o)
    ensures s1.tasks[t].phase == Renewing(s.tasks[t].phase.paths, s.tasks[t].phase.left - {e})
    ensures |s1.tasks[t].phase.left| < |s.tasks[t].phase.left|
    ensures var Renewing(paths, left) := s.tasks[t].phase;
            s1.lanes[o] == s.lanes[o].(mirrors := if e in paths && paths[e] == left[e].session && reply.Accepted?
                                                  then s.lanes[o].mirrors else s.lanes[o].mirrors - {e})
  {
    s1 := Apply(s, Visit(t, e, reply));
    var left := s.tasks[t].phase.left;
    assert (left - {e}).Keys == left.Keys - {e} && |left| == |left.Keys| && |left - {e}| == |(left - {e}).Keys|;
  }

  /** A renewal on an available lane extends it and keeps exactly the mirrors that are on their own
      session and accept. */
  lemma RenewGoesThrough(s: State, t: TaskId, laneId: string, fence: int, o: ObjectId, ttl: int, paths: seq<Endpoint>, reply: string -> Reply)
    returns (events: seq<Event>)
    requires Closed(s) && Available(s, laneId, fence, o) && t !in s.tasks && ttl > 0
    ensures Legal(s, events)
    ensures var s', sessions := Exec(s, events), SessionsById(paths);
            && o in s'.lanes && s'.lanes[o].expiresAt == s.now + ttl
            && (forall e :: e in s'.lanes[o].mirrors <==>
                  e in s.lanes[o].mirrors && e in sessions && sessions[e] == s.lanes[o].mirrors[e].session && reply(e).Accepted?)
            && (forall e <- s'.lanes[o].mirrors :: s'.lanes[o].mirrors[e] == s.lanes[o].mirrors[e])
  {
    var s2 := Started(InLock(s, t, fence, o, RenewOperation(ttl)), t, RenewOperation(ttl), paths);
    events := RenewAll(s2, t, o, reply);
    events := EnterThen(s, t, laneId, fence, o, RenewOperation(ttl), paths, events);
  }

  /** An open whose first endpoint accepts leaves a lane under the next fence with that mirror; one
      whose first endpoint refuses leaves none. */
  lemma OpenGoesThrough(s: State, t: TaskId, o: ObjectId, laneId: string, ttl: int, at: Endpoint, answer: OpenReply) returns (events: seq<Event>)
    requires Closed(s) && t !in s.tasks && o !in s.lanes && ttl > 0 && !answer.OpenLost?
    requires laneId in s.table ==> s.lanes[s.table[laneId]].expiresAt <= s.now
    ensures Legal(s, events)
    ensures var s' := Exec(s, events);
            && s'.tasks == s.tasks && o in s'.lanes && s'.lanes[o].fence == NextFence(s) && s'.lanes[o].opener == None
            && if answer.OpenRefused? then laneId !in s'.table
               else && laneId in s'.table && s'.table[laneId] == o
                    && s'.lanes[o] == Lane(laneId, NextFence(s), s.now + ttl, map[at.id := Mirror(at.session, answer.fence)], None)
  {
    var e1 := Open(t, o, laneId, ttl, [at]);
    var lane := Lane(laneId, NextFence(s), s.now + ttl, map[], Some(t));
    var s1 := Apply(s, e1);
    assert s1 == Spawned(WithNewLane(s, o, lane), t, Task(o, o, Opening([at])));
    assert s1.tasks - {t} == s.tasks;
    events := AskedAndAnswered(s1, t, o, at, answer);
    PrefixRun(s, e1, events);
    events := [e1] + events;
  }

  lemma AskedAndAnswered(s: State, t: TaskId, o: ObjectId, at: Endpoint, answer: OpenReply) returns (events: seq<Event>)
    requires Closed(s) && t in s.tasks && s.tasks[t] == Task(o, o, Opening([at])) && o in s.lanes && !answer.OpenLost?
    requires s.lanes[o].id in s.table && s.table[s.lanes[o].id] == o && s.lanes[o].mirrors == map[] && s.now < s.lanes[o].expiresAt
    ensures Legal(s, events)
    ensures var s' := Exec(s, events);
            && s'.tasks == s.tasks - {t} && o in s'.lanes
            && if answer.OpenRefused? then s'.lanes[o] == s.lanes[o].(opener := None) && s'.table == s.table - {s.lanes[o].id}
               else s'.lanes[o] == s.lanes[o].(opener := None, mirrors := map[at.id := Mirror(at.session, answer.fence)]) && s'.table == s.table
  {
    var s1 := FirstTry(s, t, o, at);
    OpenAnswerEnds(s1, t, o, at, answer);
    PrefixRun(s1, OpenAnswer(t, answer), []);
    PrefixRun(s, Try(t), [OpenAnswer(t, answer)] + []);
    events := [Try(t)] + ([OpenAnswer(t, answer)] + []);
  }

  lemma FirstTry(s: State, t: TaskId, o: ObjectId, at: Endpoint) returns (s1: State)
    requires Closed(s) && t in s.tasks && s.tasks[t] == Task(o, o, Opening([at])) && o in s.lanes
    requires s.lanes[o].mirrors == map[] && s.now < s.lanes[o].expiresAt
    ensures s1 == Apply(s, Try(t)) == s.(tasks := s.tasks[t := Task(o, o, OpenAsked(at, []))])
  {
    assert [at][1..] == [];
    s1 := Apply(s, Try(t));
  }

  lemma OpenAnswerEnds(s: State, t: TaskId, o: ObjectId, at: Endpoint, answer: OpenReply)
    requires Closed(s) && t in s.tasks && s.tasks[t] == Task(o, o, OpenAsked(at, [])) && o in s.lanes && !answer.OpenLost?
    requires s.lanes[o].id in s.table && s.table[s.lanes[o].id] == o && s.lanes[o].mirrors == map[]
    ensures var s' := Apply(s, OpenAnswer(t, answer));
            && s'.tasks == s.tasks - {t} && o in s'.lanes
            && if answer.OpenRefused? then s'.lanes[o] == s.lanes[o].(opener := None) && s'.table == s.table - {s.lanes[o].id}
               else s'.lanes[o] == s.lanes[o].(opener := None, mirrors := map[at.id := Mirror(at.session, answer.fence)]) && s'.table == s.table
  {
  }

  /** What may happen at any time: the clock moves; a coroutine is cancelled, which ends it and frees
      the lock it holds; a read is answered, which ends it, or lost, and the next path has its
      turn. */
  lemma OthersGoOn(s: State, t: TaskId, time: int)
    requires Closed(s)
    ensures Enabled(s, Tick(time)) && Apply(s, Tick(time)) == s.(now := time)
    ensures t in s.tasks ==>
              && Enabled(s, Cancel(t)) && Apply(s, Cancel(t)).tasks == s.tasks - {t} && Apply(s, Cancel(t)).table == s.table
              && (Holding(s.tasks[t].phase) ==> s.tasks[t].lock !in Apply(s, Cancel(t)).holders)
    ensures t in s.tasks && s.tasks[t].phase.ReadSent? ==>
              && Enabled(s, ReadAnswer(t, true)) && Enabled(s, ReadAnswer(t, false))
              && Apply(s, ReadAnswer(t, true)).tasks == s.tasks[t := s.tasks[t].(phase := Reading(s.tasks[t].phase.todo))]
              && Apply(s, ReadAnswer(t, false)).tasks == s.tasks - {t} && s.tasks[t].lock !in Apply(s, ReadAnswer(t, false)).holders
  {
  }
}
