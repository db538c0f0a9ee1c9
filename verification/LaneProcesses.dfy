/** Managed processes and lane close, within one incarnation of the agent.

    Tasks run lane operations under the lane lock of `LaneLocks`, on the registry of
    `LaneRuns`. Starting a process is two steps (authorize, then spawn on a worker thread) and
    closing a lane is many (collect the owned processes, terminate them one by one, close the
    registry entry); everything else interleaves: other lanes, reaping, the clock, watchdogs,
    processes that end by themselves. */
module LaneProcesses {

  import opened LaneRegistry
  import opened Resources
  import LaneLocks
  import LaneRuns

  type TaskId = LaneLocks.TaskId
  type Handle = nat

  /** What a task does while it is inside its lane's lock. `Finished` also stands for the
      operations that touch neither processes nor close. */
  datatype Work =
    | StartRequested(fence: int, access: Access)
    | StartAuthorized(fence: int)
    | CloseRequested(fence: int)
    | Closing(fence: int, pending: set<Handle>)
    | Finished

  datatype Process = Process(lane: LaneId, fence: int, running: bool)

  /** `closed` records the successful closes; `detached` the authorized starts whose handler
      was cancelled while the worker thread goes on. */
  datatype State = State(locks: LaneLocks.State, lanes: LaneRuns.World, work: map<TaskId, Work>,
                         processes: map<Handle, Process>, closed: set<(LaneId, int)>, detached: set<(LaneId, int)>)

  datatype Event =
    | Enter(task: TaskId, lane: LaneId, work: Work)
    | Acquire(task: TaskId)
    | Authorize(task: TaskId)
    | Spawn(task: TaskId, handle: Handle)
    | Collect(task: TaskId)
    | Terminate(task: TaskId, handle: Handle)
    | Fail(task: TaskId)
    | CloseLane(task: TaskId)
    | Release(task: TaskId)
    | Leave(task: TaskId)
    | CancelOutside(task: TaskId)
    | CancelInside(task: TaskId)
    | Ends(handle: Handle)
    | DetachedSpawn(owner: (LaneId, int), handle: Handle)
    | Registry(event: LaneRuns.Event)

  /** The task is inside its lane lock. */
  predicate Inside(s: State, t: TaskId) {
    t in s.locks.tasks && t in s.work && s.locks.tasks[t].phase == LaneLocks.Holding
  }

  function LockEvent(e: Event): LaneLocks.Event
    requires e.Enter? || e.Acquire? || e.Release? || e.Leave? || e.CancelOutside? || e.CancelInside?
  {
    match e
    case Enter(t, lane, _) => LaneLocks.Enter(t, lane)
    case Acquire(t) => LaneLocks.Acquire(t)
    case Leave(t) => LaneLocks.Leave(t)
    case CancelOutside(t) => LaneLocks.Cancel(t)
    case _ => LaneLocks.Release(e.task)
  }

  predicate Enabled(s: State, e: Event) {
    match e
    case Enter(t, _, w) => LaneLocks.Enabled(s.locks, LockEvent(e)) && !w.StartAuthorized? && !w.Closing?
    case Acquire(_) => LaneLocks.Enabled(s.locks, LockEvent(e))
    case Leave(_) => LaneLocks.Enabled(s.locks, LockEvent(e))
    case CancelOutside(_) => LaneLocks.Enabled(s.locks, LockEvent(e))
    case Authorize(t) => Inside(s, t) && s.work[t].StartRequested?
    case Spawn(t, h) => Inside(s, t) && s.work[t].StartAuthorized? && h !in s.processes
    case Collect(t) => Inside(s, t) && s.work[t].CloseRequested?
    case Terminate(t, h) => Inside(s, t) && s.work[t].Closing? && h in s.work[t].pending && h in s.processes
    case Fail(t) => Inside(s, t)
    case CloseLane(t) => Inside(s, t) && s.work[t].Closing? && s.work[t].pending == {}
    case Release(t) => Inside(s, t) && s.work[t].Finished?
    case CancelInside(t) => Inside(s, t)
    case Ends(h) => h in s.processes
    case DetachedSpawn(owner, h) => owner in s.detached && h !in s.processes
    case Registry(r) => LaneRuns.Legal(r) && !r.Restart?
  }

  function Owned(s: State, lane: LaneId, fence: int): set<Handle> {
    set h | h in s.processes && s.processes[h].lane == lane && s.processes[h].fence == fence
  }

  function Apply(cfg: LaneRuns.Setup, s: State, e: Event): State
    requires Enabled(s, e)
  {
    match e
    case Enter(t, _, w) => s.(locks := LaneLocks.Apply(s.locks, LockEvent(e)), work := s.work[t := w])
    case Acquire(_) => s.(locks := LaneLocks.Apply(s.locks, LockEvent(e)))
    case Leave(t) => s.(locks := LaneLocks.Apply(s.locks, LockEvent(e)), work := s.work - {t})
    case CancelOutside(t) => s.(locks := LaneLocks.Apply(s.locks, LockEvent(e)), work := s.work - {t})
    case Authorize(t) =>
      var w := s.work[t];
      var lane := s.locks.tasks[t].lane;
      var (table, r) := Authorized(s.lanes.table, lane, w.fence, w.access, s.lanes.now, cfg.limits.fold);
      s.(lanes := s.lanes.(table := table), work := s.work[t := if r.Ok? then StartAuthorized(w.fence) else Finished])
    case Spawn(t, h) =>
      s.(processes := s.processes[h := Process(s.locks.tasks[t].lane, s.work[t].fence, true)], work := s.work[t := Finished])
    case Collect(t) =>
      s.(work := s.work[t := Closing(s.work[t].fence, Owned(s, s.locks.tasks[t].lane, s.work[t].fence))])
    case Terminate(t, h) =>
      s.(processes := s.processes[h := s.processes[h].(running := false)],
         work := s.work[t := Closing(s.work[t].fence, s.work[t].pending - {h})])
    case Fail(t) => s.(work := s.work[t := Finished])
    case CloseLane(t) =>
      var lane, fence := s.locks.tasks[t].lane, s.work[t].fence;
      var (table, r) := Closed(s.lanes.table, lane, fence, s.lanes.now);
      s.(lanes := s.lanes.(table := table), work := s.work[t := Finished],
         closed := if r.Ok? then s.closed + {(lane, fence)} else s.closed)
    case Release(t) => s.(locks := LaneLocks.Apply(s.locks, LockEvent(e)))
    case CancelInside(t) =>
      s.(locks := LaneLocks.Apply(s.locks, LockEvent(e)), work := s.work[t := Finished],
         detached := if s.work[t].StartAuthorized? then s.detached + {(s.locks.tasks[t].lane, s.work[t].fence)}
                     else s.detached)
    case Ends(h) => s.(processes := s.processes[h := s.processes[h].(running := false)])
    case DetachedSpawn(owner, h) => s.(processes := s.processes[h := Process(owner.0, owner.1, true)])
    case Registry(r) => s.(lanes := LaneRuns.Apply(cfg, s.lanes, r))
  }

  /** The cancellation that breaks the guarantee: a handler dropped between authorizing a
      start and the end of its spawn. */
  predicate Detaches(s: State, e: Event) {
    e.CancelInside? && Inside(s, e.task) && s.work[e.task].StartAuthorized?
  }

  /** Only a lock holder is in the middle of a start or a close. */
  ghost predicate HolderOnly(s: State, t: TaskId)
    requires t in s.work
  {
    && t in s.locks.tasks
    && (s.work[t].StartAuthorized? || s.work[t].Closing? ==> s.locks.tasks[t].phase == LaneLocks.Holding)
  }

  /** A closer still has every running process of its pair on its list. */
  ghost predicate Accounted(s: State, t: TaskId)
    requires t in s.work
  {
    s.work[t].Closing? && t in s.locks.tasks ==>
      forall h :: h in s.processes && s.processes[h].running && h !in s.work[t].pending ==>
        !(s.processes[h].lane == s.locks.tasks[t].lane && s.processes[h].fence == s.work[t].fence)
  }

  ghost predicate WorkOk(s: State, t: TaskId)
    requires t in s.work
  {
    HolderOnly(s, t) && Accounted(s, t)
  }

  /** What a successful close guarantees about its pair from then on. */
  ghost predicate ClosedOk(cfg: LaneRuns.Setup, s: State, pair: (LaneId, int)) {
    && LaneRuns.Dead(cfg, s.lanes, pair.0, pair.1)
    && (forall h :: h in s.processes && s.processes[h].running ==> (s.processes[h].lane, s.processes[h].fence) != pair)
    && (forall t :: t in s.work && t in s.locks.tasks && s.work[t].StartAuthorized? ==>
          (s.locks.tasks[t].lane, s.work[t].fence) != pair)
  }

  ghost predicate Inv(cfg: LaneRuns.Setup, s: State) {
    && LaneLocks.Inv(s.locks)
    && LaneRuns.Inv(cfg, s.lanes)
    && s.detached == {}
    && (forall t :: t in s.work ==> WorkOk(s, t))
    && (forall p :: p in s.closed ==> ClosedOk(cfg, s, p))
  }

  ghost predicate Initial(cfg: LaneRuns.Setup, s: State) {
    && s.locks == LaneLocks.EMPTY && LaneRuns.Initial(cfg, s.lanes)
    && s.work == map[] && s.processes == map[] && s.closed == {} && s.detached == {}
  }

  /** What a step does to the registry, as a step of `LaneRuns`. */
  function LaneEvent(s: State, e: Event): LaneRuns.Event
    requires Enabled(s, e)
  {
    match e
    case Authorize(t) => LaneRuns.Authorize(s.locks.tasks[t].lane, s.work[t].fence, s.work[t].access)
    case CloseLane(t) => LaneRuns.Close(s.locks.tasks[t].lane, s.work[t].fence)
    case Registry(r) => r
    case _ => LaneRuns.Tick(0.0)
  }

  lemma LanesStep(cfg: LaneRuns.Setup, s: State, e: Event)
    requires Enabled(s, e)
    ensures Apply(cfg, s, e).lanes == LaneRuns.Apply(cfg, s.lanes, LaneEvent(s, e))
    ensures LaneRuns.Legal(LaneEvent(s, e)) && !LaneEvent(s, e).Restart?
  {
  }

  lemma LocksStep(cfg: LaneRuns.Setup, s: State, e: Event)
    requires Enabled(s, e)
    ensures var s' := Apply(cfg, s, e);
            || s'.locks == s.locks
            || ((e.Enter? || e.Acquire? || e.Release? || e.Leave? || e.CancelOutside? || e.CancelInside?)
                && LaneLocks.Enabled(s.locks, LockEvent(e)) && s'.locks == LaneLocks.Apply(s.locks, LockEvent(e)))
  {
  }

  lemma LocksKeepInv(cfg: LaneRuns.Setup, s: State, e: Event)
    requires Enabled(s, e) && LaneLocks.Inv(s.locks)
    ensures LaneLocks.Inv(Apply(cfg, s, e).locks)
  {
    LocksStep(cfg, s, e);
    if Apply(cfg, s, e).locks != s.locks {
      LaneLocks.StepKeepsCounted(s.locks, LockEvent(e));
      LaneLocks.StepKeepsLinked(s.locks, LockEvent(e));
    }
  }

  lemma LanesKeepInv(cfg: LaneRuns.Setup, s: State, e: Event)
    requires Enabled(s, e) && LaneRuns.Inv(cfg, s.lanes)
    ensures LaneRuns.Inv(cfg, Apply(cfg, s, e).lanes)
  {
    LanesStep(cfg, s, e);
    LaneRuns.StepKeepsMarked(cfg, s.lanes, LaneEvent(s, e));
    LaneRuns.StepKeepsConsistent(cfg, s.lanes, LaneEvent(s, e));
  }

  lemma StepKeepsHolderOnly(cfg: LaneRuns.Setup, s: State, e: Event, t: TaskId)
    requires Enabled(s, e) && t in Apply(cfg, s, e).work
    requires t in s.work ==> HolderOnly(s, t)
    ensures HolderOnly(Apply(cfg, s, e), t)
  {
  }

  lemma StepKeepsAccounted(cfg: LaneRuns.Setup, s: State, e: Event, t: TaskId)
    requires Enabled(s, e) && !e.Spawn? && s.detached == {}
    requires t in s.work && WorkOk(s, t) && t in Apply(cfg, s, e).work
    ensures Accounted(Apply(cfg, s, e), t)
  {
  }

  /** A start cannot slip past a closer: they would both hold the lane's lock. */
  lemma SpawnKeepsAccounted(cfg: LaneRuns.Setup, s: State, e: Event, t: TaskId)
    requires Enabled(s, e) && e.Spawn? && LaneLocks.Linked(s.locks)
    requires t in s.work && WorkOk(s, t)
    ensures Accounted(Apply(cfg, s, e), t)
  {
    if s.work[t].Closing? && s.locks.tasks[t].lane == s.locks.tasks[e.task].lane {
      LaneLocks.OneHolderPerLane(s.locks, t, e.task);
    }
  }

  lemma StepKeepsClosedOk(cfg: LaneRuns.Setup, s: State, e: Event, pair: (LaneId, int))
    requires Enabled(s, e) && s.detached == {} && LaneRuns.Marked(cfg, s.lanes) && ClosedOk(cfg, s, pair)
    ensures ClosedOk(cfg, Apply(cfg, s, e), pair)
  {
    LanesStep(cfg, s, e);
    LaneRuns.StepKeepsDead(cfg, s.lanes, LaneEvent(s, e), pair.0, pair.1);
  }

  /** While a task closes its lane, no start of the same lane is under way. */
  lemma CloserIsAlone(s: State, t: TaskId, x: TaskId)
    requires LaneLocks.Linked(s.locks) && t in s.work && x in s.work && HolderOnly(s, t) && HolderOnly(s, x)
    requires s.work[t].Closing? && s.work[x].StartAuthorized?
    ensures s.locks.tasks[x].lane != s.locks.tasks[t].lane
  {
    if s.locks.tasks[x].lane == s.locks.tasks[t].lane {
      LaneLocks.OneHolderPerLane(s.locks, t, x);
    }
  }

  lemma CloseEstablishes(cfg: LaneRuns.Setup, s: State, t: TaskId)
    requires Enabled(s, CloseLane(t)) && WorkOk(s, t) && LaneRuns.Inv(cfg, s.lanes)
    requires forall x :: x in s.work && x in s.locks.tasks && s.work[x].StartAuthorized? ==>
               s.locks.tasks[x].lane != s.locks.tasks[t].lane
    requires Closed(s.lanes.table, s.locks.tasks[t].lane, s.work[t].fence, s.lanes.now).1.Ok?
    ensures ClosedOk(cfg, Apply(cfg, s, CloseLane(t)), (s.locks.tasks[t].lane, s.work[t].fence))
  {
    assert WellFormed(cfg.limits, s.lanes.table, s.locks.tasks[t].lane);
  }

  lemma StepKeepsInv(cfg: LaneRuns.Setup, s: State, e: Event)
    requires Inv(cfg, s) && Enabled(s, e) && !Detaches(s, e)
    ensures Inv(cfg, Apply(cfg, s, e))
  {
    LocksKeepInv(cfg, s, e);
    LanesKeepInv(cfg, s, e);
    forall t | t in Apply(cfg, s, e).work
      ensures WorkOk(Apply(cfg, s, e), t)
    {
      assert t in s.work ==> WorkOk(s, t);
      StepKeepsHolderOnly(cfg, s, e, t);
      if t in s.work && e.Spawn? {
        SpawnKeepsAccounted(cfg, s, e, t);
      } else if t in s.work {
        StepKeepsAccounted(cfg, s, e, t);
      }
    }
    forall p | p in Apply(cfg, s, e).closed
      ensures ClosedOk(cfg, Apply(cfg, s, e), p)
    {
      if p in s.closed {
        StepKeepsClosedOk(cfg, s, e, p);
      } else {
        forall x | x in s.work && x in s.locks.tasks && s.work[x].StartAuthorized?
          ensures s.locks.tasks[x].lane != s.locks.tasks[e.task].lane
        {
          assert WorkOk(s, x) && WorkOk(s, e.task);
          CloserIsAlone(s, e.task, x);
        }
        assert WorkOk(s, e.task);
        CloseEstablishes(cfg, s, e.task);
      }
    }
  }

  predicate Legal(cfg: LaneRuns.Setup, s: State, events: seq<Event>)
    decreases |events|
  {
    events != [] ==> Enabled(s, events[0]) && Legal(cfg, Apply(cfg, s, events[0]), events[1..])
  }

  function Exec(cfg: LaneRuns.Setup, s: State, events: seq<Event>): State
    requires Legal(cfg, s, events)
    decreases |events|
  {
    if events == [] then s else Exec(cfg, Apply(cfg, s, events[0]), events[1..])
  }

  /** Runs in which no start is cancelled between authorization and spawn. Tasks may be
      cancelled anywhere else. */
  predicate Calm(cfg: LaneRuns.Setup, s: State, events: seq<Event>)
    requires Legal(cfg, s, events)
    decreases |events|
  {
    events != [] ==> !Detaches(s, events[0]) && Calm(cfg, Apply(cfg, s, events[0]), events[1..])
  }

  lemma {:induction false} RunKeepsInv(cfg: LaneRuns.Setup, s: State, events: seq<Event>)
    requires Inv(cfg, s) && Legal(cfg, s, events) && Calm(cfg, s, events)
    ensures Inv(cfg, Exec(cfg, s, events))
    ensures s.closed <= Exec(cfg, s, events).closed
    decreases |events|
  {
    if events != [] {
      StepKeepsInv(cfg, s, events[0]);
      RunKeepsInv(cfg, Apply(cfg, s, events[0]), events[1..]);
    }
  }

  /** Once a lane close has succeeded, no process owned by that lane and fence is running,
      then or at any later point of the run. */
  lemma ClosedLaneRunsNothing(cfg: LaneRuns.Setup, s0: State, before: seq<Event>, t: TaskId, after: seq<Event>)
    requires Initial(cfg, s0) && Legal(cfg, s0, before) && Calm(cfg, s0, before)
    requires var s := Exec(cfg, s0, before);
             && Enabled(s, CloseLane(t))
             && Closed(s.lanes.table, s.locks.tasks[t].lane, s.work[t].fence, s.lanes.now).1.Ok?
             && Legal(cfg, Apply(cfg, s, CloseLane(t)), after)
             && Calm(cfg, Apply(cfg, s, CloseLane(t)), after)
    ensures var s := Exec(cfg, s0, before);
            var later := Exec(cfg, Apply(cfg, s, CloseLane(t)), after);
            forall h :: h in Owned(later, s.locks.tasks[t].lane, s.work[t].fence) ==> !later.processes[h].running
  {
    var s := Exec(cfg, s0, before);
    RunKeepsInv(cfg, s0, before);
    StepKeepsInv(cfg, s, CloseLane(t));
    ClosedPairRunsNothing(cfg, Apply(cfg, s, CloseLane(t)), after, s.locks.tasks[t].lane, s.work[t].fence);
  }

  lemma ClosedPairRunsNothing(cfg: LaneRuns.Setup, s: State, after: seq<Event>, lane: LaneId, fence: int)
    requires Inv(cfg, s) && (lane, fence) in s.closed && Legal(cfg, s, after) && Calm(cfg, s, after)
    ensures var later := Exec(cfg, s, after);
            forall h :: h in Owned(later, lane, fence) ==> !later.processes[h].running
  {
    RunKeepsInv(cfg, s, after);
    assert ClosedOk(cfg, Exec(cfg, s, after), (lane, fence));
  }

  // ---- Nothing foreign is terminated ----

  /** A closer's list holds nothing but processes of its own lane and fence. */
  ghost predicate OwnListed(s: State, t: TaskId)
    requires t in s.work
  {
    s.work[t].Closing? ==>
      && t in s.locks.tasks
      && forall h <- s.work[t].pending ::
           h in s.processes && s.processes[h].lane == s.locks.tasks[t].lane && s.processes[h].fence == s.work[t].fence
  }

  ghost predicate AllOwnListed(s: State) {
    forall t :: t in s.work ==> OwnListed(s, t) && HolderOnly(s, t)
  }

  lemma StepKeepsOwnListed(cfg: LaneRuns.Setup, s: State, e: Event)
    requires AllOwnListed(s) && Enabled(s, e)
    ensures AllOwnListed(Apply(cfg, s, e))
  {
    var s' := Apply(cfg, s, e);
    forall t | t in s'.work
      ensures OwnListed(s', t) && HolderOnly(s', t)
    {
      assert t in s.work ==> OwnListed(s, t) && HolderOnly(s, t);
      StepKeepsHolderOnly(cfg, s, e, t);
    }
  }

  lemma {:induction false} RunKeepsOwnListed(cfg: LaneRuns.Setup, s: State, events: seq<Event>)
    requires AllOwnListed(s) && Legal(cfg, s, events)
    ensures AllOwnListed(Exec(cfg, s, events))
    decreases |events|
  {
    if events != [] {
      StepKeepsOwnListed(cfg, s, events[0]);
      RunKeepsOwnListed(cfg, Apply(cfg, s, events[0]), events[1..]);
    }
  }

  predicate Runs(s: State, h: Handle) {
    h in s.processes && s.processes[h].running
  }

  /** The task is inside the lock of the process's own lane and is closing its own fence. */
  predicate ClosesOwnerOf(s: State, t: TaskId, h: Handle) {
    && Inside(s, t) && s.work[t].Closing? && h in s.processes
    && s.processes[h].lane == s.locks.tasks[t].lane && s.processes[h].fence == s.work[t].fence
  }

  /** Over every run, cancellations included: a running process stays the process it is and goes
      on running, unless it ends by itself or a task that holds its own lane's lock closes its own
      lane and fence. */
  lemma OnlyOwnersTerminate(cfg: LaneRuns.Setup, s0: State, events: seq<Event>, e: Event, h: Handle)
    requires Initial(cfg, s0) && Legal(cfg, s0, events) && Enabled(Exec(cfg, s0, events), e)
    requires Runs(Exec(cfg, s0, events), h)
    ensures var s := Exec(cfg, s0, events);
            var s' := Apply(cfg, s, e);
            && h in s'.processes && s'.processes[h].lane == s.processes[h].lane && s'.processes[h].fence == s.processes[h].fence
            && (Runs(s', h) || e == Ends(h) || (e.Terminate? && e.handle == h && ClosesOwnerOf(s, e.task, h)))
  {
    RunKeepsOwnListed(cfg, s0, events);
    var s := Exec(cfg, s0, events);
    if e.Terminate? {
      assert OwnListed(s, e.task);
    }
  }

  /** The processes after a close of one pair: its own stopped, the others as they were. */
  function Stopped(processes: map<Handle, Process>, lane: LaneId, fence: int): map<Handle, Process> {
    map h | h in processes ::
      if processes[h].lane == lane && processes[h].fence == fence then processes[h].(running := false) else processes[h]
  }

  /** A closer that is left alone terminates what is left on its list and closes the lane. */
  lemma {:induction false} FinishClose(cfg: LaneRuns.Setup, s: State, closer: TaskId, fence: int, pending: set<Handle>) returns (events: seq<Event>)
    requires Inside(s, closer) && s.work[closer] == Closing(fence, pending) && pending <= s.processes.Keys
    requires forall h :: h in pending ==> s.processes[h].lane == s.locks.tasks[closer].lane && s.processes[h].fence == fence
    requires forall h :: h in s.processes && h !in pending && s.processes[h].lane == s.locks.tasks[closer].lane && s.processes[h].fence == fence ==>
               !s.processes[h].running
    requires Live(s.lanes.table, s.locks.tasks[closer].lane, fence, s.lanes.now)
    ensures Legal(cfg, s, events)
    ensures var s' := Exec(cfg, s, events);
            && (s.locks.tasks[closer].lane, fence) in s'.closed && s'.closed == s.closed + {(s.locks.tasks[closer].lane, fence)}
            && s.locks.tasks[closer].lane !in s'.lanes.table.lanes
            && s'.processes == Stopped(s.processes, s.locks.tasks[closer].lane, fence)
    decreases |pending|
  {
    if pending == {} {
      PrefixRun(cfg, s, CloseLane(closer), []);
      events := [CloseLane(closer)] + [];
      assert Stopped(s.processes, s.locks.tasks[closer].lane, fence) == s.processes;
    } else {
      var x :| x in pending;
      StoppedStep(s.processes, x);
      events := FinishClose(cfg, Apply(cfg, s, Terminate(closer, x)), closer, fence, pending - {x});
      PrefixRun(cfg, s, Terminate(closer, x), events);
      events := [Terminate(closer, x)] + events;
    }
  }

  lemma StoppedStep(processes: map<Handle, Process>, x: Handle)
    requires x in processes
    ensures Stopped(processes[x := processes[x].(running := false)], processes[x].lane, processes[x].fence)
         == Stopped(processes, processes[x].lane, processes[x].fence)
  {
  }

  /** A start that is authorized and left alone runs a process of its own lane and fence, and one
      that is not authorized runs none. */
  lemma UndisturbedStart(cfg: LaneRuns.Setup, s: State, t: TaskId, h: Handle)
    requires Inside(s, t) && s.work[t].StartRequested? && h !in s.processes
    ensures var lane, fence := s.locks.tasks[t].lane, s.work[t].fence;
            var s1 := Apply(cfg, s, Authorize(t));
            && (Enabled(s1, Spawn(t, h)) <==> Authorized(s.lanes.table, lane, fence, s.work[t].access, s.lanes.now, cfg.limits.fold).1.Ok?)
            && (Enabled(s1, Spawn(t, h)) ==> Apply(cfg, s1, Spawn(t, h)).processes == s.processes[h := Process(lane, fence, true)])
  {
  }

  /** A close of a live lane that is left alone goes through: the lane is gone, exactly its own
      processes are stopped, and the running flags of all other pairs are as they were. */
  lemma UndisturbedClose(cfg: LaneRuns.Setup, s: State, closer: TaskId, fence: int) returns (events: seq<Event>)
    requires Enabled(s, Acquire(closer)) && closer in s.work && s.work[closer] == CloseRequested(fence)
    requires Live(s.lanes.table, s.locks.tasks[closer].lane, fence, s.lanes.now)
    ensures Legal(cfg, s, events)
    ensures var s', lane := Exec(cfg, s, events), s.locks.tasks[closer].lane;
            && (lane, fence) in s'.closed && lane !in s'.lanes.table.lanes
            && s'.processes.Keys == s.processes.Keys
            && forall h <- s.processes ::
                 if s.processes[h].lane == lane && s.processes[h].fence == fence
                 then s'.processes[h] == s.processes[h].(running := false)
                 else s'.processes[h] == s.processes[h]
  {
    var lane := s.locks.tasks[closer].lane;
    var s1 := Apply(cfg, s, Acquire(closer));
    var s2 := Apply(cfg, s1, Collect(closer));
    events := FinishClose(cfg, s2, closer, fence, Owned(s1, lane, fence));
    PrefixRun(cfg, s1, Collect(closer), events);
    events := [Collect(closer)] + events;
    PrefixRun(cfg, s, Acquire(closer), events);
    events := [Acquire(closer)] + events;
  }

  lemma PrefixRun(cfg: LaneRuns.Setup, s: State, e: Event, events: seq<Event>)
    requires Enabled(s, e) && Legal(cfg, Apply(cfg, s, e), events)
    ensures Legal(cfg, s, [e] + events)
    ensures Exec(cfg, s, [e] + events) == Exec(cfg, Apply(cfg, s, e), events)
  {
    assert ([e] + events)[1..] == events;
  }

  /** What can happen at any time: a process ends by itself, alone; an operation inside its lock
      fails, or is cancelled; the registry is used and the clock moves; one outside is cancelled. */
  lemma OthersGoOn(cfg: LaneRuns.Setup, s: State, t: TaskId, h: Handle, r: LaneRuns.Event)
    ensures h in s.processes ==> Enabled(s, Ends(h)) && Apply(cfg, s, Ends(h)) == s.(processes := s.processes[h := s.processes[h].(running := false)])
    ensures Inside(s, t) ==> Enabled(s, Fail(t)) && Apply(cfg, s, Fail(t)) == s.(work := s.work[t := Finished])
    ensures Inside(s, t) ==> Enabled(s, CancelInside(t))
    ensures LaneRuns.Legal(r) && !r.Restart? ==> Enabled(s, Registry(r)) && Apply(cfg, s, Registry(r)).lanes == LaneRuns.Apply(cfg, s.lanes, r)
    ensures t in s.locks.tasks && s.locks.tasks[t].phase != LaneLocks.Holding ==>
              Enabled(s, CancelOutside(t)) && t !in Apply(cfg, s, CancelOutside(t)).locks.tasks
  {
  }

  /** A task whose work is finished frees the lock and goes. */
  lemma FinishedTasksLeave(cfg: LaneRuns.Setup, s: State, t: TaskId)
    requires Inside(s, t) && s.work[t].Finished?
    ensures Legal(cfg, s, [Release(t), Leave(t)])
    ensures var s' := Exec(cfg, s, [Release(t), Leave(t)]);
            && t !in s'.locks.tasks && t !in s'.work && s.locks.tasks[t].lock !in s'.locks.held
            && s'.processes == s.processes && s'.lanes == s.lanes
  {
    PrefixRun(cfg, Apply(cfg, s, Release(t)), Leave(t), []);
    PrefixRun(cfg, s, Release(t), [Leave(t)] + []);
    assert [Release(t)] + ([Leave(t)] + []) == [Release(t), Leave(t)];
  }

  /** After its handler is cancelled, the lane lock of an authorized start is free. */
  lemma ReenterAfterCancel(cfg: LaneRuns.Setup, s: State, t: TaskId, closer: TaskId, fence: int)
    returns (s1: State, s2: State)
    requires LaneLocks.Inv(s.locks) && Inside(s, t) && s.work[t].StartAuthorized? && closer !in s.locks.tasks
    ensures s1 == Apply(cfg, s, CancelInside(t))
    ensures var enter := Enter(closer, s.locks.tasks[t].lane, CloseRequested(fence));
            Enabled(s1, enter) && s2 == Apply(cfg, s1, enter)
    ensures Enabled(s2, Acquire(closer)) && s2.work[closer] == CloseRequested(fence)
    ensures s2.locks.tasks[closer].lane == s.locks.tasks[t].lane
    ensures s2.lanes == s.lanes && s2.processes == s.processes
    ensures s2.detached == s.detached + {(s.locks.tasks[t].lane, s.work[t].fence)}
  {
    var enter := Enter(closer, s.locks.tasks[t].lane, CloseRequested(fence));
    s1 := Apply(cfg, s, CancelInside(t));
    s2 := Apply(cfg, s1, enter);
    LocksKeepInv(cfg, s, CancelInside(t));
    LocksKeepInv(cfg, s1, enter);
    assert LaneLocks.TaskLinked(s.locks, t) && LaneLocks.TaskLinked(s2.locks, closer) && LaneLocks.TaskLinked(s2.locks, t);
  }

  /** A closer terminates what is left on its list and closes a live lane; a detached start then
      runs. */
  lemma {:induction false} SpawnAfterCollect(cfg: LaneRuns.Setup, s: State, closer: TaskId, fence: int, pending: set<Handle>, h: Handle)
    returns (events: seq<Event>)
    requires Inside(s, closer) && s.work[closer] == Closing(fence, pending) && pending <= s.processes.Keys
    requires (s.locks.tasks[closer].lane, fence) in s.detached && h !in s.processes
    requires Live(s.lanes.table, s.locks.tasks[closer].lane, fence, s.lanes.now)
    ensures Legal(cfg, s, events)
    ensures (s.locks.tasks[closer].lane, fence) in Exec(cfg, s, events).closed
    ensures h in Owned(Exec(cfg, s, events), s.locks.tasks[closer].lane, fence) && Exec(cfg, s, events).processes[h].running
    decreases |pending|
  {
    if pending == {} {
      events := SpawnAfterLast(cfg, s, closer, fence, h);
    } else {
      var x :| x in pending;
      events := SpawnAfterCollect(cfg, Apply(cfg, s, Terminate(closer, x)), closer, fence, pending - {x}, h);
      PrefixRun(cfg, s, Terminate(closer, x), events);
      events := [Terminate(closer, x)] + events;
    }
  }

  lemma SpawnAfterLast(cfg: LaneRuns.Setup, s: State, closer: TaskId, fence: int, h: Handle) returns (events: seq<Event>)
    requires Inside(s, closer) && s.work[closer] == Closing(fence, {})
    requires (s.locks.tasks[closer].lane, fence) in s.detached && h !in s.processes
    requires Live(s.lanes.table, s.locks.tasks[closer].lane, fence, s.lanes.now)
    ensures Legal(cfg, s, events)
    ensures (s.locks.tasks[closer].lane, fence) in Exec(cfg, s, events).closed
    ensures h in Owned(Exec(cfg, s, events), s.locks.tasks[closer].lane, fence) && Exec(cfg, s, events).processes[h].running
  {
    var lane := s.locks.tasks[closer].lane;
    PrefixRun(cfg, Apply(cfg, s, CloseLane(closer)), DetachedSpawn((lane, fence), h), []);
    events := [DetachedSpawn((lane, fence), h)] + [];
    PrefixRun(cfg, s, CloseLane(closer), events);
    events := [CloseLane(closer)] + events;
  }

  /** The same from the moment the closer may take the lock. */
  lemma SpawnAfterClose(cfg: LaneRuns.Setup, s: State, closer: TaskId, fence: int, h: Handle) returns (events: seq<Event>)
    requires Enabled(s, Acquire(closer)) && closer in s.work && s.work[closer] == CloseRequested(fence)
    requires (s.locks.tasks[closer].lane, fence) in s.detached && h !in s.processes
    requires Live(s.lanes.table, s.locks.tasks[closer].lane, fence, s.lanes.now)
    ensures Legal(cfg, s, events)
    ensures (s.locks.tasks[closer].lane, fence) in Exec(cfg, s, events).closed
    ensures h in Owned(Exec(cfg, s, events), s.locks.tasks[closer].lane, fence) && Exec(cfg, s, events).processes[h].running
  {
    var s3 := Apply(cfg, s, Acquire(closer));
    var s4 := Apply(cfg, s3, Collect(closer));
    events := SpawnAfterCollect(cfg, s4, closer, fence, Owned(s3, s.locks.tasks[closer].lane, fence), h);
    PrefixRun(cfg, s3, Collect(closer), events);
    events := [Collect(closer)] + events;
    PrefixRun(cfg, s, Acquire(closer), events);
    events := [Acquire(closer)] + events;
  }

  /** The condition cannot be dropped: from any state with an authorized start in flight on a
      live lane, cancelling that handler lets a close succeed and the process start afterwards. */
  lemma CancelledStartOutlivesClose(cfg: LaneRuns.Setup, s: State, t: TaskId, closer: TaskId, h: Handle)
    returns (events: seq<Event>)
    requires LaneLocks.Inv(s.locks) && Inside(s, t) && s.work[t].StartAuthorized?
    requires closer !in s.locks.tasks && h !in s.processes
    requires Live(s.lanes.table, s.locks.tasks[t].lane, s.work[t].fence, s.lanes.now)
    ensures Legal(cfg, s, events) && events != [] && Detaches(s, events[0])
    ensures var pair := (s.locks.tasks[t].lane, s.work[t].fence);
            && pair in Exec(cfg, s, events).closed
            && h in Owned(Exec(cfg, s, events), pair.0, pair.1) && Exec(cfg, s, events).processes[h].running
  {
    var lane, fence := s.locks.tasks[t].lane, s.work[t].fence;
    var s1, s2 := ReenterAfterCancel(cfg, s, t, closer, fence);
    events := SpawnAfterClose(cfg, s2, closer, fence, h);
    PrefixRun(cfg, s1, Enter(closer, lane, CloseRequested(fence)), events);
    events := [Enter(closer, lane, CloseRequested(fence))] + events;
    PrefixRun(cfg, s, CancelInside(t), events);
    events := [CancelInside(t)] + events;
  }
}
