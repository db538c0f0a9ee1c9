/** The reference-counted table of per-lane locks, under every interleaving of tasks.

    Each body of the table's guard runs without suspension, so it is one step; waiting for
    a lane lock, holding it and leaving are separate steps that other tasks interleave with.
    A task may be cancelled while it waits for its lane lock, or while it waits for the guard
    on its way out: both leave its user count behind. */
module LaneLocks {

  import opened Resources

  type TaskId = nat

  /** Identity of a lock object. */
  type LockRef = nat

  datatype Table = Table(locks: map<LaneId, LockRef>, users: map<LaneId, nat>, created: LockRef)

  /** The guarded section on the way in: find or create the lock, count the user. */
  function Entered(t: Table, lane: LaneId): Table {
    var count := if lane in t.users then t.users[lane] + 1 else 1;
    if lane in t.locks then t.(users := t.users[lane := count])
    else Table(t.locks[lane := t.created], t.users[lane := count], t.created + 1)
  }

  /** The guarded section on the way out. */
  function Left(t: Table, lane: LaneId, lock: LockRef): Table {
    var counted: int := if lane in t.users then t.users[lane] else 1;
    var remaining := counted - 1;
    if remaining <= 0 then
      var dropped := lane in t.locks && t.locks[lane] == lock;
      t.(users := t.users - {lane}, locks := if dropped then t.locks - {lane} else t.locks)
    else t.(users := t.users[lane := remaining])
  }

  class LaneLockTable {
    var locks: map<LaneId, LockRef>
    var users: map<LaneId, nat>
    var created: LockRef

    function Value(): Table
      reads this
    {
      Table(locks, users, created)
    }

    constructor ()
      ensures Value() == Table(map[], map[], 0)
    {
      locks, users, created := map[], map[], 0;
    }

    method Enter(lane: LaneId) returns (lock: LockRef)
      modifies this
      ensures Value() == Entered(old(Value()), lane) && lane in locks && lock == locks[lane]
    {
      if lane in locks {
        lock := locks[lane];
      } else {
        lock := created;
        created := created + 1;
        locks := locks[lane := lock];
      }
      users := users[lane := (if lane in users then users[lane] else 0) + 1];
    }

    method Leave(lane: LaneId, lock: LockRef)
      modifies this
      ensures Value() == Left(old(Value()), lane, lock)
    {
      var counted: int := if lane in users then users[lane] else 1;
      var remaining := counted - 1;
      if remaining <= 0 {
        users := users - {lane};
        if lane in locks && locks[lane] == lock {
          locks := locks - {lane};
        }
      } else {
        users := users[lane := remaining];
      }
    }
  }

  datatype Phase = Waiting | Holding | Leaving

  datatype Task = Task(lane: LaneId, lock: LockRef, phase: Phase)

  /** `leaked` counts, per lane, the users that were cancelled without being counted out. */
  datatype State = State(table: Table, tasks: map<TaskId, Task>, held: map<LockRef, TaskId>, leaked: map<LaneId, nat>)

  datatype Event =
    | Enter(task: TaskId, lane: LaneId)
    | Acquire(task: TaskId)
    | Release(task: TaskId)
    | Leave(task: TaskId)
    | Cancel(task: TaskId)

  predicate Enabled(s: State, e: Event) {
    match e
    case Enter(t, _) => t !in s.tasks
    case Acquire(t) => t in s.tasks && s.tasks[t].phase == Waiting && s.tasks[t].lock !in s.held
    case Release(t) => t in s.tasks && s.tasks[t].phase == Holding
    case Leave(t) => t in s.tasks && s.tasks[t].phase == Leaving
    case Cancel(t) => t in s.tasks && s.tasks[t].phase != Holding
  }

  function Leaks(s: State, lane: LaneId): nat {
    if lane in s.leaked then s.leaked[lane] else 0
  }

  function Apply(s: State, e: Event): State
    requires Enabled(s, e)
  {
    match e
    case Enter(t, lane) =>
      var table := Entered(s.table, lane);
      s.(table := table, tasks := s.tasks[t := Task(lane, table.locks[lane], Waiting)])
    case Acquire(t) =>
      var task := s.tasks[t];
      s.(tasks := s.tasks[t := task.(phase := Holding)], held := s.held[task.lock := t])
    case Release(t) =>
      var task := s.tasks[t];
      s.(tasks := s.tasks[t := task.(phase := Leaving)], held := s.held - {task.lock})
    case Leave(t) =>
      s.(table := Left(s.table, s.tasks[t].lane, s.tasks[t].lock), tasks := s.tasks - {t})
    case Cancel(t) =>
      var lane := s.tasks[t].lane;
      s.(tasks := s.tasks - {t}, leaked := s.leaked[lane := Leaks(s, lane) + 1])
  }

  ghost function Users(s: State, lane: LaneId): set<TaskId> {
    set t | t in s.tasks && s.tasks[t].lane == lane
  }

  /** A task uses the table's current lock for its lane, and holds it when inside. */
  ghost predicate TaskLinked(s: State, t: TaskId)
    requires t in s.tasks
  {
    var task := s.tasks[t];
    && task.lane in s.table.locks && s.table.locks[task.lane] == task.lock
    && (task.phase == Holding ==> task.lock in s.held && s.held[task.lock] == t)
  }

  ghost predicate HeldLinked(s: State, lock: LockRef)
    requires lock in s.held
  {
    s.held[lock] in s.tasks && s.tasks[s.held[lock]].phase == Holding && s.tasks[s.held[lock]].lock == lock
  }

  /** The table's locks are distinct objects. */
  ghost predicate Distinct(t: Table) {
    && (forall a, b :: a in t.locks && b in t.locks && t.locks[a] == t.locks[b] ==> a == b)
    && (forall a :: a in t.locks ==> t.locks[a] < t.created)
  }

  ghost predicate Linked(s: State) {
    && Distinct(s.table)
    && (forall t :: t in s.tasks ==> TaskLinked(s, t))
    && (forall l :: l in s.held ==> HeldLinked(s, l))
  }

  /** The count of a lane is the number of tasks that use it plus the leaked ones. */
  ghost predicate CountOf(s: State, lane: LaneId) {
    && (lane in s.table.locks <==> lane in s.table.users)
    && (if lane in s.table.users then s.table.users[lane] == |Users(s, lane)| + Leaks(s, lane) > 0
        else Users(s, lane) == {} && Leaks(s, lane) == 0)
  }

  ghost predicate Counted(s: State) {
    forall lane :: CountOf(s, lane)
  }

  ghost predicate Inv(s: State) {
    Linked(s) && Counted(s)
  }

  const EMPTY: State := State(Table(map[], map[], 0), map[], map[], map[])

  lemma UsersAfter(s: State, e: Event, lane: LaneId)
    requires Enabled(s, e)
    ensures Users(Apply(s, e), lane) ==
            if e.Enter? && e.lane == lane then Users(s, lane) + {e.task}
            else if e.Leave? || e.Cancel? then Users(s, lane) - {e.task}
            else Users(s, lane)
  {
  }

  lemma EnterKeepsCountOf(s: State, e: Event, lane: LaneId)
    requires e.Enter? && Enabled(s, e) && CountOf(s, lane)
    ensures CountOf(Apply(s, e), lane)
  {
    UsersAfter(s, e, lane);
    if e.lane == lane {
      assert e.task !in Users(s, lane);
    }
  }

  lemma LeaveKeepsCountOf(s: State, e: Event, lane: LaneId)
    requires e.Leave? && Enabled(s, e) && CountOf(s, lane) && TaskLinked(s, e.task)
    ensures CountOf(Apply(s, e), lane)
  {
    UsersAfter(s, e, lane);
    if s.tasks[e.task].lane == lane {
      assert e.task in Users(s, lane);
      assert |Users(s, lane) - {e.task}| == |Users(s, lane)| - 1;
    } else {
      assert e.task !in Users(s, lane);
    }
  }

  lemma CancelKeepsCountOf(s: State, e: Event, lane: LaneId)
    requires e.Cancel? && Enabled(s, e) && CountOf(s, lane) && TaskLinked(s, e.task)
    ensures CountOf(Apply(s, e), lane)
  {
    UsersAfter(s, e, lane);
    if s.tasks[e.task].lane == lane {
      assert e.task in Users(s, lane);
      assert |Users(s, lane) - {e.task}| == |Users(s, lane)| - 1;
    } else {
      assert e.task !in Users(s, lane);
    }
  }

  lemma StepKeepsCounted(s: State, e: Event)
    requires Inv(s) && Enabled(s, e)
    ensures Counted(Apply(s, e))
  {
    forall lane
      ensures CountOf(Apply(s, e), lane)
    {
      assert CountOf(s, lane);
      match e
      case Enter(_, _) => EnterKeepsCountOf(s, e, lane);
      case Leave(_) => LeaveKeepsCountOf(s, e, lane);
      case Cancel(_) => CancelKeepsCountOf(s, e, lane);
      case _ => UsersAfter(s, e, lane);
    }
  }

  /** A lock leaves the table only when the last task that uses it leaves. */
  lemma DroppedOnlyWhenUnused(s: State, e: Event, lane: LaneId)
    requires Inv(s) && Enabled(s, e)
    requires lane in s.table.locks && lane !in Apply(s, e).table.locks
    ensures e.Leave? && Users(s, lane) == {e.task} && Leaks(s, lane) == 0
    ensures Users(Apply(s, e), lane) == {}
  {
    assert CountOf(s, lane);
    assert TaskLinked(s, e.task);
    assert e.task in Users(s, lane);
    assert |Users(s, lane) - {e.task}| == 0;
    assert Users(Apply(s, e), lane) == Users(s, lane) - {e.task};
  }

  lemma StepKeepsHeldLinked(s: State, e: Event, lock: LockRef)
    requires Linked(s) && Enabled(s, e) && lock in Apply(s, e).held
    ensures HeldLinked(Apply(s, e), lock)
  {
    assert lock in s.held ==> HeldLinked(s, lock);
  }

  lemma StepKeepsDistinct(s: State, e: Event)
    requires Distinct(s.table) && Enabled(s, e)
    ensures Distinct(Apply(s, e).table)
  {
  }

  lemma StepKeepsLinked(s: State, e: Event)
    requires Inv(s) && Enabled(s, e)
    ensures Linked(Apply(s, e))
  {
    StepKeepsDistinct(s, e);
    forall t | t in Apply(s, e).tasks
      ensures TaskLinked(Apply(s, e), t)
    {
      StepKeepsTaskLinked(s, e, t);
    }
    forall l | l in Apply(s, e).held
      ensures HeldLinked(Apply(s, e), l)
    {
      StepKeepsHeldLinked(s, e, l);
    }
  }

  lemma StepKeepsTaskLinked(s: State, e: Event, t: TaskId)
    requires Inv(s) && Enabled(s, e) && t in Apply(s, e).tasks
    ensures TaskLinked(Apply(s, e), t)
  {
    var s' := Apply(s, e);
    if t in s.tasks {
      assert TaskLinked(s, t);
    }
    match e
    case Enter(_, lane) => assert CountOf(s, lane);
    case Acquire(x) => assert TaskLinked(s, x);
    case Release(x) => assert TaskLinked(s, x);
    case Leave(x) =>
      var lane := s.tasks[t].lane;
      if lane !in s'.table.locks {
        assert t in Users(s', lane);
        DroppedOnlyWhenUnused(s, e, lane);
      }
    case Cancel(_) =>
  }

  predicate Legal(s: State, events: seq<Event>)
    decreases |events|
  {
    events != [] ==> Enabled(s, events[0]) && Legal(Apply(s, events[0]), events[1..])
  }

  function Exec(s: State, events: seq<Event>): State
    requires Legal(s, events)
    decreases |events|
  {
    if events == [] then s else Exec(Apply(s, events[0]), events[1..])
  }

  lemma {:induction false} RunKeepsInv(s: State, events: seq<Event>)
    requires Inv(s) && Legal(s, events)
    ensures Inv(Exec(s, events))
    decreases |events|
  {
    if events != [] {
      StepKeepsCounted(s, events[0]);
      StepKeepsLinked(s, events[0]);
      RunKeepsInv(Apply(s, events[0]), events[1..]);
    }
  }

  /** Two tasks of one lane use the same lock object, and at most one of them is inside. */
  lemma OneHolderPerLane(s: State, a: TaskId, b: TaskId)
    requires Linked(s) && a in s.tasks && b in s.tasks && s.tasks[a].lane == s.tasks[b].lane
    ensures s.tasks[a].lock == s.tasks[b].lock
    ensures s.tasks[a].phase == Holding && s.tasks[b].phase == Holding ==> a == b
  {
    assert TaskLinked(s, a) && TaskLinked(s, b);
  }

  /** Mutual exclusion per lane in every reachable state, cancellations included. */
  lemma MutualExclusion(events: seq<Event>, a: TaskId, b: TaskId)
    requires Legal(EMPTY, events)
    ensures var s := Exec(EMPTY, events);
            a in s.tasks && b in s.tasks && s.tasks[a].lane == s.tasks[b].lane ==>
              && s.tasks[a].lock == s.tasks[b].lock
              && (s.tasks[a].phase == Holding && s.tasks[b].phase == Holding ==> a == b)
  {
    RunKeepsInv(EMPTY, events);
    var s := Exec(EMPTY, events);
    if a in s.tasks && b in s.tasks && s.tasks[a].lane == s.tasks[b].lane {
      OneHolderPerLane(s, a, b);
    }
  }

  /** Cancelled tasks of a lane, over a run. */
  ghost function Cancellations(s: State, events: seq<Event>, lane: LaneId): nat
    requires Legal(s, events)
    decreases |events|
  {
    if events == [] then 0 else
      (if events[0].Cancel? && s.tasks[events[0].task].lane == lane then 1 else 0)
      + Cancellations(Apply(s, events[0]), events[1..], lane)
  }

  lemma {:induction false} LeaksCountCancellations(s: State, events: seq<Event>, lane: LaneId)
    requires Legal(s, events)
    ensures Leaks(Exec(s, events), lane) == Leaks(s, lane) + Cancellations(s, events, lane)
    decreases |events|
  {
    if events != [] {
      LeaksCountCancellations(Apply(s, events[0]), events[1..], lane);
    }
  }

  /** Once no task is left, the table holds exactly the lanes on which a task was cancelled;
      without cancellation it is empty. */
  lemma QuiescentTable(events: seq<Event>)
    requires Legal(EMPTY, events) && Exec(EMPTY, events).tasks == map[]
    ensures forall lane :: lane in Exec(EMPTY, events).table.locks <==> Cancellations(EMPTY, events, lane) > 0
    ensures (forall e <- events :: !e.Cancel?) ==> Exec(EMPTY, events).table.locks == map[]
  {
    var s := Exec(EMPTY, events);
    RunKeepsInv(EMPTY, events);
    forall lane
      ensures lane in s.table.locks <==> Cancellations(EMPTY, events, lane) > 0
    {
      LeaksCountCancellations(EMPTY, events, lane);
      assert CountOf(s, lane);
      assert Users(s, lane) == {};
    }
    if forall e <- events :: !e.Cancel? {
      forall lane
        ensures lane !in s.table.locks
      {
        NoCancellations(EMPTY, events, lane);
      }
    }
  }

  lemma {:induction false} NoCancellations(s: State, events: seq<Event>, lane: LaneId)
    requires Legal(s, events) && forall e <- events :: !e.Cancel?
    ensures Cancellations(s, events, lane) == 0
    decreases |events|
  {
    if events != [] {
      NoCancellations(Apply(s, events[0]), events[1..], lane);
    }
  }

  lemma PrefixRun(s: State, e: Event, events: seq<Event>)
    requires Enabled(s, e) && Legal(Apply(s, e), events)
    ensures Legal(s, [e] + events) && Exec(s, [e] + events) == Exec(Apply(s, e), events)
  {
    assert ([e] + events)[1..] == events;
  }

  /** A task that finds its lane unused goes in and out if nothing interferes, and leaves no trace
      but the number of locks ever made. */
  lemma UnusedLaneIsPassed(s: State, t: TaskId, lane: LaneId) returns (events: seq<Event>)
    requires t !in s.tasks && lane !in s.table.locks && lane !in s.table.users && s.table.created !in s.held
    ensures Legal(s, events)
    ensures Exec(s, events) == s.(table := s.table.(created := s.table.created + 1))
  {
    var lock := s.table.created;
    var s1 := Apply(s, Enter(t, lane));
    var s2 := Apply(s1, Acquire(t));
    var s3 := Apply(s2, Release(t));
    var s4 := Apply(s3, Leave(t));
    assert s4.table.locks == s.table.locks && s4.table.users == s.table.users && s4.held == s.held && s4.tasks == s.tasks;
    PrefixRun(s3, Leave(t), []);
    events := [Leave(t)] + [];
    PrefixRun(s2, Release(t), events);
    events := [Release(t)] + events;
    PrefixRun(s1, Acquire(t), events);
    events := [Acquire(t)] + events;
    PrefixRun(s, Enter(t, lane), events);
    events := [Enter(t, lane)] + events;
  }

  /** Cancellation may strike a task that waits for the lock or counts itself out: it is gone, its
      count is not. */
  lemma CancellationLeaks(s: State, t: TaskId)
    requires t in s.tasks && s.tasks[t].phase != Holding
    ensures Enabled(s, Cancel(t)) && Apply(s, Cancel(t)).tasks == s.tasks - {t} && Apply(s, Cancel(t)).table == s.table
    ensures Leaks(Apply(s, Cancel(t)), s.tasks[t].lane) == Leaks(s, s.tasks[t].lane) + 1
  {
  }
}
