/** The multiplexed server's bounded admission, under every interleaving of the reader and the
    request tasks, with cancellation at every point where one of them waits.

    A permit is taken before a frame is read and given back when the frame's task ends, or when
    no frame came. A task that is cancelled before it first runs never gets to give it back. */
module Admission {

  import opened Collections

  type TaskId = nat

  /** `Abandoned` is a reader that was cancelled while it waited for the tasks. */
  datatype Reader = WantsPermit | HoldsPermit | Draining | Finished | Abandoned

  /** A task's way: it is created, the handler runs, one response frame is handed to the
      connection and flushed, and the permit is released. It may also break or be cancelled. */
  datatype Phase = Created | Handling | Responding | Flushing | Responded | Broken | Cancelled

  /** The history: frames taken in, response frames in order, tasks whose write failed, tasks that
      were cancelled, and those of them that kept their permit. */
  datatype State = State(free: nat, reader: Reader, live: map<TaskId, Phase>, closed: bool,
                         admitted: set<TaskId>, responses: seq<TaskId>, broken: set<TaskId>,
                         cancelled: set<TaskId>, leaked: set<TaskId>)

  datatype Event =
    | TakePermit
    | WaitCancelled
    | Admit(task: TaskId)
    | ReadEnds
    | Begin(task: TaskId)
    | HandlerReturns(task: TaskId)
    | Writes(task: TaskId)
    | Flushes(task: TaskId)
    | WriteFails(task: TaskId)
    | TaskCancelled(task: TaskId)
    | Release(task: TaskId)
    | Finish
    | DrainCancelled

  predicate In(s: State, t: TaskId, p: Phase) {
    t in s.live && s.live[t] == p
  }

  /** The task waits for something and can be cancelled. */
  predicate Pausing(s: State, t: TaskId) {
    t in s.live && (s.live[t].Created? || s.live[t].Handling? || s.live[t].Responding? || s.live[t].Flushing?)
  }

  predicate Enabled(s: State, e: Event) {
    match e
    case TakePermit => s.reader == WantsPermit && s.free > 0
    case WaitCancelled => s.reader == WantsPermit
    case Admit(t) => s.reader == HoldsPermit && t !in s.admitted
    case ReadEnds => s.reader == HoldsPermit
    case Begin(t) => In(s, t, Created)
    case HandlerReturns(t) => In(s, t, Handling)
    case Writes(t) => In(s, t, Responding)
    case Flushes(t) => In(s, t, Flushing)
    case WriteFails(t) => In(s, t, Responding) || In(s, t, Flushing)
    case TaskCancelled(t) => Pausing(s, t)
    case Release(t) => In(s, t, Responded) || In(s, t, Broken) || In(s, t, Cancelled)
    case Finish => s.reader == Draining && s.live == map[]
    case DrainCancelled => s.reader == Draining
  }

  /** A cancelled task goes through its `finally` block, unless it never ran. */
  function AfterCancel(s: State, t: TaskId): State
    requires Pausing(s, t)
  {
    if s.live[t].Created?
    then s.(live := s.live - {t}, cancelled := s.cancelled + {t}, leaked := s.leaked + {t})
    else s.(live := s.live[t := Cancelled], cancelled := s.cancelled + {t})
  }

  function Apply(s: State, e: Event): State
    requires Enabled(s, e)
  {
    match e
    case TakePermit => s.(free := s.free - 1, reader := HoldsPermit)
    case WaitCancelled => s.(reader := Draining)
    case Admit(t) => s.(reader := WantsPermit, live := s.live[t := Created], admitted := s.admitted + {t})
    case ReadEnds => s.(free := s.free + 1, reader := Draining)
    case Begin(t) => s.(live := s.live[t := Handling])
    case HandlerReturns(t) => s.(live := s.live[t := Responding])
    case Writes(t) => s.(live := s.live[t := Flushing], responses := s.responses + [t])
    case Flushes(t) => s.(live := s.live[t := Responded])
    case WriteFails(t) => s.(live := s.live[t := Broken], closed := true, broken := s.broken + {t})
    case TaskCancelled(t) => AfterCancel(s, t)
    case Release(t) => s.(free := s.free + 1, live := s.live - {t})
    case Finish => s.(reader := Finished, closed := true)
    case DrainCancelled => s.(reader := Abandoned)
  }

  function Start(maxInflight: nat): State {
    State(maxInflight, WantsPermit, map[], false, {}, [], {}, {}, {})
  }

  function Held(r: Reader): nat {
    if r == HoldsPermit then 1 else 0
  }

  /** No permit is made up, and none is lost but those of tasks that never ran. */
  predicate Conserved(maxInflight: nat, s: State) {
    s.free + Held(s.reader) + |s.live| + |s.leaked| == maxInflight
  }

  /** Each admitted frame is waiting for its response, or has exactly one, or its write failed
      and the connection is closed, or its task was cancelled. */
  ghost predicate Accounted(s: State, t: TaskId) {
    && (t in s.live || t in s.responses || t in s.broken || t in s.cancelled ==> t in s.admitted)
    && (t in s.admitted ==> Unanswered(s, t) || t in s.responses || t in s.broken || t in s.cancelled)
    && (Unanswered(s, t) ==> t !in s.responses && t !in s.broken && t !in s.cancelled)
    && (t in s.broken ==> s.closed && t !in s.cancelled)
    && (In(s, t, Flushing) || In(s, t, Responded) ==> t in s.responses && t !in s.broken && t !in s.cancelled)
    && (t in s.leaked ==> t in s.cancelled && t !in s.live)
  }

  predicate Unanswered(s: State, t: TaskId) {
    In(s, t, Created) || In(s, t, Handling) || In(s, t, Responding)
  }

  ghost predicate Inv(maxInflight: nat, s: State) {
    && Conserved(maxInflight, s)
    && NoRepeats(s.responses)
    && (forall t :: Accounted(s, t))
    && (s.reader == Finished ==> s.live == map[] && s.closed)
  }

  lemma StepKeepsConserved(maxInflight: nat, s: State, e: Event)
    requires Conserved(maxInflight, s) && Enabled(s, e) && (e.Admit? ==> e.task !in s.live)
    requires e.TaskCancelled? ==> Accounted(s, e.task)
    ensures Conserved(maxInflight, Apply(s, e))
  {
    match e
    case TakePermit =>
    case WaitCancelled =>
    case ReadEnds =>
    case Finish =>
    case DrainCancelled =>
    case Admit(t) => SizeAfterSet(s.live, t, Created);
    case Begin(t) => SizeAfterSet(s.live, t, Handling);
    case HandlerReturns(t) => SizeAfterSet(s.live, t, Responding);
    case Writes(t) => SizeAfterSet(s.live, t, Flushing);
    case Flushes(t) => SizeAfterSet(s.live, t, Responded);
    case WriteFails(t) => SizeAfterSet(s.live, t, Broken);
    case TaskCancelled(t) =>
      SizeAfterSet(s.live, t, Cancelled);
      SizeAfterRemove(s.live, t);
    case Release(t) => SizeAfterRemove(s.live, t);
  }

  lemma SizeAfterSet(m: map<TaskId, Phase>, t: TaskId, p: Phase)
    ensures |m[t := p]| == if t in m then |m| else |m| + 1
  {
    assert m[t := p].Keys == m.Keys + {t};
    assert |m| == |m.Keys| && |m[t := p]| == |m[t := p].Keys|;
  }

  lemma SizeAfterRemove(m: map<TaskId, Phase>, t: TaskId)
    requires t in m
    ensures |m - {t}| == |m| - 1
  {
    assert (m - {t}).Keys == m.Keys - {t};
    assert |m| == |m.Keys| && |m - {t}| == |(m - {t}).Keys|;
  }

  lemma StepKeepsAccounted(s: State, e: Event, t: TaskId)
    requires Enabled(s, e) && Accounted(s, t)
    ensures Accounted(Apply(s, e), t)
  {
    if e.Writes? {
      assert t in s.responses + [e.task] <==> t in s.responses || t == e.task;
    }
  }

  lemma StepKeepsInv(maxInflight: nat, s: State, e: Event)
    requires Inv(maxInflight, s) && Enabled(s, e)
    ensures Inv(maxInflight, Apply(s, e))
  {
    if e.Admit? || e.Writes? || e.TaskCancelled? {
      assert Accounted(s, e.task);
    }
    StepKeepsConserved(maxInflight, s, e);
    forall t
      ensures Accounted(Apply(s, e), t)
    {
      StepKeepsAccounted(s, e, t);
    }
  }

  predicate Legal(s: State, events: seq<Event>)
    decreases |events|
  {
    events != [] ==> Enabled(s, events[0]) && Legal(Apply(s, events[0]), events[1..])
  }

  function Exec(s: State, events: seq<Event>): State
    requires Legal(s, events)
    decreases |events|
  {
    if events == [] then s else Exec(Apply(s, events[0]), events[1..])
  }

  lemma {:induction false} RunKeepsInv(maxInflight: nat, s: State, events: seq<Event>)
    requires Inv(maxInflight, s) && Legal(s, events)
    ensures Inv(maxInflight, Exec(s, events))
    decreases |events|
  {
    if events != [] {
      StepKeepsInv(maxInflight, s, events[0]);
      RunKeepsInv(maxInflight, Apply(s, events[0]), events[1..]);
    }
  }

  /** How often a task is cancelled before its first step. */
  function EarlyCancellations(s: State, events: seq<Event>): nat
    requires Legal(s, events)
    decreases |events|
  {
    if events == [] then 0 else
      EarlyCancellations(Apply(s, events[0]), events[1..])
      + if events[0].TaskCancelled? && In(s, events[0].task, Created) then 1 else 0
  }

  /** Those are the permits that are lost. */
  lemma {:induction false} LeaksCountEarlyCancellations(maxInflight: nat, s: State, events: seq<Event>)
    requires Inv(maxInflight, s) && Legal(s, events)
    ensures |Exec(s, events).leaked| == |s.leaked| + EarlyCancellations(s, events)
    decreases |events|
  {
    if events != [] {
      if events[0].TaskCancelled? {
        assert Accounted(s, events[0].task);
      }
      StepKeepsInv(maxInflight, s, events[0]);
      LeaksCountEarlyCancellations(maxInflight, Apply(s, events[0]), events[1..]);
    }
  }

  lemma StartIsGood(maxInflight: nat)
    ensures Inv(maxInflight, Start(maxInflight))
  {
  }

  /** In every state of every run, free permits, the reader's permit, live tasks and early
      cancellations add up to the bound; so permits, reader and tasks alone do so exactly if no
      task was cancelled before its first step. No more than `maxInflight` requests are ever in
      progress, and the reader is kept waiting exactly when the others have all the permits. */
  lemma PermitsAreConserved(maxInflight: nat, events: seq<Event>)
    requires maxInflight >= 1 && Legal(Start(maxInflight), events)
    ensures var s, lost := Exec(Start(maxInflight), events), EarlyCancellations(Start(maxInflight), events);
            && s.free + Held(s.reader) + |s.live| + lost == maxInflight
            && (s.free + Held(s.reader) + |s.live| == maxInflight <==> lost == 0)
            && (s.reader == WantsPermit ==> (!Enabled(s, TakePermit) <==> |s.live| + lost == maxInflight))
  {
    StartIsGood(maxInflight);
    RunKeepsInv(maxInflight, Start(maxInflight), events);
    LeaksCountEarlyCancellations(maxInflight, Start(maxInflight), events);
  }

  /** Each admitted frame gets at most one response; when the server has finished, each has one,
      or its write failed and closed the connection, or its task was cancelled; and every permit
      is back but those of tasks that never ran. */
  lemma OneResponsePerFrame(maxInflight: nat, events: seq<Event>, t: TaskId)
    requires maxInflight >= 1 && Legal(Start(maxInflight), events)
    ensures var s, lost := Exec(Start(maxInflight), events), EarlyCancellations(Start(maxInflight), events);
            && NoRepeats(s.responses)
            && (t in s.responses || t in s.broken || t in s.cancelled ==> t in s.admitted)
            && (s.reader == Finished ==>
                  && s.closed && s.free == maxInflight - lost
                  && (t in s.admitted <==> t in s.responses || t in s.broken || t in s.cancelled))
  {
    StartIsGood(maxInflight);
    RunKeepsInv(maxInflight, Start(maxInflight), events);
    LeaksCountEarlyCancellations(maxInflight, Start(maxInflight), events);
    assert Accounted(Exec(Start(maxInflight), events), t);
  }

  lemma PrefixRun(s: State, e: Event, events: seq<Event>)
    requires Enabled(s, e) && Legal(Apply(s, e), events)
    ensures Legal(s, [e] + events) && Exec(s, [e] + events) == Exec(Apply(s, e), events)
  {
    assert ([e] + events)[1..] == events;
  }

  /** A frame that arrives while a permit is free is served: if nothing interferes it is answered
      once, and then everything is as before. */
  lemma FrameIsServed(s: State, t: TaskId) returns (events: seq<Event>)
    requires s.reader == WantsPermit && s.free > 0 && t !in s.admitted && t !in s.live
    ensures Legal(s, events)
    ensures Exec(s, events) == s.(admitted := s.admitted + {t}, responses := s.responses + [t])
  {
    var s1 := Apply(s, TakePermit);
    var s2 := Apply(s1, Admit(t));
    var s3 := Apply(s2, Begin(t));
    events := TaskEnds(s3, t);
    assert s3.live - {t} == s.live;
    PrefixRun(s2, Begin(t), events);
    events := [Begin(t)] + events;
    PrefixRun(s1, Admit(t), events);
    events := [Admit(t)] + events;
    PrefixRun(s, TakePermit, events);
    events := [TakePermit] + events;
  }

  lemma TaskEnds(s: State, t: TaskId) returns (events: seq<Event>)
    requires In(s, t, Handling)
    ensures Legal(s, events)
    ensures Exec(s, events) == s.(free := s.free + 1, live := s.live - {t}, responses := s.responses + [t])
  {
    var s1 := Apply(s, HandlerReturns(t));
    var s2 := Apply(s1, Writes(t));
    var s3 := Apply(s2, Flushes(t));
    assert s3.live - {t} == s.live - {t};
    PrefixRun(s3, Release(t), []);
    events := [Release(t)] + [];
    PrefixRun(s2, Flushes(t), events);
    events := [Flushes(t)] + events;
    PrefixRun(s1, Writes(t), events);
    events := [Writes(t)] + events;
    PrefixRun(s, HandlerReturns(t), events);
    events := [HandlerReturns(t)] + events;
  }

  /** When nothing is in progress and the stream ends, or the waiting reader is cancelled, the
      server closes the connection and is done, with every permit it had. */
  lemma ServerEnds(s: State)
    requires s.live == map[] && (s.reader == WantsPermit || s.reader == HoldsPermit)
    ensures var events := if s.reader == HoldsPermit then [ReadEnds, Finish] else [WaitCancelled, Finish];
            && Legal(s, events)
            && Exec(s, events) == s.(reader := Finished, closed := true, free := s.free + Held(s.reader))
  {
    var e := if s.reader == HoldsPermit then ReadEnds else WaitCancelled;
    PrefixRun(Apply(s, e), Finish, []);
    PrefixRun(s, e, [Finish] + []);
    assert [e] + ([Finish] + []) == [e, Finish];
  }

  /** What may go wrong: a write fails and closes the connection; a task is cancelled, and its
      permit is lost exactly if it never ran; the reader is cancelled while it waits for the tasks,
      and the connection stays as it is. */
  lemma FailuresComeAnyTime(s: State, t: TaskId)
    ensures In(s, t, Responding) || In(s, t, Flushing) ==>
              Enabled(s, WriteFails(t)) && Apply(s, WriteFails(t)).closed && t in Apply(s, WriteFails(t)).broken
    ensures Pausing(s, t) ==>
              && Enabled(s, TaskCancelled(t)) && t in Apply(s, TaskCancelled(t)).cancelled
              && (if s.live[t].Created? then t !in Apply(s, TaskCancelled(t)).live && Apply(s, TaskCancelled(t)).free == s.free
                  else Enabled(Apply(s, TaskCancelled(t)), Release(t)) && Apply(Apply(s, TaskCancelled(t)), Release(t)).free == s.free + 1)
    ensures s.reader == Draining ==> Enabled(s, DrainCancelled) && Apply(s, DrainCancelled) == s.(reader := Abandoned)
  {
  }
}
