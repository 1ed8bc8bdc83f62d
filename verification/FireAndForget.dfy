/**
 `FireAndForgetQueue` as an interleaving of atomic steps: any number of producers, the consumer thread, callers
 of `stop`, and the executor. The queue's own operations are atomic; the drop counter is not, and is guarded by
 its lock one statement at a time.
 */
module FireAndForget {
  import opened Wrappers

  /** Where the consumer thread stands in `_consume_loop`. */
  datatype Consumer<T> =
    | AtTop                    // before the loop's `_stop.is_set()`
    | Getting                  // inside `_queue.get(timeout=0.5)`
    | TimedOut                 // `queue.Empty` caught, before `_stop.is_set()`
    | StopSeen                 // stop was set, before `_queue.empty()`
    | Holding(task: T)         // before `_executor.submit`
    | Finishing(broke: bool)   // in `finally`, before `task_done()`
    | Leaving                  // out of the loop, before `_drained.set()`
    | Gone

  /** Where a producer stands in the overflow branch of `submit`. */
  datatype Producer =
    | Idle
    | Rejected                 // `queue.Full` caught, before acquiring the lock
    | Locked
    | Loaded(value: nat)       // read `_dropped`
    | Stored                   // wrote `_dropped`
    | Snapped(snapshot: nat)   // took `dropped_snapshot`, before releasing the lock
    | Unlocked(snapshot: nat)  // before the warning and `return False`

  datatype State<T> = State(
    maxSize: int,
    queue: seq<T>,
    unfinished: int,
    consumer: Consumer<T>,
    stop: bool,
    drained: bool,
    executorUp: bool,
    producers: map<int, Producer>,
    lock: Option<int>,
    dropped: nat,
    // histories
    accepted: seq<T>,
    handed: seq<T>,
    refused: seq<T>,
    increments: nat,           // completed writes of `_dropped`
    issued: seq<int>,          // the producers in the order of their snapshots
    reported: seq<nat>)        // `dropped_count` values in the order logged

  datatype Step<T> =
    | Submit(p: int, task: T) | Acquire(p: int) | Load(p: int) | Store(p: int) | Snap(p: int) | Release(p: int) | Log(p: int)
    | CheckStop | Get | TimeOut | RecheckStop | CheckEmpty | HandOver | TaskDone | SetDrained
    | RequestStop | ShutDown | InterpreterExit

  function Init<T>(maxSize: int, pids: set<int>): State<T> {
    State(maxSize, [], 0, AtTop, false, false, true, map p | p in pids :: Idle, None, 0, [], [], [], 0, [], [])
  }

  /** `queue.Queue` treats a size of zero or less as unbounded. */
  predicate Full<T>(s: State<T>) {
    0 < s.maxSize <= |s.queue|
  }

  predicate Enabled<T>(s: State<T>, step: Step<T>) {
    match step
    case Submit(p, _) => p in s.producers && s.producers[p].Idle?
    case Acquire(p) => p in s.producers && s.producers[p].Rejected? && s.lock.None?
    case Load(p) => p in s.producers && s.producers[p].Locked?
    case Store(p) => p in s.producers && s.producers[p].Loaded?
    case Snap(p) => p in s.producers && s.producers[p].Stored?
    case Release(p) => p in s.producers && s.producers[p].Snapped?
    case Log(p) => p in s.producers && s.producers[p].Unlocked?
    case CheckStop => s.consumer.AtTop?
    case Get => s.consumer.Getting? && s.queue != []
    case TimeOut => s.consumer.Getting? && s.queue == []
    case RecheckStop => s.consumer.TimedOut?
    case CheckEmpty => s.consumer.StopSeen?
    case HandOver => s.consumer.Holding?
    case TaskDone => s.consumer.Finishing?
    case SetDrained => s.consumer.Leaving?
    case RequestStop => true
    case ShutDown => s.stop   // after `join`, which may also have timed out
    case InterpreterExit => true
  }

  function Move<T>(s: State<T>, p: int, to: Producer): State<T> {
    s.(producers := s.producers[p := to])
  }

  function Next<T>(s: State<T>, step: Step<T>): State<T>
    requires Enabled(s, step)
  {
    match step
    case Submit(p, task) =>
      if Full(s) then Move(s, p, Rejected)
      else s.(queue := s.queue + [task], unfinished := s.unfinished + 1, accepted := s.accepted + [task])
    case Acquire(p) => Move(s, p, Locked).(lock := Some(p))
    case Load(p) => Move(s, p, Loaded(s.dropped))
    case Store(p) => Move(s, p, Stored).(dropped := s.producers[p].value + 1, increments := s.increments + 1)
    case Snap(p) => Move(s, p, Snapped(s.dropped)).(issued := s.issued + [p])
    case Release(p) => Move(s, p, Unlocked(s.producers[p].snapshot)).(lock := None)
    case Log(p) => Move(s, p, Idle).(reported := s.reported + [s.producers[p].snapshot])
    case CheckStop => s.(consumer := if s.stop then Leaving else Getting)
    case Get => s.(consumer := Holding(s.queue[0]), queue := s.queue[1..])
    case TimeOut => s.(consumer := TimedOut)
    case RecheckStop => s.(consumer := if s.stop then StopSeen else AtTop)
    case CheckEmpty => s.(consumer := if s.queue == [] then Leaving else AtTop)
    case HandOver =>
      if s.executorUp then s.(consumer := Finishing(false), handed := s.handed + [s.consumer.task])
      else s.(consumer := Finishing(true), refused := s.refused + [s.consumer.task])
    case TaskDone => s.(consumer := if s.consumer.broke then Leaving else AtTop, unfinished := s.unfinished - 1)
    case SetDrained => s.(consumer := Gone, drained := true)
    case RequestStop => s.(stop := true)
    case ShutDown => s.(executorUp := false)
    case InterpreterExit => s.(executorUp := false)
  }

  /** `t` is reached from `s` by this run. */
  ghost predicate Runs<T>(s: State<T>, steps: seq<Step<T>>, t: State<T>)
    decreases |steps|
  {
    if steps == [] then s == t
    else Enabled(s, steps[0]) && Runs(Next(s, steps[0]), steps[1..], t)
  }

  function Hand<T>(s: State<T>): seq<T> {
    if s.consumer.Holding? then [s.consumer.task] else []
  }

  // ---------------------------------------------------------------- delivery

  /** Every accepted task is in exactly one place, and the order of acceptance is kept across all of them. */
  ghost predicate Delivery<T>(s: State<T>) {
    && s.accepted == s.handed + s.refused + Hand(s) + s.queue
    && |s.refused| <= 1
    && (s.refused != [] ==> !s.executorUp && (s.consumer == Finishing(true) || s.consumer.Leaving? || s.consumer.Gone?))
    && (s.consumer == Finishing(true) ==> s.refused != [])
    && (0 < s.maxSize ==> |s.queue| <= s.maxSize)
    && s.unfinished == |s.queue| + (if s.consumer.Holding? || s.consumer.Finishing? then 1 else 0)
    && (s.drained <==> s.consumer.Gone?)
  }

  lemma StepKeepsDelivery<T>(s: State<T>, step: Step<T>)
    requires Delivery(s) && Enabled(s, step)
    ensures Delivery(Next(s, step))
  {
    hide Delivery, Enabled, Next;
    match step
    case Submit(p, task) => SubmitKeepsDelivery(s, p, task);
    case CheckStop | TimeOut | RecheckStop | CheckEmpty | TaskDone | SetDrained => LoopStepsKeepDelivery(s, step);
    case Get => GetKeepsDelivery(s);
    case HandOver => HandOverKeepsDelivery(s);
    case _ => CounterStepsLeaveDelivery(s, step);
  }

  lemma LoopStepsKeepDelivery<T>(s: State<T>, step: Step<T>)
    requires Delivery(s) && Enabled(s, step)
    requires step.CheckStop? || step.TimeOut? || step.RecheckStop? || step.CheckEmpty? || step.TaskDone? || step.SetDrained?
    ensures Delivery(Next(s, step))
  {
  }

  lemma GetKeepsDelivery<T>(s: State<T>)
    requires Delivery(s) && Enabled(s, Get)
    ensures Delivery(Next(s, Get))
  {
    var t := Next(s, Get);
    var out := s.handed + s.refused;
    assert s.accepted == out + [] + s.queue;
    assert s.queue == [s.queue[0]] + s.queue[1..];
    assert out + [] + s.queue == out + [s.queue[0]] + s.queue[1..];
  }

  lemma HandOverKeepsDelivery<T>(s: State<T>)
    requires Delivery(s) && Enabled(s, HandOver)
    ensures Delivery(Next(s, HandOver))
  {
    var t := Next(s, HandOver);
    assert s.refused == [];
    assert t.handed + t.refused == s.handed + [s.consumer.task];
    assert t.handed + t.refused + [] == s.handed + [] + [s.consumer.task];
  }

  lemma SubmitKeepsDelivery<T>(s: State<T>, p: int, task: T)
    requires Delivery(s) && Enabled(s, Submit(p, task))
    ensures Delivery(Next(s, Submit(p, task)))
  {
    var t := Next(s, Submit(p, task));
    if !Full(s) { assert t.accepted == t.handed + t.refused + Hand(t) + t.queue; }
  }

  lemma CounterStepsLeaveDelivery<T>(s: State<T>, step: Step<T>)
    requires Delivery(s) && Enabled(s, step)
    requires step.Acquire? || step.Load? || step.Store? || step.Snap? || step.Release? || step.Log?
             || step.RequestStop? || step.ShutDown? || step.InterpreterExit?
    ensures Delivery(Next(s, step))
  {
  }

  /** Conservation and first-in first-out order, in every state any interleaving can reach. */
  lemma {:induction false} TasksAreConserved<T>(s: State<T>, steps: seq<Step<T>>, t: State<T>)
    requires Delivery(s) && Runs(s, steps, t)
    ensures Delivery(t)
    decreases |steps|
  {
    if steps != [] {
      StepKeepsDelivery(s, steps[0]);
      TasksAreConserved(Next(s, steps[0]), steps[1..], t);
    }
  }

  lemma DeliveryFromStart<T>(maxSize: int, pids: set<int>, steps: seq<Step<T>>, t: State<T>)
    requires Runs(Init(maxSize, pids), steps, t)
    ensures t.accepted == t.handed + t.refused + Hand(t) + t.queue
    ensures |t.refused| + |Hand(t)| <= 1
    ensures 0 < maxSize ==> |t.queue| <= maxSize
    ensures t.unfinished == |t.queue| + (if t.consumer.Holding? || t.consumer.Finishing? then 1 else 0)
  {
    TasksAreConserved(Init(maxSize, pids), steps, t);
    MaxSizeIsFixed(Init(maxSize, pids), steps, t);
  }

  lemma {:induction false} MaxSizeIsFixed<T>(s: State<T>, steps: seq<Step<T>>, t: State<T>)
    requires Runs(s, steps, t)
    ensures t.maxSize == s.maxSize
    decreases |steps|
  {
    if steps != [] { MaxSizeIsFixed(Next(s, steps[0]), steps[1..], t); }
  }

  /**
   A submission is accepted exactly while the queue has room: a capacity that is not positive always has. Otherwise it finds
   exactly as many tasks queued as fit, and changes nothing but its own producer, which goes on to count the drop.
   */
  lemma SubmitAcceptsIff<T>(maxSize: int, pids: set<int>, steps: seq<Step<T>>, t: State<T>, p: int, task: T)
    requires Runs(Init(maxSize, pids), steps, t) && Enabled(t, Submit(p, task))
    ensures var u := Next(t, Submit(p, task));
            if maxSize <= 0 || |t.queue| < maxSize then
              u == t.(accepted := t.accepted + [task], queue := t.queue + [task], unfinished := t.unfinished + 1)
            else
              |t.queue| == maxSize && u == t.(producers := t.producers[p := Rejected])
  {
    DeliveryFromStart(maxSize, pids, steps, t);
    MaxSizeIsFixed(Init(maxSize, pids), steps, t);
  }

  /**
   What `drain` returning True tells: an empty queue can still hide one task, in the consumer's hand or refused.
   Every accepted task has reached the executor exactly when neither is the case.
   */
  lemma EmptyQueueHidesAtMostOneTask<T>(s: State<T>)
    requires Delivery(s) && s.queue == []
    ensures |s.accepted| <= |s.handed| + 1
    ensures s.handed == s.accepted <==> !s.consumer.Holding? && s.refused == []
  {
  }

  /**
   What a caller can read instead: with the queue empty and the executor up, `unfinished_tasks` is zero exactly when every
   accepted task has been handed over and accounted for. With the executor down, zero leaves at most a refused one.
   */
  lemma NoneUnfinishedIff<T>(s: State<T>)
    requires Delivery(s) && s.queue == []
    ensures s.executorUp ==> (s.unfinished == 0 <==> s.handed == s.accepted && !s.consumer.Finishing?)
    ensures s.unfinished == 0 ==> s.accepted == s.handed + s.refused
  {
    WhereTasksAre(s);
    assert s.handed + s.refused + [] == s.handed + s.refused;
  }

  /** So on every run: no unfinished task and the executor up mean that all work accepted so far has been handed over, in order. */
  lemma NoneUnfinishedMeansDelivered<T>(maxSize: int, pids: set<int>, steps: seq<Step<T>>, t: State<T>)
    requires Runs(Init(maxSize, pids), steps, t) && t.unfinished == 0 && t.executorUp
    ensures t.queue == [] && t.handed == t.accepted
  {
    TasksAreConserved(Init(maxSize, pids), steps, t);
    NoneUnfinishedIff(t);
  }

  /** The smallest such state: one accepted task, taken from the queue and not handed over, while a drain would answer True. */
  lemma DrainCanHideATask<T>(task: T) returns (steps: seq<Step<T>>, t: State<T>)
    ensures Runs(Init(1000, {0}), steps, t)
    ensures t.queue == [] && t.accepted == [task] && t.handed == [] && t.refused == []
    ensures t.consumer == Holding(task) && !t.stop && t.executorUp
  {
    var s0: State<T> := Init(1000, {0});
    var s1 := Next(s0, Submit(0, task));
    var s2 := Next(s1, CheckStop);
    t := Next(s2, Get);
    steps := [Submit(0, task), CheckStop, Get];
    assert steps[1..] == [CheckStop, Get];
    assert steps[1..][1..] == [Get];
    assert Runs(s2, [Get], t);
    assert Runs(s1, steps[1..], t);
  }

  // ---------------------------------------------------------------- stopping

  /** The tasks that have left the queue. */
  function Taken<T>(s: State<T>): nat {
    |s.handed| + |s.refused| + |Hand(s)|
  }

  /** The most the consumer may still take once stop is set: one, if it is inside `get`. */
  function MayTake<T>(s: State<T>): nat {
    if s.consumer.Getting? then 1 else 0
  }

  /** What it is sure to take before it leaves: one, if it is inside `get` and there is one. */
  function StillTaken<T>(s: State<T>): nat {
    if s.consumer.Getting? && s.queue != [] then 1 else 0
  }

  lemma StepTakes<T>(s: State<T>, step: Step<T>)
    requires Enabled(s, step)
    ensures Taken(s) <= Taken(Next(s, step)) && s.accepted <= Next(s, step).accepted
  {
  }

  lemma StoppedStep<T>(s: State<T>, step: Step<T>)
    requires s.stop && Enabled(s, step)
    ensures Next(s, step).stop
    ensures Taken(Next(s, step)) + MayTake(Next(s, step)) <= Taken(s) + MayTake(s)
    ensures Taken(s) + StillTaken(s) <= Taken(Next(s, step)) + StillTaken(Next(s, step))
  {
  }

  lemma {:induction false} StoppedRun<T>(s: State<T>, steps: seq<Step<T>>, t: State<T>)
    requires s.stop && Runs(s, steps, t)
    ensures Taken(t) + MayTake(t) <= Taken(s) + MayTake(s)
    ensures Taken(s) + StillTaken(s) <= Taken(t) + StillTaken(t)
    decreases |steps|
  {
    if steps != [] {
      hide Next, Enabled, Taken, MayTake, StillTaken;
      StoppedStep(s, steps[0]);
      StoppedRun(Next(s, steps[0]), steps[1..], t);
    }
  }

  /** The tasks taken are the first ones accepted, the queue holds the rest. */
  lemma TakenAreFirst<T>(s: State<T>)
    requires Delivery(s)
    ensures Taken(s) <= |s.accepted|
    ensures s.handed + s.refused + Hand(s) == s.accepted[..Taken(s)] && s.queue == s.accepted[Taken(s)..]
  {
    WhereTasksAre(s);
    hide Delivery;
    var out := s.handed + s.refused + Hand(s);
    assert (out + s.queue)[..|out|] == out && (out + s.queue)[|out|..] == s.queue;
  }

  /**
   After stop, on every run, submissions accepted meanwhile included: beyond the tasks taken so far the consumer takes
   at most one more, and only if it was inside `get`; the tasks taken are the first ones accepted.
   */
  lemma StopBoundsWork<T>(s: State<T>, steps: seq<Step<T>>, t: State<T>)
    requires Delivery(s) && s.stop && Runs(s, steps, t)
    ensures Taken(s) <= Taken(t) <= Taken(s) + MayTake(s)
    ensures Taken(t) <= |t.accepted| && s.accepted <= t.accepted
    ensures t.handed + t.refused + Hand(t) == t.accepted[..Taken(t)]
    ensures t.queue == t.accepted[Taken(t)..]
  {
    TasksAreConserved(s, steps, t);
    StoppedRun(s, steps, t);
    TakenAreFirst(t);
    TakenGrows(s, steps, t);
  }

  lemma {:induction false} TakenGrows<T>(s: State<T>, steps: seq<Step<T>>, t: State<T>)
    requires Runs(s, steps, t)
    ensures Taken(s) <= Taken(t) && s.accepted <= t.accepted
    decreases |steps|
  {
    if steps != [] {
      hide Next, Enabled, Taken;
      StepTakes(s, steps[0]);
      TakenGrows(Next(s, steps[0]), steps[1..], t);
    }
  }

  /** Positions in a list that has grown: what stood behind the first `n` and what was added, cut `m - n` further on. */
  lemma CutFurtherOn<T>(was: seq<T>, now: seq<T>, n: nat, m: nat)
    requires was <= now && n <= |was| && n <= m <= |now|
    ensures var waiting := was[n..] + now[|was|..];
            && m - n <= |waiting| && waiting[m - n..] == now[m..]
            && now[..m] == was[..n] + waiting[..m - n]
  {
    var waiting := was[n..] + now[|was|..];
    assert now == was + now[|was|..];
    assert waiting == now[n..];
  }

  /**
   `stop` does not drain. When the consumer has left, `k` more tasks than at the stop have been handed over or refused,
   where `k` is at most one, and is one if the consumer was inside `get` with a task to take. All other tasks, those
   queued at the stop and those accepted after it, are left in the queue.
   */
  lemma StopAbandonsTheQueue<T>(s: State<T>, steps: seq<Step<T>>, t: State<T>) returns (k: nat)
    requires Delivery(s) && s.stop && Runs(s, steps, t) && t.consumer.Gone?
    ensures StillTaken(s) <= k <= MayTake(s) && s.accepted <= t.accepted
    ensures var waiting := s.queue + t.accepted[|s.accepted|..];
            && k <= |waiting|
            && t.queue == waiting[k..]
            && t.handed + t.refused == s.handed + s.refused + Hand(s) + waiting[..k]
    ensures t.accepted == s.accepted ==>
              k == StillTaken(s) && t.queue == s.queue[k..] && (t.queue == [] <==> |s.queue| <= k)
  {
    StopBoundsWork(s, steps, t);
    StoppedRun(s, steps, t);
    TakenAreFirst(s);
    k := Taken(t) - Taken(s);
    CutFurtherOn(s.accepted, t.accepted, Taken(s), Taken(t));
    assert t.handed + t.refused + [] == t.handed + t.refused;
    assert Hand(t) == [] && MayTake(t) == 0 == StillTaken(t);
    hide Delivery, Taken, MayTake, Hand, Runs;
    if t.accepted == s.accepted {
      assert t.accepted[|s.accepted|..] == [];
      assert s.queue + [] == s.queue;
    }
  }

  lemma WhereTasksAre<T>(s: State<T>)
    requires Delivery(s)
    ensures s.accepted == s.handed + s.refused + Hand(s) + s.queue
    ensures !s.consumer.Holding? ==> s.accepted == s.handed + s.refused + s.queue
  {
    assert s.handed + s.refused + [] == s.handed + s.refused;
  }

  /** How far the consumer is from having left, once stop is set. */
  function StepsToLeave<T>(s: State<T>): nat {
    match s.consumer
    case Gone => 0
    case Leaving => 1
    case AtTop => 2
    case StopSeen => 3
    case Finishing(_) => 3
    case TimedOut => 4
    case Holding(_) => 4
    case Getting => 5
  }

  /** Once stop is set the consumer always can leave, without any further task being accepted. */
  lemma {:induction false} StoppedConsumerCanLeave<T>(s: State<T>) returns (steps: seq<Step<T>>, t: State<T>)
    requires s.stop
    ensures Runs(s, steps, t) && t.consumer.Gone? && t.accepted == s.accepted
    decreases StepsToLeave(s)
  {
    if s.consumer.Gone? {
      return [], s;
    }
    var step: Step<T> := match s.consumer
      case Leaving => SetDrained
      case AtTop => CheckStop
      case StopSeen => CheckEmpty
      case Finishing(_) => TaskDone
      case TimedOut => RecheckStop
      case Holding(_) => HandOver
      case _ => if s.queue == [] then TimeOut else Get;
    var rest;
    rest, t := StoppedConsumerCanLeave(Next(s, step));
    steps := [step] + rest;
  }

  /** The smallest loss: one accepted task, then stop, and the consumer leaves without it. */
  lemma StopCanLoseWork<T>(task: T) returns (steps: seq<Step<T>>, t: State<T>)
    ensures Runs(Init(1000, {0}), steps, t)
    ensures t.consumer.Gone? && t.accepted == [task] == t.queue && t.handed == [] == t.refused
  {
    var s0: State<T> := Init(1000, {0});
    var s1 := Next(s0, Submit(0, task));
    var s2 := Next(s1, RequestStop);
    var s3 := Next(s2, CheckStop);
    t := Next(s3, SetDrained);
    steps := [Submit(0, task), RequestStop, CheckStop, SetDrained];
    assert steps[1..] == [RequestStop, CheckStop, SetDrained];
    assert steps[1..][1..] == [CheckStop, SetDrained];
    assert steps[1..][1..][1..] == [SetDrained];
    assert Runs(s3, [SetDrained], t);
    assert Runs(s2, steps[1..][1..], t);
    assert Runs(s1, steps[1..], t);
  }

  // ---------------------------------------------------------------- the drop counter

  predicate InCriticalSection(x: Producer) {
    x.Locked? || x.Loaded? || x.Stored? || x.Snapped?
  }

  /** The snapshot a producer has taken and not logged yet. */
  function Carried(x: Producer): Option<nat> {
    match x
    case Snapped(v) => Some(v)
    case Unlocked(v) => Some(v)
    case _ => None
  }

  ghost predicate LockProtects<T>(s: State<T>) {
    && (forall p :: p in s.producers && InCriticalSection(s.producers[p]) ==> s.lock == Some(p))
    && (s.lock.Some? ==> s.lock.value in s.producers && InCriticalSection(s.producers[s.lock.value]))
    && (forall p :: p in s.producers && s.producers[p].Loaded? ==> s.producers[p].value == s.dropped)
    && s.dropped == s.increments
    && s.dropped == |s.issued| + (if s.lock.Some? && s.producers[s.lock.value].Stored? then 1 else 0)
  }

  /** Every snapshot taken is either logged or still carried by the producer that took it, never both. */
  ghost predicate Tracked(producers: map<int, Producer>, issued: seq<int>, reported: seq<nat>) {
    && (forall v :: v in reported ==> 1 <= v <= |issued|)
    && (forall i, j :: 0 <= i < j < |reported| ==> reported[i] != reported[j])
    && (forall i :: 0 <= i < |issued| ==> issued[i] in producers)
    && (forall p :: p in producers && Carried(producers[p]).Some? ==>
          var v := Carried(producers[p]).value;
          1 <= v <= |issued| && issued[v - 1] == p && v !in reported)
    && (forall i :: 0 <= i < |issued| && i + 1 !in reported ==> Carried(producers[issued[i]]) == Some(i + 1))
  }

  ghost predicate SnapshotsTracked<T>(s: State<T>) {
    Tracked(s.producers, s.issued, s.reported)
  }

  ghost predicate Counting<T>(s: State<T>) {
    LockProtects(s) && SnapshotsTracked(s)
  }

  predicate TouchesCounter<T>(step: Step<T>) {
    step.Submit? || step.Acquire? || step.Load? || step.Store? || step.Snap? || step.Release? || step.Log?
  }

  lemma OtherStepsLeaveCounter<T>(s: State<T>, step: Step<T>)
    requires Enabled(s, step) && !TouchesCounter(step)
    ensures var t := Next(s, step);
            && t.producers == s.producers && t.lock == s.lock && t.dropped == s.dropped
            && t.increments == s.increments && t.issued == s.issued && t.reported == s.reported
  {
  }

  lemma StepKeepsLock<T>(s: State<T>, step: Step<T>)
    requires LockProtects(s) && Enabled(s, step)
    ensures LockProtects(Next(s, step))
  {
    if !TouchesCounter(step) {
      hide Next, Enabled;
      OtherStepsLeaveCounter(s, step);
    }
  }

  /** A step after which each producer carries the same snapshots, with none newly taken or logged. */
  lemma SameSnapshots<T>(s: State<T>, t: State<T>)
    requires SnapshotsTracked(s)
    requires t.issued == s.issued && t.reported == s.reported && t.producers.Keys == s.producers.Keys
    requires forall q :: q in s.producers ==> Carried(t.producers[q]) == Carried(s.producers[q])
    ensures SnapshotsTracked(t)
  {
    forall i | 0 <= i < |t.issued| && i + 1 !in t.reported
      ensures Carried(t.producers[t.issued[i]]) == Some(i + 1)
    {
      var q := s.issued[i];
      assert Carried(s.producers[q]) == Some(i + 1);
      assert Carried(t.producers[q]) == Carried(s.producers[q]);
    }
  }

  lemma TakeSnapshot(producers: map<int, Producer>, issued: seq<int>, reported: seq<nat>, p: int)
    requires Tracked(producers, issued, reported) && p in producers && Carried(producers[p]).None?
    ensures Tracked(producers[p := Snapped(|issued| + 1)], issued + [p], reported)
  {
  }

  lemma LogSnapshot(producers: map<int, Producer>, issued: seq<int>, reported: seq<nat>, p: int, v: nat)
    requires Tracked(producers, issued, reported) && p in producers && Carried(producers[p]) == Some(v)
    ensures Tracked(producers[p := Idle], issued, reported + [v])
  {
    assert v !in reported;
  }

  lemma OnlySnapAndLogChangeSnapshots<T>(s: State<T>, step: Step<T>)
    requires Enabled(s, step) && !step.Snap? && !step.Log?
    ensures var t := Next(s, step);
            && t.issued == s.issued && t.reported == s.reported && t.producers.Keys == s.producers.Keys
            && forall q :: q in s.producers ==> Carried(t.producers[q]) == Carried(s.producers[q])
  {
    if !TouchesCounter(step) {
      hide Next, Enabled;
      OtherStepsLeaveCounter(s, step);
    }
  }

  lemma StepKeepsSnapshots<T>(s: State<T>, step: Step<T>)
    requires LockProtects(s) && SnapshotsTracked(s) && Enabled(s, step)
    ensures SnapshotsTracked(Next(s, step))
  {
    hide Tracked;
    match step
    case Snap(p) => TakeSnapshot(s.producers, s.issued, s.reported, p);
    case Log(p) => LogSnapshot(s.producers, s.issued, s.reported, p, s.producers[p].snapshot);
    case _ =>
      OnlySnapAndLogChangeSnapshots(s, step);
      SameSnapshots(s, Next(s, step));
  }

  lemma {:induction false} RunKeepsCounting<T>(s: State<T>, steps: seq<Step<T>>, t: State<T>)
    requires Counting(s) && Runs(s, steps, t)
    ensures Counting(t)
    decreases |steps|
  {
    if steps != [] {
      StepKeepsLock(s, steps[0]);
      StepKeepsSnapshots(s, steps[0]);
      RunKeepsCounting(Next(s, steps[0]), steps[1..], t);
    }
  }

  lemma {:induction false} CountsOneTo(n: nat, list: seq<nat>)
    requires forall v :: v in list <==> 1 <= v <= n
    requires forall i, j :: 0 <= i < j < |list| ==> list[i] != list[j]
    ensures |list| == n
  {
    assert list != [] ==> list[0] in list;
    if n != 0 {
      assert n in list;
      var k :| 0 <= k < |list| && list[k] == n;
      var shorter := list[..k] + list[k + 1..];
      forall v ensures v in shorter <==> 1 <= v <= n - 1 {
        if v in list && v != n {
          var i :| 0 <= i < |list| && list[i] == v;
          assert v == if i < k then shorter[i] else shorter[i - 1];
        }
      }
      CountsOneTo(n - 1, shorter);
    }
  }

  /**
   The drop counter is exact in every reachable state, and once every producer is idle the counts it has
   reported are exactly 1 to `dropped`, each once.
   */
  lemma DropCounterIsExact<T>(maxSize: int, pids: set<int>, steps: seq<Step<T>>, t: State<T>)
    requires Runs(Init(maxSize, pids), steps, t)
    ensures t.dropped == t.increments
    ensures forall v :: v in t.reported ==> 1 <= v <= t.dropped
    ensures forall i, j :: 0 <= i < j < |t.reported| ==> t.reported[i] != t.reported[j]
    ensures (forall p :: p in t.producers ==> t.producers[p].Idle?) ==>
              |t.reported| == t.dropped && forall v :: v in t.reported <==> 1 <= v <= t.dropped
  {
    RunKeepsCounting(Init(maxSize, pids), steps, t);
    if forall p :: p in t.producers ==> t.producers[p].Idle? {
      forall v ensures v in t.reported <==> 1 <= v <= t.dropped {
        if 1 <= v <= t.dropped {
          assert t.producers[t.issued[v - 1]].Idle?;
          assert Carried(t.producers[t.issued[v - 1]]) == None;
        }
      }
      CountsOneTo(t.dropped, t.reported);
    }
  }

  /** The submissions of a run that found as many tasks queued as a positive capacity allows. */
  ghost function FullSubmits<T>(s: State<T>, steps: seq<Step<T>>): nat
    decreases |steps|
  {
    if steps == [] || !Enabled(s, steps[0]) then 0
    else
      (if steps[0].Submit? && 0 < s.maxSize && |s.queue| == s.maxSize then 1 else 0)
      + FullSubmits(Next(s, steps[0]), steps[1..])
  }

  predicate OwesIncrement(x: Producer) {
    x.Rejected? || x.Locked? || x.Loaded?
  }

  /** The producers that have been turned away and not yet counted. */
  function Owing(producers: map<int, Producer>): set<int> {
    set p | p in producers && OwesIncrement(producers[p])
  }

  lemma NoneOwing(producers: map<int, Producer>)
    requires forall p :: p in producers ==> producers[p].Idle?
    ensures |Owing(producers)| == 0
  {
    var none: set<int> := {};
    assert forall p :: p !in Owing(producers);
    assert Owing(producers) == none;
  }

  lemma OwingChanges(producers: map<int, Producer>, p: int, to: Producer)
    requires p in producers
    ensures var n := |Owing(producers[p := to])| - |Owing(producers)|;
            n == (if OwesIncrement(to) then 1 else 0) - (if OwesIncrement(producers[p]) then 1 else 0)
  {
    var before, after := Owing(producers), Owing(producers[p := to]);
    if OwesIncrement(to) {
      assert after == before + {p};
    } else {
      assert after == before - {p};
    }
  }

  lemma StepOwes<T>(s: State<T>, step: Step<T>)
    requires Enabled(s, step) && (0 < s.maxSize ==> |s.queue| <= s.maxSize)
    ensures var t := Next(s, step);
            t.increments + |Owing(t.producers)| == s.increments + |Owing(s.producers)|
            + if step.Submit? && 0 < s.maxSize && |s.queue| == s.maxSize then 1 else 0
  {
    if TouchesCounter(step) {
      hide Owing;
      OwingChanges(s.producers, step.p, Next(s, step).producers[step.p]);
      assert Next(s, step).producers == s.producers[step.p := Next(s, step).producers[step.p]];
    } else {
      hide Next, Enabled;
      OtherStepsLeaveCounter(s, step);
    }
  }

  lemma {:induction false} RunOwes<T>(s: State<T>, steps: seq<Step<T>>, t: State<T>)
    requires Delivery(s) && Runs(s, steps, t)
    ensures t.increments + |Owing(t.producers)| == s.increments + |Owing(s.producers)| + FullSubmits(s, steps)
    decreases |steps|
  {
    if steps != [] {
      FitsInQueue(s);
      hide Next, Enabled, Delivery, Owing;
      StepOwes(s, steps[0]);
      StepKeepsDelivery(s, steps[0]);
      RunOwes(Next(s, steps[0]), steps[1..], t);
    }
  }

  lemma FitsInQueue<T>(s: State<T>)
    requires Delivery(s)
    ensures 0 < s.maxSize ==> |s.queue| <= s.maxSize
  {
  }

  /**
   The counter counts overflows and nothing else: on every run the increments are as many as the submissions that found a
   full queue, those still on their way to the increment apart; with all producers idle there are none.
   */
  lemma DropsAreFullQueues<T>(maxSize: int, pids: set<int>, steps: seq<Step<T>>, t: State<T>)
    requires Runs(Init(maxSize, pids), steps, t)
    ensures t.dropped + |Owing(t.producers)| == FullSubmits(Init(maxSize, pids), steps)
    ensures (forall p :: p in t.producers ==> t.producers[p].Idle?) ==> t.dropped == FullSubmits(Init(maxSize, pids), steps)
  {
    var s: State<T> := Init(maxSize, pids);
    NoneOwing(s.producers);
    RunOwes(s, steps, t);
    DropCounterIsExact(maxSize, pids, steps, t);
    if forall p :: p in t.producers ==> t.producers[p].Idle? {
      NoneOwing(t.producers);
    }
  }

  /** What the counter's part of the state has become, the rest being as it was. */
  ghost predicate OnlyCounterMoved<T>(s: State<T>, t: State<T>, p: int, to: Producer, lock: Option<int>, dropped: nat) {
    && t.producers == s.producers[p := to] && t.lock == lock && t.dropped == dropped
    && t.accepted == s.accepted && t.queue == s.queue && t.handed == s.handed && t.unfinished == s.unfinished
  }

  lemma DropIsStored<T>(s: State<T>, p: int) returns (t: State<T>)
    requires p in s.producers && s.producers[p].Rejected? && s.lock.None?
    ensures Runs(s, [Acquire(p), Load(p), Store(p)], t)
    ensures OnlyCounterMoved(s, t, p, Stored, Some(p), s.dropped + 1)
    ensures t.increments == s.increments + 1 && t.reported == s.reported
  {
    hide Runs;
    var steps;
    EmptyRun(s);
    steps, t := OneMore(s, [], s, Acquire(p));
    steps, t := OneMore(s, steps, t, Load(p));
    steps, t := OneMore(s, steps, t, Store(p));
    assert steps == [Acquire(p), Load(p), Store(p)];
  }

  lemma DropIsLogged<T>(s: State<T>, before: seq<Step<T>>, m: State<T>, p: int) returns (t: State<T>)
    requires Runs(s, before, m) && p in m.producers && m.producers[p].Stored?
    ensures Runs(s, before + [Snap(p), Release(p), Log(p)], t)
    ensures OnlyCounterMoved(m, t, p, Idle, None, m.dropped)
    ensures t.increments == m.increments && t.reported == m.reported + [m.dropped]
  {
    hide Runs;
    var steps;
    steps, t := OneMore(s, before, m, Snap(p));
    steps, t := OneMore(s, steps, t, Release(p));
    steps, t := OneMore(s, steps, t, Log(p));
    assert steps == before + [Snap(p), Release(p), Log(p)];
  }

  lemma EmptyRun<T>(s: State<T>)
    ensures Runs(s, [], s)
  {
  }

  /** A turned-away producer that gets the lock counts its own drop by one, reports the new count, gives the lock back and is done. */
  lemma DropIsCounted<T>(s: State<T>, p: int) returns (t: State<T>)
    requires p in s.producers && s.producers[p].Rejected? && s.lock.None?
    ensures Runs(s, [Acquire(p), Load(p), Store(p)] + [Snap(p), Release(p), Log(p)], t)
    ensures OnlyCounterMoved(s, t, p, Idle, None, s.dropped + 1)
    ensures t.increments == s.increments + 1 && t.reported == s.reported + [s.dropped + 1]
  {
    hide Runs, Next, Enabled;
    var m := DropIsStored(s, p);
    t := DropIsLogged(s, [Acquire(p), Load(p), Store(p)], m, p);
  }

  /** No producer waits for ever: one that is not idle can move, or the one that has the lock can. */
  lemma ProducersDoNotBlock<T>(maxSize: int, pids: set<int>, steps: seq<Step<T>>, t: State<T>, p: int)
    requires Runs(Init(maxSize, pids), steps, t) && p in t.producers && !t.producers[p].Idle?
    ensures CounterCanMove(t, p) || (t.lock.Some? && t.lock.value in t.producers && CounterCanMove(t, t.lock.value))
  {
    RunKeepsCounting(Init(maxSize, pids), steps, t);
  }

  predicate CounterCanMove<T>(s: State<T>, p: int) {
    Enabled(s, Acquire(p)) || Enabled(s, Load(p)) || Enabled(s, Store(p)) || Enabled(s, Snap(p)) || Enabled(s, Release(p))
    || Enabled(s, Log(p))
  }

  // ---------------------------------------------------------------- the consumer works on

  /** The consumer leaves its loop only after `stop` or a refusal, and refuses only with the executor down. */
  ghost predicate LeavesForReason<T>(s: State<T>) {
    && (s.consumer.Leaving? || s.consumer.Gone? || s.consumer.StopSeen? || s.consumer == Finishing(true) ==> s.stop || !s.executorUp)
    && (s.consumer == Finishing(true) ==> !s.executorUp)
  }

  lemma {:induction false} ConsumerLeavesForReason<T>(s: State<T>, steps: seq<Step<T>>, t: State<T>)
    requires LeavesForReason(s) && Runs(s, steps, t)
    ensures LeavesForReason(t)
    decreases |steps|
  {
    if steps != [] {
      StepLeavesForReason(s, steps[0]);
      hide Next, Enabled, LeavesForReason;
      ConsumerLeavesForReason(Next(s, steps[0]), steps[1..], t);
    }
  }

  lemma StepLeavesForReason<T>(s: State<T>, step: Step<T>)
    requires LeavesForReason(s) && Enabled(s, step)
    ensures LeavesForReason(Next(s, step))
  {
  }

  /**
   From any reachable state before `stop`, with the executor up, the consumer alone can hand over everything accepted so
   far and finish it: no reachable state is stuck.
   */
  lemma EverythingCanBeDelivered<T>(maxSize: int, pids: set<int>, before: seq<Step<T>>, s: State<T>)
    returns (steps: seq<Step<T>>, t: State<T>)
    requires Runs(Init(maxSize, pids), before, s) && !s.stop && s.executorUp
    ensures Runs(s, steps, t) && t.handed == s.accepted == t.accepted && t.queue == [] && t.unfinished == 0
  {
    TasksAreConserved(Init(maxSize, pids), before, s);
    ConsumerLeavesForReason(Init(maxSize, pids), before, s);
    steps, t := ConsumesAll(s);
    TasksAreConserved(s, steps, t);
    NoneUnfinishedIff(t);
  }

  /** How far the consumer is from its next look at the queue. */
  function StepsToGet<T>(s: State<T>): nat {
    match s.consumer
    case Holding(_) => 4
    case Finishing(_) => 3
    case TimedOut => 3
    case AtTop => 2
    case _ => 1
  }

  lemma {:induction false} ConsumesAll<T>(s: State<T>) returns (steps: seq<Step<T>>, t: State<T>)
    requires Delivery(s) && LeavesForReason(s) && !s.stop && s.executorUp
    ensures Runs(s, steps, t) && t.queue == [] && t.unfinished == 0 && t.executorUp && t.accepted == s.accepted
    decreases |s.queue|, StepsToGet(s)
  {
    if s.queue == [] && !s.consumer.Holding? && !s.consumer.Finishing? {
      return [], s;
    }
    var step: Step<T> := match s.consumer
      case AtTop => CheckStop
      case Finishing(_) => TaskDone
      case TimedOut => RecheckStop
      case Holding(_) => HandOver
      case _ => Get;
    StepKeepsDelivery(s, step);
    StepLeavesForReason(s, step);
    hide Delivery, LeavesForReason;
    var rest;
    rest, t := ConsumesAll(Next(s, step));
    steps := [step] + rest;
  }

  /** After `stop` has shut the executor down, or at interpreter exit, a task still in hand is refused. */
  lemma ShutDownRefuses<T>(task: T, exit: bool) returns (steps: seq<Step<T>>, t: State<T>)
    ensures Runs(Init(1000, {0}), steps, t) && (exit ==> !t.stop)
    ensures t.accepted == [task] == t.refused && t.handed == [] && t.queue == []
  {
    var held;
    steps, held := DrainCanHideATask(task);
    t := held;
    if exit {
      steps, t := OneMore(Init(1000, {0}), steps, t, InterpreterExit);
    } else {
      steps, t := OneMore(Init(1000, {0}), steps, t, RequestStop);
      steps, t := OneMore(Init(1000, {0}), steps, t, ShutDown);
    }
    steps, t := OneMore(Init(1000, {0}), steps, t, HandOver);
  }

  lemma {:induction false} OneMore<T>(s: State<T>, steps: seq<Step<T>>, t: State<T>, step: Step<T>)
    returns (more: seq<Step<T>>, u: State<T>)
    requires Runs(s, steps, t) && Enabled(t, step)
    ensures more == steps + [step] && u == Next(t, step) && Runs(s, more, u)
    decreases |steps|
  {
    hide Next, Enabled;
    more, u := steps + [step], Next(t, step);
    if steps == [] {
      assert more == [step] && more[1..] == [];
    } else {
      var rest, v := OneMore(Next(s, steps[0]), steps[1..], t, step);
      assert more[1..] == rest;
    }
  }
}
