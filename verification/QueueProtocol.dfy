/** `TaskQueue` and `ThreadPool` as a protocol: any number of threads,
    one mutex, two condition variables. Between two steps the mutex is free, so
    that one step is one critical section, one wait, or one notification. */
module QueueProtocol {
  import opened Counting
  import opened TaskQueue

  /** Where a thread is. `cur` is what a worker is running while it submits
      another task; it is `Empty` for a thread outside the pool. */
  datatype Pc =
    | Out
    | Taking
    | AsleepEmpty
    | WokenEmpty
    | NotifyNotFull(task: Task)
    | Running(task: Task)
    | Exited(drained: bool)
    | Putting(task: Task, cur: Task)
    | AsleepFull(task: Task, cur: Task)
    | WokenFull(task: Task, cur: Task)
    | NotifyNotEmpty(cur: Task)
    | BroadcastNotEmpty
    | BroadcastNotFull

  /** The shared state, the threads, and as history the tasks that were
      accepted, taken, and run. */
  datatype State = State(
    queue: seq<Task>, shutdown: bool, threads: seq<Pc>,
    accepted: seq<Task>, taken: seq<Task>, ran: seq<Task>)

  /** A step of thread `t`. A notification wakes the sleeper `w`, or nobody
      (-1) when nobody sleeps. */
  datatype Step =
    | Take(t: nat)
    | SleepEmpty(t: nat)
    | Quit(t: nat)
    | AfterTake(t: nat, w: int)
    | FinishTask(t: nat)
    | Submit(t: nat, task: Task)
    | Put(t: nat)
    | Refuse(t: nat)
    | SleepFull(t: nat)
    | AfterPut(t: nat, w: int)
    | Spurious(t: nat)
    | Stop(t: nat)
    | WakeAllEmpty(t: nat)
    | WakeAllFull(t: nat)

  predicate Tests(pc: Pc) { pc.Taking? || pc.WokenEmpty? }
  predicate TestsFull(pc: Pc) { pc.Putting? || pc.WokenFull? }
  predicate IsAsleepEmpty(pc: Pc) { pc.AsleepEmpty? }
  predicate IsAsleepFull(pc: Pc) { pc.AsleepFull? }

  ghost predicate Wakes(s: State, w: int, asleep: Pc -> bool) {
    if w == -1 then forall i :: 0 <= i < |s.threads| ==> !asleep(s.threads[i])
    else 0 <= w < |s.threads| && asleep(s.threads[w])
  }

  function Woken(pc: Pc): Pc {
    match pc
    case AsleepEmpty => WokenEmpty
    case AsleepFull(task, cur) => WokenFull(task, cur)
    case _ => pc
  }

  function WakeOne(threads: seq<Pc>, w: int): seq<Pc> {
    if 0 <= w < |threads| then threads[w := Woken(threads[w])] else threads
  }

  function WakeAll(threads: seq<Pc>, full: bool): (u: seq<Pc>)
    ensures |u| == |threads|
    ensures forall i :: 0 <= i < |u| ==>
              u[i] == if full == threads[i].AsleepFull? then Woken(threads[i]) else threads[i]
  {
    seq(|threads|, i requires 0 <= i < |threads| =>
      if full == threads[i].AsleepFull? then Woken(threads[i]) else threads[i])
  }

  /** Where a thread goes on after a submission. */
  function Resume(cur: Task): Pc {
    if cur == Empty then Out else Running(cur)
  }

  /** When a step is possible: the conditions of the source, in its order. */
  ghost predicate Can(s: State, a: Step) {
    && a.t < |s.threads|
    && var pc := s.threads[a.t];
       match a
       case Take(_) => Tests(pc) && s.queue != []
       case SleepEmpty(_) => Tests(pc) && s.queue == [] && !s.shutdown
       case Quit(_) => Tests(pc) && s.queue == [] && s.shutdown
       case AfterTake(_, w) => pc.NotifyNotFull? && Wakes(s, w, IsAsleepFull)
       case FinishTask(_) => pc.Running?
       case Submit(_, _) => pc.Running? || pc.Out?
       case Put(_) => TestsFull(pc) && |s.queue| < QUEUE_CAPACITY && !s.shutdown
       case Refuse(_) => TestsFull(pc) && s.shutdown
       case SleepFull(_) => TestsFull(pc) && |s.queue| >= QUEUE_CAPACITY && !s.shutdown
       case AfterPut(_, w) => pc.NotifyNotEmpty? && Wakes(s, w, IsAsleepEmpty)
       case Spurious(_) => pc.AsleepEmpty? || pc.AsleepFull?
       case Stop(_) => pc.Out?
       case WakeAllEmpty(_) => pc.BroadcastNotEmpty?
       case WakeAllFull(_) => pc.BroadcastNotFull?
  }

  /** The new program point of the thread that steps. */
  function Next(s: State, a: Step): Pc
    requires Can(s, a)
  {
    var pc := s.threads[a.t];
    match a
    case Take(_) => NotifyNotFull(Removed(s.queue).0)
    case SleepEmpty(_) => AsleepEmpty
    case Quit(_) => Exited(true)
    case AfterTake(_, _) => if pc.task == Empty then Exited(false) else Running(pc.task)
    case FinishTask(_) => Taking
    case Submit(_, task) => Putting(task, if pc.Running? then pc.task else Empty)
    case Put(_) => NotifyNotEmpty(pc.cur)
    case Refuse(_) => Resume(pc.cur)
    case SleepFull(_) => AsleepFull(pc.task, pc.cur)
    case AfterPut(_, _) => Resume(pc.cur)
    case Spurious(_) => Woken(pc)
    case Stop(_) => BroadcastNotEmpty
    case WakeAllEmpty(_) => BroadcastNotFull
    case WakeAllFull(_) => Out
  }

  function Wakee(a: Step): int {
    match a
    case AfterTake(_, w) => w
    case AfterPut(_, w) => w
    case _ => -1
  }

  predicate Broadcasts(a: Step) {
    a.WakeAllEmpty? || a.WakeAllFull?
  }

  /** The effect of a step. */
  function Do(s: State, a: Step): State
    requires Can(s, a)
  {
    var base := if Broadcasts(a) then WakeAll(s.threads, a.WakeAllFull?) else s.threads;
    var u := s.(threads := WakeOne(base[a.t := Next(s, a)], Wakee(a)));
    var pc := s.threads[a.t];
    match a
    case Take(_) => u.(queue := Removed(s.queue).1, taken := s.taken + [Removed(s.queue).0])
    case AfterTake(_, _) => if pc.task == Empty then u else u.(ran := s.ran + [pc.task])
    case Put(_) => u.(queue := Submitted(s.queue, s.shutdown, pc.task).0, accepted := s.accepted + [pc.task])
    case Stop(_) => u.(shutdown := true)
    case _ => u
  }

  /** The pool starts with all its workers at `remove`. */
  ghost predicate Init(s: State, workers: nat) {
    && s.queue == [] && !s.shutdown && s.accepted == [] && s.taken == [] && s.ran == []
    && workers <= |s.threads|
    && (forall i :: 0 <= i < workers ==> s.threads[i] == Taking)
    && (forall i :: workers <= i < |s.threads| ==> s.threads[i] == Out)
  }

  /** `steps` can be taken one after the other from `s`. */
  ghost predicate Executes(s: State, steps: seq<Step>)
    decreases |steps|
  {
    steps == [] || (Can(s, steps[0]) && Executes(Do(s, steps[0]), steps[1..]))
  }

  function Reached(s: State, steps: seq<Step>): State
    requires Executes(s, steps)
    decreases |steps|
  {
    if steps == [] then s else Reached(Do(s, steps[0]), steps[1..])
  }

  // --------------------------------------------------------------- invariants

  predicate IsNotifyNotEmpty(pc: Pc) { pc.NotifyNotEmpty? }
  predicate IsNotifyNotFull(pc: Pc) { pc.NotifyNotFull? }
  predicate IsWokenEmpty(pc: Pc) { pc.WokenEmpty? }
  predicate IsWokenFull(pc: Pc) { pc.WokenFull? }
  predicate IsBroadcastNotEmpty(pc: Pc) { pc.BroadcastNotEmpty? }
  predicate IsBroadcastNotFull(pc: Pc) { pc.BroadcastNotFull? }
  predicate IsEarlyExit(pc: Pc) { pc == Exited(false) }
  predicate IsEmptyTask(task: Task) { task == Empty }

  function HoldsTask(task: Task): Pc -> bool {
    (pc: Pc) => pc == NotifyNotFull(task)
  }

  ghost predicate SomeAre(s: State, p: Pc -> bool) {
    exists i :: 0 <= i < |s.threads| && p(s.threads[i])
  }

  /** The queue is a bounded FIFO: what was accepted is what was taken, in that
      order, followed by what is queued. */
  ghost predicate Fifo(s: State) {
    s.accepted == s.taken + s.queue && |s.queue| <= QUEUE_CAPACITY
  }

  /** While a worker sleeps, every queued task has its own wakeup on the way. */
  ghost predicate NoLostWakeupEmpty(s: State) {
    SomeAre(s, IsAsleepEmpty) ==>
      |s.queue| <= Count(s.threads, IsNotifyNotEmpty) + Count(s.threads, IsWokenEmpty)
  }

  /** While a producer sleeps and the queue runs, every free place has its own
      wakeup on the way. */
  ghost predicate NoLostWakeupFull(s: State) {
    SomeAre(s, IsAsleepFull) && !s.shutdown ==>
      QUEUE_CAPACITY - |s.queue| <= Count(s.threads, IsNotifyNotFull) + Count(s.threads, IsWokenFull)
  }

  /** After `stop` nobody sleeps without a broadcast to come. */
  ghost predicate NobodyLeftAsleep(s: State) {
    && (s.shutdown && SomeAre(s, IsAsleepEmpty) ==> SomeAre(s, IsBroadcastNotEmpty))
    && (s.shutdown && SomeAre(s, IsAsleepFull) ==>
          SomeAre(s, IsBroadcastNotEmpty) || SomeAre(s, IsBroadcastNotFull))
  }

  predicate OfWorker(pc: Pc) {
    match pc
    case Out => false
    case BroadcastNotEmpty => false
    case BroadcastNotFull => false
    case Running(task) => task != Empty
    case Putting(_, cur) => cur != Empty
    case AsleepFull(_, cur) => cur != Empty
    case WokenFull(_, cur) => cur != Empty
    case NotifyNotEmpty(cur) => cur != Empty
    case _ => true
  }

  /** Workers stay workers, and the others stay outside the pool. */
  ghost predicate Roles(s: State, workers: nat) {
    && workers <= |s.threads|
    && forall i :: 0 <= i < |s.threads| ==>
         (OfWorker(s.threads[i]) <==> i < workers) && s.threads[i] != Running(Empty)
  }

  /** A worker leaves with the queue empty and stopped, or because it took an
      empty task. */
  ghost predicate Exits(s: State) {
    && (forall i :: 0 <= i < |s.threads| && s.threads[i] == Exited(true) ==> s.shutdown && s.queue == [])
    && Count(s.threads, IsEarlyExit) + Count(s.threads, HoldsTask(Empty)) == Count(s.taken, IsEmptyTask)
  }

  /** Every task that was taken has been run once, or is in the hands of the
      worker that is about to run it. */
  ghost predicate RunOnce(s: State) {
    forall task :: task != Empty ==>
      multiset(s.taken)[task] == multiset(s.ran)[task] + Count(s.threads, HoldsTask(task))
  }

  ghost predicate Inv(s: State, workers: nat) {
    && Fifo(s) && NoLostWakeupEmpty(s) && NoLostWakeupFull(s) && NobodyLeftAsleep(s)
    && Roles(s, workers) && Exits(s) && RunOnce(s)
  }

  /** How a step changes a count: through its own thread and the one it wakes. */
  lemma CountStep(s: State, t: nat, pc: Pc, w: int, p: Pc -> bool)
    requires t < |s.threads|
    requires 0 <= w < |s.threads| ==> w != t && s.threads[w] != Woken(s.threads[w])
    ensures var u := WakeOne(s.threads[t := pc], w);
            var woken := 0 <= w < |s.threads|;
            Count(u, p) + One(p(s.threads[t])) + (if woken then One(p(s.threads[w])) else 0) ==
            Count(s.threads, p) + One(p(pc)) + (if woken then One(p(Woken(s.threads[w]))) else 0)
  {
    CountUpdate(s.threads, t, pc, p);
    if 0 <= w < |s.threads| {
      CountUpdate(s.threads[t := pc], w, Woken(s.threads[w]), p);
    }
  }

  lemma ThreadsOf(s: State, a: Step)
    requires Can(s, a) && !Broadcasts(a)
    ensures Do(s, a).threads == WakeOne(s.threads[a.t := Next(s, a)], Wakee(a))
    ensures 0 <= Wakee(a) < |s.threads| ==>
              Wakee(a) != a.t && s.threads[Wakee(a)] != Woken(s.threads[Wakee(a)])
  {
  }

  lemma CountDo(s: State, a: Step, p: Pc -> bool)
    requires Can(s, a) && !Broadcasts(a)
    ensures var w := Wakee(a);
            var woken := 0 <= w < |s.threads|;
            Count(Do(s, a).threads, p) + One(p(s.threads[a.t])) + (if woken then One(p(s.threads[w])) else 0) ==
            Count(s.threads, p) + One(p(Next(s, a))) + (if woken then One(p(Woken(s.threads[w]))) else 0)
  {
    hide Do, Next, Count;
    ThreadsOf(s, a);
    CountStep(s, a.t, Next(s, a), Wakee(a), p);
  }

  /** A broadcast does not change a count that does not see sleepers. */
  lemma CountBroadcast(s: State, a: Step, p: Pc -> bool)
    requires Can(s, a) && Broadcasts(a)
    requires forall i :: 0 <= i < |s.threads| ==> p(s.threads[i]) == p(WakeAll(s.threads, a.WakeAllFull?)[i])
    ensures Count(Do(s, a).threads, p) + One(p(s.threads[a.t])) == Count(s.threads, p) + One(p(Next(s, a)))
  {
    var u := WakeAll(s.threads, a.WakeAllFull?);
    CountSame(s.threads, u, p);
    CountUpdate(u, a.t, Next(s, a), p);
  }

  lemma FifoKept(s: State, a: Step)
    requires Can(s, a) && Fifo(s)
    ensures Fifo(Do(s, a))
  {
  }

  /** A thread that sleeps after a step slept before it, or is the one that
      stepped. */
  lemma SleepersOf(s: State, a: Step, p: Pc -> bool)
    requires Can(s, a)
    requires forall pc :: p(pc) ==> pc.AsleepEmpty? || pc.AsleepFull?
    ensures SomeAre(Do(s, a), p) ==> SomeAre(s, p) || p(Next(s, a))
  {
    if SomeAre(Do(s, a), p) {
      var i :| 0 <= i < |s.threads| && p(Do(s, a).threads[i]);
      if i != a.t {
        assert p(s.threads[i]);
      }
    }
  }

  /** A thread that does not sleep keeps its place in the steps of others. */
  lemma OthersOf(s: State, a: Step, p: Pc -> bool)
    requires Can(s, a)
    requires forall pc :: p(pc) ==> !pc.AsleepEmpty? && !pc.AsleepFull?
    ensures SomeAre(s, p) && !p(s.threads[a.t]) ==> SomeAre(Do(s, a), p)
    ensures p(Next(s, a)) ==> SomeAre(Do(s, a), p)
  {
    assert Wakee(a) != a.t;
    assert Do(s, a).threads[a.t] == Next(s, a);
    if SomeAre(s, p) && !p(s.threads[a.t]) {
      var i :| 0 <= i < |s.threads| && p(s.threads[i]);
      assert Do(s, a).threads[i] == s.threads[i];
    }
  }

  lemma WakeupEmptyKept(s: State, a: Step)
    requires Can(s, a) && NoLostWakeupEmpty(s)
    ensures NoLostWakeupEmpty(Do(s, a))
  {
    hide Count, SomeAre, Wakes;
    SleepersOf(s, a, IsAsleepEmpty);
    if !Broadcasts(a) {
      CountDo(s, a, IsNotifyNotEmpty);
      CountDo(s, a, IsWokenEmpty);
      WakesNobody(s, a);
    } else if a.WakeAllFull? {
      CountBroadcast(s, a, IsNotifyNotEmpty);
      CountBroadcast(s, a, IsWokenEmpty);
    } else {
      AllAwake(s, a);
    }
  }

  lemma WakeupFullKept(s: State, a: Step)
    requires Can(s, a) && NoLostWakeupFull(s)
    ensures NoLostWakeupFull(Do(s, a))
  {
    hide Count, SomeAre, Wakes;
    SleepersOf(s, a, IsAsleepFull);
    if !Broadcasts(a) {
      CountDo(s, a, IsNotifyNotFull);
      CountDo(s, a, IsWokenFull);
      WakesNobody(s, a);
    } else if a.WakeAllEmpty? {
      CountBroadcast(s, a, IsNotifyNotFull);
      CountBroadcast(s, a, IsWokenFull);
    } else {
      AllAwake(s, a);
    }
  }

  /** A notification is lost only when nobody sleeps. */
  lemma WakesNobody(s: State, a: Step)
    requires Can(s, a)
    ensures a.AfterPut? && a.w == -1 ==> !SomeAre(Do(s, a), IsAsleepEmpty)
    ensures a.AfterTake? && a.w == -1 ==> !SomeAre(Do(s, a), IsAsleepFull)
    ensures a.AfterPut? && a.w != -1 ==> 0 <= a.w < |s.threads| && s.threads[a.w].AsleepEmpty?
    ensures a.AfterTake? && a.w != -1 ==> 0 <= a.w < |s.threads| && s.threads[a.w].AsleepFull?
  {
    if a.AfterPut? && a.w == -1 {
      forall i | 0 <= i < |s.threads|
        ensures !IsAsleepEmpty(Do(s, a).threads[i])
      {
        assert !IsAsleepEmpty(s.threads[i]);
      }
    }
    if a.AfterTake? && a.w == -1 {
      forall i | 0 <= i < |s.threads|
        ensures !IsAsleepFull(Do(s, a).threads[i])
      {
        assert !IsAsleepFull(s.threads[i]);
      }
    }
  }

  lemma AllAwake(s: State, a: Step)
    requires Can(s, a)
    ensures a.WakeAllEmpty? ==> !SomeAre(Do(s, a), IsAsleepEmpty)
    ensures a.WakeAllFull? ==> !SomeAre(Do(s, a), IsAsleepFull)
  {
  }

  lemma NobodyLeftAsleepKept(s: State, a: Step)
    requires Can(s, a) && NobodyLeftAsleep(s)
    ensures NobodyLeftAsleep(Do(s, a))
  {
    hide SomeAre, Wakes, WakeAll, WakeOne;
    SleepersOf(s, a, IsAsleepEmpty);
    SleepersOf(s, a, IsAsleepFull);
    OthersOf(s, a, IsBroadcastNotEmpty);
    OthersOf(s, a, IsBroadcastNotFull);
    AllAwake(s, a);
  }

  /** Other threads stay where they are or wake up. */
  lemma ThreadAfter(s: State, a: Step, i: nat)
    requires Can(s, a) && i < |s.threads|
    ensures |Do(s, a).threads| == |s.threads|
    ensures if i == a.t then Do(s, a).threads[i] == Next(s, a)
            else Do(s, a).threads[i] in {s.threads[i], Woken(s.threads[i])}
  {
    hide Next;
    assert Wakee(a) != a.t;
  }

  lemma RolesKept(s: State, a: Step, workers: nat)
    requires Can(s, a) && Roles(s, workers)
    ensures Roles(Do(s, a), workers)
  {
    assert OfWorker(Next(s, a)) == OfWorker(s.threads[a.t]) && Next(s, a) != Running(Empty) by {
      hide Do, Wakes;
    }
    var u := Do(s, a);
    ThreadAfter(s, a, a.t);
    hide Do, Next, Can;
    forall i | 0 <= i < |s.threads|
      ensures (OfWorker(u.threads[i]) <==> i < workers) && u.threads[i] != Running(Empty)
    {
      RoleKept(s, a, workers, i);
    }
  }

  lemma RoleKept(s: State, a: Step, workers: nat, i: nat)
    requires Can(s, a) && Roles(s, workers) && i < |s.threads|
    requires OfWorker(Next(s, a)) == OfWorker(s.threads[a.t]) && Next(s, a) != Running(Empty)
    ensures i < |Do(s, a).threads|
    ensures (OfWorker(Do(s, a).threads[i]) <==> i < workers) && Do(s, a).threads[i] != Running(Empty)
  {
    ThreadAfter(s, a, i);
    hide Do, Next, Can;
    WokenRole(s.threads[i]);
  }

  lemma WokenRole(pc: Pc)
    ensures OfWorker(Woken(pc)) == OfWorker(pc) && (Woken(pc) == Running(Empty) <==> pc == Running(Empty))
  {
  }

  lemma ExitsKept(s: State, a: Step)
    requires Can(s, a) && Exits(s)
    ensures Exits(Do(s, a))
  {
    hide Count, Wakes, WakeAll, WakeOne;
    DrainedExits(s, a);
    EarlyExits(s, a);
  }

  lemma DrainedExits(s: State, a: Step)
    requires Can(s, a) && Exits(s)
    ensures var u := Do(s, a);
            forall i :: 0 <= i < |u.threads| && u.threads[i] == Exited(true) ==> u.shutdown && u.queue == []
  {
    hide Count, Wakes;
    var u := Do(s, a);
    forall i | 0 <= i < |u.threads| && u.threads[i] == Exited(true)
      ensures u.shutdown && u.queue == []
    {
      assert i == a.t || s.threads[i] == Exited(true);
    }
  }

  lemma EarlyExits(s: State, a: Step)
    requires Can(s, a) && Exits(s)
    ensures var u := Do(s, a);
            Count(u.threads, IsEarlyExit) + Count(u.threads, HoldsTask(Empty)) == Count(u.taken, IsEmptyTask)
  {
    HandsChange(s, a, Empty);
    EarlyChange(s, a);
    if a.Take? {
      CountAppend(s.taken, s.queue[0], IsEmptyTask);
    }
    assert a.Take? || Do(s, a).taken == s.taken;
    hide Count, Next, Can;
  }

  lemma EarlyChange(s: State, a: Step)
    requires Can(s, a)
    ensures Count(Do(s, a).threads, IsEarlyExit) ==
            Count(s.threads, IsEarlyExit) + One(a.AfterTake? && s.threads[a.t] == NotifyNotFull(Empty))
  {
    hide Count, WakeAll, WakeOne, Wakes;
    if !Broadcasts(a) {
      CountDo(s, a, IsEarlyExit);
      WakesNobody(s, a);
    } else {
      WakingKeeps(s, a, IsEarlyExit);
    }
  }

  /** Waking does not change whether a thread is at a point where it is awake. */
  lemma WakingKeeps(s: State, a: Step, p: Pc -> bool)
    requires Can(s, a) && Broadcasts(a)
    requires forall pc :: p(pc) ==> !pc.AsleepEmpty? && !pc.AsleepFull? && !pc.WokenEmpty? && !pc.WokenFull?
    ensures Count(Do(s, a).threads, p) + One(p(s.threads[a.t])) == Count(s.threads, p) + One(p(Next(s, a)))
  {
    hide Count;
    CountBroadcast(s, a, p);
  }

  lemma RunOnceKept(s: State, a: Step)
    requires Can(s, a) && RunOnce(s)
    ensures RunOnce(Do(s, a))
  {
    hide Count, Can, Do;
    forall task | task != Empty
      ensures multiset(Do(s, a).taken)[task] == multiset(Do(s, a).ran)[task] + Count(Do(s, a).threads, HoldsTask(task))
    {
      RunOnceStep(s, a, task);
    }
  }

  lemma RunOnceStep(s: State, a: Step, task: Task)
    requires Can(s, a) && task != Empty
    requires multiset(s.taken)[task] == multiset(s.ran)[task] + Count(s.threads, HoldsTask(task))
    ensures multiset(Do(s, a).taken)[task] == multiset(Do(s, a).ran)[task] + Count(Do(s, a).threads, HoldsTask(task))
  {
    HandsChange(s, a, task);
    HistoryChange(s, a, task);
    hide Count, Do, Next, Can;
  }

  lemma HandsChange(s: State, a: Step, task: Task)
    requires Can(s, a)
    ensures Count(Do(s, a).threads, HoldsTask(task)) + One(a.AfterTake? && s.threads[a.t] == NotifyNotFull(task)) ==
            Count(s.threads, HoldsTask(task)) + One(a.Take? && s.queue[0] == task)
  {
    hide Count, Wakes, WakeAll, WakeOne;
    if Broadcasts(a) {
      WakingKeeps(s, a, HoldsTask(task));
    } else {
      CountDo(s, a, HoldsTask(task));
      WakesNobody(s, a);
      hide Do;
    }
  }

  lemma HistoryChange(s: State, a: Step, task: Task)
    requires Can(s, a) && task != Empty
    ensures multiset(Do(s, a).taken)[task] == multiset(s.taken)[task] + One(a.Take? && s.queue[0] == task)
    ensures multiset(Do(s, a).ran)[task] ==
            multiset(s.ran)[task] + One(a.AfterTake? && s.threads[a.t] == NotifyNotFull(task))
  {
    hide Count, Wakes, WakeAll, WakeOne, Next;
  }

  /** Every step keeps the invariant. */
  lemma InvKept(s: State, a: Step, workers: nat)
    requires Can(s, a) && Inv(s, workers)
    ensures Inv(Do(s, a), workers)
  {
    hide Do, Can, Fifo, NoLostWakeupEmpty, NoLostWakeupFull, NobodyLeftAsleep, Roles, Exits, RunOnce;
    FifoKept(s, a);
    WakeupEmptyKept(s, a);
    WakeupFullKept(s, a);
    NobodyLeftAsleepKept(s, a);
    RolesKept(s, a, workers);
    ExitsKept(s, a);
    RunOnceKept(s, a);
  }

  lemma InitInv(s: State, workers: nat)
    requires Init(s, workers)
    ensures Inv(s, workers)
  {
    CountPositive(s.threads, IsEarlyExit);
    forall task
      ensures Count(s.threads, HoldsTask(task)) == 0
    {
      CountPositive(s.threads, HoldsTask(task));
    }
  }

  lemma {:induction false} ReachedInv(s: State, steps: seq<Step>, workers: nat)
    requires Inv(s, workers) && Executes(s, steps)
    ensures Inv(Reached(s, steps), workers)
    decreases |steps|
  {
    hide Do, Can, Inv;
    if steps != [] {
      InvKept(s, steps[0], workers);
      ReachedInv(Do(s, steps[0]), steps[1..], workers);
    }
  }

  /** Safety over all runs: in every state that any number of workers and other
      threads can reach in any interleaving, the queue is a bounded FIFO, no
      wakeup is lost, and after `stop` nobody is left asleep. */
  lemma EveryRunIsSafe(s: State, steps: seq<Step>, workers: nat)
    requires Init(s, workers) && Executes(s, steps)
    ensures var u := Reached(s, steps);
            && u.accepted == u.taken + u.queue && |u.queue| <= QUEUE_CAPACITY
            && NoLostWakeupEmpty(u) && NoLostWakeupFull(u) && NobodyLeftAsleep(u)
  {
    hide NoLostWakeupEmpty, NoLostWakeupFull, NobodyLeftAsleep, Roles, Exits, RunOnce, Init, Executes, Reached;
    InitInv(s, workers);
    ReachedInv(s, steps, workers);
  }

  /** No thread is between a wakeup and the test that it is for. */
  ghost predicate Quiet(s: State) {
    forall i :: 0 <= i < |s.threads| ==>
      var pc := s.threads[i];
      !pc.NotifyNotEmpty? && !pc.NotifyNotFull? && !pc.WokenEmpty? && !pc.WokenFull? &&
      !pc.BroadcastNotEmpty? && !pc.BroadcastNotFull?
  }

  /** When everything has calmed down, whoever sleeps has a reason to: workers
      sleep only on an empty queue, producers only on a full one, and nobody
      after `stop`. So workers and producers never sleep at the same time. */
  lemma QuietSleepers(s: State, steps: seq<Step>, workers: nat)
    requires Init(s, workers) && Executes(s, steps) && Quiet(Reached(s, steps))
    ensures var u := Reached(s, steps);
            && (SomeAre(u, IsAsleepEmpty) ==> u.queue == [] && !u.shutdown)
            && (SomeAre(u, IsAsleepFull) ==> |u.queue| == QUEUE_CAPACITY && !u.shutdown)
  {
    EveryRunIsSafe(s, steps, workers);
    var u := Reached(s, steps);
    hide Executes, Reached, Init;
    CountPositive(u.threads, IsNotifyNotEmpty);
    CountPositive(u.threads, IsNotifyNotFull);
    CountPositive(u.threads, IsWokenEmpty);
    CountPositive(u.threads, IsWokenFull);
  }

  ghost predicate AllExited(s: State, workers: nat) {
    workers <= |s.threads| && forall i :: 0 <= i < workers ==> s.threads[i].Exited?
  }

  /** Shutdown drains: once all workers have exited, and there were fewer empty
      tasks than workers, every accepted task has been taken in order, nothing is
      queued, and every task that is not empty has been run exactly as often as
      it was accepted. An empty task ends the worker that takes it. */
  lemma ShutdownDrains(s: State, steps: seq<Step>, workers: nat)
    requires Init(s, workers) && Executes(s, steps) && AllExited(Reached(s, steps), workers)
    requires Count(Reached(s, steps).accepted, IsEmptyTask) < workers
    ensures var u := Reached(s, steps);
            && u.queue == [] && u.accepted == u.taken
            && forall task :: task != Empty ==> multiset(u.ran)[task] == multiset(u.accepted)[task]
  {
    InitInv(s, workers);
    ReachedInv(s, steps, workers);
    var u := Reached(s, steps);
    hide Executes, Reached, Init, NoLostWakeupEmpty, NoLostWakeupFull, NobodyLeftAsleep;
    SomeoneDrained(u, workers);
    assert u.accepted == u.taken;
    forall task | task != Empty
      ensures multiset(u.ran)[task] == multiset(u.accepted)[task]
    {
      CountPositive(u.threads, HoldsTask(task));
    }
  }

  lemma SomeoneDrained(u: State, workers: nat)
    requires Fifo(u) && Roles(u, workers) && Exits(u) && AllExited(u, workers)
    requires Count(u.accepted, IsEmptyTask) < workers
    ensures u.queue == []
  {
    CountPrefix(u.accepted, |u.taken|, IsEmptyTask);
    assert u.accepted[..|u.taken|] == u.taken;
    if forall i :: 0 <= i < workers ==> u.threads[i] == Exited(false) {
      CountAll(u.threads[..workers], IsEarlyExit);
      CountPrefix(u.threads, workers, IsEarlyExit);
      assert false;
    }
  }

  // ------------------------------------------- when empty tasks leave a job behind

  ghost predicate JobLeft(u: State) {
    exists i :: 0 <= i < |u.queue| && u.queue[i] != Empty
  }

  /** `u` can be reached from `s`. */
  ghost predicate Leads(s: State, u: State) {
    exists steps :: Executes(s, steps) && Reached(s, steps) == u
  }

  lemma LeadsNowhere(s: State)
    ensures Leads(s, s)
  {
    assert Executes(s, []) && Reached(s, []) == s;
  }

  lemma {:induction false} RunThen(s: State, xs: seq<Step>, ys: seq<Step>)
    requires Executes(s, xs) && Executes(Reached(s, xs), ys)
    ensures Executes(s, xs + ys) && Reached(s, xs + ys) == Reached(Reached(s, xs), ys)
    decreases |xs|
  {
    hide Can, Do;
    if xs == [] {
      assert xs + ys == ys;
    } else {
      assert (xs + ys)[0] == xs[0] && (xs + ys)[1..] == xs[1..] + ys;
      RunThen(Do(s, xs[0]), xs[1..], ys);
    }
  }

  lemma LeadsTrans(s: State, u: State, v: State)
    requires Leads(s, u) && Leads(u, v)
    ensures Leads(s, v)
  {
    var xs :| Executes(s, xs) && Reached(s, xs) == u;
    var ys :| Executes(u, ys) && Reached(u, ys) == v;
    RunThen(s, xs, ys);
  }

  lemma LeadsThen(s: State, u: State, a: Step)
    requires Leads(s, u) && Can(u, a)
    ensures Leads(s, Do(u, a))
  {
    hide Can, Do;
    var v := Do(u, a);
    assert [a][1..] == [] && Executes(v, []) && Reached(v, []) == v;
    assert Executes(u, [a]) && Reached(u, [a]) == v;
    LeadsTrans(s, u, v);
  }

  ghost predicate NobodySleeps(s: State) {
    forall i :: 0 <= i < |s.threads| ==> !s.threads[i].AsleepEmpty? && !s.threads[i].AsleepFull?
  }

  /** Thread `t` submits a task to a queue that has room. */
  lemma PutOne(s: State, t: nat, task: Task) returns (u: State)
    requires t < |s.threads| && s.threads[t] == Out && |s.queue| < QUEUE_CAPACITY && !s.shutdown && NobodySleeps(s)
    ensures Leads(s, u) && u == s.(queue := s.queue + [task], accepted := s.accepted + [task])
    ensures Count(u.accepted, IsEmptyTask) == Count(s.accepted, IsEmptyTask) + One(task == Empty)
  {
    hide Leads;
    LeadsNowhere(s);
    LeadsThen(s, s, Submit(t, task));
    var s1 := Do(s, Submit(t, task));
    LeadsThen(s, s1, Put(t));
    var s2 := Do(s1, Put(t));
    LeadsThen(s, s2, AfterPut(t, -1));
    u := Do(s2, AfterPut(t, -1));
    assert u.threads == s.threads;
    assert u.accepted[..|s.accepted|] == s.accepted;
  }

  /** Worker `t` takes an empty task and exits. */
  lemma TakeEmpty(s: State, t: nat) returns (u: State)
    requires t < |s.threads| && s.threads[t] == Taking && s.queue == [Empty] && NobodySleeps(s)
    ensures Leads(s, u)
    ensures u == s.(queue := [], taken := s.taken + [Empty], threads := s.threads[t := Exited(false)])
  {
    hide Leads;
    LeadsNowhere(s);
    LeadsThen(s, s, Take(t));
    var s1 := Do(s, Take(t));
    LeadsThen(s, s1, AfterTake(t, -1));
    u := Do(s1, AfterTake(t, -1));
    assert u.threads == s.threads[t := Exited(false)];
  }

  /** The first `j` workers have exited, each with an empty task. */
  ghost predicate Gone(s: State, workers: nat, j: nat) {
    && j <= workers < |s.threads| && s.queue == [] && !s.shutdown && Count(s.accepted, IsEmptyTask) == j
    && (forall i :: 0 <= i < j ==> s.threads[i] == Exited(false))
    && (forall i :: j <= i < workers ==> s.threads[i] == Taking)
    && (forall i :: workers <= i < |s.threads| ==> s.threads[i] == Out)
  }

  lemma {:induction false} AllGone(s: State, workers: nat, j: nat) returns (u: State)
    requires Init(s, workers) && j <= workers < |s.threads|
    ensures Leads(s, u) && Gone(u, workers, j)
    decreases j
  {
    hide Leads, Count;
    if j == 0 {
      u := s;
      LeadsNowhere(s);
      assert Count(s.accepted, IsEmptyTask) == 0 by { CountNone(IsEmptyTask); }
    } else {
      var s1 := AllGone(s, workers, j - 1);
      var s2 := PutOne(s1, workers, Empty);
      LeadsTrans(s, s1, s2);
      u := TakeEmpty(s2, j - 1);
      LeadsTrans(s, s2, u);
    }
  }

  lemma CountNone<T>(p: T -> bool)
    ensures Count([], p) == 0
  {
  }

  /** Empty tasks that nobody takes. */
  lemma {:induction false} PutEmpties(s: State, t: nat, n: nat) returns (u: State)
    requires t < |s.threads| && s.threads[t] == Out && |s.queue| + n <= QUEUE_CAPACITY && !s.shutdown && NobodySleeps(s)
    ensures Leads(s, u) && u.threads == s.threads && s.queue <= u.queue
    ensures Count(u.accepted, IsEmptyTask) == Count(s.accepted, IsEmptyTask) + n
    decreases n
  {
    hide Leads, Count;
    if n == 0 {
      u := s;
      LeadsNowhere(s);
    } else {
      var s1 := PutOne(s, t, Empty);
      u := PutEmpties(s1, t, n - 1);
      LeadsTrans(s, s1, u);
    }
  }

  /** `workers` empty tasks, a job, and the other empty tasks. */
  lemma Strand(s: State, workers: nat, e: nat) returns (u: State)
    requires Init(s, workers) && workers < |s.threads| && workers <= e < workers + QUEUE_CAPACITY
    ensures Leads(s, u) && AllExited(u, workers) && JobLeft(u) && Count(u.accepted, IsEmptyTask) == e
  {
    hide Leads, Count;
    var s1 := AllGone(s, workers, workers);
    var s2 := PutOne(s1, workers, Job(7));
    LeadsTrans(s, s1, s2);
    u := PutEmpties(s2, workers, e - workers);
    LeadsTrans(s, s2, u);
    assert u.queue[0] == Job(7);
  }

  /** Whoever leaves a task behind has taken an empty one. */
  lemma StrandedCount(u: State, workers: nat)
    requires Inv(u, workers) && AllExited(u, workers) && u.queue != []
    ensures Count(u.taken, IsEmptyTask) == workers
  {
    hide NoLostWakeupEmpty, NoLostWakeupFull, NobodyLeftAsleep, RunOnce;
    var pool := u.threads[..workers];
    forall i | 0 <= i < workers
      ensures IsEarlyExit(pool[i])
    {
      assert u.threads[i] == Exited(true) || u.threads[i] == Exited(false);
    }
    CountAll(pool, IsEarlyExit);
    CountPositive(u.threads, HoldsTask(Empty));
    CountFirst(u.threads, workers, IsEarlyExit);
  }

  /** When a job can be left behind, exactly: from any start with a thread outside
      the pool there is a run after which all workers have exited, `e` empty tasks
      were accepted and a task that is not empty is still queued, if and only if
      `e` is at least the number of workers and what the workers leave has room
      beside that task. */
  lemma StrandsExactly(s: State, workers: nat, e: nat)
    requires Init(s, workers) && workers < |s.threads|
    ensures workers <= e < workers + QUEUE_CAPACITY <==>
            exists u :: Leads(s, u) && AllExited(u, workers) && JobLeft(u) && Count(u.accepted, IsEmptyTask) == e
  {
    if workers <= e < workers + QUEUE_CAPACITY {
      var u := Strand(s, workers, e);
    }
    forall u | Leads(s, u) && AllExited(u, workers) && JobLeft(u)
      ensures workers <= Count(u.accepted, IsEmptyTask) < workers + QUEUE_CAPACITY
    {
      var steps :| Executes(s, steps) && Reached(s, steps) == u;
      InitInv(s, workers);
      ReachedInv(s, steps, workers);
      StrandedCount(u, workers);
      LeftBeside(u);
    }
  }

  lemma LeftBeside(u: State)
    requires Fifo(u) && JobLeft(u)
    ensures var taken := Count(u.taken, IsEmptyTask);
            taken <= Count(u.accepted, IsEmptyTask) < taken + QUEUE_CAPACITY
  {
    CountConcat(u.taken, u.queue, IsEmptyTask);
    var i :| 0 <= i < |u.queue| && u.queue[i] != Empty;
    CountNotAll(u.queue, i, IsEmptyTask);
  }
}
