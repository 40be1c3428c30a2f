/** What the event loop owes: every event that thread 0 takes up, every queued task
    and every stale connection of a sweep leads to what it is for, in every run. */
module EventLoopDuties {
  import opened Bytes
  import opened Numerals
  import opened Counting
  import opened PerIpConnectionLimiter
  import opened EventLoop
  import opened EventLoopOwnership
  import opened EventLoopAccounting
  import opened EventLoopBacklog

  /** To take a descriptor out of the map; to look a connection up and queue a task
      for it; to run a task with the connection's mutex. */
  datatype Duty = ToRemove(fd: Fd) | ToQueue(fd: Fd, kind: Kind) | ToRun(conn: Conn, kind: Kind)

  /** A hang-up or a stale connection is to be removed, input and output are to be
      served; input is ignored while the server stops. */
  function DutyOfWork(w: Work, running: bool): Option<Duty> {
    match w
    case HangUp(fd) => Some(ToRemove(fd))
    case Evict(fd) => Some(ToRemove(fd))
    case Input(fd) => if running then Some(ToQueue(fd, Read)) else None
    case Output(fd) => Some(ToQueue(fd, Write))
    case Listen => None
  }

  function DutyOfTask(task: Task, running: bool): Option<Duty> {
    match task
    case Serve(conn, kind) => Some(ToRun(conn, kind))
    case Again(fd) => if running then Some(ToQueue(fd, Read)) else None
  }

  /** What a thread takes upon itself by a step. */
  function Assumed(s: State, t: nat, m: Move): Option<Duty>
    requires t < |s.threads| && CanMove(s, t, m)
  {
    match m
    case Dispatch => DutyOfWork(s.todo[0], s.running)
    case TakeTask => DutyOfTask(s.tasks[0], s.running)
    case EndTask(remove) => if remove then Some(ToRemove(s.threads[t].conn.fd)) else None
    case _ => None
  }

  /** The step does it: the descriptor is no longer mapped, and the thread goes on
      to give back the connection that was; or the task is the last one queued, if
      the descriptor is mapped; or the thread holds the mutex. */
  ghost predicate Does(s: State, t: nat, a: Step, duty: Duty)
    requires Can(s, a)
  {
    && a.Move? && a.t == t
    && var u := Do(s, a);
       match duty
       case ToRemove(fd) =>
         && u.conns == s.conns - {fd}
         && (fd in s.conns ==> u.threads[t] == RmRelease(s.conns[fd]))
       case ToQueue(fd, kind) =>
         u.tasks == if fd in s.conns then s.tasks + [Serve(s.conns[fd], kind)] else s.tasks
       case ToRun(conn, kind) =>
         conn in u.owner && u.owner[conn] == t && u.threads[t] == TaskRun(conn, kind)
  }

  /** Some step of the run does it. */
  ghost predicate Done(s: State, t: nat, steps: seq<Step>, duty: Duty)
    requires Executes(s, steps)
    decreases |steps|
  {
    steps != [] && (Does(s, t, steps[0], duty) || Done(Do(s, steps[0]), t, steps[1..], duty))
  }

  /** The thread has taken it upon itself and not yet done it. */
  predicate Owes(pc: Pc, duty: Duty) {
    match duty
    case ToRemove(fd) => pc.RmLookup? && pc.fd == fd
    case ToQueue(fd, kind) => pc == Lookup(fd, kind)
    case ToRun(conn, kind) => pc == TaskLock(conn, kind)
  }

  lemma StepOwes(s: State, t: nat, a: Step, duty: Duty)
    requires Can(s, a) && t < |s.threads| && Owes(s.threads[t], duty)
    ensures t < |Do(s, a).threads| && (Does(s, t, a, duty) || Owes(Do(s, a).threads[t], duty))
  {
  }

  lemma {:induction false} SameThreadsAfter(s: State, steps: seq<Step>)
    requires Executes(s, steps)
    ensures |Reached(s, steps).threads| == |s.threads|
    decreases |steps|
  {
    hide Can, Do;
    if steps != [] {
      SameThreads(s, steps[0]);
      SameThreadsAfter(Do(s, steps[0]), steps[1..]);
    }
  }

  lemma {:induction false} OwedIsDone(s: State, t: nat, steps: seq<Step>, duty: Duty)
    requires Executes(s, steps) && t < |s.threads| && Owes(s.threads[t], duty)
    ensures t < |Reached(s, steps).threads| &&
            (Owes(Reached(s, steps).threads[t], duty) || Done(s, t, steps, duty))
    decreases |steps|
  {
    hide Can, Do, Owes, Does;
    SameThreadsAfter(s, steps);
    if steps != [] {
      StepOwes(s, t, steps[0], duty);
      if !Does(s, t, steps[0], duty) {
        OwedIsDone(Do(s, steps[0]), t, steps[1..], duty);
      }
    }
  }

  lemma AssumedIsOwed(s: State, t: nat, m: Move)
    requires t < |s.threads| && CanMove(s, t, m) && Assumed(s, t, m).Some?
    ensures var u := Do(s, Move(t, m));
            t < |u.threads| && Owes(u.threads[t], Assumed(s, t, m).value)
  {
  }

  /** Over every run: what a thread takes upon itself it has done before it is idle
      again, and so before it takes up anything else. A hang-up and a stale
      connection are removed, input and output are queued as tasks for whatever
      connection is mapped by then, a task runs with the mutex of its connection,
      and a task that fails removes its own. */
  lemma DutiesAreDone(s: State, t: nat, m: Move, steps: seq<Step>)
    requires t < |s.threads| && CanMove(s, t, m) && Assumed(s, t, m).Some?
    requires Executes(Do(s, Move(t, m)), steps)
    ensures var u := Reached(Do(s, Move(t, m)), steps);
            && t < |u.threads|
            && (u.threads[t] == Idle ==> Done(Do(s, Move(t, m)), t, steps, Assumed(s, t, m).value))
  {
    AssumedIsOwed(s, t, m);
    var u := Do(s, Move(t, m));
    hide Do, CanMove, Assumed;
    OwedIsDone(u, t, steps, Assumed(s, t, m).value);
  }

  /** A hang-up or an eviction of this descriptor is the next piece of work. */
  predicate RemovalIsNext(s: State, fd: Fd) {
    s.todo != [] && (s.todo[0] == HangUp(fd) || s.todo[0] == Evict(fd))
  }

  /** In particular: before thread 0 turns to its next piece of work, to epoll or to
      a sweep, a hang-up or a stale connection has been erased from the map. */
  lemma HangUpErases(s: State, fd: Fd, steps: seq<Step>, m: Move)
    requires Can(s, Move(0, Dispatch)) && RemovalIsNext(s, fd)
    requires Executes(Do(s, Move(0, Dispatch)), steps)
    requires m.Dispatch? || m.EpollWait? || m.BeginSweep?
    requires Can(Reached(Do(s, Move(0, Dispatch)), steps), Move(0, m))
    ensures Done(Do(s, Move(0, Dispatch)), 0, steps, ToRemove(fd))
  {
    DutiesAreDone(s, 0, Dispatch, steps);
    hide Executes, Reached, Done, Do;
  }

  // ------------------------------------------------------- a removal can proceed

  /** Thread 0 takes up the removal of a mapped connection and erases it. */
  lemma EraseRun(s: State, fd: Fd) returns (u: State)
    requires |s.threads| > 0 && s.threads[0] == Idle && RemovalIsNext(s, fd)
    requires fd in s.conns && s.mapMutex == None
    ensures Leads(s, u)
    ensures u == s.(todo := s.todo[1..], conns := s.conns - {fd}, threads := s.threads[0 := RmRelease(s.conns[fd])])
  {
    hide Leads, Do, Can;
    var s1 := s.(todo := s.todo[1..], threads := s.threads[0 := RmLookup(fd, None)]);
    DispatchMove(s, fd);
    LeadsStep(s, Move(0, Dispatch));
    EraseMove(s1, fd);
    LeadsStep(s1, Move(0, Erase));
    u := s1.(conns := s.conns - {fd}, threads := s1.threads[0 := RmRelease(s.conns[fd])]);
    LeadsTrans(s, s1, u);
    assert u.threads == s.threads[0 := RmRelease(s.conns[fd])];
  }

  lemma DispatchMove(s: State, fd: Fd)
    requires |s.threads| > 0 && s.threads[0] == Idle && RemovalIsNext(s, fd)
    ensures Can(s, Move(0, Dispatch))
    ensures Do(s, Move(0, Dispatch)) == s.(todo := s.todo[1..], threads := s.threads[0 := RmLookup(fd, None)])
  {
  }

  lemma EraseMove(s: State, fd: Fd)
    requires |s.threads| > 0 && s.threads[0] == RmLookup(fd, None) && fd in s.conns && s.mapMutex == None
    ensures Can(s, Move(0, Erase))
    ensures Do(s, Move(0, Erase)) ==
            s.(conns := s.conns - {fd}, threads := s.threads[0 := RmRelease(s.conns[fd])])
  {
  }

  /** It gives back the slot of the address and the count. */
  lemma GiveBackRun(s: State, t: nat) returns (u: State)
    requires t < |s.threads| && s.threads[t].RmRelease?
    ensures var c := s.threads[t].conn;
            Leads(s, u) && u == s.(perIp := Released(s.perIp, c.ip), counter := (s.counter - 1) % TWO64,
                                   threads := s.threads[t := RmLock(c)])
  {
    hide Leads, StartWork, StartTask, Evictions, Acquired, Released, CountOf;
    LeadsTwo(s, Move(t, Release), Move(t, Uncount));
    u := Do(Do(s, Move(t, Release)), Move(t, Uncount));
    assert u.threads == s.threads[t := RmLock(s.threads[t].conn)];
  }

  /** The address has one slot less, and no other address is touched. */
  ghost predicate OneSlotLess(before: Counts, after: Counts, ip: Ip) {
    && CountOf(before, ip) >= 1 && CountOf(after, ip) == CountOf(before, ip) - 1
    && forall other :: other != ip ==> CountOf(after, other) == CountOf(before, other)
  }

  lemma ReleasedSlot(counts: Counts, ip: Ip)
    requires CountOf(counts, ip) >= 1
    ensures OneSlotLess(counts, Released(counts, ip), ip)
  {
  }

  /** From every reachable state in which a hang-up or an eviction of a mapped
      connection is next, the map's mutex is free and thread 0 is idle, some run
      removes the connection: it is no longer mapped, its address has one slot
      less, and the counter is one lower. */
  lemma RemovalRuns(s: State, k: nat, steps: seq<Step>, fd: Fd)
    requires Init(s, k) && Executes(s, steps)
    requires var u := Reached(s, steps);
             |u.threads| > 0 && u.threads[0] == Idle && u.mapMutex == None && fd in u.conns && RemovalIsNext(u, fd)
    ensures var u := Reached(s, steps);
            exists v :: Leads(u, v) && v.conns == u.conns - {fd} && OneSlotLess(u.perIp, v.perIp, u.conns[fd].ip) &&
              v.counter == (u.counter - 1) % TWO64
  {
    hide Init, Executes, Reached, Leads, Ownership, Total, PerAddress, OneSlotLess, Released, RemovalIsNext, CountOf;
    var u := Reached(s, steps);
    InitAccounts(s, k);
    ReachedAccounts(s, steps);
    var u1 := EraseRun(u, fd);
    assert Accounts(u1) by { LeadsAccounts(u, u1); }
    ReleaseHasSlot(u1, 0);
    ReleasedSlot(u.perIp, u.conns[fd].ip);
    var v := GiveBackRun(u1, 0);
    LeadsTrans(u, u1, v);
  }

  lemma LeadsAccounts(s: State, u: State)
    requires Leads(s, u) && Accounts(s)
    ensures Accounts(u)
  {
    hide Accounts;
    var steps :| Executes(s, steps) && Reached(s, steps) == u;
    ReachedAccounts(s, steps);
  }

  // ------------------------------------------------------------------- sweeps

  const EndOfSweep: Step := Move(0, EndSweep)

  function Verdict(fd: Fd, stale: bool): Step {
    Move(0, Move.Scan(fd, stale))
  }

  /** One step while thread 0 scans. */
  lemma ScanStep(s: State, a: Step)
    requires Can(s, a) && |s.threads| > 0 && s.threads[0].Scanning? && a != EndOfSweep
    ensures var pc, u := s.threads[0], Do(s, a);
            && |u.threads| > 0 && u.threads[0].Scanning? && u.todo == s.todo
            && (forall fd :: fd in pc.rest ==>
                  fd in u.threads[0].rest || a == Verdict(fd, true) || a == Verdict(fd, false))
            && (forall fd :: fd in u.threads[0].found <==> fd in pc.found || a == Verdict(fd, true))
  {
  }

  lemma {:induction false} ScanSteps(s: State, steps: seq<Step>)
    requires Executes(s, steps) && |s.threads| > 0 && s.threads[0].Scanning? && EndOfSweep !in steps
    ensures var pc, u := s.threads[0], Reached(s, steps);
            && |u.threads| > 0 && u.threads[0].Scanning? && u.todo == s.todo
            && (forall fd :: fd in pc.rest ==>
                  fd in u.threads[0].rest || Verdict(fd, true) in steps || Verdict(fd, false) in steps)
            && (forall fd :: fd in u.threads[0].found <==> fd in pc.found || Verdict(fd, true) in steps)
    decreases |steps|
  {
    hide Can, Do, Verdict, EndOfSweep;
    if steps != [] {
      assert forall a :: a in steps <==> a == steps[0] || a in steps[1..];
      ScanStep(s, steps[0]);
      ScanSteps(Do(s, steps[0]), steps[1..]);
    }
  }

  /** Over every run, from the begin of a sweep to its end: every connection that was
      mapped has been looked at, and exactly the stale ones are to be evicted. */
  lemma SweepEvictsStale(s: State, steps: seq<Step>)
    requires Can(s, Move(0, BeginSweep)) && EndOfSweep !in steps
    requires Executes(Do(s, Move(0, BeginSweep)), steps)
    requires Can(Reached(Do(s, Move(0, BeginSweep)), steps), EndOfSweep)
    ensures var u := Do(Reached(Do(s, Move(0, BeginSweep)), steps), EndOfSweep);
            && (forall fd :: fd in s.conns ==> Verdict(fd, true) in steps || Verdict(fd, false) in steps)
            && (forall fd :: Evict(fd) in u.todo <==> Verdict(fd, true) in steps)
  {
    var begun := Do(s, Move(0, BeginSweep));
    ScanSteps(begun, steps);
    var v := Reached(begun, steps);
    EvictionsAre(v.threads[0].found);
    hide Executes, Reached, Verdict, Evictions;
  }

  lemma EvictionsAre(found: seq<Fd>)
    ensures forall fd :: Evict(fd) in Evictions(found) <==> fd in found
  {
    forall fd | fd in found
      ensures Evict(fd) in Evictions(found)
    {
      var i :| 0 <= i < |found| && found[i] == fd;
      assert Evictions(found)[i] == Evict(fd);
    }
  }

  // ------------------------------------------------------------- queued tasks

  /** What a step hands to the pool: a task for the connection that was found, or a
      second call for the descriptor of the running read task. */
  function Submits(s: State, a: Step): seq<Task> {
    if !a.Move? || a.t >= |s.threads| then []
    else
      var pc := s.threads[a.t];
      if a.m.Find? && pc.Lookup? && pc.fd in s.conns then [Serve(s.conns[pc.fd], pc.kind)]
      else if a.m.Resubmit? && pc.TaskRun? then [Again(pc.conn.fd)]
      else []
  }

  function Takes(s: State, a: Step): seq<Task> {
    if a.Move? && a.m.TakeTask? && s.tasks != [] then [s.tasks[0]] else []
  }

  ghost function AllSubmitted(s: State, steps: seq<Step>): seq<Task>
    requires Executes(s, steps)
    decreases |steps|
  {
    if steps == [] then [] else Submits(s, steps[0]) + AllSubmitted(Do(s, steps[0]), steps[1..])
  }

  ghost function AllTaken(s: State, steps: seq<Step>): seq<Task>
    requires Executes(s, steps)
    decreases |steps|
  {
    if steps == [] then [] else Takes(s, steps[0]) + AllTaken(Do(s, steps[0]), steps[1..])
  }

  lemma TasksStep(s: State, a: Step)
    requires Can(s, a)
    ensures s.tasks + Submits(s, a) == Takes(s, a) + Do(s, a).tasks
  {
  }

  /** Over every run: what was submitted is taken in that order or still queued. */
  lemma {:induction false} TasksConserved(s: State, steps: seq<Step>)
    requires Executes(s, steps)
    ensures s.tasks + AllSubmitted(s, steps) == AllTaken(s, steps) + Reached(s, steps).tasks
    decreases |steps|
  {
    hide Do, Can, Submits, Takes;
    if steps != [] {
      var a, u := steps[0], Do(s, steps[0]);
      TasksStep(s, a);
      TasksConserved(u, steps[1..]);
      var later, taken := AllSubmitted(u, steps[1..]), AllTaken(u, steps[1..]);
      assert s.tasks + (Submits(s, a) + later) == (s.tasks + Submits(s, a)) + later;
      assert (Takes(s, a) + u.tasks) + later == Takes(s, a) + (u.tasks + later);
      assert Takes(s, a) + (taken + Reached(s, steps).tasks) == (Takes(s, a) + taken) + Reached(s, steps).tasks;
    }
  }

  // ------------------------------------------------------------ no socket leaks

  /** Every accepted socket without a connection is in the hands of a thread. */
  ghost predicate RawHeld(s: State) {
    forall fd :: fd in s.fds && s.fds[fd] == Raw ==> SomeoneHolds(s.threads, fd)
  }

  ghost predicate SomeoneHolds(threads: seq<Pc>, fd: Fd) {
    exists t :: 0 <= t < |threads| && RawFd(threads[t]) == Some(fd)
  }

  /** A socket that the thread did not hold and does not take stays as it was. */
  lemma RawMove(s: State, t: nat, m: Move, fd: Fd)
    requires t < |s.threads| && CanMove(s, t, m) && fd in FdsAfter(s, t, m) && FdsAfter(s, t, m)[fd] == Raw
    ensures RawFd(Next(s, t, m)) == Some(fd) || (fd in s.fds && s.fds[fd] == Raw && RawFd(s.threads[t]) != Some(fd))
  {
  }

  lemma RawHeldStep(s: State, a: Step)
    requires Can(s, a) && RawHeld(s)
    ensures RawHeld(Do(s, a))
  {
    var u := Do(s, a);
    forall fd | fd in u.fds && u.fds[fd] == Raw
      ensures SomeoneHolds(u.threads, fd)
    {
      if a.Move? {
        RawMove(s, a.t, a.m, fd);
        hide CanMove, Next, FdsAfter, RawFd, ConnsAfter, TasksAfter, TodoAfter, PerIpAfter;
        if RawFd(u.threads[a.t]) != Some(fd) {
          var i :| 0 <= i < |s.threads| && RawFd(s.threads[i]) == Some(fd);
          assert u.threads[i] == s.threads[i];
        }
      } else {
        assert u.threads == s.threads;
      }
    }
  }

  /** Over every run: no accepted socket is forgotten, also when the limit of its
      address rejects it. */
  lemma {:induction false} NoSocketForgotten(s: State, steps: seq<Step>)
    requires Executes(s, steps) && RawHeld(s)
    ensures RawHeld(Reached(s, steps))
    decreases |steps|
  {
    hide Do, Can, RawHeld;
    if steps != [] {
      RawHeldStep(s, steps[0]);
      NoSocketForgotten(Do(s, steps[0]), steps[1..]);
    }
  }
}
