/** Who owns what in the event loop: descriptors, connections and mutexes. */
module EventLoopOwnership {
  import opened Bytes
  import opened PerIpConnectionLimiter
  import opened EventLoop

  // -------------------------------------------------------------- descriptors

  /** The descriptor of `c` is open and belongs to `c`. */
  predicate Owned(fds: map<Fd, Use>, c: Conn) {
    c.fd in fds && fds[c.fd] == Obj(c)
  }

  /** A thread refers only to connections that own their open descriptor, and
      its accepted socket is open and belongs to no connection. */
  ghost predicate ThreadOwns(fds: map<Fd, Use>, pc: Pc) {
    && (forall c :: c in Refs(pc) ==> Owned(fds, c))
    && (pc.RmLookup? && pc.captured.Some? ==> pc.fd == pc.captured.value.fd)
    && (RawFd(pc).Some? ==> RawFd(pc).value in fds && fds[RawFd(pc).value] == Raw)
  }

  ghost predicate MapOwns(fds: map<Fd, Use>, conns: map<Fd, Conn>) {
    forall fd :: fd in conns ==> conns[fd].fd == fd && Owned(fds, conns[fd])
  }

  ghost predicate TasksOwn(fds: map<Fd, Use>, tasks: seq<Task>) {
    forall i :: 0 <= i < |tasks| && tasks[i].Serve? ==> Owned(fds, tasks[i].conn)
  }

  /** No two threads have accepted the same socket. */
  ghost predicate RawApart(threads: seq<Pc>) {
    forall t, u :: 0 <= t < u < |threads| && RawFd(threads[t]).Some? ==> RawFd(threads[t]) != RawFd(threads[u])
  }

  /** Every connection that something refers to owns its open descriptor. */
  ghost predicate Descriptors(s: State) {
    && MapOwns(s.fds, s.conns) && TasksOwn(s.fds, s.tasks) && RawApart(s.threads)
    && forall t :: 0 <= t < |s.threads| ==> ThreadOwns(s.fds, s.threads[t])
  }

  /** A step of a thread opens a new descriptor, or uses or closes the socket
      that the thread alone has accepted. */
  lemma FdsChange(s: State, t: nat, m: Move)
    requires t < |s.threads| && CanMove(s, t, m) && ThreadOwns(s.fds, s.threads[t])
    ensures forall c :: Owned(s.fds, c) ==> Owned(FdsAfter(s, t, m), c)
    ensures forall fd :: fd in s.fds && s.fds[fd] == Raw && RawFd(s.threads[t]) != Some(fd) ==>
              fd in FdsAfter(s, t, m) && FdsAfter(s, t, m)[fd] == Raw
  {
    hide Refs;
  }

  /** A thread refers to what it referred to before, to what it found in the map
      or in a task, or to what it has just made. */
  lemma RefsChange(s: State, t: nat, m: Move, c: Conn)
    requires t < |s.threads| && CanMove(s, t, m) && c in Refs(Next(s, t, m))
    ensures || c in Refs(s.threads[t])
            || (m.Erase? && s.threads[t].fd in s.conns && s.conns[s.threads[t].fd] == c)
            || (m.TakeTask? && s.tasks[0] == Serve(c, s.tasks[0].kind))
            || (m.Acquire? && Admits(s, s.threads[t]) && c == Conn(s.nextId, s.threads[t].fd, s.threads[t].ip))
  {
  }

  lemma RawChange(s: State, t: nat, m: Move)
    requires t < |s.threads| && CanMove(s, t, m) && RawFd(Next(s, t, m)).Some?
    ensures if m.Accept? then RawFd(Next(s, t, m)) == Some(m.fd) && m.fd !in s.fds
            else RawFd(Next(s, t, m)) == RawFd(s.threads[t]) && FdsAfter(s, t, m) == s.fds
  {
  }

  /** A removal that has captured its connection is that of the connection's own
      descriptor. */
  lemma LookupChange(s: State, t: nat, m: Move)
    requires t < |s.threads| && CanMove(s, t, m)
    ensures var next := Next(s, t, m);
            next.RmLookup? && next.captured.Some? ==> next.fd == next.captured.value.fd
  {
  }

  lemma ThreadOwnsAfter(s: State, t: nat, m: Move)
    requires t < |s.threads| && CanMove(s, t, m) && Descriptors(s)
    ensures ThreadOwns(FdsAfter(s, t, m), Next(s, t, m))
  {
    FdsChange(s, t, m);
    if RawFd(Next(s, t, m)).Some? {
      RawChange(s, t, m);
    }
    LookupChange(s, t, m);
    forall c | c in Refs(Next(s, t, m))
      ensures Owned(FdsAfter(s, t, m), c)
    {
      RefsChange(s, t, m, c);
      hide Next, Refs, RawFd;
      if m.Acquire? && Admits(s, s.threads[t]) && c == Conn(s.nextId, s.threads[t].fd, s.threads[t].ip) {
      } else {
        assert Owned(s.fds, c);
      }
    }
    hide Next, Refs, FdsAfter;
  }

  lemma MapOwnsAfter(s: State, t: nat, m: Move)
    requires t < |s.threads| && CanMove(s, t, m) && Descriptors(s)
    ensures MapOwns(FdsAfter(s, t, m), ConnsAfter(s, t, m))
  {
    FdsChange(s, t, m);
    assert m.Insert? ==> s.threads[t].conn in Refs(s.threads[t]);
    hide Refs, RawFd, FdsAfter, RawApart, TasksOwn;
  }

  lemma TasksOwnAfter(s: State, t: nat, m: Move)
    requires t < |s.threads| && CanMove(s, t, m) && Descriptors(s)
    ensures TasksOwn(FdsAfter(s, t, m), TasksAfter(s, t, m))
  {
    FdsChange(s, t, m);
    hide Refs, RawFd, FdsAfter, RawApart;
  }

  lemma RawApartAfter(s: State, t: nat, m: Move)
    requires t < |s.threads| && CanMove(s, t, m) && Descriptors(s)
    ensures RawApart(s.threads[t := Next(s, t, m)])
  {
    if RawFd(Next(s, t, m)).Some? {
      RawChange(s, t, m);
    }
    hide Next, Refs, RawFd, MapOwns, TasksOwn, FdsAfter;
    if m.Accept? {
      forall u | 0 <= u < |s.threads| && RawFd(s.threads[u]).Some?
        ensures RawFd(s.threads[u]).value in s.fds
      {
        assert ThreadOwns(s.fds, s.threads[u]);
      }
    }
  }

  lemma DescriptorsMove(s: State, t: nat, m: Move)
    requires t < |s.threads| && CanMove(s, t, m) && Descriptors(s)
    ensures Descriptors(Do(s, Move(t, m)))
  {
    ThreadOwnsAfter(s, t, m);
    MapOwnsAfter(s, t, m);
    TasksOwnAfter(s, t, m);
    RawApartAfter(s, t, m);
    FdsChange(s, t, m);
    hide Next, CanMove, FdsAfter, ConnsAfter, TasksAfter, Owners, MapOwns, TasksOwn, RawApart, Refs, RawFd;
    var u := Do(s, Move(t, m));
    forall i | 0 <= i < |u.threads|
      ensures ThreadOwns(u.fds, u.threads[i])
    {
      if i != t {
        OtherOwns(s, t, m, i);
      }
    }
  }

  lemma OtherOwns(s: State, t: nat, m: Move, i: nat)
    requires t < |s.threads| && CanMove(s, t, m) && Descriptors(s) && i < |s.threads| && i != t
    ensures ThreadOwns(FdsAfter(s, t, m), s.threads[i])
  {
    FdsChange(s, t, m);
    assert ThreadOwns(s.fds, s.threads[i]);
    assert RawFd(s.threads[i]).Some? ==> RawFd(s.threads[i]) != RawFd(s.threads[t]);
    hide Next, CanMove, FdsAfter, MapOwns, TasksOwn, Refs, RawFd;
  }

  /** A descriptor is closed only when nothing refers to its connection. */
  lemma DescriptorsClose(s: State, fd: Fd)
    requires Can(s, CloseFd(fd)) && Descriptors(s)
    ensures Descriptors(Do(s, CloseFd(fd)))
  {
    hide Refs, RawFd;
    var c := s.fds[fd].conn;
    var fds := s.fds - {fd};
    forall i | 0 <= i < |s.threads|
      ensures ThreadOwns(fds, s.threads[i])
    {
      assert ThreadOwns(s.fds, s.threads[i]);
    }
  }

  // -------------------------------------------------------------------- slots

  /** A connection that is being inserted or removed is not in the map. */
  ghost predicate Unmapped(conns: map<Fd, Conn>, pc: Pc) {
    && (Removing(pc).Some? ==> Removing(pc).value.fd !in conns)
    && (Inserting(pc).Some? ==> Inserting(pc).value.fd !in conns)
  }

  /** Two threads never insert or remove the same connection. */
  ghost predicate Apart(a: Pc, b: Pc) {
    && (Removing(a).Some? ==> Removing(a) != Removing(b) && Removing(a) != Inserting(b))
    && (Inserting(a).Some? ==> Inserting(a) != Removing(b) && Inserting(a) != Inserting(b))
  }

  ghost predicate Slots(s: State) {
    && (forall t :: 0 <= t < |s.threads| ==>
          Unmapped(s.conns, s.threads[t]) &&
          (Removing(s.threads[t]).Some? ==> Removing(s.threads[t]) != Inserting(s.threads[t])))
    && (forall t, u :: 0 <= t < |s.threads| && 0 <= u < |s.threads| && t != u ==> Apart(s.threads[t], s.threads[u]))
  }

  /** How the slots of a thread change in its own step. */
  lemma SlotChange(s: State, t: nat, m: Move)
    requires t < |s.threads| && CanMove(s, t, m)
    ensures var pc, next := s.threads[t], Next(s, t, m);
            && (Removing(next) == None || Removing(next) == Removing(pc) ||
                (m.Erase? && pc.fd in s.conns && Removing(next) == Some(s.conns[pc.fd])))
            && (Inserting(next) == None ||
                (m.Acquire? && Admits(s, pc) && Inserting(next) == Some(Conn(s.nextId, pc.fd, pc.ip))))
            && (m.Insert? ==> Inserting(pc) == Some(pc.conn))
            && (m.Acquire? ==> RawFd(pc) == Some(pc.fd))
            && (m.Erase? ==> Removing(pc) == None)
            && (Inserting(next).Some? ==> Removing(next) == Removing(pc))
  {
  }

  lemma SlotRefs(fds: map<Fd, Use>, pc: Pc)
    requires ThreadOwns(fds, pc)
    ensures Removing(pc).Some? ==> Owned(fds, Removing(pc).value)
    ensures Inserting(pc).Some? ==> Owned(fds, Inserting(pc).value)
  {
    assert Removing(pc).Some? ==> Removing(pc).value in Refs(pc);
    assert Inserting(pc).Some? ==> Inserting(pc).value in Refs(pc);
  }

  lemma UnmappedAfter(s: State, t: nat, m: Move, i: nat)
    requires t < |s.threads| && CanMove(s, t, m) && Descriptors(s) && Slots(s) && i < |s.threads|
    ensures Unmapped(ConnsAfter(s, t, m), if i == t then Next(s, t, m) else s.threads[i])
  {
    SlotChange(s, t, m);
    SlotRefs(s.fds, s.threads[t]);
    SlotRefs(s.fds, s.threads[i]);
    assert ThreadOwns(s.fds, s.threads[t]) && ThreadOwns(s.fds, s.threads[i]);
    assert Unmapped(s.conns, s.threads[i]) && Unmapped(s.conns, s.threads[t]);
    assert i != t ==> Apart(s.threads[i], s.threads[t]);
    hide Next, CanMove, Refs, RawFd, Removing, Inserting, Slots, TasksOwn, RawApart;
  }

  lemma ApartAfter(s: State, t: nat, m: Move, i: nat)
    requires t < |s.threads| && CanMove(s, t, m) && Descriptors(s) && Slots(s) && i < |s.threads| && i != t
    ensures Apart(Next(s, t, m), s.threads[i]) && Apart(s.threads[i], Next(s, t, m))
  {
    SlotChange(s, t, m);
    SlotRefs(s.fds, s.threads[i]);
    assert ThreadOwns(s.fds, s.threads[t]);
    assert Unmapped(s.conns, s.threads[i]);
    assert Apart(s.threads[i], s.threads[t]) && Apart(s.threads[t], s.threads[i]);
    hide Next, CanMove, Refs, RawFd, Removing, Inserting, Slots, TasksOwn, RawApart;
  }

  lemma SelfApartAfter(s: State, t: nat, m: Move)
    requires t < |s.threads| && CanMove(s, t, m) && Descriptors(s) && Slots(s)
    ensures Removing(Next(s, t, m)).Some? ==> Removing(Next(s, t, m)) != Inserting(Next(s, t, m))
  {
    SlotChange(s, t, m);
    SlotRefs(s.fds, s.threads[t]);
    assert ThreadOwns(s.fds, s.threads[t]);
    hide Next, CanMove, Refs, RawFd, Removing, Inserting, TasksOwn, RawApart, Apart, Unmapped;
  }

  lemma SlotsMove(s: State, t: nat, m: Move)
    requires t < |s.threads| && CanMove(s, t, m) && Descriptors(s) && Slots(s)
    ensures Slots(Do(s, Move(t, m)))
  {
    SelfApartAfter(s, t, m);
    var u := Do(s, Move(t, m));
    hide Next, CanMove, ConnsAfter, Removing, Inserting, Descriptors, Owners;
    forall i | 0 <= i < |u.threads|
      ensures Unmapped(u.conns, u.threads[i])
      ensures i != t ==> Apart(u.threads[t], u.threads[i]) && Apart(u.threads[i], u.threads[t])
    {
      UnmappedAfter(s, t, m, i);
      if i != t {
        ApartAfter(s, t, m, i);
      }
    }
    hide Unmapped, Apart;
  }

  // ------------------------------------------------------------------ mutexes

  /** The owner of a connection's mutex is the thread that holds it. */
  ghost predicate OwnersMatch(owner: map<Conn, nat>, threads: seq<Pc>) {
    && (forall c :: c in owner ==> owner[c] < |threads| && Holds(threads[owner[c]]) == Some(c))
    && (forall t :: 0 <= t < |threads| && Holds(threads[t]).Some? ==>
          Holds(threads[t]).value in owner && owner[Holds(threads[t]).value] == t)
  }

  ghost predicate ConnMutexes(s: State) {
    OwnersMatch(s.owner, s.threads)
  }

  /** Only a sweep holds the mutex of the map across steps, and what it has
      still to scan is in the map. */
  ghost predicate MapMutex(s: State) {
    && (forall t :: 0 <= t < |s.threads| ==> (s.threads[t].Scanning? <==> s.mapMutex == Some(t)))
    && (s.mapMutex.Some? ==> s.mapMutex.value < |s.threads|)
    && (forall t :: 0 <= t < |s.threads| && s.threads[t].Scanning? ==> s.threads[t].rest <= s.conns.Keys)
  }

  /** A thread takes the mutex of a connection only when it is free. */
  lemma HoldsChange(s: State, t: nat, m: Move)
    requires t < |s.threads| && CanMove(s, t, m)
    ensures var before, after := Holds(s.threads[t]), Holds(Next(s, t, m));
            after.Some? && after != before ==> before == None && after.value !in s.owner
  {
  }

  lemma OwnersStep(owner: map<Conn, nat>, threads: seq<Pc>, t: nat, next: Pc)
    requires OwnersMatch(owner, threads) && t < |threads|
    requires Holds(next).Some? && Holds(next) != Holds(threads[t]) ==>
               Holds(threads[t]) == None && Holds(next).value !in owner
    ensures OwnersMatch(Owners(owner, t, Holds(threads[t]), Holds(next)), threads[t := next])
  {
    hide Holds;
  }

  lemma ConnMutexesMove(s: State, t: nat, m: Move)
    requires t < |s.threads| && CanMove(s, t, m) && ConnMutexes(s)
    ensures ConnMutexes(Do(s, Move(t, m)))
  {
    HoldsChange(s, t, m);
    OwnersStep(s.owner, s.threads, t, Next(s, t, m));
    hide Next, CanMove, Holds, OwnersMatch, Owners;
  }

  lemma ScanningChange(s: State, t: nat, m: Move)
    requires t < |s.threads| && CanMove(s, t, m)
    ensures var pc, next := s.threads[t], Next(s, t, m);
            && (next.Scanning? && !pc.Scanning? ==> m.BeginSweep? && s.mapMutex == None && next.rest == s.conns.Keys)
            && (next.Scanning? && pc.Scanning? ==> !m.BeginSweep? && !m.EndSweep? && next.rest <= pc.rest)
            && (!next.Scanning? && pc.Scanning? ==> m.EndSweep?)
            && (!next.Scanning? && !pc.Scanning? ==> !m.BeginSweep? && !m.EndSweep?)
            && (m.Insert? || m.Erase? ==> s.mapMutex == None && !next.Scanning?)
  {
  }

  lemma MapMutexMove(s: State, t: nat, m: Move)
    requires t < |s.threads| && CanMove(s, t, m) && MapMutex(s)
    ensures MapMutex(Do(s, Move(t, m)))
  {
    ScanningChange(s, t, m);
    hide Next, CanMove, FdsAfter, TasksAfter, TodoAfter, PerIpAfter, CounterAfter, BacklogAfter, Owners;
  }

  // --------------------------------------------------------- the whole of it

  ghost predicate Ownership(s: State) {
    Descriptors(s) && Slots(s) && ConnMutexes(s) && MapMutex(s)
  }

  lemma OwnershipKept(s: State, a: Step)
    requires Can(s, a) && Ownership(s)
    ensures Ownership(Do(s, a))
  {
    match a
    case Move(t, m) =>
      hide Do, Descriptors, Slots, ConnMutexes, MapMutex, CanMove;
      DescriptorsMove(s, t, m);
      SlotsMove(s, t, m);
      ConnMutexesMove(s, t, m);
      MapMutexMove(s, t, m);
    case CloseFd(fd) =>
      DescriptorsClose(s, fd);
      hide Referenced, Descriptors;
    case _ =>
      hide MapOwns, TasksOwn, RawApart, ThreadOwns, Unmapped, Apart, Holds;
  }

  lemma InitOwnership(s: State, k: nat)
    requires Init(s, k)
    ensures Ownership(s)
  {
  }

  lemma {:induction false} ReachedOwnership(s: State, steps: seq<Step>)
    requires Ownership(s) && Executes(s, steps)
    ensures Ownership(Reached(s, steps))
    decreases |steps|
  {
    hide Do, Can, Ownership;
    if steps != [] {
      OwnershipKept(s, steps[0]);
      ReachedOwnership(Do(s, steps[0]), steps[1..]);
    }
  }

  /** A task removes its own connection: whenever a read or write task is about
      to erase its descriptor from the map, in any reachable state, the map has
      under that descriptor the very connection that it captured, or
      nothing; the descriptor has not been reused for another one. */
  lemma TaskRemovesItsOwn(s: State, k: nat, steps: seq<Step>, t: nat)
    requires Init(s, k) && Executes(s, steps) && t < |Reached(s, steps).threads|
    ensures var u := Reached(s, steps);
            var pc := u.threads[t];
            pc.RmLookup? && pc.captured.Some? && pc.fd in u.conns ==> u.conns[pc.fd] == pc.captured.value
  {
    InitOwnership(s, k);
    ReachedOwnership(s, steps);
    hide Init, Executes, Reached, Slots, ConnMutexes, MapMutex;
    var u := Reached(s, steps);
    assert ThreadOwns(u.fds, u.threads[t]);
    assert u.threads[t].RmLookup? && u.threads[t].captured.Some? ==>
        u.threads[t].captured.value in Refs(u.threads[t]);
  }

  // ---------------------------------------------------------- no wait cycle

  /** Thread `t` cannot go on until thread `h` releases a mutex. */
  ghost predicate WaitsFor(s: State, t: nat, h: nat)
    requires t < |s.threads|
  {
    var pc := s.threads[t];
    if pc.AccInsert? || pc.RmLookup? || pc.Lookup? then s.mapMutex == Some(h)
    else if pc.TaskLock? || pc.RmLock? then pc.conn in s.owner && s.owner[pc.conn] == h
    else if pc.Scanning? then
      exists fd :: fd in pc.rest && fd in s.conns && s.conns[fd] in s.owner && s.owner[s.conns[fd]] == h
    else false
  }

  function Level(pc: Pc): nat {
    if pc.TaskLock? || pc.RmLock? then 3
    else if pc.AccInsert? || pc.RmLookup? || pc.Lookup? then 2
    else if pc.Scanning? then 1
    else 0
  }

  /** Whoever waits for the mutex of the map holds at most the mutex of a
      connection that is no longer in the map, and whoever holds the mutex of the
      map waits at most for connections that are: so waiting goes down. */
  lemma WaitingGoesDown(s: State, t: nat, h: nat)
    requires Ownership(s) && t < |s.threads| && WaitsFor(s, t, h)
    ensures h < |s.threads| && Level(s.threads[h]) < Level(s.threads[t])
  {
    var pc := s.threads[t];
    if pc.Scanning? {
      var fd :| fd in pc.rest && fd in s.conns && s.conns[fd] in s.owner && s.owner[s.conns[fd]] == h;
      MappedHolderRuns(s, fd, h);
    } else {
      hide Descriptors, Slots;
    }
  }

  /** The mutex of a connection in the map is held only by a task that runs. */
  lemma MappedHolderRuns(s: State, fd: Fd, h: nat)
    requires Ownership(s) && fd in s.conns && s.conns[fd] in s.owner && s.owner[s.conns[fd]] == h
    ensures h < |s.threads| && s.threads[h].TaskRun?
  {
    hide TasksOwn, RawApart, ThreadOwns, Apart, MapMutex;
    assert Holds(s.threads[h]) == Some(s.conns[fd]);
    assert Unmapped(s.conns, s.threads[h]);
  }

  /** A chain of threads each of which waits for the next. */
  ghost predicate WaitChain(s: State, p: seq<nat>) {
    && (forall i :: 0 <= i < |p| ==> p[i] < |s.threads|)
    && forall i :: 0 <= i < |p| - 1 ==> p[i] < |s.threads| && WaitsFor(s, p[i], p[i + 1])
  }

  lemma {:induction false} ChainGoesDown(s: State, p: seq<nat>)
    requires Ownership(s) && WaitChain(s, p) && |p| > 0
    ensures Level(s.threads[p[|p| - 1]]) + |p| - 1 <= Level(s.threads[p[0]])
    decreases |p|
  {
    hide Ownership, WaitsFor, Level;
    if |p| > 1 {
      assert WaitsFor(s, p[0], p[1]);
      WaitingGoesDown(s, p[0], p[1]);
      var q := p[1..];
      forall i | 0 <= i < |q| - 1
        ensures WaitsFor(s, q[i], q[i + 1])
      {
        assert q[i] == p[i + 1] && q[i + 1] == p[i + 2];
      }
      ChainGoesDown(s, q);
    }
  }

  /** No deadlock over the mutexes of the map and of connections: in no
      reachable state of any interleaving is there a cycle of waiting threads,
      and no chain of waiting threads is longer than four. */
  lemma NoWaitCycle(s: State, k: nat, steps: seq<Step>, p: seq<nat>)
    requires Init(s, k) && Executes(s, steps) && WaitChain(Reached(s, steps), p) && |p| > 0
    ensures |p| > 1 ==> p[0] != p[|p| - 1]
    ensures |p| <= 4
  {
    InitOwnership(s, k);
    ReachedOwnership(s, steps);
    ChainGoesDown(Reached(s, steps), p);
  }
}
