/** The connection and accept protocol of the event loop, as steps that any
    number of threads interleave.

    Thread 0 runs `run()`; the others are the workers of the pool. One step is
    one access to shared state: one load or store of an atomic, one critical
    section of a mutex that is not held across steps, one system call. System
    calls are answered by the environment within their documented ranges; adding
    a socket to epoll succeeds. The run ends before the final cleanup. */
module EventLoop {
  import opened Bytes
  import opened Numerals
  import opened PerIpConnectionLimiter

  const MAX_TOTAL_CONNECTIONS: nat := 10000
  const MAX_PER_IP: int := 100

  type Fd = nat

  /** A `Connection` object; `id` tells two objects with the same fd apart. */
  datatype Conn = Conn(id: nat, fd: Fd, ip: Ip)

  /** What an open descriptor belongs to: an accepted socket without an object,
      or a connection. */
  datatype Use = Raw | Obj(conn: Conn)

  datatype Kind = Read | Write

  /** A queued task: one that has captured its connection, or a resubmitted
      `handle_client_read(fd)`. */
  datatype Task = Serve(conn: Conn, kind: Kind) | Again(fd: Fd)

  /** What thread 0 has still to do from its last `epoll_wait` or sweep. */
  datatype Work = Listen | HangUp(fd: Fd) | Input(fd: Fd) | Output(fd: Fd) | Evict(fd: Fd)

  /** Where a thread is. In `handle_accept`, `held` is the removed connection
      whose mutex `remove_connection` still holds. */
  datatype Pc =
    | Idle
    | AccTop(held: Option<Conn>)
    | AccCheck(held: Option<Conn>)
    | AccAccept(held: Option<Conn>)
    | AccAcquire(held: Option<Conn>, fd: Fd, ip: Ip)
    | AccReject(held: Option<Conn>, fd: Fd)
    | AccInsert(held: Option<Conn>, conn: Conn)
    | AccRegister(held: Option<Conn>, conn: Conn)
    | AccCount(held: Option<Conn>, conn: Conn)
    | RmLookup(fd: Fd, captured: Option<Conn>)
    | RmRelease(conn: Conn)
    | RmUncount(conn: Conn)
    | RmLock(conn: Conn)
    | RmUnregister(conn: Conn)
    | Lookup(fd: Fd, kind: Kind)
    | TaskLock(conn: Conn, kind: Kind)
    | TaskRun(conn: Conn, kind: Kind)
    | Scanning(rest: set<Fd>, found: seq<Fd>)

  datatype State = State(
    running: bool,              // the loop state is RUNNING
    fatal: bool,                // history: whether the last thread to leave the accept loop left
                                // by a fatal error, with no arrival and no entry since
    backlog: seq<Ip>,           // the kernel's accept queue
    edge: bool,                 // epoll has an event of the listening socket to report
    fds: map<Fd, Use>,          // the open descriptors
    conns: map<Fd, Conn>,       // the connection map
    counter: nat,               // active_connections, a 64-bit unsigned integer
    perIp: Counts,
    mapMutex: Option<nat>,      // who holds conn_map_mtx between steps
    owner: map<Conn, nat>,      // who holds the mutex of a connection
    tasks: seq<Task>,
    todo: seq<Work>,
    nextId: nat,
    threads: seq<Pc>)

  /** A step of thread `t`, or of the environment: a client connects; the
      server is told to stop; the last reference to a connection is gone and its
      destructor closes the descriptor. */
  datatype Step = Arrive(ip: Ip) | Halt | CloseFd(fd: Fd) | Move(t: nat, m: Move)

  datatype Move =
    | EpollWait(events: seq<Work>)
    | BeginSweep
    | Scan(fd: Fd, stale: bool)
    | EndSweep
    | Dispatch
    | Find
    | TakeTask
    | LockConn
    | Resubmit
    | EndTask(remove: bool)
    | Top
    | Check
    | Accept(fd: Fd)
    | WouldBlock
    | Transient(dropped: bool)
    | FatalError
    | Acquire
    | Reject
    | Insert
    | Register
    | CountUp
    | Erase
    | Release
    | Uncount
    | LockRemoved
    | Unregister

  // ------------------------------------------------------- what a thread holds

  predicate InAccept(pc: Pc) {
    pc.AccTop? || pc.AccCheck? || pc.AccAccept? || pc.AccAcquire? || pc.AccReject? || pc.AccInsert? ||
    pc.AccRegister? || pc.AccCount?
  }

  /** The connection that a thread has erased from the map and not finished with. */
  function Removing(pc: Pc): Option<Conn> {
    if InAccept(pc) then pc.held
    else if pc.RmRelease? || pc.RmUncount? || pc.RmLock? || pc.RmUnregister? then Some(pc.conn)
    else None
  }

  /** The connection that a thread is about to put into the map. */
  function Inserting(pc: Pc): Option<Conn> {
    if pc.AccInsert? then Some(pc.conn) else None
  }

  /** The connections that a thread refers to. */
  function Refs(pc: Pc): set<Conn> {
    (match Removing(pc) case Some(c) => {c} case None => {}) +
    (if pc.AccInsert? || pc.AccRegister? || pc.AccCount? || pc.TaskLock? || pc.TaskRun? then {pc.conn} else {}) +
    (if pc.RmLookup? && pc.captured.Some? then {pc.captured.value} else {})
  }

  /** The socket that a thread has accepted and not yet wrapped or closed. */
  function RawFd(pc: Pc): Option<Fd> {
    if pc.AccAcquire? || pc.AccReject? then Some(pc.fd) else None
  }

  /** The connection whose mutex a thread holds. */
  function Holds(pc: Pc): Option<Conn> {
    if InAccept(pc) then pc.held
    else if pc.TaskRun? || pc.RmUnregister? then Some(pc.conn)
    else None
  }

  /** Some shared pointer to the connection is alive. */
  ghost predicate Referenced(s: State, c: Conn) {
    || (c.fd in s.conns && s.conns[c.fd] == c)
    || (exists i :: 0 <= i < |s.tasks| && s.tasks[i].Serve? && s.tasks[i].conn == c)
    || (exists t :: 0 <= t < |s.threads| && c in Refs(s.threads[t]))
  }

  // -------------------------------------------------------------------- steps

  predicate CanMove(s: State, t: nat, m: Move)
    requires t < |s.threads|
  {
    var pc := s.threads[t];
    match m
    case EpollWait(events) =>
      t == 0 && pc.Idle? && s.todo == [] && (Listen in events ==> s.edge)
    case BeginSweep => t == 0 && pc.Idle? && s.todo == [] && s.mapMutex == None
    case Scan(fd, _) => pc.Scanning? && fd in pc.rest && fd in s.conns && s.conns[fd] !in s.owner
    case EndSweep => t == 0 && pc.Scanning? && pc.rest == {}
    case Dispatch => t == 0 && pc.Idle? && s.todo != []
    case Find => pc.Lookup? && s.mapMutex == None
    case TakeTask => t != 0 && pc.Idle? && s.tasks != []
    case LockConn => pc.TaskLock? && pc.conn !in s.owner
    case Resubmit => pc.TaskRun? && pc.kind == Read
    case EndTask(_) => pc.TaskRun?
    case Top => pc.AccTop?
    case Check => pc.AccCheck?
    case Accept(fd) => pc.AccAccept? && s.backlog != [] && fd !in s.fds
    case WouldBlock => pc.AccAccept? && s.backlog == []
    case Transient(dropped) => pc.AccAccept? && (dropped ==> s.backlog != [])
    case FatalError => pc.AccAccept?
    case Acquire => pc.AccAcquire?
    case Reject => pc.AccReject?
    case Insert => pc.AccInsert? && s.mapMutex == None
    case Register => pc.AccRegister?
    case CountUp => pc.AccCount?
    case Erase => pc.RmLookup? && s.mapMutex == None
    case Release => pc.RmRelease?
    case Uncount => pc.RmUncount?
    case LockRemoved => pc.RmLock? && pc.conn !in s.owner
    case Unregister => pc.RmUnregister?
  }

  ghost predicate Can(s: State, a: Step) {
    match a
    case Arrive(_) => true
    case Halt => true
    case CloseFd(fd) => fd in s.fds && s.fds[fd].Obj? && !Referenced(s, s.fds[fd].conn)
    case Move(t, m) => t < |s.threads| && CanMove(s, t, m)
  }

  function StartWork(s: State, w: Work): Pc {
    match w
    case Listen => if s.running then AccTop(None) else Idle
    case HangUp(fd) => RmLookup(fd, None)
    case Evict(fd) => RmLookup(fd, None)
    case Input(fd) => if s.running then Lookup(fd, Read) else Idle
    case Output(fd) => Lookup(fd, Write)
  }

  function StartTask(s: State, task: Task): Pc {
    match task
    case Serve(conn, kind) => TaskLock(conn, kind)
    case Again(fd) => if s.running then Lookup(fd, Read) else Idle
  }

  /** Where the thread is after its step. `handle_accept` returns to `run()` or
      to the end of `remove_connection`, which releases the held mutex. */
  function Next(s: State, t: nat, m: Move): Pc
    requires t < |s.threads| && CanMove(s, t, m)
  {
    var pc := s.threads[t];
    match m
    case EpollWait(_) => Idle
    case BeginSweep => Scanning(s.conns.Keys, [])
    case Scan(fd, stale) => Scanning(pc.rest - {fd}, if stale then pc.found + [fd] else pc.found)
    case EndSweep => Idle
    case Dispatch => StartWork(s, s.todo[0])
    case Find => Idle
    case TakeTask => StartTask(s, s.tasks[0])
    case LockConn => TaskRun(pc.conn, pc.kind)
    case Resubmit => pc
    case EndTask(remove) => if remove then RmLookup(pc.conn.fd, Some(pc.conn)) else Idle
    case Top => if s.running then AccCheck(pc.held) else Idle
    case Check => if s.counter >= MAX_TOTAL_CONNECTIONS then Idle else AccAccept(pc.held)
    case Accept(fd) => AccAcquire(pc.held, fd, s.backlog[0])
    case WouldBlock => Idle
    case Transient(_) => AccTop(pc.held)
    case FatalError => Idle
    case Acquire =>
      if CountOf(s.perIp, pc.ip) >= MAX_PER_IP then AccReject(pc.held, pc.fd)
      else AccInsert(pc.held, Conn(s.nextId, pc.fd, pc.ip))
    case Reject => AccTop(pc.held)
    case Insert => AccRegister(pc.held, pc.conn)
    case Register => AccCount(pc.held, pc.conn)
    case CountUp => AccTop(pc.held)
    case Erase => if pc.fd in s.conns then RmRelease(s.conns[pc.fd]) else Idle
    case Release => RmUncount(pc.conn)
    case Uncount => RmLock(pc.conn)
    case LockRemoved => RmUnregister(pc.conn)
    case Unregister => if s.running then AccTop(Some(pc.conn)) else Idle
  }

  function Evictions(found: seq<Fd>): seq<Work> {
    seq(|found|, i requires 0 <= i < |found| => Evict(found[i]))
  }

  // What a step does to each part of the shared state.

  /** Whether the limiter lets the accepted socket through. */
  predicate Admits(s: State, pc: Pc)
    requires pc.AccAcquire?
  {
    CountOf(s.perIp, pc.ip) < MAX_PER_IP
  }

  function BacklogAfter(s: State, m: Move): seq<Ip> {
    if (m.Accept? || (m.Transient? && m.dropped)) && s.backlog != [] then s.backlog[1..] else s.backlog
  }

  function FdsAfter(s: State, t: nat, m: Move): map<Fd, Use>
    requires t < |s.threads| && CanMove(s, t, m)
  {
    var pc := s.threads[t];
    if m.Accept? then s.fds[m.fd := Raw]
    else if m.Acquire? && Admits(s, pc) then s.fds[pc.fd := Obj(Conn(s.nextId, pc.fd, pc.ip))]
    else if m.Reject? then s.fds - {pc.fd}
    else s.fds
  }

  function ConnsAfter(s: State, t: nat, m: Move): map<Fd, Conn>
    requires t < |s.threads| && CanMove(s, t, m)
  {
    var pc := s.threads[t];
    if m.Insert? then s.conns[pc.conn.fd := pc.conn]
    else if m.Erase? then s.conns - {pc.fd}
    else s.conns
  }

  function CounterAfter(s: State, m: Move): nat {
    if m.CountUp? then (s.counter + 1) % TWO64
    else if m.Uncount? then (s.counter - 1) % TWO64
    else s.counter
  }

  function PerIpAfter(s: State, t: nat, m: Move): Counts
    requires t < |s.threads| && CanMove(s, t, m)
  {
    var pc := s.threads[t];
    if m.Acquire? then Acquired(s.perIp, pc.ip, MAX_PER_IP)
    else if m.Release? then Released(s.perIp, pc.conn.ip)
    else s.perIp
  }

  function TasksAfter(s: State, t: nat, m: Move): seq<Task>
    requires t < |s.threads| && CanMove(s, t, m)
  {
    var pc := s.threads[t];
    if m.Find? && pc.fd in s.conns then s.tasks + [Serve(s.conns[pc.fd], pc.kind)]
    else if m.TakeTask? then s.tasks[1..]
    else if m.Resubmit? then s.tasks + [Again(pc.conn.fd)]
    else s.tasks
  }

  function TodoAfter(s: State, t: nat, m: Move): seq<Work>
    requires t < |s.threads| && CanMove(s, t, m)
  {
    if m.EpollWait? then m.events
    else if m.EndSweep? then s.todo + Evictions(s.threads[t].found)
    else if m.Dispatch? then s.todo[1..]
    else s.todo
  }

  function MapMutexAfter(s: State, t: nat, m: Move): Option<nat> {
    if m.BeginSweep? then Some(t) else if m.EndSweep? then None else s.mapMutex
  }

  /** Mutexes of connections change hands as the program points say. */
  function Owners(owner: map<Conn, nat>, t: nat, before: Option<Conn>, after: Option<Conn>): map<Conn, nat> {
    if before == after then owner
    else
      var rest := if before.Some? then owner - {before.value} else owner;
      if after.Some? then rest[after.value := t] else rest
  }

  function FatalAfter(s: State, t: nat, m: Move): bool
    requires t < |s.threads| && CanMove(s, t, m)
  {
    m.FatalError? || (s.fatal && InAccept(s.threads[t]) == InAccept(Next(s, t, m)))
  }

  function Do(s: State, a: Step): State
    requires Can(s, a)
  {
    match a
    case Arrive(ip) => s.(backlog := s.backlog + [ip], edge := true, fatal := false)
    case Halt => s.(running := false)
    case CloseFd(fd) => s.(fds := s.fds - {fd})
    case Move(t, m) =>
      State(s.running, FatalAfter(s, t, m), BacklogAfter(s, m),
            if m.EpollWait? then s.edge && Listen !in m.events else s.edge,
            FdsAfter(s, t, m), ConnsAfter(s, t, m), CounterAfter(s, m), PerIpAfter(s, t, m),
            MapMutexAfter(s, t, m), Owners(s.owner, t, Holds(s.threads[t]), Holds(Next(s, t, m))),
            TasksAfter(s, t, m), TodoAfter(s, t, m),
            if m.Acquire? && Admits(s, s.threads[t]) then s.nextId + 1 else s.nextId,
            s.threads[t := Next(s, t, m)])
  }

  /** The server has just been started with `k` threads. */
  ghost predicate Init(s: State, k: nat) {
    && s.running && !s.fatal && s.backlog == [] && !s.edge && s.fds == map[] && s.conns == map[] && s.counter == 0
    && s.perIp == map[] && s.mapMutex == None && s.owner == map[] && s.tasks == [] && s.todo == []
    && |s.threads| == k && (forall t :: 0 <= t < k ==> s.threads[t] == Idle)
    && 0 < k && MAX_TOTAL_CONNECTIONS + k < TWO64
  }

  ghost predicate Executes(s: State, steps: seq<Step>)
    decreases |steps|
  {
    steps == [] || (Can(s, steps[0]) && Executes(Do(s, steps[0]), steps[1..]))
  }

  function Reached(s: State, steps: seq<Step>): State
    requires Executes(s, steps)
    decreases |steps|
  {
    if steps == [] then s else Reached(Do(s, steps[0]), steps[1..])
  }
}
