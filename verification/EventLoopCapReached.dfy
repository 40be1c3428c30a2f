/** The slack of the global cap is real: with `k` threads the map does reach
    10000 + k - 1 connections. */
module EventLoopCapReached {
  import opened Bytes
  import opened Numerals
  import opened PerIpConnectionLimiter
  import opened EventLoop
  import opened EventLoopBacklog

  /** The n-th client's address: what matters is that they differ. */
  function Address(n: nat): (ip: Ip)
    ensures |ip| == n
  {
    seq(n, _ => '1')
  }

  /** Nothing is queued anywhere, the counter is exact, and descriptors and
      addresses from `n` on are unused. */
  ghost predicate Calm(s: State, n: nat) {
    && s.running && s.mapMutex == None && s.backlog == [] && s.tasks == [] && s.todo == []
    && s.counter == |s.conns| && s.counter + 1 < TWO64
    && (forall fd :: fd in s.fds ==> fd < n)
    && (forall fd :: fd in s.conns ==> fd < n && s.conns[fd].fd == fd && s.conns[fd] !in s.owner)
    && (forall ip :: ip in s.perIp ==> |ip| < n)
  }

  /** The connection that the next client gets. */
  function NextConn(s: State, n: nat): Conn {
    Conn(s.nextId, n, Address(n))
  }

  /** A client connects, and thread `t`, which is past the check, accepts it and
      acquires its slot. */
  lemma AcceptFirst(s: State, n: nat, t: nat) returns (u: State)
    requires Calm(s, n) && t < |s.threads| && s.threads[t].AccAccept?
    ensures Leads(s, u)
    ensures u == s.(edge := true, fatal := false, fds := s.fds[n := Obj(NextConn(s, n))],
                    perIp := s.perIp[Address(n) := 1], nextId := s.nextId + 1,
                    threads := s.threads[t := AccInsert(s.threads[t].held, NextConn(s, n))])
  {
    hide Leads;
    assert Address(n) !in s.perIp && n !in s.fds;
    var s1 := TakeSocket(s, n, t);
    u := Do(s1, Move(t, Acquire));
    LeadsStep(s1, Move(t, Acquire));
    LeadsTrans(s, s1, u);
    assert u.fds == s.fds[n := Obj(NextConn(s, n))];
    assert u.threads == s.threads[t := AccInsert(s.threads[t].held, NextConn(s, n))];
  }

  lemma TakeSocket(s: State, n: nat, t: nat) returns (u: State)
    requires t < |s.threads| && s.threads[t].AccAccept? && s.backlog == [] && n !in s.fds
    ensures Leads(s, u)
    ensures u == s.(edge := true, fatal := false, fds := s.fds[n := Raw],
                    threads := s.threads[t := AccAcquire(s.threads[t].held, n, Address(n))])
  {
    hide Leads;
    LeadsTwo(s, Arrive(Address(n)), Move(t, Accept(n)));
    u := Do(Do(s, Arrive(Address(n))), Move(t, Accept(n)));
  }

  /** It puts the connection into the map, registers and counts it. */
  lemma AcceptLast(s: State, t: nat) returns (u: State)
    requires t < |s.threads| && s.threads[t].AccInsert? && s.mapMutex == None && s.counter + 1 < TWO64
    ensures Leads(s, u)
    ensures var c := s.threads[t].conn;
            u == s.(conns := s.conns[c.fd := c], counter := s.counter + 1,
                    threads := s.threads[t := AccTop(s.threads[t].held)])
  {
    hide Leads, StartWork, StartTask, Evictions, Acquired, Released, CountOf;
    var s1 := Do(s, Move(t, Insert));
    LeadsStep(s, Move(t, Insert));
    LeadsTwo(s1, Move(t, Register), Move(t, CountUp));
    u := Do(Do(s1, Move(t, Register)), Move(t, CountUp));
    LeadsTrans(s, s1, u);
    assert u.threads == s.threads[t := AccTop(s.threads[t].held)];
  }

  /** One more connection, by a thread that is past the check. */
  lemma AcceptOne(s: State, n: nat, t: nat) returns (u: State)
    requires Calm(s, n) && t < |s.threads| && s.threads[t].AccAccept? && s.counter + 2 < TWO64
    requires forall c :: c in s.owner ==> c.fd < n
    ensures Leads(s, u) && Calm(u, n + 1) && u.edge && u.owner == s.owner
    ensures |u.conns| == |s.conns| + 1 && u.threads == s.threads[t := AccTop(s.threads[t].held)]
    ensures forall fd :: fd in s.conns ==> fd in u.conns && u.conns[fd] == s.conns[fd]
  {
    CalmCounts(s, n);
    hide Leads, Calm, NextConn;
    var s1 := AcceptFirst(s, n, t);
    u := AcceptLast(s1, t);
    LeadsTrans(s, s1, u);
    assert NextConn(s, n).fd == n by { NextFd(s, n); }
    AcceptedCalm(s, u, n, NextConn(s, n));
    assert u.threads == s.threads[t := AccTop(s.threads[t].held)];
  }

  lemma NextFd(s: State, n: nat)
    ensures NextConn(s, n).fd == n
  {
  }

  lemma AcceptedCalm(s: State, u: State, n: nat, c: Conn)
    requires Calm(s, n) && s.counter + 2 < TWO64 && c.fd == n && forall d :: d in s.owner ==> d.fd < n
    requires u.running && u.mapMutex == None && u.backlog == [] && u.tasks == [] && u.todo == []
    requires u.counter == s.counter + 1 && u.conns == s.conns[n := c] && u.fds == s.fds[n := Obj(c)]
    requires u.perIp == s.perIp[Address(n) := 1] && u.owner == s.owner
    ensures Calm(u, n + 1) && |u.conns| == |s.conns| + 1
    ensures forall fd :: fd in s.conns ==> fd in u.conns && u.conns[fd] == s.conns[fd]
  {
    assert u.conns.Keys == s.conns.Keys + {n};
  }

  lemma FillOne(s: State, n: nat, t: nat) returns (u: State)
    requires Calm(s, n) && t < |s.threads| && s.threads[t].AccTop? && s.counter < MAX_TOTAL_CONNECTIONS
    requires forall c :: c in s.owner ==> c.fd < n
    ensures Leads(s, u) && Calm(u, n + 1) && u.owner == s.owner && u.edge
    ensures |u.conns| == |s.conns| + 1 && u.threads == s.threads
  {
    hide Leads, Calm;
    CalmCounts(s, n);
    var s1 := PassCheck(s, t);
    SameCalm(s, s1, n);
    u := AcceptOne(s1, n, t);
    LeadsTrans(s, s1, u);
    assert u.threads == s.threads;
  }

  /** Thread `t`, at the head of the accept loop, takes in `j` clients. */
  lemma {:induction false} Fill(s: State, n: nat, t: nat, j: nat) returns (u: State)
    requires Calm(s, n) && t < |s.threads| && s.threads[t].AccTop? && s.counter + j <= MAX_TOTAL_CONNECTIONS
    requires forall c :: c in s.owner ==> c.fd < n
    ensures Leads(s, u) && Calm(u, n + j) && u.owner == s.owner && (if j > 0 then u.edge else u == s)
    ensures |u.conns| == |s.conns| + j && u.threads == s.threads
    decreases j
  {
    hide Leads, Calm;
    CalmCounts(s, n);
    if j == 0 {
      u := s;
      LeadsNothing(s);
    } else {
      var s2 := FillOne(s, n, t);
      CalmCounts(s2, n + 1);
      u := Fill(s2, n + 1, t, j - 1);
      LeadsTrans(s, s2, u);
    }
  }

  lemma CalmCounts(s: State, n: nat)
    requires Calm(s, n)
    ensures s.counter == |s.conns| && s.running && s.todo == [] && s.backlog == [] && s.mapMutex == None
  {
  }

  lemma LeadsNothing(s: State)
    ensures Leads(s, s)
  {
    NoSteps(s);
  }

  // ------------------------------------------------- a worker past the check

  /** Thread 0 reports input of a connection and looks the connection up. */
  lemma ReportInput(s: State, fd: Fd) returns (u: State)
    requires s.running && |s.threads| > 0 && s.threads[0] == Idle && s.todo == [] && s.mapMutex == None
    requires fd in s.conns
    ensures Leads(s, u) && u == s.(tasks := s.tasks + [Serve(s.conns[fd], Read)])
  {
    hide Leads;
    var s1 := ToLookup(s, fd);
    u := Do(s1, Move(0, Find));
    LeadsStep(s1, Move(0, Find));
    LeadsTrans(s, s1, u);
    assert u.threads == s.threads;
  }

  lemma ToLookup(s: State, fd: Fd) returns (u: State)
    requires s.running && |s.threads| > 0 && s.threads[0] == Idle && s.todo == []
    ensures Leads(s, u) && u == s.(threads := s.threads[0 := Lookup(fd, Read)])
  {
    hide Leads, StartTask, Evictions, Acquired, Released, CountOf;
    LeadsTwo(s, Move(0, EpollWait([Input(fd)])), Move(0, Dispatch));
    u := Do(Do(s, Move(0, EpollWait([Input(fd)]))), Move(0, Dispatch));
    assert u.threads == s.threads[0 := Lookup(fd, Read)];
  }

  /** A worker takes the only task and the mutex of its connection. */
  lemma BeginTask(s: State, w: nat, c: Conn) returns (u: State)
    requires 0 < w < |s.threads| && s.threads[w] == Idle && s.tasks == [Serve(c, Read)] && c !in s.owner
    ensures Leads(s, u)
    ensures u == s.(tasks := [], owner := s.owner[c := w], threads := s.threads[w := TaskRun(c, Read)])
  {
    hide Leads, StartWork, Evictions, Acquired, Released, CountOf;
    var s1 := Do(s, Move(w, TakeTask));
    assert s1 == s.(tasks := [], threads := s.threads[w := TaskLock(c, Read)]);
    LeadsTwo(s, Move(w, TakeTask), Move(w, LockConn));
    u := Do(s1, Move(w, LockConn));
    assert u.threads == s.threads[w := TaskRun(c, Read)];
  }

  /** Thread 0 reports input of a connection, and worker `w` runs its task. */
  lemma StartReadTask(s: State, n: nat, w: nat, fd: Fd) returns (u: State)
    requires Calm(s, n) && fd in s.conns && 0 < w < |s.threads| && s.threads[0] == Idle && s.threads[w] == Idle
    ensures Leads(s, u)
    ensures u == s.(owner := s.owner[s.conns[fd] := w], threads := s.threads[w := TaskRun(s.conns[fd], Read)])
  {
    hide Leads;
    var s1 := ReportInput(s, fd);
    u := BeginTask(s1, w, s.conns[fd]);
    LeadsTrans(s, s1, u);
  }

  /** The read task fails and erases its own connection. */
  lemma EraseOwn(s: State, w: nat) returns (u: State)
    requires w < |s.threads| && s.threads[w].TaskRun? && s.mapMutex == None
    requires var c := s.threads[w].conn; c.fd in s.conns && s.conns[c.fd] == c
    ensures var c := s.threads[w].conn;
            Leads(s, u) && u == s.(conns := s.conns - {c.fd}, owner := s.owner - {c},
                                   threads := s.threads[w := RmRelease(c)])
  {
    hide Leads, StartWork, StartTask, Evictions, Acquired, Released, CountOf;
    LeadsTwo(s, Move(w, EndTask(true)), Move(w, Erase));
    u := Do(Do(s, Move(w, EndTask(true))), Move(w, Erase));
    assert u.threads == s.threads[w := RmRelease(s.threads[w].conn)];
  }

  /** It gives back the slot and the count. */
  lemma GiveBack(s: State, w: nat) returns (u: State)
    requires w < |s.threads| && s.threads[w].RmRelease? && 0 < s.counter < TWO64
    ensures var c := s.threads[w].conn;
            Leads(s, u) && u == s.(perIp := Released(s.perIp, c.ip), counter := s.counter - 1,
                                   threads := s.threads[w := RmLock(c)])
  {
    hide Leads, StartWork, StartTask, Evictions, Acquired, Released, CountOf;
    LeadsTwo(s, Move(w, Release), Move(w, Uncount));
    u := Do(Do(s, Move(w, Release)), Move(w, Uncount));
    assert u.threads == s.threads[w := RmLock(s.threads[w].conn)];
  }

  /** It takes the mutex and enters the accept loop with it. */
  lemma EnterHolding(s: State, w: nat) returns (u: State)
    requires s.running && w < |s.threads| && s.threads[w].RmLock? && s.threads[w].conn !in s.owner
    ensures var c := s.threads[w].conn;
            Leads(s, u) && u == s.(owner := s.owner[c := w], fatal := false,
                                   threads := s.threads[w := AccTop(Some(c))])
  {
    hide Leads;
    LeadsTwo(s, Move(w, LockRemoved), Move(w, Unregister));
    u := Do(Do(s, Move(w, LockRemoved)), Move(w, Unregister));
    assert u.threads == s.threads[w := AccTop(Some(s.threads[w].conn))];
  }

  /** From a full server worker `w` removes a connection and passes the check
      with the room that it has made. */
  lemma ParkWorker(s: State, n: nat, w: nat) returns (u: State)
    requires Calm(s, n) && 0 < |s.conns| <= MAX_TOTAL_CONNECTIONS
    requires 0 < w < |s.threads| && s.threads[0] == Idle && s.threads[w] == Idle
    requires forall c :: c in s.owner ==> c.fd < n
    ensures Leads(s, u) && Calm(u, n) && |u.conns| == |s.conns| - 1 && u.edge == s.edge
    ensures forall c :: c in u.owner ==> c.fd < n
    ensures |u.threads| == |s.threads| && u.threads[w].AccAccept?
    ensures forall t :: 0 <= t < |s.threads| && t != w ==> u.threads[t] == s.threads[t]
  {
    hide Leads;
    var fd :| fd in s.conns;
    var c := s.conns[fd];
    var s1 := StartReadTask(s, n, w, fd);
    var s2 := EraseOwn(s1, w);
    LeadsTrans(s, s1, s2);
    assert s2.conns.Keys == s.conns.Keys - {fd};
    var s3 := GiveBack(s2, w);
    LeadsTrans(s, s2, s3);
    var s4 := EnterHolding(s3, w);
    LeadsTrans(s, s3, s4);
    u := PassCheck(s4, w);
    LeadsTrans(s, s4, u);
    ParkedCalm(s, u, n, fd, w);
  }

  lemma ParkedCalm(s: State, u: State, n: nat, fd: Fd, w: nat)
    requires Calm(s, n) && fd in s.conns && |u.conns| == |s.conns| - 1
    requires u.running && u.mapMutex == None && u.backlog == [] && u.tasks == [] && u.todo == []
    requires u.counter == s.counter - 1 && u.fds == s.fds && u.conns == s.conns - {fd}
    requires u.perIp == Released(s.perIp, s.conns[fd].ip)
    requires u.owner == (s.owner[s.conns[fd] := w] - {s.conns[fd]})[s.conns[fd] := w]
    ensures Calm(u, n)
  {
  }

  /** Workers 1 to `j` go past the check one after the other. */
  lemma {:induction false} ParkWorkers(s: State, n: nat, j: nat) returns (u: State)
    requires Calm(s, n) && |s.conns| == MAX_TOTAL_CONNECTIONS && j < |s.threads| && j <= MAX_TOTAL_CONNECTIONS
    requires forall t :: 0 <= t < |s.threads| ==> s.threads[t] == Idle
    requires s.owner == map[]
    ensures Leads(s, u) && Calm(u, n) && |u.conns| == MAX_TOTAL_CONNECTIONS - j && u.edge == s.edge
    ensures forall c :: c in u.owner ==> c.fd < n
    ensures |u.threads| == |s.threads|
    ensures forall t :: 0 <= t < |s.threads| ==> if 0 < t <= j then u.threads[t].AccAccept? else u.threads[t] == Idle
    decreases j
  {
    hide Leads, Calm;
    if j == 0 {
      u := s;
      LeadsNothing(s);
    } else {
      var s1 := ParkWorkers(s, n, j - 1);
      u := ParkWorker(s1, n, j);
      LeadsTrans(s, s1, u);
    }
  }

  // -------------------------------------------------------- the whole scenario

  /** Thread 0 enters the accept loop for the first time; the client that woke
      it has gone again by the time it is accepted. */
  lemma FirstEntry(s: State, k: nat) returns (u: State)
    requires Init(s, k)
    ensures Leads(s, u) && Calm(u, 0) && u.conns == map[] && u.owner == map[]
    ensures u.threads == s.threads[0 := AccTop(None)]
  {
    hide Leads;
    var s1 := EnterAccept(s, "gone");
    var s2 := PassCheck(s1, 0);
    LeadsTrans(s, s1, s2);
    u := Do(s2, Move(0, Transient(true)));
    LeadsStep(s2, Move(0, Transient(true)));
    LeadsTrans(s, s2, u);
    assert u.threads == s.threads[0 := AccTop(None)];
  }

  /** A full server sends thread 0 back to epoll. */
  lemma LeaveFull(s: State, n: nat) returns (u: State)
    requires Calm(s, n) && |s.conns| == MAX_TOTAL_CONNECTIONS && |s.threads| > 0 && s.threads[0] == AccTop(None)
    ensures Leads(s, u) && u == s.(fatal := false, threads := s.threads[0 := Idle])
  {
    CalmCounts(s, n);
    hide Leads, Calm, Do, Can;
    var s1 := s.(threads := s.threads[0 := AccCheck(None)]);
    TopMove(s);
    LeadsStep(s, Move(0, Top));
    FullMove(s1);
    LeadsStep(s1, Move(0, Check));
    u := s1.(fatal := false, threads := s1.threads[0 := Idle]);
    LeadsTrans(s, s1, u);
    assert u.threads == s.threads[0 := Idle];
  }

  lemma TopMove(s: State)
    requires s.running && |s.threads| > 0 && s.threads[0] == AccTop(None)
    ensures Can(s, Move(0, Top)) && Do(s, Move(0, Top)) == s.(threads := s.threads[0 := AccCheck(None)])
  {
  }

  lemma FullMove(s: State)
    requires s.counter >= MAX_TOTAL_CONNECTIONS && |s.threads| > 0 && s.threads[0] == AccCheck(None)
    ensures Can(s, Move(0, Check))
    ensures Do(s, Move(0, Check)) == s.(fatal := false, threads := s.threads[0 := Idle])
  {
  }

  /** Thread 0 is told about the listening socket again. */
  lemma EnterAgain(s: State, n: nat) returns (u: State)
    requires Calm(s, n) && s.edge && |s.threads| > 0 && s.threads[0] == Idle
    ensures Leads(s, u) && Calm(u, n) && u.conns == s.conns && u.owner == s.owner
    ensures u.threads == s.threads[0 := AccTop(None)]
  {
    u := HearOfClients(s);
    hide Leads, Do;
  }

  /** Every thread past the check accepts one client. */
  lemma {:induction false} AllAccept(s: State, n: nat, j: nat) returns (u: State)
    requires Calm(s, n) && j <= |s.threads| && s.counter + j + 1 < TWO64
    requires forall c :: c in s.owner ==> c.fd < n
    requires forall t :: |s.threads| - j <= t < |s.threads| ==> s.threads[t].AccAccept?
    ensures Leads(s, u) && |u.conns| == |s.conns| + j
    decreases j
  {
    hide Leads;
    if j == 0 {
      u := s;
      LeadsNothing(s);
    } else {
      var s1 := AcceptOne(s, n, |s.threads| - j);
      CalmCounts(s, n);
      CalmCounts(s1, n + 1);
      hide Calm;
      u := AllAccept(s1, n + 1, j - 1);
      LeadsTrans(s, s1, u);
    }
  }

  /** A full server with all threads idle, and an event of the listening socket
      that epoll has still to report. */
  lemma FullServer(s: State, k: nat) returns (u: State)
    requires Init(s, k)
    ensures Leads(s, u) && Calm(u, MAX_TOTAL_CONNECTIONS) && |u.conns| == MAX_TOTAL_CONNECTIONS && u.edge
    ensures u.owner == map[] && |u.threads| == k && forall t :: 0 <= t < k ==> u.threads[t] == Idle
  {
    hide Leads;
    var s1 := FirstEntry(s, k);
    var s2 := Fill(s1, 0, 0, MAX_TOTAL_CONNECTIONS);
    LeadsTrans(s, s1, s2);
    hide Calm;
    u := LeaveFull(s2, MAX_TOTAL_CONNECTIONS);
    LeadsTrans(s, s2, u);
    SameCalm(s2, u, MAX_TOTAL_CONNECTIONS);
  }

  lemma SameCalm(s: State, u: State, n: nat)
    requires Calm(s, n) && u == s.(fatal := u.fatal, threads := u.threads)
    ensures Calm(u, n)
  {
  }

  /** All threads past the check at once, with one free place. */
  lemma AllPastCheck(s: State, k: nat) returns (u: State, n: nat)
    requires Init(s, k) && k <= MAX_TOTAL_CONNECTIONS
    ensures Leads(s, u) && Calm(u, n) && |u.conns| == MAX_TOTAL_CONNECTIONS - 1
    ensures forall c :: c in u.owner ==> c.fd < n
    ensures |u.threads| == k && forall t :: 0 <= t < k ==> u.threads[t].AccAccept?
  {
    hide Leads, Calm, Init;
    InitSize(s, k);
    if k == 1 {
      u := OneThread(s, k);
      n := MAX_TOTAL_CONNECTIONS;
    } else {
      var s1 := FullServer(s, k);
      var s2 := ParkWorkers(s1, MAX_TOTAL_CONNECTIONS, k - 1);
      LeadsTrans(s, s1, s2);
      var s3 := EnterAgain(s2, MAX_TOTAL_CONNECTIONS);
      LeadsTrans(s, s2, s3);
      CalmCounts(s3, MAX_TOTAL_CONNECTIONS);
      n := MAX_TOTAL_CONNECTIONS + (k - 2);
      var s4 := Fill(s3, MAX_TOTAL_CONNECTIONS, 0, k - 2);
      LeadsTrans(s, s3, s4);
      CalmCounts(s4, n);
      u := PassCheck(s4, 0);
      LeadsTrans(s, s4, u);
      SameCalm(s4, u, n);
    }
  }

  lemma InitSize(s: State, k: nat)
    requires Init(s, k)
    ensures k > 0 && |s.threads| == k && MAX_TOTAL_CONNECTIONS + k < TWO64
  {
  }

  /** With a single thread: it stops one short of full and is past the check. */
  lemma OneThread(s: State, k: nat) returns (u: State)
    requires Init(s, k)
    ensures Leads(s, u) && Calm(u, MAX_TOTAL_CONNECTIONS) && |u.conns| == MAX_TOTAL_CONNECTIONS - 1
    ensures u.owner == map[] && u.threads == s.threads[0 := AccAccept(None)]
  {
    hide Leads;
    var s1 := FirstEntry(s, k);
    var s2 := Fill(s1, 0, 0, MAX_TOTAL_CONNECTIONS - 1);
    LeadsTrans(s, s1, s2);
    u := PassCheck(s2, 0);
    LeadsTrans(s, s2, u);
    CalmLater(s2, u, MAX_TOTAL_CONNECTIONS - 1);
  }

  lemma CalmLater(s: State, u: State, n: nat)
    requires Calm(s, n) && u == s.(fatal := u.fatal, threads := u.threads)
    ensures Calm(u, n + 1)
  {
  }

  /** The slack is real: for every number of threads up to 10000 there is a run
      after which the map holds exactly 10000 + k - 1 connections. */
  lemma CapIsReached(s: State, k: nat)
    requires Init(s, k) && k <= MAX_TOTAL_CONNECTIONS
    ensures exists u :: Leads(s, u) && |u.conns| == MAX_TOTAL_CONNECTIONS + k - 1
  {
    hide Leads, Init;
    InitSize(s, k);
    var s1, n := AllPastCheck(s, k);
    CalmCounts(s1, n);
    hide Calm;
    var u := AllAccept(s1, n, k);
    LeadsTrans(s, s1, u);
  }
}
