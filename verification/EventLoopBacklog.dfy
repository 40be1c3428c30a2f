/** No stranded clients: the recovery from a full server under edge-triggered
    epoll. */
module EventLoopBacklog {
  import opened Bytes
  import opened Numerals
  import opened Counting
  import opened PerIpConnectionLimiter
  import opened EventLoop
  import opened EventLoopOwnership
  import opened EventLoopAccounting

  /** In the accept loop, or past the decrement and on the way to it. */
  predicate IsActive(pc: Pc) {
    InAccept(pc) || pc.RmLock? || pc.RmUnregister?
  }

  ghost predicate SomeoneActive(s: State) {
    exists t :: 0 <= t < |s.threads| && IsActive(s.threads[t])
  }

  /** A client waits, the counter shows room, and nobody is coming: there is no
      event that epoll has still to report or thread 0 to handle, and no active
      thread. */
  ghost predicate Stranded(s: State) {
    && s.running && s.backlog != [] && s.counter < MAX_TOTAL_CONNECTIONS
    && !s.edge && Listen !in s.todo && !SomeoneActive(s)
  }

  ghost predicate NotStranded(s: State) {
    Stranded(s) ==> s.fatal
  }

  /** A thread leaves the accept loop only when nobody waits, the counter shows
      no room, the server stops, or `accept` fails for good. */
  lemma LeavesForAReason(s: State, t: nat, m: Move)
    requires t < |s.threads| && CanMove(s, t, m) && IsActive(s.threads[t]) && !IsActive(Next(s, t, m))
    ensures !s.running || m.FatalError? || BacklogAfter(s, m) == [] || CounterAfter(s, m) >= MAX_TOTAL_CONNECTIONS
  {
  }

  /** Other steps neither serve nor forget the listening socket: what changes
      the counter is active, and an event that is taken is handled. */
  lemma OthersPassOn(s: State, t: nat, m: Move)
    requires t < |s.threads| && CanMove(s, t, m) && !IsActive(s.threads[t]) && !IsActive(Next(s, t, m)) && s.running
    ensures BacklogAfter(s, m) == s.backlog && CounterAfter(s, m) == s.counter
    ensures s.edge ==> Do(s, Move(t, m)).edge || Listen in TodoAfter(s, t, m)
    ensures Listen in s.todo ==> Listen in TodoAfter(s, t, m)
  {
    if m.Dispatch? {
      assert s.todo == [s.todo[0]] + s.todo[1..];
    }
  }

  lemma NotStrandedMove(s: State, t: nat, m: Move)
    requires t < |s.threads| && CanMove(s, t, m) && NotStranded(s)
    ensures NotStranded(Do(s, Move(t, m)))
  {
    var u := Do(s, Move(t, m));
    if IsActive(Next(s, t, m)) {
      assert IsActive(u.threads[t]);
    } else if IsActive(s.threads[t]) {
      LeavesForAReason(s, t, m);
    } else if s.running {
      OthersPassOn(s, t, m);
      hide Next, CanMove, FdsAfter, ConnsAfter, TasksAfter, PerIpAfter, TodoAfter, BacklogAfter, CounterAfter, IsActive;
      if SomeoneActive(s) {
        var i :| 0 <= i < |s.threads| && IsActive(s.threads[i]);
        assert u.threads[i] == s.threads[i];
      }
    }
  }

  lemma NotStrandedKept(s: State, a: Step)
    requires Can(s, a) && NotStranded(s)
    ensures NotStranded(Do(s, a))
  {
    if a.Move? {
      NotStrandedMove(s, a.t, a.m);
      hide Do;
    } else {
      var u := Do(s, a);
      assert u.threads == s.threads;
      hide IsActive, Referenced;
      assert SomeoneActive(u) <==> SomeoneActive(s);
    }
  }

  lemma {:induction false} ReachedNotStranded(s: State, steps: seq<Step>)
    requires NotStranded(s) && Executes(s, steps)
    ensures NotStranded(Reached(s, steps))
    decreases |steps|
  {
    hide Do, Can, NotStranded;
    if steps != [] {
      NotStrandedKept(s, steps[0]);
      ReachedNotStranded(Do(s, steps[0]), steps[1..]);
    }
  }

  // -------------------------------------------------- how the accept loop was left

  /** A client connects, or a thread enters or leaves the accept loop. */
  ghost predicate Stirs(s: State, a: Step)
    requires Can(s, a)
  {
    a.Arrive? || (a.Move? && InAccept(s.threads[a.t]) != InAccept(Next(s, a.t, a.m)))
  }

  ghost predicate NothingStirs(s: State, steps: seq<Step>)
    requires Executes(s, steps)
    decreases |steps|
  {
    steps == [] || (!Stirs(s, steps[0]) && NothingStirs(Do(s, steps[0]), steps[1..]))
  }

  /** Some thread left the accept loop by a fatal error, and after that no client
      connected and no thread entered or left the loop. */
  ghost predicate LeftFatally(s: State, steps: seq<Step>)
    requires Executes(s, steps)
    decreases |steps|
  {
    steps != [] &&
    var u := Do(s, steps[0]);
    (steps[0].Move? && steps[0].m.FatalError? && NothingStirs(u, steps[1..])) || LeftFatally(u, steps[1..])
  }

  /** The flag says just that of the run so far. */
  lemma {:induction false} FatalHistory(s: State, steps: seq<Step>)
    requires Executes(s, steps)
    ensures Reached(s, steps).fatal <==> (s.fatal && NothingStirs(s, steps)) || LeftFatally(s, steps)
    decreases |steps|
  {
    if steps != [] {
      FatalStep(s, steps[0]);
      hide Do, Can, Stirs;
      FatalHistory(Do(s, steps[0]), steps[1..]);
    }
  }

  lemma FatalStep(s: State, a: Step)
    requires Can(s, a)
    ensures Do(s, a).fatal <==> (a.Move? && a.m.FatalError?) || (s.fatal && !Stirs(s, a))
  {
  }

  /** No stranded backlog, in every reachable state of every interleaving, also
      while a removal has overtaken an increment and the counter has wrapped: a
      client waits in vain only if the last thread to leave the accept loop left
      by a fatal error, and no client has connected and no thread has entered the
      loop since. */
  lemma NobodyStranded(s: State, k: nat, steps: seq<Step>)
    requires Init(s, k) && Executes(s, steps)
    ensures Stranded(Reached(s, steps)) ==> LeftFatally(s, steps)
  {
    ReachedNotStranded(s, steps);
    FatalHistory(s, steps);
  }

  /** A stranded server is rescued by the next client, by a thread that removes a
      connection or enters the accept loop, and by nothing else while it runs. */
  lemma RescuedExactly(s: State, a: Step)
    requires Can(s, a) && Stranded(s)
    ensures Stranded(Do(s, a)) <==>
            !a.Arrive? && !a.Halt? && !(a.Move? && IsActive(Next(s, a.t, a.m)))
  {
    var u := Do(s, a);
    if a.Move? {
      if IsActive(Next(s, a.t, a.m)) {
        assert IsActive(u.threads[a.t]);
      } else {
        assert !IsActive(s.threads[a.t]);
        OthersPassOn(s, a.t, a.m);
        NoEventFromNothing(s, a.t, a.m);
        hide Next, CanMove, BacklogAfter, CounterAfter, TodoAfter, IsActive;
        assert forall i :: 0 <= i < |s.threads| && i != a.t ==> u.threads[i] == s.threads[i];
      }
    }
  }

  lemma NoEventFromNothing(s: State, t: nat, m: Move)
    requires t < |s.threads| && CanMove(s, t, m) && !s.edge && Listen !in s.todo
    ensures !Do(s, Move(t, m)).edge && Listen !in TodoAfter(s, t, m)
  {
  }

  ghost predicate AtRest(s: State) {
    !s.edge && s.todo == [] && forall t :: 0 <= t < |s.threads| ==> s.threads[t] == Idle
  }

  /** When everything is at rest, a client waits only for a slot: the map then
      holds at least 10000 connections. */
  lemma WaitsOnlyWhenFull(s: State, k: nat, steps: seq<Step>)
    requires Init(s, k) && Executes(s, steps) && AtRest(Reached(s, steps))
    ensures var u := Reached(s, steps);
            u.running && u.backlog != [] && !LeftFatally(s, steps) ==> |u.conns| >= MAX_TOTAL_CONNECTIONS
  {
    hide Init, Executes, Reached, Ownership, PerAddress, Count, LeftFatally;
    NobodyStranded(s, k, steps);
    InitAccounts(s, k);
    ReachedAccounts(s, steps);
    var u := Reached(s, steps);
    RestBalance(u);
  }

  lemma RestBalance(u: State)
    requires AtRest(u) && Total(u)
    ensures u.counter == |u.conns|
  {
    CountPositive(u.threads, IsErased);
    CountPositive(u.threads, IsInserted);
    CountPositive(u.threads, IsPast);
  }

  // ------------------------------------- a fatal accept error strands a client

  lemma NoSteps(s: State)
    ensures Executes(s, []) && Reached(s, []) == s
  {
  }

  lemma StepThen(s: State, a: Step, rest: seq<Step>)
    requires Can(s, a) && Executes(Do(s, a), rest)
    ensures Executes(s, [a] + rest) && Reached(s, [a] + rest) == Reached(Do(s, a), rest)
  {
    hide Can, Do;
    assert ([a] + rest)[1..] == rest;
  }

  /** `u` can be reached from `s`. */
  ghost predicate Leads(s: State, u: State) {
    exists steps :: Executes(s, steps) && Reached(s, steps) == u
  }

  lemma LeadsStep(s: State, a: Step)
    requires Can(s, a)
    ensures Leads(s, Do(s, a))
  {
    hide Can, Do;
    NoSteps(Do(s, a));
    StepThen(s, a, []);
  }

  lemma {:induction false} RunThen(s: State, xs: seq<Step>, ys: seq<Step>)
    requires Executes(s, xs) && Executes(Reached(s, xs), ys)
    ensures Executes(s, xs + ys) && Reached(s, xs + ys) == Reached(Reached(s, xs), ys)
    decreases |xs|
  {
    hide Can, Do;
    if xs == [] {
      assert xs + ys == ys;
    } else {
      assert (xs + ys)[0] == xs[0] && (xs + ys)[1..] == xs[1..] + ys;
      RunThen(Do(s, xs[0]), xs[1..], ys);
    }
  }

  lemma LeadsTrans(s: State, u: State, v: State)
    requires Leads(s, u) && Leads(u, v)
    ensures Leads(s, v)
  {
    var xs :| Executes(s, xs) && Reached(s, xs) == u;
    var ys :| Executes(u, ys) && Reached(u, ys) == v;
    RunThen(s, xs, ys);
  }

  lemma LeadsTwo(s: State, a: Step, b: Step)
    requires Can(s, a) && Can(Do(s, a), b)
    ensures Leads(s, Do(Do(s, a), b))
  {
    LeadsStep(s, a);
    LeadsStep(Do(s, a), b);
    LeadsTrans(s, Do(s, a), Do(Do(s, a), b));
  }

  /** Thread 0 learns of a client and enters the accept loop. */
  lemma EnterAccept(s: State, ip: Ip) returns (u: State)
    requires s.running && |s.threads| > 0 && s.threads[0] == Idle && s.todo == []
    ensures Leads(s, u)
    ensures u == s.(backlog := s.backlog + [ip], edge := false, fatal := false, threads := s.threads[0 := AccTop(None)])
  {
    hide Leads;
    var s1 := Do(s, Arrive(ip));
    LeadsStep(s, Arrive(ip));
    u := HearOfClients(s1);
    LeadsTrans(s, s1, u);
  }

  /** Epoll reports the listening socket, and thread 0 enters the accept loop. */
  lemma HearOfClients(s: State) returns (u: State)
    requires s.running && s.edge && |s.threads| > 0 && s.threads[0] == Idle && s.todo == []
    ensures Leads(s, u) && u == s.(edge := false, fatal := false, threads := s.threads[0 := AccTop(None)])
  {
    hide Leads, StartTask;
    LeadsTwo(s, Move(0, EpollWait([Listen])), Move(0, Dispatch));
    u := Do(Do(s, Move(0, EpollWait([Listen]))), Move(0, Dispatch));
    assert u.threads == s.threads[0 := AccTop(None)];
  }

  /** A thread at the head of the accept loop passes the check. */
  lemma PassCheck(s: State, t: nat) returns (u: State)
    requires s.running && t < |s.threads| && s.threads[t].AccTop? && s.counter < MAX_TOTAL_CONNECTIONS
    ensures Leads(s, u) && u == s.(threads := s.threads[t := AccAccept(s.threads[t].held)])
  {
    hide Leads;
    LeadsTwo(s, Move(t, Top), Move(t, Check));
    u := Do(Do(s, Move(t, Top)), Move(t, Check));
    assert u.threads == s.threads[t := AccAccept(s.threads[t].held)];
  }

  /** And it does happen: after a fatal error a client waits, the server is empty
      and at rest, and nobody is coming. */
  lemma FatalErrorStrands(s: State, k: nat)
    requires Init(s, k)
    ensures exists u :: Leads(s, u) && AtRest(u) && Stranded(u) && u.counter == 0
  {
    hide Leads;
    var s1 := EnterAccept(s, "10.0.0.1");
    var s2 := PassCheck(s1, 0);
    var u := Do(s2, Move(0, FatalError));
    LeadsStep(s2, Move(0, FatalError));
    LeadsTrans(s, s1, s2);
    LeadsTrans(s, s2, u);
    assert u.threads == s.threads;
    assert AtRest(u);
  }
}
