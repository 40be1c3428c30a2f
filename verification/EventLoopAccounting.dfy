/** The two counters of the event loop: connections in all, and per address. */
module EventLoopAccounting {
  import opened Bytes
  import opened Numerals
  import opened Counting
  import opened PerIpConnectionLimiter
  import opened EventLoop
  import opened EventLoopOwnership

  // ---------------------------------------------------------------- the total

  /** Erased from the map and not yet subtracted. */
  predicate IsErased(pc: Pc) { pc.RmRelease? || pc.RmUncount? }

  /** In the map and not yet added. */
  predicate IsInserted(pc: Pc) { pc.AccRegister? || pc.AccCount? }

  /** Past the capacity check and not yet added. */
  predicate IsPast(pc: Pc) {
    pc.AccAccept? || pc.AccAcquire? || pc.AccInsert? || pc.AccRegister? || pc.AccCount?
  }

  /** What `active_connections` counts, before it wraps: a removal may overtake
      the increment of its own connection, so it can be negative. */
  function Balance(s: State): int {
    |s.conns| + Count(s.threads, IsErased) - Count(s.threads, IsInserted)
  }

  /** A 64-bit unsigned integer. */
  function Wrap(b: int): nat {
    b % TWO64
  }

  /** The counter is the balance in 64 bits, and the balance together with the
      threads past the check stays within the limit and its slack. */
  ghost predicate Total(s: State) {
    && MAX_TOTAL_CONNECTIONS + |s.threads| < TWO64
    && s.counter == Wrap(Balance(s))
    && Balance(s) + Count(s.threads, IsPast) <= MAX_TOTAL_CONNECTIONS + |s.threads| - 1
  }

  lemma SizeInsert(conns: map<Fd, Conn>, fd: Fd, c: Conn)
    ensures |conns[fd := c]| == |conns| + One(fd !in conns)
  {
    assert conns[fd := c].Keys == conns.Keys + {fd};
  }

  lemma SizeErase(conns: map<Fd, Conn>, fd: Fd)
    ensures |conns - {fd}| == |conns| - One(fd in conns)
  {
    assert (conns - {fd}).Keys == conns.Keys - {fd};
  }

  /** How a step changes the size of the map and the three counts. */
  lemma SizeChange(s: State, t: nat, m: Move)
    requires t < |s.threads| && CanMove(s, t, m) && Unmapped(s.conns, s.threads[t])
    ensures |ConnsAfter(s, t, m)| ==
            |s.conns| + One(m.Insert?) - One(m.Erase? && s.threads[t].fd in s.conns)
  {
    if m.Insert? {
      SizeInsert(s.conns, s.threads[t].conn.fd, s.threads[t].conn);
    } else if m.Erase? {
      SizeErase(s.conns, s.threads[t].fd);
    }
  }

  lemma PointChange(s: State, t: nat, m: Move)
    requires t < |s.threads| && CanMove(s, t, m)
    ensures var pc, next := s.threads[t], Next(s, t, m);
            && One(IsErased(next)) - One(IsErased(pc)) == One(m.Erase? && pc.fd in s.conns) - One(m.Uncount?)
            && One(IsInserted(next)) - One(IsInserted(pc)) == One(m.Insert?) - One(m.CountUp?)
            && (IsPast(next) && !IsPast(pc) ==> m.Check? && s.counter < MAX_TOTAL_CONNECTIONS)
            && (m.CountUp? ==> IsPast(pc) && !IsPast(next))
  {
  }

  /** A thread passes the check only when there is room: a counter that has
      wrapped below zero looks full. */
  lemma RoomAtCheck(s: State, t: nat)
    requires Total(s) && t < |s.threads| && !IsPast(s.threads[t]) && s.counter < MAX_TOTAL_CONNECTIONS
    ensures Balance(s) < MAX_TOTAL_CONNECTIONS && Count(s.threads, IsPast) < |s.threads|
  {
    hide Count;
    CountNotAll(s.threads, t, IsPast);
  }

  lemma BalanceChange(s: State, t: nat, m: Move)
    requires t < |s.threads| && CanMove(s, t, m) && Unmapped(s.conns, s.threads[t])
    ensures Balance(Do(s, Move(t, m))) == Balance(s) + One(m.CountUp?) - One(m.Uncount?)
  {
    SizeChange(s, t, m);
    PointChange(s, t, m);
    CountUpdate(s.threads, t, Next(s, t, m), IsErased);
    CountUpdate(s.threads, t, Next(s, t, m), IsInserted);
    hide Count, Next, CanMove, FdsAfter, ConnsAfter, TasksAfter, TodoAfter, PerIpAfter, Unmapped, Owners;
    hide IsErased, IsInserted;
  }

  lemma CounterChange(s: State, m: Move, balance: int)
    requires s.counter == Wrap(balance)
    ensures CounterAfter(s, m) == Wrap(balance + One(m.CountUp?) - One(m.Uncount?))
  {
  }

  lemma PastChange(s: State, t: nat, m: Move)
    requires t < |s.threads| && CanMove(s, t, m) && Total(s)
    ensures var threads := s.threads[t := Next(s, t, m)];
            Balance(s) + One(m.CountUp?) - One(m.Uncount?) + Count(threads, IsPast) <=
            MAX_TOTAL_CONNECTIONS + |s.threads| - 1
  {
    PointChange(s, t, m);
    CountUpdate(s.threads, t, Next(s, t, m), IsPast);
    if m.Check? && s.counter < MAX_TOTAL_CONNECTIONS && !IsPast(s.threads[t]) {
      RoomAtCheck(s, t);
    }
    hide Count, Next, CanMove, Balance, Wrap, IsErased, IsInserted, IsPast;
  }

  lemma TotalMove(s: State, t: nat, m: Move)
    requires t < |s.threads| && CanMove(s, t, m) && Total(s) && Unmapped(s.conns, s.threads[t])
    ensures Total(Do(s, Move(t, m)))
  {
    BalanceChange(s, t, m);
    PastChange(s, t, m);
    CounterChange(s, m, Balance(s));
    hide Count, Next, CanMove, FdsAfter, ConnsAfter, TasksAfter, TodoAfter, PerIpAfter, Unmapped, Owners, Balance;
    hide IsErased, IsInserted, IsPast, Holds, Wrap, CounterAfter;
  }

  // -------------------------------------------------------------- per address

  function MappedTo(conns: map<Fd, Conn>, ip: Ip): set<Fd> {
    set fd | fd in conns && conns[fd].ip == ip
  }

  /** Threads that have acquired a slot of the address and not yet inserted. */
  function InsertsFor(ip: Ip): Pc -> bool {
    (pc: Pc) => pc.AccInsert? && pc.conn.ip == ip
  }

  /** Threads that have erased a connection of the address and not yet released
      its slot. */
  function ReleasesFor(ip: Ip): Pc -> bool {
    (pc: Pc) => pc.RmRelease? && pc.conn.ip == ip
  }

  function SlotsOf(conns: map<Fd, Conn>, threads: seq<Pc>, ip: Ip): nat {
    |MappedTo(conns, ip)| + Count(threads, InsertsFor(ip)) + Count(threads, ReleasesFor(ip))
  }

  /** The count of every address is the number of slots that are taken, and no
      entry is zero or over the limit. */
  ghost predicate PerAddress(s: State) {
    && InLimits(s.perIp, MAX_PER_IP)
    && forall ip :: CountOf(s.perIp, ip) == SlotsOf(s.conns, s.threads, ip)
  }

  lemma MappedInsert(conns: map<Fd, Conn>, fd: Fd, c: Conn, ip: Ip)
    requires fd !in conns
    ensures |MappedTo(conns[fd := c], ip)| == |MappedTo(conns, ip)| + One(c.ip == ip)
  {
    assert MappedTo(conns[fd := c], ip) == MappedTo(conns, ip) + if c.ip == ip then {fd} else {};
  }

  lemma MappedErase(conns: map<Fd, Conn>, fd: Fd, ip: Ip)
    ensures |MappedTo(conns - {fd}, ip)| == |MappedTo(conns, ip)| - One(fd in conns && conns[fd].ip == ip)
  {
    assert MappedTo(conns - {fd}, ip) == MappedTo(conns, ip) - if fd in conns && conns[fd].ip == ip then {fd} else {};
  }

  lemma MappedChange(s: State, t: nat, m: Move, ip: Ip)
    requires t < |s.threads| && CanMove(s, t, m) && Unmapped(s.conns, s.threads[t])
    ensures var pc := s.threads[t];
            |MappedTo(ConnsAfter(s, t, m), ip)| == |MappedTo(s.conns, ip)|
              + One(m.Insert? && pc.conn.ip == ip)
              - One(m.Erase? && pc.fd in s.conns && s.conns[pc.fd].ip == ip)
  {
    if m.Insert? {
      MappedInsert(s.conns, s.threads[t].conn.fd, s.threads[t].conn, ip);
    } else if m.Erase? {
      MappedErase(s.conns, s.threads[t].fd, ip);
    }
  }

  lemma SlotPointChange(s: State, t: nat, m: Move, ip: Ip)
    requires t < |s.threads| && CanMove(s, t, m)
    ensures var pc, next := s.threads[t], Next(s, t, m);
            && One(InsertsFor(ip)(next)) - One(InsertsFor(ip)(pc)) ==
               One(m.Acquire? && Admits(s, pc) && pc.ip == ip) - One(m.Insert? && pc.conn.ip == ip)
            && One(ReleasesFor(ip)(next)) - One(ReleasesFor(ip)(pc)) ==
               One(m.Erase? && pc.fd in s.conns && s.conns[pc.fd].ip == ip) - One(m.Release? && pc.conn.ip == ip)
  {
  }

  /** The number of taken slots changes only by an acquisition and a release. */
  lemma SlotsChange(s: State, t: nat, m: Move, ip: Ip)
    requires t < |s.threads| && CanMove(s, t, m) && Unmapped(s.conns, s.threads[t])
    ensures var pc := s.threads[t];
            SlotsOf(ConnsAfter(s, t, m), s.threads[t := Next(s, t, m)], ip) == SlotsOf(s.conns, s.threads, ip)
              + One(m.Acquire? && Admits(s, pc) && pc.ip == ip) - One(m.Release? && pc.conn.ip == ip)
  {
    MappedChange(s, t, m, ip);
    SlotPointChange(s, t, m, ip);
    CountUpdate(s.threads, t, Next(s, t, m), InsertsFor(ip));
    CountUpdate(s.threads, t, Next(s, t, m), ReleasesFor(ip));
    hide Count, Next, MappedTo, InsertsFor, ReleasesFor, ConnsAfter, Unmapped, CanMove;
  }

  /** A thread that is about to release holds a slot of its address. */
  lemma ReleaseHasSlot(s: State, t: nat)
    requires t < |s.threads| && s.threads[t].RmRelease? && PerAddress(s)
    ensures CountOf(s.perIp, s.threads[t].conn.ip) >= 1
  {
    var ip := s.threads[t].conn.ip;
    assert ReleasesFor(ip)(s.threads[t]);
    CountPositive(s.threads, ReleasesFor(ip));
    hide Count, MappedTo, InLimits;
  }

  lemma PerAddressMove(s: State, t: nat, m: Move)
    requires t < |s.threads| && CanMove(s, t, m) && PerAddress(s) && Unmapped(s.conns, s.threads[t])
    ensures PerAddress(Do(s, Move(t, m)))
  {
    if m.Release? {
      ReleaseHasSlot(s, t);
    }
    var counts := PerIpAfter(s, t, m);
    assert InLimits(counts, MAX_PER_IP);
    forall ip
      ensures CountOf(counts, ip) == SlotsOf(ConnsAfter(s, t, m), s.threads[t := Next(s, t, m)], ip)
    {
      SlotsChange(s, t, m, ip);
      hide SlotsOf, Next, ConnsAfter, Unmapped;
    }
    hide SlotsOf, Next, PerIpAfter, ConnsAfter, FdsAfter, TasksAfter, TodoAfter, Owners, Holds, InLimits;
  }

  // ------------------------------------------------------------ over all runs

  ghost predicate Accounts(s: State) {
    Ownership(s) && Total(s) && PerAddress(s)
  }

  lemma AccountsKept(s: State, a: Step)
    requires Can(s, a) && Accounts(s)
    ensures Accounts(Do(s, a))
  {
    OwnershipKept(s, a);
    if a.Move? {
      assert Unmapped(s.conns, s.threads[a.t]);
      TotalMove(s, a.t, a.m);
      PerAddressMove(s, a.t, a.m);
      hide Do, Ownership, Total, PerAddress;
    } else {
      hide Ownership, Balance, SlotsOf, Referenced, InLimits;
      SameAccounts(s, Do(s, a));
    }
  }

  lemma SameAccounts(s: State, u: State)
    requires Total(s) && PerAddress(s)
    requires u.threads == s.threads && u.conns == s.conns && u.counter == s.counter && u.perIp == s.perIp
    ensures Total(u) && PerAddress(u)
  {
    hide Count, MappedTo;
  }

  lemma InitAccounts(s: State, k: nat)
    requires Init(s, k)
    ensures Accounts(s) && |s.threads| == k
  {
    InitOwnership(s, k);
    hide Ownership;
    CountPositive(s.threads, IsErased);
    CountPositive(s.threads, IsInserted);
    CountPositive(s.threads, IsPast);
    forall ip
      ensures SlotsOf(s.conns, s.threads, ip) == 0
    {
      CountPositive(s.threads, InsertsFor(ip));
      CountPositive(s.threads, ReleasesFor(ip));
    }
  }

  lemma {:induction false} ReachedAccounts(s: State, steps: seq<Step>)
    requires Accounts(s) && Executes(s, steps)
    ensures Accounts(Reached(s, steps)) && |Reached(s, steps).threads| == |s.threads|
    decreases |steps|
  {
    hide Do, Can, Accounts;
    if steps != [] {
      AccountsKept(s, steps[0]);
      SameThreads(s, steps[0]);
      ReachedAccounts(Do(s, steps[0]), steps[1..]);
    }
  }

  lemma SameThreads(s: State, a: Step)
    requires Can(s, a)
    ensures |Do(s, a).threads| == |s.threads|
  {
  }

  /** The cap with its real slack: with `k` threads, in every reachable state the
      counter is the number of mapped connections, plus the erased ones that are
      not yet subtracted, minus the inserted ones that are not yet added, in 64
      bits; and the map has at most 10000 + k - 1 connections, so at most 10000
      when one thread does it all. */
  lemma CapWithSlack(s: State, k: nat, steps: seq<Step>)
    requires Init(s, k) && Executes(s, steps)
    ensures var u := Reached(s, steps);
            && u.counter == Wrap(|u.conns| + Count(u.threads, IsErased) - Count(u.threads, IsInserted))
            && |u.conns| <= MAX_TOTAL_CONNECTIONS + k - 1
  {
    hide Init, Executes, Reached, Ownership, PerAddress, Total, Count, IsErased, IsInserted, Wrap;
    InitAccounts(s, k);
    ReachedAccounts(s, steps);
    TotalBounds(Reached(s, steps));
  }

  lemma TotalBounds(u: State)
    requires Total(u)
    ensures u.counter == Wrap(|u.conns| + Count(u.threads, IsErased) - Count(u.threads, IsInserted))
    ensures |u.conns| <= MAX_TOTAL_CONNECTIONS + |u.threads| - 1
  {
    CountLess(u.threads, IsInserted, IsPast);
    hide Count, IsErased, IsInserted, IsPast;
  }

  /** Exactly-once release and the exact cap per address: in every reachable
      state the count of an address is its mapped connections plus the slots
      that are acquired and not yet inserted, plus those that are erased and not
      yet released; it lies between 1 and 100 whenever there is an entry; and a
      connection that is being released is not in the map and is being released
      by no other thread. */
  lemma SlotsReleasedOnce(s: State, k: nat, steps: seq<Step>)
    requires Init(s, k) && Executes(s, steps)
    ensures var u := Reached(s, steps);
            && (forall ip :: CountOf(u.perIp, ip) == |MappedTo(u.conns, ip)| + Count(u.threads, InsertsFor(ip))
                                                     + Count(u.threads, ReleasesFor(ip)))
            && (forall ip :: ip in u.perIp ==> 1 <= u.perIp[ip] <= MAX_PER_IP)
            && (forall t, v | 0 <= t < |u.threads| && 0 <= v < |u.threads| && t != v ::
                  Removing(u.threads[t]).Some? ==> Removing(u.threads[t]) != Removing(u.threads[v]))
            && (forall t :: 0 <= t < |u.threads| && Removing(u.threads[t]).Some? ==>
                  Removing(u.threads[t]).value.fd !in u.conns)
  {
    hide Init, Executes, Reached, Total, Count, MappedTo, Descriptors, ConnMutexes, MapMutex, Removing, Inserting;
    InitAccounts(s, k);
    ReachedAccounts(s, steps);
    var u := Reached(s, steps);
    forall t, v | 0 <= t < |u.threads| && 0 <= v < |u.threads| && t != v && Removing(u.threads[t]).Some?
      ensures Removing(u.threads[t]) != Removing(u.threads[v])
    {
      assert Apart(u.threads[t], u.threads[v]);
    }
    forall t | 0 <= t < |u.threads| && Removing(u.threads[t]).Some?
      ensures Removing(u.threads[t]).value.fd !in u.conns
    {
      assert Unmapped(u.conns, u.threads[t]);
    }
  }
}
