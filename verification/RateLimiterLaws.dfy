/** What the limiter decides, as a law about call times alone. */
module RateLimiterLaws {
  import opened Bytes
  import opened RateLimiter

  // -------------------------------------------------------------- one address

  ghost predicate Ordered(ts: seq<real>) {
    forall i, j :: 0 <= i <= j < |ts| ==> ts[i] <= ts[j]
  }

  /** The tokens that call `n` of an address finds after the refill, when its
      calls come at the times `ts` and its bucket is never evicted. */
  function Tokens(p: Params, ts: seq<real>, n: nat): real
    requires n < |ts|
  {
    if n == 0 then p.capacity
    else
      var found := Tokens(p, ts, n - 1);
      var left := if found >= 1.0 then found - 1.0 else found;
      MinReal(p.capacity, left + Gain(p, ts[n] - ts[n - 1]))
  }

  predicate Allowed(p: Params, ts: seq<real>, n: nat)
    requires n < |ts|
  {
    Tokens(p, ts, n) >= 1.0
  }

  /** How many of the calls `j` to `n - 1` are allowed. */
  function Count(p: Params, ts: seq<real>, j: nat, n: nat): nat
    requires j <= n <= |ts|
  {
    if j == n then 0 else Count(p, ts, j, n - 1) + if Allowed(p, ts, n - 1) then 1 else 0
  }

  /** What the capacity and the refill since call `j` leave for call `n`. */
  function Budget(p: Params, ts: seq<real>, j: nat, n: nat): real
    requires j <= n < |ts|
  {
    p.capacity + Gain(p, ts[n] - ts[j]) - Count(p, ts, j, n) as real
  }

  lemma GainAdds(p: Params, a: real, b: real)
    ensures Gain(p, a + b) == Gain(p, a) + Gain(p, b)
  {
  }

  lemma GainGrows(p: Params, a: real, b: real)
    requires p.rate >= 0.0 && a <= b
    ensures Gain(p, a) <= Gain(p, b)
    ensures Gain(p, 0.0) == 0.0
  {
  }

  lemma GainZero(p: Params)
    ensures Gain(p, 0.0) == 0.0
  {
  }

  lemma BudgetStep(p: Params, ts: seq<real>, j: nat, n: nat)
    requires j < n < |ts|
    ensures Budget(p, ts, j, n) ==
            Budget(p, ts, j, n - 1) + Gain(p, ts[n] - ts[n - 1]) - if Allowed(p, ts, n - 1) then 1.0 else 0.0
  {
    hide Gain, Tokens;
    GainAdds(p, ts[n] - ts[n - 1], ts[n - 1] - ts[j]);
    assert (ts[n] - ts[n - 1]) + (ts[n - 1] - ts[j]) == ts[n] - ts[j];
  }

  /** The tokens are the least of all budgets. */
  lemma {:induction false} TokensAreLeastBudget(p: Params, ts: seq<real>, n: nat) returns (k: nat)
    requires n < |ts|
    ensures forall j :: 0 <= j <= n ==> Tokens(p, ts, n) <= Budget(p, ts, j, n)
    ensures k <= n && Tokens(p, ts, n) == Budget(p, ts, k, n)
  {
    hide Gain;
    if n == 0 {
      k := 0;
      GainZero(p);
    } else {
      k := TokensAreLeastBudget(p, ts, n - 1);
      forall j | 0 <= j < n
        ensures Tokens(p, ts, n) <= Budget(p, ts, j, n)
      {
        BudgetStep(p, ts, j, n);
      }
      BudgetStep(p, ts, k, n);
      GainZero(p);
      if Tokens(p, ts, n) == p.capacity {
        k := n;
      }
    }
  }

  /** The allowed calls from call `j` on, together with call `n`, fit into the
      capacity and the refill of the time between. */
  predicate Fits(p: Params, ts: seq<real>, j: nat, n: nat)
    requires j <= n < |ts|
  {
    1.0 + Count(p, ts, j, n) as real <= p.capacity + Gain(p, ts[n] - ts[j])
  }

  /** The exact sliding-window law: a call is allowed if and only if, for every
      call up to it, the allowed calls from there on together with this one fit
      into the capacity and the refill of the time between. */
  lemma AllowedExactly(p: Params, ts: seq<real>, n: nat)
    requires n < |ts|
    ensures Allowed(p, ts, n) <==> forall j :: 0 <= j <= n ==> Fits(p, ts, j, n)
  {
    hide Gain, Tokens, Count;
    var k := TokensAreLeastBudget(p, ts, n);
    assert Fits(p, ts, k, n) <==> Budget(p, ts, k, n) >= 1.0;
    forall j | 0 <= j <= n
      ensures Fits(p, ts, j, n) <==> Budget(p, ts, j, n) >= 1.0
    {
    }
  }

  /** No window lets through more than a burst and its refill. */
  lemma {:induction false} BurstBound(p: Params, ts: seq<real>, i: nat, n: nat)
    requires i < n <= |ts| && Ordered(ts) && p.rate >= 0.0 && p.capacity >= 0.0
    ensures Count(p, ts, i, n) as real <= p.capacity + Gain(p, ts[n - 1] - ts[i])
    decreases n
  {
    hide Gain, Tokens;
    GainGrows(p, 0.0, ts[n - 1] - ts[i]);
    if Allowed(p, ts, n - 1) {
      AllowedExactly(p, ts, n - 1);
      assert Fits(p, ts, i, n - 1);
    } else if i < n - 1 {
      BurstBound(p, ts, i, n - 1);
      GainGrows(p, ts[n - 2] - ts[i], ts[n - 1] - ts[i]);
    }
  }

  lemma {:induction false} TokensInRange(p: Params, ts: seq<real>, n: nat)
    requires n < |ts| && Ordered(ts) && p.rate >= 0.0 && p.capacity >= 0.0
    ensures 0.0 <= Tokens(p, ts, n) <= p.capacity
  {
    hide Gain;
    if n > 0 {
      TokensInRange(p, ts, n - 1);
      GainGrows(p, 0.0, ts[n] - ts[n - 1]);
    }
  }

  /** A client that leaves at least the time of one token between its calls is
      never refused. */
  lemma {:induction false} SpacedNeverRefused(p: Params, ts: seq<real>, n: nat)
    requires n < |ts| && p.capacity >= 1.0
    requires forall i :: 0 < i < |ts| ==> Gain(p, ts[i] - ts[i - 1]) >= 1.0
    ensures Allowed(p, ts, n)
  {
    hide Gain;
    if n > 0 {
      SpacedNeverRefused(p, ts, n - 1);
    }
  }

  // ----------------------------------------------------------- many addresses

  /** A call, whose clock is read at `created` if the bucket is new and then at
      `now`; or a sweep. */
  datatype Event = Call(ip: Ip, created: real, now: real) | Sweep(now: real, max_idle: nat)

  /** The clock never runs back. */
  ghost predicate InOrder(es: seq<Event>) {
    && (forall i, j :: 0 <= i <= j < |es| ==> es[i].now <= es[j].now)
    && (forall i :: 0 <= i < |es| && es[i].Call? ==> es[i].created <= es[i].now)
  }

  /** The buckets after some events; `sweeping` says whether sweeps count. */
  function After(p: Params, es: seq<Event>, sweeping: bool): Store
    decreases |es|
  {
    if es == [] then map[]
    else
      var s := After(p, es[..|es| - 1], sweeping);
      match es[|es| - 1]
      case Call(ip, created, now) => s[ip := Spent(Refilled(p, Found(p, s, ip, created), now))]
      case Sweep(now, max_idle) => if sweeping then Swept(s, now, max_idle) else s
  }

  /** The answer to call `k`. */
  predicate Answer(p: Params, es: seq<Event>, k: nat, sweeping: bool)
    requires k < |es| && es[k].Call?
  {
    Allows(Refilled(p, Found(p, After(p, es[..k], sweeping), es[k].ip, es[k].created), es[k].now))
  }

  /** The times at which an address calls. */
  function Times(es: seq<Event>, ip: Ip): seq<real>
    decreases |es|
  {
    if es == [] then []
    else
      var e := es[|es| - 1];
      Times(es[..|es| - 1], ip) + if e.Call? && e.ip == ip then [e.now] else []
  }

  lemma {:induction false} TokensPrefix(p: Params, ts: seq<real>, us: seq<real>, n: nat)
    requires n < |ts| <= |us| && us[..|ts|] == ts
    ensures Tokens(p, us, n) == Tokens(p, ts, n)
  {
    hide Gain;
    assert us[n] == us[..|ts|][n];
    if n > 0 {
      assert us[n - 1] == us[..|ts|][n - 1];
      TokensPrefix(p, ts, us, n - 1);
    }
  }

  /** A full bucket stays full. */
  lemma FullStaysFull(p: Params, created: real, now: real)
    requires p.rate >= 0.0 && created <= now
    ensures Refilled(p, Bucket(p.capacity, created), now) == Bucket(p.capacity, now)
  {
    GainGrows(p, 0.0, now - created);
  }

  /** Without sweeps the bucket of an address is a function of its call times. */
  lemma {:induction false} BucketIs(p: Params, es: seq<Event>, ip: Ip)
    requires InOrder(es) && p.rate >= 0.0
    ensures var ts, s := Times(es, ip), After(p, es, false);
            && (ip in s <==> ts != [])
            && (ts != [] ==> s[ip] == Spent(Bucket(Tokens(p, ts, |ts| - 1), ts[|ts| - 1])))
    decreases |es|
  {
    hide Gain;
    if es != [] {
      var pre, e := es[..|es| - 1], es[|es| - 1];
      BucketIs(p, pre, ip);
      if e.Call? && e.ip == ip {
        var us := Times(pre, ip);
        if us == [] {
          FullStaysFull(p, e.created, e.now);
        } else {
          TokensPrefix(p, us, us + [e.now], |us| - 1);
        }
      } else {
        assert Times(es, ip) == Times(pre, ip);
      }
    }
  }

  /** The flat limiter answers by the sliding-window law of each address. */
  lemma FlatAnswer(p: Params, es: seq<Event>, k: nat)
    requires InOrder(es) && p.rate >= 0.0 && k < |es| && es[k].Call?
    ensures var ts := Times(es[..k + 1], es[k].ip);
            ts != [] && (Answer(p, es, k, false) <==> Allowed(p, ts, |ts| - 1))
  {
    hide Gain;
    var pre, ip := es[..k], es[k].ip;
    var us := Times(pre, ip);
    assert es[..k + 1][..k] == pre;
    BucketIs(p, pre, ip);
    if us == [] {
      FullStaysFull(p, es[k].created, es[k].now);
    } else {
      TokensPrefix(p, us, us + [es[k].now], |us| - 1);
    }
  }
}
