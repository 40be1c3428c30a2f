/** Evicting idle buckets does not change a decision, and exactly when. */
module SweepTransparency {
  import opened Bytes
  import opened RateLimiter
  import opened RateLimiterLaws

  /** A bucket that is idle for longer than `max_idle` would be full again. Idle
      time counts in whole milliseconds, so it is at least one more. */
  predicate Harmless(p: Params, max_idle: nat) {
    Gain(p, max_idle as real + 0.001) >= p.capacity
  }

  ghost predicate AllHarmless(p: Params, es: seq<Event>) {
    forall i :: 0 <= i < |es| && es[i].Sweep? ==> Harmless(p, es[i].max_idle)
  }

  /** At time `t`: a bucket of the evicting limiter `s` is that of the flat
      limiter `f`, and a bucket that only `f` has would be full by now. */
  ghost predicate Related(p: Params, s: Store, f: Store, t: real) {
    && (forall ip :: ip in s ==> ip in f && s[ip] == f[ip])
    && (forall ip :: ip in f ==> 0.0 <= f[ip].tokens && f[ip].last_refill <= t)
    && (forall ip :: ip in f && ip !in s ==> f[ip].tokens + Gain(p, t - f[ip].last_refill) >= p.capacity)
  }

  lemma RelatedLater(p: Params, s: Store, f: Store, t: real, u: real)
    requires Related(p, s, f, t) && t <= u && p.rate >= 0.0
    ensures Related(p, s, f, u)
  {
    hide Gain;
    forall ip | ip in f && ip !in s
      ensures f[ip].tokens + Gain(p, u - f[ip].last_refill) >= p.capacity
    {
      GainGrows(p, t - f[ip].last_refill, u - f[ip].last_refill);
    }
  }

  /** Related limiters give the same answer and stay related. */
  lemma RelatedCall(p: Params, s: Store, f: Store, ip: Ip, created: real, now: real)
    requires Related(p, s, f, now) && created <= now && p.rate >= 0.0 && p.capacity >= 0.0
    ensures var b, c := Refilled(p, Found(p, s, ip, created), now), Refilled(p, Found(p, f, ip, created), now);
            b == c && Related(p, s[ip := Spent(b)], f[ip := Spent(c)], now)
  {
    hide Gain;
    FullStaysFull(p, created, now);
    if ip in f {
      GainGrows(p, 0.0, now - f[ip].last_refill);
    }
  }

  lemma StaleIsFull(p: Params, b: Bucket, now: real, max_idle: nat)
    requires Stale(b, now, max_idle) && Harmless(p, max_idle) && p.rate >= 0.0 && b.tokens >= 0.0
    ensures b.tokens + Gain(p, now - b.last_refill) >= p.capacity
  {
    hide Gain;
    assert (now - b.last_refill) * 1000.0 >= (max_idle * 1000 + 1) as real;
    GainGrows(p, max_idle as real + 0.001, now - b.last_refill);
  }

  lemma {:induction false} AfterRelated(p: Params, es: seq<Event>, t: real)
    requires InOrder(es) && AllHarmless(p, es) && p.rate >= 0.0 && p.capacity >= 0.0
    requires forall i :: 0 <= i < |es| ==> es[i].now <= t
    ensures Related(p, After(p, es, true), After(p, es, false), t)
    decreases |es|
  {
    hide Gain, Stale, Harmless;
    if es != [] {
      var pre, e := es[..|es| - 1], es[|es| - 1];
      var s, f := After(p, pre, true), After(p, pre, false);
      AfterRelated(p, pre, e.now);
      match e {
        case Call(ip, created, now) =>
          RelatedCall(p, s, f, ip, created, now);
        case Sweep(now, max_idle) =>
          forall ip | ip in s && Stale(s[ip], now, max_idle)
            ensures f[ip].tokens + Gain(p, now - f[ip].last_refill) >= p.capacity
          {
            StaleIsFull(p, s[ip], now, max_idle);
          }
      }
      RelatedLater(p, After(p, es, true), After(p, es, false), e.now, t);
    }
  }

  /** Sweep transparency: with harmless sweeps anywhere between the calls, every
      call gets the answer that a limiter without eviction gives. */
  lemma SweepsInvisible(p: Params, es: seq<Event>, k: nat)
    requires InOrder(es) && AllHarmless(p, es) && p.rate >= 0.0 && p.capacity >= 0.0
    requires k < |es| && es[k].Call?
    ensures Answer(p, es, k, true) == Answer(p, es, k, false)
  {
    hide Gain, After;
    AfterRelated(p, es[..k], es[k].now);
    RelatedCall(p, After(p, es[..k], true), After(p, es[..k], false), es[k].ip, es[k].created, es[k].now);
  }

  /** The limiter of the event loop, 10 requests a second with bursts of 20,
      swept at 300 seconds: every answer follows the sliding-window law. */
  const SERVER: Params := Params(10.0, 20.0)

  lemma ServerLimiter(es: seq<Event>, k: nat)
    requires InOrder(es) && forall i :: 0 <= i < |es| && es[i].Sweep? ==> es[i].max_idle == 300
    requires k < |es| && es[k].Call?
    ensures var ts := Times(es[..k + 1], es[k].ip);
            var n := |ts| - 1;
            && n >= 0
            && (Answer(SERVER, es, k, true) <==>
                forall j :: 0 <= j <= n ==> 1.0 + Count(SERVER, ts, j, n) as real <= 20.0 + 10.0 * (ts[n] - ts[j]))
  {
    SweepsInvisible(SERVER, es, k);
    FlatAnswer(SERVER, es, k);
    var ts := Times(es[..k + 1], es[k].ip);
    var n := |ts| - 1;
    AllowedExactly(SERVER, ts, n);
    assert forall j :: 0 <= j <= n ==>
        (Fits(SERVER, ts, j, n) <==> 1.0 + Count(SERVER, ts, j, n) as real <= 20.0 + 10.0 * (ts[n] - ts[j]));
  }

  // ------------------------------------------------------- the exact condition

  /** The tokens that a call at time `t` would find. */
  function TokensAt(p: Params, s: Store, ip: Ip, t: real): real {
    Refilled(p, Found(p, s, ip, t), t).tokens
  }

  ghost predicate Until(es: seq<Event>, t: real) {
    InOrder(es) && forall i :: 0 <= i < |es| ==> es[i].now <= t
  }

  /** The bucket was last touched at `t`. */
  predicate TouchedAt(s: Store, ip: Ip, t: real) {
    ip in s && s[ip].last_refill == t
  }

  lemma CallThen(p: Params, es: seq<Event>, ip: Ip, t: real, sweeping: bool)
    requires Until(es, t)
    ensures var s, s' := After(p, es, sweeping), After(p, es + [Call(ip, t, t)], sweeping);
            && TouchedAt(s', ip, t)
            && (TokensAt(p, s, ip, t) >= 1.0 ==> TokensAt(p, s', ip, t) == TokensAt(p, s, ip, t) - 1.0)
            && (Answer(p, es + [Call(ip, t, t)], |es|, sweeping) <==> TokensAt(p, s, ip, t) >= 1.0)
    ensures Until(es + [Call(ip, t, t)], t)
  {
    hide Gain;
    var fs := es + [Call(ip, t, t)];
    assert fs[..|fs| - 1] == es && fs[..|es|] == es;
    GainZero(p);
  }

  function Calls(ip: Ip, t: real, n: nat): seq<Event> {
    if n == 0 then [] else Calls(ip, t, n - 1) + [Call(ip, t, t)]
  }

  /** Calls at one moment take one token each. */
  lemma {:induction false} BurstThen(p: Params, es: seq<Event>, ip: Ip, t: real, n: nat, sweeping: bool)
    requires Until(es, t) && TokensAt(p, After(p, es, sweeping), ip, t) >= n as real
    ensures var s, s' := After(p, es, sweeping), After(p, es + Calls(ip, t, n), sweeping);
            && TokensAt(p, s', ip, t) == TokensAt(p, s, ip, t) - n as real
            && (n > 0 ==> TouchedAt(s', ip, t))
            && (n == 0 ==> s' == s)
    ensures Until(es + Calls(ip, t, n), t)
    decreases n
  {
    hide After, TokensAt;
    if n == 0 {
      assert es + Calls(ip, t, n) == es;
    } else {
      BurstThen(p, es, ip, t, n - 1, sweeping);
      CallThen(p, es + Calls(ip, t, n - 1), ip, t, sweeping);
      assert es + Calls(ip, t, n) == (es + Calls(ip, t, n - 1)) + [Call(ip, t, t)];
    }
  }

  /** Waiting adds tokens up to the capacity. */
  lemma WaitThen(p: Params, s: Store, ip: Ip, t: real, u: real)
    requires TouchedAt(s, ip, t) && t <= u && TokensAt(p, s, ip, t) <= p.capacity
    requires s[ip].tokens <= p.capacity
    ensures TokensAt(p, s, ip, u) == MinReal(p.capacity, TokensAt(p, s, ip, t) + Gain(p, u - t))
  {
    hide Gain;
    GainZero(p);
  }

  /** The time in which `x` tokens are added. */
  function TimeFor(p: Params, x: real): (d: real)
    requires p.rate > 0.0 && x >= 0.0
    ensures d >= 0.0 && Gain(p, d) == x
  {
    x / p.rate
  }

  lemma {:induction false} TokensBounded(p: Params, es: seq<Event>, ip: Ip, sweeping: bool)
    requires p.rate >= 0.0
    ensures var s := After(p, es, sweeping); ip in s ==> s[ip].tokens <= p.capacity
    decreases |es|
  {
    hide Gain;
    if es != [] {
      TokensBounded(p, es[..|es| - 1], ip, sweeping);
    }
  }

  /** An address uses up its burst and then the last token as soon as it is
      there: its bucket is exactly empty. */
  lemma EmptyBucket(p: Params, ip: Ip) returns (es: seq<Event>, t: real)
    requires p.rate > 0.0 && p.capacity >= 1.0
    ensures Until(es, t) && (forall i :: 0 <= i < |es| ==> es[i].Call?)
    ensures var s := After(p, es, false); TouchedAt(s, ip, t) && s[ip].tokens == 0.0
  {
    hide Gain, After;
    var m := p.capacity.Floor;
    assert After(p, [], false) == map[] by { AfterNothing(p); }
    FullStaysFull(p, 0.0, 0.0);
    BurstThen(p, [], ip, 0.0, m, false);
    var burst := [] + Calls(ip, 0.0, m);
    t := TimeFor(p, 1.0 - (p.capacity - m as real));
    TokensBounded(p, burst, ip, false);
    WaitThen(p, After(p, burst, false), ip, 0.0, t);
    CallThen(p, burst, ip, t, false);
    es := burst + [Call(ip, t, t)];
    GainZero(p);
    CallsAreCalls(ip, 0.0, m);
  }

  lemma AfterNothing(p: Params)
    ensures After(p, [], false) == map[]
  {
  }

  lemma {:induction false} CallsAreCalls(ip: Ip, t: real, n: nat)
    ensures forall i :: 0 <= i < |Calls(ip, t, n)| ==> Calls(ip, t, n)[i].Call?
  {
    if n > 0 {
      CallsAreCalls(ip, t, n - 1);
    }
  }

  lemma {:induction false} NoSweepsNoMatter(p: Params, es: seq<Event>)
    requires forall i :: 0 <= i < |es| ==> es[i].Call?
    ensures After(p, es, true) == After(p, es, false)
    decreases |es|
  {
    hide Gain;
    if es != [] {
      NoSweepsNoMatter(p, es[..|es| - 1]);
    }
  }

  ghost predicate OnlySweeps(es: seq<Event>, max_idle: nat) {
    forall i :: 0 <= i < |es| && es[i].Sweep? ==> es[i].max_idle == max_idle
  }

  ghost predicate Differs(p: Params, es: seq<Event>, k: nat) {
    k < |es| && es[k].Call? && Answer(p, es, k, true) != Answer(p, es, k, false)
  }

  /** A sweep that is not harmless leaves two limiters with different tokens. */
  lemma SweepApart(p: Params, max_idle: nat, ip: Ip) returns (es: seq<Event>, t: real)
    requires p.rate > 0.0 && p.capacity >= 1.0 && !Harmless(p, max_idle)
    ensures Until(es, t) && OnlySweeps(es, max_idle)
    ensures TokensAt(p, After(p, es, true), ip, t) == p.capacity
    ensures 0.0 <= TokensAt(p, After(p, es, false), ip, t) < p.capacity
    ensures ip !in After(p, es, true)
  {
    hide Gain, After;
    var calls, t0 := EmptyBucket(p, ip);
    NoSweepsNoMatter(p, calls);
    var d := max_idle as real + 0.001;
    t := t0 + d;
    es := calls + [Sweep(t, max_idle)];
    AfterSweep(p, calls, t, max_idle);
    var s := After(p, calls, false);
    assert Stale(s[ip], t, max_idle) by {
      assert (t - t0) * 1000.0 == (max_idle * 1000 + 1) as real;
    }
    GainZero(p);
    GainGrows(p, 0.0, d);
    WaitThen(p, s, ip, t0, t);
    FullStaysFull(p, t, t);
  }

  lemma AfterSweep(p: Params, es: seq<Event>, t: real, max_idle: nat)
    ensures After(p, es + [Sweep(t, max_idle)], true) == Swept(After(p, es, true), t, max_idle)
    ensures After(p, es + [Sweep(t, max_idle)], false) == After(p, es, false)
  {
    assert (es + [Sweep(t, max_idle)])[..|es|] == es;
  }

  /** Two limiters with different tokens are told apart by some calls. */
  lemma CallsTellApart(p: Params, es: seq<Event>, ip: Ip, t: real) returns (fs: seq<Event>, k: nat)
    requires p.rate > 0.0 && p.capacity >= 1.0 && Until(es, t)
    requires TokensAt(p, After(p, es, true), ip, t) == p.capacity
    requires 0.0 <= TokensAt(p, After(p, es, false), ip, t) < p.capacity
    requires ip !in After(p, es, true)
    ensures es <= fs && (forall i :: |es| <= i < |fs| ==> fs[i].Call?) && InOrder(fs) && Differs(p, fs, k)
  {
    hide Gain, After, Answer;
    var v := TokensAt(p, After(p, es, false), ip, t);
    var n := v.Floor;
    BurstThen(p, es, ip, t, n, true);
    BurstThen(p, es, ip, t, n, false);
    CallsAreCalls(ip, t, n);
    var burst := es + Calls(ip, t, n);
    var left := p.capacity - n as real;
    if left >= 1.0 {
      CallThen(p, burst, ip, t, true);
      CallThen(p, burst, ip, t, false);
      fs, k := burst + [Call(ip, t, t)], |burst|;
    } else {
      assert n > 0;
      var u := t + TimeFor(p, 1.0 - left);
      TokensBounded(p, burst, ip, true);
      TokensBounded(p, burst, ip, false);
      WaitThen(p, After(p, burst, true), ip, t, u);
      WaitThen(p, After(p, burst, false), ip, t, u);
      CallThen(p, burst, ip, u, true);
      CallThen(p, burst, ip, u, false);
      fs, k := burst + [Call(ip, u, u)], |burst|;
    }
  }

  /** Eviction is invisible in every history of calls and sweeps if and only if
      the bucket of an address that is idle long enough to be evicted has had
      the time to fill up completely. */
  lemma InvisibleExactly(p: Params, max_idle: nat)
    requires p.rate > 0.0 && p.capacity >= 1.0
    ensures Harmless(p, max_idle) <==>
            forall es: seq<Event>, k: nat :: InOrder(es) && OnlySweeps(es, max_idle) ==> !Differs(p, es, k)
  {
    hide Answer, Harmless;
    if Harmless(p, max_idle) {
      forall es: seq<Event>, k: nat | InOrder(es) && OnlySweeps(es, max_idle)
        ensures !Differs(p, es, k)
      {
        if k < |es| && es[k].Call? {
          SweepsInvisible(p, es, k);
        }
      }
    } else {
      var es, t := SweepApart(p, max_idle, "a");
      var fs, k := CallsTellApart(p, es, "a", t);
      assert OnlySweeps(fs, max_idle);
    }
  }
}
