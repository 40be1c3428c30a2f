/** Counting the threads that are at some point of their program. */
module Counting {

  function Count<T>(s: seq<T>, p: T -> bool): (n: nat)
    ensures n <= |s|
  {
    if s == [] then 0 else Count(s[..|s| - 1], p) + if p(s[|s| - 1]) then 1 else 0
  }

  function One(b: bool): nat {
    if b then 1 else 0
  }

  lemma {:induction false} CountUpdate<T>(s: seq<T>, i: nat, x: T, p: T -> bool)
    requires i < |s|
    ensures Count(s[i := x], p) + One(p(s[i])) == Count(s, p) + One(p(x))
    decreases |s|
  {
    var n := |s| - 1;
    if i == n {
      assert s[i := x][..n] == s[..n];
    } else {
      assert s[i := x][..n] == s[..n][i := x];
      CountUpdate(s[..n], i, x, p);
    }
  }

  lemma {:induction false} CountPositive<T>(s: seq<T>, p: T -> bool)
    ensures Count(s, p) > 0 <==> exists i :: 0 <= i < |s| && p(s[i])
    decreases |s|
  {
    if s != [] {
      var n := |s| - 1;
      CountPositive(s[..n], p);
      assert forall i :: 0 <= i < n ==> s[..n][i] == s[i];
      if p(s[n]) {
      } else if exists i :: 0 <= i < |s| && p(s[i]) {
        var i :| 0 <= i < |s| && p(s[i]);
        assert p(s[..n][i]);
      }
    }
  }

  lemma {:induction false} CountNotAll<T>(s: seq<T>, i: nat, p: T -> bool)
    requires i < |s| && !p(s[i])
    ensures Count(s, p) < |s|
    decreases |s|
  {
    if i < |s| - 1 {
      CountNotAll(s[..|s| - 1], i, p);
    }
  }

  lemma {:induction false} CountAll<T>(s: seq<T>, p: T -> bool)
    requires forall i :: 0 <= i < |s| ==> p(s[i])
    ensures Count(s, p) == |s|
    decreases |s|
  {
    if s != [] {
      CountAll(s[..|s| - 1], p);
    }
  }

  /** Counts agree on sequences that agree on the predicate. */
  lemma {:induction false} CountSame<T>(s: seq<T>, u: seq<T>, p: T -> bool)
    requires |s| == |u| && forall i :: 0 <= i < |s| ==> p(s[i]) == p(u[i])
    ensures Count(s, p) == Count(u, p)
    decreases |s|
  {
    if s != [] {
      CountSame(s[..|s| - 1], u[..|u| - 1], p);
    }
  }

  lemma {:induction false} CountLess<T>(s: seq<T>, p: T -> bool, q: T -> bool)
    requires forall i :: 0 <= i < |s| && p(s[i]) ==> q(s[i])
    ensures Count(s, p) <= Count(s, q)
    decreases |s|
  {
    if s != [] {
      CountLess(s[..|s| - 1], p, q);
    }
  }

  lemma {:induction false} CountPrefix<T>(s: seq<T>, k: nat, p: T -> bool)
    requires k <= |s|
    ensures Count(s[..k], p) <= Count(s, p)
    decreases |s|
  {
    if k == |s| {
      assert s[..k] == s;
    } else {
      assert s[..|s| - 1][..k] == s[..k];
      CountPrefix(s[..|s| - 1], k, p);
    }
  }

  lemma CountAppend<T>(s: seq<T>, x: T, p: T -> bool)
    ensures Count(s + [x], p) == Count(s, p) + One(p(x))
  {
    assert (s + [x])[..|s|] == s;
  }

  /** What does not occur after the first `k` elements is counted in them. */
  lemma {:induction false} CountFirst<T>(s: seq<T>, k: nat, p: T -> bool)
    requires k <= |s| && forall i :: k <= i < |s| ==> !p(s[i])
    ensures Count(s, p) == Count(s[..k], p)
    decreases |s|
  {
    if k == |s| {
      assert s[..k] == s;
    } else {
      CountFirst(s[..|s| - 1], k, p);
      assert s[..|s| - 1][..k] == s[..k];
    }
  }

  lemma {:induction false} CountConcat<T>(a: seq<T>, b: seq<T>, p: T -> bool)
    ensures Count(a + b, p) == Count(a, p) + Count(b, p)
    decreases |b|
  {
    if b == [] {
      assert a + b == a;
    } else {
      assert (a + b)[..|a + b| - 1] == a + b[..|b| - 1];
      CountConcat(a, b[..|b| - 1], p);
    }
  }
}
