/** The token-bucket rate limiter. Time is a real number of seconds. */
module RateLimiter {
  import opened Bytes

  type Ip = Buffer

  datatype Params = Params(rate: real, capacity: real)

  datatype Bucket = Bucket(tokens: real, last_refill: real)

  /** All buckets, whatever shard they are in. */
  type Store = map<Ip, Bucket>

  function MinReal(a: real, b: real): real {
    if a <= b then a else b
  }

  /** The tokens that an interval of time adds. */
  function Gain(p: Params, elapsed: real): real {
    p.rate * elapsed
  }

  function Refilled(p: Params, b: Bucket, now: real): Bucket {
    Bucket(MinReal(p.capacity, b.tokens + Gain(p, now - b.last_refill)), now)
  }

  /** The bucket of an address when a call finds it: a new one is full. */
  function Found(p: Params, s: Store, ip: Ip, created: real): Bucket {
    if ip in s then s[ip] else Bucket(p.capacity, created)
  }

  predicate Allows(b: Bucket) {
    b.tokens >= 1.0
  }

  function Spent(b: Bucket): Bucket {
    if Allows(b) then b.(tokens := b.tokens - 1.0) else b
  }

  /** Idle time is compared in whole milliseconds. */
  predicate Stale(b: Bucket, now: real, max_idle: nat) {
    ((now - b.last_refill) * 1000.0).Floor > max_idle * 1000
  }

  function Swept(s: Store, now: real, max_idle: nat): Store {
    map ip | ip in s && !Stale(s[ip], now, max_idle) :: s[ip]
  }

  const NUM_SHARDS: nat := 16

  class RateLimiter {
    const p: Params
    const hash: Ip -> nat
    const shards: array<map<Ip, Bucket>>

    constructor (rate: real, capacity: real, hash: Ip -> nat)
      ensures Valid() && fresh(shards) && p == Params(rate, capacity) && Buckets() == map[]
    {
      p := Params(rate, capacity);
      this.hash := hash;
      shards := new map<Ip, Bucket>[NUM_SHARDS](_ => map[]);
    }

    function ShardFor(ip: Ip): (i: nat)
      ensures i < NUM_SHARDS
    {
      hash(ip) % NUM_SHARDS
    }

    /** Every bucket is in the shard of its address. */
    ghost predicate Valid()
      reads shards
    {
      && shards.Length == NUM_SHARDS
      && forall i, ip :: 0 <= i < NUM_SHARDS && ip in shards[i] ==> ShardFor(ip) == i
    }

    /** The shards seen as one map. */
    ghost function Buckets(): (s: Store)
      requires Valid()
      reads shards
      ensures forall ip :: ip in s <==> ip in shards[ShardFor(ip)]
      ensures forall ip :: ip in s ==> s[ip] == shards[ShardFor(ip)][ip]
    {
      var keys := set i, ip | 0 <= i < NUM_SHARDS && ip in shards[i].Keys :: ip;
      map ip | ip in keys :: shards[ShardFor(ip)][ip]
    }

    /** Stores a bucket in the shard of its address. */
    method Put(ip: Ip, bucket: Bucket)
      requires Valid()
      modifies shards
      ensures Valid() && Buckets() == old(Buckets())[ip := bucket]
    {
      var i := ShardFor(ip);
      shards[i] := shards[i][ip := bucket];
    }

    /** Step 1 of `allow`, under the shard's mutex. */
    method FindOrCreate(ip: Ip, created: real) returns (bucket: Bucket)
      requires Valid()
      modifies shards
      ensures Valid() && bucket == Found(p, old(Buckets()), ip, created)
      ensures Buckets() == old(Buckets())[ip := bucket]
    {
      var shard_idx := ShardFor(ip);
      if ip !in shards[shard_idx] {
        bucket := Bucket(p.capacity, created);
        Put(ip, bucket);
      } else {
        bucket := shards[shard_idx][ip];
        assert Buckets()[ip := bucket] == Buckets();
      }
    }

    /** Step 2 of `allow`, under the bucket's mutex: refill, and take one token
        if there is one. */
    method Consume(found: Bucket, now: real) returns (bucket: Bucket, ok: bool)
      ensures ok == Allows(Refilled(p, found, now)) && bucket == Spent(Refilled(p, found, now))
    {
      var time_elapsed := now - found.last_refill;
      bucket := Bucket(MinReal(p.capacity, found.tokens + Gain(p, time_elapsed)), now);
      ok := bucket.tokens >= 1.0;
      if ok {
        bucket := bucket.(tokens := bucket.tokens - 1.0);
      }
    }

    /** The clock is read once for a new bucket and once for the refill. */
    method Allow(ip: Ip, created: real, now: real) returns (ok: bool)
      requires Valid()
      modifies shards
      ensures Valid()
      ensures ok == Allows(Refilled(p, Found(p, old(Buckets()), ip, created), now))
      ensures Buckets() == old(Buckets())[ip := Spent(Refilled(p, Found(p, old(Buckets()), ip, created), now))]
    {
      hide Found, Refilled, Allows, Spent, Buckets, Valid, ShardFor;
      ghost var before := Buckets();
      var found := FindOrCreate(ip, created);
      var bucket;
      bucket, ok := Consume(found, now);
      Put(ip, bucket);
      assert before[ip := found][ip := bucket] == before[ip := bucket];
    }

    /** Erase while iterating, shard by shard. */
    method SweepStale(now: real, max_idle: nat)
      requires Valid()
      modifies shards
      ensures Valid() && Buckets() == Swept(old(Buckets()), now, max_idle)
    {
      for i := 0 to NUM_SHARDS
        invariant shards.Length == NUM_SHARDS
        invariant forall j :: 0 <= j < i ==> shards[j] == Swept(old(shards[j]), now, max_idle)
        invariant forall j :: i <= j < NUM_SHARDS ==> shards[j] == old(shards[j])
      {
        SweepShard(i, now, max_idle);
      }
    }

    method SweepShard(i: nat, now: real, max_idle: nat)
      requires shards.Length == NUM_SHARDS && i < NUM_SHARDS
      modifies shards
      ensures shards[i] == Swept(old(shards[i]), now, max_idle)
      ensures forall j :: 0 <= j < NUM_SHARDS && j != i ==> shards[j] == old(shards[j])
    {
      ghost var whole := shards[i];
      var todo := shards[i].Keys;
      while todo != {}
        invariant todo <= whole.Keys
        invariant shards[i] == map ip | ip in whole && (ip in todo || !Stale(whole[ip], now, max_idle)) :: whole[ip]
        invariant forall j :: 0 <= j < NUM_SHARDS && j != i ==> shards[j] == old(shards[j])
      {
        var ip :| ip in todo;
        if Stale(shards[i][ip], now, max_idle) {
          shards[i] := shards[i] - {ip};
        }
        todo := todo - {ip};
      }
    }
  }
}
