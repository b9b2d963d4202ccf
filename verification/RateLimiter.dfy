/** The limiter's objects (internal/middleware/middleware.go): the buckets are updated in place, inserted
  by requests and deleted by sweeps. */
module RateLimiters {
  import opened RateLimiting

  class TokenBucket {
    var tokens: real
    var last: real
    const capacity: real
    const refillPS: real

    constructor (tokens: real, capacity: real, refillPS: real, last: real)
      ensures this.tokens == tokens && this.last == last && this.capacity == capacity && this.refillPS == refillPS
    {
      this.tokens, this.last, this.capacity, this.refillPS := tokens, last, capacity, refillPS;
    }

    ghost function Value(): Bucket
      reads this
    {
      Bucket(tokens, last)
    }

    method Allow(now: real) returns (ok: bool)
      modifies this
      ensures ok <==> Refilled(capacity, refillPS, old(Value()), now) >= 1.0
      ensures Value() == Spent(capacity, refillPS, old(Value()), now)
    {
      var elapsed := now - last;
      last := now;
      tokens := tokens + elapsed * refillPS;
      if tokens > capacity {
        tokens := capacity;
      }
      if tokens < 1.0 {
        return false;
      }
      tokens := tokens - 1.0;
      return true;
    }

    method Idle(now: real, maxIdle: real) returns (idle: bool)
      ensures idle <==> now - last > maxIdle
    {
      return now - last > maxIdle;
    }
  }

  class RateLimiter {
    var buckets: map<string, TokenBucket>
    const rps: real
    const burst: real

    ghost predicate Valid()
      reads this, buckets.Values
    {
      && burst == rps
      && (forall k :: k in buckets ==> buckets[k].capacity == burst && buckets[k].refillPS == rps)
      && (forall k, l :: k in buckets && l in buckets && k != l ==> buckets[k] != buckets[l])
    }

    /** The buckets' values, by client. */
    ghost function View(): Buckets
      reads this, buckets.Values
    {
      map k | k in buckets :: buckets[k].Value()
    }

    constructor (rps: int)
      ensures Valid() && View() == START.buckets && this.rps == rps as real
    {
      buckets := map[];
      this.rps := rps as real;
      burst := rps as real;
    }

    /** The first critical section of a request: the client's bucket, made if there is none. */
    method Lookup(key: string, created: real) returns (b: TokenBucket)
      requires Valid()
      modifies this
      ensures Valid() && buckets == old(buckets)[key := b]
      ensures if key in old(buckets) then b == old(buckets[key]) else fresh(b)
      ensures b.capacity == rps && b.refillPS == rps && b.Value() == old(BucketFor(rps, View(), key, created))
    {
      if key in buckets {
        b := buckets[key];
      } else {
        b := new TokenBucket(burst, burst, rps, created);
        buckets := buckets[key := b];
      }
    }

    /** One request, taken as one step. */
    method Handle(key: string, created: real, now: real) returns (admitted: bool)
      requires Valid()
      modifies this, buckets.Values
      ensures Valid() && fresh(buckets.Values - old(buckets.Values))
      ensures admitted == old(Admits(rps, View(), Request(key, created, now)))
      ensures View() == old(Charged(rps, View(), Request(key, created, now)))
    {
      hide Refilled, Spent;
      ghost var before := View();
      var b := Lookup(key, created);
      admitted := b.Allow(now);
      assert View() == before[key := Spent(rps, rps, BucketFor(rps, before, key, created), now)];
    }

    method Sweep(tick: real)
      requires Valid()
      modifies this
      ensures Valid() && buckets.Values <= old(buckets.Values)
      ensures View() == old(Swept(View(), tick))
      ensures forall k :: k in buckets <==> k in old(buckets) && old(tick - buckets[k].last <= 600.0)
      ensures forall k :: k in buckets ==> buckets[k] == old(buckets[k])
    {
      var left := buckets.Keys;
      ghost var before := buckets;
      while left != {}
        invariant buckets.Keys <= before.Keys && left <= buckets.Keys
        invariant forall k :: k in buckets ==> buckets[k] == before[k]
        invariant forall k :: k in before ==> (k in buckets <==> k in left || !(tick - before[k].last > MAX_IDLE))
        decreases left
      {
        var key :| key in left;
        var idle := buckets[key].Idle(tick, MAX_IDLE);
        if idle {
          buckets := buckets - {key};
        }
        left := left - {key};
      }
    }
  }
}
