/**
 * TokenBucketRateLimiter: per-client buckets of whole tokens, refilled by the
 * whole seconds elapsed since the last refill, capped at MaxTokens; a request
 * takes one token, and the bucket is written back only when it is admitted.
 * Time is an injected count of milliseconds.
 */
module TokenBucket {

  const MaxTokens := 10
  /** Tokens per second. */
  const RefillRate := 1
  const MillisPerSecond := 1000

  /** The `(Tokens, LastRefill)` tuple stored per client key. */
  datatype Bucket = Bucket(tokens: int, lastRefill: int)

  /**
   * C#'s `(int)` cast of a number of milliseconds converted to seconds:
   * truncation toward zero, also for a negative (backward) interval.
   */
  function TruncatedSeconds(ms: int): (q: int)
    ensures ms >= 0 ==> 0 <= q && q * MillisPerSecond <= ms < q * MillisPerSecond + MillisPerSecond
    ensures ms < 0 ==> q <= 0 && q * MillisPerSecond - MillisPerSecond < ms <= q * MillisPerSecond
  {
    if ms >= 0 then ms / MillisPerSecond else -((-ms) / MillisPerSecond)
  }

  function Min(a: int, b: int): int {
    if a <= b then a else b
  }

  /** `(int)(elapsedSeconds * RefillRate)`: never negative on a forward clock, never positive on a backward one. */
  function TokensToAdd(b: Bucket, now: int): (n: int)
    ensures now >= b.lastRefill ==> n >= 0
    ensures now <= b.lastRefill ==> n <= 0
  {
    TruncatedSeconds((now - b.lastRefill) * RefillRate)
  }

  /** The bucket after the refill step: topped up, capped, and stamped with `now`. */
  function Refill(b: Bucket, now: int): (r: Bucket)
    ensures r.tokens <= MaxTokens && r.lastRefill == now
    ensures now >= b.lastRefill && b.tokens <= MaxTokens ==> b.tokens <= r.tokens
    ensures now >= b.lastRefill ==> r.tokens == Min(MaxTokens, b.tokens + (now - b.lastRefill) / MillisPerSecond)
  {
    Bucket(Min(MaxTokens, b.tokens + TokensToAdd(b, now)), now)
  }

  /** `TryGetValue`, or a full bucket refilled at `now` for a key not seen before. */
  function Stored(buckets: map<string, Bucket>, key: string, now: int): Bucket {
    if key in buckets then buckets[key] else Bucket(MaxTokens, now)
  }

  /**
   * One call of AllowRequest on the dictionary: whether the request is
   * admitted, and the dictionary afterwards. Only an admitted request writes
   * its key, with the refilled count less one; a refused one writes nothing.
   */
  function Admit(buckets: map<string, Bucket>, key: string, now: int): (res: (bool, map<string, Bucket>))
    ensures res.0 <==> Refill(Stored(buckets, key, now), now).tokens > 0
    ensures res.0 ==> res.1 == buckets[key := Bucket(Refill(Stored(buckets, key, now), now).tokens - 1, now)]
    ensures !res.0 ==> res.1 == buckets
    ensures forall k :: k != key ==> (k in res.1 <==> k in buckets)
    ensures forall k :: k != key && k in buckets ==> res.1[k] == buckets[k]
  {
    var b := Refill(Stored(buckets, key, now), now);
    if b.tokens > 0 then (true, buckets[key := b.(tokens := b.tokens - 1)]) else (false, buckets)
  }

  class TokenBucketRateLimiter {
    /** The static `_buckets` dictionary. */
    var buckets: map<string, Bucket>

    constructor ()
      ensures buckets == map[]
    {
      buckets := map[];
    }

    /** Refill, then take one token if there is one; the bucket is stored only on success. */
    method AllowRequest(clientKey: string, now: int) returns (allowed: bool)
      modifies this
      ensures (allowed, buckets) == Admit(old(buckets), clientKey, now)
    {
      var bucket: Bucket;
      if clientKey in buckets {
        bucket := buckets[clientKey];
      } else {
        bucket := Bucket(MaxTokens, now);
      }
      var elapsed := now - bucket.lastRefill;
      var tokensToAdd := TruncatedSeconds(elapsed * RefillRate);
      bucket := bucket.(tokens := Min(MaxTokens, bucket.tokens + tokensToAdd));
      bucket := bucket.(lastRefill := now);
      if bucket.tokens > 0 {
        bucket := bucket.(tokens := bucket.tokens - 1);
        buckets := buckets[clientKey := bucket];
        return true;
      }
      return false;
    }
  }

  /** A key not seen before is admitted and stored with MaxTokens - 1 tokens. */
  lemma FreshKeyAllowed(buckets: map<string, Bucket>, key: string, now: int)
    requires key !in buckets
    ensures Admit(buckets, key, now).0
    ensures Admit(buckets, key, now).1 == buckets[key := Bucket(MaxTokens - 1, now)]
  {
  }

  /** Without a backward clock the refill credits exactly the whole seconds elapsed. */
  lemma RefillWholeSeconds(b: Bucket, now: int)
    requires now >= b.lastRefill
    ensures TokensToAdd(b, now) == (now - b.lastRefill) / MillisPerSecond
    ensures TokensToAdd(b, now) * MillisPerSecond <= now - b.lastRefill < (TokensToAdd(b, now) + 1) * MillisPerSecond
  {
  }

  /** After ten idle seconds a bucket that was not overdrawn is full: exactly MaxTokens, not more. */
  lemma LongIdleFillsToMax(b: Bucket, now: int)
    requires b.tokens >= 0 && now - b.lastRefill >= MaxTokens * MillisPerSecond
    ensures Refill(b, now).tokens == MaxTokens
  {
  }

  /** Every stored bucket holds between 0 and MaxTokens tokens and was refilled no later than `now`. */
  ghost predicate WellFormed(buckets: map<string, Bucket>, now: int) {
    forall k :: k in buckets ==> 0 <= buckets[k].tokens <= MaxTokens && buckets[k].lastRefill <= now
  }

  /** A call keeps the stored buckets within [0, MaxTokens] as long as the clock does not run backward. */
  lemma BoundsPreserved(buckets: map<string, Bucket>, key: string, now: int, later: int)
    requires WellFormed(buckets, now) && now <= later
    ensures WellFormed(Admit(buckets, key, now).1, later)
  {
  }

  /** A bucket with a token left after the refill admits; only an empty one refuses. */
  lemma AllowedWhileTokensLeft(buckets: map<string, Bucket>, key: string, now: int)
    requires WellFormed(buckets, now)
    requires key in buckets ==> buckets[key].tokens > 0
    ensures Admit(buckets, key, now).0
  {
  }

  /** The verdicts for a sequence of requests from one key, each applied to the state the previous one left. */
  function Replay(buckets: map<string, Bucket>, key: string, times: seq<int>): (verdicts: seq<bool>)
    ensures |verdicts| == |times|
    decreases times
  {
    if times == [] then []
    else
      var step := Admit(buckets, key, times[0]);
      [step.0] + Replay(step.1, key, times[1..])
  }

  /**
   * Requests arriving at the same instant as the last refill are admitted
   * exactly while tokens remain: the first `tokens` of them, then none.
   */
  lemma {:induction false} SameInstantBurst(buckets: map<string, Bucket>, key: string, t: int, times: seq<int>)
    requires key in buckets && buckets[key].lastRefill == t && 0 <= buckets[key].tokens <= MaxTokens
    requires forall i :: 0 <= i < |times| ==> times[i] == t
    ensures forall i :: 0 <= i < |times| ==> (Replay(buckets, key, times)[i] <==> i < buckets[key].tokens)
    decreases times
  {
    if times != [] {
      var step := Admit(buckets, key, t);
      var k := buckets[key].tokens;
      assert Refill(buckets[key], t).tokens == k;
      if k > 0 {
        assert step.1[key] == Bucket(k - 1, t);
      } else {
        assert step.1 == buckets;
      }
      SameInstantBurst(step.1, key, t, times[1..]);
      var rs := Replay(buckets, key, times);
      assert rs == [step.0] + Replay(step.1, key, times[1..]);
      forall i | 0 <= i < |times|
        ensures rs[i] <==> i < k
      {
        if i > 0 {
          assert rs[i] == Replay(step.1, key, times[1..])[i - 1];
        }
      }
    }
  }

  /** A new client's burst at one instant: the first MaxTokens requests are admitted, the rest refused. */
  lemma FreshClientBurst(buckets: map<string, Bucket>, key: string, times: seq<int>)
    requires key !in buckets && |times| > 0
    requires forall i :: 0 <= i < |times| ==> times[i] == times[0]
    ensures forall i :: 0 <= i < |times| ==> (Replay(buckets, key, times)[i] <==> i < MaxTokens)
  {
    var step := Admit(buckets, key, times[0]);
    FreshKeyAllowed(buckets, key, times[0]);
    SameInstantBurst(step.1, key, times[0], times[1..]);
    var rs := Replay(buckets, key, times);
    assert rs == [true] + Replay(step.1, key, times[1..]);
    forall i | 0 <= i < |times|
      ensures rs[i] <==> i < MaxTokens
    {
      if i > 0 {
        assert rs[i] == Replay(step.1, key, times[1..])[i - 1];
      }
    }
  }

  /**
   * Fractional progress is lost when a request is admitted: from an empty
   * bucket refilled at 0 ms, the request at 1500 ms is admitted with the one
   * whole second credited and restamps the bucket, so the request at
   * 2400 ms is refused although 2.4 seconds have passed.
   */
  lemma FractionDiscarded(key: string)
    ensures var first := Admit(map[key := Bucket(0, 0)], key, 1500);
      && first.0
      && first.1 == map[key := Bucket(0, 1500)]
      && !Admit(first.1, key, 2400).0
  {
  }

  /** A refused request stores nothing, so its elapsed time still counts towards the next refill. */
  lemma RefusalKeepsProgress(key: string)
    ensures !Admit(map[key := Bucket(0, 0)], key, 900).0
    ensures Admit(map[key := Bucket(0, 0)], key, 900).1 == map[key := Bucket(0, 0)]
    ensures Admit(map[key := Bucket(0, 0)], key, 1800).0
  {
  }
}
