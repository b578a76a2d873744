/**
 * The fixed-window step that five middlewares repeat on a per-key
 * `ClientRequestInfo` record kept in a static dictionary:
 *   1. create {0, now + period} when the key is absent;
 *   2. reset to {0, now + period} when now > ResetTime (strictly);
 *   3. increment the count;
 *   4. report remaining = limit - count, not clamped at zero;
 *   5. deny when count > limit.
 * Times are integer milliseconds; `now` is a parameter instead of a clock read.
 */
module FixedWindow {
  import opened Wrappers

  /** One key's counter: how many requests in the current window, and when the window ends. */
  datatype ClientRequestInfo = ClientRequestInfo(requestCount: int, resetTime: int)

  /** A limit and the window length (milliseconds) it applies to. */
  datatype Policy = Policy(limit: int, period: int)

  /** The values written to the X-RateLimit-* headers and the verdict. */
  datatype Decision = Decision(allowed: bool, limit: int, remaining: int, resetTime: int)

  /** What a middleware does with a request, in place of writing the HTTP response. */
  datatype Response =
    | Unauthorized                         // 401: no user id
    | BadRequest                           // 400: unknown role
    | NotFound                             // 404: no limit configured for the path
    | TooManyRequests(decision: Decision)  // 429, with the rate-limit headers
    | Forwarded(headers: Option<Decision>) // handed to the next middleware

  /** The minute every middleware of the source uses as its window, in milliseconds. */
  const OneMinute := 60_000

  /** The key's record after steps 1 to 3. */
  function Counted(entries: map<string, ClientRequestInfo>, key: string, period: int, now: int): (info: ClientRequestInfo)
    ensures key in entries && now <= entries[key].resetTime ==>
      info == ClientRequestInfo(entries[key].requestCount + 1, entries[key].resetTime)
    ensures key !in entries || now > entries[key].resetTime ==>
      info == ClientRequestInfo(1, now + period)
  {
    var found := if key in entries then entries[key] else ClientRequestInfo(0, now + period);
    var current := if now > found.resetTime then ClientRequestInfo(0, now + period) else found;
    current.(requestCount := current.requestCount + 1)
  }

  /** Steps 4 and 5 on the counted record: admitted exactly while remaining has not gone negative. */
  function Verdict(policy: Policy, info: ClientRequestInfo): (d: Decision)
    ensures d.allowed <==> d.remaining >= 0
    ensures d.allowed <==> info.requestCount <= policy.limit
    ensures d.limit == policy.limit && d.resetTime == info.resetTime
    ensures d.remaining == policy.limit - info.requestCount
  {
    Decision(info.requestCount <= policy.limit, policy.limit, policy.limit - info.requestCount, info.resetTime)
  }

  /** A denied request is answered with 429; an admitted one goes on with its headers set. */
  function Respond(d: Decision): (r: Response)
    ensures r.TooManyRequests? <==> !d.allowed
    ensures r == TooManyRequests(d) || r == Forwarded(Some(d))
  {
    if d.allowed then Forwarded(Some(d)) else TooManyRequests(d)
  }

  /** `$"{userId}:{selector}"`, the key of the per-endpoint and wildcard counters. */
  function CompositeKey(userId: string, selector: string): string {
    userId + ":" + selector
  }

  /** The separator is the last ':' of a composite key whose selector has none. */
  lemma LastColonSeparates(userId: string, selector: string)
    requires ':' !in selector
    ensures CompositeKey(userId, selector)[|userId|] == ':'
    ensures forall j :: |userId| < j < |CompositeKey(userId, selector)| ==> CompositeKey(userId, selector)[j] != ':'
  {
  }

  /**
   * Two composite keys are equal exactly when both their parts are, provided
   * the selectors hold no ':' (user ids may): distinct user and selector
   * pairs never share a counter.
   */
  lemma CompositeKeyInjective(u1: string, s1: string, u2: string, s2: string)
    requires ':' !in s1 && ':' !in s2
    ensures CompositeKey(u1, s1) == CompositeKey(u2, s2) <==> u1 == u2 && s1 == s2
  {
    var k1, k2 := CompositeKey(u1, s1), CompositeKey(u2, s2);
    if k1 == k2 {
      LastColonSeparates(u1, s1);
      LastColonSeparates(u2, s2);
      assert |u1| == |u2|;
      assert u1 == k1[..|u1|] && u2 == k2[..|u2|];
      assert s1 == k1[|u1| + 1..] && s2 == k2[|u2| + 1..];
    }
  }

  /** The static dictionary of one middleware, with the step as its one mutator. */
  class CounterStore {
    var entries: map<string, ClientRequestInfo>

    constructor ()
      ensures entries == map[]
    {
      entries := map[];
    }

    /** Steps 1 to 5 for `key`; no other key's record changes. */
    method Hit(key: string, policy: Policy, now: int) returns (d: Decision)
      modifies this
      ensures entries == old(entries)[key := Counted(old(entries), key, policy.period, now)]
      ensures d == Verdict(policy, entries[key])
    {
      if key !in entries {
        entries := entries[key := ClientRequestInfo(0, now + policy.period)];
      }
      var info := entries[key];
      if now > info.resetTime {
        info := info.(requestCount := 0, resetTime := now + policy.period);
      }
      info := info.(requestCount := info.requestCount + 1);
      entries := entries[key := info];
      d := Decision(info.requestCount <= policy.limit, policy.limit, policy.limit - info.requestCount, info.resetTime);
    }
  }

  /** The decisions of successive requests on one key at the given times. */
  function Replay(entries: map<string, ClientRequestInfo>, key: string, policy: Policy, times: seq<int>): (ds: seq<Decision>)
    ensures |ds| == |times|
    decreases |times|
  {
    if times == [] then []
    else
      var info := Counted(entries, key, policy.period, times[0]);
      [Verdict(policy, info)] + Replay(entries[key := info], key, policy, times[1..])
  }

  /**
   * While no request comes after the window's end, the i-th request counts
   * i + 1 on top of the record's count, denied ones included, and the window
   * end does not move.
   */
  lemma {:induction false} WithinWindow(entries: map<string, ClientRequestInfo>, key: string, policy: Policy,
                                        times: seq<int>, count: int, resetTime: int)
    requires key in entries && entries[key] == ClientRequestInfo(count, resetTime)
    requires forall i :: 0 <= i < |times| ==> times[i] <= resetTime
    ensures forall i :: 0 <= i < |times| ==>
      Replay(entries, key, policy, times)[i] == Verdict(policy, ClientRequestInfo(count + i + 1, resetTime))
    decreases |times|
  {
    if times != [] {
      var next := entries[key := ClientRequestInfo(count + 1, resetTime)];
      WithinWindow(next, key, policy, times[1..], count + 1, resetTime);
      var ds := Replay(entries, key, policy, times);
      assert ds[1..] == Replay(next, key, policy, times[1..]);
      forall i | 1 <= i < |times|
        ensures ds[i] == Verdict(policy, ClientRequestInfo(count + i + 1, resetTime))
      {
        assert ds[i] == ds[1..][i - 1];
      }
    }
  }

  /**
   * For a key never seen before, requests that all fall within the window
   * opened by the first one are admitted exactly while their number is at
   * most the limit; remaining counts down by one per request and goes
   * negative once the limit is passed.
   */
  lemma FreshKeyWindow(entries: map<string, ClientRequestInfo>, key: string, policy: Policy, times: seq<int>)
    requires key !in entries && |times| > 0
    requires forall i :: 0 <= i < |times| ==> times[i] <= times[0] + policy.period
    ensures forall i :: 0 <= i < |times| ==>
      && (Replay(entries, key, policy, times)[i].allowed <==> i < policy.limit)
      && Replay(entries, key, policy, times)[i].remaining == policy.limit - (i + 1)
      && Replay(entries, key, policy, times)[i].resetTime == times[0] + policy.period
  {
    var resetTime := times[0] + policy.period;
    var next := entries[key := ClientRequestInfo(1, resetTime)];
    WithinWindow(next, key, policy, times[1..], 1, resetTime);
    var ds := Replay(entries, key, policy, times);
    assert ds[1..] == Replay(next, key, policy, times[1..]);
    forall i | 1 <= i < |times|
      ensures ds[i] == Verdict(policy, ClientRequestInfo(i + 1, resetTime))
    {
      assert ds[i] == ds[1..][i - 1];
    }
  }

  /**
   * A request after the window's end (strictly) starts a new window: the
   * count is back to 1 and the window ends one period after `now`, whatever
   * the count was.
   */
  lemma ExpiredWindowRestarts(entries: map<string, ClientRequestInfo>, key: string, policy: Policy, now: int)
    requires key in entries && now > entries[key].resetTime
    ensures Replay(entries, key, policy, [now]) == [Verdict(policy, ClientRequestInfo(1, now + policy.period))]
    ensures policy.limit >= 1 ==> Replay(entries, key, policy, [now])[0].allowed
  {
  }
}
