/** PerEndpointRateLimitingMiddleware: one counter per user and exact request path. */
module PerEndpointRateLimiting {
  import opened Wrappers
  import opened FixedWindow

  /** The `EndpointLimits` dictionary, looked up by exact path. */
  const EndpointLimits: map<string, Policy> := map[
    "/api/test" := Policy(5, OneMinute),
    "/api/critical" := Policy(2, OneMinute),
    "/api/general" := Policy(10, OneMinute)
  ]

  class PerEndpointRateLimitingMiddleware {
    /** The static `_users` dictionary, keyed `userId:endpoint`. */
    const users: CounterStore

    constructor ()
      ensures fresh(users) && users.entries == map[]
    {
      users := new CounterStore();
    }

    /**
     * 401 without a user id and 404 for a path that is not literally in the
     * table, both with no counter created; otherwise the step runs on the
     * `userId:endpoint` counter and no other.
     */
    method Invoke(userId: string, endpoint: string, now: int) returns (r: Response)
      modifies users
      ensures userId == [] ==> r == Unauthorized && users.entries == old(users.entries)
      ensures userId != [] && endpoint !in EndpointLimits ==> r == NotFound && users.entries == old(users.entries)
      ensures userId != [] && endpoint in EndpointLimits ==>
        var key := CompositeKey(userId, endpoint);
        && users.entries == old(users.entries)[key := Counted(old(users.entries), key, EndpointLimits[endpoint].period, now)]
        && r == Respond(Verdict(EndpointLimits[endpoint], users.entries[key]))
    {
      if userId == [] {
        return Unauthorized;
      }
      if endpoint !in EndpointLimits {
        return NotFound;
      }
      var policy := EndpointLimits[endpoint];
      var key := CompositeKey(userId, endpoint);
      var d := users.Hit(key, policy, now);
      r := Respond(d);
    }
  }

  /**
   * Counters of different (user, endpoint) pairs are different dictionary
   * entries, even for user ids containing ':', because no configured
   * endpoint contains one.
   */
  lemma CountersIndependent(u1: string, e1: string, u2: string, e2: string)
    requires e1 in EndpointLimits && e2 in EndpointLimits
    requires u1 != u2 || e1 != e2
    ensures CompositeKey(u1, e1) != CompositeKey(u2, e2)
  {
    CompositeKeyInjective(u1, e1, u2, e2);
  }

  /**
   * `/api/critical` allows two requests a minute: at 0 s, 10 s and 20 s the
   * answers are pass (remaining 1), pass (remaining 0) and 429 (remaining -1).
   * Another user's counter and a longer path are unaffected.
   */
  method CriticalEndpointWindow() returns (r1: Response, r2: Response, r3: Response, other: Response, longer: Response)
    ensures r1 == Forwarded(Some(Decision(true, 2, 1, 60_000)))
    ensures r2 == Forwarded(Some(Decision(true, 2, 0, 60_000)))
    ensures r3 == TooManyRequests(Decision(false, 2, -1, 60_000))
    ensures other == Forwarded(Some(Decision(true, 2, 1, 80_000)))
    ensures longer == NotFound
  {
    var m := new PerEndpointRateLimitingMiddleware();
    r1 := m.Invoke("user1", "/api/critical", 0);
    r2 := m.Invoke("user1", "/api/critical", 10_000);
    other := m.Invoke("user2", "/api/critical", 20_000);
    CountersIndependent("user1", "/api/critical", "user2", "/api/critical");
    r3 := m.Invoke("user1", "/api/critical", 20_000);
    longer := m.Invoke("user1", "/api/critical/extra", 20_000);
  }
}
