/** UserRateLimitingMiddleware: five requests a minute per X-User-ID. */
module UserRateLimiting {
  import opened Wrappers
  import opened FixedWindow

  const Limit := 5
  const Period := OneMinute

  class UserRateLimitingMiddleware {
    /** The static `_users` dictionary, keyed by user id. */
    const users: CounterStore

    constructor ()
      ensures fresh(users) && users.entries == map[]
    {
      users := new CounterStore();
    }

    /**
     * An empty user id is refused with 401 and creates no counter; otherwise
     * the fixed-window step runs on the user's own counter and no other.
     */
    method Invoke(userId: string, now: int) returns (r: Response)
      modifies users
      ensures userId == [] ==> r == Unauthorized && users.entries == old(users.entries)
      ensures userId != [] ==>
        && users.entries == old(users.entries)[userId := Counted(old(users.entries), userId, Period, now)]
        && r == Respond(Verdict(Policy(Limit, Period), users.entries[userId]))
    {
      if userId == [] {
        return Unauthorized;
      }
      var d := users.Hit(userId, Policy(Limit, Period), now);
      r := Respond(d);
    }
  }

  /**
   * A new user's first five requests in a minute pass with remaining 4 down
   * to 0; the sixth, even at the exact end of the window, is refused with
   * remaining -1; one millisecond later the window restarts at count 1.
   */
  method FreshUserWindow() returns (rs: seq<Response>)
    ensures |rs| == 7
    ensures forall i :: 0 <= i < 5 ==> rs[i] == Forwarded(Some(Decision(true, 5, 4 - i, 60_000)))
    ensures rs[5] == TooManyRequests(Decision(false, 5, -1, 60_000))
    ensures rs[6] == Forwarded(Some(Decision(true, 5, 4, 120_001)))
  {
    var m := new UserRateLimitingMiddleware();
    var r0 := m.Invoke("user1", 0);
    var r1 := m.Invoke("user1", 1_000);
    var r2 := m.Invoke("user1", 2_000);
    var r3 := m.Invoke("user1", 3_000);
    var r4 := m.Invoke("user1", 4_000);
    var r5 := m.Invoke("user1", 60_000);
    var r6 := m.Invoke("user1", 60_001);
    rs := [r0, r1, r2, r3, r4, r5, r6];
  }

  /** Without a user id nothing is counted. */
  method MissingUserId() returns (r: Response, entries: map<string, ClientRequestInfo>)
    ensures r == Unauthorized && entries == map[]
  {
    var m := new UserRateLimitingMiddleware();
    r := m.Invoke("", 0);
    entries := m.users.entries;
  }
}
