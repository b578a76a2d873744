/** RoleBasedRateLimitingMiddleware: the limit comes from X-User-Role, the counter from X-User-ID. */
module RoleRateLimiting {
  import opened Wrappers
  import opened FixedWindow

  /** The `RoleLimits` dictionary. */
  const RoleLimits: map<string, Policy> := map[
    "Free" := Policy(5, OneMinute),
    "Premium" := Policy(20, OneMinute),
    "Admin" := Policy(100, OneMinute)
  ]

  class RoleBasedRateLimitingMiddleware {
    /** The static `_users` dictionary, keyed by user id alone. */
    const users: CounterStore

    constructor ()
      ensures fresh(users) && users.entries == map[]
    {
      users := new CounterStore();
    }

    /**
     * 401 without a user id and 400 for a role outside the table, both with
     * no counter touched; otherwise the role's policy is applied to the
     * user's single counter, whatever role earlier requests carried.
     */
    method Invoke(userId: string, role: string, now: int) returns (r: Response)
      modifies users
      ensures userId == [] ==> r == Unauthorized && users.entries == old(users.entries)
      ensures userId != [] && role !in RoleLimits ==> r == BadRequest && users.entries == old(users.entries)
      ensures userId != [] && role in RoleLimits ==>
        && users.entries == old(users.entries)[userId := Counted(old(users.entries), userId, RoleLimits[role].period, now)]
        && r == Respond(Verdict(RoleLimits[role], users.entries[userId]))
    {
      if userId == [] {
        return Unauthorized;
      }
      if role !in RoleLimits {
        return BadRequest;
      }
      var d := users.Hit(userId, RoleLimits[role], now);
      r := Respond(d);
    }
  }

  /**
   * The count is per user, not per role: after five Free requests the same
   * user passes as Premium (count 6 of 20) and is then refused as Free
   * (count 7 of 5). An unknown role is refused without being counted.
   */
  method RolesShareOneCounter() returns (free5: Response, premium: Response, free: Response, invalid: Response)
    ensures free5 == Forwarded(Some(Decision(true, 5, 0, 60_000)))
    ensures premium == Forwarded(Some(Decision(true, 20, 14, 60_000)))
    ensures invalid == BadRequest
    ensures free == TooManyRequests(Decision(false, 5, -2, 60_000))
  {
    var m := new RoleBasedRateLimitingMiddleware();
    var r := m.Invoke("user1", "Free", 0);
    r := m.Invoke("user1", "Free", 1);
    r := m.Invoke("user1", "Free", 2);
    r := m.Invoke("user1", "Free", 3);
    assert m.users.entries == map["user1" := ClientRequestInfo(4, 60_000)];
    free5 := m.Invoke("user1", "Free", 4);
    premium := m.Invoke("user1", "Premium", 5);
    assert m.users.entries == map["user1" := ClientRequestInfo(6, 60_000)];
    invalid := m.Invoke("user1", "InvalidRole", 6);
    free := m.Invoke("user1", "Free", 7);
  }
}
