/** RateLimitingMiddleware: five requests a minute per client IP address. */
module IpRateLimiting {
  import opened Wrappers
  import opened FixedWindow

  const Limit := 5
  const Period := OneMinute

  class RateLimitingMiddleware {
    /** The static `_clients` dictionary, keyed by IP address. */
    const clients: CounterStore

    constructor ()
      ensures fresh(clients) && clients.entries == map[]
    {
      clients := new CounterStore();
    }

    /**
     * A request without a remote address goes on unlimited and without
     * headers; otherwise the fixed-window step runs on that address's
     * counter and no other.
     */
    method Invoke(clientIp: Option<string>, now: int) returns (r: Response)
      modifies clients
      ensures clientIp.None? ==> r == Forwarded(None) && clients.entries == old(clients.entries)
      ensures clientIp.Some? ==>
        && clients.entries == old(clients.entries)[clientIp.value := Counted(old(clients.entries), clientIp.value, Period, now)]
        && r == Respond(Verdict(Policy(Limit, Period), clients.entries[clientIp.value]))
    {
      if clientIp.None? {
        return Forwarded(None);
      }
      var d := clients.Hit(clientIp.value, Policy(Limit, Period), now);
      r := Respond(d);
    }
  }

  /**
   * One address, one window: five passes, then refusals whose remaining keeps
   * falling because refused requests are counted too; another address and a
   * request with no address are unaffected.
   */
  method OneAddressWindow() returns (rs: seq<Response>, other: Response, anonymous: Response)
    ensures |rs| == 7
    ensures forall i :: 0 <= i < 5 ==> rs[i] == Forwarded(Some(Decision(true, 5, 4 - i, 60_000)))
    ensures rs[5] == TooManyRequests(Decision(false, 5, -1, 60_000))
    ensures rs[6] == TooManyRequests(Decision(false, 5, -2, 60_000))
    ensures other == Forwarded(Some(Decision(true, 5, 4, 60_500)))
    ensures anonymous == Forwarded(None)
  {
    var m := new RateLimitingMiddleware();
    var ip := Some("10.0.0.1");
    var r0 := m.Invoke(ip, 0);
    var r1 := m.Invoke(ip, 100);
    assert m.clients.entries == map["10.0.0.1" := ClientRequestInfo(2, 60_000)];
    var r2 := m.Invoke(ip, 200);
    var r3 := m.Invoke(ip, 300);
    assert m.clients.entries == map["10.0.0.1" := ClientRequestInfo(4, 60_000)];
    var r4 := m.Invoke(ip, 400);
    var r5 := m.Invoke(ip, 500);
    assert r4 == Forwarded(Some(Decision(true, 5, 0, 60_000)));
    assert m.clients.entries == map["10.0.0.1" := ClientRequestInfo(6, 60_000)];
    other := m.Invoke(Some("10.0.0.2"), 500);
    anonymous := m.Invoke(None, 500);
    var r6 := m.Invoke(ip, 600);
    rs := [r0, r1, r2, r3, r4, r5, r6];
  }
}
