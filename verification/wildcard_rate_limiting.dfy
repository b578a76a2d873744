// WildcardRateLimitingMiddleware: the limit of the most specific matching
// wildcard pattern, one counter per user and matched pattern.
//
// The configured patterns and the sample paths are string literals, and the
// recursive functions over strings (Segments, SlashCount, PathOf) unfold
// literals eagerly. To keep each proof small, the resolution of the table is
// proved once over abstract strings (MatchesOf, SelectionOf, UniqueOf), and
// each literal gets its own small lemmas: `…Written` (the literal is PathOf
// of its segments), `…Segments`, `…Slashes` and `…Shape`, which collects the
// facts the abstract lemmas require. Comments in this module use `//`
// because the patterns contain the characters that open a block comment.
module WildcardRateLimiting {
  import opened Wrappers
  import opened FixedWindow
  import opened PathPattern

  // The `EndpointLimits` dictionary.
  const EndpointLimits: map<string, Policy> := map[
    "/api/users/*" := Policy(10, OneMinute),
    "/api/products/*" := Policy(5, OneMinute),
    "/api/*" := Policy(20, OneMinute)
  ]

  // `EndpointLimits.Keys` in enumeration order, which is declaration order.
  const Patterns: seq<string> := ["/api/users/*", "/api/products/*", "/api/*"]

  // What each of three patterns shaped like the configured ones matches.
  lemma MatchesOf(u: string, p: string, c: string, path: string)
    requires Segments(u) == ["api", "users", "*"] && EndsWithStar(u)
    requires Segments(p) == ["api", "products", "*"] && EndsWithStar(p)
    requires Segments(c) == ["api", "*"] && EndsWithStar(c)
    ensures Matches(u, path) <==>
      |Segments(path)| >= 2 && Segments(path)[0] == "api" && Segments(path)[1] == "users"
    ensures Matches(p, path) <==>
      |Segments(path)| >= 2 && Segments(path)[0] == "api" && Segments(path)[1] == "products"
    ensures Matches(c, path) <==>
      |Segments(path)| >= 1 && Segments(path)[0] == "api"
  {
    var s := Segments(path);
    assert ["api", "users", "*"] == ["api", "users"] + ["*"];
    assert ["api", "products", "*"] == ["api", "products"] + ["*"];
    assert ["api", "*"] == ["api"] + ["*"];
    TrailingStarMatches(u, path, ["api", "users"]);
    TrailingStarMatches(p, path, ["api", "products"]);
    TrailingStarMatches(c, path, ["api"]);
    if |s| >= 2 {
      assert s[..2] == [s[0], s[1]];
    }
    if |s| >= 1 {
      assert s[..1] == [s[0]];
    }
  }

  // The pattern chosen among three shaped like the configured ones, in their order.
  lemma SelectionOf(u: string, p: string, c: string, path: string)
    requires Segments(u) == ["api", "users", "*"] && EndsWithStar(u) && SlashCount(u) == 3
    requires Segments(p) == ["api", "products", "*"] && EndsWithStar(p) && SlashCount(p) == 3
    requires Segments(c) == ["api", "*"] && EndsWithStar(c) && SlashCount(c) == 2
    ensures var s := Segments(path);
      FindMatchingPattern([u, p, c], path) ==
        if |s| >= 2 && s[0] == "api" && s[1] == "users" then Some(u)
        else if |s| >= 2 && s[0] == "api" && s[1] == "products" then Some(p)
        else if |s| >= 1 && s[0] == "api" then Some(c)
        else None
  {
    MatchesOf(u, p, c, path);
    assert [u, p, c][1..] == [p, c];
    assert [u, p, c][1..][1..] == [c];
  }

  // `/api/users/*` written segment by segment.
  lemma UsersPatternWritten()
    ensures PathOf(["api", "users", "*"]) == "/api/users/*"
  {
  }

  // The segments of `/api/users/*`.
  lemma UsersPatternSegments()
    ensures Segments("/api/users/*") == ["api", "users", "*"]
  {
    UsersPatternWritten();
    SegmentsOfPath(["api", "users", "*"]);
  }

  // The ranking key of `/api/users/*`.
  lemma UsersPatternSlashes()
    ensures SlashCount("/api/users/*") == 3
  {
    UsersPatternWritten();
    SlashCountOfPath(["api", "users", "*"]);
  }

  // The segments and the ranking key of `/api/users/*`.
  lemma UsersPatternShape()
    ensures Segments("/api/users/*") == ["api", "users", "*"]
    ensures EndsWithStar("/api/users/*")
    ensures SlashCount("/api/users/*") == 3
  {
    UsersPatternSegments();
    UsersPatternSlashes();
  }

  // `/api/products/*` written segment by segment.
  lemma ProductsPatternWritten()
    ensures PathOf(["api", "products", "*"]) == "/api/products/*"
  {
  }

  // The segments of `/api/products/*`.
  lemma ProductsPatternSegments()
    ensures Segments("/api/products/*") == ["api", "products", "*"]
  {
    ProductsPatternWritten();
    SegmentsOfPath(["api", "products", "*"]);
  }

  // The ranking key of `/api/products/*`.
  lemma ProductsPatternSlashes()
    ensures SlashCount("/api/products/*") == 3
  {
    ProductsPatternWritten();
    SlashCountOfPath(["api", "products", "*"]);
  }

  // The segments and the ranking key of `/api/products/*`.
  lemma ProductsPatternShape()
    ensures Segments("/api/products/*") == ["api", "products", "*"]
    ensures EndsWithStar("/api/products/*")
    ensures SlashCount("/api/products/*") == 3
  {
    ProductsPatternSegments();
    ProductsPatternSlashes();
  }

  // `/api/*` written segment by segment.
  lemma CatchAllPatternWritten()
    ensures PathOf(["api", "*"]) == "/api/*"
  {
  }

  // The segments of `/api/*`.
  lemma CatchAllPatternSegments()
    ensures Segments("/api/*") == ["api", "*"]
  {
    CatchAllPatternWritten();
    SegmentsOfPath(["api", "*"]);
  }

  // The ranking key of `/api/*`.
  lemma CatchAllPatternSlashes()
    ensures SlashCount("/api/*") == 2
  {
    CatchAllPatternWritten();
    SlashCountOfPath(["api", "*"]);
  }

  // The segments and the ranking key of `/api/*`.
  lemma CatchAllPatternShape()
    ensures Segments("/api/*") == ["api", "*"]
    ensures EndsWithStar("/api/*")
    ensures SlashCount("/api/*") == 2
  {
    CatchAllPatternSegments();
    CatchAllPatternSlashes();
  }

  // The pattern the middleware resolves for any path: `/api/users/*` or
  // `/api/products/*` when the path's first two segments are `api` and
  // `users` or `products`, else `/api/*` when its first segment is `api`,
  // else none.
  lemma TableSelection(path: string)
    ensures var s := Segments(path);
      FindMatchingPattern(Patterns, path) ==
        if |s| >= 2 && s[0] == "api" && s[1] == "users" then Some("/api/users/*")
        else if |s| >= 2 && s[0] == "api" && s[1] == "products" then Some("/api/products/*")
        else if |s| >= 1 && s[0] == "api" then Some("/api/*")
        else None
  {
    UsersPatternShape();
    ProductsPatternShape();
    CatchAllPatternShape();
    SelectionOf("/api/users/*", "/api/products/*", "/api/*", path);
  }

  // With this table two patterns that both match a path and rank equally are
  // the same pattern, so the dictionary's enumeration order never decides
  // between candidates.
  lemma MaximalMatchUnique(path: string, q1: string, q2: string)
    requires q1 in Patterns && q2 in Patterns
    requires Matches(q1, path) && Matches(q2, path)
    requires SlashCount(q1) == SlashCount(q2)
    ensures q1 == q2
  {
    UsersPatternShape();
    ProductsPatternShape();
    CatchAllPatternShape();
    UniqueOf("/api/users/*", "/api/products/*", "/api/*", path, q1, q2);
  }

  // Equal rank and a common match single out one of three patterns shaped like the configured ones.
  lemma UniqueOf(u: string, p: string, c: string, path: string, q1: string, q2: string)
    requires Segments(u) == ["api", "users", "*"] && EndsWithStar(u) && SlashCount(u) == 3
    requires Segments(p) == ["api", "products", "*"] && EndsWithStar(p) && SlashCount(p) == 3
    requires Segments(c) == ["api", "*"] && EndsWithStar(c) && SlashCount(c) == 2
    requires q1 in [u, p, c] && q2 in [u, p, c]
    requires Matches(q1, path) && Matches(q2, path)
    requires SlashCount(q1) == SlashCount(q2)
    ensures q1 == q2
  {
    MatchesOf(u, p, c, path);
  }

  class WildcardRateLimitingMiddleware {
    // The static `_users` dictionary, keyed `userId:pattern`.
    const users: CounterStore

    constructor ()
      ensures fresh(users) && users.entries == map[]
    {
      users := new CounterStore();
    }

    // 401 without a user id and 404 when no pattern matches, both with no
    // counter touched; otherwise the step runs, with the chosen pattern's
    // policy, on the `userId:pattern` counter and no other.
    method Invoke(userId: string, path: string, now: int) returns (r: Response)
      modifies users
      ensures userId == [] ==> r == Unauthorized && users.entries == old(users.entries)
      ensures userId != [] && FindMatchingPattern(Patterns, path).None? ==>
        r == NotFound && users.entries == old(users.entries)
      ensures userId != [] && FindMatchingPattern(Patterns, path).Some? ==>
        var pattern := FindMatchingPattern(Patterns, path).value;
        var key := CompositeKey(userId, pattern);
        && pattern in EndpointLimits
        && users.entries == old(users.entries)[key := Counted(old(users.entries), key, EndpointLimits[pattern].period, now)]
        && r == Respond(Verdict(EndpointLimits[pattern], users.entries[key]))
    {
      if userId == [] {
        return Unauthorized;
      }
      var matchingPattern := FindMatchingPattern(Patterns, path);
      if matchingPattern.None? {
        return NotFound;
      }
      var policy := EndpointLimits[matchingPattern.value];
      var key := CompositeKey(userId, matchingPattern.value);
      var d := users.Hit(key, policy, now);
      r := Respond(d);
    }
  }

  // Sample request paths, segment by segment.

  // `/api/users/view` written segment by segment.
  lemma UsersViewWritten()
    ensures PathOf(["api", "users", "view"]) == "/api/users/view"
  {
  }

  // The segments of `/api/users/view`.
  lemma UsersViewSegments()
    ensures Segments("/api/users/view") == ["api", "users", "view"]
  {
    UsersViewWritten();
    SegmentsOfPath(["api", "users", "view"]);
  }

  // `/api/unknown` written segment by segment.
  lemma UnknownWritten()
    ensures PathOf(["api", "unknown"]) == "/api/unknown"
  {
  }

  // The segments of `/api/unknown`.
  lemma UnknownSegments()
    ensures Segments("/api/unknown") == ["api", "unknown"]
  {
    UnknownWritten();
    SegmentsOfPath(["api", "unknown"]);
  }

  // `/health` written segment by segment.
  lemma HealthWritten()
    ensures PathOf(["health"]) == "/health"
  {
  }

  // The segments of `/health`.
  lemma HealthSegments()
    ensures Segments("/health") == ["health"]
  {
    HealthWritten();
    SegmentsOfPath(["health"]);
  }

  // `/api/users/view` is ranked under `/api/users/*`, not under the catch-all `/api/*`.
  lemma UsersPathPrefersUsersPattern()
    ensures FindMatchingPattern(Patterns, "/api/users/view") == Some("/api/users/*")
  {
    UsersViewSegments();
    TableSelection("/api/users/view");
  }

  // `/api/unknown` is caught by `/api/*`: the path is rate-limited at 20 a
  // minute rather than answered with 404.
  lemma UnknownApiPathCaughtByCatchAll()
    ensures FindMatchingPattern(Patterns, "/api/unknown") == Some("/api/*")
  {
    UnknownSegments();
    TableSelection("/api/unknown");
  }

  // A path outside `/api` matches nothing and is answered with 404.
  lemma PathOutsideApiNotFound()
    ensures FindMatchingPattern(Patterns, "/health") == None
  {
    HealthSegments();
    TableSelection("/health");
  }

  // Different users, or different patterns, never share a counter: no pattern contains ':'.
  lemma PatternCountersIndependent(u1: string, p1: string, u2: string, p2: string)
    requires p1 in EndpointLimits && p2 in EndpointLimits
    requires u1 != u2 || p1 != p2
    ensures CompositeKey(u1, p1) != CompositeKey(u2, p2)
  {
    CompositeKeyInjective(u1, p1, u2, p2);
  }

  // Which counter a request lands in depends only on its first two path
  // segments: `/api/users/view` and `/api/users/create` share the user's
  // `/api/users/*` counter.
  lemma SamePrefixSamePattern(a: string, b: string)
    requires |Segments(a)| >= 2 && |Segments(b)| >= 2
    requires Segments(a)[..2] == Segments(b)[..2]
    ensures FindMatchingPattern(Patterns, a) == FindMatchingPattern(Patterns, b)
  {
    TableSelection(a);
    TableSelection(b);
    assert Segments(a)[0] == Segments(a)[..2][0] && Segments(a)[1] == Segments(a)[..2][1];
    assert Segments(b)[0] == Segments(b)[..2][0] && Segments(b)[1] == Segments(b)[..2][1];
  }
}
