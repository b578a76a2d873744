# Rate-limiting middlewares of RateLimiterApi, in Dafny

This project models the decision logic of the ASP.NET rate-limiting middlewares in
RateLimiterApi and proves properties about it. Each middleware looks up a policy
(a limit and a one-minute period) for a request identity. It then runs a
fixed-window counter step on a static dictionary and either answers the request
itself (401, 400, 404, 429) or forwards it with `X-RateLimit-*` header values.

- `wrappers.dfy`: `Option`, for missing headers and dictionary entries.
- `path_pattern.dfy`: the wildcard matcher. `IsMatch` (a loop with early returns)
  is proved equal to a loop-free predicate `Matches`. `FindMatchingPattern` returns
  a matching pattern with the most `/` characters.
- `fixed_window.dfy`: the counter step that five middlewares repeat.
  - `CounterStore` is a middleware's dictionary of counters. `Hit` is the step, specified by the
    pure functions `Counted` and `Verdict`.
  - `Replay` folds the step over a series of request times.
- `user_rate_limiting.dfy`, `ip_rate_limiting.dfy`, `role_rate_limiting.dfy`,
  `per_endpoint_rate_limiting.dfy`, `wildcard_rate_limiting.dfy`: one class per
  middleware.
  - Its `Invoke` method states the full new dictionary and the response.
  - Each file also has scenario methods and lemmas.
- `token_bucket.dfy`: `TokenBucketRateLimiter.AllowRequest`. It refills by whole
  elapsed seconds, caps at 10, takes one token, and writes back only on success.
  `AllowRequest` is specified by the pure function `Admit`.

Time is an integer number of milliseconds, passed in as `now`. A `Response`
value stands in for the HTTP response: the status, or the forwarded request with
the header values as a `Decision`.

The model follows the code, including these points:
- Remaining is `limit - count`. It is not clamped at zero, so refused requests
  report -1, -2, …
- Wildcard candidates are ranked by their number of `/` characters.
- The token bucket holds a whole number of tokens. The refill credits whole
  elapsed seconds only, and an admission restamps the bucket, so the part of a
  second already elapsed is lost.
- `/api/unknown` is rate-limited under `/api/*`. A comment in the source says it
  gets a 404, but the code matches it.

## Model

| member | source | states |
|---|---|---|
| PathPattern.SplitOnSlash | Middleware/WildcardRateLimitingMiddleware.cs:96-97 | splitting on '/' yields at least one piece, and no piece holds a '/' |
| PathPattern.JoinSplit | Middleware/WildcardRateLimitingMiddleware.cs:96-97 | splitting on '/' loses nothing: joining the pieces with '/' gives the string back |
| PathPattern.RemoveEmpty | Middleware/WildcardRateLimitingMiddleware.cs:96-97 | RemoveEmptyEntries keeps exactly the non-empty pieces |
| PathPattern.SegmentsOfPath | Middleware/WildcardRateLimitingMiddleware.cs:96-97 | a path "/s1/…/sn" of non-empty, slash-free segments splits back into exactly s1…sn |
| PathPattern.Segments | Middleware/WildcardRateLimitingMiddleware.cs:96-97 | every segment is non-empty and holds no '/'; SegmentsOfPath shows a path written from such segments gives them back |
| PathPattern.EndsWithStarSuffix | Middleware/WildcardRateLimitingMiddleware.cs:99 | `EndsWith("*")` on the raw pattern text: true exactly when the text is some prefix followed by "*" |
| PathPattern.EmptySegmentsIgnored | Middleware/WildcardRateLimitingMiddleware.cs:96-97 | a doubled slash changes neither a path's segments nor whether any pattern matches it |
| PathPattern.FirstStar | Middleware/WildcardRateLimitingMiddleware.cs:104-107 | the index of the first "*" segment: no "*" before it, and a "*" at it unless it is the end |
| PathPattern.MatchSegments | Middleware/WildcardRateLimitingMiddleware.cs:99-113 | the length guard followed by the segment walk with early returns decides exactly SegmentsMatch |
| PathPattern.IsMatch | Middleware/WildcardRateLimitingMiddleware.cs:94-114 | IsMatch returns true exactly when the loop-free predicate Matches holds |
| PathPattern.LongerPatternNeverMatches | Middleware/WildcardRateLimitingMiddleware.cs:99-102 | a pattern with more segments than the path, whose text does not end in '*', never matches |
| PathPattern.StarMatchesAnyRest | Middleware/WildcardRateLimitingMiddleware.cs:104-107 | a "*" segment at index i matches whatever follows, once segments 0..i-1 equal the path's and the guard passes |
| PathPattern.PlainPatternMatchesPrefix | Middleware/WildcardRateLimitingMiddleware.cs:104-113 | a pattern without "*" matches exactly the paths whose segments start with the pattern's, so a prefix suffices |
| PathPattern.TrailingStarMatches | Middleware/WildcardRateLimitingMiddleware.cs:104-113 | literal segments followed by one trailing "*" match exactly the paths starting with those literals |
| PathPattern.SlashCount | Middleware/WildcardRateLimitingMiddleware.cs:90 | the number of '/' characters in the pattern text; SlashCountOfPath gives its value for a path written from slash-free segments |
| PathPattern.SlashCountOfPath | Middleware/WildcardRateLimitingMiddleware.cs:90 | the ranking key of a path written from n slash-free segments is n |
| PathPattern.FindMatchingPattern | Middleware/WildcardRateLimitingMiddleware.cs:87-92 | no pattern exactly when none of the patterns matches; otherwise the result is one of the patterns and it matches |
| PathPattern.FoundPatternIsMaximal | Middleware/WildcardRateLimitingMiddleware.cs:89-91 | the chosen pattern has at least as many '/' as every matching pattern |
| WildcardRateLimiting.MatchesOf | Middleware/WildcardRateLimitingMiddleware.cs:16-21 | each configured pattern matches exactly the paths whose first segments are its literal segments |
| WildcardRateLimiting.TableSelection | Middleware/WildcardRateLimitingMiddleware.cs:87-92 | for every path, the table resolves to /api/users/* or /api/products/* on those first two segments, else to /api/* on a first segment "api", else to nothing |
| WildcardRateLimiting.MaximalMatchUnique | Middleware/WildcardRateLimitingMiddleware.cs:89-91 | with the configured table, two matching patterns with equal '/' counts are the same pattern, so enumeration order never decides |
| WildcardRateLimiting.WildcardRateLimitingMiddleware.Invoke | Middleware/WildcardRateLimitingMiddleware.cs:28-85 | 401 without a user id and 404 without a matching pattern, with no counter touched in either case; otherwise the matched pattern's policy is applied to the `userId:pattern` counter alone |
| WildcardRateLimiting.UsersPathPrefersUsersPattern | Middleware/WildcardRateLimitingMiddleware.cs:87-92 | /api/users/view resolves to /api/users/* rather than /api/* |
| WildcardRateLimiting.UnknownApiPathCaughtByCatchAll | Middleware/WildcardRateLimitingMiddleware.cs:20 | /api/unknown resolves to the catch-all /api/*, not to a 404 |
| WildcardRateLimiting.PathOutsideApiNotFound | Middleware/WildcardRateLimitingMiddleware.cs:40-46 | /health matches no pattern, so it is answered with 404 |
| WildcardRateLimiting.PatternCountersIndependent | Middleware/WildcardRateLimitingMiddleware.cs:50 | different users or different configured patterns give different counter keys |
| WildcardRateLimiting.SamePrefixSamePattern | Middleware/WildcardRateLimitingMiddleware.cs:50-60 | paths whose first two segments agree resolve to the same pattern, so one user's requests to them share one counter |
| FixedWindow.Counted | Middleware/UserRateLimitingMiddlware.cs:31-47 | inside the window the count goes up by one and the window end stays; for a new key or strictly after the window end the count is 1 and the window ends one period after now |
| FixedWindow.Verdict | Middleware/UserRateLimitingMiddlware.cs:49-61 | the headers carry the policy's limit, remaining = limit - count unclamped, and the window end; a request is admitted exactly when count ≤ limit, which is exactly when remaining is not negative |
| FixedWindow.Respond | Middleware/UserRateLimitingMiddlware.cs:56-63 | 429 exactly for a refused decision; otherwise the request is forwarded with its headers |
| FixedWindow.CompositeKey | Middleware/PerEndpointRateLimitingMiddleware.cs:47 | the `userId:selector` counter key, also used at WildcardRateLimitingMiddleware.cs:50; LastColonSeparates and CompositeKeyInjective characterise it |
| FixedWindow.CompositeKeyInjective | Middleware/PerEndpointRateLimitingMiddleware.cs:47 | `userId:selector` keys are equal exactly when both parts are, for selectors without ':' |
| FixedWindow.CounterStore.Hit | Middleware/UserRateLimitingMiddlware.cs:31-50 | the key's record becomes Counted, every other key is unchanged, and the decision is the Verdict on the new record |
| FixedWindow.WithinWindow | Middleware/UserRateLimitingMiddlware.cs:41-47 | while no request comes after the window end, the i-th request counts i + 1 on top of the old count, refused ones included, and the window end never moves |
| FixedWindow.FreshKeyWindow | Middleware/UserRateLimitingMiddlware.cs:31-61 | for a new key, requests within one window are admitted exactly for i < limit, with remaining = limit - (i + 1) and the window ending one period after the first request |
| FixedWindow.ExpiredWindowRestarts | Middleware/UserRateLimitingMiddlware.cs:41-47 | a request strictly after the window end counts 1 in a new window ending one period later |
| UserRateLimiting.UserRateLimitingMiddleware.Invoke | Middleware/UserRateLimitingMiddlware.cs:21-64 | 401 with the dictionary unchanged for an empty user id; otherwise the step with limit 5 per minute on that user's counter alone |
| UserRateLimiting.FreshUserWindow | Middleware/UserRateLimitingMiddlware.cs:13-61 | a new user gets five passes (remaining 4 to 0); a sixth request at the window's last instant gets 429 with remaining -1; a request one millisecond later starts a new window |
| UserRateLimiting.MissingUserId | Middleware/UserRateLimitingMiddlware.cs:23-29 | a request without a user id gets 401 and creates no counter |
| IpRateLimiting.RateLimitingMiddleware.Invoke | Middleware/RateLimtingMiddleware.cs:17-58 | a request without a remote address is forwarded without headers and changes nothing; otherwise the step with limit 5 per minute runs on that address's counter alone |
| IpRateLimiting.OneAddressWindow | Middleware/RateLimtingMiddleware.cs:9-55 | one address gets five passes, then 429s whose remaining keeps falling (-1, -2) because refused requests are counted; another address and an anonymous request are unaffected |
| RoleRateLimiting.RoleBasedRateLimitingMiddleware.Invoke | Middleware/RoleBasedRateLimitingMiddleware.cs:27-88 | 401 without a user id and 400 for a role outside Free/Premium/Admin, both with the dictionary unchanged; otherwise the role's policy is applied to the counter keyed by user id alone |
| RoleRateLimiting.RolesShareOneCounter | Middleware/RoleBasedRateLimitingMiddleware.cs:49-85 | after five Free requests the same user passes as Premium (remaining 14 of 20), an invalid role is refused uncounted, and the next Free request gets 429 with remaining -2 |
| PerEndpointRateLimiting.PerEndpointRateLimitingMiddleware.Invoke | Middleware/PerEndpointRateLimitingMiddleware.cs:26-82 | 401 without a user id and 404 for a path not literally in the table, with no counter created in either case; otherwise the endpoint's policy is applied to the `userId:endpoint` counter alone |
| PerEndpointRateLimiting.CountersIndependent | Middleware/PerEndpointRateLimitingMiddleware.cs:47-57 | different (user, endpoint) pairs use different dictionary entries |
| PerEndpointRateLimiting.CriticalEndpointWindow | Middleware/PerEndpointRateLimitingMiddleware.cs:65-79 | /api/critical at 0 s, 10 s and 20 s answers pass (remaining 1), pass (0), 429 (-1); another user's counter is separate; /api/critical/extra gets 404 |
| TokenBucket.TruncatedSeconds | Middleware/TokenBucketRateLimiter.cs:17-20 | the `(int)` cast of elapsed milliseconds in seconds truncates toward zero: the whole seconds elapsed, rounded toward zero for negative elapsed times too |
| TokenBucket.TokensToAdd | Middleware/TokenBucketRateLimiter.cs:17-20 | the tokens credited are never negative when the clock has not gone back and never positive when it has; RefillWholeSeconds gives the exact value |
| TokenBucket.Stored | Middleware/TokenBucketRateLimiter.cs:11-14 | the stored bucket of a known key, else a full bucket stamped with now; FreshKeyAllowed and Admit state its effect |
| TokenBucket.Refill | Middleware/TokenBucketRateLimiter.cs:17-22 | after the refill the bucket is stamped with now and holds at most MaxTokens; on a clock that has not gone back it holds exactly min(MaxTokens, tokens + whole seconds elapsed), so never fewer than before |
| TokenBucket.Admit | Middleware/TokenBucketRateLimiter.cs:9-33 | admitted exactly when the refilled bucket holds a token; on admission the key stores (refilled - 1, now); on refusal nothing is written; no other key changes |
| TokenBucket.TokenBucketRateLimiter.AllowRequest | Middleware/TokenBucketRateLimiter.cs:9-33 | the verdict and the new dictionary are those of Admit on the old dictionary |
| TokenBucket.FreshKeyAllowed | Middleware/TokenBucketRateLimiter.cs:11-29 | a key not seen before is admitted and stored with MaxTokens - 1 tokens |
| TokenBucket.RefillWholeSeconds | Middleware/TokenBucketRateLimiter.cs:17-20 | when the clock has not gone back, the refill adds exactly the whole seconds elapsed |
| TokenBucket.LongIdleFillsToMax | Middleware/TokenBucketRateLimiter.cs:20-21 | after ten idle seconds a bucket that was not overdrawn is refilled to exactly 10, not more |
| TokenBucket.BoundsPreserved | Middleware/TokenBucketRateLimiter.cs:20-29 | if every stored bucket holds 0 to 10 tokens and was refilled no later than now, that still holds after a call |
| TokenBucket.AllowedWhileTokensLeft | Middleware/TokenBucketRateLimiter.cs:25-30 | a well-formed bucket with a token left, or a new key, is always admitted |
| TokenBucket.SameInstantBurst | Middleware/TokenBucketRateLimiter.cs:20-30 | requests at the instant of the last refill are admitted exactly while stored tokens remain |
| TokenBucket.FreshClientBurst | Middleware/TokenBucketRateLimiter.cs:11-30 | a new client's burst at one instant: the first 10 requests are admitted, the rest refused |
| TokenBucket.FractionDiscarded | Middleware/TokenBucketRateLimiter.cs:20-22 | an admission restamps the bucket and drops the fraction of a second: from an empty bucket at 0 ms, 1500 ms is admitted and stores (0, 1500), and 2400 ms is refused |
| TokenBucket.RefusalKeepsProgress | Middleware/TokenBucketRateLimiter.cs:25-32 | a refusal stores nothing, so the time it waited still counts: refused at 900 ms with the dictionary unchanged, admitted at 1800 ms |

## Left out

- Middleware/RedisRateLimtingMiddleware.cs is not part of this model. Its logic is in calls to a Redis client whose behaviour is not visible.
- Program.cs is not part of this model. It wires up the pipeline and Swagger. The order in which the middlewares are chained is framework composition.
- HTTP plumbing is replaced by parameters and a `Response` value. This covers header reads, status codes, response bodies and the `_next` call.
- The `X-RateLimit-Reset` header is a floating-point number of seconds formatted as text. The model reports the window end as integer milliseconds.
- Clock reads are replaced by one `now` per call. The source reads `DateTime.UtcNow` several times per call, and the model ignores the time that passes between those reads. In the token bucket this means a new key's bucket is created at the same instant as its refill.
- Floating point in the token bucket is replaced by integer arithmetic. Elapsed seconds times RefillRate is computed as `(now - lastRefill) * RefillRate` truncated toward zero by 1000, with no double rounding.
- Concurrency is not modelled. The source's static dictionaries have no locks, and the model covers sequential calls only.
- Eviction is not modelled. The source never evicts entries.
- `ClientRequestInfo` is a mutable class in the source and a value in the model. Each record is reachable from exactly one key, so no aliasing is lost.
- Counts and times are unbounded integers. The source's `int` request counter would overflow only after 2^31 requests in one window. In the token bucket, `bucket.Tokens + tokensToAdd` and the `(int)` cast of the elapsed seconds (Middleware/TokenBucketRateLimiter.cs:20-21) would overflow only after about 68 years without a request.
- The source's dictionaries are `static` fields, shared by every instance of a middleware class, and `TokenBucketRateLimiter.AllowRequest` is a static method. The model gives each middleware object its own dictionary and the token bucket one limiter object. The two agree as long as each class is instantiated once, which holds for Program.cs:18-26: it registers each middleware at most once.
- RoleRateLimiting.RoleBasedRateLimitingMiddleware.Invoke: takes the role header as a given string. The `?? "Free"` fallback depends on how the framework converts header values to strings, and is not modelled.
- PathPattern.FindMatchingPattern: keeps the earliest pattern on a tie, but its contract promises only some pattern of maximal '/' count. The tie order of the source follows dictionary enumeration order. For the configured table a tie cannot arise (MaximalMatchUnique).
- PathPattern.FindMatchingPattern: uses the predicate `Matches` rather than calling the `IsMatch` method, because a function cannot call a method. IsMatch is proved equal to Matches.
- The curl examples at the end of the source files are comments and are not modelled. The one claiming `/api/unknown` gets a 404 is contradicted by the code (UnknownApiPathCaughtByCatchAll).
