/**
 * The wildcard path matcher of WildcardRateLimitingMiddleware: splitting a path
 * into '/'-separated segments, matching a pattern against a path (IsMatch) and
 * choosing among several matching patterns the one with the most '/'
 * characters (FindMatchingPattern).
 */
module PathPattern {
  import opened Wrappers

  /** `s.Split('/')`: the pieces between slashes, empty pieces included. */
  function SplitOnSlash(s: string): (parts: seq<string>)
    ensures |parts| >= 1
    ensures forall piece :: piece in parts ==> '/' !in piece
  {
    if s == [] then [[]]
    else
      var rest := SplitOnSlash(s[1..]);
      if s[0] == '/' then [[]] + rest
      else [[s[0]] + rest[0]] + rest[1..]
  }

  /** Joins pieces with '/' in between: the inverse of SplitOnSlash. */
  function JoinWithSlash(parts: seq<string>): string
    requires |parts| >= 1
  {
    if |parts| == 1 then parts[0] else parts[0] + "/" + JoinWithSlash(parts[1..])
  }

  /** StringSplitOptions.RemoveEmptyEntries: drops the empty pieces, keeps the order. */
  function RemoveEmpty(parts: seq<string>): (r: seq<string>)
    ensures forall x :: x in r <==> x in parts && x != []
  {
    if parts == [] then []
    else if parts[0] == [] then RemoveEmpty(parts[1..])
    else [parts[0]] + RemoveEmpty(parts[1..])
  }

  /** `s.Split('/', StringSplitOptions.RemoveEmptyEntries)` */
  function Segments(s: string): (segs: seq<string>)
    ensures forall seg :: seg in segs ==> seg != [] && '/' !in seg
  {
    RemoveEmpty(SplitOnSlash(s))
  }

  /** The path "/s1/s2/.../sn" written from its segments. */
  function PathOf(segs: seq<string>): string {
    if segs == [] then "" else "/" + segs[0] + PathOf(segs[1..])
  }

  /** A character put in front of the first piece comes out in front of the joined string. */
  lemma JoinPrepend(c: char, parts: seq<string>)
    requires |parts| >= 1
    ensures JoinWithSlash([[c] + parts[0]] + parts[1..]) == [c] + JoinWithSlash(parts)
  {
  }

  /** Splitting is undone by joining: `string.Join("/", s.Split('/')) == s`. */
  lemma {:induction false} JoinSplit(s: string)
    ensures JoinWithSlash(SplitOnSlash(s)) == s
  {
    if s != [] {
      var rest := SplitOnSlash(s[1..]);
      JoinSplit(s[1..]);
      if s[0] == '/' {
        assert ([[]] + rest)[1..] == rest;
        assert JoinWithSlash([[]] + rest) == [] + "/" + JoinWithSlash(rest);
      } else {
        JoinPrepend(s[0], rest);
      }
    }
  }

  /** A slash-free prefix glues onto the first piece of what follows it. */
  lemma {:induction false} SplitAfterWord(w: string, t: string)
    requires '/' !in w
    ensures SplitOnSlash(w + t) == [w + SplitOnSlash(t)[0]] + SplitOnSlash(t)[1..]
  {
    if w != [] {
      assert (w + t)[1..] == w[1..] + t;
      SplitAfterWord(w[1..], t);
      var x, rest := SplitOnSlash(t), SplitOnSlash(w[1..] + t);
      assert (w + t)[0] == w[0] != '/';
      assert rest[0] == w[1..] + x[0] && rest[1..] == x[1..];
      assert [w[0]] + rest[0] == w + x[0];
    } else {
      var x := SplitOnSlash(t);
      assert x == [x[0]] + x[1..];
      assert w + t == t && w + x[0] == x[0];
    }
  }

  /** Splitting distributes over a '/' between two strings. */
  lemma {:induction false} SplitAtSlash(a: string, b: string)
    ensures SplitOnSlash(a + "/" + b) == SplitOnSlash(a) + SplitOnSlash(b)
  {
    if a == [] {
      assert a + "/" + b == "/" + b;
      assert ("/" + b)[1..] == b;
    } else {
      assert (a + "/" + b)[1..] == a[1..] + "/" + b;
      SplitAtSlash(a[1..], b);
    }
  }

  /** Dropping empty pieces distributes over concatenation. */
  lemma {:induction false} RemoveEmptyAppend(x: seq<string>, y: seq<string>)
    ensures RemoveEmpty(x + y) == RemoveEmpty(x) + RemoveEmpty(y)
  {
    if x != [] {
      assert (x + y)[1..] == x[1..] + y;
      RemoveEmptyAppend(x[1..], y);
    } else {
      assert x + y == y;
    }
  }

  /** Splitting a path written from slash-free segments gives an empty piece, then those segments. */
  lemma {:induction false} SplitOfPath(segs: seq<string>)
    requires forall seg :: seg in segs ==> '/' !in seg
    ensures SplitOnSlash(PathOf(segs)) == [[]] + segs
  {
    if segs != [] {
      var tail := PathOf(segs[1..]);
      assert forall seg :: seg in segs[1..] ==> seg in segs;
      SplitOfPath(segs[1..]);
      assert segs[0] in segs;
      SplitAfterWord(segs[0], tail);
      var t := SplitOnSlash(tail);
      assert t[0] == [] && t[1..] == segs[1..];
      assert segs[0] + t[0] == segs[0];
      assert SplitOnSlash(segs[0] + tail) == [segs[0]] + segs[1..] == segs;
      assert PathOf(segs) == [] + "/" + (segs[0] + tail);
      SplitAtSlash([], segs[0] + tail);
    }
  }

  /** Pieces that are all non-empty are kept as they are. */
  lemma {:induction false} RemoveEmptyKeeps(parts: seq<string>)
    requires forall x :: x in parts ==> x != []
    ensures RemoveEmpty(parts) == parts
  {
    if parts != [] {
      assert parts[0] in parts;
      assert forall x :: x in parts[1..] ==> x in parts;
      RemoveEmptyKeeps(parts[1..]);
    }
  }

  /** Splitting a path written from non-empty, slash-free segments gives those segments back. */
  lemma SegmentsOfPath(segs: seq<string>)
    requires forall seg :: seg in segs ==> seg != [] && '/' !in seg
    ensures Segments(PathOf(segs)) == segs
  {
    SplitOfPath(segs);
    RemoveEmptyKeeps(segs);
    assert ([[]] + segs)[1..] == segs;
  }

  /**
   * Empty segments are ignored: a doubled slash anywhere in a path gives the
   * same segments, so `/api//users` and `/api/users` match the same patterns.
   */
  lemma EmptySegmentsIgnored(a: string, b: string, pattern: string)
    ensures Segments(a + "//" + b) == Segments(a + "/" + b)
    ensures Matches(pattern, a + "//" + b) == Matches(pattern, a + "/" + b)
  {
    assert a + "//" + b == a + "/" + ("/" + b);
    SplitAtSlash(a, "/" + b);
    SplitAtSlash(a, b);
    assert ("/" + b)[1..] == b;
    RemoveEmptyAppend(SplitOnSlash(a), SplitOnSlash("/" + b));
    RemoveEmptyAppend(SplitOnSlash(a), SplitOnSlash(b));
  }

  /** `pattern.EndsWith("*")` on the raw pattern string. */
  predicate EndsWithStar(pattern: string) {
    |pattern| > 0 && pattern[|pattern| - 1] == '*'
  }

  /** EndsWithStar holds exactly for the texts that are some prefix followed by "*". */
  lemma EndsWithStarSuffix(pattern: string)
    ensures EndsWithStar(pattern) <==> exists prefix :: pattern == prefix + "*"
  {
    if EndsWithStar(pattern) {
      var prefix := pattern[..|pattern| - 1];
      assert pattern == prefix + "*";
    }
  }

  /** Index of the first "*" segment, or |p| when there is none. */
  function FirstStar(p: seq<string>): (w: nat)
    ensures w <= |p|
    ensures forall j :: 0 <= j < w ==> p[j] != "*"
    ensures w < |p| ==> p[w] == "*"
  {
    if p == [] then 0
    else if p[0] == "*" then 0
    else 1 + FirstStar(p[1..])
  }

  /**
   * When pattern segments p match path segments s, stated without a loop: the
   * length guard lets p have more segments than s only when the pattern's
   * text ends in '*', and p's segments before its first "*" segment (all of
   * them when there is none) are s's first segments.
   */
  predicate SegmentsMatch(p: seq<string>, s: seq<string>, endsWithStar: bool) {
    var w := FirstStar(p);
    && (|p| <= |s| || endsWithStar)
    && w <= |s|
    && p[..w] == s[..w]
  }

  /** When a pattern matches a path. */
  predicate Matches(pattern: string, path: string) {
    SegmentsMatch(Segments(pattern), Segments(path), EndsWithStar(pattern))
  }

  /** The body of IsMatch after splitting: the length guard, then the segment walk with early returns. */
  method MatchSegments(patternSegments: seq<string>, pathSegments: seq<string>, endsWithStar: bool)
    returns (r: bool)
    ensures r == SegmentsMatch(patternSegments, pathSegments, endsWithStar)
  {
    if |patternSegments| > |pathSegments| && !endsWithStar {
      return false;
    }
    ghost var w := FirstStar(patternSegments);
    var i := 0;
    while i < |patternSegments|
      invariant 0 <= i <= |patternSegments| && i <= w
      invariant i <= |pathSegments|
      invariant forall j :: 0 <= j < i ==> patternSegments[j] == pathSegments[j]
    {
      if patternSegments[i] == "*" {
        assert patternSegments[..w] == pathSegments[..w];
        return true;
      }
      if i >= |pathSegments| || patternSegments[i] != pathSegments[i] {
        assert w <= |pathSegments| ==> patternSegments[..w][i] != pathSegments[..w][i];
        return false;
      }
      i := i + 1;
    }
    assert patternSegments[..w] == pathSegments[..w];
    return true;
  }

  /** `IsMatch(pattern, path)`: splits both and walks the segments. */
  method IsMatch(pattern: string, path: string) returns (r: bool)
    ensures r == Matches(pattern, path)
  {
    var patternSegments := Segments(pattern);
    var pathSegments := Segments(path);
    r := MatchSegments(patternSegments, pathSegments, EndsWithStar(pattern));
  }

  /** A pattern with more segments than the path matches only if its text ends in '*'. */
  lemma LongerPatternNeverMatches(pattern: string, path: string)
    requires |Segments(pattern)| > |Segments(path)| && !EndsWithStar(pattern)
    ensures !Matches(pattern, path)
  {
  }

  /**
   * A "*" segment at index i matches whatever follows in the path, once the
   * segments before it equal the path's and the length guard lets it through.
   */
  lemma StarMatchesAnyRest(pattern: string, path: string, i: nat)
    requires i < |Segments(pattern)| && Segments(pattern)[i] == "*"
    requires i <= |Segments(path)| && Segments(pattern)[..i] == Segments(path)[..i]
    requires |Segments(pattern)| <= |Segments(path)| || EndsWithStar(pattern)
    ensures Matches(pattern, path)
  {
    var p, s := Segments(pattern), Segments(path);
    var w := FirstStar(p);
    assert w <= i;
    assert p[..w] == p[..i][..w] && s[..w] == s[..i][..w];
  }

  /**
   * Without a "*" segment a pattern matches exactly the paths whose segments
   * start with the pattern's: a prefix, not only an equal path.
   */
  lemma PlainPatternMatchesPrefix(pattern: string, path: string)
    requires "*" !in Segments(pattern)
    ensures Matches(pattern, path) <==>
      |Segments(pattern)| <= |Segments(path)| && Segments(pattern) == Segments(path)[..|Segments(pattern)|]
  {
  }

  /**
   * A pattern of literal segments followed by one trailing "*" (the shape of
   * every configured pattern) matches exactly the paths that start with
   * those literal segments, with any number of segments after them.
   */
  lemma TrailingStarMatches(pattern: string, path: string, literals: seq<string>)
    requires Segments(pattern) == literals + ["*"] && "*" !in literals
    requires EndsWithStar(pattern)
    ensures Matches(pattern, path) <==>
      |literals| <= |Segments(path)| && Segments(path)[..|literals|] == literals
  {
    var p := Segments(pattern);
    assert p[|literals|] == "*";
    assert forall j :: 0 <= j < |literals| ==> p[j] == literals[j] && literals[j] in literals;
    assert p[..|literals|] == literals;
  }

  /** `pattern.Count(c => c == '/')`: the ranking key of FindMatchingPattern. */
  function SlashCount(s: string): nat {
    multiset(s)['/']
  }

  /** A path written from slash-free segments has one '/' per segment. */
  lemma {:induction false} SlashCountOfPath(segs: seq<string>)
    requires forall seg :: seg in segs ==> '/' !in seg
    ensures SlashCount(PathOf(segs)) == |segs|
  {
    if segs != [] {
      assert forall seg :: seg in segs[1..] ==> seg in segs;
      SlashCountOfPath(segs[1..]);
      assert PathOf(segs) == "/" + segs[0] + PathOf(segs[1..]);
      assert segs[0] in segs;
      assert '/' !in multiset(segs[0]);
    }
  }

  /**
   * `patterns.OrderByDescending(SlashCount).FirstOrDefault(p => IsMatch(p, path))`:
   * no pattern when none matches, otherwise a matching pattern with the most
   * slashes. OrderByDescending is stable, so among equal counts the earliest
   * pattern wins; the recursion keeps the head on a tie for the same reason.
   */
  function FindMatchingPattern(patterns: seq<string>, path: string): (r: Option<string>)
    ensures r.None? <==> forall q :: q in patterns ==> !Matches(q, path)
    ensures r.Some? ==> r.value in patterns && Matches(r.value, path)
  {
    if patterns == [] then None
    else
      var rest := FindMatchingPattern(patterns[1..], path);
      if Matches(patterns[0], path) && (rest.None? || SlashCount(rest.value) <= SlashCount(patterns[0]))
      then Some(patterns[0])
      else rest
  }

  /** The pattern FindMatchingPattern returns has the most slashes among those that match. */
  lemma {:induction false} FoundPatternIsMaximal(patterns: seq<string>, path: string, q: string)
    requires q in patterns && Matches(q, path)
    ensures FindMatchingPattern(patterns, path).Some?
    ensures SlashCount(q) <= SlashCount(FindMatchingPattern(patterns, path).value)
  {
    var rest := FindMatchingPattern(patterns[1..], path);
    if q != patterns[0] {
      assert q in patterns[1..];
      FoundPatternIsMaximal(patterns[1..], path, q);
    } else if rest.Some? {
      FoundPatternIsMaximal(patterns[1..], path, rest.value);
    }
  }
}
