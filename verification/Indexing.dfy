/** Which bucket a rule is filed in, and why a request that the rule applies to always looks there. */
module Indexing {
  import opened Text
  import opened Domains
  import opened Glob
  import opened Tokens
  import opened Rules

  /** `p` is the pattern as it is indexed: lowercased when the rule is case-sensitive. */
  function IndexPattern(r: NetRule): string {
    if r.matchCase then Lower(r.pattern) else r.pattern
  }

  /** `p[a..b]` must appear as a whole token of any URL the pattern matches: it is a whole run,
      bounded on both sides by a byte other than '*' or by an anchor. */
  predicate IsUsable(r: NetRule, p: string, a: int, b: int) {
    && IsRun(p, a, b)
    && (if a > 0 then p[a - 1] != '*' else r.anchorHost || r.anchorStart)
    && (if b < |p| then p[b] != '*' else r.anchorEnd)
    && b - a >= MIN_TOKEN_LEN
    && p[a..b] !in STOP_TOKENS
  }

  /** `p[a..b]` is the first of the longest usable runs. */
  ghost predicate IsBestRun(r: NetRule, p: string, a: int, b: int) {
    && IsUsable(r, p, a, b)
    && forall c, d :: IsUsable(r, p, c, d) ==> d - c < b - a || (d - c == b - a && a <= c)
  }

  /** `tok` is the token `r` is indexed under: its best run, or nothing when it has no usable one. */
  ghost predicate IsBestToken(r: NetRule, tok: string) {
    var p := IndexPattern(r);
    || (tok == "" && forall a, b :: !IsUsable(r, p, a, b))
    || (exists a, b :: IsBestRun(r, p, a, b) && tok == p[a..b])
  }

  lemma BestTokenIsUnique(r: NetRule, t: string, t': string)
    requires IsBestToken(r, t) && IsBestToken(r, t')
    ensures t == t'
  {
  }

  lemma BestRunExists(r: NetRule, p: string, a: nat, b: nat) returns (x: nat, y: nat)
    requires IsUsable(r, p, a, b)
    ensures IsBestRun(r, p, x, y)
    decreases |p| - (b - a), a
  {
    if IsBestRun(r, p, a, b) {
      return a, b;
    }
    var c: nat, d: nat :| IsUsable(r, p, c, d) && !(d - c < b - a || (d - c == b - a && a <= c));
    x, y := BestRunExists(r, p, c, d);
  }

  lemma BestTokenExists(r: NetRule) returns (tok: string)
    ensures IsBestToken(r, tok)
  {
    var p := IndexPattern(r);
    tok := "";
    if a: nat, b: nat :| IsUsable(r, p, a, b) {
      var x, y := BestRunExists(r, p, a, b);
      tok := p[x..y];
    }
  }

  /** `best` is the best usable run among `seen`, namely `p[x..y]`, or nothing. */
  ghost predicate IsBestAmong(r: NetRule, p: string, seen: seq<(nat, nat)>, best: string, x: nat, y: nat) {
    if best == "" then forall c, d :: (c, d) in seen ==> !IsUsable(r, p, c, d)
    else
      && (x, y) in seen && IsUsable(r, p, x, y) && best == p[x..y]
      && forall c, d :: (c, d) in seen && IsUsable(r, p, c, d) ==> d - c < y - x || (d - c == y - x && x <= c)
  }

  lemma SeeOneMore(r: NetRule, p: string, seen: seq<(nat, nat)>, best: string, x: nat, y: nat, s: nat, e: nat)
    requires IsBestAmong(r, p, seen, best, x, y) && IsRun(p, s, e)
    requires forall c, d :: (c, d) in seen ==> c <= s
    ensures if IsUsable(r, p, s, e) && e - s > |best| then IsBestAmong(r, p, seen + [(s, e)], p[s..e], s, e)
            else IsBestAmong(r, p, seen + [(s, e)], best, x, y)
  {
  }

  lemma BestAmongAll(r: NetRule, p: string, best: string, x: nat, y: nat)
    requires p == IndexPattern(r) && IsBestAmong(r, p, RunsFrom(p, 0), best, x, y)
    ensures IsBestToken(r, best)
  {
    forall c: nat, d: nat | IsUsable(r, p, c, d)
      ensures (c, d) in RunsFrom(p, 0)
    {
      RunsFromExact(p, 0, c, d);
    }
    if best != "" {
      assert IsBestRun(r, p, x, y);
    }
  }

  method BestToken(r: NetRule) returns (best: string)
    ensures IsBestToken(r, best)
  {
    var p := r.pattern;
    if r.matchCase {
      p := Lower(p);
    }
    best := "";
    var runs := RunsFrom(p, 0);
    ghost var x: nat, y: nat := 0, 0;
    for i := 0 to |runs|
      invariant IsBestAmong(r, p, runs[..i], best, x, y)
    {
      var (s, e) := runs[i];
      RunsFromExact(p, 0, s, e);
      EarlierRunsFirst(p, i);
      SeeOneMore(r, p, runs[..i], best, x, y, s, e);
      assert runs[..i] + [(s, e)] == runs[..i + 1];
      var leftOK := (s > 0 && p[s - 1] != '*') || (s == 0 && (r.anchorHost || r.anchorStart));
      var rightOK := (e < |p| && p[e] != '*') || (e == |p| && r.anchorEnd);
      if leftOK && rightOK && e - s >= MIN_TOKEN_LEN && e - s > |best| && p[s..e] !in STOP_TOKENS {
        best := p[s..e];
        x, y := s, e;
      }
    }
    assert runs[..|runs|] == runs;
    BestAmongAll(r, p, best, x, y);
  }

  /** Runs are listed from left to right. */
  lemma EarlierRunsFirst(p: string, n: nat)
    requires n < |RunsFrom(p, 0)|
    ensures forall c, d :: (c, d) in RunsFrom(p, 0)[..n] ==> c <= RunsFrom(p, 0)[n].0
  {
    forall c, d | (c, d) in RunsFrom(p, 0)[..n]
      ensures c <= RunsFrom(p, 0)[n].0
    {
      var m :| 0 <= m < n && RunsFrom(p, 0)[m] == (c, d);
      RunsAscend(p, 0, m, n);
    }
  }

  lemma {:induction false} RunsAscend(p: string, i: nat, m: nat, n: nat)
    requires i <= |p| && m < n < |RunsFrom(p, i)|
    ensures RunsFrom(p, i)[m].0 <= RunsFrom(p, i)[n].0
    decreases |p| - i
  {
    if IsTokenByte(p[i]) {
      var j := RunEnd(p, i);
      assert RunsFrom(p, i)[n] == RunsFrom(p, j)[n - 1];
      if m == 0 {
        RunsStartLater(p, j, n - 1);
      } else {
        RunsAscend(p, j, m - 1, n - 1);
      }
    } else {
      RunsAscend(p, i + 1, m, n);
    }
  }

  lemma {:induction false} RunsStartLater(p: string, i: nat, n: nat)
    requires i <= |p| && n < |RunsFrom(p, i)|
    ensures i <= RunsFrom(p, i)[n].0
    decreases |p| - i
  {
    if IsTokenByte(p[i]) {
      if n > 0 {
        RunsStartLater(p, RunEnd(p, i), n - 1);
      }
    } else {
      RunsStartLater(p, i + 1, n);
    }
  }

  // Token soundness.

  /** A match of `p[i..]` passes through every later pattern position; the element just before
      that position, unless it is a star, either took the byte just before or is a '^' at the end. */
  lemma {:induction false} MatchPassesThrough(p: string, i: nat, a: nat, s: string, j: nat, anchorEnd: bool)
    returns (x: nat)
    requires i <= a <= |p| && j <= |s| && MatchesAt(p, i, s, j, anchorEnd)
    ensures j <= x <= |s| && MatchesAt(p, a, s, x, anchorEnd)
    ensures a == i ==> x == j
    ensures a > i && p[a - 1] != '*' ==> (x > 0 && ElementIs(p[a - 1], s[x - 1])) || (x == |s| && p[a - 1] == '^')
    decreases a - i
  {
    if a == i {
      x := j;
    } else {
      var y := MatchPassesThrough(p, i, a - 1, s, j, anchorEnd);
      if p[a - 1] == '*' {
        x := Start(p, a, s, y, anchorEnd);
      } else if y < |s| {
        x := y + 1;
      } else {
        x := y;
      }
    }
  }

  /** Literal bytes take themselves. */
  lemma {:induction false} LiteralRunMatches(p: string, a: nat, b: nat, s: string, x: nat, anchorEnd: bool)
    requires a <= b <= |p| && x <= |s| && MatchesAt(p, a, s, x, anchorEnd)
    requires forall k :: a <= k < b ==> p[k] != '*' && p[k] != '^'
    ensures x + (b - a) <= |s| && s[x..x + (b - a)] == p[a..b] && MatchesAt(p, b, s, x + (b - a), anchorEnd)
    decreases b - a
  {
    if a < b {
      LiteralRunMatches(p, a + 1, b, s, x + 1, anchorEnd);
      assert p[a..b] == [p[a]] + p[a + 1..b];
      assert s[x..x + (b - a)] == [s[x]] + s[x + 1..x + (b - a)];
    }
  }

  predicate IsTokenBoundary(u: string, x: int) {
    x == 0 || (0 < x <= |u| && !IsTokenByte(u[x - 1]))
  }

  /** A usable run of the lowercased pattern is a whole token of the lowercased subject,
      provided the match starts at a token boundary whenever an anchor is what bounds the run. */
  lemma UsableRunSurvives(r: NetRule, a: nat, b: nat, s: string, j: nat)
    requires IsUsable(r, Lower(r.pattern), a, b)
    requires j <= |s| && MatchesAt(r.pattern, 0, s, j, r.anchorEnd)
    requires r.anchorHost || r.anchorStart ==> IsTokenBoundary(Lower(s), j)
    ensures HasToken(Lower(s), Lower(r.pattern)[a..b])
  {
    hide STOP_TOKENS;
    var p, q, u := r.pattern, Lower(r.pattern), Lower(s);
    var x := MatchPassesThrough(p, 0, a, s, j, r.anchorEnd);
    assert forall k :: a <= k < b ==> IsTokenByte(q[k]) && p[k] != '*' && p[k] != '^';
    LiteralRunMatches(p, a, b, s, x, r.anchorEnd);
    var y := x + (b - a);
    RunEndsAtBoundary(r, b, s, y);
    hide MatchesAt;
    LowerSlice(s, x, y);
    LowerSlice(p, a, b);
    assert x == 0 || !IsTokenByte(u[x - 1]);
    hide Lower;
    RunCarriesOver(q, a, b, u, x, y);
  }

  lemma RunCarriesOver(q: string, a: nat, b: nat, u: string, x: nat, y: nat)
    requires IsRun(q, a, b) && x <= y <= |u| && u[x..y] == q[a..b]
    requires (x == 0 || !IsTokenByte(u[x - 1])) && (y == |u| || !IsTokenByte(u[y]))
    ensures HasToken(u, q[a..b])
  {
    hide IsTokenByte;
    assert forall k :: x <= k < y ==> u[k] == u[x..y][k - x] == q[a..b][k - x];
    assert IsRun(u, x, y);
  }

  lemma RunEndsAtBoundary(r: NetRule, b: nat, s: string, y: nat)
    requires b <= |r.pattern| && y <= |s| && MatchesAt(r.pattern, b, s, y, r.anchorEnd)
    requires if b < |r.pattern| then Lower(r.pattern)[b] != '*' && !IsTokenByte(Lower(r.pattern)[b]) else r.anchorEnd
    ensures y == |s| || !IsTokenByte(Lower(s)[y])
  {
  }

  /** Host starts are token boundaries. */
  lemma HostStartIsBoundary(u: string, k: nat)
    requires IsHostStart(u, k)
    ensures k <= |u| && IsTokenBoundary(u, k)
  {
  }

  /** Token soundness: if a pattern rule matches a URL, under any anchoring and either case mode,
      then every usable run of its pattern is a whole token of the lowercased URL. */
  lemma TokenSoundness(o: Oracle, r: NetRule, c: Context, a: nat, b: nat)
    requires WellFormed(r) && r.hostOnly == "" && r.re.None?
    requires PatternApplies(o, r, c)
    requires IsUsable(r, IndexPattern(r), a, b)
    ensures HasToken(c.UrlLower(), IndexPattern(r)[a..b])
  {
    var s := Subject(r, c);
    assert Lower(s) == c.UrlLower() by { LowerIdempotent(c.url); }
    assert IndexPattern(r) == Lower(r.pattern);
    if r.anchorHost {
      var k: nat :| IsHostStart(c.UrlLower(), k) && MatchesAtOffset(r, s, k);
      HostStartIsBoundary(c.UrlLower(), k);
      UsableRunSurvives(r, a, b, s, k);
    } else if r.anchorStart {
      UsableRunSurvives(r, a, b, s, 0);
    } else {
      var k := Start(r.pattern, 0, s, 0, r.anchorEnd);
      UsableRunSurvives(r, a, b, s, k);
    }
  }

  // Buckets.

  datatype Bucket = HostBucket(host: string) | TokenBucket(token: string) | GenericBucket

  /** The bucket a rule is filed in. */
  ghost predicate GoesTo(r: NetRule, b: Bucket) {
    match b
    case HostBucket(h) => r.hostOnly != "" && r.hostOnly == h
    case TokenBucket(t) => r.hostOnly == "" && r.re.None? && t != "" && IsBestToken(r, t)
    case GenericBucket => r.hostOnly == "" && (r.re.Some? || IsBestToken(r, ""))
  }

  /** The rules filed in one bucket, in the order they were added. */
  ghost function Filed(rules: seq<NetRule>, b: Bucket): (filed: seq<NetRule>) {
    if rules == [] then []
    else Filed(rules[..|rules| - 1], b) + (if GoesTo(rules[|rules| - 1], b) then [rules[|rules| - 1]] else [])
  }

  lemma FiledAppend(rules: seq<NetRule>, r: NetRule, b: Bucket)
    ensures Filed(rules + [r], b) == Filed(rules, b) + (if GoesTo(r, b) then [r] else [])
  {
  }

  lemma BucketIsUnique(r: NetRule, b: Bucket, b': Bucket)
    requires GoesTo(r, b) && GoesTo(r, b')
    ensures b == b'
  {
    if b.TokenBucket? && b'.TokenBucket? {
      BestTokenIsUnique(r, b.token, b'.token);
    } else if b.TokenBucket? && b'.GenericBucket? {
      BestTokenIsUnique(r, b.token, "");
    } else if b.GenericBucket? && b'.TokenBucket? {
      BestTokenIsUnique(r, "", b'.token);
    }
  }

  /** Adding a rule changes its own bucket and no other. */
  lemma FileOne(rules: seq<NetRule>, r: NetRule, own: Bucket, b: Bucket)
    requires GoesTo(r, own)
    ensures Filed(rules + [r], b) == if b == own then Filed(rules, b) + [r] else Filed(rules, b)
  {
    FiledAppend(rules, r, b);
    if GoesTo(r, b) {
      BucketIsUnique(r, b, own);
    }
  }

  lemma {:induction false} FiledExact(rules: seq<NetRule>, r: NetRule, b: Bucket)
    ensures r in Filed(rules, b) <==> r in rules && GoesTo(r, b)
  {
    if rules != [] {
      FiledExact(rules[..|rules| - 1], r, b);
      assert rules == rules[..|rules| - 1] + [rules[|rules| - 1]];
    }
  }

  /** A request looks in the buckets of its host's parents, of its URL's tokens, and the generic one. */
  ghost predicate LooksIn(c: Context, b: Bucket) {
    match b
    case HostBucket(h) => h in Chain(c.host)
    case TokenBucket(t) => HasToken(c.UrlLower(), t) && |t| >= MIN_TOKEN_LEN && t !in STOP_TOKENS
    case GenericBucket => true
  }

  /** The index never hides a rule that applies. */
  lemma ApplicableIsReachable(o: Oracle, r: NetRule, c: Context, pageLevel: bool, b: Bucket)
    requires WellFormed(r) && Applies(o, r, c, pageLevel) && GoesTo(r, b)
    ensures LooksIn(c, b)
  {
    match b
    case HostBucket(h) =>
      DomainMatchesIsSubdomain(c.host, h);
      ChainIsMatches(c.host, h);
    case TokenBucket(t) =>
      var p := IndexPattern(r);
      var x: nat, y: nat :| IsBestRun(r, p, x, y) && t == p[x..y];
      TokenSoundness(o, r, c, x, y);
    case GenericBucket =>
  }
}
