/** The hostname shortcut: "||host^" is kept as a host to look up instead of a pattern. When is
    looking the host up the same as matching the pattern? */
module HostRules {
  import opened Wrappers
  import opened Text
  import opened Domains
  import opened Glob
  import opened Rules

  /** The guard under which the parser turns `||h^` into a hostname rule. */
  predicate IsHostOnly(h: string) {
    h != "" && NoneOf(h, "/*^|?=&:") && '.' in h
  }

  predicate IsHostByte(b: char) {
    'a' <= b <= 'z' || '0' <= b <= '9' || b == '.' || b == '_' || b == '-'
  }

  predicate AllHostBytes(s: string) {
    forall i :: 0 <= i < |s| ==> IsHostByte(s[i])
  }

  /** `u` is `scheme://host`, then an optional `:digits`, then an optional path, query or fragment.
      The host may be empty or end in a dot; there is no user information. */
  predicate IsUrl(u: string, scheme: string, host: string, port: string, rest: string) {
    && u == scheme + "://" + host + port + rest
    && NoneOf(scheme, ":")
    && AllHostBytes(host)
    && (port == "" || (port[0] == ':' && forall i :: 1 <= i < |port| ==> '0' <= port[i] <= '9'))
    && (rest == "" || rest[0] in "/?#")
  }

  /** The pattern `||p` matches `u`: at some host start, with nothing pinning its end. */
  ghost predicate HostPatternMatches(p: string, u: string) {
    exists k: nat :: IsHostStart(u, k) && k <= |u| && MatchesAt(p, 0, u, k, false)
  }

  lemma {:induction false} LiteralThenRest(p: string, i: nat, n: nat, u: string, k: nat)
    requires i <= n <= |p| && k <= |u|
    requires forall j :: i <= j < n ==> p[j] != '*' && p[j] != '^'
    ensures MatchesAt(p, i, u, k, false) <==> OccursAt(u, p[i..n], k) && MatchesAt(p, n, u, k + (n - i), false)
    decreases n - i
  {
    if i < n {
      assert p[i..n] == [p[i]] + p[i + 1..n];
      if k < |u| {
        LiteralThenRest(p, i + 1, n, u, k + 1);
        if k + (n - i) <= |u| {
          assert u[k..k + (n - i)] == [u[k]] + u[k + 1..k + (n - i)];
        }
      }
    }
  }

  predicate EndsHost(u: string, k: nat) {
    k == |u| || (k < |u| && IsSeparator(u[k]))
  }

  lemma HostThenSeparator(h: string, u: string, k: nat)
    requires NoneOf(h, "*^") && k <= |u|
    ensures MatchesAt(h + "^", 0, u, k, false) <==> OccursAt(u, h, k) && EndsHost(u, k + |h|)
  {
    var p := h + "^";
    LiteralThenRest(p, 0, |h|, u, k);
    assert p[0..|h|] == h;
    if OccursAt(u, h, k) {
      var e := k + |h|;
      assert e == |u| ==> MatchesAt(p, |h| + 1, u, e, false);
      assert e < |u| ==> MatchesAt(p, |h| + 1, u, e + 1, false);
    }
  }

  lemma BareHost(h: string, u: string, k: nat)
    requires NoneOf(h, "*^") && k <= |u|
    ensures MatchesAt(h, 0, u, k, false) <==> OccursAt(u, h, k)
  {
    LiteralThenRest(h, 0, |h|, u, k);
    assert h[0..|h|] == h;
  }

  lemma SchemeEndsFirst(u: string, scheme: string, tail: string)
    requires u == scheme + "://" + tail && NoneOf(scheme, ":")
    ensures Index(u, "://") == |scheme|
  {
    assert OccursAt(u, "://", |scheme|);
    forall k | 0 <= k < |scheme| ensures !OccursAt(u, "://", k) {
      assert u[k] == scheme[k] != ':';
    }
  }

  lemma EndsAtFirstOf(before: string, middle: string, after: string, cs: string)
    requires NoneOf(middle, cs) && (after == "" || after[0] in cs)
    ensures FirstOf(before + middle + after, cs, |before|) == |before| + |middle|
  {
    var s := before + middle + after;
    var i := FirstOf(s, cs, |before|);
    assert forall k :: |before| <= k < |before| + |middle| ==> s[k] == middle[k - |before|];
    if after != "" {
      assert s[|before| + |middle|] == after[0];
    }
  }

  /** Where the authority of a well-formed URL lies. */
  lemma AuthorityOf(u: string, scheme: string, host: string, port: string, rest: string)
    requires IsUrl(u, scheme, host, port, rest)
    ensures AuthorityStart(u) == Some(|scheme| + 3)
    ensures FirstOf(u, "/?#", |scheme| + 3) == |scheme| + 3 + |host| + |port|
  {
    assert u == scheme + "://" + (host + port + rest);
    SchemeEndsFirst(u, scheme, host + port + rest);
    assert u == (scheme + "://") + (host + port) + rest;
    EndsAtFirstOf(scheme + "://", host + port, rest, "/?#");
  }

  /** Host starts of a well-formed URL: the host itself and whatever follows one of its dots. */
  lemma HostStartsOf(u: string, scheme: string, host: string, port: string, rest: string, k: nat)
    requires IsUrl(u, scheme, host, port, rest)
    ensures var start := |scheme| + 3;
            IsHostStart(u, k) <==> k == start || (start < k <= start + |host| && host[k - start - 1] == '.')
  {
    AuthorityOf(u, scheme, host, port, rest);
    var start := |scheme| + 3;
    assert forall i :: start <= i < start + |host| ==> u[i] == host[i - start];
    assert forall i :: start + |host| <= i < start + |host| + |port| ==> u[i] == port[i - start - |host|];
  }

  /** What is looked up for a URL: its host less a final dot. Looking `h` up decides the pattern
      `||h` + `tail` on every well-formed URL; those whose host ends in a dot count if `dotted`. */
  ghost predicate LookupDecides(h: string, tail: string, dotted: bool) {
    forall u, scheme, host, port, rest :: IsUrl(u, scheme, host, port, rest) && IsHostEnd(host, dotted) ==>
      (HostPatternMatches(h + tail, u) <==> DomainMatches(TrimDot(host), h))
  }

  predicate IsHostEnd(host: string, dotted: bool) {
    dotted || !HasSuffix(host, ".")
  }

  /** `h` runs past the host of some URL: what is before its first '#' could be a host. */
  predicate HashAfterHost(h: string, dotted: bool) {
    exists i :: 0 <= i < |h| && h[i] == '#' && AllHostBytes(h[..i]) && IsHostEnd(h[..i], dotted)
  }

  predicate OnlyDots(h: string) {
    forall i :: 0 <= i < |h| ==> h[i] == '.'
  }

  // The pattern and the URL's own host, final dot and all.

  lemma HostOnlyIsPlain(h: string)
    requires IsHostOnly(h)
    ensures NoneOf(h, "*^")
  {
  }

  /** Where the host is, and that it ends at a separator or the end. */
  lemma HostLies(u: string, scheme: string, host: string, port: string, rest: string)
    requires IsUrl(u, scheme, host, port, rest)
    ensures var start := |scheme| + 3;
            start + |host| <= |u| && u[start..start + |host|] == host && EndsHost(u, start + |host|)
  {
  }

  lemma SpelledAt(h: string, u: string, k: nat)
    requires NoneOf(h, "*^") && IsHostStart(u, k) && k <= |u| && OccursAt(u, h, k)
    ensures HostPatternMatches(h, u) && (EndsHost(u, k + |h|) ==> HostPatternMatches(h + "^", u))
  {
    hide IsHostStart, NoneOf, MatchesAt;
    HostThenSeparator(h, u, k);
    BareHost(h, u, k);
  }

  lemma MatchIsOccurrence(h: string, tail: string, u: string, k: nat)
    requires NoneOf(h, "*^") && tail in {"", "^"} && k <= |u| && MatchesAt(h + tail, 0, u, k, false)
    ensures OccursAt(u, h, k) && (tail == "^" ==> EndsHost(u, k + |h|))
  {
    if tail == "^" {
      HostThenSeparator(h, u, k);
    } else {
      assert h + tail == h;
      BareHost(h, u, k);
    }
  }

  lemma MatchIsTail(host: string, h: string)
    requires DomainMatches(host, h)
    ensures |h| <= |host| && host[|host| - |h|..] == h && (|h| < |host| ==> host[|host| - |h| - 1] == '.')
  {
  }

  lemma InnerSlice(u: string, at: nat, s: string, i: nat, j: nat)
    requires at + |s| <= |u| && u[at..at + |s|] == s && i <= j <= |s|
    ensures u[at + i..at + j] == s[i..j]
  {
    forall k | 0 <= k < j - i ensures u[at + i..at + j][k] == s[i..j][k] {
      assert u[at..at + |s|][i + k] == s[i + k];
    }
  }

  lemma HostTailIsStart(u: string, scheme: string, host: string, port: string, rest: string, i: nat)
    requires IsUrl(u, scheme, host, port, rest) && i <= |host| && (i > 0 ==> host[i - 1] == '.')
    ensures |scheme| + 3 + i <= |u| && IsHostStart(u, |scheme| + 3 + i)
  {
    HostLies(u, scheme, host, port, rest);
    HostStartsOf(u, scheme, host, port, rest, |scheme| + 3 + i);
    hide IsUrl, IsHostStart;
  }

  lemma HostTailIsSpelled(h: string, u: string, scheme: string, host: string, port: string, rest: string, i: nat)
    requires IsUrl(u, scheme, host, port, rest) && i + |h| <= |host| && host[i..i + |h|] == h
    ensures OccursAt(u, h, |scheme| + 3 + i) && (i + |h| == |host| ==> EndsHost(u, |scheme| + 3 + i + |h|))
  {
    HostLies(u, scheme, host, port, rest);
    hide IsUrl, EndsHost;
    InnerSlice(u, |scheme| + 3, host, i, i + |h|);
  }

  /** The host, or what follows one of its dots: a place where `h` starts. */
  lemma HostTailOccurs(h: string, u: string, scheme: string, host: string, port: string, rest: string, cut: nat)
    requires IsUrl(u, scheme, host, port, rest) && cut <= |host| && DomainMatches(host[..cut], h)
    ensures var k := |scheme| + 3 + cut - |h|;
            0 <= k <= |u| && IsHostStart(u, k) && OccursAt(u, h, k)
            && (cut == |host| ==> EndsHost(u, k + |h|))
  {
    MatchIsTail(host[..cut], h);
    var i := cut - |h|;
    assert i > 0 ==> host[i - 1] == host[..cut][i - 1];
    assert host[i..cut] == host[..cut][i..];
    hide *;
    HostTailIsStart(u, scheme, host, port, rest, i);
    HostTailIsSpelled(h, u, scheme, host, port, rest, i);
  }

  lemma OwnHostImpliesPattern(h: string, u: string, scheme: string, host: string, port: string, rest: string)
    requires IsHostOnly(h) && IsUrl(u, scheme, host, port, rest) && DomainMatches(host, h)
    ensures HostPatternMatches(h + "^", u)
  {
    HostOnlyIsPlain(h);
    assert host[..|host|] == host;
    HostTailOccurs(h, u, scheme, host, port, rest, |host|);
    hide *;
    SpelledAt(h, u, |scheme| + 3 + |host| - |h|);
  }

  /** An occurrence of `h` that starts inside the host and ends beyond it runs over a '#'. */
  lemma OverrunIsHash(h: string, u: string, scheme: string, host: string, port: string, rest: string, k: nat, dotted: bool)
    requires IsHostOnly(h) && IsUrl(u, scheme, host, port, rest) && OccursAt(u, h, k) && IsHostEnd(host, dotted)
    requires |scheme| + 3 <= k <= |scheme| + 3 + |host| < k + |h|
    ensures HashAfterHost(h, dotted)
  {
    var start := |scheme| + 3;
    var i := start + |host| - k;
    assert forall j :: 0 <= j < |h| ==> h[j] == u[k..k + |h|][j] == u[k + j];
    assert forall j :: start <= j < start + |host| ==> u[j] == host[j - start];
    assert h[i] == u[k + i] == (port + rest)[0];
    assert AllHostBytes(h[..i]);
    assert h[..i] == host[|host| - i..];
  }

  lemma PatternImpliesOwnHost(h: string, u: string, scheme: string, host: string, port: string, rest: string, dotted: bool)
    requires IsHostOnly(h) && IsUrl(u, scheme, host, port, rest) && HostPatternMatches(h + "^", u)
    requires IsHostEnd(host, dotted) && !HashAfterHost(h, dotted)
    ensures DomainMatches(host, h)
  {
    var start := |scheme| + 3;
    var k: nat :| IsHostStart(u, k) && k <= |u| && MatchesAt(h + "^", 0, u, k, false);
    HostStartsOf(u, scheme, host, port, rest, k);
    HostOnlyIsPlain(h);
    MatchIsOccurrence(h, "^", u, k);
    hide IsHostOnly, IsUrl, DomainMatches, HashAfterHost, IsHostStart, MatchesAt, EndsHost, OccursAt, HostPatternMatches;
    if start + |host| < k + |h| {
      OverrunIsHash(h, u, scheme, host, port, rest, k, dotted);
    } else {
      SuffixOfHost(h, u, scheme, host, port, rest, k);
    }
  }

  lemma SuffixOfHost(h: string, u: string, scheme: string, host: string, port: string, rest: string, k: nat)
    requires IsUrl(u, scheme, host, port, rest) && OccursAt(u, h, k) && EndsHost(u, k + |h|)
    requires |scheme| + 3 <= k && k + |h| <= |scheme| + 3 + |host|
    requires k == |scheme| + 3 || host[k - |scheme| - 4] == '.'
    ensures DomainMatches(host, h)
  {
  }

  // What is looked up: the host less a final dot.

  /** Matching a host both with and without its final dot takes a domain of dots. */
  lemma DottedAndTrimmed(host: string, h: string)
    requires h != "" && HasSuffix(host, ".") && DomainMatches(TrimDot(host), h)
    ensures DomainMatches(host, h) <==> OnlyDots(h)
  {
    var t := TrimDot(host);
    TrimmedOff(host);
    MatchIsTail(t, h);
    if DomainMatches(host, h) {
      MatchIsTail(host, h);
      hide *;
      ShiftedByOne(t, host, h);
    }
    if OnlyDots(h) {
      hide *;
      DotsAgain(t, host, h);
    }
  }

  lemma TrimmedOff(host: string)
    requires HasSuffix(host, ".")
    ensures host == TrimDot(host) + "."
  {
  }

  lemma ShiftedByOne(t: string, host: string, h: string)
    requires host == t + "." && |h| <= |t| && t[|t| - |h|..] == h && host[|host| - |h|..] == h
    ensures OnlyDots(h)
  {
    var s := host[|t| - |h|..];
    assert s == t[|t| - |h|..] + "." && s[1..] == host[|host| - |h|..];
    assert s[..|h|] == h && s[1..] == h;
    assert s[|h|] == '.' && (h != "" ==> h[|h| - 1] == s[1..][|h| - 1] == s[|h|]);
    OneByteOnly(h, s);
  }

  lemma DotsAgain(t: string, host: string, h: string)
    requires host == t + "." && 0 < |h| <= |t| && t[|t| - |h|..] == h && OnlyDots(h)
    ensures DomainMatches(host, h)
  {
    assert t[|t| - |h|] == h[0] == '.';
    forall i | 0 <= i < |h| ensures host[|host| - |h|..][i] == h[i] {
      assert i < |h| - 1 ==> host[|host| - |h|..][i] == t[|t| - |h|..][i + 1];
    }
    assert host[|host| - |h|..] == h;
  }

  lemma {:induction false} OneByteOnly(h: string, s: string)
    requires |s| == |h| + 1 && s[..|h|] == h && s[1..] == h && (h != "" ==> h[|h| - 1] == '.')
    ensures OnlyDots(h)
  {
    if |h| > 1 {
      var n := |h| - 1;
      assert h[n - 1] == s[..|h|][n - 1] == s[n - 1] && s[n] == s[1..][n - 1] == h[n - 1];
      assert s[n] == s[..|h|][n] == h[n];
      assert s[..n + 1][..n] == h[..n] && s[..n + 1][1..] == s[1..][..n] == h[..n];
      OneByteOnly(h[..n], s[..n + 1]);
    }
  }

  lemma TrimmedIsHostBytes(host: string, h: string)
    requires AllHostBytes(host) && DomainMatches(TrimDot(host), h)
    ensures AllHostBytes(h)
  {
    var t := TrimDot(host);
    assert t <= host;
    assert h == t[|t| - |h|..];
  }

  lemma HostBytesHaveNoHash(h: string, dotted: bool)
    requires AllHostBytes(h)
    ensures !HashAfterHost(h, dotted)
  {
  }

  /** A lookup that succeeds implies the pattern matches, exactly when the host has no final dot:
      the dot is trimmed before the lookup, and no separator for the pattern. */
  lemma LookupImpliesPattern(h: string, u: string, scheme: string, host: string, port: string, rest: string)
    requires IsHostOnly(h) && IsUrl(u, scheme, host, port, rest) && DomainMatches(TrimDot(host), h)
    ensures HostPatternMatches(h + "^", u) <==> !HasSuffix(host, ".") || OnlyDots(h)
  {
    TrimmedIsHostBytes(host, h);
    HostBytesHaveNoHash(h, true);
    if HasSuffix(host, ".") {
      DottedAndTrimmed(host, h);
    }
    assert DomainMatches(host, h) <==> !HasSuffix(host, ".") || OnlyDots(h);
    hide IsHostOnly, IsUrl, DomainMatches, HashAfterHost, HostPatternMatches;
    PatternIsOwnHost(h, u, scheme, host, port, rest, true);
  }

  /** Apart from a '#', the pattern is about the URL's own host. */
  lemma PatternIsOwnHost(h: string, u: string, scheme: string, host: string, port: string, rest: string, dotted: bool)
    requires IsHostOnly(h) && IsUrl(u, scheme, host, port, rest) && IsHostEnd(host, dotted) && !HashAfterHost(h, dotted)
    ensures HostPatternMatches(h + "^", u) <==> DomainMatches(host, h)
  {
    hide *;
    if HostPatternMatches(h + "^", u) {
      PatternImpliesOwnHost(h, u, scheme, host, port, rest, dotted);
    }
    if DomainMatches(host, h) {
      OwnHostImpliesPattern(h, u, scheme, host, port, rest);
    }
  }

  /** Apart from a '#', the pattern matching implies the lookup succeeds if `h` has no final dot; if
      it has one, and is not all dots, the lookup fails then. */
  lemma PatternImpliesLookup(h: string, u: string, scheme: string, host: string, port: string, rest: string, dotted: bool)
    requires IsHostOnly(h) && IsUrl(u, scheme, host, port, rest) && HostPatternMatches(h + "^", u)
    requires IsHostEnd(host, dotted) && !HashAfterHost(h, dotted)
    ensures !HasSuffix(h, ".") ==> DomainMatches(TrimDot(host), h)
    ensures HasSuffix(h, ".") && !OnlyDots(h) ==> !DomainMatches(TrimDot(host), h)
  {
    PatternIsOwnHost(h, u, scheme, host, port, rest, dotted);
    LastOfMatch(host, h);
    if HasSuffix(h, ".") && DomainMatches(TrimDot(host), h) {
      DottedAndTrimmed(host, h);
    }
  }

  lemma LastOfMatch(host: string, h: string)
    requires h != "" && DomainMatches(host, h)
    ensures HasSuffix(host, ".") <==> HasSuffix(h, ".")
  {
  }

  /** On one request, for an `h` without a '#' after host bytes and without a final dot: lookup and
      pattern agree unless the host is `h` or below it and written with a final dot. */
  lemma AgreesUnlessDotted(h: string, u: string, scheme: string, host: string, port: string, rest: string, dotted: bool)
    requires IsHostOnly(h) && IsUrl(u, scheme, host, port, rest)
    requires IsHostEnd(host, dotted) && !HashAfterHost(h, dotted)
    ensures (HostPatternMatches(h + "^", u) <==> DomainMatches(TrimDot(host), h))
            <==> (DomainMatches(host, h) <==> DomainMatches(TrimDot(host), h))
    ensures !HasSuffix(h, ".") ==>
              ((HostPatternMatches(h + "^", u) <==> DomainMatches(TrimDot(host), h))
               <==> !(HasSuffix(host, ".") && DomainMatches(TrimDot(host), h)))
  {
    PatternIsOwnHost(h, u, scheme, host, port, rest, dotted);
    if DomainMatches(host, h) {
      LastOfMatch(host, h);
    }
    hide IsUrl, HashAfterHost, HostPatternMatches;
  }

  // Where they part ways.

  /** A host start from which `h` runs to the end of the URL. */
  lemma RunsToTheEnd(h: string, u: string, k: nat)
    requires NoneOf(h, "*^") && IsHostStart(u, k) && k <= |u| && u[k..] == h
    ensures HostPatternMatches(h + "^", u) && HostPatternMatches(h, u)
  {
    hide IsHostStart, HostPatternMatches, NoneOf;
    SpelledAt(h, u, k);
  }

  lemma HashIsNoHost(host: string, h: string, i: nat)
    requires AllHostBytes(host) && i < |h| && h[i] == '#'
    ensures !DomainMatches(TrimDot(host), h)
  {
    if DomainMatches(TrimDot(host), h) {
      TrimmedIsHostBytes(host, h);
    }
  }

  /** A URL that is `h` after the scheme. */
  lemma SpelledOut(h: string, scheme: string, host: string, rest: string) returns (u: string)
    requires IsHostOnly(h) && NoneOf(scheme, ":") && h == host + rest && AllHostBytes(host)
    requires rest == "" || rest[0] == '#'
    ensures u == scheme + "://" + h
    ensures IsUrl(u, scheme, host, "", rest) && HostPatternMatches(h + "^", u) && HostPatternMatches(h, u)
  {
    u := scheme + "://" + h;
    assert u == scheme + "://" + host + "" + rest;
    HostOnlyIsPlain(h);
    hide AllHostBytes, NoneOf, HostPatternMatches;
    assert IsUrl(u, scheme, host, "", rest);
    hide IsUrl;
    HostStartsOf(u, scheme, host, "", rest, |scheme| + 3);
    hide IsHostStart;
    assert u[|scheme| + 3..] == h;
    RunsToTheEnd(h, u, |scheme| + 3);
  }

  /** `h` runs past the host. */
  lemma HashSplits(h: string, scheme: string, dotted: bool) returns (u: string, host: string, rest: string)
    requires IsHostOnly(h) && HashAfterHost(h, dotted) && NoneOf(scheme, ":")
    ensures IsUrl(u, scheme, host, "", rest) && IsHostEnd(host, dotted)
    ensures HostPatternMatches(h + "^", u) && HostPatternMatches(h, u) && !DomainMatches(TrimDot(host), h)
  {
    var i :| 0 <= i < |h| && h[i] == '#' && AllHostBytes(h[..i]) && IsHostEnd(h[..i], dotted);
    host, rest := h[..i], h[i..];
    HashIsNoHost(host, h, i);
    hide DomainMatches, HostPatternMatches, IsUrl, IsHostOnly, AllHostBytes, NoneOf, IsHostEnd;
    u := SpelledOut(h, scheme, host, rest);
  }

  /** `h` is looked up and not matched when the host is `h` with a final dot, and matched but not
      looked up when it ends in a dot itself. */
  lemma DotSplits(h: string, scheme: string) returns (u: string, host: string)
    requires IsHostOnly(h) && AllHostBytes(h) && NoneOf(scheme, ":")
    ensures u == scheme + "://" + host && host == if HasSuffix(h, ".") then h else h + "."
    ensures IsUrl(u, scheme, host, "", "")
    ensures DomainMatches(TrimDot(host), h) <==> !HasSuffix(h, ".")
    ensures HostPatternMatches(h + "^", u) <==> HasSuffix(h, ".")
  {
    if HasSuffix(h, ".") {
      host := h;
      u := SpelledOut(h, scheme, h, "");
    } else {
      host := h + ".";
      u := scheme + "://" + host;
      assert u == scheme + "://" + host + "" + "";
      assert IsUrl(u, scheme, host, "", "") && TrimDot(host) == h;
      hide IsUrl, IsHostOnly;
      LookupImpliesPattern(h, u, scheme, host, "", "");
    }
  }

  /** Without '^' a longer last label is matched too. */
  lemma LabelSplits(h: string, scheme: string) returns (u: string, host: string)
    requires IsHostOnly(h) && AllHostBytes(h) && NoneOf(scheme, ":")
    ensures IsUrl(u, scheme, host, "", "") && !HasSuffix(host, ".") && HostPatternMatches(h, u) && !DomainMatches(TrimDot(host), h)
  {
    host := h + [if h[|h| - 1] == 'x' then 'y' else 'x'];
    assert !DomainMatches(host, h) by {
      assert host[1..][|h| - 1] != h[|h| - 1];
    }
    HostOnlyIsPlain(h);
    hide DomainMatches, AuthorityStart, HostPatternMatches, IsHostOnly;
    u := scheme + "://" + host + "" + "";
    HostStartsOf(u, scheme, host, "", "", |scheme| + 3);
    hide IsHostStart;
    assert OccursAt(u, h, |scheme| + 3);
    SpelledAt(h, u, |scheme| + 3);
  }

  /** The exact condition: looking the host up decides the pattern `||h^` on every well-formed URL if
      and only if no '#' of `h` comes right after what could be a host, and, where hosts may end in
      a dot, `h` is not made of host bytes; then neither ever succeeds. */
  lemma ShortcutIsExact(h: string, dotted: bool)
    requires IsHostOnly(h)
    ensures LookupDecides(h, "^", dotted) <==> !HashAfterHost(h, dotted) && (dotted ==> !AllHostBytes(h))
  {
    hide IsHostOnly, IsUrl, DomainMatches, HostPatternMatches, AllHostBytes, HashAfterHost, TrimDot, HasSuffix;
    if HashAfterHost(h, dotted) {
      var u, host, rest := HashSplits(h, "http", dotted);
    } else if AllHostBytes(h) && dotted {
      var u, host := DotSplits(h, "http");
    } else {
      forall u, scheme, host, port, rest | IsUrl(u, scheme, host, port, rest) && IsHostEnd(host, dotted)
        ensures HostPatternMatches(h + "^", u) <==> DomainMatches(TrimDot(host), h)
      {
        if dotted {
          NeverMatches(h, "^", u, scheme, host, port, rest, dotted);
        } else {
          PatternIsOwnHost(h, u, scheme, host, port, rest, dotted);
          NothingToTrim(host);
        }
      }
    }
  }

  lemma NothingToTrim(host: string)
    requires !HasSuffix(host, ".")
    ensures TrimDot(host) == host
  {
  }

  /** An occurrence of `h` that ends within the host is made of host bytes. */
  lemma InsideIsHostBytes(h: string, u: string, scheme: string, host: string, port: string, rest: string, k: nat)
    requires IsUrl(u, scheme, host, port, rest) && OccursAt(u, h, k)
    requires |scheme| + 3 <= k && k + |h| <= |scheme| + 3 + |host|
    ensures AllHostBytes(h)
  {
    HostLies(u, scheme, host, port, rest);
    var start := |scheme| + 3;
    hide IsUrl, IsHostByte;
    forall i | 0 <= i < |h| ensures IsHostByte(h[i]) {
      assert h[i] == u[k..k + |h|][i] == u[start..start + |host|][k - start + i];
    }
  }

  /** On a well-formed URL, `h` occurs at a host start only when it is host bytes, or host bytes up
      to a '#'. */
  lemma OccursAtHostStart(h: string, u: string, scheme: string, host: string, port: string, rest: string, k: nat, dotted: bool)
    requires IsHostOnly(h) && IsUrl(u, scheme, host, port, rest) && IsHostEnd(host, dotted)
    requires IsHostStart(u, k) && OccursAt(u, h, k)
    ensures AllHostBytes(h) || HashAfterHost(h, dotted)
  {
    HostStartsOf(u, scheme, host, port, rest, k);
    hide IsHostStart, IsUrl, IsHostOnly, AllHostBytes, HashAfterHost;
    if k + |h| <= |scheme| + 3 + |host| {
      InsideIsHostBytes(h, u, scheme, host, port, rest, k);
    } else {
      OverrunIsHash(h, u, scheme, host, port, rest, k, dotted);
    }
  }

  lemma NeverMatches(h: string, tail: string, u: string, scheme: string, host: string, port: string, rest: string, dotted: bool)
    requires IsHostOnly(h) && tail in {"", "^"} && IsUrl(u, scheme, host, port, rest) && IsHostEnd(host, dotted)
    requires !AllHostBytes(h) && !HashAfterHost(h, dotted)
    ensures !HostPatternMatches(h + tail, u) && !DomainMatches(TrimDot(host), h)
  {
    HostOnlyIsPlain(h);
    if DomainMatches(TrimDot(host), h) {
      TrimmedIsHostBytes(host, h);
    }
    hide IsHostOnly, IsUrl, DomainMatches, AllHostBytes, HashAfterHost, IsHostStart, NoneOf;
    if HostPatternMatches(h + tail, u) {
      var k: nat :| IsHostStart(u, k) && k <= |u| && MatchesAt(h + tail, 0, u, k, false);
      MatchIsOccurrence(h, tail, u, k);
      OccursAtHostStart(h, u, scheme, host, port, rest, k, dotted);
    }
  }

  /** Without the '^' the shortcut is sound, final dot or not: a lookup never finds what the pattern
      would not match. */
  lemma BareLookupIsSound(h: string, u: string, scheme: string, host: string, port: string, rest: string)
    requires IsHostOnly(h) && IsUrl(u, scheme, host, port, rest) && DomainMatches(TrimDot(host), h)
    ensures HostPatternMatches(h, u)
  {
    HostOnlyIsPlain(h);
    var t := TrimDot(host);
    assert host[..|t|] == t;
    HostTailOccurs(h, u, scheme, host, port, rest, |t|);
    hide *;
    SpelledAt(h, u, |scheme| + 3 + |t| - |h|);
  }

  /** The exact condition for `||h`: it also matches a longer last label, which the lookup does not,
      so lookup and pattern agree on every well-formed URL only where neither can ever match. */
  lemma BareShortcutIsExact(h: string, dotted: bool)
    requires IsHostOnly(h)
    ensures LookupDecides(h, "", dotted) <==> !HashAfterHost(h, dotted) && !AllHostBytes(h)
  {
    hide IsHostOnly, IsUrl, DomainMatches, HostPatternMatches, AllHostBytes, HashAfterHost, TrimDot, HasSuffix;
    assert h + "" == h;
    if HashAfterHost(h, dotted) {
      var u, host, rest := HashSplits(h, "http", dotted);
    } else if AllHostBytes(h) {
      var u, host := LabelSplits(h, "http");
    } else {
      forall u, scheme, host, port, rest | IsUrl(u, scheme, host, port, rest) && IsHostEnd(host, dotted)
        ensures HostPatternMatches(h + "", u) <==> DomainMatches(TrimDot(host), h)
      {
        NeverMatches(h, "", u, scheme, host, port, rest, dotted);
      }
    }
  }

  /** Why user information is kept out: the pattern matches in it, whatever host follows. */
  lemma UserInformationMatches(h: string, scheme: string, host: string)
    requires IsHostOnly(h) && NoneOf(scheme, ":")
    ensures HostPatternMatches(h + "^", scheme + "://" + h + "@" + host)
  {
    var u := scheme + "://" + h + "@" + host;
    assert u == scheme + "://" + (h + "@" + host);
    SchemeEndsFirst(u, scheme, h + "@" + host);
    HostOnlyIsPlain(h);
    assert u[|scheme| + 3..|scheme| + 3 + |h|] == h;
    assert u[|scheme| + 3 + |h|] == '@';
    assert IsHostStart(u, |scheme| + 3) && EndsHost(u, |scheme| + 3 + |h|);
    hide IsHostStart, HostPatternMatches, IsHostOnly, NoneOf, Index;
    SpelledAt(h, u, |scheme| + 3);
  }
}
