/** The hostname shortcut for whole rules: a rule that looks a host up, beside the same rule with its
    pattern kept, on requests whose URL names the request's host. */
module Shortcut {
  import opened Text
  import opened Domains
  import opened Glob
  import opened Rules
  import opened HostRules
  import Parser = RuleParser

  /** The rule the parser would have made without the shortcut; `tail` is "^" or nothing. */
  function PatternForm(r: NetRule, tail: string): NetRule {
    r.(hostOnly := "", pattern := r.hostOnly + tail, lit := LiteralPrefix(r.hostOnly + tail))
  }

  /** The context's URL is well formed and its host is the one looked up, final dot and all. */
  ghost predicate HasHost(c: Context, host: string) {
    && c.host == TrimDot(host)
    && exists scheme, port, rest :: IsUrl(c.UrlLower(), scheme, host, port, rest)
  }

  predicate IsLetter(b: char) {
    'a' <= b <= 'z' || 'A' <= b <= 'Z'
  }

  predicate HasLetter(s: string) {
    exists i :: 0 <= i < |s| && IsLetter(s[i])
  }

  /** Whether looking `h` up decides the pattern `||h` + `tail`: no '#' may follow what could be a
      host; and an `h` of host bytes needs its '^', hosts without a final dot and, in a case-sensitive
      rule, must have no letter or end in a dot, which no such host does. */
  predicate ShortcutHolds(h: string, tail: string, matchCase: bool, dotted: bool) {
    && !HashAfterHost(Lower(h), dotted)
    && (AllHostBytes(Lower(h)) ==>
          && tail == "^" && !dotted
          && (matchCase && HasLetter(h) ==> HasSuffix(h, ".")))
  }

  /** A shortcut rule as the parser makes it. */
  predicate IsShortcut(r: NetRule) {
    && IsHostOnly(r.hostOnly) && r.re.None? && r.anchorHost && !r.anchorEnd
    && (!r.matchCase ==> Lower(r.hostOnly) == r.hostOnly)
  }

  /** The rule and its pattern form agree on every request whose URL names its host; hosts that end in
      a dot count if `dotted`. */
  ghost predicate KeepsPattern(o: Oracle, r: NetRule, tail: string, dotted: bool) {
    forall req, host :: HasHost(ContextOf(o, req), host) && IsHostEnd(host, dotted) ==>
      (PatternApplies(o, r, ContextOf(o, req)) <==> PatternApplies(o, PatternForm(r, tail), ContextOf(o, req)))
  }

  /** The pattern matches `subject`, the URL or its lowercase form `u`, at a host start of `u`. */
  ghost predicate MatchesAtSome(p: string, subject: string, u: string) {
    exists k: nat :: IsHostStart(u, k) && k <= |subject| && MatchesAt(p, 0, subject, k, false)
  }

  lemma PatternFormMatches(o: Oracle, r: NetRule, tail: string, c: Context)
    requires IsShortcut(r)
    ensures PatternApplies(o, PatternForm(r, tail), c) <==> MatchesAtSome(r.hostOnly + tail, Subject(r, c), c.UrlLower())
  {
    hide MatchesAt, IsHostStart, LiteralPrefix;
    var q := PatternForm(r, tail);
    assert Subject(q, c) == Subject(r, c);
    if k: nat :| IsHostStart(c.UrlLower(), k) && MatchesAtOffset(q, Subject(q, c), k) {
      assert MatchesAtSome(r.hostOnly + tail, Subject(r, c), c.UrlLower());
    }
    if k: nat :| IsHostStart(c.UrlLower(), k) && k <= |Subject(r, c)| && MatchesAt(q.pattern, 0, Subject(r, c), k, false) {
      assert MatchesAtOffset(q, Subject(q, c), k);
    }
  }

  lemma LookupApplies(o: Oracle, r: NetRule, c: Context)
    requires IsShortcut(r)
    ensures PatternApplies(o, r, c) <==> DomainMatches(c.host, r.hostOnly)
  {
    DomainMatchesIsSubdomain(c.host, r.hostOnly);
  }

  // Letter case.

  lemma LowerKeepsGuard(h: string)
    requires IsHostOnly(h)
    ensures IsHostOnly(Lower(h)) && NoneOf(h, "*^")
  {
    var l := Lower(h);
    var dot :| 0 <= dot < |h| && h[dot] == '.';
    assert l[dot] == '.';
    forall i | 0 <= i < |l| ensures l[i] !in "/*^|?=&:" {
      GuardIsCaseless(h[i]);
    }
  }

  lemma GuardIsCaseless(b: char)
    requires b !in "/*^|?=&:"
    ensures LowerChar(b) !in "/*^|?=&:"
  {
  }

  lemma OccursLowered(h: string, s: string, k: nat)
    requires OccursAt(s, h, k)
    ensures OccursAt(Lower(s), Lower(h), k)
  {
    LowerSlice(s, k, k + |h|);
  }

  lemma EndsHostInAnyCase(s: string, k: nat)
    ensures EndsHost(s, k) <==> EndsHost(Lower(s), k)
  {
  }

  /** Letters aside, case does not matter. */
  lemma OccursWithoutLetters(h: string, s: string, k: nat)
    requires !HasLetter(h)
    ensures OccursAt(s, h, k) <==> OccursAt(Lower(s), h, k)
  {
    assert Lower(h) == h;
    if OccursAt(s, h, k) {
      OccursLowered(h, s, k);
    }
    if OccursAt(Lower(s), h, k) {
      forall i | 0 <= i < |h| ensures s[k + i] == h[i] {
        assert Lower(s)[k..k + |h|][i] == h[i] && !IsLetter(h[i]);
      }
    }
  }

  lemma CaselessPattern(h: string, s: string)
    requires !HasLetter(h) && NoneOf(h, "*^")
    ensures MatchesAtSome(h + "^", s, Lower(s)) <==> HostPatternMatches(h + "^", Lower(s))
  {
    hide NoneOf, HasLetter, OccursAt, EndsHost, IsHostStart;
    forall k: nat | k <= |s| ensures MatchesAt(h + "^", 0, s, k, false) <==> MatchesAt(h + "^", 0, Lower(s), k, false) {
      HostThenSeparator(h, s, k);
      HostThenSeparator(h, Lower(s), k);
      OccursWithoutLetters(h, s, k);
      EndsHostInAnyCase(s, k + |h|);
    }
    hide MatchesAt, Lower;
  }

  /** What matches in its own case matches in lower case. */
  lemma MatchLowered(h: string, tail: string, subject: string, u: string)
    requires NoneOf(h, "*^") && NoneOf(Lower(h), "*^") && tail in {"", "^"}
    requires Lower(subject) == u && MatchesAtSome(h + tail, subject, u)
    ensures HostPatternMatches(Lower(h) + tail, u)
  {
    hide IsHostStart, NoneOf, HostPatternMatches;
    var k: nat :| IsHostStart(u, k) && k <= |subject| && MatchesAt(h + tail, 0, subject, k, false);
    MatchIsOccurrence(h, tail, subject, k);
    OccursLowered(h, subject, k);
    EndsHostInAnyCase(subject, k + |h|);
    hide MatchesAt, OccursAt, EndsHost;
    SpelledAt(Lower(h), u, k);
    assert Lower(h) + "" == Lower(h);
  }

  lemma SubjectInLowerCase(r: NetRule, c: Context)
    requires IsShortcut(r)
    ensures Lower(Subject(r, c)) == c.UrlLower()
  {
    LowerIdempotent(c.url);
  }

  // When the condition holds.

  lemma HoldsOn(o: Oracle, r: NetRule, tail: string, c: Context, host: string, dotted: bool)
    requires IsShortcut(r) && tail in {"", "^"} && ShortcutHolds(r.hostOnly, tail, r.matchCase, dotted)
    requires HasHost(c, host) && IsHostEnd(host, dotted)
    ensures PatternApplies(o, r, c) <==> PatternApplies(o, PatternForm(r, tail), c)
  {
    var h, u := r.hostOnly, c.UrlLower();
    var scheme, port, rest :| IsUrl(u, scheme, host, port, rest);
    PatternFormMatches(o, r, tail, c);
    LookupApplies(o, r, c);
    if !AllHostBytes(Lower(h)) {
      NothingHolds(r, tail, c, scheme, host, port, rest, dotted);
    } else if HasSuffix(h, ".") {
      DottedHolds(r, c, scheme, host, port, rest);
    } else {
      PlainHolds(r, c, scheme, host, port, rest);
    }
    hide *;
  }

  lemma PlainHolds(r: NetRule, c: Context, scheme: string, host: string, port: string, rest: string)
    requires IsShortcut(r) && !(r.matchCase && HasLetter(r.hostOnly)) && !HashAfterHost(Lower(r.hostOnly), false)
    requires IsUrl(c.UrlLower(), scheme, host, port, rest) && c.host == TrimDot(host) && !HasSuffix(host, ".")
    ensures DomainMatches(c.host, r.hostOnly) <==> MatchesAtSome(r.hostOnly + "^", Subject(r, c), c.UrlLower())
  {
    var h, u := r.hostOnly, c.UrlLower();
    assert Lower(h) == h;
    LowerKeepsGuard(h);
    assert MatchesAtSome(h + "^", Subject(r, c), u) <==> HostPatternMatches(h + "^", u) by {
      if r.matchCase {
        CaselessPattern(h, c.url);
      }
    }
    NothingToTrim(host);
    hide IsUrl, MatchesAtSome, HostPatternMatches, DomainMatches, Lower;
    PatternIsOwnHost(h, u, scheme, host, port, rest, false);
  }

  /** A domain with a final dot is neither found nor matched when hosts have none. */
  lemma DottedHolds(r: NetRule, c: Context, scheme: string, host: string, port: string, rest: string)
    requires IsShortcut(r) && HasSuffix(r.hostOnly, ".") && !HashAfterHost(Lower(r.hostOnly), false)
    requires IsUrl(c.UrlLower(), scheme, host, port, rest) && c.host == TrimDot(host) && !HasSuffix(host, ".")
    ensures !DomainMatches(c.host, r.hostOnly) && !MatchesAtSome(r.hostOnly + "^", Subject(r, c), c.UrlLower())
  {
    var h, u := r.hostOnly, c.UrlLower();
    LowerKeepsGuard(h);
    assert HasSuffix(Lower(h), ".");
    NothingToTrim(host);
    if DomainMatches(host, h) {
      LastOfMatch(host, h);
    }
    SubjectInLowerCase(r, c);
    hide IsUrl, MatchesAtSome, HostPatternMatches, DomainMatches, Lower, HasSuffix, IsShortcut;
    if MatchesAtSome(h + "^", Subject(r, c), u) {
      HostOnlyIsPlain(Lower(h));
      MatchLowered(h, "^", Subject(r, c), u);
      PatternImpliesOwnHost(Lower(h), u, scheme, host, port, rest, false);
      NotEmpty(Lower(h));
      LastOfMatch(host, Lower(h));
    }
  }

  lemma NotEmpty(h: string)
    requires IsHostOnly(h)
    ensures h != ""
  {
  }

  lemma FoundIsHostBytes(host: string, h: string)
    requires AllHostBytes(host) && DomainMatches(TrimDot(host), h)
    ensures AllHostBytes(Lower(h))
  {
    TrimmedIsHostBytes(host, h);
  }

  lemma NothingHolds(r: NetRule, tail: string, c: Context, scheme: string, host: string, port: string, rest: string, dotted: bool)
    requires IsShortcut(r) && tail in {"", "^"} && !HashAfterHost(Lower(r.hostOnly), dotted) && !AllHostBytes(Lower(r.hostOnly))
    requires IsUrl(c.UrlLower(), scheme, host, port, rest) && c.host == TrimDot(host) && IsHostEnd(host, dotted)
    ensures !DomainMatches(c.host, r.hostOnly) && !MatchesAtSome(r.hostOnly + tail, Subject(r, c), c.UrlLower())
  {
    var h, u := r.hostOnly, c.UrlLower();
    LowerKeepsGuard(h);
    if DomainMatches(c.host, h) {
      FoundIsHostBytes(host, h);
    }
    SubjectInLowerCase(r, c);
    HostOnlyIsPlain(Lower(h));
    hide IsShortcut, IsUrl, MatchesAtSome, HostPatternMatches, DomainMatches, HashAfterHost, AllHostBytes, Lower;
    NeverMatches(Lower(h), tail, u, scheme, host, port, rest, dotted);
    if MatchesAtSome(h + tail, Subject(r, c), u) {
      MatchLowered(h, tail, Subject(r, c), u);
    }
  }

  // When it does not.

  function UpperChar(b: char): char {
    if 'a' <= b <= 'z' then b - 'a' + 'A' else b
  }

  function Upper(s: string): (r: string)
    ensures |r| == |s|
    ensures forall i :: 0 <= i < |s| ==> r[i] == UpperChar(s[i])
  {
    seq(|s|, i requires 0 <= i < |s| => UpperChar(s[i]))
  }

  /** The request for the URL that is `scheme`, `host` and `rest`. */
  function RequestFor(scheme: string, host: string, rest: string): Request {
    Request(scheme + "://" + host + rest, host, "", "", "")
  }

  predicate IsScheme(scheme: string) {
    NoneOf(scheme, ":") && Lower(scheme) == scheme
  }

  lemma TrimLowered(host: string)
    ensures Lower(TrimDot(host)) == TrimDot(Lower(host))
  {
  }

  /** The request names its own host. */
  lemma RequestHasHost(o: Oracle, scheme: string, host: string, rest: string)
    requires IsScheme(scheme) && AllHostBytes(Lower(host)) && (rest == "" || rest[0] in "/?#")
    ensures var c := ContextOf(o, RequestFor(scheme, host, rest));
            IsUrl(c.UrlLower(), scheme, Lower(host), "", Lower(rest)) && HasHost(c, Lower(host))
  {
    var c := ContextOf(o, RequestFor(scheme, host, rest));
    var u := scheme + "://" + Lower(host) + "" + Lower(rest);
    TrimLowered(host);
    assert Lower("://") == "://";
    assert c.UrlLower() == u;
    assert rest != "" ==> Lower(rest)[0] == rest[0];
    hide Lower, AllHostBytes, NoneOf, TrimDot;
    assert IsUrl(c.UrlLower(), scheme, Lower(host), "", Lower(rest));
  }

  /** `h` spelled right after the scheme, and to the end of the URL where the pattern needs that. */
  lemma SpelledIsMatched(o: Oracle, r: NetRule, tail: string, scheme: string, host: string, rest: string)
    requires IsShortcut(r) && tail in {"", "^"} && NoneOf(r.hostOnly, "*^")
    requires IsScheme(scheme) && AllHostBytes(Lower(host)) && (rest == "" || rest[0] in "/?#")
    requires r.hostOnly <= host + rest && (tail == "^" ==> r.hostOnly == host + rest)
    ensures var c := ContextOf(o, RequestFor(scheme, host, rest));
            MatchesAtSome(r.hostOnly + tail, Subject(r, c), c.UrlLower())
  {
    var c, k := ContextOf(o, RequestFor(scheme, host, rest)), |scheme| + 3;
    RequestHasHost(o, scheme, host, rest);
    HostStartsOf(c.UrlLower(), scheme, Lower(host), "", Lower(rest), k);
    SpelledFrom(scheme, host, rest, r.hostOnly);
    OccursInSubject(r, c, k);
    hide *;
    OccurrenceIsMatch(r.hostOnly, tail, Subject(r, c), c.UrlLower(), k);
  }

  lemma SpelledFrom(scheme: string, host: string, rest: string, h: string)
    requires h <= host + rest
    ensures OccursAt(scheme + "://" + host + rest, h, |scheme| + 3)
  {
    var url := scheme + "://" + host + rest;
    assert url == scheme + "://" + (host + rest);
    assert url[|scheme| + 3..|scheme| + 3 + |h|] == (host + rest)[..|h|];
  }

  lemma OccurrenceIsMatch(h: string, tail: string, subject: string, u: string, k: nat)
    requires NoneOf(h, "*^") && tail in {"", "^"} && IsHostStart(u, k) && OccursAt(subject, h, k)
    requires tail == "^" ==> k + |h| == |subject|
    ensures MatchesAtSome(h + tail, subject, u)
  {
    hide IsHostStart, NoneOf;
    if tail == "^" {
      HostThenSeparator(h, subject, k);
    } else {
      assert h + tail == h;
      BareHost(h, subject, k);
    }
  }

  /** A shortcut rule's host occurs in its subject wherever it occurs in the URL. */
  lemma OccursInSubject(r: NetRule, c: Context, k: nat)
    requires IsShortcut(r) && OccursAt(c.url, r.hostOnly, k)
    ensures |Subject(r, c)| == |c.url| && OccursAt(Subject(r, c), r.hostOnly, k)
  {
    OccursLowered(r.hostOnly, c.url, k);
  }

  /** The rule and its pattern form part ways on a request. */
  ghost predicate Diverges(o: Oracle, r: NetRule, tail: string, req: Request) {
    var c := ContextOf(o, req);
    DomainMatches(c.host, r.hostOnly) <==> !MatchesAtSome(r.hostOnly + tail, Subject(r, c), c.UrlLower())
  }

  lemma SplitAtHash(h: string, dotted: bool) returns (host: string, rest: string)
    requires HashAfterHost(Lower(h), dotted)
    ensures h == host + rest && rest != "" && rest[0] == '#'
    ensures AllHostBytes(Lower(host)) && IsHostEnd(Lower(host), dotted)
  {
    var l := Lower(h);
    hide AllHostBytes, IsHostEnd;
    var i :| 0 <= i < |l| && l[i] == '#' && AllHostBytes(l[..i]) && IsHostEnd(l[..i], dotted);
    host, rest := h[..i], h[i..];
    LowerSlice(h, 0, i);
    assert l[..i] == l[0..i] && h[..i] == h[0..i];
  }

  /** The '#' case: `h` runs past the host. */
  lemma HashDiverges(o: Oracle, r: NetRule, tail: string, scheme: string, dotted: bool) returns (host: string, rest: string)
    requires IsShortcut(r) && tail in {"", "^"} && HashAfterHost(Lower(r.hostOnly), dotted) && IsScheme(scheme)
    ensures HasHost(ContextOf(o, RequestFor(scheme, host, rest)), Lower(host)) && IsHostEnd(Lower(host), dotted)
    ensures Diverges(o, r, tail, RequestFor(scheme, host, rest))
  {
    var h := r.hostOnly;
    LowerKeepsGuard(h);
    host, rest := SplitAtHash(h, dotted);
    HashIsNoHost(Lower(host), h, |host|);
    TrimLowered(host);
    hide IsShortcut, HasHost, MatchesAtSome, Subject, DomainMatches, IsUrl, AllHostBytes, IsHostOnly, NoneOf, IsHostEnd, Lower, TrimDot;
    RequestHasHost(o, scheme, host, rest);
    SpelledIsMatched(o, r, tail, scheme, host, rest);
  }

  lemma LongerHost(h: string) returns (host: string)
    requires IsHostOnly(h) && AllHostBytes(Lower(h))
    ensures h <= host && AllHostBytes(Lower(host)) && !HasSuffix(Lower(host), ".") && !DomainMatches(Lower(host), h)
  {
    var x := if h[|h| - 1] == 'x' then 'y' else 'x';
    host := h + [x];
    var longer := Lower(host);
    assert longer == Lower(h) + [x];
    assert longer[1..][|h| - 1] == x;
    assert longer[|h|..][0] == x;
  }

  /** Without '^' a longer last label matches too. */
  lemma LabelDiverges(o: Oracle, r: NetRule, scheme: string) returns (host: string)
    requires IsShortcut(r) && AllHostBytes(Lower(r.hostOnly)) && IsScheme(scheme)
    ensures HasHost(ContextOf(o, RequestFor(scheme, host, "")), Lower(host)) && !HasSuffix(Lower(host), ".")
    ensures Diverges(o, r, "", RequestFor(scheme, host, ""))
  {
    var h := r.hostOnly;
    LowerKeepsGuard(h);
    host := LongerHost(h);
    TrimLowered(host);
    NothingToTrim(Lower(host));
    assert h <= host + "";
    hide HasHost, MatchesAtSome, Subject, DomainMatches, IsUrl, IsShortcut, AllHostBytes, IsHostOnly, NoneOf, Lower, TrimDot, HasSuffix, IsScheme;
    RequestHasHost(o, scheme, host, "");
    SpelledIsMatched(o, r, "", scheme, host, "");
  }

  /** The final dot: for every domain a rule can name, a request for it written with a final dot is
      found by the lookup, which trims the dot, and not matched by the pattern. */
  lemma FinalDotDiverges(o: Oracle, r: NetRule, scheme: string)
    requires IsShortcut(r) && AllHostBytes(r.hostOnly) && !HasSuffix(r.hostOnly, ".") && IsScheme(scheme)
    ensures var c := ContextOf(o, RequestFor(scheme, r.hostOnly + ".", ""));
            && HasHost(c, r.hostOnly + ".")
            && PatternApplies(o, r, c) && !PatternApplies(o, PatternForm(r, "^"), c)
    ensures Diverges(o, r, "^", RequestFor(scheme, r.hostOnly + ".", ""))
  {
    var h := r.hostOnly;
    var c := ContextOf(o, RequestFor(scheme, h + ".", ""));
    LowerKeepsGuard(h);
    LowerIsSame(h);
    LowerIsSame(h + ".");
    RequestHasHost(o, scheme, h + ".", "");
    assert TrimDot(h + ".") == h;
    LookupApplies(o, r, c);
    PatternFormMatches(o, r, "^", c);
    SubjectInLowerCase(r, c);
    hide IsShortcut, HasHost, MatchesAtSome, Subject, IsUrl, AllHostBytes, IsHostOnly, NoneOf, PatternApplies, HostPatternMatches, OnlyDots;
    NotOnlyDots(h);
    LookupImpliesPattern(h, c.UrlLower(), scheme, h + ".", "", Lower(""));
    if MatchesAtSome(h + "^", Subject(r, c), c.UrlLower()) {
      MatchLowered(h, "^", Subject(r, c), c.UrlLower());
    }
  }

  lemma NotOnlyDots(h: string)
    requires IsHostOnly(h) && !HasSuffix(h, ".")
    ensures !OnlyDots(h)
  {
    assert h[|h| - 1..] != ".";
  }

  lemma LowerIsSame(h: string)
    requires AllHostBytes(h)
    ensures Lower(h) == h
  {
  }

  /** A domain with a final dot, or with capitals, matches its own spelling and is never looked up. */
  lemma OwnSpellingDiverges(o: Oracle, r: NetRule, tail: string, scheme: string)
    requires IsShortcut(r) && tail in {"", "^"} && AllHostBytes(Lower(r.hostOnly)) && IsScheme(scheme)
    requires HasSuffix(r.hostOnly, ".") || Lower(r.hostOnly) != r.hostOnly
    ensures HasHost(ContextOf(o, RequestFor(scheme, r.hostOnly, "")), Lower(r.hostOnly))
    ensures HasSuffix(Lower(r.hostOnly), ".") <==> HasSuffix(r.hostOnly, ".")
    ensures Diverges(o, r, tail, RequestFor(scheme, r.hostOnly, ""))
  {
    var h := r.hostOnly;
    LowerKeepsGuard(h);
    assert !DomainMatches(TrimDot(Lower(h)), h);
    assert h[|h| - 1..] == "." <==> h[|h| - 1] == '.';
    TrimLowered(h);
    hide IsShortcut, HasHost, MatchesAtSome, Subject, IsUrl, AllHostBytes, IsHostOnly, NoneOf, DomainMatches, TrimDot;
    assert h + "" == h;
    RequestHasHost(o, scheme, h, "");
    SpelledIsMatched(o, r, tail, scheme, h, "");
  }

  /** With case to match, a host written in capitals is looked up but not matched. */
  lemma CapitalsDiverge(o: Oracle, r: NetRule, scheme: string)
    requires IsShortcut(r) && AllHostBytes(r.hostOnly) && r.matchCase && HasLetter(r.hostOnly) && !HasSuffix(r.hostOnly, ".")
    requires IsScheme(scheme)
    ensures HasHost(ContextOf(o, RequestFor(scheme, Upper(r.hostOnly), "")), r.hostOnly) && Lower(Upper(r.hostOnly)) == r.hostOnly
    ensures Diverges(o, r, "^", RequestFor(scheme, Upper(r.hostOnly), ""))
  {
    var h := r.hostOnly;
    LowerIsSame(h);
    assert Lower(Upper(h)) == h;
    RequestHasHost(o, scheme, Upper(h), "");
    TrimLowered(Upper(h));
    NothingToTrim(h);
    var c := ContextOf(o, RequestFor(scheme, Upper(h), ""));
    assert Subject(r, c) == c.url;
    hide HasHost, MatchesAtSome, Subject, IsUrl, AllHostBytes, NoneOf, HasLetter, Upper, TrimDot, HasSuffix;
    if MatchesAtSome(h + "^", c.url, c.UrlLower()) {
      CapitalsDoNotMatch(h, scheme, c.url, c.UrlLower());
    }
  }

  lemma CapitalsDoNotMatch(h: string, scheme: string, url: string, u: string)
    requires IsHostOnly(h) && Lower(h) == h && HasLetter(h) && url == scheme + "://" + Upper(h) + ""
    requires Lower(url) == u && IsUrl(u, scheme, h, "", Lower(""))
    ensures !MatchesAtSome(h + "^", url, u)
  {
    LowerKeepsGuard(h);
    CapitalsDiffer(h);
    hide IsHostOnly, NoneOf, HasLetter, Upper, Lower;
    if MatchesAtSome(h + "^", url, u) {
      var k: nat :| IsHostStart(u, k) && k <= |url| && MatchesAt(h + "^", 0, url, k, false);
      HostStartsOf(u, scheme, h, "", Lower(""), k);
      HostThenSeparator(h, url, k);
      FillsTheEnd(scheme + "://", Upper(h), h, k);
    }
  }

  lemma CapitalsDiffer(h: string)
    requires HasLetter(h) && Lower(h) == h
    ensures Upper(h) != h
  {
    var i :| 0 <= i < |h| && IsLetter(h[i]);
    assert Lower(h)[i] == h[i] != Upper(h)[i];
  }

  lemma FillsTheEnd(before: string, last: string, h: string, k: nat)
    requires |last| == |h| && |before| <= k && OccursAt(before + last + "", h, k)
    ensures last == h
  {
    assert k == |before|;
    assert (before + last + "")[k..k + |h|] == last;
  }

  /** A request on which the rule and its pattern form part ways, where the condition fails. */
  lemma SomeDiverge(o: Oracle, r: NetRule, tail: string, scheme: string, dotted: bool) returns (req: Request, host: string)
    requires IsShortcut(r) && tail in {"", "^"} && !ShortcutHolds(r.hostOnly, tail, r.matchCase, dotted) && IsScheme(scheme)
    ensures HasHost(ContextOf(o, req), host) && IsHostEnd(host, dotted)
    ensures Diverges(o, r, tail, req)
  {
    var h, spelled, rest := r.hostOnly, r.hostOnly, "";
    hide HasHost, Diverges, HashAfterHost, IsUrl, HasLetter;
    if HashAfterHost(Lower(h), dotted) {
      spelled, rest := HashDiverges(o, r, tail, scheme, dotted);
    } else if tail == "" {
      spelled := LabelDiverges(o, r, scheme);
    } else if (HasSuffix(h, ".") && dotted) || Lower(h) != h {
      OwnSpellingDiverges(o, r, tail, scheme);
    } else if dotted {
      LowerIsSame(h);
      LowerIsSame(h + ".");
      FinalDotDiverges(o, r, scheme);
      spelled := h + ".";
    } else {
      CapitalsDiverge(o, r, scheme);
      spelled := Upper(h);
    }
    req, host := RequestFor(scheme, spelled, rest), Lower(spelled);
  }

  /** The exact condition, for every rule the parser makes into a lookup, with or without `match-case`:
      on all requests whose URL names their host, with or without those whose host ends in a dot, the
      lookup decides the pattern if and only if `ShortcutHolds`. */
  lemma ShortcutKeepsRules(o: Oracle, r: NetRule, tail: string, dotted: bool)
    requires IsShortcut(r) && tail in {"", "^"}
    ensures KeepsPattern(o, r, tail, dotted) <==> ShortcutHolds(r.hostOnly, tail, r.matchCase, dotted)
  {
    hide PatternApplies, HasHost, MatchesAtSome, DomainMatches, HashAfterHost, AllHostBytes, HasLetter, ContextOf, IsHostEnd;
    if ShortcutHolds(r.hostOnly, tail, r.matchCase, dotted) {
      forall req, host | HasHost(ContextOf(o, req), host) && IsHostEnd(host, dotted)
        ensures PatternApplies(o, r, ContextOf(o, req)) <==> PatternApplies(o, PatternForm(r, tail), ContextOf(o, req))
      {
        HoldsOn(o, r, tail, ContextOf(o, req), host, dotted);
      }
    } else {
      SchemeOfWeb();
      var req, host := SomeDiverge(o, r, tail, "http", dotted);
      PatternFormMatches(o, r, tail, ContextOf(o, req));
      LookupApplies(o, r, ContextOf(o, req));
    }
  }

  lemma SchemeOfWeb()
    ensures IsScheme("http")
  {
  }

  /** With its options, a rule kept as a lookup does what it would do with its pattern, except that one
      without types also applies to navigations, and its pattern form never does. */
  lemma ShortcutKeepsAnswers(o: Oracle, r: NetRule, tail: string, req: Request, host: string, dotted: bool, pageLevel: bool)
    requires IsShortcut(r) && tail in {"", "^"} && ShortcutHolds(r.hostOnly, tail, r.matchCase, dotted)
    requires HasHost(ContextOf(o, req), host) && IsHostEnd(host, dotted)
    ensures var c, navigates := ContextOf(o, req), r.types == {} && ParseType(req.typ) == Document && !pageLevel;
            && (!navigates ==> (Applies(o, r, c, pageLevel) <==> Applies(o, PatternForm(r, tail), c, pageLevel)))
            && (navigates ==> !Applies(o, PatternForm(r, tail), c, pageLevel))
            && (navigates ==> (Applies(o, r, c, pageLevel) <==>
                  PartyApplies(r, c) && DomainsApply(r, c) && PatternApplies(o, PatternForm(r, tail), c)))
  {
    HoldsOn(o, r, tail, ContextOf(o, req), host, dotted);
    NotEmpty(r.hostOnly);
    hide HasHost, PatternApplies, ShortcutHolds, IsHostEnd;
  }

  /** Every kept line that became a lookup is of this kind, and `tail` is what its pattern had after the host. */
  lemma LookupsAreShortcuts(r: NetRule, text: string) returns (tail: string)
    requires Parser.IsRuleOf(r, text) && r.hostOnly != ""
    ensures IsShortcut(r) && tail in {"", "^"}
    ensures var body := Parser.Halves(text).0;
            HasPrefix(body, "||") && (if r.matchCase then body[2..] else Lower(body[2..])) == r.hostOnly + tail
  {
    hide Parser.Halves, Parser.Carries, Parser.HasForm, IsShortcut, HasPrefix;
    tail := FormIsShortcut(r, Parser.Halves(text).0);
  }

  lemma FormIsShortcut(r: NetRule, body: string) returns (tail: string)
    requires Parser.HasForm(r, body) && r.hostOnly != ""
    ensures IsShortcut(r) && tail in {"", "^"}
    ensures HasPrefix(body, "||") && (if r.matchCase then body[2..] else Lower(body[2..])) == r.hostOnly + tail
  {
    var p := Parser.Unanchored(body);
    var pattern := if r.matchCase then p else Lower(p);
    hide IsHostOnly, Parser.IsRegex, Parser.Unanchored, LiteralPrefix, TrimSuffix;
    assert body == "||" + p by {
      assert "||" + p + "" == "||" + p;
    }
    assert body[2..] == p;
    tail := Suffix(pattern);
    LowerIdempotent(p);
    LowerSlice(pattern, 0, |r.hostOnly|);
    hide Lower;
  }

  lemma Suffix(pattern: string) returns (tail: string)
    ensures tail in {"", "^"} && pattern == TrimSuffix(pattern, "^") + tail
    ensures TrimSuffix(pattern, "^") == pattern[0..|TrimSuffix(pattern, "^")|]
  {
    tail := if HasSuffix(pattern, "^") then "^" else "";
  }
}
