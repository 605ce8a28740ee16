/** Network filter rules: what a rule says about one request, and the code that decides it. */
module Rules {
  import opened Wrappers
  import opened Text
  import opened Domains
  import opened Glob
  import opened Tokens

  datatype ResourceType =
    | Document | Subdocument | Script | Stylesheet | Image | Font | Media | XHR | Object | Ping | Websocket | Other

  const ALL_BUT_DOCUMENT: set<ResourceType> :=
    {Subdocument, Script, Stylesheet, Image, Font, Media, XHR, Object, Ping, Websocket, Other}

  const ALL_TYPES: set<ResourceType> := ALL_BUT_DOCUMENT + {Document}

  const TYPE_NAMES: map<string, ResourceType> := map[
    "document" := Document, "doc" := Document,
    "subdocument" := Subdocument, "frame" := Subdocument,
    "script" := Script,
    "stylesheet" := Stylesheet, "css" := Stylesheet,
    "image" := Image,
    "font" := Font,
    "media" := Media,
    "xmlhttprequest" := XHR, "xhr" := XHR,
    "object" := Object, "object-subrequest" := Object,
    "ping" := Ping, "beacon" := Ping,
    "websocket" := Websocket,
    "other" := Other
  ]

  function ParseType(s: string): ResourceType {
    if Lower(s) in TYPE_NAMES then TYPE_NAMES[Lower(s)] else Other
  }

  /** The two libraries the engine consults: RE2 (does this expression compile, does it match
      this URL) and the public suffix list. */
  datatype Oracle = Oracle(
    compiles: string -> bool, regexMatches: (string, string) -> bool, registrable: string -> string)

  /** One parsed network filter; an empty set of types is the default set. */
  datatype NetRule = NetRule(
    raw: string,
    exception: bool,
    important: bool,
    matchCase: bool,
    hostOnly: string,
    re: Option<string>,
    pattern: string,
    anchorHost: bool,
    anchorStart: bool,
    anchorEnd: bool,
    lit: string,
    types: set<ResourceType>,
    thirdParty: int,
    domains: seq<string>,
    notDomains: seq<string>,
    elemHide: bool,
    genericHide: bool)

  /** The pattern up to its first '*' or '^'. */
  function LiteralPrefix(pattern: string): string {
    pattern[..FirstOf(pattern, "*^", 0)]
  }

  /** What the parser guarantees of every rule it keeps. */
  predicate WellFormed(r: NetRule) {
    && (r.hostOnly != "" ==> r.re.None?)
    && (r.hostOnly != "" || r.re.Some? ==> r.pattern == "" && r.lit == "")
    && !(r.anchorHost && r.anchorStart)
    && r.lit == LiteralPrefix(r.pattern)
    && (!r.matchCase ==> Lower(r.pattern) == r.pattern)
    && (r.elemHide || r.genericHide ==> r.exception && r.types != {})
    && r.thirdParty in {-1, 0, 1}
  }

  datatype Request = Request(url: string, host: string, sourceHost: string, sourceURL: string, typ: string)

  /** What a request looks like to a rule. */
  datatype Context = Context(
    url: string, host: string, sourceURL: string, sourceHost: string, typ: ResourceType, thirdParty: bool)
  {
    function UrlLower(): string { Lower(url) }

    /** The host a `domain=` option is about. */
    function Source(): string {
      if sourceHost == "" || typ == Document then host else sourceHost
    }
  }

  function ContextOf(o: Oracle, req: Request): Context {
    var host := Lower(TrimDot(req.host));
    var sourceHost := Lower(req.sourceHost);
    Context(req.url, host, req.sourceURL, sourceHost, ParseType(req.typ),
            sourceHost != "" && host != "" && o.registrable(host) != o.registrable(sourceHost))
  }

  /** Where page-level exceptions are looked for: a navigation is a page itself, any other request
      belongs to the page it names, if it names one. */
  function PageContext(o: Oracle, c: Context): Option<Context> {
    if c.typ == Document then Some(c)
    else if c.sourceURL == "" then None
    else Some(ContextOf(o, Request(c.sourceURL, c.sourceHost, "", "", "document")))
  }

  /** Where the authority of `u` begins and ends, when there is one. */
  function AuthorityStart(u: string): (start: Option<nat>)
    ensures start.Some? ==> 3 <= start.value <= |u|
  {
    if Index(u, "://") >= 0 then Some(Index(u, "://") + 3) else None
  }

  /** `k` begins a host label: the authority itself, or the byte after one of its '.' and '@'. */
  predicate IsHostStart(u: string, k: int) {
    var start := AuthorityStart(u);
    && start.Some?
    && (|| k == start.value
        || (start.value < k <= FirstOf(u, "/?#", start.value) && (u[k - 1] == '.' || u[k - 1] == '@')))
  }

  lemma HostStartInside(u: string, k: int)
    requires IsHostStart(u, k)
    ensures 0 <= k <= |u|
  {
  }

  // What a rule means.

  predicate TypeApplies(r: NetRule, c: Context, pageLevel: bool) {
    if r.types != {} then c.typ in r.types
    else c.typ == Document && r.hostOnly == "" ==> pageLevel
  }

  predicate PartyApplies(r: NetRule, c: Context) {
    && (r.thirdParty == 1 ==> c.thirdParty)
    && (r.thirdParty == -1 ==> !c.thirdParty)
  }

  ghost predicate DomainsApply(r: NetRule, c: Context) {
    && (forall d :: d in r.notDomains ==> !IsSubdomain(c.Source(), d))
    && (r.domains == [] || exists d :: d in r.domains && IsSubdomain(c.Source(), d))
  }

  function Subject(r: NetRule, c: Context): string {
    if r.matchCase then c.url else c.UrlLower()
  }

  ghost predicate MatchesAtOffset(r: NetRule, subject: string, k: nat) {
    k <= |subject| && MatchesAt(r.pattern, 0, subject, k, r.anchorEnd)
  }

  ghost predicate MatchesAtHostStart(r: NetRule, c: Context) {
    exists k: nat :: IsHostStart(c.UrlLower(), k) && MatchesAtOffset(r, Subject(r, c), k)
  }

  ghost predicate PatternApplies(o: Oracle, r: NetRule, c: Context) {
    if r.hostOnly != "" then IsSubdomain(c.host, r.hostOnly)
    else if r.re.Some? then o.regexMatches(r.re.value, c.url)
    else if r.anchorHost then MatchesAtHostStart(r, c)
    else Glob.Matches(r.pattern, Subject(r, c), r.anchorStart, r.anchorEnd)
  }

  /** The rule applies to the request: the declarative meaning of one filter line. */
  ghost predicate Applies(o: Oracle, r: NetRule, c: Context, pageLevel: bool) {
    TypeApplies(r, c, pageLevel) && PartyApplies(r, c) && DomainsApply(r, c) && PatternApplies(o, r, c)
  }

  // How the code decides it.

  /** Matching a suffix of the subject on its own is matching the subject from that offset. */
  lemma {:induction false} MatchesSuffix(p: string, i: nat, s: string, off: nat, j: nat, anchorEnd: bool)
    requires i <= |p| && off + j <= |s|
    ensures MatchesAt(p, i, s[off..], j, anchorEnd) <==> MatchesAt(p, i, s, off + j, anchorEnd)
    decreases |p| - i
  {
    var t := s[off..];
    if i < |p| {
      if p[i] == '*' {
        if MatchesFrom(p, i + 1, t, j, anchorEnd) {
          var k := Start(p, i + 1, t, j, anchorEnd);
          MatchesSuffix(p, i + 1, s, off, k, anchorEnd);
        }
        if MatchesFrom(p, i + 1, s, off + j, anchorEnd) {
          var k := Start(p, i + 1, s, off + j, anchorEnd);
          MatchesSuffix(p, i + 1, s, off, k - off, anchorEnd);
        }
      } else {
        MatchesSuffix(p, i + 1, s, off, j, anchorEnd);
        if off + j < |s| {
          MatchesSuffix(p, i + 1, s, off, j + 1, anchorEnd);
        }
      }
    }
  }

  /** A match can only start where the pattern's leading literal occurs. */
  lemma {:induction false} LiteralPrefixOccurs(p: string, i: nat, n: nat, s: string, j: nat, anchorEnd: bool)
    requires i <= n <= |p| && j <= |s|
    requires forall k :: i <= k < n ==> p[k] != '*' && p[k] != '^'
    requires MatchesAt(p, i, s, j, anchorEnd)
    ensures OccursAt(s, p[i..n], j)
    decreases n - i
  {
    if i < n {
      LiteralPrefixOccurs(p, i + 1, n, s, j + 1, anchorEnd);
      assert p[i..n] == [p[i]] + p[i + 1..n];
      assert s[j..j + (n - i)] == [s[j]] + s[j + 1..j + (n - i)];
    }
  }

  /** An unanchored pattern is tried only where its leading literal occurs. */
  method MatchUnanchored(r: NetRule, subject: string) returns (ok: bool)
    requires WellFormed(r)
    ensures ok <==> Glob.Matches(r.pattern, subject, false, r.anchorEnd)
  {
    if r.lit == "" {
      ghost var turns;
      ok, turns := GlobMatch(r.pattern, subject, false, r.anchorEnd);
      return;
    }
    var off := 0;
    while true
      invariant 0 <= off <= |subject|
      invariant Glob.Matches(r.pattern, subject, false, r.anchorEnd) <==> MatchesFrom(r.pattern, 0, subject, off, r.anchorEnd)
      decreases |subject| - off
    {
      hide MatchesAt, WellFormed, OccursAt, MatchesFrom;
      var i := Index(subject[off..], r.lit);
      NextCandidate(r, subject, off, i);
      if i < 0 {
        return false;
      }
      ghost var turns;
      ok, turns := GlobMatch(r.pattern, subject[off + i..], true, r.anchorEnd);
      if ok {
        return true;
      }
      off := off + i + 1;
    }
  }

  /** Skipping to the next occurrence of the leading literal skips no match. */
  lemma NextCandidate(r: NetRule, s: string, off: nat, i: int)
    requires WellFormed(r) && r.lit != "" && off <= |s| && i == Index(s[off..], r.lit)
    ensures i < 0 ==> !MatchesFrom(r.pattern, 0, s, off, r.anchorEnd)
    ensures i >= 0 ==>
      && off + i < |s|
      && (MatchesFrom(r.pattern, 0, s, off, r.anchorEnd) <==>
            Glob.Matches(r.pattern, s[off + i..], true, r.anchorEnd) || MatchesFrom(r.pattern, 0, s, off + i + 1, r.anchorEnd))
  {
    LiteralOffsets(r, s, off);
    hide MatchesAt, MatchesFrom, WellFormed;
    if i < 0 {
      SkipTo(r.pattern, s, off, |s| + 1, r.anchorEnd);
      NothingPastTheEnd(r.pattern, s, r.anchorEnd);
    } else {
      assert off + i < |s| by {
        assert OccursAt(s[off..], r.lit, i);
      }
      hide Index;
      SkipTo(r.pattern, s, off, off + i, r.anchorEnd);
      TryHere(r.pattern, s, off + i, r.anchorEnd);
    }
  }

  /** A match from `at` on is a match of the rest as a whole, or one from further on. */
  lemma TryHere(p: string, s: string, at: nat, anchorEnd: bool)
    requires at <= |s|
    ensures MatchesFrom(p, 0, s, at, anchorEnd) <==> Glob.Matches(p, s[at..], true, anchorEnd) || MatchesFrom(p, 0, s, at + 1, anchorEnd)
  {
    hide MatchesAt, MatchesFrom;
    FirstOrLater(p, 0, s, at, anchorEnd);
    MatchesSuffix(p, 0, s, at, 0, anchorEnd);
  }

  lemma NothingPastTheEnd(p: string, s: string, anchorEnd: bool)
    ensures !MatchesFrom(p, 0, s, |s| + 1, anchorEnd)
  {
  }

  /** No match starts before the next occurrence of the leading literal. */
  lemma LiteralOffsets(r: NetRule, s: string, off: nat)
    requires WellFormed(r) && off <= |s|
    ensures var i := Index(s[off..], r.lit);
            forall k: nat :: off <= k <= |s| && MatchesAt(r.pattern, 0, s, k, r.anchorEnd) ==> 0 <= i && off + i <= k
  {
    hide MatchesAt, WellFormed, Index;
    forall k: nat | off <= k <= |s| && MatchesAt(r.pattern, 0, s, k, r.anchorEnd)
      ensures 0 <= Index(s[off..], r.lit) && off + Index(s[off..], r.lit) <= k
    {
      LiteralOffset(r, s, off, k);
    }
  }

  lemma LiteralOffset(r: NetRule, s: string, off: nat, k: nat)
    requires WellFormed(r) && off <= k <= |s| && MatchesAt(r.pattern, 0, s, k, r.anchorEnd)
    ensures 0 <= Index(s[off..], r.lit) && off + Index(s[off..], r.lit) <= k
  {
    LiteralPrefixOccurs(r.pattern, 0, |r.lit|, s, k, r.anchorEnd);
    hide MatchesAt;
    assert r.pattern[0..|r.lit|] == r.lit;
    OccursInSuffix(s, r.lit, off, k);
  }

  lemma OccursInSuffix(s: string, lit: string, off: nat, k: nat)
    requires off <= k && OccursAt(s, lit, k)
    ensures OccursAt(s[off..], lit, k - off)
  {
    assert s[off..][k - off..k - off + |lit|] == s[k..k + |lit|];
  }

  /** Whether `src` belongs to one of the domains. */
  method MatchesAnyDomain(src: string, domains: seq<string>) returns (ok: bool)
    ensures ok <==> exists d :: d in domains && IsSubdomain(src, d)
  {
    hide DomainMatches, IsSubdomain;
    for i := 0 to |domains|
      invariant forall d :: d in domains[..i] ==> !IsSubdomain(src, d)
    {
      var d := domains[i];
      assert domains[..i + 1] == domains[..i] + [d] && d in domains;
      DomainMatchesIsSubdomain(src, d);
      if DomainMatches(src, d) {
        return true;
      }
    }
    assert domains[..|domains|] == domains;
    return false;
  }

  method MatchesDomains(r: NetRule, c: Context) returns (ok: bool)
    ensures ok <==> DomainsApply(r, c)
  {
    if |r.domains| == 0 && |r.notDomains| == 0 {
      return true;
    }
    var src := c.sourceHost;
    if src == "" || c.typ == Document {
      src := c.host;
    }
    var outside := MatchesAnyDomain(src, r.notDomains);
    if outside {
      return false;
    }
    if |r.domains| > 0 {
      ok := MatchesAnyDomain(src, r.domains);
      return;
    }
    return true;
  }

  /** Where host labels start in `u`. */
  method HostStarts(u: string) returns (starts: seq<nat>)
    ensures forall k: int :: k in starts <==> IsHostStart(u, k)
  {
    starts := [];
    if AuthorityStart(u).None? {
      return;
    }
    var start := AuthorityStart(u).value;
    var end := start;
    while end < |u| && u[end] !in "/?#"
      invariant start <= end <= |u|
      invariant forall k :: start <= k < end ==> u[k] !in "/?#"
    {
      end := end + 1;
    }
    EndsAuthority(u, start, end);
    hide AuthorityStart, FirstOf;
    starts := [start];
    for j := start to end
      invariant forall k: int :: k in starts <==> k == start || IsLabelStart(u, start, j, k)
    {
      if u[j] == '.' || u[j] == '@' {
        starts := starts + [j + 1];
      }
    }
  }

  /** `k` follows a '.' or '@' that lies between `start` and `end`. */
  predicate IsLabelStart(u: string, start: nat, end: nat, k: int) {
    start < k <= end && k <= |u| && (u[k - 1] == '.' || u[k - 1] == '@')
  }

  lemma EndsAuthority(u: string, start: nat, end: nat)
    requires start <= end <= |u| && (end < |u| ==> u[end] in "/?#") && forall k :: start <= k < end ==> u[k] !in "/?#"
    ensures FirstOf(u, "/?#", start) == end
  {
  }

  /** A request's context, with its host starts and, once asked for, its tokens and its page. */
  class MatchCtx {
    const o: Oracle
    const ctx: Context
    const hostStarts: seq<nat>
    var toks: Option<seq<string>>
    var page: MatchCtx?

    /** The offsets are exactly the host starts, and a memoised token list is the right one. */
    ghost predicate Sound()
      reads this
    {
      && (forall k: int :: k in hostStarts <==> IsHostStart(ctx.UrlLower(), k))
      && (toks.Some? ==> IsTokenList(ctx.UrlLower(), toks.value))
    }

    ghost predicate Valid()
      reads this, page
    {
      && Sound()
      && (page != null ==> page != this && page.o == o && Some(page.ctx) == PageContext(o, ctx) && page.Sound())
    }

    constructor (o: Oracle, req: Request)
      ensures Valid() && page == null
      ensures this.o == o && ctx == ContextOf(o, req)
    {
      var c := ContextOf(o, req);
      this.o, ctx := o, c;
      toks, page := None, null;
      var starts := HostStarts(c.UrlLower());
      hostStarts := starts;
    }

    method Tokens() returns (ts: seq<string>)
      requires Sound()
      modifies this`toks
      ensures Sound() && IsTokenList(ctx.UrlLower(), ts)
    {
      if toks.None? {
        var fresh_ := TokensOf(ctx.UrlLower());
        toks := Some(fresh_);
      }
      ts := toks.value;
    }

    method Page() returns (p: MatchCtx?)
      requires Valid()
      modifies this`page
      ensures Valid() && page in {old(page), p} && (p == null || p in {this, old(page)} || fresh(p))
      ensures p == null <==> PageContext(o, ctx).None?
      ensures p != null ==> p.Sound() && p.o == o && Some(p.ctx) == PageContext(o, ctx)
    {
      if ctx.typ == Document || ctx.sourceURL == "" {
        if ctx.typ == Document {
          return this;
        }
        return null;
      }
      if page == null {
        page := new MatchCtx(o, Request(ctx.sourceURL, ctx.sourceHost, "", "", "document"));
      }
      return page;
    }

    /** Whether rule `r` applies here: its options first, then its pattern. */
    method RuleMatches(r: NetRule, pageLevel: bool) returns (ok: bool)
      requires Sound() && WellFormed(r)
      ensures ok <==> Applies(o, r, ctx, pageLevel)
    {
      if r.types != {} {
        if ctx.typ !in r.types {
          return false;
        }
      } else if ctx.typ == Document && r.hostOnly == "" && !pageLevel {
        return false;
      }
      if (r.thirdParty == 1 && !ctx.thirdParty) || (r.thirdParty == -1 && ctx.thirdParty) {
        return false;
      }
      var listed := MatchesDomains(r, ctx);
      if !listed {
        return false;
      }
      if r.hostOnly != "" {
        DomainMatchesIsSubdomain(ctx.host, r.hostOnly);
        return DomainMatches(ctx.host, r.hostOnly);
      }
      if r.re.Some? {
        return o.regexMatches(r.re.value, ctx.url);
      }
      ok := PatternMatches(r);
    }

    method PatternMatches(r: NetRule) returns (ok: bool)
      requires Sound() && WellFormed(r) && r.hostOnly == "" && r.re.None?
      ensures ok <==> PatternApplies(o, r, ctx)
    {
      var subject := if r.matchCase then ctx.url else ctx.UrlLower();
      ghost var turns;
      if r.anchorHost {
        ok := HostStartMatches(r, subject);
      } else if r.anchorStart {
        ok, turns := GlobMatch(r.pattern, subject, true, r.anchorEnd);
      } else {
        ok := MatchUnanchored(r, subject);
      }
    }

    method HostStartMatches(r: NetRule, subject: string) returns (ok: bool)
      requires Sound() && subject == Subject(r, ctx)
      ensures ok <==> MatchesAtHostStart(r, ctx)
    {
      hide MatchesAt, IsHostStart, Lower;
      assert |subject| == |ctx.UrlLower()|;
      for n := 0 to |hostStarts|
        invariant forall m :: 0 <= m < n ==> !MatchesAtOffset(r, subject, hostStarts[m])
      {
        assert hostStarts[n] in hostStarts;
        HostStartInside(ctx.UrlLower(), hostStarts[n]);
        MatchesSuffix(r.pattern, 0, subject, hostStarts[n], 0, r.anchorEnd);
        ghost var turns;
        ok, turns := GlobMatch(r.pattern, subject[hostStarts[n]..], true, r.anchorEnd);
        if ok {
          assert MatchesAtOffset(r, subject, hostStarts[n]) && hostStarts[n] in hostStarts;
          return true;
        }
      }
      return false;
    }
  }
}
