/** The compiled engine: three bucketed rule indexes, and the decision that looks only in the
    buckets a request can reach. */
module Engine {
  import opened Wrappers
  import opened Domains
  import opened Tokens
  import opened Rules
  import opened Indexing

  // The reference: a linear scan over every rule, with no index.

  datatype Role = Block | Allow | AllowDocument

  /** Exceptions that switch things off for a whole page are kept apart from ordinary ones. */
  function RoleOf(r: NetRule): Role {
    if r.exception && (r.elemHide || r.genericHide || r.types == {Document}) then AllowDocument
    else if r.exception then Allow
    else Block
  }

  predicate IsDocumentException(r: NetRule) {
    RoleOf(r) == AllowDocument && Document in r.types && !r.elemHide && !r.genericHide
  }

  /** A `$document` exception applies to the page the request belongs to. */
  ghost predicate PageExcepted(o: Oracle, rules: seq<NetRule>, c: Context) {
    && PageContext(o, c).Some?
    && exists r :: r in rules && IsDocumentException(r) && Applies(o, r, PageContext(o, c).value, true)
  }

  ghost predicate Excepted(o: Oracle, rules: seq<NetRule>, c: Context) {
    exists r :: r in rules && RoleOf(r) == Allow && Applies(o, r, c, false)
  }

  /** No page-level exception applies, and some block rule applies that is important or that
      no exception answers. */
  ghost predicate Blocked(o: Oracle, rules: seq<NetRule>, req: Request) {
    var c := ContextOf(o, req);
    && !PageExcepted(o, rules, c)
    && exists r :: r in rules && RoleOf(r) == Block && Applies(o, r, c, false) && (r.important || !Excepted(o, rules, c))
  }

  datatype Verdict = Verdict(blocked: bool, rule: string)

  /** The rule named with an answer is the reason for it: the page's exception, else a block rule
      that no exception answers, else the exception that answers it, else nothing. */
  ghost predicate IsReason(o: Oracle, rules: seq<NetRule>, c: Context, v: Verdict) {
    if PageExcepted(o, rules, c) then
      exists r :: r in rules && IsDocumentException(r) && Applies(o, r, PageContext(o, c).value, true) && r.raw == v.rule
    else if forall r :: r in rules && RoleOf(r) == Block ==> !Applies(o, r, c, false) then
      v.rule == ""
    else if v.blocked then
      exists r :: r in rules && RoleOf(r) == Block && Applies(o, r, c, false) && (r.important || !Excepted(o, rules, c)) && r.raw == v.rule
    else
      exists r :: r in rules && RoleOf(r) == Allow && Applies(o, r, c, false) && r.raw == v.rule
  }

  /** Neither the order of the lists nor repeated lines matter. */
  lemma OnlyTheSetOfRulesMatters(o: Oracle, rules: seq<NetRule>, rules': seq<NetRule>, req: Request)
    requires forall r :: r in rules <==> r in rules'
    ensures Blocked(o, rules, req) <==> Blocked(o, rules', req)
  {
  }

  /** Rules that are not exceptions, added anywhere in the lists, never let a request through. */
  lemma AddingBlockRulesNeverUnblocks(o: Oracle, rules: seq<NetRule>, all: seq<NetRule>, req: Request)
    requires forall r :: r in rules ==> r in all
    requires forall r :: r in all && r.exception ==> r in rules
    requires Blocked(o, rules, req)
    ensures Blocked(o, all, req)
  {
  }

  /** Exceptions, added anywhere in the lists, never block a request. */
  lemma AddingExceptionsNeverBlocks(o: Oracle, rules: seq<NetRule>, all: seq<NetRule>, req: Request)
    requires forall r :: r in rules ==> r in all
    requires forall r :: r in all && !r.exception ==> r in rules
    requires Blocked(o, all, req)
    ensures Blocked(o, rules, req)
  {
  }

  // The index.

  function Get(m: map<string, seq<NetRule>>, k: string): seq<NetRule> {
    if k in m then m[k] else []
  }

  /** The buckets' rules one after the other. */
  ghost function Visited(rules: seq<NetRule>, bs: seq<Bucket>): seq<NetRule> {
    if bs == [] then [] else Visited(rules, bs[..|bs| - 1]) + Filed(rules, bs[|bs| - 1])
  }

  lemma VisitedAppend(rules: seq<NetRule>, bs: seq<Bucket>, b: Bucket)
    ensures Visited(rules, bs + [b]) == Visited(rules, bs) + Filed(rules, b)
  {
  }

  lemma {:induction false} VisitedExact(rules: seq<NetRule>, bs: seq<Bucket>, r: NetRule)
    ensures r in Visited(rules, bs) <==> r in rules && exists b :: b in bs && GoesTo(r, b)
  {
    if bs != [] {
      var last := bs[|bs| - 1];
      VisitedExact(rules, bs[..|bs| - 1], r);
      FiledExact(rules, r, last);
      assert forall b :: b in bs <==> b in bs[..|bs| - 1] || b == last;
    }
  }

  function HostBuckets(hosts: seq<string>): seq<Bucket> {
    seq(|hosts|, i requires 0 <= i < |hosts| => HostBucket(hosts[i]))
  }

  function TokenBuckets(toks: seq<string>): seq<Bucket> {
    seq(|toks|, i requires 0 <= i < |toks| => TokenBucket(toks[i]))
  }

  lemma HostBucketsAppend(hosts: seq<string>, h: string)
    ensures HostBuckets(hosts + [h]) == HostBuckets(hosts) + [HostBucket(h)]
  {
  }

  lemma TokenBucketsAppend(toks: seq<string>, t: string)
    ensures TokenBuckets(toks + [t]) == TokenBuckets(toks) + [TokenBucket(t)]
  {
  }

  /** Host buckets from the host upwards, then the URL's tokens in order, then the generic rules. */
  ghost predicate IsVisitOrder(c: Context, bs: seq<Bucket>) {
    exists toks :: IsTokenList(c.UrlLower(), toks) && bs == HostBuckets(Chain(c.host)) + TokenBuckets(toks) + [GenericBucket]
  }

  lemma HostBucketsExact(hosts: seq<string>, b: Bucket)
    ensures b in HostBuckets(hosts) <==> b.HostBucket? && b.host in hosts
  {
    var bs := HostBuckets(hosts);
    if b.HostBucket? && b.host in hosts {
      var i :| 0 <= i < |hosts| && hosts[i] == b.host;
      assert bs[i] == b;
    }
  }

  lemma TokenBucketsExact(toks: seq<string>, b: Bucket)
    ensures b in TokenBuckets(toks) <==> b.TokenBucket? && b.token in toks
  {
    var bs := TokenBuckets(toks);
    if b.TokenBucket? && b.token in toks {
      var i :| 0 <= i < |toks| && toks[i] == b.token;
      assert bs[i] == b;
    }
  }

  lemma VisitOrderCoversReach(c: Context, bs: seq<Bucket>, b: Bucket)
    requires IsVisitOrder(c, bs)
    ensures b in bs <==> LooksIn(c, b)
  {
    var toks :| IsTokenList(c.UrlLower(), toks) && bs == HostBuckets(Chain(c.host)) + TokenBuckets(toks) + [GenericBucket];
    hide HostBuckets, TokenBuckets, Chain;
    HostBucketsExact(Chain(c.host), b);
    TokenBucketsExact(toks, b);
  }

  /** Every rule that applies to the request is among those the visit reaches, and all those are rules. */
  lemma VisitFindsEverything(o: Oracle, rules: seq<NetRule>, c: Context, bs: seq<Bucket>, r: NetRule, pageLevel: bool)
    requires IsVisitOrder(c, bs)
    requires r in rules && WellFormed(r) && Applies(o, r, c, pageLevel)
    ensures r in Visited(rules, bs)
  {
    var b := BucketOf(r);
    ApplicableIsReachable(o, r, c, pageLevel, b);
    VisitOrderCoversReach(c, bs, b);
    VisitedExact(rules, bs, r);
  }

  lemma BucketOf(r: NetRule) returns (b: Bucket)
    ensures GoesTo(r, b)
  {
    if r.hostOnly != "" {
      b := HostBucket(r.hostOnly);
    } else if r.re.Some? {
      b := GenericBucket;
    } else {
      var tok := BestTokenExists(r);
      b := if tok == "" then GenericBucket else TokenBucket(tok);
    }
  }

  /** Each bucket holds exactly its own rules, in the order they were added. */
  ghost predicate IsFiling(
    byHost: map<string, seq<NetRule>>, byToken: map<string, seq<NetRule>>, generic: seq<NetRule>, rules: seq<NetRule>)
  {
    && (forall h :: Get(byHost, h) == Filed(rules, HostBucket(h)))
    && (forall t :: Get(byToken, t) == Filed(rules, TokenBucket(t)))
    && generic == Filed(rules, GenericBucket)
  }

  /** `after` files one more rule, `r`, in bucket `own`. */
  ghost predicate FilesOne(rules: seq<NetRule>, after: seq<NetRule>, r: NetRule, own: Bucket) {
    forall b :: Filed(after, b) == if b == own then Filed(rules, b) + [r] else Filed(rules, b)
  }

  lemma FilesOneMore(rules: seq<NetRule>, r: NetRule, own: Bucket)
    requires GoesTo(r, own)
    ensures FilesOne(rules, rules + [r], r, own)
  {
    forall b { FileOne(rules, r, own, b); }
  }

  lemma FileInHost(byHost: map<string, seq<NetRule>>, byToken: map<string, seq<NetRule>>, generic: seq<NetRule>,
                   rules: seq<NetRule>, after: seq<NetRule>, r: NetRule, h: string)
    requires IsFiling(byHost, byToken, generic, rules) && FilesOne(rules, after, r, HostBucket(h))
    ensures IsFiling(byHost[h := Get(byHost, h) + [r]], byToken, generic, after)
  {
    hide Filed;
  }

  lemma FileInToken(byHost: map<string, seq<NetRule>>, byToken: map<string, seq<NetRule>>, generic: seq<NetRule>,
                    rules: seq<NetRule>, after: seq<NetRule>, r: NetRule, t: string)
    requires IsFiling(byHost, byToken, generic, rules) && FilesOne(rules, after, r, TokenBucket(t))
    ensures IsFiling(byHost, byToken[t := Get(byToken, t) + [r]], generic, after)
  {
    hide Filed;
  }

  lemma FileInGeneric(byHost: map<string, seq<NetRule>>, byToken: map<string, seq<NetRule>>, generic: seq<NetRule>,
                      rules: seq<NetRule>, after: seq<NetRule>, r: NetRule)
    requires IsFiling(byHost, byToken, generic, rules) && FilesOne(rules, after, r, GenericBucket)
    ensures IsFiling(byHost, byToken, generic + [r], after)
  {
    hide Filed;
  }

  lemma VisitHost(rules: seq<NetRule>, hosts: seq<string>, h: string)
    ensures Visited(rules, HostBuckets(hosts + [h])) == Visited(rules, HostBuckets(hosts)) + Filed(rules, HostBucket(h))
  {
    HostBucketsAppend(hosts, h);
    VisitedAppend(rules, HostBuckets(hosts), HostBucket(h));
  }

  lemma ChainStep(host: string, hosts: seq<string>, h: string)
    requires h != "" && Chain(host) == hosts + Chain(h)
    ensures |ParentDomain(h)| < |h| && Chain(host) == (hosts + [h]) + Chain(ParentDomain(h))
  {
    ParentIsShorter(h);
  }

  /** What a lookup over the candidates `cs` answers about all the rules. */
  lemma CandidatesSuffice(o: Oracle, rules: seq<NetRule>, c: Context, bs: seq<Bucket>, pageLevel: bool)
    requires IsVisitOrder(c, bs) && forall r :: r in rules ==> WellFormed(r)
    ensures forall r :: r in Visited(rules, bs) ==> r in rules && WellFormed(r)
    ensures forall r :: r in rules && Applies(o, r, c, pageLevel) ==> r in Visited(rules, bs)
  {
    forall r | r in Visited(rules, bs) ensures r in rules {
      VisitedExact(rules, bs, r);
    }
    forall r | r in rules && Applies(o, r, c, pageLevel) ensures r in Visited(rules, bs) {
      VisitFindsEverything(o, rules, c, bs, r, pageLevel);
    }
  }

  /** The first important rule of `cs` that applies, or else the first ordinary one. */
  method FindAmong(m: MatchCtx, cs: seq<NetRule>) returns (found: Option<NetRule>)
    requires m.Sound() && forall r :: r in cs ==> WellFormed(r)
    ensures found.None? <==> forall r :: r in cs ==> !Applies(m.o, r, m.ctx, false)
    ensures found.Some? ==> found.value in cs && Applies(m.o, found.value, m.ctx, false)
    ensures found.Some? ==>
      (found.value.important <==> exists r :: r in cs && r.important && Applies(m.o, r, m.ctx, false))
  {
    found := None;
    for i := 0 to |cs|
      invariant found.None? ==> forall r :: r in cs[..i] ==> !Applies(m.o, r, m.ctx, false)
      invariant found.Some? ==> found.value in cs && !found.value.important && Applies(m.o, found.value, m.ctx, false)
      invariant forall r :: r in cs[..i] && r.important ==> !Applies(m.o, r, m.ctx, false)
    {
      var r := cs[i];
      assert cs[..i + 1] == cs[..i] + [r] && r in cs;
      if found.None? || r.important {
        var ok := m.RuleMatches(r, false);
        if ok {
          found := Some(r);
          if r.important {
            return;
          }
        }
      }
    }
    assert cs[..|cs|] == cs;
  }

  method FirstAmong(m: MatchCtx, cs: seq<NetRule>, keep: NetRule -> bool) returns (found: Option<NetRule>)
    requires m.Sound() && forall r :: r in cs ==> WellFormed(r)
    ensures found.None? <==> forall r :: r in cs && keep(r) ==> !Applies(m.o, r, m.ctx, true)
    ensures found.Some? ==> found.value in cs && keep(found.value) && Applies(m.o, found.value, m.ctx, true)
  {
    for i := 0 to |cs|
      invariant forall r :: r in cs[..i] && keep(r) ==> !Applies(m.o, r, m.ctx, true)
    {
      assert cs[..i + 1] == cs[..i] + [cs[i]] && cs[i] in cs;
      if keep(cs[i]) {
        var ok := m.RuleMatches(cs[i], true);
        if ok {
          return Some(cs[i]);
        }
      }
    }
    assert cs[..|cs|] == cs;
    return None;
  }

  class RuleIndex {
    var byHost: map<string, seq<NetRule>>
    var byToken: map<string, seq<NetRule>>
    var generic: seq<NetRule>
    ghost var rules: seq<NetRule>

    ghost predicate Valid()
      reads this
    {
      && (forall r :: r in rules ==> WellFormed(r))
      && IsFiling(byHost, byToken, generic, rules)
    }

    constructor ()
      ensures Valid() && rules == []
    {
      byHost, byToken, generic, rules := map[], map[], [], [];
    }

    method Add(r: NetRule)
      requires Valid() && WellFormed(r)
      modifies this
      ensures Valid() && rules == old(rules) + [r]
    {
      hide IsFiling, FilesOne;
      if r.hostOnly != "" {
        FilesOneMore(rules, r, HostBucket(r.hostOnly));
        FileInHost(byHost, byToken, generic, rules, rules + [r], r, r.hostOnly);
        byHost := byHost[r.hostOnly := Get(byHost, r.hostOnly) + [r]];
      } else if r.re.Some? {
        FilesOneMore(rules, r, GenericBucket);
        FileInGeneric(byHost, byToken, generic, rules, rules + [r], r);
        generic := generic + [r];
      } else {
        var tok := BestToken(r);
        if tok == "" {
          FilesOneMore(rules, r, GenericBucket);
          FileInGeneric(byHost, byToken, generic, rules, rules + [r], r);
          generic := generic + [r];
        } else {
          FilesOneMore(rules, r, TokenBucket(tok));
          FileInToken(byHost, byToken, generic, rules, rules + [r], r, tok);
          byToken := byToken[tok := Get(byToken, tok) + [r]];
        }
      }
      rules := rules + [r];
    }

    /** The rules filed under the host and each of its parents. */
    method HostCandidates(host: string) returns (cs: seq<NetRule>)
      requires Valid()
      ensures cs == Visited(rules, HostBuckets(Chain(host)))
    {
      cs := [];
      var h := host;
      ghost var hosts: seq<string> := [];
      assert Chain(host) == hosts + Chain(h);
      assert HostBuckets(hosts) == [];
      while h != ""
        invariant Chain(host) == hosts + Chain(h)
        invariant cs == Visited(rules, HostBuckets(hosts))
        decreases |h|
      {
        hide Filed, Visited, HostBuckets, WellFormed, ParentDomain, Chain;
        VisitHost(rules, hosts, h);
        ChainStep(host, hosts, h);
        cs := cs + Get(byHost, h);
        hosts, h := hosts + [h], ParentDomain(h);
      }
      assert hosts + [] == hosts;
    }

    /** `before` followed by the rules filed under each token. */
    method TokenCandidates(toks: seq<string>, before: seq<NetRule>, ghost bs: seq<Bucket>) returns (cs: seq<NetRule>)
      requires Valid() && before == Visited(rules, bs)
      ensures cs == Visited(rules, bs + TokenBuckets(toks))
    {
      hide Filed;
      cs := before;
      assert bs + TokenBuckets([]) == bs;
      for i := 0 to |toks|
        invariant cs == Visited(rules, bs + TokenBuckets(toks[..i]))
      {
        TokenBucketsAppend(toks[..i], toks[i]);
        assert toks[..i + 1] == toks[..i] + [toks[i]];
        assert bs + TokenBuckets(toks[..i + 1]) == (bs + TokenBuckets(toks[..i])) + [TokenBucket(toks[i])];
        VisitedAppend(rules, bs + TokenBuckets(toks[..i]), TokenBucket(toks[i]));
        cs := cs + Get(byToken, toks[i]);
      }
      assert toks[..|toks|] == toks;
    }

    /** The candidate rules for a request, in the order they are tried. */
    method Candidates(m: MatchCtx) returns (cs: seq<NetRule>, ghost bs: seq<Bucket>)
      requires Valid() && m.Sound()
      modifies m`toks
      ensures m.Sound()
      ensures IsVisitOrder(m.ctx, bs) && cs == Visited(rules, bs)
    {
      hide Filed, IsTokenList, Chain, HostBuckets, TokenBuckets;
      cs := HostCandidates(m.ctx.host);
      bs := HostBuckets(Chain(m.ctx.host));
      var toks := m.Tokens();
      cs := TokenCandidates(toks, cs, bs);
      bs := bs + TokenBuckets(toks);
      VisitedAppend(rules, bs, GenericBucket);
      cs, bs := cs + generic, bs + [GenericBucket];
    }

    method Find(m: MatchCtx) returns (found: Option<NetRule>)
      requires Valid() && m.Sound()
      modifies m`toks
      ensures m.Sound()
      ensures found.None? <==> forall r :: r in rules ==> !Applies(m.o, r, m.ctx, false)
      ensures found.Some? ==> found.value in rules && Applies(m.o, found.value, m.ctx, false)
      ensures found.Some? ==>
        (found.value.important <==> exists r :: r in rules && r.important && Applies(m.o, r, m.ctx, false))
    {
      var cs, bs := Candidates(m);
      CandidatesSuffice(m.o, rules, m.ctx, bs, false);
      found := FindAmong(m, cs);
    }

    /** Some page-level match among the rules that `keep` lets pass, in candidate order. */
    method First(m: MatchCtx, keep: NetRule -> bool) returns (found: Option<NetRule>)
      requires Valid() && m.Sound()
      modifies m`toks
      ensures m.Sound()
      ensures found.None? <==> forall r :: r in rules && keep(r) ==> !Applies(m.o, r, m.ctx, true)
      ensures found.Some? ==> found.value in rules && keep(found.value) && Applies(m.o, found.value, m.ctx, true)
    {
      var cs, bs := Candidates(m);
      CandidatesSuffice(m.o, rules, m.ctx, bs, true);
      found := FirstAmong(m, cs, keep);
    }
  }

  // The engine.

  ghost function WithRole(rules: seq<NetRule>, role: Role): seq<NetRule> {
    if rules == [] then []
    else WithRole(rules[..|rules| - 1], role) + (if RoleOf(rules[|rules| - 1]) == role then [rules[|rules| - 1]] else [])
  }

  lemma WithRoleAppend(rules: seq<NetRule>, r: NetRule, role: Role)
    ensures WithRole(rules + [r], role) == WithRole(rules, role) + (if RoleOf(r) == role then [r] else [])
  {
  }

  lemma WithRoleMembers(rules: seq<NetRule>, role: Role)
    ensures forall r :: r in WithRole(rules, role) <==> r in rules && RoleOf(r) == role
  {
  }

  class FilterEngine {
    const block: RuleIndex
    const allow: RuleIndex
    const allowDocument: RuleIndex
    ghost var rules: seq<NetRule>

    /** The three indexes partition the rules by role. */
    ghost predicate Valid()
      reads this, block, allow, allowDocument
    {
      && block != allow && allow != allowDocument && block != allowDocument
      && block.Valid() && allow.Valid() && allowDocument.Valid()
      && block.rules == WithRole(rules, Block)
      && allow.rules == WithRole(rules, Allow)
      && allowDocument.rules == WithRole(rules, AllowDocument)
    }

    constructor (net: seq<NetRule>)
      requires forall r :: r in net ==> WellFormed(r)
      ensures Valid() && rules == net
    {
      hide IsFiling;
      var b := new RuleIndex();
      var a := new RuleIndex();
      var d := new RuleIndex();
      block, allow, allowDocument := b, a, d;
      rules := [];
      new;
      for i := 0 to |net|
        invariant fresh(block) && fresh(allow) && fresh(allowDocument)
        invariant Valid() && rules == net[..i]
      {
        assert net[..i + 1] == net[..i] + [net[i]];
        Insert(net[i]);
      }
      assert net[..|net|] == net;
    }

    method Insert(r: NetRule)
      requires Valid() && WellFormed(r)
      modifies this, block, allow, allowDocument
      ensures Valid() && rules == old(rules) + [r]
    {
      hide IsFiling;
      forall role { WithRoleAppend(rules, r, role); }
      if r.exception && (r.elemHide || r.genericHide || (Document in r.types && r.types - {Document} == {})) {
        assert Document in r.types && r.types - {Document} == {} ==> r.types == {Document};
        allowDocument.Add(r);
      } else if r.exception {
        allow.Add(r);
      } else {
        block.Add(r);
      }
      rules := rules + [r];
    }

    /** The page-level `$document` exception for the request's page, if any. */
    method DocumentException(m: MatchCtx) returns (found: Option<NetRule>)
      requires Valid() && m.Valid()
      modifies m, m.page
      ensures Valid() && m.Sound()
      ensures found.Some? <==> PageExcepted(m.o, rules, m.ctx)
      ensures found.Some? ==> found.value in rules && IsDocumentException(found.value)
      ensures found.Some? ==> Applies(m.o, found.value, PageContext(m.o, m.ctx).value, true)
    {
      var p := m.Page();
      if p == null {
        return None;
      }
      found := allowDocument.First(p, (r: NetRule) => Document in r.types && !r.elemHide && !r.genericHide);
      WithRoleMembers(rules, AllowDocument);
    }

    /** Decide one request: the indexed engine blocks exactly what the linear scan blocks, and
        names a rule that justifies the answer. */
    method Match(o: Oracle, req: Request) returns (v: Verdict)
      requires Valid()
      ensures v.blocked <==> Blocked(o, rules, req)
      ensures IsReason(o, rules, ContextOf(o, req), v)
    {
      hide Applies, PageExcepted, IsFiling, WithRole;
      var m := new MatchCtx(o, req);
      var exc := DocumentException(m);
      if exc.Some? {
        return Verdict(false, exc.value.raw);
      }
      WithRoleMembers(rules, Block);
      WithRoleMembers(rules, Allow);
      var blocking := block.Find(m);
      if blocking.None? {
        return Verdict(false, "");
      }
      if !blocking.value.important {
        var allowing := allow.Find(m);
        if allowing.Some? {
          return Verdict(false, allowing.value.raw);
        }
      }
      return Verdict(true, blocking.value.raw);
    }
  }
}
