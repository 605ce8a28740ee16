/** Where the order of a list's lines does matter: a bare domain blocks navigation above the first mark
    of Adblock Plus syntax, and not below it. Lists that show each way this can go wrong. */
module ListOrder {
  import opened Wrappers
  import opened Text
  import opened Domains
  import opened Rules
  import opened Engine
  import opened ListParser
  import opened Readings
  import opened Compiler
  import Parser = RuleParser

  /** Opening a host's front page. */
  function Navigation(host: string): Request {
    Request("http://" + host + "/", host, "", "", "document")
  }

  lemma DocumentIsNamed()
    ensures ParseType("document") == Document
  {
    assert Lower("document") == "document";
  }

  lemma NavigationContext(o: Oracle, host: string)
    ensures var c := ContextOf(o, Navigation(host));
            c.typ == Document && c.host == Lower(TrimDot(host)) && PageContext(o, c) == Some(c)
  {
    DocumentIsNamed();
    hide ParseType;
  }

  /** An exception that lets the navigation through. */
  ghost predicate Answers(o: Oracle, r: NetRule, c: Context) {
    (RoleOf(r) == Allow && Applies(o, r, c, false)) || (IsDocumentException(r) && Applies(o, r, c, true))
  }

  /** A host rule for the host blocks the navigation, when no exception answers it. */
  lemma HostRuleBlocks(o: Oracle, line: string, host: string, rules: seq<NetRule>)
    requires Parser.HostRule(line, Lower(TrimDot(host))) in rules && host != "" && host != "."
    requires forall r :: r in rules && r.exception ==> !Answers(o, r, ContextOf(o, Navigation(host)))
    ensures Blocked(o, rules, Navigation(host))
  {
    var r := Parser.HostRule(line, Lower(TrimDot(host)));
    var c := ContextOf(o, Navigation(host));
    NavigationContext(o, host);
    assert r.hostOnly != "";
    hide ContextOf, Navigation, Lower, TrimDot;
    assert IsSubdomain(c.host, r.hostOnly);
    assert Applies(o, r, c, false);
    hide Applies;
    forall x | x in rules ensures !Answers(o, x, c) {
      assert !x.exception ==> RoleOf(x) == Block;
    }
    assert forall x :: x in rules ==> !Answers(o, x, c);
    assert !PageExcepted(o, rules, c) && !Excepted(o, rules, c);
  }

  /** A bare domain read as a filter is a pattern without types, which never applies to a navigation. */
  lemma BareFilterSparesDocuments(o: Oracle, r: NetRule, d: string, c: Context)
    requires IsBareDomain(d) && Parser.IsRuleOf(r, d) && c.typ == Document
    ensures !Applies(o, r, c, false)
  {
    BareIsDomainBytes(d);
    BareHasNoOptions(d);
    hide IsBareDomain, IsDomainByte, Parser.Halves;
    var none := Parser.OptionsOf("");
    Parser.NoOptions();
    hide Parser.OptionsOf, Parser.HasType;
    assert d[0] != '|' && d[0] != '/';
    assert r.types == {} by {
      assert Parser.CarriesTypes(r.types, none) && Parser.CarriesTypes({}, none);
    }
    assert r.hostOnly == "";
  }

  lemma BareHasNoOptions(d: string)
    requires AllDomainBytes(d) && d != "" && IsAlnum(d[0])
    ensures Parser.Halves(d) == (d, "")
  {
    assert d[0] != '@';
    assert Parser.IsSplit(d, d, "");
    Parser.SplitIsUnique(d, d, "");
  }

  // Short lists.

  /** A bare domain and a comment, as lists hold them. */
  ghost predicate AreDomainAndComment(d: string, c: string) {
    IsBareDomain(d) && IsComment(c) && TrimSpace(c) == c
  }

  /** Nothing is said but `s`, if anything. */
  ghost predicate IsAtMost(said: seq<Saying>, s: Saying) {
    forall x :: x in said ==> x == s
  }

  /** How a bare domain is read, and that it is trimmed already. */
  lemma BareReads(d: string, lineNo: nat)
    requires IsBareDomain(d)
    ensures TrimSpace(d) == d
    ensures ReadLine(d, true, lineNo) == Filter && ReadLine(d, false, lineNo) == Host(Lower(TrimDot(d)))
  {
    BareIsDomainBytes(d);
    BareIsCleaned(d);
    BareIsFilterOnceMarked(d, lineNo);
    hide ReadLine, IsBareDomain, CleanHost, TrimSpace;
  }

  lemma MarkedBareReads(d: string, abp: bool, lineNo: nat)
    requires IsBareDomain(d) && abp
    ensures TrimSpace(d) == d && ReadLine(d, abp, lineNo) == Filter
  {
    BareReads(d, lineNo);
  }

  lemma SaidWhenRead(o: Oracle, lines: seq<string>, i: nat, line: string, reading: Reading)
    requires i < |lines| && TrimSpace(lines[i]) == line && ReadLine(line, Marked(lines, i), i + 1) == reading
    ensures SaidAt(o, lines, i) == SayingsOf(o, line, reading)
  {
    hide TrimSpace, ReadLine, Marked, SayingsOf;
  }

  /** Above any mark, a bare domain's saying is its host. */
  lemma BareSaysHost(o: Oracle, lines: seq<string>, i: nat)
    requires i < |lines| && IsBareDomain(lines[i]) && !Marked(lines, i)
    ensures SaidAt(o, lines, i) == [HostSaying(lines[i], Lower(TrimDot(lines[i])))]
  {
    BareReads(lines[i], i + 1);
    SaidWhenRead(o, lines, i, lines[i], Host(Lower(TrimDot(lines[i]))));
    hide SaidAt, IsBareDomain, Marked, ReadLine, TrimSpace, TrimDot, Lower;
  }

  /** Below one, it can only be a filter. */
  lemma BareSaysFilter(o: Oracle, lines: seq<string>, i: nat)
    requires i < |lines| && IsBareDomain(lines[i]) && Marked(lines, i)
    ensures IsAtMost(SaidAt(o, lines, i), FilterSaying(lines[i]))
  {
    hide *;
    var line := lines[i];
    MarkedBareReads(line, Marked(lines, i), i + 1);
    SaidWhenRead(o, lines, i, line, Filter);
    FilterSaysItself(o, line);
  }

  lemma FilterSaysItself(o: Oracle, line: string)
    ensures IsAtMost(SayingsOf(o, line, Filter), FilterSaying(line))
  {
    hide Parser.IsKept;
  }

  lemma MarkSaysNothing(o: Oracle, lines: seq<string>, i: nat)
    requires i < |lines| && SetsMark(TrimSpace(lines[i]), i + 1)
    ensures SaidAt(o, lines, i) == []
  {
    hide TrimSpace, Marked, HostsName, IsBareDomain, ReadABPLine;
  }

  lemma MarkedOnce(lines: seq<string>, j: nat, i: nat)
    requires j < i && j < |lines| && SetsMark(TrimSpace(lines[j]), j + 1)
    ensures Marked(lines, i)
  {
  }

  lemma OneList(o: Oracle, lines: seq<string>)
    ensures SaidBy(o, [lines]) == Said(o, lines, |lines|)
  {
    assert [lines][..0] == [];
    assert SaidBy(o, []) == [];
  }

  lemma TwoLines(o: Oracle, lines: seq<string>)
    requires |lines| == 2
    ensures Said(o, lines, 2) == SaidAt(o, lines, 0) + SaidAt(o, lines, 1)
  {
    assert Said(o, lines, 0) == [] && Said(o, lines, 1) == SaidAt(o, lines, 0);
  }

  /** One host said and nothing else: the host cannot be navigated to. */
  lemma OneHostBlocks(o: Oracle, rules: seq<NetRule>, d: string)
    requires AreRulesFor(rules, [HostSaying(d, Lower(TrimDot(d)))]) && IsBareDomain(d)
    ensures Blocked(o, rules, Navigation(d))
  {
    BareIsDomainBytes(d);
    assert rules[0] in rules && IsRuleFor(rules[0], HostSaying(d, Lower(TrimDot(d))));
    hide IsBareDomain;
    HostRuleBlocks(o, d, d, rules);
  }

  /** At most the filter said: it can. */
  lemma OneFilterSpares(o: Oracle, rules: seq<NetRule>, said: seq<Saying>, d: string)
    requires AreRulesFor(rules, said) && IsAtMost(said, FilterSaying(d)) && IsBareDomain(d)
    ensures !Blocked(o, rules, Navigation(d))
  {
    NavigationContext(o, d);
    var c := ContextOf(o, Navigation(d));
    forall r | r in rules ensures !Applies(o, r, c, false) {
      var i :| 0 <= i < |rules| && rules[i] == r;
      assert said[i] in said && IsRuleFor(r, FilterSaying(d));
      BareFilterSparesDocuments(o, r, d, c);
    }
    hide Applies, ContextOf;
  }

  /** The same two lines in either order: the domain above the comment blocks navigation to it, below
      the comment it does not. */
  lemma OrderMatters(o: Oracle, d: string, c: string, rules: seq<NetRule>, rules': seq<NetRule>)
    requires AreDomainAndComment(d, c)
    requires AreRulesOf(o, rules, [[d, c]]) && AreRulesOf(o, rules', [[c, d]])
    ensures Blocked(o, rules, Navigation(d)) && !Blocked(o, rules', Navigation(d))
  {
    DomainThenComment(o, d, c);
    CommentThenDomain(o, d, c);
    hide AreDomainAndComment, SaidBy;
    OneHostBlocks(o, rules, d);
    OneFilterSpares(o, rules', SaidBy(o, [[c, d]]), d);
  }

  lemma DomainThenComment(o: Oracle, d: string, c: string)
    requires AreDomainAndComment(d, c)
    ensures SaidBy(o, [[d, c]]) == [HostSaying(d, Lower(TrimDot(d)))] && IsBareDomain(d)
  {
    var lines := [d, c];
    OneList(o, lines);
    BareSaysHost(o, lines, 0);
    MarkSaysNothing(o, lines, 1);
    hide SaidAt, AreDomainAndComment, SaidBy;
    TwoLines(o, lines);
  }

  lemma CommentThenDomain(o: Oracle, d: string, c: string)
    requires AreDomainAndComment(d, c)
    ensures IsAtMost(SaidBy(o, [[c, d]]), FilterSaying(d)) && IsBareDomain(d)
  {
    var lines := [c, d];
    OneList(o, lines);
    hide SaidAt, SaidBy, TrimSpace, IsBareDomain;
    MarkSaysNothing(o, lines, 0);
    MarkedOnce(lines, 0, 1);
    BareSaysFilter(o, lines, 1);
    hide IsComment;
    TwoLines(o, lines);
  }

  /** A comment, which is no exception, added on top of a list lets a blocked navigation through. */
  lemma CommentCanUnblock(o: Oracle, d: string, c: string, rules: seq<NetRule>, rules': seq<NetRule>)
    requires AreDomainAndComment(d, c)
    requires AreRulesOf(o, rules, [[d]]) && AreRulesOf(o, rules', [[c, d]])
    ensures Blocked(o, rules, Navigation(d)) && !Blocked(o, rules', Navigation(d)) && !HasPrefix(c, "@@")
  {
    OneList(o, [d]);
    BareSaysHost(o, [d], 0);
    CommentThenDomain(o, d, c);
    hide SaidAt, SaidBy, IsBareDomain;
    assert Said(o, [d], 0) == [] && Said(o, [d], 1) == [] + SaidAt(o, [d], 0);
    OneHostBlocks(o, rules, d);
    OneFilterSpares(o, rules', SaidBy(o, [[c, d]]), d);
  }

  /** Five exceptions, a header and a bare domain. */
  function Pushed(e: string, h: string, d: string): seq<string> {
    [e, e, e, e, e, h, d]
  }

  /** Five exceptions put above a header push it past line five, so that a bare domain below is read
      as a host again: more is blocked than before, unless the exception, if it is kept, answers just
      this navigation. */
  lemma ExceptionsCanBlock(o: Oracle, d: string, h: string, e: string, rules: seq<NetRule>, rules': seq<NetRule>)
    requires IsBareDomain(d) && IsHeader(h) && TrimSpace(h) == h
    requires HasPrefix(e, "@@") && TrimSpace(e) == e
    requires Parser.IsKept(o, e) ==> forall r :: Parser.IsRuleOf(r, e) ==> !Answers(o, r, ContextOf(o, Navigation(d)))
    requires AreRulesOf(o, rules, [[h, d]]) && AreRulesOf(o, rules', [Pushed(e, h, d)])
    ensures !Blocked(o, rules, Navigation(d)) && Blocked(o, rules', Navigation(d))
  {
    HeaderThenDomain(o, h, d);
    PushedSays(o, e, h, d);
    hide SaidBy, IsBareDomain, IsHeader, Parser.IsKept, Parser.IsRuleOf, Answers;
    OneFilterSpares(o, rules, SaidBy(o, [[h, d]]), d);
    HostSaidBlocks(o, rules', SaidBy(o, [Pushed(e, h, d)]), d);
  }

  lemma HeaderThenDomain(o: Oracle, h: string, d: string)
    requires IsBareDomain(d) && IsHeader(h) && TrimSpace(h) == h
    ensures IsAtMost(SaidBy(o, [[h, d]]), FilterSaying(d))
  {
    var lines := [h, d];
    OneList(o, lines);
    hide SaidAt, SaidBy, TrimSpace, IsBareDomain, IsHeader;
    MarkSaysNothing(o, lines, 0);
    MarkedOnce(lines, 0, 1);
    BareSaysFilter(o, lines, 1);
    TwoLines(o, lines);
  }

  /** The host said, and no exception that answers: navigation to it is blocked. */
  lemma HostSaidBlocks(o: Oracle, rules: seq<NetRule>, said: seq<Saying>, d: string)
    requires AreRulesFor(rules, said) && IsBareDomain(d) && HostSaying(d, Lower(TrimDot(d))) in said
    requires forall s, r :: s in said && IsException(s) && IsRuleFor(r, s) ==> !Answers(o, r, ContextOf(o, Navigation(d)))
    ensures Blocked(o, rules, Navigation(d))
  {
    BareIsDomainBytes(d);
    hide IsBareDomain, IsRuleFor, IsException, Blocked, Answers, ContextOf;
    forall r | r in rules && r.exception ensures !Answers(o, r, ContextOf(o, Navigation(d))) {
      var i :| 0 <= i < |rules| && rules[i] == r;
      ExceptionsAreRules(r, said[i]);
      assert said[i] in said;
    }
    var i :| 0 <= i < |said| && said[i] == HostSaying(d, Lower(TrimDot(d)));
    HostIsRule(rules[i], d, Lower(TrimDot(d)));
    HostRuleBlocks(o, d, d, rules);
  }

  lemma HostIsRule(r: NetRule, line: string, host: string)
    requires IsRuleFor(r, HostSaying(line, host))
    ensures r == Parser.HostRule(line, host)
  {
  }

  lemma ExceptionReads(line: string, abp: bool, lineNo: nat)
    requires HasPrefix(line, "@@")
    ensures ReadLine(line, abp, lineNo) == ReadABPLine(line) && !SetsMark(line, lineNo)
  {
    ExceptionNamesNoHost(line);
    assert line[0] == '@';
    hide HostsName, IsBareDomain, ReadABPLine;
  }

  /** An exception says itself if it is kept, and marks nothing. */
  lemma ExceptionSays(o: Oracle, lines: seq<string>, i: nat)
    requires i < |lines| && HasPrefix(lines[i], "@@") && TrimSpace(lines[i]) == lines[i]
    ensures SaysOnly(o, SaidAt(o, lines, i), lines[i]) && !SetsMark(lines[i], i + 1)
  {
    ExceptionReads(lines[i], Marked(lines, i), i + 1);
    SaidWhenRead(o, lines, i, lines[i], ReadABPLine(lines[i]));
    FiltersAreKept(o, lines[i]);
    hide SaidAt, SetsMark, HasPrefix, TrimSpace, Marked, ReadLine, ReadABPLine, SayingsOf, SaysOnly;
  }

  /** The only exception said is `e`, and only if it is kept. */
  ghost predicate SaysOnly(o: Oracle, said: seq<Saying>, e: string) {
    forall s :: s in said && IsException(s) ==> s == FilterSaying(e) && Parser.IsKept(o, e)
  }

  lemma FiltersAreKept(o: Oracle, line: string)
    ensures SaysOnly(o, SayingsOf(o, line, ReadABPLine(line)), line)
  {
    ABPLineIsNoHost(line);
    hide ReadABPLine, Parser.IsKept;
  }

  lemma ABPLineIsNoHost(line: string)
    ensures !ReadABPLine(line).Host?
  {
  }

  /** A header beyond line five says at most itself, as a filter, and marks nothing. */
  lemma LateHeaderSays(o: Oracle, lines: seq<string>, i: nat)
    requires 5 <= i < |lines| && IsHeader(lines[i]) && TrimSpace(lines[i]) == lines[i]
    ensures forall s :: s in SaidAt(o, lines, i) ==> !IsException(s)
    ensures !SetsMark(lines[i], i + 1)
  {
    assert lines[i][0] == '[';
    hide TrimSpace, Marked, HostsName, IsBareDomain, ReadABPLine, Parser.IsKept, CleanHost;
  }

  lemma PushedSays(o: Oracle, e: string, h: string, d: string)
    requires IsBareDomain(d) && IsHeader(h) && TrimSpace(h) == h
    requires HasPrefix(e, "@@") && TrimSpace(e) == e
    ensures var said := SaidBy(o, [Pushed(e, h, d)]);
            HostSaying(d, Lower(TrimDot(d))) in said && SaysOnly(o, said, e)
  {
    var lines := Pushed(e, h, d);
    OneList(o, lines);
    hide SaidAt, SaidBy, IsBareDomain, IsHeader, Parser.IsKept, IsException, SetsMark, Lower;
    forall i | 0 <= i < 5 ensures SaysOnly(o, SaidAt(o, lines, i), e) && !SetsMark(TrimSpace(lines[i]), i + 1) {
      ExceptionSays(o, lines, i);
    }
    LateHeaderSays(o, lines, 5);
    hide TrimSpace, HasPrefix;
    BareSaysHost(o, lines, 6);
    HostIsNoException(d, Lower(TrimDot(d)));
    assert SaysOnly(o, SaidAt(o, lines, 5), e) && SaysOnly(o, SaidAt(o, lines, 6), e);
    hide SaysOnly;
    SaidUpTo(o, lines, 7, e);
    assert Said(o, lines, 7) == Said(o, lines, 6) + SaidAt(o, lines, 6);
  }

  lemma HostIsNoException(line: string, host: string)
    ensures !IsException(HostSaying(line, host))
  {
  }

  lemma {:induction false} SaidUpTo(o: Oracle, lines: seq<string>, n: nat, e: string)
    requires n <= |lines| && forall i :: 0 <= i < n ==> SaysOnly(o, SaidAt(o, lines, i), e)
    ensures SaysOnly(o, Said(o, lines, n), e)
  {
    hide SaidAt, IsException, Parser.IsKept;
    if n > 0 {
      SaidUpTo(o, lines, n - 1, e);
      assert SaysOnly(o, SaidAt(o, lines, n - 1), e);
    }
  }

  // Such lines exist.

  lemma LabelHasNoDot(l: string)
    requires IsLabel(l)
    ensures '.' !in l && l != "" && l[|l| - 1] != '.'
  {
  }

  /** Any two labels make a bare domain. */
  lemma TwoLabels(a: string, b: string)
    requires IsLabel(a) && IsLabel(b)
    ensures IsBareDomain(a + ['.'] + b)
  {
    LabelHasNoDot(a);
    LabelHasNoDot(b);
    var s := a + ['.'] + b;
    assert TrimSuffix(s, ".") == s by {
      assert s[|s| - 1..] == [b[|b| - 1]];
    }
    SplitNothing(b, '.');
    SplitFirst(a, '.', b);
    hide Split, TrimSuffix, IsLabel, IsOctet;
    assert Split(s, '.') == [a, b];
  }

  lemma ThereIsADomain()
    ensures IsBareDomain("a.b")
  {
    TwoLabels("a", "b");
    hide IsBareDomain;
    assert "a.b" == "a" + ['.'] + "b";
  }

  lemma ThereAreMarks()
    ensures IsComment("!") && TrimSpace("!") == "!"
    ensures IsHeader("[adblock") && TrimSpace("[adblock") == "[adblock"
  {
    TrimNothing("!");
    TrimNothing("[adblock");
    hide TrimSpace;
    assert Lower("[adblock") == "[adblock";
    assert OccursAt("[adblock", "adblock", 1);
  }

  /** An exception whose option is not implemented. */
  lemma ThereIsAnUnkeptException(o: Oracle)
    ensures HasPrefix("@@$x", "@@") && TrimSpace("@@$x") == "@@$x" && !Parser.IsKept(o, "@@$x")
  {
    TrimNothing("@@$x");
    hide TrimSpace;
    assert "@@$x"[2..] == "" + "$" + "x";
    assert Parser.IsSplit("@@$x", "", "x");
    Parser.SplitIsUnique("@@$x", "", "x");
    XIsUnsupported();
    hide Parser.Halves, Parser.OptionsOf, Parser.IsSplit;
  }

  lemma XIsUnsupported()
    ensures exists opt :: opt in Parser.OptionsOf("x") && !Parser.Supported(opt, true)
  {
    XIsRead();
    SplitNothing("x", ',');
    hide Split, Parser.ReadOption;
    var opts := Parser.OptionsOf("x");
    assert opts[0] == Parser.ReadOption("x");
    assert opts[0] in opts && !Parser.Supported(opts[0], true);
  }

  lemma XIsRead()
    ensures Parser.ReadOption("x") == Parser.RuleOption(Parser.Unsupported, "", false)
  {
    TrimNothing("x");
    CutNothing("x", '=');
    XIsNoOption();
    hide TrimSpace, Cut, Parser.KindOf, Lower;
  }

  lemma XIsNoOption()
    ensures Lower("x") == "x" && Parser.KindOf("x") == Parser.Unsupported
  {
    assert Lower("x") == "x";
  }
}
