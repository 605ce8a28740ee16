/** From filter lists to answers: compiling lists, and what the answers depend on. */
module Compiler {
  import opened Wrappers
  import opened Text
  import opened Scanner
  import opened Rules
  import opened Engine
  import opened ListParser
  import opened Readings
  import Parser = RuleParser

  /** A list's lines, as they are scanned. */
  function LinesOf(texts: seq<string>): seq<seq<string>> {
    seq(|texts|, i requires 0 <= i < |texts| => Scan(texts[i]).lines)
  }

  /** What the lists say, one after the other. */
  ghost function SaidBy(o: Oracle, lists: seq<seq<string>>): seq<Saying> {
    if lists == [] then []
    else
      var last := lists[|lists| - 1];
      SaidBy(o, lists[..|lists| - 1]) + Said(o, last, |last|)
  }

  ghost function SkippedBy(o: Oracle, lists: seq<seq<string>>): nat {
    if lists == [] then 0
    else
      var last := lists[|lists| - 1];
      SkippedBy(o, lists[..|lists| - 1]) + SkippedIn(o, last, |last|)
  }

  /** One rule for each thing the lists say, in order. */
  ghost predicate AreRulesOf(o: Oracle, rules: seq<NetRule>, lists: seq<seq<string>>) {
    AreRulesFor(rules, SaidBy(o, lists))
  }

  /** Compile lists, unless one has a line that is too long. */
  method Compile(o: Oracle, texts: seq<string>) returns (e: FilterEngine?, skipped: nat)
    ensures e == null <==> exists i :: 0 <= i < |texts| && Scan(texts[i]).tooLong
    ensures e != null ==>
      && fresh(e) && e.Valid() && AreRulesOf(o, e.rules, LinesOf(texts)) && skipped == SkippedBy(o, LinesOf(texts))
  {
    hide Scan, Said, SkippedIn, AreRulesFor, WellFormed, HidingsIn;
    var rules: seq<NetRule> := [];
    skipped := 0;
    ghost var lists := LinesOf(texts);
    NothingSaid(o, lists);
    hide SaidBy, SkippedBy;
    for i := 0 to |texts|
      invariant forall r :: r in rules ==> WellFormed(r)
      invariant forall j :: 0 <= j < i ==> !Scan(texts[j]).tooLong
      invariant AreRulesFor(rules, SaidBy(o, lists[..i])) && skipped == SkippedBy(o, lists[..i])
    {
      OneMoreList(o, lists, i);
      var more, _, _, skips, ok := ParseList(o, texts[i], rules, [], SaidBy(o, lists[..i]));
      if !ok {
        return null, 0;
      }
      rules, skipped := more, skipped + skips;
    }
    assert lists[..|lists|] == lists;
    e := new FilterEngine(rules);
  }

  lemma NothingSaid(o: Oracle, lists: seq<seq<string>>)
    ensures AreRulesFor([], SaidBy(o, lists[..0])) && SkippedBy(o, lists[..0]) == 0
  {
  }

  lemma OneMoreList(o: Oracle, lists: seq<seq<string>>, i: nat)
    requires i < |lists|
    ensures SaidBy(o, lists[..i + 1]) == SaidBy(o, lists[..i]) + Said(o, lists[i], |lists[i]|)
    ensures SkippedBy(o, lists[..i + 1]) == SkippedBy(o, lists[..i]) + SkippedIn(o, lists[i], |lists[i]|)
  {
    hide Said, SkippedIn;
    assert lists[..i + 1][..i] == lists[..i] && lists[..i + 1][i] == lists[i];
  }

  // Answers depend on what is said.

  /** Rules that are one another's sayings are the same. */
  lemma SayingsAreRules(o: Oracle, rules: seq<NetRule>, said: seq<Saying>, rules': seq<NetRule>, said': seq<Saying>, r: NetRule)
    returns (s: Saying)
    requires AreRulesFor(rules, said) && AreRulesFor(rules', said') && r in rules
    ensures s in said && IsRuleFor(r, s) && (s in said' ==> r in rules')
  {
    var i :| 0 <= i < |rules| && rules[i] == r;
    s := said[i];
    hide IsRuleFor;
    if s in said' {
      var j :| 0 <= j < |said'| && said'[j] == s;
      OneRuleEach(rules'[j], r, s);
    }
  }

  lemma OneRuleEach(r: NetRule, r': NetRule, s: Saying)
    requires IsRuleFor(r, s) && IsRuleFor(r', s)
    ensures r == r'
  {
    hide Parser.IsRuleOf;
    if s.FilterSaying? {
      Parser.RuleIsUnique(r, r', s.line);
    }
  }

  /** A saying is an exception when it is a filter that begins with "@@". */
  predicate IsException(s: Saying) {
    s.FilterSaying? && HasPrefix(s.line, "@@")
  }

  lemma ExceptionsAreRules(r: NetRule, s: Saying)
    requires IsRuleFor(r, s)
    ensures r.exception <==> IsException(s)
  {
  }

  // What is said depends on the lines and their places.

  ghost predicate IsPlace(lists: seq<seq<string>>, a: int, i: int) {
    0 <= a < |lists| && 0 <= i < |lists[a]|
  }

  ghost function LineAt(lists: seq<seq<string>>, a: int, i: int): string
    requires IsPlace(lists, a, i)
  {
    TrimSpace(lists[a][i])
  }

  lemma {:induction false} SaidAtPlace(o: Oracle, lines: seq<string>, n: nat, s: Saying)
    requires n <= |lines|
    ensures s in Said(o, lines, n) <==> exists i: nat :: i < n && s in SaidAt(o, lines, i)
  {
    hide SaidAt;
    if n > 0 {
      SaidAtPlace(o, lines, n - 1, s);
    }
  }

  lemma {:induction false} SaidByPlace(o: Oracle, lists: seq<seq<string>>, s: Saying)
    ensures s in SaidBy(o, lists) <==> exists a, i :: IsPlace(lists, a, i) && s in SaidAt(o, lists[a], i)
  {
    hide SaidAt, Said;
    if lists != [] {
      var n := |lists| - 1;
      SaidByPlace(o, lists[..n], s);
      SaidAtPlace(o, lists[n], |lists[n]|, s);
      if a, i :| IsPlace(lists, a, i) && s in SaidAt(o, lists[a], i) {
        assert a < n ==> IsPlace(lists[..n], a, i) && lists[..n][a] == lists[a];
      }
      if a, i :| IsPlace(lists[..n], a, i) && s in SaidAt(o, lists[..n][a], i) {
        assert IsPlace(lists, a, i) && lists[..n][a] == lists[a];
      }
      if i: nat :| i < |lists[n]| && s in SaidAt(o, lists[n], i) {
        assert IsPlace(lists, n, i);
      }
    }
  }

  /** The same line at two places, alike in what the line depends on. */
  ghost predicate IsAlike(lists: seq<seq<string>>, a: int, i: int, lists': seq<seq<string>>, b: int, j: int)
    requires IsPlace(lists, a, i) && IsPlace(lists', b, j)
  {
    && LineAt(lists, a, i) == LineAt(lists', b, j)
    && SameContext(LineAt(lists, a, i), Marked(lists[a], i), i + 1, Marked(lists'[b], j), j + 1)
  }

  /** The line at a place of `lists` is also found in `lists'`, and read there as it was. */
  ghost predicate IsFound(lists: seq<seq<string>>, a: int, i: int, lists': seq<seq<string>>)
    requires IsPlace(lists, a, i)
  {
    exists b, j :: IsPlace(lists', b, j) && IsAlike(lists, a, i, lists', b, j)
  }

  ghost predicate AllFound(lists: seq<seq<string>>, lists': seq<seq<string>>) {
    forall a, i :: IsPlace(lists, a, i) ==> IsFound(lists, a, i, lists')
  }

  lemma FoundSaysTheSame(o: Oracle, lists: seq<seq<string>>, a: int, i: int, lists': seq<seq<string>>, s: Saying)
    requires IsPlace(lists, a, i) && IsFound(lists, a, i, lists') && s in SaidAt(o, lists[a], i)
    ensures s in SaidBy(o, lists')
  {
    hide SameContext, ReadAt, TrimSpace, Marked, Parser.IsKept;
    var b, j :| IsPlace(lists', b, j) && IsAlike(lists, a, i, lists', b, j);
    ReadAtUnchanged(lists[a], i, lists'[b], j);
    assert s in SaidAt(o, lists'[b], j);
    SaidByPlace(o, lists', s);
  }

  /** A rule's saying, and where it is said. */
  lemma WhereSaid(o: Oracle, rules: seq<NetRule>, lists: seq<seq<string>>, rules': seq<NetRule>, lists': seq<seq<string>>, r: NetRule)
    returns (a: int, i: int)
    requires AreRulesOf(o, rules, lists) && AreRulesOf(o, rules', lists') && r in rules
    ensures IsPlace(lists, a, i) && (r.exception <==> HasPrefix(LineAt(lists, a, i), "@@"))
    ensures IsFound(lists, a, i, lists') ==> r in rules'
  {
    hide SaidAt, IsFound, IsRuleFor, SaidBy, HasPrefix;
    var s := SayingsAreRules(o, rules, SaidBy(o, lists), rules', SaidBy(o, lists'), r);
    SaidByPlace(o, lists, s);
    a, i :| IsPlace(lists, a, i) && s in SaidAt(o, lists[a], i);
    SayingIsLine(o, lists[a], i, s);
    ExceptionsAreRules(r, s);
    if IsFound(lists, a, i, lists') {
      FoundSaysTheSame(o, lists, a, i, lists', s);
    }
  }

  /** A saying repeats its line, and only filters begin with "@@". */
  lemma SayingIsLine(o: Oracle, lines: seq<string>, i: nat, s: Saying)
    requires i < |lines| && s in SaidAt(o, lines, i)
    ensures s.line == TrimSpace(lines[i]) && (IsException(s) <==> HasPrefix(s.line, "@@"))
  {
    var line := TrimSpace(lines[i]);
    if HasPrefix(line, "@@") {
      ExceptionIsFilter(line, Marked(lines, i), i + 1);
    }
    hide TrimSpace, Marked, Parser.IsKept, ReadLine, HasPrefix;
  }

  lemma ExceptionIsFilter(line: string, abp: bool, lineNo: nat)
    requires HasPrefix(line, "@@")
    ensures !ReadLine(line, abp, lineNo).Host?
  {
    ExceptionNamesNoHost(line);
    assert line[0] == '@';
    hide HostsName, IsBareDomain, ReadABPLine;
  }

  lemma ExceptionNamesNoHost(line: string)
    requires HasPrefix(line, "@@")
    ensures HostsName(line) == None && !IsBareDomain(line)
  {
    assert line[0] == '@';
    if IsBareDomain(line) {
      BareIsDomainBytes(line);
    }
  }

  /** The order of lines, and lines said twice, make no difference as long as each line is found on the
      other side, and read there as it was. */
  lemma SameLinesSameAnswers(o: Oracle, lists: seq<seq<string>>, lists': seq<seq<string>>, rules: seq<NetRule>,
                             rules': seq<NetRule>, req: Request)
    requires AreRulesOf(o, rules, lists) && AreRulesOf(o, rules', lists')
    requires AllFound(lists, lists') && AllFound(lists', lists)
    ensures Blocked(o, rules, req) <==> Blocked(o, rules', req)
  {
    hide AreRulesOf, Blocked, HasPrefix, IsFound;
    forall r | r in rules ensures r in rules' {
      var a, i := WhereSaid(o, rules, lists, rules', lists', r);
    }
    forall r | r in rules' ensures r in rules {
      var a, i := WhereSaid(o, rules', lists', rules, lists, r);
    }
    OnlyTheSetOfRulesMatters(o, rules, rules', req);
  }

  /** Lines that do not begin with "@@" never let a blocked request through, as long as the old lines
      are still read as they were. */
  lemma BlockingLinesNeverUnblock(o: Oracle, lists: seq<seq<string>>, all: seq<seq<string>>, rules: seq<NetRule>,
                                  rules': seq<NetRule>, req: Request)
    requires AreRulesOf(o, rules, lists) && AreRulesOf(o, rules', all)
    requires AllFound(lists, all)
    requires forall a, i :: IsPlace(all, a, i) && HasPrefix(LineAt(all, a, i), "@@") ==> IsFound(all, a, i, lists)
    requires Blocked(o, rules, req)
    ensures Blocked(o, rules', req)
  {
    hide AreRulesOf, Blocked, HasPrefix, IsFound;
    forall r | r in rules ensures r in rules' {
      var a, i := WhereSaid(o, rules, lists, rules', all, r);
    }
    forall r | r in rules' && r.exception ensures r in rules {
      var a, i := WhereSaid(o, rules', all, rules, lists, r);
    }
    AddingBlockRulesNeverUnblocks(o, rules, rules', req);
  }

  /** Lines that begin with "@@" never block a request that got through, as long as the old lines are
      still read as they were. */
  lemma ExceptionLinesNeverBlock(o: Oracle, lists: seq<seq<string>>, all: seq<seq<string>>, rules: seq<NetRule>,
                                 rules': seq<NetRule>, req: Request)
    requires AreRulesOf(o, rules, lists) && AreRulesOf(o, rules', all)
    requires AllFound(lists, all)
    requires forall a, i :: IsPlace(all, a, i) && !HasPrefix(LineAt(all, a, i), "@@") ==> IsFound(all, a, i, lists)
    requires Blocked(o, rules', req)
    ensures Blocked(o, rules, req)
  {
    hide AreRulesOf, Blocked, HasPrefix, IsFound;
    forall r | r in rules ensures r in rules' {
      var a, i := WhereSaid(o, rules, lists, rules', all, r);
    }
    forall r | r in rules' && !r.exception ensures r in rules {
      var a, i := WhereSaid(o, rules', all, rules, lists, r);
    }
    AddingExceptionsNeverBlocks(o, rules, rules', req);
  }

  /** Whole lists may come in any order, and more than once. */
  lemma ListOrderIsFree(o: Oracle, lists: seq<seq<string>>, lists': seq<seq<string>>, rules: seq<NetRule>,
                        rules': seq<NetRule>, req: Request)
    requires AreRulesOf(o, rules, lists) && AreRulesOf(o, rules', lists')
    requires forall l :: l in lists <==> l in lists'
    ensures Blocked(o, rules, req) <==> Blocked(o, rules', req)
  {
    hide AreRulesOf, Blocked;
    SubsetFound(lists, lists');
    SubsetFound(lists', lists);
    SameLinesSameAnswers(o, lists, lists', rules, rules', req);
  }

  lemma SubsetFound(lists: seq<seq<string>>, lists': seq<seq<string>>)
    requires forall l :: l in lists ==> l in lists'
    ensures AllFound(lists, lists')
  {
    hide SameContext, TrimSpace, Marked;
    forall a, i | IsPlace(lists, a, i) ensures IsFound(lists, a, i, lists') {
      assert lists[a] in lists';
      var b :| 0 <= b < |lists'| && lists'[b] == lists[a];
      ItselfIsAlike(lists, a, i, lists', b);
    }
  }

  lemma ItselfIsAlike(lists: seq<seq<string>>, a: int, i: int, lists': seq<seq<string>>, b: int)
    requires IsPlace(lists, a, i) && 0 <= b < |lists'| && lists'[b] == lists[a]
    ensures IsPlace(lists', b, i) && IsAlike(lists, a, i, lists', b, i)
  {
  }

  // One line added to one list.

  /** Every old line is found in the new list, and every line of the new one, but for the new line, in the old. */
  lemma OldLinesFound(lines: seq<string>, k: nat, x: string)
    requires k <= |lines| && !PushesHeader(lines, k) && !MarksBareDomain(lines, k, x)
    ensures AllFound([lines], [Inserted(lines, k, x)])
    ensures forall a, i ::
              IsPlace([Inserted(lines, k, x)], a, i) && LineAt([Inserted(lines, k, x)], a, i) != TrimSpace(x) ==>
              IsFound([Inserted(lines, k, x)], a, i, [lines])
  {
    hide Inserted, IsFound, PushesHeader, MarksBareDomain, TrimSpace;
    var old_, all := [lines], [Inserted(lines, k, x)];
    forall a, i | IsPlace(old_, a, i) ensures IsFound(old_, a, i, all) {
      OldLineFound(lines, k, x, i);
    }
    forall a, i | IsPlace(all, a, i) && LineAt(all, a, i) != TrimSpace(x) ensures IsFound(all, a, i, old_) {
      NewLineFound(lines, k, x, i);
    }
  }

  lemma OldLineFound(lines: seq<string>, k: nat, x: string, i: nat)
    requires k <= |lines| && i < |lines| && !PushesHeader(lines, k) && !MarksBareDomain(lines, k, x)
    ensures IsFound([lines], 0, i, [Inserted(lines, k, x)])
  {
    hide Inserted, IsAlike, PushesHeader, MarksBareDomain;
    StaysAlike(lines, k, x, i);
  }

  lemma NewLineFound(lines: seq<string>, k: nat, x: string, j: nat)
    requires k <= |lines| && !PushesHeader(lines, k) && !MarksBareDomain(lines, k, x)
    requires j < |Inserted(lines, k, x)| && TrimSpace(Inserted(lines, k, x)[j]) != TrimSpace(x)
    ensures IsFound([Inserted(lines, k, x)], 0, j, [lines])
  {
    var i := OldPlace(lines, k, x, j);
    hide Inserted, IsAlike, PushesHeader, MarksBareDomain, TrimSpace;
    StaysAlike(lines, k, x, i);
  }

  lemma OldPlace(lines: seq<string>, k: nat, x: string, j: nat) returns (i: nat)
    requires k <= |lines| && j < |Inserted(lines, k, x)| && TrimSpace(Inserted(lines, k, x)[j]) != TrimSpace(x)
    ensures i < |lines| && Shift(k, i) == j
  {
    hide TrimSpace;
    assert Inserted(lines, k, x)[k] == x;
    i := if j < k then j else j - 1;
  }

  lemma StaysAlike(lines: seq<string>, k: nat, x: string, i: nat)
    requires k <= |lines| && i < |lines| && !PushesHeader(lines, k) && !MarksBareDomain(lines, k, x)
    ensures var j, old_, all := Shift(k, i), [lines], [Inserted(lines, k, x)];
            IsPlace(old_, 0, i) && IsPlace(all, 0, j) && IsAlike(old_, 0, i, all, 0, j) && IsAlike(all, 0, j, old_, 0, i)
  {
    InsertedAt(lines, k, x);
    assert Inserted(lines, k, x)[Shift(k, i)] == lines[i];
    hide SameContext, ReadAt, Marked, TrimSpace, Inserted, PushesHeader, MarksBareDomain;
    AddingOneLine(lines, k, x);
    ReadAtUnchanged(lines, i, Inserted(lines, k, x), Shift(k, i));
    ReadAtUnchanged(Inserted(lines, k, x), Shift(k, i), lines, i);
  }

  /** One line without "@@", put anywhere it pushes no header and marks no bare domain, lets no blocked
      request through. */
  lemma AddingBlockingLine(o: Oracle, lines: seq<string>, k: nat, x: string, rules: seq<NetRule>, rules': seq<NetRule>, req: Request)
    requires k <= |lines| && !PushesHeader(lines, k) && !MarksBareDomain(lines, k, x) && !HasPrefix(TrimSpace(x), "@@")
    requires AreRulesOf(o, rules, [lines]) && AreRulesOf(o, rules', [Inserted(lines, k, x)])
    requires Blocked(o, rules, req)
    ensures Blocked(o, rules', req)
  {
    OldLinesFound(lines, k, x);
    hide AreRulesOf, Blocked, AllFound, IsPlace, IsFound, LineAt, HasPrefix, Inserted, TrimSpace, MarksBareDomain, PushesHeader;
    BlockingLinesNeverUnblock(o, [lines], [Inserted(lines, k, x)], rules, rules', req);
  }

  /** One line with "@@", put likewise, blocks no request that got through. */
  lemma AddingExceptionLine(o: Oracle, lines: seq<string>, k: nat, x: string, rules: seq<NetRule>, rules': seq<NetRule>, req: Request)
    requires k <= |lines| && !PushesHeader(lines, k) && HasPrefix(TrimSpace(x), "@@")
    requires AreRulesOf(o, rules, [lines]) && AreRulesOf(o, rules', [Inserted(lines, k, x)])
    requires Blocked(o, rules', req)
    ensures Blocked(o, rules, req)
  {
    ExceptionMarksNothing(lines, k, x);
    OldLinesFound(lines, k, x);
    hide AreRulesOf, Blocked, AllFound, IsPlace, IsFound, LineAt, HasPrefix, Inserted, TrimSpace, MarksBareDomain, PushesHeader;
    ExceptionLinesNeverBlock(o, [lines], [Inserted(lines, k, x)], rules, rules', req);
  }

  lemma ExceptionMarksNothing(lines: seq<string>, k: nat, x: string)
    requires HasPrefix(TrimSpace(x), "@@")
    ensures !MarksBareDomain(lines, k, x)
  {
    hide TrimSpace, Marked, IsBareDomain;
    assert TrimSpace(x)[0] == '@';
    assert !SetsMark(TrimSpace(x), k + 1);
  }
}
