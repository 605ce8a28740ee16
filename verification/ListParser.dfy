/** Reading a whole filter list: what each line is depends on the lines before it. */
module ListParser {
  import opened Wrappers
  import opened Text
  import opened Rules
  import opened Scanner
  import Parser = RuleParser

  // One line, by itself.

  predicate IsComment(line: string) {
    HasPrefix(line, "!")
  }

  /** A format header; it only counts in the first five lines. */
  predicate IsHeader(line: string) {
    HasPrefix(line, "[") && Contains(Lower(line), "adblock")
  }

  predicate IsHostsComment(line: string) {
    HasPrefix(line, "#") && !HasPrefix(line, "##") && !HasPrefix(line, "#@#")
  }

  predicate IsAlnum(b: char) {
    'a' <= b <= 'z' || 'A' <= b <= 'Z' || '0' <= b <= '9'
  }

  /** Letters and digits, with hyphens only inside. */
  predicate IsLabel(s: string) {
    s != "" && IsAlnum(s[0]) && IsAlnum(s[|s| - 1]) && forall i :: 0 <= i < |s| ==> IsAlnum(s[i]) || s[i] == '-'
  }

  predicate IsOctet(s: string) {
    s != "" && AllDigits(s) && DecimalValue(s) < 256 && (|s| > 1 ==> s[0] != '0')
  }

  predicate IsIPv4(s: string) {
    |Split(s, '.')| == 4 && forall i :: 0 <= i < 4 ==> IsOctet(Split(s, '.')[i])
  }

  /** Two labels or more, perhaps with a final dot, that are no address. */
  predicate IsBareDomain(s: string) {
    var labels := Split(TrimSuffix(s, "."), '.');
    |labels| > 1 && (forall i :: 0 <= i < |labels| ==> IsLabel(labels[i])) && !IsIPv4(s)
  }

  /** A host as rules hold it, or nothing when it cannot be one. */
  function CleanHost(text: string): string {
    var h := Lower(TrimSuffix(TrimSpace(text), "."));
    if NoneOf(h, "/*^|$ ") then h else ""
  }

  /** The white space of a regular expression. */
  const RE_SPACE := " \t\n\U{0C}\r"

  /** How long the address a hosts-file line begins with is, if it is one of those that block. */
  function AddressLength(line: string): nat {
    if HasPrefix(line, "0.0.0.0") then 7
    else if HasPrefix(line, "127.0.0.1") then 9
    else if HasPrefix(line, "::1") then 3
    else if HasPrefix(line, "::") then 2
    else 0
  }

  function AfterSpace(line: string, from: nat): (i: nat)
    requires from <= |line|
    ensures from <= i <= |line|
    decreases |line| - from
  {
    if from < |line| && line[from] in RE_SPACE then AfterSpace(line, from + 1) else from
  }

  /** The name on a hosts-file line: what follows the address and the space after it. */
  function HostsName(line: string): Option<string> {
    var n := AddressLength(line);
    if n == 0 || n > |line| then None
    else
      var from := AfterSpace(line, n);
      var to := FirstOf(line, RE_SPACE + "#", from);
      if from == n || from == to then None else Some(line[from..to])
  }

  const UNSUPPORTED_MARKERS: seq<string> := ["#?#", "#$#", "#%#", "#@?#", "#@$#", "#@%#"]

  const PROCEDURAL: seq<string> := [
    ":has-text(", ":-abp-", ":matches-css", ":xpath(", ":upward(", ":remove(",
    ":style(", ":min-text-length(", ":watch-attr(", ":matches-path(",
    ":matches-attr(", ":matches-prop(", ":others(", ":if(", ":if-not(",
    ":nth-ancestor(", ":remove-attr(", ":remove-class(", ":contains("
  ]

  predicate ContainsAny(s: string, parts: seq<string>) {
    exists i :: 0 <= i < |parts| && Contains(s, parts[i])
  }

  predicate IsPlainSite(text: string) {
    var d := Lower(TrimSpace(text));
    d == "" || HasPrefix(d, "~") || NoneOf(d, "*/")
  }

  predicate ArePlainSites(names: seq<string>) {
    forall i :: 0 <= i < |names| ==> IsPlainSite(names[i])
  }

  /** One element-hiding rule: what it hides, and on which sites. */
  datatype HidingRule = HidingRule(selector: string, domains: seq<string>, notDomains: seq<string>, exception: bool)

  /** Whether an element-hiding line is kept. */
  predicate HidingIsKept(sites: string, text: string) {
    var selector := TrimSpace(text);
    && selector != "" && !HasPrefix(selector, "+js(") && !HasPrefix(selector, "^")
    && NoneOf(selector, "<{}\\") && !Contains(Lower(selector), "</style")
    && !ContainsAny(Lower(selector), PROCEDURAL)
    && (sites != "" ==> ArePlainSites(Split(sites, ',')))
  }

  function HidingOf(sites: string, text: string, exception: bool): Option<HidingRule> {
    if HidingIsKept(sites, text) then
      var names := Split(sites, ',');
      Some(HidingRule(TrimSpace(text), Parser.Included(names), Parser.Excluded(names), exception))
    else None
  }

  // One line, in its place.

  /** What a line is read as: nothing, a sign that the list is in Adblock Plus syntax, a host to
      block, an element-hiding rule, or a network filter. */
  datatype Reading = Nothing | Mark | Host(host: string) | Hiding(rule: Option<HidingRule>) | Filter

  function ReadABPLine(line: string): (r: Reading)
    ensures r.Hiding? || r.Filter?
  {
    if ContainsAny(line, UNSUPPORTED_MARKERS) then Hiding(None)
    else if Contains(line, "#@#") then Hiding(HidingOf(line[..Index(line, "#@#")], line[Index(line, "#@#") + 3..], true))
    else if Contains(line, "##") then Hiding(HidingOf(line[..Index(line, "##")], line[Index(line, "##") + 2..], false))
    else Filter
  }

  /** Line number `lineNo`, trimmed, after lines that did or did not mark the syntax. */
  function ReadLine(line: string, abp: bool, lineNo: nat): Reading {
    if line == "" then Nothing
    else if lineNo <= 5 && IsHeader(line) then Mark
    else if IsComment(line) then Mark
    else if IsHostsComment(line) then Nothing
    else if HostsName(line).Some? then
      var h := CleanHost(HostsName(line).value);
      if h != "" && h != "localhost" && h != "0.0.0.0" then Host(h) else Nothing
    else if !abp && IsBareDomain(line) then Host(CleanHost(line))
    else ReadABPLine(line)
  }

  predicate SetsMark(line: string, lineNo: nat) {
    IsComment(line) || (lineNo <= 5 && IsHeader(line))
  }

  /** Some line before place `i` marked the syntax. */
  ghost predicate Marked(lines: seq<string>, i: nat) {
    exists j :: 0 <= j < i && j < |lines| && SetsMark(TrimSpace(lines[j]), j + 1)
  }

  ghost function ReadAt(lines: seq<string>, i: nat): Reading
    requires i < |lines|
  {
    ReadLine(TrimSpace(lines[i]), Marked(lines, i), i + 1)
  }

  /** What a line says about network requests: a host to block, or a filter. */
  datatype Saying = HostSaying(line: string, host: string) | FilterSaying(line: string)

  /** What a line says when it is read this way; a filter that is not kept says nothing. */
  ghost function SayingsOf(o: Oracle, line: string, reading: Reading): seq<Saying> {
    match reading
    case Host(h) => [HostSaying(line, h)]
    case Filter => if Parser.IsKept(o, line) then [FilterSaying(line)] else []
    case _ => []
  }

  ghost function SaidAt(o: Oracle, lines: seq<string>, i: nat): seq<Saying>
    requires i < |lines|
  {
    SayingsOf(o, TrimSpace(lines[i]), ReadAt(lines, i))
  }

  ghost function Said(o: Oracle, lines: seq<string>, n: nat): seq<Saying>
    requires n <= |lines|
  {
    if n == 0 then [] else Said(o, lines, n - 1) + SaidAt(o, lines, n - 1)
  }

  /** The element-hiding rules among the lines, in order. */
  ghost function HidingsIn(lines: seq<string>, n: nat): seq<HidingRule>
    requires n <= |lines|
  {
    if n == 0 then []
    else
      HidingsIn(lines, n - 1)
      + match ReadAt(lines, n - 1)
        case Hiding(Some(rule)) => [rule]
        case _ => []
  }

  /** The line is counted as skipped. */
  ghost predicate IsSkipped(o: Oracle, lines: seq<string>, i: nat)
    requires i < |lines|
  {
    match ReadAt(lines, i)
    case Hiding(rule) => rule.None?
    case Filter => !Parser.IsKept(o, TrimSpace(lines[i]))
    case _ => false
  }

  ghost function SkippedIn(o: Oracle, lines: seq<string>, n: nat): nat
    requires n <= |lines|
  {
    if n == 0 then 0 else SkippedIn(o, lines, n - 1) + if IsSkipped(o, lines, n - 1) then 1 else 0
  }

  /** The rule that says it. */
  ghost predicate IsRuleFor(r: NetRule, s: Saying) {
    match s
    case HostSaying(line, h) => r == Parser.HostRule(line, h)
    case FilterSaying(line) => Parser.IsRuleOf(r, line)
  }

  ghost predicate AreRulesFor(rules: seq<NetRule>, said: seq<Saying>) {
    |rules| == |said| && forall i :: 0 <= i < |rules| ==> IsRuleFor(rules[i], said[i])
  }

  /** What comes of a line: at most one rule of either kind, and whether it was skipped. */
  datatype Outcome = Outcome(rule: Option<NetRule>, hiding: Option<HidingRule>, skipped: bool) {
    function Kept(): nat {
      if rule.Some? || hiding.Some? then 1 else 0
    }
  }

  const NO_OUTCOME := Outcome(None, None, false)

  /** What comes of a line that is read this way. */
  ghost predicate IsOutcome(o: Oracle, line: string, reading: Reading, out: Outcome) {
    match reading
    case Host(h) => out == Outcome(Some(Parser.HostRule(line, h)), None, false)
    case Filter =>
      && (out.rule.Some? <==> Parser.IsKept(o, line)) && out.skipped == out.rule.None? && out.hiding == None
      && (out.rule.Some? ==> Parser.IsRuleOf(out.rule.value, line))
    case Hiding(h) => out == Outcome(None, h, h.None?)
    case _ => out == NO_OUTCOME
  }

  /** One more line, read in its place. */
  method ParseLine(o: Oracle, line: string, abp: bool, lineNo: nat) returns (mark: bool, out: Outcome)
    ensures mark <==> SetsMark(line, lineNo)
    ensures IsOutcome(o, line, ReadLine(line, abp, lineNo), out)
    ensures out.rule.Some? ==> WellFormed(out.rule.value)
  {
    hide Parser.IsKept, Parser.IsRuleOf, IsBareDomain, HostsName, CleanHost, ReadABPLine;
    mark, out := false, NO_OUTCOME;
    if line == "" {
      return;
    }
    if lineNo <= 5 && IsHeader(line) {
      mark := true;
      return;
    }
    if IsComment(line) {
      mark := true;
      return;
    }
    if IsHostsComment(line) {
      return;
    }
    var name := HostsName(line);
    if name.Some? {
      var h := CleanHost(name.value);
      if h != "" && h != "localhost" && h != "0.0.0.0" {
        out := Outcome(Some(Parser.HostRule(line, h)), None, false);
        Parser.HostRuleIsWellFormed(line, h);
      }
      return;
    }
    if !abp && IsBareDomain(line) {
      out := Outcome(Some(Parser.HostRule(line, CleanHost(line))), None, false);
      Parser.HostRuleIsWellFormed(line, CleanHost(line));
      return;
    }
    out := ParseABPLine(o, line);
  }

  /** An Adblock Plus line: an element-hiding rule, or a network filter. */
  method ParseABPLine(o: Oracle, line: string) returns (out: Outcome)
    ensures IsOutcome(o, line, ReadABPLine(line), out)
    ensures out.rule.Some? ==> WellFormed(out.rule.value)
  {
    hide Parser.IsKept, Parser.IsRuleOf, HidingOf, WellFormed;
    if ContainsAny(line, UNSUPPORTED_MARKERS) {
      return Outcome(None, None, true);
    }
    if Contains(line, "#@#") {
      var i := Index(line, "#@#");
      var hiding := ParseCosmetic(line[..i], line[i + 3..], true);
      return Outcome(None, hiding, hiding.None?);
    }
    if Contains(line, "##") {
      var i := Index(line, "##");
      var hiding := ParseCosmetic(line[..i], line[i + 2..], false);
      return Outcome(None, hiding, hiding.None?);
    }
    var rule := Parser.ParseNetRule(o, line);
    out := Outcome(rule, None, rule.None?);
  }

  /** An element-hiding rule is kept when its selector is plain CSS and its sites are plain names. */
  method ParseCosmetic(sites: string, text: string, exception: bool) returns (rule: Option<HidingRule>)
    ensures rule == HidingOf(sites, text, exception)
  {
    var selector := TrimSpace(text);
    hide TrimSpace, Split;
    if selector == "" || HasPrefix(selector, "+js(") || HasPrefix(selector, "^") {
      return None;
    }
    if !NoneOf(selector, "<{}\\") || Contains(Lower(selector), "</style") || ContainsAny(Lower(selector), PROCEDURAL) {
      return None;
    }
    hide NoneOf, Contains, ContainsAny, HasPrefix;
    var ok, domains, notDomains := ReadSites(sites);
    rule := if ok then Some(HidingRule(selector, domains, notDomains, exception)) else None;
  }

  lemma OneMoreSite(names: seq<string>, i: nat, d: string)
    requires i < |names| && d == Lower(TrimSpace(names[i])) && ArePlainSites(names[..i])
    ensures ArePlainSites(names[..i + 1]) <==> d == "" || HasPrefix(d, "~") || NoneOf(d, "*/")
    ensures !ArePlainSites(names[..i + 1]) ==> !ArePlainSites(names)
    ensures Parser.Included(names[..i + 1]) == Parser.Included(names[..i]) + if d == "" || HasPrefix(d, "~") then [] else [d]
    ensures Parser.Excluded(names[..i + 1]) == Parser.Excluded(names[..i]) + if HasPrefix(d, "~") then [d[1..]] else []
    ensures HasPrefix(d, "~") ==> d != ""
  {
    hide TrimSpace, Lower, NoneOf;
    assert names[..i + 1][..i] == names[..i] && names[..i + 1][i] == names[i];
    forall j | 0 <= j < i ensures IsPlainSite(names[j]) {
      assert names[..i][j] == names[j];
    }
  }

  method ReadSites(sites: string) returns (ok: bool, domains: seq<string>, notDomains: seq<string>)
    ensures ok <==> (sites != "" ==> ArePlainSites(Split(sites, ',')))
    ensures ok ==> domains == Parser.Included(Split(sites, ',')) && notDomains == Parser.Excluded(Split(sites, ','))
  {
    domains, notDomains := [], [];
    if sites == "" {
      SplitNothing(sites, ',');
      return true, domains, notDomains;
    }
    var names := Split(sites, ',');
    NoSites(names);
    hide *;
    for i := 0 to |names|
      invariant ArePlainSites(names[..i])
      invariant domains == Parser.Included(names[..i]) && notDomains == Parser.Excluded(names[..i])
    {
      var d := Lower(TrimSpace(names[i]));
      OneMoreSite(names, i, d);
      if d == "" {
        continue;
      }
      if HasPrefix(d, "~") {
        notDomains := notDomains + [d[1..]];
        continue;
      }
      if !NoneOf(d, "*/") {
        return false, domains, notDomains;
      }
      domains := domains + [d];
    }
    assert names[..|names|] == names;
    ok := true;
  }

  lemma NoSites(names: seq<string>)
    ensures ArePlainSites(names[..0]) && Parser.Included(names[..0]) == [] && Parser.Excluded(names[..0]) == []
  {
  }

  /** Read one list after `before` and `hidden`: its rules of either kind in order, how many there are,
      and how many of its lines were skipped; a line that is too long stops the reading. */
  method ParseList(o: Oracle, text: string, before: seq<NetRule>, hidden: seq<HidingRule>, ghost said: seq<Saying>)
    returns (rules: seq<NetRule>, hidings: seq<HidingRule>, count: nat, skipped: nat, ok: bool)
    requires AreRulesFor(before, said) && forall r :: r in before ==> WellFormed(r)
    ensures var lines := Scan(text).lines;
            && AreRulesFor(rules, said + Said(o, lines, |lines|)) && skipped == SkippedIn(o, lines, |lines|)
            && hidings == hidden + HidingsIn(lines, |lines|)
    ensures count == |rules| - |before| + |hidings| - |hidden|
    ensures forall r :: r in rules ==> WellFormed(r)
    ensures ok == !Scan(text).tooLong
  {
    hide Scan, ReadLine, SetsMark, WellFormed, IsRuleFor, TrimSpace, Parser.IsKept, IsOutcome;
    var scan := Scan(text);
    var abp, lineNo := false, 0;
    rules, hidings, count, skipped := before, hidden, 0, 0;
    assert said + Said(o, scan.lines, 0) == said;
    while lineNo < |scan.lines|
      invariant lineNo <= |scan.lines|
      invariant abp <==> Marked(scan.lines, lineNo)
      invariant AreRulesFor(rules, said + Said(o, scan.lines, lineNo)) && skipped == SkippedIn(o, scan.lines, lineNo)
      invariant hidings == hidden + HidingsIn(scan.lines, lineNo)
      invariant count == |rules| - |before| + |hidings| - |hidden|
      invariant forall r :: r in rules ==> WellFormed(r)
    {
      var line := TrimSpace(scan.lines[lineNo]);
      var mark, out := ParseLine(o, line, abp, lineNo + 1);
      OneMoreLine(o, scan.lines, lineNo, rules, said, mark, out);
      abp := abp || mark;
      if out.rule.Some? {
        rules := rules + [out.rule.value];
      }
      if out.hiding.Some? {
        hidings := hidings + [out.hiding.value];
      }
      count := count + out.Kept();
      skipped := if out.skipped then skipped + 1 else skipped;
      lineNo := lineNo + 1;
    }
    ok := !scan.tooLong;
  }

  lemma OneMoreLine(o: Oracle, lines: seq<string>, i: nat, rules: seq<NetRule>, said: seq<Saying>, mark: bool, out: Outcome)
    requires i < |lines| && AreRulesFor(rules, said + Said(o, lines, i))
    requires mark <==> SetsMark(TrimSpace(lines[i]), i + 1)
    requires IsOutcome(o, TrimSpace(lines[i]), ReadAt(lines, i), out)
    ensures Marked(lines, i + 1) <==> Marked(lines, i) || mark
    ensures AreRulesFor(if out.rule.Some? then rules + [out.rule.value] else rules, said + Said(o, lines, i + 1))
    ensures SkippedIn(o, lines, i + 1) == SkippedIn(o, lines, i) + if out.skipped then 1 else 0
    ensures HidingsIn(lines, i + 1) == HidingsIn(lines, i) + if out.hiding.Some? then [out.hiding.value] else []
    ensures out.rule.None? || out.hiding.None?
  {
    hide ReadAt, SetsMark, TrimSpace, Parser.IsKept, Parser.IsRuleOf, Parser.HostRule;
    assert said + Said(o, lines, i + 1) == (said + Said(o, lines, i)) + SaidAt(o, lines, i);
  }
}
