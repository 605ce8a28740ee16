/** Parsing one Adblock Plus network filter line into a rule, or refusing it. */
module RuleParser {
  import opened Wrappers
  import opened Text
  import opened Rules
  import opened HostRules

  datatype OptionKind =
    | Nothing | Typed(t: ResourceType) | AllTypes | ThirdParty | FirstParty | Domains | Important | MatchCase
    | ElemHide | GenericHide | Unsupported

  /** One `$option`, read. */
  datatype RuleOption = RuleOption(kind: OptionKind, value: string, negated: bool)

  function KindOf(name: string): OptionKind {
    if name in TYPE_NAMES then Typed(TYPE_NAMES[name])
    else if name == "third-party" || name == "3p" then ThirdParty
    else if name == "first-party" || name == "1p" then FirstParty
    else if name == "domain" || name == "from" then Domains
    else if name == "important" then Important
    else if name == "match-case" then MatchCase
    else if name == "all" then AllTypes
    else if name == "elemhide" || name == "ehide" then ElemHide
    else if name == "generichide" || name == "ghide" then GenericHide
    else Unsupported
  }

  function ReadOption(text: string): RuleOption {
    var opt := TrimSpace(text);
    if opt == "" then RuleOption(Nothing, "", false)
    else
      var (name, value) := Cut(opt, '=');
      var lowered := Lower(name);
      if HasPrefix(lowered, "~") then RuleOption(KindOf(lowered[1..]), value, true)
      else RuleOption(KindOf(lowered), value, false)
  }

  function ReadAll(texts: seq<string>): seq<RuleOption> {
    seq(|texts|, i requires 0 <= i < |texts| => ReadOption(texts[i]))
  }

  function DomainName(text: string): string {
    Lower(TrimSpace(text))
  }

  function NamesIn(opt: RuleOption): seq<string> {
    Split(opt.value, '|')
  }

  /** Entity (`example.*`) and regex domains are refused. */
  predicate PlainDomains(names: seq<string>) {
    forall i :: 0 <= i < |names| ==> NoneOf(DomainName(names[i]), "*/")
  }

  function Included(names: seq<string>): seq<string> {
    if names == [] then []
    else
      var d := DomainName(names[|names| - 1]);
      Included(names[..|names| - 1]) + (if d == "" || HasPrefix(d, "~") then [] else [d])
  }

  function Excluded(names: seq<string>): seq<string> {
    if names == [] then []
    else
      var d := DomainName(names[|names| - 1]);
      Excluded(names[..|names| - 1]) + (if HasPrefix(d, "~") then [d[1..]] else [])
  }

  // What a list of options means, whatever order they come in (except where the last one wins).

  /** An option the engine implements, in a rule of this kind. */
  predicate Supported(opt: RuleOption, exception: bool) {
    && !opt.kind.Unsupported?
    && (opt.kind.Domains? ==> PlainDomains(NamesIn(opt)))
    && (opt.kind.ElemHide? || opt.kind.GenericHide? ==> exception)
  }

  ghost predicate Mentions(opts: seq<RuleOption>, kind: OptionKind) {
    exists opt :: opt in opts && opt.kind == kind
  }

  ghost predicate Includes(opts: seq<RuleOption>, t: ResourceType) {
    exists opt :: opt in opts && (opt.kind == AllTypes || (opt.kind == Typed(t) && !opt.negated))
  }

  ghost predicate Excludes(opts: seq<RuleOption>, t: ResourceType) {
    exists opt :: opt in opts && opt.kind == Typed(t) && opt.negated
  }

  /** Type `t` is in the rule's mask. */
  ghost predicate HasType(opts: seq<RuleOption>, t: ResourceType) {
    if exists x :: Includes(opts, x) then Includes(opts, t) && !Excludes(opts, t)
    else if exists x :: Excludes(opts, x) then t != Document && !Excludes(opts, t)
    else t == Document && (Mentions(opts, ElemHide) || Mentions(opts, GenericHide))
  }

  function PartyOf(opts: seq<RuleOption>): int {
    if opts == [] then 0
    else
      var opt := opts[|opts| - 1];
      if opt.kind.ThirdParty? then (if opt.negated then -1 else 1)
      else if opt.kind.FirstParty? then (if opt.negated then 1 else -1)
      else PartyOf(opts[..|opts| - 1])
  }

  /** Every `domain=` list, one after the other. */
  function DomainNames(opts: seq<RuleOption>): seq<string> {
    if opts == [] then []
    else
      var opt := opts[|opts| - 1];
      DomainNames(opts[..|opts| - 1]) + (if opt.kind.Domains? then NamesIn(opt) else [])
  }

  ghost predicate NamesAnyType(opts: seq<RuleOption>) {
    exists t :: Includes(opts, t) || Excludes(opts, t)
  }

  /** The line is kept: every option is supported, and the types, if any are named, leave something. */
  ghost predicate Acceptable(opts: seq<RuleOption>, exception: bool) {
    && (forall opt :: opt in opts ==> Supported(opt, exception))
    && (NamesAnyType(opts) ==> exists t :: HasType(opts, t))
  }

  /** What the options set on a rule. */
  datatype Settings = Settings(
    important: bool, matchCase: bool, thirdParty: int, domains: seq<string>, notDomains: seq<string>,
    elemHide: bool, genericHide: bool)

  ghost predicate CarriesFlags(s: Settings, opts: seq<RuleOption>) {
    && (s.important <==> Mentions(opts, Important))
    && (s.matchCase <==> Mentions(opts, MatchCase))
    && (s.elemHide <==> Mentions(opts, ElemHide))
    && (s.genericHide <==> Mentions(opts, GenericHide))
  }

  ghost predicate CarriesLists(s: Settings, opts: seq<RuleOption>) {
    && s.thirdParty == PartyOf(opts)
    && s.domains == Included(DomainNames(opts))
    && s.notDomains == Excluded(DomainNames(opts))
  }

  ghost predicate CarriesTypes(types: set<ResourceType>, opts: seq<RuleOption>) {
    forall t :: t in types <==> HasType(opts, t)
  }

  function Blank(raw: string, exception: bool): NetRule {
    NetRule(raw, exception, false, false, "", None, "", false, false, false, "", {}, 0, [], [], false, false)
  }

  function WithOptions(r: NetRule, s: Settings, types: set<ResourceType>): NetRule {
    r.(important := s.important, matchCase := s.matchCase, types := types, thirdParty := s.thirdParty,
       domains := s.domains, notDomains := s.notDomains, elemHide := s.elemHide, genericHide := s.genericHide)
  }

  lemma {:induction false} AppendDomains(names: seq<string>, more: seq<string>)
    ensures Included(names + more) == Included(names) + Included(more)
    ensures Excluded(names + more) == Excluded(names) + Excluded(more)
  {
    hide DomainName;
    if more == [] {
      assert names + more == names;
    } else {
      var all := names + more;
      assert all[..|all| - 1] == names + more[..|more| - 1];
      AppendDomains(names, more[..|more| - 1]);
    }
  }

  lemma AppendLists(opts: seq<RuleOption>, opt: RuleOption)
    ensures PartyOf(opts + [opt])
          == if opt.kind.ThirdParty? || opt.kind.FirstParty? then PartyOf([opt]) else PartyOf(opts)
    ensures DomainNames(opts + [opt])
          == if opt.kind.Domains? then DomainNames(opts) + NamesIn(opt) else DomainNames(opts)
  {
  }

  /** Append one `domain=` value to the two host lists. */
  method ReadDomains(opt: RuleOption, domains: seq<string>, notDomains: seq<string>)
    returns (ok: bool, ds: seq<string>, ns: seq<string>)
    ensures ok <==> PlainDomains(NamesIn(opt))
    ensures ok ==> ds == domains + Included(NamesIn(opt)) && ns == notDomains + Excluded(NamesIn(opt))
  {
    hide DomainName, Split;
    var names := NamesIn(opt);
    ds, ns := domains, notDomains;
    for i := 0 to |names|
      invariant PlainDomains(names[..i])
      invariant ds == domains + Included(names[..i]) && ns == notDomains + Excluded(names[..i])
    {
      assert names[..i + 1][..i] == names[..i];
      var d := DomainName(names[i]);
      if d == "" {
        continue;
      }
      if !NoneOf(d, "*/") {
        return false, ds, ns;
      }
      if HasPrefix(d, "~") {
        ns := ns + [d[1..]];
      } else {
        ds := ds + [d];
      }
    }
    assert names[..|names|] == names;
    ok := true;
  }

  /** What one option does to the settings so far. */
  function AfterOption(s: Settings, opt: RuleOption): Settings {
    Settings(
      s.important || opt.kind == Important,
      s.matchCase || opt.kind == MatchCase,
      if opt.kind.ThirdParty? || opt.kind.FirstParty? then PartyOf([opt]) else s.thirdParty,
      if opt.kind.Domains? then s.domains + Included(NamesIn(opt)) else s.domains,
      if opt.kind.Domains? then s.notDomains + Excluded(NamesIn(opt)) else s.notDomains,
      s.elemHide || opt.kind == ElemHide,
      s.genericHide || opt.kind == GenericHide)
  }

  /** One option more changes only what that option names. */
  lemma CarryOneMore(s: Settings, opts: seq<RuleOption>, opt: RuleOption)
    requires CarriesFlags(s, opts) && CarriesLists(s, opts)
    ensures CarriesFlags(AfterOption(s, opt), opts + [opt]) && CarriesLists(AfterOption(s, opt), opts + [opt])
  {
    var more := opts + [opt];
    assert CarriesFlags(AfterOption(s, opt), more) by {
      assert forall x :: x in more <==> x in opts || x == opt;
      assert opt in more;
    }
    hide Included, Excluded, Split;
    AppendLists(opts, opt);
    if opt.kind.Domains? {
      AppendDomains(DomainNames(opts), NamesIn(opt));
    }
  }

  lemma AllTypesAreAll()
    ensures forall t :: t in ALL_TYPES
    ensures forall t :: t in ALL_BUT_DOCUMENT <==> t != Document
  {
    forall t ensures t in ALL_TYPES && (t in ALL_BUT_DOCUMENT <==> t != Document) {
      match t {
        case Document => case Subdocument => case Script => case Stylesheet => case Image => case Font =>
        case Media => case XHR => case Object => case Ping => case Websocket => case Other =>
      }
    }
  }

  ghost predicate IsKeepAndDrop(keep: set<ResourceType>, drop: set<ResourceType>, opts: seq<RuleOption>) {
    && (forall t :: t in keep <==> Includes(opts, t))
    && (forall t :: t in drop <==> Excludes(opts, t))
  }

  /** The types named so far, kept and dropped, after one option more. */
  method NameTypes(opt: RuleOption, keep0: set<ResourceType>, drop0: set<ResourceType>, ghost opts: seq<RuleOption>)
    returns (keep: set<ResourceType>, drop: set<ResourceType>)
    requires IsKeepAndDrop(keep0, drop0, opts)
    ensures IsKeepAndDrop(keep, drop, opts + [opt])
  {
    AllTypesAreAll();
    hide ALL_TYPES;
    ghost var more := opts + [opt];
    assert opt in more && forall x :: x in more <==> x in opts || x == opt;
    keep, drop := keep0, drop0;
    if opt.kind.Typed? {
      if opt.negated {
        drop := drop + {opt.kind.t};
      } else {
        keep := keep + {opt.kind.t};
      }
    } else if opt.kind.AllTypes? {
      keep := keep + ALL_TYPES;
    }
    assert forall t :: t in keep <==> Includes(more, t);
    assert forall t :: t in drop <==> Excludes(more, t);
  }

  /** One option's effect on the settings; refused when the engine does not implement it. */
  method ApplyOption(opt: RuleOption, exception: bool, s: Settings) returns (res: Option<Settings>)
    ensures res == if Supported(opt, exception) then Some(AfterOption(s, opt)) else None
  {
    hide Split, Included, Excluded, PlainDomains;
    match opt.kind {
      case Nothing => res := Some(s);
      case Typed(_) => res := Some(s);
      case AllTypes => res := Some(s);
      case ThirdParty => res := Some(s.(thirdParty := if opt.negated then -1 else 1));
      case FirstParty => res := Some(s.(thirdParty := if opt.negated then 1 else -1));
      case Domains =>
        var ok, ds, ns := ReadDomains(opt, s.domains, s.notDomains);
        res := if ok then Some(s.(domains := ds, notDomains := ns)) else None;
      case Important => res := Some(s.(important := true));
      case MatchCase => res := Some(s.(matchCase := true));
      case ElemHide => res := if exception then Some(s.(elemHide := true)) else None;
      case GenericHide => res := if exception then Some(s.(genericHide := true)) else None;
      case Unsupported => res := None;
    }
  }

  const NO_SETTINGS := Settings(false, false, 0, [], [], false, false)

  lemma NothingReadYet()
    ensures CarriesFlags(NO_SETTINGS, []) && CarriesLists(NO_SETTINGS, []) && IsKeepAndDrop({}, {}, [])
  {
  }

  method ParseOptions(exception: bool, text: string) returns (res: Option<(Settings, set<ResourceType>)>)
    ensures res.Some? <==> Acceptable(ReadAll(Split(text, ',')), exception)
    ensures res.Some? ==>
      CarriesFlags(res.value.0, ReadAll(Split(text, ','))) && CarriesLists(res.value.0, ReadAll(Split(text, ',')))
    ensures res.Some? ==> CarriesTypes(res.value.1, ReadAll(Split(text, ',')))
  {
    hide ReadAll, Split, CarriesFlags, CarriesLists, CarriesTypes;
    hide HasType, Supported, AfterOption, IsKeepAndDrop, NamesAnyType;
    var s := NO_SETTINGS;
    var keep: set<ResourceType>, drop: set<ResourceType> := {}, {};
    var opts := ReadAll(Split(text, ','));
    assert opts[..0] == [];
    NothingReadYet();
    for i := 0 to |opts|
      invariant CarriesFlags(s, opts[..i]) && CarriesLists(s, opts[..i])
      invariant IsKeepAndDrop(keep, drop, opts[..i])
      invariant forall opt :: opt in opts[..i] ==> Supported(opt, exception)
    {
      var opt := opts[i];
      assert opts[..i + 1] == opts[..i] + [opt] && opt in opts;
      var applied := ApplyOption(opt, exception, s);
      if applied.None? {
        return None;
      }
      CarryOneMore(s, opts[..i], opt);
      s := applied.value;
      keep, drop := NameTypes(opt, keep, drop, opts[..i]);
    }
    assert opts[..|opts|] == opts;
    var types := SettleTypes(s, keep, drop, opts);
    if types.None? {
      return None;
    }
    return Some((s, types.value));
  }

  /** Turn the types kept and dropped into the rule's mask. */
  method SettleTypes(s: Settings, keep: set<ResourceType>, drop: set<ResourceType>, ghost opts: seq<RuleOption>)
    returns (res: Option<set<ResourceType>>)
    requires CarriesFlags(s, opts) && IsKeepAndDrop(keep, drop, opts)
    ensures res.Some? <==> (NamesAnyType(opts) ==> exists t :: HasType(opts, t))
    ensures res.Some? ==> CarriesTypes(res.value, opts)
  {
    AllTypesAreAll();
    hide ALL_BUT_DOCUMENT;
    var types: set<ResourceType> := {};
    if keep != {} {
      types := keep - drop;
    } else if drop != {} {
      types := ALL_BUT_DOCUMENT - drop;
    }
    assert keep != {} <==> exists x :: Includes(opts, x);
    assert drop != {} <==> exists x :: Excludes(opts, x);
    assert keep != {} || drop != {} ==> CarriesTypes(types, opts);
    if (keep != {} || drop != {}) && types == {} {
      return None;
    }
    if (s.elemHide || s.genericHide) && types == {} {
      types := {Document};
    }
    return Some(types);
  }

  // A whole line: "@@", then a body, then "$" and the options.

  predicate IsSlashed(s: string) {
    HasPrefix(s, "/") && HasSuffix(s, "/") && |s| > 1
  }

  /** The options follow the last '$', except in a line that both begins and ends with a slash. */
  predicate IsSplit(text: string, body: string, options: string) {
    var line := if HasPrefix(text, "@@") then text[2..] else text;
    if IsSlashed(line) || '$' !in line then body == line && options == ""
    else line == body + "$" + options && '$' !in options
  }

  /** A line's body and its options. */
  function Halves(text: string): (h: (string, string))
    ensures IsSplit(text, h.0, h.1)
  {
    var line := if HasPrefix(text, "@@") then text[2..] else text;
    var i := LastIndex(line, '$');
    if i < 0 || IsSlashed(line) then (line, "")
    else
      assert line == line[..i] + "$" + line[i + 1..];
      (line[..i], line[i + 1..])
  }

  function OptionsOf(options: string): seq<RuleOption> {
    ReadAll(Split(options, ','))
  }

  predicate IsRegex(body: string) {
    |body| > 2 && IsSlashed(body)
  }

  function RegexOf(body: string, matchCase: bool): string
    requires IsRegex(body)
  {
    (if matchCase then "" else "(?i)") + body[1..|body| - 1]
  }

  function Unanchored(body: string): string {
    var rest := if HasPrefix(body, "||") then body[2..] else if HasPrefix(body, "|") then body[1..] else body;
    TrimSuffix(rest, "|")
  }

  /** Whether a body can be kept: an expression must compile, and a pattern of stars only must be
      narrowed by something else in the rule. */
  predicate BodyIsKept(o: Oracle, body: string, matchCase: bool, narrowed: bool) {
    if IsRegex(body) then o.compiles(RegexOf(body, matchCase))
    else narrowed || !OnlyStars(Unanchored(body))
  }

  predicate OnlyStars(s: string) {
    forall k :: 0 <= k < |s| ==> s[k] == '*'
  }

  ghost predicate Narrows(opts: seq<RuleOption>) {
    Included(DomainNames(opts)) != [] || exists t :: HasType(opts, t)
  }

  /** The matching form of the rule is the one its body asks for: an expression, a host to look
      up, or a pattern, with the anchors the body is written with. */
  predicate HasForm(r: NetRule, body: string) {
    if IsRegex(body) then
      r.re == Some(RegexOf(body, r.matchCase)) && r == Formless(r).(re := r.re)
    else
      var pattern := if r.matchCase then Unanchored(body) else Lower(Unanchored(body));
      && r.re.None?
      && HasAnchors(body, r.anchorHost, r.anchorStart, r.anchorEnd, Unanchored(body))
      && if r.anchorHost && !r.anchorEnd && IsHostOnly(TrimSuffix(pattern, "^"))
         then r.hostOnly == TrimSuffix(pattern, "^") && r.pattern == r.lit == ""
         else r.hostOnly == "" && r.pattern == pattern && r.lit == LiteralPrefix(pattern)
  }

  /** `text` is the pattern with its anchors put back. */
  predicate HasAnchors(text: string, anchorHost: bool, anchorStart: bool, anchorEnd: bool, pattern: string) {
    && text == (if anchorHost then "||" else if anchorStart then "|" else "") + pattern + (if anchorEnd then "|" else "")
    && (anchorHost <==> HasPrefix(text, "||"))
    && (anchorStart <==> HasPrefix(text, "|") && !anchorHost)
    && (!anchorEnd ==> !HasSuffix(pattern, "|"))
  }

  /** The rule without its matching form: just what its options say. */
  function Formless(r: NetRule): NetRule {
    r.(hostOnly := "", re := None, pattern := "", anchorHost := false, anchorStart := false, anchorEnd := false, lit := "")
  }

  function SettingsOf(r: NetRule): Settings {
    Settings(r.important, r.matchCase, r.thirdParty, r.domains, r.notDomains, r.elemHide, r.genericHide)
  }

  /** The line is kept: its options are acceptable, and its body can be kept beside them. */
  ghost predicate IsKept(o: Oracle, text: string) {
    var (body, options) := Halves(text);
    var exception, opts := HasPrefix(text, "@@"), OptionsOf(options);
    Acceptable(opts, exception) && BodyIsKept(o, body, Mentions(opts, MatchCase), Narrows(opts) || exception)
  }

  /** `r` says what the line says. */
  ghost predicate IsRuleOf(r: NetRule, text: string) {
    var (body, options) := Halves(text);
    && r.raw == text && (r.exception <==> HasPrefix(text, "@@"))
    && Carries(r, OptionsOf(options))
    && HasForm(r, body)
  }

  ghost predicate Carries(r: NetRule, opts: seq<RuleOption>) {
    CarriesFlags(SettingsOf(r), opts) && CarriesLists(SettingsOf(r), opts) && CarriesTypes(r.types, opts)
  }

  lemma {:induction false} LastIndexOf(before: string, c: char, after: string)
    requires c !in after
    ensures LastIndex(before + [c] + after, c) == |before|
  {
    var s := before + [c] + after;
    if after != "" {
      LastIndexOf(before, c, after[..|after| - 1]);
      assert s[..|s| - 1] == before + [c] + after[..|after| - 1];
      assert s[|s| - 1] == after[|after| - 1];
    }
  }

  /** A line is split one way. */
  lemma SplitIsUnique(text: string, body: string, options: string)
    requires IsSplit(text, body, options)
    ensures (body, options) == Halves(text)
  {
    var line := if HasPrefix(text, "@@") then text[2..] else text;
    if !IsSlashed(line) && '$' in line {
      LastIndexOf(body, '$', options);
      assert body == line[..|body|] && options == line[|body| + 1..];
    }
  }

  /** What a line says leaves no choice: at most one rule says it. */
  lemma RuleIsUnique(r: NetRule, r': NetRule, text: string)
    requires IsRuleOf(r, text) && IsRuleOf(r', text)
    ensures r == r'
  {
    assert r.types == r'.types;
    hide Halves, HasForm, CarriesFlags, CarriesLists, CarriesTypes;
    var (body, options) := Halves(text);
    SettingsAreUnique(SettingsOf(r), SettingsOf(r'), OptionsOf(options));
    FormIsUnique(r, r', body);
  }

  lemma SettingsAreUnique(s: Settings, s': Settings, opts: seq<RuleOption>)
    requires CarriesFlags(s, opts) && CarriesLists(s, opts) && CarriesFlags(s', opts) && CarriesLists(s', opts)
    ensures s == s'
  {
  }

  lemma FormIsUnique(r: NetRule, r': NetRule, body: string)
    requires HasForm(r, body) && HasForm(r', body) && Formless(r) == Formless(r')
    ensures r == r'
  {
  }

  method SplitLine(text: string) returns (exception: bool, body: string, options: string)
    ensures exception <==> HasPrefix(text, "@@")
    ensures (body, options) == Halves(text)
  {
    exception := HasPrefix(text, "@@");
    var line := text;
    if exception {
      line := line[2..];
    }
    body, options := line, "";
    var i := LastIndex(line, '$');
    if i >= 0 && !IsSlashed(line) {
      body, options := line[..i], line[i + 1..];
    }
  }

  /** Parse one network filter line: a kept rule is well formed and says what the line says. */
  method ParseNetRule(o: Oracle, text: string) returns (res: Option<NetRule>)
    ensures res.Some? <==> IsKept(o, text)
    ensures res.Some? ==> WellFormed(res.value) && IsRuleOf(res.value, text)
  {
    var exception, pattern, options := SplitLine(text);
    var r := RuleWithOptions(text, exception, options);
    hide Acceptable, CarriesFlags, CarriesLists, CarriesTypes, HasForm;
    hide BodyIsKept, Narrows, WellFormed, OptionsOf, HasPrefix, Halves;
    if r.None? {
      return None;
    }
    res := ReadPattern(o, r.value, pattern);
    if res.Some? {
      assert SettingsOf(res.value) == SettingsOf(r.value) && res.value.types == r.value.types;
    }
  }

  /** The rule so far: what its options say. */
  method RuleWithOptions(text: string, exception: bool, options: string) returns (res: Option<NetRule>)
    ensures res.Some? <==> Acceptable(OptionsOf(options), exception)
    ensures res.Some? ==>
      var r, opts := res.value, OptionsOf(options);
      && WellFormed(r) && r == Formless(r) && r.raw == text && r.exception == exception
      && Carries(r, opts)
      && (Narrows(opts) <==> r.domains != [] || r.types != {})
      && (Mentions(opts, MatchCase) <==> r.matchCase)
  {
    var r := Blank(text, exception);
    if options != "" {
      var parsed := ParseOptions(exception, options);
      if parsed.None? {
        return None;
      }
      OptionsKeepRulesWellFormed(text, exception, parsed.value.0, parsed.value.1, OptionsOf(options));
      r := WithOptions(r, parsed.value.0, parsed.value.1);
    } else {
      NoOptions();
      assert WellFormed(r);
    }
    NarrowedTypes(r.types, OptionsOf(options), r.domains, SettingsOf(r));
    hide Acceptable, CarriesLists, CarriesTypes, Narrows, WellFormed;
    assert SettingsOf(r).matchCase == r.matchCase;
    return Some(r);
  }

  lemma NarrowedTypes(types: set<ResourceType>, opts: seq<RuleOption>, domains: seq<string>, s: Settings)
    requires CarriesTypes(types, opts) && CarriesLists(s, opts) && s.domains == domains
    ensures Narrows(opts) <==> domains != [] || types != {}
  {
  }

  /** A line without options has none to refuse and sets nothing. */
  lemma NoOptions()
    ensures Acceptable(OptionsOf(""), true) && Acceptable(OptionsOf(""), false)
    ensures CarriesFlags(NO_SETTINGS, OptionsOf("")) && CarriesLists(NO_SETTINGS, OptionsOf("")) && CarriesTypes({}, OptionsOf(""))
  {
    SplitNothing("", ',');
    hide Split;
    var none := OptionsOf("");
    assert none == [RuleOption(Nothing, "", false)] && none[..0] == [];
    forall t ensures !HasType(none, t) {
    }
  }

  /** What a hosts-file line or a bare domain becomes: a rule that only names a host. */
  function HostRule(raw: string, host: string): NetRule {
    Blank(raw, false).(hostOnly := host)
  }

  lemma HostRuleIsWellFormed(raw: string, host: string)
    ensures WellFormed(HostRule(raw, host))
  {
  }

  lemma {:induction false} PartyRange(opts: seq<RuleOption>)
    ensures PartyOf(opts) in {-1, 0, 1}
  {
    if opts != [] {
      PartyRange(opts[..|opts| - 1]);
    }
  }

  lemma OptionsKeepRulesWellFormed(raw: string, exception: bool, s: Settings, types: set<ResourceType>,
                                   opts: seq<RuleOption>)
    requires Acceptable(opts, exception) && CarriesFlags(s, opts) && CarriesLists(s, opts) && CarriesTypes(types, opts)
    ensures WellFormed(WithOptions(Blank(raw, exception), s, types))
  {
    PartyRange(opts);
    hide Included, Excluded, PlainDomains, DomainNames, PartyOf;
    if s.elemHide || s.genericHide {
      assert NamesAnyType(opts) || Document in types;
    }
  }

  /** The anchors of a pattern, and the pattern without them. */
  method ReadAnchors(text: string) returns (anchorHost: bool, anchorStart: bool, anchorEnd: bool, pattern: string)
    ensures HasAnchors(text, anchorHost, anchorStart, anchorEnd, pattern) && pattern == Unanchored(text)
  {
    anchorHost, anchorStart, anchorEnd, pattern := false, false, false, text;
    if HasPrefix(pattern, "||") {
      anchorHost := true;
      pattern := pattern[2..];
    } else if HasPrefix(pattern, "|") {
      anchorStart := true;
      pattern := pattern[1..];
    }
    if HasSuffix(pattern, "|") {
      anchorEnd := true;
      pattern := pattern[..|pattern| - 1];
    }
  }

  /** Read the body of a rule whose options are already in place. */
  method ReadPattern(o: Oracle, r: NetRule, text: string) returns (res: Option<NetRule>)
    requires WellFormed(r) && r == Formless(r)
    ensures res.Some? <==> BodyIsKept(o, text, r.matchCase, r.domains != [] || r.types != {} || r.exception)
    ensures res.Some? ==> WellFormed(res.value) && Formless(res.value) == r && HasForm(res.value, text)
  {
    hide HasPrefix, HasSuffix, IsHostOnly, HasForm, WellFormed, Unanchored, HasAnchors, RegexOf, Formless, OnlyStars;
    if |text| > 2 && HasPrefix(text, "/") && HasSuffix(text, "/") {
      res := ReadRegex(o, r, text);
      return;
    }
    res := ReadAnchored(r, text);
  }

  method ReadAnchored(r: NetRule, text: string) returns (res: Option<NetRule>)
    requires WellFormed(r) && r == Formless(r) && !IsRegex(text)
    ensures res.Some? <==> r.domains != [] || r.types != {} || r.exception || !OnlyStars(Unanchored(text))
    ensures res.Some? ==> WellFormed(res.value) && Formless(res.value) == r && HasForm(res.value, text)
  {
    var anchorHost, anchorStart, anchorEnd, pattern := ReadAnchors(text);
    OneAnchor(text, anchorHost, anchorStart, anchorEnd, pattern);
    AnchorsKeepRule(r, anchorHost, anchorStart, anchorEnd);
    hide HasForm, WellFormed, Unanchored, HasAnchors, Formless, OnlyStars, IsRegex;
    res := FinishPattern(r.(anchorHost := anchorHost, anchorStart := anchorStart, anchorEnd := anchorEnd), text, pattern);
  }

  lemma OneAnchor(text: string, anchorHost: bool, anchorStart: bool, anchorEnd: bool, pattern: string)
    requires HasAnchors(text, anchorHost, anchorStart, anchorEnd, pattern)
    ensures !(anchorHost && anchorStart)
  {
  }

  method ReadRegex(o: Oracle, r: NetRule, text: string) returns (res: Option<NetRule>)
    requires WellFormed(r) && r == Formless(r) && IsRegex(text)
    ensures res.Some? <==> o.compiles(RegexOf(text, r.matchCase))
    ensures res.Some? ==> WellFormed(res.value) && Formless(res.value) == r && HasForm(res.value, text)
  {
    var expr := text[1..|text| - 1];
    if !r.matchCase {
      expr := "(?i)" + expr;
    }
    RegexForm(r, text, expr);
    hide WellFormed, HasForm, Formless, RegexOf;
    if !o.compiles(expr) {
      return None;
    }
    return Some(r.(re := Some(expr)));
  }

  lemma RegexForm(r: NetRule, text: string, expr: string)
    requires WellFormed(r) && r == Formless(r) && IsRegex(text)
    requires expr == if r.matchCase then text[1..|text| - 1] else "(?i)" + text[1..|text| - 1]
    ensures expr == RegexOf(text, r.matchCase)
    ensures var q := r.(re := Some(expr)); WellFormed(q) && Formless(q) == r && HasForm(q, text)
  {
    hide Lower, LiteralPrefix;
    assert "" + text[1..|text| - 1] == text[1..|text| - 1];
    hide IsRegex;
  }

  lemma AnchorsKeepRule(r: NetRule, anchorHost: bool, anchorStart: bool, anchorEnd: bool)
    requires WellFormed(r) && r == Formless(r) && !(anchorHost && anchorStart)
    ensures var q := r.(anchorHost := anchorHost, anchorStart := anchorStart, anchorEnd := anchorEnd);
            WellFormed(q) && Formless(q) == r && q.hostOnly == "" && q.re.None? && q.pattern == ""
  {
    hide Lower, LiteralPrefix;
  }

  /** Fold the pattern, refuse one that matches everything, and take the hostname shortcut. */
  method FinishPattern(r: NetRule, ghost body: string, text: string) returns (res: Option<NetRule>)
    requires WellFormed(r) && r.hostOnly == "" && r.re.None? && r.pattern == ""
    requires !IsRegex(body) && HasAnchors(body, r.anchorHost, r.anchorStart, r.anchorEnd, text) && text == Unanchored(body)
    ensures res.Some? <==> r.domains != [] || r.types != {} || r.exception || !OnlyStars(text)
    ensures res.Some? ==> WellFormed(res.value) && Formless(res.value) == Formless(r) && HasForm(res.value, body)
  {
    hide HasAnchors, IsRegex, Unanchored;
    var pattern := text;
    if !r.matchCase {
      LowerIdempotent(pattern);
      pattern := Lower(pattern);
    }
    assert forall k :: 0 <= k < |text| ==> (text[k] == '*' <==> pattern[k] == '*');
    if OnlyStars(pattern) && |r.domains| == 0 && r.types == {} && !r.exception {
      return None;
    }
    PatternForms(r, body, pattern);
    hide Lower, WellFormed, HasForm, Formless, TrimSuffix;
    if r.anchorHost && !r.anchorEnd {
      var h := TrimSuffix(pattern, "^");
      if h != "" && NoneOf(h, "/*^|?=&:") && '.' in h {
        return Some(r.(hostOnly := h));
      }
    }
    return Some(r.(pattern := pattern, lit := LiteralPrefix(pattern)));
  }

  /** The two forms a pattern can take: a host to look up, under the guard, or itself. */
  lemma PatternForms(r: NetRule, body: string, pattern: string)
    requires WellFormed(r) && r.hostOnly == "" && r.re.None? && r.pattern == "" && !IsRegex(body)
    requires HasAnchors(body, r.anchorHost, r.anchorStart, r.anchorEnd, Unanchored(body))
    requires pattern == if r.matchCase then Unanchored(body) else Lower(Unanchored(body))
    ensures var h := TrimSuffix(pattern, "^");
            var q := if r.anchorHost && !r.anchorEnd && IsHostOnly(h) then r.(hostOnly := h)
                     else r.(pattern := pattern, lit := LiteralPrefix(pattern));
            WellFormed(q) && Formless(q) == Formless(r) && HasForm(q, body)
  {
    LowerIdempotent(Unanchored(body));
    hide HasAnchors, IsRegex, Unanchored, Lower, IsHostOnly;
    assert LiteralPrefix("") == "";
    hide LiteralPrefix, TrimSuffix;
  }

  // The order of options.

  lemma {:induction false} IncludedExact(names: seq<string>, d: string)
    ensures d in Included(names) <==> d != "" && !HasPrefix(d, "~") && exists n :: n in names && DomainName(n) == d
    ensures d in Excluded(names) <==> exists n :: n in names && HasPrefix(DomainName(n), "~") && DomainName(n)[1..] == d
  {
    hide DomainName;
    if names != [] {
      IncludedExact(names[..|names| - 1], d);
      assert forall n :: n in names <==> n in names[..|names| - 1] || n == names[|names| - 1];
    }
  }

  lemma {:induction false} DomainNamesExact(opts: seq<RuleOption>, n: string)
    ensures n in DomainNames(opts) <==> exists opt :: opt in opts && opt.kind.Domains? && n in NamesIn(opt)
  {
    hide Split;
    if opts != [] {
      DomainNamesExact(opts[..|opts| - 1], n);
      assert forall x :: x in opts <==> x in opts[..|opts| - 1] || x == opts[|opts| - 1];
    }
  }

  lemma SameNames(opts: seq<RuleOption>, opts': seq<RuleOption>)
    requires forall opt :: opt in opts <==> opt in opts'
    ensures forall n :: n in DomainNames(opts) <==> n in DomainNames(opts')
  {
    hide DomainNames, NamesIn;
    forall n ensures n in DomainNames(opts) <==> n in DomainNames(opts') {
      DomainNamesExact(opts, n);
      DomainNamesExact(opts', n);
    }
  }

  lemma SameDomains(names: seq<string>, names': seq<string>)
    requires forall n :: n in names <==> n in names'
    ensures forall d :: d in Included(names) <==> d in Included(names')
    ensures forall d :: d in Excluded(names) <==> d in Excluded(names')
  {
    hide Included, Excluded, DomainName, HasPrefix;
    forall d ensures (d in Included(names) <==> d in Included(names')) && (d in Excluded(names) <==> d in Excluded(names')) {
      IncludedExact(names, d);
      IncludedExact(names', d);
    }
  }

  predicate IsParty(opt: RuleOption) {
    opt.kind.ThirdParty? || opt.kind.FirstParty?
  }

  /** No two options ask for different parties. */
  ghost predicate PartiesAgree(opts: seq<RuleOption>) {
    forall x, y :: x in opts && y in opts && IsParty(x) && IsParty(y) ==> PartyOf([x]) == PartyOf([y])
  }

  lemma {:induction false} PartyFrom(opts: seq<RuleOption>) returns (last: RuleOption)
    ensures if exists x :: x in opts && IsParty(x) then last in opts && IsParty(last) && PartyOf(opts) == PartyOf([last])
            else PartyOf(opts) == 0
  {
    last := RuleOption(Nothing, "", false);
    if opts != [] {
      var n := |opts| - 1;
      assert forall x :: x in opts <==> x in opts[..n] || x == opts[n];
      if IsParty(opts[n]) {
        last := opts[n];
      } else {
        last := PartyFrom(opts[..n]);
      }
    }
  }

  /** What options mean does not depend on their order: which lines are accepted, the flags, the types
      and which domains are listed never; the party only when two options disagree on it. */
  lemma OptionOrderIsFree(opts: seq<RuleOption>, opts': seq<RuleOption>, exception: bool, r: NetRule, r': NetRule)
    requires forall opt :: opt in opts <==> opt in opts'
    requires Carries(r, opts) && Carries(r', opts')
    ensures Acceptable(opts, exception) <==> Acceptable(opts', exception)
    ensures r.important == r'.important && r.matchCase == r'.matchCase
    ensures r.elemHide == r'.elemHide && r.genericHide == r'.genericHide && r.types == r'.types
    ensures forall d :: d in r.domains <==> d in r'.domains
    ensures forall d :: d in r.notDomains <==> d in r'.notDomains
    ensures PartiesAgree(opts) ==> r.thirdParty == r'.thirdParty
  {
    SameNames(opts, opts');
    SameDomains(DomainNames(opts), DomainNames(opts'));
    SameMeaning(opts, opts', exception);
    hide Included, Excluded, DomainNames, Supported, HasType, Mentions, PartyOf;
    var x := PartyFrom(opts);
    var y := PartyFrom(opts');
    assert r.types == r'.types;
    hide Acceptable;
  }

  lemma SameMeaning(opts: seq<RuleOption>, opts': seq<RuleOption>, exception: bool)
    requires forall opt :: opt in opts <==> opt in opts'
    ensures forall kind :: Mentions(opts, kind) <==> Mentions(opts', kind)
    ensures forall t :: HasType(opts, t) <==> HasType(opts', t)
    ensures Acceptable(opts, exception) <==> Acceptable(opts', exception)
  {
    hide Supported;
    assert forall t :: Includes(opts, t) <==> Includes(opts', t);
    assert forall t :: Excludes(opts, t) <==> Excludes(opts', t);
    assert forall kind :: Mentions(opts, kind) <==> Mentions(opts', kind);
    hide Includes, Excludes, Mentions;
  }
}
