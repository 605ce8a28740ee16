/** Byte strings as Go's `strings` package sees them. One `char` stands for one byte;
    case folding is the ASCII half of `strings.ToLower`. */
module Text {
  import opened Wrappers

  function LowerChar(c: char): char {
    if 'A' <= c <= 'Z' then c - 'A' + 'a' else c
  }

  function Lower(s: string): (r: string)
    ensures |r| == |s|
    ensures forall i :: 0 <= i < |s| ==> r[i] == LowerChar(s[i])
  {
    seq(|s|, i requires 0 <= i < |s| => LowerChar(s[i]))
  }

  lemma LowerIdempotent(s: string)
    ensures Lower(Lower(s)) == Lower(s)
  {
  }

  lemma LowerSlice(s: string, i: nat, j: nat)
    requires i <= j <= |s|
    ensures Lower(s)[i..j] == Lower(s[i..j])
  {
  }

  predicate HasPrefix(s: string, p: string) {
    p <= s
  }

  predicate HasSuffix(s: string, p: string) {
    |p| <= |s| && s[|s| - |p|..] == p
  }

  function TrimSuffix(s: string, p: string): string {
    if HasSuffix(s, p) then s[..|s| - |p|] else s
  }

  predicate NoneOf(s: string, cs: string) {
    forall i :: 0 <= i < |s| ==> s[i] !in cs
  }

  /** `lit` occurs in `s` at offset `k`. */
  predicate OccursAt(s: string, lit: string, k: int) {
    0 <= k && k + |lit| <= |s| && s[k..k + |lit|] == lit
  }

  /** The first offset from `from` on at which `lit` occurs, or -1. */
  function IndexFrom(s: string, lit: string, from: nat): (i: int)
    requires from <= |s|
    ensures i >= 0 ==> from <= i && OccursAt(s, lit, i) && forall k :: from <= k < i ==> !OccursAt(s, lit, k)
    ensures i < 0 ==> i == -1 && forall k :: from <= k ==> !OccursAt(s, lit, k)
    decreases |s| - from
  {
    if OccursAt(s, lit, from) then from
    else if from == |s| then -1
    else IndexFrom(s, lit, from + 1)
  }

  function Index(s: string, lit: string): int {
    IndexFrom(s, lit, 0)
  }

  predicate Contains(s: string, lit: string) {
    Index(s, lit) >= 0
  }

  /** The first offset from `from` on holding one of `cs`, or the length. */
  function FirstOf(s: string, cs: string, from: nat): (i: nat)
    requires from <= |s|
    ensures from <= i <= |s|
    ensures forall k :: from <= k < i ==> s[k] !in cs
    ensures i < |s| ==> s[i] in cs
    decreases |s| - from
  {
    if from < |s| && s[from] !in cs then FirstOf(s, cs, from + 1) else from
  }

  function TrimDot(h: string): string {
    TrimSuffix(h, ".")
  }

  const WHITE_SPACE := " \t\n\U{0B}\U{0C}\r"

  function TrimLeft(s: string): (r: string)
    ensures r == "" || r[0] !in WHITE_SPACE
  {
    if s != "" && s[0] in WHITE_SPACE then TrimLeft(s[1..]) else s
  }

  function TrimRight(s: string): (r: string)
    ensures r == "" || r[|r| - 1] !in WHITE_SPACE
    ensures r <= s
  {
    if s != "" && s[|s| - 1] in WHITE_SPACE then TrimRight(s[..|s| - 1]) else s
  }

  function TrimSpace(s: string): string {
    TrimRight(TrimLeft(s))
  }

  /** The pieces between separators; one piece more than there are separators. */
  function Split(s: string, sep: char): (parts: seq<string>)
    ensures |parts| > 0
    ensures forall i :: 0 <= i < |parts| ==> sep !in parts[i]
    decreases |s|
  {
    var i := FirstOf(s, [sep], 0);
    if i == |s| then [s] else [s[..i]] + Split(s[i + 1..], sep)
  }

  /** The text before the first separator, and the text after it when there is one. */
  function Cut(s: string, sep: char): (string, string) {
    var i := FirstOf(s, [sep], 0);
    if i == |s| then (s, "") else (s[..i], s[i + 1..])
  }

  function LastIndex(s: string, c: char): (i: int)
    ensures -1 <= i < |s|
    ensures i >= 0 ==> s[i] == c
    ensures forall k :: i < k < |s| ==> s[k] != c
  {
    if s == "" then -1 else if s[|s| - 1] == c then |s| - 1 else LastIndex(s[..|s| - 1], c)
  }

  // Decimal numbers.

  predicate IsDigit(c: char) {
    '0' <= c <= '9'
  }

  predicate AllDigits(s: string) {
    forall i :: 0 <= i < |s| ==> IsDigit(s[i])
  }

  function DecimalValue(s: string): nat
    requires AllDigits(s)
  {
    if s == "" then 0 else 10 * DecimalValue(s[..|s| - 1]) + (s[|s| - 1] as nat - '0' as nat)
  }

  const MIN_INT := -0x8000_0000_0000_0000
  const MAX_INT := 0x7fff_ffff_ffff_ffff

  /** An optional sign and at least one digit, within 64 bits. */
  function Atoi(s: string): (n: Option<int>)
    ensures n.Some? ==> MIN_INT <= n.value <= MAX_INT
  {
    var negative := s != "" && s[0] == '-';
    var digits := if s != "" && (s[0] == '-' || s[0] == '+') then s[1..] else s;
    if digits == "" || !AllDigits(digits) then None
    else
      var magnitude := DecimalValue(digits) as int;
      var n := if negative then -magnitude else magnitude;
      if MIN_INT <= n <= MAX_INT then Some(n) else None
  }

  function DecimalOf(n: nat): string {
    (if n < 10 then "" else DecimalOf(n / 10)) + ["0123456789"[n % 10]]
  }

  lemma {:induction false} DecimalRoundTrip(n: nat)
    ensures DecimalOf(n) != "" && AllDigits(DecimalOf(n)) && DecimalValue(DecimalOf(n)) == n
  {
    var s := DecimalOf(n);
    var last := "0123456789"[n % 10];
    assert IsDigit(last) && last as nat - '0' as nat == n % 10;
    if n < 10 {
      assert s == [last] && s[..0] == "";
    } else {
      DecimalRoundTrip(n / 10);
      assert s[..|s| - 1] == DecimalOf(n / 10) && s[|s| - 1] == last;
    }
  }

  lemma AtoiDecimal(n: nat)
    requires n <= MAX_INT
    ensures Atoi(DecimalOf(n)) == Some(n)
  {
    DecimalRoundTrip(n);
    assert IsDigit(DecimalOf(n)[0]);
  }

  // Pieces and separators.

  function Join(parts: seq<string>, sep: string): string {
    if parts == [] then ""
    else if |parts| == 1 then parts[0]
    else parts[0] + sep + Join(parts[1..], sep)
  }

  lemma SplitNothing(s: string, sep: char)
    requires sep !in s
    ensures Split(s, sep) == [s]
  {
  }

  lemma SplitFirst(first: string, sep: char, rest: string)
    requires sep !in first
    ensures Split(first + [sep] + rest, sep) == [first] + Split(rest, sep)
  {
    var s := first + [sep] + rest;
    assert s[|first|] == sep && forall k :: 0 <= k < |first| ==> s[k] == first[k];
    assert FirstOf(s, [sep], 0) == |first|;
    assert s[..|first|] == first && s[|first| + 1..] == rest;
  }

  lemma TrimNothing(s: string)
    requires s != "" && s[0] !in WHITE_SPACE && s[|s| - 1] !in WHITE_SPACE
    ensures TrimSpace(s) == s
  {
  }

  lemma CutNothing(s: string, sep: char)
    requires sep !in s
    ensures Cut(s, sep) == (s, "")
  {
  }

  lemma CutAt(before: string, sep: char, after: string)
    requires sep !in before
    ensures Cut(before + [sep] + after, sep) == (before, after)
  {
    var s := before + [sep] + after;
    assert s[|before|] == sep && forall k :: 0 <= k < |before| ==> s[k] == before[k];
    assert FirstOf(s, [sep], 0) == |before|;
    assert s[..|before|] == before && s[|before| + 1..] == after;
  }

  predicate IsBlank(s: string) {
    forall i :: 0 <= i < |s| ==> s[i] in WHITE_SPACE
  }

  lemma {:induction false} TrimBlankLeft(before: string, s: string)
    requires IsBlank(before)
    ensures TrimLeft(before + s) == TrimLeft(s)
  {
    if before == "" {
      assert before + s == s;
    } else {
      assert (before + s)[1..] == before[1..] + s;
      TrimBlankLeft(before[1..], s);
    }
  }

  lemma {:induction false} TrimBlankRight(s: string, after: string)
    requires IsBlank(after)
    ensures TrimRight(s + after) == TrimRight(s)
  {
    if after == "" {
      assert s + after == s;
    } else {
      assert (s + after)[..|s + after| - 1] == s + after[..|after| - 1];
      TrimBlankRight(s, after[..|after| - 1]);
    }
  }

  /** White space around a text is trimmed away, whatever it is made of. */
  lemma TrimAround(before: string, s: string, after: string)
    requires IsBlank(before) && IsBlank(after)
    requires s != "" && s[0] !in WHITE_SPACE && s[|s| - 1] !in WHITE_SPACE
    ensures TrimSpace(before + s + after) == s
  {
    hide WHITE_SPACE;
    assert before + s + after == before + (s + after);
    TrimBlankLeft(before, s + after);
    assert TrimLeft(s + after) == s + after;
    TrimBlankRight(s, after);
    assert TrimRight(s) == s;
  }
}
