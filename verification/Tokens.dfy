/** Literal tokens: the runs of token bytes that URLs are split into and patterns are indexed by. */
module Tokens {

  const MIN_TOKEN_LEN := 3

  /** Tokens too common to index by. */
  const STOP_TOKENS: set<string> := {
    "http", "https", "www", "com", "net", "org", "html", "php", "static", "assets",
    "cdn", "min", "png", "jpg", "gif", "css", "img", "images"
  }

  predicate IsTokenByte(b: char) {
    'a' <= b <= 'z' || '0' <= b <= '9' || b == '%'
  }

  /** `u[i..j]` is a whole token: token bytes only, and no token byte on either side. */
  predicate IsRun(u: string, i: int, j: int) {
    && 0 <= i < j <= |u|
    && (forall k :: i <= k < j ==> IsTokenByte(u[k]))
    && (i == 0 || !IsTokenByte(u[i - 1]))
    && (j == |u| || !IsTokenByte(u[j]))
  }

  /** `t` is one of the whole tokens of `u`. */
  ghost predicate HasToken(u: string, t: string) {
    exists i, j :: IsRun(u, i, j) && u[i..j] == t
  }

  function RunEnd(u: string, i: nat): (j: nat)
    requires i <= |u|
    ensures i <= j <= |u|
    ensures forall k :: i <= k < j ==> IsTokenByte(u[k])
    ensures j == |u| || !IsTokenByte(u[j])
    decreases |u| - i
  {
    if i < |u| && IsTokenByte(u[i]) then RunEnd(u, i + 1) else i
  }

  /** The leftmost-longest matches of `[a-z0-9%]+`, in order. */
  function RunsFrom(u: string, i: nat): (runs: seq<(nat, nat)>)
    requires i <= |u|
    decreases |u| - i
  {
    if i == |u| then []
    else if IsTokenByte(u[i]) then [(i, RunEnd(u, i))] + RunsFrom(u, RunEnd(u, i))
    else RunsFrom(u, i + 1)
  }

  lemma {:induction false} RunsFromExact(u: string, i: nat, a: nat, b: nat)
    requires i <= |u| && (i == 0 || i == |u| || !IsTokenByte(u[i - 1]) || !IsTokenByte(u[i]))
    ensures (a, b) in RunsFrom(u, i) <==> i <= a && IsRun(u, a, b)
    decreases |u| - i
  {
    if i < |u| {
      if IsTokenByte(u[i]) {
        var j := RunEnd(u, i);
        RunsFromExact(u, j, a, b);
        if a == i && IsRun(u, a, b) {
          assert b <= j;
          assert b == j;
        }
      } else {
        RunsFromExact(u, i + 1, a, b);
      }
    }
  }

  /** A request looks up exactly the distinct whole tokens of its lowercased URL that are
      long and rare enough to be indexed. */
  ghost predicate IsTokenList(u: string, toks: seq<string>) {
    && (forall t :: t in toks <==> HasToken(u, t) && |t| >= MIN_TOKEN_LEN && t !in STOP_TOKENS)
    && (forall m, n :: 0 <= m < n < |toks| ==> toks[m] != toks[n])
  }

  method TokensOf(u: string) returns (toks: seq<string>)
    ensures IsTokenList(u, toks)
  {
    hide STOP_TOKENS;
    var seen: set<string> := {};
    toks := [];
    var i := 0;
    while i < |u|
      invariant 0 <= i <= |u|
      invariant i == 0 || i == |u| || !IsTokenByte(u[i - 1]) || !IsTokenByte(u[i])
      invariant forall t :: t in seen <==> t in toks
      invariant forall t :: t in toks ==> HasToken(u, t) && |t| >= MIN_TOKEN_LEN && t !in STOP_TOKENS
      invariant forall a, b :: IsRun(u, a, b) && a < i && b - a >= MIN_TOKEN_LEN && u[a..b] !in STOP_TOKENS ==>
        u[a..b] in toks
      invariant forall m, n :: 0 <= m < n < |toks| ==> toks[m] != toks[n]
    {
      if !IsTokenByte(u[i]) {
        i := i + 1;
        continue;
      }
      var j := i;
      while j < |u| && IsTokenByte(u[j])
        invariant i <= j <= |u|
        invariant forall k :: i <= k < j ==> IsTokenByte(u[k])
      {
        j := j + 1;
      }
      var t := u[i..j];
      assert IsRun(u, i, j);
      if |t| >= MIN_TOKEN_LEN && t !in seen && t !in STOP_TOKENS {
        seen := seen + {t};
        toks := toks + [t];
      }
      assert forall a, b :: IsRun(u, a, b) && i <= a < j ==> a == i && b == j;
      i := j;
    }
  }
}
