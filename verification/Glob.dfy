/** Adblock Plus patterns: the declarative relation and the greedy matcher that decides it. */
module Glob {

  /** '^' stands for anything but a letter, a digit, or one of `_ - . %`. */
  predicate IsSeparator(b: char) {
    !('a' <= b <= 'z' || 'A' <= b <= 'Z' || '0' <= b <= '9' || b == '_' || b == '-' || b == '.' || b == '%')
  }

  /** Pattern element `p[i]` stands for the single byte `b`. */
  predicate ElementIs(e: char, b: char) {
    e != '*' && (if e == '^' then IsSeparator(b) else e == b)
  }

  /** The rest of the pattern, `p[i..]`, matches `s` starting at offset `j`: '*' is any run,
      '^' is one separator or nothing at the end of the input, every other byte is itself.
      An end-anchored pattern must use the input up. */
  ghost predicate MatchesAt(p: string, i: nat, s: string, j: nat, anchorEnd: bool)
    requires i <= |p| && j <= |s|
    decreases |p| - i, 0
  {
    if i == |p| then
      anchorEnd ==> j == |s|
    else if p[i] == '*' then
      MatchesFrom(p, i + 1, s, j, anchorEnd)
    else
      || (j < |s| && ElementIs(p[i], s[j]) && MatchesAt(p, i + 1, s, j + 1, anchorEnd))
      || (j == |s| && p[i] == '^' && MatchesAt(p, i + 1, s, j, anchorEnd))
  }

  /** The pattern matches `s`, at its start when anchored and anywhere otherwise. */
  ghost predicate Matches(p: string, s: string, anchored: bool, anchorEnd: bool) {
    if anchored then MatchesAt(p, 0, s, 0, anchorEnd)
    else MatchesFrom(p, 0, s, 0, anchorEnd)
  }

  /** Some offset from `from` on starts a match of `p[i..]`. */
  ghost predicate MatchesFrom(p: string, i: nat, s: string, from: nat, anchorEnd: bool)
    requires i <= |p|
    decreases |p| - i, 1
  {
    exists k :: from <= k <= |s| && MatchesAt(p, i, s, k, anchorEnd)
  }

  lemma Start(p: string, i: nat, s: string, from: nat, anchorEnd: bool) returns (k: nat)
    requires i <= |p| && MatchesFrom(p, i, s, from, anchorEnd)
    ensures from <= k <= |s| && MatchesAt(p, i, s, k, anchorEnd)
  {
    k :| from <= k <= |s| && MatchesAt(p, i, s, k, anchorEnd);
  }

  predicate StarFree(p: string, lo: nat, hi: nat)
    requires lo <= hi <= |p|
  {
    forall i :: lo <= i < hi ==> p[i] != '*'
  }

  predicate OnlyStarsAndSeparators(p: string, i: nat)
    requires i <= |p|
  {
    forall k :: i <= k < |p| ==> p[k] == '*' || p[k] == '^'
  }

  /** At the end of the input exactly '*' and '^' can still match. */
  lemma {:induction false} MatchesAtEnd(p: string, i: nat, s: string, anchorEnd: bool)
    requires i <= |p|
    ensures MatchesAt(p, i, s, |s|, anchorEnd) <==> OnlyStarsAndSeparators(p, i)
    decreases |p| - i
  {
    if i < |p| {
      MatchesAtEnd(p, i + 1, s, anchorEnd);
    }
  }

  /** A star-free stretch consumes one byte per element until the input runs out. */
  lemma {:induction false} StarFreeStep(p: string, lo: nat, hi: nat, s: string, j: nat, anchorEnd: bool)
    requires lo <= hi <= |p| && j <= |s| && StarFree(p, lo, hi)
    requires MatchesAt(p, lo, s, j, anchorEnd)
    ensures var e := if j + (hi - lo) <= |s| then j + (hi - lo) else |s|;
            MatchesAt(p, hi, s, e, anchorEnd)
    decreases hi - lo
  {
    if lo < hi {
      if j < |s| {
        StarFreeStep(p, lo + 1, hi, s, j + 1, anchorEnd);
      } else {
        StarFreeStep(p, lo + 1, hi, s, j, anchorEnd);
      }
    }
  }

  /** Forgetting an earlier star loses nothing: whatever a later restart of `p[lo..]` reaches,
      the star at `hi` reaches from where the earliest restart met it. */
  lemma LastStarSuffices(p: string, lo: nat, hi: nat, s: string, mark: nat, anchorEnd: bool)
    requires lo <= hi < |p| && StarFree(p, lo, hi) && p[hi] == '*'
    requires mark + (hi - lo) <= |s|
    requires MatchesFrom(p, lo, s, mark, anchorEnd)
    ensures MatchesFrom(p, hi + 1, s, mark + (hi - lo), anchorEnd)
  {
    var m := Start(p, lo, s, mark, anchorEnd);
    StarFreeStep(p, lo, hi, s, m, anchorEnd);
  }

  /** The first of the offsets, or a later one. */
  lemma FirstOrLater(p: string, i: nat, s: string, from: nat, anchorEnd: bool)
    requires i <= |p| && from <= |s|
    ensures MatchesFrom(p, i, s, from, anchorEnd)
      <==> MatchesAt(p, i, s, from, anchorEnd) || MatchesFrom(p, i, s, from + 1, anchorEnd)
  {
  }

  /** When no match starts in `from..to`, looking on from `to` is enough. */
  lemma SkipTo(p: string, s: string, from: nat, to: nat, anchorEnd: bool)
    requires from <= to && forall k: nat :: from <= k <= |s| && MatchesAt(p, 0, s, k, anchorEnd) ==> to <= k
    ensures MatchesFrom(p, 0, s, from, anchorEnd) <==> MatchesFrom(p, 0, s, to, anchorEnd)
  {
  }

  /** With input left, a non-star element takes exactly one byte; past the pattern's end only an
      unanchored end can match. */
  lemma ElementStep(p: string, pi: nat, s: string, si: nat, anchorEnd: bool)
    requires pi <= |p| && si < |s| && (pi < |p| ==> p[pi] != '*')
    ensures MatchesAt(p, pi, s, si, anchorEnd) <==>
      if pi == |p| then !anchorEnd else ElementIs(p[pi], s[si]) && MatchesAt(p, pi + 1, s, si + 1, anchorEnd)
  {
  }

  /** Meeting a star: the restarts of the stretch before it add nothing to the star's own. */
  lemma StarTakesOver(p: string, resume: nat, pi: nat, s: string, mark: nat, hasStar: bool, anchorEnd: bool)
    requires resume <= pi < |p| && p[pi] == '*' && StarFree(p, resume, pi)
    requires mark + (pi - resume) < |s|
    ensures var si := mark + (pi - resume);
            (MatchesAt(p, pi, s, si, anchorEnd) || (hasStar && MatchesFrom(p, resume, s, mark + 1, anchorEnd)))
            <==> (MatchesAt(p, pi + 1, s, si, anchorEnd) || MatchesFrom(p, pi + 1, s, si + 1, anchorEnd))
  {
    if MatchesFrom(p, resume, s, mark + 1, anchorEnd) {
      LastStarSuffices(p, resume, pi, s, mark, anchorEnd);
    }
  }

  /** Running out of input decides the match: a later restart has even less input to spend. */
  lemma EndDecides(p: string, resume: nat, pi: nat, s: string, mark: nat, anchorEnd: bool)
    requires resume <= pi <= |p| && StarFree(p, resume, pi)
    requires mark + (pi - resume) == |s|
    ensures MatchesFrom(p, resume, s, mark + 1, anchorEnd) ==> MatchesAt(p, pi, s, |s|, anchorEnd)
    ensures MatchesAt(p, pi, s, |s|, anchorEnd) <==> OnlyStarsAndSeparators(p, pi)
  {
    MatchesAtEnd(p, pi, s, anchorEnd);
    if MatchesFrom(p, resume, s, mark + 1, anchorEnd) {
      var m := Start(p, resume, s, mark + 1, anchorEnd);
      StarFreeStep(p, resume, pi, s, m, anchorEnd);
    }
  }

  /** What is left of the main loop's budget when `moves` restart moves remain: each move
      buys one pass over the pattern, since restart points and offsets only go forward. */
  function Budget(n: nat, moves: nat, pi: nat): int {
    Passes(n, moves) + n - pi
  }

  function Passes(n: nat, moves: nat): (r: nat) {
    if moves == 0 then 0 else n + 1 + Passes(n, moves - 1)
  }

  lemma {:induction false} PassesFall(n: nat, moves: nat, fewer: nat)
    requires fewer < moves
    ensures Passes(n, fewer) + n + 1 <= Passes(n, moves)
  {
    if fewer + 1 < moves {
      PassesFall(n, moves - 1, fewer);
    }
  }

  lemma {:induction false} PassesProduct(n: nat, moves: nat)
    ensures Passes(n, moves) == moves * (n + 1)
  {
    if moves > 0 {
      PassesProduct(n, moves - 1);
      assert moves * (n + 1) == (moves - 1) * (n + 1) + (n + 1);
    }
  }

  method GlobMatch(p: string, s: string, anchored: bool, anchorEnd: bool) returns (ok: bool, ghost turns: nat)
    ensures ok <==> Matches(p, s, anchored, anchorEnd)
    ensures turns <= (|p| + |s|) * (|p| + 1) + |p| + 1
  {
    var pi, si := 0, 0;
    var hasStar, resume, mark := !anchored, 0, 0;
    turns := 0;
    PassesProduct(|p|, |p| + |s|);
    FirstOrLater(p, 0, s, 0, anchorEnd);
    ghost var answer := Matches(p, s, anchored, anchorEnd);
    while true
      invariant 0 <= resume <= pi <= |p| && 0 <= mark <= si <= |s|
      invariant !hasStar ==> resume == mark == 0
      invariant si == mark + (pi - resume) && StarFree(p, resume, pi)
      invariant answer <==> || MatchesAt(p, pi, s, si, anchorEnd)
                            || (hasStar && MatchesFrom(p, resume, s, mark + 1, anchorEnd))
      invariant turns + Budget(|p|, |p| + |s| - resume - mark, pi) <= (|p| + |s|) * (|p| + 1) + |p|
      decreases Budget(|p|, |p| + |s| - resume - mark, pi)
    {
      turns := turns + 1;
      if pi == |p| && (!anchorEnd || si == |s|) {
        return true, turns;
      }
      if si == |s| {
        break;
      }
      if pi == |p| || p[pi] != '*' {
        ElementStep(p, pi, s, si, anchorEnd);
      }
      hide Passes, MatchesFrom, MatchesAt;
      if pi < |p| {
        var c := p[pi];
        if c == '*' {
          StarTakesOver(p, resume, pi, s, mark, hasStar, anchorEnd);
          PassesFall(|p|, |p| + |s| - resume - mark, |p| + |s| - (pi + 1) - si);
          hasStar, resume, mark := true, pi + 1, si;
          pi := pi + 1;
          continue;
        } else if c == '^' && IsSeparator(s[si]) {
          pi := pi + 1;
          si := si + 1;
          continue;
        } else if c != '^' && c == s[si] {
          pi := pi + 1;
          si := si + 1;
          continue;
        }
      }
      if !hasStar {
        return false, turns;
      }
      FirstOrLater(p, resume, s, mark + 1, anchorEnd);
      PassesFall(|p|, |p| + |s| - resume - mark, |p| + |s| - resume - mark - 1);
      mark := mark + 1;
      pi, si := resume, mark;
    }
    EndDecides(p, resume, pi, s, mark, anchorEnd);
    ok := IsTail(p, pi);
  }

  /** Whether all that is left of the pattern can match no input at all. */
  method IsTail(p: string, from: nat) returns (ok: bool)
    requires from <= |p|
    ensures ok <==> OnlyStarsAndSeparators(p, from)
  {
    var pi := from;
    while pi < |p| && (p[pi] == '*' || p[pi] == '^')
      invariant from <= pi <= |p|
      invariant forall k :: from <= k < pi ==> p[k] == '*' || p[k] == '^'
    {
      pi := pi + 1;
    }
    return pi == |p|;
  }
}
