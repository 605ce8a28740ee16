/** Host names: suffix matching and the walk up through parent domains. */
module Domains {

  /** What follows the first dot, or nothing when there is none. */
  function ParentDomain(h: string): string {
    if h == "" then "" else if h[0] == '.' then h[1..] else ParentDomain(h[1..])
  }

  predicate DomainMatches(host: string, d: string) {
    if |host| == |d| then host == d
    else |host| > |d| && host[|host| - |d| - 1] == '.' && host[|host| - |d|..] == d
  }

  /** `host` is `d` or lies below it. */
  ghost predicate IsSubdomain(host: string, d: string) {
    host == d || exists labels: string :: host == labels + "." + d
  }

  lemma DomainMatchesIsSubdomain(host: string, d: string)
    ensures DomainMatches(host, d) <==> IsSubdomain(host, d)
  {
    if DomainMatches(host, d) && host != d {
      assert host == host[..|host| - |d| - 1] + "." + d;
    }
  }

  lemma ParentIsShorter(h: string)
    requires h != ""
    ensures |ParentDomain(h)| < |h|
  {
  }

  /** The hosts a lookup visits: the host itself, then each parent, until nothing is left. */
  function Chain(h: string): seq<string>
    decreases |h|
  {
    if h == "" then [] else
      ParentIsShorter(h);
      [h] + Chain(ParentDomain(h))
  }

  /** Dropping labels one at a time loses no domain that matches. */
  lemma {:induction false} ParentKeepsMatches(h: string, d: string)
    requires d != "" && |d| < |h|
    ensures DomainMatches(h, d) <==> DomainMatches(ParentDomain(h), d)
  {
    if h[0] != '.' {
      if |d| + 1 < |h| {
        ParentKeepsMatches(h[1..], d);
        assert h[|h| - |d|..] == h[1..][|h[1..]| - |d|..];
      } else {
        NoDotNoParent(h[1..], d);
      }
    }
  }

  lemma {:induction false} NoDotNoParent(h: string, d: string)
    requires d != "" && |h| <= |d|
    ensures !DomainMatches(ParentDomain(h), d)
  {
    if h != "" {
      ParentIsShorter(h);
    }
  }

  /** The chain visits exactly the non-empty domains the host belongs to. */
  lemma {:induction false} ChainIsMatches(h: string, d: string)
    ensures d in Chain(h) <==> d != "" && DomainMatches(h, d)
    decreases |h|
  {
    if h != "" {
      ParentIsShorter(h);
      var parent := ParentDomain(h);
      ChainIsMatches(parent, d);
      if d != "" && |d| < |h| {
        ParentKeepsMatches(h, d);
      }
    }
  }
}
