/** Category domain lists: cleaning them, loading them into an exact or a compact set, and asking
    whether a host is listed. The theorems hold for every hash function. */
module DomainSets {
  import opened Wrappers
  import opened Text
  import opened Domains
  import opened Scanner

  /** A list holding more distinct domains than this is kept as sorted hashes only. */
  const HASH_SET_THRESHOLD := 100_000

  // Entries.

  function Clean(line: string): string {
    Lower(TrimSpace(line))
  }

  predicate IsEntry(cleaned: string) {
    cleaned != "" && !HasPrefix(cleaned, "#")
  }

  /** The domains a list holds: its cleaned lines, less blanks and comments. */
  function Entries(lines: seq<string>): seq<string> {
    if lines == [] then []
    else
      var cleaned := Clean(lines[|lines| - 1]);
      if IsEntry(cleaned) then Entries(lines[..|lines| - 1]) + [cleaned] else Entries(lines[..|lines| - 1])
  }

  ghost function Distinct(entries: seq<string>): set<string> {
    set e | e in entries
  }

  ghost function HashesOf(entries: seq<string>, hash: string -> nat): set<nat> {
    set e | e in entries :: hash(e)
  }

  // The two forms of a domain set.

  datatype DomainSet = Exact(domains: set<string>) | Hashed(hashes: seq<nat>)

  ghost predicate StrictlyIncreasing(h: seq<nat>) {
    forall i, j :: 0 <= i < j < |h| ==> h[i] < h[j]
  }

  /** What is asked of a set: the domain itself, or its hash. */
  ghost predicate Contains(ds: DomainSet, d: string, hash: string -> nat) {
    match ds
    case Exact(domains) => d in domains
    case Hashed(hashes) => hash(d) in hashes
  }

  /** `ds` is the form a list of these entries is loaded into. */
  ghost predicate IsDomainSet(ds: DomainSet, entries: seq<string>, hash: string -> nat) {
    if |Distinct(entries)| <= HASH_SET_THRESHOLD then ds == Exact(Distinct(entries))
    else ds.Hashed? && StrictlyIncreasing(ds.hashes) && forall x :: x in ds.hashes <==> x in HashesOf(entries, hash)
  }

  // Sorting and deduplicating hashes.

  ghost predicate SortedHashes(s: seq<nat>) {
    forall i, j :: 0 <= i < j < |s| ==> s[i] <= s[j]
  }

  function InsertHash(x: nat, s: seq<nat>): seq<nat> {
    if s == [] || x <= s[0] then [x] + s else [s[0]] + InsertHash(x, s[1..])
  }

  function SortHashes(s: seq<nat>): seq<nat> {
    if s == [] then [] else InsertHash(s[|s| - 1], SortHashes(s[..|s| - 1]))
  }

  lemma {:induction false} InsertHashSorts(x: nat, s: seq<nat>, lo: nat)
    requires SortedHashes(s) && lo <= x && forall i :: 0 <= i < |s| ==> lo <= s[i]
    ensures SortedHashes(InsertHash(x, s)) && forall i :: 0 <= i < |InsertHash(x, s)| ==> lo <= InsertHash(x, s)[i]
    ensures forall y :: y in InsertHash(x, s) <==> y == x || y in s
  {
    if s != [] && x > s[0] {
      InsertHashSorts(x, s[1..], s[0]);
      assert s == [s[0]] + s[1..];
    }
  }

  lemma {:induction false} SortHashesSorts(s: seq<nat>)
    ensures SortedHashes(SortHashes(s)) && forall y :: y in SortHashes(s) <==> y in s
  {
    if s != [] {
      SortHashesSorts(s[..|s| - 1]);
      InsertHashSorts(s[|s| - 1], SortHashes(s[..|s| - 1]), 0);
      assert s == s[..|s| - 1] + [s[|s| - 1]];
    }
  }

  /** Dedupe a sorted array in place: the first `n` places hold each value once, in order. The
      values still to be read are never overwritten, although both ends share the array. */
  method DedupeInPlace(a: array<nat>) returns (n: nat)
    requires SortedHashes(a[..])
    modifies a
    ensures n <= a.Length && StrictlyIncreasing(a[..n])
    ensures forall x :: x in a[..n] <==> x in old(a[..])
  {
    ghost var s := a[..];
    n := 0;
    var prev: nat := 0;
    assert StrictlyIncreasing(a[..0]);
    hide StrictlyIncreasing, SortedHashes;
    for i := 0 to a.Length
      invariant n <= i && a[i..] == s[i..] && (i == 0 ==> n == 0)
      invariant StrictlyIncreasing(a[..n])
      invariant forall x :: x in a[..n] <==> x in s[..i]
      invariant i > 0 ==> n > 0 && prev == s[i - 1] == a[n - 1]
    {
      var h := a[i];
      assert h == s[i..][0] && s[..i + 1] == s[..i] + [s[i]];
      if i > 0 && h == prev {
        continue;
      }
      ghost var kept := a[..n];
      AppendLarger(s, i, kept);
      a[n] := h;
      assert a[..n + 1] == kept + [h];
      n := n + 1;
      prev := h;
    }
    assert s[..|s|] == s;
  }

  lemma AppendLarger(s: seq<nat>, i: nat, kept: seq<nat>)
    requires SortedHashes(s) && StrictlyIncreasing(kept) && i < |s|
    requires i > 0 ==> kept != [] && kept[|kept| - 1] == s[i - 1] != s[i]
    requires i == 0 ==> kept == []
    ensures StrictlyIncreasing(kept + [s[i]])
  {
  }

  /** Load entries into the cheapest adequate form. */
  method BuildDomainSet(text: string, hash: string -> nat) returns (ds: DomainSet)
    ensures IsDomainSet(ds, Entries(Scan(text).lines), hash)
  {
    hide Scan, Clean, IsEntry;
    var lines := Scan(text).lines;
    var exact: Option<set<string>> := Some({});
    var hashes: seq<nat> := [];
    ghost var entries: seq<string> := [];
    for i := 0 to |lines|
      invariant entries == Entries(lines[..i])
      invariant forall x :: x in hashes <==> x in HashesOf(entries, hash)
      invariant exact.Some? ==> exact.value == Distinct(entries) && |exact.value| <= HASH_SET_THRESHOLD
      invariant exact.None? ==> |Distinct(entries)| > HASH_SET_THRESHOLD
    {
      assert lines[..i + 1][..i] == lines[..i];
      var line := Clean(lines[i]);
      if !IsEntry(line) {
        continue;
      }
      GrowDistinct(entries, line);
      GrowHashes(entries, line, hash);
      entries := entries + [line];
      hashes := hashes + [hash(line)];
      if exact.Some? {
        exact := Some(exact.value + {line});
        if |exact.value| > HASH_SET_THRESHOLD {
          exact := None;
        }
      }
    }
    assert lines[..|lines|] == lines;
    if exact.Some? {
      return Exact(exact.value);
    }
    var sorted := SortHashes(hashes);
    SortHashesSorts(hashes);
    var a := new nat[|sorted|](i requires 0 <= i < |sorted| => sorted[i]);
    assert a[..] == sorted;
    var n := DedupeInPlace(a);
    return Hashed(a[..n]);
  }

  lemma GrowDistinct(entries: seq<string>, line: string)
    ensures Distinct(entries + [line]) == Distinct(entries) + {line}
    ensures |Distinct(entries)| <= |Distinct(entries + [line])|
  {
    assert Distinct(entries + [line]) == Distinct(entries) + {line};
    if line in Distinct(entries) {
      assert Distinct(entries) + {line} == Distinct(entries);
    }
  }

  lemma GrowHashes(entries: seq<string>, line: string, hash: string -> nat)
    ensures HashesOf(entries + [line], hash) == HashesOf(entries, hash) + {hash(line)}
  {
    forall x | x in HashesOf(entries, hash) + {hash(line)} ensures x in HashesOf(entries + [line], hash) {
      if x == hash(line) {
        assert line in entries + [line];
      } else {
        var e :| e in entries && hash(e) == x;
        assert e in entries + [line];
      }
    }
  }

  // Asking.

  /** The first position holding at least `v`, by binary search. */
  method HashSetContains(h: seq<nat>, v: nat) returns (found: bool)
    requires StrictlyIncreasing(h)
    ensures found <==> v in h
  {
    var lo, hi := 0, |h|;
    while lo < hi
      invariant 0 <= lo <= hi <= |h|
      invariant forall i :: 0 <= i < lo ==> h[i] < v
      invariant forall i :: hi <= i < |h| ==> h[i] >= v
    {
      var mid := (lo + hi) / 2;
      if h[mid] >= v {
        hi := mid;
      } else {
        lo := mid + 1;
      }
    }
    return lo < |h| && h[lo] == v;
  }

  method SetContains(ds: DomainSet, d: string, hash: string -> nat) returns (found: bool)
    requires ds.Hashed? ==> StrictlyIncreasing(ds.hashes)
    ensures found <==> Contains(ds, d, hash)
  {
    match ds {
      case Exact(domains) => found := d in domains;
      case Hashed(hashes) => found := HashSetContains(hashes, hash(d));
    }
  }

  function NormalHost(host: string): string {
    Lower(TrimDot(host))
  }

  /** The host or one of its parent domains is in the set, bare top-level domains excepted. */
  ghost predicate IsListed(host: string, ds: DomainSet, hash: string -> nat) {
    exists d :: IsQueried(host, d) && Contains(ds, d, hash)
  }

  /** `d` is the host or a parent of it, and not a bare top-level domain. */
  predicate IsQueried(host: string, d: string) {
    '.' in d && DomainMatches(NormalHost(host), d)
  }

  method HostInSet(host: string, ds: DomainSet, hash: string -> nat) returns (found: bool)
    requires ds.Hashed? ==> StrictlyIncreasing(ds.hashes)
    ensures found <==> IsListed(host, ds, hash)
  {
    hide Split, Join, DomainMatches, NormalHost, Contains;
    var h := NormalHost(host);
    var labels := Split(h, '.');
    for i := 0 to |labels| - 1
      invariant forall j :: 0 <= j < i ==> !Contains(ds, Join(labels[j..], "."), hash)
    {
      found := SetContains(ds, Join(labels[i..], "."), hash);
      if found {
        ghost var d := Join(labels[i..], ".");
        SuffixIsParent(h, i);
        assert IsQueried(host, d) && Contains(ds, d, hash);
        return;
      }
    }
    forall d | '.' in d && DomainMatches(h, d) ensures !Contains(ds, d, hash) {
      SuffixesAreParents(h, d);
    }
    return false;
  }

  lemma JoinSplit(s: string)
    ensures Join(Split(s, '.'), ".") == s
    decreases |s|
  {
  }

  lemma {:induction false} SplitParent(h: string)
    requires '.' in h
    ensures Split(h, '.')[1..] == Split(ParentDomain(h), '.') && |Split(h, '.')| > 1
    decreases |h|
  {
    var i := FirstOf(h, ".", 0);
    ParentAt(h, i);
    assert Split(h, '.')[1..] == Split(h[i + 1..], '.');
  }

  lemma {:induction false} ParentAt(h: string, i: nat)
    requires i < |h| && h[i] == '.' && forall k :: 0 <= k < i ==> h[k] != '.'
    ensures ParentDomain(h) == h[i + 1..]
  {
    if i > 0 {
      ParentAt(h[1..], i - 1);
      assert h[1..][i..] == h[i + 1..];
    }
  }

  lemma {:induction false} SuffixIsParent(h: string, i: nat)
    requires i < |Split(h, '.')| - 1
    ensures var d := Join(Split(h, '.')[i..], "."); '.' in d && DomainMatches(h, d) && |d| <= |h|
    decreases |h|
  {
    hide DomainMatches, Join;
    HasSeveralLabels(h);
    JoinSplit(h);
    hide Split;
    if i == 0 {
      assert Split(h, '.')[0..] == Split(h, '.');
      SelfMatches(h);
    } else {
      var parent := ParentDomain(h);
      ParentIsShorter(h);
      SplitParent(h);
      SuffixIsParent(parent, i - 1);
      assert Split(h, '.')[i..] == Split(h, '.')[1..][i - 1..];
      ParentKeepsMatches(h, Join(Split(h, '.')[i..], "."));
    }
  }

  lemma HasSeveralLabels(h: string)
    ensures |Split(h, '.')| > 1 <==> '.' in h
  {
    if '.' in h {
      SplitParent(h);
    } else {
      SplitNothing(h, '.');
    }
  }

  lemma SelfMatches(h: string)
    ensures DomainMatches(h, h)
  {
  }

  lemma {:induction false} ParentIsSuffix(h: string, d: string) returns (i: nat)
    requires '.' in d && DomainMatches(h, d)
    ensures i < |Split(h, '.')| - 1 && Join(Split(h, '.')[i..], ".") == d
    decreases |h|
  {
    MatchedIsShorter(h, d);
    hide DomainMatches, Join;
    SplitParent(h);
    JoinSplit(h);
    hide Split;
    if d == h {
      i := 0;
      assert Split(h, '.')[0..] == Split(h, '.');
    } else {
      var parent := ParentDomain(h);
      ParentIsShorter(h);
      ParentKeepsMatches(h, d);
      var j := ParentIsSuffix(parent, d);
      i := j + 1;
      assert Split(h, '.')[i..] == Split(h, '.')[1..][j..];
    }
  }

  lemma MatchedIsShorter(h: string, d: string)
    requires '.' in d && DomainMatches(h, d)
    ensures '.' in h && (d != h ==> |d| < |h|)
  {
    var k :| 0 <= k < |d| && d[k] == '.';
    assert h[|h| - |d| + k] == d[k];
  }

  /** Joining the labels from one on, short of the last label alone, gives exactly the parents that
      still hold a dot. */
  lemma SuffixesAreParents(h: string, d: string)
    ensures (exists i :: 0 <= i < |Split(h, '.')| - 1 && Join(Split(h, '.')[i..], ".") == d)
       <==> ('.' in d && DomainMatches(h, d))
  {
    hide Split, Join, DomainMatches;
    if i: nat :| i < |Split(h, '.')| - 1 && Join(Split(h, '.')[i..], ".") == d {
      SuffixIsParent(h, i);
    }
    if '.' in d && DomainMatches(h, d) {
      var i := ParentIsSuffix(h, d);
    }
  }

  // The two forms agree.

  /** Neither form loses a listed domain. */
  lemma ListedIsContained(ds: DomainSet, entries: seq<string>, hash: string -> nat, d: string)
    requires IsDomainSet(ds, entries, hash) && d in entries
    ensures Contains(ds, d, hash)
  {
  }

  /** The compact form contains `d` exactly when some listed domain has the same hash. */
  lemma CompactContains(ds: DomainSet, entries: seq<string>, hash: string -> nat, d: string)
    requires IsDomainSet(ds, entries, hash) && ds.Hashed?
    ensures Contains(ds, d, hash) <==> exists e :: e in entries && hash(e) == hash(d)
  {
  }

  /** Some queried parent of the host, itself not listed, shares its hash with a listed domain. */
  ghost predicate Collides(host: string, entries: seq<string>, hash: string -> nat) {
    exists d, e :: IsQueried(host, d) && d !in entries && e in entries && hash(d) == hash(e)
  }

  /** The compact form never loses a listed host, and adds to the exact answer just the hosts with
      a colliding parent: without a collision the two forms agree. */
  lemma FormsAgree(ds: DomainSet, entries: seq<string>, hash: string -> nat, host: string)
    requires IsDomainSet(ds, entries, hash)
    ensures IsListed(host, ds, hash) <==>
      IsListed(host, Exact(Distinct(entries)), hash) || (ds.Hashed? && Collides(host, entries, hash))
  {
  }

  // Cleaning a downloaded list.

  const MAX_CATEGORY_DOWNLOAD := 0x400_0000

  datatype CleanError = TooBig | LineTooLong

  /** The entries kept: the first of each hash. */
  ghost function Kept(entries: seq<string>, hash: string -> nat): seq<string> {
    if entries == [] then []
    else
      var before := Kept(entries[..|entries| - 1], hash);
      var e := entries[|entries| - 1];
      if hash(e) in HashesOf(before, hash) then before else before + [e]
  }

  lemma KeepOneMore(entries: seq<string>, e: string, hash: string -> nat)
    ensures Kept(entries + [e], hash)
         == if hash(e) in HashesOf(Kept(entries, hash), hash) then Kept(entries, hash) else Kept(entries, hash) + [e]
  {
  }

  lemma WriteOneMore(lines: seq<string>, line: string)
    ensures Written(lines + [line]) == Written(lines) + line + "\n"
  {
  }

  /** One line each, with its newline. */
  function Written(lines: seq<string>): string {
    if lines == [] then "" else Written(lines[..|lines| - 1]) + lines[|lines| - 1] + "\n"
  }

  function TotalBytes(lines: seq<string>): nat {
    if lines == [] then 0 else TotalBytes(lines[..|lines| - 1]) + |lines[|lines| - 1]| + 1
  }

  method WriteCleaned(text: string, hash: string -> nat) returns (res: Result<(string, nat), CleanError>)
    ensures var scan := Scan(text);
            var kept := Kept(Entries(scan.lines), hash);
            res == if TotalBytes(scan.lines) > MAX_CATEGORY_DOWNLOAD then Err(TooBig)
                   else if scan.tooLong then Err(LineTooLong)
                   else Ok((Written(kept), |kept|))
  {
    var scan := Scan(text);
    var seen: set<nat>, count, total, out := {}, 0, 0, "";
    ghost var kept: seq<string> := [];
    assert kept == Kept([], hash) && seen == HashesOf(kept, hash) && out == Written(kept);
    hide Scan, Clean, IsEntry, Kept, Written, HashesOf;
    for i := 0 to |scan.lines|
      invariant kept == Kept(Entries(scan.lines[..i]), hash)
      invariant total == TotalBytes(scan.lines[..i]) <= MAX_CATEGORY_DOWNLOAD
      invariant seen == HashesOf(kept, hash) && count == |kept| && out == Written(kept)
    {
      assert scan.lines[..i + 1][..i] == scan.lines[..i];
      total := total + |scan.lines[i]| + 1;
      if total > MAX_CATEGORY_DOWNLOAD {
        TotalGrows(scan.lines, i + 1);
        return Err(TooBig);
      }
      var line := Clean(scan.lines[i]);
      if !IsEntry(line) {
        continue;
      }
      KeepOneMore(Entries(scan.lines[..i]), line, hash);
      WriteOneMore(kept, line);
      var h := hash(line);
      if h in seen {
        continue;
      }
      GrowHashes(kept, line, hash);
      seen := seen + {h};
      out := out + line;
      out := out + "\n";
      kept := kept + [line];
      count := count + 1;
    }
    assert scan.lines[..|scan.lines|] == scan.lines;
    if scan.tooLong {
      return Err(LineTooLong);
    }
    return Ok((out, count));
  }

  lemma {:induction false} TotalGrows(lines: seq<string>, n: nat)
    requires n <= |lines|
    ensures TotalBytes(lines[..n]) <= TotalBytes(lines)
  {
    if n < |lines| {
      assert lines[..|lines| - 1][..n] == lines[..n];
      TotalGrows(lines[..|lines| - 1], n);
    } else {
      assert lines[..n] == lines;
    }
  }

  /** Keeping the first of each hash keeps every hash, one entry each, and only entries of the list. */
  lemma {:induction false} KeptKeepsHashes(entries: seq<string>, hash: string -> nat)
    ensures HashesOf(Kept(entries, hash), hash) == HashesOf(entries, hash)
    ensures |Kept(entries, hash)| == |HashesOf(entries, hash)|
    ensures forall k :: k in Kept(entries, hash) ==> k in entries
  {
    if entries != [] {
      var n := |entries| - 1;
      var e := entries[n];
      var before := Kept(entries[..n], hash);
      KeptKeepsHashes(entries[..n], hash);
      assert entries == entries[..n] + [e];
      GrowHashes(entries[..n], e, hash);
      GrowHashes(before, e, hash);
      KeepOneMore(entries[..n], e, hash);
      hide HashesOf, Kept;
      if hash(e) in HashesOf(before, hash) {
        assert HashesOf(entries[..n], hash) + {hash(e)} == HashesOf(entries[..n], hash);
      }
    }
  }

  /** A line that comes back from a scan of what was written: cleaned, an entry, short enough. */
  predicate IsWritable(line: string) {
    IsEntry(line) && Clean(line) == line && NoneOf(line, "\n") && !HasSuffix(line, "\r") && |line| < MAX_LINE
  }

  lemma {:induction false} ScanWritten(line: string, more: string)
    requires IsWritable(line)
    ensures Scan(line + "\n" + more).lines == [line] + Scan(more).lines
    ensures Scan(line + "\n" + more).tooLong == Scan(more).tooLong
  {
    var text := line + "\n" + more;
    assert text[|line|] == '\n' && forall k :: 0 <= k < |line| ==> text[k] == line[k];
    assert FirstOf(text, "\n", 0) == |line|;
    assert text[..|line|] == line && text[|line| + 1..] == more;
  }

  lemma {:induction false} ScanAllWritten(lines: seq<string>, more: string)
    requires forall l :: l in lines ==> IsWritable(l)
    ensures Scan(Written(lines) + more).lines == lines + Scan(more).lines
    ensures Scan(Written(lines) + more).tooLong == Scan(more).tooLong
  {
    hide Scan, IsWritable;
    if lines == [] {
      assert Written(lines) + more == more;
    } else {
      var n := |lines| - 1;
      var rest := lines[n] + "\n" + more;
      assert Written(lines) + more == Written(lines[..n]) + rest;
      ScanAllWritten(lines[..n], rest);
      ScanWritten(lines[n], more);
      assert lines == lines[..n] + [lines[n]];
    }
  }

  lemma {:induction false} EntriesOfWritten(lines: seq<string>)
    requires forall l :: l in lines ==> IsWritable(l)
    ensures Entries(lines) == lines
  {
    hide Clean, IsEntry;
    if lines != [] {
      var n := |lines| - 1;
      EntriesOfWritten(lines[..n]);
      assert IsWritable(lines[n]);
      assert lines == lines[..n] + [lines[n]];
    }
  }

  // Entries are writable.

  lemma {:induction false} ScanLinesAreClean(text: string, l: string)
    requires l in Scan(text).lines
    ensures NoneOf(l, "\n") && |l| < MAX_LINE
    decreases |text|
  {
    var i := FirstOf(text, "\n", 0);
    if i < MAX_LINE {
      FirstLineIsClean(text, i);
      if l != TrimSuffix(text[..i], "\r") {
        hide FirstOf;
        ScanLinesAreClean(text[i + 1..], l);
      }
    }
  }

  lemma FirstLineIsClean(text: string, i: nat)
    requires i == FirstOf(text, "\n", 0) && i < MAX_LINE
    ensures var line := TrimSuffix(text[..i], "\r"); NoneOf(line, "\n") && |line| < MAX_LINE
  {
  }

  lemma {:induction false} TrimKeeps(s: string)
    ensures |TrimSpace(s)| <= |s| && forall c :: c in TrimSpace(s) ==> c in s
  {
    TrimLeftKeeps(s);
    TrimRightKeeps(TrimLeft(s));
  }

  lemma {:induction false} TrimLeftKeeps(s: string)
    ensures |TrimLeft(s)| <= |s| && forall c :: c in TrimLeft(s) ==> c in s
  {
    if s != "" && s[0] in WHITE_SPACE {
      TrimLeftKeeps(s[1..]);
    }
  }

  lemma {:induction false} TrimRightKeeps(s: string)
    ensures |TrimRight(s)| <= |s| && forall c :: c in TrimRight(s) ==> c in s
  {
  }

  lemma TrimIsTrimmed(s: string)
    ensures var t := TrimSpace(s); t == "" || (t[0] !in WHITE_SPACE && t[|t| - 1] !in WHITE_SPACE)
  {
  }

  lemma LowerKeepsOthers(c: char)
    ensures LowerChar(c) in WHITE_SPACE <==> c in WHITE_SPACE
    ensures LowerChar(c) == '\n' <==> c == '\n'
    ensures LowerChar(c) == '\r' ==> c in WHITE_SPACE
  {
  }

  lemma CleanIsWritable(line: string)
    requires NoneOf(line, "\n") && |line| < MAX_LINE && IsEntry(Clean(line))
    ensures IsWritable(Clean(line))
  {
    var t := TrimSpace(line);
    var c := Clean(line);
    TrimKeeps(line);
    TrimIsTrimmed(line);
    forall i | 0 <= i < |c|
      ensures (c[i] in WHITE_SPACE <==> t[i] in WHITE_SPACE) && c[i] != '\n' && (c[i] == '\r' ==> t[i] in WHITE_SPACE)
    {
      LowerKeepsOthers(t[i]);
      assert t[i] in t;
    }
    hide TrimSpace, WHITE_SPACE;
    TrimNothing(c);
    LowerIdempotent(t);
    assert c[|c| - 1..] == [c[|c| - 1]];
  }

  lemma {:induction false} EntriesAreWritable(lines: seq<string>, e: string)
    requires forall l :: l in lines ==> NoneOf(l, "\n") && |l| < MAX_LINE
    requires e in Entries(lines)
    ensures IsWritable(e)
  {
    hide IsWritable, Clean, IsEntry;
    var n := |lines| - 1;
    if e in Entries(lines[..n]) {
      EntriesAreWritable(lines[..n], e);
    } else {
      CleanIsWritable(lines[n]);
    }
  }

  /** Cleaning keeps exactly the hashes: scanning and reading back the cleaned text gives the kept
      entries, whose hashes are those of the raw list, and the count is the number of distinct hashes. */
  lemma CleaningKeepsHashes(text: string, hash: string -> nat)
    ensures var raw := Entries(Scan(text).lines);
            var out := Written(Kept(raw, hash));
            && Scan(out) == Scanned(Kept(raw, hash), false)
            && Entries(Scan(out).lines) == Kept(raw, hash)
            && HashesOf(Entries(Scan(out).lines), hash) == HashesOf(raw, hash)
            && |Kept(raw, hash)| == |HashesOf(raw, hash)|
  {
    var lines := Scan(text).lines;
    var raw := Entries(lines);
    var kept := Kept(raw, hash);
    KeptKeepsHashes(raw, hash);
    forall l | l in kept ensures IsWritable(l) {
      forall x | x in lines ensures NoneOf(x, "\n") && |x| < MAX_LINE {
        ScanLinesAreClean(text, x);
      }
      EntriesAreWritable(lines, l);
    }
    ScanAllWritten(kept, "");
    EntriesOfWritten(kept);
    assert Written(kept) + "" == Written(kept) && kept + [] == kept;
  }

  /** When the hash tells the listed domains apart, cleaning keeps exactly the membership answers,
      whichever form either list is loaded into, and counts the distinct domains. */
  lemma CleaningKeepsAnswers(text: string, hash: string -> nat, ds: DomainSet, ds': DomainSet, d: string)
    requires var raw := Entries(Scan(text).lines); forall a, b :: a in raw && b in raw && hash(a) == hash(b) ==> a == b
    requires IsDomainSet(ds, Entries(Scan(text).lines), hash)
    requires IsDomainSet(ds', Entries(Scan(Written(Kept(Entries(Scan(text).lines), hash))).lines), hash)
    ensures Contains(ds, d, hash) <==> Contains(ds', d, hash)
    ensures |Kept(Entries(Scan(text).lines), hash)| == |Distinct(Entries(Scan(text).lines))|
  {
    var raw := Entries(Scan(text).lines);
    var kept := Kept(raw, hash);
    CleaningKeepsHashes(text, hash);
    KeptKeepsHashes(raw, hash);
    hide Scan, Kept, Written, Entries;
    forall e | e in raw ensures e in kept {
      assert hash(e) in HashesOf(kept, hash);
      var k :| k in kept && hash(k) == hash(e);
    }
    assert Distinct(kept) == Distinct(raw);
    InjectiveCount(raw, hash);
  }

  lemma {:induction false} InjectiveCount(entries: seq<string>, hash: string -> nat)
    requires forall a, b :: a in entries && b in entries && hash(a) == hash(b) ==> a == b
    ensures |HashesOf(entries, hash)| == |Distinct(entries)|
  {
    if entries != [] {
      var n := |entries| - 1;
      var e := entries[n];
      InjectiveCount(entries[..n], hash);
      assert entries == entries[..n] + [e];
      GrowDistinct(entries[..n], e);
      GrowHashes(entries[..n], e, hash);
      if e in entries[..n] {
        assert Distinct(entries) == Distinct(entries[..n]);
        assert hash(e) in HashesOf(entries[..n], hash);
        assert HashesOf(entries, hash) == HashesOf(entries[..n], hash);
      } else {
        assert hash(e) !in HashesOf(entries[..n], hash);
      }
    }
  }
}
