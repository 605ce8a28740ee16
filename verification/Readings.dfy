/** What moving or adding lines does to the way a filter list is read. */
module Readings {
  import opened Wrappers
  import opened Text
  import opened ListParser
  import Parser = RuleParser

  // Bare domains are plain text.

  predicate IsDomainByte(b: char) {
    IsAlnum(b) || b == '-' || b == '.'
  }

  predicate AllDomainBytes(s: string) {
    forall i :: 0 <= i < |s| ==> IsDomainByte(s[i])
  }

  lemma {:induction false} LabelsAreDomainBytes(s: string)
    requires forall i :: 0 <= i < |Split(s, '.')| ==> IsLabel(Split(s, '.')[i])
    ensures AllDomainBytes(s) && s != "" && IsAlnum(s[0])
    decreases |s|
  {
    var i := FirstOf(s, ".", 0);
    var labels := Split(s, '.');
    assert IsLabel(labels[0]) && labels[0] == s[..i];
    assert forall k :: 0 <= k < i ==> s[k] == labels[0][k];
    if i < |s| {
      var more := Split(s[i + 1..], '.');
      assert labels == [s[..i]] + more && forall k :: 0 <= k < |more| ==> more[k] in labels;
      LabelsAreDomainBytes(s[i + 1..]);
      assert forall k :: i < k < |s| ==> s[k] == s[i + 1..][k - i - 1];
    }
  }

  lemma BareIsDomainBytes(d: string)
    requires IsBareDomain(d)
    ensures AllDomainBytes(d) && d != "" && IsAlnum(d[0])
  {
    var s := TrimSuffix(d, ".");
    LabelsAreDomainBytes(s);
    hide Split, IsLabel, IsIPv4;
    assert d == s || d == s + ".";
  }

  lemma NotContained(s: string, lit: string)
    requires AllDomainBytes(s) && lit != "" && lit[0] == '#'
    ensures !Contains(s, lit)
  {
    forall i | 0 <= i && i + |lit| <= |s| ensures !OccursAt(s, lit, i) {
      assert s[i..i + |lit|][0] == s[i];
    }
  }

  lemma DomainByteIsPlain(b: char)
    requires IsDomainByte(b)
    ensures b !in WHITE_SPACE && b !in RE_SPACE && b != '#' && b != '$' && b != '/' && b != '|' && b != '*'
    ensures LowerChar(b) !in "/*^|$ "
  {
  }

  lemma BareBeginsNothing(d: string)
    requires d != "" && IsAlnum(d[0])
    ensures !IsComment(d) && !IsHeader(d) && !IsHostsComment(d)
  {
  }

  /** A bare domain begins no comment, header or hosts line, and is a filter once the syntax is marked. */
  lemma BareIsFilterOnceMarked(d: string, lineNo: nat)
    requires IsBareDomain(d)
    ensures ReadLine(d, true, lineNo) == Filter && ReadLine(d, false, lineNo) == Host(CleanHost(d)) && CleanHost(d) != ""
    ensures !SetsMark(d, lineNo)
  {
    BareIsDomainBytes(d);
    BareBeginsNothing(d);
    hide IsBareDomain, IsComment, IsHeader, IsHostsComment, AllDomainBytes;
    BareNamesNoHost(d);
    BareIsCleaned(d);
    BareHidesNothing(d);
    hide HostsName, CleanHost, ReadABPLine;
  }

  lemma MarkersBeginWithHash()
    ensures forall i :: 0 <= i < |UNSUPPORTED_MARKERS| ==> UNSUPPORTED_MARKERS[i] != "" && UNSUPPORTED_MARKERS[i][0] == '#'
  {
  }

  lemma BareHidesNothing(d: string)
    requires AllDomainBytes(d)
    ensures ReadABPLine(d) == Filter
  {
    MarkersBeginWithHash();
    hide UNSUPPORTED_MARKERS, AllDomainBytes, Contains;
    forall i | 0 <= i < |UNSUPPORTED_MARKERS| ensures !Contains(d, UNSUPPORTED_MARKERS[i]) {
      NotContained(d, UNSUPPORTED_MARKERS[i]);
    }
    NotContained(d, "#@#");
    NotContained(d, "##");
  }

  lemma BareNamesNoHost(d: string)
    requires AllDomainBytes(d)
    ensures HostsName(d) == None
  {
    var n := AddressLength(d);
    if 0 < n < |d| {
      DomainByteIsPlain(d[n]);
    }
  }

  lemma BareIsCleaned(d: string)
    requires AllDomainBytes(d) && d != "" && IsAlnum(d[0])
    ensures CleanHost(d) == Lower(TrimSuffix(d, ".")) != "" && TrimSpace(d) == d
  {
    DomainByteIsPlain(d[0]);
    DomainByteIsPlain(d[|d| - 1]);
    TrimNothing(d);
    var h := Lower(TrimSuffix(d, "."));
    forall i | 0 <= i < |h| ensures h[i] !in "/*^|$ " {
      DomainByteIsPlain(d[i]);
    }
  }

  // One line in two places.

  /** A bare domain depends on whether the syntax was marked before it, a header on being among the
      first five lines, and no other line on anything. */
  predicate SameContext(line: string, abp: bool, lineNo: nat, abp': bool, lineNo': nat) {
    && (IsBareDomain(line) ==> abp == abp')
    && (IsHeader(line) ==> (lineNo <= 5 <==> lineNo' <= 5))
  }

  /** Exactly so: a line is read the same way in two places if and only if what it depends on is the same. */
  lemma ReadingIsUnchanged(line: string, abp: bool, lineNo: nat, abp': bool, lineNo': nat)
    ensures ReadLine(line, abp, lineNo) == ReadLine(line, abp', lineNo') <==> SameContext(line, abp, lineNo, abp', lineNo')
  {
    hide HostsName, CleanHost, ReadABPLine;
    if IsBareDomain(line) {
      BareIsFilterOnceMarked(line, lineNo);
      BareIsFilterOnceMarked(line, lineNo');
      BareIsNoHeader(line);
    } else if IsHeader(line) {
      hide IsBareDomain;
      LateHeaderIsNoMark(line, abp, if lineNo <= 5 then lineNo' else lineNo);
      LateHeaderIsNoMark(line, abp', if lineNo <= 5 then lineNo' else lineNo);
      HeaderDependsOnPlace(line, abp, lineNo, abp', lineNo');
    }
  }

  lemma BareIsNoHeader(line: string)
    requires IsBareDomain(line)
    ensures !IsHeader(line)
  {
    BareIsDomainBytes(line);
  }

  lemma LateHeaderIsNoMark(line: string, abp: bool, lineNo: nat)
    requires IsHeader(line)
    ensures ReadLine(line, abp, lineNo) == Mark <==> lineNo <= 5
  {
    hide HostsName, CleanHost, IsBareDomain;
    assert line[0] == '[';
    assert !IsComment(line) && !IsHostsComment(line);
  }

  lemma HeaderDependsOnPlace(line: string, abp: bool, lineNo: nat, abp': bool, lineNo': nat)
    requires IsHeader(line) && !IsBareDomain(line)
    ensures ReadLine(line, abp, lineNo) == ReadLine(line, abp', lineNo') <==> (lineNo <= 5 <==> lineNo' <= 5)
  {
    LateHeaderIsNoMark(line, abp, lineNo);
    LateHeaderIsNoMark(line, abp', lineNo');
    hide HostsName, CleanHost, IsBareDomain, ReadABPLine;
  }

  // Lines moved.

  /** `f` tells where each line of `lines` went in `lines'`: a permutation, an insertion, or both. */
  ghost predicate Moves(lines: seq<string>, lines': seq<string>, f: int -> int) {
    forall i :: 0 <= i < |lines| ==> 0 <= f(i) < |lines'| && TrimSpace(lines'[f(i)]) == TrimSpace(lines[i])
  }

  lemma ReadAtUnchanged(lines: seq<string>, i: nat, lines': seq<string>, j: nat)
    requires i < |lines| && j < |lines'| && TrimSpace(lines'[j]) == TrimSpace(lines[i])
    ensures ReadAt(lines', j) == ReadAt(lines, i)
       <==> SameContext(TrimSpace(lines[i]), Marked(lines, i), i + 1, Marked(lines', j), j + 1)
  {
    hide Marked, SameContext, ReadLine, TrimSpace;
    ReadingIsUnchanged(TrimSpace(lines[i]), Marked(lines, i), i + 1, Marked(lines', j), j + 1);
  }

  /** However lines are moved or added, every old line is read as before if and only if each bare
      domain stays on its side of the first mark and each header on its side of line five. */
  lemma MovingKeepsReadings(lines: seq<string>, lines': seq<string>, f: int -> int)
    requires Moves(lines, lines', f)
    ensures (forall i :: 0 <= i < |lines| ==> ReadAt(lines', f(i)) == ReadAt(lines, i))
       <==> (forall i :: 0 <= i < |lines| ==>
               SameContext(TrimSpace(lines[i]), Marked(lines, i), i + 1, Marked(lines', f(i)), f(i) + 1))
  {
    forall i | 0 <= i < |lines|
      ensures ReadAt(lines', f(i)) == ReadAt(lines, i)
         <==> SameContext(TrimSpace(lines[i]), Marked(lines, i), i + 1, Marked(lines', f(i)), f(i) + 1)
    {
      ReadAtUnchanged(lines, i, lines', f(i));
    }
  }

  // One line added.

  function Inserted(lines: seq<string>, k: nat, x: string): seq<string>
    requires k <= |lines|
  {
    lines[..k] + [x] + lines[k..]
  }

  function Shift(k: nat, i: int): int {
    if i < k then i else i + 1
  }

  /** Line `i` is a bare domain, the new line a mark, and the first one above it. */
  ghost predicate IsMarkedBy(lines: seq<string>, k: nat, x: string, i: int) {
    k <= i < |lines| && IsBareDomain(TrimSpace(lines[i])) && !Marked(lines, i) && SetsMark(TrimSpace(x), k + 1)
  }

  /** The new line is the first mark above some bare domain. */
  ghost predicate MarksBareDomain(lines: seq<string>, k: nat, x: string) {
    exists i :: IsMarkedBy(lines, k, x, i)
  }

  /** The new line pushes a header over line five. */
  predicate PushesHeader(lines: seq<string>, k: nat) {
    k <= 4 < |lines| && IsHeader(TrimSpace(lines[4]))
  }

  /** Adding one line leaves every other line's reading alone if and only if it neither pushes a header
      over line five nor is the first mark above a bare domain. */
  lemma AddingOneLine(lines: seq<string>, k: nat, x: string)
    requires k <= |lines|
    ensures (forall i :: 0 <= i < |lines| ==> ReadAt(Inserted(lines, k, x), Shift(k, i)) == ReadAt(lines, i))
       <==> !PushesHeader(lines, k) && !MarksBareDomain(lines, k, x)
  {
    hide ReadAt, IsMarkedBy, Inserted, PushesHeader;
    InsertedAt(lines, k, x);
    if PushesHeader(lines, k) {
      PushedLine(lines, k, x);
    } else {
      forall i | 0 <= i < |lines|
        ensures ReadAt(Inserted(lines, k, x), Shift(k, i)) == ReadAt(lines, i) <==> !IsMarkedBy(lines, k, x, i)
      {
        ReadAfterInsertion(lines, k, x, i);
      }
      assert forall i :: IsMarkedBy(lines, k, x, i) ==> 0 <= i < |lines| by {
        MarkedIsPlace(lines, k, x);
      }
    }
  }

  lemma MarkedIsPlace(lines: seq<string>, k: nat, x: string)
    ensures forall i :: IsMarkedBy(lines, k, x, i) ==> 0 <= i < |lines|
  {
  }

  lemma PushedLine(lines: seq<string>, k: nat, x: string)
    requires PushesHeader(lines, k)
    ensures 4 < |lines| && 5 < |Inserted(lines, k, x)| && ReadAt(Inserted(lines, k, x), Shift(k, 4)) != ReadAt(lines, 4)
  {
    var all := Inserted(lines, k, x);
    InsertedAt(lines, k, x);
    assert all[Shift(k, 4)] == lines[4];
    hide ReadAt, SameContext, Inserted, TrimSpace, IsHeader, Marked;
    ReadAtUnchanged(lines, 4, all, Shift(k, 4));
    PushedHeader(lines, k, Marked(lines, 4), Marked(all, Shift(k, 4)));
  }

  lemma ReadAfterInsertion(lines: seq<string>, k: nat, x: string, i: nat)
    requires k <= |lines| && i < |lines| && !PushesHeader(lines, k)
    ensures Shift(k, i) < |Inserted(lines, k, x)|
    ensures ReadAt(Inserted(lines, k, x), Shift(k, i)) == ReadAt(lines, i) <==> !IsMarkedBy(lines, k, x, i)
  {
    InsertedAt(lines, k, x);
    hide ReadAt, SameContext, IsMarkedBy, Inserted, TrimSpace, Marked, PushesHeader;
    ReadAtUnchanged(lines, i, Inserted(lines, k, x), Shift(k, i));
    ContextAfterInsertion(lines, k, x, i);
  }

  lemma PushedHeader(lines: seq<string>, k: nat, abp: bool, abp': bool)
    requires PushesHeader(lines, k)
    ensures !SameContext(TrimSpace(lines[4]), abp, 4 + 1, abp', Shift(k, 4) + 1)
  {
    hide IsHeader, TrimSpace;
  }

  lemma ContextAfterInsertion(lines: seq<string>, k: nat, x: string, i: nat)
    requires k <= |lines| && i < |lines| && !PushesHeader(lines, k)
    ensures SameContext(TrimSpace(lines[i]), Marked(lines, i), i + 1, Marked(Inserted(lines, k, x), Shift(k, i)), Shift(k, i) + 1)
       <==> !IsMarkedBy(lines, k, x, i)
  {
    hide IsHeader, IsBareDomain, SetsMark, TrimSpace, Inserted;
    MarkedAfterInsertion(lines, k, x, i);
    hide Marked;
  }

  lemma MarkedAfterInsertion(lines: seq<string>, k: nat, x: string, i: nat)
    requires k <= |lines| && i < |lines| && !PushesHeader(lines, k)
    ensures Marked(Inserted(lines, k, x), Shift(k, i)) <==> Marked(lines, i) || (k <= i && SetsMark(TrimSpace(x), k + 1))
  {
    hide SetsMark, IsHeader, Inserted, TrimSpace;
    InsertedAt(lines, k, x);
    if Marked(lines, i) {
      MarkSurvives(lines, k, x, i);
    }
    if Marked(Inserted(lines, k, x), Shift(k, i)) {
      MarkWasThere(lines, k, x, i);
    }
    if k <= i && SetsMark(TrimSpace(x), k + 1) {
      assert Inserted(lines, k, x)[k] == x;
    }
  }

  lemma InsertedAt(lines: seq<string>, k: nat, x: string)
    requires k <= |lines|
    ensures var all := Inserted(lines, k, x);
            |all| == |lines| + 1 && all[k] == x && forall j :: 0 <= j < |lines| ==> all[Shift(k, j)] == lines[j]
  {
  }

  lemma MarkSurvives(lines: seq<string>, k: nat, x: string, i: nat)
    requires k <= |lines| && i < |lines| && !PushesHeader(lines, k) && Marked(lines, i)
    ensures Marked(Inserted(lines, k, x), Shift(k, i))
  {
    InsertedAt(lines, k, x);
    hide SetsMark, IsHeader, IsBareDomain, Inserted, TrimSpace;
    var j :| 0 <= j < i && SetsMark(TrimSpace(lines[j]), j + 1);
    if k <= j {
      MarkDownOne(TrimSpace(lines[j]), j + 1);
    }
    assert Inserted(lines, k, x)[Shift(k, j)] == lines[j];
  }

  lemma MarkWasThere(lines: seq<string>, k: nat, x: string, i: nat)
    requires k <= |lines| && i < |lines| && Marked(Inserted(lines, k, x), Shift(k, i))
    ensures Marked(lines, i) || (k <= i && SetsMark(TrimSpace(x), k + 1))
  {
    InsertedAt(lines, k, x);
    hide SetsMark, Inserted, TrimSpace;
    var all := Inserted(lines, k, x);
    var j :| 0 <= j < Shift(k, i) && j < |all| && SetsMark(TrimSpace(all[j]), j + 1);
    if j < k {
      assert all[Shift(k, j)] == lines[j];
    } else if j > k {
      assert all[Shift(k, j - 1)] == lines[j - 1];
      MarkUpOne(TrimSpace(lines[j - 1]), j);
    }
  }

  lemma MarkDownOne(line: string, lineNo: nat)
    requires SetsMark(line, lineNo) && !(lineNo == 5 && IsHeader(line))
    ensures SetsMark(line, lineNo + 1)
  {
  }

  lemma MarkUpOne(line: string, lineNo: nat)
    requires SetsMark(line, lineNo + 1)
    ensures SetsMark(line, lineNo)
  {
  }
}
