/** The ICAP envelope (section 4.4.1 of RFC 3507): parts laid end to end, and a header that says
    where each begins. */
module Encapsulated {
  import opened Wrappers
  import opened Text
  import opened Wire
  import opened Chunked

  /** The parts the RFC names; any other name is kept as it was written. */
  datatype PartName = ReqHdr | ResHdr | ReqBody | ResBody | OptBody | NullBody | OtherPart(text: string)

  function PartNamed(text: string): PartName {
    if text == "req-hdr" then ReqHdr
    else if text == "res-hdr" then ResHdr
    else if text == "req-body" then ReqBody
    else if text == "res-body" then ResBody
    else if text == "opt-body" then OptBody
    else if text == "null-body" then NullBody
    else OtherPart(text)
  }

  function TextOf(name: PartName): string {
    match name
    case ReqHdr => "req-hdr"
    case ResHdr => "res-hdr"
    case ReqBody => "req-body"
    case ResBody => "res-body"
    case OptBody => "opt-body"
    case NullBody => "null-body"
    case OtherPart(text) => text
  }

  datatype Entry = Entry(name: PartName, offset: nat) {
    /** The four names of bodies; what has any other name is a head. */
    predicate IsBody() {
      name in {ReqBody, ResBody, OptBody, NullBody}
    }
  }

  // Reading and writing the header's value.

  function ReadEntry(part: string): Option<Entry> {
    var (name, value) := Cut(part, '=');
    if '=' !in part then None
    else
      var offset := Atoi(TrimSpace(value));
      if offset.None? || offset.value < 0 then None
      else Some(Entry(PartNamed(Lower(TrimSpace(name))), offset.value))
  }

  /** The entries in the order they are listed; blank ones are skipped, one bad one spoils all. */
  function ListedEntries(parts: seq<string>): Result<seq<Entry>, WireError> {
    if parts == [] then Ok([])
    else
      match ListedEntries(parts[..|parts| - 1])
      case Err(e) => Err(e)
      case Ok(before) =>
        var part := TrimSpace(parts[|parts| - 1]);
        if part == "" then Ok(before)
        else match ReadEntry(part)
          case None => Err(Malformed)
          case Some(e) => Ok(before + [e])
  }

  ghost predicate Sorted(es: seq<Entry>) {
    forall i, j :: 0 <= i < j < |es| ==> es[i].offset <= es[j].offset
  }

  /** The entries at one offset, in order. */
  function AtOffset(es: seq<Entry>, offset: nat): seq<Entry> {
    if es == [] then []
    else if es[0].offset == offset then [es[0]] + AtOffset(es[1..], offset)
    else AtOffset(es[1..], offset)
  }

  /** `s` is `es` sorted by offset, entries at the same offset keeping their order. */
  ghost predicate IsStableSort(es: seq<Entry>, s: seq<Entry>) {
    Sorted(s) && multiset(s) == multiset(es) && forall k :: AtOffset(s, k) == AtOffset(es, k)
  }

  function InsertEntry(e: Entry, s: seq<Entry>): seq<Entry> {
    if s == [] || e.offset <= s[0].offset then [e] + s else [s[0]] + InsertEntry(e, s[1..])
  }

  function SortByOffset(es: seq<Entry>): seq<Entry> {
    if es == [] then [] else InsertEntry(es[0], SortByOffset(es[1..]))
  }

  lemma {:induction false} InsertSorts(e: Entry, s: seq<Entry>, lo: nat)
    requires Sorted(s) && lo <= e.offset && forall i :: 0 <= i < |s| ==> lo <= s[i].offset
    ensures Sorted(InsertEntry(e, s)) && forall i :: 0 <= i < |InsertEntry(e, s)| ==> lo <= InsertEntry(e, s)[i].offset
  {
    if s != [] && e.offset > s[0].offset {
      InsertSorts(e, s[1..], s[0].offset);
    }
  }

  lemma {:induction false} InsertKeepsElements(e: Entry, s: seq<Entry>)
    ensures multiset(InsertEntry(e, s)) == multiset{e} + multiset(s)
  {
    if s != [] && e.offset > s[0].offset {
      InsertKeepsElements(e, s[1..]);
      assert s == [s[0]] + s[1..];
    }
  }

  lemma AtOffsetCons(e: Entry, s: seq<Entry>, k: nat)
    ensures AtOffset([e] + s, k) == if e.offset == k then [e] + AtOffset(s, k) else AtOffset(s, k)
  {
  }

  lemma {:induction false} InsertGoesFirst(e: Entry, s: seq<Entry>, k: nat)
    ensures AtOffset(InsertEntry(e, s), k) == if e.offset == k then [e] + AtOffset(s, k) else AtOffset(s, k)
  {
    if s != [] && e.offset > s[0].offset {
      InsertGoesFirst(e, s[1..], k);
      AtOffsetCons(s[0], InsertEntry(e, s[1..]), k);
    } else {
      AtOffsetCons(e, s, k);
    }
  }

  lemma {:induction false} SortIsStable(es: seq<Entry>)
    ensures IsStableSort(es, SortByOffset(es))
  {
    if es != [] {
      SortIsStable(es[1..]);
      var s := SortByOffset(es[1..]);
      InsertSorts(es[0], s, 0);
      InsertKeepsElements(es[0], s);
      assert es == [es[0]] + es[1..];
      forall k: nat
        ensures AtOffset(InsertEntry(es[0], s), k) == AtOffset(es, k)
      {
        InsertGoesFirst(es[0], s, k);
      }
    }
  }

  /** Parse a header value: its entries, in the order in which the parts arrive. */
  method ParseEncapsulated(value: string) returns (res: Result<seq<Entry>, WireError>)
    ensures match ListedEntries(Split(value, ','))
            case Err(e) => res == Err(e)
            case Ok(es) => res.Ok? && res.value == SortByOffset(es) && IsStableSort(es, res.value)
  {
    hide ReadEntry, TrimSpace, Split;
    var parts := Split(value, ',');
    var entries: seq<Entry> := [];
    for i := 0 to |parts|
      invariant ListedEntries(parts[..i]) == Ok(entries)
      invariant forall j :: 0 <= j < i ==> ListedEntries(parts[..j]).Ok?
    {
      assert parts[..i + 1][..i] == parts[..i];
      var part := TrimSpace(parts[i]);
      if part == "" {
        continue;
      }
      var entry := ReadEntry(part);
      if entry.None? {
        OneBadSpoilsAll(parts, i + 1);
        return Err(Malformed);
      }
      entries := entries + [entry.value];
    }
    assert parts[..|parts|] == parts;
    SortIsStable(entries);
    return Ok(SortByOffset(entries));
  }

  lemma {:induction false} OneBadSpoilsAll(parts: seq<string>, n: nat)
    requires n <= |parts| && ListedEntries(parts[..n]).Err?
    ensures ListedEntries(parts) == ListedEntries(parts[..n])
    decreases |parts|
  {
    if n < |parts| {
      assert parts[..|parts| - 1][..n] == parts[..n];
      OneBadSpoilsAll(parts[..|parts| - 1], n);
    } else {
      assert parts[..n] == parts;
    }
  }

  function FormatEntry(e: Entry): string {
    TextOf(e.name) + "=" + DecimalOf(e.offset)
  }

  function Formatted(es: seq<Entry>): seq<string> {
    seq(|es|, i requires 0 <= i < |es| => FormatEntry(es[i]))
  }

  method FormatEncapsulated(entries: seq<Entry>) returns (value: string)
    ensures value == Join(Formatted(entries), ", ")
  {
    var parts: seq<string> := [];
    for i := 0 to |entries|
      invariant parts == Formatted(entries[..i])
    {
      assert entries[..i + 1][..i] == entries[..i];
      parts := parts + [FormatEntry(entries[i])];
    }
    assert entries[..|entries|] == entries;
    value := Join(parts, ", ");
  }

  /** An entry for a part the RFC names, at an offset that fits 64 bits. */
  predicate Writable(e: Entry) {
    !e.name.OtherPart? && e.offset <= MAX_INT
  }

  predicate IsNameByte(c: char) {
    'a' <= c <= 'z' || c == '-'
  }

  lemma NameByteIsPlain(c: char)
    requires IsNameByte(c)
    ensures c !in WHITE_SPACE && c != ',' && c != '=' && LowerChar(c) == c
  {
  }

  lemma NameIsPlain(name: PartName)
    requires !name.OtherPart?
    ensures var text := TextOf(name);
            && text != "" && ',' !in text && '=' !in text && text[0] !in WHITE_SPACE
            && TrimSpace(text) == text && Lower(text) == text && PartNamed(text) == name
  {
    var text := TextOf(name);
    assert forall i :: 0 <= i < |text| ==> IsNameByte(text[i]);
    forall i | 0 <= i < |text|
      ensures text[i] !in WHITE_SPACE && text[i] != ',' && text[i] != '=' && LowerChar(text[i]) == text[i]
    {
      NameByteIsPlain(text[i]);
    }
    TrimNothing(text);
  }

  lemma DigitsArePlain(digits: string)
    requires digits != "" && AllDigits(digits)
    ensures ',' !in digits && TrimSpace(digits) == digits && digits[|digits| - 1] !in WHITE_SPACE
  {
  }

  lemma EntryRoundTrip(e: Entry)
    requires Writable(e)
    ensures ReadEntry(FormatEntry(e)) == Some(e)
    ensures ',' !in FormatEntry(e) && FormatEntry(e) != ""
    ensures FormatEntry(e)[0] !in WHITE_SPACE && FormatEntry(e)[|FormatEntry(e)| - 1] !in WHITE_SPACE
  {
    var digits := DecimalOf(e.offset);
    DecimalRoundTrip(e.offset);
    AtoiDecimal(e.offset);
    DigitsArePlain(digits);
    NameIsPlain(e.name);
    hide DecimalOf, Atoi, TrimSpace, WHITE_SPACE, DecimalValue, Cut, IsDigit, Lower, TextOf, PartNamed;
    assert FormatEntry(e) == TextOf(e.name) + ['='] + digits;
    CutAt(TextOf(e.name), '=', digits);
    assert '=' in FormatEntry(e);
  }

  predicate AllWritable(es: seq<Entry>) {
    forall i :: 0 <= i < |es| ==> Writable(es[i])
  }

  lemma TrimLeadingSpace(s: string)
    requires s != "" && s[0] !in WHITE_SPACE && s[|s| - 1] !in WHITE_SPACE
    ensures TrimSpace(" " + s) == s && TrimSpace(s) == s
  {
  }

  function Spaced(texts: seq<string>): seq<string> {
    seq(|texts|, i requires 0 <= i < |texts| => " " + texts[i])
  }

  lemma JoinTwo(head: string, more: seq<string>)
    ensures Join([head], ", ") == head
    ensures more != [] ==> Join([head] + more, ", ") == head + ", " + Join(more, ", ")
  {
    assert ([head] + more)[1..] == more;
  }

  lemma MoveSpace(first: string, head: string, rest: string)
    ensures first + ", " + head == first + [','] + (" " + head)
    ensures (" " + head) + ", " + rest == " " + (head + ", " + rest)
  {
  }

  lemma JoinMore(first: string, more: seq<string>)
    requires more != []
    ensures Join([first] + more, ", ") == first + [','] + Join([" " + more[0]] + more[1..], ", ")
  {
    JoinTwo(first, more);
    JoinTwo(more[0], more[1..]);
    JoinTwo(" " + more[0], more[1..]);
    MoveSpace(first, Join(more, ", "), "");
    MoveSpace(first, more[0], Join(more[1..], ", "));
    hide Join;
    assert more == [more[0]] + more[1..];
    if more[1..] == [] {
      assert [more[0]] + more[1..] == [more[0]] && [" " + more[0]] + more[1..] == [" " + more[0]];
    }
  }

  /** Splitting a written list at its commas gives its pieces back, each but the first behind a space. */
  lemma {:induction false} SplitJoined(first: string, more: seq<string>)
    requires ',' !in first && forall i :: 0 <= i < |more| ==> ',' !in more[i]
    ensures Split(Join([first] + more, ", "), ',') == [first] + Spaced(more)
    decreases |more|
  {
    hide Split;
    if more == [] {
      SplitNothing(first, ',');
    } else {
      var next := " " + more[0];
      JoinMore(first, more);
      hide Join;
      SplitFirst(first, ',', Join([next] + more[1..], ", "));
      SplitJoined(next, more[1..]);
      assert Spaced(more) == [next] + Spaced(more[1..]);
    }
  }

  lemma {:induction false} ListSpaced(first: Entry, es: seq<Entry>)
    requires Writable(first) && AllWritable(es)
    ensures ListedEntries([FormatEntry(first)] + Spaced(Formatted(es))) == Ok([first] + es)
  {
    hide FormatEntry, ReadEntry, TrimSpace, Writable;
    var parts := [FormatEntry(first)] + Spaced(Formatted(es));
    if es == [] {
      EntryRoundTrip(first);
      TrimLeadingSpace(FormatEntry(first));
      assert parts == [FormatEntry(first)] && parts[..0] == [] && [first] + es == [] + [first];
    } else {
      var n := |es| - 1;
      assert parts[..|parts| - 1] == [FormatEntry(first)] + Spaced(Formatted(es[..n]));
      ListSpaced(first, es[..n]);
      EntryRoundTrip(es[n]);
      TrimLeadingSpace(FormatEntry(es[n]));
      assert parts[|parts| - 1] == " " + FormatEntry(es[n]);
      assert [first] + es == [first] + es[..n] + [es[n]];
    }
  }

  lemma {:induction false} SortedStaysPut(es: seq<Entry>)
    requires Sorted(es)
    ensures SortByOffset(es) == es
  {
    if es != [] {
      SortedStaysPut(es[1..]);
    }
  }

  lemma NoCommas(es: seq<Entry>)
    requires AllWritable(es)
    ensures forall i :: 0 <= i < |es| ==> ',' !in FormatEntry(es[i])
  {
    hide FormatEntry, Writable;
    forall i | 0 <= i < |es| ensures ',' !in FormatEntry(es[i]) {
      EntryRoundTrip(es[i]);
    }
  }

  /** A written header value reads back as the same entries. */
  lemma HeaderRoundTrip(es: seq<Entry>)
    requires es != [] && AllWritable(es)
    ensures ListedEntries(Split(Join(Formatted(es), ", "), ',')) == Ok(es)
  {
    hide FormatEntry, Writable, Join, Split, Spaced, ListedEntries;
    NoCommas(es);
    assert Formatted(es) == [FormatEntry(es[0])] + Formatted(es[1..]);
    SplitJoined(FormatEntry(es[0]), Formatted(es[1..]));
    ListSpaced(es[0], es[1..]);
    assert [es[0]] + es[1..] == es;
  }

  // Walking the parts.

  /** Whether an HTTP parser accepts these bytes as a head of this kind. */
  type HeadParser = (PartName, string) -> bool

  /** The heads found, whether a body follows, and how many bytes the heads took. */
  datatype Heads = Heads(request: Option<string>, response: Option<string>, hasBody: bool, used: nat)

  /** One head part: kept when it is short enough and an HTTP parser accepts it. */
  function OneHead(name: PartName, length: int, so: Heads, w: string, maxHeaderBytes: int, parses: HeadParser)
    : (r: Result<Heads, WireError>)
    ensures r.Ok? ==> 0 <= length <= |w| && r.value.used == so.used + length
  {
    if length < 0 || length > maxHeaderBytes then Err(Malformed)
    else if length > |w| then Err(Closed)
    else if name !in {ReqHdr, ResHdr} || !parses(name, w[..length]) then Err(Malformed)
    else if name == ReqHdr then Ok(so.(request := Some(w[..length]), used := so.used + length))
    else Ok(so.(response := Some(w[..length]), used := so.used + length))
  }

  /** What the envelope's entries say about the bytes `w`: each head part ends where the next part begins. */
  function HeadsOf(es: seq<Entry>, so: Heads, w: string, maxHeaderBytes: int, parses: HeadParser)
    : (r: Result<Heads, WireError>)
    ensures r.Ok? ==> so.used <= r.value.used <= so.used + |w|
    decreases |es|
  {
    if es == [] then Ok(so)
    else if es[0].IsBody() then Ok(so.(hasBody := es[0].name != NullBody))
    else if |es| == 1 then Err(Malformed)
    else
      var length := es[1].offset - es[0].offset;
      match OneHead(es[0].name, length, so, w, maxHeaderBytes, parses)
      case Err(e) => Err(e)
      case Ok(next) => HeadsOf(es[1..], next, w[length..], maxHeaderBytes, parses)
  }

  const NO_HEADS := Heads(None, None, false, 0)

  method ReadHead(br: Reader, name: PartName, length: int, so: Heads, maxHeaderBytes: int, parses: (PartName,
                  string) -> bool)
    returns (res: Result<Heads, WireError>)
    requires br.Valid()
    modifies br
    ensures br.Valid()
    ensures res == OneHead(name, length, so, old(br.Rest()), maxHeaderBytes, parses)
    ensures res.Ok? ==> br.Rest() == old(br.Rest())[length..]
  {
    if length < 0 || length > maxHeaderBytes {
      return Err(Malformed);
    }
    var buf := br.ReadFull(length);
    if buf.Err? {
      return Err(Closed);
    }
    match name {
      case ReqHdr =>
        if !parses(name, buf.value) {
          return Err(Malformed);
        }
        res := Ok(so.(request := Some(buf.value), used := so.used + length));
      case ResHdr =>
        if !parses(name, buf.value) {
          return Err(Malformed);
        }
        res := Ok(so.(response := Some(buf.value), used := so.used + length));
      case _ => res := Err(Malformed);
    }
  }

  datatype PartStep = NextPart(heads: Heads) | Ended(res: Result<Heads, WireError>)

  /** One turn of the walk: a body ends it, a head is read, anything else is an error. */
  method ReadPart(br: Reader, entries: seq<Entry>, i: nat, heads: Heads, maxHeaderBytes: int, parses: HeadParser)
    returns (step: PartStep)
    requires br.Valid() && i < |entries|
    modifies br
    ensures br.Valid()
    ensures step.Ended? ==>
      && step.res == HeadsOf(entries[i..], heads, old(br.Rest()), maxHeaderBytes, parses)
      && (step.res.Ok? ==> step.res.value.used == heads.used && br.Rest() == old(br.Rest()))
    ensures step.NextPart? ==>
      && heads.used <= step.heads.used <= heads.used + |old(br.Rest())|
      && br.Rest() == old(br.Rest())[step.heads.used - heads.used..]
      && HeadsOf(entries[i..], heads, old(br.Rest()), maxHeaderBytes, parses)
         == HeadsOf(entries[i + 1..], step.heads, br.Rest(), maxHeaderBytes, parses)
  {
    OneStep(entries, i, heads, br.Rest(), maxHeaderBytes, parses);
    hide HeadsOf, OneHead, Entry.IsBody;
    var e := entries[i];
    if e.IsBody() {
      return Ended(Ok(heads.(hasBody := e.name != NullBody)));
    }
    if i + 1 >= |entries| {
      return Ended(Err(Malformed));
    }
    var next := ReadHead(br, e.name, entries[i + 1].offset - e.offset, heads, maxHeaderBytes, parses);
    return if next.Err? then Ended(Err(next.error)) else NextPart(next.value);
  }

  method ReadEncapsulatedHeads(br: Reader, entries: seq<Entry>, maxHeaderBytes: int, parses: HeadParser)
    returns (res: Result<Heads, WireError>)
    requires br.Valid()
    modifies br
    ensures br.Valid()
    ensures res == HeadsOf(entries, NO_HEADS, old(br.Rest()), maxHeaderBytes, parses)
    ensures res.Ok? ==> br.Rest() == old(br.Rest())[res.value.used..]
  {
    ghost var w := br.Rest();
    var heads := NO_HEADS;
    assert entries[0..] == entries;
    hide HeadsOf;
    for i := 0 to |entries|
      invariant br.Valid() && heads.used <= |w| && br.Rest() == w[heads.used..]
      invariant HeadsOf(entries[i..], heads, br.Rest(), maxHeaderBytes, parses)
             == HeadsOf(entries, NO_HEADS, w, maxHeaderBytes, parses)
    {
      var step := ReadPart(br, entries, i, heads, maxHeaderBytes, parses);
      if step.Ended? {
        return step.res;
      }
      DropTwice(w, heads.used, step.heads.used - heads.used);
      heads := step.heads;
    }
    assert entries[|entries|..] == [];
    NothingLeft(heads, br.Rest(), maxHeaderBytes, parses);
    return Ok(heads);
  }

  lemma DropTwice(w: string, m: nat, n: nat)
    requires m + n <= |w|
    ensures w[m..][n..] == w[m + n..]
  {
  }

  lemma NothingLeft(so: Heads, w: string, maxHeaderBytes: int, parses: HeadParser)
    ensures HeadsOf([], so, w, maxHeaderBytes, parses) == Ok(so)
  {
  }

  lemma OneStep(es: seq<Entry>, i: nat, so: Heads, w: string, maxHeaderBytes: int, parses: HeadParser)
    requires i < |es|
    ensures HeadsOf(es[i..], so, w, maxHeaderBytes, parses)
         == if es[i].IsBody() then Ok(so.(hasBody := es[i].name != NullBody))
            else if i + 1 == |es| then Err(Malformed)
            else
              var next := OneHead(es[i].name, es[i + 1].offset - es[i].offset, so, w, maxHeaderBytes, parses);
              if next.Err? then Err(next.error)
              else HeadsOf(es[i + 1..], next.value, w[es[i + 1].offset - es[i].offset..], maxHeaderBytes, parses)
  {
  }

  /** Whatever order the client listed them in, sorted entries leave no negative gap, and the head
      bytes consumed add up to the distance from the first part to the body. */
  lemma {:induction false} GapsTelescope(es: seq<Entry>, so: Heads, w: string, maxHeaderBytes: int, parses: HeadParser)
    returns (k: nat)
    requires es != [] && HeadsOf(es, so, w, maxHeaderBytes, parses).Ok?
    ensures k < |es| && es[k].IsBody() && forall i :: 0 <= i < k ==> !es[i].IsBody() && es[i].offset <= es[i + 1].offset
    ensures HeadsOf(es, so, w, maxHeaderBytes, parses).value.used - so.used == es[k].offset - es[0].offset
    ensures HeadsOf(es, so, w, maxHeaderBytes, parses).value.hasBody == (es[k].name != NullBody)
    decreases |es|
  {
    if es[0].IsBody() {
      k := 0;
    } else {
      var length := es[1].offset - es[0].offset;
      var next := OneHead(es[0].name, length, so, w, maxHeaderBytes, parses).value;
      var j := GapsTelescope(es[1..], next, w[length..], maxHeaderBytes, parses);
      k := j + 1;
    }
  }

  // Writing an envelope.

  /** What a response carries: an HTTP head (as opaque bytes) or none, and a body or none. */
  datatype Message = RequestHead(head: string, body: string, hasBody: bool)
                   | ResponseHead(head: string, body: string, hasBody: bool)
                   | NoHead

  function EntriesFor(m: Message): seq<Entry> {
    match m
    case RequestHead(head, _, hasBody) => [Entry(ReqHdr, 0), Entry(if hasBody then ReqBody else NullBody, |head|)]
    case ResponseHead(head, _, hasBody) => [Entry(ResHdr, 0), Entry(if hasBody then ResBody else NullBody, |head|)]
    case NoHead => [Entry(NullBody, 0)]
  }

  function SectionFor(m: Message): string {
    if m.NoHead? then "" else m.head + (if m.hasBody then EncodeBody(m.body) else "")
  }

  function HeadOf(m: Message): Heads
    requires !m.NoHead?
  {
    if m.RequestHead? then Heads(Some(m.head), None, m.hasBody, |m.head|) else Heads(None, Some(m.head), m.hasBody, |m.head|)
  }

  /** The entry list and the head bytes, built part by part. */
  method LayOut(m: Message) returns (encap: seq<Entry>, parts: string)
    ensures encap == EntriesFor(m) && parts == if m.NoHead? then "" else m.head
  {
    encap, parts := [], "";
    match m {
      case RequestHead(head, _, hasBody) =>
        encap := encap + [Entry(ReqHdr, 0)];
        parts := parts + head;
        encap := encap + [Entry(if hasBody then ReqBody else NullBody, |parts|)];
      case ResponseHead(head, _, hasBody) =>
        encap := encap + [Entry(ResHdr, 0)];
        parts := parts + head;
        encap := encap + [Entry(if hasBody then ResBody else NullBody, |parts|)];
      case NoHead =>
        encap := encap + [Entry(NullBody, 0)];
    }
  }

  function ReasonPhrase(code: nat): string {
    match code
    case 100 => "Continue"
    case 200 => "OK"
    case 204 => "No Content"
    case 400 => "Bad Request"
    case 404 => "ICAP Service Not Found"
    case 405 => "Method Not Allowed For Service"
    case 408 => "Request Timeout"
    case 413 => "Request Entity Too Large"
    case 500 => "Server Error"
    case 501 => "Not Implemented"
    case 503 => "Service Overloaded"
    case _ => "Unknown"
  }

  function HeaderName(key: string): string {
    if key == "Istag" then "ISTag" else if key == "Options-Ttl" then "Options-TTL" else key
  }

  /** A response's own head: status, tag and other headers, in whatever order they come. */
  datatype Envelope = Envelope(status: nat, istag: string, headers: seq<(string, string)>)

  function StatusLine(status: nat): string {
    "ICAP/1.0 " + DecimalOf(status) + " " + ReasonPhrase(status)
  }

  function HeaderLines(headers: seq<(string, string)>): seq<string> {
    seq(|headers|, i requires 0 <= i < |headers| => HeaderName(headers[i].0) + ": " + headers[i].1)
  }

  /** The lines of the head; the section's index is always the last of them. */
  function HeadLines(env: Envelope, m: Message): seq<string> {
    [StatusLine(env.status)] + (if env.istag == "" then [] else ["ISTag: " + env.istag])
    + HeaderLines(env.headers) + ["Encapsulated: " + Join(Formatted(EntriesFor(m)), ", ")]
  }

  /** Lines with their ends, and the blank line after them. */
  function LineBytes(lines: seq<string>): string {
    if lines == [] then "" else LineBytes(lines[..|lines| - 1]) + lines[|lines| - 1] + "\r\n"
  }

  lemma OneMoreWritten(lines: seq<string>, line: string)
    ensures LineBytes(lines + [line]) == LineBytes(lines) + line + "\r\n"
  {
    assert (lines + [line])[..|lines|] == lines;
  }

  /** The head's bytes, line by line. */
  method WriteHead(env: Envelope, encap: seq<Entry>, ghost m: Message) returns (head: string)
    requires encap == EntriesFor(m)
    ensures head == LineBytes(HeadLines(env, m)) + "\r\n"
  {
    hide StatusLine, HeaderName, LineBytes, EntriesFor, Join, Formatted;
    ghost var lines := [StatusLine(env.status)];
    OneLine(StatusLine(env.status));
    head := StatusLine(env.status) + "\r\n";
    if env.istag != "" {
      OneMoreWritten(lines, "ISTag: " + env.istag);
      head := head + ("ISTag: " + env.istag) + "\r\n";
      lines := lines + ["ISTag: " + env.istag];
    }
    ghost var first := lines;
    assert first + HeaderLines(env.headers[..0]) == first;
    for i := 0 to |env.headers|
      invariant head == LineBytes(first + HeaderLines(env.headers[..i]))
    {
      var line := HeaderName(env.headers[i].0) + ": " + env.headers[i].1;
      OneMoreWritten(first + HeaderLines(env.headers[..i]), line);
      assert first + HeaderLines(env.headers[..i + 1]) == first + HeaderLines(env.headers[..i]) + [line];
      head := head + line + "\r\n";
    }
    assert env.headers[..|env.headers|] == env.headers;
    var value := FormatEncapsulated(encap);
    OneMoreWritten(first + HeaderLines(env.headers), "Encapsulated: " + value);
    assert first + HeaderLines(env.headers) + ["Encapsulated: " + value] == HeadLines(env, m);
    head := head + ("Encapsulated: " + value) + "\r\n" + "\r\n";
  }

  lemma OneLine(line: string)
    ensures LineBytes([line]) == line + "\r\n"
  {
    assert [line][..0] == [] && LineBytes([]) == "";
  }

  /** A response: its head, whose last line indexes the section, and the section. */
  method WriteResponse(w: Writer, env: Envelope, m: Message)
    modifies w
    ensures w.out == old(w.out) + LineBytes(HeadLines(env, m)) + "\r\n" + SectionFor(m)
  {
    hide EncodeBody, EntriesFor, HeadLines, LineBytes;
    var encap, parts := LayOut(m);
    var head := WriteHead(env, encap, m);
    w.WriteString(head);
    ghost var before := w.out;
    w.WriteString(parts);
    if m.NoHead? || !m.hasBody {
      assert SectionFor(m) == parts;
      return;
    }
    WriteChunkedBody(w, m.body);
    assert w.out == before + (parts + EncodeBody(m.body));
  }

  lemma EntriesAreWritable(m: Message)
    requires !m.NoHead? ==> |m.head| <= MAX_INT
    ensures AllWritable(EntriesFor(m)) && Sorted(EntriesFor(m))
  {
  }

  /** The emitted header value lists the emitted parts, already in order. */
  lemma EnvelopeHeaderRoundTrip(m: Message)
    requires !m.NoHead? ==> |m.head| <= MAX_INT
    ensures ListedEntries(Split(Join(Formatted(EntriesFor(m)), ", "), ',')) == Ok(EntriesFor(m))
    ensures SortByOffset(EntriesFor(m)) == EntriesFor(m)
  {
    EntriesAreWritable(m);
    HeaderRoundTrip(EntriesFor(m));
    SortedStaysPut(EntriesFor(m));
  }

  lemma SectionSplits(m: Message, after: string)
    requires !m.NoHead?
    ensures var w := SectionFor(m) + after;
            && |w| - |after| == |SectionFor(m)| == |m.head| + (if m.hasBody then |EncodeBody(m.body)| else 0)
            && w[..|m.head|] == m.head && w[|m.head|..] == (if m.hasBody then EncodeBody(m.body) + after else after)
  {
    hide EncodeBody;
  }

  /** Envelope round trip: reading an emitted section gives back exactly its head, provided the
      reader accepts heads of that length, says whether a body follows, and leaves the cursor at
      the body, which decodes to exactly the body written and stops where the section ends; a body
      of 2^31 bytes or more does not decode. Without a head nothing is sent and nothing is read. */
  lemma EnvelopeRoundTrip(m: Message, after: string, maxHeaderBytes: int, parses: HeadParser)
    requires !m.NoHead? ==> parses(EntriesFor(m)[0].name, m.head)
    ensures HeadsOf(EntriesFor(m), NO_HEADS, SectionFor(m) + after, maxHeaderBytes, parses)
         == if m.NoHead? then Ok(NO_HEADS)
            else if |m.head| > maxHeaderBytes then Err(Malformed)
            else Ok(HeadOf(m))
    ensures if m.NoHead? then SectionFor(m) == ""
            else
              && |m.head| <= |SectionFor(m)|
              && var rest := (SectionFor(m) + after)[|m.head|..];
                 if !m.hasBody then rest == after
                 else if |m.body| < MAX_CHUNK then BodyOf(rest) == Ok(WireBody(m.body, false, |SectionFor(m)| - |m.head|))
                 else BodyOf(rest).Err?
  {
    hide EncodeBody, BodyOf, HeadsOf, EntriesFor, SectionFor;
    if m.NoHead? {
      NothingSent(SectionFor(m) + after, maxHeaderBytes, parses);
    } else {
      SectionSplits(m, after);
      WriteReadRoundTrip(m.body, after);
      HeadThenBody(m, SectionFor(m) + after, maxHeaderBytes, parses);
    }
  }

  lemma NothingSent(w: string, maxHeaderBytes: int, parses: HeadParser)
    ensures SectionFor(NoHead) == "" && HeadsOf(EntriesFor(NoHead), NO_HEADS, w, maxHeaderBytes, parses) == Ok(NO_HEADS)
  {
  }

  lemma HeadThenBody(m: Message, w: string, maxHeaderBytes: int, parses: HeadParser)
    requires !m.NoHead? && |m.head| <= |w| && w[..|m.head|] == m.head && parses(EntriesFor(m)[0].name, m.head)
    ensures HeadsOf(EntriesFor(m), NO_HEADS, w, maxHeaderBytes, parses)
         == if |m.head| > maxHeaderBytes then Err(Malformed)
            else Ok(HeadOf(m))
  {
  }
}
