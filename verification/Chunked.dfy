/** Chunked bodies (section 4.1 of RFC 7230) with the ICAP `ieof` extension (section 4.5 of RFC 3507). */
module Chunked {
  import opened Wrappers
  import opened Text
  import opened Wire

  const MAX_CHUNK_LINE := 1024

  const MAX_CHUNK := 0x8000_0000

  // Hexadecimal sizes.

  predicate IsHexDigit(c: char) {
    '0' <= c <= '9' || 'a' <= c <= 'f' || 'A' <= c <= 'F'
  }

  function HexDigit(c: char): (d: nat)
    requires IsHexDigit(c)
    ensures d < 16
  {
    if '0' <= c <= '9' then c as nat - '0' as nat
    else if 'a' <= c <= 'f' then c as nat - 'a' as nat + 10
    else c as nat - 'A' as nat + 10
  }

  function HexValue(s: string): nat
    requires forall i :: 0 <= i < |s| ==> IsHexDigit(s[i])
  {
    if s == "" then 0 else 16 * HexValue(s[..|s| - 1]) + HexDigit(s[|s| - 1])
  }

  /** A non-empty run of hexadecimal digits whose value fits 31 bits. */
  function ParseHex31(s: string): Option<nat> {
    if s != "" && (forall i :: 0 <= i < |s| ==> IsHexDigit(s[i])) && HexValue(s) < MAX_CHUNK then Some(HexValue(s)) else None
  }

  function HexChar(d: nat): char
    requires d < 16
  {
    "0123456789abcdef"[d]
  }

  function HexOf(n: nat): string {
    (if n < 16 then "" else HexOf(n / 16)) + [HexChar(n % 16)]
  }

  predicate AllHex(s: string) {
    forall i :: 0 <= i < |s| ==> IsHexDigit(s[i])
  }

  lemma HexDigitIsPlain(c: char)
    requires IsHexDigit(c)
    ensures c !in WHITE_SPACE && c != ';' && c != '\n' && c != '\r'
  {
  }

  lemma HexCharIsDigit(d: nat)
    requires d < 16
    ensures IsHexDigit(HexChar(d)) && HexDigit(HexChar(d)) == d
  {
  }

  lemma {:induction false} HexRoundTrip(n: nat)
    ensures HexOf(n) != "" && AllHex(HexOf(n))
    ensures HexValue(HexOf(n)) == n
  {
    var before := if n < 16 then "" else HexOf(n / 16);
    if n >= 16 {
      HexRoundTrip(n / 16);
    }
    HexCharIsDigit(n % 16);
    HexOneMore(before, HexChar(n % 16));
    NoDigits();
    hide HexChar, HexDigit, IsHexDigit, AllHex, HexValue;
  }

  lemma HexOneMore(s: string, c: char)
    requires AllHex(s) && IsHexDigit(c)
    ensures AllHex(s + [c]) && HexValue(s + [c]) == 16 * HexValue(s) + HexDigit(c)
  {
    hide IsHexDigit, HexDigit;
    assert (s + [c])[..|s|] == s;
  }

  lemma NoDigits()
    ensures AllHex("") && HexValue("") == 0
  {
  }

  // What is read.

  datatype ChunkHeader = ChunkHeader(size: nat, ext: string)

  function ParseChunkHeader(text: string): Result<ChunkHeader, WireError> {
    var (size, ext) := Cut(text, ';');
    var digits := TrimSpace(size);
    if digits == "" then Err(EmptySize)
    else if ParseHex31(digits).None? then Err(BadSize)
    else Ok(ChunkHeader(ParseHex31(digits).value, ext))
  }

  /** One of the extensions is `ieof`, in any case, with or without space around it. */
  predicate HasIEOF(ext: string) {
    exists i :: 0 <= i < |Split(ext, ';')| && IsIEOF(Split(ext, ';')[i])
  }

  predicate IsIEOF(part: string) {
    Lower(TrimSpace(part)) == "ieof"
  }

  /** A whole body as it lies on the wire: all its bytes, whether its last chunk said `ieof`, and
      how many bytes of the wire it takes. */
  datatype WireBody = WireBody(total: string, ieof: bool, used: nat)

  /** The trailer's length, up to and including its blank line. */
  function TrailerOf(w: string): (r: Result<nat, WireError>)
    ensures r.Ok? ==> r.value <= |w|
    decreases |w|
  {
    match LineOf(w, MAX_CHUNK_LINE)
    case Err(e) => Err(e)
    case Ok(line) =>
      if line.text == "" then Ok(line.used)
      else match TrailerOf(w[line.used..])
        case Err(e) => Err(e)
        case Ok(n) => Ok(line.used + n)
  }

  /** The CRLF after a chunk's data. */
  function ChunkEndOf(w: string): Result<nat, WireError> {
    match LineOf(w, 2)
    case Err(e) => Err(e)
    case Ok(line) => if line.text == "" then Ok(line.used) else Err(MissingCRLF)
  }

  /** One chunk: its data, or for the zero chunk whether it said `ieof`, and how much wire it takes. */
  datatype Piece = More(data: string, used: nat) | Last(ieof: bool, used: nat)

  /** The chunk that lies at the start of `w`. */
  function PieceOf(w: string): (r: Result<Piece, WireError>)
    ensures r.Ok? ==> 0 < r.value.used <= |w|
  {
    match LineOf(w, MAX_CHUNK_LINE)
    case Err(e) => Err(e)
    case Ok(line) =>
      match ParseChunkHeader(line.text)
      case Err(e) => Err(e)
      case Ok(header) =>
        var rest := w[line.used..];
        if header.size == 0 then
          match TrailerOf(rest)
          case Err(e) => Err(e)
          case Ok(n) => Ok(Last(HasIEOF(header.ext), line.used + n))
        else if header.size > |rest| then Err(Closed)
        else
          match ChunkEndOf(rest[header.size..])
          case Err(e) => Err(e)
          case Ok(n) => Ok(More(rest[..header.size], line.used + header.size + n))
  }

  /** The body that lies at the start of `w`. */
  function BodyOf(w: string): (r: Result<WireBody, WireError>)
    ensures r.Ok? ==> r.value.used <= |w|
    decreases |w|
  {
    match PieceOf(w)
    case Err(e) => Err(e)
    case Ok(Last(ieof, used)) => Ok(WireBody("", ieof, used))
    case Ok(More(data, used)) => Prepend(data, used, BodyOf(w[used..]))
  }

  function Prepend(data: string, used: nat, r: Result<WireBody, WireError>): Result<WireBody, WireError> {
    match r
    case Err(e) => Err(e)
    case Ok(b) => Ok(WireBody(data + b.total, b.ieof, used + b.used))
  }

  /** The first `limit` bytes, or all of them. */
  function Take(s: string, limit: nat): string {
    if |s| <= limit then s else s[..limit]
  }

  function Room(limit: int): nat {
    if limit > 0 then limit else 0
  }

  datatype Body = Body(body: string, ieof: bool, truncated: bool)

  method ReadChunkHeader(br: Reader) returns (res: Result<ChunkHeader, WireError>)
    requires br.Valid()
    modifies br
    ensures br.Valid()
    ensures match LineOf(old(br.Rest()), MAX_CHUNK_LINE)
            case Err(e) => res == Err(e)
            case Ok(line) =>
              && res == ParseChunkHeader(line.text)
              && line.used <= |old(br.Rest())| && br.Rest() == old(br.Rest())[line.used..]
  {
    var line := br.ReadLine(MAX_CHUNK_LINE);
    if line.Err? {
      return Err(line.error);
    }
    return ParseChunkHeader(line.value);
  }

  method DiscardTrailer(br: Reader) returns (res: Result<(), WireError>)
    requires br.Valid()
    modifies br
    ensures br.Valid()
    ensures match TrailerOf(old(br.Rest()))
            case Err(e) => res == Err(e)
            case Ok(n) => res.Ok? && n <= |old(br.Rest())| && br.Rest() == old(br.Rest())[n..]
  {
    hide LineOf;
    ghost var w := br.Rest();
    ghost var done := 0;
    while true
      invariant br.Valid() && done <= |w| && br.Rest() == w[done..]
      invariant TrailerOf(w) == match TrailerOf(br.Rest()) case Err(e) => Err(e) case Ok(n) => Ok(done + n)
      decreases |w| - done
    {
      ghost var line := LineOf(br.Rest(), MAX_CHUNK_LINE);
      var text := br.ReadLine(MAX_CHUNK_LINE);
      if text.Err? {
        return Err(text.error);
      }
      done := done + line.value.used;
      if text.value == "" {
        return Ok(());
      }
    }
  }

  method ExpectCRLF(br: Reader) returns (res: Result<(), WireError>)
    requires br.Valid()
    modifies br
    ensures br.Valid()
    ensures match ChunkEndOf(old(br.Rest()))
            case Err(e) => res == Err(e)
            case Ok(n) => res.Ok? && n <= |old(br.Rest())| && br.Rest() == old(br.Rest())[n..]
  {
    var line := br.ReadLine(2);
    if line.Err? {
      return Err(line.error);
    }
    return if line.value != "" then Err(MissingCRLF) else Ok(());
  }

  /** One chunk's data: what fits goes into `buf`, the rest is read and dropped. */
  method ReadChunkData(br: Reader, buf: string, size: nat, limit: int) returns (res: Result<(string, bool), WireError>)
    requires br.Valid() && |buf| <= Room(limit)
    modifies br
    ensures br.Valid()
    ensures if size > |old(br.Rest())| then res == Err(Closed)
            else
              && res == Ok((buf + Take(old(br.Rest())[..size], Room(limit) - |buf|), size > Room(limit) - |buf|))
              && br.Rest() == old(br.Rest())[size..]
  {
    ghost var w := br.Rest();
    var room := limit - |buf|;
    if room < 0 {
      room := 0;
    }
    if size <= room {
      var chunk := br.ReadFull(size);
      if chunk.Err? {
        return Err(chunk.error);
      }
      return Ok((buf + chunk.value, false));
    }
    var more := "";
    if room > 0 {
      var chunk := br.ReadFull(room);
      if chunk.Err? {
        return Err(chunk.error);
      }
      more := chunk.value;
    }
    assert br.Rest() == w[room..];
    var dropped := br.ReadFull(size - room);
    if dropped.Err? {
      return Err(dropped.error);
    }
    assert w[..size][..room] == w[..room];
    return Ok((buf + more, true));
  }

  lemma TakeAppend(total: string, data: string, limit: nat)
    ensures |Take(total, limit)| <= limit
    ensures Take(total + data, limit) == Take(total, limit) + Take(data, limit - |Take(total, limit)|)
    ensures |total + data| > limit <==> |total| > limit || |data| > limit - |Take(total, limit)|
  {
  }

  datatype Progress = Going(buf: string, truncated: bool) | Done(ieof: bool)

  /** Read one chunk, keeping what still fits. */
  method ReadChunk(br: Reader, buf: string, limit: int) returns (res: Result<Progress, WireError>)
    requires br.Valid() && |buf| <= Room(limit)
    modifies br
    ensures br.Valid()
    ensures match PieceOf(old(br.Rest()))
            case Err(e) => res == Err(e)
            case Ok(piece) =>
              && br.Rest() == old(br.Rest())[piece.used..]
              && res == Ok(match piece
                           case Last(ieof, _) => Done(ieof)
                           case More(data, _) => Going(buf + Take(data, Room(limit) - |buf|), |data| > Room(limit) - |buf|))
  {
    hide ParseChunkHeader, LineOf, TrailerOf, ChunkEndOf, HasIEOF, Take;
    var header := ReadChunkHeader(br);
    if header.Err? {
      return Err(header.error);
    }
    var size := header.value.size;
    if size == 0 {
      var trailer := DiscardTrailer(br);
      if trailer.Err? {
        return Err(trailer.error);
      }
      return Ok(Done(HasIEOF(header.value.ext)));
    }
    var data := ReadChunkData(br, buf, size, limit);
    if data.Err? {
      return Err(data.error);
    }
    var end := ExpectCRLF(br);
    if end.Err? {
      return Err(end.error);
    }
    return Ok(Going(data.value.0, data.value.1));
  }

  /** Decode a body: the first `limit` bytes of whatever was sent, whether there was more, and the
      cursor left right after the body either way. Errors do not depend on the limit. */
  method ReadChunkedBody(br: Reader, limit: int) returns (res: Result<Body, WireError>)
    requires br.Valid()
    modifies br
    ensures br.Valid()
    ensures match BodyOf(old(br.Rest()))
            case Err(e) => res == Err(e)
            case Ok(b) =>
              && res == Ok(Body(Take(b.total, Room(limit)), b.ieof, |b.total| > Room(limit)))
              && br.Rest() == old(br.Rest())[b.used..]
  {
    hide PieceOf;
    ghost var w := br.Rest();
    ghost var done, total := 0, "";
    var buf, truncated := "", false;
    assert BodyOf(w) == Prepend(total, done, BodyOf(w)) by {
      if BodyOf(w).Ok? {
        assert "" + BodyOf(w).value.total == BodyOf(w).value.total;
      }
    }
    while true
      invariant br.Valid() && done <= |w| && br.Rest() == w[done..]
      invariant BodyOf(w) == Prepend(total, done, BodyOf(br.Rest()))
      invariant buf == Take(total, Room(limit)) && truncated == (|total| > Room(limit))
      decreases |w| - done
    {
      ghost var piece := PieceOf(br.Rest());
      TakeAppend(total, "", Room(limit));
      var chunk := ReadChunk(br, buf, limit);
      if chunk.Err? {
        return Err(chunk.error);
      }
      if chunk.value.Done? {
        assert total + "" == total;
        return Ok(Body(buf, chunk.value.ieof, truncated));
      }
      buf, truncated := chunk.value.buf, truncated || chunk.value.truncated;
      TakeAppend(total, piece.value.data, Room(limit));
      PrependTwice(total, done, piece.value.data, piece.value.used, BodyOf(br.Rest()));
      total, done := total + piece.value.data, done + piece.value.used;
    }
  }

  lemma PrependTwice(a: string, m: nat, b: string, n: nat, r: Result<WireBody, WireError>)
    ensures Prepend(a, m, Prepend(b, n, r)) == Prepend(a + b, m + n, r)
  {
    if r.Ok? {
      assert a + (b + r.value.total) == (a + b) + r.value.total;
    }
  }

  // What is sent.

  /** A chunk as it is sent: its header line, its data, and how the data's line ends. */
  datatype Chunk = Chunk(header: Line, data: string, cr: bool) {
    function Bytes(): string {
      header.Bytes() + data + Line("", cr).Bytes()
    }

    /** The header is a line that gives the data's length, which is not zero. */
    predicate Valid() {
      && header.Fits(MAX_CHUNK_LINE)
      && data != "" && ParseChunkHeader(header.text).Ok? && ParseChunkHeader(header.text).value.size == |data|
    }
  }

  /** Everything after the last data chunk: the zero chunk's line, trailer lines, and a blank line. */
  datatype Tail = Tail(zero: Line, trailer: seq<Line>, cr: bool) {
    function Bytes(): string {
      zero.Bytes() + TrailerBytes(trailer, cr)
    }

    predicate Valid() {
      && zero.Fits(MAX_CHUNK_LINE)
      && ParseChunkHeader(zero.text).Ok? && ParseChunkHeader(zero.text).value.size == 0
      && forall i :: 0 <= i < |trailer| ==> trailer[i].Fits(MAX_CHUNK_LINE) && trailer[i].text != ""
    }

    function SaysIEOF(): bool
      requires Valid()
    {
      HasIEOF(ParseChunkHeader(zero.text).value.ext)
    }
  }

  function TrailerBytes(trailer: seq<Line>, cr: bool): string {
    if trailer == [] then Line("", cr).Bytes() else trailer[0].Bytes() + TrailerBytes(trailer[1..], cr)
  }

  predicate ValidChunks(chunks: seq<Chunk>) {
    forall i :: 0 <= i < |chunks| ==> chunks[i].Valid()
  }

  function ChunkBytes(chunks: seq<Chunk>): string {
    if chunks == [] then "" else chunks[0].Bytes() + ChunkBytes(chunks[1..])
  }

  /** The data of all chunks, one after the other. */
  function DataOf(chunks: seq<Chunk>): string {
    if chunks == [] then "" else chunks[0].data + DataOf(chunks[1..])
  }

  lemma {:induction false} TrailerRoundTrip(trailer: seq<Line>, cr: bool, rest: string)
    requires forall i :: 0 <= i < |trailer| ==> trailer[i].Fits(MAX_CHUNK_LINE) && trailer[i].text != ""
    ensures TrailerOf(TrailerBytes(trailer, cr) + rest) == Ok(|TrailerBytes(trailer, cr)|)
  {
    hide LineOf;
    if trailer == [] {
      LineRoundTrip(Line("", cr), rest, MAX_CHUNK_LINE);
    } else {
      TrailerRoundTrip(trailer[1..], cr, rest);
      var line, more := trailer[0], TrailerBytes(trailer[1..], cr);
      hide TrailerOf;
      TrailerLine(line, more + rest);
      assert line.Bytes() + more + rest == line.Bytes() + (more + rest);
    }
  }

  /** One trailer line more. */
  lemma TrailerLine(line: Line, more: string)
    requires line.Fits(MAX_CHUNK_LINE) && line.text != "" && TrailerOf(more).Ok?
    ensures TrailerOf(line.Bytes() + more) == Ok(|line.Bytes()| + TrailerOf(more).value)
  {
    hide LineOf;
    LineRoundTrip(line, more, MAX_CHUNK_LINE);
    assert (line.Bytes() + more)[|line.Bytes()|..] == more;
  }

  lemma ChunkRoundTrip(c: Chunk, rest: string)
    requires c.Valid()
    ensures PieceOf(c.Bytes() + rest) == Ok(More(c.data, |c.Bytes()|))
  {
    hide LineOf, ParseChunkHeader;
    var end := Line("", c.cr).Bytes();
    var w := c.Bytes() + rest;
    assert w == c.header.Bytes() + (c.data + (end + rest));
    LineRoundTrip(c.header, c.data + (end + rest), MAX_CHUNK_LINE);
    var after := w[|c.header.Bytes()|..];
    assert after == c.data + (end + rest);
    assert after[..|c.data|] == c.data && after[|c.data|..] == end + rest;
    LineRoundTrip(Line("", c.cr), rest, 2);
  }

  lemma TailRoundTrip(t: Tail, rest: string)
    requires t.Valid()
    ensures PieceOf(t.Bytes() + rest) == Ok(Last(t.SaysIEOF(), |t.Bytes()|))
  {
    hide LineOf, ParseChunkHeader;
    var trailer := TrailerBytes(t.trailer, t.cr);
    var w := t.Bytes() + rest;
    assert w == t.zero.Bytes() + (trailer + rest);
    LineRoundTrip(t.zero, trailer + rest, MAX_CHUNK_LINE);
    assert w[|t.zero.Bytes()|..] == trailer + rest;
    TrailerRoundTrip(t.trailer, t.cr, rest);
  }

  lemma Regroup(a: string, b: string, c: string, d: string)
    ensures (a + b) + c + d == a + (b + c + d)
  {
  }

  /** Decoding inverts every encoding: any chunks with any extensions, any trailer, any bytes after. */
  lemma {:induction false} BodyRoundTrip(chunks: seq<Chunk>, t: Tail, rest: string)
    requires ValidChunks(chunks) && t.Valid()
    ensures BodyOf(ChunkBytes(chunks) + t.Bytes() + rest)
         == Ok(WireBody(DataOf(chunks), t.SaysIEOF(), |ChunkBytes(chunks) + t.Bytes()|))
  {
    hide PieceOf, Chunk.Bytes, Chunk.Valid, Tail.Bytes, Tail.Valid, Tail.SaysIEOF;
    var w := ChunkBytes(chunks) + t.Bytes() + rest;
    if chunks == [] {
      assert w == t.Bytes() + rest;
      TailRoundTrip(t, rest);
    } else {
      var c := chunks[0];
      var more := ChunkBytes(chunks[1..]) + t.Bytes() + rest;
      Regroup(c.Bytes(), ChunkBytes(chunks[1..]), t.Bytes(), rest);
      ChunkRoundTrip(c, more);
      assert w[|c.Bytes()|..] == more;
      BodyRoundTrip(chunks[1..], t, rest);
    }
  }

  // Nothing else decodes.

  lemma SplitPrefix(w: string, m: nat, n: nat)
    requires m <= |w| && n <= |w| - m
    ensures w[..m + n] == w[..m] + w[m..][..n]
  {
  }

  lemma {:induction false} TrailerWasSent(w: string) returns (trailer: seq<Line>, cr: bool)
    requires TrailerOf(w).Ok?
    ensures forall i :: 0 <= i < |trailer| ==> trailer[i].Fits(MAX_CHUNK_LINE) && trailer[i].text != ""
    ensures w[..TrailerOf(w).value] == TrailerBytes(trailer, cr)
    decreases |w|
  {
    hide LineOf;
    var line := LineWasSent(w, MAX_CHUNK_LINE);
    if line.text == "" {
      trailer, cr := [], line.cr;
    } else {
      var used := |line.Bytes()|;
      var more;
      more, cr := TrailerWasSent(w[used..]);
      trailer := [line] + more;
      assert w[..TrailerOf(w).value] == w[..used] + w[used..][..TrailerOf(w[used..]).value];
      assert trailer[1..] == more;
    }
  }

  lemma ChunkWasSent(w: string) returns (c: Chunk)
    requires PieceOf(w).Ok? && PieceOf(w).value.More?
    ensures c.Valid() && c.data == PieceOf(w).value.data && w[..PieceOf(w).value.used] == c.Bytes()
  {
    hide LineOf, ParseChunkHeader;
    var header := LineWasSent(w, MAX_CHUNK_LINE);
    var used := |header.Bytes()|;
    var rest := w[used..];
    var size := ParseChunkHeader(header.text).value.size;
    var end := LineWasSent(rest[size..], 2);
    c := Chunk(header, rest[..size], end.cr);
    assert w[..PieceOf(w).value.used] == w[..used] + rest[..size] + rest[size..][..|end.Bytes()|];
  }

  lemma TailWasSent(w: string) returns (t: Tail)
    requires PieceOf(w).Ok? && PieceOf(w).value.Last?
    ensures t.Valid() && t.SaysIEOF() == PieceOf(w).value.ieof && w[..PieceOf(w).value.used] == t.Bytes()
  {
    hide LineOf, ParseChunkHeader;
    var zero := LineWasSent(w, MAX_CHUNK_LINE);
    var used := |zero.Bytes()|;
    var trailer, cr := TrailerWasSent(w[used..]);
    t := Tail(zero, trailer, cr);
    assert w[..PieceOf(w).value.used] == w[..used] + w[used..][..TrailerOf(w[used..]).value];
  }

  /** Decoding accepts nothing but encodings: what it consumed was chunks and a tail, carrying
      exactly the data it returned. */
  lemma {:induction false} BodyWasSent(w: string) returns (chunks: seq<Chunk>, t: Tail)
    requires BodyOf(w).Ok?
    ensures ValidChunks(chunks) && t.Valid()
    ensures w[..BodyOf(w).value.used] == ChunkBytes(chunks) + t.Bytes()
    ensures BodyOf(w).value.total == DataOf(chunks) && BodyOf(w).value.ieof == t.SaysIEOF()
    decreases |w|
  {
    hide PieceOf, Chunk.Bytes, Chunk.Valid, Tail.Bytes, Tail.Valid, Tail.SaysIEOF;
    var used := PieceOf(w).value.used;
    if PieceOf(w).value.Last? {
      chunks := [];
      t := TailWasSent(w);
      assert ChunkBytes(chunks) + t.Bytes() == t.Bytes();
    } else {
      var c := ChunkWasSent(w);
      var more;
      more, t := BodyWasSent(w[used..]);
      chunks := [c] + more;
      SplitPrefix(w, used, BodyOf(w[used..]).value.used);
      OneMoreChunk(c, more, t.Bytes());
      hide ValidChunks, ChunkBytes, DataOf;
    }
  }

  lemma OneMoreChunk(c: Chunk, more: seq<Chunk>, tail: string)
    ensures ChunkBytes([c] + more) + tail == c.Bytes() + (ChunkBytes(more) + tail)
    ensures DataOf([c] + more) == c.data + DataOf(more)
    ensures ValidChunks([c] + more) <==> c.Valid() && ValidChunks(more)
  {
    hide Chunk.Bytes, Chunk.Valid;
    assert ([c] + more)[1..] == more;
    assert forall i :: 0 <= i < |more| ==> ([c] + more)[i + 1] == more[i];
  }

  // Writing a body.

  /** A body as one chunk and the zero chunk. */
  function EncodeBody(body: string): string {
    (if body == "" then "" else HexOf(|body|) + "\r\n" + body + "\r\n") + "0\r\n\r\n"
  }

  class Writer {
    var out: string

    constructor ()
      ensures out == ""
    {
      out := "";
    }

    method WriteString(s: string)
      modifies this
      ensures out == old(out) + s
    {
      out := out + s;
    }
  }

  method WriteChunkedBody(w: Writer, body: string)
    modifies w
    ensures w.out == old(w.out) + EncodeBody(body)
  {
    ghost var before := w.out;
    if |body| > 0 {
      w.WriteString(HexOf(|body|) + "\r\n");
      w.WriteString(body);
      w.WriteString("\r\n");
      assert w.out == before + (HexOf(|body|) + "\r\n" + body + "\r\n");
    }
    w.WriteString("0\r\n\r\n");
  }

  const LAST_CHUNK := Tail(Line("0", true), [], true)

  lemma LastChunkIsValid()
    ensures LAST_CHUNK.Valid() && !LAST_CHUNK.SaysIEOF() && LAST_CHUNK.Bytes() == "0\r\n\r\n"
  {
    PlainHeader("0");
    assert HexValue("0") == 0 by {
      assert "0"[..0] == "" && HexValue("") == 0;
    }
    assert Split("", ';') == [""];
  }

  /** A header that is only digits is read as just that number, with no extension. */
  lemma PlainHeader(digits: string)
    requires digits != "" && AllHex(digits)
    ensures ParseChunkHeader(digits)
         == if HexValue(digits) < MAX_CHUNK then Ok(ChunkHeader(HexValue(digits), "")) else Err(BadSize)
  {
    forall i | 0 <= i < |digits| ensures digits[i] !in WHITE_SPACE && digits[i] != ';' {
      HexDigitIsPlain(digits[i]);
    }
    hide HexValue, IsHexDigit, TrimSpace, Cut, WHITE_SPACE;
    CutNothing(digits, ';');
    TrimNothing(digits);
  }

  /** Every spelling of a size is read as that size: digits of either case, leading zeros, white space
      around them, and any extension after a semicolon. */
  lemma SpelledHeader(before: string, digits: string, after: string, ext: string)
    requires IsBlank(before) && IsBlank(after) && digits != "" && AllHex(digits)
    ensures ParseChunkHeader(before + digits + after)
         == if HexValue(digits) < MAX_CHUNK then Ok(ChunkHeader(HexValue(digits), "")) else Err(BadSize)
    ensures ParseChunkHeader(before + digits + after + [';'] + ext)
         == if HexValue(digits) < MAX_CHUNK then Ok(ChunkHeader(HexValue(digits), ext)) else Err(BadSize)
  {
    SpelledSize(before, digits, after);
    hide HexValue, TrimSpace, Cut, WHITE_SPACE, IsBlank, AllHex;
    CutNothing(before + digits + after, ';');
    CutAt(before + digits + after, ';', ext);
  }

  lemma SpelledSize(before: string, digits: string, after: string)
    requires IsBlank(before) && IsBlank(after) && digits != "" && AllHex(digits)
    ensures ';' !in before + digits + after && TrimSpace(before + digits + after) == digits
  {
    HexDigitIsPlain(digits[0]);
    HexDigitIsPlain(digits[|digits| - 1]);
    TrimAround(before, digits, after);
    forall i | 0 <= i < |digits| ensures digits[i] != ';' {
      HexDigitIsPlain(digits[i]);
    }
    SemicolonIsNoSpace();
    hide WHITE_SPACE, TrimSpace;
  }

  lemma SemicolonIsNoSpace()
    ensures ';' !in WHITE_SPACE
  {
  }

  /** An extension says `ieof` in either case of its letters, with white space around it, alone or
      among others. */
  lemma SpelledIEOF(before: string, word: string, after: string, rest: string)
    requires IsBlank(before) && IsBlank(after) && Lower(word) == "ieof"
    ensures HasIEOF(before + word + after)
    ensures HasIEOF(before + word + after + [';'] + rest)
  {
    var part := before + word + after;
    SpelledWord(before, word, after);
    hide TrimSpace, WHITE_SPACE, IsBlank, Lower;
    SplitNothing(part, ';');
    SplitFirst(part, ';', rest);
    hide Split;
    assert Split(part, ';')[0] == part && Split(part + [';'] + rest, ';')[0] == part;
  }

  lemma LaterIEOF(first: string, rest: string)
    requires ';' !in first && HasIEOF(rest)
    ensures HasIEOF(first + [';'] + rest)
  {
    SplitFirst(first, ';', rest);
    hide Split, IsIEOF;
    var i :| 0 <= i < |Split(rest, ';')| && IsIEOF(Split(rest, ';')[i]);
    assert ([first] + Split(rest, ';'))[i + 1] == Split(rest, ';')[i];
  }

  lemma SpelledWord(before: string, word: string, after: string)
    requires IsBlank(before) && IsBlank(after) && Lower(word) == "ieof"
    ensures TrimSpace(before + word + after) == word && ';' !in before + word + after
  {
    assert |word| == 4 && forall i :: 0 <= i < 4 ==> LowerChar(word[i]) == "ieof"[i];
    LetterIsNoSpace(word[0]);
    LetterIsNoSpace(word[3]);
    assert forall i :: 0 <= i < 4 ==> word[i] != ';';
    TrimAround(before, word, after);
    SemicolonIsNoSpace();
    hide TrimSpace, WHITE_SPACE, Lower;
  }

  lemma LetterIsNoSpace(b: char)
    requires 'a' <= LowerChar(b) <= 'z'
    ensures b !in WHITE_SPACE
  {
  }

  /** Any spelling of zero with an extension that says `ieof` begins a tail that says so. */
  lemma SpelledTail(before: string, digits: string, after: string, ext: string, cr: bool, trailer: seq<Line>, end: bool)
    requires IsBlank(before) && IsBlank(after) && digits != "" && AllHex(digits) && HexValue(digits) == 0 && HasIEOF(ext)
    requires Line(before + digits + after + [';'] + ext, cr).Fits(MAX_CHUNK_LINE)
    requires forall i :: 0 <= i < |trailer| ==> trailer[i].Fits(MAX_CHUNK_LINE) && trailer[i].text != ""
    ensures var t := Tail(Line(before + digits + after + [';'] + ext, cr), trailer, end); t.Valid() && t.SaysIEOF()
  {
    SpelledHeader(before, digits, after, ext);
    hide ParseChunkHeader, HasIEOF, IsBlank, AllHex, Line.Fits;
  }

  /** A preview's usual end, `0; ieof`, is one. */
  lemma UsualTail()
    ensures var t := Tail(Line("0; ieof", true), [], true); t.Valid() && t.SaysIEOF()
  {
    ZeroIsZero();
    IeofIsIEOF();
    UsualLine();
    hide HasIEOF, Line.Fits, HexValue, ParseChunkHeader;
    SpelledTail("", "0", "", " ieof", true, [], true);
  }

  lemma ZeroIsZero()
    ensures AllHex("0") && HexValue("0") == 0
  {
    assert "0"[..0] == "" && HexValue("") == 0;
  }

  lemma IeofIsIEOF()
    ensures HasIEOF(" ieof")
  {
    assert Lower("ieof") == "ieof" && " " + "ieof" + "" == " ieof";
    SpelledIEOF(" ", "ieof", "", "");
  }

  lemma UsualLine()
    ensures "" + "0" + "" + [';'] + " ieof" == "0; ieof" && Line("0; ieof", true).Fits(MAX_CHUNK_LINE)
  {
  }

  lemma {:induction false} HexIsShort(n: nat, k: nat)
    requires n < Power16(k) && k > 0
    ensures |HexOf(n)| <= k
    decreases k
  {
    if n >= 16 {
      assert n / 16 < Power16(k - 1);
      HexIsShort(n / 16, k - 1);
    }
  }

  function Power16(k: nat): nat {
    if k == 0 then 1 else 16 * Power16(k - 1)
  }

  /** Writing and reading back: the reader returns exactly the body and stops right after it,
      if and only if the body is under 2^31 bytes. */
  lemma WriteReadRoundTrip(body: string, rest: string)
    ensures |body| < MAX_CHUNK ==> BodyOf(EncodeBody(body) + rest) == Ok(WireBody(body, false, |EncodeBody(body)|))
    ensures |body| >= MAX_CHUNK ==> BodyOf(EncodeBody(body) + rest).Err?
  {
    LastChunkIsValid();
    hide BodyOf, Tail.Valid, Tail.Bytes, Tail.SaysIEOF, HexOf, ParseChunkHeader;
    if body == "" {
      assert EncodeBody(body) == ChunkBytes([]) + LAST_CHUNK.Bytes();
      BodyRoundTrip([], LAST_CHUNK, rest);
    } else if |body| < MAX_CHUNK {
      var c := OneChunk(body);
      OneChunkEncoded(body, c);
      BodyRoundTrip([c], LAST_CHUNK, rest);
    } else {
      OversizedBody(body, rest);
    }
  }

  lemma OneChunkEncoded(body: string, c: Chunk)
    requires 0 < |body| && c.data == body && c.Bytes() == HexOf(|body|) + "\r\n" + body + "\r\n"
    ensures DataOf([c]) == body && EncodeBody(body) == ChunkBytes([c]) + LAST_CHUNK.Bytes()
  {
    hide HexOf, Chunk.Bytes;
    assert [c][1..] == [] && DataOf([c]) == body + "" == body;
  }

  lemma OversizedBody(body: string, rest: string)
    requires |body| >= MAX_CHUNK
    ensures BodyOf(EncodeBody(body) + rest).Err?
  {
    var digits := HexOf(|body|);
    HexRoundTrip(|body|);
    PlainHeader(digits);
    HexLineIsPlain(digits);
    EncodedAfterSize(body, rest);
    hide *;
    OversizedIsRefused(digits, body + "\r\n" + "0\r\n\r\n" + rest);
  }

  lemma EncodedAfterSize(body: string, rest: string)
    requires body != ""
    ensures EncodeBody(body) + rest == HexOf(|body|) + "\r\n" + (body + "\r\n" + "0\r\n\r\n" + rest)
  {
    hide HexOf;
    RegroupBody(HexOf(|body|), "\r\n", body, "0\r\n\r\n", rest);
  }

  lemma RegroupBody(size: string, line: string, body: string, last: string, rest: string)
    ensures size + line + body + line + last + rest == size + line + (body + line + last + rest)
  {
  }

  lemma HexLineIsPlain(digits: string)
    requires digits != "" && AllHex(digits)
    ensures NoneOf(digits, "\n") && !HasSuffix(digits, "\r")
  {
    forall i | 0 <= i < |digits| ensures digits[i] !in "\n" && digits[i] != '\r' {
      HexDigitIsPlain(digits[i]);
    }
    assert digits[|digits| - 1..][0] != '\r';
  }

  lemma SizesAreShort(n: nat)
    requires n < MAX_CHUNK
    ensures |HexOf(n)| <= 8
  {
    assert Power16(2) == 256 && Power16(4) == 65536;
    assert Power16(6) == 16777216 && Power16(8) == 4294967296;
    HexIsShort(n, 8);
  }

  lemma ChunkBytesOf(digits: string, body: string)
    ensures Chunk(Line(digits, true), body, true).Bytes() == digits + "\r\n" + body + "\r\n"
  {
  }

  lemma OneChunk(body: string) returns (c: Chunk)
    requires 0 < |body| < MAX_CHUNK
    ensures c.Valid() && c.data == body && c.Bytes() == HexOf(|body|) + "\r\n" + body + "\r\n"
  {
    var digits := HexOf(|body|);
    HexRoundTrip(|body|);
    PlainHeader(digits);
    SizesAreShort(|body|);
    HexLineIsPlain(digits);
    ChunkBytesOf(digits, body);
    hide HexOf, HexValue, ParseChunkHeader, IsHexDigit, Chunk.Bytes;
    c := Chunk(Line(digits, true), body, true);
  }

  lemma OversizedIsRefused(digits: string, rest: string)
    requires NoneOf(digits, "\n") && ParseChunkHeader(digits) == Err(BadSize)
    requires !HasSuffix(digits, "\r")
    ensures BodyOf(digits + "\r\n" + rest).Err?
  {
    OversizedLine(digits, rest);
    hide LineOf, ParseChunkHeader, TrailerOf, ChunkEndOf, NoneOf, HasSuffix, HasIEOF;
    assert PieceOf(digits + "\r\n" + rest).Err?;
    hide PieceOf;
  }

  /** The size line is read as it was written, or is too long. */
  lemma OversizedLine(digits: string, rest: string)
    requires NoneOf(digits, "\n") && !HasSuffix(digits, "\r")
    ensures var line := LineOf(digits + "\r\n" + rest, MAX_CHUNK_LINE); line.Err? || line.value.text == digits
  {
    var w := digits + "\r\n" + rest;
    if |digits| + 1 <= MAX_CHUNK_LINE {
      LineRoundTrip(Line(digits, true), rest, MAX_CHUNK_LINE);
      assert w == Line(digits, true).Bytes() + rest;
      hide LineOf, NoneOf, HasSuffix;
    } else {
      TooLong(digits, rest);
    }
  }

  lemma TooLong(digits: string, rest: string)
    requires NoneOf(digits, "\n") && |digits| + 1 > MAX_CHUNK_LINE
    ensures LineOf(digits + "\r\n" + rest, MAX_CHUNK_LINE).Err?
  {
    var w, i := digits + "\r\n" + rest, |digits| + 1;
    assert w[i] == '\n' && forall k :: 0 <= k < i ==> w[k] != '\n';
    FirstOfIs(w, '\n', i);
  }
}
