/** Reading the server name out of a TLS ClientHello (section 4.1.2 of RFC 8446, section 3 of
    RFC 6066) by hand, before any handshake, from bytes that may be cut short anywhere. */
module ClientHello {
  import opened Wrappers
  import opened Bytes

  const HANDSHAKE: Byte := 0x16
  const CLIENT_HELLO: Byte := 0x01
  const SERVER_NAME: Uint16 := 0
  const HOST_NAME: Byte := 0

  function Min(a: nat, b: nat): nat {
    if a < b then a else b
  }

  // What is read. No name is the empty sequence.

  function BigEndian(b: seq<Byte>): nat {
    if b == [] then 0 else BigEndian(b[..|b| - 1]) * 256 + b[|b| - 1] as int
  }

  /** What follows a vector whose length takes `lenBytes` bytes. */
  function AfterVector(b: seq<Byte>, lenBytes: nat): Option<seq<Byte>> {
    if |b| < lenBytes || BigEndian(b[..lenBytes]) > |b| - lenBytes then None
    else Some(b[lenBytes + BigEndian(b[..lenBytes])..])
  }

  /** The first host name in a list of names. */
  function NameIn(d: seq<Byte>): seq<Byte>
    decreases |d|
  {
    if |d| < 3 then []
    else
      var n := ReadUint16(d[1..3]);
      if n > |d| - 3 then []
      else if d[0] == HOST_NAME then d[3..3 + n]
      else NameIn(d[3 + n..])
  }

  function NameOfExtension(d: seq<Byte>): seq<Byte> {
    if |d| < 2 then []
    else NameIn(d[2..][..Min(ReadUint16(d[..2]), |d| - 2)])
  }

  /** The name in the first server_name extension. */
  function NameInExtensions(ext: seq<Byte>): seq<Byte>
    decreases |ext|
  {
    if |ext| < 4 then []
    else
      var n := ReadUint16(ext[2..4]);
      if n > |ext| - 4 then []
      else if ReadUint16(ext[..2]) == SERVER_NAME then NameOfExtension(ext[4..4 + n])
      else NameInExtensions(ext[4 + n..])
  }

  function NameInTail(body: seq<Byte>): seq<Byte> {
    if |body| < 2 then []
    else NameInExtensions(body[2..][..Min(ReadUint16(body[..2]), |body| - 2)])
  }

  /** Three vectors, then the extensions. */
  function NameInVectors(body: seq<Byte>): seq<Byte> {
    var a := AfterVector(body, 1);
    if a.None? then [] else
      var b := AfterVector(a.value, 2);
      if b.None? then [] else
        var c := AfterVector(b.value, 1);
        if c.None? then [] else NameInTail(c.value)
  }

  function NameInRecord(rec: seq<Byte>): seq<Byte> {
    if |rec| < 4 || rec[0] != CLIENT_HELLO || |rec| - 4 < 34 then []
    else NameInVectors(rec[4 + 34..])
  }

  function NameOf(b: seq<Byte>): seq<Byte> {
    if |b| < 5 || b[0] != HANDSHAKE then []
    else NameInRecord(b[5..][..Min(ReadUint16(b[3..5]), |b| - 5)])
  }

  // The code: slices advanced step by step, every index checked.

  method SkipVector(b: seq<Byte>, lenBytes: nat) returns (rest: seq<Byte>, ok: bool)
    ensures ok <==> AfterVector(b, lenBytes).Some?
    ensures ok ==> rest == AfterVector(b, lenBytes).value
  {
    if |b| < lenBytes {
      return [], false;
    }
    var n := 0;
    for i := 0 to lenBytes
      invariant n == BigEndian(b[..i])
    {
      assert b[..i + 1][..i] == b[..i];
      n := n * 256 + b[i] as int;
    }
    var after := b[lenBytes..];
    if n > |after| {
      return [], false;
    }
    return after[n..], true;
  }

  method FirstHostName(d0: seq<Byte>) returns (name: seq<Byte>)
    ensures name == NameOfExtension(d0)
  {
    if |d0| < 2 {
      return [];
    }
    var listLen: nat := ReadUint16(d0[0..2]);
    var d := d0[2..];
    if listLen > |d| {
      listLen := |d|;
    }
    d := d[..listLen];
    while |d| >= 3
      invariant NameIn(d) == NameOfExtension(d0)
      decreases |d|
    {
      var nameType, n := d[0], ReadUint16(d[1..3]);
      var rest := d[3..];
      if n > |rest| {
        return [];
      }
      if nameType == HOST_NAME {
        return rest[..n];
      }
      assert rest[n..] == d[3 + n..];
      d := rest[n..];
    }
    return [];
  }

  method SniFromClientHello(b: seq<Byte>) returns (name: seq<Byte>)
    ensures name == NameOf(b)
  {
    if |b| < 5 || b[0] != HANDSHAKE {
      return [];
    }
    var rec := b[5..];
    var n := ReadUint16(b[3..5]);
    if n < |rec| {
      rec := rec[..n];
    }
    assert rec == b[5..][..Min(n, |b| - 5)];
    if |rec| < 4 || rec[0] != CLIENT_HELLO {
      return [];
    }
    var body := rec[4..];
    if |body| < 34 {
      return [];
    }
    body := body[34..];
    assert body == rec[4 + 34..];
    var ok;
    body, ok := SkipVector(body, 1);
    if !ok {
      return [];
    }
    body, ok := SkipVector(body, 2);
    if !ok {
      return [];
    }
    body, ok := SkipVector(body, 1);
    if !ok {
      return [];
    }
    name := SniFromExtensions(body);
  }

  method SniFromExtensions(body: seq<Byte>) returns (name: seq<Byte>)
    ensures name == NameInTail(body)
  {
    if |body| < 2 {
      return [];
    }
    var extLen: nat := ReadUint16(body[0..2]);
    var rest := body[2..];
    if extLen > |rest| {
      extLen := |rest|;
    }
    var ext := rest[..extLen];
    while |ext| >= 4
      invariant NameInExtensions(ext) == NameInTail(body)
      decreases |ext|
    {
      var extType, dataLen := ReadUint16(ext[0..2]), ReadUint16(ext[2..4]);
      var data := ext[4..];
      if dataLen > |data| {
        return [];
      }
      if extType == SERVER_NAME {
        assert data[..dataLen] == ext[4..4 + dataLen];
        name := FirstHostName(data[..dataLen]);
        return;
      }
      assert data[dataLen..] == ext[4 + dataLen..];
      ext := data[dataLen..];
    }
    return [];
  }

  // Cut short, it finds the same name or none.

  /** A cut-short input answers with nothing, or with the full input's answer. */
  predicate SameOrNothing(cut: seq<Byte>, full: seq<Byte>) {
    cut == [] || cut == full
  }

  lemma CutVector(a: seq<Byte>, b: seq<Byte>, lenBytes: nat)
    requires a <= b && AfterVector(a, lenBytes).Some?
    ensures AfterVector(b, lenBytes).Some? && AfterVector(a, lenBytes).value <= AfterVector(b, lenBytes).value
  {
    assert a[..lenBytes] == b[..lenBytes];
  }

  lemma {:induction false} CutExtensions(a: seq<Byte>, b: seq<Byte>)
    requires a <= b
    ensures SameOrNothing(NameInExtensions(a), NameInExtensions(b))
    decreases |a|
  {
    hide NameOfExtension;
    if |a| >= 4 {
      assert a[..2] == b[..2] && a[2..4] == b[2..4];
      var n := ReadUint16(a[2..4]);
      if n <= |a| - 4 {
        assert a[4..4 + n] == b[4..4 + n];
        CutExtensions(a[4 + n..], b[4 + n..]);
      }
    }
  }

  lemma CutTail(a: seq<Byte>, b: seq<Byte>)
    requires a <= b
    ensures SameOrNothing(NameInTail(a), NameInTail(b))
  {
    hide NameInExtensions;
    if |a| >= 2 {
      assert a[..2] == b[..2];
      var n := ReadUint16(a[..2]);
      CutExtensions(a[2..][..Min(n, |a| - 2)], b[2..][..Min(n, |b| - 2)]);
    }
  }

  lemma CutVectors(a: seq<Byte>, b: seq<Byte>)
    requires a <= b
    ensures SameOrNothing(NameInVectors(a), NameInVectors(b))
  {
    hide NameInTail, AfterVector;
    var x := AfterVector(a, 1);
    if x.Some? {
      CutVector(a, b, 1);
      var x' := AfterVector(b, 1);
      var y := AfterVector(x.value, 2);
      if y.Some? {
        CutVector(x.value, x'.value, 2);
        var y' := AfterVector(x'.value, 2);
        var z := AfterVector(y.value, 1);
        if z.Some? {
          CutVector(y.value, y'.value, 1);
          CutTail(z.value, AfterVector(y'.value, 1).value);
        }
      }
    }
  }

  /** On every prefix of every input the answer is either nothing or the whole input's answer: a
      short read never names the wrong host. */
  lemma PrefixSafe(b: seq<Byte>, k: nat)
    requires k <= |b|
    ensures SameOrNothing(NameOf(b[..k]), NameOf(b))
  {
    hide NameInVectors;
    var a := b[..k];
    if k >= 5 {
      assert a[3..5] == b[3..5];
      var n := ReadUint16(b[3..5]);
      var r, r' := a[5..][..Min(n, |a| - 5)], b[5..][..Min(n, |b| - 5)];
      assert r <= r';
      if |r| >= 38 {
        CutVectors(r[38..], r'[38..]);
      }
    }
  }

  // A well-formed message gives its name.

  datatype Name = Name(nameType: Byte, value: seq<Byte>)

  datatype Extension = ServerName(names: seq<Name>) | Other(extType: Uint16, data: seq<Byte>)

  datatype Hello = Hello(
    recordVersion: Uint16, version: Uint16, random: seq<Byte>, sessionId: seq<Byte>, cipherSuites: seq<Byte>,
    compressions: seq<Byte>, extensions: Option<seq<Extension>>)

  function Vector8(data: seq<Byte>): seq<Byte>
    requires |data| < 0x100
  {
    [|data|] + data
  }

  function Vector16(data: seq<Byte>): seq<Byte>
    requires |data| < 0x1_0000
  {
    WriteUint16(|data|) + data
  }

  predicate ValidNames(names: seq<Name>) {
    forall i :: 0 <= i < |names| ==> |names[i].value| < 0x1_0000
  }

  function NameBytes(names: seq<Name>): seq<Byte>
    requires ValidNames(names)
  {
    if names == [] then [] else [names[0].nameType] + Vector16(names[0].value) + NameBytes(names[1..])
  }

  predicate ValidExtension(e: Extension) {
    match e
    case ServerName(names) => ValidNames(names) && |NameBytes(names)| + 2 < 0x1_0000
    case Other(t, data) => t != SERVER_NAME && |data| < 0x1_0000
  }

  predicate ValidExtensions(es: seq<Extension>) {
    forall i :: 0 <= i < |es| ==> ValidExtension(es[i])
  }

  function ExtensionBytes(e: Extension): seq<Byte>
    requires ValidExtension(e)
  {
    match e
    case ServerName(names) => WriteUint16(SERVER_NAME) + Vector16(Vector16(NameBytes(names)))
    case Other(t, data) => WriteUint16(t) + Vector16(data)
  }

  function AllExtensionBytes(es: seq<Extension>): seq<Byte>
    requires ValidExtensions(es)
  {
    if es == [] then [] else ExtensionBytes(es[0]) + AllExtensionBytes(es[1..])
  }

  predicate Valid(h: Hello) {
    && |h.random| == 32 && |h.sessionId| < 0x100 && |h.cipherSuites| < 0x1_0000 && |h.compressions| < 0x100
    && (h.extensions.Some? ==> ValidExtensions(h.extensions.value) && |AllExtensionBytes(h.extensions.value)| < 0x1_0000)
    && |MessageBytes(h)| + 4 < 0x1_0000
  }

  /** The handshake message's body. */
  function MessageBytes(h: Hello): seq<Byte>
    requires |h.sessionId| < 0x100 && |h.cipherSuites| < 0x1_0000 && |h.compressions| < 0x100
    requires h.extensions.Some? ==>
      ValidExtensions(h.extensions.value) && |AllExtensionBytes(h.extensions.value)| < 0x1_0000
  {
    WriteUint16(h.version) + h.random + VectorsBytes(h)
  }

  function VectorsBytes(h: Hello): seq<Byte>
    requires |h.sessionId| < 0x100 && |h.cipherSuites| < 0x1_0000 && |h.compressions| < 0x100
    requires h.extensions.Some? ==>
      ValidExtensions(h.extensions.value) && |AllExtensionBytes(h.extensions.value)| < 0x1_0000
  {
    Vector8(h.sessionId) + (Vector16(h.cipherSuites) + (Vector8(h.compressions) +
      if h.extensions.Some? then Vector16(AllExtensionBytes(h.extensions.value)) else []))
  }

  /** One handshake record holding one ClientHello. */
  function RecordBytes(h: Hello): seq<Byte>
    requires Valid(h)
  {
    var body := MessageBytes(h);
    [HANDSHAKE] + WriteUint16(h.recordVersion) + WriteUint16(|body| + 4) + ([CLIENT_HELLO, 0] + WriteUint16(|body|) + body)
  }

  /** The first host name listed. */
  function FirstHost(names: seq<Name>): seq<Byte> {
    if names == [] then [] else if names[0].nameType == HOST_NAME then names[0].value else FirstHost(names[1..])
  }

  /** The first host name of the first server_name extension. */
  function ServerNameOf(es: seq<Extension>): seq<Byte> {
    if es == [] then [] else if es[0].ServerName? then FirstHost(es[0].names) else ServerNameOf(es[1..])
  }

  lemma {:induction false} NamesRead(names: seq<Name>)
    requires ValidNames(names)
    ensures NameIn(NameBytes(names)) == FirstHost(names)
  {
    if names != [] {
      var n, value, more := names[0].nameType, names[0].value, NameBytes(names[1..]);
      var d := NameBytes(names);
      Uint16RoundTrip(|value|, []);
      assert d[1..3] == WriteUint16(|value|);
      assert d[3..3 + |value|] == value && d[3 + |value|..] == more;
      NamesRead(names[1..]);
    }
  }

  lemma Vector16Read(data: seq<Byte>, more: seq<Byte>)
    requires |data| < 0x1_0000
    ensures var v := Vector16(data) + more;
            ReadUint16(v[..2]) == |data| && v[2..2 + |data|] == data && v[2 + |data|..] == more && AfterVector(v, 2) == Some(more)
  {
    var v := Vector16(data) + more;
    Uint16RoundTrip(|data|, []);
    assert v[..2] == WriteUint16(|data|);
    TwoBytes(v[..2]);
  }

  lemma TwoBytes(b: seq<Byte>)
    requires |b| == 2
    ensures BigEndian(b) == ReadUint16(b)
  {
    assert b[..1][..0] == [] && BigEndian([]) == 0;
    assert BigEndian(b[..1]) == b[0] as int;
  }

  lemma Vector8Read(data: seq<Byte>, more: seq<Byte>)
    requires |data| < 0x100
    ensures AfterVector(Vector8(data) + more, 1) == Some(more)
  {
    var v := Vector8(data) + more;
    assert v[..1] == [|data|] && v[..1][..0] == [];
    assert BigEndian(v[..1]) == |data|;
  }

  lemma NameExtensionRead(names: seq<Name>)
    requires ValidNames(names) && |NameBytes(names)| + 2 < 0x1_0000
    ensures NameOfExtension(Vector16(NameBytes(names))) == FirstHost(names)
  {
    var d := Vector16(NameBytes(names));
    Vector16Read(NameBytes(names), []);
    assert d + [] == d;
    assert d[2..][..|NameBytes(names)|] == NameBytes(names);
    NamesRead(names);
  }

  lemma {:induction false} ExtensionsRead(es: seq<Extension>)
    requires ValidExtensions(es)
    ensures NameInExtensions(AllExtensionBytes(es)) == ServerNameOf(es)
  {
    if es != [] {
      assert ValidExtension(es[0]);
      ExtensionsRead(es[1..]);
      FirstExtensionRead(es[0], AllExtensionBytes(es[1..]));
      hide ExtensionBytes, ValidExtension, NameInExtensions, FirstHost;
    }
  }

  lemma FirstExtensionRead(e: Extension, more: seq<Byte>)
    requires ValidExtension(e)
    ensures NameInExtensions(ExtensionBytes(e) + more)
          == if e.ServerName? then FirstHost(e.names) else NameInExtensions(more)
  {
    hide NameOfExtension, FirstHost, NameBytes, NameInExtensions, WriteUint16;
    match e
    case ServerName(names) =>
      var data := Vector16(NameBytes(names));
      OneExtension(SERVER_NAME, data, more);
      NameExtensionRead(names);
      assert WriteUint16(SERVER_NAME) + Vector16(data) + more == WriteUint16(SERVER_NAME) + (Vector16(data) + more);
    case Other(t, data) =>
      OneExtension(t, data, more);
      assert WriteUint16(t) + Vector16(data) + more == WriteUint16(t) + (Vector16(data) + more);
  }

  lemma OneExtension(t: Uint16, data: seq<Byte>, more: seq<Byte>)
    requires |data| < 0x1_0000
    ensures NameInExtensions(WriteUint16(t) + (Vector16(data) + more))
         == if t == SERVER_NAME then NameOfExtension(data) else NameInExtensions(more)
  {
    hide NameOfExtension;
    var v := Vector16(data) + more;
    var ext := WriteUint16(t) + v;
    Vector16Read(data, more);
    Uint16RoundTrip(t, []);
    assert ext[..2] == WriteUint16(t) && ext[2..4] == v[..2];
    assert ext[4..4 + |data|] == v[2..2 + |data|] && ext[4 + |data|..] == v[2 + |data|..];
  }

  function TailBytes(h: Hello): seq<Byte>
    requires Valid(h)
  {
    if h.extensions.Some? then Vector16(AllExtensionBytes(h.extensions.value)) else []
  }

  lemma TailRead(h: Hello)
    requires Valid(h)
    ensures NameInTail(TailBytes(h)) == if h.extensions.Some? then ServerNameOf(h.extensions.value) else []
  {
    hide AfterVector, NameInExtensions, ServerNameOf, AllExtensionBytes;
    if h.extensions.Some? {
      var all := AllExtensionBytes(h.extensions.value);
      Vector16Read(all, []);
      assert TailBytes(h) + [] == TailBytes(h) && TailBytes(h)[2..][..|all|] == all;
      ExtensionsRead(h.extensions.value);
    }
  }

  lemma VectorsRead(h: Hello)
    requires Valid(h)
    ensures NameInVectors(VectorsBytes(h)) == if h.extensions.Some? then ServerNameOf(h.extensions.value) else []
  {
    TailRead(h);
    hide AfterVector, NameInTail, ServerNameOf, AllExtensionBytes, Vector8, Vector16;
    var third := Vector8(h.compressions) + TailBytes(h);
    var second := Vector16(h.cipherSuites) + third;
    Vector8Read(h.sessionId, second);
    Vector16Read(h.cipherSuites, third);
    Vector8Read(h.compressions, TailBytes(h));
  }

  lemma RecordRead(version: Uint16, rec: seq<Byte>, after: seq<Byte>)
    requires |rec| < 0x1_0000
    ensures NameOf([HANDSHAKE] + WriteUint16(version) + WriteUint16(|rec|) + rec + after) == NameInRecord(rec)
  {
    hide NameInRecord;
    var b := [HANDSHAKE] + WriteUint16(version) + WriteUint16(|rec|) + rec + after;
    Uint16RoundTrip(|rec|, []);
    assert b[3..5] == WriteUint16(|rec|);
    assert b[5..][..|rec|] == rec;
  }

  lemma MessageRead(version: Uint16, random: seq<Byte>, length: Uint16, vectors: seq<Byte>)
    requires |random| == 32
    ensures NameInRecord([CLIENT_HELLO, 0] + WriteUint16(length) + (WriteUint16(version) + random + vectors)) == NameInVectors(vectors)
  {
    hide NameInVectors;
    var rec := [CLIENT_HELLO, 0] + WriteUint16(length) + (WriteUint16(version) + random + vectors);
    assert rec[4 + 34..] == vectors;
  }

  /** Every well-formed ClientHello in a single record, whatever bytes follow it, yields the first
      host name of its first server_name extension, or nothing when it has none. */
  lemma WellFormedIsRead(h: Hello, after: seq<Byte>)
    requires Valid(h)
    ensures NameOf(RecordBytes(h) + after) == if h.extensions.Some? then ServerNameOf(h.extensions.value) else []
  {
    VectorsRead(h);
    hide NameInVectors, VectorsBytes, ServerNameOf, NameOf, NameInRecord, AllExtensionBytes, MessageBytes;
    var body := MessageBytes(h);
    BodyShape(h);
    var rec := [CLIENT_HELLO, 0] + WriteUint16(|body|) + body;
    MessageRead(h.version, h.random, |body|, VectorsBytes(h));
    RecordRead(h.recordVersion, rec, after);
    RecordShape(h, after);
  }

  lemma BodyShape(h: Hello)
    requires Valid(h)
    ensures MessageBytes(h) == WriteUint16(h.version) + h.random + VectorsBytes(h)
    ensures |h.random| == 32 && |MessageBytes(h)| + 4 < 0x1_0000
  {
    hide VectorsBytes, AllExtensionBytes;
  }

  lemma RecordShape(h: Hello, after: seq<Byte>)
    requires Valid(h)
    ensures var body := MessageBytes(h);
            var rec := [CLIENT_HELLO, 0] + WriteUint16(|body|) + body;
            && |rec| == |body| + 4 < 0x1_0000
            && RecordBytes(h) + after == [HANDSHAKE] + WriteUint16(h.recordVersion) + WriteUint16(|rec|) + rec + after
  {
    hide MessageBytes, VectorsBytes, AllExtensionBytes, WriteUint16;
  }

}
