/** SOCKS5 UDP datagrams (section 7 of RFC 1928): RSV(2) FRAG(1) ATYP ADDR PORT DATA. */
module UdpPacket {
  import opened Wrappers
  import opened Bytes

  const ATYP_IPV4: Byte := 0x01
  const ATYP_DOMAIN: Byte := 0x03
  const ATYP_IPV6: Byte := 0x04

  /** Rendering an address as text is the standard library's; here a host is its bytes. */
  datatype Host = IPv4(address: seq<Byte>) | IPv6(address: seq<Byte>) | Domain(address: seq<Byte>)

  datatype PacketError = ShortPacket | NonzeroReserved | Fragmented | UnsupportedType

  datatype Datagram = Datagram(rawAddr: seq<Byte>, host: Host, port: Uint16, payload: seq<Byte>)

  function Decode(pkt: seq<Byte>): Result<Datagram, PacketError> {
    if |pkt| < 5 then Err(ShortPacket)
    else if pkt[0] != 0 || pkt[1] != 0 then Err(NonzeroReserved)
    else if pkt[2] != 0 then Err(Fragmented)
    else if pkt[3] !in {ATYP_IPV4, ATYP_IPV6, ATYP_DOMAIN} then Err(UnsupportedType)
    else
      var atyp := pkt[3];
      var addrLen := if atyp == ATYP_IPV4 then 1 + 4 + 2 else if atyp == ATYP_IPV6 then 1 + 16 + 2 else 1 + 1 + pkt[4] as int + 2;
      if |pkt| < 3 + addrLen then Err(ShortPacket)
      else
        var rawAddr := pkt[3..3 + addrLen];
        var payload := pkt[3 + addrLen..];
        var port := ReadUint16(rawAddr[addrLen - 2..]);
        var host := if atyp == ATYP_IPV4 then IPv4(rawAddr[1..5])
                    else if atyp == ATYP_IPV6 then IPv6(rawAddr[1..17])
                    else Domain(rawAddr[2..2 + rawAddr[1]]);
        Ok(Datagram(rawAddr, host, port, payload))
  }

  /** A reply echoes the request's address header, so it appears to come from that address. */
  function Encode(rawAddr: seq<Byte>, payload: seq<Byte>): seq<Byte> {
    [0, 0, 0] + rawAddr + payload
  }

  predicate ValidHost(h: Host) {
    match h
    case IPv4(a) => |a| == 4
    case IPv6(a) => |a| == 16
    case Domain(a) => |a| < 256
  }

  /** The address header the RFC prescribes. */
  function AddressHeader(h: Host, port: Uint16): seq<Byte>
    requires ValidHost(h)
  {
    (match h
     case IPv4(a) => [ATYP_IPV4] + a
     case IPv6(a) => [ATYP_IPV6] + a
     case Domain(a) => [ATYP_DOMAIN, |a|] + a)
    + WriteUint16(port)
  }

  lemma HeaderFromParts(raw: seq<Byte>, h: Host)
    requires ValidHost(h)
    requires match h
             case IPv4(a) => |raw| == 7 && raw[0] == ATYP_IPV4 && raw[1..5] == a
             case IPv6(a) => |raw| == 19 && raw[0] == ATYP_IPV6 && raw[1..17] == a
             case Domain(a) => |raw| == 4 + |a| && raw[0] == ATYP_DOMAIN && raw[1] == |a| && raw[2..2 + |a|] == a
    ensures raw == AddressHeader(h, ReadUint16(raw[|raw| - 2..]))
  {
  }

  lemma HostFits(pkt: seq<Byte>)
    requires Decode(pkt).Ok?
    ensures var d := Decode(pkt).value; ValidHost(d.host) && d.rawAddr == AddressHeader(d.host, d.port)
  {
    var d := Decode(pkt).value;
    hide ReadUint16;
    assert d.port == ReadUint16(d.rawAddr[|d.rawAddr| - 2..]);
    HeaderFromParts(d.rawAddr, d.host);
  }

  lemma Parts(pkt: seq<Byte>)
    requires Decode(pkt).Ok?
    ensures var d := Decode(pkt).value;
            var n := |d.rawAddr|;
            && 3 + n <= |pkt| && pkt[0] == 0 && pkt[1] == 0 && pkt[2] == 0
            && d.rawAddr == pkt[3..3 + n] && d.payload == pkt[3 + n..]
  {
  }

  lemma Rejoin(pkt: seq<Byte>, n: nat)
    requires 3 + n <= |pkt| && pkt[0] == 0 && pkt[1] == 0 && pkt[2] == 0
    ensures Encode(pkt[3..3 + n], pkt[3 + n..]) == pkt
  {
  }

  /** Every accepted packet is the encoding of what it decoded to. */
  lemma DecodeThenEncode(pkt: seq<Byte>)
    requires Decode(pkt).Ok?
    ensures var d := Decode(pkt).value;
            && ValidHost(d.host)
            && d.rawAddr == AddressHeader(d.host, d.port)
            && Encode(d.rawAddr, d.payload) == pkt
  {
    HostFits(pkt);
    Parts(pkt);
    hide AddressHeader, ValidHost, Decode;
    Rejoin(pkt, |Decode(pkt).value.rawAddr|);
  }

  /** Every well-formed address header is accepted, with any payload, and decodes to just that. */
  lemma EncodeThenDecode(h: Host, port: Uint16, payload: seq<Byte>)
    requires ValidHost(h)
    ensures Decode(Encode(AddressHeader(h, port), payload)) == Ok(Datagram(AddressHeader(h, port), h, port, payload))
  {
    var raw := AddressHeader(h, port);
    var pkt := Encode(raw, payload);
    var n := |raw|;
    assert pkt[3] == raw[0] && pkt[4] == raw[1];
    assert pkt[3..3 + n] == raw && pkt[3 + n..] == payload;
    assert raw[n - 2..] == WriteUint16(port);
    Uint16RoundTrip(port, []);
    assert match h case Domain(a) => raw[2..2 + |a|] == a case IPv4(a) => raw[1..5] == a case IPv6(a) => raw[1..17] == a;
  }

  /** The accepted packets are exactly the encodings of well-formed headers. */
  lemma AcceptedExactly(pkt: seq<Byte>)
    ensures Decode(pkt).Ok? <==>
      exists h: Host, port: Uint16, payload: seq<Byte> :: ValidHost(h) && pkt == Encode(AddressHeader(h, port), payload)
  {
    if Decode(pkt).Ok? {
      DecodeThenEncode(pkt);
    }
    if h: Host, port: Uint16, payload: seq<Byte> :| ValidHost(h) && pkt == Encode(AddressHeader(h, port), payload) {
      EncodeThenDecode(h, port, payload);
    }
  }
}
