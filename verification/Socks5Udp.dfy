/** The UDP request header of SOCKS5 (section 7 of RFC 1928) as built, parsed and stripped by
    proxy/socks5_udp.go. Addresses are byte sequences of length 4 or 16; any other length
    stands for an invalid address. */
module Socks5Udp {

  import opened Text
  import opened Wrappers

  const ATYP_IPV4: Byte := 1
  const ATYP_DOMAIN: Byte := 3
  const ATYP_IPV6: Byte := 4

  /** An address as the net package holds it; other lengths are invalid. */
  type Ip = seq<Byte>

  const UNSPECIFIED: Ip := [0, 0, 0, 0]

  const MAPPED_PREFIX: seq<Byte> := [0, 0, 0, 0, 0, 0, 0, 0, 0, 0, 255, 255]

  function To4(ip: Ip): Option<Ip> {
    if |ip| == 4 then Some(ip)
    else if |ip| == 16 && ip[..12] == MAPPED_PREFIX then Some(ip[12..])
    else None
  }

  /** IPv4 addresses mapped into IPv6 are the IPv4 addresses. */
  function Normal(ip: Ip): Ip {
    if To4(ip).Some? then To4(ip).value else ip
  }

  // ----- Building -----

  function Port(port: int): seq<Byte> {
    [port / 256 % 256, port % 256]
  }

  function Build(ip: Ip, port: int): seq<Byte> {
    [0, 0, 0]
    + (if To4(ip).Some? then [ATYP_IPV4] + To4(ip).value
       else if |ip| == 16 then [ATYP_IPV6] + ip
       else [ATYP_IPV4] + UNSPECIFIED)
    + Port(port)
  }

  // ----- Parsing -----

  datatype Parsed = Header(offset: nat, ip: Ip, port: int) | TooSmall | Fragmented | UnsupportedType

  function PortAt(packet: seq<Byte>, i: nat): nat
    requires i + 2 <= |packet|
  {
    var high: int := packet[i];
    high * 256 + packet[i + 1]
  }

  /** `lookup` resolves the name in a packet that carries one. */
  function Parse(packet: seq<Byte>, lookup: seq<Byte> -> Option<Ip>): Parsed {
    if |packet| < 10 then TooSmall
    else if packet[2] != 0 then Fragmented
    else if packet[3] == ATYP_IPV4 then Header(10, packet[4..8], PortAt(packet, 8))
    else if packet[3] == ATYP_DOMAIN then
      var n: int := packet[4];
      if |packet| < 7 + n then TooSmall
      else
        var found := lookup(packet[5..5 + n]);
        Header(7 + n, if found.Some? then found.value else UNSPECIFIED, PortAt(packet, 5 + n))
    else if packet[3] == ATYP_IPV6 then
      if |packet| < 22 then TooSmall else Header(22, packet[4..20], PortAt(packet, 20))
    else UnsupportedType
  }

  /** A built header in front of any payload parses to the same address and port, and to the
      exact start of the payload. */
  lemma ParseUndoesBuild(ip: Ip, port: int, payload: seq<Byte>, lookup: seq<Byte> -> Option<Ip>)
    requires |ip| == 4 || |ip| == 16
    ensures Parse(Build(ip, port) + payload, lookup) == Header(|Build(ip, port)|, Normal(ip), port % 65536)
    ensures (Build(ip, port) + payload)[|Build(ip, port)|..] == payload
  {
    var header := Build(ip, port);
    var packet, address := header + payload, Normal(ip);
    assert port / 256 % 256 * 256 + port % 256 == port % 65536;
    assert packet[..|header|] == header;
    assert header[4..4 + |address|] == address;
    assert packet[4..4 + |address|] == header[4..4 + |address|];
    assert header[4 + |address|..] == Port(port);
    assert packet[4 + |address|] == Port(port)[0] && packet[5 + |address|] == Port(port)[1];
  }

  /** The port survives exactly when it is a 16-bit number. */
  lemma PortSurvivesIff(ip: Ip, port: int, payload: seq<Byte>, lookup: seq<Byte> -> Option<Ip>)
    requires |ip| == 4 || |ip| == 16
    ensures Parse(Build(ip, port) + payload, lookup) == Header(|Build(ip, port)|, Normal(ip), port) <==> 0 <= port < 65536
  {
    ParseUndoesBuild(ip, port, payload, lookup);
  }

  /** An address of no valid length is replaced by the unspecified one. */
  lemma InvalidAddressIsUnspecified(ip: Ip, port: int, payload: seq<Byte>, lookup: seq<Byte> -> Option<Ip>)
    requires |ip| != 4 && |ip| != 16
    ensures Parse(Build(ip, port) + payload, lookup) == Header(10, UNSPECIFIED, port % 65536)
  {
    assert Build(ip, port) == Build(UNSPECIFIED, port);
    ParseUndoesBuild(UNSPECIFIED, port, payload, lookup);
  }

  /** Whatever payload follows the header, a receiver finds the address (mapped ones as IPv4,
      invalid ones as the unspecified one), the port's low 16 bits, and where the payload starts. */
  method BuildHeader(ip: Ip, port: int) returns (header: seq<Byte>)
    ensures forall payload: seq<Byte>, lookup: seq<Byte> -> Option<Ip> ::
              Parse(header + payload, lookup)
              == Header(|header|, if |ip| == 4 || |ip| == 16 then Normal(ip) else UNSPECIFIED, port % 65536)
    ensures header == Build(ip, port)
  {
    header := [0, 0, 0];
    var ip4 := To4(ip);
    if ip4.Some? {
      header := header + [ATYP_IPV4];
      header := header + ip4.value;
    } else if |ip| == 16 {
      header := header + [ATYP_IPV6];
      header := header + ip;
    } else {
      header := header + [ATYP_IPV4, 0, 0, 0, 0];
    }
    header := header + Port(port);
    BuiltIsParsed(ip, port, header);
  }

  lemma BuiltIsParsed(ip: Ip, port: int, header: seq<Byte>)
    requires header == Build(ip, port)
    ensures forall payload: seq<Byte>, lookup: seq<Byte> -> Option<Ip> ::
              Parse(header + payload, lookup)
              == Header(|header|, if |ip| == 4 || |ip| == 16 then Normal(ip) else UNSPECIFIED, port % 65536)
  {
    assert |ip| != 4 && |ip| != 16 ==> |Build(ip, port)| == 10;
    hide Parse, Build, Normal;
    forall payload: seq<Byte>, lookup: seq<Byte> -> Option<Ip>
      ensures Parse(header + payload, lookup)
           == Header(|header|, if |ip| == 4 || |ip| == 16 then Normal(ip) else UNSPECIFIED, port % 65536)
    {
      if |ip| == 4 || |ip| == 16 {
        ParseUndoesBuild(ip, port, payload, lookup);
      } else {
        InvalidAddressIsUnspecified(ip, port, payload, lookup);
      }
    }
  }

  /** A parsed numeric header is, up to the reserved bytes, the one built from its result;
      only mapped addresses are rebuilt shorter. */
  lemma BuildUndoesParse(packet: seq<Byte>, lookup: seq<Byte> -> Option<Ip>)
    requires Parse(packet, lookup).Header? && packet[3] != ATYP_DOMAIN && packet[0] == packet[1] == 0
    ensures var h := Parse(packet, lookup);
            Build(h.ip, h.port) == packet[..h.offset] <==> !(packet[3] == ATYP_IPV6 && To4(h.ip).Some?)
  {
    var h := Parse(packet, lookup);
    var n := h.offset;
    assert packet[..n] == packet[..3] + [packet[3]] + packet[4..n - 2] + packet[n - 2..n];
    assert packet[..3] == [0, 0, 0];
    assert h.ip == packet[4..n - 2];
    assert Port(h.port) == [packet[n - 2], packet[n - 1]] == packet[n - 2..n];
    if packet[3] == ATYP_IPV6 && To4(h.ip).Some? {
      assert |Build(h.ip, h.port)| == 10;
    }
  }

  /** The payload of every accepted packet lies within the packet. */
  lemma OffsetIsInBounds(packet: seq<Byte>, lookup: seq<Byte> -> Option<Ip>)
    ensures Parse(packet, lookup).Header? ==> 7 <= Parse(packet, lookup).offset <= |packet|
  {}

  /** A packet with a name of `n` bytes: the name lies behind its length, the port behind the
      name, and the payload starts at 7 + n; a name that is not found is the unspecified address. */
  lemma NamedPacketIsParsed(reserved: seq<Byte>, name: seq<Byte>, port: nat, payload: seq<Byte>, lookup: seq<Byte> -> Option<Ip>)
    requires |reserved| == 2 && |name| < 256 && port < 65536 && 7 + |name| + |payload| >= 10
    ensures var n: Byte := |name|; var packet := reserved + [0, ATYP_DOMAIN, n] + name + Port(port) + payload;
            && Parse(packet, lookup) == Header(7 + n, if lookup(name).Some? then lookup(name).value else UNSPECIFIED, port)
            && packet[7 + n..] == payload
  {
    var n: Byte := |name|;
    var packet := reserved + [0, ATYP_DOMAIN, n] + name + Port(port) + payload;
    assert packet[2] == 0 && packet[3] == ATYP_DOMAIN && packet[4] == n;
    assert packet[5..5 + n] == name;
    assert packet[5 + n] == Port(port)[0] && packet[6 + n] == Port(port)[1];
  }

  /** Each error has its one reason, tested in this order: fewer than 10 bytes, a fragment, an
      address type that is none of the three, an address longer than the packet. */
  lemma ParseErrorsMean(packet: seq<Byte>, lookup: seq<Byte> -> Option<Ip>)
    ensures var p := Parse(packet, lookup);
            if |packet| < 10 then p == TooSmall
            else if packet[2] != 0 then p == Fragmented
            else if packet[3] != 1 && packet[3] != 3 && packet[3] != 4 then p == UnsupportedType
            else if (packet[3] == 3 && |packet| < 7 + packet[4] as int) || (packet[3] == 4 && |packet| < 22) then p == TooSmall
            else p.Header?
  {}

  /** ReadFrom: copies as much of the payload as fits, and nothing else. */
  method ReadFrom(packet: seq<Byte>, lookup: seq<Byte> -> Option<Ip>, b: array<Byte>)
    returns (n: nat, header: Parsed)
    modifies b
    ensures header == Parse(packet, lookup)
    ensures !header.Header? ==> n == 0 && b[..] == old(b[..])
    ensures header.Header? ==>
              && header.offset + n <= |packet| && n <= b.Length
              && (n == b.Length || header.offset + n == |packet|)
              && b[..n] == packet[header.offset..header.offset + n] && b[n..] == old(b[n..])
  {
    header := Parse(packet, lookup);
    n := 0;
    if !header.Header? { return; }
    OffsetIsInBounds(packet, lookup);
    n := |packet| - header.offset;
    if n > b.Length { n := b.Length; }
    for i := 0 to n
      invariant b[..i] == packet[header.offset..header.offset + i]
      invariant forall k :: i <= k < b.Length ==> b[k] == old(b[k])
    {
      b[i] := packet[header.offset + i];
    }
  }
}
