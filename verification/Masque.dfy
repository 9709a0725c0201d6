/** QUIC variable-length integers and HTTP Datagram wrapping of proxy/masque.go
    (section 16 of RFC 9000, section 5 of RFC 9298). Integers of 64 bits are
    numbers below 2^64. */
module Masque {

  import opened Text
  import opened Wrappers

  const TWO_62: int := 0x4000_0000_0000_0000

  type Uint64 = v: int | 0 <= v < 0x1_0000_0000_0000_0000 witness 0

  // ----- Big-endian numbers -----

  function Power256(n: nat): (p: nat)
    ensures p > 0
  {
    if n == 0 then 1 else 256 * Power256(n - 1)
  }

  function BigEndian(v: nat, n: nat): (s: seq<Byte>)
    ensures |s| == n
  {
    if n == 0 then [] else BigEndian(v / 256, n - 1) + [v % 256]
  }

  function Number(s: seq<Byte>): nat {
    if s == [] then 0 else Number(s[..|s| - 1]) * 256 + s[|s| - 1]
  }

  lemma {:induction false} NumberUndoesBigEndian(v: nat, n: nat)
    requires v < Power256(n)
    ensures Number(BigEndian(v, n)) == v
  {
    if n > 0 { NumberUndoesBigEndian(v / 256, n - 1); }
  }

  lemma {:induction false} LeadingByteIsSmall(v: nat, n: nat)
    requires n > 0 && v < 64 * Power256(n - 1)
    ensures BigEndian(v, n)[0] < 64
  {
    if n > 1 { LeadingByteIsSmall(v / 256, n - 1); }
  }

  lemma {:induction false} NumberIsBounded(s: seq<Byte>, lead: nat)
    requires s != [] && s[0] < lead
    ensures Number(s) < lead * Power256(|s| - 1)
  {
    var init, last := s[..|s| - 1], s[|s| - 1];
    if |s| == 1 {
      assert Number(init) == 0;
    } else {
      NumberIsBounded(init, lead);
      assert lead * Power256(|s| - 1) == 256 * (lead * Power256(|s| - 2));
    }
  }

  // ----- Variable-length integers -----

  function Length(prefix: nat): nat
    requires prefix < 4
  {
    if prefix == 0 then 1 else if prefix == 1 then 2 else if prefix == 2 then 4 else 8
  }

  /** The value and the bytes it took; no bytes when the data is cut short. */
  function ReadVarInt(data: seq<Byte>): (nat, nat) {
    if data == [] then (0, 0) else
      var length := Length(data[0] / 64);
      if |data| < length then (0, 0) else (Number([data[0] % 64] + data[1..length]), length)
  }

  function PrefixFor(value: Uint64): (p: nat)
    ensures p < 4
  {
    if value <= 63 then 0 else if value <= 16383 then 1 else if value <= 1073741823 then 2 else 3
  }

  /** The two prefix bits are set over the leading byte, whatever it holds. */
  function VarInt(value: Uint64): (s: seq<Byte>)
    ensures |s| == Length(PrefixFor(value))
  {
    var p := PrefixFor(value);
    var bytes := BigEndian(value % TWO_62, Length(p));
    assert bytes[0] < 64 by { FitsItsLength(value); }
    [bytes[0] + 64 * p] + bytes[1..]
  }

  lemma FitsItsLength(value: Uint64)
    ensures value % TWO_62 < 64 * Power256(Length(PrefixFor(value)) - 1)
    ensures BigEndian(value % TWO_62, Length(PrefixFor(value)))[0] < 64
  {
    var n := Length(PrefixFor(value));
    Powers();
    assert PrefixFor(value) < 3 ==> value % TWO_62 == value;
    LeadingByteIsSmall(value % TWO_62, n);
  }

  lemma Powers()
    ensures Power256(0) == 1 && Power256(1) == 0x100 && Power256(3) == 0x100_0000 && Power256(7) == 0x100_0000_0000_0000
    ensures Power256(2) == 0x1_0000 && Power256(4) == 0x1_0000_0000 && Power256(8) == 0x1_0000_0000_0000_0000
  {
    assert Power256(2) == 256 * Power256(1) && Power256(3) == 256 * Power256(2) && Power256(4) == 256 * Power256(3);
    assert Power256(5) == 256 * Power256(4) && Power256(6) == 256 * Power256(5) && Power256(7) == 256 * Power256(6);
  }

  /** Reading undoes writing and leaves what follows alone; from 2^62 on the top bits are lost. */
  lemma ReadUndoesWrite(value: Uint64, tail: seq<Byte>)
    ensures ReadVarInt(VarInt(value) + tail) == (value % TWO_62, |VarInt(value)|)
  {
    var p, data := PrefixFor(value), VarInt(value) + tail;
    var n := Length(p);
    FitsItsLength(value);
    var bytes := BigEndian(value % TWO_62, n);
    assert data[0] == bytes[0] + 64 * p;
    assert data[0] / 64 == p && data[0] % 64 == bytes[0];
    assert [data[0] % 64] + data[1..n] == bytes;
    assert 64 * Power256(n - 1) <= Power256(n);
    NumberUndoesBigEndian(value % TWO_62, n);
  }

  /** The round trip is exact for precisely the values that the encoding can carry. */
  lemma RoundTripIff(value: Uint64, tail: seq<Byte>)
    ensures ReadVarInt(VarInt(value) + tail) == (value, |VarInt(value)|) <==> value < TWO_62
  {
    ReadUndoesWrite(value, tail);
  }

  /** No encoding of a value is shorter than the one written. */
  lemma ShortestForm(value: Uint64, data: seq<Byte>)
    requires ReadVarInt(data).0 == value && ReadVarInt(data).1 > 0
    ensures |VarInt(value)| <= ReadVarInt(data).1
    ensures value < TWO_62
  {
    var n := Length(data[0] / 64);
    NumberIsBounded([data[0] % 64] + data[1..n], 64);
    Powers();
  }

  /** A read fails exactly on data that ends before the announced length. */
  lemma ReadFailsIff(data: seq<Byte>)
    ensures ReadVarInt(data).1 == 0 <==> data == [] || |data| < Length(data[0] / 64)
    ensures ReadVarInt(data).1 <= |data|
  {}

  // ----- Datagrams -----

  function Wrap(payload: seq<Byte>): seq<Byte> {
    [0] + payload
  }

  function Unwrap(data: seq<Byte>): Option<seq<Byte>> {
    var (context, n) := ReadVarInt(data);
    if data == [] || n == 0 || n >= |data| || context != 0 then None else Some(data[n..])
  }

  /** Every non-empty payload survives wrapping; an empty one is taken for no datagram. */
  lemma UnwrapUndoesWrap(payload: seq<Byte>)
    ensures Unwrap(Wrap(payload)) == if payload == [] then None else Some(payload)
  {
    var data := Wrap(payload);
    assert [data[0] % 64] + data[1..1] == [0];
    assert Number([0]) == 0 by { assert [0][..0] == []; }
    assert data[1..] == payload;
  }

  /** The context identifier 0 in its four possible lengths. */
  function ZeroContext(p: nat): seq<Byte>
    requires p < 4
  {
    [64 * p] + seq(Length(p) - 1, _ => 0)
  }

  lemma {:induction false} ZeroNumber(s: seq<Byte>)
    ensures Number(s) == 0 <==> forall i :: 0 <= i < |s| ==> s[i] == 0
  {
    if s != [] {
      ZeroNumber(s[..|s| - 1]);
      assert forall i :: 0 <= i < |s| - 1 ==> s[..|s| - 1][i] == s[i];
    }
  }

  /** A datagram is accepted exactly when it is some encoding of context 0 followed by a
      non-empty payload, and then the payload is what comes back. */
  lemma UnwrapAccepts(data: seq<Byte>, payload: seq<Byte>)
    ensures Unwrap(data) == Some(payload) <==>
              payload != [] && exists p: nat :: p < 4 && data == ZeroContext(p) + payload
  {
    if data != [] {
      var p := data[0] / 64;
      var n := Length(p);
      if n <= |data| {
        var body := [data[0] % 64] + data[1..n];
        ZeroNumber(body);
        if Number(body) == 0 && n < |data| && data[n..] == payload {
          assert data[0] % 64 == body[0] == 0;
          assert data[..n] == ZeroContext(p) by {
            assert forall i :: 1 <= i < n ==> data[i] == body[i];
          }
          assert data == data[..n] + payload;
        }
      }
    }
    forall q: nat | q < 4 && payload != [] && data == ZeroContext(q) + payload
      ensures Unwrap(data) == Some(payload)
    {
      var n := Length(q);
      assert data[0] == 64 * q && data[n..] == payload;
      var body := [data[0] % 64] + data[1..n];
      ZeroNumber(body);
    }
  }

  // ----- The writers -----

  method WriteVarInt(value: Uint64) returns (buf: array<Byte>)
    ensures fresh(buf) && buf[..] == VarInt(value)
  {
    var p := PrefixFor(value);
    var n := Length(p);
    FitsItsLength(value);
    buf := new Byte[n];
    var rest := value % TWO_62;
    var i := n;
    while i > 0
      invariant 0 <= i <= n && rest >= 0
      invariant BigEndian(rest, i) + buf[i..] == BigEndian(value % TWO_62, n)
    {
      i := i - 1;
      buf[i] := rest % 256;
      assert buf[i..] == [rest % 256] + buf[i + 1..];
      rest := rest / 256;
    }
    assert buf[..] == BigEndian(value % TWO_62, n);
    buf[0] := buf[0] + 64 * p;
  }

  method WrapDatagram(data: seq<Byte>) returns (result: array<Byte>)
    ensures fresh(result) && result[..] == Wrap(data)
  {
    result := new Byte[1 + |data|];
    result[0] := 0;
    for i := 0 to |data|
      invariant result[..i + 1] == [0] + data[..i]
    {
      result[i + 1] := data[i];
      assert data[..i + 1] == data[..i] + [data[i]];
    }
    assert data[..|data|] == data;
    assert result[..] == result[..|data| + 1];
  }

  /** The sample encodings of appendix A.1 of RFC 9000. */
  lemma SamplesOfRfc9000()
    ensures ReadVarInt([0xc2, 0x19, 0x7c, 0x5e, 0xff, 0x14, 0xe8, 0x8c]) == (151_288_809_941_952_652, 8)
    ensures ReadVarInt([0x9d, 0x7f, 0x3e, 0x7d]) == (494_878_333, 4)
    ensures ReadVarInt([0x7b, 0xbd]) == (15_293, 2)
    ensures ReadVarInt([0x25]) == (37, 1) && ReadVarInt([0x40, 0x25]) == (37, 2)
  {
    EightBytes(2, 0x19, 0x7c, 0x5e, 0xff, 0x14, 0xe8, 0x8c);
    FourBytes(0x1d, 0x7f, 0x3e, 0x7d);
    TwoBytes(0x3b, 0xbd);
    TwoBytes(0, 0x25);
    OneByte(0x25);
    hide Number;
    assert [0xc2 % 64] + [0xc2, 0x19, 0x7c, 0x5e, 0xff, 0x14, 0xe8, 0x8c][1..8] == [2, 0x19, 0x7c, 0x5e, 0xff, 0x14, 0xe8, 0x8c];
    assert [0x9d % 64] + [0x9d, 0x7f, 0x3e, 0x7d][1..4] == [0x1d, 0x7f, 0x3e, 0x7d];
    assert [0x7b % 64] + [0x7b, 0xbd][1..2] == [0x3b, 0xbd];
    assert [0x25 % 64] + [0x25][1..1] == [0x25];
    assert [0x40 % 64] + [0x40, 0x25][1..2] == [0, 0x25];
  }

  lemma OneByte(a: Byte)
    ensures Number([a]) == a
  {
    assert [a][..0] == [];
  }

  lemma TwoBytes(a: Byte, b: Byte)
    ensures Number([a, b]) == a * 256 + b
  {
    OneByte(a);
    assert [a, b][..1] == [a];
  }

  lemma FourBytes(a: Byte, b: Byte, c: Byte, d: Byte)
    ensures Number([a, b, c, d]) == ((a * 256 + b) * 256 + c) * 256 + d
  {
    TwoBytes(a, b);
    assert [a, b, c][..2] == [a, b] && [a, b, c, d][..3] == [a, b, c];
    assert Number([a, b, c]) == (a * 256 + b) * 256 + c;
  }

  lemma EightBytes(a: Byte, b: Byte, c: Byte, d: Byte, e: Byte, f: Byte, g: Byte, h: Byte)
    ensures Number([a, b, c, d, e, f, g, h])
         == ((((((a * 256 + b) * 256 + c) * 256 + d) * 256 + e) * 256 + f) * 256 + g) * 256 + h
  {
    FourBytes(a, b, c, d);
    var n := Number([a, b, c, d]);
    assert [a, b, c, d, e][..4] == [a, b, c, d] && [a, b, c, d, e, f][..5] == [a, b, c, d, e];
    assert [a, b, c, d, e, f, g][..6] == [a, b, c, d, e, f] && [a, b, c, d, e, f, g, h][..7] == [a, b, c, d, e, f, g];
    assert Number([a, b, c, d, e]) == n * 256 + e && Number([a, b, c, d, e, f]) == (n * 256 + e) * 256 + f;
  }
}
