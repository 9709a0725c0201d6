/** The chunk framer of transport/http1_transport.go, against a strict decoder for the
    chunked coding of RFC 9112 section 7.1 (no extensions, no trailers). */
module ChunkedBody {

  import opened Text

  datatype Status = More | Eof | Failed

  /** What one call of the body's Read returned. */
  datatype Read = Read(data: seq<Byte>, status: Status)

  // ----- Sizes in hexadecimal -----

  function HexDigit(d: nat): Byte
    requires d < 16
  {
    if d < 10 then 48 + d else 87 + d
  }

  function Hex(n: nat): seq<Byte> {
    if n < 16 then [HexDigit(n)] else Hex(n / 16) + [HexDigit(n % 16)]
  }

  predicate IsHex(b: Byte) {
    48 <= b <= 57 || 65 <= b <= 70 || 97 <= b <= 102
  }

  function HexDigitValue(b: Byte): (d: nat)
    requires IsHex(b)
  {
    if b <= 57 then b - 48 else if b <= 70 then b - 55 else b - 87
  }

  function HexValue(s: seq<Byte>): nat
    requires forall i :: 0 <= i < |s| ==> IsHex(s[i])
  {
    if s == [] then 0 else HexValue(s[..|s| - 1]) * 16 + HexDigitValue(s[|s| - 1])
  }

  function HexRun(s: seq<Byte>): (k: nat)
    ensures k <= |s|
    ensures forall i :: 0 <= i < k ==> IsHex(s[i])
  {
    if s == [] || !IsHex(s[0]) then 0 else 1 + HexRun(s[1..])
  }

  // ----- The receiver -----

  datatype Decoded = Done(body: seq<Byte>, rest: seq<Byte>) | Incomplete | Malformed

  function Prepend(data: seq<Byte>, d: Decoded): Decoded {
    if d.Done? then Done(data + d.body, d.rest) else d
  }

  function Decode(s: seq<Byte>): Decoded
    decreases |s|
  {
    var k := HexRun(s);
    if k == |s| then Incomplete
    else if k == 0 then Malformed
    else if |s| < k + 2 then Incomplete
    else if s[k..k + 2] != CRLF then Malformed
    else
      var size, t := HexValue(s[..k]), s[k + 2..];
      if |t| < size + 2 then Incomplete
      else if t[size..size + 2] != CRLF then Malformed
      else if size == 0 then Done([], t[2..])
      else Prepend(t[..size], Decode(t[size + 2..]))
  }

  // ----- The sender -----

  const LAST_CHUNK: seq<Byte> := [48, 13, 10, 13, 10]

  function Chunk(data: seq<Byte>): seq<Byte> {
    Hex(|data|) + CRLF + data + CRLF
  }

  function Framed(got: seq<Read>): seq<Byte> {
    if got == [] then [] else
      var last := got[|got| - 1];
      Framed(got[..|got| - 1]) + if last.data == [] then [] else Chunk(last.data)
  }

  function BodyOf(got: seq<Read>): seq<Byte> {
    if got == [] then [] else BodyOf(got[..|got| - 1]) + got[|got| - 1].data
  }

  /** The reads of one transfer: only the last one ends the body. */
  predicate Transfer(got: seq<Read>) {
    && got != []
    && got[|got| - 1].status != More
    && forall i :: 0 <= i < |got| - 1 ==> got[i].status == More
  }

  /** A finished transfer decodes to exactly the bytes read, leaving what follows it
      untouched; a failed one never looks finished to the receiver, although every byte
      read before the failure was framed. */
  method WriteChunkedBody(got: seq<Read>) returns (out: seq<Byte>, ok: bool)
    requires Transfer(got)
    ensures ok == (got[|got| - 1].status == Eof)
    ensures ok ==> forall rest: seq<Byte> :: Decode(out + rest) == Done(BodyOf(got), rest)
    ensures !ok ==> Decode(out) == Incomplete && Decode(out + LAST_CHUNK) == Done(BodyOf(got), [])
  {
    out := [];
    var i := 0;
    while true
      invariant 0 <= i < |got|
      invariant out == Framed(got[..i])
      decreases |got| - i
    {
      var read := got[i];
      if |read.data| > 0 {
        out := out + Chunk(read.data);
      }
      assert got[..i + 1][..i] == got[..i];
      assert out == Framed(got[..i + 1]);
      if read.status == Eof {
        break;
      }
      if read.status == Failed {
        assert got[..i + 1] == got;
        UnfinishedIsIncomplete(got);
        return out, false;
      }
      i := i + 1;
    }
    assert got[..i + 1] == got;
    FinishedDecodes(got);
    out := out + LAST_CHUNK;
    ok := true;
  }

  // ----- Why it decodes -----

  lemma {:induction false} HexIsHex(n: nat)
    ensures |Hex(n)| > 0
    ensures forall i :: 0 <= i < |Hex(n)| ==> IsHex(Hex(n)[i])
    ensures HexValue(Hex(n)) == n
  {
    if n >= 16 {
      HexIsHex(n / 16);
      assert Hex(n)[..|Hex(n)| - 1] == Hex(n / 16);
    }
  }

  lemma {:induction false} HexRunStops(digits: seq<Byte>, tail: seq<Byte>)
    requires forall i :: 0 <= i < |digits| ==> IsHex(digits[i])
    requires tail != [] && !IsHex(tail[0])
    ensures HexRun(digits + tail) == |digits|
  {
    if digits == [] {
      assert digits + tail == tail;
    } else {
      HexRunStops(digits[1..], tail);
      assert (digits + tail)[1..] == digits[1..] + tail;
    }
  }

  /** How the pieces of a chunk sit in the input. */
  lemma Pieces(digits: seq<Byte>, data: seq<Byte>, tail: seq<Byte>, s: seq<Byte>)
    requires s == digits + CRLF + data + CRLF + tail
    ensures s == digits + (CRLF + data + CRLF + tail)
    ensures s[..|digits|] == digits && s[|digits|..|digits| + 2] == CRLF
    ensures s[|digits| + 2..] == data + (CRLF + tail)
  {}

  lemma ChunkDecodes(data: seq<Byte>, tail: seq<Byte>)
    requires data != []
    ensures Decode(Chunk(data) + tail) == Prepend(data, Decode(tail))
  {
    var digits, s := Hex(|data|), Chunk(data) + tail;
    HexIsHex(|data|);
    HexRunStops(digits, CRLF + data + CRLF + tail);
    Pieces(digits, data, tail, s);
    DataDecodes(s, digits, data, tail);
  }

  lemma DataDecodes(s: seq<Byte>, digits: seq<Byte>, data: seq<Byte>, tail: seq<Byte>)
    requires digits != [] && HexRun(s) == |digits| && |digits| + 2 <= |s|
    requires s[..|digits|] == digits && s[|digits|..|digits| + 2] == CRLF
    requires s[|digits| + 2..] == data + (CRLF + tail) && HexValue(s[..|digits|]) == |data|
    ensures Decode(s) == if data == [] then Done([], tail) else Prepend(data, Decode(tail))
  {
    var t := s[|digits| + 2..];
    assert t[..|data|] == data;
    assert t[|data|..] == CRLF + tail;
    assert t[|data|..|data| + 2] == (CRLF + tail)[..2] == CRLF;
    assert t[|data| + 2..] == (CRLF + tail)[2..] == tail;
  }

  lemma LastChunkDecodes(rest: seq<Byte>)
    ensures Decode(LAST_CHUNK + rest) == Done([], rest)
  {
    var s, zero: seq<Byte> := LAST_CHUNK + rest, [48];
    HexRunStops(zero, CRLF + CRLF + rest);
    assert s == zero + CRLF + [] + CRLF + rest;
    assert s == zero + (CRLF + CRLF + rest);
    Pieces(zero, [], rest, s);
    assert HexValue(zero) == 0;
    DataDecodes(s, zero, [], rest);
  }

  lemma PrependTwice(a: seq<Byte>, b: seq<Byte>, d: Decoded)
    ensures Prepend(a, Prepend(b, d)) == Prepend(a + b, d)
  {
    if d.Done? {
      assert a + (b + d.body) == a + b + d.body;
    }
  }

  /** One more chunk in front of a tail whose decoding is known. */
  lemma OneMoreChunk(framed: seq<Byte>, body: seq<Byte>, data: seq<Byte>, tail: seq<Byte>)
    requires data != []
    requires Decode(framed + (Chunk(data) + tail)) == Prepend(body, Decode(Chunk(data) + tail))
    ensures Decode(framed + Chunk(data) + tail) == Prepend(body + data, Decode(tail))
  {
    hide Chunk, Decode, Prepend;
    assert framed + Chunk(data) + tail == framed + (Chunk(data) + tail);
    ChunkDecodes(data, tail);
    PrependTwice(body, data, Decode(tail));
  }

  lemma {:induction false} FramedDecodes(got: seq<Read>, tail: seq<Byte>)
    ensures Decode(Framed(got) + tail) == Prepend(BodyOf(got), Decode(tail))
  {
    if got == [] {
      assert Framed(got) + tail == tail;
      assert Decode(tail).Done? ==> [] + Decode(tail).body == Decode(tail).body;
      return;
    }
    var init, data := got[..|got| - 1], got[|got| - 1].data;
    if data == [] {
      FramedDecodes(init, tail);
      assert Framed(got) == Framed(init) && BodyOf(got) == BodyOf(init);
    } else {
      FramedDecodes(init, Chunk(data) + tail);
      OneMoreChunk(Framed(init), BodyOf(init), data, tail);
    }
  }

  lemma FinishedDecodes(got: seq<Read>)
    ensures forall rest: seq<Byte> :: Decode(Framed(got) + LAST_CHUNK + rest) == Done(BodyOf(got), rest)
  {
    forall rest: seq<Byte>
      ensures Decode(Framed(got) + LAST_CHUNK + rest) == Done(BodyOf(got), rest)
    {
      FramedDecodes(got, LAST_CHUNK + rest);
      LastChunkDecodes(rest);
      assert Framed(got) + LAST_CHUNK + rest == Framed(got) + (LAST_CHUNK + rest);
      assert BodyOf(got) + [] == BodyOf(got);
    }
  }

  lemma UnfinishedIsIncomplete(got: seq<Read>)
    ensures Decode(Framed(got)) == Incomplete
    ensures Decode(Framed(got) + LAST_CHUNK) == Done(BodyOf(got), [])
  {
    FinishedDecodes(got);
    assert Framed(got) + LAST_CHUNK + [] == Framed(got) + LAST_CHUNK;
    FramedDecodes(got, []);
    assert Framed(got) + [] == Framed(got);
    assert Decode([]) == Incomplete;
  }

}
