/** The hand-written base64 codec of bindings/clib/sensor.go (section 4 of RFC 4648). Shifts and
    masks are written as divisions and remainders, which they equal on bytes and on the 24-bit
    groups used here. */
module Base64 {

  import opened Sequences
  import opened Text
  import opened Wrappers

  // ----- The alphabet of RFC 4648, Table 1 -----

  function Char(v: nat): char
    requires v < 64
  {
    if v < 26 then ('A' as int + v) as char
    else if v < 52 then ('a' as int + v - 26) as char
    else if v < 62 then ('0' as int + v - 52) as char
    else if v == 62 then '+'
    else '/'
  }

  function Digit(c: char): (r: Option<nat>)
    ensures r.Some? ==> r.value < 64 && Char(r.value) == c
  {
    if 'A' <= c <= 'Z' then Some(c as int - 'A' as int)
    else if 'a' <= c <= 'z' then Some(c as int - 'a' as int + 26)
    else if '0' <= c <= '9' then Some(c as int - '0' as int + 52)
    else if c == '+' then Some(62)
    else if c == '/' then Some(63)
    else None
  }

  lemma DigitUndoesChar(v: nat)
    requires v < 64
    ensures Digit(Char(v)) == Some(v) && Char(v) != '='
  {}

  // ----- Encoding -----

  /** Three bytes as four characters; missing bytes count as zero. */
  function Block(b0: Byte, b1: Byte, b2: Byte): (r: string)
    ensures |r| == 4
  {
    [Char(b0 / 4), Char((b0 % 4) * 16 + b1 / 16), Char((b1 % 16) * 4 + b2 / 64), Char(b2 % 64)]
  }

  function Encode(data: seq<Byte>): string {
    if data == [] then ""
    else if |data| == 1 then Block(data[0], 0, 0)[..2] + "=="
    else if |data| == 2 then Block(data[0], data[1], 0)[..3] + "="
    else Block(data[0], data[1], data[2]) + Encode(data[3..])
  }

  /** Section 4 of RFC 4648: the four characters are the 24 bits of the group in base 64. */
  lemma BlockIsBase64(b0: Byte, b1: Byte, b2: Byte)
    ensures var r := Block(b0, b1, b2);
            && Digit(r[0]).Some? && Digit(r[1]).Some? && Digit(r[2]).Some? && Digit(r[3]).Some?
            && ((Digit(r[0]).value * 64 + Digit(r[1]).value) * 64 + Digit(r[2]).value) * 64 + Digit(r[3]).value
               == (b0 * 256 + b1) * 256 + b2
  {
    DigitUndoesChar(b0 / 4);
    DigitUndoesChar((b0 % 4) * 16 + b1 / 16);
    DigitUndoesChar((b1 % 16) * 4 + b2 / 64);
    DigitUndoesChar(b2 % 64);
    hide Char, Digit;
    GroupValue(b0, b1, b2);
  }

  lemma GroupValue(b0: Byte, b1: Byte, b2: Byte)
    ensures ((b0 / 4 * 64 + ((b0 % 4) * 16 + b1 / 16)) * 64 + ((b1 % 16) * 4 + b2 / 64)) * 64 + b2 % 64
         == (b0 * 256 + b1) * 256 + b2
  {}

  /** Sample encodings: those of section 10 of RFC 4648, and the two signs of the alphabet. */
  lemma SamplesOfRfc4648()
    ensures Encode([]) == "" && Encode([0x66]) == "Zg==" && Encode([0x66, 0x6f]) == "Zm8="
    ensures Encode([0x66, 0x6f, 0x6f]) == "Zm9v" && Encode([0x66, 0x6f, 0x6f, 0x62]) == "Zm9vYg=="
    ensures Encode([0xfb, 0xff, 0xbf]) == "+/+/"
  {
    assert [0x66, 0x6f, 0x6f][3..] == [] && [0xfb, 0xff, 0xbf][3..] == [];
    assert [0x66, 0x6f, 0x6f, 0x62][3..] == [0x62] && Encode([0x62]) == "Yg==";
  }

  method EncodeBase64(data: seq<Byte>) returns (result: string)
    ensures result == Encode(data)
  {
    assert data[0..] == data && EncodeFrom(data, 0) == Encode(data);
    hide Char, Encode;
    result := "";
    var i := 0;
    while i < |data|
      invariant 0 <= i
      invariant result + EncodeFrom(data, i) == Encode(data)
      decreases |data| - i
    {
      var b0 := data[i];
      var b1, b2 := 0, 0;
      if i + 1 < |data| { b1 := data[i + 1]; }
      if i + 2 < |data| { b2 := data[i + 2]; }
      ghost var rest := data[i..];
      var block := [Char(b0 / 4), Char((b0 % 4) * 16 + b1 / 16)];
      if i + 1 < |data| {
        block := block + [Char((b1 % 16) * 4 + b2 / 64)];
      } else {
        block := block + "=";
      }
      if i + 2 < |data| {
        block := block + [Char(b2 % 64)];
      } else {
        block := block + "=";
      }
      FirstBlock(rest, b0, b1, b2, block);
      assert |rest| > 3 ==> rest[3..] == data[i + 3..];
      assert result + (block + EncodeFrom(rest, 3)) == result + block + EncodeFrom(rest, 3);
      result := result + block;
      i := i + 3;
    }
    assert result + [] == result;
  }

  function EncodeFrom(data: seq<Byte>, i: nat): string {
    if i < |data| then Encode(data[i..]) else ""
  }

  /** What one round of the encoding loop writes. */
  lemma FirstBlock(rest: seq<Byte>, b0: Byte, b1: Byte, b2: Byte, block: string)
    requires rest != [] && b0 == rest[0]
    requires b1 == (if |rest| > 1 then rest[1] else 0) && b2 == if |rest| > 2 then rest[2] else 0
    requires block == [Char(b0 / 4), Char((b0 % 4) * 16 + b1 / 16),
                       if |rest| > 1 then Char((b1 % 16) * 4 + b2 / 64) else '=',
                       if |rest| > 2 then Char(b2 % 64) else '=']
    ensures Encode(rest) == block + EncodeFrom(rest, 3)
  {
    hide Char;
    assert |rest| == 3 ==> rest[3..] == [];
  }

  lemma {:induction false} EncodedLength(data: seq<Byte>)
    ensures |Encode(data)| == 4 * ((|data| + 2) / 3)
  {
    if |data| >= 3 { EncodedLength(data[3..]); }
  }

  // ----- Decoding -----

  function Trim(s: string): string {
    if s != "" && s[|s| - 1] == '=' then Trim(s[..|s| - 1]) else s
  }

  /** The values of the characters that belong to the alphabet; others are skipped. */
  function Digits(s: string): (r: seq<nat>)
    ensures |r| <= |s| && forall v :: v in r ==> v < 64
  {
    if s == "" then [] else
      var last := Digit(s[|s| - 1]);
      Digits(s[..|s| - 1]) + if last.Some? then [last.value] else []
  }

  function Value(digits: seq<nat>): nat {
    if digits == [] then 0 else Value(digits[..|digits| - 1]) * 64 + digits[|digits| - 1]
  }

  /** `count` digits of value `n`, padded to four: one byte fewer than digits. */
  function Unpack(n: nat, count: nat): seq<Byte> {
    var m := if count <= 1 then n * 262144 else if count == 2 then n * 4096 else if count == 3 then n * 64 else n;
    (if count >= 2 then [m / 65536 % 256] else []) + (if count >= 3 then [m / 256 % 256] else [])
    + (if count >= 4 then [m % 256] else [])
  }

  function Group(s: string): seq<Byte> {
    Unpack(Value(Digits(s)), |Digits(s)|)
  }

  function Groups(s: string): seq<Byte> {
    if |s| <= 4 then Group(s) else Group(s[..4]) + Groups(s[4..])
  }

  function Decode(s: string): seq<Byte> {
    Groups(Trim(s))
  }

  // ----- The round trip -----

  lemma DigitsSnoc(s: string, c: char)
    ensures Digits(s + [c]) == Digits(s) + if Digit(c).Some? then [Digit(c).value] else []
  {
    assert (s + [c])[..|s|] == s;
  }

  lemma DigitsOfTwo(v0: nat, v1: nat)
    requires v0 < 64 && v1 < 64
    ensures Digits([Char(v0), Char(v1)]) == [v0, v1]
  {
    DigitUndoesChar(v0);
    DigitUndoesChar(v1);
    hide Char, Digit;
    DigitsSnoc([], Char(v0));
    DigitsSnoc([Char(v0)], Char(v1));
    assert [] + [Char(v0)] == [Char(v0)] && [Char(v0)] + [Char(v1)] == [Char(v0), Char(v1)];
  }

  lemma DigitsOfMore(s: string, vs: seq<nat>, v: nat)
    requires v < 64 && Digits(s) == vs
    ensures Digits(s + [Char(v)]) == vs + [v]
  {
    DigitUndoesChar(v);
    DigitsSnoc(s, Char(v));
  }

  lemma ValueOfDigits(a: nat, b: nat, c: nat, d: nat)
    ensures Value([a, b]) == a * 64 + b
    ensures Value([a, b, c]) == (a * 64 + b) * 64 + c
    ensures Value([a, b, c, d]) == ((a * 64 + b) * 64 + c) * 64 + d
  {
    assert [a][..0] == [] && Value([a]) == a;
    assert [a, b][..1] == [a] && [a, b, c][..2] == [a, b] && [a, b, c, d][..3] == [a, b, c];
  }

  lemma UnpackGroup(b0: Byte, b1: Byte, b2: Byte)
    ensures Unpack(b0 * 16, 2) == [b0]
    ensures Unpack((b0 * 256 + b1) * 4, 3) == [b0, b1]
    ensures Unpack((b0 * 256 + b1) * 256 + b2, 4) == [b0, b1, b2]
  {}

  lemma OneByte(b0: Byte)
    ensures Group(Block(b0, 0, 0)[..2]) == [b0]
  {
    DigitsOfTwo(b0 / 4, (b0 % 4) * 16);
    ValueOfDigits(b0 / 4, (b0 % 4) * 16, 0, 0);
    UnpackGroup(b0, 0, 0);
    hide Char, Digits, Value, Unpack;
    assert Block(b0, 0, 0)[..2] == [Char(b0 / 4), Char((b0 % 4) * 16)];
  }

  lemma TwoBytes(b0: Byte, b1: Byte)
    ensures Group(Block(b0, b1, 0)[..3]) == [b0, b1]
  {
    var v0, v1, v2 := b0 / 4, (b0 % 4) * 16 + b1 / 16, (b1 % 16) * 4;
    DigitsOfTwo(v0, v1);
    DigitsOfMore([Char(v0), Char(v1)], [v0, v1], v2);
    ValueOfDigits(v0, v1, v2, 0);
    UnpackGroup(b0, b1, 0);
    hide Char, Digits, Value, Unpack;
    assert Block(b0, b1, 0)[..3] == [Char(v0), Char(v1)] + [Char(v2)];
    assert [v0, v1] + [v2] == [v0, v1, v2];
    assert (v0 * 64 + v1) * 64 + v2 == (b0 * 256 + b1) * 4;
  }

  lemma ThreeBytes(b0: Byte, b1: Byte, b2: Byte)
    ensures Group(Block(b0, b1, b2)) == [b0, b1, b2]
  {
    var v0, v1, v2, v3 := b0 / 4, (b0 % 4) * 16 + b1 / 16, (b1 % 16) * 4 + b2 / 64, b2 % 64;
    DigitsOfTwo(v0, v1);
    DigitsOfMore([Char(v0), Char(v1)], [v0, v1], v2);
    DigitsOfMore([Char(v0), Char(v1)] + [Char(v2)], [v0, v1] + [v2], v3);
    ValueOfDigits(v0, v1, v2, v3);
    UnpackGroup(b0, b1, b2);
    GroupValue(b0, b1, b2);
    hide Char, Digits, Value, Unpack;
    assert Block(b0, b1, b2) == [Char(v0), Char(v1)] + [Char(v2)] + [Char(v3)];
    assert [v0, v1] + [v2] + [v3] == [v0, v1, v2, v3];
  }

  lemma {:induction false} TrimIsIdle(s: string)
    requires s == "" || s[|s| - 1] != '='
    ensures Trim(s) == s && Trim(s + "=") == s && Trim(s + "==") == s
  {
    assert (s + "=")[..|s|] == s && (s + "==")[..|s| + 1] == s + "=";
  }

  /** What is left of an encoding once its padding is trimmed. */
  function Core(data: seq<Byte>): string {
    if data == [] then ""
    else if |data| == 1 then Block(data[0], 0, 0)[..2]
    else if |data| == 2 then Block(data[0], data[1], 0)[..3]
    else Block(data[0], data[1], data[2]) + Core(data[3..])
  }

  lemma {:induction false} EncodeIsPaddedCore(data: seq<Byte>)
    ensures Encode(data) == Core(data) + (if |data| % 3 == 1 then "==" else if |data| % 3 == 2 then "=" else "")
    ensures Core(data) == "" || Core(data)[|Core(data)| - 1] != '='
    ensures Core(data) == "" <==> data == []
  {
    hide Char, Digit;
    if |data| >= 3 {
      EncodeIsPaddedCore(data[3..]);
      DigitUndoesChar(data[2] % 64);
      var pad := if |data| % 3 == 1 then "==" else if |data| % 3 == 2 then "=" else "";
      Associative(Block(data[0], data[1], data[2]), Core(data[3..]), pad);
    } else if |data| > 0 {
      DigitUndoesChar((data[0] % 4) * 16);
      if |data| == 2 { DigitUndoesChar((data[1] % 16) * 4); }
    }
  }

  lemma {:induction false} GroupsUndoCore(data: seq<Byte>)
    ensures Groups(Core(data)) == data
  {
    hide Group, Block;
    if data == [] {
      assert Group("") == [] by { EmptyGroup(); }
    } else if |data| == 1 {
      OneByte(data[0]);
    } else if |data| == 2 {
      TwoBytes(data[0], data[1]);
    } else {
      ThreeBytes(data[0], data[1], data[2]);
      GroupsUndoCore(data[3..]);
      EncodeIsPaddedCore(data[3..]);
      FirstGroup(Block(data[0], data[1], data[2]), Core(data[3..]));
      assert data == [data[0], data[1], data[2]] + data[3..];
      assert data == [data[0], data[1], data[2]] + [] || data[3..] != [];
    }
  }

  lemma EmptyGroup()
    ensures Group("") == []
  {}

  lemma FirstGroup(block: string, rest: string)
    requires |block| == 4
    ensures Groups(block + rest) == Group(block) + if rest == "" then [] else Groups(rest)
  {
    hide Group;
    if rest == "" {
      assert block + rest == block;
    } else {
      assert (block + rest)[..4] == block && (block + rest)[4..] == rest;
    }
  }

  /** Decoding gives back every byte sequence that was encoded. */
  lemma RoundTrip(data: seq<Byte>)
    ensures Decode(Encode(data)) == data
  {
    hide Encode, Core, Groups;
    EncodeIsPaddedCore(data);
    TrimIsIdle(Core(data));
    GroupsUndoCore(data);
    assert Core(data) + "" == Core(data);
  }

  // ----- The decoder -----

  function GroupsFrom(s: string, i: nat): seq<Byte> {
    if i < |s| then Groups(s[i..]) else []
  }

  /** A group yields one byte fewer than it has characters, at most. */
  lemma GroupIsShort(g: string)
    ensures |Group(g)| <= if |g| == 0 then 0 else |g| - 1
    ensures |Group(g)| == if |Digits(g)| <= 1 then 0 else if |Digits(g)| <= 4 then |Digits(g)| - 1 else 3
  {
    if |Digits(g)| == 0 { assert Group(g) == []; }
  }

  method TrimRight(s: string) returns (t: string)
    ensures t == Trim(s)
  {
    t := s;
    while |t| > 0
      invariant Trim(t) == Trim(s)
      decreases |t|
    {
      if t[|t| - 1] != '=' { break; }
      t := t[..|t| - 1];
    }
  }

  /** The lookup table, built from the alphabet. */
  method DecodeTable() returns (table: map<char, nat>)
    ensures forall c :: c in table <==> Digit(c).Some?
    ensures forall c :: c in table ==> table[c] == Digit(c).value
  {
    table := map[];
    for v := 0 to 64
      invariant forall c :: c in table <==> Digit(c).Some? && Digit(c).value < v
      invariant forall c :: c in table ==> table[c] == Digit(c).value
    {
      DigitUndoesChar(v);
      table := table[Char(v) := v];
    }
  }

  lemma ValueSnoc(digits: seq<nat>, v: nat)
    ensures Value(digits + [v]) == Value(digits) * 64 + v
  {
    assert (digits + [v])[..|digits|] == digits;
  }

  lemma NoDigits()
    ensures Digits("") == [] && Value([]) == 0
  {}

  /** The inner loops of the decoder: the digits of a group, padded to 24 bits. */
  method ReadGroup(table: map<char, nat>, g: string) returns (n: nat, count: nat)
    requires |g| <= 4
    requires forall c :: c in table <==> Digit(c).Some?
    requires forall c :: c in table ==> table[c] == Digit(c).value
    ensures count == |Digits(g)|
    ensures count >= 2 ==> n == Value(Digits(g)) * (if count == 2 then 4096 else if count == 3 then 64 else 1)
  {
    hide Digit, Digits, Value;
    n, count := 0, 0;
    assert g[..0] == "" && Digits("") == [] && Value([]) == 0 by { NoDigits(); }
    for k := 0 to |g|
      invariant n == Value(Digits(g[..k])) && count == |Digits(g[..k])|
    {
      assert g[..k + 1] == g[..k] + [g[k]];
      DigitsSnoc(g[..k], g[k]);
      if g[k] in table {
        ValueSnoc(Digits(g[..k]), table[g[k]]);
        n := n * 64 + table[g[k]];
        count := count + 1;
      } else {
        assert Digits(g[..k]) + [] == Digits(g[..k]);
      }
    }
    assert g[..|g|] == g;
    ghost var value := n;
    for k := count to 4
      invariant count >= 2 ==> n == value * (if k - count == 0 then 1 else if k - count == 1 then 64 else 4096)
    {
      n := n * 64;
    }
  }

  /** The bytes of a padded group. */
  function BytesOf(n: nat, count: nat): seq<Byte> {
    (if count >= 2 then [n / 65536 % 256] else []) + (if count >= 3 then [n / 256 % 256] else [])
    + (if count >= 4 then [n % 256] else [])
  }

  lemma BytesAreUnpacked(n: nat, value: nat, count: nat)
    requires count <= 4
    requires count >= 2 ==> n == value * (if count == 2 then 4096 else if count == 3 then 64 else 1)
    ensures BytesOf(n, count) == Unpack(value, count)
  {}

  method WriteBytes(result: array<Byte>, start: nat, n: nat, count: nat) returns (j: nat)
    requires start + |BytesOf(n, count)| <= result.Length
    modifies result
    ensures j == start + |BytesOf(n, count)|
    ensures result[..j] == old(result[..start]) + BytesOf(n, count)
  {
    j := start;
    if count >= 2 && j < result.Length {
      result[j] := n / 65536 % 256;
      j := j + 1;
    }
    if count >= 3 && j < result.Length {
      result[j] := n / 256 % 256;
      j := j + 1;
    }
    if count >= 4 && j < result.Length {
      result[j] := n % 256;
      j := j + 1;
    }
  }

  function GroupAt(s: string, i: nat): (g: string)
    requires i < |s|
    ensures 1 <= |g| <= 4 && i + |g| <= |s| && (|g| < 4 ==> i + |g| == |s|)
  {
    s[i..if i + 4 <= |s| then i + 4 else |s|]
  }

  /** One round of the decoder: the bytes of the group at `i` of `len` characters. */
  method DecodeGroup(table: map<char, nat>, g: string, result: array<Byte>, start: nat, i: nat, len: nat) returns (j: nat)
    requires 1 <= |g| <= 4 && i + |g| <= len && 4 * start <= 3 * i && result.Length == len * 3 / 4
    requires forall c :: c in table <==> Digit(c).Some?
    requires forall c :: c in table ==> table[c] == Digit(c).value
    modifies result
    ensures start <= result.Length && j <= result.Length && 4 * j <= 3 * (i + 4)
    ensures result[..j] == old(result[..start]) + Group(g)
  {
    hide Digit, Digits, Value;
    var n, count := ReadGroup(table, g);
    BytesAreUnpacked(n, Value(Digits(g)), count);
    GroupIsShort(g);
    Room(i, start, len, |g|);
    j := WriteBytes(result, start, n, count);
  }

  /** The decoder's length guards never take effect: every decoded byte fits the output. */
  method DecodeBase64(input: string) returns (r: seq<Byte>)
    ensures r == Decode(input)
    ensures |r| <= |Trim(input)| * 3 / 4
  {
    var s := TrimRight(input);
    if |s| == 0 {
      EmptyGroup();
      return [];
    }
    assert s[0..] == s && GroupsFrom(s, 0) == Groups(s) == Decode(input);
    hide Decode, Groups, GroupsFrom, Group, Digits, Digit, Char, Value, Unpack, Trim, BytesOf;
    var table := DecodeTable();
    var result := new Byte[|s| * 3 / 4];
    var i, j := 0, 0;
    while i < |s|
      invariant 0 <= i && 0 <= j <= result.Length
      invariant i < |s| ==> 4 * j <= 3 * i
      invariant result[..j] + GroupsFrom(s, i) == Groups(s)
      decreases |s| - i
    {
      ghost var before := result[..j];
      j := DecodeGroup(table, GroupAt(s, i), result, j, i, |s|);
      NextGroup(s, i);
      Associative(before, Group(GroupAt(s, i)), GroupsFrom(s, i + 4));
      i := i + 4;
    }
    r := result[..j];
    PastTheEnd(s, i);
    assert r + [] == r;
  }

  /** There is room for the bytes of the next group. */
  lemma Room(i: nat, j: nat, len: nat, g: nat)
    requires 4 * j <= 3 * i && 1 <= g <= 4 && i + g <= len
    ensures j + g - 1 <= len * 3 / 4 && 4 * (j + g - 1) <= 3 * (i + 4)
  {}

  lemma PastTheEnd(s: string, i: nat)
    requires i >= |s|
    ensures GroupsFrom(s, i) == []
  {}

  lemma NextGroup(s: string, i: nat)
    requires i < |s|
    ensures GroupsFrom(s, i) == Group(GroupAt(s, i)) + GroupsFrom(s, i + 4)
  {
    var rest := s[i..];
    if |rest| > 4 {
      assert rest[4..] == s[i + 4..] && rest[..4] == s[i..i + 4];
    } else {
      assert GroupAt(s, i) == rest;
      assert Group(rest) + [] == Group(rest);
    }
  }
}
