/** Strings and bytes as the Go code handles them, restricted to ASCII letters. */
module Text {

  type Byte = b: int | 0 <= b < 256 witness 0

  const CRLF: seq<Byte> := [13, 10]

  function LowerChar(c: char): char {
    if 'A' <= c <= 'Z' then ('a' as int + (c as int - 'A' as int)) as char else c
  }

  function UpperChar(c: char): char {
    if 'a' <= c <= 'z' then ('A' as int + (c as int - 'a' as int)) as char else c
  }

  function ToLower(s: string): (r: string)
    ensures |r| == |s|
  {
    seq(|s|, i requires 0 <= i < |s| => LowerChar(s[i]))
  }

  predicate EqualFold(a: string, b: string) {
    ToLower(a) == ToLower(b)
  }

  predicate HasSuffix(s: string, suffix: string) {
    |suffix| <= |s| && s[|s| - |suffix|..] == suffix
  }

  /** The position of the last `c`, or -1. */
  function LastIndex(s: string, c: char): (r: int)
    ensures -1 <= r < |s|
    ensures r >= 0 ==> s[r] == c
    ensures forall i :: r < i < |s| ==> s[i] != c
  {
    if s == [] then -1
    else if s[|s| - 1] == c then |s| - 1
    else LastIndex(s[..|s| - 1], c)
  }

  /** The position of the first `c`, or |s|. */
  function FirstIndex(s: string, c: char): (r: nat)
    ensures r <= |s|
    ensures r < |s| ==> s[r] == c
    ensures forall i :: 0 <= i < r ==> s[i] != c
  {
    if s == [] then 0
    else if s[0] == c then 0
    else 1 + FirstIndex(s[1..], c)
  }

  // ----- Decimal numbers -----

  predicate IsDecimal(c: char) { '0' <= c <= '9' }

  function Decimal(n: nat): (s: string)
    ensures s != "" && forall i :: 0 <= i < |s| ==> IsDecimal(s[i])
  {
    if n < 10 then [('0' as int + n) as char] else Decimal(n / 10) + [('0' as int + n % 10) as char]
  }

  /** The digits at the front, as a number; what follows them is ignored. */
  function LeadingNumber(s: string, n: nat): nat {
    if s == "" || !IsDecimal(s[0]) then n else LeadingNumber(s[1..], n * 10 + (s[0] as int - '0' as int))
  }

  /** A decimal number is read as that number. */
  lemma {:induction false} DecimalIsRead(n: nat, before: nat, digits: string)
    requires digits == Decimal(n)
    ensures LeadingNumber(digits, before) == before * Power10(|digits|) + n
    decreases n
  {
    if n < 10 {
      assert digits[1..] == "";
      assert LeadingNumber("", before * 10 + n) == before * 10 + n;
      assert Power10(1) == 10 * Power10(0);
    } else {
      var front, last := Decimal(n / 10), (n % 10) as nat;
      DecimalIsRead(n / 10, before, front);
      AppendDigit(front, last, before);
      assert Power10(|digits|) == 10 * Power10(|front|);
      hide Power10, Decimal, LeadingNumber;
      NextDigit(before, Power10(|front|), n);
    }
  }

  lemma NextDigit(before: nat, power: nat, n: nat)
    ensures (before * power + n / 10) * 10 + n % 10 == before * (10 * power) + n
  {
    assert before * (10 * power) == before * power * 10;
  }

  function Power10(n: nat): nat { if n == 0 then 1 else 10 * Power10(n - 1) }

  lemma {:induction false} AppendDigit(s: string, d: nat, before: nat)
    requires d < 10 && forall i :: 0 <= i < |s| ==> IsDecimal(s[i])
    ensures LeadingNumber(s + [('0' as int + d) as char], before) == LeadingNumber(s, before) * 10 + d
  {
    var c := ('0' as int + d) as char;
    if s == "" {
      assert s + [c] == [c] && [c][1..] == "";
    } else {
      assert (s + [c])[1..] == s[1..] + [c];
      AppendDigit(s[1..], d, before * 10 + (s[0] as int - '0' as int));
    }
  }

  // ----- Splitting and joining -----

  function Split(s: string, c: char): (parts: seq<string>)
    ensures |parts| >= 1
    decreases |s|
  {
    var i := FirstIndex(s, c);
    if i == |s| then [s] else [s[..i]] + Split(s[i + 1..], c)
  }

  function Join(parts: seq<string>, c: char): string {
    if parts == [] then ""
    else if |parts| == 1 then parts[0]
    else parts[0] + [c] + Join(parts[1..], c)
  }

  lemma JoinCons(first: string, rest: seq<string>, c: char)
    requires rest != []
    ensures Join([first] + rest, c) == first + [c] + Join(rest, c)
  {
    assert ([first] + rest)[1..] == rest;
  }

  lemma AroundFirst(s: string, c: char)
    requires FirstIndex(s, c) < |s|
    ensures var i := FirstIndex(s, c); s == s[..i] + [c] + s[i + 1..]
  {}

  lemma {:induction false} JoinUndoesSplit(s: string, c: char)
    ensures Join(Split(s, c), c) == s
    decreases |s|
  {
    var i := FirstIndex(s, c);
    if i < |s| {
      var rest := s[i + 1..];
      assert Split(s, c) == [s[..i]] + Split(rest, c);
      hide Split, Join;
      JoinUndoesSplit(rest, c);
      JoinCons(s[..i], Split(rest, c), c);
      AroundFirst(s, c);
    } else {
      assert Split(s, c) == [s];
    }
  }

  lemma {:induction false} PartsAreFree(s: string, c: char)
    ensures forall p :: p in Split(s, c) ==> c !in p
    decreases |s|
  {
    var i := FirstIndex(s, c);
    if i < |s| { PartsAreFree(s[i + 1..], c); }
  }

  lemma FirstAfter(first: string, c: char, rest: string)
    requires c !in first
    ensures var s := first + [c] + rest;
            FirstIndex(s, c) == |first| && s[..|first|] == first && s[|first| + 1..] == rest
  {
    var s := first + [c] + rest;
    assert s[|first|] == c;
    assert forall i :: 0 <= i < |first| ==> s[i] == first[i];
  }

  lemma {:induction false} SplitUndoesJoin(parts: seq<string>, c: char)
    requires parts != [] && forall p :: p in parts ==> c !in p
    ensures Split(Join(parts, c), c) == parts
  {
    if |parts| == 1 {
      assert parts[0] in parts && parts == [parts[0]];
    } else {
      SplitUndoesJoin(parts[1..], c);
      assert parts == [parts[0]] + parts[1..];
      JoinCons(parts[0], parts[1..], c);
      FirstAfter(parts[0], c, Join(parts[1..], c));
      hide Join;
    }
  }
}
