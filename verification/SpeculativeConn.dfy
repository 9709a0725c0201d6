/** The stream transducer of transport/speculative_conn.go: it puts a CONNECT request in
    front of the first write and strips the HTTP response head from what it reads. */
module SpeculativeConn {

  import opened Numbers
  import opened Text
  import opened Wrappers

  const HEAD_END: seq<Byte> := [13, 10, 13, 10]
  const HEADER_LIMIT: nat := 16384
  const READ_SIZE: nat := 8192

  // ----- The response head inside a stream -----

  predicate EndsAt(s: seq<Byte>, i: nat) {
    i + 4 <= |s| && s[i..i + 4] == HEAD_END
  }

  predicate FirstEndAt(s: seq<Byte>, i: nat) {
    EndsAt(s, i) && forall j: nat :: j < i ==> !EndsAt(s, j)
  }

  function FindEnd(s: seq<Byte>, from: nat): (r: Option<nat>)
    ensures r.Some? ==> EndsAt(s, r.value) && from <= r.value && forall j: nat :: from <= j < r.value ==> !EndsAt(s, j)
    ensures r.None? ==> forall j: nat :: from <= j ==> !EndsAt(s, j)
    decreases |s| - from
  {
    if |s| < from + 4 then None
    else if EndsAt(s, from) then Some(from)
    else FindEnd(s, from + 1)
  }

  lemma FirstEndInPrefix(s: seq<Byte>, n: nat, i: nat)
    requires n <= |s|
    ensures FirstEndAt(s[..n], i) <==> FirstEndAt(s, i) && i + 4 <= n
  {
    forall j: nat ensures EndsAt(s[..n], j) <==> EndsAt(s, j) && j + 4 <= n {
      if j + 4 <= n { assert s[..n][j..j + 4] == s[j..j + 4]; }
    }
  }

  // ----- One Read, as a function -----

  /** What the underlying connection does when it is read: deliver at most `n` bytes, or fail. */
  datatype Delivery = Data(n: nat) | Fault

  /** `stream` is everything the peer sends and `pos` how much of it has arrived. */
  datatype Conn = Conn(stream: seq<Byte>, pos: nat, script: seq<Delivery>,
                       done: bool, header: seq<Byte>, buffered: seq<Byte>)
  {
    predicate Sound() { pos <= |stream| }
  }

  datatype Outcome = Bytes(data: seq<Byte>) | ReadError | TooLarge | BadResponse | BadStatus(code: int)

  function RawRead(c: Conn, size: nat): (r: (Conn, Outcome))
    requires c.Sound()
    ensures r.0.Sound() && (r.1.Bytes? || r.1.ReadError?)
    ensures c.script != [] ==> |r.0.script| < |c.script|
    ensures r.1.Bytes? ==> c.script != []
  {
    if c.script == [] then (c, ReadError)
    else if c.script[0].Fault? then (c.(script := c.script[1..]), ReadError)
    else
      var k := Min(Min(c.script[0].n, size), |c.stream| - c.pos);
      (c.(script := c.script[1..], pos := c.pos + k), Bytes(c.stream[c.pos..c.pos + k]))
  }

  /** Reads until the response head is complete; `parse` is the library's status parser. */
  function Strip(c: Conn, size: nat, parse: seq<Byte> -> Option<int>): (r: (Conn, Outcome))
    requires c.Sound()
    ensures r.0.Sound()
    decreases |c.script|
  {
    var (c', got) := RawRead(c, READ_SIZE);
    if !got.Bytes? then (c', ReadError) else
      var data := c.header + got.data;
      var c'' := c'.(header := data);
      var end := FindEnd(data, 0);
      if end.None? then
        if |data| > HEADER_LIMIT then (c'', TooLarge) else Strip(c'', size, parse)
      else
        var status := parse(data[..end.value + 4]);
        if status.None? then (c'', BadResponse)
        else if status.value != 200 then (c'', BadStatus(status.value))
        else
          var open := c''.(done := true, header := []);
          var tail := data[end.value + 4..];
          if tail == [] then RawRead(open, size) else
            var n := Min(size, |tail|);
            (open.(buffered := tail[n..]), Bytes(tail[..n]))
  }

  function ReadStep(c: Conn, size: nat, parse: seq<Byte> -> Option<int>): (r: (Conn, Outcome))
    requires c.Sound()
    ensures r.0.Sound()
  {
    if c.buffered != [] then
      var n := Min(size, |c.buffered|);
      (c.(buffered := c.buffered[n..]), Bytes(c.buffered[..n]))
    else if c.done then RawRead(c, size)
    else Strip(c, size, parse)
  }

  // ----- What every Read keeps -----

  function DataOf(o: Outcome): seq<Byte> {
    if o.Bytes? then o.data else []
  }

  /** `out` is all that has been handed to the caller so far. */
  ghost predicate Faithful(c: Conn, out: seq<Byte>, parse: seq<Byte> -> Option<int>) {
    && c.Sound()
    && (!c.done ==> out == [] && c.buffered == [] && c.header == c.stream[..c.pos])
    && (c.done ==> exists e: nat :: FirstEndAt(c.stream, e) && Opened(c, e, out, parse))
  }

  predicate Opened(c: Conn, e: nat, out: seq<Byte>, parse: seq<Byte> -> Option<int>)
    requires c.Sound()
  {
    e + 4 <= c.pos && parse(c.stream[..e + 4]) == Some(200) && out + c.buffered == c.stream[e + 4..c.pos]
  }

  lemma Slices(s: seq<Byte>, a: nat, b: nat, c: nat)
    requires a <= b <= c <= |s|
    ensures s[a..c] == s[a..b] + s[b..c]
  {}

  lemma RawReadIsFaithful(c: Conn, size: nat, out: seq<Byte>, parse: seq<Byte> -> Option<int>)
    requires Faithful(c, out, parse) && c.done && c.buffered == []
    ensures var (c', o) := RawRead(c, size); Faithful(c', out + DataOf(o), parse) && |DataOf(o)| <= size
  {
    var (c', o) := RawRead(c, size);
    var e: nat :| FirstEndAt(c.stream, e) && Opened(c, e, out, parse);
    assert DataOf(o) == c.stream[c.pos..c'.pos] && c'.buffered == [] && c'.stream == c.stream;
    hide RawRead, FirstEndAt;
    Slices(c.stream, e + 4, c.pos, c'.pos);
    assert out + [] == out && out + DataOf(o) + [] == out + DataOf(o);
    assert Opened(c', e, out + DataOf(o), parse);
  }

  /** Before the head is complete the header buffer is all that has arrived. */
  lemma FillIsFaithful(c: Conn, parse: seq<Byte> -> Option<int>)
    requires Faithful(c, [], parse) && !c.done
    ensures var (c', got) := RawRead(c, READ_SIZE);
            && c' == c.(pos := c'.pos, script := c'.script) && c.buffered == []
            && Faithful(if got.Bytes? then c'.(header := c.header + got.data) else c', [], parse)
            && (got.Bytes? ==> c.header + got.data == c.stream[..c'.pos])
  {
    var (c', got) := RawRead(c, READ_SIZE);
    if got.Bytes? { assert c.stream[..c'.pos] == c.stream[..c.pos] + got.data; }
  }

  lemma PrefixParts(s: seq<Byte>, n: nat, m: nat)
    requires m <= n <= |s|
    ensures s[..n][..m] == s[..m] && s[..n][m..] == s[m..n]
  {}

  lemma {:induction false} StripIsFaithful(c: Conn, size: nat, parse: seq<Byte> -> Option<int>)
    requires Faithful(c, [], parse) && !c.done
    ensures var (c', o) := Strip(c, size, parse); Faithful(c', DataOf(o), parse) && |DataOf(o)| <= size
    decreases |c.script|
  {
    FillIsFaithful(c, parse);
    hide RawRead, FindEnd, Faithful, EndsAt;
    var (c', got) := RawRead(c, READ_SIZE);
    if !got.Bytes? { return; }
    var data := c.header + got.data;
    var c'' := c'.(header := data);
    var end := FindEnd(data, 0);
    assert end.Some? ==> FirstEndAt(data, end.value);
    hide FirstEndAt;
    if end.None? {
      if |data| <= HEADER_LIMIT { StripIsFaithful(c'', size, parse); }
      return;
    }
    var e := end.value;
    FirstEndInPrefix(c.stream, c'.pos, e);
    PrefixParts(c.stream, c'.pos, e + 4);
    if parse(data[..e + 4]) == Some(200) {
      OpenIsFaithful(c''.(done := true, header := []), size, e, data[e + 4..], parse);
    }
  }

  /** The head ends at `e` and `tail` is what has arrived behind it. */
  lemma OpenIsFaithful(open: Conn, size: nat, e: nat, tail: seq<Byte>, parse: seq<Byte> -> Option<int>)
    requires open.Sound() && open.done && open.buffered == [] && e + 4 <= open.pos
    requires FirstEndAt(open.stream, e) && parse(open.stream[..e + 4]) == Some(200)
    requires tail == open.stream[e + 4..open.pos]
    ensures if tail == [] then
              var (c', o) := RawRead(open, size); Faithful(c', DataOf(o), parse) && |DataOf(o)| <= size
            else
              var n := Min(size, |tail|); Faithful(open.(buffered := tail[n..]), tail[..n], parse) && n <= size
  {
    if tail == [] {
      assert Opened(open, e, [], parse);
      RawReadIsFaithful(open, size, [], parse);
      hide Faithful, RawRead;
      assert forall d: seq<Byte> :: [] + d == d;
    } else {
      var n := Min(size, |tail|);
      assert tail == tail[..n] + tail[n..];
      assert Opened(open.(buffered := tail[n..]), e, tail[..n], parse);
    }
  }

  lemma ReadIsFaithful(c: Conn, size: nat, out: seq<Byte>, parse: seq<Byte> -> Option<int>)
    requires Faithful(c, out, parse)
    ensures var (c', o) := ReadStep(c, size, parse);
            Faithful(c', out + DataOf(o), parse) && c'.stream == c.stream && |DataOf(o)| <= size
  {
    if c.buffered != [] {
      BufferedIsFaithful(c, size, out, parse);
    } else if c.done {
      hide Faithful, RawRead;
      RawReadIsFaithful(c, size, out, parse);
    } else {
      assert out == [];
      StreamIsFixed(c, size, parse);
      StripIsFaithful(c, size, parse);
      hide Faithful, Strip;
      var o := ReadStep(c, size, parse).1;
      assert out + DataOf(o) == DataOf(o);
    }
  }

  lemma BufferedIsFaithful(c: Conn, size: nat, out: seq<Byte>, parse: seq<Byte> -> Option<int>)
    requires Faithful(c, out, parse) && c.buffered != []
    ensures var n := Min(size, |c.buffered|);
            Faithful(c.(buffered := c.buffered[n..]), out + c.buffered[..n], parse)
  {
    var n := Min(size, |c.buffered|);
    var c' := c.(buffered := c.buffered[n..]);
    var e: nat :| FirstEndAt(c.stream, e) && Opened(c, e, out, parse);
    hide FirstEndAt;
    assert out + c.buffered[..n] + c.buffered[n..] == out + c.buffered;
    assert Opened(c', e, out + c.buffered[..n], parse);
  }

  lemma {:induction false} StreamIsFixed(c: Conn, size: nat, parse: seq<Byte> -> Option<int>)
    requires c.Sound()
    ensures Strip(c, size, parse).0.stream == c.stream
    decreases |c.script|
  {
    var (c', got) := RawRead(c, READ_SIZE);
    if got.Bytes? { StreamIsFixed(c'.(header := c.header + got.data), size, parse); }
  }

  // ----- Whole runs of Read -----

  function Reads(c: Conn, sizes: seq<nat>, parse: seq<Byte> -> Option<int>): (r: (Conn, seq<Outcome>))
    requires c.Sound()
    decreases |sizes|
  {
    if sizes == [] then (c, []) else
      var (c', o) := ReadStep(c, sizes[0], parse);
      var (c'', rest) := Reads(c', sizes[1..], parse);
      (c'', [o] + rest)
  }

  function AllData(outs: seq<Outcome>): seq<Byte> {
    if outs == [] then [] else DataOf(outs[0]) + AllData(outs[1..])
  }

  lemma {:induction false} ReadsAreFaithful(c: Conn, sizes: seq<nat>, out: seq<Byte>, parse: seq<Byte> -> Option<int>)
    requires Faithful(c, out, parse)
    ensures var (c', outs) := Reads(c, sizes, parse);
            Faithful(c', out + AllData(outs), parse) && c'.stream == c.stream
    decreases |sizes|
  {
    if sizes == [] {
      assert out + [] == out;
    } else {
      ReadIsFaithful(c, sizes[0], out, parse);
      hide Faithful, ReadStep, AllData, DataOf;
      var (c1, o) := ReadStep(c, sizes[0], parse);
      ReadsAreFaithful(c1, sizes[1..], out + DataOf(o), parse);
      AllDataCons(o, Reads(c1, sizes[1..], parse).1, out);
    }
  }

  lemma AllDataCons(o: Outcome, rest: seq<Outcome>, out: seq<Byte>)
    ensures out + AllData([o] + rest) == out + DataOf(o) + AllData(rest)
  {
    assert ([o] + rest)[1..] == rest;
  }

  function Fresh(stream: seq<Byte>, script: seq<Delivery>): Conn {
    Conn(stream, 0, script, false, [], [])
  }

  /** For every chunking of the stream and all buffer sizes, with or without errors in
      between: the caller never sees anything but the bytes after the response head, in
      order and without gaps, and sees all of them once they have arrived and been read. */
  lemma ReadsDeliverTheTunnel(stream: seq<Byte>, script: seq<Delivery>, sizes: seq<nat>,
                              parse: seq<Byte> -> Option<int>, e: nat)
    requires FirstEndAt(stream, e)
    ensures var (c, outs) := Reads(Fresh(stream, script), sizes, parse);
            && AllData(outs) <= stream[e + 4..]
            && (AllData(outs) != [] ==> parse(stream[..e + 4]) == Some(200))
            && (c.done && c.pos == |stream| && c.buffered == [] ==> AllData(outs) == stream[e + 4..])
  {
    var c0 := Fresh(stream, script);
    assert Faithful(c0, [], parse);
    ReadsAreFaithful(c0, sizes, [], parse);
    var (c, outs) := Reads(c0, sizes, parse);
    var got := AllData(outs);
    assert [] + got == got;
    if c.done {
      var f: nat :| FirstEndAt(stream, f) && Opened(c, f, got, parse);
      assert f == e;
      assert got + c.buffered <= stream[e + 4..];
      assert got == (got + c.buffered)[..|got|];
    }
  }

  /** A stream without a response head is never handed to the caller. */
  lemma NoHeadNoData(stream: seq<Byte>, script: seq<Delivery>, sizes: seq<nat>, parse: seq<Byte> -> Option<int>)
    requires forall e: nat :: !EndsAt(stream, e)
    ensures AllData(Reads(Fresh(stream, script), sizes, parse).1) == []
  {
    var c0 := Fresh(stream, script);
    assert Faithful(c0, [], parse);
    ReadsAreFaithful(c0, sizes, [], parse);
    assert [] + AllData(Reads(c0, sizes, parse).1) == AllData(Reads(c0, sizes, parse).1);
  }

  // ----- When stripping fails, and that it otherwise succeeds -----

  /** Each error has its reason, and up to the first one the header buffer stays bounded. */
  lemma {:induction false} StripErrors(c: Conn, size: nat, parse: seq<Byte> -> Option<int>)
    requires c.Sound() && !c.done && |c.header| <= HEADER_LIMIT
    ensures var (c', o) := Strip(c, size, parse);
            && |c'.header| <= 16384 + 8192
            && (o.Bytes? ==> c'.done && c'.header == [])
            && (o.ReadError? && !c'.done && (forall i: nat :: !EndsAt(c.header, i)) ==> forall i: nat :: !EndsAt(c'.header, i))
            && (o.TooLarge? ==> |c'.header| > 16384 && forall i: nat :: !EndsAt(c'.header, i))
            && (o.BadResponse? ==> exists e: nat :: FirstEndAt(c'.header, e) && parse(c'.header[..e + 4]) == None)
            && (o.BadStatus? ==> o.code != 200)
            && (o.BadStatus? ==> exists e: nat :: FirstEndAt(c'.header, e) && parse(c'.header[..e + 4]) == Some(o.code))
    decreases |c.script|
  {
    var (c', got) := RawRead(c, READ_SIZE);
    if !got.Bytes? { return; }
    var data := c.header + got.data;
    var end := FindEnd(data, 0);
    if end.None? {
      if |data| <= HEADER_LIMIT { StripErrors(c'.(header := data), size, parse); }
    } else {
      assert FirstEndAt(data, end.value);
    }
  }

  predicate Flowing(script: seq<Delivery>) {
    forall i :: 0 <= i < |script| ==> script[i].Data? && script[i].n > 0
  }

  /** A good head within the limit is always stripped, however finely it is chunked. */
  lemma {:induction false} GoodHeadIsStripped(c: Conn, size: nat, parse: seq<Byte> -> Option<int>, e: nat)
    requires Faithful(c, [], parse) && !c.done && FirstEndAt(c.stream, e) && c.pos < e + 4 <= HEADER_LIMIT
    requires parse(c.stream[..e + 4]) == Some(200)
    requires Flowing(c.script) && |c.script| > e + 4 - c.pos
    ensures Strip(c, size, parse).1.Bytes? && Strip(c, size, parse).0.done
    decreases |c.script|
  {
    var (c', got) := RawRead(c, READ_SIZE);
    var data := c.header + got.data;
    assert data == c.stream[..c'.pos];
    var end := FindEnd(data, 0);
    FirstEndInPrefix(c.stream, c'.pos, e);
    if end.None? {
      assert !FirstEndAt(data, e);
      GoodHeadIsStripped(c'.(header := data), size, parse, e);
    } else {
      FirstEndInPrefix(c.stream, c'.pos, end.value);
      assert end.value == e;
      assert data[..e + 4] == c.stream[..e + 4];
    }
  }

  /** A Read with room hands over what is there: buffered bytes first, as many as fit, and then
      what the connection delivers, down to the last byte of the stream. */
  lemma ReadHandsOver(c: Conn, size: nat, parse: seq<Byte> -> Option<int>)
    requires c.Sound() && (c.buffered != [] || c.done)
    ensures var (c', o) := ReadStep(c, size, parse);
            && (c.buffered != [] ==> o.Bytes? && |o.data| == Min(size, |c.buffered|) && c'.script == c.script)
            && (c.buffered == [] && c.script != [] && c.script[0].Data? ==>
                  o.Bytes? && |o.data| == Min(Min(c.script[0].n, size), |c.stream| - c.pos))
            && (c.buffered == [] && (c.script == [] || c.script[0].Fault?) ==> o == ReadError && c'.pos == c.pos)
  {}

  /** The Read that completes the head hands over what came behind it, as much as fits. */
  lemma {:induction false} StripHandsOver(c: Conn, size: nat, parse: seq<Byte> -> Option<int>)
    requires c.Sound() && !c.done && c.buffered == []
    ensures var (c', o) := Strip(c, size, parse);
            o.Bytes? && c'.buffered != [] ==> |o.data| == size
    decreases |c.script|
  {
    var (c', got) := RawRead(c, READ_SIZE);
    if got.Bytes? { StripHandsOver(c'.(header := c.header + got.data), size, parse); }
  }

  // ----- Writes -----

  /** What the underlying connection does with a write: take it, or fail after `n` bytes. */
  datatype Acceptance = Accept | Break(n: nat)

  /** `sent` is everything the underlying connection took. */
  datatype Writer = Writer(request: seq<Byte>, started: bool, sent: seq<Byte>)

  datatype Written = Written(n: nat, failed: bool)

  function WireOf(w: Writer, b: seq<Byte>): seq<Byte> {
    if w.started then b else w.request + b
  }

  function WriteStep(w: Writer, b: seq<Byte>, a: Acceptance): (Writer, Written) {
    var wire := WireOf(w, b);
    match a
    case Accept => (w.(started := true, sent := w.sent + wire), Written(|b|, false))
    case Break(n) =>
      var k := Min(n, |wire|);
      (w.(sent := w.sent + wire[..k]), Written(if w.started then k else 0, true))
  }

  /** What a write reports: all of the payload when it is accepted, never the CONNECT request;
      a failed first write nothing, a later one what it put on the wire. */
  lemma ReportIsHonest(w: Writer, b: seq<Byte>, a: Acceptance)
    ensures var (w', r) := WriteStep(w, b, a);
            && r.failed == a.Break?
            && (!r.failed ==> r.n == |b| && w'.started)
            && (r.failed ==> w'.started == w.started && r.n == if w.started then |w'.sent| - |w.sent| else 0)
  {}

  /** A call of Write and what becomes of it. */
  datatype Attempt = Attempt(payload: seq<Byte>, acceptance: Acceptance)

  function Writes(w: Writer, attempts: seq<Attempt>): Writer {
    if attempts == [] then w else
      var last := attempts[|attempts| - 1];
      WriteStep(Writes(w, attempts[..|attempts| - 1]), last.payload, last.acceptance).0
  }

  /** The bytes that the accepted writes put on the wire. */
  function Taken(w: Writer, attempts: seq<Attempt>): seq<Byte> {
    if attempts == [] then [] else
      var init, last := attempts[..|attempts| - 1], attempts[|attempts| - 1];
      Taken(w, init) + if last.acceptance.Accept? then WireOf(Writes(w, init), last.payload) else []
  }

  /** How many bytes the failed writes put on the wire before they failed. */
  function Debris(w: Writer, attempts: seq<Attempt>): nat {
    if attempts == [] then 0 else
      var init, last := attempts[..|attempts| - 1], attempts[|attempts| - 1];
      Debris(w, init) + if last.acceptance.Break? then Min(last.acceptance.n, |WireOf(Writes(w, init), last.payload)|) else 0
  }

  predicate AnyAccepted(attempts: seq<Attempt>) {
    exists i :: 0 <= i < |attempts| && attempts[i].acceptance.Accept?
  }

  function AcceptedPayloads(attempts: seq<Attempt>): seq<Byte> {
    if attempts == [] then [] else
      var last := attempts[|attempts| - 1];
      AcceptedPayloads(attempts[..|attempts| - 1]) + if last.acceptance.Accept? then last.payload else []
  }

  /** In every sequence of writes the accepted ones put the CONNECT request on the wire once,
      in front of their payloads, or nothing if there are none. */
  lemma {:induction false} WritesFollowTheRequest(request: seq<Byte>, attempts: seq<Attempt>)
    ensures var w := Writer(request, false, []);
            && Taken(w, attempts) == (if AnyAccepted(attempts) then request + AcceptedPayloads(attempts) else [])
            && Writes(w, attempts).started == AnyAccepted(attempts)
            && Writes(w, attempts).request == request
            && (!AnyAccepted(attempts) ==> AcceptedPayloads(attempts) == [])
  {
    if attempts != [] {
      var init, last := attempts[..|attempts| - 1], attempts[|attempts| - 1];
      WritesFollowTheRequest(request, init);
      assert AnyAccepted(attempts) <==> AnyAccepted(init) || last.acceptance.Accept? by { AnyAcceptedSnoc(attempts); }
      hide AnyAccepted;
      assert request + AcceptedPayloads(init) + last.payload == request + (AcceptedPayloads(init) + last.payload);
      assert [] + last.payload == last.payload;
    }
  }

  lemma AnyAcceptedSnoc(attempts: seq<Attempt>)
    requires attempts != []
    ensures var init, last := attempts[..|attempts| - 1], attempts[|attempts| - 1];
            AnyAccepted(attempts) <==> AnyAccepted(init) || last.acceptance.Accept?
  {
    var init := attempts[..|attempts| - 1];
    if AnyAccepted(init) {
      var i :| 0 <= i < |init| && init[i].acceptance.Accept?;
      assert attempts[i].acceptance.Accept?;
    }
    if AnyAccepted(attempts) {
      var i :| 0 <= i < |attempts| && attempts[i].acceptance.Accept?;
      assert i < |init| ==> init[i].acceptance.Accept?;
    }
  }

  lemma {:induction false} SentIsTakenAndDebris(w: Writer, attempts: seq<Attempt>)
    ensures |Writes(w, attempts).sent| == |w.sent| + |Taken(w, attempts)| + Debris(w, attempts)
    ensures Debris(w, attempts) == 0 ==> Writes(w, attempts).sent == w.sent + Taken(w, attempts)
  {
    if attempts != [] {
      SentIsTakenAndDebris(w, attempts[..|attempts| - 1]);
    }
  }

  /** The wire carries nothing but what the accepted writes put there, if and only if every
      failed write failed before its first byte. */
  lemma WireIsCleanIff(request: seq<Byte>, attempts: seq<Attempt>)
    ensures var w := Writer(request, false, []);
            Writes(w, attempts).sent == (if AnyAccepted(attempts) then request + AcceptedPayloads(attempts) else [])
            <==> Debris(w, attempts) == 0
  {
    hide Writes, Taken, Debris, AnyAccepted, AcceptedPayloads;
    var w := Writer(request, false, []);
    WritesFollowTheRequest(request, attempts);
    SentIsTakenAndDebris(w, attempts);
    assert [] + Taken(w, attempts) == Taken(w, attempts);
  }

  // ----- The connection object -----

  class NetConn {
    const stream: seq<Byte>
    var pos: nat
    var script: seq<Delivery>
    var sent: seq<Byte>

    constructor (stream: seq<Byte>, script: seq<Delivery>)
      ensures this.stream == stream && pos == 0 && this.script == script && sent == []
    {
      this.stream, pos, this.script, sent := stream, 0, script, [];
    }

    method Read(size: nat) returns (o: Outcome)
      requires pos <= |stream|
      modifies this`pos, this`script
      ensures forall done, header, buffered ::
                (Conn(stream, pos, script, done, header, buffered), o)
                == RawRead(Conn(stream, old(pos), old(script), done, header, buffered), size)
    {
      if script == [] { return ReadError; }
      var next := script[0];
      script := script[1..];
      if next.Fault? { return ReadError; }
      var k := Min(Min(next.n, size), |stream| - pos);
      o := Bytes(stream[pos..pos + k]);
      pos := pos + k;
    }

    method Write(b: seq<Byte>, a: Acceptance) returns (n: nat, failed: bool)
      modifies this`sent
      ensures failed == a.Break? && n == if a.Break? then Min(a.n, |b|) else |b|
      ensures sent == old(sent) + b[..n]
    {
      failed := a.Break?;
      n := if a.Break? then Min(a.n, |b|) else |b|;
      sent := sent + b[..n];
    }
  }

  class SpeculativeConn {
    const conn: NetConn
    const connectRequest: seq<Byte>
    const parse: seq<Byte> -> Option<int>
    var firstWrite: bool
    var httpResponseDone: bool
    var readBuffer: seq<Byte>
    var headerBuffer: seq<Byte>

    constructor (conn: NetConn, connectRequest: seq<Byte>, parse: seq<Byte> -> Option<int>)
      ensures this.conn == conn && this.connectRequest == connectRequest && this.parse == parse
      ensures !firstWrite && !httpResponseDone && readBuffer == [] && headerBuffer == []
    {
      this.conn, this.connectRequest, this.parse := conn, connectRequest, parse;
      firstWrite, httpResponseDone, readBuffer, headerBuffer := false, false, [], [];
    }

    ghost function Reader(): Conn
      reads this, conn
    {
      Conn(conn.stream, conn.pos, conn.script, httpResponseDone, headerBuffer, readBuffer)
    }

    ghost function Sender(): Writer
      reads this, conn
    {
      Writer(connectRequest, firstWrite, conn.sent)
    }

    method Write(b: seq<Byte>, a: Acceptance) returns (r: Written)
      modifies this`firstWrite, conn`sent
      ensures (Sender(), r) == WriteStep(old(Sender()), b, a)
      ensures r.failed == a.Break? && (!r.failed ==> r.n == |b|)
    {
      if firstWrite {
        var n, failed := conn.Write(b, a);
        assert b[..|b|] == b;
        return Written(n, failed);
      }
      var combined := connectRequest + b;
      var _, failed := conn.Write(combined, a);
      if failed { return Written(0, true); }
      assert combined[..|combined|] == combined;
      firstWrite := true;
      return Written(|b|, false);
    }

    method Read(size: nat) returns (o: Outcome)
      requires Reader().Sound()
      modifies this`httpResponseDone, this`readBuffer, this`headerBuffer, conn`pos, conn`script
      ensures (Reader(), o) == ReadStep(old(Reader()), size, parse)
    {
      if httpResponseDone && |readBuffer| == 0 {
        o := conn.Read(size);
        return;
      }
      if |readBuffer| > 0 {
        var n := Min(size, |readBuffer|);
        o := Bytes(readBuffer[..n]);
        readBuffer := readBuffer[n..];
        return;
      }
      o := ReadAndStripHttpResponse(size);
    }

    method ReadAndStripHttpResponse(size: nat) returns (o: Outcome)
      requires Reader().Sound() && !httpResponseDone && readBuffer == []
      modifies this`httpResponseDone, this`readBuffer, this`headerBuffer, conn`pos, conn`script
      ensures (Reader(), o) == Strip(old(Reader()), size, parse)
    {
      hide RawRead;
      while true
        invariant Reader().Sound() && !httpResponseDone && readBuffer == []
        invariant Strip(Reader(), size, parse) == Strip(old(Reader()), size, parse)
        invariant |old(headerBuffer)| <= HEADER_LIMIT ==> |headerBuffer| <= HEADER_LIMIT
        decreases |conn.script|
      {
        var got := conn.Read(READ_SIZE);
        if !got.Bytes? { return ReadError; }
        headerBuffer := headerBuffer + got.data;
        var data := headerBuffer;
        var headerEnd := FindEnd(data, 0);
        if headerEnd.None? {
          if |headerBuffer| > HEADER_LIMIT { return TooLarge; }
          continue;
        }
        var status := parse(data[..headerEnd.value + 4]);
        if status.None? { return BadResponse; }
        if status.value != 200 { return BadStatus(status.value); }
        httpResponseDone := true;
        headerBuffer := [];
        var tlsData := data[headerEnd.value + 4..];
        if |tlsData| > 0 {
          var copied := Min(size, |tlsData|);
          readBuffer := tlsData[copied..];
          return Bytes(tlsData[..copied]);
        }
        o := conn.Read(size);
        return;
      }
    }
  }
}
