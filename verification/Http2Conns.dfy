/** The shared connections of transport/http2_transport.go, one per key. Every interleaving of
    RoundTrip calls with their retry, cleanup, Refresh and Close is a run of the machine below. */
module Http2Conns {

  import opened Sequences
  import opened Wrappers

  type Key = string
  type ConnId = nat
  type Time = int

  const MAX_IDLE_TIME: int := 90_000_000_000
  const MAX_CONN_AGE: int := 300_000_000_000

  /** `ready` when the connection has its protocol layer, as every one that was made has. */
  datatype Conn = Conn(createdAt: Time, lastUsedAt: Time, inFlight: int, useCount: nat, ready: bool)

  /** A RoundTrip call. `retry` tells its second connection from its first. */
  datatype Call =
    | Getting(key: Key, retry: bool)
    | Peeked(key: Key, retry: bool, found: Option<ConnId>)
    | Slow(key: Key, retry: bool)
    | Creating(key: Key, retry: bool)
    | Created(key: Key, retry: bool, conn: ConnId)
    | Got(key: Key, retry: bool, conn: ConnId)
    | Flying(key: Key, retry: bool, conn: ConnId)
    | Failed(key: Key, retry: bool)
    | Finished

  datatype State = State(conns: map<Key, ConnId>, info: map<ConnId, Conn>, calls: map<nat, Call>, next: ConnId,
                         now: Time, closed: bool, closing: set<ConnId>, shut: set<ConnId>)

  const Init := State(map[], map[], map[], 0, 0, false, {}, {})

  datatype Event =
    | Start(call: nat, key: Key)
    | Peek(call: nat)
    | CheckPeeked(call: nat)
    | CheckLocked(call: nat)
    | Dial(call: nat, ok: bool)
    | Insert(call: nat)
    | TakeOff(call: nat)
    | Land(call: nat, ok: bool)
    | RemoveConn(call: nat, cancelled: bool)
    | Cleanup
    | Refresh
    | Close
    | CloseConn(conn: ConnId)
    | Tick(elapsed: nat)

  function At(s: State, r: nat): Call {
    if r in s.calls then s.calls[r] else Finished
  }

  function InfoOf(s: State, c: ConnId): Conn {
    if c in s.info then s.info[c] else Conn(0, 0, 0, 0, true)
  }

  /** isConnUsable: young enough, busy or recently used, and with a protocol layer. */
  predicate Usable(s: State, c: ConnId) {
    && s.now - InfoOf(s, c).createdAt <= MAX_CONN_AGE
    && !(InfoOf(s, c).inFlight == 0 && s.now - InfoOf(s, c).lastUsedAt > MAX_IDLE_TIME)
    && InfoOf(s, c).ready
  }

  predicate HasUsable(s: State, key: Key) {
    key in s.conns && Usable(s, s.conns[key])
  }

  function Move(s: State, r: nat, call: Call): State {
    s.(calls := s.calls[r := call])
  }

  /** Takes the connection of `key`, if there is one, out of the map and has it closed. */
  function Drop(s: State, key: Key): State {
    if key in s.conns then s.(conns := s.conns - {key}, closing := s.closing + {s.conns[key]}) else s
  }

  function DoPeek(s: State, r: nat): Option<State> {
    var call := At(s, r);
    if !call.Getting? then None
    else if s.closed then Some(Move(s, r, Finished))
    else Some(Move(s, r, Peeked(call.key, call.retry, if call.key in s.conns then Some(s.conns[call.key]) else None)))
  }

  function DoCheckPeeked(s: State, r: nat): Option<State> {
    var call := At(s, r);
    if !call.Peeked? then None
    else if call.found.Some? && Usable(s, call.found.value) then Some(Move(s, r, Got(call.key, call.retry, call.found.value)))
    else Some(Move(s, r, Slow(call.key, call.retry)))
  }

  /** The second check, under the write lock; an unusable connection is replaced. */
  function DoCheckLocked(s: State, r: nat): Option<State> {
    var call := At(s, r);
    if !call.Slow? then None
    else if s.closed then Some(Move(s, r, Finished))
    else if HasUsable(s, call.key) then Some(Move(s, r, Got(call.key, call.retry, s.conns[call.key])))
    else Some(Move(Drop(s, call.key), r, Creating(call.key, call.retry)))
  }

  function DoDial(s: State, r: nat, ok: bool): Option<State> {
    var call := At(s, r);
    if !call.Creating? then None
    else if !ok then Some(Move(s, r, Finished))
    else Some(Move(s.(next := s.next + 1, info := s.info[s.next := Conn(s.now, s.now, 0, 0, true)]),
                   r, Created(call.key, call.retry, s.next)))
  }

  /** The third check: a connection made meanwhile by another call wins if it is usable. */
  function DoInsert(s: State, r: nat): Option<State> {
    var call := At(s, r);
    if !call.Created? then None
    else if s.closed then Some(Move(s.(closing := s.closing + {call.conn}), r, Finished))
    else if HasUsable(s, call.key) then
      Some(Move(s.(closing := s.closing + {call.conn}), r, Got(call.key, call.retry, s.conns[call.key])))
    else Some(Move(s.(conns := s.conns[call.key := call.conn]), r, Got(call.key, call.retry, call.conn)))
  }

  function DoTakeOff(s: State, r: nat): Option<State> {
    var call := At(s, r);
    if !call.Got? then None else
      var i := InfoOf(s, call.conn);
      var busy := i.(inFlight := i.inFlight + 1, lastUsedAt := if call.retry then i.lastUsedAt else s.now);
      Some(Move(s.(info := s.info[call.conn := busy]), r, Flying(call.key, call.retry, call.conn)))
  }

  function DoLand(s: State, r: nat, ok: bool): Option<State> {
    var call := At(s, r);
    if !call.Flying? then None else
      var i := InfoOf(s, call.conn);
      var less := i.(inFlight := i.inFlight - 1);
      var done := if ok then less.(lastUsedAt := s.now, useCount := i.useCount + 1) else less;
      Some(Move(s.(info := s.info[call.conn := done]), r, if ok then Finished else Failed(call.key, call.retry)))
  }

  /** After a failure whatever the key now names is dropped; only the first failure is retried. */
  function DoRemoveConn(s: State, r: nat, cancelled: bool): Option<State> {
    var call := At(s, r);
    if !call.Failed? then None
    else Some(Move(Drop(s, call.key), r, if call.retry || cancelled then Finished else Getting(call.key, true)))
  }

  function DropAll(s: State): State {
    s.(conns := map[], closing := s.closing + s.conns.Values)
  }

  function DoTransport(s: State, e: Event): Option<State> {
    match e
    case Cleanup =>
      Some(s.(conns := map k | k in s.conns && Usable(s, s.conns[k]) :: s.conns[k],
              closing := s.closing + set k | k in s.conns && !Usable(s, s.conns[k]) :: s.conns[k]))
    case Refresh => Some(if s.closed then s else DropAll(s))
    case Close => Some(if s.closed then s else DropAll(s).(closed := true))
    case CloseConn(c) =>
      if c in s.closing then Some(s.(closing := s.closing - {c}, shut := s.shut + {c})) else None
    case Tick(d) => Some(s.(now := s.now + d))
    case _ => None
  }

  /** One atomic step; `None` when the event cannot happen in this state. */
  function Next(s: State, e: Event): Option<State> {
    match e
    case Start(r, key) => if r in s.calls then None else Some(Move(s, r, if s.closed then Finished else Getting(key, false)))
    case Peek(r) => DoPeek(s, r)
    case CheckPeeked(r) => DoCheckPeeked(s, r)
    case CheckLocked(r) => DoCheckLocked(s, r)
    case Dial(r, ok) => DoDial(s, r, ok)
    case Insert(r) => DoInsert(s, r)
    case TakeOff(r) => DoTakeOff(s, r)
    case Land(r, ok) => DoLand(s, r, ok)
    case RemoveConn(r, cancelled) => DoRemoveConn(s, r, cancelled)
    case _ => DoTransport(s, e)
  }

  function Run(s: State, events: seq<Event>): Option<State>
    decreases |events|
  {
    if events == [] then Some(s) else
      var s' := Next(s, events[0]);
      if s'.None? then None else Run(s'.value, events[1..])
  }

  // ----- Counting -----

  function FlyingOn(calls: map<nat, Call>, c: ConnId): set<nat> {
    set r | r in calls && calls[r].Flying? && calls[r].conn == c
  }

  /** inFlight counts exactly the calls between their increment and their decrement, and no
      connection without a protocol layer is ever made. */
  ghost predicate Counted(s: State) {
    forall c: ConnId :: InfoOf(s, c).inFlight == |FlyingOn(s.calls, c)| && InfoOf(s, c).ready
  }

  /** Nothing names a connection that has not been made. */
  ghost predicate Bounded(s: State) {
    && (forall k :: k in s.conns ==> s.conns[k] < s.next)
    && (forall r :: r in s.calls && (s.calls[r].Created? || s.calls[r].Got? || s.calls[r].Flying?) ==> s.calls[r].conn < s.next)
    && (forall r :: r in s.calls && s.calls[r].Peeked? && s.calls[r].found.Some? ==> s.calls[r].found.value < s.next)
  }

  lemma OthersFlyOn(calls: map<nat, Call>, r: nat, call: Call, c: ConnId)
    ensures FlyingOn(calls[r := call], c) - {r} == FlyingOn(calls, c) - {r}
    ensures r in FlyingOn(calls[r := call], c) <==> call.Flying? && call.conn == c
  {}

  lemma MoveCounts(calls: map<nat, Call>, r: nat, call: Call, c: ConnId)
    ensures |FlyingOn(calls[r := call], c)|
         == |FlyingOn(calls, c)| - (if r in FlyingOn(calls, c) then 1 else 0) + (if call.Flying? && call.conn == c then 1 else 0)
  {
    var before, after := FlyingOn(calls, c), FlyingOn(calls[r := call], c);
    OthersFlyOn(calls, r, call, c);
    hide FlyingOn;
    SizeWithout(after, r);
    SizeWithout(before, r);
  }

  /** Call `r` neither takes off nor lands. */
  lemma QuietMoveCounts(s: State, s': State, r: nat)
    requires Counted(s) && s'.calls == s.calls[r := At(s', r)] && !At(s, r).Flying? && !At(s', r).Flying?
    requires forall c: ConnId :: InfoOf(s', c).inFlight == InfoOf(s, c).inFlight && InfoOf(s', c).ready == InfoOf(s, c).ready
    ensures Counted(s')
  {
    forall c: ConnId ensures InfoOf(s', c).inFlight == |FlyingOn(s'.calls, c)| && InfoOf(s', c).ready {
      MoveCounts(s.calls, r, At(s', r), c);
      assert InfoOf(s, c).inFlight == |FlyingOn(s.calls, c)|;
    }
  }

  lemma FlightCounts(s: State, s': State, r: nat, c: ConnId)
    requires Counted(s) && s'.calls == s.calls[r := At(s', r)] && At(s, r).Flying? != At(s', r).Flying?
    requires At(s, r).Flying? ==> At(s, r).conn == c && r in s.calls
    requires At(s', r).Flying? ==> At(s', r).conn == c
    requires InfoOf(s', c).inFlight == InfoOf(s, c).inFlight + if At(s', r).Flying? then 1 else -1
    requires InfoOf(s', c).ready == InfoOf(s, c).ready
    requires forall d: ConnId :: d != c ==> InfoOf(s', d) == InfoOf(s, d)
    ensures Counted(s')
  {
    forall d: ConnId ensures InfoOf(s', d).inFlight == |FlyingOn(s'.calls, d)| && InfoOf(s', d).ready {
      MoveCounts(s.calls, r, At(s', r), d);
      assert InfoOf(s, d).inFlight == |FlyingOn(s.calls, d)|;
    }
  }

  lemma DialCounts(s: State, r: nat, ok: bool)
    requires Counted(s) && Bounded(s) && DoDial(s, r, ok).Some?
    ensures Counted(DoDial(s, r, ok).value)
  {
    if ok {
      assert FlyingOn(s.calls, s.next) == {};
      assert InfoOf(s, s.next).inFlight == |FlyingOn(s.calls, s.next)|;
    }
    QuietMoveCounts(s, DoDial(s, r, ok).value, r);
  }

  lemma StepKeepsCounts(s: State, e: Event)
    requires Counted(s) && Bounded(s) && Next(s, e).Some?
    ensures Counted(Next(s, e).value)
  {
    hide Counted, Bounded, Usable;
    var s' := Next(s, e).value;
    match e
    case Start(r, _) => QuietMoveCounts(s, s', r);
    case Peek(r) => QuietMoveCounts(s, s', r);
    case CheckPeeked(r) => QuietMoveCounts(s, s', r);
    case CheckLocked(r) => QuietMoveCounts(s, s', r);
    case Dial(r, ok) => DialCounts(s, r, ok);
    case Insert(r) => QuietMoveCounts(s, s', r);
    case TakeOff(r) => FlightCounts(s, s', r, At(s, r).conn);
    case Land(r, _) => FlightCounts(s, s', r, At(s, r).conn);
    case RemoveConn(r, _) => QuietMoveCounts(s, s', r);
    case _ => OtherCounts(s, s');
  }

  lemma OtherCounts(s: State, s': State)
    requires Counted(s) && s'.calls == s.calls && s'.info == s.info
    ensures Counted(s')
  {
    forall c: ConnId ensures InfoOf(s', c).inFlight == |FlyingOn(s'.calls, c)| && InfoOf(s', c).ready {
      assert InfoOf(s, c).inFlight == |FlyingOn(s.calls, c)|;
    }
  }

  lemma TransportKeepsBounds(s: State, e: Event)
    requires Bounded(s) && DoTransport(s, e).Some?
    ensures Bounded(DoTransport(s, e).value)
  {
    hide Usable;
  }

  lemma StepKeepsBounds(s: State, e: Event)
    requires Bounded(s) && Next(s, e).Some?
    ensures Bounded(Next(s, e).value)
  {
    hide Usable, DoTransport;
    if DoTransport(s, e).Some? { TransportKeepsBounds(s, e); }
  }

  lemma {:induction false} RunKeepsCounts(s: State, events: seq<Event>)
    requires Counted(s) && Bounded(s) && Run(s, events).Some?
    ensures Counted(Run(s, events).value) && Bounded(Run(s, events).value)
    decreases |events|
  {
    if events != [] {
      StepKeepsCounts(s, events[0]);
      StepKeepsBounds(s, events[0]);
      hide Counted, Bounded;
      RunKeepsCounts(Next(s, events[0]).value, events[1..]);
    }
  }

  ghost predicate Reachable(s: State) {
    exists events :: Run(Init, events) == Some(s)
  }

  /** In every interleaving a connection's inFlight is the number of calls using it, so it is
      never negative, and a connection in use is rejected for its age only. */
  lemma InFlightIsExact(s: State, c: ConnId)
    requires Reachable(s)
    ensures InfoOf(s, c).inFlight == |FlyingOn(s.calls, c)| >= 0
    ensures FlyingOn(s.calls, c) != {} ==> (Usable(s, c) <==> s.now - InfoOf(s, c).createdAt <= MAX_CONN_AGE)
  {
    var events :| Run(Init, events) == Some(s);
    assert Counted(Init);
    RunKeepsCounts(Init, events);
  }

  // ----- Who is responsible for a connection -----

  datatype Place = InMap(key: Key) | MadeBy(call: nat) | Closing | Closed

  predicate Holds(s: State, p: Place, c: ConnId) {
    || (p.InMap? && p.key in s.conns && s.conns[p.key] == c)
    || (p.MadeBy? && p.call in s.calls && s.calls[p.call].Created? && s.calls[p.call].conn == c)
    || (p == Closing && c in s.closing)
    || (p == Closed && c in s.shut)
  }

  /** `loc` gives the place of every connection that has one; no connection has two. */
  ghost predicate Placed(s: State, loc: map<ConnId, Place>) {
    && (forall c: ConnId :: c in loc ==> c < s.next && Holds(s, loc[c], c))
    && (forall p: Place, c: ConnId :: Holds(s, p, c) ==> c in loc && loc[c] == p)
  }

  /** The step by which the transport forgets a connection without closing it: a call puts a
      new connection over one that has meanwhile become unusable. */
  predicate Leaks(s: State, e: Event, c: ConnId) {
    && e.Insert? && At(s, e.call).Created? && !s.closed
    && At(s, e.call).key in s.conns && s.conns[At(s, e.call).key] == c && !Usable(s, c)
  }

  lemma MoveOne(s: State, s': State, loc: map<ConnId, Place>, c: ConnId, p: Place)
    requires Placed(s, loc) && s.next <= s'.next && c < s'.next
    requires forall q, d :: Holds(s', q, d) <==> if d == c then q == p else Holds(s, q, d)
    ensures Placed(s', loc[c := p])
  {
    assert Holds(s', p, c);
  }

  lemma NoMove(s: State, s': State, loc: map<ConnId, Place>)
    requires Placed(s, loc) && s.next <= s'.next
    requires forall q, d :: Holds(s', q, d) <==> Holds(s, q, d)
    ensures Placed(s', loc)
  {}

  lemma DropPlaces(s: State, key: Key, loc: map<ConnId, Place>) returns (loc': map<ConnId, Place>)
    requires Placed(s, loc)
    ensures Placed(Drop(s, key), loc') && loc'.Keys == loc.Keys
  {
    var s' := Drop(s, key);
    if key !in s.conns { return loc; }
    var c, p := s.conns[key], Closing;
    assert Holds(s, InMap(key), c);
    forall q, d
      ensures Holds(s', q, d) <==> if d == c then q == p else Holds(s, q, d)
    {
      assert Holds(s, q, d) ==> d in loc && loc[d] == q;
    }
    MoveOne(s, s', loc, c, p);
    loc' := loc[c := p];
  }

  lemma DialPlaces(s: State, r: nat, ok: bool, loc: map<ConnId, Place>) returns (loc': map<ConnId, Place>)
    requires Placed(s, loc) && DoDial(s, r, ok).Some?
    ensures Placed(DoDial(s, r, ok).value, loc') && loc'.Keys == loc.Keys + if ok then {s.next} else {}
  {
    var s' := DoDial(s, r, ok).value;
    if !ok {
      NoMove(s, s', loc);
      return loc;
    }
    var c, p := s.next, MadeBy(r);
    forall q, d
      ensures Holds(s', q, d) <==> if d == c then q == p else Holds(s, q, d)
    {
      assert Holds(s, q, d) ==> d in loc && loc[d] == q;
    }
    MoveOne(s, s', loc, c, p);
    loc' := loc[c := p];
  }

  lemma InsertPlaces(s: State, r: nat, loc: map<ConnId, Place>) returns (loc': map<ConnId, Place>)
    requires Placed(s, loc) && DoInsert(s, r).Some?
    ensures Placed(DoInsert(s, r).value, loc')
    ensures forall c: ConnId :: c in loc' <==> c in loc && !Leaks(s, Insert(r), c)
  {
    hide Usable;
    var s', call := DoInsert(s, r).value, At(s, r);
    var c := call.conn;
    assert Holds(s, MadeBy(r), c);
    if s.closed || HasUsable(s, call.key) {
      var p := Closing;
      forall q, d
        ensures Holds(s', q, d) <==> if d == c then q == p else Holds(s, q, d)
      {
        assert Holds(s, q, d) ==> d in loc && loc[d] == q;
      }
      MoveOne(s, s', loc, c, p);
      return loc[c := p];
    }
    var lost := if call.key in s.conns then {s.conns[call.key]} else {};
    assert call.key in s.conns ==> Holds(s, InMap(call.key), s.conns[call.key]);
    loc' := (loc - lost)[c := InMap(call.key)];
    forall p, d | Holds(s', p, d)
      ensures d in loc' && loc'[d] == p
    {
      assert Holds(s, p, d) ==> d in loc && loc[d] == p;
    }
    forall d | d in loc'
      ensures Holds(s', loc'[d], d)
    {
      if d != c { assert Holds(s, loc[d], d); }
    }
  }

  lemma ManyClose(s: State, s': State, gone: set<ConnId>, loc: map<ConnId, Place>) returns (loc': map<ConnId, Place>)
    requires Placed(s, loc) && s'.next == s.next
    requires forall c :: c in gone ==> c in loc && loc[c].InMap?
    requires forall q, c :: Holds(s', q, c) <==> if c in gone then q == Closing else Holds(s, q, c)
    ensures Placed(s', loc') && loc'.Keys == loc.Keys
  {
    loc' := map c | c in loc :: if c in gone then Closing else loc[c];
    assert loc'.Keys == loc.Keys;
    forall c | c in loc'
      ensures Holds(s', loc'[c], c)
    {
      assert Holds(s, loc[c], c);
    }
  }

  lemma DropAllPlaces(s: State, s': State, loc: map<ConnId, Place>) returns (loc': map<ConnId, Place>)
    requires Placed(s, loc) && s'.conns == map[] && s'.closing == s.closing + s.conns.Values
    requires s'.calls == s.calls && s'.shut == s.shut && s'.next == s.next
    ensures Placed(s', loc') && loc'.Keys == loc.Keys
  {
    var gone := set c | c in loc && loc[c].InMap?;
    forall q, c
      ensures Holds(s', q, c) <==> if c in gone then q == Closing else Holds(s, q, c)
    {
      assert Holds(s, q, c) ==> c in loc && loc[c] == q;
      if c in gone { assert Holds(s, loc[c], c); }
      assert forall k :: k in s.conns && s.conns[k] == c ==> Holds(s, InMap(k), c);
    }
    loc' := ManyClose(s, s', gone, loc);
  }

  lemma CleanupPlaces(s: State, loc: map<ConnId, Place>) returns (loc': map<ConnId, Place>)
    requires Placed(s, loc)
    ensures Placed(DoTransport(s, Cleanup).value, loc') && loc'.Keys == loc.Keys
  {
    hide Usable;
    var s' := DoTransport(s, Cleanup).value;
    var gone := set c | c in loc && loc[c].InMap? && !Usable(s, c);
    forall q, c
      ensures Holds(s', q, c) <==> if c in gone then q == Closing else Holds(s, q, c)
    {
      assert Holds(s, q, c) ==> c in loc && loc[c] == q;
      if c in gone { assert Holds(s, loc[c], c); }
      assert forall k :: k in s.conns && s.conns[k] == c ==> Holds(s, InMap(k), c);
    }
    loc' := ManyClose(s, s', gone, loc);
  }

  /** A call moves on without making or handing over a connection. */
  lemma QuietMovePlaces(s: State, s': State, r: nat, loc: map<ConnId, Place>)
    requires Placed(s, loc) && s'.next == s.next && s'.conns == s.conns && s'.closing == s.closing && s'.shut == s.shut
    requires s'.calls == s.calls[r := At(s', r)] && !At(s, r).Created? && !At(s', r).Created?
    ensures Placed(s', loc)
  {
    NoMove(s, s', loc);
  }

  lemma CheckLockedPlaces(s: State, r: nat, loc: map<ConnId, Place>) returns (loc': map<ConnId, Place>)
    requires Placed(s, loc) && DoCheckLocked(s, r).Some?
    ensures Placed(DoCheckLocked(s, r).value, loc') && loc'.Keys == loc.Keys
  {
    hide Usable, Placed, Holds;
    var s' := DoCheckLocked(s, r).value;
    if !s.closed && !HasUsable(s, At(s, r).key) {
      loc' := DropPlaces(s, At(s, r).key, loc);
      QuietMovePlaces(Drop(s, At(s, r).key), s', r, loc');
    } else {
      QuietMovePlaces(s, s', r, loc);
      loc' := loc;
    }
  }

  lemma CloseConnPlaces(s: State, c: ConnId, loc: map<ConnId, Place>) returns (loc': map<ConnId, Place>)
    requires Placed(s, loc) && c in s.closing
    ensures Placed(DoTransport(s, CloseConn(c)).value, loc') && loc'.Keys == loc.Keys
  {
    var s', p := DoTransport(s, CloseConn(c)).value, Closed;
    assert Holds(s, Closing, c);
    forall q, d
      ensures Holds(s', q, d) <==> if d == c then q == p else Holds(s, q, d)
    {
      assert Holds(s, q, d) ==> d in loc && loc[d] == q;
    }
    MoveOne(s, s', loc, c, p);
    loc' := loc[c := p];
  }

  lemma PlacedAreMade(s: State, loc: map<ConnId, Place>)
    requires Placed(s, loc)
    ensures forall c: ConnId :: c in loc ==> c < s.next
  {}

  /** A step keeps every connection's place, except that it may lose the overwritten one, and
      it gives a new connection a place. */
  lemma StepPlaces(s: State, e: Event, loc: map<ConnId, Place>) returns (loc': map<ConnId, Place>)
    requires Placed(s, loc) && Next(s, e).Some?
    ensures Placed(Next(s, e).value, loc')
    ensures forall c: ConnId :: c in loc' <==> (c in loc && !Leaks(s, e, c)) || s.next <= c < Next(s, e).value.next
  {
    PlacedAreMade(s, loc);
    hide Usable, Placed, Holds;
    var s' := Next(s, e).value;
    loc' := loc;
    match e
    case Start(r, _) => QuietMovePlaces(s, s', r, loc);
    case Peek(r) => QuietMovePlaces(s, s', r, loc);
    case CheckPeeked(r) => QuietMovePlaces(s, s', r, loc);
    case CheckLocked(r) => loc' := CheckLockedPlaces(s, r, loc);
    case Dial(r, ok) => loc' := DialPlaces(s, r, ok, loc);
    case Insert(r) => loc' := InsertPlaces(s, r, loc);
    case TakeOff(r) => QuietMovePlaces(s, s', r, loc);
    case Land(r, _) => QuietMovePlaces(s, s', r, loc);
    case RemoveConn(r, _) =>
      loc' := DropPlaces(s, At(s, r).key, loc);
      QuietMovePlaces(Drop(s, At(s, r).key), s', r, loc');
    case Cleanup => loc' := CleanupPlaces(s, loc);
    case Refresh =>
      if !s.closed { loc' := DropAllPlaces(s, s', loc); }
    case Close =>
      if !s.closed { loc' := DropAllPlaces(s, s', loc); }
    case CloseConn(c) => loc' := CloseConnPlaces(s, c, loc);
    case Tick(_) => TickPlaces(s, s', loc);
  }

  lemma TickPlaces(s: State, s': State, loc: map<ConnId, Place>)
    requires Placed(s, loc) && s' == s.(now := s'.now)
    ensures Placed(s', loc)
  {
    NoMove(s, s', loc);
  }

  /** Some step of the run loses the connection. */
  predicate LeakedIn(s: State, events: seq<Event>, c: ConnId)
    decreases |events|
  {
    events != [] && (Leaks(s, events[0], c) || (Next(s, events[0]).Some? && LeakedIn(Next(s, events[0]).value, events[1..], c)))
  }

  lemma {:induction false} RunPlaces(s: State, events: seq<Event>, loc: map<ConnId, Place>) returns (loc': map<ConnId, Place>)
    requires Placed(s, loc) && Run(s, events).Some?
    ensures Placed(Run(s, events).value, loc') && s.next <= Run(s, events).value.next
    ensures forall c: ConnId :: c in loc' <==>
              (c in loc || s.next <= c < Run(s, events).value.next) && !LeakedIn(s, events, c)
    decreases |events|
  {
    loc' := loc;
    if events == [] {
      PlacedAreMade(s, loc);
    } else {
      var e := events[0];
      var loc1 := StepPlaces(s, e, loc);
      LeaksOnlyPlaced(s, e, loc);
      MadeStaysMade(s, e);
      hide Placed, Next, Leaks;
      loc' := RunPlaces(Next(s, e).value, events[1..], loc1);
    }
  }

  lemma LeaksOnlyPlaced(s: State, e: Event, loc: map<ConnId, Place>)
    requires Placed(s, loc)
    ensures forall c: ConnId :: Leaks(s, e, c) ==> c in loc && c < s.next
  {
    hide Usable;
    forall c: ConnId | Leaks(s, e, c) ensures c in loc && c < s.next {
      assert Holds(s, InMap(At(s, e.call).key), c);
    }
  }

  lemma MadeStaysMade(s: State, e: Event)
    requires Next(s, e).Some?
    ensures s.next <= Next(s, e).value.next
  {
    hide Usable;
  }

  lemma ReachableIsPlaced(s: State) returns (loc: map<ConnId, Place>)
    requires Reachable(s)
    ensures Placed(s, loc)
  {
    var events :| Run(Init, events) == Some(s);
    var none: map<ConnId, Place> := map[];
    assert forall p: Place, c: ConnId :: !Holds(Init, p, c);
    loc := RunPlaces(Init, events, none);
  }

  ghost predicate Held(s: State, c: ConnId) {
    exists p :: Holds(s, p, c)
  }

  /** A connection never has two places: it is not both shared and being closed, and no two
      keys or calls own it. */
  lemma AtMostOnePlace(s: State, c: ConnId, p: Place, q: Place)
    requires Reachable(s) && Holds(s, p, c) && Holds(s, q, c)
    ensures p == q
  {
    var loc := ReachableIsPlaced(s);
  }

  /** Overwriting an unusable connection is the one and only way to lose one: any other step
      leaves a connection in the map, with its maker, or on its way to being closed. */
  lemma LostIffOverwritten(s: State, e: Event, c: ConnId)
    requires Reachable(s) && Next(s, e).Some? && Held(s, c)
    ensures Held(Next(s, e).value, c) <==> !Leaks(s, e, c)
  {
    var loc := ReachableIsPlaced(s);
    var p :| Holds(s, p, c);
    var loc' := StepPlaces(s, e, loc);
    var s' := Next(s, e).value;
    hide Next, Leaks, Holds, Usable;
    if c in loc' {
      assert Holds(s', loc'[c], c);
    }
  }

  lemma HeldIffPlaced(s: State, loc: map<ConnId, Place>, c: ConnId)
    requires Placed(s, loc)
    ensures Held(s, c) <==> c in loc
  {
    if c in loc { assert Holds(s, loc[c], c); }
  }

  /** At the end of every run each connection ever made is still in the map, with its maker, or
      closing or closed, if and only if no step of the run overwrote it while unusable. */
  lemma HeldIffNeverOverwritten(events: seq<Event>, c: ConnId)
    requires Run(Init, events).Some? && c < Run(Init, events).value.next
    ensures Held(Run(Init, events).value, c) <==> !LeakedIn(Init, events, c)
  {
    var none: map<ConnId, Place> := map[];
    assert forall p: Place, c: ConnId :: !Holds(Init, p, c);
    var loc := RunPlaces(Init, events, none);
    HeldIffPlaced(Run(Init, events).value, loc, c);
  }

  /** A lost connection stays lost: no later event of any run closes it or shares it again. */
  lemma LostForever(s: State, events: seq<Event>, c: ConnId)
    requires Reachable(s) && c < s.next && !Held(s, c) && Run(s, events).Some?
    ensures !Held(Run(s, events).value, c)
  {
    var loc := ReachableIsPlaced(s);
    HeldIffPlaced(s, loc, c);
    var loc' := RunPlaces(s, events, loc);
    HeldIffPlaced(Run(s, events).value, loc', c);
  }

  /** After Close nothing is put into the map again. */
  lemma {:induction false} ClosedStaysEmpty(s: State, events: seq<Event>)
    requires s.closed && s.conns == map[] && Run(s, events).Some?
    ensures Run(s, events).value.closed && Run(s, events).value.conns == map[]
    decreases |events|
  {
    hide Usable;
    if events != [] {
      ClosedStaysEmpty(Next(s, events[0]).value, events[1..]);
    }
  }

  lemma {:induction false} RunSnoc(s: State, events: seq<Event>, e: Event)
    requires Run(s, events).Some?
    ensures Run(s, events + [e]) == Next(Run(s, events).value, e)
    decreases |events|
  {
    if events == [] {
      assert [] + [e] == [e];
    } else {
      assert (events + [e])[1..] == events[1..] + [e];
      hide Next;
      RunSnoc(Next(s, events[0]).value, events[1..], e);
    }
  }

  lemma Then(s: State, e: Event) returns (s': State)
    requires Reachable(s) && Next(s, e).Some?
    ensures Reachable(s') && Next(s, e) == Some(s')
  {
    var events :| Run(Init, events) == Some(s);
    RunSnoc(Init, events, e);
    s' := Next(s, e).value;
    assert Run(Init, events + [e]) == Some(s');
  }

  lemma SecondIsMade(s: State) returns (s': State)
    requires Reachable(s) && !s.closed && s.conns == map["k" := 0] && s.next == 1 && s.now == 0
    requires At(s, 1) == Creating("k", false) && InfoOf(s, 0) == Conn(0, 0, 0, 0, true)
    ensures Reachable(s') && !s'.closed && s'.conns == map["k" := 0] && !Usable(s', 0)
    ensures At(s', 1) == Created("k", false, 1)
  {
    var mid := Then(s, Tick(MAX_CONN_AGE + 1));
    s' := Then(mid, Dial(1, true));
  }

  /** The loss does happen: two calls dial for one key, the first connection is put into the
      map and grows too old while the second is still being made. */
  lemma OverwriteCanHappen() returns (s: State, e: Event, c: ConnId)
    ensures Reachable(s) && Next(s, e).Some? && Held(s, c) && Leaks(s, e, c)
  {
    assert Reachable(Init) by { assert Run(Init, []) == Some(Init); }
    hide Reachable, Run;
    var s0 := CallDials(Init, 0);
    var s1 := CallDials(s0, 1);
    var s2 := FirstInserts(s1);
    s := SecondIsMade(s2);
    e, c := Insert(1), 0;
    assert Holds(s, InMap("k"), c);
  }

  lemma FirstInserts(s: State) returns (s': State)
    requires Reachable(s) && !s.closed && s.conns == map[] && s.next == 0 && s.now == 0
    requires At(s, 0) == Creating("k", false) && At(s, 1) == Creating("k", false)
    ensures Reachable(s') && !s'.closed && s'.conns == map["k" := 0] && s'.next == 1 && s'.now == 0
    ensures At(s', 1) == Creating("k", false) && InfoOf(s', 0) == Conn(0, 0, 0, 0, true)
  {
    var mid := Then(s, Dial(0, true));
    s' := Then(mid, Insert(0));
  }

  /** A call on the key "k", with nothing in the map, up to its dial. */
  lemma CallDials(s: State, r: nat) returns (s': State)
    requires Reachable(s) && r !in s.calls && !s.closed && s.conns == map[]
    ensures Reachable(s') && s' == Move(s, r, Creating("k", false))
  {
    var a := Then(s, Start(r, "k"));
    var b := Then(a, Peek(r));
    var c := Then(b, CheckPeeked(r));
    s' := Then(c, CheckLocked(r));
    assert s'.calls == s.calls[r := Creating("k", false)];
  }

  // ----- Which connection a call gets -----

  /** At most 300 seconds old, in use or used within 90 seconds, and with a protocol layer. */
  lemma UsableMeans(s: State, c: ConnId)
    ensures Usable(s, c) <==>
              && s.now <= InfoOf(s, c).createdAt + 300_000_000_000 && InfoOf(s, c).ready
              && (InfoOf(s, c).inFlight != 0 || s.now <= InfoOf(s, c).lastUsedAt + 90_000_000_000)
  {}

  /** A connection handed out under the lock is the one that the map names for the call's key,
      and nobody has closed it: the one that was there if it was usable, else the new one. */
  lemma HandedOutIsShared(s: State, r: nat, e: Event)
    requires Reachable(s) && Next(s, e).Some? && (e == CheckLocked(r) || e == Insert(r)) && At(Next(s, e).value, r).Got?
    ensures var t, key, c := Next(s, e).value, At(s, r).key, At(Next(s, e).value, r).conn;
            && At(t, r).key == key && key in t.conns && t.conns[key] == c
            && c !in t.closing && c !in t.shut
            && (if key in s.conns && Usable(s, s.conns[key]) then c == s.conns[key] else e == Insert(r) && c == At(s, r).conn)
  {
    var loc := ReachableIsPlaced(s);
    var loc' := StepPlaces(s, e, loc);
    hide Usable;
    var t := Next(s, e).value;
    assert Holds(t, InMap(At(s, r).key), At(t, r).conn);
    assert !Holds(t, Closing, At(t, r).conn) && !Holds(t, Closed, At(t, r).conn);
  }

  /** Without the lock a call gets the connection it has seen in the map, if that is usable. */
  lemma PeekedIsUsable(s: State, r: nat)
    requires Next(s, CheckPeeked(r)).Some?
    ensures var t, call := Next(s, CheckPeeked(r)).value, At(s, r);
            if call.found.Some? && Usable(s, call.found.value) then At(t, r) == Got(call.key, call.retry, call.found.value)
            else At(t, r) == Slow(call.key, call.retry)
  {}

  /** A call whose slow path finds nothing usable dials, with nothing left under its key and
      what was there on its way to being closed. */
  lemma DialsOnlyWithoutUsable(s: State, r: nat)
    requires Next(s, CheckLocked(r)).Some? && At(Next(s, CheckLocked(r)).value, r).Creating?
    ensures var t, key := Next(s, CheckLocked(r)).value, At(s, r).key;
            && At(t, r).key == key && key !in t.conns
            && (key in s.conns ==> !Usable(s, s.conns[key]) && s.conns[key] in t.closing)
  {}

  /** A call goes on as RoundTrip does: it keeps its key, tries a second time exactly after a
      first failure that is not a cancellation, and ends without a response only when the
      transport is closed, a dial fails, or that second try fails. */
  lemma CallSteps(s: State, e: Event, r: nat)
    requires Next(s, e).Some? && r in s.calls && At(Next(s, e).value, r) != At(s, r)
    ensures var a, b := At(s, r), At(Next(s, e).value, r);
            && !a.Finished?
            && (!b.Finished? ==> b.key == a.key && b.retry == (a.retry || a.Failed?))
            && (a.Getting? ==> if s.closed then b.Finished?
                               else b == Peeked(a.key, a.retry, if a.key in s.conns then Some(s.conns[a.key]) else None))
            && (a.Peeked? ==> b.Got? || b.Slow?)
            && (a.Slow? ==> if s.closed then b.Finished? else b.Got? || b.Creating?)
            && (a.Creating? ==> if e == Dial(r, true) then b.Created? && b.conn == s.next else b.Finished? && e == Dial(r, false))
            && (a.Created? ==> if s.closed then b.Finished? && a.conn in Next(s, e).value.closing else b.Got?)
            && (a.Got? ==> b == Flying(a.key, a.retry, a.conn))
            && (a.Flying? ==> if e == Land(r, true) then b.Finished? else b.Failed? && e == Land(r, false))
            && (a.Failed? ==> if e == RemoveConn(r, false) && !a.retry then b.Getting? else b.Finished?)
  {
    hide Usable;
  }

  lemma CallStarts(s: State, r: nat, key: Key)
    requires r !in s.calls
    ensures Next(s, Start(r, key)).Some?
    ensures At(Next(s, Start(r, key)).value, r) == if s.closed then Finished else Getting(key, false)
  {}

  /** A response or a first take-off restarts the idle clock, and only a response counts as use. */
  lemma UseIsRecorded(s: State, e: Event, r: nat)
    requires Next(s, e).Some?
    requires (At(s, r).Got? && e == TakeOff(r)) || (At(s, r).Flying? && (e == Land(r, true) || e == Land(r, false)))
    ensures var i, j := InfoOf(s, At(s, r).conn), InfoOf(Next(s, e).value, At(s, r).conn);
            && j.createdAt == i.createdAt && j.ready == i.ready
            && j.lastUsedAt == (if e == Land(r, true) || (e == TakeOff(r) && !At(s, r).retry) then s.now else i.lastUsedAt)
            && j.useCount == i.useCount + (if e == Land(r, true) then 1 else 0)
  {}

  /** A failure drops whatever its key names; Refresh and Close drop everything; cleanup drops
      exactly the unusable. What is dropped goes to be closed. */
  lemma DropsAreExact(s: State, e: Event, k: Key)
    requires Next(s, e).Some? && k in s.conns
    requires e.RemoveConn? || e.Cleanup? || ((e.Refresh? || e.Close?) && !s.closed)
    ensures var t := Next(s, e).value;
            var stays := match e case RemoveConn(r, _) => k != At(s, r).key case Cleanup => Usable(s, s.conns[k]) case _ => false;
            if stays then k in t.conns && t.conns[k] == s.conns[k] else k !in t.conns && s.conns[k] in t.closing
  {
    hide Usable;
  }

  // ----- One key per connection -----

  predicate Names(call: Call, c: ConnId) {
    || (call.Peeked? && call.found == Some(c))
    || ((call.Created? || call.Got? || call.Flying?) && call.conn == c)
  }

  /** Whoever has `c` has it under the key `k`. */
  ghost predicate KeyedBy(s: State, c: ConnId, k: Key) {
    && (forall j :: j in s.conns && s.conns[j] == c ==> j == k)
    && (forall r :: r in s.calls && Names(s.calls[r], c) ==> s.calls[r].key == k)
  }

  lemma StepKeepsKey(s: State, e: Event, c: ConnId, k: Key)
    requires Next(s, e).Some? && KeyedBy(s, c, k) && c < s.next
    ensures KeyedBy(Next(s, e).value, c, k) && s.next <= Next(s, e).value.next
  {
    hide Usable;
  }

  lemma {:induction false} RunKeepsKey(s: State, events: seq<Event>, c: ConnId, k: Key)
    requires Run(s, events).Some? && KeyedBy(s, c, k) && c < s.next
    ensures KeyedBy(Run(s, events).value, c, k)
    decreases |events|
  {
    if events != [] {
      StepKeepsKey(s, events[0], c, k);
      hide KeyedBy, Next;
      RunKeepsKey(Next(s, events[0]).value, events[1..], c, k);
    }
  }

  /** A connection dialed for a host serves calls to that host only, in every run. */
  lemma NeverUsedForAnotherHost(s: State, r: nat, events: seq<Event>)
    requires Bounded(s) && Next(s, Dial(r, true)).Some? && Run(Next(s, Dial(r, true)).value, events).Some?
    ensures KeyedBy(Run(Next(s, Dial(r, true)).value, events).value, s.next, At(s, r).key)
  {
    RunKeepsKey(Next(s, Dial(r, true)).value, events, s.next, At(s, r).key);
  }

  // ----- The transport's own methods -----

  /** Cleanup so far, with only the keys of `done` visited. */
  function CleanKeys(s: State, done: set<Key>): State {
    s.(conns := map k | k in s.conns && (k in done ==> Usable(s, s.conns[k])) :: s.conns[k],
       closing := s.closing + set k | k in s.conns && k in done && !Usable(s, s.conns[k]) :: s.conns[k])
  }

  lemma CleanEvery(s: State)
    ensures Some(CleanKeys(s, s.conns.Keys)) == DoTransport(s, Cleanup)
  {
    hide Usable;
    var clean := DoTransport(s, Cleanup).value;
    assert CleanKeys(s, s.conns.Keys).conns == clean.conns;
    assert CleanKeys(s, s.conns.Keys).closing == clean.closing;
  }

  lemma CleanOneMore(s: State, done: set<Key>, key: Key)
    requires key in s.conns && key !in done
    ensures var part, next := CleanKeys(s, done), CleanKeys(s, done + {key});
            && key in part.conns && part.conns[key] == s.conns[key]
            && next == if Usable(s, s.conns[key]) then part
                       else part.(conns := part.conns - {key}, closing := part.closing + {s.conns[key]})
  {
    hide Usable;
    var part, next := CleanKeys(s, done), CleanKeys(s, done + {key});
    var used := Usable(s, s.conns[key]);
    assert next.conns == if used then part.conns else part.conns - {key};
    assert next.closing == if used then part.closing else part.closing + {s.conns[key]};
  }

  lemma OneCall(before: Call)
    ensures forall after: Call :: map[0 := before][0 := after] == map[0 := after]
  {}

  /** Each method is one critical section of one call, number 0 here; its postcondition is the
      corresponding step of the machine. */
  class Http2Transport {
    var conns: map<Key, ConnId>
    var info: map<ConnId, Conn>
    var closing: set<ConnId>
    var closed: bool

    constructor ()
      ensures View(0, Finished) == Init.(calls := map[0 := Finished])
    {
      conns, info, closing, closed := map[], map[], {}, false;
    }

    /** The state as a call at the point `call` sees it. */
    ghost function View(now: Time, call: Call): State
      reads this
    {
      State(conns, info, map[0 := call], 0, now, closed, closing, {})
    }

    method IsConnUsable(c: ConnId, now: Time) returns (usable: bool)
      ensures usable == Usable(View(now, Finished), c)
      ensures var i := InfoOf(View(now, Finished), c);
              usable <==> now <= i.createdAt + 300_000_000_000 && i.ready
                          && (i.inFlight != 0 || now <= i.lastUsedAt + 90_000_000_000)
    {
      var conn := if c in info then info[c] else Conn(0, 0, 0, 0, true);
      if now - conn.createdAt > MAX_CONN_AGE { return false; }
      if conn.inFlight == 0 && now - conn.lastUsedAt > MAX_IDLE_TIME { return false; }
      if !conn.ready { return false; }
      return true;
    }

    /** The second check of getOrCreateConn; `next` is where the call goes on. */
    method CheckLocked(key: Key, retry: bool, now: Time) returns (next: Call)
      modifies this
      ensures DoCheckLocked(old(View(now, Slow(key, retry))), 0) == Some(View(now, next))
    {
      OneCall(Slow(key, retry));
      if closed { return Finished; }
      if key in conns {
        var usable := IsConnUsable(conns[key], now);
        if usable {
          return Got(key, retry, conns[key]);
        }
        closing := closing + {conns[key]};
        conns := conns - {key};
      }
      return Creating(key, retry);
    }

    /** The third check, with the new connection at hand. */
    method InsertConn(key: Key, retry: bool, newConn: ConnId, now: Time) returns (next: Call)
      modifies this
      ensures DoInsert(old(View(now, Created(key, retry, newConn))), 0) == Some(View(now, next))
    {
      OneCall(Created(key, retry, newConn));
      if closed {
        closing := closing + {newConn};
        return Finished;
      }
      if key in conns {
        var usable := IsConnUsable(conns[key], now);
        if usable {
          closing := closing + {newConn};
          return Got(key, retry, conns[key]);
        }
      }
      conns := conns[key := newConn];
      return Got(key, retry, newConn);
    }

    method BeginUse(key: Key, retry: bool, c: ConnId, now: Time)
      modifies this`info
      ensures DoTakeOff(old(View(now, Got(key, retry, c))), 0) == Some(View(now, Flying(key, retry, c)))
    {
      OneCall(Got(key, retry, c));
      var conn := if c in info then info[c] else Conn(0, 0, 0, 0, true);
      if !retry { conn := conn.(lastUsedAt := now); }
      info := info[c := conn.(inFlight := conn.inFlight + 1)];
    }

    method EndUse(key: Key, retry: bool, c: ConnId, ok: bool, now: Time)
      modifies this`info
      ensures DoLand(old(View(now, Flying(key, retry, c))), 0, ok)
           == Some(View(now, if ok then Finished else Failed(key, retry)))
    {
      OneCall(Flying(key, retry, c));
      var conn := if c in info then info[c] else Conn(0, 0, 0, 0, true);
      conn := conn.(inFlight := conn.inFlight - 1);
      if ok { conn := conn.(lastUsedAt := now, useCount := conn.useCount + 1); }
      info := info[c := conn];
    }

    method RemoveConn(key: Key, now: Time)
      modifies this
      ensures View(now, Finished) == Drop(old(View(now, Finished)), key)
    {
      if key in conns {
        closing := closing + {conns[key]};
        conns := conns - {key};
      }
    }

    method Cleanup(now: Time)
      modifies this
      ensures Some(View(now, Finished)) == DoTransport(old(View(now, Finished)), Event.Cleanup)
    {
      ghost var s, done := View(now, Finished), {};
      var todo := conns.Keys;
      assert CleanKeys(s, {}).conns == s.conns;
      while todo != {}
        invariant done + todo == s.conns.Keys && done !! todo
        invariant View(now, Finished) == CleanKeys(s, done)
        decreases todo
      {
        var key :| key in todo;
        CleanOneMore(s, done, key);
        var usable := IsConnUsable(conns[key], now);
        if !usable {
          closing := closing + {conns[key]};
          conns := conns - {key};
        }
        todo, done := todo - {key}, done + {key};
      }
      assert done == s.conns.Keys;
      CleanEvery(s);
    }

    method Close(now: Time)
      modifies this
      ensures Some(View(now, Finished)) == DoTransport(old(View(now, Finished)), Event.Close)
    {
      if closed { return; }
      closed := true;
      CloseAll(now);
    }

    method Refresh(now: Time)
      modifies this
      ensures Some(View(now, Finished)) == DoTransport(old(View(now, Finished)), Event.Refresh)
    {
      if closed { return; }
      CloseAll(now);
    }

    method CloseAll(now: Time)
      modifies this
      ensures View(now, Finished) == DropAll(old(View(now, Finished)))
    {
      ghost var was := closing;
      var todo := conns.Keys;
      while todo != {}
        invariant todo <= conns.Keys && conns == old(conns) && info == old(info) && closed == old(closed)
        invariant closing == was + set k | k in conns && k !in todo :: conns[k]
        decreases todo
      {
        var key :| key in todo;
        closing := closing + {conns[key]};
        todo := todo - {key};
      }
      assert closing == was + conns.Values;
      conns := map[];
    }
  }
}
