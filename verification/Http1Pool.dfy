/** The HTTP/1 idle-connection pool of transport/http1_transport.go: the critical sections
    under `idleConnsMu` as functions over `Pool`, and every interleaving of them over `State`. */
module Http1Pool {

  import opened Sequences
  import opened Wrappers

  type Key = string
  type ConnId = nat
  type Time = int

  const MAX_IDLE_PER_HOST: nat := 6
  const MAX_IDLE_TIME: int := 90_000_000_000

  /** What the transport and its connections remember: the idle lists, whether the
      map of lists is nil, and which connections have a close pending or done. */
  datatype Pool = Pool(idle: map<Key, seq<ConnId>>, isNil: bool, lastUsed: map<ConnId, Time>,
                       closing: set<ConnId>, shut: set<ConnId>)

  function IdleList(p: Pool, key: Key): seq<ConnId> {
    if key in p.idle then p.idle[key] else []
  }

  function UsedAt(p: Pool, c: ConnId): Time {
    if c in p.lastUsed then p.lastUsed[c] else 0
  }

  predicate Expired(p: Pool, c: ConnId, now: Time) {
    now - UsedAt(p, c) > MAX_IDLE_TIME
  }

  // ----- Critical sections -----

  /** Pops the newest idle connection; an expired one is closed and not returned. */
  function TakeIdle(p: Pool, key: Key, now: Time): (Pool, Option<ConnId>) {
    var conns := IdleList(p, key);
    if conns == [] then (p, None) else
      var c := conns[|conns| - 1];
      var popped := p.(idle := p.idle[key := conns[..|conns| - 1]]);
      if Expired(p, c, now) then (popped.(shut := p.shut + {c}), None) else (popped, Some(c))
  }

  /** Appends a connection, first dropping the head of a full list. */
  function PutIdle(p: Pool, key: Key, c: ConnId, now: Time): Pool {
    var conns := IdleList(p, key);
    var full := |conns| >= MAX_IDLE_PER_HOST;
    p.(idle := p.idle[key := (if full then conns[1..] else conns) + [c]],
       closing := if full then p.closing + {conns[0]} else p.closing,
       lastUsed := p.lastUsed[c := now])
  }

  function Live(p: Pool, conns: seq<ConnId>, now: Time): seq<ConnId> {
    if conns == [] then [] else
      Live(p, conns[..|conns| - 1], now) + if Expired(p, conns[|conns| - 1], now) then [] else [conns[|conns| - 1]]
  }

  function Dead(p: Pool, conns: seq<ConnId>, now: Time): set<ConnId> {
    set c | c in conns && Expired(p, c, now)
  }

  /** Drops every expired idle connection and every list this leaves empty. */
  function Sweep(p: Pool, now: Time): Pool {
    p.(idle := map k | k in p.idle && Live(p, p.idle[k], now) != [] :: Live(p, p.idle[k], now),
       closing := p.closing + set k, c | k in p.idle && c in Dead(p, p.idle[k], now) :: c)
  }

  /** Hands every idle connection to a closer and replaces the map. */
  function Drain(p: Pool, nil: bool): Pool {
    p.(idle := map[], isNil := nil, closing := p.closing + set k, c | k in p.idle && c in p.idle[k] :: c)
  }

  // ----- Interleavings -----

  /** A RoundTrip call, from its check of the closed flag to the release of its body.
      Beyond `Reading`, the body's `sync.Once` has started: it waits for the pool's
      mutex, or holds it after having seen the transport open. */
  datatype Call =
    | Started(key: Key)
    | HoldsIdle(key: Key, conn: ConnId)
    | Creating(key: Key)
    | HoldsNew(key: Key, conn: ConnId)
    | Reading(key: Key, conn: ConnId, keepAlive: bool)
    | Waiting(key: Key, conn: ConnId)
    | Checked(key: Key, conn: ConnId)
    | Finished
  {
    predicate Owns() { HoldsIdle? || HoldsNew? || Reading? || Waiting? || Checked? }
    predicate IsBody() { Reading? || Waiting? || Checked? }
  }

  datatype State = State(pool: Pool, calls: map<nat, Call>, next: ConnId, now: Time,
                         closed: bool, drained: bool, refreshers: nat, lock: Option<nat>, panicked: bool)

  const Init := State(Pool(map[], false, map[], {}, {}), map[], 0, 0, false, false, 0, None, false)

  datatype Event =
    | Start(call: nat, key: Key)
    | LookUp(call: nat)
    | Exchange(call: nat, ok: bool, keepAlive: bool)
    | Dial(call: nat, ok: bool)
    | BodyEof(call: nat)
    | BodyClose(call: nat, failed: bool)
    | PutCheck(call: nat)
    | PutInsert(call: nat)
    | Cleanup
    | CloseBegin
    | CloseDrain
    | RefreshCheck
    | RefreshDrain
    | SetProxy
    | CloseConn(conn: ConnId)
    | Tick(elapsed: nat)

  function At(s: State, r: nat): Call {
    if r in s.calls then s.calls[r] else Finished
  }

  /** The synchronous close of the connection that a call owns. */
  function ShutOwned(s: State, r: nat, then_: Call): State
    requires At(s, r).Owns()
  {
    s.(pool := s.pool.(shut := s.pool.shut + {At(s, r).conn}), calls := s.calls[r := then_])
  }

  function DoLookUp(s: State, r: nat): Option<State> {
    if !At(s, r).Started? || s.lock.Some? then None else
      var key := At(s, r).key;
      var (pool, found) := TakeIdle(s.pool, key, s.now);
      Some(s.(pool := pool,
              panicked := s.panicked || (s.pool.isNil && IdleList(s.pool, key) != []),
              calls := s.calls[r := if found.Some? then HoldsIdle(key, found.value) else Creating(key)]))
  }

  /** doRequest refuses a closed connection before it touches the wire; a failed exchange
      on an idle connection is repeated on a new one. */
  function DoExchange(s: State, r: nat, ok: bool, keepAlive: bool): Option<State> {
    var call := At(s, r);
    if !call.HoldsIdle? && !call.HoldsNew? then None else
      var used := s.(pool := s.pool.(lastUsed := s.pool.lastUsed[call.conn := s.now]));
      if ok && call.conn !in s.pool.shut then
        Some(used.(calls := s.calls[r := Reading(call.key, call.conn, keepAlive)]))
      else
        Some(ShutOwned(used, r, if call.HoldsIdle? then Creating(call.key) else Finished))
  }

  function DoDial(s: State, r: nat, ok: bool): Option<State> {
    if !At(s, r).Creating? then None
    else if !ok then Some(s.(calls := s.calls[r := Finished]))
    else Some(s.(calls := s.calls[r := HoldsNew(At(s, r).key, s.next)], next := s.next + 1,
                 pool := s.pool.(lastUsed := s.pool.lastUsed[s.next := s.now])))
  }

  /** EOF or Close on a body: the first one releases the connection, later ones do nothing. */
  function DoRelease(s: State, r: nat, failed: bool): Option<State> {
    var call := At(s, r);
    if r !in s.calls then None
    else if !call.Reading? then Some(s)
    else if failed || !call.keepAlive then Some(ShutOwned(s, r, Finished))
    else Some(s.(calls := s.calls[r := Waiting(call.key, call.conn)]))
  }

  function DoPutCheck(s: State, r: nat): Option<State> {
    var call := At(s, r);
    if !call.Waiting? || s.lock.Some? then None
    else if s.closed then Some(ShutOwned(s, r, Finished))
    else Some(s.(lock := Some(r), calls := s.calls[r := Checked(call.key, call.conn)]))
  }

  function DoPutInsert(s: State, r: nat): Option<State> {
    var call := At(s, r);
    if !call.Checked? || s.lock != Some(r) then None
    else Some(s.(pool := PutIdle(s.pool, call.key, call.conn, s.now), lock := None,
                 panicked := s.panicked || s.pool.isNil, calls := s.calls[r := Finished]))
  }

  function DoPool(s: State, e: Event): Option<State> {
    match e
    case Cleanup =>
      if s.lock.Some? then None else Some(s.(pool := Sweep(s.pool, s.now)))
    case CloseBegin =>
      Some(s.(closed := true))
    case CloseDrain =>
      if !s.closed || s.drained || s.lock.Some? then None
      else Some(s.(pool := Drain(s.pool, true), drained := true))
    case RefreshCheck =>
      Some(if s.closed then s else s.(refreshers := s.refreshers + 1))
    case RefreshDrain =>
      if s.refreshers == 0 || s.lock.Some? then None
      else Some(s.(pool := Drain(s.pool, false), refreshers := s.refreshers - 1))
    case SetProxy =>
      if s.lock.Some? then None else Some(s.(pool := Drain(s.pool, false)))
    case CloseConn(c) =>
      if c !in s.pool.closing then None
      else Some(s.(pool := s.pool.(closing := s.pool.closing - {c}, shut := s.pool.shut + {c})))
    case Tick(d) =>
      Some(s.(now := s.now + d))
    case _ => None
  }

  /** One atomic step; `None` when the event cannot happen in this state. */
  function Next(s: State, e: Event): Option<State> {
    match e
    case Start(r, key) =>
      if r in s.calls then None
      else Some(s.(calls := s.calls[r := if s.closed then Finished else Started(key)]))
    case LookUp(r) => DoLookUp(s, r)
    case Exchange(r, ok, keepAlive) => DoExchange(s, r, ok, keepAlive)
    case Dial(r, ok) => DoDial(s, r, ok)
    case BodyEof(r) => DoRelease(s, r, false)
    case BodyClose(r, failed) => DoRelease(s, r, failed)
    case PutCheck(r) => DoPutCheck(s, r)
    case PutInsert(r) => DoPutInsert(s, r)
    case _ => DoPool(s, e)
  }

  /** The state a finite run of events leads to. */
  function Run(s: State, events: seq<Event>): Option<State>
    decreases |events|
  {
    if events == [] then Some(s) else
      var s' := Next(s, events[0]);
      if s'.None? then None else Run(s'.value, events[1..])
  }

  // ----- Where a connection is -----

  datatype Place = Idle(key: Key) | InCall(call: nat) | Closing | Closed

  predicate Holds(s: State, p: Place, c: ConnId) {
    || (p.Idle? && p.key in s.pool.idle && c in s.pool.idle[p.key])
    || (p.InCall? && p.call in s.calls && s.calls[p.call].Owns() && s.calls[p.call].conn == c)
    || (p == Closing && c in s.pool.closing)
    || (p == Closed && c in s.pool.shut)
  }

  /** `loc` names the one place of every connection ever created, and nothing else is held anywhere. */
  ghost predicate Placed(s: State, loc: map<ConnId, Place>) {
    && (forall c: ConnId :: c in loc <==> c < s.next)
    && (forall c :: c in loc ==> Holds(s, loc[c], c))
    && (forall p, c :: Holds(s, p, c) ==> c in loc && loc[c] == p)
  }

  /** An idle list is short, repeats nothing and runs from least to most recently used. */
  predicate GoodList(p: Pool, conns: seq<ConnId>, now: Time) {
    && |conns| <= MAX_IDLE_PER_HOST
    && Distinct(conns)
    && (forall i, j :: 0 <= i < j < |conns| ==> UsedAt(p, conns[i]) <= UsedAt(p, conns[j]))
    && (forall i :: 0 <= i < |conns| ==> UsedAt(p, conns[i]) <= now)
  }

  ghost predicate GoodLists(s: State) {
    forall k :: k in s.pool.idle ==> GoodList(s.pool, s.pool.idle[k], s.now)
  }

  /** Close's flags and the mutex agree: a put that saw the transport open finishes
      before the drain, and nothing is pooled after it. */
  ghost predicate GoodFlags(s: State) {
    && !s.panicked
    && (s.drained ==> s.closed && s.pool.idle == map[] && s.lock.None?)
    && (s.pool.isNil ==> s.drained)
    && (forall r :: r in s.calls && s.calls[r].Checked? ==> s.lock == Some(r))
  }

  ghost predicate Inv(s: State) {
    GoodLists(s) && GoodFlags(s) && exists loc :: Placed(s, loc)
  }

  // ----- Whole runs -----

  lemma StepKeepsInv(s: State, e: Event)
    requires Inv(s) && Next(s, e).Some?
    ensures Inv(Next(s, e).value)
  {
    var loc :| Placed(s, loc);
    StepKeepsFlags(s, e);
    StepKeepsLists(s, e, loc);
    var loc' := StepKeepsPlaces(s, e, loc);
  }

  lemma {:induction false} RunKeepsInv(s: State, events: seq<Event>)
    requires Inv(s) && Run(s, events).Some?
    ensures Inv(Run(s, events).value)
    decreases |events|
  {
    if events != [] {
      StepKeepsInv(s, events[0]);
      RunKeepsInv(Next(s, events[0]).value, events[1..]);
    }
  }

  predicate Reaches(events: seq<Event>, s: State) {
    Run(Init, events) == Some(s)
  }

  ghost predicate Reachable(s: State) {
    exists events :: Reaches(events, s)
  }

  lemma ReachableIsGood(s: State)
    requires Reachable(s)
    ensures Inv(s)
  {
    var events :| Reaches(events, s);
    var none: map<ConnId, Place> := map[];
    assert forall p, c :: !Holds(Init, p, c);
    assert Placed(Init, none);
    RunKeepsInv(Init, events);
  }

  /** An exact position: an index of an idle list, a call or body, a pending close, or closed. */
  datatype Slot = IdleSlot(key: Key, index: nat) | CallSlot(call: nat) | ClosingSlot | ClosedSlot

  predicate Occupies(s: State, slot: Slot, c: ConnId) {
    || (slot.IdleSlot? && slot.key in s.pool.idle && slot.index < |s.pool.idle[slot.key]|
        && s.pool.idle[slot.key][slot.index] == c)
    || (slot.CallSlot? && slot.call in s.calls && s.calls[slot.call].Owns() && s.calls[slot.call].conn == c)
    || (slot == ClosingSlot && c in s.pool.closing)
    || (slot == ClosedSlot && c in s.pool.shut)
  }

  function PlaceOf(slot: Slot): Place {
    match slot
    case IdleSlot(k, _) => Idle(k)
    case CallSlot(r) => InCall(r)
    case ClosingSlot => Closing
    case ClosedSlot => Closed
  }

  /** In every interleaving each connection ever created is in exactly one slot: none is
      lost, shared between two users, or used after its close. */
  lemma ExactlyOneSlot(s: State, c: ConnId) returns (slot: Slot)
    requires Reachable(s) && c < s.next
    ensures Occupies(s, slot, c)
    ensures forall other :: Occupies(s, other, c) ==> other == slot
  {
    ReachableIsGood(s);
    var loc :| Placed(s, loc);
    assert Holds(s, loc[c], c);
    match loc[c] {
      case Idle(k) =>
        var i :| 0 <= i < |s.pool.idle[k]| && s.pool.idle[k][i] == c;
        slot := IdleSlot(k, i);
        assert GoodList(s.pool, s.pool.idle[k], s.now);
      case InCall(r) => slot := CallSlot(r);
      case Closing => slot := ClosingSlot;
      case Closed => slot := ClosedSlot;
    }
    forall other | Occupies(s, other, c)
      ensures other == slot
    {
      assert Holds(s, PlaceOf(other), c);
    }
  }

  lemma {:induction false} DrainedIsForever(s: State, events: seq<Event>)
    requires s.drained && Run(s, events).Some?
    ensures Run(s, events).value.drained
    decreases |events|
  {
    if events != [] {
      DrainedIsForever(Next(s, events[0]).value, events[1..]);
    }
  }

  lemma {:induction false} RunConcat(s: State, a: seq<Event>, b: seq<Event>)
    ensures Run(s, a + b) == if Run(s, a).None? then None else Run(Run(s, a).value, b)
    decreases |a|
  {
    if a == [] {
      assert a + b == b;
    } else {
      assert (a + b)[0] == a[0] && (a + b)[1..] == a[1..] + b;
      if Next(s, a[0]).Some? { RunConcat(Next(s, a[0]).value, a[1..], b); }
    }
  }

  /** Once Close has drained the pool, no later event pools a connection or writes into the nil map. */
  lemma NothingPooledAfterClose(before: seq<Event>, after: seq<Event>)
    requires Run(Init, before + [CloseDrain] + after).Some?
    ensures var s := Run(Init, before + [CloseDrain] + after).value;
            s.closed && s.pool.idle == map[] && !s.panicked
  {
    var upto := before + [CloseDrain];
    RunConcat(Init, upto, after);
    RunConcat(Init, before, [CloseDrain]);
    var s0 := Run(Init, before).value;
    assert Run(s0, [CloseDrain]) == Run(Next(s0, CloseDrain).value, []);
    DrainedIsForever(Run(Init, upto).value, after);
    assert Reaches(upto + after, Run(Init, upto + after).value);
    ReachableIsGood(Run(Init, upto + after).value);
  }

  /** How often a run takes call `r` from holding a response body to being finished. */
  function Releases(s: State, events: seq<Event>, r: nat): nat
    requires Run(s, events).Some?
    decreases |events|
  {
    if events == [] then 0 else
      var s' := Next(s, events[0]).value;
      (if At(s, r).IsBody() && !At(s', r).IsBody() then 1 else 0) + Releases(s', events[1..], r)
  }

  lemma ReleaseEndsTheCall(s: State, e: Event, r: nat)
    requires Next(s, e).Some?
    ensures r in s.calls && s.calls[r].Finished? ==> r in Next(s, e).value.calls && At(Next(s, e).value, r).Finished?
    ensures At(s, r).IsBody() && !At(Next(s, e).value, r).IsBody() ==>
              r in Next(s, e).value.calls && At(Next(s, e).value, r).Finished?
  {}

  /** EOF and Close in any number and order release a body's connection at most once. */
  lemma {:induction false} BodyReleasesOnce(s: State, events: seq<Event>, r: nat)
    requires Run(s, events).Some?
    ensures Releases(s, events, r) <= 1
    ensures r in s.calls && s.calls[r].Finished? ==> Releases(s, events, r) == 0
    decreases |events|
  {
    if events != [] {
      var s' := Next(s, events[0]).value;
      ReleaseEndsTheCall(s, events[0], r);
      BodyReleasesOnce(s', events[1..], r);
    }
  }

  /** A miss on a non-empty list means that the whole list had expired. */
  lemma MissMeansAllExpired(s: State, key: Key)
    requires Reachable(s) && TakeIdle(s.pool, key, s.now).1.None?
    ensures forall c :: c in IdleList(s.pool, key) ==> Expired(s.pool, c, s.now)
  {
    ReachableIsGood(s);
    var conns := IdleList(s.pool, key);
    if conns != [] {
      assert GoodList(s.pool, conns, s.now);
    }
  }

  /** A put closes something only from a full list, and then the least recently used connection. */
  lemma OverflowDropsLeastRecent(s: State, r: nat)
    requires Reachable(s) && DoPutInsert(s, r).Some?
    ensures var conns := IdleList(s.pool, At(s, r).key);
            var dropped := DoPutInsert(s, r).value.pool.closing - s.pool.closing;
            if |conns| < MAX_IDLE_PER_HOST then dropped == {}
            else exists c :: c in conns && dropped == {c} && forall d :: d in conns ==> UsedAt(s.pool, c) <= UsedAt(s.pool, d)
  {
    ReachableIsGood(s);
    var conns := IdleList(s.pool, At(s, r).key);
    if |conns| >= MAX_IDLE_PER_HOST {
      var loc :| Placed(s, loc);
      assert GoodList(s.pool, conns, s.now);
      assert Holds(s, Idle(At(s, r).key), conns[0]) && !Holds(s, Closing, conns[0]);
      assert DoPutInsert(s, r).value.pool.closing - s.pool.closing == {conns[0]};
    }
  }

  // ----- The fate of a connection -----

  /** Closed, or handed to a closer. */
  predicate Retired(s: State, c: ConnId) {
    c in s.pool.closing || c in s.pool.shut
  }

  /** Nothing can pool it any more: it is retired, or its call reads a last response from it. */
  predicate Doomed(s: State, r: nat, c: ConnId) {
    Retired(s, c) || (r in s.calls && s.calls[r].Reading? && s.calls[r].conn == c && !s.calls[r].keepAlive)
  }

  lemma StepKeepsDoomed(s: State, e: Event, r: nat, c: ConnId)
    requires Next(s, e).Some? && Doomed(s, r, c)
    ensures Doomed(Next(s, e).value, r, c)
    ensures Retired(s, c) ==> Retired(Next(s, e).value, c)
  {
    hide TakeIdle, PutIdle, Sweep, Drain;
    PoolOnlyRetires(s);
  }

  /** The critical sections never take a retirement back. */
  lemma PoolOnlyRetires(s: State)
    ensures forall key, now ::
              var p := TakeIdle(s.pool, key, now).0; s.pool.closing <= p.closing && s.pool.shut <= p.shut
    ensures forall key, c, now ::
              var p := PutIdle(s.pool, key, c, now); s.pool.closing <= p.closing && s.pool.shut <= p.shut
    ensures forall now :: s.pool.closing <= Sweep(s.pool, now).closing && s.pool.shut <= Sweep(s.pool, now).shut
    ensures forall nil :: s.pool.closing <= Drain(s.pool, nil).closing && s.pool.shut <= Drain(s.pool, nil).shut
  {}

  lemma {:induction false} RunKeepsDoomed(s: State, events: seq<Event>, r: nat, c: ConnId)
    requires Run(s, events).Some? && Doomed(s, r, c)
    ensures Doomed(Run(s, events).value, r, c)
    ensures Retired(s, c) ==> Retired(Run(s, events).value, c)
    decreases |events|
  {
    if events != [] {
      StepKeepsDoomed(s, events[0], r, c);
      hide Next, Doomed, Retired;
      RunKeepsDoomed(Next(s, events[0]).value, events[1..], r, c);
    }
  }

  lemma DoomedIsNotIdle(s: State, r: nat, c: ConnId)
    requires Inv(s) && Doomed(s, r, c)
    ensures forall k :: c !in IdleList(s.pool, k)
    ensures Retired(s, c) ==> forall q :: q in s.calls && s.calls[q].Owns() ==> s.calls[q].conn != c
  {
    var loc :| Placed(s, loc);
    assert Holds(s, Closing, c) || Holds(s, Closed, c) || Holds(s, InCall(r), c);
    forall k ensures c !in IdleList(s.pool, k) {
      assert !Holds(s, Idle(k), c);
    }
    if Retired(s, c) {
      forall q | q in s.calls && s.calls[q].Owns() ensures s.calls[q].conn != c {
        assert !Holds(s, InCall(q), c);
      }
    }
  }

  /** A retired connection is never pooled, looked up or used again. */
  lemma RetiredForever(s: State, events: seq<Event>, c: ConnId)
    requires Inv(s) && Retired(s, c) && Run(s, events).Some?
    ensures var t := Run(s, events).value;
            && Retired(t, c) && (forall k :: c !in IdleList(t.pool, k))
            && forall q :: q in t.calls && t.calls[q].Owns() ==> t.calls[q].conn != c
  {
    RunKeepsInv(s, events);
    RunKeepsDoomed(s, events, 0, c);
    DoomedIsNotIdle(Run(s, events).value, 0, c);
  }

  /** A connection whose response forbids keep-alive, or whose exchange fails, is in no idle
      list at the end of any run from then on, whatever happens to the body. */
  lemma NotKeptAliveIsNeverPooled(s: State, r: nat, ok: bool, keepAlive: bool, events: seq<Event>)
    requires Inv(s) && At(s, r).Owns() && Run(s, [Exchange(r, ok, keepAlive)] + events).Some? && !(ok && keepAlive)
    ensures forall k :: At(s, r).conn !in IdleList(Run(s, [Exchange(r, ok, keepAlive)] + events).value.pool, k)
  {
    var e := Exchange(r, ok, keepAlive);
    assert ([e] + events)[1..] == events;
    StepKeepsInv(s, e);
    RunKeepsInv(Next(s, e).value, events);
    RunKeepsDoomed(Next(s, e).value, events, r, At(s, r).conn);
    DoomedIsNotIdle(Run(Next(s, e).value, events).value, r, At(s, r).conn);
  }

  /** The same from the body on: no keep-alive, or a Close that fails. */
  lemma ReleasedAndClosed(s: State, r: nat, failed: bool, events: seq<Event>)
    requires Inv(s) && At(s, r).Reading? && (failed || !At(s, r).keepAlive)
    requires Run(s, [BodyClose(r, failed)] + events).Some?
    ensures var t := Run(s, [BodyClose(r, failed)] + events).value;
            Retired(t, At(s, r).conn) && forall k :: At(s, r).conn !in IdleList(t.pool, k)
  {
    var e := BodyClose(r, failed);
    assert ([e] + events)[1..] == events;
    StepKeepsInv(s, e);
    RetiredForever(Next(s, e).value, events, At(s, r).conn);
  }

  lemma RunThree(s: State, e1: Event, e2: Event, e3: Event, a: State, b: State, d: State)
    requires Next(s, e1) == Some(a) && Next(a, e2) == Some(b) && Next(b, e3) == Some(d)
    ensures Run(s, [e1, e2, e3]) == Some(d)
  {
    hide Next;
    assert [e1, e2, e3][1..] == [e2, e3] && [e2, e3][1..] == [e3] && [e3][1..] == [];
    assert Run(b, [e3]) == Some(d) && Run(a, [e2, e3]) == Some(d);
  }

  lemma ReleaseWaits(s: State, r: nat, failed: bool) returns (a: State)
    requires At(s, r).Reading? && At(s, r).keepAlive && !failed
    ensures DoRelease(s, r, failed) == Some(a)
    ensures a == s.(calls := s.calls[r := Waiting(At(s, r).key, At(s, r).conn)])
  {
    a := DoRelease(s, r, failed).value;
  }

  lemma CheckPasses(s: State, r: nat) returns (b: State)
    requires At(s, r).Waiting? && !s.closed && s.lock.None?
    ensures Next(s, PutCheck(r)) == Some(b)
    ensures b == s.(lock := Some(r), calls := s.calls[r := Checked(At(s, r).key, At(s, r).conn)])
  {
    b := DoPutCheck(s, r).value;
  }

  /** On an open transport a body with keep-alive, read to its end or closed, gives its
      connection back: it is pooled, and the next lookup for its host gets it. */
  lemma KeptAliveIsReused(s: State, r: nat, q: nat, eof: bool) returns (pooled: State)
    requires At(s, r).Reading? && At(s, r).keepAlive && !s.closed && s.lock.None?
    requires At(s, q) == Started(At(s, r).key)
    ensures Run(s, [if eof then BodyEof(r) else BodyClose(r, false), PutCheck(r), PutInsert(r)]) == Some(pooled)
    ensures At(pooled, r) == Finished && At(s, r).conn in IdleList(pooled.pool, At(s, r).key)
    ensures Next(pooled, LookUp(q)).Some?
    ensures At(Next(pooled, LookUp(q)).value, q) == HoldsIdle(At(s, r).key, At(s, r).conn)
  {
    var a := ReleaseWaits(s, r, false);
    var b := CheckPasses(a, r);
    PutIsReused(b, r, q);
    pooled := DoPutInsert(b, r).value;
    hide DoPutInsert, DoPutCheck, DoRelease, DoLookUp, DoPool, Run, IdleList;
    RunThree(s, if eof then BodyEof(r) else BodyClose(r, false), PutCheck(r), PutInsert(r), a, b, pooled);
  }

  lemma PutIsReused(s: State, r: nat, q: nat)
    requires At(s, r).Checked? && s.lock == Some(r) && At(s, q) == Started(At(s, r).key)
    ensures var t := DoPutInsert(s, r).value;
            && At(t, r) == Finished && At(s, r).conn in IdleList(t.pool, At(s, r).key)
            && DoLookUp(t, q).Some? && At(DoLookUp(t, q).value, q) == HoldsIdle(At(s, r).key, At(s, r).conn)
  {}

  // ----- One key per connection -----

  /** Whoever has `c` has it under the key `k`. */
  ghost predicate KeyedBy(s: State, c: ConnId, k: Key) {
    && (forall j :: j in s.pool.idle && c in s.pool.idle[j] ==> j == k)
    && (forall r :: r in s.calls && s.calls[r].Owns() && s.calls[r].conn == c ==> s.calls[r].key == k)
  }

  lemma StepKeepsKey(s: State, e: Event, c: ConnId, k: Key)
    requires Next(s, e).Some? && KeyedBy(s, c, k) && c < s.next
    ensures KeyedBy(Next(s, e).value, c, k)
  {
    hide KeyedBy, TakeIdle, PutIdle, Sweep, Drain;
    match e
    case LookUp(r) => LookUpKeepsKey(s, r, c, k);
    case PutInsert(r) => PutKeepsKey(s, r, c, k);
    case Start(r, _) => QuietKeepsKey(s, Next(s, e).value, r, c, k);
    case Exchange(r, _, _) => QuietKeepsKey(s, Next(s, e).value, r, c, k);
    case Dial(r, _) => QuietKeepsKey(s, Next(s, e).value, r, c, k);
    case BodyEof(r) => QuietKeepsKey(s, Next(s, e).value, r, c, k);
    case BodyClose(r, _) => QuietKeepsKey(s, Next(s, e).value, r, c, k);
    case PutCheck(r) => QuietKeepsKey(s, Next(s, e).value, r, c, k);
    case _ => PoolKeepsKey(s, e, c, k);
  }

  lemma MadeStaysMade(s: State, e: Event)
    requires Next(s, e).Some?
    ensures s.next <= Next(s, e).value.next
  {
    hide TakeIdle, PutIdle, Sweep, Drain;
  }

  lemma PoolKeepsKey(s: State, e: Event, c: ConnId, k: Key)
    requires DoPool(s, e).Some? && KeyedBy(s, c, k)
    ensures KeyedBy(DoPool(s, e).value, c, k)
  {
    if e.Cleanup? { CleanupKeepsKey(s, c, k); }
    hide Sweep;
  }

  /** Call `r` moves on with the connection and the key that it has, or with another connection. */
  lemma QuietKeepsKey(s: State, s': State, r: nat, c: ConnId, k: Key)
    requires KeyedBy(s, c, k) && s'.pool.idle == s.pool.idle
    requires s'.calls == s.calls || s'.calls == s.calls[r := At(s', r)]
    requires At(s', r).Owns() && At(s', r).conn == c ==>
               r in s.calls && At(s, r).Owns() && At(s, r).conn == c && At(s, r).key == At(s', r).key
    ensures KeyedBy(s', c, k)
  {}

  lemma LookUpKeepsKey(s: State, r: nat, c: ConnId, k: Key)
    requires DoLookUp(s, r).Some? && KeyedBy(s, c, k)
    ensures KeyedBy(DoLookUp(s, r).value, c, k)
  {
    var conns := IdleList(s.pool, At(s, r).key);
    assert conns != [] ==> conns[|conns| - 1] in conns;
  }

  lemma PutKeepsKey(s: State, r: nat, c: ConnId, k: Key)
    requires DoPutInsert(s, r).Some? && KeyedBy(s, c, k)
    ensures KeyedBy(DoPutInsert(s, r).value, c, k)
  {
    var conns := IdleList(s.pool, At(s, r).key);
    assert forall d :: d in conns[if |conns| >= MAX_IDLE_PER_HOST then 1 else 0..] ==> d in conns;
  }

  lemma CleanupKeepsKey(s: State, c: ConnId, k: Key)
    requires DoPool(s, Cleanup).Some? && KeyedBy(s, c, k)
    ensures KeyedBy(DoPool(s, Cleanup).value, c, k)
  {
    forall j | j in s.pool.idle ensures c in Live(s.pool, s.pool.idle[j], s.now) ==> c in s.pool.idle[j] {
      LiveMembers(s.pool, s.pool.idle[j], s.now);
    }
    hide Expired, Live, Dead;
  }

  lemma {:induction false} RunKeepsKey(s: State, events: seq<Event>, c: ConnId, k: Key)
    requires Run(s, events).Some? && KeyedBy(s, c, k) && c < s.next
    ensures KeyedBy(Run(s, events).value, c, k)
    decreases |events|
  {
    if events != [] {
      StepKeepsKey(s, events[0], c, k);
      MadeStaysMade(s, events[0]);
      hide KeyedBy, Next;
      RunKeepsKey(Next(s, events[0]).value, events[1..], c, k);
    }
  }

  /** A connection that a call has dialed for its host is pooled and reused for that host only. */
  lemma NeverUsedForAnotherHost(s: State, r: nat, events: seq<Event>)
    requires Inv(s) && Run(s, [Dial(r, true)] + events).Some?
    ensures KeyedBy(Run(s, [Dial(r, true)] + events).value, s.next, At(s, r).key)
  {
    var loc :| Placed(s, loc);
    assert ([Dial(r, true)] + events)[1..] == events;
    assert forall p :: !Holds(s, p, s.next);
    forall j | j in s.pool.idle ensures s.next !in s.pool.idle[j] {
      assert !Holds(s, Idle(j), s.next);
    }
    forall q | q in s.calls && s.calls[q].Owns() ensures s.calls[q].conn != s.next {
      assert !Holds(s, InCall(q), s.next);
    }
    RunKeepsKey(Next(s, Dial(r, true)).value, events, s.next, At(s, r).key);
  }

  // ----- One call, one step -----

  /** A call stays with its host, looks up before it dials, tries a new connection after a
      failure on an idle one, and gives up only after a new one failed. */
  lemma CallSteps(s: State, e: Event, r: nat)
    requires Next(s, e).Some? && r in s.calls && At(Next(s, e).value, r) != At(s, r)
    ensures var a, b := At(s, r), At(Next(s, e).value, r);
            && !a.Finished?
            && (!b.Finished? ==> b.key == a.key)
            && (b.Owns() && a.Owns() ==> b.conn == a.conn)
            && (a.Started? ==> b.HoldsIdle? || b.Creating?)
            && (a.HoldsIdle? ==> b.Reading? || b.Creating?)
            && (a.Creating? ==> if e == Dial(r, true) then b.HoldsNew? else e == Dial(r, false) && b.Finished?)
            && (a.HoldsNew? ==> b.Reading? || b.Finished?)
            && (a.HoldsIdle? || a.HoldsNew? ==> exists ok, keepAlive :: e == Exchange(r, ok, keepAlive))
            && (b.Reading? ==> e == Exchange(r, true, b.keepAlive) && a.conn !in s.pool.shut)
  {
    hide TakeIdle, PutIdle, Sweep, Drain;
    CallMoves(s, e, r);
    hide Next, DoPool;
    match e
    case Start(_, _) =>
    case LookUp(_) =>
    case Exchange(_, _, _) =>
    case Dial(_, _) =>
    case PutCheck(_) =>
    case PutInsert(_) =>
    case _ =>
  }

  /** Only an event of its own moves a call, as its critical section says. */
  lemma CallMoves(s: State, e: Event, r: nat)
    requires Next(s, e).Some? && r in s.calls && At(Next(s, e).value, r) != At(s, r)
    ensures match e
            case LookUp(q) => q == r && Next(s, e) == DoLookUp(s, r)
            case Exchange(q, ok, keepAlive) => q == r && Next(s, e) == DoExchange(s, r, ok, keepAlive)
            case Dial(q, ok) => q == r && Next(s, e) == DoDial(s, r, ok)
            case BodyEof(q) => q == r && Next(s, e) == DoRelease(s, r, false)
            case BodyClose(q, failed) => q == r && Next(s, e) == DoRelease(s, r, failed)
            case PutCheck(q) => q == r && Next(s, e) == DoPutCheck(s, r)
            case PutInsert(q) => q == r && Next(s, e) == DoPutInsert(s, r)
            case _ => false
  {
    hide TakeIdle, PutIdle, Sweep, Drain;
  }

  /** What a new call gets depends on Close alone. */
  lemma ClosedRefuses(s: State, r: nat, key: Key)
    requires r !in s.calls
    ensures Next(s, Start(r, key)).Some?
    ensures At(Next(s, Start(r, key)).value, r) == if s.closed then Finished else Started(key)
  {}

  // ----- What the pool does -----

  /** A lookup that finds something takes the most recently used connection of the list, it
      was used within 90 seconds, and exactly it leaves the list. */
  lemma HitIsMostRecent(s: State, key: Key, c: ConnId)
    requires Reachable(s) && TakeIdle(s.pool, key, s.now).1 == Some(c)
    ensures c in IdleList(s.pool, key) && s.now - UsedAt(s.pool, c) <= 90_000_000_000
    ensures forall d :: d in IdleList(s.pool, key) ==> UsedAt(s.pool, d) <= UsedAt(s.pool, c)
    ensures forall d :: d in IdleList(TakeIdle(s.pool, key, s.now).0, key) <==> d in IdleList(s.pool, key) && d != c
  {
    ReachableIsGood(s);
    var conns := IdleList(s.pool, key);
    assert GoodList(s.pool, conns, s.now);
    assert conns == conns[..|conns| - 1] + [c];
  }

  /** Close, Refresh and SetProxy empty the pool and retire everything that was in it. */
  lemma DrainRetiresAll(s: State, e: Event)
    requires Next(s, e).Some? && (e.CloseDrain? || e.RefreshDrain? || e.SetProxy?)
    ensures Next(s, e).value.pool.idle == map[]
    ensures forall k, c :: k in s.pool.idle && c in s.pool.idle[k] ==> Retired(Next(s, e).value, c)
  {}

  /** Cleanup keeps exactly the connections used within 90 seconds and retires the others. */
  lemma CleanupIsExact(s: State, k: Key, c: ConnId)
    requires Next(s, Cleanup).Some? && c in IdleList(s.pool, k)
    ensures var t := Next(s, Cleanup).value;
            if s.now - UsedAt(s.pool, c) <= 90_000_000_000 then c in IdleList(t.pool, k)
            else Retired(t, c) && c !in IdleList(t.pool, k)
  {
    LiveMembers(s.pool, s.pool.idle[k], s.now);
    assert c in Dead(s.pool, s.pool.idle[k], s.now) <==> Expired(s.pool, c, s.now);
  }

  // ----- The transport's own methods -----

  /** Cleanup so far, with only the lists of `done` swept. */
  function SweepKeys(p: Pool, done: set<Key>, now: Time): Pool {
    p.(idle := map k | k in p.idle && (k in done ==> Live(p, p.idle[k], now) != [])
                    :: if k in done then Live(p, p.idle[k], now) else p.idle[k],
       closing := p.closing + set k, c | k in p.idle && k in done && c in Dead(p, p.idle[k], now) :: c)
  }

  lemma SweepEvery(p: Pool, now: Time)
    ensures SweepKeys(p, p.idle.Keys, now) == Sweep(p, now)
  {
    assert SweepKeys(p, p.idle.Keys, now).idle == Sweep(p, now).idle;
    assert SweepKeys(p, p.idle.Keys, now).closing == Sweep(p, now).closing;
  }

  lemma SweepOneMore(p: Pool, done: set<Key>, key: Key, now: Time)
    requires key in p.idle && key !in done
    ensures var part, next := SweepKeys(p, done, now), SweepKeys(p, done + {key}, now);
            var live := Live(p, p.idle[key], now);
            && key in part.idle && part.idle[key] == p.idle[key]
            && next == part.(idle := if live == [] then part.idle - {key} else part.idle[key := live],
                             closing := part.closing + Dead(p, p.idle[key], now))
  {
    var part, next := SweepKeys(p, done, now), SweepKeys(p, done + {key}, now);
    var live := Live(p, p.idle[key], now);
    assert next.idle == if live == [] then part.idle - {key} else part.idle[key := live];
    assert next.closing == part.closing + Dead(p, p.idle[key], now);
  }

  /** The inner loop of cleanup: which connections stay, and which are handed to closers. */
  method Partition(conns: seq<ConnId>, lastUsedAt: map<ConnId, Time>, now: Time, ghost p: Pool)
    returns (active: seq<ConnId>, expired: set<ConnId>)
    requires p.lastUsed == lastUsedAt
    ensures active == Live(p, conns, now)
    ensures expired == Dead(p, conns, now)
  {
    active, expired := [], {};
    var i := 0;
    while i < |conns|
      invariant 0 <= i <= |conns|
      invariant active == Live(p, conns[..i], now)
      invariant expired == Dead(p, conns[..i], now)
    {
      var c := conns[i];
      assert conns[..i + 1] == conns[..i] + [c];
      if now - (if c in lastUsedAt then lastUsedAt[c] else 0) > MAX_IDLE_TIME {
        expired := expired + {c};
      } else {
        active := active + [c];
      }
      i := i + 1;
    }
    assert conns[..i] == conns;
  }

  /** Each method is one critical section; its postcondition is the corresponding step above. */
  class Http1Transport {
    var idleConns: map<Key, seq<ConnId>>
    var idleIsNil: bool
    var lastUsedAt: map<ConnId, Time>
    var closing: set<ConnId>
    var shut: set<ConnId>
    var closed: bool

    constructor ()
      ensures View() == Init.pool && !closed
    {
      idleConns, idleIsNil, lastUsedAt, closing, shut, closed := map[], false, map[], {}, {}, false;
    }

    ghost function View(): Pool
      reads this
    {
      Pool(idleConns, idleIsNil, lastUsedAt, closing, shut)
    }

    method GetIdleConn(key: Key, now: Time) returns (conn: Option<ConnId>)
      modifies this
      ensures (View(), conn) == TakeIdle(old(View()), key, now)
      ensures closed == old(closed)
    {
      var conns := if key in idleConns then idleConns[key] else [];
      if |conns| == 0 { return None; }
      var c := conns[|conns| - 1];
      idleConns := idleConns[key := conns[..|conns| - 1]];
      if now - (if c in lastUsedAt then lastUsedAt[c] else 0) > MAX_IDLE_TIME {
        shut := shut + {c};
        return None;
      }
      return Some(c);
    }

    method PutIdleConn(key: Key, conn: ConnId, now: Time)
      requires !closed ==> !idleIsNil
      modifies this
      ensures View() == if old(closed) then old(View()).(shut := old(shut) + {conn}) else PutIdle(old(View()), key, conn, now)
      ensures closed == old(closed)
    {
      if closed {
        shut := shut + {conn};
        return;
      }
      var conns := if key in idleConns then idleConns[key] else [];
      if |conns| >= MAX_IDLE_PER_HOST {
        closing := closing + {conns[0]};
        conns := conns[1..];
      }
      lastUsedAt := lastUsedAt[conn := now];
      idleConns := idleConns[key := conns + [conn]];
    }

    method Cleanup(now: Time)
      modifies this
      ensures View() == Sweep(old(View()), now)
      ensures closed == old(closed)
    {
      ghost var p, done := View(), {};
      var todo := idleConns.Keys;
      assert SweepKeys(p, {}, now).idle == p.idle;
      while todo != {}
        invariant done + todo == p.idle.Keys && done !! todo && closed == old(closed)
        invariant View() == SweepKeys(p, done, now)
        decreases todo
      {
        var key :| key in todo;
        SweepOneMore(p, done, key, now);
        var active, expired := Partition(idleConns[key], lastUsedAt, now, p);
        closing := closing + expired;
        if |active| > 0 {
          idleConns := idleConns[key := active];
        } else {
          idleConns := idleConns - {key};
        }
        todo, done := todo - {key}, done + {key};
      }
      assert done == p.idle.Keys;
      SweepEvery(p, now);
    }

    method DrainAll(nil: bool)
      modifies this
      ensures View() == Drain(old(View()), nil)
      ensures closed == old(closed)
    {
      ghost var p := View();
      var todo := idleConns.Keys;
      while todo != {}
        invariant todo <= p.idle.Keys && closed == old(closed)
        invariant idleConns == p.idle && lastUsedAt == p.lastUsed && shut == p.shut
        invariant closing == p.closing + set k, c | k in p.idle && k !in todo && c in p.idle[k] :: c
        decreases todo
      {
        var key :| key in todo;
        closing := closing + set c | c in idleConns[key];
        todo := todo - {key};
      }
      idleConns, idleIsNil := map[], nil;
    }

    method Close()
      modifies this
      ensures closed
      ensures View() == if old(closed) then old(View()) else Drain(old(View()), true)
    {
      if closed { return; }
      closed := true;
      DrainAll(true);
    }

    method Refresh()
      modifies this
      ensures closed == old(closed)
      ensures View() == if old(closed) then old(View()) else Drain(old(View()), false)
    {
      if closed { return; }
      DrainAll(false);
    }
  }

  // ----- What every step keeps -----

  lemma StepKeepsFlags(s: State, e: Event)
    requires GoodFlags(s) && Next(s, e).Some?
    ensures GoodFlags(Next(s, e).value)
  {}

  lemma {:induction false} LiveMembers(p: Pool, conns: seq<ConnId>, now: Time)
    ensures forall c :: c in Live(p, conns, now) <==> c in conns && !Expired(p, c, now)
  {
    if conns != [] {
      LiveMembers(p, conns[..|conns| - 1], now);
      assert conns == conns[..|conns| - 1] + [conns[|conns| - 1]];
    }
  }

  lemma AppendIsGood(p: Pool, conns: seq<ConnId>, c: ConnId, now: Time)
    requires GoodList(p, conns, now) && |conns| < MAX_IDLE_PER_HOST && UsedAt(p, c) <= now
    requires forall d :: d in conns ==> d != c && UsedAt(p, d) <= UsedAt(p, c)
    ensures GoodList(p, conns + [c], now)
  {}

  lemma {:induction false} LiveIsGood(p: Pool, conns: seq<ConnId>, now: Time)
    requires GoodList(p, conns, now)
    ensures GoodList(p, Live(p, conns, now), now) && |Live(p, conns, now)| <= |conns|
  {
    if conns != [] {
      var init, last := conns[..|conns| - 1], conns[|conns| - 1];
      assert GoodList(p, init, now);
      LiveIsGood(p, init, now);
      LiveMembers(p, init, now);
      AppendIsGood(p, Live(p, init, now), last, now);
    }
  }

  lemma PutIsGood(p: Pool, key: Key, c: ConnId, now: Time)
    requires GoodList(p, IdleList(p, key), now) && c !in IdleList(p, key)
    ensures GoodList(PutIdle(p, key, c, now), PutIdle(p, key, c, now).idle[key], now)
  {}

  /** A list stays good as long as the times of its connections do not change. */
  lemma SameTimesSameList(p: Pool, p': Pool, conns: seq<ConnId>, now: Time, now': Time)
    requires GoodList(p, conns, now) && now <= now'
    requires forall c :: c in conns ==> UsedAt(p', c) == UsedAt(p, c)
    ensures GoodList(p', conns, now')
  {
    assert forall i :: 0 <= i < |conns| ==> conns[i] in conns;
  }

  lemma LookUpKeepsLists(s: State, r: nat)
    requires GoodLists(s) && DoLookUp(s, r).Some?
    ensures GoodLists(DoLookUp(s, r).value)
  {
    var s' := DoLookUp(s, r).value;
    forall k | k in s'.pool.idle
      ensures GoodList(s'.pool, s'.pool.idle[k], s'.now)
    {
      var conns := s.pool.idle[k];
      assert GoodList(s.pool, conns, s.now);
      assert s'.pool.idle[k] <= conns;
      SameTimesSameList(s.pool, s'.pool, s'.pool.idle[k], s.now, s'.now);
    }
  }

  lemma QuietKeepsLists(s: State, s': State)
    requires GoodLists(s) && s'.now == s.now && s'.pool.idle == s.pool.idle && s'.pool.lastUsed == s.pool.lastUsed
    ensures GoodLists(s')
  {
    forall k | k in s'.pool.idle
      ensures GoodList(s'.pool, s'.pool.idle[k], s'.now)
    {
      SameTimesSameList(s.pool, s'.pool, s.pool.idle[k], s.now, s'.now);
    }
  }

  /** Using the connection `c` that lies in no idle list. */
  lemma UseKeepsLists(s: State, s': State, c: ConnId)
    requires GoodLists(s) && s'.now == s.now && s'.pool.idle == s.pool.idle
    requires s'.pool.lastUsed == s.pool.lastUsed[c := s.now]
    requires forall k :: !Holds(s, Idle(k), c)
    ensures GoodLists(s')
  {
    forall k | k in s'.pool.idle
      ensures GoodList(s'.pool, s'.pool.idle[k], s'.now)
    {
      assert !Holds(s, Idle(k), c);
      SameTimesSameList(s.pool, s'.pool, s.pool.idle[k], s.now, s'.now);
    }
  }

  lemma PutKeepsLists(s: State, r: nat)
    requires GoodLists(s) && DoPutInsert(s, r).Some?
    requires forall k :: !Holds(s, Idle(k), At(s, r).conn)
    ensures GoodLists(DoPutInsert(s, r).value)
  {
    var s', call := DoPutInsert(s, r).value, At(s, r);
    forall k | k in s'.pool.idle
      ensures GoodList(s'.pool, s'.pool.idle[k], s'.now)
    {
      assert !Holds(s, Idle(k), call.conn);
      if k == call.key {
        PutIsGood(s.pool, k, call.conn, s.now);
      } else {
        SameTimesSameList(s.pool, s'.pool, s.pool.idle[k], s.now, s'.now);
      }
    }
  }

  lemma PoolStepKeepsLists(s: State, e: Event)
    requires GoodLists(s) && DoPool(s, e).Some?
    ensures GoodLists(DoPool(s, e).value)
  {
    var s' := DoPool(s, e).value;
    forall k | k in s'.pool.idle
      ensures GoodList(s'.pool, s'.pool.idle[k], s'.now)
    {
      var conns := s.pool.idle[k];
      if e.Cleanup? {
        LiveIsGood(s.pool, conns, s.now);
      }
      SameTimesSameList(s.pool, s'.pool, s'.pool.idle[k], s.now, s'.now);
    }
  }

  lemma OwnedIsNotIdle(s: State, r: nat, loc: map<ConnId, Place>)
    requires Placed(s, loc) && At(s, r).Owns()
    ensures Holds(s, InCall(r), At(s, r).conn)
    ensures forall k :: !Holds(s, Idle(k), At(s, r).conn)
  {
    assert Holds(s, InCall(r), At(s, r).conn);
  }

  lemma StepKeepsLists(s: State, e: Event, loc: map<ConnId, Place>)
    requires GoodLists(s) && Placed(s, loc) && Next(s, e).Some?
    ensures GoodLists(Next(s, e).value)
  {
    var s' := Next(s, e).value;
    match e
    case LookUp(r) => LookUpKeepsLists(s, r);
    case Exchange(r, _, _) =>
      OwnedIsNotIdle(s, r, loc);
      UseKeepsLists(s, s', At(s, r).conn);
    case Dial(_, ok) =>
      if ok {
        assert forall k :: !Holds(s, Idle(k), s.next);
        UseKeepsLists(s, s', s.next);
      }
    case PutInsert(r) =>
      OwnedIsNotIdle(s, r, loc);
      PutKeepsLists(s, r);
    case Start(_, _) => QuietKeepsLists(s, s');
    case BodyEof(_) => QuietKeepsLists(s, s');
    case BodyClose(_, _) => QuietKeepsLists(s, s');
    case PutCheck(_) => QuietKeepsLists(s, s');
    case _ => PoolStepKeepsLists(s, e);
  }

  // ----- One place per connection, step by step -----

  /** Only `c` moves, and it moves to `p`. */
  lemma MoveOne(s: State, s': State, loc: map<ConnId, Place>, c: ConnId, p: Place)
    requires Placed(s, loc) && c <= s.next
    requires s'.next == if c == s.next then s.next + 1 else s.next
    requires forall q, d :: Holds(s', q, d) <==> if d == c then q == p else Holds(s, q, d)
    ensures Placed(s', loc[c := p])
  {
    assert Holds(s', p, c);
  }

  lemma NoMove(s: State, s': State, loc: map<ConnId, Place>)
    requires Placed(s, loc) && s'.next == s.next
    requires forall q, d :: Holds(s', q, d) <==> Holds(s, q, d)
    ensures Placed(s', loc)
  {}

  lemma LookUpKeepsPlaces(s: State, r: nat, loc: map<ConnId, Place>) returns (loc': map<ConnId, Place>)
    requires Placed(s, loc) && GoodLists(s) && DoLookUp(s, r).Some?
    ensures Placed(DoLookUp(s, r).value, loc')
  {
    var s', key := DoLookUp(s, r).value, At(s, r).key;
    var conns := IdleList(s.pool, key);
    if conns == [] {
      NoMove(s, s', loc);
      return loc;
    }
    var c := conns[|conns| - 1];
    assert GoodList(s.pool, conns, s.now);
    assert conns == conns[..|conns| - 1] + [c];
    assert Holds(s, Idle(key), c);
    var p := if Expired(s.pool, c, s.now) then Closed else InCall(r);
    forall q, d
      ensures Holds(s', q, d) <==> if d == c then q == p else Holds(s, q, d)
    {
      assert Holds(s, q, d) ==> d in loc && loc[d] == q;
    }
    MoveOne(s, s', loc, c, p);
    loc' := loc[c := p];
  }

  /** A call's own connection is closed, or stays with the call. */
  lemma OwnedMoves(s: State, s': State, r: nat, p: Place, loc: map<ConnId, Place>) returns (loc': map<ConnId, Place>)
    requires Placed(s, loc) && At(s, r).Owns()
    requires s'.next == s.next && s'.pool.idle == s.pool.idle && s'.pool.closing == s.pool.closing
    requires s'.calls == s.calls[r := At(s', r)]
    requires if p == InCall(r) then At(s', r).Owns() && At(s', r).conn == At(s, r).conn && s'.pool.shut == s.pool.shut
             else p == Closed && !At(s', r).Owns() && s'.pool.shut == s.pool.shut + {At(s, r).conn}
    ensures Placed(s', loc')
  {
    var c := At(s, r).conn;
    assert Holds(s, InCall(r), c);
    forall q, d
      ensures Holds(s', q, d) <==> if d == c then q == p else Holds(s, q, d)
    {
      assert Holds(s, q, d) ==> d in loc && loc[d] == q;
    }
    MoveOne(s, s', loc, c, p);
    loc' := loc[c := p];
  }

  lemma ExchangeKeepsPlaces(s: State, r: nat, ok: bool, keepAlive: bool, loc: map<ConnId, Place>)
    returns (loc': map<ConnId, Place>)
    requires Placed(s, loc) && DoExchange(s, r, ok, keepAlive).Some?
    ensures Placed(DoExchange(s, r, ok, keepAlive).value, loc')
  {
    assert Holds(s, InCall(r), At(s, r).conn) && !Holds(s, Closed, At(s, r).conn);
    loc' := OwnedMoves(s, DoExchange(s, r, ok, keepAlive).value, r, if ok then InCall(r) else Closed, loc);
  }

  lemma DialKeepsPlaces(s: State, r: nat, ok: bool, loc: map<ConnId, Place>) returns (loc': map<ConnId, Place>)
    requires Placed(s, loc) && DoDial(s, r, ok).Some?
    ensures Placed(DoDial(s, r, ok).value, loc')
  {
    var s' := DoDial(s, r, ok).value;
    if !ok {
      NoMove(s, s', loc);
      return loc;
    }
    var c, p := s.next, InCall(r);
    forall q, d
      ensures Holds(s', q, d) <==> if d == c then q == p else Holds(s, q, d)
    {
      assert Holds(s, q, d) ==> d in loc && loc[d] == q;
    }
    MoveOne(s, s', loc, c, p);
    loc' := loc[c := p];
  }

  lemma ReleaseKeepsPlaces(s: State, r: nat, failed: bool, loc: map<ConnId, Place>) returns (loc': map<ConnId, Place>)
    requires Placed(s, loc) && DoRelease(s, r, failed).Some?
    ensures Placed(DoRelease(s, r, failed).value, loc')
  {
    var s', call := DoRelease(s, r, failed).value, At(s, r);
    if !call.Reading? { return loc; }
    loc' := OwnedMoves(s, s', r, if failed || !call.keepAlive then Closed else InCall(r), loc);
  }

  lemma PutInsertKeepsPlaces(s: State, r: nat, loc: map<ConnId, Place>) returns (loc': map<ConnId, Place>)
    requires Placed(s, loc) && GoodLists(s) && DoPutInsert(s, r).Some?
    ensures Placed(DoPutInsert(s, r).value, loc')
  {
    var s', call := DoPutInsert(s, r).value, At(s, r);
    var mid, at := DropOldest(s, call.key, loc);
    var c, p := call.conn, Idle(call.key);
    assert Holds(mid, InCall(r), c);
    forall q, d
      ensures Holds(s', q, d) <==> if d == c then q == p else Holds(mid, q, d)
    {
      assert Holds(mid, q, d) ==> d in at && at[d] == q;
    }
    MoveOne(mid, s', at, c, p);
    loc' := at[c := p];
  }

  /** The overflow step inside a put: the head of a full list goes to a closer. */
  lemma DropOldest(s: State, key: Key, loc: map<ConnId, Place>) returns (s': State, loc': map<ConnId, Place>)
    requires Placed(s, loc) && GoodLists(s)
    ensures Placed(s', loc')
    ensures var conns := IdleList(s.pool, key);
            s' == if |conns| < MAX_IDLE_PER_HOST then s else
              s.(pool := s.pool.(idle := s.pool.idle[key := conns[1..]], closing := s.pool.closing + {conns[0]}))
  {
    var conns := IdleList(s.pool, key);
    if |conns| < MAX_IDLE_PER_HOST { return s, loc; }
    var c, p := conns[0], Closing;
    s' := s.(pool := s.pool.(idle := s.pool.idle[key := conns[1..]], closing := s.pool.closing + {c}));
    assert GoodList(s.pool, conns, s.now);
    assert conns == [c] + conns[1..];
    assert Holds(s, Idle(key), c);
    forall q, d
      ensures Holds(s', q, d) <==> if d == c then q == p else Holds(s, q, d)
    {
      assert Holds(s, q, d) ==> d in loc && loc[d] == q;
    }
    MoveOne(s, s', loc, c, p);
    loc' := loc[c := p];
  }

  /** The idle connections in `gone` go to their closers and the rest stay. */
  lemma ManyClose(s: State, s': State, gone: set<ConnId>, loc: map<ConnId, Place>) returns (loc': map<ConnId, Place>)
    requires Placed(s, loc) && s'.next == s.next
    requires forall c :: c in gone ==> c in loc && loc[c].Idle?
    requires forall q, c :: Holds(s', q, c) <==> if c in gone then q == Closing else Holds(s, q, c)
    ensures Placed(s', loc')
  {
    loc' := map c | c in loc :: if c in gone then Closing else loc[c];
    assert loc'.Keys == loc.Keys;
    forall c | c in loc'
      ensures Holds(s', loc'[c], c)
    {
      assert Holds(s, loc[c], c);
    }
  }

  lemma SweepKeepsPlaces(s: State, s': State, loc: map<ConnId, Place>) returns (loc': map<ConnId, Place>)
    requires Placed(s, loc) && s' == s.(pool := Sweep(s.pool, s.now))
    ensures Placed(s', loc')
  {
    var gone := set c | c in loc && loc[c].Idle? && Expired(s.pool, c, s.now);
    forall k | k in s.pool.idle
      ensures forall c :: c in Live(s.pool, s.pool.idle[k], s.now) <==>
                          c in s.pool.idle[k] && !Expired(s.pool, c, s.now)
    {
      LiveMembers(s.pool, s.pool.idle[k], s.now);
    }
    forall q, c
      ensures Holds(s', q, c) <==> if c in gone then q == Closing else Holds(s, q, c)
    {
      assert Holds(s, q, c) ==> c in loc && loc[c] == q;
      if c in gone {
        assert Holds(s, loc[c], c);
        assert c in Dead(s.pool, s.pool.idle[loc[c].key], s.now);
      } else {
        assert forall k :: Holds(s, Idle(k), c) ==> loc[c] == Idle(k) && !Expired(s.pool, c, s.now);
        assert forall k :: k in s.pool.idle && c in s.pool.idle[k] ==> Holds(s, Idle(k), c);
        assert forall k :: k in s.pool.idle ==> c !in Dead(s.pool, s.pool.idle[k], s.now);
      }
    }
    loc' := ManyClose(s, s', gone, loc);
  }

  lemma DrainKeepsPlaces(s: State, s': State, nil: bool, loc: map<ConnId, Place>) returns (loc': map<ConnId, Place>)
    requires Placed(s, loc) && s'.pool == Drain(s.pool, nil) && s'.calls == s.calls && s'.next == s.next
    ensures Placed(s', loc')
  {
    var gone := set c | c in loc && loc[c].Idle?;
    forall q, c
      ensures Holds(s', q, c) <==> if c in gone then q == Closing else Holds(s, q, c)
    {
      assert Holds(s, q, c) ==> c in loc && loc[c] == q;
      if c in gone {
        assert Holds(s, loc[c], c);
      } else {
        assert forall k :: k in s.pool.idle && c in s.pool.idle[k] ==> Holds(s, Idle(k), c);
      }
    }
    loc' := ManyClose(s, s', gone, loc);
  }

  lemma PoolStepKeepsPlaces(s: State, e: Event, loc: map<ConnId, Place>) returns (loc': map<ConnId, Place>)
    requires Placed(s, loc) && DoPool(s, e).Some?
    ensures Placed(DoPool(s, e).value, loc')
  {
    var s' := DoPool(s, e).value;
    match e
    case CloseConn(c) =>
      var p := Closed;
      assert Holds(s, Closing, c);
      forall q, d
        ensures Holds(s', q, d) <==> if d == c then q == p else Holds(s, q, d)
      {
        assert Holds(s, q, d) ==> d in loc && loc[d] == q;
      }
      MoveOne(s, s', loc, c, p);
      loc' := loc[c := p];
    case Cleanup => loc' := SweepKeepsPlaces(s, s', loc);
    case CloseDrain => loc' := DrainKeepsPlaces(s, s', true, loc);
    case RefreshDrain => loc' := DrainKeepsPlaces(s, s', false, loc);
    case SetProxy => loc' := DrainKeepsPlaces(s, s', false, loc);
    case _ =>
      NoMove(s, s', loc);
      loc' := loc;
  }

  lemma StepKeepsPlaces(s: State, e: Event, loc: map<ConnId, Place>) returns (loc': map<ConnId, Place>)
    requires Placed(s, loc) && GoodLists(s) && Next(s, e).Some?
    ensures Placed(Next(s, e).value, loc')
  {
    match e
    case Start(_, _) =>
      NoMove(s, Next(s, e).value, loc);
      loc' := loc;
    case LookUp(r) => loc' := LookUpKeepsPlaces(s, r, loc);
    case Exchange(r, ok, keepAlive) => loc' := ExchangeKeepsPlaces(s, r, ok, keepAlive, loc);
    case Dial(r, ok) => loc' := DialKeepsPlaces(s, r, ok, loc);
    case BodyEof(r) => loc' := ReleaseKeepsPlaces(s, r, false, loc);
    case BodyClose(r, failed) => loc' := ReleaseKeepsPlaces(s, r, failed, loc);
    case PutCheck(r) =>
      loc' := OwnedMoves(s, DoPutCheck(s, r).value, r, if s.closed then Closed else InCall(r), loc);
    case PutInsert(r) => loc' := PutInsertKeepsPlaces(s, r, loc);
    case _ => loc' := PoolStepKeepsPlaces(s, e, loc);
  }
}
