/** The TLS session cache of transport/tls_cache.go: a map plus an order list, filled by
    Put, by loads from a backend and by Import, each of which evicts at a different moment. */
module TlsSessionCache {

  import opened Numbers
  import opened Sequences
  import opened Wrappers

  type Key = string
  type Time = int

  const MAX_SIZE: nat := 32
  const MAX_AGE: int := 86_400_000_000_000

  datatype Session = Session(state: int, createdAt: Time)

  datatype Cache = Cache(sessions: map<Key, Session>, order: seq<Key>)

  const Empty := Cache(map[], [])

  // ----- The operations, as functions -----

  function Evict(c: Cache): Cache
    decreases |c.order|
  {
    if |c.sessions| > MAX_SIZE && |c.order| > 0 then
      Evict(Cache(c.sessions - {c.order[0]}, c.order[1..]))
    else c
  }

  function Remove(keys: seq<Key>, key: Key): seq<Key> {
    if keys == [] then []
    else if keys[0] == key then keys[1..]
    else [keys[0]] + Remove(keys[1..], key)
  }

  /** Only a key that is listed moves, and only its first occurrence. */
  function MoveToEnd(keys: seq<Key>, key: Key): seq<Key> {
    if key in keys then Remove(keys, key) + [key] else keys
  }

  function Add(c: Cache, key: Key, s: Session): Cache {
    Cache(c.sessions[key := s], c.order + [key])
  }

  /** `loaded` is what the backend has for the key, if there is one and it can be read. */
  function Get(c: Cache, key: Key, loaded: Option<Session>, now: Time): (Cache, Option<Session>) {
    if key in c.sessions then (c.(order := MoveToEnd(c.order, key)), Some(c.sessions[key]))
    else if loaded.None? || now - loaded.value.createdAt > MAX_AGE then (c, None)
    else (Evict(Add(c, key, loaded.value)), loaded)
  }

  function Put(c: Cache, key: Key, s: Session): Cache {
    if key in c.sessions then Cache(c.sessions[key := s], MoveToEnd(c.order, key))
    else Add(Evict(c), key, s)
  }

  /** A serialized session; `readable` when its ticket and state can be decoded. */
  datatype Entry = Entry(key: Key, session: Session, readable: bool)

  predicate Accepted(e: Entry, now: Time) {
    now - e.session.createdAt <= MAX_AGE && e.readable
  }

  function AddAll(c: Cache, entries: seq<Entry>, now: Time): Cache {
    if entries == [] then c else
      var before, last := AddAll(c, entries[..|entries| - 1], now), entries[|entries| - 1];
      if Accepted(last, now) then Add(before, last.key, last.session) else before
  }

  /** `entries` lists the imported map in its iteration order. */
  function Import(c: Cache, entries: seq<Entry>, now: Time): Cache {
    Evict(AddAll(c, entries, now))
  }

  // ----- Invariants -----

  /** The order list names exactly the cached keys, once each. */
  ghost predicate Exact(c: Cache) {
    Distinct(c.order) && forall k :: k in c.order <==> k in c.sessions
  }

  /** What any Import still guarantees: every cached key can be reached by eviction. */
  ghost predicate Covered(c: Cache) {
    forall k :: k in c.sessions ==> k in c.order
  }

  // ----- Eviction -----

  /** One round of the eviction loop. */
  function DropOldest(c: Cache): Cache
    requires c.order != []
  {
    Cache(c.sessions - {c.order[0]}, c.order[1..])
  }

  lemma DropKeepsCovered(c: Cache)
    requires Covered(c) && c.order != []
    ensures Covered(DropOldest(c))
  {
    forall k | k in DropOldest(c).sessions ensures k in c.order[1..] {
      assert c.order == [c.order[0]] + c.order[1..];
    }
  }

  lemma DropKeepsExact(c: Cache)
    requires Exact(c) && c.order != []
    ensures Exact(DropOldest(c))
  {
    DropKeepsCovered(c);
    forall k | k in c.order[1..] ensures k in c.order && k != c.order[0] {}
  }

  lemma {:induction false} EvictReachesTarget(c: Cache)
    requires Covered(c)
    ensures Covered(Evict(c)) && |Evict(c).sessions| <= MAX_SIZE
    decreases |c.order|
  {
    if |c.order| == 0 {
      assert c.sessions == map[];
    } else if |c.sessions| > MAX_SIZE {
      DropKeepsCovered(c);
      EvictReachesTarget(DropOldest(c));
    }
  }

  lemma {:induction false} EvictKeepsExact(c: Cache)
    requires Exact(c)
    ensures Exact(Evict(c))
    decreases |c.order|
  {
    if |c.sessions| > MAX_SIZE && |c.order| > 0 {
      DropKeepsExact(c);
      EvictKeepsExact(DropOldest(c));
    }
  }

  predicate IsSuffix(a: seq<Key>, b: seq<Key>) {
    |a| <= |b| && b[|b| - |a|..] == a
  }

  /** Eviction only takes keys from the front of the order list, and values stay as they are. */
  lemma {:induction false} EvictTakesTheFront(c: Cache)
    ensures IsSuffix(Evict(c).order, c.order)
    ensures forall k :: k in Evict(c).sessions ==> k in c.sessions && Evict(c).sessions[k] == c.sessions[k]
    decreases |c.order|
  {
    if |c.sessions| > MAX_SIZE && |c.order| > 0 {
      EvictTakesTheFront(DropOldest(c));
      var a, rest := Evict(c).order, c.order[1..];
      assert c.order[|c.order| - |a|..] == rest[|rest| - |a|..];
    }
  }

  // ----- Moving and adding keys -----

  lemma {:induction false} RemoveShape(keys: seq<Key>, key: Key)
    requires Distinct(keys)
    ensures Distinct(Remove(keys, key))
    ensures forall k :: k in Remove(keys, key) <==> k in keys && k != key
  {
    if keys != [] {
      var first, rest := keys[0], keys[1..];
      assert keys == [first] + rest;
      assert first !in rest;
      RemoveShape(rest, key);
    }
  }

  lemma {:induction false} RemoveKeepsMembers(keys: seq<Key>, key: Key)
    ensures forall k :: k in keys && k != key ==> k in Remove(keys, key)
  {
    if keys != [] {
      assert keys == [keys[0]] + keys[1..];
      RemoveKeepsMembers(keys[1..], key);
    }
  }

  lemma MoveKeepsExact(c: Cache, key: Key)
    requires Exact(c)
    ensures Exact(c.(order := MoveToEnd(c.order, key)))
  {
    RemoveShape(c.order, key);
  }

  lemma MoveKeepsCovered(c: Cache, key: Key)
    requires Covered(c)
    ensures Covered(c.(order := MoveToEnd(c.order, key)))
  {
    RemoveKeepsMembers(c.order, key);
  }

  // ----- Runs -----

  datatype Op =
    | DoGet(key: Key, loaded: Option<Session>, now: Time)
    | DoPut(key: Key, session: Session)
    | DoImport(entries: seq<Entry>, now: Time)
    | DoClear

  function Apply(c: Cache, op: Op): Cache {
    match op
    case DoGet(key, loaded, now) => Get(c, key, loaded, now).0
    case DoPut(key, s) => Put(c, key, s)
    case DoImport(entries, now) => Import(c, entries, now)
    case DoClear => Empty
  }

  predicate DistinctKeys(entries: seq<Entry>) {
    forall i, j :: 0 <= i < j < |entries| ==> entries[i].key != entries[j].key
  }

  function AcceptedKeys(entries: seq<Entry>, now: Time): seq<Key> {
    if entries == [] then [] else
      var last := entries[|entries| - 1];
      AcceptedKeys(entries[..|entries| - 1], now) + if Accepted(last, now) then [last.key] else []
  }

  /** No accepted entry of the import is already cached. */
  predicate Fresh(c: Cache, entries: seq<Entry>, now: Time) {
    forall k :: k in AcceptedKeys(entries, now) ==> k !in c.sessions
  }

  /** A cache together with what was done to it since it was last empty: the keys touched,
      in order, and the value last stored under each key. */
  datatype Trace = Trace(cache: Cache, touches: seq<Key>, stored: map<Key, Session>)

  const Start := Trace(Empty, [], map[])

  function StoredAll(m: map<Key, Session>, entries: seq<Entry>, now: Time): map<Key, Session> {
    if entries == [] then m else
      var before, last := StoredAll(m, entries[..|entries| - 1], now), entries[|entries| - 1];
      if Accepted(last, now) then before[last.key := last.session] else before
  }

  function Step(t: Trace, op: Op): Trace {
    var c := t.cache;
    match op
    case DoGet(key, loaded, now) =>
      if key in c.sessions then Trace(Apply(c, op), t.touches + [key], t.stored)
      else if Get(c, key, loaded, now).1.Some? then
        Trace(Apply(c, op), t.touches + [key], t.stored[key := Get(c, key, loaded, now).1.value])
      else t
    case DoPut(key, s) => Trace(Apply(c, op), t.touches + [key], t.stored[key := s])
    case DoImport(entries, now) =>
      Trace(Apply(c, op), t.touches + AcceptedKeys(entries, now), StoredAll(t.stored, entries, now))
    case DoClear => Start
  }

  function Run(ops: seq<Op>): Trace {
    if ops == [] then Start else Step(Run(ops[..|ops| - 1]), ops[|ops| - 1])
  }

  /** Imports list each key once, as a map does. */
  predicate ValidOp(op: Op) {
    op.DoImport? ==> DistinctKeys(op.entries)
  }

  predicate FreshRun(ops: seq<Op>) {
    ops != [] ==>
      var init, op := ops[..|ops| - 1], ops[|ops| - 1];
      FreshRun(init) && ValidOp(op) && (op.DoImport? ==> Fresh(Run(init).cache, op.entries, op.now))
  }

  /** The keys ever touched, once each, least recently touched first. */
  function Recency(touches: seq<Key>): seq<Key> {
    if touches == [] then [] else
      Remove(Recency(touches[..|touches| - 1]), touches[|touches| - 1]) + [touches[|touches| - 1]]
  }

  /** The order list is the tail of the recency order, and the cached values are the last
      ones stored. So eviction always takes the least recently touched key. */
  ghost predicate Lru(t: Trace) {
    && Exact(t.cache)
    && IsSuffix(t.cache.order, Recency(t.touches))
    && forall k :: k in t.cache.sessions ==> k in t.stored && t.stored[k] == t.cache.sessions[k]
  }

  lemma {:induction false} RecencyIsDistinct(touches: seq<Key>)
    ensures Distinct(Recency(touches))
  {
    if touches != [] {
      var before, last := Recency(touches[..|touches| - 1]), touches[|touches| - 1];
      RecencyIsDistinct(touches[..|touches| - 1]);
      RemoveShape(before, last);
      DistinctSnoc(Remove(before, last), last);
    }
  }

  lemma {:induction false} RemoveConcat(p: seq<Key>, a: seq<Key>, key: Key)
    requires Distinct(p + a)
    ensures Remove(p + a, key) == if key in p then Remove(p, key) + a else p + Remove(a, key)
  {
    if p == [] {
      assert p + a == a;
    } else {
      var q := p[1..];
      assert p == [p[0]] + q;
      assert (p + a)[0] == p[0] && (p + a)[1..] == q + a;
      assert forall i :: 0 <= i < |q + a| ==> (q + a)[i] == (p + a)[i + 1];
      RemoveConcat(q, a, key);
    }
  }

  lemma ConcatSuffix(p: seq<Key>, a: seq<Key>, key: Key)
    ensures IsSuffix(a + [key], p + a + [key])
  {
    assert (p + a + [key])[|p|..] == a + [key];
  }

  /** Touching a key keeps the tail property, whether the key is listed or new. */
  lemma TouchKeepsSuffix(a: seq<Key>, r: seq<Key>, key: Key)
    requires Distinct(r) && IsSuffix(a, r)
    ensures IsSuffix(if key in a then MoveToEnd(a, key) else a + [key], Remove(r, key) + [key])
  {
    var p := r[..|r| - |a|];
    assert r == p + a;
    RemoveConcat(p, a, key);
    hide Remove, IsSuffix;
    if key in a {
      NotInBoth(p, a, key);
      ConcatSuffix(p, Remove(a, key), key);
    } else {
      RemoveAbsent(a, key);
      ConcatSuffix(if key in p then Remove(p, key) else p, a, key);
    }
  }

  lemma NotInBoth(p: seq<Key>, a: seq<Key>, key: Key)
    requires Distinct(p + a) && key in a
    ensures key !in p
  {
    var i :| 0 <= i < |a| && a[i] == key;
    assert (p + a)[|p| + i] == key;
    assert forall j :: 0 <= j < |p| ==> (p + a)[j] == p[j];
  }

  lemma {:induction false} RemoveAbsent(a: seq<Key>, key: Key)
    requires key !in a
    ensures Remove(a, key) == a
  {
    if a != [] { RemoveAbsent(a[1..], key); }
  }

  lemma SuffixTrans(a: seq<Key>, b: seq<Key>, c: seq<Key>)
    requires IsSuffix(a, b) && IsSuffix(b, c)
    ensures IsSuffix(a, c)
  {
    assert c[|c| - |a|..] == c[|c| - |b|..][|b| - |a|..];
  }

  lemma RecencySnoc(touches: seq<Key>, key: Key)
    ensures Recency(touches + [key]) == Remove(Recency(touches), key) + [key]
  {
    assert (touches + [key])[..|touches|] == touches;
  }

  lemma EvictKeepsLru(t: Trace)
    requires Lru(t)
    ensures Lru(t.(cache := Evict(t.cache)))
  {
    EvictKeepsExact(t.cache);
    EvictTakesTheFront(t.cache);
    SuffixTrans(Evict(t.cache).order, t.cache.order, Recency(t.touches));
  }

  lemma AddKeepsExact(c: Cache, key: Key, s: Session)
    requires Exact(c) && key !in c.sessions
    ensures Exact(Add(c, key, s)) && key !in c.order
  {
    DistinctSnoc(c.order, key);
  }

  lemma HitKeepsExact(c: Cache, key: Key, s: Session)
    requires Exact(c) && key in c.sessions
    ensures Exact(Cache(c.sessions[key := s], MoveToEnd(c.order, key))) && key in c.order
  {
    MoveKeepsExact(c, key);
  }

  lemma TouchKeepsTail(order: seq<Key>, touches: seq<Key>, key: Key)
    requires IsSuffix(order, Recency(touches))
    ensures IsSuffix(if key in order then MoveToEnd(order, key) else order + [key], Recency(touches + [key]))
  {
    hide IsSuffix, MoveToEnd;
    RecencyIsDistinct(touches);
    RecencySnoc(touches, key);
    TouchKeepsSuffix(order, Recency(touches), key);
  }

  lemma AddKeepsLru(t: Trace, key: Key, s: Session)
    requires Lru(t) && key !in t.cache.sessions
    ensures Lru(Trace(Add(t.cache, key, s), t.touches + [key], t.stored[key := s]))
  {
    hide Exact, IsSuffix, Recency, MoveToEnd;
    AddKeepsExact(t.cache, key, s);
    TouchKeepsTail(t.cache.order, t.touches, key);
  }

  lemma HitKeepsLru(t: Trace, key: Key, s: Session)
    requires Lru(t) && key in t.cache.sessions
    ensures Lru(Trace(Cache(t.cache.sessions[key := s], MoveToEnd(t.cache.order, key)),
                      t.touches + [key], t.stored[key := s]))
  {
    hide Exact, IsSuffix, Recency, MoveToEnd;
    HitKeepsExact(t.cache, key, s);
    TouchKeepsTail(t.cache.order, t.touches, key);
  }

  lemma {:induction false} AddAllKeys(c: Cache, entries: seq<Entry>, now: Time)
    ensures AddAll(c, entries, now).sessions.Keys == c.sessions.Keys + Elements(AcceptedKeys(entries, now))
  {
    if entries != [] {
      AddAllKeys(c, entries[..|entries| - 1], now);
      if Accepted(entries[|entries| - 1], now) {
        ElementsSnoc(AcceptedKeys(entries[..|entries| - 1], now), entries[|entries| - 1].key);
      } else {
        assert AcceptedKeys(entries, now) == AcceptedKeys(entries[..|entries| - 1], now);
      }
    }
  }

  lemma {:induction false} AcceptedMembers(entries: seq<Entry>, now: Time)
    ensures forall k :: k in AcceptedKeys(entries, now) <==> exists e :: e in entries && Accepted(e, now) && e.key == k
  {
    if entries != [] {
      var init, last := entries[..|entries| - 1], entries[|entries| - 1];
      AcceptedMembers(init, now);
      assert entries == init + [last];
    }
  }

  /** The last entry of a fresh import is new to the cache that the earlier ones have filled. */
  lemma LastIsNew(c: Cache, entries: seq<Entry>, now: Time)
    requires entries != [] && DistinctKeys(entries) && Fresh(c, entries, now)
    requires Accepted(entries[|entries| - 1], now)
    ensures entries[|entries| - 1].key !in AddAll(c, entries[..|entries| - 1], now).sessions
  {
    var init, last := entries[..|entries| - 1], entries[|entries| - 1];
    assert last.key in AcceptedKeys(entries, now);
    AddAllKeys(c, init, now);
    AcceptedMembers(init, now);
    forall e | e in init
      ensures e.key != last.key
    {
      var i :| 0 <= i < |init| && init[i] == e;
      assert entries[i] == e;
    }
  }

  lemma {:induction false} AddAllKeepsLru(t: Trace, entries: seq<Entry>, now: Time)
    requires Lru(t) && DistinctKeys(entries) && Fresh(t.cache, entries, now)
    ensures Lru(Trace(AddAll(t.cache, entries, now), t.touches + AcceptedKeys(entries, now),
                      StoredAll(t.stored, entries, now)))
  {
    hide Lru;
    if entries == [] {
      assert t.touches + [] == t.touches;
    } else {
      var init, last := entries[..|entries| - 1], entries[|entries| - 1];
      assert forall k :: k in AcceptedKeys(init, now) ==> k in AcceptedKeys(entries, now);
      AddAllKeepsLru(t, init, now);
      var t' := Trace(AddAll(t.cache, init, now), t.touches + AcceptedKeys(init, now), StoredAll(t.stored, init, now));
      if Accepted(last, now) {
        LastIsNew(t.cache, entries, now);
        AddKeepsLru(t', last.key, last.session);
        assert t.touches + AcceptedKeys(entries, now) == t'.touches + [last.key];
      } else {
        assert AcceptedKeys(entries, now) == AcceptedKeys(init, now);
      }
    }
  }

  lemma SameEntry(m: map<Key, Session>, key: Key)
    requires key in m
    ensures m[key := m[key]] == m
  {}

  lemma ReadKeepsLru(t: Trace, key: Key)
    requires Lru(t) && key in t.cache.sessions
    ensures Lru(Trace(t.cache.(order := MoveToEnd(t.cache.order, key)), t.touches + [key], t.stored))
  {
    assert key in t.stored && t.stored[key] == t.cache.sessions[key];
    hide Lru, MoveToEnd;
    HitKeepsLru(t, key, t.cache.sessions[key]);
    SameEntry(t.cache.sessions, key);
    SameEntry(t.stored, key);
  }

  lemma GetKeepsLru(t: Trace, key: Key, loaded: Option<Session>, now: Time)
    requires Lru(t)
    ensures Lru(Step(t, DoGet(key, loaded, now)))
  {
    hide Lru, Evict, MoveToEnd;
    if key in t.cache.sessions {
      ReadKeepsLru(t, key);
    } else if Get(t.cache, key, loaded, now).1.Some? {
      AddKeepsLru(t, key, loaded.value);
      EvictKeepsLru(Trace(Add(t.cache, key, loaded.value), t.touches + [key], t.stored[key := loaded.value]));
    }
  }

  lemma PutKeepsLru(t: Trace, key: Key, s: Session)
    requires Lru(t)
    ensures Lru(Step(t, DoPut(key, s)))
  {
    hide Lru, Evict, MoveToEnd;
    if key in t.cache.sessions {
      HitKeepsLru(t, key, s);
    } else {
      EvictKeepsLru(t);
      EvictTakesTheFront(t.cache);
      AddKeepsLru(t.(cache := Evict(t.cache)), key, s);
    }
  }

  lemma ImportKeepsLru(t: Trace, entries: seq<Entry>, now: Time)
    requires Lru(t) && DistinctKeys(entries) && Fresh(t.cache, entries, now)
    ensures Lru(Step(t, DoImport(entries, now)))
  {
    AddAllKeepsLru(t, entries, now);
    hide Lru, Evict, AddAll, AcceptedKeys, StoredAll, DistinctKeys, Fresh;
    EvictKeepsLru(Trace(AddAll(t.cache, entries, now), t.touches + AcceptedKeys(entries, now),
                        StoredAll(t.stored, entries, now)));
  }

  lemma StepKeepsLru(t: Trace, op: Op)
    requires Lru(t) && ValidOp(op) && (op.DoImport? ==> Fresh(t.cache, op.entries, op.now))
    ensures Lru(Step(t, op))
  {
    assert Lru(Start);
    match op
    case DoGet(key, loaded, now) => hide *; GetKeepsLru(t, key, loaded, now);
    case DoPut(key, s) => hide *; PutKeepsLru(t, key, s);
    case DoImport(entries, now) =>
      assert DistinctKeys(entries);
      hide *;
      ImportKeepsLru(t, entries, now);
    case DoClear => hide Lru;
  }

  /** In every run whose imports are fresh the cache is an exact LRU cache. */
  lemma {:induction false} RunIsLru(ops: seq<Op>)
    requires FreshRun(ops)
    ensures Lru(Run(ops))
  {
    if ops != [] {
      RunIsLru(ops[..|ops| - 1]);
      StepKeepsLru(Run(ops[..|ops| - 1]), ops[|ops| - 1]);
    }
  }

  // ----- Answers -----

  /** A hit answers with the session last stored under the key; a miss with what the backend
      has, if that is at most 24 hours old. */
  lemma GetAnswers(t: Trace, key: Key, loaded: Option<Session>, now: Time)
    requires Lru(t)
    ensures key in t.cache.sessions ==>
              key in t.stored && Get(t.cache, key, loaded, now).1 == Some(t.stored[key])
    ensures key !in t.cache.sessions ==>
              Get(t.cache, key, loaded, now).1
              == if loaded.Some? && now - loaded.value.createdAt <= 24 * 3_600_000_000_000 then loaded else None
  {}

  lemma RunAnswers(ops: seq<Op>, key: Key, loaded: Option<Session>, now: Time)
    requires FreshRun(ops)
    ensures var t, answer := Run(ops), Get(Run(ops).cache, key, loaded, now).1;
            && (key in t.cache.sessions ==> key in t.stored && answer == Some(t.stored[key]))
            && (key !in t.cache.sessions ==>
                  answer == if loaded.Some? && now - loaded.value.createdAt <= 24 * 3_600_000_000_000 then loaded else None)
  {
    RunIsLru(ops);
    hide Lru, Run, Get;
    GetAnswers(Run(ops), key, loaded, now);
  }

  /** A session put or loaded is there for the next Get, whatever is evicted. */
  lemma StoredIsFound(c: Cache, key: Key, s: Session, loaded: Option<Session>, now: Time)
    requires Exact(c)
    ensures Get(Put(c, key, s), key, loaded, now).1 == Some(s)
    ensures key !in c.sessions && Get(c, key, Some(s), now).1 == Some(s) ==>
              Get(Get(c, key, Some(s), now).0, key, loaded, now).1 == Some(s)
  {
    if key !in c.sessions {
      AddKeepsExact(c, key, s);
      NewestSurvives(Add(c, key, s), key);
    }
  }

  lemma LongOrder(c: Cache)
    requires Exact(c) && |c.sessions| > 1
    ensures |c.order| > 1
  {
    SizeOfElements(c.order);
    assert Elements(c.order) == c.sessions.Keys;
    assert |c.sessions| == |c.sessions.Keys|;
  }

  lemma {:induction false} NewestSurvives(c: Cache, key: Key)
    requires Exact(c) && c.order != [] && c.order[|c.order| - 1] == key
    ensures key in Evict(c).sessions && Evict(c).sessions[key] == c.sessions[key]
    decreases |c.order|
  {
    assert key in c.order;
    if |c.sessions| > MAX_SIZE {
      DropKeepsExact(c);
      LongOrder(c);
      NewestSurvives(DropOldest(c), key);
    }
  }

  /** What an import brings in before it evicts: exactly the readable sessions that are at most
      24 hours old, over what was cached under their keys; everything else stays. */
  lemma {:induction false} ImportBrings(c: Cache, entries: seq<Entry>, now: Time, k: Key)
    requires DistinctKeys(entries)
    ensures var added := AddAll(c, entries, now);
            && (forall e :: e in entries && e.key == k && e.readable && now - e.session.createdAt <= 24 * 3_600_000_000_000 ==>
                  k in added.sessions && added.sessions[k] == e.session)
            && ((forall e :: e in entries && e.key == k ==> !e.readable || now - e.session.createdAt > 24 * 3_600_000_000_000) ==>
                  (k in added.sessions <==> k in c.sessions) && (k in c.sessions ==> added.sessions[k] == c.sessions[k]))
  {
    if entries != [] {
      var init, last := entries[..|entries| - 1], entries[|entries| - 1];
      assert entries == init + [last];
      ImportBrings(c, init, now, k);
      assert forall e :: e in init ==> e.key != last.key by {
        forall e | e in init ensures e.key != last.key {
          var i :| 0 <= i < |init| && init[i] == e;
          assert entries[i] == e;
        }
      }
    }
  }

  // ----- Sizes, with any imports -----

  lemma {:induction false} AddAllKeepsCovered(c: Cache, entries: seq<Entry>, now: Time)
    requires Covered(c)
    ensures Covered(AddAll(c, entries, now))
  {
    if entries != [] { AddAllKeepsCovered(c, entries[..|entries| - 1], now); }
  }

  lemma PutKeepsSize(c: Cache, key: Key, s: Session)
    requires Covered(c) && |c.sessions| <= MAX_SIZE + 1
    ensures Covered(Put(c, key, s)) && |Put(c, key, s).sessions| <= MAX_SIZE + 1
  {
    if key in c.sessions {
      MoveKeepsCovered(c, key);
      assert c.sessions[key := s].Keys == c.sessions.Keys;
      assert |c.sessions[key := s]| == |c.sessions[key := s].Keys|;
    } else {
      EvictReachesTarget(c);
      var d := Evict(c);
      assert d.sessions[key := s].Keys == d.sessions.Keys + {key};
      assert |d.sessions[key := s]| == |d.sessions[key := s].Keys|;
    }
  }

  /** Every operation keeps the cached keys within the order list and the size within 33;
      an import or a load from the backend brings it down to 32. */
  lemma StepKeepsSize(c: Cache, op: Op)
    requires Covered(c) && |c.sessions| <= MAX_SIZE + 1
    ensures Covered(Apply(c, op)) && |Apply(c, op).sessions| <= 33
    ensures op.DoImport? ==> |Apply(c, op).sessions| <= 32
    ensures op.DoGet? && op.key !in c.sessions && Apply(c, op) != c ==> |Apply(c, op).sessions| <= 32
  {
    hide Evict;
    match op
    case DoGet(key, loaded, now) =>
      MoveKeepsCovered(c, key);
      if loaded.Some? { EvictReachesTarget(Add(c, key, loaded.value)); }
    case DoPut(key, s) => PutKeepsSize(c, key, s);
    case DoImport(entries, now) =>
      AddAllKeepsCovered(c, entries, now);
      EvictReachesTarget(AddAll(c, entries, now));
    case DoClear =>
  }

  lemma {:induction false} RunKeepsSize(ops: seq<Op>)
    ensures Covered(Run(ops).cache) && |Run(ops).cache.sessions| <= 33
  {
    if ops != [] {
      RunKeepsSize(ops[..|ops| - 1]);
      StepKeepsSize(Run(ops[..|ops| - 1]).cache, ops[|ops| - 1]);
    }
  }

  /** Eviction stops at 32: it takes nothing from a smaller cache and no more than it must
      from a larger one. */
  lemma {:induction false} EvictStopsAtTarget(c: Cache)
    requires Covered(c)
    ensures |Evict(c).sessions| == Min(|c.sessions|, MAX_SIZE)
    decreases |c.order|
  {
    if |c.order| == 0 {
      assert c.sessions == map[];
    } else if |c.sessions| > MAX_SIZE {
      var d := DropOldest(c);
      DropKeepsCovered(c);
      EvictStopsAtTarget(d);
      assert d.sessions.Keys == c.sessions.Keys - {c.order[0]};
      assert |d.sessions.Keys| >= |c.sessions.Keys| - 1;
      assert |d.sessions| == |d.sessions.Keys| && |c.sessions| == |c.sessions.Keys|;
    }
  }

  /** Put evicts before it inserts, so it keeps to the limit exactly when the key is cached
      and the limit was kept before, or the key is new and there was room for one more. */
  lemma PutKeepsLimitIff(c: Cache, key: Key, s: Session)
    requires Covered(c)
    ensures |Put(c, key, s).sessions| <= 32 <==> if key in c.sessions then |c.sessions| <= 32 else |c.sessions| < 32
    ensures key !in c.sessions ==> |Put(c, key, s).sessions| == Min(|c.sessions|, 32) + 1
  {
    EvictStopsAtTarget(c);
    EvictTakesTheFront(c);
    SizeAfterStore(c.sessions, key, s);
    SizeAfterStore(Evict(c).sessions, key, s);
    hide Evict, Covered, MoveToEnd, IsSuffix;
  }

  lemma SizeAfterStore(m: map<Key, Session>, key: Key, s: Session)
    ensures |m[key := s]| == |m| + if key in m then 0 else 1
  {
    assert m[key := s].Keys == m.Keys + {key};
    assert |m[key := s]| == |m[key := s].Keys| && |m| == |m.Keys|;
  }

  /** A full cache does reach 33 entries, whatever its order list. */
  lemma PutOverfills(c: Cache, key: Key, s: Session)
    requires |c.sessions| == MAX_SIZE && key !in c.sessions
    ensures |Put(c, key, s).sessions| == MAX_SIZE + 1
  {
    assert Put(c, key, s).sessions.Keys == c.sessions.Keys + {key};
  }

  // ----- Importing keys that are cached already -----

  /** `k` ends the order list, yet is cached no more or is listed twice. */
  ghost predicate Stale(c: Cache, k: Key) {
    && Covered(c) && |c.order| > 0 && c.order[|c.order| - 1] == k
    && (k in c.sessions ==> k in c.order[..|c.order| - 1])
  }

  lemma {:induction false} EvictKeepsStale(c: Cache, k: Key)
    requires Stale(c, k)
    ensures Stale(Evict(c), k) && !Exact(Evict(c))
    decreases |c.order|
  {
    assert |c.order| == 1 ==> c.sessions == map[];
    if |c.sessions| > MAX_SIZE {
      var d := DropOldest(c);
      DropKeepsCovered(c);
      if k in d.sessions {
        var i :| 0 <= i < |c.order| - 1 && c.order[i] == k;
        assert d.order[i - 1] == k;
      }
      EvictKeepsStale(d, k);
    } else if k in c.sessions {
      var i :| 0 <= i < |c.order| - 1 && c.order[i] == k;
      assert c.order[i] == c.order[|c.order| - 1];
    } else {
      assert k in c.order;
    }
  }

  lemma {:induction false} AddAllAppends(c: Cache, entries: seq<Entry>, now: Time)
    ensures AddAll(c, entries, now).order == c.order + AcceptedKeys(entries, now)
  {
    if entries != [] { AddAllAppends(c, entries[..|entries| - 1], now); }
  }

  lemma FreshImportIsExact(c: Cache, entries: seq<Entry>, now: Time)
    requires Exact(c) && DistinctKeys(entries) && Fresh(c, entries, now)
    ensures Exact(Import(c, entries, now))
  {
    RecencyOfDistinct(c.order);
    var t := Trace(c, c.order, c.sessions);
    assert Lru(t);
    AddAllKeepsLru(t, entries, now);
    EvictKeepsExact(AddAll(c, entries, now));
  }

  /** An accepted key that is cached already spoils the order list when it comes last. */
  lemma StaleImportIsInexact(c: Cache, init: seq<Entry>, last: Entry, now: Time)
    requires Exact(c) && Accepted(last, now) && last.key in c.sessions
    ensures !Exact(Import(c, init + [last], now))
  {
    var order := init + [last];
    assert order[..|order| - 1] == init;
    AddAllAppends(c, init, now);
    AddAllKeepsCovered(c, order, now);
    var added := AddAll(c, order, now);
    assert added.order[..|added.order| - 1] == c.order + AcceptedKeys(init, now);
    EvictKeepsStale(added, last.key);
  }

  /** Import keeps the cache exact for every iteration order of the imported map if and only
      if none of its accepted keys is cached already. */
  lemma ImportIsExactIffFresh(c: Cache, entries: seq<Entry>, now: Time)
    requires Exact(c) && DistinctKeys(entries)
    ensures Fresh(c, entries, now) <==>
            forall order: seq<Entry> :: multiset(order) == multiset(entries) ==> Exact(Import(c, order, now))
  {
    hide Exact, DistinctKeys, Import;
    if Fresh(c, entries, now) {
      forall order: seq<Entry> | multiset(order) == multiset(entries)
        ensures Exact(Import(c, order, now))
      {
        ReorderedIsFresh(c, entries, order, now);
        FreshImportIsExact(c, order, now);
      }
    } else {
      AcceptedMembers(entries, now);
      var k :| k in AcceptedKeys(entries, now) && k in c.sessions;
      var e :| e in entries && Accepted(e, now) && e.key == k;
      var init := PutLast(entries, e);
      StaleImportIsInexact(c, init, e, now);
    }
  }

  lemma PutLast(entries: seq<Entry>, e: Entry) returns (init: seq<Entry>)
    requires e in entries
    ensures multiset(init + [e]) == multiset(entries)
  {
    var i :| 0 <= i < |entries| && entries[i] == e;
    init := entries[..i] + entries[i + 1..];
    assert entries == entries[..i] + [e] + entries[i + 1..];
  }

  lemma ReorderedIsFresh(c: Cache, entries: seq<Entry>, order: seq<Entry>, now: Time)
    requires DistinctKeys(entries) && Fresh(c, entries, now) && multiset(order) == multiset(entries)
    ensures DistinctKeys(order) && Fresh(c, order, now)
  {
    AcceptedMembers(entries, now);
    AcceptedMembers(order, now);
    SameMembers(order, entries);
    ReorderedIsDistinct(entries, order);
    forall i, j | 0 <= i < j < |order|
      ensures order[i].key != order[j].key
    {
      if order[i].key == order[j].key { SameKeySameEntry(entries, order[i], order[j]); }
    }
  }

  lemma SameKeySameEntry(entries: seq<Entry>, a: Entry, b: Entry)
    requires DistinctKeys(entries) && a in entries && b in entries && a.key == b.key
    ensures a == b
  {}

  lemma {:induction false} RecencyOfDistinct(keys: seq<Key>)
    requires Distinct(keys)
    ensures Recency(keys) == keys
  {
    if keys != [] {
      var init, last := keys[..|keys| - 1], keys[|keys| - 1];
      RecencyOfDistinct(init);
      assert keys == init + [last] && last !in init;
      RemoveAbsent(init, last);
    }
  }

  // ----- The cache object -----

  class PersistableSessionCache {
    var sessions: map<Key, Session>
    var accessOrder: seq<Key>

    constructor ()
      ensures View() == Empty
    {
      sessions, accessOrder := map[], [];
    }

    ghost function View(): Cache
      reads this
    {
      Cache(sessions, accessOrder)
    }

    method GetSession(sessionKey: Key, loaded: Option<Session>, now: Time) returns (s: Option<Session>)
      modifies this
      ensures (View(), s) == Get(old(View()), sessionKey, loaded, now)
    {
      if sessionKey in sessions {
        Reorder(sessionKey);
        return Some(sessions[sessionKey]);
      }
      if loaded.None? { return None; }
      if now - loaded.value.createdAt > MAX_AGE { return None; }
      sessions := sessions[sessionKey := loaded.value];
      accessOrder := accessOrder + [sessionKey];
      EvictIfNeeded();
      return loaded;
    }

    method EvictIfNeeded()
      modifies this
      ensures View() == Evict(old(View()))
    {
      while |sessions| > MAX_SIZE && |accessOrder| > 0
        invariant Evict(View()) == Evict(old(View()))
        decreases |accessOrder|
      {
        var oldest := accessOrder[0];
        accessOrder := accessOrder[1..];
        sessions := sessions - {oldest};
      }
    }

    /** moveToEnd. */
    method Reorder(key: Key)
      modifies this`accessOrder
      ensures accessOrder == MoveToEnd(old(accessOrder), key)
    {
      ghost var all := accessOrder;
      for i := 0 to |accessOrder|
        invariant accessOrder == all && key !in all[..i]
      {
        if accessOrder[i] == key {
          RemoveAt(all, key, i);
          accessOrder := accessOrder[..i] + accessOrder[i + 1..];
          accessOrder := accessOrder + [key];
          return;
        }
      }
      assert all[..|all|] == all;
    }

    method PutSession(sessionKey: Key, s: Session)
      modifies this
      ensures View() == Put(old(View()), sessionKey, s)
    {
      if sessionKey in sessions {
        sessions := sessions[sessionKey := s];
        Reorder(sessionKey);
      } else {
        EvictIfNeeded();
        sessions := sessions[sessionKey := s];
        accessOrder := accessOrder + [sessionKey];
      }
    }

    method ImportSessions(entries: seq<Entry>, now: Time)
      modifies this
      ensures View() == Import(old(View()), entries, now)
    {
      for i := 0 to |entries|
        invariant View() == AddAll(old(View()), entries[..i], now)
      {
        var e := entries[i];
        assert entries[..i + 1][..i] == entries[..i];
        if now - e.session.createdAt > MAX_AGE { continue; }
        if !e.readable { continue; }
        sessions := sessions[e.key := e.session];
        accessOrder := accessOrder + [e.key];
      }
      assert entries[..|entries|] == entries;
      EvictIfNeeded();
    }

    method Clear()
      modifies this
      ensures View() == Empty
    {
      sessions, accessOrder := map[], [];
    }
  }

  lemma {:induction false} RemoveAt(keys: seq<Key>, key: Key, i: nat)
    requires i < |keys| && keys[i] == key && key !in keys[..i]
    ensures Remove(keys, key) == keys[..i] + keys[i + 1..]
  {
    if i > 0 {
      assert keys[..i][0] == keys[0];
      assert keys[1..][..i - 1] == keys[..i][1..];
      RemoveAt(keys[1..], key, i - 1);
    }
  }
}
