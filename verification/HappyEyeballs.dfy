/** The concurrent dial of pool/pool.go: preferred addresses, after a failure or 250 ms the
    fallback ones, one channel and one counter. Every interleaving with the collector is a run. */
module HappyEyeballs {

  import opened Wrappers

  datatype Address = Address(id: int, isIPv6: bool)

  /** Where a dial's result is: not there yet, in the channel, taken by the collector, or
      thrown away by the dial itself because the dial context was cancelled first. */
  datatype Progress = Dialing | Queued(ok: bool) | Taken(ok: bool) | Discarded

  datatype Dial = Dial(address: Address, progress: Progress)

  datatype Phase =
    | FirstWait
    | Collecting(received: nat)
    | Connected(dial: nat)
    | Exhausted(lastError: Option<nat>)
    | ContextDone
    | NoAddresses

  datatype State = State(fallback: seq<Address>, dials: seq<Dial>, started: int, phase: Phase,
                         lastError: Option<nat>, cancelled: bool)

  datatype Event =
    | Finish(dial: nat, ok: bool)
    | Discard(dial: nat)
    | Cancel
    | TakeFirst(dial: nat)
    | FirstTimeout
    | Take(dial: nat)
    | NoMore
    | SeeCancel

  // ----- Starting -----

  function OfFamily(addresses: seq<Address>, isIPv6: bool): seq<Address> {
    if addresses == [] then [] else
      OfFamily(addresses[..|addresses| - 1], isIPv6)
      + if addresses[|addresses| - 1].isIPv6 == isIPv6 then [addresses[|addresses| - 1]] else []
  }

  /** With a local address only addresses of its family are dialed. */
  function Filtered(addresses: seq<Address>, localIsIPv6: Option<bool>): seq<Address> {
    if localIsIPv6.None? then addresses else OfFamily(addresses, localIsIPv6.value)
  }

  function Dials(addresses: seq<Address>): seq<Dial> {
    seq(|addresses|, i requires 0 <= i < |addresses| => Dial(addresses[i], Dialing))
  }

  function Start(preferred: seq<Address>, fallback: seq<Address>): State {
    if |preferred| + |fallback| == 0 then State([], [], 0, NoAddresses, None, false)
    else State(fallback, Dials(preferred), |preferred|, if fallback != [] then FirstWait else Collecting(0), None, false)
  }

  function StartFallback(s: State): State {
    s.(dials := s.dials + Dials(s.fallback), started := s.started + |s.fallback|, phase := Collecting(0))
  }

  // ----- Steps -----

  function Mark(s: State, d: nat, p: Progress): State
    requires d < |s.dials|
  {
    s.(dials := s.dials[d := s.dials[d].(progress := p)])
  }

  predicate Waiting(s: State) {
    s.phase.FirstWait? || s.phase.Collecting?
  }

  /** One atomic step; `None` when the event cannot happen. A dial may throw its result away
      only once the dial context is cancelled, by the caller's context or by a return. */
  function Next(s: State, e: Event): Option<State> {
    match e
    case Finish(d, ok) =>
      if d < |s.dials| && s.dials[d].progress.Dialing? then Some(Mark(s, d, Queued(ok))) else None
    case Discard(d) =>
      if d < |s.dials| && s.dials[d].progress.Dialing? && (s.cancelled || !Waiting(s)) then Some(Mark(s, d, Discarded)) else None
    case Cancel => Some(s.(cancelled := true))
    case TakeFirst(d) =>
      if !s.phase.FirstWait? || d >= |s.dials| || !s.dials[d].progress.Queued? then None
      else
        var ok := s.dials[d].progress.ok;
        var taken := Mark(s, d, Taken(ok));
        Some(if ok then taken.(phase := Connected(d)) else StartFallback(taken.(started := s.started - 1)))
    case FirstTimeout =>
      if s.phase.FirstWait? then Some(StartFallback(s)) else None
    case Take(d) =>
      if !s.phase.Collecting? || s.phase.received >= s.started || d >= |s.dials| || !s.dials[d].progress.Queued? then None
      else
        var ok := s.dials[d].progress.ok;
        var taken := Mark(s, d, Taken(ok));
        Some(if ok then taken.(phase := Connected(d))
             else taken.(phase := Collecting(s.phase.received + 1), lastError := Some(d)))
    case NoMore =>
      if s.phase.Collecting? && s.phase.received >= s.started then Some(s.(phase := Exhausted(s.lastError))) else None
    case SeeCancel =>
      if s.cancelled && Waiting(s) && (s.phase.Collecting? ==> s.phase.received < s.started)
      then Some(s.(phase := ContextDone)) else None
  }

  function Run(s: State, events: seq<Event>): Option<State>
    decreases |events|
  {
    if events == [] then Some(s) else
      var s' := Next(s, events[0]);
      if s'.None? then None else Run(s'.value, events[1..])
  }

  // ----- Invariant -----

  predicate Outstanding(d: Dial) {
    d.progress.Dialing? || d.progress.Queued?
  }

  function Count(dials: seq<Dial>): nat {
    if dials == [] then 0 else Count(dials[..|dials| - 1]) + if Outstanding(dials[|dials| - 1]) then 1 else 0
  }

  function AddressesOf(dials: seq<Dial>): seq<Address> {
    seq(|dials|, i requires 0 <= i < |dials| => dials[i].address)
  }

  predicate AllSettled(dials: seq<Dial>) {
    forall i :: 0 <= i < |dials| ==> dials[i].progress != Taken(true) && !dials[i].progress.Discarded?
  }

  /** The counter is right: what the collector still expects is what is still outstanding,
      and no result has been lost or overlooked, until the context is cancelled. */
  ghost predicate Inv(s: State, preferred: seq<Address>, fallback: seq<Address>) {
    && |preferred| + |fallback| > 0
    && (s.lastError.Some? ==> s.lastError.value < |s.dials|)
    && match s.phase
       case FirstWait =>
         && s.fallback == fallback != [] && AddressesOf(s.dials) == preferred
         && s.started == |s.dials| && s.lastError.None?
         && (!s.cancelled ==> s.started == Count(s.dials) && AllSettled(s.dials))
       case Collecting(received) =>
         && AddressesOf(s.dials) == preferred + fallback
         && s.started > 0 && (received > 0 <==> s.lastError.Some?)
         && (!s.cancelled ==> s.started - received == Count(s.dials) && AllSettled(s.dials))
       case Exhausted(lastError) =>
         && AddressesOf(s.dials) == preferred + fallback
         && lastError == s.lastError && lastError.Some?
         && (!s.cancelled ==> forall i :: 0 <= i < |s.dials| ==> s.dials[i].progress == Taken(false))
       case Connected(d) => d < |s.dials| && s.dials[d].progress == Taken(true)
       case ContextDone => true
       case NoAddresses => false
  }

  lemma {:induction false} CountMark(dials: seq<Dial>, d: nat, p: Progress)
    requires d < |dials|
    ensures Count(dials[d := dials[d].(progress := p)])
         == Count(dials) - (if Outstanding(dials[d]) then 1 else 0) + (if p.Dialing? || p.Queued? then 1 else 0)
  {
    var marked := dials[d := dials[d].(progress := p)];
    var n := |dials| - 1;
    if d < n {
      CountMark(dials[..n], d, p);
      assert marked[..n] == dials[..n][d := dials[..n][d].(progress := p)];
    } else {
      assert marked[..n] == dials[..n];
    }
  }

  lemma {:induction false} CountConcat(a: seq<Dial>, b: seq<Dial>)
    ensures Count(a + b) == Count(a) + Count(b)
  {
    if b == [] {
      assert a + b == a;
    } else {
      assert (a + b)[..|a + b| - 1] == a + b[..|b| - 1];
      CountConcat(a, b[..|b| - 1]);
    }
  }

  lemma {:induction false} FreshDialsCount(addresses: seq<Address>)
    ensures Count(Dials(addresses)) == |addresses| && AllSettled(Dials(addresses))
    ensures AddressesOf(Dials(addresses)) == addresses
  {
    if addresses != [] {
      FreshDialsCount(addresses[..|addresses| - 1]);
      assert Dials(addresses)[..|addresses| - 1] == Dials(addresses[..|addresses| - 1]);
    }
  }

  lemma {:induction false} CountBounds(dials: seq<Dial>, i: nat)
    requires i < |dials| && Outstanding(dials[i])
    ensures Count(dials) > 0
  {
    if i < |dials| - 1 { CountBounds(dials[..|dials| - 1], i); }
  }

  lemma {:induction false} CountFinds(dials: seq<Dial>) returns (i: nat)
    requires Count(dials) > 0
    ensures i < |dials| && Outstanding(dials[i])
  {
    i := |dials| - 1;
    if !Outstanding(dials[i]) { i := CountFinds(dials[..i]); }
  }

  lemma MarkKeepsAddresses(s: State, d: nat, p: Progress)
    requires d < |s.dials|
    ensures AddressesOf(Mark(s, d, p).dials) == AddressesOf(s.dials)
    ensures |Mark(s, d, p).dials| == |s.dials|
    ensures AllSettled(s.dials) && p != Taken(true) && !p.Discarded? ==> AllSettled(Mark(s, d, p).dials)
  {}

  lemma StartFallbackCounts(s: State)
    ensures Count(StartFallback(s).dials) == Count(s.dials) + |s.fallback|
    ensures AddressesOf(StartFallback(s).dials) == AddressesOf(s.dials) + s.fallback
    ensures AllSettled(s.dials) ==> AllSettled(StartFallback(s).dials)
  {
    CountConcat(s.dials, Dials(s.fallback));
    FreshDialsCount(s.fallback);
  }

  lemma StartIsGood(preferred: seq<Address>, fallback: seq<Address>)
    requires |preferred| + |fallback| > 0
    ensures Inv(Start(preferred, fallback), preferred, fallback)
  {
    FreshDialsCount(preferred);
    assert fallback == [] ==> preferred + fallback == preferred;
  }

  lemma StepKeepsInv(s: State, e: Event, preferred: seq<Address>, fallback: seq<Address>)
    requires Inv(s, preferred, fallback) && Next(s, e).Some?
    ensures Inv(Next(s, e).value, preferred, fallback)
  {
    hide Count, AddressesOf, AllSettled;
    match e
    case Finish(d, ok) =>
      CountMark(s.dials, d, Queued(ok));
      MarkKeepsAddresses(s, d, Queued(ok));
    case Discard(d) =>
      CountMark(s.dials, d, Discarded);
      MarkKeepsAddresses(s, d, Discarded);
    case TakeFirst(d) =>
      var ok := s.dials[d].progress.ok;
      CountMark(s.dials, d, Taken(ok));
      MarkKeepsAddresses(s, d, Taken(ok));
      if !ok { StartFallbackCounts(Mark(s, d, Taken(ok)).(started := s.started - 1)); }
    case FirstTimeout => StartFallbackCounts(s);
    case Take(d) =>
      var ok := s.dials[d].progress.ok;
      CountMark(s.dials, d, Taken(ok));
      MarkKeepsAddresses(s, d, Taken(ok));
    case NoMore => NothingLeft(s);
    case _ =>
  }

  lemma NothingLeft(s: State)
    requires s.phase.Collecting? && s.phase.received >= s.started
    ensures s.started - s.phase.received == Count(s.dials) && AllSettled(s.dials) ==>
              forall i :: 0 <= i < |s.dials| ==> s.dials[i].progress == Taken(false)
  {
    if s.started - s.phase.received == Count(s.dials) && AllSettled(s.dials) {
      forall i | 0 <= i < |s.dials| ensures s.dials[i].progress == Taken(false) {
        if Outstanding(s.dials[i]) { CountBounds(s.dials, i); }
      }
    }
  }

  lemma {:induction false} RunKeepsInv(s: State, events: seq<Event>, preferred: seq<Address>, fallback: seq<Address>)
    requires Inv(s, preferred, fallback) && Run(s, events).Some?
    ensures Inv(Run(s, events).value, preferred, fallback)
    decreases |events|
  {
    if events != [] {
      StepKeepsInv(s, events[0], preferred, fallback);
      hide Inv;
      RunKeepsInv(Next(s, events[0]).value, events[1..], preferred, fallback);
    }
  }

  // ----- Whole runs -----

  ghost predicate Reaches(preferred: seq<Address>, fallback: seq<Address>, s: State) {
    exists events :: Run(Start(preferred, fallback), events) == Some(s)
  }

  lemma ReachableIsGood(preferred: seq<Address>, fallback: seq<Address>, s: State)
    requires |preferred| + |fallback| > 0 && Reaches(preferred, fallback, s)
    ensures Inv(s, preferred, fallback)
  {
    var events :| Run(Start(preferred, fallback), events) == Some(s);
    StartIsGood(preferred, fallback);
    RunKeepsInv(Start(preferred, fallback), events, preferred, fallback);
  }

  /** While the collector waits for another result, one is still to come: a dial that runs or
      a result in the channel. So it never waits for a result that cannot come. */
  lemma NeverWaitsInVain(preferred: seq<Address>, fallback: seq<Address>, s: State) returns (d: nat)
    requires |preferred| + |fallback| > 0 && Reaches(preferred, fallback, s)
    requires s.phase.Collecting? && s.phase.received < s.started && !s.cancelled
    ensures d < |s.dials| && Outstanding(s.dials[d])
    ensures s.started - s.phase.received == Count(s.dials)
  {
    ReachableIsGood(preferred, fallback, s);
    d := CountFinds(s.dials);
  }

  /** An error without cancellation means that every address of the right family was dialed
      and failed, and the error reported is that of one of them. */
  lemma ErrorMeansAllFailed(preferred: seq<Address>, fallback: seq<Address>, localIsIPv6: Option<bool>, s: State)
    requires var p, f := Filtered(preferred, localIsIPv6), Filtered(fallback, localIsIPv6);
             |p| + |f| > 0 && Reaches(p, f, s)
    requires s.phase.Exhausted? && !s.cancelled
    ensures AddressesOf(s.dials) == Filtered(preferred, localIsIPv6) + Filtered(fallback, localIsIPv6)
    ensures forall i :: 0 <= i < |s.dials| ==> s.dials[i].progress == Taken(false)
    ensures s.phase.lastError.Some? && s.phase.lastError.value < |s.dials|
  {
    ReachableIsGood(Filtered(preferred, localIsIPv6), Filtered(fallback, localIsIPv6), s);
  }

  /** A connection that is returned is that of a dial that succeeded. */
  lemma ConnectedMeansSuccess(preferred: seq<Address>, fallback: seq<Address>, s: State)
    requires |preferred| + |fallback| > 0 && Reaches(preferred, fallback, s) && s.phase.Connected?
    ensures s.phase.dial < |s.dials| && s.dials[s.phase.dial].progress == Taken(true)
  {
    ReachableIsGood(preferred, fallback, s);
  }

  // ----- The channel never overflows -----

  function InChannel(dials: seq<Dial>): nat {
    if dials == [] then 0 else InChannel(dials[..|dials| - 1]) + if dials[|dials| - 1].progress.Queued? then 1 else 0
  }

  lemma {:induction false} InChannelBound(dials: seq<Dial>)
    ensures InChannel(dials) <= |dials|
  {
    if dials != [] { InChannelBound(dials[..|dials| - 1]); }
  }

  /** Dials started never exceed the channel's capacity, so a dial that is done can always send. */
  lemma {:induction false} SendNeverBlocks(s: State, events: seq<Event>, capacity: nat)
    requires Run(s, events).Some? && |s.dials| + (if s.phase.FirstWait? then |s.fallback| else 0) <= capacity
    ensures InChannel(Run(s, events).value.dials) <= |Run(s, events).value.dials| <= capacity
    decreases |events|
  {
    if events == [] {
      InChannelBound(s.dials);
    } else {
      SendNeverBlocks(Next(s, events[0]).value, events[1..], capacity);
    }
  }

  // ----- Which addresses, and progress -----

  lemma {:induction false} FamilyConcat(a: seq<Address>, b: seq<Address>, isIPv6: bool)
    ensures OfFamily(a + b, isIPv6) == OfFamily(a, isIPv6) + OfFamily(b, isIPv6)
  {
    if b == [] {
      assert a + b == a;
    } else {
      assert (a + b)[..|a + b| - 1] == a + b[..|b| - 1];
      FamilyConcat(a, b[..|b| - 1], isIPv6);
    }
  }

  /** Address by address and in order: without a local address all are dialed, with one exactly
      those of its own family. */
  lemma FilterIsExact(a: seq<Address>, address: Address, b: seq<Address>, localIsIPv6: Option<bool>)
    ensures Filtered(a + [address] + b, localIsIPv6)
         == Filtered(a, localIsIPv6)
            + (if localIsIPv6.None? || localIsIPv6 == Some(address.isIPv6) then [address] else [])
            + Filtered(b, localIsIPv6)
    ensures Filtered([], localIsIPv6) == []
  {
    if localIsIPv6.Some? {
      FamilyConcat(a + [address], b, localIsIPv6.value);
      FamilyConcat(a, [address], localIsIPv6.value);
      assert [address][..0] == [];
    }
  }

  /** A waiting collector can always go on as soon as there is a result, no more is expected,
      or the context is cancelled. */
  lemma NeverStuck(s: State, d: nat)
    requires Waiting(s)
    ensures s.phase.FirstWait? ==> Next(s, FirstTimeout).Some?
    ensures d < |s.dials| && s.dials[d].progress.Queued? ==>
              Next(s, if s.phase.FirstWait? then TakeFirst(d) else Take(d)).Some? || Next(s, NoMore).Some?
    ensures s.phase.Collecting? && s.phase.received >= s.started ==> Next(s, NoMore).Some?
    ensures s.cancelled ==> Next(s, SeeCancel).Some? || Next(s, NoMore).Some?
  {}
}
