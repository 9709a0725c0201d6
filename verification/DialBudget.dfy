/** The timeout budget of dialFirstSuccessful in transport/http3_transport.go: addresses are
    dialed one after the other, each with an equal share of the time that is left and at most
    ten seconds. */
module DialBudget {

  import opened Numbers
  import opened Wrappers

  type Time = int

  const MAX_PER_ADDRESS: int := 10_000_000_000

  /** What dialing an address would do if given enough time; `need` is how long that takes. */
  datatype Dial = Dial(ok: bool, need: nat)

  function Share(timeLeft: int, remaining: int): int
    requires remaining > 0
  {
    Quotient(timeLeft, remaining)
  }

  function Grant(deadline: Option<Time>, now: Time, remaining: int): int
    requires remaining > 0
  {
    if deadline.None? then MAX_PER_ADDRESS else Min(Share(deadline.value - now, remaining), MAX_PER_ADDRESS)
  }

  /** Spending no more than a share never lowers the next share. */
  lemma ShareNeverShrinks(timeLeft: int, remaining: int, spent: int)
    requires remaining > 1 && 0 <= timeLeft && 0 <= spent <= Share(timeLeft, remaining)
    ensures Share(timeLeft - spent, remaining - 1) >= Share(timeLeft, remaining)
    ensures timeLeft - spent >= 0
  {
    var q := timeLeft / remaining;
    assert q * remaining <= timeLeft;
    assert q * (remaining - 1) == q * remaining - q;
    FloorAtLeast(timeLeft - spent, remaining - 1, q);
  }

  lemma FloorAtLeast(a: int, b: int, q: int)
    requires b > 0 && q >= 0 && q * b <= a
    ensures a / b >= q
  {
    var d := a / b;
    assert a == d * b + a % b;
    assert (d - q + 1) * b == d * b - q * b + b;
    PositiveFactor(d - q + 1, b);
  }

  lemma PositiveFactor(x: int, b: int)
    requires b > 0 && x * b > 0
    ensures x > 0
  {}

  lemma ShareFits(timeLeft: int, remaining: int)
    requires remaining > 0 && timeLeft > 0
    ensures 0 <= Share(timeLeft, remaining) <= timeLeft
    ensures remaining > 1 ==> Share(timeLeft, remaining) < timeLeft
  {
    var q := timeLeft / remaining;
    QuotientBelow(timeLeft, remaining, q);
  }

  lemma QuotientBelow(a: int, b: int, q: int)
    requires a > 0 && b > 0 && q >= 0 && q * b <= a
    ensures q <= a && (b > 1 ==> q < a)
  {
    if b > 1 {
      assert q * b == 2 * q + q * (b - 2) && q * (b - 2) >= 0;
    }
  }

  predicate NeverShrinks(granted: seq<int>) {
    forall i, j :: 0 <= i < j < |granted| ==> granted[i] <= granted[j]
  }

  predicate AllAtMost(granted: seq<int>, cap: int) {
    forall i :: 0 <= i < |granted| ==> granted[i] <= cap
  }

  /** No dial so far succeeded in the time it had. */
  predicate AllFailed(dials: seq<Dial>, granted: seq<int>) {
    |granted| <= |dials| && forall i :: 0 <= i < |granted| ==> !dials[i].ok || dials[i].need > granted[i]
  }

  predicate AllAtLeast(granted: seq<int>, floor: int) {
    forall i :: 0 <= i < |granted| ==> granted[i] >= floor
  }

  lemma OneMoreGrant(granted: seq<int>, timeout: int, floor: int)
    requires NeverShrinks(granted) && AllAtLeast(granted, floor) && timeout >= floor
    requires granted != [] ==> granted[|granted| - 1] <= timeout
    ensures NeverShrinks(granted + [timeout]) && AllAtLeast(granted + [timeout], floor)
  {}

  /** What one dial leaves: the deadline is kept, and while addresses remain there is time
      left and the next share is no smaller. */
  lemma AfterDial(deadline: Time, now: Time, remaining: int, need: nat)
    requires remaining > 0 && now < deadline
    ensures var timeout := Grant(Some(deadline), now, remaining);
            var later := now + Min(need, timeout);
            && 0 <= timeout && now <= later <= deadline
            && (remaining > 1 ==> later < deadline && Share(deadline - later, remaining - 1) >= Share(deadline - now, remaining))
            && (remaining > 1 ==> timeout <= Grant(Some(deadline), later, remaining - 1))
  {
    ShareFits(deadline - now, remaining);
    if remaining > 1 {
      ShareNeverShrinks(deadline - now, remaining, Min(need, Grant(Some(deadline), now, remaining)));
    }
    hide Share;
  }

  /** The time that dials with these timeouts take. */
  function Spent(dials: seq<Dial>, granted: seq<int>): int
    requires |granted| <= |dials|
  {
    if granted == [] then 0 else
      var n := |granted| - 1;
      Spent(dials, granted[..n]) + Min(dials[n].need, granted[n])
  }

  /** A grant repeated for every address that is left fits the time that is left. */
  lemma GrantIsFair(timeLeft: int, remaining: int)
    requires remaining > 0 && timeLeft >= 0
    ensures Share(timeLeft, remaining) * remaining <= timeLeft < (Share(timeLeft, remaining) + 1) * remaining
  {
    assert timeLeft == timeLeft / remaining * remaining + timeLeft % remaining;
  }

  /** Dials in order until one succeeds. `granted` lists the timeouts of the dials made; with
      a deadline ahead no dial gets less than the first equal share (or ten seconds), no later
      dial gets less than an earlier one, the deadline is kept, and only a success stops the
      loop early. */
  method DialFirstSuccessful(dials: seq<Dial>, deadline: Option<Time>, start: Time)
    returns (winner: Option<nat>, granted: seq<int>, end: Time)
    ensures |granted| <= |dials|
    ensures winner.Some? ==> winner.value == |granted| - 1
    ensures winner.Some? ==> dials[winner.value].ok && dials[winner.value].need <= granted[winner.value]
    ensures AllFailed(dials, if winner.Some? then granted[..winner.value] else granted)
    ensures deadline.None? || start < deadline.value ==> (winner.None? ==> |granted| == |dials|)
    ensures AllAtMost(granted, 10_000_000_000) && (deadline.None? ==> AllAtLeast(granted, 10_000_000_000))
    ensures deadline.Some? && start < deadline.value ==> end <= deadline.value && NeverShrinks(granted)
    ensures deadline.Some? && start < deadline.value && dials != [] ==>
              AllAtLeast(granted, Min(Share(deadline.value - start, |dials|), MAX_PER_ADDRESS))
    ensures deadline.Some? && start >= deadline.value ==> granted == [] && winner.None?
    ensures end == start + Spent(dials, granted)
  {
    winner, granted, end := None, [], start;
    if dials == [] { return; }
    ghost var floor := if deadline.Some? then Min(Share(deadline.value - start, |dials|), MAX_PER_ADDRESS) else 0;
    hide Share, Grant, Fair, Spent, NeverShrinks, AllAtLeast, AllAtMost, AllFailed;
    NoDials(dials);
    if deadline.Some? && start < deadline.value { FairAtFirst(deadline.value, dials, start); }
    for i := 0 to |dials|
      invariant |granted| == i && winner.None? && end == start + Spent(dials, granted)
      invariant AllFailed(dials, granted) && AllAtMost(granted, MAX_PER_ADDRESS)
      invariant deadline.None? ==> AllAtLeast(granted, MAX_PER_ADDRESS)
      invariant deadline.Some? && start >= deadline.value ==> i == 0
      invariant deadline.Some? && start < deadline.value ==> Fair(deadline.value, dials, granted, end, floor)
    {
      if deadline.Some? { FairMeans(deadline.value, dials, granted, end, floor); }
      if deadline.Some? && end >= deadline.value {
        return;
      }
      var remaining := |dials| - i;
      var timeout := MAX_PER_ADDRESS;
      if deadline.Some? {
        var budget := Share(deadline.value - end, remaining);
        if budget < timeout { timeout := budget; }
        FairStep(deadline.value, dials, granted, end, floor, timeout);
      }
      OneMoreDial(dials, granted, timeout);
      granted := granted + [timeout];
      end := end + Min(dials[i].need, timeout);
      if deadline.Some? { FairMeans(deadline.value, dials, granted, end, floor); }
      if dials[i].ok && dials[i].need <= timeout {
        assert granted[..i] == granted[..|granted| - 1];
        return Some(i), granted, end;
      }
    }
  }

  lemma NoDials(dials: seq<Dial>)
    ensures Spent(dials, []) == 0 && AllFailed(dials, [])
    ensures forall bound :: AllAtMost([], bound) && AllAtLeast([], bound)
  {}

  /** What another dial with this timeout adds. */
  lemma OneMoreDial(dials: seq<Dial>, granted: seq<int>, timeout: int)
    requires |granted| < |dials| && AllFailed(dials, granted)
    ensures Spent(dials, granted + [timeout]) == Spent(dials, granted) + Min(dials[|granted|].need, timeout)
    ensures AllFailed(dials, granted + [timeout]) <==> !(dials[|granted|].ok && dials[|granted|].need <= timeout)
    ensures forall bound :: AllAtMost(granted, bound) && timeout <= bound ==> AllAtMost(granted + [timeout], bound)
    ensures forall bound :: AllAtLeast(granted, bound) && timeout >= bound ==> AllAtLeast(granted + [timeout], bound)
  {
    assert (granted + [timeout])[..|granted|] == granted;
  }

  // ----- Under a deadline -----

  /** What the dials so far leave under the deadline `d`. */
  ghost predicate Fair(d: Time, dials: seq<Dial>, granted: seq<int>, end: Time, floor: int) {
    && end <= d && NeverShrinks(granted) && AllAtLeast(granted, floor)
    && (|granted| < |dials| ==>
          && end < d && floor <= Grant(Some(d), end, |dials| - |granted|)
          && (granted != [] ==> granted[|granted| - 1] <= Grant(Some(d), end, |dials| - |granted|)))
  }

  lemma FairAtFirst(d: Time, dials: seq<Dial>, start: Time)
    requires dials != [] && start < d
    ensures Fair(d, dials, [], start, Min(Share(d - start, |dials|), MAX_PER_ADDRESS))
  {}

  lemma FairMeans(d: Time, dials: seq<Dial>, granted: seq<int>, end: Time, floor: int)
    ensures Fair(d, dials, granted, end, floor) ==> end <= d && NeverShrinks(granted) && AllAtLeast(granted, floor)
    ensures Fair(d, dials, granted, end, floor) && |granted| < |dials| ==> end < d
  {}

  lemma FairStep(d: Time, dials: seq<Dial>, granted: seq<int>, end: Time, floor: int, timeout: int)
    requires Fair(d, dials, granted, end, floor) && |granted| < |dials|
    requires timeout == Min(Share(d - end, |dials| - |granted|), MAX_PER_ADDRESS)
    ensures Fair(d, dials, granted + [timeout], end + Min(dials[|granted|].need, timeout), floor)
  {
    AfterDial(d, end, |dials| - |granted|, dials[|granted|].need);
    OneMoreGrant(granted, timeout, floor);
    hide Share, NeverShrinks, AllAtLeast;
  }
}
