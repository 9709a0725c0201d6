/** The wait between two retries in session/session.go: doubled at each attempt, capped, and
    spread by a quarter to either side, in 64-bit durations that wrap around and with the
    quarter taken through a 64-bit float. */
module RetryBackoff {

  import opened Numbers

  const MIN_INT64: int := -0x8000_0000_0000_0000
  const MAX_INT64: int := 0x7fff_ffff_ffff_ffff
  const TWO_64: int := 0x1_0000_0000_0000_0000

  type Duration = v: int | MIN_INT64 <= v <= MAX_INT64 witness 0

  /** What 64 bits keep of a number. */
  function Wrap(v: int): (w: Duration)
    ensures MIN_INT64 <= v <= MAX_INT64 ==> w == v
    ensures v > MAX_INT64 && v < TWO_64 ==> w == v - TWO_64 < 0
  {
    var m := v % TWO_64;
    if m > MAX_INT64 then m - TWO_64 else m
  }

  function Power2(n: nat): (p: nat)
    ensures p > 0
  {
    if n == 0 then 1 else 2 * Power2(n - 1)
  }

  /** Go's `1 << n`: the bit leaves the word after 64 places. */
  function Shift(n: nat): Duration {
    if n < 63 then ShiftFits(n); Power2(n) else if n == 63 then MIN_INT64 else 0
  }

  const TWO_53: int := 0x20_0000_0000_0000

  /** The distance of neighbouring 64-bit floats around `v`. */
  function Ulp(v: nat): (u: nat)
    ensures u > 0
  {
    if v < TWO_53 then 1 else 2 * Ulp(v / 2)
  }

  /** The 64-bit float nearest to `v`, and of two equally near ones the even one. */
  function Rounded(v: nat): nat {
    RoundAt(v / Ulp(v), v % Ulp(v), Ulp(v))
  }

  function RoundAt(q: nat, r: nat, u: nat): nat {
    if 2 * r < u || (2 * r == u && q % 2 == 0) then q * u else (q + 1) * u
  }

  /** A quarter of the float nearest to `v`, truncated toward zero on its way back. */
  function Quarter(v: int): int {
    if v >= 0 then Rounded(v) / 4 else -(Rounded(-v) / 4)
  }

  function Base(min: Duration, max: Duration, attempt: nat): Duration {
    var wait := Wrap(min * Shift(attempt));
    if wait > max then max else wait
  }

  /** A random number below `n`, from 63 random bits; 0 when there is no room for one. */
  function Random(n: int, bits: nat): int {
    if n <= 0 then 0 else bits % n
  }

  function Spread(base: Duration, bits: nat): Duration {
    Wrap(base - Quarter(base) + Random(2 * Quarter(base), bits))
  }

  // ----- Doubling -----

  lemma {:induction false} PowersGrow(a: nat, b: nat)
    requires a <= b
    ensures Power2(a) <= Power2(b)
  {
    if a < b { PowersGrow(a, b - 1); }
  }

  lemma Known(a: nat, p: nat, b: nat, q: nat)
    requires Power2(a) == p && Power2(b) == q
    ensures Power2(a + b) == p * q
  {
    PowerSum(a, b);
  }

  lemma Powers()
    ensures Power2(34) == 0x4_0000_0000 && Power2(35) == 0x8_0000_0000
    ensures Power2(62) == 0x4000_0000_0000_0000
  {
    assert Power2(0) == 1 && Power2(1) == 2 && Power2(2) == 4;
    hide Power2;
    Known(2, 4, 1, 2);
    Known(2, 4, 2, 4);
    Known(4, 16, 4, 16);
    Known(8, 256, 8, 256);
    Known(16, 0x1_0000, 8, 256);
    Known(24, 0x100_0000, 4, 16);
    Known(28, 0x1000_0000, 3, 8);
    Known(31, 0x8000_0000, 3, 8);
    Known(34, 0x4_0000_0000, 1, 2);
    Known(31, 0x8000_0000, 31, 0x8000_0000);
  }

  lemma {:induction false} PowerSum(a: nat, b: nat)
    ensures Power2(a + b) == Power2(a) * Power2(b)
  {
    if a > 0 { PowerSum(a - 1, b); }
  }

  lemma ShiftFits(n: nat)
    requires n < 63
    ensures Power2(n) <= MAX_INT64
  {
    PowersGrow(n, 62);
    Powers();
  }

  /** The shift, the product and their wrapping together keep the low 64 bits of the true power. */
  lemma WrappedProduct(min: Duration, attempt: nat)
    ensures Wrap(min * Shift(attempt)) == Wrap(min * Power2(attempt))
  {
    if attempt >= 63 {
      var k := PowerBeyond(attempt);
      hide Power2, Wrap;
      Regroup(min, Shift(attempt), k, TWO_64);
      WrapIgnores(min * Shift(attempt), min * k);
    }
  }

  /** From 63 on a shift differs from the power by a multiple of the word. */
  lemma PowerBeyond(attempt: nat) returns (k: nat)
    requires attempt >= 63
    ensures Power2(attempt) == Shift(attempt) + k * TWO_64
  {
    Powers();
    assert Power2(63) == 2 * Power2(62) && Power2(64) == 2 * Power2(63);
    if attempt == 63 {
      k := 1;
    } else {
      PowerSum(64, attempt - 64);
      k := Power2(attempt - 64);
    }
  }

  lemma Regroup(a: int, b: int, k: int, c: int)
    ensures a * (b + k * c) == a * b + (a * k) * c
  {}

  lemma WrapIgnores(v: int, k: int)
    ensures Wrap(v + k * TWO_64) == Wrap(v)
  {
    var q := v / TWO_64;
    assert v + k * TWO_64 == (q + k) * TWO_64 + v % TWO_64;
    RemainderIs(v + k * TWO_64, q + k, v % TWO_64);
  }

  lemma RemainderIs(v: int, q: int, r: int)
    requires v == q * TWO_64 + r && 0 <= r < TWO_64
    ensures v % TWO_64 == r
  {}

  lemma {:induction false} FirstOverflow(min: Duration, n: nat) returns (a: nat)
    requires min > 0 && min * Power2(n) > MAX_INT64
    ensures a <= n && MAX_INT64 < min * Power2(a) < TWO_64
  {
    if n == 0 || min * Power2(n - 1) <= MAX_INT64 {
      a := n;
      if n > 0 { assert min * Power2(n) == 2 * (min * Power2(n - 1)); }
    } else {
      a := FirstOverflow(min, n - 1);
    }
  }

  /** The waits of the attempts up to `n` are the capped doublings of the shortest one, if and
      only if the last doubling fits 64 bits before it is capped; otherwise one is negative. */
  lemma BackoffIsRightIff(min: Duration, max: Duration, n: nat)
    requires min > 0 && max > 0
    ensures min * Power2(n) <= MAX_INT64 <==>
            forall a: nat :: a <= n ==> Base(min, max, a) == Min(min * Power2(a), max)
    ensures min * Power2(n) > MAX_INT64 ==> exists a: nat :: a <= n && Base(min, max, a) < 0
  {
    if min * Power2(n) <= MAX_INT64 {
      forall a: nat | a <= n
        ensures Base(min, max, a) == Min(min * Power2(a), max)
      {
        PowersGrow(a, n);
        Monotone(min, Power2(a), Power2(n));
        WrappedProduct(min, a);
      }
    } else {
      var a := FirstOverflow(min, n);
      WrappedProduct(min, a);
      assert Base(min, max, a) < 0;
    }
  }

  lemma Monotone(m: int, a: int, b: int)
    requires m > 0 && 0 < a <= b
    ensures 0 < m * a <= m * b
  {
    assert m * b - m * a == m * (b - a);
  }

  const DEFAULT_MIN: Duration := 500_000_000
  const DEFAULT_MAX: Duration := 10_000_000_000

  /** With the default half second the 36th retry is the first that is not waited for. */
  lemma DefaultsOverflowAt35()
    ensures forall a: nat :: a <= 34 ==> Base(DEFAULT_MIN, DEFAULT_MAX, a) == Min(DEFAULT_MIN * Power2(a), DEFAULT_MAX)
    ensures Base(DEFAULT_MIN, DEFAULT_MAX, 35) < 0
  {
    Powers();
    hide Power2;
    BackoffIsRightIff(DEFAULT_MIN, DEFAULT_MAX, 34);
    WrappedProduct(DEFAULT_MIN, 35);
  }

  // ----- Jitter -----

  lemma {:induction false} UlpFits(v: nat)
    ensures v < TWO_53 ==> Ulp(v) == 1
    ensures v >= TWO_53 ==> TWO_53 * Ulp(v) <= 2 * v
    ensures v < TWO_53 * Ulp(v)
  {
    if v >= TWO_53 { UlpFits(v / 2); }
  }

  lemma {:induction false} UlpGrows(v: nat, w: nat)
    requires v <= w
    ensures Ulp(v) == Ulp(w) || 2 * Ulp(v) <= Ulp(w)
  {
    if v >= TWO_53 { UlpGrows(v / 2, w / 2); }
  }

  /** Rounding goes to one of the two multiples next to `v`, by half their distance at most. */
  lemma RoundedIsNear(v: nat)
    ensures var u := Ulp(v); var low := v / u * u;
            low <= v < low + u && (Rounded(v) == low || Rounded(v) == low + u)
    ensures 2 * (Rounded(v) - v) <= Ulp(v) && 2 * (v - Rounded(v)) <= Ulp(v)
    ensures v < TWO_53 ==> Rounded(v) == v
    ensures Rounded(v) <= 2 * v
  {
    var u := Ulp(v);
    UlpFits(v);
    hide Ulp;
    assert v == v / u * u + v % u;
    assert (v / u + 1) * u == v / u * u + u;
  }

  lemma RoundedGrows(v: nat, w: nat)
    requires v <= w
    ensures Rounded(v) <= Rounded(w)
  {
    UlpGrows(v, w);
    RoundedIsNear(v);
    RoundedIsNear(w);
    if Ulp(v) == Ulp(w) {
      SameScale(v, w);
    } else {
      UlpFits(v);
      UlpFits(w);
      OtherScale(v, w);
    }
  }

  lemma Division(v: nat, u: nat)
    requires u > 0
    ensures v == v / u * u + v % u && v % u < u
  {}

  lemma SameScale(v: nat, w: nat)
    requires v <= w && Ulp(v) == Ulp(w)
    ensures Rounded(v) <= Rounded(w)
  {
    var u := Ulp(v);
    hide Ulp, RoundAt;
    Division(v, u);
    Division(w, u);
    RoundAtGrows(v / u, v % u, w / u, w % u, u);
  }

  lemma RoundAtGrows(q: nat, r: nat, p: nat, t: nat, u: nat)
    requires q * u + r <= p * u + t && r < u && t < u
    ensures RoundAt(q, r, u) <= RoundAt(p, t, u)
  {
    assert (q + 1) * u == q * u + u && (p + 1) * u == p * u + u;
    if q < p {
      MultiplesGrow(q + 1, p, u);
    } else if p < q {
      MultiplesGrow(p + 1, q, u);
    }
  }

  /** Between two scales lies a power of two, which both roundings respect. */
  lemma OtherScale(v: nat, w: nat)
    requires v < TWO_53 * Ulp(v) && 2 * Ulp(v) <= Ulp(w) && TWO_53 * Ulp(w) <= 2 * w
    ensures Rounded(v) <= Rounded(w)
  {
    var u, x := Ulp(v), Ulp(w);
    hide Ulp;
    var q, p := v / u, w / x;
    assert v == q * u + v % u && w == p * x + w % x;
    assert q < TWO_53 by { MultiplesGrow(TWO_53, q, u); }
    assert p >= TWO_53 / 2 by { MultiplesGrow(p + 1, TWO_53 / 2, x); assert (p + 1) * x == p * x + x; }
    MultiplesGrow(q + 1, TWO_53, u);
    MultiplesGrow(TWO_53 / 2, p, x);
    assert (q + 1) * u == q * u + u && (p + 1) * x == p * x + x;
  }

  lemma QuarterGrows(v: int, w: int)
    requires 0 <= v <= w
    ensures 0 <= Quarter(v) <= Quarter(w)
    ensures Quarter(v) <= v
    ensures v < TWO_53 ==> Quarter(v) == v / 4
  {
    RoundedGrows(v, w);
    RoundedIsNear(v);
    hide Rounded;
  }

  lemma RandomIsBelow(n: int, bits: nat)
    ensures 0 <= Random(n, bits) <= if n > 0 then n - 1 else 0
    ensures bits < n ==> Random(n, bits) == bits
  {}

  /** Every wait lies within a quarter of its base whatever the random bits, if and only if the
      longest possible one fits 64 bits. */
  lemma SpreadIsWithinAQuarterIff(base: Duration)
    requires base >= 0
    ensures base + Quarter(base) - 1 <= MAX_INT64 <==>
            forall bits: nat :: base - Quarter(base) <= Spread(base, bits) <= base + Quarter(base)
  {
    var j := Quarter(base);
    QuarterGrows(base, base);
    hide Quarter, Wrap, Random;
    if base + j - 1 <= MAX_INT64 {
      forall bits: nat ensures base - j <= Spread(base, bits) <= base + j {
        RandomIsBelow(2 * j, bits);
      }
    } else {
      RandomIsBelow(2 * j, 2 * j - 1);
      assert Spread(base, 2 * j - 1) < 0;
    }
  }

  lemma NegativeSpread(base: Duration, bits: nat)
    requires base < 0
    ensures Spread(base, bits) <= 0
  {
    var b: int := base;
    RoundedIsNear(-b);
    hide Rounded;
    assert b <= Quarter(b) <= 0;
  }

  /** A wait is never longer than a quarter above the cap. */
  lemma WaitIsCapped(min: Duration, max: Duration, attempt: nat, bits: nat)
    requires max >= 0 && max + Quarter(max) <= MAX_INT64
    ensures Spread(Base(min, max, attempt), bits) <= max + Quarter(max)
  {
    var base := Base(min, max, attempt);
    QuarterGrows(max, max);
    if base >= 0 {
      QuarterGrows(base, max);
      hide Quarter;
      SpreadIsWithinAQuarterIff(base);
    } else {
      NegativeSpread(base, bits);
    }
  }

  /** Within a quarter of the capped doubling, as long as neither leaves 64 bits. */
  lemma WaitIsNearNominal(min: Duration, max: Duration, attempt: nat, bits: nat)
    requires min > 0 && max > 0 && min * Power2(attempt) <= MAX_INT64 && max + Quarter(max) <= MAX_INT64
    ensures var nominal, wait := Min(min * Power2(attempt), max), Spread(Base(min, max, attempt), bits);
            nominal - Quarter(nominal) <= wait <= nominal + Quarter(nominal)
  {
    var nominal := Min(min * Power2(attempt), max);
    BackoffIsRightIff(min, max, attempt);
    assert Base(min, max, attempt) == nominal;
    Monotone(min, 1, Power2(attempt));
    hide Power2, Base;
    QuarterGrows(nominal, max);
    hide Quarter;
    SpreadIsWithinAQuarterIff(nominal);
  }

  /** One wait of the retry loop: the doubled and capped minimum, give or take a quarter, unless
      the doubling or the longest wait leaves 64 bits; and never more than a quarter above the cap. */
  method WaitTime(retryWaitMin: Duration, retryWaitMax: Duration, attempt: nat, bits: nat) returns (wait: Duration)
    ensures retryWaitMin > 0 && retryWaitMax > 0 && retryWaitMin * Power2(attempt) <= MAX_INT64
            && retryWaitMax + Quarter(retryWaitMax) <= MAX_INT64 ==>
              var nominal := Min(retryWaitMin * Power2(attempt), retryWaitMax);
              nominal - Quarter(nominal) <= wait <= nominal + Quarter(nominal)
    ensures retryWaitMax >= 0 && retryWaitMax + Quarter(retryWaitMax) <= MAX_INT64 ==>
              wait <= retryWaitMax + Quarter(retryWaitMax)
    ensures wait == Spread(Base(retryWaitMin, retryWaitMax, attempt), bits)
  {
    hide Quarter, Power2, Random;
    var waitTime := Wrap(retryWaitMin * Shift(attempt));
    if waitTime > retryWaitMax { waitTime := retryWaitMax; }
    var jitter := Quarter(waitTime);
    wait := Wrap(waitTime - jitter + Random(jitter * 2, bits));
    if retryWaitMax >= 0 && retryWaitMax + Quarter(retryWaitMax) <= MAX_INT64 {
      WaitIsCapped(retryWaitMin, retryWaitMax, attempt, bits);
      if retryWaitMin > 0 && retryWaitMax > 0 && retryWaitMin * Power2(attempt) <= MAX_INT64 {
        WaitIsNearNominal(retryWaitMin, retryWaitMax, attempt, bits);
      }
    }
  }

  /** Every wait from a quarter below its base up to a quarter above does occur for some 63
      random bits, unless it leaves 64 bits. */
  lemma SpreadCovers(base: Duration, wait: Duration) returns (bits: nat)
    requires base >= 0 && base - Quarter(base) <= wait < base + Quarter(base)
    ensures bits <= MAX_INT64 && Spread(base, bits) == wait
  {
    var j := Quarter(base);
    QuarterGrows(base, base);
    bits := wait - (base - j);
    hide Quarter, Wrap;
    RandomIsBelow(2 * j, bits);
    QuarterIsSmall(base);
  }

  lemma QuarterIsSmall(base: Duration)
    requires base >= 0
    ensures 2 * Quarter(base) <= MAX_INT64 + 1
  {
    RoundedIsNear(base);
    hide Rounded;
  }
}
