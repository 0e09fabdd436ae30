// The fixed-point average of data rates in dp/cmn_dp_api/dp_ratetable.h.

module RateFilter {
  import opened Common

  const INT32_MAX := 0x7fff_ffff
  const UINT64 := 0x1_0000_0000_0000_0000
  const MULTIPLIER := 128
  const DUMMY_MARKER := 0

  /** The greatest rate in the rate tables of dp_ratetable.c, in kbit/s. */
  const MAX_TABLE_RATE := 4_949_500

  /** Conversion to a 32-bit int. */
  function ToInt32(v: int): (r: int)
    ensures -INT32_MAX - 1 <= r <= INT32_MAX
  {
    var m := v % UINT32;
    if m > INT32_MAX then m - UINT32 else m
  }

  /** dp_ath_rate_lpf: the average `d` is unsigned 64-bit, the sample and the result are ints. */
  function Lpf(d: nat, e: int): int
    requires d < UINT64
  {
    var scaled := ToInt32(e * MULTIPLIER);
    if d != DUMMY_MARKER then ToInt32(((d * 8 + scaled - d) % UINT64) / 8)
    else scaled
  }

  /** Conversion of an int to the unsigned 64-bit field that keeps the average. */
  function Store(r: int): (d: nat)
    ensures d < UINT64
  {
    r % UINT64
  }

  /** dp_ath_rate_out. */
  function Out(i: nat): int
    requires i < UINT64
  {
    if i == DUMMY_MARKER then DUMMY_MARKER
    else
      ToInt32(if i % MULTIPLIER >= MULTIPLIER / 2 then (i + (MULTIPLIER - 1)) % UINT64 / MULTIPLIER
              else i / MULTIPLIER)
  }

  /** The filter without machine arithmetic: seven parts old average, one part sample. */
  function Filter(d: nat, e: nat): nat {
    if d == DUMMY_MARKER then MULTIPLIER * e else (7 * d + MULTIPLIER * e) / 8
  }

  /** A sample that survives scaling. */
  predicate Fits(e: nat) { MULTIPLIER * e <= INT32_MAX }

  lemma ToInt32Wraps(v: int) returns (k: int)
    ensures v == ToInt32(v) + k * UINT32
  {
    k := v / UINT32 + if v % UINT32 > INT32_MAX then 1 else 0;
  }

  lemma ToInt32Unique(v: int, r: int, k: int)
    requires v == r + k * UINT32 && -INT32_MAX - 1 <= r <= INT32_MAX
    ensures ToInt32(v) == r
  {
    var j := ToInt32Wraps(v);
    assert (j - k) * UINT32 == r - ToInt32(v);
  }

  /** Unsigned 64-bit arithmetic gives the signed quotient, whether or not sums wrapped. */
  lemma LpfQuotient(d: nat, e: nat)
    requires 0 < d < UINT64 && 7 * d <= 8 * INT32_MAX + 7
    ensures Lpf(d, e) == ToInt32((7 * d + ToInt32(e * MULTIPLIER)) / 8)
  {
    var x := 7 * d + ToInt32(e * MULTIPLIER);
    assert d * 8 + ToInt32(e * MULTIPLIER) - d == x;
    if x >= 0 {
      assert x % UINT64 == x;
    } else {
      assert x % UINT64 == x + UINT64;
      assert (x + UINT64) / 8 == x / 8 + 0x2000_0000_0000_0000;
      var k := ToInt32Wraps(x / 8);
      ToInt32Unique((x + UINT64) / 8, ToInt32(x / 8), k + 0x2000_0000);
    }
  }

  lemma LpfExact(d: nat, e: nat)
    requires d < UINT64 && Fits(e) && Filter(d, e) <= INT32_MAX
    ensures Store(Lpf(d, e)) == Lpf(d, e) == Filter(d, e)
  {
    ToInt32Unique(e * MULTIPLIER, e * MULTIPLIER, 0);
    ToInt32Unique(Filter(d, e), Filter(d, e), 0);
    if d != DUMMY_MARKER {
      LpfQuotient(d, e);
    }
  }

  /** The average stays an int as long as samples fit. */
  lemma FilterFits(d: nat, e: nat)
    requires d <= INT32_MAX && Fits(e)
    ensures Filter(d, e) <= INT32_MAX
  {
  }

  /** Of any average, also one that wrapped before, the code computes the filter exactly when the
      scaled sample and the new average fit an int. */
  lemma LpfIsFilterIff(d: nat, e: nat)
    requires d < UINT64 && e <= INT32_MAX
    ensures Store(Lpf(d, e)) == Filter(d, e) <==> Fits(e) && Filter(d, e) <= INT32_MAX
  {
    if Filter(d, e) > INT32_MAX {
      assert Filter(d, e) < UINT64 - UINT32;
    } else if Fits(e) {
      LpfExact(d, e);
    } else if d != DUMMY_MARKER {
      SampleWraps(d, e);
    }
  }

  /** A sample that does not fit leaves the average short by a multiple of 2^29. */
  lemma SampleWraps(d: nat, e: nat)
    requires 0 < d < UINT64 && !Fits(e) && Filter(d, e) <= INT32_MAX
    ensures Store(Lpf(d, e)) != Filter(d, e)
  {
    var k := ToInt32Wraps(e * MULTIPLIER);
    LpfQuotient(d, e);
    var x := 7 * d + ToInt32(e * MULTIPLIER);
    assert 7 * d + MULTIPLIER * e == x + k * UINT32 && 1 <= k <= 4;
    assert (x + k * UINT32) / 8 == x / 8 + k * 0x2000_0000;
    ToInt32Unique(x / 8, x / 8, 0);
  }

  /** The least sample that fails: a first sample of 2^24 becomes the average -2^31. */
  lemma OverflowAt24Bits()
    ensures Fits(0xff_ffff) && !Fits(0x100_0000) && Lpf(DUMMY_MARKER, 0x100_0000) == -0x8000_0000
  {
    ToInt32Unique(0x100_0000 * MULTIPLIER, -0x8000_0000, 1);
  }

  /** No rate of the tables does. */
  lemma TableRatesFit(e: nat)
    requires e <= MAX_TABLE_RATE
    ensures Fits(e)
  {
  }

  // ---------- the code against the filter over runs ----------

  /** What the field that keeps the average holds after each sample. */
  function CodeTrace(d: nat, samples: seq<nat>): seq<nat>
    requires d < UINT64
    decreases |samples|
  {
    if samples == [] then []
    else var d' := Store(Lpf(d, samples[0])); [d'] + CodeTrace(d', samples[1..])
  }

  function FilterTrace(d: nat, samples: seq<nat>): seq<nat>
    decreases |samples|
  {
    if samples == [] then []
    else var d' := Filter(d, samples[0]); [d'] + FilterTrace(d', samples[1..])
  }

  /** Over a whole run the code is the filter exactly when every sample fits. */
  lemma {:induction false} CodeFollowsFilterIff(d: nat, samples: seq<nat>)
    requires d <= INT32_MAX && forall i | 0 <= i < |samples| :: samples[i] <= INT32_MAX
    ensures CodeTrace(d, samples) == FilterTrace(d, samples) <==> forall i | 0 <= i < |samples| :: Fits(samples[i])
    decreases |samples|
  {
    if samples != [] {
      var e, rest := samples[0], samples[1..];
      LpfIsFilterIff(d, e);
      assert CodeTrace(d, samples)[0] == Store(Lpf(d, e)) && FilterTrace(d, samples)[0] == Filter(d, e);
      if Fits(e) {
        FilterFits(d, e);
        CodeFollowsFilterIff(Filter(d, e), rest);
        assert CodeTrace(d, samples)[1..] == CodeTrace(Filter(d, e), rest);
        assert FilterTrace(d, samples)[1..] == FilterTrace(Filter(d, e), rest);
        assert forall i | 1 <= i < |samples| :: samples[i] == rest[i - 1];
      }
    }
  }

  // ---------- runs of samples ----------

  predicate Within(samples: seq<nat>, lo: nat, hi: nat) {
    forall i | 0 <= i < |samples| :: lo <= samples[i] <= hi
  }

  /** The average after a run of samples. */
  function Average(d: nat, samples: seq<nat>): (a: nat)
    requires d <= INT32_MAX && forall i | 0 <= i < |samples| :: Fits(samples[i])
    ensures a <= INT32_MAX
    decreases |samples|
  {
    if samples == [] then d
    else
      FilterFits(d, samples[0]);
      LpfExact(d, samples[0]);
      Average(Lpf(d, samples[0]), samples[1..])
  }

  /** The average of samples between lo and hi, up to what rounding down loses. */
  predicate Bounded(d: nat, lo: nat, hi: nat) {
    MULTIPLIER * lo - 7 <= d <= MULTIPLIER * hi
  }

  lemma FilterBounded(d: nat, e: nat, lo: nat, hi: nat)
    requires lo <= e <= hi && (d == DUMMY_MARKER || Bounded(d, lo, hi))
    ensures Bounded(Filter(d, e), lo, hi)
  {
  }

  /** Averages of samples between lo and hi stay between them. */
  lemma {:induction false} AverageBounded(d: nat, samples: seq<nat>, lo: nat, hi: nat)
    requires d <= INT32_MAX && Fits(hi) && Within(samples, lo, hi)
    requires Bounded(d, lo, hi) || (d == DUMMY_MARKER && samples != [])
    ensures Bounded(Average(d, samples), lo, hi)
    decreases |samples|
  {
    if samples != [] {
      FilterFits(d, samples[0]);
      LpfExact(d, samples[0]);
      FilterBounded(d, samples[0], lo, hi);
      AverageBounded(Lpf(d, samples[0]), samples[1..], lo, hi);
    }
  }

  /** Rounding is to the nearest rate. */
  lemma OutRounds(i: nat)
    requires i <= INT32_MAX
    ensures -MULTIPLIER / 2 <= MULTIPLIER * Out(i) - i <= MULTIPLIER / 2
  {
    var q := if i % MULTIPLIER >= MULTIPLIER / 2 then (i + (MULTIPLIER - 1)) / MULTIPLIER else i / MULTIPLIER;
    ToInt32Unique(q, q, 0);
  }

  lemma OutBounded(d: nat, lo: nat, hi: nat)
    requires Bounded(d, lo, hi) && Fits(hi)
    ensures lo <= Out(d) <= hi
  {
    OutRounds(d);
  }

  /** The rate read out lies between the least and the greatest sample. */
  lemma RateBetweenSamples(d: nat, samples: seq<nat>, lo: nat, hi: nat)
    requires d <= INT32_MAX && Fits(hi) && Within(samples, lo, hi)
    requires Bounded(d, lo, hi) || (d == DUMMY_MARKER && samples != [])
    ensures lo <= Out(Average(d, samples)) <= hi
  {
    AverageBounded(d, samples, lo, hi);
    OutBounded(Average(d, samples), lo, hi);
  }

  // ---------- convergence ----------

  function Distance(d: nat, e: nat): nat {
    if d <= MULTIPLIER * e then MULTIPLIER * e - d else d - MULTIPLIER * e
  }

  /** One sample leaves an average alone exactly when it is at most 7 below it. */
  lemma FixedIff(d: nat, e: nat)
    requires d != DUMMY_MARKER
    ensures Filter(d, e) == d <==> MULTIPLIER * e - 7 <= d <= MULTIPLIER * e
    ensures Filter(d, e) != d ==> Distance(Filter(d, e), e) < Distance(d, e)
  {
  }

  function Repeat(e: nat, n: nat): seq<nat> {
    seq(n, i => e)
  }

  /** Each sample takes an eighth off the distance, up to rounding. */
  lemma GapShrinks(d: nat, e: nat)
    ensures 8 * Distance(Filter(d, e), e) <= 7 * Distance(d, e) + 7
  {
  }

  /** How many times an eighth must come off a distance to get it down to `goal`. */
  function Steps(gap: nat, goal: nat): nat
    requires goal >= 7
  {
    if gap <= goal then 0 else 1 + Steps((7 * gap + 7) / 8, goal)
  }

  lemma {:induction false} StepsMonotone(a: nat, b: nat, goal: nat)
    requires goal >= 7 && a <= b
    ensures Steps(a, goal) <= Steps(b, goal)
    decreases b
  {
    if a > goal {
      StepsMonotone((7 * a + 7) / 8, (7 * b + 7) / 8, goal);
    }
  }

  /** Repeating a sample brings the average within `goal` of it in that many steps, for good. */
  lemma {:induction false} ComesNear(d: nat, e: nat, n: nat, goal: nat)
    requires d <= INT32_MAX && Fits(e) && goal >= 7 && n >= Steps(Distance(d, e), goal)
    ensures Distance(Average(d, Repeat(e, n)), e) <= goal
    decreases n
  {
    if n > 0 {
      FilterFits(d, e);
      LpfExact(d, e);
      GapShrinks(d, e);
      assert Repeat(e, n)[1..] == Repeat(e, n - 1);
      StepsMonotone(Distance(Filter(d, e), e), (7 * Distance(d, e) + 7) / 8, goal);
      if Distance(d, e) <= goal {
        assert Distance(Filter(d, e), e) <= goal;
      }
      ComesNear(Filter(d, e), e, n - 1, goal);
    }
  }

  /** So the sample is the rate read out once the distance is below half a rate, for good. */
  lemma Converges(d: nat, e: nat, n: nat)
    requires d <= INT32_MAX && Fits(e) && n >= Steps(Distance(d, e), MULTIPLIER / 2 - 1)
    ensures Out(Average(d, Repeat(e, n))) == e
  {
    ComesNear(d, e, n, MULTIPLIER / 2 - 1);
    NearRounds(Average(d, Repeat(e, n)), e);
  }

  lemma NearRounds(a: nat, e: nat)
    requires a <= INT32_MAX && Distance(a, e) < MULTIPLIER / 2
    ensures Out(a) == e
  {
    OutRounds(a);
  }

  /** In the end the average itself rests at most 7 below the sample. */
  lemma {:induction false} Rests(d: nat, e: nat, n: nat)
    requires d <= INT32_MAX && Fits(e) && n >= Distance(d, e)
    ensures Bounded(Average(d, Repeat(e, n)), e, e)
    decreases n
  {
    if n > 0 {
      FilterFits(d, e);
      LpfExact(d, e);
      if d != DUMMY_MARKER {
        FixedIff(d, e);
      }
      assert Repeat(e, n)[1..] == Repeat(e, n - 1);
      if Filter(d, e) == d || d == DUMMY_MARKER {
        AverageBounded(Lpf(d, e), Repeat(e, n - 1), e, e);
      } else {
        Rests(Lpf(d, e), e, n - 1);
      }
    }
  }
}
