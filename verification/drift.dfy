/** The clock-drift estimate: five-second averages of the delays a peer reports, taken relative to a
    moving base, and the slope between them. The reported values are chosen freely by the peer. */
module ClockDrift {
  import opened Words

  /** How far a sample may sit from the base. */
  const MAX_SAMPLE: int := INT_MAX / 4

  /** A 64-bit sum or a wider difference stored into a 32-bit int. */
  function Narrow(x: int): int { I32(x) }

  /** The signed wrapped distance from the base, clamped. */
  function Clamped(base: uint32, actual: uint32): (s: int)
    ensures -MAX_SAMPLE <= s <= MAX_SAMPLE
  {
    if U32(base - actual) > U32(actual - base) then Min(U32(actual - base), MAX_SAMPLE)
    else -Min(U32(base - actual), MAX_SAMPLE)
  }

  /** The clamped distance is the true one, cut at the bound, for all values less than half the
      32-bit space apart. */
  lemma ClampedTrue(origin: int, t: int)
    requires -0x8000_0000 < t - origin < 0x8000_0000
    ensures Clamped(U32(origin), U32(t)) == Max(-MAX_SAMPLE, Min(t - origin, MAX_SAMPLE))
  {
    hide U32;
    U32Difference(origin, t);
    U32Difference(t, origin);
    Signed(t - origin);
  }

  lemma Signed(d: int)
    requires -0x8000_0000 < d < 0x8000_0000
    ensures d > 0 ==> U32(d) == d && U32(-d) == 0x1_0000_0000 - d
    ensures d < 0 ==> U32(d) == 0x1_0000_0000 + d && U32(-d) == -d
    ensures d == 0 ==> U32(d) == U32(-d) == 0
  {
  }

  /** How the base moves so that of two averages one is at most and one at least zero. */
  function Adjustment(a: int, b: int): (adjust: int)
    ensures Min(a, b) + adjust <= 0 <= Max(a, b) + adjust
    ensures Min(a, b) <= 0 <= Max(a, b) ==> adjust == 0
    ensures Abs(adjust) <= Max(Abs(a), Abs(b))
  {
    if Min(a, b) > 0 then -Min(a, b) else if Max(a, b) < 0 then -Max(a, b) else 0
  }

  class DriftEstimator {
    var averageDelay: int
    var currentDelaySum: int
    var currentDelaySamples: nat
    var averageDelayBase: uint32
    var averageSampleTime: int
    var clockDrift: int
    var clockDriftRaw: int

    ghost predicate Valid()
      reads this
    {
      && Abs(averageDelay) <= MAX_SAMPLE
      && SumBounded(currentDelaySum, currentDelaySamples)
      && Abs(clockDrift) <= INT_MAX / 2 && Abs(clockDriftRaw) <= INT_MAX / 2
    }

    /** The base is the 32-bit image of origin, and the sum is that of the samples less origin each. */
    ghost predicate Tracks(origin: int, total: int)
      reads this
    {
      averageDelayBase == U32(origin) && currentDelaySum == Relative(total, currentDelaySamples, origin)
    }

    constructor (now: int)
      ensures Valid() && currentDelaySamples == 0 && averageDelayBase == 0
    {
      averageDelay, currentDelaySum, currentDelaySamples, averageDelayBase := 0, 0, 0, 0;
      averageSampleTime, clockDrift, clockDriftRaw := now + 5000, 0, 0;
    }

    /** One reported delay is added to the slot. */
    method Add(actual: uint32, ghost t: int, ghost origin: int, ghost total: int)
      requires Valid() && actual != 0
      modifies this`averageDelayBase, this`currentDelaySum, this`currentDelaySamples
      ensures Valid() && currentDelaySamples == old(currentDelaySamples) + 1
      ensures averageDelayBase == old(averageDelayBase) <==> old(averageDelayBase) != 0
      ensures old(averageDelayBase) == 0 ==> averageDelayBase == actual
      ensures currentDelaySum == old(currentDelaySum) + Clamped(averageDelayBase, actual)
      ensures
        && old(averageDelayBase) != 0 && old(Tracks(origin, total)) && U32(t) == actual
        && Abs(t - origin) <= MAX_SAMPLE
        ==> Tracks(origin, total + t)
    {
      hide U32, Clamped, SumBounded, Relative;
      if averageDelayBase == 0 {
        averageDelayBase := actual;
      }
      currentDelaySum := currentDelaySum + Clamped(averageDelayBase, actual);
      currentDelaySamples := currentDelaySamples + 1;
      OneMore(old(currentDelaySum), old(currentDelaySamples), Clamped(averageDelayBase, actual));
      if Abs(t - origin) <= MAX_SAMPLE {
        ClampedTrue(origin, t);
        RelativeAdd(total, old(currentDelaySamples), origin, t);
      }
    }

    /** The slot is over: its average, both averages re-based, and the slope between them. The two
        asserts are the source's own. Nothing is lost when values are stored into 32 bits. */
    method CloseSlot(ghost origin: int, ghost total: int) returns (ghost newOrigin: int)
      requires Valid() && 0 < currentDelaySamples <= INT_MAX
      modifies this
      ensures Valid() && currentDelaySum == currentDelaySamples == 0
      ensures averageSampleTime == old(averageSampleTime) + 5000
      ensures var mean := old(CDiv(currentDelaySum, currentDelaySamples));
        && clockDriftRaw == mean - old(averageDelay)
        && U32(averageDelayBase + averageDelay) == U32(old(averageDelayBase) + mean)
      ensures clockDrift == CDiv(old(clockDrift) * 7 + clockDriftRaw, 8)
      ensures Min(averageDelay, averageDelay - clockDriftRaw) <= 0 <= Max(averageDelay, averageDelay - clockDriftRaw)
      ensures old(Tracks(origin, total)) ==>
        && Tracks(newOrigin, 0)
        && MeanOf(newOrigin + averageDelay, total, old(currentDelaySamples))
        && clockDriftRaw == (newOrigin + averageDelay) - (origin + old(averageDelay))
    {
      hide U32, CDiv, Narrow, MeanOf, SumBounded, Relative;
      var prev := averageDelay;
      var mean := CDiv(currentDelaySum, currentDelaySamples);
      MeanBounds(currentDelaySum, currentDelaySamples);
      assert -INT_MAX < mean < INT_MAX;
      NarrowSmall(mean);
      averageDelay := Narrow(mean);
      if Tracks(origin, total) {
        MeanMoves(mean, total, currentDelaySamples, origin);
      }
      averageSampleTime := averageSampleTime + 5000;
      currentDelaySum, currentDelaySamples := 0, 0;
      newOrigin := Rebase(prev, origin);
      Nothing(newOrigin);
    }

    /** Both averages and the base move alike, and the slope between the averages is taken. */
    method Rebase(prev: int, ghost origin: int) returns (ghost newOrigin: int)
      requires Abs(prev) <= MAX_SAMPLE && Abs(averageDelay) <= MAX_SAMPLE && Abs(clockDrift) <= INT_MAX / 2
      modifies this`averageDelay, this`averageDelayBase, this`clockDrift, this`clockDriftRaw
      ensures Abs(averageDelay) <= MAX_SAMPLE && Abs(clockDrift) <= INT_MAX / 2
      ensures newOrigin + averageDelay == origin + old(averageDelay)
      ensures U32(averageDelayBase + averageDelay) == U32(old(averageDelayBase) + old(averageDelay))
      ensures old(averageDelayBase) == U32(origin) ==> averageDelayBase == U32(newOrigin)
      ensures clockDriftRaw == old(averageDelay) - prev && clockDrift == CDiv(old(clockDrift) * 7 + clockDriftRaw, 8)
      ensures Min(averageDelay, averageDelay - clockDriftRaw) <= 0 <= Max(averageDelay, averageDelay - clockDriftRaw)
      ensures 0 < prev <= old(averageDelay) ==> averageDelay == old(averageDelay) - prev
      ensures 0 < old(averageDelay) <= prev ==> averageDelay == 0
      ensures prev <= old(averageDelay) < 0 ==> averageDelay == 0
      ensures old(averageDelay) <= prev < 0 ==> averageDelay == old(averageDelay) - prev
      ensures prev <= 0 <= old(averageDelay) || old(averageDelay) <= 0 <= prev ==> averageDelay == old(averageDelay)
    {
      hide U32, CDiv, Narrow;
      var before := prev;
      var adjust := Adjustment(before, averageDelay);
      newOrigin := origin - adjust;
      if adjust != 0 {
        U32Add(origin, -adjust);
        U32Add(averageDelayBase - adjust, averageDelay + adjust);
        averageDelayBase := U32(averageDelayBase - adjust);
        NarrowSmall(averageDelay + adjust);
        NarrowSmall(before + adjust);
        averageDelay := Narrow(averageDelay + adjust);
        before := Narrow(before + adjust);
      }
      NarrowSmall(averageDelay - before);
      var drift := Narrow(averageDelay - before);
      RollingBound(clockDrift, drift);
      NarrowSmall(CDiv(clockDrift * 7 + drift, 8));
      clockDrift := Narrow(CDiv(clockDrift * 7 + drift, 8));
      clockDriftRaw := drift;
    }

    /** All that a packet's reported delay does to the estimate; zero and INT_MAX mean "none". */
    method Observe(replyMicro: uint32, now: int)
      requires Valid() && currentDelaySamples < INT_MAX
      modifies this
      ensures Valid()
      ensures replyMicro == 0 || replyMicro == INT_MAX ==>
        unchanged(this)
      ensures replyMicro != 0 && replyMicro != INT_MAX && now <= old(averageSampleTime) ==>
        && averageDelay == old(averageDelay) && clockDrift == old(clockDrift) && clockDriftRaw == old(clockDriftRaw)
        && averageSampleTime == old(averageSampleTime) && currentDelaySamples == old(currentDelaySamples) + 1
      ensures replyMicro != 0 && replyMicro != INT_MAX && now > old(averageSampleTime) ==>
        && currentDelaySamples == currentDelaySum == 0 && averageSampleTime == old(averageSampleTime) + 5000
        && clockDrift == CDiv(old(clockDrift) * 7 + clockDriftRaw, 8)
    {
      hide CDiv, Clamped, U32, MeanOf;
      var actual: uint32 := if replyMicro == INT_MAX then 0 else replyMicro;
      if actual != 0 {
        Add(actual, 0, 0, 0);
        if now > averageSampleTime {
          ghost var _ := CloseSlot(0, 0);
        }
      }
    }
  }

  /** m is the mean of n samples summing to total, to less than one unit. */
  ghost predicate MeanOf(m: int, total: int, n: int) {
    -n < m * n - total < n
  }

  ghost predicate SumBounded(sum: int, n: int) {
    Abs(sum) <= n * MAX_SAMPLE
  }

  /** The sum of n values, each less origin. */
  ghost function Relative(total: int, n: int, origin: int): int {
    total - n * origin
  }

  lemma OneMore(sum: int, n: int, s: int)
    requires SumBounded(sum, n) && -MAX_SAMPLE <= s <= MAX_SAMPLE
    ensures SumBounded(sum + s, n + 1)
  {
  }

  lemma RelativeAdd(total: int, n: int, origin: int, t: int)
    ensures Relative(total + t, n + 1, origin) == Relative(total, n, origin) + (t - origin)
  {
    assert (n + 1) * origin == n * origin + origin;
  }

  lemma Nothing(origin: int)
    ensures SumBounded(0, 0) && Relative(0, 0, origin) == 0
  {
  }

  /** Quotient and remainder, with the product under a name of its own. */
  lemma Quotient(a: nat, n: int, q: int)
    requires n > 0 && q == a / n
    ensures Times(q, n) <= a < Times(q, n) + n && q >= 0
  {
    assert a == q * n + a % n;
  }

  ghost function Times(q: int, n: int): int { q * n }

  lemma TimesBound(q: int, n: int, most: int)
    requires n > 0 && Times(q, n) <= Times(most, n)
    ensures q <= most
  {
    MultipleOutsideWindow(n, q - most);
    assert n * (q - most) == q * n - most * n;
  }

  lemma MeanBounds(sum: int, n: int)
    requires n > 0 && SumBounded(sum, n)
    ensures Abs(CDiv(sum, n)) <= MAX_SAMPLE
    ensures MeanOf(CDiv(sum, n), sum, n)
  {
    var q := Abs(sum) / n;
    Quotient(Abs(sum), n, q);
    assert Abs(sum) <= Times(MAX_SAMPLE, n);
    TimesBound(q, n, MAX_SAMPLE);
    MeanSigned(sum, n, q);
  }

  lemma MeanSigned(sum: int, n: int, q: int)
    requires n > 0 && q == Abs(sum) / n && Times(q, n) <= Abs(sum) < Times(q, n) + n
    ensures CDiv(sum, n) == if sum >= 0 then q else -q
    ensures MeanOf(CDiv(sum, n), sum, n)
  {
    assert (-q) * n == -(q * n);
  }

  /** Averaging distances from the base and adding the base is averaging the values. */
  lemma MeanMoves(m: int, total: int, n: int, origin: int)
    requires MeanOf(m, Relative(total, n, origin), n)
    ensures MeanOf(origin + m, total, n)
  {
    assert (origin + m) * n == origin * n + m * n;
  }

  lemma NarrowSmall(x: int)
    requires -INT_MAX <= x <= INT_MAX
    ensures Narrow(x) == x
  {
  }

  lemma RollingBound(c: int, d: int)
    requires Abs(c) <= INT_MAX / 2 && Abs(d) <= INT_MAX / 2
    ensures Abs(CDiv(c * 7 + d, 8)) <= INT_MAX / 2
  {
  }

  /** The rolling average after k slots of one and the same slope. */
  ghost function Rolled(c: int, d: int, k: nat): int {
    if k == 0 then c else CDiv(Rolled(c, d, k - 1) * 7 + d, 8)
  }

  /** "If there is a consistent trend, it will show up in this value": the distance to a steady
      slope shrinks with every slot until it is at most 7, and stays there. */
  lemma {:induction false} TrendShows(c: int, d: int, k: nat)
    ensures Abs(Rolled(c, d, k) - d) <= Max(7, Abs(c - d) - k)
  {
    if k > 0 {
      TrendShows(c, d, k - 1);
      RollCloser(Rolled(c, d, k - 1), d);
    }
  }

  lemma RollCloser(c: int, d: int)
    ensures Abs(CDiv(c * 7 + d, 8) - d) <= Max(7, Abs(c - d) - 1)
  {
    var q, x := CDiv(c * 7 + d, 8), c * 7 + d;
    assert -8 < x - 8 * q < 8;
    assert x - 8 * d == 7 * (c - d);
  }
}
