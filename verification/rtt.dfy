/** The round-trip estimator: smoothed round trip, its deviation, and the retransmission timeout, in
    milliseconds and in the 32-bit arithmetic of the source. */
module RoundTrip {
  import opened Words

  const RTO_MIN: uint32 := 1000

  datatype Estimate = Estimate(rtt: uint32, rttVar: uint32, rto: uint32)

  const Initial: Estimate := Estimate(0, 800, 3000)

  /** The update made for the acknowledgement of a packet that was sent once; every operation wraps
      or truncates as it does in C. */
  function Next(e: Estimate, ertt: uint32): Estimate {
    var rttVar := if e.rtt == 0 then ertt / 2 else
      var delta := I32(e.rtt - ertt);
      U32(e.rttVar + CDiv(I32(Abs(delta) - e.rttVar), 4));
    var rtt := if e.rtt == 0 then ertt else U32(e.rtt - e.rtt / 8 + ertt / 8);
    Estimate(rtt, rttVar, Max(U32(rtt + rttVar * 4), RTO_MIN))
  }

  function After(samples: seq<uint32>): Estimate {
    if samples == [] then Initial else Next(After(samples[..|samples| - 1]), samples[|samples| - 1])
  }

  class RttEstimator {
    var rtt: uint32
    var rttVar: uint32
    var rto: uint32
    /** Every sample so far. */
    ghost var samples: seq<uint32>

    ghost function Current(): Estimate
      reads this
    {
      Estimate(rtt, rttVar, rto)
    }

    ghost predicate Valid()
      reads this
    {
      Current() == After(samples)
    }

    constructor ()
      ensures Valid() && samples == []
    {
      rtt, rttVar, rto, samples := 0, 800, 3000, [];
    }

    method Update(ertt: uint32)
      modifies this`rtt, this`rttVar, this`rto
      ensures Current() == Next(old(Current()), ertt)
    {
      if rtt == 0 {
        rtt := ertt;
        rttVar := ertt / 2;
      } else {
        var delta := I32(rtt - ertt);
        rttVar := U32(rttVar + CDiv(I32(Abs(delta) - rttVar), 4));
        rtt := U32(rtt - rtt / 8 + ertt / 8);
      }
      rto := Max(U32(rtt + rttVar * 4), RTO_MIN);
    }

    /** One acknowledgement of a packet sent once. While all samples lie in a range [least, most] the
        estimates do, whatever came before; and once a first sample is positive, rto is near the exact one. */
    method Sample(ertt: uint32, ghost least: nat, ghost most: nat)
      requires Valid()
      modifies this
      ensures Valid() && samples == old(samples) + [ertt]
      ensures AllWithin(samples, least, most) && 5 * most <= UINT_MAX ==>
        && least <= rtt <= most && rttVar <= most && RTO_MIN <= rto <= Max(RTO_MIN, 5 * most)
        && (samples[0] > 0 ==> Near(Current(), Rfc(samples)) && AbsR(rto as real - RfcTimeout(Rfc(samples))) <= 56.0)
    {
      hide Next, Near, AbsR, Rfc, RfcTimeout, AllWithin;
      Update(ertt);
      assert (samples + [ertt])[..|samples|] == samples;
      samples := samples + [ertt];
      if AllWithin(samples, least, most) && 5 * most <= UINT_MAX {
        RunRanged(samples, least, most);
        if samples[0] > 0 {
          RunNear(samples, least, most);
        }
      }
    }
  }

  ghost predicate Between(x: int, y: int, z: int) {
    Min(x, z) <= y <= Max(x, z)
  }

  /** There was no sample yet, or the estimates are inside the range of the samples. */
  ghost predicate Ranged(e: Estimate, least: nat, most: nat) {
    || e == Initial
    || (least <= e.rtt <= most && e.rttVar <= most && RTO_MIN <= e.rto <= Max(RTO_MIN, 5 * most))
  }

  /** An update in range: neither estimate overshoots its target and nothing wraps, so it is the
      plain update with two roundings. */
  lemma NextExact(e: Estimate, ertt: uint32, most: nat)
    requires e.rtt <= most && e.rttVar <= most && ertt <= most && 5 * most <= UINT_MAX
    requires e.rtt != 0
    ensures var n := Next(e, ertt);
      && n.rtt == e.rtt - e.rtt / 8 + ertt / 8 && Between(e.rtt, n.rtt, ertt)
      && n.rttVar == e.rttVar + CDiv(Abs(e.rtt - ertt) - e.rttVar, 4)
      && Between(e.rttVar, n.rttVar, Abs(e.rtt - ertt))
      && n.rto == Max(n.rtt + 4 * n.rttVar, RTO_MIN)
  {
    hide U32, I32;
    I32Small(e.rtt - ertt);
    I32Small(Abs(e.rtt - ertt) - e.rttVar);
    var v := e.rttVar + CDiv(Abs(e.rtt - ertt) - e.rttVar, 4);
    var r := e.rtt - e.rtt / 8 + ertt / 8;
    assert Between(e.rtt, r, ertt);
    U32Small(v);
    U32Small(r);
    U32Small(r + v * 4);
  }

  lemma I32Small(x: int)
    requires -0x8000_0000 <= x <= INT_MAX
    ensures I32(x) == x
  {
  }

  lemma U32Small(x: int)
    requires 0 <= x <= UINT_MAX
    ensures U32(x) == x
  {
  }

  lemma NextRanged(e: Estimate, ertt: uint32, least: nat, most: nat)
    requires Ranged(e, least, most) && least <= ertt <= most && 5 * most <= UINT_MAX
    ensures var n := Next(e, ertt);
      least <= n.rtt <= most && n.rttVar <= most && RTO_MIN <= n.rto <= Max(RTO_MIN, 5 * most)
  {
    if e.rtt != 0 {
      NextExact(e, ertt, most);
    } else {
      hide U32;
      U32Small(ertt + ertt / 2 * 4);
    }
  }

  ghost predicate AllWithin(samples: seq<uint32>, least: nat, most: nat) {
    forall i :: 0 <= i < |samples| ==> least <= samples[i] <= most
  }

  /** Over every run the estimates stay inside the range of the samples and the timeout in
      [1000, max(1000, 5B)]. */
  lemma {:induction false} RunRanged(samples: seq<uint32>, least: nat, most: nat)
    requires samples != [] && AllWithin(samples, least, most) && 5 * most <= UINT_MAX
    ensures var e := After(samples);
      least <= e.rtt <= most && e.rttVar <= most && RTO_MIN <= e.rto <= Max(RTO_MIN, 5 * most)
  {
    hide Next;
    var n := |samples| - 1;
    assert forall i :: 0 <= i < n ==> samples[..n][i] == samples[i];
    if n > 0 {
      RunRanged(samples[..n], least, most);
    }
    NextRanged(After(samples[..n]), samples[n], least, most);
  }

  // -- Section 2 of RFC 6298 in exact arithmetic --

  datatype Exact = Exact(srtt: real, rttvar: real)

  ghost function AbsR(x: real): real { if x < 0.0 then -x else x }

  ghost function RfcNext(x: Exact, r: real): Exact {
    Exact(0.875 * x.srtt + 0.125 * r, 0.75 * x.rttvar + 0.25 * AbsR(x.srtt - r))
  }

  ghost function Rfc(samples: seq<uint32>): Exact
    requires samples != []
  {
    var n := |samples| - 1;
    var r := samples[n] as real;
    if n == 0 then Exact(r, r / 2.0) else RfcNext(Rfc(samples[..n]), r)
  }

  ghost predicate Near(e: Estimate, x: Exact) {
    && AbsR(e.rtt as real - x.srtt) <= 8.0
    && AbsR(e.rttVar as real - x.rttvar) <= 12.0
  }

  lemma NextNear(e: Estimate, x: Exact, ertt: uint32, most: nat)
    requires e.rtt <= most && e.rttVar <= most && ertt <= most && 5 * most <= UINT_MAX
    requires e.rtt != 0 && Near(e, x)
    ensures Near(Next(e, ertt), RfcNext(x, ertt as real))
  {
    hide Next, CDiv;
    NextExact(e, ertt, most);
    var n, d := Next(e, ertt), Abs(e.rtt - ertt);
    RoundedEighth(e.rtt);
    RoundedEighth(ertt);
    SrttNear(n.rtt as real, e.rtt as real, (e.rtt / 8) as real, x.srtt, ertt as real, (ertt / 8) as real);
    RoundedQuarter(d - e.rttVar);
    assert d as real == AbsR(e.rtt as real - ertt as real);
    var q := CDiv(d - e.rttVar, 4);
    RttvarNear(n.rttVar as real, e.rttVar as real, q as real, e.rtt as real, x, ertt as real);
  }

  /** One rounded update of the mean: an error of 8 becomes 7, and the two roundings cost less than 1. */
  lemma SrttNear(n: real, rtt: real, rtt8: real, srtt: real, r: real, r8: real)
    requires n == rtt - rtt8 + r8 && AbsR(rtt - srtt) <= 8.0
    requires 0.125 * rtt - 1.0 < rtt8 <= 0.125 * rtt && 0.125 * r - 1.0 < r8 <= 0.125 * r
    ensures AbsR(n - (0.875 * srtt + 0.125 * r)) <= 8.0
  {
  }

  lemma RttvarNear(n: real, rttVar: real, q: real, rtt: real, x: Exact, r: real)
    requires AbsR(rttVar - x.rttvar) <= 12.0 && AbsR(rtt - x.srtt) <= 8.0 && n == rttVar + q
    requires 0.25 * (AbsR(rtt - r) - rttVar) - 1.0 < q < 0.25 * (AbsR(rtt - r) - rttVar) + 1.0
    ensures AbsR(n - (0.75 * x.rttvar + 0.25 * AbsR(x.srtt - r))) <= 12.0
  {
  }

  lemma RoundedEighth(a: nat)
    ensures 0.125 * (a as real) - 1.0 < (a / 8) as real <= 0.125 * (a as real)
  {
    assert a == 8 * (a / 8) + a % 8;
    assert a as real == 8.0 * (a / 8) as real + (a % 8) as real;
  }

  lemma RoundedQuarter(a: int)
    ensures 0.25 * (a as real) - 1.0 < CDiv(a, 4) as real < 0.25 * (a as real) + 1.0
  {
    var q := CDiv(a, 4);
    assert -4 < a - 4 * q < 4;
    assert a as real == 4.0 * q as real + (a - 4 * q) as real;
  }

  /** However long the run, the roundings never add up: the truncated estimates stay within 8 and
      12 ms of the exact ones, and the timeout within 56 ms of the exact max(srtt + 4 rttvar, 1000).
      Only the first sample must be positive. */
  lemma {:induction false} RunNear(samples: seq<uint32>, least: nat, most: nat)
    requires samples != [] && samples[0] > 0 && AllWithin(samples, least, most) && 5 * most <= UINT_MAX
    ensures Near(After(samples), Rfc(samples))
    ensures AbsR(After(samples).rto as real - RfcTimeout(Rfc(samples))) <= 56.0
  {
    hide Next, AbsR, Near, RfcNext, RfcTimeout;
    var n := |samples| - 1;
    var e := After(samples[..n]);
    assert forall i :: 0 <= i < n ==> samples[..n][i] == samples[i];
    if n == 0 {
      FirstNear(samples[0]);
    } else {
      RunStarted(samples[..n], least, most);
      RunRanged(samples[..n], least, most);
      RunNear(samples[..n], least, most);
      NextExact(e, samples[n], most);
      NextNear(e, Rfc(samples[..n]), samples[n], most);
    }
    TimeoutNear(After(samples), Rfc(samples));
  }

  ghost function RfcTimeout(x: Exact): real {
    if x.srtt + 4.0 * x.rttvar < 1000.0 then 1000.0 else x.srtt + 4.0 * x.rttvar
  }

  lemma TimeoutNear(e: Estimate, x: Exact)
    requires Near(e, x) && e.rto == Max(e.rtt + 4 * e.rttVar, RTO_MIN)
    ensures AbsR(e.rto as real - RfcTimeout(x)) <= 56.0
  {
  }

  lemma FirstNear(ertt: uint32)
    requires 5 * ertt <= UINT_MAX
    ensures Near(Next(Initial, ertt), Exact(ertt as real, ertt as real / 2.0))
    ensures var n := Next(Initial, ertt); n.rto == Max(n.rtt + 4 * n.rttVar, RTO_MIN)
  {
    assert ertt as real == 2.0 * (ertt / 2) as real + (ertt % 2) as real;
  }

  /** A positive estimate stays positive, and so is not started over. */
  lemma {:induction false} RunStarted(samples: seq<uint32>, least: nat, most: nat)
    requires samples != [] && samples[0] > 0 && AllWithin(samples, least, most) && 5 * most <= UINT_MAX
    ensures After(samples).rtt != 0
  {
    hide Next;
    var n := |samples| - 1;
    assert forall i :: 0 <= i < n ==> samples[..n][i] == samples[i];
    if n > 0 {
      RunStarted(samples[..n], least, most);
      RunRanged(samples[..n], least, most);
      NextExact(After(samples[..n]), samples[n], most);
    } else {
      FirstIs(samples[0]);
    }
  }

  lemma FirstIs(ertt: uint32)
    ensures Next(Initial, ertt).rtt == ertt
  {
  }

  /** Samples of zero at the start are as if they had not been taken: an estimate of zero means that
      there is none, and the next sample starts over. */
  lemma {:induction false} LeadingZero(samples: seq<uint32>)
    requires samples != []
    ensures After([0] + samples) == After(samples)
  {
    hide U32, I32;
    var n := |samples| - 1;
    assert ([0] + samples)[..n + 1] == [0] + samples[..n];
    if n == 0 {
      assert [0] + samples[..0] == [0];
      BlankAgain();
    } else {
      LeadingZero(samples[..n]);
    }
  }

  lemma BlankAgain()
    ensures After([0]).rtt == 0
  {
    assert [0][..0] == [];
  }

  /** So a first sample of zero puts the estimate far from the exact one, which does average it in. */
  lemma ZeroFirstIsFar()
    ensures !Near(After([0, 1000]), Rfc([0, 1000]))
  {
    LeadingZero([1000]);
    assert [0] + [1000] == [0, 1000];
    assert [1000][..0] == [] && [0, 1000][..1] == [0];
  }
}
