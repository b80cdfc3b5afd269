/** The congestion window: delay-based growth and shrinking (section 2.4.2 of RFC 6817), slow start,
    decay on loss and restart on timeout. The source's doubles are exact reals here. */
module CongestionWindow {
  import opened Words

  const MIN_WINDOW_SIZE: nat := 10
  const MAX_CWND_INCREASE: real := 3000.0
  const MAX_WINDOW_DECAY: nat := 100

  /** The delay with the penalty for a peer whose clock appears to run slow, stored as an int. */
  function Penalised(ourDelay: int, clockDrift: int): int {
    if clockDrift < -200000 then I32(ourDelay + CDiv(-clockDrift - 200000, 7)) else ourDelay
  }

  /** The penalised delay is never below the measured one, unless the addition overflows. */
  lemma PenalisedSound(ourDelay: int, clockDrift: int)
    requires 0 <= ourDelay <= INT_MAX && Abs(clockDrift) <= INT_MAX / 2
    ensures Penalised(ourDelay, clockDrift) >= 0
      <==> clockDrift >= -200000 || ourDelay + CDiv(-clockDrift - 200000, 7) <= INT_MAX
    ensures Penalised(ourDelay, clockDrift) >= 0 ==> Penalised(ourDelay, clockDrift) >= ourDelay
    ensures ourDelay <= INT_MAX - INT_MAX / 14 ==> Penalised(ourDelay, clockDrift) >= 0
    ensures clockDrift >= -200000 ==> Penalised(ourDelay, clockDrift) == ourDelay
    ensures clockDrift < -200000 && Penalised(ourDelay, clockDrift) >= 0 ==>
      0 <= -clockDrift - 200000 - 7 * (Penalised(ourDelay, clockDrift) - ourDelay) < 7
  {
  }

  /** The share of the window that an acknowledgement stands for. */
  function WindowFactor(bytes: nat, window: nat): (f: real)
    requires bytes > 0 && window > 0
    ensures 0.0 < f <= 1.0
  {
    var a, b := Min(bytes, window) as real, Max(window, bytes) as real;
    Share(a, b);
    a / b
  }

  /** The smaller of the acknowledged bytes and the window, over the larger one. */
  lemma FactorExact(bytes: nat, window: nat)
    requires bytes > 0 && window > 0
    ensures bytes <= window ==> WindowFactor(bytes, window) * window as real == bytes as real
    ensures bytes >= window ==> WindowFactor(bytes, window) * bytes as real == window as real
  {
    Share(Min(bytes, window) as real, Max(window, bytes) as real);
  }

  lemma Share(a: real, b: real)
    requires 0.0 < a <= b
    ensures 0.0 < a / b <= 1.0 && (a / b) * b == a
  {
  }

  /** The gain the source asserts a cap for. */
  function Gain(factor: real, delay: int, target: int): (g: real)
    requires target > 0 && 0.0 < factor <= 1.0
    ensures delay >= 0 ==> g <= MAX_CWND_INCREASE * factor
    ensures delay >= target ==> g <= 0.0
    ensures delay <= target ==> g >= 0.0
  {
    GainCap(factor, (target - delay) as real, target as real);
    MAX_CWND_INCREASE * factor * ((target - delay) as real / target as real)
  }

  /** The gain is the cap's share for the distance to the target. */
  lemma GainExact(factor: real, delay: int, target: int)
    requires target > 0 && 0.0 < factor <= 1.0
    ensures Gain(factor, delay, target) * target as real == 3000.0 * factor * (target - delay) as real
  {
    var off, t := (target - delay) as real, target as real;
    assert off / t * t == off;
    Regroup(MAX_CWND_INCREASE * factor, off / t, t);
  }

  /** From half the target down it is at least half of the cap's share. */
  lemma HalfGain(factor: real, delay: int, target: int)
    requires target > 0 && 0.0 < factor <= 1.0 && 2 * delay <= target
    ensures Gain(factor, delay, target) >= 1500.0 * factor
  {
    var off, t, c := (target - delay) as real, target as real, MAX_CWND_INCREASE * factor;
    var q := off / t;
    assert q * t == off;
    AtLeastHalf(q, off, t);
    Scaled(c, 1.5 - q);
    Regroup(c, 1.5, q);
  }

  lemma AtLeastHalf(q: real, off: real, t: real)
    requires t > 0.0 && q * t == off && 2.0 * off >= t
    ensures q >= 0.5
  {
    QuotientSign(0.5 - q, t);
  }

  lemma Regroup(c: real, q: real, t: real)
    ensures c * q * t == c * (q * t) && c * (q - t) == c * q - c * t
  {
  }

  /** What slow start adds: one packet for a whole window. */
  function PacketStep(factor: real, packetSize: nat): (step: real)
    requires factor > 0.0
    ensures 0.0 <= step && (packetSize <= 3000 ==> step <= MAX_CWND_INCREASE * factor)
  {
    if packetSize <= 3000 then
      Scaled(MAX_CWND_INCREASE * factor, packetSize as real / 3000.0);
      factor * packetSize as real
    else factor * packetSize as real
  }

  /** Slow start adds the acknowledged share of a packet: a whole one for a whole window. */
  lemma StepExact(bytes: nat, window: nat, packetSize: nat)
    requires 0 < bytes <= window
    ensures PacketStep(WindowFactor(bytes, window), packetSize) * window as real == (bytes * packetSize) as real
    ensures bytes == window ==> PacketStep(WindowFactor(bytes, window), packetSize) == packetSize as real
  {
    var f, p, w := WindowFactor(bytes, window), packetSize as real, window as real;
    FactorExact(bytes, window);
    assert f * w == bytes as real;
    assert f * p * w == f * w * p;
    if bytes == window {
      assert f == 1.0;
    }
  }

  lemma GainCap(factor: real, off: real, target: real)
    requires target > 0.0 && factor > 0.0
    ensures off <= target ==> MAX_CWND_INCREASE * factor * (off / target) <= MAX_CWND_INCREASE * factor
    ensures off <= 0.0 ==> MAX_CWND_INCREASE * factor * (off / target) <= 0.0
    ensures off >= 0.0 ==> MAX_CWND_INCREASE * factor * (off / target) >= 0.0
  {
    var q, c := off / target, MAX_CWND_INCREASE * factor;
    assert q * target == off;
    if off <= target {
      assert q <= 1.0 by { QuotientSign(q - 1.0, target); }
      Scaled(c, q);
    }
    QuotientSign(q, target);
    QuotientSign(-q, target);
  }

  /** A product with a positive number has the sign of the other factor. */
  lemma QuotientSign(q: real, t: real)
    requires t > 0.0
    ensures q * t <= 0.0 ==> q <= 0.0
  {
  }

  lemma Scaled(c: real, q: real)
    requires c > 0.0 && q <= 1.0
    ensures c * q <= c
  {
  }

  /** What the delay asks of the window: so much more or less, but not less than the minimum. */
  function Steered(window: nat, gain: real): (w: nat)
    ensures w >= MIN_WINDOW_SIZE && (window as real + gain < 10.0 ==> w == 10)
    ensures window as real + gain >= 10.0 ==> w as real <= window as real + gain < w as real + 1.0
    ensures window >= MIN_WINDOW_SIZE && gain <= 0.0 ==> w <= window
    ensures window > MIN_WINDOW_SIZE && gain <= -1.0 ==> w < window
    ensures gain >= 1.0 ==> w > window
  {
    if window as real + gain < MIN_WINDOW_SIZE as real then MIN_WINDOW_SIZE else (window as real + gain).Floor
  }

  /** A window that is not used up does not grow. */
  function Allowed(gain: real, limited: bool): (g: real)
    ensures g == gain || (g == 0.0 < gain && limited)
    ensures limited ==> g <= 0.0
  {
    if gain > 0.0 && limited then 0.0 else gain
  }

  class Cwnd {
    var maxWindow: nat
    var slowStart: bool
    var ssthresh: nat
    var optSndbuf: nat
    var lastDecay: int

    ghost predicate Valid()
      reads this
    {
      maxWindow >= MIN_WINDOW_SIZE
    }

    constructor (packetSize: nat, sndbuf: nat, now: int)
      requires packetSize >= MIN_WINDOW_SIZE
      ensures Valid() && maxWindow == packetSize && ssthresh == optSndbuf == sndbuf && slowStart
    {
      maxWindow, slowStart, ssthresh, optSndbuf, lastDecay := packetSize, true, sndbuf, sndbuf, now - MAX_WINDOW_DECAY;
    }

    /** `maybe_decay_win` */
    method MaybeDecay(now: int)
      requires Valid()
      modifies this
      ensures Valid() && optSndbuf == old(optSndbuf)
      ensures now - old(lastDecay) < 100 ==> unchanged(this)
      ensures now - old(lastDecay) >= 100 ==>
        maxWindow == Max(old(maxWindow) / 2, 10) == ssthresh && !slowStart && lastDecay == now
      ensures maxWindow <= old(maxWindow)
    {
      if now - lastDecay >= MAX_WINDOW_DECAY {
        maxWindow := (maxWindow as real * 0.5).Floor;
        lastDecay := now;
        if maxWindow < MIN_WINDOW_SIZE {
          maxWindow := MIN_WINDOW_SIZE;
        }
        slowStart := false;
        ssthresh := maxWindow;
      }
    }

    /** The retransmission timer, the loss not being blamed on a probe. */
    method OnTimeout(curWindowPackets: nat, packetSize: nat)
      requires Valid() && packetSize >= MIN_WINDOW_SIZE
      modifies this`maxWindow, this`slowStart
      ensures Valid() && packetSize <= maxWindow <= Max(old(maxWindow), packetSize)
      ensures curWindowPackets > 0 || old(maxWindow) <= packetSize ==> maxWindow == packetSize && slowStart
      ensures curWindowPackets == 0 && old(maxWindow) > packetSize ==>
        slowStart == old(slowStart) && 3 * maxWindow <= Max(2 * old(maxWindow), 3 * packetSize)
    {
      if curWindowPackets == 0 && maxWindow > packetSize {
        maxWindow := Max(maxWindow * 2 / 3, packetSize);
      } else {
        maxWindow := packetSize;
        slowStart := true;
      }
    }

    /** `apply_ccontrol` from the penalised delay on. Whatever happens the window does not fall below
        the minimum. While the penalised delay has not overflowed, it grows by no more than the
        acknowledged share of the cap; above the target delay it does not grow at all. */
    method ApplyControl(bytes: nat, delay: int, targetDelay: int, packetSize: nat, limited: bool)
      requires Valid() && bytes > 0
      modifies this`maxWindow, this`slowStart, this`ssthresh
      ensures Valid() && maxWindow <= Max(optSndbuf, MIN_WINDOW_SIZE)
      ensures delay >= 0 && packetSize <= 3000 ==>
        maxWindow as real <= old(maxWindow) as real + MAX_CWND_INCREASE * WindowFactor(bytes, old(maxWindow))
      ensures delay >= (if targetDelay <= 0 then 100000 else targetDelay) ==> maxWindow <= old(maxWindow)
      ensures limited && !old(slowStart) ==> maxWindow <= old(maxWindow)
      ensures slowStart ==> old(slowStart) && ssthresh == old(ssthresh)
      ensures
        var target := if targetDelay <= 0 then 100000 else targetDelay;
        var factor := WindowFactor(bytes, old(maxWindow));
        var gain := Allowed(Gain(factor, delay, target), limited);
        var steered := Steered(old(maxWindow), gain);
        var slow := (old(maxWindow) as real + PacketStep(factor, packetSize)).Floor;
        && (!old(slowStart) ==> maxWindow == Clamp(steered, MIN_WINDOW_SIZE, optSndbuf))
        && (old(slowStart) && (slow > old(ssthresh) || delay as real > target as real * 0.9) ==>
              !slowStart && maxWindow == Clamp(old(maxWindow), MIN_WINDOW_SIZE, optSndbuf))
        && (old(slowStart) && slow <= old(ssthresh) && delay as real > target as real * 0.9 ==>
              ssthresh == old(maxWindow))
        && (old(slowStart) && slow <= old(ssthresh) && delay as real <= target as real * 0.9 ==>
              slowStart && maxWindow == Clamp(Max(slow, steered), MIN_WINDOW_SIZE, optSndbuf))
        && (!old(slowStart) && steered <= optSndbuf ==> maxWindow == steered)
        && (!old(slowStart) && steered > optSndbuf ==> maxWindow == Max(optSndbuf, 10))
        && (old(slowStart) && slowStart && slow <= optSndbuf && steered <= optSndbuf ==>
              maxWindow == Max(slow, steered))
      ensures old(slowStart) && !slowStart && old(maxWindow) <= optSndbuf ==> maxWindow == old(maxWindow)
      ensures
        var target := if targetDelay <= 0 then 100000 else targetDelay;
        2 * delay <= target && !limited && (old(slowStart) ==> slowStart) && maxWindow < optSndbuf ==>
          maxWindow as real > old(maxWindow) as real + 1500.0 * WindowFactor(bytes, old(maxWindow)) - 1.0
    {
      hide WindowFactor, Gain, PacketStep;
      var target := if targetDelay <= 0 then 100000 else targetDelay;
      var factor := WindowFactor(bytes, maxWindow);
      var gain := Gain(factor, delay, target);
      if 2 * delay <= target {
        HalfGain(factor, delay, target);
      }
      gain := Allowed(gain, limited);
      var ledbat := Steered(maxWindow, gain);
      var step := PacketStep(factor, packetSize);
      if slowStart {
        var ss: nat := (maxWindow as real + step).Floor;
        if ss > ssthresh {
          slowStart := false;
        } else if delay as real > target as real * 0.9 {
          slowStart := false;
          ssthresh := maxWindow;
        } else {
          maxWindow := Max(ss, ledbat);
        }
      } else {
        maxWindow := ledbat;
      }
      maxWindow := Clamp(maxWindow, MIN_WINDOW_SIZE, optSndbuf);
    }

    /** One acknowledgement of a round. */
    method RoundStep(ack: Ack, targetDelay: int, packetSize: nat, ghost start: nat, ghost w: nat, ghost acked: nat)
      requires Valid() && maxWindow >= w > 0 && packetSize <= 3000 && ack.bytes > 0 && ack.delay >= 0
      requires Grown(start, maxWindow, w, acked)
      modifies this`maxWindow, this`slowStart, this`ssthresh
      ensures Valid() && Grown(start, maxWindow, w, acked + ack.bytes)
    {
      hide WindowFactor, Grown, Gain, PacketStep, Steered, Allowed, Clamp;
      ghost var was := maxWindow;
      ApplyControl(ack.bytes, ack.delay, targetDelay, packetSize, ack.limited);
      GrowOnce(start, was, maxWindow, w, acked, ack.bytes);
    }

    /** A round: acknowledgements of at most a window w in all, while the window stays at least w, let
        it grow by at most 3000 bytes, however they are cut and whatever delays they report. */
    method Round(acks: seq<Ack>, w: nat, targetDelay: int, packetSize: nat) returns (i: nat)
      requires Valid() && w > 0 && packetSize <= 3000 && Total(acks) <= w
      requires forall k :: 0 <= k < |acks| ==> acks[k].bytes > 0 && acks[k].delay >= 0
      modifies this`maxWindow, this`slowStart, this`ssthresh
      ensures Valid() && i <= |acks| && (i < |acks| ==> maxWindow < w)
      ensures maxWindow <= old(maxWindow) + 3000
    {
      hide WindowFactor, Grown, Total, Gain, PacketStep, Steered, Allowed, Clamp;
      i := 0;
      ghost var start := maxWindow;
      NothingGrown(start, w, acks);
      while i < |acks| && maxWindow >= w
        invariant Valid() && i <= |acks|
        invariant Grown(start, maxWindow, w, Total(acks[..i]))
      {
        TotalNext(acks, i);
        RoundStep(acks[i], targetDelay, packetSize, start, w, Total(acks[..i]));
        i := i + 1;
      }
      TotalMonotone(acks, i);
      CapReached(start, maxWindow, w, Total(acks[..i]));
    }
  }

  datatype Ack = Ack(bytes: nat, delay: int, limited: bool)

  /** `clamp`: the lower bound wins. */
  function Clamp(v: nat, low: nat, high: nat): (r: nat)
    ensures low <= v <= high ==> r == v
    ensures v < low || high < low ==> r == low
    ensures low <= high < v ==> r == high
  {
    Max(low, Min(v, high))
  }

  ghost function Total(acks: seq<Ack>): nat {
    if acks == [] then 0 else Total(acks[..|acks| - 1]) + acks[|acks| - 1].bytes
  }

  lemma TotalNext(acks: seq<Ack>, i: nat)
    requires i < |acks|
    ensures Total(acks[..i + 1]) == Total(acks[..i]) + acks[i].bytes
  {
    assert acks[..i + 1][..i] == acks[..i];
  }

  lemma {:induction false} TotalMonotone(acks: seq<Ack>, i: nat)
    requires i <= |acks|
    ensures Total(acks[..i]) <= Total(acks)
    decreases |acks| - i
  {
    if i < |acks| {
      TotalMonotone(acks, i + 1);
      assert acks[..i + 1][..i] == acks[..i];
    } else {
      assert acks[..i] == acks;
    }
  }

  /** Growth so far, at 3000 bytes for every w acknowledged. */
  ghost predicate Grown(start: nat, now: nat, w: nat, acked: nat) {
    (now - start) * w <= 3000 * acked
  }

  lemma NothingGrown(start: nat, w: nat, acks: seq<Ack>)
    ensures Grown(start, start, w, Total(acks[..0]))
  {
  }

  lemma FactorCap(bytes: nat, window: nat, w: nat)
    requires bytes > 0 && 0 < w <= window
    ensures WindowFactor(bytes, window) * w as real <= bytes as real
  {
    var f, b, v := WindowFactor(bytes, window), bytes as real, window as real;
    assert f * Max(window, bytes) as real == Min(bytes, window) as real;
    assert f * w as real <= f * v;
    assert f * v <= b by {
      if bytes > window {
        assert f * v <= v;
      }
    }
  }

  lemma GrowOnce(start: nat, was: nat, now: nat, w: nat, acked: nat, bytes: nat)
    requires bytes > 0 && was >= w > 0 && Grown(start, was, w, acked)
    requires now as real <= was as real + MAX_CWND_INCREASE * WindowFactor(bytes, was)
    ensures Grown(start, now, w, acked + bytes)
  {
    hide Grown;
    FactorCap(bytes, was, w);
    GrowMore(start, was, now, w, acked, bytes, WindowFactor(bytes, was));
  }

  lemma GrowMore(start: nat, was: nat, now: nat, w: nat, acked: nat, bytes: nat, f: real)
    requires Grown(start, was, w, acked) && now as real <= was as real + MAX_CWND_INCREASE * f
    requires f * w as real <= bytes as real
    ensures Grown(start, now, w, acked + bytes)
  {
    var d := now - was;
    assert d as real * w as real <= 3000.0 * f * w as real;
    assert (d * w) as real <= 3000.0 * bytes as real;
    assert (now - start) * w == (was - start) * w + d * w;
  }

  lemma CapReached(start: nat, now: nat, w: nat, acked: nat)
    requires Grown(start, now, w, acked) && acked <= w && w > 0
    ensures now <= start + 3000
  {
    MultipleOutsideWindow(w, now - start - 3000);
    assert w * (now - start - 3000) == (now - start) * w - 3000 * w;
  }
}
