/** The sliding minimum of one-way delay samples. Samples and the base are 32-bit numbers without an
    absolute meaning; all comparisons wrap. */
module DelayHistory {
  import opened Words

  const CUR_DELAY_SIZE: nat := 3
  const DELAY_BASE_HISTORY: nat := 13

  /** The least number of a non-empty sequence: the reference the wrapped search is held against. */
  ghost function Least(s: seq<int>): int
    requires s != []
  {
    if |s| == 1 then s[0] else Min(s[0], Least(s[1..]))
  }

  lemma {:induction false} LeastIs(s: seq<int>)
    requires s != []
    ensures Least(s) in s && forall i :: 0 <= i < |s| ==> Least(s) <= s[i]
  {
    if |s| > 1 {
      LeastIs(s[1..]);
      assert s == [s[0]] + s[1..];
    }
  }

  lemma LeastUnique(s: seq<int>, m: int)
    requires s != [] && m in s && forall i :: 0 <= i < |s| ==> m <= s[i]
    ensures m == Least(s)
  {
    LeastIs(s);
  }

  /** The samples behind a history: for each minute slot the unwrapped samples it was fed. */
  type Slots = s: seq<seq<int>> | |s| == 13 && forall i :: 0 <= i < 13 ==> s[i] != []
    witness seq(13, i => [0])

  ghost function Minima(h: Slots): (m: seq<int>)
    ensures |m| == 13
  {
    seq(13, i requires 0 <= i < 13 => Least(h[i]))
  }

  /** All samples lie in one band narrower than half the 32-bit space. */
  ghost predicate Banded(h: Slots, lo: int) {
    forall i, k :: 0 <= i < 13 && 0 <= k < |h[i]| ==> lo <= h[i][k] < lo + 0x8000_0000
  }

  /** The same samples, one more in the current slot, and in a fresh slot when the minute is over. */
  ghost function Fed(h: Slots, idx: nat, t: int, rolls: bool): (g: Slots)
    requires idx < 13
  {
    var g := h[idx := h[idx] + [t]];
    if rolls then g[(idx + 1) % 13 := [t]] else g
  }

  ghost function Shifted(h: Slots, offset: int): (g: Slots) {
    seq(13, i requires 0 <= i < 13 => seq(|h[i]|, k requires 0 <= k < |h[i]| => h[i][k] + offset))
  }

  lemma {:induction false} LeastShift(s: seq<int>, t: seq<int>, offset: int)
    requires s != [] && |t| == |s| && forall k :: 0 <= k < |s| ==> t[k] == s[k] + offset
    ensures Least(t) == Least(s) + offset
  {
    if |s| > 1 {
      LeastShift(s[1..], t[1..], offset);
    }
  }

  lemma {:induction false} LeastAppend(s: seq<int>, t: int)
    requires s != []
    ensures Least(s + [t]) == Min(Least(s), t)
  {
    if |s| > 1 {
      LeastAppend(s[1..], t);
      assert (s + [t])[1..] == s[1..] + [t];
    } else {
      assert (s + [t])[1..] == [t];
    }
  }

  class DelayHist {
    var delayBase: uint32
    const curDelayHist: array<uint32>
    var curDelayIdx: nat
    const delayBaseHist: array<uint32>
    var delayBaseIdx: nat
    var delayBaseTime: int
    var initialized: bool

    ghost predicate Valid()
      reads this, curDelayHist, delayBaseHist
    {
      && curDelayHist.Length == CUR_DELAY_SIZE && delayBaseHist.Length == DELAY_BASE_HISTORY
      && curDelayIdx < CUR_DELAY_SIZE && delayBaseIdx < DELAY_BASE_HISTORY
      && curDelayHist != delayBaseHist
      && forall i :: 0 <= i < CUR_DELAY_SIZE ==> curDelayHist[i] <= 0x8000_0000
    }

    /** The stored history and base are the 32-bit images of the true minima of the samples h. */
    ghost predicate Reflects(h: Slots)
      requires Valid()
      reads this, curDelayHist, delayBaseHist
    {
      && initialized
      && (forall i :: 0 <= i < 13 ==> delayBaseHist[i] == U32(Minima(h)[i]))
      && delayBase == U32(Least(Minima(h)))
    }

    /** `clear` */
    constructor (now: int)
      ensures Valid() && !initialized && fresh(curDelayHist) && fresh(delayBaseHist)
    {
      curDelayHist := new uint32[CUR_DELAY_SIZE](i => 0);
      delayBaseHist := new uint32[DELAY_BASE_HISTORY](i => 0);
      delayBase, curDelayIdx, delayBaseIdx, delayBaseTime, initialized := 0, 0, 0, now, false;
    }

    /** `get_value`: the least of the recent delays. */
    method GetValue() returns (value: uint32)
      requires Valid()
      ensures value <= 0x8000_0000
      ensures exists i :: 0 <= i < CUR_DELAY_SIZE && value == curDelayHist[i]
      ensures forall i :: 0 <= i < CUR_DELAY_SIZE ==> value <= curDelayHist[i]
    {
      value := UINT_MAX;
      for i := 0 to CUR_DELAY_SIZE
        invariant i == 0 ==> value == UINT_MAX
        invariant i > 0 ==> exists k :: 0 <= k < i && value == curDelayHist[k]
        invariant forall k :: 0 <= k < i ==> value <= curDelayHist[k]
      {
        value := Min(curDelayHist[i], value);
      }
    }

    /** `shift`: a common offset moves history and base alike. */
    method Shift(offset: uint32, ghost h: Slots)
      requires Valid()
      modifies this`delayBase, delayBaseHist
      ensures Valid() && initialized == old(initialized)
      ensures old(Reflects(h)) ==> Reflects(Shifted(h, offset))
    {
      hide U32, Least;
      ghost var was := delayBaseHist[..];
      for i := 0 to DELAY_BASE_HISTORY
        invariant Valid() && unchanged(this)
        invariant forall k :: 0 <= k < i ==> delayBaseHist[k] == U32(was[k] + offset)
        invariant forall k :: i <= k < 13 ==> delayBaseHist[k] == was[k]
      {
        delayBaseHist[i] := U32(delayBaseHist[i] + offset);
      }
      delayBase := U32(delayBase + offset);
      if old(Reflects(h)) {
        MinimaShift(h, offset);
        U32Add(Least(Minima(h)), offset);
        forall i | 0 <= i < 13
          ensures delayBaseHist[i] == U32(Minima(Shifted(h, offset))[i])
        {
          assert was[i] == U32(Minima(h)[i]);
          U32Add(Minima(h)[i], offset);
        }
      }
    }

    /** Before the first sample, everything is set to it. */
    method Initialise(sample: uint32, ghost t: int)
      requires Valid() && U32(t) == sample
      modifies this`delayBase, this`initialized, delayBaseHist
      ensures Valid() && Reflects(Uniform(t))
    {
      for i := 0 to DELAY_BASE_HISTORY
        invariant Valid() && unchanged(this)
        invariant forall k :: 0 <= k < i ==> delayBaseHist[k] == sample
      {
        delayBaseHist[i] := sample;
      }
      delayBase := sample;
      initialized := true;
      assert Minima(Uniform(t))[0] == t;
      LeastUnique(Minima(Uniform(t)), t);
    }

    /** The scan for the least history entry when a minute is over. */
    method Rescan(ghost g: seq<int>, ghost lo: int)
      requires Valid() && |g| == 13
      modifies this`delayBase
      ensures (forall i :: 0 <= i < 13 ==> delayBaseHist[i] == U32(g[i]) && lo <= g[i] < lo + 0x8000_0000) ==>
        delayBase == U32(Least(g))
    {
      hide U32, Less32, Least;
      ghost var ok := forall i :: 0 <= i < 13 ==> delayBaseHist[i] == U32(g[i]) && lo <= g[i] < lo + 0x8000_0000;
      ghost var m := g[0];
      delayBase := delayBaseHist[0];
      for i := 0 to DELAY_BASE_HISTORY
        invariant ok ==> delayBase == U32(m) && m in g && lo <= m < lo + 0x8000_0000
        invariant ok ==> forall k :: 0 <= k < i ==> m <= g[k]
      {
        if ok { Less32IsLess(g[i], m); }
        if Less32(delayBaseHist[i], delayBase) {
          delayBase := delayBaseHist[i];
          m := g[i];
        }
      }
      if ok { LeastUnique(g, m); }
    }

    /** The two comparisons that keep the current slot and the base at their minima, and the delay. */
    method Lower(sample: uint32, ghost h: Slots, ghost t: int, ghost lo: int) returns (delay: uint32)
      requires Valid() && U32(t) == sample
      modifies this`delayBase, delayBaseHist
      ensures Valid() && delay <= 0x8000_0000
      ensures old(Reflects(h)) && Banded(h, lo) && lo <= t < lo + 0x8000_0000 ==>
        Reflects(Fed(h, delayBaseIdx, t, false)) && delay == t - Min(Least(Minima(h)), t)
    {
      hide U32, Less32, Least;
      ghost var ok := Reflects(h) && Banded(h, lo) && lo <= t < lo + 0x8000_0000;
      ghost var m := Minima(h);
      ghost var was := delayBaseHist[..];
      if ok {
        MinimaBanded(h, lo);
        Less32IsLess(t, m[delayBaseIdx]);
        Less32IsLess(t, Least(m));
        MinimaFed(h, delayBaseIdx, t);
        DelayTrue(t, Least(m));
      }
      DelayBound(sample, delayBase);
      if Less32(sample, delayBaseHist[delayBaseIdx]) {
        delayBaseHist[delayBaseIdx] := sample;
      }
      if Less32(sample, delayBase) {
        delayBase := sample;
      }
      delay := U32(sample - delayBase);
    }

    /** `add_sample`: t is the sample unwrapped. The delay it returns is the one recorded. While all
        samples stay in one band, it is the true distance to the least sample of the history, and the
        history moves on as Fed says. */
    method AddSample(sample: uint32, now: int, ghost h: Slots, ghost t: int, ghost lo: int) returns (delay: uint32)
      requires Valid() && U32(t) == sample
      modifies this, curDelayHist, delayBaseHist
      ensures Valid() && initialized && delay <= 0x8000_0000
      ensures curDelayHist[..] == old(curDelayHist[..][curDelayIdx := delay])
      ensures curDelayIdx == (old(curDelayIdx) + 1) % CUR_DELAY_SIZE
      ensures delayBaseTime == if Rolls(old(delayBaseTime), now) then now else old(delayBaseTime)
      ensures delayBaseIdx == if Rolls(old(delayBaseTime), now) then (old(delayBaseIdx) + 1) % 13 else old(delayBaseIdx)
      ensures 0 <= now - old(delayBaseTime) <= 60000 ==> delayBaseTime == old(delayBaseTime)
      ensures 0 <= now - old(delayBaseTime) <= 60000 ==> delayBaseIdx == old(delayBaseIdx)
      ensures now - old(delayBaseTime) > 60000 || now < old(delayBaseTime) ==>
        delayBaseTime == now && delayBaseIdx != old(delayBaseIdx)
      ensures old(initialized ==> Reflects(h)) && Banded(h, lo) && lo <= t < lo + 0x8000_0000 ==>
        var was := if old(initialized) then h else Uniform(t);
        && delay == t - Min(Least(Minima(was)), t)
        && Reflects(Fed(was, old(delayBaseIdx), t, Rolls(old(delayBaseTime), now)))
        && Banded(Fed(was, old(delayBaseIdx), t, Rolls(old(delayBaseTime), now)), lo)
    {
      hide U32, Less32, Least, Minima, Banded, Fed, Uniform;
      ghost var was := if initialized then h else Uniform(t);
      ghost var ok := (initialized ==> Reflects(h)) && Banded(h, lo) && lo <= t < lo + 0x8000_0000;
      if !initialized {
        Initialise(sample, t);
      }
      if ok {
        UniformBanded(t, lo);
        FedBanded(was, delayBaseIdx, t, lo);
      }
      delay := Lower(sample, was, t, lo);
      curDelayHist[curDelayIdx] := delay;
      curDelayIdx := (curDelayIdx + 1) % CUR_DELAY_SIZE;
      if Rolls(delayBaseTime, now) {
        delayBaseTime := now;
        Roll(sample, Fed(was, delayBaseIdx, t, false), t, lo);
        FedRolls(was, old(delayBaseIdx), t);
      }
    }

    /** The next minute's slot starts out with the sample, and the base is searched for again. */
    method Roll(sample: uint32, ghost g: Slots, ghost t: int, ghost lo: int)
      requires Valid() && U32(t) == sample
      modifies this`delayBase, this`delayBaseIdx, delayBaseHist
      ensures Valid() && delayBaseIdx == (old(delayBaseIdx) + 1) % 13
      ensures old(Reflects(g)) && Banded(g[delayBaseIdx := [t]], lo) ==> Reflects(g[delayBaseIdx := [t]])
    {
      hide U32, Least, Banded;
      delayBaseIdx := (delayBaseIdx + 1) % DELAY_BASE_HISTORY;
      delayBaseHist[delayBaseIdx] := sample;
      ghost var n: Slots := g[delayBaseIdx := [t]];
      LeastOne(t);
      if Banded(n, lo) { MinimaBanded(n, lo); }
      Rescan(Minima(n), lo);
    }

    /** One event of a run. */
    method Take(e: Event, ghost b: Book, ghost lo: int) returns (delay: uint32)
      requires Valid() && Booked(b)
      modifies this, curDelayHist, delayBaseHist
      ensures Valid() && delay <= 0x8000_0000
      ensures initialized == Kept(b, e).started && delayBaseIdx == Kept(b, e).idx && delayBaseTime == Kept(b, e).time
      ensures InBand(b, e, lo) && old(initialized ==> Reflects(b.h)) ==> delay == TrueDelay(b, e)
      ensures InBand(b, e, lo) && old(initialized ==> Reflects(b.h)) ==> initialized ==> Reflects(Kept(b, e).h)
    {
      hide U32, Least, Minima, Banded, Fed, Uniform, Shifted;
      delay := 0;
      match e {
        case Sample(t, now) =>
          delay := AddSample(U32(t), now, if b.started then b.h else Uniform(t), t, lo);
        case Shift(offset) =>
          Shift(offset, b.h);
      }
    }

    /** The bookkeeping fields are those of the book. */
    ghost predicate Booked(b: Book)
      reads this
    {
      initialized == b.started && delayBaseIdx == b.idx < 13 && delayBaseTime == b.time
    }

    /** A whole run of samples and shifts: History is what they leave behind, minute by minute. As long
        as each sample lies in one band with the history it meets, every recorded delay is true, and
        the slots and the base are the true minima at every moment. */
    method Run(events: seq<Event>, ghost lo: seq<int>) returns (delays: seq<uint32>)
      requires Valid() && !initialized && |lo| == |events|
      modifies this, curDelayHist, delayBaseHist
      ensures Valid() && |delays| == |events|
      ensures forall i :: 0 <= i < |events| ==> delays[i] <= 0x8000_0000
      ensures forall i :: 0 <= i < |events| ==> DelayOk(old(delayBaseIdx), old(delayBaseTime), events, lo, i, delays[i])
      ensures InBands(old(delayBaseIdx), old(delayBaseTime), events, lo) && initialized ==>
        Reflects(History(old(delayBaseIdx), old(delayBaseTime), events).h)
    {
      hide U32, Least, Minima, Banded, Fed, Uniform, Shifted, TrueDelay, InBand, InBands, Kept, DelayOk, History;
      ghost var idx, time := delayBaseIdx, delayBaseTime;
      delays := [];
      HistoryStart(idx, time, events);
      for i := 0 to |events|
        invariant Valid() && |delays| == i && Booked(History(idx, time, events[..i]))
        invariant forall j :: 0 <= j < i ==> delays[j] <= 0x8000_0000
        invariant forall j :: 0 <= j < i ==> DelayOk(idx, time, events, lo, j, delays[j])
        invariant InBands(idx, time, events[..i], lo[..i]) && initialized ==>
          Reflects(History(idx, time, events[..i]).h)
      {
        ghost var b := History(idx, time, events[..i]);
        HistoryNext(idx, time, events, lo, i);
        var delay := Take(events[i], b, lo[i]);
        DelayIsOk(idx, time, events, lo, i, delay);
        delays := delays + [delay];
      }
      assert events[..|events|] == events && lo[..|lo|] == lo;
    }
  }

  /** More than a minute since the last step; the subtraction is unsigned, so a clock that ran
      backwards counts as well. */
  predicate Rolls(since: int, now: int) {
    now - since > 60 * 1000 || now < since
  }

  /** What happens to a history: an unwrapped sample at a time, or a shift against clock skew. */
  datatype Event = Sample(t: int, now: int) | Shift(offset: uint32)

  /** The samples behind the thirteen slots, once there is one. */
  datatype Book = Book(h: Slots, idx: nat, time: int, started: bool)

  /** The samples that a new sample meets. */
  ghost function Met(b: Book, t: int): Slots {
    if b.started then b.h else Uniform(t)
  }

  ghost function Kept(b: Book, e: Event): (c: Book)
    requires b.idx < 13
    ensures c.idx < 13
  {
    match e
    case Sample(t, now) =>
      var rolls := Rolls(b.time, now);
      Book(Fed(Met(b, t), b.idx, t, rolls),
           if rolls then (b.idx + 1) % 13 else b.idx, if rolls then now else b.time, true)
    case Shift(offset) => if b.started then b.(h := Shifted(b.h, offset)) else b
  }

  /** The distance from a sample to the least one of the history, itself included. */
  ghost function TrueDelay(b: Book, e: Event): int {
    match e
    case Sample(t, now) => t - Min(Least(Minima(Met(b, t))), t)
    case Shift(offset) => 0
  }

  ghost predicate InBand(b: Book, e: Event, lo: int) {
    e.Sample? ==> Banded(Met(b, e.t), lo) && lo <= e.t < lo + 0x8000_0000
  }

  /** What a run of events leaves behind. */
  ghost function History(idx: nat, time: int, events: seq<Event>): (b: Book)
    requires idx < 13
    ensures b.idx < 13
  {
    if events == [] then Book(Uniform(0), idx, time, false)
    else Kept(History(idx, time, events[..|events| - 1]), events[|events| - 1])
  }

  /** Each sample of the run lies in one band with the history it meets. */
  ghost predicate InBands(idx: nat, time: int, events: seq<Event>, lo: seq<int>)
    requires idx < 13 && |lo| == |events|
  {
    forall i :: 0 <= i < |events| ==> InBand(History(idx, time, events[..i]), events[i], lo[i])
  }

  /** The delay recorded for event i is the true one if the run was in its bands that far. */
  ghost predicate DelayOk(idx: nat, time: int, events: seq<Event>, lo: seq<int>, i: nat, delay: int)
    requires idx < 13 && |lo| == |events| && i < |events|
  {
    InBands(idx, time, events[..i + 1], lo[..i + 1]) ==> delay == TrueDelay(History(idx, time, events[..i]), events[i])
  }

  lemma DelayIsOk(idx: nat, time: int, events: seq<Event>, lo: seq<int>, i: nat, delay: int)
    requires idx < 13 && |lo| == |events| && i < |events|
    requires InBands(idx, time, events[..i + 1], lo[..i + 1]) ==>
      delay == TrueDelay(History(idx, time, events[..i]), events[i])
    ensures DelayOk(idx, time, events, lo, i, delay)
  {
  }

  lemma HistoryStart(idx: nat, time: int, events: seq<Event>)
    requires idx < 13
    ensures var b := History(idx, time, events[..0]); b.idx == idx && b.time == time && !b.started
  {
  }

  lemma HistoryNext(idx: nat, time: int, events: seq<Event>, lo: seq<int>, i: nat)
    requires idx < 13 && |lo| == |events| && i < |events|
    ensures History(idx, time, events[..i + 1]) == Kept(History(idx, time, events[..i]), events[i])
    ensures InBands(idx, time, events[..i + 1], lo[..i + 1])
      <==> InBands(idx, time, events[..i], lo[..i]) && InBand(History(idx, time, events[..i]), events[i], lo[i])
  {
    hide InBand, Kept;
    var e, l := events[..i + 1], lo[..i + 1];
    assert e[..i] == events[..i];
    assert forall j :: 0 <= j <= i ==> e[..j] == events[..j] && events[..i][..j] == events[..j];
    if InBands(idx, time, e, l) {
      forall j | 0 <= j < i
        ensures InBand(History(idx, time, events[..i][..j]), events[..i][j], lo[..i][j])
      {
        assert InBand(History(idx, time, e[..j]), e[j], l[j]);
      }
      assert InBand(History(idx, time, e[..i]), e[i], l[i]);
    }
    if InBands(idx, time, events[..i], lo[..i]) && InBand(History(idx, time, events[..i]), events[i], lo[i]) {
      forall j | 0 <= j < i + 1
        ensures InBand(History(idx, time, e[..j]), e[j], l[j])
      {
        if j < i {
          assert InBand(History(idx, time, events[..i][..j]), events[..i][j], lo[..i][j]);
        }
      }
    }
  }

  lemma LeastOne(t: int)
    ensures Least([t]) == t
  {
  }

  lemma UniformBanded(t: int, lo: int)
    requires lo <= t < lo + 0x8000_0000
    ensures Banded(Uniform(t), lo)
  {
  }

  lemma FedBanded(h: Slots, idx: nat, t: int, lo: int)
    requires idx < 13 && Banded(h, lo) && lo <= t < lo + 0x8000_0000
    ensures Banded(Fed(h, idx, t, false), lo) && Banded(Fed(h, idx, t, true), lo)
  {
  }

  lemma FedRolls(h: Slots, idx: nat, t: int)
    requires idx < 13
    ensures Fed(h, idx, t, true) == Fed(h, idx, t, false)[(idx + 1) % 13 := [t]]
  {
  }

  ghost function Uniform(t: int): Slots {
    seq(13, i => [t])
  }

  lemma MinimaShift(h: Slots, offset: int)
    ensures forall i :: 0 <= i < 13 ==> Minima(Shifted(h, offset))[i] == Minima(h)[i] + offset
    ensures Least(Minima(Shifted(h, offset))) == Least(Minima(h)) + offset
  {
    forall i | 0 <= i < 13
      ensures Minima(Shifted(h, offset))[i] == Minima(h)[i] + offset
    {
      LeastShift(h[i], Shifted(h, offset)[i], offset);
    }
    LeastShift(Minima(h), Minima(Shifted(h, offset)), offset);
  }

  lemma MinimaBanded(h: Slots, lo: int)
    requires Banded(h, lo)
    ensures forall i :: 0 <= i < 13 ==> lo <= Minima(h)[i] < lo + 0x8000_0000
    ensures lo <= Least(Minima(h)) < lo + 0x8000_0000
  {
    forall i | 0 <= i < 13
      ensures lo <= Minima(h)[i] < lo + 0x8000_0000
    {
      LeastIs(h[i]);
    }
    LeastIs(Minima(h));
  }

  /** One more sample lowers one minimum, and the least of them all, to it at most. */
  lemma MinimaFed(h: Slots, idx: nat, t: int)
    requires idx < 13
    ensures Minima(Fed(h, idx, t, false)) == Minima(h)[idx := Min(Minima(h)[idx], t)]
    ensures Least(Minima(Fed(h, idx, t, false))) == Min(Least(Minima(h)), t)
  {
    var m, g := Minima(h), Minima(Fed(h, idx, t, false));
    LeastAppend(h[idx], t);
    assert g == m[idx := Min(m[idx], t)];
    LeastIs(m);
    var least := Min(Least(m), t);
    assert least in g by {
      if t < Least(m) {
        assert g[idx] == t;
      } else {
        var k :| 0 <= k < 13 && m[k] == Least(m);
        assert g[k] == Least(m);
      }
    }
    LeastUnique(g, least);
  }

  lemma DelayTrue(t: int, base: int)
    requires -0x8000_0000 < t - base < 0x8000_0000
    ensures U32(U32(t) - U32(Min(base, t))) == t - Min(base, t)
  {
    U32Difference(t, Min(base, t));
  }

  /** Whatever the peer sends, a recorded delay is at most half the 32-bit space. */
  lemma DelayBound(sample: uint32, base: uint32)
    ensures U32(sample - sample) == 0
    ensures !Less32(sample, base) ==> U32(sample - base) <= 0x8000_0000
  {
  }
}
