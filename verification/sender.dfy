/** The sending half of a connection as a value: its history, its window, and
    the one relation that every operation of the code keeps it in. */
module Sender {
  // A predicate whose body reads `( ... ) == true` is one fact: it is established and used whole.

  import opened Words
  import opened Rings
  import opened Packets

  const OUTGOING_BUFFER_MAX_SIZE: nat := 1024
  const DUPLICATE_ACKS_BEFORE_RESEND: nat := 3

  datatype OutPkt = OutPkt(kind: Kind, seqNr: int, payload: seq<byte>, transmissions: nat, needResend: bool)

  /** Transmitting a packet puts it in flight, whatever its state was. */
  function Transmitted(p: OutPkt): OutPkt {
    p.(transmissions := p.transmissions + 1, needResend := false)
  }

  predicate Travelling(o: Option<OutPkt>) {
    o.Some? && o.value.transmissions > 0 && !o.value.needResend
  }

  /** The payload a slot has in flight. */
  ghost function Flight(o: Option<OutPkt>): nat {
    if Travelling(o) then |o.value.payload| else 0
  }

  /** The bytes in flight: the reference definition that `cur_window` is held against. */
  ghost function InFlight(w: seq<Option<OutPkt>>): nat {
    if w == [] then 0 else InFlight(w[..|w| - 1]) + Flight(w[|w| - 1])
  }

  lemma {:induction false} InFlightUpdate(w: seq<Option<OutPkt>>, i: nat, o: Option<OutPkt>)
    requires i < |w|
    ensures InFlight(w[i := o]) == InFlight(w) - Flight(w[i]) + Flight(o)
    ensures Flight(w[i]) <= InFlight(w)
  {
    var n := |w| - 1;
    if i == n {
      assert w[i := o][..n] == w[..n];
    } else {
      InFlightUpdate(w[..n], i, o);
      assert w[i := o][..n] == w[..n][i := o];
    }
  }

  lemma {:induction false} InFlightDropFirst(w: seq<Option<OutPkt>>)
    requires w != []
    ensures InFlight(w[1..]) == InFlight(w) - Flight(w[0])
  {
    var n := |w| - 1;
    if n > 0 {
      InFlightDropFirst(w[..n]);
      assert w[1..][..n - 1] == w[..n][1..];
    }
  }

  lemma InFlightAppend(w: seq<Option<OutPkt>>, o: Option<OutPkt>)
    ensures InFlight(w + [o]) == InFlight(w) + Flight(o)
  {
    assert (w + [o])[..|w|] == w;
  }

  /** A packet is in flight when it was transmitted and is not considered lost. */
  lemma InFlightIs(w: seq<Option<OutPkt>>, p: OutPkt)
    ensures InFlight([]) == 0 && InFlight(w + [None]) == InFlight(w)
    ensures p.transmissions > 0 && !p.needResend ==> InFlight(w + [Some(p)]) == InFlight(w) + |p.payload|
    ensures p.transmissions == 0 || p.needResend ==> InFlight(w + [Some(p)]) == InFlight(w)
  {
    InFlightAppend(w, None);
    InFlightAppend(w, Some(p));
  }

  /** `hist` is every packet ever queued, numbered from `isn`; `win` is its tail that the
      window still spans, with None where a packet has been acknowledged. */
  datatype Snd = Snd(isn: int, hist: seq<Rec>, win: seq<Option<OutPkt>>)
  {
    /** The true number behind `seq_nr`. */
    function Next(): int { isn + |hist| }

    /** The true number of the oldest slot of the window. */
    function Base(): int { isn + |hist| - |win| }
  }

  ghost predicate SlotOk(s: Snd, i: int)
    requires 0 <= i < |s.win| <= |s.hist|
  {
    s.win[i].Some? ==>
      var p := s.win[i].value;
      && p.seqNr == U16(s.Base() + i)
      && Rec(p.kind, p.payload) == s.hist[|s.hist| - |s.win| + i]
      && (p.needResend || p.kind == Syn ==> p.transmissions > 0)
      && p.kind != State
  }

  /** What holds of the sending half even in the middle of processing an acknowledgement. */
  ghost predicate SndInv(s: Snd) {
    && |s.win| <= |s.hist|
    && (forall i :: 0 <= i < |s.win| ==> SlotOk(s, i))
    && (forall k :: 0 <= k < |s.hist| - 1 ==> s.hist[k].kind != Fin)
  }

  /** Packet q is still in the send buffer. */
  ghost predicate Holds(s: Snd, q: int) {
    s.Base() <= q < s.Next() && 0 <= q - s.Base() < |s.win| && s.win[q - s.Base()].Some?
  }

  /** It is there, and has been transmitted. */
  ghost predicate Sent(s: Snd, q: int) {
    Holds(s, q) && s.win[q - s.Base()].value.transmissions > 0
  }

  /** The last packet is queued and was never transmitted: the only one that may still grow. */
  predicate Open(s: Snd) {
    |s.win| > 0 && s.win[|s.win| - 1].Some? && s.win[|s.win| - 1].value.transmissions == 0
  }

  /** Packet q exists and its contents are final. */
  ghost predicate Frozen(s: Snd, q: int) {
    s.isn <= q < s.Next() && !(q == s.Next() - 1 && Open(s))
  }

  ghost function RecOf(s: Snd, q: int): Rec
    requires s.isn <= q < s.Next()
  {
    s.hist[q - s.isn]
  }

  /** What an incoming packet acknowledges: everything up to `ack`, and the packets
      whose bits are set in a mask that starts at ack + 2. */
  datatype AckInfo = NoAck | Acked(ack: int, sack: seq<bool>)

  predicate Covers(a: AckInfo, q: int) {
    a.Acked? && (q <= a.ack || (0 <= q - a.ack - 2 < |a.sack| && a.sack[q - a.ack - 2]))
  }

  /** The guarantee of every operation on the sending half: numbering is never reused, final
      packets never change, a packet leaves the buffer only if the peer acknowledged it, one that left
      never returns, and one that was transmitted stays so. */
  ghost predicate SndStep(s: Snd, t: Snd, a: AckInfo) {
    (
      && t.isn == s.isn
      && |s.hist| <= |t.hist|
      && (forall q :: Frozen(s, q) ==> Frozen(t, q) && RecOf(t, q) == RecOf(s, q))
      && (forall q :: (Holds(s, q) || s.Next() <= q < t.Next()) && !Covers(a, q) ==> Holds(t, q))
      && (forall q :: q < s.Next() && Holds(t, q) ==> Holds(s, q))
      && (forall q :: Sent(s, q) && Holds(t, q) ==> Sent(t, q))
    ) == true
  }

  lemma SndStepTransitive(s: Snd, t: Snd, u: Snd, a: AckInfo)
    requires SndStep(s, t, a) && SndStep(t, u, a)
    ensures SndStep(s, u, a)
  {
    forall q | Frozen(s, q)
      ensures Frozen(u, q) && RecOf(u, q) == RecOf(s, q)
    {
      assert Frozen(t, q);
    }
    forall q | (Holds(s, q) || s.Next() <= q < u.Next()) && !Covers(a, q)
      ensures Holds(u, q)
    {
      if q < t.Next() {
        assert Holds(t, q);
      }
    }
  }

  lemma SndStepRefl(s: Snd, a: AckInfo)
    ensures SndStep(s, s, a)
  {
  }

  /** A stronger promise implies a weaker one. */
  lemma SndStepWeaken(s: Snd, t: Snd, a: AckInfo)
    requires SndStep(s, t, NoAck)
    ensures SndStep(s, t, a)
  {
  }

  /** Changing only a slot's bookkeeping (not its contents, and never back to untransmitted). */
  lemma SlotUpdateStep(s: Snd, i: nat, p: OutPkt, a: AckInfo)
    requires SndInv(s) && i < |s.win| && s.win[i].Some?
    requires p.kind == s.win[i].value.kind && p.seqNr == s.win[i].value.seqNr && p.payload == s.win[i].value.payload
    requires p.transmissions >= s.win[i].value.transmissions
    requires p.needResend ==> p.transmissions > 0
    ensures var t := s.(win := s.win[i := Some(p)]); SndInv(t) && SndStep(s, t, a)
  {
    var t := s.(win := s.win[i := Some(p)]);
    assert SlotOk(s, i);
    forall k | 0 <= k < |t.win|
      ensures SlotOk(t, k)
    {
      assert SlotOk(s, k);
    }
    forall q | Holds(s, q)
      ensures Holds(t, q)
    {
    }
  }

  /** Releasing an acknowledged packet that has been transmitted. */
  lemma SlotFreeStep(s: Snd, i: nat, a: AckInfo)
    requires SndInv(s) && i < |s.win|
    requires s.win[i].Some? ==> Covers(a, s.Base() + i)
    requires s.win[i].Some? ==> s.win[i].value.transmissions > 0
    ensures var t := s.(win := s.win[i := None]); SndInv(t) && SndStep(s, t, a)
  {
    var t := s.(win := s.win[i := None]);
    forall k | 0 <= k < |t.win|
      ensures SlotOk(t, k)
    {
      assert SlotOk(s, k);
    }
    forall q | Holds(s, q) && !Covers(a, q)
      ensures Holds(t, q)
    {
    }
  }

  /** Sliding the window past an empty slot. */
  lemma DropFrontStep(s: Snd, a: AckInfo)
    requires SndInv(s) && s.win != [] && s.win[0] == None
    ensures var t := s.(win := s.win[1..]); SndInv(t) && SndStep(s, t, a)
  {
    var t := s.(win := s.win[1..]);
    forall k | 0 <= k < |t.win|
      ensures SlotOk(t, k)
    {
      assert SlotOk(s, k + 1);
    }
    forall q | Holds(s, q)
      ensures Holds(t, q)
    {
      assert s.win[q - s.Base()] == t.win[q - t.Base()];
    }
    if s.win == [None] {
      assert !Open(s) && !Open(t);
    }
  }

  /** Queueing a new packet behind the window. */
  lemma AppendStep(s: Snd, p: OutPkt, a: AckInfo)
    requires SndInv(s) && p.seqNr == U16(s.Next()) && (p.kind == Data || p.kind == Fin) && !p.needResend
    requires !LastIs(s.hist, Fin)
    ensures var t := s.(hist := s.hist + [Rec(p.kind, p.payload)], win := s.win + [Some(p)]);
      SndInv(t) && SndStep(s, t, a)
  {
    var t := s.(hist := s.hist + [Rec(p.kind, p.payload)], win := s.win + [Some(p)]);
    forall k | 0 <= k < |t.win|
      ensures SlotOk(t, k)
    {
      if k < |s.win| {
        assert SlotOk(s, k);
      }
    }
    forall q | Holds(s, q) || s.Next() <= q < t.Next()
      ensures Holds(t, q)
    {
      if q < s.Next() {
        assert t.win[q - t.Base()] == s.win[q - s.Base()];
      }
    }
  }

  /** Growing the last, still untransmitted packet. */
  lemma ExtendStep(s: Snd, p: OutPkt, a: AckInfo)
    requires SndInv(s) && Open(s)
    requires p.seqNr == s.win[|s.win| - 1].value.seqNr && p.transmissions == 0 && !p.needResend
    requires p.kind == Data || p.kind == Fin
    ensures var t := s.(hist := s.hist[|s.hist| - 1 := Rec(p.kind, p.payload)], win := s.win[|s.win| - 1 := Some(p)]);
      SndInv(t) && SndStep(s, t, a)
  {
    var t := s.(hist := s.hist[|s.hist| - 1 := Rec(p.kind, p.payload)], win := s.win[|s.win| - 1 := Some(p)]);
    assert SlotOk(s, |s.win| - 1);
    forall k | 0 <= k < |t.win|
      ensures SlotOk(t, k)
    {
      assert SlotOk(s, k);
    }
    forall q | Holds(s, q)
      ensures Holds(t, q)
    {
    }
  }
}
