/** The receiving half of a connection as a value: what arrived in order, what waits
    in the reorder ring, and what one more packet does to both. */
module Receiver {
  import opened Words
  import opened Rings
  import opened Packets

  const REORDER_BUFFER_MAX_SIZE: int := 1024

  type Slots = seq<Option<seq<byte>>>

  /** `ack` is the true number behind `ack_nr`; `pend` is the reorder ring seen from ack + 1.
      `eof` is the true number of the FIN once one was seen. */
  datatype Rcv = Rcv(
    ack: int, pend: Slots, count: nat,
    posted: seq<byte>, shut: bool,
    gotFin: bool, eof: int, reached: bool, eofs: nat)

  ghost function Occupied(p: Slots): nat {
    if p == [] then 0 else Occupied(p[..|p| - 1]) + (if p[|p| - 1].Some? then 1 else 0)
  }

  lemma {:induction false} OccupiedUpdate(p: Slots, i: nat, o: Option<seq<byte>>)
    requires i < |p|
    ensures Occupied(p[i := o]) == Occupied(p) - (if p[i].Some? then 1 else 0) + (if o.Some? then 1 else 0)
  {
    var n := |p| - 1;
    if i == n {
      assert p[i := o][..n] == p[..n];
    } else {
      OccupiedUpdate(p[..n], i, o);
      assert p[i := o][..n] == p[..n][i := o];
    }
  }

  lemma {:induction false} OccupiedDropFirst(p: Slots)
    requires p != []
    ensures Occupied(p) == Occupied(p[1..]) + (if p[0].Some? then 1 else 0)
  {
    var n := |p| - 1;
    if n > 0 {
      OccupiedDropFirst(p[..n]);
      assert p[1..][..n - 1] == p[..n][1..];
    }
  }

  lemma {:induction false} OccupiedPad(p: Slots, n: nat)
    ensures Occupied(p + Nones(n)) == Occupied(p)
  {
    if n == 0 {
      assert p + Nones(0) == p;
    } else {
      OccupiedPad(p, n - 1);
      assert (p + Nones(n))[..|p| + n - 1] == p + Nones(n - 1);
    }
  }

  lemma {:induction false} OccupiedBound(p: Slots)
    ensures Occupied(p) <= |p|
    ensures (forall i :: 0 <= i < |p| ==> p[i] == None) <==> Occupied(p) == 0
  {
    if p != [] {
      OccupiedBound(p[..|p| - 1]);
      assert p == p[..|p| - 1] + [p[|p| - 1]];
    }
  }

  /** Turning the view by one position, with the slot left behind taking the value `o`. */
  function Turned(p: Slots, o: Option<seq<byte>>): (r: Slots)
    requires p != []
    ensures |r| == |p| && r[|p| - 1] == o && forall k :: 0 <= k < |p| - 1 ==> r[k] == p[k + 1]
  {
    p[1..] + [o]
  }

  lemma OccupiedTurned(p: Slots, o: Option<seq<byte>>)
    requires p != []
    ensures Occupied(Turned(p, o)) == Occupied(p) - (if p[0].Some? then 1 else 0) + (if o.Some? then 1 else 0)
  {
    OccupiedDropFirst(p);
    assert Turned(p, o)[..|p| - 1] == p[1..];
  }

  /** The buffered packet with true number q, if there is one. */
  function Held(r: Rcv, q: int): Option<seq<byte>> {
    if 0 <= q - r.ack - 1 < |r.pend| then r.pend[q - r.ack - 1] else None
  }

  /** Packet q has arrived: it was posted in order or waits in the ring. */
  predicate Received(r: Rcv, q: int) {
    q <= r.ack || Held(r, q).Some?
  }

  /** The shape of the receiving half between packets, for any peer. Before end of file the
      slots of ack and ack + 1 are empty and the counter counts exactly the occupied slots. */
  ghost predicate RcvInv(r: Rcv) {
    && RingSize(|r.pend|)
    && (!r.reached ==> r.pend[0] == None && r.pend[|r.pend| - 1] == None && r.count == Occupied(r.pend))
    && (r.reached ==> r.gotFin && r.count <= Occupied(r.pend))
    && (r.gotFin && !r.reached ==> r.ack < r.eof <= r.ack + 1024)
    && r.eofs == (if r.reached then 1 else 0)
  }

  /** The same in the middle of draining, when slot ack + 1 may be occupied and ack may stand on the FIN. */
  ghost predicate DrainInv(r: Rcv) {
    && RingSize(|r.pend|)
    && (!r.reached ==> r.pend[|r.pend| - 1] == None && r.count == Occupied(r.pend))
    && (r.reached ==> r.gotFin && r.count <= Occupied(r.pend))
    && (r.gotFin && !r.reached ==> r.ack <= r.eof <= r.ack + 1024)
    && r.eofs == (if r.reached then 1 else 0)
  }

  /** Nothing has arrived yet. */
  ghost predicate Fresh(r: Rcv) {
    && RingSize(|r.pend|)
    && (forall k :: 0 <= k < |r.pend| ==> r.pend[k] == None)
    && r.count == 0 && r.posted == [] && !r.gotFin && !r.reached && r.eofs == 0
  }

  function Post(r: Rcv, payload: seq<byte>): seq<byte> {
    if r.shut then r.posted else r.posted + payload
  }

  /** The end-of-file test made before each further packet is taken from the ring. */
  function AtEof(r: Rcv): Rcv {
    if !r.reached && r.gotFin && r.eof == r.ack
    then r.(reached := true, eofs := r.eofs + 1, count := 0)
    else r
  }

  /** Post the packet at ack + 1 out of the ring. */
  function TakeNext(r: Rcv): Rcv
    requires r.pend != [] && r.pend[0].Some? && r.count > 0
  {
    r.(ack := r.ack + 1, pend := Turned(r.pend, None), count := r.count - 1, posted := Post(r, r.pend[0].value))
  }

  function Drain(r: Rcv): Rcv
    requires r.pend != []
    decreases r.count
  {
    var e := AtEof(r);
    if e.count == 0 || e.pend[0].None? then e else Drain(TakeNext(e))
  }

  /** The packet at ack + 1 arrives. */
  function InOrder(r: Rcv, payload: seq<byte>): Rcv
    requires r.pend != []
  {
    Drain(r.(ack := r.ack + 1, pend := Turned(r.pend, r.pend[0]), posted := Post(r, payload)))
  }

  /** A packet `off` places past the expected one arrives. */
  function OutOfOrder(r: Rcv, off: int, payload: seq<byte>): Rcv
    requires r.pend != [] && 0 < off < 1024
  {
    if r.gotFin && U16(r.ack + 1 + off) > U16(r.eof) then r
    else
      var p := Padded(r.pend, off + 1);
      if p[off].Some? then r.(pend := p)
      else r.(pend := p[off := Some(payload)], count := r.count + 1)
  }

  function NoteFin(r: Rcv, off: int, fin: bool): Rcv {
    if fin && !r.gotFin then r.(gotFin := true, eof := r.ack + 1 + off) else r
  }

  /** What a data or FIN packet does to the receiving half. */
  function Arrive(r: Rcv, off: int, fin: bool, payload: seq<byte>): Rcv
    requires r.pend != [] && 0 <= off < 1024
  {
    var f := NoteFin(r, off, fin);
    if off == 0 then InOrder(f, payload) else OutOfOrder(f, off, payload)
  }

  /** Nothing that arrived is forgotten. */
  ghost predicate Keeps(r: Rcv, t: Rcv) {
    r.ack <= t.ack && forall q :: Received(r, q) ==> Received(t, q)
  }

  lemma KeepsTransitive(r: Rcv, t: Rcv, u: Rcv)
    requires Keeps(r, t) && Keeps(t, u)
    ensures Keeps(r, u)
  {
    forall q | Received(r, q)
      ensures Received(u, q)
    {
      assert Received(t, q);
    }
  }

  lemma KeepsTurned(r: Rcv, t: Rcv)
    requires r.pend != [] && t.ack == r.ack + 1 && |t.pend| == |r.pend|
    requires forall k :: 0 <= k < |r.pend| - 1 ==> t.pend[k] == r.pend[k + 1]
    ensures Keeps(r, t)
  {
    forall q | Received(r, q)
      ensures Received(t, q)
    {
      if q > r.ack + 1 {
        assert t.pend[q - t.ack - 1] == r.pend[q - t.ack - 1 + 1];
      }
    }
  }

  lemma TakeNextSound(r: Rcv)
    requires DrainInv(r) && r.pend[0].Some? && r.count > 0 && AtEof(r) == r
    ensures DrainInv(TakeNext(r)) && Keeps(r, TakeNext(r))
  {
    OccupiedTurned(r.pend, None);
    KeepsTurned(r, TakeNext(r));
  }

  /** Draining restores the shape, forgets nothing, and stops only at the first missing
      packet or at the FIN. */
  lemma {:induction false} DrainSound(r: Rcv)
    requires DrainInv(r)
    ensures var t := Drain(r);
      && RcvInv(t) && Keeps(r, t)
      && t.gotFin == r.gotFin && t.eof == r.eof && t.shut == r.shut && |t.pend| == |r.pend|
      && (r.reached ==> t.reached)
      && (t.reached && !r.reached ==> t.ack == t.eof)
    decreases r.count
  {
    var e := AtEof(r);
    assert Keeps(r, e);
    if e.count == 0 || e.pend[0].None? {
      OccupiedBound(e.pend);
    } else {
      TakeNextSound(e);
      var n := TakeNext(e);
      DrainSound(n);
      KeepsTransitive(r, n, Drain(n));
    }
  }

  lemma InOrderStartShape(r: Rcv, f: Rcv, payload: seq<byte>)
    requires RcvInv(r)
    requires f == NoteFin(r, 0, f.gotFin && !r.gotFin)
    ensures var m := f.(ack := f.ack + 1, pend := Turned(f.pend, f.pend[0]), posted := Post(f, payload));
      DrainInv(m) && Keeps(r, m)
  {
    OccupiedTurned(f.pend, f.pend[0]);
    KeepsTurned(r, f.(ack := f.ack + 1, pend := Turned(f.pend, f.pend[0]), posted := Post(f, payload)));
  }

  lemma InOrderSound(r: Rcv, f: Rcv, payload: seq<byte>)
    requires RcvInv(r)
    requires f == NoteFin(r, 0, f.gotFin && !r.gotFin)
    ensures var t := InOrder(f, payload);
      && RcvInv(t) && Keeps(r, t)
      && (r.reached ==> t.reached)
      && (t.reached && !r.reached ==> t.ack == t.eof)
      && t.shut == r.shut
  {
    var m := f.(ack := f.ack + 1, pend := Turned(f.pend, f.pend[0]), posted := Post(f, payload));
    InOrderStartShape(r, f, payload);
    DrainSound(m);
    KeepsTransitive(r, m, Drain(m));
  }

  lemma OutOfOrderSound(r: Rcv, f: Rcv, off: int, payload: seq<byte>)
    requires RcvInv(r) && 0 < off < 1024
    requires f == NoteFin(r, off, f.gotFin && !r.gotFin)
    ensures var t := OutOfOrder(f, off, payload);
      RcvInv(t) && Keeps(r, t) && t.ack == r.ack && t.shut == r.shut && t.reached == r.reached
  {
    hide Keeps, Received, RingSize, GrownSize, U16, Occupied;
    var p := Padded(f.pend, off + 1);
    var t := OutOfOrder(f, off, payload);
    PaddedSize(f.pend, off + 1);
    OccupiedPad(f.pend, |p| - |f.pend|);
    if t.count != f.count {
      OccupiedUpdate(p, off, Some(payload));
    }
    KeepsByCover(r, t);
  }

  lemma PaddedSize(p: Slots, index: int)
    requires RingSize(|p|) && 0 <= index < 2048
    ensures RingSize(|Padded(p, index)|) && index < |Padded(p, index)| && |p| <= |Padded(p, index)|
  {
  }

  lemma KeepsByCover(r: Rcv, t: Rcv)
    requires t.ack == r.ack && |r.pend| <= |t.pend|
    requires forall k :: 0 <= k < |r.pend| && r.pend[k].Some? ==> t.pend[k].Some?
    ensures Keeps(r, t)
  {
  }

  /** Every packet, from any peer, leaves the receiving half well shaped and forgets nothing. */
  lemma ArriveSound(r: Rcv, off: int, fin: bool, payload: seq<byte>)
    requires RcvInv(r) && 0 <= off < 1024
    ensures var t := Arrive(r, off, fin, payload);
      && RcvInv(t) && Keeps(r, t)
      && (r.reached ==> t.reached)
      && (t.reached && !r.reached ==> t.ack == t.eof)
      && t.shut == r.shut
  {
    var f := NoteFin(r, off, fin);
    if off == 0 {
      InOrderSound(r, f, payload);
    } else {
      OutOfOrderSound(r, f, off, payload);
    }
  }

  lemma OutOfOrderFields(r: Rcv, off: int, payload: seq<byte>)
    requires RingSize(|r.pend|) && 0 < off < 1024
    ensures var t := OutOfOrder(r, off, payload);
      t.ack == r.ack && t.gotFin == r.gotFin && t.eof == r.eof && RingSize(|t.pend|)
  {
  }

  /** The two outcomes once room has been made in the ring. */
  lemma OutOfOrderCases(r: Rcv, off: int, payload: seq<byte>, p: Slots)
    requires r.pend != [] && 0 < off < 1024 && !(r.gotFin && U16(r.ack + 1 + off) > U16(r.eof))
    requires p == r.pend + Nones(GrownSize(|r.pend|, off + 1) - |r.pend|)
    ensures off < |p|
    ensures OutOfOrder(r, off, payload) ==
      if p[off].Some? then r.(pend := p) else r.(pend := p[off := Some(payload)], count := r.count + 1)
  {
  }

  lemma OutOfOrderPastFin(r: Rcv, off: int, payload: seq<byte>)
    requires r.pend != [] && 0 < off < 1024 && r.gotFin && U16(r.ack + 1 + off) > U16(r.eof)
    ensures OutOfOrder(r, off, payload) == r
  {
  }

  // ---------- what one packet does, by what is received and posted ----------

  /** The bytes of the packets from i up to but not including j that wait in the ring. */
  ghost function HeldBytes(r: Rcv, i: int, j: int): seq<byte>
    decreases j - i
  {
    if i >= j then [] else (match Held(r, i) case None => [] case Some(p) => p) + HeldBytes(r, i + 1, j)
  }

  lemma {:induction false} HeldBytesSame(r: Rcv, t: Rcv, i: int, j: int)
    requires forall q :: i <= q < j ==> Held(t, q) == Held(r, q)
    ensures HeldBytes(t, i, j) == HeldBytes(r, i, j)
    decreases j - i
  {
    if i < j { HeldBytesSame(r, t, i + 1, j); }
  }

  /** Draining posts what waits in sequence, and stops at the first gap or at the FIN. */
  ghost predicate Drained(r: Rcv, t: Rcv) {
    && t.shut == r.shut && t.gotFin == r.gotFin && t.eof == r.eof && t.ack >= r.ack
    && (forall q :: r.ack < q <= t.ack ==> Held(r, q).Some?)
    && (forall q :: q > t.ack ==> Held(t, q) == Held(r, q))
    && t.posted == (if r.shut then r.posted else r.posted + HeldBytes(r, r.ack + 1, t.ack + 1))
    && (t.reached <==> r.reached || (r.gotFin && t.ack == r.eof))
    && (!t.reached ==> Held(t, t.ack + 1).None?)
  }

  lemma {:induction false} DrainExact(r: Rcv)
    requires DrainInv(r) && !r.reached
    ensures Drained(r, Drain(r))
    decreases r.count
  {
    var e := AtEof(r);
    if e.count == 0 || e.pend[0].None? {
      OccupiedBound(e.pend);
    } else {
      TakeNextSound(e);
      var n := TakeNext(e);
      DrainExact(n);
      TakenThenDrained(e, n, Drain(n));
    }
  }

  lemma TakenHeld(r: Rcv, n: Rcv, q: int)
    requires r.pend != [] && r.pend[0].Some? && r.count > 0 && n == TakeNext(r)
    ensures q > n.ack ==> Held(n, q) == Held(r, q)
    ensures q == n.ack ==> Held(r, q) == r.pend[0]
  {
  }

  lemma TakenThenDrained(r: Rcv, n: Rcv, t: Rcv)
    requires r.pend != [] && r.pend[0].Some? && r.count > 0 && n == TakeNext(r) && Drained(n, t)
    requires !r.reached && !(r.gotFin && r.eof == r.ack)
    ensures Drained(r, t)
  {
    forall q
      ensures q > n.ack ==> Held(n, q) == Held(r, q)
      ensures q == n.ack ==> Held(r, q) == r.pend[0]
    {
      TakenHeld(r, n, q);
    }
    hide Held;
    TakenBytes(r, n, t.ack + 1);
    hide HeldBytes;
  }

  /** What taking one packet posts, together with what waits behind it, is what waited from it on. */
  lemma TakenBytes(r: Rcv, n: Rcv, end: int)
    requires r.pend != [] && r.pend[0].Some? && r.count > 0 && n == TakeNext(r) && end > n.ack
    requires forall q :: (q > n.ack ==> Held(n, q) == Held(r, q)) && (q == n.ack ==> Held(r, q) == r.pend[0])
    ensures !r.shut ==> n.posted + HeldBytes(n, n.ack + 1, end) == r.posted + HeldBytes(r, r.ack + 1, end)
  {
    hide Held;
    HeldBytesSame(n, r, n.ack + 1, end);
    var rest := HeldBytes(r, n.ack + 1, end);
    assert HeldBytes(r, n.ack, end) == r.pend[0].value + rest;
    assert (r.posted + r.pend[0].value) + rest == r.posted + (r.pend[0].value + rest);
  }

  /** What the arrival of packet q means, in terms of what is received, waits and is posted, and without
      saying how it is done. Before the end of file: nothing received is forgotten and nothing but q
      becomes received; q does, unless the plain 16-bit comparison takes it to lie past the FIN, and
      waits with its own payload if it is early; the first FIN marks the end; the packet that was due
      is posted with all that waited behind it, and the end of file is reached exactly when everything
      up to it was. */
  ghost predicate TookIn(r: Rcv, q: int, fin: bool, payload: seq<byte>, t: Rcv) {
    (
      var pastFin := r.gotFin && q > r.ack + 1 && U16(q) > U16(r.eof);
      && r.ack <= t.ack && t.shut == r.shut
      && (forall p :: Received(r, p) ==> Received(t, p))
      && (forall p :: Received(t, p) ==> Received(r, p) || p == q)
      && (forall p :: p > t.ack && Held(r, p).Some? ==> Held(t, p) == Held(r, p))
      && (!pastFin ==> Received(t, q))
      && (!pastFin && !Received(r, q) && q > t.ack ==> Held(t, q) == Some(payload))
      && (if fin && !r.gotFin then t.gotFin && t.eof == q else t.gotFin == r.gotFin && t.eof == r.eof)
      && (q > r.ack + 1 ==> t.ack == r.ack && t.posted == r.posted && !t.reached)
      && (q == r.ack + 1 ==>
            && q <= t.ack && (forall p :: q < p <= t.ack ==> Held(r, p).Some?)
            && t.posted == (if r.shut then r.posted else r.posted + payload + HeldBytes(r, q + 1, t.ack + 1))
            && (t.reached <==> t.gotFin && t.ack == t.eof)
            && (!t.reached ==> !Received(t, t.ack + 1)))
    ) == true
  }

  /** Storing an early packet changes what waits at its own number at most. */
  lemma EarlyHeld(f: Rcv, off: int, payload: seq<byte>, p: int)
    requires RingSize(|f.pend|) && 0 < off < 1024
    ensures var t, q := OutOfOrder(f, off, payload), f.ack + 1 + off;
      && t == f.(pend := t.pend, count := t.count)
      && var stored := p == q && Held(f, p).None? && !(f.gotFin && U16(q) > U16(f.eof));
      Held(t, p) == if stored then Some(payload) else Held(f, p)
  {
    hide RingSize, U16, GrownSize;
    PaddedSize(f.pend, off + 1);
  }

  /** What a packet that comes early leaves waiting. */
  ghost function EarlySlot(r: Rcv, q: int, fin: bool, payload: seq<byte>, p: int): Option<seq<byte>> {
    if p == q && Held(r, p).None? && !(r.gotFin && U16(q) > U16(r.eof)) then Some(payload) else Held(r, p)
  }

  lemma EarlyTookIn(r: Rcv, off: int, fin: bool, payload: seq<byte>)
    requires RcvInv(r) && !r.reached && 0 < off < 1024
    ensures TookIn(r, r.ack + 1 + off, fin, payload, OutOfOrder(NoteFin(r, off, fin), off, payload))
  {
    var f, q := NoteFin(r, off, fin), r.ack + 1 + off;
    var t := OutOfOrder(f, off, payload);
    hide RingSize, U16, Occupied, OutOfOrder, TookIn;
    forall p
      ensures Held(t, p) == EarlySlot(r, q, fin, payload, p)
    {
      EarlyHeld(f, off, payload, p);
    }
    EarlyHeld(f, off, payload, q);
    EarlyBy(r, q, fin, payload, t);
  }

  lemma EarlyBy(r: Rcv, q: int, fin: bool, payload: seq<byte>, t: Rcv)
    requires q > r.ack + 1 && !r.reached && t == r.(pend := t.pend, count := t.count, gotFin := t.gotFin, eof := t.eof)
    requires if fin && !r.gotFin then t.gotFin && t.eof == q else t.gotFin == r.gotFin && t.eof == r.eof
    requires forall p :: Held(t, p) == EarlySlot(r, q, fin, payload, p)
    ensures TookIn(r, q, fin, payload, t)
  {
    hide U16, Held;
    forall p
      ensures Received(t, p) <==> p <= r.ack || EarlySlot(r, q, fin, payload, p).Some?
    {
      assert Held(t, p) == EarlySlot(r, q, fin, payload, p);
    }
    assert Held(t, q) == EarlySlot(r, q, fin, payload, q);
  }

  lemma DueTookIn(r: Rcv, fin: bool, payload: seq<byte>)
    requires RcvInv(r) && !r.reached
    ensures TookIn(r, r.ack + 1, fin, payload, InOrder(NoteFin(r, 0, fin), payload))
  {
    hide RingSize, U16, Occupied, Drain;
    var f, q := NoteFin(r, 0, fin), r.ack + 1;
    var m := f.(ack := q, pend := Turned(f.pend, f.pend[0]), posted := Post(f, payload));
    InOrderStartShape(r, f, payload);
    DrainExact(m);
    DueDrained(r, m, fin, payload, Drain(m));
  }

  /** The packet that was due has been posted, to m, and what waits has been drained. */
  lemma DueDrained(r: Rcv, m: Rcv, fin: bool, payload: seq<byte>, t: Rcv)
    requires r.pend != [] && r.pend[0] == None && |m.pend| == |r.pend| && m.pend == Turned(r.pend, None)
    requires m.ack == r.ack + 1 && m.shut == r.shut && !m.reached && Drained(m, t)
    requires m.posted == if r.shut then r.posted else r.posted + payload
    requires if fin && !r.gotFin then m.gotFin && m.eof == r.ack + 1 else m.gotFin == r.gotFin && m.eof == r.eof
    ensures TookIn(r, r.ack + 1, fin, payload, t)
  {
    hide U16;
    forall q | q > m.ack
      ensures Held(m, q) == Held(r, q)
    {
    }
    HeldBytesSame(m, r, m.ack + 1, t.ack + 1);
  }

  /** Every packet that arrives before the end of file, from any peer. */
  lemma ArriveTookIn(r: Rcv, off: int, fin: bool, payload: seq<byte>)
    requires RcvInv(r) && !r.reached && 0 <= off < 1024
    ensures TookIn(r, r.ack + 1 + off, fin, payload, Arrive(r, off, fin, payload))
  {
    hide TookIn, InOrder, OutOfOrder, NoteFin;
    if off == 0 {
      DueTookIn(r, fin, payload);
    } else {
      EarlyTookIn(r, off, fin, payload);
    }
  }

  /** Two packets that change places on the way: the first to come waits, and the second one posts both. */
  lemma SwapDelivers(r: Rcv, x: seq<byte>, y: seq<byte>, t: Rcv, u: Rcv)
    requires RcvInv(r) && !r.reached && !r.gotFin && !r.shut && (forall q :: Held(r, q).None?)
    requires TookIn(r, r.ack + 2, false, y, t) && TookIn(t, r.ack + 1, false, x, u)
    ensures t.posted == r.posted && Held(t, r.ack + 2) == Some(y)
    ensures u.posted == r.posted + x + y && u.ack == r.ack + 2
  {
    hide U16, RingSize, Occupied;
    assert !Received(r, r.ack + 1) && !Received(r, r.ack + 2);
    assert Received(t, r.ack + 2) && Received(u, r.ack + 2);
    assert u.ack != r.ack + 1;
    assert !Received(r, r.ack + 3) && !Received(t, r.ack + 3);
    assert HeldBytes(t, r.ack + 3, u.ack + 1) == [];
    assert HeldBytes(t, r.ack + 2, u.ack + 1) == y + [];
  }
}
