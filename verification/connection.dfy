/** A whole connection as a value: every field of the socket that carries the stream,
    both rings seen from their windows, and the unbounded numbers behind the 16-bit ones.
    The operations of the code are functions on this value. */
module Connection {
  import opened Words
  import opened Rings
  import opened Packets
  import opened Sender
  import opened Receiver
  import opened Endpoint

  /** `ring` is the send ring from the oldest packet of the window; `rcv` holds the receive ring. */
  datatype Conn = Conn(
    state: ConnState, seqNr: int, wnd: nat, curWindow: nat, ackNr: int, eofPkt: int,
    finSent: bool, finSentAcked: bool, closeRequested: bool,
    isn: int, hist: seq<Rec>, sent: seq<Dgram>,
    ring: seq<Option<OutPkt>>, rcv: Rcv)
  {
    function Next(): int { isn + |hist| }
    function Base(): int { isn + |hist| - wnd }
  }

  /** The sending half. */
  function SndOf(c: Conn): (s: Snd)
    requires c.wnd <= |c.ring|
    ensures |s.win| == c.wnd && s.Base() == c.Base() && s.Next() == c.Next()
  {
    Snd(c.isn, c.hist, c.ring[..c.wnd])
  }

  /** The 16-bit fields stand for the true numbers, and `curWindow` is the bytes in flight. */
  ghost predicate FieldsOk(c: Conn)
    requires c.wnd <= |c.ring|
  {
    && c.seqNr == U16(c.Next()) && c.ackNr == U16(c.rcv.ack) && (c.rcv.gotFin ==> c.eofPkt == U16(c.rcv.eof))
    && c.curWindow == InFlight(c.ring[..c.wnd])
  }

  ghost predicate TailEmpty(c: Conn) {
    forall k :: c.wnd <= k < |c.ring| ==> c.ring[k] == None
  }

  // A predicate whose body reads `( ... ) == true` is one fact: it is established and used whole.

  /** What holds at every point of every operation. */
  ghost predicate Linked(c: Conn)
    ensures Linked(c) ==>
      c.wnd <= |c.ring| && c.wnd <= |c.hist| && c.seqNr == U16(c.Next()) && c.ackNr == U16(c.rcv.ack)
  {
    (
      && RingSize(|c.ring|) && RingSize(|c.rcv.pend|)
      && c.wnd <= |c.ring|
      && TailEmpty(c)
      && FieldsOk(c)
      && SndInv(SndOf(c))
      && LogOk(SndOf(c), c.rcv, c.sent)
    ) == true
  }

  /** The window never exceeds 1024 packets, 1023 before the FIN. */
  ghost predicate FlagsOk(c: Conn) {
    && c.wnd <= (if c.finSent then OUTGOING_BUFFER_MAX_SIZE else OUTGOING_BUFFER_MAX_SIZE - 1)
    && (c.finSentAcked ==> c.finSent)
    && (Dialling(c) ==> Unconnected(c))
  }

  predicate Dialling(c: Conn) {
    c.state == SynSent || c.state == Uninitialized || c.state == Idle
  }

  /** Before the handshake completes nothing but the connection request was queued or sent. */
  ghost predicate Unconnected(c: Conn) {
    && Fresh(c.rcv)
    && (forall i :: 0 <= i < |c.sent| ==> c.sent[i].kind == Syn)
    && (forall k :: 0 <= k < |c.hist| ==> c.hist[k].kind == Syn)
  }

  /** What every loop of every operation keeps. */
  ghost predicate Sound(c: Conn)
    ensures Sound(c) ==> c.wnd <= |c.ring| && c.wnd <= |c.hist| && c.wnd <= 1024 && |c.ring| >= 16 && |c.rcv.pend| >= 16
    ensures Sound(c) ==>
      c.seqNr == U16(c.Next()) && c.ackNr == U16(c.rcv.ack) && (c.rcv.gotFin ==> c.eofPkt == U16(c.rcv.eof))
  {
    (Linked(c) && FlagsOk(c)) == true
  }


  lemma SoundSizes(c: Conn)
    requires Sound(c)
    ensures RingSize(|c.ring|) && RingSize(|c.rcv.pend|) && TailEmpty(c)
  {
  }

  lemma SoundParts(c: Conn)
    requires Sound(c)
    ensures
      && RingSize(|c.ring|) && RingSize(|c.rcv.pend|) && c.wnd <= |c.ring| && TailEmpty(c) && FieldsOk(c)
      && FlagsOk(c)
    ensures SndInv(SndOf(c)) && LogOk(SndOf(c), c.rcv, c.sent)
  {
  }

  lemma SoundJoined(c: Conn)
    requires
      && RingSize(|c.ring|) && RingSize(|c.rcv.pend|) && c.wnd <= |c.ring| && TailEmpty(c) && FieldsOk(c)
      && FlagsOk(c)
    requires SndInv(SndOf(c)) && LogOk(SndOf(c), c.rcv, c.sent)
    ensures Sound(c)
  {
  }

  /** The FIN, once sent, is the last packet. */
  ghost predicate FinLast(c: Conn) {
    c.finSent <==> LastIs(c.hist, Fin)
  }

  /** `check_invariant` and the asserts around it, all together, between any two operations. */
  ghost predicate ConnInv(c: Conn)
    ensures ConnInv(c) ==> Sound(c) && RcvInv(c.rcv)
  {
    (
      && Sound(c)
      && RcvInv(c.rcv)
      && (c.wnd > 0 ==> c.ring[0].Some?)
      && FinLast(c)
    ) == true
  }

  /** A connection on which nothing has happened yet is well formed. */
  lemma FreshConn(c: Conn)
    requires RingSize(|c.ring|) && forall k :: 0 <= k < |c.ring| ==> c.ring[k] == None
    requires Fresh(c.rcv) && c.wnd == 0 && c.curWindow == 0 && c.hist == []
    requires c.sent == [] && c.seqNr == U16(c.isn) && c.ackNr == U16(c.rcv.ack)
    requires !c.finSent && !c.finSentAcked
    ensures ConnInv(c)
  {
    OccupiedBound(c.rcv.pend);
  }

  // ---------- transmitting ----------

  /** `send_packet` on window position i. */
  function SendAt(c: Conn, i: nat): Conn
    requires i < c.wnd <= |c.ring| && c.ring[i].Some?
  {
    var p := c.ring[i].value;
    c.(curWindow := if p.transmissions == 0 || p.needResend then c.curWindow + |p.payload| else c.curWindow,
       ring := c.ring[i := Some(Transmitted(p))],
       sent := c.sent + [Dgram(p.kind, c.Base() + i, c.rcv.ack, None, p.payload)])
  }

  /** The number in a packet's header is that of its position. */
  lemma PacketNumber(c: Conn, i: nat)
    requires Sound(c) && i < c.wnd && c.ring[i].Some?
    ensures c.ring[i].value.seqNr == U16(c.Base() + i) && c.ring[i].value.kind != State && c.ackNr == U16(c.rcv.ack)
  {
    assert SlotOk(SndOf(c), i);
  }

  lemma SendAtSound(c: Conn, i: nat)
    requires Sound(c) && i < c.wnd && c.ring[i].Some?
    ensures Sound(SendAt(c, i)) && SndStep(SndOf(c), SndOf(SendAt(c, i)), NoAck)
    ensures c.ring[i].value.seqNr == U16(c.Base() + i)
  {
    var s, p, d := SndOf(c), c.ring[i].value, SendAt(c, i);
    var t := s.(win := s.win[i := Some(Transmitted(p))]);
    assert SlotOk(s, i);
    assert d.ring[..d.wnd] == t.win;
    SlotUpdateStep(s, i, Transmitted(p), NoAck);
    InFlightUpdate(s.win, i, Some(Transmitted(p)));
    LogKept(s, c.rcv, t, c.rcv, NoAck, c.sent);
    LogAppend(t, c.rcv, c.sent, d.sent[|c.sent|]);
  }

  /** What a slot may become while the window is being flushed. */
  predicate Resent(o: Option<OutPkt>, p: Option<OutPkt>) {
    p == o || (o.Some? && !Travelling(o) && p == Some(Transmitted(o.value)))
  }

  /** Only transmissions happened between c and d, each of a packet that was waiting for one. */
  ghost predicate Flushed(c: Conn, d: Conn)
    requires c.wnd <= |c.ring|
    ensures Flushed(c, d) ==> d.wnd == c.wnd <= |d.ring| && d.hist == c.hist && d.rcv == c.rcv && d.isn == c.isn
    ensures Flushed(c, d) ==> c.sent <= d.sent && d.state == c.state && d.finSent == c.finSent
  {
    (
      && d == c.(curWindow := d.curWindow, ring := d.ring, sent := d.sent)
      && c.sent <= d.sent
      && |d.ring| == |c.ring|
      && (forall k :: 0 <= k < |c.ring| ==> Resent(c.ring[k], d.ring[k]))
    ) == true
  }

  /** Nothing waits in slot k, except possibly the newest packet held back because it is small. */
  predicate Settled(d: Conn, k: int, packetSize: nat)
    requires 0 <= k < |d.ring|
  {
    d.ring[k].Some? ==> Travelling(d.ring[k]) || (k == d.wnd - 1 && k > 0 && |d.ring[k].value.payload| < packetSize)
  }

  /** Slot k holds a packet that is not in flight. */
  predicate Waits(c: Conn, k: int)
    requires 0 <= k < |c.ring|
  {
    c.ring[k].Some? && !Travelling(c.ring[k])
  }

  /** It waits to be sent, and is not the newest packet held back because it is small. */
  predicate Due(c: Conn, k: int, packetSize: nat)
    requires 0 <= k < |c.ring|
  {
    && Waits(c, k)
    && (k != c.wnd - 1 || c.wnd == 1 || |c.ring[k].value.payload| >= packetSize)
  }

  /** The datagrams of the first n slots that are due, oldest first. */
  ghost function FlushLog(c: Conn, n: nat, packetSize: nat): seq<Dgram>
    requires n <= |c.ring|
  {
    if n == 0 then [] else
      var log := FlushLog(c, n - 1, packetSize);
      if Due(c, n - 1, packetSize) then
        var p := c.ring[n - 1].value;
        log + [Dgram(p.kind, c.Base() + n - 1, c.rcv.ack, None, p.payload)]
      else log
  }

  /** The bytes in flight once the first n slots have been gone through. */
  ghost function WindowAfter(c: Conn, n: nat, packetSize: nat): nat
    requires n <= |c.ring|
  {
    if n == 0 then c.curWindow else
      WindowAfter(c, n - 1, packetSize) + if Due(c, n - 1, packetSize) then |c.ring[n - 1].value.payload| else 0
  }

  /** Of the first n slots exactly those that are due were sent, in order, and nothing else was. */
  ghost predicate FlushedTo(c: Conn, d: Conn, n: nat, packetSize: nat)
    ensures FlushedTo(c, d, n, packetSize) ==> n <= |c.ring| == |d.ring| && n <= c.wnd == d.wnd
    ensures FlushedTo(c, d, n, packetSize) ==> d.curWindow == WindowAfter(c, n, packetSize)
    ensures FlushedTo(c, d, n, packetSize) ==> d.sent == c.sent + FlushLog(c, n, packetSize)
  {
    (
      && n <= c.wnd <= |c.ring| == |d.ring| && d == c.(curWindow := d.curWindow, ring := d.ring, sent := d.sent)
      && d.sent == c.sent + FlushLog(c, n, packetSize) && d.curWindow == WindowAfter(c, n, packetSize)
      && (forall k :: 0 <= k < |c.ring| ==>
            d.ring[k] == if k < n && Due(c, k, packetSize) then Some(Transmitted(c.ring[k].value)) else c.ring[k])
    ) == true
  }

  /** What flushing did to slot k: a packet that waited for a transmission went out once more, unless it is
      the newest one, small, with others in flight before it. Nothing else changed in the ring. */
  lemma FlushedSlot(c: Conn, d: Conn, n: nat, packetSize: nat, k: nat)
    requires FlushedTo(c, d, n, packetSize) && k < c.wnd
    ensures c.ring[k] == None || k >= n ==> d.ring[k] == c.ring[k]
    ensures c.ring[k].Some? ==>
      var p := c.ring[k].value;
      && (p.transmissions > 0 && !p.needResend ==> d.ring[k] == Some(p))
      && (k > 0 && k == c.wnd - 1 && |p.payload| < packetSize ==> d.ring[k] == Some(p))
      && (k < n && (p.transmissions == 0 || p.needResend) && (k == 0 || k < c.wnd - 1 || |p.payload| >= packetSize) ==>
            d.ring[k] == Some(OutPkt(p.kind, p.seqNr, p.payload, p.transmissions + 1, false)))
  {
  }

  /** And what it sent: exactly those packets, each once and in order. */
  lemma {:induction false} FlushLogHas(c: Conn, n: nat, packetSize: nat)
    requires n <= c.wnd <= |c.ring|
    ensures forall x :: x in FlushLog(c, n, packetSize) <==>
      exists k :: 0 <= k < n && c.ring[k].Some? && x == DgramAt(c, k)
                  && (c.ring[k].value.transmissions == 0 || c.ring[k].value.needResend)
                  && (k == 0 || k < c.wnd - 1 || |c.ring[k].value.payload| >= packetSize)
    ensures forall i, j :: 0 <= i < j < |FlushLog(c, n, packetSize)| ==>
      FlushLog(c, n, packetSize)[i].seqNo < FlushLog(c, n, packetSize)[j].seqNo
    ensures forall x :: x in FlushLog(c, n, packetSize) ==> x.seqNo < c.Base() + n
  {
    if n > 0 {
      FlushLogHas(c, n - 1, packetSize);
    }
  }

  /** The packet in slot k as a datagram. */
  ghost function DgramAt(c: Conn, k: int): Dgram
    requires 0 <= k < |c.ring| && c.ring[k].Some?
  {
    Dgram(c.ring[k].value.kind, c.Base() + k, c.rcv.ack, None, c.ring[k].value.payload)
  }

  /** The flushing loop, n slots into the window. */
  ghost predicate FlushingAt(c: Conn, d: Conn, n: nat, packetSize: nat)
    ensures FlushingAt(c, d, n, packetSize) ==> Sound(c) && Sound(d) && n <= d.wnd == c.wnd && d.Base() == c.Base()
    ensures FlushingAt(c, d, n, packetSize) ==> FlushedTo(c, d, n, packetSize)
  {
    (
      && Sound(c) && Sound(d) && SndStep(SndOf(c), SndOf(d), NoAck)
      && FlushedTo(c, d, n, packetSize)
    ) == true
  }

  lemma FlushStart(c: Conn, packetSize: nat)
    requires Sound(c)
    ensures FlushingAt(c, c, 0, packetSize)
  {
    hide Sound, SndStep;
    SndStepRefl(SndOf(c), NoAck);
    assert c.sent == c.sent + [];
  }

  lemma FlushLook(c: Conn, d: Conn, n: nat, packetSize: nat)
    requires FlushedTo(c, d, n, packetSize) && n < c.wnd
    ensures d.ring[n] == c.ring[n] && d.wnd == c.wnd
  {
  }

  /** No waiting packet is larger than a packet may be now. */
  ghost predicate SmallWaiting(c: Conn, packetSize: nat)
    requires c.wnd <= |c.ring|
  {
    forall k :: 0 <= k < c.wnd && Waits(c, k) ==> |c.ring[k].value.payload| <= packetSize
  }

  /** If each slot that was sent found room for a whole packet under the quota, the quota is kept. */
  lemma {:induction false} QuotaKept(c: Conn, n: nat, packetSize: nat, quota: nat)
    requires n <= c.wnd <= |c.ring| && SmallWaiting(c, packetSize)
    requires forall k :: 0 <= k < n && Waits(c, k) ==> WindowAfter(c, k, packetSize) + packetSize <= quota
    ensures WindowAfter(c, n, packetSize) <= Max(c.curWindow, quota)
  {
    if n > 0 {
      QuotaKept(c, n - 1, packetSize, quota);
    }
  }

  lemma FlushSkip(c: Conn, d: Conn, n: nat, packetSize: nat)
    requires FlushingAt(c, d, n, packetSize) && n < c.wnd && !Due(c, n, packetSize)
    ensures FlushingAt(c, d, n + 1, packetSize)
  {
    hide Sound, SndStep;
  }

  lemma FlushSend(c: Conn, d: Conn, n: nat, packetSize: nat)
    requires FlushingAt(c, d, n, packetSize) && n < c.wnd && Due(c, n, packetSize) && d.ring[n].Some?
    ensures FlushingAt(c, SendAt(d, n), n + 1, packetSize)
  {
    hide Sound, SndStep;
    FlushLook(c, d, n, packetSize);
    var e := SendAt(d, n);
    SendAtSound(d, n);
    SndStepTransitive(SndOf(c), SndOf(d), SndOf(e), NoAck);
    assert e.sent == c.sent + (FlushLog(c, n, packetSize) + [e.sent[|d.sent|]]);
  }

  lemma FlushEnd(c: Conn, d: Conn, n: nat, packetSize: nat)
    requires FlushingAt(c, d, n, packetSize)
    ensures Sound(d) && Flushed(c, d) && SndStep(SndOf(c), SndOf(d), NoAck)
    ensures forall k :: 0 <= k < n ==> Settled(d, k, packetSize)
  {
    hide Sound, SndStep;
  }

  /** Flushing keeps the whole invariant. */
  lemma FlushedInv(c: Conn, d: Conn)
    requires ConnInv(c) && Sound(d) && Flushed(c, d)
    ensures ConnInv(d)
  {
    assert c.wnd > 0 ==> Resent(c.ring[0], d.ring[0]);
  }

  // ---------- losing, releasing, sliding ----------

  /** A packet in flight is considered lost: it no longer counts. */
  function LostAt(c: Conn, i: nat): Conn
    requires i < c.wnd <= |c.ring| && Travelling(c.ring[i]) && |c.ring[i].value.payload| <= c.curWindow
  {
    var p := c.ring[i].value;
    c.(curWindow := c.curWindow - |p.payload|, ring := c.ring[i := Some(p.(needResend := true))])
  }

  /** No subtraction from `curWindow` can go below zero. */
  lemma NoUnderflow(c: Conn, i: nat)
    requires Linked(c) && i < c.wnd && Travelling(c.ring[i])
    ensures |c.ring[i].value.payload| <= c.curWindow
  {
    InFlightUpdate(c.ring[..c.wnd], i, None);
  }

  lemma LostAtSound(c: Conn, i: nat)
    requires Sound(c) && i < c.wnd && Travelling(c.ring[i])
    ensures |c.ring[i].value.payload| <= c.curWindow
    ensures Sound(LostAt(c, i)) && SndStep(SndOf(c), SndOf(LostAt(c, i)), NoAck)
  {
    NoUnderflow(c, i);
    var s, p, d := SndOf(c), c.ring[i].value, LostAt(c, i);
    var q := p.(needResend := true);
    var t := s.(win := s.win[i := Some(q)]);
    assert SlotOk(s, i);
    assert d.ring[..d.wnd] == t.win;
    SlotUpdateStep(s, i, q, NoAck);
    InFlightUpdate(s.win, i, Some(q));
    LogKept(s, c.rcv, t, c.rcv, NoAck, c.sent);
  }

  /** `ack_packet` on a packet that has been transmitted. */
  function FreeAt(c: Conn, i: nat): Conn
    requires i < c.wnd <= |c.ring| && c.ring[i].Some?
    requires !c.ring[i].value.needResend ==> |c.ring[i].value.payload| <= c.curWindow
  {
    var p := c.ring[i].value;
    c.(curWindow := if p.needResend then c.curWindow else c.curWindow - |p.payload|, ring := c.ring[i := None])
  }

  lemma FreeAtSound(c: Conn, i: nat, a: AckInfo)
    requires Sound(c) && i < c.wnd && c.ring[i].Some? && c.ring[i].value.transmissions > 0
    requires Covers(a, c.Base() + i)
    ensures !c.ring[i].value.needResend ==> |c.ring[i].value.payload| <= c.curWindow
    ensures Sound(FreeAt(c, i)) && SndStep(SndOf(c), SndOf(FreeAt(c, i)), a)
  {
    var s := SndOf(c);
    InFlightUpdate(s.win, i, None);
    var t, d := s.(win := s.win[i := None]), FreeAt(c, i);
    assert d.ring[..d.wnd] == t.win;
    SlotFreeStep(s, i, a);
    LogKept(s, c.rcv, t, c.rcv, a, c.sent);
  }

  /** `cur_window_packets--` once the oldest slot is empty. */
  function Popped(c: Conn): Conn
    requires 0 < c.wnd <= |c.ring|
  {
    c.(wnd := c.wnd - 1, ring := c.ring[1..] + [c.ring[0]])
  }

  lemma PoppedSound(c: Conn, a: AckInfo)
    requires Sound(c) && 0 < c.wnd && c.ring[0] == None
    ensures Sound(Popped(c)) && SndStep(SndOf(c), SndOf(Popped(c)), a)
  {
    var s, d := SndOf(c), Popped(c);
    var t := s.(win := s.win[1..]);
    assert d.ring[..d.wnd] == t.win;
    DropFrontStep(s, a);
    InFlightDropFirst(s.win);
    LogKept(s, c.rcv, t, c.rcv, a, c.sent);
  }

  // ---------- queueing ----------

  /** A fresh packet behind the window. */
  function Appended(c: Conn, p: OutPkt): Conn
    requires c.wnd <= |c.ring| && c.ring != []
  {
    c.(wnd := c.wnd + 1, seqNr := U16(c.seqNr + 1), hist := c.hist + [Rec(p.kind, p.payload)],
       ring := Padded(c.ring, c.wnd)[c.wnd := Some(p)])
  }

  lemma AppendedRing(c: Conn, p: OutPkt)
    requires RingSize(|c.ring|) && c.wnd <= |c.ring| && c.wnd < 1024 && TailEmpty(c)
    ensures var d := Appended(c, p);
      RingSize(|d.ring|) && d.wnd <= |d.ring| && TailEmpty(d) && d.ring[..d.wnd] == c.ring[..c.wnd] + [Some(p)]
  {
  }

  lemma AppendedSound(c: Conn, p: OutPkt)
    requires
      && Sound(c) && c.wnd < (if c.finSent then 1024 else 1023) && !Dialling(c) && p.seqNr == c.seqNr
      && (p.kind == Data || p.kind == Fin)
    requires p.transmissions == 0 && !p.needResend
    requires !LastIs(c.hist, Fin)
    ensures Sound(Appended(c, p)) && SndStep(SndOf(c), SndOf(Appended(c, p)), NoAck)
    ensures Bytes(Appended(c, p).hist) == Bytes(c.hist) + p.payload
  {
    hide Sound, Linked, FieldsOk, FlagsOk, SndStep, SndInv, LogOk, Bytes, TailEmpty, RingSize, Padded, U16, Dialling;
    SoundParts(c);
    var s, d := SndOf(c), Appended(c, p);
    AppendedRing(c, p);
    AppendedFields(c, p);
    AppendStep(s, p, NoAck);
    LogKept(s, c.rcv, SndOf(d), c.rcv, NoAck, c.sent);
    BytesAppend(c.hist, Rec(p.kind, p.payload));
    SoundJoined(d);
  }

  lemma AppendedFields(c: Conn, p: OutPkt)
    requires RingSize(|c.ring|) && c.wnd <= |c.ring| && c.wnd < 1024 && TailEmpty(c) && FieldsOk(c) && FlagsOk(c)
    requires c.wnd < (if c.finSent then 1024 else 1023) && !Dialling(c) && p.transmissions == 0
    ensures var d := Appended(c, p); d.wnd <= |d.ring| && FieldsOk(d) && FlagsOk(d)
  {
    hide RingSize, Padded, U16, InFlight, TailEmpty;
    AppendedRing(c, p);
    U16Add(c.Next(), 1);
    InFlightAppend(c.ring[..c.wnd], Some(p));
  }

  /** More bytes for the last packet, which has not been transmitted yet. */
  function Extended(c: Conn, more: seq<byte>): Conn
    requires 0 < c.wnd <= |c.ring| && c.wnd <= |c.hist| && c.ring[c.wnd - 1].Some?
  {
    var p := c.ring[c.wnd - 1].value;
    c.(hist := c.hist[|c.hist| - 1 := Rec(Data, p.payload + more)],
       ring := c.ring[c.wnd - 1 := Some(p.(kind := Data, payload := p.payload + more))])
  }

  lemma ExtendedSound(c: Conn, more: seq<byte>)
    requires Sound(c) && !Dialling(c) && 0 < c.wnd && Open(SndOf(c))
    ensures Sound(Extended(c, more)) && SndStep(SndOf(c), SndOf(Extended(c, more)), NoAck)
    ensures Bytes(Extended(c, more).hist) == Bytes(c.hist) + more
  {
    hide Sound, Linked, FieldsOk, FlagsOk, SndStep, LogOk, Bytes, TailEmpty, RingSize, U16, Dialling, InFlight;
    SoundParts(c);
    var s, d := SndOf(c), Extended(c, more);
    var n := c.wnd - 1;
    assert SlotOk(s, n);
    ExtendedFields(c, more);
    var p := s.win[n].value.(kind := Data, payload := s.win[n].value.payload + more);
    var t := s.(hist := s.hist[|s.hist| - 1 := Rec(p.kind, p.payload)], win := s.win[n := Some(p)]);
    assert d.ring[..d.wnd] == t.win;
    ExtendStep(s, p, NoAck);
    LogKept(s, c.rcv, t, c.rcv, NoAck, c.sent);
    BytesReplaceLast(c.hist, Rec(p.kind, p.payload));
    BytesReplaceLast(c.hist, c.hist[|c.hist| - 1]);
    assert c.hist[|c.hist| - 1 := c.hist[|c.hist| - 1]] == c.hist;
    SoundJoined(d);
  }

  lemma ExtendedFields(c: Conn, more: seq<byte>)
    requires
      && 0 < c.wnd <= |c.ring| && c.wnd <= |c.hist| && TailEmpty(c) && FieldsOk(c) && FlagsOk(c) && Open(SndOf(c))
      && !Dialling(c)
    requires SndInv(SndOf(c))
    ensures var d := Extended(c, more); TailEmpty(d) && FieldsOk(d) && FlagsOk(d)
  {
    hide InFlight, U16;
    var w, n := c.ring[..c.wnd], c.wnd - 1;
    assert SlotOk(SndOf(c), n);
    InFlightUpdate(w, n, Extended(c, more).ring[n]);
    assert Extended(c, more).ring[..c.wnd] == w[n := Extended(c, more).ring[n]];
  }

  // ---------- cumulative acknowledgement ----------

  /** m packets were taken off the front of the window and nothing else changed. */
  ghost predicate SlidBy(c: Conn, d: Conn, m: nat) {
    && c.wnd <= |c.ring| && m <= c.wnd
    && d == c.(wnd := c.wnd - m, curWindow := d.curWindow, ring := d.ring)
    && |d.ring| == |c.ring|
    && (forall k :: 0 <= k < c.wnd - m ==> d.ring[k] == c.ring[k + m])
  }

  /** The acknowledging loop after m rounds: only transmitted packets were released. */
  ghost predicate AckingAt(c: Conn, d: Conn, m: nat, acks: nat, a: AckInfo)
    ensures AckingAt(c, d, m, acks, a) ==>
      Sound(c) && Sound(d) && m <= c.wnd && d.wnd == c.wnd - m && d.Base() == c.Base() + m
  {
    (
      && Sound(c) && Sound(d) && SlidBy(c, d, m) && SndStep(SndOf(c), SndOf(d), a)
      && (forall j :: 0 <= j < m ==> c.ring[j].Some? ==> j < acks && c.ring[j].value.transmissions > 0)
    ) == true
  }

  lemma AckingStart(c: Conn, acks: nat, a: AckInfo)
    requires Sound(c)
    ensures AckingAt(c, c, 0, acks, a)
  {
    SndStepRefl(SndOf(c), a);
  }

  lemma AckingPop(c: Conn, d: Conn, m: nat, acks: nat, a: AckInfo)
    requires AckingAt(c, d, m, acks, a) && d.wnd > 0 && d.ring[0] == None
    ensures AckingAt(c, Popped(d), m + 1, acks, a)
  {
    hide Sound, SndStep;
    PoppedSound(d, a);
    SndStepTransitive(SndOf(c), SndOf(d), SndOf(Popped(d)), a);
    assert c.ring[m] == d.ring[0];
  }

  lemma SlidByFree(c: Conn, d: Conn, m: nat)
    requires SlidBy(c, d, m) && 0 < d.wnd <= |d.ring| && d.ring[0].Some?
    requires !d.ring[0].value.needResend ==> |d.ring[0].value.payload| <= d.curWindow
    ensures SlidBy(c, Popped(FreeAt(d, 0)), m + 1) && d.ring[0] == c.ring[m]
  {
    var e := Popped(FreeAt(d, 0));
    forall k | 0 <= k < c.wnd - (m + 1)
      ensures e.ring[k] == c.ring[k + (m + 1)]
    {
      assert e.ring[k] == d.ring[k + 1];
    }
    assert d.ring[0] == c.ring[0 + m];
  }

  lemma AckingFree(c: Conn, d: Conn, m: nat, acks: nat, a: AckInfo)
    requires AckingAt(c, d, m, acks, a) && d.wnd > 0 && m < acks
    requires d.ring[0].Some? && d.ring[0].value.transmissions > 0 && Covers(a, d.Base())
    ensures !d.ring[0].value.needResend ==> |d.ring[0].value.payload| <= d.curWindow
    ensures Sound(FreeAt(d, 0)) && AckingAt(c, Popped(FreeAt(d, 0)), m + 1, acks, a)
  {
    hide Sound, SndStep, Covers, SlidBy;
    FreeAtSound(d, 0, a);
    SlidByFree(c, d, m);
    var e := FreeAt(d, 0);
    PoppedSound(e, a);
    SndStepTransitive(SndOf(c), SndOf(d), SndOf(e), a);
    SndStepTransitive(SndOf(c), SndOf(e), SndOf(Popped(e)), a);
  }

  /** What an accepted acknowledgement of `acks` packets does to the window: exactly the longest
      transmitted prefix of those packets is released, and then the window slides to its next
      held packet. */
  ghost predicate AckedPrefix(c: Conn, d: Conn, acks: nat) {
    var m := c.wnd - d.wnd;
    && 0 <= m && SlidBy(c, d, m)
    && (forall j :: 0 <= j < m ==> c.ring[j].Some? ==> j < acks && c.ring[j].value.transmissions > 0)
    && (d.wnd > 0 ==> d.ring[0].Some?)
    && (m < acks && d.wnd > 0 ==> d.ring[0].Some? && d.ring[0].value.transmissions == 0)
  }

  lemma AckingEnd(c: Conn, d: Conn, m: nat, acks: nat, a: AckInfo)
    requires AckingAt(c, d, m, acks, a) && (d.wnd > 0 ==> d.ring[0].Some?)
    requires m < acks ==> d.wnd == 0 || d.ring[0].value.transmissions == 0
    ensures AckedPrefix(c, d, acks) && Sound(d) && SndStep(SndOf(c), SndOf(d), a)
    ensures ConnInv(c) ==> ConnInv(d)
  {
  }

  // ---------- selective acknowledgement ----------

  /** A mask of a received packet, placed against the connection: `base` stands for the number
      after next behind the acknowledged one, and the acknowledged one is near the window. */
  predicate MaskMatches(c: Conn, a: AckInfo, base: int, mask: seq<bool>) {
    a.Acked? && a.sack == mask && |mask| <= 2040 && U16(base) == U16(a.ack + 2) && 0 <= c.Next() - 1 - a.ack <= 30000
  }

  /** The mask denotes the transmitted packet in slot k, which is not the oldest. */
  ghost predicate SackHit(c: Conn, a: AckInfo, k: int)
    requires c.wnd <= |c.ring| && a.Acked?
  {
    && 0 < k < c.wnd && c.ring[k].Some? && c.ring[k].value.transmissions > 0
    && 0 <= c.Base() + k - a.ack - 2 < |a.sack| && a.sack[c.Base() + k - a.ack - 2]
  }

  /** The decoding loop with bits above b done: exactly the packets those bits denote are gone. */
  ghost predicate SackingAt(c: Conn, d: Conn, b: int, a: AckInfo)
    ensures SackingAt(c, d, b, a) ==>
      Sound(c) && Sound(d) && d.wnd == c.wnd && d.Base() == c.Base() && |d.ring| == |c.ring|
    ensures SackingAt(c, d, b, a) ==> d.seqNr == c.seqNr && d.hist == c.hist && d.isn == c.isn && a.Acked?
  {
    (
      && a.Acked?
      && Sound(c) && Sound(d) && SndStep(SndOf(c), SndOf(d), a)
      && d == c.(curWindow := d.curWindow, ring := d.ring)
      && |d.ring| == |c.ring|
      && (forall k :: 0 <= k < |c.ring| ==>
            d.ring[k] == if c.Base() + k - a.ack - 2 > b && SackHit(c, a, k) then None else c.ring[k])
    ) == true
  }

  lemma SackingStart(c: Conn, a: AckInfo)
    requires Sound(c) && a.Acked?
    ensures SackingAt(c, c, |a.sack| - 1, a)
  {
    SndStepRefl(SndOf(c), a);
  }

  /** The wrapped distance test of the decoder accepts a bit exactly when its number lies inside the
      window and is not the oldest packet; k is then its slot. */
  lemma MaskDistance(c: Conn, a: AckInfo, base: int, bits: int, v: int) returns (k: nat)
    requires
      && Sound(c) && 0 < c.wnd && a.Acked? && MaskMatches(c, a, base, a.sack) && -1 <= bits < |a.sack|
      && v == base + bits
    ensures U16(c.seqNr - v - 1) < c.wnd - 1 <==> c.Base() < a.ack + 2 + bits < c.Next()
    ensures U16(c.seqNr - v - 1) < c.wnd - 1 ==>
      && 0 < k < c.wnd && c.Base() + k == a.ack + 2 + bits && U16(c.Base() + k) == U16(v)
      && Slot(c.Base() + k, |c.ring|) == Slot(v, |c.ring|)
  {
    hide Sound, U16, Slot, RingSize;
    var n := a.ack + 2 + bits;
    SoundSizes(c);
    U16Plus(base, a.ack + 2, bits);
    WindowTest(c.Next(), n, v, c.wnd);
    k := if c.Base() < n < c.Next() then n - c.Base() else 0;
    SameSlot(n, v, |c.ring|);
  }

  lemma SackingLook(c: Conn, d: Conn, b: int, a: AckInfo, k: nat)
    requires SackingAt(c, d, b, a) && 0 < k < c.wnd && c.Base() + k == a.ack + 2 + b
    ensures d.ring[k] == c.ring[k]
    ensures SackHit(c, a, k) <==> c.ring[k].Some? && c.ring[k].value.transmissions > 0 && 0 <= b < |a.sack| && a.sack[b]
  {
  }

  lemma SackingSkip(c: Conn, d: Conn, b: int, a: AckInfo)
    requires SackingAt(c, d, b, a)
    requires c.Base() < a.ack + 2 + b < c.Next() ==> !SackHit(c, a, a.ack + 2 + b - c.Base())
    ensures SackingAt(c, d, b - 1, a)
  {
  }

  lemma SackingFree(c: Conn, d: Conn, b: int, a: AckInfo, k: nat)
    requires SackingAt(c, d, b, a) && 0 < k < c.wnd && c.Base() + k == a.ack + 2 + b && SackHit(c, a, k)
    ensures Covers(a, d.Base() + k) && d.ring[k].Some? && d.ring[k].value.transmissions > 0
    ensures !d.ring[k].value.needResend ==> |d.ring[k].value.payload| <= d.curWindow
    ensures SackingAt(c, FreeAt(d, k), b - 1, a)
  {
    hide Sound, SndStep;
    FreeAtSound(d, k, a);
    SndStepTransitive(SndOf(c), SndOf(d), SndOf(FreeAt(d, k)), a);
  }

  // ---------- which packets a mask makes worth sending again ----------

  /** The number of a mask position lies in the window, and is not the oldest. */
  predicate InWindow(c: Conn, a: AckInfo, b: int)
    requires a.Acked?
  {
    0 < a.ack + 2 + b - c.Base() < c.wnd
  }

  /** How many packets of the window after position b the mask reports as received. */
  ghost function SetAbove(c: Conn, a: AckInfo, b: int): nat
    requires a.Acked? && b >= -1
    decreases |a.sack| - b
  {
    if b + 1 >= |a.sack| then 0
    else SetAbove(c, a, b + 1) + if a.sack[b + 1] && InWindow(c, a, b + 1) then 1 else 0
  }

  /** Number q has not been sent again lately, as far as 16 bits tell. */
  predicate Resendable(q: int, fastResend: int) {
    U16(q - fastResend) <= OUTGOING_BUFFER_MAX_SIZE
  }

  /** Position b denotes a transmitted packet that is reported missing after three later ones arrived. */
  ghost predicate ToResend(c: Conn, a: AckInfo, fastResend: int, b: int)
    requires c.wnd <= |c.ring| && a.Acked? && b >= -1
  {
    && InWindow(c, a, b) && c.ring[a.ack + 2 + b - c.Base()].Some?
    && c.ring[a.ack + 2 + b - c.Base()].value.transmissions > 0
    && !(0 <= b < |a.sack| && a.sack[b]) && SetAbove(c, a, b) >= DUPLICATE_ACKS_BEFORE_RESEND
    && Resendable(a.ack + 2 + b, fastResend)
  }

  /** The packets to send again from position b on, the oldest last. */
  ghost function Missing(c: Conn, a: AckInfo, fastResend: int, b: int): seq<int>
    requires c.wnd <= |c.ring| && a.Acked? && b >= -1
    decreases |a.sack| - b
  {
    if b >= |a.sack| then []
    else Missing(c, a, fastResend, b + 1) + if ToResend(c, a, fastResend, b) then [a.ack + 2 + b] else []
  }

  /** And the first one that is not acknowledged, if three later ones arrived. */
  ghost function AllMissing(c: Conn, a: AckInfo, fastResend: int): seq<int>
    requires c.wnd <= |c.ring| && a.Acked?
  {
    Missing(c, a, fastResend, -1)
    + if SetAbove(c, a, -1) >= DUPLICATE_ACKS_BEFORE_RESEND && Resendable(a.ack + 1, fastResend)
      then [a.ack + 1]
      else []
  }

  /** A stack holds the top of a sequence of numbers, in 16 bits; it has dropped only what lies deep. */
  ghost predicate OnTop(stack: seq<int>, numbers: seq<int>) {
    && |stack| <= |numbers| && (|stack| == |numbers| || |stack| >= 62)
    && forall i :: 0 <= i < |stack| ==> U16(stack[i]) == U16(numbers[|numbers| - |stack| + i])
  }

  lemma MissingNext(c: Conn, a: AckInfo, fastResend: int, b: int)
    requires c.wnd <= |c.ring| && a.Acked? && -1 <= b < |a.sack|
    ensures InWindow(c, a, b) <==> c.Base() < a.ack + 2 + b < c.Next()
    ensures ToResend(c, a, fastResend, b) ==>
      Missing(c, a, fastResend, b) == Missing(c, a, fastResend, b + 1) + [a.ack + 2 + b]
    ensures !ToResend(c, a, fastResend, b) ==> Missing(c, a, fastResend, b) == Missing(c, a, fastResend, b + 1)
    ensures b >= 0 ==>
      SetAbove(c, a, b - 1) == SetAbove(c, a, b) + if a.sack[b] && InWindow(c, a, b) then 1 else 0
    ensures ToResend(c, a, fastResend, b)
      <==> && InWindow(c, a, b) && c.ring[a.ack + 2 + b - c.Base()].Some?
           && c.ring[a.ack + 2 + b - c.Base()].value.transmissions > 0
           && !(0 <= b && a.sack[b]) && SetAbove(c, a, b) >= DUPLICATE_ACKS_BEFORE_RESEND
           && Resendable(a.ack + 2 + b, fastResend)
  {
  }

  lemma AllMissingIs(c: Conn, a: AckInfo, fastResend: int)
    requires c.wnd <= |c.ring| && a.Acked?
    ensures SetAbove(c, a, -1) >= DUPLICATE_ACKS_BEFORE_RESEND && Resendable(a.ack + 1, fastResend) ==>
      AllMissing(c, a, fastResend) == Missing(c, a, fastResend, -1) + [a.ack + 1]
    ensures !(SetAbove(c, a, -1) >= DUPLICATE_ACKS_BEFORE_RESEND && Resendable(a.ack + 1, fastResend)) ==>
      AllMissing(c, a, fastResend) == Missing(c, a, fastResend, -1)
  {
  }

  /** The mask positions after b that report a packet of the window, other than the oldest, as received. */
  ghost function Reported(c: Conn, a: AckInfo, b: int): set<int>
    requires a.Acked?
  {
    set j: int | b < j < |a.sack| && j >= 0 && a.sack[j] && c.Base() < a.ack + 2 + j < c.Next() :: j
  }

  lemma {:induction false} SetAboveCounts(c: Conn, a: AckInfo, b: int)
    requires a.Acked? && b >= -1
    ensures SetAbove(c, a, b) == |Reported(c, a, b)|
    decreases |a.sack| - b
  {
    if b + 1 >= |a.sack| {
      assert Reported(c, a, b) == {};
    } else {
      SetAboveCounts(c, a, b + 1);
      var later := Reported(c, a, b + 1);
      if a.sack[b + 1] && InWindow(c, a, b + 1) {
        assert Reported(c, a, b) == later + {b + 1};
      } else {
        assert Reported(c, a, b) == later;
      }
    }
  }

  /** Packet q of the window, other than the oldest, was sent and not reported, while three later ones
      were, and is not among those sent again lately. */
  ghost predicate ReportedMissing(c: Conn, a: AckInfo, fastResend: int, q: int)
    requires c.wnd <= |c.ring| && a.Acked?
  {
    && c.Base() < q < c.Next() && c.ring[q - c.Base()].Some? && c.ring[q - c.Base()].value.transmissions > 0
    && !InMask(a, q) && |Reported(c, a, q - a.ack - 2)| >= 3 && U16(q - fastResend) <= 1024
  }

  /** The packets to send again are exactly those, and come newest first. */
  lemma {:induction false} MissingHas(c: Conn, a: AckInfo, fastResend: int, b: int)
    requires c.wnd <= |c.ring| && a.Acked? && b >= -1
    ensures forall q :: q in Missing(c, a, fastResend, b) <==>
      a.ack + 2 + b <= q < a.ack + 2 + |a.sack| && ReportedMissing(c, a, fastResend, q)
    ensures forall i, j :: 0 <= i < j < |Missing(c, a, fastResend, b)| ==>
      Missing(c, a, fastResend, b)[i] > Missing(c, a, fastResend, b)[j]
    decreases |a.sack| - b
  {
    hide U16;
    if b < |a.sack| {
      MissingHas(c, a, fastResend, b + 1);
      SetAboveCounts(c, a, b);
      assert a.ack + 2 + b - a.ack - 2 == b;
      var later := Missing(c, a, fastResend, b + 1);
      assert forall i :: 0 <= i < |later| ==> later[i] in later;
      assert ToResend(c, a, fastResend, b) <==> ReportedMissing(c, a, fastResend, a.ack + 2 + b);
    }
  }

  /** The oldest of them all is the packet after the acknowledged one, if three later ones arrived. */
  lemma AllMissingHas(c: Conn, a: AckInfo, fastResend: int, q: int)
    requires c.wnd <= |c.ring| && a.Acked?
    ensures q in AllMissing(c, a, fastResend)
      <==> || (a.ack + 1 <= q < a.ack + 2 + |a.sack| && ReportedMissing(c, a, fastResend, q))
           || (q == a.ack + 1 && |Reported(c, a, -1)| >= 3 && U16(q - fastResend) <= 1024)
    ensures |Reported(c, a, -1)| >= 3 && U16(a.ack + 1 - fastResend) <= 1024 ==>
      AllMissing(c, a, fastResend) != [] && FromTop(AllMissing(c, a, fastResend), 0) == a.ack + 1
  {
    hide U16;
    MissingHas(c, a, fastResend, -1);
    SetAboveCounts(c, a, -1);
  }

  lemma NothingMissing(c: Conn, a: AckInfo, fastResend: int, stack: seq<int>)
    requires c.wnd <= |c.ring| && a.Acked? && stack == []
    ensures SetAbove(c, a, Max(|a.sack| - 1, -1)) == 0 && OnTop(stack, Missing(c, a, fastResend, |a.sack|))
  {
  }

  /** The oldest packet's slot is not that of another packet of the window. */
  lemma OldestApart(c: Conn, k: nat, v: int)
    requires Sound(c) && 0 < k < c.wnd && U16(c.Base() + k) == U16(v)
    ensures Slot(v, |c.ring|) != Slot(c.seqNr - c.wnd, |c.ring|)
  {
    hide Sound, Slot, U16, RingSize;
    SoundSizes(c);
    U16Add(c.Next(), -(c.wnd as int));
    SameSlot(c.Base() + k, v, |c.ring|);
    SameSlot(c.Base(), c.seqNr - c.wnd, |c.ring|);
    SlotInjective(c.Base() + k, c.Base(), |c.ring|);
  }

  lemma OnTopPush(stack: seq<int>, numbers: seq<int>, v: int, q: int)
    requires OnTop(stack, numbers) && U16(v) == U16(q)
    ensures OnTop(stack + [v], numbers + [q])
  {
  }

  lemma OnTopDrop(stack: seq<int>, numbers: seq<int>, n: nat)
    requires OnTop(stack, numbers) && n + 62 <= |stack|
    ensures OnTop(stack[n..], numbers)
  {
  }

  /** The datagrams of the packets on top of a stack, as far as their slots hold one, four at most. */
  ghost function TopLog(c: Conn, stack: seq<int>, budget: nat): seq<Dgram>
    requires c.ring != []
  {
    if stack == [] || budget == 0 then [] else
      var n := |stack| - 1;
      var k := Slot(stack[n] - c.Base(), |c.ring|);
      if c.ring[k].None? then TopLog(c, stack[..n], budget)
      else
        var p := c.ring[k].value;
        [Dgram(p.kind, c.Base() + k, c.rcv.ack, None, p.payload)] + TopLog(c, stack[..n], budget - 1)
  }

  /** The same packet, possibly transmitted again. */
  predicate Kept(o: Option<OutPkt>, p: Option<OutPkt>) {
    p == o || (o.Some? && p.Some? && p.value.transmissions > o.value.transmissions
      && p.value == o.value.(transmissions := p.value.transmissions, needResend := false))
  }

  /** Between c and d packets of the window were transmitted n times, and nothing else happened. */
  ghost predicate Retransmitted(c: Conn, d: Conn, n: nat)
    ensures Retransmitted(c, d, n) ==>
      Sound(c) && Sound(d) && d.wnd == c.wnd && |d.ring| == |c.ring| && d.Base() == c.Base()
    ensures Retransmitted(c, d, n) ==>
      d.rcv == c.rcv && d.isn == c.isn && d.hist == c.hist && c.sent <= d.sent && d.state == c.state
  {
    (
      && Sound(c) && Sound(d) && SndStep(SndOf(c), SndOf(d), NoAck)
      && d == c.(curWindow := d.curWindow, ring := d.ring, sent := d.sent)
      && c.sent <= d.sent && |d.sent| == |c.sent| + n
      && |d.ring| == |c.ring|
      && (forall k :: 0 <= k < |c.ring| ==> Kept(c.ring[k], d.ring[k]))
    ) == true
  }

  /** The packet that the slot of a number holds, as a datagram; none if it holds none. */
  function SlotLog(c: Conn, v: int): seq<Dgram>
    requires c.ring != []
  {
    var k := Slot(v - c.Base(), |c.ring|);
    if c.ring[k].None? then []
    else [Dgram(c.ring[k].value.kind, c.Base() + k, c.rcv.ack, None, c.ring[k].value.payload)]
  }

  /** One entry off the stack: its packet, if there is one, is sent as it was before the first of them. */
  lemma TopLogStep(c: Conn, d: Conn, n: nat, stack: seq<int>, v: int, budget: nat, log: seq<Dgram>)
    requires Retransmitted(c, d, n) && budget > 0 && c.ring != []
    ensures d.ring != [] && |SlotLog(d, v)| <= 1
    ensures log + TopLog(c, stack + [v], budget)
      == (log + SlotLog(d, v)) + TopLog(c, stack, budget - |SlotLog(d, v)|)
  {
    hide Sound, SndStep, Slot;
    var k := Slot(v - c.Base(), |c.ring|);
    assert Kept(c.ring[k], d.ring[k]);
    assert (stack + [v])[..|stack|] == stack;
  }

  /** The ring holds packet q. */
  ghost predicate HeldAt(c: Conn, q: int) {
    0 <= q - c.Base() < |c.ring| && c.ring[q - c.Base()].Some?
  }

  lemma SlotOfHeld(c: Conn, v: int, q: int)
    requires RingSize(|c.ring|) && U16(v) == U16(q) && HeldAt(c, q)
    ensures Slot(v - c.Base(), |c.ring|) == q - c.Base()
  {
    hide U16, Slot, RingSize;
    SameSlotPlus(v, q, -c.Base(), |c.ring|);
    RingSizes(|c.ring|);
    SlotIsMod(q - c.Base(), |c.ring|);
  }

  ghost function HeldDgram(c: Conn, q: int): Dgram
    requires HeldAt(c, q)
  {
    DgramAt(c, q - c.Base())
  }

  /** The entry i places from the top. */
  ghost function FromTop(s: seq<int>, i: nat): int
    requires i < |s|
  {
    s[|s| - 1 - i]
  }

  lemma FromTopNext(s: seq<int>, i: nat)
    requires i + 1 < |s|
    ensures FromTop(s[..|s| - 1], i) == FromTop(s, i + 1)
  {
  }

  /** What a stack has on top goes out first: the last m numbers, if the ring holds their packets. */
  lemma {:induction false} TopLogHas(c: Conn, stack: seq<int>, numbers: seq<int>, m: nat, budget: nat)
    requires RingSize(|c.ring|) && m <= |stack| && m <= |numbers| && m <= budget
    requires forall i: nat :: i < m ==>
      U16(FromTop(stack, i)) == U16(FromTop(numbers, i)) && HeldAt(c, FromTop(numbers, i))
    ensures |TopLog(c, stack, budget)| >= m
    ensures forall i: nat :: i < m ==> TopLog(c, stack, budget)[i] == HeldDgram(c, FromTop(numbers, i))
  {
    hide U16, Slot, RingSize, FromTop, HeldAt, HeldDgram, DgramAt;
    if m > 0 {
      var s, n := stack[..|stack| - 1], numbers[..|numbers| - 1];
      TopLogFirst(c, stack, numbers, budget);
      forall i: nat | i < m - 1
        ensures U16(FromTop(s, i)) == U16(FromTop(n, i)) && HeldAt(c, FromTop(n, i))
      {
        FromTopNext(stack, i);
        FromTopNext(numbers, i);
      }
      TopLogHas(c, s, n, m - 1, budget - 1);
      forall i: nat | i < m
        ensures TopLog(c, stack, budget)[i] == HeldDgram(c, FromTop(numbers, i))
      {
        if i > 0 {
          FromTopNext(numbers, i - 1);
        }
      }
    }
  }

  lemma TopLogFirst(c: Conn, stack: seq<int>, numbers: seq<int>, budget: nat)
    requires RingSize(|c.ring|) && stack != [] && numbers != [] && budget > 0 && HeldAt(c, FromTop(numbers, 0))
    requires U16(FromTop(stack, 0)) == U16(FromTop(numbers, 0))
    ensures TopLog(c, stack, budget)
      == [HeldDgram(c, FromTop(numbers, 0))] + TopLog(c, stack[..|stack| - 1], budget - 1)
  {
    hide U16, Slot, RingSize;
    SlotOfHeld(c, FromTop(stack, 0), FromTop(numbers, 0));
  }

  /** The oldest missing packets are the ones sent again, the oldest first: up to four of them. */
  lemma MissingSent(c: Conn, stack: seq<int>, numbers: seq<int>, m: nat)
    requires RingSize(|c.ring|) && OnTop(stack, numbers) && m <= |numbers| && m <= 4
    requires forall i: nat :: i < m ==> HeldAt(c, FromTop(numbers, i))
    ensures |TopLog(c, stack, 4)| >= m
    ensures forall i: nat :: i < m ==> TopLog(c, stack, 4)[i] == HeldDgram(c, FromTop(numbers, i))
  {
    hide U16, RingSize, TopLog, HeldAt;
    forall i: nat | i < m
      ensures U16(FromTop(stack, i)) == U16(FromTop(numbers, i))
    {
      assert numbers[|numbers| - |stack| + (|stack| - 1 - i)] == numbers[|numbers| - 1 - i];
    }
    TopLogHas(c, stack, numbers, m, 4);
  }

  /** Between d and e a mask was applied: what it makes worth sending again was sent, four packets at most. */
  ghost predicate MaskResent(d: Conn, e: Conn, a: AckInfo, fastResend: int) {
    (
      && a.Acked? && d.wnd <= |d.ring|
      && (if d.wnd == 0 then e.sent == d.sent
          else exists m, stack ::
                 && SackingAt(d, m, -2, a) && m.ring != [] && OnTop(stack, AllMissing(d, a, fastResend))
                 && e.sent == d.sent + TopLog(m, stack, 4))
    ) == true
  }

  lemma MaskResentBy(d: Conn, m: Conn, e: Conn, a: AckInfo, fastResend: int, stack: seq<int>)
    requires a.Acked? && d.wnd <= |d.ring|
    requires d.wnd > 0 ==> SackingAt(d, m, -2, a) && m.ring != [] && e.sent == d.sent + TopLog(m, stack, 4)
    requires d.wnd > 0 ==> OnTop(stack, AllMissing(d, a, fastResend))
    requires d.wnd == 0 ==> e.sent == d.sent
    ensures MaskResent(d, e, a, fastResend)
  {
    hide SackingAt, OnTop, TopLog, AllMissing;
  }

  /** What a mask makes worth sending again is in fact sent, as the first datagrams, the oldest packet first:
      up to four packets, as far as they are still held. */
  lemma MissingAreResent(d: Conn, e: Conn, a: AckInfo, fastResend: int, m: nat)
    requires MaskResent(d, e, a, fastResend) && a.Acked? && 0 < d.wnd <= |d.ring|
    requires m <= |AllMissing(d, a, fastResend)| && m <= 4
    requires forall i: nat :: i < m ==> HeldAt(d, FromTop(AllMissing(d, a, fastResend), i))
    ensures |e.sent| >= |d.sent| + m
    ensures forall i: nat :: i < m ==> e.sent[|d.sent| + i] == HeldDgram(d, FromTop(AllMissing(d, a, fastResend), i))
  {
    hide SackingAt, OnTop, TopLog, AllMissing, HeldAt, U16, FromTop, HeldDgram;
    var c, stack :| SackingAt(d, c, -2, a) && c.ring != [] && OnTop(stack, AllMissing(d, a, fastResend))
      && e.sent == d.sent + TopLog(c, stack, 4);
    forall i: nat | i < m
      ensures HeldAt(c, FromTop(AllMissing(d, a, fastResend), i))
      ensures HeldDgram(c, FromTop(AllMissing(d, a, fastResend), i))
        == HeldDgram(d, FromTop(AllMissing(d, a, fastResend), i))
    {
      FromTopIn(AllMissing(d, a, fastResend), i);
      MissingStays(d, c, a, fastResend, FromTop(AllMissing(d, a, fastResend), i));
    }
    RingOfSound(d, c, a);
    MissingSent(c, stack, AllMissing(d, a, fastResend), m);
  }

  lemma FromTopIn(s: seq<int>, i: nat)
    requires i < |s|
    ensures FromTop(s, i) in s
  {
  }

  lemma RingOfSound(c: Conn, d: Conn, a: AckInfo)
    requires SackingAt(c, d, -2, a)
    ensures RingSize(|d.ring|)
  {
    hide Sound;
    SoundSizes(d);
  }

  lemma MissingStays(c: Conn, d: Conn, a: AckInfo, fastResend: int, q: int)
    requires SackingAt(c, d, -2, a) && q in AllMissing(c, a, fastResend) && HeldAt(c, q)
    ensures HeldAt(d, q) && HeldDgram(d, q) == HeldDgram(c, q)
  {
    hide Sound, SndStep, U16, AllMissing, Reported;
    AllMissingHas(c, a, fastResend, q);
  }

  lemma TopLogNone(c: Conn, stack: seq<int>, budget: nat)
    requires c.ring != [] && (stack == [] || budget == 0)
    ensures TopLog(c, stack, budget) == []
  {
  }

  lemma RetransmittedNone(c: Conn)
    requires Sound(c)
    ensures Retransmitted(c, c, 0)
  {
    SndStepRefl(SndOf(c), NoAck);
  }

  lemma RetransmitAt(c: Conn, d: Conn, n: nat, k: nat)
    requires Retransmitted(c, d, n) && k < d.wnd && d.ring[k].Some?
    ensures Retransmitted(c, SendAt(d, k), n + 1)
  {
    var e := SendAt(d, k);
    SendAtSound(d, k);
    SndStepTransitive(SndOf(c), SndOf(d), SndOf(e), NoAck);
    assert Kept(c.ring[k], d.ring[k]);
    forall j | 0 <= j < |c.ring|
      ensures Kept(c.ring[j], e.ring[j])
    {
      assert Kept(c.ring[j], d.ring[j]);
    }
  }

  lemma RetransmittedInv(c: Conn, d: Conn, n: nat)
    requires ConnInv(c) && Retransmitted(c, d, n)
    ensures ConnInv(d)
  {
    assert c.wnd > 0 ==> Kept(c.ring[0], d.ring[0]);
  }

  /** A slot beyond the window is empty, so any packet found in the ring is a window packet. */
  lemma FoundInWindow(c: Conn, k: nat)
    requires Sound(c) && k < |c.ring| && c.ring[k].Some?
    ensures k < c.wnd
  {
    SoundSizes(c);
  }

  /** Selective acknowledgement as a whole: exactly the transmitted packets that the mask denotes,
      never the oldest, are gone; at most four of the others were transmitted again. */
  ghost predicate Sacked(c: Conn, d: Conn, a: AckInfo)
    requires c.wnd <= |c.ring| && a.Acked?
  {
    && d == c.(curWindow := d.curWindow, ring := d.ring, sent := d.sent)
    && c.sent <= d.sent && |d.sent| <= |c.sent| + 4
    && |d.ring| == |c.ring|
    && (forall k :: 0 <= k < |c.ring| ==> if SackHit(c, a, k) then d.ring[k] == None else Kept(c.ring[k], d.ring[k]))
  }

  lemma SackedWhole(c: Conn, d: Conn, e: Conn, a: AckInfo, n: nat)
    requires ConnInv(c) && SackingAt(c, d, -2, a) && Retransmitted(d, e, n) && n <= 4
    ensures Sacked(c, e, a) && ConnInv(e) && SndStep(SndOf(c), SndOf(e), a)
  {
    SndStepWeaken(SndOf(d), SndOf(e), a);
    SndStepTransitive(SndOf(c), SndOf(d), SndOf(e), a);
    forall k | 0 <= k < |c.ring|
      ensures if SackHit(c, a, k) then e.ring[k] == None else Kept(c.ring[k], e.ring[k])
    {
      assert Kept(d.ring[k], e.ring[k]);
    }
  }

  lemma SackedNothing(c: Conn, a: AckInfo)
    requires ConnInv(c) && c.wnd == 0 && a.Acked?
    ensures Sacked(c, c, a) && SndStep(SndOf(c), SndOf(c), a)
  {
  }

  // ---------- sending acknowledgements ----------

  /** An acknowledgement of everything up to `a`, with a mask if one is needed. */
  function AckSent(c: Conn, a: int, mask: Option<seq<bool>>): Conn {
    c.(sent := c.sent + [Dgram(State, c.Next(), a, mask, [])])
  }

  /** Acknowledging a number that was reached, with a truthful mask, keeps the log true. */
  lemma AckSentSound(c: Conn, a: int, mask: Option<seq<bool>>)
    requires Sound(c) && a <= c.rcv.ack && !Dialling(c) && (mask.Some? ==> MaskOf(c.rcv, a, mask.value))
    ensures Sound(AckSent(c, a, mask))
  {
    var d := Dgram(State, c.Next(), a, mask, []);
    if mask.Some? {
      MaskIsTrue(c.rcv, a, mask.value);
    }
    LogAppend(SndOf(c), c.rcv, c.sent, d);
    assert SndOf(AckSent(c, a, mask)) == SndOf(c);
  }

  lemma AckSentInv(c: Conn, a: int, mask: Option<seq<bool>>)
    requires ConnInv(c) && a <= c.rcv.ack && !Dialling(c) && (mask.Some? ==> MaskOf(c.rcv, a, mask.value))
    ensures ConnInv(AckSent(c, a, mask))
  {
    AckSentSound(c, a, mask);
  }

  // ---------- writing ----------

  /** Between c and d the sender queued and possibly transmitted, with one more packet at most; the
      byte stream grew by exactly `bytes`. */
  ghost predicate Wrote(c: Conn, d: Conn, bytes: seq<byte>, kind: Kind)
    ensures Wrote(c, d, bytes, kind) ==> Sound(c) && Sound(d) && c.wnd <= d.wnd <= c.wnd + 1
    ensures Wrote(c, d, bytes, kind) ==> Bytes(d.hist) == Bytes(c.hist) + bytes
    ensures Wrote(c, d, bytes, kind) ==>
      d.rcv == c.rcv && d.isn == c.isn && d.state == c.state && d.finSent == c.finSent
    ensures Wrote(c, d, bytes, kind) ==> d.Base() == c.Base()
  {
    (
      && Sound(c) && Sound(d) && SndStep(SndOf(c), SndOf(d), NoAck)
      && d == c.(wnd := d.wnd, seqNr := d.seqNr, curWindow := d.curWindow, hist := d.hist, ring := d.ring,
                 sent := d.sent)
      && c.sent <= d.sent
      && c.wnd <= d.wnd <= c.wnd + 1 && d.Base() == c.Base()
      && Bytes(d.hist) == Bytes(c.hist) + bytes
      && (d.hist == c.hist || LastIs(d.hist, kind))
      && ((c.wnd > 0 ==> c.ring[0].Some?) ==> (d.wnd > 0 ==> d.ring[0].Some?))
    ) == true
  }

  lemma WroteNothing(c: Conn, kind: Kind)
    requires Sound(c)
    ensures Wrote(c, c, [], kind)
  {
    SndStepRefl(SndOf(c), NoAck);
    assert Bytes(c.hist) + [] == Bytes(c.hist);
  }

  lemma WroteExtend(c: Conn, d: Conn, bytes: seq<byte>, more: seq<byte>)
    requires Wrote(c, d, bytes, Data) && !Dialling(c) && d.wnd > 0 && Open(SndOf(d))
    ensures Wrote(c, Extended(d, more), bytes + more, Data)
  {
    hide Sound, SndStep;
    ExtendedSound(d, more);
    SndStepTransitive(SndOf(c), SndOf(d), SndOf(Extended(d, more)), NoAck);
    assert Bytes(c.hist) + bytes + more == Bytes(c.hist) + (bytes + more);
  }

  lemma WroteAppend(c: Conn, d: Conn, bytes: seq<byte>, p: OutPkt, kind: Kind)
    requires Wrote(c, d, bytes, kind) && !Dialling(c) && d.wnd == c.wnd
    requires d.wnd < (if c.finSent then 1024 else 1023)
    requires
      && p.seqNr == d.seqNr && p.kind == kind && (kind == Data || kind == Fin) && p.transmissions == 0
      && !p.needResend
    requires !LastIs(d.hist, Fin)
    ensures Wrote(c, Appended(d, p), bytes + p.payload, kind)
  {
    hide Sound, SndStep, Bytes, RingSize, GrownSize, U16;
    AppendedSound(d, p);
    SndStepTransitive(SndOf(c), SndOf(d), SndOf(Appended(d, p)), NoAck);
    assert Bytes(c.hist) + bytes + p.payload == Bytes(c.hist) + (bytes + p.payload);
  }

  lemma WroteFlush(c: Conn, d: Conn, e: Conn, bytes: seq<byte>, kind: Kind)
    requires Wrote(c, d, bytes, kind) && Sound(e) && Flushed(d, e) && SndStep(SndOf(d), SndOf(e), NoAck)
    ensures Wrote(c, e, bytes, kind)
  {
    hide Sound, SndStep;
    SndStepTransitive(SndOf(c), SndOf(d), SndOf(e), NoAck);
    assert d.wnd > 0 ==> Resent(d.ring[0], e.ring[0]);
  }

  lemma WroteInv(c: Conn, d: Conn, bytes: seq<byte>)
    requires ConnInv(c) && !c.finSent && Wrote(c, d, bytes, Data)
    ensures ConnInv(d) && SndStep(SndOf(c), SndOf(d), NoAck)
  {
    hide Sound, SndStep;
  }

  /** A whole vectored write: the stream grew by exactly `bytes`; the receiving half is untouched. */
  ghost predicate Written(c: Conn, d: Conn, bytes: seq<byte>)
    ensures Written(c, d, bytes) ==> ConnInv(d) && Bytes(d.hist) == Bytes(c.hist) + bytes && d.rcv == c.rcv
    ensures Written(c, d, bytes) ==>
      d.finSent == c.finSent && d.isn == c.isn && c.sent <= d.sent && d.finSentAcked == c.finSentAcked
    ensures Written(c, d, bytes) ==>
      c.wnd <= |c.ring| && SndStep(SndOf(c), SndOf(d), NoAck) && c.wnd <= d.wnd && d.Base() == c.Base()
  {
    (
      && ConnInv(c) && ConnInv(d) && SndStep(SndOf(c), SndOf(d), NoAck)
      && d == c.(state := d.state, wnd := d.wnd, seqNr := d.seqNr, curWindow := d.curWindow,
                 hist := d.hist, ring := d.ring, sent := d.sent)
      && c.sent <= d.sent && c.wnd <= d.wnd && d.Base() == c.Base() && (Dialling(d) ==> Dialling(c))
      && Bytes(d.hist) == Bytes(c.hist) + bytes
    ) == true
  }

  lemma WrittenNothing(c: Conn)
    requires ConnInv(c)
    ensures Written(c, c, [])
  {
    SndStepRefl(SndOf(c), NoAck);
    assert Bytes(c.hist) + [] == Bytes(c.hist);
  }

  lemma WrittenMore(c: Conn, d: Conn, e: Conn, bytes: seq<byte>, more: seq<byte>)
    requires Written(c, d, bytes) && !c.finSent && Wrote(d, e, more, Data)
    ensures Written(c, e, bytes + more)
  {
    hide Sound, SndStep, ConnInv, Bytes;
    WroteInv(d, e, more);
    SndStepTransitive(SndOf(c), SndOf(d), SndOf(e), NoAck);
    assert Bytes(c.hist) + bytes + more == Bytes(c.hist) + (bytes + more);
  }

  /** Marking the socket writable or not does not touch the stream. */
  lemma WrittenState(c: Conn, d: Conn, bytes: seq<byte>, state: ConnState)
    requires Written(c, d, bytes) && (state == Connected || state == ConnectedFull) && !Dialling(d)
    ensures Written(c, d.(state := state), bytes)
  {
    assert SndOf(d.(state := state)) == SndOf(d);
  }

  lemma ReadyToWrite(c: Conn)
    requires ConnInv(c) && !c.finSent
    ensures !LastIs(c.hist, Fin)
  {
  }

  // ---------- receiving ----------

  /** Between c and d only the receiving half changed, and datagrams may have been sent. */
  ghost predicate OnlyReceived(c: Conn, d: Conn)
    ensures OnlyReceived(c, d) ==>
      d.wnd == c.wnd && d.hist == c.hist && d.isn == c.isn && d.ring == c.ring && c.sent <= d.sent
    ensures OnlyReceived(c, d) ==> d.state == c.state && d.finSent == c.finSent && d.finSentAcked == c.finSentAcked
    ensures OnlyReceived(c, d) ==> d.closeRequested == c.closeRequested
  {
    (d == c.(rcv := d.rcv, ackNr := d.ackNr, eofPkt := d.eofPkt, sent := d.sent) && c.sent <= d.sent) == true
  }

  lemma ReceivedSound(c: Conn, d: Conn)
    requires Sound(c) && !Dialling(c) && OnlyReceived(c, d) && d.sent == c.sent
    requires Keeps(c.rcv, d.rcv) && RingSize(|d.rcv.pend|)
    requires d.ackNr == U16(d.rcv.ack) && (d.rcv.gotFin ==> d.eofPkt == U16(d.rcv.eof))
    ensures Sound(d)
  {
    assert SndOf(d) == SndOf(c);
    SndStepRefl(SndOf(c), NoAck);
    LogKept(SndOf(c), c.rcv, SndOf(c), d.rcv, NoAck, c.sent);
  }

  /** The draining loop: what remains to be drained leads to the same end. */
  ghost predicate DrainingAt(c: Conn, d: Conn, end: Rcv)
    ensures DrainingAt(c, d, end) ==>
      Sound(d) && d.rcv.pend != [] && !Dialling(d) && OnlyReceived(c, d) && DrainInv(d.rcv)
  {
    (
      && ConnInv(c) && Sound(d) && !Dialling(c) && OnlyReceived(c, d)
      && d.rcv.pend != [] && DrainInv(d.rcv) && Drain(d.rcv) == end
    ) == true
  }

  /** The packet at ack + 1 has been posted; the ring may hold the next ones. */
  function InOrderStart(c: Conn, payload: seq<byte>): Conn
    requires c.rcv.pend != []
  {
    c.(rcv := c.rcv.(ack := c.rcv.ack + 1, pend := Turned(c.rcv.pend, c.rcv.pend[0]), posted := Post(c.rcv, payload)),
       ackNr := U16(c.ackNr + 1))
  }

  /** A FIN seen for the first time. */
  function FinNoted(c: Conn, off: int, seqNr: uint16): Conn {
    c.(rcv := c.rcv.(gotFin := true, eof := c.rcv.ack + 1 + off), eofPkt := seqNr)
  }

  lemma InOrderStarts(c: Conn, f: Conn, payload: seq<byte>)
    requires ConnInv(c) && !Dialling(c)
    requires f == c || (!c.rcv.gotFin && f == FinNoted(c, 0, U16(c.rcv.ack + 1)))
    ensures DrainingAt(c, InOrderStart(f, payload), InOrder(f.rcv, payload))
  {
    hide Sound, Keeps, RcvInv, DrainInv, Drain, RingSize, U16, Post;
    var d := InOrderStart(f, payload);
    SoundSizes(c);
    InOrderStartShape(c.rcv, f.rcv, payload);
    U16Add(c.rcv.ack, 1);
    ReceivedSound(c, d);
  }

  lemma DrainEof(c: Conn, d: Conn, end: Rcv)
    requires DrainingAt(c, d, end) && AtEof(d.rcv) != d.rcv
    ensures var e := d.(rcv := d.rcv.(reached := true, eofs := d.rcv.eofs + 1)); Sound(e)
    ensures var e := AckSent(d.(rcv := AtEof(d.rcv)), d.rcv.ack, None); DrainingAt(c, e, end) && AtEof(e.rcv) == e.rcv
  {
    var e := d.(rcv := d.rcv.(reached := true, eofs := d.rcv.eofs + 1));
    ReceivedSound(d, e);
    var f := d.(rcv := AtEof(d.rcv));
    ReceivedSound(d, f);
    AckSentSound(f, d.rcv.ack, None);
  }

  lemma DrainTake(c: Conn, d: Conn, end: Rcv)
    requires DrainingAt(c, d, end) && AtEof(d.rcv) == d.rcv && d.rcv.count > 0 && d.rcv.pend[0].Some?
    ensures DrainingAt(c, d.(rcv := TakeNext(d.rcv), ackNr := U16(d.ackNr + 1)), end)
  {
    TakeNextSound(d.rcv);
    U16Add(d.rcv.ack, 1);
    ReceivedSound(d, d.(rcv := TakeNext(d.rcv), ackNr := U16(d.ackNr + 1)));
  }

  lemma DrainDone(c: Conn, d: Conn, end: Rcv)
    requires DrainingAt(c, d, end) && AtEof(d.rcv) == d.rcv && (d.rcv.count == 0 || d.rcv.pend[0].None?)
    ensures ConnInv(d) && d.rcv == end && OnlyReceived(c, d)
  {
    DrainSound(d.rcv);
  }

  /** A packet that is not the next one: dropped past the FIN, dropped as a duplicate, or kept. */
  function OutOfOrderConn(c: Conn, off: int, payload: seq<byte>): Conn
    requires c.rcv.pend != [] && 0 < off < 1024
  {
    c.(rcv := OutOfOrder(c.rcv, off, payload))
  }

  lemma OutOfOrderInv(c: Conn, f: Conn, off: int, payload: seq<byte>)
    requires ConnInv(c) && !Dialling(c) && 0 < off < 1024
    requires f == c || (!c.rcv.gotFin && f == FinNoted(c, off, U16(c.rcv.ack + 1 + off)))
    ensures Sound(f) && ConnInv(OutOfOrderConn(f, off, payload)) && OnlyReceived(c, OutOfOrderConn(f, off, payload))
  {
    hide Sound, Keeps, OutOfOrder, RingSize, U16;
    OutOfOrderSound(c.rcv, f.rcv, off, payload);
    SoundSizes(c);
    OutOfOrderFields(f.rcv, off, payload);
    if f != c {
      KeepsByCover(c.rcv, f.rcv);
      ReceivedSound(c, f);
    }
    ReceivedSound(c, OutOfOrderConn(f, off, payload));
  }

  /** Comparing the 16-bit FIN number with the 16-bit acknowledgement number is comparing the true ones. */
  lemma EofTest(c: Conn)
    requires Sound(c) && DrainInv(c.rcv)
    ensures !c.rcv.reached && c.rcv.gotFin && c.eofPkt == c.ackNr <==> AtEof(c.rcv) != c.rcv
    ensures AtEof(c.rcv) != c.rcv ==> AtEof(c.rcv) == c.rcv.(reached := true, eofs := c.rcv.eofs + 1, count := 0)
  {
    hide Sound, RingSize, Occupied;
    if !c.rcv.reached && c.rcv.gotFin {
      U16Distinct(c.rcv.eof, c.rcv.ack);
    }
  }

  // ---------- whole operations ----------

  /** What any sequence of sending-side actions amounts to: the invariant is kept, the stream grew by
      exactly `bytes`, and the sending half moved under the guarantee with acknowledgement `a`. */
  ghost predicate Evolved(c: Conn, d: Conn, a: AckInfo, bytes: seq<byte>)
    ensures Evolved(c, d, a, bytes) ==> ConnInv(c) && ConnInv(d) && c.wnd <= |c.ring| && d.wnd <= |d.ring|
    ensures Evolved(c, d, a, bytes) ==> d.rcv == c.rcv && c.sent <= d.sent && d.isn == c.isn && d.finSent == c.finSent
    ensures Evolved(c, d, a, bytes) ==> d.closeRequested == c.closeRequested && Bytes(d.hist) == Bytes(c.hist) + bytes
    ensures Evolved(c, d, a, bytes) ==> |c.hist| <= |d.hist| && d.ackNr == c.ackNr && (Dialling(d) ==> Dialling(c))
  {
    (
      && ConnInv(c) && ConnInv(d) && SndStep(SndOf(c), SndOf(d), a)
      && d == c.(state := d.state, finSentAcked := d.finSentAcked, wnd := d.wnd, seqNr := d.seqNr,
                 curWindow := d.curWindow, hist := d.hist, ring := d.ring, sent := d.sent)
      && c.sent <= d.sent && (Dialling(d) ==> Dialling(c))
      && Bytes(d.hist) == Bytes(c.hist) + bytes
    ) == true
  }

  lemma EvolvedRefl(c: Conn, a: AckInfo)
    requires ConnInv(c)
    ensures Evolved(c, c, a, [])
  {
    SndStepRefl(SndOf(c), a);
    assert Bytes(c.hist) + [] == Bytes(c.hist);
  }

  lemma EvolvedTransitive(c: Conn, d: Conn, e: Conn, a: AckInfo, b1: seq<byte>, b2: seq<byte>)
    requires Evolved(c, d, a, b1) && Evolved(d, e, a, b2)
    ensures Evolved(c, e, a, b1 + b2)
  {
    hide ConnInv, SndStep, Bytes;
    SndStepTransitive(SndOf(c), SndOf(d), SndOf(e), a);
    assert Bytes(c.hist) + b1 + b2 == Bytes(c.hist) + (b1 + b2);
  }

  /** The same, for a second part that adds nothing to the stream. */
  lemma EvolvedThen(c: Conn, d: Conn, e: Conn, a: AckInfo, bytes: seq<byte>)
    requires Evolved(c, d, a, bytes) && Evolved(d, e, a, [])
    ensures Evolved(c, e, a, bytes)
  {
    EvolvedTransitive(c, d, e, a, bytes, []);
    assert bytes + [] == bytes;
  }

  /** Changing the state (never back into the handshake) or noting that the FIN was acknowledged. */
  lemma EvolvedFlags(c: Conn, a: AckInfo, state: ConnState, finSentAcked: bool)
    requires ConnInv(c) && (finSentAcked ==> c.finSent || c.finSentAcked)
    requires state == c.state || !(state == SynSent || state == Uninitialized || state == Idle)
    ensures Evolved(c, c.(state := state, finSentAcked := finSentAcked), a, [])
  {
    var d := c.(state := state, finSentAcked := finSentAcked);
    assert SndOf(d) == SndOf(c);
    SndStepRefl(SndOf(c), a);
    assert Bytes(c.hist) + [] == Bytes(c.hist);
  }

  lemma EvolvedWritten(c: Conn, d: Conn, a: AckInfo, bytes: seq<byte>)
    requires Written(c, d, bytes)
    ensures Evolved(c, d, a, bytes)
  {
    hide ConnInv, SndStep, Bytes;
    SndStepWeaken(SndOf(c), SndOf(d), a);
  }

  lemma EvolvedAcked(c: Conn, d: Conn, acks: nat, a: AckInfo)
    requires ConnInv(c) && ConnInv(d) && AckedPrefix(c, d, acks) && SndStep(SndOf(c), SndOf(d), a)
    ensures Evolved(c, d, a, [])
  {
    hide ConnInv, SndStep, Bytes;
    assert Bytes(c.hist) + [] == Bytes(c.hist);
  }

  lemma EvolvedRetransmitted(c: Conn, d: Conn, n: nat, a: AckInfo)
    requires ConnInv(c) && Retransmitted(c, d, n)
    ensures Evolved(c, d, a, [])
  {
    hide ConnInv, SndStep, Bytes;
    RetransmittedInv(c, d, n);
    SndStepWeaken(SndOf(c), SndOf(d), a);
    assert Bytes(c.hist) + [] == Bytes(c.hist);
  }

  lemma EvolvedFlushed(c: Conn, d: Conn, a: AckInfo)
    requires ConnInv(c) && Sound(d) && Flushed(c, d) && SndStep(SndOf(c), SndOf(d), NoAck)
    ensures Evolved(c, d, a, [])
  {
    hide ConnInv, SndStep, Bytes, Sound;
    FlushedInv(c, d);
    SndStepWeaken(SndOf(c), SndOf(d), a);
    assert Bytes(c.hist) + [] == Bytes(c.hist);
  }

  lemma EvolvedSacked(c: Conn, d: Conn, a: AckInfo)
    requires ConnInv(c) && ConnInv(d) && a.Acked? && Sacked(c, d, a) && SndStep(SndOf(c), SndOf(d), a)
    ensures Evolved(c, d, a, [])
  {
    hide ConnInv, SndStep, Bytes;
    assert Bytes(c.hist) + [] == Bytes(c.hist);
  }

  /** Every packet from the oldest up to q has been transmitted (or is gone already). */
  ghost predicate SentThrough(c: Conn, q: int) {
    forall k :: 0 <= k < c.wnd && k < |c.ring| && c.Base() + k <= q && c.ring[k].Some? ==>
      c.ring[k].value.transmissions > 0
  }

  /** The acknowledgement took effect: what it covers cumulatively, if it was all sent, is gone. */
  ghost predicate Cleared(c: Conn, d: Conn, a: AckInfo)
    requires d.wnd <= |d.ring|
  {
    (a.Acked? ==>
      forall q :: c.Base() <= q <= a.ack && q < c.Next() && SentThrough(c, q) ==> !Holds(SndOf(d), q)) == true
  }

  lemma AckedClears(c: Conn, d: Conn, acks: nat, a: AckInfo)
    requires ConnInv(c) && ConnInv(d) && AckedPrefix(c, d, acks) && a.Acked? && a.ack < c.Base() + acks
    ensures Cleared(c, d, a)
  {
    forall q | c.Base() <= q <= a.ack && q < c.Next() && SentThrough(c, q)
      ensures !Holds(SndOf(d), q)
    {
      var m := c.wnd - d.wnd;
      assert d.wnd > 0 ==> d.ring[0] == c.ring[0 + m];
      assert d.Base() == c.Base() + m;
    }
  }

  lemma ClearedStays(c: Conn, d: Conn, e: Conn, a: AckInfo)
    requires Evolved(d, e, a, []) && Cleared(c, d, a) && c.Next() <= d.Next()
    ensures Cleared(c, e, a)
  {
    if a.Acked? {
      forall q | c.Base() <= q <= a.ack && q < c.Next() && SentThrough(c, q)
        ensures !Holds(SndOf(e), q)
      {
        assert !Holds(SndOf(d), q);
      }
    }
  }

  /** What was sent before a step of the sender, such as a write from inside the connect notification, is
      released by an acknowledgement that takes effect after it. */
  lemma ClearedEarlier(c: Conn, d: Conn, e: Conn, a: AckInfo)
    requires c.wnd <= |c.ring| && d.wnd <= |d.ring| && e.wnd <= |e.ring| && d.Base() == c.Base()
    requires SndStep(SndOf(c), SndOf(d), a) && Cleared(d, e, a)
    ensures Cleared(c, e, a)
  {
    if a.Acked? {
      forall q | c.Base() <= q <= a.ack && q < c.Next() && SentThrough(c, q)
        ensures !Holds(SndOf(e), q)
      {
        SentThroughStays(c, d, a, q);
      }
    }
  }

  lemma ClearedEvolved(c: Conn, d: Conn, e: Conn, a: AckInfo, bytes: seq<byte>)
    requires Evolved(c, d, a, bytes) && d.Base() == c.Base() && Evolved(d, e, a, [])
    ensures Evolved(c, e, a, bytes) && (Cleared(d, e, a) ==> Cleared(c, e, a))
  {
    hide ConnInv, SndStep, Cleared, Bytes;
    EvolvedThen(c, d, e, a, bytes);
    if Cleared(d, e, a) {
      ClearedEarlier(c, d, e, a);
    }
  }

  lemma SentThroughStays(c: Conn, d: Conn, a: AckInfo, q: int)
    requires c.wnd <= |c.ring| && d.wnd <= |d.ring| && d.Base() == c.Base()
    requires SndStep(SndOf(c), SndOf(d), a) && SentThrough(c, q) && q < c.Next()
    ensures SentThrough(d, q)
  {
    forall k | 0 <= k < d.wnd && k < |d.ring| && d.Base() + k <= q && d.ring[k].Some?
      ensures d.ring[k].value.transmissions > 0
    {
      var x := d.Base() + k;
      assert Holds(SndOf(d), x);
      assert Holds(SndOf(c), x);
      assert Sent(SndOf(c), x);
      assert Sent(SndOf(d), x);
    }
  }

  /** The packets that a mask denotes, except the oldest of the window, are gone if they were sent. */
  ghost predicate MaskCleared(c: Conn, d: Conn, a: AckInfo)
    requires c.wnd <= |c.ring| && d.wnd <= |d.ring|
  {
    (a.Acked? ==>
      forall q :: d.Base() < q < c.Next() && Sent(SndOf(c), q) && InMask(a, q) ==> !Holds(SndOf(d), q)) == true
  }

  predicate InMask(a: AckInfo, q: int)
    requires a.Acked?
  {
    0 <= q - a.ack - 2 < |a.sack| && a.sack[q - a.ack - 2]
  }

  lemma SackedClears(c: Conn, d: Conn, a: AckInfo)
    requires c.wnd <= |c.ring| && d.wnd <= |d.ring| && a.Acked? && Sacked(c, d, a)
    ensures MaskCleared(c, d, a)
  {
    forall q | d.Base() < q < c.Next() && Sent(SndOf(c), q) && InMask(a, q)
      ensures !Holds(SndOf(d), q)
    {
      assert SackHit(c, a, q - c.Base());
    }
  }

  lemma NoMask(c: Conn, a: AckInfo)
    requires c.wnd <= |c.ring| && a.Acked? && a.sack == []
    ensures MaskCleared(c, c, a)
  {
  }

  lemma StillSent(s: Snd, t: Snd, u: Snd, a: AckInfo, q: int)
    requires SndStep(s, t, a) && SndStep(t, u, a)
    ensures Sent(s, q) && Holds(u, q) ==> Sent(t, q)
  {
  }

  lemma MaskClearedEarlier(c: Conn, d: Conn, e: Conn, a: AckInfo)
    requires c.wnd <= |c.ring| && d.wnd <= |d.ring| && e.wnd <= |e.ring|
    requires SndStep(SndOf(c), SndOf(d), a) && SndStep(SndOf(d), SndOf(e), a) && MaskCleared(d, e, a)
    ensures MaskCleared(c, e, a)
  {
    if a.Acked? {
      forall q | e.Base() < q < c.Next() && Sent(SndOf(c), q) && InMask(a, q)
        ensures !Holds(SndOf(e), q)
      {
        StillSent(SndOf(c), SndOf(d), SndOf(e), a, q);
      }
    }
  }

  /** A packet that is alone in the window has been transmitted. */
  ghost predicate LoneSent(c: Conn) {
    (c.wnd == 1 && c.ring != [] ==> c.ring[0].Some? && c.ring[0].value.transmissions > 0) == true
  }

  lemma LoneStays(c: Conn, d: Conn, a: AckInfo)
    requires ConnInv(c) && ConnInv(d) && SndStep(SndOf(c), SndOf(d), a) && d.wnd == c.wnd && d.Base() == c.Base()
    requires LoneSent(c)
    ensures LoneSent(d)
  {
    if d.wnd == 1 {
      assert Sent(SndOf(c), c.Base());
      assert Holds(SndOf(d), c.Base());
    }
  }

  lemma ReleasedThen(c: Conn, d: Conn, e: Conn, acks: nat, a: AckInfo)
    requires ConnInv(c) && ConnInv(d) && AckedPrefix(c, d, acks) && SndStep(SndOf(c), SndOf(d), a) && a.Acked?
    requires Evolved(d, e, a, []) && e.Next() == d.Next()
    ensures Evolved(c, e, a, [])
    ensures a.ack < c.Base() + acks ==> Cleared(c, e, a)
  {
    hide ConnInv, SndStep, Cleared, Bytes, Evolved;
    EvolvedAcked(c, d, acks, a);
    EvolvedThen(c, d, e, a, []);
    if a.ack < c.Base() + acks {
      AckedClears(c, d, acks, a);
      ClearedStays(c, d, e, a);
    }
  }

  lemma RetriedThen(c: Conn, d: Conn, e: Conn, a: AckInfo)
    requires Evolved(c, d, a, []) && Evolved(d, e, a, []) && LoneSent(d) && e.wnd == d.wnd && e.Base() == d.Base()
    ensures Evolved(c, e, a, []) && LoneSent(e) && (Cleared(c, d, a) ==> Cleared(c, e, a))
  {
    hide ConnInv, SndStep, Cleared, Bytes, LoneSent;
    LoneStays(d, e, a);
    EvolvedThen(c, d, e, a, []);
    if Cleared(c, d, a) {
      ClearedStays(c, d, e, a);
    }
  }

  /** The oldest packet is held and was transmitted. */
  ghost predicate OldestSent(c: Conn) {
    c.ring != [] && c.ring[0].Some? && c.ring[0].value.transmissions > 0
  }

  /** The oldest packet of the window has just been transmitted again. */
  ghost predicate OldestResent(c: Conn) {
    (c.ring != [] && c.ring[0].Some? && c.sent != [] && c.sent[|c.sent| - 1] == DgramAt(c, 0)) == true
  }

  // ---------- placing an incoming packet against the connection ----------

  /** How far the packet's acknowledgement number lies behind our newest packet. */
  function AckDistance(c: Conn, w: Wire): nat {
    U16(c.seqNr - 1 - w.ackNr)
  }

  function MaskBits(w: Wire): seq<bool> {
    if w.sack.Some? then w.sack.value else []
  }

  /** What an accepted packet acknowledges, under our own numbering. */
  function InfoOf(c: Conn, w: Wire): AckInfo {
    Acked(c.Next() - 1 - AckDistance(c, w), MaskBits(w))
  }

  /** This packet completes our own connection request. */
  predicate Connecting(c: Conn, w: Wire) {
    c.state == SynSent && w.kind == State
  }

  /** The number of packets acknowledged, computed on 16-bit numbers, counts exactly the window packets up
      to the acknowledged one; none if that lies behind the window. */
  lemma AcksPlaced(c: Conn, w: Wire)
    requires Sound(c) && AckDistance(c, w) <= c.wnd + 3
    ensures var acks := U16(w.ackNr - (c.seqNr - 1 - c.wnd));
      var n := if acks > c.wnd then 0 else acks;
      && 0 <= n <= c.wnd && (n == c.wnd <==> AllAcked(c, w))
      && (n > 0 ==> c.Base() + n - 1 <= InfoOf(c, w).ack)
      && InfoOf(c, w).ack < c.Base() + n
      && InfoOf(c, w).Acked?
  {
    hide Sound;
    var d := AckDistance(c, w);
    assert U16(w.ackNr - (c.seqNr - 1 - c.wnd)) == U16(c.wnd - d);
  }

  lemma MaskPlaced(c: Conn, d: Conn, w: Wire)
    requires Sound(c) && AckDistance(c, w) <= c.wnd + 3 && w.sack.Some? && |w.sack.value| <= 2040
    requires d.isn == c.isn && |c.hist| <= |d.hist| <= |c.hist| + 1024
    ensures MaskMatches(d, InfoOf(c, w), w.ackNr + 2, w.sack.value)
  {
    hide Sound, U16;
    var n := c.Next() - 1;
    U16Add(c.Next(), -1 - w.ackNr);
    assert AckDistance(c, w) == U16(n - w.ackNr);
    U16Back(n, w.ackNr);
    U16Plus(w.ackNr, n - U16(n - w.ackNr), 2);
  }

  /** The receiving half starts from the peer's number. */
  function Adopted(c: Conn, n: int): Conn {
    c.(ackNr := U16(n), rcv := c.rcv.(ack := n))
  }

  lemma AdoptedInv(c: Conn, n: int)
    requires ConnInv(c) && c.state == SynSent
    ensures ConnInv(Adopted(c, n)) && SndOf(Adopted(c, n)) == SndOf(c)
  {
    LogOfSyns(SndOf(c), c.rcv, c.rcv.(ack := n), c.sent);
  }

  /** The packet acknowledges everything the window spans. */
  predicate AllAcked(c: Conn, w: Wire) {
    c.wnd == 0 || AckDistance(c, w) == 0
  }

  /** The packet's acknowledgement number is believable. */
  predicate Accepted(c: Conn, w: Wire) {
    AckDistance(c, w) <= c.wnd + 3
  }

  /** The connection as the packet finds it: during the handshake the peer's number is adopted first. */
  function Started(c: Conn, w: Wire): Conn {
    if c.state == SynSent then Adopted(c, w.seqNr - 1) else c
  }

  /** How many places past the expected packet this one is. */
  function Offset(c: Conn, w: Wire): int {
    U16(w.seqNr - c.ackNr - 1)
  }

  /** The packet's payload is for the stream. */
  predicate ForStream(d: Conn, w: Wire) {
    w.kind != State && (d.state == Connected || d.state == ConnectedFull)
  }

  /** Where the state goes, the packet not being the answer to our own request: a closed socket ends when
      everything up to its FIN is acknowledged; the first data packet completes an accepted connection;
      a full socket may become writable; nothing else changes. */
  ghost predicate StateMoves(c: Conn, w: Wire, state: ConnState) {
    (
      var finished := c.finSent && c.closeRequested && AllAcked(c, w);
      && (finished ==> state == Destroy)
      && (!finished && c.state == SynRecv && w.kind == Data ==> state == Connected)
      && (!finished && c.state == ConnectedFull ==> state == Connected || state == ConnectedFull)
      && (!finished && c.state != ConnectedFull && !(c.state == SynRecv && w.kind == Data) ==> state == c.state)
    ) == true
  }

  /** What an acceptable packet does to the sending half of c, arriving at `mid`. */
  ghost predicate AcksHandled(c: Conn, w: Wire, mid: Conn, bytes: seq<byte>)
    ensures AcksHandled(c, w, mid, bytes) ==> Evolved(c, mid, InfoOf(c, w), bytes)
  {
    (
      && Evolved(c, mid, InfoOf(c, w), bytes)
      && Cleared(c, mid, InfoOf(c, w)) && MaskCleared(c, mid, InfoOf(c, w)) && LoneSent(mid)
      && (if Connecting(c, w)
          then (mid.state == Connected || mid.state == ConnectedFull) && mid.finSentAcked == c.finSentAcked
          else && bytes == [] && mid.finSentAcked == (c.finSentAcked || (c.finSent && AllAcked(c, w)))
               && StateMoves(c, w, mid.state))
    ) == true
  }

  /** What it does to the receiving half after that. */
  ghost predicate PayloadHandled(mid: Conn, w: Wire, d: Conn) {
    (
      && (if ForStream(mid, w) && Offset(mid, w) < 1024 && mid.rcv.pend != []
          then OnlyReceived(mid, d) && d.rcv == Arrive(mid.rcv, Offset(mid, w), w.kind == Fin, w.payload)
          else d == mid)
      && (w.kind != State && (mid.state == Connected || mid.state == ConnectedFull) && !mid.rcv.reached ==>
            var off := U16(w.seqNr - mid.ackNr - 1);
            off < 1024 ==> TookIn(mid.rcv, mid.rcv.ack + 1 + off, w.kind == Fin, w.payload, d.rcv))
    ) == true
  }

  /** The whole effect of an incoming packet, from any peer: nothing if its numbers are not believable;
      otherwise its acknowledgements move the sending half under the guarantee, to `mid`, and then its
      payload goes through the receiving half exactly as `Arrive` says. */
  ghost predicate Processed(c: Conn, w: Wire, mid: Conn, d: Conn, bytes: seq<byte>) {
    if !Accepted(c, w) then d == c && mid == c && bytes == []
    else if Offset(Started(c, w), w) >= REORDER_BUFFER_MAX_SIZE then d == mid == Started(c, w) && bytes == []
    else AcksHandled(Started(c, w), w, mid, bytes) && PayloadHandled(mid, w, d)
  }

  /** At d the acknowledged packets are gone. If a fast retry was due and the number to resend from is that
      of the oldest packet, it goes on: the packet was just sent again, if it was ever sent, and `next` is
      the number after it. */
  ghost predicate RetriedOldest(d: Conn, due: bool, from: int, goesOn: bool, next: int) {
    (
      && goesOn == (due && U16(d.seqNr - d.wnd) == from)
      && (if goesOn && OldestSent(d) then OldestResent(d) && next == U16(from + 1) else next == from)
    ) == true
  }

  /** What is sent again on the way from c to e: the oldest packet at d, and then what the mask reports
      missing. */
  ghost predicate RecoversAt(c: Conn, w: Wire, due: bool, from: int, goesOn: bool, d: Conn, next: int, e: Conn,
                             bytes: seq<byte>) {
    (
      && Evolved(c, d, InfoOf(c, w), bytes) && d.wnd == e.wnd && d.Next() == e.Next()
      && RetriedOldest(d, due, from, goesOn, next)
      && (if w.sack.Some? then MaskResent(d, e, InfoOf(c, w), next) else e.sent == d.sent)
    ) == true
  }

  ghost predicate Recovers(c: Conn, w: Wire, due: bool, from: int, goesOn: bool, e: Conn, bytes: seq<byte>) {
    exists d, next :: RecoversAt(c, w, due, from, goesOn, d, next, e, bytes)
  }

  lemma RecoversBy(c: Conn, w: Wire, due: bool, from: int, goesOn: bool, d: Conn, next: int, e: Conn, f: Conn,
                   bytes: seq<byte>)
    requires Evolved(c, d, InfoOf(c, w), bytes) && d.wnd == e.wnd && d.Next() == e.Next() && f == e.(state := f.state)
    requires RetriedOldest(d, due, from, goesOn, next)
    requires if w.sack.Some? then MaskResent(d, e, InfoOf(c, w), next) else e == d
    ensures Recovers(c, w, due, from, goesOn, f, bytes)
  {
    hide Evolved, RetriedOldest, SackingAt, OnTop, TopLog, AllMissing, InfoOf;
    assert RecoversAt(c, w, due, from, goesOn, d, next, f, bytes);
  }

  lemma StartedInv(c: Conn, w: Wire)
    requires ConnInv(c)
    ensures ConnInv(Started(c, w)) && Accepted(Started(c, w), w) == Accepted(c, w)
  {
    if c.state == SynSent {
      AdoptedInv(c, w.seqNr - 1);
    }
  }

  /** The offset on 16-bit numbers places the packet under our numbering. */
  lemma OffsetPlaced(c: Conn, w: Wire)
    requires Sound(c)
    ensures w.seqNr == U16(c.rcv.ack + 1 + Offset(c, w))
  {
    hide Sound;
    var x := w.seqNr - c.ackNr - 1;
    U16Add(c.rcv.ack, 1 + U16(x));
    U16Add(x, c.ackNr + 1);
    assert U16(U16(x) + c.ackNr + 1) == U16(w.seqNr);
  }

  /** The acceptance test as the code makes it, on wrapped numbers, is the distance test. */
  lemma AckTest(c: Conn, w: Wire)
    requires Sound(c)
    ensures (var curr := Max(c.wnd + 3, 3); !Less16(c.seqNr - 1, w.ackNr) && !Less16(w.ackNr, c.seqNr - 1 - curr))
      <==> Accepted(c, w)
  {
    hide Sound;
    AckTestIsDistance(c.seqNr - 1, w.ackNr, c.wnd + 3);
  }

  /** Acknowledgements do not move the offset at which the payload goes. */
  lemma SameOffset(c: Conn, w: Wire, mid: Conn, bytes: seq<byte>)
    requires AcksHandled(c, w, mid, bytes)
    ensures Offset(mid, w) == Offset(c, w)
  {
  }

  /** A packet that is acceptable and belongs to an established connection, or is the first data packet of
      an accepted one, is taken in, wherever its 16-bit number places it among the next 1024. */
  lemma ProcessedTookIn(b: Conn, w: Wire, mid: Conn, c: Conn, bytes: seq<byte>)
    requires ConnInv(b) && Accepted(b, w) && Processed(b, w, mid, c, bytes) && !b.rcv.reached
    requires w.kind == Data || w.kind == Fin
    requires b.state == Connected || b.state == ConnectedFull || (b.state == SynRecv && w.kind == Data)
    requires !(b.finSent && b.closeRequested && AllAcked(b, w))
    ensures var off := U16(w.seqNr - b.ackNr - 1);
      off < 1024 ==> TookIn(b.rcv, b.rcv.ack + 1 + off, w.kind == Fin, w.payload, c.rcv)
    ensures U16(w.seqNr - b.ackNr - 1) < 1024 && b.state == SynRecv ==> c.state == Connected
  {
    hide ConnInv, TookIn, Evolved, Cleared, MaskCleared, LoneSent, Accepted, AllAcked, Arrive, U16, OnlyReceived;
    assert Started(b, w) == b;
    if Offset(b, w) < REORDER_BUFFER_MAX_SIZE {
      HandledState(b, w, mid, bytes);
      TakenInAt(mid, w, c);
    }
  }

  lemma HandledState(b: Conn, w: Wire, mid: Conn, bytes: seq<byte>)
    requires AcksHandled(b, w, mid, bytes) && w.kind != State && !(b.finSent && b.closeRequested && AllAcked(b, w))
    requires b.state == Connected || b.state == ConnectedFull || (b.state == SynRecv && w.kind == Data)
    ensures mid.state == Connected || (mid.state == ConnectedFull && b.state == ConnectedFull)
    ensures mid.rcv == b.rcv && mid.ackNr == b.ackNr
  {
    hide ConnInv, Cleared, MaskCleared, LoneSent, AllAcked;
  }

  lemma TakenInAt(mid: Conn, w: Wire, d: Conn)
    requires PayloadHandled(mid, w, d) && (mid.state == Connected || mid.state == ConnectedFull)
    requires w.kind != State && !mid.rcv.reached && U16(w.seqNr - mid.ackNr - 1) < 1024
    ensures TookIn(mid.rcv, mid.rcv.ack + 1 + U16(w.seqNr - mid.ackNr - 1), w.kind == Fin, w.payload, d.rcv)
    ensures d.state == mid.state
  {
    hide TookIn, Arrive, U16;
  }

  /** The stages of handling acknowledgements: released to d, the mask applied to e, marked writable to f. */
  lemma AcksHandledBy(c: Conn, d: Conn, e: Conn, f: Conn, w: Wire, bytes: seq<byte>)
    requires Evolved(c, d, InfoOf(c, w), bytes) && Cleared(c, d, InfoOf(c, w)) && LoneSent(d)
    requires
      && Evolved(d, e, InfoOf(c, w), []) && MaskCleared(d, e, InfoOf(c, w)) && e.wnd == d.wnd
      && e.Next() == d.Next()
    requires Evolved(e, f, InfoOf(c, w), []) && f == e.(state := f.state)
    requires if Connecting(c, w)
      then (f.state == Connected || f.state == ConnectedFull) && f.finSentAcked == c.finSentAcked
      else && bytes == [] && f.finSentAcked == (c.finSentAcked || (c.finSent && AllAcked(c, w)))
           && StateMoves(c, w, f.state)
    ensures AcksHandled(c, w, f, bytes)
  {
    hide ConnInv, SndStep, Cleared, MaskCleared, LoneSent, StateMoves, Bytes, AllAcked, InfoOf;
    var a := InfoOf(c, w);
    MaskClearedEarlier(c, d, e, a);
    LoneStays(d, e, a);
    LoneStays(e, f, a);
    MaskClearedState(c, e, f, a);
    ClearedStays(c, d, e, a);
    ClearedStays(c, e, f, a);
    EvolvedThen(c, d, e, a, bytes);
    EvolvedThen(c, e, f, a, bytes);
  }

  lemma MaskClearedState(c: Conn, e: Conn, f: Conn, a: AckInfo)
    requires c.wnd <= |c.ring| && e.wnd <= |e.ring| && f == e.(state := f.state) && MaskCleared(c, e, a)
    ensures MaskCleared(c, f, a)
  {
    assert SndOf(f) == SndOf(e);
  }


  // ---------- timeouts ----------

  function Lost(o: Option<OutPkt>): Option<OutPkt> {
    if Travelling(o) then Some(o.value.(needResend := true)) else o
  }

  /** The loop that considers everything lost, with the newest n slots done. */
  ghost predicate LosingAt(c: Conn, d: Conn, n: nat)
    ensures LosingAt(c, d, n) ==>
      Sound(c) && Sound(d) && n <= c.wnd == d.wnd && d.Base() == c.Base() && |d.ring| == |c.ring|
    ensures LosingAt(c, d, n) ==> d.seqNr == c.seqNr
  {
    (
      && Sound(c) && Sound(d) && SndStep(SndOf(c), SndOf(d), NoAck)
      && n <= c.wnd
      && d == c.(curWindow := d.curWindow, ring := d.ring)
      && |d.ring| == |c.ring|
      && (forall k :: 0 <= k < |c.ring| ==> d.ring[k] == if c.wnd - n <= k < c.wnd then Lost(c.ring[k]) else c.ring[k])
    ) == true
  }

  lemma LosingStart(c: Conn)
    requires Sound(c)
    ensures LosingAt(c, c, 0)
  {
    SndStepRefl(SndOf(c), NoAck);
  }

  lemma LosingSkip(c: Conn, d: Conn, n: nat)
    requires LosingAt(c, d, n) && n < c.wnd && !Travelling(d.ring[c.wnd - n - 1])
    ensures LosingAt(c, d, n + 1)
  {
  }

  lemma LosingMark(c: Conn, d: Conn, n: nat)
    requires LosingAt(c, d, n) && n < c.wnd && Travelling(d.ring[c.wnd - n - 1])
    ensures |d.ring[c.wnd - n - 1].value.payload| <= d.curWindow && LosingAt(c, LostAt(d, c.wnd - n - 1), n + 1)
  {
    hide Sound, SndStep;
    LostAtSound(d, c.wnd - n - 1);
    SndStepTransitive(SndOf(c), SndOf(d), SndOf(LostAt(d, c.wnd - n - 1)), NoAck);
  }

  lemma {:induction false} NothingInFlight(w: seq<Option<OutPkt>>)
    requires forall k :: 0 <= k < |w| ==> !Travelling(w[k])
    ensures InFlight(w) == 0
  {
    if w != [] {
      NothingInFlight(w[..|w| - 1]);
    }
  }

  /** When everything is considered lost nothing is in flight. */
  lemma LosingEnd(c: Conn, d: Conn)
    requires ConnInv(c) && LosingAt(c, d, c.wnd)
    ensures d.curWindow == 0 && Evolved(c, d, NoAck, []) && (d.wnd > 0 ==> d.ring[0].Some?)
    ensures forall k :: 0 <= k < d.wnd ==> !Travelling(d.ring[k])
  {
    forall k | 0 <= k < d.wnd
      ensures !Travelling(d.ring[k])
    {
      assert d.ring[k] == Lost(c.ring[k]);
    }
    NothingInFlight(d.ring[..d.wnd]);
    assert Bytes(c.hist) + [] == Bytes(c.hist);
  }

  /** After a timeout: only the oldest packet is in flight, sent again, and all others wait. */
  ghost predicate OldestAlone(c: Conn) {
    && (forall k :: 0 < k < c.wnd && k < |c.ring| ==> !Travelling(c.ring[k]))
    && (0 < c.wnd && c.ring != [] ==> Travelling(c.ring[0]) && c.curWindow == |c.ring[0].value.payload|)
  }

  /** The datagram of the oldest packet of the window, if there is one. */
  ghost function OldestLog(c: Conn): seq<Dgram> {
    if c.wnd > 0 && c.ring != [] && c.ring[0].Some?
    then [Dgram(c.ring[0].value.kind, c.Base(), c.rcv.ack, None, c.ring[0].value.payload)]
    else []
  }

  /** When nothing is in flight, sending the oldest packet leaves it alone there. */
  lemma OldestAloneBy(d: Conn)
    requires d.wnd <= |d.ring| && d.curWindow == 0 && forall k :: 0 <= k < d.wnd ==> !Travelling(d.ring[k])
    ensures d.wnd == 0 ==> OldestAlone(d) && OldestLog(d) == []
    ensures d.wnd > 0 && d.ring[0].Some? ==>
      OldestAlone(SendAt(d, 0)) && SendAt(d, 0).sent == d.sent + OldestLog(SendAt(d, 0))
  {
  }

  /** What a tick puts on the wire after flushing: the oldest packet again after a timeout, and a keep-alive,
      which acknowledges one packet less than was received. */
  ghost predicate TickLog(was: seq<Dgram>, again: seq<Dgram>, keep: bool, ack: int, now: seq<Dgram>) {
    (
      var log := was + again;
      && log <= now && |now| == |log| + (if keep then 1 else 0)
      && (keep ==> now[|log|].kind == State && now[|log|].ackNo == ack - 1)
    ) == true
  }

  lemma TickLogged(was: seq<Dgram>, again: seq<Dgram>, keep: bool, ack: int, now: seq<Dgram>)
    ensures TickLog(was + again, [], keep, ack, now) ==> TickLog(was, again, keep, ack, now)
    ensures now == was + again ==> TickLog(was, again, false, ack, now)
  {
    assert was + again + [] == was + again;
  }

  lemma OldestLogSame(c: Conn, d: Conn)
    requires d == c.(state := d.state, sent := d.sent)
    ensures OldestLog(d) == OldestLog(c)
  {
  }

  lemma OldestStaysAlone(c: Conn, d: Conn)
    requires OldestAlone(c) && d.wnd == c.wnd && d.ring == c.ring && d.curWindow == c.curWindow
    ensures OldestAlone(d)
  {
  }

  lemma EvolvedAckSent(c: Conn, a: int, mask: Option<seq<bool>>)
    requires ConnInv(c) && ConnInv(AckSent(c, a, mask))
    ensures Evolved(c, AckSent(c, a, mask), NoAck, [])
  {
    hide ConnInv, Bytes;
    SndStepRefl(SndOf(c), NoAck);
    assert SndOf(AckSent(c, a, mask)) == SndOf(c);
    assert Bytes(c.hist) + [] == Bytes(c.hist);
  }

  // ---------- opening and closing ----------

  /** The connection request queued and sent. */
  function Dialled(c: Conn, n: uint16): Conn
    requires c.ring != []
  {
    c.(state := SynSent, isn := n, seqNr := U16(n + 1), wnd := 1, hist := [Rec(Syn, [])],
       ring := c.ring[0 := Some(OutPkt(Syn, n, [], 1, false))], sent := [Dgram(Syn, n, c.rcv.ack, None, [])])
  }

  /** A socket not yet used holds nothing. */
  lemma UnusedIsEmpty(c: Conn)
    requires ConnInv(c) && c.state == Uninitialized && c.hist == []
    ensures
      && c.wnd == 0 && c.curWindow == 0 && RingSize(|c.ring|)
      && (forall k :: 0 <= k < |c.ring| ==> c.ring[k] == None)
    ensures Fresh(c.rcv) && c.ackNr == U16(c.rcv.ack)
  {
    SoundSizes(c);
    assert InFlight(c.ring[..0]) == 0;
  }

  lemma DialledInv(c: Conn, n: uint16)
    requires ConnInv(c) && c.hist == [] && c.sent == [] && Fresh(c.rcv) && !c.finSent
    ensures ConnInv(Dialled(c, n))
  {
    var d := Dialled(c, n);
    SoundSizes(c);
    var s := SndOf(d);
    assert s.win == [Some(OutPkt(Syn, n, [], 1, false))];
    assert SlotOk(s, 0);
    assert InFlight(s.win) == 0 by {
      assert s.win[..0] == [];
    }
    assert Frozen(s, n) && RecOf(s, n) == Rec(Syn, []);
  }

  /** Between c and d the FIN was queued, and possibly sent: it is the last packet from here on. */
  ghost predicate Finished(c: Conn, d: Conn)
    ensures Finished(c, d) ==> ConnInv(d) && d.finSent && LastIs(d.hist, Fin) && Bytes(d.hist) == Bytes(c.hist)
    ensures Finished(c, d) ==> d.rcv == c.rcv && d.state == c.state && d.isn == c.isn && c.sent <= d.sent
    ensures Finished(c, d) ==>
      c.wnd <= |c.ring| && SndStep(SndOf(c), SndOf(d), NoAck) && d.closeRequested == c.closeRequested
    ensures Finished(c, d) ==> d.finSentAcked == c.finSentAcked
  {
    (
      && ConnInv(c) && ConnInv(d) && SndStep(SndOf(c), SndOf(d), NoAck) && LastIs(d.hist, Fin)
      && d == c.(finSent := true, wnd := d.wnd, seqNr := d.seqNr, curWindow := d.curWindow, hist := d.hist,
                 ring := d.ring, sent := d.sent)
      && c.sent <= d.sent && Bytes(d.hist) == Bytes(c.hist)
    ) == true
  }

  lemma FinishBy(c: Conn, f: Conn, d: Conn)
    requires ConnInv(c) && !c.finSent && f == c.(finSent := true) && Wrote(f, d, [], Fin) && LastIs(d.hist, Fin)
    ensures Finished(c, d)
  {
    hide Sound, SndStep, Bytes;
    assert SndOf(f) == SndOf(c);
    assert Bytes(c.hist) + [] == Bytes(c.hist);
  }

  lemma FinishStart(c: Conn)
    requires ConnInv(c) && !c.finSent
    ensures Sound(c.(finSent := true)) && !LastIs(c.hist, Fin) && c.wnd <= 1023
  {
    assert SndOf(c.(finSent := true)) == SndOf(c);
  }

  /** Shutting down the reading side, or noting that the application closed the socket. */
  function Quieted(c: Conn, shut: bool, closed: bool): Conn {
    c.(rcv := c.rcv.(shut := c.rcv.shut || shut), closeRequested := c.closeRequested || closed)
  }

  lemma QuietedInv(c: Conn, shut: bool, closed: bool)
    requires ConnInv(c)
    ensures ConnInv(Quieted(c, shut, closed)) && SndOf(Quieted(c, shut, closed)) == SndOf(c)
  {
    var d := Quieted(c, shut, closed);
    assert SndOf(d) == SndOf(c);
    SndStepRefl(SndOf(c), NoAck);
    assert Keeps(c.rcv, d.rcv);
    LogKept(SndOf(c), c.rcv, SndOf(c), d.rcv, NoAck, c.sent);
  }

  /** A step of the endpoint on its own: no packet comes in, and the stream grows by exactly `bytes`. */
  ghost predicate LocalStep(c: Conn, d: Conn, bytes: seq<byte>)
    ensures LocalStep(c, d, bytes) ==> ConnInv(c) && ConnInv(d) && c.wnd <= |c.ring| && d.wnd <= |d.ring|
    ensures LocalStep(c, d, bytes) ==> d.rcv == c.rcv.(shut := d.rcv.shut) && (c.rcv.shut ==> d.rcv.shut)
    ensures LocalStep(c, d, bytes) ==> c.sent <= d.sent && d.isn == c.isn && SndStep(SndOf(c), SndOf(d), NoAck)
    ensures LocalStep(c, d, bytes) ==> d.finSentAcked == c.finSentAcked && (c.finSent ==> d.finSent)
    ensures LocalStep(c, d, bytes) ==> (Dialling(d) ==> Dialling(c))
    ensures LocalStep(c, d, bytes) ==> Bytes(d.hist) == Bytes(c.hist) + bytes
  {
    (
      && ConnInv(c) && ConnInv(d) && SndStep(SndOf(c), SndOf(d), NoAck)
      && d.rcv == c.rcv.(shut := d.rcv.shut) && (c.rcv.shut ==> d.rcv.shut)
      && c.sent <= d.sent && d.isn == c.isn && d.finSentAcked == c.finSentAcked && (c.finSent ==> d.finSent)
      && (Dialling(d) ==> Dialling(c))
      && Bytes(d.hist) == Bytes(c.hist) + bytes
    ) == true
  }

  lemma LocalRefl(c: Conn)
    requires ConnInv(c)
    ensures LocalStep(c, c, [])
  {
    hide ConnInv, SndStep, Bytes;
    SndStepRefl(SndOf(c), NoAck);
  }

  lemma LocalEvolved(c: Conn, d: Conn, bytes: seq<byte>)
    requires Evolved(c, d, NoAck, bytes) && d.finSentAcked == c.finSentAcked
    ensures LocalStep(c, d, bytes)
  {
    hide ConnInv, SndStep, Bytes;
  }

  lemma LocalQuieted(c: Conn, shut: bool, closed: bool)
    requires ConnInv(c)
    ensures LocalStep(c, Quieted(c, shut, closed), [])
  {
    hide ConnInv, SndStep, Bytes;
    QuietedInv(c, shut, closed);
    SndStepRefl(SndOf(c), NoAck);
  }

  lemma LocalFinished(c: Conn, d: Conn)
    requires Finished(c, d)
    ensures LocalStep(c, d, [])
  {
    hide ConnInv, SndStep, Bytes;
  }

  lemma LocalTransitive(c: Conn, d: Conn, e: Conn)
    requires LocalStep(c, d, []) && LocalStep(d, e, [])
    ensures LocalStep(c, e, [])
  {
    hide ConnInv, SndStep, Bytes;
    SndStepTransitive(SndOf(c), SndOf(d), SndOf(e), NoAck);
  }
}
