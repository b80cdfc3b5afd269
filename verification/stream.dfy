/** Two connections and the network between them. A datagram log is the network: any datagram ever
    sent may be delivered, any number of times, in any order, or never. */
module Streams {
  import opened Words
  import opened Rings
  import opened Packets
  import opened Sender
  import opened Receiver
  import opened Endpoint
  import opened Connection

  // ---------- one direction ----------

  /** Everything the receiver holds was sent, is final, and is what the sender's history says. */
  ghost predicate Agrees(s: Snd, r: Rcv) {
    && s.isn - 1 <= r.ack < s.Next()
    && (forall q :: s.isn <= q <= r.ack ==> Frozen(s, q))
    && (forall q :: Held(r, q).Some? && q > r.ack ==> Frozen(s, q) && RecOf(s, q).payload == Held(r, q).value)
  }

  /** The posted bytes are the stream up to `ack`; a prefix of it once reading was shut down. */
  ghost predicate PostedOk(s: Snd, r: Rcv)
    requires 0 <= r.ack + 1 - s.isn <= |s.hist|
  {
    var stream := Bytes(s.hist[..r.ack + 1 - s.isn]);
    r.posted <= stream && (!r.shut ==> r.posted == stream)
  }

  /** No packet is lost: what left the send buffer has arrived. */
  ghost predicate NothingLost(s: Snd, r: Rcv) {
    forall q :: s.isn <= q < s.Next() && !Holds(s, q) ==> Received(r, q)
  }

  /** The end of file the receiver knows of is the sender's FIN. */
  ghost predicate EofOk(s: Snd, r: Rcv) {
    && (r.gotFin ==> LastIs(s.hist, Fin) && r.eof == s.Next() - 1 && Frozen(s, r.eof))
    && (r.reached ==> r.ack == r.eof)
  }

  /** The direction from a to b. */
  ghost predicate StreamInv(a: Conn, b: Conn)
    requires a.wnd <= |a.ring|
  {
    (
      && Agrees(SndOf(a), b.rcv)
      && PostedOk(SndOf(a), b.rcv)
      && NothingLost(SndOf(a), b.rcv)
      && EofOk(SndOf(a), b.rcv)
      && (a.finSentAcked ==> b.rcv.ack == a.Next() - 1)
    ) == true
  }

  // ---------- the sender moves ----------

  lemma FrozenPrefix(s: Snd, t: Snd, a: AckInfo, n: nat)
    requires SndStep(s, t, a) && n <= |s.hist| && forall q :: s.isn <= q < s.isn + n ==> Frozen(s, q)
    ensures n <= |t.hist| && Bytes(t.hist[..n]) == Bytes(s.hist[..n])
  {
    forall i | 0 <= i < n
      ensures t.hist[i] == s.hist[i]
    {
      assert Frozen(s, s.isn + i);
      assert RecOf(t, s.isn + i) == RecOf(s, s.isn + i);
    }
    BytesAgree(s.hist, t.hist, n);
  }

  lemma AgreesKept(s: Snd, t: Snd, r: Rcv, a: AckInfo)
    requires SndStep(s, t, a) && Agrees(s, r)
    ensures Agrees(t, r)
  {
    forall q | s.isn <= q <= r.ack
      ensures Frozen(t, q)
    {
      assert Frozen(s, q);
    }
    forall q | Held(r, q).Some? && q > r.ack
      ensures Frozen(t, q) && RecOf(t, q).payload == Held(r, q).value
    {
      assert Frozen(s, q);
    }
  }

  lemma NothingLostKept(s: Snd, t: Snd, r: Rcv, a: AckInfo)
    requires SndStep(s, t, a) && NothingLost(s, r) && forall q :: s.isn <= q && Covers(a, q) ==> Received(r, q)
    ensures NothingLost(t, r)
  {
    forall q | t.isn <= q < t.Next() && !Holds(t, q)
      ensures Received(r, q)
    {
      if !Covers(a, q) {
        assert !Holds(s, q) && q < s.Next();
      }
    }
  }

  /** A FIN that was received stays the last packet. */
  lemma EofKept(s: Snd, t: Snd, r: Rcv, a: AckInfo)
    requires SndStep(s, t, a) && SndInv(t) && EofOk(s, r)
    ensures EofOk(t, r)
  {
    if r.gotFin {
      var q := r.eof;
      assert RecOf(t, q) == RecOf(s, q);
      assert t.hist[q - t.isn].kind == Fin;
    }
  }

  /** The sending endpoint moves, releasing only what has arrived: the direction is undisturbed. */
  lemma SenderMoves(a: Conn, c: Conn, b: Conn, info: AckInfo)
    requires Sound(a) && Sound(c) && StreamInv(a, b) && SndStep(SndOf(a), SndOf(c), info)
    requires forall q :: a.isn <= q && Covers(info, q) ==> Received(b.rcv, q)
    requires c.finSentAcked ==> b.rcv.ack == c.Next() - 1
    ensures StreamInv(c, b)
  {
    hide SndStep, Covers, RcvInv, PostedOk;
    var s, t := SndOf(a), SndOf(c);
    assert SndInv(t);
    assert a.isn == c.isn by { StepIsn(s, t, info); }
    AgreesKept(s, t, b.rcv, info);
    NothingLostKept(s, t, b.rcv, info);
    EofKept(s, t, b.rcv, info);
    PostedKept(s, t, b.rcv, info);
  }

  lemma StepIsn(s: Snd, t: Snd, a: AckInfo)
    requires SndStep(s, t, a)
    ensures t.isn == s.isn && |s.hist| <= |t.hist|
  {
  }

  lemma PostedKept(s: Snd, t: Snd, r: Rcv, a: AckInfo)
    requires SndStep(s, t, a) && Agrees(s, r) && PostedOk(s, r)
    ensures 0 <= r.ack + 1 - t.isn <= |t.hist| && PostedOk(t, r)
  {
    FrozenPrefix(s, t, a, r.ack + 1 - s.isn);
  }

  // ---------- the receiver moves ----------

  /** What the receiving half must satisfy against the sender's history. */
  ghost predicate Fits(s: Snd, r: Rcv)
    ensures Fits(s, r) ==> s.isn - 1 <= r.ack < s.Next()
  {
    (Agrees(s, r) && PostedOk(s, r) && EofOk(s, r)) == true
  }

  /** Posting the next packet of the history keeps the fit. */
  lemma PostFits(s: Snd, r: Rcv, t: Rcv, payload: seq<byte>)
    requires Fits(s, r) && r.pend != [] && !r.reached && !t.reached
    requires Frozen(s, r.ack + 1) && RecOf(s, r.ack + 1).payload == payload
    requires t.ack == r.ack + 1 && |t.pend| == |r.pend| && t.pend[|r.pend| - 1] == None
    requires forall k :: 0 <= k < |r.pend| - 1 ==> t.pend[k] == r.pend[k + 1]
    requires t.posted == Post(r, payload) && t.shut == r.shut && t.gotFin == r.gotFin && t.eof == r.eof
    ensures Fits(s, t)
  {
    BytesNext(s.hist, r.ack + 1 - s.isn);
    forall q | Held(t, q).Some? && q > t.ack
      ensures Frozen(s, q) && RecOf(s, q).payload == Held(t, q).value
    {
      assert t.pend[q - t.ack - 1] == r.pend[q - t.ack - 1 + 1];
      assert Held(r, q) == Held(t, q);
    }
  }

  lemma {:induction false} DrainFits(s: Snd, r: Rcv)
    requires DrainInv(r) && Fits(s, r) && !r.reached
    ensures Fits(s, Drain(r))
    decreases r.count
  {
    var e := AtEof(r);
    assert Fits(s, e);
    if e.count != 0 && e.pend[0].Some? {
      assert Held(e, e.ack + 1) == e.pend[0];
      var n := TakeNext(e);
      TakeNextSound(e);
      PostFits(s, e, n, e.pend[0].value);
      DrainFits(s, n);
    }
  }

  lemma NoteFinFits(s: Snd, r: Rcv, off: int, fin: bool)
    requires Fits(s, r) && SndInv(s) && !r.reached && 0 <= off
    requires Frozen(s, r.ack + 1 + off) && (fin ==> RecOf(s, r.ack + 1 + off).kind == Fin)
    ensures Fits(s, NoteFin(r, off, fin))
  {
    if fin && !r.gotFin {
      var q := r.ack + 1 + off;
      assert s.hist[q - s.isn].kind == Fin;
      assert q == s.Next() - 1;
    }
  }

  lemma InOrderFits(s: Snd, r: Rcv, f: Rcv, payload: seq<byte>)
    requires RcvInv(r) && !r.reached && f == NoteFin(r, 0, f.gotFin && !r.gotFin) && Fits(s, f)
    requires Frozen(s, r.ack + 1) && RecOf(s, r.ack + 1).payload == payload
    ensures Fits(s, InOrder(f, payload))
  {
    hide Fits, Frozen, RecOf, DrainInv, Keeps, Occupied, RingSize, Drain, Post;
    var m := f.(ack := f.ack + 1, pend := Turned(f.pend, f.pend[0]), posted := Post(f, payload));
    InOrderStartShape(r, f, payload);
    PostFits(s, f, m, payload);
    DrainFits(s, m);
  }

  lemma OutOfOrderFits(s: Snd, f: Rcv, off: int, payload: seq<byte>)
    requires f.pend != [] && !f.reached && Fits(s, f) && 0 < off < 1024
    requires Frozen(s, f.ack + 1 + off) && RecOf(s, f.ack + 1 + off).payload == payload
    ensures Fits(s, OutOfOrder(f, off, payload))
  {
    var t := OutOfOrder(f, off, payload);
    forall q | Held(t, q).Some? && q > t.ack
      ensures Frozen(s, q) && RecOf(s, q).payload == Held(t, q).value
    {
      if q != f.ack + 1 + off || Held(f, q).Some? {
        assert Held(t, q) == Held(f, q);
      }
    }
  }

  /** A true packet of the history arrives, in any order, any number of times: the fit is kept. */
  lemma ArriveFits(s: Snd, r: Rcv, off: int, fin: bool, payload: seq<byte>)
    requires RcvInv(r) && SndInv(s) && Fits(s, r) && !r.reached && 0 <= off < 1024
    requires Frozen(s, r.ack + 1 + off) && RecOf(s, r.ack + 1 + off) == Rec(if fin then Fin else Data, payload)
    ensures Fits(s, Arrive(r, off, fin, payload))
  {
    hide Fits, RcvInv, InOrder, OutOfOrder, SndInv;
    NoteFinFits(s, r, off, fin);
    var f := NoteFin(r, off, fin);
    if off == 0 {
      InOrderFits(s, r, f, payload);
    } else {
      RingNonEmpty(r);
      OutOfOrderFits(s, f, off, payload);
    }
  }

  lemma RingNonEmpty(r: Rcv)
    requires RcvInv(r)
    ensures r.pend != []
  {
  }

  // ---------- two endpoints ----------

  /** Both endpoints are well formed, the handshake is behind them, and both directions hold. */
  ghost predicate Both(a: Conn, b: Conn)
    ensures Both(a, b) ==>
      ConnInv(a) && ConnInv(b) && !Dialling(a) && !Dialling(b) && a.wnd <= |a.ring| && b.wnd <= |b.ring|
    ensures Both(a, b) ==> StreamInv(a, b) && StreamInv(b, a)
  {
    (ConnInv(a) && ConnInv(b) && !Dialling(a) && !Dialling(b) && StreamInv(a, b) && StreamInv(b, a)) == true
  }

  lemma BothSwap(a: Conn, b: Conn)
    requires Both(a, b)
    ensures Both(b, a)
  {
    hide ConnInv, StreamInv;
  }

  /** A datagram that the network did not hold back for so long that 16 bits no longer place it: its
      sequence number is at most 63 * 1024 behind what b expects, its acknowledgement number less
      than a full turn behind what b sent. */
  predicate Recent(b: Conn, d: Dgram) {
    b.rcv.ack + 1 - d.seqNo <= 0x1_0000 - 1024 && b.Next() - 1 - d.ackNo < 0x1_0000
  }

  /** The receiver can never be behind the oldest packet the sender still keeps. */
  lemma WindowBehind(a: Conn, b: Conn)
    requires ConnInv(a) && RcvInv(b.rcv) && StreamInv(a, b)
    ensures a.Base() <= b.rcv.ack + 1 && a.Next() <= b.rcv.ack + 1 + 1024
  {
    hide ConnInv, Sound, RingSize, Occupied, PostedOk, Agrees;
    var s, r := SndOf(a), b.rcv;
    var q := r.ack + 1;
    assert s.isn <= q by { AgreesBounds(s, r); }
    assert Holds(s, q) ==> s.Base() <= q;
    assert q < a.Base() ==> Received(r, q);
  }

  lemma AgreesBounds(s: Snd, r: Rcv)
    requires Agrees(s, r)
    ensures s.isn - 1 <= r.ack < s.Next()
  {
  }

  /** 16 bits place every recent datagram: its offset is below 1024 exactly when it is one of the next
      1024 packets, and then it is the true offset. */
  lemma OffsetTrue(a: Conn, b: Conn, d: Dgram)
    requires ConnInv(a) && ConnInv(b) && StreamInv(a, b) && d.seqNo <= a.Next() && Recent(b, d)
    ensures Offset(b, Encode(d)) < 1024 ==> Offset(b, Encode(d)) == d.seqNo - b.rcv.ack - 1
  {
    WindowBehind(a, b);
    hide StreamInv, ConnInv;
    assert b.ackNr == U16(b.rcv.ack);
    OffsetArithmetic(b.rcv.ack, d.seqNo);
  }

  /** The bound on staleness is the exact one: any datagram from the rest of that turn is taken for one
      of the next 1024 packets, which it is not. */
  lemma StaleIsMisplaced(b: Conn, d: Dgram)
    requires ConnInv(b) && 0x1_0000 - 1024 < b.rcv.ack + 1 - d.seqNo <= 0x1_0000
    ensures Offset(b, Encode(d)) < 1024 && d.seqNo <= b.rcv.ack < b.rcv.ack + 1 + Offset(b, Encode(d))
  {
    hide ConnInv, U16;
    assert b.ackNr == U16(b.rcv.ack);
    StaleArithmetic(b.rcv.ack, d.seqNo);
  }

  lemma StaleArithmetic(ack: int, n: int)
    requires 0x1_0000 - 1024 < ack + 1 - n <= 0x1_0000
    ensures U16(U16(n) - U16(ack) - 1) == n - ack - 1 + 0x1_0000
  {
    U16Add(n, -(U16(ack) as int) - 1);
    U16Add(n - ack - 1, 0);
    assert n - U16(ack) - 1 == n - ack - 1 + 0x1_0000 * (ack / 0x1_0000);
  }

  lemma OffsetArithmetic(ack: int, n: int)
    requires -0x1_0000 + 1024 <= n - ack - 1 <= 1024
    ensures U16(U16(n) - U16(ack) - 1) < 1024 ==> U16(U16(n) - U16(ack) - 1) == n - ack - 1
  {
    U16Add(n, -(U16(ack) as int) - 1);
    assert U16(n - U16(ack) - 1) == U16(n - ack - 1) by {
      U16Add(n - 1 - ack, 0);
      assert n - U16(ack) - 1 == n - ack - 1 + 0x1_0000 * (ack / 0x1_0000);
    }
  }

  /** What a recent datagram acknowledges, as the receiver of it reads it, is what its sender meant. */
  lemma InfoTrue(b: Conn, d: Dgram)
    requires Sound(b) && d.ackNo < b.Next() && Recent(b, d)
    ensures InfoOf(b, Encode(d)) == Acked(d.ackNo, MaskBits(Encode(d)))
    ensures AckDistance(b, Encode(d)) == b.Next() - 1 - d.ackNo
  {
    hide Sound;
    DistanceArithmetic(b.Next(), d.ackNo);
  }

  lemma DistanceArithmetic(next: int, n: int)
    requires 0 <= next - 1 - n < 0x1_0000
    ensures U16(U16(next) - 1 - U16(n)) == next - 1 - n
  {
    U16Add(next, -1 - (U16(n) as int));
    assert U16(next - 1 - U16(n)) == U16(next - 1 - n) by {
      assert next - 1 - U16(n) == next - 1 - n + 0x1_0000 * (n / 0x1_0000);
    }
  }

  /** Everything a logged datagram of a acknowledges has arrived at a. */
  lemma AcksAreTrue(a: Conn, d: Dgram, info: AckInfo)
    requires
      && a.wnd <= |a.ring| && DgramOk(SndOf(a), a.rcv, d) && d.kind != Syn
      && info == Acked(d.ackNo, MaskBits(Encode(d)))
    ensures forall q :: Covers(info, q) ==> Received(a.rcv, q)
  {
    forall q | Covers(info, q)
      ensures Received(a.rcv, q)
    {
      if q > d.ackNo {
        assert d.sack.Some? && SackTrue(a.rcv, d.ackNo, d.sack.value);
        assert d.sack.value[q - d.ackNo - 2];
        assert Received(a.rcv, d.ackNo + 2 + (q - d.ackNo - 2));
      }
    }
  }

  // ---------- a datagram is delivered ----------

  /** b processes the datagram d, and c is the result. */
  ghost predicate Handed(b: Conn, d: Dgram, c: Conn) {
    ConnInv(c) && exists mid, bytes :: Processed(b, Encode(d), mid, c, bytes)
  }

  /** b processes the recent datagram d out of a's log. */
  ghost predicate Delivered(a: Conn, b: Conn, d: Dgram, c: Conn) {
    d in a.sent && d.kind != Syn && Recent(b, d) && Handed(b, d, c)
  }

  /** Outside the handshake an incoming packet adds nothing to what its receiver sends. */
  lemma HandedKeepsBytes(b: Conn, d: Dgram, c: Conn)
    requires ConnInv(b) && !Dialling(b) && Handed(b, d, c)
    ensures Bytes(c.hist) == Bytes(b.hist) && !Dialling(c)
  {
    hide ConnInv, Bytes, PayloadHandled, Accepted, Cleared;
    var w := Encode(d);
    var mid, bytes :| Processed(b, w, mid, c, bytes);
    ProcessedNotDialling(b, w, mid, c, bytes);
    if Accepted(b, w) && Offset(b, w) < REORDER_BUFFER_MAX_SIZE {
      HandledShape(mid, w, c);
      assert Bytes(mid.hist) == Bytes(b.hist) + [];
    }
  }

  lemma LoggedOk(a: Conn, d: Dgram)
    requires ConnInv(a) && d in a.sent
    ensures DgramOk(SndOf(a), a.rcv, d)
  {
    var i :| 0 <= i < |a.sent| && a.sent[i] == d;
    assert DgramOk(SndOf(a), a.rcv, a.sent[i]);
  }

  /** The sending half of b reads the acknowledgements of d: its own stream to a is undisturbed. */
  lemma AcksDelivered(a: Conn, b: Conn, d: Dgram, mid: Conn, bytes: seq<byte>)
    requires Both(a, b) && d in a.sent && d.kind != Syn && Recent(b, d)
    requires AcksHandled(b, Encode(d), mid, bytes)
    ensures StreamInv(mid, a) && mid.rcv == b.rcv && ConnInv(mid) && !Connecting(b, Encode(d))
  {
    hide StreamInv, ConnInv, Sound, SndStep, DgramOk, Covers, RcvInv;
    LoggedOk(a, d);
    AckBounds(a, b, d);
    InfoTrue(b, d);
    AcksAreTrue(a, d, InfoOf(b, Encode(d)));
    if mid.finSentAcked {
      FinWasAcked(a, b, d, mid);
    }
    SenderMoves(b, mid, a, InfoOf(b, Encode(d)));
  }

  lemma AckBounds(a: Conn, b: Conn, d: Dgram)
    requires ConnInv(a) && b.wnd <= |b.ring| && StreamInv(b, a) && d.kind != Syn && DgramOk(SndOf(a), a.rcv, d)
    ensures d.ackNo <= a.rcv.ack < b.Next()
  {
  }

  /** With nothing left in the send buffer the receiver has everything. */
  lemma EmptyWindow(a: Conn, b: Conn)
    requires ConnInv(a) && RcvInv(b.rcv) && StreamInv(a, b) && a.wnd == 0
    ensures b.rcv.ack == a.Next() - 1
  {
    WindowBehind(a, b);
    AgreesBounds(SndOf(a), b.rcv);
  }

  /** Nothing can be queued behind a FIN that is final. */
  lemma FinStaysLast(s: Snd, t: Snd, a: AckInfo)
    requires SndStep(s, t, a) && SndInv(t) && LastIs(s.hist, Fin) && Frozen(s, s.Next() - 1)
    ensures |t.hist| == |s.hist|
  {
    var q := s.Next() - 1;
    assert RecOf(t, q) == RecOf(s, q);
    assert t.hist[q - t.isn].kind == Fin;
  }

  /** `fin_sent_acked` is only ever set when the peer has everything. */
  lemma FinWasAcked(a: Conn, b: Conn, d: Dgram, mid: Conn)
    requires ConnInv(a) && ConnInv(b) && StreamInv(b, a) && Sound(mid)
    requires d.ackNo <= a.rcv.ack && AckDistance(b, Encode(d)) == b.Next() - 1 - d.ackNo
    requires b.finSentAcked || (b.finSent && AllAcked(b, Encode(d)))
    requires SndStep(SndOf(b), SndOf(mid), InfoOf(b, Encode(d)))
    ensures a.rcv.ack == mid.Next() - 1
  {
    hide PostedOk, Occupied, RingSize, Covers, SndStep, NothingLost, RcvInv, InFlight, U16;
    var s, r := SndOf(b), a.rcv;
    if b.finSentAcked {
      assert r.ack == b.Next() - 1;
    } else if b.wnd == 0 {
      EmptyWindow(b, a);
    } else {
      AgreesBounds(s, r);
    }
    assert Frozen(s, r.ack);
    assert LastIs(s.hist, Fin);
    StepIsn(s, SndOf(mid), InfoOf(b, Encode(d)));
    FinStaysLast(s, SndOf(mid), InfoOf(b, Encode(d)));
  }

  /** The payload of d goes through the receiving half: the stream from a is undisturbed. */
  lemma PayloadDelivered(a: Conn, b: Conn, d: Dgram, mid: Conn, c: Conn)
    requires ConnInv(a) && ConnInv(b) && StreamInv(a, b) && d in a.sent && d.kind != Syn && Recent(b, d)
    requires ConnInv(mid) && mid.rcv == b.rcv && mid.ackNr == b.ackNr && PayloadHandled(mid, Encode(d), c)
    ensures StreamInv(a, c) && Keeps(b.rcv, c.rcv)
  {
    hide ConnInv, Sound, RcvInv, StreamInv, NothingLost, EofOk, OnlyReceived, Arrive, Keeps, DgramOk, Frozen, U16,
      TookIn, Recent;
    var w, r, s := Encode(d), b.rcv, SndOf(a);
    LoggedOk(a, d);
    StreamParts(a, b);
    if ForStream(mid, w) && Offset(mid, w) < 1024 && mid.rcv.pend != [] {
      var off := Offset(mid, w);
      assert off == Offset(b, w);
      SeqBound(a, d);
      OffsetTrue(a, b, d);
      assert d.seqNo == r.ack + 1 + off;
      DataIsTrue(a, d);
      NotReached(s, r, d.seqNo);
      StreamFits(a, b);
      ArriveFits(s, r, off, w.kind == Fin, w.payload);
      ArriveSound(r, off, w.kind == Fin, w.payload);
      KeepsLost(s, r, c.rcv);
      FitsStream(a, b, c);
    } else {
      KeepsRefl(r);
      StreamSame(a, b, c);
    }
  }

  lemma StreamParts(a: Conn, b: Conn)
    requires ConnInv(a) && StreamInv(a, b)
    ensures NothingLost(SndOf(a), b.rcv) && EofOk(SndOf(a), b.rcv)
  {
  }

  lemma StreamSame(a: Conn, b: Conn, c: Conn)
    requires ConnInv(a) && StreamInv(a, b) && c.rcv == b.rcv
    ensures StreamInv(a, c)
  {
  }

  lemma SeqBound(a: Conn, d: Dgram)
    requires ConnInv(a) && DgramOk(SndOf(a), a.rcv, d)
    ensures d.seqNo <= a.Next()
  {
  }

  lemma DataIsTrue(a: Conn, d: Dgram)
    requires ConnInv(a) && DgramOk(SndOf(a), a.rcv, d) && d.kind != State && d.kind != Syn
    ensures
      && SndInv(SndOf(a)) && Frozen(SndOf(a), d.seqNo)
      && RecOf(SndOf(a), d.seqNo) == Rec(if d.kind == Fin then Fin else Data, d.payload)
  {
  }

  lemma NotReached(s: Snd, r: Rcv, q: int)
    requires EofOk(s, r) && RcvInv(r) && Frozen(s, q) && q > r.ack
    ensures !r.reached
  {
  }

  lemma KeepsRefl(r: Rcv)
    ensures Keeps(r, r)
  {
  }

  lemma KeepsLost(s: Snd, r: Rcv, t: Rcv)
    requires NothingLost(s, r) && Keeps(r, t)
    ensures NothingLost(s, t)
  {
    forall q | s.isn <= q < s.Next() && !Holds(s, q)
      ensures Received(t, q)
    {
      assert Received(r, q);
    }
  }

  lemma StreamFits(a: Conn, b: Conn)
    requires ConnInv(a) && StreamInv(a, b)
    ensures Fits(SndOf(a), b.rcv)
  {
  }

  lemma FitsStream(a: Conn, b: Conn, c: Conn)
    requires
      && ConnInv(a) && StreamInv(a, b) && Fits(SndOf(a), c.rcv) && NothingLost(SndOf(a), c.rcv)
      && b.rcv.ack <= c.rcv.ack
    ensures StreamInv(a, c)
  {
    AgreesBounds(SndOf(a), c.rcv);
  }

  /** Only the receiving half changed: the other direction does not notice. */
  lemma OtherDirection(mid: Conn, c: Conn, a: Conn)
    requires ConnInv(mid) && ConnInv(c) && StreamInv(mid, a) && (c == mid || OnlyReceived(mid, c))
    ensures StreamInv(c, a)
  {
    assert SndOf(c) == SndOf(mid);
  }

  /** Delivering any recent datagram keeps both directions. */
  lemma DeliveryKeepsBoth(a: Conn, b: Conn, d: Dgram, c: Conn)
    requires Both(a, b) && Delivered(a, b, d, c)
    ensures Both(a, c)
  {
    hide ConnInv, Sound, RcvInv, StreamInv, AcksHandled, PayloadHandled, Recent, Accepted;
    var w := Encode(d);
    var mid, bytes :| Processed(b, w, mid, c, bytes);
    assert Started(b, w) == b;
    if Accepted(b, w) && Offset(b, w) < REORDER_BUFFER_MAX_SIZE {
      AcksDelivered(a, b, d, mid, bytes);
      HandledFields(b, w, mid, bytes);
      PayloadDelivered(a, b, d, mid, c);
      HandledShape(mid, w, c);
      OtherDirection(mid, c, a);
      NotDiallingAgain(b, w, mid, c, bytes);
    }
  }

  lemma HandledFields(b: Conn, w: Wire, mid: Conn, bytes: seq<byte>)
    requires AcksHandled(b, w, mid, bytes)
    ensures mid.rcv == b.rcv && mid.ackNr == b.ackNr && ConnInv(mid)
  {
  }

  lemma HandledShape(mid: Conn, w: Wire, c: Conn)
    requires PayloadHandled(mid, w, c)
    ensures c == mid || OnlyReceived(mid, c)
  {
  }

  lemma NotDiallingAgain(b: Conn, w: Wire, mid: Conn, c: Conn, bytes: seq<byte>)
    requires !Dialling(b) && AcksHandled(b, w, mid, bytes) && (c == mid || OnlyReceived(mid, c)) && ConnInv(c)
    ensures !Dialling(c)
  {
  }

  // ---------- what arrives is kept ----------

  /** An acceptable recent packet is received by b, unless b takes it to lie past the FIN: it was already,
      or it is one of the next 1024 and is taken in, or it is not of the next 1024. */
  lemma DeliveredIsReceived(a: Conn, b: Conn, d: Dgram, mid: Conn, c: Conn, bytes: seq<byte>)
    requires Both(a, b) && d in a.sent && Recent(b, d) && (d.kind == Data || d.kind == Fin)
    requires Accepted(b, Encode(d)) && Processed(b, Encode(d), mid, c, bytes) && ConnInv(c)
    requires b.state == Connected || b.state == ConnectedFull || (b.state == SynRecv && d.kind == Data)
    requires !(b.finSent && b.closeRequested && AllAcked(b, Encode(d)))
    requires !(b.rcv.gotFin && d.seqNo > b.rcv.ack + 1 && U16(d.seqNo) > U16(b.rcv.eof))
    ensures d.seqNo <= b.rcv.ack + 1024 ==> Received(c.rcv, d.seqNo)
    ensures b.rcv.ack < d.seqNo <= b.rcv.ack + 1024 && !Received(b.rcv, d.seqNo) && d.seqNo > c.rcv.ack ==>
      Held(c.rcv, d.seqNo) == Some(d.payload)
  {
    hide ConnInv, StreamInv, Processed, Recent, U16, AllAcked, Accepted;
    LoggedOk(a, d);
    HandedKeeps(b, Encode(d), mid, c, bytes);
    if b.rcv.ack < d.seqNo <= b.rcv.ack + 1024 {
      NotReachedYet(a, b, d);
      SeqPlaced(b, d);
      ProcessedTookIn(b, Encode(d), mid, c, bytes);
    }
  }

  lemma HandedKeeps(b: Conn, w: Wire, mid: Conn, c: Conn, bytes: seq<byte>)
    requires ConnInv(b) && !Dialling(b) && Processed(b, w, mid, c, bytes)
    ensures b.rcv.ack <= c.rcv.ack
  {
    hide ConnInv, Accepted, U16, AcksHandled, Arrive;
    if Accepted(b, w) && Offset(b, w) < REORDER_BUFFER_MAX_SIZE {
      HandledFields(b, w, mid, bytes);
      SameOffset(b, w, mid, bytes);
      InvShape(mid);
      if ForStream(mid, w) {
        ArriveSound(mid.rcv, Offset(mid, w), w.kind == Fin, w.payload);
      }
    }
  }

  lemma InvShape(c: Conn)
    requires ConnInv(c)
    ensures RcvInv(c.rcv) && c.rcv.pend != []
  {
  }

  /** A packet still to come shows that the end of file has not been reached. */
  lemma NotReachedYet(a: Conn, b: Conn, d: Dgram)
    requires Both(a, b) && DgramOk(SndOf(a), a.rcv, d) && (d.kind == Data || d.kind == Fin) && d.seqNo > b.rcv.ack
    ensures !b.rcv.reached
  {
    hide ConnInv, StreamInv;
    StreamParts(a, b);
    DataIsTrue(a, d);
    InvShape(b);
    NotReached(SndOf(a), b.rcv, d.seqNo);
  }

  lemma SeqPlaced(b: Conn, d: Dgram)
    requires ConnInv(b) && b.rcv.ack < d.seqNo <= b.rcv.ack + 1024
    ensures U16(Encode(d).seqNr - b.ackNr - 1) == d.seqNo - b.rcv.ack - 1
  {
    hide ConnInv;
    assert b.ackNr == U16(b.rcv.ack);
    SeqArithmetic(b.rcv.ack, d.seqNo);
  }

  lemma SeqArithmetic(ack: int, n: int)
    requires 0 <= n - ack - 1 < 1024
    ensures U16(U16(n) - U16(ack) - 1) == n - ack - 1
  {
    U16Add(n, -(U16(ack) as int) - 1);
    U16Add(n - ack - 1, 0);
    assert n - U16(ack) - 1 == n - ack - 1 + 0x1_0000 * (ack / 0x1_0000);
  }

  /** The first data packet of the dialler completes the accepted connection, and its payload is what the
      application gets. */
  lemma FirstDataConnects(b: Conn, d: Dgram, mid: Conn, c: Conn, bytes: seq<byte>, m: uint16, n: uint16)
    requires Answered(b, m, n) && d.kind == Data && d.seqNo == m + 1 && d.ackNo == n - 1
    requires Processed(b, Encode(d), mid, c, bytes)
    ensures c.state == Connected && c.rcv.posted == d.payload && c.rcv.ack == m + 1
  {
    hide ConnInv, Processed, Accepted, AllAcked, TookIn, U16;
    AnswererAccepts(b, d, m, n);
    SeqPlaced(b, d);
    ProcessedTookIn(b, Encode(d), mid, c, bytes);
    FirstPosted(b.rcv, d.payload, c.rcv);
  }

  lemma AnswererAccepts(b: Conn, d: Dgram, m: uint16, n: uint16)
    requires Answered(b, m, n) && d.ackNo == n - 1
    ensures Accepted(b, Encode(d)) && !b.finSent
  {
    U16Add(n - 1, 0);
  }

  lemma FirstPosted(r: Rcv, payload: seq<byte>, t: Rcv)
    requires Fresh(r) && !r.shut && TookIn(r, r.ack + 1, false, payload, t)
    ensures t.posted == payload && t.ack == r.ack + 1
  {
    hide U16, RingSize;
    assert Held(r, r.ack + 2).None?;
    assert HeldBytes(r, r.ack + 2, t.ack + 1) == [];
  }

  // ---------- why datagrams must be recent ----------

  lemma {:induction false} DrainPosts(r: Rcv)
    requires r.pend != []
    ensures r.posted <= Drain(r).posted
    decreases r.count
  {
    var e := AtEof(r);
    if e.count != 0 && e.pend[0].Some? {
      DrainPosts(TakeNext(e));
    }
  }

  /** A data packet exactly one turn old, whose acknowledgement number is still believable, is posted
      again in place of the packet that is due. */
  lemma StaleIsPosted(b: Conn, d: Dgram, mid: Conn, c: Conn, bytes: seq<byte>)
    requires ConnInv(b) && !Dialling(b) && !b.rcv.shut && d.kind == Data && d.seqNo == b.rcv.ack + 1 - 0x1_0000
    requires Accepted(b, Encode(d)) && Processed(b, Encode(d), mid, c, bytes) && ForStream(mid, Encode(d))
    ensures b.rcv.posted + d.payload <= c.rcv.posted
  {
    hide ConnInv, U16, Accepted, AcksHandled, Arrive, OnlyReceived, Offset;
    var w := Encode(d);
    StaleTurn(b, d);
    assert Started(b, w) == b;
    HandledFields(b, w, mid, bytes);
    SameOffset(b, w, mid, bytes);
    PendThere(mid);
    ArrivePosts(mid.rcv, w.payload);
  }

  lemma ArrivePosts(r: Rcv, payload: seq<byte>)
    requires r.pend != [] && !r.shut
    ensures r.posted + payload <= Arrive(r, 0, false, payload).posted
  {
    DrainPosts(r.(ack := r.ack + 1, pend := Turned(r.pend, r.pend[0]), posted := Post(r, payload)));
  }

  lemma PendThere(c: Conn)
    requires ConnInv(c)
    ensures c.rcv.pend != []
  {
  }

  lemma StaleTurn(b: Conn, d: Dgram)
    requires ConnInv(b) && d.seqNo == b.rcv.ack + 1 - 0x1_0000
    ensures Offset(b, Encode(d)) == 0
  {
    hide ConnInv, U16;
    assert b.ackNr == U16(b.rcv.ack);
    StaleArithmetic(b.rcv.ack, d.seqNo);
  }

  /** So a run that delivers it is not reliable, unless the stream happens to repeat itself there. */
  lemma StaleBreaks(a: Conn, b: Conn, d: Dgram, mid: Conn, c: Conn, bytes: seq<byte>, accepted: seq<byte>)
    requires ConnInv(b) && !Dialling(b) && !b.rcv.shut && d.kind == Data && d.seqNo == b.rcv.ack + 1 - 0x1_0000
    requires Accepted(b, Encode(d)) && Processed(b, Encode(d), mid, c, bytes) && ForStream(mid, Encode(d))
    requires a.wnd <= |a.ring| && !(b.rcv.posted + d.payload <= accepted)
    ensures !Reliable(a, c, accepted)
  {
    hide ConnInv, Processed, Holds;
    StaleIsPosted(b, d, mid, c, bytes);
  }

  /** And an acknowledgement a full turn old or more is read as one of packets it does not cover. */
  lemma StaleAckOverclaims(b: Conn, d: Dgram)
    requires ConnInv(b) && b.Next() - 1 - d.ackNo >= 0x1_0000
    ensures InfoOf(b, Encode(d)).ack > d.ackNo
  {
    hide ConnInv;
    assert b.seqNr == U16(b.Next());
  }

  /** Any step of an endpoint on its own keeps both directions. */
  lemma LocalKeepsBoth(a: Conn, c: Conn, b: Conn, bytes: seq<byte>)
    requires Both(a, b) && LocalStep(a, c, bytes)
    ensures Both(c, b)
  {
    hide ConnInv, Sound, RcvInv, LocalStep, SndStep;
    FinStillAcked(a, c, b);
    SenderMoves(a, c, b, NoAck);
    ShutKept(b, a, c);
  }

  lemma FinStillAcked(a: Conn, c: Conn, b: Conn)
    requires
      && ConnInv(a) && ConnInv(c) && StreamInv(a, b) && SndStep(SndOf(a), SndOf(c), NoAck)
      && c.finSentAcked == a.finSentAcked
    ensures c.finSentAcked ==> b.rcv.ack == c.Next() - 1
  {
    hide PostedOk, Occupied, RingSize, NothingLost, RcvInv, InFlight, U16;
    if a.finSentAcked {
      assert Frozen(SndOf(a), a.Next() - 1);
      FinStaysLast(SndOf(a), SndOf(c), NoAck);
    }
  }

  lemma ShutKept(b: Conn, a: Conn, c: Conn)
    requires b.wnd <= |b.ring| && StreamInv(b, a) && c.rcv == a.rcv.(shut := c.rcv.shut) && (a.rcv.shut ==> c.rcv.shut)
    ensures StreamInv(b, c)
  {
    forall q
      ensures Received(c.rcv, q) == Received(a.rcv, q) && Held(c.rcv, q) == Held(a.rcv, q)
    {
    }
  }

  // ---------- every run ----------

  /** Two endpoints, and the bytes that the application at each of them has got accepted so far. */
  datatype Sys = Sys(a: Conn, b: Conn, fromA: seq<byte>, fromB: seq<byte>)

  ghost function Swapped(s: Sys): Sys {
    Sys(s.b, s.a, s.fromB, s.fromA)
  }

  /** Endpoint a acts on its own, its application getting the new bytes accepted. */
  ghost predicate ActsAlone(s: Sys, t: Sys) {
    && t == s.(a := t.a, fromA := t.fromA) && s.fromA <= t.fromA && !Dialling(t.a)
    && LocalStep(s.a, t.a, t.fromA[|s.fromA|..])
  }

  /** One step of the system: an endpoint acts on its own, or a recent datagram is delivered. */
  ghost predicate Step(s: Sys, t: Sys) {
    || ActsAlone(s, t)
    || ActsAlone(Swapped(s), Swapped(t))
    || (t == s.(b := t.b) && exists d :: Delivered(s.a, s.b, d, t.b))
    || (t == s.(a := t.a) && exists d :: Delivered(s.b, s.a, d, t.a))
  }

  /** Both directions are in order, and what was queued is what was accepted. */
  ghost predicate Tracked(s: Sys)
    ensures Tracked(s) ==> Both(s.a, s.b)
  {
    (Both(s.a, s.b) && Bytes(s.a.hist) == s.fromA && Bytes(s.b.hist) == s.fromB) == true
  }

  lemma TrackedSwap(s: Sys)
    requires Tracked(s)
    ensures Tracked(Swapped(s))
  {
    BothSwap(s.a, s.b);
  }

  /** Endpoint a acts on its own. */
  lemma LocalTracked(s: Sys, t: Sys)
    requires Tracked(s) && ActsAlone(s, t)
    ensures Tracked(t)
  {
    hide Both, LocalStep, Bytes;
    LocalKeepsBoth(s.a, t.a, s.b, t.fromA[|s.fromA|..]);
    assert t.fromA == s.fromA + t.fromA[|s.fromA|..];
  }

  /** A datagram of a's log is delivered to b. */
  lemma DeliveryTracked(s: Sys, t: Sys, d: Dgram)
    requires Tracked(s) && t == s.(b := t.b) && Delivered(s.a, s.b, d, t.b)
    ensures Tracked(t)
  {
    hide Both, Handed, Recent, Bytes, ConnInv;
    DeliveryKeepsBoth(s.a, s.b, d, t.b);
    HandedKeepsBytes(s.b, d, t.b);
  }

  lemma StepTracked(s: Sys, t: Sys)
    requires Tracked(s) && Step(s, t)
    ensures Tracked(t)
  {
    hide Tracked, ActsAlone, Delivered;
    TrackedSwap(s);
    if ActsAlone(s, t) {
      LocalTracked(s, t);
    } else if ActsAlone(Swapped(s), Swapped(t)) {
      LocalTracked(Swapped(s), Swapped(t));
      TrackedSwap(Swapped(t));
    } else if t == s.(b := t.b) && exists d :: Delivered(s.a, s.b, d, t.b) {
      var d :| Delivered(s.a, s.b, d, t.b);
      DeliveryTracked(s, t, d);
    } else {
      var d :| Delivered(s.b, s.a, d, t.a);
      DeliveryTracked(Swapped(s), Swapped(t), d);
      TrackedSwap(Swapped(t));
    }
  }

  ghost predicate Run(run: seq<Sys>) {
    run != [] && Tracked(run[0]) && forall i :: 0 <= i < |run| - 1 ==> Step(run[i], run[i + 1])
  }

  lemma {:induction false} RunTracked(run: seq<Sys>, i: nat)
    requires Run(run) && i < |run|
    ensures Tracked(run[i])
  {
    hide Tracked, Step;
    if i > 0 {
      RunTracked(run, i - 1);
      assert Step(run[i - 1], run[i - 1 + 1]);
      StepTracked(run[i - 1], run[i]);
    }
  }

  /** What the application at b sees of the bytes that the application at a got accepted: at every moment
      of every run the bytes posted are a prefix of them; the end of file comes at most once, only for
      a FIN that was sent, and only after all of them. The queued packets are exactly those bytes, and
      each packet is in the send buffer, in the reorder buffer or delivered. */
  ghost predicate Reliable(a: Conn, b: Conn, accepted: seq<byte>)
    requires a.wnd <= |a.ring|
  {
    && b.rcv.posted <= accepted
    && b.rcv.eofs <= 1
    && (b.rcv.eofs == 1 ==> a.finSent && (!b.rcv.shut ==> b.rcv.posted == accepted))
    && (a.finSentAcked ==> a.finSent && b.rcv.ack == a.Next() - 1 && (!b.rcv.shut ==> b.rcv.posted == accepted))
    && Bytes(a.hist) == accepted
    && (forall q :: a.isn <= q < a.Next() ==> Holds(SndOf(a), q) || Held(b.rcv, q).Some? || q <= b.rcv.ack)
  }

  lemma BothReliable(a: Conn, b: Conn)
    requires Both(a, b)
    ensures Reliable(a, b, Bytes(a.hist))
  {
    hide RcvInv, RingSize, InFlight, U16, Occupied;
    var s, r := SndOf(a), b.rcv;
    EofsOnce(r);
    AgreesBounds(s, r);
    BytesPrefix(s.hist, r.ack + 1 - s.isn);
    assert r.ack + 1 - s.isn == |s.hist| ==> s.hist[..r.ack + 1 - s.isn] == s.hist;
    assert r.reached ==> LastIs(s.hist, Fin);
    assert forall q :: s.isn <= q < s.Next() && !Holds(s, q) ==> Received(r, q);
  }

  lemma EofsOnce(r: Rcv)
    requires RcvInv(r)
    ensures r.eofs <= 1 && (r.eofs == 1 <==> r.reached) && (r.reached ==> r.gotFin)
  {
  }

  lemma TrackedReliable(s: Sys)
    requires Tracked(s)
    ensures s.a.wnd <= |s.a.ring| && s.b.wnd <= |s.b.ring|
    ensures Reliable(s.a, s.b, s.fromA) && Reliable(s.b, s.a, s.fromB)
  {
    hide Both, Reliable, Bytes;
    BothReliable(s.a, s.b);
    BothSwap(s.a, s.b);
    BothReliable(s.b, s.a);
  }

  /** The main theorem: every run of two connected endpoints over a network that loses, duplicates and
      reorders datagrams is reliable in both directions at every step. */
  lemma EveryRunIsReliable(run: seq<Sys>, i: nat)
    requires Run(run) && i < |run|
    ensures run[i].a.wnd <= |run[i].a.ring| && run[i].b.wnd <= |run[i].b.ring|
    ensures Reliable(run[i].a, run[i].b, run[i].fromA) && Reliable(run[i].b, run[i].a, run[i].fromB)
  {
    hide Reliable;
    RunTracked(run, i);
    TrackedReliable(run[i]);
  }

  // ---------- the handshake ----------

  /** The request went out with number m, and is not answered yet. */
  ghost predicate Requested(a: Conn, m: uint16) {
    && ConnInv(a) && a.state == SynSent && a.isn == m && a.hist == [Rec(Syn, [])] && a.wnd == 1
    && !a.finSentAcked && !a.rcv.shut
  }

  /** A request still in the window has been transmitted, once or more often. */
  lemma RequestWasSent(a: Conn)
    requires ConnInv(a) && a.hist == [Rec(Syn, [])] && a.wnd == 1
    ensures a.ring[0].Some? && a.ring[0].value.transmissions > 0
  {
    assert SlotOk(SndOf(a), 0);
  }

  /** It was accepted and answered under number n. */
  ghost predicate Answered(b: Conn, m: uint16, n: uint16) {
    && ConnInv(b) && b.state == SynRecv && b.isn == n && b.hist == [] && b.wnd == 0
    && Fresh(b.rcv) && b.rcv.ack == m && !b.rcv.shut && !b.finSentAcked
  }

  /** The request was accepted and its answer processed: both directions start out right, whatever the
      application wrote from inside the connect notification. */
  lemma HandshakeDone(a: Conn, b: Conn, w: Wire, mid: Conn, c: Conn, bytes: seq<byte>, m: uint16, n: uint16)
    requires Requested(a, m) && Answered(b, m, n)
    requires w == Wire(State, n, m, None, []) && ConnInv(c) && Processed(a, w, mid, c, bytes)
    ensures Both(c, b) && Bytes(c.hist) == bytes && !Holds(SndOf(c), m)
  {
    hide ConnInv, SndStep, AcksHandled, Cleared, PostedOk, RcvInv, Holds;
    AnswerAccepted(a, w, m, n);
    var s := Started(a, w);
    assert AcksHandled(s, w, mid, bytes) && c == mid by { AnswerIsState(mid, w, c); }
    AnswerHandled(a, s, w, mid, bytes);
    RequestWasSent(a);
    RequestReleased(s, w, mid, bytes, m);
    DiallerReady(a, s, mid, b, InfoOf(s, w), m);
    AcceptorReady(b, mid, n);
  }

  /** The answered request leaves the window, whatever was written before that. */
  lemma RequestReleased(s: Conn, w: Wire, mid: Conn, bytes: seq<byte>, m: uint16)
    requires AcksHandled(s, w, mid, bytes) && InfoOf(s, w) == Acked(m, []) && s.Base() <= m < s.Next() && s.wnd == 1
    requires s.ring[0].Some? && s.ring[0].value.transmissions > 0
    ensures !Holds(SndOf(mid), m)
  {
    hide ConnInv, SndStep, Holds, Bytes;
    assert SentThrough(s, m);
  }

  lemma AnswerIsState(mid: Conn, w: Wire, c: Conn)
    requires w.kind == State
    ensures PayloadHandled(mid, w, c) ==> c == mid
  {
  }

  lemma AnswerAccepted(a: Conn, w: Wire, m: uint16, n: uint16)
    requires
      && Sound(a) && a.state == SynSent && a.isn == m && a.hist == [Rec(Syn, [])]
      && w == Wire(State, n, m, None, [])
    ensures Accepted(a, w) && Offset(Started(a, w), w) == 0 && InfoOf(Started(a, w), w) == Acked(m, [])
  {
    hide Sound;
    DistanceArithmetic(m + 1, m);
    U16Small(m);
    assert AckDistance(a, w) == 0;
  }

  lemma AnswerHandled(a: Conn, s: Conn, w: Wire, mid: Conn, bytes: seq<byte>)
    requires s == Adopted(a, w.seqNr - 1) && a.state == SynSent && w.kind == State && AcksHandled(s, w, mid, bytes)
    requires a.hist == [Rec(Syn, [])]
    ensures ConnInv(s) && ConnInv(mid) && !Dialling(mid) && mid.rcv == s.rcv && mid.finSentAcked == a.finSentAcked
    ensures SndStep(SndOf(s), SndOf(mid), InfoOf(s, w)) && mid.isn == a.isn && Bytes(mid.hist) == bytes
  {
    assert Bytes(a.hist) == [] by {
      assert a.hist[..0] == [];
      assert Bytes(a.hist[..0]) == [];
    }
    assert Bytes(mid.hist) == [] + bytes;
  }

  lemma DiallerReady(a: Conn, s: Conn, mid: Conn, b: Conn, info: AckInfo, m: uint16)
    requires ConnInv(s) && ConnInv(mid) && s == a.(ackNr := s.ackNr, rcv := s.rcv)
    requires
      && a.isn == m && a.hist == [Rec(Syn, [])] && a.wnd == 1 && a.ring[0].Some?
      && a.ring[0].value.transmissions > 0
    requires SndStep(SndOf(s), SndOf(mid), info) && info == Acked(m, []) && !mid.finSentAcked
    requires Fresh(b.rcv) && b.rcv.ack == m
    ensures StreamInv(mid, b)
  {
    hide ConnInv, Sound;
    var x, t, r := SndOf(s), SndOf(mid), b.rcv;
    assert Frozen(x, m);
    assert RecOf(x, m) == Rec(Syn, []);
    assert Frozen(t, m) && RecOf(t, m) == Rec(Syn, []);
    assert t.isn == m && t.hist[0] == Rec(Syn, []);
    assert Bytes(t.hist[..1]) == [] by {
      assert t.hist[..1] == [Rec(Syn, [])];
      assert [Rec(Syn, [])][..0] == [];
    }
    forall q | t.isn <= q < t.Next() && !Holds(t, q)
      ensures Received(r, q)
    {
      assert q > m ==> !Covers(info, q);
    }
  }

  lemma AcceptorReady(b: Conn, mid: Conn, n: uint16)
    requires ConnInv(b) && b.isn == n && b.hist == [] && b.wnd == 0 && !b.finSentAcked
    requires Fresh(mid.rcv) && mid.rcv.ack == n - 1 && !mid.rcv.shut
    ensures StreamInv(b, mid)
  {
    hide ConnInv, Sound;
    assert Bytes(SndOf(b).hist[..0]) == [];
  }

  lemma ProcessedNotDialling(b: Conn, w: Wire, mid: Conn, c: Conn, bytes: seq<byte>)
    requires !Dialling(b) && Processed(b, w, mid, c, bytes) && ConnInv(c)
    ensures !Dialling(c)
  {
    hide AcksHandled, PayloadHandled, Accepted;
    if Accepted(b, w) && Offset(b, w) < REORDER_BUFFER_MAX_SIZE {
      HandledShape(mid, w, c);
      NotDiallingAgain(b, w, mid, c, bytes);
    }
  }
}
