/** One connection: the fields and operations of `UTPSocket` that carry the stream. Each
    operation is proved to be the matching function on the connection's value. */
module Sockets {
  import opened Words
  import opened Rings
  import opened Packets
  import opened Sender
  import opened Receiver
  import opened Endpoint
  import opened Connection
  import opened Iovecs

  const MAX_EACK: nat := 128
  const ACK_NR_ALLOWED_WINDOW: nat := 3
  const PACKET_SIZE: nat := 1435

  /** What the clock says at a periodic check. */
  datatype Tick = Tick(zeroWindow: bool, timeout: bool, probeTimedOut: bool, keepAlive: bool)

  /** What the delay, rate and path-size estimators make of a packet; any values. */
  datatype Estimates = Estimates(maxWindow: nat, packetSize: nat, mayDecay: bool)

  /** Where an acceptable packet leads: the first data packet or the answer to a connection request
      completes the handshake; an acknowledged FIN ends a socket that was closed. */
  function TransitionedState(state: ConnState, kind: Kind, finished: bool): ConnState {
    if kind == State && state == SynSent then Connected
    else if finished then Destroy
    else if kind == Data && state == SynRecv then Connected
    else state
  }

  lemma TransitionMoves(c: Conn, w: Wire, full: bool)
    requires !Connecting(c, w)
    ensures var finished := c.finSent && c.closeRequested && AllAcked(c, w);
      var state := WritableState(TransitionedState(c.state, w.kind, finished), full);
      && StateMoves(c, w, state)
      && (c.state == ConnectedFull && state != Destroy ==> (state == Connected <==> !full))
  {
  }

  function WritableState(state: ConnState, full: bool): ConnState {
    if state == ConnectedFull && !full then Connected else state
  }

  /** The bytes accepted from inside the connect notification are the first of what was offered there. */
  ghost predicate Reentered(reenter: Option<seq<seq<byte>>>, bytes: seq<byte>) {
    (match reenter case None => bytes == [] case Some(input) => bytes <= Flat(Offered(input))) == true
  }

  lemma ReenteredMeans(input: seq<seq<byte>>, bytes: seq<byte>)
    ensures Reentered(None, bytes) <==> bytes == []
    ensures |input| <= 1024 ==> (Reentered(Some(input), bytes) <==> bytes <= Flat(input))
    ensures |input| > 1024 ==> (Reentered(Some(input), bytes) <==> bytes <= Flat(input[..1024]))
  {
  }

  lemma NothingReentered(reenter: Option<seq<seq<byte>>>)
    ensures Reentered(reenter, [])
  {
  }

  /** The congestion window after a timeout: one packet, or a third less on an idle connection. */
  function RestartedWindow(window: nat, packets: nat, packetSize: nat): nat {
    if packets == 0 && window > packetSize then Max(window * 2 / 3, packetSize) else packetSize
  }

  /** The congestion window after the timers. */
  function WindowThen(t: Tick, dead: bool, window: nat, packets: nat, packetSize: nat): nat {
    if t.timeout && !dead && !t.probeTimedOut then RestartedWindow(window, packets, packetSize) else window
  }

  /** The states in which the retransmission timer is looked at. */
  predicate Timed(state: ConnState) {
    state == SynSent || state == SynRecv || state == Connected || state == ConnectedFull
  }

  /** The states in which one more timeout ends the connection. */
  predicate GivenUp(state: ConnState, retransmitCount: nat) {
    Timed(state) && Exhausted(state, retransmitCount)
  }

  /** One timeout too many, for the state the connection is in. */
  predicate Exhausted(state: ConnState, retransmitCount: nat) {
    state == SynRecv || retransmitCount >= 4 || (state == SynSent && retransmitCount >= 2)
  }

  /** The outcomes of `ack_packet`: released before, never sent, or released now. */
  function AckStatus(o: Option<OutPkt>): int {
    if o.None? then 1 else if o.value.transmissions == 0 then 2 else 0
  }

  /** The number from which packets may be sent again, once an acknowledgement has come in. */
  function Advanced(fastResend: int, ackField: uint16): int {
    if Less16(fastResend, U16(ackField + 1)) then U16(ackField + 1) else fastResend
  }

  /** A round that finds room in the last packet uses it up, and any other starts one new packet for all. */
  predicate FilledFirst(room: nat, rest: nat, added: nat, packets: int) {
    if room > 0 then added == room && packets == 0 else added == rest && packets == 1
  }

  class UtpSocket {
    var state: ConnState
    // the next packet to send, and how many packets the window spans
    var seqNr: uint16
    var curWindowPackets: nat
    // bytes in flight
    var curWindow: nat
    // everything up to and including this arrived
    var ackNr: uint16
    var reorderCount: nat
    var gotFin: bool
    var gotFinReached: bool
    var eofPkt: uint16
    var finSent: bool
    var finSentAcked: bool
    var readShutdown: bool
    var closeRequested: bool
    // quota, as the estimators and the peer currently set it
    var maxWindow: nat
    var optSndbuf: nat
    var maxWindowUser: nat
    var packetSize: nat
    // retransmission
    var fastResendSeqNr: uint16
    var fastTimeout: bool
    var retransmitCount: nat

    const outbuf: SizableCircularBuffer<OutPkt>
    const inbuf: SizableCircularBuffer<seq<byte>>

    // outputs: datagrams handed to sendto, bytes posted to on_read, end-of-file notices
    var wire: seq<Wire>
    var posted: seq<byte>
    var eofs: nat

    // the unbounded numbers behind seqNr, ackNr and eofPkt, the history behind the window,
    // and the datagrams under those numbers
    ghost var isn: int
    ghost var ack: int
    ghost var eof: int
    ghost var hist: seq<Rec>
    ghost var sent: seq<Dgram>

    ghost predicate Shaped()
      reads this, outbuf, inbuf, outbuf.elements, inbuf.elements
    {
      (
        && outbuf.Valid() && inbuf.Valid()
        && (outbuf as object) != inbuf
        && (outbuf.elements as object) != inbuf.elements
        && outbuf.start == isn + |hist| - curWindowPackets
        && inbuf.start == ack + 1
        && WireOf(wire, sent)
      ) == true
    }

    ghost function Rcv(): Rcv
      reads this, inbuf
    {
      Receiver.Rcv(ack, inbuf.view, reorderCount, posted, readShutdown, gotFin, eof, gotFinReached, eofs)
    }

    /** The connection as a value. */
    ghost function Conn(): Conn
      reads this, inbuf, outbuf
    {
      Connection.Conn(state, seqNr, curWindowPackets, curWindow, ackNr, eofPkt, finSent, finSentAcked, closeRequested,
        isn, hist, sent, outbuf.view, Rcv())
    }

    ghost predicate Valid()
      reads this, inbuf, inbuf.elements, outbuf, outbuf.elements
    {
      Shaped() && ConnInv(Conn())
    }

    lemma ShapedStart()
      requires Shaped()
      ensures outbuf.start == Conn().Base()
    {
    }

    lemma ValidInv()
      requires Valid()
      ensures ConnInv(Conn())
    {
    }

    lemma ConnFields()
      ensures
        && Conn().state == state && Conn().wnd == curWindowPackets && Conn().finSentAcked == finSentAcked
        && Conn().isn == isn && Conn().hist == hist && Conn().Next() == isn + |hist|
    {
    }

    /** `get_packet_size` bounds the probe; the count test keeps one slot for the FIN. */
    function IsFull(bytes: int): (full: bool)
      reads this
      ensures
        var b := if bytes < 0 || bytes > packetSize then packetSize else bytes;
        !full <==>
          && curWindowPackets < OUTGOING_BUFFER_MAX_SIZE - 1
          && curWindow + b <= maxWindow && curWindow + b <= optSndbuf && curWindow + b <= maxWindowUser
    {
      var b := if bytes < 0 || bytes > packetSize then packetSize else bytes;
      curWindowPackets >= OUTGOING_BUFFER_MAX_SIZE - 1 || curWindow + b > Quota()
    }

    /** The bytes that may be in flight. */
    function Quota(): (quota: nat)
      reads this
      ensures quota <= maxWindow && quota <= optSndbuf && quota <= maxWindowUser
      ensures quota == maxWindow || quota == optSndbuf || quota == maxWindowUser
    {
      Min(Min(maxWindow, optSndbuf), maxWindowUser)
    }

    /** The test for one more packet with so many bytes in flight. */
    ghost predicate FullAt(window: nat)
      reads this
      ensures !FullAt(window) <==>
        && curWindowPackets < OUTGOING_BUFFER_MAX_SIZE - 1
        && window + packetSize <= maxWindow && window + packetSize <= optSndbuf && window + packetSize <= maxWindowUser
    {
      curWindowPackets >= OUTGOING_BUFFER_MAX_SIZE - 1 || window + packetSize > Quota()
    }

    /** Flushing c gets as far as slot n: each waiting packet before it found the quota not used up, and
        n is the end of the window or a waiting packet that found it used up. */
    ghost predicate FlushStops(c: Conn, n: nat)
      requires n <= c.wnd <= |c.ring|
      reads this
    {
      && (forall k :: 0 <= k < n && Waits(c, k) ==> !FullAt(WindowAfter(c, k, packetSize)))
      && (n < c.wnd ==> Waits(c, n) && FullAt(WindowAfter(c, n, packetSize)))
    }

    /** Nothing waits but a small newest packet, unless the quota is used up. */
    ghost predicate Drained()
      reads this, inbuf, outbuf
    {
      IsFull(-1) || forall k :: 0 <= k < curWindowPackets && k < |outbuf.view| ==> Settled(Conn(), k, packetSize)
    }

    /** `utp_create_socket`: nothing queued, nothing received, both rings 16 slots. */
    constructor (sndbuf: nat, mtuPayload: nat)
      ensures Valid() && fresh(outbuf) && fresh(inbuf) && fresh(outbuf.elements) && fresh(inbuf.elements)
      ensures state == Uninitialized && hist == [] && sent == [] && Fresh(Rcv()) && !readShutdown && !closeRequested
      ensures !finSent && !finSentAcked && retransmitCount == 0
    {
      state := Uninitialized;
      seqNr, curWindowPackets, curWindow := 1, 0, 0;
      ackNr, reorderCount := 0, 0;
      gotFin, gotFinReached, eofPkt := false, false, 0;
      finSent, finSentAcked, readShutdown, closeRequested := false, false, false, false;
      optSndbuf, maxWindowUser, maxWindow, packetSize := sndbuf, 255 * 1435, mtuPayload, mtuPayload;
      fastResendSeqNr, fastTimeout, retransmitCount := 1, false, 0;
      outbuf := new SizableCircularBuffer<OutPkt>(1);
      inbuf := new SizableCircularBuffer<seq<byte>>(1);
      wire, posted, eofs := [], [], 0;
      isn, ack, eof, hist, sent := 1, 0, 0, [], [];
      new;
      FreshConn(Conn());
    }

    /** The sendto callback: the 16-bit packet w leaves, on the record as the datagram d. */
    method SendTo(w: Wire, ghost d: Dgram)
      requires w == Encode(d)
      modifies this`sent, this`wire
      ensures sent == old(sent) + [d] && (old(WireOf(wire, sent)) ==> WireOf(wire, sent))
    {
      wire := wire + [w];
      sent := sent + [d];
    }

    /** A change of state is one of the connection's value. */
    method SetState(to: ConnState)
      requires Shaped()
      modifies this`state
      ensures Shaped() && state == to && Conn() == old(Conn()).(state := to)
      ensures (forall b: int :: IsFull(b) == old(IsFull(b))) && (old(Drained()) ==> Drained())
    {
      hide SizableCircularBuffer<OutPkt>.Valid, SizableCircularBuffer<seq<byte>>.Valid, WireOf;
      state := to;
      forall k | 0 <= k < |outbuf.view|
        ensures Settled(Conn(), k, packetSize) == old(Settled(Conn(), k, packetSize))
      {
      }
    }

    /** So is that the FIN was acknowledged. */
    method SetFlags(to: ConnState, acked: bool)
      requires Shaped()
      modifies this`state, this`finSentAcked
      ensures Shaped() && state == to && finSentAcked == acked
      ensures Conn() == old(Conn()).(state := to, finSentAcked := acked)
    {
      hide SizableCircularBuffer<OutPkt>.Valid, SizableCircularBuffer<seq<byte>>.Valid, WireOf;
      state, finSentAcked := to, acked;
    }

    /** The congestion window is no part of it. */
    method SetWindow(window: nat)
      requires Shaped()
      modifies this`maxWindow
      ensures Shaped() && maxWindow == window && Conn() == old(Conn())
    {
      hide SizableCircularBuffer<OutPkt>.Valid, SizableCircularBuffer<seq<byte>>.Valid, WireOf;
      maxWindow := window;
    }

    /** The packet in window position i counts as transmitted once more, and as in flight. */
    method MarkSent(ghost i: nat, slot: int) returns (pkt: OutPkt)
      requires Shaped() && i < curWindowPackets <= |outbuf.view| && outbuf.view[i].Some?
      requires Slot(outbuf.start + i, |outbuf.view|) == Slot(slot, |outbuf.view|)
      modifies this`curWindow, outbuf.elements, outbuf`view
      ensures Shaped() && pkt == Transmitted(old(outbuf.view)[i].value)
      ensures outbuf.view == old(outbuf.view)[i := Some(pkt)]
      ensures pkt.transmissions == old(outbuf.view)[i].value.transmissions + 1 && !pkt.needResend
      ensures curWindow == old(curWindow) + if Travelling(old(outbuf.view)[i]) then 0 else |pkt.payload|
    {
      hide SizableCircularBuffer<OutPkt>.Valid, SizableCircularBuffer<seq<byte>>.Valid, Slot, RingSize, WireOf;
      outbuf.GetSlot(outbuf.start + i, slot);
      pkt := outbuf.Get(slot).value;
      curWindow := if pkt.transmissions == 0 || pkt.needResend then curWindow + |pkt.payload| else curWindow;
      pkt := Transmitted(pkt);
      outbuf.Put(outbuf.start + i, slot, Some(pkt));
    }

    /** `send_packet`, on the packet in window position i, found through any number sharing its slot. */
    method SendPacket(ghost i: nat, slot: int)
      requires Shaped() && Sound(Conn()) && i < curWindowPackets && outbuf.view[i].Some?
      requires Slot(outbuf.start + i, |outbuf.view|) == Slot(slot, |outbuf.view|)
      modifies this`curWindow, this`sent, this`wire, outbuf.elements, outbuf`view
      ensures Shaped() && Conn() == SendAt(old(Conn()), i)
      ensures Sound(Conn())
      ensures
        var p := old(outbuf.view)[i].value;
        && sent == old(sent) + [Dgram(p.kind, outbuf.start + i, ack, None, p.payload)]
        && (p.transmissions == 0 || p.needResend ==> curWindow == old(curWindow) + |p.payload|)
        && (p.transmissions > 0 && !p.needResend ==> curWindow == old(curWindow))
    {
      hide Sound, SndStep, SizableCircularBuffer<OutPkt>.Valid, SizableCircularBuffer<seq<byte>>.Valid, Slot,
        RingSize, WireOf;
      SendAtSound(Conn(), i);
      ghost var p := outbuf.view[i].value;
      PacketNumber(Conn(), i);
      var pkt := MarkSent(i, slot);
      SendTo(Wire(pkt.kind, pkt.seqNr, ackNr, None, pkt.payload),
             Dgram(pkt.kind, outbuf.start + i, ack, None, pkt.payload));
    }

    /** One slot of `flush_packets`: sent if it is due, unless the quota has run out. */
    method FlushSlot(i: uint16, ghost c: Conn, ghost n: nat) returns (stop: bool)
      requires Shaped() && FlushingAt(c, Conn(), n, packetSize) && n < curWindowPackets && i == U16(outbuf.start + n)
      modifies this`curWindow, this`sent, this`wire, outbuf.elements, outbuf`view
      ensures Shaped() && (stop <==> Waits(c, n) && old(IsFull(-1))) && (stop ==> Conn() == old(Conn()))
      ensures sent != old(sent) ==> !old(IsFull(-1))
      ensures FlushingAt(c, Conn(), if stop then n else n + 1, packetSize)
      ensures sent != old(sent) ==>
        && curWindowPackets < OUTGOING_BUFFER_MAX_SIZE - 1 && old(curWindow) + packetSize <= maxWindow
        && old(curWindow) + packetSize <= optSndbuf && old(curWindow) + packetSize <= maxWindowUser
      ensures stop ==>
        || curWindowPackets >= OUTGOING_BUFFER_MAX_SIZE - 1 || curWindow + packetSize > maxWindow
        || curWindow + packetSize > optSndbuf || curWindow + packetSize > maxWindowUser
    {
      hide Sound, SndStep, FlushingAt, FlushedTo, SizableCircularBuffer<OutPkt>.Valid,
        SizableCircularBuffer<seq<byte>>.Valid,
        Slot, RingSize, U16, WireOf;
      stop := false;
      FlushLook(c, Conn(), n, packetSize);
      U16Distinct(outbuf.start + n, outbuf.start + curWindowPackets - 1);
      U16Add(outbuf.start + curWindowPackets, -1);
      U16Add(outbuf.start + n, 0);
      outbuf.GetAt(outbuf.start + n, i);
      var pkt := outbuf.Get(i);
      if pkt.None? || (pkt.value.transmissions > 0 && !pkt.value.needResend) {
        FlushSkip(c, Conn(), n, packetSize);
      } else if IsFull(-1) {
        stop := true;
      } else if i != U16(seqNr - 1) || curWindowPackets == 1 || |pkt.value.payload| >= packetSize {
        FlushSend(c, Conn(), n, packetSize);
        SendPacket(n, i);
      } else {
        FlushSkip(c, Conn(), n, packetSize);
      }
    }

    /** The loop of `flush_packets`. */
    method FlushLoop() returns (full: bool, ghost n: nat)
      requires Shaped() && Sound(Conn())
      modifies this`curWindow, this`sent, this`wire, outbuf.elements, outbuf`view
      ensures Shaped() && FlushingAt(old(Conn()), Conn(), n, packetSize) && full == (n < curWindowPackets)
      ensures old(FlushStops(Conn(), n)) && (full ==> IsFull(-1))
    {
      hide Sound, SndStep, FlushingAt, FlushedTo, WindowAfter, Waits, UtpSocket.FullAt, UtpSocket.Quota,
        SizableCircularBuffer<OutPkt>.Valid, SizableCircularBuffer<seq<byte>>.Valid, Slot, RingSize, U16, WireOf;
      ghost var c := Conn();
      n, full := 0, false;
      FlushStart(c, packetSize);
      U16Add(outbuf.start + curWindowPackets, -(curWindowPackets as int));
      var i: int := U16(seqNr - curWindowPackets);
      while i != seqNr && !full
        invariant Shaped() && FlushingAt(c, Conn(), n, packetSize) && i == U16(outbuf.start + n)
        invariant full ==> n < curWindowPackets && Waits(c, n) && FullAt(WindowAfter(c, n, packetSize))
        invariant forall k :: 0 <= k < n && Waits(c, k) ==> !FullAt(WindowAfter(c, k, packetSize))
        decreases curWindowPackets - n, !full
      {
        U16Add(outbuf.start + n, 1);
        full := FlushSlot(i, c, n);
        if !full {
          i := U16(i + 1);
          n := n + 1;
        }
      }
      U16Distinct(outbuf.start + n, outbuf.start + curWindowPackets);
    }

    /** `flush_packets`: send what waits, oldest first, until the quota runs out; the newest
        packet is held back while it is small and others are in flight. */
    method FlushPackets() returns (full: bool, ghost n: nat)
      requires Shaped() && Sound(Conn())
      modifies this`curWindow, this`sent, this`wire, outbuf.elements, outbuf`view
      ensures Shaped() && Sound(Conn())
      ensures Flushed(old(Conn()), Conn()) && SndStep(SndOf(old(Conn())), SndOf(Conn()), NoAck)
      ensures FlushedTo(old(Conn()), Conn(), n, packetSize)
      ensures old(FlushStops(Conn(), n)) && full == (n < curWindowPackets) && (full ==> IsFull(-1)) && Drained()
      ensures old(SmallWaiting(Conn(), packetSize)) ==>
        && curWindow <= Max(old(curWindow), maxWindow) && curWindow <= Max(old(curWindow), optSndbuf)
        && curWindow <= Max(old(curWindow), maxWindowUser)
      ensures full ==>
        || curWindowPackets >= OUTGOING_BUFFER_MAX_SIZE - 1 || curWindow + packetSize > maxWindow
        || curWindow + packetSize > optSndbuf || curWindow + packetSize > maxWindowUser
    {
      hide Sound, SndStep, FlushingAt, FlushedTo, WindowAfter, Settled, Waits, SmallWaiting, UtpSocket.FullAt,
        UtpSocket.IsFull, UtpSocket.Quota, UtpSocket.Shaped;
      ghost var c := Conn();
      full, n := FlushLoop();
      FlushEnd(c, Conn(), n, packetSize);
      if SmallWaiting(c, packetSize) { QuotaKept(c, n, packetSize, Quota()); }
    }

    /** `ack_packet` on window position i: 1 if it was released before, 2 if it was never sent, else release it. */
    method AckPacket(ghost i: nat, slot: int, ghost a: AckInfo) returns (status: int)
      requires Shaped() && Sound(Conn()) && i < curWindowPackets
      requires Slot(outbuf.start + i, |outbuf.view|) == Slot(slot, |outbuf.view|)
      requires Covers(a, outbuf.start + i)
      modifies this`curWindow, this`retransmitCount, outbuf.elements, outbuf`view
      ensures Shaped()
      ensures status == AckStatus(old(outbuf.view)[i])
      ensures status == 0 ==>
        (!old(outbuf.view)[i].value.needResend ==> |old(outbuf.view)[i].value.payload| <= old(curWindow))
      ensures Conn() == if status == 0 then FreeAt(old(Conn()), i) else old(Conn())
    {
      hide Sound, SndStep, SizableCircularBuffer<OutPkt>.Valid, SizableCircularBuffer<seq<byte>>.Valid, Slot,
        RingSize, U16, WireOf;
      outbuf.GetSlot(outbuf.start + i, slot);
      var pkt := outbuf.Get(slot);
      if pkt.None? {
        return 1;
      }
      if pkt.value.transmissions == 0 {
        return 2;
      }
      FreeAtSound(Conn(), i, a);
      outbuf.Put(outbuf.start + i, slot, None);
      curWindow := if !pkt.value.needResend then curWindow - |pkt.value.payload| else curWindow;
      retransmitCount := 0;
      return 0;
    }

    /** `cur_window_packets--`. */
    method PopFront()
      requires Shaped() && 0 < curWindowPackets <= |outbuf.view|
      modifies this`curWindowPackets, outbuf`start, outbuf`view
      ensures Shaped() && Conn() == Popped(old(Conn()))
    {
      hide SizableCircularBuffer<OutPkt>.Valid, SizableCircularBuffer<seq<byte>>.Valid, Slot, RingSize, U16, WireOf;
      outbuf.Advance();
      curWindowPackets := curWindowPackets - 1;
    }

    /** The loop that slides the window past packets released earlier by selective acks. */
    method SlidePastGaps(ghost c: Conn, ghost was: nat, ghost acks: nat, ghost a: AckInfo)
      requires Shaped() && AckingAt(c, Conn(), was, acks, a)
      requires was < acks ==> curWindowPackets > 0 && outbuf.view[0].Some? && outbuf.view[0].value.transmissions == 0
      modifies this`curWindowPackets, outbuf`start, outbuf`view
      ensures Shaped() && Sound(Conn())
      ensures AckedPrefix(c, Conn(), acks)
      ensures SndStep(SndOf(c), SndOf(Conn()), a)
      ensures ConnInv(c) ==> ConnInv(Conn())
    {
      hide Sound, SndStep, AckingAt, ConnInv, AckedPrefix,
        SizableCircularBuffer<OutPkt>.Valid, SizableCircularBuffer<seq<byte>>.Valid, Slot, RingSize, U16, WireOf;
      ghost var m: nat := was;
      while curWindowPackets > 0 && outbuf.Get(seqNr - curWindowPackets).None?
        invariant Shaped() && AckingAt(c, Conn(), m, acks, a)
        invariant m < acks ==> curWindowPackets > 0 && outbuf.view[0].Some? && outbuf.view[0].value.transmissions == 0
        decreases curWindowPackets
      {
        U16Add(outbuf.start + curWindowPackets, -(curWindowPackets as int));
        outbuf.GetAt(outbuf.start, seqNr - curWindowPackets);
        AckingPop(c, Conn(), m, acks, a);
        PopFront();
        m := m + 1;
      }
      if curWindowPackets > 0 {
        U16Add(outbuf.start + curWindowPackets, -(curWindowPackets as int));
        outbuf.GetAt(outbuf.start, seqNr - curWindowPackets);
      }
      AckingEnd(c, Conn(), m, acks, a);
    }

    /** The two loops that release acknowledged packets and slide the window to the next held one. */
    method ReleaseAcked(acks: nat, ghost a: AckInfo)
      requires Shaped() && Sound(Conn()) && acks <= curWindowPackets
      requires a.Acked? && (acks > 0 ==> outbuf.start + acks - 1 <= a.ack)
      modifies this`curWindow, this`retransmitCount, this`curWindowPackets, outbuf`start, outbuf`view, outbuf.elements
      ensures Shaped() && Sound(Conn())
      ensures AckedPrefix(old(Conn()), Conn(), acks)
      ensures SndStep(SndOf(old(Conn())), SndOf(Conn()), a)
      ensures ConnInv(old(Conn())) ==> ConnInv(Conn())
    {
      hide Sound, SndStep, AckingAt, ConnInv, AckedPrefix,
        SizableCircularBuffer<OutPkt>.Valid, SizableCircularBuffer<seq<byte>>.Valid, Slot, RingSize, U16, WireOf;
      ghost var c := Conn();
      AckingStart(c, acks, a);
      var i := 0;
      var unsent := false;
      while i < acks && !unsent
        invariant Shaped() && i <= acks && AckingAt(c, Conn(), i, acks, a)
        invariant unsent ==> curWindowPackets > 0 && outbuf.view[0].Some? && outbuf.view[0].value.transmissions == 0
        decreases acks - i, !unsent
      {
        ghost var d := Conn();
        U16Add(outbuf.start + curWindowPackets, -(curWindowPackets as int));
        SameSlot(outbuf.start, seqNr - curWindowPackets, |outbuf.view|);
        if d.ring[0].Some? && d.ring[0].value.transmissions > 0 {
          AckingFree(c, d, i, acks, a);
        } else if d.ring[0].None? {
          AckingPop(c, d, i, acks, a);
        }
        var status := AckPacket(0, seqNr - curWindowPackets, a);
        if status == 2 {
          unsent := true;
        } else {
          PopFront();
          i := i + 1;
        }
      }
      SlidePastGaps(c, i, acks, a);
    }

    /** A number goes on top of the stack; when that is full, the half that lies deeper is dropped. */
    method PushResend(resends: array<int>, nr: nat, v: int, ghost numbers: seq<int>, ghost q: int) returns (top: nat)
      requires resends.Length == MAX_EACK && nr <= MAX_EACK - 2 && OnTop(resends[..nr], numbers) && U16(v) == U16(q)
      modifies resends
      ensures top <= MAX_EACK - 2 && OnTop(resends[..top], numbers + [q])
    {
      hide OnTop, U16;
      top := nr;
      ghost var was := resends[..];
      if top >= MAX_EACK - 2 {
        forall j | 0 <= j < MAX_EACK / 2 { resends[j] := resends[MAX_EACK / 2 + j]; }
        top := top - MAX_EACK / 2;
        assert resends[..top] == was[..nr][MAX_EACK / 2..];
        OnTopDrop(was[..nr], numbers, MAX_EACK / 2);
      }
      OnTopPush(resends[..top], numbers, v, q);
      resends[top] := v;
      top := top + 1;
      assert resends[..top] == resends[..top - 1] + [v];
    }

    /** What a mask position does to the send buffer, and to the stack of packets to send again. */
    method DecodeBit(base: int, mask: seq<bool>, bits: int, count: nat, resends: array<int>, nr: nat,
                     ghost c: Conn, ghost a: AckInfo)
      returns (seen: nat, top: nat)
      requires Shaped() && SackingAt(c, Conn(), bits, a) && MaskMatches(c, a, base, mask) && -1 <= bits < |mask|
      requires curWindowPackets > 0 && count == SetAbove(c, a, bits)
      requires resends.Length == MAX_EACK && nr <= MAX_EACK - 2
      requires OnTop(resends[..nr], Missing(c, a, fastResendSeqNr, bits + 1))
      modifies this`curWindow, this`retransmitCount, outbuf`view, outbuf.elements, resends
      ensures Shaped() && SackingAt(c, Conn(), bits - 1, a)
      ensures bits >= 0 ==> seen == SetAbove(c, a, bits - 1)
      ensures bits == -1 ==> seen == count
      ensures top <= MAX_EACK - 2 && OnTop(resends[..top], Missing(c, a, fastResendSeqNr, bits))
    {
      hide Sound, SndStep, SackingAt, SackHit, OnTop, Missing, SetAbove, ToResend,
        SizableCircularBuffer<OutPkt>.Valid, SizableCircularBuffer<seq<byte>>.Valid, Slot, RingSize, U16, WireOf;
      seen, top := count, nr;
      var v := base + bits;
      ghost var d := Conn();
      ghost var k := MaskDistance(c, a, base, bits, v);
      MissingNext(c, a, fastResendSeqNr, bits);
      if U16(seqNr - v - 1) >= curWindowPackets - 1 {
        SackingSkip(c, d, bits, a);
      } else {
        var bitSet := bits >= 0 && mask[bits];
        seen := if bitSet then count + 1 else count;
        SackingLook(c, d, bits, a, k);
        outbuf.GetAt(outbuf.start + k, v);
        var pkt := outbuf.Get(v);
        if pkt.None? || pkt.value.transmissions == 0 {
          SackingSkip(c, d, bits, a);
        } else if bitSet {
          OldestApart(c, k, v);
          assert Slot(v, |outbuf.view|) != Slot(seqNr - curWindowPackets, |outbuf.view|);
          SackingFree(c, d, bits, a, k);
          var status := AckPacket(k, v, a);
        } else {
          SackingSkip(c, d, bits, a);
          U16Plus(v, a.ack + 2 + bits, -(fastResendSeqNr as int));
          if U16(v - fastResendSeqNr) <= OUTGOING_BUFFER_MAX_SIZE && count >= DUPLICATE_ACKS_BEFORE_RESEND {
            top := PushResend(resends, nr, v, Missing(c, a, fastResendSeqNr, bits + 1), a.ack + 2 + bits);
          }
        }
      }
    }

    /** The decoding loop of `selective_ack`: release what the mask denotes, newest first, and stack
        what to send again. The stack never overflows its 128 entries. */
    method DecodeMask(base: int, mask: seq<bool>, ghost a: AckInfo) returns (resends: array<int>, nr: nat)
      requires Shaped() && Sound(Conn()) && curWindowPackets > 0
      requires MaskMatches(Conn(), a, base, mask)
      modifies this`curWindow, this`retransmitCount, outbuf`view, outbuf.elements
      ensures Shaped() && fresh(resends) && nr < resends.Length == MAX_EACK
      ensures SackingAt(old(Conn()), Conn(), -2, a)
      ensures OnTop(resends[..nr], AllMissing(old(Conn()), a, fastResendSeqNr))
    {
      hide Sound, SndStep, SackingAt, SackHit, OnTop, Missing, AllMissing, SetAbove, ToResend, U16, UtpSocket.Shaped;
      ghost var c := Conn();
      resends, nr := new int[MAX_EACK], 0;
      var count: nat := 0;
      SackingStart(c, a);
      NothingMissing(c, a, fastResendSeqNr, resends[..0]);
      var bits: int := |mask| - 1;
      while bits >= -1
        invariant Shaped() && -2 <= bits < |mask| && SackingAt(c, Conn(), bits, a)
        invariant fresh(resends) && resends.Length == MAX_EACK && nr <= MAX_EACK - 2
        invariant count == SetAbove(c, a, Max(bits, -1))
        invariant OnTop(resends[..nr], Missing(c, a, fastResendSeqNr, bits + 1))
      {
        count, nr := DecodeBit(base, mask, bits, count, resends, nr, c, a);
        bits := bits - 1;
      }
      U16Plus(base, a.ack + 2, -1);
      U16Plus(base - 1, a.ack + 1, -(fastResendSeqNr as int));
      U16Add(base - 1, 0);
      AllMissingIs(c, a, fastResendSeqNr);
      if U16(base - 1 - fastResendSeqNr) <= OUTGOING_BUFFER_MAX_SIZE && count >= DUPLICATE_ACKS_BEFORE_RESEND {
        OnTopPush(resends[..nr], Missing(c, a, fastResendSeqNr, -1), U16(base - 1), a.ack + 1);
        resends[nr] := U16(base - 1);
        nr := nr + 1;
        assert resends[..nr] == resends[..nr - 1] + [U16(base - 1)];
      }
    }

    /** The packet in the slot of one entry goes out again, if there is one: an entry may be stale, and
        whatever the ring holds in its slot is a window packet. */
    method ResendOne(v: int, ghost c: Conn, ghost n: nat) returns (found: bool)
      requires Shaped() && Sound(Conn()) && Retransmitted(c, Conn(), n) && outbuf.start == c.Base() && c.ring != []
      modifies this`curWindow, this`sent, this`wire, this`fastResendSeqNr, outbuf`view, outbuf.elements
      ensures Shaped() && Retransmitted(c, Conn(), if found then n + 1 else n)
      ensures old(Conn()).ring != [] && sent == old(sent) + SlotLog(old(Conn()), v)
      ensures found == (SlotLog(old(Conn()), v) != [])
      ensures fastResendSeqNr == if found then U16(v + 1) else old(fastResendSeqNr)
    {
      hide Sound, SndStep, Retransmitted,
        SizableCircularBuffer<OutPkt>.Valid, SizableCircularBuffer<seq<byte>>.Valid, Slot, RingSize, U16, WireOf;
      ghost var k := outbuf.GetAnywhere(v);
      found := outbuf.Get(v).Some?;
      if found {
        FoundInWindow(Conn(), k);
        RetransmitAt(c, Conn(), n, k);
        SendPacket(k, v);
        fastResendSeqNr := U16(v + 1);
      }
    }

    /** Resend from the top of the stack, four packets at most. */
    method ResendTop(resends: array<int>, top: nat) returns (backOff: bool)
      requires Shaped() && Sound(Conn()) && top <= resends.Length
      modifies this`curWindow, this`sent, this`wire, this`fastResendSeqNr, outbuf`view, outbuf.elements
      ensures Shaped() && |old(sent)| <= |sent| <= |old(sent)| + 4 && old(Conn()).ring != []
      ensures sent == old(sent) + TopLog(old(Conn()), resends[..top], 4)
      ensures Retransmitted(old(Conn()), Conn(), |sent| - |old(sent)|)
      ensures backOff <==> |sent| > |old(sent)|
    {
      hide Sound, SndStep, Retransmitted, TopLog, SlotLog, Slot, UtpSocket.Shaped;
      ghost var c, log := Conn(), [];
      RetransmittedNone(c);
      SoundSizes(c);
      ShapedStart();
      var nr: nat, i: nat := top, 0;
      while nr > 0 && i < 4
        invariant Shaped() && nr <= top && i <= 4 && |log| == i && sent == c.sent + log
        invariant Retransmitted(c, Conn(), i) && outbuf.start == c.Base()
        invariant log + TopLog(c, resends[..nr], 4 - i) == TopLog(c, resends[..top], 4)
      {
        nr := nr - 1;
        assert resends[..nr + 1] == resends[..nr] + [resends[nr]];
        TopLogStep(c, Conn(), i, resends[..nr], resends[nr], 4 - i, log);
        log := log + SlotLog(Conn(), resends[nr]);
        var found := ResendOne(resends[nr], c, i);
        if found {
          i := i + 1;
        }
      }
      TopLogNone(c, resends[..nr], 4 - i);
      backOff := i > 0;
    }

    /** `selective_ack`. Halving the window on loss is rate limited; `mayDecay` is the clock's verdict. */
    method SelectiveAck(base: int, mask: seq<bool>, mayDecay: bool, ghost a: AckInfo)
      returns (ghost d: Conn, ghost stack: seq<int>)
      requires Valid() && MaskMatches(Conn(), a, base, mask)
      modifies this`curWindow, this`retransmitCount, this`sent, this`wire, this`fastResendSeqNr, this`maxWindow,
        outbuf`view, outbuf.elements
      ensures Valid() && Sacked(old(Conn()), Conn(), a)
      ensures SndStep(SndOf(old(Conn())), SndOf(Conn()), a)
      ensures curWindowPackets > 0 ==>
        && SackingAt(old(Conn()), d, -2, a) && d.ring != [] && sent == old(sent) + TopLog(d, stack, 4)
        && OnTop(stack, AllMissing(old(Conn()), a, old(fastResendSeqNr)))
      ensures curWindowPackets == 0 ==> Conn() == old(Conn())
      ensures maxWindow == if mayDecay && |sent| > |old(sent)| then Max(old(maxWindow) / 2, 10) else old(maxWindow)
    {
      hide ConnInv, Sound, SndStep, SackingAt, Sacked, Retransmitted, OnTop, TopLog, AllMissing,
        SizableCircularBuffer<OutPkt>.Valid, SizableCircularBuffer<seq<byte>>.Valid, Slot, RingSize, U16, WireOf,
        UtpSocket.Shaped;
      ghost var c := Conn();
      d, stack := c, [];
      if curWindowPackets == 0 {
        SackedNothing(c, a);
        return;
      }
      var resends, nr := DecodeMask(base, mask, a);
      d, stack := Conn(), resends[..nr];
      var backOff := ResendTop(resends, nr);
      SackedWhole(c, d, Conn(), a, |sent| - |d.sent|);
      if backOff && mayDecay {
        SetWindow(Max(maxWindow / 2, 10));
      }
    }

    /** The packet after the acknowledged one has not been received: the source's own assert. */
    lemma NextNotReceived(ackField: uint16, a: int)
      requires Shaped() && RcvInv(Rcv()) && !gotFinReached && ackField == U16(a) && ack - 1 <= a <= ack
      ensures inbuf.Get(ackField + 1).None?
    {
      hide SizableCircularBuffer<OutPkt>.Valid, SizableCircularBuffer<seq<byte>>.Valid, Slot, RingSize, U16, WireOf,
        Occupied;
      U16Add(a, 1);
      if a == ack {
        inbuf.GetAt(inbuf.start, ackField + 1);
      } else {
        inbuf.GetBefore(ackField + 1);
      }
    }

    /** The mask of `send_ack`, built for the acknowledgement number `a` (the current one, or one less
        for a keep-alive). With 16 slots the scan runs past the ring; it only meets empty slots there. */
    method BuildMask(ackField: uint16, ghost a: int) returns (mask: seq<bool>)
      requires Shaped() && RcvInv(Rcv()) && !gotFinReached
      requires ackField == U16(a) && ack - 1 <= a <= ack
      ensures MaskOf(Rcv(), a, mask)
    {
      hide SizableCircularBuffer<OutPkt>.Valid, SizableCircularBuffer<seq<byte>>.Valid, Slot, RingSize, U16, WireOf,
        MaskPrefix, Occupied;
      RingSizes(|inbuf.view|);
      mask := [];
      var window := Min(14 + 16, inbuf.elements.Length);
      var i := 0;
      MaskNothing(Rcv(), a);
      while i < window
        invariant 0 <= i <= window && MaskPrefix(Rcv(), a, mask, i)
      {
        U16Add(a, i + 2);
        if a + 2 + i < inbuf.start + |inbuf.view| {
          inbuf.GetAt(a + 2 + i, ackField + i + 2);
        } else {
          inbuf.GetWrapped(ackField + i + 2);
        }
        var bit := inbuf.Get(ackField + i + 2).Some?;
        MaskGrow(Rcv(), a, mask, i, bit);
        mask := mask + [bit];
        i := i + 1;
      }
      while i < 32
        invariant window <= i <= 32 && MaskPrefix(Rcv(), a, mask, i)
      {
        MaskGrow(Rcv(), a, mask, i, false);
        mask := mask + [false];
        i := i + 1;
      }
      MaskDone(Rcv(), a, mask);
    }

    /** `send_ack`, with `ackField` for the acknowledgement number. */
    method EmitAck(ackField: uint16, ghost a: int) returns (mask: Option<seq<bool>>)
      requires Shaped() && Sound(Conn()) && !Dialling(Conn())
      requires ackField == U16(a) && ack - 1 <= a <= ack
      requires reorderCount != 0 && !gotFinReached ==> RcvInv(Rcv())
      modifies this`sent, this`wire
      ensures Shaped() && Sound(Conn())
      ensures mask.Some? <==> reorderCount != 0 && !gotFinReached
      ensures mask.Some? ==> MaskOf(Rcv(), a, mask.value)
      ensures sent == old(sent) + [Dgram(State, isn + |hist|, a, mask, [])]
      ensures Conn() == old(Conn()).(sent := sent)
    {
      hide Sound, RcvInv, MaskOf, SizableCircularBuffer<OutPkt>.Valid, SizableCircularBuffer<seq<byte>>.Valid,
        RingSize, U16, WireOf;
      mask := None;
      if reorderCount != 0 && !gotFinReached {
        NextNotReceived(ackField, a);
        assert inbuf.Get(ackField + 1).None?;
        var m := BuildMask(ackField, a);
        mask := Some(m);
      }
      AckSentSound(Conn(), a, mask);
      SendTo(Wire(State, seqNr, ackField, mask, []), Dgram(State, isn + |hist|, a, mask, []));
    }

    method SendAck() returns (mask: Option<seq<bool>>)
      requires Valid() && !Dialling(Conn())
      modifies this`sent, this`wire
      ensures Valid()
      ensures Conn() == AckSent(old(Conn()), ack, mask)
      ensures (mask.Some? <==> reorderCount != 0 && !gotFinReached) && (mask.Some? ==> MaskOf(Rcv(), ack, mask.value))
    {
      hide ConnInv, Sound, RcvInv, MaskOf, SizableCircularBuffer<OutPkt>.Valid,
        SizableCircularBuffer<seq<byte>>.Valid, RingSize, U16, WireOf;
      ghost var c := Conn();
      mask := EmitAck(ackNr, ack);
      AckSentInv(c, ack, mask);
    }

    /** `send_keep_alive`: acknowledge one packet less, so that the peer answers. */
    method SendKeepAlive() returns (mask: Option<seq<bool>>)
      requires Valid() && !Dialling(Conn())
      modifies this`sent, this`wire
      ensures Valid()
      ensures Conn() == AckSent(old(Conn()), ack - 1, mask)
      ensures
        && (mask.Some? <==> reorderCount != 0 && !gotFinReached)
        && (mask.Some? ==> MaskOf(Rcv(), ack - 1, mask.value))
    {
      hide ConnInv, Sound, RcvInv, MaskOf, SizableCircularBuffer<OutPkt>.Valid,
        SizableCircularBuffer<seq<byte>>.Valid, RingSize, U16, WireOf;
      ghost var c := Conn();
      U16Add(ack, -1);
      mask := EmitAck(U16(ackNr - 1), ack - 1);
      AckSentInv(c, ack - 1, mask);
    }

    /** The ring has room for a new packet, and the packet is in its slot. */
    method PutNew(p: OutPkt)
      requires Shaped() && curWindowPackets < 1024 && curWindowPackets <= |outbuf.view| && seqNr == U16(isn + |hist|)
      modifies outbuf`elements, outbuf`view, outbuf.elements
      ensures Shaped() && (outbuf.elements == old(outbuf.elements) || fresh(outbuf.elements))
      ensures
        && old(outbuf.view) != []
        && outbuf.view == Padded(old(outbuf.view), curWindowPackets)[curWindowPackets := Some(p)]
    {
      hide SizableCircularBuffer<seq<byte>>.Valid, SizableCircularBuffer<OutPkt>.Valid, Slot, RingSize, U16, WireOf,
        GrownSize;
      ghost var next := isn + |hist|;
      U16Add(next, -(curWindowPackets as int));
      U16Add(next, 0);
      outbuf.EnsureSize(seqNr, curWindowPackets);
      SameSlot(next, seqNr, |outbuf.view|);
      outbuf.Put(next, seqNr, Some(p));
    }

    method AppendPacket(kind: Kind, payload: seq<byte>)
      requires Shaped() && Sound(Conn()) && curWindowPackets < 1024
      modifies this`seqNr, this`curWindowPackets, this`hist, outbuf`elements, outbuf`view, outbuf.elements
      ensures Shaped() && (outbuf.elements == old(outbuf.elements) || fresh(outbuf.elements))
      ensures Conn() == Appended(old(Conn()), OutPkt(kind, old(seqNr), payload, 0, false))
    {
      hide Sound, SizableCircularBuffer<OutPkt>.Valid, SizableCircularBuffer<seq<byte>>.Valid, Slot, RingSize, U16,
        WireOf;
      PutNew(OutPkt(kind, seqNr, payload, 0, false));
      hist := hist + [Rec(kind, payload)];
      seqNr := U16(seqNr + 1);
      curWindowPackets := curWindowPackets + 1;
    }

    method ExtendLast(more: seq<byte>)
      requires Shaped() && Sound(Conn()) && curWindowPackets > 0 && outbuf.view[curWindowPackets - 1].Some?
      modifies this`hist, outbuf`view, outbuf.elements
      ensures Shaped() && Conn() == Extended(old(Conn()), more)
    {
      hide Sound, SizableCircularBuffer<OutPkt>.Valid, SizableCircularBuffer<seq<byte>>.Valid, Slot, RingSize, U16,
        WireOf;
      ghost var last := isn + |hist| - 1;
      U16Add(last + 1, -1);
      outbuf.GetAt(last, seqNr - 1);
      var p := outbuf.Get(seqNr - 1).value;
      outbuf.Put(last, seqNr - 1, Some(p.(kind := Data, payload := p.payload + more)));
      hist := hist[|hist| - 1 := Rec(Data, p.payload + more)];
    }

    /** How many of `rest` bytes still fit into the last packet: none if it was sent, or is full. */
    function Room(rest: nat): (room: nat)
      requires outbuf.elements.Length > 0
      reads this, outbuf, outbuf.elements
      ensures room <= rest
    {
      if rest > 0 && curWindowPackets > 0 && outbuf.Get(seqNr - 1).Some?
        && outbuf.Get(seqNr - 1).value.transmissions == 0 && |outbuf.Get(seqNr - 1).value.payload| < packetSize
      then
        var filled := |outbuf.Get(seqNr - 1).value.payload|;
        Min(rest + filled, Max(packetSize, filled)) - filled
      else 0
    }

    lemma RoomIsOpen(rest: nat)
      requires Shaped() && Sound(Conn()) && Room(rest) > 0
      ensures curWindowPackets > 0 && Open(SndOf(Conn()))
    {
      U16Add(isn + |hist|, -1);
      outbuf.GetAt(isn + |hist| - 1, seqNr - 1);
    }

    /** The last packet is filled up to the packet size exactly when it was never transmitted. */
    lemma RoomIs(rest: nat)
      requires Shaped() && Sound(Conn())
      ensures Room(rest) > 0 ==> curWindowPackets > 0
      ensures curWindowPackets > 0 && outbuf.view[curWindowPackets - 1].Some? ==>
        var p := outbuf.view[curWindowPackets - 1].value;
        && (p.transmissions > 0 ==> Room(rest) == 0)
        && (p.transmissions == 0 && |p.payload| >= packetSize ==> Room(rest) == 0)
        && (p.transmissions == 0 && |p.payload| + rest <= packetSize ==> Room(rest) == rest)
        && (p.transmissions == 0 && |p.payload| < packetSize < |p.payload| + rest ==>
              Room(rest) == packetSize - |p.payload|)
      ensures curWindowPackets > 0 && outbuf.view[curWindowPackets - 1].None? ==> Room(rest) == 0
    {
      hide Sound, SizableCircularBuffer<OutPkt>.Valid, SizableCircularBuffer<seq<byte>>.Valid, Slot, RingSize, U16,
        WireOf;
      U16Add(isn + |hist|, -1);
      if curWindowPackets > 0 {
        outbuf.GetAt(isn + |hist| - 1, seqNr - 1);
      }
    }

    /** One round of `write_outgoing_packet`: fill up the last packet if it was not sent yet, otherwise
        put everything into one new packet. */
    method QueueRound(rest: nat, flags: Kind, iovec: array<seq<byte>>, ghost c: Conn, ghost done: seq<byte>)
      returns (added: nat)
      requires Shaped() && Wrote(c, Conn(), done, flags) && !Dialling(c)
      requires curWindowPackets == c.wnd < (if finSent then 1024 else 1023)
      requires !LastIs(hist, Fin)
      requires flags == Data || (flags == Fin && rest == 0)
      requires rest <= |Flat(iovec[..])|
      requires iovec as object != outbuf.elements && iovec as object != inbuf.elements
      modifies this`seqNr, this`curWindowPackets, this`hist, outbuf`elements, outbuf`view, outbuf.elements, iovec
      ensures Shaped() && (outbuf.elements == old(outbuf.elements) || fresh(outbuf.elements))
      ensures added <= rest && Flat(iovec[..]) == old(Flat(iovec[..]))[added..]
      ensures Wrote(c, Conn(), done + old(Flat(iovec[..]))[..added], flags)
      ensures flags == Fin ==> LastIs(hist, Fin)
      ensures added < rest ==> added > 0 && curWindowPackets == old(curWindowPackets) && !LastIs(hist, Fin)
      ensures FilledFirst(old(Room(rest)), rest, added, curWindowPackets - old(curWindowPackets))
    {
      hide Sound, SndStep, Wrote, SizableCircularBuffer<OutPkt>.Valid, SizableCircularBuffer<seq<byte>>.Valid, Slot,
        RingSize, U16, WireOf, Flat, Bytes;
      var room := Room(rest);
      if room > 0 {
        RoomIsOpen(rest);
        var data := Gather(iovec, room);
        WroteExtend(c, Conn(), done, data);
        ExtendLast(data);
        added := room;
      } else {
        var data := Gather(iovec, rest);
        WroteAppend(c, Conn(), done, OutPkt(flags, seqNr, data, 0, false), flags);
        AppendPacket(flags, data);
        added := rest;
      }
    }

    /** Where nothing waits, or the quota is used up: in terms of the packets and the three bounds. */
    lemma DrainedMeans(k: nat)
      requires Drained() && k < curWindowPackets && k < |outbuf.view| && outbuf.view[k].Some?
      ensures var p := outbuf.view[k].value;
        || (p.transmissions > 0 && !p.needResend) || (0 < k == curWindowPackets - 1 && |p.payload| < packetSize)
        || curWindowPackets >= 1023 || curWindow + packetSize > maxWindow
        || curWindow + packetSize > optSndbuf || curWindow + packetSize > maxWindowUser
    {
      if !IsFull(-1) {
        assert Settled(Conn(), k, packetSize);
      }
    }

    /** The queueing loop of `write_outgoing_packet`; it never runs more than two rounds. */
    method QueuePayload(payload: nat, flags: Kind, iovec: array<seq<byte>>)
      requires Shaped() && Sound(Conn()) && !Dialling(Conn())
      requires curWindowPackets < (if finSent then OUTGOING_BUFFER_MAX_SIZE else OUTGOING_BUFFER_MAX_SIZE - 1)
      requires !LastIs(hist, Fin)
      requires flags == Data || (flags == Fin && payload == 0)
      requires payload <= |Flat(iovec[..])|
      requires iovec as object != outbuf.elements && iovec as object != inbuf.elements
      modifies this`seqNr, this`curWindowPackets, this`hist, outbuf`elements, outbuf`view, outbuf.elements, iovec
      ensures Shaped() && (outbuf.elements == old(outbuf.elements) || fresh(outbuf.elements))
      ensures Flat(iovec[..]) == old(Flat(iovec[..]))[payload..]
      ensures Wrote(old(Conn()), Conn(), old(Flat(iovec[..]))[..payload], flags)
      ensures flags == Fin ==> LastIs(hist, Fin)
    {
      hide Sound, SndStep, Wrote, SizableCircularBuffer<OutPkt>.Valid, SizableCircularBuffer<seq<byte>>.Valid,
        Slot, RingSize, U16, WireOf, Flat, Bytes, LastIs, FilledFirst,
        UtpSocket.Room;
      ghost var c, all := Conn(), Flat(iovec[..]);
      assert c.wnd == curWindowPackets && c.state == state && c.finSent == finSent && !Dialling(c);
      hide UtpSocket.Conn, UtpSocket.Shaped, Dialling;
      WroteNothing(c, flags);
      var sofar, more := 0, true;
      assert all[..0] == [] && all[0..] == all;
      while more
        invariant Shaped() && (outbuf.elements == old(outbuf.elements) || fresh(outbuf.elements))
        invariant 0 <= sofar <= payload && Flat(iovec[..]) == all[sofar..]
        invariant Wrote(c, Conn(), all[..sofar], flags)
        invariant more ==> curWindowPackets == c.wnd && !LastIs(hist, Fin)
        invariant !more ==> sofar == payload && (flags == Fin ==> LastIs(hist, Fin))
        decreases payload - sofar, more
      {
        var added := QueueRound(payload - sofar, flags, iovec, c, all[..sofar]);
        SliceFurther(all, sofar, added);
        sofar := sofar + added;
        more := sofar < payload;
      }
    }

    /** `write_outgoing_packet`: queue `payload` bytes (or a FIN), then flush. */
    method WriteOutgoingPacket(payload: nat, flags: Kind, iovec: array<seq<byte>>)
      requires Shaped() && Sound(Conn()) && !Dialling(Conn())
      requires curWindowPackets < (if finSent then OUTGOING_BUFFER_MAX_SIZE else OUTGOING_BUFFER_MAX_SIZE - 1)
      requires !LastIs(hist, Fin)
      requires flags == Data || (flags == Fin && payload == 0)
      requires payload <= |Flat(iovec[..])|
      requires iovec as object != outbuf.elements && iovec as object != inbuf.elements
      modifies this`seqNr, this`curWindowPackets, this`curWindow, this`hist, this`sent, this`wire, outbuf`elements,
        outbuf`view, outbuf.elements, iovec
      ensures Shaped() && (outbuf.elements == old(outbuf.elements) || fresh(outbuf.elements))
      ensures Flat(iovec[..]) == old(Flat(iovec[..]))[payload..]
      ensures Wrote(old(Conn()), Conn(), old(Flat(iovec[..]))[..payload], flags)
      ensures flags == Fin ==> LastIs(hist, Fin)
      ensures Drained()
    {
      hide Sound, SndStep, Wrote, Flushed, SizableCircularBuffer<OutPkt>.Valid, SizableCircularBuffer<seq<byte>>.Valid,
        Slot, RingSize, U16, WireOf, Flat, Bytes, Settled, UtpSocket.Drained, UtpSocket.FlushStops, FlushedTo,
        SmallWaiting;
      ghost var c, bytes := Conn(), Flat(iovec[..])[..payload];
      QueuePayload(payload, flags, iovec);
      ghost var d := Conn();
      var full; ghost var n;
      full, n := FlushPackets();
      WroteFlush(c, d, Conn(), bytes, flags);
    }

    /** One packet's worth of a write. */
    method WriteRound(iovec: array<seq<byte>>, num: nat, ghost c: Conn, ghost bytes: seq<byte>)
      requires Shaped() && Written(c, Conn(), bytes) && !c.finSent && state == Connected && !finSent
      requires num <= |Flat(iovec[..])| && !IsFull(num)
      requires iovec as object != outbuf.elements && iovec as object != inbuf.elements
      modifies this`seqNr, this`curWindowPackets, this`curWindow, this`hist, this`sent, this`wire, outbuf`elements,
        outbuf`view, outbuf.elements, iovec
      ensures Shaped() && (outbuf.elements == old(outbuf.elements) || fresh(outbuf.elements))
      ensures Flat(iovec[..]) == old(Flat(iovec[..]))[num..]
      ensures Written(c, Conn(), bytes + old(Flat(iovec[..]))[..num]) && Drained()
    {
      hide ConnInv, Sound, SndStep, Wrote, Written, SizableCircularBuffer<OutPkt>.Valid,
        SizableCircularBuffer<seq<byte>>.Valid,
        Slot, RingSize, U16, WireOf, Flat, Bytes, LastIs, UtpSocket.Rcv, UtpSocket.Drained;
      ghost var d, data := Conn(), Flat(iovec[..])[..num];
      ReadyToWrite(d);
      WriteOutgoingPacket(num, Data, iovec);
      WrittenMore(c, d, Conn(), bytes, data);
    }

    /** The sending loop of `utp_writev` over the copied vector: returns how many bytes were taken and
        whether the quota stopped it. */
    method WriteLoop(iovec: array<seq<byte>>, total: nat) returns (taken: nat, stopped: bool)
      requires Valid() && state == Connected && !finSent && total == |Flat(iovec[..])|
      requires iovec as object != outbuf.elements && iovec as object != inbuf.elements
      modifies this`seqNr, this`curWindowPackets, this`curWindow, this`hist, this`sent, this`wire, outbuf`elements,
        outbuf`view, outbuf.elements, iovec
      ensures Valid() && (outbuf.elements == old(outbuf.elements) || fresh(outbuf.elements))
      ensures taken <= total && Written(old(Conn()), Conn(), old(Flat(iovec[..]))[..taken])
      ensures !stopped ==> taken == total || packetSize == 0
      ensures stopped ==> IsFull(Min(total - taken, packetSize))
      ensures if old(IsFull(Min(total, packetSize))) then taken == 0 && Conn() == old(Conn()) else Drained()
      ensures stopped ==>
        var next := Min(total - taken, packetSize);
        || curWindowPackets >= OUTGOING_BUFFER_MAX_SIZE - 1 || curWindow + next > maxWindow
        || curWindow + next > optSndbuf || curWindow + next > maxWindowUser
      ensures taken > 0 ==>
        var first := Min(total, packetSize);
        && old(curWindowPackets) < OUTGOING_BUFFER_MAX_SIZE - 1 && old(curWindow) + first <= maxWindow
        && old(curWindow) + first <= optSndbuf && old(curWindow) + first <= maxWindowUser
    {
      hide ConnInv, Sound, SndStep, Wrote, Written, SizableCircularBuffer<OutPkt>.Valid,
        SizableCircularBuffer<seq<byte>>.Valid,
        Slot, RingSize, U16, WireOf, Flat, Bytes, LastIs, UtpSocket.Rcv, UtpSocket.IsFull, UtpSocket.Drained;
      ghost var c, all := Conn(), Flat(iovec[..]);
      WrittenNothing(c);
      assert !c.finSent;
      hide UtpSocket.Conn;
      taken, stopped := 0, false;
      var num := Min(total, packetSize);
      assert all[..0] == [];
      while !IsFull(num)
        invariant Shaped() && (outbuf.elements == old(outbuf.elements) || fresh(outbuf.elements))
        invariant 0 <= taken <= total && Flat(iovec[..]) == all[taken..]
        invariant Written(c, Conn(), all[..taken])
        invariant num == Min(total - taken, packetSize) && (taken > 0 ==> num > 0)
        invariant
          || (taken == 0 && Conn() == c && IsFull(num) == old(IsFull(Min(total, packetSize))))
          || (Drained() && !old(IsFull(Min(total, packetSize))))
        decreases total - taken
      {
        WriteRound(iovec, num, c, all[..taken]);
        SliceFurther(all, taken, num);
        taken := taken + num;
        num := Min(total - taken, packetSize);
        if num == 0 {
          return;
        }
      }
      stopped := true;
    }

    /** `utp_writev` after the vector has been copied and counted. */
    method WriteVector(iovec: array<seq<byte>>, total: nat) returns (taken: nat)
      requires Valid() && total == |Flat(iovec[..])|
      requires iovec as object != outbuf.elements && iovec as object != inbuf.elements
      modifies this`state, this`seqNr, this`curWindowPackets, this`curWindow, this`hist, this`sent, this`wire,
        outbuf`elements, outbuf`view, outbuf.elements, iovec
      ensures Valid() && (outbuf.elements == old(outbuf.elements) || fresh(outbuf.elements))
      ensures old(state) != Connected || finSent ==> taken == 0 && Conn() == old(Conn())
      ensures taken <= total && Written(old(Conn()), Conn(), old(Flat(iovec[..]))[..taken])
      ensures old(state) == Connected && !finSent ==>
        taken == total || packetSize == 0 || IsFull(Min(total - taken, packetSize))
      ensures old(state) == Connected && !finSent && !old(IsFull(Min(total, packetSize))) ==> Drained()
      ensures state == old(state) || (old(state) == Connected && state == ConnectedFull && IsFull(-1))
    {
      hide ConnInv, Sound, SndStep, Written, SizableCircularBuffer<OutPkt>.Valid,
        SizableCircularBuffer<seq<byte>>.Valid,
        Slot, RingSize, U16, WireOf, Flat, Bytes, UtpSocket.Shaped, UtpSocket.IsFull, UtpSocket.Drained;
      ghost var c, all := Conn(), Flat(iovec[..]);
      taken := 0;
      if state != Connected || finSent {
        WrittenNothing(c);
        assert all[..0] == [];
      } else {
        var stopped;
        taken, stopped := WriteLoop(iovec, total);
        if stopped && IsFull(-1) {
          WrittenState(c, Conn(), all[..taken], ConnectedFull);
          SetState(ConnectedFull);
        }
      }
    }

    /** `utp_writev`: -1 without vectors, 0 when not writable, else the number of bytes taken, which are
        exactly the first ones offered. */
    method Writev(input: seq<seq<byte>>) returns (result: int)
      requires Valid()
      modifies this`state, this`seqNr, this`curWindowPackets, this`curWindow, this`hist, this`sent, this`wire,
        outbuf`elements, outbuf`view, outbuf.elements
      ensures Valid() && (outbuf.elements == old(outbuf.elements) || fresh(outbuf.elements))
      ensures input == [] ==> result == -1 && Conn() == old(Conn())
      ensures input != [] && (old(state) != Connected || finSent) ==> result == 0 && Conn() == old(Conn())
      ensures input != [] ==> 0 <= result <= |Flat(Offered(input))|
      ensures Written(old(Conn()), Conn(), Flat(Offered(input))[..Max(result, 0)])
      ensures input != [] && old(state) == Connected && !finSent ==>
        var total := |Flat(Offered(input))|;
        && (result == total || packetSize == 0 || IsFull(Min(total - result, packetSize)))
        && (!old(IsFull(Min(total, packetSize))) ==> Drained())
      ensures state == old(state) || (old(state) == Connected && state == ConnectedFull && IsFull(-1))
      ensures 0 < |input| <= 1024 ==>
        && 0 <= result <= |Flat(input)| && Bytes(hist) == old(Bytes(hist)) + Flat(input)[..result]
        && (old(state) == Connected && !old(finSent) ==>
              || result == |Flat(input)| || packetSize == 0
              || IsFull(Min(|Flat(input)| - result, packetSize)))
      ensures |input| > 1024 ==>
        && 0 <= result <= |Flat(input[..1024])| && Bytes(hist) == old(Bytes(hist)) + Flat(input[..1024])[..result]
        && (old(state) == Connected && !old(finSent) ==>
              || result == |Flat(input[..1024])| || packetSize == 0
              || IsFull(Min(|Flat(input[..1024])| - result, packetSize)))
    {
      hide ConnInv, Sound, SndStep, Written, SizableCircularBuffer<OutPkt>.Valid,
        SizableCircularBuffer<seq<byte>>.Valid,
        Slot, RingSize, U16, WireOf, Flat, Bytes, UtpSocket.IsFull, UtpSocket.Drained;
      if |input| == 0 {
        WrittenNothing(Conn());
        assert Flat(Offered(input))[..0] == [];
        return -1;
      }
      var iovec := CopyVector(input);
      var total := Total(iovec);
      result := WriteVector(iovec, total);
    }

    /** The packet waiting at ack + 1 leaves the ring, and counts as received. */
    method PopReordered() returns (p: Option<seq<byte>>)
      requires Shaped() && Sound(Conn()) && inbuf.view[0].Some?
      modifies this`ackNr, this`ack, inbuf`start, inbuf`view, inbuf.elements
      ensures Shaped() && p == old(inbuf.view)[0] && inbuf.view == old(inbuf.view)[1..] + [None]
      ensures ack == old(ack) + 1 && ackNr == U16(old(ackNr) + 1)
    {
      hide Sound, SizableCircularBuffer<OutPkt>.Valid, SizableCircularBuffer<seq<byte>>.Valid, Slot, RingSize, U16,
        WireOf;
      U16Add(ack, 1);
      p := inbuf.TakeFirst(ackNr + 1);
      ackNr := U16(ackNr + 1);
      ack := ack + 1;
    }

    /** Post the packet waiting at ack + 1. */
    method TakeReordered()
      requires Shaped() && Sound(Conn()) && reorderCount > 0 && inbuf.view[0].Some?
      modifies this`ackNr, this`ack, this`reorderCount, this`posted, inbuf`start, inbuf`view, inbuf.elements
      ensures Shaped() && reorderCount == old(reorderCount) - 1
      ensures Rcv() == TakeNext(old(Rcv())) && ackNr == U16(old(ackNr) + 1)
      ensures Conn() == old(Conn()).(rcv := Rcv(), ackNr := ackNr)
    {
      hide Sound, SizableCircularBuffer<OutPkt>.Valid, SizableCircularBuffer<seq<byte>>.Valid, Slot, RingSize, U16,
        WireOf;
      var p := PopReordered();
      posted := if readShutdown then posted else posted + p.value;
      reorderCount := reorderCount - 1;
    }

    /** The end of the stream is noted and notified. */
    method NotifyEof()
      requires Shaped()
      modifies this`gotFinReached, this`eofs
      ensures Shaped() && gotFinReached && eofs == old(eofs) + 1
      ensures Conn() == old(Conn()).(rcv := old(Rcv()).(reached := true, eofs := old(eofs) + 1))
    {
      hide SizableCircularBuffer<OutPkt>.Valid, SizableCircularBuffer<seq<byte>>.Valid, WireOf;
      gotFinReached := true;
      eofs := eofs + 1;
    }

    method ClearReordered()
      requires Shaped()
      modifies this`reorderCount
      ensures Shaped() && reorderCount == 0 && Conn() == old(Conn()).(rcv := old(Rcv()).(count := 0))
    {
      hide SizableCircularBuffer<OutPkt>.Valid, SizableCircularBuffer<seq<byte>>.Valid, WireOf;
      reorderCount := 0;
    }

    /** Everything up to the FIN has been posted: tell the application once, and acknowledge. */
    method ReachEof()
      requires Shaped() && Sound(Conn()) && !Dialling(Conn()) && !gotFinReached
      requires Sound(Conn().(rcv := Rcv().(reached := true, eofs := eofs + 1)))
      modifies this`reorderCount, this`gotFinReached, this`eofs, this`sent, this`wire
      ensures Shaped() && reorderCount == 0
      ensures Rcv() == old(Rcv()).(reached := true, eofs := old(eofs) + 1, count := 0)
      ensures sent == old(sent) + [Dgram(State, isn + |hist|, ack, None, [])]
      ensures Conn() == old(Conn()).(rcv := Rcv(), sent := sent)
    {
      hide Sound, RcvInv, MaskOf, SizableCircularBuffer<OutPkt>.Valid, SizableCircularBuffer<seq<byte>>.Valid, Slot,
        RingSize, U16, WireOf, UtpSocket.Shaped;
      NotifyEof();
      var mask := EmitAck(ackNr, ack);
      ClearReordered();
    }

    /** The test for the end of the stream at the head of the draining loop. */
    method TestEof(ghost c: Conn, ghost end: Rcv)
      requires Shaped() && DrainingAt(c, Conn(), end)
      modifies this`reorderCount, this`gotFinReached, this`eofs, this`sent, this`wire
      ensures Shaped() && DrainingAt(c, Conn(), end) && AtEof(Rcv()) == Rcv() && reorderCount <= old(reorderCount)
    {
      hide ConnInv, Sound, DrainingAt, OnlyReceived, MaskOf, Drain, DrainInv, TakeNext, AtEof, Turned, Post,
        SizableCircularBuffer<OutPkt>.Valid, SizableCircularBuffer<seq<byte>>.Valid, Slot, RingSize, U16, WireOf;
      EofTest(Conn());
      if !gotFinReached && gotFin && eofPkt == ackNr {
        DrainEof(c, Conn(), end);
        ReachEof();
      }
    }

    /** The draining loop after an in-order packet, with the end-of-file notice and its acknowledgement. */
    method DrainReordered(ghost c: Conn, ghost end: Rcv)
      requires Shaped() && DrainingAt(c, Conn(), end)
      modifies this`ackNr, this`ack, this`reorderCount, this`gotFinReached, this`posted, this`eofs, this`sent,
        this`wire,
        inbuf`start, inbuf`view, inbuf.elements
      ensures Shaped() && ConnInv(Conn()) && Rcv() == end && OnlyReceived(c, Conn())
    {
      hide ConnInv, Sound, DrainingAt, OnlyReceived, MaskOf, Drain, DrainInv, TakeNext, AtEof, Turned, Post,
        SizableCircularBuffer<OutPkt>.Valid, SizableCircularBuffer<seq<byte>>.Valid, Slot, RingSize, U16, WireOf;
      while true
        invariant Shaped() && DrainingAt(c, Conn(), end)
        decreases reorderCount
      {
        TestEof(c, end);
        U16Add(ack, 1);
        inbuf.GetAt(ack + 1, ackNr + 1);
        if reorderCount == 0 || inbuf.Get(ackNr + 1).None? {
          DrainDone(c, Conn(), end);
          return;
        }
        DrainTake(c, Conn(), end);
        TakeReordered();
      }
    }

    /** Put an early packet into its slot, unless it is there already. */
    method KeepEarly(pkSeq: uint16, off: nat, payload: seq<byte>) returns (stored: bool)
      requires Shaped() && 0 < off < |inbuf.view| && U16(pkSeq) == U16(ack + 1 + off)
      modifies this`reorderCount, inbuf`view, inbuf.elements
      ensures Shaped() && stored == old(inbuf.view)[off].None?
      ensures reorderCount == old(reorderCount) + (if stored then 1 else 0)
      ensures inbuf.view == if stored then old(inbuf.view)[off := Some(payload)] else old(inbuf.view)
    {
      hide SizableCircularBuffer<OutPkt>.Valid, SizableCircularBuffer<seq<byte>>.Valid, Slot, RingSize, U16, WireOf;
      SameSlot(ack + 1 + off, pkSeq, |inbuf.view|);
      inbuf.GetAt(ack + 1 + off, pkSeq);
      stored := inbuf.Get(pkSeq).None?;
      if stored {
        inbuf.Put(ack + 1 + off, pkSeq, Some(payload));
        reorderCount := reorderCount + 1;
      }
    }

    /** Keep a packet that is `off` places early, unless it lies past the FIN or is there already. */
    method StoreReordered(pkSeq: uint16, off: nat, payload: seq<byte>) returns (stored: bool)
      requires Shaped() && Sound(Conn()) && 0 < off < 1024 && pkSeq == U16(ack + 1 + off)
      modifies this`reorderCount, inbuf`elements, inbuf`view, inbuf.elements
      ensures Shaped() && (inbuf.elements == old(inbuf.elements) || fresh(inbuf.elements))
      ensures Rcv() == OutOfOrder(old(Rcv()), off, payload)
      ensures Conn() == old(Conn()).(rcv := Rcv())
      ensures stored <==> reorderCount == old(reorderCount) + 1
    {
      hide Sound, OutOfOrder, GrownSize, SizableCircularBuffer<OutPkt>.Valid, SizableCircularBuffer<seq<byte>>.Valid,
        Slot, RingSize, U16, WireOf;
      ghost var r := Rcv();
      if gotFin && pkSeq > eofPkt {
        OutOfOrderPastFin(r, off, payload);
        return false;
      }
      U16Add(ack + 1 + off, -(off as int));
      U16Add(ack + 1 + off, 0);
      inbuf.EnsureSize(pkSeq + 1, off + 1);
      OutOfOrderCases(r, off, payload, inbuf.view);
      stored := KeepEarly(pkSeq, off, payload);
    }

    /** Post the packet that was expected. */
    method PostNext(payload: seq<byte>)
      requires Shaped()
      modifies this`posted, this`ackNr, this`ack, inbuf`start, inbuf`view
      ensures Shaped() && ackNr == U16(old(ackNr) + 1)
      ensures Rcv() == old(Rcv()).(ack := old(ack) + 1, pend := Turned(old(inbuf.view), old(inbuf.view)[0]),
                                   posted := Post(old(Rcv()), payload))
      ensures Conn() == old(Conn()).(rcv := Rcv(), ackNr := ackNr)
    {
      hide SizableCircularBuffer<OutPkt>.Valid, SizableCircularBuffer<seq<byte>>.Valid, Slot, RingSize, U16, WireOf;
      posted := if readShutdown then posted else posted + payload;
      ackNr := U16(ackNr + 1);
      ack := ack + 1;
      inbuf.Advance();
    }

    /** The first FIN seen fixes where the stream ends. */
    method NoteFinPacket(pkSeq: uint16, off: nat)
      requires Shaped()
      modifies this`gotFin, this`eofPkt, this`eof
      ensures Shaped() && Conn() == FinNoted(old(Conn()), off, pkSeq)
    {
      hide SizableCircularBuffer<OutPkt>.Valid, SizableCircularBuffer<seq<byte>>.Valid;
      gotFin, eofPkt, eof := true, pkSeq, ack + 1 + off;
    }

    /** The expected packet: post it, and then whatever it was holding up. */
    method ReceiveNext(ghost c: Conn, payload: seq<byte>)
      requires Shaped() && ConnInv(c) && !Dialling(c)
      requires Conn() == c || (!c.rcv.gotFin && Conn() == FinNoted(c, 0, U16(c.rcv.ack + 1)))
      modifies this`ackNr, this`ack, this`reorderCount, this`gotFinReached, this`posted, this`eofs, this`sent,
        this`wire,
        inbuf`start, inbuf`view, inbuf.elements
      ensures Shaped() && ConnInv(Conn()) && OnlyReceived(c, Conn())
      ensures Rcv() == InOrder(old(Rcv()), payload)
    {
      hide ConnInv, Sound, DrainingAt, OnlyReceived, Drain, RcvInv, Turned, Post, InOrder,
        SizableCircularBuffer<OutPkt>.Valid, SizableCircularBuffer<seq<byte>>.Valid, Slot, RingSize, U16, WireOf;
      ghost var f := Conn();
      InOrderStarts(c, f, payload);
      PostNext(payload);
      DrainReordered(c, InOrder(f.rcv, payload));
    }

    /** A packet that is early: keep it if it belongs to the stream. */
    method ReceiveEarly(ghost c: Conn, pkSeq: uint16, off: nat, payload: seq<byte>)
      requires Shaped() && ConnInv(c) && !Dialling(c) && 0 < off < 1024 && pkSeq == U16(ack + 1 + off)
      requires Conn() == c || (!c.rcv.gotFin && Conn() == FinNoted(c, off, U16(c.rcv.ack + 1 + off)))
      modifies this`reorderCount, inbuf`elements, inbuf`view, inbuf.elements
      ensures
        && Shaped() && ConnInv(Conn()) && OnlyReceived(c, Conn())
        && (inbuf.elements == old(inbuf.elements) || fresh(inbuf.elements))
      ensures Rcv() == OutOfOrder(old(Rcv()), off, payload)
    {
      hide ConnInv, Sound, OnlyReceived, RcvInv, OutOfOrder,
        SizableCircularBuffer<OutPkt>.Valid, SizableCircularBuffer<seq<byte>>.Valid, Slot, RingSize, U16, WireOf;
      OutOfOrderInv(c, Conn(), off, payload);
      var stored := StoreReordered(pkSeq, off, payload);
    }

    /** A data or FIN packet `off` places past the expected one. */
    method ReceiveData(pkSeq: uint16, off: nat, fin: bool, payload: seq<byte>)
      requires Valid() && !Dialling(Conn()) && off < 1024 && pkSeq == U16(ack + 1 + off)
      modifies this`gotFin, this`eofPkt, this`eof, this`ackNr, this`ack, this`reorderCount, this`gotFinReached,
        this`posted,
        this`eofs, this`sent, this`wire, inbuf`elements, inbuf`start, inbuf`view, inbuf.elements
      ensures Valid() && (inbuf.elements == old(inbuf.elements) || fresh(inbuf.elements))
      ensures Rcv() == Arrive(old(Rcv()), off, fin, payload)
      ensures !old(gotFinReached) ==> TookIn(old(Rcv()), old(ack) + 1 + off, fin, payload, Rcv())
      ensures OnlyReceived(old(Conn()), Conn())
    {
      hide ConnInv, Sound, OnlyReceived, InOrder, OutOfOrder, RcvInv, TookIn,
        SizableCircularBuffer<OutPkt>.Valid, SizableCircularBuffer<seq<byte>>.Valid, Slot, RingSize, U16, WireOf;
      ghost var c := Conn();
      if !gotFinReached { ArriveTookIn(c.rcv, off, fin, payload); }
      if fin && !gotFin {
        NoteFinPacket(pkSeq, off);
      }
      if off == 0 {
        ReceiveNext(c, payload);
      } else {
        ReceiveEarly(c, pkSeq, off, payload);
      }
    }

    /** A lone packet that Nagle's rule held back goes out once it is alone. */
    method FlushNagle(ghost a: AckInfo)
      requires Valid()
      modifies this`curWindow, this`sent, this`wire, outbuf.elements, outbuf`view
      ensures Shaped() && Evolved(old(Conn()), Conn(), a, [])
      ensures LoneSent(Conn())
    {
      hide Sound, SndStep, Evolved, Retransmitted, SizableCircularBuffer<OutPkt>.Valid,
        SizableCircularBuffer<seq<byte>>.Valid,
        Slot, RingSize, U16, WireOf, RcvInv, FinLast;
      ghost var c := Conn();
      EvolvedRefl(c, a);
      if curWindowPackets == 1 {
        U16Add(outbuf.start + 1, -1);
        outbuf.GetAt(outbuf.start, seqNr - 1);
        if outbuf.Get(seqNr - 1).value.transmissions == 0 {
          RetransmittedNone(c);
          RetransmitAt(c, c, 0, 0);
          EvolvedRetransmitted(c, SendAt(c, 0), 1, a);
          SendPacket(0, seqNr - 1);
        }
      }
    }

    /** `send_packet` on the oldest packet of the window. */
    method SendOldest(ghost a: AckInfo)
      requires Valid() && curWindowPackets > 0 && outbuf.view[0].Some?
      modifies this`curWindow, this`sent, this`wire, outbuf.elements, outbuf`view
      ensures Shaped() && Evolved(old(Conn()), Conn(), a, []) && Conn() == SendAt(old(Conn()), 0)
      ensures OldestSent(Conn()) && OldestResent(Conn())
    {
      hide ConnInv, Sound, Evolved, Retransmitted, SizableCircularBuffer<OutPkt>.Valid,
        SizableCircularBuffer<seq<byte>>.Valid, Slot, RingSize, U16, WireOf;
      ghost var c := Conn();
      U16Add(outbuf.start + curWindowPackets, -(curWindowPackets as int));
      SoundSizes(c);
      SameSlot(outbuf.start, seqNr - curWindowPackets, |outbuf.view|);
      RetransmittedNone(c);
      RetransmitAt(c, c, 0, 0);
      EvolvedRetransmitted(c, SendAt(c, 0), 1, a);
      SendPacket(0, seqNr - curWindowPackets);
    }

    /** The oldest packet goes out again, if it was transmitted before. */
    method RetryOldest(ghost a: AckInfo)
      requires Valid()
      modifies this`curWindow, this`sent, this`wire, this`fastResendSeqNr, outbuf.elements, outbuf`view
      ensures Shaped() && Evolved(old(Conn()), Conn(), a, [])
      ensures OldestSent(Conn()) == old(OldestSent(Conn())) && (OldestSent(Conn()) ==> OldestResent(Conn()))
      ensures if old(OldestSent(Conn()))
        then Conn() == SendAt(old(Conn()), 0) && fastResendSeqNr == U16(old(fastResendSeqNr) + 1)
        else Conn() == old(Conn()) && fastResendSeqNr == old(fastResendSeqNr)
    {
      hide ConnInv, Sound, SndStep, Evolved, Retransmitted, SizableCircularBuffer<OutPkt>.Valid,
        SizableCircularBuffer<seq<byte>>.Valid,
        Slot, RingSize, U16, WireOf;
      ghost var c := Conn();
      EvolvedRefl(c, a);
      U16Add(outbuf.start + curWindowPackets, -(curWindowPackets as int));
      outbuf.GetAt(outbuf.start, seqNr - curWindowPackets);
      var pkt := outbuf.Get(seqNr - curWindowPackets);
      if pkt.Some? && pkt.value.transmissions > 0 {
        FoundInWindow(c, 0);
        fastResendSeqNr := U16(fastResendSeqNr + 1);
        SendOldest(a);
      }
    }

    /** After a timeout, resend the oldest packet at once as soon as acknowledgements move again. */
    method FastTimeoutRetry(ghost a: AckInfo)
      requires Valid()
      modifies this`curWindow, this`sent, this`wire, this`fastTimeout, this`fastResendSeqNr, outbuf.elements,
        outbuf`view
      ensures Shaped() && Evolved(old(Conn()), Conn(), a, [])
      ensures fastTimeout == (old(fastTimeout) && U16(seqNr - curWindowPackets) == old(fastResendSeqNr))
      ensures if fastTimeout && old(OldestSent(Conn()))
        then Conn() == SendAt(old(Conn()), 0) && fastResendSeqNr == U16(old(fastResendSeqNr) + 1)
        else Conn() == old(Conn()) && fastResendSeqNr == old(fastResendSeqNr)
      ensures RetriedOldest(Conn(), old(fastTimeout), old(fastResendSeqNr), fastTimeout, fastResendSeqNr)
    {
      hide ConnInv, Evolved, OldestSent, U16, SendAt, OldestResent, WireOf,
        SizableCircularBuffer<OutPkt>.Valid, SizableCircularBuffer<seq<byte>>.Valid;
      EvolvedRefl(Conn(), a);
      if fastTimeout {
        if U16(seqNr - curWindowPackets) != fastResendSeqNr {
          fastTimeout := false;
        } else {
          RetryOldest(a);
        }
      }
    }

    /** The connection request was answered: connected, and the application, told so, may write at once. */
    method CompleteConnect(reenter: Option<seq<seq<byte>>>, ghost a: AckInfo) returns (ghost bytes: seq<byte>)
      requires Valid() && state == SynSent
      modifies this`state, this`seqNr, this`curWindowPackets, this`curWindow, this`hist, this`sent, this`wire,
        outbuf`elements, outbuf`view, outbuf.elements
      ensures Shaped() && (outbuf.elements == old(outbuf.elements) || fresh(outbuf.elements))
      ensures
        && Evolved(old(Conn()), Conn(), a, bytes) && old(curWindowPackets) <= curWindowPackets
        && outbuf.start == old(outbuf.start)
      ensures |hist| <= |old(hist)| + 1024
      ensures Reentered(reenter, bytes) && (reenter.None? ==> Conn() == old(Conn()).(state := Connected))
      ensures state == Connected || (state == ConnectedFull && IsFull(-1))
      ensures reenter.Some? && reenter.value != [] && !finSent ==>
        var all := |Flat(Offered(reenter.value))|;
        |bytes| == all || packetSize == 0 || IsFull(Min(all - |bytes|, packetSize))
    {
      hide ConnInv, Sound, SndStep, Evolved, Written, SizableCircularBuffer<OutPkt>.Valid,
        SizableCircularBuffer<seq<byte>>.Valid,
        Slot, RingSize, U16, WireOf, Flat, Bytes, UtpSocket.IsFull, UtpSocket.Shaped, UtpSocket.Drained;
      ghost var c := Conn();
      bytes := [];
      EvolvedFlags(c, a, Connected, finSentAcked);
      SetState(Connected);
      if reenter.Some? {
        ghost var d := Conn();
        var result := Writev(reenter.value);
        bytes := Flat(Offered(reenter.value))[..Max(result, 0)];
        EvolvedWritten(d, Conn(), a, bytes);
        EvolvedTransitive(c, d, Conn(), a, [], bytes);
        assert [] + bytes == bytes;
      }
    }

    /** The other transitions: the first data packet completes an accepted connection, and an
        acknowledgement of everything after the FIN was sent ends a closed one. */
    method NoteProgress(kind: Kind, acks: nat, ghost a: AckInfo)
      requires Valid() && acks <= curWindowPackets && !(kind == State && state == SynSent)
      modifies this`state, this`finSentAcked
      ensures Shaped() && Evolved(old(Conn()), Conn(), a, [])
      ensures Conn() == old(Conn()).(state := state, finSentAcked := finSentAcked)
      ensures finSentAcked == (old(finSentAcked) || (finSent && curWindowPackets == acks))
      ensures finSent && curWindowPackets == acks && closeRequested ==> state == Destroy
      ensures !(finSent && curWindowPackets == acks && closeRequested) ==>
        state == if old(state) == SynRecv && kind == Data then Connected else old(state)
      ensures state == TransitionedState(old(state), kind, finSent && curWindowPackets == acks && closeRequested)
    {
      hide ConnInv, Sound, SndStep, Evolved, SizableCircularBuffer<OutPkt>.Valid,
        SizableCircularBuffer<seq<byte>>.Valid,
        Slot, RingSize, U16, WireOf, UtpSocket.Shaped;
      var s := if kind == Data && state == SynRecv then Connected else state;
      var done := finSent && curWindowPackets == acks;
      var t := if done && closeRequested then Destroy else s;
      EvolvedFlags(Conn(), a, t, finSentAcked || done);
      SetFlags(t, finSentAcked || done);
    }

    /** Release what was acknowledged; a packet that is then alone is sent. */
    method ReleaseAndFlush(acks: nat, ghost a: AckInfo)
      requires Valid() && acks <= curWindowPackets && a.Acked? && (acks > 0 ==> outbuf.start + acks - 1 <= a.ack)
      modifies this`curWindowPackets, this`curWindow, this`sent, this`wire, this`retransmitCount,
        outbuf`start, outbuf`view, outbuf.elements
      ensures Shaped() && Evolved(old(Conn()), Conn(), a, []) && LoneSent(Conn())
      ensures a.ack < old(outbuf.start) + acks ==> Cleared(old(Conn()), Conn(), a)
    {
      hide ConnInv, Sound, SndStep, Evolved, AckedPrefix, Cleared, LoneSent, UtpSocket.Shaped, Slot, RingSize, U16,
        WireOf, Bytes;
      ghost var c := Conn();
      ShapedStart();
      ReleaseAcked(acks, a);
      ghost var d := Conn();
      FlushNagle(a);
      ReleasedThen(c, d, Conn(), acks, a);
    }

    /** And after a timeout the oldest packet is sent again. */
    method ReleaseAndRetry(acks: nat, ghost a: AckInfo)
      requires Valid() && acks <= curWindowPackets && a.Acked? && (acks > 0 ==> outbuf.start + acks - 1 <= a.ack)
      modifies this`curWindowPackets, this`curWindow, this`sent, this`wire, this`fastResendSeqNr, this`fastTimeout,
        this`retransmitCount,
        outbuf`start, outbuf`view, outbuf.elements
      ensures Shaped() && Evolved(old(Conn()), Conn(), a, []) && LoneSent(Conn())
      ensures a.ack < old(outbuf.start) + acks ==> Cleared(old(Conn()), Conn(), a)
      ensures RetriedOldest(Conn(), old(fastTimeout), old(fastResendSeqNr), fastTimeout, fastResendSeqNr)
      ensures fastTimeout == (old(fastTimeout) && U16(seqNr - curWindowPackets) == old(fastResendSeqNr))
    {
      hide ConnInv, Sound, SndStep, Evolved, AckedPrefix, Cleared, LoneSent, RetriedOldest, OldestSent,
        UtpSocket.Shaped, Slot, RingSize, U16, WireOf, Bytes, SendAt;
      ghost var c := Conn();
      ReleaseAndFlush(acks, a);
      ghost var d := Conn();
      FastTimeoutRetry(a);
      RetriedThen(c, d, Conn(), a);
    }

    method AdvanceFastResend(ackField: uint16)
      requires Shaped()
      modifies this`fastResendSeqNr
      ensures Shaped() && Conn() == old(Conn())
      ensures fastResendSeqNr == Advanced(old(fastResendSeqNr), ackField)
      ensures fastResendSeqNr == old(fastResendSeqNr) || fastResendSeqNr == U16(ackField + 1)
      ensures fastResendSeqNr == U16(ackField + 1) || !Less16(old(fastResendSeqNr), U16(ackField + 1))
    {
      hide SizableCircularBuffer<OutPkt>.Valid, SizableCircularBuffer<seq<byte>>.Valid, WireOf, U16;
      if Less16(fastResendSeqNr, U16(ackField + 1)) {
        fastResendSeqNr := U16(ackField + 1);
      }
    }

    /** The answer to our connection request. */
    method HandleConnectAck(ackField: uint16, acks: nat, reenter: Option<seq<seq<byte>>>, ghost a: AckInfo)
      returns (ghost bytes: seq<byte>)
      requires
        && Valid() && acks <= curWindowPackets && a.Acked? && (acks > 0 ==> outbuf.start + acks - 1 <= a.ack)
        && state == SynSent
      modifies this`state, this`seqNr, this`curWindowPackets, this`curWindow, this`hist, this`sent, this`wire,
        this`fastResendSeqNr, this`fastTimeout, this`retransmitCount,
        outbuf`elements, outbuf`start, outbuf`view, outbuf.elements
      ensures Shaped() && (outbuf.elements == old(outbuf.elements) || fresh(outbuf.elements))
      ensures Evolved(old(Conn()), Conn(), a, bytes) && LoneSent(Conn())
      ensures a.ack < old(outbuf.start) + acks ==> Cleared(old(Conn()), Conn(), a)
      ensures Reentered(reenter, bytes)
      ensures |old(hist)| <= |hist| <= |old(hist)| + 1024
      ensures state == Connected || state == ConnectedFull
      ensures
        var from := Advanced(old(fastResendSeqNr), ackField);
        RetriedOldest(Conn(), old(fastTimeout), from, fastTimeout, fastResendSeqNr)
    {
      hide ConnInv, Sound, SndStep, Evolved, Cleared, LoneSent, UtpSocket.Shaped, RetriedOldest,
        UtpSocket.Rcv, Slot, RingSize, U16, WireOf, Less16, Bytes, IsFull, Reentered, Advanced, OldestSent;
      ghost var c := Conn();
      ShapedStart();
      bytes := CompleteConnect(reenter, a);
      AdvanceFastResend(ackField);
      ghost var d := Conn();
      ShapedStart();
      ReleaseAndRetry(acks, a);
      ClearedEvolved(c, d, Conn(), a, bytes);
    }

    /** Everything any other acceptable packet does to the sending half short of its selective-ack mask. */
    method HandleAcks(kind: Kind, ackField: uint16, acks: nat, ghost a: AckInfo)
      requires Valid() && acks <= curWindowPackets && a.Acked? && (acks > 0 ==> outbuf.start + acks - 1 <= a.ack)
      requires !(state == SynSent && kind == State)
      modifies this`state, this`finSentAcked, this`curWindowPackets, this`curWindow, this`sent, this`wire,
        this`fastResendSeqNr, this`fastTimeout, this`retransmitCount, outbuf`start, outbuf`view, outbuf.elements
      ensures Shaped() && Evolved(old(Conn()), Conn(), a, []) && LoneSent(Conn())
      ensures a.ack < old(outbuf.start) + acks ==> Cleared(old(Conn()), Conn(), a)
      ensures finSentAcked == (old(finSentAcked) || (finSent && old(curWindowPackets) == acks))
      ensures state == TransitionedState(old(state), kind, finSent && old(curWindowPackets) == acks && closeRequested)
      ensures
        var from := Advanced(old(fastResendSeqNr), ackField);
        RetriedOldest(Conn(), old(fastTimeout), from, fastTimeout, fastResendSeqNr)
    {
      hide ConnInv, Sound, SndStep, Evolved, Cleared, LoneSent, UtpSocket.Shaped, RetriedOldest,
        UtpSocket.Rcv, Slot, RingSize, U16, WireOf, Less16, Bytes, TransitionedState, Advanced, OldestSent;
      ghost var c := Conn();
      ShapedStart();
      NoteProgress(kind, acks, a);
      AdvanceFastResend(ackField);
      ghost var d := Conn();
      ShapedStart();
      ReleaseAndRetry(acks, a);
      ClearedEvolved(c, d, Conn(), a, []);
    }

    /** The acknowledgement number of a packet from our peer must be no newer than what we sent and not
        too far behind the window. */
    function AcceptsAck(ackField: uint16): bool
      reads this
    {
      var curr := Max(curWindowPackets + ACK_NR_ALLOWED_WINDOW, ACK_NR_ALLOWED_WINDOW);
      !Less16(seqNr - 1, ackField) && !Less16(ackField, seqNr - 1 - curr)
    }

    /** In the middle of the handshake the peer's number is whatever its packet says. */
    method AdoptPeerNumber(pkSeq: uint16)
      requires Valid() && state == SynSent
      modifies this`ackNr, this`ack, inbuf`start
      ensures Shaped() && Conn() == Adopted(old(Conn()), pkSeq - 1)
    {
      hide SizableCircularBuffer<OutPkt>.Valid, SizableCircularBuffer<seq<byte>>.Valid, RcvInv, Linked, FinLast,
        RingSize, U16, WireOf;
      ackNr := U16(pkSeq - 1);
      ack := pkSeq - 1;
      inbuf.Recentre(pkSeq);
    }

    /** How many packets are acknowledged, on 16-bit numbers; none by an old acknowledgement. */
    function CountAcks(ackField: uint16): int
      reads this
    {
      var acks := U16(ackField - (seqNr - 1 - curWindowPackets));
      if acks > curWindowPackets then 0 else acks
    }

    /** Apply the mask, if the packet carries one. */
    method SackPhase(w: Wire, mayDecay: bool, ghost c: Conn)
      requires Valid() && Sound(c) && AckDistance(c, w) <= c.wnd + 3 && (w.sack.Some? ==> |w.sack.value| <= 2040)
      requires isn == c.isn && |c.hist| <= |hist| <= |c.hist| + 1024
      modifies this`curWindow, this`retransmitCount, this`sent, this`wire, this`fastResendSeqNr, this`maxWindow,
        outbuf`view, outbuf.elements
      ensures Shaped() && Evolved(old(Conn()), Conn(), InfoOf(c, w), [])
      ensures MaskCleared(old(Conn()), Conn(), InfoOf(c, w))
      ensures Conn() == old(Conn()).(curWindow := Conn().curWindow, ring := Conn().ring, sent := Conn().sent)
      ensures if w.sack.Some? then MaskResent(old(Conn()), Conn(), InfoOf(c, w), old(fastResendSeqNr))
        else Conn() == old(Conn())
    {
      hide ConnInv, Sound, SndStep, Evolved, Sacked, MaskMatches, MaskCleared, MaskResent, SackingAt, OnTop, TopLog,
        AllMissing, SizableCircularBuffer<OutPkt>.Valid,
        SizableCircularBuffer<seq<byte>>.Valid,
        Slot, RingSize, U16, WireOf, Bytes;
      ghost var d, a := Conn(), InfoOf(c, w);
      EvolvedRefl(d, a);
      if w.sack.None? { NoMask(d, a); }
      if w.sack.Some? {
        MaskPlaced(c, d, w);
        ghost var fastResend := fastResendSeqNr;
        ghost var m, stack := SelectiveAck(w.ackNr + 2, w.sack.value, mayDecay, a);
        MaskResentBy(d, m, Conn(), a, fastResend, stack);
        EvolvedSacked(d, Conn(), a);
        SackedClears(d, Conn(), a);
      }
    }

    /** A full socket becomes writable again when the quota allows. */
    method MarkWritable(ghost a: AckInfo)
      requires Valid()
      modifies this`state
      ensures Shaped() && Evolved(old(Conn()), Conn(), a, []) && Conn() == old(Conn()).(state := state)
      ensures state == WritableState(old(state), IsFull(-1))
      ensures old(state) == ConnectedFull ==> state == if IsFull(-1) then ConnectedFull else Connected
      ensures old(state) != ConnectedFull ==> state == old(state)
    {
      hide ConnInv, Sound, SndStep, Evolved, SizableCircularBuffer<OutPkt>.Valid,
        SizableCircularBuffer<seq<byte>>.Valid,
        Slot, RingSize, U16, WireOf, Bytes;
      EvolvedRefl(Conn(), a);
      if state == ConnectedFull && !IsFull(-1) {
        EvolvedFlags(Conn(), a, Connected, finSentAcked);
        state := Connected;
      }
    }

    /** How many packets of the window are acknowledged, on 16-bit numbers and in truth. */
    method PlaceAcks(w: Wire) returns (acks: nat)
      requires Valid() && AckDistance(Conn(), w) <= curWindowPackets + 3
      ensures acks <= curWindowPackets && (acks == curWindowPackets <==> AllAcked(Conn(), w))
      ensures InfoOf(Conn(), w).Acked? && (acks > 0 ==> outbuf.start + acks - 1 <= InfoOf(Conn(), w).ack)
      ensures InfoOf(Conn(), w).ack < outbuf.start + acks && outbuf.start == Conn().Base()
    {
      hide ConnInv, Sound, InfoOf, AckDistance, AllAcked, UtpSocket.Shaped;
      AcksPlaced(Conn(), w);
      ShapedStart();
      acks := CountAcks(w.ackNr);
    }

    /** The sending half's share of `utp_process_incoming`, for a packet that passed the tests and is not
        the answer to our connection request. */
    method ProcessAckPart(w: Wire, est: Estimates)
      requires Valid() && AckDistance(Conn(), w) <= curWindowPackets + 3 && (w.sack.Some? ==> |w.sack.value| <= 2040)
      requires !Connecting(Conn(), w)
      modifies this`state, this`finSentAcked, this`curWindowPackets, this`curWindow, this`sent, this`wire,
        this`fastResendSeqNr, this`fastTimeout, this`retransmitCount, this`maxWindow, outbuf`start, outbuf`view,
        outbuf.elements
      ensures Shaped() && AcksHandled(old(Conn()), w, Conn(), [])
      ensures state == ConnectedFull ==> IsFull(-1)
      ensures old(state) == ConnectedFull && state != Destroy ==> (state == Connected <==> !IsFull(-1))
      ensures
        var closed := finSent && closeRequested && AllAcked(old(Conn()), w);
        state == WritableState(TransitionedState(old(state), w.kind, closed), IsFull(-1))
      ensures
        var from := Advanced(old(fastResendSeqNr), w.ackNr);
        Recovers(old(Conn()), w, old(fastTimeout), from, fastTimeout, Conn(), [])
    {
      hide ConnInv, Sound, SndStep, Evolved, Cleared, MaskCleared, StateMoves, LoneSent, AcksHandled, RcvInv,
        Slot, RingSize, U16, WireOf, Bytes, TransitionedState, WritableState, AllAcked, IsFull, InfoOf, AckDistance,
        UtpSocket.Rcv, UtpSocket.Shaped, RetriedOldest, MaskResent, Recovers, Advanced;
      ghost var due, from := fastTimeout, Advanced(fastResendSeqNr, w.ackNr);
      ghost var c, a := Conn(), InfoOf(Conn(), w);
      var acks := PlaceAcks(w);
      HandleAcks(w.kind, w.ackNr, acks, a);
      ghost var d, next := Conn(), fastResendSeqNr;
      SackPhase(w, est.mayDecay, c);
      ghost var e := Conn();
      MarkWritable(a);
      TransitionMoves(c, w, IsFull(-1));
      AcksHandledBy(c, d, e, Conn(), w, []);
      RecoversBy(c, w, due, from, fastTimeout, d, next, e, Conn(), []);
    }

    /** The same for the answer to our connection request. */
    method ProcessConnectPart(w: Wire, est: Estimates, reenter: Option<seq<seq<byte>>>) returns (ghost bytes: seq<byte>)
      requires Valid() && AckDistance(Conn(), w) <= curWindowPackets + 3 && (w.sack.Some? ==> |w.sack.value| <= 2040)
      requires Connecting(Conn(), w)
      modifies this`state, this`seqNr, this`curWindowPackets, this`curWindow, this`hist, this`sent, this`wire,
        this`fastResendSeqNr, this`fastTimeout, this`retransmitCount, this`maxWindow,
        outbuf`elements, outbuf`start, outbuf`view, outbuf.elements
      ensures Shaped() && (outbuf.elements == old(outbuf.elements) || fresh(outbuf.elements))
      ensures AcksHandled(old(Conn()), w, Conn(), bytes) && Reentered(reenter, bytes)
      ensures state == Connected || (state == ConnectedFull && IsFull(-1))
      ensures
        var from := Advanced(old(fastResendSeqNr), w.ackNr);
        Recovers(old(Conn()), w, old(fastTimeout), from, fastTimeout, Conn(), bytes)
    {
      hide ConnInv, Sound, SndStep, Evolved, AcksHandled, Cleared, MaskCleared, LoneSent, UtpSocket.Shaped,
        UtpSocket.Conn, UtpSocket.Rcv, RetriedOldest, MaskResent, Recovers, Advanced, AllAcked, StateMoves, RcvInv,
        Slot, RingSize, U16, WireOf, Bytes, IsFull, InfoOf, AckDistance, Reentered;
      ghost var due, from := fastTimeout, Advanced(fastResendSeqNr, w.ackNr);
      ghost var c, a := Conn(), InfoOf(Conn(), w);
      ConnFields();
      var acks := PlaceAcks(w);
      bytes := HandleConnectAck(w.ackNr, acks, reenter, a);
      ghost var d, next := Conn(), fastResendSeqNr;
      ConnFields();
      SackPhase(w, est.mayDecay, c);
      ghost var e := Conn();
      ConnFields();
      MarkWritable(a);
      ConnFields();
      AcksHandledBy(c, d, e, Conn(), w, bytes);
      RecoversBy(c, w, due, from, fastTimeout, d, next, e, Conn(), bytes);
    }

    /** The payload part of `utp_process_incoming`. */
    method ProcessDataPart(w: Wire, off: nat)
      requires Valid() && off == Offset(Conn(), w) < 1024
      modifies this`gotFin, this`eofPkt, this`eof, this`ackNr, this`ack, this`reorderCount, this`gotFinReached,
        this`posted,
        this`eofs, this`sent, this`wire, inbuf`elements, inbuf`start, inbuf`view, inbuf.elements
      ensures Valid() && (inbuf.elements == old(inbuf.elements) || fresh(inbuf.elements))
      ensures PayloadHandled(old(Conn()), w, Conn())
      ensures IsFull(-1) == old(IsFull(-1))
    {
      hide ConnInv, Sound, OnlyReceived, Arrive, RcvInv, TookIn, SizableCircularBuffer<OutPkt>.Valid,
        SizableCircularBuffer<seq<byte>>.Valid,
        Slot, RingSize, U16, WireOf;
      OffsetPlaced(Conn(), w);
      if w.kind != State && (state == Connected || state == ConnectedFull) {
        ReceiveData(w.seqNr, off, w.kind == Fin, w.payload);
      }
    }

    /** The peer's window and the estimators' verdicts take effect. */
    method TakeEstimates(window: nat, est: Estimates)
      requires Valid()
      modifies this`maxWindow, this`packetSize, this`maxWindowUser
      ensures Valid() && Conn() == old(Conn())
      ensures maxWindowUser == window && packetSize == est.packetSize && maxWindow == est.maxWindow
    {
      hide ConnInv, SizableCircularBuffer<OutPkt>.Valid, SizableCircularBuffer<seq<byte>>.Valid, RingSize, U16, WireOf;
      packetSize, maxWindow, maxWindowUser := est.packetSize, est.maxWindow, window;
    }

    /** The acknowledgement part of `utp_process_incoming`. */
    method ProcessAcks(w: Wire, window: nat, est: Estimates, reenter: Option<seq<seq<byte>>>)
      returns (ghost bytes: seq<byte>)
      requires Valid() && Accepted(Conn(), w) && (w.sack.Some? ==> |w.sack.value| <= 2040)
      modifies this`state, this`finSentAcked, this`seqNr, this`curWindowPackets, this`curWindow, this`hist, this`sent,
        this`wire,
        this`fastResendSeqNr, this`fastTimeout, this`retransmitCount, this`maxWindow, this`packetSize,
        this`maxWindowUser,
        outbuf`elements, outbuf`start, outbuf`view, outbuf.elements
      ensures Valid() && (outbuf.elements == old(outbuf.elements) || fresh(outbuf.elements))
      ensures AcksHandled(old(Conn()), w, Conn(), bytes) && Reentered(reenter, bytes)
      ensures state == ConnectedFull ==> IsFull(-1)
      ensures old(state) == ConnectedFull && state != Destroy ==> (state == Connected <==> !IsFull(-1))
      ensures maxWindowUser == window && packetSize == est.packetSize
      ensures
        var from := Advanced(old(fastResendSeqNr), w.ackNr);
        Recovers(old(Conn()), w, old(fastTimeout), from, fastTimeout, Conn(), bytes)
    {
      hide ConnInv, Sound, Evolved, AcksHandled, Recovers, Advanced, SizableCircularBuffer<OutPkt>.Valid,
        SizableCircularBuffer<seq<byte>>.Valid,
        Slot, RingSize, U16, WireOf, InfoOf, AckDistance, AllAcked, IsFull, TransitionedState, WritableState, Bytes,
        Reentered;
      TakeEstimates(window, est);
      hide UtpSocket.Rcv;
      bytes := [];
      NothingReentered(reenter);
      if w.kind == State && state == SynSent {
        bytes := ProcessConnectPart(w, est, reenter);
      } else {
        ProcessAckPart(w, est);
      }
    }

    /** A packet whose numbers were believed: acknowledgements, then payload. */
    method ProcessAccepted(w: Wire, off: nat, window: nat, est: Estimates, reenter: Option<seq<seq<byte>>>)
      returns (ghost mid: Conn, ghost bytes: seq<byte>)
      requires
        && Valid() && Accepted(Conn(), w) && off == Offset(Conn(), w) < 1024
        && (w.sack.Some? ==> |w.sack.value| <= 2040)
      modifies this, outbuf, outbuf.elements, inbuf, inbuf.elements
      ensures
        && Valid() && AcksHandled(old(Conn()), w, mid, bytes) && PayloadHandled(mid, w, Conn())
        && Reentered(reenter, bytes)
      ensures outbuf.elements == old(outbuf.elements) || fresh(outbuf.elements)
      ensures inbuf.elements == old(inbuf.elements) || fresh(inbuf.elements)
      ensures state == ConnectedFull ==> IsFull(-1)
      ensures old(state) == ConnectedFull && state != Destroy ==> (state == Connected <==> !IsFull(-1))
      ensures maxWindowUser == window && packetSize == est.packetSize
      ensures
        var from := Advanced(old(fastResendSeqNr), w.ackNr);
        Recovers(old(Conn()), w, old(fastTimeout), from, fastTimeout, mid, bytes)
    {
      hide Recovers, Advanced, AcksHandled, PayloadHandled, Accepted, Reentered, Offset, UtpSocket.Valid,
        UtpSocket.Conn, UtpSocket.IsFull;
      ghost var c := Conn();
      bytes := ProcessAcks(w, window, est, reenter);
      mid := Conn();
      SameOffset(c, w, mid, bytes);
      ProcessDataPart(w, off);
    }

    /** The answer to a request tells the peer's numbering. */
    method StartPacket(w: Wire)
      requires Valid()
      modifies this`ackNr, this`ack, inbuf`start
      ensures Valid() && Conn() == Started(old(Conn()), w)
    {
      hide ConnInv, Adopted, Slot, RingSize, U16, WireOf, SizableCircularBuffer<OutPkt>.Valid,
        SizableCircularBuffer<seq<byte>>.Valid;
      StartedInv(Conn(), w);
      if state == SynSent {
        AdoptPeerNumber(w.seqNr);
      }
    }

    /** `utp_process_incoming`, on any packet of an established or dialling connection. */
    method ProcessIncoming(w: Wire, window: nat, est: Estimates, reenter: Option<seq<seq<byte>>>)
      returns (ghost mid: Conn, ghost bytes: seq<byte>)
      requires Valid() && (w.sack.Some? ==> |w.sack.value| <= 2040)
      modifies this, outbuf, outbuf.elements, inbuf, inbuf.elements
      ensures Valid() && Processed(old(Conn()), w, mid, Conn(), bytes) && Reentered(reenter, bytes)
      ensures outbuf.elements == old(outbuf.elements) || fresh(outbuf.elements)
      ensures inbuf.elements == old(inbuf.elements) || fresh(inbuf.elements)
      ensures Accepted(old(Conn()), w) && Offset(Started(old(Conn()), w), w) < 1024 ==>
        var from := Advanced(old(fastResendSeqNr), w.ackNr);
        Recovers(Started(old(Conn()), w), w, old(fastTimeout), from, fastTimeout, mid, bytes)
    {
      hide ConnInv, AcksHandled, PayloadHandled, Accepted, Started, Reentered, U16, Less16, UtpSocket.Valid, Recovers,
        Advanced;
      ghost var c := Conn();
      mid, bytes := c, [];
      NothingReentered(reenter);
      ValidInv();
      AckTest(c, w);
      if !AcceptsAck(w.ackNr) {
        return;
      }
      StartedInv(c, w);
      StartPacket(w);
      mid := Conn();
      var off: int := U16(w.seqNr - ackNr - 1);
      if off < REORDER_BUFFER_MAX_SIZE {
        mid, bytes := ProcessAccepted(w, off, window, est, reenter);
      }
    }

    /** Consider the packet in window position i lost. */
    method MarkLost(ghost i: nat, slot: int)
      requires Shaped() && i < curWindowPackets <= |outbuf.view| && Travelling(outbuf.view[i])
      requires |outbuf.view[i].value.payload| <= curWindow
      requires Slot(outbuf.start + i, |outbuf.view|) == Slot(slot, |outbuf.view|)
      modifies this`curWindow, outbuf`view, outbuf.elements
      ensures Shaped() && Conn() == LostAt(old(Conn()), i)
    {
      hide SizableCircularBuffer<OutPkt>.Valid, SizableCircularBuffer<seq<byte>>.Valid, Slot, RingSize, U16, WireOf;
      outbuf.GetSlot(outbuf.start + i, slot);
      var pkt := outbuf.Get(slot).value;
      outbuf.Put(outbuf.start + i, slot, Some(pkt.(needResend := true)));
      curWindow := curWindow - |pkt.payload|;
    }

    /** On a timeout every packet in flight is considered lost. */
    method MarkAllLost()
      requires Shaped() && Sound(Conn())
      modifies this`curWindow, outbuf`view, outbuf.elements
      ensures Shaped() && LosingAt(old(Conn()), Conn(), curWindowPackets)
    {
      hide Sound, LosingAt, SizableCircularBuffer<OutPkt>.Valid, SizableCircularBuffer<seq<byte>>.Valid, Slot,
        RingSize, U16, WireOf;
      ghost var c := Conn();
      LosingStart(c);
      var i := 0;
      while i < curWindowPackets
        invariant Shaped() && 0 <= i <= curWindowPackets && LosingAt(c, Conn(), i)
      {
        ghost var k := curWindowPackets - i - 1;
        U16Add(outbuf.start + curWindowPackets, -(i as int) - 1);
        outbuf.GetAt(outbuf.start + k, seqNr - i - 1);
        var pkt := outbuf.Get(seqNr - i - 1);
        if pkt.None? || pkt.value.transmissions == 0 || pkt.value.needResend {
          LosingSkip(c, Conn(), i);
        } else {
          LosingMark(c, Conn(), i);
          MarkLost(k, seqNr - i - 1);
        }
        i := i + 1;
      }
    }

    method CountTimeout()
      requires Shaped()
      modifies this`retransmitCount, this`fastTimeout
      ensures Shaped() && Conn() == old(Conn()) && retransmitCount == old(retransmitCount) + 1 && fastTimeout
    {
      hide SizableCircularBuffer<OutPkt>.Valid, SizableCircularBuffer<seq<byte>>.Valid, WireOf;
      retransmitCount, fastTimeout := retransmitCount + 1, true;
    }

    /** The retransmission timer fired and the connection survives it: everything is lost, and the oldest
        packet goes out again. */
    method Retransmit()
      requires Valid()
      modifies this`curWindow, this`sent, this`wire, this`retransmitCount, this`fastTimeout, outbuf`view,
        outbuf.elements
      ensures Shaped() && Evolved(old(Conn()), Conn(), NoAck, [])
      ensures OldestAlone(Conn()) && sent == old(sent) + OldestLog(Conn())
      ensures retransmitCount == old(retransmitCount) + (if curWindowPackets > 0 then 1 else 0)
    {
      hide ConnInv, Sound, LosingAt, Evolved, Retransmitted, SizableCircularBuffer<OutPkt>.Valid,
        SizableCircularBuffer<seq<byte>>.Valid, Slot, RingSize, U16, WireOf;
      ghost var c := Conn();
      MarkAllLost();
      ghost var d := Conn();
      LosingEnd(c, d);
      OldestAloneBy(d);
      hide OldestAlone, OldestLog, SendAt, UtpSocket.Rcv, UtpSocket.Shaped;
      if curWindowPackets > 0 {
        CountTimeout();
        SendOldest(NoAck);
        EvolvedThen(c, d, Conn(), NoAck, []);
      }
    }

    /** The retransmission timer. A connection that answered nothing for too long is given up. */
    method OnTimeout(probeTimedOut: bool) returns (dead: bool)
      requires Valid()
      modifies this`state, this`maxWindow, this`curWindow, this`sent, this`wire, this`retransmitCount,
        this`fastTimeout, outbuf`view, outbuf.elements
      ensures Shaped() && Evolved(old(Conn()), Conn(), NoAck, [])
      ensures dead == Exhausted(old(state), old(retransmitCount))
      ensures dead ==> state == if old(state) == SynRecv || closeRequested then Destroy else Reset
      ensures !dead ==> state == old(state) && OldestAlone(Conn())
      ensures sent == old(sent) + if dead then [] else OldestLog(Conn())
      ensures !dead ==> retransmitCount == old(retransmitCount) + (if curWindowPackets > 0 then 1 else 0)
      ensures !dead ==>
        maxWindow ==
          if probeTimedOut then old(maxWindow)
          else RestartedWindow(old(maxWindow), curWindowPackets, packetSize)
      ensures dead ==> maxWindow == old(maxWindow)
      ensures old(state) == SynRecv ==> state == Destroy
      ensures old(retransmitCount) >= (if old(state) == SynSent then 2 else 4) ==>
        state == if closeRequested || old(state) == SynRecv then Destroy else Reset
      ensures old(state) != SynRecv && old(retransmitCount) < (if old(state) == SynSent then 2 else 4) ==>
        state == old(state)
    {
      hide ConnInv, Sound, Evolved, SizableCircularBuffer<OutPkt>.Valid, SizableCircularBuffer<seq<byte>>.Valid, Slot,
        RingSize, U16, WireOf, OldestAlone, OldestLog, UtpSocket.Shaped;
      dead := state == SynRecv || retransmitCount >= 4 || (state == SynSent && retransmitCount >= 2);
      if dead {
        var end := if state == SynRecv || closeRequested then Destroy else Reset;
        EvolvedFlags(Conn(), NoAck, end, finSentAcked);
        SetState(end);
      } else {
        if !probeTimedOut {
          SetWindow(RestartedWindow(maxWindow, curWindowPackets, packetSize));
        }
        Retransmit();
      }
    }

    /** The timers of a connection that has not ended. */
    method TestTimers(t: Tick, ghost c: Conn) returns (dead: bool)
      requires Shaped() && Evolved(c, Conn(), NoAck, [])
      modifies this`state, this`maxWindow, this`maxWindowUser, this`curWindow, this`sent, this`wire,
        this`retransmitCount, this`fastTimeout, outbuf`view, outbuf.elements
      ensures Shaped() && Evolved(c, Conn(), NoAck, [])
      ensures dead == (t.timeout && Exhausted(old(state), old(retransmitCount)))
      ensures dead ==> state == if old(state) == SynRecv || closeRequested then Destroy else Reset
      ensures !dead ==> state == old(state)
      ensures !t.timeout ==> retransmitCount == old(retransmitCount) && Conn() == old(Conn())
      ensures sent == old(sent) + if t.timeout && !dead then OldestLog(Conn()) else []
      ensures maxWindowUser == if t.zeroWindow && old(maxWindowUser) == 0 then PACKET_SIZE else old(maxWindowUser)
      ensures maxWindow == WindowThen(t, dead, old(maxWindow), curWindowPackets, packetSize)
      ensures t.timeout && !dead ==>
        OldestAlone(Conn()) && retransmitCount == old(retransmitCount) + (if curWindowPackets > 0 then 1 else 0)
    {
      hide ConnInv, Sound, Evolved, OldestAlone, OldestLog, SizableCircularBuffer<OutPkt>.Valid,
        SizableCircularBuffer<seq<byte>>.Valid, Slot, RingSize, U16, WireOf, IsFull;
      dead := false;
      if t.zeroWindow && maxWindowUser == 0 {
        maxWindowUser := PACKET_SIZE;
      }
      if t.timeout {
        ghost var d := Conn();
        dead := OnTimeout(t.probeTimedOut);
        EvolvedThen(c, d, Conn(), NoAck, []);
      }
    }

    /** What still waits is sent first, unless the socket is gone. */
    method FlushIfAlive() returns (ghost n: nat)
      requires Valid()
      modifies this`curWindow, this`sent, this`wire, outbuf.elements, outbuf`view
      ensures Shaped() && Evolved(old(Conn()), Conn(), NoAck, [])
      ensures if state == Destroy then Conn() == old(Conn())
        else FlushedTo(old(Conn()), Conn(), n, packetSize) && old(FlushStops(Conn(), n))
    {
      hide ConnInv, Sound, Evolved, Flushed, SndStep, SizableCircularBuffer<OutPkt>.Valid,
        SizableCircularBuffer<seq<byte>>.Valid, Slot, RingSize, U16, WireOf, UtpSocket.IsFull, UtpSocket.Drained,
        UtpSocket.FlushStops, FlushedTo, SmallWaiting;
      ghost var c := Conn();
      EvolvedRefl(c, NoAck);
      n := 0;
      if state != Destroy {
        var full;
        full, n := FlushPackets();
        EvolvedFlushed(c, Conn(), NoAck);
      }
    }

    /** The timers of a connection in one of the timed states, and what follows unless it was given up. */
    method TimeAndMark(t: Tick, ghost c: Conn)
      requires Shaped() && Evolved(c, Conn(), NoAck, []) && Timed(state)
      modifies this`state, this`maxWindow, this`maxWindowUser, this`curWindow, this`sent, this`wire,
        this`retransmitCount, this`fastTimeout, outbuf`view, outbuf.elements
      ensures Shaped() && Evolved(c, Conn(), NoAck, [])
      ensures Ticked(t, old(state), old(retransmitCount), old(maxWindowUser), old(maxWindow))
      ensures TickSent(t, old(state), old(retransmitCount), old(sent))
      ensures !t.timeout ==> Conn() == old(Conn()).(state := state, sent := sent)
    {
      hide ConnInv, Evolved, OldestAlone, OldestLog, TickLog, Slot, RingSize, U16, UtpSocket.IsFull, WritableState,
        RestartedWindow, UtpSocket.Shaped, UtpSocket.Conn, UtpSocket.Rcv;
      ghost var was := sent;
      var dead := TestTimers(t, c);
      ghost var again := if t.timeout && !dead then OldestLog(Conn()) else [];
      assert sent == was + again;
      ghost var d := Conn();
      if !dead {
        WritableAndAlive(t.keepAlive, c);
        OldestLogSame(d, Conn());
      }
      ghost var keep := (state == Connected || state == ConnectedFull) && !finSent && t.keepAlive;
      TickLogged(was, again, keep, ack, sent);
    }

    /** The timers, in the states that have them. */
    method RunTimers(t: Tick, ghost c: Conn)
      requires Shaped() && Evolved(c, Conn(), NoAck, [])
      modifies this`state, this`maxWindow, this`maxWindowUser, this`curWindow, this`sent, this`wire,
        this`retransmitCount, this`fastTimeout, outbuf`view, outbuf.elements
      ensures Shaped() && Evolved(c, Conn(), NoAck, [])
      ensures
        && Ticked(t, old(state), old(retransmitCount), old(maxWindowUser), old(maxWindow))
        && TickSent(t, old(state), old(retransmitCount), old(sent))
      ensures !t.timeout ==> Conn() == old(Conn()).(state := state, sent := sent)
      ensures !Timed(old(state)) ==> Conn() == old(Conn())
    {
      hide ConnInv, Evolved, OldestAlone, OldestLog, TickLog, UtpSocket.IsFull, WritableState, UtpSocket.Shaped;
      if Timed(state) {
        TimeAndMark(t, c);
      } else {
        assert sent == sent + [];
        TickLogged(sent, [], false, ack, sent);
      }
    }

    /** What the clock's verdicts lead to, from a state, a count of timeouts and the two windows. */
    ghost predicate Ticked(t: Tick, was: ConnState, count: nat, window: nat, quota: nat)
      reads this, inbuf, outbuf
    {
      && maxWindow == WindowThen(t, GivenUp(was, count) || !Timed(was), quota, curWindowPackets, packetSize)
      && (t.timeout && GivenUp(was, count) ==> state == if was == SynRecv || closeRequested then Destroy else Reset)
      && (t.timeout && Timed(was) && !GivenUp(was, count) ==>
            OldestAlone(Conn()) && retransmitCount == count + (if curWindowPackets > 0 then 1 else 0))
      && maxWindowUser == (if t.zeroWindow && Timed(was) && window == 0 then PACKET_SIZE else window)
      && (!(t.timeout && GivenUp(was, count)) ==>
            state == if Timed(was) then WritableState(was, IsFull(-1)) else was)
      && (!t.timeout || !Timed(was) ==> retransmitCount == count)
    }

    /** State by state. An accepted socket does not survive a timeout, a dialling one two, an established one
        four; the oldest packet is then the only one in flight. Without a timeout only the peer's closed
        window and the writable mark change. */
    lemma TickedMeans(t: Tick, was: ConnState, count: nat, window: nat, quota: nat)
      requires Ticked(t, was, count, window, quota)
      ensures t.timeout && was == SynRecv ==> state == Destroy
      ensures t.timeout && was == SynSent && count >= 2 ==> state == if closeRequested then Destroy else Reset
      ensures t.timeout && (was == Connected || was == ConnectedFull) && count >= 4 ==>
        state == if closeRequested then Destroy else Reset
      ensures t.timeout && was == SynSent && count < 2 ==> state == SynSent && TimeoutDone(count)
      ensures t.timeout && (was == Connected || was == ConnectedFull) && count < 4 ==> TimeoutDone(count)
      ensures (was == SynSent || was == Connected || was == ConnectedFull) && t.timeout && count < 2 ==>
        && (t.probeTimedOut ==> maxWindow == quota)
        && (!t.probeTimedOut && curWindowPackets > 0 ==> maxWindow == packetSize)
        && (!t.probeTimedOut && curWindowPackets == 0 && quota <= packetSize ==> maxWindow == packetSize)
        && (!t.probeTimedOut && curWindowPackets == 0 && quota > packetSize ==>
              maxWindow >= packetSize && (maxWindow == packetSize || 2 * quota - 3 < 3 * maxWindow <= 2 * quota))
      ensures was == Connected && !(t.timeout && count >= 4) ==> state == Connected
      ensures was == ConnectedFull && !(t.timeout && count >= 4) ==>
        state == if IsFull(-1) then ConnectedFull else Connected
      ensures !t.timeout ==> maxWindow == quota && retransmitCount == count
      ensures !t.zeroWindow || window > 0 ==> maxWindowUser == window
      ensures
        var timed := was == SynSent || was == SynRecv || was == Connected || was == ConnectedFull;
        t.zeroWindow && window == 0 && timed ==> maxWindowUser == 1435
      ensures !t.timeout && was != ConnectedFull ==> state == was
      ensures was == Reset || was == Destroy || was == Uninitialized || was == Idle ==>
        state == was && maxWindow == quota && retransmitCount == count && maxWindowUser == window
    {
      hide IsFull;
    }

    /** On the wire: the oldest packet again after a timeout that the connection survives, and a keep-alive
        for the packet before the last one received, when one is due. */
    lemma TickSentMeans(t: Tick, was: ConnState, count: nat, log: seq<Dgram>)
      requires TickSent(t, was, count, log)
      requires was == Connected || was == ConnectedFull || was == SynSent
      requires count < (if was == SynSent then 2 else 4) || !t.timeout
      ensures log <= sent
      ensures t.timeout && curWindowPackets > 0 && outbuf.view != [] && outbuf.view[0].Some? ==>
        var p := outbuf.view[0].value;
        |sent| > |log| && sent[|log|] == Dgram(p.kind, isn + |hist| - curWindowPackets, ack, None, p.payload)
      ensures t.keepAlive && !finSent && (state == Connected || state == ConnectedFull) ==>
        sent != [] && sent[|sent| - 1].kind == State && sent[|sent| - 1].ackNo == ack - 1
      ensures !t.timeout && !t.keepAlive ==> sent == log
    {
    }

    /** A timeout that the connection survives: its oldest packet alone is in flight. */
    ghost predicate TimeoutDone(count: nat)
      reads this, outbuf
    {
      && retransmitCount == count + (if curWindowPackets > 0 then 1 else 0)
      && (curWindowPackets > 0 && outbuf.view != [] ==>
            && outbuf.view[0].Some? && outbuf.view[0].value.transmissions > 0 && !outbuf.view[0].value.needResend
            && curWindow == |outbuf.view[0].value.payload|)
      && (forall k :: 0 < k < curWindowPackets && k < |outbuf.view| && outbuf.view[k].Some? ==>
            outbuf.view[k].value.transmissions == 0 || outbuf.view[k].value.needResend)
    }

    /** What a tick sent after flushing: the oldest packet again, and a keep-alive. */
    ghost predicate TickSent(t: Tick, was: ConnState, count: nat, log: seq<Dgram>)
      reads this, inbuf, outbuf
    {
      var dead := t.timeout && GivenUp(was, count);
      var again := if t.timeout && Timed(was) && !dead then OldestLog(Conn()) else [];
      var keep := (state == Connected || state == ConnectedFull) && !dead && !finSent && t.keepAlive;
      TickLog(log, again, keep, ack, sent)
    }

    /** `check_timeouts`; the clock's verdicts come as arguments. Flushing gets as far as slot n. */
    method CheckTimeouts(t: Tick) returns (ghost n: nat)
      requires Valid()
      modifies this`state, this`maxWindow, this`maxWindowUser, this`curWindow, this`sent, this`wire,
        this`retransmitCount, this`fastTimeout, outbuf`view, outbuf.elements
      ensures Shaped() && Evolved(old(Conn()), Conn(), NoAck, [])
      ensures Ticked(t, old(state), old(retransmitCount), old(maxWindowUser), old(maxWindow))
      ensures old(state) == Destroy ==> Conn() == old(Conn())
      ensures old(state) != Destroy ==>
        && n <= old(curWindowPackets) <= |old(outbuf.view)| && old(FlushStops(Conn(), n))
        && TickSent(t, old(state), old(retransmitCount), old(sent) + FlushLog(old(Conn()), n, packetSize))
      ensures old(state) != Destroy && !t.timeout ==>
        var flushed := old(sent) + FlushLog(old(Conn()), n, packetSize);
        FlushedTo(old(Conn()), Conn().(state := old(state), sent := flushed), n, packetSize)
    {
      hide ConnInv, Sound, Evolved, FlushedTo, FlushLog, OldestAlone, OldestLog, UtpSocket.FlushStops, UtpSocket.Ticked,
        UtpSocket.TickSent, UtpSocket.Shaped;
      ghost var c := Conn();
      n := FlushIfAlive();
      RunTimers(t, c);
    }
    /** The last part of `check_timeouts`. */
    method WritableAndAlive(keepAlive: bool, ghost c: Conn)
      requires Shaped() && Evolved(c, Conn(), NoAck, [])
      modifies this`state, this`sent, this`wire
      ensures Shaped() && Evolved(c, Conn(), NoAck, []) && state == WritableState(old(state), IsFull(-1))
      ensures OldestAlone(old(Conn())) ==> OldestAlone(Conn())
      ensures Conn() == old(Conn()).(state := state, sent := sent)
      ensures
        var keep := (state == Connected || state == ConnectedFull) && !finSent && keepAlive;
        TickLog(old(sent), [], keep, ack, sent)
    {
      hide ConnInv, Sound, Evolved, MaskOf, Slot, RingSize, U16, WireOf, WritableState, OldestAlone, UtpSocket.Shaped;
      ghost var d := Conn();
      MarkWritable(NoAck);
      ghost var e := Conn();
      EvolvedThen(c, d, e, NoAck, []);
      if (state == Connected || state == ConnectedFull) && !finSent && keepAlive {
        var mask := SendKeepAlive();
        EvolvedAckSent(e, ack - 1, mask);
        EvolvedThen(c, e, Conn(), NoAck, []);
      }
      if OldestAlone(d) { OldestStaysAlone(d, Conn()); }
    }

    /** Queue the FIN; nothing can be written after it. */
    method FinishSending()
      requires Valid() && !finSent && !Dialling(Conn())
      modifies this`finSent, this`seqNr, this`curWindowPackets, this`curWindow, this`hist, this`sent, this`wire,
        outbuf`elements, outbuf`view, outbuf.elements
      ensures
        && Shaped() && Finished(old(Conn()), Conn())
        && (outbuf.elements == old(outbuf.elements) || fresh(outbuf.elements))
      ensures Drained()
    {
      hide UtpSocket.Drained, ConnInv, Sound, SndStep, Wrote, Finished, RcvInv, SizableCircularBuffer<OutPkt>.Valid,
        SizableCircularBuffer<seq<byte>>.Valid,
        Slot, RingSize, U16, WireOf, Bytes, LastIs;
      ghost var c := Conn();
      FinishStart(c);
      finSent := true;
      ghost var f := Conn();
      var none := new seq<byte>[0];
      assert Flat(none[..])[..0] == [];
      WriteOutgoingPacket(0, Fin, none);
      FinishBy(c, f, Conn());
    }

    method Quiet(shut: bool, closed: bool)
      requires Valid()
      modifies this`readShutdown, this`closeRequested
      ensures Shaped() && Conn() == Quieted(old(Conn()), shut, closed) && ConnInv(Conn())
    {
      hide ConnInv, SizableCircularBuffer<OutPkt>.Valid, SizableCircularBuffer<seq<byte>>.Valid, RingSize;
      QuietedInv(Conn(), shut, closed);
      readShutdown := readShutdown || shut;
      closeRequested := closeRequested || closed;
    }

    method ChangeState(to: ConnState)
      requires Valid() && !(to == SynSent || to == Uninitialized || to == Idle)
      modifies this`state
      ensures Shaped() && LocalStep(old(Conn()), Conn(), []) && Conn() == old(Conn()).(state := to)
    {
      hide ConnInv, Evolved, LocalStep, SizableCircularBuffer<OutPkt>.Valid, SizableCircularBuffer<seq<byte>>.Valid,
        RingSize;
      EvolvedFlags(Conn(), NoAck, to, finSentAcked);
      ghost var c := Conn();
      state := to;
      LocalEvolved(c, Conn(), []);
    }

    /** `utp_close`: an established connection stops reading and sends its FIN, once; it is destroyed when
        the FIN was acknowledged already. In any other state the socket is destroyed. */
    method Close()
      requires Valid()
      modifies this`state, this`readShutdown, this`closeRequested, this`finSent, this`seqNr, this`curWindowPackets,
        this`curWindow,
        this`hist, this`sent, this`wire, outbuf`elements, outbuf`view, outbuf.elements
      ensures
        && Shaped() && LocalStep(old(Conn()), Conn(), [])
        && (outbuf.elements == old(outbuf.elements) || fresh(outbuf.elements))
      ensures old(state) == Connected || old(state) == ConnectedFull ==> finSent && readShutdown && closeRequested
      ensures old(state) == Connected || old(state) == ConnectedFull ==>
        state == if old(finSent) && finSentAcked then Destroy else old(state)
      ensures old(state) != Connected && old(state) != ConnectedFull ==> Conn() == old(Conn()).(state := Destroy)
      ensures (old(state) == Connected || old(state) == ConnectedFull) && !old(finSent) ==> Drained()
    {
      hide UtpSocket.Drained, ConnInv, LocalStep, Finished, RcvInv, SizableCircularBuffer<OutPkt>.Valid,
        SizableCircularBuffer<seq<byte>>.Valid, RingSize;
      if state == Connected || state == ConnectedFull {
        ghost var c := Conn();
        LocalQuieted(c, true, true);
        Quiet(true, true);
        ghost var d := Conn();
        if !finSent {
          FinishSending();
          LocalFinished(d, Conn());
          LocalTransitive(c, d, Conn());
        } else if finSentAcked {
          ChangeState(Destroy);
          LocalTransitive(c, d, Conn());
        }
      } else {
        ChangeState(Destroy);
      }
    }

    /** `utp_shutdown`, for reading, for writing, or both. */
    method Shutdown(reading: bool, writing: bool)
      requires Valid()
      modifies this`readShutdown, this`closeRequested, this`finSent, this`seqNr, this`curWindowPackets, this`curWindow,
        this`hist, this`sent, this`wire, outbuf`elements, outbuf`view, outbuf.elements
      ensures
        && Shaped() && LocalStep(old(Conn()), Conn(), [])
        && (outbuf.elements == old(outbuf.elements) || fresh(outbuf.elements))
      ensures readShutdown == (old(readShutdown) || reading) && closeRequested == old(closeRequested)
      ensures finSent == (old(finSent) || (writing && (state == Connected || state == ConnectedFull)))
      ensures finSent && !old(finSent) ==> Drained()
    {
      hide UtpSocket.Drained, ConnInv, LocalStep, Finished, RcvInv, SizableCircularBuffer<OutPkt>.Valid,
        SizableCircularBuffer<seq<byte>>.Valid, RingSize;
      ghost var c := Conn();
      LocalQuieted(c, reading, false);
      Quiet(reading, false);
      if writing && (state == Connected || state == ConnectedFull) && !finSent {
        ghost var d := Conn();
        FinishSending();
        LocalFinished(d, Conn());
        LocalTransitive(c, d, Conn());
      }
    }

    /** A reset from the peer. The state is overwritten before the error code is chosen, so a refused
        connection is reported as a reset one. */
    method PeerReset() returns (refused: bool)
      requires Valid()
      modifies this`state
      ensures Shaped() && LocalStep(old(Conn()), Conn(), [])
      ensures Conn() == old(Conn()).(state := if closeRequested then Destroy else Reset)
      ensures !refused
    {
      hide ConnInv, LocalStep, SizableCircularBuffer<OutPkt>.Valid, SizableCircularBuffer<seq<byte>>.Valid, RingSize;
      ChangeState(if closeRequested then Destroy else Reset);
      refused := state == SynSent;
    }

    /** An ICMP error, which does tell a refused connection apart, and spares an idle socket. */
    method IcmpError() returns (refused: bool)
      requires Valid()
      modifies this`state
      ensures Shaped() && LocalStep(old(Conn()), Conn(), [])
      ensures Conn() ==
        if old(state) == Idle then old(Conn()) else old(Conn()).(state := if closeRequested then Destroy else Reset)
      ensures refused == (old(state) == SynSent)
    {
      hide ConnInv, LocalStep, SizableCircularBuffer<OutPkt>.Valid, SizableCircularBuffer<seq<byte>>.Valid, RingSize;
      refused := state == SynSent;
      if state != Idle {
        ChangeState(if closeRequested then Destroy else Reset);
      } else {
        LocalRefl(Conn());
      }
    }

    method SendSyn(n: uint16)
      requires sent == [] && ackNr == U16(ack)
      modifies this`sent, this`wire
      ensures sent == [Dgram(Syn, n, ack, None, [])] && (old(WireOf(wire, sent)) ==> WireOf(wire, sent))
    {
      SendTo(Wire(Syn, n, ackNr, None, []), Dgram(Syn, n, ack, None, []));
    }

    /** Number the connection from a random 16-bit start, and queue the request. */
    method QueueSyn(n: uint16)
      requires Valid() && state == Uninitialized && hist == [] && sent == []
      modifies this`state, this`isn, this`seqNr, this`curWindowPackets, this`hist, outbuf`start, outbuf`view,
        outbuf.elements
      ensures Shaped() && old(Conn()).ring != [] && Conn() == Dialled(old(Conn()), n).(sent := [])
    {
      hide ConnInv, SizableCircularBuffer<OutPkt>.Valid, SizableCircularBuffer<seq<byte>>.Valid, Slot, RingSize,
        WireOf, Fresh, U16;
      UnusedIsEmpty(Conn());
      outbuf.Recentre(n);
      outbuf.Put(n, n, Some(OutPkt(Syn, n, [], 1, false)));
      isn, hist := n, [Rec(Syn, [])];
      seqNr := U16(n + 1);
      curWindowPackets := 1;
      state := SynSent;
    }

    /** The request is queued and sent. */
    method Dial(n: uint16)
      requires Valid() && state == Uninitialized && hist == [] && sent == [] && !finSent
      modifies this`state, this`isn, this`seqNr, this`curWindowPackets, this`hist, this`sent, this`wire, outbuf`start,
        outbuf`view, outbuf.elements
      ensures Shaped() && Conn() == Dialled(old(Conn()), n) && ConnInv(Conn())
    {
      hide ConnInv, SizableCircularBuffer<OutPkt>.Valid, SizableCircularBuffer<seq<byte>>.Valid, RingSize, WireOf,
        Fresh, U16;
      UnusedIsEmpty(Conn());
      DialledInv(Conn(), n);
      QueueSyn(n);
      SendSyn(n);
    }

    /** `utp_connect`: -1 on a socket that was used before, which is destroyed. */
    method Connect(n: uint16) returns (result: int)
      requires Valid() && (state == Uninitialized ==> hist == [] && sent == [] && !finSent)
      modifies this`state, this`isn, this`seqNr, this`curWindowPackets, this`hist, this`sent, this`wire, outbuf`start,
        outbuf`view, outbuf.elements
      ensures Shaped() && ConnInv(Conn())
      ensures old(state) == Uninitialized ==>
        result == 0 && outbuf.view == old(outbuf.view)[0 := Some(OutPkt(Syn, n, [], 1, false))]
      ensures old(state) == Uninitialized ==> Conn() == Dialled(old(Conn()), n)
      ensures old(state) != Uninitialized ==> result == -1 && Conn() == old(Conn()).(state := Destroy)
    {
      hide ConnInv, LocalStep, SizableCircularBuffer<OutPkt>.Valid, SizableCircularBuffer<seq<byte>>.Valid, RingSize,
        U16, WireOf;
      if state != Uninitialized {
        ChangeState(Destroy);
        return -1;
      }
      Dial(n);
      return 0;
    }

    /** The peer's numbering, on a socket that has received nothing. */
    method AdoptTheirs(pkSeq: uint16)
      requires Shaped() && forall k :: 0 <= k < |inbuf.view| ==> inbuf.view[k] == None
      modifies this`ack, this`ackNr, inbuf`start
      ensures
        && Shaped() && ack == ackNr == pkSeq
        && Conn() == old(Conn()).(ackNr := pkSeq, rcv := old(Rcv()).(ack := pkSeq))
    {
      hide SizableCircularBuffer<OutPkt>.Valid, SizableCircularBuffer<seq<byte>>.Valid, WireOf;
      inbuf.Recentre(pkSeq + 1);
      ackNr, ack := pkSeq, pkSeq;
    }

    /** Our own numbering, on a socket that has sent nothing. */
    method AdoptOurs(n: uint16)
      requires
        && Shaped() && hist == [] && curWindowPackets == 0
        && forall k :: 0 <= k < |outbuf.view| ==> outbuf.view[k] == None
      modifies this`state, this`isn, this`seqNr, this`fastResendSeqNr, outbuf`start
      ensures
        && Shaped() && isn == seqNr == n && state == SynRecv
        && Conn() == old(Conn()).(state := SynRecv, seqNr := n, isn := n)
    {
      hide SizableCircularBuffer<OutPkt>.Valid, SizableCircularBuffer<seq<byte>>.Valid, WireOf;
      outbuf.Recentre(n);
      seqNr, isn, fastResendSeqNr := n, n, n;
      state := SynRecv;
    }

    /** Number both directions of a connection that a peer requested. */
    method AdoptRequest(pkSeq: uint16, n: uint16)
      requires Valid() && state == Uninitialized && hist == [] && sent == [] && !finSent && !finSentAcked
      modifies this`state, this`isn, this`ack, this`seqNr, this`ackNr, this`fastResendSeqNr, outbuf`start, inbuf`start
      ensures
        && Shaped() && ConnInv(Conn()) && state == SynRecv && isn == n && ack == pkSeq && Fresh(Rcv())
        && curWindowPackets == 0
    {
      hide ConnInv, RingSize, U16, Occupied, RcvInv, UtpSocket.Shaped;
      UnusedIsEmpty(Conn());
      AdoptTheirs(pkSeq);
      AdoptOurs(n);
      U16Small(pkSeq);
      U16Small(n);
      FreshConn(Conn());
    }

    /** The accepting side of `utp_process_udp`: number both directions, and answer the request. */
    method Accept(pkSeq: uint16, n: uint16)
      requires Valid() && state == Uninitialized && hist == [] && sent == [] && !finSent && !finSentAcked
      modifies this`state, this`isn, this`ack, this`seqNr, this`ackNr, this`sent, this`wire, this`fastResendSeqNr,
        outbuf`start, inbuf`start
      ensures Shaped() && ConnInv(Conn()) && state == SynRecv && hist == [] && curWindowPackets == 0
      ensures
        && isn == n && Fresh(Rcv()) && ack == pkSeq && readShutdown == old(readShutdown)
        && finSentAcked == old(finSentAcked)
      ensures sent == [Dgram(State, n, pkSeq, None, [])]
    {
      hide ConnInv, SizableCircularBuffer<OutPkt>.Valid, SizableCircularBuffer<seq<byte>>.Valid, RingSize, U16,
        WireOf, MaskOf;
      AdoptRequest(pkSeq, n);
      var mask := SendAck();
    }
  }
}
