/** Two sockets wired together: the code of the socket class, driven by any script of application
    calls, timer ticks, errors and deliveries, performs runs of the two-endpoint system. */
module Conversation {
  import opened Words
  import opened Rings
  import opened Packets
  import opened Iovecs
  import opened Sender
  import opened Receiver
  import opened Endpoint
  import opened Connection
  import opened Sockets
  import opened Streams

  /** What happens next at one of the two endpoints. */
  datatype Action =
    | Write(data: seq<seq<byte>>)
    | Check(tick: Tick)
    | CloseIt
    | ShutIt(reading: bool, writing: bool)
    | AckNow
    | ResetIt
    | FailIt
    | Deliver(index: nat, window: nat, est: Estimates)

  /** An entry of a script: whether it is for a, and what happens there. */
  type Entry = (bool, Action)

  // ---------- what a script means ----------

  /** The bytes that a call got accepted, by the result it returned. */
  ghost function Taken(act: Action, result: int): (taken: seq<byte>)
    ensures !act.Write? ==> taken == []
    ensures act.Write? && |act.data| <= 1024 && 0 <= result <= |Flat(act.data)| ==> taken == Flat(act.data)[..result]
    ensures act.Write? && |act.data| > 1024 && 0 <= result <= |Flat(act.data[..1024])| ==>
      taken == Flat(act.data[..1024])[..result]
  {
    if act.Write? && 0 <= result <= |Flat(Offered(act.data))| then Flat(Offered(act.data))[..result] else []
  }

  /** What an action at x, whose peer is y, makes of x. */
  ghost predicate Performed(x: Conn, y: Conn, act: Action, result: int, z: Conn) {
    if act.Deliver? then
      if act.index < |y.sent| && y.sent[act.index].kind != Syn then Handed(x, y.sent[act.index], z) else z == x
    else LocalStep(x, z, Taken(act, result)) && Did(x, act, z)
  }

  predicate Established(c: Conn) {
    c.state == Connected || c.state == ConnectedFull
  }

  /** What a call other than a write does to the socket beside keeping the stream. */
  ghost predicate Did(c: Conn, act: Action, d: Conn) {
    (
      match act
      case CloseIt =>
        if Established(c) then d.finSent && d.rcv.shut && d.closeRequested else d.state == Destroy
      case ShutIt(reading, writing) =>
        && d.rcv.shut == (c.rcv.shut || reading)
        && d.finSent == (c.finSent || (writing && Established(c)))
      case AckNow =>
        && |d.sent| == |c.sent| + 1 && d.sent[|c.sent|].kind == State && d.sent[|c.sent|].ackNo == c.rcv.ack
        && d.state == c.state
      case ResetIt => d.state == if c.closeRequested then Destroy else Reset
      case FailIt => d.state == if c.closeRequested then Destroy else Reset
      case _ => true
    ) == true
  }

  /** An entry leads from one state of the system to the next; what it got accepted is recorded. */
  ghost predicate Performs(s: Sys, e: Entry, result: int, t: Sys) {
    if e.0
    then Performed(s.a, s.b, e.1, result, t.a) && t == s.(a := t.a, fromA := s.fromA + Taken(e.1, result))
    else Performed(s.b, s.a, e.1, result, t.b) && t == s.(b := t.b, fromB := s.fromB + Taken(e.1, result))
  }

  /** If the entry delivers a datagram, it is one that the network did not hold back for too long. */
  ghost predicate RecentAt(s: Sys, e: Entry) {
    var x, y := if e.0 then s.a else s.b, if e.0 then s.b else s.a;
    e.1.Deliver? && e.1.index < |y.sent| && y.sent[e.1.index].kind != Syn ==> Recent(x, y.sent[e.1.index])
  }

  /** All the bytes that one of the applications got accepted. */
  ghost function GotAccepted(script: seq<Entry>, results: seq<int>, atA: bool): seq<byte>
    requires |script| == |results|
  {
    if script == [] then [] else
      var n := |script| - 1;
      GotAccepted(script[..n], results[..n], atA) + if script[n].0 == atA then Taken(script[n].1, results[n]) else []
  }

  ghost predicate Alive(s: Sys) {
    ConnInv(s.a) && ConnInv(s.b) && !Dialling(s.a) && !Dialling(s.b)
  }

  lemma PerformedAt(s: Sys, e: Entry, result: int, t: Sys)
    requires e.0 && Alive(s) && RecentAt(s, e) && Performs(s, e, result, t)
    ensures Step(s, t)
  {
    hide ConnInv, LocalStep, Handed, Recent, Taken, Dialling;
    var act := e.1;
    if act.Deliver? && act.index < |s.b.sent| && s.b.sent[act.index].kind != Syn {
      assert Delivered(s.b, s.a, s.b.sent[act.index], t.a);
      NothingTaken(act, result);
      assert s.fromA + [] == s.fromA;
    } else {
      LocalRefl(s.a);
      NothingTaken(act, result);
      assert t.fromA[|s.fromA|..] == Taken(act, result);
    }
  }

  lemma NothingTaken(act: Action, result: int)
    ensures !act.Write? ==> Taken(act, result) == []
  {
  }

  lemma SwappedStep(s: Sys, t: Sys)
    requires Step(Swapped(s), Swapped(t))
    ensures Step(s, t)
  {
    hide LocalStep, Delivered;
  }

  /** A recent entry is a step of the system. */
  lemma PerformsIsStep(s: Sys, e: Entry, result: int, t: Sys)
    requires Alive(s) && RecentAt(s, e) && Performs(s, e, result, t)
    ensures Step(s, t)
  {
    hide LocalStep, Handed, Recent, Taken, Step, ConnInv;
    if e.0 {
      PerformedAt(s, e, result, t);
    } else {
      PerformedAt(Swapped(s), (true, e.1), result, Swapped(t));
      SwappedStep(s, t);
    }
  }

  /** As long as what is delivered is recent, every state of a performed script is in order. */
  lemma {:induction false} ScriptTracked(run: seq<Sys>, script: seq<Entry>, results: seq<int>, k: nat)
    requires k <= |script| == |results| == |run| - 1 && Tracked(run[0])
    requires forall i :: 0 <= i < |script| ==> Performs(run[i], script[i], results[i], run[i + 1])
    requires forall i :: 0 <= i < k ==> RecentAt(run[i], script[i])
    ensures Tracked(run[k])
  {
    hide Tracked, Performs, RecentAt, Step;
    if k > 0 {
      ScriptTracked(run, script, results, k - 1);
      assert RecentAt(run[k - 1], script[k - 1]);
      assert Performs(run[k - 1], script[k - 1], results[k - 1], run[k - 1 + 1]);
      TrackedAlive(run[k - 1]);
      PerformsIsStep(run[k - 1], script[k - 1], results[k - 1], run[k]);
      StepTracked(run[k - 1], run[k]);
    }
  }

  lemma TrackedAlive(s: Sys)
    requires Tracked(s)
    ensures Alive(s)
  {
  }

  // ---------- the code performs scripts ----------

  /** The objects of two sockets are apart. */
  ghost predicate Apart(x: UtpSocket, y: UtpSocket)
    reads x, y, x.outbuf, x.inbuf, y.outbuf, y.inbuf
  {
    && x != y && x.outbuf != y.outbuf && x.inbuf != y.inbuf
    && (x.outbuf as object) != y.inbuf && (x.inbuf as object) != y.outbuf
    && x.outbuf.elements != y.outbuf.elements && x.inbuf.elements != y.inbuf.elements
    && (x.outbuf.elements as object) != y.inbuf.elements && (x.inbuf.elements as object) != y.outbuf.elements
  }

  /** A logged datagram's mask is a short one. */
  lemma LoggedMask(y: Conn, i: nat)
    requires ConnInv(y) && i < |y.sent| && y.sent[i].kind != Syn
    ensures y.sent[i].sack.Some? ==> |y.sent[i].sack.value| <= 32
  {
    LoggedOk(y, y.sent[i]);
  }

  /** Deliver the datagram at `index` of y's log, whatever it is, to x. A connection request that comes
      again finds the connection in place and is dropped by the demultiplexer. */
  method DeliverTo(x: UtpSocket, y: UtpSocket, index: nat, window: nat, est: Estimates)
    requires x.Valid() && y.Valid() && Apart(x, y) && !Dialling(x.Conn())
    modifies x, x.outbuf, x.outbuf.elements, x.inbuf, x.inbuf.elements
    ensures x.Valid() && y.Valid() && Apart(x, y) && y.Conn() == old(y.Conn()) && !Dialling(x.Conn())
    ensures x.outbuf.elements == old(x.outbuf.elements) || fresh(x.outbuf.elements)
    ensures x.inbuf.elements == old(x.inbuf.elements) || fresh(x.inbuf.elements)
    ensures if index < |y.sent| && y.sent[index].kind != Syn
      then Handed(old(x.Conn()), y.sent[index], x.Conn())
      else x.Conn() == old(x.Conn())
  {
    hide ConnInv, Processed, Dialling, Reentered, SizableCircularBuffer<OutPkt>.Valid,
      SizableCircularBuffer<seq<byte>>.Valid;
    ghost var c := x.Conn();
    assert |y.wire| == |y.sent| && forall i :: 0 <= i < |y.wire| ==> y.wire[i] == Encode(y.sent[i]);
    if index < |y.wire| && y.wire[index].kind != Syn {
      ghost var d := y.sent[index];
      LoggedMask(y.Conn(), index);
      ghost var mid, bytes;
      mid, bytes := x.ProcessIncoming(y.wire[index], window, est, None);
      ProcessedNotDialling(c, y.wire[index], mid, x.Conn(), bytes);
    }
  }

  /** A write, which takes what it can. */
  method Offer(x: UtpSocket, data: seq<seq<byte>>) returns (result: int)
    requires x.Valid() && !Dialling(x.Conn())
    modifies x, x.outbuf, x.outbuf.elements
    ensures x.Valid() && LocalStep(old(x.Conn()), x.Conn(), Taken(Write(data), result))
    ensures -1 <= result <= |Flat(Offered(data))|
    ensures data != [] && old(x.state) == Connected && !old(x.finSent) ==> NoRoom(x, data, result)
    ensures x.outbuf.elements == old(x.outbuf.elements) || fresh(x.outbuf.elements)
    ensures x.inbuf.elements == old(x.inbuf.elements)
    ensures 0 < |data| <= 1024 ==>
      && 0 <= result <= |Flat(data)| && Bytes(x.hist) == old(Bytes(x.hist)) + Flat(data)[..result]
      && (old(x.state) == Connected && !old(x.finSent) ==>
            || result == |Flat(data)| || x.packetSize == 0
            || x.IsFull(Min(|Flat(data)| - result, x.packetSize)))
    ensures |data| > 1024 ==>
      && 0 <= result <= |Flat(data[..1024])| && Bytes(x.hist) == old(Bytes(x.hist)) + Flat(data[..1024])[..result]
      && (old(x.state) == Connected && !old(x.finSent) ==>
            || result == |Flat(data[..1024])| || x.packetSize == 0
            || x.IsFull(Min(|Flat(data[..1024])| - result, x.packetSize)))
  {
    hide ConnInv, LocalStep, Written, Evolved, Flat, Bytes, UtpSocket.Shaped, UtpSocket.IsFull, UtpSocket.Drained;
    ghost var c := x.Conn();
    result := x.Writev(data);
    assert Taken(Write(data), result) == Flat(Offered(data))[..Max(result, 0)];
    EvolvedWritten(c, x.Conn(), NoAck, Taken(Write(data), result));
    LocalEvolved(c, x.Conn(), Taken(Write(data), result));
  }

  /** All of it was taken, or the socket has no room for a packet of the rest. */
  ghost predicate NoRoom(x: UtpSocket, data: seq<seq<byte>>, result: int)
    reads x
  {
    var left := |Flat(Offered(data))| - result;
    left == 0 || x.packetSize == 0 || x.IsFull(Min(left, x.packetSize))
  }

  /** An action other than a write or a delivery: the stream does not change. */
  method ActElse(x: UtpSocket, act: Action)
    requires x.Valid() && !Dialling(x.Conn()) && !act.Deliver? && !act.Write?
    modifies x, x.outbuf, x.outbuf.elements, x.inbuf, x.inbuf.elements
    ensures x.Valid() && LocalStep(old(x.Conn()), x.Conn(), []) && Did(old(x.Conn()), act, x.Conn())
    ensures x.outbuf.elements == old(x.outbuf.elements) || fresh(x.outbuf.elements)
    ensures x.inbuf.elements == old(x.inbuf.elements)
    ensures act.Check? ==>
      x.Ticked(act.tick, old(x.state), old(x.retransmitCount), old(x.maxWindowUser), old(x.maxWindow))
  {
    hide ConnInv, LocalStep, Evolved, MaskOf, OldestAlone, UtpSocket.Shaped, UtpSocket.IsFull, UtpSocket.Ticked;
    ghost var c := x.Conn();
    match act {
      case Check(tick) =>
        ghost var n := x.CheckTimeouts(tick);
        LocalEvolved(c, x.Conn(), []);
      case CloseIt =>
        x.Close();
      case ShutIt(reading, writing) =>
        x.Shutdown(reading, writing);
      case AckNow =>
        var mask := x.SendAck();
        EvolvedAckSent(c, x.ack, mask);
        LocalEvolved(c, x.Conn(), []);
      case ResetIt =>
        var refused := x.PeerReset();
      case FailIt =>
        var refused := x.IcmpError();
    }
  }

  /** One action of the endpoint x: a local step that adds to the stream exactly what was accepted. A write
      to a connected socket that takes fewer bytes than it was offered leaves no room for more. */
  method Act(x: UtpSocket, act: Action) returns (result: int)
    requires x.Valid() && !Dialling(x.Conn()) && !act.Deliver?
    modifies x, x.outbuf, x.outbuf.elements, x.inbuf, x.inbuf.elements
    ensures x.Valid() && LocalStep(old(x.Conn()), x.Conn(), Taken(act, result)) && Did(old(x.Conn()), act, x.Conn())
    ensures act.Check? ==>
      x.Ticked(act.tick, old(x.state), old(x.retransmitCount), old(x.maxWindowUser), old(x.maxWindow))
    ensures act.Write? ==> -1 <= result <= |Flat(Offered(act.data))|
    ensures act.Write? && act.data != [] && old(x.state) == Connected && !old(x.finSent) ==>
      NoRoom(x, act.data, result)
    ensures x.outbuf.elements == old(x.outbuf.elements) || fresh(x.outbuf.elements)
    ensures x.inbuf.elements == old(x.inbuf.elements)
    ensures act.Write? && 0 < |act.data| <= 1024 ==>
      && 0 <= result <= |Flat(act.data)| && Bytes(x.hist) == old(Bytes(x.hist)) + Flat(act.data)[..result]
      && (old(x.state) == Connected && !old(x.finSent) ==>
            || result == |Flat(act.data)| || x.packetSize == 0
            || x.IsFull(Min(|Flat(act.data)| - result, x.packetSize)))
    ensures act.Write? && |act.data| > 1024 ==>
      && 0 <= result <= |Flat(act.data[..1024])|
      && Bytes(x.hist) == old(Bytes(x.hist)) + Flat(act.data[..1024])[..result]
      && (old(x.state) == Connected && !old(x.finSent) ==>
            || result == |Flat(act.data[..1024])| || x.packetSize == 0
            || x.IsFull(Min(|Flat(act.data[..1024])| - result, x.packetSize)))
  {
    hide LocalStep, Taken, NoRoom, Flat, Bytes, UtpSocket.Valid, UtpSocket.IsFull, UtpSocket.Conn;
    NothingTaken(act, 0);
    result := 0;
    if act.Write? {
      result := Offer(x, act.data);
    } else {
      ActElse(x, act);
    }
  }

  /** One action at x, whose peer is y. */
  method Turn(x: UtpSocket, y: UtpSocket, act: Action) returns (result: int)
    requires x.Valid() && y.Valid() && Apart(x, y) && !Dialling(x.Conn())
    modifies x, x.outbuf, x.outbuf.elements, x.inbuf, x.inbuf.elements
    ensures x.Valid() && y.Valid() && Apart(x, y) && y.Conn() == old(y.Conn()) && !Dialling(x.Conn())
    ensures x.outbuf.elements == old(x.outbuf.elements) || fresh(x.outbuf.elements)
    ensures x.inbuf.elements == old(x.inbuf.elements) || fresh(x.inbuf.elements)
    ensures Performed(old(x.Conn()), y.Conn(), act, result, x.Conn())
  {
    hide ConnInv, LocalStep, Handed, Taken, SizableCircularBuffer<OutPkt>.Valid,
      SizableCircularBuffer<seq<byte>>.Valid, Dialling;
    if act.Deliver? {
      result := 0;
      DeliverTo(x, y, act.index, act.window, act.est);
    } else {
      result := Act(x, act);
    }
  }

  /** One entry of a script: an action at either endpoint. */
  method Perform(a: UtpSocket, b: UtpSocket, e: Entry, ghost s: Sys) returns (result: int, ghost t: Sys)
    requires a.Valid() && b.Valid() && Apart(a, b) && s.a == a.Conn() && s.b == b.Conn() && Alive(s)
    modifies a, a.outbuf, a.outbuf.elements, a.inbuf, a.inbuf.elements
    modifies b, b.outbuf, b.outbuf.elements, b.inbuf, b.inbuf.elements
    ensures a.Valid() && b.Valid() && Apart(a, b) && t.a == a.Conn() && t.b == b.Conn() && Alive(t)
    ensures a.outbuf.elements == old(a.outbuf.elements) || fresh(a.outbuf.elements)
    ensures a.inbuf.elements == old(a.inbuf.elements) || fresh(a.inbuf.elements)
    ensures b.outbuf.elements == old(b.outbuf.elements) || fresh(b.outbuf.elements)
    ensures b.inbuf.elements == old(b.inbuf.elements) || fresh(b.inbuf.elements)
    ensures Performs(s, e, result, t)
  {
    hide ConnInv, Performed, Taken, Dialling, SizableCircularBuffer<OutPkt>.Valid,
      SizableCircularBuffer<seq<byte>>.Valid;
    if e.0 {
      result := Turn(a, b, e.1);
      t := s.(a := a.Conn(), fromA := s.fromA + Taken(e.1, result));
    } else {
      result := Turn(b, a, e.1);
      t := s.(b := b.Conn(), fromB := s.fromB + Taken(e.1, result));
    }
  }

  // ---------- the handshake ----------

  function Timeouts(ticks: seq<Tick>): nat {
    if ticks == [] then 0 else Timeouts(ticks[..|ticks| - 1]) + if ticks[|ticks| - 1].timeout then 1 else 0
  }

  lemma TimeoutsNext(ticks: seq<Tick>, i: nat)
    requires i < |ticks|
    ensures Timeouts(ticks[..i + 1]) == Timeouts(ticks[..i]) + if ticks[i].timeout then 1 else 0
  {
    assert ticks[..i + 1][..i] == ticks[..i];
  }

  /** The request, from a fresh socket. */
  method Request(m: uint16) returns (a: UtpSocket)
    ensures fresh(a) && fresh(a.outbuf) && fresh(a.inbuf) && fresh(a.outbuf.elements) && fresh(a.inbuf.elements)
    ensures a.Valid() && DiallingAfter(a, m, 0)
  {
    hide ConnInv, SizableCircularBuffer<OutPkt>.Valid, SizableCircularBuffer<seq<byte>>.Valid, RingSize, U16, RcvInv;
    a := new UtpSocket(1024 * 1024, 1400);
    var result := a.Connect(m);
  }

  /** After so many timeouts the request is still out, or given up. */
  ghost predicate DiallingAfter(a: UtpSocket, m: uint16, timeouts: nat)
    reads a, a.outbuf, a.inbuf
  {
    && !a.closeRequested
    && if timeouts <= 2 then Requested(a.Conn(), m) && a.retransmitCount == timeouts else a.state == Reset
  }

  /** A tick at the dialler. */
  method DialTick(a: UtpSocket, m: uint16, t: Tick, ghost timeouts: nat)
    requires a.Valid() && DiallingAfter(a, m, timeouts)
    modifies a, a.outbuf, a.outbuf.elements
    ensures a.Valid() && a.outbuf.elements == old(a.outbuf.elements) && a.inbuf.elements == old(a.inbuf.elements)
    ensures DiallingAfter(a, m, timeouts + if t.timeout then 1 else 0)
  {
    hide ConnInv, Evolved, OldestAlone, SizableCircularBuffer<OutPkt>.Valid, SizableCircularBuffer<seq<byte>>.Valid,
      RingSize, U16, RcvInv, WireOf;
    ghost var n := a.CheckTimeouts(t);
  }

  /** The dialler waits: its request is sent again at every timeout, and given up at the third. */
  method Wait(a: UtpSocket, m: uint16, ticks: seq<Tick>) returns (waiting: bool)
    requires a.Valid() && DiallingAfter(a, m, 0)
    modifies a, a.outbuf, a.outbuf.elements
    ensures a.Valid() && a.outbuf.elements == old(a.outbuf.elements) && a.inbuf.elements == old(a.inbuf.elements)
    ensures waiting <==> Timeouts(ticks) <= 2
    ensures if waiting then Requested(a.Conn(), m) else a.state == Reset
  {
    hide UtpSocket.Valid, Timeouts, DiallingAfter;
    NoTimeouts(ticks);
    for i := 0 to |ticks|
      invariant a.Valid() && a.outbuf.elements == old(a.outbuf.elements) && a.inbuf.elements == old(a.inbuf.elements)
      invariant DiallingAfter(a, m, Timeouts(ticks[..i]))
    {
      TimeoutsNext(ticks, i);
      DialTick(a, m, ticks[i], Timeouts(ticks[..i]));
    }
    assert ticks[..|ticks|] == ticks;
    StillDialling(a, m, Timeouts(ticks));
    waiting := a.state == SynSent;
  }

  lemma StillDialling(a: UtpSocket, m: uint16, timeouts: nat)
    requires DiallingAfter(a, m, timeouts)
    ensures a.state == SynSent <==> timeouts <= 2
    ensures if timeouts <= 2 then Requested(a.Conn(), m) else a.state == Reset
  {
  }

  /** A fresh socket dials and waits. */
  method DialAndWait(m: uint16, ticks: seq<Tick>) returns (a: UtpSocket, waiting: bool)
    ensures fresh(a) && fresh(a.outbuf) && fresh(a.inbuf) && fresh(a.outbuf.elements) && fresh(a.inbuf.elements)
    ensures a.Valid() && (waiting <==> Timeouts(ticks) <= 2)
    ensures if waiting then Requested(a.Conn(), m) else a.state == Reset
  {
    hide Requested, UtpSocket.Conn, UtpSocket.Valid, Timeouts, DiallingAfter;
    a := Request(m);
    waiting := Wait(a, m, ticks);
  }

  lemma NoTimeouts(ticks: seq<Tick>)
    ensures Timeouts(ticks[..0]) == 0
  {
  }

  /** Its acceptance, by another fresh socket. */
  method Answer(m: uint16, n: uint16) returns (b: UtpSocket)
    ensures fresh(b) && fresh(b.outbuf) && fresh(b.inbuf) && fresh(b.outbuf.elements) && fresh(b.inbuf.elements)
    ensures b.Valid() && Answered(b.Conn(), m, n) && b.wire == [Wire(State, n, m, None, [])]
  {
    hide ConnInv, SizableCircularBuffer<OutPkt>.Valid, SizableCircularBuffer<seq<byte>>.Valid, RingSize, U16, RcvInv;
    b := new UtpSocket(1024 * 1024, 1400);
    b.Accept(m, n);
    U16Small(m);
    U16Small(n);
    assert b.wire[0] == Encode(b.sent[0]);
  }

  /** Connect two fresh sockets: the request, which may have to be sent several times, its acceptance,
      and the answer processed by the dialler, whose application may write from inside the connect
      notification. */
  method Establish(m: uint16, n: uint16, ticks: seq<Tick>, reenter: Option<seq<seq<byte>>>, window: nat, est: Estimates)
    returns (a: UtpSocket, b: UtpSocket, connected: bool, ghost first: seq<byte>)
    ensures fresh(a) && fresh(a.outbuf) && fresh(a.inbuf) && fresh(a.outbuf.elements) && fresh(a.inbuf.elements)
    ensures fresh(b) && fresh(b.outbuf) && fresh(b.inbuf) && fresh(b.outbuf.elements) && fresh(b.inbuf.elements)
    ensures a.Valid() && b.Valid() && Apart(a, b)
    ensures connected <==> Timeouts(ticks) <= 2
    ensures if connected
      then Tracked(Sys(a.Conn(), b.Conn(), first, [])) && Reentered(reenter, first)
      else a.state == Reset
  {
    hide ConnInv, Processed, Tracked, Requested, Answered, Reentered, UtpSocket.Conn, UtpSocket.Valid, Timeouts;
    a, connected := DialAndWait(m, ticks);
    b := Answer(m, n);
    first := [];
    if connected {
      ghost var c, mid := a.Conn(), a.Conn();
      mid, first := a.ProcessIncoming(b.wire[0], window, est, reenter);
      a.ValidInv();
      HandshakeTracked(c, b.Conn(), b.wire[0], mid, a.Conn(), first, m, n);
    }
  }

  lemma HandshakeTracked(a: Conn, b: Conn, w: Wire, mid: Conn, c: Conn, bytes: seq<byte>, m: uint16, n: uint16)
    requires Requested(a, m) && Answered(b, m, n)
    requires w == Wire(State, n, m, None, []) && ConnInv(c) && Processed(a, w, mid, c, bytes)
    ensures Tracked(Sys(c, b, bytes, []))
  {
    hide Both, Processed, ConnInv;
    HandshakeDone(a, b, w, mid, c, bytes, m, n);
  }

  // ---------- the main theorem on the code ----------

  /** Every entry of the script was performed, one state after the other. */
  ghost predicate Played(run: seq<Sys>, script: seq<Entry>, results: seq<int>)
    ensures Played(run, script, results) ==> |results| == |script| == |run| - 1
  {
    (
      && |results| == |script| == |run| - 1
      && forall i :: 0 <= i < |script| ==> Performs(run[i], script[i], results[i], run[i + 1])
    ) == true
  }

  lemma PlayedNothing(s: Sys)
    ensures Played([s], [], []) && GotAccepted([], [], true) == GotAccepted([], [], false) == []
  {
  }

  /** One more entry. */
  lemma PlayedMore(run: seq<Sys>, script: seq<Entry>, results: seq<int>, i: nat, result: int, t: Sys)
    requires i < |script| && Played(run, script[..i], results) && Performs(run[i], script[i], result, t)
    requires run[i].fromA == run[0].fromA + GotAccepted(script[..i], results, true)
    requires run[i].fromB == run[0].fromB + GotAccepted(script[..i], results, false)
    ensures Played(run + [t], script[..i + 1], results + [result])
    ensures t.fromA == run[0].fromA + GotAccepted(script[..i + 1], results + [result], true)
    ensures t.fromB == run[0].fromB + GotAccepted(script[..i + 1], results + [result], false)
  {
    hide Performed, Taken;
    var r, q := run + [t], results + [result];
    assert script[..i + 1][..i] == script[..i] && q[..i] == results;
    forall k | 0 <= k < i + 1
      ensures Performs(r[k], script[..i + 1][k], q[k], r[k + 1])
    {
      if k < i {
        assert Performs(run[k], script[..i][k], results[k], run[k + 1]);
      }
    }
  }

  /** Two connected sockets perform a script. */
  method Play(a: UtpSocket, b: UtpSocket, script: seq<Entry>, ghost start: Sys)
    returns (results: seq<int>, ghost run: seq<Sys>)
    requires a.Valid() && b.Valid() && Apart(a, b) && start.a == a.Conn() && start.b == b.Conn() && Alive(start)
    modifies a, a.outbuf, a.outbuf.elements, a.inbuf, a.inbuf.elements
    modifies b, b.outbuf, b.outbuf.elements, b.inbuf, b.inbuf.elements
    ensures a.Valid() && b.Valid() && Played(run, script, results) && run[0] == start
    ensures run[|script|].a == a.Conn() && run[|script|].b == b.Conn()
    ensures run[|script|].fromA == start.fromA + GotAccepted(script, results, true)
    ensures run[|script|].fromB == start.fromB + GotAccepted(script, results, false)
  {
    hide Performs, Played, Alive, GotAccepted, UtpSocket.Conn, UtpSocket.Valid;
    results, run := [], [start];
    PlayedNothing(start);
    assert script[..0] == [];
    for i := 0 to |script|
      invariant a.outbuf.elements == old(a.outbuf.elements) || fresh(a.outbuf.elements)
      invariant a.inbuf.elements == old(a.inbuf.elements) || fresh(a.inbuf.elements)
      invariant b.outbuf.elements == old(b.outbuf.elements) || fresh(b.outbuf.elements)
      invariant b.inbuf.elements == old(b.inbuf.elements) || fresh(b.inbuf.elements)
      invariant a.Valid() && b.Valid() && Apart(a, b) && Played(run, script[..i], results)
      invariant Alive(run[i]) && run[i].a == a.Conn() && run[i].b == b.Conn() && run[0] == start
      invariant run[i].fromA == start.fromA + GotAccepted(script[..i], results, true)
      invariant run[i].fromB == start.fromB + GotAccepted(script[..i], results, false)
    {
      var result; ghost var t;
      result, t := Perform(a, b, script[i], run[i]);
      PlayedMore(run, script, results, i, result, t);
      run, results := run + [t], results + [result];
    }
    assert script[..|script|] == script;
  }

  /** Any script, performed by two sockets joined by the handshake. Every entry is performed as said, and
      what each application got accepted is what its calls returned. At every moment up to which the
      network delivered only recent datagrams, each application has received a prefix of what the
      other one got accepted, and all else that Reliable says. */
  method Converse(m: uint16, n: uint16, ticks: seq<Tick>, reenter: Option<seq<seq<byte>>>, window: nat, est: Estimates,
                  script: seq<Entry>)
    returns (a: UtpSocket, b: UtpSocket, connected: bool, results: seq<int>,
             ghost first: seq<byte>, ghost run: seq<Sys>)
    ensures a.Valid() && b.Valid()
    ensures connected <==> Timeouts(ticks) <= 2
    ensures if connected then Played(run, script, results) else a.state == Reset
    ensures connected ==> Tracked(run[0]) && run[0].fromA == first && run[0].fromB == [] && Reentered(reenter, first)
    ensures connected ==> run[|script|].a == a.Conn() && run[|script|].b == b.Conn()
    ensures connected ==> run[|script|].fromA == first + GotAccepted(script, results, true)
    ensures connected ==> run[|script|].fromB == GotAccepted(script, results, false)
    ensures connected ==> forall k :: 0 <= k <= |script| && RecentTo(run, script, k) ==> ReliableAt(run[k])
  {
    hide Tracked, Played, ReliableAt, Alive, GotAccepted, RecentTo, Timeouts, Reentered, UtpSocket.Conn,
      UtpSocket.Valid;
    a, b, connected, first := Establish(m, n, ticks, reenter, window, est);
    results, run := [], [];
    if connected {
      ghost var s := Sys(a.Conn(), b.Conn(), first, []);
      TrackedAlive(s);
      results, run := Play(a, b, script, s);
      forall k | 0 <= k <= |script| && RecentTo(run, script, k)
        ensures ReliableAt(run[k])
      {
        ScriptReliable(run, script, results, k);
      }
    }
  }

  /** Both directions, against what was accepted. */
  ghost predicate ReliableAt(s: Sys) {
    && s.a.wnd <= |s.a.ring| && s.b.wnd <= |s.b.ring|
    && Reliable(s.a, s.b, s.fromA) && Reliable(s.b, s.a, s.fromB)
  }

  /** Whatever was delivered before moment k was recent. */
  ghost predicate RecentTo(run: seq<Sys>, script: seq<Entry>, k: nat)
    requires k <= |script| <= |run|
  {
    forall i :: 0 <= i < k ==> RecentAt(run[i], script[i])
  }

  lemma ScriptReliable(run: seq<Sys>, script: seq<Entry>, results: seq<int>, k: nat)
    requires Played(run, script, results) && k <= |script| && Tracked(run[0]) && RecentTo(run, script, k)
    ensures ReliableAt(run[k])
  {
    hide Tracked, Performs, RecentAt, Reliable;
    ScriptTracked(run, script, results, k);
    TrackedReliable(run[k]);
  }
}
