/** What an endpoint may put on the wire, stated over its two halves. */
module Endpoint {
  import opened Words
  import opened Rings
  import opened Packets
  import opened Sender
  import opened Receiver

  datatype ConnState = Uninitialized | Idle | SynSent | SynRecv | Connected | ConnectedFull | Reset | Destroy

  /** A selective-ack mask tells the truth about the receiving half: with acknowledgement
      number `a`, bit i is set exactly when packet a + 2 + i waits in the ring (30 bits at most). */
  ghost predicate MaskOf(r: Rcv, a: int, mask: seq<bool>) {
    |mask| == 32 && forall i :: 0 <= i < 32 ==> (mask[i] <==> i < 30 && Held(r, a + 2 + i).Some?)
  }

  /** A mask of 32 bits at most, whose set bits denote packets received. */
  ghost predicate SackTrue(r: Rcv, a: int, mask: seq<bool>) {
    |mask| <= 32 && forall i :: 0 <= i < |mask| && mask[i] ==> Received(r, a + 2 + i)
  }

  /** Everything a datagram in the log says about its sender is (still) true of it. */
  ghost predicate DgramOk(s: Snd, r: Rcv, d: Dgram) {
    && (d.kind != State ==> Frozen(s, d.seqNo) && RecOf(s, d.seqNo) == Rec(d.kind, d.payload))
    && (d.kind == State ==> s.isn <= d.seqNo <= s.Next() && d.payload == [])
    && (d.kind != Syn ==> d.ackNo <= r.ack && (d.sack.Some? ==> SackTrue(r, d.ackNo, d.sack.value)))
  }

  ghost predicate LogOk(s: Snd, r: Rcv, sent: seq<Dgram>) {
    forall i :: 0 <= i < |sent| ==> DgramOk(s, r, sent[i])
  }

  /** The log stays true along every step of the two halves. */
  lemma LogKept(s: Snd, r: Rcv, t: Snd, u: Rcv, a: AckInfo, sent: seq<Dgram>)
    requires LogOk(s, r, sent) && SndStep(s, t, a) && Keeps(r, u)
    ensures LogOk(t, u, sent)
  {
    forall i | 0 <= i < |sent|
      ensures DgramOk(t, u, sent[i])
    {
      var d := sent[i];
      assert DgramOk(s, r, d);
      if d.kind != State {
        assert Frozen(t, d.seqNo);
      }
      if d.kind != Syn && d.sack.Some? {
        forall k | 0 <= k < |d.sack.value| && d.sack.value[k]
          ensures Received(u, d.ackNo + 2 + k)
        {
          assert Received(r, d.ackNo + 2 + k);
        }
      }
    }
  }

  /** A log holding nothing but connection requests says nothing about the receiving half. */
  lemma LogOfSyns(s: Snd, r: Rcv, u: Rcv, sent: seq<Dgram>)
    requires LogOk(s, r, sent) && forall i :: 0 <= i < |sent| ==> sent[i].kind == Syn
    ensures LogOk(s, u, sent)
  {
    forall i | 0 <= i < |sent|
      ensures DgramOk(s, u, sent[i])
    {
      assert DgramOk(s, r, sent[i]);
    }
  }

  lemma LogAppend(s: Snd, r: Rcv, sent: seq<Dgram>, d: Dgram)
    requires LogOk(s, r, sent) && DgramOk(s, r, d)
    ensures LogOk(s, r, sent + [d])
  {
  }

  lemma MaskIsTrue(r: Rcv, a: int, mask: seq<bool>)
    requires MaskOf(r, a, mask)
    ensures SackTrue(r, a, mask)
  {
  }

  /** The mask under construction, i bits in. */
  ghost predicate MaskPrefix(r: Rcv, a: int, mask: seq<bool>, i: nat) {
    |mask| == i && forall k :: 0 <= k < i ==> (mask[k] <==> k < 30 && Held(r, a + 2 + k).Some?)
  }

  lemma MaskGrow(r: Rcv, a: int, mask: seq<bool>, i: nat, bit: bool)
    requires MaskPrefix(r, a, mask, i) && (bit <==> i < 30 && Held(r, a + 2 + i).Some?)
    ensures MaskPrefix(r, a, mask + [bit], i + 1)
  {
  }

  lemma MaskNothing(r: Rcv, a: int)
    ensures MaskPrefix(r, a, [], 0)
  {
  }

  lemma MaskDone(r: Rcv, a: int, mask: seq<bool>)
    requires MaskPrefix(r, a, mask, 32)
    ensures MaskOf(r, a, mask)
  {
  }
}
