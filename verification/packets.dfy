/** What travels between two endpoints, and the record of what was queued. */
module Packets {
  import opened Words
  import opened Rings

  type byte = bv8

  /** The packet types an established endpoint handles (a reset is handled by the demultiplexer). */
  datatype Kind = Data | Fin | State | Syn

  /** A decoded header with its payload: the numbers are the 16 bits on the wire.
      `sack` is the selective-ack mask, one boolean per bit in mask order. */
  datatype Wire = Wire(kind: Kind, seqNr: uint16, ackNr: uint16, sack: Option<seq<bool>>, payload: seq<byte>)

  /** The same packet under the sender's own, unbounded numbering. */
  datatype Dgram = Dgram(kind: Kind, seqNo: int, ackNo: int, sack: Option<seq<bool>>, payload: seq<byte>)

  function Encode(d: Dgram): Wire {
    Wire(d.kind, U16(d.seqNo), U16(d.ackNo), d.sack, d.payload)
  }

  /** What went over the wire is the 16-bit image of the log. */
  predicate WireOf(wire: seq<Wire>, sent: seq<Dgram>) {
    |wire| == |sent| && forall i :: 0 <= i < |sent| ==> wire[i] == Encode(sent[i])
  }

  /** One entry of the history of queued packets. */
  datatype Rec = Rec(kind: Kind, payload: seq<byte>)

  predicate LastIs(h: seq<Rec>, kind: Kind) {
    h != [] && h[|h| - 1].kind == kind
  }

  /** The byte stream a history carries. */
  ghost function Bytes(h: seq<Rec>): seq<byte> {
    if h == [] then [] else Bytes(h[..|h| - 1]) + h[|h| - 1].payload
  }

  lemma BytesAppend(h: seq<Rec>, r: Rec)
    ensures Bytes(h + [r]) == Bytes(h) + r.payload && Bytes([]) == []
  {
    assert (h + [r])[..|h|] == h;
  }

  lemma BytesReplaceLast(h: seq<Rec>, r: Rec)
    requires h != []
    ensures Bytes(h[|h| - 1 := r]) == Bytes(h[..|h| - 1]) + r.payload
  {
    assert h[|h| - 1 := r][..|h| - 1] == h[..|h| - 1];
  }

  lemma {:induction false} BytesPrefix(h: seq<Rec>, k: nat)
    requires k <= |h|
    ensures Bytes(h[..k]) <= Bytes(h)
  {
    if k == |h| {
      assert h[..k] == h;
    } else {
      var g := h[..|h| - 1];
      BytesPrefix(g, k);
      assert g[..k] == h[..k];
    }
  }

  lemma BytesNext(h: seq<Rec>, k: nat)
    requires k < |h|
    ensures Bytes(h[..k + 1]) == Bytes(h[..k]) + h[k].payload
  {
    assert h[..k + 1][..k] == h[..k];
  }

  lemma {:induction false} BytesAgree(g: seq<Rec>, h: seq<Rec>, k: nat)
    requires k <= |g| && k <= |h| && forall i :: 0 <= i < k ==> g[i] == h[i]
    ensures Bytes(g[..k]) == Bytes(h[..k])
  {
    assert g[..k] == h[..k];
  }
}
