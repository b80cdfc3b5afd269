/** Gathering the bytes of a vectored write. */
module Iovecs {
  import opened Words
  import opened Packets

  const UTP_IOV_MAX: nat := 1024

  /** At most UTP_IOV_MAX vectors of a write are looked at. */
  function Offered(input: seq<seq<byte>>): (v: seq<seq<byte>>)
    ensures |input| <= 1024 ==> v == input
    ensures |input| > 1024 ==> v == input[..1024]
  {
    input[..Min(|input|, UTP_IOV_MAX)]
  }

  method CopyVector(input: seq<seq<byte>>) returns (iovec: array<seq<byte>>)
    ensures fresh(iovec) && iovec[..] == Offered(input)
  {
    var n := Min(|input|, UTP_IOV_MAX);
    iovec := new seq<byte>[n](i requires 0 <= i < |input| => input[i]);
  }

  ghost function Flat(v: seq<seq<byte>>): seq<byte> {
    if v == [] then [] else v[0] + Flat(v[1..])
  }

  /** The pieces one after the other, each of them whole. */
  lemma {:induction false} FlatJoins(v: seq<seq<byte>>, w: seq<seq<byte>>)
    ensures Flat([]) == [] && (forall x: seq<byte> :: Flat([x]) == x)
    ensures Flat(v + w) == Flat(v) + Flat(w)
  {
    forall x: seq<byte>
      ensures Flat([x]) == x
    {
      assert Flat([x][1..]) == [];
    }
    if v == [] {
      assert v + w == w;
    } else {
      FlatJoins(v[1..], w);
      assert (v + w)[1..] == v[1..] + w;
    }
  }

  /** Taking n bytes off entry i takes them off the front of the stream, when all entries before are spent. */
  lemma {:induction false} FlatTake(v: seq<seq<byte>>, i: nat, n: nat)
    requires i < |v| && n <= |v[i]| && forall j :: 0 <= j < i ==> v[j] == []
    ensures Flat(v) == v[i][..n] + Flat(v[i := v[i][n..]])
  {
    var w := v[i := v[i][n..]];
    if i == 0 {
      assert w[1..] == v[1..];
      assert v[0] == v[0][..n] + v[0][n..];
    } else {
      FlatTake(v[1..], i - 1, n);
      assert w[1..] == v[1..][i - 1 := v[1..][i - 1][n..]];
    }
  }

  lemma {:induction false} FlatSpent(v: seq<seq<byte>>)
    requires forall j :: 0 <= j < |v| ==> v[j] == []
    ensures Flat(v) == []
  {
    if v != [] {
      FlatSpent(v[1..]);
    }
  }

  /** The copying loop: takes exactly the first `payload` bytes, and leaves exactly the rest. */
  method Gather(iovec: array<seq<byte>>, payload: nat) returns (data: seq<byte>)
    requires payload <= |Flat(iovec[..])|
    modifies iovec
    ensures data == old(Flat(iovec[..]))[..payload]
    ensures Flat(iovec[..]) == old(Flat(iovec[..]))[payload..]
  {
    ghost var all := Flat(iovec[..]);
    data := [];
    var needed := payload;
    var i := 0;
    while i < iovec.Length && needed > 0
      invariant 0 <= i <= iovec.Length && 0 <= needed <= payload
      invariant |data| == payload - needed && data + Flat(iovec[..]) == all
      invariant needed > 0 ==> forall j :: 0 <= j < i ==> iovec[j] == []
    {
      if iovec[i] != [] {
        var num := Min(needed, |iovec[i]|);
        FlatTake(iovec[..], i, num);
        ghost var was := iovec[..];
        data := data + iovec[i][..num];
        iovec[i] := iovec[i][num..];
        assert iovec[..] == was[i := was[i][num..]];
        needed := needed - num;
      }
      i := i + 1;
    }
    assert |all| == |data| + |Flat(iovec[..])|;
    if needed > 0 {
      FlatSpent(iovec[..]);
    }
    assert needed == 0;
  }

  /** The counting loop: the number of bytes offered. */
  method Total(iovec: array<seq<byte>>) returns (bytes: nat)
    ensures bytes == |Flat(iovec[..])|
  {
    bytes := 0;
    ghost var v := iovec[..];
    for i := 0 to iovec.Length
      invariant bytes + |Flat(v[i..])| == |Flat(v)|
    {
      assert v[i..][1..] == v[i + 1..];
      bytes := bytes + |iovec[i]|;
    }
  }

  lemma SliceFurther(all: seq<byte>, i: nat, k: nat)
    requires i + k <= |all|
    ensures all[..i] + all[i..][..k] == all[..i + k]
    ensures all[i..][k..] == all[i + k..]
  {
  }
}
