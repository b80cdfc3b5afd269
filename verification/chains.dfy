/** Singly linked chains threaded through one array of links, as the hash table's buckets and its
    freelist are. */
module Chains {
  import opened Words

  /** The link that ends a chain: LIBUTP_HASH_UNUSED. */
  const UNUSED: uint32 := 0xffff_ffff

  /** Heads and links are what is stored. The slots of each chain in order, and the chain each slot
      is on (or |chains| for a slot on none), are what they mean. */
  datatype Shape = Shape(heads: seq<uint32>, links: seq<uint32>, chains: seq<seq<nat>>, home: seq<nat>)

  /** The link to position i of a chain. */
  ghost function At(c: seq<nat>, i: nat): nat {
    if i < |c| then c[i] else UNUSED
  }

  ghost predicate Distinct(c: seq<nat>) {
    forall i, j :: 0 <= i < j < |c| ==> c[i] != c[j]
  }

  ghost predicate ChainOk(s: Shape, b: nat)
    requires b < |s.chains| == |s.heads| && |s.links| == |s.home|
  {
    var c := s.chains[b];
    && s.heads[b] == At(c, 0)
    && (forall i :: 0 <= i < |c| ==> c[i] < |s.links| && s.home[c[i]] == b && s.links[c[i]] == At(c, i + 1))
    && Distinct(c)
  }

  /** Every chain is what following its links gives, without repetition; every slot is on the one
      chain it calls home, so that chains are disjoint; no slot has the sentinel's number. */
  ghost predicate ShapeOk(s: Shape) {
    && |s.chains| == |s.heads| && |s.links| == |s.home| <= UNUSED
    && (forall b :: 0 <= b < |s.chains| ==> ChainOk(s, b))
    && (forall e :: 0 <= e < |s.home| ==>
          s.home[e] <= |s.chains| && (s.home[e] < |s.chains| ==> e in s.chains[s.home[e]]))
  }

  lemma ChainOf(s: Shape, b: nat)
    requires ShapeOk(s) && b < |s.chains|
    ensures |s.chains| == |s.heads| && |s.links| == |s.home| && ChainOk(s, b)
  {
  }

  /** One more slot, on no chain. */
  ghost function Added(s: Shape, link: uint32): Shape {
    s.(links := s.links + [link], home := s.home + [|s.chains|])
  }

  /** A slot on no chain goes to the front of one. */
  ghost function Pushed(s: Shape, e: nat, b: nat): Shape
    requires b < |s.chains| == |s.heads| && e < |s.links| == |s.home| && e <= UNUSED
  {
    s.(heads := s.heads[b := e], links := s.links[e := s.heads[b]],
       chains := s.chains[b := [e] + s.chains[b]], home := s.home[e := b])
  }

  ghost function Without(c: seq<nat>, i: nat): seq<nat>
    requires i < |c|
  {
    c[..i] + c[i + 1..]
  }

  /** The slot at position i leaves its chain: the head or the link before it skips it. */
  ghost function Unlinked(s: Shape, b: nat, i: nat): (t: Shape)
    requires ShapeOk(s) && b < |s.chains| && i < |s.chains[b]|
    ensures |t.chains| == |s.chains| == |t.heads| && |t.links| == |t.home| == |s.home|
  {
    var c := s.chains[b];
    assert ChainOk(s, b);
    s.(heads := if i == 0 then s.heads[b := s.links[c[0]]] else s.heads,
       links := if i == 0 then s.links else s.links[c[i - 1] := s.links[c[i]]],
       chains := s.chains[b := Without(c, i)],
       home := s.home[c[i] := |s.chains|])
  }

  /** A chain none of whose slots is touched. */
  lemma ChainFrame(s: Shape, t: Shape, b: nat)
    requires |s.chains| == |s.heads| == |t.chains| == |t.heads| && |s.links| == |s.home| <= |t.links| == |t.home|
    requires b < |s.chains| && ChainOk(s, b) && t.chains[b] == s.chains[b] && t.heads[b] == s.heads[b]
    requires forall e :: 0 <= e < |s.home| && s.home[e] == b ==> t.home[e] == b && t.links[e] == s.links[e]
    ensures ChainOk(t, b)
  {
  }

  lemma AddedOk(s: Shape, link: uint32)
    requires ShapeOk(s) && |s.links| < UNUSED
    ensures ShapeOk(Added(s, link))
  {
    hide ChainOk;
    var t := Added(s, link);
    forall b | 0 <= b < |t.chains|
      ensures ChainOk(t, b)
    {
      ChainFrame(s, t, b);
    }
  }

  lemma PushedChain(s: Shape, e: nat, b: nat)
    requires ShapeOk(s) && b < |s.chains| && e < |s.links| && s.home[e] == |s.chains|
    ensures ChainOk(Pushed(s, e, b), b)
  {
    assert ChainOk(s, b);
    var t, c := Pushed(s, e, b), s.chains[b];
    forall i | 0 <= i < |c| + 1
      ensures var x := t.chains[b][i]; x < |t.links| && t.home[x] == b && t.links[x] == At(t.chains[b], i + 1)
    {
      assert i > 0 ==> t.chains[b][i] == c[i - 1];
    }
  }

  lemma PushedOk(s: Shape, e: nat, b: nat)
    requires ShapeOk(s) && b < |s.chains| && e < |s.links| && s.home[e] == |s.chains|
    ensures ShapeOk(Pushed(s, e, b))
  {
    hide ChainOk;
    var t := Pushed(s, e, b);
    PushedChain(s, e, b);
    forall d | 0 <= d < |t.chains|
      ensures ChainOk(t, d)
    {
      if d != b { ChainFrame(s, t, d); }
    }
    assert t.chains[b][0] == e;
    assert forall x :: x in s.chains[b] ==> x in t.chains[b];
  }

  lemma WithoutAt(c: seq<nat>, i: nat, j: nat)
    requires i < |c|
    ensures At(Without(c, i), j) == if j < i then At(c, j) else At(c, j + 1)
    ensures |Without(c, i)| == |c| - 1 && (j < |c| - 1 ==> Without(c, i)[j] == c[if j < i then j else j + 1])
  {
  }

  lemma WithoutDistinct(c: seq<nat>, i: nat)
    requires i < |c| && Distinct(c)
    ensures Distinct(Without(c, i))
  {
  }

  lemma UnlinkedLink(s: Shape, b: nat, i: nat, j: nat)
    requires ShapeOk(s) && b < |s.chains| && i < |s.chains[b]| && j < |s.chains[b]| - 1 == |Without(s.chains[b], i)|
    ensures var t := Unlinked(s, b, i); var x := Without(s.chains[b], i)[j];
      x < |t.links| && t.home[x] == b && t.links[x] == At(Without(s.chains[b], i), j + 1)
  {
    hide Without, At;
    var c := s.chains[b];
    assert ChainOk(s, b);
    hide ShapeOk;
    WithoutAt(c, i, j);
    WithoutAt(c, i, j + 1);
    var k := if j < i then j else j + 1;
    assert c[k] != c[i] && (i > 0 && j != i - 1 ==> c[k] != c[i - 1]);
  }

  lemma UnlinkedChain(s: Shape, b: nat, i: nat)
    requires ShapeOk(s) && b < |s.chains| && i < |s.chains[b]|
    ensures ChainOk(Unlinked(s, b, i), b)
  {
    hide Without;
    var t, c := Unlinked(s, b, i), s.chains[b];
    var d := Without(c, i);
    WithoutAt(c, i, 0);
    assert ChainOk(s, b);
    hide ShapeOk, At;
    assert t.chains[b] == d;
    forall j | 0 <= j < |d|
      ensures d[j] < |t.links| && t.home[d[j]] == b && t.links[d[j]] == At(d, j + 1)
    {
      UnlinkedLink(s, b, i, j);
    }
    WithoutDistinct(c, i);
  }

  /** The slots that stay on a chain. */
  lemma WithoutKeeps(c: seq<nat>, i: nat, x: nat)
    requires i < |c| && x in c && x != c[i]
    ensures x in Without(c, i)
  {
    var j :| 0 <= j < |c| && c[j] == x;
    assert Without(c, i)[if j < i then j else j - 1] == x;
  }

  /** The touched slots of an unlinking are all on its chain. */
  lemma UnlinkedFrame(s: Shape, b: nat, i: nat, d: nat)
    requires ShapeOk(s) && b < |s.chains| && i < |s.chains[b]| && d < |s.chains| && d != b
    ensures ChainOk(Unlinked(s, b, i), d)
  {
    assert ChainOk(s, b) && ChainOk(s, d);
    var t, c := Unlinked(s, b, i), s.chains[b];
    assert s.home[c[i]] == b && (i > 0 ==> s.home[c[i - 1]] == b);
    hide ShapeOk;
    ChainFrame(s, t, d);
  }

  lemma UnlinkedOk(s: Shape, b: nat, i: nat)
    requires ShapeOk(s) && b < |s.chains| && i < |s.chains[b]|
    ensures ShapeOk(Unlinked(s, b, i))
  {
    hide Without;
    var t, c := Unlinked(s, b, i), s.chains[b];
    assert ChainOk(s, b);
    hide ChainOk;
    UnlinkedChain(s, b, i);
    forall d | 0 <= d < |t.chains|
      ensures ChainOk(t, d)
    {
      if d != b { UnlinkedFrame(s, b, i, d); }
    }
    forall x | 0 <= x < |t.home|
      ensures t.home[x] <= |t.chains| && (t.home[x] < |t.chains| ==> x in t.chains[t.home[x]])
    {
      if s.home[x] == b && x != c[i] {
        WithoutKeeps(c, i, x);
      }
    }
  }

  /** An element moved from one chain to the front of another. */
  ghost function Moved(s: Shape, b: nat, i: nat, to: nat): Shape
    requires ShapeOk(s) && b < |s.chains| && i < |s.chains[b]| && to < |s.chains|
  {
    ChainOf(s, b);
    Pushed(Unlinked(s, b, i), s.chains[b][i], to)
  }

  lemma MovedOk(s: Shape, b: nat, i: nat, to: nat)
    requires ShapeOk(s) && b < |s.chains| && i < |s.chains[b]| && to < |s.chains| && to != b
    ensures var e, t := s.chains[b][i], Moved(s, b, i, to);
      && ShapeOk(t) && |t.chains| == |s.chains| && e < |s.home| && s.home[e] == b && t.home == s.home[e := to]
      && t.chains == s.chains[b := Without(s.chains[b], i)][to := [e] + s.chains[to]]
      && |Without(s.chains[b], i)| == |s.chains[b]| - 1
  {
    ChainOf(s, b);
    UnlinkedOk(s, b, i);
    hide ShapeOk, ChainOk;
    PushedOk(Unlinked(s, b, i), s.chains[b][i], to);
    assert s.home[s.chains[b][i] := |s.chains|][s.chains[b][i] := to] == s.home[s.chains[b][i] := to];
  }

  // -- Visiting chains --

  /** The part of a chain from an element on; nothing for the sentinel. */
  ghost function From(c: seq<nat>, e: nat): seq<nat> {
    if c == [] || c[0] == e then c else From(c[1..], e)
  }

  lemma {:induction false} FromAt(c: seq<nat>, i: nat)
    requires i <= |c| && Distinct(c) && (forall j :: 0 <= j < |c| ==> c[j] != UNUSED)
    ensures From(c, At(c, i)) == c[i..]
  {
    if i > 0 {
      FromAt(c[1..], i - 1);
      assert At(c, i) == At(c[1..], i - 1);
      assert c[1..][i - 1..] == c[i..];
    }
  }

  /** One step along a chain, whatever comes after it. */
  lemma FromStep(c: seq<nat>, i: nat, rest: seq<nat>)
    requires i < |c| && Distinct(c) && (forall j :: 0 <= j < |c| ==> c[j] != UNUSED)
    ensures From(c, c[i]) + rest != [] && (From(c, c[i]) + rest)[0] == c[i]
    ensures From(c, At(c, i + 1)) + rest == (From(c, c[i]) + rest)[1..]
  {
    hide Distinct;
    FromAt(c, i);
    FromAt(c, i + 1);
    assert c[i..] == [c[i]] + c[i + 1..];
  }

  /** Taking out the element before an iterator does not change what the iterator will see. */
  lemma FromWithout(c: seq<nat>, i: nat)
    requires i < |c| && Distinct(c) && (forall j :: 0 <= j < |c| ==> c[j] != UNUSED)
    ensures From(Without(c, i), At(c, i + 1)) == From(c, At(c, i + 1))
    ensures At(c, i + 1) == UNUSED || At(c, i + 1) in Without(c, i)
  {
    hide Distinct;
    WithoutDistinct(c, i);
    WithoutAt(c, i, i);
    FromAt(c, i + 1);
    FromAt(Without(c, i), i);
    assert Without(c, i)[i..] == c[i + 1..];
  }

  /** Chains b to n - 1, one after the other. */
  ghost function Rest(chains: seq<seq<nat>>, b: nat, n: nat): seq<nat>
    requires n <= |chains|
    decreases n - b
  {
    if b >= n then [] else chains[b] + Rest(chains, b + 1, n)
  }

  lemma {:induction false} RestFrame(s: seq<seq<nat>>, t: seq<seq<nat>>, b: nat, n: nat)
    requires n <= |s| == |t| && forall d :: b <= d < n ==> s[d] == t[d]
    ensures Rest(s, b, n) == Rest(t, b, n)
    decreases n - b
  {
    if b < n { RestFrame(s, t, b + 1, n); }
  }

  /** The slots on chains b to n - 1 are those at home there, each listed once. */
  lemma {:induction false} RestExact(s: Shape, b: nat, n: nat)
    requires ShapeOk(s) && n <= |s.chains|
    ensures forall x: nat :: x in Rest(s.chains, b, n) <==> x < |s.home| && b <= s.home[x] < n
    ensures Distinct(Rest(s.chains, b, n))
    decreases n - b
  {
    if b < n {
      RestExact(s, b + 1, n);
      var c, r := s.chains[b], Rest(s.chains, b + 1, n);
      ChainHome(s, b);
      assert forall k :: 0 <= k < |r| ==> r[k] in r;
      assert forall x: nat :: x in c + r <==> x in c || x in r;
      assert Rest(s.chains, b, n) == c + r;
      forall j, k | 0 <= j < k < |c + r|
        ensures (c + r)[j] != (c + r)[k]
      {
        if j < |c| <= k {
          var x, y := c[j], r[k - |c|];
          assert x in c && y in r;
          assert s.home[x] == b && s.home[y] > b;
        } else if |c| <= j {
          assert r[j - |c|] != r[k - |c|];
        }
      }
    }
  }

  lemma ChainHome(s: Shape, b: nat)
    requires ShapeOk(s) && b < |s.chains|
    ensures forall x: nat :: x in s.chains[b] <==> x < |s.home| && s.home[x] == b
    ensures Distinct(s.chains[b])
    ensures forall j :: 0 <= j < |s.chains[b]| ==> s.chains[b][j] != UNUSED
  {
    ChainOf(s, b);
    forall x: nat | x in s.chains[b]
      ensures x < |s.home| && s.home[x] == b
    {
      var j :| 0 <= j < |s.chains[b]| && s.chains[b][j] == x;
    }
  }
}
