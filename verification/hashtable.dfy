/** The socket table: a chained hash table whose elements and links live in one growing block, with a
    freelist of deleted elements, and an iterator that survives the deletion of what it returned. */
module HashTables {
  import opened Words
  import opened Rings
  import opened Chains

  datatype Item<K, V> = Item(key: K, val: V)

  /** The used part of the block with its chains (the freelist is the last one), and the slot of each
      key present. */
  datatype Table<!K, V> = Table(shape: Shape, items: seq<Option<Item<K, V>>>, at: map<K, nat>)

  function Bucket<K>(hashOf: K -> uint32, n: nat, key: K): (b: nat)
    requires n > 0
    ensures b < n
  {
    hashOf(key) % n
  }

  ghost predicate Placed<K, V>(home: seq<nat>, items: seq<Option<Item<K, V>>>, at: map<K, nat>, b: nat, key: K)
    requires key in at
  {
    var e := at[key];
    e < |items| == |home| && home[e] == b && items[e].Some? && items[e].value.key == key
  }

  /** The elements on bucket chains are exactly the present keys, each once and in its own bucket. */
  ghost predicate KeysOk<K(!new), V>(home: seq<nat>, items: seq<Option<Item<K, V>>>, at: map<K, nat>, n: nat,
      hashOf: K -> uint32) {
    && n > 0 && |items| == |home|
    && (forall e :: 0 <= e < |home| ==> home[e] <= n)
    && (forall key :: key in at ==> Placed(home, items, at, Bucket(hashOf, n, key), key))
    && (forall e :: 0 <= e < |home| && home[e] < n ==>
         items[e].Some? && items[e].value.key in at && at[items[e].value.key] == e)
  }

  /** The slots on no bucket's chain are on the freelist, the last chain. */
  ghost predicate TableOk<K(!new), V>(t: Table<K, V>, n: nat, hashOf: K -> uint32) {
    && n > 0 && ShapeOk(t.shape) && |t.shape.chains| == n + 1
    && KeysOk(t.shape.home, t.items, t.at, n, hashOf)
    && |t.at| + |t.shape.chains[n]| == |t.items| == |t.shape.home|
  }

  ghost function Contents<K(!new), V>(t: Table<K, V>, n: nat, hashOf: K -> uint32): map<K, V>
    requires TableOk(t, n, hashOf)
  {
    Values(t.shape.home, t.items, t.at, n, hashOf)
  }

  ghost function Values<K(!new), V>(home: seq<nat>, items: seq<Option<Item<K, V>>>, at: map<K, nat>, n: nat,
      hashOf: K -> uint32): (m: map<K, V>)
    requires KeysOk(home, items, at, n, hashOf)
    ensures m.Keys == at.Keys
  {
    map key | key in at ::
      assert Placed(home, items, at, Bucket(hashOf, n, key), key);
      items[at[key]].value.val
  }

  lemma KeysAppend<K(!new), V>(home: seq<nat>, items: seq<Option<Item<K, V>>>, at: map<K, nat>, n: nat,
      hashOf: K -> uint32, key: K, val: V)
    requires KeysOk(home, items, at, n, hashOf) && key !in at
    ensures var h, i, a := home + [Bucket(hashOf, n, key)], items + [Some(Item(key, val))], at[key := |items|];
      KeysOk(h, i, a, n, hashOf) && Values(h, i, a, n, hashOf) == Values(home, items, at, n, hashOf)[key := val]
  {
    hide Bucket;
    var h, i, a := home + [Bucket(hashOf, n, key)], items + [Some(Item(key, val))], at[key := |items|];
    forall k | k in a
      ensures Placed(h, i, a, Bucket(hashOf, n, k), k)
    {
      if k != key { assert Placed(home, items, at, Bucket(hashOf, n, k), k); }
    }
  }

  lemma KeysInsert<K(!new), V>(home: seq<nat>, items: seq<Option<Item<K, V>>>, at: map<K, nat>, n: nat,
      hashOf: K -> uint32, key: K, val: V, e: nat)
    requires KeysOk(home, items, at, n, hashOf) && key !in at && e < |home| && home[e] == n
    ensures var h, i, a := home[e := Bucket(hashOf, n, key)], items[e := Some(Item(key, val))], at[key := e];
      KeysOk(h, i, a, n, hashOf) && Values(h, i, a, n, hashOf) == Values(home, items, at, n, hashOf)[key := val]
  {
    hide Bucket;
    var h, i, a := home[e := Bucket(hashOf, n, key)], items[e := Some(Item(key, val))], at[key := e];
    forall k | k in a
      ensures Placed(h, i, a, Bucket(hashOf, n, k), k)
    {
      if k != key { assert Placed(home, items, at, Bucket(hashOf, n, k), k); }
    }
  }

  lemma KeysRemove<K(!new), V>(home: seq<nat>, items: seq<Option<Item<K, V>>>, at: map<K, nat>, n: nat,
      hashOf: K -> uint32, key: K)
    requires KeysOk(home, items, at, n, hashOf) && key in at && at[key] < |home|
    ensures var h, a := home[at[key] := n], at - {key};
      KeysOk(h, items, a, n, hashOf) && Values(h, items, a, n, hashOf) == Values(home, items, at, n, hashOf) - {key}
  {
    hide Bucket;
    var h, a := home[at[key] := n], at - {key};
    assert Placed(home, items, at, Bucket(hashOf, n, key), key);
    forall k | k in a
      ensures Placed(h, items, a, Bucket(hashOf, n, k), k)
    {
      assert Placed(home, items, at, Bucket(hashOf, n, k), k);
    }
  }

  // -- Insertion and removal --

  /** A slot never used before takes the element. */
  ghost function InsertedFresh<K(!new), V>(t: Table<K, V>, n: nat, hashOf: K -> uint32, key: K, val: V,
      link: uint32): Table<K, V>
    requires TableOk(t, n, hashOf) && |t.items| < UNUSED
  {
    Table(Pushed(Added(t.shape, link), |t.items|, Bucket(hashOf, n, key)),
          t.items + [Some(Item(key, val))], t.at[key := |t.items|])
  }

  /** The first slot of the freelist takes it. */
  ghost function InsertedReused<K(!new), V>(t: Table<K, V>, n: nat, hashOf: K -> uint32, key: K, val: V): Table<K, V>
    requires TableOk(t, n, hashOf) && t.shape.chains[n] != []
  {
    assert ChainOk(t.shape, n);
    var e := t.shape.chains[n][0];
    Table(Moved(t.shape, n, 0, Bucket(hashOf, n, key)), t.items[e := Some(Item(key, val))], t.at[key := e])
  }

  /** The element at position i of a bucket goes to the front of the freelist. */
  ghost function Removed<K(!new), V>(t: Table<K, V>, n: nat, hashOf: K -> uint32, key: K, i: nat): Table<K, V>
    requires TableOk(t, n, hashOf) && i < |t.shape.chains[Bucket(hashOf, n, key)]|
  {
    var b := Bucket(hashOf, n, key);
    Table(Moved(t.shape, b, i, n), t.items, t.at - {key})
  }

  lemma InsertFreshOk<K(!new), V>(t: Table<K, V>, n: nat, hashOf: K -> uint32, key: K, val: V, link: uint32)
    requires TableOk(t, n, hashOf) && |t.items| < UNUSED && key !in t.at
    ensures TableOk(InsertedFresh(t, n, hashOf, key, val, link), n, hashOf)
    ensures Contents(InsertedFresh(t, n, hashOf, key, val, link), n, hashOf) == Contents(t, n, hashOf)[key := val]
  {
    hide Bucket, ShapeOk, KeysOk, Values;
    ChainOf(t.shape, n);
    var b := Bucket(hashOf, n, key);
    AddedOk(t.shape, link);
    PushedOk(Added(t.shape, link), |t.items|, b);
    KeysAppend(t.shape.home, t.items, t.at, n, hashOf, key, val);
    assert (t.shape.home + [n + 1])[|t.items| := b] == t.shape.home + [b];
  }

  lemma InsertReusedOk<K(!new), V>(t: Table<K, V>, n: nat, hashOf: K -> uint32, key: K, val: V)
    requires TableOk(t, n, hashOf) && t.shape.chains[n] != [] && key !in t.at
    ensures TableOk(InsertedReused(t, n, hashOf, key, val), n, hashOf)
    ensures Contents(InsertedReused(t, n, hashOf, key, val), n, hashOf) == Contents(t, n, hashOf)[key := val]
  {
    hide Bucket, ShapeOk, KeysOk, Values, Moved, Without;
    MovedOk(t.shape, n, 0, Bucket(hashOf, n, key));
    KeysInsert(t.shape.home, t.items, t.at, n, hashOf, key, val, t.shape.chains[n][0]);
  }

  lemma RemovedOk<K(!new), V>(t: Table<K, V>, n: nat, hashOf: K -> uint32, key: K, i: nat)
    requires TableOk(t, n, hashOf) && key in t.at
    requires i < |t.shape.chains[Bucket(hashOf, n, key)]| && t.shape.chains[Bucket(hashOf, n, key)][i] == t.at[key]
    ensures TableOk(Removed(t, n, hashOf, key, i), n, hashOf)
    ensures Contents(Removed(t, n, hashOf, key, i), n, hashOf) == Contents(t, n, hashOf) - {key}
  {
    hide Bucket, ShapeOk, KeysOk, Values, Moved, Without;
    MovedOk(t.shape, Bucket(hashOf, n, key), i, n);
    KeysRemove(t.shape.home, t.items, t.at, n, hashOf, key);
    assert |t.at - {key}| == |t.at| - 1;
  }

  /** A present key is on the chain of its bucket. */
  lemma OnItsChain<K(!new), V>(t: Table<K, V>, n: nat, hashOf: K -> uint32, key: K)
    requires TableOk(t, n, hashOf) && key in t.at
    ensures t.at[key] in t.shape.chains[Bucket(hashOf, n, key)]
    ensures t.at[key] < |t.items| && t.items[t.at[key]].Some? && t.items[t.at[key]].value.key == key
  {
    assert Placed(t.shape.home, t.items, t.at, Bucket(hashOf, n, key), key);
  }

  /** What a bucket's chain holds: items with keys of that bucket, present in the table. */
  lemma ChainItems<K(!new), V>(t: Table<K, V>, n: nat, hashOf: K -> uint32, b: nat, i: nat)
    requires TableOk(t, n, hashOf) && b < n && i < |t.shape.chains[b]|
    ensures var e := t.shape.chains[b][i];
      && e < |t.items| == |t.shape.links| && t.items[e].Some?
      && t.items[e].value.key in t.at && t.at[t.items[e].value.key] == e
      && Bucket(hashOf, n, t.items[e].value.key) == b
      && Contents(t, n, hashOf)[t.items[e].value.key] == t.items[e].value.val
      && t.shape.links[e] == At(t.shape.chains[b], i + 1)
  {
    assert ChainOk(t.shape, b);
    var e := t.shape.chains[b][i];
    var key := t.items[e].value.key;
    assert Placed(t.shape.home, t.items, t.at, Bucket(hashOf, n, key), key);
  }

  // -- Growth --

  /** The next size of the block, or none when it cannot grow. */
  function GrownAllocation(all: uint32): Option<uint32> {
    if all <= UNUSED / 2 then Some(all * 2) else if all != UNUSED then Some(UNUSED) else None
  }

  /** Growing makes room exactly when the block was not empty to begin with, and never so much that a
      slot would be numbered like the sentinel. */
  lemma GrowthMakesRoom(all: uint32)
    ensures GrownAllocation(all).None? <==> all == UNUSED
    ensures all < UNUSED ==> (GrownAllocation(all).value > all <==> all > 0)
    ensures all < UNUSED ==> GrownAllocation(all).value <= UNUSED
  {
  }

  class HashTable<!K(==,!new), V> {
    const N: nat
    const hashOf: K -> uint32
    const inits: array<uint32>
    /** The block, its links and its keys and values. */
    var links: array<uint32>
    var items: array<Option<Item<K, V>>>
    var count: nat
    var used: uint32
    var free: uint32
    ghost var chains: seq<seq<nat>>
    ghost var home: seq<nat>
    ghost var at: map<K, nat>

    ghost predicate Fits()
      reads this
    {
      && 0 < N < UNUSED && inits.Length == N + 1 && links.Length == items.Length
      && links.Length <= UNUSED && used <= links.Length && inits != links
    }

    /** The stored state with its meaning. */
    ghost function Model(): Table<K, V>
      requires Fits()
      reads this, inits, links, items
    {
      Table(Shape(inits[..N] + [free], links[..used], chains, home), items[..used], at)
    }

    ghost predicate Valid()
      reads this, inits, links, items
    {
      Fits() && TableOk(Model(), N, hashOf) && count == |at|
    }

    /** The finite map that the table stands for. */
    ghost function Map(): map<K, V>
      requires Valid()
      reads this, inits, links, items
    {
      Contents(Model(), N, hashOf)
    }

    /** `utp_hash_create` */
    constructor (buckets: nat, hash: K -> uint32, initial: uint32)
      requires buckets % 2 == 1 && buckets < UNUSED
      ensures Valid() && Map() == map[] && N == buckets && hashOf == hash && links.Length == initial
      ensures fresh(inits) && fresh(links) && fresh(items)
    {
      N, hashOf := buckets, hash;
      inits := new uint32[buckets + 1](i => UNUSED);
      links := new uint32[initial](i => 0);
      items := new Option<Item<K, V>>[initial](i => None);
      count, used, free := 0, 0, UNUSED;
      chains, home, at := seq(buckets + 1, i => []), [], map[];
      new;
      assert forall b :: 0 <= b <= N ==> ChainOk(Model().shape, b);
    }

    /** The walk along a bucket: where the key is, and the slot whose link leads there. */
    method Locate(key: K) returns (cur: uint32, prev: uint32, ghost i: nat)
      requires Valid()
      ensures (cur == UNUSED <==> key !in Map()) && Map().Keys == at.Keys
      ensures key in Map() ==>
        var c := chains[Bucket(hashOf, N, key)];
        i < |c| && c[i] == cur == at[key] && prev == if i == 0 then UNUSED else c[i - 1]
    {
      hide TableOk, Bucket, Contents;
      var idx := Bucket(hashOf, N, key);
      ghost var t := Model();
      BucketHead(t, N, hashOf, idx);
      cur := inits[idx];
      prev := UNUSED;
      i := 0;
      while cur != UNUSED
        invariant i <= |chains[idx]| && cur == At(chains[idx], i)
        invariant prev == if i == 0 then UNUSED else chains[idx][i - 1]
        invariant forall j :: 0 <= j < i ==>
          var e := chains[idx][j]; e < used && items[e].Some? && items[e].value.key != key
        decreases |chains[idx]| - i
      {
        ChainItems(t, N, hashOf, idx, i);
        if items[cur].value.key == key {
          return;
        }
        prev := cur;
        cur := links[cur];
        i := i + 1;
      }
      NotOnChain(t, N, hashOf, key);
    }

    /** `utp_hash_lookup` */
    method Lookup(key: K) returns (r: Option<V>)
      requires Valid()
      ensures r == if key in Map() then Some(Map()[key]) else None
    {
      hide TableOk, Bucket, Contents;
      var cur, prev; ghost var i;
      cur, prev, i := Locate(key);
      if cur == UNUSED {
        return None;
      }
      OnItsChain(Model(), N, hashOf, key);
      ChainItems(Model(), N, hashOf, Bucket(hashOf, N, key), i);
      r := Some(items[cur].value.val);
    }

    /** `GetCount` */
    method GetCount() returns (n: nat)
      requires Valid()
      ensures n == |Map()|
    {
      assert Map().Keys == at.Keys;
      assert |Map().Keys| == |Map()| && |at.Keys| == |at|;
      n := count;
    }

    /** Room for one more when every slot was used before: realloc keeps what is there. */
    method Reallocate(all: uint32)
      requires Fits() && links.Length < all
      modifies this`links, this`items
      ensures Fits() && links.Length == all && fresh(links) && fresh(items)
      ensures Model() == old(Model())
    {
      var l := new uint32[all](i => 0);
      var m := new Option<Item<K, V>>[all](i => None);
      forall i | 0 <= i < used { l[i] := links[i]; }
      forall i | 0 <= i < used { m[i] := items[i]; }
      assert l[..used] == links[..used] && m[..used] == items[..used];
      links, items := l, m;
    }

    /** The slot that the next element goes to when the freelist is empty. */
    method AddFresh(key: K, val: V)
      requires Valid() && key !in at && free == UNUSED && used < links.Length
      modifies this, inits, links, items
      ensures Valid() && Map() == old(Map())[key := val]
      ensures links == old(links) && items == old(items)
    {
      hide TableOk, Bucket, Contents, ShapeOk;
      ghost var t := Model();
      var idx := Bucket(hashOf, N, key);
      InsertFreshOk(t, N, hashOf, key, val, links[used]);
      BucketHead(t, N, hashOf, idx);
      var elem := used;
      used := used + 1;
      links[elem] := inits[idx];
      inits[idx] := elem;
      count := count + 1;
      items[elem] := Some(Item(key, val));
      chains, home, at := chains[idx := [elem] + chains[idx]], home + [idx], at[key := elem];
      ghost var g := InsertedFresh(t, N, hashOf, key, val, old(links[used]));
      assert Model().shape.heads == g.shape.heads;
      assert Model().shape.links == g.shape.links;
      assert Model().shape.home == g.shape.home;
      assert Model().items == g.items;
    }

    /** The first free slot takes the element. */
    method AddReused(key: K, val: V)
      requires Valid() && key !in at && free != UNUSED
      modifies this, inits, links, items
      ensures Valid() && Map() == old(Map())[key := val]
      ensures links == old(links) && items == old(items)
    {
      hide TableOk, Bucket, Contents, ShapeOk;
      ghost var t := Model();
      var idx := Bucket(hashOf, N, key);
      BucketHead(t, N, hashOf, N);
      FreeChain(t, N, hashOf, 0);
      InsertReusedOk(t, N, hashOf, key, val);
      var elem := free;
      free := links[elem];
      links[elem] := inits[idx];
      inits[idx] := elem;
      count := count + 1;
      items[elem] := Some(Item(key, val));
      ghost var g := InsertedReused(t, N, hashOf, key, val);
      chains, home, at := g.shape.chains, g.shape.home, g.at;
      assert Model().shape.heads == g.shape.heads;
      assert Model().shape.links == g.shape.links;
      assert Model().items == g.items;
    }

    /** `utp_hash_add` for an absent key and the assignment of its value. It fails only when all of
        the numbers below the sentinel are taken. The block must not be empty: growing makes no room in an
        empty one, and the source would then store outside it. */
    method Add(key: K, val: V) returns (ok: bool)
      requires Valid() && key !in Map() && links.Length > 0
      modifies this, inits, links, items
      ensures links.Length >= old(links.Length)
      ensures Valid() && ok == (|old(Map())| < UNUSED)
      ensures Map() == if ok then old(Map())[key := val] else old(Map())
      ensures (links == old(links) && items == old(items)) || (fresh(links) && fresh(items))
    {
      hide TableOk, Bucket, Contents, ShapeOk;
      BucketHead(Model(), N, hashOf, N);
      if free == UNUSED {
        if used == links.Length {
          GrowthMakesRoom(used);
          match GrownAllocation(used) {
            case None => return false;
            case Some(all) => Reallocate(all);
          }
        }
        AddFresh(key, val);
      } else {
        AddReused(key, val);
      }
      ok := true;
    }

    /** The three stores that move an element from after prev, or from a bucket's head, to the freelist. */
    method Relink(idx: nat, cur: uint32, prev: uint32)
      requires Fits() && idx < N && cur < used && (prev < used || prev == UNUSED)
      modifies inits, links
      ensures inits[..] == if prev == UNUSED then old(inits[..][idx := links[cur]]) else old(inits[..])
      ensures links[..] == (if prev == UNUSED then old(links[..]) else old(links[..][prev := links[cur]]))[cur := free]
    {
      if prev == UNUSED {
        inits[idx] := links[cur];
      } else {
        links[prev] := links[cur];
      }
      links[cur] := free;
    }

    /** The located element leaves its bucket and heads the freelist. */
    method Release(key: K, idx: nat, cur: uint32, prev: uint32, ghost i: nat)
      requires
        && Valid() && key in at && idx == Bucket(hashOf, N, key) && i < |chains[idx]|
        && chains[idx][i] == cur == at[key]
      requires prev == if i == 0 then UNUSED else chains[idx][i - 1]
      modifies this, inits, links
      ensures Valid() && Map() == old(Map()) - {key} && links == old(links) && items == old(items) && used == old(used)
      ensures chains == old(chains[idx := Without(chains[idx], i)])[N := [cur as nat] + old(chains[N])]
    {
      hide TableOk, Bucket, Contents, ShapeOk, Removed;
      ghost var t := Model();
      RemovedOk(t, N, hashOf, key, i);
      RemovedStored(t, N, hashOf, key, i, prev);
      Relink(idx, cur, prev);
      free := cur;
      count := count - 1;
      ghost var g := Removed(t, N, hashOf, key, i);
      chains, home, at := g.shape.chains, g.shape.home, g.at;
      assert Model().shape.heads == g.shape.heads;
      assert Model().shape.links == g.shape.links;
    }

    /** `utp_hash_del`: the element, already deleted, if there was one. */
    method Delete(key: K) returns (r: Option<V>)
      requires Valid()
      modifies this, inits, links
      ensures Valid() && Map() == old(Map()) - {key} && links == old(links) && items == old(items) && used == old(used)
      ensures r == if key in old(Map()) then Some(old(Map())[key]) else None
      ensures key in old(at) ==> TookOut(old(chains), chains, Bucket(hashOf, N, key), N, old(at)[key])
    {
      hide TableOk, Bucket, Contents, ShapeOk, Without;
      var cur, prev; ghost var i;
      cur, prev, i := Locate(key);
      if cur == UNUSED {
        return None;
      }
      OnItsChain(Model(), N, hashOf, key);
      ChainItems(Model(), N, hashOf, Bucket(hashOf, N, key), i);
      r := Some(items[cur].value.val);
      BucketHead(Model(), N, hashOf, N);
      Release(key, Bucket(hashOf, N, key), cur, prev, i);
    }

    /** What an iterator has yet to visit: the rest of its bucket and the buckets after it. */
    ghost function Remaining(it: Cursor): seq<nat>
      requires |chains| == N + 1
      reads this, it
    {
      if it.bucket < N then From(chains[it.bucket], it.elem) + Rest(chains, it.bucket + 1, N) else Rest(chains, 0, N)
    }

    ghost predicate Points(it: Cursor)
      requires |chains| == N + 1
      reads this, it
    {
      if it.bucket < N then it.elem == UNUSED || it.elem in chains[it.bucket]
      else it.bucket == UINT_MAX && it.elem == UNUSED
    }

    /** The search for the next bucket that is not empty. */
    method NextBucket(from: uint32) returns (buck: uint32)
      requires Valid()
      ensures buck >= N ==> Rest(chains, from, N) == []
      ensures buck < N ==>
        |chains| == N + 1 && chains[buck] != [] && Rest(chains, from, N) == chains[buck] + Rest(chains, buck + 1, N)
    {
      hide TableOk;
      BucketHead(Model(), N, hashOf, 0);
      buck := from;
      while buck < N && inits[buck] == UNUSED
        invariant from <= buck <= Max(N, from) && Rest(chains, from, N) == Rest(chains, buck, N)
      {
        BucketHead(Model(), N, hashOf, buck);
        buck := buck + 1;
      }
      if buck < N { BucketHead(Model(), N, hashOf, buck); }
    }

    /** The element an iterator is at; past the end of a bucket it moves on to the next one. */
    method Settle(it: Cursor) returns (elem: uint32)
      requires Valid() && Points(it)
      modifies it`bucket
      ensures elem == UNUSED ==> old(Remaining(it)) == [] && unchanged(it)
      ensures elem != UNUSED ==>
        && it.bucket < N && elem in chains[it.bucket]
        && old(Remaining(it)) == From(chains[it.bucket], elem) + Rest(chains, it.bucket + 1, N)
    {
      hide TableOk, Bucket, Contents, Rest;
      BucketHead(Model(), N, hashOf, N);
      elem := it.elem;
      if elem == UNUSED {
        if it.bucket < N { FromNothing(Model(), N, hashOf, it.bucket); }
        ghost var r := Remaining(it);
        assert r == Rest(chains, U32(it.bucket + 1), N);
        var buck := NextBucket(U32(it.bucket + 1));
        if buck < N {
          elem := inits[buck];
          it.bucket := buck;
          BucketHead(Model(), N, hashOf, buck);
          assert chains[buck][0] == elem;
        }
      }
    }

    /** `utp_hash_iterate` */
    method Iterate(it: Cursor) returns (r: Option<Item<K, V>>)
      requires Valid() && Points(it)
      modifies it
      ensures Points(it)
      ensures r.None? <==> old(Remaining(it)) == []
      ensures r.Some? ==> it.bucket < N && Remaining(it) == old(Remaining(it))[1..]
      ensures r.Some? ==> Visited(Model(), N, hashOf, it.bucket, it.elem, old(Remaining(it))[0], r)
    {
      hide TableOk, Bucket, Contents, Rest, At, From, Visited;
      BucketHead(Model(), N, hashOf, N);
      var elem := Settle(it);
      if elem == UNUSED {
        return None;
      }
      VisitedNext(Model(), N, hashOf, it.bucket, elem, Rest(chains, it.bucket + 1, N));
      it.elem := links[elem];
      r := items[elem];
    }

    /** One turn of a loop that may delete the element just returned. */
    method Visit(it: Cursor, doomed: K -> bool) returns (r: Option<Item<K, V>>)
      requires Valid() && Points(it)
      modifies this, inits, links, it
      ensures Valid() && Points(it) && links == old(links) && items == old(items) && used == old(used)
      ensures r.None? <==> old(Remaining(it)) == []
      ensures r.None? ==> Map() == old(Map())
      ensures r.Some? ==>
        Remaining(it) == old(Remaining(it))[1..] && old(Remaining(it))[0] < used && items[old(Remaining(it))[0]] == r
      ensures r.Some? ==> Map() == if doomed(r.value.key) then old(Map()) - {r.value.key} else old(Map())
    {
      hide TableOk, Bucket, Contents, Rest, At, From, TookOut;
      BucketHead(Model(), N, hashOf, N);
      r := Iterate(it);
      if r.Some? && doomed(r.value.key) {
        ghost var t, e := Model(), old(Remaining(it))[0];
        var _ := Delete(r.value.key);
        BucketHead(Model(), N, hashOf, N);
        StillAhead(t, N, hashOf, it.bucket, it.elem, e, r, chains);
      }
    }

    /** The loop of both callers of the iterator: it ends, and it visits every element that was there
        exactly once, whichever of the visited ones are deleted on the way. */
    method Sweep(doomed: K -> bool) returns (visited: seq<Item<K, V>>)
      requires Valid()
      modifies this, inits, links
      ensures Valid()
      ensures Once(visited, old(Map()))
      ensures Map() == map key | key in old(Map()) && !doomed(key) :: old(Map())[key]
    {
      hide TableOk, Bucket, Contents, Rest, At, From, Swept, Once;
      var it := new Cursor();
      BucketHead(Model(), N, hashOf, N);
      ghost var t, all, was := Model(), Rest(chains, 0, N), Map();
      visited := [];
      SweptNone(was, doomed);
      while true
        invariant
          && Valid() && |chains| == N + 1 && Points(it) && fresh(it) && links == old(links) && items == old(items)
          && used == old(used)
        invariant |visited| <= |all| && Remaining(it) == all[|visited|..]
        invariant forall j :: 0 <= j < |visited| ==> all[j] < used && items[all[j]] == Some(visited[j])
        invariant Map() == Swept(was, visited, doomed)
        decreases |all| - |visited|
      {
        var r := Visit(it, doomed);
        BucketHead(Model(), N, hashOf, N);
        if r.None? {
          break;
        }
        SweptNext(was, visited, r.value, doomed);
        visited := visited + [r.value];
      }
      OnceThrough(t, N, hashOf, visited);
      SweptAll(was, visited, doomed);
    }
  }

  ghost predicate Names<K(!new), V>(visited: seq<Item<K, V>>, key: K) {
    exists i :: 0 <= i < |visited| && visited[i].key == key
  }

  /** The elements of a map, each of them once. */
  ghost predicate Once<K(!new), V>(visited: seq<Item<K, V>>, m: map<K, V>) {
    && (forall i, j :: 0 <= i < j < |visited| ==> visited[i].key != visited[j].key)
    && (forall i :: 0 <= i < |visited| ==> visited[i].key in m && m[visited[i].key] == visited[i].val)
    && (forall key :: key in m ==> Names(visited, key))
  }

  /** The elements on the bucket chains, in order, are those of the map. */
  lemma OnceThrough<K(!new), V>(t: Table<K, V>, n: nat, hashOf: K -> uint32, visited: seq<Item<K, V>>)
    requires TableOk(t, n, hashOf) && |visited| == |Rest(t.shape.chains, 0, n)|
    requires forall j :: 0 <= j < |visited| ==>
      var e := Rest(t.shape.chains, 0, n)[j]; e < |t.items| && t.items[e] == Some(visited[j])
    ensures Once(visited, Contents(t, n, hashOf))
  {
    hide ShapeOk, Bucket;
    var all := Rest(t.shape.chains, 0, n);
    RestExact(t.shape, 0, n);
    forall j | 0 <= j < |visited|
      ensures visited[j].key in t.at && t.at[visited[j].key] == all[j]
    {
      assert all[j] in all;
    }
    forall key | key in t.at
      ensures Names(visited, key)
    {
      OnItsChain(t, n, hashOf, key);
      assert Placed(t.shape.home, t.items, t.at, Bucket(hashOf, n, key), key);
      assert t.at[key] in all;
      var i :| 0 <= i < |all| && all[i] == t.at[key];
      assert visited[i].key == key;
    }
  }

  lemma SweptNone<K, V>(m: map<K, V>, doomed: K -> bool)
    ensures Swept(m, [], doomed) == m
  {
  }

  lemma SweptNext<K, V>(m: map<K, V>, visited: seq<Item<K, V>>, item: Item<K, V>, doomed: K -> bool)
    ensures Swept(m, visited + [item], doomed) ==
      if doomed(item.key) then Swept(m, visited, doomed) - {item.key} else Swept(m, visited, doomed)
  {
    assert (visited + [item])[..|visited|] == visited;
  }

  lemma {:induction false} SweptIs<K(!new), V>(m: map<K, V>, visited: seq<Item<K, V>>, doomed: K -> bool)
    ensures Swept(m, visited, doomed) ==
      map key | key in m && !(doomed(key) && Names(visited, key)) :: m[key]
  {
    if visited != [] {
      var n := |visited| - 1;
      SweptIs(m, visited[..n], doomed);
      forall key
        ensures Names(visited, key) <==> visited[n].key == key || Names(visited[..n], key)
      {
        if i :| 0 <= i < n && visited[i].key == key {
          assert visited[..n][i].key == key;
        }
      }
    }
  }

  lemma SweptAll<K(!new), V>(m: map<K, V>, visited: seq<Item<K, V>>, doomed: K -> bool)
    requires Once(visited, m)
    ensures Swept(m, visited, doomed) == map key | key in m && !doomed(key) :: m[key]
  {
    SweptIs(m, visited, doomed);
  }

  /** Slot e was returned: an element of the iterator's bucket, and the iterator is now after it. */
  ghost predicate Visited<K(!new), V>(t: Table<K, V>, n: nat, hashOf: K -> uint32, b: nat, next: nat, e: nat,
      r: Option<Item<K, V>>) {
    && b < n < |t.shape.chains| && e < |t.items| && t.items[e] == r && r.Some?
    && r.value.key in t.at && t.at[r.value.key] == e && b == Bucket(hashOf, n, r.value.key)
    && exists i :: 0 <= i < |t.shape.chains[b]| && t.shape.chains[b][i] == e && next == At(t.shape.chains[b], i + 1)
  }

  lemma VisitedNext<K(!new), V>(t: Table<K, V>, n: nat, hashOf: K -> uint32, b: nat, e: nat, rest: seq<nat>)
    requires TableOk(t, n, hashOf) && b < n && e in t.shape.chains[b]
    ensures
      && e < |t.items| == |t.shape.links| && t.items[e].Some?
      && Visited(t, n, hashOf, b, t.shape.links[e], e, t.items[e])
    ensures t.shape.links[e] == UNUSED || t.shape.links[e] in t.shape.chains[b]
    ensures var f := From(t.shape.chains[b], e) + rest;
      f != [] && f[0] == e && From(t.shape.chains[b], t.shape.links[e]) + rest == f[1..]
  {
    hide TableOk, Distinct, Bucket, From;
    BucketHead(t, n, hashOf, b);
    var i := PositionOf(t, n, hashOf, b, e);
    ChainItems(t, n, hashOf, b, i);
    FromStep(t.shape.chains[b], i, rest);
  }

  ghost function PositionOf<K(!new), V>(t: Table<K, V>, n: nat, hashOf: K -> uint32, b: nat, e: nat): (i: nat)
    requires TableOk(t, n, hashOf) && b < n && e in t.shape.chains[b]
    ensures i < |t.shape.chains[b]| && t.shape.chains[b][i] == e && Distinct(t.shape.chains[b])
    ensures forall j :: 0 <= j < |t.shape.chains[b]| ==> t.shape.chains[b][j] != UNUSED
  {
    ChainHome(t.shape, b);
    var i :| 0 <= i < |t.shape.chains[b]| && t.shape.chains[b][i] == e;
    i
  }

  lemma StillAhead<K(!new), V>(t: Table<K, V>, n: nat, hashOf: K -> uint32, b: nat, next: nat, e: nat,
      r: Option<Item<K, V>>, now: seq<seq<nat>>)
    requires TableOk(t, n, hashOf) && Visited(t, n, hashOf, b, next, e, r) && TookOut(t.shape.chains, now, b, n, e)
    ensures |now| == n + 1 && (next == UNUSED || next in now[b])
    ensures From(now[b], next) + Rest(now, b + 1, n) == From(t.shape.chains[b], next) + Rest(t.shape.chains, b + 1, n)
  {
    hide Without, From, Rest, At, TookOut, Distinct, Bucket;
    var c := t.shape.chains[b];
    ChainHome(t.shape, b);
    var i: nat :| i < |c| && c[i] == e && next == At(c, i + 1);
    hide TableOk, Visited;
    AheadOf(t.shape.chains, b, n, e, i, now);
  }

  lemma AheadOf(was: seq<seq<nat>>, b: nat, n: nat, e: nat, i: nat, now: seq<seq<nat>>)
    requires |was| == n + 1 && b < n && i < |was[b]| && was[b][i] == e && TookOut(was, now, b, n, e)
    requires Distinct(was[b]) && forall k :: 0 <= k < |was[b]| ==> was[b][k] != UNUSED
    ensures |now| == n + 1 && (At(was[b], i + 1) == UNUSED || At(was[b], i + 1) in now[b])
    ensures var next := At(was[b], i + 1);
      From(now[b], next) + Rest(now, b + 1, n) == From(was[b], next) + Rest(was, b + 1, n)
  {
    hide Without, From, Rest, At;
    var j :| 0 <= j < |was[b]| && was[b][j] == e && now == was[b := Without(was[b], j)][n := [e] + was[n]];
    assert i == j;
    hide Distinct, TookOut;
    FromWithout(was[b], i);
    RestFrame(was, now, b + 1, n);
  }

  /** `utp_hash_iterator_t` */
  class Cursor {
    var bucket: uint32
    var elem: uint32

    constructor ()
      ensures bucket == elem == UINT_MAX
    {
      bucket, elem := UINT_MAX, UINT_MAX;
    }
  }

  /** One slot left one chain for the last one. */
  ghost predicate TookOut(was: seq<seq<nat>>, now: seq<seq<nat>>, b: nat, n: nat, e: nat) {
    && b < n < |was|
    && exists i :: 0 <= i < |was[b]| && was[b][i] == e && now == was[b := Without(was[b], i)][n := [e] + was[n]]
  }

  lemma FromNothing<K(!new), V>(t: Table<K, V>, n: nat, hashOf: K -> uint32, b: nat)
    requires TableOk(t, n, hashOf) && b < n
    ensures From(t.shape.chains[b], UNUSED) == []
  {
    var c := t.shape.chains[b];
    ChainHome(t.shape, b);
    FromAt(c, |c|);
  }

  /** What a removal stores, in terms of what was stored. */
  lemma RemovedStored<K(!new), V>(t: Table<K, V>, n: nat, hashOf: K -> uint32, key: K, i: nat, prev: uint32)
    requires TableOk(t, n, hashOf) && key in t.at
    requires i < |t.shape.chains[Bucket(hashOf, n, key)]| && t.shape.chains[Bucket(hashOf, n, key)][i] == t.at[key]
    requires prev == if i == 0 then UNUSED else t.shape.chains[Bucket(hashOf, n, key)][i - 1]
    ensures var s, b, e := t.shape, Bucket(hashOf, n, key), t.at[key];
      var g := Removed(t, n, hashOf, key, i);
      && |s.heads| == n + 1 && e < |s.links| && (prev == UNUSED || prev < |s.links|) && b < n
      && g.shape.heads == (if prev == UNUSED then s.heads[b := s.links[e]] else s.heads)[n := e]
      && g.shape.links == (if prev == UNUSED then s.links else s.links[prev := s.links[e]])[e := s.heads[n]]
      && g.shape.chains == s.chains[b := Without(s.chains[b], i)][n := [e] + s.chains[n]]
      && g.items == t.items && |g.at| == |t.at| - 1
  {
    hide Bucket, TableOk, Contents;
    var b := Bucket(hashOf, n, key);
    BucketHead(t, n, hashOf, b);
    ChainItems(t, n, hashOf, b, i);
    if i > 0 { ChainItems(t, n, hashOf, b, i - 1); }
  }

  lemma FreeChain<K(!new), V>(t: Table<K, V>, n: nat, hashOf: K -> uint32, i: nat)
    requires TableOk(t, n, hashOf) && i < |t.shape.chains[n]|
    ensures t.shape.chains[n][i] < |t.items| == |t.shape.links|
    ensures t.shape.links[t.shape.chains[n][i]] == At(t.shape.chains[n], i + 1)
  {
    assert ChainOk(t.shape, n);
  }

  /** What a sweep leaves of a map. */
  ghost function Swept<K, V>(m: map<K, V>, visited: seq<Item<K, V>>, doomed: K -> bool): map<K, V> {
    if visited == [] then m else
      var n := |visited| - 1;
      var w := Swept(m, visited[..n], doomed);
      if doomed(visited[n].key) then w - {visited[n].key} else w
  }

  lemma BucketHead<K(!new), V>(t: Table<K, V>, n: nat, hashOf: K -> uint32, b: nat)
    requires TableOk(t, n, hashOf) && b <= n
    ensures |t.shape.chains| == |t.shape.heads| == n + 1 && t.shape.heads[b] == At(t.shape.chains[b], 0)
    ensures forall i :: 0 <= i < |t.shape.chains[b]| ==> t.shape.chains[b][i] < UNUSED
    ensures Contents(t, n, hashOf).Keys == t.at.Keys
    ensures |t.shape.home| == |t.shape.links| == |t.items| == |t.at| + |t.shape.chains[n]|
  {
    assert ChainOk(t.shape, b);
  }

  /** A key found nowhere on its bucket's chain is absent. */
  lemma NotOnChain<K(!new), V>(t: Table<K, V>, n: nat, hashOf: K -> uint32, key: K)
    requires TableOk(t, n, hashOf)
    requires forall i :: 0 <= i < |t.shape.chains[Bucket(hashOf, n, key)]| ==>
      var e := t.shape.chains[Bucket(hashOf, n, key)][i];
      e < |t.items| && t.items[e].Some? && t.items[e].value.key != key
    ensures key !in Contents(t, n, hashOf)
  {
    if key in t.at {
      OnItsChain(t, n, hashOf, key);
    }
  }
}
