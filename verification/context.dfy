/** The context: which socket a datagram is for. */
module Contexts {
  import opened Words
  import opened Rings
  import opened Chains
  import opened HashTables
  import opened ContextLists

  const UTP_SOCKET_BUCKETS: nat := 79
  const UTP_SOCKET_INIT: uint32 := 15

  /** `UTPSocketKey` */
  datatype Key = Key(addr: Addr, recvId: uint32)

  function KeyHash(hashAddr: Addr -> uint32, key: Key): uint32 {
    ((key.recvId as bv32) ^ (hashAddr(key.addr) as bv32)) as int
  }

  function KeyOf(m: Member): Key { Key(m.addr, m.connIdRecv) }

  /** The two ids of a connection are neighbours: the initiator receives on the lower one. */
  ghost predicate Paired(m: Member) {
    || (m.connIdRecv <= 0xffff && m.connIdSend == m.connIdRecv + 1)
    || (m.connIdSend <= 0xffff && m.connIdRecv == m.connIdSend + 1)
  }

  /** Every entry is filed under its own socket's address and receive id. */
  ghost predicate Filed(m: map<Key, Member>, sockets: set<Member>) {
    && (forall key :: key in m ==> KeyOf(m[key]) == key && m[key] in sockets && Paired(m[key]))
    && (forall s :: s in sockets ==> KeyOf(s) in m && m[KeyOf(s)] == s)
  }

  lemma FiledUnder(m: map<Key, Member>, sockets: set<Member>, addr: Addr, id: uint32)
    requires Filed(m, sockets)
    ensures Key(addr, id) in m ==>
      var s := m[Key(addr, id)]; s in sockets && s.addr == addr && s.connIdRecv == id && Paired(s)
  {
  }

  lemma FiledSocket(m: map<Key, Member>, sockets: set<Member>, s: Member)
    requires Filed(m, sockets) && s in sockets
    ensures KeyOf(s) in m && m[KeyOf(s)] == s
  {
  }

  lemma FiledAdd(m: map<Key, Member>, sockets: set<Member>, s: Member)
    requires Filed(m, sockets) && KeyOf(s) !in m && Paired(s)
    ensures Filed(m[KeyOf(s) := s], sockets + {s}) && (s !in sockets ==> s !in m.Values)
  {
  }

  lemma FiledRemove(m: map<Key, Member>, sockets: set<Member>, s: Member)
    requires Filed(m, sockets) && s in sockets
    ensures KeyOf(s) in m && m[KeyOf(s)] == s && Filed(m - {KeyOf(s)}, sockets - {s})
  {
  }

  /** A socket known by its sending id is filed one above or one below it. */
  lemma NeighboursOnly(m: map<Key, Member>, sockets: set<Member>, addr: Addr, id: uint16)
    requires Filed(m, sockets)
    ensures forall s :: s in sockets && s.addr == addr && s.connIdRecv == id ==> Key(addr, id) in m
    ensures forall s :: s in sockets && s.addr == addr && s.connIdSend == id ==>
      || (Key(addr, id + 1) in m && m[Key(addr, id + 1)] == s)
      || (Key(addr, U32(id - 1)) in m && m[Key(addr, U32(id - 1))] == s)
  {
  }

  /** The seed is the first of the draws that is free at the address. */
  ghost predicate FirstFree(m: map<Key, Member>, addr: Addr, draws: seq<uint32>, seed: uint32) {
    exists i :: 0 <= i < |draws| && seed == draws[i] % 0x1_0000 && TakenBefore(m, addr, draws, i)
  }

  ghost predicate TakenBefore(m: map<Key, Member>, addr: Addr, draws: seq<uint32>, i: nat)
    requires i <= |draws|
  {
    forall k :: 0 <= k < i ==> Key(addr, draws[k] % 0x1_0000) in m
  }

  class Context {
    const table: HashTable<Key, Member>
    const acks: AckList
    var last: Member?

    ghost predicate Valid()
      reads this, table, table.inits, table.links, table.items, acks, acks.list, acks.list.mem, acks.sockets
    {
      && table.Valid() && acks.Valid() && table.links.Length > 0
      && Filed(table.Map(), acks.sockets)
      && (last != null ==> last in acks.sockets)
    }

    /** The live sockets by key. */
    ghost function Sockets(): map<Key, Member>
      requires table.Valid()
      reads this, table, table.inits, table.links, table.items
    {
      table.Map()
    }

    constructor (hashAddr: Addr -> uint32)
      ensures Valid() && Sockets() == map[] && last == null
    {
      table := new HashTable<Key, Member>(UTP_SOCKET_BUCKETS, key => KeyHash(hashAddr, key), UTP_SOCKET_INIT);
      acks := new AckList();
      last := null;
    }

    /** The socket for a packet: the one-entry cache gives what the table would. */
    method Receive(addr: Addr, id: uint32) returns (conn: Member?)
      requires Valid()
      modifies this`last
      ensures Valid()
      ensures conn == if Key(addr, id) in Sockets() then Sockets()[Key(addr, id)] else null
    {
      hide HashTable<Key, Member>.Valid, HashTable<Key, Member>.Map, AckList.Valid, AckList.Listed, Filed;
      FiledUnder(Sockets(), acks.sockets, addr, id);
      if last != null { FiledSocket(Sockets(), acks.sockets, last); }
      if last != null && last.addr == addr && last.connIdRecv == id {
        conn := last;
      } else {
        var r := table.Lookup(Key(addr, id));
        conn := null;
        if r.Some? {
          conn := r.value;
          last := conn;
        }
      }
    }

    /** The socket that a reset or a quoted packet names by either of its ids. */
    method FindByEitherId(addr: Addr, id: uint16) returns (conn: Member?)
      requires Valid()
      ensures conn != null ==>
        conn in acks.sockets && conn.addr == addr && (conn.connIdRecv == id || conn.connIdSend == id)
      ensures conn == null ==>
        forall s :: s in acks.sockets && s.addr == addr ==> s.connIdRecv != id && s.connIdSend != id
      ensures Key(addr, id) in Sockets() ==> conn == Sockets()[Key(addr, id)]
    {
      hide HashTable<Key, Member>.Valid, HashTable<Key, Member>.Map, AckList.Valid, AckList.Listed, Filed;
      FiledUnder(Sockets(), acks.sockets, addr, id);
      FiledUnder(Sockets(), acks.sockets, addr, id + 1);
      FiledUnder(Sockets(), acks.sockets, addr, U32(id - 1));
      NeighboursOnly(Sockets(), acks.sockets, addr, id);
      var r := table.Lookup(Key(addr, id));
      if r.Some? {
        return r.value;
      }
      r := table.Lookup(Key(addr, id + 1));
      if r.Some? && r.value.connIdSend == id {
        return r.value;
      }
      r := table.Lookup(Key(addr, U32(id - 1)));
      if r.Some? && r.value.connIdSend == id {
        return r.value;
      }
      return null;
    }

    /** A socket is created, initialised and filed. */
    method Install(addr: Addr, recv: uint32, send: uint32) returns (conn: Member)
      requires Valid() && Key(addr, recv) !in Sockets() && |Sockets()| < UNUSED
      requires (recv <= 0xffff && send == recv + 1) || (send <= 0xffff && recv == send + 1)
      modifies table, table.inits, table.links, table.items, acks
      ensures Valid() && fresh(conn) && acks.sockets == old(acks.sockets) + {conn} && conn !in old(Sockets()).Values
      ensures Sockets() == old(Sockets())[Key(addr, recv) := conn]
      ensures conn.addr == addr && conn.connIdRecv == recv && conn.connIdSend == send
      ensures
        || (table.links == old(table.links) && table.items == old(table.items))
        || (fresh(table.links) && fresh(table.items))
    {
      hide HashTable<Key, Member>.Valid, HashTable<Key, Member>.Map, AckList.Valid, AckList.Listed, Filed;
      ghost var was := Sockets();
      conn := acks.Create(addr, recv, send);
      var ok := table.Add(Key(addr, recv), conn);
      FiledAdd(was, old(acks.sockets), conn);
    }

    /** `utp_connect`: random numbers are drawn until one is free at that address. */
    method Connect(addr: Addr, draws: seq<uint32>) returns (conn: Member?)
      requires Valid() && |Sockets()| < UNUSED
      modifies table, table.inits, table.links, table.items, acks
      ensures Valid() && (conn != null ==> fresh(conn))
      ensures acks.sockets == old(acks.sockets) + if conn == null then {} else {conn}
      ensures
        || (table.links == old(table.links) && table.items == old(table.items))
        || (fresh(table.links) && fresh(table.items))
      ensures conn == null <==> forall i :: 0 <= i < |draws| ==> Key(addr, draws[i] % 0x1_0000) in old(Sockets())
      ensures conn == null ==> Sockets() == old(Sockets())
      ensures conn != null ==> KeyOf(conn) !in old(Sockets()) && Sockets() == old(Sockets())[KeyOf(conn) := conn]
      ensures conn != null ==> conn.addr == addr && conn.connIdRecv <= 0xffff && conn.connIdSend == conn.connIdRecv + 1
      ensures conn != null ==> FirstFree(old(Sockets()), addr, draws, conn.connIdRecv)
    {
      hide HashTable<Key, Member>.Valid, HashTable<Key, Member>.Map, AckList.Valid, AckList.Listed, Filed;
      for i := 0 to |draws|
        invariant Valid() && Sockets() == old(Sockets()) && |Sockets()| < UNUSED
        invariant
          && table.links == old(table.links) && table.items == old(table.items) && acks.sockets == old(acks.sockets)
        invariant forall k :: 0 <= k < i ==> Key(addr, draws[k] % 0x1_0000) in Sockets()
      {
        var seed := draws[i] % 0x1_0000;
        var r := table.Lookup(Key(addr, seed));
        if r.None? {
          assert TakenBefore(Sockets(), addr, draws, i);
          conn := Install(addr, seed, seed + 1);
          return;
        }
      }
      return null;
    }

    /** Whether a connection request is turned away. */
    method Refuses(addr: Addr, id: uint16, firewalled: bool) returns (refused: bool)
      requires Valid()
      ensures refused <==> Key(addr, id + 1) in Sockets() || |Sockets()| > 3000 || firewalled
    {
      hide HashTable<Key, Member>.Valid, HashTable<Key, Member>.Map, AckList.Valid, AckList.Listed, Filed;
      var r := table.Lookup(Key(addr, id + 1));
      var n := table.GetCount();
      refused := r.Some? || n > 3000 || firewalled;
    }

    /** The part of `utp_process_udp` that answers a connection request. */
    method Accept(addr: Addr, id: uint16, firewalled: bool) returns (conn: Member?)
      requires Valid()
      modifies table, table.inits, table.links, table.items, acks
      ensures Valid() && (conn != null ==> fresh(conn))
      ensures acks.sockets == old(acks.sockets) + if conn == null then {} else {conn}
      ensures
        || (table.links == old(table.links) && table.items == old(table.items))
        || (fresh(table.links) && fresh(table.items))
      ensures conn == null <==> Key(addr, id + 1) in old(Sockets()) || |old(Sockets())| > 3000 || firewalled
      ensures conn == null ==> Sockets() == old(Sockets())
      ensures conn != null ==> Sockets() == old(Sockets())[Key(addr, id + 1) := conn]
      ensures conn != null ==> conn.addr == addr && conn.connIdRecv == id + 1 && conn.connIdSend == id
      ensures conn != null ==> conn !in old(Sockets()).Values
    {
      hide HashTable<Key, Member>.Valid, HashTable<Key, Member>.Map, Context.Valid, Context.Sockets;
      var refused := Refuses(addr, id, firewalled);
      if refused {
        return null;
      }
      conn := Install(addr, id + 1, id);
    }

    /** `~UTPSocket`: cache, table and list all forget the socket; the assert is the source's own. */
    method Destroy(conn: Member)
      requires Valid() && conn in acks.sockets
      modifies this`last, table, table.inits, table.links, acks, acks.list, acks.list.mem, acks.sockets
      ensures Valid() && acks.sockets == old(acks.sockets) - {conn} && last != conn
      ensures Sockets() == old(Sockets()) - {KeyOf(conn)}
      ensures last == old(last) || (last == null && old(last) == conn)
    {
      hide HashTable<Key, Member>.Valid, HashTable<Key, Member>.Map, AckList.Valid, AckList.Listed, Filed;
      FiledRemove(Sockets(), acks.sockets, conn);
      if last == conn {
        last := null;
      }
      var kd := table.Delete(KeyOf(conn));
      assert kd == Some(conn);
      acks.Forget(conn);
    }
  }

  /** An initiator that drew seed sends under seed + 1 on the 16-bit wire, and the acceptor of its
      request is filed under the 32-bit seed + 1. In every later state of the acceptor's table, as long
      as the socket lives, the initiator's packets are for it exactly if the seed is not the last one;
      then they are for whatever socket has id 0, if any. */
  lemma PairsUp(m: map<Key, Member>, sockets: set<Member>, accepted: Member, addr: Addr, seed: uint16)
    requires Filed(m, sockets) && accepted in sockets
    requires accepted.addr == addr && accepted.connIdRecv == seed + 1
    ensures Key(addr, U16(seed + 1)) in m && m[Key(addr, U16(seed + 1))] == accepted <==> seed != 0xffff
    ensures seed == 0xffff ==> Key(addr, U16(seed + 1)) == Key(addr, 0)
  {
    FiledSocket(m, sockets, accepted);
  }

  /** The objects of two contexts are apart. */
  ghost predicate Apart(x: Context, y: Context)
    reads x, y, x.table, y.table, x.acks, y.acks, x.acks.list, y.acks.list
  {
    && x != y && x.table != y.table && x.acks != y.acks && x.table.inits != y.table.inits
    && x.table.inits != y.table.links && x.table.links != y.table.inits
    && x.table.links != y.table.links && x.table.items != y.table.items && x.acks.list != y.acks.list
    && x.acks.list.mem != y.acks.list.mem && x.acks.sockets !! y.acks.sockets
  }

  /** A dial, its acceptance and the first packet each way: x, at the address ax, dials y at ay. The
      acceptor's packets reach the dialling socket; the dialler's reach the accepted one exactly if
      the seed drawn is not the last one, and otherwise a bystander with id 0, or no socket. */
  method Rendezvous(x: Context, y: Context, ax: Addr, ay: Addr, draws: seq<uint32>, firewalled: bool)
    returns (dialler: Member?, accepted: Member?, atX: Member?, atY: Member?)
    requires x.Valid() && y.Valid() && Apart(x, y) && |x.Sockets()| < UNUSED
    modifies x`last, x.table, x.table.inits, x.table.links, x.table.items, x.acks
    modifies y`last, y.table, y.table.inits, y.table.links, y.table.items, y.acks
    ensures x.Valid() && y.Valid()
    ensures dialler != null && accepted != null ==>
      && dialler.connIdRecv <= 0xffff && atX == dialler
      && (atY == accepted <==> dialler.connIdRecv != 0xffff)
      && (dialler.connIdRecv == 0xffff ==>
           atY == if Key(ax, 0) in old(y.Sockets()) then old(y.Sockets())[Key(ax, 0)] else null)
  {
    hide Context.Valid, HashTable<Key, Member>.Valid, HashTable<Key, Member>.Map, FirstFree, U16;
    accepted, atX, atY := null, null, null;
    dialler := x.Connect(ay, draws);
    if dialler != null {
      accepted := y.Accept(ax, dialler.connIdRecv, firewalled);
      if accepted != null {
        U16Small(accepted.connIdSend);
        PlusOne(dialler.connIdRecv);
        atX := x.Receive(ay, U16(accepted.connIdSend));
        atY := y.Receive(ax, U16(dialler.connIdSend));
      }
    }
  }

  lemma PlusOne(seed: uint16)
    ensures U16(seed + 1) == if seed == 0xffff then 0 else seed + 1
  {
  }
}
