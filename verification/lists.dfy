/** The growable array of the templates header, and the two lists a context keeps in such arrays:
    the sockets that owe an acknowledgement, and the peers that were lately sent a reset. */
module ContextLists {
  import opened Words

  const ARRAY_MIN: nat := 16

  /** `Array`: elements, room for more, and removal by moving the last one up. */
  class Array<T(0)> {
    var mem: array<T>
    var count: nat

    ghost predicate Valid()
      reads this
    {
      count <= mem.Length
    }

    ghost function Elements(): seq<T>
      requires Valid()
      reads this, mem
    {
      mem[..count]
    }

    constructor ()
      ensures Valid() && Elements() == [] && fresh(mem)
    {
      mem, count := new T[0], 0;
    }

    /** `Resize`: what fits is kept. */
    method Resize(a: nat)
      requires Valid()
      modifies this
      ensures Valid() && mem.Length == a && fresh(mem)
      ensures count <= old(count) && Elements() == old(Elements())[..count] && (a >= old(count) ==> count == old(count))
    {
      var n := new T[a];
      if count > a {
        count := a;
      }
      forall i | 0 <= i < count { n[i] := mem[i]; }
      mem := n;
    }

    method Append(t: T) returns (r: nat)
      requires Valid()
      modifies this, mem
      ensures Valid() && Elements() == old(Elements()) + [t] && r == old(count)
      ensures mem == old(mem) || fresh(mem)
    {
      if count >= mem.Length {
        Resize(Max(ARRAY_MIN, mem.Length * 2));
      }
      r := count;
      count := count + 1;
      mem[r] := t;
    }

    method Set(index: nat, t: T)
      requires Valid() && index < count
      modifies mem
      ensures Valid() && Elements() == old(Elements())[index := t]
    {
      mem[index] := t;
    }

    /** `MoveUpLast`: the last element fills the gap. */
    method MoveUpLast(index: nat) returns (moved: bool)
      requires Valid() && index < count
      modifies this`count, mem
      ensures Valid() && Elements() == MovedUp(old(Elements()), index)
      ensures moved == (index != count)
    {
      count := count - 1;
      moved := index != count;
      if moved {
        mem[index] := mem[count];
      }
    }

    method Compact()
      requires Valid()
      modifies this
      ensures Valid() && Elements() == old(Elements()) && mem.Length == count && fresh(mem)
    {
      Resize(count);
    }
  }

  ghost function MovedUp<T>(s: seq<T>, index: nat): seq<T>
    requires index < |s|
  {
    s[index := s[|s| - 1]][..|s| - 1]
  }

  // -- Deferred acknowledgements --

  datatype Addr = Addr(ip: seq<uint16>, port: uint16)

  /** What a context knows of a socket: how its packets are addressed, and its place in the list of
      deferred acknowledgements, -1 for none. */
  class Member {
    const addr: Addr
    const connIdRecv: uint32
    const connIdSend: uint32
    var ida: int

    constructor (addr: Addr, connIdRecv: uint32, connIdSend: uint32)
      ensures this.addr == addr && this.connIdRecv == connIdRecv && this.connIdSend == connIdSend && ida == -1
    {
      this.addr, this.connIdRecv, this.connIdSend, ida := addr, connIdRecv, connIdSend, -1;
    }
  }

  class AckList {
    const list: Array<Member?>
    ghost var sockets: set<Member>

    ghost predicate Valid()
      reads this, list, list.mem, sockets
    {
      && list.Valid()
      && (forall i :: 0 <= i < list.count ==> list.mem[i] != null && list.mem[i] in sockets && list.mem[i].ida == i)
      && (forall m :: m in sockets ==> m.ida == -1 || (0 <= m.ida < list.count && list.mem[m.ida] == m))
    }

    /** The sockets listed, in order. */
    ghost function Listed(): seq<Member?>
      requires list.Valid()
      reads this, list, list.mem
    {
      list.Elements()
    }

    constructor ()
      ensures Valid() && Listed() == [] && sockets == {} && fresh(list) && fresh(list.mem)
    {
      list := new Array<Member?>();
      sockets := {};
    }

    /** A new socket belongs to the context and is not listed. */
    method Create(addr: Addr, connIdRecv: uint32, connIdSend: uint32) returns (m: Member)
      requires Valid()
      modifies this
      ensures Valid() && fresh(m) && sockets == old(sockets) + {m} && Listed() == old(Listed())
      ensures m.addr == addr && m.connIdRecv == connIdRecv && m.connIdSend == connIdSend && m.ida == -1
    {
      m := new Member(addr, connIdRecv, connIdSend);
      sockets := sockets + {m};
    }

    /** A socket that is destroyed is taken off the list first. */
    method Forget(m: Member)
      requires Valid() && m in sockets
      modifies this, list, list.mem, sockets
      ensures Valid() && m !in Listed() && sockets == old(sockets) - {m} && list.mem == old(list.mem)
      ensures -1 <= old(m.ida) < |old(Listed())|
      ensures Listed() == if old(m.ida) >= 0 then MovedUp(old(Listed()), old(m.ida)) else old(Listed())
    {
      hide MovedUp;
      Remove(m);
      sockets := sockets - {m};
    }

    /** `schedule_ack` */
    method Schedule(m: Member)
      requires Valid() && m in sockets
      modifies list, list.mem, m
      ensures Valid() && m.ida >= 0
      ensures Listed() == if m in old(Listed()) then old(Listed()) else old(Listed()) + [m]
      ensures list.mem == old(list.mem) || fresh(list.mem)
    {
      ghost var was := Listed();
      assert m.ida == -1 || was[m.ida] == m;
      if m.ida == -1 {
        var r := list.Append(m);
        m.ida := r;
        assert forall i :: 0 <= i < r ==> list.mem[i] == list.Elements()[i] == was[i];
        assert list.mem[r] == list.Elements()[r] == m;
      }
    }

    /** `removeSocketFromAckList`; the two asserts are the source's own. */
    method Remove(m: Member)
      requires Valid() && m in sockets
      modifies list, list.mem, sockets
      ensures Valid() && m.ida == -1 && list.mem == old(list.mem)
      ensures -1 <= old(m.ida) < |old(Listed())|
      ensures Listed() == if old(m.ida) >= 0 then MovedUp(old(Listed()), old(m.ida)) else old(Listed())
      ensures old(m.ida) >= 0 ==> old(Listed())[old(m.ida)] == m
      ensures forall o :: o in sockets && old(o.ida) == -1 ==> o.ida == -1
    {
      assert m.ida >= 0 ==> list.mem[m.ida] == m;
      if m.ida >= 0 {
        var last := list.mem[list.count - 1];
        assert last.ida < list.count;
        assert list.mem[last.ida] == last;
        last.ida := m.ida;
        list.mem[m.ida] := last;
        m.ida := -1;
        list.count := list.count - 1;
      }
    }

    /** Sockets of the context, each named once and none of them listed. */
    ghost predicate Settled(acked: seq<Member?>)
      reads this, sockets
    {
      && (forall i :: 0 <= i < |acked| ==> acked[i] != null && acked[i] in sockets && acked[i].ida == -1)
      && (forall i, j :: 0 <= i < j < |acked| ==> acked[i] != acked[j])
    }

    /** The socket at the front of the list sends its acknowledgement and leaves the list. */
    method AckFront(ghost acked: seq<Member?>) returns (conn: Member)
      requires Valid() && list.count > 0 && Settled(acked)
      modifies list, list.mem, sockets
      ensures Valid() && list.mem == old(list.mem) && list.count == old(list.count) - 1
      ensures Settled(acked + [conn])
      ensures multiset(acked + [conn]) + multiset(Listed()) == multiset(acked) + multiset(old(Listed()))
    {
      hide MovedUp;
      conn := list.mem[0];
      assert conn == Listed()[0];
      MovedUpBag(Listed(), 0);
      Remove(conn);
    }

    /** `utp_issue_deferred_acks`. Sending an acknowledgement takes its socket off the list, so the
        loop stays at the front; it acknowledges every listed socket once and leaves none. */
    method IssueDeferredAcks() returns (acked: seq<Member?>)
      requires Valid()
      modifies list, list.mem, sockets
      ensures Valid() && Listed() == [] && forall m :: m in sockets ==> m.ida == -1
      ensures multiset(acked) == multiset(old(Listed()))
      ensures forall i, j :: 0 <= i < j < |acked| ==> acked[i] != acked[j]
    {
      hide AckList.Settled;
      acked := [];
      NoneSettled();
      while 0 < list.count
        invariant Valid() && list.mem == old(list.mem) && Settled(acked)
        invariant multiset(acked) + multiset(Listed()) == multiset(old(Listed()))
        decreases list.count
      {
        var conn := AckFront(acked);
        acked := acked + [conn];
      }
      SettledOnce(acked);
    }

    lemma NoneSettled()
      ensures Settled([])
    {
    }

    lemma SettledOnce(acked: seq<Member?>)
      requires Settled(acked)
      ensures forall i, j :: 0 <= i < j < |acked| ==> acked[i] != acked[j]
    {
    }
  }

  lemma MovedUpBag<T>(s: seq<T>, index: nat)
    requires index < |s|
    ensures multiset(MovedUp(s, index)) == multiset(s) - multiset{s[index]}
    ensures |MovedUp(s, index)| == |s| - 1
  {
    var last := s[|s| - 1];
    assert s == s[..|s| - 1] + [last];
    if index < |s| - 1 {
      assert MovedUp(s, index) == s[..|s| - 1][index := last];
    } else {
      assert MovedUp(s, index) == s[..|s| - 1];
    }
  }

  // -- Reset records --

  datatype RstInfo = RstInfo(addr: Addr, connid: uint32, ackNr: uint16, timestamp: int)

  const RST_INFO_TIMEOUT: int := 10000
  const RST_INFO_LIMIT: nat := 1000

  predicate Expired(e: RstInfo, now: int) {
    I32(now - e.timestamp) >= RST_INFO_TIMEOUT
  }

  ghost predicate SamePeer(a: RstInfo, b: RstInfo) {
    a.addr == b.addr && a.connid == b.connid && a.ackNr == b.ackNr
  }

  /** The records of a list that have not expired, with their multiplicities. */
  ghost function Unexpired(s: seq<RstInfo>, now: int): multiset<RstInfo> {
    if s == [] then multiset{} else
      Unexpired(s[1..], now) + if Expired(s[0], now) then multiset{} else multiset{s[0]}
  }

  lemma {:induction false} UnexpiredAppend(s: seq<RstInfo>, e: RstInfo, now: int)
    ensures Unexpired(s + [e], now) == Unexpired(s, now) + if Expired(e, now) then multiset{} else multiset{e}
  {
    if s == [] {
      assert (s + [e])[1..] == [];
    } else {
      UnexpiredAppend(s[1..], e, now);
      assert (s + [e])[1..] == s[1..] + [e];
    }
  }

  lemma UnexpiredFirst(e: RstInfo, s: seq<RstInfo>, now: int)
    ensures Unexpired([e] + s, now) == Unexpired(s, now) + if Expired(e, now) then multiset{} else multiset{e}
  {
    hide Expired;
    assert ([e] + s)[1..] == s;
  }

  /** Moving the last record over an expired first one loses none that has not expired. */
  lemma UnexpiredMoved(s: seq<RstInfo>, now: int)
    requires s != [] && Expired(s[0], now)
    ensures Unexpired(MovedUp(s, 0), now) == Unexpired(s, now)
  {
    hide Expired, Unexpired;
    var n := |s| - 1;
    if n > 0 {
      var first, middle, last := s[0], s[1..n], s[n];
      assert s == [first] + (middle + [last]);
      assert MovedUp(s, 0) == [last] + middle;
      UnexpiredFirst(first, middle + [last], now);
      UnexpiredAppend(middle, last, now);
      UnexpiredFirst(last, middle, now);
    } else {
      assert s == [s[0]] + [] && MovedUp(s, 0) == [];
      UnexpiredFirst(s[0], [], now);
    }
  }

  lemma {:induction false} UnexpiredHas(s: seq<RstInfo>, e: RstInfo, now: int)
    ensures e in s && !Expired(e, now) <==> e in Unexpired(s, now)
  {
    hide Expired;
    if s != [] {
      UnexpiredHas(s[1..], e, now);
      assert e in s <==> e == s[0] || e in s[1..];
    }
  }

  /** A record goes once it is ten seconds old and not before. */
  lemma Spared(s: seq<RstInfo>, kept: seq<RstInfo>, now: int)
    requires multiset(kept) == Unexpired(s, now)
    ensures forall e :: e in s && 0 <= now - e.timestamp < 10000 ==> e in kept
    ensures forall e :: e in s && 10000 <= now - e.timestamp < 0x8000_0000 ==> e !in kept
  {
    forall e | e in s
      ensures e in kept <==> !Expired(e, now)
    {
      UnexpiredHas(s, e, now);
      assert e in kept <==> e in multiset(kept);
    }
  }

  ghost predicate DistinctPeers(s: seq<RstInfo>) {
    forall i, j :: 0 <= i < j < |s| ==> !SamePeer(s[i], s[j])
  }

  /** The records looked at and kept, and what is to be kept of the others. */
  ghost function Keeping(s: seq<RstInfo>, i: nat, now: int): multiset<RstInfo>
    requires i <= |s|
  {
    multiset(s[..i]) + Unexpired(s[i..], now)
  }

  ghost predicate Passed(s: seq<RstInfo>, i: nat, now: int)
    requires i <= |s|
  {
    forall k :: 0 <= k < i ==> !Expired(s[k], now)
  }

  lemma KeepingMoved(s: seq<RstInfo>, i: nat, now: int)
    requires i < |s| && Expired(s[i], now) && Passed(s, i, now)
    ensures |MovedUp(s, i)| == |s| - 1
    ensures Keeping(MovedUp(s, i), i, now) == Keeping(s, i, now) && Passed(MovedUp(s, i), i, now)
  {
    hide Unexpired, Expired;
    var m := MovedUp(s, i);
    UnexpiredMoved(s[i..], now);
    assert m[..i] == s[..i];
    assert m[i..] == MovedUp(s[i..], 0) by {
      assert |m[i..]| == |MovedUp(s[i..], 0)|;
    }
  }

  lemma KeepingNext(s: seq<RstInfo>, i: nat, now: int)
    requires i < |s| && !Expired(s[i], now) && Passed(s, i, now)
    ensures Keeping(s, i + 1, now) == Keeping(s, i, now) && Passed(s, i + 1, now)
  {
    assert s[i..][1..] == s[i + 1..];
    assert s[..i + 1] == s[..i] + [s[i]];
  }

  lemma KeepingEnds(s: seq<RstInfo>, now: int)
    ensures Keeping(s, 0, now) == Unexpired(s, now) && Keeping(s, |s|, now) == multiset(s)
    ensures Passed(s, 0, now) && (Passed(s, |s|, now) ==> forall e :: e in s ==> !Expired(e, now))
  {
    assert s[..|s|] == s && s[0..] == s;
  }

  lemma DistinctMoved(s: seq<RstInfo>, i: nat)
    requires i < |s| && DistinctPeers(s)
    ensures DistinctPeers(MovedUp(s, i))
  {
  }

  ghost predicate NoRecord(s: seq<RstInfo>, e: RstInfo) {
    forall r :: r in s ==> !SamePeer(r, e)
  }

  /** A record of the same packet gets the new time, any other stays. */
  ghost function Renewed(r: RstInfo, e: RstInfo): RstInfo {
    if SamePeer(r, e) then e else r
  }

  class RstList {
    const entries: Array<RstInfo>

    /** At most one record for a peer's connection and number, and not too many of them. */
    ghost predicate Valid()
      reads this, entries, entries.mem
    {
      && entries.Valid() && entries.count <= RST_INFO_LIMIT + 1
      && DistinctPeers(entries.mem[..entries.count])
    }

    ghost function Records(): seq<RstInfo>
      requires entries.Valid()
      reads this, entries, entries.mem
    {
      entries.Elements()
    }

    constructor ()
      ensures Valid() && Records() == [] && fresh(entries) && fresh(entries.mem)
    {
      entries := new Array<RstInfo>();
    }

    /** A packet for no socket: a reset is sent unless one was already on record, whose time is then
        renewed, or there are too many. */
    method Reject(addr: Addr, id: uint32, nr: uint16, now: int) returns (sendReset: bool)
      requires Valid()
      modifies entries, entries.mem
      ensures Valid() && (entries.mem == old(entries.mem) || fresh(entries.mem))
      ensures sendReset
        <==> |old(Records())| <= RST_INFO_LIMIT && NoRecord(old(Records()), RstInfo(addr, id, nr, now))
      ensures sendReset ==> Records() == old(Records()) + [RstInfo(addr, id, nr, now)]
      ensures forall r :: r in old(Records()) && r.addr == addr && r.connid == id && r.ackNr == nr ==> !sendReset
      ensures |old(Records())| <= 1000 && !sendReset ==>
        exists r :: r in old(Records()) && r.addr == addr && r.connid == id && r.ackNr == nr
      ensures |old(Records())| > 1000 ==> !sendReset
      ensures !sendReset ==> |Records()| == |old(Records())| && forall k :: 0 <= k < |Records()| ==>
        Records()[k] == Renewed(old(Records())[k], RstInfo(addr, id, nr, now))
    {
      ghost var was := Records();
      ghost var new_ := RstInfo(addr, id, nr, now);
      for i := 0 to entries.count
        invariant Valid() && Records() == was && entries.mem == old(entries.mem)
        invariant forall k :: 0 <= k < i ==> !SamePeer(was[k], new_)
      {
        var e := entries.mem[i];
        assert e == was[i];
        if e.connid == id && e.addr == addr && e.ackNr == nr {
          assert was[i] in was && SamePeer(was[i], new_);
          entries.Set(i, e.(timestamp := now));
          return false;
        }
      }
      if entries.count > RST_INFO_LIMIT {
        return false;
      }
      var r := entries.Append(RstInfo(addr, id, nr, now));
      assert Records()[r] == new_ && forall k :: 0 <= k < r ==> Records()[k] == was[k];
      return true;
    }

    /** The expiry loop of `utp_check_timeouts`: exactly the unexpired records stay. */
    method Expire(now: int)
      requires Valid()
      modifies entries, entries.mem
      ensures Valid() && (entries.mem == old(entries.mem) || fresh(entries.mem))
      ensures multiset(Records()) == Unexpired(old(Records()), now)
      ensures forall e :: e in Records() ==> !Expired(e, now)
      ensures forall e :: e in old(Records()) && 0 <= now - e.timestamp < 10000 ==> e in Records()
      ensures forall e :: e in old(Records()) && 10000 <= now - e.timestamp < 0x8000_0000 ==> e !in Records()
      ensures entries.mem.Length == entries.count
    {
      hide Keeping, Unexpired, MovedUp, DistinctPeers, Expired, Passed;
      var i := 0;
      KeepingEnds(Records(), now);
      while i < entries.count
        invariant i <= entries.count && Valid() && entries.mem == old(entries.mem)
        invariant Keeping(Records(), i, now) == Unexpired(old(Records()), now) && Passed(Records(), i, now)
        decreases entries.count - i
      {
        ghost var s := Records();
        if Expired(entries.mem[i], now) {
          KeepingMoved(s, i, now);
          DistinctMoved(s, i);
          var _ := entries.MoveUpLast(i);
        } else {
          KeepingNext(s, i, now);
          i := i + 1;
        }
      }
      KeepingEnds(Records(), now);
      Spared(old(Records()), Records(), now);
      if entries.count != entries.mem.Length {
        entries.Compact();
      }
    }
  }
}
