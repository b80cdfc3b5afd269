/** The search for the largest datagram a path passes: a binary search driven by probe packets, by
    their acknowledgement or loss, and by router messages. */
module MtuDiscovery {
  import opened Words

  const MTU_FLOOR_MIN: nat := 576
  const SEARCH_INTERVAL: nat := 30 * 60 * 1000

  class MtuSearch {
    /** What the interface reports, and where the search therefore starts from below. */
    const interfaceMtu: nat
    var floor: nat
    var ceiling: nat
    var last: nat
    var probeSeq: uint16
    var probeSize: nat
    var discoverTime: int

    ghost function Lowest(): nat { Min(MTU_FLOOR_MIN, interfaceMtu) }

    ghost predicate Valid()
      reads this
    {
      && Lowest() <= floor <= ceiling <= interfaceMtu
      && floor <= last <= ceiling
      && (probeSeq != 0 ==> floor < probeSize <= ceiling)
    }

    /** The search has not gone astray on a path that passes exactly the sizes up to path. */
    ghost predicate Knows(path: nat)
      reads this
    {
      floor <= path && (path <= ceiling || (floor == ceiling && path <= floor + 16))
    }

    /** `mtu_reset` and the assignment of `mtu_last` when a socket is initialised. */
    constructor (mtu: nat, now: int)
      ensures Valid() && probeSeq == 0 && interfaceMtu == mtu && last == ceiling == mtu && floor == Lowest()
      ensures discoverTime == now + SEARCH_INTERVAL
      ensures forall path: nat | Lowest() <= path <= mtu :: Knows(path)
    {
      interfaceMtu := mtu;
      ceiling, floor, last := mtu, Min(MTU_FLOOR_MIN, mtu), mtu;
      probeSeq, probeSize, discoverTime := 0, 0, now + SEARCH_INTERVAL;
    }

    /** `mtu_reset`: an outstanding probe stays outstanding, and still lies in the range. */
    method Reset(now: int)
      requires Valid()
      modifies this
      ensures Valid() && floor == Lowest() && ceiling == interfaceMtu
      ensures last == old(last) && probeSeq == old(probeSeq) && probeSize == old(probeSize)
      ensures forall path: nat | Lowest() <= path <= interfaceMtu :: Knows(path)
    {
      ceiling := interfaceMtu;
      floor := MTU_FLOOR_MIN;
      if floor > ceiling {
        floor := ceiling;
      }
      discoverTime := now + SEARCH_INTERVAL;
    }

    /** `mtu_search_update`: needs bounds in range but not in order. In order and far apart it keeps
        them and goes half way, in order and close together it settles on the floor. */
    method SearchUpdate(now: int)
      requires Lowest() <= floor <= interfaceMtu && Lowest() <= ceiling <= interfaceMtu
      modifies this
      ensures Valid() && probeSeq == 0
      ensures old(floor <= ceiling) ==>
        floor == old(floor) && ceiling == if old(ceiling - floor <= 16) then floor else old(ceiling)
      ensures old(floor > ceiling) ==> ceiling <= old(floor)
      ensures floor < ceiling ==> ceiling - floor > 16 && last == (floor + ceiling) / 2
      ensures old(discoverTime) >= now ==> discoverTime >= now
    {
      if floor > ceiling {
        ceiling := floor;
        floor := if ceiling > MTU_FLOOR_MIN then (MTU_FLOOR_MIN + ceiling) / 2 else ceiling;
      }
      assert floor <= ceiling;
      last := (floor + ceiling) / 2;
      probeSeq, probeSize := 0, 0;
      if ceiling - floor <= 16 {
        last := floor;
        ceiling := floor;
        discoverTime := now + SEARCH_INTERVAL;
      }
    }

    /** The part of `send_packet` that makes a first transmission a probe. */
    method SendPacket(length: nat, seqNr: uint16, transmissions: nat, now: int) returns (probe: bool)
      requires Valid()
      modifies this
      ensures Valid() && last == old(last)
      ensures old(discoverTime) >= now ==>
        floor == old(floor) && ceiling == old(ceiling) && discoverTime == old(discoverTime)
      ensures old(discoverTime) < now ==> floor == Lowest() && ceiling == interfaceMtu
      ensures probe <==> old(probeSeq) == 0 && floor < length <= ceiling && seqNr != 1 && transmissions == 0
      ensures probe ==> probeSeq == U16(seqNr - 1) && probeSize == length
      ensures !probe ==> probeSeq == old(probeSeq) && probeSize == old(probeSize)
      ensures forall path: nat :: old(Knows(path)) && old(discoverTime) >= now ==> Knows(path)
    {
      if discoverTime < now {
        Reset(now);
      }
      probe := false;
      if floor < ceiling && length > floor && length <= ceiling && probeSeq == 0 && seqNr != 1 && transmissions == 0 {
        probeSeq := U16(seqNr - 1);
        probeSize := length;
        probe := true;
        assert floor <= length <= ceiling;
      }
    }

    /** An acknowledged packet; the probe's is the only one that matters. */
    method Acked(nr: uint16, now: int)
      requires Valid()
      modifies this
      ensures Valid()
      ensures old(probeSeq) != 0 && nr == old(probeSeq) ==>
        && probeSeq == 0 && ceiling - floor < old(ceiling - floor)
        && (floor < ceiling ==> ceiling - floor > 16 && last == (floor + ceiling) / 2)
        && floor == old(probeSize)
        && (ceiling == floor || ceiling == old(ceiling))
        && forall path: nat :: old(Knows(path)) ==> (Knows(path) <==> old(probeSize) <= path)
      ensures !(old(probeSeq) != 0 && nr == old(probeSeq)) ==> unchanged(this)
      ensures old(discoverTime) >= now ==> discoverTime >= now
    {
      if probeSeq != 0 && nr == probeSeq {
        floor := probeSize;
        SearchUpdate(now);
      }
    }

    /** The probe is given up as too big. */
    method Rejected(now: int)
      requires Valid() && probeSeq != 0
      modifies this
      ensures Valid() && probeSeq == 0 && ceiling - floor < old(ceiling - floor)
      ensures floor == old(floor) && (ceiling == floor || ceiling == old(probeSize) - 1)
      ensures floor < ceiling ==> ceiling - floor > 16 && last == (floor + ceiling) / 2
      ensures old(discoverTime) >= now ==> discoverTime >= now
      ensures forall path: nat :: old(Knows(path)) ==>
        (Knows(path) <==> path < old(probeSize) || (old(probeSize) <= floor + 17 && path <= floor + 16))
    {
      ceiling := probeSize - 1;
      SearchUpdate(now);
    }

    /** The retransmission timer: a probe alone in flight was too big, any other is merely gone. */
    method TimedOut(curWindowPackets: nat, seqNr: uint16, now: int) returns (ignoreLoss: bool)
      requires Valid()
      modifies this
      ensures Valid() && probeSeq == 0
      ensures ignoreLoss <==> curWindowPackets == 1 && U16(seqNr - 1) == old(probeSeq) && old(probeSeq) != 0
      ensures ignoreLoss ==> ceiling - floor < old(ceiling - floor)
      ensures !ignoreLoss ==> floor == old(floor) && ceiling == old(ceiling) && last == old(last)
      ensures forall path: nat :: old(Knows(path)) && (ignoreLoss ==> path < old(probeSize)) ==> Knows(path)
    {
      ignoreLoss := false;
      if curWindowPackets == 1 && U16(seqNr - 1) == probeSeq && probeSeq != 0 {
        Rejected(now);
        ignoreLoss := true;
      }
      probeSeq, probeSize := 0, 0;
    }

    /** The third duplicate acknowledgement: it blames the probe only when the probe is next in line. */
    method DuplicateAcks(ackNr: uint16, now: int)
      requires Valid()
      modifies this
      ensures Valid() && probeSeq == 0
      ensures old(probeSeq) != 0 && ackNr == U16(old(probeSeq) - 1) ==> ceiling - floor < old(ceiling - floor)
      ensures !(old(probeSeq) != 0 && ackNr == U16(old(probeSeq) - 1)) ==>
        floor == old(floor) && ceiling == old(ceiling) && last == old(last)
      ensures forall path: nat ::
        old(Knows(path)) && (old(probeSeq) != 0 && ackNr == U16(old(probeSeq) - 1) ==> path < old(probeSize))
        ==> Knows(path)
    {
      if probeSeq != 0 {
        if ackNr == U16(probeSeq - 1) {
          Rejected(now);
        } else {
          probeSeq, probeSize := 0, 0;
        }
      }
    }

    /** `utp_process_icmp_fragmentation`. A router whose own limit is no less than the path's never
        leads the search astray; a nonsensical value lowers the ceiling half way blindly. */
    method Icmp(nextHopMtu: uint16, now: int)
      requires Valid()
      modifies this
      ensures Valid() && probeSeq == 0
      ensures 576 <= nextHopMtu < 0x2000 ==> last == ceiling
      ensures forall path: nat :: old(Knows(path)) && path <= nextHopMtu && 576 <= nextHopMtu < 0x2000 ==> Knows(path)
      ensures !(576 <= nextHopMtu < 0x2000) ==> forall path: nat :: old(Knows(path)) ==>
        (Knows(path) <==> path <= old(floor + ceiling) / 2 || (old(ceiling - floor) < 34 && path <= old(floor) + 16))
    {
      if 576 <= nextHopMtu < 0x2000 {
        ceiling := Min(nextHopMtu, ceiling);
        SearchUpdate(now);
        last := ceiling;
      } else {
        ceiling := (floor + ceiling) / 2;
        SearchUpdate(now);
      }
    }

    /** A whole search with full-sized packets on a path that passes exactly the sizes up to path, no
        reset falling due. Unless the first packet would not be above the floor, it ends at most 16
        bytes below the path's limit and never above, after at most one probe for the first guess and
        one for each halving; otherwise no full-sized packet is ever a probe and nothing changes. */
    method Search(path: nat, now: int) returns (probes: nat)
      requires Valid() && probeSeq == 0 && Knows(path) && discoverTime >= now
      modifies this
      ensures Valid() && Knows(path) && probeSeq == 0
      ensures floor == ceiling <==> !old(Stuck())
      ensures old(Stuck()) ==> probes == 0 && unchanged(this)
      ensures !old(Stuck()) ==> last <= path <= last + 16
      ensures probes <= 1 + Halvings(old(ceiling - floor))
      ensures old(ceiling - floor) <= 1024 ==> probes <= 7
    {
      hide Halvings;
      SixHalvings(ceiling - floor);
      probes := 0;
      var seqNr: uint16 := 2;
      while floor < ceiling && floor < last
        invariant Valid() && probeSeq == 0 && Knows(path) && discoverTime >= now
        invariant old(Stuck()) ==> probes == 0
        invariant !old(Stuck()) ==> !Stuck()
        invariant probes == 0 ==> unchanged(this)
        invariant probes > 0 ==> (floor < ceiling ==> ceiling - floor > 16 && last == (floor + ceiling) / 2)
        invariant probes > 0 ==> probes + Halvings(ceiling - floor) <= 1 + Halvings(old(ceiling - floor))
        decreases ceiling - floor
      {
        ghost var gap := ceiling - floor;
        var probe := SendPacket(last, seqNr, 0, now);
        if probeSize <= path {
          Acked(probeSeq, now);
        } else {
          Rejected(now);
        }
        HalvingsGrow(ceiling - floor, if probes == 0 then gap else (gap + 1) / 2);
        HalvingsStep(gap);
        probes := probes + 1;
      }
    }

    /** A range to search, and full-sized packets that are not above its floor. */
    ghost predicate Stuck()
      reads this
    {
      last == floor < ceiling
    }

    /** The periodic search: after the reset a full-sized packet, first sent, is a probe exactly when the
        size in use is above the lowest one, and otherwise every later search is stuck. */
    method SearchAgain(seqNr: uint16, now: int) returns (probe: bool)
      requires Valid() && probeSeq == 0 && discoverTime < now && seqNr != 1
      modifies this
      ensures Valid() && last == old(last) && floor == Lowest() && ceiling == interfaceMtu
      ensures probe <==> last > Lowest()
      ensures !probe && interfaceMtu > Lowest() ==> Stuck() && probeSeq == 0
    {
      probe := SendPacket(last, seqNr, 0, now);
    }
  }

  /** The input that shows it: on a path that passes 576 bytes the search of a 1500-byte interface
      settles at 576, and half an hour later it does not start again. */
  method SettledAtFloor(now: int) returns (m: MtuSearch, probe: bool)
    ensures m.Valid() && m.last == 576 && !probe && m.Stuck()
  {
    m := new MtuSearch(1500, now);
    var probes := m.Search(576, now);
    probe := m.SearchAgain(2, m.discoverTime + 1);
  }

  /** A probe of any size p that is lost, sent again without the flag that made it one, and then acknowledged
      in pieces, is taken to have fitted: a path that passes less is searched for above its limit. */
  method ProbeSentAgain(m: MtuSearch, size: nat, seqNr: uint16, now: int) returns (probe: bool, again: bool)
    requires m.Valid() && m.probeSeq == 0 && m.discoverTime >= now && m.floor < size <= m.ceiling && seqNr != 1
    modifies m
    ensures m.Valid() && probe && !again && m.floor == size
    ensures forall path: nat :: old(m.Knows(path)) ==> (m.Knows(path) <==> size <= path)
  {
    probe := m.SendPacket(size, seqNr, 0, now);
    again := m.SendPacket(size, seqNr, 1, now);
    m.Acked(m.probeSeq, now);
  }

  /** The input that shows it: a path that passes 1000 bytes ends up with packets of 1500. */
  method MisledByResending(now: int) returns (m: MtuSearch)
    ensures m.Valid() && m.last == 1500 && !m.Knows(1000)
  {
    m := new MtuSearch(1500, now);
    var probe, again := ProbeSentAgain(m, 1500, 2, now);
  }

  /** How often a range can be halved until it is no wider than 16. */
  ghost function Halvings(gap: nat): nat {
    if gap <= 16 then 0 else 1 + Halvings((gap + 1) / 2)
  }

  /** A range of a kilobyte takes six. */
  lemma SixHalvings(gap: nat)
    ensures gap <= 1024 ==> Halvings(gap) <= 6
  {
    if gap <= 1024 {
      HalvingsGrow(gap, 1024);
      assert Halvings(1024) == 6;
    }
  }

  lemma HalvingsStep(gap: nat)
    ensures gap > 16 ==> Halvings(gap) == 1 + Halvings((gap + 1) / 2)
  {
  }

  lemma {:induction false} HalvingsGrow(a: nat, b: nat)
    requires a <= b
    ensures Halvings(a) <= Halvings(b)
  {
    if a > 16 {
      HalvingsGrow((a + 1) / 2, (b + 1) / 2);
    }
  }
}
