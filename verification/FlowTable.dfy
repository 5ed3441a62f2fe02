/** Flow tracking: per host and direction one counter for each opposite address and pair of ports. */
module FlowTable {
  import opened Octets
  import Filter

  // ----- packed keys -----

  datatype FlowKey = FlowKey(opposite: Ip, sourcePort: Word16, destinationPort: Word16)

  const TWO_32 := 0x1_0000_0000
  const TWO_48 := 0x1_0000_0000_0000

  /** The eight octets of a key read as one integer, on a little-endian machine. */
  function PackKey(k: FlowKey): Word64 {
    k.opposite + TWO_32 * k.sourcePort + TWO_48 * k.destinationPort
  }

  function UnpackKey(v: Word64): FlowKey {
    FlowKey(v % TWO_32, v / TWO_32 % 0x1_0000, v / TWO_48)
  }

  /** Packing and unpacking are mutual inverses, so distinct flows never share a counter. */
  lemma KeyPacking(k: FlowKey, v: Word64)
    ensures UnpackKey(PackKey(k)) == k
    ensures PackKey(UnpackKey(v)) == v
  {
    var w: int := PackKey(k);
    assert w / TWO_32 == k.sourcePort + 0x1_0000 * (k.destinationPort as int);
    assert w / TWO_48 == k.destinationPort;
    assert v / TWO_48 == v / TWO_32 / 0x1_0000;
  }

  // ----- counting -----

  datatype Totals = Totals(packets: Word64, bytes: Word64)

  type FlowMap = map<Word64, Totals>

  datatype HostFlows = HostFlows(inTcp: FlowMap, inUdp: FlowMap, outTcp: FlowMap, outUdp: FlowMap)

  const NO_FLOWS := HostFlows(map[], map[], map[], map[])

  /** A packet of a host as it is counted, with its sampled amounts. */
  datatype Counted = Counted(client: Ip, incoming: bool, packet: Filter.Packet, packets: Word64, bytes: Word64)

  function KeyOf(c: Counted): FlowKey {
    FlowKey(if c.incoming then c.packet.sourceIp else c.packet.destinationIp, c.packet.sourcePort, c.packet.destinationPort)
  }

  function Add64(a: Word64, b: Word64): Word64 {
    (a + b) % 0x1_0000_0000_0000_0000
  }

  function Increment(m: FlowMap, key: Word64, packets: Word64, bytes: Word64): FlowMap {
    var t := if key in m then m[key] else Totals(0, 0);
    m[key := Totals(Add64(t.packets, packets), Add64(t.bytes, bytes))]
  }

  function Count(table: map<Ip, HostFlows>, c: Counted): map<Ip, HostFlows> {
    var h := if c.client in table then table[c.client] else NO_FLOWS;
    var key := PackKey(KeyOf(c));
    table[c.client :=
      if c.packet.protocol == TCP then
        if c.incoming then h.(inTcp := Increment(h.inTcp, key, c.packets, c.bytes))
        else h.(outTcp := Increment(h.outTcp, key, c.packets, c.bytes))
      else if c.packet.protocol == UDP then
        if c.incoming then h.(inUdp := Increment(h.inUdp, key, c.packets, c.bytes))
        else h.(outUdp := Increment(h.outUdp, key, c.packets, c.bytes))
      else h]
  }

  /** The table after counting packets one after the other into an empty table. */
  function CountHistory(history: seq<Counted>): map<Ip, HostFlows> {
    if history == [] then map[] else Count(CountHistory(history[..|history| - 1]), history[|history| - 1])
  }

  lemma OneMoreCounted(history: seq<Counted>, c: Counted)
    ensures CountHistory(history + [c]) == Count(CountHistory(history), c)
  {
    hide Count;
    assert (history + [c])[..|history|] == history;
  }

  class FlowCounters {
    var hosts: map<Ip, HostFlows>

    // The packets counted since the last clear.
    ghost var History: seq<Counted>

    ghost predicate Valid()
      reads this
    {
      hosts == CountHistory(History)
    }

    constructor ()
      ensures Valid() && History == []
    {
      hosts, History := map[], [];
    }

    method Clear()
      modifies this
      ensures Valid() && History == []
    {
      hosts, History := map[], [];
    }

    method IncrementIncoming(client: Ip, p: Filter.Packet, packets: Word64, bytes: Word64)
      requires Valid()
      modifies this
      ensures Valid() && History == old(History) + [Counted(client, true, p, packets, bytes)]
    {
      hide CountHistory;
      OneMoreCounted(History, Counted(client, true, p, packets, bytes));
      History := History + [Counted(client, true, p, packets, bytes)];
      var key := PackKey(FlowKey(p.sourceIp, p.sourcePort, p.destinationPort));
      if client !in hosts {
        hosts := hosts[client := NO_FLOWS];
      }
      var h := hosts[client];
      if p.protocol == TCP {
        hosts := hosts[client := h.(inTcp := Increment(h.inTcp, key, packets, bytes))];
      } else if p.protocol == UDP {
        hosts := hosts[client := h.(inUdp := Increment(h.inUdp, key, packets, bytes))];
      }
    }

    method IncrementOutgoing(client: Ip, p: Filter.Packet, packets: Word64, bytes: Word64)
      requires Valid()
      modifies this
      ensures Valid() && History == old(History) + [Counted(client, false, p, packets, bytes)]
    {
      hide CountHistory;
      OneMoreCounted(History, Counted(client, false, p, packets, bytes));
      History := History + [Counted(client, false, p, packets, bytes)];
      var key := PackKey(FlowKey(p.destinationIp, p.sourcePort, p.destinationPort));
      if client !in hosts {
        hosts := hosts[client := NO_FLOWS];
      }
      var h := hosts[client];
      if p.protocol == TCP {
        hosts := hosts[client := h.(outTcp := Increment(h.outTcp, key, packets, bytes))];
      } else if p.protocol == UDP {
        hosts := hosts[client := h.(outUdp := Increment(h.outUdp, key, packets, bytes))];
      }
    }
  }

  // ----- the table agrees with the history -----

  /** One of the four maps of a host. */
  datatype Side = Side(client: Ip, incoming: bool, protocol: Word32)

  predicate Known(s: Side) {
    s.protocol == TCP || s.protocol == UDP
  }

  function MapOf(h: HostFlows, s: Side): FlowMap
    requires Known(s)
  {
    if s.protocol == TCP then (if s.incoming then h.inTcp else h.outTcp) else if s.incoming then h.inUdp else h.outUdp
  }

  /** The counter of a flow, if there is one. */
  function Lookup(table: map<Ip, HostFlows>, s: Side, k: FlowKey): Option<Totals>
    requires Known(s)
  {
    if s.client in table && PackKey(k) in MapOf(table[s.client], s) then Some(MapOf(table[s.client], s)[PackKey(k)]) else None
  }

  predicate Belongs(c: Counted, s: Side, k: FlowKey) {
    c.client == s.client && c.incoming == s.incoming && c.packet.protocol == s.protocol && KeyOf(c) == k
  }

  predicate Occurs(history: seq<Counted>, s: Side, k: FlowKey) {
    exists i :: 0 <= i < |history| && Belongs(history[i], s, k)
  }

  function PacketSum(history: seq<Counted>, s: Side, k: FlowKey): nat {
    if history == [] then 0
    else
      var n := |history| - 1;
      PacketSum(history[..n], s, k) + if Belongs(history[n], s, k) then history[n].packets else 0
  }

  function ByteSum(history: seq<Counted>, s: Side, k: FlowKey): nat {
    if history == [] then 0
    else
      var n := |history| - 1;
      ByteSum(history[..n], s, k) + if Belongs(history[n], s, k) then history[n].bytes else 0
  }

  function Sums(history: seq<Counted>, s: Side, k: FlowKey): Totals {
    Totals(PacketSum(history, s, k) % 0x1_0000_0000_0000_0000, ByteSum(history, s, k) % 0x1_0000_0000_0000_0000)
  }

  lemma CountOne(table: map<Ip, HostFlows>, c: Counted, s: Side, k: FlowKey)
    requires Known(s)
    ensures var before, after := Lookup(table, s, k), Lookup(Count(table, c), s, k);
            after == if Belongs(c, s, k) then
                       var t := if before.Some? then before.value else Totals(0, 0);
                       Some(Totals(Add64(t.packets, c.packets), Add64(t.bytes, c.bytes)))
                     else before
  {
    hide PackKey, Add64;
    KeyPacking(k, 0);
    KeyPacking(KeyOf(c), 0);
  }

  lemma WrappedSum(a: nat, b: Word64)
    ensures Add64(a % 0x1_0000_0000_0000_0000, b) == (a + b) % 0x1_0000_0000_0000_0000
  {
  }

  lemma {:induction false} NothingOccurred(history: seq<Counted>, s: Side, k: FlowKey)
    requires !Occurs(history, s, k)
    ensures Sums(history, s, k) == Totals(0, 0)
  {
    hide Belongs;
    if history != [] {
      var n := |history| - 1;
      assert !Belongs(history[n], s, k);
      assert forall i :: 0 <= i < n ==> history[..n][i] == history[i];
      NothingOccurred(history[..n], s, k);
    }
  }

  /**
    * After any sequence of packets since the last clear, every host has, for TCP and UDP and in each direction, a
    * counter for exactly those flows that occurred, holding the sums of packets and bytes, modulo 2 to the 64.
    */
  lemma {:induction false} TableAgreesWithHistory(history: seq<Counted>, s: Side, k: FlowKey)
    requires Known(s)
    ensures Lookup(CountHistory(history), s, k) == if Occurs(history, s, k) then Some(Sums(history, s, k)) else None
  {
    hide Count, Lookup, Belongs, Known, Add64;
    if history == [] {
      EmptyTable(s, k);
    } else {
      var n := |history| - 1;
      var before, c := history[..n], history[n];
      TableAgreesWithHistory(before, s, k);
      CountOne(CountHistory(before), c, s, k);
      OccursLater(history, s, k);
      if !Occurs(before, s, k) {
        NothingOccurred(before, s, k);
      }
      WrappedSum(PacketSum(before, s, k), c.packets);
      WrappedSum(ByteSum(before, s, k), c.bytes);
    }
  }

  lemma EmptyTable(s: Side, k: FlowKey)
    requires Known(s)
    ensures Lookup(map[], s, k) == None
  {
  }

  lemma OccursLater(history: seq<Counted>, s: Side, k: FlowKey)
    requires history != []
    ensures var n := |history| - 1;
            Occurs(history, s, k) <==> Occurs(history[..n], s, k) || Belongs(history[n], s, k)
  {
    hide Belongs;
    var n := |history| - 1;
    if Occurs(history[..n], s, k) {
      var i :| 0 <= i < n && Belongs(history[..n][i], s, k);
      assert Belongs(history[i], s, k);
    }
    if Occurs(history, s, k) && !Belongs(history[n], s, k) {
      var i :| 0 <= i < |history| && Belongs(history[i], s, k);
      assert Belongs(history[..n][i], s, k);
    }
  }

  // ----- what one packet does, by field -----

  /** The flow of the first packet, by the side it was seen on: the other end's address, then source and destination port. */
  lemma FirstPacket(c: Counted)
    ensures var table, p, counted := CountHistory([c]), c.packet, Totals(c.packets, c.bytes);
            && table.Keys == {c.client}
            && table[c.client] ==
               if c.incoming then
                 var flow := map[PackKey(FlowKey(p.sourceIp, p.sourcePort, p.destinationPort)) := counted];
                 if p.protocol == 6 then HostFlows(flow, map[], map[], map[])
                 else if p.protocol == 17 then HostFlows(map[], flow, map[], map[])
                 else HostFlows(map[], map[], map[], map[])
               else
                 var flow := map[PackKey(FlowKey(p.destinationIp, p.sourcePort, p.destinationPort)) := counted];
                 if p.protocol == 6 then HostFlows(map[], map[], flow, map[])
                 else if p.protocol == 17 then HostFlows(map[], map[], map[], flow)
                 else HostFlows(map[], map[], map[], map[])
  {
    hide PackKey;
    assert [c][..0] == [];
    assert CountHistory([c]) == Count(map[], c);
  }

  /** Any packet changes the counter of one flow, which agrees with it in these fields, and leaves all others alone. */
  lemma CountedExactly(history: seq<Counted>, c: Counted, s: Side, k: FlowKey)
    requires s.protocol == 6 || s.protocol == 17
    ensures var before, after := Lookup(CountHistory(history), s, k), Lookup(CountHistory(history + [c]), s, k);
            if c.client == s.client && c.incoming == s.incoming && c.packet.protocol == s.protocol
               && k.opposite == (if c.incoming then c.packet.sourceIp else c.packet.destinationIp)
               && k.sourcePort == c.packet.sourcePort && k.destinationPort == c.packet.destinationPort
            then
              var t := if before.Some? then before.value else Totals(0, 0);
              after == Some(Totals((t.packets + c.packets) % 0x1_0000_0000_0000_0000, (t.bytes + c.bytes) % 0x1_0000_0000_0000_0000))
            else after == before
  {
    hide Count, Lookup, CountHistory;
    OneMoreCounted(history, c);
    CountOne(CountHistory(history), c, s, k);
  }
}
