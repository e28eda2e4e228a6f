/** The running statistics of a capture: the number of packets seen, a
    counter per protocol label, and a counter per source and per
    destination address in printed form.  Every packet is counted once in
    the total and once under its protocol label; only packets with
    addresses (IPv4, IPv6 or ARP) are counted under a source and a
    destination. */
module Statistics {
  import opened Wrappers
  import opened Bytes
  import opened Text
  import opened PacketData
  import IPv4

  /** A `QMap<QString, qint64>` of counters. */
  type Counts = map<string, int>

  /** The counter under k; a key not in the map reads as zero. */
  function Get(m: Counts, k: string): int
  {
    if k in m then m[k] else 0
  }

  /** `m[k]++` on a `QMap`: a missing key is inserted as zero, then
      incremented. */
  function Bump(m: Counts, k: string): (r: Counts)
    ensures r.Keys == m.Keys + {k}
    ensures Get(r, k) == Get(m, k) + 1
    ensures forall j :: j != k ==> Get(r, j) == Get(m, j)
  {
    m[k := Get(m, k) + 1]
  }

  /** The sum of all counters of a map. */
  ghost function Sum(m: Counts): int
    decreases |m|
  {
    if m == map[] then 0 else var k :| k in m; m[k] + Sum(m - {k})
  }

  /** The sum can be taken apart at any key. */
  lemma {:induction false} SumRemove(m: Counts, k: string)
    requires k in m
    ensures Sum(m) == m[k] + Sum(m - {k})
    decreases |m|
  {
    var k0 :| k0 in m && Sum(m) == m[k0] + Sum(m - {k0});
    if k0 != k {
      SumRemove(m - {k0}, k);
      SumRemove(m - {k}, k0);
      assert m - {k0} - {k} == m - {k} - {k0};
    }
  }

  /** Incrementing one counter adds one to the sum. */
  lemma SumBump(m: Counts, k: string)
    ensures Sum(Bump(m, k)) == Sum(m) + 1
  {
    var r := Bump(m, k);
    SumRemove(r, k);
    if k in m {
      SumRemove(m, k);
      assert r - {k} == m - {k};
    } else {
      assert r - {k} == m;
    }
  }

  /** The statistics as values: the total and the three maps. */
  datatype Stats = Stats(total: int, protocols: Counts, sources: Counts, dests: Counts)

  /** What a new or cleared manager holds. */
  const NoStats := Stats(0, map[], map[], map[])

  /** The label a packet is counted under: the application protocol when
      the dissector set one, otherwise the first of TCP, UDP, ICMP and ARP
      whose flag is set, otherwise "Unknown". */
  function ProtocolKey(p: PacketRecord): string
  {
    if p.app.protocol != "" then p.app.protocol
    else if p.layers.isTcp then "TCP"
    else if p.layers.isUdp then "UDP"
    else if p.layers.isIcmp then "ICMP"
    else if p.layers.isArp then "ARP"
    else "Unknown"
  }

  /** The label is never empty and follows the fixed order: the application
      label wins, then TCP, UDP, ICMP and ARP, and "Unknown" is left for a
      packet with none of them. */
  lemma ProtocolKeyOrder(p: PacketRecord)
    ensures ProtocolKey(p) != ""
    ensures p.app.protocol != "" ==> ProtocolKey(p) == p.app.protocol
    ensures p.app.protocol == "" ==> (ProtocolKey(p) == "TCP" <==> p.layers.isTcp)
    ensures p.app.protocol == "" ==> (ProtocolKey(p) == "UDP" <==> !p.layers.isTcp && p.layers.isUdp)
    ensures p.app.protocol == "" ==>
      (ProtocolKey(p) == "ICMP" <==> !p.layers.isTcp && !p.layers.isUdp && p.layers.isIcmp)
    ensures p.app.protocol == "" ==>
      (ProtocolKey(p) == "ARP" <==> !p.layers.isTcp && !p.layers.isUdp && !p.layers.isIcmp && p.layers.isArp)
    ensures p.app.protocol == "" ==>
      (ProtocolKey(p) == "Unknown" <==> !p.layers.isTcp && !p.layers.isUdp && !p.layers.isIcmp && !p.layers.isArp)
  {
  }

  /** The eight 16-bit groups of an IPv6 address, each in lower-case hex
      without leading zeros. */
  function Ipv6Groups(ip: Ipv6Address): (gs: seq<string>)
    ensures |gs| == 8
  {
    seq(8, g requires 0 <= g < 8 => Hex(BE16(ip, 2 * g)))
  }

  /** `ipv6ToString`: the groups joined by colons, with no run of zero
      groups shortened. */
  function Ipv6Text(ip: Ipv6Address): string
  {
    Join(Ipv6Groups(ip), ":")
  }

  /** No group holds a colon. */
  lemma GroupsColonFree(ip: Ipv6Address)
    ensures forall g, i :: 0 <= g < 8 && 0 <= i < |Ipv6Groups(ip)[g]| ==> Ipv6Groups(ip)[g][i] != ':'
  {
    forall g, i | 0 <= g < 8 && 0 <= i < |Ipv6Groups(ip)[g]|
      ensures Ipv6Groups(ip)[g][i] != ':'
    {
      HexNoColon(BE16(ip, 2 * g), i);
    }
  }

  /** The printed address splits at its colons into exactly eight groups,
      none empty and none longer than four digits, each reading back as
      the big-endian 16-bit group of the address. */
  lemma Ipv6TextSplits(ip: Ipv6Address)
    ensures Split(Ipv6Text(ip), ":") == Ipv6Groups(ip)
    ensures forall g :: 0 <= g < 8 ==>
      1 <= |Ipv6Groups(ip)[g]| <= 4 && HexValue(Ipv6Groups(ip)[g]) == BE16(ip, 2 * g)
  {
    GroupsColonFree(ip);
    SplitJoinChar(Ipv6Groups(ip), ':');
    forall g | 0 <= g < 8
      ensures 1 <= |Ipv6Groups(ip)[g]| <= 4 && HexValue(Ipv6Groups(ip)[g]) == BE16(ip, 2 * g)
    {
      HexLength(BE16(ip, 2 * g), 4);
      HexRoundTrip(BE16(ip, 2 * g));
    }
  }

  /** A 16-bit group value determines its two bytes. */
  lemma GroupBytes(a: Ipv6Address, b: Ipv6Address, g: nat)
    requires g < 8 && BE16(a, 2 * g) == BE16(b, 2 * g)
    ensures a[2 * g] == b[2 * g] && a[2 * g + 1] == b[2 * g + 1]
  {
  }

  /** Different IPv6 addresses print differently: each is counted under a
      key of its own. */
  lemma Ipv6TextInjective(a: Ipv6Address, b: Ipv6Address)
    requires Ipv6Text(a) == Ipv6Text(b)
    ensures a == b
  {
    Ipv6TextSplits(a);
    Ipv6TextSplits(b);
    forall i | 0 <= i < 16
      ensures a[i] == b[i]
    {
      var g := i / 2;
      assert Ipv6Groups(a)[g] == Ipv6Groups(b)[g];
      HexInjective(BE16(a, 2 * g), BE16(b, 2 * g));
      GroupBytes(a, b, g);
    }
  }

  /** The packet has addresses the statistics count. */
  predicate HasAddresses(p: PacketRecord)
  {
    p.layers.isIpv4 || p.layers.isIpv6 || p.layers.isArp
  }

  /** The printed source and destination of a packet: the IPv4 addresses,
      else the IPv6 addresses, else the ARP sender and target addresses. */
  function Endpoints(p: PacketRecord): (e: Option<(string, string)>)
    ensures e.Some? <==> HasAddresses(p)
  {
    var l := p.layers;
    if l.isIpv4 then Some((IPv4.Dotted(l.ipv4.srcIp), IPv4.Dotted(l.ipv4.destIp)))
    else if l.isIpv6 then Some((Ipv6Text(l.ipv6.srcIp), Ipv6Text(l.ipv6.destIp)))
    else if l.isArp then Some((IPv4.Dotted(l.arp.senderIp), IPv4.Dotted(l.arp.targetIp)))
    else None
  }

  /** Two IPv4 packets are counted under the same source exactly when their
      source addresses are equal, and likewise for destinations; the same
      holds for two IPv6 packets. */
  lemma EndpointsSeparate(p: PacketRecord, q: PacketRecord)
    ensures p.layers.isIpv4 && q.layers.isIpv4 ==>
      (Endpoints(p).value.0 == Endpoints(q).value.0 <==> p.layers.ipv4.srcIp == q.layers.ipv4.srcIp)
      && (Endpoints(p).value.1 == Endpoints(q).value.1 <==> p.layers.ipv4.destIp == q.layers.ipv4.destIp)
    ensures !p.layers.isIpv4 && !q.layers.isIpv4 && p.layers.isIpv6 && q.layers.isIpv6 ==>
      (Endpoints(p).value.0 == Endpoints(q).value.0 <==> p.layers.ipv6.srcIp == q.layers.ipv6.srcIp)
      && (Endpoints(p).value.1 == Endpoints(q).value.1 <==> p.layers.ipv6.destIp == q.layers.ipv6.destIp)
  {
    var l, m := p.layers, q.layers;
    if l.isIpv4 && m.isIpv4 {
      if IPv4.Dotted(l.ipv4.srcIp) == IPv4.Dotted(m.ipv4.srcIp) {
        IPv4.DottedInjective(l.ipv4.srcIp, m.ipv4.srcIp);
      }
      if IPv4.Dotted(l.ipv4.destIp) == IPv4.Dotted(m.ipv4.destIp) {
        IPv4.DottedInjective(l.ipv4.destIp, m.ipv4.destIp);
      }
    }
    if !l.isIpv4 && !m.isIpv4 && l.isIpv6 && m.isIpv6 {
      if Ipv6Text(l.ipv6.srcIp) == Ipv6Text(m.ipv6.srcIp) {
        Ipv6TextInjective(l.ipv6.srcIp, m.ipv6.srcIp);
      }
      if Ipv6Text(l.ipv6.destIp) == Ipv6Text(m.ipv6.destIp) {
        Ipv6TextInjective(l.ipv6.destIp, m.ipv6.destIp);
      }
    }
  }

  /** `processPacket` on the statistics as values. */
  function Tally(st: Stats, p: PacketRecord): Stats
  {
    var st1 := st.(total := st.total + 1, protocols := Bump(st.protocols, ProtocolKey(p)));
    match Endpoints(p)
    case Some((src, dst)) => st1.(sources := Bump(st1.sources, src), dests := Bump(st1.dests, dst))
    case None => st1
  }

  /** One packet adds one to the total and one to its protocol's counter,
      and nothing to the other protocols; the source and destination maps
      each gain one count exactly when the packet has addresses, and are
      untouched otherwise. */
  lemma TallyCounts(st: Stats, p: PacketRecord)
    ensures var n := Tally(st, p);
      n.total == st.total + 1
      && Get(n.protocols, ProtocolKey(p)) == Get(st.protocols, ProtocolKey(p)) + 1
      && (forall k :: k != ProtocolKey(p) ==> Get(n.protocols, k) == Get(st.protocols, k))
      && Sum(n.protocols) == Sum(st.protocols) + 1
      && Sum(n.sources) == Sum(st.sources) + (if HasAddresses(p) then 1 else 0)
      && Sum(n.dests) == Sum(st.dests) + (if HasAddresses(p) then 1 else 0)
      && (!HasAddresses(p) ==> n.sources == st.sources && n.dests == st.dests)
  {
    SumBump(st.protocols, ProtocolKey(p));
    match Endpoints(p)
    case Some((src, dst)) =>
      SumBump(st.sources, src);
      SumBump(st.dests, dst);
    case None =>
  }

  /** `processPackets`: the packets tallied one after another, in order. */
  function TallyAll(st: Stats, ps: seq<PacketRecord>): Stats
    decreases |ps|
  {
    if ps == [] then st else Tally(TallyAll(st, ps[..|ps| - 1]), ps[|ps| - 1])
  }

  /** The number of packets with addresses. */
  function AddressCount(ps: seq<PacketRecord>): nat
    decreases |ps|
  {
    if ps == [] then 0 else AddressCount(ps[..|ps| - 1]) + (if HasAddresses(ps[|ps| - 1]) then 1 else 0)
  }

  /** The number of packets counted under the label k. */
  function LabelCount(ps: seq<PacketRecord>, k: string): nat
    decreases |ps|
  {
    if ps == [] then 0 else LabelCount(ps[..|ps| - 1], k) + (if ProtocolKey(ps[|ps| - 1]) == k then 1 else 0)
  }

  /** From a cleared manager, the total is the number of packets, the
      protocol counters add up to the total, the counter under a label is
      the number of packets with that label, and the source and destination
      counters each add up to the number of packets with addresses. */
  lemma {:induction false} TallyAllSums(ps: seq<PacketRecord>)
    ensures var n := TallyAll(NoStats, ps);
      n.total == |ps| && Sum(n.protocols) == n.total
      && (forall k :: Get(n.protocols, k) == LabelCount(ps, k))
      && Sum(n.sources) == AddressCount(ps) && Sum(n.dests) == AddressCount(ps)
    decreases |ps|
  {
    if ps != [] {
      var front := ps[..|ps| - 1];
      TallyAllSums(front);
      TallyCounts(TallyAll(NoStats, front), ps[|ps| - 1]);
    }
  }

  /** Two batches one after the other count as their concatenation. */
  lemma {:induction false} TallyAllAppend(st: Stats, a: seq<PacketRecord>, b: seq<PacketRecord>)
    ensures TallyAll(st, a + b) == TallyAll(TallyAll(st, a), b)
    decreases |b|
  {
    if b != [] {
      assert (a + b)[..|a + b| - 1] == a + b[..|b| - 1];
      TallyAllAppend(st, a, b[..|b| - 1]);
    } else {
      assert a + b == a;
    }
  }

  /** `StatisticsManager`: the total and the three counter maps. */
  class StatisticsManager {
    var totalPackets: int
    var protocolCounts: Counts
    var sourceIpCounts: Counts
    var destIpCounts: Counts

    function State(): Stats
      reads this
    {
      Stats(totalPackets, protocolCounts, sourceIpCounts, destIpCounts)
    }

    constructor ()
      ensures State() == NoStats
    {
      totalPackets := 0;
      protocolCounts, sourceIpCounts, destIpCounts := map[], map[], map[];
    }

    /** `clear`: the total back to zero and all three maps emptied. */
    method Clear()
      modifies this
      ensures State() == NoStats
    {
      totalPackets := 0;
      protocolCounts := map[];
      sourceIpCounts := map[];
      destIpCounts := map[];
    }

    /** `processPacket`: count the packet in the total, under its protocol
        label and, when it has addresses, under its source and destination. */
    method ProcessPacket(p: PacketRecord)
      modifies this
      ensures State() == Tally(old(State()), p)
    {
      totalPackets := totalPackets + 1;
      var finalProto := FinalProto(p);
      protocolCounts := Bump(protocolCounts, finalProto);
      CountAddresses(p);
    }

    /** The protocol label of `processPacket`, tested in the source's order. */
    static method FinalProto(p: PacketRecord) returns (finalProto: string)
      ensures finalProto == ProtocolKey(p)
    {
      if p.app.protocol != "" {
        finalProto := p.app.protocol;
      } else if p.layers.isTcp {
        finalProto := "TCP";
      } else if p.layers.isUdp {
        finalProto := "UDP";
      } else if p.layers.isIcmp {
        finalProto := "ICMP";
      } else if p.layers.isArp {
        finalProto := "ARP";
      } else {
        finalProto := "Unknown";
      }
    }

    /** The address half of `processPacket`. */
    method CountAddresses(p: PacketRecord)
      modifies this
      ensures totalPackets == old(totalPackets) && protocolCounts == old(protocolCounts)
      ensures match Endpoints(p)
        case Some((src, dst)) =>
          sourceIpCounts == Bump(old(sourceIpCounts), src) && destIpCounts == Bump(old(destIpCounts), dst)
        case None => sourceIpCounts == old(sourceIpCounts) && destIpCounts == old(destIpCounts)
    {
      var l := p.layers;
      if l.isIpv4 {
        sourceIpCounts := Bump(sourceIpCounts, IPv4.Dotted(l.ipv4.srcIp));
        destIpCounts := Bump(destIpCounts, IPv4.Dotted(l.ipv4.destIp));
      } else if l.isIpv6 {
        var src := Ipv6ToString(l.ipv6.srcIp);
        var dst := Ipv6ToString(l.ipv6.destIp);
        sourceIpCounts := Bump(sourceIpCounts, src);
        destIpCounts := Bump(destIpCounts, dst);
      } else if l.isArp {
        sourceIpCounts := Bump(sourceIpCounts, IPv4.Dotted(l.arp.senderIp));
        destIpCounts := Bump(destIpCounts, IPv4.Dotted(l.arp.targetIp));
      }
    }

    /** `processPackets`: `processPacket` on each packet of the batch in turn. */
    method ProcessPackets(batch: seq<PacketRecord>)
      modifies this
      ensures State() == TallyAll(old(State()), batch)
    {
      var i := 0;
      while i < |batch|
        invariant 0 <= i <= |batch|
        invariant State() == TallyAll(old(State()), batch[..i])
      {
        ProcessPacket(batch[i]);
        assert batch[..i + 1][..i] == batch[..i];
        i := i + 1;
      }
      assert batch[..i] == batch;
    }

    /** `ipv6ToString`: the address two bytes at a time, each pair printed
        as one hex group, the groups joined by colons. */
    static method Ipv6ToString(ip: Ipv6Address) returns (s: string)
      ensures s == Ipv6Text(ip)
    {
      var parts: seq<string> := [];
      var i := 0;
      while i < 16
        invariant 0 <= i <= 16 && i % 2 == 0
        invariant parts == Ipv6Groups(ip)[..i / 2]
      {
        var part := ip[i] as int * 0x100 + ip[i + 1] as int;
        parts := parts + [Hex(part)];
        i := i + 2;
      }
      assert parts == Ipv6Groups(ip);
      s := Join(parts, ":");
    }
  }
}
