/** The layered dissector: one pass of a byte cursor over a frame, Ethernet
    (with at most one 802.1Q tag), then IPv4, IPv6 or ARP by EtherType,
    then TCP, UDP or ICMP by protocol number, then the application
    dispatcher on whatever follows the transport header.  Each layer's
    verdict is stored in its presence flag; only a short frame or a
    malformed IPv4 header makes the whole dissection fail. */
module Dissector {
  import opened Bytes
  import opened PacketData
  import Ethernet
  import IPv4
  import IPv6
  import Arp
  import Tcp
  import Udp
  import Icmp
  import Application

  const EthernetLength: nat := 14
  const TagLength: nat := 4

  const TypeIPv4: u16 := 0x0800
  const TypeIPv6: u16 := 0x86DD
  const TypeArp: u16 := 0x0806

  const ProtoIcmp: byte := 1
  const ProtoTcp: byte := 6
  const ProtoUdp: byte := 17
  const ProtoIcmpV6: byte := 58

  const MinTcpLength: nat := 20
  const UdpLength: nat := 8
  const MinIcmpLength: nat := 4
  const MinIPv4Length: nat := 20
  const MinIPv6Length: nat := 40
  const ArpLength: nat := 28

  /** None of the transport layers was decoded. */
  predicate NoTransport(l: Layers)
  {
    !l.isTcp && !l.isUdp && !l.isIcmp
  }

  /** None of the network layers was decoded. */
  predicate NoNetwork(l: Layers)
  {
    !l.isIpv4 && !l.isIpv6 && !l.isArp
  }

  function Count(b: bool): nat { if b then 1 else 0 }

  /** At most one network layer and at most one transport layer, and a
      transport layer only above IPv4 or IPv6. */
  predicate Consistent(l: Layers)
  {
    Count(l.isIpv4) + Count(l.isIpv6) + Count(l.isArp) <= 1
    && Count(l.isTcp) + Count(l.isUdp) + Count(l.isIcmp) <= 1
    && (!NoTransport(l) ==> l.isIpv4 || l.isIpv6)
  }

  /** The EtherType the network layer is chosen by: the tagged frame's
      inner type when a tag was found. */
  function InnerType(l: Layers): u16
  {
    if l.hasVlan then l.vlan.etherType else l.eth.etherType
  }

  /** The bytes after the link layer: past the Ethernet header and, when a
      tag was found, past its four bytes. */
  function AfterLink(data: seq<byte>, hasVlan: bool): (u: seq<byte>)
    requires |data| >= EthernetLength + (if hasVlan then TagLength else 0)
    ensures u == data[EthernetLength + (if hasVlan then TagLength else 0)..]
  {
    var u := data[EthernetLength..];
    if hasVlan then u[TagLength..] else u
  }

  /** The state the layers above the cursor leave behind: the headers, the
      application fields and the tree depth reached. */
  datatype Upper = Upper(layers: Layers, app: ApplicationLayer, depth: int)

  /** The same network and link layers. */
  predicate SameBelowTransport(a: Layers, b: Layers)
  {
    a.eth == b.eth && a.vlan == b.vlan && a.hasVlan == b.hasVlan
    && a.ipv4 == b.ipv4 && a.ipv6 == b.ipv6 && a.arp == b.arp
    && a.isIpv4 == b.isIpv4 && a.isIpv6 == b.isIpv6 && a.isArp == b.isArp
  }

  /** TCP over the unread bytes u: on success the cursor moves past the
      header, options included, and the application dispatcher sees the rest. */
  function TcpStep(u: seq<byte>, l: Layers, app: ApplicationLayer, depth: int): (r: Upper)
    ensures r.layers == l.(tcp := r.layers.tcp, isTcp := Tcp.Decode(u, l.tcp).ok)
    ensures !r.layers.isTcp ==> r.app == app && r.depth == depth
    ensures r.layers.isTcp ==> r.depth == depth + 1 && |u| >= r.layers.tcp.dataOffset as nat * 4
  {
    var t := Tcp.Decode(u, l.tcp);
    var l1 := l.(tcp := t.tcp, isTcp := t.ok);
    if t.ok then
      var payload := u[t.tcp.dataOffset as nat * 4..];
      Upper(l1, Application.Classify(app, payload, t.tcp.srcPort, t.tcp.destPort, true).app, depth + 1)
    else Upper(l1, app, depth)
  }

  /** UDP over the unread bytes u: on success the cursor moves past the
      eight header bytes and the application dispatcher sees the rest. */
  function UdpStep(u: seq<byte>, l: Layers, app: ApplicationLayer, depth: int): (r: Upper)
    requires |u| >= UdpLength
    ensures r.layers == l.(udp := r.layers.udp, isUdp := Udp.Decode(u, l.udp).ok)
    ensures !r.layers.isUdp ==> r.app == app && r.depth == depth
    ensures r.layers.isUdp ==> r.depth == depth + 1
  {
    var v := Udp.Decode(u, l.udp);
    var l1 := l.(udp := v.udp, isUdp := v.ok);
    if v.ok then
      Upper(l1, Application.Classify(app, u[UdpLength..], v.udp.srcPort, v.udp.destPort, false).app, depth + 1)
    else Upper(l1, app, depth)
  }

  /** ICMP or ICMPv6 over the unread bytes u; nothing is read after it. */
  function IcmpStep(u: seq<byte>, l: Layers, app: ApplicationLayer, depth: int): (r: Upper)
    ensures r.layers == l.(icmp := r.layers.icmp, isIcmp := Icmp.Decode(u, l.icmp).ok)
    ensures r.app == app && r.depth == depth + Count(r.layers.isIcmp)
  {
    var c := Icmp.Decode(u, l.icmp);
    Upper(l.(icmp := c.icmp, isIcmp := c.ok), app, depth + Count(c.ok))
  }

  /** The transport step over the unread bytes u, with the protocol number
      the network layer named; icmp is the number ICMP goes by
      (1 over IPv4, 58 over IPv6). */
  function Transport(u: seq<byte>, proto: byte, icmp: byte, l: Layers, app: ApplicationLayer, depth: int): (r: Upper)
    requires NoTransport(l)
    ensures SameBelowTransport(l, r.layers)
    ensures Count(r.layers.isTcp) + Count(r.layers.isUdp) + Count(r.layers.isIcmp) <= 1
    ensures r.layers.isTcp ==> proto == ProtoTcp && |u| >= MinTcpLength
    ensures r.layers.isUdp ==> proto == ProtoUdp && |u| >= UdpLength
    ensures r.layers.isIcmp ==> proto == icmp && |u| >= MinIcmpLength
    ensures !r.layers.isTcp && !r.layers.isUdp ==> r.app == app
    ensures r.depth == depth + Count(!NoTransport(r.layers))
  {
    if proto == ProtoTcp && |u| >= MinTcpLength then TcpStep(u, l, app, depth)
    else if proto == ProtoUdp && |u| >= UdpLength then UdpStep(u, l, app, depth)
    else if proto == icmp && |u| >= MinIcmpLength then IcmpStep(u, l, app, depth)
    else Upper(l, app, depth)
  }

  /** The network step: what survives of the layers, and whether the
      dissection may go on (only a malformed IPv4 header stops it). */
  datatype Network = Network(ok: bool, upper: Upper)

  /** IPv4 over the unread bytes u: a rejected header stops the
      dissection; otherwise the transport step reads past the header and
      its options. */
  function IPv4Step(u: seq<byte>, l: Layers, app: ApplicationLayer, depth: int): (r: Network)
    requires NoNetwork(l) && NoTransport(l)
    ensures r.ok <==> IPv4.Acceptable(u)
    ensures r.upper.layers.isIpv4 == r.ok && !r.upper.layers.isIpv6 && !r.upper.layers.isArp
    ensures !r.ok ==> r.upper == Upper(l.(ipv4 := r.upper.layers.ipv4), app, depth)
    ensures r.ok ==> r.upper.depth == depth + 1 + Count(!NoTransport(r.upper.layers))
  {
    var v := IPv4.Decode(u, l.ipv4);
    var l1 := l.(ipv4 := v.header, isIpv4 := v.ok);
    if !v.ok then Network(false, Upper(l1, app, depth))
    else Network(true, Transport(u[v.header.ihl as nat * 4..], v.header.protocol, ProtoIcmp, l1, app, depth + 1))
  }

  /** IPv6 over the unread bytes u: the transport step starts where the
      extension-header walk stopped, with the last next-header value. */
  function IPv6Step(u: seq<byte>, l: Layers, app: ApplicationLayer, depth: int): (r: Upper)
    requires NoNetwork(l) && NoTransport(l)
    ensures r.layers.isIpv6 == IPv6.Decode(u, l.ipv6).ok && !r.layers.isIpv4 && !r.layers.isArp
    ensures !r.layers.isIpv6 ==> r == Upper(l.(ipv6 := r.layers.ipv6), app, depth)
    ensures r.layers.isIpv6 ==> r.depth == depth + 1 + Count(!NoTransport(r.layers))
  {
    var w := IPv6.Decode(u, l.ipv6);
    var l1 := l.(ipv6 := w.header, isIpv6 := w.ok);
    if !w.ok then Upper(l1, app, depth)
    else Transport(u[w.consumed..], w.header.nextHeader, ProtoIcmpV6, l1, app, depth + 1)
  }

  /** ARP over the unread bytes u; nothing is read after it. */
  function ArpStep(u: seq<byte>, l: Layers, app: ApplicationLayer, depth: int): (r: Upper)
    ensures r == Upper(l.(arp := r.layers.arp, isArp := Arp.Decode(u, l.arp).ok), app, depth + Count(r.layers.isArp))
  {
    var a := Arp.Decode(u, l.arp);
    Upper(l.(arp := a.arp, isArp := a.ok), app, depth + Count(a.ok))
  }

  /** The network step over the unread bytes u, chosen by the EtherType. */
  function NetworkStep(u: seq<byte>, etherType: u16, l: Layers, app: ApplicationLayer, depth: int): (r: Network)
    requires NoNetwork(l) && NoTransport(l)
    ensures var m := r.upper.layers;
      m.eth == l.eth && m.vlan == l.vlan && m.hasVlan == l.hasVlan && Consistent(m)
    ensures var m := r.upper.layers;
      (m.isIpv4 ==> etherType == TypeIPv4) && (m.isIpv6 ==> etherType == TypeIPv6) && (m.isArp ==> etherType == TypeArp)
    ensures !r.ok <==> etherType == TypeIPv4 && |u| >= MinIPv4Length && !IPv4.Acceptable(u)
    ensures NoNetwork(r.upper.layers) ==> NoTransport(r.upper.layers)
    ensures !r.upper.layers.isTcp && !r.upper.layers.isUdp ==> r.upper.app == app
    ensures r.ok ==> r.upper.depth == depth + Count(!NoNetwork(r.upper.layers)) + Count(!NoTransport(r.upper.layers))
  {
    if etherType == TypeIPv4 && |u| >= MinIPv4Length then IPv4Step(u, l, app, depth)
    else if etherType == TypeIPv6 && |u| >= MinIPv6Length then Network(true, IPv6Step(u, l, app, depth))
    else if etherType == TypeArp && |u| >= ArpLength then Network(true, ArpStep(u, l, app, depth))
    else Network(true, Upper(l, app, depth))
  }

  /** The verdict of `Parser::parse` and the record it leaves. */
  datatype Dissection = Dissection(ok: bool, record: PacketRecord)

  /** The record on entry: cleared, holding the frame, both lengths (the
      frame length truncated to 32 bits) and the capture time. */
  function Entry(r: PacketRecord, data: seq<byte>, now: Timespec): PacketRecord
  {
    var n := (|data| % 0x1_0000_0000) as u32;
    Cleared(r).(raw := data, capLength := n, wireLength := n, timestamp := now)
  }

  /** `Parser::parse` on the record r, the frame data and the clock value now. */
  function Dissect(r: PacketRecord, data: seq<byte>, now: Timespec): (d: Dissection)
    ensures |data| == 0 ==> d == Dissection(false, r)
    ensures |data| > 0 ==>
      var c := d.record.(layers := DefaultLayers, app := DefaultApp, treeDepth := 0, isMalformed := false);
      c == Entry(r, data, now)
    ensures d.ok <==> |data| >= EthernetLength && !Ipv4Malformed(data)
    ensures |data| > 0 ==> (d.record.isMalformed <==> !d.ok) && Consistent(d.record.layers)
  {
    if |data| == 0 then Dissection(false, r)
    else FromLink(Entry(r, data, now))
  }

  /** What the link layer leaves for the network step: the layers with the
      Ethernet header (and tag) stored, the unread bytes, the EtherType to
      dispatch on and the tree depth reached. */
  datatype Linked = Linked(ok: bool, layers: Layers, unread: seq<byte>, etherType: u16, depth: int)

  /** The Ethernet step of `Parser::parse` on the frame data, over the
      cleared layers l. */
  function LinkStep(data: seq<byte>, l: Layers): (k: Linked)
    requires NoNetwork(l) && NoTransport(l)
    ensures k.ok <==> |data| >= EthernetLength
    ensures !k.ok ==> k.layers == l && k.depth == 0
    ensures k.ok ==>
      && k.etherType == InnerType(k.layers) && k.depth == 1 + Count(k.layers.hasVlan)
      && |data| >= EthernetLength + (if k.layers.hasVlan then TagLength else 0)
      && k.unread == data[EthernetLength + (if k.layers.hasVlan then TagLength else 0)..]
    ensures k.layers == l.(eth := k.layers.eth, hasVlan := k.layers.hasVlan, vlan := k.layers.vlan)
  {
    var e := Ethernet.Decode(data, l.eth, l.hasVlan, l.vlan);
    var l1 := l.(eth := e.eth, hasVlan := e.hasVlan, vlan := e.vlan);
    if !e.ok then Linked(false, l1, data, InnerType(l1), 0)
    else Linked(true, l1, AfterLink(data, e.hasVlan), InnerType(l1), 1 + Count(e.hasVlan))
  }

  /** Everything after the entry step, on a cleared record holding the frame. */
  function FromLink(c: PacketRecord): (d: Dissection)
    requires c.layers == DefaultLayers && !c.isMalformed && c.treeDepth == 0
    ensures var data := c.raw;
      d.record.(layers := DefaultLayers, app := c.app, treeDepth := 0, isMalformed := false) == c
      && (d.ok <==> |data| >= EthernetLength && !Ipv4Malformed(data))
      && (d.record.isMalformed <==> !d.ok) && Consistent(d.record.layers)
  {
    var k := LinkStep(c.raw, c.layers);
    if !k.ok then Dissection(false, c.(layers := k.layers, isMalformed := true))
    else Finish(c, NetworkStep(k.unread, k.etherType, k.layers, c.app, k.depth))
  }

  /** The verdict once the network step is done: a failed step marks the
      packet malformed; otherwise a found application protocol adds one
      level to the tree. */
  function Finish(c: PacketRecord, n: Network): (d: Dissection)
    ensures d.ok == n.ok && d.record.isMalformed == (!n.ok || c.isMalformed)
    ensures d.record.layers == n.upper.layers && d.record.app == n.upper.app
    ensures d.record.treeDepth == n.upper.depth + Count(n.ok && n.upper.app.protocol != "")
    ensures d.record.(layers := c.layers, app := c.app, treeDepth := c.treeDepth, isMalformed := c.isMalformed) == c
  {
    var u := n.upper;
    if !n.ok then Dissection(false, WithUpper(c, u).(isMalformed := true))
    else Dissection(true, WithUpper(c, u.(depth := u.depth + Count(u.app.protocol != ""))))
  }

  /** The record with the layers, application fields and depth of u. */
  function WithUpper(r: PacketRecord, u: Upper): PacketRecord
  {
    r.(layers := u.layers, app := u.app, treeDepth := u.depth)
  }

  /** The frame carries an IPv4 EtherType and enough bytes for a header,
      but not a header the IPv4 decoder accepts. */
  predicate Ipv4Malformed(data: seq<byte>)
  {
    |data| >= EthernetLength &&
    var e := Ethernet.Decode(data, DefaultEthernet, false, DefaultVlan);
    var u := AfterLink(data, e.hasVlan);
    (if e.hasVlan then e.vlan.etherType else e.eth.etherType) == TypeIPv4
    && |u| >= MinIPv4Length && !IPv4.Acceptable(u)
  }

  // The methods below keep `ptr` and `remaining` of the source as one
  // value, the suffix of the frame not yet read: advancing the pointer by n
  // and shrinking the count by n is taking that suffix's suffix from n.

  /** The TCP branch of the transport block, on the unread bytes. */
  method ParseTcp(pkt: Packet, unread: seq<byte>)
    modifies pkt
    ensures pkt.Snapshot() == WithUpper(old(pkt.Snapshot()), TcpStep(unread, old(pkt.layers), old(pkt.app), old(pkt.treeDepth)))
  {
    var cursor := unread;
    var ok, tcp := Tcp.Parse(cursor, pkt.layers.tcp);
    pkt.layers := pkt.layers.(tcp := tcp, isTcp := ok);
    if ok {
      cursor := cursor[tcp.dataOffset as nat * 4..];
      pkt.treeDepth := pkt.treeDepth + 1;
      var _, app := Application.Parse(pkt.app, cursor, tcp.srcPort, tcp.destPort, true);
      pkt.app := app;
    }
  }

  /** The UDP branch of the transport block, on the unread bytes. */
  method ParseUdp(pkt: Packet, unread: seq<byte>)
    requires |unread| >= UdpLength
    modifies pkt
    ensures pkt.Snapshot() == WithUpper(old(pkt.Snapshot()), UdpStep(unread, old(pkt.layers), old(pkt.app), old(pkt.treeDepth)))
  {
    var cursor := unread;
    var ok, udp := Udp.Parse(cursor, pkt.layers.udp);
    pkt.layers := pkt.layers.(udp := udp, isUdp := ok);
    if ok {
      cursor := cursor[UdpLength..];
      pkt.treeDepth := pkt.treeDepth + 1;
      var _, app := Application.Parse(pkt.app, cursor, udp.srcPort, udp.destPort, false);
      pkt.app := app;
    }
  }

  /** The ICMP branch of the transport block, on the unread bytes. */
  method ParseIcmp(pkt: Packet, unread: seq<byte>)
    modifies pkt
    ensures pkt.Snapshot() == WithUpper(old(pkt.Snapshot()), IcmpStep(unread, old(pkt.layers), old(pkt.app), old(pkt.treeDepth)))
  {
    var ok, header := Icmp.Parse(unread, pkt.layers.icmp);
    pkt.layers := pkt.layers.(icmp := header, isIcmp := ok);
    if ok {
      pkt.treeDepth := pkt.treeDepth + 1;
    }
  }

  /** The transport block of `Parser::parse`, on the unread bytes. */
  method ParseTransport(pkt: Packet, unread: seq<byte>, proto: byte, icmp: byte)
    requires NoTransport(pkt.layers)
    modifies pkt
    ensures pkt.Snapshot() ==
      WithUpper(old(pkt.Snapshot()), Transport(unread, proto, icmp, old(pkt.layers), old(pkt.app), old(pkt.treeDepth)))
  {
    var remaining := |unread|;
    if proto == ProtoTcp && remaining >= MinTcpLength {
      ParseTcp(pkt, unread);
    } else if proto == ProtoUdp && remaining >= UdpLength {
      ParseUdp(pkt, unread);
    } else if proto == icmp && remaining >= MinIcmpLength {
      ParseIcmp(pkt, unread);
    }
  }

  /** The IPv4 branch of the layer-3 block; ok is false for a rejected header. */
  method ParseIPv4(pkt: Packet, unread: seq<byte>) returns (ok: bool)
    requires NoNetwork(pkt.layers) && NoTransport(pkt.layers)
    modifies pkt
    ensures var n := IPv4Step(unread, old(pkt.layers), old(pkt.app), old(pkt.treeDepth));
      ok == n.ok && pkt.Snapshot() == WithUpper(old(pkt.Snapshot()), n.upper)
  {
    var cursor := unread;
    var isIpv4, header := IPv4.Parse(cursor, pkt.layers.ipv4);
    pkt.layers := pkt.layers.(ipv4 := header, isIpv4 := isIpv4);
    if !isIpv4 {
      return false;
    }
    cursor := cursor[header.ihl as nat * 4..];
    pkt.treeDepth := pkt.treeDepth + 1;
    ParseTransport(pkt, cursor, header.protocol, ProtoIcmp);
    return true;
  }

  /** The IPv6 branch of the layer-3 block: the decoder walks the extension
      headers and the transport block starts where it stopped. */
  method ParseIPv6(pkt: Packet, unread: seq<byte>)
    requires NoNetwork(pkt.layers) && NoTransport(pkt.layers)
    modifies pkt
    ensures pkt.Snapshot() == WithUpper(old(pkt.Snapshot()), IPv6Step(unread, old(pkt.layers), old(pkt.app), old(pkt.treeDepth)))
  {
    var cursor := unread;
    var isIpv6, header, consumed := IPv6.Parse(cursor, pkt.layers.ipv6);
    pkt.layers := pkt.layers.(ipv6 := header, isIpv6 := isIpv6);
    if isIpv6 {
      cursor := cursor[consumed..];
      pkt.treeDepth := pkt.treeDepth + 1;
      ParseTransport(pkt, cursor, header.nextHeader, ProtoIcmpV6);
    }
  }

  /** The ARP branch of the layer-3 block. */
  method ParseArp(pkt: Packet, unread: seq<byte>)
    modifies pkt
    ensures pkt.Snapshot() == WithUpper(old(pkt.Snapshot()), ArpStep(unread, old(pkt.layers), old(pkt.app), old(pkt.treeDepth)))
  {
    var isArp, header := Arp.Parse(unread, pkt.layers.arp);
    pkt.layers := pkt.layers.(arp := header, isArp := isArp);
    if isArp {
      pkt.treeDepth := pkt.treeDepth + 1;
    }
  }

  /** The layer-3 block of `Parser::parse`, on the unread bytes; ok is false
      only for a rejected IPv4 header. */
  method ParseNetwork(pkt: Packet, unread: seq<byte>, etherType: u16) returns (ok: bool)
    requires NoNetwork(pkt.layers) && NoTransport(pkt.layers)
    modifies pkt
    ensures var n := NetworkStep(unread, etherType, old(pkt.layers), old(pkt.app), old(pkt.treeDepth));
      ok == n.ok && pkt.Snapshot() == WithUpper(old(pkt.Snapshot()), n.upper)
  {
    var remaining := |unread|;
    ok := true;
    if etherType == TypeIPv4 && remaining >= MinIPv4Length {
      ok := ParseIPv4(pkt, unread);
    } else if etherType == TypeIPv6 && remaining >= MinIPv6Length {
      ParseIPv6(pkt, unread);
    } else if etherType == TypeArp && remaining >= ArpLength {
      ParseArp(pkt, unread);
    }
  }

  /** The tail of `Parser::parse` after the layer-3 block. */
  method ParseFinish(pkt: Packet, isNetwork: bool) returns (ok: bool)
    modifies pkt
    ensures Dissection(ok, pkt.Snapshot()) ==
      Finish(old(pkt.Snapshot()).(layers := DefaultLayers, app := DefaultApp, treeDepth := 0),
             Network(isNetwork, Upper(old(pkt.layers), old(pkt.app), old(pkt.treeDepth))))
  {
    if !isNetwork {
      pkt.isMalformed := true;
      return false;
    }
    if pkt.app.protocol != "" {
      pkt.treeDepth := pkt.treeDepth + 1;
    }
    return true;
  }

  /** The Ethernet and tag part of `Parser::parse`, moving the cursor past
      the link-layer bytes. */
  method ParseLink(pkt: Packet) returns (ok: bool, cursor: seq<byte>, next: u16)
    requires NoNetwork(pkt.layers) && NoTransport(pkt.layers) && pkt.treeDepth == 0
    modifies pkt
    ensures Linked(ok, pkt.layers, cursor, next, pkt.treeDepth) == LinkStep(old(pkt.raw), old(pkt.layers))
    ensures pkt.Snapshot() == old(pkt.Snapshot()).(layers := pkt.layers, treeDepth := pkt.treeDepth)
  {
    cursor := pkt.raw;
    var isEth, eth, hasVlan, vlan := Ethernet.Parse(cursor, pkt.layers.eth, pkt.layers.hasVlan, pkt.layers.vlan);
    pkt.layers := pkt.layers.(eth := eth, hasVlan := hasVlan, vlan := vlan);
    next := InnerType(pkt.layers);
    if !isEth {
      return false, cursor, next;
    }
    cursor := cursor[EthernetLength..];
    pkt.treeDepth := pkt.treeDepth + 1;
    next := if pkt.layers.hasVlan then pkt.layers.vlan.etherType else pkt.layers.eth.etherType;

    if pkt.layers.hasVlan {
      // The Ethernet decoder reports a tag only when its four bytes are
      // present, so the truncated-tag exit cannot be taken.
      if |cursor| < TagLength {
        assert false;
      }
      cursor := cursor[TagLength..];
      pkt.treeDepth := pkt.treeDepth + 1;
      next := pkt.layers.vlan.etherType;
    }
    return true, cursor, next;
  }

  /** `Parser::parse` from the Ethernet header on, the frame being in the
      packet's raw buffer. */
  method ParseFrame(pkt: Packet) returns (ok: bool)
    requires pkt.layers == DefaultLayers && !pkt.isMalformed && pkt.treeDepth == 0
    modifies pkt
    ensures Dissection(ok, pkt.Snapshot()) == FromLink(old(pkt.Snapshot()))
  {
    var isEth, cursor, next := ParseLink(pkt);
    if !isEth {
      pkt.isMalformed := true;
      return false;
    }
    var isNetwork := ParseNetwork(pkt, cursor, next);
    ok := ParseFinish(pkt, isNetwork);
  }

  /** The entry step of `Parser::parse`: clear the packet and store the
      frame, its lengths and the capture time. */
  method Enter(pkt: Packet, data: seq<byte>, now: Timespec)
    modifies pkt
    ensures pkt.Snapshot() == Entry(old(pkt.Snapshot()), data, now)
  {
    pkt.Clear();
    pkt.raw := data;
    var length := (|data| % 0x1_0000_0000) as u32;
    pkt.capLength, pkt.wireLength := length, length;
    pkt.timestamp := now;
    pkt.treeDepth := 0;
  }

  /** `Parser::parse`: clear the packet, store the frame, then move a cursor
      over it layer by layer.  The clock reading is the parameter now. */
  method Parse(pkt: Packet, data: seq<byte>, now: Timespec) returns (ok: bool)
    modifies pkt
    ensures Dissection(ok, pkt.Snapshot()) == Dissect(old(pkt.Snapshot()), data, now)
  {
    if |data| == 0 {
      return false;
    }
    Enter(pkt, data, now);
    ok := ParseFrame(pkt);
  }

  /** The layers above the link layer agree. */
  predicate SameAboveLink(a: Layers, b: Layers)
  {
    a.ipv4 == b.ipv4 && a.ipv6 == b.ipv6 && a.arp == b.arp
    && a.isIpv4 == b.isIpv4 && a.isIpv6 == b.isIpv6 && a.isArp == b.isArp
    && a.tcp == b.tcp && a.udp == b.udp && a.icmp == b.icmp
    && a.isTcp == b.isTcp && a.isUdp == b.isUdp && a.isIcmp == b.isIcmp
  }

  /** The transport step never looks at the link layer. */
  lemma TransportIgnoresLink(u: seq<byte>, proto: byte, icmp: byte, l1: Layers, l2: Layers,
                             app: ApplicationLayer, d1: int, d2: int)
    requires NoTransport(l1) && NoTransport(l2) && SameAboveLink(l1, l2)
    ensures var a := Transport(u, proto, icmp, l1, app, d1);
      var b := Transport(u, proto, icmp, l2, app, d2);
      SameAboveLink(a.layers, b.layers) && a.app == b.app && a.depth - d1 == b.depth - d2
  {
  }

  /** The IPv4 step never looks at the link layer. */
  lemma IPv4IgnoresLink(u: seq<byte>, l1: Layers, l2: Layers, app: ApplicationLayer, d1: int, d2: int)
    requires NoNetwork(l1) && NoTransport(l1) && NoNetwork(l2) && NoTransport(l2) && SameAboveLink(l1, l2)
    ensures var a := IPv4Step(u, l1, app, d1);
      var b := IPv4Step(u, l2, app, d2);
      a.ok == b.ok && SameAboveLink(a.upper.layers, b.upper.layers) && a.upper.app == b.upper.app
      && a.upper.depth - d1 == b.upper.depth - d2
  {
    var v := IPv4.Decode(u, l1.ipv4);
    if v.ok {
      TransportIgnoresLink(u[v.header.ihl as nat * 4..], v.header.protocol, ProtoIcmp,
        l1.(ipv4 := v.header, isIpv4 := true), l2.(ipv4 := v.header, isIpv4 := true), app, d1 + 1, d2 + 1);
    }
  }

  /** The IPv6 step never looks at the link layer. */
  lemma IPv6IgnoresLink(u: seq<byte>, l1: Layers, l2: Layers, app: ApplicationLayer, d1: int, d2: int)
    requires NoNetwork(l1) && NoTransport(l1) && NoNetwork(l2) && NoTransport(l2) && SameAboveLink(l1, l2)
    ensures var a := IPv6Step(u, l1, app, d1);
      var b := IPv6Step(u, l2, app, d2);
      SameAboveLink(a.layers, b.layers) && a.app == b.app && a.depth - d1 == b.depth - d2
  {
    var w := IPv6.Decode(u, l1.ipv6);
    if w.ok {
      TransportIgnoresLink(u[w.consumed..], w.header.nextHeader, ProtoIcmpV6,
        l1.(ipv6 := w.header, isIpv6 := true), l2.(ipv6 := w.header, isIpv6 := true), app, d1 + 1, d2 + 1);
    }
  }

  /** The network step never looks at the link layer. */
  lemma NetworkIgnoresLink(u: seq<byte>, etherType: u16, l1: Layers, l2: Layers,
                           app: ApplicationLayer, d1: int, d2: int)
    requires NoNetwork(l1) && NoTransport(l1) && NoNetwork(l2) && NoTransport(l2) && SameAboveLink(l1, l2)
    ensures var a := NetworkStep(u, etherType, l1, app, d1);
      var b := NetworkStep(u, etherType, l2, app, d2);
      a.ok == b.ok && SameAboveLink(a.upper.layers, b.upper.layers) && a.upper.app == b.upper.app
      && a.upper.depth - d1 == b.upper.depth - d2
  {
    if etherType == TypeIPv4 && |u| >= MinIPv4Length {
      IPv4IgnoresLink(u, l1, l2, app, d1, d2);
    } else if etherType == TypeIPv6 && |u| >= MinIPv6Length {
      IPv6IgnoresLink(u, l1, l2, app, d1, d2);
    }
  }

  /** An 802.1Q tag is transparent: a tagged frame dissects above the link
      layer exactly as the same frame with its four tag bytes cut out, with
      one more tree level for the tag. */
  lemma TagIsTransparent(r: PacketRecord, data: seq<byte>, now: Timespec)
    requires |data| >= EthernetLength + TagLength
    requires BE16(data, 12) == Ethernet.TagType && BE16(data, 16) != Ethernet.TagType
    ensures var plain := data[..12] + data[16..];
      var a := Dissect(r, data, now);
      var b := Dissect(r, plain, now);
      a.ok == b.ok && SameAboveLink(a.record.layers, b.record.layers) && a.record.app == b.record.app
      && a.record.treeDepth == b.record.treeDepth + 1
      && a.record.layers.hasVlan && !b.record.layers.hasVlan
      && a.record.layers.vlan.tci == BE16(data, 14)
  {
    var plain := data[..12] + data[16..];
    assert plain[12] == data[16] && plain[13] == data[17];
    assert BE16(plain, 12) == BE16(data, 16);
    assert plain[EthernetLength..] == data[EthernetLength + TagLength..];
    var c1, c2 := Entry(r, data, now), Entry(r, plain, now);
    var k1, k2 := LinkStep(data, DefaultLayers), LinkStep(plain, DefaultLayers);
    assert k1.unread == k2.unread && k1.etherType == k2.etherType && k1.depth == k2.depth + 1;
    NetworkIgnoresLink(k1.unread, k1.etherType, k1.layers, k2.layers, DefaultApp, k1.depth, k2.depth);
  }

  /** An untagged IPv4 frame carrying TCP hands the application dispatcher
      exactly the bytes after the Ethernet, IPv4 and TCP headers, options
      included, with the TCP ports. */
  lemma TcpPayloadReachesApplication(r: PacketRecord, data: seq<byte>, now: Timespec)
    requires |data| >= EthernetLength && BE16(data, 12) == TypeIPv4 && IPv4.Acceptable(data[EthernetLength..])
    requires var v := IPv4.Decode(data[EthernetLength..], DefaultIPv4).header;
      var u := data[EthernetLength + v.ihl as nat * 4..];
      v.protocol == ProtoTcp && |u| >= MinTcpLength && Tcp.Decode(u, DefaultTcp).ok
    ensures var v := IPv4.Decode(data[EthernetLength..], DefaultIPv4).header;
      var t := Tcp.Decode(data[EthernetLength + v.ihl as nat * 4..], DefaultTcp).tcp;
      var d := Dissect(r, data, now);
      d.ok && d.record.layers.isIpv4 && d.record.layers.isTcp
      && d.record.app == Application.Classify(DefaultApp,
           data[EthernetLength + v.ihl as nat * 4 + t.dataOffset as nat * 4..], t.srcPort, t.destPort, true).app
  {
    var after := data[EthernetLength..];
    var v := IPv4.Decode(after, DefaultIPv4).header;
    var h := v.ihl as nat * 4;
    assert after[h..] == data[EthernetLength + h..];
    var t := Tcp.Decode(data[EthernetLength + h..], DefaultTcp).tcp;
    assert after[h..][t.dataOffset as nat * 4..] == data[EthernetLength + h + t.dataOffset as nat * 4..];
  }

  /** An untagged IPv6 frame carrying UDP after its extension headers hands
      the application dispatcher the bytes after the eight UDP header bytes. */
  lemma UdpOverIPv6ReachesApplication(r: PacketRecord, data: seq<byte>, now: Timespec)
    requires |data| >= EthernetLength + MinIPv6Length && BE16(data, 12) == TypeIPv6
    requires var w := IPv6.Decode(data[EthernetLength..], DefaultIPv6);
      w.ok && w.header.nextHeader == ProtoUdp && |data[EthernetLength + w.consumed..]| >= UdpLength
    ensures var w := IPv6.Decode(data[EthernetLength..], DefaultIPv6);
      var v := Udp.Decode(data[EthernetLength + w.consumed..], DefaultUdp);
      var d := Dissect(r, data, now);
      d.ok && d.record.layers.isIpv6 && d.record.layers.isUdp == v.ok
      && (v.ok ==> d.record.app == Application.Classify(DefaultApp,
           data[EthernetLength + w.consumed + UdpLength..], v.udp.srcPort, v.udp.destPort, false).app)
  {
    var after := data[EthernetLength..];
    var w := IPv6.Decode(after, DefaultIPv6);
    assert after[w.consumed..] == data[EthernetLength + w.consumed..];
    assert after[w.consumed..][UdpLength..] == data[EthernetLength + w.consumed + UdpLength..];
  }

  /** A frame whose EtherType names no decoder is accepted with only the
      Ethernet header decoded. */
  lemma UnknownEtherTypeIgnored(r: PacketRecord, data: seq<byte>, now: Timespec)
    requires |data| >= EthernetLength
    requires BE16(data, 12) != TypeIPv4 && BE16(data, 12) != TypeIPv6 && BE16(data, 12) != TypeArp
    requires BE16(data, 12) != Ethernet.TagType
    ensures var d := Dissect(r, data, now);
      d.ok && NoNetwork(d.record.layers) && NoTransport(d.record.layers)
      && d.record.app == DefaultApp && d.record.treeDepth == 1
  {
  }

  /** Only a decoded TCP or UDP header lets the application fields change. */
  lemma ApplicationNeedsTransport(r: PacketRecord, data: seq<byte>, now: Timespec)
    requires |data| > 0
    ensures var d := Dissect(r, data, now);
      d.record.app != DefaultApp ==> d.record.layers.isTcp || d.record.layers.isUdp
  {
  }

  /** On success the tree has one level per decoded layer: Ethernet, the
      tag, the network and transport headers and the application. */
  lemma DepthCountsLayers(r: PacketRecord, data: seq<byte>, now: Timespec)
    requires Dissect(r, data, now).ok
    ensures var m := Dissect(r, data, now).record;
      m.treeDepth == 1 + Count(m.layers.hasVlan) + Count(!NoNetwork(m.layers))
                       + Count(!NoTransport(m.layers)) + Count(m.app.protocol != "")
  {
  }
}
