/** The dissected-packet record: one header value per protocol layer, the
    presence flags that say which layers were decoded, and the metadata the
    capture loop fills in.  `Packet` is the record the dissector updates in
    place; `PacketRecord` is the copy that batches, the filter and the
    statistics work on. */
module PacketData {
  import opened Bytes

  type Mac = s: seq<byte> | |s| == 6 witness [0, 0, 0, 0, 0, 0]
  type Ipv6Address = s: seq<byte> | |s| == 16 witness Zeros(16)
  type OptionBytes = s: seq<byte> | |s| == 40 witness Zeros(40)

  function Zeros(n: nat): (s: seq<byte>)
    ensures |s| == n && forall i :: 0 <= i < n ==> s[i] == 0
  {
    seq(n, _ => 0)
  }

  /** A `timespec`: seconds and nanoseconds of the capture clock. */
  datatype Timespec = Timespec(sec: int, nsec: int)

  datatype EthernetHeader = EthernetHeader(
    destMac: Mac, srcMac: Mac, etherType: u16,
    vlanTpid: u16, vlanTci: u16)

  datatype VlanHeader = VlanHeader(tpid: u16, tci: u16, etherType: u16)

  datatype IPv4Header = IPv4Header(
    version: byte, ihl: byte, tos: byte, totalLength: u16, id: u16,
    flagsFragOffset: u16, ttl: byte, protocol: byte, headerChecksum: u16,
    srcIp: u32, destIp: u32, options: OptionBytes, optionsLen: byte)

  datatype IPv6Header = IPv6Header(
    verTcFlow: u32, payloadLength: u16, nextHeader: byte, hopLimit: byte,
    srcIp: Ipv6Address, destIp: Ipv6Address)

  datatype ArpHeader = ArpHeader(
    hardwareType: u16, protocolType: u16, hardwareSize: byte, protocolSize: byte,
    opcode: u16, senderMac: Mac, senderIp: u32, targetMac: Mac, targetIp: u32)

  datatype TcpHeader = TcpHeader(
    srcPort: u16, destPort: u16, seqNum: u32, ackNum: u32,
    dataOffset: byte, reserved: byte, flags: byte,
    window: u16, checksum: u16, urgentPointer: u16,
    options: OptionBytes, optionsLen: byte,
    hasTimestamp: bool, tsVal: u32, tsEcr: u32)

  datatype UdpHeader = UdpHeader(srcPort: u16, destPort: u16, length: u16, checksum: u16)

  datatype IcmpHeader = IcmpHeader(icmpType: byte, code: byte, checksum: u16, id: u16, sequence: u16)

  /** How an earlier stage classified a UDP payload as QUIC. */
  datatype QuicType = NotQuic | LongHeader | ShortHeader

  datatype ApplicationLayer = ApplicationLayer(
    data: seq<byte>, protocol: string, info: string,
    httpMethod: string, httpHost: string, httpPath: string, httpVersion: string,
    isHttpRequest: bool, isHttpResponse: bool, httpStatusCode: int,
    dnsId: u16, isDnsQuery: bool, dnsName: string, dnsType: u16, dnsClass: u16,
    tlsVersionMajor: byte, tlsVersionMinor: byte, tlsSni: string,
    quicType: QuicType)

  // The value-initialised structs (`EthernetHeader{}` and so on).
  const DefaultEthernet := EthernetHeader([0, 0, 0, 0, 0, 0], [0, 0, 0, 0, 0, 0], 0, 0, 0)
  const DefaultVlan := VlanHeader(0, 0, 0)
  const DefaultIPv4 := IPv4Header(4, 0, 0, 0, 0, 0, 0, 0, 0, 0, 0, Zeros(40), 0)
  const DefaultIPv6 := IPv6Header(0, 0, 0, 0, Zeros(16), Zeros(16))
  const DefaultArp := ArpHeader(0, 0, 0, 0, 0, [0, 0, 0, 0, 0, 0], 0, [0, 0, 0, 0, 0, 0], 0)
  const DefaultTcp := TcpHeader(0, 0, 0, 0, 0, 0, 0, 0, 0, 0, Zeros(40), 0, false, 0, 0)
  const DefaultUdp := UdpHeader(0, 0, 0, 0)
  const DefaultIcmp := IcmpHeader(0, 0, 0, 0, 0)
  const DefaultApp := ApplicationLayer([], "", "", "", "", "", "", false, false, 0,
                                       0, false, "", 0, 0, 0, 0, "", NotQuic)

  /** The TCP control bits, FIN through CWR, as `TCPHeader::Flags` numbers them. */
  const FIN: byte := 0x01
  const SYN: byte := 0x02
  const RST: byte := 0x04
  const PSH: byte := 0x08
  const ACK: byte := 0x10
  const URG: byte := 0x20
  const ECE: byte := 0x40
  const CWR: byte := 0x80
  const TcpFlags: seq<byte> := [FIN, SYN, RST, PSH, ACK, URG, ECE, CWR]

  function Pow2(k: nat): (p: nat)
    ensures p >= 1
  {
    if k == 0 then 1 else 2 * Pow2(k - 1)
  }

  /** Flag k is bit k, so the eight flags are distinct single bits of one byte. */
  lemma TcpFlagsAreBits()
    ensures |TcpFlags| == 8
    ensures forall k :: 0 <= k < 8 ==> TcpFlags[k] == Pow2(k)
    ensures forall j, k :: 0 <= j < k < 8 ==> TcpFlags[j] != TcpFlags[k]
  {
    assert Pow2(0) == 1 && Pow2(1) == 2 && Pow2(2) == 4 && Pow2(3) == 8;
    assert Pow2(4) == 16 && Pow2(5) == 32 && Pow2(6) == 64 && Pow2(7) == 128;
  }

  /** Every protocol header together with the flag that says it was decoded:
      the part of the record that `clear()` resets and the dissector fills. */
  datatype Layers = Layers(
    eth: EthernetHeader, vlan: VlanHeader, hasVlan: bool,
    ipv4: IPv4Header, ipv6: IPv6Header, arp: ArpHeader,
    isIpv4: bool, isIpv6: bool, isArp: bool,
    tcp: TcpHeader, udp: UdpHeader, icmp: IcmpHeader,
    isTcp: bool, isUdp: bool, isIcmp: bool)

  const DefaultLayers := Layers(DefaultEthernet, DefaultVlan, false,
    DefaultIPv4, DefaultIPv6, DefaultArp, false, false, false,
    DefaultTcp, DefaultUdp, DefaultIcmp, false, false, false)

  /** A copy of a dissected packet.  The tree-view and expert-info text is
      not part of the model. */
  datatype PacketRecord = PacketRecord(
    packetId: u32, timestamp: Timespec, capLength: u32, wireLength: u32,
    raw: seq<byte>, layers: Layers, app: ApplicationLayer, treeDepth: int,
    isMalformed: bool, isRetransmitted: bool, isDuplicate: bool,
    streamIndex: int)

  /** What `clear()` makes of a record: everything but the metadata reset. */
  function Cleared(r: PacketRecord): (c: PacketRecord)
    ensures c.packetId == r.packetId && c.timestamp == r.timestamp
    ensures c.capLength == r.capLength && c.wireLength == r.wireLength
    ensures c.streamIndex == r.streamIndex
    ensures c.raw == [] && c.treeDepth == 0
    ensures var l := c.layers;
      !l.hasVlan && !l.isIpv4 && !l.isIpv6 && !l.isArp && !l.isTcp && !l.isUdp && !l.isIcmp
    ensures !c.isMalformed && !c.isRetransmitted && !c.isDuplicate
    ensures var l := c.layers;
      l.eth == DefaultEthernet && l.vlan == DefaultVlan && l.ipv4 == DefaultIPv4
      && l.ipv6 == DefaultIPv6 && l.arp == DefaultArp
      && l.tcp == DefaultTcp && l.udp == DefaultUdp && l.icmp == DefaultIcmp
    ensures c.app == DefaultApp
  {
    r.(raw := [], layers := DefaultLayers, app := DefaultApp, treeDepth := 0,
       isMalformed := false, isRetransmitted := false, isDuplicate := false)
  }

  /** Clearing twice is clearing once, and two records with the same
      metadata clear to the same record. */
  lemma ClearedIdempotent(r: PacketRecord, s: PacketRecord)
    ensures Cleared(Cleared(r)) == Cleared(r)
    ensures r.packetId == s.packetId && r.timestamp == s.timestamp && r.capLength == s.capLength
         && r.wireLength == s.wireLength && r.streamIndex == s.streamIndex
        ==> Cleared(r) == Cleared(s)
  {
  }

  /** A new `PacketData{}`; `streamIndex` has no default in the record and
      starts at -1 here, meaning "no stream". */
  const NewRecord := PacketRecord(0, Timespec(0, 0), 0, 0, [], DefaultLayers, DefaultApp,
    0, false, false, false, -1)

  /** The packet the dissector and the conversation manager update in place. */
  class Packet {
    var packetId: u32
    var timestamp: Timespec
    var capLength: u32
    var wireLength: u32
    var raw: seq<byte>
    var layers: Layers
    var app: ApplicationLayer
    var treeDepth: int
    var isMalformed: bool
    var isRetransmitted: bool
    var isDuplicate: bool
    var streamIndex: int

    function Snapshot(): PacketRecord
      reads this
    {
      PacketRecord(packetId, timestamp, capLength, wireLength, raw, layers, app,
        treeDepth, isMalformed, isRetransmitted, isDuplicate, streamIndex)
    }

    constructor ()
      ensures Snapshot() == NewRecord
    {
      packetId, timestamp, capLength, wireLength := 0, Timespec(0, 0), 0, 0;
      raw, layers, app, treeDepth := [], DefaultLayers, DefaultApp, 0;
      isMalformed, isRetransmitted, isDuplicate := false, false, false;
      streamIndex := -1;
    }

    /** `PacketData::clear()`: reset every layer, flag and buffer, keeping
        the metadata. */
    method Clear()
      modifies this
      ensures Snapshot() == Cleared(old(Snapshot()))
    {
      raw := [];
      treeDepth := 0;
      isMalformed, isRetransmitted, isDuplicate := false, false, false;
      layers := DefaultLayers;
      app := DefaultApp;
    }
  }
}
