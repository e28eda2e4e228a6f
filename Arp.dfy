/** The ARP decoder for Ethernet/IPv4 packets (RFC 826). */
module Arp {
  import opened Bytes
  import opened PacketData

  const PacketLength: nat := 28
  const HardwareEthernet: u16 := 1
  const ProtocolIPv4: u16 := 0x0800

  datatype ArpResult = ArpResult(ok: bool, arp: ArpHeader)

  /** The header describes Ethernet hardware addresses and IPv4 protocol addresses. */
  predicate EthernetIPv4(h: ArpHeader)
  {
    h.hardwareType == HardwareEthernet && h.protocolType == ProtocolIPv4
    && h.hardwareSize == 6 && h.protocolSize == 4
  }

  /** The 28 bytes of the packet as fields; the protocol addresses are the
      raw words, as the IPv4 decoder keeps them. */
  function Fields(d: seq<byte>): ArpHeader
    requires |d| >= PacketLength
  {
    ArpHeader(BE16(d, 0), BE16(d, 2), d[4], d[5], BE16(d, 6),
              d[8..14], LE32(d, 14), d[18..24], LE32(d, 24))
  }

  /** `ARPParser::parse`: every field is stored first, and only then is the
      packet checked to be Ethernet/IPv4. */
  function Decode(d: seq<byte>, prior: ArpHeader): (r: ArpResult)
    ensures |d| < PacketLength ==> r == ArpResult(false, prior)
    ensures |d| >= PacketLength ==> r.arp == Fields(d)
    ensures r.ok <==> |d| >= PacketLength && EthernetIPv4(r.arp)
  {
    if |d| < PacketLength then ArpResult(false, prior)
    else
      var h := Fields(d);
      ArpResult(EthernetIPv4(h), h)
  }

  method Parse(d: seq<byte>, prior: ArpHeader) returns (ok: bool, arp: ArpHeader)
    ensures ArpResult(ok, arp) == Decode(d, prior)
  {
    arp := prior;
    if |d| < 28 {
      return false, arp;
    }
    arp := arp.(hardwareType := BE16(d, 0), protocolType := BE16(d, 2));
    arp := arp.(hardwareSize := d[4], protocolSize := d[5], opcode := BE16(d, 6));
    arp := arp.(senderMac := d[8..14], targetMac := d[18..24]);
    var senderNet := LE32(d, 14);
    var targetNet := LE32(d, 24);
    arp := arp.(senderIp := senderNet, targetIp := targetNet);
    if arp.hardwareType != 1 || arp.protocolType != 0x0800 || arp.hardwareSize != 6 || arp.protocolSize != 4 {
      return false, arp;
    }
    return true, arp;
  }

  /** The packet a sender builds from a header. */
  function Encode(h: ArpHeader): (s: seq<byte>)
    ensures |s| == PacketLength
  {
    [h.hardwareType / 0x100, h.hardwareType % 0x100, h.protocolType / 0x100, h.protocolType % 0x100,
     h.hardwareSize, h.protocolSize, h.opcode / 0x100, h.opcode % 0x100,
     h.senderMac[0], h.senderMac[1], h.senderMac[2], h.senderMac[3], h.senderMac[4], h.senderMac[5],
     ByteOf(h.senderIp, 0), ByteOf(h.senderIp, 1), ByteOf(h.senderIp, 2), ByteOf(h.senderIp, 3),
     h.targetMac[0], h.targetMac[1], h.targetMac[2], h.targetMac[3], h.targetMac[4], h.targetMac[5],
     ByteOf(h.targetIp, 0), ByteOf(h.targetIp, 1), ByteOf(h.targetIp, 2), ByteOf(h.targetIp, 3)]
  }

  /** The fixed-size fields come back from the first 8 bytes. */
  lemma SizesOfBytes(h: ArpHeader, rest: seq<byte>)
    ensures var d := Encode(h) + rest;
      BE16(d, 0) == h.hardwareType && BE16(d, 2) == h.protocolType
      && d[4] == h.hardwareSize && d[5] == h.protocolSize && BE16(d, 6) == h.opcode
  {
  }

  /** The sender's addresses come back from bytes 8 to 17 ... */
  lemma SenderOfBytes(h: ArpHeader, rest: seq<byte>)
    ensures var d := Encode(h) + rest;
      d[8..14] == h.senderMac && LE32(d, 14) == h.senderIp
  {
    var d := Encode(h) + rest;
    ByteOfRecompose(h.senderIp);
    assert d[8..14] == h.senderMac;
  }

  /** ... and the target's from bytes 18 to 27. */
  lemma TargetOfBytes(h: ArpHeader, rest: seq<byte>)
    ensures var d := Encode(h) + rest;
      d[18..24] == h.targetMac && LE32(d, 24) == h.targetIp
  {
    var d := Encode(h) + rest;
    ByteOfRecompose(h.targetIp);
    assert d[18..24] == h.targetMac;
  }

  /** Any header survives encoding and decoding, whatever trails the packet;
      it is accepted exactly when it is Ethernet/IPv4. */
  lemma DecodeEncode(h: ArpHeader, rest: seq<byte>, prior: ArpHeader)
    ensures Decode(Encode(h) + rest, prior) == ArpResult(EthernetIPv4(h), h)
  {
    SizesOfBytes(h, rest);
    SenderOfBytes(h, rest);
    TargetOfBytes(h, rest);
  }

  /** The decoder never looks at the opcode to accept or reject a packet. */
  lemma AcceptanceIgnoresOpcode(d: seq<byte>, e: seq<byte>, prior: ArpHeader)
    requires |d| >= PacketLength && |e| == |d|
    requires d[..6] == e[..6]
    ensures Decode(d, prior).ok == Decode(e, prior).ok
  {
    assert d[0] == e[0] && d[1] == e[1] && d[2] == e[2] && d[3] == e[3] && d[4] == e[4] && d[5] == e[5];
  }

  /** The label the tree shows for an opcode. */
  function OpcodeLabel(opcode: u16): (s: string)
    ensures s == "Unknown" <==> opcode != 1 && opcode != 2
  {
    if opcode == 1 then "Request" else if opcode == 2 then "Reply" else "Unknown"
  }
}
