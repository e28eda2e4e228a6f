/** The UDP header decoder (RFC 768). */
module Udp {
  import opened Bytes
  import opened Text
  import opened PacketData

  const HeaderLength: nat := 8

  datatype UdpResult = UdpResult(ok: bool, udp: UdpHeader)

  /** `UDPParser::parse`: the four words are stored, then a length field
      below 8 is rejected; the length is never compared with the bytes
      actually present. */
  function Decode(d: seq<byte>, prior: UdpHeader): (r: UdpResult)
    ensures |d| < HeaderLength ==> r == UdpResult(false, prior)
    ensures |d| >= HeaderLength ==> r.udp == UdpHeader(BE16(d, 0), BE16(d, 2), BE16(d, 4), BE16(d, 6))
    ensures r.ok <==> |d| >= HeaderLength && BE16(d, 4) >= HeaderLength
  {
    if |d| < HeaderLength then UdpResult(false, prior)
    else
      var h := UdpHeader(BE16(d, 0), BE16(d, 2), BE16(d, 4), BE16(d, 6));
      UdpResult(h.length >= 8, h)
  }

  method Parse(d: seq<byte>, prior: UdpHeader) returns (ok: bool, udp: UdpHeader)
    ensures UdpResult(ok, udp) == Decode(d, prior)
  {
    udp := prior;
    if |d| < 8 {
      return false, udp;
    }
    udp := udp.(srcPort := BE16(d, 0), destPort := BE16(d, 2));
    udp := udp.(length := BE16(d, 4), checksum := BE16(d, 6));
    if udp.length < 8 {
      return false, udp;
    }
    return true, udp;
  }

  function Encode(h: UdpHeader): (s: seq<byte>)
    ensures |s| == HeaderLength
  {
    Be16Bytes(h.srcPort) + Be16Bytes(h.destPort) + Be16Bytes(h.length) + Be16Bytes(h.checksum)
  }

  /** Any header comes back from its bytes, followed by any payload at all:
      a datagram whose length field claims more than is present is accepted. */
  lemma DecodeEncode(h: UdpHeader, payload: seq<byte>, prior: UdpHeader)
    ensures Decode(Encode(h) + payload, prior) == UdpResult(h.length >= HeaderLength, h)
  {
    var a, b, c, e := Be16Bytes(h.srcPort), Be16Bytes(h.destPort), Be16Bytes(h.length), Be16Bytes(h.checksum);
    var d := Encode(h) + payload;
    assert d == [] + a + (b + c + e + payload);
    BE16OfBytes([], h.srcPort, b + c + e + payload);
    assert d == a + b + (c + e + payload);
    BE16OfBytes(a, h.destPort, c + e + payload);
    assert d == (a + b) + c + (e + payload);
    BE16OfBytes(a + b, h.length, e + payload);
    assert d == (a + b + c) + e + payload;
    BE16OfBytes(a + b + c, h.checksum, payload);
  }

  const NamedPorts: set<u16> := {53, 67, 68, 123, 161, 5353}

  /** `getPortName`: a service name for the listed ports, the decimal number
      for any other; a name never reads as a number. */
  function PortName(port: u16): (s: string)
    ensures port !in NamedPorts ==> s == Decimal(port)
    ensures AllDigits(s) <==> port !in NamedPorts
  {
    match port
    case 53 => assert !IsDigit("dns"[0]); "dns"
    case 67 => assert !IsDigit("bootps (DHCP Server)"[0]); "bootps (DHCP Server)"
    case 68 => assert !IsDigit("bootpc (DHCP Client)"[0]); "bootpc (DHCP Client)"
    case 123 => assert !IsDigit("ntp"[0]); "ntp"
    case 161 => assert !IsDigit("snmp"[0]); "snmp"
    case 5353 => assert !IsDigit("mdns"[0]); "mdns"
    case _ => Decimal(port)
  }
}
