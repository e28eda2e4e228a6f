/** The ICMP and ICMPv6 header decoder: type, code and checksum, plus the
    identifier and sequence number of an ICMPv4 echo (RFC 792). */
module Icmp {
  import opened Bytes
  import opened PacketData

  const MinLength: nat := 4
  const EchoReply: byte := 0
  const EchoRequest: byte := 8

  datatype IcmpResult = IcmpResult(ok: bool, icmp: IcmpHeader)

  /** The identifier and sequence number are read only for an ICMPv4 echo
      that carries them; ICMPv6 echoes (128, 129) are not recognised. */
  predicate HasEchoFields(d: seq<byte>)
    requires |d| >= MinLength
  {
    (d[0] == EchoRequest || d[0] == EchoReply) && |d| >= 8
  }

  /** `ICMPParser::parse` as a function of the bytes and the prior header. */
  function Decode(d: seq<byte>, prior: IcmpHeader): (r: IcmpResult)
    ensures r.ok <==> |d| >= MinLength
    ensures !r.ok ==> r.icmp == prior
    ensures r.ok ==> r.icmp.icmpType == d[0] && r.icmp.code == d[1] && r.icmp.checksum == BE16(d, 2)
    ensures r.ok && HasEchoFields(d) ==> r.icmp.id == BE16(d, 4) && r.icmp.sequence == BE16(d, 6)
    ensures r.ok && !HasEchoFields(d) ==> r.icmp.id == 0 && r.icmp.sequence == 0
  {
    if |d| < MinLength then IcmpResult(false, prior)
    else
      var h := prior.(icmpType := d[0], code := d[1], checksum := BE16(d, 2));
      if HasEchoFields(d) then IcmpResult(true, h.(id := BE16(d, 4), sequence := BE16(d, 6)))
      else IcmpResult(true, h.(id := 0, sequence := 0))
  }

  method Parse(d: seq<byte>, prior: IcmpHeader) returns (ok: bool, icmp: IcmpHeader)
    ensures IcmpResult(ok, icmp) == Decode(d, prior)
  {
    icmp := prior;
    if |d| < 4 {
      return false, icmp;
    }
    icmp := icmp.(icmpType := d[0], code := d[1], checksum := BE16(d, 2));
    if (icmp.icmpType == 8 || icmp.icmpType == 0) && |d| >= 8 {
      icmp := icmp.(id := BE16(d, 4), sequence := BE16(d, 6));
    } else {
      icmp := icmp.(id := 0, sequence := 0);
    }
    return true, icmp;
  }

  /** An echo message on the wire. */
  function Echo(echoType: byte, code: byte, checksum: u16, id: u16, sequence: u16, data: seq<byte>): (s: seq<byte>)
    ensures |s| == 8 + |data|
  {
    [echoType, code] + Be16Bytes(checksum) + Be16Bytes(id) + Be16Bytes(sequence) + data
  }

  /** An ICMPv4 echo decodes to its fields; any other message laid out the
      same way, an ICMPv6 echo (128, 129) among them, keeps only type, code
      and checksum, with identifier and sequence number zero. */
  lemma DecodeEcho(echoType: byte, code: byte, checksum: u16, id: u16, sequence: u16, data: seq<byte>, prior: IcmpHeader)
    ensures var r := Decode(Echo(echoType, code, checksum, id, sequence, data), prior);
      r.ok && r.icmp.icmpType == echoType && r.icmp.code == code && r.icmp.checksum == checksum
    ensures var r := Decode(Echo(echoType, code, checksum, id, sequence, data), prior);
      echoType == EchoRequest || echoType == EchoReply ==> r.icmp.id == id && r.icmp.sequence == sequence
    ensures var r := Decode(Echo(echoType, code, checksum, id, sequence, data), prior);
      echoType != EchoRequest && echoType != EchoReply ==> r.icmp.id == 0 && r.icmp.sequence == 0
  {
    var d := Echo(echoType, code, checksum, id, sequence, data);
    BE16OfBytes([echoType, code], checksum, Be16Bytes(id) + Be16Bytes(sequence) + data);
    assert d == [echoType, code] + Be16Bytes(checksum) + (Be16Bytes(id) + Be16Bytes(sequence) + data);
    BE16OfBytes([echoType, code] + Be16Bytes(checksum), id, Be16Bytes(sequence) + data);
    assert d == [echoType, code] + Be16Bytes(checksum) + Be16Bytes(id) + (Be16Bytes(sequence) + data);
    BE16OfBytes([echoType, code] + Be16Bytes(checksum) + Be16Bytes(id), sequence, data);
  }

  /** `getTypeString`: the listed ICMP and ICMPv6 types have names. */
  const NamedTypes: set<byte> := {0, 3, 5, 8, 11, 128, 129, 133, 134, 135, 136}

  function TypeName(t: byte): (s: string)
    ensures s == "Unknown Type" <==> t !in NamedTypes
  {
    match t
    case 0 => "Echo Reply"
    case 3 => "Destination Unreachable"
    case 5 => "Redirect"
    case 8 => "Echo (ping) Request"
    case 11 => "Time Exceeded"
    case 128 => "Echo Request (IPv6)"
    case 129 => "Echo Reply (IPv6)"
    case 133 => "Router Solicitation"
    case 134 => "Router Advertisement"
    case 135 => "Neighbor Solicitation"
    case 136 => "Neighbor Advertisement"
    case _ => "Unknown Type"
  }
}
