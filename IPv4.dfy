/** The IPv4 header decoder (section 3.1 of RFC 791) and the IPv4 display
    helpers.  Addresses are kept the way the decoder copies them out of the
    frame: as the raw 32-bit word of a little-endian host. */
module IPv4 {
  import opened Bytes
  import opened Text
  import opened PacketData

  const MinHeaderLength: nat := 20

  datatype IPv4Result = IPv4Result(ok: bool, header: IPv4Header)

  function Version(b: byte): nat { b / 16 }
  function Ihl(b: byte): nat { b % 16 }

  /** The frame starts with a header the decoder accepts. */
  predicate Acceptable(d: seq<byte>)
  {
    |d| >= MinHeaderLength && Version(d[0]) == 4 && Ihl(d[0]) >= 5 && |d| >= Ihl(d[0]) * 4
  }

  /** `IPv4Parser::parse` as a function of the bytes and the prior header.
      Version and IHL are stored before they are checked, so a rejected
      header still leaves them behind. */
  function Decode(d: seq<byte>, prior: IPv4Header): (r: IPv4Result)
    ensures r.ok <==> Acceptable(d)
    ensures |d| < MinHeaderLength ==> r.header == prior
    ensures |d| >= MinHeaderLength && !r.ok ==>
      r.header == prior.(version := Version(d[0]), ihl := Ihl(d[0]))
    ensures r.ok ==> 5 <= r.header.ihl <= 15 && r.header.optionsLen as int == r.header.ihl as int * 4 - 20 <= 40
    ensures r.ok ==> r.header.ihl as nat == Ihl(d[0]) && r.header.version == 4
    ensures r.ok ==> var n := r.header.optionsLen as int;
      20 + n <= |d| && r.header.options[..n] == d[20..20 + n] && r.header.options[n..] == prior.options[n..]
  {
    if |d| < MinHeaderLength then IPv4Result(false, prior)
    else
      var h := prior.(version := Version(d[0]), ihl := Ihl(d[0]));
      if h.version != 4 || h.ihl < 5 || |d| < h.ihl as int * 4 then IPv4Result(false, h)
      else
        var n := h.ihl as int * 4 - 20;
        IPv4Result(true, FixedFields(d, h).(optionsLen := n, options := d[20..20 + n] + prior.options[n..]))
  }

  /** The fields of the fixed header after the first byte. */
  function FixedFields(d: seq<byte>, h: IPv4Header): IPv4Header
    requires |d| >= MinHeaderLength
  {
    h.(tos := d[1], totalLength := BE16(d, 2), id := BE16(d, 4), flagsFragOffset := BE16(d, 6),
       ttl := d[8], protocol := d[9], headerChecksum := BE16(d, 10), srcIp := LE32(d, 12), destIp := LE32(d, 16))
  }

  /** `IPv4Parser::parse`, field by field, with the options copied over the
      front of the prior option buffer. */
  method Parse(d: seq<byte>, prior: IPv4Header) returns (ok: bool, ipv4: IPv4Header)
    ensures IPv4Result(ok, ipv4) == Decode(d, prior)
  {
    ipv4 := prior;
    if |d| < 20 {
      return false, ipv4;
    }
    ipv4 := ipv4.(version := d[0] / 16);
    ipv4 := ipv4.(ihl := d[0] % 16);
    if ipv4.version != 4 || ipv4.ihl < 5 {
      return false, ipv4;
    }
    var headerLen := ipv4.ihl as int * 4;
    if |d| < headerLen {
      return false, ipv4;
    }
    ipv4 := ipv4.(tos := d[1]);
    ipv4 := ipv4.(totalLength := BE16(d, 2));
    ipv4 := ipv4.(id := BE16(d, 4));
    ipv4 := ipv4.(flagsFragOffset := BE16(d, 6));
    ipv4 := ipv4.(ttl := d[8]);
    ipv4 := ipv4.(protocol := d[9]);
    ipv4 := ipv4.(headerChecksum := BE16(d, 10));
    ipv4 := ipv4.(srcIp := LE32(d, 12));
    ipv4 := ipv4.(destIp := LE32(d, 16));
    ipv4 := ipv4.(optionsLen := if headerLen > 20 then headerLen - 20 else 0);
    if ipv4.optionsLen > 0 {
      var n := ipv4.optionsLen as int;
      ipv4 := ipv4.(options := d[20..20 + n] + ipv4.options[n..]);
    }
    return true, ipv4;
  }

  // ---------------------------------------------------------------- encoding

  /** A header whose fields a sender can put on the wire. */
  predicate WellFormed(h: IPv4Header)
  {
    h.version == 4 && 5 <= h.ihl <= 15 && h.optionsLen as int == h.ihl as int * 4 - 20
  }

  function Hi(v: u16): byte { v / 0x100 }
  function Lo(v: u16): byte { v % 0x100 }

  /** The 20 fixed bytes of a header; the addresses go out as they are held. */
  function FixedBytes(h: IPv4Header): (s: seq<byte>)
    requires WellFormed(h)
    ensures |s| == MinHeaderLength
  {
    [h.version * 16 + h.ihl, h.tos, Hi(h.totalLength), Lo(h.totalLength),
     Hi(h.id), Lo(h.id), Hi(h.flagsFragOffset), Lo(h.flagsFragOffset),
     h.ttl, h.protocol, Hi(h.headerChecksum), Lo(h.headerChecksum),
     ByteOf(h.srcIp, 0), ByteOf(h.srcIp, 1), ByteOf(h.srcIp, 2), ByteOf(h.srcIp, 3),
     ByteOf(h.destIp, 0), ByteOf(h.destIp, 1), ByteOf(h.destIp, 2), ByteOf(h.destIp, 3)]
  }

  /** The wire form of a header: IHL × 4 bytes. */
  function Encode(h: IPv4Header): (s: seq<byte>)
    requires WellFormed(h)
    ensures |s| == h.ihl as int * 4
  {
    FixedBytes(h) + h.options[..h.optionsLen]
  }

  /** The fixed fields come back from their bytes, whatever follows them. */
  lemma FixedFieldsOfBytes(h: IPv4Header, tail: seq<byte>, prior: IPv4Header)
    requires WellFormed(h)
    ensures var d := FixedBytes(h) + tail;
      Version(d[0]) == 4 && Ihl(d[0]) == h.ihl as nat
      && FixedFields(d, prior) == prior.(tos := h.tos, totalLength := h.totalLength, id := h.id,
           flagsFragOffset := h.flagsFragOffset, ttl := h.ttl, protocol := h.protocol,
           headerChecksum := h.headerChecksum, srcIp := h.srcIp, destIp := h.destIp)
  {
    ByteOfRecompose(h.srcIp);
    ByteOfRecompose(h.destIp);
  }

  /** Decoding an encoded header, whatever follows it, gives the header
      back; only the tail of the option buffer past the options is the old one. */
  lemma DecodeEncode(h: IPv4Header, payload: seq<byte>, prior: IPv4Header)
    requires WellFormed(h)
    ensures var n := h.optionsLen as int;
      Decode(Encode(h) + payload, prior) == IPv4Result(true, h.(options := h.options[..n] + prior.options[n..]))
  {
    var n := h.optionsLen as int;
    var opts := h.options[..n];
    SliceMiddle(FixedBytes(h), opts, payload);
    FixedFieldsOfBytes(h, opts + payload, prior.(version := 4, ihl := h.ihl));
  }

  // ---------------------------------------------------------------- display

  /** The address in dotted decimal, lowest-addressed byte first: the order
      the bytes had on the wire. */
  function Dotted(ip: u32): string
  {
    Decimal(ByteOf(ip, 0)) + "." + Decimal(ByteOf(ip, 1)) + "."
      + Decimal(ByteOf(ip, 2)) + "." + Decimal(ByteOf(ip, 3))
  }

  /** An address copied raw from the frame prints its four bytes in wire order. */
  lemma DottedWireOrder(d: seq<byte>, i: nat)
    requires i + 4 <= |d|
    ensures Dotted(LE32(d, i)) == Decimal(d[i]) + "." + Decimal(d[i + 1]) + "."
                                  + Decimal(d[i + 2]) + "." + Decimal(d[i + 3])
  {
    LE32Bytes(d, i);
  }

  /** What lies at position k of x + "." + y: a digit of x before the dot. */
  lemma CharOfDotted(x: string, y: string, k: nat)
    ensures k < |x| && AllDigits(x) ==> IsDigit((x + "." + y)[k])
    ensures (x + "." + y)[|x|] == '.'
  {
  }

  /** Two digit strings, each followed by a dot, can only line up one way. */
  lemma DotSplit(x1: string, y1: string, x2: string, y2: string)
    requires AllDigits(x1) && AllDigits(x2)
    requires x1 + "." + y1 == x2 + "." + y2
    ensures x1 == x2 && y1 == y2
  {
    var s := x1 + "." + y1;
    CharOfDotted(x1, y1, |x2|);
    CharOfDotted(x2, y2, |x1|);
    if |x1| != |x2| {
      assert false;
    }
    assert x1 == s[..|x1|] == x2;
    assert y1 == s[|x1| + 1..] == y2;
  }

  /** The four numbers of a printed address, grouped from the right. */
  lemma DottedGroups(a: u32)
    ensures Dotted(a) == Decimal(ByteOf(a, 0)) + "." + (Decimal(ByteOf(a, 1)) + "."
                              + (Decimal(ByteOf(a, 2)) + "." + Decimal(ByteOf(a, 3))))
  {
  }

  /** Different addresses print differently, so an address test selects
      exactly one address. */
  lemma DottedInjective(a: u32, b: u32)
    requires Dotted(a) == Dotted(b)
    ensures a == b
  {
    var a0, a1, a2, a3 := ByteOf(a, 0), ByteOf(a, 1), ByteOf(a, 2), ByteOf(a, 3);
    var b0, b1, b2, b3 := ByteOf(b, 0), ByteOf(b, 1), ByteOf(b, 2), ByteOf(b, 3);
    DottedGroups(a);
    DottedGroups(b);
    DotSplit(Decimal(a0), Decimal(a1) + "." + (Decimal(a2) + "." + Decimal(a3)),
             Decimal(b0), Decimal(b1) + "." + (Decimal(b2) + "." + Decimal(b3)));
    DotSplit(Decimal(a1), Decimal(a2) + "." + Decimal(a3), Decimal(b1), Decimal(b2) + "." + Decimal(b3));
    DotSplit(Decimal(a2), Decimal(a3), Decimal(b2), Decimal(b3));
    DecimalInjective(a0, b0);
    DecimalInjective(a1, b1);
    DecimalInjective(a2, b2);
    DecimalInjective(a3, b3);
    ByteOfRecompose(a);
    ByteOfRecompose(b);
  }

  /** `IPv4Parser::ipToString` as written: the most significant byte first. */
  function DottedHighFirst(ip: u32): string
  {
    Decimal(ByteOf(ip, 3)) + "." + Decimal(ByteOf(ip, 2)) + "."
      + Decimal(ByteOf(ip, 1)) + "." + Decimal(ByteOf(ip, 0))
  }

  /** As written, an address copied raw from the frame prints its four
      bytes in reverse wire order. */
  lemma DottedHighFirstReversed(d: seq<byte>, i: nat)
    requires i + 4 <= |d|
    ensures DottedHighFirst(LE32(d, i)) == Decimal(d[i + 3]) + "." + Decimal(d[i + 2]) + "."
                                           + Decimal(d[i + 1]) + "." + Decimal(d[i])
  {
    LE32Bytes(d, i);
  }

  /** A source address 10.0.0.1 on the wire is shown in the tree as the
      address 1.0.0.10, its bytes reversed. */
  lemma DottedHighFirstReversesWire()
    ensures DottedHighFirst(LE32([10, 0, 0, 1], 0)) == Dotted(LE32([1, 0, 0, 10], 0))
  {
    DottedHighFirstReversed([10, 0, 0, 1], 0);
    DottedWireOrder([1, 0, 0, 10], 0);
  }

  /** The tree text then differs from the wire-order text the filter and the
      statistics show. */
  lemma DottedHighFirstDiffers()
    ensures DottedHighFirst(LE32([10, 0, 0, 1], 0)) != Dotted(LE32([10, 0, 0, 1], 0))
  {
    var d: seq<byte> := [10, 0, 0, 1];
    DottedHighFirstReversed(d, 0);
    DottedWireOrder(d, 0);
    assert Decimal(1) == "1";
    assert Decimal(10) == Decimal(1) + [DigitChar(0)];
    assert DottedHighFirst(LE32(d, 0))[1] == '.';
    assert Dotted(LE32(d, 0))[1] == '0';
  }

  /** `protocolToString`. */
  function ProtocolName(p: byte): (s: string)
    ensures p !in {1, 2, 6, 17, 89, 132} ==> s == Decimal(p)
  {
    match p
    case 1 => "ICMP"
    case 2 => "IGMP"
    case 6 => "TCP"
    case 17 => "UDP"
    case 89 => "OSPF"
    case 132 => "SCTP"
    case _ => Decimal(p)
  }

  /** The flags field: the top 3 bits of the flags/fragment word. */
  function Flags(ffo: u16): nat { ffo / 0x2000 }

  /** The fragment offset: the low 13 bits. */
  function FragmentOffset(ffo: u16): nat { ffo % 0x2000 }

  lemma FlagsFragmentSplit(ffo: u16)
    ensures Flags(ffo) < 8 && FragmentOffset(ffo) < 0x2000
    ensures Flags(ffo) * 0x2000 + FragmentOffset(ffo) == ffo
  {
  }

  predicate BitSet(v: u16, mask: nat)
    requires mask > 0
  {
    (v / mask) % 2 == 1
  }

  /** `flagsToString` with the three bits it tests as parameters: a
      comma-separated list of the names of the bits set, or "0". */
  function FlagsLabel(ffo: u16, reserved: nat, df: nat, mf: nat): (s: string)
    requires reserved > 0 && df > 0 && mf > 0
    ensures s == "0" <==> !BitSet(ffo, reserved) && !BitSet(ffo, df) && !BitSet(ffo, mf)
  {
    var s := (if BitSet(ffo, reserved) then "Reserved, " else "")
           + (if BitSet(ffo, df) then "Don't Fragment, " else "")
           + (if BitSet(ffo, mf) then "More Fragments, " else "");
    if s == "" then "0"
    else
      assert |s| >= 10 && s[|s| - 2..] == ", ";
      assert s[..|s| - 2] != "0" by {
        if BitSet(ffo, reserved) { assert s[0] == 'R'; }
        else if BitSet(ffo, df) { assert s[0] == 'D'; }
        else { assert s[0] == 'M'; }
      }
      s[..|s| - 2]
  }

  /** `flagsToString` as written: it tests 0x4000, 0x2000 and 0x1000. */
  function FlagsTextAsWritten(ffo: u16): string
  {
    FlagsLabel(ffo, 0x4000, 0x2000, 0x1000)
  }

  /** The three flag bits of section 3.1 of RFC 791: reserved (0x8000),
      Don't Fragment (0x4000), More Fragments (0x2000). */
  function FlagsText(ffo: u16): string
  {
    FlagsLabel(ffo, 0x8000, 0x4000, 0x2000)
  }

  /** As written, a Don't Fragment header is labelled "Reserved", and a
      fragment offset with its top bit set and no flag at all is labelled
      "More Fragments". */
  lemma FlagsTextAsWrittenMislabels()
    ensures FlagsTextAsWritten(0x4000) == "Reserved"
    ensures Flags(0x1000) == 0 && FlagsTextAsWritten(0x1000) == "More Fragments"
  {
    assert ("Reserved, ")[..8] == "Reserved";
    assert ("More Fragments, ")[..14] == "More Fragments";
  }

  /** The corrected label depends on the three flag bits only, and names
      Don't Fragment for 0x4000. */
  lemma FlagsTextReadsFlagBits(a: u16, b: u16)
    ensures Flags(a) == Flags(b) ==> FlagsText(a) == FlagsText(b)
    ensures FlagsText(a) == "0" <==> Flags(a) == 0
    ensures FlagsText(0x4000) == "Don't Fragment"
  {
    assert a / 0x4000 == Flags(a) / 2 && a / 0x8000 == Flags(a) / 4;
    assert b / 0x4000 == Flags(b) / 2 && b / 0x8000 == Flags(b) / 4;
    assert ("Don't Fragment, ")[..14] == "Don't Fragment";
  }
}
