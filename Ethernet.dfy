/** The Ethernet II decoder with its single-tag 802.1Q look-ahead, and the
    Ethernet display helpers.  The tag control information is split as in
    clause 9.6 of IEEE 802.1Q: 3 bits of priority, 1 drop-eligible bit and a
    12-bit VLAN identifier. */
module Ethernet {
  import opened Bytes
  import opened Text
  import opened PacketData

  const HeaderLength: nat := 14
  const TagType: u16 := 0x8100

  /** The three out-parameters of `EthernetParser::parse` and its verdict. */
  datatype EthResult = EthResult(ok: bool, eth: EthernetHeader, hasVlan: bool, vlan: VlanHeader)

  /** The decoder as a function of the frame and the prior contents of the
      out-parameters. */
  function Decode(d: seq<byte>, eth: EthernetHeader, hasVlan: bool, vlan: VlanHeader): (r: EthResult)
    ensures r.ok <==> |d| >= HeaderLength
    ensures !r.ok ==> r == EthResult(false, eth, hasVlan, vlan)
    ensures r.ok ==> (r.hasVlan <==> BE16(d, 12) == TagType && |d| >= HeaderLength + 4)
    ensures r.ok && !r.hasVlan ==> r.vlan == vlan && r.eth.vlanTpid == eth.vlanTpid && r.eth.vlanTci == eth.vlanTci
    ensures r.ok && r.hasVlan ==>
      r.eth.etherType == r.vlan.etherType && r.eth.vlanTpid == r.vlan.tpid == TagType && r.eth.vlanTci == r.vlan.tci
  {
    if |d| < HeaderLength then EthResult(false, eth, hasVlan, vlan)
    else
      var e := eth.(destMac := d[0..6], srcMac := d[6..12], etherType := BE16(d, 12));
      if e.etherType == TagType && |d| - HeaderLength >= 4 then
        var v := vlan.(tpid := e.etherType, tci := BE16(d, 14), etherType := BE16(d, 16));
        EthResult(true, e.(vlanTpid := v.tpid, vlanTci := v.tci, etherType := v.etherType), true, v)
      else
        EthResult(true, e, false, vlan)
  }

  /** `EthernetParser::parse`: copy the addresses, read the type, and look
      for one 802.1Q tag right behind the header. */
  method Parse(d: seq<byte>, eth0: EthernetHeader, hasVlan0: bool, vlan0: VlanHeader)
    returns (ok: bool, eth: EthernetHeader, hasVlan: bool, vlan: VlanHeader)
    ensures EthResult(ok, eth, hasVlan, vlan) == Decode(d, eth0, hasVlan0, vlan0)
  {
    eth, hasVlan, vlan := eth0, hasVlan0, vlan0;
    if |d| < HeaderLength {
      return false, eth, hasVlan, vlan;
    }
    eth := eth.(destMac := d[0..6]);
    eth := eth.(srcMac := d[6..12]);
    eth := eth.(etherType := BE16(d, 12));
    var payloadLen := |d| - HeaderLength;
    hasVlan := false;
    if eth.etherType == TagType && payloadLen >= 4 {
      hasVlan := true;
      vlan := vlan.(tpid := eth.etherType);
      vlan := vlan.(tci := BE16(d, 14));
      vlan := vlan.(etherType := BE16(d, 16));
      eth := eth.(vlanTpid := vlan.tpid, vlanTci := vlan.tci);
      eth := eth.(etherType := vlan.etherType);
      return true, eth, hasVlan, vlan;
    }
    return true, eth, hasVlan, vlan;
  }

  /** An Ethernet II frame on the wire. */
  function Frame(dest: Mac, src: Mac, etherType: u16, payload: seq<byte>): (f: seq<byte>)
    ensures |f| == HeaderLength + |payload|
  {
    dest + src + Be16Bytes(etherType) + payload
  }

  /** Decoding a frame gives back its addresses and type; a frame whose type
      is 0x8100 and that carries a full tag reports the tag instead. */
  lemma DecodeFrame(dest: Mac, src: Mac, etherType: u16, payload: seq<byte>,
                    eth: EthernetHeader, hasVlan: bool, vlan: VlanHeader)
    ensures var r := Decode(Frame(dest, src, etherType, payload), eth, hasVlan, vlan);
      r.ok && r.eth.destMac == dest && r.eth.srcMac == src
      && (r.hasVlan <==> etherType == TagType && |payload| >= 4)
      && (!r.hasVlan ==> r.eth.etherType == etherType && r.vlan == vlan)
      && (r.hasVlan ==> r.vlan == VlanHeader(TagType, BE16(payload, 0), BE16(payload, 2)))
  {
    var f := Frame(dest, src, etherType, payload);
    assert f == (dest + src) + Be16Bytes(etherType) + payload;
    BE16OfBytes(dest + src, etherType, payload);
    assert f[0..6] == dest && f[6..12] == src;
    if etherType == TagType && |payload| >= 4 {
      assert f[14..] == payload;
      assert BE16(f, 14) == BE16(payload, 0);
      assert BE16(f, 16) == BE16(payload, 2);
    }
  }

  /** A tagged frame: the tag's TCI and the inner EtherType come back. */
  lemma DecodeTaggedFrame(dest: Mac, src: Mac, tci: u16, inner: u16, rest: seq<byte>,
                          eth: EthernetHeader, hasVlan: bool, vlan: VlanHeader)
    ensures var r := Decode(Frame(dest, src, TagType, Be16Bytes(tci) + Be16Bytes(inner) + rest), eth, hasVlan, vlan);
      r.ok && r.hasVlan && r.vlan == VlanHeader(TagType, tci, inner) && r.eth.etherType == inner
  {
    var payload := Be16Bytes(tci) + Be16Bytes(inner) + rest;
    DecodeFrame(dest, src, TagType, payload, eth, hasVlan, vlan);
    BE16OfBytes([], tci, Be16Bytes(inner) + rest);
    assert [] + Be16Bytes(tci) + (Be16Bytes(inner) + rest) == payload;
    BE16OfBytes(Be16Bytes(tci), inner, rest);
  }

  // ---------------------------------------------------------------- TCI fields

  /** Priority code point: `(tci >> 13) & 7`. */
  function Pcp(tci: u16): nat { (tci / 0x2000) % 8 }

  /** Drop eligible indicator: `(tci >> 12) & 1`. */
  function Dei(tci: u16): nat { (tci / 0x1000) % 2 }

  /** VLAN identifier: `tci & 0xFFF`. */
  function Vid(tci: u16): nat { tci % 0x1000 }

  /** The three fields fit their widths and recompose exactly to the TCI. */
  lemma TciSplit(tci: u16)
    ensures Pcp(tci) < 8 && Dei(tci) < 2 && Vid(tci) < 0x1000
    ensures Pcp(tci) * 0x2000 + Dei(tci) * 0x1000 + Vid(tci) == tci
  {
    assert tci / 0x2000 < 8;
    assert tci / 0x1000 == (tci / 0x2000) * 2 + (tci / 0x1000) % 2;
  }

  /** And any three in-range fields are what a TCI built from them yields. */
  lemma TciCompose(pcp: nat, dei: nat, vid: nat)
    requires pcp < 8 && dei < 2 && vid < 0x1000
    ensures var tci := pcp * 0x2000 + dei * 0x1000 + vid;
      0 <= tci < 0x1_0000 && Pcp(tci) == pcp && Dei(tci) == dei && Vid(tci) == vid
  {
    var tci := pcp * 0x2000 + dei * 0x1000 + vid;
    assert tci == (pcp * 2 + dei) * 0x1000 + vid;
    assert tci / 0x1000 == pcp * 2 + dei;
    assert tci == pcp * 0x2000 + (dei * 0x1000 + vid);
    assert tci / 0x2000 == pcp;
  }

  /** `vlanTciToString`. */
  function TciText(tci: u16): string
  {
    "PCP=" + Decimal(Pcp(tci)) + ", DEI=" + Decimal(Dei(tci)) + ", VID=" + Decimal(Vid(tci))
  }

  // ---------------------------------------------------------------- names

  const KnownEtherTypes: set<u16> := {0x0800, 0x86DD, 0x0806, 0x8100, 0x88A8, 0x9100, 0x8864, 0x8863}

  /** `etherTypeToString`: a name for the listed types, "0x" and four hex
      digits for any other, so the two kinds never collide. */
  function EtherTypeName(t: u16): (s: string)
    ensures t !in KnownEtherTypes ==> |s| == 6 && StartsWith(s, "0x")
    ensures t in KnownEtherTypes ==> 'x' !in s
  {
    match t
    case 0x0800 => "IPv4"
    case 0x86DD => "IPv6"
    case 0x0806 => "ARP"
    case 0x8100 => "VLAN (802.1Q)"
    case 0x88A8 => "802.1ad (Q-in-Q)"
    case 0x9100 => "Legacy VLAN"
    case 0x8864 => "PPPoE Session"
    case 0x8863 => "PPPoE Discovery"
    case _ => Hex4(t)
  }

  // ---------------------------------------------------------------- MAC text

  /** The first n groups of `macToString`: each byte as two hex digits,
      followed by ':' for all but the sixth. */
  function MacPrefix(mac: Mac, n: nat): (s: string)
    requires n <= 6
    ensures |s| == 3 * n - (if n == 6 then 1 else 0)
  {
    if n == 0 then ""
    else MacPrefix(mac, n - 1) + Hex2(mac[n - 1]) + (if n - 1 < 5 then ":" else "")
  }

  /** `macToString`, written as its loop over the six bytes. */
  method MacToString(mac: Mac) returns (s: string)
    ensures s == MacPrefix(mac, 6)
    ensures |s| == 17
  {
    s := "";
    var i := 0;
    while i < 6
      invariant 0 <= i <= 6
      invariant s == MacPrefix(mac, i)
    {
      s := s + Hex2(mac[i]);
      if i < 5 {
        s := s + ":";
      }
      i := i + 1;
    }
  }

  /** The text is six two-digit groups at offsets 0, 3, …, 15 separated by ':'. */
  lemma {:induction false} MacPrefixLayout(mac: Mac, n: nat, k: nat)
    requires k < n <= 6
    ensures MacPrefix(mac, n)[3 * k..3 * k + 2] == Hex2(mac[k])
    ensures k < 5 ==> MacPrefix(mac, n)[3 * k + 2] == ':'
  {
    var p := MacPrefix(mac, n - 1);
    assert MacPrefix(mac, n) == p + Hex2(mac[n - 1]) + (if n - 1 < 5 then ":" else "");
    if k < n - 1 {
      MacPrefixLayout(mac, n - 1, k);
      assert MacPrefix(mac, n)[3 * k..3 * k + 2] == p[3 * k..3 * k + 2];
      if k < 5 {
        assert MacPrefix(mac, n)[3 * k + 2] == p[3 * k + 2];
      }
    } else {
      assert |p| == 3 * k;
    }
  }

  /** Different addresses print differently. */
  lemma MacTextInjective(a: Mac, b: Mac)
    requires MacPrefix(a, 6) == MacPrefix(b, 6)
    ensures a == b
  {
    forall k | 0 <= k < 6
      ensures a[k] == b[k]
    {
      MacPrefixLayout(a, 6, k);
      MacPrefixLayout(b, 6, k);
      Hex2Facts(a[k], b[k]);
    }
  }
}
