/** The stand-alone 802.1Q / 802.1ad tag decoder and its display helpers. */
module Vlan {
  import opened Bytes
  import opened Text
  import opened PacketData
  import opened Ethernet

  /** The tag protocol identifiers the decoder accepts: 802.1Q, 802.1ad and
      the pre-standard Q-in-Q value. */
  const AcceptedTpids: set<u16> := {0x8100, 0x88A8, 0x9100}

  datatype VlanResult = VlanResult(ok: bool, vlan: VlanHeader, nextEtherType: u16)

  /** `VLANParser::parse` as a function of the bytes and the prior contents
      of its two out-parameters. */
  function Decode(d: seq<byte>, vlan: VlanHeader, next: u16): (r: VlanResult)
    ensures r.ok <==> |d| >= 4 && BE16(d, 0) in AcceptedTpids
    ensures |d| < 4 ==> r == VlanResult(false, vlan, next)
    ensures |d| >= 4 ==> r.vlan.tpid == BE16(d, 0) && r.vlan.tci == BE16(d, 2)
    ensures r.ok && |d| >= 6 ==> r.vlan.etherType == r.nextEtherType == BE16(d, 4)
    ensures r.ok && |d| < 6 ==> r.vlan.etherType == 0 && r.nextEtherType == next
    ensures !r.ok ==> r.vlan.etherType == vlan.etherType && r.nextEtherType == next
  {
    if |d| < 4 then VlanResult(false, vlan, next)
    else
      var v := vlan.(tpid := BE16(d, 0), tci := BE16(d, 2));
      if v.tpid !in AcceptedTpids then VlanResult(false, v, next)
      else if |d| >= 6 then VlanResult(true, v.(etherType := BE16(d, 4)), BE16(d, 4))
      else VlanResult(true, v.(etherType := 0), next)
  }

  method Parse(d: seq<byte>, vlan0: VlanHeader, next0: u16) returns (ok: bool, vlan: VlanHeader, next: u16)
    ensures VlanResult(ok, vlan, next) == Decode(d, vlan0, next0)
  {
    vlan, next := vlan0, next0;
    if |d| < 4 {
      return false, vlan, next;
    }
    vlan := vlan.(tpid := BE16(d, 0));
    vlan := vlan.(tci := BE16(d, 2));
    if vlan.tpid != 0x8100 && vlan.tpid != 0x88A8 && vlan.tpid != 0x9100 {
      return false, vlan, next;
    }
    if |d| >= 6 {
      next := BE16(d, 4);
      vlan := vlan.(etherType := next);
    } else {
      vlan := vlan.(etherType := 0);
    }
    return true, vlan, next;
  }

  /** The bytes of a tag: TPID, TCI and the encapsulated EtherType. */
  function Tag(tpid: u16, tci: u16, inner: u16): (s: seq<byte>)
    ensures |s| == 6
  {
    Be16Bytes(tpid) + Be16Bytes(tci) + Be16Bytes(inner)
  }

  /** Every accepted tag decodes back to its three fields. */
  lemma DecodeTag(tpid: u16, tci: u16, inner: u16, rest: seq<byte>, vlan: VlanHeader, next: u16)
    requires tpid in AcceptedTpids
    ensures Decode(Tag(tpid, tci, inner) + rest, vlan, next)
         == VlanResult(true, VlanHeader(tpid, tci, inner), inner)
  {
    var d := Tag(tpid, tci, inner) + rest;
    BE16OfBytes([], tpid, Be16Bytes(tci) + Be16Bytes(inner) + rest);
    assert [] + Be16Bytes(tpid) + (Be16Bytes(tci) + Be16Bytes(inner) + rest) == d;
    BE16OfBytes(Be16Bytes(tpid), tci, Be16Bytes(inner) + rest);
    assert Be16Bytes(tpid) + Be16Bytes(tci) + (Be16Bytes(inner) + rest) == d;
    BE16OfBytes(Be16Bytes(tpid) + Be16Bytes(tci), inner, rest);
  }

  /** `getPriority`. */
  function PriorityText(tci: u16): string
  {
    Decimal(Pcp(tci))
  }

  /** `getDEI`: one of two labels, "Drop Eligible" exactly when bit 12 of
      the TCI is set, that is when its low 13 bits reach 0x1000. */
  function DeiText(tci: u16): (s: string)
    ensures s == "Drop Eligible" || s == "Not Drop Eligible"
    ensures s == "Drop Eligible" <==> tci % 0x2000 >= 0x1000
  {
    DeiBit(tci);
    if Dei(tci) == 1 then "Drop Eligible" else "Not Drop Eligible"
  }

  /** The DEI field is 1 exactly when bit 12 is set. */
  lemma DeiBit(tci: u16)
    ensures Dei(tci) == 1 <==> tci % 0x2000 >= 0x1000
  {
    var q, r := tci / 0x2000, tci % 0x2000;
    assert tci == q * 0x2000 + r;
    assert tci == (q * 2) * 0x1000 + r;
    assert tci / 0x1000 == q * 2 + r / 0x1000;
    assert r / 0x1000 == (if r >= 0x1000 then 1 else 0);
  }

  /** A tag built from in-range fields is labelled drop eligible exactly
      when its DEI field is 1, whatever its priority and identifier. */
  lemma DeiTextOfFields(pcp: nat, dei: nat, vid: nat)
    requires pcp < 8 && dei < 2 && vid < 0x1000
    ensures DeiText(pcp * 0x2000 + dei * 0x1000 + vid) == "Drop Eligible" <==> dei == 1
  {
    TciCompose(pcp, dei, vid);
  }

  /** `getVID`: the identifier in decimal, with the two reserved values
      labelled; every label starts with the identifier's number. */
  function VidText(tci: u16): (s: string)
    ensures StartsWith(s, Decimal(Vid(tci)))
    ensures Vid(tci) == 0 <==> s == "0 (Priority tag)"
    ensures Vid(tci) == 0xFFF <==> s == "4095 (Reserved)"
  {
    var vid := tci % 0x1000;
    if vid == 0 then
      assert Decimal(0) == "0";
      "0 (Priority tag)"
    else if vid == 0xFFF then
      DecimalOfFourDigits(4095);
      "4095 (Reserved)"
    else
      assert !IsDigit("0 (Priority tag)"[1]) && !IsDigit("4095 (Reserved)"[4]);
      Decimal(vid)
  }

  /** `tciToString`. */
  function TciLabel(tci: u16): string
  {
    "Priority: " + PriorityText(tci) + ", DEI: " + Decimal(Dei(tci)) + ", VID: " + VidText(tci)
  }

  /** `tpidToString`: the accepted identifiers are named, others are unknown. */
  function TpidName(tpid: u16): (s: string)
    ensures s == "Unknown VLAN Tag" <==> tpid !in AcceptedTpids
  {
    match tpid
    case 0x8100 => "802.1Q"
    case 0x88A8 => "802.1ad (Q-in-Q)"
    case 0x9100 => "Legacy VLAN"
    case _ => "Unknown VLAN Tag"
  }

  /** A tag the decoder accepts always has a name. */
  lemma AcceptedTagsNamed(d: seq<byte>, vlan: VlanHeader, next: u16)
    requires Decode(d, vlan, next).ok
    ensures TpidName(Decode(d, vlan, next).vlan.tpid) != "Unknown VLAN Tag"
  {
  }
}
