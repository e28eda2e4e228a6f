/** The IPv6 fixed-header decoder and its walk over the extension-header
    chain (sections 3 and 4 of RFC 8200).  The decoder stops at the first
    header that is not Hop-by-Hop Options, Routing, Fragment or Destination
    Options, and reports that one as the upper-layer protocol. */
module IPv6 {
  import opened Bytes
  import opened PacketData

  const FixedHeaderLength: nat := 40

  const HopByHop: byte := 0
  const Routing: byte := 43
  const Fragment: byte := 44
  const DestinationOptions: byte := 60

  /** The header types the walk skips. */
  const ExtensionHeaders: set<byte> := {HopByHop, Routing, Fragment, DestinationOptions}

  /** The outcome of the walk: whether it ended cleanly, how many bytes of
      extension headers it skipped and the header type it stopped at. */
  datatype WalkResult = WalkResult(ok: bool, skipped: nat, last: byte)

  /** The length of the extension header of type nh at the head of u: a
      Fragment header is 8 bytes, the others carry their length in 8-byte
      units, not counting the first 8. */
  function ExtLength(u: seq<byte>, nh: byte): (n: nat)
    requires |u| >= 2
    ensures n >= 8 && n % 8 == 0
  {
    if nh == Fragment then 8 else (u[1] as int + 1) * 8
  }

  /** The extension-header walk over the unread bytes u with current type nh. */
  function Walk(u: seq<byte>, nh: byte): (r: WalkResult)
    ensures r.skipped <= |u| && r.skipped % 8 == 0
    ensures r.ok ==> r.last !in ExtensionHeaders
    ensures nh !in ExtensionHeaders ==> r == WalkResult(true, 0, nh)
    decreases |u|
  {
    if nh !in ExtensionHeaders then WalkResult(true, 0, nh)
    else if |u| < 8 then WalkResult(false, 0, nh)
    else
      var n := ExtLength(u, nh);
      if |u| < n then WalkResult(false, 0, u[0])
      else
        var w := Walk(u[n..], u[0]);
        w.(skipped := n + w.skipped)
  }

  datatype IPv6Result = IPv6Result(ok: bool, header: IPv6Header, consumed: nat)

  function Version(verTcFlow: u32): nat { verTcFlow / 0x1000_0000 }
  function TrafficClass(verTcFlow: u32): nat { (verTcFlow / 0x10_0000) % 0x100 }
  function FlowLabel(verTcFlow: u32): nat { verTcFlow % 0x10_0000 }

  /** The first word splits into the 4-bit version, the 8-bit traffic class
      and the 20-bit flow label, and recomposes from them. */
  lemma FirstWordSplit(w: u32)
    ensures Version(w) < 16 && TrafficClass(w) < 0x100 && FlowLabel(w) < 0x10_0000
    ensures Version(w) * 0x1000_0000 + TrafficClass(w) * 0x10_0000 + FlowLabel(w) == w
  {
    assert w / 0x10_0000 == (w / 0x1000_0000) * 0x100 + (w / 0x10_0000) % 0x100;
  }

  /** The fixed header's fields, read before the version is checked. */
  function FixedFields(d: seq<byte>, prior: IPv6Header): IPv6Header
    requires |d| >= FixedHeaderLength
  {
    prior.(verTcFlow := BE32(d, 0), payloadLength := BE16(d, 4), nextHeader := d[6],
           hopLimit := d[7], srcIp := d[8..24], destIp := d[24..40])
  }

  /** `IPv6Parser::parse` as a function of the bytes and the prior header.
      `consumed` is how far the caller's cursor has been advanced. */
  function Decode(d: seq<byte>, prior: IPv6Header): (r: IPv6Result)
    ensures r.ok <==> |d| >= FixedHeaderLength && Version(BE32(d, 0)) == 6 && Walk(d[FixedHeaderLength..], d[6]).ok
    ensures |d| < FixedHeaderLength ==> r == IPv6Result(false, prior, 0)
    ensures |d| >= FixedHeaderLength ==>
      r.header.verTcFlow == BE32(d, 0) && r.header.payloadLength == BE16(d, 4)
      && r.header.hopLimit == d[7] && r.header.srcIp == d[8..24] && r.header.destIp == d[24..40]
    ensures |d| >= FixedHeaderLength && !r.ok ==> r.header.nextHeader == d[6]
    ensures r.ok ==> r.header.nextHeader !in ExtensionHeaders
    ensures r.ok ==> FixedHeaderLength <= r.consumed <= |d| && (r.consumed - FixedHeaderLength) % 8 == 0
    ensures r.ok && d[6] !in ExtensionHeaders ==> r.consumed == FixedHeaderLength && r.header.nextHeader == d[6]
  {
    if |d| < FixedHeaderLength then IPv6Result(false, prior, 0)
    else
      var h := FixedFields(d, prior);
      if Version(h.verTcFlow) != 6 then IPv6Result(false, h, 0)
      else
        var w := Walk(d[FixedHeaderLength..], h.nextHeader);
        if !w.ok then IPv6Result(false, h, FixedHeaderLength + w.skipped)
        else IPv6Result(true, h.(nextHeader := w.last), FixedHeaderLength + w.skipped)
  }

  /** `IPv6Parser::parse`: the fixed header, then a loop over the extension
      headers that advances the caller's cursor past each one. */
  method Parse(d: seq<byte>, prior: IPv6Header) returns (ok: bool, ipv6: IPv6Header, consumed: nat)
    ensures IPv6Result(ok, ipv6, consumed) == Decode(d, prior)
  {
    ipv6 := prior;
    consumed := 0;
    if |d| < 40 {
      return false, ipv6, consumed;
    }
    ipv6 := FixedFields(d, ipv6);
    if (ipv6.verTcFlow / 0x1000_0000) % 0x10 != 6 {
      return false, ipv6, consumed;
    }
    ghost var whole := Walk(d[40..], ipv6.nextHeader);
    var data := d[40..];
    consumed := 40;
    var current := ipv6.nextHeader;
    var parsing := true;
    while parsing
      invariant consumed == 40 + (|d| - 40 - |data|) <= |d|
      invariant parsing ==> var w := Walk(data, current);
        whole == WalkResult(w.ok, consumed - 40 + w.skipped, w.last)
      invariant !parsing ==> whole == WalkResult(true, consumed - 40, current)
      decreases |data|, parsing
    {
      if current == 0 || current == 43 || current == 60 {
        if |data| < 8 {
          return false, ipv6, consumed;
        }
        current := data[0];
        var extLen := (data[1] as int + 1) * 8;
        if |data| < extLen {
          return false, ipv6, consumed;
        }
        data := data[extLen..];
        consumed := consumed + extLen;
      } else if current == 44 {
        if |data| < 8 {
          return false, ipv6, consumed;
        }
        current := data[0];
        data := data[8..];
        consumed := consumed + 8;
      } else {
        parsing := false;
      }
    }
    ipv6 := ipv6.(nextHeader := current);
    return true, ipv6, consumed;
  }

  // ---------------------------------------------------------------- chains

  /** One extension header as a sender lays it out: its type, its length
      field and the bytes after the first two. */
  datatype Ext = Ext(kind: byte, lenField: byte, body: seq<byte>)

  predicate ValidExt(e: Ext)
  {
    e.kind in ExtensionHeaders
    && |e.body| == (if e.kind == Fragment then 8 else (e.lenField as int + 1) * 8) - 2
  }

  /** The type field that introduces the first header of a chain. */
  function FirstType(exts: seq<Ext>, last: byte): byte
  {
    if exts == [] then last else exts[0].kind
  }

  /** A chain of extension headers on the wire, each header's first byte
      naming the type of the next, the last one naming the upper layer. */
  function EncodeChain(exts: seq<Ext>, last: byte): (s: seq<byte>)
    requires forall i :: 0 <= i < |exts| ==> ValidExt(exts[i])
    ensures |s| % 8 == 0
  {
    if exts == [] then []
    else
      assert ValidExt(exts[0]);
      var head := [FirstType(exts[1..], last), exts[0].lenField] + exts[0].body;
      assert |head| == if exts[0].kind == Fragment then 8 else (exts[0].lenField as int + 1) * 8;
      head + EncodeChain(exts[1..], last)
  }

  /** One well-formed extension header at the head of the unread bytes is
      skipped whole, and the walk goes on with the type it names. */
  lemma WalkHead(e: Ext, next: byte, tail: seq<byte>)
    requires ValidExt(e)
    ensures var w := Walk(tail, next);
      Walk([next, e.lenField] + e.body + tail, e.kind) == WalkResult(w.ok, 2 + |e.body| + w.skipped, w.last)
  {
    var u := [next, e.lenField] + e.body + tail;
    assert u[0] == next && u[1] == e.lenField;
    assert u[2 + |e.body|..] == tail;
  }

  /** The walk skips exactly a well-formed chain and stops at its upper layer. */
  lemma {:induction false} WalkChain(exts: seq<Ext>, last: byte, rest: seq<byte>)
    requires forall i :: 0 <= i < |exts| ==> ValidExt(exts[i])
    requires last !in ExtensionHeaders
    ensures Walk(EncodeChain(exts, last) + rest, FirstType(exts, last))
         == WalkResult(true, |EncodeChain(exts, last)|, last)
    decreases |exts|
  {
    if exts != [] {
      var e := exts[0];
      assert ValidExt(e);
      var next := FirstType(exts[1..], last);
      var tail := EncodeChain(exts[1..], last);
      assert EncodeChain(exts, last) + rest == [next, e.lenField] + e.body + (tail + rest);
      WalkHead(e, next, tail + rest);
      WalkChain(exts[1..], last, rest);
    }
  }

  /** So a packet built from a fixed header and a chain decodes to the
      chain's upper-layer type, with the cursor right behind the chain. */
  lemma DecodeChain(fixed: seq<byte>, exts: seq<Ext>, last: byte, payload: seq<byte>, prior: IPv6Header)
    requires |fixed| == FixedHeaderLength && Version(BE32(fixed, 0)) == 6
    requires fixed[6] == FirstType(exts, last)
    requires forall i :: 0 <= i < |exts| ==> ValidExt(exts[i])
    requires last !in ExtensionHeaders
    ensures var r := Decode(fixed + EncodeChain(exts, last) + payload, prior);
      r.ok && r.header.nextHeader == last && r.consumed == FixedHeaderLength + |EncodeChain(exts, last)|
  {
    var d := fixed + EncodeChain(exts, last) + payload;
    assert d[..40] == fixed;
    assert BE32(d, 0) == BE32(fixed, 0);
    assert d[40..] == EncodeChain(exts, last) + payload;
    WalkChain(exts, last, payload);
  }
}
