/** The conversation manager: a table of flows keyed by a direction-free
    stream key, used to confirm QUIC short-header packets only on flows
    where a long-header packet was seen first. */
module Conversation {
  import opened Wrappers
  import opened Bytes
  import opened PacketData

  /** The 16-byte address field of a stream key (`std::array<uint8_t, 16>`). */
  type Address = s: seq<byte> | |s| == 16 witness [0, 0, 0, 0, 0, 0, 0, 0, 0, 0, 0, 0, 0, 0, 0, 0]

  const ZeroAddress: Address := [0, 0, 0, 0, 0, 0, 0, 0, 0, 0, 0, 0, 0, 0, 0, 0]

  /** `StreamID`. */
  datatype StreamId = StreamId(ip1: Address, ip2: Address, port1: u16, port2: u16, protocol: byte, isIpv6: bool)

  /** The value-initialised key: protocol 0 means "no stream". */
  const NoStream := StreamId(ZeroAddress, ZeroAddress, 0, 0, 0, false)

  /** `StreamID::operator==`: field by field. */
  predicate SameStream(a: StreamId, b: StreamId)
  {
    a.ip1 == b.ip1 && a.ip2 == b.ip2 && a.port1 == b.port1 && a.port2 == b.port2
    && a.protocol == b.protocol && a.isIpv6 == b.isIpv6
  }

  /** The field-by-field comparison is exactly key identity, so the table
      never holds two entries for keys the source calls equal. */
  lemma SameStreamIsIdentity(a: StreamId, b: StreamId)
    ensures SameStream(a, b) <==> a == b
  {
  }

  /** `std::array`'s `operator<`: lexicographic order on equal-length byte strings. */
  predicate Below(a: seq<byte>, b: seq<byte>)
    requires |a| == |b|
    decreases |a|
  {
    |a| > 0 && (a[0] < b[0] || (a[0] == b[0] && Below(a[1..], b[1..])))
  }

  /** The order is the first-difference order of `std::lexicographical_compare`. */
  lemma {:induction false} BelowAtFirstDifference(a: seq<byte>, b: seq<byte>)
    requires |a| == |b|
    ensures Below(a, b) <==> exists k :: 0 <= k < |a| && a[..k] == b[..k] && a[k] < b[k]
  {
    if |a| > 0 {
      BelowAtFirstDifference(a[1..], b[1..]);
      if Below(a, b) && a[0] == b[0] {
        var k :| 0 <= k < |a| - 1 && a[1..][..k] == b[1..][..k] && a[1..][k] < b[1..][k];
        assert a[..k + 1] == [a[0]] + a[1..][..k];
        assert b[..k + 1] == [b[0]] + b[1..][..k];
        assert a[k + 1] < b[k + 1];
      }
      if exists k :: 0 <= k < |a| && a[..k] == b[..k] && a[k] < b[k] {
        var k :| 0 <= k < |a| && a[..k] == b[..k] && a[k] < b[k];
        if k > 0 {
          assert a[0] == a[..k][0] == b[..k][0] == b[0];
          assert a[1..][..k - 1] == a[..k][1..] == b[..k][1..] == b[1..][..k - 1];
          assert a[1..][k - 1] < b[1..][k - 1];
        }
      }
    }
  }

  lemma {:induction false} BelowIrreflexive(a: seq<byte>)
    ensures !Below(a, a)
  {
    if |a| > 0 {
      BelowIrreflexive(a[1..]);
    }
  }

  lemma {:induction false} BelowAsymmetric(a: seq<byte>, b: seq<byte>)
    requires |a| == |b| && Below(a, b)
    ensures !Below(b, a)
  {
    if a[0] == b[0] {
      BelowAsymmetric(a[1..], b[1..]);
    }
  }

  /** Two different addresses are ordered one way or the other. */
  lemma {:induction false} BelowTotal(a: seq<byte>, b: seq<byte>)
    requires |a| == |b| && a != b
    ensures Below(a, b) || Below(b, a)
  {
    assert |a| > 0;
    if a[0] == b[0] {
      assert a == [a[0]] + a[1..] && b == [b[0]] + b[1..];
      BelowTotal(a[1..], b[1..]);
    }
  }

  /** The key of a flow seen from one side: the lower (address, port) pair
      first, as `getStreamID`'s swap arranges it. */
  function Canonical(ip1: Address, ip2: Address, port1: u16, port2: u16, protocol: byte): (id: StreamId)
    ensures (id.ip1, id.port1, id.ip2, id.port2) == (ip1, port1, ip2, port2)
         || (id.ip1, id.port1, id.ip2, id.port2) == (ip2, port2, ip1, port1)
    ensures !Below(id.ip2, id.ip1) && (id.ip1 == id.ip2 ==> id.port1 <= id.port2)
    ensures id.protocol == protocol && !id.isIpv6
  {
    if Below(ip2, ip1) || (ip1 == ip2 && port1 > port2) then
      if ip1 == ip2 then BelowIrreflexive(ip1); StreamId(ip2, ip1, port2, port1, protocol, false)
      else BelowAsymmetric(ip2, ip1); StreamId(ip2, ip1, port2, port1, protocol, false)
    else StreamId(ip1, ip2, port1, port2, protocol, false)
  }

  /** Both directions of a flow get the same key. */
  lemma CanonicalSymmetric(ip1: Address, ip2: Address, port1: u16, port2: u16, protocol: byte)
    ensures Canonical(ip1, ip2, port1, port2, protocol) == Canonical(ip2, ip1, port2, port1, protocol)
  {
    if ip1 == ip2 {
      BelowIrreflexive(ip1);
    } else {
      BelowTotal(ip1, ip2);
      if Below(ip1, ip2) {
        BelowAsymmetric(ip1, ip2);
      } else {
        BelowAsymmetric(ip2, ip1);
      }
    }
  }

  /** Two observations share a key exactly when they are the same flow in
      the same or in the opposite direction. */
  lemma CanonicalIdentifiesFlow(a1: Address, a2: Address, p1: u16, p2: u16,
                                b1: Address, b2: Address, q1: u16, q2: u16, protocol: byte)
    ensures Canonical(a1, a2, p1, p2, protocol) == Canonical(b1, b2, q1, q2, protocol) <==>
      (a1, p1, a2, p2) == (b1, q1, b2, q2) || (a1, p1, a2, p2) == (b2, q2, b1, q1)
  {
    var ka, kb := Canonical(a1, a2, p1, p2, protocol), Canonical(b1, b2, q1, q2, protocol);
    if (a1, p1, a2, p2) == (b2, q2, b1, q1) {
      CanonicalSymmetric(b1, b2, q1, q2, protocol);
    }
  }

  /** `ipToBytes`: the IPv4 word's four memory bytes, then twelve zeros. */
  function IpBytes(w: u32): (a: Address)
    ensures LE32(a, 0) == w && a[4..] == ZeroAddress[4..]
  {
    LE32OfBytes([], w, ZeroAddress[4..]);
    assert [] + Le32Bytes(w) + ZeroAddress[4..] == Le32Bytes(w) + ZeroAddress[4..];
    Le32Bytes(w) + ZeroAddress[4..]
  }

  /** Different IPv4 addresses give different key addresses. */
  lemma IpBytesInjective(v: u32, w: u32)
    ensures IpBytes(v) == IpBytes(w) <==> v == w
  {
  }

  /** `getStreamID`: a key only for IPv4 packets carrying TCP or UDP, from
      the addresses and the transport ports, in canonical order. */
  function StreamIdOf(l: Layers): (id: StreamId)
    ensures id.protocol != 0 ==> l.isIpv4 && (l.isTcp || l.isUdp)
    ensures !(l.isIpv4 && (l.isTcp || l.isUdp)) ==> id == NoStream
    ensures !id.isIpv6
  {
    if l.isIpv4 && (l.isTcp || l.isUdp) then
      var port1 := if l.isTcp then l.tcp.srcPort else l.udp.srcPort;
      var port2 := if l.isTcp then l.tcp.destPort else l.udp.destPort;
      Canonical(IpBytes(l.ipv4.srcIp), IpBytes(l.ipv4.destIp), port1, port2, l.ipv4.protocol)
    else NoStream
  }

  /** The same packet headers seen travelling the other way. */
  function Reversed(l: Layers): Layers
  {
    l.(ipv4 := l.ipv4.(srcIp := l.ipv4.destIp, destIp := l.ipv4.srcIp),
       tcp := l.tcp.(srcPort := l.tcp.destPort, destPort := l.tcp.srcPort),
       udp := l.udp.(srcPort := l.udp.destPort, destPort := l.udp.srcPort))
  }

  /** A reply belongs to the same stream as the request. */
  lemma ReplySharesStream(l: Layers)
    ensures StreamIdOf(Reversed(l)) == StreamIdOf(l)
  {
    if l.isIpv4 && (l.isTcp || l.isUdp) {
      var port1 := if l.isTcp then l.tcp.srcPort else l.udp.srcPort;
      var port2 := if l.isTcp then l.tcp.destPort else l.udp.destPort;
      CanonicalSymmetric(IpBytes(l.ipv4.srcIp), IpBytes(l.ipv4.destIp), port1, port2, l.ipv4.protocol);
    }
  }

  /** `getStreamID`, with the swap done in place on a local key. */
  method GetStreamId(packet: Packet) returns (id: StreamId)
    ensures id == StreamIdOf(packet.layers)
  {
    id := NoStream;
    var l := packet.layers;
    if l.isIpv4 && (l.isTcp || l.isUdp) {
      id := id.(protocol := l.ipv4.protocol);
      id := id.(ip1 := IpBytes(l.ipv4.srcIp));
      id := id.(ip2 := IpBytes(l.ipv4.destIp));
      if l.isTcp {
        id := id.(port1 := l.tcp.srcPort, port2 := l.tcp.destPort);
      } else {
        id := id.(port1 := l.udp.srcPort, port2 := l.udp.destPort);
      }
      if Below(id.ip2, id.ip1) || (id.ip1 == id.ip2 && id.port1 > id.port2) {
        id := id.(ip1 := id.ip2, ip2 := id.ip1);
        id := id.(port1 := id.port2, port2 := id.port1);
      }
    }
  }

  // ---- hashing ----

  /** Bitwise exclusive or on naturals: `^` on `size_t` values, which stay
      below 2^64 under it. */
  function Xor(a: nat, b: nat): nat
    decreases a + b
  {
    if a == 0 && b == 0 then 0 else 2 * Xor(a / 2, b / 2) + (if a % 2 == b % 2 then 0 else 1)
  }

  lemma XorStep(a: nat, b: nat)
    ensures Xor(a, b) == 2 * Xor(a / 2, b / 2) + (if a % 2 == b % 2 then 0 else 1)
  {
  }

  lemma {:induction false} XorZero(a: nat)
    ensures Xor(a, 0) == a
    decreases a
  {
    if a > 0 {
      XorZero(a / 2);
    }
  }

  lemma {:induction false} XorCommutes(a: nat, b: nat)
    ensures Xor(a, b) == Xor(b, a)
    decreases a + b
  {
    if a + b > 0 {
      XorCommutes(a / 2, b / 2);
    }
  }

  lemma {:induction false} XorAssociates(a: nat, b: nat, c: nat)
    ensures Xor(Xor(a, b), c) == Xor(a, Xor(b, c))
    decreases a + b + c
  {
    if a + b + c > 0 {
      var ab, bc := Xor(a, b), Xor(b, c);
      XorStep(a, b);
      XorStep(b, c);
      XorStep(ab, c);
      XorStep(a, bc);
      assert ab / 2 == Xor(a / 2, b / 2) && bc / 2 == Xor(b / 2, c / 2);
      XorAssociates(a / 2, b / 2, c / 2);
    }
  }

  /** The last two operands of a chain of exclusive ors can trade places. */
  lemma XorExchange(s: nat, p: nat, q: nat)
    ensures Xor(Xor(s, q), p) == Xor(Xor(s, p), q)
  {
    XorAssociates(s, q, p);
    XorCommutes(q, p);
    XorAssociates(s, p, q);
  }

  /** The four 32-bit words of a key address, read in host (little-endian) order. */
  function Word(a: Address, i: nat): nat
    requires i < 4
  {
    LE32(a, 4 * i)
  }

  /** `qHash(std::array<uint8_t, 16>, seed)`: the seed XOR the four words. */
  function AddressHash(a: Address, seed: nat): nat
  {
    Xor(Xor(Xor(Xor(seed, Word(a, 0)), Word(a, 1)), Word(a, 2)), Word(a, 3))
  }

  /** `qHash(StreamID, seed)`; the library's integer hash is the parameter
      intHash, since its definition is not part of this model. */
  function Hash(k: StreamId, seed: nat, intHash: (int, nat) -> nat): nat
  {
    Xor(Xor(Xor(Xor(AddressHash(k.ip1, seed), AddressHash(k.ip2, seed)),
      intHash(k.port1, seed)), intHash(k.port2, seed)), intHash(k.protocol, seed))
  }

  /** An IPv4 key address hashes to the seed XOR the address word. */
  lemma AddressHashOfIpv4(w: u32, seed: nat)
    ensures AddressHash(IpBytes(w), seed) == Xor(seed, w)
  {
    var a := IpBytes(w);
    assert forall j :: 4 <= j < 16 ==> a[j] == a[4..][j - 4] == 0;
    assert Word(a, 1) == 0 && Word(a, 2) == 0 && Word(a, 3) == 0;
    XorZero(Xor(seed, w));
  }

  /** The hash is blind to the direction the key's endpoints are listed in
      and to the address-family flag, so keys the table keeps apart can
      collide; the table's key equality keeps them apart. */
  lemma HashIgnoresOrderAndFamily(k: StreamId, seed: nat, intHash: (int, nat) -> nat, b: bool)
    ensures Hash(k.(ip1 := k.ip2, ip2 := k.ip1, port1 := k.port2, port2 := k.port1), seed, intHash)
         == Hash(k, seed, intHash)
    ensures Hash(k.(isIpv6 := b), seed, intHash) == Hash(k, seed, intHash)
  {
    var x, y := AddressHash(k.ip1, seed), AddressHash(k.ip2, seed);
    XorCommutes(x, y);
    XorExchange(Xor(x, y), intHash(k.port1, seed), intHash(k.port2, seed));
  }

  // ---- per-flow state ----

  /** `StreamState::TcpState`. */
  datatype TcpState = TcpNone | SynSent | SynRcvd | Established | FinWait | Closed

  /** `StreamState`; a default `QDateTime` is the null time, None here. */
  datatype StreamState = StreamState(
    streamIndex: nat, packetCount: nat, startTime: Option<int>, lastActivity: Option<int>,
    isQuicConfirmed: bool, tcpState: TcpState, sawSyn: bool, sawSynAck: bool)

  /** A value-initialised `StreamState`, as `operator[]` inserts it. */
  const FreshState := StreamState(0, 0, None, None, false, TcpNone, false, false)

  /** The state the table holds for id, or the one a lookup would insert. */
  function Lookup(streams: map<StreamId, StreamState>, id: StreamId): StreamState
  {
    if id in streams then streams[id] else FreshState
  }

  /** The table and the packet's application fields after one packet. */
  datatype Outcome = Outcome(streams: map<StreamId, StreamState>, app: ApplicationLayer)

  const QuicLabel := "QUIC"
  const ShortHeaderInfo := "Protected Payload (Short)"

  /** `processPacket` once the packet's key id is known. */
  function TrackKey(streams: map<StreamId, StreamState>, id: StreamId, app: ApplicationLayer): (o: Outcome)
    ensures app.quicType == NotQuic || id.protocol == 0 ==> o == Outcome(streams, app)
    ensures o.streams.Keys == streams.Keys || o.streams.Keys == streams.Keys + {id}
    ensures forall k :: k in streams && k != id ==> k in o.streams && o.streams[k] == streams[k]
    ensures o.app == app || o.app == app.(protocol := QuicLabel) || o.app == app.(protocol := QuicLabel, info := ShortHeaderInfo)
  {
    if app.quicType == NotQuic || id.protocol == 0 then Outcome(streams, app)
    else
      var state := Lookup(streams, id);
      match app.quicType
      case LongHeader => Outcome(streams[id := state.(isQuicConfirmed := true)], app.(protocol := QuicLabel))
      case ShortHeader =>
        if state.isQuicConfirmed then Outcome(streams[id := state], app.(protocol := QuicLabel, info := ShortHeaderInfo))
        else Outcome(streams[id := state], app)
  }

  /** `processPacket` on the table streams and a packet's layers and
      application fields. */
  function Track(streams: map<StreamId, StreamState>, l: Layers, app: ApplicationLayer): Outcome
  {
    TrackKey(streams, StreamIdOf(l), app)
  }

  /** A long-header packet on a stream marks the stream and is labelled QUIC,
      its summary left as it was. */
  lemma LongHeaderMarksStream(streams: map<StreamId, StreamState>, l: Layers, app: ApplicationLayer)
    requires app.quicType == LongHeader && StreamIdOf(l).protocol != 0
    ensures var o := Track(streams, l, app);
      StreamIdOf(l) in o.streams && o.streams[StreamIdOf(l)].isQuicConfirmed
      && o.app.protocol == QuicLabel && o.app.info == app.info
  {
  }

  /** A short-header packet is relabelled exactly when its stream was
      marked; either way the stream now has an entry. */
  lemma ShortHeaderNeedsMark(streams: map<StreamId, StreamState>, l: Layers, app: ApplicationLayer)
    requires app.quicType == ShortHeader && StreamIdOf(l).protocol != 0
    ensures var o := Track(streams, l, app);
      StreamIdOf(l) in o.streams && o.streams[StreamIdOf(l)] == Lookup(streams, StreamIdOf(l))
      && (Lookup(streams, StreamIdOf(l)).isQuicConfirmed ==>
            o.app.protocol == QuicLabel && o.app.info == ShortHeaderInfo
            && o.app.(protocol := app.protocol, info := app.info) == app)
      && (!Lookup(streams, StreamIdOf(l)).isQuicConfirmed ==> o.app == app)
  {
  }

  /** Marks are never lost and entries never removed. */
  lemma MarksPersist(streams: map<StreamId, StreamState>, l: Layers, app: ApplicationLayer, id: StreamId)
    requires id in streams
    ensures var o := Track(streams, l, app);
      id in o.streams && (streams[id].isQuicConfirmed ==> o.streams[id].isQuicConfirmed)
  {
  }

  /** After a long-header packet, a short-header reply on the same flow is
      confirmed as QUIC, whichever direction it travels. */
  lemma ReplyConfirmed(streams: map<StreamId, StreamState>, l: Layers, app: ApplicationLayer, reply: ApplicationLayer)
    requires app.quicType == LongHeader && reply.quicType == ShortHeader && StreamIdOf(l).protocol != 0
    ensures var first := Track(streams, l, app);
      var second := Track(first.streams, Reversed(l), reply);
      second.app == reply.(protocol := QuicLabel, info := ShortHeaderInfo)
  {
    ReplySharesStream(l);
  }

  /** The conversation manager: the flow table and the (never advanced)
      global stream counter. */
  class ConversationManager {
    var streams: map<StreamId, StreamState>
    var globalStreamCounter: nat

    constructor ()
      ensures streams == map[] && globalStreamCounter == 0
    {
      streams := map[];
      globalStreamCounter := 0;
    }

    /** `clear()`: forget every flow. */
    method Clear()
      modifies this
      ensures streams == map[] && globalStreamCounter == old(globalStreamCounter)
    {
      streams := map[];
    }

    /** The table half of `processPacket` for a packet whose key is id:
        create the entry, record a long header, and compute the relabelled
        application fields. */
    method Record(id: StreamId, app0: ApplicationLayer) returns (app: ApplicationLayer)
      requires app0.quicType != NotQuic && id.protocol != 0
      modifies this
      ensures var o := TrackKey(old(streams), id, app0);
        streams == o.streams && app == o.app
      ensures globalStreamCounter == old(globalStreamCounter)
    {
      app := app0;
      var state := if id in streams then streams[id] else FreshState;
      streams := streams[id := state];
      if app.quicType == LongHeader {
        state := state.(isQuicConfirmed := true);
        streams := streams[id := state];
        app := app.(protocol := QuicLabel);
      } else if app.quicType == ShortHeader {
        if state.isQuicConfirmed {
          app := app.(protocol := QuicLabel);
          app := app.(info := ShortHeaderInfo);
        }
      }
    }

    /** `processPacket`: only QUIC packets on a transport flow are looked
        at; their stream is looked up (creating its entry) and their
        application fields relabelled. */
    method ProcessPacket(packet: Packet)
      modifies this, packet
      ensures var o := Track(old(streams), old(packet.layers), old(packet.app));
        streams == o.streams && packet.app == o.app
      ensures globalStreamCounter == old(globalStreamCounter)
      ensures packet.Snapshot() == old(packet.Snapshot()).(app := packet.app)
    {
      if packet.app.quicType != NotQuic {
        var id := GetStreamId(packet);
        if id.protocol != 0 {
          var app := Record(id, packet.app);
          packet.app := app;
        }
      }
    }
  }
}
