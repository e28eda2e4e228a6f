/** The TCP header decoder (section 3.1 of RFC 9293) and its walk over the
    option list (section 3.2), which looks for the Timestamps option of
    section 3 of RFC 7323. */
module Tcp {
  import opened Bytes
  import opened Text
  import opened PacketData

  const MinHeaderLength: nat := 20
  const OptEnd: byte := 0
  const OptNop: byte := 1
  const OptTimestamps: byte := 8
  const TimestampsLength: byte := 10

  /** What the option walk records: whether a Timestamps option was seen and
      the last TSval/TSecr pair read. */
  datatype Timestamps = Timestamps(has: bool, val: u32, ecr: u32)

  function TimestampsOf(t: TcpHeader): Timestamps
  {
    Timestamps(t.hasTimestamp, t.tsVal, t.tsEcr)
  }

  /** A well-formed Timestamps option with these values starts at offset q. */
  predicate TimestampAt(o: seq<byte>, q: nat, val: u32, ecr: u32)
  {
    q + 10 <= |o| && o[q] == OptTimestamps && o[q + 1] == TimestampsLength
    && BE32(o, q + 2) == val && BE32(o, q + 6) == ecr
  }

  /** What the walk does with the first option of the unread bytes: stop,
      or skip that many bytes with the state updated. */
  datatype Move = Stop | Skip(len: nat, st: Timestamps)

  /** One step of the walk: End stops it, NOP skips one byte, any other
      option needs a length byte between 2 and what remains, and a truncated
      or ill-sized option stops the walk. */
  function StepAt(u: seq<byte>, st: Timestamps): (m: Move)
    requires |u| > 0
    ensures m.Skip? ==> 0 < m.len <= |u|
  {
    if u[0] == OptEnd then Stop
    else if u[0] == OptNop then Skip(1, st)
    else if |u| < 2 then Stop
    else
      var len := u[1] as nat;
      if len < 2 || len > |u| then Stop
      else if u[0] == OptTimestamps && len == 10 then Skip(len, Timestamps(true, BE32(u, 2), BE32(u, 6)))
      else Skip(len, st)
  }

  /** The option walk over the unread option bytes u with recorded state st. */
  function Options(u: seq<byte>, st: Timestamps): Timestamps
    decreases |u|
  {
    if |u| == 0 then st
    else match StepAt(u, st)
      case Stop => st
      case Skip(len, st') => Options(u[len..], st')
  }

  /** A Timestamps option found q bytes into u+n's suffix sits q+n bytes into u. */
  lemma TimestampShift(u: seq<byte>, n: nat, q: nat, val: u32, ecr: u32)
    requires n <= |u| && TimestampAt(u[n..], q, val, ecr)
    ensures TimestampAt(u, n + q, val, ecr)
  {
    assert forall j :: q <= j < q + 10 ==> u[n..][j] == u[n + j];
  }

  /** The walk reports a timestamp only if there is one: either the state
      comes back untouched, or its values are those of a well-formed
      Timestamps option somewhere in the bytes. */
  lemma {:induction false} OptionsSound(u: seq<byte>, st: Timestamps)
    ensures var r := Options(u, st);
      r == st || (r.has && exists q :: TimestampAt(u, q, r.val, r.ecr))
    decreases |u|
  {
    if |u| > 0 {
      match StepAt(u, st)
      case Stop =>
      case Skip(len, st') =>
        OptionsSound(u[len..], st');
        var r := Options(u, st);
        if r != st' {
          var q :| TimestampAt(u[len..], q, r.val, r.ecr);
          TimestampShift(u, len, q, r.val, r.ecr);
        } else if r != st {
          assert TimestampAt(u, 0, r.val, r.ecr);
        }
    }
  }

  /** The walk from offset p of o, read through the source's index. */
  lemma OptionsAt(o: seq<byte>, p: nat, st: Timestamps)
    requires p < |o|
    ensures StepAt(o[p..], st) ==
      if o[p] == OptEnd then Stop
      else if o[p] == OptNop then Skip(1, st)
      else if |o| - p < 2 then Stop
      else if o[p + 1] < 2 || o[p + 1] as nat > |o| - p then Stop
      else if o[p] == OptTimestamps && o[p + 1] == 10 then Skip(10, Timestamps(true, BE32(o, p + 2), BE32(o, p + 6)))
      else Skip(o[p + 1] as nat, st)
    ensures forall n :: 0 <= n <= |o| - p ==> o[p..][n..] == o[p + n..]
  {
    var u := o[p..];
    assert u[0] == o[p];
    if |u| >= 2 {
      assert u[1] == o[p + 1];
    }
    if |u| >= 10 {
      assert forall j :: 2 <= j < 10 ==> u[j] == o[p + j];
    }
  }

  /** `parseTCPOptions`: clears the timestamp flag, then walks the options
      one at a time, never reading past their end. */
  method ParseOptions(tcp: TcpHeader, o: seq<byte>) returns (t: TcpHeader)
    ensures t == tcp.(hasTimestamp := t.hasTimestamp, tsVal := t.tsVal, tsEcr := t.tsEcr)
    ensures TimestampsOf(t) == Options(o, Timestamps(false, tcp.tsVal, tcp.tsEcr))
  {
    t := tcp.(hasTimestamp := false);
    var p := 0;
    while p < |o|
      invariant p <= |o|
      invariant t == tcp.(hasTimestamp := t.hasTimestamp, tsVal := t.tsVal, tsEcr := t.tsEcr)
      invariant Options(o[p..], TimestampsOf(t)) == Options(o, Timestamps(false, tcp.tsVal, tcp.tsEcr))
      decreases |o| - p
    {
      OptionsAt(o, p, TimestampsOf(t));
      var kind := o[p];
      if kind == OptEnd {
        return;
      }
      if kind == OptNop {
        p := p + 1;
        continue;
      }
      if |o| - p < 2 {
        return;
      }
      var len := o[p + 1] as nat;
      if len < 2 || len > |o| - p {
        return;
      }
      if kind == OptTimestamps && len == 10 {
        t := t.(hasTimestamp := true, tsVal := BE32(o, p + 2), tsEcr := BE32(o, p + 6));
      }
      p := p + len;
    }
  }

  // ---------------------------------------------------------------- option lists

  /** One option as a sender writes it: a NOP, or a kind with its data (the
      length byte is the data's length plus 2). */
  datatype TcpOption = Nop | Opt(kind: byte, data: seq<byte>)

  predicate ValidOption(x: TcpOption)
  {
    x.Nop? || (x.kind != OptEnd && x.kind != OptNop && |x.data| <= 253)
  }

  predicate ValidOptions(xs: seq<TcpOption>)
  {
    forall i :: 0 <= i < |xs| ==> ValidOption(xs[i])
  }

  function EncodeOption(x: TcpOption): (s: seq<byte>)
    requires ValidOption(x)
    ensures |s| == if x.Nop? then 1 else |x.data| + 2
  {
    if x.Nop? then [OptNop] else [x.kind, |x.data| + 2] + x.data
  }

  function EncodeOptions(xs: seq<TcpOption>): seq<byte>
    requires ValidOptions(xs)
  {
    if xs == [] then [] else EncodeOption(xs[0]) + EncodeOptions(xs[1..])
  }

  /** The state after one option: a Timestamps option with 8 bytes of data
      replaces it, every other option leaves it. */
  function Step(x: TcpOption, st: Timestamps): Timestamps
  {
    if x.Opt? && x.kind == OptTimestamps && |x.data| == 8
    then Timestamps(true, BE32(x.data, 0), BE32(x.data, 4))
    else st
  }

  /** The reference reading of an option list: the last Timestamps option wins. */
  function LastTimestamps(xs: seq<TcpOption>, st: Timestamps): Timestamps
  {
    if xs == [] then st else LastTimestamps(xs[1..], Step(xs[0], st))
  }

  /** The values of a Timestamps option at the head of u. */
  lemma TimestampBytes(u: seq<byte>, data: seq<byte>, tail: seq<byte>)
    requires |data| == 8 && u == [OptTimestamps, 10] + data + tail
    ensures BE32(u, 2) == BE32(data, 0) && BE32(u, 6) == BE32(data, 4)
  {
    assert forall j :: 0 <= j < 8 ==> u[2 + j] == data[j];
  }

  /** One well-formed option at the head of the unread bytes moves the walk
      past it and applies its step. */
  lemma OneOption(x: TcpOption, tail: seq<byte>, st: Timestamps)
    requires ValidOption(x)
    ensures Options(EncodeOption(x) + tail, st) == Options(tail, Step(x, st))
  {
    var e := EncodeOption(x);
    var u := e + tail;
    assert u[0] == e[0];
    if x.Opt? {
      assert u[1] == e[1];
      if x.kind == OptTimestamps && |x.data| == 8 {
        TimestampBytes(u, x.data, tail);
      }
    }
    assert u[|e|..] == tail;
  }

  lemma ValidTail(xs: seq<TcpOption>)
    requires xs != [] && ValidOptions(xs)
    ensures ValidOption(xs[0]) && ValidOptions(xs[1..])
  {
    assert forall i :: 0 <= i < |xs[1..]| ==> xs[1..][i] == xs[i + 1];
  }

  /** The walk over a list of well-formed options, followed by nothing or by
      End padding, reads each option exactly once and agrees with the
      reference reading. */
  lemma {:induction false} WalkOptions(xs: seq<TcpOption>, rest: seq<byte>, st: Timestamps)
    requires ValidOptions(xs)
    requires rest == [] || rest[0] == OptEnd
    ensures Options(EncodeOptions(xs) + rest, st) == LastTimestamps(xs, st)
    decreases |xs|
  {
    if xs == [] {
      assert EncodeOptions(xs) + rest == rest;
    } else {
      ValidTail(xs);
      var e := EncodeOption(xs[0]);
      var more := EncodeOptions(xs[1..]);
      assert EncodeOptions(xs) + rest == e + (more + rest);
      OneOption(xs[0], more + rest, st);
      WalkOptions(xs[1..], rest, Step(xs[0], st));
    }
  }

  /** The layout Linux puts on data segments, NOP NOP Timestamps, yields
      the option's two values. */
  lemma NopNopTimestamps(val: u32, ecr: u32, st: Timestamps)
    ensures Options([OptNop, OptNop, 8, 10] + Be32Bytes(val) + Be32Bytes(ecr), st) == Timestamps(true, val, ecr)
  {
    var xs := [Nop, Nop, Opt(OptTimestamps, Be32Bytes(val) + Be32Bytes(ecr))];
    assert EncodeOptions(xs[2..]) == [8, 10] + Be32Bytes(val) + Be32Bytes(ecr) by {
      assert xs[2..][1..] == [];
    }
    assert EncodeOptions(xs[1..]) == [OptNop] + EncodeOptions(xs[2..]) by {
      assert xs[1..][1..] == xs[2..];
    }
    assert EncodeOptions(xs) == [OptNop, OptNop, 8, 10] + Be32Bytes(val) + Be32Bytes(ecr);
    WalkOptions(xs, [], st);
    assert EncodeOptions(xs) + [] == EncodeOptions(xs);
    BE32OfBytes([], val, Be32Bytes(ecr));
    BE32OfBytes(Be32Bytes(val), ecr, []);
    assert [] + Be32Bytes(val) + Be32Bytes(ecr) == Be32Bytes(val) + Be32Bytes(ecr);
    assert Be32Bytes(val) + Be32Bytes(ecr) + [] == Be32Bytes(val) + Be32Bytes(ecr);
    assert LastTimestamps(xs[2..], st) == LastTimestamps([], Step(xs[2], st));
  }

  // ---------------------------------------------------------------- header

  datatype TcpResult = TcpResult(ok: bool, tcp: TcpHeader)

  function DataOffset(d: seq<byte>): nat
    requires |d| >= MinHeaderLength
  {
    d[12] / 16
  }

  /** The fixed fields, all stored before the data offset is checked; the
      reserved bits are never stored. */
  function FixedFields(d: seq<byte>, prior: TcpHeader): TcpHeader
    requires |d| >= MinHeaderLength
  {
    prior.(srcPort := BE16(d, 0), destPort := BE16(d, 2), seqNum := BE32(d, 4), ackNum := BE32(d, 8),
           dataOffset := DataOffset(d), flags := d[13], window := BE16(d, 14),
           checksum := BE16(d, 16), urgentPointer := BE16(d, 18))
  }

  /** `TCPParser::parse` as a function of the bytes and the prior header. */
  function Decode(d: seq<byte>, prior: TcpHeader): (r: TcpResult)
    ensures r.ok <==> |d| >= MinHeaderLength && DataOffset(d) >= 5 && |d| >= DataOffset(d) * 4
    ensures |d| < MinHeaderLength ==> r.tcp == prior
    ensures |d| >= MinHeaderLength ==>
      r.tcp.srcPort == BE16(d, 0) && r.tcp.destPort == BE16(d, 2) && r.tcp.dataOffset as nat == DataOffset(d)
      && r.tcp.flags == d[13] && r.tcp.reserved == prior.reserved && r.tcp.options == prior.options
    ensures r.ok ==> r.tcp.optionsLen as nat == DataOffset(d) * 4 - MinHeaderLength <= 40
    ensures r.ok && DataOffset(d) > 5 ==>
      TimestampsOf(r.tcp) == Options(d[MinHeaderLength..DataOffset(d) * 4], Timestamps(false, prior.tsVal, prior.tsEcr))
    ensures (!r.ok || DataOffset(d) == 5) ==> TimestampsOf(r.tcp) == TimestampsOf(prior)
  {
    if |d| < MinHeaderLength then TcpResult(false, prior)
    else
      var h := FixedFields(d, prior);
      var hdr := h.dataOffset as nat * 4;
      if h.dataOffset < 5 || |d| < hdr then TcpResult(false, h)
      else if hdr > MinHeaderLength then
        var st := Options(d[MinHeaderLength..hdr], Timestamps(false, h.tsVal, h.tsEcr));
        TcpResult(true, h.(optionsLen := hdr - MinHeaderLength, hasTimestamp := st.has, tsVal := st.val, tsEcr := st.ecr))
      else TcpResult(true, h.(optionsLen := 0))
  }

  method Parse(d: seq<byte>, prior: TcpHeader) returns (ok: bool, tcp: TcpHeader)
    ensures TcpResult(ok, tcp) == Decode(d, prior)
  {
    tcp := prior;
    if |d| < 20 {
      return false, tcp;
    }
    tcp := FixedFields(d, tcp);
    if tcp.dataOffset < 5 {
      return false, tcp;
    }
    var headerLen := tcp.dataOffset as nat * 4;
    if |d| < headerLen {
      return false, tcp;
    }
    if headerLen > 20 {
      tcp := tcp.(optionsLen := headerLen - 20);
      tcp := ParseOptions(tcp, d[20..headerLen]);
    } else {
      tcp := tcp.(optionsLen := 0);
    }
    return true, tcp;
  }

  /** The 20 fixed bytes of a segment header; the reserved bits are zero. */
  function FixedBytes(h: TcpHeader): (s: seq<byte>)
    requires h.dataOffset < 16
    ensures |s| == MinHeaderLength
  {
    [h.srcPort / 0x100, h.srcPort % 0x100, h.destPort / 0x100, h.destPort % 0x100,
     ByteOf(h.seqNum, 3), ByteOf(h.seqNum, 2), ByteOf(h.seqNum, 1), ByteOf(h.seqNum, 0),
     ByteOf(h.ackNum, 3), ByteOf(h.ackNum, 2), ByteOf(h.ackNum, 1), ByteOf(h.ackNum, 0),
     h.dataOffset * 16, h.flags, h.window / 0x100, h.window % 0x100,
     h.checksum / 0x100, h.checksum % 0x100, h.urgentPointer / 0x100, h.urgentPointer % 0x100]
  }

  /** The fixed fields come back from their bytes, whatever follows them. */
  lemma FixedFieldsOfBytes(h: TcpHeader, tail: seq<byte>, prior: TcpHeader)
    requires h.dataOffset < 16
    ensures var f := FixedFields(FixedBytes(h) + tail, prior);
      f == prior.(srcPort := h.srcPort, destPort := h.destPort, seqNum := h.seqNum, ackNum := h.ackNum,
                  dataOffset := h.dataOffset, flags := h.flags, window := h.window,
                  checksum := h.checksum, urgentPointer := h.urgentPointer)
  {
    ByteOfRecompose(h.seqNum);
    ByteOfRecompose(h.ackNum);
  }

  /** A segment header with its options padded with End bytes to the data offset. */
  function Encode(h: TcpHeader, xs: seq<TcpOption>): (s: seq<byte>)
    requires 5 <= h.dataOffset <= 15 && ValidOptions(xs)
    requires |EncodeOptions(xs)| <= h.dataOffset as nat * 4 - MinHeaderLength
    ensures |s| == h.dataOffset as nat * 4
  {
    FixedBytes(h) + (EncodeOptions(xs) + Zeros(h.dataOffset as nat * 4 - MinHeaderLength - |EncodeOptions(xs)|))
  }

  /** What a receiver should see for an encoded header: its fixed fields, its
      option length and, when there are options, the timestamps of their
      reference reading; the reserved bits, the option buffer and (without
      options) the timestamps stay as they were. */
  function Expected(h: TcpHeader, xs: seq<TcpOption>, prior: TcpHeader): TcpHeader
    requires 5 <= h.dataOffset <= 15
  {
    var f := prior.(srcPort := h.srcPort, destPort := h.destPort, seqNum := h.seqNum, ackNum := h.ackNum,
                    dataOffset := h.dataOffset, flags := h.flags, window := h.window,
                    checksum := h.checksum, urgentPointer := h.urgentPointer,
                    optionsLen := h.dataOffset as nat * 4 - MinHeaderLength);
    if h.dataOffset == 5 then f
    else
      var st := LastTimestamps(xs, Timestamps(false, prior.tsVal, prior.tsEcr));
      f.(hasTimestamp := st.has, tsVal := st.val, tsEcr := st.ecr)
  }

  /** How the decoder treats an acceptable header, given its fixed fields
      and its option bytes. */
  lemma DecodeLayout(d: seq<byte>, f: TcpHeader, optBytes: seq<byte>, prior: TcpHeader)
    requires |d| >= MinHeaderLength && FixedFields(d, prior) == f
    requires 5 <= f.dataOffset && f.dataOffset as nat * 4 <= |d|
    requires d[MinHeaderLength..f.dataOffset as nat * 4] == optBytes
    ensures var st := Options(optBytes, Timestamps(false, prior.tsVal, prior.tsEcr));
      Decode(d, prior) == TcpResult(true,
        if f.dataOffset == 5 then f.(optionsLen := 0)
        else f.(optionsLen := f.dataOffset as nat * 4 - MinHeaderLength,
                hasTimestamp := st.has, tsVal := st.val, tsEcr := st.ecr))
  {
  }

  /** Decoding an encoded header, whatever payload follows, gives what a
      receiver should see. */
  lemma DecodeEncode(h: TcpHeader, xs: seq<TcpOption>, payload: seq<byte>, prior: TcpHeader)
    requires 5 <= h.dataOffset <= 15 && ValidOptions(xs)
    requires |EncodeOptions(xs)| <= h.dataOffset as nat * 4 - MinHeaderLength
    ensures Decode(Encode(h, xs) + payload, prior) == TcpResult(true, Expected(h, xs, prior))
  {
    var hdr := h.dataOffset as nat * 4;
    var opts := EncodeOptions(xs);
    var pad := Zeros(hdr - MinHeaderLength - |opts|);
    var d := Encode(h, xs) + payload;
    SliceMiddle(FixedBytes(h), opts + pad, payload);
    FixedFieldsOfBytes(h, (opts + pad) + payload, prior);
    DecodeLayout(d, FixedFields(d, prior), opts + pad, prior);
    if h.dataOffset > 5 {
      WalkOptions(xs, pad, Timestamps(false, prior.tsVal, prior.tsEcr));
    }
  }

  // ---------------------------------------------------------------- names

  const NamedPorts: set<u16> := {80, 443, 20, 21, 22, 23, 25, 53, 110}

  /** `getPortName`: a service name for the listed ports, the decimal number
      for any other; a name never reads as a number. */
  function PortName(port: u16): (s: string)
    ensures port !in NamedPorts ==> s == Decimal(port)
    ensures AllDigits(s) <==> port !in NamedPorts
  {
    match port
    case 80 => assert !IsDigit("http"[0]); "http"
    case 443 => assert !IsDigit("https (tls)"[0]); "https (tls)"
    case 20 => assert !IsDigit("ftp-data"[0]); "ftp-data"
    case 21 => assert !IsDigit("ftp"[0]); "ftp"
    case 22 => assert !IsDigit("ssh"[0]); "ssh"
    case 23 => assert !IsDigit("telnet"[0]); "telnet"
    case 25 => assert !IsDigit("smtp"[0]); "smtp"
    case 53 => assert !IsDigit("dns"[0]); "dns"
    case 110 => assert !IsDigit("pop3"[0]); "pop3"
    case _ => Decimal(port)
  }
}
