/** The display filter: `DisplayFilterEngine::match` reads a filter text,
    trimmed and lower-cased, as alternatives joined by "||", each a run of
    conditions joined by "&&", and tests each condition against one
    packet's decoded fields.  A condition is either a bare protocol name or
    a key, a comparison operator and a value. */
module DisplayFilter {
  import opened Wrappers
  import opened Bytes
  import opened Text
  import opened PacketData
  import IPv4

  // ---------------------------------------------------------------- comparisons

  /** The six comparison operators (the strings "==", "!=", ">=", "<=", ">", "<"). */
  datatype Op = Eq | Ne | Ge | Le | Gt | Lt

  /** How a condition writes each operator. */
  function OpText(op: Op): (s: string)
    ensures 1 <= |s| <= 2
  {
    match op
    case Eq => "=="
    case Ne => "!="
    case Ge => ">="
    case Le => "<="
    case Gt => ">"
    case Lt => "<"
  }

  /** `compareInt`. */
  function Compare(val: int, target: int, op: Op): bool
  {
    match op
    case Eq => val == target
    case Ne => val != target
    case Gt => val > target
    case Lt => val < target
    case Ge => val >= target
    case Le => val <= target
  }

  /** The operators pair off as complements, and the inclusive ones are the
      strict ones or equality. */
  lemma CompareComplements(val: int, target: int)
    ensures Compare(val, target, Ne) == !Compare(val, target, Eq)
    ensures Compare(val, target, Ge) == !Compare(val, target, Lt)
    ensures Compare(val, target, Le) == !Compare(val, target, Gt)
    ensures Compare(val, target, Ge) == (Compare(val, target, Gt) || Compare(val, target, Eq))
    ensures Compare(val, target, Lt) == Compare(target, val, Gt)
  {
  }

  /** An unsigned 32-bit length passed where `int` is expected: lengths of
      2^31 and more turn negative. */
  function Signed32(w: u32): (i: int)
    ensures -0x8000_0000 <= i < 0x8000_0000
    ensures w < 0x8000_0000 ==> i == w
    ensures i % 0x1_0000_0000 == w
  {
    if w < 0x8000_0000 then w else w - 0x1_0000_0000
  }

  // ---------------------------------------------------------------- field tests

  /** The six application labels a bare name can select, written in lower case. */
  const AppNames: seq<string> := ["http", "dns", "mdns", "tls", "ssdp", "quic"]

  /** The four transport and network names a bare name can select. */
  const LayerNames: seq<string> := ["tcp", "udp", "icmp", "arp"]

  /** `checkProtocol`. */
  function CheckProtocol(p: PacketRecord, name: string): (r: bool)
    ensures r ==> name in AppNames || name in LayerNames
  {
    if name == "http" then p.app.protocol == "HTTP"
    else if name == "dns" then p.app.protocol == "DNS"
    else if name == "mdns" then p.app.protocol == "MDNS"
    else if name == "tls" then p.app.protocol == "TLS"
    else if name == "ssdp" then p.app.protocol == "SSDP"
    else if name == "quic" then p.app.protocol == "QUIC"
    else if name == "tcp" then p.layers.isTcp
    else if name == "udp" then p.layers.isUdp
    else if name == "icmp" then p.layers.isIcmp
    else if name == "arp" then p.layers.isArp
    else false
  }

  /** An application name selects exactly the packets whose label is that
      name in upper case; a layer name selects the packets whose layer flag
      is set. */
  lemma ProtocolNamesSelect(p: PacketRecord)
    ensures forall k :: 0 <= k < |AppNames| ==> (CheckProtocol(p, AppNames[k]) <==> p.app.protocol == ToUpper(AppNames[k]))
    ensures CheckProtocol(p, LayerNames[0]) == p.layers.isTcp && CheckProtocol(p, LayerNames[1]) == p.layers.isUdp
    ensures CheckProtocol(p, LayerNames[2]) == p.layers.isIcmp && CheckProtocol(p, LayerNames[3]) == p.layers.isArp
  {
    assert ToUpper("http") == "HTTP";
    assert ToUpper("dns") == "DNS";
    assert ToUpper("mdns") == "MDNS";
    assert ToUpper("tls") == "TLS";
    assert ToUpper("ssdp") == "SSDP";
    assert ToUpper("quic") == "QUIC";
  }

  /** `checkIp`: the address fields printed lowest byte first and compared
      as text; only IPv4 packets, and only "==" and "!=". */
  function CheckIp(p: PacketRecord, target: string, key: string, op: Op): (r: bool)
    ensures r ==> p.layers.isIpv4 && (op == Eq || op == Ne)
  {
    if !p.layers.isIpv4 then false
    else
      var matchSrc := IPv4.Dotted(p.layers.ipv4.srcIp) == target;
      var matchDst := IPv4.Dotted(p.layers.ipv4.destIp) == target;
      if op == Eq then
        if key == "ip.src" then matchSrc
        else if key == "ip.dst" then matchDst
        else if key == "ip.addr" then matchSrc || matchDst
        else false
      else if op == Ne then
        if key == "ip.src" then !matchSrc
        else if key == "ip.dst" then !matchDst
        else if key == "ip.addr" then !matchSrc && !matchDst
        else false
      else false
  }

  /** An address test with the printed form of address a selects the IPv4
      packets whose source, destination or either endpoint is a; "ip.addr
      != a" keeps the packets where neither endpoint is a. */
  lemma IpTestSelects(p: PacketRecord, a: u32)
    ensures CheckIp(p, IPv4.Dotted(a), "ip.src", Eq) <==> p.layers.isIpv4 && p.layers.ipv4.srcIp == a
    ensures CheckIp(p, IPv4.Dotted(a), "ip.dst", Eq) <==> p.layers.isIpv4 && p.layers.ipv4.destIp == a
    ensures CheckIp(p, IPv4.Dotted(a), "ip.addr", Eq)
        <==> p.layers.isIpv4 && (p.layers.ipv4.srcIp == a || p.layers.ipv4.destIp == a)
    ensures CheckIp(p, IPv4.Dotted(a), "ip.addr", Ne)
        <==> p.layers.isIpv4 && p.layers.ipv4.srcIp != a && p.layers.ipv4.destIp != a
  {
    if IPv4.Dotted(p.layers.ipv4.srcIp) == IPv4.Dotted(a) {
      IPv4.DottedInjective(p.layers.ipv4.srcIp, a);
    }
    if IPv4.Dotted(p.layers.ipv4.destIp) == IPv4.Dotted(a) {
      IPv4.DottedInjective(p.layers.ipv4.destIp, a);
    }
  }

  /** The ports a port test reads: TCP's for "tcp.port" and "port", else
      UDP's for "udp.port" and "port". */
  function PortsFor(p: PacketRecord, key: string): (r: Option<(u16, u16)>)
    ensures r.Some? ==> p.layers.isTcp || p.layers.isUdp
  {
    if p.layers.isTcp && (key == "tcp.port" || key == "port") then Some((p.layers.tcp.srcPort, p.layers.tcp.destPort))
    else if p.layers.isUdp && (key == "udp.port" || key == "port") then Some((p.layers.udp.srcPort, p.layers.udp.destPort))
    else None
  }

  /** `checkPort`: "!=" needs both endpoints to pass the comparison, every
      other operator either one. */
  function CheckPort(p: PacketRecord, target: int, key: string, op: Op): bool
  {
    match PortsFor(p, key)
    case None => false
    case Some((src, dst)) =>
      var srcMatch := Compare(src, target, op);
      var dstMatch := Compare(dst, target, op);
      if op == Ne then srcMatch && dstMatch else srcMatch || dstMatch
  }

  /** A port test holds for "!=" when neither endpoint has the port and for
      "==" when either has it; a packet without the named transport fails. */
  lemma PortTestSelects(p: PacketRecord, target: int, key: string)
    ensures PortsFor(p, key).None? ==> forall op :: !CheckPort(p, target, key, op)
    ensures PortsFor(p, key).Some? ==>
      var (src, dst) := PortsFor(p, key).value;
      (CheckPort(p, target, key, Ne) <==> src != target && dst != target)
      && (CheckPort(p, target, key, Eq) <==> src == target || dst == target)
    ensures key == "tcp.port" ==> forall op :: CheckPort(p, target, key, op) ==> p.layers.isTcp
    ensures key == "udp.port" ==> forall op :: CheckPort(p, target, key, op) ==> p.layers.isUdp
  {
  }

  /** `checkLength`: the captured frame's wire length. */
  function CheckLength(p: PacketRecord, target: int, op: Op): bool
  {
    Compare(Signed32(p.wireLength), target, op)
  }

  /** The keys a comparison can name. */
  predicate KnownKey(key: string)
  {
    key in ["stream", "ip.addr", "ip.src", "ip.dst", "tcp.port", "udp.port", "port", "frame.len", "length"]
  }

  /** The test `matchSingleCondition` runs for a key, a cleaned value and an
      operator. */
  function Test(p: PacketRecord, key: string, value: string, op: Op): (r: bool)
    ensures !KnownKey(key) ==> !r
    ensures key == "stream" ==> (r <==> p.streamIndex >= 0 && Compare(p.streamIndex, QtToInt(value), op))
    ensures key == "frame.len" || key == "length" ==> r == Compare(Signed32(p.wireLength), QtToInt(value), op)
  {
    if key == "stream" then p.streamIndex >= 0 && Compare(p.streamIndex, QtToInt(value), op)
    else if key == "ip.addr" || key == "ip.src" || key == "ip.dst" then CheckIp(p, value, key, op)
    else if key == "tcp.port" || key == "udp.port" || key == "port" then CheckPort(p, QtToInt(value), key, op)
    else if key == "frame.len" || key == "length" then CheckLength(p, QtToInt(value), op)
    else false
  }

  // ---------------------------------------------------------------- conditions

  /** The characters of the pattern `[=!<>]=?`; the pattern matches a text
      exactly when one of them occurs in it. */
  predicate IsOperatorChar(c: char) { c == '=' || c == '!' || c == '<' || c == '>' }

  predicate HasOperatorChar(s: string)
  {
    exists i :: 0 <= i < |s| && IsOperatorChar(s[i])
  }

  /** Text with no operator character. */
  predicate Plain(s: string)
  {
    forall i :: 0 <= i < |s| ==> !IsOperatorChar(s[i])
  }

  /** Where the operator of a condition was found and how many characters the
      value skips after that position. */
  datatype Detected = Detected(op: Op, index: nat, width: nat)

  /** The two-character operators, searched for in this order. */
  const TwoCharOps: seq<Op> := [Eq, Ne, Ge, Le]

  /** The first of the two-character operators from k on that occurs anywhere. */
  function TwoCharFrom(c: string, k: nat): (d: Option<Detected>)
    requires k <= |TwoCharOps|
    ensures d.Some? ==> d.value.width == 2 && d.value.op in TwoCharOps && OccursAt(c, OpText(d.value.op), d.value.index)
    decreases |TwoCharOps| - k
  {
    if k == |TwoCharOps| then None
    else match Find(c, OpText(TwoCharOps[k]))
      case Some(i) => Some(Detected(TwoCharOps[k], i, 2))
      case None => TwoCharFrom(c, k + 1)
  }

  /** How far past a bare '=' the value starts.  As written, the bare '='
      becomes the operator string "==" and the value starts that string's
      length, two characters, after the '='; SkipOne is the one character
      the '=' takes. */
  datatype BareEquals = SkipTwo | SkipOne

  function BareWidth(bare: BareEquals): nat
  {
    if bare == SkipTwo then 2 else 1
  }

  /** Operator detection: the first of "==", "!=", ">=", "<=" in that order
      that occurs anywhere, else '>', else '<', else a bare '=' read as "==". */
  function Operator(c: string, bare: BareEquals): (d: Option<Detected>)
    ensures d.Some? ==> d.value.index < |c|
  {
    match TwoCharFrom(c, 0)
    case Some(d) => Some(d)
    case None =>
      if Contains(c, ">") then Some(Detected(Gt, Find(c, ">").value, 1))
      else if Contains(c, "<") then Some(Detected(Lt, Find(c, "<").value, 1))
      else if Contains(c, "=") then Some(Detected(Eq, Find(c, "=").value, BareWidth(bare)))
      else None
  }

  /** The key: the trimmed text before the operator. */
  function KeyOf(c: string, d: Detected): string
    requires d.index <= |c|
  {
    Trim(c[..d.index])
  }

  /** A value as the tests see it: trimmed, then every double and single quote removed. */
  function Clean(v: string): (r: string)
    ensures '"' !in r && '\'' !in r
  {
    var r := Without(Without(Trim(v), '"'), '\'');
    assert '"' !in r by {
      if '"' in r {
        var i :| 0 <= i < |r| && r[i] == '"';
        WithoutKeeps(Without(Trim(v), '"'), '\'', i);
      }
    }
    r
  }

  /** The value: the text after the operator's width, cleaned; a width that
      runs past the end leaves nothing. */
  function ValueOf(c: string, d: Detected): string
  {
    Clean(if d.index + d.width <= |c| then c[d.index + d.width..] else "")
  }

  /** `matchSingleCondition` as a function of the condition. */
  function Condition(p: PacketRecord, c: string, bare: BareEquals): bool
  {
    if c == "" then true
    else if !HasOperatorChar(c) then CheckProtocol(p, c)
    else match Operator(c, bare)
      case None => false
      case Some(d) => Test(p, KeyOf(c, d), ValueOf(c, d), d.op)
  }

  // ---------------------------------------------------------------- facts about searching

  /** An occurrence, character by character. */
  lemma OccursChars(s: string, pat: string, j: int)
    ensures OccursAt(s, pat, j) ==> forall i :: 0 <= i < |pat| ==> s[j + i] == pat[i]
    ensures 0 <= j && j + |pat| <= |s| && (forall i :: 0 <= i < |pat| ==> s[j + i] == pat[i]) ==> OccursAt(s, pat, j)
  {
  }

  /** The characters of key + ot + v. */
  lemma CharOfParts(key: string, ot: string, v: string, j: int)
    ensures 0 <= j < |key| ==> (key + ot + v)[j] == key[j]
    ensures |key| <= j < |key| + |ot| ==> (key + ot + v)[j] == ot[j - |key|]
    ensures |key| + |ot| <= j < |key| + |ot| + |v| ==> (key + ot + v)[j] == v[j - |key| - |ot|]
  {
  }

  /** In key + ot + v, where key and v hold no operator character, a pattern
      that starts with an operator character can only occur inside ot. */
  lemma OccursOnlyInOperator(key: string, ot: string, v: string, pat: string, j: int)
    requires Plain(key) && Plain(v) && |pat| >= 1 && IsOperatorChar(pat[0])
    requires OccursAt(key + ot + v, pat, j)
    ensures |key| <= j < |key| + |ot|
  {
    OccursChars(key + ot + v, pat, j);
    CharOfParts(key, ot, v, j);
  }

  /** Whether pat occurs where ot starts: exactly when ot starts with pat. */
  lemma OccursAtOperator(key: string, ot: string, v: string, pat: string)
    requires Plain(v) && 1 <= |ot| <= 2 && 1 <= |pat| <= 2
    requires forall i :: 0 <= i < |pat| ==> IsOperatorChar(pat[i])
    ensures OccursAt(key + ot + v, pat, |key|) <==> |pat| <= |ot| && ot[..|pat|] == pat
  {
    var c := key + ot + v;
    var k := |key|;
    OccursChars(c, pat, k);
    CharOfParts(key, ot, v, k);
    CharOfParts(key, ot, v, k + 1);
    if |pat| <= |ot| {
      assert forall i :: 0 <= i < |pat| ==> c[k + i] == ot[..|pat|][i];
      assert c[k..k + |pat|] == ot[..|pat|];
    }
  }

  /** Whether pat occurs at the second character of a two-character ot. */
  lemma OccursInsideOperator(key: string, ot: string, v: string, pat: string)
    requires Plain(v) && |ot| == 2 && 1 <= |pat| <= 2
    requires forall i :: 0 <= i < |pat| ==> IsOperatorChar(pat[i])
    ensures OccursAt(key + ot + v, pat, |key| + 1) <==> |pat| == 1 && ot[1] == pat[0]
  {
    var c := key + ot + v;
    var k := |key|;
    OccursChars(c, pat, k + 1);
    CharOfParts(key, ot, v, k + 1);
    CharOfParts(key, ot, v, k + 2);
  }

  /** Where the searches of operator detection land in key + ot + v. */
  lemma FindOperatorText(key: string, ot: string, v: string, pat: string)
    requires Plain(key) && Plain(v) && 1 <= |ot| <= 2 && 1 <= |pat| <= 2
    requires forall i :: 0 <= i < |pat| ==> IsOperatorChar(pat[i])
    ensures Find(key + ot + v, pat) ==
      if |pat| <= |ot| && ot[..|pat|] == pat then Some(|key|)
      else if |ot| == 2 && |pat| == 1 && ot[1] == pat[0] then Some(|key| + 1)
      else None
  {
    var c := key + ot + v;
    forall j | 0 <= j <= |c| && OccursAt(c, pat, j) ensures |key| <= j < |key| + |ot| {
      OccursOnlyInOperator(key, ot, v, pat, j);
    }
    OccursAtOperator(key, ot, v, pat);
    if |ot| == 2 {
      OccursInsideOperator(key, ot, v, pat);
    }
    if |pat| <= |ot| && ot[..|pat|] == pat {
      FindFirst(c, pat, 0, |key|);
    } else if |ot| == 2 && |pat| == 1 && ot[1] == pat[0] {
      FindFirst(c, pat, 0, |key| + 1);
    } else {
      assert !Contains(c, pat);
    }
  }

  /** The searches that see "==" first. */
  lemma OperatorEq(key: string, v: string, bare: BareEquals)
    requires Plain(key) && Plain(v)
    ensures Operator(key + "==" + v, bare) == Some(Detected(Eq, |key|, 2))
  {
    FindOperatorText(key, "==", v, "==");
  }

  lemma OperatorNe(key: string, v: string, bare: BareEquals)
    requires Plain(key) && Plain(v)
    ensures Operator(key + "!=" + v, bare) == Some(Detected(Ne, |key|, 2))
  {
    FindOperatorText(key, "!=", v, "==");
    FindOperatorText(key, "!=", v, "!=");
  }

  lemma OperatorGe(key: string, v: string, bare: BareEquals)
    requires Plain(key) && Plain(v)
    ensures Operator(key + ">=" + v, bare) == Some(Detected(Ge, |key|, 2))
  {
    FindOperatorText(key, ">=", v, "==");
    FindOperatorText(key, ">=", v, "!=");
    FindOperatorText(key, ">=", v, ">=");
  }

  lemma OperatorLe(key: string, v: string, bare: BareEquals)
    requires Plain(key) && Plain(v)
    ensures Operator(key + "<=" + v, bare) == Some(Detected(Le, |key|, 2))
  {
    FindOperatorText(key, "<=", v, "==");
    FindOperatorText(key, "<=", v, "!=");
    FindOperatorText(key, "<=", v, ">=");
    FindOperatorText(key, "<=", v, "<=");
  }

  /** No two-character operator occurs around a one-character one. */
  lemma NoTwoCharOperator(key: string, ot: string, v: string)
    requires Plain(key) && Plain(v) && (ot == ">" || ot == "<" || ot == "=")
    ensures TwoCharFrom(key + ot + v, 0).None?
  {
    FindOperatorText(key, ot, v, "==");
    FindOperatorText(key, ot, v, "!=");
    FindOperatorText(key, ot, v, ">=");
    FindOperatorText(key, ot, v, "<=");
  }

  lemma OperatorGt(key: string, v: string, bare: BareEquals)
    requires Plain(key) && Plain(v)
    ensures Operator(key + ">" + v, bare) == Some(Detected(Gt, |key|, 1))
  {
    NoTwoCharOperator(key, ">", v);
    FindOperatorText(key, ">", v, ">");
  }

  lemma OperatorLt(key: string, v: string, bare: BareEquals)
    requires Plain(key) && Plain(v)
    ensures Operator(key + "<" + v, bare) == Some(Detected(Lt, |key|, 1))
  {
    NoTwoCharOperator(key, "<", v);
    FindOperatorText(key, "<", v, ">");
    FindOperatorText(key, "<", v, "<");
  }

  lemma OperatorBare(key: string, v: string, bare: BareEquals)
    requires Plain(key) && Plain(v)
    ensures Operator(key + "=" + v, bare) == Some(Detected(Eq, |key|, BareWidth(bare)))
  {
    NoTwoCharOperator(key, "=", v);
    FindOperatorText(key, "=", v, ">");
    FindOperatorText(key, "=", v, "<");
    FindOperatorText(key, "=", v, "=");
  }

  /** Operator detection finds the operator written between a key and a
      value that hold no operator character. */
  lemma OperatorOfParts(key: string, op: Op, v: string, bare: BareEquals)
    requires Plain(key) && Plain(v)
    ensures Operator(key + OpText(op) + v, bare) == Some(Detected(op, |key|, |OpText(op)|))
  {
    match op
    case Eq => OperatorEq(key, v, bare);
    case Ne => OperatorNe(key, v, bare);
    case Ge => OperatorGe(key, v, bare);
    case Le => OperatorLe(key, v, bare);
    case Gt => OperatorGt(key, v, bare);
    case Lt => OperatorLt(key, v, bare);
  }

  /** The condition of an operator found at index with the given width. */
  lemma ConditionAt(p: PacketRecord, c: string, bare: BareEquals, d: Detected)
    requires d.index < |c| && IsOperatorChar(c[d.index]) && Operator(c, bare) == Some(d)
    ensures Condition(p, c, bare) == Test(p, KeyOf(c, d), ValueOf(c, d), d.op)
  {
    assert HasOperatorChar(c);
  }

  /** A condition written key, operator, value, with no operator character
      in the key or the value, tests that key, operator and cleaned value. */
  lemma ConditionOfParts(p: PacketRecord, key: string, op: Op, v: string, bare: BareEquals)
    requires Plain(key) && Plain(v)
    ensures Condition(p, key + OpText(op) + v, bare) == Test(p, Trim(key), Clean(v), op)
  {
    var ot := OpText(op);
    var c := key + ot + v;
    var d := Detected(op, |key|, |ot|);
    OperatorOfParts(key, op, v, bare);
    assert c[|key|] == ot[0];
    ConditionAt(p, c, bare, d);
    assert c[..|key|] == key;
    assert c[|key| + |ot|..] == v;
  }

  /** A bare '=' reads as equality, as written with the value's first
      character lost. */
  lemma BareEqualsCondition(p: PacketRecord, key: string, v: string, bare: BareEquals)
    requires Plain(key) && Plain(v)
    ensures Condition(p, key + "=" + v, bare)
         == Test(p, Trim(key), Clean(if bare == SkipTwo && v != [] then v[1..] else v), Eq)
  {
    var c := key + "=" + v;
    var d := Detected(Eq, |key|, BareWidth(bare));
    OperatorBare(key, v, bare);
    assert c[|key|] == '=';
    ConditionAt(p, c, bare, d);
    assert c[..|key|] == key;
    if bare == SkipTwo {
      if v != [] {
        assert c[|key| + 2..] == v[1..];
      }
    } else {
      assert c[|key| + 1..] == v;
    }
  }

  /** With the value read from just after the '=', a bare '=' means the
      same as "==". */
  lemma BareEqualsIsEquality(p: PacketRecord, key: string, v: string)
    requires Plain(key) && Plain(v)
    ensures Condition(p, key + "=" + v, SkipOne) == Condition(p, key + "==" + v, SkipOne)
  {
    BareEqualsCondition(p, key, v, SkipOne);
    ConditionOfParts(p, key, Eq, v, SkipOne);
  }

  /** A printed number is a value the cleaning leaves alone. */
  lemma DecimalIsClean(n: nat)
    ensures Plain(Decimal(n)) && Clean(Decimal(n)) == Decimal(n)
  {
    var s := Decimal(n);
    assert TrimStart(s) == s;
    assert TrimEnd(s) == s;
    WithoutAbsent(s, '"');
    WithoutAbsent(s, '\'');
  }

  lemma LengthKey()
    ensures Plain("length") && Trim("length") == "length"
  {
    assert TrimStart("length") == "length";
    assert TrimEnd("length") == "length";
  }

  /** As written, "length=80" tests the length against 0: an 80-byte frame
      fails it, where "length==80" accepts the frame. */
  lemma BareEqualsDropsDigit(p: PacketRecord)
    requires p.wireLength == 80
    ensures !Condition(p, "length=80", SkipTwo)
    ensures Condition(p, "length=80", SkipOne)
  {
    var v := Decimal(80);
    assert v == [DigitChar(8), DigitChar(0)] by {
      assert v == Decimal(8) + [DigitChar(0)];
    }
    assert v[1..] == Decimal(0);
    assert "length" + "=" + v == "length=80";
    DecimalIsClean(80);
    DecimalIsClean(0);
    LengthKey();
    QtToIntDecimal(80);
    QtToIntDecimal(0);
    assert !Condition(p, "length=80", SkipTwo) by {
      BareEqualsCondition(p, "length", v, SkipTwo);
    }
    assert Condition(p, "length=80", SkipOne) by {
      BareEqualsCondition(p, "length", v, SkipOne);
    }
  }

  lemma IndexIn(s: string, k: int)
    ensures 0 <= k < |s| ==> s[k] in s
  {
  }

  /** A pattern whose last character is missing from s does not occur in s. */
  lemma AbsentLast(s: string, pat: string)
    requires |pat| >= 1 && pat[|pat| - 1] !in s
    ensures !Contains(s, pat)
  {
    forall j | 0 <= j <= |s| ensures !OccursAt(s, pat, j) {
      OccursChars(s, pat, j);
      IndexIn(s, j + |pat| - 1);
    }
  }

  /** A condition with '!' as its only operator character, such as "!tcp",
      has no operator and fails: negation is not supported. */
  lemma BangAloneFails(p: PacketRecord, c: string, bare: BareEquals)
    requires '!' in c && '=' !in c && '<' !in c && '>' !in c
    ensures !Condition(p, c, bare)
  {
    var i :| 0 <= i < |c| && c[i] == '!';
    assert HasOperatorChar(c);
    AbsentLast(c, "==");
    AbsentLast(c, "!=");
    AbsentLast(c, ">=");
    AbsentLast(c, "<=");
    AbsentLast(c, ">");
    AbsentLast(c, "<");
    AbsentLast(c, "=");
    assert OpText(Eq) == "==" && OpText(Ne) == "!=" && OpText(Ge) == ">=" && OpText(Le) == "<=";
    assert Operator(c, bare).None?;
  }

  // ---------------------------------------------------------------- whole filters

  /** Every "&&" part of an alternative, trimmed, holds. */
  predicate AllHold(p: PacketRecord, parts: seq<string>, bare: BareEquals)
  {
    forall j :: 0 <= j < |parts| ==> Condition(p, Trim(parts[j]), bare)
  }

  /** The filter text as `match` evaluates it: trimmed, then lower-cased. */
  function Normalised(filterText: string): string
  {
    ToLower(Trim(filterText))
  }

  /** Some alternative has every one of its "&&" parts hold. */
  predicate AnyAlternative(p: PacketRecord, alternatives: seq<string>, bare: BareEquals)
  {
    exists i :: 0 <= i < |alternatives| && AllHold(p, Split(alternatives[i], "&&"), bare)
  }

  /** `match`: an empty filter matches everything; otherwise some "||"
      alternative must have every one of its "&&" parts hold. */
  predicate Matches(p: PacketRecord, filterText: string, bare: BareEquals)
  {
    var f := Normalised(filterText);
    f == "" || AnyAlternative(p, Split(f, "||"), bare)
  }

  /** A filter of whitespace only matches every packet. */
  lemma BlankFilterMatches(p: PacketRecord, filterText: string, bare: BareEquals)
    requires forall i :: 0 <= i < |filterText| ==> IsSpace(filterText[i])
    ensures Matches(p, filterText, bare)
  {
    TrimAllSpace(filterText);
  }

  lemma {:induction false} TrimStartLower(s: string)
    ensures TrimStart(ToLower(s)) == ToLower(TrimStart(s))
    ensures TrimStart(ToUpper(s)) == ToUpper(TrimStart(s))
  {
    if s != [] {
      assert ToLower(s)[1..] == ToLower(s[1..]);
      assert ToUpper(s)[1..] == ToUpper(s[1..]);
      assert IsSpace(ToLower(s)[0]) == IsSpace(s[0]) == IsSpace(ToUpper(s)[0]);
      TrimStartLower(s[1..]);
    }
  }

  lemma {:induction false} TrimEndLower(s: string)
    ensures TrimEnd(ToLower(s)) == ToLower(TrimEnd(s))
    ensures TrimEnd(ToUpper(s)) == ToUpper(TrimEnd(s))
  {
    if s != [] {
      var n := |s| - 1;
      assert ToLower(s)[..n] == ToLower(s[..n]);
      assert ToUpper(s)[..n] == ToUpper(s[..n]);
      assert IsSpace(ToLower(s)[n]) == IsSpace(s[n]) == IsSpace(ToUpper(s)[n]);
      TrimEndLower(s[..n]);
    }
  }

  /** Letter case in the filter text does not matter. */
  lemma CaseInsensitive(p: PacketRecord, filterText: string, bare: BareEquals)
    ensures Matches(p, ToUpper(filterText), bare) == Matches(p, filterText, bare)
    ensures Matches(p, ToLower(filterText), bare) == Matches(p, filterText, bare)
  {
    TrimStartLower(filterText);
    TrimEndLower(TrimStart(filterText));
    var m := Trim(filterText);
    assert Trim(ToLower(filterText)) == ToLower(m);
    assert Trim(ToUpper(filterText)) == ToUpper(m);
    assert ToLower(ToLower(m)) == ToLower(m);
    assert ToLower(ToUpper(m)) == ToLower(m);
  }

  // ---------------------------------------------------------------- the engine

  /** The two-character search of `matchSingleCondition`: the loop over the
      list, stopping at the first operator found. */
  method DetectOperator(c: string) returns (d: Option<Detected>)
    ensures d == Operator(c, SkipTwo)
  {
    d := None;
    var k := 0;
    while k < |TwoCharOps|
      invariant 0 <= k <= |TwoCharOps|
      invariant d.None? ==> TwoCharFrom(c, 0) == TwoCharFrom(c, k)
      invariant d.Some? ==> d == TwoCharFrom(c, 0)
      decreases |TwoCharOps| - k, d.None?
    {
      var opIndex := Find(c, OpText(TwoCharOps[k]));
      if opIndex.Some? {
        d := Some(Detected(TwoCharOps[k], opIndex.value, 2));
        break;
      }
      k := k + 1;
    }
    if d.None? {
      if Contains(c, ">") {
        d := Some(Detected(Gt, Find(c, ">").value, 1));
      } else if Contains(c, "<") {
        d := Some(Detected(Lt, Find(c, "<").value, 1));
      } else if Contains(c, "=") {
        // a bare '=' is taken as the operator "==", whose length the value skips
        d := Some(Detected(Eq, Find(c, "=").value, |OpText(Eq)|));
      }
    }
  }

  /** `matchSingleCondition`. */
  method MatchSingleCondition(p: PacketRecord, c: string) returns (r: bool)
    ensures r == Condition(p, c, SkipTwo)
  {
    if c == "" {
      return true;
    }
    if !HasOperatorChar(c) {
      return CheckProtocol(p, c);
    }
    var d := DetectOperator(c);
    if d.None? {
      return false;
    }
    var key := Trim(c[..d.value.index]);
    var rest := if d.value.index + d.value.width <= |c| then c[d.value.index + d.value.width..] else "";
    var value := Trim(rest);
    value := Without(value, '"');
    value := Without(value, '\'');
    assert value == ValueOf(c, d.value);
    return Test(p, key, value, d.value.op);
  }

  /** The inner loop of `match`: the "&&" parts of one alternative, giving
      up at the first that fails. */
  method AndBlock(p: PacketRecord, orPart: string) returns (isAndBlockValid: bool)
    ensures isAndBlockValid == AllHold(p, Split(orPart, "&&"), SkipTwo)
  {
    var andParts := Split(orPart, "&&");
    var j := 0;
    while j < |andParts|
      invariant 0 <= j <= |andParts|
      invariant forall m :: 0 <= m < j ==> Condition(p, Trim(andParts[m]), SkipTwo)
    {
      var ok := MatchSingleCondition(p, Trim(andParts[j]));
      if !ok {
        return false;
      }
      j := j + 1;
    }
    return true;
  }

  /** `match`: the loop over the "||" alternatives, returning at the first
      whose "&&" parts all hold. */
  method Match(p: PacketRecord, filterText: string) returns (r: bool)
    ensures r == Matches(p, filterText, SkipTwo)
  {
    var filter := Normalised(filterText);
    if filter == "" {
      return true;
    }
    var orParts := Split(filter, "||");
    var i := 0;
    while i < |orParts|
      invariant 0 <= i <= |orParts|
      invariant forall k :: 0 <= k < i ==> !AllHold(p, Split(orParts[k], "&&"), SkipTwo)
    {
      var isAndBlockValid := AndBlock(p, orParts[i]);
      if isAndBlockValid {
        return true;
      }
      i := i + 1;
    }
    return false;
  }
}
