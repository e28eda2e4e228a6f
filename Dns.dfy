/** The DNS message decoder: the 12-byte header, then the first question's
    name, type and class (sections 4.1.1, 4.1.2 and 4.1.4 of RFC 1035).
    A name is a run of length-prefixed labels ended by a zero byte, or cut
    short by a compression pointer: a byte with its two top bits set whose
    low 14 bits, with the next byte, give an offset from the start of the
    message where the rest of the name is found. */
module Dns {
  import opened Bytes
  import opened Text
  import opened PacketData

  const HeaderLength: nat := 12

  /** How many compression pointers one name may follow before reading fails. */
  const MaxPointerJumps: nat := 16

  /** How the text read behind a pointer is added to the name so far:
      appended directly, as the source does, or after a '.' as RFC 1035
      spells names. */
  datatype PointerJoin = Concatenate | WithDot

  /** An attempt to read a name: whether it succeeded, the text so far and
      the cursor where reading stopped (just past the name on success). */
  datatype NameResult = NameResult(ok: bool, name: string, next: nat)

  /** Two pieces of a domain name joined by a dot; an empty piece adds nothing. */
  function Dotted(a: string, b: string): (s: string)
    ensures a == "" ==> s == b
    ensures b == "" ==> s == a
    ensures a != "" && b != "" ==> |s| == |a| + 1 + |b|
  {
    if a == "" then b else if b == "" then a else a + "." + b
  }

  /** Joining with dots does not depend on grouping. */
  lemma DottedAssociative(a: string, b: string, c: string)
    ensures Dotted(Dotted(a, b), c) == Dotted(a, Dotted(b, c))
  {
    if a != "" && b != "" && c != "" {
      assert a + "." + b + "." + c == a + "." + (b + "." + c);
    }
  }

  /** What a pointer adds to the name read so far. */
  function JoinTarget(join: PointerJoin, name: string, target: string): (s: string)
    ensures join == WithDot ==> s == Dotted(name, target)
    ensures join == Concatenate ==> s == name + target
  {
    match join
    case Concatenate => name + target
    case WithDot => Dotted(name, target)
  }

  predicate IsPointer(b: byte) { b >= 0xC0 }

  /** The 14-bit offset a pointer at i names. */
  function PointerOffset(d: seq<byte>, i: nat): (off: nat)
    requires i + 1 < |d|
    ensures off < 0x4000
  {
    (d[i] as int % 0x40) * 0x100 + d[i + 1] as int
  }

  /** What the byte at the cursor starts: the end of the name, a pointer, a
      label (its text and the offset behind it), or a read past the end. */
  datatype Step = Fail | End | Jump(off: nat) | Label(text: string, after: nat)

  function StepAt(d: seq<byte>, pos: nat): (s: Step)
    ensures s.End? ==> pos < |d|
    ensures s.Jump? ==> pos + 2 <= |d| && s.off < 0x4000
    ensures s.Label? ==> pos < s.after <= |d| && |s.text| == s.after - pos - 1
  {
    if pos >= |d| then Fail
    else if d[pos] == 0 then End
    else if IsPointer(d[pos]) then
      if pos + 1 >= |d| then Fail else Jump(PointerOffset(d, pos))
    else if pos + 1 + d[pos] as int > |d| then Fail
    else Label(Chars(d[pos + 1..pos + 1 + d[pos] as int]), pos + 1 + d[pos] as int)
  }

  /** `parseDNSName` from offset pos, with accumulated text name and jumps
      pointers followed so far, checking every read against the end of the
      message and failing after too many pointers. */
  function ReadName(join: PointerJoin, d: seq<byte>, pos: nat, jumps: nat, name: string): (r: NameResult)
    requires jumps <= MaxPointerJumps
    ensures r.ok ==> pos < r.next <= |d|
    decreases MaxPointerJumps - jumps, |d| - pos
  {
    match StepAt(d, pos)
    case Fail => NameResult(false, name, pos)
    case End => NameResult(true, name, pos + 1)
    case Jump(off) =>
      if jumps == MaxPointerJumps then NameResult(false, name, pos)
      else
        var t := ReadName(join, d, off, jumps + 1, "");
        if !t.ok then NameResult(false, name, pos)
        else NameResult(true, JoinTarget(join, name, t.name), pos + 2)
    case Label(text, after) => ReadName(join, d, after, jumps, Dotted(name, text))
  }

  /** One label of `parseDNSName`: a dot when the name is not empty, then
      the label's bytes as text; the cursor moves past the label. */
  method AppendLabel(d: seq<byte>, reader: nat, name0: string) returns (name: string, next: nat)
    requires reader < |d| && d[reader] != 0 && !IsPointer(d[reader]) && reader + 1 + d[reader] as int <= |d|
    ensures next == reader + 1 + d[reader] as int
    ensures StepAt(d, reader) == Label(Chars(d[reader + 1..next]), next)
    ensures name == Dotted(name0, Chars(d[reader + 1..next]))
  {
    var len := d[reader] as int;
    next := reader + 1 + len;
    var labelText := Chars(d[reader + 1..next]);
    name := name0;
    if name != "" {
      name := name + ".";
    }
    name := name + labelText;
  }

  /** `parseDNSName`: a loop over the labels that advances the cursor, and
      a recursive call for a pointer whose text is appended as it is. */
  method ParseName(d: seq<byte>, start: nat, jumps: nat) returns (ok: bool, name: string, next: nat)
    requires jumps <= MaxPointerJumps
    ensures NameResult(ok, name, next) == ReadName(Concatenate, d, start, jumps, "")
    decreases MaxPointerJumps - jumps
  {
    name := "";
    var reader := start;
    while reader < |d| && d[reader] != 0
      invariant ReadName(Concatenate, d, reader, jumps, name) == ReadName(Concatenate, d, start, jumps, "")
      decreases |d| - reader
    {
      if d[reader] >= 0xC0 {
        if reader + 1 >= |d| || jumps == MaxPointerJumps {
          return false, name, reader;
        }
        var offset := (d[reader] as int % 0x40) * 0x100 + d[reader + 1] as int;
        assert StepAt(d, reader) == Jump(offset);
        var pointer := reader;
        reader := reader + 2;
        var targetOk, target, targetNext := ParseName(d, offset, jumps + 1);
        if !targetOk {
          PointerFails(Concatenate, d, pointer, jumps, name, offset);
          return false, name, pointer;
        }
        PointerStep(Concatenate, d, pointer, jumps, name, offset);
        name := name + target;
        return true, name, reader;
      } else {
        var len := d[reader] as int;
        if reader + 1 + len > |d| {
          return false, name, reader;
        }
        LabelAdvance(Concatenate, d, reader, jumps, name);
        name, reader := AppendLabel(d, reader, name);
      }
    }
    if reader >= |d| {
      return false, name, reader;
    }
    return true, name, reader + 1;
  }

  /** A label at the cursor: reading goes on behind it with its text added. */
  lemma LabelAdvance(join: PointerJoin, d: seq<byte>, pos: nat, jumps: nat, name: string)
    requires jumps <= MaxPointerJumps && StepAt(d, pos).Label?
    ensures ReadName(join, d, pos, jumps, name)
         == ReadName(join, d, StepAt(d, pos).after, jumps, Dotted(name, StepAt(d, pos).text))
  {
  }

  /** A pointer whose target does not read makes the name fail where the pointer is. */
  lemma PointerFails(join: PointerJoin, d: seq<byte>, pos: nat, jumps: nat, name: string, off: nat)
    requires jumps < MaxPointerJumps && StepAt(d, pos) == Jump(off)
    requires !ReadName(join, d, off, jumps + 1, "").ok
    ensures ReadName(join, d, pos, jumps, name) == NameResult(false, name, pos)
  {
  }

  // ---------------------------------------------------------------- encoded names

  /** A label a sender may write: one to 63 bytes (section 2.3.4 of RFC 1035). */
  predicate ValidLabel(l: seq<byte>)
  {
    1 <= |l| < 64
  }

  predicate ValidLabels(labels: seq<seq<byte>>)
  {
    forall k :: 0 <= k < |labels| ==> ValidLabel(labels[k])
  }

  /** Labels on the wire, each behind its length byte, without the terminator. */
  function EncodeLabels(labels: seq<seq<byte>>): (s: seq<byte>)
    requires ValidLabels(labels)
  {
    if labels == [] then []
    else
      assert ValidLabel(labels[0]);
      [|labels[0]| as byte] + labels[0] + EncodeLabels(labels[1..])
  }

  /** A whole uncompressed name: its labels, then the zero byte. */
  function EncodeName(labels: seq<seq<byte>>): (s: seq<byte>)
    requires ValidLabels(labels)
  {
    EncodeLabels(labels) + [0]
  }

  /** The text of a name: each label's text added with a dot. */
  function DottedAll(name: string, labels: seq<seq<byte>>): string
    decreases |labels|
  {
    if labels == [] then name else DottedAll(Dotted(name, Chars(labels[0])), labels[1..])
  }

  /** The texts of the labels, one per label. */
  function LabelTexts(labels: seq<seq<byte>>): (ts: seq<string>)
    ensures |ts| == |labels|
  {
    if labels == [] then [] else [Chars(labels[0])] + LabelTexts(labels[1..])
  }

  /** The bytes s lie in d from offset pos on. */
  predicate At(d: seq<byte>, pos: nat, s: seq<byte>)
  {
    pos + |s| <= |d| && forall k :: 0 <= k < |s| ==> d[pos + k] == s[k]
  }

  /** Bytes that lie somewhere lie there piece by piece. */
  lemma AtSplit(d: seq<byte>, pos: nat, a: seq<byte>, b: seq<byte>)
    requires At(d, pos, a + b)
    ensures At(d, pos, a) && At(d, pos + |a|, b)
  {
    forall k | 0 <= k < |a| ensures d[pos + k] == a[k] {
      assert (a + b)[k] == a[k];
    }
    forall k | 0 <= k < |b| ensures d[pos + |a| + k] == b[k] {
      assert (a + b)[|a| + k] == b[k];
    }
  }

  /** Bytes that lie somewhere are that slice of the message. */
  lemma AtSlice(d: seq<byte>, pos: nat, s: seq<byte>)
    requires At(d, pos, s)
    ensures d[pos..pos + |s|] == s
  {
    forall k | 0 <= k < |s| ensures d[pos..pos + |s|][k] == s[k] {
      assert d[pos..pos + |s|][k] == d[pos + k];
    }
  }

  /** The first label's bytes come first. */
  lemma EncodeLabelsCons(labels: seq<seq<byte>>)
    requires ValidLabels(labels) && labels != []
    ensures ValidLabel(labels[0]) && ValidLabels(labels[1..])
    ensures EncodeLabels(labels) == [|labels[0]| as byte] + labels[0] + EncodeLabels(labels[1..])
  {
    assert ValidLabel(labels[0]);
  }

  /** A label's length byte and bytes at the cursor make a label step. */
  lemma LabelStepAt(d: seq<byte>, pos: nat, l: seq<byte>)
    requires ValidLabel(l) && At(d, pos, [|l| as byte] + l)
    ensures StepAt(d, pos) == Label(Chars(l), pos + 1 + |l|)
  {
    AtSplit(d, pos, [|l| as byte], l);
    assert d[pos + 0] == [|l| as byte][0];
    AtSlice(d, pos + 1, l);
  }

  /** The first of a run of labels is a label step, and the others lie behind it. */
  lemma LabelsAt(d: seq<byte>, pos: nat, labels: seq<seq<byte>>)
    requires ValidLabels(labels) && labels != [] && At(d, pos, EncodeLabels(labels))
    ensures ValidLabels(labels[1..])
    ensures StepAt(d, pos) == Label(Chars(labels[0]), pos + 1 + |labels[0]|)
    ensures At(d, pos + 1 + |labels[0]|, EncodeLabels(labels[1..]))
    ensures |EncodeLabels(labels)| == 1 + |labels[0]| + |EncodeLabels(labels[1..])|
  {
    var l := labels[0];
    EncodeLabelsCons(labels);
    AtSplit(d, pos, [|l| as byte] + l, EncodeLabels(labels[1..]));
    LabelStepAt(d, pos, l);
  }

  /** A run of labels ending at end is read as a whole, its texts added
      with dots. */
  lemma {:induction false} LabelsThen(join: PointerJoin, d: seq<byte>, pos: nat, labels: seq<seq<byte>>,
                                      jumps: nat, name: string, end: nat)
    requires ValidLabels(labels) && jumps <= MaxPointerJumps && At(d, pos, EncodeLabels(labels))
    requires end == pos + |EncodeLabels(labels)|
    ensures ReadName(join, d, pos, jumps, name) == ReadName(join, d, end, jumps, DottedAll(name, labels))
    decreases |labels|
  {
    if labels != [] {
      var next := pos + 1 + |labels[0]|;
      var name1 := Dotted(name, Chars(labels[0]));
      LabelsAt(d, pos, labels);
      LabelAdvance(join, d, pos, jumps, name);
      LabelsThen(join, d, next, labels[1..], jumps, name1, end);
      assert DottedAll(name, labels) == DottedAll(name1, labels[1..]);
    } else {
      assert EncodeLabels(labels) == [];
      assert end == pos && DottedAll(name, labels) == name;
    }
  }

  /** An uncompressed name reads back as its labels joined by dots, with the
      cursor just past its zero byte. */
  lemma ReadEncodedName(join: PointerJoin, d: seq<byte>, pos: nat, labels: seq<seq<byte>>, jumps: nat)
    requires ValidLabels(labels) && jumps <= MaxPointerJumps && At(d, pos, EncodeName(labels))
    ensures ReadName(join, d, pos, jumps, "") == NameResult(true, DottedAll("", labels), pos + |EncodeName(labels)|)
  {
    var end := pos + |EncodeLabels(labels)|;
    AtSplit(d, pos, EncodeLabels(labels), [0]);
    assert StepAt(d, end) == End by {
      assert d[end + 0] == [0][0];
    }
    assert ReadName(join, d, pos, jumps, "") == ReadName(join, d, end, jumps, DottedAll("", labels)) by {
      LabelsThen(join, d, pos, labels, jumps, "", end);
    }
  }

  /** The bytes of a pointer to off. */
  function Pointer(off: nat): (s: seq<byte>)
    requires off < 0x4000
    ensures |s| == 2
  {
    [0xC0 + off / 0x100, off % 0x100]
  }

  /** A pointer's two bytes name back its offset. */
  lemma PointerAt(d: seq<byte>, p: nat, off: nat)
    requires off < 0x4000 && At(d, p, Pointer(off))
    ensures StepAt(d, p) == Jump(off)
  {
    var h := off / 0x100;
    assert d[p + 0] == Pointer(off)[0] == 0xC0 + h;
    assert d[p + 1] == Pointer(off)[1] == off % 0x100;
    assert (0xC0 + h) % 0x40 == h;
    assert IsPointer(d[p]);
  }

  /** A pointer whose target reads: the target's text joined to the name,
      the cursor behind the pointer. */
  lemma PointerStep(join: PointerJoin, d: seq<byte>, pos: nat, jumps: nat, name: string, off: nat)
    requires jumps < MaxPointerJumps && StepAt(d, pos) == Jump(off)
    requires ReadName(join, d, off, jumps + 1, "").ok
    ensures ReadName(join, d, pos, jumps, name)
         == NameResult(true, JoinTarget(join, name, ReadName(join, d, off, jumps + 1, "").name), pos + 2)
  {
  }

  /** Labels then a pointer: the labels' text, joined to the text found at
      the pointer's target (read with inner pointers followed), with the
      cursor just past the pointer. */
  lemma ReadCompressedName(join: PointerJoin, d: seq<byte>, pos: nat, labels: seq<seq<byte>>, off: nat,
                           jumps: nat, inner: nat, name: string)
    requires ValidLabels(labels) && off < 0x4000 && jumps < MaxPointerJumps && inner == jumps + 1
    requires At(d, pos, EncodeLabels(labels) + Pointer(off)) && ReadName(join, d, off, inner, "").ok
    ensures ReadName(join, d, pos, jumps, name)
         == NameResult(true, JoinTarget(join, DottedAll(name, labels), ReadName(join, d, off, inner, "").name),
                       pos + |EncodeLabels(labels)| + 2)
  {
    var end := pos + |EncodeLabels(labels)|;
    AtSplit(d, pos, EncodeLabels(labels), Pointer(off));
    assert StepAt(d, end) == Jump(off) by {
      PointerAt(d, end, off);
    }
    assert ReadName(join, d, pos, jumps, name) == ReadName(join, d, end, jumps, DottedAll(name, labels)) by {
      LabelsThen(join, d, pos, labels, jumps, name, end);
    }
    PointerStep(join, d, end, jumps, DottedAll(name, labels), off);
  }

  /** Reading with the dot gives the labels joined with '.'. */
  lemma {:induction false} DottedAllJoin(name: string, labels: seq<seq<byte>>)
    requires ValidLabels(labels)
    ensures DottedAll(name, labels) == Dotted(name, Join(LabelTexts(labels), "."))
    decreases |labels|
  {
    if labels != [] {
      var t := Chars(labels[0]);
      assert ValidLabel(labels[0]);
      var rest := LabelTexts(labels[1..]);
      assert LabelTexts(labels) == [t] + rest;
      DottedAllJoin(Dotted(name, t), labels[1..]);
      DottedAssociative(name, t, Join(rest, "."));
      if rest == [] {
        assert Join([t] + rest, ".") == t;
      } else {
        JoinCons(t, rest, ".");
        JoinNonEmpty(rest);
      }
    }
  }

  /** Joined label texts are never empty. */
  lemma JoinNonEmpty(ts: seq<string>)
    requires |ts| >= 1 && ts[0] != ""
    ensures Join(ts, ".") != ""
  {
    if |ts| > 1 {
      assert |Join(ts, ".")| >= |ts[0]|;
    }
  }

  /** So a whole uncompressed name reads as its labels joined by '.'. */
  lemma NameIsJoinedLabels(d: seq<byte>, pos: nat, labels: seq<seq<byte>>)
    requires ValidLabels(labels) && At(d, pos, EncodeName(labels))
    ensures ReadName(WithDot, d, pos, 0, "") == NameResult(true, Join(LabelTexts(labels), "."), pos + |EncodeName(labels)|)
  {
    ReadEncodedName(WithDot, d, pos, labels, 0);
    DottedAllJoin("", labels);
  }

  /** The name as the source builds it differs from the dotted name whenever
      labels come before a pointer to a non-empty name: the dot between
      them is missing (labels "www" then a pointer to "example.com" read as
      "wwwexample.com"). */
  lemma PointerDropsDot(d: seq<byte>, pos: nat, labels: seq<seq<byte>>, off: nat)
    requires ValidLabels(labels) && labels != [] && off < 0x4000 && At(d, pos, EncodeLabels(labels) + Pointer(off))
    requires ReadName(Concatenate, d, off, 1, "") == ReadName(WithDot, d, off, 1, "")
    requires ReadName(WithDot, d, off, 1, "").ok && ReadName(WithDot, d, off, 1, "").name != ""
    ensures var start := Join(LabelTexts(labels), ".");
      var target := ReadName(WithDot, d, off, 1, "").name;
      var next := pos + |EncodeLabels(labels)| + 2;
      ReadName(Concatenate, d, pos, 0, "") == NameResult(true, start + target, next)
      && ReadName(WithDot, d, pos, 0, "") == NameResult(true, start + "." + target, next)
  {
    var start := DottedAll("", labels);
    assert start == Join(LabelTexts(labels), ".") && start != "" by {
      DottedAllJoin("", labels);
      DottedAllStarts(labels);
    }
    var target := ReadName(WithDot, d, off, 1, "").name;
    var next := pos + |EncodeLabels(labels)| + 2;
    assert ReadName(Concatenate, d, pos, 0, "") == NameResult(true, start + target, next) by {
      ReadCompressedName(Concatenate, d, pos, labels, off, 0, 1, "");
    }
    assert ReadName(WithDot, d, pos, 0, "") == NameResult(true, start + "." + target, next) by {
      ReadCompressedName(WithDot, d, pos, labels, off, 0, 1, "");
    }
  }

  /** A name of at least one label is not empty. */
  lemma DottedAllStarts(labels: seq<seq<byte>>)
    requires ValidLabels(labels) && labels != []
    ensures DottedAll("", labels) != ""
  {
    assert ValidLabel(labels[0]);
    assert Dotted("", Chars(labels[0])) == Chars(labels[0]);
    DottedAllKeeps(Chars(labels[0]), labels[1..]);
  }

  /** A name that is not empty stays so as labels are added. */
  lemma {:induction false} DottedAllKeeps(name: string, labels: seq<seq<byte>>)
    requires name != ""
    ensures DottedAll(name, labels) != ""
    decreases |labels|
  {
    if labels != [] {
      DottedAllKeeps(Dotted(name, Chars(labels[0])), labels[1..]);
    }
  }

  /** Without a pointer the two ways of joining agree: the source's reading
      differs only where a pointer follows labels. */
  lemma TargetsAgree(d: seq<byte>, pos: nat, labels: seq<seq<byte>>, jumps: nat)
    requires ValidLabels(labels) && jumps <= MaxPointerJumps && At(d, pos, EncodeName(labels))
    ensures ReadName(Concatenate, d, pos, jumps, "") == ReadName(WithDot, d, pos, jumps, "")
  {
    ReadEncodedName(Concatenate, d, pos, labels, jumps);
    ReadEncodedName(WithDot, d, pos, labels, jumps);
  }

  // ---------------------------------------------------------------- the message

  datatype DnsResult = DnsResult(ok: bool, app: ApplicationLayer)

  function Kind(isQuery: bool): string
  {
    if isQuery then "Standard query" else "Standard response"
  }

  /** QR, the top bit of the flags word, is 0 for a query. */
  function IsQuery(flags: u16): bool
  {
    flags < 0x8000
  }

  /** `DNSParser::parse`: the header fields, then the first question when
      the question count is not zero, its name read as the source reads it,
      with the text behind a pointer appended directly.  Where the source
      would read past the
      end of the message (a malformed name, or no room for the type and
      class), the model stops and reports failure, keeping the fields
      written until then. */
  function Decode(d: seq<byte>, app: ApplicationLayer): (r: DnsResult)
    ensures |d| < HeaderLength ==> r == DnsResult(false, app)
    ensures |d| >= HeaderLength ==>
      r.app.protocol == "DNS" && r.app.dnsId == BE16(d, 0) && (r.app.isDnsQuery <==> BE16(d, 2) < 0x8000)
    ensures |d| >= HeaderLength && BE16(d, 4) == 0 ==>
      r.ok && r.app.dnsName == app.dnsName && r.app.info == Kind(r.app.isDnsQuery) + " " + Hex4(BE16(d, 0))
    ensures |d| >= HeaderLength && BE16(d, 4) != 0 ==>
      var n := ReadName(Concatenate, d, HeaderLength, 0, "");
      (r.ok <==> n.ok && n.next + 4 <= |d|)
      && (r.ok ==> r.app.dnsName == n.name && r.app.dnsType == BE16(d, n.next)
                   && r.app.dnsClass == BE16(d, n.next + 2)
                   && r.app.info == Kind(r.app.isDnsQuery) + " " + Hex4(BE16(d, 0)) + " " + n.name)
    ensures r.app == app.(protocol := r.app.protocol, dnsId := r.app.dnsId, isDnsQuery := r.app.isDnsQuery,
                          dnsName := r.app.dnsName, dnsType := r.app.dnsType, dnsClass := r.app.dnsClass,
                          info := r.app.info)
  {
    if |d| < HeaderLength then DnsResult(false, app)
    else
      var a := Header(d, app);
      if BE16(d, 4) == 0 then DnsResult(true, a.(info := Kind(a.isDnsQuery) + " " + Hex4(a.dnsId)))
      else Question(d, a)
  }

  /** The header fields every message of 12 bytes or more sets. */
  function Header(d: seq<byte>, app: ApplicationLayer): ApplicationLayer
    requires |d| >= HeaderLength
  {
    app.(protocol := "DNS", dnsId := BE16(d, 0), isDnsQuery := IsQuery(BE16(d, 2)))
  }

  /** The first question: its name, then type and class behind it. */
  function Question(d: seq<byte>, a: ApplicationLayer): DnsResult
  {
    var n := ReadName(Concatenate, d, HeaderLength, 0, "");
    if !n.ok then DnsResult(false, a)
    else
      var b := a.(dnsName := n.name);
      if n.next + 4 > |d| then DnsResult(false, b)
      else
        DnsResult(true, b.(dnsType := BE16(d, n.next), dnsClass := BE16(d, n.next + 2),
                           info := Kind(a.isDnsQuery) + " " + Hex4(a.dnsId) + " " + n.name))
  }

  /** Bit 15 of the flags word is clear exactly below 0x8000. */
  lemma QrBit(flags: u16)
    ensures ((flags / 0x8000) % 2 == 0) == IsQuery(flags)
  {
  }

  /** `DNSParser::parse` step by step. */
  method Parse(app0: ApplicationLayer, d: seq<byte>) returns (ok: bool, app: ApplicationLayer)
    ensures DnsResult(ok, app) == Decode(d, app0)
  {
    app := app0;
    if |d| < HeaderLength {
      return false, app;
    }
    app := app.(protocol := "DNS");
    app := app.(dnsId := BE16(d, 0));
    var flags := BE16(d, 2);
    var questions := BE16(d, 4);
    app := app.(isDnsQuery := (flags / 0x8000) % 2 == 0);
    QrBit(flags);
    assert app == Header(d, app0);
    if questions > 0 {
      ghost var a := app;
      var nameOk, name, reader := ParseName(d, HeaderLength, 0);
      if !nameOk {
        return false, app;
      }
      app := app.(dnsName := name);
      if reader + 4 > |d| {
        return false, app;
      }
      app := app.(dnsType := BE16(d, reader), dnsClass := BE16(d, reader + 2));
      app := app.(info := Kind(app.isDnsQuery) + " " + Hex4(app.dnsId) + " " + app.dnsName);
      assert DnsResult(true, app) == Question(d, a);
    } else {
      app := app.(info := Kind(app.isDnsQuery) + " " + Hex4(app.dnsId));
    }
    return true, app;
  }

  /** A field written big-endian at p reads back. */
  lemma AtBE16(d: seq<byte>, p: nat, v: u16)
    requires At(d, p, Be16Bytes(v))
    ensures p + 2 <= |d| && BE16(d, p) == v
  {
    assert d[p + 0] == Be16Bytes(v)[0] && d[p + 1] == Be16Bytes(v)[1];
  }

  /** A query whose first question is an uncompressed name, then its type
      and class, decodes to that name, type and class. */
  lemma QueryRoundTrip(d: seq<byte>, labels: seq<seq<byte>>, qtype: u16, qclass: u16, app: ApplicationLayer)
    requires |d| >= HeaderLength && BE16(d, 4) != 0 && ValidLabels(labels)
    requires At(d, HeaderLength, EncodeName(labels) + Be16Bytes(qtype) + Be16Bytes(qclass))
    ensures var r := Decode(d, app);
      r.ok && r.app.dnsName == Join(LabelTexts(labels), ".") && r.app.dnsType == qtype && r.app.dnsClass == qclass
  {
    var next := HeaderLength + |EncodeName(labels)|;
    AtSplit(d, HeaderLength, EncodeName(labels) + Be16Bytes(qtype), Be16Bytes(qclass));
    AtSplit(d, HeaderLength, EncodeName(labels), Be16Bytes(qtype));
    assert HeaderLength + |EncodeName(labels) + Be16Bytes(qtype)| == next + 2;
    NameIsJoinedLabels(d, HeaderLength, labels);
    TargetsAgree(d, HeaderLength, labels, 0);
    AtBE16(d, next, qtype);
    AtBE16(d, next + 2, qclass);
  }

  /** A query whose first question is labels, then a pointer, then type
      and class: the stored name is the labels' text with the pointed-to
      name appended directly, and the type and class are read behind the
      pointer. */
  lemma CompressedQueryRoundTrip(d: seq<byte>, labels: seq<seq<byte>>, off: nat, qtype: u16, qclass: u16,
                                 app: ApplicationLayer)
    requires |d| >= HeaderLength && BE16(d, 4) != 0 && ValidLabels(labels) && off < 0x4000
    requires At(d, HeaderLength, EncodeLabels(labels) + Pointer(off) + Be16Bytes(qtype) + Be16Bytes(qclass))
    requires ReadName(Concatenate, d, off, 1, "").ok
    ensures var r := Decode(d, app);
      r.ok && r.app.dnsName == Join(LabelTexts(labels), ".") + ReadName(Concatenate, d, off, 1, "").name
      && r.app.dnsType == qtype && r.app.dnsClass == qclass
  {
    var name := EncodeLabels(labels) + Pointer(off);
    var next := HeaderLength + |name|;
    AtSplit(d, HeaderLength, name + Be16Bytes(qtype), Be16Bytes(qclass));
    AtSplit(d, HeaderLength, name, Be16Bytes(qtype));
    assert HeaderLength + |name + Be16Bytes(qtype)| == next + 2;
    ReadCompressedName(Concatenate, d, HeaderLength, labels, off, 0, 1, "");
    DottedAllJoin("", labels);
    AtBE16(d, next, qtype);
    AtBE16(d, next + 2, qclass);
  }
}
