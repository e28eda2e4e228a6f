/** The capture engine: the running and paused flags the user interface
    sets, and the loop that reads frames from the capture handle, dissects
    them, numbers the accepted ones and hands them on in batches of at
    most 50, or sooner once 100 milliseconds have passed since the last
    batch.  The capture handle, the other thread's flag writes and the two
    clocks reach the loop as a sequence of turns: each turn records what
    the loop observed in one pass. */
module Capture {
  import opened Wrappers
  import opened Bytes
  import opened PacketData
  import Dissector

  const BatchSize: nat := 50
  const FlushTimeoutMs: int := 100

  /** One pass of the capture loop as the loop thread observes it: whether
      the running flag held at the loop head, what `pcap_next_ex` returned
      (its result code, the captured bytes and the frame's length on the
      wire), whether the running flag still held after the pause wait, the
      real-time clock the dissector stamps the packet with, and the steady
      clock in whole milliseconds read for the flush test. */
  datatype Turn = Turn(runningAtHead: bool, res: int, data: seq<byte>, wireLength: u32,
                       runningAfterWait: bool, stamp: Timespec, nowMs: int)

  /** Why a capture ended before reading anything. */
  datatype CaptureError = OpenFailed | FilterFailed

  /** The loop's local state: the packets waiting to be sent, the batches
      sent so far, the packet counter and the time of the last flush. */
  datatype LoopState = LoopState(buffer: seq<PacketRecord>, batches: seq<seq<PacketRecord>>,
                                 counter: int, lastFlushMs: int)

  /** The loop goes on past this turn's read: the running flag held at the
      head and after the pause wait, and the read did not report an error
      or the end of the capture. */
  predicate Continues(t: Turn)
  {
    t.runningAtHead && t.res >= 0 && t.runningAfterWait
  }

  /** The 32-bit packet number given to the counter value c. */
  function IdOf(c: int): u32
  {
    (c % 0x1_0000_0000) as u32
  }

  /** The frame a turn yields, before numbering: only a read that delivered
      a frame (result 1) the dissector accepts yields one, carrying the
      capture header's two lengths. */
  function Frame(t: Turn): (r: Option<PacketRecord>)
    ensures r.Some? <==> t.res == 1 && Dissector.Dissect(NewRecord, t.data, t.stamp).ok
    ensures r.Some? ==>
      (r.value.wireLength == t.wireLength && r.value.raw == t.data && r.value.timestamp == t.stamp)
  {
    if t.res != 1 then None
    else
      var d := Dissector.Dissect(NewRecord, t.data, t.stamp);
      if !d.ok then None
      else Some(d.record.(capLength := (|t.data| % 0x1_0000_0000) as u32, wireLength := t.wireLength))
  }

  /** The record r numbered after the counter value c. */
  function Number(r: PacketRecord, c: int): PacketRecord
  {
    r.(packetId := IdOf(c + 1))
  }

  /** What the loop makes of a turn: whether it goes on past the turn, the
      frame the turn yields and the steady clock it reads. */
  datatype Read = Read(goesOn: bool, frame: Option<PacketRecord>, nowMs: int)

  function ReadOf(t: Turn): Read
  {
    Read(Continues(t), Frame(t), t.nowMs)
  }

  /** The reads of a sequence of turns, one for one. */
  function Reads(turns: seq<Turn>): (rs: seq<Read>)
    ensures |rs| == |turns|
    ensures forall i :: 0 <= i < |turns| ==> rs[i] == ReadOf(turns[i])
  {
    if turns == [] then [] else [ReadOf(turns[0])] + Reads(turns[1..])
  }

  /** The state after a pass's read: the frame, if any, numbered, appended
      and counted. */
  function Appended(s: LoopState, rd: Read): LoopState
  {
    match rd.frame
    case Some(r) => s.(buffer := s.buffer + [Number(r, s.counter)], counter := s.counter + 1)
    case None => s
  }

  /** The flush test: something is waiting, and either a full batch is
      waiting or the timeout has passed since the last flush. */
  predicate FlushDue(s: LoopState, nowMs: int)
  {
    s.buffer != [] && (|s.buffer| >= BatchSize || nowMs - s.lastFlushMs >= FlushTimeoutMs)
  }

  /** One pass of the loop body: a batch is sent only when something is
      waiting and it is full or the timeout has passed, and sending empties
      the buffer and restarts the timeout. */
  function Step(s: LoopState, rd: Read): (n: LoopState)
    ensures |n.batches| == |s.batches| || |n.batches| == |s.batches| + 1
    ensures n.batches[..|s.batches|] == s.batches
    ensures |n.batches| == |s.batches| + 1 ==>
      var b := n.batches[|s.batches|];
      b != [] && (|b| >= BatchSize || rd.nowMs - s.lastFlushMs >= FlushTimeoutMs)
      && n.buffer == [] && n.lastFlushMs == rd.nowMs
    ensures n.batches == s.batches ==>
      n.lastFlushMs == s.lastFlushMs && |n.buffer| >= |s.buffer| && n.buffer[..|s.buffer|] == s.buffer
  {
    var a := Appended(s, rd);
    if FlushDue(a, rd.nowMs) then LoopState([], a.batches + [a.buffer], a.counter, rd.nowMs) else a
  }

  /** The capture loop over its reads: it stops at the first read it does
      not go on past, or when the reads run out. */
  function Loop(s: LoopState, rs: seq<Read>): LoopState
    decreases |rs|
  {
    if rs == [] || !rs[0].goesOn then s else Loop(Step(s, rs[0]), rs[1..])
  }

  /** The batches after the loop: those sent in the loop and then, if any
      packet is still waiting, one last batch with the rest. */
  function Final(s: LoopState): seq<seq<PacketRecord>>
  {
    s.batches + (if s.buffer == [] then [] else [s.buffer])
  }

  /** The start of a capture: nothing waiting or sent. */
  function Start(counter: int, startMs: int): LoopState
  {
    LoopState([], [], counter, startMs)
  }

  /** Everything sent by a capture run over the turns. */
  function Run(turns: seq<Turn>, counter: int, startMs: int): seq<seq<PacketRecord>>
  {
    Final(Loop(Start(counter, startMs), Reads(turns)))
  }

  /** The packets an optional frame stands for, numbered after c. */
  function Yield(o: Option<PacketRecord>, c: int): seq<PacketRecord>
  {
    match o
    case Some(r) => [Number(r, c)]
    case None => []
  }

  /** The packets a capture accepts, in read order, independently of how
      they are batched: one per read the loop goes on past that yields a
      frame, numbered in turn. */
  function Accepted(rs: seq<Read>, counter: int): seq<PacketRecord>
    decreases |rs|
  {
    if rs == [] || !rs[0].goesOn then []
    else
      var y := Yield(rs[0].frame, counter);
      y + Accepted(rs[1..], counter + |y|)
  }

  /** The batches laid end to end. */
  function Flatten(bs: seq<seq<PacketRecord>>): seq<PacketRecord>
  {
    if bs == [] then [] else Flatten(bs[..|bs| - 1]) + bs[|bs| - 1]
  }

  /** Every batch holds between one and BatchSize packets. */
  predicate WellSized(bs: seq<seq<PacketRecord>>)
  {
    forall i :: 0 <= i < |bs| ==> 1 <= |bs[i]| <= BatchSize
  }

  lemma FlattenAppend(bs: seq<seq<PacketRecord>>, b: seq<PacketRecord>)
    ensures Flatten(bs + [b]) == Flatten(bs) + b
  {
    assert (bs + [b])[..|bs|] == bs;
  }

  /** A pass keeps every packet: what is sent plus what waits grows by
      exactly the packet the read yields, and the counter by its count. */
  lemma StepKeepsPackets(s: LoopState, rd: Read)
    ensures var n := Step(s, rd);
      var y := Yield(rd.frame, s.counter);
      Flatten(n.batches) + n.buffer == Flatten(s.batches) + s.buffer + y
      && n.counter == s.counter + |y|
  {
    var a := Appended(s, rd);
    if FlushDue(a, rd.nowMs) {
      FlattenAppend(a.batches, a.buffer);
    }
  }

  lemma Regroup(before: seq<PacketRecord>, mid: seq<PacketRecord>, after: seq<PacketRecord>,
                y: seq<PacketRecord>, rest: seq<PacketRecord>)
    requires mid == before + y && after == mid + rest
    ensures after == before + (y + rest)
  {
  }

  /** The loop loses, duplicates and reorders nothing: the packets sent and
      still waiting are those waiting before plus the accepted ones, and
      the counter has advanced once per accepted packet. */
  lemma {:induction false} LoopKeepsPackets(s: LoopState, rs: seq<Read>)
    ensures var n := Loop(s, rs);
      Flatten(n.batches) + n.buffer == Flatten(s.batches) + s.buffer + Accepted(rs, s.counter)
      && n.counter == s.counter + |Accepted(rs, s.counter)|
    decreases |rs|
  {
    if rs == [] || !rs[0].goesOn {
    } else {
      var n1 := Step(s, rs[0]);
      var y := Yield(rs[0].frame, s.counter);
      var rest := Accepted(rs[1..], n1.counter);
      var n := Loop(n1, rs[1..]);
      StepKeepsPackets(s, rs[0]);
      LoopKeepsPackets(n1, rs[1..]);
      Regroup(Flatten(s.batches) + s.buffer, Flatten(n1.batches) + n1.buffer, Flatten(n.batches) + n.buffer, y, rest);
    }
  }

  /** The batches of a whole run, laid end to end, are exactly the accepted
      packets in read order: the final flush sends the remainder. */
  lemma RunSendsEveryPacket(turns: seq<Turn>, counter: int, startMs: int)
    ensures Flatten(Run(turns, counter, startMs)) == Accepted(Reads(turns), counter)
  {
    var n := Loop(Start(counter, startMs), Reads(turns));
    LoopKeepsPackets(Start(counter, startMs), Reads(turns));
    assert Flatten(n.batches) + n.buffer == Accepted(Reads(turns), counter);
    if n.buffer != [] {
      FlattenAppend(n.batches, n.buffer);
    } else {
      assert Final(n) == n.batches;
    }
  }

  /** The records carry the numbers after c, consecutively. */
  predicate NumberedFrom(rs: seq<PacketRecord>, c: int)
  {
    forall k :: 0 <= k < |rs| ==> rs[k].packetId == IdOf(c + k + 1)
  }

  lemma NumberedCons(y: seq<PacketRecord>, rest: seq<PacketRecord>, c: int)
    requires |y| <= 1 && (|y| == 1 ==> y[0].packetId == IdOf(c + 1))
    requires NumberedFrom(rest, c + |y|)
    ensures NumberedFrom(y + rest, c)
  {
    forall k | 0 <= k < |y + rest|
      ensures (y + rest)[k].packetId == IdOf(c + k + 1)
    {
      if k >= |y| {
        assert (y + rest)[k] == rest[k - |y|];
      }
    }
  }

  /** Accepted packets are numbered consecutively from the counter's value
      plus one, in read order (modulo 2^32, the width of the number). */
  lemma {:induction false} AcceptedNumbering(rs: seq<Read>, counter: int)
    ensures NumberedFrom(Accepted(rs, counter), counter)
    decreases |rs|
  {
    if rs == [] || !rs[0].goesOn {
    } else {
      var y := Yield(rs[0].frame, counter);
      AcceptedNumbering(rs[1..], counter + |y|);
      NumberedCons(y, Accepted(rs[1..], counter + |y|), counter);
    }
  }

  /** The packets a run sends, in order, are numbered 1, 2, 3, ... after
      the counter's value at the start. */
  lemma RunNumbering(turns: seq<Turn>, counter: int, startMs: int)
    ensures NumberedFrom(Flatten(Run(turns, counter, startMs)), counter)
  {
    RunSendsEveryPacket(turns, counter, startMs);
    AcceptedNumbering(Reads(turns), counter);
  }

  /** A pass keeps the batches well sized and leaves fewer than a full
      batch waiting. */
  lemma StepKeepsSizes(s: LoopState, rd: Read)
    requires WellSized(s.batches) && |s.buffer| < BatchSize
    ensures WellSized(Step(s, rd).batches) && |Step(s, rd).buffer| < BatchSize
  {
  }

  lemma {:induction false} LoopKeepsSizes(s: LoopState, rs: seq<Read>)
    requires WellSized(s.batches) && |s.buffer| < BatchSize
    ensures WellSized(Loop(s, rs).batches) && |Loop(s, rs).buffer| < BatchSize
    decreases |rs|
  {
    if rs == [] || !rs[0].goesOn {
    } else {
      StepKeepsSizes(s, rs[0]);
      LoopKeepsSizes(Step(s, rs[0]), rs[1..]);
    }
  }

  /** Every batch a run sends, the last one included, holds between one and
      BatchSize packets. */
  lemma RunBatchesWellSized(turns: seq<Turn>, counter: int, startMs: int)
    ensures WellSized(Run(turns, counter, startMs))
  {
    LoopKeepsSizes(Start(counter, startMs), Reads(turns));
  }

  /** A frame read while a stop is pending — the running flag cleared
      during the pause wait — ends the loop and is neither numbered nor
      sent, and neither is anything after it. */
  lemma StopDropsPendingRead(s: LoopState, t: Turn, rest: seq<Turn>)
    requires t.runningAtHead && t.res >= 0 && !t.runningAfterWait
    ensures Loop(s, Reads([t] + rest)) == s
    ensures Accepted(Reads([t] + rest), s.counter) == []
  {
  }

  /** The reads up to a stop decide the loop: what follows is never read. */
  lemma {:induction false} LoopEndsAtStop(rs: seq<Read>, i: nat, s: LoopState)
    requires i < |rs| && !rs[i].goesOn
    ensures Loop(s, rs) == Loop(s, rs[..i])
    decreases i
  {
    if i == 0 {
    } else if !rs[0].goesOn {
    } else {
      assert rs[1..][..i - 1] == rs[..i][1..];
      LoopEndsAtStop(rs[1..], i - 1, Step(s, rs[0]));
    }
  }

  /** A run's batches depend only on the turns before the first one the
      loop does not go on past. */
  lemma RunEndsAtStop(turns: seq<Turn>, i: nat, counter: int, startMs: int)
    requires i < |turns| && !Continues(turns[i])
    ensures Run(turns, counter, startMs) == Run(turns[..i], counter, startMs)
  {
    assert Reads(turns)[..i] == Reads(turns[..i]);
    LoopEndsAtStop(Reads(turns), i, Start(counter, startMs));
  }

  /** `CaptureEngine`: the flags the user interface thread sets, the packet
      counter, the settings and whether the capture handle is open. */
  class CaptureEngine {
    var isRunning: bool
    var isPaused: bool
    var packetCounter: int
    var interfaceName: string
    var captureFilter: string
    var handleOpen: bool

    /** A new engine is stopped, not paused, and has counted nothing. */
    constructor ()
      ensures !isRunning && !isPaused && packetCounter == 0 && !handleOpen
      ensures interfaceName == [] && captureFilter == []
    {
      isRunning, isPaused, packetCounter := false, false, 0;
      interfaceName, captureFilter, handleOpen := [], [], false;
    }

    method SetInterface(name: string)
      modifies this
      ensures interfaceName == name
      ensures isRunning == old(isRunning) && isPaused == old(isPaused) && packetCounter == old(packetCounter)
      ensures captureFilter == old(captureFilter) && handleOpen == old(handleOpen)
    {
      interfaceName := name;
    }

    method SetCaptureFilter(filter: string)
      modifies this
      ensures captureFilter == filter
      ensures isRunning == old(isRunning) && isPaused == old(isPaused) && packetCounter == old(packetCounter)
      ensures interfaceName == old(interfaceName) && handleOpen == old(handleOpen)
    {
      captureFilter := filter;
    }

    /** Starting restarts: a running capture is stopped first, and the new
        one runs unpaused with the counter back at zero. */
    method StartCapture()
      modifies this
      ensures isRunning && !isPaused && packetCounter == 0
      ensures interfaceName == old(interfaceName) && captureFilter == old(captureFilter)
      ensures handleOpen == old(handleOpen)
    {
      if isRunning {
        StopCapture();
      }
      isRunning := true;
      isPaused := false;
      packetCounter := 0;
    }

    /** Stopping clears the running flag and nothing else. */
    method StopCapture()
      modifies this
      ensures !isRunning
      ensures isPaused == old(isPaused) && packetCounter == old(packetCounter)
      ensures interfaceName == old(interfaceName) && captureFilter == old(captureFilter)
      ensures handleOpen == old(handleOpen)
    {
      isRunning := false;
    }

    method PauseCapture()
      modifies this
      ensures isPaused
      ensures isRunning == old(isRunning) && packetCounter == old(packetCounter)
      ensures interfaceName == old(interfaceName) && captureFilter == old(captureFilter)
      ensures handleOpen == old(handleOpen)
    {
      isPaused := true;
    }

    method ResumeCapture()
      modifies this
      ensures !isPaused
      ensures isRunning == old(isRunning) && packetCounter == old(packetCounter)
      ensures interfaceName == old(interfaceName) && captureFilter == old(captureFilter)
      ensures handleOpen == old(handleOpen)
    {
      isPaused := false;
    }

    /** `setupPcap`: any open handle is closed and a new one didOpen; didOpen
        says whether the capture library managed to. */
    method SetupPcap(didOpen: bool)
      modifies this
      ensures handleOpen == didOpen
      ensures isRunning == old(isRunning) && isPaused == old(isPaused) && packetCounter == old(packetCounter)
      ensures interfaceName == old(interfaceName) && captureFilter == old(captureFilter)
    {
      ClosePcap();
      handleOpen := didOpen;
    }

    method ClosePcap()
      modifies this
      ensures !handleOpen
      ensures isRunning == old(isRunning) && isPaused == old(isPaused) && packetCounter == old(packetCounter)
      ensures interfaceName == old(interfaceName) && captureFilter == old(captureFilter)
    {
      if handleOpen {
        handleOpen := false;
      }
    }

    /** `applyCaptureFilter`: an empty filter, or no open handle, passes;
        otherwise the filter must both compile and be installed. */
    method ApplyCaptureFilter(compiles: bool, installs: bool) returns (ok: bool)
      ensures ok <==> captureFilter == [] || !handleOpen || (compiles && installs)
    {
      if captureFilter == [] || !handleOpen {
        return true;
      }
      if !compiles {
        return false;
      }
      if !installs {
        return false;
      }
      return true;
    }

    /** The dissector run on a fresh packet with a turn's frame. */
    static method DissectFrame(t: Turn) returns (ok: bool, record: PacketRecord)
      ensures Dissector.Dissection(ok, record) == Dissector.Dissect(NewRecord, t.data, t.stamp)
    {
      var pkt := new Packet();
      ok := Dissector.Parse(pkt, t.data, t.stamp);
      record := pkt.Snapshot();
    }

    /** One read's packet: a frame is dissected into a fresh record, and an
        accepted one takes the capture header's lengths and the next
        number from the counter. */
    method Accept(t: Turn) returns (r: Option<PacketRecord>)
      modifies this
      ensures Yield(Frame(t), old(packetCounter)) == (match r case Some(p) => [p] case None => [])
      ensures packetCounter == old(packetCounter) + (if r.Some? then 1 else 0)
      ensures isRunning == old(isRunning) && isPaused == old(isPaused) && handleOpen == old(handleOpen)
      ensures interfaceName == old(interfaceName) && captureFilter == old(captureFilter)
    {
      r := None;
      if t.res == 1 {
        var ok, pkt := DissectFrame(t);
        if ok {
          packetCounter := packetCounter + 1;
          r := Some(pkt.(capLength := (|t.data| % 0x1_0000_0000) as u32,
                         wireLength := t.wireLength, packetId := IdOf(packetCounter)));
        }
      }
    }

    /** One pass of the loop body after the pause wait: read, append an
        accepted packet, and flush when the flush test holds. */
    method Pass(t: Turn, buffer0: seq<PacketRecord>, sent0: seq<seq<PacketRecord>>, lastFlush0: int)
      returns (buffer: seq<PacketRecord>, sent: seq<seq<PacketRecord>>, lastFlushMs: int)
      modifies this
      ensures LoopState(buffer, sent, packetCounter, lastFlushMs)
        == Step(LoopState(buffer0, sent0, old(packetCounter), lastFlush0), ReadOf(t))
      ensures isRunning == old(isRunning) && isPaused == old(isPaused) && handleOpen == old(handleOpen)
      ensures interfaceName == old(interfaceName) && captureFilter == old(captureFilter)
    {
      buffer, sent, lastFlushMs := buffer0, sent0, lastFlush0;
      var r := Accept(t);
      if r.Some? {
        buffer := buffer + [r.value];
      }
      if buffer != [] && (|buffer| >= BatchSize || t.nowMs - lastFlushMs >= FlushTimeoutMs) {
        sent := sent + [buffer];
        buffer := [];
        lastFlushMs := t.nowMs;
      }
    }

    /** `captureLoop`: open the handle and install the filter, failing with
        no batches if either fails; otherwise read turn by turn, sending a
        batch whenever the flush test holds and the remainder at the end,
        and close the handle.  didOpen, compiles and installs are the
        capture library's answers; startMs is the steady clock at the start. */
    method CaptureLoop(turns: seq<Turn>, didOpen: bool, compiles: bool, installs: bool, startMs: int)
      returns (sent: seq<seq<PacketRecord>>, error: Option<CaptureError>)
      modifies this
      ensures !didOpen ==> error == Some(OpenFailed) && sent == [] && packetCounter == old(packetCounter)
      ensures didOpen && old(captureFilter) != [] && !(compiles && installs) ==>
        error == Some(FilterFailed) && sent == [] && packetCounter == old(packetCounter) && !handleOpen
      ensures didOpen && (old(captureFilter) == [] || (compiles && installs)) ==>
        error == None && !handleOpen
        && sent == Run(turns, old(packetCounter), startMs)
        && packetCounter == Loop(Start(old(packetCounter), startMs), Reads(turns)).counter
      ensures isRunning == old(isRunning) && isPaused == old(isPaused)
      ensures interfaceName == old(interfaceName) && captureFilter == old(captureFilter)
    {
      sent, error := [], None;
      SetupPcap(didOpen);
      if !handleOpen {
        return [], Some(OpenFailed);
      }
      var filterOk := ApplyCaptureFilter(compiles, installs);
      if !filterOk {
        ClosePcap();
        return [], Some(FilterFailed);
      }
      var buffer: seq<PacketRecord> := [];
      var lastFlushMs := startMs;
      ghost var start := Start(packetCounter, startMs);
      var i := 0;
      assert turns[0..] == turns;
      while i < |turns| && turns[i].runningAtHead && turns[i].res >= 0
        invariant 0 <= i <= |turns|
        invariant Loop(start, Reads(turns)) == Loop(LoopState(buffer, sent, packetCounter, lastFlushMs), Reads(turns[i..]))
        invariant isRunning == old(isRunning) && isPaused == old(isPaused) && handleOpen
        invariant interfaceName == old(interfaceName) && captureFilter == old(captureFilter)
        decreases |turns| - i
      {
        var t := turns[i];
        if !t.runningAfterWait {
          break;
        }
        buffer, sent, lastFlushMs := Pass(t, buffer, sent, lastFlushMs);
        assert turns[i..][1..] == turns[i + 1..];
        i := i + 1;
      }
      if buffer != [] {
        sent := sent + [buffer];
      }
      ClosePcap();
    }
  }
}
