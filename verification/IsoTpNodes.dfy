/** The two programs of the part-number transfer: the daemon object that handles one frame at
    a time, and the client's read and write commands run against it over an in-order lossless
    channel. Each is proved equal to the machine of module IsoTp. */
module IsoTpNodes {
  import opened Basics
  import opened IsoTp
  import opened IsoTpTheorems

  class CanDaemon {
    var receiving: bool
    var sending: bool
    var rxBuffer: seq<byte>
    var txBuffer: seq<byte>
    var sequenceNumber: nat
    var totalLength: byte
    var responseId: nat
    const hwpartnum: array<byte>

    ghost predicate Valid()
      reads this, hwpartnum
    {
      hwpartnum.Length == 17 && WellFormed(State())
    }

    function State(): Daemon
      reads this, hwpartnum
    {
      Daemon(Link(receiving, sending, rxBuffer, txBuffer, sequenceNumber, totalLength, responseId), hwpartnum[..])
    }

    constructor ()
      ensures Valid() && fresh(hwpartnum)
      ensures !receiving && !sending && hwpartnum[..] == seq(16, _ => 48) + [0]
    {
      receiving, sending, rxBuffer, txBuffer := false, false, [], [];
      sequenceNumber, totalLength, responseId := 0, 0, 0;
      hwpartnum := new byte[17](i => if i < 16 then 48 else 0);
    }

    /** set_hwpartnum: refuses long strings, otherwise replaces the whole buffer. */
    method SetHwPartNum(partnum: seq<byte>) returns (ok: bool)
      requires Valid()
      modifies hwpartnum
      ensures Valid()
      ensures ok <==> |partnum| <= 16
      ensures ok ==> hwpartnum[..] == Stored(partnum)
      ensures !ok ==> hwpartnum[..] == old(hwpartnum[..])
    {
      if |partnum| > 16 {
        return false;
      }
      forall i | 0 <= i < 17 {
        hwpartnum[i] := 0;
      }
      var i := 0;
      while i < |partnum| && partnum[i] != 0
        invariant 0 <= i <= |partnum|
        invariant hwpartnum[..i] == partnum[..i]
        invariant forall k :: 0 <= k < i ==> partnum[k] != 0
        invariant forall k :: i <= k < 17 ==> hwpartnum[k] == 0
      {
        hwpartnum[i] := partnum[i];
        i := i + 1;
      }
      CStringEndsAt(partnum, i);
      assert hwpartnum[..] == Stored(partnum);
      return true;
    }

    /** get_hwpartnum, zero-padded to 16 bytes. */
    method GetPadded() returns (bytes: seq<byte>)
      requires Valid()
      ensures bytes == Pad16(CString(hwpartnum[..16]))
    {
      var i := 0;
      bytes := [];
      while i < 16 && hwpartnum[i] != 0
        invariant 0 <= i <= 16
        invariant bytes == hwpartnum[..i] && 0 !in bytes
      {
        bytes := bytes + [hwpartnum[i]];
        i := i + 1;
      }
      CStringEndsAt(hwpartnum[..16], i);
      assert hwpartnum[..16][..i] == hwpartnum[..i];
      bytes := bytes + seq(16 - i, _ => 0);
    }

    /** The consecutive frame the daemon expected. */
    method AcceptConsecutive(f: CanFrame) returns (sent: seq<CanFrame>)
      requires Valid() && receiving && f.data[0] == 0x20 + sequenceNumber
      modifies this, hwpartnum
      ensures Valid() && (State(), sent) == AfterConsecutive(old(State()), f)
    {
      var i := 1;
      while i < 8 && |rxBuffer| < totalLength
        invariant 1 <= i <= 8
        invariant rxBuffer == old(rxBuffer) + f.data[1..i]
        invariant i > 1 ==> |rxBuffer| <= totalLength
        invariant receiving && sequenceNumber == old(sequenceNumber) && totalLength == old(totalLength)
        invariant txBuffer == old(txBuffer) && sending == old(sending) && responseId == old(responseId)
        invariant hwpartnum[..] == old(hwpartnum[..])
      {
        rxBuffer := rxBuffer + [f.data[i]];
        i := i + 1;
      }
      assert rxBuffer == Filled(old(rxBuffer), f.data, totalLength);
      sequenceNumber := sequenceNumber + 1;
      if sequenceNumber > 0x0F { sequenceNumber := 0; }
      sent := [];
      if |rxBuffer| >= totalLength {
        if |rxBuffer| >= 19 {
          var partnum := Extract(rxBuffer[3..19]);
          var ok := SetHwPartNum(partnum);
          if ok {
            sent := [POSITIVE_REPLY];
          }
        }
        receiving := false;
        rxBuffer := [];
      }
    }

    /** The reply to a flow control frame: all remaining consecutive frames. */
    method SendConsecutiveFrames() returns (sent: seq<CanFrame>)
      requires Valid() && sending
      modifies this
      ensures Valid()
      ensures sent == ConsecutiveFrames(old(responseId), old(txBuffer), 6, old(sequenceNumber))
      ensures State() == old(State()).(link := old(State()).link.(sending := false, tx := [],
        sequence := SequenceAfter(old(txBuffer), 6, old(sequenceNumber))))
    {
      ghost var goal := ConsecutiveFrames(responseId, txBuffer, 6, sequenceNumber);
      ghost var goalSequence := SequenceAfter(txBuffer, 6, sequenceNumber);
      var bytesSent: nat := 6;
      sent := [];
      while bytesSent < |txBuffer|
        invariant receiving == old(receiving) && sending && rxBuffer == old(rxBuffer) && txBuffer == old(txBuffer)
        invariant totalLength == old(totalLength) && responseId == old(responseId) && sequenceNumber < 16
        invariant sent + ConsecutiveFrames(responseId, txBuffer, bytesSent, sequenceNumber) == goal
        invariant SequenceAfter(txBuffer, bytesSent, sequenceNumber) == goalSequence
        decreases |txBuffer| - bytesSent
      {
        var remaining := |txBuffer| - bytesSent;
        var toSend := if remaining < 7 then remaining else 7;
        var frame := BuildConsecutive(sequenceNumber, txBuffer[bytesSent..bytesSent + toSend]);
        ghost var rest := ConsecutiveFrames(responseId, txBuffer, bytesSent + toSend, NextSequence(sequenceNumber));
        Regroup(sent, CanFrame(responseId, 8, frame), rest);
        sent := sent + [CanFrame(responseId, 8, frame)];
        bytesSent := bytesSent + toSend;
        sequenceNumber := sequenceNumber + 1;
        if sequenceNumber > 0x0F { sequenceNumber := 0; }
      }
      sending := false;
      txBuffer := [];
    }

    /** process_can_command. patternOk is the answer of the pattern backend, if it is asked. */
    method ProcessCanCommand(f: CanFrame, patternOk: bool) returns (sent: seq<CanFrame>)
      requires Valid()
      modifies this, hwpartnum
      ensures Valid() && (State(), sent) == Step(old(State()), f, patternOk)
    {
      sent := [];
      if f.dlc >= 4 && f.data[0] == 0x04 {
        sent := SingleReply(f, patternOk);
      } else if f.dlc >= 4 && f.data[0] == 0x03 && f.data[1] == 0x22 && f.data[2] == 0xFD && f.data[3] == 0xBD {
        var bytes := GetPadded();
        assert hwpartnum[..][..16] == hwpartnum[..16];
        sending, responseId, sequenceNumber := true, RESPONSE_ID, 1;
        txBuffer := [0x62, 0xFD, 0xBD] + bytes;
        sent := [CanFrame(RESPONSE_ID, 8, [0x10, 0x13, 0x62, 0xFD, 0xBD, bytes[0], bytes[1], bytes[2]])];
        assert |txBuffer| == 0x13;
        assert txBuffer[..6] == [0x62, 0xFD, 0xBD, bytes[0], bytes[1], bytes[2]];
        assert [0x10, 0x13] + txBuffer[..6] == sent[0].data;
      } else if f.data[0] == 0x10 {
        if f.data[1] == 0x13 && f.data[2] == 0x2E && f.data[3] == 0xFD && f.data[4] == 0xBD {
          receiving, totalLength, sequenceNumber, responseId := true, f.data[1], 1, RESPONSE_ID;
          rxBuffer := [f.data[2], f.data[3], f.data[4]];
          rxBuffer := rxBuffer + f.data[5..8];
          assert rxBuffer == f.data[2..];
          sent := [FLOW_CONTROL_REPLY];
        }
      } else if f.data[0] >= 0x21 && f.data[0] <= 0x2F {
        if receiving && f.data[0] == 0x20 + sequenceNumber {
          sent := AcceptConsecutive(f);
        }
      } else if f.data[0] == 0x30 {
        if sending {
          sent := SendConsecutiveFrames();
        }
      }
    }
  }

  lemma Regroup(a: seq<CanFrame>, f: CanFrame, b: seq<CanFrame>)
    ensures a + ([f] + b) == (a + [f]) + b
  {
  }

  lemma {:induction false} CStringEndsAt(s: seq<byte>, i: nat)
    requires i <= |s| && 0 !in s[..i] && (i < |s| ==> s[i] == 0)
    ensures CString(s) == s[..i]
    decreases i
  {
    if i > 0 {
      assert s[0] in s[..i];
      assert s[1..][..i - 1] == s[..i][1..];
      CStringEndsAt(s[1..], i - 1);
    }
  }

  /** The zeroed 8-byte frame with its header and the bytes of one chunk copied in. */
  method BuildConsecutive(sequence: nat, chunk: seq<byte>) returns (data: Data)
    requires |chunk| <= 7
    ensures forall id :: CanFrame(id, 8, data) == ConsecutiveFrame(id, sequence, chunk)
  {
    var frame := new byte[8](_ => 0);
    frame[0] := 0x20 + sequence % 16;
    for i := 0 to |chunk|
      invariant frame[0] == 0x20 + sequence % 16
      invariant frame[1..1 + i] == chunk[..i]
      invariant forall k :: 1 + i <= k < 8 ==> frame[k] == 0
    {
      frame[i + 1] := chunk[i];
    }
    data := frame[..];
    ghost var goal := [0x20 + sequence % 16] + chunk + Zeros(7 - |chunk|);
    forall i | 0 <= i < 8
      ensures data[i] == goal[i]
    {
      if 1 <= i < 1 + |chunk| {
        assert data[i] == frame[1..1 + |chunk|][i - 1];
      }
    }
    assert data == goal;
  }

  /** The loop both ends use to turn bytes into a string: NUL bytes are skipped. */
  method Extract(bytes: seq<byte>) returns (text: seq<byte>)
    ensures text == NonZero(bytes)
  {
    text := [];
    var i := 0;
    while i < |bytes|
      invariant 0 <= i <= |bytes|
      invariant text == NonZero(bytes[..i])
    {
      assert bytes[..i + 1][..i] == bytes[..i];
      if bytes[i] != 0 {
        text := text + [bytes[i]];
      }
      i := i + 1;
    }
    assert bytes[..i] == bytes;
  }

  /** The reassembly state of one read command. */
  class PartNumberReader {
    var receiving: bool
    var rxBuffer: seq<byte>
    var expectedSequence: nat
    var totalLength: byte

    function State(): Client
      reads this
    {
      Client(receiving, rxBuffer, expectedSequence, totalLength)
    }

    constructor ()
      ensures State() == FRESH_CLIENT
    {
      receiving, rxBuffer, expectedSequence, totalLength := false, [], 1, 0;
    }

    /** The body of the receive loop for one frame on the response id. */
    method OnFrame(f: CanFrame) returns (p: Progress)
      modifies this
      ensures p == ClientStep(old(State()), f)
      ensures p.More? ==> State() == p.next
    {
      if f.data[0] / 16 == 1 {
        if !receiving {
          totalLength, receiving, expectedSequence, rxBuffer := f.data[1], true, 1, [];
          if f.data[2] != 0x62 || f.data[3] != 0xFD || f.data[4] != 0xBD {
            return Failed(4);
          }
          rxBuffer := rxBuffer + f.data[5..8];
          return More(State(), true);
        }
        return More(State(), false);
      } else if f.data[0] / 16 == 2 {
        if !receiving {
          return Failed(4);
        }
        var sequence := f.data[0] % 16;
        if sequence == expectedSequence {
          var i := 1;
          while i < 8 && |rxBuffer| < Limit(totalLength)
            invariant 1 <= i <= 8
            invariant rxBuffer == old(rxBuffer) + f.data[1..i]
            invariant i > 1 ==> |rxBuffer| <= Limit(totalLength)
            invariant receiving && expectedSequence == old(expectedSequence) && totalLength == old(totalLength)
          {
            rxBuffer := rxBuffer + [f.data[i]];
            i := i + 1;
          }
          assert rxBuffer == Filled(old(rxBuffer), f.data, Limit(totalLength));
          expectedSequence := expectedSequence + 1;
          if expectedSequence > 0x0F { expectedSequence := 0; }
          if |rxBuffer| >= Limit(totalLength) {
            var partNumber := Extract(if |rxBuffer| > 16 then rxBuffer[..16] else rxBuffer);
            return Finished(rxBuffer, partNumber);
          }
          return More(State(), false);
        } else if sequence < expectedSequence {
          return More(State(), false);
        }
        return Failed(4);
      }
      return Failed(4);
    }
  }

  /** handleGetHwPartNum against a live daemon: the answer is the stored part number. */
  method HandleGetHwPartNum(d: CanDaemon) returns (outcome: Progress)
    requires d.Valid()
    modifies d, d.hwpartnum
    ensures d.Valid() && (d.State(), outcome) == ReadExchange(old(d.State()))
    ensures d.hwpartnum[..] == old(d.hwpartnum[..])
    ensures outcome == Finished(Pad16(CString(old(d.hwpartnum[..16]))), CString(old(d.hwpartnum[..16])))
  {
    ReadReturnsStored(d.State());
    assert d.hwpartnum[..][..16] == d.hwpartnum[..16];
    ghost var expected := ReadExchange(d.State());
    var reader := new PartNumberReader();
    var queue := d.ProcessCanCommand(READ_REQUEST, false);
    while true
      invariant d.Valid() && fresh(reader)
      invariant ReadLoop(reader.State(), d.State(), queue) == expected
      decreases if reader.receiving then 0 else 1, |queue|
    {
      if queue == [] {
        return Failed(1);
      }
      var f := queue[0];
      queue := queue[1..];
      if f.id == RESPONSE_ID {
        var p := reader.OnFrame(f);
        if !p.More? {
          return p;
        }
        if p.flowControl {
          var replies := d.ProcessCanCommand(FLOW_CONTROL, false);
          queue := queue + replies;
        }
      }
    }
  }

  /** The frames the client's socket delivers for response id 0x70B. */
  method Deliver(frames: seq<CanFrame>) returns (queue: seq<CanFrame>)
    ensures queue == Received(frames)
  {
    queue := [];
    for i := 0 to |frames|
      invariant queue == Received(frames[..i])
    {
      assert frames[..i + 1][..i] == frames[..i];
      if frames[i].id == RESPONSE_ID {
        queue := queue + [frames[i]];
      }
    }
    assert frames[..|frames|] == frames;
  }

  /** handleSetHwPartNum against a live daemon: it succeeds and the daemon holds the value. */
  method HandleSetHwPartNum(d: CanDaemon, value: seq<byte>) returns (code: int)
    requires d.Valid()
    modifies d, d.hwpartnum
    ensures d.Valid() && (d.State(), code) == WriteExchange(old(d.State()), value)
    ensures |value| > 16 ==> code == 2 && d.State() == old(d.State())
    ensures |value| <= 16 ==> code == 0 && d.hwpartnum[..] == Stored(NonZero(value))
  {
    if |value| > 16 {
      return 2;
    }
    WriteStores(d.State(), value);
    var bytes := value + seq(16 - |value|, _ => 0);
    assert bytes == Pad16(value);
    var sent := d.ProcessCanCommand(WriteFirst(bytes), false);
    var queue := Deliver(sent);
    if queue == [] {
      return 1;
    }
    if queue[0].data[0] != 0x30 {
      return 4;
    }
    queue := queue[1..];
    sent := d.ProcessCanCommand(WriteSecond(bytes), false);
    var more := Deliver(sent);
    queue := queue + more;
    sent := d.ProcessCanCommand(WriteThird(bytes), false);
    more := Deliver(sent);
    queue := queue + more;
    if queue == [] {
      return 1;
    }
    if IsPositive(queue[0]) {
      return 0;
    }
    if queue[0].data[0] == 0x30 {
      if |queue| < 2 {
        return 1;
      }
      return if IsPositive(queue[1]) then 0 else 4;
    }
    return 4;
  }
}
