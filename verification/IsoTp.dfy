/** The part-number transfer between the CAN daemon (disp-can-ctrl) and its client
    (disp-can-client), with the frame types of section 9.6 of ISO 15765-2:2016.
    This module holds the two protocol machines as functions; IsoTpNodes holds the
    stateful programs that are proved against them. */
module IsoTp {
  import opened Basics

  type Data = d: seq<byte> | |d| == 8 witness [0, 0, 0, 0, 0, 0, 0, 0]

  datatype CanFrame = CanFrame(id: nat, dlc: nat, data: Data)

  const REQUEST_ID: nat := 0x703
  const RESPONSE_ID: nat := 0x70B

  // ---------------------------------------------------------------- byte strings

  function Zeros(n: nat): seq<byte> { Repeated(n, 0) }

  /** A C string: the bytes before the first NUL. */
  function CString(s: seq<byte>): (c: seq<byte>)
    ensures |c| <= |s|
  {
    if s == [] || s[0] == 0 then [] else [s[0]] + CString(s[1..])
  }

  /** Both ends drop NUL bytes when they turn received bytes into a string. */
  function NonZero(s: seq<byte>): (c: seq<byte>)
    ensures |c| <= |s|
  {
    if s == [] then [] else NonZero(s[..|s| - 1]) + (if s[|s| - 1] == 0 then [] else [s[|s| - 1]])
  }

  function Pad16(s: seq<byte>): (p: seq<byte>)
    requires |s| <= 16
    ensures |p| == 16
  {
    s + Zeros(16 - |s|)
  }

  /** The 17-byte buffer after memset and strncpy of at most 16 bytes. */
  function Stored(s: seq<byte>): (b: seq<byte>)
    requires |s| <= 16
    ensures |b| == 17 && b[16] == 0
  {
    CString(s) + Zeros(17 - |CString(s)|)
  }

  // ---------------------------------------------------------------- frames

  function FirstFrame(id: nat, payload: seq<byte>): CanFrame
    requires 6 <= |payload| < 256
  {
    CanFrame(id, 8, [0x10, |payload|] + payload[..6])
  }

  function ConsecutiveFrame(id: nat, sequence: nat, chunk: seq<byte>): CanFrame
    requires |chunk| <= 7
  {
    CanFrame(id, 8, [0x20 + sequence % 16] + chunk + Zeros(7 - |chunk|))
  }

  function NextSequence(n: nat): nat { if n + 1 > 0x0F then 0 else n + 1 }

  /** The frames of the sender loop from byte offset sent on. */
  function ConsecutiveFrames(id: nat, tx: seq<byte>, sent: nat, sequence: nat): seq<CanFrame>
    decreases |tx| - sent
  {
    if sent >= |tx| then []
    else
      var n := if |tx| - sent < 7 then |tx| - sent else 7;
      [ConsecutiveFrame(id, sequence, tx[sent..sent + n])]
      + ConsecutiveFrames(id, tx, sent + n, NextSequence(sequence))
  }

  function SequenceAfter(tx: seq<byte>, sent: nat, sequence: nat): nat
    decreases |tx| - sent
  {
    if sent >= |tx| then sequence
    else SequenceAfter(tx, sent + (if |tx| - sent < 7 then |tx| - sent else 7), NextSequence(sequence))
  }

  const FLOW_CONTROL_REPLY: CanFrame := CanFrame(RESPONSE_ID, 8, [0x30, 0, 0, 0, 0, 0, 0, 0])
  const POSITIVE_REPLY: CanFrame := CanFrame(RESPONSE_ID, 8, [0x03, 0x6E, 0xFD, 0xBD, 0, 0, 0, 0])
  const PATTERN_REPLY: CanFrame := CanFrame(RESPONSE_ID, 8, [0x03, 0x6E, 0xFD, 0x38, 0x11, 0, 0, 0])
  const HOME_REPLY: CanFrame := CanFrame(RESPONSE_ID, 8, [0x03, 0x6E, 0xFD, 0xC0, 0x01, 0, 0, 0])
  const FLOW_CONTROL: CanFrame := CanFrame(REQUEST_ID, 8, [0x30, 0, 0, 0, 0, 0, 0, 0])
  const READ_REQUEST: CanFrame := CanFrame(REQUEST_ID, 8, [0x03, 0x22, 0xFD, 0xBD, 0, 0, 0, 0])

  /** The three request frames that carry the 16 part-number bytes of a write. */
  function WriteFirst(bytes: seq<byte>): CanFrame
    requires |bytes| == 16
  {
    CanFrame(REQUEST_ID, 8, [0x10, 0x13, 0x2E, 0xFD, 0xBD] + bytes[..3])
  }

  function WriteSecond(bytes: seq<byte>): CanFrame
    requires |bytes| == 16
  {
    CanFrame(REQUEST_ID, 8, [0x21] + bytes[3..10])
  }

  function WriteThird(bytes: seq<byte>): CanFrame
    requires |bytes| == 16
  {
    CanFrame(REQUEST_ID, 8, [0x22] + bytes[10..] + [0x00])
  }

  // ---------------------------------------------------------------- the daemon

  datatype Link = Link(receiving: bool, sending: bool, rx: seq<byte>, tx: seq<byte>,
                       sequence: nat, total: byte, responseId: nat)

  datatype Daemon = Daemon(link: Link, partNumber: seq<byte>)

  /** What every reachable daemon satisfies: the part number is NUL-terminated in its
      17-byte buffer and the shared sequence number is one nibble. */
  ghost predicate WellFormed(s: Daemon) {
    |s.partNumber| == 17 && s.partNumber[16] == 0 && s.link.sequence < 16
  }

  predicate IsSingle(f: CanFrame) { f.dlc >= 4 && f.data[0] == 0x04 }

  predicate IsReadRequest(f: CanFrame) {
    f.dlc >= 4 && f.data[0] == 0x03 && f.data[1] == 0x22 && f.data[2] == 0xFD && f.data[3] == 0xBD
  }

  predicate IsWriteFirst(f: CanFrame) {
    f.data[0] == 0x10 && f.data[1] == 0x13 && f.data[2] == 0x2E && f.data[3] == 0xFD && f.data[4] == 0xBD
  }

  predicate IsPositive(f: CanFrame) {
    f.id == RESPONSE_ID && f.dlc >= 4
    && f.data[0] == 0x03 && f.data[1] == 0x6E && f.data[2] == 0xFD && f.data[3] == 0xBD
  }

  function SingleReply(f: CanFrame, patternOk: bool): seq<CanFrame> {
    if !patternOk || f.data[1] != 0x2E || f.data[2] != 0xFD then []
    else if f.data[3] == 0x38 && 1 <= f.data[4] <= 8 then [PATTERN_REPLY]
    else if f.data[3] == 0xC0 && f.data[4] == 0x01 then [HOME_REPLY]
    else []
  }

  /** The 19 bytes of a read response. */
  function ReadPayload(partNumber: seq<byte>): (p: seq<byte>)
    requires |partNumber| == 17
    ensures |p| == 19
  {
    [0x62, 0xFD, 0xBD] + Pad16(CString(partNumber[..16]))
  }

  /** Bytes taken from a consecutive frame while the buffer is below limit. */
  function Filled(rx: seq<byte>, data: Data, limit: int): seq<byte> {
    rx + (if |rx| >= limit then [] else if limit - |rx| < 7 then data[1..1 + limit - |rx|] else data[1..])
  }

  function AfterConsecutive(s: Daemon, f: CanFrame): (Daemon, seq<CanFrame>)
    requires WellFormed(s)
  {
    var rx := Filled(s.link.rx, f.data, s.link.total);
    var link := s.link.(rx := rx, sequence := NextSequence(s.link.sequence));
    if |rx| < s.link.total then (s.(link := link), [])
    else
      var done := link.(receiving := false, rx := []);
      if |rx| >= 19 then (Daemon(done, Stored(NonZero(rx[3..19]))), [POSITIVE_REPLY])
      else (s.(link := done), [])
  }

  function Sending(link: Link, payload: seq<byte>): Link {
    link.(sending := true, responseId := RESPONSE_ID, sequence := 1, tx := payload)
  }

  function Receiving(link: Link, start: seq<byte>): Link {
    link.(receiving := true, total := 0x13, sequence := 1, responseId := RESPONSE_ID, rx := start)
  }

  /** process_can_command: the new daemon state and the frames it sends. patternOk is the
      answer of the pattern backend. */
  function Step(s: Daemon, f: CanFrame, patternOk: bool): (Daemon, seq<CanFrame>)
    requires WellFormed(s)
  {
    if IsSingle(f) then (s, SingleReply(f, patternOk))
    else if IsReadRequest(f) then
      var payload := ReadPayload(s.partNumber);
      (s.(link := Sending(s.link, payload)),
       [FirstFrame(RESPONSE_ID, payload)])
    else if f.data[0] == 0x10 then
      if IsWriteFirst(f) then
        (s.(link := Receiving(s.link, f.data[2..])),
         [FLOW_CONTROL_REPLY])
      else (s, [])
    else if 0x21 <= f.data[0] <= 0x2F then
      if s.link.receiving && f.data[0] == 0x20 + s.link.sequence then AfterConsecutive(s, f)
      else (s, [])
    else if f.data[0] == 0x30 && s.link.sending then
      (s.(link := s.link.(sending := false, tx := [], sequence := SequenceAfter(s.link.tx, 6, s.link.sequence))),
       ConsecutiveFrames(s.link.responseId, s.link.tx, 6, s.link.sequence))
    else (s, [])
  }

  lemma {:induction false} SequenceStaysNibble(tx: seq<byte>, sent: nat, sequence: nat)
    requires sequence < 16
    ensures SequenceAfter(tx, sent, sequence) < 16
    decreases |tx| - sent
  {
    if sent < |tx| {
      SequenceStaysNibble(tx, sent + (if |tx| - sent < 7 then |tx| - sent else 7), NextSequence(sequence));
    }
  }

  lemma {:induction false} StepKeepsWellFormed(s: Daemon, f: CanFrame, patternOk: bool)
    requires WellFormed(s)
    ensures WellFormed(Step(s, f, patternOk).0)
  {
    SequenceStaysNibble(s.link.tx, 6, s.link.sequence);
  }

  // ---------------------------------------------------------------- the client

  datatype Client = Client(receiving: bool, rx: seq<byte>, expected: nat, total: byte)

  const FRESH_CLIENT: Client := Client(false, [], 1, 0)

  /** The client's reaction to one frame on the response id. Codes are its exit codes. */
  datatype Progress = More(next: Client, flowControl: bool)
                    | Finished(payload: seq<byte>, partNumber: seq<byte>)
                    | Failed(code: int)

  /** total_length - 3 as the unsigned 64-bit value it is compared as. */
  function Limit(total: byte): nat {
    if total < 3 then 0x1_0000_0000_0000_0000 + total - 3 else total - 3
  }

  function PartOf(payload: seq<byte>): seq<byte> {
    NonZero(if |payload| > 16 then payload[..16] else payload)
  }

  function ClientStep(c: Client, f: CanFrame): Progress {
    if f.data[0] / 16 == 1 then
      if c.receiving then More(c, false)
      else if f.data[2] != 0x62 || f.data[3] != 0xFD || f.data[4] != 0xBD then Failed(4)
      else More(Client(true, f.data[5..], 1, f.data[1]), true)
    else if f.data[0] / 16 == 2 then
      var sequence := f.data[0] % 16;
      if !c.receiving then Failed(4)
      else if sequence == c.expected then
        var rx := Filled(c.rx, f.data, Limit(c.total));
        if |rx| >= Limit(c.total) then Finished(rx, PartOf(rx))
        else More(c.(rx := rx, expected := NextSequence(c.expected)), false)
      else if sequence < c.expected then More(c, false)
      else Failed(4)
    else Failed(4)
  }

  /** The client loop over everything it receives until its timeout (exit code 1). */
  function ClientRun(c: Client, frames: seq<CanFrame>): Progress
    decreases |frames|
  {
    if frames == [] then Failed(1)
    else if frames[0].id != RESPONSE_ID then ClientRun(c, frames[1..])
    else
      match ClientStep(c, frames[0])
      case More(next, _) => ClientRun(next, frames[1..])
      case other => other
  }

  // ---------------------------------------------------------------- conversations

  /** The read loop with the daemon answering on an in-order lossless channel. */
  function ReadLoop(c: Client, s: Daemon, queue: seq<CanFrame>): (Daemon, Progress)
    requires WellFormed(s)
    decreases if c.receiving then 0 else 1, |queue|
  {
    if queue == [] then (s, Failed(1))
    else if queue[0].id != RESPONSE_ID then ReadLoop(c, s, queue[1..])
    else
      match ClientStep(c, queue[0])
      case More(next, flow) =>
        if flow then
          StepKeepsWellFormed(s, FLOW_CONTROL, false);
          var (s', replies) := Step(s, FLOW_CONTROL, false);
          ReadLoop(next, s', queue[1..] + replies)
        else ReadLoop(next, s, queue[1..])
      case other => (s, other)
  }

  function ReadExchange(s: Daemon): (Daemon, Progress)
    requires WellFormed(s)
  {
    StepKeepsWellFormed(s, READ_REQUEST, false);
    var (s', replies) := Step(s, READ_REQUEST, false);
    ReadLoop(FRESH_CLIENT, s', replies)
  }

  function Received(frames: seq<CanFrame>): seq<CanFrame> {
    if frames == [] then []
    else
      var last := frames[|frames| - 1];
      Received(frames[..|frames| - 1]) + (if last.id == RESPONSE_ID then [last] else [])
  }

  /** The exit code of handleSetHwPartNum once both transmissions are answered. */
  function WriteVerdict(answers: seq<CanFrame>): int {
    if answers == [] then 1
    else if IsPositive(answers[0]) then 0
    else if answers[0].data[0] == 0x30 then
      (if |answers| < 2 then 1 else if IsPositive(answers[1]) then 0 else 4)
    else 4
  }

  function WriteExchange(s: Daemon, value: seq<byte>): (Daemon, int)
    requires WellFormed(s)
  {
    if |value| > 16 then (s, 2) else WriteBytes(s, Pad16(value))
  }

  function WriteBytes(s: Daemon, bytes: seq<byte>): (Daemon, int)
    requires WellFormed(s) && |bytes| == 16
  {
    StepKeepsWellFormed(s, WriteFirst(bytes), false);
    var (s1, r1) := Step(s, WriteFirst(bytes), false);
    var q := Received(r1);
    if q == [] then (s1, 1)
    else if q[0].data[0] != 0x30 then (s1, 4)
    else
      StepKeepsWellFormed(s1, WriteSecond(bytes), false);
      var (s2, r2) := Step(s1, WriteSecond(bytes), false);
      StepKeepsWellFormed(s2, WriteThird(bytes), false);
      var (s3, r3) := Step(s2, WriteThird(bytes), false);
      (s3, WriteVerdict(q[1..] + Received(r2) + Received(r3)))
  }
}
