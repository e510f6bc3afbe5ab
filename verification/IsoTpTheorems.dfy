/** What the part-number transfer is for: segmentation and reassembly are inverse, a write
    followed by a read returns the written string, replays are tolerated up to the point
    where the 4-bit sequence number wraps, and what may happen inside a write transfer. */
module IsoTpTheorems {
  import opened Basics
  import opened IsoTp

  // ---------------------------------------------------------------- byte strings

  lemma {:induction false} NonZeroIsClean(s: seq<byte>)
    ensures 0 !in NonZero(s)
  {
    if s != [] {
      NonZeroIsClean(s[..|s| - 1]);
    }
  }

  lemma {:induction false} CStringIsClean(s: seq<byte>)
    ensures 0 !in CString(s)
    ensures 0 !in s ==> CString(s) == s
  {
    if s != [] && s[0] != 0 {
      CStringIsClean(s[1..]);
      assert 0 !in s ==> s == [s[0]] + s[1..];
    }
  }

  lemma {:induction false} NonZeroOfClean(s: seq<byte>)
    requires 0 !in s
    ensures NonZero(s) == s
  {
    if s != [] {
      NonZeroOfClean(s[..|s| - 1]);
    }
  }

  lemma {:induction false} NonZeroDropsPadding(p: seq<byte>, s: seq<byte>, n: nat)
    requires p == s + Zeros(n)
    ensures NonZero(p) == NonZero(s)
    decreases n
  {
    if n == 0 {
      assert p == s;
    } else {
      assert p[|p| - 1] == 0 && p[..|p| - 1] == s + Zeros(n - 1);
      NonZeroDropsPadding(p[..|p| - 1], s, n - 1);
    }
  }

  lemma {:induction false} CStringOfPadded(p: seq<byte>, s: seq<byte>, n: nat)
    requires 0 !in s && p == s + Zeros(n)
    ensures CString(p) == s
    decreases |s|
  {
    if s != [] {
      assert p[0] == s[0] && s[0] in s;
      assert p[1..] == s[1..] + Zeros(n);
      CStringOfPadded(p[1..], s[1..], n);
    }
  }

  lemma StoredPrefix(s: seq<byte>)
    requires |s| <= 16
    ensures Stored(s)[..16] == CString(s) + Zeros(16 - |CString(s)|)
  {
  }

  lemma PaddedReadsBack(padded: seq<byte>, text: seq<byte>)
    requires |text| <= 16 && 0 !in text && padded == text + Zeros(16 - |text|)
    ensures CString(padded) == text
  {
    CStringOfPadded(padded, text, 16 - |text|);
  }

  /** Reading a stored string back as get_hwpartnum does gives its part before any NUL. */
  lemma StoredReadsBack(s: seq<byte>)
    requires |s| <= 16
    ensures CString(Stored(s)[..16]) == CString(s)
  {
    StoredPrefix(s);
    CStringIsClean(s);
    PaddedReadsBack(Stored(s)[..16], CString(s));
  }

  // ---------------------------------------------------------------- segmentation and reassembly

  /** Bytes carried by the consecutive frame at this offset. */
  function ChunkSize(payload: seq<byte>, sent: nat): nat
    requires sent <= |payload|
  {
    if |payload| - sent < 7 then |payload| - sent else 7
  }

  function ChunkFrame(payload: seq<byte>, sent: nat, sequence: nat): CanFrame
    requires sent <= |payload|
  {
    ConsecutiveFrame(RESPONSE_ID, sequence, payload[sent..sent + ChunkSize(payload, sent)])
  }

  function Holding(payload: seq<byte>, sent: nat, sequence: nat): Client
    requires 3 <= sent <= |payload| < 256
  {
    Client(true, payload[3..sent], sequence, |payload|)
  }

  lemma ChunkFills(payload: seq<byte>, sent: nat, sequence: nat)
    requires 6 <= |payload| < 256 && 3 <= sent < |payload|
    ensures Filled(payload[3..sent], ChunkFrame(payload, sent, sequence).data, |payload| - 3)
         == payload[3..sent + ChunkSize(payload, sent)]
  {
  }

  lemma AcceptOne(payload: seq<byte>, sent: nat, sequence: nat)
    requires 6 <= |payload| < 256 && 3 <= sent < |payload| && sequence < 16
    ensures var n := ChunkSize(payload, sent);
      ClientStep(Holding(payload, sent, sequence), ChunkFrame(payload, sent, sequence))
      == if sent + n == |payload| then Finished(payload[3..], PartOf(payload[3..]))
         else More(Holding(payload, sent + n, NextSequence(sequence)), false)
  {
    ChunkFills(payload, sent, sequence);
    assert payload[3..|payload|] == payload[3..];
  }

  lemma {:induction false} TailReassembles(payload: seq<byte>, sent: nat, sequence: nat)
    requires 6 <= |payload| < 256 && 3 <= sent < |payload| && sequence < 16
    ensures ClientRun(Holding(payload, sent, sequence), ConsecutiveFrames(RESPONSE_ID, payload, sent, sequence))
         == Finished(payload[3..], PartOf(payload[3..]))
    decreases |payload| - sent
  {
    var n := ChunkSize(payload, sent);
    var frames := ConsecutiveFrames(RESPONSE_ID, payload, sent, sequence);
    assert frames[0] == ChunkFrame(payload, sent, sequence);
    assert frames[1..] == ConsecutiveFrames(RESPONSE_ID, payload, sent + n, NextSequence(sequence));
    AcceptOne(payload, sent, sequence);
    if sent + n < |payload| {
      TailReassembles(payload, sent + n, NextSequence(sequence));
    }
  }

  predicate IsReadPayload(payload: seq<byte>) {
    7 <= |payload| < 256 && payload[..3] == [0x62, 0xFD, 0xBD]
  }

  /** Everything the sender transmits for one payload. */
  function Segments(payload: seq<byte>): seq<CanFrame>
    requires 6 <= |payload| < 256
  {
    [FirstFrame(RESPONSE_ID, payload)] + ConsecutiveFrames(RESPONSE_ID, payload, 6, 1)
  }

  lemma FirstStarts(payload: seq<byte>)
    requires IsReadPayload(payload)
    ensures ClientStep(FRESH_CLIENT, FirstFrame(RESPONSE_ID, payload))
         == More(Holding(payload, 6, 1), true)
  {
  }

  /** Segmentation and reassembly are inverse for every payload length a first frame can
      announce, through every wrap of the sequence number. */
  lemma SegmentsReassemble(payload: seq<byte>)
    requires IsReadPayload(payload)
    ensures ClientRun(FRESH_CLIENT, Segments(payload)) == Finished(payload[3..], PartOf(payload[3..]))
    ensures PartOf(payload[3..]) == NonZero(if |payload| > 19 then payload[3..19] else payload[3..])
  {
    FirstStarts(payload);
    assert Segments(payload)[1..] == ConsecutiveFrames(RESPONSE_ID, payload, 6, 1);
    TailReassembles(payload, 6, 1);
    assert |payload| > 19 ==> payload[3..][..16] == payload[3..19];
  }

  // ---------------------------------------------------------------- the round trip

  lemma {:induction false} ReadLoopAfterFlowControl(c: Client, s: Daemon, queue: seq<CanFrame>)
    requires WellFormed(s) && c.receiving
    ensures ReadLoop(c, s, queue) == (s, ClientRun(c, queue))
    decreases |queue|
  {
    if queue != [] {
      if queue[0].id != RESPONSE_ID {
        ReadLoopAfterFlowControl(c, s, queue[1..]);
      } else {
        match ClientStep(c, queue[0])
        case More(next, _) => ReadLoopAfterFlowControl(next, s, queue[1..]);
        case _ =>
      }
    }
  }

  lemma TextSurvivesPadding(text: seq<byte>)
    requires |text| <= 16 && 0 !in text
    ensures PartOf(Pad16(text)) == text
  {
    NonZeroOfPadded(text);
    NonZeroOfClean(text);
  }

  lemma ResponseIsReadPayload(partNumber: seq<byte>)
    requires |partNumber| == 17
    ensures IsReadPayload(ReadPayload(partNumber))
    ensures ReadPayload(partNumber)[3..] == Pad16(CString(partNumber[..16]))
  {
  }

  lemma AnswersReadRequest(s: Daemon)
    requires WellFormed(s)
    ensures Step(s, READ_REQUEST, false)
         == (s.(link := Sending(s.link, ReadPayload(s.partNumber))), [FirstFrame(RESPONSE_ID, ReadPayload(s.partNumber))])
  {
  }

  lemma AnswersFlowControl(s: Daemon)
    requires WellFormed(s) && s.link.sending && s.link.responseId == RESPONSE_ID && s.link.sequence == 1
    ensures Step(s, FLOW_CONTROL, false).1 == ConsecutiveFrames(RESPONSE_ID, s.link.tx, 6, 1)
    ensures Step(s, FLOW_CONTROL, false).0.partNumber == s.partNumber
  {
  }

  /** A complete read returns the stored part number from any daemon state, whatever the
      sending and receiving flags were left at, and leaves the part number alone. */
  lemma ReadReturnsStored(s: Daemon)
    requires WellFormed(s)
    ensures var (s', outcome) := ReadExchange(s);
      && s'.partNumber == s.partNumber
      && outcome == Finished(Pad16(CString(s.partNumber[..16])), CString(s.partNumber[..16]))
  {
    var payload := ReadPayload(s.partNumber);
    ResponseIsReadPayload(s.partNumber);
    CStringIsClean(s.partNumber[..16]);
    TextSurvivesPadding(CString(s.partNumber[..16]));
    AnswersReadRequest(s);
    var s1 := s.(link := Sending(s.link, payload));
    FirstStarts(payload);
    AnswersFlowControl(s1);
    StepKeepsWellFormed(s1, FLOW_CONTROL, false);
    var (s2, r2) := Step(s1, FLOW_CONTROL, false);
    assert [FirstFrame(RESPONSE_ID, payload)][1..] + r2 == r2;
    assert ReadExchange(s) == ReadLoop(Holding(payload, 6, 1), s2, r2);
    ReadLoopAfterFlowControl(Holding(payload, 6, 1), s2, r2);
    TailReassembles(payload, 6, 1);
  }

  // The three steps of a write, for any state of the rest of the daemon.

  lemma FirstStep(s: Daemon, bytes: seq<byte>)
    requires WellFormed(s) && |bytes| == 16
    ensures Step(s, WriteFirst(bytes), false)
         == (s.(link := Receiving(s.link, [0x2E, 0xFD, 0xBD] + bytes[..3])), [FLOW_CONTROL_REPLY])
  {
    assert WriteFirst(bytes).data[2..] == [0x2E, 0xFD, 0xBD] + bytes[..3];
  }

  ghost predicate Awaiting(link: Link, bytes: seq<byte>, n: nat, expected: nat)
    requires |bytes| == 16 && n <= 16
  {
    link.receiving && link.total == 19 && link.sequence == expected && link.rx == [0x2E, 0xFD, 0xBD] + bytes[..n]
  }

  lemma SecondStep(s: Daemon, bytes: seq<byte>)
    requires WellFormed(s) && |bytes| == 16 && Awaiting(s.link, bytes, 3, 1)
    ensures var (s', sent) := Step(s, WriteSecond(bytes), false);
      sent == [] && s'.partNumber == s.partNumber && Awaiting(s'.link, bytes, 10, 2)
      && s'.link.sending == s.link.sending && s'.link.tx == s.link.tx
  {
  }

  lemma ThirdStep(s: Daemon, bytes: seq<byte>)
    requires WellFormed(s) && |bytes| == 16 && Awaiting(s.link, bytes, 10, 2)
    ensures var (s', sent) := Step(s, WriteThird(bytes), false);
      sent == [POSITIVE_REPLY] && s'.partNumber == Stored(NonZero(bytes)) && !s'.link.receiving
      && s'.link.sending == s.link.sending
  {
    var data := WriteThird(bytes).data;
    assert data[1..7] == bytes[10..];
    var rx := Filled(s.link.rx, data, 19);
    assert rx == [0x2E, 0xFD, 0xBD] + bytes;
    assert rx[3..19] == bytes;
  }

  lemma PaddedIsAppended(value: seq<byte>)
    requires |value| <= 16
    ensures Pad16(value) == value + Zeros(16 - |value|)
  {
  }

  lemma NonZeroOfPadded(value: seq<byte>)
    requires |value| <= 16
    ensures NonZero(Pad16(value)) == NonZero(value)
  {
    PaddedIsAppended(value);
    NonZeroDropsPadding(Pad16(value), value, 16 - |value|);
  }

  lemma WriteBytesStores(s: Daemon, bytes: seq<byte>)
    requires WellFormed(s) && |bytes| == 16
    ensures var (s', code) := WriteBytes(s, bytes);
      code == 0 && WellFormed(s') && s'.partNumber == Stored(NonZero(bytes)) && !s'.link.receiving
  {
    FirstStep(s, bytes);
    var s1 := s.(link := Receiving(s.link, [0x2E, 0xFD, 0xBD] + bytes[..3]));
    SecondStep(s1, bytes);
    StepKeepsWellFormed(s1, WriteSecond(bytes), false);
    var s2 := Step(s1, WriteSecond(bytes), false).0;
    ThirdStep(s2, bytes);
    StepKeepsWellFormed(s2, WriteThird(bytes), false);
    assert Received([FLOW_CONTROL_REPLY]) == [FLOW_CONTROL_REPLY];
    assert Received([POSITIVE_REPLY]) == [POSITIVE_REPLY];
  }

  /** A complete write succeeds from any daemon state and stores exactly the non-NUL bytes. */
  lemma WriteStores(s: Daemon, value: seq<byte>)
    requires WellFormed(s) && |value| <= 16
    ensures var (s', code) := WriteExchange(s, value);
      && code == 0 && WellFormed(s')
      && s'.partNumber == Stored(NonZero(value))
      && !s'.link.receiving
  {
    WriteBytesStores(s, Pad16(value));
    NonZeroOfPadded(value);
  }

  lemma ReadAfterStore(s: Daemon, text: seq<byte>)
    requires WellFormed(s) && |text| <= 16 && 0 !in text && s.partNumber == Stored(text)
    ensures ReadExchange(s).1 == Finished(Pad16(text), text)
  {
    ReadReturnsStored(s);
    StoredReadsBack(text);
    CStringIsClean(text);
  }

  lemma CleanIffUnchanged(value: seq<byte>)
    ensures NonZero(value) == value <==> 0 !in value
  {
    NonZeroIsClean(value);
    if 0 !in value {
      NonZeroOfClean(value);
    }
  }

  /** The end-to-end law: a write and then a read returns the written string, from any prior
      daemon state; NUL bytes, which a C string cannot hold, are the only ones lost. */
  lemma WriteThenReadRoundTrips(s: Daemon, value: seq<byte>)
    requires WellFormed(s) && |value| <= 16
    ensures var s' := WriteExchange(s, value).0;
      WellFormed(s') && ReadExchange(s').1 == Finished(Pad16(NonZero(value)), NonZero(value))
    ensures NonZero(value) == value <==> 0 !in value
  {
    CleanIffUnchanged(value);
    WriteStores(s, value);
    var text := NonZero(value);
    NonZeroIsClean(value);
    var s' := WriteExchange(s, value).0;
    ReadAfterStore(s', text);
  }

  // ---------------------------------------------------------------- replays at the client

  /** recv is frames delivered in order, with any already delivered frame (the first k of
      them) repeated any number of times at any place. */
  ghost predicate Replayed(frames: seq<CanFrame>, recv: seq<CanFrame>, k: nat)
    decreases |recv|
  {
    if recv == [] then k == |frames|
    else
      || (k < |frames| && recv[0] == frames[k] && Replayed(frames, recv[1..], k + 1))
      || ((exists j :: 0 <= j < k && j < |frames| && recv[0] == frames[j]) && Replayed(frames, recv[1..], k))
  }

  lemma {:induction false} FrameCount(payload: seq<byte>, sent: nat, sequence: nat)
    ensures |ConsecutiveFrames(RESPONSE_ID, payload, sent, sequence)|
         == if sent >= |payload| then 0 else (|payload| - sent + 6) / 7
    decreases |payload| - sent
  {
    if sent < |payload| {
      var n := if |payload| - sent < 7 then |payload| - sent else 7;
      FrameCount(payload, sent + n, NextSequence(sequence));
    }
  }

  function Advanced(sequence: nat, i: nat): nat
    decreases i
  {
    if i == 0 then sequence else Advanced(NextSequence(sequence), i - 1)
  }

  lemma {:induction false} AdvancedIsModulo(sequence: nat, i: nat)
    requires sequence < 16
    ensures Advanced(sequence, i) == (sequence + i) % 16
    decreases i
  {
    if i > 0 {
      AdvancedIsModulo(NextSequence(sequence), i - 1);
      if sequence == 15 {
        assert sequence + i == 16 + (i - 1);
      }
    }
  }

  /** The i-th consecutive frame carries the bytes at its own offset and sequence number. */
  lemma {:induction false} FrameAt(payload: seq<byte>, sent: nat, sequence: nat, i: nat, offset: nat)
    requires offset == sent + 7 * i < |payload|
    ensures i < |ConsecutiveFrames(RESPONSE_ID, payload, sent, sequence)|
    ensures ConsecutiveFrames(RESPONSE_ID, payload, sent, sequence)[i]
         == ChunkFrame(payload, offset, Advanced(sequence, i))
    decreases i
  {
    if i > 0 {
      FrameAt(payload, sent + 7, NextSequence(sequence), i - 1, offset);
    }
  }

  /** The client after the first k of the segments, k >= 1, were accepted. */
  function Accepted(payload: seq<byte>, k: nat): Client
    requires 1 <= k && 6 + 7 * (k - 1) < |payload| < 256
  {
    Holding(payload, 6 + 7 * (k - 1), k % 16)
  }

  lemma SegmentAt(payload: seq<byte>, k: nat)
    requires 1 <= k && IsReadPayload(payload) && 6 + 7 * (k - 1) < |payload|
    ensures k < |Segments(payload)| && Segments(payload)[k] == ChunkFrame(payload, 6 + 7 * (k - 1), k % 16)
    ensures Segments(payload)[k].data[0] == 0x20 + k % 16
  {
    AdvancedIsModulo(1, k - 1);
    FrameAt(payload, 6, 1, k - 1, 6 + 7 * (k - 1));
  }

  lemma SequenceWraps(k: nat)
    ensures NextSequence(k % 16) == (k + 1) % 16
  {
  }

  lemma AcceptAt(payload: seq<byte>, sent: nat, sequence: nat, next: nat)
    requires 6 <= |payload| < 256 && 3 <= sent < |payload| && sequence < 16 && next == NextSequence(sequence)
    ensures ClientStep(Holding(payload, sent, sequence), ChunkFrame(payload, sent, sequence))
         == if sent + 7 >= |payload| then Finished(payload[3..], PartOf(payload[3..]))
            else More(Holding(payload, sent + 7, next), false)
  {
    AcceptOne(payload, sent, sequence);
  }

  lemma NextAccepted(payload: seq<byte>, k: nat)
    requires 1 <= k && IsReadPayload(payload) && 6 + 7 * (k - 1) < |payload|
    ensures k < |Segments(payload)| && Segments(payload)[k].id == RESPONSE_ID
    ensures ClientStep(Accepted(payload, k), Segments(payload)[k])
         == if 6 + 7 * k >= |payload| then Finished(payload[3..], PartOf(payload[3..]))
            else More(Accepted(payload, k + 1), false)
  {
    var sent, sequence, next := 6 + 7 * (k - 1), k % 16, (k + 1) % 16;
    SegmentAt(payload, k);
    SequenceWraps(k);
    AcceptAt(payload, sent, sequence, next);
    assert sent + 7 == 6 + 7 * k;
    assert Accepted(payload, k) == Holding(payload, sent, sequence);
  }

  lemma SegmentCount(payload: seq<byte>)
    requires IsReadPayload(payload)
    ensures |Segments(payload)| == 1 + (|payload| - 6 + 6) / 7
  {
    FrameCount(payload, 6, 1);
  }

  lemma ReplayIgnored(payload: seq<byte>, k: nat, j: nat)
    requires IsReadPayload(payload) && 0 <= j < k <= 15 && 6 + 7 * (k - 1) < |payload|
    ensures j < |Segments(payload)|
    ensures ClientStep(Accepted(payload, k), Segments(payload)[j]) == More(Accepted(payload, k), false)
    ensures Segments(payload)[j].id == RESPONSE_ID
  {
    if j > 0 {
      SegmentAt(payload, j);
    }
  }

  /** A segment repeated after k were accepted, at any length: numbers only compare below the
      wrap. It is ignored if its number is below the expected one, fails the read if above, and
      if equal, every sixteenth place back, its seven old bytes are taken for the next ones. */
  lemma RepeatedSegment(payload: seq<byte>, k: nat, j: nat)
    requires IsReadPayload(payload) && 1 <= j < k && 6 + 7 * (k - 1) < |payload|
    ensures j < |Segments(payload)| && Segments(payload)[j].id == RESPONSE_ID
    ensures var sent, past := 6 + 7 * (k - 1), payload[6 + 7 * (j - 1)..6 + 7 * j];
      var rx := payload[3..sent] + past[..ChunkSize(payload, sent)];
      ClientStep(Accepted(payload, k), Segments(payload)[j])
      == if j % 16 < k % 16 then More(Accepted(payload, k), false)
         else if j % 16 > k % 16 then Failed(4)
         else if sent + 7 >= |payload| then Finished(rx, PartOf(rx))
         else More(Client(true, rx, (k + 1) % 16, |payload|), false)
  {
    SegmentAt(payload, j);
    SequenceWraps(k);
    var sent, past, data := 6 + 7 * (k - 1), payload[6 + 7 * (j - 1)..6 + 7 * j], Segments(payload)[j].data;
    assert data[1..] == past;
    OldBytesTaken(payload, sent, past, data);
  }

  lemma OldBytesTaken(payload: seq<byte>, sent: nat, past: seq<byte>, data: Data)
    requires 3 <= sent < |payload| && data[1..] == past
    ensures |past| == 7
    ensures Filled(payload[3..sent], data, |payload| - 3) == payload[3..sent] + past[..ChunkSize(payload, sent)]
    ensures |payload[3..sent] + past[..ChunkSize(payload, sent)]| >= |payload| - 3 <==> sent + 7 >= |payload|
  {
    var n := ChunkSize(payload, sent);
    assert data[1..1 + n] == past[..n];
  }

  lemma {:induction false} ReplaysHarmlessFrom(payload: seq<byte>, recv: seq<CanFrame>, k: nat)
    requires IsReadPayload(payload) && |Segments(payload)| <= 16
    requires 1 <= k && 6 + 7 * (k - 1) < |payload|
    requires Replayed(Segments(payload), recv, k)
    ensures ClientRun(Accepted(payload, k), recv) == Finished(payload[3..], PartOf(payload[3..]))
    decreases |recv|
  {
    SegmentCount(payload);
    if k < |Segments(payload)| && recv[0] == Segments(payload)[k] && Replayed(Segments(payload), recv[1..], k + 1) {
      NextAccepted(payload, k);
      if 6 + 7 * k < |payload| {
        ReplaysHarmlessFrom(payload, recv[1..], k + 1);
      }
    } else {
      var j :| 0 <= j < k && j < |Segments(payload)| && recv[0] == Segments(payload)[j];
      ReplayIgnored(payload, k, j);
      ReplaysHarmlessFrom(payload, recv[1..], k);
    }
  }

  lemma ReplaysHarmless(payload: seq<byte>, recv: seq<CanFrame>)
    requires IsReadPayload(payload) && |Segments(payload)| <= 16
    requires Replayed(Segments(payload), recv, 0)
    ensures ClientRun(FRESH_CLIENT, recv) == ClientRun(FRESH_CLIENT, Segments(payload))
  {
    SegmentsReassemble(payload);
    FirstStarts(payload);
    assert recv != [] && recv[0] == Segments(payload)[0];
    ReplaysHarmlessFrom(payload, recv[1..], 1);
  }

  lemma {:induction false} DeliverSegments(payload: seq<byte>, rest: seq<CanFrame>, k: nat)
    requires IsReadPayload(payload) && 1 <= k <= 16 && 6 + 7 * (k - 1) < |payload|
    requires k <= |Segments(payload)|
    ensures ClientRun(FRESH_CLIENT, Segments(payload)[..k] + rest) == ClientRun(Accepted(payload, k), rest)
    decreases k
  {
    if k == 1 {
      FirstStarts(payload);
      assert (Segments(payload)[..1] + rest)[1..] == rest;
    } else {
      NextAccepted(payload, k - 1);
      var rest' := [Segments(payload)[k - 1]] + rest;
      assert Segments(payload)[..k] + rest == Segments(payload)[..k - 1] + rest';
      DeliverSegments(payload, rest', k - 1);
      assert rest'[1..] == rest;
    }
  }

  lemma {:induction false} SuffixIsReplayed(frames: seq<CanFrame>, k: nat)
    requires k <= |frames|
    ensures Replayed(frames, frames[k..], k)
    decreases |frames| - k
  {
    if k < |frames| {
      assert frames[k..][1..] == frames[k + 1..];
      SuffixIsReplayed(frames, k + 1);
    }
  }

  lemma {:induction false} PrefixIsReplayed(frames: seq<CanFrame>, rest: seq<CanFrame>, k: nat, n: nat)
    requires k <= n <= |frames| && Replayed(frames, rest, n)
    ensures Replayed(frames, frames[k..n] + rest, k)
    decreases n - k
  {
    if k < n {
      assert (frames[k..n] + rest)[1..] == frames[k + 1..n] + rest;
      PrefixIsReplayed(frames, rest, k + 1, n);
    } else {
      assert frames[k..n] + rest == rest;
    }
  }

  /** Past the wrap, repeating the frame just accepted is read as a frame from the future. */
  lemma ReplayAfterWrapFails(payload: seq<byte>) returns (recv: seq<CanFrame>)
    requires IsReadPayload(payload) && |Segments(payload)| > 16
    ensures Replayed(Segments(payload), recv, 0)
    ensures ClientRun(FRESH_CLIENT, recv) == Failed(4)
  {
    SegmentCount(payload);
    var frames := Segments(payload);
    SegmentAt(payload, 15);
    var rest := [frames[15]] + frames[16..];
    recv := frames[..16] + rest;
    SuffixIsReplayed(frames, 16);
    assert rest[1..] == frames[16..] && rest[0] == frames[15];
    assert Replayed(frames, rest, 16);
    assert frames[0..16] + rest == recv;
    PrefixIsReplayed(frames, rest, 0, 16);
    DeliverSegments(payload, rest, 16);
  }

  /** The client's result is independent of replayed frames exactly when the payload needs at
      most 15 consecutive frames. */
  lemma ReplayToleranceIsExact(payload: seq<byte>)
    requires IsReadPayload(payload)
    ensures (forall recv :: Replayed(Segments(payload), recv, 0)
                            ==> ClientRun(FRESH_CLIENT, recv) == ClientRun(FRESH_CLIENT, Segments(payload)))
       <==> |payload| <= 6 + 7 * 15
  {
    SegmentCount(payload);
    if |payload| <= 6 + 7 * 15 {
      forall recv | Replayed(Segments(payload), recv, 0)
        ensures ClientRun(FRESH_CLIENT, recv) == ClientRun(FRESH_CLIENT, Segments(payload))
      {
        ReplaysHarmless(payload, recv);
      }
    } else {
      var recv := ReplayAfterWrapFails(payload);
      SegmentsReassemble(payload);
    }
  }

  predicate WritesPattern(f: CanFrame) {
    f.data[1..4] == [0x2E, 0xFD, 0x38] && f.data[4] in {1, 2, 3, 4, 5, 6, 7, 8}
  }

  /** The commands that are answered: one of the eight patterns or the home screen, if the backend
      shows it. The answer is the positive one for the very parameter that was written. */
  lemma SingleReplyEchoes(f: CanFrame, ok: bool)
    ensures var replies := SingleReply(f, ok);
      && (replies != [] <==> ok && (WritesPattern(f) || f.data[1..5] == [0x2E, 0xFD, 0xC0, 0x01]))
      && (replies != [] ==>
            && |replies| == 1 && replies[0].id == RESPONSE_ID && replies[0].dlc == 8
            && replies[0].data[0] == 3 && replies[0].data[1] == f.data[1] + 0x40
            && replies[0].data[2..4] == f.data[2..4])
  {
    var d := f.data;
    assert d[1..4] == [d[1], d[2], d[3]] && d[1..5] == [d[1], d[2], d[3], d[4]];
  }

  /** A frame that is neither a first nor a consecutive one ends a read with code 4, at any point
      of it; the answer to somebody's pattern command is such a frame. */
  lemma OtherFrameEndsRead(c: Client, f: CanFrame, rest: seq<CanFrame>)
    requires f.id == RESPONSE_ID && !(0x10 <= f.data[0] <= 0x2F)
    ensures ClientRun(c, [f] + rest) == Failed(4)
  {
    assert ([f] + rest)[0] == f;
  }

  /** A read that hears anything else than a first frame of the part number's answer at its start
      ends with code 4. */
  lemma WrongStartEndsRead(f: CanFrame, rest: seq<CanFrame>)
    requires f.id == RESPONSE_ID && !(0x10 <= f.data[0] <= 0x1F && f.data[2..5] == [0x62, 0xFD, 0xBD])
    ensures ClientRun(FRESH_CLIENT, [f] + rest) == Failed(4)
  {
    assert ([f] + rest)[0] == f;
    assert f.data[2..5] == [f.data[2], f.data[3], f.data[4]];
  }

  /** An announced length below the three service bytes wraps around: such a read never completes,
      however many frames come before the buffer would hold as many bytes as memory can. */
  lemma {:induction false} ShortTotalNeverCompletes(c: Client, frames: seq<CanFrame>)
    requires c.receiving && c.total < 3 && |c.rx| + 7 * |frames| < 0xFFFF_FFFF_FFFF_FFFD
    ensures !ClientRun(c, frames).Finished?
    decreases |frames|
  {
    if frames != [] {
      if frames[0].id != RESPONSE_ID {
        ShortTotalNeverCompletes(c, frames[1..]);
      } else {
        match ClientStep(c, frames[0])
        case More(next, _) => ShortTotalNeverCompletes(next, frames[1..]);
        case _ =>
      }
    }
  }

  lemma TooLongIsRefused(s: Daemon, value: seq<byte>)
    requires WellFormed(s)
    ensures WriteExchange(s, value).1 == 2 <==> |value| > 16
    ensures |value| > 16 ==> WriteExchange(s, value).0 == s
  {
    if |value| <= 16 {
      WriteStores(s, value);
    }
  }

  /** A frame of 8 bytes of one of the four types: a single one of length 3, a first one, a
      consecutive one, or flow control. */
  predicate IsTyped(f: CanFrame) { f.dlc == 8 && (f.data[0] in {0x03, 0x10, 0x30} || 0x20 <= f.data[0] <= 0x2F) }

  lemma {:induction false} ConsecutiveAreTyped(id: nat, tx: seq<byte>, sent: nat, sequence: nat)
    ensures forall f :: f in ConsecutiveFrames(id, tx, sent, sequence) ==> f.id == id && IsTyped(f)
    decreases |tx| - sent
  {
    if sent < |tx| {
      ConsecutiveAreTyped(id, tx, sent + (if |tx| - sent < 7 then |tx| - sent else 7), NextSequence(sequence));
    }
  }

  /** Everything the daemon sends is such a frame on the response id. */
  lemma RepliesAreTyped(s: Daemon, f: CanFrame, ok: bool)
    requires WellFormed(s) && SendingIsResponse(s)
    ensures forall r :: r in Step(s, f, ok).1 ==> r.id == RESPONSE_ID && IsTyped(r)
  {
    ConsecutiveAreTyped(s.link.responseId, s.link.tx, 6, s.link.sequence);
  }

  /** A read succeeds only if all it heard up to its end were first and consecutive frames. */
  lemma {:induction false} ReadHearsSegmentsOnly(c: Client, frames: seq<CanFrame>) returns (k: nat)
    requires ClientRun(c, frames).Finished?
    ensures k < |frames| && 0x20 <= frames[k].data[0] <= 0x2F
    ensures forall i :: 0 <= i <= k && frames[i].id == RESPONSE_ID ==> 0x10 <= frames[i].data[0] <= 0x2F
    decreases |frames|
  {
    if frames[0].id == RESPONSE_ID && ClientStep(c, frames[0]).Finished? {
      k := 0;
    } else {
      var next := if frames[0].id == RESPONSE_ID then ClientStep(c, frames[0]).next else c;
      var j := ReadHearsSegmentsOnly(next, frames[1..]);
      k := j + 1;
      assert forall i :: 1 <= i <= k ==> frames[i] == frames[1..][i - 1];
    }
  }

  // ---------------------------------------------------------------- traffic inside a transfer

  /** What reaches the daemon: frames of the bus and part numbers set over TCP. */
  datatype Event = OnBus(frame: CanFrame, patternOk: bool) | TcpSet(value: seq<byte>)

  function React(s: Daemon, e: Event): (s': Daemon)
    requires WellFormed(s)
    ensures WellFormed(s')
  {
    match e
    case OnBus(f, ok) =>
      StepKeepsWellFormed(s, f, ok);
      if f.id == REQUEST_ID then Step(s, f, ok).0 else s
    case TcpSet(v) => if 0 < |v| <= 16 then s.(partNumber := Stored(v)) else s
  }

  function ReactAll(s: Daemon, events: seq<Event>): (s': Daemon)
    requires WellFormed(s)
    ensures WellFormed(s')
    decreases |events|
  {
    if events == [] then s else ReactAll(React(s, events[0]), events[1..])
  }

  /** Frames a write transfer does not survive: they share its sequence number or restart it. */
  predicate TakesOver(f: CanFrame, sending: bool) {
    f.id == REQUEST_ID
    && (IsReadRequest(f) || (!IsSingle(f) && IsWriteFirst(f)) || (f.data[0] == 0x30 && sending))
  }

  predicate IsConsecutive(f: CanFrame, sequence: nat) {
    f.id == REQUEST_ID && f.data[0] == 0x20 + sequence
  }

  /** Traffic the daemon may see while it waits for consecutive frame `expected`. */
  ghost predicate Bystander(e: Event, sending: bool, expected: nat) {
    e.OnBus? ==> !TakesOver(e.frame, sending) && !IsConsecutive(e.frame, expected)
  }

  lemma {:induction false} BystandersKeepLink(s: Daemon, events: seq<Event>, expected: nat)
    requires WellFormed(s)
    requires s.link.receiving ==> s.link.sequence == expected
    requires forall e :: e in events ==> Bystander(e, s.link.sending, expected)
    ensures ReactAll(s, events).link == s.link
    decreases |events|
  {
    if events != [] {
      assert Bystander(events[0], s.link.sending, expected);
      BystandersKeepLink(React(s, events[0]), events[1..], expected);
    }
  }

  lemma {:induction false} ReactAllConcat(s: Daemon, a: seq<Event>, b: seq<Event>)
    requires WellFormed(s)
    ensures ReactAll(s, a + b) == ReactAll(ReactAll(s, a), b)
    decreases |a|
  {
    if a == [] {
      assert a + b == b;
    } else {
      assert (a + b)[1..] == a[1..] + b;
      ReactAllConcat(React(s, a[0]), a[1..], b);
    }
  }

  function Bus(f: CanFrame): Event { OnBus(f, false) }

  lemma AfterNoise(s: Daemon, noise: seq<Event>, f: CanFrame, rest: seq<Event>)
    requires WellFormed(s)
    ensures ReactAll(s, noise + [Bus(f)] + rest) == ReactAll(React(ReactAll(s, noise), Bus(f)), rest)
  {
    assert noise + [Bus(f)] + rest == noise + ([Bus(f)] + rest);
    ReactAllConcat(s, noise, [Bus(f)] + rest);
    assert ([Bus(f)] + rest)[1..] == rest;
  }

  /** Replayed consecutive frames, pattern commands, frames of other nodes and TCP updates may
      be interleaved anywhere in a write transfer: it still stores its value, whatever the client
      is then told. After the last frame the value stays until somebody writes another one. */
  lemma WriteSurvivesBystanders(s: Daemon, bytes: seq<byte>, n1: seq<Event>, n2: seq<Event>, n3: seq<Event>)
    requires WellFormed(s) && |bytes| == 16
    requires forall e :: e in n1 ==> Bystander(e, s.link.sending, 1)
    requires forall e :: e in n2 ==> Bystander(e, s.link.sending, 2)
    requires forall e :: e in n3 ==> e.OnBus? && !TakesOver(e.frame, s.link.sending)
    ensures ReactAll(s, [Bus(WriteFirst(bytes))]
                        + (n1 + [Bus(WriteSecond(bytes))] + (n2 + [Bus(WriteThird(bytes))] + n3))).partNumber
         == Stored(NonZero(bytes))
  {
    var tail3 := n2 + [Bus(WriteThird(bytes))] + n3;
    var tail2 := n1 + [Bus(WriteSecond(bytes))] + tail3;
    assert ([Bus(WriteFirst(bytes))] + tail2)[1..] == tail2;
    FirstStep(s, bytes);
    var s1 := React(s, Bus(WriteFirst(bytes)));
    BystandersKeepLink(s1, n1, 1);
    AfterNoise(s1, n1, WriteSecond(bytes), tail3);
    SecondStep(ReactAll(s1, n1), bytes);
    var s2 := React(ReactAll(s1, n1), Bus(WriteSecond(bytes)));
    BystandersKeepLink(s2, n2, 2);
    AfterNoise(s2, n2, WriteThird(bytes), n3);
    ThirdStep(ReactAll(s2, n2), bytes);
    QuietKeepsPart(React(ReactAll(s2, n2), Bus(WriteThird(bytes))), n3);
  }

  lemma {:induction false} QuietKeepsPart(s: Daemon, events: seq<Event>)
    requires WellFormed(s) && !s.link.receiving
    requires forall e :: e in events ==> e.OnBus? && !TakesOver(e.frame, s.link.sending)
    ensures ReactAll(s, events).partNumber == s.partNumber
    decreases |events|
  {
    if events != [] {
      assert !TakesOver(events[0].frame, s.link.sending);
      assert React(s, events[0]) == s;
      QuietKeepsPart(s, events[1..]);
    }
  }

  /** What every reachable daemon that is sending has prepared: the 19-byte response. */
  ghost predicate SendingIsResponse(s: Daemon) {
    s.link.sending ==> |s.link.tx| == 19 && s.link.responseId == RESPONSE_ID
  }

  lemma StepKeepsSendingIsResponse(s: Daemon, e: Event)
    requires WellFormed(s) && SendingIsResponse(s)
    ensures SendingIsResponse(React(s, e))
  {
  }

  /** The daemon after a write with frame x between its last two frames. */
  function Interrupted(s: Daemon, bytes: seq<byte>, x: CanFrame, ok: bool): Daemon
    requires WellFormed(s) && |bytes| == 16
  {
    var s2 := React(React(s, Bus(WriteFirst(bytes))), Bus(WriteSecond(bytes)));
    React(React(s2, OnBus(x, ok)), Bus(WriteThird(bytes)))
  }

  lemma TakeOverBreaks(s: Daemon, bytes: seq<byte>, x: CanFrame, ok: bool)
    requires WellFormed(s) && SendingIsResponse(s) && |bytes| == 16
    requires Awaiting(s.link, bytes, 10, 2) && TakesOver(x, s.link.sending)
    ensures var sx := React(s, OnBus(x, ok));
      sx.link.receiving && sx.link.sequence != 2 && sx.partNumber == s.partNumber
  {
    if !IsReadRequest(x) && !IsWriteFirst(x) {
      assert SequenceAfter(s.link.tx, 6, 2) == SequenceAfter(s.link.tx, 13, 3) == SequenceAfter(s.link.tx, 19, 4);
    }
  }

  lemma OutOfSequenceIgnored(s: Daemon, bytes: seq<byte>)
    requires WellFormed(s) && |bytes| == 16 && s.link.sequence != 2
    ensures React(s, Bus(WriteThird(bytes))) == s
  {
  }

  lemma EarlyThirdCompletes(s: Daemon, bytes: seq<byte>, x: CanFrame, ok: bool)
    requires WellFormed(s) && |bytes| == 16
    requires Awaiting(s.link, bytes, 10, 2) && IsConsecutive(x, 2)
    ensures !React(s, OnBus(x, ok)).link.receiving
  {
  }

  /** A frame between the last two frames of a write: the transfer completes if and only if
      that frame is not one that takes the shared link state over. */
  lemma TransferCompletesIff(s: Daemon, bytes: seq<byte>, x: CanFrame, ok: bool)
    requires WellFormed(s) && SendingIsResponse(s) && |bytes| == 16
    ensures var s' := Interrupted(s, bytes, x, ok);
      && (!s'.link.receiving <==> !TakesOver(x, s.link.sending))
      && (!TakesOver(x, s.link.sending) && !IsConsecutive(x, 2) ==> s'.partNumber == Stored(NonZero(bytes)))
      && (TakesOver(x, s.link.sending) ==> s'.partNumber == s.partNumber)
  {
    FirstStep(s, bytes);
    var s1 := React(s, Bus(WriteFirst(bytes)));
    SecondStep(s1, bytes);
    var s2 := React(s1, Bus(WriteSecond(bytes)));
    assert s2.link.sending == s.link.sending && s2.link.tx == s.link.tx && s2.partNumber == s.partNumber;
    AfterInsertion(s2, bytes, x, ok);
  }

  lemma AfterInsertion(s2: Daemon, bytes: seq<byte>, x: CanFrame, ok: bool)
    requires WellFormed(s2) && SendingIsResponse(s2) && |bytes| == 16 && Awaiting(s2.link, bytes, 10, 2)
    ensures var s' := React(React(s2, OnBus(x, ok)), Bus(WriteThird(bytes)));
      && (!s'.link.receiving <==> !TakesOver(x, s2.link.sending))
      && (!TakesOver(x, s2.link.sending) && !IsConsecutive(x, 2) ==> s'.partNumber == Stored(NonZero(bytes)))
      && (TakesOver(x, s2.link.sending) ==> s'.partNumber == s2.partNumber)
  {
    var sx := React(s2, OnBus(x, ok));
    if TakesOver(x, s2.link.sending) {
      TakeOverBreaks(s2, bytes, x, ok);
      OutOfSequenceIgnored(sx, bytes);
    } else if IsConsecutive(x, 2) {
      EarlyThirdCompletes(s2, bytes, x, ok);
    } else {
      BystandersKeepLink(s2, [OnBus(x, ok)], 2);
      assert ReactAll(sx, []) == sx && [OnBus(x, ok)][1..] == [];
      ThirdStep(sx, bytes);
    }
  }

  /** The response is a snapshot: part numbers set over TCP, pattern commands and frames of
      other nodes between the request and the flow control do not reach it. */
  lemma ReadIsSnapshot(s: Daemon, between: seq<Event>)
    requires WellFormed(s)
    requires forall e :: e in between ==> e.TcpSet? || e.frame.id != REQUEST_ID || IsSingle(e.frame)
    ensures var s1 := ReactAll(React(s, Bus(READ_REQUEST)), between);
      Step(s, READ_REQUEST, false).1 + Step(s1, FLOW_CONTROL, false).1 == Segments(ReadPayload(s.partNumber))
  {
    AnswersReadRequest(s);
    KeepsLink(React(s, Bus(READ_REQUEST)), between);
    AnswersFlowControl(ReactAll(React(s, Bus(READ_REQUEST)), between));
  }

  lemma {:induction false} KeepsLink(s: Daemon, events: seq<Event>)
    requires WellFormed(s)
    requires forall e :: e in events ==> e.TcpSet? || e.frame.id != REQUEST_ID || IsSingle(e.frame)
    ensures ReactAll(s, events).link == s.link
    decreases |events|
  {
    if events != [] {
      assert events[0] in events;
      KeepsLink(React(s, events[0]), events[1..]);
    }
  }
}
