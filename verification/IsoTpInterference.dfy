/** Other traffic around a write transfer. The daemon's two halves share one sequence number and
    any sender may write a first frame, so what a transfer stores depends on every frame that
    touches the link; and the writing client listens to one id on which everybody's answers
    arrive, so what it reports depends on everything that is heard there. Both are decided here
    for every sequence of events before, between and after the three frames of a write. */
module IsoTpInterference {
  import opened Basics
  import opened IsoTp
  import opened IsoTpTheorems

  // ---------------------------------------------------------------- what one event does

  /** What matters of the link: whether a write is being received, its value bytes so far, the
      shared sequence number, and whether a response is prepared. */
  datatype Assembly = Assembly(open: bool, held: seq<byte>, sequence: nat, sending: bool)

  predicate ToDaemon(e: Event) { e.OnBus? && e.frame.id == REQUEST_ID }

  predicate Asks(e: Event) { ToDaemon(e) && IsReadRequest(e.frame) }

  predicate Opens(e: Event) { ToDaemon(e) && IsWriteFirst(e.frame) }

  /** A flow control while a response is prepared. */
  predicate Drains(a: Assembly, e: Event) { ToDaemon(e) && e.frame.data[0] == 0x30 && a.sending }

  /** The consecutive frame the daemon expects at this moment. */
  predicate Continues(a: Assembly, e: Event) {
    ToDaemon(e) && 0x21 <= e.frame.data[0] <= 0x2F && a.open && e.frame.data[0] == 0x20 + a.sequence
  }

  predicate Completes(a: Assembly, e: Event) { Continues(a, e) && |a.held| == 10 }

  predicate Touches(a: Assembly, e: Event) { Asks(e) || Opens(e) || Drains(a, e) || Continues(a, e) }

  /** A pattern or home command that is carried out. */
  predicate Shows(e: Event) { ToDaemon(e) && IsSingle(e.frame) && SingleReply(e.frame, e.patternOk) != [] }

  function AfterEvent(a: Assembly, e: Event): Assembly {
    if Asks(e) then a.(sequence := 1, sending := true)
    else if Opens(e) then Assembly(true, e.frame.data[5..], 1, a.sending)
    else if Drains(a, e) then a.(sequence := NextSequence(NextSequence(a.sequence)), sending := false)
    else if Completes(a, e) then Assembly(false, [], NextSequence(a.sequence), a.sending)
    else if Continues(a, e) then a.(held := a.held + e.frame.data[1..], sequence := NextSequence(a.sequence))
    else a
  }

  /** The part number the event stores, if it stores one. */
  function StoredBy(a: Assembly, e: Event): Option<seq<byte>> {
    if e.TcpSet? then (if 0 < |e.value| <= 16 then Some(Stored(e.value)) else None)
    else if Completes(a, e) then Some(Stored(NonZero((a.held + e.frame.data[1..])[..16])))
    else None
  }

  function Or(stored: Option<seq<byte>>, part: seq<byte>): seq<byte> {
    if stored.Some? then stored.value else part
  }

  /** A frame on the response id as the writing client takes it. */
  datatype Sound = Flow | Positive | Other

  function Kind(f: CanFrame): Sound {
    if IsPositive(f) then Positive else if f.data[0] == 0x30 then Flow else Other
  }

  /** What the event makes audible on the response id. */
  function SoundsOf(a: Assembly, e: Event): seq<Sound> {
    if e.TcpSet? then []
    else if e.frame.id == RESPONSE_ID then [Kind(e.frame)]
    else if Opens(e) then [Flow]
    else if Completes(a, e) then [Positive]
    else if Asks(e) || Shows(e) then [Other]
    else if Drains(a, e) then [Other, Other]
    else []
  }

  /** The frames on the response id: those of other nodes and the daemon's own. */
  function Heard(s: Daemon, e: Event): seq<CanFrame>
    requires WellFormed(s)
  {
    if e.TcpSet? then []
    else if e.frame.id == RESPONSE_ID then [e.frame]
    else if e.frame.id == REQUEST_ID then Received(Step(s, e.frame, e.patternOk).1)
    else []
  }

  function Kinds(frames: seq<CanFrame>): (k: seq<Sound>)
    ensures |k| == |frames|
  {
    seq(|frames|, i requires 0 <= i < |frames| => Kind(frames[i]))
  }

  function AssemblyOf(s: Daemon): Assembly {
    Assembly(s.link.receiving, if s.link.receiving && |s.link.rx| >= 3 then s.link.rx[3..] else [],
             s.link.sequence, s.link.sending)
  }

  /** The sequence number tells how far a reception is unless a read has moved it. */
  predicate Plausible(a: Assembly) {
    && a.sequence <= 5 && (a.sending ==> 1 <= a.sequence <= 3)
    && if !a.open then a.held == []
       else if |a.held| == 3 then a.sequence == 1 || (a.sequence == 3 && !a.sending)
       else |a.held| == 10 && 1 <= a.sequence <= 4 && (a.sending ==> a.sequence <= 2)
  }

  /** What every reachable daemon satisfies. */
  ghost predicate Consistent(s: Daemon) {
    && WellFormed(s) && SendingIsResponse(s) && Plausible(AssemblyOf(s))
    && (s.link.receiving ==> s.link.total == 19 && s.link.rx == [0x2E, 0xFD, 0xBD] + AssemblyOf(s).held)
  }

  lemma IdleIsConsistent(s: Daemon)
    requires |s.partNumber| == 17 && s.partNumber[16] == 0
    requires s.link.sequence == 0 && !s.link.receiving && !s.link.sending
    ensures Consistent(s)
  {
  }

  lemma {:induction false} ReceivedAll(frames: seq<CanFrame>)
    requires forall i :: 0 <= i < |frames| ==> frames[i].id == RESPONSE_ID
    ensures Received(frames) == frames
  {
    if frames != [] {
      ReceivedAll(frames[..|frames| - 1]);
    }
  }

  lemma ConsecutiveIsOther(sequence: nat, chunk: seq<byte>)
    requires |chunk| <= 7
    ensures var f := ConsecutiveFrame(RESPONSE_ID, sequence, chunk); Kind(f) == Other && f.id == RESPONSE_ID
  {
    assert 0x20 <= ConsecutiveFrame(RESPONSE_ID, sequence, chunk).data[0] < 0x30;
  }

  lemma TwoFrames(tx: seq<byte>, sequence: nat, next: nat)
    requires |tx| == 19 && next == NextSequence(sequence)
    ensures ConsecutiveFrames(RESPONSE_ID, tx, 6, sequence)
         == [ConsecutiveFrame(RESPONSE_ID, sequence, tx[6..13]), ConsecutiveFrame(RESPONSE_ID, next, tx[13..19])]
    ensures SequenceAfter(tx, 6, sequence) == NextSequence(next)
  {
    var last := NextSequence(next);
    assert ConsecutiveFrames(RESPONSE_ID, tx, 19, last) == [];
    assert ConsecutiveFrames(RESPONSE_ID, tx, 13, next) == [ConsecutiveFrame(RESPONSE_ID, next, tx[13..19])];
    assert SequenceAfter(tx, 6, sequence) == SequenceAfter(tx, 13, next) == SequenceAfter(tx, 19, last);
  }

  lemma TwoFramesSent(tx: seq<byte>, sequence: nat)
    requires |tx| == 19
    ensures SequenceAfter(tx, 6, sequence) == NextSequence(NextSequence(sequence))
    ensures Kinds(Received(ConsecutiveFrames(RESPONSE_ID, tx, 6, sequence))) == [Other, Other]
  {
    var next := NextSequence(sequence);
    TwoFrames(tx, sequence, next);
    ConsecutiveIsOther(sequence, tx[6..13]);
    ConsecutiveIsOther(next, tx[13..19]);
    ReceivedAll(ConsecutiveFrames(RESPONSE_ID, tx, 6, sequence));
  }

  lemma ReceivedOne(f: CanFrame)
    ensures Received([f]) == if f.id == RESPONSE_ID then [f] else []
  {
    assert [f][..0] == [];
    assert Received([]) == [];
  }

  /** The event does to the daemon what it does to its assembly, stores what is said, and is
      heard as said. */
  ghost predicate Follows(s: Daemon, e: Event)
    requires WellFormed(s)
  {
    var a, t := AssemblyOf(s), React(s, e);
    && Consistent(t) && AssemblyOf(t) == AfterEvent(a, e)
    && t.partNumber == Or(StoredBy(a, e), s.partNumber)
    && Kinds(Heard(s, e)) == SoundsOf(a, e)
  }

  lemma AcceptStep(s: Daemon, e: Event)
    requires Consistent(s) && Continues(AssemblyOf(s), e) && |AssemblyOf(s).held| == 3
    ensures Follows(s, e) && Step(s, e.frame, e.patternOk).1 == []
  {
    var held, data := AssemblyOf(s).held, e.frame.data;
    assert Filled(s.link.rx, data, 19) == [0x2E, 0xFD, 0xBD] + (held + data[1..]);
  }

  lemma CompletedBuffer(held: seq<byte>, data: Data)
    requires |held| == 10
    ensures var rx := Filled([0x2E, 0xFD, 0xBD] + held, data, 19);
      |rx| == 19 && rx[3..19] == (held + data[1..])[..16]
  {
    var rx := Filled([0x2E, 0xFD, 0xBD] + held, data, 19);
    assert rx == [0x2E, 0xFD, 0xBD] + (held + data[1..7]);
    assert (held + data[1..])[..16] == held + data[1..7];
  }

  lemma CompleteStep(s: Daemon, e: Event)
    requires Consistent(s) && Continues(AssemblyOf(s), e) && |AssemblyOf(s).held| == 10
    ensures Follows(s, e) && Step(s, e.frame, e.patternOk).1 == [POSITIVE_REPLY]
  {
    CompletedBuffer(AssemblyOf(s).held, e.frame.data);
    ReceivedOne(POSITIVE_REPLY);
  }

  lemma OpenStep(s: Daemon, e: Event)
    requires Consistent(s) && Opens(e)
    ensures Follows(s, e)
  {
    ReceivedOne(FLOW_CONTROL_REPLY);
    assert e.frame.data[2..] == [0x2E, 0xFD, 0xBD] + e.frame.data[5..];
  }

  lemma AskStep(s: Daemon, e: Event)
    requires Consistent(s) && Asks(e)
    ensures Follows(s, e)
  {
    ReceivedOne(FirstFrame(RESPONSE_ID, ReadPayload(s.partNumber)));
  }

  lemma DrainStep(s: Daemon, e: Event)
    requires Consistent(s) && Drains(AssemblyOf(s), e)
    ensures Follows(s, e)
  {
    TwoFramesSent(s.link.tx, s.link.sequence);
  }

  lemma SingleStep(s: Daemon, e: Event)
    requires Consistent(s) && ToDaemon(e) && IsSingle(e.frame)
    ensures Follows(s, e)
  {
    ReceivedOne(PATTERN_REPLY);
    ReceivedOne(HOME_REPLY);
  }

  lemma IgnoredStep(s: Daemon, e: Event)
    requires Consistent(s) && ToDaemon(e) && !IsSingle(e.frame) && !Touches(AssemblyOf(s), e)
    ensures Follows(s, e)
  {
    assert Step(s, e.frame, e.patternOk) == (s, []);
  }

  lemma EventStep(s: Daemon, e: Event)
    requires Consistent(s)
    ensures Follows(s, e)
  {
    if ToDaemon(e) {
      if Completes(AssemblyOf(s), e) {
        CompleteStep(s, e);
      } else if Continues(AssemblyOf(s), e) {
        AcceptStep(s, e);
      } else if Opens(e) {
        OpenStep(s, e);
      } else if Asks(e) {
        AskStep(s, e);
      } else if Drains(AssemblyOf(s), e) {
        DrainStep(s, e);
      } else if IsSingle(e.frame) {
        SingleStep(s, e);
      } else {
        IgnoredStep(s, e);
      }
    }
  }

  // ---------------------------------------------------------------- what a run does

  function AfterEvents(a: Assembly, events: seq<Event>): Assembly
    decreases |events|
  {
    if events == [] then a else AfterEvents(AfterEvent(a, events[0]), events[1..])
  }

  /** The assembly as event k of the run finds it. */
  function At(a: Assembly, events: seq<Event>, k: nat): Assembly
    requires k <= |events|
  {
    AfterEvents(a, events[..k])
  }

  function PartAfter(a: Assembly, part: seq<byte>, events: seq<Event>): seq<byte>
    decreases |events|
  {
    if events == [] then part
    else PartAfter(AfterEvent(a, events[0]), Or(StoredBy(a, events[0]), part), events[1..])
  }

  function Sounds(a: Assembly, events: seq<Event>): seq<Sound>
    decreases |events|
  {
    if events == [] then [] else SoundsOf(a, events[0]) + Sounds(AfterEvent(a, events[0]), events[1..])
  }

  function HeardAll(s: Daemon, events: seq<Event>): seq<CanFrame>
    requires WellFormed(s)
    decreases |events|
  {
    if events == [] then [] else Heard(s, events[0]) + HeardAll(React(s, events[0]), events[1..])
  }

  lemma KindsConcat(a: seq<CanFrame>, b: seq<CanFrame>)
    ensures Kinds(a + b) == Kinds(a) + Kinds(b)
  {
  }

  /** The daemon's buffers, the part number and everything heard follow the assembly, over any
      run of events. */
  lemma {:induction false} RunFollows(s: Daemon, events: seq<Event>)
    requires Consistent(s)
    ensures var t := ReactAll(s, events);
      && Consistent(t) && AssemblyOf(t) == AfterEvents(AssemblyOf(s), events)
      && t.partNumber == PartAfter(AssemblyOf(s), s.partNumber, events)
      && Kinds(HeardAll(s, events)) == Sounds(AssemblyOf(s), events)
    decreases |events|
  {
    if events != [] {
      var t, rest := React(s, events[0]), events[1..];
      EventStep(s, events[0]);
      RunFollows(t, rest);
      KindsConcat(Heard(s, events[0]), HeardAll(t, rest));
    }
  }

  lemma {:induction false} AfterEventsConcat(a: Assembly, b: seq<Event>, c: seq<Event>)
    ensures AfterEvents(a, b + c) == AfterEvents(AfterEvents(a, b), c)
    decreases |b|
  {
    if b == [] {
      assert b + c == c;
    } else {
      assert (b + c)[1..] == b[1..] + c;
      AfterEventsConcat(AfterEvent(a, b[0]), b[1..], c);
    }
  }

  lemma NextAt(a: Assembly, events: seq<Event>, k: nat)
    requires k < |events|
    ensures At(a, events, k + 1) == AfterEvent(At(a, events, k), events[k])
  {
    assert events[..k + 1] == events[..k] + [events[k]];
    AfterEventsConcat(a, events[..k], [events[k]]);
    assert [events[k]][1..] == [];
  }

  lemma {:induction false} StaysPlausible(a: Assembly, events: seq<Event>, k: nat)
    requires Plausible(a) && k <= |events|
    ensures Plausible(At(a, events, k))
    decreases k
  {
    if k > 0 {
      StaysPlausible(a, events, k - 1);
      NextAt(a, events, k - 1);
    }
  }

  // ---------------------------------------------------------------- whose bytes are stored

  /** No event from..upTo - 1 is a first frame of a write. */
  predicate NoOpening(events: seq<Event>, from: nat, upTo: nat)
    requires upTo <= |events|
  {
    forall i :: from <= i < upTo ==> !Opens(events[i])
  }

  predicate NoContinuing(a: Assembly, events: seq<Event>, from: nat, upTo: nat)
    requires upTo <= |events|
  {
    forall i :: from <= i < upTo ==> !Continues(At(a, events, i), events[i])
  }

  /** Event m is the only frame the daemon accepted since first frame f. */
  predicate OnlyAccepted(a: Assembly, events: seq<Event>, f: nat, m: nat, k: nat)
    requires k <= |events|
  {
    && f < m < k && Continues(At(a, events, m), events[m])
    && NoContinuing(a, events, f + 1, m) && NoContinuing(a, events, m + 1, k)
  }

  function FirstThree(e: Event): seq<byte>
    requires e.OnBus?
  {
    e.frame.data[5..]
  }

  function NextSeven(e: Event): seq<byte>
    requires e.OnBus?
  {
    e.frame.data[1..]
  }

  /** While a write is received, the bytes held are those of the last first frame and of the
      one frame accepted after it, if there was one; at m it found three. */
  lemma {:induction false} HeldPieces(a: Assembly, events: seq<Event>, f: nat, k: nat) returns (m: nat)
    requires Plausible(a) && f < k <= |events| && Opens(events[f]) && NoOpening(events, f + 1, k)
    requires At(a, events, k).open
    ensures f < m <= k
    ensures m == k ==> NoContinuing(a, events, f + 1, k) && At(a, events, k).held == FirstThree(events[f])
    ensures m < k ==> OnlyAccepted(a, events, f, m, k)
    ensures m < k ==> At(a, events, k).held == FirstThree(events[f]) + NextSeven(events[m])
    decreases k
  {
    NextAt(a, events, k - 1);
    StaysPlausible(a, events, k - 1);
    var before := At(a, events, k - 1);
    if k == f + 1 {
      return k;
    }
    assert !Opens(events[k - 1]);
    m := HeldPieces(a, events, f, k - 1);
    if m == k - 1 && !Continues(before, events[k - 1]) {
      m := k;
    }
  }

  /** Wherever a write completes, whoever sent its frames: what is stored is the last first
      frame's three bytes, the seven of the one frame accepted after it, and the first six of
      the completing frame. */
  lemma CompletionStores(a: Assembly, events: seq<Event>, f: nat, k: nat) returns (m: nat)
    requires Plausible(a) && f < k < |events| && Opens(events[f]) && NoOpening(events, f + 1, k)
    requires Completes(At(a, events, k), events[k])
    ensures OnlyAccepted(a, events, f, m, k)
    ensures StoredBy(At(a, events, k), events[k])
         == Some(Stored(NonZero(FirstThree(events[f]) + NextSeven(events[m]) + NextSeven(events[k])[..6])))
  {
    m := HeldPieces(a, events, f, k);
    var held, data := At(a, events, k).held, events[k].frame.data;
    assert |held| == 10;
    assert (held + data[1..])[..16] == held + data[1..][..6];
  }

  /** After any run the part number is what the last event that stored one stored. */
  lemma {:induction false} LastStoreCounts(a: Assembly, part: seq<byte>, events: seq<Event>, k: nat)
    requires k < |events| && StoredBy(At(a, events, k), events[k]).Some?
    requires forall i :: k < i < |events| ==> StoredBy(At(a, events, i), events[i]).None?
    ensures PartAfter(a, part, events) == StoredBy(At(a, events, k), events[k]).value
    decreases |events|
  {
    var last := |events| - 1;
    PartAfterLast(a, part, events);
    if k < last {
      var before := events[..last];
      assert before[..k] == events[..k];
      forall i | k < i < |before|
        ensures StoredBy(At(a, before, i), before[i]).None?
      {
        assert before[..i] == events[..i];
      }
      LastStoreCounts(a, part, before, k);
    }
  }

  lemma {:induction false} PartAfterLast(a: Assembly, part: seq<byte>, events: seq<Event>)
    requires events != []
    ensures var k := |events| - 1;
      PartAfter(a, part, events) == Or(StoredBy(At(a, events, k), events[k]), PartAfter(a, part, events[..k]))
    decreases |events|
  {
    var k, rest := |events| - 1, events[1..];
    if k > 0 {
      PartAfterLast(AfterEvent(a, events[0]), Or(StoredBy(a, events[0]), part), rest);
      assert rest[..k - 1] == events[..k][1..];
    } else {
      assert rest == [];
    }
  }

  // ---------------------------------------------------------------- when the third frame is answered

  /** What the third frame of a write needs to find. */
  predicate Ready(a: Assembly) { a.open && |a.held| == 10 && a.sequence == 2 }

  /** Event m is an accepted 0x21 frame that leaves ten bytes held, and nothing has touched the
      link since. */
  predicate MakesReady(a: Assembly, events: seq<Event>, m: nat) {
    && m < |events| && |At(a, events, m).held| == 3
    && Continues(At(a, events, m), events[m]) && events[m].frame.data[0] == 0x21
    && forall i :: m < i < |events| ==> !Touches(At(a, events, i), events[i])
  }

  ghost predicate WasMadeReady(a: Assembly, events: seq<Event>) {
    exists m: nat :: MakesReady(a, events, m)
  }

  lemma ReadyStep(a: Assembly, e: Event)
    requires Plausible(a)
    ensures var accepted := |a.held| == 3 && Continues(a, e) && e.frame.data[0] == 0x21;
      Ready(AfterEvent(a, e)) <==> accepted || (!Touches(a, e) && Ready(a))
  {
  }

  lemma {:induction false} ReadyIff(a: Assembly, events: seq<Event>)
    requires Plausible(a) && !Ready(a)
    ensures Ready(AfterEvents(a, events)) <==> WasMadeReady(a, events)
    decreases |events|
  {
    if events != [] {
      var last := |events| - 1;
      var before := events[..last];
      assert forall i :: 0 <= i <= last ==> before[..i] == events[..i];
      assert events[..|events|] == events;
      NextAt(a, events, last);
      StaysPlausible(a, events, last);
      ReadyStep(At(a, events, last), events[last]);
      ReadyIff(a, before);
      ReadyExtends(a, events);
    }
  }

  lemma ReadyExtends(a: Assembly, events: seq<Event>)
    requires events != []
    ensures var last := |events| - 1;
      var b, e := At(a, events, last), events[last];
      var accepted := |b.held| == 3 && Continues(b, e) && e.frame.data[0] == 0x21;
      WasMadeReady(a, events) <==> accepted || (!Touches(b, e) && WasMadeReady(a, events[..last]))
  {
    var last := |events| - 1;
    var before, b, e := events[..last], At(a, events, last), events[last];
    assert forall i :: 0 <= i <= last ==> before[..i] == events[..i];
    if |b.held| == 3 && Continues(b, e) && e.frame.data[0] == 0x21 {
      assert MakesReady(a, events, last);
    }
    if WasMadeReady(a, before) && !Touches(b, e) {
      var m: nat :| MakesReady(a, before, m);
      assert MakesReady(a, events, m);
    }
    if WasMadeReady(a, events) {
      var m: nat :| MakesReady(a, events, m);
      if m < last {
        assert MakesReady(a, before, m);
      }
    }
  }

  /** The daemon just before the last frame of a write with this traffic in its gaps. */
  function BeforeLast(s: Daemon, bytes: seq<byte>, n1: seq<Event>, n2: seq<Event>): (t: Daemon)
    requires WellFormed(s) && |bytes| == 16
    ensures WellFormed(t)
  {
    ReactAll(React(s, Bus(WriteFirst(bytes))), Middle(bytes, n1, n2))
  }

  function Middle(bytes: seq<byte>, n1: seq<Event>, n2: seq<Event>): seq<Event>
    requires |bytes| == 16
  {
    n1 + [Bus(WriteSecond(bytes))] + n2
  }

  function Opened(bytes: seq<byte>, sending: bool): Assembly
    requires |bytes| == 16
  {
    Assembly(true, bytes[..3], 1, sending)
  }

  lemma FirstOpens(s: Daemon, bytes: seq<byte>)
    requires Consistent(s) && |bytes| == 16
    ensures var t := React(s, Bus(WriteFirst(bytes)));
      Consistent(t) && AssemblyOf(t) == Opened(bytes, s.link.sending) && t.partNumber == s.partNumber
  {
    EventStep(s, Bus(WriteFirst(bytes)));
    assert WriteFirst(bytes).data[5..] == bytes[..3];
  }

  /** For any traffic between the three frames of a write: the daemon answers the third one if
      and only if the last event that touched the link was an accepted 0x21 frame that left ten
      bytes held. It then stores these ten and the last six; otherwise it ignores the frame. */
  lemma ThirdFrameIff(s: Daemon, bytes: seq<byte>, n1: seq<Event>, n2: seq<Event>)
    requires Consistent(s) && |bytes| == 16
    ensures var before, start := BeforeLast(s, bytes, n1, n2), Opened(bytes, s.link.sending);
      var (t, replies) := Step(before, WriteThird(bytes), false);
      var answered := WasMadeReady(start, Middle(bytes, n1, n2));
      && replies == (if answered then [POSITIVE_REPLY] else [])
      && (answered ==> !t.link.receiving && |AssemblyOf(before).held| == 10
                       && t.partNumber == Stored(NonZero(AssemblyOf(before).held + bytes[10..])))
      && (!answered ==> t == before)
      && before.partNumber == PartAfter(start, s.partNumber, Middle(bytes, n1, n2))
  {
    var s1, start, middle := React(s, Bus(WriteFirst(bytes))), Opened(bytes, s.link.sending), Middle(bytes, n1, n2);
    FirstOpens(s, bytes);
    RunFollows(s1, middle);
    ReadyIff(start, middle);
    LastFrame(BeforeLast(s, bytes, n1, n2), bytes);
  }

  lemma LastFrame(s: Daemon, bytes: seq<byte>)
    requires Consistent(s) && |bytes| == 16
    ensures var (t, replies) := Step(s, WriteThird(bytes), false);
      var a := AssemblyOf(s);
      && replies == (if Ready(a) then [POSITIVE_REPLY] else [])
      && (Ready(a) ==> !t.link.receiving && t.partNumber == Stored(NonZero(a.held + bytes[10..])))
      && (!Ready(a) ==> t == s)
  {
    var e, a := Bus(WriteThird(bytes)), AssemblyOf(s);
    if Ready(a) {
      CompleteStep(s, e);
      assert (a.held + WriteThird(bytes).data[1..])[..16] == a.held + bytes[10..];
    }
  }

  /** The value it then stores is the writer's if and only if the ten bytes carry the text of the
      writer's first ten. */
  lemma WriterIsStoredIff(s: Daemon, bytes: seq<byte>, n1: seq<Event>, n2: seq<Event>)
    requires Consistent(s) && |bytes| == 16
    requires Step(BeforeLast(s, bytes, n1, n2), WriteThird(bytes), false).1 == [POSITIVE_REPLY]
    ensures var before := BeforeLast(s, bytes, n1, n2);
      Step(before, WriteThird(bytes), false).0.partNumber == Stored(NonZero(bytes))
      <==> NonZero(AssemblyOf(before).held) == NonZero(bytes[..10])
  {
    ThirdFrameIff(s, bytes, n1, n2);
    SameTenIff(AssemblyOf(BeforeLast(s, bytes, n1, n2)).held, bytes);
  }

  lemma SameTenIff(held: seq<byte>, bytes: seq<byte>)
    requires |held| == 10 && |bytes| == 16
    ensures Stored(NonZero(held + bytes[10..])) == Stored(NonZero(bytes)) <==> NonZero(held) == NonZero(bytes[..10])
  {
    var ten, six := bytes[..10], bytes[10..];
    assert bytes == ten + six;
    SameStoredIff(held + six, ten + six);
    NonZeroConcat(held, six);
    NonZeroConcat(ten, six);
    SameTail(NonZero(held), NonZero(ten), NonZero(six));
  }

  lemma SameStoredIff(value: seq<byte>, bytes: seq<byte>)
    requires |value| == |bytes| == 16
    ensures Stored(NonZero(value)) == Stored(NonZero(bytes)) <==> NonZero(value) == NonZero(bytes)
  {
    NonZeroIsClean(value);
    NonZeroIsClean(bytes);
    StoredIsInjective(NonZero(value), NonZero(bytes));
  }

  lemma {:induction false} NonZeroConcat(a: seq<byte>, b: seq<byte>)
    ensures NonZero(a + b) == NonZero(a) + NonZero(b)
    decreases |b|
  {
    if b == [] {
      assert a + b == a;
    } else {
      assert (a + b)[..|a + b| - 1] == a + b[..|b| - 1];
      NonZeroConcat(a, b[..|b| - 1]);
    }
  }

  lemma StoredIsInjective(a: seq<byte>, b: seq<byte>)
    requires |a| <= 16 && |b| <= 16 && 0 !in a && 0 !in b
    ensures Stored(a) == Stored(b) <==> a == b
  {
    StoredReadsBack(a);
    StoredReadsBack(b);
    CStringIsClean(a);
    CStringIsClean(b);
  }

  lemma SameTail(a: seq<byte>, b: seq<byte>, c: seq<byte>)
    ensures a + c == b + c <==> a == b
  {
    if a + c == b + c {
      assert |a| == |b|;
      assert a == (a + c)[..|a|] && b == (b + c)[..|b|];
    }
  }

  // ---------------------------------------------------------------- what the client reports

  function Asked(bytes: seq<byte>, n0: seq<Event>, n1: seq<Event>): seq<Event>
    requires |bytes| == 16
  {
    n0 + ([Bus(WriteFirst(bytes))] + n1)
  }

  /** The three frames of a write with traffic before, between and after them, from the moment
      the client's socket is open. */
  function Timeline(bytes: seq<byte>, n0: seq<Event>, n1: seq<Event>, n2: seq<Event>, n3: seq<Event>): seq<Event>
    requires |bytes| == 16
  {
    Asked(bytes, n0, n1) + ([Bus(WriteSecond(bytes))] + (n2 + ([Bus(WriteThird(bytes))] + n3)))
  }

  /** handleSetHwPartNum on a shared bus: the first frame heard has to be a flow control before
      the last two frames are sent, and what is heard after it decides the exit code. The lists
      end where the client's timeouts end them. */
  function WriteAmid(s: Daemon, bytes: seq<byte>, n0: seq<Event>, n1: seq<Event>, n2: seq<Event>, n3: seq<Event>)
    : (Daemon, int)
    requires WellFormed(s) && |bytes| == 16
  {
    var heard := HeardAll(s, Asked(bytes, n0, n1));
    if heard == [] then (ReactAll(s, Asked(bytes, n0, n1)), 1)
    else if heard[0].data[0] != 0x30 then (ReactAll(s, Asked(bytes, n0, n1)), 4)
    else
      var all := Timeline(bytes, n0, n1, n2, n3);
      HeardConcat(s, Asked(bytes, n0, n1), [Bus(WriteSecond(bytes))] + (n2 + ([Bus(WriteThird(bytes))] + n3)));
      (ReactAll(s, all), WriteVerdict(HeardAll(s, all)[1..]))
  }

  lemma {:induction false} HeardConcat(s: Daemon, a: seq<Event>, b: seq<Event>)
    requires WellFormed(s)
    ensures HeardAll(s, a + b) == HeardAll(s, a) + HeardAll(ReactAll(s, a), b)
    decreases |a|
  {
    if a == [] {
      assert a + b == b;
    } else {
      var t, rest := React(s, a[0]), a[1..];
      assert (a + b)[1..] == rest + b;
      HeardConcat(t, rest, b);
      Associate(Heard(s, a[0]), HeardAll(t, rest), HeardAll(ReactAll(t, rest), b));
    }
  }

  lemma Associate(a: seq<CanFrame>, b: seq<CanFrame>, c: seq<CanFrame>)
    ensures a + (b + c) == (a + b) + c
  {
  }

  lemma {:induction false} SoundsConcat(a: Assembly, b: seq<Event>, c: seq<Event>)
    ensures Sounds(a, b + c) == Sounds(a, b) + Sounds(AfterEvents(a, b), c)
    decreases |b|
  {
    if b == [] {
      assert b + c == c;
    } else {
      assert (b + c)[1..] == b[1..] + c;
      SoundsConcat(AfterEvent(a, b[0]), b[1..], c);
    }
  }

  /** The exit code from what is heard, after this many flow controls. */
  function Verdict(flows: nat, sounds: seq<Sound>): int
    decreases |sounds|
  {
    if sounds == [] then 1
    else if sounds[0] == Flow && flows < 2 then Verdict(flows + 1, sounds[1..])
    else if sounds[0] == Positive && flows > 0 then 0
    else 4
  }

  lemma VerdictIsExitCode(frames: seq<CanFrame>)
    requires frames != [] && frames[0].data[0] == 0x30 && forall i :: 0 <= i < |frames| ==> frames[i].id == RESPONSE_ID
    ensures Verdict(0, Kinds(frames)) == WriteVerdict(frames[1..])
  {
    var k := Kinds(frames);
    assert k[0] == Flow && k[1..] == Kinds(frames[1..]);
    if |frames| >= 2 && k[1] == Flow {
      assert k[1..][1..] == Kinds(frames[2..]);
      assert Verdict(1, k[1..]) == Verdict(2, k[1..][1..]);
    }
  }

  lemma {:induction false} ReceivedIds(frames: seq<CanFrame>)
    ensures forall i :: 0 <= i < |Received(frames)| ==> Received(frames)[i].id == RESPONSE_ID
  {
    if frames != [] {
      ReceivedIds(frames[..|frames| - 1]);
    }
  }

  lemma {:induction false} HeardIds(s: Daemon, events: seq<Event>)
    requires WellFormed(s)
    ensures forall i :: 0 <= i < |HeardAll(s, events)| ==> HeardAll(s, events)[i].id == RESPONSE_ID
    decreases |events|
  {
    if events != [] {
      var e := events[0];
      if ToDaemon(e) {
        ReceivedIds(Step(s, e.frame, e.patternOk).1);
      }
      HeardIds(React(s, e), events[1..]);
    }
  }

  /** The exit code depends on the traffic only through what it makes audible. */
  lemma ExitCodeIsVerdict(s: Daemon, bytes: seq<byte>, n0: seq<Event>, n1: seq<Event>, n2: seq<Event>, n3: seq<Event>)
    requires Consistent(s) && |bytes| == 16
    ensures WriteAmid(s, bytes, n0, n1, n2, n3).1
         == Verdict(0, Sounds(AssemblyOf(s), Timeline(bytes, n0, n1, n2, n3)))
    ensures var sounds := Sounds(AssemblyOf(s), Timeline(bytes, n0, n1, n2, n3));
      sounds != [] && (sounds[0] == Flow ==>
        WriteAmid(s, bytes, n0, n1, n2, n3).0 == ReactAll(s, Timeline(bytes, n0, n1, n2, n3)))
  {
    var asked, all := Asked(bytes, n0, n1), Timeline(bytes, n0, n1, n2, n3);
    var rest := [Bus(WriteSecond(bytes))] + (n2 + ([Bus(WriteThird(bytes))] + n3));
    FirstIsHeard(s, bytes, n0, n1);
    HeardConcat(s, asked, rest);
    RunFollows(s, all);
    HeardIds(s, all);
    var heard := HeardAll(s, all);
    assert heard[0] == HeardAll(s, asked)[0];
    assert Kinds(heard)[0] == Kind(heard[0]);
    if heard[0].data[0] == 0x30 {
      VerdictIsExitCode(heard);
    }
  }

  lemma FirstIsHeard(s: Daemon, bytes: seq<byte>, n0: seq<Event>, n1: seq<Event>)
    requires Consistent(s) && |bytes| == 16
    ensures HeardAll(s, Asked(bytes, n0, n1)) != []
  {
    HeardConcat(s, n0, [Bus(WriteFirst(bytes))] + n1);
    RunFollows(s, n0);
    HeardFirst(ReactAll(s, n0), Bus(WriteFirst(bytes)), n1);
    FirstHeard(ReactAll(s, n0), bytes);
  }

  // ---------------------------------------------------------------- the report in terms of events

  /** A positive reply is heard: a completed write, or another node's frame. */
  predicate Confirms(a: Assembly, e: Event) {
    Completes(a, e) || (e.OnBus? && e.frame.id == RESPONSE_ID && IsPositive(e.frame))
  }

  /** A flow control is heard: somebody's first frame, or another node's frame. */
  predicate Flows(e: Event) {
    Opens(e) || (e.OnBus? && e.frame.id == RESPONSE_ID && e.frame.data[0] == 0x30)
  }

  /** Something else is heard: the answer to a read request, a pattern or home command or a flow
      control, or another node's frame. */
  predicate Disturbs(a: Assembly, e: Event) {
    || Asks(e) || Shows(e) || Drains(a, e)
    || (e.OnBus? && e.frame.id == RESPONSE_ID && !IsPositive(e.frame) && e.frame.data[0] != 0x30)
  }

  lemma SoundOfEvent(a: Assembly, e: Event)
    ensures Confirms(a, e) ==> SoundsOf(a, e) == [Positive]
    ensures Flows(e) ==> SoundsOf(a, e) == [Flow]
    ensures Disturbs(a, e) ==> SoundsOf(a, e) != [] && SoundsOf(a, e)[0] == Other
    ensures !Confirms(a, e) && !Flows(e) && !Disturbs(a, e) ==> SoundsOf(a, e) == []
  {
  }

  /** Nothing but flow controls is heard. */
  predicate Calm(a: Assembly, events: seq<Event>)
    decreases |events|
  {
    events == [] || (!Confirms(a, events[0]) && !Disturbs(a, events[0]) && Calm(AfterEvent(a, events[0]), events[1..]))
  }

  function FlowCount(events: seq<Event>): nat
    decreases |events|
  {
    if events == [] then 0 else (if Flows(events[0]) then 1 else 0) + FlowCount(events[1..])
  }

  /** Event k confirms, and one or two flow controls are all that is heard before it; flows
      were heard before the run. */
  predicate ConfirmedAt(a: Assembly, events: seq<Event>, flows: nat, k: nat) {
    && k < |events| && Confirms(At(a, events, k), events[k])
    && Calm(a, events[..k]) && 1 <= flows + FlowCount(events[..k]) <= 2
  }

  ghost predicate Confirmed(a: Assembly, events: seq<Event>, flows: nat) {
    exists k: nat :: ConfirmedAt(a, events, flows, k)
  }

  function FlowsWith(flows: nat, e: Event): nat { if Flows(e) then flows + 1 else flows }

  lemma ConfirmedShift(a: Assembly, events: seq<Event>, flows: nat, k: nat)
    requires events != []
    ensures var e := events[0];
      var later := ConfirmedAt(AfterEvent(a, e), events[1..], FlowsWith(flows, e), k);
      ConfirmedAt(a, events, flows, k + 1) <==> !Confirms(a, e) && !Disturbs(a, e) && later
  {
    if k + 1 < |events| {
      assert events[..k + 1][1..] == events[1..][..k];
      assert events[k + 1] == events[1..][k];
    }
  }

  lemma ConfirmedLater(a: Assembly, events: seq<Event>, flows: nat)
    requires events != []
    ensures var e := events[0];
      var later := Confirmed(AfterEvent(a, e), events[1..], FlowsWith(flows, e));
      Confirmed(a, events, flows) <==> if Confirms(a, e) then 1 <= flows <= 2 else !Disturbs(a, e) && later
  {
    var e := events[0];
    assert At(a, events, 0) == a && events[..0] == [];
    assert ConfirmedAt(a, events, flows, 0) <==> Confirms(a, e) && 1 <= flows <= 2;
    if Confirmed(a, events, flows) {
      var k: nat :| ConfirmedAt(a, events, flows, k);
      if k > 0 {
        ConfirmedShift(a, events, flows, k - 1);
      }
    }
    if Confirmed(AfterEvent(a, e), events[1..], FlowsWith(flows, e)) {
      var k: nat :| ConfirmedAt(AfterEvent(a, e), events[1..], FlowsWith(flows, e), k);
      ConfirmedShift(a, events, flows, k);
    }
  }

  lemma {:induction false} VerdictIff(a: Assembly, events: seq<Event>, flows: nat)
    requires flows <= 3
    ensures flows <= 2 ==> (Verdict(flows, Sounds(a, events)) == 0 <==> Confirmed(a, events, flows))
    ensures flows == 3 ==> !Confirmed(a, events, flows)
    decreases |events|
  {
    if events != [] {
      var e, rest := events[0], events[1..];
      SoundOfEvent(a, e);
      ConfirmedLater(a, events, flows);
      if flows < 3 || !Flows(e) {
        VerdictIff(AfterEvent(a, e), rest, FlowsWith(flows, e));
      }
      VerdictStep(flows, SoundsOf(a, e), Sounds(AfterEvent(a, e), rest));
    }
  }

  lemma VerdictStep(flows: nat, first: seq<Sound>, rest: seq<Sound>)
    ensures first == [] ==> Verdict(flows, first + rest) == Verdict(flows, rest)
    ensures first == [Flow] ==> Verdict(flows, first + rest) == if flows < 2 then Verdict(flows + 1, rest) else 4
    ensures first == [Positive] ==> Verdict(flows, first + rest) == if flows > 0 then 0 else 4
    ensures first != [] && first[0] == Other ==> Verdict(flows, first + rest) == 4
  {
    if |first| <= 1 {
      assert first == [] ==> first + rest == rest;
      assert first != [] ==> (first + rest)[1..] == rest;
    }
  }

  /** The client reports success if and only if some event confirms and before it there were one
      or two first frames or flow controls of other nodes, no read request, no pattern or home
      command carried out, no flow control while a response was prepared, and no other frame on
      the response id. */
  lemma ExitZeroIff(s: Daemon, bytes: seq<byte>, n0: seq<Event>, n1: seq<Event>, n2: seq<Event>, n3: seq<Event>)
    requires Consistent(s) && |bytes| == 16
    ensures WriteAmid(s, bytes, n0, n1, n2, n3).1 == 0
       <==> Confirmed(AssemblyOf(s), Timeline(bytes, n0, n1, n2, n3), 0)
  {
    ExitCodeIsVerdict(s, bytes, n0, n1, n2, n3);
    VerdictIff(AssemblyOf(s), Timeline(bytes, n0, n1, n2, n3), 0);
  }

  /** What success means for the part number: after the event that confirmed it is the value that
      event completed, the writer's if and only if that carries the same text; if another node's
      frame confirmed, the part number is whatever it was. */
  lemma ExitZeroMeans(s: Daemon, bytes: seq<byte>, events: seq<Event>, k: nat)
    requires Consistent(s) && |bytes| == 16 && k < |events| && Confirms(At(AssemblyOf(s), events, k), events[k])
    ensures var before, after, a := ReactAll(s, events[..k]), ReactAll(s, events[..k + 1]), At(AssemblyOf(s), events, k);
      if Completes(a, events[k]) then
        var value := (a.held + NextSeven(events[k]))[..16];
        && after.partNumber == Stored(NonZero(value))
        && (after.partNumber == Stored(NonZero(bytes)) <==> NonZero(value) == NonZero(bytes))
      else after == before
  {
    EventAt(s, events, k);
    CompletedIsSameIff(At(AssemblyOf(s), events, k), events[k], bytes);
  }

  lemma CompletedIsSameIff(a: Assembly, e: Event, bytes: seq<byte>)
    requires |bytes| == 16
    ensures Completes(a, e) ==> var value := (a.held + NextSeven(e))[..16];
      Stored(NonZero(value)) == Stored(NonZero(bytes)) <==> NonZero(value) == NonZero(bytes)
  {
    if Completes(a, e) {
      SameStoredIff((a.held + NextSeven(e))[..16], bytes);
    }
  }

  /** Event k of a run acts on the daemon as on the assembly it finds. */
  lemma EventAt(s: Daemon, events: seq<Event>, k: nat)
    requires Consistent(s) && k < |events|
    ensures var a, before, after := At(AssemblyOf(s), events, k), ReactAll(s, events[..k]), ReactAll(s, events[..k + 1]);
      && AssemblyOf(before) == a && after == React(before, events[k])
      && after.partNumber == Or(StoredBy(a, events[k]), before.partNumber)
  {
    RunFollows(s, events[..k]);
    Effect(ReactAll(s, events[..k]), events[k]);
    ReactAllNext(s, events, k);
  }

  lemma Effect(s: Daemon, e: Event)
    requires Consistent(s)
    ensures React(s, e).partNumber == Or(StoredBy(AssemblyOf(s), e), s.partNumber)
  {
    EventStep(s, e);
  }

  lemma ReactAllNext(s: Daemon, events: seq<Event>, k: nat)
    requires WellFormed(s) && k < |events|
    ensures ReactAll(s, events[..k + 1]) == React(ReactAll(s, events[..k]), events[k])
  {
    assert events[..k + 1] == events[..k] + [events[k]];
    ReactAllConcat(s, events[..k], [events[k]]);
    assert [events[k]][1..] == [];
  }

  /** It times out if and only if one or two flow controls are all it ever hears. */
  lemma ExitOneIff(s: Daemon, bytes: seq<byte>, n0: seq<Event>, n1: seq<Event>, n2: seq<Event>, n3: seq<Event>)
    requires Consistent(s) && |bytes| == 16
    ensures var a, all := AssemblyOf(s), Timeline(bytes, n0, n1, n2, n3);
      WriteAmid(s, bytes, n0, n1, n2, n3).1 == 1 <==> Calm(a, all) && FlowCount(all) <= 2
  {
    ExitCodeIsVerdict(s, bytes, n0, n1, n2, n3);
    SilenceIff(AssemblyOf(s), Timeline(bytes, n0, n1, n2, n3), 0);
  }

  lemma {:induction false} SilenceIff(a: Assembly, events: seq<Event>, flows: nat)
    requires flows <= 2
    ensures Verdict(flows, Sounds(a, events)) == 1 <==> Calm(a, events) && flows + FlowCount(events) <= 2
    decreases |events|
  {
    if events != [] {
      var e, rest := events[0], events[1..];
      SoundOfEvent(a, e);
      VerdictStep(flows, SoundsOf(a, e), Sounds(AfterEvent(a, e), rest));
      if FlowsWith(flows, e) <= 2 {
        SilenceIff(AfterEvent(a, e), rest, FlowsWith(flows, e));
      }
    }
  }

  /** Without other traffic this is the write of the other theorems. */
  lemma QuietBusIsWriteBytes(s: Daemon, bytes: seq<byte>)
    requires Consistent(s) && |bytes| == 16
    ensures WriteAmid(s, bytes, [], [], [], []) == WriteBytes(s, bytes)
  {
    var s1 := React(s, Bus(WriteFirst(bytes)));
    var h2, h3 := Heard(s1, Bus(WriteSecond(bytes))), Heard(React(s1, Bus(WriteSecond(bytes))), Bus(WriteThird(bytes)));
    QuietReport(s, bytes);
    PlainReport(s, bytes);
    assert ([FLOW_CONTROL_REPLY] + (h2 + h3))[1..] == h2 + h3;
  }

  /** What the client reports of three undisturbed frames, from what is heard of the last two. */
  lemma QuietReport(s: Daemon, bytes: seq<byte>)
    requires Consistent(s) && |bytes| == 16
    ensures var s1 := React(s, Bus(WriteFirst(bytes)));
      var s2 := React(s1, Bus(WriteSecond(bytes)));
      var h2, h3 := Heard(s1, Bus(WriteSecond(bytes))), Heard(s2, Bus(WriteThird(bytes)));
      WriteAmid(s, bytes, [], [], [], [])
      == (React(s2, Bus(WriteThird(bytes))), WriteVerdict(([FLOW_CONTROL_REPLY] + (h2 + h3))[1..]))
  {
    var e1, e2, e3 := Bus(WriteFirst(bytes)), Bus(WriteSecond(bytes)), Bus(WriteThird(bytes));
    assert Asked(bytes, [], []) == [e1] + [] && Timeline(bytes, [], [], [], []) == [e1] + ([e2] + ([e3] + []));
    FirstHeard(s, bytes);
    HeardFirst(s, e1, []);
    ThreeHeard(s, e1, e2, e3);
  }

  lemma PlainReport(s: Daemon, bytes: seq<byte>)
    requires Consistent(s) && |bytes| == 16
    ensures var s1 := React(s, Bus(WriteFirst(bytes)));
      var s2 := React(s1, Bus(WriteSecond(bytes)));
      var h2, h3 := Heard(s1, Bus(WriteSecond(bytes))), Heard(s2, Bus(WriteThird(bytes)));
      WriteBytes(s, bytes) == (React(s2, Bus(WriteThird(bytes))), WriteVerdict(h2 + h3))
  {
    FirstStep(s, bytes);
    ReceivedOne(FLOW_CONTROL_REPLY);
    assert forall h2: seq<CanFrame>, h3: seq<CanFrame> :: [FLOW_CONTROL_REPLY][1..] + h2 + h3 == h2 + h3;
  }

  lemma ThreeHeard(s: Daemon, e1: Event, e2: Event, e3: Event)
    requires WellFormed(s)
    ensures var all, s1 := [e1] + ([e2] + ([e3] + [])), React(s, e1);
      var s2 := React(s1, e2);
      && ReactAll(s, all) == React(s2, e3)
      && HeardAll(s, all) == Heard(s, e1) + (Heard(s1, e2) + Heard(s2, e3))
  {
    HeardFirst(s, e1, [e2] + ([e3] + []));
    HeardFirst(React(s, e1), e2, [e3] + []);
    HeardFirst(React(React(s, e1), e2), e3, []);
  }

  lemma HeardFirst(s: Daemon, e: Event, rest: seq<Event>)
    requires WellFormed(s)
    ensures HeardAll(s, [e] + rest) == Heard(s, e) + HeardAll(React(s, e), rest)
    ensures ReactAll(s, [e] + rest) == ReactAll(React(s, e), rest)
  {
    assert ([e] + rest)[1..] == rest;
  }

  lemma FirstHeard(s: Daemon, bytes: seq<byte>)
    requires WellFormed(s) && |bytes| == 16
    ensures Heard(s, Bus(WriteFirst(bytes))) == [FLOW_CONTROL_REPLY]
  {
    FirstStep(s, bytes);
    ReceivedOne(FLOW_CONTROL_REPLY);
  }

  // ---------------------------------------------------------------- bystanders and single frames

  function HoldingTen(bytes: seq<byte>, sending: bool): Assembly
    requires |bytes| == 16
  {
    Assembly(true, bytes[..10], 2, sending)
  }

  lemma OneEvent(a: Assembly, part: seq<byte>, e: Event, rest: seq<Event>)
    ensures Sounds(a, [e] + rest) == SoundsOf(a, e) + Sounds(AfterEvent(a, e), rest)
    ensures PartAfter(a, part, [e] + rest) == PartAfter(AfterEvent(a, e), Or(StoredBy(a, e), part), rest)
  {
    assert ([e] + rest)[1..] == rest;
  }

  lemma First(a: Assembly, part: seq<byte>, bytes: seq<byte>, rest: seq<Event>)
    requires |bytes| == 16
    ensures var all, b := [Bus(WriteFirst(bytes))] + rest, Opened(bytes, a.sending);
      Sounds(a, all) == [Flow] + Sounds(b, rest) && PartAfter(a, part, all) == PartAfter(b, part, rest)
  {
    assert WriteFirst(bytes).data[5..] == bytes[..3];
    OneEvent(a, part, Bus(WriteFirst(bytes)), rest);
  }

  lemma Second(part: seq<byte>, bytes: seq<byte>, sending: bool, rest: seq<Event>)
    requires |bytes| == 16
    ensures var a, all, b := Opened(bytes, sending), [Bus(WriteSecond(bytes))] + rest, HoldingTen(bytes, sending);
      Sounds(a, all) == Sounds(b, rest) && PartAfter(a, part, all) == PartAfter(b, part, rest)
  {
    assert bytes[..3] + WriteSecond(bytes).data[1..] == bytes[..10];
    OneEvent(Opened(bytes, sending), part, Bus(WriteSecond(bytes)), rest);
  }

  lemma FirstTwo(a: Assembly, part: seq<byte>, bytes: seq<byte>, rest: seq<Event>)
    requires |bytes| == 16
    ensures var all, b := [Bus(WriteFirst(bytes))] + ([Bus(WriteSecond(bytes))] + rest), HoldingTen(bytes, a.sending);
      Sounds(a, all) == [Flow] + Sounds(b, rest) && PartAfter(a, part, all) == PartAfter(b, part, rest)
  {
    First(a, part, bytes, [Bus(WriteSecond(bytes))] + rest);
    Second(part, bytes, a.sending, rest);
  }

  lemma Third(a: Assembly, part: seq<byte>, bytes: seq<byte>)
    requires |bytes| == 16 && Ready(a)
    ensures Sounds(a, [Bus(WriteThird(bytes))]) == [Positive]
    ensures PartAfter(a, part, [Bus(WriteThird(bytes))]) == Stored(NonZero(a.held + bytes[10..]))
  {
    var e := Bus(WriteThird(bytes));
    assert (a.held + e.frame.data[1..])[..16] == a.held + bytes[10..];
    OneEvent(a, part, e, []);
    assert [e] + [] == [e];
  }

  /** Bystanders never cost the writer its value, but a pattern or home command carried out
      before the confirmation costs it the report: the client takes its answer for a refusal. */
  lemma BystandersAndTheReport(s: Daemon, bytes: seq<byte>, n1: seq<Event>, n2: seq<Event>, n3: seq<Event>)
    requires Consistent(s) && |bytes| == 16
    requires forall e :: e in n1 ==> Bystander(e, s.link.sending, 1) && Speechless(e)
    requires forall e :: e in n2 ==> Bystander(e, s.link.sending, 2) && Speechless(e)
    ensures WriteAmid(s, bytes, [], n1, n2, n3).1 == if exists e :: e in n1 + n2 && Shows(e) then 4 else 0
  {
    var a1, a2 := Opened(bytes, s.link.sending), HoldingTen(bytes, s.link.sending);
    BystanderSounds(a1, n1, 1);
    BystanderSounds(a2, n2, 2);
    var rest := TransferSounds(AssemblyOf(s), bytes, n1, n2, n3);
    var b1, b2 := Sounds(a1, n1), Sounds(a2, n2);
    VerdictStep(0, [Flow], b1 + (b2 + ([Positive] + rest)));
    VerdictStep(1, b1, b2 + ([Positive] + rest));
    VerdictStep(1, b2, [Positive] + rest);
    VerdictStep(1, [Positive], rest);
    ExitCodeIsVerdict(s, bytes, [], n1, n2, n3);
    assert forall e :: e in n1 + n2 <==> e in n1 || e in n2;
  }

  /** What is heard of a transfer whose gaps leave the link alone. */
  lemma TransferSounds(a: Assembly, bytes: seq<byte>, n1: seq<Event>, n2: seq<Event>, n3: seq<Event>)
    returns (rest: seq<Sound>)
    requires |bytes| == 16
    requires AfterEvents(Opened(bytes, a.sending), n1) == Opened(bytes, a.sending)
    requires AfterEvents(HoldingTen(bytes, a.sending), n2) == HoldingTen(bytes, a.sending)
    ensures var b1, b2 := Sounds(Opened(bytes, a.sending), n1), Sounds(HoldingTen(bytes, a.sending), n2);
      Sounds(a, Timeline(bytes, [], n1, n2, n3)) == [Flow] + (b1 + (b2 + ([Positive] + rest)))
  {
    var e1, tail := Bus(WriteFirst(bytes)), [Bus(WriteSecond(bytes))] + (n2 + ([Bus(WriteThird(bytes))] + n3));
    StartsWith(e1, n1, tail);
    First(a, [], bytes, n1 + tail);
    rest := FirstHalf(a, bytes, n1, n2, n3);
  }

  lemma StartsWith(e: Event, n1: seq<Event>, tail: seq<Event>)
    ensures ([] + ([e] + n1)) + tail == [e] + (n1 + tail)
  {
  }

  lemma FirstHalf(a: Assembly, bytes: seq<byte>, n1: seq<Event>, n2: seq<Event>, n3: seq<Event>)
    returns (rest: seq<Sound>)
    requires |bytes| == 16
    requires AfterEvents(Opened(bytes, a.sending), n1) == Opened(bytes, a.sending)
    requires AfterEvents(HoldingTen(bytes, a.sending), n2) == HoldingTen(bytes, a.sending)
    ensures var b1, b2 := Sounds(Opened(bytes, a.sending), n1), Sounds(HoldingTen(bytes, a.sending), n2);
      Sounds(Opened(bytes, a.sending), n1 + ([Bus(WriteSecond(bytes))] + (n2 + ([Bus(WriteThird(bytes))] + n3))))
      == b1 + (b2 + ([Positive] + rest))
  {
    SoundsConcat(Opened(bytes, a.sending), n1, [Bus(WriteSecond(bytes))] + (n2 + ([Bus(WriteThird(bytes))] + n3)));
    Second([], bytes, a.sending, n2 + ([Bus(WriteThird(bytes))] + n3));
    rest := SecondHalf(HoldingTen(bytes, a.sending), bytes, n2, n3);
  }

  lemma SecondHalf(a: Assembly, bytes: seq<byte>, n2: seq<Event>, n3: seq<Event>) returns (rest: seq<Sound>)
    requires |bytes| == 16 && Ready(a) && AfterEvents(a, n2) == a
    ensures Sounds(a, n2 + ([Bus(WriteThird(bytes))] + n3)) == Sounds(a, n2) + ([Positive] + rest)
  {
    SoundsConcat(a, n2, [Bus(WriteThird(bytes))] + n3);
    OneEvent(a, [], Bus(WriteThird(bytes)), n3);
    rest := Sounds(AfterEvent(a, Bus(WriteThird(bytes))), n3);
  }

  /** Not another node's frame on the response id. */
  predicate Speechless(e: Event) { e.OnBus? ==> e.frame.id != RESPONSE_ID }

  lemma BystanderStep(a: Assembly, e: Event, expected: nat)
    requires (a.open ==> a.sequence == expected) && Bystander(e, a.sending, expected) && Speechless(e)
    ensures AfterEvent(a, e) == a && SoundsOf(a, e) == if Shows(e) then [Other] else []
  {
  }

  lemma {:induction false} BystanderSounds(a: Assembly, events: seq<Event>, expected: nat)
    requires a.open ==> a.sequence == expected
    requires forall e :: e in events ==> Bystander(e, a.sending, expected) && Speechless(e)
    ensures AfterEvents(a, events) == a
    ensures if exists e :: e in events && Shows(e) then Sounds(a, events) != [] && Sounds(a, events)[0] == Other
            else Sounds(a, events) == []
    decreases |events|
  {
    if events != [] {
      var e, rest := events[0], events[1..];
      assert events == [e] + rest && e in events;
      BystanderStep(a, e, expected);
      BystanderSounds(a, rest, expected);
    }
  }

  /** Two writers whose first two frames fall in one gap: the client reports success, and a mix
      of both values is stored. */
  lemma TwoWritersMix(s: Daemon, bytes: seq<byte>, other: seq<byte>)
    requires Consistent(s) && |bytes| == |other| == 16
    ensures var (t, code) := WriteAmid(s, bytes, [], [], [Bus(WriteFirst(other)), Bus(WriteSecond(other))], []);
      code == 0 && t.partNumber == Stored(NonZero(other[..10] + bytes[10..]))
  {
    var a, gap := AssemblyOf(s), [Bus(WriteFirst(other)), Bus(WriteSecond(other))];
    var tail := gap + [Bus(WriteThird(bytes))];
    var all := Timeline(bytes, [], [], gap, []);
    assert all == [Bus(WriteFirst(bytes))] + ([Bus(WriteSecond(bytes))] + tail);
    assert tail == [Bus(WriteFirst(other))] + ([Bus(WriteSecond(other))] + [Bus(WriteThird(bytes))]);
    FirstTwo(a, s.partNumber, bytes, tail);
    FirstTwo(HoldingTen(bytes, a.sending), s.partNumber, other, [Bus(WriteThird(bytes))]);
    Third(HoldingTen(other, a.sending), s.partNumber, bytes);
    VerdictStep(0, [Flow], [Flow] + [Positive]);
    VerdictStep(1, [Flow], [Positive]);
    VerdictStep(2, [Positive], []);
    Reported(s, bytes, [], gap);
  }

  lemma Reported(s: Daemon, bytes: seq<byte>, n1: seq<Event>, n2: seq<Event>)
    requires Consistent(s) && |bytes| == 16 && Sounds(AssemblyOf(s), Timeline(bytes, [], n1, n2, []))[..1] == [Flow]
    ensures var (t, code) := WriteAmid(s, bytes, [], n1, n2, []);
      && code == Verdict(0, Sounds(AssemblyOf(s), Timeline(bytes, [], n1, n2, [])))
      && t.partNumber == PartAfter(AssemblyOf(s), s.partNumber, Timeline(bytes, [], n1, n2, []))
  {
    ExitCodeIsVerdict(s, bytes, [], n1, n2, []);
    RunFollows(s, Timeline(bytes, [], n1, n2, []));
  }

  /** A read request in the first gap: the writer's value is stored and confirmed, but the client
      takes the answer to the read for a refusal. */
  lemma ReadCostsTheReport(s: Daemon, bytes: seq<byte>)
    requires Consistent(s) && |bytes| == 16
    ensures var (t, code) := WriteAmid(s, bytes, [], [Bus(READ_REQUEST)], [], []);
      code == 4 && t.partNumber == Stored(NonZero(bytes))
  {
    var a, part := AssemblyOf(s), s.partNumber;
    var tail := [Bus(READ_REQUEST)] + ([Bus(WriteSecond(bytes))] + [Bus(WriteThird(bytes))]);
    var all := Timeline(bytes, [], [Bus(READ_REQUEST)], [], []);
    assert all == [Bus(WriteFirst(bytes))] + tail;
    First(a, part, bytes, tail);
    ReadThenRest(part, bytes, a.sending);
    VerdictStep(0, [Flow], [Other] + [Positive]);
    VerdictStep(1, [Other], [Positive]);
    Reported(s, bytes, [Bus(READ_REQUEST)], []);
  }

  lemma Read(a: Assembly, part: seq<byte>, rest: seq<Event>)
    ensures var all, b := [Bus(READ_REQUEST)] + rest, a.(sequence := 1, sending := true);
      Sounds(a, all) == [Other] + Sounds(b, rest) && PartAfter(a, part, all) == PartAfter(b, part, rest)
  {
    OneEvent(a, part, Bus(READ_REQUEST), rest);
  }

  lemma ReadThenRest(part: seq<byte>, bytes: seq<byte>, sending: bool)
    requires |bytes| == 16
    ensures var a := Opened(bytes, sending);
      var tail := [Bus(READ_REQUEST)] + ([Bus(WriteSecond(bytes))] + [Bus(WriteThird(bytes))]);
      Sounds(a, tail) == [Other] + [Positive] && PartAfter(a, part, tail) == Stored(NonZero(bytes))
  {
    Read(Opened(bytes, sending), part, [Bus(WriteSecond(bytes))] + [Bus(WriteThird(bytes))]);
    Second(part, bytes, true, [Bus(WriteThird(bytes))]);
    Third(HoldingTen(bytes, true), part, bytes);
    assert bytes[..10] + bytes[10..] == bytes;
  }

  /** A read request and a repeat of the second frame in the last gap: the repeat completes the
      write, and its six bytes are stored in place of the last six. */
  lemma RepeatCompletes(s: Daemon, bytes: seq<byte>)
    requires Consistent(s) && |bytes| == 16
    ensures var (t, code) := WriteAmid(s, bytes, [], [], [Bus(READ_REQUEST), Bus(WriteSecond(bytes))], []);
      code == 4 && t.partNumber == Stored(NonZero(bytes[..10] + bytes[3..9]))
  {
    var a, part, gap := AssemblyOf(s), s.partNumber, [Bus(READ_REQUEST), Bus(WriteSecond(bytes))];
    var tail := [Bus(READ_REQUEST)] + ([Bus(WriteSecond(bytes))] + [Bus(WriteThird(bytes))]);
    var all := Timeline(bytes, [], [], gap, []);
    assert all == [Bus(WriteFirst(bytes))] + ([Bus(WriteSecond(bytes))] + tail);
    FirstTwo(a, part, bytes, tail);
    ReadThenRepeat(part, bytes, a.sending);
    VerdictStep(0, [Flow], [Other] + [Positive]);
    VerdictStep(1, [Other], [Positive]);
    Reported(s, bytes, [], gap);
  }

  lemma ReadThenRepeat(part: seq<byte>, bytes: seq<byte>, sending: bool)
    requires |bytes| == 16
    ensures var a := HoldingTen(bytes, sending);
      var tail := [Bus(READ_REQUEST)] + ([Bus(WriteSecond(bytes))] + [Bus(WriteThird(bytes))]);
      && Sounds(a, tail) == [Other] + [Positive]
      && PartAfter(a, part, tail) == Stored(NonZero(bytes[..10] + bytes[3..9]))
  {
    Read(HoldingTen(bytes, sending), part, [Bus(WriteSecond(bytes))] + [Bus(WriteThird(bytes))]);
    RepeatThenThird(part, bytes);
  }

  lemma RepeatThenThird(part: seq<byte>, bytes: seq<byte>)
    requires |bytes| == 16
    ensures var a, tail := Assembly(true, bytes[..10], 1, true), [Bus(WriteSecond(bytes))] + [Bus(WriteThird(bytes))];
      && Sounds(a, tail) == [Positive]
      && PartAfter(a, part, tail) == Stored(NonZero(bytes[..10] + bytes[3..9]))
  {
    var e2, e3, mixed := Bus(WriteSecond(bytes)), Bus(WriteThird(bytes)), bytes[..10] + bytes[3..9];
    assert (bytes[..10] + e2.frame.data[1..])[..16] == mixed;
    OneEvent(Assembly(true, bytes[..10], 1, true), part, e2, [e3]);
    OneEvent(Assembly(false, [], 2, true), Stored(NonZero(mixed)), e3, []);
    assert [e3] + [] == [e3];
  }

  // ---------------------------------------------------------------- one frame

  /** One frame between the first two frames of a write: the daemon still waits for the second
      one unless it is that frame itself or a flow control while a response is prepared. A read
      request, or the same first frame again, does the transfer no harm here. */
  lemma FirstGapFrameIff(s: Daemon, bytes: seq<byte>, e: Event)
    requires Consistent(s) && |bytes| == 16
    ensures var t := AssemblyOf(React(React(s, Bus(WriteFirst(bytes))), e));
      t.open && |t.held| == 3 && t.sequence == 1
      <==> !(ToDaemon(e) && (e.frame.data[0] == 0x21 || (e.frame.data[0] == 0x30 && s.link.sending)))
  {
    FirstOpens(s, bytes);
    EventStep(React(s, Bus(WriteFirst(bytes))), e);
  }

  /** If it is the expected consecutive frame itself, its bytes are stored instead of the writer's. */
  lemma ForeignSecondReplaces(s: Daemon, bytes: seq<byte>, x: CanFrame, ok: bool)
    requires WellFormed(s) && SendingIsResponse(s) && |bytes| == 16 && IsConsecutive(x, 1)
    ensures var s1 := React(React(s, Bus(WriteFirst(bytes))), OnBus(x, ok));
      var t := React(React(s1, Bus(WriteSecond(bytes))), Bus(WriteThird(bytes)));
      !t.link.receiving && t.partNumber == Stored(NonZero(bytes[..3] + x.data[1..] + bytes[10..]))
  {
    var mixed := bytes[..3] + x.data[1..] + bytes[10..];
    assert mixed[..3] == bytes[..3] && mixed[3..10] == x.data[1..] && mixed[10..] == bytes[10..];
    assert WriteFirst(mixed) == WriteFirst(bytes) && WriteThird(mixed) == WriteThird(bytes);
    FirstStep(s, mixed);
    var s0 := React(s, Bus(WriteFirst(mixed)));
    assert Filled(s0.link.rx, x.data, 19) == [0x2E, 0xFD, 0xBD] + mixed[..10];
    var s1 := React(s0, OnBus(x, ok));
    assert Awaiting(s1.link, mixed, 10, 2);
    assert React(s1, Bus(WriteSecond(bytes))) == s1;
    ThirdStep(s1, mixed);
  }

  lemma ForeignThirdReplaces(s: Daemon, bytes: seq<byte>, x: CanFrame, ok: bool)
    requires WellFormed(s) && SendingIsResponse(s) && |bytes| == 16 && IsConsecutive(x, 2)
    ensures var s2 := React(React(s, Bus(WriteFirst(bytes))), Bus(WriteSecond(bytes)));
      var t := React(React(s2, OnBus(x, ok)), Bus(WriteThird(bytes)));
      !t.link.receiving && t.partNumber == Stored(NonZero(bytes[..10] + x.data[1..7]))
  {
    var mixed := bytes[..10] + x.data[1..7];
    assert mixed[..3] == bytes[..3] && mixed[3..10] == bytes[3..10] && mixed[10..] == x.data[1..7];
    FirstStep(s, bytes);
    var s1 := React(s, Bus(WriteFirst(bytes)));
    SecondStep(s1, bytes);
    var s2 := React(s1, Bus(WriteSecond(bytes)));
    var rx := Filled(s2.link.rx, x.data, 19);
    assert x.data[1..1 + 6] == x.data[1..7];
    assert rx == s2.link.rx + x.data[1..7];
    assert rx == [0x2E, 0xFD, 0xBD] + mixed;
    assert rx[3..19] == mixed;
  }
}
