/** The dual-display brightness controller as an event machine: a 100 ms throttle, at most one
    send in flight that goes to the primary display and then to the secondary, and enabling,
    disabling and exit around it. The world around the controller is part of the state: what
    the displays show, how far the current request got, and which background operation runs.
    DualDisplayController is the stateful program proved against these transitions. */
module DualDisplay {
  import opened Basics
  import R = Rounding

  /** Ranges read from the displays are rejected unless positive. */
  type Positive = r: real | r > 0.0 witness 1.0

  const PRIMARY := 9000
  const SECONDARY := 9001

  datatype Ctl = Ctl(active: bool, busy: bool, hardware: bool,
                     maxNits: Positive, pendingNits: real, updatePending: bool, throttle: bool, timeout: bool,
                     socket: bool, buffer: string, inFlight: bool, asyncPort: int, inFlightNits: real,
                     exitFlushed: bool)

  const INITIAL: Ctl := Ctl(false, false, false, 1000.0, 0.0, false, false, false,
                            false, "", false, 0, 0.0, false)

  // ---------------------------------------------------------------- the controller's handlers

  function RangeOf(maxNits: Positive): R.Range { R.Range(20.0, maxNits, 5.0) }

  function Rounded(maxNits: Positive, nits: real): real {
    R.RoundedNits(RangeOf(maxNits), nits)
  }

  predicate Close(a: real, b: real) { -0.05 <= a - b <= 0.05 }

  function SetMax(c: Ctl, maxNits: Positive): Ctl {
    if Close(c.maxNits, maxNits) then c else c.(maxNits := maxNits)
  }

  function CloseSocket(c: Ctl): Ctl { c.(timeout := false, buffer := "", socket := false) }

  function StartPort(c: Ctl, port: int): Ctl {
    CloseSocket(c).(asyncPort := port, socket := true, timeout := true)
  }

  function Rearmed(c: Ctl): bool { c.throttle || (c.active && c.updatePending) }

  function FinishSend(c: Ctl): Ctl {
    c.(inFlight := false, throttle := Rearmed(c))
  }

  function FailSend(c: Ctl): Ctl { CloseSocket(c).(inFlight := false, throttle := Rearmed(c)) }

  function SetBrightness(c: Ctl, nits: real): Ctl {
    if !c.active || c.busy then c
    else
      var rounded := Rounded(c.maxNits, nits);
      c.(pendingNits := rounded, updatePending := true, exitFlushed := false, throttle := true)
  }

  /** The single-shot throttle expires. */
  function ThrottleFires(c: Ctl): Ctl {
    var d := c.(throttle := false);
    if !d.active || !d.updatePending || d.inFlight then d
    else StartPort(d.(updatePending := false, inFlight := true, inFlightNits := d.pendingNits), PRIMARY)
  }

  function Connected(c: Ctl, writeOk: bool): Ctl {
    if !c.socket || writeOk then c else FailSend(c)
  }

  function ReadyRead(c: Ctl, chunk: string, accepted: bool): Ctl {
    if !c.socket then c
    else
      var d := c.(buffer := c.buffer + chunk);
      if '\n' !in d.buffer then d
      else if !accepted then FailSend(d)
      else if d.asyncPort == PRIMARY then StartPort(CloseSocket(d), SECONDARY)
      else FinishSend(CloseSocket(d))
  }

  function SocketError(c: Ctl): Ctl { if c.socket then FailSend(c) else c }

  function SocketTimeout(c: Ctl): Ctl { FailSend(c.(timeout := false)) }

  predicate StartsOperation(c: Ctl, enabled: bool) {
    !c.busy && !(enabled && !c.hardware) && enabled != c.active
  }

  function SetEnabled(c: Ctl, enabled: bool): Ctl {
    if !StartsOperation(c, enabled) then c
    else if enabled then c.(busy := true)
    else CloseSocket(c).(busy := true, throttle := false, inFlight := false, updatePending := false)
  }

  /** The end of the background operation, or of adopting a saved state. */
  datatype Result = EnableOk(sharedMax: Positive) | EnableFailed | Disabled

  function Activated(c: Ctl, nits: real): Ctl {
    c.(pendingNits := nits, updatePending := false, active := true, exitFlushed := false, busy := false)
  }

  function OperationDone(c: Ctl, r: Result): Ctl {
    match r
    case EnableOk(m) => Activated(SetMax(c, m), Rounded(m, m / 2.0))
    case EnableFailed => c.(busy := false)
    case Disabled => c.(active := false, exitFlushed := true, busy := false)
  }

  predicate Adopts(c: Ctl) { !c.active && !c.busy && c.hardware }

  /** adoptSavedState, when it gets as far as sending the saved brightness to the displays. */
  function Adopted(c: Ctl, sharedMax: Positive, savedNits: real, sent: bool): Ctl {
    if !Adopts(c) then c
    else
      var d := SetMax(c, sharedMax);
      if sent then Activated(d, Rounded(d.maxNits, savedNits)) else d
  }

  function Cleanup(c: Ctl, sent: bool): Ctl {
    var d := CloseSocket(c).(throttle := false, inFlight := false);
    if d.active && !d.exitFlushed && sent then d.(updatePending := false, exitFlushed := true) else d
  }

  // ---------------------------------------------------------------- the system

  /** primary, secondary: what the displays show. acked: what the primary acknowledged in the
      current flight. sent: the request of the current socket was written. operation: the
      background operation, true for enabling. settled: the last attempt to set both displays
      succeeded. disturbed: since then a display was changed by something else, or the primary
      was after it acknowledged the current flight. exiting: cleanup was called. */
  datatype World = World(primary: Option<real>, secondary: Option<real>, acked: Option<real>, sent: bool,
                         operation: Option<bool>, settled: bool, disturbed: bool, exiting: bool)

  datatype Sys = Sys(c: Ctl, w: World)

  const START: Sys := Sys(INITIAL, World(None, None, None, false, None, false, false, false))

  /** reached: how many displays a blocking send got through to. Disturbance: a display shows
      another value, because it carries out a request the controller has given up, however late,
      or because another program set it. */
  datatype Event =
    | Request(nits: real)
    | Enable(enabled: bool)
    | OperationEnds(result: Result)
    | Adopt(sharedMax: Positive, savedNits: real, reached: nat)
    | Throttle
    | SocketConnected(writeOk: bool)
    | Data(chunk: string, accepted: bool)
    | Error
    | Timeout
    | HardwarePoll(available: bool)
    | Exit(reached: nat)
    | Disturbance(port: int, nits: real)

  /** The environment can produce e in this state. */
  predicate Possible(s: Sys, e: Event) {
    match e
    case OperationEnds(r) => s.w.operation == Some(!r.Disabled?)
    case Adopt(_, _, reached) => reached <= 2
    case Throttle => s.c.throttle
    case SocketConnected(_) => s.c.socket && !s.w.sent
    case Data(_, _) => s.c.socket && s.w.sent
    case Error => s.c.socket
    case Timeout => s.c.timeout
    case Exit(reached) => reached <= 2
    case Disturbance(port, _) => port in {PRIMARY, SECONDARY}
    case _ => true
  }

  function Shown(w: World, port: int, nits: real): World {
    if port == PRIMARY then w.(primary := Some(nits)) else w.(secondary := Some(nits))
  }

  function Failed(w: World): World { w.(settled := false) }

  function Answered(s: Sys): World {
    var w := Shown(s.w, s.c.asyncPort, s.c.inFlightNits);
    if s.c.asyncPort == PRIMARY then w.(acked := Some(s.c.inFlightNits), sent := false, disturbed := false)
    else w.(settled := true)
  }

  /** A blocking send to both displays, primary first. */
  function Reached(w: World, nits: real, reached: nat): World {
    w.(settled := reached == 2, disturbed := false,
       primary := if reached >= 1 then Some(nits) else w.primary,
       secondary := if reached >= 2 then Some(nits) else w.secondary)
  }

  function Flushed(s: Sys, reached: nat): World {
    (if !s.c.active || s.c.exitFlushed then s.w else Reached(s.w, s.c.pendingNits, reached)).(exiting := true)
  }

  /** The current flight will still set this display. */
  predicate WillBeSet(c: Ctl, port: int) { c.inFlight && (c.asyncPort == PRIMARY || port == SECONDARY) }

  function Next(s: Sys, e: Event): Sys
    requires Possible(s, e)
  {
    var c, w := s.c, s.w;
    match e
    case Request(nits) => Sys(SetBrightness(c, nits), w)
    case Enable(on) => Sys(SetEnabled(c, on), if StartsOperation(c, on) then w.(operation := Some(on)) else w)
    case OperationEnds(r) =>
      var c' := OperationDone(c, r);
      Sys(c', (if r.EnableOk? then Reached(w, c'.pendingNits, 2) else w).(operation := None))
    case Adopt(m, nits, reached) =>
      var c' := Adopted(c, m, nits, reached == 2);
      Sys(c', if Adopts(c) then Reached(w, Rounded(c'.maxNits, nits), reached) else w)
    case Throttle =>
      var c' := ThrottleFires(c);
      Sys(c', if c'.inFlight && !c.inFlight then w.(acked := None, sent := false) else w)
    case SocketConnected(ok) => Sys(Connected(c, ok), if ok then w.(sent := true) else Failed(w))
    case Data(chunk, accepted) =>
      Sys(ReadyRead(c, chunk, accepted),
          if '\n' !in c.buffer + chunk then w else if accepted then Answered(s) else Failed(w))
    case Error => Sys(SocketError(c), Failed(w))
    case Timeout => Sys(SocketTimeout(c), Failed(w))
    case HardwarePoll(on) => Sys(c.(hardware := on), w)
    case Exit(reached) => Sys(Cleanup(c, reached == 2), Flushed(s, reached))
    case Disturbance(port, nits) =>
      Sys(c, Shown(w, port, nits).(disturbed := w.disturbed || !WillBeSet(c, port)))
  }

  // ---------------------------------------------------------------- what every reachable state keeps

  /** A send is in flight exactly while its socket and timeout exist, and only in dual mode. */
  ghost predicate OneSend(s: Sys) {
    && (s.c.inFlight <==> s.c.socket) && (s.c.timeout <==> s.c.socket)
    && (s.c.inFlight ==> s.c.active && !s.c.busy && s.c.asyncPort in {PRIMARY, SECONDARY})
  }

  /** The secondary is served only with the value the primary acknowledged, and shows unless
      something else has changed it since. */
  ghost predicate PrimaryFirst(s: Sys) {
    s.c.inFlight && s.c.asyncPort == SECONDARY ==>
      s.w.acked == Some(s.c.inFlightNits) && (!s.w.disturbed ==> s.w.primary == Some(s.c.inFlightNits))
  }

  /** A value that waits always has something that will pick it up. */
  ghost predicate NothingLost(s: Sys) {
    s.c.active && s.c.updatePending && !s.w.exiting ==> s.c.throttle || s.c.inFlight
  }

  /** Without a newer request, what is in flight is the last value requested. */
  ghost predicate Latest(s: Sys) {
    s.c.inFlight && !s.c.updatePending ==> s.c.inFlightNits == s.c.pendingNits
  }

  ghost predicate BothShow(s: Sys, nits: real) { s.w.primary == Some(nits) && s.w.secondary == Some(nits) }

  /** In dual mode with nothing to do, after a success. */
  ghost predicate AtRest(s: Sys) {
    s.c.active && !s.c.busy && !s.c.inFlight && !s.c.updatePending && s.w.settled
  }

  /** At rest both displays show the last value requested, unless something else changed one. */
  ghost predicate Agreement(s: Sys) {
    AtRest(s) && !s.w.disturbed ==> BothShow(s, s.c.pendingNits)
  }

  /** When the exit flush is skipped, there is nothing left to flush. */
  ghost predicate FlushIsDone(s: Sys) {
    s.c.active && !s.c.busy && s.c.exitFlushed ==>
      !s.c.inFlight && !s.c.updatePending && (!s.w.disturbed ==> BothShow(s, s.c.pendingNits))
  }

  ghost predicate Operations(s: Sys) {
    && (s.c.busy <==> s.w.operation.Some?)
    && (s.c.busy ==> s.w.operation.value == !s.c.active && !s.c.updatePending)
    && (!s.c.active ==> !s.c.updatePending)
  }

  ghost predicate Inv(s: Sys) {
    OneSend(s) && PrimaryFirst(s) && NothingLost(s) && Latest(s) && Agreement(s) && FlushIsDone(s) && Operations(s)
  }

  predicate IsFlightEvent(e: Event) { e.SocketConnected? || e.Data? || e.Error? || e.Timeout? }

  lemma FlightEventsKeepInv(s: Sys, e: Event)
    requires Inv(s) && Possible(s, e) && IsFlightEvent(e)
    ensures Inv(Next(s, e))
  {
  }

  predicate IsOperationEvent(e: Event) { e.Enable? || e.OperationEnds? || e.Adopt? || e.Exit? }

  lemma OperationEventsKeepInv(s: Sys, e: Event)
    requires Inv(s) && Possible(s, e) && IsOperationEvent(e)
    ensures Inv(Next(s, e))
  {
  }

  lemma OtherEventsKeepInv(s: Sys, e: Event)
    requires Inv(s) && Possible(s, e) && !IsFlightEvent(e) && !IsOperationEvent(e)
    ensures Inv(Next(s, e))
  {
  }

  lemma StepKeepsInv(s: Sys, e: Event)
    requires Inv(s) && Possible(s, e)
    ensures Inv(Next(s, e))
  {
    if IsFlightEvent(e) {
      FlightEventsKeepInv(s, e);
    } else if IsOperationEvent(e) {
      OperationEventsKeepInv(s, e);
    } else {
      OtherEventsKeepInv(s, e);
    }
  }

  /** The run is one the environment can produce from s. */
  predicate PossibleRun(s: Sys, run: seq<Event>)
    decreases |run|
  {
    run == [] || (Possible(s, run[0]) && PossibleRun(Next(s, run[0]), run[1..]))
  }

  function After(s: Sys, run: seq<Event>): Sys
    requires PossibleRun(s, run)
    decreases |run|
  {
    if run == [] then s else After(Next(s, run[0]), run[1..])
  }

  lemma {:induction false} RunKeepsInv(s: Sys, run: seq<Event>)
    requires Inv(s) && PossibleRun(s, run)
    ensures Inv(After(s, run))
    decreases |run|
  {
    if run != [] {
      StepKeepsInv(s, run[0]);
      RunKeepsInv(Next(s, run[0]), run[1..]);
    }
  }

  /** Display agreement over every run from start-up, whatever the interleaving of requests,
      acknowledgements, errors, timeouts, enabling, disabling, exit, and requests carried out
      late. */
  lemma EveryRunAgrees(run: seq<Event>)
    requires PossibleRun(START, run)
    ensures Inv(After(START, run))
  {
    assert Inv(START);
    RunKeepsInv(START, run);
  }

  /** At rest a disturbance leaves the displays in agreement exactly when it shows the value they
      show already, and nothing in the controller notices it. */
  lemma DisturbanceBreaksIff(s: Sys, port: int, nits: real)
    requires Inv(s) && AtRest(s) && !s.w.disturbed && port in {PRIMARY, SECONDARY}
    ensures var t := Next(s, Disturbance(port, nits));
      t.c == s.c && (BothShow(t, s.c.pendingNits) <==> nits == s.c.pendingNits)
  {
  }

  // ---------------------------------------------------------------- the shared maximum

  /** A value brought into the range from 20 nits, or the maximum if that is less, to the maximum. */
  function Brought(nits: real, maxNits: real): real { Max(Min(20.0, maxNits), Min(nits, maxNits)) }

  lemma RoundedIsNear(maxNits: Positive, nits: real)
    ensures -2.5 <= Rounded(maxNits, nits) - Brought(nits, maxNits) <= 2.5
    ensures Min(20.0, maxNits) <= Rounded(maxNits, nits) <= maxNits
  {
    R.RoundingIsSound(RangeOf(maxNits), nits, nits);
  }

  /** The dark end of the range is exact. */
  lemma BottomIsExact(maxNits: Positive, nits: real)
    requires nits <= 20.0
    ensures Rounded(maxNits, nits) == Min(20.0, maxNits)
  {
    var r := RangeOf(maxNits);
    if maxNits >= 20.0 {
      assert R.Clamped(r, nits) == 20.0;
      assert R.Steps(r, nits) == 4.0;
    }
  }

  /** The maximum both displays can show, as last read from them. */
  function LastShared(s: Sys, run: seq<Event>, shared: real): real
    requires PossibleRun(s, run)
    decreases |run|
  {
    if run == [] then shared else LastShared(Next(s, run[0]), run[1..], SharedBy(s, run[0], shared))
  }

  function SharedBy(s: Sys, e: Event, shared: real): real {
    match e
    case OperationEnds(EnableOk(m)) => m
    case Adopt(m, _, _) => if Adopts(s.c) then m else shared
    case _ => shared
  }

  predicate AtMost(shown: Option<real>, limit: real) { shown.Some? ==> shown.value <= limit }

  /** In dual mode nothing above the shared maximum is waiting or under way. */
  predicate WithinShared(s: Sys, shared: real) {
    && Close(s.c.maxNits, shared)
    && (s.c.active ==> s.c.pendingNits <= shared + 0.05)
    && (s.c.inFlight ==> s.c.inFlightNits <= shared + 0.05)
  }

  /** Nor is it shown. */
  predicate ShowsWithinShared(s: Sys, shared: real) {
    s.c.active ==> AtMost(s.w.primary, shared + 0.05) && AtMost(s.w.secondary, shared + 0.05)
  }

  lemma StepKeepsWithinShared(s: Sys, e: Event, shared: real)
    requires Inv(s) && Possible(s, e) && WithinShared(s, shared)
    ensures WithinShared(Next(s, e), SharedBy(s, e, shared))
    ensures ShowsWithinShared(s, shared) && !e.Disturbance? ==> ShowsWithinShared(Next(s, e), SharedBy(s, e, shared))
  {
    match e
    case Request(nits) => RoundedIsNear(s.c.maxNits, nits);
    case OperationEnds(EnableOk(m)) => RoundedIsNear(m, m / 2.0);
    case Adopt(m, nits, _) => RoundedIsNear(SetMax(s.c, m).maxNits, nits);
    case _ =>
  }

  ghost predicate Undisturbed(run: seq<Event>) { forall e :: e in run ==> !e.Disturbance? }

  /** Over every run: while dual mode is on, nothing requested or sent exceeds the maximum last
      read from the displays by more than 0.05, and nothing shown does unless something else than
      the controller set it. */
  lemma {:induction false} RunKeepsWithinShared(s: Sys, run: seq<Event>, shared: real)
    requires Inv(s) && PossibleRun(s, run) && WithinShared(s, shared)
    ensures WithinShared(After(s, run), LastShared(s, run, shared))
    ensures ShowsWithinShared(s, shared) && Undisturbed(run) ==> ShowsWithinShared(After(s, run), LastShared(s, run, shared))
    decreases |run|
  {
    if run != [] {
      StepKeepsInv(s, run[0]);
      StepKeepsWithinShared(s, run[0], shared);
      assert run[0] in run && forall e :: e in run[1..] ==> e in run;
      RunKeepsWithinShared(Next(s, run[0]), run[1..], SharedBy(s, run[0], shared));
    }
  }

  lemma StartIsWithinShared()
    ensures WithinShared(START, 1000.0) && ShowsWithinShared(START, 1000.0)
  {
  }

  // ---------------------------------------------------------------- delivery

  /** What happens by itself when nothing goes wrong and nobody asks for anything. */
  predicate IsProgress(e: Event) {
    e.Throttle? || (e.SocketConnected? && e.writeOk) || (e.Data? && e.accepted && '\n' in e.chunk)
  }

  /** Neither a request nor a failure: progress, parts of answers, and hardware polls. */
  predicate IsCalm(e: Event) { IsProgress(e) || (e.Data? && e.accepted) || e.HardwarePoll? }

  ghost predicate AllCalm(run: seq<Event>) { forall e :: e in run ==> IsCalm(e) }

  function Stage(s: Sys): nat {
    if !s.c.inFlight then 0
    else (if s.c.asyncPort == PRIMARY then 2 else 0) + (if s.w.sent then 1 else 2)
  }

  /** How much is left to do. */
  function Rank(s: Sys): nat {
    (if s.c.updatePending then 10 else 0) + 2 * Stage(s) + (if s.c.throttle then 1 else 0)
  }

  ghost predicate Working(s: Sys) { s.c.active && !s.c.busy && !s.w.exiting }

  /** The last requested value is waiting, in flight and not yet disturbed, or shown. */
  ghost predicate OnItsWay(s: Sys) {
    || s.c.updatePending
    || (s.c.inFlight && (s.c.asyncPort == PRIMARY || !s.w.disturbed))
    || (s.w.settled && !s.w.disturbed)
  }

  /** Calm events never add work, and progress takes some off. */
  lemma CalmDescends(s: Sys, e: Event)
    requires Inv(s) && Working(s) && Possible(s, e) && IsCalm(e)
    ensures var t := Next(s, e);
      && Inv(t) && Working(t) && t.c.pendingNits == s.c.pendingNits && (OnItsWay(s) ==> OnItsWay(t))
      && Rank(t) <= Rank(s) && (IsProgress(e) ==> Rank(t) < Rank(s))
  {
    StepKeepsInv(s, e);
    if e.Data? {
      assert '\n' in e.chunk ==> '\n' in s.c.buffer + e.chunk;
    }
  }

  /** Until everything is delivered, some progress event can happen. */
  lemma ProgressIsPossible(s: Sys)
    requires Inv(s) && Working(s) && Rank(s) > 0
    ensures exists e :: IsProgress(e) && Possible(s, e)
  {
    if s.c.throttle {
      assert IsProgress(Throttle) && Possible(s, Throttle);
    } else if s.w.sent {
      var e := Data("\n", true);
      assert '\n' in e.chunk;
      assert IsProgress(e) && Possible(s, e);
    } else {
      assert IsProgress(SocketConnected(true)) && Possible(s, SocketConnected(true));
    }
  }

  /** How many events of a run make progress. */
  function ProgressIn(run: seq<Event>): nat {
    if run == [] then 0 else (if IsProgress(run[0]) then 1 else 0) + ProgressIn(run[1..])
  }

  /** No lost update: once requests stop and nothing fails, whatever answers arrive in pieces and
      however often the hardware is polled, at most Rank(s) events make progress, the last
      requested value is shown by both displays when nothing is left to do, and until then the
      machine cannot stall. */
  lemma {:induction false} LastRequestIsDelivered(s: Sys, run: seq<Event>)
    requires Inv(s) && Working(s) && OnItsWay(s)
    requires PossibleRun(s, run) && AllCalm(run)
    ensures var t := After(s, run);
      && ProgressIn(run) + Rank(t) <= Rank(s)
      && (Rank(t) == 0 ==> BothShow(t, s.c.pendingNits))
      && (Rank(t) > 0 ==> exists e :: IsProgress(e) && Possible(t, e))
    decreases |run|
  {
    if run == [] {
      if Rank(s) > 0 {
        ProgressIsPossible(s);
      }
    } else {
      assert run[0] in run;
      CalmDescends(s, run[0]);
      LastRequestIsDelivered(Next(s, run[0]), run[1..]);
    }
  }

  function FirstUse(sharedMax: Positive, nits: real): seq<Event> {
    [HardwarePoll(true)] + ([Enable(true)] + ([OperationEnds(EnableOk(sharedMax))] + ([Request(nits)] + [])))
  }

  lemma OneEvent(s: Sys, e: Event, rest: seq<Event>)
    requires Possible(s, e) && PossibleRun(Next(s, e), rest)
    ensures PossibleRun(s, [e] + rest) && After(s, [e] + rest) == After(Next(s, e), rest)
  {
    assert ([e] + rest)[1..] == rest;
  }

  /** From start-up, enabling and then a request bring the machine where delivery is promised. */
  lemma FirstUseIsDelivered(sharedMax: Positive, nits: real)
    ensures PossibleRun(START, FirstUse(sharedMax, nits))
    ensures var s := After(START, FirstUse(sharedMax, nits)); Inv(s) && Working(s) && OnItsWay(s)
  {
    var e1, e2, e3, e4 := HardwarePoll(true), Enable(true), OperationEnds(EnableOk(sharedMax)), Request(nits);
    var s1 := Next(START, e1);
    var s2 := Next(s1, e2);
    var s3 := Next(s2, e3);
    OneEvent(s3, e4, []);
    OneEvent(s2, e3, [e4] + []);
    OneEvent(s1, e2, [e3] + ([e4] + []));
    OneEvent(START, e1, [e2] + ([e3] + ([e4] + [])));
    EveryRunAgrees(FirstUse(sharedMax, nits));
  }

  /** The four ways a flight fails: no connection, no write, a refusal, no answer in time. */
  predicate Fails(s: Sys, e: Event) {
    e.Error? || e.Timeout? || (e.SocketConnected? && !e.writeOk)
    || (e.Data? && !e.accepted && '\n' in s.c.buffer + e.chunk)
  }

  /** A send that fails is repeated exactly when a newer request waits: otherwise the machine
      comes to rest with the displays possibly apart. */
  lemma FailedSendIsRetriedIff(s: Sys, e: Event)
    requires Inv(s) && Working(s) && Possible(s, e) && Fails(s, e)
    ensures var t := Next(s, e);
      && !t.c.inFlight && !t.w.settled && t.c.pendingNits == s.c.pendingNits
      && (t.c.updatePending <==> s.c.updatePending)
      && (t.c.throttle <==> s.c.throttle || s.c.updatePending)
      && (Rank(t) > 0 <==> s.c.updatePending || s.c.throttle)
  {
  }
}
