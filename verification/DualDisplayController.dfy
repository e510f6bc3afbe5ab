/** DualDisplayAbsoluteController as an object: its slots change its fields one by one. The world
    around it is a ghost field, and Valid is the invariant of module DualDisplay about both; every
    slot keeps it and says what it achieves. Timers are the flags they arm; the socket is the
    flag that it exists. */
module DualDisplayController {
  import R = Rounding
  import opened Basics
  import opened DualDisplay

  class Controller {
    var active: bool
    var busy: bool
    var hardwareAvailable: bool
    var maxNits: Positive
    var pendingNits: real
    var brightnessUpdatePending: bool
    var throttleActive: bool
    var asyncTimeoutActive: bool
    var hasSocket: bool
    var asyncReadBuffer: string
    var sendInFlight: bool
    var asyncPort: int
    var inFlightNits: real
    var exitFlushed: bool
    ghost var world: World

    function State(): Ctl
      reads this
    {
      Ctl(active, busy, hardwareAvailable, maxNits, pendingNits, brightnessUpdatePending, throttleActive,
          asyncTimeoutActive, hasSocket, asyncReadBuffer, sendInFlight, asyncPort, inFlightNits, exitFlushed)
    }

    ghost function System(): Sys
      reads this
    {
      Sys(State(), world)
    }

    ghost predicate Valid()
      reads this
    {
      Inv(System())
    }

    constructor ()
      ensures Valid() && System() == START
    {
      active, busy, hardwareAvailable := false, false, false;
      maxNits, pendingNits, inFlightNits := 1000.0, 0.0, 0.0;
      brightnessUpdatePending, throttleActive, asyncTimeoutActive := false, false, false;
      hasSocket, asyncReadBuffer, sendInFlight, asyncPort, exitFlushed := false, "", false, 0, false;
      world := START.w;
    }

    // The steps the slots share, each a transition of the fields alone.

    method SetMaxNits(nits: Positive)
      modifies this`maxNits
      ensures State() == SetMax(old(State()), nits)
    {
      if -0.05 <= maxNits - nits <= 0.05 {
        return;
      }
      maxNits := nits;
    }

    method CloseAsyncSocket()
      modifies this`asyncTimeoutActive, this`asyncReadBuffer, this`hasSocket
      ensures State() == CloseSocket(old(State()))
    {
      asyncTimeoutActive := false;
      asyncReadBuffer := "";
      if !hasSocket {
        return;
      }
      hasSocket := false;
    }

    method StartAsyncBrightnessSendToPort(port: int)
      modifies this`asyncTimeoutActive, this`asyncReadBuffer, this`hasSocket, this`asyncPort
      ensures State() == StartPort(old(State()), port)
    {
      CloseAsyncSocket();
      asyncPort := port;
      asyncReadBuffer := "";
      hasSocket := true;
      asyncTimeoutActive := true;
    }

    method FinishAsyncBrightnessSend()
      modifies this`sendInFlight, this`throttleActive
      ensures State() == FinishSend(old(State()))
    {
      sendInFlight := false;
      if active && brightnessUpdatePending {
        throttleActive := true;
      }
    }

    method FailAsyncBrightnessSend()
      modifies this`asyncTimeoutActive, this`asyncReadBuffer, this`hasSocket, this`sendInFlight, this`throttleActive
      ensures State() == FailSend(old(State()))
    {
      CloseAsyncSocket();
      sendInFlight := false;
      if active && brightnessUpdatePending {
        throttleActive := true;
      }
    }

    method StopSending()
      modifies this`throttleActive, this`asyncTimeoutActive, this`asyncReadBuffer, this`hasSocket, this`sendInFlight
      ensures State() == CloseSocket(old(State())).(throttle := false, inFlight := false)
    {
      throttleActive := false;
      CloseAsyncSocket();
      sendInFlight := false;
    }

    method StartAsyncBrightnessSend(nits: real)
      modifies this`brightnessUpdatePending, this`pendingNits, this`sendInFlight, this`inFlightNits
      modifies this`asyncTimeoutActive, this`asyncReadBuffer, this`hasSocket, this`asyncPort
      ensures State() ==
        if old(sendInFlight) then old(State()).(updatePending := true, pendingNits := nits)
        else StartPort(old(State()).(inFlight := true, inFlightNits := nits), PRIMARY)
    {
      if sendInFlight {
        brightnessUpdatePending := true;
        pendingNits := nits;
        return;
      }
      sendInFlight := true;
      inFlightNits := nits;
      StartAsyncBrightnessSendToPort(PRIMARY);
    }

    method Activate(nits: real)
      modifies this`pendingNits, this`brightnessUpdatePending, this`active, this`exitFlushed, this`busy
      ensures State() == Activated(old(State()), nits)
    {
      pendingNits := nits;
      brightnessUpdatePending := false;
      active := true;
      exitFlushed := false;
      busy := false;
    }

    // The slots.

    /** The environment reacts to a slot that has just been run on the fields. */
    ghost method Advance(before: Sys, e: Event)
      requires Inv(before) && Possible(before, e) && State() == Next(before, e).c
      modifies this`world
      ensures Valid() && System() == Next(before, e)
    {
      world := Next(before, e).w;
      StepKeepsInv(before, e);
    }

    /** In dual mode the request, brought into range, waits to be sent and something will pick it
        up; a send in flight goes on. Otherwise nothing happens. */
    method SetAbsoluteBrightness(nits: real)
      requires Valid()
      modifies this
      ensures Valid() && System() == Next(old(System()), Request(nits))
      ensures old(active && !busy) ==> brightnessUpdatePending && throttleActive
      ensures old(active && !busy) ==>
        -2.5 <= pendingNits - Brought(nits, maxNits) <= 2.5 && Min(20.0, maxNits) <= pendingNits <= maxNits
      ensures sendInFlight == old(sendInFlight) && inFlightNits == old(inFlightNits) && asyncPort == old(asyncPort)
      ensures old(!active || busy) ==> System() == old(System())
    {
      ghost var before := System();
      if active && !busy {
        RoundedIsNear(maxNits, nits);
        pendingNits := Rounded(maxNits, nits);
        brightnessUpdatePending := true;
        exitFlushed := false;
        if !throttleActive {
          throttleActive := true;
        }
      }
      Advance(before, Request(nits));
    }

    /** The throttle's slot; the timer is single-shot. A waiting value goes to the primary display
        first; a send already in flight is left alone and the value keeps waiting. */
    method ProcessBrightnessUpdate()
      requires Valid() && throttleActive
      modifies this
      ensures Valid() && System() == Next(old(System()), Throttle)
      ensures old(active && brightnessUpdatePending && !sendInFlight) ==>
        sendInFlight && asyncPort == PRIMARY && inFlightNits == pendingNits == old(pendingNits) && !brightnessUpdatePending
      ensures old(sendInFlight) ==>
        sendInFlight && asyncPort == old(asyncPort) && inFlightNits == old(inFlightNits)
        && brightnessUpdatePending == old(brightnessUpdatePending)
    {
      ghost var before := System();
      throttleActive := false;
      if active && brightnessUpdatePending && !sendInFlight {
        var target := pendingNits;
        brightnessUpdatePending := false;
        StartAsyncBrightnessSend(target);
      }
      Advance(before, Throttle);
    }

    method OnAsyncSocketConnected(writeOk: bool)
      requires Valid() && Possible(System(), SocketConnected(writeOk))
      modifies this
      ensures Valid() && System() == Next(old(System()), SocketConnected(writeOk))
      ensures writeOk ==> State() == old(State())
      ensures !writeOk ==> GaveUp(old(State()))
    {
      ghost var before := System();
      if hasSocket && !writeOk {
        FailAsyncBrightnessSend();
      }
      Advance(before, SocketConnected(writeOk));
    }

    /** A flight is over without success, and a value that waited is picked up by the throttle. */
    ghost predicate GaveUp(before: Ctl)
      reads this
    {
      && !sendInFlight && !hasSocket && !asyncTimeoutActive
      && pendingNits == before.pendingNits && brightnessUpdatePending == before.updatePending
      && (brightnessUpdatePending ==> throttleActive)
    }

    /** An answer that is not complete changes nothing but the buffer. A complete one from the
        primary hands the same value on to the secondary; one from the secondary ends the flight
        with both displays in agreement; a refusal gives it up. */
    method OnAsyncSocketReadyRead(chunk: string, accepted: bool)
      requires Valid() && Possible(System(), Data(chunk, accepted))
      modifies this
      ensures Valid() && System() == Next(old(System()), Data(chunk, accepted))
      ensures var complete, primary := '\n' in old(asyncReadBuffer) + chunk, old(asyncPort) == PRIMARY;
        && (!complete ==> State() == old(State()).(buffer := old(asyncReadBuffer) + chunk))
        && (complete && accepted && primary ==>
              sendInFlight && asyncPort == SECONDARY && inFlightNits == old(inFlightNits)
              && world.primary == world.acked == Some(inFlightNits))
        && (complete && accepted && !primary ==>
              !sendInFlight && world.settled && (!world.disturbed ==> BothShow(System(), old(inFlightNits))))
        && (complete && !accepted ==> GaveUp(old(State())))
    {
      ghost var before := System();
      asyncReadBuffer := asyncReadBuffer + chunk;
      if '\n' in asyncReadBuffer {
        if !accepted {
          FailAsyncBrightnessSend();
        } else {
          var completedPort := asyncPort;
          CloseAsyncSocket();
          if completedPort == PRIMARY {
            StartAsyncBrightnessSendToPort(SECONDARY);
          } else {
            FinishAsyncBrightnessSend();
          }
        }
      }
      Advance(before, Data(chunk, accepted));
    }

    method OnAsyncSocketError()
      requires Valid() && hasSocket
      modifies this
      ensures Valid() && System() == Next(old(System()), Error)
      ensures GaveUp(old(State()))
    {
      ghost var before := System();
      if hasSocket {
        FailAsyncBrightnessSend();
      }
      Advance(before, Error);
    }

    method OnAsyncSocketTimeout()
      requires Valid() && asyncTimeoutActive
      modifies this
      ensures Valid() && System() == Next(old(System()), Timeout)
      ensures GaveUp(old(State()))
    {
      ghost var before := System();
      asyncTimeoutActive := false;
      FailAsyncBrightnessSend();
      Advance(before, Timeout);
    }

    /** setEnabled up to handing the operation to a worker; true if it does. Once disabling has
        started nothing is in flight or waiting. */
    method SetEnabledMode(enabled: bool) returns (started: bool)
      requires Valid()
      modifies this
      ensures Valid() && System() == Next(old(System()), Enable(enabled))
      ensures started <==> !old(busy) && enabled != old(active) && (enabled ==> hardwareAvailable)
      ensures started ==> busy && !sendInFlight && !hasSocket && !brightnessUpdatePending
      ensures started && !enabled ==> !throttleActive
      ensures !started ==> System() == old(System())
    {
      ghost var before := System();
      started := !busy && !(enabled && !hardwareAvailable) && enabled != active;
      if started {
        busy := true;
        if !enabled {
          StopSending();
          brightnessUpdatePending := false;
        }
      }
      Advance(before, Enable(enabled));
    }

    /** The completion handler of the worker: dual mode is on exactly after a successful enabling,
        and then the shared maximum is taken over and both displays show half of it, rounded. */
    method OnOperationFinished(result: Result)
      requires Valid() && Possible(System(), OperationEnds(result))
      modifies this
      ensures Valid() && System() == Next(old(System()), OperationEnds(result))
      ensures !busy && (active <==> result.EnableOk?)
      ensures active ==> BothShow(System(), pendingNits)
      ensures !result.EnableFailed? ==> exitFlushed == !active
      ensures result.EnableOk? ==> var m := result.sharedMax;
        && -0.05 <= maxNits - m <= 0.05
        && -2.5 <= pendingNits - Brought(m / 2.0, m) <= 2.5 && Min(20.0, m) <= pendingNits <= m
    {
      ghost var before := System();
      match result {
        case EnableFailed =>
          busy := false;
        case EnableOk(sharedMax) =>
          var nits := Rounded(sharedMax, sharedMax / 2.0);
          RoundedIsNear(sharedMax, sharedMax / 2.0);
          SetMaxNits(sharedMax);
          Activate(nits);
        case Disabled =>
          active := false;
          exitFlushed := true;
          busy := false;
      }
      Advance(before, OperationEnds(result));
    }

    /** adoptSavedState once an enabled state was loaded: dual mode is on exactly if it was or if
        both displays were reached, and then they show the saved value, rounded and brought under
        the shared maximum, which is taken over in any case. */
    method AdoptSavedState(sharedMax: Positive, savedNits: real, reached: nat)
      requires Valid() && reached <= 2
      modifies this
      ensures Valid() && System() == Next(old(System()), Adopt(sharedMax, savedNits, reached))
      ensures var tried := Adopts(old(State()));
        && (active <==> old(active) || (tried && reached == 2))
        && (tried && reached == 2 ==> BothShow(System(), pendingNits) && !exitFlushed)
        && (!tried ==> System() == old(System()))
        && (tried ==> -0.05 <= maxNits - sharedMax <= 0.05)
        && (tried && reached == 2 ==>
              -2.5 <= pendingNits - Brought(savedNits, maxNits) <= 2.5 && Min(20.0, maxNits) <= pendingNits <= maxNits)
    {
      ghost var before := System();
      if !active && !busy && hardwareAvailable {
        busy := true;
        SetMaxNits(sharedMax);
        var rounded := Rounded(maxNits, savedNits);
        RoundedIsNear(maxNits, savedNits);
        if reached == 2 {
          Activate(rounded);
        } else {
          busy := false;
        }
      }
      Advance(before, Adopt(sharedMax, savedNits, reached));
    }

    /** Nothing is in flight afterwards; in dual mode, unless that was done before, the last value
        requested is sent to both displays, and a second call sends nothing. */
    method ExitCleanup(reached: nat)
      requires Valid() && reached <= 2
      modifies this
      ensures Valid() && System() == Next(old(System()), Exit(reached))
      ensures !sendInFlight && !hasSocket && !throttleActive && pendingNits == old(pendingNits)
      ensures active && !old(exitFlushed) && reached == 2 ==> BothShow(System(), pendingNits) && !brightnessUpdatePending
      ensures exitFlushed == (old(exitFlushed) || (active && reached == 2)) && active == old(active)
    {
      ghost var before := System();
      StopSending();
      if active && !exitFlushed && reached == 2 {
        brightnessUpdatePending := false;
        exitFlushed := true;
      }
      Advance(before, Exit(reached));
    }

    method SetHardwareAvailable(available: bool)
      requires Valid()
      modifies this
      ensures Valid() && System() == Next(old(System()), HardwarePoll(available))
    {
      ghost var before := System();
      hardwareAvailable := available;
      Advance(before, HardwarePoll(available));
    }

    /** Any event that can happen, by the slot that handles it. */
    method Handle(e: Event)
      requires Valid() && Possible(System(), e)
      modifies this
      ensures Valid() && System() == Next(old(System()), e)
    {
      match e
      case Request(nits) => SetAbsoluteBrightness(nits);
      case Enable(enabled) => var started := SetEnabledMode(enabled);
      case OperationEnds(result) => OnOperationFinished(result);
      case Adopt(sharedMax, savedNits, reached) => AdoptSavedState(sharedMax, savedNits, reached);
      case Throttle => ProcessBrightnessUpdate();
      case SocketConnected(writeOk) => OnAsyncSocketConnected(writeOk);
      case Data(chunk, accepted) => OnAsyncSocketReadyRead(chunk, accepted);
      case Error => OnAsyncSocketError();
      case Timeout => OnAsyncSocketTimeout();
      case HardwarePoll(available) => SetHardwareAvailable(available);
      case Exit(reached) => ExitCleanup(reached);
      case Disturbance(port, nits) => Advance(System(), e);
    }

    /** Any run of the object, from any state it can be in. */
    method Run(run: seq<Event>)
      requires Valid() && PossibleRun(System(), run)
      modifies this
      ensures Valid() && System() == After(old(System()), run)
      ensures sendInFlight <==> hasSocket
      ensures sendInFlight && asyncPort == SECONDARY ==> world.acked == Some(inFlightNits)
      ensures active && brightnessUpdatePending && !world.exiting ==> throttleActive || sendInFlight
      ensures AtRest(System()) && !world.disturbed ==> BothShow(System(), pendingNits)
      ensures old(Working(System()) && OnItsWay(System())) && AllCalm(run) ==>
        Rank(System()) == 0 ==> BothShow(System(), old(pendingNits))
      ensures forall shared: real :: old(WithinShared(System(), shared)) ==>
        WithinShared(System(), LastShared(old(System()), run, shared))
    {
      ghost var start := System();
      for i := 0 to |run|
        invariant Valid() && PossibleRun(System(), run[i..]) && After(System(), run[i..]) == After(start, run)
      {
        assert run[i..][1..] == run[i + 1..];
        Handle(run[i]);
      }
      if Working(start) && OnItsWay(start) && AllCalm(run) {
        LastRequestIsDelivered(start, run);
      }
      forall shared: real | WithinShared(start, shared)
        ensures WithinShared(System(), LastShared(start, run, shared))
      {
        RunKeepsWithinShared(start, run, shared);
      }
    }
  }
}
