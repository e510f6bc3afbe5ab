/** The wp_adjust register bank and its write/verify/commit contract. Gains are written to
    shadow registers and become active at the next frame boundary after a commit. A frame
    boundary may fall before any register operation, and any operation may raise; which ones,
    and what a shadow write really leaves behind, is given by a schedule nothing is assumed
    about. */
module WpAdjust {
  import opened Basics
  import opened ColorMath

  const COMMIT_MAGIC := 0xCA1B
  const COMMIT_CANCEL_MAGIC := 0xC0FF
  const DEFAULTS_MAGIC := 0xD65D
  const REG_CONTROL_SHADOW := 0x00
  const REG_R_GAIN_SHADOW := 0x01
  const REG_G_GAIN_SHADOW := 0x02
  const REG_B_GAIN_SHADOW := 0x03
  const REG_R_GAIN_ACTIVE := 0x21
  const REG_G_GAIN_ACTIVE := 0x22
  const REG_B_GAIN_ACTIVE := 0x23
  const REG_STATUS := 0x72
  const REG_COMMIT := 0x7E
  const REG_DEFAULTS := 0x7F

  /** Does an operation return, or raise a bus exception without or after taking effect. */
  datatype Fault = Fine | Lost | Applied

  /** The environment: does a frame boundary fall before register operation n, which value does
      a shadow register hold after operation n wrote the given one, and does it raise. */
  datatype Schedule = Schedule(boundary: nat -> bool, landed: (nat, int) -> int, fault: nat -> Fault)

  datatype Bank = Bank(shadow: Gains, shadowControl: int, active: Gains, activeControl: int,
                       pending: bool, consumed: bool)

  function AllGains(v: int): Gains { Gains(v, v, v) }

  function Defaulted(unity: int): Bank {
    Bank(AllGains(unity), 0, AllGains(unity), 0, false, false)
  }

  function Latched(b: Bank): Bank {
    if b.pending then b.(active := b.shadow, activeControl := b.shadowControl, pending := false, consumed := true)
    else b
  }

  /** The bank as operation n finds it. */
  function Before(s: Schedule, n: nat, b: Bank): Bank {
    if s.boundary(n) then Latched(b) else b
  }

  function RegisterAt(b: Bank, addr: int, fracBits: nat): int {
    if addr == REG_STATUS then StatusWord(b, fracBits)
    else if addr == REG_CONTROL_SHADOW then b.shadowControl
    else if addr == REG_R_GAIN_SHADOW then b.shadow.r
    else if addr == REG_G_GAIN_SHADOW then b.shadow.g
    else if addr == REG_B_GAIN_SHADOW then b.shadow.b
    else if addr == REG_R_GAIN_ACTIVE then b.active.r
    else if addr == REG_G_GAIN_ACTIVE then b.active.g
    else if addr == REG_B_GAIN_ACTIVE then b.active.b
    else 0
  }

  /** The effect of writing a 16-bit value; landed is what a shadow register then holds. */
  function Written(b: Bank, addr: int, value: int, landed: int, unity: int): Bank {
    if addr == REG_CONTROL_SHADOW then b.(shadowControl := landed % 4)
    else if addr == REG_COMMIT then
      if value == COMMIT_MAGIC then b.(pending := true, consumed := false)
      else if value == COMMIT_CANCEL_MAGIC then b.(pending := false, consumed := false)
      else b
    else if addr == REG_DEFAULTS && value == DEFAULTS_MAGIC then Defaulted(unity)
    else if addr == REG_R_GAIN_SHADOW then b.(shadow := b.shadow.(r := landed))
    else if addr == REG_G_GAIN_SHADOW then b.(shadow := b.shadow.(g := landed))
    else if addr == REG_B_GAIN_SHADOW then b.(shadow := b.shadow.(b := landed))
    else b
  }

  function StatusWord(b: Bank, fracBits: nat): int {
    fracBits * 256 + b.activeControl % 4 * 4 + (if b.consumed then 2 else 0) + (if b.pending then 1 else 0)
  }

  lemma StatusBits(b: Bank, fracBits: nat)
    ensures StatusWord(b, fracBits) % 2 == 1 <==> b.pending
    ensures StatusWord(b, fracBits) / 2 % 2 == 1 <==> b.consumed
  {
    var q := fracBits * 64 + b.activeControl % 4;
    var c, p := if b.consumed then 1 else 0, if b.pending then 1 else 0;
    assert StatusWord(b, fracBits) == 2 * (2 * q + c) + p;
    HalfOf(2 * q + c, p);
    HalfOf(q, c);
  }

  lemma HalfOf(q: int, bit: int)
    requires 0 <= bit <= 1
    ensures (2 * q + bit) % 2 == bit && (2 * q + bit) / 2 == q
  {
  }

  /** A boundary falls before one of the operations from..upTo. */
  ghost predicate BoundaryWithin(s: Schedule, from: nat, upTo: int) {
    exists i: nat :: from <= i <= upTo && s.boundary(i)
  }

  ghost predicate NoFault(s: Schedule, from: nat, upTo: int) {
    forall i: nat :: from <= i <= upTo ==> s.fault(i) == Fine
  }

  /** A boundary falls before one of the operations from..upTo, none before it raising. */
  ghost predicate LatchesWithin(s: Schedule, from: nat, upTo: int) {
    exists i: nat :: from <= i <= upTo && s.boundary(i) && NoFault(s, from, i - 1)
  }

  /** The same, and that operation returns. */
  ghost predicate SeenWithin(s: Schedule, from: nat, upTo: int) {
    exists i: nat :: from <= i <= upTo && s.boundary(i) && NoFault(s, from, i)
  }

  /** How a call to WriteGainsAndCommit ends; all but the first are exceptions. */
  datatype Outcome = Committed | Refused | Mismatch | TimedOut | Aborted | BusFailed

  /** The operator's abort flag: seen from the given poll on, or never (also when the caller
      passes no control). */
  datatype Control = NoAbort | AbortFrom(poll: nat)

  /** The last poll: the deadline has passed there, or the abort flag is seen there. */
  function LastPoll(deadline: nat, control: Control): nat {
    if control.AbortFrom? && control.poll < deadline then control.poll else deadline
  }

  class Registers {
    const schedule: Schedule
    const fracBits: nat
    const unity: int
    var shadow: Gains
    var shadowControl: int
    var active: Gains
    var activeControl: int
    var commitPending: bool
    var commitConsumed: bool
    var operations: nat
    var preRunGains: Option<Gains>
    /** Every triple that was active during some register operation. */
    ghost var seen: set<Gains>

    function State(): Bank
      reads this
    {
      Bank(shadow, shadowControl, active, activeControl, commitPending, commitConsumed)
    }

    constructor (schedule: Schedule, fracBits: nat)
      ensures this.schedule == schedule && this.fracBits == fracBits && unity == Pow2(fracBits)
      ensures State() == Defaulted(unity) && operations == 0 && preRunGains.None?
    {
      this.schedule, this.fracBits, unity := schedule, fracBits, Pow2(fracBits);
      shadow, shadowControl := AllGains(Pow2(fracBits)), 0;
      active, activeControl := AllGains(Pow2(fracBits)), 0;
      commitPending, commitConsumed, operations, preRunGains := false, false, 0, None;
      seen := {};
    }

    method Tick()
      modifies this
      ensures State() == Before(schedule, old(operations), old(State()))
      ensures operations == old(operations) + 1 && preRunGains == old(preRunGains)
      ensures seen == old(seen) + {active}
    {
      if schedule.boundary(operations) && commitPending {
        active, activeControl, commitPending, commitConsumed := shadow, shadowControl, false, true;
      }
      operations := operations + 1;
      seen := seen + {active};
    }

    /** None is an exception. */
    method Read16(addr: int) returns (value: Option<int>)
      modifies this
      ensures State() == Before(schedule, old(operations), old(State()))
      ensures operations == old(operations) + 1 && preRunGains == old(preRunGains)
      ensures seen == old(seen) + {active}
      ensures value == if schedule.fault(old(operations)) == Fine then Some(RegisterAt(State(), addr, fracBits)) else None
    {
      var fault := schedule.fault(operations);
      Tick();
      if fault != Fine {
        return None;
      }
      value := Some(
        if addr == REG_STATUS then StatusWord(State(), fracBits)
        else if addr == REG_CONTROL_SHADOW then shadowControl
        else if addr == REG_R_GAIN_SHADOW then shadow.r
        else if addr == REG_G_GAIN_SHADOW then shadow.g
        else if addr == REG_B_GAIN_SHADOW then shadow.b
        else if addr == REG_R_GAIN_ACTIVE then active.r
        else if addr == REG_G_GAIN_ACTIVE then active.g
        else if addr == REG_B_GAIN_ACTIVE then active.b
        else 0);
    }

    /** A result of false is an exception, which may come before or after the effect. */
    method Write16(addr: int, raw: int) returns (ok: bool)
      modifies this
      ensures operations == old(operations) + 1 && preRunGains == old(preRunGains)
      ensures seen == old(seen) + {Before(schedule, old(operations), old(State())).active, active}
      ensures ok <==> schedule.fault(old(operations)) == Fine
      ensures var b := Before(schedule, old(operations), old(State()));
        State() == if schedule.fault(old(operations)) == Lost then b
          else Written(b, addr, raw % 0x10000, schedule.landed(old(operations), raw % 0x10000), unity)
    {
      var value := raw % 0x10000;
      var landed, fault := schedule.landed(operations, value), schedule.fault(operations);
      Tick();
      if fault == Lost {
        return false;
      }
      if addr == REG_CONTROL_SHADOW {
        shadowControl := landed % 4;
      } else if addr == REG_COMMIT && value == COMMIT_MAGIC {
        commitPending, commitConsumed := true, false;
      } else if addr == REG_COMMIT && value == COMMIT_CANCEL_MAGIC {
        commitPending, commitConsumed := false, false;
      } else if addr == REG_DEFAULTS && value == DEFAULTS_MAGIC {
        shadow, shadowControl, active, activeControl := AllGains(unity), 0, AllGains(unity), 0;
        commitPending, commitConsumed := false, false;
      } else if addr == REG_R_GAIN_SHADOW {
        shadow := shadow.(r := landed);
      } else if addr == REG_G_GAIN_SHADOW {
        shadow := shadow.(g := landed);
      } else if addr == REG_B_GAIN_SHADOW {
        shadow := shadow.(b := landed);
      }
      seen := seen + {active};
      return fault == Fine;
    }

    method Status() returns (ok: bool, pending: bool, consumed: bool)
      modifies this
      ensures State() == Before(schedule, old(operations), old(State()))
      ensures operations == old(operations) + 1 && preRunGains == old(preRunGains)
      ensures seen == old(seen) + {active}
      ensures ok <==> schedule.fault(old(operations)) == Fine
      ensures ok ==> pending == commitPending && consumed == commitConsumed
    {
      var word := Read16(REG_STATUS);
      if word.None? {
        return false, false, false;
      }
      StatusBits(State(), fracBits);
      return true, word.value % 2 == 1, word.value / 2 % 2 == 1;
    }

    method Defaults() returns (ok: bool)
      modifies this
      ensures ok <==> schedule.fault(old(operations)) == Fine
      ensures State() == if schedule.fault(old(operations)) == Lost then Before(schedule, old(operations), old(State()))
                         else Defaulted(unity)
      ensures operations == old(operations) + 1 && preRunGains == old(preRunGains)
      ensures seen <= old(seen) + {Before(schedule, old(operations), old(State())).active, AllGains(unity)}
    {
      ok := Write16(REG_DEFAULTS, DEFAULTS_MAGIC);
    }

    method CancelCommit() returns (ok: bool)
      modifies this
      ensures ok <==> schedule.fault(old(operations)) == Fine
      ensures operations == old(operations) + 1 && preRunGains == old(preRunGains)
      ensures var b := Before(schedule, old(operations), old(State()));
        && State() == (if schedule.fault(old(operations)) == Lost then b else b.(pending := false, consumed := false))
        && seen == old(seen) + {b.active}
    {
      ok := Write16(REG_COMMIT, COMMIT_CANCEL_MAGIC);
    }

    /** Three separate reads, which a pending commit may come between. */
    method ReadActiveGains() returns (g: Option<Gains>)
      modifies this
      ensures preRunGains == old(preRunGains) && (g.Some? <==> NoFault(schedule, old(operations), old(operations) + 2))
      ensures g.Some? ==> operations == old(operations) + 3
      ensures g.Some? ==> State() == AfterReads(schedule, old(operations), old(State()))
      ensures g.Some? ==> g.value == TripleRead(schedule, old(operations), old(State()))
      ensures !old(commitPending) ==> State() == old(State()) && seen == old(seen) + {active}
    {
      var r := Read16(REG_R_GAIN_ACTIVE);
      if r.None? {
        return None;
      }
      var green := Read16(REG_G_GAIN_ACTIVE);
      if green.None? {
        return None;
      }
      var b := Read16(REG_B_GAIN_ACTIVE);
      if b.None? {
        return None;
      }
      return Some(Gains(r.value, green.value, b.value));
    }

    method WriteFour(g: Gains) returns (ok: bool)
      requires !commitPending
      modifies this
      ensures preRunGains == old(preRunGains) && seen == old(seen) + {active}
      ensures active == old(active) && activeControl == old(activeControl) && !commitPending
      ensures ok <==> NoFault(schedule, old(operations), old(operations) + 3)
      ensures ok ==> operations == old(operations) + 4
      ensures !ok ==> Fails(schedule, old(operations), operations - 1) && operations <= old(operations) + 4
      ensures ok ==> shadow == Gains(schedule.landed(old(operations), g.r % 0x10000),
                                     schedule.landed(old(operations) + 1, g.g % 0x10000),
                                     schedule.landed(old(operations) + 2, g.b % 0x10000))
      ensures ok ==> shadowControl == schedule.landed(old(operations) + 3, 1) % 4
    {
      ok := Write16(REG_R_GAIN_SHADOW, g.r);
      if !ok {
        return;
      }
      ok := Write16(REG_G_GAIN_SHADOW, g.g);
      if !ok {
        return;
      }
      ok := Write16(REG_B_GAIN_SHADOW, g.b);
      if !ok {
        return;
      }
      ok := Write16(REG_CONTROL_SHADOW, 0x0001);
    }

    /** Reads back the shadow registers up to the first that does not hold what was written. */
    method ReadBack(g: Gains) returns (r: Shadowing)
      requires !commitPending
      modifies this
      ensures preRunGains == old(preRunGains) && seen == old(seen) + {active} && State() == old(State())
      ensures var n, k := old(operations), FirstDifference(shadow, shadowControl, g);
        && (r == Verified <==> k == 4 && NoFault(schedule, n, n + 3))
        && (r == Differs <==> k < 4 && NoFault(schedule, n, n + k))
        && (r == Verified ==> operations == n + 4)
        && (r == Broken ==> Fails(schedule, n, operations - 1) && operations <= n + 4)
    {
      var got := Read16(REG_R_GAIN_SHADOW);
      if got != Some(g.r) {
        return if got.None? then Broken else Differs;
      }
      got := Read16(REG_G_GAIN_SHADOW);
      if got != Some(g.g) {
        return if got.None? then Broken else Differs;
      }
      got := Read16(REG_B_GAIN_SHADOW);
      if got != Some(g.b) {
        return if got.None? then Broken else Differs;
      }
      got := Read16(REG_CONTROL_SHADOW);
      return if got.None? then Broken else if got == Some(0x0001) then Verified else Differs;
    }

    /** Writes and reads back the shadow registers: no effect on what is active, and success
        only if every register holds the requested value. */
    method WriteShadow(g: Gains) returns (r: Shadowing)
      requires !commitPending
      modifies this
      ensures preRunGains == old(preRunGains) && seen == old(seen) + {active}
      ensures active == old(active) && activeControl == old(activeControl) && !commitPending
      ensures var n, k := old(operations), Landing(schedule, old(operations), g);
        && (r == Verified <==> k == 4 && NoFault(schedule, n, n + 7))
        && (r == Differs <==> k < 4 && NoFault(schedule, n, n + 4 + k))
        && (r == Verified ==> operations == n + 8 && shadow == g && shadowControl == 1)
        && (r == Broken ==> Fails(schedule, n, operations - 1) && operations <= n + 8)
    {
      var ok := WriteFour(g);
      if !ok {
        return Broken;
      }
      r := ReadBack(g);
    }

    /** Polls until the commit is consumed, the deadline passes, the operator aborts or the bus
        fails. The verdict is exact in terms of the schedule. */
    method AwaitCommit(deadline: nat, control: Control) returns (outcome: Outcome)
      requires commitPending && !commitConsumed
      modifies this
      ensures preRunGains == old(preRunGains) && shadow == old(shadow)
      ensures seen <= old(seen) + {old(active), old(shadow)}
      ensures WaitOutcome(schedule, old(operations), deadline, control, outcome, operations)
      ensures var first, last := old(operations), old(operations) + LastPoll(deadline, control);
        && operations > first
        && active == (if LatchesWithin(schedule, first, LastOperation(first, deadline, control)) then old(shadow)
                      else old(active))
        && (outcome == Committed ==> activeControl == old(shadowControl))
        && (outcome != BusFailed ==> (commitPending <==> outcome == TimedOut))
        && (outcome == BusFailed ==> (commitPending <==> StillPending(schedule, operations - 1, last)))
    {
      ghost var first := operations;
      var poll := 0;
      while true
        invariant 0 <= poll <= LastPoll(deadline, control) && operations == first + poll
        invariant State() == old(State()) && preRunGains == old(preRunGains)
        invariant seen <= old(seen) + {old(active), old(shadow)}
        invariant forall i: nat :: first <= i < first + poll ==> !schedule.boundary(i)
        invariant NoFault(schedule, first, first + poll - 1)
        decreases LastPoll(deadline, control) - poll
      {
        WaitEnds(schedule, first, poll, deadline, control);
        var ok, pending, consumed := Status();
        if !ok {
          return BusFailed;
        }
        if consumed || !pending {
          return Committed;
        }
        if poll >= deadline {
          return TimedOut;
        }
        if control.AbortFrom? && poll >= control.poll {
          var cancelled := CancelCommit();
          return if cancelled then Aborted else BusFailed;
        }
        poll := poll + 1;
      }
    }

    /** Issues the commit and waits for it. */
    method CommitShadow(deadline: nat, control: Control) returns (outcome: Outcome)
      requires !commitPending
      modifies this
      ensures preRunGains == old(preRunGains) && seen <= old(seen) + {old(active), old(shadow)}
      ensures IssuedOutcome(schedule, old(operations), deadline, control, outcome, operations)
      ensures var n := old(operations);
        && operations > n
        && active == (if IssuedTakes(schedule, n, deadline, control) then old(shadow) else old(active))
        && (outcome == Committed ==> activeControl == old(shadowControl))
        && (outcome != BusFailed ==> (commitPending <==> outcome == TimedOut))
        && (outcome == BusFailed ==> commitPending == IssuedPending(schedule, n, deadline, control, operations))
    {
      var ok := Write16(REG_COMMIT, COMMIT_MAGIC);
      if !ok {
        return BusFailed;
      }
      outcome := AwaitCommit(deadline, control);
    }

    /** Everything before the commit: None if it may be issued, else how the call ends. */
    method PrepareCommit(g: Gains) returns (ended: Option<Outcome>)
      modifies this
      ensures preRunGains == old(preRunGains) && seen == old(seen) + {active}
      ensures var n, start := old(operations), Before(schedule, old(operations), old(State()));
        var k := Landing(schedule, n + 1, g);
        && active == start.active
        && (ended.None? <==> !start.pending && k == 4 && NoFault(schedule, n, n + 8))
        && (ended.None? ==> operations == n + 9 && shadow == g && shadowControl == 1 && !commitPending)
        && (ended == Some(Refused) <==> start.pending && schedule.fault(n) == Fine)
        && (ended == Some(Mismatch) <==> !start.pending && k < 4 && NoFault(schedule, n, n + 5 + k))
        && (ended.Some? ==> ended.value in {Refused, Mismatch, BusFailed})
        && (ended == Some(BusFailed) ==> Fails(schedule, n, operations - 1) && operations <= n + 9)
        && (ended == Some(BusFailed) ==> commitPending == (operations == n + 1 && start.pending))
        && (ended == Some(Refused) ==> commitPending) && (ended == Some(Mismatch) ==> !commitPending)
    {
      var known, pending, _ := Status();
      if !known {
        return Some(BusFailed);
      }
      if pending {
        return Some(Refused);
      }
      var written := WriteShadow(g);
      return match written
        case Verified => None
        case Differs => Some(Mismatch)
        case Broken => Some(BusFailed);
    }

    /** write_gains_and_commit. For every schedule, the active triple is during every register
        operation of the call, and after it, the whole old one (or the whole one a commit that
        was already pending latches first) or the whole requested one; a normal return means it
        is the requested one. */
    method WriteGainsAndCommit(g: Gains, deadline: nat, control: Control) returns (outcome: Outcome)
      modifies this
      ensures preRunGains == old(preRunGains)
      ensures seen <= old(seen) + {Before(schedule, old(operations), old(State())).active, g}
      ensures CallOutcome(schedule, old(operations), Before(schedule, old(operations), old(State())), g, deadline, control,
                          outcome, operations)
      ensures var n, start := old(operations), Before(schedule, old(operations), old(State()));
        && active == (if Takes(schedule, n, start, g, deadline, control) then g else start.active)
        && (outcome == Committed ==> active == g && activeControl == 1)
        && (outcome != BusFailed ==> (commitPending <==> outcome in {Refused, TimedOut}))
        && (outcome == BusFailed ==>
              commitPending == LeftPending(schedule, n, start, deadline, control, operations))
    {
      var ended := PrepareCommit(g);
      if ended.Some? {
        return ended.value;
      }
      outcome := CommitShadow(deadline, control);
    }

    /** restore_pre_run_gains. Exceptions are swallowed. A panel without a calibration gets its
        defaults back at once, whatever is pending, aborted or timing out. */
    method RestorePreRunGains(deadline: nat, control: Control)
      modifies this
      ensures preRunGains.None?
      ensures old(preRunGains).None? ==> State() == old(State())
      ensures old(preRunGains).Some? ==>
        seen <= old(seen) + {Before(schedule, old(operations), old(State())).active, old(preRunGains).value}
      ensures old(preRunGains).Some? ==> var saved := old(preRunGains).value;
        (active == saved <==> Restores(schedule, old(operations), unity, old(State()), saved, deadline, control))
      ensures old(preRunGains) == Some(AllGains(unity)) && schedule.fault(old(operations)) != Lost ==>
        State() == Defaulted(unity)
    {
      var saved := preRunGains;
      preRunGains := None;
      if saved.None? {
        return;
      }
      if saved.value == AllGains(unity) {
        var _ := Defaults();
      } else {
        var _ := WriteGainsAndCommit(saved.value, deadline, control);
      }
    }
  }

  // ---------------------------------------------------------------- the exact conditions

  datatype Shadowing = Verified | Differs | Broken

  /** Operation f is the first from n on that raises. */
  ghost predicate Fails(s: Schedule, n: nat, f: int) {
    n <= f && s.fault(f) != Fine && NoFault(s, n, f - 1)
  }

  function AfterReads(s: Schedule, n: nat, b: Bank): Bank {
    Before(s, n + 2, Before(s, n + 1, Before(s, n, b)))
  }

  /** What three reads of the active registers from operation n on give. */
  function TripleRead(s: Schedule, n: nat, b: Bank): Gains {
    var first := Before(s, n, b);
    var second := Before(s, n + 1, first);
    Gains(first.active.r, second.active.g, Before(s, n + 2, second).active.b)
  }

  /** The place of the first register that does not hold what was written, 4 if there is none. */
  function FirstDifference(shadow: Gains, shadowControl: int, g: Gains): nat {
    if shadow.r != g.r then 0 else if shadow.g != g.g then 1 else if shadow.b != g.b then 2
    else if shadowControl != 1 then 3 else 4
  }

  /** The same for the four shadow writes from operation n on. */
  function Landing(s: Schedule, n: nat, g: Gains): nat {
    FirstDifference(
      Gains(s.landed(n, g.r % 0x10000), s.landed(n + 1, g.g % 0x10000), s.landed(n + 2, g.b % 0x10000)),
      s.landed(n + 3, 1) % 4, g)
  }

  /** The last operation a wait from operation first on can get to: the cancellation if the abort
      flag is seen before the deadline, else the last poll. */
  function LastOperation(first: nat, deadline: nat, control: Control): nat {
    first + LastPoll(deadline, control) + if LastPoll(deadline, control) < deadline then 1 else 0
  }

  ghost predicate TimesOut(s: Schedule, first: nat, deadline: nat, control: Control) {
    var last := first + LastPoll(deadline, control);
    last == first + deadline && !BoundaryWithin(s, first, last) && NoFault(s, first, last)
  }

  ghost predicate Aborts(s: Schedule, first: nat, deadline: nat, control: Control) {
    var last := first + LastPoll(deadline, control);
    last < first + deadline && !BoundaryWithin(s, first, last) && NoFault(s, first, last + 1)
  }

  /** A wait that has found no boundary and no fault before this poll ends here as follows. */
  lemma WaitEnds(s: Schedule, first: nat, poll: nat, deadline: nat, control: Control)
    requires poll <= LastPoll(deadline, control) && NoFault(s, first, first + poll - 1)
    requires forall i: nat :: first <= i < first + poll ==> !s.boundary(i)
    ensures var last, now := LastPoll(deadline, control), first + poll;
      var seen, latched := SeenWithin(s, first, first + last), LatchesWithin(s, first, LastOperation(first, deadline, control));
      var timedOut, aborted := TimesOut(s, first, deadline, control), Aborts(s, first, deadline, control);
      if s.fault(now) != Fine then !seen && !timedOut && !aborted && (latched <==> s.boundary(now))
      else if s.boundary(now) then seen && latched && !timedOut && !aborted
      else poll == last ==>
        && !seen && (timedOut <==> last == deadline) && (aborted <==> last < deadline && s.fault(now + 1) == Fine)
        && (latched <==> last < deadline && s.boundary(now + 1))
  {
    if s.fault(first + poll) == Fine {
      assert NoFault(s, first, first + poll);
    }
  }

  /** How waiting for a commit from operation first on ends; next is the number of the operation
      after the last one. */
  ghost predicate WaitOutcome(s: Schedule, first: nat, deadline: nat, control: Control, outcome: Outcome, next: nat) {
    if SeenWithin(s, first, first + LastPoll(deadline, control)) then outcome == Committed
    else if TimesOut(s, first, deadline, control) then outcome == TimedOut
    else if Aborts(s, first, deadline, control) then outcome == Aborted
    else outcome == BusFailed && Fails(s, first, next - 1)
  }

  /** The same with operation c issuing the commit. */
  ghost predicate IssuedOutcome(s: Schedule, c: nat, deadline: nat, control: Control, outcome: Outcome, next: nat) {
    if s.fault(c) == Fine then WaitOutcome(s, c + 1, deadline, control, outcome, next)
    else outcome == BusFailed && next == c + 1
  }

  /** How a whole call from operation n on ends. */
  ghost predicate CallOutcome(s: Schedule, n: nat, start: Bank, g: Gains, deadline: nat, control: Control,
                              outcome: Outcome, next: nat) {
    var k := Landing(s, n + 1, g);
    if !start.pending && k == 4 && NoFault(s, n, n + 8) then IssuedOutcome(s, n + 9, deadline, control, outcome, next)
    else if start.pending && s.fault(n) == Fine then outcome == Refused
    else if !start.pending && k < 4 && NoFault(s, n, n + 5 + k) then outcome == Mismatch
    else outcome == BusFailed && Fails(s, n, next - 1) && next <= n + 9
  }

  /** The failing operation f of a wait neither latched nor cancelled the commit. */
  predicate StillPending(s: Schedule, f: nat, last: nat) {
    !s.boundary(f) && (f == last + 1 ==> s.fault(f) != Applied)
  }

  /** The same for a commit issued by operation c, which itself may be the one that failed; next
      is the number of the operation after the one that failed. */
  predicate IssuedPending(s: Schedule, c: nat, deadline: nat, control: Control, next: nat) {
    if next <= c + 1 then s.fault(c) == Applied else StillPending(s, next - 1, c + 1 + LastPoll(deadline, control))
  }

  /** The same for a whole call from operation n on. */
  predicate LeftPending(s: Schedule, n: nat, start: Bank, deadline: nat, control: Control, next: nat) {
    if next <= n + 9 then next == n + 1 && start.pending else IssuedPending(s, n + 9, deadline, control, next)
  }

  predicate Lands(s: Schedule, n: nat, g: Gains) { Landing(s, n, g) == 4 }

  /** When the shadow becomes active during a wait for the commit issued by operation c. */
  ghost predicate IssuedTakes(s: Schedule, c: nat, deadline: nat, control: Control) {
    s.fault(c) == Fine && LatchesWithin(s, c + 1, LastOperation(c + 1, deadline, control))
  }

  /** When the requested triple becomes active during a call from operation n on. */
  ghost predicate Takes(s: Schedule, n: nat, start: Bank, g: Gains, deadline: nat, control: Control) {
    !start.pending && Lands(s, n + 1, g) && NoFault(s, n, n + 8) && IssuedTakes(s, n + 9, deadline, control)
  }

  /** When restoring really restores. */
  ghost predicate Restores(s: Schedule, n: nat, unity: int, b: Bank, saved: Gains, deadline: nat, control: Control) {
    var start := Before(s, n, b);
    || start.active == saved
    || if saved == AllGains(unity) then s.fault(n) != Lost else Takes(s, n, start, saved, deadline, control)
  }

  /** Three reads of the active gains are one triple unless the pending commit latches between
      two of them and changes registers on both sides. */
  lemma TornReadIff(s: Schedule, n: nat, b: Bank)
    ensures TripleRead(s, n, b) ==
      if !b.pending then b.active
      else if s.boundary(n) then b.shadow
      else if s.boundary(n + 1) then b.shadow.(r := b.active.r)
      else if s.boundary(n + 2) then b.active.(b := b.shadow.b)
      else b.active
    ensures TripleRead(s, n, b) !in {b.active, b.shadow} <==>
      && b.pending && !s.boundary(n)
      && if s.boundary(n + 1) then b.active.r != b.shadow.r && (b.active.g != b.shadow.g || b.active.b != b.shadow.b)
         else s.boundary(n + 2) && b.active.b != b.shadow.b && (b.active.r != b.shadow.r || b.active.g != b.shadow.g)
  {
  }

  /** With video running, faithful writes, a working bus, no commit left pending and no abort
      flag, the gains of before the run are always restored. */
  lemma RestoresWithoutAbort(s: Schedule, n: nat, unity: int, b: Bank, saved: Gains, deadline: nat, frame: nat)
    requires !b.pending && Lands(s, n + 1, saved)
    requires n + 10 <= frame <= n + 10 + deadline && s.boundary(frame) && NoFault(s, n, frame - 1)
    ensures Restores(s, n, unity, b, saved, deadline, NoAbort)
  {
    assert s.fault(n) == Fine;
    assert NoFault(s, n + 10, frame - 1);
  }

  /** With the abort flag still set, the restoring commit cancels itself unless a frame
      boundary falls in one of exactly two places. */
  lemma RestoreUnderAbort(s: Schedule, n: nat, unity: int, b: Bank, saved: Gains, deadline: nat)
    requires !b.pending && Lands(s, n + 1, saved) && deadline > 0 && NoFault(s, n, n + 10)
    requires saved != AllGains(unity) && saved != b.active
    ensures Restores(s, n, unity, b, saved, deadline, AbortFrom(0)) <==> s.boundary(n + 10) || s.boundary(n + 11)
  {
    assert NoFault(s, n + 10, n + 9) && NoFault(s, n + 10, n + 10) && NoFault(s, n, n + 9);
  }

  /** While a commit is left pending, after a timeout or a bus error, restoring is refused. */
  lemma RestoreAfterTimeout(s: Schedule, n: nat, unity: int, b: Bank, saved: Gains, deadline: nat, control: Control)
    requires b.pending && !s.boundary(n) && saved != AllGains(unity)
    ensures Restores(s, n, unity, b, saved, deadline, control) <==> b.active == saved
  {
  }
}
