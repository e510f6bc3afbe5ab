/** Which of two register protocols the display controller speaks, found out over an unreliable
    bus, and what it writes. On an FPGA with the new slave a legacy write can lock every register
    until a power cycle, so the point is when legacy writes can happen at all. */
module FpgaProtocol {
  import opened Basics

  datatype Protocol = Unselected | New | Legacy

  datatype Override = Auto | OnlyNew | OnlyLegacy

  /** Four bytes of a register; a one-byte read looks at the first. */
  datatype Data = Data(b0: byte, b1: byte, b2: byte, b3: byte)

  const VERSION: byte := 0x00
  const PRIVACY_MODE: byte := 0x34

  /** The bus over time: whether it can be opened, what a read of each slave returns (None when
      the slave does not acknowledge), and whether a write goes through. */
  datatype Bus = Bus(canOpen: nat -> bool, newRead: (nat, byte) -> Option<Data>,
                     legacyRead: (nat, byte) -> Option<Data>, accepts: nat -> bool, fileSaves: nat -> bool)

  // ---------------------------------------------------------------- versions

  predicate IsBcd(b: byte) { b / 16 <= 9 && b % 16 <= 9 }

  function FromBcd(b: byte): nat { b / 16 * 10 + b % 16 }

  function ToBcd(n: nat): byte
    requires n < 100
  {
    n / 10 * 16 + n % 10
  }

  /** isPlausibleVersion: the fixed first byte, or a month and a day. */
  predicate IsPlausible(v: Data) {
    v.b0 == 0x48
    || (IsBcd(v.b0) && IsBcd(v.b1) && 1 <= FromBcd(v.b0) <= 12 && 1 <= FromBcd(v.b1) <= 31)
  }

  predicate IsDate(v: Data, month: nat, day: nat) {
    1 <= month <= 12 && 1 <= day <= 31 && v.b0 == ToBcd(month) && v.b1 == ToBcd(day)
  }

  lemma BcdRoundTrip(b: byte)
    requires IsBcd(b)
    ensures FromBcd(b) < 100 && ToBcd(FromBcd(b)) == b
  {
    var tens, ones := b / 16, b % 16;
    assert (tens * 10 + ones) / 10 == tens && (tens * 10 + ones) % 10 == ones;
  }

  lemma DecimalRoundTrip(n: nat)
    requires n < 100
    ensures IsBcd(ToBcd(n)) && FromBcd(ToBcd(n)) == n
  {
    var tens, ones := n / 10, n % 10;
    assert (tens * 16 + ones) / 16 == tens && (tens * 16 + ones) % 16 == ones;
  }

  lemma DateIsPlausible(v: Data, month: nat, day: nat)
    requires IsDate(v, month, day)
    ensures IsPlausible(v)
  {
    DecimalRoundTrip(month);
    DecimalRoundTrip(day);
  }

  lemma PlausibleHasDate(v: Data)
    requires IsPlausible(v) && v.b0 != 0x48
    ensures IsDate(v, FromBcd(v.b0), FromBcd(v.b1))
  {
    BcdRoundTrip(v.b0);
    BcdRoundTrip(v.b1);
  }

  ghost predicate HasDate(v: Data) { exists month: nat, day: nat :: IsDate(v, month, day) }

  /** A version is plausible exactly when it is the fixed byte or spells a month and a day. */
  lemma PlausibleIsADate(v: Data)
    ensures IsPlausible(v) <==> v.b0 == 0x48 || HasDate(v)
  {
    if v.b0 != 0x48 {
      if IsPlausible(v) {
        PlausibleHasDate(v);
      } else {
        forall month: nat, day: nat | IsDate(v, month, day)
          ensures false
        {
          DateIsPlausible(v, month, day);
        }
      }
    }
  }

  // ---------------------------------------------------------------- selection

  predicate NewAnswers(bus: Bus, t: nat) { bus.canOpen(t) && bus.newRead(t, VERSION).Some? }

  predicate NewPlausible(bus: Bus, t: nat) { NewAnswers(bus, t) && IsPlausible(bus.newRead(t, VERSION).value) }

  predicate LegacyPlausible(bus: Bus, t: nat) {
    bus.canOpen(t) && bus.legacyRead(t, VERSION).Some? && IsPlausible(bus.legacyRead(t, VERSION).value)
  }

  const ATTEMPTS: nat := 3

  /** Up to this many probes of the new slave from this time on, and the time after them. */
  function Probes(bus: Bus, t: nat, attempts: nat): (r: (bool, nat))
    ensures r.0 <==> exists k: nat :: t <= k < t + attempts && NewPlausible(bus, k)
    ensures t <= r.1 <= t + attempts
    ensures !r.0 ==> r.1 == t + attempts
    decreases attempts
  {
    if attempts == 0 then (false, t)
    else if NewPlausible(bus, t) then (true, t + 1)
    else Probes(bus, t + 1, attempts - 1)
  }

  /** The outcome of a selection: the protocol, the time of the answer check, the time after. */
  datatype Outcome = Outcome(protocol: Protocol, checked: nat, after: nat)

  function Selection(bus: Bus, forced: Override, t: nat): Outcome {
    if forced == OnlyLegacy then
      Outcome(if LegacyPlausible(bus, t) then Legacy else Unselected, t, t + 1)
    else
      var (found, u) := Probes(bus, t, ATTEMPTS);
      if found then Outcome(New, u, u)
      else if forced == OnlyNew then Outcome(Unselected, u, u)
      else if NewAnswers(bus, u) then Outcome(Unselected, u, u + 1)
      else Outcome(if LegacyPlausible(bus, u + 1) then Legacy else Unselected, u, u + 2)
  }

  predicate NoProbeWorks(bus: Bus, t: nat) { forall k: nat :: t <= k < t + ATTEMPTS ==> !NewPlausible(bus, k) }

  /** Legacy is selected exactly when it is forced, or when the new slave gave no plausible version
      three times running and then no answer at all; and the legacy version must be plausible. */
  lemma LegacyIsSelectedIff(bus: Bus, forced: Override, t: nat)
    ensures Selection(bus, forced, t).protocol == Legacy <==>
            || (forced == OnlyLegacy && LegacyPlausible(bus, t))
            || (forced == Auto && NoProbeWorks(bus, t) && !NewAnswers(bus, t + 3) && LegacyPlausible(bus, t + 4))
  {
  }

  /** The new protocol is selected exactly when it may be and one of three probes is plausible. */
  lemma NewIsSelectedIff(bus: Bus, forced: Override, t: nat)
    ensures Selection(bus, forced, t).protocol == New <==> forced != OnlyLegacy && !NoProbeWorks(bus, t)
  {
  }

  /** What permits legacy writes: the operator, or one check the new slave left unanswered. */
  predicate Excused(bus: Bus, forced: Override, checked: nat) {
    forced == OnlyLegacy || (forced == Auto && !NewAnswers(bus, checked))
  }

  lemma LegacyIsExcused(bus: Bus, forced: Override, t: nat)
    ensures var s := Selection(bus, forced, t);
            (s.protocol == Legacy ==> Excused(bus, forced, s.checked)) && (s.protocol == New ==> forced != OnlyLegacy)
  {
  }

  ghost predicate AlwaysAnswers(bus: Bus) { forall t: nat :: NewAnswers(bus, t) }

  // ---------------------------------------------------------------- the controller

  /** A register write that was put on the bus, with what had permitted its protocol. */
  datatype Write = Write(legacy: bool, register: byte, data: seq<byte>, forced: Override, checked: nat)

  ghost predicate AllExcused(bus: Bus, writes: seq<Write>) {
    forall i :: 0 <= i < |writes| && writes[i].legacy ==> Excused(bus, writes[i].forced, writes[i].checked)
  }

  predicate NoLegacyWrite(writes: seq<Write>) { forall i :: 0 <= i < |writes| ==> !writes[i].legacy }

  predicate AllUnder(forced: Override, writes: seq<Write>) {
    forall i :: 0 <= i < |writes| ==> writes[i].forced == forced
  }

  predicate NeverForced(writes: seq<Write>) { forall i :: 0 <= i < |writes| ==> writes[i].forced != OnlyLegacy }

  /** Never a legacy write to an FPGA whose new slave always answers. */
  lemma AnsweringSlaveIsSafe(bus: Bus, writes: seq<Write>)
    requires AllExcused(bus, writes) && AlwaysAnswers(bus) && NeverForced(writes)
    ensures NoLegacyWrite(writes)
  {
  }

  lemma NoneForced(first: seq<Write>, before: seq<Write>, after: seq<Write>, forced: Override)
    requires first <= before <= after && NeverForced(before[|first|..])
    requires AllUnder(forced, after[|before|..]) && forced != OnlyLegacy
    ensures NeverForced(after[|first|..])
  {
  }

  lemma RestIsExcused(bus: Bus, writes: seq<Write>, n: nat)
    requires AllExcused(bus, writes) && n <= |writes|
    ensures AllExcused(bus, writes[n..])
  {
  }

  datatype Toggle = LocalDimming | PixelCompensation

  datatype Flag = Flag(supported: bool, enabled: bool)

  datatype Flags = Flags(ld: Flag, pc: Flag)

  /** The file of the user's choices. */
  datatype Saved = Saved(ld: bool, pc: bool)

  function FlagOf(f: Flags, t: Toggle): Flag {
    match t
    case LocalDimming => f.ld
    case PixelCompensation => f.pc
  }

  function WithFlag(f: Flags, t: Toggle, flag: Flag): Flags {
    match t
    case LocalDimming => f.(ld := flag)
    case PixelCompensation => f.(pc := flag)
  }

  function Other(t: Toggle): Toggle {
    match t
    case LocalDimming => PixelCompensation
    case PixelCompensation => LocalDimming
  }

  function Choice(s: Saved, t: Toggle): bool {
    match t
    case LocalDimming => s.ld
    case PixelCompensation => s.pc
  }

  /** No file, or one that cannot be read, stands for both enabled. */
  function Loaded(file: Option<Saved>): Saved { if file.Some? then file.value else Saved(true, true) }

  function RegisterOf(legacy: bool, t: Toggle): byte {
    match t
    case LocalDimming => if legacy then 0x29 else 0x2C
    case PixelCompensation => if legacy then 0x47 else 0x2D
  }

  /** Both protocols have 0 for enabled, but legacy pixel compensation is a 16-bit field. */
  function DataOf(legacy: bool, t: Toggle, enabled: bool): seq<byte> {
    if legacy && t == PixelCompensation then [0x00, if enabled then 0x70 else 0x00]
    else [if enabled then 0x00 else 0x01]
  }

  /** A toggle register echoes 0 or 1 when the bitstream has it. */
  function Echo(r: Option<Data>): Option<bool> {
    if r.Some? && r.value.b0 <= 1 then Some(r.value.b0 == 0) else None
  }

  function ReadFlag(r: Option<Data>, before: Flag): Flag {
    match Echo(r)
    case Some(on) => Flag(true, on)
    case None => Flag(false, before.enabled)
  }

  /** After an accepted write: the echo counts if there is one. */
  function WrittenFlag(r: Option<Data>, before: Flag, enabled: bool): Flag {
    match Echo(r)
    case Some(on) => Flag(true, on)
    case None => Flag(before.supported, enabled)
  }

  /** A slave that shows in its first byte what was written to it confirms the choice that was set. */
  lemma EchoConfirmsChoice(t: Toggle, enabled: bool, seen: Data, before: Flag)
    requires DataOf(false, t, enabled) == [seen.b0]
    ensures Echo(Some(seen)) == Some(enabled)
    ensures WrittenFlag(Some(seen), before, enabled) == ReadFlag(Some(seen), before) == Flag(true, enabled)
  {
  }

  /** The legacy protocol cannot be asked: its bytes are those of its register map. Local dimming
      takes the same byte as over the new protocol. */
  lemma LegacyBytes(enabled: bool)
    ensures DataOf(true, LocalDimming, enabled) == DataOf(false, LocalDimming, enabled) == DataOf(false, PixelCompensation, enabled)
    ensures DataOf(true, PixelCompensation, true) == [0x00, 0x70] && DataOf(true, PixelCompensation, false) == [0x00, 0x00]
  {
  }

  /** From now on a toggle's register reads back as this choice, as the data written for it. */
  ghost predicate ReadsBack(bus: Bus, t: Toggle, enabled: bool) {
    forall u: nat :: ReadsBackAt(bus, u, t, enabled)
  }

  predicate ReadsBackAt(bus: Bus, u: nat, t: Toggle, enabled: bool) {
    var r := bus.newRead(u, RegisterOf(false, t));
    r.Some? && DataOf(false, t, enabled) == [r.value.b0]
  }

  /** A toggle counts as there exactly if its register echoes 0 or 1; otherwise what was shown for
      it stays. */
  lemma SupportedIffEchoes(r: Option<Data>, before: Flag)
    ensures ReadFlag(r, before).supported <==> r.Some? && r.value.b0 <= 1
    ensures ReadFlag(r, before).enabled == if r.Some? && r.value.b0 <= 1 then r.value.b0 == 0 else before.enabled
  {
  }

  /** No register serves two purposes. */
  lemma RegistersAreApart(legacy: bool)
    ensures RegisterOf(legacy, LocalDimming) != RegisterOf(legacy, PixelCompensation)
    ensures forall t :: RegisterOf(legacy, t) !in {VERSION, PRIVACY_MODE}
  {
  }

  function FlagsFrom(s: Saved): Flags { Flags(Flag(true, s.ld), Flag(true, s.pc)) }

  datatype SetResult = NotSet | IsSet(saved: bool)

  datatype Operation = Refresh | SetPrivacy(on: bool) | Set(toggle: Toggle, on: bool) | UseOverride(value: Override)
                     | Rebind

  /** The two writes that bring the saved choices back. */
  function Restored(file: Option<Saved>, canOpen: bool, legacy: bool, forced: Override, checked: nat): seq<Write> {
    if file.None? || !canOpen then []
    else
      var ld, pc := DataOf(legacy, LocalDimming, file.value.ld), DataOf(legacy, PixelCompensation, file.value.pc);
      [Write(legacy, RegisterOf(legacy, LocalDimming), ld, forced, checked),
       Write(legacy, RegisterOf(legacy, PixelCompensation), pc, forced, checked)]
  }

  /** One write for each toggle, with its own choice in its own register. */
  lemma RestoredPerToggle(file: Option<Saved>, canOpen: bool, legacy: bool, forced: Override, checked: nat)
    ensures var writes := Restored(file, canOpen, legacy, forced, checked);
      if file.None? || !canOpen then writes == []
      else
        && |writes| == 2 && IsRestoring(writes[0], legacy, LocalDimming, file.value.ld)
        && IsRestoring(writes[1], legacy, PixelCompensation, file.value.pc)
  {
  }

  predicate IsRestoring(w: Write, legacy: bool, t: Toggle, on: bool) {
    w.legacy == legacy && w.register == RegisterOf(legacy, t) && w.data == DataOf(legacy, t, on)
  }

  class FpgaController {
    const bus: Bus
    var forced: Override
    var protocol: Protocol
    var flags: Flags
    var file: Option<Saved>
    var now: nat
    ghost var checked: nat
    ghost var writes: seq<Write>

    ghost predicate Valid()
      reads this
    {
      && (protocol == Unselected ==> !flags.ld.supported && !flags.pc.supported)
      && (protocol == New ==> forced != OnlyLegacy)
      && (protocol == Legacy ==> Excused(bus, forced, checked))
      && AllExcused(bus, writes)
    }

    /** Writes were only added, all of them under the present override. */
    twostate predicate Extends()
      reads this
    {
      old(writes) <= writes && AllUnder(forced, writes[|old(writes)|..])
    }

    constructor (bus: Bus, file: Option<Saved>)
      ensures Valid() && this.bus == bus && this.file == file && forced == Auto && protocol == Unselected
      ensures writes == [] && flags == Flags(Flag(false, false), Flag(false, false))
    {
      this.bus, this.file, forced, protocol, now := bus, file, Auto, Unselected, 0;
      flags := Flags(Flag(false, false), Flag(false, false));
      checked, writes := 0, [];
    }

    method ClearProtocol()
      requires Valid()
      modifies this`protocol, this`flags
      ensures Valid() && protocol == Unselected
      ensures flags == Flags(old(flags).ld.(supported := false), old(flags).pc.(supported := false))
    {
      protocol := Unselected;
      flags := Flags(flags.ld.(supported := false), flags.pc.(supported := false));
    }

    method SetProtocolOverride(value: Override)
      requires Valid()
      modifies this`forced, this`protocol, this`flags
      ensures Valid() && forced == value && protocol == Unselected
    {
      ClearProtocol();
      forced := value;
    }

    /** One register write in the selected protocol. */
    method WriteRegister(register: byte, data: seq<byte>) returns (ok: bool)
      requires Valid() && protocol != Unselected
      modifies this`now, this`writes
      ensures Valid() && now == old(now) + 1 && ok == bus.accepts(old(now))
      ensures writes == old(writes) + [Write(protocol == Legacy, register, data, forced, checked)]
    {
      ok := bus.accepts(now);
      now := now + 1;
      writes := writes + [Write(protocol == Legacy, register, data, forced, checked)];
    }

    /** The saved choices go into an FPGA that has just been found; both writes are tried. */
    method ApplySavedState()
      requires Valid() && protocol != Unselected
      modifies this`now, this`writes
      ensures Valid() && now >= old(now)
      ensures writes == old(writes) + Restored(file, bus.canOpen(old(now)), protocol == Legacy, forced, checked)
    {
      if file.None? {
        return;
      }
      var canOpen := bus.canOpen(now);
      now := now + 1;
      if !canOpen {
        return;
      }
      var legacy := protocol == Legacy;
      var first := WriteRegister(RegisterOf(legacy, LocalDimming), DataOf(legacy, LocalDimming, file.value.ld));
      var second := WriteRegister(RegisterOf(legacy, PixelCompensation),
                                  DataOf(legacy, PixelCompensation, file.value.pc));
    }

    /** Looks for the new slave, at most three times. */
    method ProbeNew() returns (newFound: bool)
      requires forced != OnlyLegacy
      modifies this`now
      ensures (newFound, now) == Probes(bus, old(now), ATTEMPTS)
    {
      newFound := false;
      var attempt := 0;
      while attempt < ATTEMPTS && !newFound
        invariant attempt <= ATTEMPTS
        invariant newFound ==> Probes(bus, old(now), ATTEMPTS) == (true, now)
        invariant !newFound ==> Probes(bus, now, ATTEMPTS - attempt) == Probes(bus, old(now), ATTEMPTS)
        decreases ATTEMPTS - attempt, !newFound
      {
        newFound := NewPlausible(bus, now);
        now := now + 1;
        attempt := attempt + 1;
      }
    }

    /** The decision of ensureProtocol. */
    method Select() returns (selected: Protocol, ghost check: nat)
      modifies this`now
      ensures Outcome(selected, check, now) == Selection(bus, forced, old(now))
    {
      if forced != OnlyLegacy {
        var newFound := ProbeNew();
        check := now;
        if newFound {
          return New, check;
        }
        if forced == OnlyNew {
          return Unselected, check;
        }
        var answers := NewAnswers(bus, now);
        now := now + 1;
        if answers {
          return Unselected, check;
        }
      } else {
        check := now;
      }
      var plausible := LegacyPlausible(bus, now);
      now := now + 1;
      selected := if plausible then Legacy else Unselected;
    }

    method EnsureProtocol() returns (ok: bool)
      requires Valid()
      modifies this`protocol, this`now, this`checked, this`writes
      ensures Valid() && Extends() && (ok <==> protocol != Unselected)
      ensures protocol == (if old(protocol) != Unselected then old(protocol)
                           else Selection(bus, forced, old(now)).protocol)
      ensures protocol == old(protocol) ==> writes == old(writes) && now >= old(now)
      ensures protocol != old(protocol) ==>
                writes == old(writes) + Restored(file, bus.canOpen(Selection(bus, forced, old(now)).after),
                                                 protocol == Legacy, forced, checked)
      ensures old(protocol) != Unselected ==> now == old(now) && checked == old(checked)
    {
      if protocol != Unselected {
        return true;
      }
      ghost var start := now;
      var selected, check := Select();
      LegacyIsExcused(bus, forced, start);
      if selected == Unselected {
        return false;
      }
      protocol, checked := selected, check;
      ApplySavedState();
      return true;
    }

    method InitializeLegacyState()
      requires Valid() && protocol == Legacy
      modifies this`flags
      ensures Valid() && flags == FlagsFrom(Loaded(file))
    {
      flags := FlagsFrom(Loaded(file));
    }

    method ReadToggleSettings()
      requires Valid() && protocol != Unselected
      modifies this`flags, this`now
      ensures Valid() && now >= old(now)
      ensures protocol == Legacy ==> flags == FlagsFrom(Loaded(file))
      ensures protocol == New ==>
                flags == Flags(ReadFlag(bus.newRead(old(now), RegisterOf(false, LocalDimming)), old(flags).ld),
                               ReadFlag(bus.newRead(old(now) + 1, RegisterOf(false, PixelCompensation)), old(flags).pc))
    {
      if protocol == Legacy {
        InitializeLegacyState();
        return;
      }
      flags := flags.(ld := ReadFlag(bus.newRead(now, RegisterOf(false, LocalDimming)), flags.ld));
      flags := flags.(pc := ReadFlag(bus.newRead(now + 1, RegisterOf(false, PixelCompensation)), flags.pc));
      now := now + 2;
    }

    /** The periodic refresh writes nothing unless it has just found an FPGA, and drops a protocol
        whose version is no longer plausible. */
    method RefreshNow()
      requires Valid()
      modifies this`protocol, this`flags, this`now, this`checked, this`writes
      ensures Valid() && Extends()
      ensures old(protocol) != Unselected ==> writes == old(writes)
      ensures old(protocol) == New ==>
                (protocol == New <==> bus.canOpen(old(now)) && NewPlausible(bus, old(now) + 1))
      ensures old(protocol) == Legacy ==>
                (protocol == Legacy <==> bus.canOpen(old(now)) && LegacyPlausible(bus, old(now) + 1))
      ensures old(protocol) != Unselected ==> protocol == old(protocol) || protocol == Unselected
      ensures protocol == Legacy ==> flags == FlagsFrom(Loaded(file))
      ensures protocol == Legacy && file.None? ==> flags == Flags(Flag(true, true), Flag(true, true))
    {
      var ok := EnsureProtocol();
      if !ok {
        return;
      }
      var canOpen := bus.canOpen(now);
      now := now + 1;
      if !canOpen {
        ClearProtocol();
        return;
      }
      var alive := if protocol == New then NewPlausible(bus, now) else LegacyPlausible(bus, now);
      now := now + 1;
      if !alive {
        ClearProtocol();
        return;
      }
      ReadToggleSettings();
    }

    method SetPrivacyMode(enabled: bool) returns (ok: bool)
      requires Valid()
      modifies this`protocol, this`now, this`checked, this`writes
      ensures Valid() && Extends()
      ensures ok ==> protocol != Unselected && writes != []
                     && writes[|writes| - 1] == Write(protocol == Legacy, PRIVACY_MODE,
                                                      [if enabled then 0x01 else 0x00], forced, checked)
    {
      ok := EnsureProtocol();
      if !ok {
        return;
      }
      var canOpen := bus.canOpen(now);
      now := now + 1;
      if !canOpen {
        return false;
      }
      ok := WriteRegister(PRIVACY_MODE, [if enabled then 0x01 else 0x00]);
    }

    /** What is remembered and saved once the write of a toggle was accepted. */
    method Remember(t: Toggle, enabled: bool) returns (saved: bool)
      requires Valid() && protocol != Unselected
      modifies this`flags, this`file, this`now
      ensures Valid() && FlagOf(flags, Other(t)) == FlagOf(old(flags), Other(t))
      ensures protocol == New ==>
                FlagOf(flags, t) == WrittenFlag(bus.newRead(old(now), RegisterOf(false, t)), FlagOf(old(flags), t), enabled)
      ensures protocol == New && ReadsBack(bus, t, enabled) ==> FlagOf(flags, t) == Flag(true, enabled)
      ensures protocol == Legacy ==> FlagOf(flags, t) == FlagOf(old(flags), t).(enabled := enabled)
      ensures file == if saved then Some(Saved(flags.ld.enabled, flags.pc.enabled)) else old(file)
    {
      if protocol == New {
        assert ReadsBack(bus, t, enabled) ==> ReadsBackAt(bus, now, t, enabled);
        flags := WithFlag(flags, t, WrittenFlag(bus.newRead(now, RegisterOf(false, t)), FlagOf(flags, t), enabled));
        now := now + 1;
      } else {
        flags := WithFlag(flags, t, FlagOf(flags, t).(enabled := enabled));
      }
      saved := bus.fileSaves(now);
      if saved {
        file := Some(Saved(flags.ld.enabled, flags.pc.enabled));
      }
    }

    /** The part of the setters after the protocol is known. */
    method SetSelected(t: Toggle, enabled: bool) returns (r: SetResult)
      requires Valid() && protocol != Unselected
      modifies this`flags, this`file, this`now, this`writes
      ensures Valid() && Extends()
      ensures r.NotSet? || !r.saved ==> file == old(file)
      ensures r.IsSet? && r.saved ==> file == Some(Saved(flags.ld.enabled, flags.pc.enabled))
      ensures r.IsSet? ==> writes != []
                           && writes[|writes| - 1] == Write(protocol == Legacy, RegisterOf(protocol == Legacy, t),
                                                            DataOf(protocol == Legacy, t, enabled), forced, checked)
      ensures r.IsSet? && (protocol == Legacy || ReadsBack(bus, t, enabled)) ==> FlagOf(flags, t) == Flag(true, enabled)
      ensures r.IsSet? && protocol == Legacy ==> FlagOf(flags, Other(t)) == Flag(true, Choice(Loaded(old(file)), Other(t)))
      ensures r.IsSet? && protocol == New ==> FlagOf(flags, Other(t)) == FlagOf(old(flags), Other(t))
    {
      var legacy := protocol == Legacy;
      if legacy {
        InitializeLegacyState();
      }
      var canOpen := bus.canOpen(now);
      now := now + 1;
      if !canOpen {
        return NotSet;
      }
      var accepted := WriteRegister(RegisterOf(legacy, t), DataOf(legacy, t, enabled));
      if !accepted {
        return NotSet;
      }
      var saved := Remember(t, enabled);
      return IsSet(saved);
    }

    /** setLocalDimming and setPixelCompensation. Over the legacy protocol the other choice in the
        file is kept; over the new one it is kept exactly when the flag shown for it was the saved one. */
    method SetToggle(t: Toggle, enabled: bool) returns (r: SetResult)
      requires Valid()
      modifies this`protocol, this`flags, this`file, this`now, this`checked, this`writes
      ensures Valid() && Extends()
      ensures r.NotSet? || !r.saved ==> file == old(file)
      ensures r.IsSet? && r.saved ==> file == Some(Saved(flags.ld.enabled, flags.pc.enabled))
      ensures r.IsSet? ==> protocol != Unselected && writes != []
                           && writes[|writes| - 1] == Write(protocol == Legacy, RegisterOf(protocol == Legacy, t),
                                                            DataOf(protocol == Legacy, t, enabled), forced, checked)
      ensures r.IsSet? && (protocol == Legacy || ReadsBack(bus, t, enabled)) ==> FlagOf(flags, t) == Flag(true, enabled)
      ensures r.IsSet? && r.saved ==>
                (Choice(file.value, Other(t)) == Choice(Loaded(old(file)), Other(t))
                 <==> protocol == Legacy || FlagOf(old(flags), Other(t)).enabled == Choice(Loaded(old(file)), Other(t)))
    {
      var ok := EnsureProtocol();
      if !ok {
        return NotSet;
      }
      r := SetSelected(t, enabled);
    }

    method Perform(op: Operation)
      requires Valid()
      modifies this
      ensures Valid() && Extends()
      ensures forced == if op.UseOverride? then op.value else old(forced)
    {
      match op
      case Refresh => RefreshNow();
      case SetPrivacy(on) => var ok := SetPrivacyMode(on);
      case Set(t, on) => var r := SetToggle(t, on);
      case UseOverride(value) => SetProtocolOverride(value);
      case Rebind => ClearProtocol();
    }

    /** Any run of refreshes, settings and resets: every legacy write in it was permitted, and if
        the new slave always answers and legacy is never forced there is none. */
    method Run(ops: seq<Operation>)
      requires Valid() && forced != OnlyLegacy && UseOverride(OnlyLegacy) !in ops
      modifies this
      ensures Valid() && old(writes) <= writes && NeverForced(writes[|old(writes)|..])
      ensures AlwaysAnswers(bus) ==> NoLegacyWrite(writes[|old(writes)|..])
    {
      for i := 0 to |ops|
        invariant Valid() && forced != OnlyLegacy
        invariant old(writes) <= writes && NeverForced(writes[|old(writes)|..])
      {
        ghost var before := writes;
        Perform(ops[i]);
        NoneForced(old(writes), before, writes, forced);
      }
      RestIsExcused(bus, writes, |old(writes)|);
      if AlwaysAnswers(bus) {
        AnsweringSlaveIsSafe(bus, writes[|old(writes)|..]);
      }
    }
  }
}
