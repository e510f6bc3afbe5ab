/** The saved dual-display state and its two copies: a persistent file and a session fallback,
    of which the newer one counts. Any write and any removal may fail; file times strictly
    increase. */
module StateFile {
  import opened Basics

  type Percent = x: int | 0 <= x <= 100

  datatype Entry = Entry(enabled: bool, nits: real, mode: string, brightness: Percent)

  datatype Copy = Copy(entry: Entry, time: nat)

  datatype Files = Files(persistent: Option<Copy>, session: Option<Copy>, clock: nat)

  const NO_FILES: Files := Files(None, None, 0)

  /** A save with what the file system does: the directory is there, the persistent write
      commits, a present session copy can be removed, the session write commits. */
  datatype Op =
    | Save(entry: Entry, dirOk: bool, writeOk: bool, removeOk: bool, sessionOk: bool)
    | Clear(marker: Entry, removeOk: bool, markerOk: bool, sessionRemoveOk: bool)

  /** What every caller passes: saves are made in dual mode, markers say it is off. */
  predicate WellMade(op: Op) {
    match op
    case Save(e, _, _, _, _) => e.enabled
    case Clear(m, _, _, _) => !m.enabled
  }

  function Load(f: Files): Option<Entry> {
    if f.persistent.None? && f.session.None? then None
    else if f.session.Some? && (f.persistent.None? || f.session.value.time > f.persistent.value.time)
    then Some(f.session.value.entry)
    else Some(f.persistent.value.entry)
  }

  predicate LoadsEnabled(f: Files) { Load(f).Some? && Load(f).value.enabled }

  function Apply(f: Files, op: Op): (Files, bool) {
    match op
    case Save(e, dirOk, writeOk, removeOk, sessionOk) =>
      if dirOk && writeOk then
        (Files(Some(Copy(e, f.clock)), if removeOk then None else f.session, f.clock + 1), true)
      else if sessionOk then (Files(f.persistent, Some(Copy(e, f.clock)), f.clock + 1), true)
      else (f, false)
    case Clear(m, removeOk, markerOk, sessionRemoveOk) =>
      if f.persistent.Some? && !removeOk then
        (if markerOk then f.(session := Some(Copy(m, f.clock)), clock := f.clock + 1) else f, markerOk)
      else
        (Files(None, if sessionRemoveOk then None else f.session, f.clock), f.session.None? || sessionRemoveOk)
  }

  /** Times lie in the past and no two copies share one. */
  ghost predicate Timed(f: Files) {
    && (f.persistent.Some? ==> f.persistent.value.time < f.clock)
    && (f.session.Some? ==> f.session.value.time < f.clock)
    && (f.persistent.Some? && f.session.Some? ==> f.persistent.value.time != f.session.value.time)
  }

  lemma ApplyKeepsTimed(f: Files, op: Op)
    requires Timed(f)
    ensures Timed(Apply(f, op).0)
  {
  }

  // ---------------------------------------------------------------- one operation

  /** A save that reports success is what the next load returns, from any files; one that
      reports failure changes nothing a load can see. */
  lemma SaveDecidesLoad(f: Files, op: Op)
    requires Timed(f) && op.Save?
    ensures var (g, ok) := Apply(f, op); Load(g) == if ok then Some(op.entry) else Load(f)
  {
  }

  /** Exactly when a clear leaves dual mode off: the branch that removes needs the session copy
      gone (or itself a disabled marker), the branch that cannot remove needs its marker. */
  lemma ClearDisablesIff(f: Files, op: Op)
    requires Timed(f) && op.Clear? && WellMade(op)
    ensures !LoadsEnabled(Apply(f, op).0)
       <==> if f.persistent.Some? && !op.removeOk then op.markerOk || !LoadsEnabled(f)
            else op.sessionRemoveOk || f.session.None? || !f.session.value.entry.enabled
  {
  }

  /** When a clear that did not get through brings the older copy back: it removed the newer,
      persistent one, and the session copy it could not remove says something else. */
  predicate Resurrects(f: Files, op: Op) {
    && op.Clear? && op.removeOk && !op.sessionRemoveOk
    && f.persistent.Some? && f.session.Some?
    && f.session.value.time < f.persistent.value.time && f.session.value.entry != f.persistent.value.entry
  }

  /** A clear that reports failure leaves what a load returns alone, except in exactly one case. */
  lemma FailedClearChangesLoadIff(f: Files, op: Op)
    requires Timed(f) && op.Clear? && !Apply(f, op).1
    ensures Load(Apply(f, op).0) != Load(f) <==> Resurrects(f, op)
    ensures Resurrects(f, op) ==> Load(Apply(f, op).0) == Some(f.session.value.entry)
  {
  }

  /** A clear right after a save to the persistent file: it gets through, and nothing is loaded,
      unless the save could not remove an older session copy and the clear cannot either. */
  lemma SaveThenClear(f: Files, save: Op, clear: Op)
    requires Timed(f) && save.Save? && save.dirOk && save.writeOk && clear.Clear? && clear.removeOk
    ensures var (g, ok) := Apply(Apply(f, save).0, clear);
      var left := f.session.Some? && !save.removeOk && !clear.sessionRemoveOk;
      ok == !left && Load(g) == if left then Some(f.session.value.entry) else None
  {
  }

  // ---------------------------------------------------------------- whole runs

  function Run(f: Files, ops: seq<Op>): Files
    decreases |ops|
  {
    if ops == [] then f else Apply(Run(f, ops[..|ops| - 1]), ops[|ops| - 1]).0
  }

  /** What the program was told after each operation, latest last: the entry of the last
      successful save, or None after a successful clear. */
  function Told(f: Files, ops: seq<Op>): Option<Entry>
    decreases |ops|
  {
    if ops == [] then Load(f)
    else
      var last, before := ops[|ops| - 1], ops[..|ops| - 1];
      if !Apply(Run(f, before), last).1 then Told(f, before)
      else if last.Save? then Some(last.entry)
      else None
  }

  /** Since the last operation that reported success, a failed clear brought an older copy back. */
  ghost predicate Resurrected(f: Files, ops: seq<Op>)
    decreases |ops|
  {
    ops != []
    && var before, last := ops[..|ops| - 1], ops[|ops| - 1];
    !Apply(Run(f, before), last).1 && (Resurrected(f, before) || Resurrects(Run(f, before), last))
  }

  /** No copy is left, or the newer one is a marker that dual mode is off. */
  predicate Cleared(f: Files) {
    || (f.persistent.None? && f.session.None?)
    || (f.session.Some? && !f.session.value.entry.enabled
        && (f.persistent.None? || f.session.value.time > f.persistent.value.time))
  }

  lemma {:induction false} RunKeepsTimed(f: Files, ops: seq<Op>)
    requires Timed(f)
    ensures Timed(Run(f, ops))
    decreases |ops|
  {
    if ops != [] {
      RunKeepsTimed(f, ops[..|ops| - 1]);
      ApplyKeepsTimed(Run(f, ops[..|ops| - 1]), ops[|ops| - 1]);
    }
  }

  /** What one operation does to the answer: nothing if it fails, unless it resurrects. */
  lemma StepTold(f: Files, op: Op)
    requires Timed(f) && WellMade(op)
    ensures op.Save? && Apply(f, op).1 ==> Load(Apply(f, op).0) == Some(op.entry)
    ensures op.Clear? && Apply(f, op).1 ==> Cleared(Apply(f, op).0)
    ensures !Apply(f, op).1 ==> (Load(Apply(f, op).0) != Load(f) <==> Resurrects(f, op))
    ensures !Apply(f, op).1 && Cleared(f) ==> Cleared(Apply(f, op).0)
  {
  }

  /** Once the older copy has come back there is no persistent one, and failures change nothing. */
  lemma StaysResurrected(f: Files, op: Op)
    requires Timed(f) && f.persistent.None? && !Apply(f, op).1
    ensures Apply(f, op).0.persistent.None? && Load(Apply(f, op).0) == Load(f)
  {
  }

  /** Over any run of saves and clears, with any failures: after a clear that got through, nothing
      enabled is loaded; after a save that got through, a load returns it if and only if no failed
      clear since then has brought an older copy back. */
  lemma {:induction false} LoadIsLastSaveIff(f: Files, ops: seq<Op>)
    requires Timed(f) && forall op :: op in ops ==> WellMade(op)
    ensures Told(f, ops).Some? ==> (Load(Run(f, ops)) == Told(f, ops) <==> !Resurrected(f, ops))
    ensures Told(f, ops).None? ==> Cleared(Run(f, ops)) && !LoadsEnabled(Run(f, ops))
    ensures Resurrected(f, ops) ==> Run(f, ops).persistent.None?
    decreases |ops|
  {
    if ops != [] {
      var before, last := ops[..|ops| - 1], ops[|ops| - 1];
      assert forall op :: op in before ==> op in ops;
      LoadIsLastSaveIff(f, before);
      RunKeepsTimed(f, before);
      assert last in ops;
      StepTold(Run(f, before), last);
      if Resurrected(f, before) && !Apply(Run(f, before), last).1 {
        StaysResurrected(Run(f, before), last);
      }
    }
  }

  /** In particular a load is right after any run without a failed clear since the last success. */
  ghost predicate NoFailedClearSince(f: Files, ops: seq<Op>)
    decreases |ops|
  {
    ops == []
    || (var before, last := ops[..|ops| - 1], ops[|ops| - 1];
        Apply(Run(f, before), last).1 || (last.Save? && NoFailedClearSince(f, before)))
  }

  lemma {:induction false} LoadIsLastSave(f: Files, ops: seq<Op>)
    requires Timed(f) && NoFailedClearSince(f, ops) && forall op :: op in ops ==> WellMade(op)
    ensures Told(f, ops).Some? ==> Load(Run(f, ops)) == Told(f, ops)
    ensures Told(f, ops).None? ==> !LoadsEnabled(Run(f, ops))
  {
    LoadIsLastSaveIff(f, ops);
    NothingResurrected(f, ops);
  }

  lemma {:induction false} NothingResurrected(f: Files, ops: seq<Op>)
    requires NoFailedClearSince(f, ops)
    ensures !Resurrected(f, ops)
    decreases |ops|
  {
    if ops != [] && !Apply(Run(f, ops[..|ops| - 1]), ops[|ops| - 1]).1 {
      NothingResurrected(f, ops[..|ops| - 1]);
    }
  }

  /** Runs of saves alone, failed ones included, need no condition. */
  lemma {:induction false} SavesAloneAreKept(f: Files, ops: seq<Op>)
    requires Timed(f) && forall op :: op in ops ==> op.Save?
    ensures Load(Run(f, ops)) == Told(f, ops)
    decreases |ops|
  {
    if ops != [] {
      var before, last := ops[..|ops| - 1], ops[|ops| - 1];
      assert forall op :: op in before ==> op in ops;
      assert last in ops;
      SavesAloneAreKept(f, before);
      RunKeepsTimed(f, before);
      SaveDecidesLoad(Run(f, before), last);
    }
  }

  /** Why clears must get through: a clear that removes only the newer persistent copy brings
      an older save back to life, although a later one had been reported as saved. */
  lemma FailedClearResurrects(first: Entry, second: Entry, marker: Entry)
    requires first.enabled && second.enabled && first != second
    ensures var ops := [Save(first, false, false, true, true), Save(second, true, true, false, true),
                        Clear(marker, true, true, false)];
      && Told(NO_FILES, ops) == Some(second)
      && Load(Run(NO_FILES, ops)) == Some(first)
  {
    var a, b, c := Save(first, false, false, true, true), Save(second, true, true, false, true),
                   Clear(marker, true, true, false);
    assert [a, b, c][..2] == [a, b] && [a, b][..1] == [a] && [a][..0] == [];
    assert Run(NO_FILES, []) == NO_FILES;
    assert Run(NO_FILES, [a]) == Files(None, Some(Copy(first, 0)), 1);
    assert Run(NO_FILES, [a, b]) == Files(Some(Copy(second, 1)), Some(Copy(first, 0)), 2);
    assert Run(NO_FILES, [a, b, c]) == Files(None, Some(Copy(first, 0)), 2);
    assert Told(NO_FILES, [a, b]) == Some(second);
  }

  ghost predicate IsLatest(c: Copy, copies: set<Copy>) {
    c in copies && forall d :: d in copies && d != c ==> d.time < c.time
  }

  /** The controller's file operations on the two copies. */
  class Store {
    var persistent: Option<Copy>
    var session: Option<Copy>
    var clock: nat

    ghost predicate Valid()
      reads this
    {
      Timed(State())
    }

    function State(): Files
      reads this
    {
      Files(persistent, session, clock)
    }

    ghost function Present(): set<Copy>
      reads this
    {
      (if persistent.Some? then {persistent.value} else {}) + (if session.Some? then {session.value} else {})
    }

    constructor ()
      ensures Valid() && State() == NO_FILES
    {
      persistent, session, clock := None, None, 0;
    }

    /** The entry of the latest copy that is there. */
    method LoadStateFile() returns (r: Option<Entry>)
      requires Valid()
      ensures r == Load(State())
      ensures r.None? <==> Present() == {}
      ensures r.Some? ==> exists c :: IsLatest(c, Present()) && r == Some(c.entry)
    {
      if persistent.None? && session.None? {
        return None;
      }
      var selected := persistent;
      if session.Some? && (persistent.None? || session.value.time > persistent.value.time) {
        selected := session;
      }
      assert IsLatest(selected.value, Present());
      return Some(selected.value.entry);
    }

    method SaveStateFile(entry: Entry, dirOk: bool, writeOk: bool, removeOk: bool, sessionOk: bool) returns (ok: bool)
      requires Valid()
      modifies this
      ensures Valid() && (State(), ok) == Apply(old(State()), Save(entry, dirOk, writeOk, removeOk, sessionOk))
      ensures Load(State()) == if ok then Some(entry) else Load(old(State()))
    {
      if dirOk && writeOk {
        persistent := Some(Copy(entry, clock));
        clock := clock + 1;
        if session.Some? && removeOk {
          session := None;
        }
        return true;
      }
      if sessionOk {
        session := Some(Copy(entry, clock));
        clock := clock + 1;
        return true;
      }
      return false;
    }

    /** Dual mode is off for the next load exactly when the marker was written, or the session
        copy is gone or says so itself. */
    method ClearStateFile(marker: Entry, removeOk: bool, markerOk: bool, sessionRemoveOk: bool)
      requires Valid() && !marker.enabled
      modifies this
      ensures Valid() && State() == Apply(old(State()), Clear(marker, removeOk, markerOk, sessionRemoveOk)).0
      ensures !LoadsEnabled(State()) <==>
        if old(persistent).Some? && !removeOk then markerOk || !LoadsEnabled(old(State()))
        else sessionRemoveOk || old(session).None? || !old(session).value.entry.enabled
    {
      var persistentRemoveFailed := false;
      if persistent.Some? {
        if removeOk {
          persistent := None;
        } else {
          persistentRemoveFailed := true;
        }
      }
      if persistentRemoveFailed {
        if markerOk {
          session := Some(Copy(marker, clock));
          clock := clock + 1;
        }
        return;
      }
      if session.Some? && sessionRemoveOk {
        session := None;
      }
    }
  }
}
