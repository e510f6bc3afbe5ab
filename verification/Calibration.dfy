/** The measure, correct and keep-best loop of the D65 calibration, run on the register bank.
    Measurements, video timing, timeouts and the operator are oracles. */
module Calibration {
  import opened Basics
  import opened ColorMath
  import opened WpAdjust
  import opened BestTrials

  /** What happens to a run from outside. A measurement that is None raised an exception
      (aborted, timed out or failed); deadline and control are those of each commit. */
  datatype Oracle = Oracle(started: bool, initial: Option<Xy>, primaries: Option<Primaries>,
                           measure: nat -> Option<Xy>, deadline: nat -> nat, control: nat -> Control)

  /** NotSaved: reading the gains of before the run raised; BusError: another read or a defaults
      write did. */
  datatype Cause = NotStarted | NotSaved | MeasurementFailed | SolveFailed | BusError | CommitFailed(outcome: Outcome)

  /** The ways a run can end with a commit pending. */
  const UNFINISHED: set<Cause> := {CommitFailed(TimedOut), CommitFailed(BusFailed)}

  datatype RunResult = Raised(cause: Cause) | Finished(converged: bool, best: Trial<Gains>, trials: seq<Trial<Gains>>)

  function Distance(s: Settings, at: Xy): real { s.hypot(at.x - s.x, at.y - s.y) }

  /** The linear gains a register triple stands for. */
  function LinearOf(g: Gains, s: Settings): Vec {
    Vec(s.decode(FixedToGain(g.r, s.fracBits)), s.decode(FixedToGain(g.g, s.fracBits)),
        s.decode(FixedToGain(g.b, s.fracBits)))
  }

  /** g is the correction computed from the triple of the previous trial; the first correction
      starts from no correction at all. */
  ghost predicate Follows(p: Primaries, s: Settings, j: nat, previous: Gains, g: Gains) {
    NextCandidate(p, StartOf(s, j, previous), s) == Ok(g)
  }

  function StartOf(s: Settings, j: nat, previous: Gains): Vec {
    if j == 1 then UNIT else LinearOf(previous, s)
  }

  /** Trials are genuine: each was computed from the one before it and its distance measured. */
  ghost predicate Genuine(s: Settings, o: Oracle, trials: seq<Trial<Gains>>) {
    && trials != [] && o.initial.Some? && o.primaries.Some?
    && trials[0] == Trial(AllGains(Pow2(s.fracBits)), Distance(s, o.initial.value))
    && forall j :: 1 <= j < |trials| ==>
         && o.measure(j).Some? && trials[j].distance == Distance(s, o.measure(j).value)
         && Follows(o.primaries.value, s, j, trials[j - 1].setting, trials[j].setting)
  }

  predicate InLimits(g: Gains, s: Settings) {
    var lo, hi := GainToFixed(s.minGain, s.fracBits), GainToFixed(s.maxGain, s.fracBits);
    Within(g.r, lo, hi) && Within(g.g, lo, hi) && Within(g.b, lo, hi)
  }

  /** Every correction ever written respects the gain limits and fits the registers. */
  lemma TrialsInLimits(s: Settings, o: Oracle, trials: seq<Trial<Gains>>, j: nat)
    requires Validated(s) && Genuine(s, o, trials) && 1 <= j < |trials|
    ensures InLimits(trials[j].setting, s)
  {
    var previous := trials[j - 1].setting;
    assert Follows(o.primaries.value, s, j, previous, trials[j].setting);
    CandidateInLimits(o.primaries.value, StartOf(s, j, previous), s);
  }

  /** Two gains at most half a register step apart. */
  predicate NearGain(u: real, v: real, fracBits: nat) {
    -0.5 <= u * (Pow2(fracBits) as real) - v * (Pow2(fracBits) as real) <= 0.5
  }

  ghost predicate NearGains(u: Vec, v: Vec, fracBits: nat) {
    NearGain(u.a, v.a, fracBits) && NearGain(u.b, v.b, fracBits) && NearGain(u.c, v.c, fracBits)
  }

  predicate WholeStep(gain: real, fracBits: nat) {
    gain * (Pow2(fracBits) as real) == (gain * (Pow2(fracBits) as real)).Floor as real
  }

  predicate WholeSteps(code: Vec, fracBits: nat) {
    WholeStep(code.a, fracBits) && WholeStep(code.b, fracBits) && WholeStep(code.c, fracBits)
  }

  lemma RegisterIsNear(raw: int, gain: real, fracBits: nat)
    requires NearestRegister(raw, gain, fracBits)
    ensures NearGain(FixedToGain(raw, fracBits), gain, fracBits)
  {
    NearQuotient(raw as real, Pow2(fracBits) as real, gain * (Pow2(fracBits) as real));
  }

  lemma NearQuotient(x: real, one: real, product: real)
    requires one > 0.0 && -0.5 <= x - product <= 0.5
    ensures -0.5 <= x / one * one - product <= 0.5
  {
    QuotientTimesDivisor(x, one);
  }

  lemma WholeRegisterIsGain(raw: int, gain: real, fracBits: nat)
    requires NearestRegister(raw, gain, fracBits) && WholeStep(gain, fracBits)
    ensures FixedToGain(raw, fracBits) == gain
  {
    StepIsExact(raw, gain, Pow2(fracBits) as real, gain * (Pow2(fracBits) as real));
  }

  lemma StepIsExact(raw: int, gain: real, one: real, product: real)
    requires one > 0.0 && product == gain * one
    requires -0.5 <= raw as real - product <= 0.5 && product == product.Floor as real
    ensures raw as real / one == gain
  {
    WholeIsEqual(raw, product, product.Floor);
    Cancel(raw as real, one, gain);
  }

  lemma WholeIsEqual(raw: int, x: real, whole: int)
    requires -0.5 <= raw as real - x <= 0.5 && x == whole as real
    ensures x == raw as real
  {
    assert (raw - whole) as real == raw as real - whole as real;
    NoHalves(raw - whole);
  }

  lemma NoHalves(m: int)
    requires -0.5 <= m as real <= 0.5
    ensures m == 0
  {
  }

  function GainsOf(g: Gains, fracBits: nat): Vec {
    Vec(FixedToGain(g.r, fracBits), FixedToGain(g.g, fracBits), FixedToGain(g.b, fracBits))
  }

  lemma RegistersAreNear(g: Gains, code: Vec, s: Settings)
    requires NearestRegisters(g, code, s.fracBits)
    ensures NearGains(GainsOf(g, s.fracBits), code, s.fracBits)
    ensures WholeSteps(code, s.fracBits) ==> GainsOf(g, s.fracBits) == code
  {
    RegisterIsNear(g.r, code.a, s.fracBits);
    RegisterIsNear(g.g, code.b, s.fracBits);
    RegisterIsNear(g.b, code.c, s.fracBits);
    if WholeSteps(code, s.fracBits) {
      WholeRegisterIsGain(g.r, code.a, s.fracBits);
      WholeRegisterIsGain(g.g, code.b, s.fracBits);
      WholeRegisterIsGain(g.b, code.c, s.fracBits);
    }
  }

  /** What the loop reads back after a correction, channel by channel: the linear gains of code
      gains within half a step of ones that mix exactly to the target; if those are whole steps,
      the gains read back mix exactly to it. */
  lemma CorrectionReadsBack(p: Primaries, linear: Vec, s: Settings) returns (code: Vec, u: Vec)
    requires NextCandidate(p, linear, s).Ok? && White(Weighted(p, linear)).b > 0.0
    requires Undamped(s) && EncodingIsUndone(s) && Unclipped(p, linear, s)
    ensures ToXy(Mix(p, Decoded(code, s))) == Ok(Xy(s.x, s.y))
    ensures LinearOf(NextCandidate(p, linear, s).value, s) == Decoded(u, s) && NearGains(u, code, s.fracBits)
    ensures WholeSteps(code, s.fracBits) ==> u == code
  {
    code := CandidateLands(p, linear, s);
    u := GainsOf(NextCandidate(p, linear, s).value, s.fracBits);
    RegistersAreNear(NextCandidate(p, linear, s).value, code, s);
  }

  /** The same of every trial of a run. */
  lemma TrialLands(s: Settings, o: Oracle, trials: seq<Trial<Gains>>, j: nat) returns (code: Vec)
    requires Genuine(s, o, trials) && 1 <= j < |trials| && Undamped(s) && EncodingIsUndone(s)
    requires var start := StartOf(s, j, trials[j - 1].setting);
      Unclipped(o.primaries.value, start, s) && White(Weighted(o.primaries.value, start)).b > 0.0
    ensures ToXy(Mix(o.primaries.value, Decoded(code, s))) == Ok(Xy(s.x, s.y))
    ensures NearestRegisters(trials[j].setting, code, s.fracBits)
  {
    var previous := trials[j - 1].setting;
    assert Follows(o.primaries.value, s, j, previous, trials[j].setting);
    code := CandidateLands(o.primaries.value, StartOf(s, j, previous), s);
  }

  /** The distance of a trial is Euclidean, if hypot is: none exactly on the target. */
  lemma DistanceIsEuclidean(s: Settings, at: Xy)
    requires forall a: real, b: real :: s.hypot(a, b) >= 0.0 && s.hypot(a, b) * s.hypot(a, b) == a * a + b * b
    ensures Distance(s, at) >= 0.0
    ensures Distance(s, at) * Distance(s, at) == (at.x - s.x) * (at.x - s.x) + (at.y - s.y) * (at.y - s.y)
  {
  }

  function SettingsOf(trials: seq<Trial<Gains>>): set<Gains> { set t | t in trials :: t.setting }

  lemma OneMoreSetting(trials: seq<Trial<Gains>>, t: Trial<Gains>)
    ensures SettingsOf(trials + [t]) == SettingsOf(trials) + {t.setting}
  {
  }

  lemma IsASetting(trials: seq<Trial<Gains>>, k: nat)
    requires k < |trials|
    ensures trials[k].setting in SettingsOf(trials)
  {
  }

  lemma BestIsASetting(best: Trial<Gains>, trials: seq<Trial<Gains>>)
    requires IsFirstBest(best, trials)
    ensures best.setting in SettingsOf(trials)
  {
  }

  /** What a normal return of a run means. */
  ghost predicate IsOutcome(s: Settings, o: Oracle, r: RunResult)
    requires r.Finished?
  {
    && Genuine(s, o, r.trials) && |r.trials| <= 1 + s.maxCorrections
    && IsFirstBest(r.best, r.trials)
    && (r.converged <==> r.best.distance <= s.tolerance)
    && (!r.converged ==> |r.trials| == 1 + s.maxCorrections)
  }

  /** The loop both programs run from the uncorrected baseline: correct, commit, measure, keep
      the best, and reinstate it at the end. On a normal return exactly the best measured
      setting is active and no triple was ever active that is not one of the trials. */
  method CorrectUntilBest(regs: Registers, s: Settings, o: Oracle) returns (r: RunResult)
    requires Validated(s) && o.initial.Some? && o.primaries.Some?
    requires regs.unity == Pow2(s.fracBits) && regs.active == AllGains(regs.unity) && !regs.commitPending
    modifies regs
    ensures regs.preRunGains == old(regs.preRunGains)
    ensures r.Finished? ==> IsOutcome(s, o, r) && regs.active == r.best.setting && !regs.commitPending
    ensures r.Finished? ==> regs.seen <= old(regs.seen) + SettingsOf(r.trials)
    ensures r.Raised? ==> (regs.commitPending ==> r.cause in UNFINISHED)
    ensures r.Raised? ==> r.cause !in {CommitFailed(Refused), CommitFailed(Committed), NotStarted, NotSaved}
  {
    var best := Trial(AllGains(regs.unity), Distance(s, o.initial.value));
    var calibrated := best.distance <= s.tolerance;
    var linear := UNIT;
    var trials := [best];
    Baseline(s, o);
    var iteration := 1;
    while iteration <= s.maxCorrections && !calibrated
      invariant 1 <= iteration <= s.maxCorrections + 1 && |trials| == iteration
      invariant Genuine(s, o, trials) && IsFirstBest(best, trials)
      invariant calibrated <==> best.distance <= s.tolerance
      invariant regs.active == trials[iteration - 1].setting && !regs.commitPending
      invariant calibrated ==> best == trials[iteration - 1]
      invariant regs.preRunGains == old(regs.preRunGains)
      invariant linear == StartOf(s, iteration, trials[iteration - 1].setting)
      invariant regs.seen <= old(regs.seen) + SettingsOf(trials)
    {
      IsASetting(trials, iteration - 1);
      var step := Iterate(regs, s, o, iteration, linear, trials);
      if step.Stopped? {
        return Raised(step.cause);
      }
      var trial := step.trial;
      KeepBest(best, trials, trial);
      OneMoreSetting(trials, trial);
      trials := trials + [trial];
      if trial.distance < best.distance {
        best := trial;
      }
      linear := LinearOf(step.active, s);
      calibrated := trial.distance <= s.tolerance;
      iteration := iteration + 1;
    }
    if !calibrated {
      IsASetting(trials, iteration - 1);
      BestIsASetting(best, trials);
      var failed := Reinstate(regs, best.setting, o);
      if failed.Some? {
        return Raised(failed.value);
      }
    }
    r := Finished(calibrated, best, trials);
  }

  /** run_calibration. Whatever the timing and the bus do, a normal return leaves exactly the
      best measured setting active, counts the uncorrected baseline among the candidates, and
      reports convergence exactly when that best setting is within tolerance. Once the run has
      read the earlier gains an exception keeps what was read for restoration: the active triple,
      unless a commit was pending at the start and latched between the reads. */
  method RunCalibration(regs: Registers, s: Settings, o: Oracle) returns (r: RunResult)
    requires Validated(s) && regs.fracBits == s.fracBits && regs.unity == Pow2(s.fracBits)
    requires regs.preRunGains.None?
    modifies regs
    ensures r.Finished? ==> IsOutcome(s, o, r)
    ensures r.Finished? ==> regs.active == r.best.setting && !regs.commitPending && regs.preRunGains.None?
    ensures r.Finished? && !old(regs.commitPending) ==>
      regs.seen <= old(regs.seen) + {old(regs.active)} + SettingsOf(r.trials)
    ensures r.Raised? && !old(regs.commitPending) ==> (regs.commitPending ==> r.cause in UNFINISHED)
    ensures r.Raised? && old(regs.commitPending) ==>
      (regs.commitPending ==> r.cause in UNFINISHED + {NotStarted, NotSaved, BusError})
    ensures r.Raised? ==> r.cause !in {CommitFailed(Refused), CommitFailed(Committed)}
    ensures !o.started <==> r.Raised? && r.cause == NotStarted
    ensures r.Raised? && r.cause == NotStarted ==> regs.State() == old(regs.State())
    ensures r.Raised? && r.cause == NotSaved && !old(regs.commitPending) ==> regs.State() == old(regs.State())
    ensures r.Raised? && r.cause in {NotStarted, NotSaved} ==> regs.preRunGains.None?
    ensures r.Raised? && r.cause !in {NotStarted, NotSaved} ==>
      regs.preRunGains == Some(TripleRead(regs.schedule, old(regs.operations), old(regs.State())))
  {
    if !o.started {
      return Raised(NotStarted);
    }
    var saved := regs.ReadActiveGains();
    if saved.None? {
      return Raised(NotSaved);
    }
    regs.preRunGains := saved;
    var ok := regs.Defaults();
    if !ok {
      return Raised(BusError);
    }
    if o.initial.None? || o.primaries.None? {
      return Raised(MeasurementFailed);
    }
    r := CorrectUntilBest(regs, s, o);
    if r.Finished? {
      IsASetting(r.trials, 0);
      regs.preRunGains := None;
    }
  }

  /** The target is what a reference display was measured at. */
  function Towards(s: Settings, reference: Xy): Settings { s.(x := reference.x, y := reference.y) }

  /** Then the reference itself is no distance away. */
  lemma ReferenceIsOnTarget(s: Settings, reference: Xy)
    requires s.hypot(0.0, 0.0) == 0.0
    ensures Distance(Towards(s, reference), reference) == 0.0 && Towards(s, reference).hypot == s.hypot
    ensures Towards(s, reference).tolerance == s.tolerance && Towards(s, reference).maxCorrections == s.maxCorrections
  {
  }

  /** run_match of the white-point match: the same loop towards a measured reference display.
      The defaults are written before anything else, and nothing restores earlier gains. */
  method RunMatch(regs: Registers, s: Settings, reference: Option<Xy>, o: Oracle) returns (r: RunResult)
    requires Validated(s) && regs.fracBits == s.fracBits && regs.unity == Pow2(s.fracBits)
    modifies regs
    ensures regs.preRunGains == old(regs.preRunGains)
    ensures r.Finished? ==> reference.Some? && IsOutcome(Towards(s, reference.value), o, r)
    ensures r.Finished? ==> regs.active == r.best.setting && !regs.commitPending
    ensures r.Raised? && regs.commitPending ==> r.cause in UNFINISHED || (r.cause == BusError && old(regs.commitPending))
    ensures r.Raised? && r.cause == NotStarted ==> regs.active == AllGains(regs.unity)
    ensures !o.started ==> r.Raised? && r.cause in {NotStarted, BusError, MeasurementFailed}
    ensures o.started ==> !(r.Raised? && r.cause == NotStarted)
  {
    var ok := regs.Defaults();
    if !ok {
      return Raised(BusError);
    }
    if reference.None? {
      return Raised(MeasurementFailed);
    }
    if !o.started {
      return Raised(NotStarted);
    }
    if o.initial.None? || o.primaries.None? {
      return Raised(MeasurementFailed);
    }
    r := CorrectUntilBest(regs, Towards(s, reference.value), o);
  }

  datatype StepResult = Done(trial: Trial<Gains>, active: Gains) | Stopped(cause: Cause)

  lemma Baseline(s: Settings, o: Oracle)
    requires o.initial.Some? && o.primaries.Some?
    ensures var b := Trial(AllGains(Pow2(s.fracBits)), Distance(s, o.initial.value));
      Genuine(s, o, [b]) && IsFirstBest(b, [b])
  {
  }

  /** One pass of the loop body up to the new trial. */
  method Iterate(regs: Registers, s: Settings, o: Oracle, iteration: nat, linear: Vec, ghost trials: seq<Trial<Gains>>)
    returns (r: StepResult)
    requires iteration >= 1 && |trials| == iteration && Genuine(s, o, trials) && !regs.commitPending
    requires linear == StartOf(s, iteration, trials[iteration - 1].setting)
    modifies regs
    ensures regs.preRunGains == old(regs.preRunGains)
    ensures r.Done? ==> regs.seen <= old(regs.seen) + {old(regs.active), r.trial.setting}
    ensures r.Done? ==> Genuine(s, o, trials + [r.trial])
    ensures r.Done? ==> regs.active == r.trial.setting == r.active && !regs.commitPending
    ensures r.Stopped? ==> (regs.commitPending ==> r.cause in UNFINISHED)
    ensures r.Stopped? ==> r.cause !in {CommitFailed(Refused), CommitFailed(Committed), NotStarted, NotSaved}
  {
    var next := NextCandidate(o.primaries.value, linear, s);
    if next.Err? {
      return Stopped(SolveFailed);
    }
    var outcome := regs.WriteGainsAndCommit(next.value, o.deadline(iteration), o.control(iteration));
    if outcome != Committed {
      return Stopped(CommitFailed(outcome));
    }
    if o.measure(iteration).None? {
      return Stopped(MeasurementFailed);
    }
    var trial := Trial(next.value, Distance(s, o.measure(iteration).value));
    var active := regs.ReadActiveGains();
    if active.None? {
      return Stopped(BusError);
    }
    Extends(s, o, trials, trial);
    return Done(trial, active.value);
  }

  lemma Extends(s: Settings, o: Oracle, trials: seq<Trial<Gains>>, t: Trial<Gains>)
    requires Genuine(s, o, trials) && o.measure(|trials|).Some?
    requires t.distance == Distance(s, o.measure(|trials|).value)
    requires Follows(o.primaries.value, s, |trials|, trials[|trials| - 1].setting, t.setting)
    ensures Genuine(s, o, trials + [t])
  {
    var all := trials + [t];
    forall j | 1 <= j < |all|
      ensures o.measure(j).Some? && all[j].distance == Distance(s, o.measure(j).value)
      ensures Follows(o.primaries.value, s, j, all[j - 1].setting, all[j].setting)
    {
      if j < |trials| {
        assert all[j] == trials[j] && all[j - 1] == trials[j - 1];
      }
    }
  }

  /** Puts the best measured setting back when the last one measured is not it. */
  method Reinstate(regs: Registers, best: Gains, o: Oracle) returns (failed: Option<Cause>)
    requires !regs.commitPending
    modifies regs
    ensures regs.preRunGains == old(regs.preRunGains)
    ensures failed.None? ==> regs.active == best && !regs.commitPending
    ensures regs.seen <= old(regs.seen) + {old(regs.active), best}
    ensures failed.Some? ==> failed.value == BusError || failed.value.CommitFailed?
    ensures failed != Some(CommitFailed(Refused)) && failed != Some(CommitFailed(Committed))
    ensures regs.commitPending ==> failed.Some? && failed.value in UNFINISHED
    ensures best == AllGains(regs.unity) ==> (failed.None? <==> regs.schedule.fault(old(regs.operations)) == Fine)
  {
    if best == AllGains(regs.unity) {
      var ok := regs.Defaults();
      return if ok then None else Some(BusError);
    }
    var outcome := regs.WriteGainsAndCommit(best, o.deadline(0), o.control(0));
    return if outcome == Committed then None else Some(CommitFailed(outcome));
  }

  /** Video keeps running: a frame boundary comes within any deadline's worth of operations. */
  ghost predicate VideoRuns(s: Schedule, deadline: nat) {
    forall n: nat :: FrameSoon(s, n, deadline)
  }

  ghost predicate FrameSoon(s: Schedule, n: nat, deadline: nat) {
    BoundaryWithin(s, n, n + deadline)
  }

  ghost predicate FaithfulWrites(s: Schedule) {
    forall n: nat, v: int :: s.landed(n, v) == v
  }

  predicate IsRegisterTriple(g: Gains) {
    0 <= g.r <= 0xFFFF && 0 <= g.g <= 0xFFFF && 0 <= g.b <= 0xFFFF
  }

  /** No operation raises. */
  ghost predicate BusWorks(s: Schedule, from: nat) { forall n: nat :: from <= n ==> s.fault(n) == Fine }

  lemma RestoresWhenVideoRuns(s: Schedule, n: nat, unity: int, b: Bank, saved: Gains, deadline: nat)
    requires !b.pending && IsRegisterTriple(saved) && FaithfulWrites(s) && VideoRuns(s, deadline) && BusWorks(s, n)
    ensures Restores(s, n, unity, b, saved, deadline, NoAbort)
  {
    assert Lands(s, n + 1, saved) by {
      assert s.landed(n + 1, saved.r) == saved.r && s.landed(n + 2, saved.g) == saved.g
          && s.landed(n + 3, saved.b) == saved.b && s.landed(n + 4, 1) == 1;
    }
    assert FrameSoon(s, n + 10, deadline);
    var frame: nat :| n + 10 <= frame <= n + 10 + deadline && s.boundary(frame);
    RestoresWithoutAbort(s, n, unity, b, saved, deadline, frame);
  }

  /** A run with its error handling. A run that failed once it had read the earlier gains leaves
      the panel at what it read, provided it left no commit pending and from then on video runs,
      writes are faithful, the bus works and the abort flag is clear. If what it read was no
      correction at all, none of that matters: the defaults are back after one write that arrives. */
  method CalibrateOrRestore(regs: Registers, s: Settings, o: Oracle, deadline: nat, control: Control)
    returns (r: RunResult, ghost ended: nat, ghost left: bool)
    requires Validated(s) && regs.fracBits == s.fracBits && regs.unity == Pow2(s.fracBits)
    requires regs.preRunGains.None?
    modifies regs
    ensures regs.preRunGains.None?
    ensures r.Finished? ==> regs.active == r.best.setting && IsFirstBest(r.best, r.trials)
    ensures r.Raised? && r.cause == NotStarted ==> regs.State() == old(regs.State())
    ensures r.Raised? && r.cause == NotSaved && !old(regs.commitPending) ==> regs.State() == old(regs.State())
    ensures left ==> r.Raised? && r.cause in UNFINISHED + {NotStarted, NotSaved, BusError}
    ensures left && !old(regs.commitPending) ==> r.cause in UNFINISHED
    ensures var saved := TripleRead(regs.schedule, old(regs.operations), old(regs.State()));
      r.Raised? && r.cause !in {NotStarted, NotSaved} && !left && control == NoAbort && IsRegisterTriple(saved)
      && VideoRuns(regs.schedule, deadline) && FaithfulWrites(regs.schedule) && BusWorks(regs.schedule, ended)
      ==> regs.active == saved
    ensures var saved := TripleRead(regs.schedule, old(regs.operations), old(regs.State()));
      r.Raised? && r.cause !in {NotStarted, NotSaved} && saved == AllGains(regs.unity) ==>
        regs.schedule.fault(ended) != Lost ==> regs.State() == Defaulted(regs.unity)
  {
    r := RunCalibration(regs, s, o);
    ended, left := regs.operations, regs.commitPending;
    if r.Raised? {
      if r.cause !in {NotStarted, NotSaved} && !left && control == NoAbort && IsRegisterTriple(regs.preRunGains.value) {
        ghost var b, saved := regs.State(), regs.preRunGains.value;
        if VideoRuns(regs.schedule, deadline) && FaithfulWrites(regs.schedule) && BusWorks(regs.schedule, ended) {
          RestoresWhenVideoRuns(regs.schedule, ended, regs.unity, b, saved, deadline);
        }
      }
      regs.RestorePreRunGains(deadline, control);
    }
  }
}
