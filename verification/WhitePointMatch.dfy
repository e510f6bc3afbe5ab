/** The legacy white-point matcher: a linear model fitted by least squares through the
    baseline, an exhaustive search of the register cube, and the correct-and-keep-best loop
    against a reference display. root stands for the square root in a distance; nothing is
    assumed about it. */
module WhitePointMatch {
  import opened Basics
  import opened BestTrials
  import C = ColorMath

  type Xy = C.Xy

  /** Register values, or reductions from 256, of the three axes. */
  datatype Triple = Triple(wpx: int, wpy: int, wpz: int)

  datatype Axis = Wpx | Wpy | Wpz

  // ---------------------------------------------------------------- least squares

  /** A reduction, as a real number, and the response measured for it. */
  datatype Sample = Sample(d: real, r: real)

  function SumOf<T>(s: seq<T>, g: T -> real): real {
    if s == [] then 0.0 else SumOf(s[..|s| - 1], g) + g(s[|s| - 1])
  }

  function Square(x: real): real { x * x }

  function DD(x: Sample): real { Square(x.d) }

  function DR(x: Sample): real { x.d * x.r }

  function SumDD(s: seq<Sample>): real { SumOf(s, DD) }

  function SumDR(s: seq<Sample>): real { SumOf(s, DR) }

  function OffBy(m: real, x: Sample): real { x.r - m * x.d }

  function SquaredResidual(m: real): Sample -> real { (x: Sample) => Square(OffBy(m, x)) }

  /** The summed squared residuals of a line of slope m through the baseline. */
  function Residuals(s: seq<Sample>, m: real): real { SumOf(s, SquaredResidual(m)) }

  function Times(p: real): real -> real { (u: real) => p * u }

  ghost predicate AddsAt(f: real -> real, a: real, b: real) { f(a + b) == f(a) + f(b) }

  ghost predicate IsAdditive(f: real -> real) { f(0.0) == 0.0 && forall a: real, b: real :: AddsAt(f, a, b) }

  lemma TimesIsAdditive(p: real)
    ensures IsAdditive(Times(p))
  {
    forall a: real, b: real
      ensures AddsAt(Times(p), a, b)
    {
      Distribute(p, a, b);
    }
  }

  lemma Distribute(p: real, a: real, b: real)
    ensures p * (a + b) == p * a + p * b
  {
  }

  ghost predicate Combines(g: Sample -> real, h: Sample -> real, f: real -> real, u: Sample -> real) {
    forall x: Sample :: g(x) == h(x) + f(u(x))
  }

  /** Sums take over a linear relation between their terms. */
  lemma {:induction false} SumsCombine(s: seq<Sample>, g: Sample -> real, h: Sample -> real, f: real -> real,
                                       u: Sample -> real)
    requires Combines(g, h, f, u) && IsAdditive(f)
    ensures SumOf(s, g) == SumOf(s, h) + f(SumOf(s, u))
    decreases |s|
  {
    if s != [] {
      var init, last := s[..|s| - 1], s[|s| - 1];
      SumsCombine(init, g, h, f, u);
      assert AddsAt(f, SumOf(init, u), u(last)) && g(last) == h(last) + f(u(last));
    }
  }

  lemma {:induction false} SameTerms<T, U>(s: seq<T>, g: T -> real, t: seq<U>, h: U -> real)
    requires |s| == |t| && forall i :: 0 <= i < |s| ==> g(s[i]) == h(t[i])
    ensures SumOf(s, g) == SumOf(t, h)
    decreases |s|
  {
    if s != [] {
      SameTerms(s[..|s| - 1], g, t[..|t| - 1], h);
    }
  }

  /** How far a sample lies off a slope, weighted by its reduction. */
  function Tilt(m: real): Sample -> real { (x: Sample) => DR(x) + Times(-m)(DD(x)) }

  /** The residual of another slope but for its tilt. */
  function Offset(m: real, k: real): Sample -> real {
    (x: Sample) => SquaredResidual(m)(x) + Times(Square(k))(DD(x))
  }

  lemma OneSample(r: real, d: real, m: real, k: real, n: real, dd: real, kk: real, p: real, tilt: real)
    requires n == m + k && dd == Square(d) && kk == Square(k) && p == -2.0 * k && tilt == d * r + (-m) * dd
    ensures Square(r - n * d) == (Square(r - m * d) + kk * dd) + p * tilt
  {
    assert p * tilt == -2.0 * k * (d * r) + 2.0 * k * m * (d * d);
  }

  lemma AppliedTimes(p: real, f: real -> real, u: real)
    requires f == Times(p)
    ensures f(u) == p * u
  {
  }

  lemma AnySample(x: Sample, m: real, k: real, n: real)
    requires n == m + k
    ensures SquaredResidual(n)(x) == Offset(m, k)(x) + Times(-2.0 * k)(Tilt(m)(x))
  {
    var dd, kk, p := DD(x), Square(k), -2.0 * k;
    var tilt := Tilt(m)(x);
    AppliedTimes(-m, Times(-m), dd);
    AppliedTimes(kk, Times(kk), dd);
    AppliedTimes(p, Times(p), tilt);
    OneSample(x.r, x.d, m, k, n, dd, kk, p, tilt);
  }

  lemma EverySample(m: real, k: real, n: real)
    requires n == m + k
    ensures Combines(SquaredResidual(n), Offset(m, k), Times(-2.0 * k), Tilt(m))
  {
    forall x: Sample
      ensures SquaredResidual(n)(x) == Offset(m, k)(x) + Times(-2.0 * k)(Tilt(m)(x))
    {
      AnySample(x, m, k, n);
    }
  }

  lemma ChainSums(s: seq<Sample>, after: Sample -> real, offset: Sample -> real, before: Sample -> real,
                  tilt: Sample -> real, f: real -> real, q: real -> real, t: real -> real)
    requires Combines(after, offset, f, tilt) && Combines(offset, before, q, DD) && Combines(tilt, DR, t, DD)
    requires IsAdditive(f) && IsAdditive(q) && IsAdditive(t)
    ensures SumOf(s, after) == (SumOf(s, before) + q(SumDD(s))) + f(SumDR(s) + t(SumDD(s)))
  {
    SumsCombine(s, after, offset, f, tilt);
    SumsCombine(s, offset, before, q, DD);
    SumsCombine(s, tilt, DR, t, DD);
  }

  lemma OffsetCombines(m: real, k: real)
    ensures Combines(Offset(m, k), SquaredResidual(m), Times(Square(k)), DD)
  {
  }

  lemma TiltCombines(m: real)
    ensures Combines(Tilt(m), DR, Times(-m), DD)
  {
  }

  /** How the residuals change between any two slopes, from two sums of the samples. */
  lemma ResidualsChange(s: seq<Sample>, m: real, n: real, k: real)
    requires n == m + k
    ensures Residuals(s, n)
            == (Residuals(s, m) + Times(Square(k))(SumDD(s))) + Times(-2.0 * k)(SumDR(s) + Times(-m)(SumDD(s)))
  {
    EverySample(m, k, n);
    OffsetCombines(m, k);
    TiltCombines(m);
    TimesIsAdditive(-2.0 * k);
    TimesIsAdditive(Square(k));
    TimesIsAdditive(-m);
    ChainSums(s, SquaredResidual(n), Offset(m, k), SquaredResidual(m), Tilt(m),
              Times(-2.0 * k), Times(Square(k)), Times(-m));
  }

  lemma PositiveProduct(x: real, y: real, p: real)
    requires x > 0.0 && y > 0.0 && p == x * y
    ensures p > 0.0
  {
  }

  lemma SquareIsPositive(k: real, q: real)
    requires k != 0.0 && q == k * k
    ensures q > 0.0
  {
    if k > 0.0 {
      PositiveProduct(k, k, q);
    } else {
      PositiveProduct(-k, -k, q);
    }
  }

  lemma SquareTimes(k: real, q: real, a: real)
    requires a > 0.0 && q == k * k
    ensures q * a >= 0.0 && (q * a == 0.0 <==> k == 0.0)
  {
    if k != 0.0 {
      SquareIsPositive(k, q);
      PositiveProduct(q, a, q * a);
    }
  }

  lemma FittedChange(m: real, k: real, dd: real, dr: real)
    requires m * dd == dr
    ensures Times(Square(k))(dd) == Square(k) * dd && Times(-2.0 * k)(dr + Times(-m)(dd)) == 0.0
  {
    assert dr + Times(-m)(dd) == 0.0;
  }

  /** The slope of load_profile_model is the one least-squares slope: every other slope through
      the baseline has strictly larger residuals. */
  lemma SlopeIsLeastSquares(s: seq<Sample>, m: real, n: real)
    requires SumDD(s) > 0.0 && m == SumDR(s) / SumDD(s)
    ensures Residuals(s, m) <= Residuals(s, n)
    ensures Residuals(s, m) == Residuals(s, n) <==> n == m
  {
    QuotientTimesDivisor(SumDR(s), SumDD(s));
    ResidualsChange(s, m, n, n - m);
    FittedChange(m, n - m, SumDD(s), SumDR(s));
    SquareTimes(n - m, Square(n - m), SumDD(s));
  }

  // ---------------------------------------------------------------- the model of a profile

  /** A point of a profile file; registers are numbers, and any of them or the average may be
      missing. */
  datatype Point = Point(registers: map<Axis, real>, average: Option<Xy>)

  datatype Slopes = Slopes(x: real, y: real)

  datatype Model = Model(wpx: Slopes, wpy: Slopes, wpz: Slopes)

  function SlopesOf(m: Model, a: Axis): Slopes {
    match a
    case Wpx => m.wpx
    case Wpy => m.wpy
    case Wpz => m.wpz
  }

  const UNITY: Triple := Triple(256, 256, 256)

  const BASELINE: map<Axis, real> := map[Wpx := 256.0, Wpy := 256.0, Wpz := 256.0]

  predicate IsUnity(p: Point, a: Axis) { a in p.registers && p.registers[a] == 256.0 }

  /** Only this axis is not at 256; it may be missing. */
  predicate Moves(p: Point, a: Axis) { !IsUnity(p, a) && forall b: Axis :: b != a ==> IsUnity(p, b) }

  function FirstBaseline(points: seq<Point>): Option<Point> {
    if points == [] then None
    else if points[0].registers == BASELINE then Some(points[0])
    else FirstBaseline(points[1..])
  }

  /** Conversion to an integer drops the fraction. */
  function Truncated(v: real): int { if v >= 0.0 then v.Floor else -((-v).Floor) }

  /** It gives the whole number next to the value in the direction of zero. */
  lemma TruncatedDropsFraction(v: real)
    ensures v >= 0.0 ==> 0.0 <= Truncated(v) as real <= v < Truncated(v) as real + 1.0
    ensures v <= 0.0 ==> Truncated(v) as real - 1.0 < v <= Truncated(v) as real <= 0.0
  {
  }

  /** The baseline point moves no axis. */
  lemma BaselineMovesNothing(p: Point, a: Axis)
    requires p.registers == BASELINE
    ensures !Moves(p, a)
  {
  }

  predicate HasMoving(points: seq<Point>, a: Axis) { exists p :: p in points && Moves(p, a) }

  predicate LacksRegister(points: seq<Point>, a: Axis) {
    exists p :: p in points && Moves(p, a) && a !in p.registers
  }

  predicate LacksAverage(points: seq<Point>, a: Axis) { exists p :: p in points && Moves(p, a) && p.average.None? }

  /** A whole step away from 256. */
  predicate Weighs(p: Point, a: Axis) { Moves(p, a) && a in p.registers && Truncated(p.registers[a]) != 256 }

  predicate HasWeight(points: seq<Point>, a: Axis) { exists p :: p in points && Weighs(p, a) }

  /** What becomes of a profile at one axis. */
  datatype Fate = Fits | FallsBack | Raises

  function FateOf(points: seq<Point>, a: Axis, base: Option<Xy>): Fate {
    if !HasMoving(points, a) then FallsBack
    else if LacksRegister(points, a) then Raises
    else if !HasWeight(points, a) then FallsBack
    else if base.None? || LacksAverage(points, a) then Raises
    else Fits
  }

  /** The points of a profile that move one axis, in their order. */
  function Moving(points: seq<Point>, a: Axis): seq<Point> {
    if points == [] then []
    else
      var last := points[|points| - 1];
      Moving(points[..|points| - 1], a) + (if Moves(last, a) then [last] else [])
  }

  lemma {:induction false} MovingMembers(points: seq<Point>, a: Axis)
    ensures forall p :: p in Moving(points, a) <==> p in points && Moves(p, a)
    decreases |points|
  {
    if points != [] {
      var last, init := points[|points| - 1], points[..|points| - 1];
      MovingMembers(init, a);
      assert points == init + [last];
    }
  }

  predicate HaveRegister(ps: seq<Point>, a: Axis) { forall i :: 0 <= i < |ps| ==> a in ps[i].registers }

  predicate HaveAverage(ps: seq<Point>) { forall i :: 0 <= i < |ps| ==> ps[i].average.Some? }

  lemma MovingHave(points: seq<Point>, a: Axis)
    ensures Moving(points, a) != [] <==> HasMoving(points, a)
    ensures HaveRegister(Moving(points, a), a) <==> !LacksRegister(points, a)
    ensures HaveAverage(Moving(points, a)) <==> !LacksAverage(points, a)
  {
    var ps := Moving(points, a);
    MovingMembers(points, a);
    assert forall i :: 0 <= i < |ps| ==> ps[i] in ps;
    assert ps != [] ==> ps[0] in ps;
  }

  /** The reductions of the points, whole numbers. */
  function Reductions(ps: seq<Point>, a: Axis): (ds: seq<real>)
    requires HaveRegister(ps, a)
    ensures |ds| == |ps|
  {
    seq(|ps|, i requires 0 <= i < |ps| => (256 - Truncated(ps[i].registers[a])) as real)
  }

  /** Responses of one coordinate: y if asked, else x. */
  function Samples(ps: seq<Point>, a: Axis, base: Xy, y: bool): (s: seq<Sample>)
    requires HaveRegister(ps, a) && HaveAverage(ps)
    ensures |s| == |ps|
  {
    seq(|ps|, i requires 0 <= i < |ps| =>
      Sample(Reductions(ps, a)[i],
             if y then ps[i].average.value.y - base.y else ps[i].average.value.x - base.x))
  }

  /** A sum of squares is positive unless all of them are zero. */
  lemma {:induction false} SquaresWeigh(ds: seq<real>)
    ensures SumOf(ds, Square) >= 0.0
    ensures SumOf(ds, Square) > 0.0 <==> exists i :: 0 <= i < |ds| && ds[i] != 0.0
    decreases |ds|
  {
    if ds != [] {
      var init, last := ds[..|ds| - 1], ds[|ds| - 1];
      SquaresWeigh(init);
      SquareTimes(last, Square(last), 1.0);
      assert forall i :: 0 <= i < |init| ==> ds[i] == init[i];
    }
  }

  /** The guard against a zero denominator fires exactly when no point that moves the axis is a
      whole step away from 256; with integer registers it never does. */
  lemma DenominatorIsPositiveIff(points: seq<Point>, a: Axis)
    requires !LacksRegister(points, a)
    ensures HaveRegister(Moving(points, a), a)
    ensures SumOf(Reductions(Moving(points, a), a), Square) > 0.0 <==> HasWeight(points, a)
  {
    MovingHave(points, a);
    MovingMembers(points, a);
    var ps := Moving(points, a);
    var ds := Reductions(ps, a);
    SquaresWeigh(ds);
    assert forall i :: 0 <= i < |ps| ==> ps[i] in ps && (ds[i] != 0.0 <==> Weighs(ps[i], a));
  }

  predicate WholeRegisters(points: seq<Point>) {
    forall p, a :: p in points && a in p.registers ==> p.registers[a] == p.registers[a].Floor as real
  }

  lemma WholeRegistersWeigh(points: seq<Point>, a: Axis)
    requires WholeRegisters(points) && !LacksRegister(points, a)
    ensures HasWeight(points, a) <==> HasMoving(points, a)
  {
    forall p | p in points && Moves(p, a)
      ensures Weighs(p, a)
    {
      assert a in p.registers;
    }
  }

  /** The sum of the terms of a list. */
  method Total<T>(s: seq<T>, g: T -> real) returns (sum: real)
    ensures sum == SumOf(s, g)
  {
    sum := 0.0;
    for i := 0 to |s|
      invariant sum == SumOf(s[..i], g)
    {
      assert s[..i + 1][..i] == s[..i];
      sum := sum + g(s[i]);
    }
    assert s[..|s|] == s;
  }

  ghost predicate IsLeastSquares(s: seq<Sample>, m: real) {
    forall n: real :: Residuals(s, m) <= Residuals(s, n) && (Residuals(s, m) == Residuals(s, n) <==> n == m)
  }

  /** The fitted slopes of one axis are the unique least-squares ones over its points. */
  ghost predicate IsFit(points: seq<Point>, a: Axis, base: Xy, s: Slopes) {
    var ps := Moving(points, a);
    HaveRegister(ps, a) && HaveAverage(ps)
    && IsLeastSquares(Samples(ps, a, base, false), s.x) && IsLeastSquares(Samples(ps, a, base, true), s.y)
  }

  method Slope(s: seq<Sample>, denom: real) returns (m: real)
    requires denom == SumDD(s) > 0.0
    ensures IsLeastSquares(s, m)
  {
    var sum := Total(s, DR);
    var slope := sum / denom;
    m := slope;
    forall n: real
      ensures Residuals(s, slope) <= Residuals(s, n)
      ensures Residuals(s, slope) == Residuals(s, n) <==> n == slope
    {
      SlopeIsLeastSquares(s, slope, n);
    }
  }

  method SelectMoving(points: seq<Point>, a: Axis) returns (ps: seq<Point>)
    ensures ps == Moving(points, a)
  {
    ps := [];
    for i := 0 to |points|
      invariant ps == Moving(points[..i], a)
    {
      assert points[..i + 1][..i] == points[..i];
      if !IsUnity(points[i], a) && (forall b: Axis :: b != a ==> IsUnity(points[i], b)) {
        ps := ps + [points[i]];
      }
    }
    assert points[..|points|] == points;
  }

  datatype AxisFit = AxisFit(fate: Fate, slopes: Slopes)

  const NO_SLOPES: Slopes := Slopes(0.0, 0.0)

  /** The per-axis part of load_profile_model. */
  method FitAxis(points: seq<Point>, a: Axis, base: Option<Xy>) returns (r: AxisFit)
    ensures r.fate == FateOf(points, a, base)
    ensures r.fate.Fits? ==> base.Some? && IsFit(points, a, base.value, r.slopes)
  {
    MovingHave(points, a);
    var ps := SelectMoving(points, a);
    if ps == [] {
      return AxisFit(FallsBack, NO_SLOPES);
    }
    if !HaveRegister(ps, a) {
      return AxisFit(Raises, NO_SLOPES);
    }
    DenominatorIsPositiveIff(points, a);
    var denom := Total(Reductions(ps, a), Square);
    if denom <= 0.0 {
      return AxisFit(FallsBack, NO_SLOPES);
    }
    if base.None? || !HaveAverage(ps) {
      return AxisFit(Raises, NO_SLOPES);
    }
    SameTerms(Samples(ps, a, base.value, false), DD, Reductions(ps, a), Square);
    SameTerms(Samples(ps, a, base.value, true), DD, Reductions(ps, a), Square);
    var x := Slope(Samples(ps, a, base.value, false), denom);
    var y := Slope(Samples(ps, a, base.value, true), denom);
    return AxisFit(Fits, Slopes(x, y));
  }

  datatype Profile = Fitted(model: Model) | BuiltIn | Crashed

  /** The first axis that does not fit decides. */
  function FirstFate(points: seq<Point>, base: Option<Xy>): Fate {
    if !FateOf(points, Wpx, base).Fits? then FateOf(points, Wpx, base)
    else if !FateOf(points, Wpy, base).Fits? then FateOf(points, Wpy, base)
    else FateOf(points, Wpz, base)
  }

  function Instead(f: Fate): Profile { if f.Raises? then Crashed else BuiltIn }

  /** load_profile_model on the points of the file, None if there is no file or it cannot be
      parsed: which of the three outcomes there is, and that a fitted model is least-squares. */
  method LoadProfileModel(file: Option<seq<Point>>) returns (r: Profile)
    ensures file.None? || FirstBaseline(file.value).None? ==> r == BuiltIn
    ensures file.Some? && FirstBaseline(file.value).Some? ==>
      var base := FirstBaseline(file.value).value.average;
      var fate := FirstFate(file.value, base);
      if fate.Fits? then r.Fitted? && base.Some?
                         && forall a: Axis :: IsFit(file.value, a, base.value, SlopesOf(r.model, a))
      else r == Instead(fate)
  {
    if file.None? {
      return BuiltIn;
    }
    var points := file.value;
    var i := 0;
    while i < |points| && points[i].registers != BASELINE
      invariant 0 <= i <= |points|
      invariant FirstBaseline(points[i..]) == FirstBaseline(points)
    {
      assert points[i..][1..] == points[i + 1..];
      i := i + 1;
    }
    if i == |points| {
      return BuiltIn;
    }
    var base := points[i].average;
    var x := FitAxis(points, Wpx, base);
    if !x.fate.Fits? {
      return Instead(x.fate);
    }
    var y := FitAxis(points, Wpy, base);
    if !y.fate.Fits? {
      return Instead(y.fate);
    }
    var z := FitAxis(points, Wpz, base);
    if !z.fate.Fits? {
      return Instead(z.fate);
    }
    r := Fitted(Model(x.slopes, y.slopes, z.slopes));
    forall a: Axis
      ensures IsFit(points, a, base.value, SlopesOf(r.model, a))
    {
      match a
      case Wpx =>
      case Wpy =>
      case Wpz =>
    }
  }

  // ---------------------------------------------------------------- the search

  function Predicted(current: Xy, from: Triple, to: Triple, m: Model): Xy {
    var dx, dy, dz := (to.wpx - from.wpx) as real, (to.wpy - from.wpy) as real, (to.wpz - from.wpz) as real;
    C.Xy(current.x + m.wpx.x * dx + m.wpy.x * dy + m.wpz.x * dz,
       current.y + m.wpx.y * dx + m.wpy.y * dy + m.wpz.y * dz)
  }

  type Root = real -> real

  function Distance(reference: Xy, at: Xy, root: Root): real {
    root((at.x - reference.x) * (at.x - reference.x) + (at.y - reference.y) * (at.y - reference.y))
  }

  function Abs(x: int): nat { if x < 0 then -x else x }

  function Movement(from: Triple, to: Triple): nat {
    Abs(to.wpx - from.wpx) + Abs(to.wpy - from.wpy) + Abs(to.wpz - from.wpz)
  }

  /** What one search depends on. */
  datatype Search = Search(reference: Xy, current: Xy, reductions: Triple, model: Model, maxReduction: nat, root: Root)

  function PredictedDistance(q: Search, c: Triple): real {
    Distance(q.reference, Predicted(q.current, q.reductions, c, q.model), q.root)
  }

  /** What one step of movement costs. */
  const PENALTY: real := 0.0000001

  function Score(q: Search, c: Triple): real {
    PredictedDistance(q, c) + Movement(q.reductions, c) as real * PENALTY
  }

  predicate InCube(c: Triple, max: nat) { 0 <= c.wpx <= max && 0 <= c.wpy <= max && 0 <= c.wpz <= max }

  /** The order in which the loops visit the cube. */
  predicate Earlier(c: Triple, d: Triple) {
    c.wpx < d.wpx || (c.wpx == d.wpx && (c.wpy < d.wpy || (c.wpy == d.wpy && c.wpz < d.wpz)))
  }

  /** Of the triples before the cursor, b is the first with the smallest score. */
  ghost predicate BestBefore(q: Search, b: Option<Triple>, cursor: Triple) {
    match b
    case None => forall c: Triple :: InCube(c, q.maxReduction) ==> !Earlier(c, cursor)
    case Some(t) =>
      InCube(t, q.maxReduction) && Earlier(t, cursor)
      && forall c: Triple :: InCube(c, q.maxReduction) && Earlier(c, cursor) ==>
           Score(q, t) <= Score(q, c) && (Earlier(c, t) ==> Score(q, t) < Score(q, c))
  }

  ghost predicate IsFirstMinimum(q: Search, best: Triple) {
    InCube(best, q.maxReduction)
    && forall c: Triple :: InCube(c, q.maxReduction) ==>
         Score(q, best) <= Score(q, c) && (Earlier(c, best) ==> Score(q, best) < Score(q, c))
  }

  lemma CursorMoves(q: Search, b: Option<Triple>, cursor: Triple, next: Triple)
    requires BestBefore(q, b, cursor)
    requires forall c: Triple :: InCube(c, q.maxReduction) ==> (Earlier(c, cursor) <==> Earlier(c, next))
    ensures BestBefore(q, b, next)
  {
  }

  lemma CursorVisits(q: Search, b: Option<Triple>, cursor: Triple)
    requires BestBefore(q, b, cursor) && InCube(cursor, q.maxReduction)
    ensures BestBefore(q, if b.None? || Score(q, cursor) < Score(q, b.value) then Some(cursor) else b,
                       cursor.(wpz := cursor.wpz + 1))
  {
  }

  /** The innermost loop: the column of the cube at one rx and ry. */
  method SearchColumn(q: Search, from: Option<Triple>, rx: nat, ry: nat) returns (found: Option<Triple>)
    requires rx <= q.maxReduction && ry <= q.maxReduction
    requires BestBefore(q, from, Triple(rx, ry, 0))
    ensures BestBefore(q, found, Triple(rx, ry + 1, 0))
  {
    found := from;
    var rz := 0;
    while rz <= q.maxReduction
      invariant 0 <= rz <= q.maxReduction + 1
      invariant BestBefore(q, found, Triple(rx, ry, rz))
    {
      var candidate := Triple(rx, ry, rz);
      CursorVisits(q, found, candidate);
      if found.None? || Score(q, candidate) < Score(q, found.value) {
        found := Some(candidate);
      }
      rz := rz + 1;
    }
    CursorMoves(q, found, Triple(rx, ry, rz), Triple(rx, ry + 1, 0));
  }

  /** The two inner loops: the slice of the cube at one rx. */
  method SearchSlice(q: Search, from: Option<Triple>, rx: nat) returns (found: Option<Triple>)
    requires rx <= q.maxReduction && BestBefore(q, from, Triple(rx, 0, 0))
    ensures BestBefore(q, found, Triple(rx + 1, 0, 0))
  {
    found := from;
    var ry := 0;
    while ry <= q.maxReduction
      invariant 0 <= ry <= q.maxReduction + 1
      invariant BestBefore(q, found, Triple(rx, ry, 0))
    {
      found := SearchColumn(q, found, rx, ry);
      ry := ry + 1;
    }
    CursorMoves(q, found, Triple(rx, ry, 0), Triple(rx + 1, 0, 0));
  }

  /** solve_candidate: the lexicographically first minimiser of the score over the whole cube. */
  method SolveCandidate(q: Search) returns (best: Triple)
    ensures IsFirstMinimum(q, best)
  {
    var found: Option<Triple> := None;
    var rx := 0;
    while rx <= q.maxReduction
      invariant 0 <= rx <= q.maxReduction + 1
      invariant BestBefore(q, found, Triple(rx, 0, 0))
    {
      found := SearchSlice(q, found, rx);
      rx := rx + 1;
    }
    assert InCube(Triple(0, 0, 0), q.maxReduction) && Earlier(Triple(0, 0, 0), Triple(rx, 0, 0));
    best := found.value;
  }

  /** Standing still costs no movement, so from inside the cube the chosen triple is never
      predicted to be farther off than what is measured now. */
  lemma BestIsNoWorse(q: Search, best: Triple)
    requires InCube(q.reductions, q.maxReduction) && IsFirstMinimum(q, best)
    ensures PredictedDistance(q, best) <= Distance(q.reference, q.current, q.root)
  {
  }

  predicate SameDistance(q: Search, c: Triple, d: Triple) { PredictedDistance(q, c) == PredictedDistance(q, d) }

  function AbsOf(x: int): int { if x >= 0 then x else -x }

  lemma MovementIsSteps(from: Triple, to: Triple)
    ensures Movement(from, to) == AbsOf(to.wpx - from.wpx) + AbsOf(to.wpy - from.wpy) + AbsOf(to.wpz - from.wpz)
  {
  }

  /** Of settings predicted equally far off, the choice takes the fewest register steps, and of
      those the first. */
  lemma TiesMoveLeast(q: Search, best: Triple, c: Triple)
    requires IsFirstMinimum(q, best) && InCube(c, q.maxReduction) && SameDistance(q, best, c)
    ensures Movement(q.reductions, best) <= Movement(q.reductions, c)
    ensures Movement(q.reductions, best) == Movement(q.reductions, c) && c != best ==> Earlier(best, c)
  {
    MovesCost(Movement(q.reductions, best), Movement(q.reductions, c), PredictedDistance(q, best), Score(q, best), Score(q, c));
  }

  lemma MovesCost(m: nat, n: nat, distance: real, a: real, b: real)
    requires a == distance + m as real * PENALTY && b == distance + n as real * PENALTY
    ensures a <= b ==> m <= n
    ensures m == n ==> a == b
  {
  }

  /** If root undoes squaring, distances are Euclidean. */
  lemma DistanceIsEuclidean(reference: Xy, at: Xy, root: Root)
    requires forall v: real :: v >= 0.0 ==> root(v) >= 0.0 && Square(root(v)) == v
    ensures var d := Distance(reference, at, root);
      d >= 0.0 && Square(d) == Square(at.x - reference.x) + Square(at.y - reference.y)
  {
    SquareIsPositiveOrZero(at.x - reference.x);
    SquareIsPositiveOrZero(at.y - reference.y);
  }

  lemma SquareIsPositiveOrZero(x: real)
    ensures Square(x) >= 0.0
  {
    SquareTimes(x, Square(x), 1.0);
  }

  // ---------------------------------------------------------------- the matching loop

  function RegistersOf(reductions: Triple): Triple {
    Triple(256 - reductions.wpx, 256 - reductions.wpy, 256 - reductions.wpz)
  }

  /** The registers of the panel, written one command at a time. */
  class Panel {
    var registers: Triple

    constructor (registers: Triple)
      ensures this.registers == registers
    {
      this.registers := registers;
    }

    /** written: how many of the three commands succeed before one fails. */
    method WriteTriplet(t: Triple, written: nat) returns (ok: bool)
      modifies this
      ensures ok <==> written >= 3
      ensures ok ==> registers == t
      ensures !ok ==> registers == Triple(if written >= 1 then t.wpx else old(registers).wpx,
                                          if written >= 2 then t.wpy else old(registers).wpy, old(registers).wpz)
    {
      if written < 1 {
        return false;
      }
      registers := registers.(wpx := t.wpx);
      if written < 2 {
        return false;
      }
      registers := registers.(wpy := t.wpy);
      if written < 3 {
        return false;
      }
      registers := registers.(wpz := t.wpz);
      return true;
    }
  }

  datatype Settings = Settings(model: Model, tolerance: real, maxReduction: nat, maxCorrections: int, root: Root)

  /** Measurements that are None raised an exception; written is the fate of each write. */
  datatype Oracle = Oracle(reference: Option<Xy>, measure: nat -> Option<Xy>, written: nat -> nat)

  datatype MatchResult = Raised
                       | Finished(matched: bool, best: Trial<Triple>, trials: seq<Trial<Triple>>, predicted: seq<real>)

  /** The search made after trial j - 1 was measured. */
  function SearchAt(s: Settings, o: Oracle, trials: seq<Trial<Triple>>, j: nat): Search
    requires 1 <= j <= |trials| && o.reference.Some? && o.measure(j - 1).Some?
  {
    Search(o.reference.value, o.measure(j - 1).value, trials[j - 1].setting, s.model, s.maxReduction, s.root)
  }

  /** Trial j was measured and, unless it is the baseline, is what the search chose from the trial
      before it: another setting, predicted to be no farther off than that trial was. */
  ghost predicate TriedAt(s: Settings, o: Oracle, trials: seq<Trial<Triple>>, predicted: seq<real>, j: nat)
    requires j < |trials| == |predicted| + 1 && o.reference.Some?
  {
    && InCube(trials[j].setting, s.maxReduction)
    && o.measure(j).Some?
    && trials[j].distance == Distance(o.reference.value, o.measure(j).value, s.root)
    && (j == 0 ==> trials[j].setting == Triple(0, 0, 0))
    && (j >= 1 ==> o.measure(j - 1).Some? && IsChosen(SearchAt(s, o, trials, j), trials[j].setting, predicted[j - 1])
                   && predicted[j - 1] <= trials[j - 1].distance && trials[j].setting != trials[j - 1].setting)
  }

  ghost predicate IsChosen(q: Search, setting: Triple, predicted: real) {
    IsFirstMinimum(q, setting) && predicted == PredictedDistance(q, setting)
  }

  ghost predicate Tried(s: Settings, o: Oracle, trials: seq<Trial<Triple>>, predicted: seq<real>) {
    && o.reference.Some? && |trials| == |predicted| + 1
    && forall j: nat :: j < |trials| ==> TriedAt(s, o, trials, predicted, j)
  }

  lemma TriedOneMore(s: Settings, o: Oracle, trials: seq<Trial<Triple>>, predicted: seq<real>,
                     t: Trial<Triple>, p: real)
    requires Tried(s, o, trials, predicted) && o.measure(|trials| - 1).Some? && o.measure(|trials|).Some?
    requires IsChosen(SearchAt(s, o, trials, |trials|), t.setting, p)
    requires p <= trials[|trials| - 1].distance && t.setting != trials[|trials| - 1].setting
    requires t.distance == Distance(o.reference.value, o.measure(|trials|).value, s.root)
    ensures Tried(s, o, trials + [t], predicted + [p])
  {
    forall j: nat | j < |trials| + 1
      ensures TriedAt(s, o, trials + [t], predicted + [p], j)
    {
      if j < |trials| {
        assert TriedAt(s, o, trials, predicted, j);
      }
      if j >= 1 {
        assert SearchAt(s, o, trials + [t], j) == SearchAt(s, o, trials, j);
      }
    }
  }

  /** The model knows no better setting than the one measured last. */
  ghost predicate NoBetterMove(s: Settings, o: Oracle, trials: seq<Trial<Triple>>) {
    && trials != [] && o.reference.Some? && o.measure(|trials| - 1).Some?
    && IsFirstMinimum(SearchAt(s, o, trials, |trials|), trials[|trials| - 1].setting)
  }

  datatype StepResult = Stuck | Failed | Moved(trial: Trial<Triple>, predicted: real)

  /** One pass of the loop: search, write, measure. */
  method Correct(panel: Panel, s: Settings, o: Oracle, iteration: nat, current: Xy,
                 ghost trials: seq<Trial<Triple>>, ghost predicted: seq<real>, reductions: Triple)
    returns (r: StepResult)
    requires iteration >= 1 && |trials| == iteration && Tried(s, o, trials, predicted)
    requires reductions == trials[iteration - 1].setting && o.measure(iteration - 1) == Some(current)
    modifies panel
    ensures r.Stuck? ==> NoBetterMove(s, o, trials) && panel.registers == old(panel.registers)
    ensures r.Moved? ==> Tried(s, o, trials + [r.trial], predicted + [r.predicted])
                         && panel.registers == RegistersOf(r.trial.setting)
  {
    assert TriedAt(s, o, trials, predicted, iteration - 1);
    var q := Search(o.reference.value, current, reductions, s.model, s.maxReduction, s.root);
    var candidate := SolveCandidate(q);
    if candidate == reductions {
      return Stuck;
    }
    var ok := panel.WriteTriplet(RegistersOf(candidate), o.written(iteration + 1));
    if !ok || o.measure(iteration).None? {
      return Failed;
    }
    BestIsNoWorse(q, candidate);
    var trial := Trial(candidate, Distance(o.reference.value, o.measure(iteration).value, s.root));
    TriedOneMore(s, o, trials, predicted, trial, PredictedDistance(q, candidate));
    return Moved(trial, PredictedDistance(q, candidate));
  }

  function Limit(s: Settings): nat { if s.maxCorrections >= 1 then s.maxCorrections else 1 }

  /** What a normal return of a run means: every trial after the baseline is the search's choice
      from the one before; the run went on exactly while it was out of tolerance; and if it never
      got there, all corrections were used or the model knew no better setting. */
  ghost predicate IsOutcome(s: Settings, o: Oracle, r: MatchResult)
    requires r.Finished?
  {
    && Tried(s, o, r.trials, r.predicted)
    && |r.trials| <= 1 + (if s.maxCorrections > 1 then s.maxCorrections else 1)
    && IsFirstBest(r.best, r.trials)
    && (r.matched <==> r.best.distance <= s.tolerance)
    && (forall j :: 0 <= j < |r.trials| - 1 ==> r.trials[j].distance > s.tolerance)
    && (!r.matched ==> |r.trials| == 1 + (if s.maxCorrections > 1 then s.maxCorrections else 1)
                       || NoBetterMove(s, o, r.trials))
  }

  /** run_match on reductions: a normal return leaves the registers at the first of the closest
      settings measured, the unadjusted one included. */
  method RunMatch(panel: Panel, s: Settings, o: Oracle) returns (r: MatchResult)
    modifies panel
    ensures r.Finished? ==> IsOutcome(s, o, r) && panel.registers == RegistersOf(r.best.setting)
  {
    var ok := panel.WriteTriplet(UNITY, o.written(0));
    if !ok || o.reference.None? {
      return Raised;
    }
    ok := panel.WriteTriplet(UNITY, o.written(1));
    if !ok || o.measure(0).None? {
      return Raised;
    }
    var best := Trial(Triple(0, 0, 0), Distance(o.reference.value, o.measure(0).value, s.root));
    var trials: seq<Trial<Triple>>, predicted: seq<real> := [best], [];
    BaselineIsBest(best);
    assert TriedAt(s, o, trials, predicted, 0);
    var matched := best.distance <= s.tolerance;
    var iteration, reductions, stuck := 1, Triple(0, 0, 0), false;
    while iteration <= Limit(s) && best.distance > s.tolerance && !stuck
      invariant 1 <= iteration <= Limit(s) + 1 && |trials| == iteration
      invariant Tried(s, o, trials, predicted) && IsFirstBest(best, trials)
      invariant matched <==> best.distance <= s.tolerance
      invariant reductions == trials[iteration - 1].setting
      invariant panel.registers == RegistersOf(reductions)
      invariant matched ==> best.setting == reductions
      invariant forall j :: 0 <= j < |trials| - 1 ==> trials[j].distance > s.tolerance
      invariant stuck ==> NoBetterMove(s, o, trials)
      decreases Limit(s) + 1 - iteration, !stuck
    {
      assert TriedAt(s, o, trials, predicted, iteration - 1);
      StillFar(best, trials, s.tolerance);
      var step := Correct(panel, s, o, iteration, o.measure(iteration - 1).value, trials, predicted, reductions);
      match step
      case Failed => return Raised;
      case Stuck => stuck := true;
      case Moved(trial, p) =>
        KeepBest(best, trials, trial);
        trials, predicted, reductions := trials + [trial], predicted + [p], trial.setting;
        if trial.distance < best.distance {
          best := trial;
        }
        if trial.distance <= s.tolerance {
          matched := true;
        }
        iteration := iteration + 1;
    }
    if !matched {
      ok := panel.WriteTriplet(RegistersOf(best.setting), o.written(Limit(s) + 2));
      if !ok {
        return Raised;
      }
    }
    r := Finished(matched, best, trials, predicted);
  }

  lemma StillFar(best: Trial<Triple>, trials: seq<Trial<Triple>>, tolerance: real)
    requires IsFirstBest(best, trials) && best.distance > tolerance
    ensures forall j :: 0 <= j < |trials| ==> trials[j].distance > tolerance
  {
  }

  // ---------------------------------------------------------------- panels that respond linearly

  function Reduction(register: int): real { (256 - register) as real }

  /** What a panel shows whose response is linear in how far its registers are below 256. */
  function ShownAt(base: Xy, m: Model, r: Triple): Xy {
    C.Xy(base.x + m.wpx.x * Reduction(r.wpx) + m.wpy.x * Reduction(r.wpy) + m.wpz.x * Reduction(r.wpz),
         base.y + m.wpx.y * Reduction(r.wpx) + m.wpy.y * Reduction(r.wpy) + m.wpz.y * Reduction(r.wpz))
  }

  lemma MoveAdds(base: real, sx: real, sy: real, sz: real, x: real, y: real, z: real, dx: real, dy: real, dz: real)
    ensures base + sx * x + sy * y + sz * z + sx * dx + sy * dy + sz * dz
         == base + sx * (x + dx) + sy * (y + dy) + sz * (z + dz)
  {
    Distribute(sx, x, dx);
    Distribute(sy, y, dy);
    Distribute(sz, z, dz);
  }

  lemma ReductionsMove(from: int, to: int)
    ensures Reduction(256 - from) + (to - from) as real == Reduction(256 - to)
  {
  }

  /** On such a panel the prediction from any measured setting to any other is exactly what is
      measured there. */
  lemma PredictionIsExact(base: Xy, m: Model, from: Triple, to: Triple)
    ensures Predicted(ShownAt(base, m, RegistersOf(from)), from, to, m) == ShownAt(base, m, RegistersOf(to))
  {
    var u, v := RegistersOf(from), RegistersOf(to);
    var x, y, z := Reduction(u.wpx), Reduction(u.wpy), Reduction(u.wpz);
    var dx, dy, dz := (to.wpx - from.wpx) as real, (to.wpy - from.wpy) as real, (to.wpz - from.wpz) as real;
    ReductionsMove(from.wpx, to.wpx);
    ReductionsMove(from.wpy, to.wpy);
    ReductionsMove(from.wpz, to.wpz);
    PredictionMoves(ShownAt(base, m, u), base, m, from, to, x, y, z, dx, dy, dz);
    ShownMoves(ShownAt(base, m, v), base, m, v, x + dx, y + dy, z + dz);
  }

  lemma PredictionMoves(at: Xy, base: Xy, m: Model, from: Triple, to: Triple, x: real, y: real, z: real,
                        dx: real, dy: real, dz: real)
    requires at.x == base.x + m.wpx.x * x + m.wpy.x * y + m.wpz.x * z
    requires at.y == base.y + m.wpx.y * x + m.wpy.y * y + m.wpz.y * z
    requires dx == (to.wpx - from.wpx) as real && dy == (to.wpy - from.wpy) as real && dz == (to.wpz - from.wpz) as real
    ensures Predicted(at, from, to, m).x == base.x + m.wpx.x * (x + dx) + m.wpy.x * (y + dy) + m.wpz.x * (z + dz)
    ensures Predicted(at, from, to, m).y == base.y + m.wpx.y * (x + dx) + m.wpy.y * (y + dy) + m.wpz.y * (z + dz)
  {
    MoveAdds(base.x, m.wpx.x, m.wpy.x, m.wpz.x, x, y, z, dx, dy, dz);
    MoveAdds(base.y, m.wpx.y, m.wpy.y, m.wpz.y, x, y, z, dx, dy, dz);
  }

  lemma ShownMoves(at: Xy, base: Xy, m: Model, v: Triple, x: real, y: real, z: real)
    requires at == ShownAt(base, m, v) && x == Reduction(v.wpx) && y == Reduction(v.wpy) && z == Reduction(v.wpz)
    ensures at.x == base.x + m.wpx.x * x + m.wpy.x * y + m.wpz.x * z
    ensures at.y == base.y + m.wpx.y * x + m.wpy.y * y + m.wpz.y * z
  {
  }

  /** The point lies on the line of these slopes through the baseline. */
  predicate LiesOn(p: Point, a: Axis, base: Xy, s: Slopes) {
    a in p.registers
    && p.average == Some(C.Xy(base.x + s.x * (256.0 - p.registers[a]), base.y + s.y * (256.0 - p.registers[a])))
  }

  predicate OnSlope(x: Sample, m: real) { x.r == m * x.d }

  lemma {:induction false} ResidualsOnLine(s: seq<Sample>, m: real)
    requires forall i :: 0 <= i < |s| ==> OnSlope(s[i], m)
    ensures Residuals(s, m) == 0.0
  {
    if s != [] {
      ResidualsOnLine(s[..|s| - 1], m);
    }
  }

  lemma {:induction false} ResidualsArePositive(s: seq<Sample>, m: real)
    ensures Residuals(s, m) >= 0.0
  {
    if s != [] {
      var last := s[|s| - 1];
      ResidualsArePositive(s[..|s| - 1], m);
      SquareTimes(OffBy(m, last), Square(OffBy(m, last)), 1.0);
    }
  }

  lemma LineIsFitted(s: seq<Sample>, m: real, fit: real)
    requires IsLeastSquares(s, fit) && forall i :: 0 <= i < |s| ==> OnSlope(s[i], m)
    ensures fit == m
  {
    ResidualsOnLine(s, m);
    ResidualsArePositive(s, fit);
    assert Residuals(s, fit) <= Residuals(s, m);
  }

  lemma WholeIsTruncated(v: real)
    requires v == v.Floor as real
    ensures Truncated(v) as real == v
  {
    if v < 0.0 {
      assert -v == (-v.Floor) as real;
    }
  }

  lemma WholeReduction(v: real)
    requires v == v.Floor as real
    ensures (256 - Truncated(v)) as real == 256.0 - v
  {
    WholeIsTruncated(v);
  }

  lemma SampleLiesOn(ps: seq<Point>, a: Axis, base: Xy, s: Slopes, i: nat)
    requires HaveRegister(ps, a) && HaveAverage(ps) && i < |ps| && LiesOn(ps[i], a, base, s)
    requires ps[i].registers[a] == ps[i].registers[a].Floor as real
    ensures OnSlope(Samples(ps, a, base, false)[i], s.x) && OnSlope(Samples(ps, a, base, true)[i], s.y)
  {
    WholeReduction(ps[i].registers[a]);
    PointOnSlopes(ps[i], a, base, s, 256.0 - ps[i].registers[a]);
  }

  lemma PointOnSlopes(p: Point, a: Axis, base: Xy, s: Slopes, d: real)
    requires LiesOn(p, a, base, s) && d == 256.0 - p.registers[a]
    ensures OnSlope(Sample(d, p.average.value.x - base.x), s.x) && OnSlope(Sample(d, p.average.value.y - base.y), s.y)
  {
  }

  /** A profile measured exactly on a linear panel is fitted with that panel's slopes. */
  lemma LinearProfileIsFitted(points: seq<Point>, a: Axis, base: Xy, s: Slopes, fit: Slopes)
    requires WholeRegisters(points) && IsFit(points, a, base, fit)
    requires forall p :: p in points && Moves(p, a) ==> LiesOn(p, a, base, s)
    ensures fit == s
  {
    var ps := Moving(points, a);
    MovingMembers(points, a);
    var xs, ys := Samples(ps, a, base, false), Samples(ps, a, base, true);
    forall i | 0 <= i < |ps|
      ensures OnSlope(xs[i], s.x) && OnSlope(ys[i], s.y)
    {
      assert ps[i] in ps;
      SampleLiesOn(ps, a, base, s, i);
    }
    LineIsFitted(xs, s.x, fit.x);
    LineIsFitted(ys, s.y, fit.y);
  }

  lemma MovementIsBounded(from: Triple, to: Triple, max: nat)
    requires InCube(from, max) && InCube(to, max)
    ensures Movement(from, to) <= 3 * max
  {
  }

  /** If the search knows the panel and its reference can be reached, its choice shows the
      reference up to the penalty on moving. */
  lemma ChoiceReachesReference(q: Search, base: Xy, best: Triple, target: Triple)
    requires InCube(q.reductions, q.maxReduction) && InCube(target, q.maxReduction) && IsFirstMinimum(q, best)
    requires q.current == ShownAt(base, q.model, RegistersOf(q.reductions)) && q.root(0.0) == 0.0
    requires q.reference == ShownAt(base, q.model, RegistersOf(target))
    ensures Distance(q.reference, ShownAt(base, q.model, RegistersOf(best)), q.root)
         <= (3 * q.maxReduction) as real * 0.0000001
  {
    PredictionIsExact(base, q.model, q.reductions, best);
    PredictionIsExact(base, q.model, q.reductions, target);
    MovementIsBounded(q.reductions, target, q.maxReduction);
    NoDistance(q.reference, q.root);
    assert Score(q, best) <= Score(q, target);
    AtMostPenalty(PredictedDistance(q, best), Movement(q.reductions, best), Movement(q.reductions, target),
                  3 * q.maxReduction);
  }

  lemma NoDistance(at: Xy, root: Root)
    requires root(0.0) == 0.0
    ensures Distance(at, at, root) == 0.0
  {
  }

  lemma AtMostPenalty(distance: real, moved: nat, target: nat, bound: nat)
    requires distance + moved as real * PENALTY <= 0.0 + target as real * PENALTY && target <= bound
    ensures distance <= bound as real * PENALTY
  {
  }

  /** The panel of a run answers linearly with the slopes of the model. */
  ghost predicate AnswersLinearly(s: Settings, o: Oracle, base: Xy, trials: seq<Trial<Triple>>) {
    forall j: nat :: j < |trials| ==> o.measure(j) == Some(ShownAt(base, s.model, RegistersOf(trials[j].setting)))
  }

  /** A run on such a panel towards a reference it can show is matched, by the first correction at
      the latest, if the tolerance is not below what the penalty can cost. */
  lemma LinearPanelIsMatched(s: Settings, o: Oracle, r: MatchResult, base: Xy, target: Triple)
    requires r.Finished? && IsOutcome(s, o, r) && AnswersLinearly(s, o, base, r.trials)
    requires InCube(target, s.maxReduction) && o.reference == Some(ShownAt(base, s.model, RegistersOf(target)))
    requires s.root(0.0) == 0.0 && s.tolerance >= (3 * s.maxReduction) as real * 0.0000001
    ensures r.matched && |r.trials| <= 2
  {
    assert TriedAt(s, o, r.trials, r.predicted, 0);
    if |r.trials| == 1 {
      if !r.matched {
        ChoiceReachesReference(SearchAt(s, o, r.trials, 1), base, r.trials[0].setting, target);
      }
    } else {
      assert TriedAt(s, o, r.trials, r.predicted, 1);
      assert IsChosen(SearchAt(s, o, r.trials, 1), r.trials[1].setting, r.predicted[0]);
      ChoiceReachesReference(SearchAt(s, o, r.trials, 1), base, r.trials[1].setting, target);
      assert r.trials[1].distance <= s.tolerance;
    }
  }
}
