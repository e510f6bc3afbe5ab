/** The colorimetry of the white-point calibration, over the real numbers: the 3x3 solve that
    turns a target chromaticity into channel gains, headroom normalisation, and the 16-bit
    fixed-point step of the gain registers. */
module ColorMath {
  import opened Basics

  datatype Result<+T> = Ok(value: T) | Err

  /** A column of tristimulus values, or one value per channel. */
  datatype Vec = Vec(a: real, b: real, c: real)

  /** The measured light of the three channels at full code. */
  datatype Primaries = Primaries(r: Vec, g: Vec, b: Vec)

  function Scale(k: real, v: Vec): Vec { Vec(k * v.a, k * v.b, k * v.c) }

  function Times(g: Vec, h: Vec): Vec { Vec(g.a * h.a, g.b * h.b, g.c * h.c) }

  /** Each channel's light scaled by its gain. */
  function Weighted(p: Primaries, g: Vec): Primaries {
    Primaries(Scale(g.a, p.r), Scale(g.b, p.g), Scale(g.c, p.b))
  }

  /** The light of all three channels together. */
  function Mix(p: Primaries, g: Vec): Vec {
    Vec(p.r.a * g.a + p.g.a * g.b + p.b.a * g.c,
        p.r.b * g.a + p.g.b * g.b + p.b.b * g.c,
        p.r.c * g.a + p.g.c * g.b + p.b.c * g.c)
  }

  const UNIT: Vec := Vec(1.0, 1.0, 1.0)

  function White(p: Primaries): Vec { Mix(p, UNIT) }

  /** White is the light of the three channels at full code. */
  lemma WhiteIsSum(p: Primaries)
    ensures White(p) == Vec(p.r.a + p.g.a + p.b.a, p.r.b + p.g.b + p.b.b, p.r.c + p.g.c + p.b.c)
  {
  }

  // ---------------------------------------------------------------- chromaticity

  function ToXYZ(x: real, y: real, luminance: real): Result<Vec> {
    if y <= 0.0 then Err else Ok(Vec(x * luminance / y, luminance, (1.0 - x - y) * luminance / y))
  }

  function Total(v: Vec): real { v.a + v.b + v.c }

  datatype Xy = Xy(x: real, y: real)

  function ToXy(v: Vec): Result<Xy> {
    if Total(v) <= 0.0 then Err else Ok(Xy(v.a / Total(v), v.b / Total(v)))
  }

  /** Chromaticities are the shares of X and Y in the sum of all three. */
  lemma ChromaticityIsShare(v: Vec, at: Xy)
    ensures ToXy(v) == Ok(at) <==> v.a + v.b + v.c > 0.0 && at.x * (v.a + v.b + v.c) == v.a && at.y * (v.a + v.b + v.c) == v.b
  {
    var t := v.a + v.b + v.c;
    if t > 0.0 {
      QuotientTimesDivisor(v.a, t);
      QuotientTimesDivisor(v.b, t);
      if at.x * t == v.a && at.y * t == v.b {
        Cancel(v.a, t, at.x);
        Cancel(v.b, t, at.y);
      }
    }
  }

  /** Chromaticity and luminance determine the tristimulus values and come back from them. */
  lemma XyzRoundTrip(x: real, y: real, luminance: real)
    requires y > 0.0 && luminance > 0.0
    ensures ToXYZ(x, y, luminance).Ok?
    ensures ToXy(ToXYZ(x, y, luminance).value) == Ok(Xy(x, y))
  {
    var k := luminance / y;
    var v := ToXYZ(x, y, luminance).value;
    assert k > 0.0;
    assert v.a == x * k && v.c == (1.0 - x - y) * k;
    assert y * k == luminance;
    assert Total(v) == x * k + y * k + (1.0 - x - y) * k == k;
    assert x * k / k == x && y * k / k == y;
  }

  lemma ScalingKeepsChromaticity(k: real, v: Vec)
    requires k > 0.0
    ensures ToXy(Scale(k, v)) == ToXy(v)
  {
    var t, w := Total(v), Scale(k, v);
    TotalScales(k, v);
    SignScales(k, t);
    if t > 0.0 {
      QuotientOfMultiples(w.a, Total(w), k, v.a, t);
      QuotientOfMultiples(w.b, Total(w), k, v.b, t);
    }
  }

  lemma TotalScales(k: real, v: Vec)
    ensures Total(Scale(k, v)) == k * Total(v)
  {
  }

  lemma SignScales(k: real, t: real)
    requires k > 0.0
    ensures k * t > 0.0 <==> t > 0.0
  {
  }

  lemma QuotientOfMultiples(ka: real, kt: real, k: real, a: real, t: real)
    requires k > 0.0 && t > 0.0 && kt > 0.0 && ka == k * a && kt == k * t
    ensures ka / kt == a / t
  {
  }

  // ---------------------------------------------------------------- the 3x3 solve

  /** The determinant of the matrix whose columns are the given vectors. */
  function Det(u: Vec, v: Vec, w: Vec): real {
    u.a * (v.b * w.c - w.b * v.c) - v.a * (u.b * w.c - w.b * u.c) + w.a * (u.b * v.c - v.b * u.c)
  }

  function DetOf(p: Primaries): real { Det(p.r, p.g, p.b) }

  predicate Singular(p: Primaries) { -0.000000000001 < DetOf(p) < 0.000000000001 }

  /** solve_3x3: one column at a time replaced by the target. */
  function Solve(p: Primaries, t: Vec): Result<Vec> {
    if Singular(p) then Err
    else Ok(Vec(Det(t, p.g, p.b) / DetOf(p), Det(p.r, t, p.b) / DetOf(p), Det(p.r, p.g, t) / DetOf(p)))
  }

  /** Three channels that each excite one coordinate are singular exactly if their product is tiny. */
  lemma PureChannelsAreRegular(a: real, b: real, c: real, volume: real)
    requires volume == a * (b * c)
    ensures Singular(Primaries(Vec(a, 0.0, 0.0), Vec(0.0, b, 0.0), Vec(0.0, 0.0, c)))
       <==> -0.000000000001 < volume < 0.000000000001
  {
  }

  /** No channel of a regular matrix can be replaced by the others: only gains of zero mix to no
      light. */
  lemma RegularIsIndependent(p: Primaries, g: Vec)
    requires !Singular(p) && Mix(p, g) == Vec(0.0, 0.0, 0.0)
    ensures g == Vec(0.0, 0.0, 0.0)
  {
    SolveIsUnique(p, g);
    SolveIsUnique(p, Vec(0.0, 0.0, 0.0));
    assert Mix(p, Vec(0.0, 0.0, 0.0)) == Vec(0.0, 0.0, 0.0);
  }

  lemma CramerRowA(u: Vec, v: Vec, w: Vec, t: Vec)
    ensures u.a * Det(t, v, w) + v.a * Det(u, t, w) + w.a * Det(u, v, t) == t.a * Det(u, v, w)
  {
  }

  lemma CramerRowB(u: Vec, v: Vec, w: Vec, t: Vec)
    ensures u.b * Det(t, v, w) + v.b * Det(u, t, w) + w.b * Det(u, v, t) == t.b * Det(u, v, w)
  {
  }

  lemma CramerRowC(u: Vec, v: Vec, w: Vec, t: Vec)
    ensures u.c * Det(t, v, w) + v.c * Det(u, t, w) + w.c * Det(u, v, t) == t.c * Det(u, v, w)
  {
  }

  lemma DividedRow(x: real, y: real, z: real, a: real, b: real, c: real, d: real, t: real)
    requires d != 0.0 && x * a + y * b + z * c == t * d
    ensures x * (a / d) + y * (b / d) + z * (c / d) == t
  {
  }

  /** The solved gains reproduce the target exactly. */
  lemma SolveSolves(p: Primaries, t: Vec)
    requires !Singular(p)
    ensures Mix(p, Solve(p, t).value) == t
  {
    var d := DetOf(p);
    var da, db, dc := Det(t, p.g, p.b), Det(p.r, t, p.b), Det(p.r, p.g, t);
    CramerRowA(p.r, p.g, p.b, t);
    CramerRowB(p.r, p.g, p.b, t);
    CramerRowC(p.r, p.g, p.b, t);
    DividedRow(p.r.a, p.g.a, p.b.a, da, db, dc, d, t.a);
    DividedRow(p.r.b, p.g.b, p.b.b, da, db, dc, d, t.b);
    DividedRow(p.r.c, p.g.c, p.b.c, da, db, dc, d, t.c);
  }

  lemma DetOfMixA(u: Vec, v: Vec, w: Vec, g: Vec)
    ensures Det(Mix(Primaries(u, v, w), g), v, w) == g.a * Det(u, v, w)
  {
  }

  lemma DetOfMixB(u: Vec, v: Vec, w: Vec, g: Vec)
    ensures Det(u, Mix(Primaries(u, v, w), g), w) == g.b * Det(u, v, w)
  {
  }

  lemma DetOfMixC(u: Vec, v: Vec, w: Vec, g: Vec)
    ensures Det(u, v, Mix(Primaries(u, v, w), g)) == g.c * Det(u, v, w)
  {
  }

  lemma Cancel(n: real, d: real, x: real)
    requires d != 0.0 && n == x * d
    ensures n / d == x
  {
  }

  /** No other gains do: whatever mixes to the target is what the solve returns. */
  lemma SolveIsUnique(p: Primaries, g: Vec)
    requires !Singular(p)
    ensures Solve(p, Mix(p, g)) == Ok(g)
  {
    DetOfMixA(p.r, p.g, p.b, g);
    DetOfMixB(p.r, p.g, p.b, g);
    DetOfMixC(p.r, p.g, p.b, g);
    var d := DetOf(p);
    assert Primaries(p.r, p.g, p.b) == p;
    var t := Mix(p, g);
    Cancel(Det(t, p.g, p.b), d, g.a);
    Cancel(Det(p.r, t, p.b), d, g.b);
    Cancel(Det(p.r, p.g, t), d, g.c);
  }

  /** solve_linear_gains with the luminance of the unweighted white. */
  function SolveLinearGains(p: Primaries, x: real, y: real): Result<Vec> {
    match ToXYZ(x, y, White(p).b)
    case Err => Err
    case Ok(t) => Solve(p, t)
  }

  /** The solve moves white exactly to the target chromaticity and keeps its luminance. */
  lemma GainsHitTarget(p: Primaries, x: real, y: real)
    requires !Singular(p) && White(p).b > 0.0 && y > 0.0
    ensures SolveLinearGains(p, x, y).Ok?
    ensures var light := Mix(p, SolveLinearGains(p, x, y).value);
      ToXy(light) == Ok(Xy(x, y)) && light.b == White(p).b
  {
    XyzRoundTrip(x, y, White(p).b);
    SolveSolves(p, ToXYZ(x, y, White(p).b).value);
  }

  lemma SolveFailsExactlyWhen(p: Primaries, x: real, y: real)
    ensures SolveLinearGains(p, x, y).Err? <==> y <= 0.0 || Singular(p)
  {
  }

  /** A white already on target asks for no correction, and only such a white does. */
  lemma NoCorrectionIffOnTarget(p: Primaries, x: real, y: real)
    requires !Singular(p) && White(p).b > 0.0 && y > 0.0
    ensures SolveLinearGains(p, x, y) == Ok(UNIT) <==> ToXy(White(p)) == Ok(Xy(x, y))
  {
    GainsHitTarget(p, x, y);
    if ToXy(White(p)) == Ok(Xy(x, y)) {
      XyDetermines(White(p), x, y);
      SolveIsUnique(p, UNIT);
    }
  }

  lemma XyDetermines(w: Vec, x: real, y: real)
    requires y > 0.0 && ToXy(w) == Ok(Xy(x, y))
    ensures ToXYZ(x, y, w.b) == Ok(w)
  {
    var s := Total(w);
    QuotientTimesDivisor(w.a, s);
    QuotientTimesDivisor(w.b, s);
    assert x * s == w.a && y * s == w.b;
    Cancel(x * w.b, y, w.a) by { assert x * w.b == x * (y * s) == (x * s) * y; }
    Cancel((1.0 - x - y) * w.b, y, w.c) by {
      assert (1.0 - x - y) * s == s - x * s - y * s == w.c;
      assert (1.0 - x - y) * w.b == ((1.0 - x - y) * s) * y;
    }
    var t := ToXYZ(x, y, w.b).value;
    assert t.a == (x * w.b) / y == w.a;
    assert t.b == w.b;
    assert t.c == ((1.0 - x - y) * w.b) / y == w.c;
    assert t == w;
  }

  // ---------------------------------------------------------------- headroom

  function Largest(g: Vec): real { Max(g.a, Max(g.b, g.c)) }

  function NormalizeToHeadroom(g: Vec, maxGain: real): Result<Vec> {
    if Largest(g) <= 0.0 then Err
    else Ok(Scale(if Largest(g) > maxGain then maxGain / Largest(g) else 1.0, g))
  }

  lemma RowScales(x: real, y: real, z: real, k: real, g: Vec, h: Vec, total: real)
    requires total == x * g.a + y * g.b + z * g.c && h == Scale(k, g)
    ensures x * h.a + y * h.b + z * h.c == k * total
  {
  }

  lemma MixScales(p: Primaries, k: real, g: Vec)
    ensures Mix(p, Scale(k, g)) == Scale(k, Mix(p, g))
  {
    MixOfScaled(p, k, g, Scale(k, g), Mix(p, g));
  }

  lemma MixOfScaled(p: Primaries, k: real, g: Vec, h: Vec, m: Vec)
    requires h == Scale(k, g) && m == Mix(p, g)
    ensures Mix(p, h) == Vec(k * m.a, k * m.b, k * m.c)
  {
    RowScales(p.r.a, p.g.a, p.b.a, k, g, h, m.a);
    RowScales(p.r.b, p.g.b, p.b.b, k, g, h, m.b);
    RowScales(p.r.c, p.g.c, p.b.c, k, g, h, m.c);
  }

  lemma LargestScales(k: real, g: Vec)
    requires k > 0.0
    ensures Largest(Scale(k, g)) == k * Largest(g)
  {
    MaxScales(k, g.b, g.c, k * g.b, k * g.c);
    MaxScales(k, g.a, Max(g.b, g.c), k * g.a, k * Max(g.b, g.c));
  }

  lemma MaxScales(k: real, x: real, y: real, kx: real, ky: real)
    requires k > 0.0 && kx == k * x && ky == k * y
    ensures Max(kx, ky) == k * Max(x, y)
  {
    KeepsOrder(k, x, y);
    KeepsOrder(k, y, x);
  }

  lemma KeepsOrder(k: real, x: real, y: real)
    requires k > 0.0
    ensures x <= y ==> k * x <= k * y
  {
  }

  function HeadroomScale(l: real, maxGain: real): real
    requires l > 0.0
  {
    if l > maxGain then maxGain / l else 1.0
  }

  lemma HeadroomScaleFits(l: real, maxGain: real)
    requires maxGain > 0.0 && l > 0.0
    ensures HeadroomScale(l, maxGain) > 0.0
    ensures HeadroomScale(l, maxGain) * l == Min(l, maxGain)
  {
  }

  lemma NormalizedIsScaled(g: Vec, maxGain: real)
    requires Largest(g) > 0.0
    ensures NormalizeToHeadroom(g, maxGain) == Ok(Scale(HeadroomScale(Largest(g), maxGain), g))
  {
  }

  /** Normalisation never changes the colour. */
  lemma HeadroomKeepsColour(p: Primaries, g: Vec, maxGain: real)
    requires maxGain > 0.0 && Largest(g) > 0.0
    ensures NormalizeToHeadroom(g, maxGain).Ok?
    ensures ToXy(Mix(p, NormalizeToHeadroom(g, maxGain).value)) == ToXy(Mix(p, g))
  {
    var k := HeadroomScale(Largest(g), maxGain);
    NormalizedIsScaled(g, maxGain);
    HeadroomScaleFits(Largest(g), maxGain);
    ScaledKeepsColour(p, k, g);
  }

  /** It brings the largest gain down to the headroom if it exceeds it, and otherwise leaves
      all gains alone. */
  lemma HeadroomBoundsGains(g: Vec, maxGain: real)
    requires maxGain > 0.0 && Largest(g) > 0.0
    ensures Largest(NormalizeToHeadroom(g, maxGain).value) == Min(Largest(g), maxGain)
    ensures Largest(g) <= maxGain ==> NormalizeToHeadroom(g, maxGain) == Ok(g)
    ensures var n := NormalizeToHeadroom(g, maxGain).value; n.a <= maxGain && n.b <= maxGain && n.c <= maxGain
    ensures Largest(g) in {g.a, g.b, g.c}
  {
    NormalizedIsScaled(g, maxGain);
    HeadroomScaleFits(Largest(g), maxGain);
    LargestScales(HeadroomScale(Largest(g), maxGain), g);
    if Largest(g) <= maxGain {
      ScaleByOne(g);
    }
  }

  lemma ScaleByOne(g: Vec)
    ensures Scale(1.0, g) == g
  {
  }

  lemma ScaledKeepsColour(p: Primaries, k: real, g: Vec)
    requires k > 0.0
    ensures ToXy(Mix(p, Scale(k, g))) == ToXy(Mix(p, g))
  {
    MixScales(p, k, g);
    ScalingKeepsChromaticity(k, Mix(p, g));
  }

  lemma RowWeighted(x: real, y: real, z: real, g: Vec, h: Vec)
    ensures g.a * x * h.a + g.b * y * h.b + g.c * z * h.c == x * (g.a * h.a) + y * (g.b * h.b) + z * (g.c * h.c)
  {
  }

  lemma MixOfWeighted(p: Primaries, g: Vec, h: Vec)
    ensures Mix(Weighted(p, g), h) == Mix(p, Times(g, h))
  {
    RowWeighted(p.r.a, p.g.a, p.b.a, g, h);
    RowWeighted(p.r.b, p.g.b, p.b.b, g, h);
    RowWeighted(p.r.c, p.g.c, p.b.c, g, h);
  }

  /** Why the loop converges: correcting the current gains without damping and normalising
      them puts the mixed light exactly on the target, from any current gains. */
  lemma UndampedStepHitsTarget(p: Primaries, linear: Vec, x: real, y: real)
    requires !Singular(Weighted(p, linear)) && White(Weighted(p, linear)).b > 0.0 && y > 0.0
    requires Largest(Times(linear, SolveLinearGains(Weighted(p, linear), x, y).value)) > 0.0
    ensures var correction := SolveLinearGains(Weighted(p, linear), x, y).value;
      ToXy(Mix(p, NormalizeToHeadroom(Times(linear, correction), 1.0).value)) == Ok(Xy(x, y))
  {
    GainsHitTarget(Weighted(p, linear), x, y);
    var correction := SolveLinearGains(Weighted(p, linear), x, y).value;
    MixOfWeighted(p, linear, correction);
    HeadroomKeepsColour(p, Times(linear, correction), 1.0);
  }

  // ---------------------------------------------------------------- fixed point

  function Nearest(x: real): int { (x + 0.5).Floor }

  function GainToFixed(gain: real, fracBits: nat): Result<int> {
    if gain < 0.0 then Err
    else
      var raw := Nearest(gain * (Pow2(fracBits) as real));
      if raw > 0xFFFF then Err else Ok(raw)
  }

  function FixedToGain(raw: int, fracBits: nat): real {
    raw as real / (Pow2(fracBits) as real)
  }

  /** The register value is the nearest one: at most half a step away. */
  lemma FixedIsNearest(gain: real, fracBits: nat)
    requires GainToFixed(gain, fracBits).Ok?
    ensures var raw := GainToFixed(gain, fracBits).value;
      0 <= raw <= 0xFFFF
      && -0.5 <= (FixedToGain(raw, fracBits) - gain) * (Pow2(fracBits) as real) <= 0.5
  {
    var s := Pow2(fracBits) as real;
    var raw := GainToFixed(gain, fracBits).value;
    assert gain * s >= 0.0;
    assert FixedToGain(raw, fracBits) * s == raw as real;
    assert (FixedToGain(raw, fracBits) - gain) * s == raw as real - gain * s;
  }

  lemma NearestOfInteger(x: real, n: int)
    requires x == n as real
    ensures Nearest(x) == n
  {
  }

  /** Reading a register back as a gain and writing it again changes nothing. */
  lemma FixedRoundTrip(raw: int, fracBits: nat)
    requires 0 <= raw <= 0xFFFF
    ensures GainToFixed(FixedToGain(raw, fracBits), fracBits) == Ok(raw)
  {
    var q := FixedToGain(raw, fracBits);
    QuotientTimesDivisor(raw as real, Pow2(fracBits) as real);
    FixedOfProduct(q, fracBits, raw);
  }

  lemma FixedOfProduct(gain: real, fracBits: nat, raw: int)
    requires 0 <= raw <= 0xFFFF && gain >= 0.0 && gain * (Pow2(fracBits) as real) == raw as real
    ensures GainToFixed(gain, fracBits) == Ok(raw)
  {
    NearestOfInteger(gain * (Pow2(fracBits) as real), raw);
  }

  /** Unity is one whole, in both directions. */
  lemma UnityIsOne(fracBits: nat)
    requires fracBits <= 15
    ensures FixedToGain(Pow2(fracBits), fracBits) == 1.0 && GainToFixed(1.0, fracBits) == Ok(Pow2(fracBits))
  {
    Pow2IsMonotone(fracBits, 15);
    FifteenBits();
    OneIsWhole(Pow2(fracBits), fracBits);
  }

  lemma OneIsWhole(one: nat, fracBits: nat)
    requires one == Pow2(fracBits) <= 0xFFFF
    ensures FixedToGain(one, fracBits) == 1.0 && GainToFixed(1.0, fracBits) == Ok(one)
  {
    var whole := Pow2(fracBits) as real;
    IsOne(one as real, whole);
    assert 1.0 * whole == one as real;
    FixedOfProduct(1.0, fracBits, one);
  }

  lemma IsOne(n: real, d: real)
    requires n == d > 0.0
    ensures n / d == 1.0
  {
  }

  lemma FifteenBits()
    ensures Pow2(15) == 0x8000
  {
    assert Pow2(5) == 32 && Pow2(10) == 0x400;
  }

  lemma {:induction false} Pow2IsMonotone(m: nat, n: nat)
    requires m <= n
    ensures Pow2(m) <= Pow2(n)
    decreases n
  {
    if m < n {
      Pow2IsMonotone(m, n - 1);
    }
  }

  lemma FixedIsMonotone(g: real, h: real, fracBits: nat)
    requires 0.0 <= g <= h && GainToFixed(h, fracBits).Ok?
    ensures GainToFixed(g, fracBits).Ok? && GainToFixed(g, fracBits).value <= GainToFixed(h, fracBits).value
  {
    var s := Pow2(fracBits) as real;
    assert (h - g) * s >= 0.0;
    assert g * s + 0.5 <= h * s + 0.5;
  }

  // ---------------------------------------------------------------- one correction

  datatype Gains = Gains(r: int, g: int, b: int)

  /** The settings of a run. damp, encode and decode stand for raising to the powers damping,
      1/gamma and gamma; nothing is assumed about them. */
  datatype Settings = Settings(x: real, y: real, tolerance: real, maxCorrections: int, fracBits: nat,
                               minGain: real, maxGain: real,
                               damp: real -> real, encode: real -> real, decode: real -> real,
                               hypot: (real, real) -> real)

  predicate Validated(s: Settings) {
    s.maxCorrections > 0 && 1 <= s.fracBits <= 15 && 0.0 <= s.minGain <= s.maxGain
  }

  function Clamp(v: real, lo: real, hi: real): real { Min(Max(v, lo), hi) }

  function Damped(c: Vec, s: Settings): Vec {
    Vec(s.damp(Max(0.000001, c.a)), s.damp(Max(0.000001, c.b)), s.damp(Max(0.000001, c.c)))
  }

  function CodeGain(v: real, s: Settings): real {
    Clamp(s.encode(Max(0.0, v)), s.minGain, s.maxGain)
  }

  /** The register triple of the next iteration, or the error one of its steps raises. */
  function NextCandidate(p: Primaries, linear: Vec, s: Settings): Result<Gains> {
    match SolveLinearGains(Weighted(p, linear), s.x, s.y)
    case Err => Err
    case Ok(correction) =>
      match NormalizeToHeadroom(Times(linear, Damped(correction, s)), 1.0)
      case Err => Err
      case Ok(n) => RegistersFor(n, s)
  }

  /** The registers for new linear gains. */
  function RegistersFor(n: Vec, s: Settings): Result<Gains> {
    var r, g, b := GainToFixed(CodeGain(n.a, s), s.fracBits), GainToFixed(CodeGain(n.b, s), s.fracBits),
                   GainToFixed(CodeGain(n.c, s), s.fracBits);
    if r.Err? || g.Err? || b.Err? then Err else Ok(Gains(r.value, g.value, b.value))
  }

  predicate Within(v: int, lo: Result<int>, hi: Result<int>) {
    (lo.Ok? ==> lo.value <= v) && (hi.Ok? ==> v <= hi.value) && 0 <= v <= 0xFFFF
  }

  lemma CodeGainInLimits(v: real, s: Settings)
    requires Validated(s) && GainToFixed(CodeGain(v, s), s.fracBits).Ok?
    ensures Within(GainToFixed(CodeGain(v, s), s.fracBits).value,
                   GainToFixed(s.minGain, s.fracBits), GainToFixed(s.maxGain, s.fracBits))
  {
    var c := CodeGain(v, s);
    FixedIsNearest(c, s.fracBits);
    FixedIsMonotone(s.minGain, c, s.fracBits);
    if GainToFixed(s.maxGain, s.fracBits).Ok? {
      FixedIsMonotone(c, s.maxGain, s.fracBits);
    }
  }

  /** Every triple an iteration writes stays within the configured gain limits and 16 bits. */
  lemma CandidateInLimits(p: Primaries, linear: Vec, s: Settings)
    requires Validated(s) && NextCandidate(p, linear, s).Ok?
    ensures var c := NextCandidate(p, linear, s).value;
      var lo, hi := GainToFixed(s.minGain, s.fracBits), GainToFixed(s.maxGain, s.fracBits);
      Within(c.r, lo, hi) && Within(c.g, lo, hi) && Within(c.b, lo, hi)
  {
    var correction := SolveLinearGains(Weighted(p, linear), s.x, s.y).value;
    var n := NormalizeToHeadroom(Times(linear, Damped(correction, s)), 1.0).value;
    CodeGainInLimits(n.a, s);
    CodeGainInLimits(n.b, s);
    CodeGainInLimits(n.c, s);
  }

  // ---------------------------------------------------------------- where a correction lands

  ghost predicate Undamped(s: Settings) { forall v: real :: s.damp(v) == v }

  ghost predicate EncodingIsUndone(s: Settings) { forall v: real :: v >= 0.0 ==> s.decode(s.encode(v)) == v }

  function Decoded(code: Vec, s: Settings): Vec { Vec(s.decode(code.a), s.decode(code.b), s.decode(code.c)) }

  function Encoded(g: Vec, s: Settings): Vec { Vec(s.encode(g.a), s.encode(g.b), s.encode(g.c)) }

  predicate AllWithin(v: Vec, lo: real, hi: real) { lo <= v.a <= hi && lo <= v.b <= hi && lo <= v.c <= hi }

  /** The floor of the correction, the headroom normalisation's sign and the gain limits leave the
      correction of this step as it is. */
  predicate Unclipped(p: Primaries, linear: Vec, s: Settings) {
    match SolveLinearGains(Weighted(p, linear), s.x, s.y)
    case Err => false
    case Ok(correction) =>
      correction.a >= 0.000001 && correction.b >= 0.000001 && correction.c >= 0.000001
      && match NormalizeToHeadroom(Times(linear, correction), 1.0)
         case Err => false
         case Ok(n) => n.a >= 0.0 && n.b >= 0.0 && n.c >= 0.0 && AllWithin(Encoded(n, s), s.minGain, s.maxGain)
  }

  /** The register is the one nearest to the gain. */
  predicate NearestRegister(raw: int, gain: real, fracBits: nat) {
    -0.5 <= raw as real - gain * (Pow2(fracBits) as real) <= 0.5
  }

  ghost predicate NearestRegisters(g: Gains, code: Vec, fracBits: nat) {
    NearestRegister(g.r, code.a, fracBits) && NearestRegister(g.g, code.b, fracBits) && NearestRegister(g.b, code.c, fracBits)
  }

  lemma FixedIsNearestRegister(gain: real, fracBits: nat)
    requires GainToFixed(gain, fracBits).Ok?
    ensures NearestRegister(GainToFixed(gain, fracBits).value, gain, fracBits)
  {
  }

  lemma UnclippedCode(v: real, s: Settings)
    requires v >= 0.0 && s.minGain <= s.encode(v) <= s.maxGain
    ensures CodeGain(v, s) == s.encode(v)
  {
  }

  lemma UndampedIsItself(c: Vec, s: Settings)
    requires Undamped(s) && c.a >= 0.000001 && c.b >= 0.000001 && c.c >= 0.000001
    ensures Damped(c, s) == c
  {
  }

  function CodeGains(n: Vec, s: Settings): Vec { Vec(CodeGain(n.a, s), CodeGain(n.b, s), CodeGain(n.c, s)) }

  lemma RegistersAreNearest(n: Vec, s: Settings)
    requires RegistersFor(n, s).Ok?
    ensures NearestRegisters(RegistersFor(n, s).value, CodeGains(n, s), s.fracBits)
  {
    FixedIsNearestRegister(CodeGain(n.a, s), s.fracBits);
    FixedIsNearestRegister(CodeGain(n.b, s), s.fracBits);
    FixedIsNearestRegister(CodeGain(n.c, s), s.fracBits);
  }

  lemma UnclippedCodes(n: Vec, s: Settings)
    requires n.a >= 0.0 && n.b >= 0.0 && n.c >= 0.0 && AllWithin(Encoded(n, s), s.minGain, s.maxGain)
    ensures CodeGains(n, s) == Encoded(n, s)
  {
    UnclippedCode(n.a, s);
    UnclippedCode(n.b, s);
    UnclippedCode(n.c, s);
  }

  /** Where a correction lands: without damping and clipping, the registers written are those
      nearest, channel by channel, to code gains under which the channels mix exactly to the
      target. */
  lemma CandidateLands(p: Primaries, linear: Vec, s: Settings) returns (code: Vec)
    requires NextCandidate(p, linear, s).Ok? && White(Weighted(p, linear)).b > 0.0
    requires Undamped(s) && EncodingIsUndone(s) && Unclipped(p, linear, s)
    ensures ToXy(Mix(p, Decoded(code, s))) == Ok(Xy(s.x, s.y))
    ensures NearestRegisters(NextCandidate(p, linear, s).value, code, s.fracBits)
  {
    var correction := SolveLinearGains(Weighted(p, linear), s.x, s.y).value;
    UndampedIsItself(correction, s);
    var n := NormalizeToHeadroom(Times(linear, correction), 1.0).value;
    UndampedStepHitsTarget(p, linear, s.x, s.y);
    code := Encoded(n, s);
    assert Decoded(code, s) == n;
    UnclippedCodes(n, s);
    RegistersAreNearest(n, s);
  }

  /** Each channel's gain times its own correction, damped and not below the floor. */
  function Corrected(linear: Vec, correction: Vec, s: Settings): Vec {
    Vec(linear.a * s.damp(Max(0.000001, correction.a)), linear.b * s.damp(Max(0.000001, correction.b)),
        linear.c * s.damp(Max(0.000001, correction.c)))
  }

  /** In general the new registers stand for the corrected gains times one common factor, encoded
      and clamped; the corrections alone would take the present white exactly to the target. */
  lemma CandidateIsPerChannel(p: Primaries, linear: Vec, s: Settings) returns (correction: Vec, k: real)
    requires NextCandidate(p, linear, s).Ok? && White(Weighted(p, linear)).b > 0.0
    ensures k > 0.0 && ToXy(Mix(Weighted(p, linear), correction)) == Ok(Xy(s.x, s.y))
    ensures NearestRegisters(NextCandidate(p, linear, s).value, CodeGains(Scale(k, Corrected(linear, correction, s)), s),
                             s.fracBits)
  {
    correction := SolveLinearGains(Weighted(p, linear), s.x, s.y).value;
    GainsHitTarget(Weighted(p, linear), s.x, s.y);
    k := CandidateIsScaled(p, linear, s, correction);
  }

  lemma CandidateIsScaled(p: Primaries, linear: Vec, s: Settings, correction: Vec) returns (k: real)
    requires NextCandidate(p, linear, s).Ok? && SolveLinearGains(Weighted(p, linear), s.x, s.y) == Ok(correction)
    ensures k > 0.0
    ensures NearestRegisters(NextCandidate(p, linear, s).value, CodeGains(Scale(k, Corrected(linear, correction, s)), s),
                             s.fracBits)
  {
    var g := Corrected(linear, correction, s);
    CorrectedIsTimes(linear, correction, s);
    k := HeadroomScale(Largest(g), 1.0);
    HeadroomScaleFits(Largest(g), 1.0);
    NormalizedIsScaled(g, 1.0);
    RegistersAreNearest(Scale(k, g), s);
  }

  lemma CorrectedIsTimes(linear: Vec, correction: Vec, s: Settings)
    ensures Times(linear, Damped(correction, s)) == Corrected(linear, correction, s)
  {
  }
}
