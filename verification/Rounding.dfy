/** The brightness rounding rule of the dual-display controller and its twin in the restore
    script: clamp, round to a whole number of steps, clamp again. The controller rounds
    halves up (qRound on non-negative values), the script rounds halves to even. */
module Rounding {
  import opened Basics

  function Bound(lo: real, v: real, hi: real): real { Max(lo, Min(v, hi)) }

  function RoundHalfUp(q: real): int { (q + 0.5).Floor }

  function RoundHalfEven(q: real): int {
    var f := q.Floor;
    var rest := q - f as real;
    if rest < 0.5 then f else if rest > 0.5 then f + 1 else if f % 2 == 0 then f else f + 1
  }

  datatype Range = Range(minNits: real, maxNits: real, step: real)

  /** What both programs guarantee of the range: everything is positive. */
  predicate Usable(r: Range) { r.minNits > 0.0 && r.maxNits > 0.0 && r.step > 0.0 }

  function Lower(r: Range): real { Min(r.minNits, r.maxNits) }

  function Clamped(r: Range, nits: real): real { Bound(Lower(r), nits, r.maxNits) }

  function Steps(r: Range, nits: real): real
    requires Usable(r)
  {
    Clamped(r, nits) / r.step
  }

  function Finished(r: Range, k: int): real { Bound(Lower(r), k as real * r.step, r.maxNits) }

  /** roundedNits of the controller. */
  function RoundedNits(r: Range, nits: real): real
    requires Usable(r)
  {
    Finished(r, RoundHalfUp(Steps(r, nits)))
  }

  /** rounded_nits of the restore script. */
  function RoundedNitsScript(r: Range, nits: real): real
    requires Usable(r)
  {
    Finished(r, RoundHalfEven(Steps(r, nits)))
  }

  // ---------------------------------------------------------------- what rounding to nearest gives

  predicate Nearest(k: int, q: real) { -0.5 <= k as real - q <= 0.5 }

  lemma BothAreNearest(q: real)
    ensures Nearest(RoundHalfUp(q), q) && Nearest(RoundHalfEven(q), q)
  {
  }

  lemma StepsTimesStep(r: Range, nits: real)
    requires Usable(r)
    ensures Steps(r, nits) * r.step == Clamped(r, nits)
  {
  }

  lemma InRange(r: Range, k: int)
    requires Usable(r)
    ensures Lower(r) <= Finished(r, k) <= r.maxNits
  {
  }

  lemma WithinHalfStep(r: Range, nits: real, k: int)
    requires Usable(r) && Nearest(k, Steps(r, nits))
    ensures -r.step / 2.0 <= Finished(r, k) - Clamped(r, nits) <= r.step / 2.0
  {
    StepsTimesStep(r, nits);
    NearTimesStep(k as real, Steps(r, nits), r.step, k as real * r.step, Clamped(r, nits));
  }

  lemma NearTimesStep(k: real, q: real, step: real, v: real, c: real)
    requires -0.5 <= k - q <= 0.5 && step > 0.0 && v == k * step && c == q * step
    ensures -step / 2.0 <= v - c <= step / 2.0
  {
    OrderTimesStep(k, q + 0.5, step);
    OrderTimesStep(q - 0.5, k, step);
    SumTimesStep(q, 0.5, step);
    SumTimesStep(q, -0.5, step);
  }

  lemma SumTimesStep(x: real, y: real, step: real)
    ensures (x + y) * step == x * step + y * step
  {
  }

  lemma OrderTimesStep(x: real, y: real, step: real)
    requires x <= y && step > 0.0
    ensures x * step <= y * step
  {
  }

  lemma FinishedIsMonotone(r: Range, j: int, k: int)
    requires Usable(r) && j <= k
    ensures Finished(r, j) <= Finished(r, k)
  {
    assert (k - j) as real * r.step >= 0.0;
    assert j as real * r.step + (k - j) as real * r.step == k as real * r.step;
  }

  lemma StepsIsMonotone(r: Range, a: real, b: real)
    requires Usable(r) && a <= b
    ensures Steps(r, a) <= Steps(r, b)
  {
    QuotientOrder(Clamped(r, a), Clamped(r, b), r.step);
  }

  lemma QuotientOrder(a: real, b: real, d: real)
    requires d > 0.0 && a <= b
    ensures a / d <= b / d
  {
  }

  lemma RoundingsAreMonotone(p: real, q: real)
    requires p <= q
    ensures RoundHalfUp(p) <= RoundHalfUp(q) && RoundHalfEven(p) <= RoundHalfEven(q)
  {
  }

  /** Where a step count is whole, both roundings leave it alone. */
  lemma WholeStepsStay(k: int)
    ensures RoundHalfUp(k as real) == k && RoundHalfEven(k as real) == k
  {
  }

  /** Both rules: the result is in range, within half a step of the clamped input, and grows
      with the input. */
  lemma RoundingIsSound(r: Range, a: real, b: real)
    requires Usable(r) && a <= b
    ensures Lower(r) <= RoundedNits(r, a) <= RoundedNits(r, b) <= r.maxNits
    ensures Lower(r) <= RoundedNitsScript(r, a) <= RoundedNitsScript(r, b) <= r.maxNits
    ensures -r.step / 2.0 <= RoundedNits(r, a) - Clamped(r, a) <= r.step / 2.0
    ensures -r.step / 2.0 <= RoundedNitsScript(r, a) - Clamped(r, a) <= r.step / 2.0
  {
    var p, q := Steps(r, a), Steps(r, b);
    StepsIsMonotone(r, a, b);
    RoundingsAreMonotone(p, q);
    FinishedIsMonotone(r, RoundHalfUp(p), RoundHalfUp(q));
    FinishedIsMonotone(r, RoundHalfEven(p), RoundHalfEven(q));
    BothAreNearest(p);
    WithinHalfStep(r, a, RoundHalfUp(p));
    WithinHalfStep(r, a, RoundHalfEven(p));
    InRange(r, RoundHalfUp(p));
    InRange(r, RoundHalfEven(p));
    InRange(r, RoundHalfUp(q));
    InRange(r, RoundHalfEven(q));
  }

  /** Either rule gives a whole number of steps, or an end of the range. */
  lemma RoundingIsOnGrid(r: Range, nits: real) returns (up: int, even: int)
    requires Usable(r)
    ensures var v, w := RoundedNits(r, nits), RoundedNitsScript(r, nits);
      && (v == up as real * r.step || v in {Min(r.minNits, r.maxNits), r.maxNits})
      && (w == even as real * r.step || w in {Min(r.minNits, r.maxNits), r.maxNits})
  {
    up, even := RoundHalfUp(Steps(r, nits)), RoundHalfEven(Steps(r, nits));
  }

  // ---------------------------------------------------------------- idempotence

  /** A finished value is a whole number of steps, or a bound the steps were cut at; in the
      second case it lies between the steps and the original input. */
  lemma StepsOfFinished(r: Range, nits: real, k: int)
    requires Usable(r)
    ensures var v, m := Finished(r, k), k as real * r.step;
      && (v == m ==> Steps(r, v) == k as real)
      && (v > m ==> Steps(r, v) <= Steps(r, nits))
      && (v < m ==> Steps(r, v) >= Steps(r, nits))
  {
    var v, m := Finished(r, k), k as real * r.step;
    InRange(r, k);
    assert Clamped(r, v) == v;
    if v == m {
      assert m / r.step == k as real;
    } else if v > m {
      assert v == Lower(r);
      QuotientOrder(v, Clamped(r, nits), r.step);
    } else {
      assert v == r.maxNits;
      QuotientOrder(Clamped(r, nits), v, r.step);
    }
  }

  lemma FinishedAgain(r: Range, k: int, again: int)
    requires Usable(r)
    requires var v, m := Finished(r, k), k as real * r.step;
      (v == m ==> again == k) && (v > m ==> again <= k) && (v < m ==> again >= k)
    ensures Finished(r, again) == Finished(r, k)
  {
  }

  /** Rounding a rounded brightness again changes nothing, under either rule. */
  lemma RoundingIsIdempotent(r: Range, nits: real)
    requires Usable(r)
    ensures RoundedNits(r, RoundedNits(r, nits)) == RoundedNits(r, nits)
    ensures RoundedNitsScript(r, RoundedNitsScript(r, nits)) == RoundedNitsScript(r, nits)
  {
    var q := Steps(r, nits);
    UpAgain(r, nits, RoundHalfUp(q));
    EvenAgain(r, nits, RoundHalfEven(q));
  }

  lemma UpAgain(r: Range, nits: real, k: int)
    requires Usable(r) && k == RoundHalfUp(Steps(r, nits))
    ensures Finished(r, RoundHalfUp(Steps(r, Finished(r, k)))) == Finished(r, k)
  {
    var q, p := Steps(r, nits), Steps(r, Finished(r, k));
    StepsOfFinished(r, nits, k);
    WholeStepsStay(k);
    if p <= q { RoundingsAreMonotone(p, q); }
    if q <= p { RoundingsAreMonotone(q, p); }
    FinishedAgain(r, k, RoundHalfUp(p));
  }

  lemma EvenAgain(r: Range, nits: real, k: int)
    requires Usable(r) && k == RoundHalfEven(Steps(r, nits))
    ensures Finished(r, RoundHalfEven(Steps(r, Finished(r, k)))) == Finished(r, k)
  {
    var q, p := Steps(r, nits), Steps(r, Finished(r, k));
    StepsOfFinished(r, nits, k);
    WholeStepsStay(k);
    if p <= q { RoundingsAreMonotone(p, q); }
    if q <= p { RoundingsAreMonotone(q, p); }
    FinishedAgain(r, k, RoundHalfEven(p));
  }

  // ---------------------------------------------------------------- the two rules compared

  predicate IsTie(q: real) { q - q.Floor as real == 0.5 }

  /** The step counts of the two rules differ exactly on ties above an even count, and then by one. */
  lemma StepCountsDifferIff(q: real)
    ensures RoundHalfUp(q) != RoundHalfEven(q) <==> IsTie(q) && q.Floor % 2 == 0
    ensures RoundHalfEven(q) <= RoundHalfUp(q) <= RoundHalfEven(q) + 1
  {
  }

  /** The two programs set different brightness exactly when the clamped input lies halfway
      between an even number of steps and the next one and the range is not a single point;
      then the controller's value is the brighter, by at most one step. */
  lemma RulesDifferIff(r: Range, nits: real)
    requires Usable(r)
    ensures RoundedNits(r, nits) != RoundedNitsScript(r, nits)
       <==> IsTie(Steps(r, nits)) && Steps(r, nits).Floor % 2 == 0 && r.minNits < r.maxNits
    ensures 0.0 <= RoundedNits(r, nits) - RoundedNitsScript(r, nits) <= r.step
  {
    var q := Steps(r, nits);
    var up, even := RoundHalfUp(q), RoundHalfEven(q);
    StepCountsDifferIff(q);
    FinishedIsMonotone(r, even, up);
    assert up as real * r.step - even as real * r.step == (up - even) as real * r.step;
    if up != even {
      StepsTimesStep(r, nits);
      var c := Clamped(r, nits);
      assert c == (even as real + 0.5) * r.step == even as real * r.step + r.step / 2.0;
      assert up as real * r.step == even as real * r.step + r.step;
    }
  }
}
