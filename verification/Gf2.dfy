/** Polynomials over the field of two elements, as bit sequences with the highest power first:
    what the remainder of a division is, and that a shift register computes it. */
module Gf2 {
  import opened Basics

  function Zeros(n: nat): seq<bool> { Repeated(n, false) }

  function Xor(x: seq<bool>, y: seq<bool>): (r: seq<bool>)
    requires |x| == |y|
    ensures |r| == |x| && forall i :: 0 <= i < |x| ==> r[i] == (x[i] != y[i])
  {
    seq(|x|, i requires 0 <= i < |x| => x[i] != y[i])
  }

  /** Schoolbook multiplication: one shifted copy of g for every power in q. */
  function Product(q: seq<bool>, g: seq<bool>): (p: seq<bool>)
    requires |g| >= 1
    ensures |p| == |q| + |g| - 1
  {
    if q == [] then Zeros(|g| - 1) else Xor(Multiple(q[0], g, |q| - 1), [false] + Product(q[1..], g))
  }

  /** g or nothing, times the power n. */
  function Multiple(b: bool, g: seq<bool>, n: nat): (p: seq<bool>)
    ensures |p| == |g| + n
  {
    if b then g + Zeros(n) else Zeros(|g| + n)
  }

  /** n is q times g plus r. */
  predicate IsDivision(n: seq<bool>, g: seq<bool>, q: seq<bool>, r: seq<bool>) {
    |g| >= 1 && |r| == |g| - 1 && |n| == |q| + |r| && n == Xor(Product(q, g), Zeros(|q|) + r)
  }

  ghost predicate LeavesRemainder(n: seq<bool>, g: seq<bool>, r: seq<bool>) {
    exists q :: IsDivision(n, g, q, r)
  }

  // ---------------------------------------------------------------- the remainder is unique

  /** A division with one power less: what is left of n after its first step. */
  lemma FirstPower(n: seq<bool>, g: seq<bool>, q: seq<bool>, r: seq<bool>)
    requires IsDivision(n, g, q, r) && g[0] && q != []
    ensures n[0] == q[0]
    ensures IsDivision(Xor(n, Multiple(q[0], g, |q| - 1))[1..], g, q[1..], r)
  {
    var m, p := Multiple(q[0], g, |q| - 1), Product(q[1..], g);
    var rest := Xor(n, m)[1..];
    var sum := Xor(p, Zeros(|q| - 1) + r);
    forall i | 0 <= i < |rest|
      ensures rest[i] == sum[i]
    {
      assert rest[i] == (n[i + 1] != m[i + 1]);
      assert Product(q, g)[i + 1] == (m[i + 1] != p[i]);
      assert (Zeros(|q|) + r)[i + 1] == (Zeros(|q| - 1) + r)[i];
    }
    assert rest == sum;
  }

  lemma NoPower(n: seq<bool>, g: seq<bool>, r: seq<bool>)
    requires IsDivision(n, g, [], r)
    ensures n == r
  {
    var sum := Xor(Product([], g), Zeros(0) + r);
    assert forall i :: 0 <= i < |r| ==> sum[i] == r[i];
  }

  lemma {:induction false} DivisionIsUnique(n: seq<bool>, g: seq<bool>, q: seq<bool>, r: seq<bool>, p: seq<bool>, s: seq<bool>)
    requires IsDivision(n, g, q, r) && IsDivision(n, g, p, s) && g[0]
    ensures q == p && r == s
    decreases |q|
  {
    if q == [] {
      NoPower(n, g, r);
      NoPower(n, g, s);
    } else {
      FirstPower(n, g, q, r);
      FirstPower(n, g, p, s);
      DivisionIsUnique(Xor(n, Multiple(q[0], g, |q| - 1))[1..], g, q[1..], r, p[1..], s);
      assert q == [q[0]] + q[1..] && p == [p[0]] + p[1..];
    }
  }

  // ---------------------------------------------------------------- the shift register

  /** One step: the highest power falls out, and g without its own highest power is taken off. */
  function Step(g: seq<bool>, c: seq<bool>, b: bool): (d: seq<bool>)
    requires |g| == |c| >= 1
    ensures |d| == |c|
  {
    var down := c[1..] + [false];
    if c[0] != b then Xor(down, g) else down
  }

  function Divide(g: seq<bool>, c: seq<bool>, bits: seq<bool>): (d: seq<bool>)
    requires |g| == |c| >= 1
    ensures |d| == |c|
    decreases |bits|
  {
    if bits == [] then c else Divide(g, Step(g, c, bits[0]), bits[1..])
  }

  /** The message times the power of the register's width, the start mixed in at its front. */
  function Dividend(c: seq<bool>, bits: seq<bool>): (n: seq<bool>)
    ensures |n| == |c| + |bits|
  {
    Xor(c + Zeros(|bits|), bits + Zeros(|c|))
  }

  lemma StepTakesOff(g: seq<bool>, c: seq<bool>, bits: seq<bool>)
    requires |g| == |c| >= 1 && bits != []
    ensures var d, t := Dividend(c, bits), c[0] != bits[0];
      d == Xor(Multiple(t, [true] + g, |bits| - 1), [false] + Dividend(Step(g, c, bits[0]), bits[1..]))
  {
    var d, t := Dividend(c, bits), c[0] != bits[0];
    var m, e := Multiple(t, [true] + g, |bits| - 1), Dividend(Step(g, c, bits[0]), bits[1..]);
    var sum := Xor(m, [false] + e);
    forall i | 0 <= i < |d|
      ensures d[i] == sum[i]
    {
      if i > 0 {
        StepAt(g, c, bits, i - 1);
      }
    }
  }

  lemma StepAt(g: seq<bool>, c: seq<bool>, bits: seq<bool>, i: nat)
    requires |g| == |c| >= 1 && bits != [] && i < |c| + |bits| - 1
    ensures var t := c[0] != bits[0];
      Dividend(c, bits)[i + 1]
      == (Multiple(t, [true] + g, |bits| - 1)[i + 1] != Dividend(Step(g, c, bits[0]), bits[1..])[i])
  {
    var d := Step(g, c, bits[0]);
    assert (bits + Zeros(|c|))[i + 1] == (bits[1..] + Zeros(|c|))[i];
    if i < |c| {
      assert (d + Zeros(|bits| - 1))[i] == d[i];
    }
  }

  /** The register divides: fed a message from any start, it ends in the remainder of the
      dividend by the generator whose highest power is implied. */
  lemma {:induction false} RegisterDivides(g: seq<bool>, c: seq<bool>, bits: seq<bool>) returns (q: seq<bool>)
    requires |g| == |c| >= 1
    ensures |q| == |bits| && IsDivision(Dividend(c, bits), [true] + g, q, Divide(g, c, bits))
    decreases |bits|
  {
    if bits == [] {
      q := [];
      NothingDivided(g, c);
    } else {
      var next := Step(g, c, bits[0]);
      var tail := RegisterDivides(g, next, bits[1..]);
      q := [c[0] != bits[0]] + tail;
      StepTakesOff(g, c, bits);
      PowerPutBack(Dividend(c, bits), Dividend(next, bits[1..]), [true] + g, q, Divide(g, c, bits));
    }
  }

  lemma NothingDivided(g: seq<bool>, c: seq<bool>)
    requires |g| == |c| >= 1
    ensures IsDivision(Dividend(c, []), [true] + g, [], c)
  {
    var d, sum := Dividend(c, []), Xor(Product([], [true] + g), Zeros(0) + c);
    assert forall i :: 0 <= i < |c| ==> d[i] == c[i] && sum[i] == c[i];
    assert d == sum;
  }

  lemma PowerPutBack(n: seq<bool>, rest: seq<bool>, g: seq<bool>, q: seq<bool>, r: seq<bool>)
    requires q != [] && IsDivision(rest, g, q[1..], r) && |n| == |rest| + 1
    requires n == Xor(Multiple(q[0], g, |q| - 1), [false] + rest)
    ensures IsDivision(n, g, q, r)
  {
    var m, p, sum := Multiple(q[0], g, |q| - 1), Product(q[1..], g), Xor(Product(q, g), Zeros(|q|) + r);
    forall i | 0 <= i < |n|
      ensures n[i] == sum[i]
    {
      if i > 0 {
        assert rest[i - 1] == (p[i - 1] != (Zeros(|q| - 1) + r)[i - 1]);
        assert (Zeros(|q|) + r)[i] == (Zeros(|q| - 1) + r)[i - 1];
      }
    }
    assert n == sum;
  }

  /** It ends in nothing else: the register holds the one remainder. */
  lemma RegisterIsRemainder(g: seq<bool>, c: seq<bool>, bits: seq<bool>, r: seq<bool>)
    requires |g| == |c| >= 1
    ensures LeavesRemainder(Dividend(c, bits), [true] + g, r) <==> r == Divide(g, c, bits)
  {
    var q := RegisterDivides(g, c, bits);
    if LeavesRemainder(Dividend(c, bits), [true] + g, r) {
      var p :| IsDivision(Dividend(c, bits), [true] + g, p, r);
      DivisionIsUnique(Dividend(c, bits), [true] + g, q, Divide(g, c, bits), p, r);
    }
  }

  // ---------------------------------------------------------------- what goes in

  /** The polynomial with these powers. */
  function Polynomial(powers: set<nat>, degree: nat): (p: seq<bool>)
    ensures |p| == degree + 1
  {
    seq(degree + 1, i requires 0 <= i <= degree => degree - i in powers)
  }

  /** The first n bits inverted. */
  function InvertedFront(s: seq<bool>, n: nat): (t: seq<bool>)
    ensures |t| == |s| && forall i :: 0 <= i < |s| ==> t[i] == (s[i] != (i < n))
  {
    seq(|s|, i requires 0 <= i < |s| => s[i] != (i < n))
  }

  /** Starting from all ones inverts the front of the message. */
  lemma OnesInvert(c: seq<bool>, bits: seq<bool>)
    requires forall i :: 0 <= i < |c| ==> c[i]
    ensures Dividend(c, bits) == InvertedFront(bits + Zeros(|c|), |c|)
  {
  }

  /** m is the message in the order of transmission: the bits of each byte, lowest first. */
  ghost predicate IsMessage(data: seq<byte>, m: seq<bool>) {
    |m| == 8 * |data| && forall k, j :: 0 <= k < |data| && 0 <= j < 8 ==> BitOf(data[k], j) == m[8 * k + j]
  }

  /** Bit j of a number: the lowest after j halvings. */
  predicate BitOf(b: nat, j: nat)
    decreases j
  {
    if j == 0 then b % 2 == 1 else BitOf(b / 2, j - 1)
  }
}
