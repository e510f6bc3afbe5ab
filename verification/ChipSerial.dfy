/** The chip serial of the MCU page: a reflected CRC-64 (generator of Annex B of ECMA-182)
    over the chip identification, rendered as 13 Crockford base-32 characters. The point of
    the module is the claim made where the serial is computed: chips whose identifications
    differ only within one burst of the CRC's width cannot share a serial.

    A 64-bit word is its sequence of bits, least significant first. */
module ChipSerial {
  import opened Basics
  import opened Gf2

  type Word = w: seq<bool> | |w| == 64 witness seq(64, _ => false)

  /** The n lowest bits of a number. */
  function LowBits(b: nat, n: nat): (s: seq<bool>)
    ensures |s| == n
    decreases n
  {
    if n == 0 then [] else [b % 2 == 1] + LowBits(b / 2, n - 1)
  }

  function ByteBits(b: byte): (s: seq<bool>)
    ensures |s| == 8
  {
    LowBits(b, 8)
  }

  function ValueOf(s: seq<bool>): nat {
    if s == [] then 0 else (if s[0] then 1 else 0) + 2 * ValueOf(s[1..])
  }

  lemma {:induction false} ValueOfLowBits(b: nat, n: nat)
    requires b < Pow2(n)
    ensures ValueOf(LowBits(b, n)) == b
    decreases n
  {
    if n > 0 {
      ValueOfLowBits(b / 2, n - 1);
      assert LowBits(b, n)[1..] == LowBits(b / 2, n - 1);
    }
  }

  lemma {:induction false} LowBitsOfValue(s: seq<bool>)
    ensures LowBits(ValueOf(s), |s|) == s && ValueOf(s) < Pow2(|s|)
    decreases |s|
  {
    if s != [] {
      LowBitsOfValue(s[1..]);
      assert ValueOf(s) / 2 == ValueOf(s[1..]);
      assert s == [s[0]] + s[1..];
    }
  }

  /** The bits of a message in processing order: lowest bit of each byte first. */
  function Bits(id: seq<byte>): (b: seq<bool>)
    ensures |b| == 8 * |id|
    decreases |id|
  {
    if id == [] then [] else ByteBits(id[0]) + Bits(id[1..])
  }

  /** 0xC96C5795D7870F42, lowest byte first. */
  const POLY_BYTES: seq<byte> := [0x42, 0x0F, 0x87, 0xD7, 0x95, 0x57, 0x6C, 0xC9]
  const POLY: Word := Bits(POLY_BYTES)

  function Not(x: Word): (r: Word)
    ensures forall i :: 0 <= i < 64 ==> r[i] == !x[i]
  {
    seq(64, i requires 0 <= i < 64 => !x[i])
  }

  /** One shift of the register; the polynomial is mixed in when a one falls out. */
  function Shift(g: Word, c: Word): Word {
    var down := c[1..] + [false];
    if c[0] then Xor(down, g) else down
  }

  lemma ShiftBits(g: Word, c: Word)
    ensures forall i :: 0 <= i < 64 ==> Shift(g, c)[i] == ((i < 63 && c[i + 1]) != (c[0] && g[i]))
  {
  }

  function MixBit(c: Word, b: bool): (r: Word)
    ensures r == c[0 := c[0] != b]
  {
    c[0 := c[0] != b]
  }

  /** The register after a message of bits, lowest bit of each byte first. */
  function Feed(g: Word, c: Word, bits: seq<bool>): Word
    decreases |bits|
  {
    if bits == [] then c else Feed(g, Shift(g, MixBit(c, bits[0])), bits[1..])
  }

  function Shift8(g: Word, c: Word): Word {
    Shift(g, Shift(g, Shift(g, Shift(g, Shift(g, Shift(g, Shift(g, Shift(g, c))))))))
  }

  function MixByte(c: Word, b: byte): Word {
    Xor(c, ByteBits(b) + Zeros(56))
  }

  /** The register after a whole identification: one byte mixed in, then eight shifts. */
  function Register(g: Word, c: Word, id: seq<byte>): Word
    decreases |id|
  {
    if id == [] then c else Register(g, Shift8(g, MixByte(c, id[0])), id[1..])
  }

  function Crc64(id: seq<byte>): Word {
    Not(Register(POLY, Not(Zeros(64)), id))
  }

  // ---------------------------------------------------------------- one shift

  lemma ShiftIsLinear(g: Word, x: Word, y: Word)
    ensures Shift(g, Xor(x, y)) == Xor(Shift(g, x), Shift(g, y))
  {
  }

  /** The bit that fell out is the new top bit, so a shift can be undone. */
  lemma ShiftIsInjective(g: Word, x: Word, y: Word)
    requires g[63]
    requires Shift(g, x) == Shift(g, y)
    ensures x == y
  {
    ShiftBits(g, x);
    ShiftBits(g, y);
    assert Shift(g, x)[63] == x[0] && Shift(g, y)[63] == y[0];
    forall i | 0 <= i < 64 ensures x[i] == y[i] {
      if i > 0 {
        assert Shift(g, x)[i - 1] == Shift(g, y)[i - 1];
      }
    }
  }

  // ---------------------------------------------------------------- messages as bits

  /** The register with the not yet processed bits of a byte already mixed in above the lowest. */
  function Mixed(c: Word, bits: seq<bool>): Word
    requires |bits| <= 64
  {
    Xor(c, bits + Zeros(64 - |bits|))
  }

  lemma PeelBit(g: Word, c: Word, bits: seq<bool>)
    requires 0 < |bits| <= 8
    ensures Shift(g, Mixed(c, bits)) == Mixed(Shift(g, MixBit(c, bits[0])), bits[1..])
  {
  }

  function ShiftTimes(g: Word, c: Word, n: nat): Word
    decreases n
  {
    if n == 0 then c else ShiftTimes(g, Shift(g, c), n - 1)
  }

  lemma {:induction false} MixedIsFed(g: Word, c: Word, bits: seq<bool>)
    requires |bits| <= 8
    ensures ShiftTimes(g, Mixed(c, bits), |bits|) == Feed(g, c, bits)
    decreases |bits|
  {
    if bits == [] {
      NothingMixed(c);
    } else {
      PeelBit(g, c, bits);
      MixedIsFed(g, Shift(g, MixBit(c, bits[0])), bits[1..]);
    }
  }

  lemma NothingMixed(c: Word)
    ensures Mixed(c, []) == c
  {
  }

  lemma EightTimes(g: Word, c: Word)
    ensures Shift8(g, c) == ShiftTimes(g, c, 8)
  {
  }

  /** Mixing a byte in at once and feeding its bits one by one are the same. */
  lemma ByteIsItsBits(g: Word, c: Word, b: byte)
    ensures Shift8(g, MixByte(c, b)) == Feed(g, c, ByteBits(b))
  {
    EightTimes(g, MixByte(c, b));
    MixedIsFed(g, c, ByteBits(b));
  }

  lemma {:induction false} FeedConcat(g: Word, c: Word, x: seq<bool>, y: seq<bool>)
    ensures Feed(g, c, x + y) == Feed(g, Feed(g, c, x), y)
    decreases |x|
  {
    if x == [] {
      assert x + y == y;
    } else {
      assert (x + y)[1..] == x[1..] + y;
      FeedConcat(g, Shift(g, MixBit(c, x[0])), x[1..], y);
    }
  }

  lemma {:induction false} RegisterIsFeed(g: Word, c: Word, id: seq<byte>)
    ensures Register(g, c, id) == Feed(g, c, Bits(id))
    decreases |id|
  {
    if id != [] {
      ByteIsItsBits(g, c, id[0]);
      FeedConcat(g, c, ByteBits(id[0]), Bits(id[1..]));
      RegisterIsFeed(g, Shift8(g, MixByte(c, id[0])), id[1..]);
    }
  }

  lemma {:induction false} FeedIsInjective(g: Word, c: Word, d: Word, bits: seq<bool>)
    requires g[63]
    requires Feed(g, c, bits) == Feed(g, d, bits)
    ensures c == d
    decreases |bits|
  {
    if bits != [] {
      FeedIsInjective(g, Shift(g, MixBit(c, bits[0])), Shift(g, MixBit(d, bits[0])), bits[1..]);
      ShiftIsInjective(g, MixBit(c, bits[0]), MixBit(d, bits[0]));
      assert forall i :: 0 < i < 64 ==> c[i] == MixBit(c, bits[0])[i] && d[i] == MixBit(d, bits[0])[i];
      assert MixBit(c, bits[0])[0] == MixBit(d, bits[0])[0];
    }
  }

  // ---------------------------------------------------------------- the burst window

  /** If the registers are v apart after one step and the top bit of v is clear, the
      polynomial was mixed into both or into neither: before it they were v shifted up apart,
      with the difference of the two bits lowest. */
  lemma StepBack(g: Word, c: Word, d: Word, b: bool, e: bool, v: seq<bool>)
    requires g[63]
    requires |v| == 63
    requires Xor(Shift(g, MixBit(c, b)), Shift(g, MixBit(d, e))) == v + [false]
    ensures Xor(c, d) == [b != e] + v
  {
    ShiftBits(g, MixBit(c, b));
    ShiftBits(g, MixBit(d, e));
    var x, y := MixBit(c, b), MixBit(d, e);
    var r := Xor(Shift(g, x), Shift(g, y));
    assert r[63] == (x[0] != y[0]) == false;
    forall i | 0 <= i < 64 ensures Xor(c, d)[i] == ([b != e] + v)[i] {
      if i > 0 {
        assert r[i - 1] == (v + [false])[i - 1] == v[i - 1];
        assert x[i] == c[i] && y[i] == d[i];
      }
    }
  }

  lemma NotApart(c: Word)
    ensures Xor(c, c) == Xor([], []) + Zeros(64)
  {
  }

  lemma PaddedTail(x: seq<bool>, y: seq<bool>) returns (v: seq<bool>)
    requires 0 < |x| == |y| <= 64
    ensures |v| == 63 && v + [false] == Xor(x[1..], y[1..]) + Zeros(64 - |x[1..]|)
    ensures [x[0] != y[0]] + v == Xor(x, y) + Zeros(64 - |x|)
  {
    v := Xor(x[1..], y[1..]) + Zeros(64 - |x|);
  }

  /** Two runs over at most 64 bits that end in the same register value started exactly as
      far apart as their bits are. */
  lemma {:induction false} WindowTellsStartsApart(g: Word, c: Word, d: Word, x: seq<bool>, y: seq<bool>)
    requires g[63]
    requires |x| == |y| <= 64 && Feed(g, c, x) == Feed(g, d, y)
    ensures Xor(c, d) == Xor(x, y) + Zeros(64 - |x|)
    decreases |x|
  {
    if x == [] {
      NotApart(c);
    } else {
      WindowTellsStartsApart(g, Shift(g, MixBit(c, x[0])), Shift(g, MixBit(d, y[0])), x[1..], y[1..]);
      var v := PaddedTail(x, y);
      StepBack(g, c, d, x[0], y[0], v);
    }
  }

  /** x and y agree on every bit outside the window of n bits that starts at bit p. */
  ghost predicate DifferOnlyIn(x: seq<bool>, y: seq<bool>, p: nat, n: nat) {
    |x| == |y| && forall i :: 0 <= i < |x| && !(p <= i < p + n) ==> x[i] == y[i]
  }

  lemma EqualWindows(g: Word, c: Word, x: seq<bool>, y: seq<bool>)
    requires g[63]
    requires |x| == |y| <= 64 && Feed(g, c, x) == Feed(g, c, y)
    ensures x == y
  {
    WindowTellsStartsApart(g, c, c, x, y);
    var r := Xor(x, y) + Zeros(64 - |x|);
    assert forall i :: 0 <= i < 64 ==> !Xor(c, c)[i];
    assert forall i :: 0 <= i < |x| ==> Xor(x, y)[i] == r[i];
  }

  lemma FeedInThree(g: Word, c: Word, a: seq<bool>, w: seq<bool>, z: seq<bool>)
    ensures Feed(g, c, a + (w + z)) == Feed(g, Feed(g, Feed(g, c, a), w), z)
  {
    FeedConcat(g, c, a, w + z);
    FeedConcat(g, Feed(g, c, a), w, z);
  }

  lemma WindowSplit(x: seq<bool>, y: seq<bool>, p: nat) returns (q: nat)
    requires DifferOnlyIn(x, y, p, 64) && p <= |x|
    ensures p <= q <= |x| && q - p <= 64
    ensures x == x[..p] + (x[p..q] + x[q..]) && y == x[..p] + (y[p..q] + x[q..])
  {
    q := if p + 64 <= |x| then p + 64 else |x|;
    assert x[..p] == y[..p] && x[q..] == y[q..];
    assert y == y[..p] + (y[p..q] + y[q..]);
  }

  lemma BurstChangesRegister(g: Word, c: Word, x: seq<bool>, y: seq<bool>, p: nat)
    requires g[63]
    requires x != y && DifferOnlyIn(x, y, p, 64) && p <= |x|
    ensures Feed(g, c, x) != Feed(g, c, y)
  {
    var q := WindowSplit(x, y, p);
    var start := Feed(g, c, x[..p]);
    FeedInThree(g, c, x[..p], x[p..q], x[q..]);
    FeedInThree(g, c, x[..p], y[p..q], x[q..]);
    if Feed(g, c, x) == Feed(g, c, y) {
      FeedIsInjective(g, Feed(g, start, x[p..q]), Feed(g, start, y[p..q]), x[q..]);
      EqualWindows(g, start, x[p..q], y[p..q]);
    }
  }

  lemma ByteBitsInjective(a: byte, b: byte)
    requires ByteBits(a) == ByteBits(b)
    ensures a == b
  {
    assert Pow2(8) == 256;
    ValueOfLowBits(a, 8);
    ValueOfLowBits(b, 8);
  }

  lemma {:induction false} BitsAreInjective(a: seq<byte>, b: seq<byte>)
    requires |a| == |b| && Bits(a) == Bits(b)
    ensures a == b
    decreases |a|
  {
    if a != [] {
      assert ByteBits(a[0]) == Bits(a)[..8] == Bits(b)[..8] == ByteBits(b[0]);
      assert Bits(a[1..]) == Bits(a)[8..] == Bits(b)[8..] == Bits(b[1..]);
      ByteBitsInjective(a[0], b[0]);
      BitsAreInjective(a[1..], b[1..]);
      assert a == [a[0]] + a[1..] && b == [b[0]] + b[1..];
    }
  }

  lemma PastFirstByte(a: seq<bool>, tail: seq<bool>, m: nat)
    requires |a| == 8 <= m && m <= |tail|
    ensures (a + tail)[m..m + 8] == tail[m - 8..m]
  {
  }

  lemma {:induction false} BitsAt(id: seq<byte>, k: nat, m: nat)
    requires k < |id| && m == 8 * k
    ensures Bits(id)[m..m + 8] == ByteBits(id[k])
    decreases k
  {
    var first, tail := ByteBits(id[0]), Bits(id[1..]);
    if k > 0 {
      BitsAt(id[1..], k - 1, m - 8);
      PastFirstByte(first, tail, m);
    } else {
      assert (first + tail)[0..8] == first;
    }
  }

  lemma {:induction false} HighestBit(b: nat, n: nat)
    requires n >= 1 && Pow2(n - 1) <= b < Pow2(n)
    ensures LowBits(b, n)[n - 1]
    decreases n
  {
    if n > 1 {
      HighestBit(b / 2, n - 1);
    }
  }

  lemma EightBits()
    ensures Pow2(7) == 128 && Pow2(8) == 256
  {
  }

  lemma TopBit(b: byte)
    requires b >= 128
    ensures ByteBits(b)[7]
  {
    EightBits();
    HighestBit(b, 8);
  }

  lemma TopOfPoly()
    ensures POLY[63]
  {
    BitsAt(POLY_BYTES, 7, 56);
    TopBit(POLY_BYTES[7]);
    assert POLY[63] == POLY[56..64][7];
  }

  lemma NotIsInjective(x: Word, y: Word)
    requires Not(x) == Not(y)
    ensures x == y
  {
  }

  /** Burst detection: two different identifications of one length, of any length, that
      differ only inside 64 consecutive bits always have different CRCs. */
  lemma BurstsChangeCrc(a: seq<byte>, b: seq<byte>, p: nat)
    requires a != b && |a| == |b| && p <= 8 * |a|
    requires DifferOnlyIn(Bits(a), Bits(b), p, 64)
    ensures Crc64(a) != Crc64(b)
  {
    TopOfPoly();
    var start := Not(Zeros(64));
    if Bits(a) == Bits(b) {
      BitsAreInjective(a, b);
    }
    RegisterIsFeed(POLY, start, a);
    RegisterIsFeed(POLY, start, b);
    BurstChangesRegister(POLY, start, Bits(a), Bits(b), p);
    if Crc64(a) == Crc64(b) {
      NotIsInjective(Register(POLY, start, a), Register(POLY, start, b));
    }
  }

  // ---------------------------------------------------------------- what the CRC is

  /** The powers of the generator of Annex B of ECMA-182. */
  const ECMA_182: set<nat> :=
    {64, 62, 57, 55, 54, 53, 52, 47, 46, 45, 40, 39, 38, 37, 35, 33, 32, 31, 29, 27, 24, 23, 22, 21, 19, 17, 13, 12,
     10, 9, 7, 4, 1, 0}

  lemma {:induction false} LowBitAt(b: nat, n: nat, j: nat)
    requires j < n
    ensures LowBits(b, n)[j] == BitOf(b, j)
    decreases n
  {
    if j > 0 {
      LowBitAt(b / 2, n - 1, j - 1);
    }
  }

  lemma BitsAreTheMessage(id: seq<byte>)
    ensures IsMessage(id, Bits(id))
  {
    forall k, j | 0 <= k < |id| && 0 <= j < 8
      ensures BitOf(id[k], j) == Bits(id)[8 * k + j]
    {
      BitsAt(id, k, 8 * k);
      LowBitAt(id[k], 8, j);
      assert Bits(id)[8 * k + j] == Bits(id)[8 * k..8 * k + 8][j];
    }
  }

  lemma IsPolynomial(g: Word, powers: set<nat>)
    requires 64 in powers && forall i :: 0 <= i < 64 ==> (g[i] <==> 63 - i in powers)
    ensures [true] + g == Polynomial(powers, 64)
  {
  }

  lemma GeneratorIsEcma182()
    ensures [true] + POLY == Polynomial(ECMA_182, 64)
  {
    BitsAreTheMessage(POLY_BYTES);
    SpellsEcma182(POLY);
  }

  lemma SpellsEcma182(g: Word)
    requires IsMessage(POLY_BYTES, g)
    ensures [true] + g == Polynomial(ECMA_182, 64)
  {
    forall i | 0 <= i < 64
      ensures g[i] <==> 63 - i in ECMA_182
    {
      EcmaBit(i / 8, i % 8);
    }
    IsPolynomial(g, ECMA_182);
  }

  lemma EcmaBit(k: nat, j: nat)
    requires k < 8 && j < 8
    ensures BitOf(POLY_BYTES[k], j) <==> 63 - (8 * k + j) in ECMA_182
  {
    Halvings(POLY_BYTES[k], j);
    if k < 4 {
      HighPowers(k, j);
    } else {
      LowPowers(k, j);
    }
  }

  lemma HighPowers(k: nat, j: nat)
    requires k < 4 && j < 8
    ensures POLY_BYTES[k] / Weight(j) % 2 == 1 <==> 63 - (8 * k + j) in ECMA_182
  {
  }

  lemma LowPowers(k: nat, j: nat)
    requires 4 <= k < 8 && j < 8
    ensures POLY_BYTES[k] / Weight(j) % 2 == 1 <==> 63 - (8 * k + j) in ECMA_182
  {
  }

  function Weight(j: nat): nat
    requires j < 8
  {
    if j == 0 then 1 else if j == 1 then 2 else if j == 2 then 4 else if j == 3 then 8 else if j == 4 then 16
    else if j == 5 then 32 else if j == 6 then 64 else 128
  }

  lemma {:induction false} Halvings(b: nat, j: nat)
    requires j < 8
    ensures BitOf(b, j) <==> b / Weight(j) % 2 == 1
    decreases j
  {
    if j > 0 {
      Halvings(b / 2, j - 1);
      assert b / 2 / Weight(j - 1) == b / Weight(j);
    }
  }

  lemma {:induction false} FeedDivides(g: Word, c: Word, bits: seq<bool>)
    ensures Feed(g, c, bits) == Divide(g, c, bits)
    decreases |bits|
  {
    if bits != [] {
      assert Shift(g, MixBit(c, bits[0])) == Step(g, c, bits[0]);
      FeedDivides(g, Step(g, c, bits[0]), bits[1..]);
    }
  }

  /** What the CRC is: the message times the 64th power, its first 64 bits inverted, leaves the
      complement of the CRC, and nothing else, as its remainder by the generator. */
  lemma CrcIsRemainder(id: seq<byte>, r: seq<bool>)
    ensures IsMessage(id, Bits(id))
    ensures LeavesRemainder(InvertedFront(Bits(id) + Zeros(64), 64), Polynomial(ECMA_182, 64), r) <==>
            |r| == 64 && forall i :: 0 <= i < 64 ==> r[i] == !Crc64(id)[i]
  {
    BitsAreTheMessage(id);
    GeneratorIsEcma182();
    RegisterIsTheRemainder(POLY, Not(Zeros(64)), id, r);
    IsComplement(r, Register(POLY, Not(Zeros(64)), id));
  }

  lemma RegisterIsTheRemainder(g: Word, start: Word, id: seq<byte>, r: seq<bool>)
    requires start == Not(Zeros(64))
    ensures LeavesRemainder(InvertedFront(Bits(id) + Zeros(64), 64), [true] + g, r) <==> r == Register(g, start, id)
  {
    OnesInvert(start, Bits(id));
    RegisterIsFeed(g, start, id);
    FeedDivides(g, start, Bits(id));
    RegisterIsRemainder(g, start, Bits(id), r);
  }

  lemma IsComplement(r: seq<bool>, w: Word)
    ensures r == w <==> |r| == 64 && forall i :: 0 <= i < 64 ==> r[i] == !Not(w)[i]
  {
  }

  // ---------------------------------------------------------------- the bound is exact

  lemma {:induction false} Superposition(g: Word, c: Word, d: Word, x: seq<bool>, y: seq<bool>)
    requires |x| == |y|
    ensures Feed(g, Xor(c, d), Xor(x, y)) == Xor(Feed(g, c, x), Feed(g, d, y))
    decreases |x|
  {
    if x != [] {
      var c', d' := MixBit(c, x[0]), MixBit(d, y[0]);
      assert MixBit(Xor(c, d), Xor(x, y)[0]) == Xor(c', d');
      ShiftIsLinear(g, c', d');
      assert Xor(x, y)[1..] == Xor(x[1..], y[1..]);
      Superposition(g, Shift(g, c'), Shift(g, d'), x[1..], y[1..]);
    }
  }

  /** A register fed its own bits runs down to zero. */
  lemma {:induction false} OwnBitsCancel(g: Word, w: seq<bool>)
    requires |w| <= 64
    ensures Feed(g, w + Zeros(64 - |w|), w) == Zeros(64)
    decreases |w|
  {
    var c: Word := w + Zeros(64 - |w|);
    if w == [] {
      assert c == Zeros(64);
    } else {
      var mixed := MixBit(c, w[0]);
      assert !mixed[0];
      ShiftBits(g, mixed);
      assert Shift(g, mixed) == w[1..] + Zeros(64 - |w[1..]|) by {
        assert forall i :: 0 <= i < 64 ==> Shift(g, mixed)[i] == (i < 63 && c[i + 1]);
      }
      OwnBitsCancel(g, w[1..]);
    }
  }

  /** The generator of the code as 65 message bits. */
  function Generator(g: Word): (r: seq<bool>)
    ensures |r| == 65
  {
    [true] + g
  }

  lemma GeneratorCancels(g: Word)
    ensures Feed(g, Zeros(64), Generator(g)) == Zeros(64)
  {
    var one := MixBit(Zeros(64), true);
    ShiftBits(g, one);
    assert Shift(g, one) == g by {
      assert forall i :: 0 <= i < 64 ==> Shift(g, one)[i] == g[i];
    }
    assert Generator(g)[1..] == g && g + Zeros(64 - |g|) == g;
    OwnBitsCancel(g, g);
  }

  /** The message with the generator's pattern mixed in from bit p. */
  function WithGenerator(g: Word, x: seq<bool>, p: nat): (y: seq<bool>)
    requires p + 65 <= |x|
    ensures |y| == |x|
  {
    x[..p] + (Xor(x[p..p + 65], Generator(g)) + x[p + 65..])
  }

  lemma GeneratorIsBurst(g: Word, x: seq<bool>, p: nat)
    requires p + 65 <= |x|
    ensures WithGenerator(g, x, p) != x && DifferOnlyIn(x, WithGenerator(g, x, p), p, 65)
  {
    var y := WithGenerator(g, x, p);
    assert y[p] == Xor(x[p..p + 65], Generator(g))[0] == !x[p];
    assert y[..p] == x[..p] && y[p + 65..] == x[p + 65..];
    forall i | 0 <= i < |x| && !(p <= i < p + 65) ensures x[i] == y[i] {
      if i < p {
        assert x[i] == x[..p][i];
      } else {
        assert x[i] == x[p + 65..][i - p - 65];
      }
    }
  }

  lemma WindowCancels(g: Word, start: Word, w: seq<bool>)
    requires |w| == 65
    ensures Feed(g, start, Xor(w, Generator(g))) == Feed(g, start, w)
  {
    Superposition(g, start, Zeros(64), w, Generator(g));
    GeneratorCancels(g);
    assert Xor(start, Zeros(64)) == start;
    assert Xor(Feed(g, start, w), Zeros(64)) == Feed(g, start, w);
  }

  /** A 65-bit burst with the generator's pattern goes unnoticed, wherever it starts. */
  lemma GeneratorUnnoticed(g: Word, c: Word, x: seq<bool>, p: nat)
    requires p + 65 <= |x|
    ensures Feed(g, c, WithGenerator(g, x, p)) == Feed(g, c, x)
  {
    var w, rest := x[p..p + 65], x[p + 65..];
    var start := Feed(g, c, x[..p]);
    assert x == x[..p] + (w + rest);
    FeedConcat(g, c, x[..p], w + rest);
    FeedConcat(g, c, x[..p], Xor(w, Generator(g)) + rest);
    FeedConcat(g, start, w, rest);
    FeedConcat(g, start, Xor(w, Generator(g)), rest);
    WindowCancels(g, start, w);
  }

  lemma {:induction false} FromBits(n: nat, x: seq<bool>) returns (id: seq<byte>)
    requires |x| == 8 * n
    ensures |id| == n && Bits(id) == x
    decreases n
  {
    if n == 0 {
      id := [];
    } else {
      var tail := FromBits(n - 1, x[8..]);
      LowBitsOfValue(x[..8]);
      assert Pow2(8) == 256;
      id := [ValueOf(x[..8])] + tail;
      assert x == x[..8] + x[8..];
    }
  }

  lemma UnnoticedTwin(g: Word, c: Word, id: seq<byte>, p: nat) returns (other: seq<byte>)
    requires p + 65 <= 8 * |id|
    ensures other != id && |other| == |id| && DifferOnlyIn(Bits(id), Bits(other), p, 65)
    ensures Register(g, c, other) == Register(g, c, id)
  {
    GeneratorIsBurst(g, Bits(id), p);
    GeneratorUnnoticed(g, c, Bits(id), p);
    other := FromBits(|id|, WithGenerator(g, Bits(id), p));
    RegisterIsFeed(g, c, id);
    RegisterIsFeed(g, c, other);
  }

  ghost predicate IsTwin(id: seq<byte>, other: seq<byte>, p: nat, n: nat) {
    other != id && |other| == |id| && DifferOnlyIn(Bits(id), Bits(other), p, n) && Crc64(other) == Crc64(id)
  }

  /** 64 bits is the exact bound: every identification of at least 9 bytes shares its CRC
      with another one that differs from it inside 65 bits, at any position. */
  lemma BurstBoundIsExact(id: seq<byte>, p: nat)
    requires p + 65 <= 8 * |id|
    ensures exists other: seq<byte> :: IsTwin(id, other, p, 65)
  {
    var other := UnnoticedTwin(POLY, Not(Zeros(64)), id, p);
    assert IsTwin(id, other, p, 65);
  }

  // ---------------------------------------------------------------- the rendering

  const ALPHABET: string := "0123456789ABCDEFGHJKMNPQRSTVWXYZ"

  function Digit(s: seq<bool>): (d: nat)
    requires |s| == 5
    ensures d < 32
  {
    LowBitsOfValue(s);
    assert Pow2(5) == 32;
    ValueOf(s)
  }

  function ShiftFive(v: Word): Word { v[5..] + Zeros(5) }

  /** The n characters written from the last one back, five bits each. */
  function Rendered(v: Word, n: nat): (s: string)
    ensures |s| == n
    decreases n
  {
    if n == 0 then [] else Rendered(ShiftFive(v), n - 1) + [ALPHABET[Digit(v[..5])]]
  }

  /** The serial as shown: 13 characters grouped 4-4-5. */
  function Serial(id: seq<byte>): string {
    Grouped(Rendered(Crc64(id), 13))
  }

  function IndexFrom(ch: char, i: nat): nat
    requires i <= 32
    decreases 32 - i
  {
    if i == 32 || ALPHABET[i] == ch then i else IndexFrom(ch, i + 1)
  }

  /** What a reader of the serial does: each character back to its five bits. */
  function Parsed(s: string): (b: seq<bool>)
    ensures |b| == 5 * |s|
  {
    if s == [] then [] else LowBits(IndexFrom(s[|s| - 1], 0), 5) + Parsed(s[..|s| - 1])
  }

  lemma AlphabetAscends()
    ensures forall i, j :: 0 <= i < j < 32 ==> ALPHABET[i] < ALPHABET[j]
  {
  }

  lemma {:induction false} IndexOfDigit(d: nat, i: nat)
    requires i <= d < 32
    ensures IndexFrom(ALPHABET[d], i) == d
    decreases d - i
  {
    AlphabetAscends();
    if i < d {
      IndexOfDigit(d, i + 1);
    }
  }

  lemma LastDigit(v: Word, n: nat)
    requires 1 <= n
    ensures Parsed(Rendered(v, n)) == v[..5] + Parsed(Rendered(ShiftFive(v), n - 1))
  {
    assert Rendered(v, n)[..n - 1] == Rendered(ShiftFive(v), n - 1);
    IndexOfDigit(Digit(v[..5]), 0);
    LowBitsOfValue(v[..5]);
  }

  lemma SplitFive(v: Word, m: nat)
    requires 5 <= m <= 65
    ensures v[..5] + (ShiftFive(v) + [false])[..m - 5] == (v + [false])[..m]
  {
  }

  lemma {:induction false} ParsedRendering(v: Word, n: nat, m: nat)
    requires n <= 13 && m == 5 * n
    ensures Parsed(Rendered(v, n)) == (v + [false])[..m]
    decreases n
  {
    if n > 0 {
      ParsedRendering(ShiftFive(v), n - 1, m - 5);
      LastDigit(v, n);
      SplitFive(v, m);
    }
  }

  /** The 13 characters determine the 64-bit value. */
  lemma RenderingIsInvertible(v: Word)
    ensures Parsed(Rendered(v, 13))[..64] == v
  {
    ParsedRendering(v, 13, 65);
  }

  /** The alphabet: the digits and the letters, ascending, without I, L, O and U. */
  lemma AlphabetIsCrockfords()
    ensures |ALPHABET| == 32 && forall i, j :: 0 <= i < j < 32 ==> ALPHABET[i] < ALPHABET[j]
    ensures forall ch :: ch in ALPHABET <==> '0' <= ch <= '9' || ('A' <= ch <= 'Z' && ch !in "ILOU")
  {
    AlphabetAscends();
    forall ch | '0' <= ch <= '9' || ('A' <= ch <= 'Z' && ch !in "ILOU")
      ensures ch in ALPHABET
    {
      IsLetter(ch);
    }
  }

  lemma IsLetter(ch: char)
    requires '0' <= ch <= '9' || ('A' <= ch <= 'Z' && ch !in "ILOU")
    ensures ch in ALPHABET
  {
    var i := ch as int - (if ch <= '9' then 48 else if ch <= 'H' then 55 else if ch <= 'K' then 56
                          else if ch <= 'N' then 57 else if ch <= 'T' then 58 else 59);
    assert ALPHABET[i] == ch;
  }

  /** The number a text stands for in base 32, most significant digit first. */
  function Numeral(s: string): nat {
    if s == [] then 0 else 32 * Numeral(s[..|s| - 1]) + IndexFrom(s[|s| - 1], 0)
  }

  lemma {:induction false} NoBits(s: seq<bool>)
    requires forall i :: 0 <= i < |s| ==> !s[i]
    ensures ValueOf(s) == 0
  {
    if s != [] {
      NoBits(s[1..]);
    }
  }

  lemma {:induction false} HighZeros(s: seq<bool>, n: nat)
    ensures ValueOf(s + Zeros(n)) == ValueOf(s)
    decreases |s|
  {
    if s == [] {
      NoBits(s + Zeros(n));
    } else {
      assert (s + Zeros(n))[1..] == s[1..] + Zeros(n);
      HighZeros(s[1..], n);
    }
  }

  lemma {:induction false} ValueInTwo(s: seq<bool>, n: nat, p: nat)
    requires n <= |s| && p == Pow2(n)
    ensures ValueOf(s) == ValueOf(s[..n]) + p * ValueOf(s[n..])
    decreases n
  {
    if n == 0 {
      assert s[0..] == s;
    } else {
      ValueInTwo(s[1..], n - 1, Pow2(n - 1));
      TwiceProduct(Pow2(n - 1), ValueOf(s[n..]));
      assert s[1..][..n - 1] == s[..n][1..] && s[1..][n - 1..] == s[n..];
    }
  }

  lemma TwiceProduct(p: nat, q: nat)
    ensures 2 * (p * q) == 2 * p * q
  {
  }

  /** The n characters are the number of the register, the first the most significant. */
  lemma {:induction false} RenderingIsNumeral(v: Word, n: nat)
    requires forall i :: 5 * n <= i < 64 ==> !v[i]
    ensures Numeral(Rendered(v, n)) == ValueOf(v)
    decreases n
  {
    if n == 0 {
      NoBits(v);
    } else {
      RenderingIsNumeral(ShiftFive(v), n - 1);
      assert Rendered(v, n)[..n - 1] == Rendered(ShiftFive(v), n - 1);
      IndexOfDigit(Digit(v[..5]), 0);
      assert Pow2(5) == 32;
      ValueInTwo(v, 5, 32);
      HighZeros(v[5..], 5);
    }
  }

  /** The claim behind the serial: boards from one lot, whose identifications differ only in a
      window of at most 64 bits, never show the same serial. */
  lemma BurstsChangeSerial(a: seq<byte>, b: seq<byte>, p: nat)
    requires a != b && |a| == |b| && p <= 8 * |a|
    requires DifferOnlyIn(Bits(a), Bits(b), p, 64)
    ensures Serial(a) != Serial(b)
  {
    BurstsChangeCrc(a, b, p);
    if Serial(a) == Serial(b) {
      SameSerialSameCrc(a, b);
    }
  }

  function Grouped(s: string): string
    requires |s| == 13
  {
    s[..4] + "-" + s[4..8] + "-" + s[8..]
  }

  lemma GroupingIsInvertible(s: string)
    requires |s| == 13
    ensures |Grouped(s)| == 15
    ensures s == Grouped(s)[..4] + Grouped(s)[5..9] + Grouped(s)[10..]
  {
    var t := Grouped(s);
    assert t[..4] == s[..4];
    assert t[5..9] == s[4..8];
    assert t[10..] == s[8..];
  }

  lemma SameSerialSameCrc(a: seq<byte>, b: seq<byte>)
    requires Serial(a) == Serial(b)
    ensures Crc64(a) == Crc64(b)
  {
    GroupingIsInvertible(Rendered(Crc64(a), 13));
    GroupingIsInvertible(Rendered(Crc64(b), 13));
    RenderingIsInvertible(Crc64(a));
    RenderingIsInvertible(Crc64(b));
  }
}
