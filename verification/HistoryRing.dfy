/** The ring of firmware-update records in the last flash sector of the touch controller: a
    header with a count, 255 lines of which the count names the newest, and a CRC over the rest.
    Reading, erasing and programming the sector are taken to work. */
module HistoryRing {
  import opened Basics
  import opened Gf2
  import C = ChipSerial

  // ---------------------------------------------------------------- the CRC

  const WIDTH: nat := 32

  /** A word, least significant bit first. */
  type Word = w: seq<bool> | |w| == 32 witness Zeros(32)

  /** 0x82F63B78, lowest byte first. */
  const POLY_BYTES: seq<byte> := [0x78, 0x3B, 0xF6, 0x82]
  const POLY: Word := C.Bits(POLY_BYTES)

  const ONES: Word := C.Bits([0xFF, 0xFF, 0xFF, 0xFF])

  function Shift(c: Word): Word {
    var down := c[1..] + [false];
    if c[0] then Xor(down, POLY) else down
  }

  function Shifts(c: Word, n: nat): Word
    decreases n
  {
    if n == 0 then c else Shifts(Shift(c), n - 1)
  }

  function MixWord(c: Word, w: Word): Word { Shifts(Xor(w, c), WIDTH) }

  function Crc(c: Word, data: seq<byte>): Word
    requires |data| % 4 == 0
    decreases |data|
  {
    if data == [] then c else Crc(MixWord(c, C.Bits(data[..4])), data[4..])
  }

  lemma {:induction false} CrcInTwo(c: Word, a: seq<byte>, b: seq<byte>)
    requires |a| % 4 == 0 && |b| % 4 == 0
    ensures Crc(c, a + b) == Crc(Crc(c, a), b)
    decreases |a|
  {
    if a == [] {
      assert a + b == b;
    } else {
      assert (a + b)[..4] == a[..4] && (a + b)[4..] == a[4..] + b;
      CrcInTwo(MixWord(c, C.Bits(a[..4])), a[4..], b);
    }
  }

  lemma TopOfPoly()
    ensures POLY[31]
  {
  }

  lemma ShiftToZero(c: Word)
    ensures Shift(c) == Zeros(32) <==> c == Zeros(32)
  {
    TopOfPoly();
    var s := Shift(c);
    if c[0] {
      assert s[31];
    } else {
      assert forall i :: 0 <= i < 31 ==> s[i] == c[i + 1];
      assert s == Zeros(32) ==> forall i :: 1 <= i < 32 ==> c[i] == s[i - 1];
      assert s == Zeros(32) ==> c == Zeros(32);
      assert c == Zeros(32) ==> s == Zeros(32);
    }
  }

  lemma {:induction false} ShiftsToZero(c: Word, n: nat)
    ensures Shifts(c, n) == Zeros(32) <==> c == Zeros(32)
    decreases n
  {
    if n > 0 {
      ShiftToZero(c);
      ShiftsToZero(Shift(c), n - 1);
    }
  }

  lemma XorIsZero(x: Word, y: Word)
    ensures Xor(x, y) == Zeros(32) <==> x == y
  {
  }

  function ByteOf(s: seq<bool>): byte
    requires |s| == 8
  {
    C.LowBitsOfValue(s);
    C.EightBits();
    C.ValueOf(s)
  }

  /** The four bytes that store a CRC, lowest first. */
  function CrcBytes(c: Word): (data: seq<byte>)
    ensures |data| == 4
  {
    seq(4, k requires 0 <= k < 4 => ByteOf(c[8 * k..8 * k + 8]))
  }

  lemma BitsOfByte(s: seq<bool>)
    requires |s| == 8
    ensures C.ByteBits(ByteOf(s)) == s
  {
    C.LowBitsOfValue(s);
  }

  lemma CrcByteAt(c: Word, k: nat)
    requires k < 4
    ensures C.ByteBits(CrcBytes(c)[k]) == c[8 * k..8 * k + 8]
  {
    var s := c[8 * k..8 * k + 8];
    BitsOfByte(s);
    assert CrcBytes(c)[k] == ByteOf(s);
  }

  lemma SameBytes(b: Word, c: Word)
    requires forall k :: 0 <= k < 4 ==> b[8 * k..8 * k + 8] == c[8 * k..8 * k + 8]
    ensures b == c
  {
    forall i | 0 <= i < 32
      ensures b[i] == c[i]
    {
      var k := i / 8;
      assert b[i] == b[8 * k..8 * k + 8][i % 8] && c[i] == c[8 * k..8 * k + 8][i % 8];
    }
  }

  lemma BitsOfCrcBytes(c: Word)
    ensures C.Bits(CrcBytes(c)) == c
  {
    var data := CrcBytes(c);
    forall k | 0 <= k < 4
      ensures C.Bits(data)[8 * k..8 * k + 8] == c[8 * k..8 * k + 8]
    {
      CrcByteAt(c, k);
      C.BitsAt(data, k, 8 * k);
    }
    SameBytes(C.Bits(data), c);
  }

  lemma CrcBytesOfBits(d: seq<byte>)
    requires |d| == 4
    ensures CrcBytes(C.Bits(d)) == d
  {
    var c: Word := C.Bits(d);
    BitsOfCrcBytes(c);
    C.BitsAreInjective(CrcBytes(c), d);
  }

  // ---------------------------------------------------------------- what the CRC is

  /** The powers of the CRC-32C (Castagnoli) generator. */
  const CASTAGNOLI: set<nat> := {32, 28, 27, 26, 25, 23, 22, 20, 19, 18, 14, 13, 11, 10, 9, 8, 6, 0}

  lemma PolyBit(k: nat, j: nat)
    requires k < 4 && j < 8
    ensures BitOf(POLY_BYTES[k], j) <==> 31 - (8 * k + j) in CASTAGNOLI
  {
    C.Halvings(POLY_BYTES[k], j);
  }

  lemma SpellsCastagnoli(g: Word)
    requires IsMessage(POLY_BYTES, g)
    ensures [true] + g == Polynomial(CASTAGNOLI, 32)
  {
    forall i | 0 <= i < 32
      ensures g[i] <==> 31 - i in CASTAGNOLI
    {
      PolyBit(i / 8, i % 8);
    }
  }

  /** Mixing bits in and shifting once for each divides by the generator. */
  lemma {:induction false} MixedDivides(c: Word, bits: seq<bool>, n: nat)
    requires |bits| == n <= 32
    ensures Shifts(Xor(bits + Zeros(32 - n), c), n) == Divide(POLY, c, bits)
    decreases n
  {
    if n == 0 {
      assert Xor(bits + Zeros(32), c) == c;
    } else {
      MixedStep(c, bits, Xor(bits + Zeros(32 - n), c));
      MixedDivides(Step(POLY, c, bits[0]), bits[1..], n - 1);
    }
  }

  lemma MixedStep(c: Word, bits: seq<bool>, x: Word)
    requires 1 <= |bits| <= 32 && x == Xor(bits + Zeros(32 - |bits|), c)
    ensures Shift(x) == Xor(bits[1..] + Zeros(33 - |bits|), Step(POLY, c, bits[0]))
  {
    StepOf(POLY, c, bits, x);
  }

  lemma StepOf(g: Word, c: Word, bits: seq<bool>, x: Word)
    requires 1 <= |bits| <= 32 && x == Xor(bits + Zeros(32 - |bits|), c)
    ensures var down := x[1..] + [false];
      (if x[0] then Xor(down, g) else down) == Xor(bits[1..] + Zeros(33 - |bits|), Step(g, c, bits[0]))
  {
    var down, d, rest := x[1..] + [false], Step(g, c, bits[0]), bits[1..] + Zeros(33 - |bits|);
    var shifted := if x[0] then Xor(down, g) else down;
    var padded := bits + Zeros(32 - |bits|);
    forall i | 0 <= i < 32
      ensures shifted[i] == (rest[i] != d[i])
    {
      if i < 31 {
        assert padded[i + 1] == rest[i];
      }
    }
  }

  lemma {:induction false} DivideConcat(g: Word, c: Word, x: seq<bool>, y: seq<bool>)
    ensures Divide(g, c, x + y) == Divide(g, Divide(g, c, x), y)
    decreases |x|
  {
    if x == [] {
      assert x + y == y;
    } else {
      assert (x + y)[1..] == x[1..] + y;
      DivideConcat(g, Step(g, c, x[0]), x[1..], y);
    }
  }

  lemma {:induction false} BitsConcat(a: seq<byte>, b: seq<byte>)
    ensures C.Bits(a + b) == C.Bits(a) + C.Bits(b)
    decreases |a|
  {
    if a == [] {
      assert a + b == b;
    } else {
      assert (a + b)[1..] == a[1..] + b;
      BitsConcat(a[1..], b);
    }
  }

  lemma {:induction false} CrcDivides(c: Word, data: seq<byte>)
    requires |data| % 4 == 0
    ensures Crc(c, data) == Divide(POLY, c, C.Bits(data))
    decreases |data|
  {
    if data != [] {
      var word := C.Bits(data[..4]);
      assert word + Zeros(0) == word;
      MixedDivides(c, word, 32);
      CrcDivides(MixWord(c, word), data[4..]);
      assert data == data[..4] + data[4..];
      BitsConcat(data[..4], data[4..]);
      DivideConcat(POLY, c, word, C.Bits(data[4..]));
    }
  }

  lemma AllOnes(c: Word, data: seq<byte>)
    requires IsMessage(data, c) && data == [0xFF, 0xFF, 0xFF, 0xFF]
    ensures forall i :: 0 <= i < 32 ==> c[i]
  {
    forall i | 0 <= i < 32
      ensures c[i]
    {
      C.Halvings(data[i / 8], i % 8);
    }
  }

  /** What the CRC is: the message times the 32nd power, its first 32 bits inverted, leaves the
      CRC, and nothing else, as its remainder by the generator. */
  lemma CrcIsRemainder(data: seq<byte>, r: seq<bool>)
    requires |data| % 4 == 0
    ensures IsMessage(data, C.Bits(data))
    ensures LeavesRemainder(InvertedFront(C.Bits(data) + Zeros(32), 32), Polynomial(CASTAGNOLI, 32), r)
       <==> r == Crc(ONES, data)
  {
    C.BitsAreTheMessage(data);
    C.BitsAreTheMessage(POLY_BYTES);
    C.BitsAreTheMessage([0xFF, 0xFF, 0xFF, 0xFF]);
    AllOnes(ONES, [0xFF, 0xFF, 0xFF, 0xFF]);
    SpellsCastagnoli(POLY);
    CrcDivides(ONES, data);
    OnesInvert(ONES, C.Bits(data));
    RegisterIsRemainder(POLY, ONES, C.Bits(data), r);
  }

  // ---------------------------------------------------------------- the sector

  type Sector = s: seq<byte> | |s| == 0x1000 witness Repeated(0x1000, 0xFF)

  const HEADER: seq<byte> := [0x48, 0x69, 0x73, 0x74, 0x6F, 0x72, 0x79, 0x00]

  /** The twelve bytes of a record that carry something; four zeros follow them in a line. */
  type Record = r: seq<byte> | |r| == 12 witness Repeated(12, 0)

  function Erased(): Sector { Repeated(0x1000, 0xFF) }

  /** The success criterion of the update: the CRC over the whole sector is zero. */
  predicate ChecksOut(s: Sector) { Crc(ONES, s) == Zeros(32) }

  function StoredCrc(data: seq<byte>): (stored: seq<byte>)
    requires |data| % 4 == 0
    ensures |stored| == 4
  {
    CrcBytes(Crc(ONES, data))
  }

  function WithCrc(s: Sector): Sector { s[..0xFFC] + StoredCrc(s[..0xFFC]) }

  /** The check succeeds exactly on the sectors that end in the CRC of the rest. */
  lemma ChecksOutIff(s: Sector)
    ensures ChecksOut(s) <==> s[0xFFC..] == StoredCrc(s[..0xFFC])
  {
    var rest, stored := s[..0xFFC], s[0xFFC..];
    assert s == rest + stored;
    CrcInTwo(ONES, rest, stored);
    LastWordChecks(Crc(ONES, rest), stored);
  }

  lemma LastWordChecks(c: Word, stored: seq<byte>)
    requires |stored| == 4
    ensures Crc(c, stored) == Zeros(32) <==> stored == CrcBytes(c)
  {
    OneWord(c, stored);
    ShiftsToZero(Xor(C.Bits(stored), c), WIDTH);
    XorIsZero(C.Bits(stored), c);
    BitsOfCrcBytes(c);
    CrcBytesOfBits(stored);
  }

  lemma OneWord(c: Word, data: seq<byte>)
    requires |data| == 4
    ensures Crc(c, data) == MixWord(c, C.Bits(data))
  {
    assert data[..4] == data && data[4..] == [];
    assert Crc(MixWord(c, C.Bits(data)), data[4..]) == MixWord(c, C.Bits(data));
  }

  predicate LooksEmpty(s: Sector) { s[0] == 0xFF && s[1] == 0xFF && s[0xFFF] == 0xFF && s[0xFFE] == 0xFF }

  predicate HasHeader(s: Sector) { s[..8] == HEADER }

  /** The line of the next record: counts run from 1 to 255 and skip 0 when they wrap. */
  function NextSlot(s: Sector): (slot: nat)
    ensures 1 <= slot <= 255
  {
    if LooksEmpty(s) then 1
    else
      var count := (s[8] as int + 1) % 0x100;
      if count == 0 then 1 else count
  }

  function Line(r: Record): seq<byte> { r + [0x00, 0x00, 0x00, 0x00] }

  function WithLine(s: Sector, slot: nat, r: Record): Sector
    requires 1 <= slot <= 255
  {
    s[..16 * slot] + Line(r) + s[16 * slot + 16..]
  }

  function WithCount(s: Sector, slot: nat): Sector
    requires 1 <= slot <= 255
  {
    HEADER + [slot] + s[9..]
  }

  /** What one update leaves in the sector. */
  function Updated(s: Sector, r: Record): Sector {
    if LooksEmpty(s) || HasHeader(s) then WithCrc(WithLine(WithCount(s, NextSlot(s)), NextSlot(s), r))
    else Erased()
  }

  function After(records: seq<Record>): Sector {
    if records == [] then Erased() else Updated(After(records[..|records| - 1]), records[|records| - 1])
  }

  function SlotOf(j: nat): (slot: nat)
    ensures 1 <= slot <= 255
  {
    j % 255 + 1
  }

  function Payload(s: Sector, slot: nat): Record
    requires 1 <= slot <= 255
  {
    s[16 * slot..16 * slot + 12]
  }

  // ---------------------------------------------------------------- the ring

  /** Record j of a history of n is among the last 255, and its line holds it. */
  predicate Holds(s: Sector, records: seq<Record>, j: nat)
    requires j < |records|
  {
    |records| - j <= 255 ==> Payload(s, SlotOf(j)) == records[j]
  }

  predicate IsHistory(s: Sector, records: seq<Record>) {
    && records != []
    && HasHeader(s) && s[8] == SlotOf(|records| - 1)
    && AllHeld(s, records) && ChecksOut(s)
  }

  /** Two sectors agree from one place up to another. */
  predicate Agree(s: Sector, t: Sector, from: nat, to: nat)
    requires to <= 0x1000
  {
    forall i :: from <= i < to ==> s[i] == t[i]
  }

  /** Apart from header, count and CRC, only one line may differ. */
  predicate SameButLine(s: Sector, t: Sector, slot: nat) {
    forall i :: 9 <= i < 0xFFC && (i < 16 * slot || 16 * slot + 16 <= i) ==> t[i] == s[i]
  }

  lemma CrcWritten(s: Sector)
    ensures ChecksOut(WithCrc(s)) && Agree(WithCrc(s), s, 0, 0xFFC)
  {
    var t := WithCrc(s);
    assert t[..0xFFC] == s[..0xFFC];
    assert forall i :: 0 <= i < 0xFFC ==> t[..0xFFC][i] == s[..0xFFC][i];
    ChecksOutIff(t);
  }

  lemma CountWritten(s: Sector, slot: nat)
    requires 1 <= slot <= 255
    ensures HasHeader(WithCount(s, slot)) && WithCount(s, slot)[8] == slot
    ensures Agree(WithCount(s, slot), s, 9, 0x1000)
  {
  }

  lemma LineWritten(s: Sector, slot: nat, r: Record)
    requires 1 <= slot <= 255
    ensures Payload(WithLine(s, slot, r), slot) == r
    ensures Agree(WithLine(s, slot, r), s, 0, 16 * slot)
    ensures Agree(WithLine(s, slot, r), s, 16 * slot + 16, 0x1000)
  {
  }

  lemma HeaderStays(s: Sector, t: Sector)
    requires Agree(t, s, 0, 9) && HasHeader(s)
    ensures HasHeader(t) && t[8] == s[8]
  {
  }

  lemma PayloadStays(s: Sector, t: Sector, slot: nat)
    requires 1 <= slot <= 255 && Agree(t, s, 16 * slot, 16 * slot + 12)
    ensures Payload(t, slot) == Payload(s, slot)
  {
  }

  lemma UpdateWrites(s: Sector, r: Record)
    requires LooksEmpty(s) || HasHeader(s)
    ensures HasHeader(Updated(s, r)) && Updated(s, r)[8] == NextSlot(s) && ChecksOut(Updated(s, r))
    ensures Payload(Updated(s, r), NextSlot(s)) == r && SameButLine(s, Updated(s, r), NextSlot(s))
  {
    var slot := NextSlot(s);
    var counted := WithCount(s, slot);
    CountWritten(s, slot);
    var lined := WithLine(counted, slot, r);
    LineWritten(counted, slot, r);
    HeaderStays(counted, lined);
    var t := WithCrc(lined);
    CrcWritten(lined);
    HeaderStays(lined, t);
    PayloadStays(lined, t, slot);
  }

  lemma HoldsStill(s: Sector, t: Sector, records: seq<Record>, r: Record, j: nat)
    requires j <= |records| && (j < |records| ==> Holds(s, records, j))
    requires SameButLine(s, t, SlotOf(|records|)) && Payload(t, SlotOf(|records|)) == r
    ensures Holds(t, records + [r], j)
  {
  }

  lemma NextSlotFollows(s: Sector, n: nat)
    requires HasHeader(s) && s[8] == SlotOf(n)
    ensures NextSlot(s) == SlotOf(n + 1)
  {
  }

  predicate AllHeld(s: Sector, records: seq<Record>) { forall j: nat :: j < |records| ==> Holds(s, records, j) }

  lemma AllHeldStill(s: Sector, t: Sector, records: seq<Record>, r: Record)
    requires AllHeld(s, records)
    requires SameButLine(s, t, SlotOf(|records|)) && Payload(t, SlotOf(|records|)) == r
    ensures AllHeld(t, records + [r])
  {
    forall j: nat | j < |records| + 1
      ensures Holds(t, records + [r], j)
    {
      HoldsStill(s, t, records, r, j);
    }
  }

  lemma WrittenIsHistory(s: Sector, t: Sector, records: seq<Record>, r: Record)
    requires AllHeld(s, records) && HasHeader(t) && t[8] == SlotOf(|records|) && ChecksOut(t)
    requires SameButLine(s, t, SlotOf(|records|)) && Payload(t, SlotOf(|records|)) == r
    ensures IsHistory(t, records + [r])
  {
    AllHeldStill(s, t, records, r);
  }

  lemma UpdateExtends(s: Sector, records: seq<Record>, r: Record)
    requires IsHistory(s, records)
    ensures IsHistory(Updated(s, r), records + [r])
  {
    NextSlotFollows(s, |records| - 1);
    UpdateWrites(s, r);
    WrittenIsHistory(s, Updated(s, r), records, r);
  }

  lemma UpdateStarts(s: Sector, r: Record)
    requires LooksEmpty(s)
    ensures IsHistory(Updated(s, r), [r])
  {
    UpdateWrites(s, r);
    WrittenIsHistory(s, Updated(s, r), [], r);
    assert [] + [r] == [r];
  }

  /** From an erased sector, any history of updates keeps the header, the place and the payload
      of the last 255 records, and a CRC that checks out. */
  lemma {:induction false} HistoryIsKept(records: seq<Record>)
    requires records != []
    ensures IsHistory(After(records), records)
    decreases |records|
  {
    var init, r := records[..|records| - 1], records[|records| - 1];
    assert records == init + [r];
    if init == [] {
      assert records == [r];
      UpdateStarts(After(init), r);
    } else {
      HistoryIsKept(init);
      UpdateExtends(After(init), init, r);
    }
  }

  /** A sector that is neither empty nor headed ends erased: neither what it held nor the new
      record is there, and the update after that starts a new history. */
  lemma UnknownSectorIsLost(s: Sector, r: Record, next: Record)
    requires !LooksEmpty(s) && !HasHeader(s)
    ensures Updated(s, r) == Erased()
    ensures IsHistory(Updated(Updated(s, r), next), [next])
  {
    UpdateStarts(Updated(s, r), next);
  }

  /** The header spells its name, ended by a zero. */
  lemma HeaderSpellsHistory()
    ensures |HEADER| == 8 && HEADER[7] == 0 && forall i :: 0 <= i < 7 ==> HEADER[i] == "History"[i] as int
  {
  }

  /** The rest of the newest line is zero, except for line 255, where the CRC takes its place. */
  lemma LineEndsInZeros(s: Sector, r: Record)
    requires LooksEmpty(s) || HasHeader(s)
    ensures NextSlot(s) < 255 ==> ZerosAt(Updated(s, r), 16 * NextSlot(s) + 12)
  {
    var slot := NextSlot(s);
    if slot < 255 {
      var lined := WithLine(WithCount(s, slot), slot, r);
      PaddingWritten(WithCount(s, slot), slot, r);
      CrcWritten(lined);
      ZerosStay(lined, WithCrc(lined), 16 * slot + 12);
    }
  }

  predicate ZerosAt(s: Sector, at: nat)
    requires at + 4 <= 0x1000
  {
    s[at] == 0 && s[at + 1] == 0 && s[at + 2] == 0 && s[at + 3] == 0
  }

  lemma PaddingWritten(s: Sector, slot: nat, r: Record)
    requires 1 <= slot <= 255
    ensures ZerosAt(WithLine(s, slot, r), 16 * slot + 12)
  {
  }

  lemma ZerosStay(s: Sector, t: Sector, at: nat)
    requires at + 4 <= 0xFFC && ZerosAt(s, at) && Agree(t, s, 0, 0xFFC)
    ensures ZerosAt(t, at)
  {
  }

  // ---------------------------------------------------------------- the update

  lemma NextWord(c: Word, data: seq<byte>, k: nat)
    requires (k + 1) * 4 <= |data|
    ensures Crc(c, data[..(k + 1) * 4]) == MixWord(Crc(c, data[..k * 4]), C.Bits(data[k * 4..(k + 1) * 4]))
  {
    var done, word := data[..k * 4], data[k * 4..(k + 1) * 4];
    assert data[..(k + 1) * 4] == done + word;
    CrcInTwo(c, done, word);
    OneWord(Crc(c, done), word);
  }

  /** The CRC of a buffer, word by word and bit by bit; bytes after the last whole word are ignored. */
  method CalculateCrc32(data: seq<byte>) returns (crc: Word)
    ensures crc == Crc(ONES, data[..|data| / 4 * 4])
  {
    crc := CrcFrom(data, ONES);
  }

  method CrcFrom(data: seq<byte>, start: Word) returns (crc: Word)
    ensures crc == Crc(start, data[..|data| / 4 * 4])
  {
    crc := start;
    for k := 0 to |data| / 4
      invariant crc == Crc(start, data[..k * 4])
    {
      NextWord(start, data, k);
      crc := MixInto(crc, C.Bits(data[k * 4..(k + 1) * 4]));
    }
  }

  method MixInto(c: Word, w: Word) returns (crc: Word)
    ensures crc == MixWord(c, w)
  {
    crc := Xor(w, c);
    var j := 0;
    while j < WIDTH
      invariant 0 <= j <= WIDTH
      invariant Shifts(crc, WIDTH - j) == MixWord(c, w)
    {
      crc := Shift(crc);
      j := j + 1;
    }
  }

  method PutBytes(buffer: array<byte>, at: nat, data: seq<byte>)
    requires at + |data| <= buffer.Length
    modifies buffer
    ensures buffer[..] == old(buffer[..at]) + data + old(buffer[at + |data|..])
  {
    for k := 0 to |data|
      invariant buffer[..at] == old(buffer[..at])
      invariant buffer[at..at + k] == data[..k]
      invariant buffer[at + |data|..] == old(buffer[at + |data|..])
    {
      buffer[at + k] := data[k];
    }
    assert data[..|data|] == data;
  }

  /** Header and count; the slot is where the record goes. */
  method CountUp(buffer: array<byte>, empty: bool) returns (slot: nat)
    requires buffer.Length == 0x1000 && empty == LooksEmpty(buffer[..])
    requires empty || HasHeader(buffer[..])
    modifies buffer
    ensures slot == NextSlot(old(buffer[..])) && buffer[..] == WithCount(old(buffer[..]), slot)
  {
    slot := 0;
    if empty {
      PutBytes(buffer, 0, HEADER);
      assert buffer[..8] == HEADER && buffer[9..] == old(buffer[9..]);
    } else {
      slot := (buffer[8] as int + 1) % 0x100;
      buffer[8] := slot;
    }
    if slot == 0 {
      slot := 1;
      buffer[8] := slot;
    }
    assert buffer[..8] == HEADER && buffer[9..] == old(buffer[9..]);
    assert buffer[..] == buffer[..8] + [buffer[8]] + buffer[9..];
  }

  method PutLine(buffer: array<byte>, slot: nat, r: Record)
    requires buffer.Length == 0x1000 && 1 <= slot <= 255
    modifies buffer
    ensures buffer[..] == WithLine(old(buffer[..]), slot, r)
  {
    PutBytes(buffer, 16 * slot, Line(r));
  }

  method StoreCrc(data: seq<byte>) returns (stored: seq<byte>)
    requires |data| % 4 == 0
    ensures stored == StoredCrc(data)
  {
    var crc := CalculateCrc32(data);
    assert data[..|data| / 4 * 4] == data;
    stored := CrcBytes(crc);
  }

  method PutCrc(buffer: array<byte>)
    requires buffer.Length == 0x1000
    modifies buffer
    ensures buffer[..] == WithCrc(old(buffer[..]))
  {
    var stored := StoreCrc(buffer[..0xFFC]);
    PutBytes(buffer, 0xFFC, stored);
    assert old(buffer[..])[..0xFFC] == old(buffer[..0xFFC]);
  }

  method Dump(flash: array<byte>) returns (buffer: array<byte>)
    requires flash.Length == 0x1000
    ensures fresh(buffer) && buffer.Length == 0x1000 && buffer[..] == flash[..]
  {
    buffer := new byte[0x1000](i requires 0 <= i < 0x1000 reads flash => flash[i]);
  }

  method Erase(flash: array<byte>)
    requires flash.Length == 0x1000
    modifies flash
    ensures flash[..] == Erased()
  {
    forall i | 0 <= i < 0x1000 {
      flash[i] := 0xFF;
    }
  }

  method Program(flash: array<byte>, buffer: array<byte>)
    requires flash.Length == buffer.Length == 0x1000
    modifies flash
    ensures flash[..] == old(buffer[..])
  {
    forall i | 0 <= i < 0x1000 {
      flash[i] := buffer[i];
    }
  }

  /** himax_FW_update_record on the sector: read it, erase it, and unless something unknown was
      in it edit the copy and program it. */
  method UpdateRecord(flash: array<byte>, r: Record)
    requires flash.Length == 0x1000
    modifies flash
    ensures flash[..] == Updated(old(flash[..]), r)
  {
    var buffer := Dump(flash);
    Erase(flash);
    var empty := LooksEmpty(buffer[..]);
    if empty || HasHeader(buffer[..]) {
      var slot := CountUp(buffer, empty);
      PutLine(buffer, slot, r);
      PutCrc(buffer);
      Program(flash, buffer);
    }
  }
}
