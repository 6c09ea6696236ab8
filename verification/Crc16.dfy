/**
 * CRC-16 with polynomial 0x1021 and initial value 0xffff in the form the decoder protocol uses:
 * message bytes enter the register at its low end (no augmentation by zero bits).
 */
module Crc16 {
  type Byte = bv8

  /** Addition of polynomials over the two-element field. */
  function Plus(a: bv16, b: bv16): bv16 {
    a ^ b
  }

  /** Multiplication by x modulo the polynomial, on the 16 coefficients in the register. */
  function MulX(c: bv16): bv16 {
    (c << 1) ^ ((0 - (c >> 15)) & 0x1021)
  }

  /** The same with a branch: the polynomial is subtracted when the top coefficient is set. */
  lemma MulXCases(c: bv16)
    ensures c & 0x8000 != 0 ==> MulX(c) == (c << 1) ^ 0x1021
    ensures c & 0x8000 == 0 ==> MulX(c) == c << 1
  {
    if c & 0x8000 != 0 {
      assert (0 - (c >> 15)) & 0x1021 == 0x1021;
    } else {
      assert (0 - (c >> 15)) & 0x1021 == 0;
    }
  }

  function Shift(c: bv16, n: nat): bv16
    decreases n
  {
    if n == 0 then c else Shift(MulX(c), n - 1)
  }

  function TableEntry(b: Byte): bv16 {
    Shift((b as bv16) << 8, 8)
  }

  /** The table-driven step for one message byte. */
  function Step(crc: bv16, b: Byte): bv16 {
    Plus(Plus(TableEntry((crc >> 8) as Byte), crc << 8), b as bv16)
  }

  function CrcFrom(crc: bv16, bytes: seq<Byte>): bv16
    decreases |bytes|
  {
    if bytes == [] then crc else CrcFrom(Step(crc, bytes[0]), bytes[1..])
  }

  function Crc(bytes: seq<Byte>): bv16 {
    CrcFrom(0xffff, bytes)
  }

  // ---- The reference: long division, one bit at a time ----

  /** Brings down the next dividend bit (0 or 1) and reduces. */
  function DivideBit(reg: bv16, bit: bv16): bv16 {
    MulX(reg) ^ bit
  }

  /** The bit that is left after shifting `b` down, as a register value. */
  function Bit(b: Byte): bv16 {
    (b & 1) as bv16
  }

  /** The bits of a byte, most significant first. */
  function BitsOf(b: Byte): (bits: seq<bv16>)
    ensures |bits| == 8
  {
    [Bit(b >> 7), Bit(b >> 6), Bit(b >> 5), Bit(b >> 4), Bit(b >> 3), Bit(b >> 2), Bit(b >> 1), Bit(b)]
  }

  function Bits(bytes: seq<Byte>): seq<bv16>
    decreases |bytes|
  {
    if bytes == [] then [] else BitsOf(bytes[0]) + Bits(bytes[1..])
  }

  /** The remainder register after bringing down all `bits`. */
  function Divide(reg: bv16, bits: seq<bv16>): bv16
    decreases |bits|
  {
    if bits == [] then reg else Divide(DivideBit(reg, bits[0]), bits[1..])
  }

  lemma {:induction false} DivideAppend(reg: bv16, p: seq<bv16>, q: seq<bv16>)
    ensures Divide(reg, p + q) == Divide(Divide(reg, p), q)
    decreases |p|
  {
    if p == [] {
      assert p + q == q;
    } else {
      assert (p + q)[1..] == p[1..] + q;
      DivideAppend(DivideBit(reg, p[0]), p[1..], q);
    }
  }

  lemma MulXXor(a: bv16, b: bv16)
    ensures MulX(a ^ b) == MulX(a) ^ MulX(b)
  {
  }

  lemma DivideBitPlus(s: bv16, low: bv16, bit: bv16)
    ensures DivideBit(Plus(s, low), bit) == Plus(MulX(s), DivideBit(low, bit))
  {
    MulXXor(s, low);
  }

  /** Division is linear: the register's two parts can be divided apart and added. */
  lemma {:induction false} DividePlus(s: bv16, low: bv16, bits: seq<bv16>)
    ensures Divide(Plus(s, low), bits) == Plus(Shift(s, |bits|), Divide(low, bits))
    decreases |bits|
  {
    hide MulX;
    hide DivideBit;
    hide Plus;
    if bits != [] {
      DivideBitPlus(s, low, bits[0]);
      DividePlus(MulX(s), DivideBit(low, bits[0]), bits[1..]);
    }
  }

  lemma DivideNext(low: bv16, bits: seq<bv16>, k: nat)
    requires k < |bits|
    ensures Divide(low, bits[k..]) == Divide(DivideBit(low, bits[k]), bits[k + 1..])
  {
    assert bits[k..][0] == bits[k] && bits[k..][1..] == bits[k + 1..];
  }

  /** A low half moves up unreduced while the eight bits of a byte follow it. */
  lemma DivideLowByte(low: bv16, b: Byte)
    requires low & 0xff00 == 0
    ensures Divide(low, BitsOf(b)) == Plus(low << 8, b as bv16)
  {
    var bits := BitsOf(b);
    var l1 := DivideBit(low, bits[0]);
    var l2 := DivideBit(l1, bits[1]);
    var l3 := DivideBit(l2, bits[2]);
    var l4 := DivideBit(l3, bits[3]);
    var l5 := DivideBit(l4, bits[4]);
    var l6 := DivideBit(l5, bits[5]);
    var l7 := DivideBit(l6, bits[6]);
    var l8 := DivideBit(l7, bits[7]);
    assert bits[0..] == bits && bits[8..] == [];
    DivideNext(low, bits, 0);
    DivideNext(l1, bits, 1);
    DivideNext(l2, bits, 2);
    DivideNext(l3, bits, 3);
    DivideNext(l4, bits, 4);
    DivideNext(l5, bits, 5);
    DivideNext(l6, bits, 6);
    DivideNext(l7, bits, 7);
    LowBits(low, b);
  }

  lemma LowBits(low: bv16, b: Byte)
    requires low & 0xff00 == 0
    ensures
      DivideBit(DivideBit(DivideBit(DivideBit(DivideBit(DivideBit(DivideBit(DivideBit(
        low, Bit(b >> 7)), Bit(b >> 6)), Bit(b >> 5)), Bit(b >> 4)), Bit(b >> 3)), Bit(b >> 2)), Bit(b >> 1)), Bit(b))
      == (low << 8) ^ (b as bv16)
  {
  }

  lemma HighAndLow(crc: bv16, high: bv16, low: bv16)
    requires high == ((crc >> 8) as Byte as bv16) << 8 && low == crc & 0x00ff
    ensures crc == Plus(high, low) && low & 0xff00 == 0 && crc << 8 == low << 8
  {
  }

  lemma PlusAssoc(a: bv16, b: bv16, c: bv16)
    ensures Plus(a, Plus(b, c)) == Plus(Plus(a, b), c)
  {
  }

  /** One table-driven step is eight rounds of long division. */
  lemma StepDivides(crc: bv16, b: Byte)
    ensures Step(crc, b) == Divide(crc, BitsOf(b))
  {
    hide Plus;
    hide Shift;
    hide Divide;
    var high, low := ((crc >> 8) as Byte as bv16) << 8, crc & 0x00ff;
    HighAndLow(crc, high, low);
    DivideLowByte(low, b);
    DividePlus(high, low, BitsOf(b));
    PlusAssoc(Shift(high, 8), low << 8, b as bv16);
  }

  /** The table-driven CRC of any byte string is the remainder of bit-by-bit division. */
  lemma {:induction false} CrcIsDivision(crc: bv16, bytes: seq<Byte>)
    ensures CrcFrom(crc, bytes) == Divide(crc, Bits(bytes))
    decreases |bytes|
  {
    if bytes != [] {
      StepDivides(crc, bytes[0]);
      DivideAppend(crc, BitsOf(bytes[0]), Bits(bytes[1..]));
      CrcIsDivision(Step(crc, bytes[0]), bytes[1..]);
    }
  }

  // ---- Reversibility ----

  /** Undoes `MulX`: the polynomial is odd, so the lowest bit tells whether it was subtracted. */
  function DivX(c: bv16): bv16 {
    ((c ^ ((0 - (c & 1)) & 0x1021)) >> 1) | (c << 15)
  }

  lemma MulXBijective(c: bv16)
    ensures DivX(MulX(c)) == c && MulX(DivX(c)) == c
  {
  }

  function Unshift(c: bv16, n: nat): bv16
    decreases n
  {
    if n == 0 then c else DivX(Unshift(c, n - 1))
  }

  /** Feeding zero bits is a bijection on the 16-bit registers. */
  lemma {:induction false} ShiftBijective(c: bv16, n: nat)
    ensures Unshift(Shift(c, n), n) == c && Shift(Unshift(c, n), n) == c
    decreases n
  {
    if n > 0 {
      MulXBijective(c);
      ShiftBijective(MulX(c), n - 1);
      assert Unshift(Shift(c, n), n) == DivX(Unshift(Shift(MulX(c), n - 1), n - 1));
      MulXBijective(Unshift(c, n - 1));
      ShiftBijective(c, n - 1);
    }
  }

  lemma PlusZero(c: bv16)
    ensures Plus(c, 0) == c && Plus(0 << 8, (0 as Byte) as bv16) == 0
  {
  }

  /** The step for a zero byte is a bijection on the registers, with inverse `Unshift(_, 8)`. */
  lemma ZeroStepBijective(c: bv16)
    ensures Unshift(Step(c, 0), 8) == c && Step(Unshift(c, 8), 0) == c
  {
    ZeroStepShifts(c);
    ZeroStepShifts(Unshift(c, 8));
    ShiftBijective(c, 8);
  }

  lemma ZeroStepShifts(c: bv16)
    ensures Step(c, 0) == Shift(c, 8)
  {
    hide *;
    PlusZero(c);
    PlusZero(Shift(c, 8));
    StepDivides(c, 0);
    DivideLowByte(0, 0);
    DividePlus(c, 0, BitsOf(0));
  }

  lemma DivideBitInjective(c: bv16, d: bv16, bit: bv16)
    requires DivideBit(c, bit) == DivideBit(d, bit)
    ensures c == d
  {
    MulXBijective(c);
    MulXBijective(d);
    assert MulX(c) == MulX(d);
  }

  lemma {:induction false} DivideInjective(c: bv16, d: bv16, bits: seq<bv16>)
    requires Divide(c, bits) == Divide(d, bits)
    ensures c == d
    decreases |bits|
  {
    hide DivideBit;
    if bits != [] {
      DivideInjective(DivideBit(c, bits[0]), DivideBit(d, bits[0]), bits[1..]);
      DivideBitInjective(c, d, bits[0]);
    }
  }

  // ---- Burst errors ----

  lemma {:induction false} CrcAppend(crc: bv16, p: seq<Byte>, q: seq<Byte>)
    ensures CrcFrom(crc, p + q) == CrcFrom(CrcFrom(crc, p), q)
    decreases |p|
  {
    if p == [] {
      assert p + q == q;
    } else {
      assert (p + q)[1..] == p[1..] + q;
      CrcAppend(Step(crc, p[0]), p[1..], q);
    }
  }

  function High(c: bv16): Byte {
    (c >> 8) as Byte
  }

  function Up(c: bv16): bv16 {
    c << 8
  }

  function Wide(b: Byte): bv16 {
    b as bv16
  }

  lemma StepIs(crc: bv16, b: Byte)
    ensures Step(crc, b) == Plus(Plus(TableEntry(High(crc)), Up(crc)), Wide(b))
  {
  }

  lemma SameHigh(t: bv16, x: Byte, x': Byte)
    ensures High(Plus(t, Wide(x))) == High(Plus(t, Wide(x')))
  {
  }

  /** The last two bytes show through in the register undisturbed. */
  lemma TwoBytesShow(t: bv16, e: bv16, x: Byte, y: Byte, x': Byte, y': Byte)
    requires Plus(Plus(e, Up(Plus(t, Wide(x)))), Wide(y)) == Plus(Plus(e, Up(Plus(t, Wide(x')))), Wide(y'))
    ensures x == x' && y == y'
  {
  }

  lemma TwoStepsInjective(crc: bv16, x: Byte, y: Byte, x': Byte, y': Byte)
    requires Step(Step(crc, x), y) == Step(Step(crc, x'), y')
    ensures x == x' && y == y'
  {
    hide *;
    var t := Plus(TableEntry(High(crc)), Up(crc));
    StepIs(crc, x);
    StepIs(crc, x');
    StepIs(Plus(t, Wide(x)), y);
    StepIs(Plus(t, Wide(x')), y');
    SameHigh(t, x, x');
    TwoBytesShow(t, TableEntry(High(Plus(t, Wide(x)))), x, y, x', y');
  }

  /** Two byte strings that differ only inside two adjacent bytes have different CRCs. */
  lemma BurstChangesCrc(f: seq<Byte>, g: seq<Byte>, i: nat)
    requires |f| == |g| && i + 1 < |f| && f != g
    requires forall j :: 0 <= j < |f| && j != i && j != i + 1 ==> f[j] == g[j]
    ensures Crc(f) != Crc(g)
  {
    var head, tail := f[..i], f[i + 2..];
    assert f == head + ([f[i], f[i + 1]] + tail);
    assert g == head + ([g[i], g[i + 1]] + tail);
    var crc := CrcFrom(0xffff, head);
    CrcOfTwo(crc, f[i], f[i + 1], tail);
    CrcOfTwo(crc, g[i], g[i + 1], tail);
    CrcAppend(0xffff, head, [f[i], f[i + 1]] + tail);
    CrcAppend(0xffff, head, [g[i], g[i + 1]] + tail);
    if Crc(f) == Crc(g) {
      var c, d := Step(Step(crc, f[i]), f[i + 1]), Step(Step(crc, g[i]), g[i + 1]);
      CrcIsDivision(c, tail);
      CrcIsDivision(d, tail);
      DivideInjective(c, d, Bits(tail));
      TwoStepsInjective(crc, f[i], f[i + 1], g[i], g[i + 1]);
    }
  }

  lemma CrcOfTwo(crc: bv16, x: Byte, y: Byte, tail: seq<Byte>)
    ensures CrcFrom(crc, [x, y] + tail) == CrcFrom(Step(Step(crc, x), y), tail)
  {
    hide Step;
    assert ([x, y] + tail)[1..] == [y] + tail && ([y] + tail)[1..] == tail;
  }

  /** The CRC is the remainder of the message with two bytes of ones in front: the start value counts as message. */
  lemma CrcIsRemainder(bytes: seq<Byte>)
    ensures Crc(bytes) == Divide(0, Bits([0xff, 0xff] + bytes))
  {
    CrcIsDivision(0, [0xff, 0xff] + bytes);
    CrcOfTwo(0, 0xff, 0xff, bytes);
    OnesFillTheRegister();
    hide Step, CrcFrom, Divide;
  }

  lemma OnesFillTheRegister()
    ensures Step(Step(0, 0xff), 0xff) == 0xffff
  {
    assert Step(0, 0xff) == 0x00ff;
  }

  // ---- The loops ----

  ghost predicate IsCrcTable(table: seq<bv16>) {
    |table| == 256 && forall k :: 0 <= k < 256 ==> table[k] == TableEntry(k as Byte)
  }

  method CreateCrcTable() returns (table: array<bv16>)
    ensures fresh(table) && IsCrcTable(table[..])
  {
    hide MulX;
    hide TableEntry;
    table := new bv16[256];
    for i := 0 to 256
      invariant forall k :: 0 <= k < i ==> table[k] == TableEntry(k as Byte)
    {
      var b := i as Byte;
      var crc := (b as bv16) << 8;
      TableEntryIs(b);
      for j := 0 to 8
        invariant Shift(crc, 8 - j) == TableEntry(b)
        invariant forall k :: 0 <= k < i ==> table[k] == TableEntry(k as Byte)
      {
        MulXCases(crc);
        if crc & 0x8000 != 0 {
          crc := (crc << 1) ^ 0x1021;
        } else {
          crc := crc << 1;
        }
      }
      assert Shift(crc, 0) == crc;
      table[i] := crc;
    }
  }

  lemma TableEntryIs(b: Byte)
    ensures TableEntry(b) == Shift((b as bv16) << 8, 8)
  {
  }

  method CalcCrc16(table: array<bv16>, bytes: seq<Byte>) returns (crc: bv16)
    requires IsCrcTable(table[..])
    ensures crc == Crc(bytes)
  {
    crc := 0xffff;
    for i := 0 to |bytes|
      invariant CrcFrom(crc, bytes[i..]) == Crc(bytes)
    {
      assert bytes[i..][0] == bytes[i] && bytes[i..][1..] == bytes[i + 1..];
      var high := (crc >> 8) as Byte;
      assert (high as int) as Byte == high && table[..][high as int] == TableEntry(high);
      crc := table[high as int] ^ (crc << 8) ^ (bytes[i] as bv16);
    }
  }
}
