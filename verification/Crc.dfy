/** The 16-bit CRC of the XMODEM receiver, demo-dh/drivers/xyzmodem.c lines 81-103.

    The shift-and-xor loop is related to two independent definitions: bit-serial division
    (one register shift per message bit) and the remainder of the message polynomial, times
    x^16, under division by G = x^16 + x^12 + x^5 + 1 over GF(2).  The algebra (linearity,
    zero residue, burst detection) is then carried out on polynomials.  */
module Crc {
  type byte = bv8

  /** One pass of the loop body; the intermediate value `r` is 32 bits wide and the final
      assignment keeps its low 16 bits. */
  function ByteStep(cksum: bv16, b: byte): bv16 {
    var s: bv8 := b ^ ((cksum >> 8) as bv8);
    var t: bv8 := s ^ (s >> 4);
    var r: bv32 := ((cksum as bv32) << 8) ^ (t as bv32) ^ ((t as bv32) << 5) ^ ((t as bv32) << 12);
    (r & 0xFFFF) as bv16
  }

  function Checksum(data: seq<byte>): bv16 {
    if data == [] then 0 else ByteStep(Checksum(data[..|data| - 1]), data[|data| - 1])
  }

  function High(c: bv16): byte { (c >> 8) as bv8 }

  function Low(c: bv16): byte { (c & 0xFF) as bv8 }

  function Join(hi: byte, lo: byte): bv16 { ((hi as bv16) << 8) | (lo as bv16) }

  /** The loop itself, over the first `len` bytes of the buffer. */
  method Crc16(buf: array<byte>, len: int) returns (cksum: bv16)
    requires len <= buf.Length
    ensures cksum == Checksum(if len < 0 then [] else buf[..len])
  {
    cksum := 0;
    var i := 0;
    while i < len
      invariant 0 <= i <= buf.Length
      invariant i <= len || i == 0
      invariant cksum == Checksum(buf[..i])
    {
      assert buf[..i + 1][..i] == buf[..i];
      cksum := ByteStep(cksum, buf[i]);
      i := i + 1;
    }
  }

  // ----- Bit-serial division -----

  function Plus(a: bv16, b: bv16): bv16 { a ^ b }

  function Up(a: bv16): bv16 { a << 1 }

  function Top(a: bv16): bool { a & 0x8000 != 0 }

  /** Shift one message bit into the division register; 0x1021 is G without its leading term. */
  function BitStep(reg: bv16, bit: bool): bv16 {
    if Top(reg) != bit then Plus(Up(reg), 0x1021) else Up(reg)
  }

  function Divide(bits: seq<bool>): bv16 {
    if bits == [] then 0 else BitStep(Divide(bits[..|bits| - 1]), bits[|bits| - 1])
  }

  /** The bits of a byte, most significant first. */
  function Bits(b: byte): (r: seq<bool>)
    ensures |r| == 8
  {
    seq(8, i requires 0 <= i < 8 => ByteBit(b, i))
  }

  function ByteBit(b: byte, i: nat): bool
    requires i < 8
  {
    b & ByteMask(i) != 0
  }

  function ByteMask(i: nat): byte
    requires i < 8
  {
    if i == 0 then 0x80 else if i == 1 then 0x40 else if i == 2 then 0x20 else if i == 3 then 0x10
    else if i == 4 then 0x08 else if i == 5 then 0x04 else if i == 6 then 0x02 else 0x01
  }

  function MessageBits(data: seq<byte>): (r: seq<bool>)
    ensures |r| == 8 * |data|
  {
    if data == [] then [] else MessageBits(data[..|data| - 1]) + Bits(data[|data| - 1])
  }

  function EightBits(reg: bv16, w: seq<bool>): bv16
    requires |w| == 8
  {
    BitStep(BitStep(BitStep(BitStep(BitStep(BitStep(BitStep(BitStep(reg,
      w[0]), w[1]), w[2]), w[3]), w[4]), w[5]), w[6]), w[7])
  }

  lemma PlusAssociative(a: bv16, b: bv16, c: bv16)
    ensures Plus(Plus(a, b), c) == Plus(a, Plus(b, c))
  {
  }

  lemma PlusCommutes(a: bv16, b: bv16)
    ensures Plus(a, b) == Plus(b, a)
  {
  }

  lemma PlusSwap(a: bv16, b: bv16, c: bv16)
    ensures Plus(Plus(a, b), c) == Plus(Plus(a, c), b)
  {
    PlusAssociative(a, b, c);
    PlusCommutes(b, c);
    PlusAssociative(a, c, b);
  }

  lemma UpPlus(a: bv16, b: bv16)
    ensures Up(Plus(a, b)) == Plus(Up(a), Up(b))
  {
  }

  lemma TopPlus(a: bv16, b: bv16)
    ensures Top(Plus(a, b)) == (Top(a) != Top(b))
  {
  }

  /** The register shift without a message bit. */
  function Shift(reg: bv16): bv16 {
    if Top(reg) then Plus(Up(reg), 0x1021) else Up(reg)
  }

  function EightShifts(reg: bv16): bv16 {
    Shift(Shift(Shift(Shift(Shift(Shift(Shift(Shift(reg))))))))
  }

  /** A message bit may be added to the register before the shift instead of during it. */
  lemma Absorb(r: bv16, w: bv16)
    ensures Shift(Plus(r, w)) == Plus(BitStep(r, Top(w)), Up(w))
  {
    TopPlus(r, w);
    UpPlus(r, w);
    PlusSwap(Up(r), Up(w), 0x1021);
  }

  function Tops(w: bv16): (t: seq<bool>)
    ensures |t| == 8
  {
    [Top(w), Top(Up(w)), Top(Up(Up(w))), Top(Up(Up(Up(w)))),
     Top(Up(Up(Up(Up(w))))), Top(Up(Up(Up(Up(Up(w)))))),
     Top(Up(Up(Up(Up(Up(Up(w))))))), Top(Up(Up(Up(Up(Up(Up(Up(w))))))))]
  }

  const NO_BITS: seq<bool> := [false, false, false, false, false, false, false, false]

  lemma AbsorbEight(r: bv16, w: bv16)
    ensures EightShifts(Plus(r, w)) ==
            Plus(EightBits(r, Tops(w)), Up(Up(Up(Up(Up(Up(Up(Up(w)))))))))
  {
    hide Plus, Up, Top, BitStep, Shift;
    var r1, w1 := BitStep(r, Top(w)), Up(w);
    Absorb(r, w);
    var r2, w2 := BitStep(r1, Top(w1)), Up(w1);
    Absorb(r1, w1);
    var r3, w3 := BitStep(r2, Top(w2)), Up(w2);
    Absorb(r2, w2);
    var r4, w4 := BitStep(r3, Top(w3)), Up(w3);
    Absorb(r3, w3);
    var r5, w5 := BitStep(r4, Top(w4)), Up(w4);
    Absorb(r4, w4);
    var r6, w6 := BitStep(r5, Top(w5)), Up(w5);
    Absorb(r5, w5);
    var r7, w7 := BitStep(r6, Top(w6)), Up(w6);
    Absorb(r6, w6);
    Absorb(r7, w7);
  }

  /** The loop body as one expression over 16 bits. */
  function Fold(v: bv16): bv16 {
    (v << 8) ^ ((v >> 8) ^ (v >> 12)) ^ (((v >> 8) ^ (v >> 12)) << 5) ^ (((v >> 8) ^ (v >> 12)) << 12)
  }

  lemma StepIsFold(c: bv16, b: byte)
    ensures ByteStep(c, b) == Fold(c ^ ((b as bv16) << 8))
  {
  }

  lemma EightUps(w: bv16)
    ensures Up(Up(Up(Up(Up(Up(Up(Up(w)))))))) == w << 8
  {
  }

  lemma TopsOfHighByte(b: byte)
    ensures Tops((b as bv16) << 8) == Bits(b)
  {
  }

  lemma TopsOfLowByte(v: bv16)
    ensures Tops(v & 0xFF) == NO_BITS
  {
  }

  function RawStep(r: bv16): bv16 {
    if r & 0x8000 != 0 then (r << 1) ^ 0x1021 else r << 1
  }

  lemma RawStepIsShift(r: bv16)
    ensures Shift(r) == RawStep(r) == BitStep(r, false)
  {
  }

  lemma EightRawSteps(h: bv16)
    requires h & 0xFF == 0
    ensures RawStep(RawStep(RawStep(RawStep(RawStep(RawStep(RawStep(RawStep(h)))))))) == Fold(h)
  {
  }

  lemma EightStepsOfHighByte(h: bv16)
    requires h & 0xFF == 0
    ensures EightShifts(h) == EightBits(h, NO_BITS) == Fold(h)
  {
    var r1 := RawStep(h);
    var r2 := RawStep(r1);
    var r3 := RawStep(r2);
    var r4 := RawStep(r3);
    var r5 := RawStep(r4);
    var r6 := RawStep(r5);
    var r7 := RawStep(r6);
    RawStepIsShift(h);
    RawStepIsShift(r1);
    RawStepIsShift(r2);
    RawStepIsShift(r3);
    RawStepIsShift(r4);
    RawStepIsShift(r5);
    RawStepIsShift(r6);
    RawStepIsShift(r7);
    EightRawSteps(h);
  }

  lemma SplitBytes(v: bv16)
    ensures Plus(v & 0xFF00, v & 0xFF) == v
  {
  }

  lemma FoldSplit(v: bv16)
    ensures Plus(Fold(v & 0xFF00), (v & 0xFF) << 8) == Fold(v)
  {
    var h := v & 0xFF00;
    assert h >> 8 == v >> 8 && h >> 12 == v >> 12 && h << 8 == 0;
    assert (v & 0xFF) << 8 == v << 8;
  }

  lemma EightSteps(v: bv16)
    ensures EightShifts(v) == Fold(v)
  {
    var h, l := v & 0xFF00, v & 0xFF;
    SplitBytes(v);
    FoldSplit(v);
    AbsorbEight(h, l);
    TopsOfLowByte(v);
    EightUps(l);
    HighPart(v);
    EightStepsOfHighByte(h);
  }

  lemma HighPart(v: bv16)
    ensures (v & 0xFF00) & 0xFF == 0
  {
  }

  lemma PlusZero(a: bv16)
    ensures Plus(a, 0) == a
  {
  }

  lemma ByteIsEightBits(reg: bv16, b: byte)
    ensures ByteStep(reg, b) == EightBits(reg, Bits(b))
  {
    var w := (b as bv16) << 8;
    StepIsFold(reg, b);
    assert Plus(reg, w) == reg ^ w;
    EightSteps(Plus(reg, w));
    AbsorbEight(reg, w);
    TopsOfHighByte(b);
    EightUps(w);
    HighByteShiftedOut(b);
    PlusZero(EightBits(reg, Bits(b)));
  }

  lemma HighByteShiftedOut(b: byte)
    ensures ((b as bv16) << 8) << 8 == 0
  {
  }

  lemma DivideExtend(m: seq<bool>, bit: bool)
    ensures Divide(m + [bit]) == BitStep(Divide(m), bit)
  {
    assert (m + [bit])[..|m|] == m;
  }

  lemma DivideEight(m: seq<bool>, w: seq<bool>)
    requires |w| == 8
    ensures Divide(m + w) == EightBits(Divide(m), w)
  {
    var m1 := m + [w[0]];
    var m2 := m1 + [w[1]];
    var m3 := m2 + [w[2]];
    var m4 := m3 + [w[3]];
    var m5 := m4 + [w[4]];
    var m6 := m5 + [w[5]];
    var m7 := m6 + [w[6]];
    assert m + w == m7 + [w[7]];
    DivideExtend(m, w[0]);
    DivideExtend(m1, w[1]);
    DivideExtend(m2, w[2]);
    DivideExtend(m3, w[3]);
    DivideExtend(m4, w[4]);
    DivideExtend(m5, w[5]);
    DivideExtend(m6, w[6]);
    DivideExtend(m7, w[7]);
  }

  /** The byte-wise loop is bit-serial division, for buffers of every length. */
  lemma {:induction false} ChecksumIsDivision(data: seq<byte>)
    ensures Checksum(data) == Divide(MessageBits(data))
  {
    if data != [] {
      var n := |data| - 1;
      ChecksumIsDivision(data[..n]);
      DivideEight(MessageBits(data[..n]), Bits(data[n]));
      ByteIsEightBits(Checksum(data[..n]), data[n]);
    }
  }

  // ----- The remainder of polynomial division -----

  function Mask(j: nat): bv16
    requires j < 16
  {
    if j == 0 then 0x8000 else if j == 1 then 0x4000 else if j == 2 then 0x2000 else if j == 3 then 0x1000
    else if j == 4 then 0x0800 else if j == 5 then 0x0400 else if j == 6 then 0x0200 else if j == 7 then 0x0100
    else if j == 8 then 0x0080 else if j == 9 then 0x0040 else if j == 10 then 0x0020 else if j == 11 then 0x0010
    else if j == 12 then 0x0008 else if j == 13 then 0x0004 else if j == 14 then 0x0002 else 0x0001
  }

  /** Bit `j` of a register, counted from the most significant; zero outside. */
  function RegBit(r: bv16, j: int): bool { 0 <= j < 16 && r & Mask(j) != 0 }

  lemma PlusBitHigh(a: bv16, b: bv16, j: int)
    requires 0 <= j < 6
    ensures RegBit(Plus(a, b), j) == (RegBit(a, j) != RegBit(b, j))
  {
  }

  lemma PlusBitMiddle(a: bv16, b: bv16, j: int)
    requires 6 <= j < 11
    ensures RegBit(Plus(a, b), j) == (RegBit(a, j) != RegBit(b, j))
  {
  }

  lemma PlusBitLow(a: bv16, b: bv16, j: int)
    requires 11 <= j < 16
    ensures RegBit(Plus(a, b), j) == (RegBit(a, j) != RegBit(b, j))
  {
  }

  lemma PlusBit(a: bv16, b: bv16, j: int)
    ensures RegBit(Plus(a, b), j) == (RegBit(a, j) != RegBit(b, j))
  {
    if 0 <= j < 6 {
      PlusBitHigh(a, b, j);
    } else if 6 <= j < 11 {
      PlusBitMiddle(a, b, j);
    } else if 11 <= j < 16 {
      PlusBitLow(a, b, j);
    }
  }

  lemma UpBit(r: bv16, j: int)
    requires 0 <= j < 16
    ensures RegBit(Up(r), j) == RegBit(r, j + 1)
  {
    if j < 8 {
    } else {
    }
  }

  lemma GeneratorBit(j: int)
    requires 0 <= j < 16
    ensures RegBit(0x1021, j) == (j == 3 || j == 10 || j == 15)
  {
  }

  lemma TopBit(r: bv16)
    ensures RegBit(r, 0) == Top(r)
  {
  }

  lemma BitStepBits(reg: bv16, bit: bool, j: int)
    requires 0 <= j < 16
    ensures RegBit(BitStep(reg, bit), j) ==
              (RegBit(reg, j + 1) != ((RegBit(reg, 0) != bit) && (j == 3 || j == 10 || j == 15)))
  {
    TopBit(reg);
    UpBit(reg, j);
    GeneratorBit(j);
    PlusBit(Up(reg), 0x1021, j);
  }

  lemma NoBitsSet(a: bv16)
    requires a & 0x8000 == 0 && a & 0x4000 == 0 && a & 0x2000 == 0 && a & 0x1000 == 0
    requires a & 0x0800 == 0 && a & 0x0400 == 0 && a & 0x0200 == 0 && a & 0x0100 == 0
    requires a & 0x0080 == 0 && a & 0x0040 == 0 && a & 0x0020 == 0 && a & 0x0010 == 0
    requires a & 0x0008 == 0 && a & 0x0004 == 0 && a & 0x0002 == 0 && a & 0x0001 == 0
    ensures a == 0
  {
  }

  lemma RegBitsZero(a: bv16)
    requires forall j :: 0 <= j < 16 ==> !RegBit(a, j)
    ensures a == 0
  {
    assert !RegBit(a, 0) && !RegBit(a, 1) && !RegBit(a, 2) && !RegBit(a, 3);
    assert !RegBit(a, 4) && !RegBit(a, 5) && !RegBit(a, 6) && !RegBit(a, 7);
    assert !RegBit(a, 8) && !RegBit(a, 9) && !RegBit(a, 10) && !RegBit(a, 11);
    assert !RegBit(a, 12) && !RegBit(a, 13) && !RegBit(a, 14) && !RegBit(a, 15);
    NoBitsSet(a);
  }

  lemma RegBitsDetermine(a: bv16, b: bv16)
    requires forall j :: 0 <= j < 16 ==> RegBit(a, j) == RegBit(b, j)
    ensures a == b
  {
    forall j | 0 <= j < 16
      ensures !RegBit(Plus(a, b), j)
    {
      PlusBit(a, b, j);
    }
    RegBitsZero(Plus(a, b));
    assert a ^ b == 0;
  }

  lemma ZeroBit(j: int)
    ensures !RegBit(0, j)
  {
  }

  /** Coefficient `i` of a polynomial written highest power first; zero outside. */
  function Coef(p: seq<bool>, i: int): bool { 0 <= i < |p| && p[i] }

  /** Coefficient `i` of q * G, written highest power first over |q| + 16 places:
      G has ones 0, 4, 11 and 16 places below its leading term. */
  function TimesG(q: seq<bool>, i: int): bool {
    ((Coef(q, i) != Coef(q, i - 4)) != Coef(q, i - 11)) != Coef(q, i - 16)
  }

  /** m * x^16 = q * G + r, coefficient by coefficient. */
  ghost predicate DividesAs(m: seq<bool>, q: seq<bool>, r: bv16) {
    && |q| == |m|
    && forall i :: 0 <= i < |m| + 16 ==> Coef(m, i) == (TimesG(q, i) != RegBit(r, i - |m|))
  }

  function Quotient(m: seq<bool>): (q: seq<bool>)
    ensures |q| == |m|
  {
    if m == [] then []
    else
      var rest := m[..|m| - 1];
      Quotient(rest) + [RegBit(Divide(rest), 0) != m[|m| - 1]]
  }

  lemma TimesGExtend(q: seq<bool>, d: bool, i: int)
    ensures TimesG(q + [d], i) ==
              (TimesG(q, i) != (d && (i == |q| || i == |q| + 4 || i == |q| + 11 || i == |q| + 16)))
  {
    var e := q + [d];
    assert forall k: int :: Coef(e, k) == (Coef(q, k) != (d && k == |q|));
  }

  lemma TimesGOutside(q: seq<bool>, i: int)
    ensures i >= |q| + 16 ==> !TimesG(q, i)
  {
  }

  lemma RegBitOutside(r: bv16, j: int)
    ensures j < 0 || j >= 16 ==> !RegBit(r, j)
  {
  }

  lemma DivisionStep(m0: seq<bool>, q0: seq<bool>, reg: bv16, bit: bool, i: int)
    requires DividesAs(m0, q0, reg)
    requires 0 <= i < |m0| + 17
    ensures var d := RegBit(reg, 0) != bit;
            Coef(m0 + [bit], i) == (TimesG(q0 + [d], i) != RegBit(BitStep(reg, bit), i - |m0| - 1))
  {
    hide TimesG, RegBit, BitStep;
    var n := |m0|;
    TimesGExtend(q0, RegBit(reg, 0) != bit, i);
    if i < n + 16 {
      assert Coef(m0, i) == (TimesG(q0, i) != RegBit(reg, i - n));
    }
    TimesGOutside(q0, i);
    RegBitOutside(reg, i - n);
    RegBitOutside(BitStep(reg, bit), i - n - 1);
    if i > n {
      BitStepBits(reg, bit, i - n - 1);
    }
  }

  lemma {:induction false} DivideIsRemainder(m: seq<bool>)
    ensures DividesAs(m, Quotient(m), Divide(m))
  {
    if m == [] {
      forall i | 0 <= i < 16
        ensures !RegBit(0, i)
      {
        ZeroBit(i);
      }
    } else {
      var n := |m| - 1;
      var m0, bit := m[..n], m[n];
      assert m == m0 + [bit];
      DivideIsRemainder(m0);
      forall i | 0 <= i < |m| + 16
        ensures Coef(m, i) == (TimesG(Quotient(m), i) != RegBit(Divide(m), i - |m|))
      {
        DivisionStep(m0, Quotient(m0), Divide(m0), bit, i);
      }
    }
  }

  lemma {:induction false} QuotientUnique(m: seq<bool>, q: seq<bool>, r: bv16, q': seq<bool>, r': bv16, k: nat)
    requires DividesAs(m, q, r) && DividesAs(m, q', r')
    requires k <= |m|
    ensures forall i :: 0 <= i < k ==> q[i] == q'[i]
  {
    if k > 0 {
      var i := k - 1;
      QuotientUnique(m, q, r, q', r', i);
      assert Coef(m, i) == (TimesG(q, i) != RegBit(r, i - |m|));
      assert Coef(m, i) == (TimesG(q', i) != RegBit(r', i - |m|));
      assert Coef(q, i) == Coef(q', i);
    }
  }

  lemma RemainderUnique(m: seq<bool>, q: seq<bool>, r: bv16, q': seq<bool>, r': bv16)
    requires DividesAs(m, q, r) && DividesAs(m, q', r')
    ensures r == r'
  {
    QuotientUnique(m, q, r, q', r', |m|);
    assert q == q';
    forall j | 0 <= j < 16
      ensures RegBit(r, j) == RegBit(r', j)
    {
      var i := |m| + j;
      assert Coef(m, i) == (TimesG(q, i) != RegBit(r, i - |m|));
      assert Coef(m, i) == (TimesG(q', i) != RegBit(r', i - |m|));
    }
    RegBitsDetermine(r, r');
  }

  /** The checksum is the one and only remainder of (message * x^16) modulo G. */
  lemma ChecksumIsTheRemainder(data: seq<byte>, r: bv16)
    ensures Checksum(data) == r <==> exists q :: DividesAs(MessageBits(data), q, r)
  {
    var m := MessageBits(data);
    ChecksumIsDivision(data);
    DivideIsRemainder(m);
    if q :| DividesAs(m, q, r) {
      RemainderUnique(m, q, r, Quotient(m), Divide(m));
    }
  }

  // ----- Algebra -----

  function XorBits(a: seq<bool>, b: seq<bool>): (c: seq<bool>)
    requires |a| == |b|
    ensures |c| == |a|
  {
    seq(|a|, i requires 0 <= i < |a| => a[i] != b[i])
  }

  lemma TimesGXor(p: seq<bool>, q: seq<bool>, i: int)
    requires |p| == |q|
    ensures TimesG(XorBits(p, q), i) == (TimesG(p, i) != TimesG(q, i))
  {
    assert forall k: int :: Coef(XorBits(p, q), k) == (Coef(p, k) != Coef(q, k));
  }

  lemma DivideLinear(a: seq<bool>, b: seq<bool>)
    requires |a| == |b|
    ensures Divide(XorBits(a, b)) == Plus(Divide(a), Divide(b))
  {
    DivideIsRemainder(a);
    DivideIsRemainder(b);
    var c, q, r := XorBits(a, b), XorBits(Quotient(a), Quotient(b)), Plus(Divide(a), Divide(b));
    forall i | 0 <= i < |c| + 16
      ensures Coef(c, i) == (TimesG(q, i) != RegBit(r, i - |c|))
    {
      TimesGXor(Quotient(a), Quotient(b), i);
      PlusBit(Divide(a), Divide(b), i - |c|);
      assert Coef(a, i) == (TimesG(Quotient(a), i) != RegBit(Divide(a), i - |a|));
      assert Coef(b, i) == (TimesG(Quotient(b), i) != RegBit(Divide(b), i - |b|));
    }
    DivideIsRemainder(c);
    RemainderUnique(c, q, r, Quotient(c), Divide(c));
  }

  function Xor(a: seq<byte>, b: seq<byte>): (c: seq<byte>)
    requires |a| == |b|
    ensures |c| == |a|
  {
    seq(|a|, i requires 0 <= i < |a| => a[i] ^ b[i])
  }

  lemma ByteBitXorHigh(x: byte, y: byte, i: nat)
    requires i < 4
    ensures ByteBit(x ^ y, i) == (ByteBit(x, i) != ByteBit(y, i))
  {
  }

  lemma ByteBitXorLow(x: byte, y: byte, i: nat)
    requires 4 <= i < 8
    ensures ByteBit(x ^ y, i) == (ByteBit(x, i) != ByteBit(y, i))
  {
  }

  lemma BitsXor(x: byte, y: byte)
    ensures Bits(x ^ y) == XorBits(Bits(x), Bits(y))
  {
    forall i | 0 <= i < 8
      ensures Bits(x ^ y)[i] == XorBits(Bits(x), Bits(y))[i]
    {
      if i < 4 {
        ByteBitXorHigh(x, y, i);
      } else {
        ByteBitXorLow(x, y, i);
      }
    }
  }

  lemma XorBitsConcat(a: seq<bool>, b: seq<bool>, p: seq<bool>, q: seq<bool>)
    requires |a| == |b| && |p| == |q|
    ensures XorBits(a + p, b + q) == XorBits(a, b) + XorBits(p, q)
  {
  }

  lemma {:induction false} MessageBitsXor(a: seq<byte>, b: seq<byte>)
    requires |a| == |b|
    ensures MessageBits(Xor(a, b)) == XorBits(MessageBits(a), MessageBits(b))
  {
    if a != [] {
      var n := |a| - 1;
      MessageBitsXor(a[..n], b[..n]);
      assert Xor(a, b)[..n] == Xor(a[..n], b[..n]);
      BitsXor(a[n], b[n]);
      XorBitsConcat(MessageBits(a[..n]), MessageBits(b[..n]), Bits(a[n]), Bits(b[n]));
    }
  }

  /** The checksum of the xor of two equally long messages is the xor of their checksums. */
  lemma ChecksumLinear(a: seq<byte>, b: seq<byte>)
    requires |a| == |b|
    ensures Checksum(Xor(a, b)) == Checksum(a) ^ Checksum(b)
  {
    ChecksumIsDivision(a);
    ChecksumIsDivision(b);
    ChecksumIsDivision(Xor(a, b));
    MessageBitsXor(a, b);
    DivideLinear(MessageBits(a), MessageBits(b));
  }

  lemma MultipleSpan(q: seq<bool>)
    requires exists i :: 0 <= i < |q| && q[i]
    ensures FirstOne(q) <= LastOne(q) && TimesG(q, FirstOne(q)) && TimesG(q, LastOne(q) + 16)
  {
  }

  /** A nonzero multiple of G spreads over at least 17 places. */
  lemma WideMultiple(m: seq<bool>, q: seq<bool>, lo: int)
    requires DividesAs(m, q, 0)
    requires forall i :: 0 <= i < |m| && m[i] ==> lo <= i < lo + 16
    ensures forall i :: 0 <= i < |m| ==> !m[i]
  {
    forall i | 0 <= i < |m| + 16
      ensures Coef(m, i) == TimesG(q, i)
    {
      ZeroBit(i - |m|);
    }
    if exists i :: 0 <= i < |q| && q[i] {
      MultipleSpan(q);
      assert false;
    }
    forall i | 0 <= i < |m|
      ensures !m[i]
    {
      assert Coef(m, i) == TimesG(q, i);
    }
  }

  ghost function FirstOne(q: seq<bool>): (a: nat)
    requires exists i :: 0 <= i < |q| && q[i]
    ensures a < |q| && q[a] && forall i :: 0 <= i < a ==> !q[i]
  {
    if q[0] then 0 else
      assert exists i :: 0 <= i < |q[1..]| && q[1..][i] by {
        var i :| 0 <= i < |q| && q[i];
        assert q[1..][i - 1];
      }
      1 + FirstOne(q[1..])
  }

  ghost function LastOne(q: seq<bool>): (b: nat)
    requires exists i :: 0 <= i < |q| && q[i]
    ensures b < |q| && q[b] && forall i :: b < i < |q| ==> !q[i]
  {
    var n := |q| - 1;
    if q[n] then n else
      assert exists i :: 0 <= i < n && q[..n][i] by {
        var i :| 0 <= i < |q| && q[i];
        assert q[..n][i];
      }
      LastOne(q[..n])
  }

  /** No error burst confined to 16 consecutive bits has checksum 0. */
  lemma BurstHasChecksum(e: seq<byte>, lo: int)
    requires var m := MessageBits(e); forall i :: 0 <= i < |m| && m[i] ==> lo <= i < lo + 16
    requires Checksum(e) == 0
    ensures forall i :: 0 <= i < |MessageBits(e)| ==> !MessageBits(e)[i]
  {
    var m := MessageBits(e);
    ChecksumIsDivision(e);
    DivideIsRemainder(m);
    WideMultiple(m, Quotient(m), lo);
  }

  function WordBits(r: bv16): (w: seq<bool>)
    ensures |w| == 16
  {
    seq(16, j => RegBit(r, j))
  }

  lemma JoinBitHigh(hi: byte, lo: byte, j: int)
    requires 0 <= j < 8
    ensures RegBit(Join(hi, lo), j) == Bits(hi)[j]
  {
    if j < 4 {
    } else {
    }
  }

  lemma JoinBitLow(hi: byte, lo: byte, j: int)
    requires 0 <= j < 8
    ensures RegBit(Join(hi, lo), 8 + j) == Bits(lo)[j]
  {
    if j < 4 {
    } else {
    }
  }

  lemma AppendedBits(data: seq<byte>, hi: byte, lo: byte)
    ensures MessageBits(data + [hi, lo]) == MessageBits(data) + WordBits(Join(hi, lo))
  {
    var one := data + [hi];
    var two := data + [hi, lo];
    assert two[..|two| - 1] == one && one[..|one| - 1] == data;
    var w := WordBits(Join(hi, lo));
    forall j | 0 <= j < 16
      ensures w[j] == (Bits(hi) + Bits(lo))[j]
    {
      if j < 8 {
        JoinBitHigh(hi, lo, j);
      } else {
        JoinBitLow(hi, lo, j - 8);
      }
    }
    assert w == Bits(hi) + Bits(lo);
    assert MessageBits(two) == (MessageBits(data) + Bits(hi)) + Bits(lo);
  }

  function NoBits(n: nat): (z: seq<bool>)
    ensures |z| == n
  {
    seq(n, _ => false)
  }

  /** If m * x^16 + r is the multiple q * G, then so is its product with x^16. */
  lemma CodewordDivides(m: seq<bool>, q: seq<bool>, r: bv16)
    requires DividesAs(m, q, r)
    ensures DividesAs(m + WordBits(r), q + NoBits(16), 0)
  {
    var c, p := m + WordBits(r), q + NoBits(16);
    assert forall k: int :: Coef(p, k) == Coef(q, k);
    forall i | 0 <= i < |c| + 16
      ensures Coef(c, i) == (TimesG(p, i) != RegBit(0, i - |c|))
    {
      ZeroBit(i - |c|);
      assert TimesG(p, i) == TimesG(q, i);
      if i < |m| + 16 {
        assert Coef(m, i) == (TimesG(q, i) != RegBit(r, i - |m|));
      }
    }
  }

  /** Two bytes complete a message to checksum 0 exactly when they are its checksum,
      high byte first. */
  lemma ResidueZero(data: seq<byte>, hi: byte, lo: byte)
    ensures Checksum(data + [hi, lo]) == 0 <==> Checksum(data) == Join(hi, lo)
  {
    var m, c, r := MessageBits(data), Join(hi, lo), Checksum(data);
    ChecksumIsDivision(data);
    ChecksumIsDivision(data + [hi, lo]);
    AppendedBits(data, hi, lo);
    DivideIsRemainder(m);
    CodewordDivides(m, Quotient(m), r);
    var good, got := m + WordBits(r), m + WordBits(c);
    DivideIsRemainder(good);
    RemainderUnique(good, Quotient(m) + NoBits(16), 0, Quotient(good), Divide(good));
    if Divide(got) == 0 {
      var e := XorBits(good, got);
      DivideLinear(good, got);
      DivideIsRemainder(e);
      WideMultiple(e, Quotient(e), |m|);
      forall j | 0 <= j < 16
        ensures RegBit(r, j) == RegBit(c, j)
      {
        assert !e[|m| + j];
      }
      RegBitsDetermine(r, c);
    }
  }

  lemma JoinHighLow(c: bv16)
    ensures Join(High(c), Low(c)) == c
  {
  }

  /** Sending the checksum, high byte then low byte, after the data gives checksum 0. */
  lemma AppendChecksum(data: seq<byte>)
    ensures Checksum(data + [High(Checksum(data)), Low(Checksum(data))]) == 0
  {
    var c := Checksum(data);
    JoinHighLow(c);
    ResidueZero(data, High(c), Low(c));
  }

  lemma DistinctBytesDifferInABit(x: byte)
    requires x != 0
    ensures exists i :: 0 <= i < 8 && Bits(x)[i]
  {
    var b := Bits(x);
    assert b[0] || b[1] || b[2] || b[3] || b[4] || b[5] || b[6] || b[7];
  }

  lemma {:induction false} MessageBitAt(data: seq<byte>, k: nat, i: nat)
    requires k < |data| && i < 8
    ensures MessageBits(data)[8 * k + i] == Bits(data[k])[i]
  {
    var n := |data| - 1;
    if k < n {
      MessageBitAt(data[..n], k, i);
    }
  }

  /** Every change of a transmitted block (data followed by its two checksum bytes) that is
      confined to 16 consecutive bits makes the checksum test fail. */
  lemma BurstDetected(data: seq<byte>, hi: byte, lo: byte, e: seq<byte>, first: int)
    requires Checksum(data) == Join(hi, lo)
    requires |e| == |data| + 2
    requires var m := MessageBits(e); forall i :: 0 <= i < |m| && m[i] ==> first <= i < first + 16
    requires exists k :: 0 <= k < |e| && e[k] != 0
    ensures var got := Xor(data + [hi, lo], e);
            Checksum(got[..|data|]) != Join(got[|data|], got[|data| + 1])
  {
    var sent, n := data + [hi, lo], |data|;
    var got := Xor(sent, e);
    ResidueZero(data, hi, lo);
    ChecksumLinear(sent, e);
    assert got == got[..n] + [got[n], got[n + 1]];
    ResidueZero(got[..n], got[n], got[n + 1]);
    if Checksum(e) == 0 {
      BurstHasChecksum(e, first);
      var k :| 0 <= k < |e| && e[k] != 0;
      DistinctBytesDifferInABit(e[k]);
      var i :| 0 <= i < 8 && Bits(e[k])[i];
      MessageBitAt(e, k, i);
      assert false;
    }
  }

  /** In particular, changing one byte or two adjacent bytes never goes unnoticed. */
  lemma TwoByteErrorDetected(data: seq<byte>, hi: byte, lo: byte, e: seq<byte>, at: nat)
    requires Checksum(data) == Join(hi, lo)
    requires |e| == |data| + 2
    requires forall k :: 0 <= k < |e| && e[k] != 0 ==> at <= k < at + 2
    requires exists k :: 0 <= k < |e| && e[k] != 0
    ensures var got := Xor(data + [hi, lo], e);
            Checksum(got[..|data|]) != Join(got[|data|], got[|data| + 1])
  {
    var m := MessageBits(e);
    forall i | 0 <= i < |m| && m[i]
      ensures 8 * at <= i < 8 * at + 16
    {
      MessageBitAt(e, i / 8, i % 8);
      ZeroHasNoBits();
    }
    BurstDetected(data, hi, lo, e, 8 * at);
  }

  lemma ZeroHasNoBits()
    ensures Bits(0) == NO_BITS
  {
  }
}
