/** What the checksum means: CRC-32 as a remainder of polynomials over GF(2). A
    polynomial is the set of its exponents, so adding is taking what is in exactly
    one of two sets. */
module CrcPolynomial {
  import opened Crc32

  type Polynomial = set<nat>

  /** x^32 + x^26 + x^23 + x^22 + x^16 + x^12 + x^11 + x^10 + x^8 + x^7 + x^5 + x^4
      + x^2 + x + 1. */
  const GENERATOR: Polynomial := {32, 26, 23, 22, 16, 12, 11, 10, 8, 7, 5, 4, 2, 1, 0}

  function Add(a: Polynomial, b: Polynomial): Polynomial { (a - b) + (b - a) }

  /** The product with x^k. */
  function Raise(a: Polynomial, k: nat): Polynomial { set e | e in a :: e + k }

  /** The product with the polynomial of these coefficients, the constant one first. */
  function Product(q: seq<bool>, a: Polynomial): Polynomial {
    if q == [] then {} else Add(if q[0] then a else {}, Raise(Product(q[1..], a), 1))
  }

  /** `r` is what a division of `p` by the generator leaves. */
  ghost predicate IsRemainder(p: Polynomial, r: Polynomial) {
    && (forall e :: e in r ==> e < 32)
    && exists q :: p == Add(Product(q, GENERATOR), r)
  }

  // ---- bytes and checksums as polynomials ----

  function Pow2(n: nat): (r: nat)
    ensures r > 0
  {
    if n == 0 then 1 else 2 * Pow2(n - 1)
  }

  /** Bit `j` of a byte, the lowest being bit 0. */
  predicate BitOf(b: byte, j: nat) { b / Pow2(j) % 2 == 1 }

  /** The coefficients of a message: its first byte highest, and every byte
      reflected, its lowest bit highest. */
  predicate InMessage(bytes: seq<byte>, e: int) {
    0 <= e < 8 * |bytes| && BitOf(bytes[|bytes| - 1 - e / 8], 7 - e % 8)
  }

  /** The coefficients of the message times x^32 with the highest 32 complemented. */
  predicate InDividend(bytes: seq<byte>, e: nat) { InMessage(bytes, e - 32) != (e >= 8 * |bytes|) }

  function Dividend(bytes: seq<byte>): Polynomial { set e: nat | e < 8 * |bytes| + 32 && InDividend(bytes, e) }

  function Mask(k: nat): bv32 { if k == 0 then 1 else Mask(k - 1) << 1 }

  predicate On(c: bv32, mask: bv32) { c & mask != 0 }

  predicate Bit(c: bv32, k: nat) { On(c, Mask(k)) }

  /** Reflected: the lowest bit is the coefficient of x^31. */
  predicate Coefficient(c: bv32, e: nat) { e < 32 && Bit(c, 31 - e) }

  function Reflected(c: bv32): Polynomial { set e: nat | e < 32 && Coefficient(c, e) }

  /** A checksum complemented and reflected. */
  function Unfinished(c: bv32): Polynomial { set e: nat | e < 32 && !Coefficient(c, e) }

  // ---- single bits ----

  predicate OneBit(m: bv32) { m != 0 && m & (m - 1) == 0 }

  lemma Masks()
    ensures Mask(0) == 0x1 && Mask(1) == 0x2 && Mask(2) == 0x4 && Mask(3) == 0x8
    ensures Mask(4) == 0x10 && Mask(5) == 0x20 && Mask(6) == 0x40 && Mask(7) == 0x80
    ensures Mask(8) == 0x100 && Mask(9) == 0x200 && Mask(10) == 0x400 && Mask(11) == 0x800
    ensures Mask(12) == 0x1000 && Mask(13) == 0x2000 && Mask(14) == 0x4000 && Mask(15) == 0x8000
    ensures Mask(16) == 0x10000 && Mask(17) == 0x20000 && Mask(18) == 0x40000 && Mask(19) == 0x80000
    ensures Mask(20) == 0x100000 && Mask(21) == 0x200000 && Mask(22) == 0x400000 && Mask(23) == 0x800000
    ensures Mask(24) == 0x1000000 && Mask(25) == 0x2000000 && Mask(26) == 0x4000000 && Mask(27) == 0x8000000
    ensures Mask(28) == 0x10000000 && Mask(29) == 0x20000000 && Mask(30) == 0x40000000 && Mask(31) == 0x80000000
  {
    assert Mask(0) == 0x1 && Mask(1) == 0x2;
    assert Mask(2) == 0x4 && Mask(3) == 0x8;
    assert Mask(4) == 0x10 && Mask(5) == 0x20;
    assert Mask(6) == 0x40 && Mask(7) == 0x80;
    assert Mask(8) == 0x100 && Mask(9) == 0x200;
    assert Mask(10) == 0x400 && Mask(11) == 0x800;
    assert Mask(12) == 0x1000 && Mask(13) == 0x2000;
    assert Mask(14) == 0x4000 && Mask(15) == 0x8000;
    assert Mask(16) == 0x10000 && Mask(17) == 0x20000;
    assert Mask(18) == 0x40000 && Mask(19) == 0x80000;
    assert Mask(20) == 0x100000 && Mask(21) == 0x200000;
    assert Mask(22) == 0x400000 && Mask(23) == 0x800000;
    assert Mask(24) == 0x1000000 && Mask(25) == 0x2000000;
    assert Mask(26) == 0x4000000 && Mask(27) == 0x8000000;
    assert Mask(28) == 0x10000000 && Mask(29) == 0x20000000;
    assert Mask(30) == 0x40000000 && Mask(31) == 0x80000000;
  }

  lemma OneBitDoubled(m: bv32)
    requires OneBit(m)
    ensures m << 1 == 0 || OneBit(m << 1)
    ensures m << 1 != 0 ==> m < 0x80000000
  {
  }

  lemma {:induction false} MaskOrZero(k: nat)
    ensures Mask(k) == 0 || OneBit(Mask(k))
  {
    if k > 0 {
      MaskOrZero(k - 1);
      if Mask(k - 1) != 0 {
        OneBitDoubled(Mask(k - 1));
      }
    }
  }

  lemma {:induction false} MaskIsOneBit(k: nat)
    requires k < 32
    ensures OneBit(Mask(k)) && (k < 31 ==> Mask(k) < 0x80000000)
    decreases 32 - k
  {
    MaskOrZero(k);
    if k == 31 {
      Masks();
    } else {
      MaskIsOneBit(k + 1);
      OneBitDoubled(Mask(k));
    }
  }

  lemma XorBit(c: bv32, d: bv32, m: bv32)
    requires OneBit(m)
    ensures ((c ^ d) & m != 0) <==> ((c & m != 0) != (d & m != 0))
  {
  }

  lemma ShiftedBit(c: bv32, m: bv32)
    requires OneBit(m)
    ensures ((c >> 1) & m != 0) <==> m < 0x80000000 && c & (m << 1) != 0
  {
  }

  lemma SelectedBits(c: bv32)
    ensures POLYNOMIAL & (0 - (c & 1)) == if c & 1 != 0 then POLYNOMIAL else 0
  {
  }

  // ---- one shift is one multiplication ----

  lemma Constant0(e: nat)
    requires 0 <= e < 8
    ensures Coefficient(POLYNOMIAL, e) <==> e in GENERATOR
  {
    Masks();
    hide Mask;
    assert e == 0 || e == 1 || e == 2 || e == 3 || e == 4 || e == 5 || e == 6 || e == 7;
  }

  lemma Constant8(e: nat)
    requires 8 <= e < 16
    ensures Coefficient(POLYNOMIAL, e) <==> e in GENERATOR
  {
    Masks();
    hide Mask;
    assert e == 8 || e == 9 || e == 10 || e == 11 || e == 12 || e == 13 || e == 14 || e == 15;
  }

  lemma Constant16(e: nat)
    requires 16 <= e < 24
    ensures Coefficient(POLYNOMIAL, e) <==> e in GENERATOR
  {
    Masks();
    hide Mask;
    assert e == 16 || e == 17 || e == 18 || e == 19 || e == 20 || e == 21 || e == 22 || e == 23;
  }

  lemma Constant24(e: nat)
    requires 24 <= e < 32
    ensures Coefficient(POLYNOMIAL, e) <==> e in GENERATOR
  {
    Masks();
    hide Mask;
    assert e == 24 || e == 25 || e == 26 || e == 27 || e == 28 || e == 29 || e == 30 || e == 31;
  }

  /** The constant of the shift, reflected, is the generator below x^32. */
  lemma ConstantIsGenerator(e: nat)
    requires e < 32
    ensures Coefficient(POLYNOMIAL, e) <==> e in GENERATOR
  {
    hide Coefficient;
    if e < 8 {
      Constant0(e);
    } else if e < 16 {
      Constant8(e);
    } else if e < 24 {
      Constant16(e);
    } else {
      Constant24(e);
    }
  }

  lemma ShiftBit(c: bv32, m: bv32)
    requires OneBit(m)
    ensures Shift(c) & m != 0 <==>
              (m < 0x80000000 && c & (m << 1) != 0) != (c & 1 != 0 && POLYNOMIAL & m != 0)
  {
    SelectedBits(c);
    ShiftedBit(c, m);
    XorBit(c >> 1, POLYNOMIAL & (0 - (c & 1)), m);
    hide OneBit;
  }

  lemma TopShift(c: bv32)
    ensures Bit(Shift(c), 31) <==> Bit(c, 0) && Bit(POLYNOMIAL, 31)
  {
    TopAndBottom();
    hide Mask;
    ShiftBit(c, 0x80000000);
  }

  lemma LowerShift(c: bv32, k: nat)
    requires k < 31
    ensures Bit(Shift(c), k) <==> Bit(c, k + 1) != (Bit(c, 0) && Bit(POLYNOMIAL, k))
  {
    hide On, Shift, OneBit;
    MaskIsOneBit(k);
    TopAndBottom();
    NextMask(k);
    hide Mask;
    ShiftedOn(c, Mask(k));
  }

  lemma ShiftedOn(c: bv32, m: bv32)
    requires OneBit(m) && m < 0x80000000
    ensures On(Shift(c), m) <==> On(c, m << 1) != (On(c, 1) && On(POLYNOMIAL, m))
  {
    ShiftBit(c, m);
  }

  lemma ShiftCoefficient(c: bv32, e: nat)
    requires e < 32
    ensures Coefficient(Shift(c), e) <==>
              (e > 0 && Coefficient(c, e - 1)) != (Coefficient(c, 31) && Coefficient(POLYNOMIAL, e))
  {
    hide Bit, Shift;
    if e == 0 {
      TopShift(c);
    } else {
      LowerShift(c, 31 - e);
    }
  }

  lemma TopAndBottom()
    ensures Mask(0) == 1 && Mask(31) == 0x80000000
  {
    Masks();
  }

  lemma NextMask(k: nat)
    ensures Mask(k + 1) == Mask(k) << 1
  {
  }

  lemma Shifted(c: bv32)
    ensures Raise(Reflected(c), 1)
         == Add(if Coefficient(c, 31) then GENERATOR else {}, Reflected(Shift(c)))
  {
    hide Coefficient, Shift;
    forall e: nat
      ensures e in Raise(Reflected(c), 1)
           <==> e in Add(if Coefficient(c, 31) then GENERATOR else {}, Reflected(Shift(c)))
    {
      RaisedMember(Reflected(c), 1, e);
      if e < 32 {
        ShiftCoefficient(c, e);
        ConstantIsGenerator(e);
      }
    }
  }

  lemma RaisedMember(a: Polynomial, k: nat, e: nat)
    ensures e in Raise(a, k) <==> e >= k && e - k in a
  {
  }

  lemma RaiseOfAdd(a: Polynomial, b: Polynomial, k: nat)
    ensures Raise(Add(a, b), k) == Add(Raise(a, k), Raise(b, k))
  {
    forall e: nat
      ensures e in Raise(Add(a, b), k) <==> e in Add(Raise(a, k), Raise(b, k))
    {
      RaisedMember(Add(a, b), k, e);
      RaisedMember(a, k, e);
      RaisedMember(b, k, e);
    }
  }

  lemma RaiseTwice(a: Polynomial, k: nat)
    ensures Raise(Raise(a, k), 1) == Raise(a, k + 1)
  {
    forall e: nat
      ensures e in Raise(Raise(a, k), 1) <==> e in Raise(a, k + 1)
    {
      RaisedMember(Raise(a, k), 1, e);
      if e > 0 {
        RaisedMember(a, k, e - 1);
      }
      RaisedMember(a, k + 1, e);
    }
  }

  lemma Regroup(a: Polynomial, b: Polynomial, c: Polynomial)
    ensures Add(a, Add(b, c)) == Add(Add(b, a), c)
    ensures Add(Add(a, b), c) == Add(a, Add(b, c))
  {
  }

  lemma ShiftRemainder(p: Polynomial, c: bv32)
    requires IsRemainder(p, Reflected(c))
    ensures IsRemainder(Raise(p, 1), Reflected(Shift(c)))
  {
    hide Coefficient, Shift, Add, Raise;
    var q :| p == Add(Product(q, GENERATOR), Reflected(c));
    RaiseOfAdd(Product(q, GENERATOR), Reflected(c), 1);
    Shifted(c);
    var more := [Coefficient(c, 31)] + q;
    assert more[1..] == q;
    assert Product(more, GENERATOR)
        == Add(if Coefficient(c, 31) then GENERATOR else {}, Raise(Product(q, GENERATOR), 1));
    Regroup(Raise(Product(q, GENERATOR), 1), if Coefficient(c, 31) then GENERATOR else {}, Reflected(Shift(c)));
    assert Raise(p, 1) == Add(Product(more, GENERATOR), Reflected(Shift(c)));
  }

  lemma {:induction false} ShiftsRemainder(p: Polynomial, c: bv32, n: nat)
    requires IsRemainder(p, Reflected(c))
    ensures IsRemainder(Raise(p, n), Reflected(Shifts(c, n)))
  {
    hide IsRemainder, Shift, Reflected;
    if n == 0 {
      assert Raise(p, 0) == p by {
        forall e: nat
          ensures e in Raise(p, 0) <==> e in p
        {
          RaisedMember(p, 0, e);
        }
      }
    } else {
      ShiftsRemainder(p, c, n - 1);
      ShiftRemainder(Raise(p, n - 1), Shifts(c, n - 1));
      RaiseTwice(p, n - 1);
    }
  }

  // ---- bytes ----

  lemma XorAt(c: bv32, d: bv32, k: nat)
    requires k < 32
    ensures Bit(c ^ d, k) <==> Bit(c, k) != Bit(d, k)
  {
    MaskIsOneBit(k);
    hide Mask, OneBit;
    var m := Mask(k);
    XorBit(c, d, m);
  }

  lemma XorCoefficient(c: bv32, d: bv32, e: nat)
    requires e < 32
    ensures Coefficient(c ^ d, e) <==> Coefficient(c, e) != Coefficient(d, e)
  {
    hide Bit;
    XorAt(c, d, 31 - e);
  }

  lemma ReflectedXor(c: bv32, d: bv32)
    ensures Reflected(c ^ d) == Add(Reflected(c), Reflected(d))
  {
    hide Coefficient;
    forall e: nat | e < 32
      ensures Coefficient(c ^ d, e) <==> Coefficient(c, e) != Coefficient(d, e)
    {
      XorCoefficient(c, d, e);
    }
  }

  lemma AddRemainder(p: Polynomial, c: bv32, d: bv32)
    requires IsRemainder(p, Reflected(c))
    ensures IsRemainder(Add(p, Reflected(d)), Reflected(c ^ d))
  {
    ReflectedXor(c, d);
    var x := c ^ d;
    hide Product, Coefficient, Add;
    var q :| p == Add(Product(q, GENERATOR), Reflected(c));
    Regroup(Product(q, GENERATOR), Reflected(c), Reflected(d));
    assert Add(p, Reflected(d)) == Add(Product(q, GENERATOR), Reflected(x));
  }

  lemma FeedRemainder(p: Polynomial, c: bv32, b: byte)
    requires IsRemainder(p, Reflected(c))
    ensures IsRemainder(Raise(Add(p, Reflected(Vector(b))), 8), Reflected(Feed(c, b)))
  {
    hide IsRemainder, Vector, Shifts, Reflected;
    AddRemainder(p, c, Vector(b));
    ShiftsRemainder(Add(p, Reflected(Vector(b))), c ^ Vector(b), 8);
  }

  lemma NibbleOn(b0: bool, b1: bool, b2: bool, b3: bool)
    ensures var n := Nibble(b0, b1, b2, b3);
            && (On(n, 1) <==> b0) && (On(n, 2) <==> b1) && (On(n, 4) <==> b2) && (On(n, 8) <==> b3) && n <= 15
  {
  }

  lemma JoinedOn(h: bv32, l: bv32)
    requires h <= 15 && l <= 15
    ensures var v := (h << 4) | l;
            && (On(v, 1) <==> On(l, 1)) && (On(v, 2) <==> On(l, 2)) && (On(v, 4) <==> On(l, 4))
            && (On(v, 8) <==> On(l, 8)) && (On(v, 0x10) <==> On(h, 1)) && (On(v, 0x20) <==> On(h, 2))
            && (On(v, 0x40) <==> On(h, 4)) && (On(v, 0x80) <==> On(h, 8)) && v <= 0xff
  {
  }

  lemma Powers()
    ensures Pow2(0) == 1 && Pow2(1) == 2 && Pow2(2) == 4 && Pow2(3) == 8
    ensures Pow2(4) == 16 && Pow2(5) == 32 && Pow2(6) == 64 && Pow2(7) == 128
  {
    assert Pow2(2) == 4 && Pow2(4) == 16 && Pow2(6) == 64;
  }

  lemma EvenPlus(k: nat, m: nat)
    ensures (2 * k + m) % 2 == m % 2
  {
  }

  lemma Quotients(h: nat, l: nat)
    ensures (16 * h + l) / 2 == 8 * h + l / 2 && (16 * h + l) / 4 == 4 * h + l / 2 / 2
    ensures (16 * h + l) / 8 == 2 * h + l / 2 / 2 / 2
  {
  }

  lemma LowDigits(h: nat, l: nat)
    ensures var b := 16 * h + l;
            && b % 2 == l % 2 && b / 2 % 2 == l / 2 % 2 && b / 4 % 2 == l / 2 / 2 % 2
            && b / 8 % 2 == l / 2 / 2 / 2 % 2
  {
    Quotients(h, l);
    EvenPlus(8 * h, l);
    EvenPlus(4 * h, l / 2);
    EvenPlus(2 * h, l / 2 / 2);
    EvenPlus(h, l / 2 / 2 / 2);
  }

  lemma HighDigits(h: nat, l: nat)
    requires l < 16
    ensures var b := 16 * h + l;
            b / 16 == h && b / 32 == h / 2 && b / 64 == h / 2 / 2 && b / 128 == h / 2 / 2 / 2
  {
  }

  lemma Digits(b: byte)
    ensures var h := b / 16; var l := b % 16;
            && BitOf(b, 0) == Odd(l) && BitOf(b, 1) == Odd(l / 2) && BitOf(b, 2) == Odd(l / 2 / 2)
            && BitOf(b, 3) == Odd(l / 2 / 2 / 2) && BitOf(b, 4) == Odd(h) && BitOf(b, 5) == Odd(h / 2)
            && BitOf(b, 6) == Odd(h / 2 / 2) && BitOf(b, 7) == Odd(h / 2 / 2 / 2)
  {
    Powers();
    hide Pow2;
    var h, l := b / 16, b % 16;
    LowDigits(h, l);
    HighDigits(h, l);
    assert b == 16 * h + l;
  }

  lemma FourOn(n: nat)
    ensures var v := Four(n);
            && (On(v, 1) <==> Odd(n)) && (On(v, 2) <==> Odd(n / 2)) && (On(v, 4) <==> Odd(n / 2 / 2))
            && (On(v, 8) <==> Odd(n / 2 / 2 / 2)) && v <= 15
  {
    hide On, Nibble, Odd;
    NibbleOn(Odd(n), Odd(n / 2), Odd(n / 2 / 2), Odd(n / 2 / 2 / 2));
  }

  lemma VectorOn(b: byte)
    ensures var v := Vector(b);
            && (On(v, 1) <==> BitOf(b, 0)) && (On(v, 2) <==> BitOf(b, 1)) && (On(v, 4) <==> BitOf(b, 2))
            && (On(v, 8) <==> BitOf(b, 3)) && (On(v, 0x10) <==> BitOf(b, 4)) && (On(v, 0x20) <==> BitOf(b, 5))
            && (On(v, 0x40) <==> BitOf(b, 6)) && (On(v, 0x80) <==> BitOf(b, 7)) && v <= 0xff
  {
    hide On, Four, Odd, BitOf;
    Digits(b);
    FourOn(b / 16);
    FourOn(b % 16);
    JoinedOn(Four(b / 16), Four(b % 16));
  }

  lemma LowBits(b: byte, k: nat)
    requires k < 8
    ensures Bit(Vector(b), k) <==> BitOf(b, k)
  {
    hide On, Vector, BitOf;
    VectorOn(b);
    Masks();
    hide Mask;
    assert k == 0 || k == 1 || k == 2 || k == 3 || k == 4 || k == 5 || k == 6 || k == 7;
  }

  lemma {:induction false} HighMask(k: nat)
    requires 8 <= k
    ensures Mask(k) & 0xff == 0
  {
    if k == 8 {
      Masks();
    } else {
      HighMask(k - 1);
    }
  }

  lemma HighBits(b: byte, k: nat)
    requires 8 <= k
    ensures !Bit(Vector(b), k)
  {
    hide Vector;
    VectorOn(b);
    HighMask(k);
    hide Mask;
    OffBeyond(Vector(b), Mask(k));
  }

  lemma OffBeyond(v: bv32, m: bv32)
    requires v <= 0xff && m & 0xff == 0
    ensures !On(v, m)
  {
  }

  /** A byte stands in the highest eight coefficients of a register. */
  lemma VectorCoefficient(b: byte, e: nat)
    ensures Coefficient(Vector(b), e) <==> 24 <= e < 32 && BitOf(b, 31 - e)
  {
    hide Bit, Vector, BitOf;
    if e < 32 {
      if 31 - e < 8 {
        LowBits(b, 31 - e);
      } else {
        HighBits(b, 31 - e);
      }
    }
  }

  // ---- the whole message ----

  lemma LongerMessage(bytes: seq<byte>, b: byte, e: int)
    ensures InMessage(bytes + [b], e)
       <==> if 0 <= e < 8 then BitOf(b, 7 - e) else e >= 8 && InMessage(bytes, e - 8)
  {
    hide BitOf;
    if 8 <= e < 8 * |bytes| + 8 {
      assert (e - 8) / 8 == e / 8 - 1 && (e - 8) % 8 == e % 8;
    }
  }

  lemma LongerDividend(bytes: seq<byte>, b: byte)
    ensures Dividend(bytes + [b]) == Raise(Add(Dividend(bytes), Reflected(Vector(b))), 8)
  {
    hide InMessage, Coefficient, BitOf, Vector;
    var p := Add(Dividend(bytes), Reflected(Vector(b)));
    forall e: nat
      ensures e in Dividend(bytes + [b]) <==> e in Raise(p, 8)
    {
      RaisedMember(p, 8, e);
      LongerMessage(bytes, b, e - 32);
      if e >= 8 {
        VectorCoefficient(b, e - 8);
        NegativeExponent(bytes, e - 40);
      }
      NegativeExponent(bytes, e - 40);
    }
  }

  lemma NegativeExponent(bytes: seq<byte>, e: int)
    ensures InMessage(bytes, e) ==> 0 <= e < 8 * |bytes|
  {
  }

  lemma AllOnes()
    ensures Dividend([]) == Reflected(0xffffffff)
  {
    forall e: nat | e < 32
      ensures Coefficient(0xffffffff, e)
    {
      MaskIsOneBit(31 - e);
      hide Mask;
      OnInOnes(Mask(31 - e));
    }
  }

  lemma OnInOnes(m: bv32)
    requires m != 0
    ensures On(0xffffffff, m)
  {
  }

  lemma {:induction false} RegisterRemainder(bytes: seq<byte>)
    ensures IsRemainder(Dividend(bytes), Reflected(Register(0xffffffff, bytes)))
  {
    hide Dividend, Reflected, Feed, Add, Raise;
    if bytes == [] {
      AllOnes();
      NoRemainder();
    } else {
      var n := |bytes| - 1;
      RegisterRemainder(bytes[..n]);
      FeedRemainder(Dividend(bytes[..n]), Register(0xffffffff, bytes[..n]), bytes[n]);
      LongerDividend(bytes[..n], bytes[n]);
      assert bytes[..n] + [bytes[n]] == bytes;
    }
  }

  lemma NoRemainder()
    ensures IsRemainder(Reflected(0xffffffff), Reflected(0xffffffff))
  {
    hide Coefficient;
    assert Product([], GENERATOR) == {};
    assert Reflected(0xffffffff) == Add(Product([], GENERATOR), Reflected(0xffffffff));
  }

  // ---- the remainder is unique ----

  lemma LeadingStays(rest: Polynomial, m: nat, on: bool)
    requires m >= 32 && m in rest
    ensures m + 1 in Add(if on then GENERATOR else {}, Raise(rest, 1))
  {
    RaisedMember(rest, 1, m + 1);
  }

  lemma Constants(on: bool)
    ensures var p := Add(if on then GENERATOR else {}, Raise({}, 1)); p == {} || 32 in p
  {
    assert Raise({}, 1) == {};
  }

  /** A product with the generator is nothing, or has an exponent of 32 or more. */
  lemma {:induction false} ProductIsLong(q: seq<bool>) returns (e: nat)
    ensures Product(q, GENERATOR) == {} || (e >= 32 && e in Product(q, GENERATOR))
  {
    hide Add, Raise;
    e := 32;
    if q != [] {
      var rest := Product(q[1..], GENERATOR);
      var m := ProductIsLong(q[1..]);
      if rest != {} {
        e := m + 1;
        LeadingStays(rest, m, q[0]);
      } else {
        Constants(q[0]);
      }
    }
  }

  /** Coefficients of a sum. */
  function AddCoefficients(p: seq<bool>, q: seq<bool>): seq<bool> {
    if p == [] then q else if q == [] then p else [p[0] != q[0]] + AddCoefficients(p[1..], q[1..])
  }

  lemma Interchange(a: Polynomial, b: Polynomial, c: Polynomial, d: Polynomial)
    ensures Add(Add(a, b), Add(c, d)) == Add(Add(a, c), Add(b, d))
  {
  }

  lemma AddSelf(a: Polynomial)
    ensures Add(a, a) == {} && Add(a, {}) == a && Add({}, a) == a
  {
  }

  lemma {:induction false} ProductOfSum(p: seq<bool>, q: seq<bool>, a: Polynomial)
    ensures Product(AddCoefficients(p, q), a) == Add(Product(p, a), Product(q, a))
  {
    hide Add, Raise;
    AddSelf(Product(p, a));
    AddSelf(Product(q, a));
    AddSelf(a);
    if p != [] && q != [] {
      ProductOfSum(p[1..], q[1..], a);
      var sum := AddCoefficients(p, q);
      assert sum[1..] == AddCoefficients(p[1..], q[1..]);
      RaiseOfAdd(Product(p[1..], a), Product(q[1..], a), 1);
      Interchange(if p[0] then a else {}, Raise(Product(p[1..], a), 1), if q[0] then a else {},
        Raise(Product(q[1..], a), 1));
      AddSelf({});
    }
  }

  /** A division leaves one remainder. */
  lemma RemainderIsUnique(p: Polynomial, r: Polynomial, s: Polynomial)
    requires IsRemainder(p, r) && IsRemainder(p, s)
    ensures r == s
  {
    var q :| p == Add(Product(q, GENERATOR), r);
    var t :| p == Add(Product(t, GENERATOR), s);
    ProductOfSum(q, t, GENERATOR);
    var e := ProductIsLong(AddCoefficients(q, t));
    hide Product;
    assert Add(Product(q, GENERATOR), Product(t, GENERATOR)) == Add(r, s);
  }

  // ---- the checksum ----

  lemma FinishedOn(c: bv32, m: bv32)
    requires OneBit(m)
    ensures On(c ^ 0xffffffff, m) <==> !On(c, m)
  {
    XorBit(c, 0xffffffff, m);
  }

  lemma UnfinishedIsReflected(c: bv32)
    ensures Unfinished(c ^ 0xffffffff) == Reflected(c)
  {
    forall e: nat | e < 32
      ensures Coefficient(c ^ 0xffffffff, e) <==> !Coefficient(c, e)
    {
      MaskIsOneBit(31 - e);
      hide Mask, On, OneBit;
      FinishedOn(c, Mask(31 - e));
    }
    hide Coefficient;
  }

  /** The checksum, complemented and reflected, is the remainder of the message, of
      reflected bytes, times x^32 with its highest 32 coefficients complemented. */
  lemma ChecksumIsRemainder(bytes: seq<byte>)
    ensures IsRemainder(Dividend(bytes), Unfinished(Checksum(bytes)))
  {
    hide IsRemainder, Dividend, Register;
    RegisterRemainder(bytes);
    UnfinishedIsReflected(Register(0xffffffff, bytes));
  }

  predicate SameBit(c: bv32, d: bv32, k: nat) { Bit(c, k) <==> Bit(d, k) }

  lemma SameBits(c: bv32, d: bv32)
    requires forall k: nat :: k < 32 ==> SameBit(c, d, k)
    ensures c == d
  {
    hide Bit;
    var x := c ^ d;
    forall k: nat | k < 32
      ensures !Bit(x, k)
    {
      assert SameBit(c, d, k);
      XorAt(c, d, k);
    }
    NoBits(x);
    XorZero(c, d);
  }

  lemma XorZero(c: bv32, d: bv32)
    requires c ^ d == 0
    ensures c == d
  {
  }

  lemma NoBits(c: bv32)
    requires forall k: nat :: k < 32 ==> !Bit(c, k)
    ensures c == 0
  {
    Masks();
    hide Mask;
    assert !Bit(c, 0) && !Bit(c, 1) && !Bit(c, 2) && !Bit(c, 3) && !Bit(c, 4) && !Bit(c, 5) && !Bit(c, 6);
    assert !Bit(c, 7) && !Bit(c, 8) && !Bit(c, 9) && !Bit(c, 10) && !Bit(c, 11) && !Bit(c, 12) && !Bit(c, 13);
    assert !Bit(c, 14) && !Bit(c, 15) && !Bit(c, 16) && !Bit(c, 17) && !Bit(c, 18) && !Bit(c, 19) && !Bit(c, 20);
    assert !Bit(c, 21) && !Bit(c, 22) && !Bit(c, 23) && !Bit(c, 24) && !Bit(c, 25) && !Bit(c, 26) && !Bit(c, 27);
    assert !Bit(c, 28) && !Bit(c, 29) && !Bit(c, 30) && !Bit(c, 31);
  }

  lemma UnfinishedInjective(c: bv32, d: bv32)
    requires Unfinished(c) == Unfinished(d)
    ensures c == d
  {
    hide Bit;
    forall k: nat | k < 32
      ensures SameBit(c, d, k)
    {
      assert 31 - k in Unfinished(c) <==> 31 - k in Unfinished(d);
      assert Coefficient(c, 31 - k) <==> Bit(c, 31 - (31 - k));
      assert Coefficient(d, 31 - k) <==> Bit(d, 31 - (31 - k));
    }
    SameBits(c, d);
  }

  /** It is the only number that is: the loop computes CRC-32. */
  lemma ChecksumIff(bytes: seq<byte>, c: bv32)
    ensures c == Checksum(bytes) <==> IsRemainder(Dividend(bytes), Unfinished(c))
  {
    hide IsRemainder, Dividend, Checksum, Unfinished;
    ChecksumIsRemainder(bytes);
    if IsRemainder(Dividend(bytes), Unfinished(c)) {
      RemainderIsUnique(Dividend(bytes), Unfinished(c), Unfinished(Checksum(bytes)));
      UnfinishedInjective(c, Checksum(bytes));
    }
  }
}
