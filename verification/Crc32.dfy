/** The checksum of archive entries, bit by bit on a 32-bit register. */
module Crc32 {

  const POLYNOMIAL: bv32 := 0xedb88320

  type byte = b: int | 0 <= b < 256

  function Pick(on: bool, mask: bv32): bv32 { if on then mask else 0 }

  predicate Odd(n: nat) { n % 2 == 1 }

  function Nibble(b0: bool, b1: bool, b2: bool, b3: bool): bv32 {
    Pick(b0, 1) | Pick(b1, 2) | Pick(b2, 4) | Pick(b3, 8)
  }

  function Four(n: nat): bv32 { Nibble(Odd(n), Odd(n / 2), Odd(n / 2 / 2), Odd(n / 2 / 2 / 2)) }

  /** A byte as a bit vector, four bits at a time. */
  function Vector(b: byte): bv32 { (Four(b / 16) << 4) | Four(b % 16) }

  /** One shift: the mask selects the polynomial when the low bit is set. */
  function Shift(crc: bv32): bv32 { (crc >> 1) ^ (POLYNOMIAL & (0 - (crc & 1))) }

  function Shifts(crc: bv32, n: nat): bv32 { if n == 0 then crc else Shift(Shifts(crc, n - 1)) }

  function Feed(crc: bv32, b: byte): bv32 { Shifts(crc ^ Vector(b), 8) }

  function Register(crc: bv32, bytes: seq<byte>): bv32 {
    if bytes == [] then crc else Feed(Register(crc, bytes[..|bytes| - 1]), bytes[|bytes| - 1])
  }

  function Checksum(bytes: seq<byte>): bv32 { Register(0xffffffff, bytes) ^ 0xffffffff }

  /** The inner loop as written: one byte into the register. */
  method FeedByte(crc: bv32, b: byte) returns (r: bv32)
    ensures r == Feed(crc, b)
  {
    r := crc ^ Vector(b);
    ghost var start := r;
    var bit := 0;
    while bit < 8
      invariant bit <= 8
      invariant r == Shifts(start, bit)
    {
      r := (r >> 1) ^ (POLYNOMIAL & (0 - (r & 1)));
      bit := bit + 1;
    }
  }

  lemma RegisterStep(crc: bv32, bytes: seq<byte>, i: nat)
    requires i < |bytes|
    ensures Register(crc, bytes[..i + 1]) == Feed(Register(crc, bytes[..i]), bytes[i])
  {
    hide Feed;
    assert bytes[..i + 1][..i] == bytes[..i];
  }

  /** The loop over the bytes. */
  method Compute(bytes: seq<byte>) returns (r: bv32)
    ensures r == Checksum(bytes)
  {
    hide Feed, Register;
    var crc: bv32 := 0xffffffff;
    var i := 0;
    NoBytes(crc);
    while i < |bytes|
      invariant i <= |bytes|
      invariant crc == Register(0xffffffff, bytes[..i])
    {
      RegisterStep(0xffffffff, bytes, i);
      crc := FeedByte(crc, bytes[i]);
      i := i + 1;
    }
    assert bytes[..i] == bytes;
    r := crc ^ 0xffffffff;
  }

  lemma NoBytes(crc: bv32)
    ensures Register(crc, []) == crc
  {
  }

  // ---- a differing byte changes the checksum ----

  lemma Halves(x: nat, y: nat)
    requires x / 2 == y / 2 && Odd(x) == Odd(y)
    ensures x == y
  {
  }

  lemma NibbleInjective(a0: bool, a1: bool, a2: bool, a3: bool, b0: bool, b1: bool, b2: bool, b3: bool)
    requires Nibble(a0, a1, a2, a3) == Nibble(b0, b1, b2, b3)
    ensures a0 == b0 && a1 == b1 && a2 == b2 && a3 == b3
  {
  }

  lemma FourInjective(x: nat, y: nat)
    requires x < 16 && y < 16 && Four(x) == Four(y)
    ensures x == y
  {
    NibbleInjective(Odd(x), Odd(x / 2), Odd(x / 2 / 2), Odd(x / 2 / 2 / 2), Odd(y), Odd(y / 2), Odd(y / 2 / 2),
      Odd(y / 2 / 2 / 2));
    hide Nibble;
    assert x / 2 / 2 / 2 == y / 2 / 2 / 2;
    Halves(x / 2 / 2, y / 2 / 2);
    Halves(x / 2, y / 2);
    Halves(x, y);
  }

  lemma FourIsSmall(x: nat)
    ensures Four(x) <= 15
  {
  }

  lemma SplitNibbles(h: bv32, l: bv32, k: bv32, m: bv32)
    requires h <= 15 && l <= 15 && k <= 15 && m <= 15 && ((h << 4) | l) == ((k << 4) | m)
    ensures h == k && l == m
  {
  }

  lemma VectorInjective(a: byte, b: byte)
    requires Vector(a) == Vector(b)
    ensures a == b
  {
    hide Four;
    FourIsSmall(a / 16);
    FourIsSmall(a % 16);
    FourIsSmall(b / 16);
    FourIsSmall(b % 16);
    SplitNibbles(Four(a / 16), Four(a % 16), Four(b / 16), Four(b % 16));
    FourInjective(a / 16, b / 16);
    FourInjective(a % 16, b % 16);
  }

  /** The top bit of a shifted register is the bit that was shifted out. */
  lemma ShiftInjective(x: bv32, y: bv32)
    requires Shift(x) == Shift(y)
    ensures x == y
  {
  }

  lemma {:induction false} ShiftsInjective(x: bv32, y: bv32, n: nat)
    requires Shifts(x, n) == Shifts(y, n)
    ensures x == y
  {
    if n > 0 {
      ShiftInjective(Shifts(x, n - 1), Shifts(y, n - 1));
      ShiftsInjective(x, y, n - 1);
    }
  }

  lemma XorInjective(x: bv32, y: bv32, m: bv32)
    ensures x ^ m == y ^ m ==> x == y
    ensures m ^ x == m ^ y ==> x == y
  {
  }

  lemma FeedInjective(x: bv32, y: bv32, b: byte)
    requires Feed(x, b) == Feed(y, b)
    ensures x == y
  {
    ShiftsInjective(x ^ Vector(b), y ^ Vector(b), 8);
    XorInjective(x, y, Vector(b));
  }

  lemma FeedSeparates(crc: bv32, a: byte, b: byte)
    requires a != b
    ensures Feed(crc, a) != Feed(crc, b)
  {
    hide Shifts;
    BytesWiden(crc, a, b);
    if Feed(crc, a) == Feed(crc, b) {
      ShiftsInjective(crc ^ Vector(a), crc ^ Vector(b), 8);
    }
  }

  lemma BytesWiden(crc: bv32, a: byte, b: byte)
    requires a != b
    ensures crc ^ Vector(a) != crc ^ Vector(b)
  {
    hide Vector;
    if Vector(a) == Vector(b) {
      VectorInjective(a, b);
    }
    XorInjective(Vector(a), Vector(b), crc);
  }

  /** Different registers stay different over the same bytes. */
  lemma {:induction false} RegisterInjective(x: bv32, y: bv32, bytes: seq<byte>)
    requires Register(x, bytes) == Register(y, bytes)
    ensures x == y
  {
    if bytes != [] {
      var n := |bytes| - 1;
      FeedInjective(Register(x, bytes[..n]), Register(y, bytes[..n]), bytes[n]);
      RegisterInjective(x, y, bytes[..n]);
    }
  }

  lemma {:induction false} RegisterOfConcat(crc: bv32, a: seq<byte>, b: seq<byte>)
    ensures Register(crc, a + b) == Register(Register(crc, a), b)
  {
    hide Feed;
    if b == [] {
      assert a + b == a;
    } else {
      var n := |b| - 1;
      RegisterOfConcat(crc, a, b[..n]);
      assert (a + b)[..|a| + n] == a + b[..n];
    }
  }

  /** Equally long buffers that differ in exactly one byte have different
      checksums. */
  lemma OneByteChangesChecksum(before: seq<byte>, a: byte, b: byte, after: seq<byte>)
    requires a != b
    ensures Checksum(before + [a] + after) != Checksum(before + [b] + after)
  {
    var crc := Register(0xffffffff, before);
    RegisterOfConcat(0xffffffff, before + [a], after);
    RegisterOfConcat(0xffffffff, before + [b], after);
    RegisterOfConcat(0xffffffff, before, [a]);
    RegisterOfConcat(0xffffffff, before, [b]);
    RegisterOfOne(crc, a);
    RegisterOfOne(crc, b);
    FeedSeparates(crc, a, b);
    var x, y := Register(0xffffffff, before + [a] + after), Register(0xffffffff, before + [b] + after);
    if x == y {
      RegisterInjective(Feed(crc, a), Feed(crc, b), after);
    }
    XorInjective(x, y, 0xffffffff);
  }

  lemma RegisterOfOne(crc: bv32, b: byte)
    ensures Register(crc, [b]) == Feed(crc, b)
  {
    assert [b][..0] == [];
  }
}
