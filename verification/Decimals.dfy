/** Decimal money texts and their scaled integers.

    Amounts cross the services as texts and are compared and added as integers
    scaled by 10^8 (settlement, cashbox) or 10^12 (authority checks). */
module Decimals {

  const SCALE: nat := 100_000_000

  // ---- digits ----

  predicate IsDigit(c: char) { '0' <= c <= '9' }

  predicate Digits(s: string) { forall k :: 0 <= k < |s| ==> IsDigit(s[k]) }

  function Digit(c: char): (d: nat)
    requires IsDigit(c)
    ensures d < 10
  {
    (c - '0') as nat
  }

  function Pow10(n: nat): (p: nat)
    ensures p > 0
  {
    if n == 0 then 1 else 10 * Pow10(n - 1)
  }

  /** BigInt of a digit string; the empty string is zero. */
  function Value(s: string): nat
    requires Digits(s)
  {
    if |s| == 0 then 0 else 10 * Value(s[..|s| - 1]) + Digit(s[|s| - 1])
  }

  /** String of a natural number. */
  function Print(n: nat): (s: string)
    ensures Digits(s) && |s| > 0
  {
    if n < 10 then [n as char + '0'] else Print(n / 10) + [(n % 10) as char + '0']
  }

  function PadStart(s: string, n: nat): (r: string)
    ensures |r| == if |s| < n then n else |s|
    ensures Digits(s) ==> Digits(r)
    decreases n - |s|
  {
    if |s| < n then PadStart(['0'] + s, n) else s
  }

  function PadEnd(s: string, n: nat): (r: string)
    ensures |r| == if |s| < n then n else |s|
    ensures Digits(s) ==> Digits(r)
    decreases n - |s|
  {
    if |s| < n then PadEnd(s + ['0'], n) else s
  }

  /** Removes the zeros at the end. */
  function StripTrailing(s: string): (r: string)
    ensures |r| <= |s| && (Digits(s) ==> Digits(r))
  {
    if |s| > 0 && s[|s| - 1] == '0' then StripTrailing(s[..|s| - 1]) else s
  }

  /** Removes leading zeros as long as a digit follows. */
  function StripLeading(s: string): (r: string)
    ensures |r| <= |s| && (|s| > 0 ==> |r| > 0) && (Digits(s) ==> Digits(r))
    ensures |r| > 1 ==> r[0] != '0'
  {
    if |s| > 1 && s[0] == '0' then StripLeading(s[1..]) else s
  }

  lemma {:induction false} ValueOfConcat(a: string, b: string)
    requires Digits(a) && Digits(b)
    ensures Digits(a + b)
    ensures Value(a + b) == Value(a) * Pow10(|b|) + Value(b)
  {
    if |b| == 0 {
      assert a + b == a;
    } else {
      var n := |b| - 1;
      ValueOfConcat(a, b[..n]);
      assert (a + b)[..|a| + n] == a + b[..n];
      assert Value(a + b) == 10 * Value(a + b[..n]) + Digit(b[n]);
      TimesTenAdd(Value(a), Pow10(n), Value(b[..n]), Digit(b[n]));
    }
  }

  lemma TimesTenAdd(a: int, p: int, b: int, d: int)
    ensures 10 * (a * p + b) + d == a * (10 * p) + (10 * b + d)
  {
  }

  lemma {:induction false} LeadingZero(s: string)
    requires Digits(s)
    ensures Digits(['0'] + s) && Value(['0'] + s) == Value(s)
  {
    if |s| > 0 {
      LeadingZero(s[..|s| - 1]);
      assert (['0'] + s)[..|s|] == ['0'] + s[..|s| - 1];
    } else {
      assert (['0'] + s)[..0] == [];
    }
  }

  /** Zero padding in front changes neither the value nor what follows. */
  lemma {:induction false} PadStartValue(s: string, n: nat, f: string)
    requires Digits(s) && Digits(f)
    ensures Value(PadStart(s, n) + f) == Value(s + f)
    decreases n - |s|
  {
    if |s| < n {
      PadStartValue(['0'] + s, n, f);
      assert (['0'] + s) + f == ['0'] + (s + f);
      LeadingZero(s + f);
    }
  }

  lemma {:induction false} StripLeadingValue(s: string, f: string)
    requires Digits(s) && Digits(f)
    ensures Value(StripLeading(s) + f) == Value(s + f)
  {
    if |s| > 1 && s[0] == '0' {
      StripLeadingValue(s[1..], f);
      assert s + f == ['0'] + (s[1..] + f);
      LeadingZero(s[1..] + f);
    }
  }

  lemma {:induction false} SameLengthSameValue(a: string, b: string)
    requires Digits(a) && Digits(b) && |a| == |b| && Value(a) == Value(b)
    ensures a == b
  {
    if |a| > 0 {
      var n := |a| - 1;
      SameLengthSameValue(a[..n], b[..n]);
      assert a == a[..n] + [a[n]] && b == b[..n] + [b[n]];
    }
  }

  lemma {:induction false} ValueIsPositive(s: string)
    requires Digits(s) && |s| > 0 && s[0] != '0'
    ensures Value(s) > 0
  {
    if |s| > 1 {
      ValueIsPositive(s[..|s| - 1]);
    } else {
      assert s[..0] == [];
    }
  }

  lemma {:induction false} ValueOfPrint(n: nat)
    ensures Value(Print(n)) == n
    ensures Print(n)[0] == '0' ==> |Print(n)| == 1
  {
    if n >= 10 {
      ValueOfPrint(n / 10);
      assert Print(n)[..|Print(n)| - 1] == Print(n / 10);
    } else {
      assert Print(n)[..0] == [];
    }
  }

  /** A digit string without needless leading zeros is the print of its value. */
  lemma {:induction false} PrintOfValue(s: string)
    requires Digits(s) && |s| > 0 && (|s| > 1 ==> s[0] != '0')
    ensures Print(Value(s)) == s
  {
    var n := |s| - 1;
    assert s == s[..n] + [s[n]];
    if n > 0 {
      PrintOfValue(s[..n]);
      ValueIsPositive(s[..n]);
    } else {
      assert s[..n] == [];
    }
  }

  /** Stripping forgets zero padding and nothing else. */
  lemma {:induction false} StripOfPad(f: string, k: nat)
    ensures StripTrailing(PadEnd(f, k)) == StripTrailing(f)
    decreases k - |f|
  {
    if |f| < k {
      StripOfPad(f + ['0'], k);
      assert (f + ['0'])[..|f|] == f;
    }
  }

  lemma {:induction false} PadOfStrip(f: string, k: nat)
    requires |f| <= k
    ensures PadEnd(StripTrailing(f), k) == PadEnd(f, k)
  {
    if |f| > 0 && f[|f| - 1] == '0' {
      PadOfStrip(f[..|f| - 1], k);
      assert f[..|f| - 1] + ['0'] == f;
    }
  }

  lemma {:induction false} StripOfZeroValue(f: string)
    requires Digits(f) && Value(f) == 0
    ensures StripTrailing(f) == []
  {
    if |f| > 0 {
      StripOfZeroValue(f[..|f| - 1]);
    }
  }

  lemma {:induction false} PowAdd(a: nat, b: nat)
    ensures Pow10(a + b) == Pow10(a) * Pow10(b)
  {
    if a > 0 {
      PowAdd(a - 1, b);
      assert Pow10(a + b) == 10 * Pow10(a - 1 + b);
    }
  }

  lemma Pow8()
    ensures Pow10(8) == SCALE
  {
    assert Pow10(4) == 10000;
    PowAdd(4, 4);
  }

  // ---- decimal texts ----

  /** An optional minus, one or more digits, and optionally a point with more
      digits: what every amount pattern of the services admits, and more. */
  datatype Decimal = Decimal(negative: bool, whole: string, fraction: string)

  predicate WellFormed(d: Decimal) {
    |d.whole| > 0 && Digits(d.whole) && Digits(d.fraction)
  }

  function Body(d: Decimal): string {
    if d.fraction == [] then d.whole else d.whole + (['.'] + d.fraction)
  }

  function Text(d: Decimal): string {
    if d.negative then ['-'] + Body(d) else Body(d)
  }

  function PointAt(s: string): (k: nat)
    ensures k <= |s|
    ensures forall j :: 0 <= j < k ==> s[j] != '.'
    ensures k < |s| ==> s[k] == '.'
  {
    if |s| == 0 || s[0] == '.' then 0 else 1 + PointAt(s[1..])
  }

  /** Cuts a text at the sign and at the point, as the services do before they
      read the two digit strings. */
  function Cut(s: string): Decimal {
    var negative := |s| > 0 && s[0] == '-';
    var body := if negative then s[1..] else s;
    var k := PointAt(body);
    Decimal(negative, body[..k], if k < |body| then body[k + 1..] else [])
  }

  predicate IsDecimalText(s: string) { WellFormed(Cut(s)) }

  lemma CutOfText(d: Decimal)
    requires WellFormed(d)
    ensures Cut(Text(d)) == d && IsDecimalText(Text(d))
  {
    var body := Body(d);
    CutOfBody(d);
    assert IsDigit(body[0]) by { assert body[0] == d.whole[0]; }
    if d.negative {
      assert Text(d)[1..] == body;
    }
  }

  lemma CutOfBody(d: Decimal)
    requires WellFormed(d)
    ensures PointAt(Body(d)) == |d.whole| && Body(d)[..|d.whole|] == d.whole
    ensures if d.fraction == [] then |Body(d)| == |d.whole|
            else |d.whole| < |Body(d)| && Body(d)[|d.whole| + 1..] == d.fraction
  {
    PointAfterDigits(d.whole, if d.fraction == [] then [] else ['.'] + d.fraction);
    if d.fraction == [] {
      assert d.whole + [] == d.whole;
    }
  }

  lemma {:induction false} PointAfterDigits(a: string, b: string)
    requires Digits(a) && (b == [] || b[0] == '.')
    ensures PointAt(a + b) == |a|
  {
    if |a| == 0 {
      assert a + b == b;
    } else {
      assert (a + b)[1..] == a[1..] + b;
      PointAfterDigits(a[1..], b);
    }
  }

  // ---- the numbers texts denote ----

  function Signed(negative: bool, magnitude: int): int { if negative then -magnitude else magnitude }

  /** All digits with the point moved k places to the right. */
  function Shifted(d: Decimal, k: nat): (s: string)
    requires WellFormed(d)
    ensures Digits(s)
  {
    d.whole + PadEnd(d.fraction, k)
  }

  /** The number denoted, times 10^k, for any k that leaves no remainder. */
  function Scaled(d: Decimal, k: nat): int
    requires WellFormed(d) && |d.fraction| <= k
  {
    Signed(d.negative, Value(Shifted(d, k)))
  }

  predicate SameNumber(a: Decimal, b: Decimal)
    requires WellFormed(a) && WellFormed(b)
  {
    Scaled(a, |a.fraction| + |b.fraction|) == Scaled(b, |a.fraction| + |b.fraction|)
  }

  /** Two texts denote the same number. */
  predicate SameNumberText(s: string, t: string)
    requires IsDecimalText(s) && IsDecimalText(t)
  {
    SameNumber(Cut(s), Cut(t))
  }

  lemma {:induction false} PadEndStep(f: string, k: nat)
    requires |f| <= k
    ensures PadEnd(f, k + 1) == PadEnd(f, k) + ['0']
    decreases k - |f|
  {
    if |f| < k {
      PadEndStep(f + ['0'], k);
    }
  }

  /** One more place is a factor of ten. */
  lemma ScaledUp(d: Decimal, k: nat)
    requires WellFormed(d) && |d.fraction| <= k
    ensures Scaled(d, k + 1) == 10 * Scaled(d, k)
  {
    PadEndStep(d.fraction, k);
    assert Shifted(d, k + 1) == Shifted(d, k) + ['0'];
    assert Shifted(d, k + 1)[..|Shifted(d, k)|] == Shifted(d, k);
  }

  lemma {:induction false} CompareUp(a: Decimal, b: Decimal, k: nat, n: nat)
    requires WellFormed(a) && |a.fraction| <= k
    requires WellFormed(b) && |b.fraction| <= k
    ensures Scaled(a, k + n) <= Scaled(b, k + n) <==> Scaled(a, k) <= Scaled(b, k)
    ensures Scaled(a, k + n) == Scaled(b, k + n) <==> Scaled(a, k) == Scaled(b, k)
  {
    if n > 0 {
      CompareUp(a, b, k, n - 1);
      ScaledUp(a, k + n - 1);
      ScaledUp(b, k + n - 1);
    }
  }

  /** The order of two numbers does not depend on the scale they are read at. */
  lemma CompareAtScales(a: Decimal, b: Decimal, m: nat, k: nat)
    requires WellFormed(a) && |a.fraction| <= k && |a.fraction| <= m
    requires WellFormed(b) && |b.fraction| <= k && |b.fraction| <= m
    ensures Scaled(a, m) <= Scaled(b, m) <==> Scaled(a, k) <= Scaled(b, k)
    ensures Scaled(a, m) == Scaled(b, m) <==> Scaled(a, k) == Scaled(b, k)
  {
    if m <= k {
      CompareUp(a, b, m, k - m);
    } else {
      CompareUp(a, b, k, m - k);
    }
  }

  // ---- scaled integers: units/amount and decimal/decimalString ----

  /** Whole part times 10^8 plus the fraction padded to eight digits. */
  function ReadUnits(d: Decimal): int
    requires WellFormed(d)
  {
    Signed(d.negative, Value(d.whole) * SCALE + Value(PadEnd(d.fraction, 8)))
  }

  /** The reader of the settlement and cashbox services. */
  function Units(s: string): int
    requires IsDecimalText(s)
  {
    ReadUnits(Cut(s))
  }

  /** What the printer of both services writes, cut at sign and point. */
  function AmountParts(n: int): (d: Decimal)
    ensures WellFormed(d)
  {
    var absolute: nat := if n < 0 then -n else n;
    EightDigits(absolute % SCALE);
    Decimal(n < 0, Print(absolute / SCALE), StripTrailing(PadStart(Print(absolute % SCALE), 8)))
  }

  /** The printer of both services. */
  function Amount(n: int): string { Text(AmountParts(n)) }

  function FractionDigits(s: string): nat { |Cut(s).fraction| }

  lemma {:induction false} PrintLength(n: nat, k: nat)
    requires k > 0 && n < Pow10(k)
    ensures |Print(n)| <= k
  {
    if n >= 10 {
      PrintLength(n / 10, k - 1);
    }
  }

  lemma EightDigits(n: nat)
    requires n < SCALE
    ensures var p := PadStart(Print(n), 8);
            Digits(p) && |p| == 8 && Value(p) == n && PadEnd(StripTrailing(p), 8) == p
  {
    Pow8();
    PrintLength(n, 8);
    ValueOfPrint(n);
    PadStartIsValue(Print(n), 8);
    PadOfStrip(PadStart(Print(n), 8), 8);
  }

  lemma PadStartIsValue(s: string, n: nat)
    requires Digits(s)
    ensures Value(PadStart(s, n)) == Value(s)
  {
    PadStartValue(s, n, []);
    assert PadStart(s, n) + [] == PadStart(s, n);
    assert s + [] == s;
  }

  lemma ReadAmountParts(n: int)
    ensures |AmountParts(n).fraction| <= 8 && ReadUnits(AmountParts(n)) == n
  {
    var absolute: nat := if n < 0 then -n else n;
    EightDigits(absolute % SCALE);
    ValueOfPrint(absolute / SCALE);
  }

  /** Printing and reading back is the identity on every integer. */
  lemma UnitsOfAmount(n: int)
    ensures IsDecimalText(Amount(n)) && FractionDigits(Amount(n)) <= 8
    ensures Units(Amount(n)) == n
  {
    ReadAmountParts(n);
    CutOfText(AmountParts(n));
  }

  lemma AmountInjective(m: int, n: int)
    ensures Amount(m) == Amount(n) <==> m == n
  {
    UnitsOfAmount(m);
    UnitsOfAmount(n);
  }

  lemma UnitsAreScaled(d: Decimal)
    requires WellFormed(d) && |d.fraction| <= 8
    ensures ReadUnits(d) == Scaled(d, 8)
  {
    Pow8();
    ValueOfConcat(d.whole, PadEnd(d.fraction, 8));
  }

  lemma SameUnitsIffSameNumber(a: Decimal, b: Decimal)
    requires WellFormed(a) && |a.fraction| <= 8
    requires WellFormed(b) && |b.fraction| <= 8
    ensures ReadUnits(a) == ReadUnits(b) <==> SameNumber(a, b)
  {
    UnitsAreScaled(a);
    UnitsAreScaled(b);
    CompareAtScales(a, b, |a.fraction| + |b.fraction|, 8);
  }

  /** For texts read exactly, equal integers are equal numbers, and printing
      after reading gives one text per number. */
  lemma PrintedTextIsCanonical(s: string, t: string)
    requires IsDecimalText(s) && FractionDigits(s) <= 8
    requires IsDecimalText(t) && FractionDigits(t) <= 8
    ensures Units(s) == Units(t) <==> SameNumberText(s, t)
    ensures Amount(Units(s)) == Amount(Units(t)) <==> SameNumberText(s, t)
  {
    SameUnitsIffSameNumber(Cut(s), Cut(t));
    AmountInjective(Units(s), Units(t));
  }

  /** What is read denotes the number of the text precisely when the text has at
      most eight fraction digits or a zero fraction: the digits of a longer
      fraction are taken as whole units. */
  lemma ReadExactWhen(d: Decimal)
    requires WellFormed(d)
    ensures SameNumber(d, AmountParts(ReadUnits(d))) <==> |d.fraction| <= 8 || Value(d.fraction) == 0
  {
    var r := AmountParts(ReadUnits(d));
    ReadAmountParts(ReadUnits(d));
    UnitsAreScaled(r);
    if |d.fraction| <= 8 {
      SameUnitsIffSameNumber(d, r);
    } else {
      var k := |d.fraction|;
      CompareAtScales(d, r, k + |r.fraction|, k);
      ScaledTimes(r, 8, k - 8);
      assert PadEnd(d.fraction, k) == d.fraction == PadEnd(d.fraction, 8);
      ValueOfConcat(d.whole, d.fraction);
      PowAdd(8, k - 8);
      Pow8();
      LongFraction(d.negative, Value(d.whole), Value(d.fraction), Pow10(k - 8));
    }
  }

  lemma {:induction false} ScaledTimes(d: Decimal, k: nat, n: nat)
    requires WellFormed(d) && |d.fraction| <= k
    ensures Scaled(d, k + n) == Scaled(d, k) * Pow10(n)
  {
    if n > 0 {
      ScaledTimes(d, k, n - 1);
      ScaledUp(d, k + n - 1);
      TimesTen(Scaled(d, k), Pow10(n - 1));
    }
  }

  lemma TimesTen(a: int, p: int)
    ensures a * (10 * p) == 10 * (a * p)
  {
  }

  lemma LongFraction(negative: bool, w: nat, v: nat, p: nat)
    requires p >= 10
    ensures Signed(negative, w * SCALE + v) * p == Signed(negative, w * (SCALE * p) + v) <==> v == 0
  {
    assert (w * SCALE + v) * p == w * (SCALE * p) + v * p;
    assert -(w * SCALE + v) * p == -((w * SCALE + v) * p);
    if v > 0 {
      assert v * p > v;
    }
  }

  /** The nine-digit text 0.000000001, which the positive-amount pattern admits,
      is misread as the smallest unit. */
  lemma NineDigitsMisread()
    ensures var d := Decimal(false, ['0'], PadStart(['1'], 9));
            WellFormed(d) && |d.fraction| == 9 && ReadUnits(d) == 1 && !SameNumber(d, AmountParts(1))
  {
    var d := Decimal(false, ['0'], PadStart(['1'], 9));
    PadStartIsValue(['1'], 9);
    assert Value(['1']) == 1 by { assert ['1'][..0] == []; }
    assert Value(['0']) == 0 by { assert ['0'][..0] == []; }
    ReadExactWhen(d);
  }

  // ---- signed cashbox arithmetic on texts ----

  function Subtract(left: string, right: string): string
    requires IsDecimalText(left) && IsDecimalText(right)
  {
    Amount(Units(left) - Units(right))
  }

  function Absolute(s: string): string
    requires IsDecimalText(s)
  {
    Amount(if Units(s) < 0 then -Units(s) else Units(s))
  }

  /** On texts with any number of digits the signed helpers compute on the
      integers read, and posting the absolute variance as credit or debit by its
      sign carries the book to the count. */
  lemma VarianceTexts(counted: string, book: string)
    requires IsDecimalText(counted) && IsDecimalText(book)
    ensures var v := Subtract(counted, book);
            && IsDecimalText(v) && Units(v) == Units(counted) - Units(book)
            && IsDecimalText(Absolute(v)) && Units(Absolute(v)) >= 0
            && Units(book) + (if Units(v) > 0 then Units(Absolute(v)) else -Units(Absolute(v))) == Units(counted)
  {
    hide Amount, Units, IsDecimalText;
    var n := Units(counted) - Units(book);
    UnitsOfAmount(n);
    UnitsOfAmount(if n < 0 then -n else n);
  }

  /** numeric(38,8) as text: always eight fraction digits. */
  function NumericParts(n: int): (d: Decimal)
    ensures WellFormed(d)
  {
    var absolute: nat := if n < 0 then -n else n;
    EightDigits(absolute % SCALE);
    Decimal(n < 0, Print(absolute / SCALE), PadStart(Print(absolute % SCALE), 8))
  }

  function NumericText(n: int): string { Text(NumericParts(n)) }

  lemma ReadNumericParts(n: int)
    ensures |NumericParts(n).fraction| == 8 && ReadUnits(NumericParts(n)) == n
  {
    var absolute: nat := if n < 0 then -n else n;
    EightDigits(absolute % SCALE);
    ValueOfPrint(absolute / SCALE);
  }

  lemma UnitsOfNumeric(n: int)
    ensures IsDecimalText(NumericText(n)) && FractionDigits(NumericText(n)) == 8
    ensures Units(NumericText(n)) == n
  {
    CutOfText(NumericParts(n));
    ReadNumericParts(n);
  }

  // ---- comparisons of the access-control services ----

  /** compareDecimal/decimalCompare: pad both fractions to one length and compare
      the joined digit strings. */
  function CompareDecimal(left: Decimal, right: Decimal): int
    requires WellFormed(left) && WellFormed(right)
  {
    var scale := if |left.fraction| < |right.fraction| then |right.fraction| else |left.fraction|;
    var a, b := Value(Shifted(left, scale)), Value(Shifted(right, scale));
    if a < b then -1 else if a > b then 1 else 0
  }

  /** The authority check's reader, with twelve fraction digits. */
  function AuthorityUnits(d: Decimal): int
    requires WellFormed(d)
  {
    Value(d.whole) * 1_000_000_000_000 + Value(PadEnd(d.fraction, 12))
  }

  /** The three comparisons in use agree on unsigned amounts of at most eight
      fraction digits: joined digit strings, 10^12 units and 10^8 units. */
  lemma ComparisonsAgree(a: Decimal, b: Decimal)
    requires WellFormed(a) && !a.negative && |a.fraction| <= 8
    requires WellFormed(b) && !b.negative && |b.fraction| <= 8
    ensures CompareDecimal(a, b) <= 0 <==> ReadUnits(a) <= ReadUnits(b)
    ensures CompareDecimal(a, b) < 0 <==> ReadUnits(a) < ReadUnits(b)
    ensures AuthorityUnits(a) <= AuthorityUnits(b) <==> ReadUnits(a) <= ReadUnits(b)
  {
    var scale := if |a.fraction| < |b.fraction| then |b.fraction| else |a.fraction|;
    CompareAtScales(a, b, scale, 8);
    UnitsAreScaled(a);
    UnitsAreScaled(b);
    AuthorityUnitsAreScaled(a);
    AuthorityUnitsAreScaled(b);
    CompareAtScales(a, b, 12, 8);
  }

  lemma AuthorityUnitsAreScaled(d: Decimal)
    requires WellFormed(d) && !d.negative && |d.fraction| <= 12
    ensures AuthorityUnits(d) == Scaled(d, 12)
  {
    Pow8();
    PowAdd(8, 4);
    assert Pow10(4) == 10000;
    ValueOfConcat(d.whole, PadEnd(d.fraction, 12));
  }

  // ---- the canonical text of collection effects ----

  /** Strips leading zeros, trailing fraction zeros, a bare point and the sign of zero. */
  function Canonical(s: string): string
    requires IsDecimalText(s)
  {
    var d := Cut(s);
    var clean := Text(Decimal(d.negative, StripLeading(d.whole), StripTrailing(d.fraction)));
    if clean == ['-', '0'] then ['0'] else clean
  }

  /** Sign, whole and fraction as the canonical text shows them. */
  function Clean(d: Decimal): (c: Decimal)
    requires WellFormed(d)
    ensures WellFormed(c)
  {
    var w, f := StripLeading(d.whole), StripTrailing(d.fraction);
    Decimal(d.negative && !(w == ['0'] && f == []), w, f)
  }

  lemma CanonicalIsClean(s: string)
    requires IsDecimalText(s)
    ensures Canonical(s) == Text(Clean(Cut(s)))
  {
    var d := Cut(s);
    var stripped, minusZero := Decimal(d.negative, StripLeading(d.whole), StripTrailing(d.fraction)),
      Decimal(true, ['0'], []);
    CutOfText(stripped);
    CutOfText(minusZero);
    assert Text(minusZero) == ['-', '0'];
  }

  /** Two texts get the same canonical text exactly when they denote the same
      number, for any number of digits. */
  lemma CanonicalIffSameNumber(s: string, t: string)
    requires IsDecimalText(s) && IsDecimalText(t)
    ensures Canonical(s) == Canonical(t) <==> SameNumberText(s, t)
  {
    CanonicalIsClean(s);
    CanonicalIsClean(t);
    CutOfText(Clean(Cut(s)));
    CutOfText(Clean(Cut(t)));
    if SameNumberText(s, t) {
      SameCleanParts(Cut(s), Cut(t));
    } else if Clean(Cut(s)) == Clean(Cut(t)) {
      SameNumberFromParts(Cut(s), Cut(t));
    }
  }

  /** Digit strings of equal value, with equally many digits after the point,
      agree after the point and in the value before it. */
  lemma SplitAtPoint(v: string, f: string, w: string, g: string)
    requires Digits(v) && Digits(f) && Digits(w) && Digits(g) && |f| == |g|
    requires Digits(v + f) && Digits(w + g) && Value(v + f) == Value(w + g)
    ensures f == g && Value(v) == Value(w)
  {
    hide Digits, PadStart;
    var n := |v| + |w|;
    PadStartValue(v, n, f);
    PadStartValue(w, n, g);
    PadStartIsValue(v, n);
    PadStartIsValue(w, n);
    DigitsJoined(PadStart(v, n), f);
    DigitsJoined(PadStart(w, n), g);
    SplitPadded(PadStart(v, n), f, PadStart(w, n), g);
  }

  lemma DigitsJoined(a: string, b: string)
    requires Digits(a) && Digits(b)
    ensures Digits(a + b)
  {
  }

  lemma SplitPadded(a: string, f: string, b: string, g: string)
    requires Digits(a) && Digits(b) && |a| == |b| && Digits(f) && Digits(g) && |f| == |g|
    requires Digits(a + f) && Digits(b + g) && Value(a + f) == Value(b + g)
    ensures a == b && f == g
  {
    SameLengthSameValue(a + f, b + g);
    SameParts(a, f, b, g);
  }

  lemma SameParts(a: string, f: string, b: string, g: string)
    requires |a| == |b| && a + f == b + g
    ensures a == b && f == g
  {
    assert (a + f)[..|a|] == a && (b + g)[..|a|] == b;
    assert (a + f)[|a|..] == f && (b + g)[|a|..] == g;
  }

  lemma SameCleanParts(a: Decimal, b: Decimal)
    requires WellFormed(a) && WellFormed(b) && SameNumber(a, b)
    ensures Clean(a) == Clean(b)
  {
    var k := |a.fraction| + |b.fraction|;
    var f, g := PadEnd(a.fraction, k), PadEnd(b.fraction, k);
    SplitAtPoint(a.whole, f, b.whole, g);
    StripOfPad(a.fraction, k);
    StripOfPad(b.fraction, k);
    CleanWhole(a);
    CleanWhole(b);
    if a.negative != b.negative {
      ZeroParts(a.whole, f);
    }
  }

  lemma ZeroParts(w: string, f: string)
    requires Digits(w) && Digits(f) && Digits(w + f) && Value(w + f) == 0
    ensures Print(Value(w)) == ['0'] && StripTrailing(f) == []
  {
    var zeros := PadStart([], |f|);
    PadStartValue([], |f|, []);
    assert zeros + [] == [] + zeros == zeros;
    SplitAtPoint(w, f, [], zeros);
    StripOfZeroValue(f);
  }

  lemma CleanWhole(d: Decimal)
    requires WellFormed(d)
    ensures Clean(d).whole == Print(Value(d.whole))
  {
    StripLeadingValue(d.whole, []);
    assert d.whole + [] == d.whole && StripLeading(d.whole) + [] == StripLeading(d.whole);
    PrintOfValue(StripLeading(d.whole));
  }

  lemma SameNumberFromParts(a: Decimal, b: Decimal)
    requires WellFormed(a) && WellFormed(b) && Clean(a) == Clean(b)
    ensures SameNumber(a, b)
  {
    var k := |a.fraction| + |b.fraction|;
    ShiftedFromClean(a, k);
    ShiftedFromClean(b, k);
    if a.negative != b.negative {
      ShiftedZero(k);
    }
  }

  lemma ShiftedZero(k: nat)
    ensures Value(['0'] + PadEnd([], k)) == 0
  {
    LeadingZero(PadEnd([], k));
    ZeroPadding(k);
  }

  lemma {:induction false} ZeroPadding(k: nat)
    ensures Value(PadEnd([], k)) == 0
  {
    if k > 0 {
      PadEndStep([], k - 1);
      ZeroPadding(k - 1);
      assert PadEnd([], k)[..k - 1] == PadEnd([], k - 1);
    }
  }

  lemma ShiftedFromClean(d: Decimal, k: nat)
    requires WellFormed(d) && |d.fraction| <= k
    ensures Value(Shifted(d, k)) == Value(Shifted(Clean(d), k))
  {
    PadOfStrip(d.fraction, k);
    StripLeadingValue(d.whole, PadEnd(d.fraction, k));
  }
}
