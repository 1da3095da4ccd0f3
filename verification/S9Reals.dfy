/** Decimal reals: a sign, a mantissa of at most eighteen digits, and an exponent of ten. */
module S9Reals {
  import opened Bignum
  import opened BignumArithmetic
  import opened BignumText

  const MANTISSA_SIZE := 18

  datatype Real = Real(neg: bool, exp: int, mant: Bignum)

  datatype Option<T> = None | Some(v: T)

  function Digits10(m: nat): nat {
    |Decimal(m)|
  }

  /** No trailing zero in the mantissa, the exponent of zero is zero, and exponents have nine digits at most. */
  predicate NormalReal(x: Real) {
    && NormalNat(x.mant) && Value(x.mant) >= 0 && Digits10(Value(x.mant)) <= MANTISSA_SIZE
    && (if Value(x.mant) == 0 then x.exp == 0 else Value(x.mant) % 10 != 0)
    && Digits10(Magnitude(x.exp)) <= WIDTH
  }

  predicate Zero(x: Real)
    requires NormalNat(x.mant)
  {
    x.mant == [0]
  }

  predicate NegativeReal(x: Real)
    requires NormalNat(x.mant)
  {
    x.neg && !Zero(x)
  }

  predicate PositiveReal(x: Real)
    requires NormalNat(x.mant)
  {
    !x.neg && !Zero(x)
  }

  function Signed(x: Real): int
    requires NormalNat(x.mant)
  {
    if x.neg then -Value(x.mant) else Value(x.mant)
  }

  function Min(a: int, b: int): int {
    if a < b then a else b
  }

  /** x in units of ten to the power e. */
  function InUnits(x: Real, e: int): int
    requires NormalNat(x.mant) && e <= x.exp
  {
    Signed(x) * Pow10(x.exp - e)
  }

  /** The order of the numbers, exactly. */
  predicate RealLess(a: Real, b: Real)
    requires NormalNat(a.mant) && NormalNat(b.mant)
  {
    var e := Min(a.exp, b.exp);
    InUnits(a, e) < InUnits(b, e)
  }

  // ---------------------------------------------------------------- digits

  lemma {:induction false} DigitsBound(x: nat)
    ensures x < Pow10(Digits10(x))
    ensures x > 0 ==> Pow10(Digits10(x) - 1) <= x
  {
    if x >= 10 {
      DigitsBound(x / 10);
    } else {
      assert Pow10(1) == 10;
    }
  }

  lemma {:induction false} DigitsFrom(x: nat, d: nat)
    requires d > 0 && Pow10(d - 1) <= x < Pow10(d)
    ensures Digits10(x) == d
    decreases d
  {
    if d == 1 {
      assert Pow10(1) == 10;
    } else {
      assert Pow10(d - 1) == 10 * Pow10(d - 2);
      assert x >= 10 by {
        assert Pow10(d - 2) >= 1;
      }
      DigitsFrom(x / 10, d - 1);
    }
  }

  lemma DigitsLess(x: nat, y: nat)
    requires Digits10(x) < Digits10(y) && y > 0
    ensures x < y
  {
    DigitsBound(x);
    DigitsBound(y);
    PowMonotone(Digits10(x), Digits10(y) - 1);
  }

  lemma {:induction false} PowSum(a: nat, b: nat)
    ensures Pow10(a + b) == Pow10(a) * Pow10(b)
  {
    if b > 0 {
      PowSum(a, b - 1);
      TenTimes(Pow10(a), Pow10(b - 1));
    }
  }

  lemma {:induction false} DigitsScaled(x: nat, k: nat)
    requires x > 0
    ensures x * Pow10(k) > 0 && Digits10(x * Pow10(k)) == Digits10(x) + k
  {
    if k > 0 {
      DigitsScaled(x, k - 1);
      TenTimes(x, Pow10(k - 1));
      var y := x * Pow10(k - 1);
      assert x * Pow10(k) == 10 * y;
      assert 10 * y / 10 == y;
    }
  }

  /** Numbers with as many digits have as many segments. */
  lemma SegmentsOfDigits(a: Bignum, b: Bignum)
    requires NormalNat(a) && NormalNat(b) && Digits10(Magnitude(Value(a))) == Digits10(Magnitude(Value(b)))
    ensures |a| == |b|
  {
    CountSegments(a);
    CountSegments(b);
  }

  lemma CountSegments(a: Bignum)
    requires NormalNat(a)
    ensures 9 * (|a| - 1) < Digits10(Magnitude(Value(a))) <= 9 * |a|
  {
    hide Join;
    SegmentsAll(a);
    NormalAbs(a);
    CountUpto(a, |a|);
    UptoEnds(a);
  }

  lemma {:induction false} CountUpto(a: Bignum, i: nat)
    requires NormalNat(a) && Segments(a) && 1 <= i <= |a|
    ensures Upto(a, i) >= 0 && (|a| > 1 ==> Upto(a, i) > 0)
    ensures 9 * (i - 1) < Digits10(Upto(a, i)) <= 9 * i
  {
    hide Join, Decimal, Upto, Padded, Zeros;
    UptoStep(a, i - 1);
    var x := a[i - 1];
    assert Segment(x);
    if i == 1 {
      UptoEnds(a);
      NinePower();
      PaddedIs(x as int, 9);
    } else {
      CountUpto(a, i - 1);
      NineMore(Upto(a, i - 1), x);
    }
  }

  lemma NineMore(h: nat, x: cell)
    requires h > 0 && Segment(x)
    ensures Digits10(h * BASE + x as int) == Digits10(h) + 9
  {
    hide Decimal, Padded;
    NinePower();
    DecimalJoined(h, x as int, 9);
  }

  // ---------------------------------------------------------------- comparison

  lemma ScaleStep(m: int, k: nat)
    ensures 10 * (m * Pow10(k)) == m * Pow10(k + 1)
  {
    TenTimes(m, Pow10(k));
  }

  /** x with the exponent e, if its mantissa has room for that. */
  method ScaleMantissa(x: Real, e: int, maxSize: nat) returns (r: Option<Real>)
    requires NormalNat(x.mant) && Value(x.mant) >= 0 && e <= x.exp
    ensures r.None? <==> maxSize != 0 && maxSize - Digits10(Value(x.mant)) < x.exp - e
    ensures r.Some? ==>
              && r.v.neg == x.neg && r.v.exp == e && NormalNat(r.v.mant)
              && Value(r.v.mant) == Value(x.mant) * Pow10(x.exp - e)
  {
    var dgs := CountDigits(x.mant);
    if maxSize != 0 && maxSize - dgs < x.exp - e {
      return None;
    }
    var n, f := x.mant, x.exp;
    while f > e
      invariant e <= f <= x.exp && NormalNat(n) && Value(n) == Value(x.mant) * Pow10(x.exp - f)
    {
      ScaleStep(Value(x.mant), x.exp - f);
      n := ShiftLeft(n, 0);
      f := f - 1;
    }
    return Some(Real(x.neg, f, n));
  }

  /** Both with the lower of the two exponents. */
  method Autoscale(a: Real, b: Real) returns (x: Option<Real>, y: Option<Real>)
    requires NormalNat(a.mant) && Value(a.mant) >= 0 && NormalNat(b.mant) && Value(b.mant) >= 0
    ensures a.exp <= b.exp ==> x == Some(a)
    ensures b.exp <= a.exp ==> y == Some(b)
    ensures a.exp < b.exp ==>
              && (y.None? <==> 2 * MANTISSA_SIZE - Digits10(Value(b.mant)) < b.exp - a.exp)
              && (y.Some? ==> y.v.neg == b.neg && y.v.exp == a.exp && NormalNat(y.v.mant)
                              && Value(y.v.mant) == Value(b.mant) * Pow10(b.exp - a.exp))
    ensures b.exp < a.exp ==>
              && (x.None? <==> 2 * MANTISSA_SIZE - Digits10(Value(a.mant)) < a.exp - b.exp)
              && (x.Some? ==> x.v.neg == a.neg && x.v.exp == b.exp && NormalNat(x.v.mant)
                              && Value(x.v.mant) == Value(a.mant) * Pow10(a.exp - b.exp))
  {
    x, y := Some(a), Some(b);
    if a.exp < b.exp {
      y := ScaleMantissa(b, a.exp, 2 * MANTISSA_SIZE);
      return;
    }
    if a.exp > b.exp {
      x := ScaleMantissa(a, b.exp, 2 * MANTISSA_SIZE);
    }
  }

  /** The magnitude of x in units of ten to the power e. */
  function UnitsIn(x: Real, e: int): nat
    requires NormalNat(x.mant) && Value(x.mant) >= 0 && e <= x.exp
  {
    MulNat(Value(x.mant), Pow10(x.exp - e))
  }

  function MulNat(a: nat, b: nat): (c: nat)
    ensures c == a * b && (a > 0 && b > 0 ==> c > 0)
  {
    PositiveOrZero(a, b);
    a * b
  }

  lemma PositiveOrZero(a: nat, b: nat)
    ensures a * b >= 0 && (a > 0 && b > 0 ==> a * b > 0)
  {
  }

  lemma UnitsAre(x: Real, e: int)
    requires NormalNat(x.mant) && Value(x.mant) >= 0 && e <= x.exp
    ensures var n: int := UnitsIn(x, e); InUnits(x, e) == if x.neg then -n else n
    ensures UnitsIn(x, e) == 0 <==> Value(x.mant) == 0
  {
    NegateProduct(Value(x.mant), Pow10(x.exp - e));
  }

  lemma NegateProduct(a: int, b: int)
    ensures (-a) * b == -(a * b)
  {
  }

  /** More digits before the point: a larger number. */
  lemma MoreDigits(a: Real, b: Real)
    requires NormalReal(a) && NormalReal(b) && !Zero(a) && !Zero(b)
    requires Digits10(Value(a.mant)) + a.exp < Digits10(Value(b.mant)) + b.exp
    ensures UnitsIn(a, Min(a.exp, b.exp)) < UnitsIn(b, Min(a.exp, b.exp))
  {
    hide Decimal;
    var e := Min(a.exp, b.exp);
    ZeroIs(a.mant);
    ZeroIs(b.mant);
    DigitsScaled(Value(a.mant), a.exp - e);
    DigitsScaled(Value(b.mant), b.exp - e);
    DigitsLess(UnitsIn(a, e), UnitsIn(b, e));
  }

  /** The order of normalised reals. With as many digits before the point, scaling has room, and then the mantissas have
      as many segments. */
  method Less(a: Real, b: Real) returns (r: bool)
    requires NormalReal(a) && NormalReal(b)
    ensures r <==> RealLess(a, b)
  {
    hide Decimal, InUnits, UnitsIn;
    ghost var e := Min(a.exp, b.exp);
    UnitsAre(a, e);
    UnitsAre(b, e);
    ZeroIs(a.mant);
    ZeroIs(b.mant);
    if NegativeReal(a) && !NegativeReal(b) {
      return true;
    }
    if NegativeReal(b) && !NegativeReal(a) {
      return false;
    }
    if Zero(a) && PositiveReal(b) {
      return true;
    }
    if Zero(b) && PositiveReal(a) {
      return false;
    }
    var neg := NegativeReal(a);
    var da := CountDigits(a.mant);
    var db := CountDigits(b.mant);
    var dpa, dpb := da + a.exp, db + b.exp;
    if dpa < dpb {
      if !Zero(a) { MoreDigits(a, b); } else { ZeroOnly(a, b, dpa, dpb); }
      return !neg;
    }
    if dpa > dpb {
      if !Zero(a) { MoreDigits(b, a); } else { ZeroOnly(b, a, dpb, dpa); }
      return neg;
    }
    ghost var bySegments;
    r, bySegments := CompareScaled(a, b, neg);
  }

  lemma ZeroOnly(a: Real, b: Real, dpa: int, dpb: int)
    requires NormalReal(a) && NormalReal(b) && Zero(a) && Zero(b)
    requires dpa == Digits10(Value(a.mant)) + a.exp && dpb == Digits10(Value(b.mant)) + b.exp
    ensures dpa == dpb
  {
    ZeroIs(a.mant);
    ZeroIs(b.mant);
  }

  /** The last part of the comparison: equal signs, and as many digits before the point. It is decided by the segments:
      the mantissas always fit when they are scaled, and then have the same number of segments. */
  method CompareScaled(a: Real, b: Real, neg: bool) returns (r: bool, ghost bySegments: bool)
    requires NormalReal(a) && NormalReal(b) && neg == NegativeReal(a) == NegativeReal(b) && Zero(a) == Zero(b)
    requires Digits10(Value(a.mant)) + a.exp == Digits10(Value(b.mant)) + b.exp
    ensures (r <==> RealLess(a, b)) && bySegments
  {
    hide Decimal;
    ghost var e := Min(a.exp, b.exp);
    UnitsAre(a, e);
    UnitsAre(b, e);
    ZeroIs(a.mant);
    ZeroIs(b.mant);
    var x, y := Autoscale(a, b);
    ScalingFits(a, b);
    if x.None? {
      return neg, false;
    }
    if y.None? {
      return !neg, false;
    }
    var ma, mb := x.v.mant, y.v.mant;
    NaturalValue(ma);
    NaturalValue(mb);
    SameDigits(a, b, e);
    assert Value(ma) == UnitsIn(a, e) && Value(mb) == UnitsIn(b, e) by {
      OneTimes(Value(a.mant));
      OneTimes(Value(b.mant));
    }
    SegmentsOfDigits(ma, mb);
    if |ma| < |mb| {
      return true, false;
    }
    if |ma| > |mb| {
      return false, false;
    }
    SegmentsAll(ma);
    SegmentsAll(mb);
    var i := 0;
    while i < |ma|
      invariant 0 <= i <= |ma| && ma[..i] == mb[..i]
    {
      if ma[i] < mb[i] {
        FirstDifference(0, ma, mb, i);
        return !neg, true;
      }
      if ma[i] > mb[i] {
        FirstDifference(0, mb, ma, i);
        return neg, true;
      }
      assert ma[..i + 1] == ma[..i] + [ma[i]] && mb[..i + 1] == mb[..i] + [mb[i]];
      i := i + 1;
    }
    assert ma[..i] == ma && mb[..i] == mb;
    return false, true;
  }

  lemma OneTimes(m: int)
    ensures m * Pow10(0) == m
  {
  }

  lemma NaturalValue(a: Bignum)
    requires NormalNat(a)
    ensures Value(a) >= 0
  {
    NormalAbs(a);
  }

  lemma ScalingFits(a: Real, b: Real)
    requires NormalReal(a) && NormalReal(b) && Zero(a) == Zero(b)
    requires Digits10(Value(a.mant)) + a.exp == Digits10(Value(b.mant)) + b.exp
    ensures 2 * MANTISSA_SIZE - Digits10(Value(b.mant)) >= b.exp - a.exp
    ensures 2 * MANTISSA_SIZE - Digits10(Value(a.mant)) >= a.exp - b.exp
  {
  }

  lemma SameDigits(a: Real, b: Real, e: int)
    requires NormalReal(a) && NormalReal(b) && Zero(a) == Zero(b) && e == Min(a.exp, b.exp)
    requires Digits10(Value(a.mant)) + a.exp == Digits10(Value(b.mant)) + b.exp
    ensures Digits10(UnitsIn(a, e)) == Digits10(UnitsIn(b, e))
  {
    hide Decimal;
    ZeroIs(a.mant);
    ZeroIs(b.mant);
    if Zero(a) {
      UnitsAre(a, e);
      UnitsAre(b, e);
    } else {
      DigitsScaled(Value(a.mant), a.exp - e);
      DigitsScaled(Value(b.mant), b.exp - e);
    }
  }

  // ---------------------------------------------------------------- normalisation

  /** The digits that do not fit. */
  function Excess(m: nat): nat {
    if Digits10(m) > MANTISSA_SIZE then Digits10(m) - MANTISSA_SIZE else 0
  }

  function Quo(m: nat, p: nat): (q: nat)
    requires p > 0
  {
    DivisionIdentity(m, p);
    QuoNonneg(m, p);
    m / p
  }

  lemma QuoNonneg(m: nat, p: nat)
    requires p > 0
    ensures m / p >= 0
  {
  }

  /** The mantissa without the digits that do not fit. */
  function Kept(m: nat): nat {
    Quo(m, Pow10(Excess(m)))
  }

  /** It is rounded toward zero, by less than one unit of the eighteenth digit. */
  lemma KeptRounds(m: nat)
    ensures MulNat(Kept(m), Pow10(Excess(m))) <= m < MulNat(Kept(m), Pow10(Excess(m))) + Pow10(Excess(m))
    ensures Digits10(Kept(m)) <= MANTISSA_SIZE && (Excess(m) > 0 ==> Digits10(Kept(m)) == MANTISSA_SIZE)
    ensures Excess(m) == 0 ==> Kept(m) == m
  {
    hide Decimal, Quo, Pow10, MulNat;
    QuoIs(m, Pow10(Excess(m)));
    if Excess(m) > 0 {
      TopDigits(m, Excess(m));
      Between(m, Pow10(Excess(m)), Pow10(17), Pow10(18));
      DigitsFrom(Kept(m), 18);
    } else {
      PowZero();
      QuoOne(m);
    }
  }

  lemma PowZero()
    ensures Pow10(0) == 1
  {
  }

  lemma TopDigits(m: nat, j: nat)
    requires Digits10(m) == 18 + j
    ensures Pow10(17) * Pow10(j) <= m < Pow10(18) * Pow10(j)
  {
    hide Decimal, Pow10;
    PowSum(18, j);
    PowSum(17, j);
    DigitsBound(m);
    NotZero(m);
  }

  lemma NotZero(m: nat)
    requires Digits10(m) > 1
    ensures m > 0
  {
  }

  lemma QuoIs(m: nat, p: nat)
    requires p > 0
    ensures MulNat(Quo(m, p), p) <= m < MulNat(Quo(m, p), p) + p
  {
    DivisionIdentity(m, p);
  }

  lemma QuoOne(m: nat)
    ensures Quo(m, 1) == m
  {
  }

  lemma Between(m: nat, p: nat, lo: nat, hi: nat)
    requires p > 0 && lo * p <= m < hi * p
    ensures lo <= Quo(m, p) < hi
  {
    hide Quo;
    QuoIs(m, p);
    var q := Quo(m, p);
    if q < lo {
      OneMoreTimes(q, lo, p);
    }
    if q >= hi {
      OneMoreTimes(hi - 1, q + 1, p);
      OneMoreTimes(hi - 1, hi, p);
      OneMoreTimes(q, q + 1, p);
    }
  }

  lemma OneMoreTimes(a: int, b: int, p: nat)
    requires a < b
    ensures (a + 1) * p <= b * p && (a + 1) * p == a * p + p
  {
    OneMore(a, p);
  }

  /** The same number: equal, or both zero. */
  predicate SameNumber(m: nat, e: int, m': nat, e': int) {
    if m == 0 || m' == 0 then m == m' else e <= e' && m == MulNat(m', Pow10(e' - e))
  }

  lemma SameStep(m: nat, e: int, x: nat, y: nat, e': int)
    requires SameNumber(m, e, x, e') && x == 10 * y && x > 0
    ensures SameNumber(m, e, y, e' + 1)
  {
    if m != 0 {
      TenTimes(y, Pow10(e' - e));
      ProductMoves(y, Pow10(e' - e));
    }
  }

  lemma ProductMoves(y: int, p: int)
    ensures 10 * y * p == y * (10 * p)
  {
  }

  lemma DigitsDrop(x: nat)
    requires Digits10(x) > 1
    ensures Digits10(x / 10) == Digits10(x) - 1
  {
  }

  lemma QuoTwice(m: nat, p: nat)
    requires p > 0
    ensures Quo(m, p) / 10 == Quo(m, 10 * p)
  {
    hide Quo;
    var q := Quo(m, p);
    QuoIs(m, p);
    var a, b := q / 10, q % 10;
    Regroup(a, b, p);
    SmallProduct(b, p);
    var r := m - a * (10 * p);
    QuoUnique(m, 10 * p, a, r);
  }

  lemma QuoUnique(m: nat, p: nat, q: nat, r: int)
    requires p > 0 && m == q * p + r && 0 <= r < p
    ensures Quo(m, p) == q
  {
    QuotientIs(m, p, q, r);
  }

  lemma Regroup(a: int, b: int, p: int)
    ensures (a * 10 + b) * p == a * (10 * p) + p * b
  {
  }

  lemma SmallProduct(d: int, p: int)
    requires 0 <= d <= 9 && p > 0
    ensures 0 <= p * d <= 9 * p
  {
  }

  /** The normal form: at most eighteen digits, trailing zeros moved into the exponent. It is the number itself, or
      rounded toward zero; there is none if the exponent becomes too large. */
  method RealNormalize(x: Real) returns (r: Option<Real>)
    requires NormalNat(x.mant) && Value(x.mant) >= 0
    ensures
      var m := Value(x.mant);
      r.Some? ==> NormalReal(r.v) && r.v.neg == x.neg
                  && SameNumber(Kept(m), x.exp + Excess(m), Value(r.v.mant), r.v.exp)
    ensures r.None? ==> Digits10(Magnitude(FinalExponent(Value(x.mant), x.exp))) > WIDTH
  {
    hide Decimal, Quo;
    ghost var v := Value(x.mant);
    ghost var k := 0;
    var m, e := x.mant, x.exp;
    var dgs := CountDigits(m);
    QuoOne(v);
    while dgs > MANTISSA_SIZE
      invariant NormalNat(m) && Value(m) == Quo(v, Pow10(k)) && dgs == Digits10(Value(m)) == Digits10(v) - k
      invariant e == x.exp + k && k <= Excess(v)
      decreases dgs
    {
      QuoTwice(v, Pow10(k));
      DigitsDrop(Value(m));
      ghost var before := Value(m);
      var low;
      m, low := ShiftRight(m);
      TenthIs(before, Value(m), low as int);
      NaturalValue(m);
      dgs := dgs - 1;
      e := e + 1;
      k := k + 1;
    }
    ghost var kept := Value(m);
    ghost var e0 := e;
    m, e := StripZeros(m, e);
    if m == [0] {
      e := 0;
    }
    ZeroIs(m);
    FinalIs(v, x.exp, kept, e0, Value(m), e);
    var size := DigitsOf(e);
    if size > WIDTH {
      return None;
    }
    return Some(Real(x.neg, e, m));
  }

  lemma TenthIs(x: int, y: int, d: int)
    requires x == 10 * y + d && 0 <= d <= 9
    ensures y == x / 10
  {
  }

  /** The exponent without trailing zeros in the mantissa. */
  function Stripped(m: nat, e: int): (int)
    decreases m
  {
    if m == 0 then 0 else if m % 10 != 0 then e else Stripped(m / 10, e + 1)
  }

  function FinalExponent(m: nat, e: int): int {
    Stripped(Kept(m), e + Excess(m))
  }

  lemma FinalIs(v: nat, e: int, kept: nat, e0: int, m: nat, e1: int)
    requires kept == Kept(v) && e0 == e + Excess(v) && Digits10(m) <= Digits10(kept)
    requires e1 == Stripped(kept, e0)
    ensures e1 == FinalExponent(v, e) && Digits10(m) <= MANTISSA_SIZE
  {
    hide Decimal;
    KeptRounds(v);
  }

  method StripZeros(m0: Bignum, e0: int) returns (m: Bignum, e: int)
    requires NormalNat(m0) && Value(m0) >= 0
    ensures NormalNat(m) && Value(m) >= 0 && SameNumber(Value(m0), e0, Value(m), e)
    ensures Value(m) == 0 || Value(m) % 10 != 0
    ensures (if Value(m) == 0 then 0 else e) == Stripped(Value(m0), e0) && Digits10(Value(m)) <= Digits10(Value(m0))
  {
    hide Decimal;
    ghost var v := Value(m0);
    m, e := m0, e0;
    SameStart(v, e0);
    while m != [0]
      invariant NormalNat(m) && Value(m) >= 0 && SameNumber(v, e0, Value(m), e)
      invariant Stripped(v, e0) == Stripped(Value(m), e) && Digits10(Value(m)) <= Digits10(v)
      decreases Value(m)
    {
      ZeroIs(m);
      ghost var before := Value(m);
      var q, low := ShiftRight(m);
      TenthIs(before, Value(q), low as int);
      NaturalValue(q);
      if low != 0 {
        break;
      }
      SameStep(v, e0, before, Value(q), e);
      FewerDigits(before);
      m := q;
      e := e + 1;
    }
    ZeroIs(m);
  }

  lemma SameStart(m: nat, e: int)
    ensures SameNumber(m, e, m, e)
  {
    OneTimes(m);
  }

  lemma FewerDigits(x: nat)
    ensures Digits10(x / 10) <= Digits10(x)
  {
  }

  /** The digits of a number of the machine. */
  method DigitsOf(e: int) returns (k: nat)
    ensures k == Digits10(Magnitude(e))
  {
    var x := if e < 0 then -e else e;
    k := 0;
    while x != 0
      invariant 0 <= x && (k == 0 ==> x == Magnitude(e))
      invariant x != 0 ==> k + Digits10(x) == Digits10(Magnitude(e))
      invariant x == 0 && k > 0 ==> k == Digits10(Magnitude(e))
      decreases x
    {
      x := x / 10;
      k := k + 1;
    }
    k := if k == 0 then 1 else k;
  }

  // ---------------------------------------------------------------- rounding

  datatype Rounding = Trunc | Floor | Ceil

  /** The integer n is x rounded, where x is in units of ten to the power -k: it is the last one that is not above, the
      first one that is not below, or the one of these that is nearer to zero. */
  predicate IsRounded(t: Rounding, neg: bool, x: nat, k: nat, n: int) {
    var p := Pow10(k);
    var v := if neg then 0 - x else x;
    match t
    case Floor => n * p <= v < (n + 1) * p
    case Ceil => (n - 1) * p < v <= n * p
    case Trunc => if neg then (n - 1) * p < v <= n * p else n * p <= v < (n + 1) * p
  }

  /** The magnitude that the digits before the point give, and one more away from zero. */
  lemma RoundsTo(t: Rounding, neg: bool, x: nat, k: nat, q: nat)
    requires k > 0 && q == Quo(x, Pow10(k)) && x % 10 != 0
    ensures
      var up := (t == Floor && neg) || (t == Ceil && !neg);
      var m: int := if up then q + 1 else q;
      IsRounded(t, neg, x, k, if neg then -m else m)
  {
    hide Quo;
    var p := Pow10(k);
    QuoIs(x, p);
    NoWhole(x, k, q);
    OneMore(q, p);
    NegateProduct(q, p);
    NegateProduct(q + 1, p);
    OneMore(0 - q - 1, p);
  }

  /** A number that does not end in zero is no multiple of ten. */
  lemma NoWhole(x: nat, k: nat, q: nat)
    requires k > 0 && x % 10 != 0
    ensures x != q * Pow10(k)
  {
    TenTimes(q, Pow10(k - 1));
    MultipleOfTen(q * Pow10(k - 1));
  }

  lemma MultipleOfTen(y: int)
    ensures 10 * y % 10 == 0
  {
  }

  /** trunc, floor and ceil are exact: the result is an integer, and the right one. */
  method Rround(x: Real, t: Rounding) returns (r: Option<Real>)
    requires NormalReal(x)
    ensures r.Some? && NormalReal(r.v)
    ensures x.exp >= 0 ==> r.v == x
    ensures x.exp < 0 ==>
              exists m: nat ::
                && SameNumber(m, 0, Value(r.v.mant), r.v.exp)
                && IsRounded(t, x.neg, Value(x.mant), -x.exp, if r.v.neg then -(m as int) else m)
  {
    hide Decimal, Quo, Pow10, IsRounded;
    var e := x.exp;
    if e >= 0 {
      return Some(x);
    }
    ghost var v := Value(x.mant);
    ghost var k: nat := 0;
    var m := x.mant;
    PowZero();
    QuoOne(v);
    while e < 0
      invariant x.exp <= e <= 0 && k == e - x.exp && NormalNat(m) && Value(m) == Quo(v, Pow10(k)) && Value(m) >= 0
      invariant Digits10(Value(m)) <= MANTISSA_SIZE && (k > 0 ==> Digits10(Value(m)) < MANTISSA_SIZE)
    {
      QuoTwice(v, Pow10(k));
      PowNext(k);
      ghost var before := Value(m);
      var low;
      m, low := ShiftRight(m);
      TenthIs(before, Value(m), low as int);
      NaturalValue(m);
      Shorter(before);
      e := e + 1;
      k := k + 1;
    }
    ghost var q := Value(m);
    RoundsTo(t, x.neg, v, k, q);
    if (t == Floor && NegativeReal(x)) || (t == Ceil && PositiveReal(x)) {
      NormalIsNat([1]);
      m := Add(m, [1]);
      OneValue();
      NormalIsNat(m);
      LongerByOne(q);
    }
    ZeroIs(x.mant);
    NaturalValue(m);
    r := RealNormalize(Real(x.neg, e, m));
    SmallExponent(Value(m));
    KeptRounds(Value(m));
  }

  lemma PowNext(k: nat)
    ensures Pow10(k + 1) == 10 * Pow10(k)
  {
  }

  lemma OneValue()
    ensures Normal([1]) && Value([1]) == 1
  {
  }

  lemma Shorter(x: nat)
    requires Digits10(x) <= MANTISSA_SIZE
    ensures Digits10(x / 10) < MANTISSA_SIZE
  {
  }

  lemma LongerByOne(x: nat)
    requires Digits10(x) < MANTISSA_SIZE
    ensures Digits10(x + 1) <= MANTISSA_SIZE
  {
    hide Decimal;
    DigitsBound(x);
    PowMonotone(Digits10(x), MANTISSA_SIZE - 1);
    AtMostDigits(x + 1, MANTISSA_SIZE);
  }

  lemma {:induction false} AtMostDigits(x: nat, d: nat)
    requires d > 0 && x <= Pow10(d - 1)
    ensures Digits10(x) <= d
    decreases d
  {
    if x >= 10 {
      PowZero();
      if d > 1 {
        assert Pow10(d - 1) == 10 * Pow10(d - 2);
        AtMostDigits(x / 10, d - 1);
      }
    }
  }

  /** Stripping zeros from eighteen digits makes a small exponent. */
  lemma SmallExponent(m: nat)
    requires Digits10(m) <= MANTISSA_SIZE
    ensures Digits10(Magnitude(FinalExponent(m, 0))) <= WIDTH
  {
    hide Decimal;
    KeptRounds(m);
    StrippedBound(m, 0);
    SmallDigits(Magnitude(Stripped(m, 0)));
  }

  lemma {:induction false} StrippedBound(m: nat, e: nat)
    ensures 0 <= Stripped(m, e) <= e + Digits10(m)
    decreases m
  {
    if m != 0 && m % 10 == 0 {
      StrippedBound(m / 10, e + 1);
    }
  }

  lemma SmallDigits(x: nat)
    requires x <= 18
    ensures Digits10(x) <= 2
  {
    if x >= 10 {
      assert Decimal(x / 10) == [Digit(x / 10)];
    }
  }
}
