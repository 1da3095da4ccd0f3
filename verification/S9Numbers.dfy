/** Integers and reals compared: an integer is converted first, which rounds it to eighteen digits. */
module S9Numbers {
  import opened Bignum
  import Integers = Bignum
  import opened BignumArithmetic
  import opened BignumText
  import opened S9Reals

  datatype Number = Int(n: Bignum) | Dec(x: Real)

  /** A mantissa with its sign, and an exponent of ten. */
  datatype Decimals = Decimals(m: int, e: int)

  function InLevel(a: Decimals, f: int): int
    requires f <= a.e
  {
    a.m * Pow10(a.e - f)
  }

  /** The order of the numbers, exactly. */
  predicate Below(a: Decimals, b: Decimals) {
    var f := Min(a.e, b.e);
    InLevel(a, f) < InLevel(b, f)
  }

  predicate GoodNumber(v: Number) {
    match v
    case Int(n) => Normal(n)
    case Dec(x) => NormalReal(x)
  }

  /** The value of a number. */
  function Exactly(v: Number): Decimals
    requires GoodNumber(v)
  {
    match v
    case Int(n) => Decimals(Value(n), 0)
    case Dec(x) => Decimals(Signed(x), x.exp)
  }

  function WithSign(neg: bool, m: int): int {
    if neg then -m else m
  }

  /** The value with at most eighteen digits, rounded toward zero. */
  function Rounded(v: Number): Decimals
    requires GoodNumber(v)
  {
    match v
    case Int(n) =>
      var m := Magnitude(Value(n));
      Decimals(WithSign(Value(n) < 0, Kept(m)), Excess(m))
    case Dec(x) => Decimals(Signed(x), x.exp)
  }

  /** An integer of at most eighteen digits is not rounded. */
  lemma NotRounded(v: Number)
    requires GoodNumber(v) && (v.Int? ==> Digits10(Magnitude(Value(v.n))) <= MANTISSA_SIZE)
    ensures Rounded(v) == Exactly(v)
  {
    hide Decimal;
    if v.Int? {
      KeptRounds(Magnitude(Value(v.n)));
    }
  }

  /** Its exponent after conversion has nine digits at most, as any integer that fits into memory. */
  predicate Converts(v: Number)
    requires GoodNumber(v)
  {
    v.Int? ==> Digits10(Magnitude(FinalExponent(Magnitude(Value(v.n)), 0))) <= WIDTH
  }

  // ---------------------------------------------------------------- levels

  lemma Products(m: int, p: int, q: int)
    ensures m * p * q == m * (p * q)
  {
  }

  lemma LowerLevel(a: Decimals, g: int, f: int)
    requires f <= g <= a.e
    ensures InLevel(a, f) == InLevel(a, g) * Pow10(g - f)
  {
    PowSum(a.e - g, g - f);
    Products(a.m, Pow10(a.e - g), Pow10(g - f));
  }

  lemma KeepsOrder(x: int, y: int, p: int)
    requires p > 0
    ensures x < y <==> x * p < y * p
  {
  }

  /** The order can be read off at any level below both exponents. */
  lemma BelowAt(a: Decimals, b: Decimals, f: int)
    requires f <= a.e && f <= b.e
    ensures Below(a, b) <==> InLevel(a, f) < InLevel(b, f)
  {
    hide InLevel;
    var g := Min(a.e, b.e);
    LowerLevel(a, g, f);
    LowerLevel(b, g, f);
    KeepsOrder(InLevel(a, g), InLevel(b, g), Pow10(g - f));
  }

  /** The same number, as conversion gives it. */
  predicate Same(a: Decimals, b: Decimals) {
    SameNumber(Magnitude(a.m), a.e, Magnitude(b.m), b.e) && (a.m != 0 ==> (a.m < 0 <==> b.m < 0))
  }

  lemma SameLevel(a: Decimals, b: Decimals, f: int)
    requires Same(a, b) && f <= a.e && f <= b.e
    ensures InLevel(a, f) == InLevel(b, f)
  {
    hide Pow10;
    if a.m != 0 && b.m != 0 {
      PowSum(b.e - a.e, a.e - f);
      Products(b.m, Pow10(b.e - a.e), Pow10(a.e - f));
      SignTimes(Magnitude(b.m), Pow10(b.e - a.e), b.m < 0);
    }
  }

  lemma SignTimes(m: nat, p: nat, neg: bool)
    ensures WithSign(neg, MulNat(m, p)) == WithSign(neg, m) * p
  {
  }

  lemma SameOrder(a: Decimals, a': Decimals, b: Decimals, b': Decimals)
    requires Same(a, a') && Same(b, b')
    ensures Below(a, b) <==> Below(a', b')
  {
    hide Below, InLevel, Same;
    var f := Min(Min(a.e, a'.e), Min(b.e, b'.e));
    BelowAt(a, b, f);
    BelowAt(a', b', f);
    SameLevel(a, a', f);
    SameLevel(b, b', f);
  }

  lemma SameItself(a: Decimals)
    ensures Same(a, a)
  {
    SameStart(Magnitude(a.m), a.e);
  }

  // ---------------------------------------------------------------- conversion and comparison

  /** The first eighteen digits of an integer, as a real. */
  method BignumToReal(a: Bignum) returns (r: Option<Real>)
    requires Normal(a)
    ensures r.Some? ==> NormalReal(r.v) && Same(Rounded(Int(a)), Exactly(Dec(r.v)))
    ensures r.None? ==> !Converts(Int(a))
  {
    hide Decimal, Quo, Kept, SameNumber, Stripped;
    ghost var v := Magnitude(Value(a));
    var m := Abs(a);
    var e := 0;
    NormalAbs(a);
    CountSegments(m);
    KeptRounds(v);
    if |m| > 2 {
      m, e := CutDigits(m);
    }
    KeptRounds(Value(m));
    r := RealNormalize(Real(Negative(a), e, m));
    if r.Some? {
      NaturalValue(r.v.mant);
      ConvertedSame(a, r.v);
    }
  }

  lemma ConvertedSame(a: Bignum, x: Real)
    requires Normal(a) && NormalReal(x) && x.neg == Negative(a)
    requires
      var v := Magnitude(Value(a));
      SameNumber(Kept(v), Excess(v), Value(x.mant), x.exp)
    ensures Same(Rounded(Int(a)), Exactly(Dec(x)))
  {
    hide Decimal, Kept, Excess;
    NormalAbs(a);
  }

  /** Digits are taken off until eighteen are left. */
  method CutDigits(m0: Bignum) returns (m: Bignum, e: nat)
    requires NormalNat(m0) && Value(m0) >= 0
    ensures NormalNat(m) && Value(m) == Kept(Value(m0)) && e == Excess(Value(m0))
  {
    hide Decimal, Quo;
    ghost var v := Value(m0);
    m, e := m0, 0;
    var d := CountDigits(m);
    QuoOne(v);
    while d > MANTISSA_SIZE
      invariant NormalNat(m) && Value(m) == Quo(v, Pow10(e)) && d == Digits10(Value(m)) == Digits10(v) - e
      invariant e <= Excess(v)
      decreases d
    {
      QuoTwice(v, Pow10(e));
      DigitsDrop(Value(m));
      ghost var before := Value(m);
      var low;
      m, low := ShiftRight(m);
      TenthIs(before, Value(m), low as int);
      NaturalValue(m);
      e := e + 1;
      d := d - 1;
    }
  }

  method ToReal(v: Number) returns (x: Real)
    requires GoodNumber(v) && Converts(v)
    ensures NormalReal(x) && Same(Rounded(v), Exactly(Dec(x)))
  {
    hide Converts, Same, NormalReal;
    if v.Int? {
      var r := BignumToReal(v.n);
      x := r.v;
    } else {
      x := v.x;
      SameItself(Rounded(v));
    }
  }

  /** The order of numbers: exact for two integers, for two reals, and for integers of at most eighteen digits with
      reals; longer integers count rounded there. */
  method Less(a: Number, b: Number) returns (r: bool)
    requires GoodNumber(a) && GoodNumber(b) && Converts(a) && Converts(b)
    ensures a.Int? && b.Int? ==> (r <==> Below(Exactly(a), Exactly(b)))
    ensures !(a.Int? && b.Int?) ==> (r <==> Below(Rounded(a), Rounded(b)))
  {
    hide Converts, Same, NormalReal, Rounded, Decimal;
    if a.Int? && b.Int? {
      r := Integers.Less(a.n, b.n);
      OneTimes(Value(a.n));
      OneTimes(Value(b.n));
    } else {
      var x := ToReal(a);
      var y := ToReal(b);
      r := S9Reals.Less(x, y);
      SameOrder(Rounded(a), Exactly(Dec(x)), Rounded(b), Exactly(Dec(y)));
    }
  }
}
