/** Addition, subtraction, shifts by a decimal digit, multiplication and division of bignums. */
module BignumArithmetic {
  import opened Bignum

  // ---------------------------------------------------------------- addition and subtraction

  function Signs(a: Bignum, b: Bignum): nat
    requires |a| > 0 && |b| > 0
  {
    (if Negative(a) then 1 else 0) + (if Negative(b) then 1 else 0)
  }

  method Add(a: Bignum, b: Bignum) returns (r: Bignum)
    requires Normal(a) && Normal(b)
    ensures Normal(r) && Value(r) == Value(a) + Value(b)
    decreases Signs(a, b), 0
  {
    NormalAbs(a);
    NormalAbs(b);
    if Negative(a) {
      var x := Abs(a);
      if Negative(b) {
        var y := Abs(b);
        r := Add(x, y);
        r := Negate(r);
      } else {
        r := Subtract(b, x);
      }
    } else if Negative(b) {
      var y := Abs(b);
      r := Subtract(a, y);
    } else {
      r := AddNats(a, b);
    }
  }

  /** What is left to add never starts with a zero segment at its far end, unless it is the number zero. */
  predicate Rest(s: seq<cell>, done: nat) {
    Segments(s) && (s != [] && |s| + done > 1 ==> s[|s| - 1] != 0)
  }

  lemma RestStarts(a: Bignum)
    requires NormalNat(a)
    ensures Rest(Reversed(a), 0) && Little(Reversed(a)) == Value(a) && Segments(a)
  {
    SegmentsAll(a);
    ReversedSegments(a);
    LittleReversed(a);
  }

  lemma Taken(s: seq<cell>, done: nat)
    requires Rest(s, done) && s != []
    ensures Rest(s[1..], done + 1) && Segment(s[0]) && Little(s) == s[0] as int + BASE * Little(s[1..])
    ensures |s| == 1 && done > 0 ==> s[0] != 0
  {
  }

  /** A finished segment goes in front of the result. */
  lemma Put(h: int, d: cell, r: seq<cell>)
    requires Segments(r) && Segment(d)
    ensures Segments([d] + r) && Join(h, [d] + r) == Join(h * BASE + d as int, r)
  {
    assert ([d] + r)[1..] == r;
  }

  lemma Done(r: seq<cell>)
    requires Segments(r) && r != [] && (|r| > 1 ==> r[0] != 0)
    ensures NormalNat(r) && Value(r) == Join(0, r)
  {
  }

  lemma Nothing(h: int)
    ensures Join(h, []) == h && Segments([])
  {
  }

  lemma RestMore(s: seq<cell>, done: nat)
    requires Rest(s, done) && s == []
    ensures Rest(s, done + 1) && Little(s) == 0
  {
  }

  lemma LeadingZero(r: seq<cell>)
    requires Segments(r) && r != [] && r[0] == 0
    ensures Segments(r[1..]) && Join(0, r[1..]) == Join(0, r)
  {
  }

  method AddNats(a: Bignum, b: Bignum) returns (r: Bignum)
    requires NormalNat(a) && NormalNat(b)
    ensures NormalNat(r) && Value(r) == Value(a) + Value(b)
  {
    hide Segments, Join, Little, Rest, Value;
    RestStarts(a);
    RestStarts(b);
    Nothing(Value(a) + Value(b));
    var x := ReverseSegments(a);
    var y := ReverseSegments(b);
    var carry: cell := 0;
    r := [];
    while x != [] || y != [] || carry != 0
      invariant Rest(x, |r|) && Rest(y, |r|) && 0 <= carry <= 1 && Segments(r)
      invariant r == [] ==> x != []
      invariant x == [] && y == [] && carry == 0 && |r| > 1 ==> r[0] != 0
      invariant Join(Little(x) + Little(y) + carry as int, r) == Value(a) + Value(b)
      decreases |x| + |y| + carry as int
    {
      if x != [] { Taken(x, |r|); } else { RestMore(x, |r|); }
      if y != [] { Taken(y, |r|); } else { RestMore(y, |r|); }
      var fx := if x == [] then 0 else x[0];
      var fy := if y == [] then 0 else y[0];
      var d := fx + fy + carry;
      carry := 0;
      if d >= LIMIT {
        d := d - LIMIT;
        carry := 1;
      }
      if x != [] { x := x[1..]; }
      if y != [] { y := y[1..]; }
      Put(Little(x) + Little(y) + carry as int, d, r);
      r := [d] + r;
    }
    RestMore(x, |r|);
    Done(r);
  }

  method Subtract(a: Bignum, b: Bignum) returns (r: Bignum)
    requires Normal(a) && Normal(b)
    ensures Normal(r) && Value(r) == Value(a) - Value(b)
    decreases Signs(a, b), if Value(a) < Value(b) then 2 else 1
  {
    NormalAbs(a);
    NormalAbs(b);
    if Negative(a) {
      var x := Abs(a);
      if Negative(b) {
        var y := Abs(b);
        r := Subtract(y, x);
      } else {
        r := Add(x, b);
        r := Negate(r);
      }
    } else if Negative(b) {
      var y := Abs(b);
      r := Add(a, y);
    } else {
      var less := Less(a, b);
      if less {
        r := Subtract(b, a);
        r := Negate(r);
      } else {
        r := SubtractNats(a, b);
      }
    }
  }

  /** The loop ends because the operands are ordered: no borrow is left when their segments are used up. */
  method SubtractNats(a: Bignum, b: Bignum) returns (r: Bignum)
    requires NormalNat(a) && NormalNat(b) && Value(a) >= Value(b)
    ensures NormalNat(r) && Value(r) == Value(a) - Value(b)
  {
    hide Segments, Join, Little, Rest, Value;
    RestStarts(a);
    RestStarts(b);
    Nothing(Value(a) - Value(b));
    var x := ReverseSegments(a);
    var y := ReverseSegments(b);
    var borrow: cell := 0;
    r := [];
    while x != [] || y != [] || borrow != 0
      invariant Rest(x, |r|) && Rest(y, |r|) && 0 <= borrow <= 1 && Segments(r)
      invariant r == [] ==> x != []
      invariant Join(Little(x) - Little(y) - borrow as int, r) == Value(a) - Value(b)
      decreases |x| + |y|
    {
      if x == [] && y == [] {
        JoinNegative(Little(x) - Little(y) - borrow as int, r);
      }
      if x != [] { Taken(x, |r|); } else { RestMore(x, |r|); }
      if y != [] { Taken(y, |r|); } else { RestMore(y, |r|); }
      var fx := if x == [] then 0 else x[0];
      var fy := if y == [] then 0 else y[0];
      var d := fx - fy - borrow;
      borrow := 0;
      if d < 0 {
        d := d + LIMIT;
        borrow := 1;
      }
      if x != [] { x := x[1..]; }
      if y != [] { y := y[1..]; }
      Put(Little(x) - Little(y) - borrow as int, d, r);
      r := [d] + r;
    }
    while r[0] == 0 && |r| > 1
      invariant |r| > 0 && Segments(r) && Join(0, r) == Value(a) - Value(b)
      decreases |r|
    {
      LeadingZero(r);
      r := r[1..];
    }
    Done(r);
  }

  // ---------------------------------------------------------------- shifts by one decimal digit

  /** 10a + fill. Only a zero may be followed by ten. */
  method ShiftLeft(a: Bignum, fill: cell) returns (r: Bignum)
    requires NormalNat(a) && (0 <= fill <= 9 || (fill == 10 && a == [0]))
    ensures NormalNat(r) && Value(r) == 10 * Value(a) + fill as int
  {
    hide Segments, Join, Little, Rest, Value;
    RestStarts(a);
    Nothing(10 * Value(a) + fill as int);
    var x := ReverseSegments(a);
    var carry := fill;
    r := [];
    while x != []
      invariant Rest(x, |r|) && Segments(r) && 0 <= carry <= 10
      invariant carry == 10 ==> x == [0] && r == []
      invariant r == [] ==> x != []
      invariant |r| > 1 && x == [] && carry == 0 ==> r[0] != 0
      invariant Join(10 * Little(x) + carry as int, r) == 10 * Value(a) + fill as int
      decreases |x|
    {
      Taken(x, |r|);
      var d: cell;
      if x[0] >= LIMIT / 10 {
        var c := x[0] / (LIMIT / 10);
        d := x[0] % (LIMIT / 10) * 10;
        d := d + carry;
        carry := c;
      } else {
        d := x[0] * 10 + carry;
        carry := 0;
      }
      x := x[1..];
      Put(10 * Little(x) + carry as int, d, r);
      r := [d] + r;
    }
    RestMore(x, |r|);
    if carry != 0 {
      Put(0, carry, r);
      r := [carry] + r;
    }
    Done(r);
  }

  /** a/10 and a%10. */
  method ShiftRight(a: Bignum) returns (r: Bignum, digit: cell)
    requires NormalNat(a)
    ensures NormalNat(r) && 0 <= digit <= 9 && Value(a) == 10 * Value(r) + digit as int
  {
    SegmentsAll(a);
    var i := 0;
    var carry: cell := 0;
    r := [];
    while i < |a|
      invariant 0 <= i <= |a| && |r| == i && Segments(r) && 0 <= carry <= 9
      invariant Join(0, a[..i]) == 10 * Little(r) + carry as int
      invariant i == 1 ==> carry as int + 10 * r[0] as int == a[0] as int
      invariant i > 1 ==> r[i - 1] == a[0] / 10 && r[i - 2] as int == a[1] as int / 10 + a[0] as int % 10 * 100_000_000
    {
      var c := a[i] % 10;
      var d := a[i] / 10;
      d := d + carry * (LIMIT / 10);
      carry := c;
      assert a[..i + 1] == a[..i] + [a[i]];
      JoinAppend(0, a[..i], a[i]);
      assert ([d] + r)[1..] == r;
      r := [d] + r;
      i := i + 1;
    }
    assert a[..i] == a;
    JoinReversed(r);
    ReversedSegments(r);
    r := ReverseSegments(r);
    if r[0] == 0 && |r| > 1 {
      r := r[1..];
    }
    digit := carry;
  }

  // ---------------------------------------------------------------- multiplication

  lemma DigitTimes(q: int, digit: int, b: int)
    ensures (10 * q + digit) * b == q * (10 * b) + digit * b
  {
  }

  lemma OneMore(i: int, b: int)
    ensures (i + 1) * b == i * b + b
  {
  }

  lemma TimesSign(x: int, y: int, ax: int, ay: int)
    requires ax == (if x < 0 then -x else x) && ay == (if y < 0 then -y else y)
    ensures ax * ay == if (x < 0) != (y < 0) then -(x * y) else x * y
  {
  }

  method Multiply(a: Bignum, b: Bignum) returns (r: Bignum)
    requires Normal(a) && Normal(b)
    ensures Normal(r) && Value(r) == Value(a) * Value(b)
  {
    NormalAbs(a);
    NormalAbs(b);
    var neg := Negative(a) != Negative(b);
    var x := Abs(a);
    var y := Abs(b);
    ghost var total := Value(x) * Value(y);
    TimesSign(Value(a), Value(b), Value(x), Value(y));
    r := [0];
    ZeroIs(x);
    while x != [0]
      invariant NormalNat(x) && NormalNat(y) && NormalNat(r)
      invariant Value(r) + Value(x) * Value(y) == total
      decreases Value(x)
    {
      ghost var x0 := x;
      var i: cell;
      x, i := ShiftRight(x);
      DigitTimes(Value(x), i as int, Value(y));
      ZeroIs(x0);
      NormalAbs(x);
      r := AddTimes(r, y, i);
      y := ShiftLeft(y, 0);
    }
    if neg {
      r := Negate(r);
    }
  }

  /** The inner loop of the multiplication. */
  method AddTimes(r0: Bignum, b: Bignum, times: cell) returns (r: Bignum)
    requires NormalNat(r0) && NormalNat(b) && 0 <= times
    ensures NormalNat(r) && Value(r) == Value(r0) + times as int * Value(b)
  {
    r := r0;
    NormalAbs(r);
    NormalAbs(b);
    var i := times;
    while i != 0
      invariant 0 <= i <= times && NormalNat(r)
      invariant Value(r) + i as int * Value(b) == Value(r0) + times as int * Value(b)
      decreases i
    {
      OneMore(i as int - 1, Value(b));
      NormalAbs(r);
      r := Add(r, b);
      NormalAbs(r);
      i := i - 1;
    }
  }

  // ---------------------------------------------------------------- division

  datatype Quotient = Undefined | Quotient(q: Bignum, r: Bignum)

  function Magnitude(x: int): nat {
    if x < 0 then -x else x
  }

  /** Division that truncates toward zero, as C has it. */
  function TruncQuotient(a: int, b: int): int
    requires b != 0
  {
    var q := Magnitude(a) / Magnitude(b);
    if (a < 0) != (b < 0) then -q else q
  }

  function TruncRemainder(a: int, b: int): int
    requires b != 0
  {
    var r := Magnitude(a) % Magnitude(b);
    if a < 0 then -r else r
  }

  predicate Divides(a: int, b: int, q: int, r: int) {
    a == q * b + r && Magnitude(r) < Magnitude(b) && (r != 0 ==> (r < 0 <==> a < 0))
  }

  /** Quotient and remainder are what the division identity asks for, and nothing else is. */
  lemma TruncUnique(a: int, b: int, q: int, r: int)
    requires b != 0
    ensures q == TruncQuotient(a, b) && r == TruncRemainder(a, b) <==> Divides(a, b, q, r)
  {
    hide TruncQuotient, TruncRemainder;
    var tq, tr := TruncQuotient(a, b), TruncRemainder(a, b);
    TruncDivides(a, b);
    if Divides(a, b, q, r) {
      Difference(q, tq, b);
      SmallMultiple(q - tq, b, tr - r);
    }
  }

  lemma Difference(q: int, t: int, b: int)
    ensures (q - t) * b == q * b - t * b
  {
  }

  lemma TruncDivides(a: int, b: int)
    requires b != 0
    ensures Divides(a, b, TruncQuotient(a, b), TruncRemainder(a, b))
  {
    var m, n := Magnitude(a), Magnitude(b);
    DivisionIdentity(m, n);
    SignedIdentity(m, n, m / n, m % n, a < 0, b < 0);
  }

  lemma SignedIdentity(m: int, n: int, q: int, r: int, negA: bool, negB: bool)
    requires m == q * n + r
    ensures (if negA then -m else m)
            == (if negA != negB then -q else q) * (if negB then -n else n) + (if negA then -r else r)
  {
    SignedProduct(q, n, negA, negB);
  }

  lemma DivisionIdentity(m: int, n: int)
    requires n > 0
    ensures m == m / n * n + m % n && 0 <= m % n < n
  {
  }

  lemma SignedProduct(q: int, n: int, negA: bool, negB: bool)
    ensures (if negA != negB then -q else q) * (if negB then -n else n) == if negA then -(q * n) else q * n
  {
  }

  lemma SmallMultiple(k: int, b: int, d: int)
    requires k * b == d && Magnitude(d) < Magnitude(b)
    ensures k == 0
  {
    if k > 0 {
      LargeMultiple(k, Magnitude(b));
    } else if k < 0 {
      LargeMultiple(-k, Magnitude(b));
    }
  }

  lemma LargeMultiple(k: int, n: nat)
    requires k > 0
    ensures k * n >= n
  {
  }

  function Pow10(k: nat): (p: nat)
    ensures p > 0
  {
    if k == 0 then 1 else 10 * Pow10(k - 1)
  }

  lemma Scaled(b: int, k: nat)
    ensures b * Pow10(k + 1) == 10 * (b * Pow10(k))
  {
  }

  /** The divisor scaled up by the largest power of ten that keeps it below the dividend; the first digit of the
      quotient can then be ten. */
  method Equalize(a: Bignum, b: Bignum) returns (r: Bignum, f: Bignum, ghost k: nat)
    requires NormalNat(a) && NormalNat(b) && 0 < Value(a) <= Value(b)
    ensures NormalNat(r) && NormalNat(f) && Value(f) == Pow10(k) && Value(r) == Value(a) * Pow10(k)
    ensures Value(r) <= Value(b) <= 10 * Value(r)
  {
    var r1, f1 := a, [1];
    r, f := r1, f1;
    k := 0;
    ghost var k1 := 0;
    while true
      invariant NormalNat(r) && NormalNat(f) && Value(f) == Pow10(k) && Value(r) == Value(a) * Pow10(k)
      invariant NormalNat(r1) && NormalNat(f1) && Value(f1) == Pow10(k1) && Value(r1) == Value(a) * Pow10(k1)
      invariant 0 < Value(r) <= Value(b) && Value(r) <= Value(r1) <= 10 * Value(r)
      invariant k1 > 0 ==> Value(r1) == 10 * Value(r)
      decreases Value(b) - Value(r1)
    {
      var less := Less(r1, b);
      if !less {
        break;
      }
      r, f, k := r1, f1, k1;
      r1 := ShiftLeft(r1, 0);
      f1 := ShiftLeft(f1, 0);
      Scaled(Value(a), k1);
      k1 := k1 + 1;
    }
  }

  method Divide(a: Bignum, b: Bignum) returns (d: Quotient)
    requires Normal(a) && Normal(b)
    ensures d.Undefined? <==> Value(b) == 0
    ensures d.Quotient? ==>
              && Normal(d.q) && Value(d.q) == TruncQuotient(Value(a), Value(b))
              && Normal(d.r) && Value(d.r) == TruncRemainder(Value(a), Value(b))
  {
    ZeroIs(b);
    if b == [0] {
      return Undefined;
    }
    NormalAbs(a);
    NormalAbs(b);
    var negA := Negative(a);
    var neg := negA != Negative(b);
    var x := Abs(a);
    var y := Abs(b);
    var q, r := DivideNats(x, y);
    if neg {
      q := Negate(q);
    }
    if negA {
      r := Negate(r);
    }
    d := Quotient(q, r);
  }

  /** One digit of the quotient, by repeated addition; ten is possible. */
  method NextDigit(a: Bignum, b: Bignum) returns (digit: cell, rest: Bignum)
    requires NormalNat(a) && NormalNat(b) && 0 <= Value(a) <= 10 * Value(b) && Value(b) > 0
    ensures 0 <= digit <= 10 && NormalNat(rest)
    ensures Value(a) == digit as int * Value(b) + Value(rest) && 0 <= Value(rest) < Value(b)
    ensures digit == 10 ==> Value(a) == 10 * Value(b)
  {
    var c, c0: Bignum := [0], [0];
    var i: cell := 0;
    ghost var d := Value(b);
    var less := Less(a, c);
    while !less
      invariant 0 <= i <= 11 && NormalNat(c) && NormalNat(c0) && Value(c) == i as int * d
      invariant less <==> Value(a) < Value(c)
      invariant i > 0 ==> Value(c0) + d == Value(c) && Value(c0) <= Value(a)
      invariant i == 0 ==> !less
      decreases 11 - i as int
    {
      AtMost(i as int, 10, d);
      c0 := c;
      c := Add(c, b);
      NormalIsNat(c);
      OneMore(i as int, d);
      i := i + 1;
      less := Less(a, c);
    }
    OneMore(i as int - 1, d);
    digit := i - 1;
    rest := Subtract(a, c0);
    NormalIsNat(rest);
  }

  lemma AtMost(i: int, k: int, d: int)
    requires i * d <= k * d && d > 0
    ensures i <= k
  {
  }

  lemma NormalIsNat(a: Bignum)
    requires Normal(a) && Value(a) >= 0
    ensures NormalNat(a)
  {
    NormalAbs(a);
  }

  method DivideNats(a: Bignum, b: Bignum) returns (q: Bignum, r: Bignum)
    requires NormalNat(a) && NormalNat(b) && Value(b) > 0
    ensures NormalNat(q) && NormalNat(r)
    ensures Value(q) == Value(a) / Value(b) && Value(r) == Value(a) % Value(b)
  {
    NormalAbs(a);
    ghost var n, m := Value(a), Value(b);
    var less := Less(a, b);
    if less {
      SmallQuotient(n, m);
      return [0], a;
    }
    var y, f, k := Equalize(b, a);
    ghost var j: int := k;
    ghost var unit := 10 * Value(y);
    q, r := [0], a;
    while f != [0]
      invariant NormalNat(q) && NormalNat(r) && NormalNat(y) && NormalNat(f)
      invariant -1 <= j && Value(f) == (if j >= 0 then Pow10(j) else 0)
      invariant j >= 0 ==> Value(y) == m * Pow10(j) && unit == 10 * Value(y)
      invariant j == -1 ==> unit == m
      invariant n == Value(q) * unit + Value(r) && 0 <= Value(r) <= unit
      invariant Value(r) == unit ==> q == [0] && j >= 0
      decreases Value(f)
    {
      ZeroIs(f);
      ghost var d, q0 := Value(y), Value(q);
      PositiveProduct(m, Pow10(j));
      var digit, rest := NextDigit(r, y);
      DigitTimes(q0, digit as int, d);
      q := ShiftLeft(q, digit);
      r := rest;
      var low: cell;
      f, low := ShiftRight(f);
      y, low := ShiftRight(y);
      if j > 0 {
        Scaled(m, j - 1);
      }
      unit := d;
      j := j - 1;
      NormalAbs(f);
      NormalAbs(r);
    }
    ZeroIs(f);
    QuotientIs(n, m, Value(q), Value(r));
  }

  lemma SmallQuotient(n: int, m: int)
    requires 0 <= n < m
    ensures n / m == 0 && n % m == n
  {
  }

  lemma PositiveProduct(m: int, p: int)
    requires m > 0 && p > 0
    ensures m * p > 0
  {
  }

  lemma QuotientIs(n: int, m: int, q: int, r: int)
    requires n == q * m + r && 0 <= r < m
    ensures q == n / m && r == n % m
  {
    SmallMultiple(q - n / m, m, n % m - r) by {
      assert n == n / m * m + n % m;
      assert (q - n / m) * m == q * m - n / m * m;
    }
  }
}
