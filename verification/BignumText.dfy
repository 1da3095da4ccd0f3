/** Printing bignums and reading them back. */
module BignumText {
  import opened CTypes
  import opened Bignum
  import opened BignumArithmetic

  const WIDTH: nat := 9

  // ---------------------------------------------------------------- decimal numerals

  function Digit(d: int): char
    requires 0 <= d <= 9
  {
    '0' + d as char
  }

  predicate Digits(s: string) {
    forall i :: 0 <= i < |s| ==> IsDigit(s[i])
  }

  function DigitValue(c: char): (d: int)
    requires IsDigit(c)
    ensures 0 <= d <= 9
  {
    c as int - '0' as int
  }

  /** The numeral of x without leading zeros. */
  function Decimal(x: nat): (s: string)
    ensures |s| > 0 && Digits(s)
  {
    if x < 10 then [Digit(x)] else Decimal(x / 10) + [Digit(x % 10)]
  }

  /** The last w digits of x. */
  function Padded(x: nat, w: nat): (s: string)
    ensures |s| == w && Digits(s)
  {
    if w == 0 then "" else Padded(x / 10, w - 1) + [Digit(x % 10)]
  }

  /** The number that a string of digits denotes. */
  function NumberOf(s: string): nat
    requires Digits(s)
  {
    if s == "" then 0 else 10 * NumberOf(s[..|s| - 1]) + DigitValue(s[|s| - 1])
  }

  lemma {:induction false} NumberOfDecimal(x: nat)
    ensures NumberOf(Decimal(x)) == x
  {
    if x < 10 {
      assert NumberOf([Digit(x)][..0]) == 0;
    } else {
      var s := Decimal(x);
      assert s[..|s| - 1] == Decimal(x / 10);
      NumberOfDecimal(x / 10);
    }
  }

  lemma {:induction false} NumberOfJoined(s: string, t: string)
    requires Digits(s) && Digits(t)
    ensures Digits(s + t) && NumberOf(s + t) == NumberOf(s) * Pow10(|t|) + NumberOf(t)
    decreases |t|
  {
    if t == "" {
      assert s + t == s;
    } else {
      var u := t[..|t| - 1];
      assert (s + t)[..|s + t| - 1] == s + u && (s + t)[|s + t| - 1] == t[|t| - 1];
      NumberOfJoined(s, u);
      TenTimes(NumberOf(s), Pow10(|u|));
      assert NumberOf(s + t) == 10 * NumberOf(s + u) + DigitValue(t[|t| - 1]);
      assert 10 * (NumberOf(s) * Pow10(|u|) + NumberOf(u)) == NumberOf(s) * Pow10(|t|) + 10 * NumberOf(u);
    }
  }

  lemma TenTimes(x: int, p: int)
    ensures 10 * (x * p) == x * (10 * p)
  {
  }

  lemma {:induction false} NumberOfBound(s: string)
    requires Digits(s)
    ensures NumberOf(s) < Pow10(|s|)
    decreases |s|
  {
    if s != "" {
      NumberOfBound(s[..|s| - 1]);
    }
  }

  lemma NinePower()
    ensures Pow10(9) == BASE
  {
    assert Pow10(3) == 1000;
    assert Pow10(6) == 1000000;
  }

  /** A numeral without leading zeros is of a number with that many digits. */
  lemma {:induction false} DecimalLeads(x: nat)
    requires x > 0
    ensures Decimal(x)[0] != '0'
  {
    if x >= 10 {
      DecimalLeads(x / 10);
    }
  }

  /** More digits at the end of a number are more digits at the end of its numeral. */
  lemma {:induction false} DecimalJoined(v: nat, x: nat, w: nat)
    requires v > 0 && x < Pow10(w)
    ensures Decimal(v * Pow10(w) + x) == Decimal(v) + Padded(x, w)
    decreases w
  {
    if w == 0 {
      assert Decimal(v) + "" == Decimal(v);
    } else {
      var p := Pow10(w - 1);
      TenTimes(v, p);
      var n := v * Pow10(w) + x;
      AtLeast(v, p);
      assert n / 10 == v * p + x / 10 && n % 10 == x % 10;
      DecimalJoined(v, x / 10, w - 1);
    }
  }

  lemma AtLeast(v: nat, p: nat)
    requires v > 0 && p > 0
    ensures v * p >= 1
  {
  }

  function Zeros(k: nat): (s: string)
    ensures |s| == k
  {
    if k == 0 then "" else "0" + Zeros(k - 1)
  }

  /** Filling a numeral up with zeros gives the fixed-width numeral. */
  lemma {:induction false} PaddedIs(x: nat, w: nat)
    requires x < Pow10(w) && w > 0
    ensures |Decimal(x)| <= w && Padded(x, w) == Zeros(w - |Decimal(x)|) + Decimal(x)
    decreases w
  {
    if x < 10 {
      PaddedZero(w - 1);
    } else {
      PaddedIs(x / 10, w - 1);
      assert Zeros(w - |Decimal(x)|) + Decimal(x) == Zeros(w - |Decimal(x)|) + Decimal(x / 10) + [Digit(x % 10)];
    }
  }

  lemma {:induction false} PaddedZero(w: nat)
    ensures Padded(0, w) == Zeros(w)
  {
    if w > 0 {
      PaddedZero(w - 1);
      ZerosAppend(w - 1);
    }
  }

  lemma {:induction false} ZerosAppend(k: nat)
    ensures Zeros(k) + "0" == Zeros(k + 1)
  {
    if k > 0 {
      ZerosAppend(k - 1);
    }
  }

  // ---------------------------------------------------------------- printing

  /** The decimal text of a number. */
  function Text(v: int): string {
    if v < 0 then "-" + Decimal(-v) else Decimal(v)
  }

  lemma DecimalStep(x: nat, b: string)
    ensures x >= 10 ==> Decimal(x / 10) + ([Digit(x % 10)] + b) == Decimal(x) + b
    ensures x < 10 ==> [Digit(x % 10)] + b == Decimal(x) + b
  {
    if x >= 10 {
      assert Decimal(x / 10) + ([Digit(x % 10)] + b) == Decimal(x / 10) + [Digit(x % 10)] + b;
    }
  }

  /** The digits of a number, last one first. */
  method Numeral(x0: cell) returns (b: string)
    requires 0 <= x0
    ensures b == Decimal(x0 as int)
  {
    hide Decimal;
    ghost var d := Decimal(x0 as int);
    var x := x0;
    b := "";
    var i := 0;
    assert d + "" == d;
    while x != 0 || i == 0
      invariant 0 <= x && (i == 0 ==> x == x0)
      invariant if x != 0 || i == 0 then Decimal(x as int) + b == d else b == d
      decreases x as int + (if i == 0 then 1 else 0)
    {
      DecimalStep(x as int, b);
      ghost var y := x;
      i := i + 1;
      b := [Digit(x as int % 10)] + b;
      x := x / 10;
      if y < 10 {
        assert Decimal(y as int) + b[1..] == d;
        DecimalOne(y as int, b[1..]);
      }
    }
  }

  lemma DecimalOne(y: nat, b: string)
    requires y < 10
    ensures Decimal(y) + b == [Digit(y % 10)] + b
  {
  }

  /** One segment, filled up with zeros to width w; a sign counts as a place. */
  method Ntoa(x0: cell, w: nat) returns (b: string)
    requires -LIMIT < x0 < LIMIT
    ensures b == Filled(x0 as int, w)
  {
    hide Decimal;
    var x := x0;
    var neg := 0;
    if x < 0 {
      x := -x;
      neg := 1;
    }
    b := Numeral(x);
    ghost var d := b;
    var i := |b|;
    while i < w - neg
      invariant i == |b| && |d| <= i && b == Zeros(i - |d|) + d
      invariant i <= w - neg || i == |d|
      decreases w - neg - i
    {
      i := i + 1;
      b := "0" + b;
    }
    if neg == 1 {
      b := "-" + b;
    }
  }

  function Filled(x: int, w: nat): string {
    var d := Decimal(Magnitude(x));
    var places := if x < 0 then w - 1 else w;
    (if x < 0 then "-" else "") + ((if |d| < places then Zeros(places - |d|) else "") + d)
  }

  /** The value of the first i segments. */
  function Upto(a: seq<cell>, i: nat): int
    requires i <= |a|
  {
    Join(0, a[..i])
  }

  lemma UptoStep(a: seq<cell>, i: nat)
    requires i < |a|
    ensures Upto(a, i + 1) == Upto(a, i) * BASE + a[i] as int
  {
    assert a[..i + 1] == a[..i] + [a[i]];
    JoinAppend(0, a[..i], a[i]);
  }

  lemma UptoEnds(a: seq<cell>)
    ensures Upto(a, 0) == 0 && Upto(a, |a|) == Join(0, a)
  {
    assert a[..|a|] == a;
  }

  /** One more segment in the text. */
  lemma ZerosNone()
    ensures Zeros(0) == ""
  {
  }

  lemma NextSegment(h: nat, x: cell)
    requires h > 0 && Segment(x)
    ensures Filled(x as int, 9) == Padded(x as int, 9)
    ensures Decimal(h * BASE + x as int) == Decimal(h) + Filled(x as int, 9)
  {
    hide Padded, Decimal, Zeros;
    ZerosNone();
    NinePower();
    PaddedIs(x as int, 9);
    DecimalJoined(h, x as int, 9);
    assert "" + Padded(x as int, 9) == Padded(x as int, 9);
    if |Decimal(x as int)| == 9 {
      assert Zeros(0) + Decimal(x as int) == "" + Decimal(x as int);
    }
  }

  lemma FirstSegment(x: cell)
    requires -LIMIT < x < LIMIT
    ensures Filled(x as int, 0) == Text(x as int)
  {
    var d := Decimal(Magnitude(x as int));
    assert "" + d == d;
  }

  method PrintBignum(n: Bignum) returns (text: string)
    requires Normal(n)
    ensures text == Text(Value(n))
  {
    hide Decimal, Join, Filled, Upto;
    NormalAbs(n);
    ghost var abs := AbsList(n);
    ghost var sign := if n[0] < 0 then "-" else "";
    UptoEnds(abs);
    assert Text(Value(n)) == sign + Decimal(Upto(abs, |n|));
    hide Text, Value;
    text := "";
    var i := 0;
    while i < |n|
      invariant 0 <= i <= |n| && (i == 0 ==> text == "" && Upto(abs, i) == 0)
      invariant i > 0 ==> Upto(abs, i) >= 0 && text == sign + Decimal(Upto(abs, i))
      invariant i > 0 && |n| > 1 ==> Upto(abs, i) > 0
    {
      UptoStep(abs, i);
      var part := Ntoa(n[i], if i == 0 then 0 else WIDTH);
      if i > 0 {
        assert n[i] == abs[i] && Segment(abs[i]);
        NextSegment(Upto(abs, i), n[i]);
        assert sign + Decimal(Upto(abs, i)) + part == sign + (Decimal(Upto(abs, i)) + part);
      } else {
        FirstSegment(n[0]);
      }
      text := text + part;
      i := i + 1;
    }
  }

  /** The number of digits, counted on the first segment only. */
  method CountDigits(m: Bignum) returns (k: nat)
    requires Normal(m)
    ensures k == |Decimal(Magnitude(Value(m)))|
  {
    hide Decimal, Join, Upto;
    NormalAbs(m);
    ghost var abs := AbsList(m);
    UptoEnds(abs);
    UptoStep(abs, 0);
    k := FirstDigits(m[0]);
    var i := 1;
    while i < |m|
      invariant 1 <= i <= |m| && Upto(abs, i) >= 0 && (|m| > 1 ==> Upto(abs, i) > 0)
      invariant k == |Decimal(Upto(abs, i))|
    {
      UptoStep(abs, i);
      assert Segment(abs[i]);
      NextSegment(Upto(abs, i), abs[i]);
      k := k + WIDTH;
      i := i + 1;
    }
  }

  method FirstDigits(x0: cell) returns (k: nat)
    requires -LIMIT < x0 < LIMIT
    ensures k == |Decimal(Magnitude(x0 as int))|
  {
    var x := x0;
    k := 0;
    while x != 0
      invariant -LIMIT < x < LIMIT && (k == 0 ==> x == x0)
      invariant x != 0 ==> k + |Decimal(Magnitude(x as int))| == |Decimal(Magnitude(x0 as int))|
      invariant x == 0 && k > 0 ==> k == |Decimal(Magnitude(x0 as int))|
      decreases Magnitude(x as int)
    {
      // division that truncates toward zero
      x := if x < 0 then -(-x / 10) else x / 10;
      k := k + 1;
    }
    k := if k == 0 then 1 else k;
  }

  /** The printed text fits the string that is made for it, of n characters, exactly. */
  method BignumToString(x: Bignum) returns (n: nat, s: string)
    requires Normal(x)
    ensures s == Text(Value(x)) && n == |s|
  {
    n := CountDigits(x);
    if Negative(x) {
      n := n + 1;
    }
    s := PrintBignum(x);
    NormalAbs(x);
  }

  // ---------------------------------------------------------------- reading

  function Unsigned(s: string): string {
    if s != "" && (s[0] == '-' || s[0] == '+') then s[1..] else s
  }

  /** An optional sign and at least one digit. */
  predicate IntegerString(s: string) {
    Unsigned(s) != "" && Digits(Unsigned(s))
  }

  function NumeralValue(s: string): int
    requires IntegerString(s)
  {
    var v: int := NumberOf(Unsigned(s));
    if s[0] == '-' then -v else v
  }

  /** The digits that do not fill a segment of their own, at the front. */
  function Front(ds: string): (f: string)
    requires |ds| > 0
    ensures 1 <= |f| <= WIDTH && f <= ds
  {
    ds[..(|ds| - 1) % WIDTH + 1]
  }

  lemma {:induction false} LeadingZeros(s: string, k: nat)
    requires Digits(s) && k <= |s| && forall i :: 0 <= i < k ==> s[i] == '0'
    ensures NumberOf(s[k..]) == NumberOf(s)
    decreases |s|
  {
    if k == |s| {
      AllZeros(s);
    } else {
      var u := s[..|s| - 1];
      LeadingZeros(u, k);
      assert s[k..][..|s[k..]| - 1] == u[k..];
    }
  }

  lemma {:induction false} AllZeros(s: string)
    requires Digits(s) && forall i :: 0 <= i < |s| ==> s[i] == '0'
    ensures NumberOf(s) == 0
    decreases |s|
  {
    if s != "" {
      AllZeros(s[..|s| - 1]);
    }
  }

  /** One segment's worth of digits. */
  method Asctol(s: string) returns (v: cell)
    requires Digits(s) && 1 <= |s| <= WIDTH
    ensures v as int == NumberOf(s) && Segment(v)
  {
    hide NumberOf;
    var k := 0;
    while s[k] == '0' && k + 1 < |s|
      invariant 0 <= k < |s| && forall i :: 0 <= i < k ==> s[i] == '0'
    {
      k := k + 1;
    }
    LeadingZeros(s, k);
    var t := s[k..];
    var i := 0;
    v := 0;
    NumberOfNone();
    while i < |t|
      invariant 0 <= i <= |t| && v as int == NumberOf(t[..i]) && Segment(v)
    {
      OneMoreDigit(t, i);
      v := v * 10 + DigitValue(t[i]) as cell;
      i := i + 1;
    }
    assert t[..i] == t;
  }

  lemma NumberOfNone()
    ensures NumberOf("") == 0
  {
  }

  /** Up to nine digits stay within a segment. */
  lemma OneMoreDigit(t: string, i: nat)
    requires Digits(t) && i < |t| <= WIDTH
    ensures NumberOf(t[..i + 1]) == NumberOf(t[..i]) * 10 + DigitValue(t[i])
    ensures NumberOf(t[..i + 1]) < BASE
  {
    assert t[..i + 1][..i] == t[..i];
    NumberOfBound(t[..i + 1]);
    PowMonotone(i + 1, 9);
    NinePower();
  }

  lemma {:induction false} PowMonotone(a: nat, b: nat)
    requires a <= b
    ensures Pow10(a) <= Pow10(b)
    decreases b
  {
    if a < b {
      PowMonotone(a, b - 1);
    }
  }

  /** The segments of a string of digits, cut off from its end nine at a time. */
  method ReadSegments(s: string) returns (n: seq<cell>)
    requires Digits(s) && s != ""
    ensures n != [] && Segments(n) && Join(0, n) == NumberOf(s)
    ensures |n| == 1 <==> |s| <= WIDTH
    ensures n[0] as int == NumberOf(Front(s))
  {
    hide Join, Segments, NumberOf, Front;
    NumberOfNone();
    var k := |s|;
    n := [];
    JoinNone(NumberOf(s));
    assert s[..k] == s;
    while k > 0
      invariant 0 <= k <= |s| && Segments(n) && Join(NumberOf(s[..k]), n) == NumberOf(s)
      invariant n == [] <==> k == |s|
      invariant k > 0 ==> (|s| - k) % WIDTH == 0
      invariant |n| == 1 ==> k == if |s| <= WIDTH then 0 else |s| - WIDTH
      invariant |n| > 1 ==> |s| > WIDTH
      invariant k == 0 ==> n[0] as int == NumberOf(Front(s))
    {
      var j := if k <= WIDTH then k else WIDTH;
      if k <= WIDTH {
        FrontIs(s, k);
      }
      var v := Asctol(s[k - j..k]);
      CutSegment(s, k, j);
      k := k - j;
      Put(NumberOf(s[..k]), v, n);
      n := [v] + n;
    }
    assert s[..0] == "";
  }

  lemma JoinNone(h: int)
    ensures Join(h, []) == h && Segments([])
  {
  }

  lemma FrontIs(s: string, k: nat)
    requires 0 < k <= WIDTH && k <= |s| && (|s| - k) % WIDTH == 0
    ensures s[k - k..k] == Front(s)
  {
    assert (|s| - 1) % 9 == k - 1;
  }

  /** Nine digits, or all that is left, are one segment. */
  lemma CutSegment(s: string, k: nat, j: nat)
    requires Digits(s) && 0 < j <= k <= |s| && (j == WIDTH || j == k)
    ensures NumberOf(s[..k]) == NumberOf(s[..k - j]) * BASE + NumberOf(s[k - j..k])
  {
    var a, b := s[..k - j], s[k - j..k];
    assert s[..k] == a + b;
    NumberOfJoined(a, b);
    if j == WIDTH {
      NinePower();
    } else {
      assert a == "";
      assert NumberOf(a) == 0;
    }
  }

  /** Reading: the result is a normal form of the number written exactly if the digits that do not fill a segment of
      their own are not all zeros, unless they are all there is; otherwise the sign is lost. Reading what was printed
      gives the same segments. */
  method StringToBignum(s0: string) returns (n: Bignum)
    requires IntegerString(s0)
    ensures Normal(n) <==> |Unsigned(s0)| <= WIDTH || NumberOf(Front(Unsigned(s0))) != 0
    ensures n != [] && -LIMIT < n[0] < LIMIT && Segments(n[1..])
    ensures Value(n) == if Normal(n) then NumeralValue(s0) else NumberOf(Unsigned(s0))
    ensures forall m: Bignum | Normal(m) && s0 == Text(Value(m)) :: n == m
  {
    var s, sign := s0, 1;
    if s0[0] == '-' {
      s := s[1..];
      sign := -1;
    } else if s0[0] == '+' {
      s := s[1..];
    }
    assert s == Unsigned(s0);
    n := ReadSegments(s);
    ghost var list := n;
    n := [if sign == -1 then -n[0] else n[0]] + n[1..];
    SignedSegments(list, sign, n);
    forall m: Bignum | Normal(m) && s0 == Text(Value(m))
      ensures n == m
    {
      ReadPrinted(m);
      NormalUnique(n, m);
    }
  }

  lemma SignedSegments(list: Bignum, sign: int, n: Bignum)
    requires list != [] && Segments(list) && (sign == 1 || sign == -1)
    requires n == [if sign == -1 then -list[0] else list[0]] + list[1..]
    ensures Normal(n) <==> |list| == 1 || list[0] != 0
    ensures Value(n) == if list[0] != 0 then sign * Join(0, list) else Join(0, list)
    ensures |list| == 1 && list[0] == 0 ==> Join(0, list) == 0
  {
    hide Join;
    SingleZero(list);
    assert n[1..] == list[1..];
    if sign == 1 || list[0] == 0 {
      assert n == list;
    } else {
      assert AbsList(n) == list;
    }
  }

  lemma SingleZero(list: Bignum)
    requires list != []
    ensures |list| == 1 && list[0] == 0 ==> Join(0, list) == 0
  {
    if |list| == 1 {
      assert list[1..] == [];
    }
  }

  /** What is printed is a numeral of the number, with no zeros in front. */
  lemma ReadPrinted(m: Bignum)
    requires Normal(m)
    ensures
      var t := Text(Value(m));
      && IntegerString(t) && NumeralValue(t) == Value(m)
      && (|Unsigned(t)| <= WIDTH || NumberOf(Front(Unsigned(t))) != 0)
  {
    hide Join;
    var v := Magnitude(Value(m));
    assert v < 10 ==> |Decimal(v)| == 1;
    var t, d := Text(Value(m)), Decimal(v);
    NumberOfDecimal(v);
    assert IsDigit(d[0]);
    assert Unsigned(t) == d;
    if |d| > WIDTH {
      DecimalLeads(v);
      PositiveFront(Front(d));
    }
  }

  lemma {:induction false} PositiveFront(s: string)
    requires Digits(s) && s != "" && s[0] != '0'
    ensures NumberOf(s) > 0
    decreases |s|
  {
    if |s| > 1 {
      PositiveFront(s[..|s| - 1]);
    }
  }

  /** The condition matters: this numeral of minus one million is read as plus one million, in two segments. */
  lemma LeadingZerosLost()
    ensures
      var t := "-0000000000001000000";
      && IntegerString(t) && NumeralValue(t) < 0
      && |Unsigned(t)| > WIDTH && NumberOf(Front(Unsigned(t))) == 0
  {
    var u := "0000000000001000000";
    assert Unsigned("-0000000000001000000") == u;
    LeadingZeros(u, 12);
    assert u[12..] == "1000000";
    PositiveFront("1000000");
    AllZeros(Front(u));
  }
}
