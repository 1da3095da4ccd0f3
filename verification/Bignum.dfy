/** Integers of any size as lists of 32-bit cells: nine decimal digits each, most significant first, the sign on the
    first one. */
module Bignum {

  /** The C type of a list cell. All arithmetic on segments stays inside it. */
  newtype cell = x: int | -0x8000_0000 <= x < 0x8000_0000

  const LIMIT: cell := 1_000_000_000
  const BASE := 1_000_000_000

  type Bignum = seq<cell>

  // ---------------------------------------------------------------- what a segment list means

  predicate Segment(x: cell) {
    0 <= x < LIMIT
  }

  predicate Segments(s: seq<cell>) {
    forall i :: 0 <= i < |s| ==> Segment(s[i])
  }

  /** The number h followed by the segments s. */
  function Join(h: int, s: seq<cell>): int
    decreases |s|
  {
    if s == [] then h else Join(h * BASE + s[0] as int, s[1..])
  }

  /** The value of segments in the reverse order, least significant first. */
  function Little(s: seq<cell>): int {
    if s == [] then 0 else s[0] as int + BASE * Little(s[1..])
  }

  function AbsList(a: Bignum): Bignum
    requires |a| > 0 && a[0] > -LIMIT
  {
    [if a[0] < 0 then -a[0] else a[0]] + a[1..]
  }

  predicate Negative(a: Bignum)
    requires |a| > 0
  {
    a[0] < 0
  }

  /** Segments in range, and no leading zero segment unless the number is zero. */
  predicate Normal(a: Bignum) {
    && |a| > 0 && -LIMIT < a[0] < LIMIT && Segments(a[1..])
    && (|a| > 1 ==> a[0] != 0)
  }

  predicate NormalNat(a: Bignum) {
    Normal(a) && a[0] >= 0
  }

  function Value(a: Bignum): int
    requires |a| > 0 && a[0] > -LIMIT
  {
    if a[0] < 0 then -Join(0, AbsList(a)) else Join(0, a)
  }

  // ---------------------------------------------------------------- segment lists

  lemma {:induction false} JoinAppend(h: int, s: seq<cell>, x: cell)
    ensures Join(h, s + [x]) == Join(h, s) * BASE + x as int
    decreases |s|
  {
    if s == [] {
      assert ([] + [x])[1..] == [];
    } else {
      assert (s + [x])[1..] == s[1..] + [x];
      JoinAppend(h * BASE + s[0] as int, s[1..], x);
    }
  }

  lemma {:induction false} JoinConcat(h: int, s: seq<cell>, t: seq<cell>)
    ensures Join(h, s + t) == Join(Join(h, s), t)
    decreases |s|
  {
    if s == [] {
      assert [] + t == t;
    } else {
      assert (s + t)[1..] == s[1..] + t;
      JoinConcat(h * BASE + s[0] as int, s[1..], t);
    }
  }

  /** With the same number of segments to follow, the larger head wins. */
  lemma {:induction false} JoinLess(h: int, s: seq<cell>, k: int, t: seq<cell>)
    requires Segments(s) && Segments(t) && |s| == |t| && h < k
    ensures Join(h, s) < Join(k, t)
    decreases |s|
  {
    if s != [] {
      assert Segment(s[0]) && Segment(t[0]);
      JoinLess(h * BASE + s[0] as int, s[1..], k * BASE + t[0] as int, t[1..]);
    }
  }

  lemma {:induction false} JoinNonneg(h: int, s: seq<cell>)
    requires Segments(s) && h >= 0
    ensures Join(h, s) >= h
    decreases |s|
  {
    if s != [] {
      assert Segment(s[0]);
      JoinNonneg(h * BASE + s[0] as int, s[1..]);
    }
  }

  lemma {:induction false} JoinNegative(h: int, s: seq<cell>)
    requires Segments(s) && h < 0
    ensures Join(h, s) < 0
    decreases |s|
  {
    if s != [] {
      assert Segment(s[0]);
      JoinNegative(h * BASE + s[0] as int, s[1..]);
    }
  }

  function Reversed(s: seq<cell>): (r: seq<cell>)
    ensures |r| == |s| && forall i :: 0 <= i < |s| ==> r[i] == s[|s| - 1 - i]
  {
    if s == [] then [] else Reversed(s[1..]) + [s[0]]
  }

  lemma ReversedSegments(s: seq<cell>)
    requires Segments(s)
    ensures Segments(Reversed(s))
  {
  }

  lemma {:induction false} JoinReversed(s: seq<cell>)
    ensures Join(0, Reversed(s)) == Little(s)
  {
    if s != [] {
      JoinReversed(s[1..]);
      JoinAppend(0, Reversed(s[1..]), s[0]);
    }
  }

  lemma ReversedTwice(s: seq<cell>)
    ensures Reversed(Reversed(s)) == s
  {
  }

  lemma LittleReversed(s: seq<cell>)
    ensures Little(Reversed(s)) == Join(0, s)
  {
    JoinReversed(Reversed(s));
    ReversedTwice(s);
  }

  // ---------------------------------------------------------------- normal forms

  lemma NormalAbs(a: Bignum)
    requires Normal(a)
    ensures NormalNat(AbsList(a)) && Segments(AbsList(a))
    ensures Value(AbsList(a)) == if Value(a) < 0 then -Value(a) else Value(a)
    ensures a[0] < 0 <==> Value(a) < 0
  {
    var b := AbsList(a);
    assert b[1..] == a[1..];
    if a[0] >= 0 {
      assert b == a;
      SegmentsAll(a);
      JoinNonneg(0, a);
    } else {
      SegmentsAll(b);
      PositiveHead(b);
    }
  }

  lemma SegmentsAll(a: Bignum)
    requires NormalNat(a)
    ensures Segments(a)
  {
    forall i | 0 <= i < |a|
      ensures Segment(a[i])
    {
      assert i > 0 ==> a[i] == a[1..][i - 1];
    }
  }

  lemma PositiveHead(a: Bignum)
    requires Segments(a) && |a| > 0 && a[0] > 0
    ensures Join(0, a) > 0
  {
    JoinNonneg(a[0] as int, a[1..]);
  }

  lemma ZeroIs(a: Bignum)
    requires Normal(a)
    ensures Value(a) == 0 <==> a == [0]
  {
    NormalAbs(a);
    var b := AbsList(a);
    if b[0] > 0 {
      PositiveHead(b);
    } else {
      assert a == [a[0]];
    }
  }

  /** The longer of two normal forms is larger. */
  lemma LongerIsLarger(a: Bignum, b: Bignum)
    requires NormalNat(a) && NormalNat(b) && |a| < |b|
    ensures Value(a) < Value(b)
  {
    SegmentsAll(a);
    SegmentsAll(b);
    var k := |b| - |a|;
    assert b == b[..k] + b[k..];
    JoinConcat(0, b[..k], b[k..]);
    PositiveHead(b[..k]);
    JoinLess(0, a, Join(0, b[..k]), b[k..]);
  }

  /** The first difference decides. */
  lemma {:induction false} FirstDifference(h: int, a: Bignum, b: Bignum, i: nat)
    requires Segments(a) && Segments(b) && |a| == |b| && i < |a| && a[..i] == b[..i] && a[i] < b[i]
    ensures Join(h, a) < Join(h, b)
    decreases i
  {
    if i == 0 {
      JoinLess(h * BASE + a[0] as int, a[1..], h * BASE + b[0] as int, b[1..]);
    } else {
      assert a[0] == a[..i][0] == b[..i][0] == b[0];
      assert a[1..][..i - 1] == a[..i][1..] && b[1..][..i - 1] == b[..i][1..];
      FirstDifference(h * BASE + a[0] as int, a[1..], b[1..], i - 1);
    }
  }

  /** A number has one normal form. */
  lemma {:induction false} NormalUnique(a: Bignum, b: Bignum)
    requires Normal(a) && Normal(b) && Value(a) == Value(b)
    ensures a == b
  {
    NormalAbs(a);
    NormalAbs(b);
    var x, y := AbsList(a), AbsList(b);
    if |x| < |y| {
      LongerIsLarger(x, y);
    } else if |y| < |x| {
      LongerIsLarger(y, x);
    } else if x != y {
      var i := Differ(x, y);
      if x[i] < y[i] {
        FirstDifference(0, x, y, i);
      } else {
        FirstDifference(0, y, x, i);
      }
    }
    assert a[1..] == x[1..] && b[1..] == y[1..];
    assert a == [a[0]] + a[1..] && b == [b[0]] + b[1..];
  }

  function Differ(x: seq<cell>, y: seq<cell>): (i: nat)
    requires |x| == |y| && x != y
    ensures i < |x| && x[..i] == y[..i] && x[i] != y[i]
  {
    if x[0] != y[0] then 0
    else
      assert x == [x[0]] + x[1..] && y == [y[0]] + y[1..];
      var i := 1 + Differ(x[1..], y[1..]);
      assert x[..i] == [x[0]] + x[1..][..i - 1] && y[..i] == [y[0]] + y[1..][..i - 1];
      i
  }

  // ---------------------------------------------------------------- sign, comparison

  method Abs(a: Bignum) returns (r: Bignum)
    requires Normal(a)
    ensures NormalNat(r) && r == AbsList(a) && Value(r) == if Value(a) < 0 then -Value(a) else Value(a)
  {
    NormalAbs(a);
    r := [if a[0] < 0 then -a[0] else a[0]] + a[1..];
  }

  method Negate(a: Bignum) returns (r: Bignum)
    requires Normal(a)
    ensures Normal(r) && Value(r) == -Value(a)
  {
    r := [-a[0]] + a[1..];
    assert r[1..] == a[1..];
    NormalAbs(a);
    NormalAbs(r);
    assert AbsList(r) == AbsList(a);
    ZeroIs(a);
  }

  method ReverseSegments(n: seq<cell>) returns (m: seq<cell>)
    ensures m == Reversed(n)
  {
    m := [];
    var i := 0;
    while i < |n|
      invariant 0 <= i <= |n| && |m| == i
      invariant forall k :: 0 <= k < i ==> m[k] == n[i - 1 - k]
    {
      m := [n[i]] + m;
      i := i + 1;
    }
  }

  method Less(a: Bignum, b: Bignum) returns (r: bool)
    requires Normal(a) && Normal(b)
    ensures r <==> Value(a) < Value(b)
  {
    NormalAbs(a);
    NormalAbs(b);
    var negA, negB := Negative(a), Negative(b);
    if negA && !negB {
      return true;
    }
    if !negA && negB {
      return false;
    }
    ghost var x, y := AbsList(a), AbsList(b);
    if |a| < |b| {
      LongerIsLarger(x, y);
      return !negA;
    }
    if |a| > |b| {
      LongerIsLarger(y, x);
      return negA;
    }
    var p := Abs(a);
    var q := Abs(b);
    var i := 0;
    while i < |p|
      invariant 0 <= i <= |p| && p[..i] == q[..i]
    {
      if p[i] < q[i] {
        FirstDifference(0, p, q, i);
        return !negA;
      }
      if p[i] > q[i] {
        FirstDifference(0, q, p, i);
        return negA;
      }
      assert p[..i + 1] == p[..i] + [p[i]] && q[..i + 1] == q[..i] + [q[i]];
      i := i + 1;
    }
    assert p[..i] == p && q[..i] == q;
    return false;
  }

  method Equal(a: Bignum, b: Bignum) returns (r: bool)
    requires Normal(a) && Normal(b)
    ensures r <==> Value(a) == Value(b)
  {
    var i := 0;
    while i < |a| && i < |b|
      invariant 0 <= i <= |a| && i <= |b| && a[..i] == b[..i]
    {
      if a[i] != b[i] {
        if Value(a) == Value(b) {
          NormalUnique(a, b);
        }
        return false;
      }
      assert a[..i + 1] == a[..i] + [a[i]] && b[..i + 1] == b[..i] + [b[i]];
      i := i + 1;
    }
    r := i == |a| && i == |b|;
    if r {
      assert a == a[..i] && b == b[..i];
    } else if Value(a) == Value(b) {
      NormalUnique(a, b);
    }
  }
}
