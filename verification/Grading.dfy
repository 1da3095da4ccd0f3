/** Grading: an index vector is shellsorted by the values that the indexes stand for. */
module Grading {

  /** All that is asked of the comparison; every strict weak order is one. */
  ghost predicate StrictOrder<T(!new)>(p: (T, T) -> bool) {
    (forall x :: !p(x, x)) && forall x, y, z :: p(x, y) && p(y, z) ==> p(x, z)
  }

  /** Gaps that are powers of two are made odd. */
  const POWERS: set<nat> := {
    4, 8, 16, 32, 64, 128, 256, 512, 1024, 2048, 4096, 8192, 16384, 32768, 65536, 131072, 262144, 524288, 1048576,
    2097152, 4194304, 8388608, 16777216, 33554432, 67108864, 134217728, 268435456, 536870912, 1073741824
  }

  /** The next gap is smaller, and after 1 comes 0: the last pass is always one with gap 1. */
  function Fixgap(k: nat): (g: nat)
    ensures k - 1 <= g <= k && (g == 0 <==> k == 0) && (k == 1 ==> g == 1)
  {
    if k in POWERS then k - 1 else k
  }

  function Power(e: nat): (n: nat)
    ensures n >= 1 && (e > 0 ==> n % 2 == 0)
  {
    if e == 0 then 1 else 2 * Power(e - 1)
  }

  /** No gap of 32 bits is a power of two greater than 2. */
  lemma NoPowerOfTwo(k: nat, e: nat)
    requires k < 0x8000_0000 && Fixgap(k) == Power(e)
    ensures e <= 1
  {
    assert forall x :: x in POWERS ==> x % 2 == 0;
    if e > 1 {
      PowersListed(e);
    }
  }

  lemma {:induction false} PowersListed(e: nat)
    requires e > 1 && Power(e) < 0x8000_0000
    ensures Power(e) in POWERS
    decreases e
  {
    if e == 2 {
      assert Power(1) == 2 * Power(0) && Power(2) == 2 * Power(1);
    } else {
      PowersListed(e - 1);
      assert forall x :: x in POWERS && 2 * x < 0x8000_0000 ==> 2 * x in POWERS;
    }
  }

  /** The indexes are those of the values, each once. */
  ghost predicate Indexes(s: seq<nat>, n: nat) {
    |s| == n && multiset(s) == multiset(Count(n)) && forall i :: 0 <= i < n ==> s[i] < n
  }

  function Count(n: nat): (s: seq<nat>)
    ensures |s| == n && forall i :: 0 <= i < n ==> s[i] == i
  {
    if n == 0 then [] else Count(n - 1) + [n - 1]
  }

  /** No later one of the first n is below an earlier one, but for what stands at index skip. */
  ghost predicate Ordered<T>(vals: seq<T>, p: (T, T) -> bool, s: seq<nat>, n: nat, skip: int)
    requires n <= |s| && forall i :: 0 <= i < |s| ==> s[i] < |vals|
  {
    forall i, j :: 0 <= i < j < n && j != skip ==> !p(vals[s[j]], vals[s[i]])
  }

  lemma SwapKeeps(s: seq<nat>, n: nat, i: nat, j: nat)
    requires Indexes(s, n) && i < n && j < n
    ensures Indexes(s[i := s[j]][j := s[i]], n)
  {
  }

  /** The next element is looked at. */
  lemma Joins<T>(vals: seq<T>, p: (T, T) -> bool, s: seq<nat>, n: nat)
    requires n < |s| && (forall i :: 0 <= i < |s| ==> s[i] < |vals|) && Ordered(vals, p, s, n, -1)
    ensures Ordered(vals, p, s, n + 1, n)
  {
  }

  /** Nothing lies below the first place. */
  lemma AtBottom<T>(vals: seq<T>, p: (T, T) -> bool, s: seq<nat>, n: nat)
    requires n <= |s| && (forall i :: 0 <= i < |s| ==> s[i] < |vals|) && Ordered(vals, p, s, n, 0)
    ensures Ordered(vals, p, s, n, -1)
  {
  }

  /** In a pass with gap 1, an element moves down by one. */
  lemma MovesDown<T>(vals: seq<T>, p: (T, T) -> bool, s: seq<nat>, n: nat, j: nat)
    requires Indexes(s, |vals|) && j + 1 < n <= |s| && (forall i :: 0 <= i < |s| ==> s[i] < |vals|)
    requires Ordered(vals, p, s, n, j + 1) && !p(vals[s[j]], vals[s[j + 1]])
    ensures
      var t := s[j := s[j + 1]][j + 1 := s[j]];
      (forall i :: 0 <= i < |t| ==> t[i] < |vals|) && Ordered(vals, p, t, n, j)
  {
  }

  lemma Chain<T(!new)>(p: (T, T) -> bool, x: T, y: T, z: T)
    requires StrictOrder(p)
    ensures p(x, y) && p(y, z) ==> p(x, z)
    ensures p(x, y) ==> !p(y, x)
  {
  }

  /** It stays where the one below it is smaller. */
  lemma Stays<T(!new)>(vals: seq<T>, p: (T, T) -> bool, s: seq<nat>, n: nat, j: nat)
    requires StrictOrder(p) && j + 1 < n <= |s| && (forall i :: 0 <= i < |s| ==> s[i] < |vals|)
    requires Ordered(vals, p, s, n, j + 1) && p(vals[s[j]], vals[s[j + 1]])
    ensures Ordered(vals, p, s, n, -1)
  {
    forall i | 0 <= i < j + 1
      ensures !p(vals[s[j + 1]], vals[s[i]])
    {
      Chain(p, vals[s[j]], vals[s[j + 1]], vals[s[i]]);
    }
  }

  /** The first n indexes are sorted but for the one at skip, if the gap is 1. */
  ghost predicate Sorting<T>(vals: seq<T>, p: (T, T) -> bool, s: seq<nat>, gap: nat, n: nat, skip: int) {
    Indexes(s, |vals|) && n <= |s| && (gap == 1 ==> Ordered(vals, p, s, n, skip))
  }

  lemma InRange<T>(vals: seq<T>, p: (T, T) -> bool, s: seq<nat>, gap: nat, n: nat, skip: int)
    requires Sorting(vals, p, s, gap, n, skip)
    ensures |s| == |vals| && forall i :: 0 <= i < |s| ==> s[i] < |vals|
  {
  }

  lemma Joining<T>(vals: seq<T>, p: (T, T) -> bool, s: seq<nat>, gap: nat, n: nat)
    requires Sorting(vals, p, s, gap, n, -1) && n < |s| && gap <= n
    ensures Sorting(vals, p, s, gap, n + 1, n)
  {
    if gap == 1 {
      Joins(vals, p, s, n);
    }
  }

  lemma Bottom<T>(vals: seq<T>, p: (T, T) -> bool, s: seq<nat>, gap: nat, n: nat, j: int)
    requires Sorting(vals, p, s, gap, n, j + gap) && 0 <= j + gap < gap
    ensures Sorting(vals, p, s, gap, n, -1)
  {
    if gap == 1 {
      AtBottom(vals, p, s, n);
    }
  }

  lemma Staying<T(!new)>(vals: seq<T>, p: (T, T) -> bool, s: seq<nat>, gap: nat, n: nat, j: nat)
    requires StrictOrder(p) && Sorting(vals, p, s, gap, n, j + gap) && j + gap < n <= |s| == |vals|
    requires s[j] < |vals| && s[j + gap] < |vals| && p(vals[s[j]], vals[s[j + gap]])
    ensures Sorting(vals, p, s, gap, n, -1)
  {
    if gap == 1 {
      Stays(vals, p, s, n, j);
    }
  }

  lemma Moving<T>(vals: seq<T>, p: (T, T) -> bool, s: seq<nat>, gap: nat, n: nat, j: nat)
    requires Sorting(vals, p, s, gap, n, j + gap) && j + gap < n <= |s| == |vals|
    requires s[j] < |vals| && s[j + gap] < |vals| && !p(vals[s[j]], vals[s[j + gap]])
    ensures Sorting(vals, p, s[j := s[j + gap]][j + gap := s[j]], gap, n, j)
  {
    hide Indexes, Ordered;
    InRange(vals, p, s, gap, n, j + gap);
    SwapKeeps(s, |vals|, j, j + gap);
    if gap == 1 {
      MovesDown(vals, p, s, n, j);
    }
  }

  /** One comparison, and a swap unless the lower element is smaller. */
  method Compare<T(!new)>(vals: seq<T>, nv: array<nat>, p: (T, T) -> bool, gap: nat, ghost n: nat, j: nat)
    returns (done: bool)
    requires StrictOrder(p) && Sorting(vals, p, nv[..], gap, n, j + gap) && 0 < gap && j + gap < n <= nv.Length
    modifies nv
    ensures Sorting(vals, p, nv[..], gap, n, if done then -1 else j)
  {
    hide Sorting, StrictOrder;
    ghost var s := nv[..];
    InRange(vals, p, s, gap, n, j + gap);
    var x, y := nv[j], nv[j + gap];
    assert x == s[j] && y == s[j + gap];
    if p(vals[x], vals[y]) {
      Staying(vals, p, s, gap, n, j);
      return true;
    }
    Moving(vals, p, s, gap, n, j);
    nv[j] := y;
    nv[j + gap] := x;
    assert nv[..] == s[j := y][j + gap := x];
    return false;
  }

  /** The element at i moves down in steps of gap while the one there is not smaller. */
  method MoveDown<T(!new)>(vals: seq<T>, nv: array<nat>, p: (T, T) -> bool, gap: nat, i: nat)
    requires StrictOrder(p) && Sorting(vals, p, nv[..], gap, i, -1) && 0 < gap <= i < nv.Length
    modifies nv
    ensures Sorting(vals, p, nv[..], gap, i + 1, -1)
  {
    hide Sorting, StrictOrder;
    Joining(vals, p, nv[..], gap, i);
    var j: int := i - gap;
    while j >= 0
      invariant 0 <= j + gap <= i && Sorting(vals, p, nv[..], gap, i + 1, j + gap)
    {
      var done := Compare(vals, nv, p, gap, i + 1, j);
      if done {
        return;
      }
      j := j - gap;
    }
    Bottom(vals, p, nv[..], gap, i + 1, j);
  }

  /** One pass: every pass only permutes, and one with gap 1 sorts. */
  method Pass<T(!new)>(vals: seq<T>, nv: array<nat>, p: (T, T) -> bool, gap: nat)
    requires StrictOrder(p) && Indexes(nv[..], |vals|) && 0 < gap <= nv.Length
    modifies nv
    ensures Sorting(vals, p, nv[..], gap, nv.Length, -1)
  {
    var i := gap;
    while i < nv.Length
      invariant gap <= i <= nv.Length && Sorting(vals, p, nv[..], gap, i, -1)
    {
      MoveDown(vals, nv, p, gap, i);
      i := i + 1;
    }
  }

  method Shellsort<T(!new)>(vals: seq<T>, nv: array<nat>, p: (T, T) -> bool)
    requires StrictOrder(p) && Indexes(nv[..], |vals|)
    modifies nv
    ensures Indexes(nv[..], |vals|)
    ensures Ordered(vals, p, nv[..], nv.Length, -1)
  {
    var count := nv.Length;
    var gap := Fixgap(count / 2);
    while gap > 0
      invariant Indexes(nv[..], |vals|) && gap <= count
      invariant gap == 0 ==> Ordered(vals, p, nv[..], nv.Length, -1)
      decreases gap
    {
      Pass(vals, nv, p, gap);
      gap := Fixgap(gap / 2);
    }
  }

  /** The indexes of a list of values, in the order of the values. */
  method Grade<T(!new)>(p: (T, T) -> bool, vals: seq<T>) returns (s: seq<nat>)
    requires StrictOrder(p)
    ensures Indexes(s, |vals|)
    ensures forall i :: 0 <= i < |s| ==> s[i] < |vals|
    ensures forall i, j :: 0 <= i < j < |s| ==> !p(vals[s[j]], vals[s[i]])
  {
    var k := |vals|;
    var nv := new nat[k];
    var i := 0;
    while i < k
      invariant 0 <= i <= k && forall j :: 0 <= j < i ==> nv[j] == j
    {
      nv[i] := i;
      i := i + 1;
    }
    assert nv[..] == Count(k);
    Shellsort(vals, nv, p);
    s := nv[..];
  }
}
