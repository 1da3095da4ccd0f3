/** The probe sequence of the wak hash table.

    Probes start at the hash modulo the table size 2^k and continue with x -> 5x + 1 + perturb, where
    perturb is the hash shifted right by five more bits every time. Once perturb is 0 the sequence
    visits every slot. */
module Probing {

  const PSHIFT_DIV := 32
  const HASH_LIMIT := 0x1_0000_0000

  function Pow2(k: nat): (n: nat)
    ensures n >= 1
  {
    if k == 0 then 1 else 2 * Pow2(k - 1)
  }

  ghost predicate IsPow2(n: nat) {
    exists k: nat :: n == Pow2(k)
  }

  /** The state of the probe loop: the slot looked at and what is left of the hash. */
  datatype Probe = Probe(pos: nat, perturb: nat)

  function Start(hash: nat, size: nat): (p: Probe)
    requires size > 0
    ensures p.pos < size
  {
    Probe(hash % size, hash)
  }

  function Next(p: Probe, size: nat): (q: Probe)
    requires size > 0
    ensures q.pos < size
  {
    var perturb := p.perturb / PSHIFT_DIV;
    Probe((p.pos * 5 + 1 + perturb) % size, perturb)
  }

  function At(hash: nat, size: nat, t: nat): (p: Probe)
    requires size > 0
    ensures p.pos < size
  {
    if t == 0 then Start(hash, size) else Next(At(hash, size, t - 1), size)
  }

  // ---------------------------------------------------------------- x -> 5x + 1 over the integers

  function Iterate(x: nat, n: nat): nat {
    if n == 0 then x else 5 * Iterate(x, n - 1) + 1
  }

  lemma {:induction false} IterateAdd(x: nat, m: nat, n: nat)
    ensures Iterate(x, m + n) == Iterate(Iterate(x, m), n)
  {
    if n > 0 {
      IterateAdd(x, m, n - 1);
    }
  }

  function Gain(x: nat, s: nat): nat {
    (4 * x + 1) * s
  }

  /** n steps from x add a multiple of 4x + 1 that does not depend on x. */
  lemma {:induction false} IterateGain(x: nat, n: nat)
    ensures Iterate(x, n) == x + Gain(x, Iterate(0, n))
  {
    if n > 0 {
      IterateGain(x, n - 1);
      GainStep(x, 4 * x + 1, Iterate(0, n - 1));
    }
  }

  lemma GainStep(x: int, a: int, s: int)
    requires a == 4 * x + 1
    ensures 5 * (x + a * s) + 1 == x + a * (5 * s + 1)
  {
    MulScaled(a, s);
    MulPlus(5 * s, 1, a);
  }

  lemma MulScaled(a: int, s: int)
    ensures (5 * s) * a == 5 * (a * s)
  {
  }

  /** From 0, 2^k steps lead to an odd multiple of 2^k. */
  lemma {:induction false} PowerOfTwoSteps(k: nat) returns (o: nat)
    ensures Iterate(0, Pow2(k)) == Pow2(k) * (2 * o + 1)
  {
    if k == 0 {
      o := 0;
      assert Iterate(0, 1) == 5 * Iterate(0, 0) + 1;
    } else {
      var h := Pow2(k - 1);
      var c := PowerOfTwoSteps(k - 1);
      var s := Iterate(0, h);
      o := c + s * (2 * c + 1);
      assert Pow2(k) == 2 * h;
      hide Gain, Iterate, Pow2;
      IterateAdd(0, h, h);
      IterateGain(s, h);
      TwiceTheSteps(h, c, s);
    }
  }

  lemma TwiceTheSteps(h: nat, c: nat, s: nat)
    requires s == h * (2 * c + 1)
    ensures s + Gain(s, s) == (2 * h) * (2 * (c + s * (2 * c + 1)) + 1)
  {
    calc {
      s + Gain(s, s);
      2 * s * (2 * s + 1);
      2 * (h * (2 * c + 1)) * (2 * s + 1);
      { Regroup(h, 2 * c + 1, 2 * s + 1); }
      (2 * h) * ((2 * c + 1) * (2 * s + 1));
      { OddProduct(c, s); }
      (2 * h) * (2 * (c + s * (2 * c + 1)) + 1);
    }
  }

  lemma Regroup(a: int, b: int, c: int)
    ensures 2 * (a * b) * c == (2 * a) * (b * c)
  {
  }

  lemma OddProduct(c: int, s: int)
    ensures (2 * c + 1) * (2 * s + 1) == 2 * (c + s * (2 * c + 1)) + 1
  {
  }

  /** Every residue modulo 2^k is reached from every start. */
  lemma {:induction false} ReachesEvery(k: nat, x: nat, y: nat) returns (n: nat)
    requires y < Pow2(k)
    ensures Iterate(x, n) % Pow2(k) == y
  {
    if k == 0 {
      n := 0;
    } else {
      var h := Pow2(k - 1);
      var n0 := ReachesEvery(k - 1, x, y % h);
      n := OtherHalf(k - 1, x, n0, y);
    }
  }

  /** What is reached modulo 2^k is reached modulo 2^(k + 1), at once or 2^k steps later. */
  lemma OtherHalf(k: nat, x: nat, n0: nat, y: nat) returns (n: nat)
    requires y < 2 * Pow2(k) && Iterate(x, n0) % Pow2(k) == y % Pow2(k)
    ensures Iterate(x, n) % (2 * Pow2(k)) == y
  {
    hide Iterate, Pow2;
    var z, h := Iterate(x, n0), Pow2(k);
    HalfModulus(z, h, y);
    if z % (2 * h) == y {
      n := n0;
    } else {
      n := n0 + h;
      IterateAdd(x, n0, h);
      LaterHalf(k, z, y);
    }
  }

  lemma LaterHalf(k: nat, z: nat, y: nat)
    requires var h := Pow2(k); y < 2 * h && z % (2 * h) == if y < h then y + h else y - h
    ensures Iterate(z, Pow2(k)) % (2 * Pow2(k)) == y
  {
    hide Iterate, Pow2, Gain;
    var h := Pow2(k);
    IterateGain(z, h);
    var o := PowerOfTwoSteps(k);
    OddGain(z, h, o, Iterate(0, h), y);
  }

  lemma HalfModulus(z: nat, h: nat, y: nat)
    requires h > 0 && y < 2 * h && z % h == y % h
    ensures z % (2 * h) == y || z % (2 * h) == (if y < h then y + h else y - h)
  {
    var r := z % (2 * h);
    ModOfDouble(z, h);
    SmallMod(r, h);
    SmallMod(y, h);
  }

  lemma ModOfDouble(z: nat, h: nat)
    requires h > 0
    ensures (z % (2 * h)) % h == z % h
  {
    var m := 2 * h;
    var q, r := DivMod(z, m);
    Twice(q, h);
    ModShift(r, 2 * q, h);
  }

  lemma DivMod(a: nat, m: nat) returns (q: nat, r: nat)
    requires m > 0
    ensures a == r + q * m && r == a % m && r < m
  {
    q, r := a / m, a % m;
  }

  lemma Twice(q: int, h: int)
    ensures (2 * q) * h == q * (2 * h)
  {
  }

  lemma SmallMod(r: nat, h: nat)
    requires h > 0 && r < 2 * h
    ensures r % h == if r < h then r else r - h
  {
    if r < h {
      ModSmall(r, h);
    } else {
      ModShift(r - h, 1, h);
      ModSmall(r - h, h);
    }
  }

  lemma ModSmall(r: nat, h: nat)
    requires r < h
    ensures r % h == r
  {
  }

  lemma {:induction false} ModShift(r: nat, q: nat, h: nat)
    requires h > 0
    ensures (r + q * h) % h == r % h
  {
    if q > 0 {
      ModShift(r, q - 1, h);
      var a := r + (q - 1) * h;
      assert r + q * h == a + h;
      ModStep(a, h);
    }
  }

  lemma ModStep(a: nat, h: nat)
    requires h > 0
    ensures (a + h) % h == a % h
  {
    var q, r := DivMod(a, h);
    MulPlus(q, 1, h);
    DivUnique(a + h, h, q + 1, r);
  }

  lemma MulGap(a: int, b: int, h: int)
    requires h > 0 && a < b
    ensures b * h >= a * h + h
  {
    MulAtLeast(b - a, h);
    MulMinus(b, a, h);
  }

  lemma {:induction false} MulAtLeast(a: int, h: int)
    requires h > 0 && a >= 1
    ensures a * h >= h
  {
    if a > 1 {
      MulAtLeast(a - 1, h);
      MulMinus(a, 1, h);
    }
  }

  lemma MulPlus(a: int, b: int, h: int)
    ensures (a + b) * h == a * h + b * h
  {
  }

  lemma MulMinus(b: int, a: int, h: int)
    ensures (b - a) * h == b * h - a * h
  {
  }

  lemma DivUnique(a: nat, h: nat, q: nat, r: nat)
    requires h > 0 && r < h && a == q * h + r
    ensures a % h == r
  {
    var q', r' := DivMod(a, h);
    if q' < q {
      MulGap(q', q, h);
    } else if q < q' {
      MulGap(q, q', h);
    }
  }

  /** An odd multiple of h flips the half of the residue modulo 2h, and so does the gain over as many steps. */
  lemma OddGain(z: nat, h: nat, o: nat, g: nat, y: nat)
    requires h > 0 && y < 2 * h && g == h * (2 * o + 1)
    requires z % (2 * h) == if y < h then y + h else y - h
    ensures (z + Gain(z, g)) % (2 * h) == y
  {
    hide Gain;
    var m := 2 * h;
    var k := OddTimesOdd(z, h, o, g);
    var q, r := DivMod(z, m);
    MulPlus(q, k, m);
    ModShift(r + h, q + k, m);
    if y < h {
      ModStep(y, m);
    }
    ModSmall(y, m);
  }

  lemma OddTimesOdd(z: nat, h: nat, o: nat, g: nat) returns (k: nat)
    requires g == h * (2 * o + 1)
    ensures Gain(z, g) == k * (2 * h) + h
  {
    k := 2 * z * (2 * o + 1) + o;
    assert (4 * z + 1) * g == (4 * z + 1) * (h * (2 * o + 1));
    OddProduct(o, 2 * z);
    Factor(4 * z + 1, h, 2 * o + 1);
    Distribute(k, h);
  }

  lemma Distribute(k: int, h: int)
    ensures (2 * k + 1) * h == k * (2 * h) + h
  {
  }

  lemma Factor(d: int, h: int, b: int)
    ensures d * (h * b) == (d * b) * h
  {
  }

  // ---------------------------------------------------------------- the probe sequence

  lemma {:induction false} PerturbDies(hash: nat, size: nat, t: nat)
    requires size > 0 && hash < HASH_LIMIT && t >= 7
    ensures At(hash, size, t).perturb == 0
  {
    if t == 7 {
      var p1, p2, p3 := At(hash, size, 1), At(hash, size, 2), At(hash, size, 3);
      var p4, p5, p6 := At(hash, size, 4), At(hash, size, 5), At(hash, size, 6);
      assert p1 == Next(At(hash, size, 0), size) && p2 == Next(p1, size) && p3 == Next(p2, size);
      assert p4 == Next(p3, size) && p5 == Next(p4, size) && p6 == Next(p5, size);
      assert p1.perturb < 0x800_0000 && p2.perturb < 0x40_0000 && p3.perturb < 0x2_0000;
      assert p4.perturb < 0x1000 && p5.perturb < 0x80 && p6.perturb < 0x4;
    } else {
      PerturbDies(hash, size, t - 1);
    }
  }

  lemma ModFive(a: nat, b: nat, size: nat)
    requires size > 0 && a == b % size
    ensures (a * 5 + 1) % size == (5 * b + 1) % size
  {
    var q, r := DivMod(b, size);
    FiveTimes(q, size);
    ModShift(a * 5 + 1, 5 * q, size);
  }

  lemma FiveTimes(q: int, size: int)
    ensures (5 * q) * size == 5 * (q * size)
  {
  }

  /** From the seventh step on the probes follow x -> 5x + 1 modulo the table size. */
  lemma {:induction false} AtIterates(hash: nat, size: nat, n: nat)
    requires size > 0 && hash < HASH_LIMIT
    ensures At(hash, size, 7 + n).pos == Iterate(At(hash, size, 7).pos, n) % size
  {
    if n == 0 {
      ModSmall(At(hash, size, 7).pos, size);
    } else {
      AtIterates(hash, size, n - 1);
      PerturbDies(hash, size, 7 + n - 1);
      PerturbDies(hash, size, 7 + n);
      ModFive(At(hash, size, 7 + n - 1).pos, Iterate(At(hash, size, 7).pos, n - 1), size);
    }
  }

  /** Every slot of the table is probed at some time, whatever the hash. */
  lemma ProbesEverySlot(hash: nat, size: nat, slot: nat) returns (t: nat)
    requires IsPow2(size) && slot < size && hash < HASH_LIMIT
    ensures At(hash, size, t).pos == slot
  {
    var k: nat :| size == Pow2(k);
    var n := ReachesEvery(k, At(hash, size, 7).pos, slot);
    AtIterates(hash, size, n);
    t := 7 + n;
  }
}
