/** The vector pool as a sequence of blocks, each a link, an index and a size word and then the payload. */
module VectorPool {
  import opened PointerReversal

  const NIL := -1
  const HEADER := 3

  function BlockCells(size: nat): (n: nat)
    ensures n >= HEADER
  {
    PayloadCells(size) + HEADER
  }

  /** k words of a from i on are the k words of b from j on. */
  ghost predicate Same(a: seq<int>, i: int, b: seq<int>, j: int, k: int) {
    && 0 <= k && 0 <= i && i + k <= |a| && 0 <= j && j + k <= |b|
    && a[i..i + k] == b[j..j + k]
  }

  lemma SameAt(a: seq<int>, i: int, b: seq<int>, j: int, k: int, c: nat)
    requires Same(a, i, b, j, k) && c < k
    ensures 0 <= i + c < |a| && 0 <= j + c < |b| && a[i + c] == b[j + c]
  {
    assert a[i..i + k][c] == b[j..j + k][c];
  }

  lemma SliceOfSlice(a: seq<int>, i: nat, k: nat, c: nat, d: nat)
    requires i + k <= |a| && c + d <= k
    ensures a[i..i + k][c..c + d] == a[i + c..i + c + d]
  {
    var x, y := a[i..i + k][c..c + d], a[i + c..i + c + d];
    assert forall e :: 0 <= e < d ==> x[e] == y[e];
  }

  lemma SameSub(a: seq<int>, i: int, b: seq<int>, j: int, k: int, c: nat, d: nat)
    requires Same(a, i, b, j, k) && c + d <= k
    ensures Same(a, i + c, b, j + c, d)
  {
    SliceOfSlice(a, i, k, c, d);
    SliceOfSlice(b, j, k, c, d);
  }

  lemma SameGlue(a: seq<int>, i: int, b: seq<int>, j: int, k: int, l: int)
    requires Same(a, i, b, j, k) && Same(a, i + k, b, j + k, l)
    ensures Same(a, i, b, j, k + l)
  {
    assert a[i..i + (k + l)] == a[i..i + k] + a[i + k..i + k + l];
    assert b[j..j + (k + l)] == b[j..j + k] + b[j + k..j + k + l];
  }

  lemma SameTrans(a: seq<int>, i: int, b: seq<int>, j: int, c: seq<int>, l: int, k: int)
    requires Same(a, i, b, j, k) && Same(b, j, c, l, k)
    ensures Same(a, i, c, l, k)
  {
  }

  lemma SameRefl(a: seq<int>, i: int, k: int)
    requires 0 <= i && 0 <= k && i + k <= |a|
    ensures Same(a, i, a, i, k)
  {
  }

  lemma SameFlip(a: seq<int>, i: int, b: seq<int>, j: int, k: int)
    requires Same(a, i, b, j, k)
    ensures Same(b, j, a, i, k)
  {
  }

  /** The words from p up to limit form a chain of whole blocks. */
  predicate Parsed(vec: seq<int>, p: int, limit: int)
    decreases limit - p
  {
    && 0 <= p <= limit <= |vec|
    && (p == limit ||
        (p + HEADER <= limit && vec[p + 2] >= 0 && Parsed(vec, p + BlockCells(vec[p + 2]), limit)))
  }

  /** The block boundaries, limit excluded. */
  function Starts(vec: seq<int>, p: int, limit: int): (s: seq<int>)
    requires Parsed(vec, p, limit)
    decreases limit - p
  {
    if p == limit then [] else [p] + Starts(vec, p + BlockCells(vec[p + 2]), limit)
  }

  /** The blocks that are linked to a node, packed together in their order. */
  function Kept(vec: seq<int>, p: int, limit: int): (s: seq<int>)
    requires Parsed(vec, p, limit)
    decreases limit - p
  {
    if p == limit then []
    else
      var next := p + BlockCells(vec[p + 2]);
      assert Parsed(vec, next, limit);
      (if vec[p] != NIL then vec[p..next] else []) + Kept(vec, next, limit)
  }

  /** Where the block at s ends up when the linked blocks are packed. */
  function NewStart(vec: seq<int>, limit: int, s: int): int
    requires Parsed(vec, 0, limit) && Parsed(vec, s, limit)
  {
    |Kept(vec, 0, limit)| - |Kept(vec, s, limit)|
  }

  lemma {:induction false} StartsAreParsed(vec: seq<int>, p: int, limit: int, s: int)
    requires Parsed(vec, p, limit) && s in Starts(vec, p, limit)
    ensures p <= s && s + HEADER <= limit && vec[s + 2] >= 0 && Parsed(vec, s, limit)
    ensures s + BlockCells(vec[s + 2]) <= limit && Parsed(vec, s + BlockCells(vec[s + 2]), limit)
    decreases limit - p
  {
    hide BlockCells, PayloadCells;
    if s != p {
      StartsAreParsed(vec, p + BlockCells(vec[p + 2]), limit, s);
    }
  }

  /** Two blocks do not overlap. */
  lemma {:induction false} StartsApart(vec: seq<int>, p: int, limit: int, s: int, t: int)
    requires Parsed(vec, p, limit) && s in Starts(vec, p, limit) && t in Starts(vec, p, limit) && s < t
    ensures 0 <= s && s + 2 < |vec| && vec[s + 2] >= 0 && s + BlockCells(vec[s + 2]) <= t
    decreases limit - p
  {
    hide BlockCells, PayloadCells;
    var next := p + BlockCells(vec[p + 2]);
    StartsAreParsed(vec, p, limit, s);
    StartsAreParsed(vec, p, limit, t);
    if s == p {
      StartsAreParsed(vec, next, limit, t);
    } else {
      StartsApart(vec, next, limit, s, t);
    }
  }

  /** The parse depends on nothing but the size words. */
  lemma {:induction false} SameParse(vec: seq<int>, vec': seq<int>, p: int, limit: int)
    requires Parsed(vec, p, limit) && |vec'| == |vec|
    requires forall s :: s in Starts(vec, p, limit) ==> 0 <= s && s + 2 < |vec| && vec'[s + 2] == vec[s + 2]
    ensures Parsed(vec', p, limit) && Starts(vec', p, limit) == Starts(vec, p, limit)
    decreases limit - p
  {
    hide BlockCells, PayloadCells;
    if p < limit {
      var next := p + BlockCells(vec[p + 2]);
      var starts := Starts(vec, p, limit);
      assert starts == [p] + Starts(vec, next, limit);
      assert p in starts;
      assert forall s :: s in Starts(vec, next, limit) ==> s in starts;
      SameParse(vec, vec', next, limit);
    }
  }

  lemma {:induction false} KeptShrinks(vec: seq<int>, p: int, limit: int)
    requires Parsed(vec, p, limit)
    ensures |Kept(vec, p, limit)| <= limit - p
    decreases limit - p
  {
    hide BlockCells, PayloadCells;
    if p < limit {
      KeptShrinks(vec, p + BlockCells(vec[p + 2]), limit);
    }
  }

  /** What packing does with the first block. */
  lemma KeptStep(vec: seq<int>, p: int, limit: int)
    requires Parsed(vec, p, limit) && p < limit
    ensures 0 <= p && p + 2 < |vec| && vec[p + 2] >= 0
    ensures
      var k := BlockCells(vec[p + 2]);
      var kept := Kept(vec, p, limit);
      && Parsed(vec, p + k, limit)
      && var rest := Kept(vec, p + k, limit);
      && (vec[p] == NIL ==> kept == rest)
      && (vec[p] != NIL ==>
            |kept| == k + |rest| && Same(kept, 0, vec, p, k) && Same(kept, k, rest, 0, |rest|))
  {
    hide BlockCells, PayloadCells;
  }

  /** A suffix of the blocks is packed into a suffix of the packed blocks. */
  lemma {:induction false} KeptSuffix(vec: seq<int>, p: int, limit: int, s: int)
    requires Parsed(vec, p, limit) && (s in Starts(vec, p, limit) || s == limit)
    ensures Parsed(vec, s, limit) && |Kept(vec, s, limit)| <= |Kept(vec, p, limit)|
    ensures
      var kp, ks := Kept(vec, p, limit), Kept(vec, s, limit);
      Same(kp, |kp| - |ks|, ks, 0, |ks|)
    decreases limit - p
  {
    hide BlockCells, PayloadCells, Kept, Same;
    if s != p {
      var next := p + BlockCells(vec[p + 2]);
      KeptStep(vec, p, limit);
      KeptSuffix(vec, next, limit, s);
      var kp, kn, ks := Kept(vec, p, limit), Kept(vec, next, limit), Kept(vec, s, limit);
      if vec[p] != NIL {
        SameSub(kp, |kp| - |kn|, kn, 0, |kn|, |kn| - |ks|, |ks|);
        SameTrans(kp, |kp| - |ks|, kn, |kn| - |ks|, ks, 0, |ks|);
      }
    } else {
      SameRefl(Kept(vec, p, limit), 0, |Kept(vec, p, limit)|);
    }
  }

  /** A linked block is found, unchanged, at its new start. */
  lemma KeptBlock(vec: seq<int>, limit: int, s: int)
    requires Parsed(vec, 0, limit) && s in Starts(vec, 0, limit)
    ensures s >= 0 && s + HEADER <= limit && vec[s + 2] >= 0 && Parsed(vec, s, limit)
    ensures s + BlockCells(vec[s + 2]) <= limit
    ensures vec[s] != NIL ==>
              Same(Kept(vec, 0, limit), NewStart(vec, limit, s), vec, s, BlockCells(vec[s + 2]))
  {
    hide BlockCells, PayloadCells, Kept, Same;
    StartsAreParsed(vec, 0, limit, s);
    KeptSuffix(vec, 0, limit, s);
    if vec[s] != NIL {
      var k := BlockCells(vec[s + 2]);
      KeptStep(vec, s, limit);
      var kept, ks := Kept(vec, 0, limit), Kept(vec, s, limit);
      SameSub(kept, NewStart(vec, limit, s), ks, 0, |ks|, 0, k);
      SameTrans(kept, NewStart(vec, limit, s), ks, 0, vec, s, k);
    }
  }

  /** Packed blocks parse again; their starts are the new starts of the linked blocks, in order. */
  lemma {:induction false} KeptParses(vec: seq<int>, p: int, limit: int, all: seq<int>, to: int)
    requires Parsed(vec, p, limit)
    requires Same(all, to, Kept(vec, p, limit), 0, |Kept(vec, p, limit)|)
    ensures Parsed(all, to, to + |Kept(vec, p, limit)|)
    ensures Starts(all, to, to + |Kept(vec, p, limit)|) == Relocated(vec, p, limit, to)
    decreases limit - p
  {
    hide BlockCells, PayloadCells, Kept, Same;
    assert 0 <= to <= to + |Kept(vec, p, limit)| <= |all| by {
      SameBounds(all, to, Kept(vec, p, limit), 0, |Kept(vec, p, limit)|);
    }
    if p < limit {
      KeptStep(vec, p, limit);
      var next := p + BlockCells(vec[p + 2]);
      var kept := Kept(vec, p, limit);
      var rest := Kept(vec, next, limit);
      if vec[p] != NIL {
        var k := BlockCells(vec[p + 2]);
        SameAt(all, to, kept, 0, |kept|, 2);
        SameAt(kept, 0, vec, p, k, 2);
        SameSub(all, to, kept, 0, |kept|, k, |rest|);
        SameTrans(all, to + k, kept, k, rest, 0, |rest|);
        KeptParses(vec, next, limit, all, to + k);
      } else {
        KeptParses(vec, next, limit, all, to);
      }
    } else {
      KeptNone(vec, limit);
    }
  }

  lemma KeptNone(vec: seq<int>, limit: int)
    requires Parsed(vec, limit, limit)
    ensures Kept(vec, limit, limit) == []
  {
  }

  lemma SameBounds(a: seq<int>, i: int, b: seq<int>, j: int, k: int)
    requires Same(a, i, b, j, k)
    ensures 0 <= k && 0 <= i && i + k <= |a| && 0 <= j && j + k <= |b|
  {
  }

  /** The new starts of the linked blocks from p on, when the first goes to `to`. */
  function Relocated(vec: seq<int>, p: int, limit: int, to: int): seq<int>
    requires Parsed(vec, p, limit)
    decreases limit - p
  {
    if p == limit then []
    else if vec[p] == NIL then Relocated(vec, p + BlockCells(vec[p + 2]), limit, to)
    else [to] + Relocated(vec, p + BlockCells(vec[p + 2]), limit, to + BlockCells(vec[p + 2]))
  }

  lemma {:induction false} RelocatedStarts(vec: seq<int>, p: int, limit: int, to: int, s: int)
    requires Parsed(vec, p, limit) && s in Starts(vec, p, limit)
    requires 0 <= s < |vec| && vec[s] != NIL
    ensures Parsed(vec, s, limit)
    ensures to + |Kept(vec, p, limit)| - |Kept(vec, s, limit)| in Relocated(vec, p, limit, to)
    decreases limit - p
  {
    hide BlockCells, PayloadCells, Kept;
    var next := p + BlockCells(vec[p + 2]);
    StartsAreParsed(vec, p, limit, s);
    KeptStep(vec, p, limit);
    if s != p {
      assert s in Starts(vec, next, limit);
      var to' := if vec[p] == NIL then to else to + BlockCells(vec[p + 2]);
      assert to + |Kept(vec, p, limit)| == to' + |Kept(vec, next, limit)|;
      RelocatedStarts(vec, next, limit, to', s);
    }
  }

  lemma {:induction false} RelocatedOrigin(vec: seq<int>, p: int, limit: int, to: int, s: int) returns (t: int)
    requires Parsed(vec, p, limit) && s in Relocated(vec, p, limit, to)
    ensures t in Starts(vec, p, limit) && 0 <= t < |vec| && vec[t] != NIL && Parsed(vec, t, limit)
    ensures s == to + |Kept(vec, p, limit)| - |Kept(vec, t, limit)|
    decreases limit - p
  {
    hide BlockCells, PayloadCells;
    var next := p + BlockCells(vec[p + 2]);
    assert Starts(vec, p, limit) == [p] + Starts(vec, next, limit);
    if vec[p] == NIL {
      t := RelocatedOrigin(vec, next, limit, to, s);
    } else if s == to {
      t := p;
    } else {
      t := RelocatedOrigin(vec, next, limit, to + BlockCells(vec[p + 2]), s);
    }
  }

  lemma {:induction false} LaterStart(vec: seq<int>, p: int, limit: int, s: int, t: int)
    requires Parsed(vec, p, limit) && s in Starts(vec, p, limit) && t in Starts(vec, p, limit) && s < t
    ensures 0 <= s && s + 2 < |vec| && vec[s + 2] >= 0 && Parsed(vec, s + BlockCells(vec[s + 2]), limit)
    ensures t in Starts(vec, s + BlockCells(vec[s + 2]), limit)
    decreases limit - p
  {
    hide BlockCells, PayloadCells;
    var next := p + BlockCells(vec[p + 2]);
    StartsAreParsed(vec, p, limit, s);
    StartsAreParsed(vec, p, limit, t);
    assert Starts(vec, p, limit) == [p] + Starts(vec, next, limit);
    if s != p {
      StartsAreParsed(vec, next, limit, s);
      LaterStart(vec, next, limit, s, t);
    }
  }

  /** Packing keeps the order of the blocks. */
  lemma NewStartsAscend(vec: seq<int>, limit: int, s: int, t: int)
    requires Parsed(vec, 0, limit) && s in Starts(vec, 0, limit) && t in Starts(vec, 0, limit) && s < t
    requires 0 <= s < |vec| && vec[s] != NIL
    ensures Parsed(vec, s, limit) && Parsed(vec, t, limit) && NewStart(vec, limit, s) < NewStart(vec, limit, t)
  {
    hide BlockCells, PayloadCells;
    StartsAreParsed(vec, 0, limit, s);
    LaterStart(vec, 0, limit, s, t);
    KeptSuffix(vec, s + BlockCells(vec[s + 2]), limit, t);
  }
}
