/** In-place compaction of the vector pool of S9core. */
module PoolCompaction {
  import opened Marking
  import opened PointerReversal
  import opened PoolMarking
  import opened VectorPool
  import opened FreeLists

  // ---------------------------------------------------------------- the vector pool

  /** The words below limit are whole blocks, and every live vector owns one of them. */
  ghost predicate PoolOk(m: Mem, live: set<int>, limit: int)
    requires Sound(m, live)
  {
    && Parsed(m.vec, 0, limit)
    && (forall x :: x in live && m.tag[x].vector ==> m.cdr[x] - 3 in Starts(m.vec, 0, limit))
  }

  /** The link word of every block is NIL, nothing else is changed. */
  ghost predicate Unlinked(vec: seq<int>, limit: int, vec': seq<int>)
    requires Parsed(vec, 0, limit)
  {
    && |vec'| == |vec|
    && (forall a :: 0 <= a < |vec| ==> vec'[a] == if a in Starts(vec, 0, limit) then NIL else vec[a])
  }

  lemma UnlinkedSizes(vec: seq<int>, limit: int, vec': seq<int>)
    requires Parsed(vec, 0, limit) && Unlinked(vec, limit, vec')
    ensures Parsed(vec', 0, limit) && Starts(vec', 0, limit) == Starts(vec, 0, limit)
  {
    forall s | s in Starts(vec, 0, limit)
      ensures 0 <= s && s + 2 < |vec| && vec'[s + 2] == vec[s + 2]
    {
      StartsAreParsed(vec, 0, limit, s);
      if s + 2 in Starts(vec, 0, limit) {
        StartsApart(vec, 0, limit, s, s + 2);
      }
    }
    SameParse(vec, vec', 0, limit);
  }

  /** Unlinking touches no payload and no size word. */
  lemma UnlinkedNode(m: Mem, live: set<int>, limit: int, m1: Mem, x: int)
    requires Sound(m, live) && PoolOk(m, live, limit) && Unlinked(m.vec, limit, m1.vec) && m1 == m.(vec := m1.vec)
    requires x in live && m.tag[x].vector
    ensures OwnsBlock(m, x) && OwnsBlock(m1, x)
    ensures m1.vec[m.cdr[x] - 1] == m.vec[m.cdr[x] - 1] && Payload(m1, x) == Payload(m, x)
    ensures m1.vec[m.cdr[x] - 3] == NIL
  {
    var s := m.cdr[x] - 3;
    assert OwnsBlock(m, x);
    forall a | s < a < s + BlockCells(m.vec[s + 2]) ensures a !in Starts(m.vec, 0, limit) {
      if a in Starts(m.vec, 0, limit) {
        StartsApart(m.vec, 0, limit, s, a);
      }
    }
    assert m1.vec[s + 2] == m.vec[s + 2];
    assert Payload(m1, x) == Payload(m, x);
  }

  lemma UnlinkedSound(m: Mem, live: set<int>, limit: int, m1: Mem)
    requires Quiet(NIL, m, live) && PoolOk(m, live, limit) && Unlinked(m.vec, limit, m1.vec) && m1 == m.(vec := m1.vec)
    ensures Quiet(NIL, m1, live) && PoolOk(m1, live, limit) && GraphOf(m1, live) == GraphOf(m, live)
    ensures forall x :: x in live ==> Preserved(m, m1, x)
  {
    UnlinkedSizes(m.vec, limit, m1.vec);
    forall x | x in live ensures Preserved(m, m1, x) && Slots(m1, x) == Slots(m, x) {
      if m.tag[x].vector {
        UnlinkedNode(m, live, limit, m1, x);
      }
    }
    PreservedSound(m, live, m1);
    assert GraphOf(m1, live) == GraphOf(m, live);
  }

  /** Soundness carries over to a memory that preserves every live node and keeps the blocks where they are. */
  lemma PreservedSound(m: Mem, live: set<int>, m2: Mem)
    requires Quiet(NIL, m, live) && Sized(m2) && |m2.car| == |m.car| && m2.cdr == m.cdr && m2.tag == m.tag
    requires forall x :: x in live ==> Preserved(m, m2, x)
    ensures Quiet(NIL, m2, live)
  {
    forall x | x in live
      ensures Slots(m2, x) == Slots(m, x) && (m2.tag[x].vector ==> OwnsBlock(m2, x))
    {
      PreservedSlots(m, m2, x);
    }
    forall x, y | x in live && y in live && x != y && m2.tag[x].vector && m2.tag[y].vector
      ensures Apart(m2, x, y)
    {
      assert Preserved(m, m2, x) && Preserved(m, m2, y);
      assert Apart(m, x, y);
    }
  }

  // ---------------------------------------------------------------- compaction

  /** The vectors in vs are exactly the linked blocks, and every link leads back to its node. */
  ghost predicate LinkedBlocks(m: Mem, limit: int, vs: set<int>) {
    && Sized(m) && Parsed(m.vec, 0, limit)
    && (forall s :: s in Starts(m.vec, 0, limit) && 0 <= s < |m.vec| && m.vec[s] != NIL ==>
          m.vec[s] in vs && 0 <= m.vec[s] < |m.cdr| && m.cdr[m.vec[s]] == s + 3)
    && (forall x :: x in vs ==> 0 <= x < |m.cdr| && m.cdr[x] - 3 in Starts(m.vec, 0, limit))
    && (forall x :: x in vs ==> 0 <= m.cdr[x] - 3 < |m.vec| && m.vec[m.cdr[x] - 3] == x)
  }

  /** Where the content of vector x is once all blocks below `from` have been moved. */
  ghost function MovedTo(m: Mem, limit: int, vs: set<int>, from: int, x: int): int
    requires LinkedBlocks(m, limit, vs) && x in vs
  {
    StartsAreParsed(m.vec, 0, limit, m.cdr[x] - 3);
    if m.cdr[x] - 3 < from then NewStart(m.vec, limit, m.cdr[x] - 3) + 3 else m.cdr[x]
  }

  /** The words below `to` are the linked blocks below `from`, packed. */
  ghost predicate Packing(m: Mem, limit: int, from: int, to: int, vec: seq<int>)
    requires Parsed(m.vec, 0, limit) && Parsed(m.vec, from, limit) && 0 <= to <= |vec|
  {
    && to + |Kept(m.vec, from, limit)| == |Kept(m.vec, 0, limit)|
    && Same(vec, 0, Kept(m.vec, 0, limit), 0, to)
    && Same(Kept(m.vec, 0, limit), to, Kept(m.vec, from, limit), 0, |Kept(m.vec, from, limit)|)
  }

  /** The pool while the block at `from` is about to be looked at and moved to `to`. */
  ghost predicate Compacting(m: Mem, limit: int, vs: set<int>, from: int, to: int, cdr: seq<int>, vec: seq<int>)
    requires LinkedBlocks(m, limit, vs)
  {
    && 0 <= to <= from && Parsed(m.vec, from, limit) && (from in Starts(m.vec, 0, limit) || from == limit)
    && |vec| == |m.vec| && |cdr| == |m.cdr|
    && Same(vec, from, m.vec, from, |vec| - from)
    && Packing(m, limit, from, to, vec)
    && (forall x :: 0 <= x < |cdr| && x !in vs ==> cdr[x] == m.cdr[x])
    && (forall x :: x in vs ==> cdr[x] == MovedTo(m, limit, vs, from, x))
  }

  lemma CompactInit(m: Mem, limit: int, vs: set<int>)
    requires LinkedBlocks(m, limit, vs)
    ensures 0 <= limit && Compacting(m, limit, vs, 0, 0, m.cdr, m.vec)
  {
    hide Kept, BlockCells, NewStart;
    assert 0 < limit ==> Starts(m.vec, 0, limit)[0] == 0;
    forall x | x in vs ensures MovedTo(m, limit, vs, 0, x) == m.cdr[x] {
      StartsAreParsed(m.vec, 0, limit, m.cdr[x] - 3);
    }
  }

  lemma {:induction false} NextStart(vec: seq<int>, p: int, limit: int, s: int)
    requires Parsed(vec, p, limit) && s in Starts(vec, p, limit)
    ensures 0 <= s && s + 2 < |vec| && vec[s + 2] >= 0
    ensures
      var next := s + BlockCells(vec[s + 2]);
      Parsed(vec, next, limit) && (next in Starts(vec, p, limit) || next == limit)
    decreases limit - p
  {
    hide BlockCells;
    StartsAreParsed(vec, p, limit, s);
    var n := p + BlockCells(vec[p + 2]);
    assert Starts(vec, p, limit) == [p] + Starts(vec, n, limit);
    if s == p {
      if n != limit {
        assert Starts(vec, n, limit)[0] == n;
      }
    } else {
      NextStart(vec, n, limit, s);
    }
  }

  lemma LinkedOwnerOf(m: Mem, limit: int, vs: set<int>, t: int)
    requires LinkedBlocks(m, limit, vs)
    requires Parsed(m.vec, 0, limit) && t in Starts(m.vec, 0, limit) && 0 <= t < |m.vec| && m.vec[t] != NIL
    ensures m.vec[t] in vs && 0 <= m.vec[t] < |m.cdr| && m.cdr[m.vec[t]] == t + 3
  {
  }

  /** What the compactor reads at `from`. */
  lemma CompactAt(m: Mem, limit: int, vs: set<int>, from: int, to: int, cdr: seq<int>, vec: seq<int>)
    requires LinkedBlocks(m, limit, vs) && Compacting(m, limit, vs, from, to, cdr, vec) && from < limit
    ensures from in Starts(m.vec, 0, limit) && 0 <= to <= from && from + 2 < |vec| && |vec| == |m.vec| >= limit
    ensures vec[from] == m.vec[from] && vec[from + 2] == m.vec[from + 2] >= 0
    ensures
      var next := from + BlockCells(m.vec[from + 2]);
      next <= limit && Parsed(m.vec, next, limit) && (next in Starts(m.vec, 0, limit) || next == limit)
    ensures vec[from] != NIL ==>
              vec[from] in vs && 0 <= vec[from] < |cdr| && |cdr| == |m.cdr| && m.cdr[vec[from]] == from + 3
              && cdr[vec[from]] == from + 3
  {
    hide BlockCells, Kept, Same, Starts, Parsed, LinkedBlocks, Compacting;
    CompactBounds(m, limit, vs, from, to, cdr, vec);
    NextStart(m.vec, 0, limit, from);
    StartsAreParsed(m.vec, 0, limit, from);
    SameAt(vec, from, m.vec, from, |vec| - from, 0);
    SameAt(vec, from, m.vec, from, |vec| - from, 2);
    if vec[from] != NIL {
      LinkedOwnerOf(m, limit, vs, from);
      UnmovedTarget(m, limit, vs, from, to, cdr, vec, vec[from]);
    }
  }

  lemma CompactBounds(m: Mem, limit: int, vs: set<int>, from: int, to: int, cdr: seq<int>, vec: seq<int>)
    requires LinkedBlocks(m, limit, vs) && Compacting(m, limit, vs, from, to, cdr, vec)
    ensures Sized(m) && 0 <= to <= from && (from == limit || from in Starts(m.vec, 0, limit))
    ensures Parsed(m.vec, 0, limit) && limit <= |m.vec| == |vec| && |cdr| == |m.cdr|
    ensures Same(vec, from, m.vec, from, |vec| - from)
  {
  }

  lemma UnmovedTarget(m: Mem, limit: int, vs: set<int>, from: int, to: int, cdr: seq<int>, vec: seq<int>, x: int)
    requires LinkedBlocks(m, limit, vs) && Compacting(m, limit, vs, from, to, cdr, vec) && x in vs
    requires 0 <= x < |m.cdr| && m.cdr[x] == from + 3
    ensures |cdr| == |m.cdr| && cdr[x] == from + 3
  {
    assert cdr[x] == MovedTo(m, limit, vs, from, x);
  }

  /** No other start lies inside the block at from. */
  lemma OnlyStart(m: Mem, limit: int, vs: set<int>, from: int, x: int)
    requires LinkedBlocks(m, limit, vs) && from in Starts(m.vec, 0, limit) && x in vs
    requires 0 <= from && from + 2 < |m.vec| && m.vec[from + 2] >= 0
    requires from <= m.cdr[x] - 3 < from + BlockCells(m.vec[from + 2])
    ensures m.cdr[x] - 3 == from
  {
    hide BlockCells;
    if m.cdr[x] - 3 != from {
      StartsApart(m.vec, 0, limit, from, m.cdr[x] - 3);
    }
  }

  lemma CompactDrop(m: Mem, limit: int, vs: set<int>, from: int, to: int, cdr: seq<int>, vec: seq<int>)
    requires LinkedBlocks(m, limit, vs) && Compacting(m, limit, vs, from, to, cdr, vec) && from < limit
    requires m.vec[from] == NIL
    ensures m.vec[from + 2] >= 0
    ensures Compacting(m, limit, vs, from + BlockCells(m.vec[from + 2]), to, cdr, vec)
  {
    hide BlockCells, NewStart, Starts, Kept, Same, Parsed;
    CompactBounds(m, limit, vs, from, to, cdr, vec);
    CompactAt(m, limit, vs, from, to, cdr, vec);
    var next := from + BlockCells(m.vec[from + 2]);
    KeptStep(m.vec, from, limit);
    SameSub(vec, from, m.vec, from, |vec| - from, next - from, |vec| - next);
    forall x | x in vs ensures MovedTo(m, limit, vs, next, x) == MovedTo(m, limit, vs, from, x) {
      DropKeeps(m, limit, vs, from, x);
    }
  }

  lemma DropKeeps(m: Mem, limit: int, vs: set<int>, from: int, x: int)
    requires LinkedBlocks(m, limit, vs) && x in vs && from in Starts(m.vec, 0, limit)
    requires 0 <= from && from + 2 < |m.vec| && m.vec[from] == NIL && m.vec[from + 2] >= 0
    ensures MovedTo(m, limit, vs, from + BlockCells(m.vec[from + 2]), x) == MovedTo(m, limit, vs, from, x)
  {
    hide BlockCells, NewStart, Starts, Kept, Parsed;
    StartsAreParsed(m.vec, 0, limit, m.cdr[x] - 3);
    if from <= m.cdr[x] - 3 < from + BlockCells(m.vec[from + 2]) {
      OnlyStart(m, limit, vs, from, x);
    }
  }

  /** k words have been copied down from `from` to `to`; what is below and what is above is unchanged. */
  ghost predicate BlockMoved(from: int, to: int, k: int, vec: seq<int>, vec': seq<int>) {
    && 0 <= to <= from && 0 <= k && from + k <= |vec| == |vec'|
    && Same(vec', 0, vec, 0, to)
    && Same(vec', to, vec, from, k)
    && Same(vec', from + k, vec, from + k, |vec| - from - k)
  }

  lemma LinkMoved(from: int, to: int, k: int, vec: seq<int>, vec': seq<int>)
    requires BlockMoved(from, to, k, vec, vec') && k > 0
    ensures 0 <= to < |vec'| && 0 <= from < |vec| && vec'[to] == vec[from]
  {
    SameAt(vec', to, vec, from, k, 0);
  }

  lemma BlockStays(from: int, k: int, vec: seq<int>)
    requires 0 <= from && 0 <= k && from + k <= |vec|
    ensures BlockMoved(from, from, k, vec, vec)
  {
  }

  lemma CompactMove(m: Mem, limit: int, vs: set<int>, from: int, to: int, cdr: seq<int>, vec: seq<int>, vec': seq<int>)
    requires LinkedBlocks(m, limit, vs) && Compacting(m, limit, vs, from, to, cdr, vec) && from < limit
    requires m.vec[from] != NIL && m.vec[from + 2] >= 0 && 0 <= from + BlockCells(m.vec[from + 2]) <= |vec|
    requires BlockMoved(from, to, BlockCells(m.vec[from + 2]), vec, vec')
    ensures 0 <= m.vec[from] < |cdr|
    ensures
      var k := BlockCells(m.vec[from + 2]);
      Compacting(m, limit, vs, from + k, to + k, cdr[m.vec[from] := to + 3], vec')
  {
    hide BlockCells, Kept, NewStart, Parsed, Starts, Same, Packing, BlockMoved;
    CompactAt(m, limit, vs, from, to, cdr, vec);
    var k := BlockCells(m.vec[from + 2]);
    var next := from + k;
    var y := m.vec[from];
    MoveVec(m, limit, from, to, vec, vec');
    forall x | x in vs
      ensures cdr[y := to + 3][x] == MovedTo(m, limit, vs, next, x)
    {
      StartsAreParsed(m.vec, 0, limit, m.cdr[x] - 3);
      if x == y {
        MoveTarget(m, limit, from, to, vec);
      } else if from <= m.cdr[x] - 3 < next {
        OnlyStart(m, limit, vs, from, x);
      }
    }
  }

  lemma MoveTarget(m: Mem, limit: int, from: int, to: int, vec: seq<int>)
    requires Parsed(m.vec, 0, limit) && Parsed(m.vec, from, limit) && 0 <= to <= |vec|
    requires Packing(m, limit, from, to, vec)
    ensures NewStart(m.vec, limit, from) == to
  {
  }

  lemma MoveVec(m: Mem, limit: int, from: int, to: int, vec: seq<int>, vec': seq<int>)
    requires Parsed(m.vec, 0, limit) && Parsed(m.vec, from, limit) && from < limit && 0 <= to <= from
    requires |vec| == |m.vec| && Packing(m, limit, from, to, vec)
    requires Same(vec, from, m.vec, from, |vec| - from)
    requires m.vec[from] != NIL && m.vec[from + 2] >= 0 && 0 <= from + BlockCells(m.vec[from + 2]) <= |vec|
    requires BlockMoved(from, to, BlockCells(m.vec[from + 2]), vec, vec')
    ensures
      var k := BlockCells(m.vec[from + 2]);
      && Parsed(m.vec, from + k, limit)
      && |vec'| == |vec| && Same(vec', from + k, m.vec, from + k, |vec'| - from - k)
      && Packing(m, limit, from + k, to + k, vec')
  {
    hide BlockCells, Kept, Parsed, Same;
    KeptStep(m.vec, from, limit);
    var k := BlockCells(m.vec[from + 2]);
    var all, kept, rest := Kept(m.vec, 0, limit), Kept(m.vec, from, limit), Kept(m.vec, from + k, limit);
    var n := |vec|;
    // what is above the block
    SameSub(vec, from, m.vec, from, n - from, k, n - from - k);
    SameTrans(vec', from + k, vec, from + k, m.vec, from + k, n - from - k);
    // the rest of the packed blocks
    SameSub(all, to, kept, 0, |kept|, k, |rest|);
    SameTrans(all, to + k, kept, k, rest, 0, |rest|);
    // the block itself
    SameTrans(vec', 0, vec, 0, all, 0, to);
    SameSub(vec, from, m.vec, from, n - from, 0, k);
    SameTrans(vec', to, vec, from, m.vec, from, k);
    SameSub(all, to, kept, 0, |kept|, 0, k);
    SameTrans(all, to, kept, 0, m.vec, from, k);
    SameFlip(all, to, m.vec, from, k);
    SameTrans(vec', to, m.vec, from, all, to, k);
    SameGlue(vec', 0, all, 0, to, k);
  }

  /** The vector pool after compaction: no block without a reachable owner, order kept, contents kept. */
  ghost predicate Compacted(m: Mem, reached: set<int>, limit: int, m2: Mem, limit2: int)
    requires Sized(m)
  {
    && Sized(m2) && |m2.car| == |m.car| && 0 <= limit2 <= limit && Parsed(m2.vec, 0, limit2)
    && (forall x :: x in reached ==> Preserved(m, m2, x))
    && (forall x :: x in reached && m.tag[x].vector ==> m2.cdr[x] - 3 in Starts(m2.vec, 0, limit2))
    && (forall s :: s in Starts(m2.vec, 0, limit2) ==> OwnedStart(m2, reached, s))
    && (forall x, y :: x in reached && y in reached && m.tag[x].vector && m.tag[y].vector && m.cdr[x] < m.cdr[y] ==>
          m2.cdr[x] < m2.cdr[y])
  }

  /** The block at s is the block of a reachable vector, which its link word names. */
  ghost predicate OwnedStart(m: Mem, reached: set<int>, s: int)
    requires Sized(m)
  {
    && 0 <= s < |m.vec| && m.vec[s] in reached && 0 <= m.vec[s] < |m.car|
    && m.tag[m.vec[s]].vector && m.cdr[m.vec[s]] == s + 3
  }

  ghost function Vectors(m: Mem, s: set<int>): (v: set<int>)
    requires Sized(m)
  {
    set x | x in s && 0 <= x < |m.tag| && m.tag[x].vector
  }

  /** After a collection that started from unlinked blocks, exactly the reachable vectors are linked. */
  lemma CollectedLinked(m: Mem, live: set<int>, roots: seq<int>, limit: int, m1: Mem, head: int, chain: seq<int>)
    requires Quiet(NIL, m, live) && PoolOk(m, live, limit) && RootsIn(NIL, m, roots, live)
    requires forall s :: s in Starts(m.vec, 0, limit) ==> 0 <= s < |m.vec| && m.vec[s] == NIL
    requires Collected(NIL, m, live, roots, m1, head, chain)
    ensures LinkedBlocks(m1, limit, Vectors(m, Reached(m, live, roots)))
    ensures Starts(m1.vec, 0, limit) == Starts(m.vec, 0, limit)
  {
    hide GraphOf, FreeChain, Descending, ReachAny, Parsed, Starts, RefsIn, NoState, BlockCells;
    hide OwnsBlock, Apart, Slots, Header;
    ReachedLive(NIL, m, live, roots);
    var vs := Vectors(m, Reached(m, live, roots));
    assert Parsed(m.vec, 0, limit) && limit <= |m.vec| by { ParsedBounds(m, live, limit); }
    forall s | s in Starts(m.vec, 0, limit)
      ensures 0 <= s && s + 2 < |m.vec| && m1.vec[s + 2] == m.vec[s + 2]
    {
      StartsAreParsed(m.vec, 0, limit, s);
      StartSizeNotHeader(m, live, limit, s);
    }
    SameParse(m.vec, m1.vec, 0, limit);
    forall s | s in Starts(m.vec, 0, limit) && m1.vec[s] != NIL
      ensures m1.vec[s] in vs && 0 <= m1.vec[s] < |m1.cdr| && m1.cdr[m1.vec[s]] == s + 3
    {
      LinkedOwner(m, live, roots, limit, m1, head, chain, s);
    }
    forall x | x in vs
      ensures 0 <= x < |m1.cdr| && m1.cdr[x] - 3 in Starts(m.vec, 0, limit) && m1.vec[m1.cdr[x] - 3] == x
    {
      assert LinkAt(m, live, m1.vec, x) == x;
    }
  }

  lemma ParsedBounds(m: Mem, live: set<int>, limit: int)
    requires Sound(m, live) && PoolOk(m, live, limit)
    ensures Parsed(m.vec, 0, limit) && 0 <= limit <= |m.vec|
  {
  }

  lemma StartSizeNotHeader(m: Mem, live: set<int>, limit: int, s: int)
    requires Sound(m, live) && PoolOk(m, live, limit) && s in Starts(m.vec, 0, limit)
    ensures !Header(m, live, s + 2)
  {
    if x :| x in live && m.tag[x].vector && (s + 2 == m.cdr[x] - 3 || s + 2 == m.cdr[x] - 2) {
      var t := m.cdr[x] - 3;
      if s < t {
        StartsApart(m.vec, 0, limit, s, t);
      } else {
        StartsApart(m.vec, 0, limit, t, s);
      }
    }
  }

  lemma LinkedOwner(m: Mem, live: set<int>, roots: seq<int>, limit: int, m1: Mem, head: int, chain: seq<int>, s: int)
    requires Quiet(NIL, m, live) && PoolOk(m, live, limit) && RootsIn(NIL, m, roots, live)
    requires s in Starts(m.vec, 0, limit) && 0 <= s < |m.vec| && m.vec[s] == NIL
    requires Collected(NIL, m, live, roots, m1, head, chain) && m1.vec[s] != NIL
    ensures m1.vec[s] in Vectors(m, Reached(m, live, roots)) && m1.cdr[m1.vec[s]] == s + 3
  {
    hide GraphOf, FreeChain, Descending, ReachAny, Parsed, Starts, RefsIn, NoState, BlockCells;
    assert Header(m, live, s);
    var x :| x in live && m.tag[x].vector && (s == m.cdr[x] - 3 || s == m.cdr[x] - 2);
    var t := m.cdr[x] - 3;
    if t < s {
      StartsApart(m.vec, 0, limit, t, s);
    }
    assert LinkAt(m, live, m1.vec, x) == m1.vec[s];
    assert LinkAt(m, live, m.vec, x) == NIL;
  }

  lemma PackedAll(m: Mem, limit: int, vs: set<int>, to: int, cdr: seq<int>, vec: seq<int>)
    requires LinkedBlocks(m, limit, vs) && Compacting(m, limit, vs, limit, to, cdr, vec)
    ensures Parsed(m.vec, 0, limit)
    ensures 0 <= to <= limit <= |vec| && to == |Kept(m.vec, 0, limit)|
    ensures Same(vec, 0, Kept(m.vec, 0, limit), 0, to)
    ensures |vec| == |m.vec| && |cdr| == |m.cdr|
  {
  }

  /** The block of x is at its new start, and the same word for word. */
  ghost predicate MovedAs(m: Mem, limit: int, to: int, cdr: seq<int>, vec: seq<int>, x: int)
    requires 0 <= x < |m.cdr| == |cdr|
  {
    var s := m.cdr[x] - 3;
    && Parsed(m.vec, 0, limit) && |vec| == |m.vec|
    && 0 <= s && s + 3 <= limit && m.vec[s] == x && m.vec[s + 2] >= 0 && Parsed(m.vec, s, limit)
    && s + BlockCells(m.vec[s + 2]) <= |m.vec|
    && var n, k := NewStart(m.vec, limit, s), BlockCells(m.vec[s + 2]);
    && 0 <= n && n + k <= to && cdr[x] == n + 3
    && Same(vec, n, m.vec, s, k)
  }

  /** A linked block is copied, word for word, to its new start. */
  lemma MovedBlock(m: Mem, limit: int, vs: set<int>, to: int, cdr: seq<int>, vec: seq<int>, x: int)
    requires LinkedBlocks(m, limit, vs) && Compacting(m, limit, vs, limit, to, cdr, vec) && x in vs
    ensures |cdr| == |m.cdr| && 0 <= x < |cdr| && MovedAs(m, limit, to, cdr, vec, x)
  {
    hide BlockCells, Kept, Compacting, LinkedBlocks, Parsed, Starts, NewStart, Same;
    LinkedStart(m, limit, vs, x);
    var s := m.cdr[x] - 3;
    PackedAll(m, limit, vs, to, cdr, vec);
    KeptBlock(m.vec, limit, s);
    MovedCdr(m, limit, vs, to, cdr, vec, x);
    var all := Kept(m.vec, 0, limit);
    var n, k := NewStart(m.vec, limit, s), BlockCells(m.vec[s + 2]);
    SameBounds(all, n, m.vec, s, k);
    SameSub(vec, 0, all, 0, to, n, k);
    SameTrans(vec, n, all, n, m.vec, s, k);
  }

  ghost predicate AtNewStart(m: Mem, limit: int, cdr: seq<int>, x: int)
    requires 0 <= x < |m.cdr| == |cdr|
  {
    var s := m.cdr[x] - 3;
    Parsed(m.vec, 0, limit) && Parsed(m.vec, s, limit) && cdr[x] == NewStart(m.vec, limit, s) + 3
  }

  lemma MovedCdr(m: Mem, limit: int, vs: set<int>, to: int, cdr: seq<int>, vec: seq<int>, x: int)
    requires LinkedBlocks(m, limit, vs) && Compacting(m, limit, vs, limit, to, cdr, vec) && x in vs
    ensures |cdr| == |m.cdr| && 0 <= x < |cdr| && AtNewStart(m, limit, cdr, x)
  {
    hide BlockCells, Kept, NewStart, Starts, Same, Packing;
    StartsAreParsed(m.vec, 0, limit, m.cdr[x] - 3);
    assert cdr[x] == MovedTo(m, limit, vs, limit, x);
  }

  /** A reachable vector after compaction: its block is at its new start, with size and payload unchanged. */
  lemma MovedVector(m: Mem, limit: int, vs: set<int>, to: int, m2: Mem, x: int)
    requires LinkedBlocks(m, limit, vs) && Compacting(m, limit, vs, limit, to, m2.cdr, m2.vec) && x in vs
    requires m2.car == m.car && m2.tag == m.tag && m.tag[x].vector
    ensures Sized(m2) && Preserved(m, m2, x)
    ensures m2.vec[m2.cdr[x] - 3] == x
    ensures Parsed(m.vec, m.cdr[x] - 3, limit) && m2.cdr[x] - 3 == NewStart(m.vec, limit, m.cdr[x] - 3)
  {
    MovedBlock(m, limit, vs, to, m2.cdr, m2.vec, x);
    hide Compacting, Kept;
    assert Sized(m) && |m2.cdr| == |m.cdr|;
    BlockContents(m, m2, x, m2.cdr[x] - 3);
  }

  lemma BlockContents(m: Mem, m2: Mem, x: int, n: int)
    requires Sized(m) && Sized(m2) && m2.car == m.car && m2.tag == m.tag && 0 <= x < |m.car| && m.tag[x].vector
    requires m2.cdr[x] == n + 3 && 0 <= n && 3 <= m.cdr[x] <= |m.vec| && m.vec[m.cdr[x] - 1] >= 0
    requires
      var s := m.cdr[x] - 3;
      var k := BlockCells(m.vec[s + 2]);
      Same(m2.vec, n, m.vec, s, k)
    ensures Preserved(m, m2, x) && m2.vec[n] == m.vec[m.cdr[x] - 3]
  {
    hide PayloadCells;
    var s := m.cdr[x] - 3;
    var k := BlockCells(m.vec[s + 2]);
    SameAt(m2.vec, n, m.vec, s, k, 0);
    SameAt(m2.vec, n, m.vec, s, k, 2);
    SameSub(m2.vec, n, m.vec, s, k, 3, k - 3);
  }

  lemma PackedStart(m: Mem, limit: int, vs: set<int>, to: int, m2: Mem, s: int)
    requires LinkedBlocks(m, limit, vs) && Compacting(m, limit, vs, limit, to, m2.cdr, m2.vec)
    requires m2.car == m.car && m2.tag == m.tag
    requires forall x :: x in vs ==> m.tag[x].vector
    requires Parsed(m2.vec, 0, to) && Starts(m2.vec, 0, to) == Relocated(m.vec, 0, limit, 0)
    requires s in Starts(m2.vec, 0, to)
    ensures Sized(m2) && OwnedStart(m2, vs, s)
  {
    hide LinkedBlocks, Compacting, Starts, Relocated, Parsed, Kept, BlockCells, Preserved;
    StartsAreParsed(m2.vec, 0, to, s);
    PackedAll(m, limit, vs, to, m2.cdr, m2.vec);
    var t := RelocatedOrigin(m.vec, 0, limit, 0, s);
    LinkedOwnerOf(m, limit, vs, t);
    MovedVector(m, limit, vs, to, m2, m.vec[t]);
  }

  lemma UnmovedCdr(m: Mem, limit: int, vs: set<int>, to: int, cdr: seq<int>, vec: seq<int>, x: int)
    requires LinkedBlocks(m, limit, vs) && Compacting(m, limit, vs, limit, to, cdr, vec) && x !in vs && 0 <= x < |m.cdr|
    ensures |cdr| == |m.cdr| && cdr[x] == m.cdr[x]
  {
  }

  lemma PackedParse(m: Mem, limit: int, vs: set<int>, to: int, cdr: seq<int>, vec: seq<int>)
    requires LinkedBlocks(m, limit, vs) && Compacting(m, limit, vs, limit, to, cdr, vec)
    ensures Parsed(vec, 0, to) && Starts(vec, 0, to) == Relocated(m.vec, 0, limit, 0)
  {
    PackedAll(m, limit, vs, to, cdr, vec);
    hide Compacting, LinkedBlocks, Starts, Relocated, Parsed, Kept, Same;
    KeptParses(m.vec, 0, limit, vec, 0);
  }

  /** Compaction as seen from the memory after the collection. */
  lemma CompactDone(m: Mem, limit: int, reached: set<int>, to: int, m2: Mem)
    requires Sized(m) && LinkedBlocks(m, limit, Vectors(m, reached))
    requires Compacting(m, limit, Vectors(m, reached), limit, to, m2.cdr, m2.vec)
    requires m2.car == m.car && m2.tag == m.tag
    requires forall x :: x in reached ==> 0 <= x < |m.car| && (m.tag[x].vector ==> OwnsBlock(m, x))
    ensures Compacted(m, reached, limit, m2, to)
  {
    hide LinkedBlocks, Preserved, Relocated, Compacting, Starts, Parsed, OwnsBlock, OwnedStart;
    var vs := Vectors(m, reached);
    PackedAll(m, limit, vs, to, m2.cdr, m2.vec);
    PackedParse(m, limit, vs, to, m2.cdr, m2.vec);
    forall x | x in reached
      ensures Preserved(m, m2, x)
      ensures m.tag[x].vector ==> m2.cdr[x] - 3 in Starts(m2.vec, 0, to)
    {
      CompactDoneNode(m, limit, reached, to, m2, x);
    }
    forall s | s in Starts(m2.vec, 0, to) ensures OwnedStart(m2, reached, s) {
      PackedStart(m, limit, vs, to, m2, s);
      OwnedMore(m2, vs, reached, s);
    }
    CompactDoneOrder(m, limit, reached, to, m2);
  }

  lemma OwnedMore(m: Mem, vs: set<int>, reached: set<int>, s: int)
    requires Sized(m) && vs <= reached && OwnedStart(m, vs, s)
    ensures OwnedStart(m, reached, s)
  {
  }

  lemma CompactDoneOrder(m: Mem, limit: int, reached: set<int>, to: int, m2: Mem)
    requires Sized(m) && LinkedBlocks(m, limit, Vectors(m, reached))
    requires Compacting(m, limit, Vectors(m, reached), limit, to, m2.cdr, m2.vec)
    requires m2.car == m.car && m2.tag == m.tag
    requires forall x :: x in reached ==> 0 <= x < |m.car|
    ensures |m2.cdr| == |m.cdr|
    ensures forall x, y :: x in reached && y in reached && m.tag[x].vector && m.tag[y].vector && m.cdr[x] < m.cdr[y]
              ==> m2.cdr[x] < m2.cdr[y]
  {
    hide LinkedBlocks, Compacting;
    PackedAll(m, limit, Vectors(m, reached), to, m2.cdr, m2.vec);
    forall x, y | x in reached && y in reached && m.tag[x].vector && m.tag[y].vector && m.cdr[x] < m.cdr[y]
      ensures m2.cdr[x] < m2.cdr[y]
    {
      MovedOrder(m, limit, Vectors(m, reached), to, m2, x, y);
    }
  }

  lemma CompactDoneNode(m: Mem, limit: int, reached: set<int>, to: int, m2: Mem, x: int)
    requires Sized(m) && LinkedBlocks(m, limit, Vectors(m, reached))
    requires Compacting(m, limit, Vectors(m, reached), limit, to, m2.cdr, m2.vec)
    requires m2.car == m.car && m2.tag == m.tag && x in reached && 0 <= x < |m.car|
    requires Parsed(m2.vec, 0, to) && Starts(m2.vec, 0, to) == Relocated(m.vec, 0, limit, 0)
    ensures Sized(m2) && Preserved(m, m2, x)
    ensures m.tag[x].vector ==> m2.cdr[x] - 3 in Starts(m2.vec, 0, to)
  {
    hide Compacting, LinkedBlocks, Starts, Relocated, Parsed, Kept;
    var vs := Vectors(m, reached);
    PackedAll(m, limit, vs, to, m2.cdr, m2.vec);
    if m.tag[x].vector {
      hide Preserved;
      MovedVector(m, limit, vs, to, m2, x);
      LinkedStart(m, limit, vs, x);
      RelocatedStarts(m.vec, 0, limit, 0, m.cdr[x] - 3);
    } else {
      UnmovedCdr(m, limit, vs, to, m2.cdr, m2.vec, x);
    }
  }

  lemma LinkedStart(m: Mem, limit: int, vs: set<int>, x: int)
    requires LinkedBlocks(m, limit, vs) && x in vs
    ensures 0 <= x < |m.cdr| && m.cdr[x] - 3 in Starts(m.vec, 0, limit)
    ensures 0 <= m.cdr[x] - 3 < |m.vec| && m.vec[m.cdr[x] - 3] == x >= 0
  {
  }

  lemma MovedOrder(m: Mem, limit: int, vs: set<int>, to: int, m2: Mem, x: int, y: int)
    requires LinkedBlocks(m, limit, vs) && Compacting(m, limit, vs, limit, to, m2.cdr, m2.vec)
    requires m2.car == m.car && m2.tag == m.tag && x in vs && y in vs && m.tag[x].vector && m.tag[y].vector
    requires m.cdr[x] < m.cdr[y]
    ensures |m2.cdr| == |m.cdr| && m2.cdr[x] < m2.cdr[y]
  {
    hide Compacting, Kept, Starts, Parsed;
    MovedVector(m, limit, vs, to, m2, x);
    MovedVector(m, limit, vs, to, m2, y);
    LinkedStart(m, limit, vs, x);
    LinkedStart(m, limit, vs, y);
    NewStartsAscend(m.vec, limit, m.cdr[x] - 3, m.cdr[y] - 3);
  }

  lemma CompactedFrom(m: Mem, m1: Mem, reached: set<int>, limit: int, m2: Mem, limit2: int)
    requires Sized(m) && Sized(m1) && |m1.car| == |m.car| && Compacted(m1, reached, limit, m2, limit2)
    requires forall x :: x in reached ==> Preserved(m, m1, x) && m1.cdr[x] == m.cdr[x]
    ensures Compacted(m, reached, limit, m2, limit2)
  {
    forall x | x in reached ensures Preserved(m, m2, x) {
      assert Preserved(m, m1, x) && Preserved(m1, m2, x);
    }
    forall x, y | x in reached && y in reached && m.tag[x].vector && m.tag[y].vector && m.cdr[x] < m.cdr[y]
      ensures m2.cdr[x] < m2.cdr[y]
    {
      assert Preserved(m, m1, x) && Preserved(m, m1, y);
    }
  }

  lemma ChainKept(m: Mem, limit: int, vs: set<int>, to: int, cdr: seq<int>, vec: seq<int>, head: int, chain: seq<int>)
    requires LinkedBlocks(m, limit, vs) && Compacting(m, limit, vs, limit, to, cdr, vec)
    requires FreeChain(NIL, m.cdr, head, chain) && forall x :: x in chain ==> x !in vs
    ensures FreeChain(NIL, cdr, head, chain)
  {
    ChainSame(NIL, m.cdr, cdr, head, chain);
  }

  /** Everything the compacting collection guarantees. */
  ghost predicate CompactCollected(m: Mem, live: set<int>, roots: seq<int>, limit: int,
                                   m2: Mem, limit2: int, head: int, chain: seq<int>)
    requires Sound(m, live)
  {
    var reached := Reached(m, live, roots);
    && Compacted(m, reached, limit, m2, limit2)
    && m2.tag == m.tag
    && FreeChain(NIL, m2.cdr, head, chain) && Descending(chain)
    && (forall x :: x in chain <==> 0 <= x < |m.car| && x !in reached)
  }

  /** Every vector in r has room for its bytes. */
  ghost predicate VectorsHold(m: Mem, r: set<int>) {
    && Sized(m)
    && forall x :: x in r ==> 0 <= x < |m.car| && (m.tag[x].vector ==> HoldsItsBytes(m, x))
  }

  lemma CompactedHolds(m: Mem, live: set<int>, roots: seq<int>, limit: int, m2: Mem, limit2: int, head: int,
                       chain: seq<int>)
    requires Quiet(NIL, m, live) && RootsIn(NIL, m, roots, live)
    requires CompactCollected(m, live, roots, limit, m2, limit2, head, chain)
    ensures VectorsHold(m2, Reached(m, live, roots))
  {
    hide Quiet, RootsIn, Reached, PayloadCells, HoldsItsBytes, Starts, Parsed, Payload, OwnsBlock;
    QuietParts(NIL, m, live);
    var r := Reached(m, live, roots);
    forall x | x in r ensures 0 <= x < |m2.car| && (m2.tag[x].vector ==> HoldsItsBytes(m2, x)) {
      assert Preserved(m, m2, x);
      if m2.tag[x].vector {
        RoomForBytes(m2, x);
      }
    }
  }

  lemma GcvDone(m: Mem, live: set<int>, roots: seq<int>, limit: int, m0: Mem, m1: Mem, head: int, chain: seq<int>,
                to: int, m2: Mem)
    requires Quiet(NIL, m, live) && PoolOk(m, live, limit) && RootsIn(NIL, m, roots, live)
    requires Unlinked(m.vec, limit, m0.vec) && m0 == m.(vec := m0.vec)
    requires Quiet(NIL, m0, live) && Collected(NIL, m0, live, roots, m1, head, chain)
    requires
      var vs := Vectors(m, Reached(m, live, roots));
      LinkedBlocks(m1, limit, vs) && Compacting(m1, limit, vs, limit, to, m2.cdr, m2.vec)
    requires m2.car == m1.car && m2.tag == m1.tag
    ensures CompactCollected(m, live, roots, limit, m2, to, head, chain)
  {
    hide Sound, Quiet, Collected, Compacting, LinkedBlocks, Compacted, Starts, Parsed, FreeChain, Descending, GraphOf,
         PoolOk, Unlinked, Preserved;
    QuietParts(NIL, m, live);
    UnlinkedSound(m, live, limit, m0);
    QuietParts(NIL, m0, live);
    var reached := Reached(m, live, roots);
    assert Reached(m0, live, roots) == reached;
    RootsElsewhere(NIL, m, m0, roots, live);
    ReachedLive(NIL, m, live, roots);
    CollectedTags(NIL, m0, live, roots, m1, head, chain);
    forall x | x in reached ensures Preserved(m, m1, x) && m1.cdr[x] == m.cdr[x] {
      CollectedPreserves(NIL, m0, live, roots, m1, head, chain, x);
      PreservedTrans(m, m0, m1, x);
    }
    PreservedOwns(m, m1, reached);
    assert Vectors(m1, reached) == Vectors(m, reached);
    CompactDone(m1, limit, reached, to, m2);
    CompactedFrom(m, m1, reached, limit, m2, to);
    CollectedChain(m0, live, roots, m1, head, chain);
    ChainKept(m1, limit, Vectors(m, reached), to, m2.cdr, m2.vec, head, chain);
  }

  lemma PreservedTrans(m: Mem, m0: Mem, m1: Mem, x: int)
    requires Sized(m) && Sized(m0) && Sized(m1) && Preserved(m, m0, x) && Preserved(m0, m1, x)
    ensures Preserved(m, m1, x)
  {
  }

  lemma PreservedOwns(m: Mem, m1: Mem, reached: set<int>)
    requires Sized(m) && Sized(m1) && |m1.car| == |m.car| && forall x :: x in reached ==> Preserved(m, m1, x)
    ensures forall x :: x in reached ==> 0 <= x < |m1.car| && (m1.tag[x].vector ==> OwnsBlock(m1, x))
  {
  }

  lemma CollectedChain(m: Mem, live: set<int>, roots: seq<int>, m1: Mem, head: int, chain: seq<int>)
    requires Sound(m, live) && Collected(NIL, m, live, roots, m1, head, chain)
    ensures FreeChain(NIL, m1.cdr, head, chain) && Descending(chain)
    ensures forall x :: x in chain <==> 0 <= x < |m.car| && x !in Reached(m, live, roots)
  {
  }

  lemma UnlinkStep(v: seq<int>, limit: int, p: int)
    requires Parsed(v, 0, limit) && p in Starts(v, 0, limit)
    ensures 0 <= p && p + 2 < |v| && v[p + 2] >= 0
    ensures p + 2 !in Starts(v, 0, limit)
    ensures forall a :: a in Starts(v, 0, limit) && a < p + BlockCells(v[p + 2]) ==> a <= p
  {
    hide BlockCells, PayloadCells;
    StartsAreParsed(v, 0, limit, p);
    forall a | a in Starts(v, 0, limit) && a > p ensures a >= p + BlockCells(v[p + 2]) {
      StartsApart(v, 0, limit, p, a);
    }
  }

  /** After compaction too, and every structure below the roots reads the same. */
  lemma CompactedHeap(m: Mem, live: set<int>, roots: seq<int>, limit: int, m2: Mem, limit2: int, head: int,
                      chain: seq<int>)
    requires Quiet(NIL, m, live) && RootsIn(NIL, m, roots, live)
    requires CompactCollected(m, live, roots, limit, m2, limit2, head, chain)
    ensures
      var r := Reached(m, live, roots);
      && Quiet(NIL, m2, r) && PoolOk(m2, r, limit2) && RootsIn(NIL, m2, roots, r) && GraphOf(m2, r) == GraphOf(m, r)
  {
    var r := Reached(m, live, roots);
    ReachedQuiet(NIL, m, live, roots);
    CompactedSound(m, r, limit, m2, limit2);
    RootsElsewhere(NIL, m, m2, roots, r);
  }

  lemma CompactedSound(m: Mem, r: set<int>, limit: int, m2: Mem, limit2: int)
    requires Quiet(NIL, m, r) && Compacted(m, r, limit, m2, limit2) && m2.tag == m.tag
    ensures Quiet(NIL, m2, r) && PoolOk(m2, r, limit2) && GraphOf(m2, r) == GraphOf(m, r)
  {
    hide Starts, Parsed, Slots, OwnsBlock, Apart, Payload, PayloadCells, GraphOf, Quiet, Compacted;
    QuietParts(NIL, m, r);
    CompactedSizes(m, r, limit, m2, limit2);
    forall x | x in r
      ensures 0 <= x < |m.car| && Slots(m2, x) == Slots(m, x) && (m2.tag[x].vector ==> OwnsBlock(m2, x))
    {
      CompactedNode(m, r, limit, m2, limit2, x);
    }
    forall x, y | x in r && y in r && x != y && m2.tag[x].vector && m2.tag[y].vector
      ensures Apart(m2, x, y)
    {
      CompactedApart(m, r, limit, m2, limit2, x, y);
    }
    QuietFrom(NIL, m, r, m2);
    CompactedPool(m, r, limit, m2, limit2);
  }

  lemma CompactedSizes(m: Mem, r: set<int>, limit: int, m2: Mem, limit2: int)
    requires Sized(m) && Compacted(m, r, limit, m2, limit2)
    ensures Sized(m2) && |m2.car| == |m.car|
  {
  }

  lemma CompactedNode(m: Mem, r: set<int>, limit: int, m2: Mem, limit2: int, x: int)
    requires Sized(m) && Compacted(m, r, limit, m2, limit2) && m2.tag == m.tag && x in r
    ensures Sized(m2) && |m2.car| == |m.car| && 0 <= x < |m.car|
    ensures Slots(m2, x) == Slots(m, x) && (m2.tag[x].vector ==> OwnsBlock(m2, x))
  {
    hide Starts, Parsed, Slots;
    PreservedSlots(m, m2, x);
  }

  lemma CompactedPool(m: Mem, r: set<int>, limit: int, m2: Mem, limit2: int)
    requires Sized(m) && Compacted(m, r, limit, m2, limit2) && Sound(m2, r) && m2.tag == m.tag
    ensures PoolOk(m2, r, limit2)
  {
    hide Starts, Parsed, Slots, OwnsBlock, Apart, Preserved;
  }

  lemma CompactedApart(m: Mem, r: set<int>, limit: int, m2: Mem, limit2: int, x: int, y: int)
    requires Quiet(NIL, m, r) && Compacted(m, r, limit, m2, limit2) && m2.tag == m.tag
    requires x in r && y in r && x != y && m.tag[x].vector && m.tag[y].vector
    ensures OwnsBlock(m2, x) && OwnsBlock(m2, y) && Apart(m2, x, y)
  {
    hide Quiet, Sound, Compacted, Preserved, Starts, Parsed;
    QuietParts(NIL, m, r);
    CompactedInPool(m, r, limit, m2, limit2, x, y);
    ApartOrder(m, r, x, y);
    CompactedPair(m, r, limit, m2, limit2, x, y);
    if m.cdr[x] < m.cdr[y] {
      StartsApart(m2.vec, 0, limit2, m2.cdr[x] - 3, m2.cdr[y] - 3);
    } else {
      StartsApart(m2.vec, 0, limit2, m2.cdr[y] - 3, m2.cdr[x] - 3);
    }
  }

  lemma CompactedInPool(m: Mem, r: set<int>, limit: int, m2: Mem, limit2: int, x: int, y: int)
    requires Quiet(NIL, m, r) && Compacted(m, r, limit, m2, limit2) && x in r && y in r
    ensures Sized(m) && Sized(m2) && |m2.car| == |m.car| && 0 <= x < |m.car| && 0 <= y < |m.car|
  {
  }

  lemma ApartOrder(m: Mem, r: set<int>, x: int, y: int)
    requires Sound(m, r) && x in r && y in r && x != y && m.tag[x].vector && m.tag[y].vector
    ensures m.cdr[x] != m.cdr[y]
  {
    assert Apart(m, x, y);
  }

  lemma CompactedPair(m: Mem, r: set<int>, limit: int, m2: Mem, limit2: int, x: int, y: int)
    requires Sound(m, r) && Compacted(m, r, limit, m2, limit2)
    requires x in r && y in r && m.tag[x].vector && m.tag[y].vector && m.cdr[x] != m.cdr[y]
    ensures Sized(m2) && 0 <= x < |m2.car| && 0 <= y < |m2.car|
    ensures OwnsBlock(m2, x) && OwnsBlock(m2, y) && Parsed(m2.vec, 0, limit2)
    ensures m2.cdr[x] - 3 in Starts(m2.vec, 0, limit2) && m2.cdr[y] - 3 in Starts(m2.vec, 0, limit2)
    ensures m.cdr[x] < m.cdr[y] <==> m2.cdr[x] < m2.cdr[y]
    ensures m2.cdr[x] != m2.cdr[y]
  {
    assert Preserved(m, m2, x) && Preserved(m, m2, y);
  }

  lemma GcvStart(m: Mem, live: set<int>, limit: int)
    requires Quiet(NIL, m, live) && PoolOk(m, live, limit)
    ensures Sized(m) && Sound(m, live) && Parsed(m.vec, 0, limit) && 0 <= limit <= |m.vec|
  {
  }

  lemma ReachedSame(m: Mem, m0: Mem, live: set<int>, roots: seq<int>)
    requires Sound(m, live) && Sound(m0, live) && GraphOf(m0, live) == GraphOf(m, live) && m0.tag == m.tag
    ensures Reached(m0, live, roots) == Reached(m, live, roots)
    ensures Vectors(m0, Reached(m0, live, roots)) == Vectors(m, Reached(m, live, roots))
  {
  }

  lemma UnlinkedNil(vec: seq<int>, limit: int, vec': seq<int>)
    requires Parsed(vec, 0, limit) && Unlinked(vec, limit, vec')
    ensures Parsed(vec', 0, limit) && Starts(vec', 0, limit) == Starts(vec, 0, limit) && |vec'| == |vec|
    ensures forall s :: s in Starts(vec', 0, limit) ==> 0 <= s < |vec'| && vec'[s] == NIL
  {
    UnlinkedSizes(vec, limit, vec');
    forall s | s in Starts(vec, 0, limit) ensures 0 <= s < |vec| {
      StartsAreParsed(vec, 0, limit, s);
    }
  }
}
