/** Allocation in the pools of S9core: what a new node or vector keeps, and what reaches it. */
module S9Allocation {
  import opened Marking
  import opened PointerReversal
  import opened PoolMarking
  import opened VectorPool
  import opened PoolCompaction
  import opened FreeLists

  const UNDEFINED := -5

  datatype Allocation = Node(n: int) | OutOfMemory

  /** The pools between two operations: live nodes are sound, live vectors own blocks below limit, and the nodes of the
      free list are not live. */
  ghost predicate Ready(m: Mem, live: set<int>, limit: int, head: int, chain: seq<int>) {
    && Quiet(NIL, m, live) && PoolOk(m, live, limit)
    && FreeChain(NIL, m.cdr, head, chain) && Descending(chain)
    && (forall x :: x in chain ==> 0 <= x < |m.car| && x !in live)
  }

  lemma ReadyParts(m: Mem, live: set<int>, limit: int, head: int, chain: seq<int>)
    requires Ready(m, live, limit, head, chain)
    ensures Quiet(NIL, m, live) && Sized(m) && Sound(m, live) && PoolOk(m, live, limit)
    ensures Parsed(m.vec, 0, limit) && 0 <= limit <= |m.vec|
    ensures chain == [] <==> head == NIL
    ensures chain != [] ==> 0 <= head < |m.car| && head !in live && head == chain[0]
  {
    if chain != [] {
      assert chain[0] in chain;
    }
  }

  /** What remains of the free list when its head is taken. */
  lemma RestOfChain(m: Mem, live: set<int>, head: int, chain: seq<int>, d: int)
    requires FreeChain(NIL, m.cdr, head, chain) && Descending(chain) && chain != []
    requires forall x :: x in chain ==> 0 <= x < |m.cdr| && x !in live
    ensures 0 <= head < |m.cdr|
    ensures FreeChain(NIL, m.cdr[head := d], m.cdr[head], chain[1..]) && Descending(chain[1..])
    ensures forall x :: x in chain[1..] ==> 0 <= x < |m.cdr| && x !in live && x != head
  {
    assert chain[0] in chain;
    forall x | x in chain[1..] ensures x in chain && x != head {
      var k :| 0 <= k < |chain[1..]| && chain[1..][k] == x;
      assert chain[k + 1] == x;
    }
    ChainSame(NIL, m.cdr, m.cdr[head := d], m.cdr[head], chain[1..]);
  }

  /** Everything that an allocation promises: the new node holds what was asked for, what was kept reads the same, and
      no root reaches the new node. */
  ghost predicate Allocated(m: Mem, kept: set<int>, roots: seq<int>, n: int, m2: Mem)
    requires Sized(m) && Sized(m2)
  {
    && 0 <= n < |m2.car| == |m.car| && n !in kept
    && (forall x :: x in kept ==> Preserved(m, m2, x))
    && RootsIn(NIL, m2, roots, kept)
    && Sound(m2, kept + {n}) && !ReachAny(GraphOf(m2, kept + {n}), roots, n)
  }

  lemma AllocatedFrom(m: Mem, kept: set<int>, roots: seq<int>, n: int, m2: Mem)
    requires Quiet(NIL, m, kept) && Quiet(NIL, m2, kept + {n}) && |m2.car| == |m.car|
    requires 0 <= n < |m.car| && n !in kept && RootsIn(NIL, m, roots, kept)
    requires forall x :: x in kept ==> Preserved(m, m2, x)
    ensures Sized(m) && Sized(m2) && Allocated(m, kept, roots, n, m2)
  {
    hide Preserved, Quiet, Sound, GraphOf, ReachAny, RootsIn;
    QuietParts(NIL, m, kept);
    QuietParts(NIL, m2, kept + {n});
    RootsElsewhere(NIL, m, m2, roots, kept);
    FreshUnreachable(NIL, m, m2, kept, n, roots);
  }

  lemma AllocatedAfter(m: Mem, m1: Mem, kept: set<int>, roots: seq<int>, n: int, m2: Mem)
    requires Sized(m) && Sized(m1) && Sized(m2) && |m1.car| == |m.car| && Allocated(m1, kept, roots, n, m2)
    requires forall x :: x in kept ==> Preserved(m, m1, x)
    ensures Allocated(m, kept, roots, n, m2)
  {
    hide Sound, GraphOf, ReachAny, RootsIn;
    forall x | x in kept ensures Preserved(m, m2, x) {
      assert Preserved(m, m1, x) && Preserved(m1, m2, x);
    }
  }

  // ---------------------------------------------------------------- pairs and atoms

  lemma ConsReady(m: Mem, live: set<int>, limit: int, head: int, chain: seq<int>, roots: seq<int>, a: int, d: int,
                  t: Tag)
    requires Ready(m, live, limit, head, chain) && chain != [] && RootsIn(NIL, m, roots, live)
    requires Fresh(t) && !t.vector && RootIn(NIL, m, d, live) && (!t.atom ==> RootIn(NIL, m, a, live))
    ensures Sized(m) && 0 <= head < |m.car|
    ensures
      var m2 := Filled(m, head, a, d, t);
      Allocated(m, live, roots, head, m2) && Ready(m2, live + {head}, limit, m.cdr[head], chain[1..])
  {
    ReadyParts(m, live, limit, head, chain);
    RestOfChain(m, live, head, chain, d);
    hide FreeChain, Descending, Quiet, Preserved, RootIn, RootsIn, Parsed, Starts, Allocated;
    FilledQuiet(NIL, m, live, head, a, d, t);
    var m2 := Filled(m, head, a, d, t);
    AllocatedFrom(m, live, roots, head, m2);
    QuietParts(NIL, m2, live + {head});
    FilledPool(m, live, limit, head, a, d, t);
  }

  lemma FilledPool(m: Mem, live: set<int>, limit: int, n: int, a: int, d: int, t: Tag)
    requires Sound(m, live) && PoolOk(m, live, limit) && 0 <= n < |m.car| && n !in live && !t.vector
    requires Sound(Filled(m, n, a, d, t), live + {n})
    ensures PoolOk(Filled(m, n, a, d, t), live + {n}, limit)
  {
    hide Parsed, Starts, OwnsBlock, Apart, Slots;
    assert forall x :: x in live ==> 0 <= x < |m.car| && x != n;
  }

  // ---------------------------------------------------------------- vectors

  /** A block for node n at the end of the used part of the pool; the payload of a vector object is cleared. */
  ghost predicate BlockAdded(vec: seq<int>, limit: int, n: int, size: nat, cleared: bool, vec': seq<int>) {
    && 0 <= limit && limit + BlockCells(size) <= |vec| == |vec'|
    && (forall a :: 0 <= a < limit ==> vec'[a] == vec[a])
    && vec'[limit] == n && vec'[limit + 1] == 0 && vec'[limit + 2] == size
    && (cleared ==> forall a :: limit + HEADER <= a < limit + BlockCells(size) ==> vec'[a] == UNDEFINED)
  }

  lemma {:induction false} ParsedMore(vec: seq<int>, p: int, limit: int, n: int, size: nat, cleared: bool,
                                      vec': seq<int>)
    requires Parsed(vec, p, limit) && BlockAdded(vec, limit, n, size, cleared, vec')
    ensures
      var limit' := limit + BlockCells(size);
      Parsed(vec', p, limit') && Starts(vec', p, limit') == Starts(vec, p, limit) + [limit]
    decreases limit - p
  {
    hide BlockCells;
    var limit' := limit + BlockCells(size);
    if p == limit {
      assert Parsed(vec', limit', limit') && Starts(vec', limit', limit') == [];
    } else {
      var next := p + BlockCells(vec[p + 2]);
      ParsedInside(vec, next, limit);
      assert vec'[p + 2] == vec[p + 2];
      ParsedMore(vec, next, limit, n, size, cleared, vec');
      ParsedAt(vec', p, limit');
      StartsAt(vec, p, limit);
      StartsAt(vec', p, limit');
      hide Starts, Parsed;
      assert [p] + (Starts(vec, next, limit) + [limit]) == [p] + Starts(vec, next, limit) + [limit];
    }
  }

  lemma ParsedAt(vec: seq<int>, p: int, limit: int)
    requires 0 <= p && p + HEADER <= limit <= |vec| && vec[p + 2] >= 0
    requires Parsed(vec, p + BlockCells(vec[p + 2]), limit)
    ensures Parsed(vec, p, limit)
  {
  }

  lemma StartsAt(vec: seq<int>, p: int, limit: int)
    requires Parsed(vec, p, limit) && p < limit
    ensures Starts(vec, p, limit) == [p] + Starts(vec, p + BlockCells(vec[p + 2]), limit)
  {
  }

  lemma ParsedInside(vec: seq<int>, p: int, limit: int)
    requires Parsed(vec, p, limit)
    ensures 0 <= p <= limit <= |vec|
  {
  }

  /** The memory with the new vector. */
  function VectorFilled(m: Mem, n: int, kind: int, limit: int, t: Tag, vec': seq<int>): Mem
    requires Sized(m) && 0 <= n < |m.car|
  {
    Filled(m, n, kind, limit + HEADER, t).(vec := vec')
  }

  /** What was asked for: kind, flags, size, and for a vector object a cleared payload. */
  ghost predicate NewVector(m: Mem, n: int, kind: int, size: nat, t: Tag)
    requires Sized(m)
  {
    && 0 <= n < |m.car| && m.car[n] == kind && m.tag[n] == t && OwnsBlock(m, n) && m.vec[m.cdr[n] - 1] == size
    && (kind == T_VECTOR ==> forall c :: c in Payload(m, n) ==> c == UNDEFINED)
  }

  lemma NewVectorRoom(m: Mem, n: int, kind: int, size: nat, t: Tag)
    requires Sized(m) && NewVector(m, n, kind, size, t)
    ensures 0 <= n < |m.car| && OwnsBlock(m, n) && size <= CELL_SIZE * |Payload(m, n)| < size + CELL_SIZE
  {
    RoomForBytes(m, n);
  }

  lemma VectorThere(m: Mem, n: int, kind: int, limit: int, size: nat, t: Tag, vec': seq<int>)
    requires Sized(m) && 0 <= n < |m.car| && BlockAdded(m.vec, limit, n, size, kind == T_VECTOR, vec')
    ensures NewVector(VectorFilled(m, n, kind, limit, t, vec'), n, kind, size, t)
  {
    var m2 := VectorFilled(m, n, kind, limit, t, vec');
    assert OwnsBlock(m2, n);
    assert forall i :: 0 <= i < |Payload(m2, n)| ==> Payload(m2, n)[i] == vec'[limit + HEADER + i];
  }

  /** The live nodes before it do not notice the new block. */
  lemma BlockElsewhere(m: Mem, live: set<int>, limit: int, n: int, kind: int, size: nat, t: Tag, vec': seq<int>, x: int)
    requires Sound(m, live) && PoolOk(m, live, limit) && 0 <= n < |m.car| && n !in live && x in live
    requires BlockAdded(m.vec, limit, n, size, kind == T_VECTOR, vec')
    ensures
      var m2 := VectorFilled(m, n, kind, limit, t, vec');
      && Sized(m2) && Preserved(m, m2, x) && m2.cdr[x] == m.cdr[x]
      && (m.tag[x].vector ==> OwnsBlock(m2, x) && m.cdr[x] + PayloadCells(m2.vec[m.cdr[x] - 1]) <= limit)
  {
    var m2 := VectorFilled(m, n, kind, limit, t, vec');
    if m.tag[x].vector {
      assert OwnsBlock(m, x);
      StartsAreParsed(m.vec, 0, limit, m.cdr[x] - 3);
      assert m2.vec[m.cdr[x] - 1] == m.vec[m.cdr[x] - 1];
      assert Payload(m2, x) == Payload(m, x);
    }
  }

  lemma VectorQuiet(m: Mem, live: set<int>, limit: int, n: int, kind: int, size: nat, t: Tag, vec': seq<int>)
    requires Quiet(NIL, m, live) && PoolOk(m, live, limit) && 0 <= n < |m.car| && n !in live && Fresh(t) && t.vector
    requires BlockAdded(m.vec, limit, n, size, kind == T_VECTOR, vec')
    ensures
      var m2 := VectorFilled(m, n, kind, limit, t, vec');
      Quiet(NIL, m2, live + {n}) && forall x :: x in live ==> Preserved(m, m2, x)
  {
    hide Parsed, Starts;
    var m2 := VectorFilled(m, n, kind, limit, t, vec');
    forall x | x in live
      ensures Preserved(m, m2, x) && Slots(m2, x) == Slots(m, x) && m2.cdr[x] == m.cdr[x]
      ensures m.tag[x].vector ==> OwnsBlock(m2, x) && Apart(m2, x, n) && Apart(m2, n, x)
    {
      BlockElsewhere(m, live, limit, n, kind, size, t, vec', x);
      PreservedSlots(m, m2, x);
    }
    forall x, y | x in live && y in live && x != y && m2.tag[x].vector && m2.tag[y].vector
      ensures Apart(m2, x, y)
    {
      assert Preserved(m, m2, x) && Preserved(m, m2, y);
      assert Apart(m, x, y);
    }
    assert OwnsBlock(m2, n);
    assert forall j :: 0 <= j < |Slots(m2, n)| ==> Slots(m2, n)[j] == UNDEFINED;
  }

  lemma VectorReady(m: Mem, live: set<int>, limit: int, head: int, chain: seq<int>, roots: seq<int>, kind: int,
                    size: nat, t: Tag, vec': seq<int>)
    requires Ready(m, live, limit, head, chain) && chain != [] && RootsIn(NIL, m, roots, live) && Fresh(t) && t.vector
    requires BlockAdded(m.vec, limit, head, size, kind == T_VECTOR, vec')
    ensures Sized(m) && 0 <= head < |m.car|
    ensures
      var m2 := VectorFilled(m, head, kind, limit, t, vec');
      && Allocated(m, live, roots, head, m2)
      && Ready(m2, live + {head}, limit + BlockCells(size), m.cdr[head], chain[1..])
  {
    ReadyParts(m, live, limit, head, chain);
    RestOfChain(m, live, head, chain, limit + HEADER);
    hide FreeChain, Descending, Quiet, Preserved, RootsIn, Allocated;
    VectorQuiet(m, live, limit, head, kind, size, t, vec');
    var m2 := VectorFilled(m, head, kind, limit, t, vec');
    AllocatedFrom(m, live, roots, head, m2);
    QuietParts(NIL, m2, live + {head});
    VectorBlocks(m, live, limit, head, kind, size, t, vec');
  }

  lemma VectorBlocks(m: Mem, live: set<int>, limit: int, n: int, kind: int, size: nat, t: Tag, vec': seq<int>)
    requires Sound(m, live) && PoolOk(m, live, limit) && 0 <= n < |m.car| && n !in live
    requires BlockAdded(m.vec, limit, n, size, kind == T_VECTOR, vec')
    requires Sound(VectorFilled(m, n, kind, limit, t, vec'), live + {n})
    ensures PoolOk(VectorFilled(m, n, kind, limit, t, vec'), live + {n}, limit + BlockCells(size))
  {
    ParsedMore(m.vec, 0, limit, n, size, kind == T_VECTOR, vec');
    hide Sound, Parsed, Starts, BlockCells;
  }

  // ---------------------------------------------------------------- after a collection

  /** Marking and sweeping leaves the blocks where they are. */
  lemma CollectedReady(m: Mem, live: set<int>, limit: int, roots: seq<int>, m2: Mem, head: int, chain: seq<int>)
    requires Quiet(NIL, m, live) && PoolOk(m, live, limit) && RootsIn(NIL, m, roots, live)
    requires Collected(NIL, m, live, roots, m2, head, chain)
    ensures
      var r := Reached(m, live, roots);
      && Ready(m2, r, limit, head, chain) && RootsIn(NIL, m2, roots, r) && r <= live
      && Sized(m) && Sized(m2) && |m2.car| == |m.car| && (forall x :: x in r ==> Preserved(m, m2, x))
      && (head == NIL <==> forall x :: 0 <= x < |m.car| ==> x in r)
  {
    CollectedHeap(NIL, m, live, roots, m2, head, chain);
    ReachedLive(NIL, m, live, roots);
    CollectedTags(NIL, m, live, roots, m2, head, chain);
    CollectedChain(m, live, roots, m2, head, chain);
    QuietParts(NIL, m2, Reached(m, live, roots));
    CollectedPool(m, live, limit, roots, m2, head, chain);
    ChainEmpty(|m.car|, Reached(m, live, roots), m2.cdr, head, chain);
    hide Quiet, Preserved, RootsIn, FreeChain, GraphOf, ReachAny, Slots, PoolOk, Collected;
  }

  lemma ChainEmpty(n: int, r: set<int>, cdr: seq<int>, head: int, chain: seq<int>)
    requires FreeChain(NIL, cdr, head, chain) && forall x :: x in chain <==> 0 <= x < n && x !in r
    ensures head == NIL <==> forall x :: 0 <= x < n ==> x in r
  {
    if chain != [] {
      assert chain[0] in chain;
    } else {
      assert forall x :: x !in chain;
    }
  }

  lemma CollectedPool(m: Mem, live: set<int>, limit: int, roots: seq<int>, m2: Mem, head: int, chain: seq<int>)
    requires Quiet(NIL, m, live) && PoolOk(m, live, limit) && RootsIn(NIL, m, roots, live)
    requires Collected(NIL, m, live, roots, m2, head, chain)
    requires Sound(m2, Reached(m, live, roots)) && Reached(m, live, roots) <= live
    ensures PoolOk(m2, Reached(m, live, roots), limit)
  {
    hide GraphOf, FreeChain, Descending, ReachAny, Parsed, Starts, RefsIn, NoState, BlockCells;
    hide OwnsBlock, Apart, Slots, Header;
    ParsedBounds(m, live, limit);
    forall s | s in Starts(m.vec, 0, limit)
      ensures 0 <= s && s + 2 < |m.vec| && m2.vec[s + 2] == m.vec[s + 2]
    {
      StartsAreParsed(m.vec, 0, limit, s);
      StartSizeNotHeader(m, live, limit, s);
    }
    SameParse(m.vec, m2.vec, 0, limit);
  }

  /** Nor does compaction break them. */
  lemma CompactedReady(m: Mem, live: set<int>, limit: int, roots: seq<int>, m2: Mem, limit2: int, head: int,
                       chain: seq<int>)
    requires Quiet(NIL, m, live) && RootsIn(NIL, m, roots, live)
    requires CompactCollected(m, live, roots, limit, m2, limit2, head, chain)
    ensures
      var r := Reached(m, live, roots);
      && Ready(m2, r, limit2, head, chain) && RootsIn(NIL, m2, roots, r) && r <= live
      && Sized(m) && Sized(m2) && |m2.car| == |m.car| && (forall x :: x in r ==> Preserved(m, m2, x))
      && (head == NIL <==> forall x :: 0 <= x < |m.car| ==> x in r)
  {
    hide Quiet, Preserved, RootsIn, FreeChain, GraphOf, ReachAny, Reach, Slots, PoolOk, Compacted, Reached;
    QuietParts(NIL, m, live);
    CompactedHeap(m, live, roots, limit, m2, limit2, head, chain);
    ReachedLive(NIL, m, live, roots);
    ChainEmpty(|m.car|, Reached(m, live, roots), m2.cdr, head, chain);
    CompactedSame(m, Reached(m, live, roots), limit, m2, limit2);
  }

  lemma CompactedSame(m: Mem, r: set<int>, limit: int, m2: Mem, limit2: int)
    requires Sized(m) && Compacted(m, r, limit, m2, limit2)
    ensures Sized(m2) && |m2.car| == |m.car| && forall x :: x in r ==> Preserved(m, m2, x)
  {
  }
}
