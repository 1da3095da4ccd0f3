/** The S9core memory manager: node pool, vector pool, marking, sweeping and compaction. */
module S9Heap {
  import opened Marking
  import opened PointerReversal
  import opened PoolMarking
  import opened PoolCompaction
  import opened VectorPool
  import opened S9Allocation

  class Pool {
    var car: array<int>
    var cdr: array<int>
    var tag: array<Tag>
    var vec: array<int>
    var freeList: int
    var freeVecs: int

    ghost predicate Shaped()
      reads this
    {
      && cdr.Length == car.Length && tag.Length == car.Length
      && car != cdr && car != vec && cdr != vec
    }

    ghost function Snap(): (m: Mem)
      reads this, car, cdr, tag, vec
    {
      Mem(car[..], cdr[..], tag[..], vec[..])
    }

    /** The arcs S1 -> S1, S1 -> S2 and S2 -> done: back at `parent`, whose active slot gets `n` back. */
    method Ascend(n: int, parent: int) returns (n': int, parent': int)
      requires Shaped() && CanAscend(Snap(), parent)
      modifies car, cdr, tag, vec
      ensures (Snap(), n', parent') == Ascended(old(Snap()), n, parent)
    {
      if tag[parent].vector {
        var i := vec[cdr[parent] - 2];
        var v := cdr[parent];
        if tag[parent].state && i + 1 < PayloadCells(vec[v - 1]) {
          n' := vec[v + i + 1];
          vec[v + i + 1] := vec[v + i];
          vec[v + i] := n;
          vec[cdr[parent] - 2] := i + 1;
          parent' := parent;
        } else {
          tag[parent] := tag[parent].(state := false);
          n' := parent;
          parent' := vec[v + i];
          vec[v + i] := n;
        }
      } else if tag[parent].state {
        n' := cdr[parent];
        cdr[parent] := car[parent];
        car[parent] := n;
        tag[parent] := tag[parent].(state := false);
        parent' := parent;
      } else {
        n' := parent;
        parent' := cdr[parent];
        cdr[parent] := n;
      }
    }

    /** The arcs S0 -> S1 and S0 -> S2: node `n` is marked and its first slot gets the parent pointer. */
    method Descend(n: int, parent: int) returns (n': int, parent': int)
      requires Shaped() && CanDescend(Snap(), n)
      modifies car, cdr, tag, vec
      ensures (Snap(), n', parent') == Descended(old(Snap()), n, parent)
    {
      if tag[n].vector {
        tag[n] := tag[n].(mark := true);
        vec[cdr[n] - 3] := n;
        if car[n] == T_VECTOR && PayloadCells(vec[cdr[n] - 1]) != 0 {
          tag[n] := tag[n].(state := true);
          vec[cdr[n] - 2] := 0;
          n' := vec[cdr[n]];
          vec[cdr[n]] := parent;
          parent' := n;
        } else {
          n', parent' := n, parent;
        }
      } else if tag[n].atom {
        n' := cdr[n];
        cdr[n] := parent;
        parent' := n;
        tag[n] := tag[n].(mark := true);
      } else {
        n' := car[n];
        car[n] := parent;
        tag[n] := tag[n].(mark := true);
        parent' := n;
        tag[n] := tag[n].(state := true);
      }
      ghost var after := Descended(old(Snap()), n, parent).0;
      assert tag[..] == after.tag && vec[..] == after.vec && car[..] == after.car && cdr[..] == after.cdr;
    }

    /** Pointer-reversing marker: marks what `root` reaches through unmarked nodes, and restores the graph. */
    method Mark(root: int, ghost live: set<int>)
      requires Shaped() && Sound(Snap(), live) && RefsIn(NIL, Snap(), live) && NoState(Snap(), live)
      requires RootIn(NIL, Snap(), root, live)
      modifies car, cdr, tag, vec
      ensures MarkedFrom(old(Snap()), live, root, Snap())
    {
      hide Tracks, Inv, GraphOf, MarkedFrom, Sound, RefsIn, NoState, Settled, Step, CanAscend, CanDescend, Ascended,
           Descended, Unmarked, SlotsLeft;
      ghost var m := Snap();
      ghost var base := Marks(m.tag);
      ghost var g := GraphOf(m, live);
      ghost var w := Walk(base, [], root);
      TracksInit(NIL, m, live, root);
      var n, parent := root, NIL;
      while true
        invariant RootIn(NIL, m, root, live) && car.Length == |m.car|
        invariant Tracks(NIL, m, live, base, root, w, Snap()) && FramesOk(g, w.stack)
        invariant n == w.cur && parent == Parent(NIL, w.stack)
        decreases Unmarked(g, w), SlotsLeft(g, w.stack)
      {
        CurInPool(NIL, m, live, base, root, w, Snap());
        TracksInv(NIL, m, live, base, root, w, Snap());
        if n < 0 || tag[n].mark {
          if parent == NIL {
            break;
          }
          TrackAscend(NIL, m, live, base, root, w, Snap());
          n, parent := Ascend(n, parent);
        } else {
          TrackDescend(NIL, m, live, base, root, w, Snap());
          n, parent := Descend(n, parent);
        }
        StepDecreases(g, base, root, w);
        w := Step(g, w);
        TracksInv(NIL, m, live, base, root, w, Snap());
      }
      TracksDone(NIL, m, live, root, w, Snap());
    }

    /** Mark and sweep. */
    method Gc(roots: seq<int>, ghost live: set<int>) returns (k: int, ghost chain: seq<int>)
      requires Shaped() && Quiet(NIL, Snap(), live) && RootsIn(NIL, Snap(), roots, live)
      modifies this`freeList, car, cdr, tag, vec
      ensures Collected(NIL, old(Snap()), live, roots, Snap(), freeList, chain) && k == |chain|
    {
      hide Quiet, Collected, MarkedRoots, MarkedFrom, Swept, Sound, RefsIn, NoState, GraphOf;
      ghost var m := Snap();
      NoMarksYet(NIL, m, live);
      QuietParts(NIL, m, live);
      var i := 0;
      while i < |roots|
        invariant 0 <= i <= |roots|
        invariant MarkedRoots(m, live, roots[..i], Snap()) && Closed(GraphOf(m, live), Marks(Snap().tag))
      {
        MarkedRootsSound(NIL, m, live, roots[..i], Snap());
        assert RootIn(NIL, m, roots[i], live);
        ghost var m1 := Snap();
        Mark(roots[i], live);
        NextMark(m, live, roots, i, m1, Snap());
        i := i + 1;
      }
      assert roots[..i] == roots;
      ghost var m1 := Snap();
      MarkedRootsSound(NIL, m, live, roots, m1);
      k, freeList, chain := 0, NIL, [];
      SweepInit(NIL, m1);
      i := 0;
      while i < car.Length
        invariant 0 <= i <= car.Length && k == |chain|
        invariant car[..] == m1.car && vec[..] == m1.vec
        invariant Swept(NIL, m1, i, cdr[..], tag[..], freeList, chain)
      {
        SweptAt(NIL, m1, i, cdr[..], tag[..], freeList, chain);
        if !tag[i].mark {
          SweepFree(NIL, m1, i, cdr[..], tag[..], freeList, chain);
          cdr[i] := freeList;
          freeList := i;
          k := k + 1;
          chain := [i] + chain;
        } else {
          SweepMarked(NIL, m1, i, cdr[..], tag[..], freeList, chain);
          tag[i] := tag[i].(mark := false);
        }
        i := i + 1;
      }
      SweepDone(NIL, m, live, roots, m1, Snap(), freeList, chain);
    }

    /** Marks all vectors unused. */
    method UnmarkVectors()
      requires Shaped() && Parsed(vec[..], 0, freeVecs)
      modifies vec
      ensures Unlinked(old(vec[..]), freeVecs, vec[..])
    {
      hide BlockCells, PayloadCells;
      ghost var v := vec[..];
      var p := 0;
      while p < freeVecs
        invariant Parsed(v, p, freeVecs) && (p == freeVecs || p in Starts(v, 0, freeVecs))
        invariant forall a :: 0 <= a < vec.Length ==>
                    vec[a] == if a < p && a in Starts(v, 0, freeVecs) then NIL else v[a]
      {
        var link := p;
        NextStart(v, 0, freeVecs, p);
        UnlinkStep(v, freeVecs, p);
        var k := vec[p + 2];
        p := p + BlockCells(k);
        vec[link] := NIL;
      }
      forall a | a in Starts(v, 0, freeVecs) ensures a < freeVecs {
        StartsAreParsed(v, 0, freeVecs, a);
      }
    }

    /** memmove within the vector pool. */
    method MoveWords(to: int, from: int, k: int)
      requires Shaped() && 0 <= to <= from && 0 <= k && from + k <= vec.Length
      modifies vec
      ensures BlockMoved(from, to, k, old(vec[..]), vec[..])
    {
      ghost var v := vec[..];
      forall j | 0 <= j < k {
        vec[to + j] := vec[from + j];
      }
      assert vec[..][0..to] == v[0..to];
      assert vec[..][to..to + k] == v[from..from + k];
      assert vec[..][from + k..from + k + (vec.Length - from - k)] == v[from + k..from + k + (vec.Length - from - k)];
    }

    /** Moves the linked blocks down to the bottom of the pool and redirects their nodes. */
    method Compact(ghost vs: set<int>) returns (to: int)
      requires Shaped() && LinkedBlocks(Snap(), freeVecs, vs)
      modifies cdr, vec
      ensures Compacting(old(Snap()), freeVecs, vs, freeVecs, to, cdr[..], vec[..])
    {
      hide Compacting, LinkedBlocks, BlockCells, PayloadCells, Parsed, Starts, BlockMoved, Same;
      ghost var m := Snap();
      CompactInit(m, freeVecs, vs);
      to := 0;
      var from := 0;
      while from < freeVecs
        invariant from <= freeVecs && Compacting(m, freeVecs, vs, from, to, cdr[..], vec[..])
      {
        ghost var c0, v0 := cdr[..], vec[..];
        CompactAt(m, freeVecs, vs, from, to, c0, v0);
        var size := vec[from + 2];
        var k := BlockCells(size);
        if vec[from] != NIL {
          if to != from {
            MoveWords(to, from, k);
            LinkMoved(from, to, k, v0, vec[..]);
            cdr[vec[to]] := to + 3;
          } else {
            BlockStays(from, k, v0);
          }
          CompactMove(m, freeVecs, vs, from, to, c0, v0, vec[..]);
          assert cdr[..] == c0[m.vec[from] := to + 3];
          to := to + k;
        } else {
          CompactDrop(m, freeVecs, vs, from, to, c0, v0);
        }
        from := from + k;
      }
    }

    /** Collects garbage and moves the live vectors to the bottom of the vector pool. */
    method Gcv(roots: seq<int>, ghost live: set<int>) returns (k: int, ghost chain: seq<int>)
      requires Shaped() && Quiet(NIL, Snap(), live) && RootsIn(NIL, Snap(), roots, live)
               && PoolOk(Snap(), live, freeVecs)
      modifies this`freeList, this`freeVecs, car, cdr, tag, vec
      ensures CompactCollected(old(Snap()), live, roots, old(freeVecs), Snap(), freeVecs, freeList, chain)
      ensures k == old(freeVecs) - freeVecs
      ensures VectorsHold(Snap(), Reached(old(Snap()), live, roots))
    {
      hide Quiet, Sound, PoolOk, RootsIn, Collected, CompactCollected, Compacting, Unlinked, LinkedBlocks, BlockCells,
           PayloadCells, Parsed, Starts;
      ghost var m := Snap();
      GcvStart(m, live, freeVecs);
      UnmarkVectors();
      ghost var m0 := Snap();
      UnlinkedSound(m, live, freeVecs, m0);
      UnlinkedNil(m.vec, freeVecs, m0.vec);
      QuietParts(NIL, m0, live);
      RootsElsewhere(NIL, m, m0, roots, live);
      k, chain := Gc(roots, live);
      ghost var m1 := Snap();
      ghost var vs := Vectors(m, Reached(m, live, roots));
      ReachedSame(m, m0, live, roots);
      CollectedLinked(m0, live, roots, freeVecs, m1, freeList, chain);
      var to := Compact(vs);
      GcvDone(m, live, roots, freeVecs, m0, m1, freeList, chain, to, Snap());
      CompactedHolds(m, live, roots, freeVecs, Snap(), to, freeList, chain);
      k := freeVecs - to;
      freeVecs := to;
    }

    /** The roots while s9_cons3 collects: its arguments are protected as far as they can be nodes. */
    function Guarded(roots: seq<int>, a: int, d: int, t: Tag): seq<int> {
      roots + (if !t.atom && !t.vector then [a] else []) + (if !t.vector then [d] else [])
    }

    /** A collection if the free list is empty. */
    method Replenish(roots: seq<int>, ghost live: set<int>, ghost chain0: seq<int>)
      returns (ghost kept: set<int>, ghost chain: seq<int>)
      requires Shaped() && Ready(Snap(), live, freeVecs, freeList, chain0) && RootsIn(NIL, Snap(), roots, live)
      modifies this`freeList, car, cdr, tag, vec
      ensures kept == (if old(freeList) == NIL then Reached(old(Snap()), live, roots) else live) <= live
      ensures Ready(Snap(), kept, freeVecs, freeList, chain) && RootsIn(NIL, Snap(), roots, kept)
      ensures Sized(old(Snap())) && Sized(Snap()) && |Snap().car| == |old(Snap()).car|
      ensures forall x :: x in kept ==> Preserved(old(Snap()), Snap(), x)
      ensures freeList == NIL <==> forall x :: 0 <= x < car.Length ==> x in kept
    {
      hide Ready, Quiet, RootsIn, Collected, Sound, Preserved, Reached, PoolOk;
      ghost var m := Snap();
      ReadyParts(m, live, freeVecs, freeList, chain0);
      kept, chain := live, chain0;
      if freeList == NIL {
        var k;
        k, chain := Gc(roots, live);
        kept := Reached(m, live, roots);
        CollectedReady(m, live, freeVecs, roots, Snap(), freeList, chain);
      } else {
        NotAllLive(m, live, freeVecs, freeList, chain);
      }
    }

    /** Allocates a pair or an atom. */
    method Cons3(roots: seq<int>, a: int, d: int, t: Tag, ghost live: set<int>, ghost chain0: seq<int>)
      returns (r: Allocation, ghost kept: set<int>, ghost chain: seq<int>)
      requires Shaped() && Ready(Snap(), live, freeVecs, freeList, chain0) && RootsIn(NIL, Snap(), roots, live)
      requires Fresh(t) && !t.vector && RootIn(NIL, Snap(), d, live) && (!t.atom ==> RootIn(NIL, Snap(), a, live))
      modifies this`freeList, car, cdr, tag, vec
      ensures kept == (if old(freeList) == NIL then Reached(old(Snap()), live, Guarded(roots, a, d, t)) else live)
      ensures kept <= live
      ensures r.OutOfMemory? <==> forall x :: 0 <= x < car.Length ==> x in kept
      ensures r.OutOfMemory? ==> Ready(Snap(), kept, freeVecs, freeList, chain)
      ensures r.Node? ==>
                && Allocated(old(Snap()), kept, roots, r.n, Snap())
                && car[r.n] == a && cdr[r.n] == d && tag[r.n] == t
                && Ready(Snap(), kept + {r.n}, freeVecs, freeList, chain)
    {
      hide Ready, Quiet, RootsIn, RootIn, Sound, Allocated, Preserved, Reached, PoolOk, GraphOf;
      GuardedIn(Snap(), roots, live, a, d, t);
      kept, chain := Replenish(Guarded(roots, a, d, t), live, chain0);
      if freeList == NIL {
        return OutOfMemory, kept, chain;
      }
      ghost var m1 := Snap();
      GuardedOut(m1, roots, kept, a, d, t);
      ReadyParts(m1, kept, freeVecs, freeList, chain);
      ConsReady(m1, kept, freeVecs, freeList, chain, roots, a, d, t);
      var n := freeList;
      freeList := cdr[freeList];
      car[n] := a;
      cdr[n] := d;
      tag[n] := t;
      assert Snap() == Filled(m1, n, a, d, t);
      AllocatedAfter(old(Snap()), m1, kept, roots, n, Snap());
      return Node(n), kept, chain[1..];
    }

    /** A compacting collection if the vector pool has no room for wsize more cells. */
    method MakeRoom(roots: seq<int>, wsize: nat, ghost live: set<int>, ghost chain0: seq<int>)
      returns (ghost kept: set<int>, ghost chain: seq<int>)
      requires Shaped() && Ready(Snap(), live, freeVecs, freeList, chain0) && RootsIn(NIL, Snap(), roots, live)
      modifies this`freeList, this`freeVecs, car, cdr, tag, vec
      ensures kept == (if old(freeVecs) + wsize >= vec.Length then Reached(old(Snap()), live, roots) else live) <= live
      ensures old(freeVecs) + wsize < vec.Length ==> freeVecs == old(freeVecs)
      ensures Ready(Snap(), kept, freeVecs, freeList, chain) && RootsIn(NIL, Snap(), roots, kept)
      ensures Sized(old(Snap())) && Sized(Snap()) && |Snap().car| == |old(Snap()).car|
      ensures forall x :: x in kept ==> Preserved(old(Snap()), Snap(), x)
    {
      hide Ready, Quiet, RootsIn, Sound, Preserved, Reached, PoolOk, CompactCollected;
      ghost var m, limit := Snap(), freeVecs;
      ReadyParts(m, live, freeVecs, freeList, chain0);
      KeptSelf(m, live, freeVecs, freeList, chain0);
      kept, chain := live, chain0;
      if freeVecs + wsize >= vec.Length {
        var k;
        k, chain := Gcv(roots, live);
        kept := Reached(m, live, roots);
        CompactedReady(m, live, limit, roots, Snap(), freeVecs, freeList, chain);
      }
    }

    /** Node n becomes a vector with the block at v. */
    method FillVector(n: int, v: int, kind: int, size: nat, t: Tag)
      requires Shaped() && 0 <= n < car.Length && 0 <= v && v + BlockCells(size) <= vec.Length
      modifies car, cdr, tag, vec
      ensures Sized(old(Snap())) && Snap() == VectorFilled(old(Snap()), n, kind, v, t, vec[..])
      ensures BlockAdded(old(vec[..]), v, n, size, kind == T_VECTOR, vec[..])
    {
      hide PayloadCells;
      ghost var m := Snap();
      car[n] := kind;
      cdr[n] := v + HEADER;
      tag[n] := t;
      vec[v] := n;
      vec[v + 1] := 0;
      vec[v + 2] := size;
      if kind == T_VECTOR {
        Clear(v, BlockCells(size));
      }
    }

    /** Allocates a vector of size bytes. The pools have a fixed size, so that it fails where more memory would be
        asked for. */
    method NewVec(roots: seq<int>, kind: int, size: nat, t: Tag, ghost live: set<int>, ghost chain0: seq<int>)
      returns (r: Allocation, ghost kept: set<int>, ghost chain: seq<int>)
      requires Shaped() && Ready(Snap(), live, freeVecs, freeList, chain0) && RootsIn(NIL, Snap(), roots, live)
      requires Fresh(t) && t.vector
      modifies this`freeList, this`freeVecs, car, cdr, tag, vec
      ensures kept <= live && Sized(old(Snap())) && Sized(Snap())
      ensures r.Node? ==>
                && Allocated(old(Snap()), kept, roots, r.n, Snap())
                && NewVector(Snap(), r.n, kind, size, t)
                && size <= CELL_SIZE * |Payload(Snap(), r.n)| < size + CELL_SIZE
                && Ready(Snap(), kept + {r.n}, freeVecs, freeList, chain)
      ensures r.OutOfMemory? ==>
                (freeVecs + BlockCells(size) >= vec.Length && old(freeVecs) + BlockCells(size) >= vec.Length)
                || forall x :: 0 <= x < car.Length ==> x in kept
    {
      hide Ready, Quiet, RootsIn, Sound, Allocated, Preserved, Reached, PoolOk, GraphOf, BlockAdded, VectorFilled,
        BlockCells, NewVector;
      ghost var m := Snap();
      var wsize := BlockCells(size);
      kept, chain := MakeRoom(roots, wsize, live, chain0);
      if freeVecs + wsize >= vec.Length {
        return OutOfMemory, kept, chain;
      }
      ghost var m0 := Snap();
      kept, chain := Replenish(roots, kept, chain);
      ghost var m1 := Snap();
      KeptThen(m, m0, m1, kept);
      if freeList == NIL {
        return OutOfMemory, kept, chain;
      }
      ReadyParts(m1, kept, freeVecs, freeList, chain);
      var n, v := freeList, freeVecs;
      freeVecs := freeVecs + wsize;
      freeList := cdr[freeList];
      FillVector(n, v, kind, size, t);
      VectorReady(m1, kept, v, n, chain, roots, kind, size, t, vec[..]);
      AllocatedAfter(m, m1, kept, roots, n, Snap());
      VectorThere(m1, n, kind, v, size, t, vec[..]);
      NewVectorRoom(Snap(), n, kind, size, t);
      return Node(n), kept, chain[1..];
    }

    method Clear(v: int, wsize: int)
      requires 0 <= v && HEADER <= wsize && v + wsize <= vec.Length && vec != car && vec != cdr
      modifies vec
      ensures forall a :: 0 <= a < vec.Length ==>
                vec[a] == if v + HEADER <= a < v + wsize then UNDEFINED else old(vec[a])
    {
      var i := HEADER;
      while i < wsize
        invariant HEADER <= i <= wsize
        invariant forall a :: 0 <= a < vec.Length ==>
                    vec[a] == if v + HEADER <= a < v + i then UNDEFINED else old(vec[a])
      {
        vec[v + i] := UNDEFINED;
        i := i + 1;
      }
    }
  }

  lemma NotAllLive(m: Mem, live: set<int>, limit: int, head: int, chain: seq<int>)
    requires Ready(m, live, limit, head, chain) && head != NIL
    ensures 0 <= head < |m.car| && head !in live && forall x :: x in live ==> Preserved(m, m, x)
  {
    assert chain[0] in chain;
  }

  lemma KeptSelf(m: Mem, live: set<int>, limit: int, head: int, chain: seq<int>)
    requires Ready(m, live, limit, head, chain)
    ensures Sized(m) && forall x :: x in live ==> Preserved(m, m, x)
  {
  }

  lemma KeptThen(m: Mem, m0: Mem, m1: Mem, kept: set<int>)
    requires Sized(m) && Sized(m0) && Sized(m1)
    requires forall x :: x in kept ==> Preserved(m, m0, x) && Preserved(m0, m1, x)
    ensures forall x :: x in kept ==> Preserved(m, m1, x)
  {
    forall x | x in kept ensures Preserved(m, m1, x) {
      PreservedTrans(m, m0, m1, x);
    }
  }

  lemma GuardedIn(m: Mem, roots: seq<int>, live: set<int>, a: int, d: int, t: Tag)
    requires RootsIn(NIL, m, roots, live) && !t.vector && RootIn(NIL, m, d, live)
             && (!t.atom ==> RootIn(NIL, m, a, live))
    ensures RootsIn(NIL, m, roots + (if !t.atom && !t.vector then [a] else []) + (if !t.vector then [d] else []), live)
  {
  }

  lemma GuardedOut(m: Mem, roots: seq<int>, live: set<int>, a: int, d: int, t: Tag)
    requires !t.vector
    requires RootsIn(NIL, m, roots + (if !t.atom && !t.vector then [a] else []) + (if !t.vector then [d] else []), live)
    ensures RootsIn(NIL, m, roots, live) && RootIn(NIL, m, d, live) && (!t.atom ==> RootIn(NIL, m, a, live))
  {
    var all := roots + (if !t.atom then [a] else []) + [d];
    assert d in all && (!t.atom ==> a in all) && forall r :: r in roots ==> r in all;
  }
}
