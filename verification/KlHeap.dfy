/** The node pool of Kilo LISP: pointer-reversing marker, sweep and allocation. */
module KlHeap {
  import opened Marking
  import opened PointerReversal
  import opened PoolMarking
  import opened FreeLists

  const NNODES := 8192
  const SPCL := NNODES
  const NIL := NNODES + 5

  const PAIR := Tag(false, false, false, false, 0)
  const ATOM := Tag(true, false, false, false, 0)

  datatype Allocation = Node(n: int) | OutOfNodes

  /** The heap between two collections: live nodes are sound, free nodes are not live. */
  ghost predicate Ready(m: Mem, live: set<int>, head: int, chain: seq<int>) {
    && Quiet(NIL, m, live)
    && |m.car| == NNODES && |m.vec| == 0 && (forall x :: 0 <= x < NNODES ==> !m.tag[x].vector)
    && FreeChain(NIL, m.cdr, head, chain) && Descending(chain)
    && (forall x :: x in chain ==> 0 <= x < NNODES && x !in live)
  }

  lemma FilledReady(m: Mem, live: set<int>, head: int, chain: seq<int>, a: int, d: int, t: Tag)
    requires Ready(m, live, head, chain) && |chain| > 0
    requires t == PAIR || t == ATOM
    requires RootIn(NIL, m, d, live) && (t == PAIR ==> RootIn(NIL, m, a, live))
    ensures 0 <= head < NNODES && head !in live
    ensures Ready(Filled(m, head, a, d, t), live + {head}, m.cdr[head], chain[1..])
    ensures forall x :: x in live ==> Preserved(m, Filled(m, head, a, d, t), x)
  {
    assert chain[0] in chain;
    FilledQuiet(NIL, m, live, head, a, d, t);
    forall x | x in chain[1..] ensures x in chain && x != head {
      var k :| 0 <= k < |chain[1..]| && chain[1..][k] == x;
      assert chain[k + 1] == x;
    }
    hide Quiet, Preserved, RootIn;
    ChainSame(NIL, m.cdr, m.cdr[head := d], m.cdr[head], chain[1..]);
  }

  lemma CollectedReady(m: Mem, live: set<int>, head0: int, chain0: seq<int>, roots: seq<int>, m2: Mem, head: int,
                       chain: seq<int>)
    requires Ready(m, live, head0, chain0) && RootsIn(NIL, m, roots, live)
    requires Collected(NIL, m, live, roots, m2, head, chain)
    ensures
      var r := Reached(m, live, roots);
      && Ready(m2, r, head, chain) && RootsIn(NIL, m2, roots, r) && r <= live
      && (forall x :: x in r ==> Preserved(m, m2, x))
  {
    CollectedHeap(NIL, m, live, roots, m2, head, chain);
    ReachedLive(NIL, m, live, roots);
    hide Quiet, Preserved, RootIn, FreeChain, GraphOf, ReachAny, Slots;
  }

  /** What a register reaches is as it was, and not on the free list. */
  ghost predicate KeepsFrom(m: Mem, live: set<int>, register: int, m2: Mem, chain: seq<int>)
    requires Sized(m) && Sized(m2)
  {
    forall x :: 0 <= x < |m.car| && Reach(GraphOf(m, live), {}, register, x) ==> x !in chain && Preserved(m, m2, x)
  }

  lemma RootKept(m: Mem, live: set<int>, roots: seq<int>, k: nat, m2: Mem, head: int, chain: seq<int>)
    requires Quiet(NIL, m, live) && RootsIn(NIL, m, roots, live) && Collected(NIL, m, live, roots, m2, head, chain)
    requires k < |roots|
    ensures Sized(m) && Sized(m2) && KeepsFrom(m, live, roots[k], m2, chain)
  {
    CollectedTags(NIL, m, live, roots, m2, head, chain);
    hide GraphOf, Reach, Preserved, Quiet, RootsIn, FreeChain;
    QuietParts(NIL, m, live);
    forall x | 0 <= x < |m.car| && Reach(GraphOf(m, live), {}, roots[k], x)
      ensures x !in chain && Preserved(m, m2, x)
    {
      assert ReachAny(GraphOf(m, live), roots, x);
      CollectedPreserves(NIL, m, live, roots, m2, head, chain, x);
    }
  }

  lemma RootsKept(m: Mem, live: set<int>, roots: seq<int>, m2: Mem, head: int, chain: seq<int>)
    requires Quiet(NIL, m, live) && RootsIn(NIL, m, roots, live) && Collected(NIL, m, live, roots, m2, head, chain)
    ensures Sized(m) && Sized(m2)
    ensures forall k :: 0 <= k < |roots| ==> KeepsFrom(m, live, roots[k], m2, chain)
  {
    CollectedTags(NIL, m, live, roots, m2, head, chain);
    hide KeepsFrom;
    QuietParts(NIL, m, live);
    forall k | 0 <= k < |roots| ensures KeepsFrom(m, live, roots[k], m2, chain) {
      RootKept(m, live, roots, k, m2, head, chain);
    }
  }

  class Heap {
    var car: array<int>
    var cdr: array<int>
    var tag: array<Tag>
    var freelist: int
    var acc: int
    var env: int
    var symbols: int
    var stack: int
    var mstack: int
    var tmpcar: int
    var tmpcdr: int
    var tmp: int

    ghost predicate Shaped()
      reads this
    {
      car.Length == NNODES && cdr.Length == NNODES && tag.Length == NNODES && car != cdr
    }

    ghost function Snap(): (m: Mem)
      reads this, car, cdr, tag
    {
      Mem(car[..], cdr[..], tag[..], [])
    }

    function Roots(): (r: seq<int>)
      reads this
    {
      [acc, env, symbols, stack, mstack, tmpcar, tmpcdr, tmp]
    }

    /** Back at parent p. */
    method Ascend(n: int, p: int) returns (n': int, p': int)
      requires Shaped() && CanAscend(Snap(), p) && !tag[p].vector
      modifies car, cdr, tag
      ensures (Snap(), n', p') == Ascended(old(Snap()), n, p)
    {
      if tag[p].state {
        n' := cdr[p];
        cdr[p] := car[p];
        car[p] := n;
        tag[p] := tag[p].(state := false);
        p' := p;
      } else {
        n' := p;
        p' := cdr[p];
        cdr[p] := n;
      }
    }

    /** At an unmarked node n. */
    method Descend(n: int, p: int) returns (n': int, p': int)
      requires Shaped() && CanDescend(Snap(), n) && !tag[n].vector
      modifies car, cdr, tag
      ensures (Snap(), n', p') == Descended(old(Snap()), n, p)
    {
      if tag[n].atom {
        n' := cdr[n];
        cdr[n] := p;
        p' := n;
        tag[p'] := tag[p'].(mark := true);
      } else {
        n' := car[n];
        car[n] := p;
        tag[n] := tag[n].(mark := true);
        p' := n;
        tag[p'] := tag[p'].(state := true);
      }
      ghost var after := Descended(old(Snap()), n, p).0;
      assert tag[..] == after.tag && car[..] == after.car && cdr[..] == after.cdr;
    }

    method Mark(root: int, ghost live: set<int>)
      requires Shaped() && Sound(Snap(), live) && RefsIn(NIL, Snap(), live) && NoState(Snap(), live)
      requires RootIn(NIL, Snap(), root, live) && forall x :: 0 <= x < NNODES ==> !tag[x].vector
      modifies car, cdr, tag
      ensures MarkedFrom(old(Snap()), live, root, Snap())
      ensures forall x :: 0 <= x < NNODES ==> !tag[x].vector
    {
      hide Tracks, Inv, GraphOf, MarkedFrom, Sound, RefsIn, NoState, Settled, Step, CanAscend, CanDescend, Ascended,
           Descended, Unmarked, SlotsLeft;
      ghost var m := Snap();
      ghost var base := Marks(m.tag);
      ghost var g := GraphOf(m, live);
      ghost var w := Walk(base, [], root);
      TracksInit(NIL, m, live, root);
      var n, p := root, NIL;
      while true
        invariant RootIn(NIL, m, root, live)
        invariant Tracks(NIL, m, live, base, root, w, Snap()) && FramesOk(g, w.stack)
        invariant n == w.cur && p == Parent(NIL, w.stack)
        decreases Unmarked(g, w), SlotsLeft(g, w.stack)
      {
        CurInPool(NIL, m, live, base, root, w, Snap());
        TracksInv(NIL, m, live, base, root, w, Snap());
        TracksKind(NIL, m, live, base, root, w, Snap());
        if n >= SPCL || tag[n].mark {
          if NIL == p {
            break;
          }
          TrackAscend(NIL, m, live, base, root, w, Snap());
          CanAscendNode(Snap(), p);
          n, p := Ascend(n, p);
        } else {
          TrackDescend(NIL, m, live, base, root, w, Snap());
          n, p := Descend(n, p);
        }
        StepDecreases(g, base, root, w);
        w := Step(g, w);
        TracksInv(NIL, m, live, base, root, w, Snap());
      }
      TracksDone(NIL, m, live, root, w, Snap());
    }

    /** Mark and sweep; the number of reclaimed nodes is returned. */
    method Gc(ghost live: set<int>, ghost chain0: seq<int>) returns (k: int, ghost chain: seq<int>)
      requires Shaped() && Ready(Snap(), live, freelist, chain0) && RootsIn(NIL, Snap(), Roots(), live)
      modifies this`freelist, car, cdr, tag
      ensures Collected(NIL, old(Snap()), live, Roots(), Snap(), freelist, chain) && k == |chain|
      ensures Sized(old(Snap())) && Sized(Snap())
      ensures KeepsFrom(old(Snap()), live, acc, Snap(), chain) && KeepsFrom(old(Snap()), live, env, Snap(), chain)
      ensures KeepsFrom(old(Snap()), live, symbols, Snap(), chain) && KeepsFrom(old(Snap()), live, tmp, Snap(), chain)
      ensures KeepsFrom(old(Snap()), live, stack, Snap(), chain) && KeepsFrom(old(Snap()), live, mstack, Snap(), chain)
      ensures KeepsFrom(old(Snap()), live, tmpcar, Snap(), chain) && KeepsFrom(old(Snap()), live, tmpcdr, Snap(), chain)
    {
      hide Quiet, Collected, MarkedRoots, MarkedFrom, Swept, Sound, RefsIn, NoState, GraphOf, FreeChain, Descending,
        KeepsFrom;
      ghost var m := Snap();
      NoMarksYet(NIL, m, live);
      QuietParts(NIL, m, live);
      var roots := Roots();
      var i := 0;
      while i < |roots|
        invariant 0 <= i <= |roots| && forall x :: 0 <= x < NNODES ==> !tag[x].vector
        invariant MarkedRoots(m, live, roots[..i], Snap()) && Closed(GraphOf(m, live), Marks(Snap().tag))
      {
        MarkedRootsSound(NIL, m, live, roots[..i], Snap());
        ghost var m1 := Snap();
        assert RootIn(NIL, m, roots[i], live);
        Mark(roots[i], live);
        NextMark(m, live, roots, i, m1, Snap());
        i := i + 1;
      }
      assert roots[..i] == roots;
      ghost var m1 := Snap();
      MarkedRootsSound(NIL, m, live, roots, m1);
      k, freelist, chain := 0, NIL, [];
      SweepInit(NIL, m1);
      i := 0;
      while i < NNODES
        invariant 0 <= i <= NNODES && k == |chain| && Roots() == roots
        invariant car[..] == m1.car
        invariant Swept(NIL, m1, i, cdr[..], tag[..], freelist, chain)
      {
        SweptAt(NIL, m1, i, cdr[..], tag[..], freelist, chain);
        if !tag[i].mark {
          SweepFree(NIL, m1, i, cdr[..], tag[..], freelist, chain);
          cdr[i] := freelist;
          freelist := i;
          k := k + 1;
          chain := [i] + chain;
        } else {
          SweepMarked(NIL, m1, i, cdr[..], tag[..], freelist, chain);
          tag[i] := tag[i].(mark := false);
        }
        i := i + 1;
      }
      SweepDone(NIL, m, live, roots, m1, Snap(), freelist, chain);
      RootsKept(m, live, roots, Snap(), freelist, chain);
      assert acc == roots[0] && env == roots[1] && symbols == roots[2] && stack == roots[3];
      assert mstack == roots[4] && tmpcar == roots[5] && tmpcdr == roots[6] && tmp == roots[7];
    }

    /** Allocates a node, collecting garbage first when the free list is empty. */
    method Cons3(a: int, d: int, t: Tag, ghost live: set<int>, ghost chain0: seq<int>)
      returns (r: Allocation, ghost kept: set<int>, ghost chain: seq<int>)
      requires Shaped() && Ready(Snap(), live, freelist, chain0) && RootsIn(NIL, Snap(), Roots(), live)
      requires t == PAIR || t == ATOM
      requires RootIn(NIL, Snap(), d, live) && (t == PAIR ==> RootIn(NIL, Snap(), a, live))
      modifies this`freelist, this`tmpcar, this`tmpcdr, car, cdr, tag
      ensures old(freelist) != NIL ==> r.Node? && kept == live && Roots() == old(Roots())
      ensures old(freelist) == NIL ==>
                && kept == Reached(old(Snap()), live, GuardedRoots(old(Roots()), a, d, t)) <= live
                && Roots() == old(Roots())[5 := NIL][6 := NIL]
                && (r.OutOfNodes? <==> forall x :: 0 <= x < NNODES ==> x in kept)
      ensures r.Node? ==>
                && Allocated(old(Snap()), kept, Roots(), a, d, t, r.n, Snap())
                && Ready(Snap(), kept + {r.n}, freelist, chain)
      ensures r.OutOfNodes? ==> Ready(Snap(), kept, freelist, chain) && RootsIn(NIL, Snap(), Roots(), kept)
    {
      hide Quiet, Ready, RootsIn, RootIn, Sound, Allocated, Preserved, FreeChain, Reached;
      kept, chain := live, chain0;
      if NIL == freelist {
        kept, chain := GuardedGc(a, d, t, live, chain0);
        if NIL == freelist {
          return OutOfNodes, kept, chain;
        }
      } else {
        PreservedSelf(Snap(), live, freelist, chain0);
      }
      ghost var m1 := Snap();
      var n := freelist;
      ReadyParts(m1, kept, freelist, chain);
      AllocatedFrom(m1, kept, freelist, chain, Roots(), a, d, t);
      freelist := cdr[freelist];
      car[n] := a;
      cdr[n] := d;
      tag[n] := t;
      assert Snap() == Filled(m1, n, a, d, t);
      AllocatedAfter(old(Snap()), m1, kept, Roots(), a, d, t, n, Snap());
      return Node(n), kept, chain[1..];
    }

    /** The collection inside cons3: the arguments are roots while it runs. */
    method GuardedGc(a: int, d: int, t: Tag, ghost live: set<int>, ghost chain0: seq<int>)
      returns (ghost kept: set<int>, ghost chain: seq<int>)
      requires Shaped() && Ready(Snap(), live, freelist, chain0) && RootsIn(NIL, Snap(), Roots(), live)
      requires RootIn(NIL, Snap(), d, live) && (t == PAIR ==> RootIn(NIL, Snap(), a, live))
      modifies this`freelist, this`tmpcar, this`tmpcdr, car, cdr, tag
      ensures kept == Reached(old(Snap()), live, GuardedRoots(old(Roots()), a, d, t)) <= live
      ensures Roots() == old(Roots())[5 := NIL][6 := NIL] && RootsIn(NIL, Snap(), Roots(), kept)
      ensures RootIn(NIL, Snap(), d, kept) && (t == PAIR ==> RootIn(NIL, Snap(), a, kept))
      ensures Ready(Snap(), kept, freelist, chain) && Sized(old(Snap()))
      ensures forall x :: x in kept ==> Preserved(old(Snap()), Snap(), x)
      ensures freelist == NIL <==> forall x :: 0 <= x < NNODES ==> x in kept
    {
      hide Quiet, Ready, RootsIn, RootIn, Collected, Sound, Preserved, FreeChain, Reached;
      ghost var m := Snap();
      ReadyParts(m, live, freelist, chain0);
      tmpcdr := d;
      if t == PAIR {
        tmpcar := a;
      }
      ghost var guarded := Roots();
      assert guarded == GuardedRoots(old(Roots()), a, d, t);
      GuardedIn(m, old(Roots()), live, a, d, t);
      var k;
      k, chain := Gc(live, chain0);
      ghost var m1 := Snap();
      kept := Reached(m, live, guarded);
      CollectedReady(m, live, old(freelist), chain0, guarded, m1, freelist, chain);
      CollectedAll(m, live, guarded, m1, freelist, chain);
      Unguarded(m1, old(Roots()), kept, a, d, t);
      tmpcar, tmpcdr := NIL, NIL;
      assert Roots() == old(Roots())[5 := NIL][6 := NIL];
      ReadyParts(m1, kept, freelist, chain);
    }
  }

  lemma PreservedSelf(m: Mem, live: set<int>, head: int, chain: seq<int>)
    requires Ready(m, live, head, chain)
    ensures forall x :: x in live ==> Preserved(m, m, x)
  {
  }

  /** The roots the collector sees while cons3 protects its arguments. */
  function GuardedRoots(roots: seq<int>, a: int, d: int, t: Tag): (r: seq<int>)
    requires |roots| == 8
    ensures |r| == 8
  {
    (if t == PAIR then roots[5 := a] else roots)[6 := d]
  }

  /** What an allocation guarantees about the nodes in `kept`, the live nodes it started from or what a
      collection left of them. */
  ghost predicate Allocated(m: Mem, kept: set<int>, roots: seq<int>, a: int, d: int, t: Tag, n: int, m2: Mem)
    requires Sized(m) && Sized(m2)
  {
    && 0 <= n < NNODES == |m2.car| && n !in kept
    && m2.car[n] == a && m2.cdr[n] == d && m2.tag[n] == t
    && (forall x :: x in kept ==> Preserved(m, m2, x))
    && RootsIn(NIL, m2, roots, kept) && RootIn(NIL, m2, d, kept) && (t == PAIR ==> RootIn(NIL, m2, a, kept))
    && Sound(m2, kept + {n}) && !ReachAny(GraphOf(m2, kept + {n}), roots, n)
  }

  lemma AllocatedFrom(m: Mem, kept: set<int>, head: int, chain: seq<int>, roots: seq<int>, a: int, d: int, t: Tag)
    requires Ready(m, kept, head, chain) && |chain| > 0
    requires t == PAIR || t == ATOM
    requires RootsIn(NIL, m, roots, kept) && RootIn(NIL, m, d, kept) && (t == PAIR ==> RootIn(NIL, m, a, kept))
    ensures Sized(m) && 0 <= head < NNODES && |m.car| == NNODES
    ensures
      var m2 := Filled(m, head, a, d, t);
      Allocated(m, kept, roots, a, d, t, head, m2) && Ready(m2, kept + {head}, m.cdr[head], chain[1..])
  {
    FilledReady(m, kept, head, chain, a, d, t);
    ReadyParts(m, kept, head, chain);
    var m2 := Filled(m, head, a, d, t);
    ReadyParts(m2, kept + {head}, m.cdr[head], chain[1..]);
    hide Ready, Preserved, Quiet, FreeChain;
    RootsElsewhere(NIL, m, m2, roots, kept);
    FreshUnreachable(NIL, m, m2, kept, head, roots);
    QuietParts(NIL, m2, kept + {head});
  }

  lemma ReadyParts(m: Mem, live: set<int>, head: int, chain: seq<int>)
    requires Ready(m, live, head, chain)
    ensures Quiet(NIL, m, live) && Sized(m) && |m.car| == NNODES && Sound(m, live)
    ensures head == NIL <==> |chain| == 0
    ensures |chain| > 0 ==> 0 <= head < NNODES
  {
    if |chain| > 0 {
      assert chain[0] in chain;
    }
  }

  lemma AllocatedAfter(m: Mem, m1: Mem, kept: set<int>, roots: seq<int>, a: int, d: int, t: Tag, n: int, m2: Mem)
    requires Sized(m) && Sized(m1) && Sized(m2) && |m1.car| == |m.car|
    requires Allocated(m1, kept, roots, a, d, t, n, m2)
    requires forall x :: x in kept ==> Preserved(m, m1, x)
    ensures Allocated(m, kept, roots, a, d, t, n, m2)
  {
    forall x | x in kept ensures Preserved(m, m2, x) {
      assert Preserved(m, m1, x) && Preserved(m1, m2, x);
    }
  }

  lemma GuardedIn(m: Mem, roots: seq<int>, live: set<int>, a: int, d: int, t: Tag)
    requires |roots| == 8 && RootsIn(NIL, m, roots, live)
    requires RootIn(NIL, m, d, live) && (t == PAIR ==> RootIn(NIL, m, a, live))
    ensures RootsIn(NIL, m, GuardedRoots(roots, a, d, t), live)
  {
    forall r | r in GuardedRoots(roots, a, d, t) ensures RootIn(NIL, m, r, live) {
      if r != a && r != d {
        assert r in roots;
      } else if r == a && t != PAIR && r != d {
        assert r in roots;
      }
    }
  }

  /** After the collection the protected arguments are live, and so are the roots with the protection removed. */
  lemma Unguarded(m: Mem, roots: seq<int>, live: set<int>, a: int, d: int, t: Tag)
    requires |roots| == 8 && |m.car| == NNODES && RootsIn(NIL, m, GuardedRoots(roots, a, d, t), live)
    ensures RootsIn(NIL, m, roots[5 := NIL][6 := NIL], live)
    ensures RootIn(NIL, m, d, live) && (t == PAIR ==> RootIn(NIL, m, a, live))
  {
    var guarded := GuardedRoots(roots, a, d, t);
    var bare := roots[5 := NIL][6 := NIL];
    assert guarded[6] in guarded && guarded[5] in guarded;
    forall r | r in bare ensures RootIn(NIL, m, r, live) {
      var k :| 0 <= k < |bare| && bare[k] == r;
      assert guarded[k] in guarded;
    }
  }

  lemma CollectedAll(m: Mem, live: set<int>, roots: seq<int>, m2: Mem, head: int, chain: seq<int>)
    requires Quiet(NIL, m, live) && |m.car| == NNODES && Collected(NIL, m, live, roots, m2, head, chain)
    ensures Sized(m2) && |m2.car| == NNODES
    ensures |chain| == 0 <==> forall x :: 0 <= x < NNODES ==> x in Reached(m, live, roots)
  {
    hide Sound, GraphOf, ReachAny, FreeChain, Descending;
    QuietParts(NIL, m, live);
    assert forall x :: x in chain <==> 0 <= x < NNODES && x !in Reached(m, live, roots);
    if |chain| > 0 {
      assert chain[0] in chain;
    } else {
      assert forall x :: x !in chain;
    }
  }

  lemma CanAscendNode(mem: Mem, p: int)
    requires CanAscend(mem, p)
    ensures Sized(mem) && 0 <= p < |mem.car|
  {
  }

  /** Marking never turns a node into a vector. */
  lemma TracksKind(nil: int, m: Mem, live: set<int>, base: set<int>, root: int, w: Walk, mem: Mem)
    requires Sound(m, live) && Tracks(nil, m, live, base, root, w, mem)
    ensures |mem.tag| == |m.tag| && forall x :: 0 <= x < |m.tag| ==> mem.tag[x].vector == m.tag[x].vector
  {
  }
}
