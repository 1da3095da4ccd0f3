/** Marking a node pool by pointer reversal and sweeping it, for any null reference `nil`.

    Special objects lie outside the pool on the side of `nil`: below it in S9core, above it in Kilo LISP. */
module PoolMarking {
  import opened Marking
  import opened PointerReversal
  import opened FreeLists

  function Marks(tag: seq<Tag>): set<int> {
    set x | 0 <= x < |tag| && tag[x].mark
  }

  /** A reference is a node of the pool or a special object, on the side of nil. */
  predicate Ref(nil: int, m: Mem, v: int) {
    if nil < 0 then v < |m.car| else v >= 0
  }

  ghost predicate RootIn(nil: int, m: Mem, root: int, live: set<int>) {
    Ref(nil, m, root) && (0 <= root < |m.car| ==> root in live)
  }

  /** Live nodes hold references, and nil is none of the nodes. */
  ghost predicate RefsIn(nil: int, m: Mem, live: set<int>)
    requires Sound(m, live)
  {
    && !(0 <= nil < |m.car|)
    && forall x, j :: x in live && 0 <= j < |Slots(m, x)| ==> Ref(nil, m, Slots(m, x)[j])
  }

  ghost predicate NoState(m: Mem, live: set<int>)
    requires Sound(m, live)
  {
    forall x :: x in live ==> !m.tag[x].state
  }

  /** A walk over the graph of m together with a memory that encodes it. */
  ghost predicate Tracks(nil: int, m: Mem, live: set<int>, base: set<int>, root: int, w: Walk, mem: Mem)
    requires Sound(m, live)
  {
    && Inv(GraphOf(m, live), base, root, w)
    && Represents(nil, m, live, base, w, mem)
  }

  /** What the marker finds at the node the walk is about to visit. */
  lemma AtCur(nil: int, m: Mem, live: set<int>, base: set<int>, root: int, w: Walk, mem: Mem)
    requires Sound(m, live) && Tracks(nil, m, live, base, root, w, mem) && 0 <= w.cur < |m.car|
    ensures |mem.tag| == |m.tag| && mem.tag[w.cur].mark == (w.cur in w.marked)
    ensures mem.tag[w.cur].vector == m.tag[w.cur].vector && mem.tag[w.cur].atom == m.tag[w.cur].atom
    ensures w.cur !in w.marked ==> mem.tag[w.cur].state == m.tag[w.cur].state
    ensures Sized(mem) && |mem.car| == |m.car| && |mem.vec| == |m.vec|
  {
    if w.cur !in w.marked {
      assert !OnStack(w.stack, w.cur);
    }
  }

  /** What the marker finds at the node of the top frame. */
  lemma TopFrame(m: Mem, live: set<int>, base: set<int>, root: int, w: Walk)
    requires Sound(m, live) && Inv(GraphOf(m, live), base, root, w) && w.stack != []
    ensures
      var f := Top(w.stack);
      && 0 <= f.node < |m.car| && f.node in w.marked
      && GoodFrame(m, live, f) && GraphOf(m, live)[f.node] == Slots(m, f.node)
      && w.cur == Slots(m, f.node)[f.slot]
      && w.stack == Below(w.stack) + [f]
  {
    hide Reach, OnStack, SettledKids, Slots, Distinct;
    var f := w.stack[|w.stack| - 1];
    assert f.node in w.marked;
    assert GraphOf(m, live)[f.node] == if f.node in live then Slots(m, f.node) else [];
  }

  lemma AtTop(nil: int, m: Mem, live: set<int>, base: set<int>, root: int, w: Walk, mem: Mem)
    requires Sound(m, live) && Tracks(nil, m, live, base, root, w, mem) && w.stack != []
    ensures
      var f := Top(w.stack);
      && GoodFrame(m, live, f) && |mem.tag| == |m.tag| && f.node in w.marked
      && mem.tag[f.node].vector == m.tag[f.node].vector && mem.tag[f.node].atom == m.tag[f.node].atom
      && mem.tag[f.node].state == FrameState(m, f)
      && w.cur == Slots(m, f.node)[f.slot]
      && w.stack == Below(w.stack) + [f]
      && FramesIn(m, w.stack) && |mem.car| == |m.car| == |mem.cdr| && |mem.vec| == |m.vec|
      && GraphOf(m, live)[f.node] == Slots(m, f.node)
  {
    hide Inv, GraphOf, Sound, Slots;
    TopFrame(m, live, base, root, w);
    RepSizes(nil, m, live, base, w, mem);
    assert w.stack[|w.stack| - 1] == Top(w.stack);
  }

  /** The current object is special or a node of the pool, and its mark tells whether the walk is settled. */
  lemma CurInPool(nil: int, m: Mem, live: set<int>, base: set<int>, root: int, w: Walk, mem: Mem)
    requires Sound(m, live) && RefsIn(nil, m, live) && Tracks(nil, m, live, base, root, w, mem)
    requires RootIn(nil, m, root, live)
    ensures Ref(nil, m, w.cur) && |mem.tag| == |m.tag| == |m.car|
    ensures Settled(GraphOf(m, live), w) <==> !(0 <= w.cur < |m.car|) || mem.tag[w.cur].mark
    ensures FramesOk(GraphOf(m, live), w.stack)
    ensures Parent(nil, w.stack) == nil <==> w.stack == []
  {
    if w.stack != [] {
      AtTop(nil, m, live, base, root, w, mem);
    }
    if 0 <= w.cur < |m.car| {
      AtCur(nil, m, live, base, root, w, mem);
    }
  }

  lemma TracksInv(nil: int, m: Mem, live: set<int>, base: set<int>, root: int, w: Walk, mem: Mem)
    requires Sound(m, live) && Tracks(nil, m, live, base, root, w, mem)
    ensures Sized(m) && Inv(GraphOf(m, live), base, root, w) && FramesOk(GraphOf(m, live), w.stack)
  {
  }

  lemma ShapeDistinct(g: Graph, base: set<int>, root: int, w: Walk)
    requires Inv(g, base, root, w)
    ensures Distinct(w.stack) && FramesOk(g, w.stack)
  {
  }

  /** The header and the type of a live vector, as the marker reads them in mid-traversal. */
  lemma VectorAt(nil: int, m: Mem, live: set<int>, base: set<int>, root: int, w: Walk, mem: Mem, x: int)
    requires Sound(m, live) && Tracks(nil, m, live, base, root, w, mem) && x in live && m.tag[x].vector
    ensures OwnsBlock(m, x)
    ensures |mem.car| == |m.car| == |mem.cdr| && |mem.vec| == |m.vec|
    ensures mem.car[x] == m.car[x] && mem.cdr[x] == m.cdr[x] && mem.vec[m.cdr[x] - 1] == m.vec[m.cdr[x] - 1]
  {
    EncodeKeepsVectors(nil, m, live, w.stack, x);
    SizeNotHeader(m, live, x);
  }

  lemma TopIndex(nil: int, m: Mem, live: set<int>, base: set<int>, root: int, w: Walk, mem: Mem)
    requires Sound(m, live) && Tracks(nil, m, live, base, root, w, mem) && w.stack != []
    requires GoodFrame(m, live, Top(w.stack)) && m.tag[Top(w.stack).node].vector
    ensures
      var f := Top(w.stack);
      OwnsBlock(m, f.node) && |mem.vec| == |m.vec| && mem.vec[m.cdr[f.node] - 2] == f.slot
  {
    hide Inv, GraphOf, Slots, Encode, Agree, PayloadCells, Apart, LinkAt, Header;
    var f := w.stack[|w.stack| - 1];
    assert IndexAt(m, live, mem.vec, f.node) == f.slot;
  }

  lemma TrackAdvance(nil: int, m: Mem, live: set<int>, base: set<int>, root: int, w: Walk, mem: Mem)
    requires Sound(m, live) && Tracks(nil, m, live, base, root, w, mem)
    requires Settled(GraphOf(m, live), w) && w.stack != [] && FramesIn(m, w.stack)
    requires Top(w.stack).slot + 1 < |Slots(m, Top(w.stack).node)|
    ensures
      var f := Top(w.stack);
      && ValidLoc(mem, LocOf(m, f)) && ValidLoc(mem, LocOf(m, Frame(f.node, f.slot + 1)))
      && |mem.tag| == |m.tag| && |mem.vec| == |m.vec| && (m.tag[f.node].vector ==> OwnsBlock(m, f.node))
      && Read(mem, LocOf(m, Frame(f.node, f.slot + 1))) == Step(GraphOf(m, live), w).cur
      && Tracks(nil, m, live, base, root, Step(GraphOf(m, live), w), Advanced(m, f, w.cur, mem))
  {
    hide Represents, Sound, GraphOf, Inv;
    TracksInv(nil, m, live, base, root, w, mem);
    ShapeDistinct(GraphOf(m, live), base, root, w);
    AtTop(nil, m, live, base, root, w, mem);
    var f := Top(w.stack);
    StepKeepsInv(GraphOf(m, live), base, root, w);
    RepAdvance(nil, m, live, base, w.marked, Below(w.stack), f, w.cur, mem);
  }

  lemma TrackPop(nil: int, m: Mem, live: set<int>, base: set<int>, root: int, w: Walk, mem: Mem)
    requires Sound(m, live) && Tracks(nil, m, live, base, root, w, mem) && NoState(m, live)
    requires Settled(GraphOf(m, live), w) && w.stack != [] && FramesIn(m, w.stack)
    requires Top(w.stack).slot + 1 >= |Slots(m, Top(w.stack).node)|
    ensures
      var f := Top(w.stack);
      && ValidLoc(mem, LocOf(m, f)) && Read(mem, LocOf(m, f)) == Parent(nil, Below(w.stack))
      && |mem.tag| == |m.tag|
      && Step(GraphOf(m, live), w) == Walk(w.marked, Below(w.stack), f.node)
      && Tracks(nil, m, live, base, root, Step(GraphOf(m, live), w), Left(m, f, w.cur, mem))
  {
    hide Represents, Sound, GraphOf, Inv;
    TracksInv(nil, m, live, base, root, w, mem);
    ShapeDistinct(GraphOf(m, live), base, root, w);
    AtTop(nil, m, live, base, root, w, mem);
    var f := Top(w.stack);
    StepKeepsInv(GraphOf(m, live), base, root, w);
    RepPop(nil, m, live, base, w.marked, Below(w.stack), f, w.cur, mem);
  }

  lemma CurLive(m: Mem, live: set<int>, base: set<int>, root: int, w: Walk)
    requires Sound(m, live) && Inv(GraphOf(m, live), base, root, w) && 0 <= w.cur < |m.car|
    requires 0 <= root < |m.car| ==> root in live
    ensures w.cur in live
  {
    if w.stack != [] {
      var f := w.stack[|w.stack| - 1];
      assert GraphOf(m, live)[f.node] == if f.node in live then Slots(m, f.node) else [];
    }
  }

  lemma TrackLeaf(nil: int, m: Mem, live: set<int>, base: set<int>, root: int, w: Walk, mem: Mem)
    requires Sound(m, live) && Tracks(nil, m, live, base, root, w, mem)
    requires !Settled(GraphOf(m, live), w) && w.cur in live && Slots(m, w.cur) == []
    ensures |mem.vec| == |m.vec| && |mem.tag| == |m.tag| && (m.tag[w.cur].vector ==> OwnsBlock(m, w.cur))
    ensures Tracks(nil, m, live, base, root, Step(GraphOf(m, live), w), MarkedLeaf(m, w.cur, mem))
  {
    assert GraphOf(m, live)[w.cur] == [];
    RepLeaf(nil, m, live, base, w.marked, w.stack, w.cur, mem);
    StepKeepsInv(GraphOf(m, live), base, root, w);
  }

  lemma TrackPush(nil: int, m: Mem, live: set<int>, base: set<int>, root: int, w: Walk, mem: Mem)
    requires Sound(m, live) && Tracks(nil, m, live, base, root, w, mem)
    requires !Settled(GraphOf(m, live), w) && w.cur in live && Slots(m, w.cur) != []
    ensures |mem.vec| == |m.vec| && |mem.tag| == |m.tag| && (m.tag[w.cur].vector ==> OwnsBlock(m, w.cur))
    ensures
      var l := LocOf(m, Frame(w.cur, 0));
      && ValidLoc(mem, l) && Read(mem, l) == Step(GraphOf(m, live), w).cur
      && Step(GraphOf(m, live), w).stack == w.stack + [Frame(w.cur, 0)]
    ensures Tracks(nil, m, live, base, root, Step(GraphOf(m, live), w), Entered(m, w.cur, Parent(nil, w.stack), mem))
  {
    assert GraphOf(m, live)[w.cur] == Slots(m, w.cur);
    RepPush(nil, m, live, base, w.marked, w.stack, w.cur, mem);
    StepKeepsInv(GraphOf(m, live), base, root, w);
  }

  // ---------------------------------------------------------------- the arcs as functions of the memory

  predicate CanAscend(mem: Mem, p: int) {
    && Sized(mem) && 0 <= p < |mem.car|
    && (mem.tag[p].vector ==> OwnsBlock(mem, p) && 0 <= mem.vec[mem.cdr[p] - 2] < PayloadCells(mem.vec[mem.cdr[p] - 1]))
  }

  function Ascended(mem: Mem, n: int, p: int): (Mem, int, int)
    requires CanAscend(mem, p)
  {
    if mem.tag[p].vector then
      var v := mem.cdr[p];
      var i := mem.vec[v - 2];
      if mem.tag[p].state && i + 1 < PayloadCells(mem.vec[v - 1]) then
        (mem.(vec := mem.vec[v + i + 1 := mem.vec[v + i]][v + i := n][v - 2 := i + 1]), mem.vec[v + i + 1], p)
      else
        (mem.(vec := mem.vec[v + i := n], tag := mem.tag[p := mem.tag[p].(state := false)]), p, mem.vec[v + i])
    else if mem.tag[p].state then
      (mem.(cdr := mem.cdr[p := mem.car[p]], car := mem.car[p := n], tag := mem.tag[p := mem.tag[p].(state := false)]),
       mem.cdr[p], p)
    else
      (mem.(cdr := mem.cdr[p := n]), p, mem.cdr[p])
  }

  predicate CanDescend(mem: Mem, n: int) {
    Sized(mem) && 0 <= n < |mem.car| && (mem.tag[n].vector ==> OwnsBlock(mem, n))
  }

  function Descended(mem: Mem, n: int, p: int): (Mem, int, int)
    requires CanDescend(mem, n)
  {
    if mem.tag[n].vector then
      var v := mem.cdr[n];
      if mem.car[n] == T_VECTOR && PayloadCells(mem.vec[v - 1]) != 0 then
        (mem.(tag := mem.tag[n := mem.tag[n].(mark := true, state := true)],
              vec := mem.vec[v - 3 := n][v - 2 := 0][v := p]), mem.vec[v], n)
      else
        (mem.(tag := mem.tag[n := mem.tag[n].(mark := true)], vec := mem.vec[v - 3 := n]), n, p)
    else if mem.tag[n].atom then
      (mem.(tag := mem.tag[n := mem.tag[n].(mark := true)], cdr := mem.cdr[n := p]), mem.cdr[n], n)
    else
      (mem.(tag := mem.tag[n := mem.tag[n].(mark := true, state := true)], car := mem.car[n := p]), mem.car[n], n)
  }

  lemma TopAtFrame(nil: int, m: Mem, live: set<int>, base: set<int>, root: int, w: Walk, mem: Mem)
    requires Sound(m, live) && Tracks(nil, m, live, base, root, w, mem) && w.stack != []
    ensures
      var f := Top(w.stack);
      && FramesIn(m, w.stack) && AtFrame(m, f, mem) && f.node in live
      && GraphOf(m, live)[f.node] == Slots(m, f.node)
  {
    hide Tracks, GraphOf;
    AtTop(nil, m, live, base, root, w, mem);
    var f := Top(w.stack);
    if m.tag[f.node].vector {
      VectorAt(nil, m, live, base, root, w, mem, f.node);
      TopIndex(nil, m, live, base, root, w, mem);
    }
  }

  /** Each arc taken at a parent is one transition of the walk. */
  lemma TrackAscend(nil: int, m: Mem, live: set<int>, base: set<int>, root: int, w: Walk, mem: Mem)
    requires Sound(m, live) && NoState(m, live) && Tracks(nil, m, live, base, root, w, mem)
    requires Settled(GraphOf(m, live), w) && w.stack != []
    ensures CanAscend(mem, Parent(nil, w.stack))
    ensures
      var (mem', n', p') := Ascended(mem, w.cur, Parent(nil, w.stack));
      var w' := Step(GraphOf(m, live), w);
      Tracks(nil, m, live, base, root, w', mem') && n' == w'.cur && p' == Parent(nil, w'.stack)
  {
    hide Tracks;
    TopAtFrame(nil, m, live, base, root, w, mem);
    var f := Top(w.stack);
    var more := f.slot + 1 < |Slots(m, f.node)|;
    if more {
      TrackAdvance(nil, m, live, base, root, w, mem);
      AdvancedIsAscended(m, f, w.cur, mem);
    } else {
      TrackPop(nil, m, live, base, root, w, mem);
      LeftIsAscended(m, f, w.cur, mem);
    }
  }

  lemma AdvancedIsAscended(m: Mem, f: Frame, cur: int, mem: Mem)
    requires AtFrame(m, f, mem) && f.slot + 1 < |Slots(m, f.node)|
    ensures
      var h := Frame(f.node, f.slot + 1);
      && ValidLoc(mem, LocOf(m, f)) && ValidLoc(mem, LocOf(m, h))
      && CanAscend(mem, f.node)
      && Ascended(mem, cur, f.node) == (Advanced(m, f, cur, mem), Read(mem, LocOf(m, h)), f.node)
  {
    if m.tag[f.node].vector {
      VectorAdvanced(m, f, cur, mem);
    } else {
      PairAdvanced(m, f, cur, mem);
    }
  }

  lemma VectorAdvanced(m: Mem, f: Frame, cur: int, mem: Mem)
    requires AtFrame(m, f, mem) && f.slot + 1 < |Slots(m, f.node)| && m.tag[f.node].vector
    ensures
      var h := Frame(f.node, f.slot + 1);
      && ValidLoc(mem, LocOf(m, f)) && ValidLoc(mem, LocOf(m, h))
      && CanAscend(mem, f.node)
      && Ascended(mem, cur, f.node) == (Advanced(m, f, cur, mem), Read(mem, LocOf(m, h)), f.node)
  {
    hide PayloadCells;
    var v := m.cdr[f.node];
    assert |Slots(m, f.node)| <= PayloadCells(m.vec[v - 1]) && FrameState(m, f);
    assert v + f.slot + 1 < |mem.vec|;
    hide Slots, CanAscend, Ascended, Advanced;
    VectorCanAscend(mem, f.node, f.slot);
    VectorAscended(mem, f.node, cur, f.slot);
    AdvancedInVector(m, f, cur, mem);
  }

  lemma AdvancedInVector(m: Mem, f: Frame, cur: int, mem: Mem)
    requires Sized(m) && 0 <= f.node < |m.car| && m.tag[f.node].vector && OwnsBlock(m, f.node)
    requires |mem.tag| == |m.tag| && |mem.vec| == |m.vec| && mem.tag[f.node].state
    requires m.cdr[f.node] + f.slot + 1 < |mem.vec|
    ensures
      var v := m.cdr[f.node];
      Advanced(m, f, cur, mem)
      == mem.(vec := mem.vec[v + f.slot + 1 := mem.vec[v + f.slot]][v + f.slot := cur][v - 2 := f.slot + 1])
  {
    hide PayloadCells;
    assert mem.tag[f.node := mem.tag[f.node].(state := true)] == mem.tag;
  }

  lemma VectorCanAscend(mem: Mem, p: int, i: int)
    requires Sized(mem) && 0 <= p < |mem.car| && OwnsBlock(mem, p) && i == mem.vec[mem.cdr[p] - 2]
    requires 0 <= i < PayloadCells(mem.vec[mem.cdr[p] - 1])
    ensures CanAscend(mem, p)
  {
  }

  /** The arc that moves on within a vector. */
  lemma VectorAscended(mem: Mem, p: int, cur: int, i: int)
    requires CanAscend(mem, p) && mem.tag[p].vector && mem.tag[p].state && i == mem.vec[mem.cdr[p] - 2]
    requires i + 1 < PayloadCells(mem.vec[mem.cdr[p] - 1])
    ensures
      var v := mem.cdr[p];
      && 3 <= v && v + i + 1 < |mem.vec|
      && Ascended(mem, cur, p)
         == (mem.(vec := mem.vec[v + i + 1 := mem.vec[v + i]][v + i := cur][v - 2 := i + 1]), mem.vec[v + i + 1], p)
  {
  }

  lemma PairAdvanced(m: Mem, f: Frame, cur: int, mem: Mem)
    requires AtFrame(m, f, mem) && f.slot + 1 < |Slots(m, f.node)| && !m.tag[f.node].vector
    ensures
      var h := Frame(f.node, f.slot + 1);
      && ValidLoc(mem, LocOf(m, f)) && ValidLoc(mem, LocOf(m, h))
      && CanAscend(mem, f.node)
      && Ascended(mem, cur, f.node) == (Advanced(m, f, cur, mem), Read(mem, LocOf(m, h)), f.node)
  {
    hide PayloadCells, OwnsBlock;
  }

  lemma LeftIsAscended(m: Mem, f: Frame, cur: int, mem: Mem)
    requires AtFrame(m, f, mem) && f.slot + 1 == |Slots(m, f.node)|
    ensures
      && ValidLoc(mem, LocOf(m, f)) && CanAscend(mem, f.node)
      && Ascended(mem, cur, f.node) == (Left(m, f, cur, mem), f.node, Read(mem, LocOf(m, f)))
  {
    var (mem', n', p') := Ascended(mem, cur, f.node);
    var a := Left(m, f, cur, mem);
    assert mem'.car == a.car && mem'.cdr == a.cdr && mem'.tag == a.tag && mem'.vec == a.vec;
  }

  /** What the memory shows about a frame: the flags of its node, and the header of its vector. */
  predicate AtFrame(m: Mem, f: Frame, mem: Mem) {
    && Sized(m) && Sized(mem) && |mem.car| == |m.car| && |mem.vec| == |m.vec|
    && 0 <= f.node < |m.car| && f.slot < |Slots(m, f.node)|
    && mem.tag[f.node].vector == m.tag[f.node].vector && mem.tag[f.node].atom == m.tag[f.node].atom
    && mem.tag[f.node].state == FrameState(m, f)
    && (m.tag[f.node].vector ==>
          && OwnsBlock(m, f.node) && mem.cdr[f.node] == m.cdr[f.node]
          && mem.vec[m.cdr[f.node] - 1] == m.vec[m.cdr[f.node] - 1]
          && mem.vec[m.cdr[f.node] - 2] == f.slot)
  }

  lemma CurAtNode(nil: int, m: Mem, live: set<int>, base: set<int>, root: int, w: Walk, mem: Mem)
    requires Sound(m, live) && NoState(m, live) && Tracks(nil, m, live, base, root, w, mem)
    requires !Settled(GraphOf(m, live), w) && (0 <= root < |m.car| ==> root in live)
    ensures AtNode(m, w.cur, mem) && w.cur in live
  {
    hide Represents, Inv;
    AtCur(nil, m, live, base, root, w, mem);
    CurLive(m, live, base, root, w);
    if m.tag[w.cur].vector {
      VectorAt(nil, m, live, base, root, w, mem, w.cur);
    }
  }

  /** Each arc taken at an unmarked node is one transition of the walk. */
  lemma TrackDescend(nil: int, m: Mem, live: set<int>, base: set<int>, root: int, w: Walk, mem: Mem)
    requires Sound(m, live) && NoState(m, live) && Tracks(nil, m, live, base, root, w, mem)
    requires !Settled(GraphOf(m, live), w)
    requires 0 <= root < |m.car| ==> root in live
    ensures CanDescend(mem, w.cur)
    ensures
      var (mem', n', p') := Descended(mem, w.cur, Parent(nil, w.stack));
      var w' := Step(GraphOf(m, live), w);
      Tracks(nil, m, live, base, root, w', mem') && n' == w'.cur && p' == Parent(nil, w'.stack)
  {
    CurAtNode(nil, m, live, base, root, w, mem);
    hide Tracks, GraphOf;
    if Slots(m, w.cur) == [] {
      TrackLeaf(nil, m, live, base, root, w, mem);
      LeafIsDescended(m, w.cur, Parent(nil, w.stack), mem);
    } else {
      TrackPush(nil, m, live, base, root, w, mem);
      EnteredIsDescended(m, w.cur, Parent(nil, w.stack), mem);
    }
  }

  predicate AtNode(m: Mem, x: int, mem: Mem) {
    && Sized(m) && Sized(mem) && |mem.car| == |m.car| && |mem.vec| == |m.vec| && 0 <= x < |m.car|
    && mem.tag[x].vector == m.tag[x].vector && mem.tag[x].atom == m.tag[x].atom
    && (m.tag[x].vector ==>
          && OwnsBlock(m, x) && mem.car[x] == m.car[x] && mem.cdr[x] == m.cdr[x]
          && mem.vec[m.cdr[x] - 1] == m.vec[m.cdr[x] - 1])
    && (!m.tag[x].vector && m.tag[x].atom ==> !mem.tag[x].state)
  }

  lemma EnteredIsDescended(m: Mem, x: int, parent: int, mem: Mem)
    requires AtNode(m, x, mem) && Slots(m, x) != []
    ensures
      && CanDescend(mem, x) && ValidLoc(mem, LocOf(m, Frame(x, 0)))
      && Descended(mem, x, parent) == (Entered(m, x, parent, mem), Read(mem, LocOf(m, Frame(x, 0))), x)
  {
    var (mem', n', p') := Descended(mem, x, parent);
    var a := Entered(m, x, parent, mem);
    assert mem'.car == a.car && mem'.cdr == a.cdr && mem'.tag == a.tag && mem'.vec == a.vec;
  }

  lemma LeafIsDescended(m: Mem, x: int, parent: int, mem: Mem)
    requires AtNode(m, x, mem) && Slots(m, x) == []
    ensures CanDescend(mem, x) && Descended(mem, x, parent) == (MarkedLeaf(m, x, mem), x, parent)
  {
  }

  /** m2 is m after marking from root: only marks, and the links of newly marked vectors, differ. */
  ghost predicate MarkedFrom(m: Mem, live: set<int>, root: int, m2: Mem)
    requires Sound(m, live)
  {
    var newly := iset x | x !in Marks(m.tag) && Reach(GraphOf(m, live), Marks(m.tag), root, x);
    && m2.car == m.car && m2.cdr == m.cdr && |m2.tag| == |m.tag| && |m2.vec| == |m.vec|
    && (forall x :: 0 <= x < |m.tag| ==> m2.tag[x] == m.tag[x].(mark := m.tag[x].mark || x in newly))
    && (forall a :: 0 <= a < |m.vec| && !Header(m, live, a) ==> m2.vec[a] == m.vec[a])
    && (forall x {:trigger LinkAt(m, live, m2.vec, x)} :: x in live && m.tag[x].vector ==>
          LinkAt(m, live, m2.vec, x) == if x in newly then x else LinkAt(m, live, m.vec, x))
  }

  lemma TracksInit(nil: int, m: Mem, live: set<int>, root: int)
    requires Sound(m, live)
    ensures Tracks(nil, m, live, Marks(m.tag), root, Walk(Marks(m.tag), [], root), m)
  {
    InvInit(GraphOf(m, live), Marks(m.tag), root);
  }

  lemma TracksDone(nil: int, m: Mem, live: set<int>, root: int, w: Walk, mem: Mem)
    requires Sound(m, live) && NoState(m, live)
    requires Tracks(nil, m, live, Marks(m.tag), root, w, mem) && Done(GraphOf(m, live), w)
    ensures MarkedFrom(m, live, root, mem)
  {
    DoneMarksReachable(GraphOf(m, live), Marks(m.tag), root, w);
    forall x | 0 <= x < |m.tag|
      ensures mem.tag[x].state == m.tag[x].state && mem.tag[x].mark == (x in w.marked)
    {
      assert !OnStack(w.stack, x);
    }
  }

  // ---------------------------------------------------------------- marking from all roots

  /** m2 differs from m in marks and in link and index words only. */
  ghost predicate SameStructure(m: Mem, live: set<int>, m2: Mem)
    requires Sound(m, live)
  {
    && m2.car == m.car && m2.cdr == m.cdr && |m2.tag| == |m.tag| && |m2.vec| == |m.vec|
    && (forall x :: 0 <= x < |m.tag| ==> m2.tag[x] == m.tag[x].(mark := m2.tag[x].mark))
    && (forall a :: 0 <= a < |m.vec| && !Header(m, live, a) ==> m2.vec[a] == m.vec[a])
  }

  lemma SameStructureNode(m: Mem, live: set<int>, m2: Mem, x: int)
    requires Sound(m, live) && SameStructure(m, live, m2) && x in live
    ensures Sized(m2) && 0 <= x < |m2.car| && Slots(m2, x) == Slots(m, x)
    ensures m.tag[x].vector ==>
              OwnsBlock(m, x) && OwnsBlock(m2, x) && m2.vec[m.cdr[x] - 1] == m.vec[m.cdr[x] - 1]
              && Payload(m2, x) == Payload(m, x)
  {
    if m.tag[x].vector {
      SizeNotHeader(m, live, x);
      PayloadNotHeader(m, live, x);
      assert Payload(m2, x) == Payload(m, x);
    }
  }

  lemma PayloadNotHeader(m: Mem, live: set<int>, x: int)
    requires Sound(m, live) && x in live && m.tag[x].vector
    ensures OwnsBlock(m, x)
    ensures forall a :: m.cdr[x] <= a < m.cdr[x] + PayloadCells(m.vec[m.cdr[x] - 1]) ==> !Header(m, live, a)
  {
    forall y | y in live && m.tag[y].vector && y != x ensures OwnsBlock(m, y) && Apart(m, x, y) {
    }
  }

  lemma SameStructureSound(m: Mem, live: set<int>, m2: Mem)
    requires Sound(m, live) && SameStructure(m, live, m2)
    ensures Sound(m2, live) && GraphOf(m2, live) == GraphOf(m, live)
    ensures forall a :: Header(m2, live, a) <==> Header(m, live, a)
    ensures |m2.car| == |m.car| && forall x :: x in live ==> Slots(m2, x) == Slots(m, x)
    ensures NoState(m, live) ==> NoState(m2, live)
  {
    hide Slots, OwnsBlock, Apart, Header, Payload, PayloadCells;
    SameStructureParts(m, live, m2);
    assert GraphOf(m2, live) == GraphOf(m, live);
  }

  lemma SameStructureParts(m: Mem, live: set<int>, m2: Mem)
    requires Sound(m, live) && SameStructure(m, live, m2)
    ensures Sized(m2) && |m2.car| == |m.car|
    ensures forall x :: x in live ==> Slots(m2, x) == Slots(m, x)
    ensures Sound(m2, live)
    ensures forall a :: Header(m2, live, a) <==> Header(m, live, a)
  {
    hide Payload, Header;
    forall x | x in live
      ensures Slots(m2, x) == Slots(m, x) && (m.tag[x].vector ==> OwnsBlock(m, x) && OwnsBlock(m2, x))
    {
      SameStructureNode(m, live, m2, x);
    }
    forall x, y | x in live && y in live && x != y && m.tag[x].vector && m.tag[y].vector
      ensures Apart(m2, x, y)
    {
      SameStructureNode(m, live, m2, x);
      SameStructureNode(m, live, m2, y);
      assert Apart(m, x, y);
    }
    SameHeaders(m, live, m2);
  }

  lemma SameHeaders(m: Mem, live: set<int>, m2: Mem)
    requires Sound(m, live) && Sound(m2, live) && SameStructure(m, live, m2)
    ensures forall a :: Header(m2, live, a) <==> Header(m, live, a)
  {
    hide Slots, OwnsBlock, Apart;
    assert forall x :: x in live ==> m2.tag[x].vector == m.tag[x].vector;
  }

  ghost predicate MarkedRoots(m: Mem, live: set<int>, roots: seq<int>, m2: Mem)
    requires Sound(m, live)
  {
    && SameStructure(m, live, m2)
    && (forall x :: 0 <= x < |m.tag| ==> (m2.tag[x].mark <==> ReachAny(GraphOf(m, live), roots, x)))
    && (forall x {:trigger LinkAt(m, live, m2.vec, x)} :: x in live && m.tag[x].vector ==>
          LinkAt(m, live, m2.vec, x) ==
          if ReachAny(GraphOf(m, live), roots, x) then x else LinkAt(m, live, m.vec, x))
  }

  lemma ReachIsNode(g: Graph, blocked: set<int>, x: int, y: int)
    requires Reach(g, blocked, x, y)
    ensures IsNode(g, y)
  {
  }

  lemma NextMark(m: Mem, live: set<int>, roots: seq<int>, k: nat, m1: Mem, m2: Mem)
    requires k < |roots| && Sound(m, live) && MarkedRoots(m, live, roots[..k], m1)
    requires Closed(GraphOf(m, live), Marks(m1.tag))
    requires Sound(m1, live) && MarkedFrom(m1, live, roots[k], m2)
    ensures MarkedRoots(m, live, roots[..k + 1], m2)
    ensures Closed(GraphOf(m, live), Marks(m2.tag))
  {
    hide Sound, Header, LinkAt, Slots, Reach, RefsIn, NoState, SameStructure, MarkedFrom, MarkedRoots;
    SameStructureOf(m, live, roots[..k], m1);
    SameStructureSound(m, live, m1);
    NextMarks(m, live, roots, k, m1, m2);
    NextRoot(GraphOf(m, live), roots, k, Marks(m1.tag), Marks(m2.tag));
    NextStructure(m, live, roots[..k], m1, roots[k], m2);
    NextLinks(m, live, roots, k, m1, m2);
    MarkedRootsFrom(m, live, roots[..k + 1], m2);
  }

  lemma SameStructureOf(m: Mem, live: set<int>, roots: seq<int>, m1: Mem)
    requires Sound(m, live) && MarkedRoots(m, live, roots, m1)
    ensures SameStructure(m, live, m1) && Sized(m1)
  {
  }

  lemma NextStructure(m: Mem, live: set<int>, roots: seq<int>, m1: Mem, root: int, m2: Mem)
    requires Sound(m, live) && SameStructure(m, live, m1)
    requires Sound(m1, live) && MarkedFrom(m1, live, root, m2)
    requires forall a :: Header(m1, live, a) <==> Header(m, live, a)
    ensures SameStructure(m, live, m2)
  {
    hide Sound, Header, Slots, GraphOf, Reach;
  }

  lemma MarkedRootsFrom(m: Mem, live: set<int>, roots: seq<int>, m2: Mem)
    requires Sound(m, live) && SameStructure(m, live, m2)
    requires forall x :: x in Marks(m2.tag) <==> ReachAny(GraphOf(m, live), roots, x)
    requires forall x :: x in live && m.tag[x].vector ==>
              LinkAt(m, live, m2.vec, x) ==
              if ReachAny(GraphOf(m, live), roots, x) then x else LinkAt(m, live, m.vec, x)
    ensures MarkedRoots(m, live, roots, m2)
  {
    hide Sound, Header, Slots, GraphOf, ReachAny, LinkAt;
    assert forall x :: 0 <= x < |m2.tag| ==> (x in Marks(m2.tag) <==> m2.tag[x].mark);
  }

  lemma NextMarks(m: Mem, live: set<int>, roots: seq<int>, k: nat, m1: Mem, m2: Mem)
    requires k < |roots| && Sound(m, live) && MarkedRoots(m, live, roots[..k], m1)
    requires Sound(m1, live) && GraphOf(m1, live) == GraphOf(m, live) && MarkedFrom(m1, live, roots[k], m2)
    ensures forall x :: x in Marks(m1.tag) <==> ReachAny(GraphOf(m, live), roots[..k], x)
    ensures forall x :: x in Marks(m2.tag) <==>
              x in Marks(m1.tag) || Reach(GraphOf(m, live), Marks(m1.tag), roots[k], x)
  {
    hide Header, LinkAt, Slots, OwnsBlock, Apart;
    var g := GraphOf(m, live);
    forall x ensures x in Marks(m1.tag) <==> ReachAny(g, roots[..k], x) {
      if ReachAny(g, roots[..k], x) {
        assert IsNode(g, x);
      }
    }
    forall x ensures x in Marks(m2.tag) <==> x in Marks(m1.tag) || Reach(g, Marks(m1.tag), roots[k], x) {
      if Reach(g, Marks(m1.tag), roots[k], x) {
        ReachIsNode(g, Marks(m1.tag), roots[k], x);
      }
    }
  }

  lemma NextLinks(m: Mem, live: set<int>, roots: seq<int>, k: nat, m1: Mem, m2: Mem)
    requires k < |roots| && Sound(m, live) && MarkedRoots(m, live, roots[..k], m1)
    requires Sound(m1, live) && MarkedFrom(m1, live, roots[k], m2)
    requires forall x :: x in Marks(m2.tag) <==> ReachAny(GraphOf(m, live), roots[..k + 1], x)
    ensures |m2.vec| == |m.vec|
    ensures forall x :: x in live && m.tag[x].vector ==>
              LinkAt(m, live, m2.vec, x) ==
              if ReachAny(GraphOf(m, live), roots[..k + 1], x) then x else LinkAt(m, live, m.vec, x)
  {
    hide Slots, GraphOf, ReachAny, Reach, PayloadCells, Apart, Header;
    forall x | x in live && m.tag[x].vector
      ensures LinkAt(m, live, m2.vec, x) ==
              if ReachAny(GraphOf(m, live), roots[..k + 1], x) then x else LinkAt(m, live, m.vec, x)
    {
      assert m1.tag[x].vector;
      assert LinkAt(m1, live, m2.vec, x) == LinkAt(m, live, m2.vec, x);
      assert LinkAt(m1, live, m1.vec, x) == LinkAt(m, live, m1.vec, x);
      assert x in Marks(m2.tag) <==> m2.tag[x].mark;
    }
  }

  // ---------------------------------------------------------------- sweeping

  /** The graph below the roots is as before, and the free list holds exactly the other nodes. */
  ghost predicate Collected(nil: int, m: Mem, live: set<int>, roots: seq<int>, m2: Mem, head: int, chain: seq<int>)
    requires Sound(m, live)
  {
    var g := GraphOf(m, live);
    && m2.car == m.car && m2.tag == m.tag && |m2.cdr| == |m.cdr| && |m2.vec| == |m.vec|
    && (forall x :: 0 <= x < |m.cdr| && ReachAny(g, roots, x) ==> m2.cdr[x] == m.cdr[x])
    && (forall a :: 0 <= a < |m.vec| && !Header(m, live, a) ==> m2.vec[a] == m.vec[a])
    && (forall x {:trigger LinkAt(m, live, m2.vec, x)} :: x in live && m.tag[x].vector ==>
          LinkAt(m, live, m2.vec, x) == if ReachAny(g, roots, x) then x else LinkAt(m, live, m.vec, x))
    && FreeChain(nil, m2.cdr, head, chain) && Descending(chain)
    && (forall x :: x in chain <==> 0 <= x < |m.car| && !ReachAny(g, roots, x))
  }

  ghost predicate RootsIn(nil: int, m: Mem, roots: seq<int>, live: set<int>) {
    forall r :: r in roots ==> RootIn(nil, m, r, live)
  }

  /** Between collections: no marks, and the nodes in live are sound. */
  ghost predicate Quiet(nil: int, m: Mem, live: set<int>) {
    && Sound(m, live) && RefsIn(nil, m, live) && NoState(m, live)
    && (forall x :: 0 <= x < |m.tag| ==> !m.tag[x].mark)
  }

  lemma NoMarksYet(nil: int, m: Mem, live: set<int>)
    requires Quiet(nil, m, live)
    ensures MarkedRoots(m, live, [], m) && Closed(GraphOf(m, live), Marks(m.tag))
  {
  }

  /** The node pool while node i is about to be swept. */
  ghost predicate Swept(nil: int, m1: Mem, i: int, cdr: seq<int>, tag: seq<Tag>, head: int, chain: seq<int>) {
    && Sized(m1) && 0 <= i <= |m1.car| && |cdr| == |tag| == |m1.car|
    && (forall x :: 0 <= x < |tag| ==> tag[x] == if x < i then m1.tag[x].(mark := false) else m1.tag[x])
    && (forall x :: 0 <= x < |cdr| && (i <= x || m1.tag[x].mark) ==> cdr[x] == m1.cdr[x])
    && FreeChain(nil, cdr, head, chain) && Descending(chain)
    && (forall x :: x in chain <==> 0 <= x < i && !m1.tag[x].mark)
  }

  lemma SweepFree(nil: int, m1: Mem, i: int, cdr: seq<int>, tag: seq<Tag>, head: int, chain: seq<int>)
    requires Swept(nil, m1, i, cdr, tag, head, chain) && i < |m1.car| && !m1.tag[i].mark
    ensures Swept(nil, m1, i + 1, cdr[i := head], tag, i, [i] + chain)
  {
    ChainPush(nil, cdr, i, head, chain);
    hide FreeChain, Descending;
    assert forall x :: x in [i] + chain <==> x == i || x in chain;
  }

  lemma SweepMarked(nil: int, m1: Mem, i: int, cdr: seq<int>, tag: seq<Tag>, head: int, chain: seq<int>)
    requires Swept(nil, m1, i, cdr, tag, head, chain) && i < |m1.car| && m1.tag[i].mark
    ensures Swept(nil, m1, i + 1, cdr, tag[i := tag[i].(mark := false)], head, chain)
  {
  }

  lemma SweepDone(nil: int, m: Mem, live: set<int>, roots: seq<int>, m1: Mem, m2: Mem, head: int, chain: seq<int>)
    requires Quiet(nil, m, live) && MarkedRoots(m, live, roots, m1)
    requires Sized(m1) && Swept(nil, m1, |m1.car|, m2.cdr, m2.tag, head, chain)
    requires m2.car == m1.car && m2.vec == m1.vec
    ensures Collected(nil, m, live, roots, m2, head, chain)
  {
  }

  lemma QuietParts(nil: int, m: Mem, live: set<int>)
    requires Quiet(nil, m, live)
    ensures Sound(m, live) && RefsIn(nil, m, live) && NoState(m, live) && Sized(m)
  {
  }

  lemma MarkedRootsSound(nil: int, m: Mem, live: set<int>, roots: seq<int>, m1: Mem)
    requires Quiet(nil, m, live) && MarkedRoots(m, live, roots, m1)
    ensures |m1.car| == |m.car| && Sized(m1) && Sound(m1, live) && RefsIn(nil, m1, live) && NoState(m1, live)
  {
    SameStructureSound(m, live, m1);
  }

  lemma SweepInit(nil: int, m1: Mem)
    requires Sized(m1)
    ensures Swept(nil, m1, 0, m1.cdr, m1.tag, nil, [])
  {
  }

  lemma SweptAt(nil: int, m1: Mem, i: int, cdr: seq<int>, tag: seq<Tag>, head: int, chain: seq<int>)
    requires Swept(nil, m1, i, cdr, tag, head, chain) && i < |m1.car|
    ensures Sized(m1) && 0 <= i < |tag| && tag[i] == m1.tag[i] && |cdr| == |m1.car|
  {
  }

  /** A node reads the same in both memories: type, flags, and slots or vector contents. */
  ghost predicate Preserved(m: Mem, m2: Mem, x: int)
    requires Sized(m) && Sized(m2)
  {
    && 0 <= x < |m.car| && |m2.car| == |m.car|
    && m2.car[x] == m.car[x] && m2.tag[x] == m.tag[x]
    && (!m.tag[x].vector ==> m2.cdr[x] == m.cdr[x])
    && (m.tag[x].vector ==>
          && OwnsBlock(m, x) && OwnsBlock(m2, x)
          && m2.vec[m2.cdr[x] - 1] == m.vec[m.cdr[x] - 1] && Payload(m2, x) == Payload(m, x))
  }

  lemma PreservedSlots(m: Mem, m2: Mem, x: int)
    requires Sized(m) && Sized(m2) && Preserved(m, m2, x)
    ensures Slots(m2, x) == Slots(m, x)
  {
  }

  ghost function Reached(m: Mem, live: set<int>, roots: seq<int>): (r: set<int>)
    requires Sound(m, live)
  {
    set x | 0 <= x < |m.car| && ReachAny(GraphOf(m, live), roots, x)
  }

  lemma {:induction false} PathLive(m: Mem, live: set<int>, p: seq<int>, k: nat)
    requires Sound(m, live) && IsPath(GraphOf(m, live), {}, p) && p[0] in live && k < |p|
    ensures p[k] in live
  {
    if k > 0 {
      PathLive(m, live, p, k - 1);
      var x := p[k - 1];
      assert p[k] in GraphOf(m, live)[x] && GraphOf(m, live)[x] == Slots(m, x);
    }
  }

  lemma ReachedLive(nil: int, m: Mem, live: set<int>, roots: seq<int>)
    requires Sound(m, live) && RootsIn(nil, m, roots, live)
    ensures Reached(m, live, roots) <= live
  {
    var g := GraphOf(m, live);
    forall x | x in Reached(m, live, roots) ensures x in live {
      var k :| 0 <= k < |roots| && Reach(g, {}, roots[k], x);
      var p :| IsPath(g, {}, p) && p[0] == roots[k] && p[|p| - 1] == x;
      assert IsNode(g, p[0]) && RootIn(nil, m, roots[k], live);
      PathLive(m, live, p, |p| - 1);
    }
  }

  /** What the roots reach is itself closed, so it can serve as the set of live nodes. */
  lemma ReachedQuiet(nil: int, m: Mem, live: set<int>, roots: seq<int>)
    requires Quiet(nil, m, live) && RootsIn(nil, m, roots, live)
    ensures Quiet(nil, m, Reached(m, live, roots)) && RootsIn(nil, m, roots, Reached(m, live, roots))
  {
    var g := GraphOf(m, live);
    var r := Reached(m, live, roots);
    ReachedLive(nil, m, live, roots);
    forall x, j | x in r && 0 <= j < |Slots(m, x)| && 0 <= Slots(m, x)[j] < |m.car|
      ensures Slots(m, x)[j] in r
    {
      var k :| 0 <= k < |roots| && Reach(g, {}, roots[k], x);
      assert g[x] == Slots(m, x);
      ReachStep(g, {}, roots[k], x, Slots(m, x)[j]);
    }
    forall k | 0 <= k < |roots| && 0 <= roots[k] < |m.car| ensures roots[k] in r {
      assert RootIn(nil, m, roots[k], live);
      ReachSelf(g, {}, roots[k]);
    }
  }

  /** A collection preserves every reachable node. */
  lemma CollectedPreserves(nil: int, m: Mem, live: set<int>, roots: seq<int>, m1: Mem, head: int, chain: seq<int>,
                           x: int)
    requires Quiet(nil, m, live) && RootsIn(nil, m, roots, live) && Collected(nil, m, live, roots, m1, head, chain)
    requires x in Reached(m, live, roots)
    ensures Sized(m1) && Preserved(m, m1, x) && m1.cdr[x] == m.cdr[x]
  {
    hide GraphOf, FreeChain, Descending, ReachAny, LinkAt, RefsIn, NoState, Header;
    ReachedLive(nil, m, live, roots);
    if m.tag[x].vector {
      SizeNotHeader(m, live, x);
      PayloadNotHeader(m, live, x);
      hide Sound;
      assert Payload(m1, x) == Payload(m, x);
    }
  }

  /** Between two collections the heap is as the next collection needs it. */
  lemma CollectedHeap(nil: int, m: Mem, live: set<int>, roots: seq<int>, m2: Mem, head: int, chain: seq<int>)
    requires Quiet(nil, m, live) && RootsIn(nil, m, roots, live) && Collected(nil, m, live, roots, m2, head, chain)
    ensures
      var r := Reached(m, live, roots);
      && Quiet(nil, m2, r) && RootsIn(nil, m2, roots, r)
      && (forall x :: x in r ==> Preserved(m, m2, x) && Slots(m2, x) == Slots(m, x))
  {
    hide Quiet, Collected, Preserved, Slots, RootsIn;
    QuietParts(nil, m, live);
    CollectedTags(nil, m, live, roots, m2, head, chain);
    var r := Reached(m, live, roots);
    ReachedQuiet(nil, m, live, roots);
    forall x | x in r ensures Sized(m2) && Preserved(m, m2, x) && m2.cdr[x] == m.cdr[x] {
      CollectedPreserves(nil, m, live, roots, m2, head, chain, x);
    }
    PreservedQuiet(nil, m, r, m2);
    RootsElsewhere(nil, m, m2, roots, r);
  }

  /** What counts as a root depends on the memory only through the size of the pool. */
  lemma RootsElsewhere(nil: int, m: Mem, m2: Mem, roots: seq<int>, live: set<int>)
    requires RootsIn(nil, m, roots, live) && |m2.car| == |m.car|
    ensures RootsIn(nil, m2, roots, live)
  {
    forall r | r in roots ensures RootIn(nil, m2, r, live) {
      assert RootIn(nil, m, r, live);
    }
  }

  lemma CollectedTags(nil: int, m: Mem, live: set<int>, roots: seq<int>, m2: Mem, head: int, chain: seq<int>)
    requires Quiet(nil, m, live) && Collected(nil, m, live, roots, m2, head, chain)
    ensures Sized(m) && Sized(m2) && |m2.car| == |m.car| && m2.tag == m.tag
  {
  }

  /** Soundness and graph carry over to a memory with the same slots. */
  lemma QuietFrom(nil: int, m: Mem, r: set<int>, m2: Mem)
    requires Quiet(nil, m, r) && Sized(m2) && |m2.car| == |m.car| && m2.tag == m.tag
    requires forall x :: x in r ==> Slots(m2, x) == Slots(m, x)
    requires forall x :: x in r ==> (m2.tag[x].vector ==> OwnsBlock(m2, x))
    requires forall x, y {:trigger Apart(m2, x, y)} ::
               x in r && y in r && x != y && m2.tag[x].vector && m2.tag[y].vector ==> Apart(m2, x, y)
    ensures Quiet(nil, m2, r) && GraphOf(m2, r) == GraphOf(m, r)
  {
    hide Slots, OwnsBlock, Apart, GraphOf;
    SameGraph(m, r, m2);
  }

  lemma SameGraph(m: Mem, r: set<int>, m2: Mem)
    requires Sized(m) && Sized(m2) && |m2.car| == |m.car|
    requires forall x :: x in r ==> 0 <= x < |m.car| && Slots(m2, x) == Slots(m, x)
    ensures GraphOf(m2, r) == GraphOf(m, r)
  {
    hide Slots, OwnsBlock;
  }

  lemma PreservedQuiet(nil: int, m: Mem, r: set<int>, m2: Mem)
    requires Quiet(nil, m, r) && Sized(m2) && |m2.car| == |m.car| && m2.tag == m.tag
    requires forall x :: x in r ==> Preserved(m, m2, x) && m2.cdr[x] == m.cdr[x]
    ensures Quiet(nil, m2, r) && forall x :: x in r ==> Slots(m2, x) == Slots(m, x)
  {
    forall x | x in r
      ensures Slots(m2, x) == Slots(m, x) && (m2.tag[x].vector ==> OwnsBlock(m2, x))
    {
      PreservedSlots(m, m2, x);
    }
    forall x, y | x in r && y in r && x != y && m2.tag[x].vector && m2.tag[y].vector
      ensures Apart(m2, x, y)
    {
      assert Preserved(m, m2, x) && Preserved(m, m2, y);
      assert Apart(m, x, y);
    }
  }

  // ---------------------------------------------------------------- allocation

  /** The memory after taking node n off the free list and filling it. */
  function Filled(m: Mem, n: int, a: int, d: int, t: Tag): Mem
    requires Sized(m) && 0 <= n < |m.car|
  {
    m.(car := m.car[n := a], cdr := m.cdr[n := d], tag := m.tag[n := t])
  }

  /** The flags of a new node. */
  predicate Fresh(t: Tag) {
    !t.mark && !t.state
  }

  lemma FilledOther(m: Mem, n: int, a: int, d: int, t: Tag, x: int)
    requires Sized(m) && 0 <= n < |m.car| && 0 <= x < |m.car| && x != n && (m.tag[x].vector ==> OwnsBlock(m, x))
    ensures
      var m2 := Filled(m, n, a, d, t);
      && Sized(m2) && Slots(m2, x) == Slots(m, x) && Preserved(m, m2, x) && (m.tag[x].vector ==> OwnsBlock(m2, x))
  {
  }

  lemma FilledNew(m: Mem, n: int, a: int, d: int, t: Tag)
    requires Sized(m) && 0 <= n < |m.car| && !t.vector
    ensures
      var m2 := Filled(m, n, a, d, t);
      Sized(m2) && Slots(m2, n) == if t.atom then [d] else [a, d]
  {
  }

  /** Filling a node that is not live keeps the heap sound, with the node as a new live one. */
  lemma FilledQuiet(nil: int, m: Mem, live: set<int>, n: int, a: int, d: int, t: Tag)
    requires Quiet(nil, m, live) && 0 <= n < |m.car| && n !in live && Fresh(t) && !t.vector
    requires RootIn(nil, m, d, live) && (!t.atom ==> RootIn(nil, m, a, live))
    ensures Quiet(nil, Filled(m, n, a, d, t), live + {n})
    ensures forall x :: x in live ==> Preserved(m, Filled(m, n, a, d, t), x)
  {
    hide Slots, Payload, OwnsBlock, Preserved;
    var m2 := Filled(m, n, a, d, t);
    FilledNew(m, n, a, d, t);
    forall x | x in live
      ensures Slots(m2, x) == Slots(m, x) && Preserved(m, m2, x) && (m.tag[x].vector ==> OwnsBlock(m2, x))
    {
      FilledOther(m, n, a, d, t, x);
    }
    forall x, y | x in live && y in live && x != y && m2.tag[x].vector && m2.tag[y].vector
      ensures Apart(m2, x, y)
    {
      assert Apart(m, x, y);
    }
  }

  /** A node outside the kept ones cannot be reached from roots within them. */
  lemma FreshUnreachable(nil: int, m: Mem, m2: Mem, kept: set<int>, n: int, roots: seq<int>)
    requires Quiet(nil, m, kept) && Quiet(nil, m2, kept + {n}) && |m2.car| == |m.car| && n !in kept
    requires forall x :: x in kept ==> Preserved(m, m2, x)
    requires RootsIn(nil, m2, roots, kept)
    ensures !ReachAny(GraphOf(m2, kept + {n}), roots, n)
  {
    var g := GraphOf(m2, kept + {n});
    assert Closed(g, kept) by {
      forall x, y | x in kept && IsNode(g, x) && y in g[x] && IsNode(g, y) ensures y in kept {
        PreservedSlots(m, m2, x);
        assert g[x] == Slots(m, x);
        var j :| 0 <= j < |Slots(m, x)| && Slots(m, x)[j] == y;
      }
    }
    if ReachAny(g, roots, n) {
      var k :| 0 <= k < |roots| && Reach(g, {}, roots[k], n);
      var p :| IsPath(g, {}, p) && p[0] == roots[k] && p[|p| - 1] == n;
      assert RootIn(nil, m2, roots[k], kept);
      ClosedTrapsPaths(g, kept, p, 0);
      assert false;
    }
  }
}
