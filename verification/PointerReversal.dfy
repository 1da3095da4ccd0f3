/** How the Deutsch/Schorr/Waite markers keep the traversal stack inside the graph itself.

    `Encode` writes a stack of frames into a memory: the active slot of every frame holds the
    node of the frame below it. Each transition of Marking's machine is matched by one or two
    writes to the encoded memory. */
module PointerReversal {
  import opened Marking

  const T_VECTOR := -24
  const CELL_SIZE := 4

  /** The flag bits of a node; `rest` stands for the bits no marker looks at. */
  datatype Tag = Tag(atom: bool, vector: bool, mark: bool, state: bool, rest: nat)

  datatype Mem = Mem(car: seq<int>, cdr: seq<int>, tag: seq<Tag>, vec: seq<int>)

  predicate Sized(m: Mem) {
    |m.cdr| == |m.car| && |m.tag| == |m.car|
  }

  /** Number of payload cells of a vector object of `size` bytes. */
  function PayloadCells(size: nat): nat {
    (size + CELL_SIZE - 1) / CELL_SIZE
  }

  /** A vector node owns a link, an index and a size word, and then its payload. */
  predicate OwnsBlock(m: Mem, x: int)
    requires Sized(m) && 0 <= x < |m.car|
  {
    var c := m.cdr[x];
    3 <= c <= |m.vec| && m.vec[c - 1] >= 0 && c + PayloadCells(m.vec[c - 1]) <= |m.vec|
  }

  function Payload(m: Mem, x: int): seq<int>
    requires Sized(m) && 0 <= x < |m.car| && OwnsBlock(m, x)
  {
    m.vec[m.cdr[x]..m.cdr[x] + PayloadCells(m.vec[m.cdr[x] - 1])]
  }

  /** A vector has room for the bytes that its size word asks for, and wastes less than a cell. */
  ghost predicate HoldsItsBytes(m: Mem, x: int)
    requires Sized(m) && 0 <= x < |m.car|
  {
    OwnsBlock(m, x) && m.vec[m.cdr[x] - 1] <= CELL_SIZE * |Payload(m, x)| < m.vec[m.cdr[x] - 1] + CELL_SIZE
  }

  lemma RoomForBytes(m: Mem, x: int)
    requires Sized(m) && 0 <= x < |m.car| && OwnsBlock(m, x)
    ensures HoldsItsBytes(m, x)
  {
    var size := m.vec[m.cdr[x] - 1];
    var k := (size + CELL_SIZE - 1) / CELL_SIZE;
    assert CELL_SIZE * k <= size + CELL_SIZE - 1 < CELL_SIZE * k + CELL_SIZE;
  }

  function Slots(m: Mem, x: int): seq<int>
    requires Sized(m) && 0 <= x < |m.car|
  {
    if m.tag[x].vector then
      if m.car[x] == T_VECTOR && OwnsBlock(m, x) then Payload(m, x) else []
    else if m.tag[x].atom then [m.cdr[x]]
    else [m.car[x], m.cdr[x]]
  }

  predicate Apart(m: Mem, x: int, y: int)
    requires Sized(m) && 0 <= x < |m.car| && 0 <= y < |m.car|
    requires OwnsBlock(m, x) && OwnsBlock(m, y)
  {
    || m.cdr[x] + PayloadCells(m.vec[m.cdr[x] - 1]) <= m.cdr[y] - 3
    || m.cdr[y] + PayloadCells(m.vec[m.cdr[y] - 1]) <= m.cdr[x] - 3
  }

  /** The nodes in `live` are closed under their slots and their vectors own disjoint blocks. */
  ghost predicate Sound(m: Mem, live: set<int>) {
    && Sized(m)
    && (forall x :: x in live ==> 0 <= x < |m.car|)
    && (forall x {:trigger OwnsBlock(m, x)} :: x in live && m.tag[x].vector ==> OwnsBlock(m, x))
    && (forall x, y {:trigger Apart(m, x, y)} ::
          x in live && y in live && x != y && m.tag[x].vector && m.tag[y].vector ==> Apart(m, x, y))
    && (forall x, j :: x in live && 0 <= j < |Slots(m, x)| && 0 <= Slots(m, x)[j] < |m.car| ==> Slots(m, x)[j] in live)
  }

  ghost function GraphOf(m: Mem, live: set<int>): (g: Graph)
    requires Sized(m)
  {
    seq(|m.car|, x requires 0 <= x < |m.car| => if x in live then Slots(m, x) else [])
  }

  // ---------------------------------------------------------------- slot locations

  datatype Loc = CarOf(x: int) | CdrOf(x: int) | VecAt(a: int)

  predicate ValidLoc(m: Mem, l: Loc) {
    match l
    case CarOf(x) => 0 <= x < |m.car|
    case CdrOf(x) => 0 <= x < |m.cdr|
    case VecAt(a) => 0 <= a < |m.vec|
  }

  function Read(m: Mem, l: Loc): int
    requires ValidLoc(m, l)
  {
    match l
    case CarOf(x) => m.car[x]
    case CdrOf(x) => m.cdr[x]
    case VecAt(a) => m.vec[a]
  }

  function Write(m: Mem, l: Loc, v: int): Mem
    requires ValidLoc(m, l)
  {
    match l
    case CarOf(x) => m.(car := m.car[x := v])
    case CdrOf(x) => m.(cdr := m.cdr[x := v])
    case VecAt(a) => m.(vec := m.vec[a := v])
  }

  function LocOf(m: Mem, f: Frame): Loc
    requires Sized(m) && 0 <= f.node < |m.car|
  {
    if m.tag[f.node].vector then VecAt(m.cdr[f.node] + f.slot)
    else if m.tag[f.node].atom then CdrOf(f.node)
    else if f.slot == 0 then CarOf(f.node) else CdrOf(f.node)
  }

  predicate GoodFrame(m: Mem, live: set<int>, f: Frame)
    requires Sized(m)
  {
    f.node in live && 0 <= f.node < |m.car| && f.slot < |Slots(m, f.node)|
  }

  predicate GoodFrames(m: Mem, live: set<int>, stack: seq<Frame>)
    requires Sized(m)
  {
    forall k :: 0 <= k < |stack| ==> GoodFrame(m, live, stack[k])
  }

  lemma SlotIsRead(m: Mem, live: set<int>, f: Frame)
    requires Sound(m, live) && GoodFrame(m, live, f)
    ensures ValidLoc(m, LocOf(m, f)) && Read(m, LocOf(m, f)) == Slots(m, f.node)[f.slot]
  {
  }

  lemma LocsDistinct(m: Mem, live: set<int>, f: Frame, h: Frame)
    requires Sound(m, live) && GoodFrame(m, live, f) && GoodFrame(m, live, h)
    requires f != h
    ensures LocOf(m, f) != LocOf(m, h)
  {
    hide PayloadCells;
    if f.node != h.node && m.tag[f.node].vector && m.tag[h.node].vector {
      SlotInBlock(m, live, f);
      SlotInBlock(m, live, h);
      assert Apart(m, f.node, h.node);
      hide Slots, Sound, Payload;
    } else {
      FewSlots(m, f);
      FewSlots(m, h);
      hide Slots, Sound, Payload, OwnsBlock;
    }
  }

  lemma SlotInBlock(m: Mem, live: set<int>, f: Frame)
    requires Sound(m, live) && GoodFrame(m, live, f) && m.tag[f.node].vector
    ensures OwnsBlock(m, f.node) && f.slot < PayloadCells(m.vec[m.cdr[f.node] - 1])
  {
    hide PayloadCells, Apart;
  }

  lemma FewSlots(m: Mem, f: Frame)
    requires Sized(m) && 0 <= f.node < |m.car| && f.slot < |Slots(m, f.node)|
    ensures !m.tag[f.node].vector ==> f.slot < if m.tag[f.node].atom then 1 else 2
  {
  }

  /** The parent pointer: the node of the top frame, or the null reference of the system. */
  function Parent(nil: int, stack: seq<Frame>): int {
    if stack == [] then nil else Top(stack).node
  }

  ghost function Encode(nil: int, m: Mem, live: set<int>, stack: seq<Frame>): (e: Mem)
    requires Sound(m, live) && GoodFrames(m, live, stack)
    ensures Sized(e) && |e.car| == |m.car| && |e.vec| == |m.vec| && e.tag == m.tag
  {
    if stack == [] then m
    else
      SlotIsRead(m, live, Top(stack));
      Write(Encode(nil, m, live, Below(stack)), LocOf(m, Top(stack)), Parent(nil, Below(stack)))
  }

  /** A location that is no frame's active slot still holds its original value. */
  lemma {:induction false} EncodeReads(nil: int, m: Mem, live: set<int>, stack: seq<Frame>, l: Loc)
    requires Sound(m, live) && GoodFrames(m, live, stack) && ValidLoc(m, l)
    requires forall k :: 0 <= k < |stack| ==> l != LocOf(m, stack[k])
    ensures Read(Encode(nil, m, live, stack), l) == Read(m, l)
  {
    if stack != [] {
      EncodeReads(nil, m, live, Below(stack), l);
      assert l != LocOf(m, stack[|stack| - 1]);
    }
  }

  /** A slot of a node that is not under traversal still holds its original value. */
  lemma EncodeKeepsSlot(nil: int, m: Mem, live: set<int>, stack: seq<Frame>, f: Frame)
    requires Sound(m, live) && GoodFrames(m, live, stack) && GoodFrame(m, live, f)
    requires forall k :: 0 <= k < |stack| ==> stack[k] != f
    ensures ValidLoc(m, LocOf(m, f))
    ensures Read(Encode(nil, m, live, stack), LocOf(m, f)) == Slots(m, f.node)[f.slot]
  {
    SlotIsRead(m, live, f);
    forall k | 0 <= k < |stack| ensures LocOf(m, f) != LocOf(m, stack[k]) {
      LocsDistinct(m, live, stack[k], f);
    }
    EncodeReads(nil, m, live, stack, LocOf(m, f));
  }

  /** The type, the content pointer and the size of a vector are never disturbed. */
  lemma EncodeKeepsVectors(nil: int, m: Mem, live: set<int>, stack: seq<Frame>, x: int)
    requires Sound(m, live) && GoodFrames(m, live, stack) && x in live && m.tag[x].vector
    ensures
      var e := Encode(nil, m, live, stack);
      OwnsBlock(m, x) && e.car[x] == m.car[x] && e.cdr[x] == m.cdr[x] && e.vec[m.cdr[x] - 1] == m.vec[m.cdr[x] - 1]
  {
    hide PayloadCells, Encode, Apart, Slots, LocOf;
    assert OwnsBlock(m, x);
    forall k | 0 <= k < |stack|
      ensures LocOf(m, stack[k]) != VecAt(m.cdr[x] - 1)
      ensures LocOf(m, stack[k]) != CarOf(x) && LocOf(m, stack[k]) != CdrOf(x)
    {
      SlotNotSize(m, live, stack[k], x);
    }
    EncodeReads(nil, m, live, stack, CarOf(x));
    EncodeReads(nil, m, live, stack, CdrOf(x));
    EncodeReads(nil, m, live, stack, VecAt(m.cdr[x] - 1));
  }

  lemma SlotNotSize(m: Mem, live: set<int>, f: Frame, x: int)
    requires Sound(m, live) && GoodFrame(m, live, f) && x in live && m.tag[x].vector
    ensures LocOf(m, f) != VecAt(m.cdr[x] - 1) && LocOf(m, f) != CarOf(x) && LocOf(m, f) != CdrOf(x)
  {
    hide PayloadCells;
    if m.tag[f.node].vector && f.node != x {
      assert Apart(m, f.node, x);
    }
  }

  // ---------------------------------------------------------------- the three transitions

  /** Visiting a node: its first slot is read and overwritten by the parent pointer. */
  lemma EncodePush(nil: int, m: Mem, live: set<int>, stack: seq<Frame>, x: int)
    requires Sound(m, live) && GoodFrames(m, live, stack) && x in live && Slots(m, x) != []
    requires forall k :: 0 <= k < |stack| ==> stack[k].node != x
    ensures
      var e := Encode(nil, m, live, stack);
      var l := LocOf(m, Frame(x, 0));
      && GoodFrames(m, live, stack + [Frame(x, 0)])
      && ValidLoc(e, l)
      && Read(e, l) == Slots(m, x)[0]
      && Write(e, l, Parent(nil, stack)) == Encode(nil, m, live, stack + [Frame(x, 0)])
  {
    EncodeKeepsSlot(nil, m, live, stack, Frame(x, 0));
    assert Below(stack + [Frame(x, 0)]) == stack;
  }

  /** Moving on: the parent pointer moves to the next slot and the current slot is restored. */
  lemma EncodeAdvance(nil: int, m: Mem, live: set<int>, stack: seq<Frame>)
    requires Sound(m, live) && GoodFrames(m, live, stack) && Distinct(stack) && stack != []
    requires Top(stack).slot + 1 < |Slots(m, Top(stack).node)|
    ensures
      var e := Encode(nil, m, live, stack);
      var f := Top(stack);
      var h := Frame(f.node, f.slot + 1);
      var l, l' := LocOf(m, f), LocOf(m, h);
      && GoodFrames(m, live, Below(stack) + [h])
      && l != l' && ValidLoc(e, l) && ValidLoc(e, l')
      && Read(e, l) == Parent(nil, Below(stack))
      && Read(e, l') == Slots(m, f.node)[f.slot + 1]
      && Write(Write(e, l', Parent(nil, Below(stack))), l, Slots(m, f.node)[f.slot])
         == Encode(nil, m, live, Below(stack) + [h])
  {
    var f := Top(stack);
    var h := Frame(f.node, f.slot + 1);
    var b := Encode(nil, m, live, Below(stack));
    assert GoodFrame(m, live, f);
    SlotIsRead(m, live, f);
    LocsDistinct(m, live, f, h);
    EncodeKeepsSlot(nil, m, live, Below(stack), f);
    EncodeKeepsSlot(nil, m, live, stack, h);
    assert Below(Below(stack) + [h]) == Below(stack);
    WriteSwap(b, LocOf(m, f), LocOf(m, h), Parent(nil, Below(stack)));
  }

  lemma WriteSwap(b: Mem, l: Loc, l': Loc, v: int)
    requires ValidLoc(b, l) && ValidLoc(b, l') && l != l'
    ensures Write(Write(Write(b, l, v), l', v), l, Read(b, l)) == Write(b, l', v)
  {
    var w := Write(Write(Write(b, l, v), l', v), l, Read(b, l));
    var t := Write(b, l', v);
    assert w.car == t.car && w.cdr == t.cdr && w.vec == t.vec;
  }

  /** Leaving: the last slot gives back the parent pointer and is restored. */
  lemma EncodePop(nil: int, m: Mem, live: set<int>, stack: seq<Frame>)
    requires Sound(m, live) && GoodFrames(m, live, stack) && Distinct(stack) && stack != []
    ensures
      var e := Encode(nil, m, live, stack);
      var l := LocOf(m, Top(stack));
      && ValidLoc(e, l)
      && Read(e, l) == Parent(nil, Below(stack))
      && Write(e, l, Slots(m, Top(stack).node)[Top(stack).slot]) == Encode(nil, m, live, Below(stack))
  {
    var f := Top(stack);
    SlotIsRead(m, live, f);
    EncodeKeepsSlot(nil, m, live, Below(stack), f);
    var b := Encode(nil, m, live, Below(stack));
    var w := Write(Write(b, LocOf(m, f), Parent(nil, Below(stack))), LocOf(m, f), Read(b, LocOf(m, f)));
    assert w.car == b.car && w.cdr == b.cdr && w.vec == b.vec;
  }

  // ---------------------------------------------------------------- memory in mid-traversal

  ghost predicate Header(m: Mem, live: set<int>, a: int)
    requires Sound(m, live)
  {
    exists x :: x in live && m.tag[x].vector && (a == m.cdr[x] - 3 || a == m.cdr[x] - 2)
  }

  /** The STATE flag of a node under traversal. */
  function FrameState(m: Mem, f: Frame): bool
    requires Sized(m) && 0 <= f.node < |m.car|
  {
    m.tag[f.node].vector || (!m.tag[f.node].atom && f.slot == 0)
  }

  predicate FramesIn(m: Mem, stack: seq<Frame>) {
    forall k :: 0 <= k < |stack| ==> 0 <= stack[k].node < |m.car|
  }

  ghost predicate TagsFor(m: Mem, marked: set<int>, stack: seq<Frame>, tag: seq<Tag>)
    requires Sized(m) && FramesIn(m, stack)
  {
    && |tag| == |m.tag|
    && (forall x :: 0 <= x < |tag| ==> tag[x] == m.tag[x].(mark := x in marked, state := tag[x].state))
    && (forall x :: 0 <= x < |tag| && !OnStack(stack, x) ==> tag[x].state == m.tag[x].state)
    && (forall k :: 0 <= k < |stack| ==> tag[stack[k].node].state == FrameState(m, stack[k]))
  }

  /** Newly marked vectors are linked to their nodes; vectors under traversal record the active slot. */
  ghost predicate HeadersFor(m: Mem, live: set<int>, newly: set<int>, stack: seq<Frame>, vec: seq<int>)
    requires Sound(m, live) && GoodFrames(m, live, stack)
  {
    && |vec| == |m.vec|
    && (forall x {:trigger LinkAt(m, live, vec, x)} :: x in live && m.tag[x].vector ==>
          LinkAt(m, live, vec, x) == if x in newly then x else LinkAt(m, live, m.vec, x))
    && (forall k :: 0 <= k < |stack| && m.tag[stack[k].node].vector ==>
          IndexAt(m, live, vec, stack[k].node) == stack[k].slot)
  }

  ghost function LinkAt(m: Mem, live: set<int>, vec: seq<int>, x: int): int
    requires Sound(m, live) && x in live && m.tag[x].vector && |vec| == |m.vec|
    ensures OwnsBlock(m, x)
  {
    assert OwnsBlock(m, x);
    vec[m.cdr[x] - 3]
  }

  ghost function IndexAt(m: Mem, live: set<int>, vec: seq<int>, x: int): int
    requires Sound(m, live) && x in live && m.tag[x].vector && |vec| == |m.vec|
    ensures OwnsBlock(m, x)
  {
    assert OwnsBlock(m, x);
    vec[m.cdr[x] - 2]
  }

  ghost predicate Agree(m: Mem, live: set<int>, e: Mem, mem: Mem)
    requires Sound(m, live)
  {
    && mem.car == e.car && mem.cdr == e.cdr && |mem.vec| == |e.vec|
    && (forall a :: 0 <= a < |e.vec| && !Header(m, live, a) ==> mem.vec[a] == e.vec[a])
  }

  ghost predicate Represents(nil: int, m: Mem, live: set<int>, base: set<int>, w: Walk, mem: Mem)
    requires Sound(m, live)
  {
    && GoodFrames(m, live, w.stack)
    && FramesIn(m, w.stack)
    && Agree(m, live, Encode(nil, m, live, w.stack), mem)
    && TagsFor(m, w.marked, w.stack, mem.tag)
    && HeadersFor(m, live, w.marked - base, w.stack, mem.vec)
  }

  lemma LocNotHeader(m: Mem, live: set<int>, f: Frame)
    requires Sound(m, live) && GoodFrame(m, live, f)
    ensures LocOf(m, f).VecAt? ==> !Header(m, live, LocOf(m, f).a)
  {
    forall y | y in live && m.tag[y].vector && m.tag[f.node].vector && y != f.node ensures Apart(m, f.node, y) {
    }
  }

  lemma SizeNotHeader(m: Mem, live: set<int>, x: int)
    requires Sound(m, live) && x in live && m.tag[x].vector
    ensures OwnsBlock(m, x) && !Header(m, live, m.cdr[x] - 1)
  {
    forall y | y in live && m.tag[y].vector && y != x ensures OwnsBlock(m, y) && Apart(m, x, y) {
    }
  }

  lemma AgreeWrite(m: Mem, live: set<int>, e: Mem, mem: Mem, f: Frame, v: int)
    requires Sound(m, live) && GoodFrame(m, live, f) && Agree(m, live, e, mem)
    requires ValidLoc(e, LocOf(m, f))
    ensures ValidLoc(mem, LocOf(m, f)) && Read(mem, LocOf(m, f)) == Read(e, LocOf(m, f))
    ensures Agree(m, live, Write(e, LocOf(m, f), v), Write(mem, LocOf(m, f), v))
  {
    LocNotHeader(m, live, f);
  }

  lemma WriteKeepsHeaders(m: Mem, live: set<int>, newly: set<int>, stack: seq<Frame>, mem: Mem, f: Frame, v: int)
    requires Sound(m, live) && GoodFrame(m, live, f) && GoodFrames(m, live, stack)
    requires HeadersFor(m, live, newly, stack, mem.vec) && ValidLoc(mem, LocOf(m, f))
    ensures HeadersFor(m, live, newly, stack, Write(mem, LocOf(m, f), v).vec)
  {
    LocNotHeader(m, live, f);
    if LocOf(m, f).VecAt? {
      var vec' := Write(mem, LocOf(m, f), v).vec;
      forall x | x in live && m.tag[x].vector
        ensures LinkAt(m, live, vec', x) == LinkAt(m, live, mem.vec, x)
        ensures IndexAt(m, live, vec', x) == IndexAt(m, live, mem.vec, x)
      {
        assert OwnsBlock(m, x);
        assert Header(m, live, m.cdr[x] - 3);
        assert Header(m, live, m.cdr[x] - 2);
      }
    }
  }

  /** Writing one header word leaves the other header words and everything else alone. */
  lemma IndexWrite(m: Mem, live: set<int>, vec: seq<int>, x: int, i: int)
    requires Sound(m, live) && x in live && m.tag[x].vector && |vec| == |m.vec|
    ensures OwnsBlock(m, x)
    ensures
      var vec' := vec[m.cdr[x] - 2 := i];
      && IndexAt(m, live, vec', x) == i
      && (forall y :: y in live && m.tag[y].vector ==> LinkAt(m, live, vec', y) == LinkAt(m, live, vec, y))
      && (forall y :: y in live && m.tag[y].vector && y != x ==>
            IndexAt(m, live, vec', y) == IndexAt(m, live, vec, y))
      && (forall a :: 0 <= a < |vec| && !Header(m, live, a) ==> vec'[a] == vec[a])
  {
    assert OwnsBlock(m, x);
    assert Header(m, live, m.cdr[x] - 2);
    forall y | y in live && m.tag[y].vector && y != x ensures OwnsBlock(m, y) && Apart(m, x, y) {
    }
  }

  lemma LinkWrite(m: Mem, live: set<int>, vec: seq<int>, x: int, v: int)
    requires Sound(m, live) && x in live && m.tag[x].vector && |vec| == |m.vec|
    ensures OwnsBlock(m, x)
    ensures
      var vec' := vec[m.cdr[x] - 3 := v];
      && LinkAt(m, live, vec', x) == v
      && (forall y :: y in live && m.tag[y].vector ==> IndexAt(m, live, vec', y) == IndexAt(m, live, vec, y))
      && (forall y :: y in live && m.tag[y].vector && y != x ==>
            LinkAt(m, live, vec', y) == LinkAt(m, live, vec, y))
      && (forall a :: 0 <= a < |vec| && !Header(m, live, a) ==> vec'[a] == vec[a])
  {
    assert OwnsBlock(m, x);
    assert Header(m, live, m.cdr[x] - 3);
    forall y | y in live && m.tag[y].vector && y != x ensures OwnsBlock(m, y) && Apart(m, x, y) {
    }
  }

  // ---------------------------------------------------------------- the transitions on the memory

  function SetState(mem: Mem, x: int, b: bool): Mem
    requires 0 <= x < |mem.tag|
  {
    mem.(tag := mem.tag[x := mem.tag[x].(state := b)])
  }

  function SetMark(mem: Mem, x: int): Mem
    requires 0 <= x < |mem.tag|
  {
    mem.(tag := mem.tag[x := mem.tag[x].(mark := true)])
  }

  /** Records the active slot of a vector in its index word. */
  function SetIndex(m: Mem, mem: Mem, x: int, i: int): Mem
    requires Sized(m) && 0 <= x < |m.car| && |mem.vec| == |m.vec|
    requires m.tag[x].vector ==> OwnsBlock(m, x)
  {
    if m.tag[x].vector then mem.(vec := mem.vec[m.cdr[x] - 2 := i]) else mem
  }

  /** Links a vector to its node. */
  function SetLink(m: Mem, mem: Mem, x: int): Mem
    requires Sized(m) && 0 <= x < |m.car| && |mem.vec| == |m.vec|
    requires m.tag[x].vector ==> OwnsBlock(m, x)
  {
    if m.tag[x].vector then mem.(vec := mem.vec[m.cdr[x] - 3 := x]) else mem
  }

  lemma TagsReplaceTop(m: Mem, marked: set<int>, below: seq<Frame>, f: Frame, h: Frame, tag: seq<Tag>)
    requires Sized(m) && FramesIn(m, below + [f]) && Distinct(below + [f]) && h.node == f.node
    requires TagsFor(m, marked, below + [f], tag) && f.node in marked
    ensures FramesIn(m, below + [h]) && 0 <= f.node < |tag|
    ensures TagsFor(m, marked, below + [h], tag[f.node := tag[f.node].(state := FrameState(m, h))])
  {
    var old', new' := below + [f], below + [h];
    assert old'[|below|] == f && new'[|below|] == h;
    assert forall k :: 0 <= k < |new'| ==> new'[k].node == old'[k].node;
    forall x | !OnStack(new', x) ensures !OnStack(old', x) {
      assert forall k :: 0 <= k < |old'| ==> new'[k].node != x;
    }
    assert OnStack(new', h.node);
    forall k | 0 <= k < |below| ensures new'[k] == old'[k] && old'[k].node != f.node {
    }
  }

  lemma TagsPop(m: Mem, marked: set<int>, below: seq<Frame>, f: Frame, tag: seq<Tag>)
    requires Sized(m) && FramesIn(m, below + [f]) && Distinct(below + [f])
    requires TagsFor(m, marked, below + [f], tag) && f.node in marked
    ensures FramesIn(m, below) && 0 <= f.node < |tag|
    ensures !m.tag[f.node].state ==> TagsFor(m, marked, below, tag[f.node := tag[f.node].(state := false)])
  {
    var old' := below + [f];
    assert old'[|below|] == f;
    forall k | 0 <= k < |below| ensures below[k] == old'[k] && old'[k].node != f.node {
    }
    forall x | !OnStack(below, x) && x != f.node ensures !OnStack(old', x) {
      assert forall k :: 0 <= k < |below| ==> below[k].node != x;
    }
  }

  lemma TagsPush(m: Mem, marked: set<int>, stack: seq<Frame>, f: Frame, tag: seq<Tag>)
    requires Sized(m) && FramesIn(m, stack) && 0 <= f.node < |m.car|
    requires forall k :: 0 <= k < |stack| ==> stack[k].node in marked
    requires TagsFor(m, marked, stack, tag) && f.node !in marked
    ensures |tag| == |m.tag| && FramesIn(m, stack + [f])
    ensures TagsFor(m, marked + {f.node}, stack, tag[f.node := tag[f.node].(mark := true)])
    ensures TagsFor(m, marked + {f.node}, stack + [f],
                    tag[f.node := tag[f.node].(mark := true, state := FrameState(m, f))])
  {
    var new' := stack + [f];
    assert new'[|stack|] == f;
    forall k | 0 <= k < |stack| ensures new'[k] == stack[k] && stack[k].node != f.node {
    }
    assert OnStack(new', f.node);
    forall x | !OnStack(new', x) ensures !OnStack(stack, x) {
      assert forall k :: 0 <= k < |stack| ==> new'[k].node != x;
    }
  }

  /** The memory after moving on from frame f to its next slot, with `cur` to be put back. */
  function Advanced(m: Mem, f: Frame, cur: int, mem: Mem): Mem
    requires Sized(m) && 0 <= f.node < |m.car| && (m.tag[f.node].vector ==> OwnsBlock(m, f.node))
    requires |mem.tag| == |m.tag| && |mem.vec| == |m.vec|
    requires ValidLoc(mem, LocOf(m, f)) && ValidLoc(mem, LocOf(m, Frame(f.node, f.slot + 1)))
  {
    var h := Frame(f.node, f.slot + 1);
    var written := Write(Write(mem, LocOf(m, h), Read(mem, LocOf(m, f))), LocOf(m, f), cur);
    SetState(SetIndex(m, written, f.node, h.slot), f.node, FrameState(m, h))
  }

  lemma RepSizes(nil: int, m: Mem, live: set<int>, base: set<int>, w: Walk, mem: Mem)
    requires Sound(m, live) && Represents(nil, m, live, base, w, mem)
    ensures Sized(m) && Sized(mem) && |mem.car| == |m.car| && |mem.vec| == |m.vec|
    ensures GoodFrames(m, live, w.stack) && FramesIn(m, w.stack)
    ensures forall k :: 0 <= k < |w.stack| ==> 0 <= w.stack[k].node < |m.car|
  {
  }

  lemma LiveNode(m: Mem, live: set<int>, x: int)
    requires Sound(m, live) && x in live
    ensures Sized(m) && 0 <= x < |m.car| && (m.tag[x].vector ==> OwnsBlock(m, x))
  {
  }

  lemma RepAdvance(nil: int, m: Mem, live: set<int>, base: set<int>, marked: set<int>,
                   below: seq<Frame>, f: Frame, cur: int, mem: Mem)
    requires Sound(m, live) && Distinct(below + [f]) && f.node in marked
    requires Represents(nil, m, live, base, Walk(marked, below + [f], cur), mem)
    requires GoodFrame(m, live, f) && cur == Slots(m, f.node)[f.slot] && f.slot + 1 < |Slots(m, f.node)|
    ensures
      var h := Frame(f.node, f.slot + 1);
      var next := Slots(m, f.node)[h.slot];
      && ValidLoc(mem, LocOf(m, f)) && ValidLoc(mem, LocOf(m, h))
      && Read(mem, LocOf(m, h)) == next
      && (m.tag[f.node].vector ==> OwnsBlock(m, f.node))
      && Represents(nil, m, live, base, Walk(marked, below + [h], next), Advanced(m, f, cur, mem))
  {
    hide Sound, Agree, TagsFor, HeadersFor, Encode, Distinct, GoodFrames;
    RepSizes(nil, m, live, base, Walk(marked, below + [f], cur), mem);
    LiveNode(m, live, f.node);
    var h := Frame(f.node, f.slot + 1);
    AdvanceWrites(nil, m, live, marked - base, below, f, cur, mem);
    var mem2 := Write(Write(mem, LocOf(m, h), Read(mem, LocOf(m, f))), LocOf(m, f), cur);
    var e := Encode(nil, m, live, below + [h]);
    AgreeSetIndex(m, live, e, mem2, f.node, h.slot);
    AgreeTags(m, live, e, SetIndex(m, mem2, f.node, h.slot), Advanced(m, f, cur, mem).tag);
    TagsReplaceTop(m, marked, below, f, h, mem.tag);
    HeadersReplaceTop(m, live, marked - base, below, f, h, mem2.vec);
  }

  lemma AgreeTags(m: Mem, live: set<int>, e: Mem, mem: Mem, tag: seq<Tag>)
    requires Sound(m, live) && Agree(m, live, e, mem)
    ensures Agree(m, live, e, mem.(tag := tag))
  {
  }

  lemma AgreeSetIndex(m: Mem, live: set<int>, e: Mem, mem: Mem, x: int, i: int)
    requires Sound(m, live) && Agree(m, live, e, mem) && x in live && |mem.vec| == |m.vec|
    ensures m.tag[x].vector ==> OwnsBlock(m, x)
    ensures Agree(m, live, e, SetIndex(m, mem, x, i))
  {
    if m.tag[x].vector {
      IndexWrite(m, live, mem.vec, x, i);
    }
  }

  lemma AgreeSetLink(m: Mem, live: set<int>, e: Mem, mem: Mem, x: int)
    requires Sound(m, live) && Agree(m, live, e, mem) && x in live && |mem.vec| == |m.vec|
    ensures m.tag[x].vector ==> OwnsBlock(m, x)
    ensures Agree(m, live, e, SetLink(m, mem, x))
  {
    if m.tag[x].vector {
      LinkWrite(m, live, mem.vec, x, x);
    }
  }

  lemma AdvanceWrites(nil: int, m: Mem, live: set<int>, newly: set<int>, below: seq<Frame>, f: Frame, cur: int,
                      mem: Mem)
    requires Sound(m, live) && Distinct(below + [f]) && GoodFrames(m, live, below + [f])
    requires Agree(m, live, Encode(nil, m, live, below + [f]), mem)
    requires HeadersFor(m, live, newly, below + [f], mem.vec)
    requires GoodFrame(m, live, f) && cur == Slots(m, f.node)[f.slot] && f.slot + 1 < |Slots(m, f.node)|
    ensures
      var h := Frame(f.node, f.slot + 1);
      && ValidLoc(mem, LocOf(m, f)) && ValidLoc(mem, LocOf(m, h))
      && Read(mem, LocOf(m, h)) == Slots(m, f.node)[h.slot]
      && GoodFrames(m, live, below + [h])
      && var mem2 := Write(Write(mem, LocOf(m, h), Read(mem, LocOf(m, f))), LocOf(m, f), cur);
      && Agree(m, live, Encode(nil, m, live, below + [h]), mem2)
      && HeadersFor(m, live, newly, below + [f], mem2.vec)
  {
    assert Sized(m);
    hide Sound, Encode, Agree, HeadersFor, LocOf, Slots, Distinct, GoodFrames, Sized;
    var stack := below + [f];
    var e := Encode(nil, m, live, stack);
    var h := Frame(f.node, f.slot + 1);
    var v := Parent(nil, below);
    assert Top(stack) == f && Below(stack) == below;
    EncodeAdvance(nil, m, live, stack);
    AgreeWrite(m, live, e, mem, f, v);
    AgreeWrite(m, live, e, mem, h, v);
    var mem1 := Write(mem, LocOf(m, h), v);
    AgreeWrite(m, live, Write(e, LocOf(m, h), v), mem1, f, cur);
    WriteKeepsHeaders(m, live, newly, stack, mem, h, v);
    WriteKeepsHeaders(m, live, newly, stack, mem1, f, cur);
  }

  lemma HeadersReplaceTop(m: Mem, live: set<int>, newly: set<int>, below: seq<Frame>, f: Frame, h: Frame, vec: seq<int>)
    requires Sound(m, live) && GoodFrames(m, live, below + [f]) && GoodFrame(m, live, h) && h.node == f.node
    requires Distinct(below + [f]) && HeadersFor(m, live, newly, below + [f], vec)
    ensures GoodFrames(m, live, below + [h])
    ensures m.tag[f.node].vector ==>
              && OwnsBlock(m, f.node)
              && HeadersFor(m, live, newly, below + [h], vec[m.cdr[f.node] - 2 := h.slot])
    ensures !m.tag[f.node].vector ==> HeadersFor(m, live, newly, below + [h], vec)
  {
    var old', new' := below + [f], below + [h];
    assert old'[|below|] == f && new'[|below|] == h;
    forall k | 0 <= k < |below| ensures new'[k] == old'[k] && old'[k].node != f.node {
    }
    if m.tag[f.node].vector {
      IndexWrite(m, live, vec, f.node, h.slot);
    }
  }

  /** The memory after leaving frame f, with `cur` to be put back. */
  function Left(m: Mem, f: Frame, cur: int, mem: Mem): Mem
    requires Sized(m) && 0 <= f.node < |m.car| && |mem.tag| == |m.tag| && ValidLoc(mem, LocOf(m, f))
  {
    SetState(Write(mem, LocOf(m, f), cur), f.node, false)
  }

  lemma RepPop(nil: int, m: Mem, live: set<int>, base: set<int>, marked: set<int>,
               below: seq<Frame>, f: Frame, cur: int, mem: Mem)
    requires Sound(m, live) && Distinct(below + [f]) && f.node in marked
    requires Represents(nil, m, live, base, Walk(marked, below + [f], cur), mem)
    requires GoodFrame(m, live, f) && cur == Slots(m, f.node)[f.slot] && !m.tag[f.node].state
    ensures ValidLoc(mem, LocOf(m, f)) && Read(mem, LocOf(m, f)) == Parent(nil, below)
    ensures |mem.tag| == |m.tag|
    ensures Represents(nil, m, live, base, Walk(marked, below, f.node), Left(m, f, cur, mem))
  {
    var stack := below + [f];
    var e := Encode(nil, m, live, stack);
    assert Top(stack) == f && Below(stack) == below;
    EncodePop(nil, m, live, stack);
    AgreeWrite(m, live, e, mem, f, cur);
    WriteKeepsHeaders(m, live, marked - base, stack, mem, f, cur);
    HeadersPop(m, live, marked - base, below, f, Write(mem, LocOf(m, f), cur).vec);
    TagsPop(m, marked, below, f, mem.tag);
  }

  lemma HeadersPop(m: Mem, live: set<int>, newly: set<int>, below: seq<Frame>, f: Frame, vec: seq<int>)
    requires Sound(m, live) && GoodFrames(m, live, below + [f]) && HeadersFor(m, live, newly, below + [f], vec)
    ensures GoodFrames(m, live, below) && HeadersFor(m, live, newly, below, vec)
  {
    forall k | 0 <= k < |below| ensures below[k] == (below + [f])[k] {
    }
  }

  /** The memory after marking a node without slots. */
  function MarkedLeaf(m: Mem, x: int, mem: Mem): Mem
    requires Sized(m) && 0 <= x < |m.car| && |mem.vec| == |m.vec| && |mem.tag| == |m.tag|
    requires m.tag[x].vector ==> OwnsBlock(m, x)
  {
    SetLink(m, SetMark(mem, x), x)
  }

  /** The memory after marking a node and starting on its first slot. */
  function Entered(m: Mem, x: int, parent: int, mem: Mem): Mem
    requires Sized(m) && 0 <= x < |m.car| && |mem.vec| == |m.vec| && |mem.tag| == |m.tag|
    requires (m.tag[x].vector ==> OwnsBlock(m, x)) && ValidLoc(mem, LocOf(m, Frame(x, 0)))
  {
    var marked := SetState(MarkedLeaf(m, x, mem), x, FrameState(m, Frame(x, 0)));
    Write(SetIndex(m, marked, x, 0), LocOf(m, Frame(x, 0)), parent)
  }

  lemma RepLeaf(nil: int, m: Mem, live: set<int>, base: set<int>, marked: set<int>, stack: seq<Frame>, x: int, mem: Mem)
    requires Sound(m, live) && Represents(nil, m, live, base, Walk(marked, stack, x), mem)
    requires forall k :: 0 <= k < |stack| ==> stack[k].node in marked
    requires base <= marked && x in live && x !in marked
    ensures |mem.vec| == |m.vec| && |mem.tag| == |m.tag| && (m.tag[x].vector ==> OwnsBlock(m, x))
    ensures Represents(nil, m, live, base, Walk(marked + {x}, stack, x), MarkedLeaf(m, x, mem))
  {
    hide Sound, Agree, TagsFor, HeadersFor, Encode, GoodFrames;
    RepSizes(nil, m, live, base, Walk(marked, stack, x), mem);
    LiveNode(m, live, x);
    TagsPush(m, marked, stack, Frame(x, 0), mem.tag);
    assert marked + {x} - base == (marked - base) + {x};
    HeadersLink(m, live, marked - base, stack, x, mem.vec);
    AgreeSetLink(m, live, Encode(nil, m, live, stack), mem, x);
    AgreeTags(m, live, Encode(nil, m, live, stack), SetLink(m, mem, x), MarkedLeaf(m, x, mem).tag);
  }

  lemma HeadersLink(m: Mem, live: set<int>, newly: set<int>, stack: seq<Frame>, x: int, vec: seq<int>)
    requires Sound(m, live) && GoodFrames(m, live, stack) && HeadersFor(m, live, newly, stack, vec) && x in live
    ensures m.tag[x].vector ==>
              OwnsBlock(m, x) && HeadersFor(m, live, newly + {x}, stack, vec[m.cdr[x] - 3 := x])
    ensures !m.tag[x].vector ==> HeadersFor(m, live, newly + {x}, stack, vec)
  {
    if m.tag[x].vector {
      LinkWrite(m, live, vec, x, x);
    }
  }

  lemma HeadersPush(m: Mem, live: set<int>, newly: set<int>, stack: seq<Frame>, x: int, vec: seq<int>)
    requires Sound(m, live) && GoodFrames(m, live, stack) && HeadersFor(m, live, newly, stack, vec) && x in live
    requires GoodFrame(m, live, Frame(x, 0)) && forall k :: 0 <= k < |stack| ==> stack[k].node != x
    ensures GoodFrames(m, live, stack + [Frame(x, 0)])
    ensures m.tag[x].vector ==>
              OwnsBlock(m, x) && HeadersFor(m, live, newly, stack + [Frame(x, 0)], vec[m.cdr[x] - 2 := 0])
    ensures !m.tag[x].vector ==> HeadersFor(m, live, newly, stack + [Frame(x, 0)], vec)
  {
    var new' := stack + [Frame(x, 0)];
    assert new'[|stack|] == Frame(x, 0);
    forall k | 0 <= k < |stack| ensures new'[k] == stack[k] {
    }
    if m.tag[x].vector {
      IndexWrite(m, live, vec, x, 0);
    }
  }

  lemma PushAgrees(nil: int, m: Mem, live: set<int>, stack: seq<Frame>, x: int, mem: Mem)
    requires Sound(m, live) && GoodFrames(m, live, stack) && Agree(m, live, Encode(nil, m, live, stack), mem)
    requires |mem.tag| == |m.tag| && x in live && Slots(m, x) != []
    requires forall k :: 0 <= k < |stack| ==> stack[k].node != x
    ensures |mem.vec| == |m.vec| && (m.tag[x].vector ==> OwnsBlock(m, x)) && ValidLoc(mem, LocOf(m, Frame(x, 0)))
    ensures GoodFrames(m, live, stack + [Frame(x, 0)])
    ensures Read(mem, LocOf(m, Frame(x, 0))) == Slots(m, x)[0]
    ensures Agree(m, live, Encode(nil, m, live, stack + [Frame(x, 0)]), Entered(m, x, Parent(nil, stack), mem))
  {
    var e := Encode(nil, m, live, stack);
    EncodePush(nil, m, live, stack, x);
    AgreeWrite(m, live, e, mem, Frame(x, 0), 0);
    AgreeSetLink(m, live, e, mem, x);
    var mem1 := SetState(MarkedLeaf(m, x, mem), x, FrameState(m, Frame(x, 0)));
    assert Agree(m, live, e, mem1);
    AgreeSetIndex(m, live, e, mem1, x, 0);
    AgreeWrite(m, live, e, SetIndex(m, mem1, x, 0), Frame(x, 0), Parent(nil, stack));
  }

  lemma PushHeaders(m: Mem, live: set<int>, newly: set<int>, stack: seq<Frame>, x: int, parent: int, mem: Mem)
    requires Sound(m, live) && GoodFrames(m, live, stack) && HeadersFor(m, live, newly, stack, mem.vec)
    requires x in live && Slots(m, x) != [] && |mem.tag| == |m.tag| && |mem.vec| == |m.vec|
    requires forall k :: 0 <= k < |stack| ==> stack[k].node != x
    requires m.tag[x].vector ==> OwnsBlock(m, x)
    requires ValidLoc(mem, LocOf(m, Frame(x, 0)))
    ensures GoodFrames(m, live, stack + [Frame(x, 0)])
    ensures HeadersFor(m, live, newly + {x}, stack + [Frame(x, 0)], Entered(m, x, parent, mem).vec)
  {
    hide Sound, HeadersFor, GoodFrames;
    LiveNode(m, live, x);
    HeadersLink(m, live, newly, stack, x, mem.vec);
    var mem1 := SetState(MarkedLeaf(m, x, mem), x, FrameState(m, Frame(x, 0)));
    HeadersPush(m, live, newly + {x}, stack, x, mem1.vec);
    WriteKeepsHeaders(m, live, newly + {x}, stack + [Frame(x, 0)], SetIndex(m, mem1, x, 0), Frame(x, 0), parent);
  }

  lemma RepPush(nil: int, m: Mem, live: set<int>, base: set<int>, marked: set<int>, stack: seq<Frame>, x: int, mem: Mem)
    requires Sound(m, live) && Represents(nil, m, live, base, Walk(marked, stack, x), mem)
    requires forall k :: 0 <= k < |stack| ==> stack[k].node in marked
    requires base <= marked && x in live && x !in marked && Slots(m, x) != []
    ensures |mem.vec| == |m.vec| && |mem.tag| == |m.tag| && (m.tag[x].vector ==> OwnsBlock(m, x))
    ensures ValidLoc(mem, LocOf(m, Frame(x, 0))) && Read(mem, LocOf(m, Frame(x, 0))) == Slots(m, x)[0]
    ensures Represents(nil, m, live, base, Walk(marked + {x}, stack + [Frame(x, 0)], Slots(m, x)[0]),
                       Entered(m, x, Parent(nil, stack), mem))
  {
    hide Sound, Agree, TagsFor, HeadersFor, Encode, GoodFrames;
    RepSizes(nil, m, live, base, Walk(marked, stack, x), mem);
    LiveNode(m, live, x);
    TagsPush(m, marked, stack, Frame(x, 0), mem.tag);
    PushAgrees(nil, m, live, stack, x, mem);
    PushHeaders(m, live, marked - base, stack, x, Parent(nil, stack), mem);
    assert marked + {x} - base == (marked - base) + {x};
    var f := Frame(x, 0);
    assert Entered(m, x, Parent(nil, stack), mem).tag
        == mem.tag[x := mem.tag[x].(mark := true, state := FrameState(m, f))];
  }
}
