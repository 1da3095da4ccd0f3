/** Depth-first marking of a finite graph, as an abstract machine with an explicit stack.

    The two pointer-reversal markers of the system (the fixed node pool of Kilo LISP and the
    S9core pool with vectors) both refine this machine: see PointerReversal. */
module Marking {

  /** Node x has the children g[x]; a child outside 0..|g| is a special object, not a node. */
  type Graph = seq<seq<int>>

  predicate IsNode(g: Graph, x: int) {
    0 <= x < |g|
  }

  /** A node under traversal and the index of the child being visited. */
  datatype Frame = Frame(node: int, slot: nat)

  datatype Walk = Walk(marked: set<int>, stack: seq<Frame>, cur: int)

  predicate Settled(g: Graph, w: Walk) {
    !IsNode(g, w.cur) || w.cur in w.marked
  }

  predicate Done(g: Graph, w: Walk) {
    Settled(g, w) && w.stack == []
  }

  predicate FramesOk(g: Graph, stack: seq<Frame>) {
    forall k :: 0 <= k < |stack| ==> IsNode(g, stack[k].node) && stack[k].slot < |g[stack[k].node]|
  }

  function Top(stack: seq<Frame>): Frame
    requires stack != []
  {
    stack[|stack| - 1]
  }

  function Below(stack: seq<Frame>): seq<Frame>
    requires stack != []
  {
    stack[..|stack| - 1]
  }

  /** One transition: visit an unmarked node, move to the next child of the top frame, or leave it. */
  function Step(g: Graph, w: Walk): Walk
    requires FramesOk(g, w.stack) && !Done(g, w)
  {
    if Settled(g, w) then
      var f := Top(w.stack);
      if f.slot + 1 < |g[f.node]| then
        Walk(w.marked, Below(w.stack) + [Frame(f.node, f.slot + 1)], g[f.node][f.slot + 1])
      else
        Walk(w.marked, Below(w.stack), f.node)
    else if g[w.cur] == [] then
      Walk(w.marked + {w.cur}, w.stack, w.cur)
    else
      Walk(w.marked + {w.cur}, w.stack + [Frame(w.cur, 0)], g[w.cur][0])
  }

  /** A path from its first to its last element through nodes outside `blocked`. */
  ghost predicate IsPath(g: Graph, blocked: set<int>, p: seq<int>) {
    && p != []
    && (forall k :: 0 <= k < |p| ==> IsNode(g, p[k]) && p[k] !in blocked)
    && (forall k :: 0 <= k < |p| - 1 ==> p[k + 1] in g[p[k]])
  }

  ghost predicate Reach(g: Graph, blocked: set<int>, x: int, y: int) {
    exists p :: IsPath(g, blocked, p) && p[0] == x && p[|p| - 1] == y
  }

  lemma ReachSelf(g: Graph, blocked: set<int>, x: int)
    requires IsNode(g, x) && x !in blocked
    ensures Reach(g, blocked, x, x)
  {
    assert IsPath(g, blocked, [x]);
  }

  lemma ReachStep(g: Graph, blocked: set<int>, x: int, y: int, z: int)
    requires Reach(g, blocked, x, y) && IsNode(g, y) && z in g[y] && IsNode(g, z) && z !in blocked
    ensures Reach(g, blocked, x, z)
  {
    var p :| IsPath(g, blocked, p) && p[0] == x && p[|p| - 1] == y;
    assert IsPath(g, blocked, p + [z]);
  }

  ghost predicate OnStack(stack: seq<Frame>, x: int) {
    exists k :: 0 <= k < |stack| && stack[k].node == x
  }

  /** The object the machine is looking at is the active child of the top frame. */
  ghost predicate Linked(g: Graph, start: int, w: Walk)
    requires FramesOk(g, w.stack)
  {
    && (w.stack == [] ==> w.cur == start)
    && (w.stack != [] ==> w.cur == g[Top(w.stack).node][Top(w.stack).slot])
    && (w.stack != [] ==> w.stack[0].node == start)
    && (forall k :: 0 < k < |w.stack| ==> w.stack[k].node == g[w.stack[k - 1].node][w.stack[k - 1].slot])
  }

  ghost predicate Distinct(stack: seq<Frame>) {
    forall j, k :: 0 <= j < k < |stack| ==> stack[j].node != stack[k].node
  }

  ghost predicate SettledKids(g: Graph, marked: set<int>, x: int, upto: nat)
    requires IsNode(g, x) && upto <= |g[x]|
  {
    forall j :: 0 <= j < upto ==> IsNode(g, g[x][j]) ==> g[x][j] in marked
  }

  /** Shape of the stack; all that the memory encoding needs. */
  ghost predicate Shape(g: Graph, base: set<int>, start: int, w: Walk) {
    && FramesOk(g, w.stack)
    && Distinct(w.stack)
    && Linked(g, start, w)
    && base <= w.marked
    && (forall x :: x in w.marked - base ==> IsNode(g, x))
    && (forall k :: 0 <= k < |w.stack| ==> w.stack[k].node in w.marked && w.stack[k].node !in base)
  }

  ghost predicate Inv(g: Graph, base: set<int>, start: int, w: Walk) {
    && Shape(g, base, start, w)
    // only what is reachable is marked
    && (forall x :: x in w.marked && x !in base ==> Reach(g, base, start, x))
    // a marked node that has been left has no unmarked child
    && (forall x :: x in w.marked && x !in base && !OnStack(w.stack, x) ==> SettledKids(g, w.marked, x, |g[x]|))
    // nor has a node under traversal among the children already visited
    && (forall k :: 0 <= k < |w.stack| ==> SettledKids(g, w.marked, w.stack[k].node, w.stack[k].slot))
  }

  lemma InvInit(g: Graph, base: set<int>, start: int)
    ensures Inv(g, base, start, Walk(base, [], start))
  {
  }

  lemma AdvanceShape(g: Graph, base: set<int>, start: int, w: Walk)
    requires Shape(g, base, start, w) && !Done(g, w) && Settled(g, w)
    requires Top(w.stack).slot + 1 < |g[Top(w.stack).node]|
    ensures Shape(g, base, start, Step(g, w))
    ensures forall x :: OnStack(Step(g, w).stack, x) == OnStack(w.stack, x)
  {
    var s' := Step(g, w).stack;
    assert forall k :: 0 <= k < |w.stack| ==> s'[k].node == w.stack[k].node;
    assert forall k :: 0 <= k < |w.stack| - 1 ==> s'[k] == w.stack[k];
  }

  lemma StepAdvance(g: Graph, base: set<int>, start: int, w: Walk)
    requires Inv(g, base, start, w) && !Done(g, w) && Settled(g, w)
    requires Top(w.stack).slot + 1 < |g[Top(w.stack).node]|
    ensures Inv(g, base, start, Step(g, w))
  {
    AdvanceShape(g, base, start, w);
    hide OnStack, Linked, Distinct, Reach;
    var w' := Step(g, w);
    forall k | 0 <= k < |w'.stack|
      ensures SettledKids(g, w'.marked, w'.stack[k].node, w'.stack[k].slot)
    {
      assert SettledKids(g, w.marked, w.stack[k].node, w.stack[k].slot);
    }
  }

  lemma StepLeave(g: Graph, base: set<int>, start: int, w: Walk)
    requires Inv(g, base, start, w) && !Done(g, w) && Settled(g, w)
    requires Top(w.stack).slot + 1 >= |g[Top(w.stack).node]|
    ensures Inv(g, base, start, Step(g, w))
  {
    var s := w.stack;
    var w' := Step(g, w);
    var s' := w'.stack;
    var f := Top(s);
    assert SettledKids(g, w.marked, f.node, |g[f.node]|);
    forall x | x in w'.marked && x !in base && !OnStack(s', x)
      ensures SettledKids(g, w'.marked, x, |g[x]|)
    {
      if x != f.node {
        forall k | 0 <= k < |s| ensures s[k].node != x {
          assert k < |s| - 1 ==> s'[k].node != x;
        }
      }
    }
  }

  lemma CurReachable(g: Graph, base: set<int>, start: int, w: Walk)
    requires Inv(g, base, start, w) && !Settled(g, w)
    ensures Reach(g, base, start, w.cur)
  {
    if w.stack == [] {
      ReachSelf(g, base, start);
    } else {
      ReachStep(g, base, start, Top(w.stack).node, w.cur);
    }
  }

  lemma VisitShape(g: Graph, base: set<int>, start: int, w: Walk)
    requires Shape(g, base, start, w) && !Settled(g, w)
    ensures Shape(g, base, start, Step(g, w))
  {
    var s' := Step(g, w).stack;
    assert forall k :: 0 <= k < |w.stack| ==> s'[k] == w.stack[k];
  }

  lemma StepVisit(g: Graph, base: set<int>, start: int, w: Walk)
    requires Inv(g, base, start, w) && !Settled(g, w)
    ensures Inv(g, base, start, Step(g, w))
  {
    var w' := Step(g, w);
    CurReachable(g, base, start, w);
    VisitShape(g, base, start, w);
    if g[w.cur] != [] {
      assert w'.stack[|w.stack|].node == w.cur;
    }
    forall x | x in w'.marked && x !in base && !OnStack(w'.stack, x)
      ensures SettledKids(g, w'.marked, x, |g[x]|)
    {
      if x != w.cur {
        forall k | 0 <= k < |w.stack| ensures w.stack[k].node != x {
          assert w'.stack[k].node != x;
        }
        assert !OnStack(w.stack, x);
        assert SettledKids(g, w.marked, x, |g[x]|);
      }
    }
    forall k | 0 <= k < |w'.stack|
      ensures SettledKids(g, w'.marked, w'.stack[k].node, w'.stack[k].slot)
    {
      if k < |w.stack| {
        assert w'.stack[k] == w.stack[k];
        assert SettledKids(g, w.marked, w.stack[k].node, w.stack[k].slot);
      }
    }
  }

  /** Every transition keeps the invariant. */
  lemma StepKeepsInv(g: Graph, base: set<int>, start: int, w: Walk)
    requires Inv(g, base, start, w) && !Done(g, w)
    ensures Inv(g, base, start, Step(g, w))
  {
    if !Settled(g, w) {
      StepVisit(g, base, start, w);
    } else if Top(w.stack).slot + 1 < |g[Top(w.stack).node]| {
      StepAdvance(g, base, start, w);
    } else {
      StepLeave(g, base, start, w);
    }
  }

  function Unmarked(g: Graph, w: Walk): set<int> {
    set x | 0 <= x < |g| && x !in w.marked
  }

  function SlotsLeft(g: Graph, stack: seq<Frame>): (n: nat)
    requires FramesOk(g, stack)
  {
    if stack == [] then 0
    else
      var f := Top(stack);
      assert FramesOk(g, Below(stack));
      |g[f.node]| - f.slot + SlotsLeft(g, Below(stack))
  }

  /** Every transition makes progress: a node is marked, or a child of the stack is finished with. */
  lemma StepDecreases(g: Graph, base: set<int>, start: int, w: Walk)
    requires Inv(g, base, start, w) && !Done(g, w)
    ensures Inv(g, base, start, Step(g, w))
    ensures
      var w' := Step(g, w);
      || Unmarked(g, w') < Unmarked(g, w)
      || (Unmarked(g, w') == Unmarked(g, w) && SlotsLeft(g, w'.stack) < SlotsLeft(g, w.stack))
  {
    StepKeepsInv(g, base, start, w);
    var w' := Step(g, w);
    if Settled(g, w) {
      assert w'.stack != [] && |w'.stack| == |w.stack| ==> Below(w'.stack) == Below(w.stack);
    } else {
      assert w.cur in Unmarked(g, w) && w.cur !in Unmarked(g, w');
    }
  }

  /** When the machine stops, it has marked exactly what is reachable through unmarked nodes. */
  lemma DoneMarksReachable(g: Graph, base: set<int>, start: int, w: Walk)
    requires Inv(g, base, start, w) && Done(g, w)
    ensures forall x :: x in w.marked <==> x in base || Reach(g, base, start, x)
  {
    forall x | Reach(g, base, start, x) ensures x in w.marked {
      var p :| IsPath(g, base, p) && p[0] == start && p[|p| - 1] == x;
      PathMarked(g, base, start, w, p, |p| - 1);
    }
  }

  lemma {:induction false} PathMarked(g: Graph, base: set<int>, start: int, w: Walk, p: seq<int>, k: nat)
    requires Inv(g, base, start, w) && Done(g, w)
    requires IsPath(g, base, p) && p[0] == start && k < |p|
    ensures p[k] in w.marked
  {
    if k > 0 {
      PathMarked(g, base, start, w, p, k - 1);
      assert !OnStack(w.stack, p[k - 1]);
      assert SettledKids(g, w.marked, p[k - 1], |g[p[k - 1]]|);
      assert p[k] in g[p[k - 1]];
    }
  }

  // ---------------------------------------------------------------- marking from several roots

  ghost predicate Closed(g: Graph, s: set<int>) {
    forall x, y :: x in s && IsNode(g, x) && y in g[x] && IsNode(g, y) ==> y in s
  }

  ghost predicate ReachAny(g: Graph, roots: seq<int>, x: int) {
    exists k :: 0 <= k < |roots| && Reach(g, {}, roots[k], x)
  }

  lemma {:induction false} ClosedTrapsPaths(g: Graph, s: set<int>, p: seq<int>, k: nat)
    requires Closed(g, s) && IsPath(g, {}, p) && k < |p| && p[k] in s
    ensures p[|p| - 1] in s
    decreases |p| - k
  {
    if k + 1 < |p| {
      assert p[k + 1] in g[p[k]];
      ClosedTrapsPaths(g, s, p, k + 1);
    }
  }

  /** Marking from one more root, starting from the marks of the earlier roots. */
  lemma NextRoot(g: Graph, roots: seq<int>, k: nat, base: set<int>, marked: set<int>)
    requires k < |roots|
    requires Closed(g, base)
    requires forall x :: x in base <==> ReachAny(g, roots[..k], x)
    requires forall x :: x in marked <==> x in base || Reach(g, base, roots[k], x)
    ensures Closed(g, marked)
    ensures forall x :: x in marked <==> ReachAny(g, roots[..k + 1], x)
  {
    forall x | ReachAny(g, roots[..k + 1], x) ensures x in marked {
      var j :| 0 <= j < |roots[..k + 1]| && Reach(g, {}, roots[..k + 1][j], x);
      if j < k {
        assert roots[..k][j] == roots[..k + 1][j];
      } else {
        var p :| IsPath(g, {}, p) && p[0] == roots[k] && p[|p| - 1] == x;
        if i :| 0 <= i < |p| && p[i] in base {
          ClosedTrapsPaths(g, base, p, i);
        } else {
          assert IsPath(g, base, p);
        }
      }
    }
    forall x | x in marked ensures ReachAny(g, roots[..k + 1], x) {
      if x in base {
        var j :| 0 <= j < |roots[..k]| && Reach(g, {}, roots[..k][j], x);
        assert roots[..k + 1][j] == roots[..k][j];
      } else {
        var p :| IsPath(g, base, p) && p[0] == roots[k] && p[|p| - 1] == x;
        assert IsPath(g, {}, p);
        assert roots[..k + 1][k] == roots[k];
      }
    }
    forall x, y | x in marked && IsNode(g, x) && y in g[x] && IsNode(g, y) ensures y in marked {
      var j :| 0 <= j < |roots[..k + 1]| && Reach(g, {}, roots[..k + 1][j], x);
      ReachStep(g, {}, roots[..k + 1][j], x, y);
    }
  }
}
