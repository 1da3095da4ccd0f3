/** Where jumps lead: in everything the compiler emits, every jump lands on the start of an instruction. */
module WakJumps {
  import opened WakLanguage
  import opened WakMachine
  import opened WakCode

  /** The number of words of an instruction. */
  function Width(op: int): (w: nat)
    ensures 1 <= w <= 3
  {
    if op == TKPRINT then 3
    else if op == TKNOT || op == OPNOTNOT || op == OPNEGATE || op == OPDROP || op == TKASGN || BinaryOf(op) != [] then 1
    else 2
  }

  predicate IsJump(op: int) {
    || op == OPJUMP || op == TKELSE || op == TKTERNELSE || op == TKBREAK || op == TKCONTINUE
    || op == TKAND || op == TKOR || op == TKIF || op == TKTERNIF || op == TKWHILE
  }

  /** Reading c instruction by instruction, one gets to i. */
  ghost predicate Start(c: seq<int>, i: int) {
    i == 0 || (|c| > 0 && Width(c[0]) <= |c| && Start(c[Width(c[0])..], i - Width(c[0])))
  }

  /** The jump at i leads to an instruction of c, to the end of c, or to one of the places in exits. */
  ghost predicate LandsAt(c: seq<int>, base: int, exits: set<int>, i: int)
    requires 0 <= i < |c|
  {
    i + 1 < |c| && (Start(c, JumpTarget(i, c[i + 1])) || base + JumpTarget(i, c[i + 1]) in exits)
  }

  /** c, which stands at base, consists of whole instructions, and its jumps land. */
  ghost predicate Lands(c: seq<int>, base: int, exits: set<int>) {
    && Start(c, |c|)
    && forall i :: 0 <= i < |c| && Start(c, i) && IsJump(c[i]) ==> LandsAt(c, base, exits, i)
  }

  lemma {:induction false} StartInside(c: seq<int>, i: int)
    requires Start(c, i)
    ensures 0 <= i <= |c|
  {
    if i != 0 {
      StartInside(c[Width(c[0])..], i - Width(c[0]));
    }
  }

  lemma StartBehindFirst(c: seq<int>, i: int)
    requires |c| > 0 && i != 0
    ensures Start(c, i) <==> Width(c[0]) <= |c| && Start(c[Width(c[0])..], i - Width(c[0]))
  {
  }

  lemma StartZero(c: seq<int>)
    ensures Start(c, 0)
  {
  }

  lemma StartInEmpty(c: seq<int>, i: int)
    requires |c| == 0
    ensures Start(c, i) <==> i == 0
  {
  }

  /** Instructions are read the same whatever follows them, and what follows is read from its beginning. */
  lemma {:induction false} StartOfBoth(a: seq<int>, b: seq<int>, i: int)
    requires Start(a, |a|)
    ensures Start(a + b, i) <==> Start(a, i) || Start(b, i - |a|)
    decreases |a|, 1
  {
    hide Width, Start;
    StartZero(a);
    StartZero(b);
    StartZero(a + b);
    if |a| == 0 {
      assert a + b == b;
      StartInEmpty(a, i);
    } else if i != 0 {
      StartBehindFirst(a, |a|);
      StartOfRest(a, b, i);
    }
  }

  lemma StartOfRest(a: seq<int>, b: seq<int>, i: int)
    requires |a| > 0 && i != 0
    requires Width(a[0]) <= |a| && Start(a[Width(a[0])..], |a| - Width(a[0]))
    ensures Start(a + b, i) <==> Start(a, i) || Start(b, i - |a|)
    decreases |a|, 0
  {
    hide Width, Start;
    var w := Width(a[0]);
    assert (a + b)[0] == a[0] && (a + b)[w..] == a[w..] + b;
    StartOfBoth(a[w..], b, i - w);
    StartBehindFirst(a + b, i);
    StartBehindFirst(a, i);
    assert i - |a| == i - w - |a[w..]|;
  }

  /** The starts of a and of b, behind it, are starts of both together. */
  lemma LandsBoth(a: seq<int>, b: seq<int>, base: int, exits: set<int>)
    requires Lands(a, base, exits) && Lands(b, base + |a|, exits)
    ensures Lands(a + b, base, exits)
    ensures forall i :: Start(a, i) ==> Start(a + b, i)
    ensures Start(a + b, |a|)
  {
    hide Start;
    var c := a + b;
    forall i
      ensures Start(a, i) ==> Start(c, i)
      ensures Start(b, i - |a|) ==> Start(c, i)
      ensures Start(c, i) ==> Start(a, i) || Start(b, i - |a|)
    {
      StartOfBoth(a, b, i);
    }
    assert Start(b, |c| - |a|);
    StartZero(b);
    assert Start(b, |a| - |a|);
    forall i | 0 <= i < |c| && Start(c, i) && IsJump(c[i])
      ensures LandsAt(c, base, exits, i)
    {
      if Start(b, i - |a|) {
        StartInside(b, i - |a|);
        assert b[i - |a|] == c[i] && LandsAt(b, base + |a|, exits, i - |a|);
        assert JumpTarget(i, c[i + 1]) - |a| == JumpTarget(i - |a|, b[i - |a| + 1]);
      } else {
        StartInside(a, i);
        assert LandsAt(a, base, exits, i);
      }
    }
  }

  /** Exits that turn out to be starts of c itself are none. */
  lemma LandsInside(c: seq<int>, base: int, exits: set<int>, exits': set<int>)
    requires Lands(c, base, exits)
    requires forall t :: t in exits ==> t in exits' || Start(c, t - base)
    ensures Lands(c, base, exits')
  {
    hide Start;
    forall i | 0 <= i < |c| && Start(c, i) && IsJump(c[i])
      ensures LandsAt(c, base, exits', i)
    {
      assert LandsAt(c, base, exits, i);
    }
  }

  lemma LandsOne(op: int, base: int, exits: set<int>)
    requires Width(op) == 1
    ensures Lands([op], base, exits)
  {
  }

  lemma LandsTwo(op: int, x: int, base: int, exits: set<int>)
    requires Width(op) == 2 && (IsJump(op) ==> JumpTarget(base, x) in exits)
    ensures Lands([op, x], base, exits)
  {
    assert [op, x][2..] == [];
  }

  lemma LandsThree(base: int, exits: set<int>)
    ensures Lands([TKPRINT, 1, 0], base, exits)
  {
    assert [TKPRINT, 1, 0][3..] == [];
  }

  lemma LandsEmpty(base: int, exits: set<int>)
    ensures Lands([], base, exits)
  {
  }

  lemma LandsThenOne(c: seq<int>, op: int, base: int, exits: set<int>)
    requires Lands(c, base, exits) && Width(op) == 1
    ensures Lands(c + [op], base, exits)
  {
    hide Lands, Start;
    LandsOne(op, base + |c|, exits);
    LandsBoth(c, [op], base, exits);
  }

  lemma LandsThenTwo(c: seq<int>, op: int, v: int, base: int, exits: set<int>)
    requires Lands(c, base, exits)
    requires Width(op) == 2 && (IsJump(op) ==> JumpTarget(base + |c|, v) in exits)
    ensures Lands(c + [op, v], base, exits)
    ensures forall i :: Start(c, i) ==> Start(c + [op, v], i)
    ensures Start(c + [op, v], |c|) && Start(c + [op, v], |c| + 2)
  {
    hide Lands, Start;
    LandsTwo(op, v, base + |c|, exits);
    LandsBoth(c, [op, v], base, exits);
    LandsEnd(c + [op, v], base, exits);
  }

  lemma LandsEnd(c: seq<int>, base: int, exits: set<int>)
    requires Lands(c, base, exits)
    ensures Start(c, 0) && Start(c, |c|)
  {
  }

  // ---------------------------------------------------------------- compound constructs

  // x are the exits of the parts: those of the whole, and the places inside that its jumps lead to.

  lemma LogicalLands(op: int, cl: seq<int>, cr: seq<int>, base: int, exits: set<int>, x: set<int>)
    requires op == TKAND || op == TKOR
    requires x == exits + {base + |LogicalWords(op, cl, cr)|}
    requires Lands(cl, base, x) && Lands(cr, base + |cl| + 2, x)
    ensures Lands(LogicalWords(op, cl, cr), base, exits)
  {
    hide Lands, Start;
    var c := LogicalWords(op, cl, cr);
    LandsThenTwo(cl, op, |cr| + 1, base, x);
    LandsBoth(cl + [op, |cr| + 1], cr, base, x);
    LandsThenOne(cl + [op, |cr| + 1] + cr, OPNOTNOT, base, x);
    LandsEnd(c, base, x);
    LandsInside(c, base, x, exits);
  }

  lemma IfLands(ct: seq<int>, c1: seq<int>, base: int, exits: set<int>, x: set<int>)
    requires x == exits + {base + |IfWords(ct, c1)|}
    requires Lands(ct, base, x) && Lands(c1, base + |ct| + 2, x)
    ensures Lands(IfWords(ct, c1), base, exits)
  {
    hide Lands, Start;
    var c := IfWords(ct, c1);
    LandsThenTwo(ct, TKIF, |c1|, base, x);
    LandsBoth(ct + [TKIF, |c1|], c1, base, x);
    LandsEnd(c, base, x);
    LandsInside(c, base, x, exits);
  }

  lemma ChoiceLands(ct: seq<int>, op: int, c1: seq<int>, op2: int, c2: seq<int>, base: int, exits: set<int>,
                    x: set<int>)
    requires (op == TKIF && op2 == TKELSE) || (op == TKTERNIF && op2 == TKTERNELSE)
    requires x == exits + {base + |ct| + 2 + |c1| + 2, base + |ChoiceWords(ct, op, c1, op2, c2)|}
    requires Lands(ct, base, x) && Lands(c1, base + |ct| + 2, x) && Lands(c2, base + |ct| + 2 + |c1| + 2, x)
    ensures Lands(ChoiceWords(ct, op, c1, op2, c2), base, exits)
  {
    hide Lands, Start;
    var c := ChoiceWords(ct, op, c1, op2, c2);
    LandsThenTwo(ct, op, |c1| + 2, base, x);
    LandsBoth(ct + [op, |c1| + 2], c1, base, x);
    LandsThenTwo(ct + [op, |c1| + 2] + c1, op2, |c2|, base, x);
    LandsBoth(ct + [op, |c1| + 2] + c1 + [op2, |c2|], c2, base, x);
    LandsEnd(c, base, x);
    LandsInside(c, base, x, exits);
  }

  lemma WhileLands(ct: seq<int>, cb: seq<int>, base: int, exits: set<int>, x: set<int>)
    requires x == exits + {base, base + |ct| + 2, base + |ct| + 4, base + |WhileWords(ct, cb)|}
    requires Lands(ct, base, x) && Lands(cb, base + |ct| + 4, x)
    ensures Lands(WhileWords(ct, cb), base, exits)
  {
    hide Lands, Start;
    var c := WhileWords(ct, cb);
    var w1, w2 := [TKWHILE, 2], [OPJUMP, |cb| + 2];
    LandsThenTwo(ct, TKWHILE, 2, base, x);
    LandsThenTwo(ct + w1, OPJUMP, |cb| + 2, base, x);
    LandsBoth(ct + w1 + w2, cb, base, x);
    LandsThenTwo(ct + w1 + w2 + cb, OPJUMP, -(|ct| + |cb| + 6), base, x);
    LandsEnd(c, base, x);
    assert Start(c, |ct| + 2) && Start(c, |ct| + 4);
    LandsInside(c, base, x, exits);
  }

  lemma DoLands(cb: seq<int>, ct: seq<int>, base: int, exits: set<int>, x: set<int>)
    requires x == exits + {base + 2, base + 4, base + 6, base + 6 + |cb|, base + |DoWords(cb, ct)|}
    requires Lands(cb, base + 6, x) && Lands(ct, base + 6 + |cb|, x)
    ensures Lands(DoWords(cb, ct), base, exits)
  {
    hide Lands, Start;
    var c := DoWords(cb, ct);
    var w1, w2, w3 := [OPJUMP, 4], [OPJUMP, |cb| + 2], [OPJUMP, |cb| + |ct| + 2];
    LandsTwo(OPJUMP, 4, base, x);
    LandsThenTwo(w1, OPJUMP, |cb| + 2, base, x);
    LandsThenTwo(w1 + w2, OPJUMP, |cb| + |ct| + 2, base, x);
    LandsBoth(w1 + w2 + w3, cb, base, x);
    LandsBoth(w1 + w2 + w3 + cb, ct, base, x);
    LandsThenTwo(w1 + w2 + w3 + cb + ct, TKWHILE, -(|cb| + |ct| + 2), base, x);
    LandsEnd(c, base, x);
    LandsInside(c, base, x, exits);
  }

  lemma ForLands(cc: seq<int>, cn: seq<int>, cb: seq<int>, base: int, exits: set<int>, x: set<int>)
    requires
      var brk := base + |cc|;
      x == exits + {base, brk, brk + 2, brk + |cn| + 4, base + |ForWords(cc, cn, cb)|}
    requires Lands(cc, base, x) && Lands(cn, base + |cc| + 2, x) && Lands(cb, base + |cc| + |cn| + 4, x)
    ensures Lands(ForWords(cc, cn, cb), base, exits)
  {
    hide Lands, Start;
    var c := ForWords(cc, cn, cb);
    var w1, w2 := [OPJUMP, |cn| + |cb| + 4], [OPJUMP, -(|cc| + |cn| + 4)];
    LandsThenTwo(cc, OPJUMP, |cn| + |cb| + 4, base, x);
    LandsBoth(cc + w1, cn, base, x);
    LandsThenTwo(cc + w1 + cn, OPJUMP, -(|cc| + |cn| + 4), base, x);
    LandsBoth(cc + w1 + cn + w2, cb, base, x);
    LandsThenTwo(cc + w1 + cn + w2 + cb, OPJUMP, -(|cn| + |cb| + 4), base, x);
    LandsEnd(c, base, x);
    assert Start(c, |cc|) && Start(c, |cc| + 2) && Start(c, |cc| + |cn| + 4);
    LandsInside(c, base, x, exits);
  }

  // ---------------------------------------------------------------- expressions, statements, functions

  lemma {:induction false} LandsE(e: Expr, base: int, exits: set<int>)
    ensures Lands(CodeE(e), base, exits)
    decreases ExprSize(e)
  {
    hide Lands, Start, LogicalWords, ChoiceWords;
    match e
    case Literal(lit) => LandsTwo(TKNUMBER, lit, base, exits);
    case Var(slot) => LandsTwo(TKVAR, slot, base, exits);
    case Assign(slot, rhs) =>
      LandsTwo(OPVARREF, slot, base, exits);
      LandsE(rhs, base + 2, exits);
      LandsBoth([OPVARREF, slot], CodeE(rhs), base, exits);
      LandsThenOne([OPVARREF, slot] + CodeE(rhs), TKASGN, base, exits);
    case Not(e1) =>
      LandsE(e1, base, exits);
      LandsThenOne(CodeE(e1), TKNOT, base, exits);
    case Negate(e1) =>
      LandsE(e1, base, exits);
      LandsThenOne(CodeE(e1), OPNEGATE, base, exits);
    case Binary(op, l, r) =>
      LandsE(l, base, exits);
      LandsE(r, base + |CodeE(l)|, exits);
      LandsBoth(CodeE(l), CodeE(r), base, exits);
      LandsThenOne(CodeE(l) + CodeE(r), Opcode(op), base, exits);
    case And(l, r) =>
      var x := exits + {base + |CodeE(e)|};
      LandsE(l, base, x);
      LandsE(r, base + |CodeE(l)| + 2, x);
      LogicalLands(TKAND, CodeE(l), CodeE(r), base, exits, x);
    case Or(l, r) =>
      var x := exits + {base + |CodeE(e)|};
      LandsE(l, base, x);
      LandsE(r, base + |CodeE(l)| + 2, x);
      LogicalLands(TKOR, CodeE(l), CodeE(r), base, exits, x);
    case Cond(t, l, r) =>
      var elsePart := base + |CodeE(t)| + 2 + |CodeE(l)| + 2;
      var x := exits + {elsePart, base + |CodeE(e)|};
      LandsE(t, base, x);
      LandsE(l, base + |CodeE(t)| + 2, x);
      LandsE(r, elsePart, x);
      ChoiceLands(CodeE(t), TKTERNIF, CodeE(l), TKTERNELSE, CodeE(r), base, exits, x);
    case Call(f, args) =>
      LandsTwo(OPPREPCALL, f, base, exits);
      LandsArgs(args, base + 2, exits);
      LandsBoth([OPPREPCALL, f], CodeArgs(args), base, exits);
      LandsThenTwo([OPPREPCALL, f] + CodeArgs(args), TKFUNC, CountArgs(args), base, exits);
  }

  lemma {:induction false} LandsArgs(args: Args, base: int, exits: set<int>)
    ensures Lands(CodeArgs(args), base, exits)
    decreases ArgsSize(args)
  {
    hide Lands, Start;
    match args
    case NoArgs => LandsEmpty(base, exits);
    case MoreArgs(first, rest) =>
      LandsE(first, base, exits);
      LandsArgs(rest, base + |CodeE(first)|, exits);
      LandsBoth(CodeE(first), CodeArgs(rest), base, exits);
  }

  predicate Among(d: Dests, exits: set<int>) {
    (d.brk != 0 ==> d.brk in exits) && (d.cont != 0 ==> d.cont in exits)
  }

  lemma LandsLeaf(s: Stmt, pos: int, d: Dests, nparms: nat, exits: set<int>)
    requires Simple(s) || s.Break? || s.Continue? || s.Return?
    requires Among(d, exits)
    ensures Lands(CodeS(s, pos, d, nparms), pos, exits)
  {
    hide Lands, Start, CodeE;
    match s
    case Skip => LandsEmpty(pos, exits);
    case ExprStmt(e) =>
      LandsE(e, pos, exits);
      LandsThenOne(CodeE(e), OPDROP, pos, exits);
    case Print(e) =>
      LandsE(e, pos, exits);
      LandsThree(pos + |CodeE(e)|, exits);
      LandsBoth(CodeE(e), [TKPRINT, 1, 0], pos, exits);
    case Break => if d.brk != 0 { LandsTwo(TKBREAK, d.brk - pos - 2, pos, exits); } else { LandsEmpty(pos, exits); }
    case Continue =>
      if d.cont != 0 {
        LandsTwo(TKCONTINUE, d.cont - pos - 2, pos, exits);
      } else {
        LandsEmpty(pos, exits);
      }
    case Return(e) =>
      LandsE(e, pos, exits);
      LandsThenTwo(CodeE(e), TKRETURN, nparms, pos, exits);
  }

  /** Only break and continue leave a statement, to the jump words of the loop around it. */
  lemma {:induction false} LandsS(s: Stmt, pos: int, d: Dests, nparms: nat, exits: set<int>)
    requires Among(d, exits)
    ensures Lands(CodeS(s, pos, d, nparms), pos, exits)
    decreases StmtSize(s), 1
  {
    hide Lands, Start, CodeS, StmtSize, Among;
    match s
    case Seq(_, _) => LandsSeq(s, pos, d, nparms, exits);
    case If(_, _) => LandsIf(s, pos, d, nparms, exits);
    case IfElse(_, _, _) => LandsIfElse(s, pos, d, nparms, exits);
    case While(_, _) => LandsWhile(s, pos, d, nparms, exits);
    case DoWhile(_, _) => LandsDo(s, pos, d, nparms, exits);
    case For(_, _, _, _) => LandsFor(s, pos, d, nparms, exits);
    case _ => LandsLeaf(s, pos, d, nparms, exits);
  }

  lemma {:induction false} LandsSeq(s: Stmt, pos: int, d: Dests, nparms: nat, exits: set<int>)
    requires s.Seq? && Among(d, exits)
    ensures Lands(CodeS(s, pos, d, nparms), pos, exits)
    decreases StmtSize(s), 0
  {
    hide Lands, Start, CodeS, Among;
    CodeOfSeq(s.s1, s.s2, pos, d, nparms);
    var c1 := CodeS(s.s1, pos, d, nparms);
    LandsS(s.s1, pos, d, nparms, exits);
    LandsS(s.s2, pos + |c1|, d, nparms, exits);
    LandsBoth(c1, CodeS(s.s2, pos + |c1|, d, nparms), pos, exits);
  }

  lemma {:induction false} LandsIf(s: Stmt, pos: int, d: Dests, nparms: nat, exits: set<int>)
    requires s.If? && Among(d, exits)
    ensures Lands(CodeS(s, pos, d, nparms), pos, exits)
    decreases StmtSize(s), 0
  {
    hide Lands, Start, CodeE, IfWords;
    var ct, p1 := CodeE(s.test), pos + |CodeE(s.test)| + 2;
    var c1 := CodeS(s.thn, p1, d, nparms);
    var x := exits + {pos + |IfWords(ct, c1)|};
    LandsE(s.test, pos, x);
    LandsS(s.thn, p1, d, nparms, x);
    IfLands(ct, c1, pos, exits, x);
  }

  lemma {:induction false} LandsIfElse(s: Stmt, pos: int, d: Dests, nparms: nat, exits: set<int>)
    requires s.IfElse? && Among(d, exits)
    ensures Lands(CodeS(s, pos, d, nparms), pos, exits)
    decreases StmtSize(s), 0
  {
    hide Lands, Start, CodeE, ChoiceWords, CodeS;
    CodeOfIfElse(s.test, s.thn, s.els, pos, d, nparms);
    var ct, p1 := CodeE(s.test), pos + |CodeE(s.test)| + 2;
    var c1 := CodeS(s.thn, p1, d, nparms);
    var p2 := p1 + |c1| + 2;
    var c2 := CodeS(s.els, p2, d, nparms);
    var x := exits + {p2, pos + |ChoiceWords(ct, TKIF, c1, TKELSE, c2)|};
    LandsE(s.test, pos, x);
    LandsS(s.thn, p1, d, nparms, x);
    LandsS(s.els, p2, d, nparms, x);
    ChoiceLands(ct, TKIF, c1, TKELSE, c2, pos, exits, x);
  }

  lemma {:induction false} LandsWhile(s: Stmt, pos: int, d: Dests, nparms: nat, exits: set<int>)
    requires s.While?
    ensures Lands(CodeS(s, pos, d, nparms), pos, exits)
    decreases StmtSize(s), 0
  {
    hide Lands, Start, CodeE, WhileWords;
    var ct, brk := CodeE(s.test), pos + |CodeE(s.test)| + 2;
    var cb := CodeS(s.body, brk + 2, Dests(brk, pos), nparms);
    var x := exits + {pos, brk, brk + 2, pos + |WhileWords(ct, cb)|};
    LandsE(s.test, pos, x);
    LandsS(s.body, brk + 2, Dests(brk, pos), nparms, x);
    WhileLands(ct, cb, pos, exits, x);
  }

  lemma {:induction false} LandsDo(s: Stmt, pos: int, d: Dests, nparms: nat, exits: set<int>)
    requires s.DoWhile?
    ensures Lands(CodeS(s, pos, d, nparms), pos, exits)
    decreases StmtSize(s), 0
  {
    hide Lands, Start, CodeE, DoWords;
    var ct, cb := CodeE(s.test), CodeS(s.body, pos + 6, Dests(pos + 4, pos + 2), nparms);
    var x := exits + {pos + 2, pos + 4, pos + 6, pos + 6 + |cb|, pos + |DoWords(cb, ct)|};
    LandsS(s.body, pos + 6, Dests(pos + 4, pos + 2), nparms, x);
    LandsE(s.test, pos + 6 + |cb|, x);
    DoLands(cb, ct, pos, exits, x);
  }

  lemma {:induction false} LandsFor(s: Stmt, pos: int, d: Dests, nparms: nat, exits: set<int>)
    requires s.For? && Among(d, exits)
    ensures Lands(CodeS(s, pos, d, nparms), pos, exits)
    decreases StmtSize(s), 0
  {
    hide Lands, Start, CodeLoop, Among;
    var ci := CodeS(s.init, pos, d, nparms);
    LandsS(s.init, pos, d, nparms, exits);
    LandsLoop(s.cond, s.incr, s.body, pos + |ci|, nparms, exits);
    LandsBoth(ci, CodeLoop(s.cond, s.incr, s.body, pos + |ci|, nparms), pos, exits);
  }

  lemma {:induction false} LandsLoop(c: OptExpr, n: Stmt, b: Stmt, head: int, nparms: nat, exits: set<int>)
    ensures Lands(CodeLoop(c, n, b, head, nparms), head, exits)
    decreases StmtSize(n) + StmtSize(b) + 1
  {
    hide Lands, Start, CodeE, CodeS, ForWords;
    var brk := head + |CodeCond(c, 0)|;
    var cn := CodeS(n, brk + 2, Dests(0, 0), nparms);
    var cb := CodeS(b, brk + |cn| + 4, Dests(brk, brk + 2), nparms);
    var cc := CodeCond(c, |cn| + 4);
    var x := exits + {head, brk, brk + 2, brk + |cn| + 4, head + |ForWords(cc, cn, cb)|};
    match c {
      case NoExpr => LandsTwo(OPJUMP, |cn| + 4, head, x);
      case SomeExpr(e) =>
        LandsE(e, head, x);
        LandsThenTwo(CodeE(e), TKWHILE, |cn| + 4, head, x);
    }
    LandsS(n, brk + 2, Dests(0, 0), nparms, x);
    LandsS(b, brk + |cn| + 4, Dests(brk, brk + 2), nparms, x);
    ForLands(cc, cn, cb, head, exits, x);
  }

  lemma LandsF(f: nat, fn: Func, pos: int, uninit: nat, exits: set<int>)
    ensures Lands(CodeF(f, fn, pos, uninit), pos, exits) && |CodeF(f, fn, pos, uninit)| > 0
  {
    hide Lands, Start, CodeS;
    var cs := CodeS(fn.body, pos + 2, Dests(0, 0), fn.nparms);
    LandsTwo(TKFUNCTION, f, pos, exits);
    LandsS(fn.body, pos + 2, Dests(0, 0), fn.nparms, exits);
    LandsBoth([TKFUNCTION, f], cs, pos, exits);
    LandsThenTwo([TKFUNCTION, f] + cs, TKNUMBER, uninit, pos, exits);
    LandsThenTwo([TKFUNCTION, f] + cs + [TKNUMBER, uninit], TKRETURN, fn.nparms, pos, exits);
  }

  // ---------------------------------------------------------------- whole programs

  /** pos is the start of an instruction; the zcode list has one word that is not code in front. */
  ghost predicate Instruction(code: seq<int>, pos: int) {
    1 <= pos < |code| && Start(code[1..], pos - 1)
  }

  /** Every instruction but opquit is followed by one, and every jump leads to one. */
  ghost predicate ControlStays(code: seq<int>) {
    forall pos :: Instruction(code, pos) ==> StaysAt(code, pos)
  }

  ghost predicate StaysAt(code: seq<int>, pos: int)
    requires Instruction(code, pos)
  {
    && (code[pos] == OPQUIT || Instruction(code, pos + Width(code[pos])))
    && (IsJump(code[pos]) ==> pos + 1 < |code| && Instruction(code, JumpTarget(pos, code[pos + 1])))
  }

  lemma LandsMore(z: seq<int>, c: seq<int>)
    requires |z| > 0 && Lands(z[1..], 1, {}) && Lands(c, |z|, {})
    ensures Lands((z + c)[1..], 1, {})
    ensures |c| > 0 ==> Instruction(z + c, |z|)
    ensures forall pos :: Instruction(z, pos) ==> Instruction(z + c, pos)
  {
    hide Lands, Start;
    assert (z + c)[1..] == z[1..] + c;
    LandsBoth(z[1..], c, 1, {});
  }

  lemma {:induction false} StartThenNext(c: seq<int>, i: int)
    requires Start(c, |c|) && Start(c, i) && i != |c|
    ensures 0 <= i < |c| && Start(c, i + Width(c[i]))
  {
    hide Width;
    if i != 0 {
      var w := Width(c[0]);
      StartThenNext(c[w..], i - w);
      assert c[w..][i - w] == c[i];
    } else {
      StartZero(c[Width(c[0])..]);
    }
  }

  /** The jumps so far land, and functions start at instructions. */
  ghost predicate Landing(code: seq<int>, addrs: seq<int>) {
    |code| > 0 && Lands(code[1..], 1, {}) && forall a :: a in addrs ==> Instruction(code, a)
  }

  lemma LandingFirst(w: int)
    ensures Landing([w], [])
  {
    assert [w][1..] == [];
  }

  lemma LandingNext(code: seq<int>, addrs: seq<int>, f: nat, fn: Func, uninit: nat)
    requires Landing(code, addrs)
    ensures Landing(code + CodeF(f, fn, |code|, uninit), addrs + [|code|])
  {
    hide Lands, Instruction, CodeF;
    LandsF(f, fn, |code|, uninit, {});
    LandsMore(code, CodeF(f, fn, |code|, uninit));
  }

  /** A last piece of code, closed by opquit, for instance that of a BEGIN rule. */
  lemma LandingClosed(code: seq<int>, addrs: seq<int>, s: Stmt, nparms: nat)
    requires Landing(code, addrs)
    ensures
      var z := code + CodeS(s, |code|, Dests(0, 0), nparms) + [OPQUIT, -1];
      ControlStays(z) && Instruction(z, |code|) && forall a :: a in addrs ==> Instruction(z, a)
  {
    hide Lands, Instruction, CodeS, ControlStays;
    var c := CodeS(s, |code|, Dests(0, 0), nparms);
    LandsS(s, |code|, Dests(0, 0), nparms, {});
    LandsMore(code, c);
    ClosedCodeStays(code + c);
    assert c == [] ==> code + c == code;
  }

  /** Code that lands, closed by opquit. */
  lemma ClosedCodeStays(z: seq<int>)
    requires |z| > 0 && Lands(z[1..], 1, {})
    ensures ControlStays(z + [OPQUIT, -1])
    ensures Instruction(z + [OPQUIT, -1], |z|)
    ensures forall pos :: Instruction(z, pos) ==> Instruction(z + [OPQUIT, -1], pos)
  {
    hide Start, Lands, Instruction, StaysAt;
    var code := z + [OPQUIT, -1];
    LandsTwo(OPQUIT, -1, |z|, {});
    LandsMore(z, [OPQUIT, -1]);
    forall pos | Instruction(code, pos)
      ensures StaysAt(code, pos)
    {
      ClosedCodeStaysAt(z, pos);
    }
  }

  lemma ClosedCodeStaysAt(z: seq<int>, pos: int)
    requires |z| > 0 && Lands(z[1..], 1, {}) && Instruction(z + [OPQUIT, -1], pos)
    ensures StaysAt(z + [OPQUIT, -1], pos)
  {
    hide Start, Width, StaysAt;
    var a, w := z[1..], [OPQUIT, -1];
    assert (z + w)[1..] == a + w;
    StartOfBoth(a, w, pos - 1);
    StartZero(w);
    if pos < |z| {
      if Start(w, pos - |z|) {
        StartInside(w, pos - |z|);
      }
      LandsThenStays(z, pos);
    } else {
      if Start(a, pos - 1) {
        StartInside(a, pos - 1);
      }
      QuitStart(pos - |z|);
      QuitStays(z);
    }
  }

  lemma QuitStays(z: seq<int>)
    requires |z| > 0 && Instruction(z + [OPQUIT, -1], |z|)
    ensures StaysAt(z + [OPQUIT, -1], |z|)
  {
    hide Start;
  }

  /** From an instruction of z, control goes on in z or right behind it. */
  lemma LandsThenStays(z: seq<int>, pos: int)
    requires 1 <= pos < |z| && Lands(z[1..], 1, {}) && Start(z[1..], pos - 1)
    ensures var code := z + [OPQUIT, -1]; Instruction(code, pos) && StaysAt(code, pos)
  {
    hide Start;
    var a, code := z[1..], z + [OPQUIT, -1];
    StartThenNext(a, pos - 1);
    StaysBehind(z, pos - 1);
    StaysBehind(z, pos - 1 + Width(a[pos - 1]));
    if IsJump(a[pos - 1]) {
      assert LandsAt(a, 1, {}, pos - 1);
      StaysBehind(z, JumpTarget(pos - 1, a[pos]));
    }
  }

  lemma StaysBehind(z: seq<int>, i: int)
    requires |z| > 0 && Start(z[1..], i) && Start(z[1..], |z| - 1)
    ensures Instruction(z + [OPQUIT, -1], i + 1)
  {
    hide Start;
    StartInside(z[1..], i);
    assert (z + [OPQUIT, -1])[1..] == z[1..] + [OPQUIT, -1];
    StartOfBoth(z[1..], [OPQUIT, -1], i);
  }

  lemma QuitStart(i: int)
    requires Start([OPQUIT, -1], i)
    ensures i == 0 || i == 2
  {
    assert [OPQUIT, -1][2..] == [];
  }

  // ---------------------------------------------------------------- what the machine makes of it

  lemma CallAdvances(q: Image, m: Machine)
    requires 0 <= m.ip < |q.code| && q.code[m.ip] == TKFUNC && Step(q, m).Next?
    ensures
      var m' := Step(q, m).m;
      var ret := |m'.stack| - 2 - (if m.ip + 1 < |q.code| then q.code[m.ip + 1] else 0) + RETURN_ADDR;
      m'.ip in q.addrs && 0 <= ret < |m'.stack| && m'.stack[ret] == Num(m.ip + Width(TKFUNC))
  {
    hide EnterFunction, LeaveFunction, StepBinary, StepNumber, BinaryOf, Width;
    CallWidth();
  }

  lemma ReturnAdvances(q: Image, m: Machine)
    requires 0 <= m.ip < |q.code| && q.code[m.ip] == TKRETURN && Step(q, m).Next?
    ensures m.parmbase + RETURN_ADDR < |m.stack| && m.stack[m.parmbase + RETURN_ADDR] == Num(Step(q, m).m.ip)
  {
    hide EnterFunction, LeaveFunction, StepBinary, StepNumber, BinaryOf;
  }

  lemma OtherAdvances(q: Image, m: Machine)
    requires 0 <= m.ip < |q.code| && q.code[m.ip] != TKFUNC && q.code[m.ip] != TKRETURN && Step(q, m).Next?
    ensures
      var op, op2 := q.code[m.ip], if m.ip + 1 < |q.code| then q.code[m.ip + 1] else 0;
      Step(q, m).m.ip == m.ip + Width(op) || (IsJump(op) && Step(q, m).m.ip == JumpTarget(m.ip, op2))
  {
    hide EnterFunction, LeaveFunction;
  }

  /** A step leads to the next instruction or where the jump says, except that a call leads to the address of the
      called function and saves the address of the next instruction, and a return leads to the address saved. */
  lemma StepAdvances(q: Image, m: Machine)
    requires Step(q, m).Next?
    ensures 0 <= m.ip < |q.code| && q.code[m.ip] != OPQUIT
    ensures
      var op, m' := q.code[m.ip], Step(q, m).m;
      var op2 := if m.ip + 1 < |q.code| then q.code[m.ip + 1] else 0;
      if op == TKFUNC then
        var ret := |m'.stack| - 2 - op2 + RETURN_ADDR;
        m'.ip in q.addrs && 0 <= ret < |m'.stack| && m'.stack[ret] == Num(m.ip + Width(op))
      else if op == TKRETURN then
        m.parmbase + RETURN_ADDR < |m.stack| && m.stack[m.parmbase + RETURN_ADDR] == Num(m'.ip)
      else m'.ip == m.ip + Width(op) || (IsJump(op) && m'.ip == JumpTarget(m.ip, op2))
  {
    assert 0 <= m.ip < |q.code| && q.code[m.ip] != OPQUIT;
    hide Step, Width, IsJump;
    if q.code[m.ip] == TKFUNC {
      CallAdvances(q, m);
    } else if q.code[m.ip] == TKRETURN {
      ReturnAdvances(q, m);
    } else {
      OtherAdvances(q, m);
    }
  }

  lemma CallWidth()
    ensures Width(TKFUNC) == 2
  {
  }

  lemma InstructionInside(code: seq<int>, pos: int)
    requires Instruction(code, pos)
    ensures 1 <= pos < |code|
  {
  }

  /** A step from an instruction leads to one, if a return finds the address of one in its frame; and a call saves
      such an address. */
  lemma StepStays(q: Image, m: Machine)
    requires ControlStays(q.code) && (forall a :: a in q.addrs ==> Instruction(q.code, a))
    requires Instruction(q.code, m.ip) && Step(q, m).Next?
    requires
      var ret := m.parmbase + RETURN_ADDR;
      q.code[m.ip] == TKRETURN ==> 0 <= ret < |m.stack| && m.stack[ret].Num? && Instruction(q.code, m.stack[ret].n)
    ensures Instruction(q.code, Step(q, m).m.ip)
    ensures q.code[m.ip] == TKFUNC ==>
              var m' := Step(q, m).m;
              var ret := |m'.stack| - 2 - q.code[m.ip + 1] + RETURN_ADDR;
              0 <= ret < |m'.stack| && m'.stack[ret].Num? && Instruction(q.code, m'.stack[ret].n)
  {
    hide Step, Instruction, Width;
    StepAdvances(q, m);
    CallWidth();
    assert StaysAt(q.code, m.ip);
    InstructionInside(q.code, m.ip + Width(q.code[m.ip]));
  }

  /** The instruction after a call. */
  lemma NextOfCall(code: seq<int>, pos: int)
    requires ControlStays(code) && Instruction(code, pos) && code[pos] == TKFUNC
    ensures Instruction(code, pos + 2)
  {
    hide Instruction, Width;
    CallWidth();
    InstructionInside(code, pos);
    assert StaysAt(code, pos);
  }
}
