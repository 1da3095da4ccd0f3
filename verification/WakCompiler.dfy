/** The one-pass code generator of wak: it appends to the zcode list and fills jump offsets in afterwards. */
module WakCompiler {
  import opened WakLanguage
  import opened WakMachine
  import opened WakCode

  /** The parts of a for loop head are simple statements. */
  predicate Shaped(s: Stmt) {
    match s
    case Seq(s1, s2) => Shaped(s1) && Shaped(s2)
    case If(_, s1) => Shaped(s1)
    case IfElse(_, s1, s2) => Shaped(s1) && Shaped(s2)
    case While(_, b) => Shaped(b)
    case DoWhile(b, _) => Shaped(b)
    case For(i, _, n, b) => Simple(i) && Simple(n) && Shaped(b)
    case _ => true
  }

  /** The number of break, continue and return statements in places where they are errors. */
  function Misplaced(s: Stmt, inLoop: bool, inFunc: bool): nat {
    match s
    case Seq(s1, s2) => Misplaced(s1, inLoop, inFunc) + Misplaced(s2, inLoop, inFunc)
    case If(_, s1) => Misplaced(s1, inLoop, inFunc)
    case IfElse(_, s1, s2) => Misplaced(s1, inLoop, inFunc) + Misplaced(s2, inLoop, inFunc)
    case While(_, b) => Misplaced(b, true, inFunc)
    case DoWhile(b, _) => Misplaced(b, true, inFunc)
    case For(_, _, _, b) => Misplaced(b, true, inFunc)
    case Break => if inLoop then 0 else 1
    case Continue => if inLoop then 0 else 1
    case Return(_) => if inFunc then 0 else 1
    case _ => 0
  }

  /** A compilation without such errors is one of a program that the correctness theorem is about. */
  lemma {:induction false} GoodIffNoError(sc: Scope, s: Stmt, inLoop: bool, inFunc: bool)
    ensures GoodStmt(sc, s, inLoop, inFunc) <==> GoodStmt(sc, s, true, true) && Misplaced(s, inLoop, inFunc) == 0
    ensures GoodStmt(sc, s, true, true) ==> Shaped(s)
  {
    match s
    case Seq(s1, s2) =>
      GoodIffNoError(sc, s1, inLoop, inFunc);
      GoodIffNoError(sc, s2, inLoop, inFunc);
    case If(_, s1) => GoodIffNoError(sc, s1, inLoop, inFunc);
    case IfElse(_, s1, s2) =>
      GoodIffNoError(sc, s1, inLoop, inFunc);
      GoodIffNoError(sc, s2, inLoop, inFunc);
    case While(_, b) => GoodIffNoError(sc, b, true, inFunc);
    case DoWhile(b, _) => GoodIffNoError(sc, b, true, inFunc);
    case For(i, _, n, b) =>
      GoodIffNoError(sc, b, true, inFunc);
    case _ =>
  }

  // ---------------------------------------------------------------- filling in jump offsets

  lemma Patched(z: seq<int>, c: seq<int>, op: int, c1: seq<int>, tail: seq<int>, v: int)
    ensures (z + c + [op, -1] + c1 + tail)[|z| + |c| + 1 := v] == z + (c + [op, v] + c1 + tail)
  {
  }

  lemma IfPatched(z: seq<int>, c: seq<int>, c1: seq<int>)
    ensures (z + c + [TKIF, -1] + c1)[|z| + |c| + 1 := |c1|] == z + IfWords(c, c1)
  {
  }

  lemma PatchedTwice(z: seq<int>, c: seq<int>, op: int, c1: seq<int>, op2: int, c2: seq<int>)
    ensures
      var z1 := (z + c + [op, -1] + c1 + [op2, -1])[|z| + |c| + 1 := |c1| + 2];
      (z1 + c2)[|z| + |c| + |c1| + 3 := |c2|] == z + ChoiceWords(c, op, c1, op2, c2)
  {
    var z1 := (z + c + [op, -1] + c1 + [op2, -1])[|z| + |c| + 1 := |c1| + 2];
    assert z1 == z + c + [op, |c1| + 2] + c1 + [op2, -1];
  }

  lemma WhilePatched(z: seq<int>, ct: seq<int>, cb: seq<int>)
    ensures
      var z0 := z + ct + [TKWHILE, 2] + [OPJUMP, -1] + cb + [OPJUMP, -1];
      z0[|z0| - 1 := -(|ct| + |cb| + 6)][|z| + |ct| + 3 := |cb| + 2] == z + WhileWords(ct, cb)
  {
    var z0 := z + ct + [TKWHILE, 2] + [OPJUMP, -1] + cb + [OPJUMP, -1];
    assert z0[|z0| - 1 := -(|ct| + |cb| + 6)]
        == z + ct + [TKWHILE, 2] + [OPJUMP, -1] + cb + [OPJUMP, -(|ct| + |cb| + 6)];
  }

  lemma DoPatched(z: seq<int>, cb: seq<int>, ct: seq<int>)
    ensures
      var z1 := (z + [OPJUMP, 4] + [OPJUMP, -1] + [OPJUMP, -1] + cb)[|z| + 3 := |cb| + 2];
      (z1 + ct + [TKWHILE, -(|cb| + |ct| + 2)])[|z| + 5 := |cb| + |ct| + 2] == z + DoWords(cb, ct)
  {
    var z1 := (z + [OPJUMP, 4] + [OPJUMP, -1] + [OPJUMP, -1] + cb)[|z| + 3 := |cb| + 2];
    assert z1 == z + [OPJUMP, 4] + [OPJUMP, |cb| + 2] + [OPJUMP, -1] + cb;
  }

  /** The condition of a for loop before its jump is known: cc is its code without the offset. */
  lemma CondPatched(z: seq<int>, cc: seq<int>, cn: seq<int>, v: int)
    requires |cc| > 0
    ensures
      var back := [OPJUMP, -(|cc| + 1 + |cn| + 4)];
      (z + (cc + [-1]) + [OPJUMP, -1] + cn + back)[|z| + |cc| := v] == z + (cc + [v]) + [OPJUMP, -1] + cn + back
  {
  }

  lemma BreakPatched(z: seq<int>, cc: seq<int>, cn: seq<int>, cb: seq<int>)
    ensures
      var z1 := z + cc + [OPJUMP, -1] + cn + [OPJUMP, -(|cc| + |cn| + 4)];
      (z1 + cb + [OPJUMP, -(|cn| + |cb| + 4)])[|z| + |cc| + 1 := |cn| + |cb| + 4] == z + ForWords(cc, cn, cb)
  {
  }

  lemma PatchedJump(z: seq<int>, op: int, c: seq<int>)
    ensures (z + [op, -1] + c)[|z| + 1 := |c|] == z + ([op, |c|] + c)
  {
  }

  lemma PatchedElse(z: seq<int>, c: seq<int>, op: int, c1: seq<int>, op2: int, c2: seq<int>)
    ensures (z + c + [op, -1] + c1)[|z| + |c| + 1 := |c1| + 2] + ([op2, |c2|] + c2)
            == z + ChoiceWords(c, op, c1, op2, c2)
  {
    assert (z + c + [op, -1] + c1)[|z| + |c| + 1 := |c1| + 2] == z + c + [op, |c1| + 2] + c1;
  }

  /** The words of a condition up to the offset. */
  function CondFront(c: OptExpr): (w: seq<int>)
    ensures |w| > 0
  {
    match c
    case NoExpr => [OPJUMP]
    case SomeExpr(e) => CodeE(e) + [TKWHILE]
  }

  lemma CondIs(c: OptExpr, v: int)
    ensures CodeCond(c, v) == CondFront(c) + [v]
  {
    hide CodeE;
  }

  lemma SimplePlace(s: Stmt, pos: int, d: Dests, nparms: nat)
    requires Simple(s)
    ensures CodeS(s, pos, d, nparms) == CodeS(s, 0, Dests(0, 0), 0)
  {
    hide CodeE;
  }

  lemma LoopIs(c: OptExpr, n: Stmt, b: Stmt, head: int, nparms: nat)
    requires Simple(n)
    ensures
      var cc, cn := CondFront(c), CodeS(n, 0, Dests(0, 0), 0);
      var brk := head + |cc| + 1;
      var cb := CodeS(b, brk + |cn| + 4, Dests(brk, brk + 2), nparms);
      CodeLoop(c, n, b, head, nparms) == ForWords(cc + [|cn| + 4], cn, cb)
  {
    hide CodeE, CodeS, ForWords, CodeCond;
    var brk := head + |CodeCond(c, 0)|;
    var cn := CodeS(n, brk + 2, Dests(0, 0), nparms);
    CondIs(c, 0);
    CondIs(c, |cn| + 4);
    SimplePlace(n, brk + 2, Dests(0, 0), nparms);
  }

  lemma SimpleFor(i: Stmt, c: OptExpr, n: Stmt, b: Stmt, pos: int, d: Dests, nparms: nat)
    requires Simple(i)
    ensures
      var ci := CodeS(i, 0, Dests(0, 0), 0);
      CodeS(For(i, c, n, b), pos, d, nparms) == ci + CodeLoop(c, n, b, pos + |ci|, nparms)
  {
    hide CodeE, CodeLoop;
    SimplePlace(i, pos, d, nparms);
  }

  class Compiler {
    var zcode: seq<int>
    var breakDest: int
    var continueDest: int
    var nparms: nat
    var inFunctionBody: bool
    var errors: nat

    /** The first word is a filler, so that no code is at 0. */
    constructor ()
      ensures zcode == [1] && breakDest == 0 && continueDest == 0 && nparms == 0 && !inFunctionBody && errors == 0
    {
      zcode, breakDest, continueDest, nparms, inFunctionBody, errors := [1], 0, 0, 0, false, 0;
    }

    method Gen2cd(op: int, n: int)
      modifies this`zcode
      ensures zcode == old(zcode) + [op, n]
    {
      zcode := zcode + [op];
      zcode := zcode + [n];
    }

    method Gencd(op: int)
      modifies this`zcode
      ensures zcode == old(zcode) + [op]
    {
      zcode := zcode + [op];
    }

    function Last(): int
      reads this`zcode
    {
      |zcode| - 1
    }

    // -------------------------------------------------------------- expressions

    method Expression(e: Expr)
      modifies this`zcode
      ensures zcode == old(zcode) + CodeE(e)
      decreases ExprSize(e), 1
    {
      match e
      case Literal(lit) => Gen2cd(TKNUMBER, lit);
      case Var(slot) => Gen2cd(TKVAR, slot);
      case Assign(slot, rhs) => Assignment(slot, rhs);
      case Not(e1) => Prefix(e1, TKNOT);
      case Negate(e1) => Prefix(e1, OPNEGATE);
      case Binary(op, l, r) => Arithmetic(l, r, Opcode(op));
      case And(l, r) => LogicalOp(l, TKAND, r);
      case Or(l, r) => LogicalOp(l, TKOR, r);
      case Cond(t, l, r) => Ternary(t, l, r);
      case Call(f, args) => FunctionCall(f, args);
    }

    method Prefix(e: Expr, op: int)
      modifies this`zcode
      ensures zcode == old(zcode) + (CodeE(e) + [op])
      decreases ExprSize(e), 2
    {
      hide CodeE;
      Expression(e);
      Gencd(op);
    }

    method Arithmetic(l: Expr, r: Expr, op: int)
      modifies this`zcode
      ensures zcode == old(zcode) + (CodeE(l) + CodeE(r) + [op])
      decreases ExprSize(l) + ExprSize(r), 2
    {
      hide CodeE;
      Expression(l);
      Expression(r);
      Gencd(op);
    }

    method FunctionCall(f: nat, args: Args)
      modifies this`zcode
      ensures zcode == old(zcode) + ([OPPREPCALL, f] + CodeArgs(args) + [TKFUNC, CountArgs(args)])
      decreases ArgsSize(args), 3
    {
      hide CodeArgs;
      Gen2cd(OPPREPCALL, f);
      var nargs := Arguments(args);
      Gen2cd(TKFUNC, nargs);
    }

    method Arguments(args: Args) returns (nargs: nat)
      modifies this`zcode
      ensures zcode == old(zcode) + CodeArgs(args) && nargs == CountArgs(args)
      decreases ArgsSize(args), 2
    {
      hide CodeE;
      nargs := 0;
      if args.MoreArgs? {
        Expression(args.first);
        nargs := Arguments(args.rest);
        nargs := nargs + 1;
      }
    }

    /** The variable is first pushed; the push becomes a reference when the = is seen. */
    method Assignment(slot: int, rhs: Expr)
      modifies this`zcode
      ensures zcode == old(zcode) + ([OPVARREF, slot] + CodeE(rhs) + [TKASGN])
      decreases ExprSize(rhs), 2
    {
      hide CodeE;
      ghost var z := zcode;
      Gen2cd(TKVAR, slot);
      if zcode[Last() - 1] == TKVAR {
        zcode := zcode[Last() - 1 := OPVARREF];
      }
      assert zcode == z + [OPVARREF, slot];
      Expression(rhs);
      Gencd(TKASGN);
    }

    /** && and ||: the jump offset is known after the right operand. */
    method LogicalOp(l: Expr, op: int, r: Expr)
      modifies this`zcode
      ensures zcode == old(zcode) + LogicalWords(op, CodeE(l), CodeE(r))
      decreases ExprSize(l) + ExprSize(r), 2
    {
      hide CodeE;
      ghost var z := zcode;
      Expression(l);
      Gen2cd(op, -1);
      var cdx := Last();
      Expression(r);
      Gencd(OPNOTNOT);
      Patched(z, CodeE(l), op, CodeE(r), [OPNOTNOT], |CodeE(r)| + 1);
      zcode := zcode[cdx := Last() - cdx];
    }

    method Ternary(t: Expr, l: Expr, r: Expr)
      modifies this`zcode
      ensures zcode == old(zcode) + ChoiceWords(CodeE(t), TKTERNIF, CodeE(l), TKTERNELSE, CodeE(r))
      decreases ExprSize(t) + ExprSize(l) + ExprSize(r), 2
    {
      hide CodeE, ChoiceWords;
      ghost var z := zcode;
      Expression(t);
      Gen2cd(TKTERNIF, -1);
      var cdx := Last();
      Expression(l);
      Gen2cd(TKTERNELSE, -1);
      zcode := zcode[cdx := Last() - cdx];
      cdx := Last();
      Expression(r);
      PatchedTwice(z, CodeE(t), TKTERNIF, CodeE(l), TKTERNELSE, CodeE(r));
      zcode := zcode[cdx := Last() - cdx];
    }

    // -------------------------------------------------------------- statements

    function Here(): Dests
      reads this`breakDest, this`continueDest
    {
      Dests(breakDest, continueDest)
    }

    method Statement(s: Stmt)
      requires Shaped(s) && |zcode| > 0 && (breakDest == 0 <==> continueDest == 0)
      modifies this
      ensures zcode == old(zcode) + CodeS(s, |old(zcode)|, old(Here()), nparms)
      ensures Here() == old(Here()) && nparms == old(nparms) && inFunctionBody == old(inFunctionBody)
      ensures errors == old(errors) + Misplaced(s, old(breakDest) != 0, inFunctionBody)
      decreases StmtSize(s), 1
    {
      hide CodeE, CodeLoop, IfWords, ChoiceWords, WhileWords, DoWords;
      match s
      case Skip =>
      case ExprStmt(e) => SimpleStmt(s);
      case Print(e) => SimpleStmt(s);
      case Break => JumpOut(s);
      case Continue => JumpOut(s);
      case Return(e) => ReturnStmt(e);
      case _ => Compound(s);
    }

    method Compound(s: Stmt)
      requires s.Seq? || s.If? || s.IfElse? || s.While? || s.DoWhile? || s.For?
      requires Shaped(s) && |zcode| > 0 && (breakDest == 0 <==> continueDest == 0)
      modifies this
      ensures zcode == old(zcode) + CodeS(s, |old(zcode)|, old(Here()), nparms)
      ensures Here() == old(Here()) && nparms == old(nparms) && inFunctionBody == old(inFunctionBody)
      ensures errors == old(errors) + Misplaced(s, old(breakDest) != 0, inFunctionBody)
      decreases StmtSize(s), 0
    {
      hide CodeE, CodeLoop, IfWords, ChoiceWords, WhileWords, DoWords;
      match s
      case Seq(s1, s2) => Sequence(s1, s2);
      case If(t, s1) => IfStmt(t, s1);
      case IfElse(t, s1, s2) => IfElseStmt(t, s1, s2);
      case While(t, b) => WhileStmt(t, b);
      case DoWhile(b, t) => DoStmt(b, t);
      case For(i, c, n, b) => ForStmt(i, c, n, b);
    }

    /** Break and continue lead to the jump words of the loop; outside loops they are errors. */
    method JumpOut(s: Stmt)
      requires (s.Break? || s.Continue?) && |zcode| > 0 && (breakDest == 0 <==> continueDest == 0)
      modifies this`zcode, this`errors
      ensures zcode == old(zcode) + CodeS(s, |old(zcode)|, Here(), nparms)
      ensures errors == old(errors) + Misplaced(s, breakDest != 0, inFunctionBody)
    {
      var dest := if s.Break? then breakDest else continueDest;
      if dest != 0 {
        Gen2cd(if s.Break? then TKBREAK else TKCONTINUE, dest - Last() - 3);
      } else {
        errors := errors + 1;
      }
    }

    method ReturnStmt(e: Expr)
      modifies this`zcode, this`errors
      ensures zcode == old(zcode) + (CodeE(e) + [TKRETURN, nparms])
      ensures errors == old(errors) + if inFunctionBody then 0 else 1
    {
      hide CodeE;
      Expression(e);
      Gen2cd(TKRETURN, nparms);
      if !inFunctionBody {
        errors := errors + 1;
      }
    }

    method SimpleStmt(s: Stmt)
      requires Simple(s)
      modifies this`zcode
      ensures zcode == old(zcode) + CodeS(s, 0, Dests(0, 0), 0)
    {
      hide CodeE;
      match s
      case Skip =>
      case ExprStmt(e) =>
        Expression(e);
        Gencd(OPDROP);
      case Print(e) =>
        Expression(e);
        Gen2cd(TKPRINT, 1);
        Gencd(0);
    }

    method Sequence(s1: Stmt, s2: Stmt)
      requires Shaped(s1) && Shaped(s2) && |zcode| > 0 && (breakDest == 0 <==> continueDest == 0)
      modifies this
      ensures
        var pos := |old(zcode)|;
        var c1 := CodeS(s1, pos, old(Here()), nparms);
        zcode == old(zcode) + (c1 + CodeS(s2, pos + |c1|, old(Here()), nparms))
      ensures Here() == old(Here()) && nparms == old(nparms) && inFunctionBody == old(inFunctionBody)
      ensures errors
              == old(errors) + (Misplaced(s1, old(breakDest) != 0, inFunctionBody)
                                + Misplaced(s2, old(breakDest) != 0, inFunctionBody))
      decreases StmtSize(s1) + StmtSize(s2), 2
    {
      hide CodeS, Misplaced, Shaped;
      Statement(s1);
      Statement(s2);
    }

    method IfStmt(t: Expr, s1: Stmt)
      requires Shaped(s1) && |zcode| > 0 && (breakDest == 0 <==> continueDest == 0)
      modifies this
      ensures
        var pos := |old(zcode)|;
        zcode == old(zcode) + IfWords(CodeE(t), CodeS(s1, pos + |CodeE(t)| + 2, old(Here()), nparms))
      ensures Here() == old(Here()) && nparms == old(nparms) && inFunctionBody == old(inFunctionBody)
      ensures errors == old(errors) + Misplaced(s1, old(breakDest) != 0, inFunctionBody)
      decreases StmtSize(s1), 2
    {
      hide CodeE, CodeS, Misplaced, Shaped, StmtSize, IfWords;
      ghost var z, pos, c := zcode, |zcode|, CodeE(t);
      Expression(t);
      Gen2cd(TKIF, -1);
      var cdx := Last();
      Statement(s1);
      ghost var c1 := CodeS(s1, pos + |c| + 2, Here(), nparms);
      IfPatched(z, c, c1);
      zcode := zcode[cdx := Last() - cdx];
    }

    method IfElseStmt(t: Expr, s1: Stmt, s2: Stmt)
      requires Shaped(s1) && Shaped(s2) && |zcode| > 0 && (breakDest == 0 <==> continueDest == 0)
      modifies this
      ensures
        var pos := |old(zcode)|;
        var c1 := CodeS(s1, pos + |CodeE(t)| + 2, old(Here()), nparms);
        zcode
        == old(zcode) + ChoiceWords(CodeE(t), TKIF, c1, TKELSE,
                                     CodeS(s2, pos + |CodeE(t)| + 2 + |c1| + 2, old(Here()), nparms))
      ensures Here() == old(Here()) && nparms == old(nparms) && inFunctionBody == old(inFunctionBody)
      ensures errors == old(errors) + (Misplaced(s1, old(breakDest) != 0, inFunctionBody)
                                        + Misplaced(s2, old(breakDest) != 0, inFunctionBody))
      decreases StmtSize(s1) + StmtSize(s2), 2
    {
      hide CodeE, CodeS, Misplaced, Shaped, ChoiceWords;
      ghost var z, pos, c := zcode, |zcode|, CodeE(t);
      Expression(t);
      Gen2cd(TKIF, -1);
      var cdx := Last();
      Statement(s1);
      ghost var c1 := CodeS(s1, pos + |c| + 2, Here(), nparms);
      ghost var c2 := CodeS(s2, |zcode| + 2, Here(), nparms);
      ElsePart(cdx, s2);
      PatchedElse(z, c, TKIF, c1, TKELSE, c2);
    }

    /** From the word after the first alternative on, with cdx the offset to be filled in. */
    method ElsePart(cdx: int, s2: Stmt)
      requires 0 <= cdx < |zcode| && Shaped(s2) && |zcode| > 0 && (breakDest == 0 <==> continueDest == 0)
      modifies this
      ensures
        var z := old(zcode);
        var c2 := CodeS(s2, |z| + 2, old(Here()), nparms);
        zcode == z[cdx := |z| + 1 - cdx] + ([TKELSE, |c2|] + c2)
      ensures Here() == old(Here()) && nparms == old(nparms) && inFunctionBody == old(inFunctionBody)
      ensures errors == old(errors) + Misplaced(s2, old(breakDest) != 0, inFunctionBody)
      decreases StmtSize(s2), 2
    {
      hide CodeS, Misplaced, Shaped, StmtSize;
      ghost var z := zcode;
      Gen2cd(TKELSE, -1);
      zcode := zcode[cdx := Last() - cdx];
      ghost var z1 := z[cdx := |z| + 1 - cdx];
      assert zcode == z1 + [TKELSE, -1];
      var cdx2 := Last();
      Statement(s2);
      ghost var c2 := CodeS(s2, |z| + 2, Here(), nparms);
      PatchedJump(z1, TKELSE, c2);
      zcode := zcode[cdx2 := Last() - cdx2];
    }

    method WhileStmt(t: Expr, b: Stmt)
      requires Shaped(b) && |zcode| > 0 && (breakDest == 0 <==> continueDest == 0)
      modifies this
      ensures
        var pos, c := |old(zcode)|, |CodeE(t)|;
        zcode == old(zcode) + WhileWords(CodeE(t), CodeS(b, pos + c + 4, Dests(pos + c + 2, pos), nparms))
      ensures Here() == old(Here()) && nparms == old(nparms) && inFunctionBody == old(inFunctionBody)
      ensures errors == old(errors) + Misplaced(b, true, inFunctionBody)
      decreases StmtSize(b), 2
    {
      hide CodeE, CodeS, Misplaced, Shaped, StmtSize, WhileWords;
      ghost var z, pos, c := zcode, |zcode|, CodeE(t);
      var brk, cont := breakDest, continueDest;
      continueDest := Last() + 1;
      Expression(t);
      Gen2cd(TKWHILE, 2);
      breakDest := Last() + 1;
      Gen2cd(OPJUMP, -1);
      Statement(b);
      ghost var cb := CodeS(b, pos + |c| + 4, Dests(pos + |c| + 2, pos), nparms);
      Gen2cd(OPJUMP, -1);
      WhilePatched(z, c, cb);
      zcode := zcode[Last() := continueDest - Last() - 1];
      zcode := zcode[breakDest + 1 := Last() - breakDest - 1];
      breakDest, continueDest := brk, cont;
    }

    method DoStmt(b: Stmt, t: Expr)
      requires Shaped(b) && |zcode| > 0 && (breakDest == 0 <==> continueDest == 0)
      modifies this
      ensures
        var pos := |old(zcode)|;
        zcode == old(zcode) + DoWords(CodeS(b, pos + 6, Dests(pos + 4, pos + 2), nparms), CodeE(t))
      ensures Here() == old(Here()) && nparms == old(nparms) && inFunctionBody == old(inFunctionBody)
      ensures errors == old(errors) + Misplaced(b, true, inFunctionBody)
      decreases StmtSize(b), 2
    {
      hide CodeE, CodeS, Misplaced, Shaped, StmtSize, DoWords;
      ghost var z, pos, c := zcode, |zcode|, CodeE(t);
      var brk, cont := breakDest, continueDest;
      Gen2cd(OPJUMP, 4);
      continueDest := Last() + 1;
      Gen2cd(OPJUMP, -1);
      breakDest := Last() + 1;
      Gen2cd(OPJUMP, -1);
      Statement(b);
      ghost var cb := CodeS(b, pos + 6, Dests(pos + 4, pos + 2), nparms);
      zcode := zcode[continueDest + 1 := Last() - continueDest - 1];
      Expression(t);
      Gen2cd(TKWHILE, breakDest - Last() - 1);
      DoPatched(z, cb, c);
      zcode := zcode[breakDest + 1 := Last() - breakDest - 1];
      breakDest, continueDest := brk, cont;
    }

    method ForStmt(i: Stmt, c: OptExpr, n: Stmt, b: Stmt)
      requires Simple(i) && Simple(n) && Shaped(b) && |zcode| > 0 && (breakDest == 0 <==> continueDest == 0)
      modifies this
      ensures zcode == old(zcode) + CodeS(For(i, c, n, b), |old(zcode)|, old(Here()), nparms)
      ensures Here() == old(Here()) && nparms == old(nparms) && inFunctionBody == old(inFunctionBody)
      ensures errors == old(errors) + Misplaced(b, true, inFunctionBody)
      decreases StmtSize(b), 4
    {
      hide CodeE, CodeS, CodeLoop, Misplaced, Shaped, StmtSize;
      ghost var z := zcode;
      var brk, cont := breakDest, continueDest;
      SimpleStmt(i);
      ForNotMapIter(c, n, b);
      SimpleFor(i, c, n, b, |z|, Dests(brk, cont), nparms);
      breakDest, continueDest := brk, cont;
    }

    method ForCondition(c: OptExpr)
      modifies this`zcode
      ensures zcode == old(zcode) + (CondFront(c) + [-1])
    {
      hide CodeE;
      match c
      case NoExpr => Gen2cd(OPJUMP, -1);
      case SomeExpr(e) =>
        Expression(e);
        Gen2cd(TKWHILE, -1);
    }

    /** Condition, break jump and increment; the condition leads to the body, which comes next. */
    method ForParts(c: OptExpr, n: Stmt)
      requires Simple(n)
      modifies this`zcode, this`breakDest, this`continueDest
      ensures
        var cc, cn := CondFront(c), CodeS(n, 0, Dests(0, 0), 0);
        && zcode
           == old(zcode) + (cc + [|cn| + 4]) + [OPJUMP, -1] + cn + [OPJUMP, -(|cc| + 1 + |cn| + 4)]
        && breakDest == |old(zcode)| + |cc| + 1 && continueDest == breakDest + 2
    {
      hide CodeE, CodeS, CondFront;
      ghost var z := zcode;
      var conditionLoc := Last() + 1;
      ForCondition(c);
      breakDest := Last() + 1;
      Gen2cd(OPJUMP, -1);
      continueDest := Last() + 1;
      SimpleStmt(n);
      ghost var cn := CodeS(n, 0, Dests(0, 0), 0);
      Gen2cd(OPJUMP, conditionLoc - Last() - 3);
      CondPatched(z, CondFront(c), cn, |cn| + 4);
      zcode := zcode[breakDest - 1 := Last() - breakDest + 1];
    }

    method ForNotMapIter(c: OptExpr, n: Stmt, b: Stmt)
      requires Simple(n) && Shaped(b) && |zcode| > 0
      modifies this
      ensures zcode == old(zcode) + CodeLoop(c, n, b, |old(zcode)|, nparms)
      ensures nparms == old(nparms) && inFunctionBody == old(inFunctionBody)
      ensures errors == old(errors) + Misplaced(b, true, inFunctionBody)
      decreases StmtSize(b), 3
    {
      hide CodeE, CodeS, CodeLoop, CondFront, ForWords, Misplaced, Shaped, StmtSize;
      ghost var z, cn := zcode, CodeS(n, 0, Dests(0, 0), 0);
      ForParts(c, n);
      ghost var cb := CodeS(b, |zcode|, Here(), nparms);
      Statement(b);
      Gen2cd(OPJUMP, continueDest - Last() - 3);
      BreakPatched(z, CondFront(c) + [|cn| + 4], cn, cb);
      zcode := zcode[breakDest + 1 := Last() - breakDest - 1];
      LoopIs(c, n, b, |z|, nparms);
    }

    /** A function definition: its address is where its code starts. */
    method FunctionDef(f: nat, fn: Func, uninit: nat) returns (addr: int)
      requires Shaped(fn.body) && |zcode| > 0 && breakDest == 0 && continueDest == 0 && !inFunctionBody
      modifies this
      ensures addr == |old(zcode)| && zcode == old(zcode) + CodeF(f, fn, addr, uninit)
      ensures Here() == old(Here()) && !inFunctionBody
      ensures errors == old(errors) + Misplaced(fn.body, false, true)
    {
      hide CodeE, CodeS, Misplaced, Shaped;
      Gen2cd(TKFUNCTION, f);
      addr := Last() - 1;
      nparms := fn.nparms;
      inFunctionBody := true;
      Statement(fn.body);
      inFunctionBody := false;
      Gen2cd(TKNUMBER, uninit);
      Gen2cd(TKRETURN, nparms);
    }
  }
}
