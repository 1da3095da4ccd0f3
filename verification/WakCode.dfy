/** The zcode of expressions and statements, as a function of the syntax tree.

    All jumps are relative. Only break and continue depend on where the code stands: they lead to the
    jump words of the enclosing loop, whose positions are passed down (0 outside loops). */
module WakCode {
  import opened WakLanguage
  import opened WakMachine

  // The words of compound constructs, around the words of their parts.

  function LogicalWords(op: int, cl: seq<int>, cr: seq<int>): (c: seq<int>)
    ensures |c| > 0
  {
    cl + [op, |cr| + 1] + cr + [OPNOTNOT]
  }

  /** if else and ?:. */
  function ChoiceWords(ct: seq<int>, op: int, c1: seq<int>, op2: int, c2: seq<int>): (c: seq<int>)
    ensures |c| > 0
  {
    ct + [op, |c1| + 2] + c1 + [op2, |c2|] + c2
  }

  function IfWords(ct: seq<int>, c1: seq<int>): seq<int> {
    ct + [TKIF, |c1|] + c1
  }

  function WhileWords(ct: seq<int>, cb: seq<int>): seq<int> {
    ct + [TKWHILE, 2] + [OPJUMP, |cb| + 2] + cb + [OPJUMP, -(|ct| + |cb| + 6)]
  }

  function DoWords(cb: seq<int>, ct: seq<int>): seq<int> {
    [OPJUMP, 4] + [OPJUMP, |cb| + 2] + [OPJUMP, |cb| + |ct| + 2] + cb + ct + [TKWHILE, -(|cb| + |ct| + 2)]
  }

  /** The condition is given with its jump over the break and increment parts. */
  function ForWords(cc: seq<int>, cn: seq<int>, cb: seq<int>): seq<int> {
    cc + [OPJUMP, |cn| + |cb| + 4] + cn + [OPJUMP, -(|cc| + |cn| + 4)] + cb + [OPJUMP, -(|cn| + |cb| + 4)]
  }

  function CodeE(e: Expr): (c: seq<int>)
    ensures |c| > 0
  {
    match e
    case Literal(lit) => [TKNUMBER, lit]
    case Var(slot) => [TKVAR, slot]
    case Assign(slot, rhs) => [OPVARREF, slot] + CodeE(rhs) + [TKASGN]
    case Not(e1) => CodeE(e1) + [TKNOT]
    case Negate(e1) => CodeE(e1) + [OPNEGATE]
    case Binary(op, l, r) => CodeE(l) + CodeE(r) + [Opcode(op)]
    case And(l, r) => LogicalWords(TKAND, CodeE(l), CodeE(r))
    case Or(l, r) => LogicalWords(TKOR, CodeE(l), CodeE(r))
    case Cond(t, l, r) => ChoiceWords(CodeE(t), TKTERNIF, CodeE(l), TKTERNELSE, CodeE(r))
    case Call(f, args) => [OPPREPCALL, f] + CodeArgs(args) + [TKFUNC, CountArgs(args)]
  }

  function CodeArgs(args: Args): seq<int> {
    if args.NoArgs? then [] else CodeE(args.first) + CodeArgs(args.rest)
  }

  function CountArgs(args: Args): nat {
    if args.NoArgs? then 0 else 1 + CountArgs(args.rest)
  }

  /** The positions of the break and continue jumps of the enclosing loop. */
  datatype Dests = Dests(brk: int, cont: int)

  /** The condition of a for loop, with the jump over the break and increment parts. */
  function CodeCond(c: OptExpr, skip: int): seq<int> {
    match c
    case NoExpr => [OPJUMP, skip]
    case SomeExpr(e) => CodeE(e) + [TKWHILE, skip]
  }

  function CodeS(s: Stmt, pos: int, d: Dests, nparms: nat): (c: seq<int>)
    decreases StmtSize(s)
  {
    match s
    case Skip => []
    case ExprStmt(e) => CodeE(e) + [OPDROP]
    case Print(e) => CodeE(e) + [TKPRINT, 1, 0]
    case Seq(s1, s2) =>
      var c1 := CodeS(s1, pos, d, nparms);
      c1 + CodeS(s2, pos + |c1|, d, nparms)
    case If(t, s1) => IfWords(CodeE(t), CodeS(s1, pos + |CodeE(t)| + 2, d, nparms))
    case IfElse(t, s1, s2) =>
      var c1 := CodeS(s1, pos + |CodeE(t)| + 2, d, nparms);
      ChoiceWords(CodeE(t), TKIF, c1, TKELSE, CodeS(s2, pos + |CodeE(t)| + 2 + |c1| + 2, d, nparms))
    case While(t, b) =>
      var c := |CodeE(t)|;
      WhileWords(CodeE(t), CodeS(b, pos + c + 4, Dests(pos + c + 2, pos), nparms))
    case DoWhile(b, t) => DoWords(CodeS(b, pos + 6, Dests(pos + 4, pos + 2), nparms), CodeE(t))
    case For(i, c, n, b) =>
      var ci := CodeS(i, pos, d, nparms);
      ci + CodeLoop(c, n, b, pos + |ci|, nparms)
    case Break => if d.brk != 0 then [TKBREAK, d.brk - pos - 2] else []
    case Continue => if d.cont != 0 then [TKCONTINUE, d.cont - pos - 2] else []
    case Return(e) => CodeE(e) + [TKRETURN, nparms]
  }

  /** A for loop after its initialization: the jump words of the loop follow its condition. */
  function CodeLoop(c: OptExpr, n: Stmt, b: Stmt, head: int, nparms: nat): seq<int>
    decreases StmtSize(n) + StmtSize(b) + 1
  {
    var brk := head + |CodeCond(c, 0)|;
    var cn := CodeS(n, brk + 2, Dests(0, 0), nparms);
    var cb := CodeS(b, brk + |cn| + 4, Dests(brk, brk + 2), nparms);
    ForWords(CodeCond(c, |cn| + 4), cn, cb)
  }

  /** A function body is closed by a return of the uninitialized value, which is literal `uninit`. */
  function CodeF(f: nat, fn: Func, pos: int, uninit: nat): seq<int> {
    [TKFUNCTION, f] + CodeS(fn.body, pos + 2, Dests(0, 0), fn.nparms) + [TKNUMBER, uninit] + [TKRETURN, fn.nparms]
  }

  lemma CodeOfSeq(s1: Stmt, s2: Stmt, pos: int, d: Dests, nparms: nat)
    ensures
      var c1 := CodeS(s1, pos, d, nparms);
      CodeS(Seq(s1, s2), pos, d, nparms) == c1 + CodeS(s2, pos + |c1|, d, nparms)
  {
    hide CodeE, CodeLoop, IfWords, ChoiceWords, WhileWords, DoWords;
  }

  lemma CodeOfSkip(pos: int, d: Dests, nparms: nat)
    ensures CodeS(Skip, pos, d, nparms) == []
  {
  }

  lemma CodeOfWhile(s: Stmt, pos: int, d: Dests, nparms: nat)
    requires s.While?
    ensures
      var c := |CodeE(s.test)|;
      CodeS(s, pos, d, nparms)
      == WhileWords(CodeE(s.test), CodeS(s.body, pos + c + 4, Dests(pos + c + 2, pos), nparms))
  {
    hide CodeE, CodeLoop, IfWords, ChoiceWords, WhileWords, DoWords;
  }

  lemma CodeOfLogical(l: Expr, r: Expr)
    ensures CodeE(And(l, r)) == CodeE(l) + [TKAND, |CodeE(r)| + 1] + CodeE(r) + [OPNOTNOT]
    ensures CodeE(Or(l, r)) == CodeE(l) + [TKOR, |CodeE(r)| + 1] + CodeE(r) + [OPNOTNOT]
  {
  }

  lemma CodeOfCond(t: Expr, l: Expr, r: Expr)
    ensures CodeE(Cond(t, l, r)) == ChoiceWords(CodeE(t), TKTERNIF, CodeE(l), TKTERNELSE, CodeE(r))
  {
    hide ChoiceWords;
  }

  lemma CodeOfIf(t: Expr, s1: Stmt, pos: int, d: Dests, nparms: nat)
    ensures CodeS(If(t, s1), pos, d, nparms) == IfWords(CodeE(t), CodeS(s1, pos + |CodeE(t)| + 2, d, nparms))
  {
    hide CodeE, CodeLoop, IfWords, ChoiceWords, WhileWords, DoWords;
  }

  lemma CodeOfIfElse(t: Expr, s1: Stmt, s2: Stmt, pos: int, d: Dests, nparms: nat)
    ensures
      var c1 := CodeS(s1, pos + |CodeE(t)| + 2, d, nparms);
      CodeS(IfElse(t, s1, s2), pos, d, nparms)
      == ChoiceWords(CodeE(t), TKIF, c1, TKELSE, CodeS(s2, pos + |CodeE(t)| + 2 + |c1| + 2, d, nparms))
  {
    hide CodeE, CodeLoop, IfWords, ChoiceWords, WhileWords, DoWords;
  }

  // ---------------------------------------------------------------- code in place

  ghost predicate Has(code: seq<int>, pos: int, c: seq<int>) {
    0 <= pos && pos + |c| <= |code| && code[pos..pos + |c|] == c
  }

  lemma HasSplit(code: seq<int>, pos: int, a: seq<int>, b: seq<int>)
    requires Has(code, pos, a + b)
    ensures Has(code, pos, a) && Has(code, pos + |a|, b)
  {
    var c := code[pos..pos + |a + b|];
    assert code[pos..pos + |a|] == c[..|a|] == (a + b)[..|a|];
    assert code[pos + |a|..pos + |a| + |b|] == c[|a|..] == (a + b)[|a|..];
  }

  lemma Has1(code: seq<int>, pos: int, x: int)
    requires Has(code, pos, [x])
    ensures 0 <= pos < |code| && code[pos] == x
  {
    assert code[pos..pos + 1][0] == x;
  }

  lemma Has2(code: seq<int>, pos: int, x: int, y: int)
    requires Has(code, pos, [x, y])
    ensures 0 <= pos && pos + 1 < |code| && code[pos] == x && code[pos + 1] == y
  {
    assert code[pos..pos + 2][0] == x && code[pos..pos + 2][1] == y;
  }

  lemma Has3(code: seq<int>, pos: int, x: int, y: int, z: int)
    requires Has(code, pos, [x, y, z])
    ensures 0 <= pos && pos + 2 < |code| && code[pos] == x && code[pos + 1] == y && code[pos + 2] == z
  {
    assert code[pos..pos + 3][0] == x && code[pos..pos + 3][1] == y && code[pos..pos + 3][2] == z;
  }
}
