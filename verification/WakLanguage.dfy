/** The part of the awk language that wak compiles with jumps and calls, and its structured semantics.

    Values are numbers. Evaluation is counted in fuel: every loop iteration and every function call
    costs one unit, and a run that needs more than it was given times out. */
module WakLanguage {
  import opened CTypes

  datatype BinaryOp = Plus | Minus | Mul | Lt | Le | Ne | Eq | Gt | Ge

  /** Literals are indexes into the literal table. Positive slots are globals, negative ones parameters. */
  datatype Expr =
    | Literal(lit: nat)
    | Var(slot: int)
    | Assign(slot: int, rhs: Expr)
    | Not(e: Expr)
    | Negate(e: Expr)
    | Binary(op: BinaryOp, l: Expr, r: Expr)
    | And(l: Expr, r: Expr)
    | Or(l: Expr, r: Expr)
    | Cond(test: Expr, l: Expr, r: Expr)
    | Call(f: nat, args: Args)

  datatype Args = NoArgs | MoreArgs(first: Expr, rest: Args)

  datatype OptExpr = NoExpr | SomeExpr(e: Expr)

  datatype Stmt =
    | Skip
    | ExprStmt(e: Expr)
    | Print(e: Expr)
    | Seq(s1: Stmt, s2: Stmt)
    | If(test: Expr, thn: Stmt)
    | IfElse(test: Expr, thn: Stmt, els: Stmt)
    | While(test: Expr, body: Stmt)
    | DoWhile(body: Stmt, test: Expr)
    | For(init: Stmt, cond: OptExpr, incr: Stmt, body: Stmt)
    | Break
    | Continue
    | Return(e: Expr)

  datatype Func = Func(nparms: nat, body: Stmt)

  datatype Program = Program(literals: seq<int>, funcs: seq<Func>)

  // ---------------------------------------------------------------- scoping rules

  /** Where an expression stands: the number of globals, literals and functions, and of parameters. */
  datatype Scope = Scope(globals: nat, literals: nat, funcs: nat, nparms: nat)

  predicate GoodSlot(sc: Scope, slot: int) {
    0 < slot < sc.globals || (slot < 0 && -slot <= sc.nparms)
  }

  predicate GoodExpr(sc: Scope, e: Expr) {
    match e
    case Literal(lit) => lit < sc.literals
    case Var(slot) => GoodSlot(sc, slot)
    case Assign(slot, rhs) => GoodSlot(sc, slot) && GoodExpr(sc, rhs)
    case Not(e1) => GoodExpr(sc, e1)
    case Negate(e1) => GoodExpr(sc, e1)
    case Binary(_, l, r) => GoodExpr(sc, l) && GoodExpr(sc, r)
    case And(l, r) => GoodExpr(sc, l) && GoodExpr(sc, r)
    case Or(l, r) => GoodExpr(sc, l) && GoodExpr(sc, r)
    case Cond(t, l, r) => GoodExpr(sc, t) && GoodExpr(sc, l) && GoodExpr(sc, r)
    case Call(f, args) => f < sc.funcs && GoodArgs(sc, args)
  }

  predicate GoodArgs(sc: Scope, args: Args) {
    args.MoreArgs? ==> GoodExpr(sc, args.first) && GoodArgs(sc, args.rest)
  }

  /** What may stand in the first and third place of a for loop. */
  predicate Simple(s: Stmt) {
    s.Skip? || s.ExprStmt? || s.Print?
  }

  /** break and continue stand in loops, return in functions. */
  predicate GoodStmt(sc: Scope, s: Stmt, inLoop: bool, inFunc: bool) {
    match s
    case Skip => true
    case ExprStmt(e) => GoodExpr(sc, e)
    case Print(e) => GoodExpr(sc, e)
    case Seq(s1, s2) => GoodStmt(sc, s1, inLoop, inFunc) && GoodStmt(sc, s2, inLoop, inFunc)
    case If(t, s1) => GoodExpr(sc, t) && GoodStmt(sc, s1, inLoop, inFunc)
    case IfElse(t, s1, s2) => GoodExpr(sc, t) && GoodStmt(sc, s1, inLoop, inFunc) && GoodStmt(sc, s2, inLoop, inFunc)
    case While(t, b) => GoodExpr(sc, t) && GoodStmt(sc, b, true, inFunc)
    case DoWhile(b, t) => GoodExpr(sc, t) && GoodStmt(sc, b, true, inFunc)
    case For(i, c, n, b) =>
      && Simple(i) && Simple(n) && GoodStmt(sc, i, false, inFunc) && GoodStmt(sc, n, false, inFunc)
      && (c.SomeExpr? ==> GoodExpr(sc, c.e)) && GoodStmt(sc, b, true, inFunc)
    case Break => inLoop
    case Continue => inLoop
    case Return(e) => inFunc && GoodExpr(sc, e)
  }

  function ScopeOf(p: Program, globals: nat, nparms: nat): Scope {
    Scope(globals, |p.literals|, |p.funcs|, nparms)
  }

  predicate GoodProgram(p: Program, globals: nat) {
    forall f :: 0 <= f < |p.funcs| ==>
      GoodStmt(ScopeOf(p, globals, p.funcs[f].nparms), p.funcs[f].body, false, true)
  }

  // ---------------------------------------------------------------- semantics

  datatype State = State(globals: seq<int>, locals: seq<int>, out: seq<int>)

  predicate GoodState(sc: Scope, st: State) {
    |st.globals| == sc.globals && |st.locals| == sc.nparms
  }

  datatype Outcome = Normal | Broke | Continued | Returned(v: int)

  datatype EvalResult = Timeout | Val(v: int, st: State, fuel: nat)

  datatype ArgsResult = ArgsTimeout | Vals(vs: seq<int>, st: State, fuel: nat)

  datatype ExecResult = ExecTimeout | Exec(o: Outcome, st: State, fuel: nat)

  function Get(st: State, slot: int): int {
    if slot < 0 then if -slot <= |st.locals| then st.locals[-slot - 1] else 0
    else if slot < |st.globals| then st.globals[slot] else 0
  }

  function Set(st: State, slot: int, v: int): State {
    if slot < 0 then if -slot <= |st.locals| then st.(locals := st.locals[-slot - 1 := v]) else st
    else if slot < |st.globals| then st.(globals := st.globals[slot := v]) else st
  }

  function Apply(op: BinaryOp, a: int, b: int): int {
    match op
    case Plus => a + b
    case Minus => a - b
    case Mul => a * b
    case Lt => Truth(a < b)
    case Le => Truth(a <= b)
    case Ne => Truth(a != b)
    case Eq => Truth(a == b)
    case Gt => Truth(a > b)
    case Ge => Truth(a >= b)
  }

  /** Arguments become parameters: extra ones are dropped, missing ones are uninitialized. */
  function Bind(vs: seq<int>, nparms: nat): (ls: seq<int>)
    ensures |ls| == nparms
  {
    if |vs| >= nparms then vs[..nparms] else vs + seq(nparms - |vs|, _ => 0)
  }

  /** Sizes, as termination measures. */
  function ExprSize(e: Expr): (n: nat)
    ensures n >= 1
  {
    match e
    case Literal(_) => 1
    case Var(_) => 1
    case Assign(_, rhs) => 1 + ExprSize(rhs)
    case Not(e1) => 1 + ExprSize(e1)
    case Negate(e1) => 1 + ExprSize(e1)
    case Binary(_, l, r) => 1 + ExprSize(l) + ExprSize(r)
    case And(l, r) => 1 + ExprSize(l) + ExprSize(r)
    case Or(l, r) => 1 + ExprSize(l) + ExprSize(r)
    case Cond(t, l, r) => 1 + ExprSize(t) + ExprSize(l) + ExprSize(r)
    case Call(_, args) => 1 + ArgsSize(args)
  }

  function ArgsSize(args: Args): nat {
    if args.NoArgs? then 0 else 1 + ExprSize(args.first) + ArgsSize(args.rest)
  }

  function StmtSize(s: Stmt): (n: nat)
    ensures n >= 1
  {
    match s
    case Skip => 1
    case ExprStmt(e) => 1 + ExprSize(e)
    case Print(e) => 1 + ExprSize(e)
    case Seq(s1, s2) => 1 + StmtSize(s1) + StmtSize(s2)
    case If(t, s1) => 1 + ExprSize(t) + StmtSize(s1)
    case IfElse(t, s1, s2) => 1 + ExprSize(t) + StmtSize(s1) + StmtSize(s2)
    case While(t, b) => 2 + ExprSize(t) + StmtSize(b)
    case DoWhile(b, t) => 1 + ExprSize(t) + StmtSize(b)
    case For(i, c, n, b) =>
      2 + StmtSize(i) + (if c.SomeExpr? then ExprSize(c.e) else 0) + StmtSize(n) + StmtSize(b)
    case Break => 1
    case Continue => 1
    case Return(e) => 1 + ExprSize(e)
  }

  function Eval(p: Program, e: Expr, st: State, fuel: nat): (r: EvalResult)
    ensures r.Val? ==> r.fuel <= fuel
    decreases fuel, ExprSize(e)
  {
    match e
    case Literal(lit) => Val(if lit < |p.literals| then p.literals[lit] else 0, st, fuel)
    case Var(slot) => Val(Get(st, slot), st, fuel)
    case Assign(slot, rhs) =>
      var r := Eval(p, rhs, st, fuel);
      if r.Timeout? then r else Val(r.v, Set(r.st, slot, r.v), r.fuel)
    case Not(e1) =>
      var r := Eval(p, e1, st, fuel);
      if r.Timeout? then r else r.(v := Truth(r.v == 0))
    case Negate(e1) =>
      var r := Eval(p, e1, st, fuel);
      if r.Timeout? then r else r.(v := -r.v)
    case Binary(op, l, r) =>
      var a := Eval(p, l, st, fuel);
      if a.Timeout? then a
      else
        var b := Eval(p, r, a.st, a.fuel);
        if b.Timeout? then b else b.(v := Apply(op, a.v, b.v))
    case And(l, r) =>
      var a := Eval(p, l, st, fuel);
      if a.Timeout? then a
      else if a.v == 0 then a
      else
        var b := Eval(p, r, a.st, a.fuel);
        if b.Timeout? then b else b.(v := Truth(b.v != 0))
    case Or(l, r) =>
      var a := Eval(p, l, st, fuel);
      if a.Timeout? then a
      else if a.v != 0 then a.(v := 1)
      else
        var b := Eval(p, r, a.st, a.fuel);
        if b.Timeout? then b else b.(v := Truth(b.v != 0))
    case Cond(t, l, r) =>
      var a := Eval(p, t, st, fuel);
      if a.Timeout? then a
      else if a.v != 0 then Eval(p, l, a.st, a.fuel)
      else Eval(p, r, a.st, a.fuel)
    case Call(f, args) =>
      var a := EvalArgs(p, args, st, fuel);
      if a.ArgsTimeout? || a.fuel == 0 then Timeout
      else if f >= |p.funcs| then Val(0, a.st, a.fuel - 1)
      else
        var callee := State(a.st.globals, Bind(a.vs, p.funcs[f].nparms), a.st.out);
        var x := Execute(p, p.funcs[f].body, callee, a.fuel - 1);
        if x.ExecTimeout? then Timeout
        else Val(if x.o.Returned? then x.o.v else 0, x.st.(locals := a.st.locals), x.fuel)
  }

  function EvalArgs(p: Program, args: Args, st: State, fuel: nat): (r: ArgsResult)
    ensures r.Vals? ==> r.fuel <= fuel
    decreases fuel, ArgsSize(args)
  {
    match args
    case NoArgs => Vals([], st, fuel)
    case MoreArgs(first, rest) =>
      var a := Eval(p, first, st, fuel);
      if a.Timeout? then ArgsTimeout
      else
        var b := EvalArgs(p, rest, a.st, a.fuel);
        if b.ArgsTimeout? then b else b.(vs := [a.v] + b.vs)
  }

  /** One statement; what follows a break, a continue or a return up to its target is not executed. */
  function Execute(p: Program, s: Stmt, st: State, fuel: nat): (r: ExecResult)
    ensures r.Exec? ==> r.fuel <= fuel
    decreases fuel, StmtSize(s)
  {
    match s
    case Skip => Exec(Normal, st, fuel)
    case ExprStmt(e) =>
      var r := Eval(p, e, st, fuel);
      if r.Timeout? then ExecTimeout else Exec(Normal, r.st, r.fuel)
    case Print(e) =>
      var r := Eval(p, e, st, fuel);
      if r.Timeout? then ExecTimeout else Exec(Normal, r.st.(out := r.st.out + [r.v]), r.fuel)
    case Seq(s1, s2) =>
      var a := Execute(p, s1, st, fuel);
      if a.ExecTimeout? || a.o != Normal then a else Execute(p, s2, a.st, a.fuel)
    case If(t, s1) =>
      var r := Eval(p, t, st, fuel);
      if r.Timeout? then ExecTimeout
      else if r.v != 0 then Execute(p, s1, r.st, r.fuel) else Exec(Normal, r.st, r.fuel)
    case IfElse(t, s1, s2) =>
      var r := Eval(p, t, st, fuel);
      if r.Timeout? then ExecTimeout
      else if r.v != 0 then Execute(p, s1, r.st, r.fuel) else Execute(p, s2, r.st, r.fuel)
    case While(t, b) => Loop(p, SomeExpr(t), b, Skip, st, fuel)
    case DoWhile(b, t) =>
      if fuel == 0 then ExecTimeout
      else
        var x := Execute(p, b, st, fuel - 1);
        if x.ExecTimeout? || x.o.Returned? then x
        else if x.o == Broke then x.(o := Normal)
        else
          var r := Eval(p, t, x.st, x.fuel);
          if r.Timeout? then ExecTimeout
          else if r.v == 0 then Exec(Normal, r.st, r.fuel)
          else Execute(p, s, r.st, r.fuel)
    case For(i, c, n, b) =>
      var x := Execute(p, i, st, fuel);
      if x.ExecTimeout? || x.o != Normal then x else Loop(p, c, b, n, x.st, x.fuel)
    case Break => Exec(Broke, st, fuel)
    case Continue => Exec(Continued, st, fuel)
    case Return(e) =>
      var r := Eval(p, e, st, fuel);
      if r.Timeout? then ExecTimeout else Exec(Returned(r.v), r.st, r.fuel)
  }

  /** while (cond) { body; incr } where continue in the body leads to incr. */
  function Loop(p: Program, c: OptExpr, b: Stmt, n: Stmt, st: State, fuel: nat): (r: ExecResult)
    ensures r.Exec? ==> r.fuel <= fuel
    decreases fuel, 1 + if c.SomeExpr? then ExprSize(c.e) else 0
  {
    var r := if c.NoExpr? then Val(1, st, fuel) else Eval(p, c.e, st, fuel);
    if r.Timeout? then ExecTimeout
    else if r.v == 0 then Exec(Normal, r.st, r.fuel)
    else if r.fuel == 0 then ExecTimeout
    else
      var x := Execute(p, b, r.st, r.fuel - 1);
      if x.ExecTimeout? || x.o.Returned? then x
      else if x.o == Broke then x.(o := Normal)
      else
        var y := Execute(p, n, x.st, x.fuel);
        if y.ExecTimeout? || y.o != Normal then y else Loop(p, c, b, n, y.st, y.fuel)
  }
}
