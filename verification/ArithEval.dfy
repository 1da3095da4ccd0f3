/** Shell arithmetic, evaluated while it is parsed, with two tokens of lookahead. */
module ArithEval {
  import opened CTypes
  import opened G = ArithGrammar
  import opened ArithAssociation

  /** The arithmetic of the machine: what the binary operators and the minus sign compute, overflow included. */
  datatype Machine = Machine(binop: (int, int, int) -> int, negate: int -> int)

  type Vars = map<string, int>

  /** A value, or the error; the assignments made before stand in either case. */
  datatype Result = Value(v: int, vars: Vars) | DivisionByZero(vars: Vars)

  function Lookup(vars: Vars, name: string): int {
    if name in vars then vars[name] else 0
  }

  predicate Divides(code: int) {
    code == DIV || code == REM
  }

  function UnaryValue(m: Machine, code: int, v: int): int {
    if code == ADD then v else if code == SUB then m.negate(v) else if code == NOT then Truth(v == 0) else -v - 1
  }

  /** The operator of a compound assignment lies 11 below it. */
  function Compound(code: int): int {
    code - 11
  }

  /** What C says: && and || and ?: evaluate only the operands that they need, assignments take effect. */
  function Eval(m: Machine, t: Tree, vars: Vars): Result {
    match t
    case Num(n) => Value(n.num, vars)
    case Var(v) => Value(Lookup(vars, v.name), vars)
    case Paren(_, e, _) => Eval(m, e, vars)
    case Unary(op, e) =>
      var r := Eval(m, e, vars);
      if r.Value? then r.(v := UnaryValue(m, op.code, r.v)) else r
    case Binary(l, op, r) =>
      var a := Eval(m, l, vars);
      if a.DivisionByZero? then a
      else
        var b := Eval(m, r, a.vars);
        if b.DivisionByZero? then b
        else if Divides(op.code) && b.v == 0 then DivisionByZero(b.vars)
        else b.(v := m.binop(op.code, a.v, b.v))
    case And(l, _, r) =>
      var a := Eval(m, l, vars);
      if a.DivisionByZero? then a
      else if a.v == 0 then a
      else
        var b := Eval(m, r, a.vars);
        if b.Value? then b.(v := Truth(b.v != 0)) else b
    case Or(l, _, r) =>
      var a := Eval(m, l, vars);
      if a.DivisionByZero? then a
      else if a.v != 0 then a.(v := 1)
      else
        var b := Eval(m, r, a.vars);
        if b.Value? then b.(v := Truth(b.v != 0)) else b
    case Cond(c, _, y, _, n) =>
      var a := Eval(m, c, vars);
      if a.DivisionByZero? then a else Eval(m, if a.v != 0 then y else n, a.vars)
    case Assign(v, op, e) =>
      var r := Eval(m, e, vars);
      if r.DivisionByZero? then r
      else if op.code == ASS then r.(vars := r.vars[v.name := r.v])
      else if Divides(Compound(op.code)) && r.v == 0 then DivisionByZero(r.vars)
      else
        var x := m.binop(Compound(op.code), Lookup(r.vars, v.name), r.v);
        Value(x, r.vars[v.name := x])
  }

  /** Grouping && to the left or to the right is the same. */
  lemma AndAssociates(m: Machine, a: Tree, op: Token, b: Tree, op': Token, c: Tree, vars: Vars)
    ensures Eval(m, And(And(a, op, b), op', c), vars) == Eval(m, And(a, op, And(b, op', c)), vars)
  {
  }

  lemma OrAssociates(m: Machine, a: Tree, op: Token, b: Tree, op': Token, c: Tree, vars: Vars)
    ensures Eval(m, Or(Or(a, op, b), op', c), vars) == Eval(m, Or(a, op, Or(b, op', c)), vars)
  {
  }

  lemma EvalAnd(m: Machine, l: Tree, op: Token, r: Tree, vars: Vars)
    ensures
      var a := Eval(m, l, vars);
      Eval(m, And(l, op, r), vars)
      == if a.DivisionByZero? || a.v == 0 then a
         else
           var b := Eval(m, r, a.vars);
           if b.Value? then b.(v := Truth(b.v != 0)) else b
  {
  }

  lemma EvalOr(m: Machine, l: Tree, op: Token, r: Tree, vars: Vars)
    ensures
      var a := Eval(m, l, vars);
      Eval(m, Or(l, op, r), vars)
      == if a.DivisionByZero? then a
         else if a.v != 0 then a.(v := 1)
         else
           var b := Eval(m, r, a.vars);
           if b.Value? then b.(v := Truth(b.v != 0)) else b
  {
  }

  lemma {:induction false} AndRightEval(m: Machine, l: Tree, op: Token, r: Tree, vars: Vars)
    ensures Eval(m, AndRight(l, op, r), vars) == Eval(m, And(l, op, r), vars)
    decreases l
  {
    hide Eval;
    if l.And? {
      EvalAnd(m, l.l, l.op, AndRight(l.r, op, r), vars);
      EvalAnd(m, l.l, l.op, And(l.r, op, r), vars);
      var a := Eval(m, l.l, vars);
      if a.Value? {
        AndRightEval(m, l.r, op, r, a.vars);
      }
      AndAssociates(m, l.l, l.op, l.r, op, r, vars);
    }
  }

  lemma {:induction false} OrRightEval(m: Machine, l: Tree, op: Token, r: Tree, vars: Vars)
    ensures Eval(m, OrRight(l, op, r), vars) == Eval(m, Or(l, op, r), vars)
    decreases l
  {
    hide Eval;
    if l.Or? {
      EvalOr(m, l.l, l.op, OrRight(l.r, op, r), vars);
      EvalOr(m, l.l, l.op, Or(l.r, op, r), vars);
      var a := Eval(m, l.l, vars);
      if a.Value? {
        OrRightEval(m, l.r, op, r, a.vars);
      }
      OrAssociates(m, l.l, l.op, l.r, op, r, vars);
    }
  }

  /** A tree of C and its tree in the parser have the same value, the same assignments and the same errors. */
  lemma {:induction false} ToRightEval(m: Machine, t: Tree, vars: Vars)
    ensures Eval(m, ToRight(t), vars) == Eval(m, t, vars)
    decreases t
  {
    match t
    case Num(_) =>
    case Var(_) =>
    case Paren(_, e, _) => ToRightEval(m, e, vars);
    case Unary(_, e) => ToRightEval(m, e, vars);
    case Binary(l, _, r) =>
      ToRightEval(m, l, vars);
      ToRightEval(m, r, Eval(m, l, vars).vars);
    case And(l, op, r) =>
      ToRightEval(m, l, vars);
      ToRightEval(m, r, Eval(m, l, vars).vars);
      AndRightEval(m, ToRight(l), op, ToRight(r), vars);
    case Or(l, op, r) =>
      ToRightEval(m, l, vars);
      ToRightEval(m, r, Eval(m, l, vars).vars);
      OrRightEval(m, ToRight(l), op, ToRight(r), vars);
    case Cond(a, _, b, _, d) =>
      ToRightEval(m, a, vars);
      ToRightEval(m, b, Eval(m, a, vars).vars);
      ToRightEval(m, d, Eval(m, a, vars).vars);
    case Assign(_, _, e) => ToRightEval(m, e, vars);
  }

  lemma EvalBinary(m: Machine, l: Tree, op: Token, r: Tree, vars: Vars)
    ensures
      var a := Eval(m, l, vars);
      Eval(m, Binary(l, op, r), vars)
      == if a.DivisionByZero? then a
         else
           var b := Eval(m, r, a.vars);
           if b.DivisionByZero? then b
           else if Divides(op.code) && b.v == 0 then DivisionByZero(b.vars)
           else b.(v := m.binop(op.code, a.v, b.v))
  {
  }

  /** An error in the first operand is an error of the whole. */
  lemma {:induction false} ClimbKeepsError(ts: seq<Token>, m: Machine, a: Tree, i: nat, limit: nat, vars: Vars)
    ensures IsBinop(At(ts, i).code) && Eval(m, a, vars).DivisionByZero? ==>
              var p := G.Climb(ts, a, i, limit);
              p.Got? ==> Eval(m, p.t, vars) == Eval(m, a, vars)
    decreases |ts| - i
  {
    hide Eval, G.Climb;
    if IsBinop(At(ts, i).code) {
      ClimbIs(ts, a, i, limit);
      var c := UpTo(ts, i + 1, Prec(At(ts, i).code));
      if c.Got? {
        EvalBinary(m, a, At(ts, i), c.t, vars);
        ClimbMoves(ts, i);
        ClimbKeepsError(ts, m, Binary(a, At(ts, i), c.t), c.next, limit, vars);
      }
    }
  }

  lemma ClimbMoves(ts: seq<Token>, i: nat)
    requires IsBinop(At(ts, i).code)
    ensures Within(ts, i + 1, UpTo(ts, i + 1, Prec(At(ts, i).code))) && i < |ts|
  {
  }

  // ---------------------------------------------------------------- the evaluator

  datatype Error = None | Syntax | Zero

  class Arith {
    const ts: seq<Token>
    const m: Machine
    var pos: nat
    var lastToken: int
    var yylval: Token
    var vars: Vars

    constructor (ts: seq<Token>, m: Machine, vars: Vars)
      ensures this.ts == ts && this.m == m && this.vars == vars && pos == 0
    {
      this.ts, this.m, this.vars := ts, m, vars;
      pos, lastToken, yylval := 0, 0, END;
    }

    /** The tokens before pos have been read, the last one of them is the value at hand. */
    predicate Read(i: nat)
      reads this
    {
      pos == i && i > 0 && yylval == At(ts, i - 1)
    }

    method Yylex() returns (token: int)
      modifies this`pos, this`yylval
      ensures Read(old(pos) + 1) && token == At(ts, old(pos)).code
    {
      yylval := At(ts, pos);
      token := yylval.code;
      pos := pos + 1;
    }

    /** Two tokens of lookahead. */
    predicate Ahead(token: int, val: Token, op: int, i: nat)
      reads this
    {
      token == At(ts, i).code && val == At(ts, i) && op == At(ts, i + 1).code && Read(i + 2)
    }

    /** What an evaluation owes to a parse: the place after it, and the value and the assignments of the tree, or, with
        noeval, none. Where there is no tree there is an error. */
    predicate Owes(p: Parse, before: Vars, noeval: bool, v: int, err: Error)
      reads this
    {
      match p
      case Fail => err != None
      case Got(t, next) =>
        var r := Eval(m, t, before);
        if noeval || r.Value? then
          && err == None && Read(next + 1) && lastToken == At(ts, next).code
          && (if noeval then vars == before else v == r.v && vars == r.vars)
        else err == Zero && vars == r.vars
    }

    method DoBinop(op: int, a: int, b: int) returns (v: int, err: Error)
      ensures err == if Divides(op) && b == 0 then Zero else None
      ensures err == None ==> v == m.binop(op, a, b)
    {
      if Divides(op) && b == 0 {
        return 0, Zero;
      }
      return m.binop(op, a, b), None;
    }

    /** token is at i and op after it, both read already. */
    method Primary(token: int, val: Token, op: int, noeval: bool, ghost i: nat) returns (v: int, err: Error)
      requires Ahead(token, val, op, i)
      modifies this
      ensures Owes(G.Primary(ts, i), old(vars), noeval, v, err)
      decreases |ts| - i, 0
    {
      hide G.Assignment;
      if token == LPAREN {
        v, err := Assignment(op, noeval, i + 1);
        if err != None {
          return;
        }
        if lastToken != RPAREN {
          return v, Syntax;
        }
        lastToken := Yylex();
      } else if token == NUM {
        lastToken := op;
        return val.num, None;
      } else if token == VAR {
        lastToken := op;
        return if noeval then val.num else Lookup(vars, val.name), None;
      } else if IsUnary(token) {
        var val1 := yylval;
        var op1 := Yylex();
        v, err := Primary(op, val1, op1, noeval, i + 1);
        v := UnaryValue(m, token, v);
      } else {
        return 0, Syntax;
      }
    }

    /** Operators from op, which is at i, as long as they bind tighter than prec. */
    method Binop2(a0: int, op0: int, prec: nat, noeval: bool, ghost at0: Tree, ghost i0: nat, ghost before: Vars)
      returns (v: int, err: Error)
      requires op0 == At(ts, i0).code && IsBinop(op0) && Read(i0 + 1)
      requires if noeval then vars == before else Eval(m, at0, before) == Value(a0, vars)
      modifies this
      ensures Owes(G.Climb(ts, at0, i0, prec), before, noeval, v, err)
      decreases |ts| - i0
    {
      hide G.Climb, G.Primary, Eval;
      var a, op := a0, op0;
      ghost var at, i := at0, i0;
      while true
        invariant i0 <= i && op == At(ts, i).code && IsBinop(op) && Read(i + 1)
        invariant if noeval then vars == before else Eval(m, at, before) == Value(a, vars)
        invariant G.Climb(ts, at, i, prec) == G.Climb(ts, at0, i0, prec)
        decreases |ts| - i
      {
        ClimbIs(ts, at, i, prec);
        ghost var mid := vars;
        ghost var c := UpTo(ts, i + 1, Prec(op));
        var b, e := Operand(op, noeval, i);
        if c.Got? {
          EvalBinary(m, at, At(ts, i), c.t, before);
          ClimbKeepsError(ts, m, Binary(at, At(ts, i), c.t), c.next, prec, before);
        }
        if e != None {
          return b, e;
        }
        var op2 := lastToken;
        if noeval {
          a := b;
        } else {
          a, e := DoBinop(op, a, b);
          if e != None {
            return a, e;
          }
        }
        if !IsBinop(op2) || Prec(op2) >= prec {
          return a, None;
        }
        op := op2;
        at, i := Binary(at, At(ts, i), c.t), c.next;
      }
    }

    /** The right operand of op, which is at i. */
    method Operand(op: int, noeval: bool, ghost i: nat) returns (b: int, err: Error)
      requires op == At(ts, i).code && IsBinop(op) && Read(i + 1)
      modifies this
      ensures Owes(UpTo(ts, i + 1, Prec(op)), old(vars), noeval, b, err)
      ensures err == None ==> Read(pos)
      decreases |ts| - i, 0
    {
      hide G.Climb, G.Primary, Eval;
      ghost var before := vars;
      var token := Yylex();
      var val := yylval;
      var next := Yylex();
      ghost var p := G.Primary(ts, i + 1);
      b, err := Primary(token, val, next, noeval, i + 1);
      if p.Got? && Tighter(At(ts, p.next).code, Prec(op)) {
        ClimbKeepsError(ts, m, p.t, p.next, Prec(op), before);
      }
      if err != None {
        return;
      }
      var op2 := lastToken;
      if IsBinop(op2) && Prec(op2) < Prec(op) {
        b, err := Binop2(b, op2, Prec(op), noeval, p.t, p.next, before);
      }
    }

    method Binop(token: int, val: Token, op0: int, noeval: bool, ghost i: nat) returns (v: int, err: Error)
      requires Ahead(token, val, op0, i)
      modifies this
      ensures Owes(G.Binop(ts, i), old(vars), noeval, v, err)
      decreases |ts| - i, 1
    {
      hide G.Climb, G.Primary, Eval;
      ghost var before, p := vars, G.Primary(ts, i);
      v, err := Primary(token, val, op0, noeval, i);
      if p.Got? && IsBinop(At(ts, p.next).code) {
        ClimbKeepsError(ts, m, p.t, p.next, MAX_PREC, before);
      }
      if err != None {
        return;
      }
      var op := lastToken;
      if !IsBinop(op) {
        return;
      }
      v, err := Binop2(v, op, MAX_PREC, noeval, p.t, p.next, before);
    }

    method And(token: int, val: Token, op0: int, noeval: bool, ghost i: nat) returns (v: int, err: Error)
      requires Ahead(token, val, op0, i)
      modifies this
      ensures Owes(G.AndExpr(ts, i), old(vars), noeval, v, err)
      decreases |ts| - i, 2
    {
      hide G.Binop;
      var a;
      a, err := Binop(token, val, op0, noeval, i);
      if err != None || lastToken != AND {
        return a, err;
      }
      var token1 := Yylex();
      var val1 := yylval;
      var op1 := Yylex();
      var b;
      b, err := And(token1, val1, op1, noeval || a == 0, pos - 2);
      v := Truth(a != 0 && b != 0);
    }

    method Or(token: int, val: Token, op0: int, noeval: bool, ghost i: nat) returns (v: int, err: Error)
      requires Ahead(token, val, op0, i)
      modifies this
      ensures Owes(G.OrExpr(ts, i), old(vars), noeval, v, err)
      decreases |ts| - i, 3
    {
      hide G.AndExpr;
      var a;
      a, err := And(token, val, op0, noeval, i);
      if err != None || lastToken != OR {
        return a, err;
      }
      var token1 := Yylex();
      var val1 := yylval;
      var op1 := Yylex();
      var b;
      b, err := Or(token1, val1, op1, noeval || a != 0, pos - 2);
      v := Truth(a != 0 || b != 0);
    }

    method Cond(token: int, val: Token, op: int, noeval: bool, ghost i: nat) returns (v: int, err: Error)
      requires Ahead(token, val, op, i)
      modifies this
      ensures Owes(G.CondExpr(ts, i), old(vars), noeval, v, err)
      decreases |ts| - i, 4
    {
      hide G.OrExpr, G.Assignment;
      var a, b, c;
      a, err := Or(token, val, op, noeval, i);
      if err != None || lastToken != QMARK {
        return a, err;
      }
      var token1 := Yylex();
      b, err := Assignment(token1, noeval || a == 0, pos - 1);
      if err != None {
        return b, err;
      }
      if lastToken != COLON {
        return b, Syntax;
      }
      token1 := Yylex();
      var val1 := yylval;
      var op1 := Yylex();
      c, err := Cond(token1, val1, op1, noeval || a != 0, pos - 2);
      v := if a != 0 then b else c;
    }

    method Assignment(token: int, noeval: bool, ghost i: nat) returns (v: int, err: Error)
      requires token == At(ts, i).code && Read(i + 1)
      modifies this
      ensures Owes(G.Assignment(ts, i), old(vars), noeval, v, err)
      decreases |ts| - i, 5
    {
      hide G.CondExpr;
      var val := yylval;
      var op := Yylex();
      if token != VAR || !IsAssign(op) {
        v, err := Cond(token, val, op, noeval, i);
        return;
      }
      var token1 := Yylex();
      v, err := Assignment(token1, noeval, i + 2);
      if err != None || noeval {
        return;
      }
      if op != ASS {
        v, err := DoBinop(Compound(op), Lookup(vars, val.name), v);
        if err != None {
          return;
        }
      }
      vars := vars[val.name := v];
    }
  }

  ghost predicate IsLegalC(ts: seq<Token>) {
    exists t :: LegalC(t) && Yield(t) == ts
  }

  /** What evaluation with the result r has to give. */
  predicate Gives(r: Result, v: int, vars: Vars, err: Error) {
    match r
    case Value(x, after) => err == None && v == x && vars == after
    case DivisionByZero(after) => err == Zero && vars == after
  }

  /** An arithmetic expansion: an expression of the grammar of C gives exactly the value and the assignments of its
      tree, or the error of a division by zero that its evaluation reaches, after the assignments before it; anything
      else is an error. */
  method Evaluate(ts: seq<Token>, m: Machine, vars: Vars) returns (v: int, vars': Vars, err: Error)
    requires forall i :: 0 <= i < |ts| ==> ts[i].code != 0
    ensures forall t | LegalC(t) && Yield(t) == ts :: Gives(Eval(m, t, vars), v, vars', err)
    ensures !IsLegalC(ts) ==> err != None
  {
    hide G.Assignment, Legal, LegalC, Eval, Yield, ToRight, ToLeft;
    var a := new Arith(ts, m, vars);
    var token := a.Yylex();
    v, err := a.Assignment(token, false, 0);
    if err == None && a.lastToken != 0 {
      err := Syntax;
    }
    vars' := a.vars;
    forall t
      ensures LegalC(t) && Yield(t) == ts ==> G.Assignment(ts, 0) == Got(ToRight(t), |ts|)
      ensures Eval(m, ToRight(t), vars) == Eval(m, t, vars)
    {
      ToRightEval(m, t, vars);
      if LegalC(t) && Yield(t) == ts {
        ToRightLegal(t);
        ParseExact(ts, ToRight(t));
      }
    }
    ghost var p := G.Assignment(ts, 0);
    if p.Got? && p.next == |ts| {
      ParseExact(ts, p.t);
      ToLeftLegal(p.t);
    }
  }
}
