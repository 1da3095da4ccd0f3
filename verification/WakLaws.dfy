/** What the operators of wak give, as laws about the values of expressions, for every program and every state. */
module WakLaws {
  import opened WakLanguage
  import opened WakCorrect
  import opened WakProgram

  /** l evaluates to a, and r, evaluated after it, to b. */
  ghost predicate Operands(p: Program, l: Expr, r: Expr, st: State, fuel: nat, a: int, b: int) {
    var x := Eval(p, l, st, fuel);
    x.Val? && x.v == a && var y := Eval(p, r, x.st, x.fuel); y.Val? && y.v == b
  }

  /** The value of a binary expression whose operands have values. */
  function ValueOf(p: Program, op: BinaryOp, l: Expr, r: Expr, st: State, fuel: nat): int
    requires Eval(p, Binary(op, l, r), st, fuel).Val?
  {
    Eval(p, Binary(op, l, r), st, fuel).v
  }

  /** The operands are evaluated from left to right, and nothing but their effects remains. */
  lemma LeftToRight(p: Program, op: BinaryOp, l: Expr, r: Expr, st: State, fuel: nat)
    ensures
      var e, x := Eval(p, Binary(op, l, r), st, fuel), Eval(p, l, st, fuel);
      && (e.Val? <==> exists a, b :: Operands(p, l, r, st, fuel, a, b))
      && (e.Val? ==> var y := Eval(p, r, x.st, x.fuel); y.Val? && e.st == y.st && e.fuel == y.fuel)
  {
    var e, x := Eval(p, Binary(op, l, r), st, fuel), Eval(p, l, st, fuel);
    if e.Val? {
      assert Operands(p, l, r, st, fuel, x.v, Eval(p, r, x.st, x.fuel).v);
    }
  }

  /** The value depends on the values of the operands only. */
  lemma FromOperands(p: Program, op: BinaryOp, l: Expr, r: Expr, st: State, fuel: nat, a: int, b: int)
    requires Operands(p, l, r, st, fuel, a, b)
    ensures Eval(p, Binary(op, l, r), st, fuel).Val? && ValueOf(p, op, l, r, st, fuel) == Apply(op, a, b)
  {
  }

  lemma SumAndDifference(p: Program, l: Expr, r: Expr, st: State, fuel: nat, a: int, b: int)
    requires Operands(p, l, r, st, fuel, a, b)
    ensures Eval(p, Binary(Plus, l, r), st, fuel).Val? && Eval(p, Binary(Minus, l, r), st, fuel).Val?
    ensures ValueOf(p, Plus, l, r, st, fuel) == a + b
    ensures ValueOf(p, Minus, l, r, st, fuel) + b == a
  {
    FromOperands(p, Plus, l, r, st, fuel, a, b);
    FromOperands(p, Minus, l, r, st, fuel, a, b);
  }

  lemma ProductOfUnit(p: Program, l: Expr, r: Expr, st: State, fuel: nat, a: int, b: int)
    requires Operands(p, l, r, st, fuel, a, b)
    ensures Eval(p, Binary(Mul, l, r), st, fuel).Val?
    ensures b == 0 ==> ValueOf(p, Mul, l, r, st, fuel) == 0
    ensures b == 1 ==> ValueOf(p, Mul, l, r, st, fuel) == a
  {
    FromOperands(p, Mul, l, r, st, fuel, a, b);
  }

  /** Multiplication distributes over addition: three products of the same left value. */
  lemma ProductOfSum(p: Program, l: Expr, r: Expr, st: State, fuel: nat, l1: Expr, r1: Expr, st1: State, fuel1: nat,
                     l2: Expr, r2: Expr, st2: State, fuel2: nat, a: int, b: int, c: int)
    requires Operands(p, l, r, st, fuel, a, b) && Operands(p, l1, r1, st1, fuel1, a, c)
    requires Operands(p, l2, r2, st2, fuel2, a, b + c)
    ensures Eval(p, Binary(Mul, l, r), st, fuel).Val? && Eval(p, Binary(Mul, l1, r1), st1, fuel1).Val?
    ensures Eval(p, Binary(Mul, l2, r2), st2, fuel2).Val?
    ensures ValueOf(p, Mul, l2, r2, st2, fuel2) == ValueOf(p, Mul, l, r, st, fuel) + ValueOf(p, Mul, l1, r1, st1, fuel1)
  {
    ProductIs(p, l, r, st, fuel, a, b);
    ProductIs(p, l1, r1, st1, fuel1, a, c);
    ProductIs(p, l2, r2, st2, fuel2, a, b + c);
    hide Eval;
    Distributes(a, b, c);
  }

  lemma ProductIs(p: Program, l: Expr, r: Expr, st: State, fuel: nat, a: int, b: int)
    requires Operands(p, l, r, st, fuel, a, b)
    ensures Eval(p, Binary(Mul, l, r), st, fuel).Val? && ValueOf(p, Mul, l, r, st, fuel) == a * b
  {
    FromOperands(p, Mul, l, r, st, fuel, a, b);
  }

  lemma Distributes(a: int, b: int, c: int)
    ensures a * (b + c) == a * b + a * c
  {
  }

  /** Comparisons give 0 or 1. Of <, == and > exactly one gives 1; >=, != and <= give the opposite of them. */
  lemma Comparisons(p: Program, l: Expr, r: Expr, st: State, fuel: nat, a: int, b: int)
    requires Operands(p, l, r, st, fuel, a, b)
    ensures forall op :: Eval(p, Binary(op, l, r), st, fuel).Val?
    ensures
      var lt, eq, gt := ValueOf(p, Lt, l, r, st, fuel), ValueOf(p, Eq, l, r, st, fuel), ValueOf(p, Gt, l, r, st, fuel);
      && (lt == 0 || lt == 1) && (eq == 0 || eq == 1) && (gt == 0 || gt == 1) && lt + eq + gt == 1
      && ValueOf(p, Ge, l, r, st, fuel) == 1 - lt
      && ValueOf(p, Ne, l, r, st, fuel) == 1 - eq
      && ValueOf(p, Le, l, r, st, fuel) == 1 - gt
  {
    forall op ensures Eval(p, Binary(op, l, r), st, fuel).Val? && ValueOf(p, op, l, r, st, fuel) == Apply(op, a, b) {
      FromOperands(p, op, l, r, st, fuel, a, b);
    }
    hide Eval, Operands, ValueOf;
  }

  /** l < r holds exactly if the difference of the same values the other way round is positive, and l == r exactly if
      it is 0. */
  lemma OrderOfDifference(p: Program, l: Expr, r: Expr, st: State, fuel: nat, l1: Expr, r1: Expr, st1: State,
                          fuel1: nat, a: int, b: int)
    requires Operands(p, l, r, st, fuel, a, b) && Operands(p, l1, r1, st1, fuel1, b, a)
    ensures forall op :: Eval(p, Binary(op, l, r), st, fuel).Val?
    ensures Eval(p, Binary(Minus, l1, r1), st1, fuel1).Val?
    ensures ValueOf(p, Lt, l, r, st, fuel) == 1 <==> ValueOf(p, Minus, l1, r1, st1, fuel1) > 0
    ensures ValueOf(p, Eq, l, r, st, fuel) == 1 <==> ValueOf(p, Minus, l1, r1, st1, fuel1) == 0
    ensures ValueOf(p, Gt, l, r, st, fuel) == 1 <==> ValueOf(p, Minus, l1, r1, st1, fuel1) < 0
  {
    forall op ensures Eval(p, Binary(op, l, r), st, fuel).Val? && ValueOf(p, op, l, r, st, fuel) == Apply(op, a, b) {
      FromOperands(p, op, l, r, st, fuel, a, b);
    }
    FromOperands(p, Minus, l1, r1, st1, fuel1, b, a);
    hide Eval, Operands, ValueOf;
  }

  /** The unary operators: -e is the opposite of e, and !e is 1 exactly if e is 0, and 0 otherwise. */
  lemma UnaryValues(p: Program, e: Expr, st: State, fuel: nat)
    requires Eval(p, e, st, fuel).Val?
    ensures
      var r, n, m := Eval(p, e, st, fuel), Eval(p, Not(e), st, fuel), Eval(p, Negate(e), st, fuel);
      && n.Val? && n.st == r.st && n.v == (if r.v == 0 then 1 else 0)
      && m.Val? && m.st == r.st && m.v + r.v == 0
  {
  }

  /** && and || give 0 or 1: what the operators of C give for operands that are both evaluated, but the right one is
      evaluated only if the left one does not decide. */
  lemma LogicalValues(p: Program, l: Expr, r: Expr, st: State, fuel: nat)
    requires Eval(p, l, st, fuel).Val?
    ensures
      var a := Eval(p, l, st, fuel);
      var b := Eval(p, r, a.st, a.fuel);
      var x, y := Eval(p, And(l, r), st, fuel), Eval(p, Or(l, r), st, fuel);
      && (a.v == 0 ==> x == Val(0, a.st, a.fuel))
      && (a.v != 0 ==> y == Val(1, a.st, a.fuel))
      && (a.v != 0 && b.Val? ==> x == Val(if b.v == 0 then 0 else 1, b.st, b.fuel))
      && (a.v == 0 && b.Val? ==> y == Val(if b.v == 0 then 0 else 1, b.st, b.fuel))
  {
    hide Eval;
    EvalLogical(p, And(l, r), l, r, true, st, fuel);
    EvalLogical(p, Or(l, r), l, r, false, st, fuel);
  }

  /** A variable has the value that was assigned to it, and no other variable has changed. */
  lemma Assigned(p: Program, sc: Scope, slot: int, e: Expr, st: State, fuel: nat, other: int)
    requires GoodSlot(sc, slot) && GoodSlot(sc, other)
    requires var r := Eval(p, e, st, fuel); r.Val? && GoodState(sc, r.st)
    ensures
      var r, x := Eval(p, e, st, fuel), Eval(p, Assign(slot, e), st, fuel);
      && x.Val? && x.v == r.v && Eval(p, Var(slot), x.st, x.fuel) == Val(r.v, x.st, x.fuel)
      && (other != slot ==> Eval(p, Var(other), x.st, x.fuel).v == Eval(p, Var(other), r.st, r.fuel).v)
  {
  }

  // ---------------------------------------------------------------- on the machine

  /** The compiled rule BEGIN { print e } stops with the value of e behind the output of its evaluation. */
  lemma PrintsValue(env: Env, e: Expr, start: int, operand: nat, st: State, fuel: nat)
    requires Loaded(env, Print(e), start, operand) && Initial(env, st) && Eval(env.p, e, st, fuel).Val?
    ensures
      var r := Eval(env.p, e, st, fuel);
      exists h :: StopsIn(env.q, At(Outside(operand), start, st, []), h) && h.out == r.st.out + [r.v]
  {
    hide Eval, Loaded, StopsIn, Initial;
    var r := Eval(env.p, e, st, fuel);
    var h := At(Outside(operand), EndOf(Print(e), start, operand), r.st.(out := r.st.out + [r.v]), []);
    assert IsResultWith(env, Print(e), start, operand, st, fuel, h);
    BeginCorrect(env, Print(e), start, operand, st, h);
  }

  /** BEGIN { print l - r } prints the number that gives l when r is added. */
  lemma PrintsDifference(env: Env, l: Expr, r: Expr, start: int, operand: nat, st: State, fuel: nat, a: int, b: int)
    requires Loaded(env, Print(Binary(Minus, l, r)), start, operand) && Initial(env, st)
    requires Operands(env.p, l, r, st, fuel, a, b)
    ensures
      exists h ::
        && StopsIn(env.q, At(Outside(operand), start, st, []), h) && h.out != []
        && h.out[|h.out| - 1] + b == a
  {
    SumAndDifference(env.p, l, r, st, fuel, a, b);
    hide Eval, Loaded, StopsIn, Initial, Operands;
    PrintsValue(env, Binary(Minus, l, r), start, operand, st, fuel);
  }
}
