/** What the operators of shell arithmetic mean, as laws about the values of trees, with the operators as they are
    spelled. */
module ArithLaws {
  import opened ArithGrammar
  import opened ArithProductions
  import opened ArithEval

  /** +e is e, -e what the machine makes of it, !e is 1 exactly if e is 0, and 0 otherwise, and ~e is the complement. */
  lemma UnaryValues(m: Machine, op: Token, e: Tree, vars: Vars)
    requires Eval(m, e, vars).Value? && OneOf(op, UNARIES)
    ensures
      var r, u := Eval(m, e, vars), Eval(m, Unary(op, e), vars);
      && u.Value? && u.vars == r.vars
      && (op.code == Code("+") ==> u.v == r.v)
      && (op.code == Code("-") ==> u.v == m.negate(r.v))
      && (op.code == Code("!") ==> u.v == if r.v == 0 then 1 else 0)
      && (op.code == Code("~") ==> u.v + r.v == -1)
  {
    UnaryCodes(op);
  }

  /** A binary operator is applied to the values of its operands, the left one first; only / and % with 0 fail. */
  lemma BinaryValues(m: Machine, l: Tree, op: Token, r: Tree, vars: Vars)
    requires Eval(m, l, vars).Value? && Eval(m, r, Eval(m, l, vars).vars).Value?
    ensures
      var a := Eval(m, l, vars);
      var b := Eval(m, r, a.vars);
      var x := Eval(m, Binary(l, op, r), vars);
      && (x.DivisionByZero? <==> (op.code == Code("/") || op.code == Code("%")) && b.v == 0)
      && x.vars == b.vars && (x.Value? ==> x.v == m.binop(op.code, a.v, b.v))
  {
    SlashAndPercent();
    EvalBinary(m, l, op, r, vars);
    hide Eval, Code;
  }

  lemma SlashAndPercent()
    ensures Code("/") == DIV && Code("%") == REM
  {
  }

  lemma EvalOfAssign(m: Machine, t: Tree, vars: Vars)
    requires t.Assign?
    ensures
      var r, x := Eval(m, t.rhs, vars), Eval(m, t, vars);
      && (r.DivisionByZero? ==> x == r)
      && (r.Value? && t.op.code == ASS ==> x == Value(r.v, r.vars[t.v.name := r.v]))
      && (r.Value? && t.op.code != ASS ==>
            x == if Divides(Compound(t.op.code)) && r.v == 0 then DivisionByZero(r.vars)
                 else
                   var w := m.binop(Compound(t.op.code), Lookup(r.vars, t.v.name), r.v);
                   Value(w, r.vars[t.v.name := w]))
  {
  }

  lemma EvalOfLeaves(m: Machine, v: Token, n: int, vars: Vars)
    ensures Eval(m, Number(n), vars) == Value(n, vars) && Eval(m, Var(v), vars) == Value(Lookup(vars, v.name), vars)
  {
  }

  /** && and || give 0 or 1, and the right operand counts only if the left one does not decide. */
  lemma LogicalValues(m: Machine, l: Tree, op: Token, r: Tree, vars: Vars)
    requires Eval(m, l, vars).Value?
    ensures
      var a := Eval(m, l, vars);
      var b := Eval(m, r, a.vars);
      var x, y := Eval(m, And(l, op, r), vars), Eval(m, Or(l, op, r), vars);
      && (a.v == 0 ==> x == Value(0, a.vars) && (b.Value? ==> y == Value(if b.v == 0 then 0 else 1, b.vars)))
      && (a.v != 0 ==> y == Value(1, a.vars) && (b.Value? ==> x == Value(if b.v == 0 then 0 else 1, b.vars)))
  {
  }

  function Number(v: int): Tree {
    Num(Token(NUM, v, ""))
  }

  /** After v = e the variable has the value of e, and no other one has changed; one that was never set is 0. */
  lemma Assigned(m: Machine, v: Token, op: Token, e: Tree, vars: Vars, other: Token)
    requires op.code == Code("=") && Eval(m, e, vars).Value?
    ensures
      var r, x := Eval(m, e, vars), Eval(m, Assign(v, op, e), vars);
      && x.Value? && x.v == r.v && Eval(m, Var(v), x.vars) == x
      && (other.name != v.name ==> Eval(m, Var(other), x.vars) == Value(Eval(m, Var(other), r.vars).v, x.vars))
      && (other.name != v.name && other.name !in r.vars ==> Eval(m, Var(other), x.vars).v == 0)
  {
    EqualsSign();
    EvalOfAssign(m, Assign(v, op, e), vars);
    var r, x := Eval(m, e, vars), Eval(m, Assign(v, op, e), vars);
    EvalOfLeaves(m, v, 0, x.vars);
    EvalOfLeaves(m, other, 0, x.vars);
    EvalOfLeaves(m, other, 0, r.vars);
    hide Eval, Code;
  }

  lemma EqualsSign()
    ensures Code("=") == ASS
  {
  }

  /** v op= e is v = v op w, where w is the value of e, evaluated before. */
  lemma CompoundAssigned(m: Machine, v: Token, op: Token, e: Tree, vars: Vars, level: nat, i: nat, eq: Token,
                         op': Token)
    requires level < |LEVELS| && level != 3 && level != 4 && i < |LEVELS[level]| && Eval(m, e, vars).Value?
    requires op.code == Code(LEVELS[level][i] + "=") && op'.code == Code(LEVELS[level][i]) && eq.code == Code("=")
    ensures
      var r := Eval(m, e, vars);
      Eval(m, Assign(v, op, e), vars) == Eval(m, Assign(v, eq, Binary(Var(v), op', Number(r.v))), r.vars)
  {
    CompoundCodes(level, i);
    CompoundIs(m, v, op, e, vars, eq, op');
  }

  lemma CompoundIs(m: Machine, v: Token, op: Token, e: Tree, vars: Vars, eq: Token, op': Token)
    requires op.code == op'.code + 11 && op.code != ASS && eq.code == ASS && Eval(m, e, vars).Value?
    ensures
      var r := Eval(m, e, vars);
      Eval(m, Assign(v, op, e), vars) == Eval(m, Assign(v, eq, Binary(Var(v), op', Number(r.v))), r.vars)
  {
    hide Eval, Lookup, Number;
    var r := Eval(m, e, vars);
    var b := Binary(Var(v), op', Number(r.v));
    EvalOfAssign(m, Assign(v, op, e), vars);
    EvalOfLeaves(m, v, r.v, r.vars);
    EvalBinary(m, Var(v), op', Number(r.v), r.vars);
    EvalOfAssign(m, Assign(v, eq, b), r.vars);
  }

  /** The token of a compound assignment is eleven above that of its operator. */
  lemma CompoundCodes(level: nat, i: nat)
    requires level < |LEVELS| && level != 3 && level != 4 && i < |LEVELS[level]|
    ensures
      var s := LEVELS[level][i];
      Code(s + "=") == Code(s) + 11 && Code(s + "=") != Code("=") && Code("=") == ASS
  {
    var s := LEVELS[level][i];
    if level == 0 {
      assert s == "*" || s == "/" || s == "%";
    } else if level == 1 {
      assert s == "+" || s == "-";
    } else if level == 2 {
      assert s == "<<" || s == ">>";
      assert "<<" + "=" == "<<=" && ">>" + "=" == ">>=";
    } else {
      assert s == if level == 5 then "&" else if level == 6 then "^" else "|";
    }
  }
}
