/** && and || associate to the left in C and to the right in the parser of the shell: the two grammars have the same
    sentences, and trees of the same sentence that differ in this way only. */
module ArithAssociation {
  import opened ArithGrammar

  /** A tree of the stratified grammar of C, in which all binary operators associate to the left. */
  predicate LegalC(t: Tree) {
    match t
    case Num(n) => n.code == NUM
    case Var(v) => v.code == VAR
    case Paren(a, e, b) => a.code == LPAREN && LegalC(e) && b.code == RPAREN
    case Unary(op, e) => IsUnary(op.code) && LegalC(e) && Rank(e) == 0
    case Binary(l, op, r) =>
      IsBinop(op.code) && LegalC(l) && LegalC(r) && Rank(l) <= Rank(t) && Rank(r) < Rank(t)
    case And(l, op, r) => op.code == AND && LegalC(l) && LegalC(r) && Rank(l) <= 9 && Rank(r) <= 8
    case Or(l, op, r) => op.code == OR && LegalC(l) && LegalC(r) && Rank(l) <= 10 && Rank(r) <= 9
    case Cond(a, q, b, c, d) =>
      q.code == QMARK && c.code == COLON && LegalC(a) && LegalC(b) && LegalC(d) && Rank(a) <= 10 && Rank(d) <= 11
    case Assign(v, op, e) => v.code == VAR && IsAssign(op.code) && LegalC(e)
  }

  /** l op r with l grouped to the right already. */
  function AndRight(l: Tree, op: Token, r: Tree): (t: Tree)
    ensures t.And?
  {
    if l.And? then And(l.l, l.op, AndRight(l.r, op, r)) else And(l, op, r)
  }

  function OrRight(l: Tree, op: Token, r: Tree): (t: Tree)
    ensures t.Or?
  {
    if l.Or? then Or(l.l, l.op, OrRight(l.r, op, r)) else Or(l, op, r)
  }

  /** The tree of the parser for a tree of C. */
  function ToRight(t: Tree): (r: Tree)
    ensures Rank(r) == Rank(t)
  {
    match t
    case Num(_) => t
    case Var(_) => t
    case Paren(a, e, b) => Paren(a, ToRight(e), b)
    case Unary(op, e) => Unary(op, ToRight(e))
    case Binary(l, op, r) => Binary(ToRight(l), op, ToRight(r))
    case And(l, op, r) => AndRight(ToRight(l), op, ToRight(r))
    case Or(l, op, r) => OrRight(ToRight(l), op, ToRight(r))
    case Cond(a, q, b, c, d) => Cond(ToRight(a), q, ToRight(b), c, ToRight(d))
    case Assign(v, op, e) => Assign(v, op, ToRight(e))
  }

  lemma Regrouped(a: seq<Token>, b: seq<Token>, c: seq<Token>, d: seq<Token>, e: seq<Token>)
    ensures a + b + (c + d + e) == a + b + c + d + e
  {
  }

  lemma {:induction false} AndRightLegal(l: Tree, op: Token, r: Tree)
    requires Legal(l) && Legal(r) && op.code == AND && Rank(l) <= 9 && Rank(r) <= 8
    ensures Legal(AndRight(l, op, r)) && Yield(AndRight(l, op, r)) == Yield(And(l, op, r))
    decreases l
  {
    if l.And? {
      AndRightLegal(l.r, op, r);
      Regrouped(Yield(l.l), [l.op], Yield(l.r), [op], Yield(r));
    }
  }

  lemma {:induction false} OrRightLegal(l: Tree, op: Token, r: Tree)
    requires Legal(l) && Legal(r) && op.code == OR && Rank(l) <= 10 && Rank(r) <= 9
    ensures Legal(OrRight(l, op, r)) && Yield(OrRight(l, op, r)) == Yield(Or(l, op, r))
    decreases l
  {
    if l.Or? {
      OrRightLegal(l.r, op, r);
      Regrouped(Yield(l.l), [l.op], Yield(l.r), [op], Yield(r));
    }
  }

  /** Every tree of C has a tree of the parser over the same tokens. */
  lemma {:induction false} ToRightLegal(t: Tree)
    requires LegalC(t)
    ensures Legal(ToRight(t)) && Yield(ToRight(t)) == Yield(t)
    decreases t
  {
    match t
    case Num(_) =>
    case Var(_) =>
    case Paren(_, e, _) => ToRightLegal(e);
    case Unary(_, e) => ToRightLegal(e);
    case Binary(l, _, r) =>
      ToRightLegal(l);
      ToRightLegal(r);
    case And(l, op, r) =>
      ToRightLegal(l);
      ToRightLegal(r);
      AndRightLegal(ToRight(l), op, ToRight(r));
    case Or(l, op, r) =>
      ToRightLegal(l);
      ToRightLegal(r);
      OrRightLegal(ToRight(l), op, ToRight(r));
    case Cond(a, _, b, _, d) =>
      ToRightLegal(a);
      ToRightLegal(b);
      ToRightLegal(d);
    case Assign(_, _, e) => ToRightLegal(e);
  }

  /** The tree of C for a tree of the parser. */
  function ToLeft(t: Tree): (r: Tree)
    ensures Rank(r) == Rank(t)
    decreases t, 0
  {
    match t
    case Num(_) => t
    case Var(_) => t
    case Paren(a, e, b) => Paren(a, ToLeft(e), b)
    case Unary(op, e) => Unary(op, ToLeft(e))
    case Binary(l, op, r) => Binary(ToLeft(l), op, ToLeft(r))
    case And(l, op, r) => AndChain(ToLeft(l), op, r)
    case Or(l, op, r) => OrChain(ToLeft(l), op, r)
    case Cond(a, q, b, c, d) => Cond(ToLeft(a), q, ToLeft(b), c, ToLeft(d))
    case Assign(v, op, e) => Assign(v, op, ToLeft(e))
  }

  /** The operands of a chain r are put under l one by one. */
  function AndChain(l: Tree, op: Token, r: Tree): (t: Tree)
    ensures t.And?
    decreases r, 1
  {
    if r.And? then AndChain(And(l, op, ToLeft(r.l)), r.op, r.r) else And(l, op, ToLeft(r))
  }

  function OrChain(l: Tree, op: Token, r: Tree): (t: Tree)
    ensures t.Or?
    decreases r, 1
  {
    if r.Or? then OrChain(Or(l, op, ToLeft(r.l)), r.op, r.r) else Or(l, op, ToLeft(r))
  }

  /** And every tree of the parser has one of C. */
  lemma {:induction false} ToLeftLegal(t: Tree)
    requires Legal(t)
    ensures LegalC(ToLeft(t)) && Yield(ToLeft(t)) == Yield(t)
    decreases t, 0
  {
    match t
    case Num(_) =>
    case Var(_) =>
    case Paren(_, e, _) => ToLeftLegal(e);
    case Unary(_, e) => ToLeftLegal(e);
    case Binary(l, _, r) =>
      ToLeftLegal(l);
      ToLeftLegal(r);
    case And(l, op, r) =>
      ToLeftLegal(l);
      AndChainLegal(ToLeft(l), op, r);
    case Or(l, op, r) =>
      ToLeftLegal(l);
      OrChainLegal(ToLeft(l), op, r);
    case Cond(a, _, b, _, d) =>
      ToLeftLegal(a);
      ToLeftLegal(b);
      ToLeftLegal(d);
    case Assign(_, _, e) => ToLeftLegal(e);
  }

  lemma {:induction false} AndChainLegal(l: Tree, op: Token, r: Tree)
    requires LegalC(l) && Rank(l) <= 9 && op.code == AND && Legal(r) && Rank(r) <= 9
    ensures LegalC(AndChain(l, op, r)) && Yield(AndChain(l, op, r)) == Yield(l) + [op] + Yield(r)
    decreases r, 1
  {
    hide Yield, ToLeft;
    if r.And? {
      var l2 := And(l, op, ToLeft(r.l));
      ToLeftLegal(r.l);
      AndYield(l, op, ToLeft(r.l));
      AndChainLegal(l2, r.op, r.r);
      Regrouped(Yield(l), [op], Yield(r.l), [r.op], Yield(r.r));
      AndYield(r.l, r.op, r.r);
    } else {
      ToLeftLegal(r);
      AndYield(l, op, ToLeft(r));
    }
  }

  lemma AndYield(l: Tree, op: Token, r: Tree)
    ensures Yield(And(l, op, r)) == Yield(l) + [op] + Yield(r)
  {
  }

  lemma {:induction false} OrChainLegal(l: Tree, op: Token, r: Tree)
    requires LegalC(l) && Rank(l) <= 10 && op.code == OR && Legal(r) && Rank(r) <= 10
    ensures LegalC(OrChain(l, op, r)) && Yield(OrChain(l, op, r)) == Yield(l) + [op] + Yield(r)
    decreases r, 1
  {
    hide Yield, ToLeft;
    if r.Or? {
      var l2 := Or(l, op, ToLeft(r.l));
      ToLeftLegal(r.l);
      OrYield(l, op, ToLeft(r.l));
      OrChainLegal(l2, r.op, r.r);
      Regrouped(Yield(l), [op], Yield(r.l), [r.op], Yield(r.r));
      OrYield(r.l, r.op, r.r);
    } else {
      ToLeftLegal(r);
      OrYield(l, op, ToLeft(r));
    }
  }

  lemma OrYield(l: Tree, op: Token, r: Tree)
    ensures Yield(Or(l, op, r)) == Yield(l) + [op] + Yield(r)
  {
  }

  // ---------------------------------------------------------------- the two ways are inverse to each other

  /** The last operand of a chain ends up on top. */
  lemma {:induction false} AndChainLast(a: Tree, op: Token, l: Tree, op': Token, r: Tree)
    requires !r.And?
    ensures AndChain(a, op, AndRight(l, op', r)) == And(AndChain(a, op, l), op', ToLeft(r))
    decreases l
  {
    if l.And? {
      AndChainLast(And(a, op, ToLeft(l.l)), l.op, l.r, op', r);
    } else {
      assert AndChain(And(a, op, ToLeft(l)), op', r) == And(And(a, op, ToLeft(l)), op', ToLeft(r));
    }
  }

  lemma {:induction false} OrChainLast(a: Tree, op: Token, l: Tree, op': Token, r: Tree)
    requires !r.Or?
    ensures OrChain(a, op, OrRight(l, op', r)) == Or(OrChain(a, op, l), op', ToLeft(r))
    decreases l
  {
    if l.Or? {
      OrChainLast(Or(a, op, ToLeft(l.l)), l.op, l.r, op', r);
    } else {
      assert OrChain(Or(a, op, ToLeft(l)), op', r) == Or(Or(a, op, ToLeft(l)), op', ToLeft(r));
    }
  }

  lemma ToLeftAnd(l: Tree, op: Token, r: Tree)
    requires !r.And?
    ensures ToLeft(AndRight(l, op, r)) == And(ToLeft(l), op, ToLeft(r))
  {
    if l.And? {
      AndChainLast(ToLeft(l.l), l.op, l.r, op, r);
    }
  }

  lemma ToLeftOr(l: Tree, op: Token, r: Tree)
    requires !r.Or?
    ensures ToLeft(OrRight(l, op, r)) == Or(ToLeft(l), op, ToLeft(r))
  {
    if l.Or? {
      OrChainLast(ToLeft(l.l), l.op, l.r, op, r);
    }
  }

  /** A tree of C is recovered from the tree that the parser finds for its tokens. */
  lemma {:induction false} LeftOfRight(t: Tree)
    requires LegalC(t)
    ensures ToLeft(ToRight(t)) == t
    decreases t
  {
    match t
    case Num(_) =>
    case Var(_) =>
    case Paren(_, e, _) => LeftOfRight(e);
    case Unary(_, e) => LeftOfRight(e);
    case Binary(l, _, r) =>
      LeftOfRight(l);
      LeftOfRight(r);
    case And(l, op, r) =>
      LeftOfRight(l);
      LeftOfRight(r);
      ToLeftAnd(ToRight(l), op, ToRight(r));
    case Or(l, op, r) =>
      LeftOfRight(l);
      LeftOfRight(r);
      ToLeftOr(ToRight(l), op, ToRight(r));
    case Cond(a, _, b, _, d) =>
      LeftOfRight(a);
      LeftOfRight(b);
      LeftOfRight(d);
    case Assign(_, _, e) => LeftOfRight(e);
  }

  /** And the other way round. */
  lemma RightOfLeft(t: Tree)
    requires Legal(t)
    ensures ToRight(ToLeft(t)) == t
  {
    hide Legal, Yield, ToRight, ToLeft, LegalC;
    ToLeftLegal(t);
    ToRightLegal(ToLeft(t));
    ParseExact(Yield(t), t);
    ParseExact(Yield(t), ToRight(ToLeft(t)));
  }

  /** The grammar of C is unambiguous. */
  lemma Unambiguous(t: Tree, t': Tree)
    requires LegalC(t) && LegalC(t') && Yield(t) == Yield(t')
    ensures t == t'
  {
    hide Legal, Yield, ToRight, ToLeft, LegalC;
    ToRightLegal(t);
    ToRightLegal(t');
    ParseExact(Yield(t), ToRight(t));
    ParseExact(Yield(t), ToRight(t'));
    LeftOfRight(t);
    LeftOfRight(t');
  }
}
