/** The productions of C for arithmetic expressions, with the operators as they are spelled (section 6.5 of ISO C). */
module ArithProductions {
  import opened G = ArithGrammar
  import opened ArithAssociation
  import opened ArithLexer

  /** The binary operators, from those that bind tightest. */
  const LEVELS: seq<seq<string>> :=
    [["*", "/", "%"], ["+", "-"], ["<<", ">>"], ["<", "<=", ">", ">="], ["==", "!="], ["&"], ["^"], ["|"]]
  const UNARIES: seq<string> := ["+", "-", "!", "~"]
  const ASSIGNMENTS: seq<string> := ["=", "*=", "/=", "%=", "+=", "-=", "<<=", ">>=", "&=", "^=", "|="]

  /** The token that the scanner makes of an operator. */
  function Code(s: string): int {
    if |s| == 1 then One(s[0]) else if |s| == 2 then Two(s[0], s[1])
    else if |s| == 3 then Three(s[0], s[1], s[2]) else 0
  }

  predicate OneOf(t: Token, symbols: seq<string>) {
    exists i :: 0 <= i < |symbols| && t.code == Code(symbols[i])
  }

  // ---------------------------------------------------------------- the productions

  predicate PrimaryExpr(t: Tree, left: bool)
    decreases t, 0
  {
    match t
    case Num(n) => n.code == NUM
    case Var(v) => v.code == VAR
    case Paren(a, e, b) => a.code == Code("(") && Expression(e, left) && b.code == Code(")")
    case _ => false
  }

  predicate UnaryExpr(t: Tree, left: bool)
    decreases t, 1
  {
    PrimaryExpr(t, left) || (t.Unary? && OneOf(t.op, UNARIES) && UnaryExpr(t.e, left))
  }

  /** Multiplicative expressions at level 1, then additive, shift, relational, equality, AND, exclusive OR and OR
      expressions: each has operands of the level below on the right, and of its own on the left. */
  predicate BinaryExpr(level: nat, t: Tree, left: bool)
    requires level <= |LEVELS|
    decreases t, 2, level
  {
    if level == 0 then UnaryExpr(t, left)
    else
      || BinaryExpr(level - 1, t, left)
      || (t.Binary? && OneOf(t.op, LEVELS[level - 1])
          && BinaryExpr(level, t.l, left) && BinaryExpr(level - 1, t.r, left))
  }

  /** left: as in C, where && and || associate to the left; otherwise to the right, as in the parser. */
  predicate AndExpression(t: Tree, left: bool)
    decreases t, 3
  {
    || BinaryExpr(8, t, left)
    || (t.And? && t.op.code == Code("&&")
        && if left then AndExpression(t.l, left) && BinaryExpr(8, t.r, left)
           else BinaryExpr(8, t.l, left) && AndExpression(t.r, left))
  }

  predicate OrExpression(t: Tree, left: bool)
    decreases t, 4
  {
    || AndExpression(t, left)
    || (t.Or? && t.op.code == Code("||")
        && if left then OrExpression(t.l, left) && AndExpression(t.r, left)
           else AndExpression(t.l, left) && OrExpression(t.r, left))
  }

  predicate ConditionalExpr(t: Tree, left: bool)
    decreases t, 5
  {
    || OrExpression(t, left)
    || (t.Cond? && OrExpression(t.test, left) && t.q.code == Code("?") && Expression(t.yes, left)
        && t.colon.code == Code(":") && ConditionalExpr(t.no, left))
  }

  predicate Expression(t: Tree, left: bool)
    decreases t, 6
  {
    || ConditionalExpr(t, left)
    || (t.Assign? && t.v.code == VAR && OneOf(t.op, ASSIGNMENTS) && Expression(t.rhs, left))
  }

  // ---------------------------------------------------------------- the tables of the parser agree with them

  predicate IsTree(t: Tree, left: bool) {
    if left then LegalC(t) else Legal(t)
  }

  lemma UnaryCodes(t: Token)
    ensures OneOf(t, UNARIES) <==> IsUnary(t.code)
  {
    var u := UNARIES;
    assert Code(u[0]) == ADD && Code(u[1]) == SUB && Code(u[2]) == NOT && Code(u[3]) == BNOT;
  }

  lemma AssignmentCodes(t: Token)
    ensures OneOf(t, ASSIGNMENTS) <==> IsAssign(t.code)
  {
    var a := ASSIGNMENTS;
    assert Code(a[0]) == ASS && Code(a[1]) == MULASS && Code(a[2]) == DIVASS && Code(a[3]) == REMASS;
    assert Code(a[4]) == ADDASS && Code(a[5]) == SUBASS && Code(a[6]) == LSHIFTASS && Code(a[7]) == RSHIFTASS;
    assert Code(a[8]) == BANDASS && Code(a[9]) == BXORASS && Code(a[10]) == BORASS;
  }

  lemma LevelCodes(level: nat, t: Token)
    requires level < |LEVELS|
    ensures OneOf(t, LEVELS[level]) <==> IsBinop(t.code) && Prec(t.code) == level
  {
    var l := LEVELS[level];
    if level == 0 {
      assert Code(l[0]) == MUL && Code(l[1]) == DIV && Code(l[2]) == REM;
    } else if level == 1 {
      assert Code(l[0]) == ADD && Code(l[1]) == SUB;
    } else if level == 2 {
      assert Code(l[0]) == LSHIFT && Code(l[1]) == RSHIFT;
    } else if level == 3 {
      assert Code(l[0]) == LT && Code(l[1]) == LE && Code(l[2]) == GT && Code(l[3]) == GE;
    } else if level == 4 {
      assert Code(l[0]) == EQ && Code(l[1]) == NE;
    } else {
      assert Code(l[0]) == if level == 5 then BAND else if level == 6 then BXOR else BOR;
    }
  }

  lemma OtherCodes()
    ensures Code("(") == LPAREN && Code(")") == RPAREN && Code("?") == QMARK && Code(":") == COLON
    ensures Code("&&") == AND && Code("||") == OR
  {
  }

  // ---------------------------------------------------------------- the grammar by ranks is the grammar by productions

  lemma {:induction false} PrimaryIs(t: Tree, left: bool)
    ensures PrimaryExpr(t, left) <==> IsTree(t, left) && (t.Num? || t.Var? || t.Paren?)
    decreases t, 0
  {
    OtherCodes();
    if t.Paren? {
      ExpressionIs(t.e, left);
    }
  }

  lemma {:induction false} UnaryIs(t: Tree, left: bool)
    ensures UnaryExpr(t, left) <==> IsTree(t, left) && Rank(t) == 0
    decreases t, 1
  {
    hide OneOf, PrimaryExpr;
    PrimaryIs(t, left);
    if t.Unary? {
      UnaryCodes(t.op);
      UnaryIs(t.e, left);
    }
  }

  lemma {:induction false} BinaryIs(level: nat, t: Tree, left: bool)
    requires level <= 8
    ensures BinaryExpr(level, t, left) <==> IsTree(t, left) && Rank(t) <= level
    decreases t, 2, level
  {
    hide OneOf, UnaryExpr;
    if level == 0 {
      UnaryIs(t, left);
    } else {
      BinaryIs(level - 1, t, left);
      if t.Binary? {
        LevelCodes(level - 1, t.op);
        BinaryIs(level, t.l, left);
        BinaryIs(level - 1, t.r, left);
      }
    }
  }

  lemma {:induction false} AndIs(t: Tree, left: bool)
    ensures AndExpression(t, left) <==> IsTree(t, left) && Rank(t) <= 9
    decreases t, 3
  {
    hide BinaryExpr;
    OtherCodes();
    BinaryIs(8, t, left);
    if t.And? {
      AndIs(t.l, left);
      AndIs(t.r, left);
      BinaryIs(8, t.l, left);
      BinaryIs(8, t.r, left);
    }
  }

  lemma {:induction false} OrIs(t: Tree, left: bool)
    ensures OrExpression(t, left) <==> IsTree(t, left) && Rank(t) <= 10
    decreases t, 4
  {
    hide AndExpression;
    OtherCodes();
    AndIs(t, left);
    if t.Or? {
      OrIs(t.l, left);
      OrIs(t.r, left);
      AndIs(t.l, left);
      AndIs(t.r, left);
    }
  }

  lemma {:induction false} ConditionalIs(t: Tree, left: bool)
    ensures ConditionalExpr(t, left) <==> IsTree(t, left) && Rank(t) <= 11
    decreases t, 5
  {
    hide OrExpression, Expression;
    OtherCodes();
    OrIs(t, left);
    if t.Cond? {
      OrIs(t.test, left);
      ExpressionIs(t.yes, left);
      ConditionalIs(t.no, left);
    }
  }

  /** The trees of the parser, and those of C, are exactly the expressions of the productions. */
  lemma {:induction false} ExpressionIs(t: Tree, left: bool)
    ensures Expression(t, left) <==> IsTree(t, left)
    decreases t, 6
  {
    hide ConditionalExpr, OneOf;
    ConditionalIs(t, left);
    if t.Assign? {
      AssignmentCodes(t.op);
      ExpressionIs(t.rhs, left);
    }
  }

  // ---------------------------------------------------------------- what that means for the parse

  /** The parser accepts exactly the expressions of the productions. */
  lemma ParsesExpressions(ts: seq<Token>, t: Tree)
    ensures Expression(t, false) && Yield(t) == ts <==> Assignment(ts, 0) == Got(t, |ts|)
  {
    hide Expression, Assignment, Legal, Yield;
    ExpressionIs(t, false);
    ParseExact(ts, t);
  }

  /** Of two binary operators in a row the one that binds tighter is grouped first, whichever comes first, and of two
      at the same level the left one. */
  lemma Grouped(i: nat, j: nat, a: Tree, op: Token, b: Tree, op': Token, c: Tree)
    requires i < |LEVELS| && j < |LEVELS| && OneOf(op, LEVELS[i]) && OneOf(op', LEVELS[j])
    requires UnaryExpr(a, false) && UnaryExpr(b, false) && UnaryExpr(c, false)
    ensures
      var ts := Yield(a) + [op] + Yield(b) + [op'] + Yield(c);
      && (i <= j ==> Assignment(ts, 0) == Got(Binary(Binary(a, op, b), op', c), |ts|))
      && (i > j ==> Assignment(ts, 0) == Got(Binary(a, op, Binary(b, op', c)), |ts|))
  {
    hide OneOf, UnaryExpr, Assignment;
    LevelCodes(i, op);
    LevelCodes(j, op');
    UnaryIs(a, false);
    UnaryIs(b, false);
    UnaryIs(c, false);
    var t := if i <= j then Binary(Binary(a, op, b), op', c) else Binary(a, op, Binary(b, op', c));
    var ts := Yield(a) + [op] + Yield(b) + [op'] + Yield(c);
    GroupedYield(a, op, b, op', c);
    LegalParts(t);
    LegalParts(Binary(a, op, b));
    LegalParts(Binary(b, op', c));
    hide Legal, Yield;
    ParseExact(ts, t);
  }

  lemma GroupedYield(a: Tree, op: Token, b: Tree, op': Token, c: Tree)
    ensures
      var ts := Yield(a) + [op] + Yield(b) + [op'] + Yield(c);
      Yield(Binary(Binary(a, op, b), op', c)) == ts == Yield(Binary(a, op, Binary(b, op', c)))
  {
    YieldOfBinary(Binary(a, op, b), op', c);
    YieldOfBinary(a, op, b);
    YieldOfBinary(a, op, Binary(b, op', c));
    YieldOfBinary(b, op', c);
    hide Yield;
    Regrouped(Yield(a), [op], Yield(b), [op'], Yield(c));
  }

  lemma YieldOfBinary(a: Tree, op: Token, b: Tree)
    ensures Yield(Binary(a, op, b)) == Yield(a) + [op] + Yield(b)
  {
  }
}
