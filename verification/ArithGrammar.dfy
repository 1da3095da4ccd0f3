/** The grammar of shell arithmetic: trees, their token sequences, and the precedence-climbing parse. */
module ArithGrammar {

  const ASS := 1
  const OR := 2
  const AND := 3
  const NUM := 5
  const VAR := 6
  const NOT := 7
  const BINOP_MIN := 8
  const LE := 8
  const GE := 9
  const LT := 10
  const GT := 11
  const EQ := 12
  const REM := 13
  const BAND := 14
  const LSHIFT := 15
  const RSHIFT := 16
  const MUL := 17
  const ADD := 18
  const BOR := 19
  const SUB := 20
  const BXOR := 21
  const DIV := 22
  const NE := 23
  const BINOP_MAX := 24
  const ASS_MIN := 24
  const ASS_MAX := 34
  const LPAREN := 34
  const RPAREN := 35
  const BNOT := 36
  const QMARK := 37
  const COLON := 38
  const MAX_PREC := 8

  /** The end of the input is token 0. */
  datatype Token = Token(code: int, num: int, name: string)

  const END := Token(0, 0, "")

  function At(ts: seq<Token>, i: nat): Token {
    if i < |ts| then ts[i] else END
  }

  predicate IsBinop(code: int) {
    BINOP_MIN <= code < BINOP_MAX
  }

  predicate IsAssign(code: int) {
    code == ASS || ASS_MIN <= code < ASS_MAX
  }

  predicate IsUnary(code: int) {
    code == ADD || code == SUB || code == NOT || code == BNOT
  }

  /** The precedence table; smaller binds tighter. */
  function Prec(code: int): nat
    requires IsBinop(code)
  {
    if code == MUL || code == DIV || code == REM then 0
    else if code == ADD || code == SUB then 1
    else if code == LSHIFT || code == RSHIFT then 2
    else if code == LT || code == LE || code == GT || code == GE then 3
    else if code == EQ || code == NE then 4
    else if code == BAND then 5
    else if code == BXOR then 6
    else 7
  }

  // ---------------------------------------------------------------- trees

  datatype Tree =
    | Num(num: Token)
    | Var(v: Token)
    | Paren(open: Token, e: Tree, close: Token)
    | Unary(op: Token, e: Tree)
    | Binary(l: Tree, op: Token, r: Tree)
    | And(l: Tree, op: Token, r: Tree)
    | Or(l: Tree, op: Token, r: Tree)
    | Cond(test: Tree, q: Token, yes: Tree, colon: Token, no: Tree)
    | Assign(v: Token, op: Token, rhs: Tree)

  /** The production a tree comes from: 0 for primaries and unary operators, 1 to 8 for the binary operators from * to
      |, then &&, ||, ?: and assignment. */
  function Rank(t: Tree): nat {
    match t
    case Num(_) => 0
    case Var(_) => 0
    case Paren(_, _, _) => 0
    case Unary(_, _) => 0
    case Binary(_, op, _) => if IsBinop(op.code) then 1 + Prec(op.code) else 0
    case And(_, _, _) => 9
    case Or(_, _, _) => 10
    case Cond(_, _, _, _, _) => 11
    case Assign(_, _, _) => 12
  }

  /** A tree of the stratified grammar of C. Binary operators associate to the left, assignments and ?: to the right,
      and so do && and ||, for which it makes no difference. */
  predicate Legal(t: Tree) {
    match t
    case Num(n) => n.code == NUM
    case Var(v) => v.code == VAR
    case Paren(a, e, b) => a.code == LPAREN && Legal(e) && b.code == RPAREN
    case Unary(op, e) => IsUnary(op.code) && Legal(e) && Rank(e) == 0
    case Binary(l, op, r) =>
      IsBinop(op.code) && Legal(l) && Legal(r) && Rank(l) <= Rank(t) && Rank(r) < Rank(t)
    case And(l, op, r) => op.code == AND && Legal(l) && Legal(r) && Rank(l) <= 8 && Rank(r) <= 9
    case Or(l, op, r) => op.code == OR && Legal(l) && Legal(r) && Rank(l) <= 9 && Rank(r) <= 10
    case Cond(a, q, b, c, d) =>
      q.code == QMARK && c.code == COLON && Legal(a) && Legal(b) && Legal(d) && Rank(a) <= 10 && Rank(d) <= 11
    case Assign(v, op, e) => v.code == VAR && IsAssign(op.code) && Legal(e)
  }

  /** The tokens of a tree. */
  function Yield(t: Tree): (ts: seq<Token>)
    ensures |ts| > 0
  {
    match t
    case Num(n) => [n]
    case Var(v) => [v]
    case Paren(a, e, b) => [a] + Yield(e) + [b]
    case Unary(op, e) => [op] + Yield(e)
    case Binary(l, op, r) => Yield(l) + [op] + Yield(r)
    case And(l, op, r) => Yield(l) + [op] + Yield(r)
    case Or(l, op, r) => Yield(l) + [op] + Yield(r)
    case Cond(a, q, b, c, d) => Yield(a) + [q] + Yield(b) + [c] + Yield(d)
    case Assign(v, op, e) => [v, op] + Yield(e)
  }

  // ---------------------------------------------------------------- the parse

  /** A tree and the index of the token after it. */
  datatype Parse = Fail | Got(t: Tree, next: nat)

  predicate Within(ts: seq<Token>, i: nat, p: Parse) {
    p.Got? ==> i < p.next <= |ts|
  }

  function Primary(ts: seq<Token>, i: nat): (p: Parse)
    ensures Within(ts, i, p)
    decreases |ts| - i, 0
  {
    var c := At(ts, i).code;
    if i >= |ts| then Fail
    else if c == NUM then Got(Num(ts[i]), i + 1)
    else if c == VAR then Got(Var(ts[i]), i + 1)
    else if c == LPAREN then
      var p := Assignment(ts, i + 1);
      if p.Got? && At(ts, p.next).code == RPAREN then Got(Paren(ts[i], p.t, ts[p.next]), p.next + 1) else Fail
    else if IsUnary(c) then
      var p := Primary(ts, i + 1);
      if p.Got? then Got(Unary(ts[i], p.t), p.next) else Fail
    else Fail
  }

  /** Operators that bind tighter than limit, from the one at i on, with a their first operand. */
  function Climb(ts: seq<Token>, a: Tree, i: nat, limit: nat): (p: Parse)
    requires IsBinop(At(ts, i).code)
    ensures Within(ts, i, p)
    decreases |ts| - i
  {
    var op := At(ts, i);
    var b := Primary(ts, i + 1);
    if b.Fail? then Fail
    else
      var c := if Tighter(At(ts, b.next).code, Prec(op.code)) then Climb(ts, b.t, b.next, Prec(op.code)) else b;
      if c.Fail? then Fail
      else
        var d := Binary(a, op, c.t);
        if Tighter(At(ts, c.next).code, limit) then Climb(ts, d, c.next, limit) else Got(d, c.next)
  }

  predicate Tighter(code: int, limit: nat) {
    IsBinop(code) && Prec(code) < limit
  }

  function Binop(ts: seq<Token>, i: nat): (p: Parse)
    ensures Within(ts, i, p)
    decreases |ts| - i, 1
  {
    var a := Primary(ts, i);
    if a.Got? && IsBinop(At(ts, a.next).code) then Climb(ts, a.t, a.next, MAX_PREC) else a
  }

  function AndExpr(ts: seq<Token>, i: nat): (p: Parse)
    ensures Within(ts, i, p)
    decreases |ts| - i, 2
  {
    var a := Binop(ts, i);
    if a.Got? && At(ts, a.next).code == AND then
      var b := AndExpr(ts, a.next + 1);
      if b.Got? then Got(And(a.t, ts[a.next], b.t), b.next) else Fail
    else a
  }

  function OrExpr(ts: seq<Token>, i: nat): (p: Parse)
    ensures Within(ts, i, p)
    decreases |ts| - i, 3
  {
    var a := AndExpr(ts, i);
    if a.Got? && At(ts, a.next).code == OR then
      var b := OrExpr(ts, a.next + 1);
      if b.Got? then Got(Or(a.t, ts[a.next], b.t), b.next) else Fail
    else a
  }

  function CondExpr(ts: seq<Token>, i: nat): (p: Parse)
    ensures Within(ts, i, p)
    decreases |ts| - i, 4
  {
    var a := OrExpr(ts, i);
    if a.Got? && At(ts, a.next).code == QMARK then
      var b := Assignment(ts, a.next + 1);
      if b.Got? && At(ts, b.next).code == COLON then
        var c := CondExpr(ts, b.next + 1);
        if c.Got? then Got(Cond(a.t, ts[a.next], b.t, ts[b.next], c.t), c.next) else Fail
      else Fail
    else a
  }

  function Assignment(ts: seq<Token>, i: nat): (p: Parse)
    ensures Within(ts, i, p)
    decreases |ts| - i, 5
  {
    if At(ts, i).code == VAR && IsAssign(At(ts, i + 1).code) then
      var r := Assignment(ts, i + 2);
      if r.Got? then Got(Assign(ts[i], ts[i + 1], r.t), r.next) else Fail
    else CondExpr(ts, i)
  }

  // ---------------------------------------------------------------- what is parsed is legal

  ghost predicate Covers(ts: seq<Token>, i: nat, p: Parse, rank: nat) {
    p.Got? ==> i < p.next <= |ts| && Legal(p.t) && Rank(p.t) <= rank && ts[i..p.next] == Yield(p.t)
  }

  lemma Pieces(ts: seq<Token>, i: nat, j: nat, k: nat)
    requires i <= j <= k <= |ts|
    ensures ts[i..k] == ts[i..j] + ts[j..k]
    ensures j < k ==> ts[j..k] == [ts[j]] + ts[j + 1..k]
  {
  }

  lemma {:induction false} PrimarySound(ts: seq<Token>, i: nat)
    ensures Covers(ts, i, Primary(ts, i), 0)
    decreases |ts| - i, 0
  {
    hide Assignment, Legal, Yield;
    var c := At(ts, i).code;
    if i < |ts| {
      if c == LPAREN {
        AssignmentSound(ts, i + 1);
        var p := Assignment(ts, i + 1);
        if p.Got? && At(ts, p.next).code == RPAREN {
          ParenYield(ts, i, p.next, p.t);
          LegalParts(Paren(ts[i], p.t, ts[p.next]));
        }
      } else if c != NUM && c != VAR && IsUnary(c) {
        PrimarySound(ts, i + 1);
        var p := Primary(ts, i + 1);
        if p.Got? {
          UnaryYield(ts, i, p.next, p.t);
          LegalParts(Unary(ts[i], p.t));
        }
      } else {
        LeafYield(ts, i);
        LegalParts(Num(ts[i]));
        LegalParts(Var(ts[i]));
      }
    }
  }

  lemma LeafYield(ts: seq<Token>, i: nat)
    requires i < |ts|
    ensures ts[i..i + 1] == Yield(Num(ts[i])) == Yield(Var(ts[i]))
  {
  }

  lemma ParenYield(ts: seq<Token>, i: nat, j: nat, e: Tree)
    requires i < j < |ts| && ts[i + 1..j] == Yield(e)
    ensures ts[i..j + 1] == Yield(Paren(ts[i], e, ts[j]))
  {
    Pieces(ts, i, i + 1, j + 1);
    Pieces(ts, i + 1, j, j + 1);
  }

  lemma UnaryYield(ts: seq<Token>, i: nat, k: nat, e: Tree)
    requires i < k <= |ts| && ts[i + 1..k] == Yield(e)
    ensures ts[i..k] == Yield(Unary(ts[i], e))
  {
    Pieces(ts, i, i, k);
  }

  /** Legality, one level deep. */
  lemma LegalParts(t: Tree)
    ensures Legal(t) <==>
            match t
            case Num(n) => n.code == NUM
            case Var(v) => v.code == VAR
            case Paren(a, e, b) => a.code == LPAREN && Legal(e) && b.code == RPAREN
            case Unary(op, e) => IsUnary(op.code) && Legal(e) && Rank(e) == 0
            case Binary(l, op, r) =>
              IsBinop(op.code) && Legal(l) && Legal(r) && Rank(l) <= Rank(t) && Rank(r) < Rank(t)
            case And(l, op, r) => op.code == AND && Legal(l) && Legal(r) && Rank(l) <= 8 && Rank(r) <= 9
            case Or(l, op, r) => op.code == OR && Legal(l) && Legal(r) && Rank(l) <= 9 && Rank(r) <= 10
            case Cond(a, q, b, c, d) =>
              q.code == QMARK && c.code == COLON && Legal(a) && Legal(b) && Legal(d) && Rank(a) <= 10 && Rank(d) <= 11
            case Assign(v, op, e) => v.code == VAR && IsAssign(op.code) && Legal(e)
  {
  }

  lemma {:induction false} ClimbSound(ts: seq<Token>, a: Tree, s: nat, i: nat, limit: nat)
    requires s <= i < |ts| && Tighter(ts[i].code, limit) && limit <= MAX_PREC
    requires Legal(a) && ts[s..i] == Yield(a) && Rank(a) <= 1 + Prec(ts[i].code)
    ensures Covers(ts, s, Climb(ts, a, i, limit), limit)
    decreases |ts| - i
  {
    hide Legal, Primary, Yield;
    var op := ts[i];
    PrimarySound(ts, i + 1);
    var b := Primary(ts, i + 1);
    if b.Got? {
      var c := b;
      if Tighter(At(ts, b.next).code, Prec(op.code)) {
        ClimbSound(ts, b.t, i + 1, b.next, Prec(op.code));
        c := Climb(ts, b.t, b.next, Prec(op.code));
      }
      if c.Got? {
        var d := Binary(a, op, c.t);
        LegalParts(d);
        BinaryYield(ts, s, i, c.next, a, c.t);
        if Tighter(At(ts, c.next).code, limit) {
          ClimbStops(ts, b.t, b.next, Prec(op.code));
          ClimbSound(ts, d, s, c.next, limit);
        }
      }
    }
  }

  lemma BinaryYield(ts: seq<Token>, s: nat, i: nat, k: nat, a: Tree, b: Tree)
    requires s <= i < k <= |ts| && ts[s..i] == Yield(a) && ts[i + 1..k] == Yield(b)
    ensures ts[s..k] == Yield(a) + [ts[i]] + Yield(b)
    ensures ts[s..k] == Yield(Binary(a, ts[i], b)) && ts[s..k] == Yield(And(a, ts[i], b))
    ensures ts[s..k] == Yield(Or(a, ts[i], b))
  {
    Pieces(ts, s, i, k);
  }

  /** A climb ends before an operator that does not bind tighter than its limit. */
  lemma {:induction false} ClimbStops(ts: seq<Token>, a: Tree, i: nat, limit: nat)
    ensures IsBinop(At(ts, i).code) ==>
              var p := Climb(ts, a, i, limit);
              p.Got? ==> !Tighter(At(ts, p.next).code, limit)
    decreases |ts| - i
  {
    hide Primary;
    if IsBinop(At(ts, i).code) {
      var op := At(ts, i);
      var b := Primary(ts, i + 1);
      if b.Got? {
        var c := if Tighter(At(ts, b.next).code, Prec(op.code)) then Climb(ts, b.t, b.next, Prec(op.code)) else b;
        if c.Got? {
          ClimbStops(ts, Binary(a, op, c.t), c.next, limit);
        }
      }
    }
  }

  lemma {:induction false} BinopSound(ts: seq<Token>, i: nat)
    ensures Covers(ts, i, Binop(ts, i), 8)
    decreases |ts| - i, 1
  {
    hide Legal, Primary, Climb;
    PrimarySound(ts, i);
    var a := Primary(ts, i);
    if a.Got? && IsBinop(At(ts, a.next).code) {
      ClimbSound(ts, a.t, i, a.next, MAX_PREC);
    }
  }

  lemma {:induction false} AndSound(ts: seq<Token>, i: nat)
    ensures Covers(ts, i, AndExpr(ts, i), 9)
    decreases |ts| - i, 2
  {
    hide Legal, Binop, Yield;
    BinopSound(ts, i);
    var a := Binop(ts, i);
    if a.Got? && At(ts, a.next).code == AND {
      AndSound(ts, a.next + 1);
      var b := AndExpr(ts, a.next + 1);
      if b.Got? {
        LegalParts(And(a.t, ts[a.next], b.t));
        BinaryYield(ts, i, a.next, b.next, a.t, b.t);
      }
    }
  }

  lemma {:induction false} OrSound(ts: seq<Token>, i: nat)
    ensures Covers(ts, i, OrExpr(ts, i), 10)
    decreases |ts| - i, 3
  {
    hide Legal, AndExpr, Yield;
    AndSound(ts, i);
    var a := AndExpr(ts, i);
    if a.Got? && At(ts, a.next).code == OR {
      OrSound(ts, a.next + 1);
      var b := OrExpr(ts, a.next + 1);
      if b.Got? {
        LegalParts(Or(a.t, ts[a.next], b.t));
        BinaryYield(ts, i, a.next, b.next, a.t, b.t);
      }
    }
  }

  lemma {:induction false} CondSound(ts: seq<Token>, i: nat)
    ensures Covers(ts, i, CondExpr(ts, i), 11)
    decreases |ts| - i, 4
  {
    hide Legal, OrExpr, Assignment, Yield;
    OrSound(ts, i);
    var a := OrExpr(ts, i);
    if a.Got? && At(ts, a.next).code == QMARK {
      AssignmentSound(ts, a.next + 1);
      var b := Assignment(ts, a.next + 1);
      if b.Got? && At(ts, b.next).code == COLON {
        CondSound(ts, b.next + 1);
        var c := CondExpr(ts, b.next + 1);
        if c.Got? {
          LegalParts(Cond(a.t, ts[a.next], b.t, ts[b.next], c.t));
          CondYield(ts, i, a.next, b.next, c.next, a.t, b.t, c.t);
        }
      }
    }
  }

  lemma CondYield(ts: seq<Token>, s: nat, i: nat, j: nat, k: nat, a: Tree, b: Tree, c: Tree)
    requires s <= i < j < k <= |ts|
    requires ts[s..i] == Yield(a) && ts[i + 1..j] == Yield(b) && ts[j + 1..k] == Yield(c)
    ensures ts[s..k] == Yield(Cond(a, ts[i], b, ts[j], c))
  {
    BinaryYield(ts, s, i, j, a, b);
    Pieces(ts, s, j, k);
  }

  lemma {:induction false} AssignmentSound(ts: seq<Token>, i: nat)
    ensures Covers(ts, i, Assignment(ts, i), 12)
    decreases |ts| - i, 5
  {
    hide Legal, CondExpr, Yield;
    if At(ts, i).code == VAR && IsAssign(At(ts, i + 1).code) {
      AssignmentSound(ts, i + 2);
      var r := Assignment(ts, i + 2);
      if r.Got? {
        LegalParts(Assign(ts[i], ts[i + 1], r.t));
        AssignYield(ts, i, r.next, r.t);
      }
    } else {
      CondSound(ts, i);
    }
  }

  lemma AssignYield(ts: seq<Token>, i: nat, k: nat, e: Tree)
    requires i + 1 < k <= |ts| && ts[i + 2..k] == Yield(e)
    ensures ts[i..k] == Yield(Assign(ts[i], ts[i + 1], e))
  {
    assert Yield(Assign(ts[i], ts[i + 1], e)) == [ts[i], ts[i + 1]] + Yield(e);
    hide Yield;
    assert ts[i..k] == [ts[i], ts[i + 1]] + ts[i + 2..k];
  }

  // ---------------------------------------------------------------- what is legal is parsed

  ghost predicate Has(ts: seq<Token>, i: nat, y: seq<Token>) {
    i + |y| <= |ts| && ts[i..i + |y|] == y
  }

  /** The tree's tokens lie at i. */
  ghost predicate Lies(ts: seq<Token>, i: nat, t: Tree) {
    Has(ts, i, Yield(t))
  }

  function EndOf(i: nat, t: Tree): nat {
    i + |Yield(t)|
  }

  lemma HasParts(ts: seq<Token>, i: nat, y: seq<Token>, z: seq<Token>)
    requires Has(ts, i, y + z)
    ensures Has(ts, i, y) && Has(ts, i + |y|, z)
  {
    var s := ts[i..i + |y + z|];
    assert ts[i..i + |y|] == s[..|y|];
    assert ts[i + |y|..i + |y| + |z|] == s[|y|..];
  }

  lemma HasOne(ts: seq<Token>, i: nat, op: Token)
    requires Has(ts, i, [op])
    ensures i < |ts| && ts[i] == op
  {
    assert ts[i] == ts[i..i + 1][0];
  }

  lemma LiesSplit(ts: seq<Token>, i: nat, l: Tree, op: Token, r: Tree)
    requires Has(ts, i, Yield(l) + [op] + Yield(r))
    ensures Lies(ts, i, l) && EndOf(i, l) < |ts| && ts[EndOf(i, l)] == op && Lies(ts, EndOf(i, l) + 1, r)
  {
    hide Yield, Has;
    HasParts(ts, i, Yield(l) + [op], Yield(r));
    HasParts(ts, i, Yield(l), [op]);
    HasOne(ts, i + |Yield(l)|, op);
  }

  /** The first operand and what follows it at a limit. */
  function UpTo(ts: seq<Token>, i: nat, limit: nat): Parse {
    var a := Primary(ts, i);
    if a.Got? && Tighter(At(ts, a.next).code, limit) then Climb(ts, a.t, a.next, limit) else a
  }

  lemma {:induction false} PrimaryComplete(ts: seq<Token>, i: nat, t: Tree)
    requires Lies(ts, i, t) && Legal(t) && Rank(t) == 0
    ensures Primary(ts, i) == Got(t, EndOf(i, t))
    decreases t, 0
  {
    hide Assignment;
    match t
    case Num(n) => assert ts[i] == ts[i..i + 1][0];
    case Var(v) => assert ts[i] == ts[i..i + 1][0];
    case Paren(a, e, b) =>
      ParenLies(ts, i, a, e, b);
      Complete(ts, i + 1, e);
    case Unary(op, e) =>
      UnaryLies(ts, i, op, e);
      PrimaryComplete(ts, i + 1, e);
    case Binary(l, op, r) => assert false;
  }

  lemma ParenLies(ts: seq<Token>, i: nat, a: Token, e: Tree, b: Token)
    requires Lies(ts, i, Paren(a, e, b))
    ensures ts[i] == a && Lies(ts, i + 1, e) && EndOf(i + 1, e) < |ts| && ts[EndOf(i + 1, e)] == b
    ensures EndOf(i, Paren(a, e, b)) == EndOf(i + 1, e) + 1
  {
    HasParts(ts, i, [a] + Yield(e), [b]);
    HasParts(ts, i, [a], Yield(e));
    HasOne(ts, i, a);
    HasOne(ts, i + 1 + |Yield(e)|, b);
  }

  lemma UnaryLies(ts: seq<Token>, i: nat, op: Token, e: Tree)
    requires Lies(ts, i, Unary(op, e))
    ensures ts[i] == op && Lies(ts, i + 1, e) && EndOf(i, Unary(op, e)) == EndOf(i + 1, e)
  {
    HasParts(ts, i, [op], Yield(e));
    HasOne(ts, i, op);
  }

  lemma ClimbIs(ts: seq<Token>, a: Tree, i: nat, limit: nat)
    requires IsBinop(At(ts, i).code)
    ensures
      var c := UpTo(ts, i + 1, Prec(At(ts, i).code));
      Climb(ts, a, i, limit)
      == if c.Fail? then Fail
         else
           var d := Binary(a, At(ts, i), c.t);
           if Tighter(At(ts, c.next).code, limit) then Climb(ts, d, c.next, limit) else Got(d, c.next)
  {
    hide Primary;
  }

  /** Climbing finds a tree of binary operators, and is then where it would be with that tree as first operand. */
  lemma {:induction false} ClimbComplete(ts: seq<Token>, i: nat, t: Tree, limit: nat)
    requires Lies(ts, i, t) && Legal(t) && Rank(t) <= limit <= MAX_PREC
    requires var c := At(ts, EndOf(i, t)).code; IsBinop(c) ==> Prec(c) + 1 >= Rank(t)
    ensures
      var k := EndOf(i, t);
      UpTo(ts, i, limit) == if Tighter(At(ts, k).code, limit) then Climb(ts, t, k, limit) else Got(t, k)
    decreases t, 1
  {
    hide Primary, Yield, Legal, Climb;
    if Rank(t) == 0 {
      PrimaryComplete(ts, i, t);
    } else {
      LegalParts(t);
      var l, op, r := t.l, t.op, t.r;
      BinaryLies(ts, i, l, op, r);
      var j, k := EndOf(i, l), EndOf(i, t);
      ClimbComplete(ts, i, l, limit);
      ClimbComplete(ts, j + 1, r, Prec(op.code));
      ClimbIs(ts, l, j, limit);
    }
  }

  lemma BinaryLies(ts: seq<Token>, i: nat, l: Tree, op: Token, r: Tree)
    requires Lies(ts, i, Binary(l, op, r)) || Lies(ts, i, And(l, op, r)) || Lies(ts, i, Or(l, op, r))
    ensures Lies(ts, i, l) && EndOf(i, l) < |ts| && ts[EndOf(i, l)] == op && Lies(ts, EndOf(i, l) + 1, r)
    ensures EndOf(EndOf(i, l) + 1, r) == EndOf(i, Binary(l, op, r)) == EndOf(i, And(l, op, r)) == EndOf(i, Or(l, op, r))
  {
    LiesSplit(ts, i, l, op, r);
  }

  lemma {:induction false} BinopComplete(ts: seq<Token>, i: nat, t: Tree)
    requires Lies(ts, i, t) && Legal(t) && Rank(t) <= 8 && !IsBinop(At(ts, EndOf(i, t)).code)
    ensures Binop(ts, i) == Got(t, EndOf(i, t))
    decreases t, 2
  {
    hide Primary, Climb, Legal, Yield;
    ClimbComplete(ts, i, t, MAX_PREC);
    assert Binop(ts, i) == UpTo(ts, i, MAX_PREC);
  }

  lemma {:induction false} AndComplete(ts: seq<Token>, i: nat, t: Tree)
    requires Lies(ts, i, t) && Legal(t) && Rank(t) <= 9
    requires var c := At(ts, EndOf(i, t)).code; !IsBinop(c) && c != AND
    ensures AndExpr(ts, i) == Got(t, EndOf(i, t))
    decreases t, 3
  {
    hide Binop, Yield, Legal;
    LegalParts(t);
    if t.And? {
      BinaryLies(ts, i, t.l, t.op, t.r);
      BinopComplete(ts, i, t.l);
      AndComplete(ts, EndOf(i, t.l) + 1, t.r);
    } else {
      BinopComplete(ts, i, t);
    }
  }

  lemma {:induction false} OrComplete(ts: seq<Token>, i: nat, t: Tree)
    requires Lies(ts, i, t) && Legal(t) && Rank(t) <= 10
    requires var c := At(ts, EndOf(i, t)).code; !IsBinop(c) && c != AND && c != OR
    ensures OrExpr(ts, i) == Got(t, EndOf(i, t))
    decreases t, 4
  {
    hide AndExpr, Yield, Legal;
    LegalParts(t);
    if t.Or? {
      BinaryLies(ts, i, t.l, t.op, t.r);
      AndComplete(ts, i, t.l);
      OrComplete(ts, EndOf(i, t.l) + 1, t.r);
    } else {
      AndComplete(ts, i, t);
    }
  }

  lemma {:induction false} CondComplete(ts: seq<Token>, i: nat, t: Tree)
    requires Lies(ts, i, t) && Legal(t) && Rank(t) <= 11
    requires var c := At(ts, EndOf(i, t)).code; !IsBinop(c) && c != AND && c != OR && c != QMARK
    ensures CondExpr(ts, i) == Got(t, EndOf(i, t))
    decreases t, 5
  {
    hide OrExpr, Assignment, Yield, Legal;
    LegalParts(t);
    if t.Cond? {
      CondLies(ts, i, t.test, t.q, t.yes, t.colon, t.no);
      OrComplete(ts, i, t.test);
      var j := EndOf(i, t.test) + 1;
      Complete(ts, j, t.yes);
      CondComplete(ts, EndOf(j, t.yes) + 1, t.no);
    } else {
      OrComplete(ts, i, t);
    }
  }

  lemma YieldOfCond(a: Tree, q: Token, b: Tree, c: Token, d: Tree)
    ensures Yield(Cond(a, q, b, c, d)) == Yield(a) + [q] + Yield(b) + [c] + Yield(d)
  {
  }

  lemma CondLies(ts: seq<Token>, i: nat, a: Tree, q: Token, b: Tree, c: Token, d: Tree)
    requires Lies(ts, i, Cond(a, q, b, c, d))
    ensures Lies(ts, i, a) && EndOf(i, a) < |ts| && ts[EndOf(i, a)] == q
    ensures
      var j := EndOf(i, a) + 1;
      && Lies(ts, j, b) && EndOf(j, b) < |ts| && ts[EndOf(j, b)] == c && Lies(ts, EndOf(j, b) + 1, d)
      && EndOf(EndOf(j, b) + 1, d) == EndOf(i, Cond(a, q, b, c, d))
  {
    hide Yield, Has;
    YieldOfCond(a, q, b, c, d);
    HasParts(ts, i, Yield(a) + [q] + Yield(b) + [c], Yield(d));
    HasParts(ts, i, Yield(a) + [q] + Yield(b), [c]);
    HasOne(ts, i + |Yield(a) + [q] + Yield(b)|, c);
    LiesSplit(ts, i, a, q, b);
  }

  /** Only an assignment starts with a variable and an assignment operator. */
  lemma {:induction false} StartsAssignment(t: Tree)
    requires Legal(t) && Rank(t) <= 11
    ensures |Yield(t)| > 1 ==> !(Yield(t)[0].code == VAR && IsAssign(Yield(t)[1].code))
    ensures |Yield(t)| == 1 && Yield(t)[0].code == VAR ==> t.Var?
    decreases t
  {
    match t
    case Binary(l, op, r) => StartsAssignment(l);
    case And(l, op, r) => StartsAssignment(l);
    case Or(l, op, r) => StartsAssignment(l);
    case Cond(a, q, b, c, d) => StartsAssignment(a);
    case _ =>
  }

  /** What may follow a whole expression. */
  predicate Follows(code: int) {
    !IsBinop(code) && !IsAssign(code) && code != AND && code != OR && code != QMARK
  }

  lemma {:induction false} Complete(ts: seq<Token>, i: nat, t: Tree)
    requires Lies(ts, i, t) && Legal(t) && Follows(At(ts, EndOf(i, t)).code)
    ensures Assignment(ts, i) == Got(t, EndOf(i, t))
    decreases t, 6
  {
    hide CondExpr;
    if t.Assign? {
      AssignLies(ts, i, t.v, t.op, t.rhs);
      Complete(ts, i + 2, t.rhs);
    } else {
      StartsAssignment(t);
      FirstTwo(ts, i, t);
      CondComplete(ts, i, t);
    }
  }

  lemma AssignLies(ts: seq<Token>, i: nat, v: Token, op: Token, e: Tree)
    requires Lies(ts, i, Assign(v, op, e))
    ensures ts[i] == v && i + 1 < |ts| && ts[i + 1] == op && Lies(ts, i + 2, e)
    ensures EndOf(i, Assign(v, op, e)) == EndOf(i + 2, e)
  {
    var y := [v, op] + Yield(e);
    var k := i + |y|;
    assert ts[i] == ts[i..k][0] == y[0] && ts[i + 1] == ts[i..k][1] == y[1];
    assert ts[i + 2..k] == ts[i..k][2..] == y[2..];
  }

  lemma FirstTwo(ts: seq<Token>, i: nat, t: Tree)
    requires Lies(ts, i, t)
    ensures ts[i] == Yield(t)[0] && (|Yield(t)| > 1 ==> ts[i + 1] == Yield(t)[1])
  {
    var y := ts[i..EndOf(i, t)];
    assert ts[i] == y[0];
  }

  /** The parse accepts exactly the legal token sequences, and finds the one tree that a legal sequence has. */
  lemma ParseExact(ts: seq<Token>, t: Tree)
    ensures Legal(t) && Yield(t) == ts <==> Assignment(ts, 0) == Got(t, |ts|)
  {
    hide Assignment, Legal;
    AssignmentSound(ts, 0);
    assert ts[0..|ts|] == ts;
    if Legal(t) && Yield(t) == ts {
      Complete(ts, 0, t);
    }
  }
}
