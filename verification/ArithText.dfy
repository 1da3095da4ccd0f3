/** Arithmetic expansion of a text: scanned, parsed and evaluated. */
module ArithText {
  import opened G = ArithGrammar
  import opened ArithAssociation
  import opened ArithLexer
  import opened ArithEval

  /** t is the expression that the text spells. */
  predicate Spells(text: string, number: Numbers, t: Tree)
    requires NUL !in text && Consumes(text, number)
  {
    LegalC(t) && Yield(t) == Scan(text, number, 0)
  }

  /** A text that spells an expression gets its value and its assignments, or its division by zero; any other text is an
      error. */
  method EvaluateText(text: string, number: Numbers, m: Machine, vars: Vars) returns (v: int, vars': Vars, err: Error)
    requires NUL !in text && Consumes(text, number)
    ensures forall t | Spells(text, number, t) :: Gives(Eval(m, t, vars), v, vars', err)
    ensures (forall t :: !Spells(text, number, t)) ==> err != None
  {
    hide Scan, LegalC, Yield, Eval;
    var lexer := new Lexer(text, number);
    var ts := lexer.ScanAll();
    v, vars', err := Evaluate(ts, m, vars);
    assert forall t :: LegalC(t) && Yield(t) == ts ==> Spells(text, number, t);
  }

  /** A text spells one expression at most. */
  lemma SpellsOne(text: string, number: Numbers, t: Tree, t': Tree)
    requires NUL !in text && Consumes(text, number) && Spells(text, number, t) && Spells(text, number, t')
    ensures t == t'
  {
    hide Legal, Yield, Scan, LegalC;
    Unambiguous(t, t');
  }
}
