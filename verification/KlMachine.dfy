/** The evaluator of kl: a machine with one stack for values and one for what to do next. */
module KlMachine {
  import opened KlLanguage

  datatype Mode = MHalt | MExpr | MList | MBeta | MRetn | MAppl | MPred | MNotp | MSetq | MProg

  /** The tops of the stacks are at their ends. */
  datatype Machine = Machine(mode: Mode, acc: Value, env: Env, stack: seq<Value>, mstack: seq<Mode>, st: Store)

  datatype StepResult = Next(m: Machine) | Halt | Err

  function Top<T>(s: seq<T>): T
    requires s != []
  {
    s[|s| - 1]
  }

  function Pop<T>(s: seq<T>): seq<T>
    requires s != []
  {
    s[..|s| - 1]
  }

  /** The value acc is there: on with what the mode stack says. */
  function Continue(m: Machine, acc: Value): StepResult {
    if m.mstack == [] then Err else Next(m.(mode := Top(m.mstack), mstack := Pop(m.mstack), acc := acc))
  }

  /** Evaluate x next, with v on the stack and mode to come back to. */
  function Then(m: Machine, x: Value, v: seq<Value>, mode: Mode): StepResult {
    Next(m.(mode := MExpr, acc := x, stack := m.stack + v, mstack := m.mstack + [mode]))
  }

  function StepExpr(m: Machine): StepResult {
    match m.acc
    case Sym(s) =>
      var v := Fetch(m.st, Lookup(m.env, s));
      if v == Undef then Err else Continue(m, v)
    case Pair(f, rest) => if IsSpecial(f) then Next(m.(mode := MBeta)) else Then(m, f, [rest, Nil], MList)
    case _ => Continue(m, m.acc)
  }

  function StepSpecial(m: Machine): StepResult
    requires m.acc.Pair?
  {
    var x := m.acc;
    if Immediate(x, m.env).Some? then Continue(m, Immediate(x, m.env).v)
    else if x.car == Sym(S_IF) && ListOf(x, 4) then Then(m, x.cdr.car, [x.cdr.cdr], MPred)
    else if x.car == Sym(S_IFNOT) && ListOf(x, 3) then Then(m, x.cdr.car, [x.cdr.cdr.car], MNotp)
    else if x.car == Sym(S_PROG) then
      if x.cdr == Nil then Next(m.(mode := MExpr, acc := Nil))
      else if !x.cdr.Pair? then Err
      else if x.cdr.cdr == Nil then Next(m.(mode := MExpr, acc := x.cdr.car))
      else Then(m, x.cdr.car, [x.cdr.cdr], MProg)
    else if x.car == Sym(S_SETQ) && ListOf(x, 3) && x.cdr.car.Sym? then Then(m, x.cdr.cdr.car, [x.cdr.car], MSetq)
    else if x.car == Sym(S_APPLY) && ListOf(x, 3) then Then(m, x.cdr.car, [x.cdr.cdr.car, Nil], MAppl)
    else Err
  }

  /** A call. When the caller only has to return itself, its environment is not saved again: a tail call. */
  function StepCall(m: Machine): StepResult {
    var c := Enter(m.acc, m.st);
    if c.NoCall? then Err
    else if m.mstack != [] && Top(m.mstack) == MRetn then
      Next(m.(mode := MExpr, acc := c.body, env := c.env, st := c.st))
    else
      Next(m.(mode := MExpr, acc := c.body, env := c.env, st := c.st,
              stack := m.stack + [EnvValue(m.env)], mstack := m.mstack + [MRetn]))
  }

  function StepBeta(bi: Builtins, m: Machine): StepResult {
    if !m.acc.Pair? then Err
    else if IsSpecial(m.acc.car) then StepSpecial(m)
    else if m.acc.car.Sym? then
      var v := bi(m.acc, m.st.calls);
      if v == Undef then Err else Continue(m.(st := m.st.(calls := m.st.calls + [m.acc])), v)
    else StepCall(m)
  }

  /** The two top values are the list of values so far and the elements to come. */
  function StepList(m: Machine): StepResult
    requires |m.stack| >= 2
  {
    var done, rest, below := m.stack[|m.stack| - 1], m.stack[|m.stack| - 2], m.stack[..|m.stack| - 2];
    if rest == Nil then Next(m.(mode := MBeta, acc := Reverse(Pair(m.acc, done), Nil), stack := below))
    else if !rest.Pair? then Err
    else
      Next(m.(mode := MExpr, acc := rest.car, stack := below + [rest.cdr, Pair(m.acc, done)],
              mstack := m.mstack + [MList]))
  }

  /** The two top values are the function, nil before it is known, and the argument expression. */
  function StepApply(m: Machine): StepResult
    requires |m.stack| >= 2
  {
    var f, arg, below := m.stack[|m.stack| - 1], m.stack[|m.stack| - 2], m.stack[..|m.stack| - 2];
    if f == Nil then
      Next(m.(mode := MExpr, acc := arg, stack := below + [arg, m.acc], mstack := m.mstack + [MAppl]))
    else Next(m.(mode := MBeta, acc := Pair(f, m.acc), stack := below))
  }

  function StepProg(m: Machine): StepResult
    requires m.stack != []
  {
    var rest := Top(m.stack);
    if !rest.Pair? then Err
    else if rest.cdr == Nil then Next(m.(mode := MExpr, acc := rest.car, stack := Pop(m.stack)))
    else
      Next(m.(mode := MExpr, acc := rest.car, stack := Pop(m.stack) + [rest.cdr], mstack := m.mstack + [MProg]))
  }

  function StepPred(m: Machine): StepResult
    requires m.stack != []
  {
    var n := Top(m.stack);
    if n.Pair? && n.cdr.Pair? then
      Next(m.(mode := MExpr, acc := if m.acc == Nil then n.cdr.car else n.car, stack := Pop(m.stack)))
    else Err
  }

  function Step(bi: Builtins, m: Machine): StepResult {
    match m.mode
    case MExpr => StepExpr(m)
    case MList => if |m.stack| < 2 then Err else StepList(m)
    case MAppl => if |m.stack| < 2 then Err else StepApply(m)
    case MPred => if m.stack == [] then Err else StepPred(m)
    case MNotp =>
      if m.stack == [] then Err
      else if m.acc == Nil then Next(m.(mode := MExpr, acc := Top(m.stack), stack := Pop(m.stack)))
      else Continue(m.(stack := Pop(m.stack)), m.acc)
    case MBeta => StepBeta(bi, m)
    case MRetn =>
      if m.stack == [] then Err
      else
        var e := Top(m.stack);
        if e == Nil || e.EnvRef? then
          Continue(m.(env := if e == Nil then [] else e.ribs, stack := Pop(m.stack)), m.acc)
        else Err
    case MSetq =>
      if m.stack == [] || !Top(m.stack).Sym? then Err
      else
        var n := Top(m.stack);
        Continue(m.(st := Put(m.st, Lookup(m.env, n.s), m.acc), stack := Pop(m.stack)), n)
    case MProg => if m.stack == [] then Err else StepProg(m)
    case MHalt => Halt
  }

  // ---------------------------------------------------------------- runs

  ghost predicate Reaches(bi: Builtins, m: Machine, n: nat, m': Machine)
    decreases n
  {
    if n == 0 then m == m' else Step(bi, m).Next? && Reaches(bi, Step(bi, m).m, n - 1, m')
  }

  /** In k or more steps. */
  ghost predicate Goes(bi: Builtins, m: Machine, k: int, m': Machine) {
    exists n: nat :: n >= k && Reaches(bi, m, n, m')
  }

  ghost predicate Runs(bi: Builtins, m: Machine, k: int) {
    exists m' :: Goes(bi, m, k, m')
  }

  /** The machine runs into an error. */
  ghost predicate Fails(bi: Builtins, m: Machine) {
    exists m' :: Goes(bi, m, 0, m') && Step(bi, m').Err?
  }

  lemma {:induction false} ReachesTrans(bi: Builtins, m: Machine, n: nat, m1: Machine, n1: nat, m2: Machine)
    requires Reaches(bi, m, n, m1) && Reaches(bi, m1, n1, m2)
    ensures Reaches(bi, m, n + n1, m2)
    decreases n
  {
    hide Step;
    if n > 0 {
      ReachesTrans(bi, Step(bi, m).m, n - 1, m1, n1, m2);
    }
  }

  /** A machine that stops makes no further step. */
  lemma {:induction false} StopIsLast(bi: Builtins, m: Machine, n: nat, h: Machine, n': nat, m': Machine)
    requires Reaches(bi, m, n, h) && !Step(bi, h).Next? && Reaches(bi, m, n', m')
    ensures n' <= n && (n' == n ==> m' == h)
    decreases n
  {
    hide Step;
    if n > 0 && n' > 0 {
      StopIsLast(bi, Step(bi, m).m, n - 1, h, n' - 1, m');
    }
  }

  lemma GoesHere(bi: Builtins, m: Machine)
    ensures Goes(bi, m, 0, m)
  {
    hide Step;
    assert Reaches(bi, m, 0, m);
  }

  lemma GoesOne(bi: Builtins, m: Machine, m': Machine)
    requires Step(bi, m) == Next(m')
    ensures Goes(bi, m, 1, m')
  {
    hide Step;
    assert Reaches(bi, m', 0, m');
    assert Reaches(bi, m, 1, m');
  }

  lemma GoesVia(bi: Builtins, m: Machine, k: int, m1: Machine, k1: int, m2: Machine, k2: int)
    requires Goes(bi, m, k, m1) && Goes(bi, m1, k1, m2) && k2 <= k + k1
    ensures Goes(bi, m, k2, m2)
  {
    hide Step;
    var n: nat :| n >= k && Reaches(bi, m, n, m1);
    var n1: nat :| n1 >= k1 && Reaches(bi, m1, n1, m2);
    ReachesTrans(bi, m, n, m1, n1, m2);
  }

  lemma RunsVia(bi: Builtins, m: Machine, k: int, m1: Machine, k1: int, k2: int)
    requires Goes(bi, m, k, m1) && Runs(bi, m1, k1) && k2 <= k + k1
    ensures Runs(bi, m, k2)
  {
    hide Step;
    var m2 :| Goes(bi, m1, k1, m2);
    GoesVia(bi, m, k, m1, k1, m2, k2);
  }

  lemma FailsVia(bi: Builtins, m: Machine, k: int, m1: Machine)
    requires Goes(bi, m, k, m1) && k >= 0 && Fails(bi, m1)
    ensures Fails(bi, m)
  {
    hide Step;
    var m2 :| Goes(bi, m1, 0, m2) && Step(bi, m2).Err?;
    GoesVia(bi, m, k, m1, 0, m2, 0);
  }

  lemma FailsHere(bi: Builtins, m: Machine)
    requires Step(bi, m).Err?
    ensures Fails(bi, m)
  {
    hide Step;
    GoesHere(bi, m);
  }
}
