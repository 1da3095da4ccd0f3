/** Whole BEGIN rules: the machine stops exactly when, and exactly as, the structured semantics does. */
module WakProgram {
  import opened WakLanguage
  import opened WakMachine
  import opened WakCode
  import opened WakCompiler
  import opened WakCorrect
  import opened WakJumps
  import opened WakRuns

  /** The machine stops in h, by opquit. */
  ghost predicate StopsIn(q: Image, m: Machine, h: Machine) {
    exists n: nat :: Reaches(q, m, n, h) && Step(q, h).Halt?
  }

  /** The machine reaches a state in which the interpreter has no defined step. */
  ghost predicate GoesWrong(q: Image, m: Machine) {
    exists n: nat, h :: Reaches(q, m, n, h) && Step(q, h).Stuck?
  }

  /** The code of a BEGIN rule, with the opquit that the last rule ends with, at a place other than 0. */
  ghost predicate Loaded(env: Env, main: Stmt, start: int, operand: nat) {
    && Linked(env) && start > 0 && Controlled(env.q) && Instruction(env.q.code, start)
    && GoodStmt(ScopeOf(env.p, env.globals, 0), main, false, false)
    && Has(env.q.code, start, CodeS(main, start, Dests(0, 0), operand) + [OPQUIT, -1])
  }

  function EndOf(main: Stmt, start: int, operand: nat): int {
    start + |CodeS(main, start, Dests(0, 0), operand)|
  }

  /** Outside functions; operand is left over from the last function definition. */
  function Outside(operand: nat): Site {
    Site(0, operand, [], 0)
  }

  ghost predicate IsResult(env: Env, main: Stmt, start: int, operand: nat, st: State, h: Machine) {
    exists fuel: nat :: IsResultWith(env, main, start, operand, st, fuel, h)
  }

  ghost predicate IsResultWith(env: Env, main: Stmt, start: int, operand: nat, st: State, fuel: nat, h: Machine) {
    var x := Execute(env.p, main, st, fuel);
    x.Exec? && h == At(Outside(operand), EndOf(main, start, operand), x.st, [])
  }

  predicate Initial(env: Env, st: State) {
    |st.globals| == env.globals && st.locals == []
  }

  lemma {:induction false} RunBegin(env: Env, main: Stmt, start: int, operand: nat, st: State, fuel: nat)
    requires Loaded(env, main, start, operand) && Initial(env, st)
    ensures
      var x := Execute(env.p, main, st, fuel);
      var m := At(Outside(operand), start, st, []);
      if x.ExecTimeout? then Runs(env.q, m, fuel)
      else
        var h := At(Outside(operand), EndOf(main, start, operand), x.st, []);
        Step(env.q, h).Halt? && Goes(env.q, m, fuel - x.fuel, h)
  {
    hide Linked, Has, Goes, Runs, Lay, CodeS, GoodStmt, Execute;
    var c := CodeS(main, start, Dests(0, 0), operand);
    HasSplit(env.q.code, start, c, [OPQUIT, -1]);
    RunS(env, Outside(operand), main, st, fuel, start, Dests(0, 0), false, false);
    Outcomes(env.p, ScopeAt(env, Outside(operand)), main, st, fuel, false, false);
    Has2(env.q.code, start + |c|, OPQUIT, -1);
  }

  /** A BEGIN rule stops in exactly the states that the semantics gives, and never goes wrong: in particular it
      runs forever exactly when no amount of fuel is enough. */
  lemma BeginCorrect(env: Env, main: Stmt, start: int, operand: nat, st: State, h: Machine)
    requires Loaded(env, main, start, operand) && Initial(env, st)
    ensures StopsIn(env.q, At(Outside(operand), start, st, []), h) <==> IsResult(env, main, start, operand, st, h)
    ensures !GoesWrong(env.q, At(Outside(operand), start, st, []))
  {
    hide Loaded, Lay, Execute, CodeS, Step;
    var m := At(Outside(operand), start, st, []);
    if IsResult(env, main, start, operand, st, h) {
      var fuel: nat :| IsResultWith(env, main, start, operand, st, fuel, h);
      RunBegin(env, main, start, operand, st, fuel);
      var n: nat :| Reaches(env.q, m, n, h);
    }
    if StopsIn(env.q, m, h) {
      var n: nat :| Reaches(env.q, m, n, h) && Step(env.q, h).Halt?;
      EndsAsExecuted(env, main, start, operand, st, n, h);
    }
    if GoesWrong(env.q, m) {
      var n: nat, g :| Reaches(env.q, m, n, g) && Step(env.q, g).Stuck?;
      EndsAsExecuted(env, main, start, operand, st, n, g);
    }
  }

  /** A run that cannot go on has the length and the end that the semantics gives. */
  lemma EndsAsExecuted(env: Env, main: Stmt, start: int, operand: nat, st: State, n: nat, g: Machine)
    requires Loaded(env, main, start, operand) && Initial(env, st)
    requires Reaches(env.q, At(Outside(operand), start, st, []), n, g) && !Step(env.q, g).Next?
    ensures Step(env.q, g).Halt? && IsResult(env, main, start, operand, st, g)
  {
    hide Loaded, Lay, Execute, CodeS, Step, Reaches;
    var m := At(Outside(operand), start, st, []);
    RunBegin(env, main, start, operand, st, n + 1);
    var x := Execute(env.p, main, st, n + 1);
    if x.ExecTimeout? {
      var m' :| Goes(env.q, m, n + 1, m');
      var n': nat :| n' >= n + 1 && Reaches(env.q, m, n', m');
      HaltIsLast(env.q, m, n, g, n', m');
    } else {
      var h := At(Outside(operand), EndOf(main, start, operand), x.st, []);
      var n': nat :| Reaches(env.q, m, n', h);
      HaltIsLast(env.q, m, n, g, n', h);
      HaltIsLast(env.q, m, n', h, n, g);
      assert IsResultWith(env, main, start, operand, st, n + 1, h);
    }
  }

  /** In every state of every run, ended or not, control is at an instruction and the frames form a chain. */
  lemma RunsKeepFrames(env: Env, main: Stmt, start: int, operand: nat, st: State, n: nat, m': Machine)
    requires Loaded(env, main, start, operand) && Initial(env, st)
    requires Reaches(env.q, At(Outside(operand), start, st, []), n, m')
    ensures Instruction(env.q.code, m'.ip) && FrameChain(env.q, m'.stack, m'.parmbase)
  {
    hide Lay, Execute, CodeS, Step, Reaches, AllGood, GoodStmt, Has, Linked, Instruction, Controlled;
    var m := At(Outside(operand), start, st, []);
    assert Good(env.q, m);
    RunBegin(env, main, start, operand, st, n + 1);
    var x := Execute(env.p, main, st, n + 1);
    if x.ExecTimeout? {
      var m2 :| Goes(env.q, m, n + 1, m2);
      var n2: nat :| n2 >= n + 1 && Reaches(env.q, m, n2, m2) && (Good(env.q, m) ==> AllGood(env.q, m, n2));
      GoodAt(env.q, m, n2, n, m');
    } else {
      var h := At(Outside(operand), EndOf(main, start, operand), x.st, []);
      var n2: nat :| Reaches(env.q, m, n2, h) && (Good(env.q, m) ==> AllGood(env.q, m, n2));
      HaltIsLast(env.q, m, n2, h, n, m');
      GoodAt(env.q, m, n2, n, m');
    }
  }

  // ---------------------------------------------------------------- compiling a whole program

  /** All names are resolved; misplaced break, continue and return are still possible. */
  ghost predicate Resolved(p: Program, globals: nat, main: Stmt) {
    && GoodStmt(ScopeOf(p, globals, 0), main, true, true)
    && forall f :: 0 <= f < |p.funcs| ==> GoodStmt(ScopeOf(p, globals, p.funcs[f].nparms), p.funcs[f].body, true, true)
  }

  lemma HasAppended(code: seq<int>, pos: int, c: seq<int>, more: seq<int>)
    requires Has(code, pos, c)
    ensures Has(code + more, pos, c)
  {
    assert (code + more)[pos..pos + |c|] == code[pos..pos + |c|];
  }

  lemma HasHere(code: seq<int>, c: seq<int>)
    ensures Has(code + c, |code|, c)
  {
  }

  ghost predicate Placed(p: Program, uninit: nat, code: seq<int>, addrs: seq<int>) {
    |addrs| <= |p.funcs| && forall f :: 0 <= f < |addrs| ==> PlacedAt(p, uninit, code, addrs, f)
  }

  ghost predicate PlacedAt(p: Program, uninit: nat, code: seq<int>, addrs: seq<int>, f: int)
    requires 0 <= f < |addrs| <= |p.funcs|
  {
    addrs[f] > 0 && Has(code, addrs[f], CodeF(f, p.funcs[f], addrs[f], uninit))
  }

  lemma PlacedMore(p: Program, uninit: nat, code: seq<int>, addrs: seq<int>, more: seq<int>)
    requires Placed(p, uninit, code, addrs)
    ensures Placed(p, uninit, code + more, addrs)
  {
    hide Has, CodeF;
    forall f | 0 <= f < |addrs|
      ensures PlacedAt(p, uninit, code + more, addrs, f)
    {
      assert PlacedAt(p, uninit, code, addrs, f);
      HasAppended(code, addrs[f], CodeF(f, p.funcs[f], addrs[f], uninit), more);
    }
  }

  lemma PlacedNext(p: Program, uninit: nat, code: seq<int>, addrs: seq<int>)
    requires Placed(p, uninit, code, addrs) && |addrs| < |p.funcs| && |code| > 0
    ensures
      var c := CodeF(|addrs|, p.funcs[|addrs|], |code|, uninit);
      Placed(p, uninit, code + c, addrs + [|code|])
  {
    hide Has, CodeF;
    var n, c := |addrs|, CodeF(|addrs|, p.funcs[|addrs|], |code|, uninit);
    PlacedMore(p, uninit, code, addrs, c);
    HasHere(code, c);
    forall f | 0 <= f < n + 1
      ensures PlacedAt(p, uninit, code + c, addrs + [|code|], f)
    {
      assert f < n ==> PlacedAt(p, uninit, code + c, addrs, f);
    }
  }

  function ErrorsUpTo(p: Program, n: nat): nat
    requires n <= |p.funcs|
  {
    if n == 0 then 0 else ErrorsUpTo(p, n - 1) + Misplaced(p.funcs[n - 1].body, false, true)
  }

  lemma {:induction false} NoErrors(p: Program, globals: nat, main: Stmt, n: nat)
    requires Resolved(p, globals, main) && n <= |p.funcs|
    ensures ErrorsUpTo(p, n) == 0
            <==> forall f :: 0 <= f < n ==>
                   GoodStmt(ScopeOf(p, globals, p.funcs[f].nparms), p.funcs[f].body, false, true)
  {
    hide GoodStmt, Misplaced;
    if n > 0 {
      NoErrors(p, globals, main, n - 1);
      GoodIffNoError(ScopeOf(p, globals, p.funcs[n - 1].nparms), p.funcs[n - 1].body, false, true);
    }
  }

  function Parameters(p: Program): seq<nat> {
    seq(|p.funcs|, i requires 0 <= i < |p.funcs| => p.funcs[i].nparms)
  }

  /** Functions, then one BEGIN rule. The compiler reports no error exactly for the programs of the semantics, and
      what it then emits is loaded code: with BeginCorrect, it stops exactly as the semantics says. */
  method CompileProgram(p: Program, globals: nat, main: Stmt, uninit: nat)
    returns (q: Image, start: int, operand: nat, errors: nat)
    requires Resolved(p, globals, main) && uninit < |p.literals| && p.literals[uninit] == 0
    ensures errors == 0 <==> GoodProgram(p, globals) && GoodStmt(ScopeOf(p, globals, 0), main, false, false)
    ensures errors == 0 ==> Loaded(Env(p, q, globals, uninit), main, start, operand)
    ensures Controlled(q) && Instruction(q.code, start)
  {
    hide Has, CodeF, CodeS, GoodStmt, Misplaced, Shaped, Landing, Instruction, ControlStays;
    var c := new Compiler();
    var addrs: seq<int> := [];
    LandingFirst(1);
    while |addrs| < |p.funcs|
      invariant |addrs| <= |p.funcs| && |c.zcode| > 0 && c.Here() == Dests(0, 0) && !c.inFunctionBody
      invariant Placed(p, uninit, c.zcode, addrs)
      invariant c.errors == ErrorsUpTo(p, |addrs|)
      invariant Landing(c.zcode, addrs)
    {
      var f := |addrs|;
      LandingNext(c.zcode, addrs, f, p.funcs[f], uninit);
      GoodIffNoError(ScopeOf(p, globals, p.funcs[f].nparms), p.funcs[f].body, false, true);
      PlacedNext(p, uninit, c.zcode, addrs);
      var addr := c.FunctionDef(f, p.funcs[f], uninit);
      addrs := addrs + [addr];
    }
    start := |c.zcode|;
    ghost var z := c.zcode;
    operand := c.nparms;
    GoodIffNoError(ScopeOf(p, globals, 0), main, false, false);
    c.Statement(main);
    c.Gen2cd(OPJUMP, -1);
    c.zcode := c.zcode[|c.zcode| - 2 := OPQUIT];
    ghost var cm := CodeS(main, start, Dests(0, 0), operand);
    assert c.zcode == z + (cm + [OPQUIT, -1]) == z + cm + [OPQUIT, -1];
    LandingClosed(z, addrs, main, operand);
    PlacedMore(p, uninit, z, addrs, cm + [OPQUIT, -1]);
    HasHere(z, cm + [OPQUIT, -1]);
    NoErrors(p, globals, main, |p.funcs|);
    q := Image(c.zcode, p.literals, addrs, Parameters(p), globals);
    errors := c.errors;
    LinkedWhenPlaced(Env(p, q, globals, uninit));
  }

  lemma LinkedWhenPlaced(env: Env)
    requires Placed(env.p, env.uninit, env.q.code, env.q.addrs) && |env.q.addrs| == |env.p.funcs|
    requires env.uninit < |env.p.literals| && env.p.literals[env.uninit] == 0
    requires env.q.literals == env.p.literals && env.q.nparms == Parameters(env.p)
    requires env.q.globals == env.globals
    ensures GoodProgram(env.p, env.globals) ==> Linked(env)
  {
    hide Has, CodeF, GoodProgram;
    forall f | 0 <= f < |env.p.funcs|
      ensures LinkedFunc(env, f)
    {
      assert PlacedAt(env.p, env.uninit, env.q.code, env.q.addrs, f);
    }
  }
}
