/** The machine of kl does what the recursive evaluator does, and leaves its stacks as they were. */
module KlRefines {
  import opened KlLanguage
  import opened KlMachine

  /** The machine m0 gets the result r: with the value it is back where M says, with the stack as it was, and with the
      environment as it was unless all that remains is to return to a caller, who restores it. */
  ghost predicate Delivers(bi: Builtins, m0: Machine, fuel: nat, r: Result, env: Env, S: seq<Value>, M: seq<Mode>)
    requires M != []
  {
    match r
    case Timeout => Runs(bi, m0, fuel)
    case Error => Fails(bi, m0)
    case Ok(v, st, f) => ArrivesIn(bi, m0, fuel - f, v, st, env, S, M)
  }

  ghost predicate ArrivesIn(bi: Builtins, m0: Machine, k: int, v: Value, st: Store, env: Env, S: seq<Value>,
                            M: seq<Mode>)
    requires M != []
  {
    exists env1 :: Arrives(bi, m0, k, v, st, env1, env, S, M)
  }

  ghost predicate Arrives(bi: Builtins, m0: Machine, k: int, v: Value, st: Store, env1: Env, env: Env, S: seq<Value>,
                          M: seq<Mode>)
    requires M != []
  {
    (Top(M) != MRetn ==> env1 == env) && Goes(bi, m0, k, Machine(Top(M), v, env1, S, Pop(M), st))
  }

  lemma DeliversFrom(bi: Builtins, m0: Machine, fuel0: nat, m: Machine, fuel: nat, r: Result, env: Env, S: seq<Value>,
                     M: seq<Mode>)
    requires M != [] && fuel <= fuel0 && Goes(bi, m0, fuel0 - fuel, m) && Delivers(bi, m, fuel, r, env, S, M)
    ensures Delivers(bi, m0, fuel0, r, env, S, M)
  {
    hide Goes, Runs, Fails;
    match r
    case Timeout => RunsVia(bi, m0, fuel0 - fuel, m, fuel, fuel0);
    case Error => FailsVia(bi, m0, fuel0 - fuel, m);
    case Ok(v, st, f) =>
      var env1 :| Arrives(bi, m, fuel - f, v, st, env1, env, S, M);
      GoesVia(bi, m0, fuel0 - fuel, m, fuel - f, Machine(Top(M), v, env1, S, Pop(M), st), fuel0 - f);
      assert Arrives(bi, m0, fuel0 - f, v, st, env1, env, S, M);
  }

  /** A result delivered below a mode other than a return. */
  lemma Delivered(bi: Builtins, m0: Machine, fuel: nat, r: Result, env: Env, S: seq<Value>, M: seq<Mode>, mode: Mode)
    requires Delivers(bi, m0, fuel, r, env, S, M + [mode]) && r.Ok? && mode != MRetn
    ensures Goes(bi, m0, fuel - r.fuel, Machine(mode, r.v, env, S, M, r.st))
  {
    hide Goes, Runs, Fails;
    var env1 :| Arrives(bi, m0, fuel - r.fuel, r.v, r.st, env1, env, S, M + [mode]);
    assert Pop(M + [mode]) == M;
  }

  /** Without a value there is nothing more to deliver. */
  lemma NotDelivered(bi: Builtins, m0: Machine, fuel: nat, r: Result, env: Env, S: seq<Value>, M: seq<Mode>, env': Env,
                     S': seq<Value>, M': seq<Mode>)
    requires M != [] && M' != [] && Delivers(bi, m0, fuel, r, env, S, M) && !r.Ok?
    ensures Delivers(bi, m0, fuel, r, env', S', M')
  {
    hide Goes, Runs, Fails;
  }

  /** One step brings the value. */
  lemma DeliversNow(bi: Builtins, m: Machine, fuel: nat, v: Value, env: Env, S: seq<Value>, M: seq<Mode>, st: Store)
    requires M != [] && Step(bi, m) == Next(Machine(Top(M), v, env, S, Pop(M), st))
    ensures Delivers(bi, m, fuel, Ok(v, st, fuel), env, S, M)
  {
    hide Step, Goes;
    GoesOne(bi, m, Machine(Top(M), v, env, S, Pop(M), st));
    GoesVia(bi, m, 1, Machine(Top(M), v, env, S, Pop(M), st), 0, Machine(Top(M), v, env, S, Pop(M), st), 0) by {
      GoesHere(bi, Machine(Top(M), v, env, S, Pop(M), st));
    }
    assert Arrives(bi, m, 0, v, st, env, env, S, M);
  }

  /** One step first. */
  lemma DeliversNext(bi: Builtins, m0: Machine, m: Machine, fuel: nat, r: Result, env: Env, S: seq<Value>, M: seq<Mode>)
    requires M != [] && Step(bi, m0) == Next(m) && Delivers(bi, m, fuel, r, env, S, M)
    ensures Delivers(bi, m0, fuel, r, env, S, M)
  {
    hide Step, Goes, Delivers;
    GoesOne(bi, m0, m);
    GoesHere(bi, m);
    GoesVia(bi, m0, 1, m, 0, m, 0);
    DeliversFrom(bi, m0, fuel, m, fuel, r, env, S, M);
  }

  /** A value, then one step, then the rest. */
  lemma DeliversThen(bi: Builtins, m0: Machine, fuel0: nat, a: Result, env: Env, S: seq<Value>, M: seq<Mode>,
                     mode: Mode, m: Machine, fuel: nat, r: Result, S': seq<Value>, M': seq<Mode>)
    requires M' != [] && mode != MRetn && a.Ok? && Delivers(bi, m0, fuel0, a, env, S, M + [mode])
    requires Step(bi, Machine(mode, a.v, env, S, M, a.st)) == Next(m)
    requires fuel <= a.fuel <= fuel0 && fuel + 1 >= a.fuel && Delivers(bi, m, fuel, r, env, S', M')
    ensures Delivers(bi, m0, fuel0, r, env, S', M')
  {
    hide Step, Goes, Delivers;
    Delivered(bi, m0, fuel0, a, env, S, M, mode);
    var m1 := Machine(mode, a.v, env, S, M, a.st);
    GoesOne(bi, m1, m);
    GoesVia(bi, m0, fuel0 - a.fuel, m1, 1, m, fuel0 - fuel);
    DeliversFrom(bi, m0, fuel0, m, fuel, r, env, S', M');
  }

  lemma DeliversError(bi: Builtins, m0: Machine, fuel: nat, env: Env, S: seq<Value>, M: seq<Mode>)
    requires M != [] && Step(bi, m0).Err?
    ensures Delivers(bi, m0, fuel, Error, env, S, M)
  {
    hide Step, Goes;
    FailsHere(bi, m0);
  }

  /** A value, and then an error. */
  lemma DeliversThenError(bi: Builtins, m0: Machine, fuel0: nat, a: Result, env: Env, S: seq<Value>, M: seq<Mode>,
                          mode: Mode, S': seq<Value>, M': seq<Mode>)
    requires M' != [] && mode != MRetn && a.Ok? && Delivers(bi, m0, fuel0, a, env, S, M + [mode]) && a.fuel <= fuel0
    requires Step(bi, Machine(mode, a.v, env, S, M, a.st)).Err?
    ensures Delivers(bi, m0, fuel0, Error, env, S', M')
  {
    hide Step, Goes;
    Delivered(bi, m0, fuel0, a, env, S, M, mode);
    FailsHere(bi, Machine(mode, a.v, env, S, M, a.st));
    FailsVia(bi, m0, fuel0 - a.fuel, Machine(mode, a.v, env, S, M, a.st));
  }

  /** A value, with no fuel left. */
  lemma DeliversTimeout(bi: Builtins, m0: Machine, fuel0: nat, a: Result, env: Env, S: seq<Value>, M: seq<Mode>,
                        mode: Mode, S': seq<Value>, M': seq<Mode>)
    requires M' != [] && mode != MRetn && a.Ok? && Delivers(bi, m0, fuel0, a, env, S, M + [mode]) && a.fuel == 0
    ensures Delivers(bi, m0, fuel0, Timeout, env, S', M')
  {
    hide Step, Goes;
    Delivered(bi, m0, fuel0, a, env, S, M, mode);
  }

  // ---------------------------------------------------------------- expressions

  lemma {:induction false} RunEval(bi: Builtins, x: Value, env: Env, st: Store, fuel: nat, S: seq<Value>, M: seq<Mode>)
    requires M != []
    ensures Delivers(bi, Machine(MExpr, x, env, S, M, st), fuel, Eval(bi, x, env, st, fuel), env, S, M)
    decreases fuel, x, 3
  {
    hide Delivers, Special, EvalList, Beta, Reverse;
    var m0 := Machine(MExpr, x, env, S, M, st);
    match x
    case Sym(s) =>
      var v := Fetch(st, Lookup(env, s));
      if v == Undef {
        DeliversError(bi, m0, fuel, env, S, M);
      } else {
        DeliversNow(bi, m0, fuel, v, env, S, M, st);
      }
    case Pair(f, rest) =>
      if IsSpecial(f) {
        RunSpecial(bi, x, env, st, fuel, S, M);
        DeliversNext(bi, m0, Machine(MBeta, x, env, S, M, st), fuel, Special(bi, x, env, st, fuel), env, S, M);
      } else {
        RunList(bi, x, Nil, env, st, fuel, S, M);
        var m1 := ListAt(x, Nil, env, st, S, M);
        RunCombination(bi, x, env, st, fuel, S, M);
        DeliversNext(bi, m0, m1, fuel, Eval(bi, x, env, st, fuel), env, S, M);
      }
    case _ => DeliversNow(bi, m0, fuel, x, env, S, M, st);
  }

  /** The elements of l are next, those before it are done. */
  function ListAt(l: Value, done: Value, env: Env, st: Store, S: seq<Value>, M: seq<Mode>): Machine
    requires l.Pair?
  {
    Machine(MExpr, l.car, env, S + [l.cdr, done], M + [MList], st)
  }

  ghost predicate Listed(bi: Builtins, m0: Machine, fuel: nat, r: Result, env: Env, S: seq<Value>, M: seq<Mode>) {
    match r
    case Timeout => Runs(bi, m0, fuel)
    case Error => Fails(bi, m0)
    case Ok(v, st, f) => Goes(bi, m0, fuel - f + 1, Machine(MBeta, v, env, S, M, st))
  }

  lemma {:induction false} RunList(bi: Builtins, l: Value, done: Value, env: Env, st: Store, fuel: nat, S: seq<Value>,
                                   M: seq<Mode>)
    requires l.Pair? && M != []
    ensures Listed(bi, ListAt(l, done, env, st, S, M), fuel, EvalList(bi, l, done, env, st, fuel), env, S, M)
    decreases fuel, l, 0
  {
    hide Goes, Eval, Reverse, Delivers, Runs, Fails;
    var m0 := ListAt(l, done, env, st, S, M);
    var S1, M1 := S + [l.cdr, done], M + [MList];
    RunEval(bi, l.car, env, st, fuel, S1, M1);
    var r := Eval(bi, l.car, env, st, fuel);
    if !r.Ok? {
      NoValue(bi, m0, fuel, r, env, S1, M1);
    } else {
      var m1 := Machine(MList, r.v, env, S1, M, r.st);
      Delivered(bi, m0, fuel, r, env, S1, M, MList);
      assert S1[..|S1| - 2] == S;
      if l.cdr == Nil {
        var m2 := Machine(MBeta, Reverse(Pair(r.v, done), Nil), env, S, M, r.st);
        GoesOne(bi, m1, m2);
        GoesVia(bi, m0, fuel - r.fuel, m1, 1, m2, fuel - r.fuel + 1);
      } else if l.cdr.Pair? {
        var m2 := ListAt(l.cdr, Pair(r.v, done), env, r.st, S, M);
        GoesOne(bi, m1, m2);
        GoesVia(bi, m0, fuel - r.fuel, m1, 1, m2, fuel - r.fuel);
        RunList(bi, l.cdr, Pair(r.v, done), env, r.st, r.fuel, S, M);
        ListedFrom(bi, m0, fuel, m2, r.fuel, EvalList(bi, l.cdr, Pair(r.v, done), env, r.st, r.fuel), env, S, M);
      } else {
        FailsHere(bi, m1);
        FailsVia(bi, m0, fuel - r.fuel, m1);
      }
    }
  }

  lemma NoValue(bi: Builtins, m0: Machine, fuel: nat, r: Result, env: Env, S: seq<Value>, M: seq<Mode>)
    requires M != [] && Delivers(bi, m0, fuel, r, env, S, M) && !r.Ok?
    ensures if r.Timeout? then Runs(bi, m0, fuel) else Fails(bi, m0)
  {
    hide Goes, Runs, Fails;
  }

  lemma ListedFrom(bi: Builtins, m0: Machine, fuel0: nat, m: Machine, fuel: nat, r: Result, env: Env, S: seq<Value>,
                   M: seq<Mode>)
    requires fuel <= fuel0 && Goes(bi, m0, fuel0 - fuel, m) && Listed(bi, m, fuel, r, env, S, M)
    ensures Listed(bi, m0, fuel0, r, env, S, M)
  {
    hide Goes, Runs, Fails;
    match r
    case Timeout => RunsVia(bi, m0, fuel0 - fuel, m, fuel, fuel0);
    case Error => FailsVia(bi, m0, fuel0 - fuel, m);
    case Ok(v, st, f) =>
      GoesVia(bi, m0, fuel0 - fuel, m, fuel - f + 1, Machine(MBeta, v, env, S, M, st), fuel0 - f + 1);
  }

  /** The list of values, and what it comes to. */
  lemma {:induction false} RunCombination(bi: Builtins, x: Value, env: Env, st: Store, fuel: nat, S: seq<Value>,
                                          M: seq<Mode>)
    requires M != [] && x.Pair? && !IsSpecial(x.car)
    requires Listed(bi, ListAt(x, Nil, env, st, S, M), fuel, EvalList(bi, x, Nil, env, st, fuel), env, S, M)
    ensures Delivers(bi, ListAt(x, Nil, env, st, S, M), fuel, Eval(bi, x, env, st, fuel), env, S, M)
    decreases fuel, x, 2
  {
    hide Goes, EvalList, Beta, Special, ListAt, Runs, Fails;
    var m1 := ListAt(x, Nil, env, st, S, M);
    var l := EvalList(bi, x, Nil, env, st, fuel);
    if l.Ok? {
      var m2 := Machine(MBeta, l.v, env, S, M, l.st);
      if l.fuel == 0 {
        Reached(bi, m1, fuel + 1, m2, fuel);
      } else {
        RunBeta(bi, l.v, env, l.st, l.fuel - 1, S, M);
        DeliversFrom(bi, m1, fuel, m2, l.fuel - 1, Beta(bi, l.v, env, l.st, l.fuel - 1), env, S, M);
      }
    }
  }

  lemma Reached(bi: Builtins, m: Machine, k: int, m': Machine, k': int)
    requires Goes(bi, m, k, m') && k' <= k
    ensures Runs(bi, m, k')
  {
    hide Step;
    GoesHere(bi, m');
    GoesVia(bi, m, k, m', 0, m', k');
  }

  lemma {:induction false} RunBeta(bi: Builtins, x: Value, env: Env, st: Store, fuel: nat, S: seq<Value>, M: seq<Mode>)
    requires M != []
    ensures Delivers(bi, Machine(MBeta, x, env, S, M, st), fuel, Beta(bi, x, env, st, fuel), env, S, M)
    decreases fuel, x, 2
  {
    hide Delivers, Special, Eval, Enter;
    var m0 := Machine(MBeta, x, env, S, M, st);
    if !x.Pair? {
      DeliversError(bi, m0, fuel, env, S, M);
    } else if IsSpecial(x.car) {
      RunSpecial(bi, x, env, st, fuel, S, M);
    } else if x.car.Sym? {
      var v := bi(x, st.calls);
      if v == Undef {
        DeliversError(bi, m0, fuel, env, S, M);
      } else {
        DeliversNow(bi, m0, fuel, v, env, S, M, st.(calls := st.calls + [x]));
      }
    } else if Enter(x, st).NoCall? {
      DeliversError(bi, m0, fuel, env, S, M);
    } else if Top(M) == MRetn {
      RunTailCall(bi, x, env, st, fuel, S, M);
    } else {
      RunCall(bi, x, env, st, fuel, S, M);
    }
  }

  /** A tail call goes on with the stacks as they are. */
  lemma {:induction false} RunTailCall(bi: Builtins, x: Value, env: Env, st: Store, fuel: nat, S: seq<Value>,
                                       M: seq<Mode>)
    requires M != [] && Top(M) == MRetn && x.Pair? && !x.car.Sym? && Enter(x, st).Call?
    ensures Delivers(bi, Machine(MBeta, x, env, S, M, st), fuel, Beta(bi, x, env, st, fuel), env, S, M)
    ensures
      var c := Enter(x, st);
      Step(bi, Machine(MBeta, x, env, S, M, st)) == Next(Machine(MExpr, c.body, c.env, S, M, c.st))
    decreases fuel, x, 1
  {
    hide Special, Eval, Enter, Goes, Runs, Fails;
    var c := Enter(x, st);
    var m0 := Machine(MBeta, x, env, S, M, st);
    var m1 := Machine(MExpr, c.body, c.env, S, M, c.st);
    GoesOne(bi, m0, m1);
    if fuel == 0 {
      Reached(bi, m0, 1, m1, 0);
    } else {
      RunEval(bi, c.body, c.env, c.st, fuel - 1, S, M);
      var r := Eval(bi, c.body, c.env, c.st, fuel - 1);
      AnyEnv(bi, m1, fuel - 1, r, c.env, env, S, M);
      DeliversFrom(bi, m0, fuel, m1, fuel - 1, r, env, S, M);
    }
  }

  lemma AnyEnv(bi: Builtins, m: Machine, fuel: nat, r: Result, env: Env, env': Env, S: seq<Value>, M: seq<Mode>)
    requires M != [] && Top(M) == MRetn && Delivers(bi, m, fuel, r, env, S, M)
    ensures Delivers(bi, m, fuel, r, env', S, M)
  {
    hide Goes, Runs, Fails;
    if r.Ok? {
      var env1 :| Arrives(bi, m, fuel - r.fuel, r.v, r.st, env1, env, S, M);
      assert Arrives(bi, m, fuel - r.fuel, r.v, r.st, env1, env', S, M);
    }
  }

  /** Any other call saves the environment, and the return restores it. */
  lemma {:induction false} RunCall(bi: Builtins, x: Value, env: Env, st: Store, fuel: nat, S: seq<Value>, M: seq<Mode>)
    requires M != [] && Top(M) != MRetn && x.Pair? && !x.car.Sym? && Enter(x, st).Call?
    ensures Delivers(bi, Machine(MBeta, x, env, S, M, st), fuel, Beta(bi, x, env, st, fuel), env, S, M)
    decreases fuel, x, 1
  {
    hide Special, Eval, Enter, Goes, Runs, Fails, Delivers;
    var c := Enter(x, st);
    var S1, M1 := S + [EnvValue(env)], M + [MRetn];
    var m0 := Machine(MBeta, x, env, S, M, st);
    var m1 := Machine(MExpr, c.body, c.env, S1, M1, c.st);
    GoesOne(bi, m0, m1);
    if fuel == 0 {
      Reached(bi, m0, 1, m1, 0);
      TimedOut(bi, m0, 0, env, S, M);
    } else {
      RunEval(bi, c.body, c.env, c.st, fuel - 1, S1, M1);
      var r := Eval(bi, c.body, c.env, c.st, fuel - 1);
      DeliversFrom(bi, m0, fuel, m1, fuel - 1, r, c.env, S1, M1);
      if r.Ok? {
        Returns(bi, m0, fuel, r, c.env, env, S, M);
      } else {
        NotDelivered(bi, m0, fuel, r, c.env, S1, M1, env, S, M);
      }
    }
  }

  lemma TimedOut(bi: Builtins, m: Machine, fuel: nat, env: Env, S: seq<Value>, M: seq<Mode>)
    requires M != [] && Runs(bi, m, fuel)
    ensures Delivers(bi, m, fuel, Timeout, env, S, M)
  {
  }

  lemma Returns(bi: Builtins, m0: Machine, fuel: nat, r: Result, env0: Env, env: Env, S: seq<Value>, M: seq<Mode>)
    requires M != [] && r.Ok? && Delivers(bi, m0, fuel, r, env0, S + [EnvValue(env)], M + [MRetn])
    ensures Delivers(bi, m0, fuel, r, env, S, M)
  {
    hide Goes;
    var S1, M1 := S + [EnvValue(env)], M + [MRetn];
    var env1 :| Arrives(bi, m0, fuel - r.fuel, r.v, r.st, env1, env0, S1, M1);
    assert Pop(M1) == M && Pop(S1) == S;
    var m1 := Machine(MRetn, r.v, env1, S1, M, r.st);
    var m2 := Machine(Top(M), r.v, env, S, Pop(M), r.st);
    GoesOne(bi, m1, m2);
    GoesVia(bi, m0, fuel - r.fuel, m1, 1, m2, fuel - r.fuel);
    assert Arrives(bi, m0, fuel - r.fuel, r.v, r.st, env, env, S, M);
  }

  // ---------------------------------------------------------------- special forms

  lemma {:induction false} RunSpecial(bi: Builtins, x: Value, env: Env, st: Store, fuel: nat, S: seq<Value>,
                                      M: seq<Mode>)
    requires M != [] && x.Pair? && IsSpecial(x.car)
    ensures Delivers(bi, Machine(MBeta, x, env, S, M, st), fuel, Special(bi, x, env, st, fuel), env, S, M)
    decreases fuel, x, 1
  {
    hide Delivers, Eval, Body, Apply, Immediate;
    var m0 := Machine(MBeta, x, env, S, M, st);
    if Immediate(x, env).Some? {
      DeliversNow(bi, m0, fuel, Immediate(x, env).v, env, S, M, st);
    } else if x.car == Sym(S_IF) && ListOf(x, 4) {
      RunIf(bi, x, env, st, fuel, S, M);
    } else if x.car == Sym(S_IFNOT) && ListOf(x, 3) {
      RunIfnot(bi, x, env, st, fuel, S, M);
    } else if x.car == Sym(S_PROG) {
      if x.cdr == Nil {
        DeliversNow(bi, Machine(MExpr, Nil, env, S, M, st), fuel, Nil, env, S, M, st);
        DeliversNext(bi, m0, Machine(MExpr, Nil, env, S, M, st), fuel, Ok(Nil, st, fuel), env, S, M);
      } else if x.cdr.Pair? {
        RunBody(bi, x.cdr, env, st, fuel, S, M);
        DeliversNext(bi, m0, BodyAt(x.cdr, env, st, S, M), fuel, Body(bi, x.cdr, env, st, fuel), env, S, M);
      } else {
        DeliversError(bi, m0, fuel, env, S, M);
      }
    } else if x.car == Sym(S_SETQ) && ListOf(x, 3) && x.cdr.car.Sym? {
      RunSetq(bi, x, env, st, fuel, S, M);
    } else if x.car == Sym(S_APPLY) && ListOf(x, 3) {
      RunApplyForm(bi, x, env, st, fuel, S, M);
    } else {
      DeliversError(bi, m0, fuel, env, S, M);
    }
  }

  lemma {:induction false} RunIf(bi: Builtins, x: Value, env: Env, st: Store, fuel: nat, S: seq<Value>, M: seq<Mode>)
    requires M != [] && x.Pair? && x.car == Sym(S_IF) && ListOf(x, 4) && Immediate(x, env).None?
    ensures Delivers(bi, Machine(MBeta, x, env, S, M, st), fuel, Special(bi, x, env, st, fuel), env, S, M)
    decreases fuel, x, 0
  {
    hide Delivers, Eval, Body, Apply, Immediate;
    var n := x.cdr.cdr;
    var S1, M1 := S + [n], M + [MPred];
    var m0, m1 := Machine(MBeta, x, env, S, M, st), Machine(MExpr, x.cdr.car, env, S1, M1, st);
    RunEval(bi, x.cdr.car, env, st, fuel, S1, M1);
    var r := Eval(bi, x.cdr.car, env, st, fuel);
    if r.Ok? {
      assert Top(S1) == n && Pop(S1) == S;
      var b := if r.v == Nil then n.cdr.car else n.car;
      RunEval(bi, b, env, r.st, r.fuel, S, M);
      DeliversThen(bi, m1, fuel, r, env, S1, M, MPred, Machine(MExpr, b, env, S, M, r.st), r.fuel,
                   Eval(bi, b, env, r.st, r.fuel), S, M);
    } else {
      NotDelivered(bi, m1, fuel, r, env, S1, M1, env, S, M);
    }
    DeliversNext(bi, m0, m1, fuel, Special(bi, x, env, st, fuel), env, S, M);
  }

  lemma {:induction false} RunIfnot(bi: Builtins, x: Value, env: Env, st: Store, fuel: nat, S: seq<Value>, M: seq<Mode>)
    requires M != [] && x.Pair? && x.car == Sym(S_IFNOT) && ListOf(x, 3) && Immediate(x, env).None?
    ensures Delivers(bi, Machine(MBeta, x, env, S, M, st), fuel, Special(bi, x, env, st, fuel), env, S, M)
    decreases fuel, x, 0
  {
    hide Delivers, Eval, Body, Apply, Immediate;
    var n := x.cdr.cdr.car;
    var S1, M1 := S + [n], M + [MNotp];
    var m0, m1 := Machine(MBeta, x, env, S, M, st), Machine(MExpr, x.cdr.car, env, S1, M1, st);
    RunEval(bi, x.cdr.car, env, st, fuel, S1, M1);
    var r := Eval(bi, x.cdr.car, env, st, fuel);
    if r.Ok? {
      assert Top(S1) == n && Pop(S1) == S;
      if r.v == Nil {
        RunEval(bi, n, env, r.st, r.fuel, S, M);
        DeliversThen(bi, m1, fuel, r, env, S1, M, MNotp, Machine(MExpr, n, env, S, M, r.st), r.fuel,
                     Eval(bi, n, env, r.st, r.fuel), S, M);
      } else {
        DeliversLast(bi, m1, fuel, r, env, S1, M, MNotp, r.v, r.st, S);
      }
    } else {
      NotDelivered(bi, m1, fuel, r, env, S1, M1, env, S, M);
    }
    DeliversNext(bi, m0, m1, fuel, Special(bi, x, env, st, fuel), env, S, M);
  }

  /** A value, and then one step that brings the last one. */
  lemma DeliversLast(bi: Builtins, m0: Machine, fuel0: nat, a: Result, env: Env, S: seq<Value>, M: seq<Mode>,
                     mode: Mode, v: Value, st: Store, S': seq<Value>)
    requires M != [] && mode != MRetn && a.Ok? && Delivers(bi, m0, fuel0, a, env, S, M + [mode]) && a.fuel <= fuel0
    requires Step(bi, Machine(mode, a.v, env, S, M, a.st)) == Next(Machine(Top(M), v, env, S', Pop(M), st))
    ensures Delivers(bi, m0, fuel0, Ok(v, st, a.fuel), env, S', M)
  {
    hide Step, Goes, Delivers;
    Delivered(bi, m0, fuel0, a, env, S, M, mode);
    var m1, m2 := Machine(mode, a.v, env, S, M, a.st), Machine(Top(M), v, env, S', Pop(M), st);
    GoesOne(bi, m1, m2);
    GoesVia(bi, m0, fuel0 - a.fuel, m1, 1, m2, fuel0 - a.fuel);
    HasArrived(bi, m0, fuel0, v, st, a.fuel, env, S', M);
  }

  lemma HasArrived(bi: Builtins, m0: Machine, fuel0: nat, v: Value, st: Store, f: nat, env: Env, S: seq<Value>,
                   M: seq<Mode>)
    requires M != [] && Goes(bi, m0, fuel0 - f, Machine(Top(M), v, env, S, Pop(M), st))
    ensures Delivers(bi, m0, fuel0, Ok(v, st, f), env, S, M)
  {
    hide Goes;
    assert Arrives(bi, m0, fuel0 - f, v, st, env, env, S, M);
  }

  lemma {:induction false} RunSetq(bi: Builtins, x: Value, env: Env, st: Store, fuel: nat, S: seq<Value>, M: seq<Mode>)
    requires M != [] && x.Pair? && x.car == Sym(S_SETQ) && ListOf(x, 3) && x.cdr.car.Sym? && Immediate(x, env).None?
    ensures Delivers(bi, Machine(MBeta, x, env, S, M, st), fuel, Special(bi, x, env, st, fuel), env, S, M)
    decreases fuel, x, 0
  {
    hide Delivers, Eval, Body, Apply, Immediate, Lookup, Put;
    var n := x.cdr.car;
    var S1, M1 := S + [n], M + [MSetq];
    var m0, m1 := Machine(MBeta, x, env, S, M, st), Machine(MExpr, x.cdr.cdr.car, env, S1, M1, st);
    RunEval(bi, x.cdr.cdr.car, env, st, fuel, S1, M1);
    var r := Eval(bi, x.cdr.cdr.car, env, st, fuel);
    if r.Ok? {
      assert Top(S1) == n && Pop(S1) == S;
      DeliversLast(bi, m1, fuel, r, env, S1, M, MSetq, n, Put(r.st, Lookup(env, n.s), r.v), S);
    } else {
      NotDelivered(bi, m1, fuel, r, env, S1, M1, env, S, M);
    }
    DeliversNext(bi, m0, m1, fuel, Special(bi, x, env, st, fuel), env, S, M);
  }

  /** The first expression of a body is next; nothing is saved for the last one. */
  function BodyAt(l: Value, env: Env, st: Store, S: seq<Value>, M: seq<Mode>): Machine
    requires l.Pair?
  {
    if l.cdr == Nil then Machine(MExpr, l.car, env, S, M, st)
    else Machine(MExpr, l.car, env, S + [l.cdr], M + [MProg], st)
  }

  lemma {:induction false} RunBody(bi: Builtins, l: Value, env: Env, st: Store, fuel: nat, S: seq<Value>, M: seq<Mode>)
    requires l.Pair? && M != []
    ensures Delivers(bi, BodyAt(l, env, st, S, M), fuel, Body(bi, l, env, st, fuel), env, S, M)
    decreases fuel, l, 0
  {
    hide Delivers, Eval;
    var m0 := BodyAt(l, env, st, S, M);
    if l.cdr == Nil {
      RunEval(bi, l.car, env, st, fuel, S, M);
    } else {
      var S1, M1 := S + [l.cdr], M + [MProg];
      RunEval(bi, l.car, env, st, fuel, S1, M1);
      var r := Eval(bi, l.car, env, st, fuel);
      assert Top(S1) == l.cdr && Pop(S1) == S;
      if !r.Ok? {
        NotDelivered(bi, m0, fuel, r, env, S1, M1, env, S, M);
      } else if l.cdr.Pair? {
        RunBody(bi, l.cdr, env, r.st, r.fuel, S, M);
        DeliversThen(bi, m0, fuel, r, env, S1, M, MProg, BodyAt(l.cdr, env, r.st, S, M), r.fuel,
                     Body(bi, l.cdr, env, r.st, r.fuel), S, M);
      } else {
        DeliversThenError(bi, m0, fuel, r, env, S1, M, MProg, S, M);
      }
    }
  }

  lemma {:induction false} RunApplyForm(bi: Builtins, x: Value, env: Env, st: Store, fuel: nat, S: seq<Value>,
                                        M: seq<Mode>)
    requires M != [] && x.Pair? && x.car == Sym(S_APPLY) && ListOf(x, 3) && Immediate(x, env).None?
    ensures Delivers(bi, Machine(MBeta, x, env, S, M, st), fuel, Special(bi, x, env, st, fuel), env, S, M)
    decreases fuel, x, 0
  {
    hide Delivers, Eval, Body, Apply, Immediate;
    var l := x.cdr.cdr;
    var S1, M1 := S + [l.car, Nil], M + [MAppl];
    var m0, m1 := Machine(MBeta, x, env, S, M, st), Machine(MExpr, x.cdr.car, env, S1, M1, st);
    RunEval(bi, x.cdr.car, env, st, fuel, S1, M1);
    var r := Eval(bi, x.cdr.car, env, st, fuel);
    if r.Ok? {
      assert S1[..|S1| - 2] == S;
      RunApply(bi, r.v, l, env, r.st, r.fuel, S, M);
      DeliversThen(bi, m1, fuel, r, env, S1, M, MAppl, ApplyAt(r.v, l, env, r.st, S, M), r.fuel,
                   Apply(bi, r.v, l, env, r.st, r.fuel), S, M);
    } else {
      NotDelivered(bi, m1, fuel, r, env, S1, M1, env, S, M);
    }
    DeliversNext(bi, m0, m1, fuel, Special(bi, x, env, st, fuel), env, S, M);
  }

  /** The argument of an application of f is next. */
  function ApplyAt(f: Value, l: Value, env: Env, st: Store, S: seq<Value>, M: seq<Mode>): Machine
    requires l.Pair?
  {
    Machine(MExpr, l.car, env, S + [l.car, f], M + [MAppl], st)
  }

  lemma {:induction false} RunApply(bi: Builtins, f: Value, l: Value, env: Env, st: Store, fuel: nat, S: seq<Value>,
                                    M: seq<Mode>)
    requires l.Pair? && M != []
    ensures Delivers(bi, ApplyAt(f, l, env, st, S, M), fuel, Apply(bi, f, l, env, st, fuel), env, S, M)
    decreases fuel, l, 0
  {
    hide Delivers, Eval, Beta;
    var m0 := ApplyAt(f, l, env, st, S, M);
    var S1, M1 := S + [l.car, f], M + [MAppl];
    RunEval(bi, l.car, env, st, fuel, S1, M1);
    var r := Eval(bi, l.car, env, st, fuel);
    assert S1[..|S1| - 2] == S;
    if !r.Ok? {
      NotDelivered(bi, m0, fuel, r, env, S1, M1, env, S, M);
    } else if r.fuel == 0 {
      DeliversTimeout(bi, m0, fuel, r, env, S1, M, MAppl, S, M);
    } else if f == Nil {
      RunApply(bi, r.v, l, env, r.st, r.fuel - 1, S, M);
      DeliversThen(bi, m0, fuel, r, env, S1, M, MAppl, ApplyAt(r.v, l, env, r.st, S, M), r.fuel - 1,
                   Apply(bi, r.v, l, env, r.st, r.fuel - 1), S, M);
    } else {
      RunBeta(bi, Pair(f, r.v), env, r.st, r.fuel - 1, S, M);
      DeliversThen(bi, m0, fuel, r, env, S1, M, MAppl, Machine(MBeta, Pair(f, r.v), env, S, M, r.st), r.fuel - 1,
                   Beta(bi, Pair(f, r.v), env, r.st, r.fuel - 1), S, M);
    }
  }

  // ---------------------------------------------------------------- whole evaluations

  /** The machine as eval starts it, and as it stops: only acc and the store differ. */
  function Start(x: Value, env: Env, S: seq<Value>, M: seq<Mode>, st: Store): Machine {
    Machine(MExpr, x, env, S, M + [MHalt], st)
  }

  function Stop(v: Value, env: Env, S: seq<Value>, M: seq<Mode>, st: Store): Machine {
    Machine(MHalt, v, env, S, M, st)
  }

  ghost predicate StopsIn(bi: Builtins, m: Machine, h: Machine) {
    exists n: nat :: Reaches(bi, m, n, h) && Step(bi, h).Halt?
  }

  ghost predicate HasValue(bi: Builtins, x: Value, env: Env, st: Store, v: Value, st': Store) {
    exists fuel: nat :: Evaluates(bi, x, env, st, fuel, v, st')
  }

  ghost predicate Evaluates(bi: Builtins, x: Value, env: Env, st: Store, fuel: nat, v: Value, st': Store) {
    var r := Eval(bi, x, env, st, fuel);
    r.Ok? && r.v == v && r.st == st'
  }

  ghost predicate IsError(bi: Builtins, x: Value, env: Env, st: Store) {
    exists fuel: nat :: Errs(bi, x, env, st, fuel)
  }

  ghost predicate Errs(bi: Builtins, x: Value, env: Env, st: Store, fuel: nat) {
    Eval(bi, x, env, st, fuel).Error?
  }

  lemma RunWhole(bi: Builtins, x: Value, env: Env, st: Store, fuel: nat, S: seq<Value>, M: seq<Mode>)
    ensures
      var r := Eval(bi, x, env, st, fuel);
      var m := Start(x, env, S, M, st);
      match r
      case Timeout => Runs(bi, m, fuel)
      case Error => Fails(bi, m)
      case Ok(v, st', f) => Goes(bi, m, fuel - f, Stop(v, env, S, M, st'))
  {
    hide Eval, Goes, Runs, Fails, Step;
    RunEval(bi, x, env, st, fuel, S, M + [MHalt]);
    var r := Eval(bi, x, env, st, fuel);
    if r.Ok? {
      Delivered(bi, Start(x, env, S, M, st), fuel, r, env, S, M, MHalt);
    }
  }

  /** eval stops exactly with the values that the evaluator gives, with stacks and environment as they were; and it runs
      into an error exactly when the evaluator gives an error. So it runs forever exactly when no fuel is enough. */
  lemma EvalCorrect(bi: Builtins, x: Value, env: Env, st: Store, S: seq<Value>, M: seq<Mode>, h: Machine)
    ensures
      var m := Start(x, env, S, M, st);
      && (StopsIn(bi, m, h) <==> h == Stop(h.acc, env, S, M, h.st) && HasValue(bi, x, env, st, h.acc, h.st))
      && (Fails(bi, m) <==> IsError(bi, x, env, st))
  {
    hide Eval, Goes, Runs, Fails, Step, Reaches;
    var m := Start(x, env, S, M, st);
    if StopsIn(bi, m, h) {
      var n: nat :| Reaches(bi, m, n, h) && Step(bi, h).Halt?;
      EndsAs(bi, x, env, st, S, M, n, h);
    }
    if HasValue(bi, x, env, st, h.acc, h.st) && h == Stop(h.acc, env, S, M, h.st) {
      var fuel: nat :| Evaluates(bi, x, env, st, fuel, h.acc, h.st);
      RunWhole(bi, x, env, st, fuel, S, M);
      StopHalts(bi, m, fuel - Eval(bi, x, env, st, fuel).fuel, h);
    }
    if Fails(bi, m) {
      var n, g := WhereFails(bi, m);
      EndsAs(bi, x, env, st, S, M, n, g);
    }
    if IsError(bi, x, env, st) {
      var fuel: nat :| Errs(bi, x, env, st, fuel);
      RunWhole(bi, x, env, st, fuel, S, M);
    }
  }

  lemma StopHalts(bi: Builtins, m: Machine, k: int, h: Machine)
    requires Goes(bi, m, k, h) && h.mode == MHalt
    ensures StopsIn(bi, m, h)
  {
    var n: nat :| n >= k && Reaches(bi, m, n, h);
  }

  lemma WhereFails(bi: Builtins, m: Machine) returns (n: nat, g: Machine)
    requires Fails(bi, m)
    ensures Reaches(bi, m, n, g) && Step(bi, g).Err?
  {
    hide Step, Reaches;
    g :| Goes(bi, m, 0, g) && Step(bi, g).Err?;
    n :| n >= 0 && Reaches(bi, m, n, g);
  }

  /** A run that cannot go on ends as the evaluator says. */
  lemma EndsAs(bi: Builtins, x: Value, env: Env, st: Store, S: seq<Value>, M: seq<Mode>, n: nat, g: Machine)
    requires Reaches(bi, Start(x, env, S, M, st), n, g) && !Step(bi, g).Next?
    ensures if Step(bi, g).Halt? then g == Stop(g.acc, env, S, M, g.st) && HasValue(bi, x, env, st, g.acc, g.st)
            else IsError(bi, x, env, st)
  {
    hide Eval, Step, Reaches;
    var m := Start(x, env, S, M, st);
    RunWhole(bi, x, env, st, n + 1, S, M);
    var r := Eval(bi, x, env, st, n + 1);
    match r
    case Timeout =>
      var m' :| Goes(bi, m, n + 1, m');
      var n': nat :| n' >= n + 1 && Reaches(bi, m, n', m');
      StopIsLast(bi, m, n, g, n', m');
    case Error =>
      assert Errs(bi, x, env, st, n + 1);
      var n', g' := WhereFails(bi, m);
      StopIsLast(bi, m, n, g, n', g');
      StopIsLast(bi, m, n', g', n, g);
    case Ok(v, st', f) =>
      var h := Stop(v, env, S, M, st');
      var n': nat :| Reaches(bi, m, n', h);
      HaltStops(bi, h);
      StopIsLast(bi, m, n, g, n', h);
      StopIsLast(bi, m, n', h, n, g);
      assert Evaluates(bi, x, env, st, n + 1, v, st');
  }

  lemma HaltStops(bi: Builtins, h: Machine)
    requires h.mode == MHalt
    ensures Step(bi, h).Halt?
  {
  }
}
