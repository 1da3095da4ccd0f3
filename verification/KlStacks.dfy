/** The two stacks of kl in every state of a run, and what tail calls do to them. */
module KlStacks {
  import opened KlLanguage
  import opened KlMachine
  import opened KlRefines

  // ---------------------------------------------------------------- values match modes

  /** How many values a mode finds on the stack; the modes without any are never saved. */
  function Cells(mode: Mode): nat {
    match mode
    case MList => 2
    case MAppl => 2
    case MRetn => 1
    case MPred => 1
    case MNotp => 1
    case MSetq => 1
    case MProg => 1
    case _ => 0
  }

  /** What these values are: an environment, the branches of an if, a variable. */
  predicate Fits(mode: Mode, cells: seq<Value>)
    requires |cells| == Cells(mode)
  {
    match mode
    case MRetn => cells[0] == Nil || cells[0].EnvRef?
    case MPred => cells[0].Pair? && cells[0].cdr.Pair?
    case MSetq => cells[0].Sym?
    case _ => true
  }

  /** The values V are exactly those of the modes F, in their order. */
  predicate Frames(F: seq<Mode>, V: seq<Value>)
    decreases |F|
  {
    if F == [] then V == []
    else
      var k := Cells(Top(F));
      0 < k <= |V| && Fits(Top(F), V[|V| - k..]) && Frames(Pop(F), V[..|V| - k])
  }

  function CellsOf(F: seq<Mode>): nat {
    if F == [] then 0 else CellsOf(Pop(F)) + Cells(Top(F))
  }

  lemma {:induction false} FramesCounted(F: seq<Mode>, V: seq<Value>)
    requires Frames(F, V)
    ensures |V| == CellsOf(F)
    decreases |F|
  {
    if F != [] {
      FramesCounted(Pop(F), V[..|V| - Cells(Top(F))]);
    }
  }

  lemma FramesPush(F: seq<Mode>, V: seq<Value>, mode: Mode, cells: seq<Value>)
    requires Frames(F, V) && |cells| == Cells(mode) > 0 && Fits(mode, cells)
    ensures Frames(F + [mode], V + cells)
  {
    assert Top(F + [mode]) == mode && Pop(F + [mode]) == F;
    assert (V + cells)[|V|..] == cells && (V + cells)[..|V|] == V;
  }

  lemma FramesPop(F: seq<Mode>, V: seq<Value>, mode: Mode)
    requires Frames(F + [mode], V)
    ensures
      var k := Cells(mode);
      0 < k <= |V| && Fits(mode, V[|V| - k..]) && Frames(F, V[..|V| - k])
  {
    assert Top(F + [mode]) == mode && Pop(F + [mode]) == F;
  }

  /** The modes whose values are on the stack: those saved, and the one that the machine is in. */
  function Open(m: Machine, F: seq<Mode>): seq<Mode> {
    if m.mode == MExpr || m.mode == MBeta then F else F + [m.mode]
  }

  /** Above the stacks S and M that eval was entered with, the stack matches the modes. */
  ghost predicate Matched(m: Machine, S: seq<Value>, M: seq<Mode>) {
    if m.mode == MHalt then m.stack == S && m.mstack == M
    else exists F, V :: MatchedWith(m, S, M, F, V)
  }

  predicate MatchedWith(m: Machine, S: seq<Value>, M: seq<Mode>, F: seq<Mode>, V: seq<Value>) {
    m.mode != MHalt && m.stack == S + V && m.mstack == M + [MHalt] + F && Frames(Open(m, F), V)
  }

  /** A mode and its values are saved, and an expression is next. */
  lemma Saves(m: Machine, S: seq<Value>, M: seq<Mode>, F: seq<Mode>, V: seq<Value>, mode: Mode, cells: seq<Value>)
    requires Frames(F, V) && |cells| == Cells(mode) > 0 && Fits(mode, cells) && m.mode == MExpr
    requires m.stack == S + V + cells && m.mstack == M + [MHalt] + F + [mode]
    ensures Matched(m, S, M)
  {
    hide Frames;
    FramesPush(F, V, mode, cells);
    assert MatchedWith(m, S, M, F + [mode], V + cells);
  }

  /** The mode to come back to is taken from the mode stack. */
  lemma ComesBack(m: Machine, m': Machine, S: seq<Value>, M: seq<Mode>, F: seq<Mode>, V: seq<Value>, acc: Value)
    requires Frames(F, V) && m.stack == S + V && m.mstack == M + [MHalt] + F && Continue(m, acc) == Next(m')
    ensures Matched(m', S, M)
  {
    if F == [] {
      assert m.stack == S && m'.mstack == M;
    } else {
      assert m'.mstack == M + [MHalt] + Pop(F);
      assert Cells(Top(F)) > 0;
      assert Pop(F) + [Top(F)] == F;
      assert MatchedWith(m', S, M, Pop(F), V);
    }
  }

  lemma Below(S: seq<Value>, V: seq<Value>, k: nat)
    requires k <= |V|
    ensures
      var s := S + V;
      && s[..|s| - k] == S + V[..|V| - k]
      && (k == 1 ==> Top(s) == V[|V| - k..][0] && Pop(s) == S + V[..|V| - 1])
      && (k == 2 ==> s[|s| - 2] == V[|V| - k..][0] && s[|s| - 1] == V[|V| - k..][1])
  {
  }

  /** From an expression, or a list of values, on which no value of a mode is open. */
  lemma StepMatchedNone(bi: Builtins, m: Machine, S: seq<Value>, M: seq<Mode>, F: seq<Mode>, V: seq<Value>)
    requires MatchedWith(m, S, M, F, V) && (m.mode == MExpr || m.mode == MBeta) && Step(bi, m).Next?
    ensures Matched(Step(bi, m).m, S, M)
  {
    hide Frames, Matched, Fetch, Lookup, Immediate, Enter, IsSpecial;
    var m' := Step(bi, m).m;
    if m.mode == MExpr {
      match m.acc
      case Sym(s) => ComesBack(m, m', S, M, F, V, Fetch(m.st, Lookup(m.env, s)));
      case Pair(f, rest) =>
        if IsSpecial(f) {
          StaysMatched(m', S, M, F, V);
        } else {
          Saves(m', S, M, F, V, MList, [rest, Nil]);
        }
      case _ => ComesBack(m, m', S, M, F, V, m.acc);
    } else if IsSpecial(m.acc.car) {
      SpecialMatched(m, S, M, F, V);
    } else if m.acc.car.Sym? {
      ComesBack(m.(st := m.st.(calls := m.st.calls + [m.acc])), m', S, M, F, V, bi(m.acc, m.st.calls));
    } else if m.mstack != [] && Top(m.mstack) == MRetn {
      StaysMatched(m', S, M, F, V);
    } else {
      Saves(m', S, M, F, V, MRetn, [EnvValue(m.env)]);
    }
  }

  lemma StaysMatched(m: Machine, S: seq<Value>, M: seq<Mode>, F: seq<Mode>, V: seq<Value>)
    requires Frames(F, V) && (m.mode == MExpr || m.mode == MBeta) && m.stack == S + V && m.mstack == M + [MHalt] + F
    ensures Matched(m, S, M)
  {
    hide Frames;
    assert MatchedWith(m, S, M, F, V);
  }

  lemma SpecialMatched(m: Machine, S: seq<Value>, M: seq<Mode>, F: seq<Mode>, V: seq<Value>)
    requires MatchedWith(m, S, M, F, V) && m.mode == MBeta && m.acc.Pair? && StepSpecial(m).Next?
    ensures Matched(StepSpecial(m).m, S, M)
  {
    hide Frames, Matched, Immediate;
    var m', x := StepSpecial(m).m, m.acc;
    if Immediate(x, m.env).Some? {
      ComesBack(m, m', S, M, F, V, Immediate(x, m.env).v);
    } else if x.car == Sym(S_IF) {
      Saves(m', S, M, F, V, MPred, [x.cdr.cdr]);
    } else if x.car == Sym(S_IFNOT) {
      Saves(m', S, M, F, V, MNotp, [x.cdr.cdr.car]);
    } else if x.car == Sym(S_PROG) {
      if x.cdr == Nil || x.cdr.cdr == Nil {
        StaysMatched(m', S, M, F, V);
      } else {
        Saves(m', S, M, F, V, MProg, [x.cdr.cdr]);
      }
    } else if x.car == Sym(S_SETQ) {
      Saves(m', S, M, F, V, MSetq, [x.cdr.car]);
    } else {
      Saves(m', S, M, F, V, MAppl, [x.cdr.cdr.car, Nil]);
    }
  }

  /** From a mode that uses its values up, or puts them back. */
  lemma StepMatchedOpen(bi: Builtins, m: Machine, S: seq<Value>, M: seq<Mode>, F: seq<Mode>, V: seq<Value>)
    requires MatchedWith(m, S, M, F, V) && m.mode != MExpr && m.mode != MBeta && Step(bi, m).Next?
    ensures Matched(Step(bi, m).m, S, M)
  {
    hide Frames, Matched, Reverse, Lookup, Put;
    FramesPop(F, V, m.mode);
    var k := Cells(m.mode);
    var V1, cells, m' := V[..|V| - k], V[|V| - k..], Step(bi, m).m;
    Below(S, V, k);
    match m.mode
    case MList =>
      if cells[0] == Nil {
        StaysMatched(m', S, M, F, V1);
      } else {
        Saves(m', S, M, F, V1, MList, [cells[0].cdr, Pair(m.acc, cells[1])]);
      }
    case MAppl =>
      if cells[1] == Nil {
        Saves(m', S, M, F, V1, MAppl, [cells[0], m.acc]);
      } else {
        StaysMatched(m', S, M, F, V1);
      }
    case MPred => StaysMatched(m', S, M, F, V1);
    case MNotp =>
      if m.acc == Nil {
        StaysMatched(m', S, M, F, V1);
      } else {
        ComesBack(m.(stack := S + V1), m', S, M, F, V1, m.acc);
      }
    case MRetn =>
      var e := if cells[0] == Nil then [] else cells[0].ribs;
      ComesBack(m.(env := e, stack := S + V1), m', S, M, F, V1, m.acc);
    case MSetq =>
      var n := cells[0];
      ComesBack(m.(st := Put(m.st, Lookup(m.env, n.s), m.acc), stack := S + V1), m', S, M, F, V1, n);
    case MProg =>
      if cells[0].cdr == Nil {
        StaysMatched(m', S, M, F, V1);
      } else {
        Saves(m', S, M, F, V1, MProg, [cells[0].cdr]);
      }
  }

  lemma StepMatched(bi: Builtins, m: Machine, S: seq<Value>, M: seq<Mode>)
    requires Matched(m, S, M) && Step(bi, m).Next?
    ensures Matched(Step(bi, m).m, S, M)
  {
    hide Frames, StepExpr, StepBeta, StepList, StepApply, StepPred, StepProg;
    var F, V :| MatchedWith(m, S, M, F, V);
    if m.mode == MExpr || m.mode == MBeta {
      StepMatchedNone(bi, m, S, M, F, V);
    } else {
      StepMatchedOpen(bi, m, S, M, F, V);
    }
  }

  /** In every state of every run of eval, the stack above S matches the modes above M. */
  lemma {:induction false} RunsMatch(bi: Builtins, m: Machine, n: nat, m': Machine, S: seq<Value>, M: seq<Mode>)
    requires Matched(m, S, M) && Reaches(bi, m, n, m')
    ensures Matched(m', S, M)
    decreases n
  {
    hide Step, Matched;
    if n > 0 {
      StepMatched(bi, m, S, M);
      RunsMatch(bi, Step(bi, m).m, n - 1, m', S, M);
    }
  }

  lemma StacksMatch(bi: Builtins, x: Value, env: Env, st: Store, S: seq<Value>, M: seq<Mode>, n: nat, m': Machine)
    requires Reaches(bi, Start(x, env, S, M, st), n, m')
    ensures Matched(m', S, M)
    ensures m'.mode != MHalt ==>
              && S <= m'.stack && M + [MHalt] <= m'.mstack
              && |m'.stack| == |S| + CellsOf(Open(m', m'.mstack[|M| + 1..]))
  {
    hide Step, Frames, CellsOf;
    var m := Start(x, env, S, M, st);
    assert MatchedWith(m, S, M, [], []) by {
      NoFrames();
      assert S + [] == S && M + [MHalt] + [] == M + [MHalt];
    }
    RunsMatch(bi, m, n, m', S, M);
    if m'.mode != MHalt {
      var F, V :| MatchedWith(m', S, M, F, V);
      FramesCounted(Open(m', F), V);
      assert m'.mstack[|M| + 1..] == F;
    }
  }

  lemma NoFrames()
    ensures Frames([], [])
  {
  }

  // ---------------------------------------------------------------- tail calls

  /** The call in tail position, if evaluation gets to one: a list of values with a closure in front. */
  datatype Tail = NoTail | TailCall(call: Value, st: Store, fuel: nat)

  /** The call that the value of x is the value of: through if, ifnot, the last form of prog, and apply. */
  function TailOf(bi: Builtins, x: Value, env: Env, st: Store, fuel: nat): (t: Tail)
    ensures t.TailCall? ==> t.fuel <= fuel
    decreases fuel, x, 3
  {
    if !x.Pair? then NoTail
    else if IsSpecial(x.car) then TailOfSpecial(bi, x, env, st, fuel)
    else
      var l := EvalList(bi, x, Nil, env, st, fuel);
      if !l.Ok? || l.fuel == 0 then NoTail else TailOfBeta(bi, l.v, env, l.st, l.fuel - 1)
  }

  function TailOfBeta(bi: Builtins, x: Value, env: Env, st: Store, fuel: nat): (t: Tail)
    ensures t.TailCall? ==> t.fuel <= fuel
    decreases fuel, x, 2
  {
    if !x.Pair? then NoTail
    else if IsSpecial(x.car) then TailOfSpecial(bi, x, env, st, fuel)
    else if x.car.Sym? || Enter(x, st).NoCall? then NoTail
    else TailCall(x, st, fuel)
  }

  function TailOfSpecial(bi: Builtins, x: Value, env: Env, st: Store, fuel: nat): (t: Tail)
    requires x.Pair?
    ensures t.TailCall? ==> t.fuel <= fuel
    decreases fuel, x, 1
  {
    if Immediate(x, env).Some? then NoTail
    else if x.car == Sym(S_IF) && ListOf(x, 4) then
      var r := Eval(bi, x.cdr.car, env, st, fuel);
      if !r.Ok? then NoTail
      else TailOf(bi, if r.v == Nil then x.cdr.cdr.cdr.car else x.cdr.cdr.car, env, r.st, r.fuel)
    else if x.car == Sym(S_IFNOT) && ListOf(x, 3) then
      var r := Eval(bi, x.cdr.car, env, st, fuel);
      if r.Ok? && r.v == Nil then TailOf(bi, x.cdr.cdr.car, env, r.st, r.fuel) else NoTail
    else if x.car == Sym(S_PROG) && x.cdr.Pair? then TailOfBody(bi, x.cdr, env, st, fuel)
    else if x.car == Sym(S_APPLY) && ListOf(x, 3) then
      var r := Eval(bi, x.cdr.car, env, st, fuel);
      if r.Ok? then TailOfApply(bi, r.v, x.cdr.cdr, env, r.st, r.fuel) else NoTail
    else NoTail
  }

  function TailOfBody(bi: Builtins, l: Value, env: Env, st: Store, fuel: nat): (t: Tail)
    requires l.Pair?
    ensures t.TailCall? ==> t.fuel <= fuel
    decreases fuel, l, 0
  {
    if l.cdr == Nil then TailOf(bi, l.car, env, st, fuel)
    else
      var r := Eval(bi, l.car, env, st, fuel);
      if r.Ok? && l.cdr.Pair? then TailOfBody(bi, l.cdr, env, r.st, r.fuel) else NoTail
  }

  function TailOfApply(bi: Builtins, f: Value, l: Value, env: Env, st: Store, fuel: nat): (t: Tail)
    requires l.Pair?
    ensures t.TailCall? ==> t.fuel <= fuel
    decreases fuel, l, 0
  {
    var r := Eval(bi, l.car, env, st, fuel);
    if !r.Ok? || r.fuel == 0 then NoTail
    else if f == Nil then TailOfApply(bi, r.v, l, env, r.st, r.fuel - 1)
    else TailOfBeta(bi, Pair(f, r.v), env, r.st, r.fuel - 1)
  }

  /** The machine m0, which evaluates to r, gets to the call with exactly the stacks S and M, and r is what the call
      gives. */
  ghost predicate TailAt(bi: Builtins, m0: Machine, fuel0: nat, r: Result, t: Tail, env: Env, S: seq<Value>,
                         M: seq<Mode>) {
    t.TailCall? ==>
      && t.call.Pair? && !t.call.car.Sym? && Enter(t.call, t.st).Call?
      && r == Beta(bi, t.call, env, t.st, t.fuel)
      && Goes(bi, m0, fuel0 - t.fuel, Machine(MBeta, t.call, env, S, M, t.st))
  }

  lemma TailFrom(bi: Builtins, m0: Machine, fuel0: nat, m: Machine, fuel: nat, r: Result, t: Tail, env: Env,
                 S: seq<Value>, M: seq<Mode>)
    requires fuel <= fuel0 && Goes(bi, m0, fuel0 - fuel, m) && TailAt(bi, m, fuel, r, t, env, S, M)
    ensures TailAt(bi, m0, fuel0, r, t, env, S, M)
  {
    hide Goes, Beta, Enter;
    if t.TailCall? {
      GoesVia(bi, m0, fuel0 - fuel, m, fuel - t.fuel, Machine(MBeta, t.call, env, S, M, t.st), fuel0 - t.fuel);
    }
  }

  lemma TailNext(bi: Builtins, m0: Machine, m: Machine, fuel: nat, r: Result, t: Tail, env: Env, S: seq<Value>,
                 M: seq<Mode>)
    requires Step(bi, m0) == Next(m) && TailAt(bi, m, fuel, r, t, env, S, M)
    ensures TailAt(bi, m0, fuel, r, t, env, S, M)
  {
    hide Step, Goes, TailAt;
    GoesOne(bi, m0, m);
    GoesHere(bi, m);
    GoesVia(bi, m0, 1, m, 0, m, 0);
    TailFrom(bi, m0, fuel, m, fuel, r, t, env, S, M);
  }

  /** A value below a mode, one step that takes it up, and the tail position behind it. */
  lemma TailThen(bi: Builtins, m0: Machine, fuel0: nat, a: Result, env: Env, S1: seq<Value>, M1: seq<Mode>, mode: Mode,
                 m: Machine, fuel: nat, r: Result, t: Tail, S: seq<Value>, M: seq<Mode>)
    requires mode != MRetn && a.Ok? && Delivers(bi, m0, fuel0, a, env, S1, M1 + [mode])
    requires Step(bi, Machine(mode, a.v, env, S1, M1, a.st)) == Next(m)
    requires fuel <= a.fuel <= fuel0 && fuel + 1 >= a.fuel && TailAt(bi, m, fuel, r, t, env, S, M)
    ensures TailAt(bi, m0, fuel0, r, t, env, S, M)
  {
    hide Step, Goes, Delivers, TailAt;
    Delivered(bi, m0, fuel0, a, env, S1, M1, mode);
    var m1 := Machine(mode, a.v, env, S1, M1, a.st);
    GoesOne(bi, m1, m);
    GoesVia(bi, m0, fuel0 - a.fuel, m1, 1, m, fuel0 - fuel);
    TailFrom(bi, m0, fuel0, m, fuel, r, t, env, S, M);
  }

  lemma NoTailAt(bi: Builtins, m0: Machine, fuel0: nat, r: Result, env: Env, S: seq<Value>, M: seq<Mode>)
    ensures TailAt(bi, m0, fuel0, r, NoTail, env, S, M)
  {
  }

  /** A call in tail position is reached with the stacks as they were when the expression was entered. */
  lemma {:induction false} RunTail(bi: Builtins, x: Value, env: Env, st: Store, fuel: nat, S: seq<Value>, M: seq<Mode>)
    requires M != []
    ensures TailAt(bi, Machine(MExpr, x, env, S, M, st), fuel, Eval(bi, x, env, st, fuel), TailOf(bi, x, env, st, fuel),
                   env, S, M)
    decreases fuel, x, 3
  {
    hide TailAt, Special, EvalList, Beta, TailOfSpecial, TailOfBeta, Goes, ListAt;
    var m0 := Machine(MExpr, x, env, S, M, st);
    if x.Pair? {
      if IsSpecial(x.car) {
        RunTailSpecial(bi, x, env, st, fuel, S, M);
        TailNext(bi, m0, Machine(MBeta, x, env, S, M, st), fuel, Special(bi, x, env, st, fuel),
                 TailOfSpecial(bi, x, env, st, fuel), env, S, M);
      } else {
        RunList(bi, x, Nil, env, st, fuel, S, M);
        ListNext(bi, x, env, st, S, M);
        var l := EvalList(bi, x, Nil, env, st, fuel);
        if l.Ok? && l.fuel > 0 {
          var m1, m2 := ListAt(x, Nil, env, st, S, M), Machine(MBeta, l.v, env, S, M, l.st);
          RunTailBeta(bi, l.v, env, l.st, l.fuel - 1, S, M);
          TailFrom(bi, m1, fuel, m2, l.fuel - 1, Beta(bi, l.v, env, l.st, l.fuel - 1),
                   TailOfBeta(bi, l.v, env, l.st, l.fuel - 1), env, S, M);
          TailNext(bi, m0, m1, fuel, Eval(bi, x, env, st, fuel), TailOf(bi, x, env, st, fuel), env, S, M);
        } else {
          NoTailAt(bi, m0, fuel, Eval(bi, x, env, st, fuel), env, S, M);
        }
      }
    } else {
      NoTailAt(bi, m0, fuel, Eval(bi, x, env, st, fuel), env, S, M);
    }
  }

  lemma ListNext(bi: Builtins, x: Value, env: Env, st: Store, S: seq<Value>, M: seq<Mode>)
    requires x.Pair? && !IsSpecial(x.car)
    ensures Step(bi, Machine(MExpr, x, env, S, M, st)) == Next(ListAt(x, Nil, env, st, S, M))
  {
  }

  lemma {:induction false} RunTailBeta(bi: Builtins, x: Value, env: Env, st: Store, fuel: nat, S: seq<Value>,
                                       M: seq<Mode>)
    requires M != []
    ensures TailAt(bi, Machine(MBeta, x, env, S, M, st), fuel, Beta(bi, x, env, st, fuel),
                   TailOfBeta(bi, x, env, st, fuel), env, S, M)
    decreases fuel, x, 2
  {
    hide Special, TailOfSpecial, Goes, Enter, Eval;
    if x.Pair? {
      if IsSpecial(x.car) {
        RunTailSpecial(bi, x, env, st, fuel, S, M);
      } else {
        GoesHere(bi, Machine(MBeta, x, env, S, M, st));
      }
    }
  }

  lemma {:induction false} RunTailSpecial(bi: Builtins, x: Value, env: Env, st: Store, fuel: nat, S: seq<Value>,
                                          M: seq<Mode>)
    requires M != [] && x.Pair? && IsSpecial(x.car)
    ensures TailAt(bi, Machine(MBeta, x, env, S, M, st), fuel, Special(bi, x, env, st, fuel),
                   TailOfSpecial(bi, x, env, st, fuel), env, S, M)
    decreases fuel, x, 1
  {
    hide TailAt, Delivers, Eval, Body, Apply, TailOf, TailOfBody, TailOfApply, Immediate, Goes;
    var m0 := Machine(MBeta, x, env, S, M, st);
    if Immediate(x, env).None? && x.car == Sym(S_IF) && ListOf(x, 4) {
      var n := x.cdr.cdr;
      var S1, r := S + [n], Eval(bi, x.cdr.car, env, st, fuel);
      var m1 := Machine(MExpr, x.cdr.car, env, S1, M + [MPred], st);
      RunEval(bi, x.cdr.car, env, st, fuel, S1, M + [MPred]);
      if r.Ok? {
        assert Top(S1) == n && Pop(S1) == S;
        var b := if r.v == Nil then n.cdr.car else n.car;
        RunTail(bi, b, env, r.st, r.fuel, S, M);
        TailThen(bi, m1, fuel, r, env, S1, M, MPred, Machine(MExpr, b, env, S, M, r.st), r.fuel,
                 Eval(bi, b, env, r.st, r.fuel), TailOf(bi, b, env, r.st, r.fuel), S, M);
        TailNext(bi, m0, m1, fuel, Special(bi, x, env, st, fuel), TailOfSpecial(bi, x, env, st, fuel), env, S, M);
      } else {
        NoTailAt(bi, m0, fuel, Special(bi, x, env, st, fuel), env, S, M);
      }
    } else if Immediate(x, env).None? && x.car == Sym(S_IFNOT) && ListOf(x, 3) {
      RunTailIfnot(bi, x, env, st, fuel, S, M);
    } else if Immediate(x, env).None? && x.car == Sym(S_PROG) && x.cdr.Pair? {
      RunTailBody(bi, x.cdr, env, st, fuel, S, M);
      TailNext(bi, m0, BodyAt(x.cdr, env, st, S, M), fuel, Body(bi, x.cdr, env, st, fuel),
               TailOfBody(bi, x.cdr, env, st, fuel), env, S, M);
    } else if Immediate(x, env).None? && x.car == Sym(S_APPLY) && ListOf(x, 3) {
      RunTailApplyForm(bi, x, env, st, fuel, S, M);
    } else {
      NoTailAt(bi, m0, fuel, Special(bi, x, env, st, fuel), env, S, M);
    }
  }

  lemma {:induction false} RunTailIfnot(bi: Builtins, x: Value, env: Env, st: Store, fuel: nat, S: seq<Value>,
                                        M: seq<Mode>)
    requires M != [] && x.Pair? && x.car == Sym(S_IFNOT) && ListOf(x, 3) && Immediate(x, env).None?
    ensures TailAt(bi, Machine(MBeta, x, env, S, M, st), fuel, Special(bi, x, env, st, fuel),
                   TailOfSpecial(bi, x, env, st, fuel), env, S, M)
    decreases fuel, x, 0
  {
    hide TailAt, Delivers, Eval, Body, Apply, TailOf, TailOfBody, TailOfApply, Immediate, Goes;
    var m0, n := Machine(MBeta, x, env, S, M, st), x.cdr.cdr.car;
    var S1, r := S + [n], Eval(bi, x.cdr.car, env, st, fuel);
    var m1 := Machine(MExpr, x.cdr.car, env, S1, M + [MNotp], st);
    RunEval(bi, x.cdr.car, env, st, fuel, S1, M + [MNotp]);
    if r.Ok? && r.v == Nil {
      assert Top(S1) == n && Pop(S1) == S;
      RunTail(bi, n, env, r.st, r.fuel, S, M);
      TailThen(bi, m1, fuel, r, env, S1, M, MNotp, Machine(MExpr, n, env, S, M, r.st), r.fuel,
               Eval(bi, n, env, r.st, r.fuel), TailOf(bi, n, env, r.st, r.fuel), S, M);
      TailNext(bi, m0, m1, fuel, Special(bi, x, env, st, fuel), TailOfSpecial(bi, x, env, st, fuel), env, S, M);
    } else {
      NoTailAt(bi, m0, fuel, Special(bi, x, env, st, fuel), env, S, M);
    }
  }

  lemma {:induction false} RunTailBody(bi: Builtins, l: Value, env: Env, st: Store, fuel: nat, S: seq<Value>,
                                       M: seq<Mode>)
    requires l.Pair? && M != []
    ensures TailAt(bi, BodyAt(l, env, st, S, M), fuel, Body(bi, l, env, st, fuel), TailOfBody(bi, l, env, st, fuel),
                   env, S, M)
    decreases fuel, l, 0
  {
    hide TailAt, Delivers, Eval, TailOf, Goes;
    var m0, r := BodyAt(l, env, st, S, M), Eval(bi, l.car, env, st, fuel);
    if l.cdr == Nil {
      BodyIsLast(bi, l, env, st, fuel);
      RunTail(bi, l.car, env, st, fuel, S, M);
    } else {
      var S1 := S + [l.cdr];
      RunEval(bi, l.car, env, st, fuel, S1, M + [MProg]);
      if r.Ok? && l.cdr.Pair? {
        assert Top(S1) == l.cdr && Pop(S1) == S;
        RunTailBody(bi, l.cdr, env, r.st, r.fuel, S, M);
        TailThen(bi, m0, fuel, r, env, S1, M, MProg, BodyAt(l.cdr, env, r.st, S, M), r.fuel,
                 Body(bi, l.cdr, env, r.st, r.fuel), TailOfBody(bi, l.cdr, env, r.st, r.fuel), S, M);
      } else {
        NoTailAt(bi, m0, fuel, Body(bi, l, env, st, fuel), env, S, M);
      }
    }
  }

  lemma BodyIsLast(bi: Builtins, l: Value, env: Env, st: Store, fuel: nat)
    requires l.Pair? && l.cdr == Nil
    ensures Body(bi, l, env, st, fuel) == Eval(bi, l.car, env, st, fuel)
  {
    hide Eval;
  }

  lemma {:induction false} RunTailApplyForm(bi: Builtins, x: Value, env: Env, st: Store, fuel: nat, S: seq<Value>,
                                            M: seq<Mode>)
    requires M != [] && x.Pair? && x.car == Sym(S_APPLY) && ListOf(x, 3) && Immediate(x, env).None?
    ensures TailAt(bi, Machine(MBeta, x, env, S, M, st), fuel, Special(bi, x, env, st, fuel),
                   TailOfSpecial(bi, x, env, st, fuel), env, S, M)
    decreases fuel, x, 0
  {
    hide TailAt, Delivers, Eval, Body, Apply, TailOf, TailOfBody, TailOfApply, Immediate, Goes;
    var m0, l := Machine(MBeta, x, env, S, M, st), x.cdr.cdr;
    var S1, r := S + [l.car, Nil], Eval(bi, x.cdr.car, env, st, fuel);
    var m1 := Machine(MExpr, x.cdr.car, env, S1, M + [MAppl], st);
    RunEval(bi, x.cdr.car, env, st, fuel, S1, M + [MAppl]);
    if r.Ok? {
      assert S1[..|S1| - 2] == S;
      RunTailApply(bi, r.v, l, env, r.st, r.fuel, S, M);
      TailThen(bi, m1, fuel, r, env, S1, M, MAppl, ApplyAt(r.v, l, env, r.st, S, M), r.fuel,
               Apply(bi, r.v, l, env, r.st, r.fuel), TailOfApply(bi, r.v, l, env, r.st, r.fuel), S, M);
      TailNext(bi, m0, m1, fuel, Special(bi, x, env, st, fuel), TailOfSpecial(bi, x, env, st, fuel), env, S, M);
    } else {
      NoTailAt(bi, m0, fuel, Special(bi, x, env, st, fuel), env, S, M);
    }
  }

  lemma {:induction false} RunTailApply(bi: Builtins, f: Value, l: Value, env: Env, st: Store, fuel: nat, S: seq<Value>,
                                        M: seq<Mode>)
    requires l.Pair? && M != []
    ensures TailAt(bi, ApplyAt(f, l, env, st, S, M), fuel, Apply(bi, f, l, env, st, fuel),
                   TailOfApply(bi, f, l, env, st, fuel), env, S, M)
    decreases fuel, l, 0
  {
    hide TailAt, Delivers, Eval, Beta, TailOfBeta, Goes;
    var m0, S1 := ApplyAt(f, l, env, st, S, M), S + [l.car, f];
    var r := Eval(bi, l.car, env, st, fuel);
    RunEval(bi, l.car, env, st, fuel, S1, M + [MAppl]);
    assert S1[..|S1| - 2] == S;
    if !r.Ok? || r.fuel == 0 {
      NoTailAt(bi, m0, fuel, Apply(bi, f, l, env, st, fuel), env, S, M);
    } else if f == Nil {
      RunTailApply(bi, r.v, l, env, r.st, r.fuel - 1, S, M);
      TailThen(bi, m0, fuel, r, env, S1, M, MAppl, ApplyAt(r.v, l, env, r.st, S, M), r.fuel - 1,
               Apply(bi, r.v, l, env, r.st, r.fuel - 1), TailOfApply(bi, r.v, l, env, r.st, r.fuel - 1), S, M);
    } else {
      var x := Pair(f, r.v);
      RunTailBeta(bi, x, env, r.st, r.fuel - 1, S, M);
      TailThen(bi, m0, fuel, r, env, S1, M, MAppl, Machine(MBeta, x, env, S, M, r.st), r.fuel - 1,
               Beta(bi, x, env, r.st, r.fuel - 1), TailOfBeta(bi, x, env, r.st, r.fuel - 1), S, M);
    }
  }

  // ---------------------------------------------------------------- chains of tail calls

  /** What is evaluated after n tail calls in a row. */
  datatype Chain = Over | On(x: Value, env: Env, st: Store, fuel: nat)

  function AfterCalls(bi: Builtins, n: nat, x: Value, env: Env, st: Store, fuel: nat): (c: Chain)
    ensures c.On? ==> c.fuel + n <= fuel
    decreases n
  {
    if n == 0 then On(x, env, st, fuel)
    else
      var t := TailOf(bi, x, env, st, fuel);
      if t.NoTail? || Enter(t.call, t.st).NoCall? || t.fuel == 0 then Over
      else
        var c := Enter(t.call, t.st);
        AfterCalls(bi, n - 1, c.body, c.env, c.st, t.fuel - 1)
  }

  /** In the body of a function, any number of tail calls leads to the body of the last one with exactly the stacks that
      the first body was entered with, and its value is the value of the first one. */
  lemma {:induction false} TailCalls(bi: Builtins, n: nat, x: Value, env: Env, st: Store, fuel: nat, S: seq<Value>,
                                     M: seq<Mode>)
    requires M != [] && Top(M) == MRetn
    ensures
      var c := AfterCalls(bi, n, x, env, st, fuel);
      c.On? ==>
        && Eval(bi, x, env, st, fuel) == Eval(bi, c.x, c.env, c.st, c.fuel)
        && Goes(bi, Machine(MExpr, x, env, S, M, st), n, Machine(MExpr, c.x, c.env, S, M, c.st))
    decreases n
  {
    hide Eval, TailOf, Enter, Goes, Beta, Step;
    var m0 := Machine(MExpr, x, env, S, M, st);
    if n == 0 {
      GoesHere(bi, m0);
    } else {
      RunTail(bi, x, env, st, fuel, S, M);
      var t := TailOf(bi, x, env, st, fuel);
      if t.TailCall? && t.fuel > 0 {
        var e := Enter(t.call, t.st);
        var m1, m2 := Machine(MBeta, t.call, env, S, M, t.st), Machine(MExpr, e.body, e.env, S, M, e.st);
        RunTailCall(bi, t.call, env, t.st, t.fuel, S, M);
        BetaIsCall(bi, t.call, env, t.st, t.fuel);
        GoesOne(bi, m1, m2);
        GoesVia(bi, m0, fuel - t.fuel, m1, 1, m2, 1);
        TailCalls(bi, n - 1, e.body, e.env, e.st, t.fuel - 1, S, M);
        var c := AfterCalls(bi, n, x, env, st, fuel);
        if c.On? {
          GoesVia(bi, m0, 1, m2, n - 1, Machine(MExpr, c.x, c.env, S, M, c.st), n);
        }
      }
    }
  }

  lemma BetaIsCall(bi: Builtins, x: Value, env: Env, st: Store, fuel: nat)
    requires x.Pair? && !x.car.Sym? && Enter(x, st).Call? && fuel > 0
    ensures
      var c := Enter(x, st);
      Beta(bi, x, env, st, fuel) == Eval(bi, c.body, c.env, c.st, fuel - 1)
  {
    hide Eval, Enter;
  }

  /** A call from anywhere else saves one environment and one mode, whatever the number of tail calls after it. */
  lemma CallThenTailCalls(bi: Builtins, n: nat, x: Value, env: Env, st: Store, fuel: nat, S: seq<Value>, M: seq<Mode>)
    requires x.Pair? && !x.car.Sym? && Enter(x, st).Call? && (M == [] || Top(M) != MRetn)
    ensures
      var e := Enter(x, st);
      var c := AfterCalls(bi, n, e.body, e.env, e.st, fuel);
      c.On? ==> Goes(bi, Machine(MBeta, x, env, S, M, st), n + 1,
                     Machine(MExpr, c.x, c.env, S + [EnvValue(env)], M + [MRetn], c.st))
  {
    hide Eval, TailOf, Enter, Goes, AfterCalls;
    var e := Enter(x, st);
    var S1, M1, c := S + [EnvValue(env)], M + [MRetn], AfterCalls(bi, n, e.body, e.env, e.st, fuel);
    var m0, m1 := Machine(MBeta, x, env, S, M, st), Machine(MExpr, e.body, e.env, S1, M1, e.st);
    GoesOne(bi, m0, m1);
    TailCalls(bi, n, e.body, e.env, e.st, fuel, S1, M1);
    if c.On? {
      GoesVia(bi, m0, 1, m1, n, Machine(MExpr, c.x, c.env, S1, M1, c.st), n + 1);
    }
  }
}
