/** The evaluator of kl as it works: registers, two stacks, and one loop over the modes. */
module KlEval {
  import opened KlLanguage
  import opened KlMachine
  import opened KlRefines

  datatype Status = Going | Halted | Failed

  class Evaluator {
    const bi: Builtins
    var mode: Mode
    var acc: Value
    var env: Env
    var stack: seq<Value>
    var mstack: seq<Mode>
    var store: Store

    constructor (bi: Builtins, store: Store)
      ensures this.bi == bi && this.store == store && env == [] && stack == [] && mstack == []
    {
      this.bi, this.store := bi, store;
      mode, acc, env, stack, mstack := MHalt, Nil, [], [], [];
    }

    function State(): Machine
      reads this
    {
      Machine(mode, acc, env, stack, mstack, store)
    }

    /** The registers are what a step from m gives. */
    predicate Did(m: Machine, status: Status)
      reads this
    {
      match status
      case Going => Step(bi, m) == Next(State())
      case Halted => Step(bi, m).Halt? && State() == m
      case Failed => Step(bi, m).Err?
    }

    method Save(n: Value)
      modifies this`stack
      ensures stack == old(stack) + [n]
    {
      stack := stack + [n];
    }

    method Unsave() returns (n: Value)
      requires stack != []
      modifies this`stack
      ensures n == Top(old(stack)) && stack == Pop(old(stack))
    {
      n := stack[|stack| - 1];
      stack := stack[..|stack| - 1];
    }

    method Msave(m: Mode)
      modifies this`mstack
      ensures mstack == old(mstack) + [m]
    {
      mstack := mstack + [m];
    }

    /** Back to the mode on top of the mode stack. */
    method Munsave() returns (status: Status)
      modifies this`mstack, this`mode
      ensures if old(mstack) == [] then status == Failed
              else status == Going && mode == Top(old(mstack)) && mstack == Pop(old(mstack))
    {
      if mstack == [] {
        return Failed;
      }
      mode := mstack[|mstack| - 1];
      mstack := mstack[..|mstack| - 1];
      return Going;
    }

    /** The box of a symbol: the first one in the ribs, or its own. */
    method FindBox(sym: nat) returns (p: Place)
      ensures p == Lookup(env, sym)
    {
      var e := env;
      while e != []
        invariant Lookup(e, sym) == Lookup(env, sym)
        decreases |e|
      {
        var a := e[0];
        while a != []
          invariant InRib(a, sym) == InRib(e[0], sym)
          decreases |a|
        {
          if a[0].sym == sym {
            return Box(a[0].box);
          }
          a := a[1..];
        }
        e := e[1..];
      }
      return Global(sym);
    }

    /** Parameters are bound one by one, each in a new box. */
    method Bindargs(v0: Value, a0: Value, outer: Env) returns (status: Status)
      modifies this`env, this`store
      ensures
        var b := Bind(v0, a0, [], old(store));
        if b.BadArgs? then status == Failed
        else status == Going && env == [b.rib] + outer && store == b.st
    {
      var v, a := v0, a0;
      var e: Rib := [];
      while v.Pair?
        invariant Bind(v, a, e, store) == Bind(v0, a0, [], old(store))
        decreases v
      {
        if !v.car.Sym? || !a.Pair? {
          return Failed;
        }
        e := [Binding(v.car.s, |store.boxes|)] + e;
        store := store.(boxes := store.boxes + [a.car]);
        v, a := v.cdr, a.cdr;
      }
      if v.Sym? {
        e := [Binding(v.s, |store.boxes|)] + e;
        store := store.(boxes := store.boxes + [a]);
      } else if a != Nil {
        return Failed;
      }
      env := [e] + outer;
      return Going;
    }

    /** A call; the environment is saved only if something other than a return follows. */
    method Funapp() returns (status: Status)
      requires acc.Pair?
      modifies this
      ensures
        var m := old(State());
        match StepCall(m)
        case Next(m') => status == Going && State() == m'
        case _ => status == Failed
    {
      var f := acc.car;
      if !f.Pair? || f.car != Sym(S_LAMSTAR) || !f.cdr.Pair? || !f.cdr.cdr.Pair?
         || !(f.cdr.car == Nil || f.cdr.car.EnvRef?) {
        return Failed;
      }
      var outer := if f.cdr.car == Nil then [] else f.cdr.car.ribs;
      var tail := mstack != [] && mstack[|mstack| - 1] == MRetn;
      var saved := EnvValue(env);
      status := Bindargs(f.cdr.cdr.car, acc.cdr, outer);
      if status == Failed {
        return;
      }
      if !tail {
        Save(saved);
        Msave(MRetn);
      }
      acc := Pair(Sym(S_PROG), f.cdr.cdr.cdr);
      mode := MExpr;
    }

    /** Evaluate x, and then go on in mode m. */
    method Later(x: Value, m: Mode)
      modifies this`acc, this`mode, this`mstack
      ensures acc == x && mode == MExpr && mstack == old(mstack) + [m]
    {
      Msave(m);
      acc := x;
      mode := MExpr;
    }

    /** lambda needs parameters and an expression, and the parameters are symbols. */
    method Cklam(x: Value) returns (ok: bool)
      ensures ok == GoodLambda(x)
    {
      if !Long(x) {
        return false;
      }
      var p := x.cdr.car;
      while p.Pair?
        invariant Symbols(p) == Symbols(x.cdr.car)
        decreases p
      {
        if !p.car.Sym? {
          return false;
        }
        p := p.cdr;
      }
      return true;
    }

    /** A form that has its value at once: on with what the mode stack says. */
    method Return(v: Value) returns (status: Status)
      modifies this`acc, this`mstack, this`mode
      ensures if old(mstack) == [] then status == Failed
              else status == Going && acc == v && mode == Top(old(mstack)) && mstack == Pop(old(mstack))
    {
      status := Munsave();
      acc := v;
    }

    /** The forms whose value needs no evaluation. */
    method Constant() returns (status: Status)
      requires mode == MBeta && acc.Pair?
      requires acc.car == Sym(S_QUOTE) || acc.car == Sym(S_LAMBDA) || acc.car == Sym(S_LAMSTAR)
               || acc.car == Sym(S_MACRO)
      modifies this
      ensures Did(old(State()), status)
    {
      var x := acc;
      status := Failed;
      if x.car == Sym(S_QUOTE) {
        if ListOf(x, 2) {
          status := Return(x.cdr.car);
        }
      } else if x.car == Sym(S_LAMBDA) {
        var ok := Cklam(x);
        if ok {
          status := Return(Pair(Sym(S_LAMSTAR), Pair(EnvValue(env), x.cdr)));
        }
      } else if x.car == Sym(S_LAMSTAR) {
        if Long(x) {
          status := Return(x);
        }
      } else if ListOf(x, 2) && x.cdr.car.Pair? && x.cdr.car.car == Sym(S_LAMBDA) {
        var ok := Cklam(x.cdr.car);
        if ok {
          status := Return(Pair(Sym(S_MACRO),
                                Pair(Pair(Sym(S_LAMSTAR), Pair(EnvValue(env), x.cdr.car.cdr)), Nil)));
        }
      }
    }

    method SpecialForm() returns (status: Status)
      requires mode == MBeta && acc.Pair? && IsSpecial(acc.car)
      modifies this
      ensures Did(old(State()), status)
    {
      var x := acc;
      if x.car == Sym(S_QUOTE) || x.car == Sym(S_LAMBDA) || x.car == Sym(S_LAMSTAR) || x.car == Sym(S_MACRO) {
        status := Constant();
        return;
      }
      assert Immediate(x, env).None?;
      hide Immediate;
      status := Going;
      if x.car == Sym(S_IF) && ListOf(x, 4) {
        Save(x.cdr.cdr);
        Later(x.cdr.car, MPred);
      } else if x.car == Sym(S_IFNOT) && ListOf(x, 3) {
        Save(x.cdr.cdr.car);
        Later(x.cdr.car, MNotp);
      } else if x.car == Sym(S_PROG) {
        if x.cdr == Nil {
          acc, mode := Nil, MExpr;
        } else if !x.cdr.Pair? {
          status := Failed;
        } else if x.cdr.cdr == Nil {
          acc, mode := x.cdr.car, MExpr;
        } else {
          Save(x.cdr.cdr);
          Later(x.cdr.car, MProg);
        }
      } else if x.car == Sym(S_SETQ) && ListOf(x, 3) && x.cdr.car.Sym? {
        Save(x.cdr.car);
        Later(x.cdr.cdr.car, MSetq);
      } else if x.car == Sym(S_APPLY) && ListOf(x, 3) {
        Save(x.cdr.cdr.car);
        Save(Nil);
        Later(x.cdr.car, MAppl);
        assert old(stack) + [x.cdr.cdr.car] + [Nil] == old(stack) + [x.cdr.cdr.car, Nil];
      } else {
        status := Failed;
      }
    }

    method Expression() returns (status: Status)
      requires mode == MExpr
      modifies this
      ensures Did(old(State()), status)
    {
      status := Going;
      if acc.Sym? {
        var p := FindBox(acc.s);
        var n := Fetch(store, p);
        if n == Undef {
          return Failed;
        }
        acc := n;
        status := Munsave();
      } else if !acc.Pair? {
        status := Munsave();
      } else if IsSpecial(acc.car) {
        mode := MBeta;
      } else {
        Save(acc.cdr);
        Save(Nil);
        assert old(stack) + [acc.cdr] + [Nil] == old(stack) + [acc.cdr, Nil];
        Later(acc.car, MList);
      }
    }

    /** An element of a list has its value. */
    method Element() returns (status: Status)
      requires mode == MList
      modifies this
      ensures Did(old(State()), status)
    {
      if |stack| < 2 {
        return Failed;
      }
      var done := Unsave();
      var rest := Unsave();
      status := Going;
      if rest == Nil {
        acc := Reverse(Pair(acc, done), Nil);
        mode := MBeta;
      } else if rest.Pair? {
        Save(rest.cdr);
        Save(Pair(acc, done));
        Later(rest.car, MList);
      } else {
        status := Failed;
      }
    }

    method Application() returns (status: Status)
      requires mode == MAppl
      modifies this
      ensures Did(old(State()), status)
    {
      if |stack| < 2 {
        return Failed;
      }
      var f := Unsave();
      var arg := Unsave();
      if f == Nil {
        Save(arg);
        Save(acc);
        Later(arg, MAppl);
      } else {
        acc := Pair(f, acc);
        mode := MBeta;
      }
      return Going;
    }

    /** The modes that come back to one value on the stack. */
    method Resume() returns (status: Status)
      requires mode == MPred || mode == MNotp || mode == MRetn || mode == MSetq || mode == MProg
      modifies this
      ensures Did(old(State()), status)
    {
      if stack == [] {
        return Failed;
      }
      var n := Unsave();
      status := Going;
      match mode
      case MPred =>
        if n.Pair? && n.cdr.Pair? {
          acc, mode := if acc == Nil then n.cdr.car else n.car, MExpr;
        } else {
          status := Failed;
        }
      case MNotp =>
        if acc == Nil {
          acc, mode := n, MExpr;
        } else {
          status := Munsave();
        }
      case MRetn =>
        if n == Nil || n.EnvRef? {
          env := if n == Nil then [] else n.ribs;
          status := Munsave();
        } else {
          status := Failed;
        }
      case MSetq =>
        if n.Sym? {
          var p := FindBox(n.s);
          store := Put(store, p, acc);
          acc := n;
          status := Munsave();
        } else {
          status := Failed;
        }
      case MProg =>
        if !n.Pair? {
          status := Failed;
        } else if n.cdr == Nil {
          acc, mode := n.car, MExpr;
        } else {
          Save(n.cdr);
          Later(n.car, MProg);
        }
    }

    /** One round of the loop. */
    method Round() returns (status: Status)
      modifies this
      ensures Did(old(State()), status)
    {
      hide Immediate, Enter;
      if mode == MExpr {
        status := Expression();
      } else if mode == MList {
        status := Element();
      } else if mode == MAppl {
        status := Application();
      } else if mode == MHalt {
        return Halted;
      } else if mode != MBeta {
        status := Resume();
      } else if !acc.Pair? {
        return Failed;
      } else if IsSpecial(acc.car) {
        status := SpecialForm();
      } else if acc.car.Sym? {
        var v := bi(acc, store.calls);
        if v == Undef {
          return Failed;
        }
        store := store.(calls := store.calls + [acc]);
        acc := v;
        status := Munsave();
      } else {
        status := Funapp();
      }
    }

    /** At most limit rounds. What it stops with is the value of the expression, and stacks and environment are as
        before. */
    method Eval(x: Value, limit: nat) returns (status: Status)
      modifies this
      ensures status == Halted ==>
                && HasValue(bi, x, old(env), old(store), acc, store)
                && env == old(env) && stack == old(stack) && mstack == old(mstack)
      ensures status == Failed ==> IsError(bi, x, old(env), old(store))
      ensures status == Going ==> Runs(bi, Start(x, old(env), old(stack), old(mstack), old(store)), limit)
    {
      hide Step, Reaches, HasValue, IsError;
      ghost var m0 := Start(x, env, stack, mstack, store);
      acc := x;
      Msave(MHalt);
      mode := MExpr;
      var n := 0;
      NoRounds(bi, m0);
      while n < limit
        invariant n <= limit && Reaches(bi, m0, n, State())
      {
        ghost var m := State();
        status := Round();
        if status != Going {
          EndsAs(bi, x, old(env), old(store), old(stack), old(mstack), n, m);
          return;
        }
        OneRound(bi, m0, n, m, State());
        n := n + 1;
      }
      KeepsGoing(bi, m0, limit, State());
      return Going;
    }
  }

  lemma NoRounds(bi: Builtins, m: Machine)
    ensures Reaches(bi, m, 0, m)
  {
    hide Step;
  }

  lemma OneRound(bi: Builtins, m0: Machine, n: nat, m: Machine, m': Machine)
    requires Reaches(bi, m0, n, m) && Step(bi, m) == Next(m')
    ensures Reaches(bi, m0, n + 1, m')
  {
    hide Step;
    assert Reaches(bi, m', 0, m');
    assert Reaches(bi, m, 1, m');
    ReachesTrans(bi, m0, n, m, 1, m');
  }

  lemma KeepsGoing(bi: Builtins, m0: Machine, n: nat, m: Machine)
    requires Reaches(bi, m0, n, m)
    ensures Runs(bi, m0, n)
  {
    hide Step;
    assert Goes(bi, m0, n, m);
  }
}
