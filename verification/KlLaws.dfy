/** What evaluation means in kl, as laws about the values that Eval gives: quotation, variables, assignment, and the
    lexical scope of closures. */
module KlLaws {
  import opened KlLanguage

  // ---------------------------------------------------------------- lists

  /** The list of xs that ends with tail. */
  function FromSeq(xs: seq<Value>, tail: Value): Value {
    if xs == [] then tail else Pair(xs[0], FromSeq(xs[1..], tail))
  }

  function List(xs: seq<Value>): Value {
    FromSeq(xs, Nil)
  }

  function Syms(ss: seq<nat>): (xs: seq<Value>)
    ensures |xs| == |ss| && forall i :: 0 <= i < |ss| ==> xs[i] == Sym(ss[i])
  {
    seq(|ss|, i requires 0 <= i < |ss| => Sym(ss[i]))
  }

  lemma {:induction false} ListOfList(xs: seq<Value>)
    ensures ListOf(List(xs), |xs|) && Proper(List(xs))
    decreases |xs|
  {
    if xs != [] {
      ListOfList(xs[1..]);
    }
  }

  /** The checks of the special forms: exactly n elements, a proper list, and a list of symbols with any end. */
  lemma {:induction false} ListOfIs(v: Value, n: nat)
    ensures ListOf(v, n) <==> exists xs :: |xs| == n && v == List(xs)
    decreases n
  {
    if n == 0 {
      assert List([]) == Nil;
    } else if v.Pair? {
      ListOfIs(v.cdr, n - 1);
      if ListOf(v.cdr, n - 1) {
        var xs :| |xs| == n - 1 && v.cdr == List(xs);
        assert ([v.car] + xs)[1..] == xs && v == List([v.car] + xs);
      }
      forall xs: seq<Value> | |xs| == n && v == List(xs) ensures ListOf(v.cdr, n - 1) {
        assert |xs[1..]| == n - 1 && v.cdr == List(xs[1..]);
      }
    }
  }

  lemma {:induction false} ProperIs(v: Value)
    ensures Proper(v) <==> exists xs :: v == List(xs)
    decreases v
  {
    if v.Pair? {
      ProperIs(v.cdr);
      if Proper(v.cdr) {
        var xs :| v.cdr == List(xs);
        assert ([v.car] + xs)[1..] == xs && v == List([v.car] + xs);
      }
      forall xs: seq<Value> | v == List(xs) ensures Proper(v.cdr) {
        assert v.cdr == List(xs[1..]);
      }
    } else {
      assert List([]) == Nil;
    }
  }

  lemma {:induction false} SymbolsIs(v: Value)
    ensures Symbols(v) <==> exists ss, tail: Value :: !tail.Pair? && v == FromSeq(Syms(ss), tail)
    decreases v
  {
    if v.Pair? {
      SymbolsIs(v.cdr);
      if Symbols(v) {
        var ss, tail: Value :| !tail.Pair? && v.cdr == FromSeq(Syms(ss), tail);
        SymsStep([v.car.s] + ss, tail);
        assert ([v.car.s] + ss)[1..] == ss;
      }
      forall ss, tail: Value | !tail.Pair? && v == FromSeq(Syms(ss), tail) ensures Symbols(v) {
        SymsStep(ss, tail);
      }
    } else {
      assert Syms([]) == [] && v == FromSeq(Syms([]), v);
    }
  }

  lemma SymsStep(ss: seq<nat>, tail: Value)
    ensures ss == [] ==> FromSeq(Syms(ss), tail) == tail
    ensures ss != [] ==> FromSeq(Syms(ss), tail) == Pair(Sym(ss[0]), FromSeq(Syms(ss[1..]), tail))
  {
    if ss != [] {
      assert Syms(ss)[1..] == Syms(ss[1..]);
    }
  }

  // ---------------------------------------------------------------- values

  lemma Quoted(bi: Builtins, v: Value, env: Env, st: Store, fuel: nat)
    ensures Eval(bi, List([Sym(S_QUOTE), v]), env, st, fuel) == Ok(v, st, fuel)
  {
    var x := List([Sym(S_QUOTE), v]);
    TwoElements(Sym(S_QUOTE), v);
    SpecialIs(bi, x, env, st, fuel);
    hide Eval, FromSeq;
  }

  lemma TwoElements(a: Value, b: Value)
    ensures List([a, b]) == Pair(a, Pair(b, Nil)) && ListOf(List([a, b]), 2)
  {
    assert [a, b][1..] == [b] && [b][1..] == [];
    assert FromSeq([b], Nil) == Pair(b, FromSeq([], Nil)) == Pair(b, Nil);
    ListOfList([a, b]);
  }

  lemma ThreeElements(a: Value, b: Value, c: Value)
    ensures List([a, b, c]) == Pair(a, Pair(b, Pair(c, Nil))) && ListOf(List([a, b, c]), 3)
  {
    assert [a, b, c][1..] == [b, c];
    TwoElements(b, c);
    ListOfList([a, b, c]);
  }

  /** xs evaluate to vs, from left to right. */
  ghost predicate Values(bi: Builtins, xs: seq<Value>, env: Env, st: Store, fuel: nat, vs: seq<Value>, st': Store,
                         fuel': nat)
    decreases |xs|
  {
    && |vs| == |xs|
    && if xs == [] then st' == st && fuel' == fuel
       else
         var r := Eval(bi, xs[0], env, st, fuel);
         r.Ok? && vs[0] == r.v && Values(bi, xs[1..], env, r.st, r.fuel, vs[1..], st', fuel')
  }

  lemma {:induction false} ListValues(bi: Builtins, xs: seq<Value>, done: Value, env: Env, st: Store, fuel: nat,
                                      vs: seq<Value>, st': Store, fuel': nat)
    requires xs != [] && Values(bi, xs, env, st, fuel, vs, st', fuel')
    ensures EvalList(bi, List(xs), done, env, st, fuel) == Ok(Reverse(done, List(vs)), st', fuel')
    decreases |xs|
  {
    hide Eval;
    var r := Eval(bi, xs[0], env, st, fuel);
    assert Reverse(Pair(r.v, done), List(vs[1..])) == Reverse(done, Pair(r.v, List(vs[1..])));
    assert Pair(r.v, List(vs[1..])) == List(vs);
    if |xs| == 1 {
      assert List(xs[1..]) == Nil && vs[1..] == [];
    } else {
      assert List(xs).cdr == List(xs[1..]) && List(xs[1..]).Pair?;
      ListValues(bi, xs[1..], Pair(r.v, done), env, r.st, r.fuel, vs[1..], st', fuel');
    }
  }

  predicate Reserved(x: Value) {
    x.Sym? && x.s <= S_SETQ
  }

  /** What is applied is the list of the values, in their order. */
  lemma Applied(bi: Builtins, xs: seq<Value>, env: Env, st: Store, fuel: nat, vs: seq<Value>, st': Store, fuel': nat)
    requires xs != [] && !Reserved(xs[0]) && Values(bi, xs, env, st, fuel, vs, st', fuel') && fuel' > 0
    ensures Eval(bi, List(xs), env, st, fuel) == Beta(bi, List(vs), env, st', fuel' - 1)
  {
    hide EvalList, Beta, Special;
    ListValues(bi, xs, Nil, env, st, fuel, vs, st', fuel');
  }

  /** A built-in function gets its values, and is asked once. */
  lemma BuiltinCalled(bi: Builtins, xs: seq<Value>, env: Env, st: Store, fuel: nat, vs: seq<Value>, st': Store,
                      fuel': nat)
    requires xs != [] && !Reserved(xs[0]) && Values(bi, xs, env, st, fuel, vs, st', fuel') && fuel' > 0
    requires vs[0].Sym? && !Reserved(vs[0])
    ensures
      var v := bi(List(vs), st'.calls);
      Eval(bi, List(xs), env, st, fuel)
      == if v == Undef then Error else Ok(v, st'.(calls := st'.calls + [List(vs)]), fuel' - 1)
  {
    assert List(vs) == Pair(vs[0], FromSeq(vs[1..], Nil));
    hide Eval, Values, FromSeq;
    Applied(bi, xs, env, st, fuel, vs, st', fuel');
  }

  // ---------------------------------------------------------------- variables

  /** The newest binding counts; a binding of another symbol, an empty rib and an empty environment are passed. */
  lemma Variables(bi: Builtins, s: nat, b: Binding, rib: Rib, env: Env, st: Store, fuel: nat)
    requires b.box < |st.boxes| && st.boxes[b.box] != Undef
    ensures b.sym == s ==> Eval(bi, Sym(s), [[b] + rib] + env, st, fuel) == Ok(st.boxes[b.box], st, fuel)
    ensures b.sym != s ==> Eval(bi, Sym(s), [[b] + rib] + env, st, fuel) == Eval(bi, Sym(s), [rib] + env, st, fuel)
    ensures Eval(bi, Sym(s), [[]] + env, st, fuel) == Eval(bi, Sym(s), env, st, fuel)
    ensures Eval(bi, Sym(s), [], st, fuel)
            == if s in st.globals && st.globals[s] != Undef then Ok(st.globals[s], st, fuel) else Error
  {
    assert ([b] + rib)[1..] == rib;
    assert ([[b] + rib] + env)[0] == [b] + rib && ([[b] + rib] + env)[1..] == env;
    assert ([rib] + env)[0] == rib && ([rib] + env)[1..] == env;
    assert ([[]] + env)[0] == [] && ([[]] + env)[1..] == env;
  }

  /** The boxes of an environment exist. */
  ghost predicate Known(env: Env, st: Store) {
    forall i, j :: 0 <= i < |env| && 0 <= j < |env[i]| ==> env[i][j].box < |st.boxes|
  }

  lemma {:induction false} KnownPlace(env: Env, s: nat, st: Store)
    requires Known(env, st)
    ensures var p := Lookup(env, s); p.Box? ==> p.i < |st.boxes|
    decreases |env|
  {
    if env != [] {
      KnownInRib(env[0], s, |st.boxes|);
      assert forall i, j :: 0 <= i < |env[1..]| && 0 <= j < |env[1..][i]| ==> env[1..][i][j] == env[i + 1][j];
      KnownPlace(env[1..], s, st);
    }
  }

  lemma {:induction false} KnownInRib(r: Rib, s: nat, n: nat)
    requires forall j :: 0 <= j < |r| ==> r[j].box < n
    ensures var p := InRib(r, s); p.Box? ==> p.i < n
    decreases |r|
  {
    if r != [] {
      KnownInRib(r[1..], s, n);
    }
  }

  /** Boxes are never lost: evaluation keeps what is known. */
  lemma {:induction false} KeepsBoxes(bi: Builtins, x: Value, env: Env, st: Store, fuel: nat)
    ensures var r := Eval(bi, x, env, st, fuel); r.Ok? ==> |r.st.boxes| >= |st.boxes|
    decreases fuel, x, 3
  {
    hide EvalList, Beta, Special;
    if x.Pair? {
      if IsSpecial(x.car) {
        SpecialKeeps(bi, x, env, st, fuel);
      } else {
        ListKeeps(bi, x, Nil, env, st, fuel);
        var l := EvalList(bi, x, Nil, env, st, fuel);
        if l.Ok? && l.fuel > 0 {
          BetaKeeps(bi, l.v, env, l.st, l.fuel - 1);
        }
      }
    }
  }

  lemma {:induction false} ListKeeps(bi: Builtins, l: Value, done: Value, env: Env, st: Store, fuel: nat)
    requires l.Pair?
    ensures var r := EvalList(bi, l, done, env, st, fuel); r.Ok? ==> |r.st.boxes| >= |st.boxes|
    decreases fuel, l, 0
  {
    hide Eval;
    KeepsBoxes(bi, l.car, env, st, fuel);
    var r := Eval(bi, l.car, env, st, fuel);
    if r.Ok? && l.cdr.Pair? {
      ListKeeps(bi, l.cdr, Pair(r.v, done), env, r.st, r.fuel);
    }
  }

  lemma {:induction false} BetaKeeps(bi: Builtins, x: Value, env: Env, st: Store, fuel: nat)
    ensures var r := Beta(bi, x, env, st, fuel); r.Ok? ==> |r.st.boxes| >= |st.boxes|
    decreases fuel, x, 2
  {
    hide Eval, Special, Enter;
    if x.Pair? {
      if IsSpecial(x.car) {
        SpecialKeeps(bi, x, env, st, fuel);
      } else if !x.car.Sym? {
        var c := Enter(x, st);
        EnterKeeps(x, st);
        if c.Call? && fuel > 0 {
          KeepsBoxes(bi, c.body, c.env, c.st, fuel - 1);
        }
      }
    }
  }

  lemma EnterKeeps(x: Value, st: Store)
    ensures var c := Enter(x, st); c.Call? ==> |c.st.boxes| >= |st.boxes|
  {
    if Enter(x, st).Call? {
      BindKeeps(x.car.cdr.cdr.car, x.cdr, [], st);
    }
  }

  lemma {:induction false} BindKeeps(v: Value, a: Value, rib: Rib, st: Store)
    ensures var b := Bind(v, a, rib, st); b.Bound? ==> |b.st.boxes| >= |st.boxes|
    decreases v
  {
    if v.Pair? && v.car.Sym? && a.Pair? {
      BindKeeps(v.cdr, a.cdr, [Binding(v.car.s, |st.boxes|)] + rib, st.(boxes := st.boxes + [a.car]));
    }
  }

  lemma {:induction false} SpecialKeeps(bi: Builtins, x: Value, env: Env, st: Store, fuel: nat)
    requires x.Pair?
    ensures var r := Special(bi, x, env, st, fuel); r.Ok? ==> |r.st.boxes| >= |st.boxes|
    decreases fuel, x, 1
  {
    hide Eval, Body, Apply, Immediate;
    if Immediate(x, env).None? {
      if x.cdr.Pair? {
        KeepsBoxes(bi, x.cdr.car, env, st, fuel);
        BodyKeeps(bi, x.cdr, env, st, fuel);
        if x.cdr.cdr.Pair? {
          KeepsBoxes(bi, x.cdr.cdr.car, env, st, fuel);
          var r := Eval(bi, x.cdr.car, env, st, fuel);
          if r.Ok? {
            KeepsBoxes(bi, x.cdr.cdr.car, env, r.st, r.fuel);
            ApplyKeeps(bi, r.v, x.cdr.cdr, env, r.st, r.fuel);
            if x.cdr.cdr.cdr.Pair? {
              KeepsBoxes(bi, x.cdr.cdr.cdr.car, env, r.st, r.fuel);
            }
          }
        }
      }
    }
  }

  lemma {:induction false} BodyKeeps(bi: Builtins, l: Value, env: Env, st: Store, fuel: nat)
    requires l.Pair?
    ensures var r := Body(bi, l, env, st, fuel); r.Ok? ==> |r.st.boxes| >= |st.boxes|
    decreases fuel, l, 0
  {
    hide Eval;
    KeepsBoxes(bi, l.car, env, st, fuel);
    var r := Eval(bi, l.car, env, st, fuel);
    if r.Ok? && l.cdr.Pair? {
      BodyKeeps(bi, l.cdr, env, r.st, r.fuel);
    }
  }

  lemma {:induction false} ApplyKeeps(bi: Builtins, f: Value, l: Value, env: Env, st: Store, fuel: nat)
    requires l.Pair?
    ensures var r := Apply(bi, f, l, env, st, fuel); r.Ok? ==> |r.st.boxes| >= |st.boxes|
    decreases fuel, l, 0
  {
    hide Eval, Beta;
    KeepsBoxes(bi, l.car, env, st, fuel);
    var r := Eval(bi, l.car, env, st, fuel);
    if r.Ok? && r.fuel > 0 {
      if f == Nil {
        ApplyKeeps(bi, r.v, l, env, r.st, r.fuel - 1);
      } else {
        BetaKeeps(bi, Pair(f, r.v), env, r.st, r.fuel - 1);
      }
    }
  }

  // ---------------------------------------------------------------- assignment

  /** (setq s x): its value is the symbol. The variable then has the value of x, and a variable in another place, in
      any environment, is as it was. */
  lemma Assigned(bi: Builtins, s: nat, x: Value, env: Env, st: Store, fuel: nat, t: nat, env': Env, f: nat)
    requires Known(env, st)
    ensures
      var r, q := Eval(bi, x, env, st, fuel), Eval(bi, List([Sym(S_SETQ), Sym(s), x]), env, st, fuel);
      if !r.Ok? then q == r
      else
        && q.Ok? && q.v == Sym(s) && q.fuel == r.fuel && q.st.calls == r.st.calls
        && Eval(bi, Sym(s), env, q.st, f) == (if r.v == Undef then Error else Ok(r.v, q.st, f))
        && (Lookup(env', t) != Lookup(env, s) ==>
              var y, y' := Eval(bi, Sym(t), env', r.st, f), Eval(bi, Sym(t), env', q.st, f);
              y.Ok? == y'.Ok? && (y.Ok? ==> y'.v == y.v))
  {
    ThreeElements(Sym(S_SETQ), Sym(s), x);
    SetqIs(bi, s, x, env, st, fuel);
    var r := Eval(bi, x, env, st, fuel);
    if r.Ok? {
      KeepsBoxes(bi, x, env, st, fuel);
      KnownPlace(env, s, r.st);
    }
  }

  lemma SetqIs(bi: Builtins, s: nat, x: Value, env: Env, st: Store, fuel: nat)
    ensures
      var r := Eval(bi, x, env, st, fuel);
      Eval(bi, List([Sym(S_SETQ), Sym(s), x]), env, st, fuel)
      == if r.Ok? then Ok(Sym(s), Put(r.st, Lookup(env, s), r.v), r.fuel) else r
  {
    hide Eval, Put, Lookup;
    ThreeElements(Sym(S_SETQ), Sym(s), x);
    hide FromSeq;
    SetqSteps(bi, List([Sym(S_SETQ), Sym(s), x]), env, st, fuel);
  }

  lemma SetqSteps(bi: Builtins, x: Value, env: Env, st: Store, fuel: nat)
    requires x.Pair? && x.car == Sym(S_SETQ) && ListOf(x, 3) && x.cdr.car.Sym?
    ensures
      var r := Eval(bi, x.cdr.cdr.car, env, st, fuel);
      Eval(bi, x, env, st, fuel) == if r.Ok? then Ok(x.cdr.car, Put(r.st, Lookup(env, x.cdr.car.s), r.v), r.fuel) else r
  {
    SpecialIs(bi, x, env, st, fuel);
    hide Eval, Put, Lookup;
  }

  lemma SpecialIs(bi: Builtins, x: Value, env: Env, st: Store, fuel: nat)
    requires x.Pair? && IsSpecial(x.car)
    ensures Eval(bi, x, env, st, fuel) == Special(bi, x, env, st, fuel)
  {
    hide Special;
  }

  // ---------------------------------------------------------------- closures

  /** (lambda params . body), where the parameters are ss and, if tail is a symbol, a last one that takes the rest. */
  function Lambda(ss: seq<nat>, tail: Value, body: seq<Value>): Value {
    Pair(Sym(S_LAMBDA), Pair(FromSeq(Syms(ss), tail), List(body)))
  }

  /** The number of arguments is right. */
  predicate Suits(ss: seq<nat>, tail: Value, vs: seq<Value>) {
    |vs| >= |ss| && (tail.Sym? || |vs| == |ss|)
  }

  /** What the parameters stand for. */
  function Arguments(ss: seq<nat>, tail: Value, vs: seq<Value>): seq<Value>
    requires Suits(ss, tail, vs)
  {
    if tail.Sym? then vs[..|ss|] + [List(vs[|ss|..])] else vs
  }

  /** The rib of a call: parameter i has box base + i; the last one comes first. */
  function Parameters(ss: seq<nat>, tail: Value, base: nat): Rib {
    (if tail.Sym? then [Binding(tail.s, base + |ss|)] else []) + Fixed(ss, base)
  }

  function Fixed(ss: seq<nat>, base: nat): (r: Rib)
    ensures |r| == |ss| && forall i :: 0 <= i < |ss| ==> r[|ss| - 1 - i] == Binding(ss[i], base + i)
  {
    if ss == [] then [] else Fixed(ss[1..], base + 1) + [Binding(ss[0], base)]
  }

  lemma {:induction false} BindIs(ss: seq<nat>, tail: Value, vs: seq<Value>, rib: Rib, st: Store)
    requires !tail.Pair?
    ensures
      var b := Bind(FromSeq(Syms(ss), tail), List(vs), rib, st);
      if Suits(ss, tail, vs) then
        b == Bound(Parameters(ss, tail, |st.boxes|) + rib, st.(boxes := st.boxes + Arguments(ss, tail, vs)))
      else b == BadArgs
    decreases |ss|
  {
    hide Bind, FromSeq, Syms, Arguments, Parameters;
    if ss == [] {
      BindRest(tail, vs, rib, st);
    } else if vs == [] {
      BindNone(ss, tail, rib, st);
    } else {
      var ss', vs', n := ss[1..], vs[1..], |st.boxes|;
      var rib', st' := [Binding(ss[0], n)] + rib, st.(boxes := st.boxes + [vs[0]]);
      BindFirst(ss, tail, vs, rib, st);
      BindIs(ss', tail, vs', rib', st');
      if Suits(ss, tail, vs) {
        ArgumentsStep(ss, tail, vs);
        ParametersStep(ss, tail, n, rib);
        assert st.boxes + [vs[0]] + Arguments(ss', tail, vs') == st.boxes + ([vs[0]] + Arguments(ss', tail, vs'));
      }
    }
  }

  lemma BindNone(ss: seq<nat>, tail: Value, rib: Rib, st: Store)
    requires ss != []
    ensures Bind(FromSeq(Syms(ss), tail), List([]), rib, st) == BadArgs
  {
  }

  lemma BindFirst(ss: seq<nat>, tail: Value, vs: seq<Value>, rib: Rib, st: Store)
    requires ss != [] && vs != []
    ensures Bind(FromSeq(Syms(ss), tail), List(vs), rib, st)
            == Bind(FromSeq(Syms(ss[1..]), tail), List(vs[1..]), [Binding(ss[0], |st.boxes|)] + rib,
                    st.(boxes := st.boxes + [vs[0]]))
  {
    assert Syms(ss)[1..] == Syms(ss[1..]);
    assert FromSeq(Syms(ss), tail) == Pair(Sym(ss[0]), FromSeq(Syms(ss[1..]), tail));
    assert List(vs) == Pair(vs[0], List(vs[1..]));
    hide FromSeq;
  }

  lemma BindRest(tail: Value, vs: seq<Value>, rib: Rib, st: Store)
    requires !tail.Pair?
    ensures
      var b := Bind(FromSeq(Syms([]), tail), List(vs), rib, st);
      if Suits([], tail, vs) then
        b == Bound(Parameters([], tail, |st.boxes|) + rib, st.(boxes := st.boxes + Arguments([], tail, vs)))
      else b == BadArgs
  {
    assert vs[..0] + [List(vs[0..])] == [List(vs)] && vs[0..] == vs;
    assert st.boxes + [] == st.boxes && [] + rib == rib && Syms([]) == [];
    assert List(vs) == Nil <==> vs == [];
  }

  lemma ArgumentsStep(ss: seq<nat>, tail: Value, vs: seq<Value>)
    requires ss != [] && vs != [] && Suits(ss, tail, vs)
    ensures Arguments(ss, tail, vs) == [vs[0]] + Arguments(ss[1..], tail, vs[1..])
  {
    hide FromSeq;
    assert vs[1..][|ss| - 1..] == vs[|ss|..];
    assert vs[..|ss|] == [vs[0]] + vs[1..][..|ss| - 1];
  }

  lemma ParametersStep(ss: seq<nat>, tail: Value, n: nat, rib: Rib)
    requires ss != []
    ensures Parameters(ss[1..], tail, n + 1) + ([Binding(ss[0], n)] + rib) == Parameters(ss, tail, n) + rib
  {
  }

  /** A lambda form with parameters and a body has a value, a closure; and a closure has itself as its value. */
  lemma LambdaIs(bi: Builtins, ss: seq<nat>, tail: Value, body: seq<Value>, e: Env, st: Store, fuel: nat)
    requires !tail.Pair? && body != []
    ensures
      var p := FromSeq(Syms(ss), tail);
      var c := Pair(Sym(S_LAMSTAR), Pair(EnvValue(e), Pair(p, List(body))));
      && Eval(bi, Lambda(ss, tail, body), e, st, fuel) == Ok(c, st, fuel)
      && Eval(bi, c, e, st, fuel) == Ok(c, st, fuel)
  {
    var p := FromSeq(Syms(ss), tail);
    SymbolsIs(p);
    ListOfList(body);
    assert List(body).Pair?;
    var x := Lambda(ss, tail, body);
    var c := Pair(Sym(S_LAMSTAR), Pair(EnvValue(e), Pair(p, List(body))));
    SpecialIs(bi, x, e, st, fuel);
    SpecialIs(bi, c, e, st, fuel);
    hide Eval, FromSeq, Symbols, Syms;
    assert Proper(x.cdr) && Proper(x);
    assert Proper(c.cdr.cdr) && Proper(c.cdr) && Proper(c);
  }

  /** Lexical scope: a closure made in e and called from anywhere evaluates its body in e, with a rib on top that binds
      the parameters to new boxes with the arguments; with a wrong number of arguments the call is an error. */
  lemma LexicalScope(bi: Builtins, ss: seq<nat>, tail: Value, body: seq<Value>, e: Env, st0: Store, fuel0: nat,
                     xs: seq<Value>, caller: Env, st: Store, fuel: nat, c: Value, vs: seq<Value>, st1: Store,
                     fuel1: nat)
    requires !tail.Pair? && body != [] && Eval(bi, Lambda(ss, tail, body), e, st0, fuel0) == Ok(c, st0, fuel0)
    requires xs != [] && !Reserved(xs[0]) && Values(bi, xs, caller, st, fuel, [c] + vs, st1, fuel1) && fuel1 >= 2
    ensures
      Eval(bi, List(xs), caller, st, fuel)
      == if Suits(ss, tail, vs) then
           Eval(bi, Pair(Sym(S_PROG), List(body)), [Parameters(ss, tail, |st1.boxes|)] + e,
                st1.(boxes := st1.boxes + Arguments(ss, tail, vs)), fuel1 - 2)
         else Error
  {
    LambdaIs(bi, ss, tail, body, e, st0, fuel0);
    Applied(bi, xs, caller, st, fuel, [c] + vs, st1, fuel1);
    CallIs(ss, tail, body, e, vs, st1);
    hide Eval, Values, FromSeq, Enter, Parameters, Arguments, Suits;
  }

  lemma CallIs(ss: seq<nat>, tail: Value, body: seq<Value>, e: Env, vs: seq<Value>, st: Store)
    requires !tail.Pair? && body != []
    ensures
      var p := FromSeq(Syms(ss), tail);
      var c := Pair(Sym(S_LAMSTAR), Pair(EnvValue(e), Pair(p, List(body))));
      && List([c] + vs).Pair? && List([c] + vs).car == c
      && Enter(List([c] + vs), st)
         == if Suits(ss, tail, vs) then
              Call(Pair(Sym(S_PROG), List(body)), [Parameters(ss, tail, |st.boxes|)] + e,
                   st.(boxes := st.boxes + Arguments(ss, tail, vs)))
            else NoCall
  {
    var p := FromSeq(Syms(ss), tail);
    var c := Pair(Sym(S_LAMSTAR), Pair(EnvValue(e), Pair(p, List(body))));
    assert ([c] + vs)[1..] == vs;
    assert List([c] + vs) == Pair(c, List(vs));
    BindIs(ss, tail, vs, [], st);
    hide FromSeq, Bind, Parameters, Arguments, Suits;
    assert Parameters(ss, tail, |st.boxes|) + [] == Parameters(ss, tail, |st.boxes|);
  }

  /** The body of a call sees argument i under the name of parameter i, if no later parameter has the same name; the
      rest parameter stands for the list of the other arguments. */
  lemma ParameterSeen(bi: Builtins, ss: seq<nat>, tail: Value, vs: seq<Value>, e: Env, st: Store, i: nat, fuel: nat)
    requires Suits(ss, tail, vs) && i < |ss| && ss[i] !in ss[i + 1..] && tail != Sym(ss[i]) && vs[i] != Undef
    ensures
      var st' := st.(boxes := st.boxes + Arguments(ss, tail, vs));
      Eval(bi, Sym(ss[i]), [Parameters(ss, tail, |st.boxes|)] + e, st', fuel) == Ok(vs[i], st', fuel)
  {
    var r := Parameters(ss, tail, |st.boxes|);
    var k := |r| - 1 - i;
    forall j | 0 <= j < k ensures r[j].sym != ss[i] {
      if tail.Sym? && j == 0 {
        assert r[0].sym == tail.s;
      } else {
        var n := |r| - 1 - j;
        assert r[j] == Binding(ss[n], |st.boxes| + n) && ss[n] == ss[i + 1..][n - i - 1];
      }
    }
    assert r[k] == Binding(ss[i], |st.boxes| + i);
    FirstInRib(r, k);
    InFirstRib(r, e, ss[i]);
    hide InRib, Lookup, Parameters;
    assert (st.boxes + Arguments(ss, tail, vs))[|st.boxes| + i] == Arguments(ss, tail, vs)[i] == vs[i];
  }

  lemma RestSeen(bi: Builtins, ss: seq<nat>, tail: Value, vs: seq<Value>, e: Env, st: Store, fuel: nat)
    requires Suits(ss, tail, vs) && tail.Sym?
    ensures
      var st' := st.(boxes := st.boxes + Arguments(ss, tail, vs));
      Eval(bi, tail, [Parameters(ss, tail, |st.boxes|)] + e, st', fuel) == Ok(List(vs[|ss|..]), st', fuel)
  {
    var r := Parameters(ss, tail, |st.boxes|);
    FirstInRib(r, 0);
    InFirstRib(r, e, tail.s);
    hide InRib, Lookup, Parameters;
    assert (st.boxes + Arguments(ss, tail, vs))[|st.boxes| + |ss|] == List(vs[|ss|..]);
  }

  /** Every other variable is the one of the environment in which the closure was made. */
  lemma OuterSeen(bi: Builtins, ss: seq<nat>, tail: Value, vs: seq<Value>, e: Env, st: Store, s: nat, fuel: nat)
    requires Suits(ss, tail, vs) && s !in ss && tail != Sym(s) && Known(e, st)
    ensures
      var st' := st.(boxes := st.boxes + Arguments(ss, tail, vs));
      Eval(bi, Sym(s), [Parameters(ss, tail, |st.boxes|)] + e, st', fuel)
      == match Eval(bi, Sym(s), e, st, fuel)
         case Ok(v, _, f) => Ok(v, st', f)
         case r => r
  {
    var r := Parameters(ss, tail, |st.boxes|);
    forall j | 0 <= j < |r| ensures r[j].sym != s {
      if tail.Sym? && j == 0 {
        assert r[0].sym == tail.s;
      } else {
        var n := |r| - 1 - j;
        assert r[j] == Binding(ss[n], |st.boxes| + n) && ss[n] in ss;
      }
    }
    NotInRib(r, s);
    KnownPlace(e, s, st);
    assert ([r] + e)[1..] == e;
    hide InRib, Parameters, Arguments;
  }

  lemma {:induction false} FirstInRib(r: Rib, k: nat)
    requires k < |r| && forall j :: 0 <= j < k ==> r[j].sym != r[k].sym
    ensures InRib(r, r[k].sym) == Box(r[k].box)
    decreases k
  {
    if k > 0 {
      assert forall j :: 0 <= j < k - 1 ==> r[1..][j] == r[j + 1];
      FirstInRib(r[1..], k - 1);
    }
  }

  lemma {:induction false} NotInRib(r: Rib, s: nat)
    requires forall j :: 0 <= j < |r| ==> r[j].sym != s
    ensures InRib(r, s) == Global(s)
    decreases |r|
  {
    if r != [] {
      NotInRib(r[1..], s);
    }
  }

  lemma InFirstRib(r: Rib, e: Env, s: nat)
    requires InRib(r, s).Box?
    ensures Lookup([r] + e, s) == InRib(r, s)
  {
  }

  /** A closure whose body is a variable that is no parameter gives its value in the environment of the closure,
      whatever the caller has under that name. */
  lemma FreeVariable(bi: Builtins, ss: seq<nat>, tail: Value, s: nat, e: Env, st0: Store, fuel0: nat,
                     xs: seq<Value>, caller: Env, st: Store, fuel: nat, c: Value, vs: seq<Value>, st1: Store,
                     fuel1: nat)
    requires !tail.Pair? && Eval(bi, Lambda(ss, tail, [Sym(s)]), e, st0, fuel0) == Ok(c, st0, fuel0)
    requires xs != [] && !Reserved(xs[0]) && Values(bi, xs, caller, st, fuel, [c] + vs, st1, fuel1) && fuel1 >= 2
    requires Suits(ss, tail, vs) && s !in ss && tail != Sym(s) && Known(e, st1)
    ensures
      var v, r := Eval(bi, Sym(s), e, st1, fuel1), Eval(bi, List(xs), caller, st, fuel);
      v.Ok? == r.Ok? && (v.Ok? ==> r.v == v.v)
  {
    hide Eval, Values, FromSeq, Parameters, Arguments, Suits, Known;
    LexicalScope(bi, ss, tail, [Sym(s)], e, st0, fuel0, xs, caller, st, fuel, c, vs, st1, fuel1);
    OuterSeen(bi, ss, tail, vs, e, st1, s, fuel1 - 2);
    var env := [Parameters(ss, tail, |st1.boxes|)] + e;
    var st' := st1.(boxes := st1.boxes + Arguments(ss, tail, vs));
    OneExpression(bi, Sym(s), env, st', fuel1 - 2);
    VariableFuel(bi, s, e, st1, fuel1, fuel1 - 2);
  }

  lemma VariableFuel(bi: Builtins, s: nat, e: Env, st: Store, fuel: nat, fuel': nat)
    ensures
      var v, v' := Eval(bi, Sym(s), e, st, fuel), Eval(bi, Sym(s), e, st, fuel');
      v.Ok? == v'.Ok? && (v.Ok? ==> v.v == v'.v)
  {
  }

  /** A body of one expression. */
  lemma OneExpression(bi: Builtins, x: Value, env: Env, st: Store, fuel: nat)
    ensures Eval(bi, Pair(Sym(S_PROG), List([x])), env, st, fuel) == Eval(bi, x, env, st, fuel)
  {
    var y := Pair(Sym(S_PROG), List([x]));
    assert List([x]) == Pair(x, List([x][1..])) == Pair(x, Nil);
    SpecialIs(bi, y, env, st, fuel);
    hide Eval, FromSeq;
  }

  /** The value of (macro (lambda ...)) is a list with the closure. */
  lemma MacroIs(bi: Builtins, ss: seq<nat>, tail: Value, body: seq<Value>, e: Env, st: Store, fuel: nat, c: Value)
    requires !tail.Pair? && body != [] && Eval(bi, Lambda(ss, tail, body), e, st, fuel) == Ok(c, st, fuel)
    ensures Eval(bi, List([Sym(S_MACRO), Lambda(ss, tail, body)]), e, st, fuel)
            == Ok(List([Sym(S_MACRO), c]), st, fuel)
  {
    var l := Lambda(ss, tail, body);
    LambdaIs(bi, ss, tail, body, e, st, fuel);
    SymbolsIs(l.cdr.car);
    ListOfList(body);
    assert List(body).Pair? && Proper(l.cdr) && Proper(l);
    TwoElements(Sym(S_MACRO), l);
    TwoElements(Sym(S_MACRO), c);
    SpecialIs(bi, List([Sym(S_MACRO), l]), e, st, fuel);
    hide Eval, FromSeq, Symbols, Syms;
  }

  /** A lambda form has a value only if it has parameters and a body. */
  lemma LambdaShape(bi: Builtins, rest: Value, e: Env, st: Store, fuel: nat)
    ensures Eval(bi, Pair(Sym(S_LAMBDA), rest), e, st, fuel).Ok?
            <==> exists ss, tail: Value, body :: !tail.Pair? && body != [] && rest == Lambda(ss, tail, body).cdr
  {
    var x := Pair(Sym(S_LAMBDA), rest);
    SpecialIs(bi, x, e, st, fuel);
    forall ss, tail: Value, body | !tail.Pair? && body != [] && rest == Lambda(ss, tail, body).cdr
      ensures Eval(bi, x, e, st, fuel).Ok?
    {
      LambdaIs(bi, ss, tail, body, e, st, fuel);
    }
    hide Eval;
    if GoodLambda(x) {
      SymbolsIs(rest.car);
      ProperIs(rest.cdr);
      assert Proper(rest) && Proper(rest.cdr);
      var ss, tail: Value :| !tail.Pair? && rest.car == FromSeq(Syms(ss), tail);
      var body :| rest.cdr == List(body);
      assert rest == Lambda(ss, tail, body).cdr;
    }
  }

  /** quote has exactly one operand. */
  lemma QuoteShape(bi: Builtins, rest: Value, e: Env, st: Store, fuel: nat)
    ensures Eval(bi, Pair(Sym(S_QUOTE), rest), e, st, fuel).Ok? <==> exists v :: rest == List([v])
  {
    var x := Pair(Sym(S_QUOTE), rest);
    SpecialIs(bi, x, e, st, fuel);
    hide Eval;
    forall v: Value ensures List([v]) == Pair(v, Nil) {
      assert List([v]) == Pair(v, List([v][1..]));
    }
    if rest.Pair? {
      assert rest.cdr == Nil ==> rest == List([rest.car]);
    }
  }
}
