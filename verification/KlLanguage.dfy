/** The expressions of kl and a recursive evaluator with lexical scope.

    Lists are values here; variables have boxes in a store, which closures share. What the built-in functions compute is
    left open. */
module KlLanguage {

  /** The special forms come first among the symbols. */
  const S_QUOTE: nat := 0
  const S_IF: nat := 1
  const S_PROG: nat := 2
  const S_IFNOT: nat := 3
  const S_LAMBDA: nat := 4
  const S_LAMSTAR: nat := 5
  const S_APPLY: nat := 6
  const S_MACRO: nat := 7
  const S_SETQ: nat := 8

  datatype Value =
    | Nil
    | Undef
    | Atom(a: nat)
    | Sym(s: nat)
    | Pair(car: Value, cdr: Value)
    | EnvRef(ribs: seq<Rib>)          // a non-empty environment, inside a closure

  /** A rib binds the parameters of one call, the last one first. */
  type Rib = seq<Binding>

  datatype Binding = Binding(sym: nat, box: nat)

  /** The boxes of symbols and of parameters, and the calls of built-in functions so far. */
  datatype Store = Store(globals: map<nat, Value>, boxes: seq<Value>, calls: seq<Value>)

  type Env = seq<Rib>

  /** What a built-in function gives for its call and the calls before it; Undef is an error. */
  type Builtins = (Value, seq<Value>) -> Value

  predicate IsSpecial(v: Value) {
    v.Sym? && v.s <= S_SETQ
  }

  // ---------------------------------------------------------------- lists

  /** A proper list of n elements. */
  predicate ListOf(v: Value, n: nat)
    decreases n
  {
    if n == 0 then v == Nil else v.Pair? && ListOf(v.cdr, n - 1)
  }

  predicate Proper(v: Value) {
    match v
    case Nil => true
    case Pair(_, rest) => Proper(rest)
    case _ => false
  }

  predicate Symbols(v: Value) {
    v.Pair? ==> v.car.Sym? && Symbols(v.cdr)
  }

  function Reverse(v: Value, onto: Value): Value
    decreases v
  {
    if v.Pair? then Reverse(v.cdr, Pair(v.car, onto)) else onto
  }

  // ---------------------------------------------------------------- variables

  datatype Place = Global(sym: nat) | Box(i: nat)

  function InRib(r: Rib, sym: nat): Place {
    if r == [] then Global(sym) else if r[0].sym == sym then Box(r[0].box) else InRib(r[1..], sym)
  }

  function Lookup(e: Env, sym: nat): Place {
    if e == [] then Global(sym)
    else
      var p := InRib(e[0], sym);
      if p.Box? then p else Lookup(e[1..], sym)
  }

  function Fetch(st: Store, p: Place): Value {
    match p
    case Global(s) => if s in st.globals then st.globals[s] else Undef
    case Box(i) => if i < |st.boxes| then st.boxes[i] else Undef
  }

  function Put(st: Store, p: Place, v: Value): Store {
    match p
    case Global(s) => st.(globals := st.globals[s := v])
    case Box(i) => if i < |st.boxes| then st.(boxes := st.boxes[i := v]) else st
  }

  function EnvValue(e: Env): Value {
    if e == [] then Nil else EnvRef(e)
  }

  datatype Bound = BadArgs | Bound(rib: Rib, st: Store)

  /** Parameters to arguments: too few, too many or improper ones are errors; a symbol at the end takes the rest. */
  function Bind(v: Value, a: Value, rib: Rib, st: Store): Bound {
    match v
    case Pair(p, rest) =>
      if !p.Sym? || !a.Pair? then BadArgs
      else Bind(rest, a.cdr, [Binding(p.s, |st.boxes|)] + rib, st.(boxes := st.boxes + [a.car]))
    case Sym(s) => Bound([Binding(s, |st.boxes|)] + rib, st.(boxes := st.boxes + [a]))
    case _ => if a == Nil then Bound(rib, st) else BadArgs
  }

  datatype Call = NoCall | Call(body: Value, env: Env, st: Store)

  /** A call of a closure (lambda* env params . body) with a list of arguments. */
  function Enter(x: Value, st: Store): Call {
    if x.Pair? && x.car.Pair? && x.car.car == Sym(S_LAMSTAR) && x.car.cdr.Pair? && x.car.cdr.cdr.Pair?
       && (x.car.cdr.car == Nil || x.car.cdr.car.EnvRef?) then
      var env := if x.car.cdr.car == Nil then [] else x.car.cdr.car.ribs;
      var b := Bind(x.car.cdr.cdr.car, x.cdr, [], st);
      if b.BadArgs? then NoCall
      else Call(Pair(Sym(S_PROG), x.car.cdr.cdr.cdr), [b.rib] + env, b.st)
    else NoCall
  }

  // ---------------------------------------------------------------- the evaluator

  datatype Result = Timeout | Error | Ok(v: Value, st: Store, fuel: nat)

  datatype Option = None | Some(v: Value)

  /** A proper list of three elements or more. */
  predicate Long(x: Value) {
    Proper(x) && x.Pair? && x.cdr.Pair? && x.cdr.cdr.Pair?
  }

  /** At least parameters and one expression, the parameters symbols. */
  predicate GoodLambda(x: Value) {
    Long(x) && Symbols(x.cdr.car)
  }

  /** The values of forms that need no evaluation. */
  function Immediate(x: Value, env: Env): Option
    requires x.Pair?
  {
    if x.car == Sym(S_QUOTE) && ListOf(x, 2) then Some(x.cdr.car)
    else if x.car == Sym(S_LAMBDA) && GoodLambda(x) then Some(Pair(Sym(S_LAMSTAR), Pair(EnvValue(env), x.cdr)))
    else if x.car == Sym(S_LAMSTAR) && Long(x) then Some(x)
    else if x.car == Sym(S_MACRO) && ListOf(x, 2) && x.cdr.car.Pair? && x.cdr.car.car == Sym(S_LAMBDA)
            && GoodLambda(x.cdr.car) then
      Some(Pair(Sym(S_MACRO), Pair(Pair(Sym(S_LAMSTAR), Pair(EnvValue(env), x.cdr.car.cdr)), Nil)))
    else None
  }

  function Eval(bi: Builtins, x: Value, env: Env, st: Store, fuel: nat): (r: Result)
    ensures r.Ok? ==> r.fuel <= fuel
    decreases fuel, x, 3
  {
    match x
    case Sym(s) =>
      var v := Fetch(st, Lookup(env, s));
      if v == Undef then Error else Ok(v, st, fuel)
    case Pair(f, rest) =>
      if IsSpecial(f) then Special(bi, x, env, st, fuel)
      else
        var l := EvalList(bi, x, Nil, env, st, fuel);
        if !l.Ok? then l
        else if l.fuel == 0 then Timeout
        else Beta(bi, l.v, env, l.st, l.fuel - 1)
    case _ => Ok(x, st, fuel)
  }

  /** The values of the elements of a list, on top of those that are done, last one first. */
  function EvalList(bi: Builtins, l: Value, done: Value, env: Env, st: Store, fuel: nat): (r: Result)
    requires l.Pair?
    ensures r.Ok? ==> r.fuel <= fuel
    decreases fuel, l, 0
  {
    var r := Eval(bi, l.car, env, st, fuel);
    if !r.Ok? then r
    else if l.cdr == Nil then r.(v := Reverse(Pair(r.v, done), Nil))
    else if l.cdr.Pair? then EvalList(bi, l.cdr, Pair(r.v, done), env, r.st, r.fuel)
    else Error
  }

  /** A list of values, or a special form. */
  function Beta(bi: Builtins, x: Value, env: Env, st: Store, fuel: nat): (r: Result)
    ensures r.Ok? ==> r.fuel <= fuel
    decreases fuel, x, 2
  {
    if !x.Pair? then Error
    else if IsSpecial(x.car) then Special(bi, x, env, st, fuel)
    else if x.car.Sym? then
      var v := bi(x, st.calls);
      if v == Undef then Error else Ok(v, st.(calls := st.calls + [x]), fuel)
    else
      var c := Enter(x, st);
      if c.NoCall? then Error
      else if fuel == 0 then Timeout
      else Eval(bi, c.body, c.env, c.st, fuel - 1)
  }

  function Special(bi: Builtins, x: Value, env: Env, st: Store, fuel: nat): (r: Result)
    requires x.Pair?
    ensures r.Ok? ==> r.fuel <= fuel
    decreases fuel, x, 1
  {
    if Immediate(x, env).Some? then Ok(Immediate(x, env).v, st, fuel)
    else if x.car == Sym(S_IF) && ListOf(x, 4) then
      var r := Eval(bi, x.cdr.car, env, st, fuel);
      if !r.Ok? then r
      else Eval(bi, if r.v == Nil then x.cdr.cdr.cdr.car else x.cdr.cdr.car, env, r.st, r.fuel)
    else if x.car == Sym(S_IFNOT) && ListOf(x, 3) then
      var r := Eval(bi, x.cdr.car, env, st, fuel);
      if r.Ok? && r.v == Nil then Eval(bi, x.cdr.cdr.car, env, r.st, r.fuel) else r
    else if x.car == Sym(S_PROG) then
      if x.cdr == Nil then Ok(Nil, st, fuel) else if x.cdr.Pair? then Body(bi, x.cdr, env, st, fuel) else Error
    else if x.car == Sym(S_SETQ) && ListOf(x, 3) && x.cdr.car.Sym? then
      var r := Eval(bi, x.cdr.cdr.car, env, st, fuel);
      if r.Ok? then Ok(x.cdr.car, Put(r.st, Lookup(env, x.cdr.car.s), r.v), r.fuel) else r
    else if x.car == Sym(S_APPLY) && ListOf(x, 3) then
      var r := Eval(bi, x.cdr.car, env, st, fuel);
      if r.Ok? then Apply(bi, r.v, x.cdr.cdr, env, r.st, r.fuel) else r
    else Error
  }

  /** The value of the last expression. */
  function Body(bi: Builtins, l: Value, env: Env, st: Store, fuel: nat): (r: Result)
    requires l.Pair?
    ensures r.Ok? ==> r.fuel <= fuel
    decreases fuel, l, 0
  {
    var r := Eval(bi, l.car, env, st, fuel);
    if !r.Ok? || l.cdr == Nil then r else if l.cdr.Pair? then Body(bi, l.cdr, env, r.st, r.fuel) else Error
  }

  /** The function f applied to the value of the first element of l. A nil function counts as not yet evaluated: the
      value of the argument expression takes its place, and the expression is evaluated again. */
  function Apply(bi: Builtins, f: Value, l: Value, env: Env, st: Store, fuel: nat): (r: Result)
    requires l.Pair?
    ensures r.Ok? ==> r.fuel <= fuel
    decreases fuel, l, 0
  {
    var r := Eval(bi, l.car, env, st, fuel);
    if !r.Ok? then r
    else if r.fuel == 0 then Timeout
    else if f == Nil then Apply(bi, r.v, l, env, r.st, r.fuel - 1)
    else Beta(bi, Pair(f, r.v), env, r.st, r.fuel - 1)
  }
}
