/** Shell commands, and what break n, continue n, return and set -e mean for them: structured exits.

    What simple commands do is left open: a command's exit status is any function of what happened before. Every loop
    round and every function call costs one unit of fuel. */
module ShellLanguage {
  import opened CTypes

  datatype Node =
    | Null
    | Simple(cmd: nat)
    | BreakCmd(n: int)
    | ContinueCmd(n: int)
    | ReturnCmd(status: int)
    | ReturnLast
    | FunCall(f: nat)
    | EvalCmd(cmds: Nodes)
    | Not(com: Node)
    | And(ch1: Node, ch2: Node)
    | Or(ch1: Node, ch2: Node)
    | Semi(ch1: Node, ch2: Node)
    | If(test: Node, ifpart: Node, elsepart: Node)
    | Loop(until: bool, test: Node, body: Node)
    | For(words: nat, body: Node)
    | Case(word: nat, clauses: Clauses)

  datatype Nodes = NoNodes | MoreNodes(first: Node, rest: Nodes)

  datatype Clauses = NoClause | Clause(pattern: nat, body: Node, rest: Clauses)

  /** What the world sees: a command (a call, a builtin) ended with a status, or a for loop took its next word. */
  datatype Event = Ran(status: int, tested: bool) | Took(words: nat, index: nat)

  /** The shell's surroundings: statuses of simple commands, numbers of words, matching patterns, function bodies. */
  datatype World = World(
    eflag: bool,
    posix: bool,
    run: (nat, seq<Event>) -> int,
    count: (nat, seq<Event>) -> nat,
    matches: (nat, nat, seq<Event>) -> bool,
    funcs: seq<Node>)

  datatype State = State(hist: seq<Event>, status: int)

  /** bare: the return had no operand. */
  datatype Outcome = Normal | Broke(levels: int) | Continued(levels: int) | Returned(bare: bool)

  datatype Result =
    | Timeout
    | Exited(st: State)              // by set -e
    | BadNumber                      // break 0: an error that ends the shell
    | Done(o: Outcome, st: State, fuel: nat)

  /** What has happened stays in the record. */
  predicate Grows(st: State, r: Result) {
    r.Done? || r.Exited? ==> st.hist <= r.st.hist
  }

  /** The end of a command: its status is recorded, and a failure that nothing tests ends the shell under set -e. */
  function Finish(w: World, o: Outcome, st: State, tested: bool, fuel: nat): (r: Result)
    ensures (r.Done? ==> r.fuel == fuel) && Grows(st, r)
  {
    var st' := st.(hist := st.hist + [Ran(st.status, tested)]);
    if w.eflag && !tested && st.status != 0 then Exited(st') else Done(o, st', fuel)
  }

  /** A break of more loops than there are is a break of all; without a loop it does nothing. */
  function Leave(w: World, n: int, continues: bool, st: State, tested: bool, depth: nat, fuel: nat): (r: Result)
    ensures (r.Done? ==> r.fuel == fuel) && Grows(st, r)
  {
    if n <= 0 then BadNumber
    else
      var k := if n > depth then depth else n;
      var o := if k == 0 then Normal else if continues then Continued(k) else Broke(k);
      Finish(w, o, st.(status := 0), tested, fuel)
  }

  function Eval(w: World, n: Node, tested: bool, depth: nat, st: State, fuel: nat): (r: Result)
    ensures r.Done? ==> r.fuel <= fuel
    ensures Grows(st, r)
    decreases fuel, n
  {
    match n
    case Null => Done(Normal, st, fuel)
    case Simple(cmd) => Finish(w, Normal, st.(status := w.run(cmd, st.hist)), tested, fuel)
    case BreakCmd(k) => Leave(w, k, false, st, tested, depth, fuel)
    case ContinueCmd(k) => Leave(w, k, true, st, tested, depth, fuel)
    case ReturnCmd(status) => Finish(w, Returned(false), st.(status := status), tested, fuel)
    case ReturnLast => Finish(w, Returned(true), st, tested, fuel)
    case FunCall(f) =>
      if f >= |w.funcs| then Finish(w, Normal, st.(status := 127), tested, fuel)
      else if fuel == 0 then Timeout
      else
        // a function's body is outside of all loops, and a return ends here
        var r := Eval(w, w.funcs[f], tested, 0, st, fuel - 1);
        if r.Done? then Finish(w, Normal, r.st, tested, r.fuel) else r
    case EvalCmd(cmds) =>
      var r := EvalList(w, cmds, tested, depth, st, 0, fuel);
      if r.Done? then Finish(w, r.o, r.st, tested, r.fuel) else r
    case Not(com) =>
      var r := Eval(w, com, true, depth, st, fuel);
      if r.Done? && r.o.Normal? then r.(st := r.st.(status := Truth(r.st.status == 0))) else r
    case And(a, b) =>
      var r := Eval(w, a, true, depth, st, fuel);
      if r.Done? && r.o.Normal? && r.st.status == 0 then Eval(w, b, tested, depth, r.st, r.fuel) else r
    case Or(a, b) =>
      var r := Eval(w, a, true, depth, st, fuel);
      if r.Done? && r.o.Normal? && r.st.status != 0 then Eval(w, b, tested, depth, r.st, r.fuel) else r
    case Semi(a, b) =>
      var r := Eval(w, a, tested, depth, st, fuel);
      if r.Done? && r.o.Normal? then Eval(w, b, tested, depth, r.st, r.fuel) else r
    case If(t, a, b) =>
      var r := Eval(w, t, true, depth, st, fuel);
      if !(r.Done? && r.o.Normal?) then r
      else if r.st.status == 0 then Eval(w, a, tested, depth, r.st, r.fuel)
      else if b != Null then Eval(w, b, tested, depth, r.st, r.fuel)
      else r.(st := r.st.(status := 0))
    case Loop(until, test, body) => EvalLoop(w, n, tested, depth, st, 0, fuel)
    case For(words, body) => EvalFor(w, n, tested, depth, st, 0, w.count(words, st.hist), 0, fuel)
    case Case(word, clauses) => EvalCase(w, word, clauses, tested, depth, st, fuel)
  }

  /** The commands of a string, up to the first exit; status is the result so far. */
  function EvalList(w: World, l: Nodes, tested: bool, depth: nat, st: State, status: int, fuel: nat): (r: Result)
    ensures r.Done? ==> r.fuel <= fuel
    ensures Grows(st, r)
    decreases fuel, l
  {
    match l
    case NoNodes => Done(Normal, st.(status := status), fuel)
    case MoreNodes(n, rest) =>
      var r := Eval(w, n, tested, depth, st, fuel);
      if r.Done? && r.o.Normal? then
        EvalList(w, rest, tested, depth, r.st, if n != Null then r.st.status else status, r.fuel)
      else r
  }

  /** One level of break or continue is used up by the loop. */
  function Outward(o: Outcome): Outcome {
    match o
    case Broke(k) => if k <= 1 then Normal else Broke(k - 1)
    case Continued(k) => if k <= 1 then Normal else Continued(k - 1)
    case _ => o
  }

  /** Another round follows. */
  predicate Repeats(o: Outcome) {
    o.Normal? || (o.Continued? && o.levels <= 1)
  }

  /** while and until: the status is that of the last body, and 0 without one. */
  function EvalLoop(w: World, n: Node, tested: bool, depth: nat, st: State, status: int, fuel: nat): (r: Result)
    requires n.Loop?
    ensures r.Done? ==> r.fuel <= fuel
    ensures Grows(st, r)
    decreases fuel, n, 0
  {
    var t := Eval(w, n.test, true, depth + 1, st, fuel);
    if !t.Done? then t
    else if t.o.Normal? && (t.st.status == 0) == n.until then Done(Normal, t.st.(status := status), t.fuel)
    else if !Repeats(t.o) then
      // what a return gives back is the operand; without one, this shell gives back the status of the last body
      var s := if t.o.Returned? && (w.posix || !t.o.bare) then t.st.status else status;
      Done(Outward(t.o), t.st.(status := s), t.fuel)
    else if t.fuel == 0 then Timeout
    else if !t.o.Normal? then EvalLoop(w, n, tested, depth, t.st, status, t.fuel - 1)
    else
      var b := Eval(w, n.body, tested, depth + 1, t.st, t.fuel - 1);
      if !b.Done? then b
      else if !Repeats(b.o) then b.(o := Outward(b.o))
      else if b.fuel == 0 then Timeout
      else EvalLoop(w, n, tested, depth, b.st, b.st.status, b.fuel - 1)
  }

  /** The words from index i on. */
  function EvalFor(w: World, n: Node, tested: bool, depth: nat, st: State, i: nat, words: nat, status: int, fuel: nat)
    : (r: Result)
    requires n.For? && i <= words
    ensures r.Done? ==> r.fuel <= fuel
    ensures Grows(st, r)
    decreases fuel, n, words - i
  {
    if i == words then Done(Normal, st.(status := status), fuel)
    else
      var b := Eval(w, n.body, tested, depth + 1, st.(hist := st.hist + [Took(n.words, i)]), fuel);
      if !b.Done? then b
      else if !Repeats(b.o) then b.(o := Outward(b.o))
      else EvalFor(w, n, tested, depth, b.st, i + 1, words, b.st.status, b.fuel)
  }

  function EvalCase(w: World, word: nat, c: Clauses, tested: bool, depth: nat, st: State, fuel: nat): (r: Result)
    ensures r.Done? ==> r.fuel <= fuel
    ensures Grows(st, r)
    decreases fuel, c
  {
    match c
    case NoClause => Done(Normal, st.(status := 0), fuel)
    case Clause(pattern, body, rest) =>
      if !w.matches(word, pattern, st.hist) then EvalCase(w, word, rest, tested, depth, st, fuel)
      else if body == Null then Done(Normal, st.(status := 0), fuel)
      else Eval(w, body, tested, depth, st, fuel)
  }
}
