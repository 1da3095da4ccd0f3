/** What set -e and return mean, stated on the events of a run. */
module ShellProperties {
  import opened ShellLanguage
  import opened ShellEval

  // ---------------------------------------------------------------- set -e

  predicate CalmEvent(e: Event) {
    e.Ran? ==> e.status == 0 || e.tested
  }

  /** No command has failed untested. */
  predicate Calm(h: seq<Event>) {
    forall i :: 0 <= i < |h| ==> CalmEvent(h[i])
  }

  /** The run of r so far: going on without any untested failure, or over at the first one. */
  predicate ExitsAtFirst(r: Result) {
    match r
    case Done(_, st, _) => Calm(st.hist)
    case Exited(st) => |st.hist| > 0 && Calm(st.hist[..|st.hist| - 1]) && !CalmEvent(st.hist[|st.hist| - 1])
    case _ => true
  }

  lemma FinishCalm(w: World, o: Outcome, st: State, tested: bool, fuel: nat)
    requires w.eflag && Calm(st.hist)
    ensures ExitsAtFirst(Finish(w, o, st, tested, fuel))
  {
    hide Calm;
    CalmMore(st.hist, Ran(st.status, tested));
  }

  lemma CalmMore(h: seq<Event>, e: Event)
    requires Calm(h)
    ensures
      var g := h + [e];
      g[..|g| - 1] == h && g[|g| - 1] == e && (Calm(g) <==> CalmEvent(e))
  {
    var g := h + [e];
    assert forall i :: 0 <= i < |h| ==> g[i] == h[i];
    assert g[|h|] == e;
  }

  /** Under set -e the shell exits at the first command that fails untested, and only there. */
  lemma {:induction false} SetEExits(w: World, n: Node, tested: bool, depth: nat, st: State, fuel: nat)
    requires w.eflag && Calm(st.hist)
    ensures ExitsAtFirst(Eval(w, n, tested, depth, st, fuel))
    decreases fuel, n
  {
    hide Eval, EvalLoop, EvalFor, EvalCase, EvalList, Calm, Finish, Command;
    if n == Null {
      NullIs(w, tested, depth, st, fuel);
    } else if n.Not? {
      NotIs(w, n, tested, depth, st, fuel);
      SetEExits(w, n.com, true, depth, st, fuel);
    } else if n.And? || n.Or? || n.Semi? {
      BinaryIs(w, n, tested, depth, st, fuel);
      var t := if n.Semi? then tested else true;
      SetEExits(w, n.ch1, t, depth, st, fuel);
      var r := Eval(w, n.ch1, t, depth, st, fuel);
      if r.Done? {
        SetEExits(w, n.ch2, tested, depth, r.st, r.fuel);
      }
    } else if n.If? {
      IfIs(w, n, tested, depth, st, fuel);
      SetEExits(w, n.test, true, depth, st, fuel);
      var r := Eval(w, n.test, true, depth, st, fuel);
      if r.Done? {
        SetEExits(w, n.ifpart, tested, depth, r.st, r.fuel);
        SetEExits(w, n.elsepart, tested, depth, r.st, r.fuel);
      }
    } else if n.Loop? {
      LoopIs(w, n, tested, depth, st, fuel);
      SetELoop(w, n, tested, depth, st, 0, fuel);
    } else if n.For? {
      LoopIs(w, n, tested, depth, st, fuel);
      SetEFor(w, n, tested, depth, st, 0, w.count(n.words, st.hist), 0, fuel);
    } else if n.Case? {
      LoopIs(w, n, tested, depth, st, fuel);
      SetECase(w, n.word, n.clauses, tested, depth, st, fuel);
    } else {
      SetECommand(w, n, tested, depth, st, fuel);
    }
  }

  lemma {:induction false} SetECommand(w: World, n: Node, tested: bool, depth: nat, st: State, fuel: nat)
    requires w.eflag && Calm(st.hist) && IsCommand(n)
    ensures ExitsAtFirst(Eval(w, n, tested, depth, st, fuel))
    decreases fuel, n, 8
  {
    hide Eval, EvalList, Calm, Finish;
    CommandFinish(w, n, tested, depth, st, fuel);
    if n.FunCall? && n.f < |w.funcs| && fuel > 0 {
      SetEExits(w, w.funcs[n.f], tested, 0, st, fuel - 1);
    } else if n.EvalCmd? {
      SetEList(w, n.cmds, tested, depth, st, 0, fuel);
    }
    var r := Command(w, n, tested, depth, st, fuel);
    if r.Done? {
      FinishCalm(w, r.o, r.st, tested, r.fuel);
    }
  }

  lemma {:induction false} SetEList(w: World, l: Nodes, tested: bool, depth: nat, st: State, status: int, fuel: nat)
    requires w.eflag && Calm(st.hist)
    ensures ExitsAtFirst(EvalList(w, l, tested, depth, st, status, fuel))
    decreases fuel, l, 0
  {
    hide Eval, EvalList, Calm;
    ListUnfolds(w, l, tested, depth, st, status, fuel);
    if l.MoreNodes? {
      SetEExits(w, l.first, tested, depth, st, fuel);
      var r := Eval(w, l.first, tested, depth, st, fuel);
      if r.Done? {
        SetEList(w, l.rest, tested, depth, r.st, if l.first != Null then r.st.status else status, r.fuel);
      }
    }
  }

  lemma {:induction false} SetELoop(w: World, n: Node, tested: bool, depth: nat, st: State, status: int, fuel: nat)
    requires w.eflag && Calm(st.hist) && n.Loop?
    ensures ExitsAtFirst(EvalLoop(w, n, tested, depth, st, status, fuel))
    decreases fuel, n, 0
  {
    hide Eval, EvalLoop, Calm;
    LoopUnfolds(w, n, tested, depth, st, status, fuel);
    SetEExits(w, n.test, true, depth + 1, st, fuel);
    var t := Eval(w, n.test, true, depth + 1, st, fuel);
    if t.Done? && t.fuel > 0 {
      SetELoop(w, n, tested, depth, t.st, status, t.fuel - 1);
      SetEExits(w, n.body, tested, depth + 1, t.st, t.fuel - 1);
      var b := Eval(w, n.body, tested, depth + 1, t.st, t.fuel - 1);
      if b.Done? && b.fuel > 0 {
        SetELoop(w, n, tested, depth, b.st, b.st.status, b.fuel - 1);
      }
    }
  }

  lemma TookCalm(h: seq<Event>, words: nat, i: nat)
    requires Calm(h)
    ensures Calm(h + [Took(words, i)])
  {
    hide Calm;
    CalmMore(h, Took(words, i));
  }

  lemma {:induction false} SetEFor(w: World, n: Node, tested: bool, depth: nat, st: State, i: nat, words: nat,
                                   status: int, fuel: nat)
    requires w.eflag && Calm(st.hist) && n.For? && i <= words
    ensures ExitsAtFirst(EvalFor(w, n, tested, depth, st, i, words, status, fuel))
    decreases fuel, n, words - i
  {
    hide Eval, EvalFor, Calm;
    ForUnfolds(w, n, tested, depth, st, i, words, status, fuel);
    if i < words {
      TookCalm(st.hist, n.words, i);
      var st1 := st.(hist := st.hist + [Took(n.words, i)]);
      SetEExits(w, n.body, tested, depth + 1, st1, fuel);
      var b := Eval(w, n.body, tested, depth + 1, st1, fuel);
      if b.Done? {
        SetEFor(w, n, tested, depth, b.st, i + 1, words, b.st.status, b.fuel);
      }
    }
  }

  lemma {:induction false} SetECase(w: World, word: nat, c: Clauses, tested: bool, depth: nat, st: State, fuel: nat)
    requires w.eflag && Calm(st.hist)
    ensures ExitsAtFirst(EvalCase(w, word, c, tested, depth, st, fuel))
    decreases fuel, c, 0
  {
    hide Eval, EvalCase, Calm;
    CaseUnfolds(w, word, c, tested, depth, st, fuel);
    if c.Clause? {
      SetECase(w, word, c.rest, tested, depth, st, fuel);
      SetEExits(w, c.body, tested, depth, st, fuel);
    }
  }

  // ---------------------------------------------------------------- return without an operand

  /** The rule that POSIX has for return: without an operand, the status of the last command. */
  function Posix(w: World): World {
    w.(posix := true)
  }

  function Actual(w: World): World {
    w.(posix := false)
  }

  predicate BareFree(n: Node) {
    match n
    case ReturnLast => false
    case EvalCmd(l) => BareFreeList(l)
    case Not(a) => BareFree(a)
    case And(a, b) => BareFree(a) && BareFree(b)
    case Or(a, b) => BareFree(a) && BareFree(b)
    case Semi(a, b) => BareFree(a) && BareFree(b)
    case If(t, a, b) => BareFree(t) && BareFree(a) && BareFree(b)
    case Loop(_, t, b) => BareFree(t) && BareFree(b)
    case For(_, b) => BareFree(b)
    case Case(_, c) => BareFreeClauses(c)
    case _ => true
  }

  predicate BareFreeList(l: Nodes) {
    l.MoreNodes? ==> BareFree(l.first) && BareFreeList(l.rest)
  }

  predicate BareFreeClauses(c: Clauses) {
    c.Clause? ==> BareFree(c.body) && BareFreeClauses(c.rest)
  }

  /** No return without operand stands in the test of a while or until loop. */
  predicate TestsBareFree(n: Node) {
    match n
    case EvalCmd(l) => TestsBareFreeList(l)
    case Not(a) => TestsBareFree(a)
    case And(a, b) => TestsBareFree(a) && TestsBareFree(b)
    case Or(a, b) => TestsBareFree(a) && TestsBareFree(b)
    case Semi(a, b) => TestsBareFree(a) && TestsBareFree(b)
    case If(t, a, b) => TestsBareFree(t) && TestsBareFree(a) && TestsBareFree(b)
    case Loop(_, t, b) => BareFree(t) && TestsBareFree(t) && TestsBareFree(b)
    case For(_, b) => TestsBareFree(b)
    case Case(_, c) => TestsBareFreeClauses(c)
    case _ => true
  }

  predicate TestsBareFreeList(l: Nodes) {
    l.MoreNodes? ==> TestsBareFree(l.first) && TestsBareFreeList(l.rest)
  }

  predicate TestsBareFreeClauses(c: Clauses) {
    c.Clause? ==> TestsBareFree(c.body) && TestsBareFreeClauses(c.rest)
  }

  predicate FuncsBareFree(w: World) {
    forall f :: 0 <= f < |w.funcs| ==> TestsBareFree(w.funcs[f])
  }

  /** A result that is not a return without operand. */
  predicate NotBare(r: Result) {
    r.Done? ==> r.o != Returned(true)
  }

  lemma {:induction false} BareFreeNotBare(w: World, n: Node, tested: bool, depth: nat, st: State, fuel: nat)
    requires BareFree(n)
    ensures NotBare(Eval(w, n, tested, depth, st, fuel))
    decreases fuel, n
  {
    hide Eval, EvalLoop, EvalFor, EvalCase, EvalList;
    if n == Null {
      NullIs(w, tested, depth, st, fuel);
    } else if n.Not? {
      NotIs(w, n, tested, depth, st, fuel);
      BareFreeNotBare(w, n.com, true, depth, st, fuel);
    } else if n.And? || n.Or? || n.Semi? {
      BinaryIs(w, n, tested, depth, st, fuel);
      var t := if n.Semi? then tested else true;
      BareFreeNotBare(w, n.ch1, t, depth, st, fuel);
      var r := Eval(w, n.ch1, t, depth, st, fuel);
      if r.Done? {
        BareFreeNotBare(w, n.ch2, tested, depth, r.st, r.fuel);
      }
    } else if n.If? {
      IfIs(w, n, tested, depth, st, fuel);
      BareFreeNotBare(w, n.test, true, depth, st, fuel);
      var r := Eval(w, n.test, true, depth, st, fuel);
      if r.Done? {
        BareFreeNotBare(w, n.ifpart, tested, depth, r.st, r.fuel);
        BareFreeNotBare(w, n.elsepart, tested, depth, r.st, r.fuel);
      }
    } else if n.Loop? {
      LoopIs(w, n, tested, depth, st, fuel);
      BareFreeLoop(w, n, tested, depth, st, 0, fuel);
    } else if n.For? {
      LoopIs(w, n, tested, depth, st, fuel);
      BareFreeFor(w, n, tested, depth, st, 0, w.count(n.words, st.hist), 0, fuel);
    } else if n.Case? {
      LoopIs(w, n, tested, depth, st, fuel);
      BareFreeCase(w, n.word, n.clauses, tested, depth, st, fuel);
    } else {
      CommandFinish(w, n, tested, depth, st, fuel);
      if n.EvalCmd? {
        BareFreeStrings(w, n.cmds, tested, depth, st, 0, fuel);
      }
    }
  }

  lemma {:induction false} BareFreeStrings(w: World, l: Nodes, tested: bool, depth: nat, st: State, status: int,
                                           fuel: nat)
    requires BareFreeList(l)
    ensures NotBare(EvalList(w, l, tested, depth, st, status, fuel))
    decreases fuel, l
  {
    hide Eval, EvalList;
    ListUnfolds(w, l, tested, depth, st, status, fuel);
    if l.MoreNodes? {
      BareFreeNotBare(w, l.first, tested, depth, st, fuel);
      var r := Eval(w, l.first, tested, depth, st, fuel);
      if r.Done? {
        BareFreeStrings(w, l.rest, tested, depth, r.st, if l.first != Null then r.st.status else status, r.fuel);
      }
    }
  }

  lemma {:induction false} BareFreeLoop(w: World, n: Node, tested: bool, depth: nat, st: State, status: int, fuel: nat)
    requires n.Loop? && BareFree(n)
    ensures NotBare(EvalLoop(w, n, tested, depth, st, status, fuel))
    decreases fuel, n, 0
  {
    hide Eval, EvalLoop;
    LoopUnfolds(w, n, tested, depth, st, status, fuel);
    BareFreeNotBare(w, n.test, true, depth + 1, st, fuel);
    var t := Eval(w, n.test, true, depth + 1, st, fuel);
    if t.Done? && t.fuel > 0 {
      BareFreeLoop(w, n, tested, depth, t.st, status, t.fuel - 1);
      BareFreeNotBare(w, n.body, tested, depth + 1, t.st, t.fuel - 1);
      var b := Eval(w, n.body, tested, depth + 1, t.st, t.fuel - 1);
      if b.Done? && b.fuel > 0 {
        BareFreeLoop(w, n, tested, depth, b.st, b.st.status, b.fuel - 1);
      }
    }
  }

  lemma {:induction false} BareFreeFor(w: World, n: Node, tested: bool, depth: nat, st: State, i: nat, words: nat,
                                       status: int, fuel: nat)
    requires n.For? && BareFree(n) && i <= words
    ensures NotBare(EvalFor(w, n, tested, depth, st, i, words, status, fuel))
    decreases fuel, n, words - i
  {
    hide Eval, EvalFor;
    ForUnfolds(w, n, tested, depth, st, i, words, status, fuel);
    if i < words {
      var st1 := st.(hist := st.hist + [Took(n.words, i)]);
      BareFreeNotBare(w, n.body, tested, depth + 1, st1, fuel);
      var b := Eval(w, n.body, tested, depth + 1, st1, fuel);
      if b.Done? {
        BareFreeFor(w, n, tested, depth, b.st, i + 1, words, b.st.status, b.fuel);
      }
    }
  }

  lemma {:induction false} BareFreeCase(w: World, word: nat, c: Clauses, tested: bool, depth: nat, st: State, fuel: nat)
    requires BareFreeClauses(c)
    ensures NotBare(EvalCase(w, word, c, tested, depth, st, fuel))
    decreases fuel, c
  {
    hide Eval, EvalCase;
    CaseUnfolds(w, word, c, tested, depth, st, fuel);
    if c.Clause? {
      BareFreeCase(w, word, c.rest, tested, depth, st, fuel);
      BareFreeNotBare(w, c.body, tested, depth, st, fuel);
    }
  }

  /** Where no return without operand stands in a loop test, the shell's returns are those of POSIX. */
  lemma {:induction false} ReturnsAsPosix(w: World, n: Node, tested: bool, depth: nat, st: State, fuel: nat)
    requires TestsBareFree(n) && FuncsBareFree(w)
    ensures Eval(Actual(w), n, tested, depth, st, fuel) == Eval(Posix(w), n, tested, depth, st, fuel)
    decreases fuel, n
  {
    hide Eval, EvalLoop, EvalFor, EvalCase, EvalList, BareFree;
    var p, q := Actual(w), Posix(w);
    if n == Null {
      NullIs(p, tested, depth, st, fuel);
      NullIs(q, tested, depth, st, fuel);
    } else if n.Not? {
      NotIs(p, n, tested, depth, st, fuel);
      NotIs(q, n, tested, depth, st, fuel);
      ReturnsAsPosix(w, n.com, true, depth, st, fuel);
    } else if n.And? || n.Or? || n.Semi? {
      BinaryIs(p, n, tested, depth, st, fuel);
      BinaryIs(q, n, tested, depth, st, fuel);
      var t := if n.Semi? then tested else true;
      ReturnsAsPosix(w, n.ch1, t, depth, st, fuel);
      var r := Eval(p, n.ch1, t, depth, st, fuel);
      if r.Done? {
        ReturnsAsPosix(w, n.ch2, tested, depth, r.st, r.fuel);
      }
    } else if n.If? {
      IfIs(p, n, tested, depth, st, fuel);
      IfIs(q, n, tested, depth, st, fuel);
      ReturnsAsPosix(w, n.test, true, depth, st, fuel);
      var r := Eval(p, n.test, true, depth, st, fuel);
      if r.Done? {
        ReturnsAsPosix(w, n.ifpart, tested, depth, r.st, r.fuel);
        ReturnsAsPosix(w, n.elsepart, tested, depth, r.st, r.fuel);
      }
    } else if n.Loop? || n.For? || n.Case? {
      PosixLoops(w, n, tested, depth, st, fuel);
    } else {
      PosixCommand(w, n, tested, depth, st, fuel);
    }
  }

  lemma {:induction false} PosixLoops(w: World, n: Node, tested: bool, depth: nat, st: State, fuel: nat)
    requires TestsBareFree(n) && FuncsBareFree(w) && (n.Loop? || n.For? || n.Case?)
    ensures Eval(Actual(w), n, tested, depth, st, fuel) == Eval(Posix(w), n, tested, depth, st, fuel)
    decreases fuel, n, 9, 0
  {
    hide Eval, EvalLoop, EvalFor, EvalCase, EvalList, BareFree;
    LoopIs(Actual(w), n, tested, depth, st, fuel);
    LoopIs(Posix(w), n, tested, depth, st, fuel);
    if n.Loop? {
      PosixLoop(w, n, tested, depth, st, 0, fuel);
    } else if n.For? {
      PosixFor(w, n, tested, depth, st, 0, w.count(n.words, st.hist), 0, fuel);
    } else {
      PosixCase(w, n.word, n.clauses, tested, depth, st, fuel);
    }
  }

  lemma {:induction false} PosixCommand(w: World, n: Node, tested: bool, depth: nat, st: State, fuel: nat)
    requires TestsBareFree(n) && FuncsBareFree(w) && IsCommand(n)
    ensures Eval(Actual(w), n, tested, depth, st, fuel) == Eval(Posix(w), n, tested, depth, st, fuel)
    decreases fuel, n, 8
  {
    hide Eval, EvalList, BareFree;
    CommandFinish(Actual(w), n, tested, depth, st, fuel);
    CommandFinish(Posix(w), n, tested, depth, st, fuel);
    if n.FunCall? && n.f < |w.funcs| && fuel > 0 {
      ReturnsAsPosix(w, w.funcs[n.f], tested, 0, st, fuel - 1);
    } else if n.EvalCmd? {
      PosixList(w, n.cmds, tested, depth, st, 0, fuel);
    }
  }

  lemma {:induction false} PosixList(w: World, l: Nodes, tested: bool, depth: nat, st: State, status: int, fuel: nat)
    requires TestsBareFreeList(l) && FuncsBareFree(w)
    ensures EvalList(Actual(w), l, tested, depth, st, status, fuel)
            == EvalList(Posix(w), l, tested, depth, st, status, fuel)
    decreases fuel, l
  {
    hide Eval, EvalList, BareFree;
    ListUnfolds(Actual(w), l, tested, depth, st, status, fuel);
    ListUnfolds(Posix(w), l, tested, depth, st, status, fuel);
    if l.MoreNodes? {
      ReturnsAsPosix(w, l.first, tested, depth, st, fuel);
      var r := Eval(Actual(w), l.first, tested, depth, st, fuel);
      if r.Done? {
        PosixList(w, l.rest, tested, depth, r.st, if l.first != Null then r.st.status else status, r.fuel);
      }
    }
  }

  lemma {:induction false} PosixLoop(w: World, n: Node, tested: bool, depth: nat, st: State, status: int, fuel: nat)
    requires n.Loop? && TestsBareFree(n) && FuncsBareFree(w)
    ensures EvalLoop(Actual(w), n, tested, depth, st, status, fuel)
            == EvalLoop(Posix(w), n, tested, depth, st, status, fuel)
    decreases fuel, n, 0
  {
    hide Eval, EvalLoop, BareFree;
    LoopUnfolds(Actual(w), n, tested, depth, st, status, fuel);
    LoopUnfolds(Posix(w), n, tested, depth, st, status, fuel);
    ReturnsAsPosix(w, n.test, true, depth + 1, st, fuel);
    BareFreeNotBare(Actual(w), n.test, true, depth + 1, st, fuel);
    var t := Eval(Actual(w), n.test, true, depth + 1, st, fuel);
    if t.Done? && t.fuel > 0 {
      PosixLoop(w, n, tested, depth, t.st, status, t.fuel - 1);
      ReturnsAsPosix(w, n.body, tested, depth + 1, t.st, t.fuel - 1);
      var b := Eval(Actual(w), n.body, tested, depth + 1, t.st, t.fuel - 1);
      if b.Done? && b.fuel > 0 {
        PosixLoop(w, n, tested, depth, b.st, b.st.status, b.fuel - 1);
      }
    }
  }

  lemma {:induction false} PosixFor(w: World, n: Node, tested: bool, depth: nat, st: State, i: nat, words: nat,
                                    status: int, fuel: nat)
    requires n.For? && TestsBareFree(n) && FuncsBareFree(w) && i <= words
    ensures EvalFor(Actual(w), n, tested, depth, st, i, words, status, fuel)
            == EvalFor(Posix(w), n, tested, depth, st, i, words, status, fuel)
    decreases fuel, n, 0, words - i
  {
    hide Eval, EvalFor, BareFree;
    ForUnfolds(Actual(w), n, tested, depth, st, i, words, status, fuel);
    ForUnfolds(Posix(w), n, tested, depth, st, i, words, status, fuel);
    if i < words {
      var st1 := st.(hist := st.hist + [Took(n.words, i)]);
      ReturnsAsPosix(w, n.body, tested, depth + 1, st1, fuel);
      var b := Eval(Actual(w), n.body, tested, depth + 1, st1, fuel);
      if b.Done? {
        PosixFor(w, n, tested, depth, b.st, i + 1, words, b.st.status, b.fuel);
      }
    }
  }

  lemma {:induction false} PosixCase(w: World, word: nat, c: Clauses, tested: bool, depth: nat, st: State, fuel: nat)
    requires TestsBareFreeClauses(c) && FuncsBareFree(w)
    ensures EvalCase(Actual(w), word, c, tested, depth, st, fuel)
            == EvalCase(Posix(w), word, c, tested, depth, st, fuel)
    decreases fuel, c
  {
    hide Eval, EvalCase, BareFree;
    CaseUnfolds(Actual(w), word, c, tested, depth, st, fuel);
    CaseUnfolds(Posix(w), word, c, tested, depth, st, fuel);
    if c.Clause? {
      PosixCase(w, word, c.rest, tested, depth, st, fuel);
      ReturnsAsPosix(w, c.body, tested, depth, st, fuel);
    }
  }

  /** while { false; return; }; do :; done, after which $? is 0 and not 1. */
  lemma ReturnStatusLost(w: World, fuel: nat)
    requires !w.eflag && forall h :: w.run(1, h) == 1
    ensures
      var n := Loop(false, Semi(Simple(1), ReturnLast), Simple(0));
      var st := State([], 0);
      && Eval(Actual(w), n, false, 0, st, fuel).Done? && Eval(Posix(w), n, false, 0, st, fuel).Done?
      && Eval(Actual(w), n, false, 0, st, fuel).st.status == 0
      && Eval(Posix(w), n, false, 0, st, fuel).st.status == 1
  {
    var n := Loop(false, Semi(Simple(1), ReturnLast), Simple(0));
    var st := State([], 0);
    TestReturns(Actual(w), st, fuel);
    TestReturns(Posix(w), st, fuel);
    LoopIs(Actual(w), n, false, 0, st, fuel);
    LoopIs(Posix(w), n, false, 0, st, fuel);
    LoopUnfolds(Actual(w), n, false, 0, st, 0, fuel);
    LoopUnfolds(Posix(w), n, false, 0, st, 0, fuel);
  }

  lemma TestReturns(w: World, st: State, fuel: nat)
    requires !w.eflag && forall h :: w.run(1, h) == 1
    ensures
      var r := Eval(w, Semi(Simple(1), ReturnLast), true, 1, st, fuel);
      r.Done? && r.o == Returned(true) && r.st.status == 1
  {
    hide Eval;
    BinaryIs(w, Semi(Simple(1), ReturnLast), true, 1, st, fuel);
    CommandFinish(w, Simple(1), true, 1, st, fuel);
    var r := Eval(w, Simple(1), true, 1, st, fuel);
    CommandFinish(w, ReturnLast, true, 1, r.st, r.fuel);
  }
}
