/** The shell's evaluator: break, continue and return set a global flag, and everything that sees it skips. */
module ShellEval {
  import opened CTypes
  import opened ShellLanguage

  const SKIPBREAK := 1
  const SKIPCONT := 2
  const SKIPFUNC := 4
  const SKIPFUNCDEF := 8

  /** How an evaluation ends: normally, by an exception that ends the shell, or not within the fuel. */
  datatype End = Completed | ExitRaised | ErrorRaised | OutOfFuel

  /** The flags that stand for an outcome. A pending break or continue is for 1 to nest loops. */
  predicate Flags(o: Outcome, skip: int, count: int, nest: nat) {
    match o
    case Normal => skip == 0
    case Broke(k) => skip == SKIPBREAK && count == k && 1 <= k <= nest
    case Continued(k) => skip == SKIPCONT && count == k && 1 <= k <= nest
    case Returned(bare) => skip == if bare then SKIPFUNCDEF else SKIPFUNC
  }

  predicate Agrees(r: Result, end: End, left: nat, st: State, skip: int, count: int, nest: nat) {
    match r
    case Timeout => end == OutOfFuel
    case Exited(s) => end == ExitRaised && st == s
    case BadNumber => end == ErrorRaised
    case Done(o, s, f) => end == Completed && left == f && st == s && Flags(o, skip, count, nest)
  }

  /** Nodes that run a command; the others only combine commands. */
  predicate IsCommand(n: Node) {
    n.Simple? || n.BreakCmd? || n.ContinueCmd? || n.ReturnCmd? || n.ReturnLast? || n.FunCall? || n.EvalCmd?
  }

  /** A command before its status is looked at. */
  function Command(w: World, n: Node, tested: bool, depth: nat, st: State, fuel: nat): Result
    requires IsCommand(n)
  {
    match n
    case Simple(cmd) => Done(Normal, st.(status := w.run(cmd, st.hist)), fuel)
    case BreakCmd(k) => Levels(k, false, st, depth, fuel)
    case ContinueCmd(k) => Levels(k, true, st, depth, fuel)
    case ReturnCmd(status) => Done(Returned(false), st.(status := status), fuel)
    case ReturnLast => Done(Returned(true), st, fuel)
    case FunCall(f) =>
      if f >= |w.funcs| then Done(Normal, st.(status := 127), fuel)
      else if fuel == 0 then Timeout
      else
        var r := Eval(w, w.funcs[f], tested, 0, st, fuel - 1);
        if r.Done? then r.(o := Normal) else r
    case EvalCmd(cmds) => EvalList(w, cmds, tested, depth, st, 0, fuel)
  }

  function Levels(n: int, continues: bool, st: State, depth: nat, fuel: nat): Result {
    if n <= 0 then BadNumber
    else
      var k := if n > depth then depth else n;
      Done(if k == 0 then Normal else if continues then Continued(k) else Broke(k), st.(status := 0), fuel)
  }

  lemma CommandFinish(w: World, n: Node, tested: bool, depth: nat, st: State, fuel: nat)
    requires IsCommand(n)
    ensures
      var r := Command(w, n, tested, depth, st, fuel);
      Eval(w, n, tested, depth, st, fuel) == if r.Done? then Finish(w, r.o, r.st, tested, r.fuel) else r
  {
    hide EvalList;
  }

  lemma NullIs(w: World, tested: bool, depth: nat, st: State, fuel: nat)
    ensures Eval(w, Null, tested, depth, st, fuel) == Done(Normal, st, fuel)
  {
  }

  lemma NotIs(w: World, n: Node, tested: bool, depth: nat, st: State, fuel: nat)
    requires n.Not?
    ensures
      var r := Eval(w, n.com, true, depth, st, fuel);
      Eval(w, n, tested, depth, st, fuel)
      == if r.Done? && r.o.Normal? then r.(st := r.st.(status := Truth(r.st.status == 0))) else r
  {
  }

  /** &&, || and ; differ in the test of the first command and in its status. */
  predicate Second(n: Node, status: int)
    requires n.And? || n.Or? || n.Semi?
  {
    n.Semi? || (status == 0) == n.And?
  }

  lemma BinaryIs(w: World, n: Node, tested: bool, depth: nat, st: State, fuel: nat)
    requires n.And? || n.Or? || n.Semi?
    ensures
      var r := Eval(w, n.ch1, if n.Semi? then tested else true, depth, st, fuel);
      Eval(w, n, tested, depth, st, fuel)
      == if r.Done? && r.o.Normal? && Second(n, r.st.status) then Eval(w, n.ch2, tested, depth, r.st, r.fuel) else r
  {
  }

  lemma IfIs(w: World, n: Node, tested: bool, depth: nat, st: State, fuel: nat)
    requires n.If?
    ensures
      var r := Eval(w, n.test, true, depth, st, fuel);
      Eval(w, n, tested, depth, st, fuel)
      == if !(r.Done? && r.o.Normal?) then r
         else if r.st.status == 0 then Eval(w, n.ifpart, tested, depth, r.st, r.fuel)
         else if n.elsepart != Null then Eval(w, n.elsepart, tested, depth, r.st, r.fuel)
         else r.(st := r.st.(status := 0))
  {
  }

  lemma LoopIs(w: World, n: Node, tested: bool, depth: nat, st: State, fuel: nat)
    ensures n.Loop? ==> Eval(w, n, tested, depth, st, fuel) == EvalLoop(w, n, tested, depth, st, 0, fuel)
    ensures n.For? ==>
              Eval(w, n, tested, depth, st, fuel)
              == EvalFor(w, n, tested, depth, st, 0, w.count(n.words, st.hist), 0, fuel)
    ensures n.Case? ==> Eval(w, n, tested, depth, st, fuel) == EvalCase(w, n.word, n.clauses, tested, depth, st, fuel)
  {
    hide EvalLoop, EvalFor, EvalCase;
  }

  lemma LoopUnfolds(w: World, n: Node, tested: bool, depth: nat, st: State, status: int, fuel: nat)
    requires n.Loop?
    ensures
      var t := Eval(w, n.test, true, depth + 1, st, fuel);
      EvalLoop(w, n, tested, depth, st, status, fuel)
      == if !t.Done? then t
         else if t.o.Normal? && (t.st.status == 0) == n.until then Done(Normal, t.st.(status := status), t.fuel)
         else if !Repeats(t.o) then
           var s := if t.o.Returned? && (w.posix || !t.o.bare) then t.st.status else status;
           Done(Outward(t.o), t.st.(status := s), t.fuel)
         else if t.fuel == 0 then Timeout
         else if !t.o.Normal? then EvalLoop(w, n, tested, depth, t.st, status, t.fuel - 1)
         else
           var b := Eval(w, n.body, tested, depth + 1, t.st, t.fuel - 1);
           if !b.Done? then b
           else if !Repeats(b.o) then b.(o := Outward(b.o))
           else if b.fuel == 0 then Timeout
           else EvalLoop(w, n, tested, depth, b.st, b.st.status, b.fuel - 1)
  {
    hide Eval;
  }

  lemma ForUnfolds(w: World, n: Node, tested: bool, depth: nat, st: State, i: nat, words: nat, status: int, fuel: nat)
    requires n.For? && i <= words
    ensures
      EvalFor(w, n, tested, depth, st, i, words, status, fuel)
      == if i == words then Done(Normal, st.(status := status), fuel)
         else
           var b := Eval(w, n.body, tested, depth + 1, st.(hist := st.hist + [Took(n.words, i)]), fuel);
           if !b.Done? then b
           else if !Repeats(b.o) then b.(o := Outward(b.o))
           else EvalFor(w, n, tested, depth, b.st, i + 1, words, b.st.status, b.fuel)
  {
    hide Eval;
  }

  lemma CaseUnfolds(w: World, word: nat, c: Clauses, tested: bool, depth: nat, st: State, fuel: nat)
    ensures
      EvalCase(w, word, c, tested, depth, st, fuel)
      == if c == NoClause then Done(Normal, st.(status := 0), fuel)
         else if !w.matches(word, c.pattern, st.hist) then EvalCase(w, word, c.rest, tested, depth, st, fuel)
         else if c.body == Null then Done(Normal, st.(status := 0), fuel)
         else Eval(w, c.body, tested, depth, st, fuel)
  {
    hide Eval;
  }

  lemma ListUnfolds(w: World, l: Nodes, tested: bool, depth: nat, st: State, status: int, fuel: nat)
    ensures
      EvalList(w, l, tested, depth, st, status, fuel)
      == if l == NoNodes then Done(Normal, st.(status := status), fuel)
         else
           var r := Eval(w, l.first, tested, depth, st, fuel);
           if r.Done? && r.o.Normal? then
             EvalList(w, l.rest, tested, depth, r.st, if l.first != Null then r.st.status else status, r.fuel)
           else r
  {
    hide Eval;
  }

  class Shell {
    const w: World
    var evalskip: int
    var skipcount: int
    var loopnest: nat
    var exitstatus: int
    /** What has happened so far, which is all that simple commands can depend on. */
    var hist: seq<Event>

    constructor (w: World)
      ensures this.w == w && evalskip == 0 && loopnest == 0 && exitstatus == 0 && hist == []
    {
      this.w := w;
      evalskip, skipcount, loopnest, exitstatus, hist := 0, 0, 0, 0, [];
    }

    function Now(): State
      reads this
    {
      State(hist, exitstatus)
    }

    /** The evaluation so far, with a status not yet stored, agrees with r. */
    predicate Matches(r: Result, end: End, left: nat, status: int, nest: nat)
      reads this
    {
      Agrees(r, end, left, State(hist, status), evalskip, skipcount, nest) && (end == Completed ==> loopnest == nest)
    }

    // -------------------------------------------------------------- the builtins

    /** break and continue. */
    method Breakcmd(n0: int, continues: bool) returns (status: int, end: End)
      requires evalskip == 0
      modifies this`evalskip, this`skipcount
      ensures n0 <= 0 ==> end == ErrorRaised
      ensures n0 > 0 ==>
                && end == Completed && status == 0
                && var k := if n0 > loopnest then loopnest else n0;
                   Flags(if k == 0 then Normal else if continues then Continued(k) else Broke(k),
                         evalskip, skipcount, loopnest)
    {
      var n := n0;
      if n <= 0 {
        return 0, ErrorRaised;
      }
      if n > loopnest {
        n := loopnest;
      }
      if n > 0 {
        evalskip := if continues then SKIPCONT else SKIPBREAK;
        skipcount := n;
      }
      return 0, Completed;
    }

    method Returncmd(operand: bool, number: int) returns (status: int)
      requires evalskip == 0
      modifies this`evalskip
      ensures status == if operand then number else exitstatus
      ensures Flags(Returned(!operand), evalskip, skipcount, loopnest)
    {
      var skip;
      if operand {
        skip := SKIPFUNC;
        status := number;
      } else {
        skip := SKIPFUNCDEF;
        status := exitstatus;
      }
      evalskip := skip;
    }

    /** What a loop makes of the flag: one level is used up; the result is 0 or SKIPCONT if the loop goes on. */
    method Skiploop(ghost o: Outcome) returns (skip: int)
      requires Flags(o, evalskip, skipcount, loopnest) && loopnest > 0
      modifies this`evalskip, this`skipcount
      ensures Flags(Outward(o), evalskip, skipcount, loopnest - 1)
      ensures o.Broke? || o.Continued? ==>
                && (o.levels == 1 ==> evalskip == 0)
                && (o.levels > 1 ==> evalskip == old(evalskip) && skipcount == o.levels - 1 && skip == SKIPBREAK)
      ensures skip == 0 <==> o.Normal?
      ensures skip == 0 || skip == SKIPCONT <==> Repeats(o)
      ensures skip == SKIPFUNC <==> o == Returned(false)
    {
      skip := evalskip;
      if skip == SKIPBREAK || skip == SKIPCONT {
        skipcount := skipcount - 1;
        if skipcount <= 0 {
          evalskip := 0;
        } else {
          skip := SKIPBREAK;
        }
      }
    }

    // -------------------------------------------------------------- evaltree

    method Evaltree(n: Node, tested: bool, fuel: nat) returns (status: int, end: End, left: nat)
      requires evalskip == 0 && !w.posix
      modifies this
      ensures Matches(Eval(w, n, tested, old(loopnest), old(Now()), fuel), end, left, exitstatus, old(loopnest))
      ensures end == Completed || end == ExitRaised ==> status == exitstatus
      decreases fuel, n, 9
    {
      hide Eval, EvalLoop, EvalFor, EvalList, EvalCase;
      if n == Null {
        NullIs(w, tested, loopnest, Now(), fuel);
        return exitstatus, Completed, fuel;
      }
      if n.Not? {
        status, end, left := EvalNot(n, tested, fuel);
      } else if n.And? || n.Or? || n.Semi? {
        status, end, left := EvalBinary(n, tested, fuel);
      } else if n.If? {
        status, end, left := EvalIf(n, tested, fuel);
      } else if n.Loop? {
        status, end, left := Evalloop(n, tested, fuel);
      } else if n.For? {
        status, end, left := Evalfor(n, tested, fuel);
      } else if n.Case? {
        status, end, left := Evalcase(n, tested, fuel);
      } else {
        CommandFinish(w, n, tested, loopnest, Now(), fuel);
        status, end, left := Evalcommand(n, tested, fuel);
        if end == Completed {
          hist := hist + [Ran(status, tested)];
          if w.eflag && !tested && status != 0 {
            end := ExitRaised;
          }
        }
      }
      if end == Completed || end == ExitRaised {
        exitstatus := status;
      }
    }

    method EvalNot(n: Node, tested: bool, fuel: nat) returns (status: int, end: End, left: nat)
      requires evalskip == 0 && !w.posix && n.Not?
      modifies this
      ensures Matches(Eval(w, n, tested, old(loopnest), old(Now()), fuel), end, left, status, old(loopnest))
      decreases fuel, n, 5
    {
      hide Eval;
      NotIs(w, n, tested, loopnest, Now(), fuel);
      status, end, left := Evaltree(n.com, true, fuel);
      if end == Completed && evalskip == 0 {
        status := Truth(status == 0);
      }
    }

    method EvalBinary(n: Node, tested: bool, fuel: nat) returns (status: int, end: End, left: nat)
      requires evalskip == 0 && !w.posix && (n.And? || n.Or? || n.Semi?)
      modifies this
      ensures Matches(Eval(w, n, tested, old(loopnest), old(Now()), fuel), end, left, status, old(loopnest))
      decreases fuel, n, 5
    {
      hide Eval;
      BinaryIs(w, n, tested, loopnest, Now(), fuel);
      var isor := if n.And? then 0 else if n.Or? then 1 else 2;
      status, end, left := Evaltree(n.ch1, if isor == 2 then tested else true, fuel);
      if end != Completed || Truth(status == 0) == isor || evalskip != 0 {
        return;
      }
      status, end, left := Evaltree(n.ch2, tested, left);
    }

    method EvalIf(n: Node, tested: bool, fuel: nat) returns (status: int, end: End, left: nat)
      requires evalskip == 0 && !w.posix && n.If?
      modifies this
      ensures Matches(Eval(w, n, tested, old(loopnest), old(Now()), fuel), end, left, status, old(loopnest))
      decreases fuel, n, 5
    {
      hide Eval;
      IfIs(w, n, tested, loopnest, Now(), fuel);
      status, end, left := Evaltree(n.test, true, fuel);
      if end != Completed || evalskip != 0 {
        return;
      }
      if status == 0 {
        status, end, left := Evaltree(n.ifpart, tested, left);
      } else if n.elsepart != Null {
        status, end, left := Evaltree(n.elsepart, tested, left);
      } else {
        status := 0;
      }
    }

    // -------------------------------------------------------------- loops

    method Evalloop(n: Node, tested: bool, fuel: nat) returns (status: int, end: End, left: nat)
      requires evalskip == 0 && !w.posix && n.Loop?
      modifies this
      ensures Matches(Eval(w, n, tested, old(loopnest), old(Now()), fuel), end, left, status, old(loopnest))
      decreases fuel, n, 5
    {
      hide Eval, EvalLoop;
      ghost var nest := loopnest;
      LoopIs(w, n, tested, nest, Now(), fuel);
      ghost var whole := EvalLoop(w, n, tested, nest, Now(), 0, fuel);
      loopnest := loopnest + 1;
      status, end, left := 0, Completed, fuel;
      var more := true;
      while more
        invariant left <= fuel && loopnest == nest + 1
        invariant more ==> evalskip == 0 && whole == EvalLoop(w, n, tested, nest, Now(), status, left)
        invariant !more ==>
                    && end == Completed
                    && Agrees(whole, end, left, State(hist, status), evalskip, skipcount, nest)
        decreases more, left
      {
        status, end, left, more := LoopRound(n, tested, status, left);
        if end != Completed {
          return;
        }
      }
      loopnest := loopnest - 1;
    }

    /** One round of the do loop. */
    method LoopRound(n: Node, tested: bool, status0: int, fuel: nat)
      returns (status: int, end: End, left: nat, more: bool)
      requires evalskip == 0 && !w.posix && n.Loop? && loopnest > 0
      modifies this
      ensures end == Completed ==> loopnest == old(loopnest)
      ensures
        var whole := EvalLoop(w, n, tested, old(loopnest) - 1, old(Now()), status0, fuel);
        if end == Completed && more then
          left < fuel && evalskip == 0
          && whole == EvalLoop(w, n, tested, old(loopnest) - 1, Now(), status, left)
        else Agrees(whole, end, left, State(hist, status), evalskip, skipcount, old(loopnest) - 1)
      decreases fuel, n, 4
    {
      hide Eval, EvalLoop;
      ghost var nest := loopnest - 1;
      LoopUnfolds(w, n, tested, nest, Now(), status0, fuel);
      status, more := status0, false;
      var i, skip;
      ghost var r := Eval(w, n.test, true, loopnest, Now(), fuel);
      i, end, left := Evaltree(n.test, true, fuel);
      if end != Completed {
        status := i;
        return;
      }
      skip := Skiploop(r.o);
      if skip == SKIPFUNC {
        status := i;
      }
      if skip == 0 {
        if n.until {
          i := Truth(i == 0);
        }
        if i != 0 {
          return;
        }
        if left == 0 {
          end := OutOfFuel;
          return;
        }
        r := Eval(w, n.body, tested, loopnest, Now(), left - 1);
        status, end, left := Evaltree(n.body, tested, left - 1);
        if end != Completed {
          return;
        }
        skip := Skiploop(r.o);
      }
      if skip == 0 || skip == SKIPCONT {
        if left == 0 {
          end := OutOfFuel;
          return;
        }
        left := left - 1;
        more := true;
      }
    }

    method Evalfor(n: Node, tested: bool, fuel: nat) returns (status: int, end: End, left: nat)
      requires evalskip == 0 && !w.posix && n.For?
      modifies this
      ensures Matches(Eval(w, n, tested, old(loopnest), old(Now()), fuel), end, left, status, old(loopnest))
      decreases fuel, n, 5
    {
      hide Eval, EvalFor;
      ghost var nest := loopnest;
      LoopIs(w, n, tested, nest, Now(), fuel);
      var words := w.count(n.words, hist);
      ghost var whole := EvalFor(w, n, tested, nest, Now(), 0, words, 0, fuel);
      status, left, end := 0, fuel, Completed;
      loopnest := loopnest + 1;
      var i := 0;
      while i < words
        invariant i <= words && left <= fuel && loopnest == nest + 1 && evalskip == 0 && end == Completed
        invariant whole == EvalFor(w, n, tested, nest, Now(), i, words, status, left)
        decreases words - i
      {
        ForUnfolds(w, n, tested, nest, Now(), i, words, status, left);
        hist := hist + [Took(n.words, i)];
        ghost var r := Eval(w, n.body, tested, loopnest, Now(), left);
        status, end, left := Evaltree(n.body, tested, left);
        if end != Completed {
          return;
        }
        var skip := Skiploop(r.o);
        if skip != 0 && skip != SKIPCONT {
          loopnest := loopnest - 1;
          return;
        }
        i := i + 1;
      }
      ForUnfolds(w, n, tested, nest, Now(), i, words, status, left);
      loopnest := loopnest - 1;
    }

    method Evalcase(n: Node, tested: bool, fuel: nat) returns (status: int, end: End, left: nat)
      requires evalskip == 0 && !w.posix && n.Case?
      modifies this
      ensures Matches(Eval(w, n, tested, old(loopnest), old(Now()), fuel), end, left, status, old(loopnest))
      decreases fuel, n, 5
    {
      hide Eval, EvalCase;
      LoopIs(w, n, tested, loopnest, Now(), fuel);
      ghost var whole := EvalCase(w, n.word, n.clauses, tested, loopnest, Now(), fuel);
      status, end, left := 0, Completed, fuel;
      var cp := n.clauses;
      while cp != NoClause && evalskip == 0
        invariant evalskip == 0 && loopnest == old(loopnest) && Now() == old(Now())
        invariant whole == EvalCase(w, n.word, cp, tested, loopnest, Now(), fuel)
        invariant cp == n.clauses || cp < n.clauses
        decreases cp
      {
        CaseUnfolds(w, n.word, cp, tested, loopnest, Now(), fuel);
        if w.matches(n.word, cp.pattern, hist) {
          if cp.body != Null {
            status, end, left := Evaltree(cp.body, tested, fuel);
          }
          return;
        }
        cp := cp.rest;
      }
      CaseUnfolds(w, n.word, cp, tested, loopnest, Now(), fuel);
    }

    // -------------------------------------------------------------- commands

    method Evalcommand(n: Node, tested: bool, fuel: nat) returns (status: int, end: End, left: nat)
      requires evalskip == 0 && !w.posix && IsCommand(n)
      modifies this
      ensures Matches(Command(w, n, tested, old(loopnest), old(Now()), fuel), end, left, status, old(loopnest))
      decreases fuel, n, 5
    {
      hide Eval, EvalList;
      status, end, left := 0, Completed, fuel;
      match n
      case Simple(cmd) => status := w.run(cmd, hist);
      case BreakCmd(k) => status, end := Breakcmd(k, false);
      case ContinueCmd(k) => status, end := Breakcmd(k, true);
      case ReturnCmd(number) => status := Returncmd(true, number);
      case ReturnLast => status := Returncmd(false, 0);
      case FunCall(f) =>
        if f >= |w.funcs| {
          status := 127;
        } else {
          status, end, left := Evalfun(f, tested, fuel);
        }
      case EvalCmd(cmds) => status, end, left := Evalstring(cmds, tested, fuel);
    }

    /** A function sees no loops, and no flag comes out of it. */
    method Evalfun(f: nat, tested: bool, fuel: nat) returns (status: int, end: End, left: nat)
      requires evalskip == 0 && !w.posix && f < |w.funcs|
      modifies this
      ensures Matches(Command(w, FunCall(f), tested, old(loopnest), old(Now()), fuel), end, left, status, old(loopnest))
      decreases fuel, FunCall(f), 4
    {
      hide Eval;
      if fuel == 0 {
        return 0, OutOfFuel, 0;
      }
      var saveloopnest := loopnest;
      loopnest := 0;
      status, end, left := Evaltree(w.funcs[f], tested, fuel - 1);
      loopnest := saveloopnest;
      if evalskip == SKIPFUNC || evalskip == SKIPFUNCDEF {
        evalskip := 0;
      }
    }

    /** The commands of a string, until one of them sets the flag. */
    method Evalstring(cmds: Nodes, tested: bool, fuel: nat) returns (status: int, end: End, left: nat)
      requires evalskip == 0 && !w.posix
      modifies this
      ensures Matches(EvalList(w, cmds, tested, old(loopnest), old(Now()), 0, fuel), end, left, status, old(loopnest))
      decreases fuel, cmds, 5
    {
      hide Eval, EvalList;
      ghost var whole := EvalList(w, cmds, tested, loopnest, Now(), 0, fuel);
      status, end, left := 0, Completed, fuel;
      var l := cmds;
      while l != NoNodes
        invariant evalskip == 0 && loopnest == old(loopnest) && left <= fuel && end == Completed
        invariant whole == EvalList(w, l, tested, loopnest, Now(), status, left)
        invariant l == cmds || l < cmds
        decreases l
      {
        ListUnfolds(w, l, tested, loopnest, Now(), status, left);
        NullIs(w, tested, loopnest, Now(), left);
        var i;
        i, end, left := Evaltree(l.first, tested, left);
        if end != Completed {
          status := i;
          return;
        }
        if l.first != Null {
          status := i;
        }
        if evalskip != 0 {
          return;
        }
        l := l.rest;
      }
      ListUnfolds(w, l, tested, loopnest, Now(), status, left);
    }
  }
}
