/** When a return without operand gives back what POSIX has it give back: an exact condition along the run.

    In the test of a while or until loop this shell gives back the status of the last loop body instead of that of the
    last command. That does no harm where the two are equal, and where the status is replaced once more, because the
    loop itself stands in the test of another one. */
module ShellReturns {
  import opened ShellLanguage
  import opened ShellEval
  import opened ShellProperties

  predicate Bare(r: Result) {
    r.Done? && r.o == Returned(true)
  }

  predicate Ended(r: Result) {
    r.Done? || r.Exited?
  }

  /** What follows the first part of a list, a test or a loop: r is the first part's result, and this is gone on
      with. */
  predicate GoesOn(r: Result) {
    r.Done? && r.o.Normal?
  }

  // ---------------------------------------------------------------- the condition

  /** Along the run under the rule of POSIX, every return without operand that reaches a loop test meets the status
      which that loop has; strict says whether the status of such a return out of n itself matters. */
  ghost predicate Meets(w: World, n: Node, strict: bool, tested: bool, depth: nat, st: State, fuel: nat)
    decreases fuel, n
  {
    match n
    case FunCall(f) => f < |w.funcs| && fuel > 0 ==> Meets(w, w.funcs[f], true, tested, 0, st, fuel - 1)
    case EvalCmd(cmds) => MeetsList(w, cmds, tested, depth, st, 0, fuel)
    case Not(com) => Meets(w, com, strict, true, depth, st, fuel)
    case And(a, b) => MeetsBoth(w, n, strict, tested, depth, st, fuel)
    case Or(a, b) => MeetsBoth(w, n, strict, tested, depth, st, fuel)
    case Semi(a, b) => MeetsBoth(w, n, strict, tested, depth, st, fuel)
    case If(t, a, b) =>
      var r := Eval(Posix(w), t, true, depth, st, fuel);
      && Meets(w, t, strict, true, depth, st, fuel)
      && (GoesOn(r) && r.st.status == 0 ==> Meets(w, a, strict, tested, depth, r.st, r.fuel))
      && (GoesOn(r) && r.st.status != 0 ==> Meets(w, b, strict, tested, depth, r.st, r.fuel))
    case Loop(_, _, _) => MeetsLoop(w, n, strict, tested, depth, st, 0, fuel)
    case For(words, _) => MeetsFor(w, n, strict, tested, depth, st, 0, w.count(words, st.hist), 0, fuel)
    case Case(word, clauses) => MeetsCase(w, word, clauses, strict, tested, depth, st, fuel)
    case _ => true
  }

  ghost predicate MeetsBoth(w: World, n: Node, strict: bool, tested: bool, depth: nat, st: State, fuel: nat)
    requires n.And? || n.Or? || n.Semi?
    decreases fuel, n, 0
  {
    var t := if n.Semi? then tested else true;
    var r := Eval(Posix(w), n.ch1, t, depth, st, fuel);
    && Meets(w, n.ch1, strict, t, depth, st, fuel)
    && (GoesOn(r) && Second(n, r.st.status) ==> Meets(w, n.ch2, strict, tested, depth, r.st, r.fuel))
  }

  ghost predicate MeetsList(w: World, l: Nodes, tested: bool, depth: nat, st: State, status: int, fuel: nat)
    decreases fuel, l
  {
    l.MoreNodes? ==>
      var r := Eval(Posix(w), l.first, tested, depth, st, fuel);
      && Meets(w, l.first, true, tested, depth, st, fuel)
      && (GoesOn(r) ==>
            MeetsList(w, l.rest, tested, depth, r.st, if l.first != Null then r.st.status else status, r.fuel))
  }

  /** The test of n lets a round follow. */
  predicate Enters(n: Node, t: Result)
    requires n.Loop?
  {
    t.Done? && Repeats(t.o) && !(t.o.Normal? && (t.st.status == 0) == n.until) && t.fuel > 0
  }

  ghost predicate MeetsLoop(w: World, n: Node, strict: bool, tested: bool, depth: nat, st: State, status: int,
                            fuel: nat)
    requires n.Loop?
    decreases fuel, n, 0
  {
    var t := Eval(Posix(w), n.test, true, depth + 1, st, fuel);
    && Meets(w, n.test, false, true, depth + 1, st, fuel)
    && (Bare(t) && strict ==> t.st.status == status)
    && (Enters(n, t) && !t.o.Normal? ==> MeetsLoop(w, n, strict, tested, depth, t.st, status, t.fuel - 1))
    && (Enters(n, t) && t.o.Normal? ==> MeetsRound(w, n, strict, tested, depth, t.st, t.fuel - 1))
  }

  /** A body and the rounds after it. */
  ghost predicate MeetsRound(w: World, n: Node, strict: bool, tested: bool, depth: nat, st: State, fuel: nat)
    requires n.Loop?
    decreases fuel, n, 1
  {
    var b := Eval(Posix(w), n.body, tested, depth + 1, st, fuel);
    && Meets(w, n.body, strict, tested, depth + 1, st, fuel)
    && (b.Done? && Repeats(b.o) && b.fuel > 0 ==>
          MeetsLoop(w, n, strict, tested, depth, b.st, b.st.status, b.fuel - 1))
  }

  ghost predicate MeetsFor(w: World, n: Node, strict: bool, tested: bool, depth: nat, st: State, i: nat, words: nat,
                           status: int, fuel: nat)
    requires n.For? && i <= words
    decreases fuel, n, words - i
  {
    i < words ==>
      var st1 := st.(hist := st.hist + [Took(n.words, i)]);
      var b := Eval(Posix(w), n.body, tested, depth + 1, st1, fuel);
      && Meets(w, n.body, strict, tested, depth + 1, st1, fuel)
      && (b.Done? && Repeats(b.o) ==>
            MeetsFor(w, n, strict, tested, depth, b.st, i + 1, words, b.st.status, b.fuel))
  }

  ghost predicate MeetsCase(w: World, word: nat, c: Clauses, strict: bool, tested: bool, depth: nat, st: State,
                            fuel: nat)
    decreases fuel, c
  {
    c.Clause? ==>
      if !w.matches(word, c.pattern, st.hist) then MeetsCase(w, word, c.rest, strict, tested, depth, st, fuel)
      else Meets(w, c.body, strict, tested, depth, st, fuel)
  }

  // ---------------------------------------------------------------- comparing the two rules

  /** The same result, but for the status of a return without operand if that does not matter. */
  predicate Same(strict: bool, a: Result, p: Result) {
    a == p || (!strict && Bare(a) && Bare(p) && a.st.hist == p.st.hist && a.fuel == p.fuel)
  }

  ghost predicate Diverge(h: seq<Event>, g: seq<Event>) {
    exists i :: 0 <= i < |h| && i < |g| && h[i] != g[i]
  }

  /** a differs from the run p, which has ended, in a way that nothing later makes good. */
  ghost predicate Lost(a: Result, p: Result) {
    Ended(p) ==> !Ended(a) || Diverge(a.st.hist, p.st.hist)
  }

  ghost predicate Apart(strict: bool, a: Result, p: Result) {
    || Lost(a, p)
    || (strict && Bare(a) && Bare(p) && a.st.hist == p.st.hist && a.st.status != p.st.status)
  }

  /** a, under the rule of this shell, against p, under that of POSIX, according to whether the condition holds. */
  ghost predicate Matches(meets: bool, strict: bool, a: Result, p: Result) {
    if meets then Same(strict, a, p) else Apart(strict, a, p)
  }

  /** r is the result of something that starts with r1. */
  predicate Follows(r1: Result, r: Result) {
    Ended(r) ==> Ended(r1) && r1.st.hist <= r.st.hist
  }

  lemma LostFollows(a1: Result, p1: Result, a: Result, p: Result)
    requires Lost(a1, p1) && Follows(a1, a) && Follows(p1, p)
    ensures Lost(a, p)
  {
    if Ended(p) && Ended(a) {
      var i :| 0 <= i < |a1.st.hist| && i < |p1.st.hist| && a1.st.hist[i] != p1.st.hist[i];
      assert a.st.hist[i] == a1.st.hist[i] && p.st.hist[i] == p1.st.hist[i];
    }
  }

  /** A difference in the first part is one in the whole, since a return without operand is passed on as it is. */
  lemma ApartFollows(strict: bool, a1: Result, p1: Result, a: Result, p: Result)
    requires Apart(strict, a1, p1) && Follows(a1, a) && Follows(p1, p)
    requires (Bare(a1) ==> a == a1) && (Bare(p1) ==> p == p1)
    ensures Apart(strict, a, p)
  {
    hide Lost;
    if Lost(a1, p1) {
      LostFollows(a1, p1, a, p);
    }
  }

  /** The end of a function, or of eval, which keeps the outcome. */
  function Closed(w: World, keep: bool, r: Result, tested: bool): (c: Result)
    ensures Follows(r, c)
  {
    if r.Done? then Finish(w, if keep then r.o else Normal, r.st, tested, r.fuel) else r
  }

  /** It records the status, so that a difference in it shows. */
  lemma ApartClosed(w: World, keep: bool, a: Result, p: Result, tested: bool, strict: bool)
    requires Apart(true, a, p)
    ensures Apart(strict, Closed(Actual(w), keep, a, tested), Closed(Posix(w), keep, p, tested))
  {
    var c, d := Closed(Actual(w), keep, a, tested), Closed(Posix(w), keep, p, tested);
    if Lost(a, p) {
      LostFollows(a, p, c, d);
    } else {
      assert c.st.hist[|a.st.hist|] != d.st.hist[|p.st.hist|];
    }
  }

  /** The shell's result is the one of POSIX exactly if the condition holds; for a run that ends. */
  lemma {:induction false} MeetsExactly(w: World, n: Node, strict: bool, tested: bool, depth: nat, st: State, fuel: nat)
    ensures Matches(Meets(w, n, strict, tested, depth, st, fuel), strict,
                    Eval(Actual(w), n, tested, depth, st, fuel), Eval(Posix(w), n, tested, depth, st, fuel))
    decreases fuel, n, 9
  {
    hide Eval, EvalLoop, EvalFor, EvalCase, EvalList, Matches, MeetsBoth, MeetsLoop, MeetsFor, MeetsCase, MeetsList,
      Finish;
    if n.Not? {
      ExactNot(w, n, strict, tested, depth, st, fuel);
    } else if n.And? || n.Or? || n.Semi? {
      ExactBoth(w, n, strict, tested, depth, st, fuel);
    } else if n.If? {
      ExactIf(w, n, strict, tested, depth, st, fuel);
    } else if n.Loop? || n.For? || n.Case? {
      LoopIs(Actual(w), n, tested, depth, st, fuel);
      LoopIs(Posix(w), n, tested, depth, st, fuel);
      if n.Loop? {
        ExactLoop(w, n, strict, tested, depth, st, 0, fuel);
      } else if n.For? {
        ExactFor(w, n, strict, tested, depth, st, 0, w.count(n.words, st.hist), 0, fuel);
      } else {
        ExactCase(w, n.word, n.clauses, strict, tested, depth, st, fuel);
      }
    } else {
      ExactCommand(w, n, strict, tested, depth, st, fuel);
    }
  }

  lemma {:induction false} ExactNot(w: World, n: Node, strict: bool, tested: bool, depth: nat, st: State, fuel: nat)
    requires n.Not?
    ensures Matches(Meets(w, n, strict, tested, depth, st, fuel), strict,
                    Eval(Actual(w), n, tested, depth, st, fuel), Eval(Posix(w), n, tested, depth, st, fuel))
    decreases fuel, n, 8
  {
    hide Eval, Apart;
    NotIs(Actual(w), n, tested, depth, st, fuel);
    NotIs(Posix(w), n, tested, depth, st, fuel);
    MeetsExactly(w, n.com, strict, true, depth, st, fuel);
    var a1, p1 := Eval(Actual(w), n.com, true, depth, st, fuel), Eval(Posix(w), n.com, true, depth, st, fuel);
    if !Meets(w, n.com, strict, true, depth, st, fuel) {
      ApartFollows(strict, a1, p1, Eval(Actual(w), n, tested, depth, st, fuel),
                   Eval(Posix(w), n, tested, depth, st, fuel));
    }
  }

  lemma {:induction false} ExactBoth(w: World, n: Node, strict: bool, tested: bool, depth: nat, st: State, fuel: nat)
    requires n.And? || n.Or? || n.Semi?
    ensures Matches(MeetsBoth(w, n, strict, tested, depth, st, fuel), strict,
                    Eval(Actual(w), n, tested, depth, st, fuel), Eval(Posix(w), n, tested, depth, st, fuel))
    decreases fuel, n, 8
  {
    hide Eval, Apart, Meets;
    BinaryIs(Actual(w), n, tested, depth, st, fuel);
    BinaryIs(Posix(w), n, tested, depth, st, fuel);
    var t := if n.Semi? then tested else true;
    MeetsExactly(w, n.ch1, strict, t, depth, st, fuel);
    var a1, p1 := Eval(Actual(w), n.ch1, t, depth, st, fuel), Eval(Posix(w), n.ch1, t, depth, st, fuel);
    if !Meets(w, n.ch1, strict, t, depth, st, fuel) {
      ApartFollows(strict, a1, p1, Eval(Actual(w), n, tested, depth, st, fuel),
                   Eval(Posix(w), n, tested, depth, st, fuel));
    } else if GoesOn(p1) && Second(n, p1.st.status) {
      MeetsExactly(w, n.ch2, strict, tested, depth, p1.st, p1.fuel);
    }
  }

  lemma {:induction false} ExactIf(w: World, n: Node, strict: bool, tested: bool, depth: nat, st: State, fuel: nat)
    requires n.If?
    ensures Matches(Meets(w, n, strict, tested, depth, st, fuel), strict,
                    Eval(Actual(w), n, tested, depth, st, fuel), Eval(Posix(w), n, tested, depth, st, fuel))
    decreases fuel, n, 8
  {
    hide Eval, Apart;
    IfIs(Actual(w), n, tested, depth, st, fuel);
    IfIs(Posix(w), n, tested, depth, st, fuel);
    MeetsExactly(w, n.test, strict, true, depth, st, fuel);
    var a1, p1 := Eval(Actual(w), n.test, true, depth, st, fuel), Eval(Posix(w), n.test, true, depth, st, fuel);
    if !Meets(w, n.test, strict, true, depth, st, fuel) {
      ApartFollows(strict, a1, p1, Eval(Actual(w), n, tested, depth, st, fuel),
                   Eval(Posix(w), n, tested, depth, st, fuel));
    } else if GoesOn(p1) {
      if p1.st.status == 0 {
        MeetsExactly(w, n.ifpart, strict, tested, depth, p1.st, p1.fuel);
      } else {
        MeetsExactly(w, n.elsepart, strict, tested, depth, p1.st, p1.fuel);
      }
    }
  }

  lemma {:induction false} ExactCommand(w: World, n: Node, strict: bool, tested: bool, depth: nat, st: State, fuel: nat)
    requires IsCommand(n) || n == Null
    ensures Matches(Meets(w, n, strict, tested, depth, st, fuel), strict,
                    Eval(Actual(w), n, tested, depth, st, fuel), Eval(Posix(w), n, tested, depth, st, fuel))
    decreases fuel, n, 8
  {
    hide Eval, EvalList, Apart, MeetsList;
    if n == Null {
      NullIs(Actual(w), tested, depth, st, fuel);
      NullIs(Posix(w), tested, depth, st, fuel);
    } else {
      CommandFinish(Actual(w), n, tested, depth, st, fuel);
      CommandFinish(Posix(w), n, tested, depth, st, fuel);
      if n.FunCall? && n.f < |w.funcs| && fuel > 0 {
        var f := w.funcs[n.f];
        MeetsExactly(w, f, true, tested, 0, st, fuel - 1);
        if !Meets(w, f, true, tested, 0, st, fuel - 1) {
          ApartClosed(w, false, Eval(Actual(w), f, tested, 0, st, fuel - 1), Eval(Posix(w), f, tested, 0, st, fuel - 1),
                      tested, strict);
        }
      } else if n.EvalCmd? {
        ExactList(w, n.cmds, tested, depth, st, 0, fuel);
        if !MeetsList(w, n.cmds, tested, depth, st, 0, fuel) {
          ApartClosed(w, true, EvalList(Actual(w), n.cmds, tested, depth, st, 0, fuel),
                      EvalList(Posix(w), n.cmds, tested, depth, st, 0, fuel), tested, strict);
        }
      }
    }
  }

  lemma {:induction false} ExactList(w: World, l: Nodes, tested: bool, depth: nat, st: State, status: int, fuel: nat)
    ensures Matches(MeetsList(w, l, tested, depth, st, status, fuel), true,
                    EvalList(Actual(w), l, tested, depth, st, status, fuel),
                    EvalList(Posix(w), l, tested, depth, st, status, fuel))
    decreases fuel, l
  {
    hide Eval, EvalList, Apart, Meets;
    ListUnfolds(Actual(w), l, tested, depth, st, status, fuel);
    ListUnfolds(Posix(w), l, tested, depth, st, status, fuel);
    if l.MoreNodes? {
      MeetsExactly(w, l.first, true, tested, depth, st, fuel);
      var a1, p1 := Eval(Actual(w), l.first, tested, depth, st, fuel), Eval(Posix(w), l.first, tested, depth, st, fuel);
      if !Meets(w, l.first, true, tested, depth, st, fuel) {
        ApartFollows(true, a1, p1, EvalList(Actual(w), l, tested, depth, st, status, fuel),
                     EvalList(Posix(w), l, tested, depth, st, status, fuel));
      } else if GoesOn(p1) {
        ExactList(w, l.rest, tested, depth, p1.st, if l.first != Null then p1.st.status else status, p1.fuel);
      }
    }
  }

  lemma {:induction false} ExactCase(w: World, word: nat, c: Clauses, strict: bool, tested: bool, depth: nat, st: State,
                                     fuel: nat)
    ensures Matches(MeetsCase(w, word, c, strict, tested, depth, st, fuel), strict,
                    EvalCase(Actual(w), word, c, tested, depth, st, fuel),
                    EvalCase(Posix(w), word, c, tested, depth, st, fuel))
    decreases fuel, c
  {
    hide Eval, EvalCase, Apart, Meets;
    CaseUnfolds(Actual(w), word, c, tested, depth, st, fuel);
    CaseUnfolds(Posix(w), word, c, tested, depth, st, fuel);
    if c.Clause? {
      if w.matches(word, c.pattern, st.hist) {
        MeetsExactly(w, c.body, strict, tested, depth, st, fuel);
        if c.body == Null {
          NullMeets(w, strict, tested, depth, st, fuel);
        }
      } else {
        ExactCase(w, word, c.rest, strict, tested, depth, st, fuel);
      }
    }
  }

  lemma NullMeets(w: World, strict: bool, tested: bool, depth: nat, st: State, fuel: nat)
    ensures Meets(w, Null, strict, tested, depth, st, fuel)
  {
  }

  lemma {:induction false} ExactFor(w: World, n: Node, strict: bool, tested: bool, depth: nat, st: State, i: nat,
                                    words: nat, status: int, fuel: nat)
    requires n.For? && i <= words
    ensures Matches(MeetsFor(w, n, strict, tested, depth, st, i, words, status, fuel), strict,
                    EvalFor(Actual(w), n, tested, depth, st, i, words, status, fuel),
                    EvalFor(Posix(w), n, tested, depth, st, i, words, status, fuel))
    decreases fuel, n, 0, words - i
  {
    hide Eval, EvalFor, Apart, Meets;
    ForUnfolds(Actual(w), n, tested, depth, st, i, words, status, fuel);
    ForUnfolds(Posix(w), n, tested, depth, st, i, words, status, fuel);
    if i < words {
      var st1 := st.(hist := st.hist + [Took(n.words, i)]);
      MeetsExactly(w, n.body, strict, tested, depth + 1, st1, fuel);
      var a1 := Eval(Actual(w), n.body, tested, depth + 1, st1, fuel);
      var p1 := Eval(Posix(w), n.body, tested, depth + 1, st1, fuel);
      if !Meets(w, n.body, strict, tested, depth + 1, st1, fuel) {
        ApartFollows(strict, a1, p1, EvalFor(Actual(w), n, tested, depth, st, i, words, status, fuel),
                     EvalFor(Posix(w), n, tested, depth, st, i, words, status, fuel));
      } else if p1.Done? && Repeats(p1.o) {
        ExactFor(w, n, strict, tested, depth, p1.st, i + 1, words, p1.st.status, p1.fuel);
      }
    }
  }

  function Round(w: World, n: Node, tested: bool, depth: nat, st: State, fuel: nat): (r: Result)
    requires n.Loop?
  {
    var b := Eval(w, n.body, tested, depth + 1, st, fuel);
    if !b.Done? then b
    else if !Repeats(b.o) then b.(o := Outward(b.o))
    else if b.fuel == 0 then Timeout
    else EvalLoop(w, n, tested, depth, b.st, b.st.status, b.fuel - 1)
  }

  /** What becomes of a loop after its test. */
  function AfterTest(w: World, n: Node, tested: bool, depth: nat, status: int, t: Result): (r: Result)
    requires n.Loop?
    ensures Follows(t, r)
  {
    if !t.Done? then t
    else if t.o.Normal? && (t.st.status == 0) == n.until then Done(Normal, t.st.(status := status), t.fuel)
    else if !Repeats(t.o) then
      Done(Outward(t.o), t.st.(status := if t.o.Returned? && (w.posix || !t.o.bare) then t.st.status else status),
           t.fuel)
    else if t.fuel == 0 then Timeout
    else if !t.o.Normal? then EvalLoop(w, n, tested, depth, t.st, status, t.fuel - 1)
    else Round(w, n, tested, depth, t.st, t.fuel - 1)
  }

  lemma LoopAfterTest(w: World, n: Node, tested: bool, depth: nat, st: State, status: int, fuel: nat)
    requires n.Loop?
    ensures EvalLoop(w, n, tested, depth, st, status, fuel)
            == AfterTest(w, n, tested, depth, status, Eval(w, n.test, true, depth + 1, st, fuel))
  {
    hide Eval, EvalLoop;
    LoopUnfolds(w, n, tested, depth, st, status, fuel);
  }

  /** A while or until loop. A return without operand out of its test gets the status of the loop under the rule of this
      shell, whatever status it came with. */
  lemma {:induction false} ExactLoop(w: World, n: Node, strict: bool, tested: bool, depth: nat, st: State, status: int,
                                     fuel: nat)
    requires n.Loop?
    ensures Matches(MeetsLoop(w, n, strict, tested, depth, st, status, fuel), strict,
                    EvalLoop(Actual(w), n, tested, depth, st, status, fuel),
                    EvalLoop(Posix(w), n, tested, depth, st, status, fuel))
    decreases fuel, n, 0
  {
    hide Eval, EvalLoop, Lost, Meets, MeetsRound, AfterTest;
    LoopAfterTest(Actual(w), n, tested, depth, st, status, fuel);
    LoopAfterTest(Posix(w), n, tested, depth, st, status, fuel);
    MeetsExactly(w, n.test, false, true, depth + 1, st, fuel);
    var a1, p1 := Eval(Actual(w), n.test, true, depth + 1, st, fuel), Eval(Posix(w), n.test, true, depth + 1, st, fuel);
    var a := EvalLoop(Actual(w), n, tested, depth, st, status, fuel);
    var p := EvalLoop(Posix(w), n, tested, depth, st, status, fuel);
    if !Meets(w, n.test, false, true, depth + 1, st, fuel) {
      LostFollows(a1, p1, a, p);
    } else if Enters(n, p1) {
      EnteredSame(w, n, tested, depth, status, a1, p1);
      if p1.o.Normal? {
        ExactRound(w, n, strict, tested, depth, p1.st, p1.fuel - 1);
      } else {
        ExactLoop(w, n, strict, tested, depth, p1.st, status, p1.fuel - 1);
      }
    } else {
      LeftSame(w, n, strict, tested, depth, status, a1, p1);
    }
  }

  lemma EnteredSame(w: World, n: Node, tested: bool, depth: nat, status: int, a: Result, p: Result)
    requires n.Loop? && Same(false, a, p) && Enters(n, p)
    ensures
      AfterTest(Actual(w), n, tested, depth, status, a)
      == if p.o.Normal? then Round(Actual(w), n, tested, depth, p.st, p.fuel - 1)
         else EvalLoop(Actual(w), n, tested, depth, p.st, status, p.fuel - 1)
    ensures
      AfterTest(Posix(w), n, tested, depth, status, p)
      == if p.o.Normal? then Round(Posix(w), n, tested, depth, p.st, p.fuel - 1)
         else EvalLoop(Posix(w), n, tested, depth, p.st, status, p.fuel - 1)
  {
    hide EvalLoop, Round;
  }

  lemma LeftSame(w: World, n: Node, strict: bool, tested: bool, depth: nat, status: int, a: Result, p: Result)
    requires n.Loop? && Same(false, a, p) && !Enters(n, p)
    ensures Matches(Bare(p) && strict ==> p.st.status == status, strict,
                    AfterTest(Actual(w), n, tested, depth, status, a), AfterTest(Posix(w), n, tested, depth, status, p))
  {
    hide EvalLoop, Round, Lost;
  }

  lemma {:induction false} ExactRound(w: World, n: Node, strict: bool, tested: bool, depth: nat, st: State, fuel: nat)
    requires n.Loop?
    ensures Matches(MeetsRound(w, n, strict, tested, depth, st, fuel), strict,
                    Round(Actual(w), n, tested, depth, st, fuel), Round(Posix(w), n, tested, depth, st, fuel))
    decreases fuel, n, 1
  {
    hide Eval, EvalLoop, Apart, Meets, MeetsLoop;
    MeetsExactly(w, n.body, strict, tested, depth + 1, st, fuel);
    var a1 := Eval(Actual(w), n.body, tested, depth + 1, st, fuel);
    var p1 := Eval(Posix(w), n.body, tested, depth + 1, st, fuel);
    if !Meets(w, n.body, strict, tested, depth + 1, st, fuel) {
      ApartFollows(strict, a1, p1, Round(Actual(w), n, tested, depth, st, fuel),
                   Round(Posix(w), n, tested, depth, st, fuel));
    } else if p1.Done? && Repeats(p1.o) && p1.fuel > 0 {
      ExactLoop(w, n, strict, tested, depth, p1.st, p1.st.status, p1.fuel - 1);
    }
  }

  /** For a run that ends: the shell's result is that of POSIX if and only if every return without operand that reaches
      a loop test meets the status of the loop. */
  lemma PosixIffMeets(w: World, n: Node, tested: bool, depth: nat, st: State, fuel: nat)
    ensures
      var a, p := Eval(Actual(w), n, tested, depth, st, fuel), Eval(Posix(w), n, tested, depth, st, fuel);
      && (Meets(w, n, true, tested, depth, st, fuel) ==> a == p)
      && (p.Done? || p.Exited? ==> (a == p <==> Meets(w, n, true, tested, depth, st, fuel)))
  {
    hide Eval, Meets;
    MeetsExactly(w, n, true, tested, depth, st, fuel);
  }
}
