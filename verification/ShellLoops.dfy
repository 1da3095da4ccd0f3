/** What break n and continue n mean for the loops around them: laws about outcomes and events. */
module ShellLoops {
  import opened ShellLanguage

  // ---------------------------------------------------------------- one loop

  /** What the body of a for loop makes of word i. */
  function ForBody(w: World, n: Node, tested: bool, depth: nat, st: State, i: nat, fuel: nat): Result
    requires n.For?
  {
    Eval(w, n.body, tested, depth + 1, st.(hist := st.hist + [Took(n.words, i)]), fuel)
  }

  /** break and continue of more than one level leave the loop with one level less; break of one level ends it, and the
      rest of the words is not taken; continue of one level goes on with the next word, as a normal end does. */
  lemma ForLeaves(w: World, n: Node, tested: bool, depth: nat, st: State, i: nat, words: nat, status: int, fuel: nat)
    requires n.For? && i < words
    ensures
      var b := ForBody(w, n, tested, depth, st, i, fuel);
      var r := EvalFor(w, n, tested, depth, st, i, words, status, fuel);
      match b
      case Done(Broke(k), s, f) => k >= 1 ==> r == Done(if k == 1 then Normal else Broke(k - 1), s, f)
      case Done(Continued(k), s, f) =>
        && (k > 1 ==> r == Done(Continued(k - 1), s, f))
        && (k == 1 ==> r == EvalFor(w, n, tested, depth, s, i + 1, words, s.status, f))
      case Done(Normal, s, f) => r == EvalFor(w, n, tested, depth, s, i + 1, words, s.status, f)
      case _ => r == b
  {
    hide Eval;
  }

  /** The same for the body of while and until, where going on is a test again. */
  lemma LoopBodyLeaves(w: World, n: Node, tested: bool, depth: nat, st: State, status: int, fuel: nat)
    requires n.Loop?
    requires
      var t := Eval(w, n.test, true, depth + 1, st, fuel);
      t.Done? && t.o == Normal && (t.st.status == 0) != n.until && t.fuel > 0
    ensures
      var t := Eval(w, n.test, true, depth + 1, st, fuel);
      var b := Eval(w, n.body, tested, depth + 1, t.st, t.fuel - 1);
      var r := EvalLoop(w, n, tested, depth, st, status, fuel);
      match b
      case Done(Broke(k), s, f) => k >= 1 ==> r == Done(if k == 1 then Normal else Broke(k - 1), s, f)
      case Done(Continued(k), s, f) =>
        && (k > 1 ==> r == Done(Continued(k - 1), s, f))
        && (k == 1 && f > 0 ==> r == EvalLoop(w, n, tested, depth, s, s.status, f - 1))
      case Done(Normal, s, f) => f > 0 ==> r == EvalLoop(w, n, tested, depth, s, s.status, f - 1)
      case _ => r == b
  {
    hide Eval;
  }

  /** The same for the test, which leaves the loop with the status of the last body. */
  lemma LoopTestLeaves(w: World, n: Node, tested: bool, depth: nat, st: State, status: int, fuel: nat)
    requires n.Loop?
    ensures
      var t := Eval(w, n.test, true, depth + 1, st, fuel);
      var r := EvalLoop(w, n, tested, depth, st, status, fuel);
      match t
      case Done(Broke(k), s, f) =>
        k >= 1 ==> r == Done(if k == 1 then Normal else Broke(k - 1), s.(status := status), f)
      case Done(Continued(k), s, f) =>
        && (k > 1 ==> r == Done(Continued(k - 1), s.(status := status), f))
        && (k == 1 && f > 0 ==> r == EvalLoop(w, n, tested, depth, s, status, f - 1))
      case Done(Normal, s, f) => (s.status == 0) == n.until ==> r == Done(Normal, s.(status := status), f)
      case Done(Returned(_), s, f) => r.Done? && r.o == t.o && r.fuel == f && r.st.hist == s.hist
      case _ => r == t
  {
    hide Eval;
  }

  // ---------------------------------------------------------------- all words

  /** The body ends normally or with continue of one level for every word from i on. */
  ghost predicate AllGoOn(w: World, n: Node, tested: bool, depth: nat, st: State, i: nat, words: nat, fuel: nat)
    requires n.For? && i <= words
    decreases words - i
  {
    i < words ==>
      var b := ForBody(w, n, tested, depth, st, i, fuel);
      && b.Done? && (b.o == Normal || b.o == Continued(1))
      && AllGoOn(w, n, tested, depth, b.st, i + 1, words, b.fuel)
  }

  /** Then all the words are taken. */
  lemma {:induction false} TakesAllFrom(w: World, n: Node, tested: bool, depth: nat, st: State, i: nat, words: nat,
                                        status: int, fuel: nat)
    requires n.For? && i <= words && AllGoOn(w, n, tested, depth, st, i, words, fuel)
    ensures
      var r := EvalFor(w, n, tested, depth, st, i, words, status, fuel);
      && r.Done? && r.o == Normal && st.hist <= r.st.hist
      && forall j :: i <= j < words ==> Took(n.words, j) in r.st.hist[|st.hist|..]
    decreases words - i
  {
    hide Eval;
    if i == words {
    } else {
      var b := ForBody(w, n, tested, depth, st, i, fuel);
      ForLeaves(w, n, tested, depth, st, i, words, status, fuel);
      TakesAllFrom(w, n, tested, depth, b.st, i + 1, words, b.st.status, b.fuel);
      var r := EvalFor(w, n, tested, depth, b.st, i + 1, words, b.st.status, b.fuel);
      Later(st.hist, Took(n.words, i), b.st.hist, r.st.hist);
      forall j | i <= j < words ensures Took(n.words, j) in r.st.hist[|st.hist|..] {
        if j > i {
          LaterStill(st.hist, b.st.hist, r.st.hist, Took(n.words, j));
        }
      }
    }
  }

  lemma Later(h: seq<Event>, e: Event, h1: seq<Event>, h2: seq<Event>)
    requires h + [e] <= h1 <= h2
    ensures h <= h2 && e in h2[|h|..]
  {
    assert h2[|h|..][0] == h2[|h|] == h1[|h|] == (h + [e])[|h|];
  }

  lemma LaterStill(h: seq<Event>, h1: seq<Event>, h2: seq<Event>, e: Event)
    requires h <= h1 <= h2 && e in h2[|h1|..]
    ensures e in h2[|h|..]
  {
    var k :| 0 <= k < |h2[|h1|..]| && h2[|h1|..][k] == e;
    assert h2[|h|..][k + |h1| - |h|] == e;
  }

  lemma TakesAll(w: World, n: Node, tested: bool, depth: nat, st: State, fuel: nat)
    requires n.For? && AllGoOn(w, n, tested, depth, st, 0, w.count(n.words, st.hist), fuel)
    ensures
      var r := Eval(w, n, tested, depth, st, fuel);
      && r.Done? && r.o == Normal && st.hist <= r.st.hist
      && forall j :: 0 <= j < w.count(n.words, st.hist) ==> Took(n.words, j) in r.st.hist[|st.hist|..]
  {
    hide EvalFor, AllGoOn;
    TakesAllFrom(w, n, tested, depth, st, 0, w.count(n.words, st.hist), 0, fuel);
  }

  // ---------------------------------------------------------------- nested loops

  /** A for loop over ws[0], in it one over ws[1], and so on, around a command. */
  function Nest(ws: seq<nat>, com: Node): Node {
    if ws == [] then com else For(ws[0], Nest(ws[1..], com))
  }

  /** Every loop takes its first word. */
  function Firsts(ws: seq<nat>): seq<Event> {
    if ws == [] then [] else [Took(ws[0], 0)] + Firsts(ws[1..])
  }

  /** There is a word for every loop. */
  ghost predicate HaveWords(w: World, ws: seq<nat>) {
    forall x, h :: x in ws ==> w.count(x, h) > 0
  }

  /** break or continue, of m levels. */
  function Exit(continues: bool, m: int): Node {
    if continues then ContinueCmd(m) else BreakCmd(m)
  }

  function Leaving(continues: bool, k: int): Outcome {
    if continues then Continued(k) else Broke(k)
  }

  /** The state when the innermost command has ended. */
  function Innermost(ws: seq<nat>, st: State, tested: bool): State {
    State(st.hist + Firsts(ws) + [Ran(0, tested)], 0)
  }

  /** An exit of more levels than there are loops in the nest leaves them all, at their first words, with that many
      levels less. */
  lemma {:induction false} NestLeaves(w: World, ws: seq<nat>, continues: bool, m: int, tested: bool, depth: nat,
                                      st: State, fuel: nat)
    requires |ws| < m <= depth + |ws| && HaveWords(w, ws)
    ensures Eval(w, Nest(ws, Exit(continues, m)), tested, depth, st, fuel)
            == Done(Leaving(continues, m - |ws|), Innermost(ws, st, tested), fuel)
    decreases |ws|
  {
    if ws == [] {
      assert st.hist + Firsts(ws) == st.hist;
    } else {
      InnerLeaves(w, ws, continues, m, tested, depth, st, fuel);
      var n := Nest(ws, Exit(continues, m));
      ForLeaves(w, n, tested, depth, st, 0, w.count(ws[0], st.hist), 0, fuel);
      ForIs(w, n, tested, depth, st, fuel);
    }
  }

  lemma ForIs(w: World, n: Node, tested: bool, depth: nat, st: State, fuel: nat)
    requires n.For?
    ensures Eval(w, n, tested, depth, st, fuel)
            == EvalFor(w, n, tested, depth, st, 0, w.count(n.words, st.hist), 0, fuel)
  {
    hide EvalFor;
  }

  /** The outermost loop of the nest has one level more to see. */
  lemma {:induction false} InnerLeaves(w: World, ws: seq<nat>, continues: bool, m: int, tested: bool, depth: nat,
                                       st: State, fuel: nat)
    requires ws != [] && |ws| <= m <= depth + |ws| && HaveWords(w, ws)
    ensures
      var n := Nest(ws, Exit(continues, m));
      && n.For? && n.words == ws[0]
      && ForBody(w, n, tested, depth, st, 0, fuel)
         == Done(Leaving(continues, m - |ws| + 1), Innermost(ws, st, tested), fuel)
    decreases |ws|, 0
  {
    hide Eval, HaveWords, Firsts, Innermost;
    var st1 := st.(hist := st.hist + [Took(ws[0], 0)]);
    InnerNest(w, ws, st, tested);
    NestLeaves(w, ws[1..], continues, m, tested, depth + 1, st1, fuel);
  }

  lemma InnerNest(w: World, ws: seq<nat>, st: State, tested: bool)
    requires ws != [] && HaveWords(w, ws)
    ensures HaveWords(w, ws[1..])
    ensures Innermost(ws[1..], st.(hist := st.hist + [Took(ws[0], 0)]), tested) == Innermost(ws, st, tested)
  {
    assert st.hist + [Took(ws[0], 0)] + Firsts(ws[1..]) == st.hist + ([Took(ws[0], 0)] + Firsts(ws[1..]));
  }

  /** break n in n loops ends them all, at their first words. */
  lemma BreakNest(w: World, ws: seq<nat>, tested: bool, depth: nat, st: State, fuel: nat)
    requires ws != [] && HaveWords(w, ws)
    ensures Eval(w, Nest(ws, BreakCmd(|ws|)), tested, depth, st, fuel)
            == Done(Normal, Innermost(ws, st, tested), fuel)
  {
    var n := Nest(ws, Exit(false, |ws|));
    InnerLeaves(w, ws, false, |ws|, tested, depth, st, fuel);
    ForLeaves(w, n, tested, depth, st, 0, w.count(ws[0], st.hist), 0, fuel);
    ForIs(w, n, tested, depth, st, fuel);
  }

  /** continue n in n loops: the outermost one takes all its words, the others their first ones only. */
  lemma ContinueNest(w: World, ws: seq<nat>, tested: bool, depth: nat, st: State, fuel: nat)
    requires ws != [] && HaveWords(w, ws)
    ensures
      var n := Nest(ws, ContinueCmd(|ws|));
      var r := Eval(w, n, tested, depth, st, fuel);
      && n.For? && r.Done? && r.o == Normal && r.st.hist == st.hist + RoundsFrom(ws, 0, w.count(ws[0], st.hist), tested)
  {
    hide Eval, EvalFor, HaveWords, RoundsFrom;
    var n := Nest(ws, Exit(true, |ws|));
    ForIs(w, n, tested, depth, st, fuel);
    ContinueRounds(w, ws, tested, depth, st, 0, w.count(ws[0], st.hist), 0, fuel);
  }

  /** What is seen when the outermost loop takes its words from i to k. */
  function RoundsFrom(ws: seq<nat>, i: nat, k: nat, tested: bool): seq<Event>
    requires ws != [] && i <= k
    decreases k - i
  {
    if i == k then [] else [Took(ws[0], i)] + Firsts(ws[1..]) + [Ran(0, tested)] + RoundsFrom(ws, i + 1, k, tested)
  }

  lemma {:induction false} ContinueRounds(w: World, ws: seq<nat>, tested: bool, depth: nat, st: State, i: nat, k: nat,
                                          status: int, fuel: nat)
    requires ws != [] && HaveWords(w, ws) && i <= k
    ensures
      var n := Nest(ws, ContinueCmd(|ws|));
      && n.For? && n.words == ws[0]
      && var r := EvalFor(w, n, tested, depth, st, i, k, status, fuel);
      r.Done? && r.o == Normal && r.st.hist == st.hist + RoundsFrom(ws, i, k, tested)
    decreases k - i
  {
    hide Eval, HaveWords, Firsts;
    var n := Nest(ws, Exit(true, |ws|));
    if i == k {
      assert st.hist + [] == st.hist;
    } else {
      RoundLeaves(w, ws, tested, depth, st, i, fuel);
      ForLeaves(w, n, tested, depth, st, i, k, status, fuel);
      var st2 := Innermost(ws[1..], st.(hist := st.hist + [Took(ws[0], i)]), tested);
      ContinueRounds(w, ws, tested, depth, st2, i + 1, k, 0, fuel);
      Regrouped(st.hist, [Took(ws[0], i)], Firsts(ws[1..]), [Ran(0, tested)], RoundsFrom(ws, i + 1, k, tested));
    }
  }

  lemma Regrouped(a: seq<Event>, b: seq<Event>, c: seq<Event>, d: seq<Event>, e: seq<Event>)
    ensures a + b + c + d + e == a + (b + c + d + e)
  {
  }

  lemma RoundLeaves(w: World, ws: seq<nat>, tested: bool, depth: nat, st: State, i: nat, fuel: nat)
    requires ws != [] && HaveWords(w, ws)
    ensures
      var n := Nest(ws, ContinueCmd(|ws|));
      var st1 := st.(hist := st.hist + [Took(ws[0], i)]);
      && n.For? && n.words == ws[0]
      && ForBody(w, n, tested, depth, st, i, fuel) == Done(Continued(1), Innermost(ws[1..], st1, tested), fuel)
  {
    hide Eval, HaveWords, Firsts, Innermost;
    InnerNest(w, ws, st, tested);
    NestLeaves(w, ws[1..], true, |ws|, tested, depth + 1, st.(hist := st.hist + [Took(ws[0], i)]), fuel);
  }

  // ---------------------------------------------------------------- limits

  /** Levels beyond the loops that there are do not count; outside of loops nothing is left; 0 levels are an error. */
  lemma LevelsLimited(w: World, continues: bool, m: int, tested: bool, depth: nat, st: State, fuel: nat)
    ensures m <= 0 ==> Eval(w, Exit(continues, m), tested, depth, st, fuel) == BadNumber
    ensures m > 0 && depth == 0 ==>
              Eval(w, Exit(continues, m), tested, depth, st, fuel) == Done(Normal, Innermost([], st, tested), fuel)
    ensures m >= depth > 0 ==>
              Eval(w, Exit(continues, m), tested, depth, st, fuel)
              == Done(Leaving(continues, depth), Innermost([], st, tested), fuel)
  {
    assert st.hist + [] == st.hist;
  }

  /** No command leaves more loops than there are around it. */
  ghost predicate InNest(r: Result, depth: nat) {
    r.Done? ==>
      match r.o
      case Broke(k) => 1 <= k <= depth
      case Continued(k) => 1 <= k <= depth
      case _ => true
  }

  lemma {:induction false} StaysInNest(w: World, n: Node, tested: bool, depth: nat, st: State, fuel: nat)
    ensures InNest(Eval(w, n, tested, depth, st, fuel), depth)
    decreases fuel, n, 1
  {
    hide EvalLoop, EvalFor, EvalCase, EvalList;
    match n
    case FunCall(f) =>
    case EvalCmd(cmds) => ListStaysInNest(w, cmds, tested, depth, st, 0, fuel);
    case Not(a) => StaysInNest(w, a, true, depth, st, fuel);
    case And(a, b) =>
      StaysInNest(w, a, true, depth, st, fuel);
      var r := Eval(w, a, true, depth, st, fuel);
      if r.Done? {
        StaysInNest(w, b, tested, depth, r.st, r.fuel);
      }
    case Or(a, b) =>
      StaysInNest(w, a, true, depth, st, fuel);
      var r := Eval(w, a, true, depth, st, fuel);
      if r.Done? {
        StaysInNest(w, b, tested, depth, r.st, r.fuel);
      }
    case Semi(a, b) =>
      StaysInNest(w, a, tested, depth, st, fuel);
      var r := Eval(w, a, tested, depth, st, fuel);
      if r.Done? {
        StaysInNest(w, b, tested, depth, r.st, r.fuel);
      }
    case If(t, a, b) =>
      StaysInNest(w, t, true, depth, st, fuel);
      var r := Eval(w, t, true, depth, st, fuel);
      if r.Done? {
        StaysInNest(w, a, tested, depth, r.st, r.fuel);
        StaysInNest(w, b, tested, depth, r.st, r.fuel);
      }
    case Loop(_, _, _) => LoopStaysInNest(w, n, tested, depth, st, 0, fuel);
    case For(words, _) => ForStaysInNest(w, n, tested, depth, st, 0, w.count(words, st.hist), 0, fuel);
    case Case(word, clauses) => CaseStaysInNest(w, word, clauses, tested, depth, st, fuel);
    case _ =>
  }

  lemma {:induction false} ListStaysInNest(w: World, l: Nodes, tested: bool, depth: nat, st: State, status: int,
                                           fuel: nat)
    ensures InNest(EvalList(w, l, tested, depth, st, status, fuel), depth)
    decreases fuel, l, 0
  {
    hide Eval;
    if l.MoreNodes? {
      StaysInNest(w, l.first, tested, depth, st, fuel);
      var r := Eval(w, l.first, tested, depth, st, fuel);
      if r.Done? {
        ListStaysInNest(w, l.rest, tested, depth, r.st, if l.first != Null then r.st.status else status, r.fuel);
      }
    }
  }

  lemma {:induction false} LoopStaysInNest(w: World, n: Node, tested: bool, depth: nat, st: State, status: int,
                                           fuel: nat)
    requires n.Loop?
    ensures InNest(EvalLoop(w, n, tested, depth, st, status, fuel), depth)
    decreases fuel, n, 0
  {
    hide Eval;
    StaysInNest(w, n.test, true, depth + 1, st, fuel);
    var t := Eval(w, n.test, true, depth + 1, st, fuel);
    if t.Done? && t.fuel > 0 {
      LoopStaysInNest(w, n, tested, depth, t.st, status, t.fuel - 1);
      StaysInNest(w, n.body, tested, depth + 1, t.st, t.fuel - 1);
      var b := Eval(w, n.body, tested, depth + 1, t.st, t.fuel - 1);
      if b.Done? && b.fuel > 0 {
        LoopStaysInNest(w, n, tested, depth, b.st, b.st.status, b.fuel - 1);
      }
    }
  }

  lemma {:induction false} ForStaysInNest(w: World, n: Node, tested: bool, depth: nat, st: State, i: nat, words: nat,
                                          status: int, fuel: nat)
    requires n.For? && i <= words
    ensures InNest(EvalFor(w, n, tested, depth, st, i, words, status, fuel), depth)
    decreases fuel, n, 0, words - i
  {
    hide Eval;
    if i < words {
      var b := ForBody(w, n, tested, depth, st, i, fuel);
      StaysInNest(w, n.body, tested, depth + 1, st.(hist := st.hist + [Took(n.words, i)]), fuel);
      if b.Done? {
        ForStaysInNest(w, n, tested, depth, b.st, i + 1, words, b.st.status, b.fuel);
      }
    }
  }

  lemma {:induction false} CaseStaysInNest(w: World, word: nat, c: Clauses, tested: bool, depth: nat, st: State,
                                           fuel: nat)
    ensures InNest(EvalCase(w, word, c, tested, depth, st, fuel), depth)
    decreases fuel, c, 0
  {
    hide Eval;
    if c.Clause? {
      StaysInNest(w, c.body, tested, depth, st, fuel);
      CaseStaysInNest(w, word, c.rest, tested, depth, st, fuel);
    }
  }
}
