/** Runs of the zcode interpreter, and what holds of every state in them: control is at an instruction, and the call
    frames on the stack form a chain. */
module WakRuns {
  import opened WakMachine
  import opened WakJumps

  // ---------------------------------------------------------------- the chain of frames

  /** No frame is open, or the frame at parmbase lies above the globals and holds the address of an instruction, an
      argument count, and the parmbase of a frame below it, which is again chained. */
  ghost predicate FrameChain(q: Image, s: seq<Cell>, parmbase: int)
    decreases parmbase
  {
    || parmbase == 0
    || (&& q.globals <= parmbase + RETURN_VALUE && 4 <= parmbase < |s|
        && s[parmbase + RETURN_ADDR].Num? && Instruction(q.code, s[parmbase + RETURN_ADDR].n)
        && s[parmbase + ARG_CNT].Num? && s[parmbase + ARG_CNT].n >= 0
        && s[parmbase + PREV_PARMBASE].Num?
        && (var prev := s[parmbase + PREV_PARMBASE].n;
            (prev == 0 || 0 < prev < parmbase + RETURN_VALUE) && FrameChain(q, s, prev)))
  }

  /** The cells of the frame at parmbase, if there is one, are on the stack. */
  predicate Room(parmbase: int, s: seq<Cell>) {
    parmbase == 0 || parmbase < |s|
  }

  lemma ChainRoom(q: Image, s: seq<Cell>, parmbase: int)
    requires FrameChain(q, s, parmbase)
    ensures Room(parmbase, s)
  {
  }

  /** The argument count of the open frame. */
  lemma ChainArgCount(q: Image, s: seq<Cell>, parmbase: int)
    requires FrameChain(q, s, parmbase) && parmbase != 0
    ensures 4 <= parmbase < |s| && s[parmbase + ARG_CNT].Num? && s[parmbase + ARG_CNT].n >= 0
  {
  }

  predicate SameChain(q: Image, s: seq<Cell>, t: seq<Cell>, parmbase: int) {
    forall i :: q.globals <= i < parmbase && i < |s| && i < |t| ==> t[i] == s[i]
  }

  /** The chain depends on the cells between the globals and parmbase only. */
  lemma {:induction false} ChainKept(q: Image, s: seq<Cell>, t: seq<Cell>, parmbase: int)
    requires FrameChain(q, s, parmbase) && Room(parmbase, t) && SameChain(q, s, t, parmbase)
    ensures FrameChain(q, t, parmbase)
    decreases parmbase
  {
    hide Instruction;
    if parmbase != 0 {
      assert t[parmbase + RETURN_ADDR] == s[parmbase + RETURN_ADDR];
      assert t[parmbase + ARG_CNT] == s[parmbase + ARG_CNT];
      assert t[parmbase + PREV_PARMBASE] == s[parmbase + PREV_PARMBASE];
      ChainKept(q, s, t, s[parmbase + PREV_PARMBASE].n);
    }
  }

  /** The code that the compiler emits. */
  ghost predicate Controlled(q: Image) {
    ControlStays(q.code) && forall a :: a in q.addrs ==> Instruction(q.code, a)
  }

  ghost predicate Good(q: Image, m: Machine) {
    Controlled(q) && Instruction(q.code, m.ip) && FrameChain(q, m.stack, m.parmbase)
  }

  /** From a good state every step leads to an instruction, a return included. */
  lemma StepFromGood(q: Image, m: Machine)
    requires Good(q, m) && Step(q, m).Next?
    ensures Instruction(q.code, Step(q, m).m.ip)
  {
    hide Step, Instruction, ControlStays;
    StepAdvances(q, m);
    if q.code[m.ip] == TKRETURN {
      ReturnInFrame(q, m);
    }
    StepStays(q, m);
  }

  lemma ReturnInFrame(q: Image, m: Machine)
    requires Step(q, m).Next? && q.code[m.ip] == TKRETURN
    ensures m.parmbase != 0
  {
  }

  // ---------------------------------------------------------------- runs

  ghost predicate Reaches(q: Image, m: Machine, n: nat, m': Machine)
    decreases n
  {
    if n == 0 then m == m' else Step(q, m).Next? && Reaches(q, Step(q, m).m, n - 1, m')
  }

  /** The first n steps from m exist, and the states before, between and after them are good. */
  ghost predicate AllGood(q: Image, m: Machine, n: nat)
    decreases n
  {
    Good(q, m) && (n > 0 ==> Step(q, m).Next? && AllGood(q, Step(q, m).m, n - 1))
  }

  /** The machine gets from m to m' in k or more steps, from a good state through good states. */
  ghost predicate Goes(q: Image, m: Machine, k: int, m': Machine) {
    exists n: nat :: n >= k && Reaches(q, m, n, m') && (Good(q, m) ==> AllGood(q, m, n))
  }

  /** The machine can make k or more steps from m. */
  ghost predicate Runs(q: Image, m: Machine, k: int) {
    exists m' :: Goes(q, m, k, m')
  }

  lemma {:induction false} ReachesTrans(q: Image, m: Machine, n: nat, m1: Machine, n1: nat, m2: Machine)
    requires Reaches(q, m, n, m1) && Reaches(q, m1, n1, m2)
    ensures Reaches(q, m, n + n1, m2)
    ensures AllGood(q, m, n) && (Good(q, m1) ==> AllGood(q, m1, n1)) ==> AllGood(q, m, n + n1)
    decreases n
  {
    hide Step, Good;
    if n > 0 {
      ReachesTrans(q, Step(q, m).m, n - 1, m1, n1, m2);
    }
  }

  /** The states that a good run goes through. */
  lemma {:induction false} GoodAt(q: Image, m: Machine, n: nat, i: nat, m': Machine)
    requires AllGood(q, m, n) && Reaches(q, m, i, m') && i <= n
    ensures Good(q, m')
    decreases i
  {
    hide Step, Good;
    if i > 0 {
      GoodAt(q, Step(q, m).m, n - 1, i - 1, m');
    }
  }

  lemma {:induction false} ReachesUnique(q: Image, m: Machine, n: nat, m1: Machine, m2: Machine)
    requires Reaches(q, m, n, m1) && Reaches(q, m, n, m2)
    ensures m1 == m2
    decreases n
  {
    hide Step;
    if n > 0 {
      ReachesUnique(q, Step(q, m).m, n - 1, m1, m2);
    }
  }

  /** A machine that halts makes no further step. */
  lemma {:induction false} HaltIsLast(q: Image, m: Machine, n: nat, h: Machine, n': nat, m': Machine)
    requires Reaches(q, m, n, h) && !Step(q, h).Next? && Reaches(q, m, n', m')
    ensures n' <= n
    ensures n' == n ==> m' == h
    decreases n
  {
    hide Step;
    if n > 0 && n' > 0 {
      HaltIsLast(q, Step(q, m).m, n - 1, h, n' - 1, m');
    }
  }

  lemma GoesHere(q: Image, m: Machine)
    ensures Goes(q, m, 0, m)
  {
    hide Step, Good;
    assert Reaches(q, m, 0, m);
  }

  /** A step that keeps the chain. */
  lemma GoesOne(q: Image, m: Machine, m': Machine)
    requires Step(q, m) == Next(m')
    requires FrameChain(q, m.stack, m.parmbase) ==> FrameChain(q, m'.stack, m'.parmbase)
    ensures Goes(q, m, 1, m')
  {
    hide Step, FrameChain, Instruction;
    assert Reaches(q, m', 0, m');
    assert Reaches(q, m, 1, m');
    if Good(q, m) {
      StepFromGood(q, m);
      assert AllGood(q, m', 0);
      assert AllGood(q, m, 1);
    }
  }

  /** A step that changes no cell of the chain. */
  lemma GoesAbove(q: Image, m: Machine, m': Machine)
    requires Step(q, m) == Next(m') && m'.parmbase == m.parmbase
    requires Room(m.parmbase, m.stack) ==> Room(m.parmbase, m'.stack) && SameChain(q, m.stack, m'.stack, m.parmbase)
    ensures Goes(q, m, 1, m')
  {
    hide Step, FrameChain;
    if FrameChain(q, m.stack, m.parmbase) {
      ChainRoom(q, m.stack, m.parmbase);
      ChainKept(q, m.stack, m'.stack, m.parmbase);
    }
    GoesOne(q, m, m');
  }

  /** Two steps of which the second one keeps the chain with what is known of the first one. */
  lemma GoesTwo(q: Image, m: Machine, m1: Machine, m2: Machine)
    requires Step(q, m) == Next(m1) && Step(q, m1) == Next(m2)
    requires Good(q, m) ==> FrameChain(q, m1.stack, m1.parmbase) && FrameChain(q, m2.stack, m2.parmbase)
    ensures Goes(q, m, 2, m2)
  {
    hide Step, FrameChain, Instruction;
    assert Reaches(q, m2, 0, m2);
    assert Reaches(q, m1, 1, m2);
    assert Reaches(q, m, 2, m2);
    if Good(q, m) {
      StepFromGood(q, m);
      StepFromGood(q, m1);
      assert AllGood(q, m2, 0);
      assert AllGood(q, m1, 1);
      assert AllGood(q, m, 2);
    }
  }

  lemma GoesTrans(q: Image, m: Machine, k: int, m1: Machine, k1: int, m2: Machine)
    requires Goes(q, m, k, m1) && Goes(q, m1, k1, m2)
    ensures Goes(q, m, k + k1, m2)
  {
    hide Step, Good;
    var n: nat :| n >= k && Reaches(q, m, n, m1) && (Good(q, m) ==> AllGood(q, m, n));
    var n1: nat :| n1 >= k1 && Reaches(q, m1, n1, m2) && (Good(q, m1) ==> AllGood(q, m1, n1));
    ReachesTrans(q, m, n, m1, n1, m2);
  }

  lemma GoesLess(q: Image, m: Machine, k: int, m1: Machine, k1: int)
    requires Goes(q, m, k, m1) && k1 <= k
    ensures Goes(q, m, k1, m1)
  {
    hide Step, Good;
  }

  lemma RunsTrans(q: Image, m: Machine, k: int, m1: Machine, k1: int)
    requires Goes(q, m, k, m1) && Runs(q, m1, k1)
    ensures Runs(q, m, k + k1)
  {
    hide Step, Goes;
    var m2 :| Goes(q, m1, k1, m2);
    GoesTrans(q, m, k, m1, k1, m2);
  }

  lemma RunsLess(q: Image, m: Machine, k: int, k1: int)
    requires Runs(q, m, k) && k1 <= k
    ensures Runs(q, m, k1)
  {
    hide Step, Goes;
    var m2 :| Goes(q, m, k, m2);
    GoesLess(q, m, k, m2, k1);
  }
}
