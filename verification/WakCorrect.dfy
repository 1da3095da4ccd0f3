/** The emitted zcode does what the structured semantics says. */
module WakCorrect {
  import opened CTypes
  import opened WakLanguage
  import opened WakMachine
  import opened WakCode
  import opened WakRuns
  import opened WakJumps

  function Cells(vs: seq<int>): (c: seq<Cell>)
    ensures |c| == |vs| && forall i :: 0 <= i < |vs| ==> c[i] == Num(vs[i])
  {
    seq(|vs|, i requires 0 <= i < |vs| => Num(vs[i]))
  }

  /** The stack: globals at the bottom, whatever lies between, the parameters, the temporaries. */
  function Lay(st: State, mid: seq<Cell>, tmp: seq<Cell>): (s: seq<Cell>)
    ensures |s| == |st.globals| + |mid| + |st.locals| + |tmp|
  {
    Cells(st.globals) + mid + Cells(st.locals) + tmp
  }

  /** parmbase points below the parameters; outside functions it is 0. */
  predicate Based(pb: int, st: State, mid: seq<Cell>) {
    (pb == 0 && |st.locals| == 0) || pb == |st.globals| + |mid| - 1
  }

  lemma BasedRoom(pb: int, st: State, mid: seq<Cell>, tmp: seq<Cell>)
    requires Based(pb, st, mid)
    ensures Room(pb, Lay(st, mid, tmp)) && Room(pb, Lay(st, mid, []))
  {
  }

  lemma LayPush(st: State, mid: seq<Cell>, tmp: seq<Cell>, x: Cell)
    ensures Lay(st, mid, tmp) + [x] == Lay(st, mid, tmp + [x])
  {
  }

  lemma LayGet(sc: Scope, st: State, mid: seq<Cell>, tmp: seq<Cell>, pb: int, slot: int)
    requires GoodState(sc, st) && GoodSlot(sc, slot) && Based(pb, st, mid)
    ensures 0 <= Place(pb, slot) < |Lay(st, mid, tmp)|
    ensures Lay(st, mid, tmp)[Place(pb, slot)] == Num(Get(st, slot))
  {
  }

  lemma LaySet(sc: Scope, st: State, mid: seq<Cell>, tmp: seq<Cell>, pb: int, slot: int, v: int)
    requires GoodState(sc, st) && GoodSlot(sc, slot) && Based(pb, st, mid)
    ensures 0 <= Place(pb, slot) < |Lay(st, mid, tmp)|
    ensures Lay(st, mid, tmp)[Place(pb, slot) := Num(v)] == Lay(Set(st, slot, v), mid, tmp)
    ensures GoodState(sc, Set(st, slot, v)) && Based(pb, Set(st, slot, v), mid)
  {
    var s := Lay(st, mid, tmp)[Place(pb, slot) := Num(v)];
    var t := Lay(Set(st, slot, v), mid, tmp);
    assert forall i :: 0 <= i < |s| ==> s[i] == t[i];
  }

  // ---------------------------------------------------------------- single instructions

  lemma DoNumber(q: Image, ip: int, lit: int, s: seq<Cell>, pb: int, out: seq<int>)
    requires Has(q.code, ip, [TKNUMBER, lit]) && 0 <= lit < |q.literals|
    ensures Goes(q, Machine(ip, s, pb, out), 1, Machine(ip + 2, s + [Num(q.literals[lit])], pb, out))
  {
    Has2(q.code, ip, TKNUMBER, lit);
    GoesAbove(q, Machine(ip, s, pb, out), Machine(ip + 2, s + [Num(q.literals[lit])], pb, out));
  }

  lemma DoVar(q: Image, ip: int, slot: int, s: seq<Cell>, pb: int, out: seq<int>)
    requires Has(q.code, ip, [TKVAR, slot]) && 0 <= Place(pb, slot) < |s|
    ensures Goes(q, Machine(ip, s, pb, out), 1, Machine(ip + 2, s + [s[Place(pb, slot)]], pb, out))
  {
    Has2(q.code, ip, TKVAR, slot);
    GoesAbove(q, Machine(ip, s, pb, out), Machine(ip + 2, s + [s[Place(pb, slot)]], pb, out));
  }

  lemma DoVarRef(q: Image, ip: int, slot: int, s: seq<Cell>, pb: int, out: seq<int>)
    requires Has(q.code, ip, [OPVARREF, slot])
    ensures Goes(q, Machine(ip, s, pb, out), 1, Machine(ip + 2, s + [Ref(slot)], pb, out))
  {
    Has2(q.code, ip, OPVARREF, slot);
    GoesAbove(q, Machine(ip, s, pb, out), Machine(ip + 2, s + [Ref(slot)], pb, out));
  }

  predicate AlwaysJumps(op: int) {
    op == OPJUMP || op == TKELSE || op == TKTERNELSE || op == TKBREAK || op == TKCONTINUE
  }

  lemma DoJump(q: Image, ip: int, op: int, off: int, s: seq<Cell>, pb: int, out: seq<int>)
    requires AlwaysJumps(op) && Has(q.code, ip, [op, off])
    ensures Goes(q, Machine(ip, s, pb, out), 1, Machine(ip + 2 + off, s, pb, out))
  {
    Has2(q.code, ip, op, off);
    GoesAbove(q, Machine(ip, s, pb, out), Machine(ip + 2 + off, s, pb, out));
  }

  /** Opcodes that act on the number on top of the stack. */
  predicate OnNumber(op: int) {
    || op == TKNOT || op == OPNOTNOT || op == OPNEGATE || op == TKAND || op == TKOR || op == TKIF || op == TKTERNIF
    || op == TKWHILE || op == OPDROP || op == TKPRINT || op == TKASGN
  }

  lemma DoOnNumber(q: Image, ip: int, s: seq<Cell>, n: int, pb: int, out: seq<int>, m': Machine)
    requires 0 <= ip < |q.code| && OnNumber(q.code[ip])
    requires StepNumber(q.code, Machine(ip, s + [Num(n)], pb, out), q.code[ip], n) == Next(m')
    requires m'.parmbase == pb
    requires Room(pb, s + [Num(n)]) ==> Room(pb, m'.stack) && SameChain(q, s + [Num(n)], m'.stack, pb)
    ensures Goes(q, Machine(ip, s + [Num(n)], pb, out), 1, m')
  {
    hide StepBinary, EnterFunction, LeaveFunction;
    GoesAbove(q, Machine(ip, s + [Num(n)], pb, out), m');
  }

  lemma DoUnary(q: Image, ip: int, op: int, s: seq<Cell>, n: int, pb: int, out: seq<int>)
    requires Has(q.code, ip, [op]) && (op == TKNOT || op == OPNOTNOT || op == OPNEGATE)
    ensures
      var v := if op == TKNOT then Truth(n == 0) else if op == OPNOTNOT then Truth(n != 0) else -n;
      Goes(q, Machine(ip, s + [Num(n)], pb, out), 1, Machine(ip + 1, s + [Num(v)], pb, out))
  {
    Has1(q.code, ip, op);
    var v := if op == TKNOT then Truth(n == 0) else if op == OPNOTNOT then Truth(n != 0) else -n;
    assert Drop(s + [Num(n)], 1) == s;
    DoOnNumber(q, ip, s, n, pb, out, Machine(ip + 1, s + [Num(v)], pb, out));
  }

  lemma DoDrop(q: Image, ip: int, s: seq<Cell>, n: int, pb: int, out: seq<int>)
    requires Has(q.code, ip, [OPDROP]) && Room(pb, s)
    ensures Goes(q, Machine(ip, s + [Num(n)], pb, out), 1, Machine(ip + 1, s, pb, out))
  {
    Has1(q.code, ip, OPDROP);
    assert Drop(s + [Num(n)], 1) == s;
    DoOnNumber(q, ip, s, n, pb, out, Machine(ip + 1, s, pb, out));
  }

  lemma DoPrint(q: Image, ip: int, s: seq<Cell>, n: int, pb: int, out: seq<int>)
    requires Has(q.code, ip, [TKPRINT, 1, 0]) && Room(pb, s)
    ensures Goes(q, Machine(ip, s + [Num(n)], pb, out), 1, Machine(ip + 3, s, pb, out + [n]))
  {
    Has3(q.code, ip, TKPRINT, 1, 0);
    assert Drop(s + [Num(n)], 1) == s;
    DoOnNumber(q, ip, s, n, pb, out, Machine(ip + 3, s, pb, out + [n]));
  }

  lemma DoAssign(q: Image, ip: int, s: seq<Cell>, slot: int, n: int, pb: int, out: seq<int>)
    requires Has(q.code, ip, [TKASGN]) && 0 <= Place(pb, slot) < |s|
    requires Room(pb, s) && slot < q.globals
    ensures Goes(q, Machine(ip, s + [Ref(slot)] + [Num(n)], pb, out), 1,
                 Machine(ip + 1, s[Place(pb, slot) := Num(n)] + [Num(n)], pb, out))
  {
    Has1(q.code, ip, TKASGN);
    assert Drop(s + [Ref(slot)] + [Num(n)], 2) == s;
    DoOnNumber(q, ip, s + [Ref(slot)], n, pb, out, Machine(ip + 1, s[Place(pb, slot) := Num(n)] + [Num(n)], pb, out));
  }

  /** && and ||: the deciding value stays, as 0 or 1, and is jumped with; any other value is dropped. */
  lemma DoShortCircuit(q: Image, ip: int, op: int, off: int, s: seq<Cell>, n: int, pb: int, out: seq<int>)
    requires Has(q.code, ip, [op, off]) && (op == TKAND || op == TKOR) && Room(pb, s)
    ensures (n == 0) == (op == TKAND) ==>
              Goes(q, Machine(ip, s + [Num(n)], pb, out), 1, Machine(ip + 2 + off, s + [Num(Truth(n != 0))], pb, out))
    ensures (n == 0) != (op == TKAND) ==>
              Goes(q, Machine(ip, s + [Num(n)], pb, out), 1, Machine(ip + 2, s, pb, out))
  {
    Has2(q.code, ip, op, off);
    assert Drop(s + [Num(n)], 1) == s;
    if (n == 0) == (op == TKAND) {
      DoOnNumber(q, ip, s, n, pb, out, Machine(ip + 2 + off, s + [Num(Truth(n != 0))], pb, out));
    } else {
      DoOnNumber(q, ip, s, n, pb, out, Machine(ip + 2, s, pb, out));
    }
  }

  /** if, ?: and while: the value is dropped; if and ?: jump when it is false, while jumps when it is true. */
  lemma DoBranch(q: Image, ip: int, op: int, off: int, s: seq<Cell>, n: int, pb: int, out: seq<int>)
    requires Has(q.code, ip, [op, off]) && (op == TKIF || op == TKTERNIF || op == TKWHILE) && Room(pb, s)
    ensures Goes(q, Machine(ip, s + [Num(n)], pb, out), 1,
                 Machine(if (n == 0) == (op != TKWHILE) then ip + 2 + off else ip + 2, s, pb, out))
  {
    Has2(q.code, ip, op, off);
    assert Drop(s + [Num(n)], 1) == s;
    DoOnNumber(q, ip, s, n, pb, out, Machine(if (n == 0) == (op != TKWHILE) then ip + 2 + off else ip + 2, s, pb, out));
  }

  lemma DoBinary(q: Image, ip: int, op: BinaryOp, s: seq<Cell>, a: int, b: int, pb: int, out: seq<int>)
    requires Has(q.code, ip, [Opcode(op)]) && Room(pb, s)
    ensures Goes(q, Machine(ip, s + [Num(a)] + [Num(b)], pb, out), 1,
                 Machine(ip + 1, s + [Num(Apply(op, a, b))], pb, out))
  {
    Has1(q.code, ip, Opcode(op));
    assert BinaryOf(Opcode(op)) == [op];
    assert Drop(s + [Num(a)] + [Num(b)], 2) == s;
    GoesAbove(q, Machine(ip, s + [Num(a)] + [Num(b)], pb, out), Machine(ip + 1, s + [Num(Apply(op, a, b))], pb, out));
  }

  // ---------------------------------------------------------------- calls

  /** A call frame: return value, return address, parmbase, argument count, function number. */
  function Header(ret: int, pb: int, nargs: int, f: int): (h: seq<Cell>)
    ensures |h| == 5
  {
    [Num(0), Num(ret), Num(pb), Num(nargs), Num(f)]
  }

  lemma DoPrepCall(q: Image, ip: int, f: int, s: seq<Cell>, pb: int, out: seq<int>)
    requires Has(q.code, ip, [OPPREPCALL, f])
    ensures Goes(q, Machine(ip, s, pb, out), 1, Machine(ip + 2, s + Header(0, 0, 0, f), pb, out))
  {
    Has2(q.code, ip, OPPREPCALL, f);
    GoesAbove(q, Machine(ip, s, pb, out), Machine(ip + 2, s + Header(0, 0, 0, f), pb, out));
  }

  /** A call saves the address of the next instruction in the frame. */
  lemma DoFunc(q: Image, ip: int, f: int, s: seq<Cell>, args: seq<Cell>, pb: int, out: seq<int>)
    requires Has(q.code, ip, [TKFUNC, |args|]) && 0 <= f < |q.addrs|
    ensures Step(q, Machine(ip, s + Header(0, 0, 0, f) + args, pb, out))
            == Next(Machine(q.addrs[f], s + Header(ip + 2, 0, |args|, f) + args + [Num(|args|)], pb, out))
  {
    Has2(q.code, ip, TKFUNC, |args|);
    var t := s + Header(0, 0, 0, f) + args;
    var base := |t| - 1 - |args|;
    assert t[base] == Num(f);
    var t' := t[base + RETURN_ADDR := Num(ip + 2)][base + ARG_CNT := Num(|args|)];
    assert t' == s + Header(ip + 2, 0, |args|, f) + args;
  }

  /** On entry a function finds exactly its parameters: the arguments, cut off or filled up. */
  lemma DoFunction(q: Image, ip: int, f: int, ret: int, s: seq<Cell>, vs: seq<int>, pb: int, out: seq<int>)
    requires Has(q.code, ip, [TKFUNCTION, f]) && 0 <= f < |q.nparms|
    ensures Step(q, Machine(ip, s + Header(ret, 0, |vs|, f) + Cells(vs) + [Num(|vs|)], pb, out))
            == Next(Machine(ip + 2, s + Header(ret, pb, |vs|, f) + Cells(Bind(vs, q.nparms[f])), |s| + 4, out))
  {
    hide EnterFunction, Bind, Cells, Has;
    Has2(q.code, ip, TKFUNCTION, f);
    EnteredFunction(f, ret, s, vs, pb, q.nparms[f]);
  }

  /** The call and the entry together: the new frame is chained to that of the caller. */
  lemma DoCall(q: Image, ip: int, f: int, s: seq<Cell>, vs: seq<int>, pb: int, out: seq<int>)
    requires Has(q.code, ip, [TKFUNC, |vs|]) && 0 <= f < |q.addrs| && 0 <= f < |q.nparms|
    requires Has(q.code, q.addrs[f], [TKFUNCTION, f]) && Room(pb, s) && q.globals <= |s|
    ensures Goes(q, Machine(ip, s + Header(0, 0, 0, f) + Cells(vs), pb, out), 2,
                 Machine(q.addrs[f] + 2, s + Header(ip + 2, pb, |vs|, f) + Cells(Bind(vs, q.nparms[f])), |s| + 4, out))
  {
    hide EnterFunction, Bind, Has, Step, FrameChain, Good;
    var m := Machine(ip, s + Header(0, 0, 0, f) + Cells(vs), pb, out);
    var s1 := s + Header(ip + 2, 0, |vs|, f) + Cells(vs) + [Num(|vs|)];
    var s2 := s + Header(ip + 2, pb, |vs|, f) + Cells(Bind(vs, q.nparms[f]));
    DoFunc(q, ip, f, s, Cells(vs), pb, out);
    DoFunction(q, q.addrs[f], f, ip + 2, s, vs, pb, out);
    if Good(q, m) {
      CallChained(q, ip, f, s, vs, pb, Cells(Bind(vs, q.nparms[f])), out);
    }
    GoesTwo(q, m, Machine(q.addrs[f], s1, pb, out), Machine(q.addrs[f] + 2, s2, |s| + 4, out));
  }

  lemma CallChained(q: Image, ip: int, f: int, s: seq<Cell>, vs: seq<int>, pb: int, ls: seq<Cell>, out: seq<int>)
    requires Has(q.code, ip, [TKFUNC, |vs|]) && Room(pb, s) && q.globals <= |s|
    requires Good(q, Machine(ip, s + Header(0, 0, 0, f) + Cells(vs), pb, out))
    ensures FrameChain(q, s + Header(ip + 2, 0, |vs|, f) + Cells(vs) + [Num(|vs|)], pb)
    ensures FrameChain(q, s + Header(ip + 2, pb, |vs|, f) + ls, |s| + 4)
  {
    hide Has, Instruction;
    var t := s + Header(0, 0, 0, f) + Cells(vs);
    var s1 := s + Header(ip + 2, 0, |vs|, f) + Cells(vs) + [Num(|vs|)];
    var s2 := s + Header(ip + 2, pb, |vs|, f) + ls;
    Has2(q.code, ip, TKFUNC, |vs|);
    NextOfCall(q.code, ip);
    ChainKept(q, t, s1, pb);
    ChainKept(q, t, s2, pb);
    FrameOnTop(q, s, ip + 2, pb, |vs|, f, ls);
  }

  lemma FrameOnTop(q: Image, s: seq<Cell>, ret: int, pb: int, nargs: nat, f: int, ls: seq<Cell>)
    requires Room(pb, s) && q.globals <= |s| && Instruction(q.code, ret)
    requires FrameChain(q, s + Header(ret, pb, nargs, f) + ls, pb)
    ensures FrameChain(q, s + Header(ret, pb, nargs, f) + ls, |s| + 4)
  {
    hide Instruction;
    var t := s + Header(ret, pb, nargs, f) + ls;
    var top := |s| + 4;
    assert t[top + RETURN_ADDR] == Num(ret) && t[top + PREV_PARMBASE] == Num(pb) && t[top + ARG_CNT] == Num(nargs);
    assert pb != 0 ==> 0 < pb < |s|;
  }

  lemma EnteredFunction(f: int, ret: int, s: seq<Cell>, vs: seq<int>, pb: int, nparms: nat)
    ensures
      var t := s + Header(ret, 0, |vs|, f) + Cells(vs) + [Num(|vs|)];
      && t[|t| - 1] == Num(|vs|) && |t| - 2 - |vs| == |s| + 4
      && EnterFunction(t, pb, nparms) == s + Header(ret, pb, |vs|, f) + Cells(Bind(vs, nparms))
  {
    hide Bind, Cells;
    var t := s + Header(ret, 0, |vs|, f) + Cells(vs) + [Num(|vs|)];
    assert Drop(t, 1) == s + Header(ret, 0, |vs|, f) + Cells(vs);
    assert Drop(t, 1)[|s| + 4 + PREV_PARMBASE := Num(pb)] == s + Header(ret, pb, |vs|, f) + Cells(vs);
    EntersWith(s + Header(ret, pb, |vs|, f), vs, nparms);
  }

  lemma EntersWith(s: seq<Cell>, vs: seq<int>, nparms: nat)
    ensures
      var t := s + Cells(vs);
      s + Cells(Bind(vs, nparms))
      == if |vs| > nparms then Drop(t, |vs| - nparms) else t + seq(nparms - |vs|, _ => Num(0))
  {
    var a := s + Cells(Bind(vs, nparms));
    var t := s + Cells(vs);
    if |vs| > nparms {
      assert forall i :: 0 <= i < |a| ==> a[i] == Drop(t, |vs| - nparms)[i];
    } else {
      var b := t + seq(nparms - |vs|, _ => Num(0));
      assert forall i :: 0 <= i < |a| ==> a[i] == b[i];
    }
  }

  /** A return restores ip and parmbase and leaves exactly the value in place of the frame. */
  lemma DoReturn(q: Image, ip: int, k: int, s: seq<Cell>, ret: int, pb: int, nargs: int, f: int, ls: seq<Cell>, v: int,
                 out: seq<int>)
    requires Has(q.code, ip, [TKRETURN, k])
    ensures Goes(q, Machine(ip, s + Header(ret, pb, nargs, f) + ls + [Num(v)], |s| + 4, out), 1,
                 Machine(ret, s + [Num(v)], pb, out))
  {
    hide Instruction;
    Has2(q.code, ip, TKRETURN, k);
    var t := s + Header(ret, pb, nargs, f) + ls + [Num(v)];
    assert t[|s| + 4 + RETURN_ADDR] == Num(ret) && t[|s| + 4 + PREV_PARMBASE] == Num(pb);
    assert LeaveFunction(t, |s| + 4) == s + [Num(v)];
    if FrameChain(q, t, |s| + 4) {
      ChainKept(q, t, s + [Num(v)], pb);
    }
    GoesOne(q, Machine(ip, t, |s| + 4, out), Machine(ret, s + [Num(v)], pb, out));
  }

  // ---------------------------------------------------------------- what is to be proved

  /** A linked program: its image, its number of globals, and the literal that is the uninitialized value. */
  datatype Env = Env(p: Program, q: Image, globals: nat, uninit: nat)

  ghost predicate Linked(env: Env) {
    && env.q.literals == env.p.literals && env.q.globals == env.globals
    && |env.q.addrs| == |env.p.funcs| && |env.q.nparms| == |env.p.funcs|
    && env.uninit < |env.p.literals| && env.p.literals[env.uninit] == 0
    && GoodProgram(env.p, env.globals)
    && forall f :: 0 <= f < |env.p.funcs| ==> LinkedFunc(env, f)
  }

  ghost predicate LinkedFunc(env: Env, f: int)
    requires 0 <= f < |env.p.funcs| && |env.q.addrs| == |env.p.funcs| && |env.q.nparms| == |env.p.funcs|
  {
    && env.q.nparms[f] == env.p.funcs[f].nparms
    && env.q.addrs[f] > 0
    && Has(env.q.code, env.q.addrs[f], CodeF(f, env.p.funcs[f], env.q.addrs[f], env.uninit))
  }

  /** The place of the code at hand: number of parameters, the operand of return instructions (nothing depends on it),
      the stack between globals and parameters, and parmbase. */
  datatype Site = Site(nparms: nat, operand: nat, mid: seq<Cell>, pb: int)

  function ScopeAt(env: Env, w: Site): Scope {
    ScopeOf(env.p, env.globals, w.nparms)
  }

  function At(w: Site, ip: int, st: State, tmp: seq<Cell>): Machine {
    Machine(ip, Lay(st, w.mid, tmp), w.pb, st.out)
  }

  predicate Fits(env: Env, w: Site, st: State) {
    GoodState(ScopeAt(env, w), st) && Based(w.pb, st, w.mid)
  }

  lemma FitsRoom(env: Env, w: Site, st: State, tmp: seq<Cell>)
    requires Fits(env, w, st)
    ensures Room(w.pb, Lay(st, w.mid, tmp))
  {
  }

  /** The machine m0 evaluates: it arrives at ip with exactly the value on top, or it runs out the fuel. */
  ghost predicate Evaluates(env: Env, w: Site, m0: Machine, fuel: nat, r: EvalResult, ip: int, tmp: seq<Cell>) {
    match r
    case Timeout => Runs(env.q, m0, fuel)
    case Val(v, st, f) => Fits(env, w, st) && Goes(env.q, m0, fuel - f, At(w, ip, st, tmp + [Num(v)]))
  }

  ghost predicate EvaluatesArgs(env: Env, w: Site, m0: Machine, fuel: nat, r: ArgsResult, ip: int, tmp: seq<Cell>) {
    match r
    case ArgsTimeout => Runs(env.q, m0, fuel)
    case Vals(vs, st, f) => Fits(env, w, st) && Goes(env.q, m0, fuel - f, At(w, ip, st, tmp + Cells(vs)))
  }

  /** The machine m0 executes: it arrives at the end, at the break or continue jump, or at a return. */
  ghost predicate Executes(env: Env, w: Site, m0: Machine, fuel: nat, r: ExecResult, ip: int, d: Dests) {
    match r
    case ExecTimeout => Runs(env.q, m0, fuel)
    case Exec(o, st, f) =>
      && Fits(env, w, st)
      && match o
         case Normal => Goes(env.q, m0, fuel - f, At(w, ip, st, []))
         case Broke => Goes(env.q, m0, fuel - f, At(w, d.brk, st, []))
         case Continued => Goes(env.q, m0, fuel - f, At(w, d.cont, st, []))
         case Returned(v) =>
           exists r: int ::
             Has(env.q.code, r, [TKRETURN, w.operand]) && Goes(env.q, m0, fuel - f, At(w, r, st, [Num(v)]))
  }

  lemma GoesVia(q: Image, m0: Machine, k0: int, m1: Machine, k1: int, m2: Machine, k: int)
    requires Goes(q, m0, k0, m1) && Goes(q, m1, k1, m2) && k <= k0 + k1
    ensures Goes(q, m0, k, m2)
  {
    GoesTrans(q, m0, k0, m1, k1, m2);
    GoesLess(q, m0, k0 + k1, m2, k);
  }

  lemma RunsVia(q: Image, m0: Machine, k0: int, m1: Machine, k1: int, k: int)
    requires Goes(q, m0, k0, m1) && Runs(q, m1, k1) && k <= k0 + k1
    ensures Runs(q, m0, k)
  {
    RunsTrans(q, m0, k0, m1, k1);
    RunsLess(q, m0, k0 + k1, k);
  }

  /** Prefixing an evaluation with steps that use up the difference in fuel. */
  lemma EvaluatesFrom(env: Env, w: Site, m0: Machine, fuel0: nat, m1: Machine, fuel: nat, r: EvalResult, ip: int,
                      tmp: seq<Cell>)
    requires Goes(env.q, m0, fuel0 - fuel, m1) && Evaluates(env, w, m1, fuel, r, ip, tmp)
    ensures Evaluates(env, w, m0, fuel0, r, ip, tmp)
  {
    match r
    case Timeout => RunsVia(env.q, m0, fuel0 - fuel, m1, fuel, fuel0);
    case Val(v, st, f) => GoesVia(env.q, m0, fuel0 - fuel, m1, fuel - f, At(w, ip, st, tmp + [Num(v)]), fuel0 - f);
  }

  /** Following an evaluation by an instruction on its value. */
  lemma EvaluatesThen(env: Env, w: Site, m0: Machine, fuel: nat, r: EvalResult, ip: int, tmp: seq<Cell>,
                      r': EvalResult, ip': int, tmp': seq<Cell>)
    requires Evaluates(env, w, m0, fuel, r, ip, tmp)
    requires r.Timeout? ==> r'.Timeout?
    requires r.Val? ==>
               && r'.Val? && r'.fuel == r.fuel && Fits(env, w, r'.st)
               && Goes(env.q, At(w, ip, r.st, tmp + [Num(r.v)]), 1, At(w, ip', r'.st, tmp' + [Num(r'.v)]))
    ensures Evaluates(env, w, m0, fuel, r', ip', tmp')
  {
    if r.Val? {
      GoesVia(env.q, m0, fuel - r.fuel, At(w, ip, r.st, tmp + [Num(r.v)]), 1, At(w, ip', r'.st, tmp' + [Num(r'.v)]),
              fuel - r.fuel);
    }
  }

  // ---------------------------------------------------------------- expressions

  lemma {:induction false} RunE(env: Env, w: Site, e: Expr, st: State, fuel: nat, pos: int, tmp: seq<Cell>)
    requires Linked(env) && Has(env.q.code, pos, CodeE(e)) && GoodExpr(ScopeAt(env, w), e) && Fits(env, w, st)
    ensures Evaluates(env, w, At(w, pos, st, tmp), fuel, Eval(env.p, e, st, fuel), pos + |CodeE(e)|, tmp)
    decreases fuel, ExprSize(e), 1
  {
    match e
    case Literal(lit) => RunLeaf(env, w, e, st, fuel, pos, tmp);
    case Var(slot) => RunLeaf(env, w, e, st, fuel, pos, tmp);
    case Assign(slot, rhs) => RunAssign(env, w, e, st, fuel, pos, tmp);
    case Not(e1) => RunUnary(env, w, e, st, fuel, pos, tmp);
    case Negate(e1) => RunUnary(env, w, e, st, fuel, pos, tmp);
    case Binary(op, l, r) => RunBinary(env, w, e, st, fuel, pos, tmp);
    case And(l, r) => RunAndOr(env, w, e, l, r, TKAND, st, fuel, pos, tmp);
    case Or(l, r) => RunAndOr(env, w, e, l, r, TKOR, st, fuel, pos, tmp);
    case Cond(t, l, r) => RunCond(env, w, e, st, fuel, pos, tmp);
    case Call(f, args) => RunCall(env, w, e, st, fuel, pos, tmp);
  }

  lemma RunLeaf(env: Env, w: Site, e: Expr, st: State, fuel: nat, pos: int, tmp: seq<Cell>)
    requires Linked(env) && Has(env.q.code, pos, CodeE(e)) && GoodExpr(ScopeAt(env, w), e) && Fits(env, w, st)
    requires e.Literal? || e.Var?
    ensures Evaluates(env, w, At(w, pos, st, tmp), fuel, Eval(env.p, e, st, fuel), pos + |CodeE(e)|, tmp)
  {
    var s := Lay(st, w.mid, tmp);
    if e.Literal? {
      DoNumber(env.q, pos, e.lit, s, w.pb, st.out);
      LayPush(st, w.mid, tmp, Num(env.q.literals[e.lit]));
      GoesLess(env.q, At(w, pos, st, tmp), 1, At(w, pos + 2, st, tmp + [Num(env.q.literals[e.lit])]), 0);
    } else {
      LayGet(ScopeAt(env, w), st, w.mid, tmp, w.pb, e.slot);
      DoVar(env.q, pos, e.slot, s, w.pb, st.out);
      LayPush(st, w.mid, tmp, Num(Get(st, e.slot)));
      GoesLess(env.q, At(w, pos, st, tmp), 1, At(w, pos + 2, st, tmp + [Num(Get(st, e.slot))]), 0);
    }
  }

  lemma {:induction false} RunUnary(env: Env, w: Site, e: Expr, st: State, fuel: nat, pos: int, tmp: seq<Cell>)
    requires Linked(env) && Has(env.q.code, pos, CodeE(e)) && GoodExpr(ScopeAt(env, w), e) && Fits(env, w, st)
    requires e.Not? || e.Negate?
    ensures Evaluates(env, w, At(w, pos, st, tmp), fuel, Eval(env.p, e, st, fuel), pos + |CodeE(e)|, tmp)
    decreases fuel, ExprSize(e), 0
  {
    hide Linked, Has, Goes, Runs, Lay, Get, Set, Apply;
    var e1 := if e.Not? then (match e case Not(x) => x) else (match e case Negate(x) => x);
    var op := if e.Not? then TKNOT else OPNEGATE;
    HasSplit(env.q.code, pos, CodeE(e1), [op]);
    RunE(env, w, e1, st, fuel, pos, tmp);
    var r := Eval(env.p, e1, st, fuel);
    if r.Val? {
      var ip := pos + |CodeE(e1)|;
      DoUnary(env.q, ip, op, Lay(r.st, w.mid, tmp), r.v, w.pb, r.st.out);
      LayPush(r.st, w.mid, tmp, Num(r.v));
      LayPush(r.st, w.mid, tmp, Num(Eval(env.p, e, st, fuel).v));
    }
    EvaluatesThen(env, w, At(w, pos, st, tmp), fuel, r, pos + |CodeE(e1)|, tmp,
                  Eval(env.p, e, st, fuel), pos + |CodeE(e)|, tmp);
  }

  lemma AssignedSlot(env: Env, w: Site, slot: int)
    requires Linked(env) && GoodSlot(ScopeAt(env, w), slot)
    ensures slot < env.q.globals
  {
  }

  lemma {:induction false} RunAssign(env: Env, w: Site, e: Expr, st: State, fuel: nat, pos: int, tmp: seq<Cell>)
    requires Linked(env) && Has(env.q.code, pos, CodeE(e)) && GoodExpr(ScopeAt(env, w), e) && Fits(env, w, st)
    requires e.Assign?
    ensures Evaluates(env, w, At(w, pos, st, tmp), fuel, Eval(env.p, e, st, fuel), pos + |CodeE(e)|, tmp)
    decreases fuel, ExprSize(e), 0
  {
    hide Linked, Has, Goes, Runs, Lay, Get, Apply;
    var c := CodeE(e.rhs);
    var m0 := At(w, pos, st, tmp);
    HasSplit(env.q.code, pos, [OPVARREF, e.slot] + c, [TKASGN]);
    HasSplit(env.q.code, pos, [OPVARREF, e.slot], c);
    DoVarRef(env.q, pos, e.slot, Lay(st, w.mid, tmp), w.pb, st.out);
    LayPush(st, w.mid, tmp, Ref(e.slot));
    var tmp1 := tmp + [Ref(e.slot)];
    GoesLess(env.q, m0, 1, At(w, pos + 2, st, tmp1), 0);
    RunE(env, w, e.rhs, st, fuel, pos + 2, tmp1);
    var r := Eval(env.p, e.rhs, st, fuel);
    EvaluatesFrom(env, w, m0, fuel, At(w, pos + 2, st, tmp1), fuel, r, pos + 2 + |c|, tmp1);
    if r.Val? {
      var st' := Set(r.st, e.slot, r.v);
      LaySet(ScopeAt(env, w), r.st, w.mid, tmp, w.pb, e.slot, r.v);
      AssignedSlot(env, w, e.slot);
      BasedRoom(w.pb, r.st, w.mid, tmp);
      DoAssign(env.q, pos + 2 + |c|, Lay(r.st, w.mid, tmp), e.slot, r.v, w.pb, r.st.out);
      LayPush(r.st, w.mid, tmp, Ref(e.slot));
      LayPush(r.st, w.mid, tmp1, Num(r.v));
      LayPush(st', w.mid, tmp, Num(r.v));
    }
    EvaluatesThen(env, w, m0, fuel, r, pos + 2 + |c|, tmp1, Eval(env.p, e, st, fuel), pos + |CodeE(e)|, tmp);
  }

  lemma {:induction false} RunBinary(env: Env, w: Site, e: Expr, st: State, fuel: nat, pos: int, tmp: seq<Cell>)
    requires Linked(env) && Has(env.q.code, pos, CodeE(e)) && GoodExpr(ScopeAt(env, w), e) && Fits(env, w, st)
    requires e.Binary?
    ensures Evaluates(env, w, At(w, pos, st, tmp), fuel, Eval(env.p, e, st, fuel), pos + |CodeE(e)|, tmp)
    decreases fuel, ExprSize(e), 0
  {
    hide Linked, Has, Goes, Runs, Lay, Get, Set, Apply;
    var cl, cr := CodeE(e.l), CodeE(e.r);
    var m0 := At(w, pos, st, tmp);
    HasSplit(env.q.code, pos, cl + cr, [Opcode(e.op)]);
    HasSplit(env.q.code, pos, cl, cr);
    RunE(env, w, e.l, st, fuel, pos, tmp);
    var a := Eval(env.p, e.l, st, fuel);
    if a.Val? {
      var tmp1 := tmp + [Num(a.v)];
      RunE(env, w, e.r, a.st, a.fuel, pos + |cl|, tmp1);
      var b := Eval(env.p, e.r, a.st, a.fuel);
      EvaluatesFrom(env, w, m0, fuel, At(w, pos + |cl|, a.st, tmp1), a.fuel, b, pos + |cl| + |cr|, tmp1);
      if b.Val? {
        DoBinary(env.q, pos + |cl| + |cr|, e.op, Lay(b.st, w.mid, tmp), a.v, b.v, w.pb, b.st.out);
        LayPush(b.st, w.mid, tmp, Num(a.v));
        LayPush(b.st, w.mid, tmp1, Num(b.v));
        LayPush(b.st, w.mid, tmp, Num(Apply(e.op, a.v, b.v)));
      }
      EvaluatesThen(env, w, m0, fuel, b, pos + |cl| + |cr|, tmp1, Eval(env.p, e, st, fuel), pos + |CodeE(e)|, tmp);
    }
  }

  lemma EvalLogical(p: Program, e: Expr, l: Expr, r: Expr, and: bool, st: State, fuel: nat)
    requires e == if and then And(l, r) else Or(l, r)
    ensures
      var a := Eval(p, l, st, fuel);
      Eval(p, e, st, fuel)
      == if a.Timeout? then a
         else if (a.v == 0) == and then a.(v := Truth(a.v != 0))
         else
           var b := Eval(p, r, a.st, a.fuel);
           if b.Timeout? then b else b.(v := Truth(b.v != 0))
  {
  }

  lemma EvalCond(p: Program, t: Expr, l: Expr, r: Expr, st: State, fuel: nat)
    ensures
      var a := Eval(p, t, st, fuel);
      Eval(p, Cond(t, l, r), st, fuel)
      == if a.Timeout? then a else Eval(p, if a.v != 0 then l else r, a.st, a.fuel)
  {
  }

  /** l && r and l || r. */
  lemma {:induction false} RunAndOr(env: Env, w: Site, e: Expr, l: Expr, r: Expr, op: int, st: State, fuel: nat,
                                    pos: int, tmp: seq<Cell>)
    requires Linked(env) && Has(env.q.code, pos, CodeE(e)) && GoodExpr(ScopeAt(env, w), e) && Fits(env, w, st)
    requires (e == And(l, r) && op == TKAND) || (e == Or(l, r) && op == TKOR)
    ensures Evaluates(env, w, At(w, pos, st, tmp), fuel, Eval(env.p, e, st, fuel), pos + |CodeE(e)|, tmp)
    decreases fuel, ExprSize(e), 0
  {
    hide Linked, Has, Goes, Runs, Lay, Get, Set, Apply, Eval, CodeE, Fits;
    EvalLogical(env.p, e, l, r, op == TKAND, st, fuel);
    CodeOfLogical(l, r);
    var cl, cr, off := CodeE(l), CodeE(r), |CodeE(r)| + 1;
    var m0, mid := At(w, pos, st, tmp), pos + |cl| + 2;
    HasSplit(env.q.code, pos, cl + [op, off] + cr, [OPNOTNOT]);
    HasSplit(env.q.code, pos, cl + [op, off], cr);
    HasSplit(env.q.code, pos, cl, [op, off]);
    RunE(env, w, l, st, fuel, pos, tmp);
    var a := Eval(env.p, l, st, fuel);
    if a.Val? {
      var s := Lay(a.st, w.mid, tmp);
      FitsRoom(env, w, a.st, tmp);
      DoShortCircuit(env.q, pos + |cl|, op, off, s, a.v, w.pb, a.st.out);
      LayPush(a.st, w.mid, tmp, Num(a.v));
      LayPush(a.st, w.mid, tmp, Num(Truth(a.v != 0)));
      if (a.v == 0) == (op == TKAND) {
        EvaluatesThen(env, w, m0, fuel, a, pos + |cl|, tmp, Eval(env.p, e, st, fuel), pos + |CodeE(e)|, tmp);
      } else {
        GoesVia(env.q, m0, fuel - a.fuel, At(w, pos + |cl|, a.st, tmp + [Num(a.v)]), 1, At(w, mid, a.st, tmp),
                fuel - a.fuel);
        RunSecond(env, w, r, a.st, a.fuel, mid, tmp, m0, fuel);
      }
    }
  }

  /** The second operand, brought to 0 or 1. */
  lemma {:induction false} RunSecond(env: Env, w: Site, r: Expr, st: State, fuel: nat, pos: int, tmp: seq<Cell>,
                                     m0: Machine, fuel0: nat)
    requires Linked(env) && Has(env.q.code, pos, CodeE(r)) && GoodExpr(ScopeAt(env, w), r) && Fits(env, w, st)
    requires Has(env.q.code, pos + |CodeE(r)|, [OPNOTNOT]) && Goes(env.q, m0, fuel0 - fuel, At(w, pos, st, tmp))
    ensures
      var b := Eval(env.p, r, st, fuel);
      Evaluates(env, w, m0, fuel0, if b.Timeout? then b else b.(v := Truth(b.v != 0)), pos + |CodeE(r)| + 1, tmp)
    decreases fuel, ExprSize(r), 2
  {
    hide Linked, Has, Goes, Runs, Lay, Get, Set, Apply, CodeE, Eval;
    RunE(env, w, r, st, fuel, pos, tmp);
    var b := Eval(env.p, r, st, fuel);
    var ip := pos + |CodeE(r)|;
    EvaluatesFrom(env, w, m0, fuel0, At(w, pos, st, tmp), fuel, b, ip, tmp);
    if b.Val? {
      DoUnary(env.q, ip, OPNOTNOT, Lay(b.st, w.mid, tmp), b.v, w.pb, b.st.out);
      LayPush(b.st, w.mid, tmp, Num(b.v));
      LayPush(b.st, w.mid, tmp, Num(Truth(b.v != 0)));
      EvaluatesThen(env, w, m0, fuel0, b, ip, tmp, b.(v := Truth(b.v != 0)), ip + 1, tmp);
    }
  }

  /** The parts of an if else or ?:. */
  lemma HasChoice(code: seq<int>, pos: int, ct: seq<int>, op: int, c1: seq<int>, op2: int, c2: seq<int>)
    requires Has(code, pos, ChoiceWords(ct, op, c1, op2, c2))
    ensures
      var yes := pos + |ct| + 2;
      var no := yes + |c1| + 2;
      && Has(code, pos, ct + [op, |c1| + 2]) && Has(code, pos, ct) && Has(code, pos + |ct|, [op, |c1| + 2])
      && Has(code, yes, c1) && Has(code, yes + |c1|, [op2, |c2|]) && Has(code, no, c2)
  {
    hide Has;
    HasSplit(code, pos, ct + [op, |c1| + 2] + c1 + [op2, |c2|], c2);
    HasSplit(code, pos, ct + [op, |c1| + 2] + c1, [op2, |c2|]);
    HasSplit(code, pos, ct + [op, |c1| + 2], c1);
    HasSplit(code, pos, ct, [op, |c1| + 2]);
  }

  lemma CondCode(code: seq<int>, pos: int, t: Expr, l: Expr, r: Expr)
    requires Has(code, pos, CodeE(Cond(t, l, r)))
    ensures
      var ct, cl, cr := CodeE(t), CodeE(l), CodeE(r);
      var yes := pos + |ct| + 2;
      && Has(code, pos, ct) && Has(code, pos + |ct|, [TKTERNIF, |cl| + 2]) && Has(code, yes, cl)
      && Has(code, yes + |cl|, [TKTERNELSE, |cr|]) && Has(code, yes + |cl| + 2, cr)
      && pos + |CodeE(Cond(t, l, r))| == yes + |cl| + 2 + |cr|
  {
    hide Has, CodeE;
    CodeOfCond(t, l, r);
    HasChoice(code, pos, CodeE(t), TKTERNIF, CodeE(l), TKTERNELSE, CodeE(r));
  }

  lemma {:induction false} RunCond(env: Env, w: Site, e: Expr, st: State, fuel: nat, pos: int, tmp: seq<Cell>)
    requires Linked(env) && Has(env.q.code, pos, CodeE(e)) && GoodExpr(ScopeAt(env, w), e) && Fits(env, w, st)
    requires e.Cond?
    ensures Evaluates(env, w, At(w, pos, st, tmp), fuel, Eval(env.p, e, st, fuel), pos + |CodeE(e)|, tmp)
    decreases fuel, ExprSize(e), 0
  {
    hide Linked, Has, Goes, Runs, Lay, Get, Set, Apply, CodeE, Eval;
    EvalCond(env.p, e.test, e.l, e.r, st, fuel);
    var ct, cl, cr := CodeE(e.test), CodeE(e.l), CodeE(e.r);
    var m0, pl := At(w, pos, st, tmp), pos + |ct| + 2;
    var pr := pl + |cl| + 2;
    CondCode(env.q.code, pos, e.test, e.l, e.r);
    RunE(env, w, e.test, st, fuel, pos, tmp);
    var a := Eval(env.p, e.test, st, fuel);
    if a.Val? {
      DoBranch(env.q, pos + |ct|, TKTERNIF, |cl| + 2, Lay(a.st, w.mid, tmp), a.v, w.pb, a.st.out);
      LayPush(a.st, w.mid, tmp, Num(a.v));
      var ip := if a.v != 0 then pl else pr;
      GoesVia(env.q, m0, fuel - a.fuel, At(w, pos + |ct|, a.st, tmp + [Num(a.v)]), 1, At(w, ip, a.st, tmp),
              fuel - a.fuel);
      if a.v != 0 {
        RunE(env, w, e.l, a.st, a.fuel, pl, tmp);
        RunChoice(env, w, m0, fuel, At(w, pl, a.st, tmp), a.fuel, Eval(env.p, e.l, a.st, a.fuel), pl + |cl|, |cr|, tmp);
      } else {
        RunE(env, w, e.r, a.st, a.fuel, pr, tmp);
        EvaluatesFrom(env, w, m0, fuel, At(w, pr, a.st, tmp), a.fuel, Eval(env.p, e.r, a.st, a.fuel), pr + |cr|, tmp);
      }
    }
  }

  /** The value of the first alternative, and the jump over the second one. */
  lemma RunChoice(env: Env, w: Site, m0: Machine, fuel0: nat, m: Machine, fuel: nat, r: EvalResult, ip: int, off: int,
                  tmp: seq<Cell>)
    requires Goes(env.q, m0, fuel0 - fuel, m) && Evaluates(env, w, m, fuel, r, ip, tmp)
    requires Has(env.q.code, ip, [TKTERNELSE, off])
    ensures Evaluates(env, w, m0, fuel0, r, ip + 2 + off, tmp)
  {
    hide Linked, Has, Goes, Runs, Lay;
    EvaluatesFrom(env, w, m0, fuel0, m, fuel, r, ip, tmp);
    if r.Val? {
      DoJump(env.q, ip, TKTERNELSE, off, Lay(r.st, w.mid, tmp + [Num(r.v)]), w.pb, r.st.out);
    }
    EvaluatesThen(env, w, m0, fuel0, r, ip, tmp, r, ip + 2 + off, tmp);
  }

  lemma {:induction false} RunArgs(env: Env, w: Site, args: Args, st: State, fuel: nat, pos: int, tmp: seq<Cell>)
    requires Linked(env) && Has(env.q.code, pos, CodeArgs(args)) && GoodArgs(ScopeAt(env, w), args) && Fits(env, w, st)
    ensures EvaluatesArgs(env, w, At(w, pos, st, tmp), fuel, EvalArgs(env.p, args, st, fuel),
                          pos + |CodeArgs(args)|, tmp)
    decreases fuel, ArgsSize(args)
  {
    hide Linked, Has, Goes, Runs, Lay, Get, Set, Apply, CodeE, Eval, Cells;
    var m0 := At(w, pos, st, tmp);
    if args.NoArgs? {
      GoesHere(env.q, m0);
      assert tmp + Cells([]) == tmp;
    } else {
      var c := CodeE(args.first);
      HasSplit(env.q.code, pos, c, CodeArgs(args.rest));
      RunE(env, w, args.first, st, fuel, pos, tmp);
      var a := Eval(env.p, args.first, st, fuel);
      if a.Val? {
        var m1 := At(w, pos + |c|, a.st, tmp + [Num(a.v)]);
        RunArgs(env, w, args.rest, a.st, a.fuel, pos + |c|, tmp + [Num(a.v)]);
        var b := EvalArgs(env.p, args.rest, a.st, a.fuel);
        if b.ArgsTimeout? {
          RunsVia(env.q, m0, fuel - a.fuel, m1, a.fuel, fuel);
        } else {
          assert tmp + [Num(a.v)] + Cells(b.vs) == tmp + Cells([a.v] + b.vs);
          GoesVia(env.q, m0, fuel - a.fuel, m1, a.fuel - b.fuel,
                  At(w, pos + |CodeArgs(args)|, b.st, tmp + Cells([a.v] + b.vs)), fuel - b.fuel);
        }
      }
    }
  }

  lemma {:induction false} ArgsCounted(p: Program, args: Args, st: State, fuel: nat)
    ensures EvalArgs(p, args, st, fuel).Vals? ==> |EvalArgs(p, args, st, fuel).vs| == CountArgs(args)
    decreases args
  {
    if args.MoreArgs? {
      var a := Eval(p, args.first, st, fuel);
      if a.Val? {
        ArgsCounted(p, args.rest, a.st, a.fuel);
      }
    }
  }

  /** The machine inside a call: the frame lies between the caller's temporaries and the parameters. */
  function Inside(w: Site, st: State, tmp: seq<Cell>, ret: int, f: int, nargs: nat, nparms: nat): Site {
    var s := Lay(st, w.mid, tmp);
    Site(nparms, nparms, w.mid + Cells(st.locals) + tmp + Header(ret, w.pb, nargs, f), |s| + 4)
  }

  function Callee(st: State, vs: seq<int>, nparms: nat): State {
    State(st.globals, Bind(vs, nparms), st.out)
  }

  /** The stack before and after the call. */
  lemma LayCall(w: Site, st: State, tmp: seq<Cell>, ret: int, f: int, vs: seq<int>, n: nat)
    ensures
      var s, w' := Lay(st, w.mid, tmp), Inside(w, st, tmp, ret, f, |vs|, n);
      && Lay(st, w.mid, tmp + Header(0, 0, 0, f) + Cells(vs)) == s + Header(0, 0, 0, f) + Cells(vs)
      && Lay(Callee(st, vs, n), w'.mid, []) == s + Header(ret, w.pb, |vs|, f) + Cells(Bind(vs, n))
  {
    hide Cells, Bind, Header;
  }

  /** From the evaluated arguments to the first instruction of the body. */
  lemma EnterCall(env: Env, w: Site, st: State, f: nat, vs: seq<int>, ip: int, tmp: seq<Cell>)
    requires Linked(env) && f < |env.p.funcs| && Has(env.q.code, ip, [TKFUNC, |vs|]) && Fits(env, w, st)
    ensures
      var n := env.p.funcs[f].nparms;
      Goes(env.q, At(w, ip, st, tmp + Header(0, 0, 0, f) + Cells(vs)), 1,
           At(Inside(w, st, tmp, ip + 2, f, |vs|, n), env.q.addrs[f] + 2, Callee(st, vs, n), []))
  {
    hide Has, Goes, Runs, CodeS, Instruction, Linked, LinkedFunc, Lay, Cells, Bind, GoodStmt;
    BodyParts(env, f);
    var n, a := env.p.funcs[f].nparms, env.q.addrs[f];
    var s := Lay(st, w.mid, tmp);
    BasedRoom(w.pb, st, w.mid, tmp);
    DoCall(env.q, ip, f, s, vs, w.pb, st.out);
    LayCall(w, st, tmp, ip + 2, f, vs, n);
    GoesLess(env.q, Machine(ip, s + Header(0, 0, 0, f) + Cells(vs), w.pb, st.out), 2,
             Machine(a + 2, s + Header(ip + 2, w.pb, |vs|, f) + Cells(Bind(vs, n)), |s| + 4, st.out), 1);
  }

  /** Where the parts of a function lie. */
  lemma BodyParts(env: Env, f: nat)
    requires Linked(env) && f < |env.p.funcs|
    ensures f < |env.q.addrs| && f < |env.q.nparms| && env.q.nparms[f] == env.p.funcs[f].nparms
    ensures env.q.globals == env.globals
    ensures
      var fn, a := env.p.funcs[f], env.q.addrs[f];
      var cb := CodeS(fn.body, a + 2, Dests(0, 0), fn.nparms);
      && a > 0 && Has(env.q.code, a, [TKFUNCTION, f]) && Has(env.q.code, a + 2, cb)
      && Has(env.q.code, a + 2 + |cb|, [TKNUMBER, env.uninit])
      && Has(env.q.code, a + 2 + |cb| + 2, [TKRETURN, fn.nparms])
      && GoodStmt(ScopeOf(env.p, env.globals, fn.nparms), fn.body, false, true)
  {
    hide CodeS, GoodStmt, Has;
    var fn, a := env.p.funcs[f], env.q.addrs[f];
    var cb := CodeS(fn.body, a + 2, Dests(0, 0), fn.nparms);
    assert LinkedFunc(env, f);
    HasSplit(env.q.code, a, [TKFUNCTION, f] + cb + [TKNUMBER, env.uninit], [TKRETURN, fn.nparms]);
    HasSplit(env.q.code, a, [TKFUNCTION, f] + cb, [TKNUMBER, env.uninit]);
    HasSplit(env.q.code, a, [TKFUNCTION, f], cb);
  }

  /** From a return inside the call to the caller, with exactly the value in place of the frame. */
  lemma LeaveCall(env: Env, w: Site, st: State, tmp: seq<Cell>, ret: int, f: nat, nargs: nat, n: nat, st': State,
                  v: int, ip: int)
    requires Has(env.q.code, ip, [TKRETURN, n]) && |st'.globals| == |st.globals|
    ensures Goes(env.q, At(Inside(w, st, tmp, ret, f, nargs, n), ip, st', [Num(v)]), 1,
                 At(w, ret, st'.(locals := st.locals), tmp + [Num(v)]))
  {
    hide Has, Goes, Runs;
    var w' := Inside(w, st, tmp, ret, f, nargs, n);
    var back := st'.(locals := st.locals);
    var s := Lay(back, w.mid, tmp);
    assert |s| == |Lay(st, w.mid, tmp)|;
    assert Lay(st', w'.mid, [Num(v)]) == s + Header(ret, w.pb, nargs, f) + Cells(st'.locals) + [Num(v)];
    LayPush(back, w.mid, tmp, Num(v));
    DoReturn(env.q, ip, n, s, ret, w.pb, nargs, f, Cells(st'.locals), v, st'.out);
  }

  /** A body that ends without a return is followed by a return of the uninitialized value. */
  lemma FallOff(env: Env, w: Site, st: State, ip: int)
    requires Linked(env) && Has(env.q.code, ip, [TKNUMBER, env.uninit])
    ensures Goes(env.q, At(w, ip, st, []), 1, At(w, ip + 2, st, [Num(0)]))
  {
    hide Has, Goes, Runs;
    DoNumber(env.q, ip, env.uninit, Lay(st, w.mid, []), w.pb, st.out);
    LayPush(st, w.mid, [], Num(0));
    assert [] + [Num(0)] == [Num(0)];
  }

  /** The value of a call from the execution of its body. */
  function CallValue(x: ExecResult, st: State): EvalResult {
    if x.ExecTimeout? then Timeout
    else Val(if x.o.Returned? then x.o.v else 0, x.st.(locals := st.locals), x.fuel)
  }

  lemma FinishCall(env: Env, w: Site, st: State, tmp: seq<Cell>, ret: int, f: nat, nargs: nat, m0: Machine, fuel0: nat,
                   m: Machine, fuel: nat, x: ExecResult)
    requires Linked(env) && f < |env.p.funcs| && Fits(env, w, st)
    requires
      var n := env.p.funcs[f].nparms;
      Executes(env, Inside(w, st, tmp, ret, f, nargs, n), m, fuel, x,
               env.q.addrs[f] + 2 + |CodeS(env.p.funcs[f].body, env.q.addrs[f] + 2, Dests(0, 0), n)|, Dests(0, 0))
    requires x.Exec? ==> x.o.Normal? || x.o.Returned?
    requires Goes(env.q, m0, fuel0 - fuel, m)
    ensures Evaluates(env, w, m0, fuel0, CallValue(x, st), ret, tmp)
  {
    hide Has, Goes, Runs, CodeS, Lay, Linked, GoodStmt;
    var n := env.p.funcs[f].nparms;
    var w' := Inside(w, st, tmp, ret, f, nargs, n);
    BodyParts(env, f);
    if x.ExecTimeout? {
      RunsVia(env.q, m0, fuel0 - fuel, m, fuel, fuel0);
    } else {
      var v := if x.o.Returned? then x.o.v else 0;
      var r;
      if x.o.Returned? {
        r :| Has(env.q.code, r, [TKRETURN, n]) && Goes(env.q, m, fuel - x.fuel, At(w', r, x.st, [Num(v)]));
      } else {
        var end := env.q.addrs[f] + 2 + |CodeS(env.p.funcs[f].body, env.q.addrs[f] + 2, Dests(0, 0), n)|;
        r := end + 2;
        FallOff(env, w', x.st, end);
        GoesVia(env.q, m, fuel - x.fuel, At(w', end, x.st, []), 1, At(w', r, x.st, [Num(v)]), fuel - x.fuel);
      }
      LeaveCall(env, w, st, tmp, ret, f, nargs, n, x.st, v, r);
      var back := x.st.(locals := st.locals);
      GoesVia(env.q, m, fuel - x.fuel, At(w', r, x.st, [Num(v)]), 1, At(w, ret, back, tmp + [Num(v)]), fuel - x.fuel);
      GoesVia(env.q, m0, fuel0 - fuel, m, fuel - x.fuel, At(w, ret, back, tmp + [Num(v)]), fuel0 - x.fuel);
    }
  }

  lemma {:induction false} RunCall(env: Env, w: Site, e: Expr, st: State, fuel: nat, pos: int, tmp: seq<Cell>)
    requires Linked(env) && Has(env.q.code, pos, CodeE(e)) && GoodExpr(ScopeAt(env, w), e) && Fits(env, w, st)
    requires e.Call?
    ensures Evaluates(env, w, At(w, pos, st, tmp), fuel, Eval(env.p, e, st, fuel), pos + |CodeE(e)|, tmp)
    decreases fuel, ExprSize(e), 0
  {
    hide Linked, Has, Goes, Runs, Lay, Get, Set, Apply, CodeS, Cells, Executes, EvaluatesArgs, Bind, GoodStmt, Execute,
      Inside;
    var ca, nargs, f := CodeArgs(e.args), CountArgs(e.args), e.f;
    var m0, tmp1 := At(w, pos, st, tmp), tmp + Header(0, 0, 0, f);
    HasSplit(env.q.code, pos, [OPPREPCALL, f] + ca, [TKFUNC, nargs]);
    HasSplit(env.q.code, pos, [OPPREPCALL, f], ca);
    StartCall(env, w, st, f, pos, tmp);
    RunArgs(env, w, e.args, st, fuel, pos + 2, tmp1);
    var a := EvalArgs(env.p, e.args, st, fuel);
    ArgsCounted(env.p, e.args, st, fuel);
    ArgsFrom(env, w, m0, fuel, At(w, pos + 2, st, tmp1), a, pos + 2 + |ca|, tmp1);
    if a.Vals? && a.fuel > 0 {
      BodyParts(env, f);
      var n, ret := env.p.funcs[f].nparms, pos + 2 + |ca| + 2;
      var m1 := At(w, pos + 2 + |ca|, a.st, tmp1 + Cells(a.vs));
      var w' := Inside(w, a.st, tmp, ret, f, nargs, n);
      var callee := Callee(a.st, a.vs, n);
      var m2 := At(w', env.q.addrs[f] + 2, callee, []);
      EnterCall(env, w, a.st, f, a.vs, pos + 2 + |ca|, tmp);
      GoesVia(env.q, m0, fuel - a.fuel, m1, 1, m2, fuel - (a.fuel - 1));
      InsideFits(env, w, a.st, tmp, ret, f, nargs, n, a.vs);
      RunS(env, w', env.p.funcs[f].body, callee, a.fuel - 1, env.q.addrs[f] + 2, Dests(0, 0), false, true);
      var x := Execute(env.p, env.p.funcs[f].body, callee, a.fuel - 1);
      Outcomes(env.p, ScopeAt(env, w'), env.p.funcs[f].body, callee, a.fuel - 1, false, true);
      FinishCall(env, w, a.st, tmp, ret, f, nargs, m0, fuel, m2, a.fuel - 1, x);
    }
  }

  lemma InsideFits(env: Env, w: Site, st: State, tmp: seq<Cell>, ret: int, f: int, nargs: nat, n: nat, vs: seq<int>)
    requires Fits(env, w, st)
    ensures
      var w' := Inside(w, st, tmp, ret, f, nargs, n);
      && Fits(env, w', Callee(st, vs, n)) && ScopeAt(env, w') == ScopeOf(env.p, env.globals, n)
      && w'.nparms == n && w'.operand == n
  {
  }

  lemma StartCall(env: Env, w: Site, st: State, f: int, pos: int, tmp: seq<Cell>)
    requires Has(env.q.code, pos, [OPPREPCALL, f])
    ensures Goes(env.q, At(w, pos, st, tmp), 0, At(w, pos + 2, st, tmp + Header(0, 0, 0, f)))
  {
    hide Has, Goes;
    DoPrepCall(env.q, pos, f, Lay(st, w.mid, tmp), w.pb, st.out);
    assert Lay(st, w.mid, tmp + Header(0, 0, 0, f)) == Lay(st, w.mid, tmp) + Header(0, 0, 0, f);
    GoesLess(env.q, At(w, pos, st, tmp), 1, At(w, pos + 2, st, tmp + Header(0, 0, 0, f)), 0);
  }

  /** Prefixing the evaluation of arguments; a timeout or empty tank afterwards is a timeout of the call. */
  lemma ArgsFrom(env: Env, w: Site, m0: Machine, fuel: nat, m: Machine, a: ArgsResult, ip: int, tmp: seq<Cell>)
    requires Goes(env.q, m0, 0, m) && EvaluatesArgs(env, w, m, fuel, a, ip, tmp)
    requires a.Vals? ==> a.fuel <= fuel
    ensures EvaluatesArgs(env, w, m0, fuel, a, ip, tmp)
    ensures a.ArgsTimeout? || a.fuel == 0 ==> Runs(env.q, m0, fuel)
    ensures a.Vals? ==> Fits(env, w, a.st) && Goes(env.q, m0, fuel - a.fuel, At(w, ip, a.st, tmp + Cells(a.vs)))
  {
    hide Goes, Lay, Cells, Has;
    if a.ArgsTimeout? {
      RunsVia(env.q, m0, 0, m, fuel, fuel);
    } else {
      GoesVia(env.q, m0, 0, m, fuel - a.fuel, At(w, ip, a.st, tmp + Cells(a.vs)), fuel - a.fuel);
    }
  }

  /** break and continue come out of loop bodies only, returns out of functions only. */
  lemma {:induction false} Outcomes(p: Program, sc: Scope, s: Stmt, st: State, fuel: nat, inLoop: bool, inFunc: bool)
    requires GoodStmt(sc, s, inLoop, inFunc)
    ensures
      var x := Execute(p, s, st, fuel);
      x.Exec? ==> ((x.o.Broke? || x.o.Continued? ==> inLoop) && (x.o.Returned? ==> inFunc))
    decreases fuel, StmtSize(s)
  {
    hide Eval;
    match s
    case Seq(s1, s2) =>
      Outcomes(p, sc, s1, st, fuel, inLoop, inFunc);
      var a := Execute(p, s1, st, fuel);
      if a.Exec? {
        Outcomes(p, sc, s2, a.st, a.fuel, inLoop, inFunc);
      }
    case If(t, s1) =>
      var r := Eval(p, t, st, fuel);
      if r.Val? {
        Outcomes(p, sc, s1, r.st, r.fuel, inLoop, inFunc);
      }
    case IfElse(t, s1, s2) =>
      var r := Eval(p, t, st, fuel);
      if r.Val? {
        Outcomes(p, sc, s1, r.st, r.fuel, inLoop, inFunc);
        Outcomes(p, sc, s2, r.st, r.fuel, inLoop, inFunc);
      }
    case While(t, b) => LoopOutcomes(p, sc, SomeExpr(t), b, Skip, st, fuel, inFunc);
    case DoWhile(b, t) =>
      if fuel > 0 {
        Outcomes(p, sc, b, st, fuel - 1, true, inFunc);
        var x := Execute(p, b, st, fuel - 1);
        if x.Exec? {
          var r := Eval(p, t, x.st, x.fuel);
          if r.Val? {
            Outcomes(p, sc, s, r.st, r.fuel, inLoop, inFunc);
          }
        }
      }
    case For(i, c, n, b) =>
      Outcomes(p, sc, i, st, fuel, false, inFunc);
      var x := Execute(p, i, st, fuel);
      if x.Exec? {
        LoopOutcomes(p, sc, c, b, n, x.st, x.fuel, inFunc);
      }
    case _ =>
  }

  lemma {:induction false} LoopOutcomes(p: Program, sc: Scope, c: OptExpr, b: Stmt, n: Stmt, st: State, fuel: nat,
                                        inFunc: bool)
    requires GoodStmt(sc, b, true, inFunc) && GoodStmt(sc, n, false, inFunc)
    ensures
      var x := Loop(p, c, b, n, st, fuel);
      x.Exec? ==> x.o.Normal? || (x.o.Returned? && inFunc)
    decreases fuel, 1 + if c.SomeExpr? then ExprSize(c.e) else 0
  {
    hide Eval, Execute, StmtSize, ExprSize, GoodStmt;
    var r := if c.NoExpr? then Val(1, st, fuel) else Eval(p, c.e, st, fuel);
    if r.Val? && r.v != 0 && r.fuel > 0 {
      Outcomes(p, sc, b, r.st, r.fuel - 1, true, inFunc);
      var x := Execute(p, b, r.st, r.fuel - 1);
      if x.Exec? {
        Outcomes(p, sc, n, x.st, x.fuel, false, inFunc);
        var y := Execute(p, n, x.st, x.fuel);
        if y.Exec? {
          LoopOutcomes(p, sc, c, b, n, y.st, y.fuel, inFunc);
        }
      }
    }
  }

  // ---------------------------------------------------------------- statements

  lemma ExecutesFrom(env: Env, w: Site, m0: Machine, fuel0: nat, m: Machine, fuel: nat, x: ExecResult, ip: int,
                     d: Dests)
    requires Goes(env.q, m0, fuel0 - fuel, m) && Executes(env, w, m, fuel, x, ip, d)
    ensures Executes(env, w, m0, fuel0, x, ip, d)
  {
    hide Has, Goes, Runs, Lay, Fits;
    if x.ExecTimeout? {
      RunsVia(env.q, m0, fuel0 - fuel, m, fuel, fuel0);
    } else {
      match x.o
      case Normal => GoesVia(env.q, m0, fuel0 - fuel, m, fuel - x.fuel, At(w, ip, x.st, []), fuel0 - x.fuel);
      case Broke => GoesVia(env.q, m0, fuel0 - fuel, m, fuel - x.fuel, At(w, d.brk, x.st, []), fuel0 - x.fuel);
      case Continued => GoesVia(env.q, m0, fuel0 - fuel, m, fuel - x.fuel, At(w, d.cont, x.st, []), fuel0 - x.fuel);
      case Returned(v) =>
        var r: int :|
          Has(env.q.code, r, [TKRETURN, w.operand]) && Goes(env.q, m, fuel - x.fuel, At(w, r, x.st, [Num(v)]));
        GoesVia(env.q, m0, fuel0 - fuel, m, fuel - x.fuel, At(w, r, x.st, [Num(v)]), fuel0 - x.fuel);
    }
  }

  /** At ip the code jumps to target. */
  ghost predicate JumpsTo(code: seq<int>, ip: int, target: int) {
    exists op: int :: AlwaysJumps(op) && Has(code, ip, [op, target - ip - 2])
  }

  /** Any of the jump instructions, with its offset written out. */
  lemma JumpFound(code: seq<int>, ip: int, op: int, off: int)
    requires Has(code, ip, [op, off]) && AlwaysJumps(op)
    ensures JumpsTo(code, ip, ip + 2 + off)
  {
    assert off == (ip + 2 + off) - ip - 2;
  }

  lemma DoJumpTo(env: Env, w: Site, ip: int, target: int, st: State, tmp: seq<Cell>)
    requires JumpsTo(env.q.code, ip, target)
    ensures Goes(env.q, At(w, ip, st, tmp), 1, At(w, target, st, tmp))
  {
    hide Has, Goes;
    var op: int :| AlwaysJumps(op) && Has(env.q.code, ip, [op, target - ip - 2]);
    DoJump(env.q, ip, op, target - ip - 2, Lay(st, w.mid, tmp), w.pb, st.out);
  }

  /** A jump at the normal end of a statement. */
  lemma ExecutesJump(env: Env, w: Site, m: Machine, fuel: nat, x: ExecResult, ip: int, target: int, d: Dests)
    requires Executes(env, w, m, fuel, x, ip, d) && JumpsTo(env.q.code, ip, target)
    ensures Executes(env, w, m, fuel, x, target, d)
  {
    hide Has, Goes, Runs, Lay, Fits, JumpsTo;
    if x.Exec? && x.o.Normal? {
      DoJumpTo(env, w, ip, target, x.st, []);
      GoesVia(env.q, m, fuel - x.fuel, At(w, ip, x.st, []), 1, At(w, target, x.st, []), fuel - x.fuel);
    }
  }

  /** The test of an if or a loop, together with its branch instruction. */
  ghost predicate Tests(env: Env, w: Site, m0: Machine, fuel: nat, r: EvalResult, yes: int, no: int) {
    match r
    case Timeout => Runs(env.q, m0, fuel)
    case Val(v, st, f) =>
      f <= fuel && Fits(env, w, st) && Goes(env.q, m0, fuel - f + 1, At(w, if v != 0 then yes else no, st, []))
  }

  lemma {:induction false} RunTest(env: Env, w: Site, e: Expr, op: int, off: int, st: State, fuel: nat, pos: int)
    requires Linked(env) && Has(env.q.code, pos, CodeE(e) + [op, off])
    requires GoodExpr(ScopeAt(env, w), e) && Fits(env, w, st)
    requires op == TKIF || op == TKWHILE
    ensures
      var ip := pos + |CodeE(e)|;
      Tests(env, w, At(w, pos, st, []), fuel, Eval(env.p, e, st, fuel),
            if op == TKWHILE then ip + 2 + off else ip + 2, if op == TKWHILE then ip + 2 else ip + 2 + off)
    decreases fuel, ExprSize(e), 2
  {
    hide Linked, Has, Goes, Runs, Lay, Fits, GoodExpr, CodeE, Eval;
    var ip := pos + |CodeE(e)|;
    HasSplit(env.q.code, pos, CodeE(e), [op, off]);
    RunE(env, w, e, st, fuel, pos, []);
    var r := Eval(env.p, e, st, fuel);
    if r.Val? {
      FitsRoom(env, w, r.st, []);
      DoBranch(env.q, ip, op, off, Lay(r.st, w.mid, []), r.v, w.pb, r.st.out);
      LayPush(r.st, w.mid, [], Num(r.v));
      var target := if (r.v == 0) == (op != TKWHILE) then ip + 2 + off else ip + 2;
      GoesVia(env.q, At(w, pos, st, []), fuel - r.fuel, At(w, ip, r.st, [] + [Num(r.v)]), 1, At(w, target, r.st, []),
              fuel - r.fuel + 1);
    }
  }

  /** The test passed on, without the step of its branch. */
  lemma TestTo(env: Env, w: Site, m0: Machine, fuel: nat, r: EvalResult, yes: int, no: int)
    requires Tests(env, w, m0, fuel, r, yes, no) && r.Val?
    ensures Goes(env.q, m0, fuel - r.fuel, At(w, if r.v != 0 then yes else no, r.st, []))
  {
    hide Goes, Lay, Fits;
    GoesLess(env.q, m0, fuel - r.fuel + 1, At(w, if r.v != 0 then yes else no, r.st, []), fuel - r.fuel);
  }

  lemma {:induction false} RunS(env: Env, w: Site, s: Stmt, st: State, fuel: nat, pos: int, d: Dests, inLoop: bool,
                                inFunc: bool)
    requires Linked(env) && pos > 0 && Has(env.q.code, pos, CodeS(s, pos, d, w.operand))
    requires GoodStmt(ScopeAt(env, w), s, inLoop, inFunc) && Fits(env, w, st)
    requires inLoop ==> d.brk != 0 && d.cont != 0
    ensures Executes(env, w, At(w, pos, st, []), fuel, Execute(env.p, s, st, fuel),
                     pos + |CodeS(s, pos, d, w.operand)|, d)
    decreases fuel, StmtSize(s), 1
  {
    hide Linked, Has, CodeS, CodeE, Execute, Executes, Fits, GoodExpr;
    match s
    case Skip => RunJumpOrSkip(env, w, s, st, fuel, pos, d, inLoop, inFunc);
    case Break => RunJumpOrSkip(env, w, s, st, fuel, pos, d, inLoop, inFunc);
    case Continue => RunJumpOrSkip(env, w, s, st, fuel, pos, d, inLoop, inFunc);
    case ExprStmt(e) => RunSimple(env, w, s, st, fuel, pos, d, inLoop, inFunc);
    case Print(e) => RunSimple(env, w, s, st, fuel, pos, d, inLoop, inFunc);
    case Return(e) => RunReturn(env, w, s, st, fuel, pos, d, inFunc);
    case Seq(s1, s2) => RunSeq(env, w, s, st, fuel, pos, d, inLoop, inFunc);
    case If(t, s1) => RunIf(env, w, s, st, fuel, pos, d, inLoop, inFunc);
    case IfElse(t, s1, s2) => RunIfElse(env, w, s, st, fuel, pos, d, inLoop, inFunc);
    case While(t, b) => RunWhile(env, w, s, st, fuel, pos, d, inFunc);
    case DoWhile(b, t) => RunDoWhile(env, w, s, st, fuel, pos, d, inFunc);
    case For(i, c, n, b) => RunFor(env, w, s, st, fuel, pos, d, inFunc);
  }

  lemma RunJumpOrSkip(env: Env, w: Site, s: Stmt, st: State, fuel: nat, pos: int, d: Dests, inLoop: bool, inFunc: bool)
    requires Has(env.q.code, pos, CodeS(s, pos, d, w.operand))
    requires GoodStmt(ScopeAt(env, w), s, inLoop, inFunc) && Fits(env, w, st)
    requires inLoop ==> d.brk != 0 && d.cont != 0
    requires s.Skip? || s.Break? || s.Continue?
    ensures Executes(env, w, At(w, pos, st, []), fuel, Execute(env.p, s, st, fuel),
                     pos + |CodeS(s, pos, d, w.operand)|, d)
  {
    hide Has, Goes, Lay, Fits;
    match s
    case Skip => GoesHere(env.q, At(w, pos, st, []));
    case Break => RunJump(env, w, TKBREAK, pos, d.brk, st, fuel);
    case Continue => RunJump(env, w, TKCONTINUE, pos, d.cont, st, fuel);
  }

  lemma RunJump(env: Env, w: Site, op: int, pos: int, target: int, st: State, fuel: nat)
    requires AlwaysJumps(op) && Has(env.q.code, pos, [op, target - pos - 2])
    ensures Goes(env.q, At(w, pos, st, []), fuel - fuel, At(w, target, st, []))
  {
    hide Goes, Lay;
    JumpFound(env.q.code, pos, op, target - pos - 2);
    DoJumpTo(env, w, pos, target, st, []);
    GoesLess(env.q, At(w, pos, st, []), 1, At(w, target, st, []), 0);
  }

  lemma {:induction false} RunSimple(env: Env, w: Site, s: Stmt, st: State, fuel: nat, pos: int, d: Dests, inLoop: bool,
                                     inFunc: bool)
    requires Linked(env) && pos > 0 && Has(env.q.code, pos, CodeS(s, pos, d, w.operand))
    requires GoodStmt(ScopeAt(env, w), s, inLoop, inFunc) && Fits(env, w, st)
    requires s.ExprStmt? || s.Print?
    ensures Executes(env, w, At(w, pos, st, []), fuel, Execute(env.p, s, st, fuel),
                     pos + |CodeS(s, pos, d, w.operand)|, d)
    decreases fuel, StmtSize(s), 0
  {
    hide Linked, Has, Goes, Runs, Lay, Fits, GoodExpr, CodeE, Eval;
    var c, ip := CodeE(s.e), pos + |CodeE(s.e)|;
    HasSplit(env.q.code, pos, c, if s.Print? then [TKPRINT, 1, 0] else [OPDROP]);
    RunE(env, w, s.e, st, fuel, pos, []);
    var r := Eval(env.p, s.e, st, fuel);
    if r.Val? {
      var s0 := Lay(r.st, w.mid, []);
      LayPush(r.st, w.mid, [], Num(r.v));
      var st', end := if s.Print? then r.st.(out := r.st.out + [r.v]) else r.st, pos + |CodeS(s, pos, d, w.operand)|;
      SameLay(env, w, r.st, st');
      FitsRoom(env, w, r.st, []);
      if s.Print? {
        DoPrint(env.q, ip, s0, r.v, w.pb, r.st.out);
      } else {
        DoDrop(env.q, ip, s0, r.v, w.pb, r.st.out);
      }
      GoesVia(env.q, At(w, pos, st, []), fuel - r.fuel, At(w, ip, r.st, [] + [Num(r.v)]), 1, At(w, end, st', []),
              fuel - r.fuel);
    }
  }

  lemma SameLay(env: Env, w: Site, st: State, st': State)
    requires st.globals == st'.globals && st.locals == st'.locals && Fits(env, w, st)
    ensures Lay(st, w.mid, []) == Lay(st', w.mid, []) && Fits(env, w, st')
  {
  }

  lemma {:induction false} RunReturn(env: Env, w: Site, s: Stmt, st: State, fuel: nat, pos: int, d: Dests, inFunc: bool)
    requires Linked(env) && Has(env.q.code, pos, CodeS(s, pos, d, w.operand))
    requires s.Return? && GoodStmt(ScopeAt(env, w), s, true, inFunc) && Fits(env, w, st)
    ensures Executes(env, w, At(w, pos, st, []), fuel, Execute(env.p, s, st, fuel),
                     pos + |CodeS(s, pos, d, w.operand)|, d)
    decreases fuel, StmtSize(s), 0
  {
    hide Linked, Has, Goes, Runs, Lay, Fits, GoodExpr, CodeE, Eval;
    HasSplit(env.q.code, pos, CodeE(s.e), [TKRETURN, w.operand]);
    RunE(env, w, s.e, st, fuel, pos, []);
    var r := Eval(env.p, s.e, st, fuel);
    if r.Val? {
      assert [] + [Num(r.v)] == [Num(r.v)];
    }
  }

  lemma SeqCode(code: seq<int>, pos: int, s1: Stmt, s2: Stmt, d: Dests, nparms: nat)
    requires Has(code, pos, CodeS(Seq(s1, s2), pos, d, nparms))
    ensures
      var c1 := CodeS(s1, pos, d, nparms);
      var c2 := CodeS(s2, pos + |c1|, d, nparms);
      Has(code, pos, c1) && Has(code, pos + |c1|, c2) && |CodeS(Seq(s1, s2), pos, d, nparms)| == |c1| + |c2|
  {
    hide Has, CodeS;
    CodeOfSeq(s1, s2, pos, d, nparms);
    var c1 := CodeS(s1, pos, d, nparms);
    HasSplit(code, pos, c1, CodeS(s2, pos + |c1|, d, nparms));
  }

  lemma {:induction false} RunSeq(env: Env, w: Site, s: Stmt, st: State, fuel: nat, pos: int, d: Dests, inLoop: bool,
                                  inFunc: bool)
    requires Linked(env) && pos > 0 && Has(env.q.code, pos, CodeS(s, pos, d, w.operand))
    requires GoodStmt(ScopeAt(env, w), s, inLoop, inFunc) && Fits(env, w, st)
    requires inLoop ==> d.brk != 0 && d.cont != 0
    requires s.Seq?
    ensures Executes(env, w, At(w, pos, st, []), fuel, Execute(env.p, s, st, fuel),
                     pos + |CodeS(s, pos, d, w.operand)|, d)
    decreases fuel, StmtSize(s), 0
  {
    hide Linked, Has, Goes, Runs, Lay, Fits, Eval, CodeS;
    var m0 := At(w, pos, st, []);
    var c1 := CodeS(s.s1, pos, d, w.operand);
    var mid := pos + |c1|;
    SeqCode(env.q.code, pos, s.s1, s.s2, d, w.operand);
    RunS(env, w, s.s1, st, fuel, pos, d, inLoop, inFunc);
    var a := Execute(env.p, s.s1, st, fuel);
    if a.Exec? && a.o.Normal? {
      RunS(env, w, s.s2, a.st, a.fuel, mid, d, inLoop, inFunc);
      ExecutesFrom(env, w, m0, fuel, At(w, mid, a.st, []), a.fuel, Execute(env.p, s.s2, a.st, a.fuel),
                   pos + |CodeS(s, pos, d, w.operand)|, d);
    }
  }

  lemma {:induction false} RunIf(env: Env, w: Site, s: Stmt, st: State, fuel: nat, pos: int, d: Dests, inLoop: bool,
                                 inFunc: bool)
    requires Linked(env) && pos > 0 && Has(env.q.code, pos, CodeS(s, pos, d, w.operand))
    requires GoodStmt(ScopeAt(env, w), s, inLoop, inFunc) && Fits(env, w, st)
    requires inLoop ==> d.brk != 0 && d.cont != 0
    requires s.If?
    ensures Executes(env, w, At(w, pos, st, []), fuel, Execute(env.p, s, st, fuel),
                     pos + |CodeS(s, pos, d, w.operand)|, d)
    decreases fuel, StmtSize(s), 0
  {
    hide Linked, Has, Goes, Runs, Lay, Fits, Eval, CodeE, GoodExpr, CodeS;
    CodeOfIf(s.test, s.thn, pos, d, w.operand);
    var m0 := At(w, pos, st, []);
    var c := CodeE(s.test);
    var yes := pos + |c| + 2;
    var c1 := CodeS(s.thn, yes, d, w.operand);
    HasSplit(env.q.code, pos, c + [TKIF, |c1|], c1);
    RunTest(env, w, s.test, TKIF, |c1|, st, fuel, pos);
    var r := Eval(env.p, s.test, st, fuel);
    if r.Val? {
      TestTo(env, w, m0, fuel, r, yes, yes + |c1|);
    }
    if r.Val? && r.v != 0 {
      RunS(env, w, s.thn, r.st, r.fuel, yes, d, inLoop, inFunc);
      ExecutesFrom(env, w, m0, fuel, At(w, yes, r.st, []), r.fuel, Execute(env.p, s.thn, r.st, r.fuel), yes + |c1|, d);
    }
  }

  lemma IfElseCode(code: seq<int>, pos: int, t: Expr, s1: Stmt, s2: Stmt, d: Dests, nparms: nat)
    requires Has(code, pos, CodeS(IfElse(t, s1, s2), pos, d, nparms))
    ensures
      var yes := pos + |CodeE(t)| + 2;
      var c1 := CodeS(s1, yes, d, nparms);
      var no := yes + |c1| + 2;
      var c2 := CodeS(s2, no, d, nparms);
      && Has(code, pos, CodeE(t) + [TKIF, |c1| + 2]) && Has(code, yes, c1) && JumpsTo(code, yes + |c1|, no + |c2|)
      && Has(code, no, c2) && pos + |CodeS(IfElse(t, s1, s2), pos, d, nparms)| == no + |c2|
  {
    hide Has, CodeE, CodeS, JumpsTo;
    CodeOfIfElse(t, s1, s2, pos, d, nparms);
    var yes := pos + |CodeE(t)| + 2;
    var c1 := CodeS(s1, yes, d, nparms);
    var c2 := CodeS(s2, yes + |c1| + 2, d, nparms);
    HasChoice(code, pos, CodeE(t), TKIF, c1, TKELSE, c2);
    JumpFound(code, yes + |c1|, TKELSE, |c2|);
  }

  lemma {:induction false} RunIfElse(env: Env, w: Site, s: Stmt, st: State, fuel: nat, pos: int, d: Dests, inLoop: bool,
                                     inFunc: bool)
    requires Linked(env) && pos > 0 && Has(env.q.code, pos, CodeS(s, pos, d, w.operand))
    requires GoodStmt(ScopeAt(env, w), s, inLoop, inFunc) && Fits(env, w, st)
    requires inLoop ==> d.brk != 0 && d.cont != 0
    requires s.IfElse?
    ensures Executes(env, w, At(w, pos, st, []), fuel, Execute(env.p, s, st, fuel),
                     pos + |CodeS(s, pos, d, w.operand)|, d)
    decreases fuel, StmtSize(s), 0
  {
    hide Linked, Has, Goes, Lay, Fits, Eval, CodeE, CodeS, GoodExpr, JumpsTo;
    var m0 := At(w, pos, st, []);
    IfElseCode(env.q.code, pos, s.test, s.thn, s.els, d, w.operand);
    var yes := pos + |CodeE(s.test)| + 2;
    var c1 := CodeS(s.thn, yes, d, w.operand);
    var no := yes + |c1| + 2;
    var end := no + |CodeS(s.els, no, d, w.operand)|;
    RunTest(env, w, s.test, TKIF, |c1| + 2, st, fuel, pos);
    var r := Eval(env.p, s.test, st, fuel);
    if r.Val? {
      TestTo(env, w, m0, fuel, r, yes, no);
      if r.v != 0 {
        var x := Execute(env.p, s.thn, r.st, r.fuel);
        RunS(env, w, s.thn, r.st, r.fuel, yes, d, inLoop, inFunc);
        ExecutesFrom(env, w, m0, fuel, At(w, yes, r.st, []), r.fuel, x, yes + |c1|, d);
        ExecutesJump(env, w, m0, fuel, x, yes + |c1|, end, d);
      } else {
        RunS(env, w, s.els, r.st, r.fuel, no, d, inLoop, inFunc);
        ExecutesFrom(env, w, m0, fuel, At(w, no, r.st, []), r.fuel, Execute(env.p, s.els, r.st, r.fuel), end, d);
      }
    }
  }

  // ---------------------------------------------------------------- loops

  /** The points of a loop: its test, its body, its increment, the break jump, its end. */
  datatype LoopAt = LoopAt(head: int, body: int, incr: int, brk: int, end: int)

  ghost predicate LoopTest(code: seq<int>, c: OptExpr, l: LoopAt) {
    match c
    case NoExpr => JumpsTo(code, l.head, l.body)
    case SomeExpr(e) =>
      && l.brk == l.head + |CodeE(e)| + 2
      && Has(code, l.head, CodeE(e) + [TKWHILE, l.body - l.brk])
  }

  ghost predicate LoopCode(code: seq<int>, nparms: nat, c: OptExpr, b: Stmt, n: Stmt, l: LoopAt) {
    var cb := CodeS(b, l.body, Dests(l.brk, l.incr), nparms);
    var cn := CodeS(n, l.incr, Dests(0, 0), nparms);
    && l.brk > 0 && l.incr > 0 && l.body > 0
    && LoopTest(code, c, l)
    && JumpsTo(code, l.brk, l.end)
    && Has(code, l.body, cb) && JumpsTo(code, l.body + |cb|, l.incr)
    && Has(code, l.incr, cn) && (l.incr + |cn| == l.head || JumpsTo(code, l.incr + |cn|, l.head))
  }

  predicate LoopGood(sc: Scope, c: OptExpr, b: Stmt, n: Stmt, inFunc: bool) {
    (c.SomeExpr? ==> GoodExpr(sc, c.e)) && GoodStmt(sc, b, true, inFunc) && GoodStmt(sc, n, false, inFunc)
  }

  lemma {:induction false} RunLoopTest(env: Env, w: Site, c: OptExpr, st: State, fuel: nat, l: LoopAt)
    requires Linked(env) && LoopTest(env.q.code, c, l) && Fits(env, w, st)
    requires c.SomeExpr? ==> GoodExpr(ScopeAt(env, w), c.e)
    ensures Tests(env, w, At(w, l.head, st, []), fuel,
                  if c.NoExpr? then Val(1, st, fuel) else Eval(env.p, c.e, st, fuel), l.body, l.brk)
    decreases fuel, 1 + (if c.SomeExpr? then ExprSize(c.e) else 0), 0
  {
    hide Linked, Has, Goes, Runs, Lay, Fits, Eval, CodeE, GoodExpr, JumpsTo;
    match c
    case NoExpr =>
      DoJumpTo(env, w, l.head, l.body, st, []);
    case SomeExpr(e) => RunTest(env, w, e, TKWHILE, l.body - l.brk, st, fuel, l.head);
  }

  /** From the break jump to the end. */
  lemma LeaveLoop(env: Env, w: Site, m0: Machine, fuel: nat, st: State, f: nat, l: LoopAt, d: Dests)
    requires Goes(env.q, m0, fuel - f, At(w, l.brk, st, [])) && JumpsTo(env.q.code, l.brk, l.end) && Fits(env, w, st)
    ensures Executes(env, w, m0, fuel, Exec(Normal, st, f), l.end, d)
  {
    hide Has, Goes, Runs, Lay, Fits, JumpsTo;
    DoJumpTo(env, w, l.brk, l.end, st, []);
    GoesVia(env.q, m0, fuel - f, At(w, l.brk, st, []), 1, At(w, l.end, st, []), fuel - f);
  }

  /** From the end of the body, or a continue in it, to the increment. */
  lemma ToIncrement(env: Env, w: Site, m0: Machine, fuel: nat, x: ExecResult, ip: int, l: LoopAt)
    requires Executes(env, w, m0, fuel, x, ip, Dests(l.brk, l.incr)) && JumpsTo(env.q.code, ip, l.incr)
    requires x.Exec? && (x.o.Normal? || x.o.Continued?)
    ensures Goes(env.q, m0, fuel - x.fuel, At(w, l.incr, x.st, [])) && Fits(env, w, x.st)
  {
    hide Has, Goes, Runs, Lay, Fits, JumpsTo;
    ExecutesJump(env, w, m0, fuel, x, ip, l.incr, Dests(l.brk, l.incr));
  }

  lemma {:induction false} RunLoop(env: Env, w: Site, c: OptExpr, b: Stmt, n: Stmt, st: State, fuel: nat, l: LoopAt,
                                   d: Dests, inFunc: bool)
    requires Linked(env) && LoopCode(env.q.code, w.operand, c, b, n, l) && Fits(env, w, st)
    requires LoopGood(ScopeAt(env, w), c, b, n, inFunc)
    ensures Executes(env, w, At(w, l.head, st, []), fuel, Loop(env.p, c, b, n, st, fuel), l.end, d)
    decreases fuel, 1 + (if c.SomeExpr? then ExprSize(c.e) else 0), 1
  {
    hide Linked, Has, Goes, Lay, Fits, Eval, Execute, CodeE, CodeS, GoodExpr, GoodStmt, JumpsTo, LoopTest;
    var m0 := At(w, l.head, st, []);
    RunLoopTest(env, w, c, st, fuel, l);
    var r := if c.NoExpr? then Val(1, st, fuel) else Eval(env.p, c.e, st, fuel);
    if r.Val? {
      if r.v == 0 {
        TestTo(env, w, m0, fuel, r, l.body, l.brk);
        LeaveLoop(env, w, m0, fuel, r.st, r.fuel, l, d);
      } else if r.fuel == 0 {
        TestTo(env, w, m0, fuel, r, l.body, l.brk);
      } else {
        RunBody(env, w, c, b, n, r.st, r.fuel - 1, l, d, inFunc, m0, fuel);
      }
    }
  }

  /** One round, from the body on. */
  lemma {:induction false} RunBody(env: Env, w: Site, c: OptExpr, b: Stmt, n: Stmt, st: State, fuel: nat, l: LoopAt,
                                   d: Dests, inFunc: bool, m0: Machine, fuel0: nat)
    requires Linked(env) && LoopCode(env.q.code, w.operand, c, b, n, l) && Fits(env, w, st)
    requires LoopGood(ScopeAt(env, w), c, b, n, inFunc)
    requires Goes(env.q, m0, fuel0 - fuel, At(w, l.body, st, []))
    ensures
      var x := Execute(env.p, b, st, fuel);
      Executes(env, w, m0, fuel0,
               if x.ExecTimeout? || x.o.Returned? then x
               else if x.o == Broke then x.(o := Normal)
               else
                 var y := Execute(env.p, n, x.st, x.fuel);
                 if y.ExecTimeout? || y.o != Normal then y else Loop(env.p, c, b, n, y.st, y.fuel),
               l.end, d)
    decreases fuel, StmtSize(b) + StmtSize(n) + 3 + if c.SomeExpr? then ExprSize(c.e) else 0
  {
    hide StmtSize, ExprSize, ScopeAt, Linked, Has, Goes, Runs, Lay, Fits, Eval, Execute, Loop, CodeE, CodeS, GoodExpr,
      GoodStmt, JumpsTo, LoopTest, LoopCode;
    LoopParts(env.q.code, w.operand, c, b, n, l);
    var ip := l.body + |CodeS(b, l.body, Dests(l.brk, l.incr), w.operand)|;
    var m1 := At(w, l.body, st, []);
    RunS(env, w, b, st, fuel, l.body, Dests(l.brk, l.incr), true, inFunc);
    var x := Execute(env.p, b, st, fuel);
    ExecutesFrom(env, w, m0, fuel0, m1, fuel, x, ip, Dests(l.brk, l.incr));
    if x.Exec? && x.o.Broke? {
      LeaveLoop(env, w, m0, fuel0, x.st, x.fuel, l, d);
    } else if x.Exec? && !x.o.Returned? {
      ToIncrement(env, w, m0, fuel0, x, ip, l);
      RunIncrement(env, w, c, b, n, x.st, x.fuel, l, d, inFunc, m0, fuel0);
    }
  }

  lemma LoopParts(code: seq<int>, nparms: nat, c: OptExpr, b: Stmt, n: Stmt, l: LoopAt)
    requires LoopCode(code, nparms, c, b, n, l)
    ensures l.brk > 0 && l.incr > 0 && l.body > 0 && JumpsTo(code, l.brk, l.end)
    ensures
      var cb := CodeS(b, l.body, Dests(l.brk, l.incr), nparms);
      Has(code, l.body, cb) && JumpsTo(code, l.body + |cb|, l.incr)
    ensures
      var cn := CodeS(n, l.incr, Dests(0, 0), nparms);
      Has(code, l.incr, cn) && (l.incr + |cn| == l.head || JumpsTo(code, l.incr + |cn|, l.head))
  {
    hide CodeS, Has, JumpsTo;
  }

  /** A timeout or a return is the same wherever the statement ends. */
  lemma SameExit(env: Env, w: Site, m0: Machine, fuel: nat, x: ExecResult, ip: int, d: Dests, ip': int, d': Dests)
    requires Executes(env, w, m0, fuel, x, ip, d) && (x.ExecTimeout? || x.o.Returned?)
    ensures Executes(env, w, m0, fuel, x, ip', d')
  {
    hide Has, Goes, Runs, Lay, Fits;
  }

  /** A statement that ended normally passed its end. */
  lemma NormalEnd(env: Env, w: Site, m0: Machine, fuel: nat, x: ExecResult, ip: int, d: Dests)
    requires Executes(env, w, m0, fuel, x, ip, d) && x.Exec? && x.o.Normal?
    ensures Fits(env, w, x.st) && Goes(env.q, m0, fuel - x.fuel, At(w, ip, x.st, []))
  {
    hide Has, Goes, Runs, Lay, Fits;
  }

  /** After the increment the machine is at the test again. */
  lemma Incremented(env: Env, w: Site, c: OptExpr, b: Stmt, n: Stmt, m0: Machine, fuel0: nat, y: ExecResult, l: LoopAt)
    requires LoopCode(env.q.code, w.operand, c, b, n, l)
    requires Executes(env, w, m0, fuel0, y, l.incr + |CodeS(n, l.incr, Dests(0, 0), w.operand)|, Dests(0, 0))
    ensures Executes(env, w, m0, fuel0, y, l.head, Dests(0, 0))
  {
    hide CodeS, Has, JumpsTo, Executes, LoopCode;
    LoopParts(env.q.code, w.operand, c, b, n, l);
    var ip := l.incr + |CodeS(n, l.incr, Dests(0, 0), w.operand)|;
    if ip != l.head {
      ExecutesJump(env, w, m0, fuel0, y, ip, l.head, Dests(0, 0));
    }
  }

  lemma {:induction false} RunIncrement(env: Env, w: Site, c: OptExpr, b: Stmt, n: Stmt, st: State, fuel: nat,
                                        l: LoopAt, d: Dests, inFunc: bool, m0: Machine, fuel0: nat)
    requires Linked(env) && LoopCode(env.q.code, w.operand, c, b, n, l) && Fits(env, w, st)
    requires LoopGood(ScopeAt(env, w), c, b, n, inFunc)
    requires Goes(env.q, m0, fuel0 - fuel, At(w, l.incr, st, []))
    ensures
      var y := Execute(env.p, n, st, fuel);
      Executes(env, w, m0, fuel0,
               if y.ExecTimeout? || y.o != Normal then y else Loop(env.p, c, b, n, y.st, y.fuel), l.end, d)
    decreases fuel, StmtSize(n) + 2 + if c.SomeExpr? then ExprSize(c.e) else 0
  {
    hide StmtSize, ExprSize, ScopeAt, Linked, Has, Goes, Runs, Lay, Fits, Eval, Execute, Loop, CodeE, CodeS, GoodExpr,
      GoodStmt, JumpsTo, LoopTest, LoopCode, Executes;
    LoopParts(env.q.code, w.operand, c, b, n, l);
    RunS(env, w, n, st, fuel, l.incr, Dests(0, 0), false, inFunc);
    var y := Execute(env.p, n, st, fuel);
    ExecutesFrom(env, w, m0, fuel0, At(w, l.incr, st, []), fuel, y,
                 l.incr + |CodeS(n, l.incr, Dests(0, 0), w.operand)|, Dests(0, 0));
    Outcomes(env.p, ScopeAt(env, w), n, st, fuel, false, inFunc);
    Incremented(env, w, c, b, n, m0, fuel0, y, l);
    if y.Exec? && y.o.Normal? {
      NormalEnd(env, w, m0, fuel0, y, l.head, Dests(0, 0));
      RunLoop(env, w, c, b, n, y.st, y.fuel, l, d, inFunc);
      ExecutesFrom(env, w, m0, fuel0, At(w, l.head, y.st, []), y.fuel, Loop(env.p, c, b, n, y.st, y.fuel), l.end, d);
    } else {
      SameExit(env, w, m0, fuel0, y, l.head, Dests(0, 0), l.end, d);
    }
  }

  function WhileAt(pos: int, t: Expr, b: Stmt, nparms: nat): LoopAt {
    var c := |CodeE(t)|;
    var cb := |CodeS(b, pos + c + 4, Dests(pos + c + 2, pos), nparms)|;
    LoopAt(pos, pos + c + 4, pos, pos + c + 2, pos + c + 4 + cb + 2)
  }

  lemma WhileCode(code: seq<int>, pos: int, t: Expr, b: Stmt, d: Dests, nparms: nat)
    requires pos > 0 && Has(code, pos, CodeS(While(t, b), pos, d, nparms))
    ensures LoopCode(code, nparms, SomeExpr(t), b, Skip, WhileAt(pos, t, b, nparms))
    ensures WhileAt(pos, t, b, nparms).end == pos + |CodeS(While(t, b), pos, d, nparms)|
  {
    hide Has, CodeE, CodeLoop, CodeS, JumpsTo;
    var c := CodeE(t);
    var l := WhileAt(pos, t, b, nparms);
    CodeOfWhile(While(t, b), pos, d, nparms);
    CodeOfSkip(l.incr, Dests(0, 0), nparms);
    var cb := CodeS(b, l.body, Dests(l.brk, pos), nparms);
    HasSplit(code, pos, c + [TKWHILE, 2] + [OPJUMP, |cb| + 2] + cb, [OPJUMP, -(|c| + |cb| + 6)]);
    HasSplit(code, pos, c + [TKWHILE, 2] + [OPJUMP, |cb| + 2], cb);
    HasSplit(code, pos, c + [TKWHILE, 2], [OPJUMP, |cb| + 2]);
    JumpFound(code, l.brk, OPJUMP, |cb| + 2);
    JumpFound(code, l.body + |cb|, OPJUMP, -(|c| + |cb| + 6));
    HasNothing(code, pos, c + [TKWHILE, 2]);
  }

  lemma HasNothing(code: seq<int>, pos: int, c: seq<int>)
    requires Has(code, pos, c)
    ensures Has(code, pos, [])
  {
  }

  lemma {:induction false} RunWhile(env: Env, w: Site, s: Stmt, st: State, fuel: nat, pos: int, d: Dests, inFunc: bool)
    requires Linked(env) && pos > 0 && Has(env.q.code, pos, CodeS(s, pos, d, w.operand))
    requires s.While? && GoodStmt(ScopeAt(env, w), s, true, inFunc) && Fits(env, w, st)
    ensures Executes(env, w, At(w, pos, st, []), fuel, Execute(env.p, s, st, fuel),
                     pos + |CodeS(s, pos, d, w.operand)|, d)
    decreases fuel, StmtSize(s), 0
  {
    hide Linked, Has, Goes, Runs, Lay, Fits, Eval, Loop, CodeE, CodeS, LoopCode, Executes;
    WhileCode(env.q.code, pos, s.test, s.body, d, w.operand);
    var l := WhileAt(pos, s.test, s.body, w.operand);
    RunLoop(env, w, SomeExpr(s.test), s.body, Skip, st, fuel, l, d, inFunc);
  }

  function ForAt(head: int, c: OptExpr, n: Stmt, b: Stmt, nparms: nat): LoopAt {
    var brk := head + |CodeCond(c, 0)|;
    var body := brk + |CodeS(n, brk + 2, Dests(0, 0), nparms)| + 4;
    LoopAt(head, body, brk + 2, brk, body + |CodeS(b, body, Dests(brk, brk + 2), nparms)| + 2)
  }

  lemma HasParts(code: seq<int>, pos: int, cc: seq<int>, j1: seq<int>, cn: seq<int>, j2: seq<int>, cb: seq<int>,
                 j3: seq<int>)
    requires Has(code, pos, cc + j1 + cn + j2 + cb + j3)
    ensures
      var brk := pos + |cc|;
      && Has(code, pos, cc) && Has(code, brk, j1) && Has(code, brk + |j1|, cn) && Has(code, brk + |j1| + |cn|, j2)
      && Has(code, brk + |j1| + |cn| + |j2|, cb) && Has(code, brk + |j1| + |cn| + |j2| + |cb|, j3)
  {
    hide Has;
    HasSplit(code, pos, cc + j1 + cn + j2 + cb, j3);
    HasSplit(code, pos, cc + j1 + cn + j2, cb);
    HasSplit(code, pos, cc + j1 + cn, j2);
    HasSplit(code, pos, cc + j1, cn);
    HasSplit(code, pos, cc, j1);
  }

  lemma ForCode(code: seq<int>, head: int, c: OptExpr, n: Stmt, b: Stmt, nparms: nat)
    requires head > 0 && Has(code, head, CodeLoop(c, n, b, head, nparms))
    ensures LoopCode(code, nparms, c, b, n, ForAt(head, c, n, b, nparms))
    ensures ForAt(head, c, n, b, nparms).end == head + |CodeLoop(c, n, b, head, nparms)|
  {
    hide Has, CodeE, CodeS, JumpsTo;
    var l := ForAt(head, c, n, b, nparms);
    var cn := CodeS(n, l.incr, Dests(0, 0), nparms);
    var cb := CodeS(b, l.body, Dests(l.brk, l.incr), nparms);
    var cc := CodeCond(c, |cn| + 4);
    HasParts(code, head, cc, [OPJUMP, |cn| + |cb| + 4], cn, [OPJUMP, -(|cc| + |cn| + 4)], cb,
             [OPJUMP, -(|cn| + |cb| + 4)]);
    JumpFound(code, l.brk, OPJUMP, |cn| + |cb| + 4);
    JumpFound(code, l.incr + |cn|, OPJUMP, -(|cc| + |cn| + 4));
    JumpFound(code, l.body + |cb|, OPJUMP, -(|cn| + |cb| + 4));
    if c.NoExpr? {
      JumpFound(code, l.head, OPJUMP, |cn| + 4);
    }
  }

  lemma ForHead(head: int, c: OptExpr, n: Stmt, b: Stmt, nparms: nat)
    ensures ForAt(head, c, n, b, nparms).head == head
  {
    hide CodeS, CodeCond;
  }

  lemma {:induction false} RunFor(env: Env, w: Site, s: Stmt, st: State, fuel: nat, pos: int, d: Dests, inFunc: bool)
    requires Linked(env) && pos > 0 && Has(env.q.code, pos, CodeS(s, pos, d, w.operand))
    requires s.For? && GoodStmt(ScopeAt(env, w), s, true, inFunc) && Fits(env, w, st)
    ensures Executes(env, w, At(w, pos, st, []), fuel, Execute(env.p, s, st, fuel),
                     pos + |CodeS(s, pos, d, w.operand)|, d)
    decreases fuel, StmtSize(s), 0
  {
    hide Linked, Has, Goes, Runs, Lay, Fits, Eval, Loop, CodeE, CodeLoop, LoopCode, ForAt;
    var ci := CodeS(s.init, pos, d, w.operand);
    HasSplit(env.q.code, pos, ci, CodeLoop(s.cond, s.incr, s.body, pos + |ci|, w.operand));
    ForCode(env.q.code, pos + |ci|, s.cond, s.incr, s.body, w.operand);
    var l := ForAt(pos + |ci|, s.cond, s.incr, s.body, w.operand);
    var m0 := At(w, pos, st, []);
    RunS(env, w, s.init, st, fuel, pos, d, false, inFunc);
    var x := Execute(env.p, s.init, st, fuel);
    ForHead(pos + |ci|, s.cond, s.incr, s.body, w.operand);
    Outcomes(env.p, ScopeAt(env, w), s.init, st, fuel, false, inFunc);
    if x.Exec? && x.o.Normal? {
      RunLoop(env, w, s.cond, s.body, s.incr, x.st, x.fuel, l, d, inFunc);
      ExecutesFrom(env, w, m0, fuel, At(w, pos + |ci|, x.st, []), x.fuel,
                   Loop(env.p, s.cond, s.body, s.incr, x.st, x.fuel), l.end, d);
    }
  }

  // ---------------------------------------------------------------- do while

  ghost predicate DoCode(code: seq<int>, nparms: nat, t: Expr, b: Stmt, l: LoopAt) {
    var cb := CodeS(b, l.body, Dests(l.brk, l.incr), nparms);
    && l.brk > 0 && l.incr > 0 && l.body > 0
    && Has(code, l.body, cb) && l.body + |cb| == l.head
    && JumpsTo(code, l.incr, l.head) && JumpsTo(code, l.brk, l.end)
    && Has(code, l.head, CodeE(t) + [TKWHILE, l.body - l.end]) && l.end == l.head + |CodeE(t)| + 2
  }

  function DoAt(pos: int, t: Expr, b: Stmt, nparms: nat): LoopAt {
    var head := pos + 6 + |CodeS(b, pos + 6, Dests(pos + 4, pos + 2), nparms)|;
    LoopAt(head, pos + 6, pos + 2, pos + 4, head + |CodeE(t)| + 2)
  }

  lemma DoWhileCode(code: seq<int>, pos: int, t: Expr, b: Stmt, d: Dests, nparms: nat)
    requires pos > 0 && Has(code, pos, CodeS(DoWhile(b, t), pos, d, nparms))
    ensures DoCode(code, nparms, t, b, DoAt(pos, t, b, nparms))
    ensures DoAt(pos, t, b, nparms).end == pos + |CodeS(DoWhile(b, t), pos, d, nparms)|
    ensures Has(code, pos, [OPJUMP, 4])
  {
    hide Has, CodeE, CodeLoop, JumpsTo;
    var c := CodeE(t);
    var l := DoAt(pos, t, b, nparms);
    var cb := CodeS(b, l.body, Dests(l.brk, l.incr), nparms);
    var j0, j1, j2, j3 := [OPJUMP, 4], [OPJUMP, |cb| + 2], [OPJUMP, |cb| + |c| + 2], [TKWHILE, -(|cb| + |c| + 2)];
    assert CodeS(DoWhile(b, t), pos, d, nparms) == j0 + j1 + j2 + cb + (c + j3);
    HasSplit(code, pos, j0 + j1 + j2 + cb, c + j3);
    HasSplit(code, pos, j0 + j1 + j2, cb);
    HasSplit(code, pos, j0 + j1, j2);
    HasSplit(code, pos, j0, j1);
    JumpFound(code, l.incr, OPJUMP, |cb| + 2);
    JumpFound(code, l.brk, OPJUMP, |cb| + |c| + 2);
  }

  /** The loop from its body on: what a do loop executes. */
  lemma {:induction false} RunDo(env: Env, w: Site, t: Expr, b: Stmt, st: State, fuel: nat, l: LoopAt, d: Dests,
                                 inFunc: bool, m0: Machine, fuel0: nat)
    requires Linked(env) && DoCode(env.q.code, w.operand, t, b, l) && Fits(env, w, st)
    requires GoodExpr(ScopeAt(env, w), t) && GoodStmt(ScopeAt(env, w), b, true, inFunc)
    requires Goes(env.q, m0, fuel0 - fuel + 1, At(w, l.body, st, []))
    ensures Executes(env, w, m0, fuel0, Execute(env.p, DoWhile(b, t), st, fuel), l.end, d)
    decreases fuel, StmtSize(b) + ExprSize(t)
  {
    hide Linked, Has, Goes, Lay, Fits, Eval, CodeE, CodeS, GoodExpr, GoodStmt, JumpsTo;
    var m1 := At(w, l.body, st, []);
    if fuel == 0 {
      GoesLess(env.q, m0, fuel0 + 1, m1, fuel0);
    } else {
      RunS(env, w, b, st, fuel - 1, l.body, Dests(l.brk, l.incr), true, inFunc);
      var x := Execute(env.p, b, st, fuel - 1);
      ExecutesFrom(env, w, m0, fuel0, m1, fuel - 1, x, l.head, Dests(l.brk, l.incr));
      if x.Exec? && x.o.Broke? {
        LeaveLoop(env, w, m0, fuel0, x.st, x.fuel, l, d);
      } else if x.Exec? && !x.o.Returned? {
        ToTest(env, w, m0, fuel0, x, l);
        RunDoTest(env, w, t, b, x.st, x.fuel, l, d, inFunc, m0, fuel0);
      }
    }
  }

  lemma ToTest(env: Env, w: Site, m0: Machine, fuel: nat, x: ExecResult, l: LoopAt)
    requires Executes(env, w, m0, fuel, x, l.head, Dests(l.brk, l.incr)) && JumpsTo(env.q.code, l.incr, l.head)
    requires x.Exec? && (x.o.Normal? || x.o.Continued?)
    ensures Goes(env.q, m0, fuel - x.fuel, At(w, l.head, x.st, [])) && Fits(env, w, x.st)
  {
    hide Has, Goes, Runs, Lay, Fits, JumpsTo;
    if x.o.Continued? {
      DoJumpTo(env, w, l.incr, l.head, x.st, []);
      GoesVia(env.q, m0, fuel - x.fuel, At(w, l.incr, x.st, []), 1, At(w, l.head, x.st, []), fuel - x.fuel);
    }
  }

  lemma {:induction false} RunDoTest(env: Env, w: Site, t: Expr, b: Stmt, st: State, fuel: nat, l: LoopAt, d: Dests,
                                     inFunc: bool, m0: Machine, fuel0: nat)
    requires Linked(env) && DoCode(env.q.code, w.operand, t, b, l) && Fits(env, w, st)
    requires GoodExpr(ScopeAt(env, w), t) && GoodStmt(ScopeAt(env, w), b, true, inFunc)
    requires Goes(env.q, m0, fuel0 - fuel, At(w, l.head, st, []))
    ensures
      var r := Eval(env.p, t, st, fuel);
      Executes(env, w, m0, fuel0,
               if r.Timeout? then ExecTimeout
               else if r.v == 0 then Exec(Normal, r.st, r.fuel)
               else Execute(env.p, DoWhile(b, t), r.st, r.fuel),
               l.end, d)
    decreases fuel, StmtSize(b) + ExprSize(t) + 1
  {
    hide Linked, Has, Goes, Runs, Lay, Fits, Eval, Execute, CodeE, CodeS, GoodExpr, GoodStmt, JumpsTo;
    var m1 := At(w, l.head, st, []);
    RunTest(env, w, t, TKWHILE, l.body - l.end, st, fuel, l.head);
    var r := Eval(env.p, t, st, fuel);
    if r.Timeout? {
      RunsVia(env.q, m0, fuel0 - fuel, m1, fuel, fuel0);
    } else {
      var m2 := At(w, if r.v != 0 then l.body else l.end, r.st, []);
      GoesVia(env.q, m0, fuel0 - fuel, m1, fuel - r.fuel + 1, m2, fuel0 - r.fuel + 1);
      if r.v != 0 {
        RunDo(env, w, t, b, r.st, r.fuel, l, d, inFunc, m0, fuel0);
      } else {
        GoesLess(env.q, m0, fuel0 - r.fuel + 1, m2, fuel0 - r.fuel);
      }
    }
  }

  lemma {:induction false} RunDoWhile(env: Env, w: Site, s: Stmt, st: State, fuel: nat, pos: int, d: Dests,
                                      inFunc: bool)
    requires Linked(env) && pos > 0 && Has(env.q.code, pos, CodeS(s, pos, d, w.operand))
    requires s.DoWhile? && GoodStmt(ScopeAt(env, w), s, true, inFunc) && Fits(env, w, st)
    ensures Executes(env, w, At(w, pos, st, []), fuel, Execute(env.p, s, st, fuel),
                     pos + |CodeS(s, pos, d, w.operand)|, d)
    decreases fuel, StmtSize(s), 0
  {
    hide Linked, Has, Goes, Runs, Fits, Eval, Execute, CodeE, CodeS, DoCode, Executes;
    DoWhileCode(env.q.code, pos, s.test, s.body, d, w.operand);
    var l := DoAt(pos, s.test, s.body, w.operand);
    DoJump(env.q, pos, OPJUMP, 4, Lay(st, w.mid, []), w.pb, st.out);
    RunDo(env, w, s.test, s.body, st, fuel, l, d, inFunc, At(w, pos, st, []), fuel);
  }
}
