/** The call instructions of the wak interpreter, as they change the interpreter's stack, ip and parmbase. */
module WakInterpreter {
  import opened WakMachine
  import opened WakRuns

  class Interpreter {
    var ip: int
    var stack: seq<Cell>
    var parmbase: int
    var out: seq<int>

    function State(): Machine
      reads this
    {
      Machine(ip, stack, parmbase, out)
    }

    method PushNum(n: int)
      modifies this`stack
      ensures stack == old(stack) + [Num(n)]
    {
      stack := stack + [Num(n)];
    }

    method Pop()
      requires |stack| > 0
      modifies this`stack
      ensures stack == Drop(old(stack), 1)
    {
      stack := stack[..|stack| - 1];
    }

    /** opprepcall: five cells for the frame. */
    method PrepCall(q: Image)
      requires 0 <= ip && ip + 1 < |q.code| && q.code[ip] == OPPREPCALL
      modifies this
      ensures Step(q, old(State())) == Next(State())
    {
      PushNum(0);
      PushNum(0);
      PushNum(0);
      PushNum(0);
      PushNum(q.code[ip + 1]);
      ip := ip + 2;
    }

    /** tkfunc: return address and argument count go into the frame, control to the function. */
    method CallFunc(q: Image)
      requires 0 <= ip && ip + 1 < |q.code| && q.code[ip] == TKFUNC && Step(q, State()).Next?
      modifies this
      ensures Step(q, old(State())) == Next(State())
    {
      var nargs := q.code[ip + 1];
      var newparmbase := |stack| - 1 - nargs;
      stack := stack[newparmbase + RETURN_ADDR := Num(ip + 2)];
      stack := stack[newparmbase + ARG_CNT := Num(nargs)];
      PushNum(nargs);
      ip := q.addrs[stack[newparmbase].n];
    }

    /** Exactly nparms parameters: surplus arguments are dropped one by one, missing ones pushed as uninitialized. */
    method FitArguments(passed: nat, nparms: nat)
      requires passed <= |stack|
      modifies this`stack
      ensures stack == if passed > nparms then Drop(old(stack), passed - nparms)
                       else old(stack) + seq(nparms - passed, _ => Num(0))
    {
      var nargs := passed;
      ghost var s1 := stack;
      while nargs > nparms
        invariant nargs <= passed && (nargs == passed || nparms <= nargs)
        invariant stack == Drop(s1, passed - nargs)
      {
        Pop();
        nargs := nargs - 1;
      }
      ghost var s2, n2 := stack, nargs;
      while nargs < nparms
        invariant n2 <= nargs && (nargs == n2 || nargs <= nparms)
        invariant stack == s2 + seq(nargs - n2, _ => Num(0))
      {
        PushNum(0);
        nargs := nargs + 1;
      }
    }

    /** tkfunction. */
    method EnterFunc(q: Image)
      requires 0 <= ip && ip + 1 < |q.code| && q.code[ip] == TKFUNCTION && Step(q, State()).Next?
      modifies this
      ensures Step(q, old(State())) == Next(State())
    {
      var nparms := q.nparms[q.code[ip + 1]];
      var nargs := stack[|stack| - 1].n;
      Pop();
      var newparmbase := |stack| - 1 - nargs;
      stack := stack[newparmbase + PREV_PARMBASE := Num(parmbase)];
      parmbase := newparmbase;
      FitArguments(nargs, nparms);
      ip := ip + 2;
    }

    method DropDownTo(limit: int)
      requires -1 <= limit
      modifies this`stack
      ensures stack == if |old(stack)| - 1 > limit then old(stack)[..limit + 1] else old(stack)
    {
      ghost var s1 := stack;
      while |stack| - 1 > limit
        invariant |stack| <= |s1| && stack == s1[..|stack|]
        invariant |stack| < |s1| ==> limit <= |stack| - 1
      {
        Pop();
      }
    }

    /** tkreturn: the value goes into the return value cell, and the stack is dropped down to it, first the locals
        that the caller did not supply. The frame's cells are read before they are dropped; the C code reads them
        afterwards, from the memory above the top of the stack. */
    method ReturnFunc(q: Image)
      requires 0 <= ip && ip + 1 < |q.code| && q.code[ip] == TKRETURN && Step(q, State()).Next?
      requires FrameChain(q, stack, parmbase)
      modifies this
      ensures Step(q, old(State())) == Next(State())
    {
      hide FrameChain;
      ReturnInFrame(q, State());
      ChainArgCount(q, stack, parmbase);
      ghost var s0 := stack;
      var ret, prev := stack[parmbase + RETURN_ADDR].n, stack[parmbase + PREV_PARMBASE].n;
      var nargs := stack[parmbase + ARG_CNT].n;
      stack := stack[parmbase + RETURN_VALUE := stack[|stack| - 1]];
      Pop();
      DropDownTo(parmbase + nargs);
      DropDownTo(parmbase + RETURN_VALUE);
      FrameDropped(s0, parmbase, nargs);
      ip := ret;
      parmbase := prev;
    }
  }

  lemma FrameDropped(s: seq<Cell>, parmbase: int, nargs: nat)
    requires 4 <= parmbase < |s| - 1
    ensures
      var s1 := Drop(s[parmbase + RETURN_VALUE := s[|s| - 1]], 1);
      var s2 := if |s1| - 1 > parmbase + nargs then s1[..parmbase + nargs + 1] else s1;
      s2[..parmbase + RETURN_VALUE + 1] == LeaveFunction(s, parmbase)
  {
    var s1 := Drop(s[parmbase + RETURN_VALUE := s[|s| - 1]], 1);
    var s2 := if |s1| - 1 > parmbase + nargs then s1[..parmbase + nargs + 1] else s1;
    var r := s2[..parmbase + RETURN_VALUE + 1];
    assert forall i :: 0 <= i < |r| ==> r[i] == LeaveFunction(s, parmbase)[i];
  }
}
