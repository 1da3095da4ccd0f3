/** The zcode interpreter of wak: one value stack that holds globals, call frames and temporaries. */
module WakMachine {
  import opened CTypes
  import opened WakLanguage

  const TKVAR := 4
  const TKNUMBER := 5
  const TKFUNC := 8
  const TKNOT := 22
  const TKMUL := 23
  const TKPLUS := 26
  const TKMINUS := 27
  const TKLT := 29
  const TKLE := 30
  const TKNE := 31
  const TKEQ := 32
  const TKGT := 33
  const TKGE := 34
  const TKAND := 37
  const TKOR := 38
  const TKTERNIF := 39
  const TKTERNELSE := 40
  const TKASGN := 47
  const TKIF := 53
  const TKELSE := 54
  const TKWHILE := 55
  const TKBREAK := 58
  const TKCONTINUE := 59
  const TKFUNCTION := 61
  const TKRETURN := 62
  const TKPRINT := 66
  const OPVARREF := 97
  const OPDROP := 101
  const OPNOTNOT := 103
  const OPNEGATE := 108
  const OPJUMP := 109
  const OPPREPCALL := 112
  const OPQUIT := 117

  // frame layout relative to parmbase
  const RETURN_VALUE := -4
  const RETURN_ADDR := -3
  const PREV_PARMBASE := -2
  const ARG_CNT := -1

  function Opcode(op: BinaryOp): int {
    match op
    case Plus => TKPLUS
    case Minus => TKMINUS
    case Mul => TKMUL
    case Lt => TKLT
    case Le => TKLE
    case Ne => TKNE
    case Eq => TKEQ
    case Gt => TKGT
    case Ge => TKGE
  }

  /** A stack cell holds a number or a reference to a variable. */
  datatype Cell = Num(n: int) | Ref(slot: int)

  /** What does not change in a run: code, literals, address and parameter count of the functions, number of globals. */
  datatype Image = Image(code: seq<int>, literals: seq<int>, addrs: seq<int>, nparms: seq<nat>, globals: nat)

  datatype Machine = Machine(ip: int, stack: seq<Cell>, parmbase: int, out: seq<int>)

  datatype StepResult = Next(m: Machine) | Halt | Stuck

  /** The place of a variable on the stack. */
  function Place(parmbase: int, slot: int): int {
    if slot < 0 then parmbase - slot else slot
  }

  function Top(s: seq<Cell>): Cell
    requires |s| > 0
  {
    s[|s| - 1]
  }

  function Drop(s: seq<Cell>, k: nat): seq<Cell>
    requires k <= |s|
  {
    s[..|s| - k]
  }

  function JumpTarget(ip: int, op2: int): int {
    ip + 2 + op2
  }

  function StepBinary(m: Machine, op: BinaryOp): StepResult {
    var s := m.stack;
    if |s| >= 2 && s[|s| - 1].Num? && s[|s| - 2].Num? then
      Next(m.(ip := m.ip + 1, stack := Drop(s, 2) + [Num(Apply(op, s[|s| - 2].n, s[|s| - 1].n))]))
    else Stuck
  }

  function BinaryOf(op: int): (r: seq<BinaryOp>) {
    if op == TKPLUS then [Plus] else if op == TKMINUS then [Minus] else if op == TKMUL then [Mul]
    else if op == TKLT then [Lt] else if op == TKLE then [Le] else if op == TKNE then [Ne]
    else if op == TKEQ then [Eq] else if op == TKGT then [Gt] else if op == TKGE then [Ge] else []
  }

  /** Opcodes that consume or replace the number on top of the stack. */
  function StepNumber(code: seq<int>, m: Machine, op: int, n: int): StepResult
    requires 0 <= m.ip < |code| && |m.stack| > 0
  {
    var s := m.stack;
    var rest := Drop(s, 1);
    var op2 := if m.ip + 1 < |code| then code[m.ip + 1] else 0;
    if op == TKNOT then Next(m.(ip := m.ip + 1, stack := rest + [Num(Truth(n == 0))]))
    else if op == OPNOTNOT then Next(m.(ip := m.ip + 1, stack := rest + [Num(Truth(n != 0))]))
    else if op == OPNEGATE then Next(m.(ip := m.ip + 1, stack := rest + [Num(-n)]))
    else if op == TKAND then
      if n != 0 then Next(m.(ip := m.ip + 2, stack := rest))
      else Next(m.(ip := JumpTarget(m.ip, op2), stack := rest + [Num(0)]))
    else if op == TKOR then
      if n == 0 then Next(m.(ip := m.ip + 2, stack := rest))
      else Next(m.(ip := JumpTarget(m.ip, op2), stack := rest + [Num(1)]))
    else if op == TKIF || op == TKTERNIF then
      Next(m.(ip := if n == 0 then JumpTarget(m.ip, op2) else m.ip + 2, stack := rest))
    else if op == TKWHILE then
      Next(m.(ip := if n != 0 then JumpTarget(m.ip, op2) else m.ip + 2, stack := rest))
    else if op == OPDROP then Next(m.(ip := m.ip + 1, stack := rest))
    else if op == TKPRINT then
      // one argument, to standard output
      if op2 == 1 && m.ip + 2 < |code| && code[m.ip + 2] == 0 then
        Next(m.(ip := m.ip + 3, stack := rest, out := m.out + [n]))
      else Stuck
    else if op == TKASGN then
      if |s| >= 2 && s[|s| - 2].Ref? && 0 <= Place(m.parmbase, s[|s| - 2].slot) < |s| - 2 then
        Next(m.(ip := m.ip + 1,
                stack := Drop(s, 2)[Place(m.parmbase, s[|s| - 2].slot) := Num(n)] + [Num(n)]))
      else Stuck
    else Stuck
  }

  /** Entry of a function: the pushed argument count is popped, the frame gets exactly nparms parameters. */
  function EnterFunction(s: seq<Cell>, parmbase: int, nparms: nat): (r: seq<Cell>)
    requires |s| > 0 && s[|s| - 1].Num? && 2 <= |s| - 2 - s[|s| - 1].n && s[|s| - 1].n >= 0
  {
    var nargs := s[|s| - 1].n;
    var base := |s| - 2 - nargs;
    var s1 := Drop(s, 1)[base + PREV_PARMBASE := Num(parmbase)];
    if nargs > nparms then Drop(s1, nargs - nparms) else s1 + seq(nparms - nargs, _ => Num(0))
  }

  /** Return: the value takes the place of the frame, down to the return value cell. */
  function LeaveFunction(s: seq<Cell>, parmbase: int): (r: seq<Cell>)
    requires |s| > 0 && 4 <= parmbase < |s| - 1
  {
    s[..parmbase + RETURN_VALUE] + [Top(s)]
  }

  function Step(q: Image, m: Machine): StepResult {
    var s := m.stack;
    if !(0 <= m.ip < |q.code|) then Stuck
    else
      var op := q.code[m.ip];
      var op2 := if m.ip + 1 < |q.code| then q.code[m.ip + 1] else 0;
      if op == OPQUIT then Halt
      else if op == TKNUMBER then
        if 0 <= op2 < |q.literals| then Next(m.(ip := m.ip + 2, stack := s + [Num(q.literals[op2])])) else Stuck
      else if op == TKVAR then
        if 0 <= Place(m.parmbase, op2) < |s| then
          Next(m.(ip := m.ip + 2, stack := s + [s[Place(m.parmbase, op2)]]))
        else Stuck
      else if op == OPVARREF then Next(m.(ip := m.ip + 2, stack := s + [Ref(op2)]))
      else if op == OPJUMP || op == TKELSE || op == TKTERNELSE || op == TKBREAK || op == TKCONTINUE then
        Next(m.(ip := JumpTarget(m.ip, op2)))
      else if op == OPPREPCALL then
        Next(m.(ip := m.ip + 2, stack := s + [Num(0), Num(0), Num(0), Num(0), Num(op2)]))
      else if op == TKFUNC then
        var base := |s| - 1 - op2;
        if 4 <= base < |s| && s[base].Num? && 0 <= s[base].n < |q.addrs| then
          Next(m.(ip := q.addrs[s[base].n],
                  stack := s[base + RETURN_ADDR := Num(m.ip + 2)][base + ARG_CNT := Num(op2)] + [Num(op2)]))
        else Stuck
      else if op == TKFUNCTION then
        if |s| > 0 && s[|s| - 1].Num? && 2 <= |s| - 2 - s[|s| - 1].n && s[|s| - 1].n >= 0 && 0 <= op2 < |q.nparms| then
          Next(m.(ip := m.ip + 2, stack := EnterFunction(s, m.parmbase, q.nparms[op2]),
                  parmbase := |s| - 2 - s[|s| - 1].n))
        else Stuck
      else if op == TKRETURN then
        if |s| > 0 && 4 <= m.parmbase < |s| - 1 && s[m.parmbase + RETURN_ADDR].Num?
            && s[m.parmbase + PREV_PARMBASE].Num?
        then
          Next(m.(ip := s[m.parmbase + RETURN_ADDR].n, stack := LeaveFunction(s, m.parmbase),
                  parmbase := s[m.parmbase + PREV_PARMBASE].n))
        else Stuck
      else if BinaryOf(op) != [] then StepBinary(m, BinaryOf(op)[0])
      else if |s| > 0 && s[|s| - 1].Num? then StepNumber(q.code, m, op, s[|s| - 1].n)
      else Stuck
  }
}
