/**
 The part of the BPF machine that device filters run on: the instruction
 formats of RFC 9669, their effect on registers, and whole runs.

 Control only moves forward, so every run ends. A run that leaves the code,
 reads a context field that does not exist, or does arithmetic on the context
 pointer is a fault.
 */
module Bpf {
  import opened Words
  import opened Wrappers

  /** struct bpf_cgroup_dev_ctx: the request being decided. */
  datatype Context = Context(accessType: u32, major: u32, minor: u32) {
    /** Device type: the low half of access_type. */
    function Kind(): u16 { accessType % 0x1_0000 }

    /** Requested access bits: the high half of access_type. */
    function Access(): u16 { accessType / 0x1_0000 }
  }

  type Reg = n: nat | n < 10
  const R0: Reg := 0
  const R1: Reg := 1
  const R2: Reg := 2
  const R3: Reg := 3
  const R4: Reg := 4
  const R5: Reg := 5

  datatype Value = Num(n: u64) | ContextPointer

  const ZERO: Value := Num(0)
  type Regs = s: seq<Value> | |s| == 10
    witness [ZERO, ZERO, ZERO, ZERO, ZERO, ZERO, ZERO, ZERO, ZERO, ZERO]

  datatype Size = Half | Word
  datatype AluOp = Mov | And | RSh
  datatype Operand = Imm(i: i32) | FromReg(r: Reg)
  datatype Cond = JEq | JNE

  /** One instruction; `T` is how a jump names its destination. */
  datatype Op<T> =
    | LoadMem(dst: Reg, src: Reg, offset: nat, size: Size)
    | Alu32(op: AluOp, dst: Reg, operand: Operand)
    | Mov64(dst: Reg, operand: Operand)
    | Jump(cond: Cond, dst: Reg, operand: Operand, target: T)
    | Ja(target: T)
    | Return

  /** Loaded code: a jump holds the number of instructions it skips. */
  type Code = seq<Op<nat>>

  function Retarget<S, T>(op: Op<S>, t: T): Op<T> {
    match op
    case LoadMem(d, s, o, z) => LoadMem(d, s, o, z)
    case Alu32(a, d, s) => Alu32(a, d, s)
    case Mov64(d, s) => Mov64(d, s)
    case Jump(c, d, s, _) => Jump(c, d, s, t)
    case Ja(_) => Ja(t)
    case Return => Return
  }

  predicate IsJump<T>(op: Op<T>) { op.Jump? || op.Ja? }

  // ---------- Effect of one instruction ----------

  /** Section 5.1: an unsigned load, from a little-endian context of three words. */
  function LoadField(ctx: Context, offset: nat, size: Size): Option<u64> {
    var word := if offset / 4 == 0 then ctx.accessType else if offset / 4 == 1 then ctx.major else ctx.minor;
    if offset >= 12 then None
    else if size == Word && offset % 4 == 0 then Some(word)
    else if size == Half && offset % 4 == 0 then Some(word % 0x1_0000)
    else if size == Half && offset % 4 == 2 then Some(word / 0x1_0000)
    else None
  }

  /** Section 4.1: 32-bit arithmetic; the result is zero-extended. */
  function Alu(op: AluOp, x: u32, y: u32): u32 {
    match op
    case Mov => y
    case And => BitAnd(x, y)
    case RSh => ShiftRight(x, y % 32)
  }

  function Operand32(operand: Operand, regs: Regs): Option<u32> {
    match operand
    case Imm(i) => Some(AsWord(i))
    case FromReg(r) => if regs[r].Num? then Some(Low32(regs[r].n)) else None
  }

  function Operand64(operand: Operand, regs: Regs): Value {
    match operand
    case Imm(i) => Num(SignExtend(i))
    case FromReg(r) => regs[r]
  }

  datatype State = State(pc: nat, regs: Regs)
  datatype Outcome = Returned(value: Value) | Fault
  datatype Next = Running(state: State) | Stopped(outcome: Outcome)

  function Step(code: Code, ctx: Context, s: State): Next {
    if s.pc >= |code| then Stopped(Fault)
    else
      match code[s.pc]
      case LoadMem(dst, src, offset, size) =>
        var v := LoadField(ctx, offset, size);
        if s.regs[src].ContextPointer? && v.Some?
        then Running(State(s.pc + 1, s.regs[dst := Num(v.value)]))
        else Stopped(Fault)
      case Alu32(op, dst, operand) =>
        var y := Operand32(operand, s.regs);
        if y.None? || (op != Mov && !s.regs[dst].Num?) then Stopped(Fault)
        else
          var x := if op == Mov then 0 else Low32(s.regs[dst].n);
          Running(State(s.pc + 1, s.regs[dst := Num(Alu(op, x, y.value))]))
      case Mov64(dst, operand) =>
        Running(State(s.pc + 1, s.regs[dst := Operand64(operand, s.regs)]))
      case Jump(cond, dst, operand, target) =>
        // Section 4.3: 64-bit comparison
        var x, y := s.regs[dst], Operand64(operand, s.regs);
        if !x.Num? || !y.Num? then Stopped(Fault)
        else if (x.n == y.n) == (cond == JEq) then Running(State(s.pc + 1 + target, s.regs))
        else Running(State(s.pc + 1, s.regs))
      case Ja(target) => Running(State(s.pc + 1 + target, s.regs))
      case Return => Stopped(Returned(s.regs[R0]))
  }

  /** The whole run. */
  function Run(code: Code, ctx: Context, s: State): Outcome
    decreases if s.pc <= |code| then |code| - s.pc else 0
  {
    match Step(code, ctx, s)
    case Stopped(outcome) => outcome
    case Running(s') => Run(code, ctx, s')
  }

  /** The first `n` steps of a run; a stopped run stays stopped. */
  function After(code: Code, ctx: Context, s: State, n: nat): Next
    decreases n
  {
    if n == 0 then Running(s)
    else
      match Step(code, ctx, s)
      case Stopped(outcome) => Stopped(outcome)
      case Running(s') => After(code, ctx, s', n - 1)
  }

  /** The kernel enters a program with the context in R1 and nothing else of use. */
  predicate Entry(regs: Regs) { regs[R1] == ContextPointer }

  /** A request passes a program when the program returns 1. */
  predicate Allows(code: Code, ctx: Context, regs: Regs) {
    Run(code, ctx, State(0, regs)) == Returned(Num(1))
  }

  // ---------- Registers read and written ----------

  function OperandReads(operand: Operand): set<Reg> {
    if operand.FromReg? then {operand.r} else {}
  }

  function Reads<T>(op: Op<T>): set<Reg> {
    match op
    case LoadMem(_, src, _, _) => {src}
    case Alu32(a, dst, operand) => OperandReads(operand) + if a == Mov then {} else {dst}
    case Mov64(_, operand) => OperandReads(operand)
    case Jump(_, dst, operand, _) => {dst} + OperandReads(operand)
    case Ja(_) => {}
    case Return => {R0}
  }

  function Writes<T>(op: Op<T>): set<Reg> {
    match op
    case LoadMem(dst, _, _, _) => {dst}
    case Alu32(_, dst, _) => {dst}
    case Mov64(dst, _) => {dst}
    case _ => {}
  }

  /**
   On every path from `pc`, no register outside `defined` is read before it is
   written. The kernel's verifier imposes this with `defined` being R1 alone.
   */
  predicate DefinesBeforeUse(code: Code, pc: nat, defined: set<Reg>)
    decreases if pc <= |code| then |code| - pc else 0
  {
    pc < |code| ==>
      var op := code[pc];
      && Reads(op) <= defined
      && (op.Jump? || op.Ja? ==> DefinesBeforeUse(code, pc + 1 + op.target, defined))
      && (!op.Ja? && !op.Return? ==> DefinesBeforeUse(code, pc + 1, defined + Writes(op)))
  }
}
