/**
 Code moved behind other code runs as before, and code that defines registers
 before using them does not notice what the registers held on entry.
 */
module Splice {
  import opened Bpf

  // ---------- Relocation ----------

  function Shift(n: Next, dist: nat): Next {
    match n
    case Running(s) => Running(State(s.pc + dist, s.regs))
    case Stopped(o) => Stopped(o)
  }

  lemma StepRelocates(pre: Code, code: Code, ctx: Context, s: State)
    ensures Step(pre + code, ctx, State(|pre| + s.pc, s.regs)) == Shift(Step(code, ctx, s), |pre|)
  {
    if s.pc < |code| {
      assert (pre + code)[|pre| + s.pc] == code[s.pc];
    }
  }

  lemma {:induction false} RunRelocates(pre: Code, code: Code, ctx: Context, s: State)
    ensures Run(pre + code, ctx, State(|pre| + s.pc, s.regs)) == Run(code, ctx, s)
    decreases if s.pc <= |code| then |code| - s.pc else 0
  {
    StepRelocates(pre, code, ctx, s);
    var next := Step(code, ctx, s);
    if next.Running? {
      RunRelocates(pre, code, ctx, next.state);
    }
  }

  lemma {:induction false} DefinesRelocates(pre: Code, code: Code, pc: nat, defined: set<Reg>)
    ensures DefinesBeforeUse(pre + code, |pre| + pc, defined) == DefinesBeforeUse(code, pc, defined)
    decreases if pc <= |code| then |code| - pc else 0
  {
    if pc < |code| {
      var op := code[pc];
      assert (pre + code)[|pre| + pc] == op;
      if op.Jump? || op.Ja? {
        DefinesRelocates(pre, code, pc + 1 + op.target, defined);
      }
      DefinesRelocates(pre, code, pc + 1, defined + Writes(op));
    }
  }

  // ---------- Non-interference ----------

  predicate Agree(a: Regs, b: Regs, on: set<Reg>) {
    forall r :: r in on ==> a[r] == b[r]
  }

  /** One step from agreeing registers: the same stop, or the same next position and agreement on more. */
  lemma StepAgrees(code: Code, ctx: Context, pc: nat, a: Regs, b: Regs, defined: set<Reg>)
    requires DefinesBeforeUse(code, pc, defined) && Agree(a, b, defined)
    ensures var x, y := Step(code, ctx, State(pc, a)), Step(code, ctx, State(pc, b));
            && (x.Stopped? ==> x == y)
            && (x.Running? ==>
                  && y.Running? && x.state.pc == y.state.pc
                  && Agree(x.state.regs, y.state.regs, defined + Writes(code[pc]))
                  && DefinesBeforeUse(code, x.state.pc, defined + Writes(code[pc])))
  {
    if pc < |code| {
      var op := code[pc];
      assert Reads(op) <= defined;
      if op.Jump? || op.Ja? {
        assert defined + Writes(op) == defined;
      }
      match op
      case LoadMem(dst, src, _, _) => assert src in Reads(op);
      case Alu32(o, dst, operand) =>
        assert o != Mov ==> dst in Reads(op);
        assert operand.FromReg? ==> operand.r in Reads(op);
      case Mov64(_, operand) => assert operand.FromReg? ==> operand.r in Reads(op);
      case Jump(_, dst, operand, _) =>
        assert dst in Reads(op);
        assert operand.FromReg? ==> operand.r in Reads(op);
      case Ja(_) =>
      case Return => assert R0 in Reads(op);
    }
  }

  lemma {:induction false} RunAgrees(code: Code, ctx: Context, pc: nat, a: Regs, b: Regs, defined: set<Reg>)
    requires DefinesBeforeUse(code, pc, defined) && Agree(a, b, defined)
    ensures Run(code, ctx, State(pc, a)) == Run(code, ctx, State(pc, b))
    decreases if pc <= |code| then |code| - pc else 0
  {
    StepAgrees(code, ctx, pc, a, b, defined);
    var x, y := Step(code, ctx, State(pc, a)), Step(code, ctx, State(pc, b));
    if x.Running? {
      RunAgrees(code, ctx, x.state.pc, x.state.regs, y.state.regs, defined + Writes(code[pc]));
    }
  }

  lemma {:induction false} DefinesMonotone(code: Code, pc: nat, some: set<Reg>, more: set<Reg>)
    requires some <= more && DefinesBeforeUse(code, pc, some)
    ensures DefinesBeforeUse(code, pc, more)
    decreases if pc <= |code| then |code| - pc else 0
  {
    if pc < |code| {
      var op := code[pc];
      if op.Jump? || op.Ja? {
        DefinesMonotone(code, pc + 1 + op.target, some, more);
      }
      if !op.Ja? && !op.Return? {
        DefinesMonotone(code, pc + 1, some + Writes(op), more + Writes(op));
      }
    }
  }

  /** Same position relative to the program, or the same stop. */
  predicate Lockstep(alone: Next, spliced: Next, dist: nat) {
    match alone
    case Stopped(o) => spliced == Stopped(o)
    case Running(s) => spliced.Running? && spliced.state.pc == dist + s.pc
  }

  /**
   Step for step: behind any prefix, entered with any registers that agree on what
   the program may read first, a program takes the same path and stops with the
   same outcome as on its own.
   */
  lemma {:induction false} SplicedRunsInLockstep(pre: Code, code: Code, ctx: Context, pc: nat, a: Regs, b: Regs,
                                                 defined: set<Reg>, n: nat)
    requires DefinesBeforeUse(code, pc, defined) && Agree(a, b, defined)
    ensures Lockstep(After(code, ctx, State(pc, a), n), After(pre + code, ctx, State(|pre| + pc, b), n), |pre|)
    decreases n
  {
    StepRelocates(pre, code, ctx, State(pc, b));
    if n > 0 {
      StepAgrees(code, ctx, pc, a, b, defined);
      var x, y := Step(code, ctx, State(pc, a)), Step(code, ctx, State(pc, b));
      if x.Running? {
        SplicedRunsInLockstep(pre, code, ctx, x.state.pc, x.state.regs, y.state.regs,
                              defined + Writes(code[pc]), n - 1);
      }
    }
  }

  // ---------- Runs end ----------

  /** Every step goes forward. */
  lemma StepForward(code: Code, ctx: Context, s: State)
    ensures Step(code, ctx, s).Running? ==> s.pc < Step(code, ctx, s).state.pc
  {
  }

  /** A run stops within as many steps as there are instructions ahead, and one more to leave the code. */
  lemma {:induction false} RunsEnd(code: Code, ctx: Context, s: State, n: nat)
    requires n > |code| - s.pc && n > 0
    ensures After(code, ctx, s, n) == Stopped(Run(code, ctx, s))
    decreases n
  {
    var next := Step(code, ctx, s);
    if next.Running? {
      StepForward(code, ctx, s);
      RunsEnd(code, ctx, next.state, n - 1);
    }
  }
}
