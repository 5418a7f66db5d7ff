/**
 What a loaded filter computes: the blocks are tried in order, and what one
 block leaves in the scratch register R2 is what the next one takes for the
 device type.
 */
module FilterRun {
  import opened Bpf
  import opened DeviceFilter
  import opened Linker
  import opened Rules
  import opened Sequences
  import opened Splice
  import opened Words
  import opened Wrappers

  // ---------- The interpreter that threads R2 ----------

  predicate KindPasses(rule: Rule, r2: u64) {
    !Typed(rule) || r2 == SignExtend(KindCode(rule.kind))
  }

  predicate AccessPasses(rule: Rule, ctx: Context) {
    !Partial(rule) || BitAnd(ctx.Access(), Mask(rule.access)) != 0
  }

  predicate NumberPasses(number: Option<i64>, actual: u32) {
    number.None? || number.value < 0 || SignExtend(ToInt32(number.value)) == actual
  }

  predicate Accepts(rule: Rule, r2: u64, ctx: Context) {
    && KindPasses(rule, r2) && AccessPasses(rule, ctx)
    && NumberPasses(rule.major, ctx.major) && NumberPasses(rule.minor, ctx.minor)
  }

  /** R2 after a block that was not taken. */
  function Scratch(rule: Rule, r2: u64, access: u16): u64 {
    if KindPasses(rule, r2) && Partial(rule) then BitAnd(access, Mask(rule.access)) else r2
  }

  /** The verdict of the first accepting block. */
  function Thread(live: seq<Rule>, r2: u64, ctx: Context): Option<bool> {
    if live == [] then None
    else if Accepts(live[0], r2, ctx) then Some(live[0].allow)
    else Thread(live[1..], Scratch(live[0], r2, ctx.Access()), ctx)
  }

  /** R2 when every block has been passed over. */
  function Left(live: seq<Rule>, r2: u64, access: u16): u64 {
    if live == [] then r2 else Left(live[1..], Scratch(live[0], r2, access), access)
  }

  // ---------- One block ----------

  /** The registers every block relies on. */
  predicate Loaded(regs: Regs, ctx: Context) {
    && regs[R2].Num?
    && regs[R3] == Num(ctx.Access())
    && regs[R4] == Num(ctx.major)
    && regs[R5] == Num(ctx.minor)
  }

  /** The registers after a block has been passed over. */
  function Passed(rule: Rule, ctx: Context, regs: Regs): Regs
    requires Loaded(regs, ctx)
  {
    regs[R2 := Num(Scratch(rule, regs[R2].n, ctx.Access()))]
  }

  predicate Takes(rule: Rule, ctx: Context, regs: Regs)
    requires Loaded(regs, ctx)
  {
    Accepts(rule, regs[R2].n, ctx)
  }

  function Answer(allow: bool): Outcome { Returned(Num(if allow then 1 else 0)) }

  /** `ops` stands at `p`, with its jumps leading to `end`. */
  predicate At(code: Code, p: nat, ops: Shape, end: nat) {
    && p + |ops| <= end <= |code|
    && forall i :: 0 <= i < |ops| ==> code[p + i] == Retarget(ops[i], end - p - i - 1)
  }

  lemma AtSplit(code: Code, p: nat, a: Shape, b: Shape, end: nat)
    requires At(code, p, a + b, end)
    ensures At(code, p, a, end) && At(code, p + |a|, b, end)
  {
    forall i | 0 <= i < |a| ensures code[p + i] == Retarget(a[i], end - p - i - 1) {
      assert (a + b)[i] == a[i];
    }
    forall i | 0 <= i < |b| ensures code[p + |a| + i] == Retarget(b[i], end - (p + |a|) - i - 1) {
      assert (a + b)[|a| + i] == b[i];
      assert code[p + (|a| + i)] == Retarget((a + b)[|a| + i], end - p - (|a| + i) - 1);
    }
  }

  lemma RunKindTest(code: Code, p: nat, end: nat, rule: Rule, ctx: Context, regs: Regs)
    requires At(code, p, KindTest(rule), end) && Loaded(regs, ctx)
    ensures Run(code, ctx, State(p, regs)) ==
            Run(code, ctx, State(if KindPasses(rule, regs[R2].n) then p + |KindTest(rule)| else end, regs))
  {
    if Typed(rule) {
      assert code[p + 0] == Retarget(KindTest(rule)[0], end - p - 0 - 1);
    }
  }

  lemma RunNumberTest(code: Code, p: nat, end: nat, number: Option<i64>, r: Reg, actual: u32, ctx: Context, regs: Regs)
    requires At(code, p, NumberTest(number, r), end) && regs[r] == Num(actual)
    ensures Run(code, ctx, State(p, regs)) ==
            Run(code, ctx, State(if NumberPasses(number, actual) then p + |NumberTest(number, r)| else end, regs))
  {
    if NumberTest(number, r) != [] {
      assert code[p + 0] == Retarget(NumberTest(number, r)[0], end - p - 0 - 1);
    }
  }

  lemma RunStep(code: Code, ctx: Context, s: State)
    ensures Step(code, ctx, s).Running? ==> Run(code, ctx, s) == Run(code, ctx, Step(code, ctx, s).state)
  {
  }

  /** The access test leaves the overlap in R2. */
  lemma RunAccessTest(code: Code, p: nat, end: nat, rule: Rule, ctx: Context, regs: Regs)
    requires At(code, p, AccessTest(rule), end) && Loaded(regs, ctx)
    ensures Run(code, ctx, State(p, regs)) ==
            Run(code, ctx,
                State(if AccessPasses(rule, ctx) then p + |AccessTest(rule)| else end,
                      if Partial(rule) then regs[R2 := Num(BitAnd(ctx.Access(), Mask(rule.access)))] else regs))
  {
    if Partial(rule) {
      var ops := AccessTest(rule);
      assert code[p + 0] == Retarget(ops[0], end - p - 0 - 1);
      assert code[p + 1] == Retarget(ops[1], end - p - 1 - 1);
      assert code[p + 2] == Retarget(ops[2], end - p - 2 - 1);
      var one := regs[R2 := Num(ctx.Access())];
      assert Step(code, ctx, State(p, regs)) == Running(State(p + 1, one));
      var two := one[R2 := Num(BitAnd(ctx.Access(), Mask(rule.access)))];
      assert Step(code, ctx, State(p + 1, one)) == Running(State(p + 2, two));
      assert two == regs[R2 := Num(BitAnd(ctx.Access(), Mask(rule.access)))];
      RunStep(code, ctx, State(p, regs));
      RunStep(code, ctx, State(p + 1, one));
      RunStep(code, ctx, State(p + 2, two));
    }
  }

  lemma RunAccept(code: Code, p: nat, end: nat, allow: bool, ctx: Context, regs: Regs)
    requires At(code, p, AcceptBlock(allow), end)
    ensures Run(code, ctx, State(p, regs)) == Answer(allow)
  {
    assert code[p + 0] == Retarget(AcceptBlock<()>(allow)[0], end - p - 0 - 1);
    assert code[p + 1] == Retarget(AcceptBlock<()>(allow)[1], end - p - 1 - 1);
    var value := Num(if allow then 1 else 0);
    assert Step(code, ctx, State(p, regs)) == Running(State(p + 1, regs[R0 := value]));
    assert Step(code, ctx, State(p + 1, regs[R0 := value])) == Stopped(Returned(value));
  }

  lemma {:induction false} RunNumberTests(code: Code, p: nat, end: nat, rule: Rule, ctx: Context, regs: Regs)
    requires At(code, p, NumberTests(rule), end) && Loaded(regs, ctx)
    ensures var pass := NumberPasses(rule.major, ctx.major) && NumberPasses(rule.minor, ctx.minor);
            var skip := |NumberTests(rule)|;
            Run(code, ctx, State(p, regs)) == Run(code, ctx, State(if pass then p + skip else end, regs))
  {
    var m, n := NumberTest(rule.major, R4), NumberTest(rule.minor, R5);
    AtSplit(code, p, m, n, end);
    RunNumberTest(code, p, end, rule.major, R4, ctx.major, ctx, regs);
    RunNumberTest(code, p + |m|, end, rule.minor, R5, ctx.minor, ctx, regs);
  }

  lemma {:induction false} RunFirstTests(code: Code, p: nat, end: nat, rule: Rule, ctx: Context, regs: Regs)
    requires At(code, p, FirstTests(rule), end) && Loaded(regs, ctx)
    ensures var pass := KindPasses(rule, regs[R2].n) && AccessPasses(rule, ctx);
            var skip := |FirstTests(rule)|;
            Run(code, ctx, State(p, regs)) ==
            Run(code, ctx, State(if pass then p + skip else end, Passed(rule, ctx, regs)))
  {
    AtSplit(code, p, KindTest(rule), AccessTest(rule), end);
    RunKindTest(code, p, end, rule, ctx, regs);
    if KindPasses(rule, regs[R2].n) {
      RunAccessTest(code, p + |KindTest(rule)|, end, rule, ctx, regs);
    }
    assert regs == regs[R2 := regs[R2]];
  }

  lemma {:induction false} RunTests(code: Code, p: nat, end: nat, rule: Rule, ctx: Context, regs: Regs)
    requires At(code, p, Tests(rule), end) && Loaded(regs, ctx)
    ensures Run(code, ctx, State(p, regs)) ==
            Run(code, ctx, State(if Takes(rule, ctx, regs) then p + |Tests(rule)| else end, Passed(rule, ctx, regs)))
  {
    AtSplit(code, p, FirstTests(rule), NumberTests(rule), end);
    RunFirstTests(code, p, end, rule, ctx, regs);
    RunNumberTests(code, p + |FirstTests(rule)|, end, rule, ctx, Passed(rule, ctx, regs));
  }

  /** A block decides the request, or hands over to its end with R2 as left by its tests. */
  lemma {:induction false} RunBlock(code: Code, p: nat, rule: Rule, shape: Shape, ctx: Context, regs: Regs)
    requires shape == Block(rule) && At(code, p, shape, p + |shape|) && Loaded(regs, ctx)
    ensures Run(code, ctx, State(p, regs)) ==
            if Takes(rule, ctx, regs) then Answer(rule.allow)
            else Run(code, ctx, State(p + |shape|, Passed(rule, ctx, regs)))
  {
    var end := p + |shape|;
    AtSplit(code, p, Tests(rule), AcceptBlock(rule.allow), end);
    RunTests(code, p, end, rule, ctx, regs);
    if Takes(rule, ctx, regs) {
      RunAccept(code, p + |Tests(rule)|, end, rule.allow, ctx, Passed(rule, ctx, regs));
    }
  }

  // ---------- The whole filter ----------

  /** Where block `j` of the loaded filter starts. */
  function Start(live: seq<Rule>, j: nat): nat
    requires j <= |live|
  {
    LabelAt(Shapes(live), j)
  }

  lemma FilterLength(live: seq<Rule>)
    ensures |FilterCode(live)| == Start(live, |live|)
  {
    RelBlocksLength(Shapes(live));
  }

  lemma ShapeInPlace(shapes: seq<Shape>, tail: Code, j: nat)
    requires j < |shapes|
    ensures LabelAt(shapes, j + 1) == LabelAt(shapes, j) + |shapes[j]|
    ensures At(Prologue<nat>() + RelBlocks(shapes) + tail, LabelAt(shapes, j), shapes[j], LabelAt(shapes, j + 1))
  {
    OffsetNext(shapes, j);
    OffsetMonotone(shapes, j + 1, |shapes|);
    RelBlocksLength(shapes);
    forall i | 0 <= i < |shapes[j]|
      ensures (Prologue<nat>() + RelBlocks(shapes) + tail)[LabelAt(shapes, j) + i]
              == Retarget(shapes[j][i], |shapes[j]| - i - 1)
    {
      LoadedOpAt(shapes, tail, j, i);
    }
  }

  /** The outcome of a run that has reached block `j`. */
  function RunFrom(live: seq<Rule>, tail: Code, j: nat, ctx: Context, regs: Regs): Outcome
    requires j <= |live|
  {
    Run(FilterCode(live) + tail, ctx, State(Start(live, j), regs))
  }

  /** Block `j` decides, or control reaches block `j + 1`. */
  lemma {:induction false} RunBlockOf(live: seq<Rule>, tail: Code, j: nat, ctx: Context, regs: Regs)
    requires j < |live| && Loaded(regs, ctx)
    ensures RunFrom(live, tail, j, ctx, regs) ==
            if Takes(live[j], ctx, regs) then Answer(live[j].allow)
            else RunFrom(live, tail, j + 1, ctx, Passed(live[j], ctx, regs))
  {
    RunShapeOf(Shapes(live), tail, j, live[j], ctx, regs);
  }

  lemma {:induction false} RunShapeOf(shapes: seq<Shape>, tail: Code, j: nat, rule: Rule, ctx: Context, regs: Regs)
    requires j < |shapes| && shapes[j] == Block(rule) && Loaded(regs, ctx)
    ensures var code := Prologue<nat>() + RelBlocks(shapes) + tail;
            Run(code, ctx, State(LabelAt(shapes, j), regs)) ==
            if Takes(rule, ctx, regs) then Answer(rule.allow)
            else Run(code, ctx, State(LabelAt(shapes, j + 1), Passed(rule, ctx, regs)))
  {
    ShapeInPlace(shapes, tail, j);
    RunBlock(Prologue<nat>() + RelBlocks(shapes) + tail, LabelAt(shapes, j), rule, shapes[j], ctx, regs);
  }

  /** The registers after all blocks from `j` on have been passed over. */
  function PassedAll(live: seq<Rule>, ctx: Context, regs: Regs): Regs
    requires Loaded(regs, ctx)
  {
    regs[R2 := Num(Left(live, regs[R2].n, ctx.Access()))]
  }

  lemma {:induction false} RunBlocks(live: seq<Rule>, tail: Code, j: nat, ctx: Context, regs: Regs)
    requires j <= |live| && Loaded(regs, ctx)
    ensures var v := Thread(live[j..], regs[R2].n, ctx);
            RunFrom(live, tail, j, ctx, regs) ==
            if v.Some? then Answer(v.value) else RunFrom(live, tail, |live|, ctx, PassedAll(live[j..], ctx, regs))
    decreases |live| - j
  {
    if j == |live| {
      assert regs == regs[R2 := regs[R2]];
    } else {
      RunBlockOf(live, tail, j, ctx, regs);
      var after := Passed(live[j], ctx, regs);
      RunBlocks(live, tail, j + 1, ctx, after);
      assert live[j..][1..] == live[j + 1..];
      assert PassedAll(live[j + 1..], ctx, after) == PassedAll(live[j..], ctx, regs);
    }
  }

  /** The registers after the prologue. */
  function Unpacked(regs: Regs, ctx: Context): Regs {
    regs[R2 := Num(ctx.Kind())][R3 := Num(ctx.Access())][R4 := Num(ctx.major)][R5 := Num(ctx.minor)]
  }

  lemma RunLoad(code: Code, ctx: Context, p: nat, dst: Reg, offset: nat, size: Size, regs: Regs)
    requires p < |code| && code[p] == LoadMem(dst, R1, offset, size)
    requires Entry(regs) && LoadField(ctx, offset, size).Some?
    ensures Run(code, ctx, State(p, regs)) ==
            Run(code, ctx, State(p + 1, regs[dst := Num(LoadField(ctx, offset, size).value)]))
  {
  }

  lemma ShiftedWord(word: u32, by16: i32)
    requires by16 == 16
    ensures Alu(RSh, Low32(word), AsWord(by16)) == word / 0x1_0000
  {
    var n := AsWord(by16) % 32;
    assert n == 16 && Low32(word) == word;
    ShiftRight16(word, n);
  }

  /** Shifting R3 right by sixteen leaves the requested access. */
  lemma RunShift(code: Code, ctx: Context, p: nat, by16: i32, regs: Regs)
    requires by16 == 16
    requires p < |code| && code[p] == Alu32(RSh, R3, Imm(by16)) && regs[R3] == Num(ctx.accessType)
    ensures Run(code, ctx, State(p, regs)) == Run(code, ctx, State(p + 1, regs[R3 := Num(ctx.Access())]))
  {
    var shifted := Alu(RSh, Low32(ctx.accessType), AsWord(by16));
    ShiftedWord(ctx.accessType, by16);
    assert Step(code, ctx, State(p, regs)) == Running(State(p + 1, regs[R3 := Num(shifted)]));
  }

  lemma RunPrologue(code: Code, ctx: Context, regs: Regs)
    requires Prologue() <= code && Entry(regs)
    ensures Run(code, ctx, State(0, regs)) == Run(code, ctx, State(5, Unpacked(regs, ctx)))
  {
    var a := regs[R2 := Num(ctx.Kind())];
    var b := a[R3 := Num(ctx.accessType)];
    var c := a[R3 := Num(ctx.Access())];
    var d := c[R4 := Num(ctx.major)];
    assert forall i :: 0 <= i < 5 ==> code[i] == Prologue()[i];
    RunLoad(code, ctx, 0, R2, 0, Half, regs);
    RunLoad(code, ctx, 1, R3, 0, Word, a);
    RunShift(code, ctx, 2, 16, b);
    assert b[R3 := Num(ctx.Access())] == c;
    RunLoad(code, ctx, 3, R4, 4, Word, c);
    RunLoad(code, ctx, 4, R5, 8, Word, d);
  }

  /** What the old program finds in the registers when no block accepts. */
  function HandedOver(live: seq<Rule>, ctx: Context, regs: Regs): Regs {
    Unpacked(regs, ctx)[R2 := Num(Left(live, ctx.Kind(), ctx.Access()))]
  }

  /**
   Exactly what a linked program does, for any rules, request, old code and entry
   registers: the threaded verdict, or else the old code run on its own from the
   registers handed over.
   */
  lemma {:induction false} FilterRefinesThread(live: seq<Rule>, orig: Code, ctx: Context, regs: Regs)
    requires Entry(regs)
    ensures var v := Thread(live, ctx.Kind(), ctx);
            Run(FilterCode(live) + orig, ctx, State(0, regs)) ==
            if v.Some? then Answer(v.value) else Run(orig, ctx, State(0, HandedOver(live, ctx, regs)))
  {
    RunToTheEnd(live, orig, ctx, regs);
    RunRelocates(FilterCode(live), orig, ctx, State(0, HandedOver(live, ctx, regs)));
  }

  lemma {:induction false} RunToTheEnd(live: seq<Rule>, tail: Code, ctx: Context, regs: Regs)
    requires Entry(regs)
    ensures var v, code := Thread(live, ctx.Kind(), ctx), FilterCode(live) + tail;
            Run(code, ctx, State(0, regs)) ==
            if v.Some? then Answer(v.value)
            else Run(code, ctx, State(|FilterCode(live)|, HandedOver(live, ctx, regs)))
  {
    RunPrologue(FilterCode(live) + tail, ctx, regs);
    FilterLength(live);
    RunBlocks(live, tail, 0, ctx, Unpacked(regs, ctx));
    assert live[0..] == live;
  }
}
