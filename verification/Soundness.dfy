/**
 The shape of linked code, independent of any request: where jumps go, how long
 the program is, and which registers it reads before writing them.
 */
module Soundness {
  import opened Bpf
  import opened DeviceFilter
  import opened FilterRun
  import opened Linker
  import opened Rules
  import opened Sequences
  import opened Splice
  import opened Words
  import opened Wrappers

  // ---------- Labels, jumps and length ----------

  lemma {:induction false} StartGrows(live: seq<Rule>, j: nat, k: nat)
    requires j < k <= |live|
    ensures Start(live, j) + 2 * (k - j) <= Start(live, k) <= Start(live, j) + 8 * (k - j)
    decreases k - j
  {
    OffsetNext(Shapes(live), j);
    if j + 1 < k {
      StartGrows(live, j + 1, k);
    }
  }

  /** Labels 0..|live| each occur once, at the start of their block, before loading ... */
  lemma LabelsOnce(live: seq<Rule>, orig: seq<Insn>, prefix: string, k: nat, p: nat)
    requires orig != [] && FreshPrefix(prefix, orig) && k <= |live| && p < |Linked(live, orig, prefix)|
    ensures Linked(live, orig, prefix)[p].sym == Some(Label(prefix, k)) <==> p == Start(live, k)
  {
    ChainLabelsOnce(Shapes(live), orig, prefix, k, p);
  }

  lemma ChainLabelsOnce(shapes: seq<Shape>, orig: seq<Insn>, prefix: string, k: nat, p: nat)
    requires NonEmpty(shapes) && orig != [] && FreshPrefix(prefix, orig) && k <= |shapes|
    requires p < |Chain(shapes, orig, prefix)|
    ensures Chain(shapes, orig, prefix)[p].sym == Some(Label(prefix, k)) <==> p == LabelAt(shapes, k)
  {
    LabelPresent(shapes, orig, prefix, k);
    if Chain(shapes, orig, prefix)[p].sym == Some(Label(prefix, k)) {
      LabelUnique(shapes, orig, prefix, k, p);
    }
  }

  /** ... and in order. */
  lemma LabelsInOrder(live: seq<Rule>, j: nat, k: nat)
    requires j < k <= |live|
    ensures 5 <= Start(live, j) < Start(live, k) <= |FilterCode(live)|
  {
    StartGrows(live, j, k);
    FilterLength(live);
    if k < |live| {
      StartGrows(live, k, |live|);
    }
  }

  lemma ShapeJump(shapes: seq<Shape>, tail: Code, j: nat, i: nat)
    requires j < |shapes| && i < |shapes[j]|
    ensures var code, p := Prologue<nat>() + RelBlocks(shapes) + tail, LabelAt(shapes, j) + i;
            && p < LabelAt(shapes, j + 1) <= |Prologue<nat>() + RelBlocks(shapes)|
            && (IsJump(code[p]) ==>
                  p + 1 + code[p].target == LabelAt(shapes, j + 1) && code[p].target < |shapes[j]|)
  {
    ShapeInPlace(shapes, tail, j);
    RelBlocksLength(shapes);
    OffsetMonotone(shapes, j + 1, |shapes|);
    LoadedOpAt(shapes, tail, j, i);
  }

  /** A jump inside block `j` lands on the start of block `j + 1`, at most seven instructions on. */
  lemma JumpsToNextBlock(live: seq<Rule>, tail: Code, j: nat, i: nat)
    requires j < |live| && i < |Block(live[j])| && tail != []
    ensures var code, p := FilterCode(live) + tail, Start(live, j) + i;
            && p < |FilterCode(live)|
            && (IsJump(code[p]) ==>
                  && p + 1 + code[p].target == Start(live, j + 1) < |code|
                  && code[p].target <= 7)
  {
    ShapeJump(Shapes(live), tail, j, i);
  }

  lemma PrologueHasNoJump(live: seq<Rule>, tail: Code, p: nat)
    requires p < 5
    ensures p < |FilterCode(live)| && !IsJump((FilterCode(live) + tail)[p])
  {
    assert FilterCode(live)[p] == Prologue<nat>()[p];
  }

  /** Every position of the filter behind the prologue belongs to one block. */
  lemma FilterPosition(live: seq<Rule>, p: nat) returns (j: nat, i: nat)
    requires 5 <= p < |FilterCode(live)|
    ensures j < |live| && i < |Block(live[j])| && p == Start(live, j) + i
  {
    FilterLength(live);
    j, i := Locate(Shapes(live), p - 5);
  }

  /** Jumps of the filter are strictly forward, in bounds, short, and end at the start of a block. */
  lemma LinkSound(live: seq<Rule>, tail: Code, p: nat)
    requires p < |FilterCode(live)| && tail != [] && IsJump((FilterCode(live) + tail)[p])
    ensures var code := FilterCode(live) + tail;
            && p < p + 1 + code[p].target < |code| && code[p].target <= 7
            && exists j :: 0 < j <= |live| && Start(live, j - 1) <= p && p + 1 + code[p].target == Start(live, j)
  {
    if p < 5 {
      PrologueHasNoJump(live, tail, p);
      assert false;
    } else {
      var j, i := FilterPosition(live, p);
      JumpsToNextBlock(live, tail, j, i);
    }
  }

  /** Five instructions, and two to eight a block. */
  lemma FilterSize(rules: seq<Rule>)
    ensures |FilterCode(Live(rules))| <= 5 + 8 * |rules|
  {
    var live := Live(rules);
    FilterLength(live);
    LiveNoLonger(rules);
    if live != [] {
      StartGrows(live, 0, |live|);
    }
  }

  lemma {:induction false} LiveNoLonger(rules: seq<Rule>)
    ensures |Live(rules)| <= |rules|
  {
    if rules != [] {
      LiveNoLonger(rules[..|rules| - 1]);
    }
  }

  // ---------- Registers ----------

  /** What the prologue makes available. */
  const PREPARED: set<Reg> := {1, 2, 3, 4, 5}

  /** A stretch of tests is safe when both what follows it and, if it can fail, its way out are. */
  predicate SafeThrough(code: Code, p: nat, ops: Shape, end: nat) {
    DefinesBeforeUse(code, p, PREPARED) <==>
    DefinesBeforeUse(code, p + |ops|, PREPARED) && (ops != [] ==> DefinesBeforeUse(code, end, PREPARED))
  }

  lemma GuardSafe(code: Code, p: nat, end: nat, cond: Cond, r: Reg, imm: Operand)
    requires r in PREPARED && imm.Imm?
    requires At(code, p, [Jump(cond, r, imm, ())], end)
    ensures SafeThrough(code, p, [Jump(cond, r, imm, ())], end)
  {
    var ops: Shape := [Jump(cond, r, imm, ())];
    assert code[p + 0] == Retarget(ops[0], end - p - 0 - 1);
    assert PREPARED + Writes(code[p]) == PREPARED;
  }

  lemma AccessSafe(code: Code, p: nat, end: nat, rule: Rule)
    requires At(code, p, AccessTest(rule), end)
    ensures SafeThrough(code, p, AccessTest(rule), end)
  {
    if Partial(rule) {
      var ops := AccessTest(rule);
      assert code[p + 0] == Retarget(ops[0], end - p - 0 - 1);
      assert code[p + 1] == Retarget(ops[1], end - p - 1 - 1);
      assert PREPARED + Writes(code[p]) == PREPARED && PREPARED + Writes(code[p + 1]) == PREPARED;
      AtSplit(code, p, ops[..2], ops[2..], end);
      GuardSafe(code, p + 2, end, JEq, R2, Imm(0));
    }
  }

  lemma KindSafe(code: Code, p: nat, end: nat, rule: Rule)
    requires At(code, p, KindTest(rule), end)
    ensures SafeThrough(code, p, KindTest(rule), end)
  {
    if Typed(rule) {
      GuardSafe(code, p, end, JNE, R2, Imm(KindCode(rule.kind)));
    }
  }

  lemma NumberSafe(code: Code, p: nat, end: nat, number: Option<i64>, r: Reg)
    requires r in PREPARED && At(code, p, NumberTest(number, r), end)
    ensures SafeThrough(code, p, NumberTest(number, r), end)
  {
    if NumberTest(number, r) != [] {
      GuardSafe(code, p, end, JNE, r, NumberTest(number, r)[0].operand);
    }
  }

  lemma AcceptSafe(code: Code, p: nat, end: nat, allow: bool, defined: set<Reg>)
    requires At(code, p, AcceptBlock(allow), end)
    ensures DefinesBeforeUse(code, p, defined)
  {
    assert code[p + 0] == Retarget(AcceptBlock<()>(allow)[0], end - p - 0 - 1);
    assert code[p + 1] == Retarget(AcceptBlock<()>(allow)[1], end - p - 1 - 1);
    assert R0 in defined + Writes(code[p]);
  }

  lemma SafeJoin(code: Code, p: nat, a: Shape, b: Shape, end: nat)
    requires SafeThrough(code, p, a, end) && SafeThrough(code, p + |a|, b, end)
    ensures SafeThrough(code, p, a + b, end)
  {
  }

  lemma FirstTestsSafe(code: Code, p: nat, end: nat, rule: Rule)
    requires At(code, p, FirstTests(rule), end)
    ensures SafeThrough(code, p, FirstTests(rule), end)
  {
    AtSplit(code, p, KindTest(rule), AccessTest(rule), end);
    KindSafe(code, p, end, rule);
    AccessSafe(code, p + |KindTest(rule)|, end, rule);
    SafeJoin(code, p, KindTest(rule), AccessTest(rule), end);
  }

  lemma NumberTestsSafe(code: Code, p: nat, end: nat, rule: Rule)
    requires At(code, p, NumberTests(rule), end)
    ensures SafeThrough(code, p, NumberTests(rule), end)
  {
    var m, n := NumberTest(rule.major, R4), NumberTest(rule.minor, R5);
    AtSplit(code, p, m, n, end);
    NumberSafe(code, p, end, rule.major, R4);
    NumberSafe(code, p + |m|, end, rule.minor, R5);
    SafeJoin(code, p, m, n, end);
  }

  lemma TestsSafe(code: Code, p: nat, end: nat, rule: Rule)
    requires At(code, p, Tests(rule), end)
    ensures SafeThrough(code, p, Tests(rule), end)
  {
    AtSplit(code, p, FirstTests(rule), NumberTests(rule), end);
    FirstTestsSafe(code, p, end, rule);
    NumberTestsSafe(code, p + |FirstTests(rule)|, end, rule);
    SafeJoin(code, p, FirstTests(rule), NumberTests(rule), end);
  }

  /** A block is safe exactly when it tests nothing or the next block is safe. */
  lemma BlockSafe(code: Code, p: nat, rule: Rule, shape: Shape, end: nat)
    requires shape == Block(rule) && At(code, p, shape, end)
    ensures DefinesBeforeUse(code, p, PREPARED) <==> Tests(rule) == [] || DefinesBeforeUse(code, end, PREPARED)
  {
    var tests := Tests(rule);
    AtSplit(code, p, tests, AcceptBlock(rule.allow), end);
    TestsSafe(code, p, end, rule);
    AcceptSafe(code, p + |tests|, end, rule.allow, PREPARED);
  }

  /** From block `j` on, linked code reads nothing it should not. */
  predicate SafeFrom(live: seq<Rule>, tail: Code, j: nat)
    requires j <= |live|
  {
    DefinesBeforeUse(FilterCode(live) + tail, Start(live, j), PREPARED)
  }

  lemma {:induction false} SafeAtEnd(live: seq<Rule>, tail: Code)
    ensures SafeFrom(live, tail, |live|) <==> DefinesBeforeUse(tail, 0, PREPARED)
  {
    FilterLength(live);
    DefinesRelocates(FilterCode(live), tail, 0, PREPARED);
  }

  lemma {:induction false} SafeBlock(live: seq<Rule>, tail: Code, j: nat)
    requires j < |live|
    ensures SafeFrom(live, tail, j) <==> Tests(live[j]) == [] || SafeFrom(live, tail, j + 1)
  {
    ShapeInPlace(Shapes(live), tail, j);
    BlockSafe(FilterCode(live) + tail, Start(live, j), live[j], Shapes(live)[j], Start(live, j + 1));
  }

  lemma {:induction false} ChainSafe(live: seq<Rule>, tail: Code, j: nat)
    requires AllValid(live) && j <= |live|
    ensures SafeFrom(live, tail, j) <==> HasWildcard(live[j..]) || DefinesBeforeUse(tail, 0, PREPARED)
    decreases |live| - j
  {
    if j == |live| {
      SafeAtEnd(live, tail);
    } else {
      SafeBlock(live, tail, j);
      ChainSafe(live, tail, j + 1);
      HasWildcardFront(live, j);
    }
  }

  lemma HasWildcardFront(live: seq<Rule>, j: nat)
    requires j < |live|
    ensures HasWildcard(live[j..]) <==> Wildcard(live[j]) || HasWildcard(live[j + 1..])
  {
    var now, later := live[j..], live[j + 1..];
    assert now[0] == live[j];
    assert forall i :: 0 <= i < |later| ==> later[i] == now[i + 1];
  }

  lemma PrologueSafe(code: Code)
    requires Prologue() <= code
    ensures DefinesBeforeUse(code, 0, {R1}) <==> DefinesBeforeUse(code, 5, PREPARED)
  {
    assert forall i :: 0 <= i < 5 ==> code[i] == Prologue()[i];
    var a, b, d := {R1} + {R2}, {R1} + {R2} + {R3}, {R1} + {R2} + {R3} + {R4};
    assert DefinesBeforeUse(code, 0, {R1}) <==> DefinesBeforeUse(code, 1, a);
    assert DefinesBeforeUse(code, 1, a) <==> DefinesBeforeUse(code, 2, b);
    assert b + {R3} == b;
    assert DefinesBeforeUse(code, 2, b) <==> DefinesBeforeUse(code, 3, b);
    assert DefinesBeforeUse(code, 3, b) <==> DefinesBeforeUse(code, 4, d);
    assert d + {R5} == PREPARED;
  }

  /**
   A linked program reads nothing but R1 before writing it exactly when the filter
   ends in a wildcard, or the old program can do with what the prologue prepares.
   */
  lemma LinkedDefinesBeforeUse(live: seq<Rule>, tail: Code)
    requires AllValid(live)
    ensures DefinesBeforeUse(FilterCode(live) + tail, 0, {R1}) <==>
            HasWildcard(live) || DefinesBeforeUse(tail, 0, PREPARED)
  {
    PrologueSafe(FilterCode(live) + tail);
    ChainSafe(live, tail, 0);
    assert live[0..] == live;
  }

  /** The program made when nothing is attached returns R0 unwritten on some path, unless there is a wildcard. */
  lemma FreshProgram(live: seq<Rule>)
    requires AllValid(live)
    ensures DefinesBeforeUse(FilterCode(live) + [Return], 0, {R1}) <==> HasWildcard(live)
  {
    LinkedDefinesBeforeUse(live, [Return]);
  }
}
