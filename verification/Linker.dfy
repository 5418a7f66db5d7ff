/**
 Symbolic labels become distances. Linking a filter in front of a program yields
 the prologue, the blocks with self-contained forward jumps, and the old code
 exactly as it would have been on its own.
 */
module Linker {
  import opened Bpf
  import opened Decimal
  import opened DeviceFilter
  import opened Rules
  import opened Sequences
  import opened Wrappers

  datatype LinkError = DuplicateSymbol | Unresolved

  predicate DistinctSyms(insts: seq<Insn>) {
    forall i, j :: 0 <= i < j < |insts| && insts[i].sym.Some? ==> insts[i].sym != insts[j].sym
  }

  /** Index of the first instruction at or after `from` that carries the symbol, or the length. */
  function FindSym(insts: seq<Insn>, sym: string, from: nat): (p: nat)
    requires from <= |insts|
    ensures from <= p <= |insts|
    ensures p < |insts| ==> insts[p].sym == Some(sym)
    ensures forall j :: from <= j < p ==> insts[j].sym != Some(sym)
    decreases |insts| - from
  {
    if from == |insts| || insts[from].sym == Some(sym) then from else FindSym(insts, sym, from + 1)
  }

  function TargetOf(op: Op<Target>): Option<Target> {
    if op.Jump? || op.Ja? then Some(op.target) else None
  }

  /** A jump to a label needs that label further on. */
  predicate Resolvable(insts: seq<Insn>, i: nat)
    requires i < |insts|
  {
    var t := TargetOf(insts[i].op);
    t.Some? && t.value.Goto? ==>
      var p := FindSym(insts, t.value.sym, 0);
      i < p < |insts|
  }

  function ResolveOp(insts: seq<Insn>, i: nat): Op<nat>
    requires i < |insts| && Resolvable(insts, i)
  {
    var t := TargetOf(insts[i].op);
    if t.None? then Retarget(insts[i].op, 0)
    else if t.value.Skip? then Retarget(insts[i].op, t.value.n)
    else Retarget(insts[i].op, FindSym(insts, t.value.sym, 0) - i - 1)
  }

  predicate AllResolvable(insts: seq<Insn>) {
    forall i :: 0 <= i < |insts| ==> Resolvable(insts, i)
  }

  /** What loading does with labels. */
  function Resolve(insts: seq<Insn>): Result<Code, LinkError> {
    if !DistinctSyms(insts) then Failure(DuplicateSymbol)
    else if !AllResolvable(insts) then Failure(Unresolved)
    else Success(seq(|insts|, i requires 0 <= i < |insts| => ResolveOp(insts, i)))
  }

  /** The labels of this filter are nobody else's: its prefix is a fresh UUID. */
  ghost predicate FreshPrefix(prefix: string, insts: seq<Insn>) {
    forall i, k: int :: 0 <= i < |insts| ==> insts[i].sym != Some(Label(prefix, k))
  }

  // ---------- The linked form ----------

  /** A block whose jumps all reach just past its end, wherever it stands. */
  function RelBlock(shape: Shape): (b: Code)
    ensures |b| == |shape|
  {
    seq(|shape|, i requires 0 <= i < |shape| => Retarget(shape[i], |shape| - i - 1))
  }

  function RelPieces(shapes: seq<Shape>): (pieces: seq<Code>)
    ensures |pieces| == |shapes|
    ensures forall k :: 0 <= k < |shapes| ==> |pieces[k]| == |shapes[k]|
  {
    seq(|shapes|, k requires 0 <= k < |shapes| => RelBlock(shapes[k]))
  }

  function RelBlocks(shapes: seq<Shape>): Code {
    Flatten(RelPieces(shapes))
  }

  /** The filter as loaded, without the old program. */
  function FilterCode(live: seq<Rule>): Code {
    Prologue<nat>() + RelBlocks(Shapes(live))
  }

  lemma {:induction false} RelBlocksLength(shapes: seq<Shape>)
    ensures |RelBlocks(shapes)| == Offset(shapes, |shapes|)
  {
    FlattenLength(RelPieces(shapes));
    SameOffsets(RelPieces(shapes), shapes, |shapes|);
  }

  lemma {:induction false} BlocksLength(shapes: seq<Shape>, prefix: string)
    requires NonEmpty(shapes)
    ensures |RelBlocks(shapes)| == |SymBlocks(shapes, prefix)| == Offset(shapes, |shapes|)
  {
    RelBlocksLength(shapes);
    FlattenLength(SymPieces(shapes, prefix));
    SameOffsets(SymPieces(shapes, prefix), shapes, |shapes|);
  }

  /** What stands at place `i` of block `j`, before linking and after. */
  lemma {:induction false} SymBlocksAt(shapes: seq<Shape>, prefix: string, j: nat, i: nat)
    requires NonEmpty(shapes) && j < |shapes| && i < |shapes[j]|
    ensures Offset(shapes, j) + i < |SymBlocks(shapes, prefix)|
    ensures SymBlocks(shapes, prefix)[Offset(shapes, j) + i] == SymBlock(shapes[j], prefix, j)[i]
  {
    FlattenAt(SymPieces(shapes, prefix), j, i);
    SameOffsets(SymPieces(shapes, prefix), shapes, j);
  }

  lemma {:induction false} RelBlocksAt(shapes: seq<Shape>, j: nat, i: nat)
    requires j < |shapes| && i < |shapes[j]|
    ensures Offset(shapes, j) + i < |RelBlocks(shapes)|
    ensures RelBlocks(shapes)[Offset(shapes, j) + i] == RelBlock(shapes[j])[i]
  {
    FlattenAt(RelPieces(shapes), j, i);
    SameOffsets(RelPieces(shapes), shapes, j);
  }

  lemma {:induction false} LabelInjective(prefix: string, j: int, k: int)
    requires Label(prefix, j) == Label(prefix, k)
    ensures j == k
  {
    var n := |prefix + "-block-"|;
    assert Label(prefix, j)[n..] == Format(j) && Label(prefix, k)[n..] == Format(k);
    ReadFormat(j);
    ReadFormat(k);
  }

  // ---------- Labels of the linked program ----------

  function Chain(shapes: seq<Shape>, orig: seq<Insn>, prefix: string): seq<Insn>
    requires NonEmpty(shapes) && orig != []
  {
    Unlabelled(Prologue()) + SymBlocks(shapes, prefix) + Mark(orig, Label(prefix, |shapes|))
  }

  /** Where label `k` stands in the linked program. */
  function LabelAt(shapes: seq<Shape>, k: nat): nat
    requires k <= |shapes|
  {
    5 + Offset(shapes, k)
  }

  /** The three stretches of the linked program. */
  lemma {:induction false} LinkedParts(shapes: seq<Shape>, orig: seq<Insn>, prefix: string)
    requires NonEmpty(shapes) && orig != []
    ensures var insts, start := Chain(shapes, orig, prefix), LabelAt(shapes, |shapes|);
            && |insts| == start + |orig| && 5 + |RelBlocks(shapes)| == start
            && (forall p :: 0 <= p < 5 ==> insts[p] == Plain(Prologue()[p]))
            && (forall p :: 5 <= p < start ==> insts[p] == SymBlocks(shapes, prefix)[p - 5])
            && (forall p :: start <= p < |insts| ==> insts[p] == Mark(orig, Label(prefix, |shapes|))[p - start])
  {
    BlocksLength(shapes, prefix);
    ThreeParts(Unlabelled(Prologue()), SymBlocks(shapes, prefix), Mark(orig, Label(prefix, |shapes|)));
  }

  lemma {:induction false} BlockSym(shape: Shape, prefix: string, k: int, i: nat)
    requires i < |shape|
    ensures SymBlock(shape, prefix, k)[i].sym == if i == 0 then Some(Label(prefix, k)) else None
  {
  }

  /** Inside the filter only the first instruction of a block is labelled, with the number of the block. */
  lemma {:induction false} SymInFilter(shapes: seq<Shape>, orig: seq<Insn>, prefix: string, p: nat)
    requires NonEmpty(shapes) && orig != [] && p < LabelAt(shapes, |shapes|)
    ensures p < |Chain(shapes, orig, prefix)|
    ensures var sym := Chain(shapes, orig, prefix)[p].sym;
            sym.Some? ==> exists k :: 0 <= k < |shapes| && sym.value == Label(prefix, k) && p == LabelAt(shapes, k)
  {
    LinkedParts(shapes, orig, prefix);
    if p >= 5 {
      var j, i := Locate(shapes, p - 5);
      SymBlocksAt(shapes, prefix, j, i);
      BlockSym(shapes[j], prefix, j, i);
      assert Chain(shapes, orig, prefix)[p] == SymBlock(shapes[j], prefix, j)[i];
    }
  }

  /** Each label 0..|shapes| occurs at its place. */
  lemma {:induction false} LabelPresent(shapes: seq<Shape>, orig: seq<Insn>, prefix: string, k: nat)
    requires NonEmpty(shapes) && orig != [] && k <= |shapes|
    ensures LabelAt(shapes, k) < |Chain(shapes, orig, prefix)|
    ensures Chain(shapes, orig, prefix)[LabelAt(shapes, k)].sym == Some(Label(prefix, k))
  {
    LinkedParts(shapes, orig, prefix);
    if k < |shapes| {
      SymBlocksAt(shapes, prefix, k, 0);
      BlocksLength(shapes, prefix);
    }
  }

  /** ... and nowhere else. */
  lemma {:induction false} LabelUnique(shapes: seq<Shape>, orig: seq<Insn>, prefix: string, k: nat, p: nat)
    requires NonEmpty(shapes) && orig != [] && k <= |shapes| && FreshPrefix(prefix, orig)
    requires p < |Chain(shapes, orig, prefix)| && Chain(shapes, orig, prefix)[p].sym == Some(Label(prefix, k))
    ensures p == LabelAt(shapes, k)
  {
    LinkedParts(shapes, orig, prefix);
    var start := LabelAt(shapes, |shapes|);
    if p < start {
      SymInFilter(shapes, orig, prefix, p);
      var k' :| 0 <= k' < |shapes| && Label(prefix, k) == Label(prefix, k') && p == LabelAt(shapes, k');
      LabelInjective(prefix, k, k');
    } else if p == start {
      LabelInjective(prefix, k, |shapes|);
    } else {
      assert false;
    }
  }

  lemma {:induction false} FindLabel(shapes: seq<Shape>, orig: seq<Insn>, prefix: string, k: nat)
    requires NonEmpty(shapes) && orig != [] && k <= |shapes| && FreshPrefix(prefix, orig)
    ensures FindSym(Chain(shapes, orig, prefix), Label(prefix, k), 0) == LabelAt(shapes, k)
  {
    LabelPresent(shapes, orig, prefix, k);
    LabelUnique(shapes, orig, prefix, k, FindSym(Chain(shapes, orig, prefix), Label(prefix, k), 0));
  }

  lemma {:induction false} ChainDistinct(shapes: seq<Shape>, orig: seq<Insn>, prefix: string)
    requires NonEmpty(shapes) && orig != [] && FreshPrefix(prefix, orig) && DistinctSyms(orig)
    ensures DistinctSyms(Chain(shapes, orig, prefix))
  {
    var insts, start := Chain(shapes, orig, prefix), LabelAt(shapes, |shapes|);
    LinkedParts(shapes, orig, prefix);
    forall i, j | 0 <= i < j < |insts| && insts[i].sym.Some? && insts[i].sym == insts[j].sym ensures false {
      if i < start {
        SymInFilter(shapes, orig, prefix, i);
        var k :| 0 <= k < |shapes| && insts[i].sym.value == Label(prefix, k) && i == LabelAt(shapes, k);
        LabelUnique(shapes, orig, prefix, k, j);
      } else if i == start {
        LabelUnique(shapes, orig, prefix, |shapes|, j);
      }
    }
  }

  lemma {:induction false} BlockOps(shape: Shape, prefix: string, k: int, i: nat)
    requires i < |shape|
    ensures SymBlock(shape, prefix, k)[i].op == Retarget(shape[i], Goto(Label(prefix, k + 1)))
    ensures RelBlock(shape)[i] == Retarget(shape[i], |shape| - i - 1)
  {
  }

  lemma {:induction false} LoadedOpAt(shapes: seq<Shape>, tail: Code, j: nat, i: nat)
    requires j < |shapes| && i < |shapes[j]|
    ensures var code := Prologue<nat>() + RelBlocks(shapes) + tail;
            && LabelAt(shapes, j) + i < |code|
            && code[LabelAt(shapes, j) + i] == Retarget(shapes[j][i], |shapes[j]| - i - 1)
  {
    ThreeParts(Prologue<nat>(), RelBlocks(shapes), tail);
    RelBlocksAt(shapes, j, i);
    BlockOps(shapes[j], "", j, i);
  }

  lemma {:induction false} ChainOpAt(shapes: seq<Shape>, orig: seq<Insn>, prefix: string, j: nat, i: nat)
    requires NonEmpty(shapes) && orig != [] && j < |shapes| && i < |shapes[j]|
    ensures var p := LabelAt(shapes, j) + i;
            && p < LabelAt(shapes, |shapes|) <= |Chain(shapes, orig, prefix)|
            && Chain(shapes, orig, prefix)[p].op == Retarget(shapes[j][i], Goto(Label(prefix, j + 1)))
  {
    LinkedParts(shapes, orig, prefix);
    BlocksLength(shapes, prefix);
    SymBlocksAt(shapes, prefix, j, i);
    BlockOps(shapes[j], prefix, j, i);
  }

  /** A jump of block `j` reaches the start of block `j + 1`. */
  lemma {:induction false} JumpResolves(shapes: seq<Shape>, orig: seq<Insn>, prefix: string, j: nat, i: nat)
    requires NonEmpty(shapes) && orig != [] && FreshPrefix(prefix, orig)
    requires j < |shapes| && i < |shapes[j]|
    ensures var p := LabelAt(shapes, j) + i;
            && p < |Chain(shapes, orig, prefix)|
            && Resolvable(Chain(shapes, orig, prefix), p)
            && ResolveOp(Chain(shapes, orig, prefix), p) == RelBlock(shapes[j])[i]
  {
    var insts, p := Chain(shapes, orig, prefix), LabelAt(shapes, j) + i;
    ChainOpAt(shapes, orig, prefix, j, i);
    OffsetNext(shapes, j);
    FindLabel(shapes, orig, prefix, j + 1);
    LabelPresent(shapes, orig, prefix, j + 1);
    AimedOp(insts, p, shapes[j][i], Label(prefix, j + 1));
    BlockOps(shapes[j], prefix, j, i);
  }

  lemma {:induction false} FilterOpResolves(shapes: seq<Shape>, orig: seq<Insn>, prefix: string, p: nat)
    requires NonEmpty(shapes) && orig != [] && FreshPrefix(prefix, orig)
    requires 5 <= p < LabelAt(shapes, |shapes|)
    ensures p < |Chain(shapes, orig, prefix)| && p - 5 < |RelBlocks(shapes)|
    ensures Resolvable(Chain(shapes, orig, prefix), p)
    ensures ResolveOp(Chain(shapes, orig, prefix), p) == RelBlocks(shapes)[p - 5]
  {
    var j, i := Locate(shapes, p - 5);
    JumpResolves(shapes, orig, prefix, j, i);
    RelBlocksAt(shapes, j, i);
  }

  lemma {:induction false} AimedOp(insts: seq<Insn>, p: nat, op: Op<()>, sym: string)
    requires p < |insts| && insts[p].op == Retarget(op, Goto(sym)) && p < FindSym(insts, sym, 0) < |insts|
    ensures Resolvable(insts, p)
    ensures ResolveOp(insts, p) == Retarget(op, FindSym(insts, sym, 0) - p - 1)
  {
  }

  /** The old program's own labels are found where they were, one filter further on. */
  lemma {:induction false} OldOpResolves(shapes: seq<Shape>, orig: seq<Insn>, prefix: string, q: nat)
    requires NonEmpty(shapes) && orig != [] && FreshPrefix(prefix, orig) && DistinctSyms(orig)
    requires q < |orig| && Resolvable(orig, q)
    ensures var insts, start := Chain(shapes, orig, prefix), LabelAt(shapes, |shapes|);
            && start + q < |insts|
            && Resolvable(insts, start + q)
            && ResolveOp(insts, start + q) == ResolveOp(orig, q)
  {
    var insts, start := Chain(shapes, orig, prefix), LabelAt(shapes, |shapes|);
    LinkedParts(shapes, orig, prefix);
    assert insts[start + q].op == orig[q].op;
    var t := TargetOf(orig[q].op);
    if t.Some? && t.value.Goto? {
      var sym := t.value.sym;
      var there := FindSym(orig, sym, 0);
      assert insts[start + there].sym == Some(sym);
      ChainDistinct(shapes, orig, prefix);
      assert FindSym(insts, sym, 0) == start + there;
    }
  }

  /**
   Linking: loading the linked program succeeds whenever the old program loads on
   its own, and gives the filter followed by the very code the old program loads to.
   */
  lemma {:induction false} LinkResolves(live: seq<Rule>, orig: seq<Insn>, prefix: string)
    requires orig != [] && FreshPrefix(prefix, orig) && Resolve(orig).Success?
    ensures Resolve(Linked(live, orig, prefix)) == Success(FilterCode(live) + Resolve(orig).value)
  {
    var shapes := Shapes(live);
    ChainResolves(shapes, orig, prefix);
    assert Linked(live, orig, prefix) == Chain(shapes, orig, prefix);
  }

  lemma {:induction false} ChainResolves(shapes: seq<Shape>, orig: seq<Insn>, prefix: string)
    requires NonEmpty(shapes) && orig != [] && FreshPrefix(prefix, orig) && Resolve(orig).Success?
    ensures Resolve(Chain(shapes, orig, prefix)) == Success(Prologue<nat>() + RelBlocks(shapes) + Resolve(orig).value)
  {
    var insts, start := Chain(shapes, orig, prefix), LabelAt(shapes, |shapes|);
    var code := Prologue<nat>() + RelBlocks(shapes) + Resolve(orig).value;
    LinkedParts(shapes, orig, prefix);
    ChainDistinct(shapes, orig, prefix);
    forall p | 0 <= p < |insts| ensures Resolvable(insts, p) && ResolveOp(insts, p) == code[p] {
      if 5 <= p < start {
        FilterOpResolves(shapes, orig, prefix, p);
      } else if p >= start {
        OldOpResolves(shapes, orig, prefix, p - start);
      }
    }
    assert AllResolvable(insts);
    assert seq(|insts|, i requires 0 <= i < |insts| => ResolveOp(insts, i)) == code;
  }

  // ---------- Code read back from the kernel ----------

  function TargetIn(op: Op<nat>): nat {
    if op.Jump? || op.Ja? then op.target else 0
  }

  /** Instructions of a loaded program: distances, no labels. */
  function Decoded(code: Code): seq<Insn> {
    seq(|code|, i requires 0 <= i < |code| => Plain(Retarget(code[i], Skip(TargetIn(code[i])))))
  }

  /** Reading back and loading again changes nothing, and brings no labels that could clash. */
  lemma {:induction false} ReadBack(code: Code, prefix: string)
    ensures Resolve(Decoded(code)) == Success(code) && FreshPrefix(prefix, Decoded(code))
  {
    var insts := Decoded(code);
    assert AllResolvable(insts);
    assert seq(|insts|, i requires 0 <= i < |insts| => ResolveOp(insts, i)) == code;
  }
}
