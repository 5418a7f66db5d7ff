/**
 cgroup/ebpf.go: the builder that turns device rules into basic blocks and
 links them in front of an existing program. The class does what the Go methods
 do; the functions describe its states as values, so that lemmas can speak of them.
 */
module DeviceFilter {
  import opened Bpf
  import opened Decimal
  import opened Rules
  import opened Sequences
  import opened Words
  import opened Wrappers

  /** A jump of unlinked code names a label, or already holds a distance. */
  datatype Target = Skip(n: nat) | Goto(sym: string)
  datatype Insn = Insn(sym: Option<string>, op: Op<Target>)

  /** Errors returned, and the two run-time panics the code can run into. */
  datatype BuildError =
    | Finalized
    | InvalidKind(kind: string)
    | InvalidMajor(reported: int)
    | InvalidMinor(reported: int)
    | UnknownAccess(letter: char)
    | NilDereference
    | IndexOutOfRange

  function Label(prefix: string, k: int): string {
    prefix + "-block-" + Format(k)
  }

  function Plain(op: Op<Target>): Insn { Insn(None, op) }

  // ---------- What a rule is worth ----------

  function Mask(access: string): (m: nat)
    ensures m <= ACC_ALL
    ensures m == ACC_ALL <==> FullAccess(access)
  {
    (if 'm' in access then ACC_MKNOD else 0) + (if 'r' in access then ACC_READ else 0) +
    (if 'w' in access then ACC_WRITE else 0)
  }

  function FirstUnknown(access: string): Option<char> {
    if access == [] then None
    else if access[0] !in "rwm" then Some(access[0])
    else FirstUnknown(access[1..])
  }

  /** Why a rule is refused; the checks come in the order of the code. */
  function CheckRule(rule: Rule): Option<BuildError> {
    if rule.kind !in {"a", "b", "c"} then Some(InvalidKind(rule.kind))
    else if rule.major.None? then Some(NilDereference)
    else if rule.major.value > MAX_UINT32 then Some(InvalidMajor(rule.major.value))
    else if rule.minor.None? then Some(NilDereference)
    // the message of the code names the major number here
    else if rule.minor.value > MAX_UINT32 then Some(InvalidMinor(rule.major.value))
    else if FirstUnknown(rule.access).Some? then Some(UnknownAccess(FirstUnknown(rule.access).value))
    else None
  }

  predicate Valid(rule: Rule) { CheckRule(rule).None? }

  predicate Typed(rule: Rule) { rule.kind != "a" }

  predicate Partial(rule: Rule) { !FullAccess(rule.access) }

  /** A valid rule without any test. */
  predicate Wildcard(rule: Rule) {
    Valid(rule) && !Typed(rule) && !Partial(rule) && rule.major.value < 0 && rule.minor.value < 0
  }

  // ---------- Code of one rule ----------

  function KindCode(kind: string): i32 {
    if kind == "c" then DEV_CHAR else if kind == "b" then DEV_BLOCK else -1
  }

  function Prologue<T>(): seq<Op<T>> {
    [LoadMem(R2, R1, 0, Half),
     LoadMem(R3, R1, 0, Word),
     Alu32(RSh, R3, Imm(16)),
     LoadMem(R4, R1, 4, Word),
     LoadMem(R5, R1, 8, Word)]
  }

  /** A block before its jumps are aimed: all of them will go to the next block. */
  type Shape = seq<Op<()>>

  function KindTest(rule: Rule): Shape {
    if Typed(rule) then [Jump(JNE, R2, Imm(KindCode(rule.kind)), ())] else []
  }

  function AccessTest(rule: Rule): Shape {
    if Partial(rule)
    then [Alu32(Mov, R2, FromReg(R3)), Alu32(And, R2, Imm(Mask(rule.access))), Jump(JEq, R2, Imm(0), ())]
    else []
  }

  function NumberTest(number: Option<i64>, r: Reg): Shape {
    if number.Some? && number.value >= 0 then [Jump(JNE, r, Imm(ToInt32(number.value)), ())] else []
  }

  function FirstTests(rule: Rule): Shape {
    KindTest(rule) + AccessTest(rule)
  }

  function NumberTests(rule: Rule): Shape {
    NumberTest(rule.major, R4) + NumberTest(rule.minor, R5)
  }

  function Tests(rule: Rule): (t: Shape)
    ensures |t| <= 6
    ensures Valid(rule) ==> (t == [] <==> Wildcard(rule))
  {
    FirstTests(rule) + NumberTests(rule)
  }

  function AcceptBlock<T>(allow: bool): seq<Op<T>> {
    [Alu32(Mov, R0, Imm(if allow then 1 else 0)), Return]
  }

  function Block(rule: Rule): (b: Shape)
    ensures 2 <= |b| <= 8
  {
    Tests(rule) + AcceptBlock(rule.allow)
  }

  function Aim<T>(ops: Shape, t: T): seq<Op<T>> {
    seq(|ops|, i requires 0 <= i < |ops| => Retarget(ops[i], t))
  }

  function Unlabelled(ops: seq<Op<Target>>): seq<Insn> {
    seq(|ops|, i requires 0 <= i < |ops| => Plain(ops[i]))
  }

  function Mark(insts: seq<Insn>, sym: string): seq<Insn>
    requires |insts| > 0
  {
    insts[0 := insts[0].(sym := Some(sym))]
  }

  lemma AimGrows(before: seq<Insn>, a: Shape, b: Shape, t: Target)
    ensures before + Unlabelled(Aim(a, t)) + Unlabelled(Aim(b, t)) == before + Unlabelled(Aim(a + b, t))
  {
  }

  lemma MarkTail(before: seq<Insn>, tail: seq<Insn>, sym: string)
    requires |tail| > 0
    ensures var all := before + tail;
            all[|before| := all[|before|].(sym := Some(sym))] == before + Mark(tail, sym)
  {
  }

  /** Block `k`: labelled `k` in front, its jumps aimed at label `k + 1`. */
  function SymBlock(shape: Shape, prefix: string, k: int): (b: seq<Insn>)
    requires |shape| > 0
    ensures |b| == |shape|
  {
    Mark(Unlabelled(Aim(shape, Goto(Label(prefix, k + 1)))), Label(prefix, k))
  }

  // ---------- The builder as a value ----------

  datatype Builder = Builder(insts: seq<Insn>, hasWildCard: bool, blockID: int)

  function Append(b: Builder, rule: Rule, prefix: string): Result<Builder, BuildError> {
    if b.blockID < 0 then Failure(Finalized)
    else if b.hasWildCard then Success(b)
    else if !Valid(rule) then Failure(CheckRule(rule).value)
    else Success(Builder(b.insts + SymBlock(Block(rule), prefix, b.blockID), Wildcard(rule), b.blockID + 1))
  }

  /** The old program follows as the block that the last one passes on to. */
  function Finish(b: Builder, orig: seq<Insn>, prefix: string): Result<Builder, BuildError> {
    if orig == [] then Failure(IndexOutOfRange)
    else Success(Builder(b.insts + Mark(orig, Label(prefix, b.blockID)), b.hasWildCard, -1))
  }

  /** The bit of a letter; 0 for an unknown one. */
  function LetterBit(letter: char): nat {
    match letter
    case 'r' => ACC_READ
    case 'w' => ACC_WRITE
    case 'm' => ACC_MKNOD
    case _ => 0
  }

  lemma MaskNext(access: string, i: nat)
    requires i < |access|
    ensures access[i] in "rwm" ==> BitOr(Mask(access[..i]), LetterBit(access[i])) == Mask(access[..i + 1])
  {
    if access[i] in "rwm" {
      assert access[..i + 1] == access[..i] + [access[i]];
      BitOrSets(Mask(access[..i]), LetterBit(access[i]));
      MaskBits(access[..i]);
    }
  }

  lemma MaskBits(access: string)
    ensures HasBit(Mask(access), ACC_MKNOD) <==> 'm' in access
    ensures HasBit(Mask(access), ACC_READ) <==> 'r' in access
    ensures HasBit(Mask(access), ACC_WRITE) <==> 'w' in access
  {
  }

  lemma {:induction false} UnknownNext(access: string, i: nat)
    requires i < |access|
    ensures FirstUnknown(access[i..]) == if access[i] !in "rwm" then Some(access[i]) else FirstUnknown(access[i + 1..])
  {
    assert access[i..][0] == access[i] && access[i..][1..] == access[i + 1..];
  }

  method ParseAccess(access: string) returns (r: Result<i32, BuildError>)
    ensures r == if FirstUnknown(access).Some? then Failure(UnknownAccess(FirstUnknown(access).value))
                 else Success(Mask(access))
  {
    var bpfAccess: i32 := 0;
    for i := 0 to |access|
      invariant bpfAccess == Mask(access[..i])
      invariant FirstUnknown(access) == FirstUnknown(access[i..])
    {
      MaskNext(access, i);
      UnknownNext(access, i);
      match access[i] {
        case 'r' => bpfAccess := BitOr(bpfAccess, ACC_READ);
        case 'w' => bpfAccess := BitOr(bpfAccess, ACC_WRITE);
        case 'm' => bpfAccess := BitOr(bpfAccess, ACC_MKNOD);
        case c => return Failure(UnknownAccess(c));
      }
    }
    assert access[..|access|] == access;
    return Success(bpfAccess);
  }

  class Program {
    var insts: seq<Insn>
    var hasWildCard: bool
    var blockID: int

    ghost function State(): Builder
      reads this
    {
      Builder(insts, hasWildCard, blockID)
    }

    constructor ()
      ensures State() == Builder([], false, 0)
    {
      insts, hasWildCard, blockID := [], false, 0;
    }

    method Init()
      modifies this
      ensures State() == old(State()).(insts := old(insts) + Unlabelled(Prologue()))
    {
      insts := insts + [Plain(LoadMem(R2, R1, 0, Half))];
      insts := insts + [Plain(LoadMem(R3, R1, 0, Word)), Plain(Alu32(RSh, R3, Imm(16)))];
      insts := insts + [Plain(LoadMem(R4, R1, 4, Word))];
      insts := insts + [Plain(LoadMem(R5, R1, 8, Word))];
    }

    /** A failing call changes nothing. */
    method AppendDevice(dev: Rule, labelPrefix: string) returns (err: Option<BuildError>)
      modifies this
      ensures match Append(old(State()), dev, labelPrefix)
              case Success(b) => err == None && State() == b
              case Failure(e) => err == Some(e) && State() == old(State())
    {
      if blockID < 0 {
        return Some(Finalized);
      }
      if hasWildCard {
        return None;
      }
      var bpfType: i32 := -1;
      var hasType := true;
      match dev.kind {
        case "c" => bpfType := DEV_CHAR;
        case "b" => bpfType := DEV_BLOCK;
        case "a" => hasType := false;
        case _ => return Some(InvalidKind(dev.kind));
      }
      if dev.major.None? {
        return Some(NilDereference);
      }
      if dev.major.value > MAX_UINT32 {
        return Some(InvalidMajor(dev.major.value));
      }
      if dev.minor.None? {
        return Some(NilDereference);
      }
      if dev.minor.value > MAX_UINT32 {
        return Some(InvalidMinor(dev.major.value));
      }
      var hasMajor, hasMinor := dev.major.value >= 0, dev.minor.value >= 0;
      var access := ParseAccess(dev.access);
      if access.Failure? {
        return Some(access.error);
      }
      EmitBlock(dev, hasType, bpfType, access.value, hasMajor, hasMinor, labelPrefix);
      return None;
    }

    /** The emitting half of appendDevice. */
    method EmitBlock(dev: Rule, hasType: bool, bpfType: i32, bpfAccess: i32, hasMajor: bool, hasMinor: bool,
                     labelPrefix: string)
      requires Valid(dev) && blockID >= 0 && !hasWildCard
      requires hasType == Typed(dev) && (hasType ==> bpfType == KindCode(dev.kind))
      requires bpfAccess == Mask(dev.access)
      requires hasMajor == (dev.major.value >= 0) && hasMinor == (dev.minor.value >= 0)
      modifies this
      ensures insts == old(insts) + SymBlock(Block(dev), labelPrefix, old(blockID))
      ensures hasWildCard == Wildcard(dev) && blockID == old(blockID) + 1
    {
      var hasAccess := bpfAccess != ACC_ALL;
      var prevBlockLastIdx := |insts| - 1;
      EmitTests(dev, hasType, bpfType, hasAccess, bpfAccess, hasMajor, hasMinor, Label(labelPrefix, blockID + 1));
      if !hasType && !hasAccess && !hasMajor && !hasMinor {
        hasWildCard := true;
      }
      EmitAccept(dev, prevBlockLastIdx, labelPrefix, old(insts));
      blockID := blockID + 1;
    }

    /** The accepting end of a block; then its first instruction gets the block's label. */
    method EmitAccept(dev: Rule, prevBlockLastIdx: int, labelPrefix: string, ghost before: seq<Insn>)
      requires insts == before + Unlabelled(Aim(Tests(dev), Goto(Label(labelPrefix, blockID + 1))))
      requires prevBlockLastIdx == |before| - 1
      modifies `insts
      ensures insts == before + SymBlock(Block(dev), labelPrefix, blockID)
    {
      ghost var next := Goto(Label(labelPrefix, blockID + 1));
      ghost var ops := Emit(AcceptBlock(dev.allow), next, before, Tests(dev), AcceptBlock(dev.allow));
      insts := insts[prevBlockLastIdx + 1 := insts[prevBlockLastIdx + 1].(sym := Some(Label(labelPrefix, blockID)))];
      MarkTail(before, Unlabelled(Aim(ops, next)), Label(labelPrefix, blockID));
    }

    method EmitTests(dev: Rule, hasType: bool, bpfType: i32, hasAccess: bool, bpfAccess: i32,
                     hasMajor: bool, hasMinor: bool, nextBlockSym: string)
      requires Valid(dev)
      requires hasType == Typed(dev) && (hasType ==> bpfType == KindCode(dev.kind))
      requires hasAccess == Partial(dev) && bpfAccess == Mask(dev.access)
      requires hasMajor == (dev.major.value >= 0) && hasMinor == (dev.minor.value >= 0)
      modifies `insts
      ensures insts == old(insts) + Unlabelled(Aim(Tests(dev), Goto(nextBlockSym)))
    {
      var next := Goto(nextBlockSym);
      ghost var before, ops := insts, [];
      if hasType {
        ops := Emit([Jump(JNE, R2, Imm(bpfType), next)], next, before, ops, KindTest(dev));
      }
      assert ops == KindTest(dev);
      if hasAccess {
        ops := Emit([Alu32(Mov, R2, FromReg(R3)), Alu32(And, R2, Imm(bpfAccess)), Jump(JEq, R2, Imm(0), next)],
                    next, before, ops, AccessTest(dev));
      }
      assert ops == FirstTests(dev);
      if hasMajor {
        ops := Emit([Jump(JNE, R4, Imm(ToInt32(dev.major.value)), next)], next, before, ops, NumberTest(dev.major, R4));
      }
      assert ops == FirstTests(dev) + NumberTest(dev.major, R4);
      if hasMinor {
        ops := Emit([Jump(JNE, R5, Imm(ToInt32(dev.minor.value)), next)], next, before, ops, NumberTest(dev.minor, R5));
      }
      SeqAssociative(FirstTests(dev), NumberTest(dev.major, R4), NumberTest(dev.minor, R5));
      assert ops == Tests(dev);
    }

    /** append(p.insts, ...), with a ghost record of the shape of what came since `before`. */
    method Emit(more: seq<Op<Target>>, ghost next: Target, ghost before: seq<Insn>,
                ghost ops: Shape, ghost shape: Shape)
      returns (ghost all: Shape)
      requires insts == before + Unlabelled(Aim(ops, next)) && more == Aim(shape, next)
      modifies `insts
      ensures all == ops + shape && insts == before + Unlabelled(Aim(all, next))
    {
      insts := insts + Unlabelled(more);
      AimGrows(before, ops, shape, next);
      all := ops + shape;
    }

    /** The first instruction of the old program takes the label the last block jumps to. */
    method Finalize(origInsts: seq<Insn>, labelPrefix: string) returns (r: Result<seq<Insn>, BuildError>)
      modifies this
      ensures match Finish(old(State()), origInsts, labelPrefix)
              case Success(b) => r == Success(b.insts) && State() == b
              case Failure(e) => r == Failure(e) && State() == old(State())
    {
      var lenInsts := |insts|;
      var blockSym := Label(labelPrefix, blockID);
      ghost var before := insts;
      insts := insts + origInsts;
      if lenInsts >= |insts| {
        return Failure(IndexOutOfRange);
      }
      insts := insts[lenInsts := insts[lenInsts].(sym := Some(blockSym))];
      MarkTail(before, origInsts, blockSym);
      blockID := -1;
      return Success(insts);
    }
  }

  // ---------- A whole rule list ----------

  /** The rules that get a block, in the order of their blocks: last rule first, up to a wildcard. */
  function Live(rules: seq<Rule>): seq<Rule> {
    if rules == [] then []
    else
      var last := rules[|rules| - 1];
      if Wildcard(last) then [last] else [last] + Live(rules[..|rules| - 1])
  }

  /** The error met when walking the list backwards up to a wildcard. */
  function BuildFailure(rules: seq<Rule>): Option<BuildError> {
    if rules == [] then None
    else
      var last := rules[|rules| - 1];
      if !Valid(last) then CheckRule(last)
      else if Wildcard(last) then None
      else BuildFailure(rules[..|rules| - 1])
  }

  predicate AllValid(rules: seq<Rule>) {
    forall i :: 0 <= i < |rules| ==> Valid(rules[i])
  }

  lemma {:induction false} LiveValid(rules: seq<Rule>)
    requires BuildFailure(rules).None?
    ensures AllValid(Live(rules))
  {
    if rules != [] && !Wildcard(rules[|rules| - 1]) {
      LiveValid(rules[..|rules| - 1]);
    }
  }

  predicate NonEmpty(shapes: seq<Shape>) {
    forall i :: 0 <= i < |shapes| ==> |shapes[i]| > 0
  }

  function Shapes(live: seq<Rule>): (s: seq<Shape>)
    ensures NonEmpty(s) && |s| == |live|
  {
    seq(|live|, i requires 0 <= i < |live| => Block(live[i]))
  }

  function SymPieces(shapes: seq<Shape>, prefix: string): (pieces: seq<seq<Insn>>)
    requires NonEmpty(shapes)
    ensures |pieces| == |shapes|
    ensures forall k :: 0 <= k < |shapes| ==> |pieces[k]| == |shapes[k]|
  {
    seq(|shapes|, k requires 0 <= k < |shapes| => SymBlock(shapes[k], prefix, k))
  }

  /** Consecutive blocks, numbered from 0. */
  function SymBlocks(shapes: seq<Shape>, prefix: string): seq<Insn>
    requires NonEmpty(shapes)
  {
    Flatten(SymPieces(shapes, prefix))
  }

  lemma SymPiecesAppend(shapes: seq<Shape>, shape: Shape, prefix: string)
    requires NonEmpty(shapes) && |shape| > 0
    ensures SymPieces(shapes + [shape], prefix) == SymPieces(shapes, prefix) + [SymBlock(shape, prefix, |shapes|)]
  {
  }

  lemma SymBlocksAppend(shapes: seq<Shape>, shape: Shape, prefix: string)
    requires NonEmpty(shapes) && |shape| > 0
    ensures SymBlocks(shapes + [shape], prefix) == SymBlocks(shapes, prefix) + SymBlock(shape, prefix, |shapes|)
  {
    SymPiecesAppend(shapes, shape, prefix);
    FlattenAppend(SymPieces(shapes, prefix), SymBlock(shape, prefix, |shapes|));
  }

  predicate HasWildcard(rules: seq<Rule>) {
    exists i :: 0 <= i < |rules| && Wildcard(rules[i])
  }

  /** What the builder holds after emitting blocks for `live`. */
  function Built(live: seq<Rule>, prefix: string): Builder {
    Builder(Unlabelled(Prologue()) + SymBlocks(Shapes(live), prefix), HasWildcard(live), |live|)
  }

  lemma HasWildcardGrows(live: seq<Rule>, rule: Rule)
    ensures HasWildcard(live + [rule]) == (HasWildcard(live) || Wildcard(rule))
  {
    var all := live + [rule];
    assert all[|live|] == rule;
    assert forall i :: 0 <= i < |live| ==> all[i] == live[i];
  }

  lemma ShapesAppend(live: seq<Rule>, rule: Rule)
    ensures Shapes(live + [rule]) == Shapes(live) + [Block(rule)]
  {
  }

  lemma BuiltInstsGrow(live: seq<Rule>, rule: Rule, prefix: string)
    ensures Built(live + [rule], prefix).insts == Built(live, prefix).insts + SymBlock(Block(rule), prefix, |live|)
  {
    ShapesAppend(live, rule);
    SymBlocksAppend(Shapes(live), Block(rule), prefix);
    SeqAssociative(Unlabelled(Prologue()), SymBlocks(Shapes(live), prefix), SymBlock(Block(rule), prefix, |live|));
  }

  /** A valid rule adds its block; anything after a wildcard is ignored. */
  lemma BuiltGrows(live: seq<Rule>, rule: Rule, prefix: string)
    requires Valid(rule) && !Built(live, prefix).hasWildCard
    ensures Append(Built(live, prefix), rule, prefix) == Success(Built(live + [rule], prefix))
  {
    BuiltInstsGrow(live, rule, prefix);
    HasWildcardGrows(live, rule);
  }

  /** The chain with the old program as its last block. */
  function Linked(live: seq<Rule>, orig: seq<Insn>, prefix: string): seq<Insn>
    requires orig != []
  {
    Built(live, prefix).insts + Mark(orig, Label(prefix, |live|))
  }

  function Prepend(rules: seq<Rule>, orig: seq<Insn>, prefix: string): Result<seq<Insn>, BuildError> {
    if BuildFailure(rules).Some? then Failure(BuildFailure(rules).value)
    else if orig == [] then Failure(IndexOutOfRange)
    else Success(Linked(Live(rules), orig, prefix))
  }

  /** `done` has blocks; what `devices[..i]` still adds, or refuses, is what is left to do. */
  ghost predicate Walked(devices: seq<Rule>, i: int, done: seq<Rule>) {
    && 0 <= i <= |devices|
    && BuildFailure(devices) == (if HasWildcard(done) then None else BuildFailure(devices[..i]))
    && Live(devices) == (if HasWildcard(done) then done else done + Live(devices[..i]))
  }

  lemma WalkStep(devices: seq<Rule>, i: nat, done: seq<Rule>)
    requires i < |devices| && Walked(devices, i + 1, done)
    ensures HasWildcard(done) ==> Walked(devices, i, done)
    ensures !HasWildcard(done) && !Valid(devices[i]) ==> BuildFailure(devices) == CheckRule(devices[i])
    ensures !HasWildcard(done) && Valid(devices[i]) ==> Walked(devices, i, done + [devices[i]])
  {
    var rest := devices[..i + 1];
    assert rest[|rest| - 1] == devices[i] && rest[..|rest| - 1] == devices[..i];
    if !HasWildcard(done) && Valid(devices[i]) {
      HasWildcardGrows(done, devices[i]);
      SeqAssociative(done, [devices[i]], Live(devices[..i]));
    }
  }

  /** The rules with blocks after one more call. */
  function Extended(done: seq<Rule>, rule: Rule): seq<Rule> {
    if !HasWildcard(done) && Valid(rule) then done + [rule] else done
  }

  /** The builder in the loop: it holds the blocks of `done`, and `devices[..i]` are still to come. */
  ghost predicate Standing(devices: seq<Rule>, i: int, done: seq<Rule>, b: Builder, prefix: string) {
    Walked(devices, i, done) && b == Built(done, prefix)
  }

  lemma WalkStarts(devices: seq<Rule>, b: Builder, prefix: string)
    requires b == Builder([] + Unlabelled(Prologue()), false, 0)
    ensures Standing(devices, |devices|, [], b, prefix)
  {
    assert devices[..|devices|] == devices && [] + Live(devices) == Live(devices);
    assert SymBlocks(Shapes([]), prefix) == [];
  }

  lemma {:induction false} AppendStep(devices: seq<Rule>, i: nat, done: seq<Rule>, b: Builder, prefix: string)
    requires i < |devices| && Standing(devices, i + 1, done, b, prefix)
    ensures match Append(b, devices[i], prefix)
            case Success(b') => Standing(devices, i, Extended(done, devices[i]), b', prefix)
            case Failure(e) => BuildFailure(devices) == Some(e)
  {
    WalkStep(devices, i, done);
    if !HasWildcard(done) && Valid(devices[i]) {
      BuiltGrows(done, devices[i], prefix);
    }
  }

  lemma WalkEnds(devices: seq<Rule>, done: seq<Rule>, b: Builder, orig: seq<Insn>, prefix: string)
    requires Standing(devices, 0, done, b, prefix)
    ensures match Finish(b, orig, prefix)
            case Success(b') => Prepend(devices, orig, prefix) == Success(b'.insts)
            case Failure(e) => Prepend(devices, orig, prefix) == Failure(e)
  {
    assert devices[..0] == [] && done + [] == done;
    assert Live(devices) == done;
  }

  /** The label prefix is a fresh UUID in Go; here it is given. */
  method PrependDeviceFilter(devices: seq<Rule>, origInsts: seq<Insn>, labelPrefix: string)
    returns (r: Result<seq<Insn>, BuildError>)
    ensures r == Prepend(devices, origInsts, labelPrefix)
  {
    var p := new Program();
    p.Init();
    ghost var done: seq<Rule> := [];
    WalkStarts(devices, p.State(), labelPrefix);
    var i := |devices| - 1;
    while i >= 0
      invariant -1 <= i < |devices| && Standing(devices, i + 1, done, p.State(), labelPrefix)
    {
      AppendStep(devices, i, done, p.State(), labelPrefix);
      var err := p.AppendDevice(devices[i], labelPrefix);
      if err.Some? {
        return Failure(err.value);
      }
      done := Extended(done, devices[i]);
      i := i - 1;
    }
    WalkEnds(devices, done, p.State(), origInsts, labelPrefix);
    r := p.Finalize(origInsts, labelPrefix);
  }
}
