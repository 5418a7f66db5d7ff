/** Every state the builder can get into, and exactly when a rule list is refused. */
module BuilderStates {
  import opened Bpf
  import opened DeviceFilter
  import opened FilterRun
  import opened Linker
  import opened Rules
  import opened Sequences
  import Words
  import opened Wrappers

  datatype Call = AppendDevice(dev: Rule) | Finalize(orig: seq<Insn>)

  function Answered(b: Builder, call: Call, prefix: string): Result<Builder, BuildError> {
    match call
    case AppendDevice(dev) => Append(b, dev, prefix)
    case Finalize(orig) => Finish(b, orig, prefix)
  }

  /** Any sequence of calls; a failing one is simply passed over. */
  function Feed(b: Builder, calls: seq<Call>, prefix: string): Builder
    decreases calls
  {
    if calls == [] then b
    else
      var r := Answered(b, calls[0], prefix);
      Feed(if r.Success? then r.value else b, calls[1..], prefix)
  }

  /** Where a builder stands: the rules that have blocks and, once it is finalized, what follows the blocks. */
  datatype Phase = Building(live: seq<Rule>) | Closed(live: seq<Rule>, tail: seq<Insn>)

  function Held(phase: Phase, prefix: string): Builder {
    var b := Built(phase.live, prefix);
    if phase.Building? then b else Builder(b.insts + phase.tail, b.hasWildCard, -1)
  }

  function Advance(phase: Phase, call: Call, prefix: string): Phase {
    match call
    case AppendDevice(dev) =>
      if phase.Building? && !HasWildcard(phase.live) && Valid(dev) then Building(phase.live + [dev]) else phase
    case Finalize(orig) =>
      if orig == [] then phase
      else if phase.Building? then Closed(phase.live, Mark(orig, Label(prefix, |phase.live|)))
      else phase.(tail := phase.tail + Mark(orig, Label(prefix, -1)))
  }

  function Reached(phase: Phase, calls: seq<Call>, prefix: string): Phase
    decreases calls
  {
    if calls == [] then phase else Reached(Advance(phase, calls[0], prefix), calls[1..], prefix)
  }

  /** Only the last block can be without tests. */
  predicate WildcardLast(live: seq<Rule>) {
    AllValid(live) && forall i :: 0 <= i < |live| - 1 ==> !Wildcard(live[i])
  }

  lemma PhaseStep(phase: Phase, call: Call, prefix: string)
    requires WildcardLast(phase.live)
    ensures var b, r := Held(phase, prefix), Answered(Held(phase, prefix), call, prefix);
            Held(Advance(phase, call, prefix), prefix) == if r.Success? then r.value else b
    ensures WildcardLast(Advance(phase, call, prefix).live)
  {
    match call
    case AppendDevice(dev) =>
      if phase.Building? && !HasWildcard(phase.live) && Valid(dev) {
        BuiltGrows(phase.live, dev, prefix);
      }
    case Finalize(orig) =>
      if orig != [] && phase.Closed? {
        SeqAssociative(Built(phase.live, prefix).insts, phase.tail, Mark(orig, Label(prefix, -1)));
      }
  }

  /**
   Whatever is called in whatever order, finalize included: the builder holds
   consecutive blocks for the rules it took, a wildcard only last, and nothing else
   until it is finalized.
   */
  lemma {:induction false} ReachableStates(phase: Phase, calls: seq<Call>, prefix: string)
    requires WildcardLast(phase.live)
    ensures Feed(Held(phase, prefix), calls, prefix) == Held(Reached(phase, calls, prefix), prefix)
    ensures WildcardLast(Reached(phase, calls, prefix).live)
    decreases calls
  {
    if calls != [] {
      PhaseStep(phase, calls[0], prefix);
      ReachableStates(Advance(phase, calls[0], prefix), calls[1..], prefix);
    }
  }

  /** Instruction `i` of block `k` is in its place. */
  predicate HoldsBlock(b: Builder, live: seq<Rule>, prefix: string, k: nat, i: nat)
    requires k < |live| && i < |Block(live[k])|
  {
    HoldsShape(b.insts, Start(live, k), Block(live[k]), prefix, k, i)
  }

  predicate HoldsShape(insts: seq<Insn>, start: nat, shape: Shape, prefix: string, k: nat, i: nat)
    requires i < |shape|
  {
    start + i < |insts| && insts[start + i] == SymBlock(shape, prefix, k)[i]
  }

  lemma {:induction false} BuiltHoldsBlock(live: seq<Rule>, prefix: string, k: nat, i: nat)
    requires k < |live| && i < |Block(live[k])|
    ensures HoldsBlock(Built(live, prefix), live, prefix, k, i)
  {
    var shapes := Shapes(live);
    assert shapes[k] == Block(live[k]);
    assert Start(live, k) == LabelAt(shapes, k);
    ChainPosition(shapes, prefix, k, i);
  }

  lemma {:induction false} HeldBlock(phase: Phase, prefix: string, k: nat, i: nat)
    requires k < |phase.live| && i < |Block(phase.live[k])|
    ensures HoldsBlock(Held(phase, prefix), phase.live, prefix, k, i)
    ensures Held(phase, prefix).blockID == if phase.Building? then |phase.live| else -1
  {
    BuiltHoldsBlock(phase.live, prefix, k, i);
  }

  /**
   In every reachable state block `k` is the code of rule `k`; blockID counts the
   blocks, until the builder is finalized.
   */
  lemma {:induction false} BlockEncodesRule(phase: Phase, calls: seq<Call>, prefix: string, k: nat, i: nat)
    requires WildcardLast(phase.live)
    requires var live := Reached(phase, calls, prefix).live; k < |live| && i < |Block(live[k])|
    ensures var b, now := Feed(Held(phase, prefix), calls, prefix), Reached(phase, calls, prefix);
            HoldsBlock(b, now.live, prefix, k, i) && b.blockID == if now.Building? then |now.live| else -1
  {
    ReachableStates(phase, calls, prefix);
    HeldBlock(Reached(phase, calls, prefix), prefix, k, i);
  }

  lemma ChainPosition(shapes: seq<Shape>, prefix: string, k: nat, i: nat)
    requires NonEmpty(shapes) && k < |shapes| && i < |shapes[k]|
    ensures var insts := Unlabelled(Prologue()) + SymBlocks(shapes, prefix);
            HoldsShape(insts, LabelAt(shapes, k), shapes[k], prefix, k, i)
  {
    SymBlocksAt(shapes, prefix, k, i);
  }

  predicate OnlyAppends(calls: seq<Call>) {
    forall i :: 0 <= i < |calls| ==> calls[i].AppendDevice?
  }

  /** Behind a wildcard, and after finalize, no append changes anything. */
  lemma {:induction false} Frozen(b: Builder, calls: seq<Call>, prefix: string)
    requires (b.hasWildCard || b.blockID < 0) && OnlyAppends(calls)
    ensures Feed(b, calls, prefix) == b
    decreases calls
  {
    if calls != [] {
      assert calls[0].AppendDevice?;
      Frozen(b, calls[1..], prefix);
    }
  }

  /** After finalize every append fails for good; only finalize itself still adds something, at the end. */
  lemma {:induction false} ClosedForGood(b: Builder, calls: seq<Call>, dev: Rule, prefix: string)
    requires b.blockID < 0
    ensures var after := Feed(b, calls, prefix);
            after.blockID < 0 && b.insts <= after.insts && Append(after, dev, prefix) == Failure(Finalized)
    decreases calls
  {
    if calls != [] {
      var r := Answered(b, calls[0], prefix);
      ClosedForGood(if r.Success? then r.value else b, calls[1..], dev, prefix);
    }
  }

  // ---------- Refusal ----------

  /** The letter reported is the first that is none of r, w and m. */
  lemma {:induction false} FirstUnknownIs(access: string)
    ensures FirstUnknown(access).None? <==> forall i :: 0 <= i < |access| ==> access[i] in {'r', 'w', 'm'}
    ensures FirstUnknown(access).Some? ==>
              exists i :: 0 <= i < |access| && access[i] == FirstUnknown(access).value &&
                          access[i] !in {'r', 'w', 'm'} &&
                          forall j :: 0 <= j < i ==> access[j] in {'r', 'w', 'm'}
  {
    if access != [] {
      var rest := access[1..];
      FirstUnknownIs(rest);
      assert forall i :: 0 < i < |access| ==> access[i] == rest[i - 1];
      if FirstUnknown(access).Some? && access[0] in {'r', 'w', 'm'} {
        var i :| 0 <= i < |rest| && rest[i] == FirstUnknown(rest).value && rest[i] !in {'r', 'w', 'm'} &&
                 forall j :: 0 <= j < i ==> rest[j] in {'r', 'w', 'm'};
        assert access[i + 1] == rest[i];
      }
    }
  }

  /** What a rule has to be like. */
  lemma ValidExactly(rule: Rule)
    ensures Valid(rule) <==>
            && rule.kind in {"a", "b", "c"}
            && rule.major.Some? && rule.major.value <= 0xFFFF_FFFF
            && rule.minor.Some? && rule.minor.value <= 0xFFFF_FFFF
            && forall i :: 0 <= i < |rule.access| ==> rule.access[i] in {'r', 'w', 'm'}
  {
    FirstUnknownIs(rule.access);
  }

  predicate TooLarge(number: Option<Words.i64>) { number.Some? && number.value > 0xFFFF_FFFF }

  /** Type, major number, minor number and letters are looked at in this order; the first defect is reported. */
  lemma RefusedBecause(rule: Rule, i: nat)
    ensures rule.kind !in {"a", "b", "c"} ==> CheckRule(rule) == Some(InvalidKind(rule.kind))
    ensures rule.kind in {"a", "b", "c"} && TooLarge(rule.major) ==>
              CheckRule(rule) == Some(InvalidMajor(rule.major.value))
    ensures rule.kind in {"a", "b", "c"} && rule.major.Some? && !TooLarge(rule.major) && TooLarge(rule.minor) ==>
              CheckRule(rule) == Some(InvalidMinor(rule.major.value))
    ensures rule.kind in {"a", "b", "c"} && rule.major.Some? && !TooLarge(rule.major) &&
            rule.minor.Some? && !TooLarge(rule.minor) && i < |rule.access| && rule.access[i] !in {'r', 'w', 'm'} &&
            (forall j :: 0 <= j < i ==> rule.access[j] in {'r', 'w', 'm'}) ==>
              CheckRule(rule) == Some(UnknownAccess(rule.access[i]))
  {
    FirstUnknownIs(rule.access);
  }

  /** Rule `i` is bad, and no wildcard behind it keeps it from being looked at. */
  predicate Faulty(rules: seq<Rule>, i: int) {
    0 <= i < |rules| && !Valid(rules[i]) && forall j :: i < j < |rules| ==> !Wildcard(rules[j])
  }

  lemma FaultyInFront(rules: seq<Rule>, i: int)
    requires |rules| > 0 && 0 <= i < |rules| - 1
    ensures Faulty(rules, i) <==> Faulty(rules[..|rules| - 1], i) && !Wildcard(rules[|rules| - 1])
  {
    var front := rules[..|rules| - 1];
    assert forall j :: 0 <= j < |front| ==> front[j] == rules[j];
  }

  /** A list is refused exactly when it holds a faulty rule; rules before a wildcard are never looked at. */
  lemma {:induction false} RefusedExactly(rules: seq<Rule>)
    ensures BuildFailure(rules).Some? <==> exists i :: Faulty(rules, i)
  {
    if rules != [] {
      var n := |rules| - 1;
      RefusedExactly(rules[..n]);
      if !Valid(rules[n]) {
        assert Faulty(rules, n);
      } else if i :| Faulty(rules, i) {
        FaultyInFront(rules, i);
      } else if i :| Faulty(rules[..n], i) {
        FaultyInFront(rules, i);
      }
    }
  }

  /** The error reported is that of the last faulty rule. */
  lemma {:induction false} RefusedWith(rules: seq<Rule>, i: nat)
    requires Faulty(rules, i) && forall j :: i < j < |rules| ==> Valid(rules[j])
    ensures BuildFailure(rules) == CheckRule(rules[i])
  {
    if i < |rules| - 1 {
      FaultyInFront(rules, i);
      RefusedWith(rules[..|rules| - 1], i);
    }
  }

  // ---------- A wildcard ends the search ----------

  lemma {:induction false} LiveConcat(a: seq<Rule>, b: seq<Rule>)
    ensures Live(a + b) == Live(b) + if HasWildcard(Live(b)) then [] else Live(a)
  {
    if b == [] {
      assert a + b == a;
    } else {
      var n := |b| - 1;
      assert (a + b)[|a + b| - 1] == b[n] && (a + b)[..|a + b| - 1] == a + b[..n];
      if Wildcard(b[n]) {
        assert Live(b)[0] == b[n];
      } else {
        LiveConcat(a, b[..n]);
        HasWildcardCons(b[n], Live(b[..n]));
        var rest := if HasWildcard(Live(b)) then [] else Live(a);
        SeqAssociative([b[n]], Live(b[..n]), rest);
      }
    }
  }

  lemma {:induction false} FailureConcat(a: seq<Rule>, b: seq<Rule>)
    ensures BuildFailure(a + b) ==
            if BuildFailure(b).Some? then BuildFailure(b) else if HasWildcard(Live(b)) then None else BuildFailure(a)
  {
    if b == [] {
      assert a + b == a;
    } else {
      var n := |b| - 1;
      assert (a + b)[|a + b| - 1] == b[n] && (a + b)[..|a + b| - 1] == a + b[..n];
      if Wildcard(b[n]) {
        assert Live(b)[0] == b[n];
      } else {
        FailureConcat(a, b[..n]);
        HasWildcardCons(b[n], Live(b[..n]));
      }
    }
  }

  lemma HasWildcardCons(rule: Rule, live: seq<Rule>)
    ensures HasWildcard([rule] + live) == (Wildcard(rule) || HasWildcard(live))
  {
    var all := [rule] + live;
    assert all[0] == rule;
    assert forall i :: 0 <= i < |live| ==> live[i] == all[i + 1];
  }

  lemma {:induction false} WildcardAccepts(live: seq<Rule>, r2: Words.u64, ctx: Context)
    requires HasWildcard(live)
    ensures Thread(live, r2, ctx).Some?
  {
    if !Wildcard(live[0]) {
      HasWildcardCons(live[0], live[1..]);
      assert live == [live[0]] + live[1..];
      WildcardAccepts(live[1..], Scratch(live[0], r2, ctx.Access()), ctx);
    }
  }

  /** With a wildcard, neither earlier rules nor the old program have any say. */
  lemma WildcardDecides(earlier: seq<Rule>, rules: seq<Rule>, one: Code, other: Code, ctx: Context, regs: Regs)
    requires HasWildcard(Live(rules)) && Entry(regs)
    ensures Run(FilterCode(Live(earlier + rules)) + one, ctx, State(0, regs)) ==
            Run(FilterCode(Live(rules)) + other, ctx, State(0, regs))
  {
    LiveConcat(earlier, rules);
    assert Live(earlier + rules) == Live(rules);
    WildcardAccepts(Live(rules), ctx.Kind(), ctx);
    FilterRefinesThread(Live(rules), one, ctx, regs);
    FilterRefinesThread(Live(rules), other, ctx, regs);
  }
}
