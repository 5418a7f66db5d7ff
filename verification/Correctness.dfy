/**
 The compiler is correct: the linked program answers with the last matching rule,
 and asks the old program when no rule matches.
 */
module Correctness {
  import opened Bpf
  import opened BuilderStates
  import opened DeviceFilter
  import opened FilterRun
  import opened Linker
  import opened Misreading
  import opened Rules
  import opened RuleTests
  import opened Splice
  import opened TypeRegister
  import opened Words
  import opened Wrappers

  // ---------- First live match is last match ----------

  /** The verdict of the last matching rule, wide hits not counting as matches. */
  function LoadedVerdict(rules: seq<Rule>, ctx: Context): Option<bool> {
    if rules == [] then None
    else
      var last := rules[|rules| - 1];
      if Meets(last, ctx) then Some(last.allow) else LoadedVerdict(rules[..|rules| - 1], ctx)
  }

  lemma WildcardMeets(rule: Rule, ctx: Context)
    requires Wildcard(rule)
    ensures Meets(rule, ctx)
  {
  }

  /** Walking backwards and stopping at a wildcard loses nothing. */
  lemma {:induction false} LiveVerdict(rules: seq<Rule>, ctx: Context)
    ensures FirstMatch(Live(rules), ctx) == LoadedVerdict(rules, ctx)
  {
    if rules != [] {
      var last := rules[|rules| - 1];
      if Wildcard(last) {
        WildcardMeets(last, ctx);
      } else {
        LiveVerdict(rules[..|rules| - 1], ctx);
        assert Live(rules)[1..] == Live(rules[..|rules| - 1]);
      }
    }
  }

  /** Where the device type is seen, trying the blocks in order finds the first match. */
  lemma {:induction false} ThreadIsFirstMatch(live: seq<Rule>, r2: u64, ctx: Context)
    requires AllValid(live) && SeesType(live, r2, ctx)
    ensures Thread(live, r2, ctx) == FirstMatch(live, ctx)
  {
    if live != [] {
      if !Typed(live[0]) {
        UntypedIgnoresR2(live[0], r2, ctx.Kind(), ctx);
      }
      BlockExact(live[0], ctx);
      if !Accepts(live[0], r2, ctx) {
        ThreadIsFirstMatch(live[1..], Scratch(live[0], r2, ctx.Access()), ctx);
      }
    }
  }

  // ---------- The side condition on the list as written ----------

  /** Index of the last wildcard, or of the first rule if there is none. */
  function FirstLive(rules: seq<Rule>): (k: nat)
    ensures k <= |rules| && (rules != [] ==> k < |rules|)
  {
    if |rules| <= 1 then 0
    else if Wildcard(rules[|rules| - 1]) then |rules| - 1
    else FirstLive(rules[..|rules| - 1])
  }

  /** Blocks come in reverse: block `k` is for the k-th rule from the end, down to the last wildcard. */
  lemma {:induction false} LiveIsReversedSuffix(rules: seq<Rule>)
    ensures |Live(rules)| == |rules| - FirstLive(rules)
    ensures forall k :: 0 <= k < |Live(rules)| ==> Live(rules)[k] == rules[|rules| - 1 - k]
    ensures forall i :: FirstLive(rules) < i < |rules| ==> !Wildcard(rules[i])
    ensures FirstLive(rules) > 0 ==> Wildcard(rules[FirstLive(rules)])
  {
    if |rules| == 1 {
      assert Live(rules[..0]) == [];
    } else if |rules| > 1 && !Wildcard(rules[|rules| - 1]) {
      LiveIsReversedSuffix(rules[..|rules| - 1]);
    }
  }

  /**
   Among the rules that count: rule `j` has partial access and stands later than rule
   `i`, which has a type. That does no harm only if rule `j` has a type too, and a
   rule still later takes every request of that type.
   */
  predicate Overwrites(rules: seq<Rule>, i: int, j: int) {
    OverwritesFrom(rules, FirstLive(rules), i, j)
  }

  predicate OverwritesFrom(rules: seq<Rule>, first: nat, i: int, j: int) {
    && first <= i < j < |rules| && Typed(rules[i]) && Partial(rules[j])
    && (Typed(rules[j]) ==> forall h :: j < h < |rules| ==> !Blanket(rules[h], rules[j].kind))
  }

  predicate Undisturbed(rules: seq<Rule>) {
    forall i, j :: 0 <= i < j < |rules| ==> !Overwrites(rules, i, j)
  }

  lemma OverwritesReversed(rules: seq<Rule>, first: nat, live: seq<Rule>, i: int, j: int)
    requires first <= |rules| && |live| == |rules| - first
    requires forall k :: 0 <= k < |live| ==> live[k] == rules[|rules| - 1 - k]
    ensures OverwritesFrom(rules, first, i, j) <==> Disturbs(live, |rules| - 1 - j, |rules| - 1 - i)
  {
    var n := |rules|;
    if first <= i < j < n && Typed(rules[i]) && Partial(rules[j]) && Typed(rules[j]) {
      if h :| j < h < n && Blanket(rules[h], rules[j].kind) {
        assert Blanket(live[n - 1 - h], live[n - 1 - j].kind);
      }
      if h :| 0 <= h < n - 1 - j && Blanket(live[h], live[n - 1 - j].kind) {
        assert Blanket(rules[n - 1 - h], rules[j].kind);
      }
    }
  }

  lemma OverwritesIsDisturbs(rules: seq<Rule>, i: int, j: int)
    ensures Overwrites(rules, i, j) <==> Disturbs(Live(rules), |rules| - 1 - j, |rules| - 1 - i)
  {
    LiveIsReversedSuffix(rules);
    OverwritesReversed(rules, FirstLive(rules), Live(rules), i, j);
  }

  lemma UndisturbedBlocks(rules: seq<Rule>)
    ensures Undisturbed(rules) <==> Undisturbing(Live(rules))
  {
    var n := |rules|;
    if i, j :| Overwrites(rules, i, j) {
      OverwritesIsDisturbs(rules, i, j);
    }
    if i, j :| Disturbs(Live(rules), i, j) {
      OverwritesIsDisturbs(rules, n - 1 - j, n - 1 - i);
    }
  }

  lemma LiveWildcardLast(rules: seq<Rule>)
    requires BuildFailure(rules).None?
    ensures WildcardLast(Live(rules))
  {
    LiveValid(rules);
    LiveIsReversedSuffix(rules);
  }

  /** R2 holds the device type wherever a block tests it, on every request, exactly for undisturbed lists. */
  lemma UndisturbedExactly(rules: seq<Rule>)
    requires BuildFailure(rules).None?
    ensures (forall ctx: Context :: SeesType(Live(rules), ctx.Kind(), ctx)) <==> Undisturbed(rules)
  {
    LiveWildcardLast(rules);
    UndisturbedBlocks(rules);
    TypeSeenExactly(Live(rules));
  }

  /** Rules with full access, as this repository makes them, never disturb each other. */
  lemma FullAccessUndisturbed(rules: seq<Rule>)
    requires forall i :: 0 <= i < |rules| ==> FullAccess(rules[i].access)
    ensures Undisturbed(rules)
  {
  }

  /** The rule that decides is no wide hit. */
  predicate FaithfulTo(rules: seq<Rule>, ctx: Context) {
    forall i :: 0 <= i < |rules| && IsLastMatch(rules, i, ctx) ==> Faithful(rules[i], ctx)
  }

  lemma LastMatchInFront(rules: seq<Rule>, i: int, ctx: Context)
    requires rules != [] && !Matches(rules[|rules| - 1], ctx) && IsLastMatch(rules[..|rules| - 1], i, ctx)
    ensures IsLastMatch(rules, i, ctx)
  {
    var front := rules[..|rules| - 1];
    assert forall j :: 0 <= j < |front| ==> rules[j] == front[j];
  }

  /** Then the verdict of the loaded rules is the verdict of the rules. */
  lemma {:induction false} FaithfulVerdict(rules: seq<Rule>, ctx: Context)
    requires FaithfulTo(rules, ctx)
    ensures LoadedVerdict(rules, ctx) == Verdict(rules, ctx)
  {
    if rules != [] {
      var n := |rules| - 1;
      if Matches(rules[n], ctx) {
        assert IsLastMatch(rules, n, ctx);
      } else {
        forall i | IsLastMatch(rules[..n], i, ctx) ensures Faithful(rules[..n][i], ctx) {
          LastMatchInFront(rules, i, ctx);
        }
        FaithfulVerdict(rules[..n], ctx);
      }
    }
  }

  // ---------- When the threaded blocks decide as the rules do ----------

  /** The range of numbers in question. */
  function Range(ctx: Context): (bound: nat)
    ensures Below(ctx, bound)
  {
    if Narrow(ctx) then NARROW else 0x1_0000_0000
  }

  /**
   Either no type test ever finds R2 overwritten, or what the tests find instead
   makes no difference to any real request in the range of this one.
   */
  predicate Reliable(rules: seq<Rule>, ctx: Context) {
    Undisturbed(rules) || (RealRequest(ctx) && PassesSamples(Live(rules), Range(ctx)))
  }

  lemma UndisturbedAgrees(rules: seq<Rule>, ctx: Context)
    requires BuildFailure(rules).None? && Undisturbed(rules)
    ensures Agrees(Live(rules), ctx)
  {
    LiveValid(rules);
    UndisturbedExactly(rules);
    ThreadIsFirstMatch(Live(rules), ctx.Kind(), ctx);
  }

  lemma ReliableAgrees(rules: seq<Rule>, ctx: Context)
    requires BuildFailure(rules).None? && Reliable(rules, ctx)
    ensures Agrees(Live(rules), ctx)
  {
    if Undisturbed(rules) {
      UndisturbedAgrees(rules, ctx);
    } else {
      LiveValid(rules);
      SamplesSuffice(Live(rules), Range(ctx));
    }
  }

  /** Undisturbed lists, and lists whose blocks read right, pass the samples. */
  lemma PassesWhenUndisturbedOrReadRight(rules: seq<Rule>, bound: nat)
    requires BuildFailure(rules).None? && (Undisturbed(rules) || ReadsRight(Live(rules)))
    ensures PassesSamples(Live(rules), bound)
  {
    LiveValid(rules);
    forall ctx: Context | RealRequest(ctx) && Below(ctx, bound) ensures Agrees(Live(rules), ctx) {
      if Undisturbed(rules) {
        UndisturbedAgrees(rules, ctx);
      } else {
        ReadsRightSuffices(Live(rules), ctx);
      }
    }
    SamplesSuffice(Live(rules), bound);
  }

  // ---------- The theorem ----------

  /** The registers the filter leaves as they were on entry. */
  const UNTOUCHED: set<Reg> := {0, 1, 6, 7, 8, 9}

  lemma HandedOverAgrees(live: seq<Rule>, ctx: Context, regs: Regs)
    ensures Agree(regs, HandedOver(live, ctx, regs), UNTOUCHED)
  {
  }

  /** The outcome is the verdict, or without one what the old code does on its own. */
  predicate Settles(v: Option<bool>, outcome: Outcome, orig: Code, ctx: Context, regs: Regs) {
    && (v.Some? ==> outcome == Answer(v.value))
    && (v.None? && DefinesBeforeUse(orig, 0, UNTOUCHED) ==> outcome == Run(orig, ctx, State(0, regs)))
  }

  /** On code: the last rule that matches once loaded decides, or else the old code as it runs on its own. */
  predicate FilterSettles(rules: seq<Rule>, orig: Code, ctx: Context, regs: Regs) {
    Settles(LoadedVerdict(rules, ctx), Run(FilterCode(Live(rules)) + orig, ctx, State(0, regs)), orig, ctx, regs)
  }

  lemma AgreeingFilter(rules: seq<Rule>, orig: Code, ctx: Context, regs: Regs)
    requires Agrees(Live(rules), ctx) && Entry(regs)
    ensures FilterSettles(rules, orig, ctx, regs)
  {
    var live := Live(rules);
    FilterRefinesThread(live, orig, ctx, regs);
    LiveVerdict(rules, ctx);
    if DefinesBeforeUse(orig, 0, UNTOUCHED) {
      HandedOverAgrees(live, ctx, regs);
      RunAgrees(orig, ctx, 0, regs, HandedOver(live, ctx, regs), UNTOUCHED);
    }
  }

  lemma FilterExact(rules: seq<Rule>, orig: Code, ctx: Context, regs: Regs)
    requires BuildFailure(rules).None? && Reliable(rules, ctx) && Entry(regs)
    ensures FilterSettles(rules, orig, ctx, regs)
  {
    ReliableAgrees(rules, ctx);
    AgreeingFilter(rules, orig, ctx, regs);
  }

  /** An old program that gives the same answer to every request. */
  lemma ConstantProgram(allow: bool, ctx: Context, regs: Regs)
    ensures DefinesBeforeUse(AcceptBlock(allow), 0, UNTOUCHED)
    ensures Run(AcceptBlock(allow), ctx, State(0, regs)) == Answer(allow)
  {
    var value := Num(if allow then 1 else 0);
    var code: Code := AcceptBlock(allow);
    assert Step(code, ctx, State(0, regs)) == Running(State(1, regs[R0 := value]));
    assert Step(code, ctx, State(1, regs[R0 := value])) == Stopped(Returned(value));
  }

  /** Where the blocks disagree with the rules, some old program brings it to light. */
  lemma DisagreementShows(rules: seq<Rule>, ctx: Context, regs: Regs) returns (orig: Code)
    requires !Agrees(Live(rules), ctx) && Entry(regs)
    ensures !FilterSettles(rules, orig, ctx, regs)
  {
    var live := Live(rules);
    var threaded, right := Thread(live, ctx.Kind(), ctx), FirstMatch(live, ctx);
    var other := if threaded.Some? then !threaded.value else !right.value;
    orig := AcceptBlock(other);
    FilterRefinesThread(live, orig, ctx, regs);
    LiveVerdict(rules, ctx);
    ConstantProgram(other, ctx, regs);
    ConstantProgram(other, ctx, HandedOver(live, ctx, regs));
  }

  lemma FailingRequest(live: seq<Rule>, bound: nat) returns (ctx: Context)
    requires AllValid(live) && !PassesSamples(live, bound)
    ensures RealRequest(ctx) && Below(ctx, bound) && !Agrees(live, ctx)
  {
    SamplesSuffice(live, bound);
    ctx :| RealRequest(ctx) && Below(ctx, bound) && !Agrees(live, ctx);
  }

  lemma SomeEntry() returns (regs: Regs)
    ensures Entry(regs)
  {
    regs := [ZERO, ContextPointer, ZERO, ZERO, ZERO, ZERO, ZERO, ZERO, ZERO, ZERO];
  }

  lemma FailingSampleShows(rules: seq<Rule>, bound: nat) returns (ctx: Context, orig: Code, regs: Regs)
    requires BuildFailure(rules).None? && !PassesSamples(Live(rules), bound)
    ensures RealRequest(ctx) && Below(ctx, bound) && Entry(regs) && !FilterSettles(rules, orig, ctx, regs)
  {
    LiveValid(rules);
    ctx := FailingRequest(Live(rules), bound);
    regs := SomeEntry();
    orig := DisagreementShows(rules, ctx, regs);
  }

  lemma PassingFilter(rules: seq<Rule>, bound: nat, orig: Code, ctx: Context, regs: Regs)
    requires BuildFailure(rules).None? && PassesSamples(Live(rules), bound)
    requires RealRequest(ctx) && Below(ctx, bound) && Entry(regs)
    ensures FilterSettles(rules, orig, ctx, regs)
  {
    LiveValid(rules);
    SamplesSuffice(Live(rules), bound);
    AgreeingFilter(rules, orig, ctx, regs);
  }

  /**
   In any range of device numbers: the filter settles every real request in front of
   every old program, from all entry registers, exactly when its rules pass the
   samples.
   */
  lemma FilterSettlesExactly(rules: seq<Rule>, bound: nat)
    requires BuildFailure(rules).None?
    ensures (forall ctx: Context, orig: Code, regs: Regs ::
               RealRequest(ctx) && Below(ctx, bound) && Entry(regs) ==> FilterSettles(rules, orig, ctx, regs))
            <==> PassesSamples(Live(rules), bound)
  {
    if PassesSamples(Live(rules), bound) {
      forall ctx: Context, orig: Code, regs: Regs | RealRequest(ctx) && Below(ctx, bound) && Entry(regs)
        ensures FilterSettles(rules, orig, ctx, regs)
      {
        PassingFilter(rules, bound, orig, ctx, regs);
      }
    } else {
      var ctx, orig, regs := FailingSampleShows(rules, bound);
    }
  }

  /** The last matching rule decides, or else the old code as it runs on its own. */
  predicate FilterRight(rules: seq<Rule>, orig: Code, ctx: Context, regs: Regs) {
    Settles(Verdict(rules, ctx), Run(FilterCode(Live(rules)) + orig, ctx, State(0, regs)), orig, ctx, regs)
  }

  lemma NarrowVerdict(rules: seq<Rule>, orig: Code, ctx: Context, regs: Regs)
    requires Narrow(ctx)
    ensures FilterRight(rules, orig, ctx, regs) <==> FilterSettles(rules, orig, ctx, regs)
  {
    FaithfulVerdict(rules, ctx);
  }

  /** For device numbers as the kernel makes them, "settles" is about the rules' own verdict. */
  lemma FilterRightExactly(rules: seq<Rule>)
    requires BuildFailure(rules).None?
    ensures (forall ctx: Context, orig: Code, regs: Regs ::
               RealRequest(ctx) && Narrow(ctx) && Entry(regs) ==> FilterRight(rules, orig, ctx, regs))
            <==> PassesSamples(Live(rules), NARROW)
  {
    if PassesSamples(Live(rules), NARROW) {
      forall ctx: Context, orig: Code, regs: Regs | RealRequest(ctx) && Narrow(ctx) && Entry(regs)
        ensures FilterRight(rules, orig, ctx, regs)
      {
        PassingFilter(rules, NARROW, orig, ctx, regs);
        NarrowVerdict(rules, orig, ctx, regs);
      }
    } else {
      var ctx, orig, regs := FailingSampleShows(rules, NARROW);
      NarrowVerdict(rules, orig, ctx, regs);
    }
  }

  /** The same with the rules' own verdict, unless the deciding rule is a wide hit. */
  lemma FilterCorrect(rules: seq<Rule>, orig: Code, ctx: Context, regs: Regs)
    requires BuildFailure(rules).None? && Reliable(rules, ctx) && FaithfulTo(rules, ctx) && Entry(regs)
    ensures FilterRight(rules, orig, ctx, regs)
  {
    FilterExact(rules, orig, ctx, regs);
    FaithfulVerdict(rules, ctx);
  }

  /**
   From source to loaded code. Prepending succeeds, the result loads, and for every
   request the loaded program answers with the last matching rule; if no rule
   matches, it gives the old program's own outcome, provided the old program sets
   registers R2 to R5 before reading them.
   */
  lemma CompilerCorrect(rules: seq<Rule>, orig: seq<Insn>, prefix: string, ctx: Context, regs: Regs)
    requires BuildFailure(rules).None? && Reliable(rules, ctx) && FaithfulTo(rules, ctx) && Entry(regs)
    requires orig != [] && FreshPrefix(prefix, orig) && Resolve(orig).Success?
    ensures Prepend(rules, orig, prefix).Success?
    ensures var loaded := Resolve(Prepend(rules, orig, prefix).value);
            && loaded.Success?
            && var v, outcome := Verdict(rules, ctx), Run(loaded.value, ctx, State(0, regs));
               && (v.Some? ==> outcome == Answer(v.value))
               && (v.None? && DefinesBeforeUse(Resolve(orig).value, 0, UNTOUCHED)
                   ==> outcome == Run(Resolve(orig).value, ctx, State(0, regs)))
  {
    LinkResolves(Live(rules), orig, prefix);
    FilterCorrect(rules, Resolve(orig).value, ctx, regs);
  }

  // ---------- Where it fails ----------

  const ACCEL: Rule := Rule(true, "c", Some(5), Some(6), "rwm")
  const CHAR_READER: Rule := Rule(true, "c", Some(7), Some(8), "r")
  const BLOCK_READER: Rule := Rule(true, "b", Some(7), Some(8), "r")

  lemma TwoRules(a: Rule, b: Rule, ctx: Context)
    requires Valid(a) && Valid(b) && !Wildcard(a) && !Wildcard(b)
    ensures BuildFailure([a, b]).None? && Live([a, b]) == [b, a] && FirstLive([a, b]) == 0
    ensures Verdict([a, b], ctx) ==
            if Matches(b, ctx) then Some(b.allow) else if Matches(a, ctx) then Some(a.allow) else None
  {
    assert [a, b][..1] == [a] && [a][..0] == [];
    assert BuildFailure([a]) == BuildFailure([]) == None;
    assert Live([a]) == [a] + Live([]) == [a];
    assert Live([a, b]) == [b] + Live([a]);
    assert Verdict([a], ctx) == if Matches(a, ctx) then Some(a.allow) else None;
  }

  lemma TwoBlocks(b: Rule, a: Rule, r2: u64, ctx: Context)
    ensures Thread([b, a], r2, ctx) ==
            if Accepts(b, r2, ctx) then Some(b.allow)
            else if Accepts(a, Scratch(b, r2, ctx.Access()), ctx) then Some(a.allow) else None
  {
    assert [b, a][1..] == [a] && [a][1..] == [];
    var left := Scratch(b, r2, ctx.Access());
    assert Thread([a], left, ctx) == if Accepts(a, left, ctx) then Some(a.allow) else None;
  }

  /** The reader's block comes first; the accelerator's then finds in R2 what the reader's left. */
  lemma ReaderFirst(reader: Rule, ctx: Context)
    requires reader in {CHAR_READER, BLOCK_READER} && ctx.major == 5 && ctx.minor == 6
    ensures BuildFailure([ACCEL, reader]).None? && Live([ACCEL, reader]) == [reader, ACCEL]
    ensures !Undisturbed([ACCEL, reader])
    ensures Verdict([ACCEL, reader], ctx) == if ctx.Kind() == DEV_CHAR then Some(true) else None
    ensures var left := Scratch(reader, ctx.Kind(), ctx.Access());
            Thread([reader, ACCEL], ctx.Kind(), ctx) == if left == DEV_CHAR then Some(true) else None
  {
    assert FirstUnknown("rwm").None? && FirstUnknown("r").None?;
    assert Valid(ACCEL) && Valid(reader);
    TwoRules(ACCEL, reader, ctx);
    TwoBlocks(reader, ACCEL, ctx.Kind(), ctx);
    assert Overwrites([ACCEL, reader], 0, 1);
  }

  /**
   A rule that lets a character device be read, listed after the accelerator's, hides
   the latter from a request to write: the type has been overwritten with 0.
   */
  lemma DisturbedTypeTest()
    ensures var rules, write := [ACCEL, CHAR_READER], Context(0x4_0002, 5, 6);
            && BuildFailure(rules).None? && !Undisturbed(rules) && FaithfulTo(rules, write)
            && Verdict(rules, write) == Some(true)
            && Thread(Live(rules), write.Kind(), write) == None
  {
    var write := Context(0x4_0002, 5, 6);
    assert write.Kind() == DEV_CHAR && write.Access() == ACC_WRITE;
    ReaderFirst(CHAR_READER, write);
    BitAndMeets(ACC_WRITE, Mask("r"));
  }

  lemma WrongAnswerFails(rules: seq<Rule>, ctx: Context)
    requires BuildFailure(rules).None? && RealRequest(ctx) && Narrow(ctx)
    requires Thread(Live(rules), ctx.Kind(), ctx) != Verdict(rules, ctx)
    ensures !PassesSamples(Live(rules), NARROW)
  {
    LiveValid(rules);
    LiveVerdict(rules, ctx);
    FaithfulVerdict(rules, ctx);
    SamplesSuffice(Live(rules), NARROW);
    assert !Agrees(Live(rules), ctx);
  }

  /**
   The other way round: to read block device 5:6, which no rule allows, is allowed by
   the rule for character device 5:6. The overlap left in R2 is 2, the code of
   character devices.
   */
  lemma WrongTypeAllowed()
    ensures var rules, read := [ACCEL, BLOCK_READER], Context(0x2_0001, 5, 6);
            && BuildFailure(rules).None? && RealRequest(read) && Narrow(read)
            && Verdict(rules, read) == None
            && Thread(Live(rules), read.Kind(), read) == Some(true)
            && !PassesSamples(Live(rules), NARROW)
  {
    var rules, read := [ACCEL, BLOCK_READER], Context(0x2_0001, 5, 6);
    assert read.Kind() == DEV_BLOCK && read.Access() == ACC_READ;
    ReaderFirst(BLOCK_READER, read);
    OverlapOfRead(ACC_READ);
    WrongAnswerFails(rules, read);
  }
}
