/** Two batches of rules prepended one after the other, against both at once. */
module Composition {
  import opened Bpf
  import opened BuilderStates
  import opened Correctness
  import opened DeviceFilter
  import opened FilterRun
  import opened Linker
  import opened Misreading
  import opened Rules
  import opened Splice
  import opened TypeRegister
  import opened Words
  import opened Wrappers

  predicate NoPartial(live: seq<Rule>) {
    forall i :: 0 <= i < |live| ==> !Partial(live[i])
  }

  lemma {:induction false} ThreadConcat(a: seq<Rule>, b: seq<Rule>, r2: u64, ctx: Context)
    ensures Thread(a + b, r2, ctx) ==
            if Thread(a, r2, ctx).Some? then Thread(a, r2, ctx) else Thread(b, Left(a, r2, ctx.Access()), ctx)
  {
    if a == [] {
      assert a + b == b;
    } else {
      assert (a + b)[1..] == a[1..] + b;
      ThreadConcat(a[1..], b, Scratch(a[0], r2, ctx.Access()), ctx);
    }
  }

  lemma {:induction false} NoPartialKeepsType(live: seq<Rule>, r2: u64, ctx: Context)
    requires NoPartial(live)
    ensures Left(live, r2, ctx.Access()) == r2
  {
    if live != [] {
      NoPartialKeepsType(live[1..], r2, ctx);
    }
  }

  lemma {:induction false} UntypedThread(live: seq<Rule>, r2: u64, r2': u64, ctx: Context)
    requires Untyped(live)
    ensures Thread(live, r2, ctx) == Thread(live, r2', ctx)
  {
    if live != [] {
      UntypedIgnoresR2(live[0], r2, r2', ctx);
      UntypedThread(live[1..], Scratch(live[0], r2, ctx.Access()), Scratch(live[0], r2', ctx.Access()), ctx);
    }
  }

  /** Every register but R2. */
  const ALL_BUT_R2: set<Reg> := {0, 1, 3, 4, 5, 6, 7, 8, 9}

  /** The later batch leaves the device type alone, or the earlier one does not look at it. */
  predicate Independent(earlier: seq<Rule>, later: seq<Rule>) {
    NoPartial(Live(later)) || Untyped(Live(earlier))
  }

  /** The verdict of two filters in a row: the second unpacks the request anew. */
  function InTurn(earlier: seq<Rule>, later: seq<Rule>, ctx: Context): Option<bool> {
    var v := Thread(Live(later), ctx.Kind(), ctx);
    if v.Some? then v else Thread(Live(earlier), ctx.Kind(), ctx)
  }

  lemma UnpackedTwice(live: seq<Rule>, ctx: Context, regs: Regs, between: Regs)
    requires Agree(regs, between, UNTOUCHED)
    ensures HandedOver(live, ctx, between) == HandedOver(live, ctx, regs)
  {
  }

  /** Two prepends, whatever the rules: the later filter, then the earlier one, then the old program. */
  lemma TwoPrepends(earlier: seq<Rule>, later: seq<Rule>, orig: Code, ctx: Context, regs: Regs)
    requires Entry(regs)
    ensures var v, a := InTurn(earlier, later, ctx), Live(earlier);
            Run(FilterCode(Live(later)) + (FilterCode(a) + orig), ctx, State(0, regs)) ==
            if v.Some? then Answer(v.value) else Run(orig, ctx, State(0, HandedOver(a, ctx, regs)))
  {
    var a, b := Live(earlier), Live(later);
    FilterRefinesThread(b, FilterCode(a) + orig, ctx, regs);
    if Thread(b, ctx.Kind(), ctx).None? {
      var between := HandedOver(b, ctx, regs);
      HandedOverAgrees(b, ctx, regs);
      FilterRefinesThread(a, orig, ctx, between);
      UnpackedTwice(a, ctx, regs, between);
    }
  }

  /** The joint list comes to the verdict of the two filters. */
  predicate Joins(earlier: seq<Rule>, later: seq<Rule>, ctx: Context) {
    Thread(Live(earlier + later), ctx.Kind(), ctx) == InTurn(earlier, later, ctx)
  }

  lemma IndependentJoins(earlier: seq<Rule>, later: seq<Rule>, ctx: Context)
    requires Independent(earlier, later)
    ensures Joins(earlier, later, ctx)
  {
    var a, b, kind := Live(earlier), Live(later), ctx.Kind();
    LiveConcat(earlier, later);
    if HasWildcard(b) {
      WildcardAccepts(b, kind, ctx);
      assert Live(earlier + later) == b;
    } else {
      ThreadConcat(b, a, kind, ctx);
      if NoPartial(b) {
        NoPartialKeepsType(b, kind, ctx);
      } else {
        UntypedThread(a, kind, Left(b, kind, ctx.Access()), ctx);
      }
    }
  }

  /** The samples for both lists together. */
  predicate JoinsOnSamples(earlier: seq<Rule>, later: seq<Rule>) {
    var all := Live(later) + Live(earlier);
    forall kind: u16, access: u16, major, minor ::
      RealKind(kind) && RealAccess(access) && major in Tried(Majors(all)) && minor in Tried(Minors(all)) ==>
        Joins(earlier, later, Request(kind, access, major, minor))
  }

  lemma AlikePart(all: seq<Rule>, part: seq<Rule>, from: nat, a: Context, b: Context)
    requires Alike(all, a, b) && from + |part| <= |all| && all[from..][..|part|] == part
    ensures Alike(part, a, b)
  {
    forall i | 0 <= i < |part| ensures OffDevice(part[i], a) == OffDevice(part[i], b) {
      assert part[i] == all[from + i];
    }
  }

  lemma AlikeJoins(earlier: seq<Rule>, later: seq<Rule>, a: Context, b: Context)
    requires Alike(Live(later) + Live(earlier), a, b)
    ensures Joins(earlier, later, a) <==> Joins(earlier, later, b)
  {
    var all := Live(later) + Live(earlier);
    AlikePart(all, Live(later), 0, a, b);
    AlikePart(all, Live(earlier), |Live(later)|, a, b);
    LiveConcat(earlier, later);
    AlikePart(all, Live(earlier + later), 0, a, b);
    AlikeThread(Live(later), a.Kind(), a, b);
    AlikeThread(Live(earlier), a.Kind(), a, b);
    AlikeThread(Live(earlier + later), a.Kind(), a, b);
  }

  lemma JoinSamplesSuffice(earlier: seq<Rule>, later: seq<Rule>, ctx: Context)
    requires BuildFailure(earlier).None? && BuildFailure(later).None?
    requires JoinsOnSamples(earlier, later) && RealRequest(ctx)
    ensures Joins(earlier, later, ctx)
  {
    var all := Live(later) + Live(earlier);
    LiveValid(earlier);
    LiveValid(later);
    SampleAlike(all, ctx);
    AlikeJoins(earlier, later, ctx, SampleFor(all, ctx));
  }

  /** Prepending one list and then the other is the same as prepending both at once. */
  predicate TwiceIsOnce(earlier: seq<Rule>, later: seq<Rule>, orig: Code, ctx: Context, regs: Regs) {
    Run(FilterCode(Live(later)) + (FilterCode(Live(earlier)) + orig), ctx, State(0, regs)) ==
    Run(FilterCode(Live(earlier + later)) + orig, ctx, State(0, regs))
  }

  lemma JoiningBatches(earlier: seq<Rule>, later: seq<Rule>, orig: Code, ctx: Context, regs: Regs)
    requires Joins(earlier, later, ctx) && DefinesBeforeUse(orig, 0, ALL_BUT_R2) && Entry(regs)
    ensures TwiceIsOnce(earlier, later, orig, ctx, regs)
  {
    var a, both := Live(earlier), Live(earlier + later);
    TwoPrepends(earlier, later, orig, ctx, regs);
    FilterRefinesThread(both, orig, ctx, regs);
    HandedOverAlike(a, both, ctx, regs);
    RunAgrees(orig, ctx, 0, HandedOver(a, ctx, regs), HandedOver(both, ctx, regs), ALL_BUT_R2);
  }

  lemma HandedOverAlike(a: seq<Rule>, both: seq<Rule>, ctx: Context, regs: Regs)
    ensures Agree(HandedOver(a, ctx, regs), HandedOver(both, ctx, regs), ALL_BUT_R2)
  {
  }

  /** Either the batches leave each other's type tests alone, or it makes no difference to any real request. */
  predicate Combine(earlier: seq<Rule>, later: seq<Rule>, ctx: Context) {
    Independent(earlier, later) || (RealRequest(ctx) && JoinsOnSamples(earlier, later))
  }

  /** Also when a batch holds a wildcard, and whatever the access strings inside each batch do to each other. */
  lemma PrependTwice(earlier: seq<Rule>, later: seq<Rule>, orig: Code, ctx: Context, regs: Regs)
    requires BuildFailure(earlier).None? && BuildFailure(later).None? && Combine(earlier, later, ctx)
    requires DefinesBeforeUse(orig, 0, ALL_BUT_R2) && Entry(regs)
    ensures TwiceIsOnce(earlier, later, orig, ctx, regs)
  {
    if Independent(earlier, later) {
      IndependentJoins(earlier, later, ctx);
    } else {
      JoinSamplesSuffice(earlier, later, ctx);
    }
    JoiningBatches(earlier, later, orig, ctx, regs);
  }

  lemma DifferenceShows(earlier: seq<Rule>, later: seq<Rule>, ctx: Context, regs: Regs) returns (orig: Code)
    requires !Joins(earlier, later, ctx) && Entry(regs)
    ensures DefinesBeforeUse(orig, 0, ALL_BUT_R2) && !TwiceIsOnce(earlier, later, orig, ctx, regs)
  {
    var twice, once := InTurn(earlier, later, ctx), Thread(Live(earlier + later), ctx.Kind(), ctx);
    var other := if twice.Some? then !twice.value else !once.value;
    orig := AcceptBlock(other);
    TwoPrepends(earlier, later, orig, ctx, regs);
    FilterRefinesThread(Live(earlier + later), orig, ctx, regs);
    ConstantProgram(other, ctx, HandedOver(Live(earlier), ctx, regs));
    ConstantProgram(other, ctx, HandedOver(Live(earlier + later), ctx, regs));
    DefinesMonotone(orig, 0, UNTOUCHED, ALL_BUT_R2);
  }

  lemma FailingJoin(earlier: seq<Rule>, later: seq<Rule>) returns (ctx: Context)
    requires !JoinsOnSamples(earlier, later)
    ensures RealRequest(ctx) && !Joins(earlier, later, ctx)
  {
    var all := Live(later) + Live(earlier);
    var kind: u16, access: u16, major, minor :|
      RealKind(kind) && RealAccess(access) && major in Tried(Majors(all)) && minor in Tried(Minors(all)) &&
      !Joins(earlier, later, Request(kind, access, major, minor));
    ctx := Request(kind, access, major, minor);
  }

  /** On real requests, once is as good as twice exactly when the samples say so. */
  lemma PrependTwiceExactly(earlier: seq<Rule>, later: seq<Rule>)
    requires BuildFailure(earlier).None? && BuildFailure(later).None?
    ensures (forall ctx: Context, orig: Code, regs: Regs ::
               RealRequest(ctx) && Entry(regs) && DefinesBeforeUse(orig, 0, ALL_BUT_R2) ==>
                 TwiceIsOnce(earlier, later, orig, ctx, regs))
            <==> JoinsOnSamples(earlier, later)
  {
    if JoinsOnSamples(earlier, later) {
      forall ctx: Context, orig: Code, regs: Regs
        | RealRequest(ctx) && Entry(regs) && DefinesBeforeUse(orig, 0, ALL_BUT_R2)
        ensures TwiceIsOnce(earlier, later, orig, ctx, regs)
      {
        PrependTwice(earlier, later, orig, ctx, regs);
      }
    } else {
      var ctx := FailingJoin(earlier, later);
      var regs := SomeEntry();
      var orig := DifferenceShows(earlier, later, ctx, regs);
    }
  }

  /** Two batches that do differ: alone, the accelerator's rule still sees the type. */
  lemma JointListDiffers()
    ensures var write := Context(0x4_0002, 5, 6);
            && RealRequest(write) && !Joins([ACCEL], [CHAR_READER], write)
            && InTurn([ACCEL], [CHAR_READER], write) == Some(true)
  {
    var write := Context(0x4_0002, 5, 6);
    assert write.Kind() == DEV_CHAR && write.Access() == ACC_WRITE;
    DisturbedTypeTest();
    assert [ACCEL] + [CHAR_READER] == [ACCEL, CHAR_READER];
    SingleRule(ACCEL, write);
    SingleRule(CHAR_READER, write);
  }

  lemma SingleRule(rule: Rule, ctx: Context)
    ensures Thread(Live([rule]), ctx.Kind(), ctx) == if Accepts(rule, ctx.Kind(), ctx) then Some(rule.allow) else None
  {
    assert [rule][..0] == [];
    assert Live([rule]) == [rule];
    assert [rule][1..] == [];
  }

  /** The joint list is accepted exactly when the later one is, and the earlier one too unless it is never looked at. */
  lemma JointlyAccepted(earlier: seq<Rule>, later: seq<Rule>)
    ensures BuildFailure(earlier + later).None? <==>
            BuildFailure(later).None? && (HasWildcard(Live(later)) || BuildFailure(earlier).None?)
  {
    FailureConcat(earlier, later);
  }

  /** The same through the whole tool chain: build, load, read back, build, load. */
  lemma PrependTwiceLoaded(earlier: seq<Rule>, later: seq<Rule>, orig: seq<Insn>, p: string, q: string,
                           ctx: Context, regs: Regs)
    requires BuildFailure(earlier).None? && BuildFailure(later).None? && Combine(earlier, later, ctx)
    requires orig != [] && FreshPrefix(p, orig) && Resolve(orig).Success?
    requires DefinesBeforeUse(Resolve(orig).value, 0, ALL_BUT_R2) && Entry(regs)
    ensures Prepend(earlier + later, orig, p).Success?
    ensures var first := Resolve(Prepend(earlier, orig, p).value);
            && first.Success?
            && var second := Resolve(Prepend(later, Decoded(first.value), q).value);
               && second.Success?
               && var once := Resolve(Prepend(earlier + later, orig, p).value);
                  && once.Success?
                  && Run(second.value, ctx, State(0, regs)) == Run(once.value, ctx, State(0, regs))
  {
    JointlyAccepted(earlier, later);
    var code := Resolve(orig).value;
    LinkResolves(Live(earlier), orig, p);
    LinkResolves(Live(earlier + later), orig, p);
    var first := FilterCode(Live(earlier)) + code;
    ReadBack(first, q);
    LinkResolves(Live(later), Decoded(first), q);
    PrependTwice(earlier, later, code, ctx, regs);
  }
}
