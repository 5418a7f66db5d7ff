/**
 Version 1 against version 2: the same rules as a sequence of updates to permissions
 and as one list of which the last match decides. Exactly when both come to the same
 verdict, on one request and on all.
 */
module Agreement {
  import opened Bpf
  import opened CgroupV1
  import opened Correctness
  import opened DeviceFilter
  import opened Misreading
  import opened Rules
  import opened Words
  import opened Wrappers
  import CgroupV2

  const ACCESSES: set<nat> := {ACC_MKNOD, ACC_READ, ACC_WRITE}

  predicate Asked(ctx: Context, w: nat) { w in ACCESSES && HasBit(ctx.Access(), w) }

  /** A request for something, as the comparison needs it. */
  predicate AsksAccess(ctx: Context) { RealRequest(ctx) && ctx.Access() > 0 }

  /** The same request for one kind of access only. */
  function Only(ctx: Context, w: nat): (one: Context)
    requires w in ACCESSES
    ensures one.Kind() == ctx.Kind() && one.Access() == w && one.major == ctx.major && one.minor == ctx.minor
  {
    Request(ctx.Kind(), w, ctx.major, ctx.minor)
  }

  function KindOf(ctx: Context): string {
    if ctx.Kind() == DEV_CHAR then "c" else "b"
  }

  function Needed(ctx: Context, w: nat): Right { Right(KindOf(ctx), ctx.major, ctx.minor, w) }

  /** Version 1 grants a request when it grants every access asked for. */
  predicate Granted(rights: set<Right>, ctx: Context) {
    forall w :: w in ACCESSES && HasBit(ctx.Access(), w) ==> Needed(ctx, w) in rights
  }

  /** A rule for one device. */
  predicate Concrete(rule: Rule) {
    && rule.kind in {"b", "c"}
    && rule.major.Some? && rule.major.value >= 0
    && rule.minor.Some? && rule.minor.value >= 0
  }

  predicate AllConcrete(rules: seq<Rule>) {
    forall i :: 0 <= i < |rules| ==> Concrete(rules[i])
  }

  // ---------- One access at a time ----------

  lemma SingleBits(w: nat)
    requires w in ACCESSES
    ensures forall v :: v in ACCESSES ==> (HasBit(w, v) <==> v == w)
  {
  }

  lemma SomeBit(access: nat)
    requires 1 <= access <= ACC_ALL
    ensures HasBit(access, ACC_MKNOD) || HasBit(access, ACC_READ) || HasBit(access, ACC_WRITE)
  {
  }

  /** A rule matches a request exactly when it matches it for one of the accesses asked for. */
  lemma MatchesSome(rule: Rule, ctx: Context)
    requires AsksAccess(ctx)
    ensures Matches(rule, ctx) <==> exists w :: Asked(ctx, w) && Matches(rule, Only(ctx, w))
  {
    SomeBit(ctx.Access());
    forall w | w in ACCESSES
      ensures AccessMatches(rule.access, w) <==>
              FullAccess(rule.access) || (w == ACC_MKNOD && 'm' in rule.access) ||
              (w == ACC_READ && 'r' in rule.access) || (w == ACC_WRITE && 'w' in rule.access)
    {
      SingleBits(w);
    }
    if Matches(rule, ctx) {
      var w :| w in ACCESSES && HasBit(ctx.Access(), w) && AccessMatches(rule.access, w);
      assert Asked(ctx, w) && Matches(rule, Only(ctx, w));
    }
  }

  /** A verdict is the verdict on one of the accesses; without one there is none on any. */
  lemma {:induction false} VerdictOnOne(rules: seq<Rule>, ctx: Context)
    requires AsksAccess(ctx)
    ensures Verdict(rules, ctx).None? ==> forall w :: Asked(ctx, w) ==> Verdict(rules, Only(ctx, w)).None?
    ensures Verdict(rules, ctx).Some? ==>
              exists w :: Asked(ctx, w) && Verdict(rules, Only(ctx, w)) == Verdict(rules, ctx)
  {
    if rules != [] {
      var n := |rules| - 1;
      MatchesSome(rules[n], ctx);
      if Matches(rules[n], ctx) {
        var w :| Asked(ctx, w) && Matches(rules[n], Only(ctx, w));
        assert Verdict(rules, Only(ctx, w)) == Some(rules[n].allow);
      } else {
        VerdictOnOne(rules[..n], ctx);
        forall w | Asked(ctx, w) ensures Verdict(rules, Only(ctx, w)) == Verdict(rules[..n], Only(ctx, w)) {
        }
      }
    }
  }

  lemma GrantedInParts(rights: set<Right>, ctx: Context)
    ensures Granted(rights, ctx) <==> forall w :: Asked(ctx, w) ==> Granted(rights, Only(ctx, w))
  {
    forall w | w in ACCESSES ensures Granted(rights, Only(ctx, w)) <==> Needed(ctx, w) in rights {
      SingleBits(w);
      assert Needed(Only(ctx, w), w) == Needed(ctx, w);
    }
  }

  lemma LastWriteDecides(rights: set<Right>, rule: Rule, ctx: Context, w: nat)
    requires Concrete(rule) && RealRequest(ctx) && w in ACCESSES
    ensures Granted(Apply(rights, rule.allow, EntryOf(rule)), Only(ctx, w)) ==
            if Matches(rule, Only(ctx, w)) then rule.allow else Granted(rights, Only(ctx, w))
  {
    var one, e := Only(ctx, w), EntryOf(rule);
    SingleBits(w);
    assert Needed(one, w) in Rights(e) <==>
           w in BitsOf(rule.access) && rule.kind == KindOf(one) && e.major == one.major && e.minor == one.minor;
    assert Matches(rule, one) <==> Needed(one, w) in Rights(e);
  }

  /** On each access by itself, the first `n` updates come to the verdict of the last match. */
  predicate UpdatesDecideOne(rights: set<Right>, rules: seq<Rule>, n: nat, one: Context)
    requires n <= |rules| && NumberedUpTo(rules, n)
  {
    Granted(ApplyUpTo(rights, rules, n), one) == Decide(rules[..n], one, Granted(rights, one))
  }

  lemma {:induction false} UpdateStep(rights: set<Right>, rules: seq<Rule>, n: nat, ctx: Context, w: nat)
    requires n < |rules| && NumberedUpTo(rules, n + 1) && Concrete(rules[n]) && RealRequest(ctx) && w in ACCESSES
    requires UpdatesDecideOne(rights, rules, n, Only(ctx, w))
    ensures UpdatesDecideOne(rights, rules, n + 1, Only(ctx, w))
  {
    var one := Only(ctx, w);
    LastWriteDecides(ApplyUpTo(rights, rules, n), rules[n], ctx, w);
    VerdictNext(rules, n, one);
    assert ApplyUpTo(rights, rules, n + 1) == Apply(ApplyUpTo(rights, rules, n), rules[n].allow, EntryOf(rules[n]));
  }

  lemma {:induction false} VerdictNext(rules: seq<Rule>, n: nat, ctx: Context)
    requires n < |rules|
    ensures Verdict(rules[..n + 1], ctx) ==
            if Matches(rules[n], ctx) then Some(rules[n].allow) else Verdict(rules[..n], ctx)
  {
    assert rules[..n + 1][..n] == rules[..n] && rules[..n + 1][n] == rules[n];
  }

  lemma {:induction false} UpdatesDecideOnly(rights: set<Right>, rules: seq<Rule>, n: nat, ctx: Context, w: nat)
    requires n <= |rules| && NumberedUpTo(rules, n) && AllConcrete(rules) && RealRequest(ctx) && w in ACCESSES
    ensures UpdatesDecideOne(rights, rules, n, Only(ctx, w))
  {
    if n == 0 {
      assert rules[..0] == [];
    } else {
      UpdatesDecideOnly(rights, rules, n - 1, ctx, w);
      UpdateStep(rights, rules, n - 1, ctx, w);
    }
  }

  // ---------- One request ----------

  /** If the list allows the request, it allows each access asked for by itself. */
  predicate AllowsEach(rules: seq<Rule>, ctx: Context) {
    Verdict(rules, ctx) == Some(true) ==>
      forall w :: w in ACCESSES && HasBit(ctx.Access(), w) ==> Verdict(rules, Only(ctx, w)) == Some(true)
  }

  /** From given permissions, updating them and consulting the list come to the same. */
  predicate SameVerdict(rights: set<Right>, rules: seq<Rule>, ctx: Context)
    requires Numbered(rules)
  {
    Granted(ApplyRules(rights, rules), ctx) == Decide(rules, ctx, Granted(rights, ctx))
  }

  lemma UpdatesInParts(rights: set<Right>, rules: seq<Rule>, ctx: Context)
    requires AllConcrete(rules) && Numbered(rules) && RealRequest(ctx)
    ensures Granted(ApplyRules(rights, rules), ctx) <==>
            forall w :: Asked(ctx, w) ==> Decide(rules, Only(ctx, w), Granted(rights, Only(ctx, w)))
  {
    GrantedInParts(ApplyRules(rights, rules), ctx);
    assert rules[..|rules|] == rules;
    forall w | Asked(ctx, w)
      ensures Granted(ApplyRules(rights, rules), Only(ctx, w)) ==
              Decide(rules, Only(ctx, w), Granted(rights, Only(ctx, w)))
    {
      UpdatesDecideOnly(rights, rules, |rules|, ctx, w);
    }
  }

  /** Front-to-back updates come to the verdict of the last matching rule. */
  lemma UpdatesDecide(rights: set<Right>, rules: seq<Rule>, ctx: Context)
    requires AllConcrete(rules) && Numbered(rules) && AsksAccess(ctx) && AllowsEach(rules, ctx)
    ensures SameVerdict(rights, rules, ctx)
  {
    UpdatesInParts(rights, rules, ctx);
    VerdictOnOne(rules, ctx);
    GrantedInParts(rights, ctx);
    if Verdict(rules, ctx) == Some(false) {
      var w :| Asked(ctx, w) && Verdict(rules, Only(ctx, w)) == Some(false);
      assert !Decide(rules, Only(ctx, w), Granted(rights, Only(ctx, w)));
    }
  }

  /** Otherwise the list allows some access only along with another: without permissions, the updates refuse it. */
  lemma UpdatesRefuse(rules: seq<Rule>, ctx: Context)
    requires AllConcrete(rules) && Numbered(rules) && AsksAccess(ctx) && !AllowsEach(rules, ctx)
    ensures !SameVerdict({}, rules, ctx)
  {
    var w :| w in ACCESSES && HasBit(ctx.Access(), w) && Verdict(rules, Only(ctx, w)) != Some(true);
    UpdatesInParts({}, rules, ctx);
    SingleBits(w);
    assert Needed(Only(ctx, w), w) !in {};
    assert !Granted({}, Only(ctx, w));
    assert Asked(ctx, w) && !Decide(rules, Only(ctx, w), Granted({}, Only(ctx, w)));
  }

  /** For one request, from whatever permissions: both agree exactly when the list allows each access by itself. */
  lemma SameVerdictExactly(rules: seq<Rule>, ctx: Context)
    requires AllConcrete(rules) && Numbered(rules) && AsksAccess(ctx)
    ensures (forall rights: set<Right> :: SameVerdict(rights, rules, ctx)) <==> AllowsEach(rules, ctx)
  {
    if AllowsEach(rules, ctx) {
      forall rights: set<Right> ensures SameVerdict(rights, rules, ctx) {
        UpdatesDecide(rights, rules, ctx);
      }
    } else {
      UpdatesRefuse(rules, ctx);
    }
  }

  // ---------- A whole list ----------

  /** The numbers of the rule are numbers a request can have. */
  predicate Fits(rule: Rule) {
    Concrete(rule) && rule.major.value <= MAX_UINT32 && rule.minor.value <= MAX_UINT32
  }

  /** A request for one access to the device the rule is for. */
  function DeviceOf(rule: Rule, w: nat): (ctx: Context)
    requires Fits(rule) && w in ACCESSES
    ensures RealRequest(ctx) && ctx.Access() == w
  {
    Request(if rule.kind == "c" then DEV_CHAR else DEV_BLOCK, w, rule.major.value, rule.minor.value)
  }

  /** No rule from `i` on matches. */
  predicate Silent(rules: seq<Rule>, i: nat, ctx: Context) {
    forall j :: i <= j < |rules| ==> !Matches(rules[j], ctx)
  }

  /**
   Rule `i` allows and has the last word on one access to its device, while the last
   word on another access is an earlier one that does not allow, or there is none.
   */
  predicate Overreaches(rules: seq<Rule>, i: nat, w0: nat, w: nat) {
    && i < |rules| && w0 in ACCESSES && w in ACCESSES && Fits(rules[i]) && rules[i].allow
    && Matches(rules[i], DeviceOf(rules[i], w0)) && Silent(rules, i + 1, DeviceOf(rules[i], w0))
    && Silent(rules, i, DeviceOf(rules[i], w)) && Verdict(rules[..i], DeviceOf(rules[i], w)) != Some(true)
  }

  predicate AllowsInFull(rules: seq<Rule>) {
    forall i: nat, w0: nat, w: nat :: i < |rules| && w0 in ACCESSES && w in ACCESSES ==> !Overreaches(rules, i, w0, w)
  }

  lemma {:induction false} SilentVerdict(rules: seq<Rule>, i: nat, ctx: Context)
    requires i <= |rules| && Silent(rules, i, ctx)
    ensures Verdict(rules, ctx) == Verdict(rules[..i], ctx)
  {
    var n := |rules|;
    if i == n {
      assert rules[..n] == rules;
    } else {
      assert forall j :: i <= j < n - 1 ==> rules[..n - 1][j] == rules[j];
      SilentVerdict(rules[..n - 1], i, ctx);
      assert rules[..n - 1][..i] == rules[..i];
    }
  }

  lemma {:induction false} LastMatchExists(rules: seq<Rule>, ctx: Context) returns (i: nat)
    requires Verdict(rules, ctx).Some?
    ensures i < |rules| && Matches(rules[i], ctx) && rules[i].allow == Verdict(rules, ctx).value
    ensures Silent(rules, i + 1, ctx)
  {
    var n := |rules| - 1;
    if Matches(rules[n], ctx) {
      i := n;
    } else {
      i := LastMatchExists(rules[..n], ctx);
      forall j | i < j < |rules| ensures !Matches(rules[j], ctx) {
        assert j < n ==> rules[..n][j] == rules[j];
      }
    }
  }

  lemma SilentOnOne(rules: seq<Rule>, i: nat, ctx: Context, w: nat)
    requires AsksAccess(ctx) && Asked(ctx, w) && Silent(rules, i, ctx)
    ensures Silent(rules, i, Only(ctx, w))
  {
    forall j | i <= j < |rules| ensures !Matches(rules[j], Only(ctx, w)) {
      MatchesSome(rules[j], ctx);
    }
  }

  lemma SameDevice(rule: Rule, ctx: Context, w: nat)
    requires Concrete(rule) && Matches(rule, ctx) && w in ACCESSES
    ensures Fits(rule) && Only(ctx, w) == DeviceOf(rule, w)
  {
  }

  /** A request that the list allows without allowing one of its accesses shows an overreaching rule. */
  lemma OverreachFound(rules: seq<Rule>, ctx: Context) returns (i: nat, w0: nat, w: nat)
    requires AllConcrete(rules) && AsksAccess(ctx) && !AllowsEach(rules, ctx)
    ensures i < |rules| && w0 in ACCESSES && w in ACCESSES && Overreaches(rules, i, w0, w)
  {
    w :| w in ACCESSES && HasBit(ctx.Access(), w) && Verdict(rules, Only(ctx, w)) != Some(true);
    i := LastMatchExists(rules, ctx);
    MatchesSome(rules[i], ctx);
    w0 :| Asked(ctx, w0) && Matches(rules[i], Only(ctx, w0));
    SilentOnOne(rules, i + 1, ctx, w0);
    SilentOnOne(rules, i + 1, ctx, w);
    SameDevice(rules[i], ctx, w0);
    SameDevice(rules[i], ctx, w);
    if Matches(rules[i], Only(ctx, w)) {
      VerdictOfLast(rules, i, Only(ctx, w));
    }
    SilentVerdict(rules, i, Only(ctx, w));
  }

  lemma PairBits(w0: nat, w: nat)
    requires w0 in ACCESSES && w in ACCESSES && w0 != w
    ensures w0 + w <= ACC_ALL
    ensures forall v :: v in ACCESSES ==> (HasBit(w0 + w, v) <==> v == w0 || v == w)
  {
  }

  /** The request for two accesses at once to the device of a rule. */
  lemma PairRequest(rule: Rule, w0: nat, w: nat) returns (ctx: Context)
    requires Fits(rule) && w0 in ACCESSES && w in ACCESSES && w0 != w
    ensures AsksAccess(ctx) && ctx.major == rule.major.value && ctx.minor == rule.minor.value
    ensures Only(ctx, w0) == DeviceOf(rule, w0) && Only(ctx, w) == DeviceOf(rule, w)
    ensures forall v :: Asked(ctx, v) <==> v == w0 || v == w
  {
    PairBits(w0, w);
    ctx := Request(DeviceOf(rule, w0).Kind(), w0 + w, rule.major.value, rule.minor.value);
  }

  lemma OverreachShows(rules: seq<Rule>, i: nat, w0: nat, w: nat) returns (ctx: Context)
    requires AllConcrete(rules) && Overreaches(rules, i, w0, w)
    ensures AsksAccess(ctx) && !AllowsEach(rules, ctx)
    ensures ctx.major == rules[i].major.value && ctx.minor == rules[i].minor.value
  {
    ctx := PairRequest(rules[i], w0, w);
    MatchesSome(rules[i], ctx);
    assert Asked(ctx, w0) && Asked(ctx, w);
    forall j | i < j < |rules| ensures !Matches(rules[j], ctx) {
      MatchesSome(rules[j], ctx);
    }
    VerdictOfLast(rules, i, ctx);
    SilentVerdict(rules, i, Only(ctx, w));
  }

  /**
   Both versions agree on every request for some access, from whatever permissions,
   exactly when no allowing rule overreaches.
   */
  lemma AgreementExactly(rules: seq<Rule>)
    requires AllConcrete(rules) && Numbered(rules)
    ensures (forall ctx: Context, rights: set<Right> :: AsksAccess(ctx) ==> SameVerdict(rights, rules, ctx))
            <==> AllowsInFull(rules)
  {
    if AllowsInFull(rules) {
      forall ctx: Context, rights: set<Right> | AsksAccess(ctx) ensures SameVerdict(rights, rules, ctx) {
        InFullAllowsEach(rules, ctx);
        UpdatesDecide(rights, rules, ctx);
      }
    } else {
      var i: nat, w0: nat, w: nat :|
        i < |rules| && w0 in ACCESSES && w in ACCESSES && Overreaches(rules, i, w0, w);
      var ctx := OverreachShows(rules, i, w0, w);
      UpdatesRefuse(rules, ctx);
    }
  }

  lemma InFullAllowsEach(rules: seq<Rule>, ctx: Context)
    requires AllConcrete(rules) && AllowsInFull(rules) && AsksAccess(ctx)
    ensures AllowsEach(rules, ctx)
  {
    if !AllowsEach(rules, ctx) {
      var i, w0, w := OverreachFound(rules, ctx);
      assert false;
    }
  }

  /** Rules with full access, as this repository makes them, never overreach. */
  lemma FullAccessAllowsInFull(rules: seq<Rule>)
    requires AllConcrete(rules) && forall i :: 0 <= i < |rules| ==> FullAccess(rules[i].access)
    ensures AllowsInFull(rules)
  {
  }

  // ---------- Loaded code ----------

  /**
   From the same permissions, writing the rules under version 1 and prepending them
   to the old program under version 2 give the same verdict.
   */
  lemma VersionsAgree(rights: set<Right>, rules: seq<Rule>, orig: Code, ctx: Context, regs: Regs)
    requires AsksAccess(ctx) && Bpf.Entry(regs) && AllConcrete(rules) && Numbered(rules)
    requires BuildFailure(rules).None? && Reliable(rules, ctx) && FaithfulTo(rules, ctx)
    requires DefinesBeforeUse(orig, 0, {R1}) && Allows(orig, ctx, regs) == Granted(rights, ctx)
    requires AllowsEach(rules, ctx)
    ensures Allows(CgroupV2.Filtered(rules, orig), ctx, regs) == Granted(ApplyRules(rights, rules), ctx)
  {
    CgroupV2.FilteredAllows(rules, orig, ctx, regs);
    UpdatesDecide(rights, rules, ctx);
  }

  /** The permissions and the old program stand for the same access, and still do afterwards. */
  predicate StayEqual(rights: set<Right>, rules: seq<Rule>, orig: Code, ctx: Context, regs: Regs)
    requires Numbered(rules)
  {
    Allows(orig, ctx, regs) == Granted(rights, ctx) ==>
      Allows(CgroupV2.Filtered(rules, orig), ctx, regs) == Granted(ApplyRules(rights, rules), ctx)
  }

  predicate Eligible(orig: Code, ctx: Context, regs: Regs) {
    AsksAccess(ctx) && Narrow(ctx) && Bpf.Entry(regs) && DefinesBeforeUse(orig, 0, {R1})
  }

  lemma {:induction false} LoadedAgrees(rights: set<Right>, rules: seq<Rule>, orig: Code, ctx: Context, regs: Regs)
    requires BuildFailure(rules).None? && AllConcrete(rules) && Numbered(rules) && PassesSamples(Live(rules), NARROW)
    requires AllowsInFull(rules) && Eligible(orig, ctx, regs)
    ensures StayEqual(rights, rules, orig, ctx, regs)
  {
    InFullAllowsEach(rules, ctx);
    if Allows(orig, ctx, regs) == Granted(rights, ctx) {
      VersionsAgree(rights, rules, orig, ctx, regs);
    }
  }

  /** An old program that refuses everything, against no permissions. */
  lemma LoadedDiffers(rules: seq<Rule>, ctx: Context, regs: Regs) returns (orig: Code)
    requires BuildFailure(rules).None? && AllConcrete(rules) && Numbered(rules) && PassesSamples(Live(rules), NARROW)
    requires AsksAccess(ctx) && Narrow(ctx) && Bpf.Entry(regs) && !AllowsEach(rules, ctx)
    ensures Eligible(orig, ctx, regs) && !StayEqual({}, rules, orig, ctx, regs)
  {
    orig := AcceptBlock(false);
    ConstantProgram(false, ctx, regs);
    RefusesAll(ctx);
    UpdatesRefuse(rules, ctx);
    CgroupV2.FilteredAllows(rules, orig, ctx, regs);
  }

  lemma RefusesAll(ctx: Context)
    requires AsksAccess(ctx)
    ensures !Granted({}, ctx) && DefinesBeforeUse(AcceptBlock(false), 0, {R1})
  {
    SomeBit(ctx.Access());
    assert forall w :: Needed(ctx, w) !in {};
  }

  predicate AllNarrow(rules: seq<Rule>) {
    forall i :: 0 <= i < |rules| ==> SingleDevice(rules[i])
  }

  /** On loaded code, for rules whose filter is right: both versions stay equal exactly when no rule overreaches. */
  lemma VersionsAgreeExactly(rules: seq<Rule>)
    requires BuildFailure(rules).None? && AllConcrete(rules) && Numbered(rules) && AllNarrow(rules)
    requires PassesSamples(Live(rules), NARROW)
    ensures (forall rights: set<Right>, orig: Code, ctx: Context, regs: Regs ::
               Eligible(orig, ctx, regs) ==> StayEqual(rights, rules, orig, ctx, regs))
            <==> AllowsInFull(rules)
  {
    if AllowsInFull(rules) {
      forall rights: set<Right>, orig: Code, ctx: Context, regs: Regs | Eligible(orig, ctx, regs)
        ensures StayEqual(rights, rules, orig, ctx, regs)
      {
        LoadedAgrees(rights, rules, orig, ctx, regs);
      }
    } else {
      var i: nat, w0: nat, w: nat :|
        i < |rules| && w0 in ACCESSES && w in ACCESSES && Overreaches(rules, i, w0, w);
      var ctx := OverreachShows(rules, i, w0, w);
      assert SingleDevice(rules[i]);
      var regs := SomeEntry();
      var orig := LoadedDiffers(rules, ctx, regs);
    }
  }

  /** With partial access and a request for two kinds of access at once: overlap is not containment. */
  lemma PartialAccessDiffers()
    ensures var rule, ctx := Rule(true, "c", Some(5), Some(6), "r"), Context(0x6_0002, 5, 6);
            && AsksAccess(ctx) && Concrete(rule) && Overreaches([rule], 0, ACC_READ, ACC_WRITE)
            && Decide([rule], ctx, false)
            && !Granted(ApplyRules({}, [rule]), ctx)
  {
    var rule, ctx := Rule(true, "c", Some(5), Some(6), "r"), Context(0x6_0002, 5, 6);
    assert ctx.Kind() == DEV_CHAR && ctx.Access() == 6;
    assert HasBit(6, ACC_READ) && HasBit(6, ACC_WRITE);
    SingleBits(ACC_READ);
    SingleBits(ACC_WRITE);
    assert [rule][..0] == [];
    assert Matches(rule, ctx) && Verdict([rule], ctx) == Some(true);
    assert Verdict([rule], Only(ctx, ACC_WRITE)) == None;
    RefusesAll(ctx);
    UpdatesRefuse([rule], ctx);
  }

  /** Taking one access back afterwards is no overreach: both versions agree on it. */
  lemma TakenBackAgrees()
    ensures AllowsInFull([ACCEL, Rule(false, "c", Some(5), Some(6), "w")])
  {
  }
}
