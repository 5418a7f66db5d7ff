/**
 Register R2 holds the device type, and the access test of a block overwrites it.
 Which rule lists are safe from that is settled here exactly.
 */
module TypeRegister {
  import opened Bpf
  import opened BuilderStates
  import opened DeviceFilter
  import opened FilterRun
  import opened Rules
  import opened RuleTests
  import opened Words

  /** Along the run from here, every block that tests the device type finds it in R2. */
  predicate SeesType(live: seq<Rule>, r2: u64, ctx: Context) {
    live == [] ||
    (&& (Typed(live[0]) ==> r2 == ctx.Kind())
     && (Accepts(live[0], r2, ctx) || SeesType(live[1..], Scratch(live[0], r2, ctx.Access()), ctx)))
  }

  /** A rule that takes every request for devices of one type. */
  predicate Blanket(rule: Rule, kind: string) {
    rule.kind == kind && Typed(rule) && Valid(rule) && !Partial(rule) && rule.major.value < 0 && rule.minor.value < 0
  }

  /**
   In block order: the access test of block `i` gets in the way of the type test of
   block `j`, unless it is restricted to a type whose requests an earlier block has
   all taken.
   */
  predicate Disturbs(live: seq<Rule>, i: int, j: int) {
    && 0 <= i < j < |live| && Partial(live[i]) && Typed(live[j])
    && (Typed(live[i]) ==> forall h :: 0 <= h < i ==> !Blanket(live[h], live[i].kind))
  }

  predicate Undisturbing(live: seq<Rule>) {
    forall i, j :: 0 <= i < j < |live| ==> !Disturbs(live, i, j)
  }

  predicate Untyped(live: seq<Rule>) {
    forall i :: 0 <= i < |live| ==> !Typed(live[i])
  }

  lemma UntypedIgnoresR2(rule: Rule, r2: u64, r2': u64, ctx: Context)
    requires !Typed(rule)
    ensures Accepts(rule, r2, ctx) == Accepts(rule, r2', ctx)
  {
  }

  lemma {:induction false} UntypedSees(live: seq<Rule>, r2: u64, ctx: Context)
    requires Untyped(live)
    ensures SeesType(live, r2, ctx)
  {
    if live != [] {
      UntypedSees(live[1..], Scratch(live[0], r2, ctx.Access()), ctx);
    }
  }

  lemma BlanketAccepts(rule: Rule, ctx: Context)
    requires Blanket(rule, rule.kind) && KindPasses(rule, ctx.Kind())
    ensures Accepts(rule, ctx.Kind(), ctx)
  {
  }

  /** No earlier block takes every request of this one's type. */
  predicate NoBlanketBefore(live: seq<Rule>, j: nat, ctx: Context)
    requires j <= |live|
  {
    forall h :: 0 <= h < j ==> !(Blanket(live[h], live[h].kind) && KindPasses(live[h], ctx.Kind()))
  }

  lemma NothingTypedBehind(live: seq<Rule>, j: nat, ctx: Context)
    requires Undisturbing(live) && j < |live| && NoBlanketBefore(live, j, ctx)
    requires Partial(live[j]) && KindPasses(live[j], ctx.Kind())
    ensures Untyped(live[j + 1..])
  {
    forall k | j < k < |live| ensures !Typed(live[k]) {
      assert !Disturbs(live, j, k);
    }
  }

  lemma {:induction false} UndisturbingSees(live: seq<Rule>, j: nat, ctx: Context)
    requires AllValid(live) && Undisturbing(live) && j <= |live| && NoBlanketBefore(live, j, ctx)
    ensures SeesType(live[j..], ctx.Kind(), ctx)
    decreases |live| - j
  {
    if j < |live| {
      var rule, rest := live[j], live[j + 1..];
      assert live[j..][1..] == rest;
      if !Accepts(rule, ctx.Kind(), ctx) {
        if Blanket(rule, rule.kind) && KindPasses(rule, ctx.Kind()) {
          BlanketAccepts(rule, ctx);
        }
        if Partial(rule) && KindPasses(rule, ctx.Kind()) {
          NothingTypedBehind(live, j, ctx);
          UntypedSees(rest, Scratch(rule, ctx.Kind(), ctx.Access()), ctx);
        } else {
          UndisturbingSees(live, j + 1, ctx);
        }
      }
    }
  }

  // ---------- The other direction ----------

  /** A request for no access at all, to a device whose numbers no rule can name. */
  function Probe(kind: u16): Context {
    Context(kind, 0x8000_0000, 0x8000_0000)
  }

  /** Such a request passes every block but a wildcard and a blanket for its type. */
  lemma ProbePasses(rule: Rule, r2: u64, kind: u16)
    requires Valid(rule) && !Wildcard(rule)
    requires !(Blanket(rule, rule.kind) && KindPasses(rule, r2))
    ensures !Accepts(rule, r2, Probe(kind))
    ensures Scratch(rule, r2, Probe(kind).Access()) == if KindPasses(rule, r2) && Partial(rule) then 0 else r2
  {
    var ctx := Probe(kind);
    assert ctx.Access() == 0;
    NumberTestExact(rule.major.value, ctx.major);
    NumberTestExact(rule.minor.value, ctx.minor);
  }

  /** With R2 overwritten, the next block that tests the type does not see it. */
  lemma {:induction false} ProbeBlinded(live: seq<Rule>, p: nat, j: nat, kind: u16)
    requires WildcardLast(live) && p <= j < |live| && Typed(live[j]) && kind != 0
    ensures !SeesType(live[p..], 0, Probe(kind))
    decreases j - p
  {
    if !Typed(live[p]) {
      assert live[p..][1..] == live[p + 1..];
      ProbePasses(live[p], 0, kind);
      ProbeBlinded(live, p + 1, j, kind);
    }
  }

  /** Block `i` is restricted to the probe's type, or to none, and no block before it takes the probe. */
  lemma {:induction false} ProbeDisturbs(live: seq<Rule>, p: nat, i: nat, j: nat, kind: u16)
    requires WildcardLast(live) && p <= i < j < |live| && Partial(live[i]) && Typed(live[j])
    requires kind != 0 && KindPasses(live[i], kind)
    requires forall h :: 0 <= h < i ==> !(Blanket(live[h], live[h].kind) && KindPasses(live[h], kind))
    ensures !SeesType(live[p..], kind, Probe(kind))
    decreases i - p
  {
    assert live[p..][1..] == live[p + 1..];
    ProbePasses(live[p], kind, kind);
    if KindPasses(live[p], kind) && Partial(live[p]) {
      ProbeBlinded(live, p + 1, j, kind);
    } else {
      ProbeDisturbs(live, p + 1, i, j, kind);
    }
  }

  lemma DisturbanceShows(live: seq<Rule>, i: nat, j: nat) returns (ctx: Context)
    requires WildcardLast(live) && Disturbs(live, i, j)
    ensures !SeesType(live, ctx.Kind(), ctx)
  {
    var kind: u16 := if Typed(live[i]) then KindCode(live[i].kind) else 3;
    ctx := Probe(kind);
    assert ctx.Kind() == kind && live[0..] == live;
    forall h | 0 <= h < i ensures !(Blanket(live[h], live[h].kind) && KindPasses(live[h], kind)) {
      if Blanket(live[h], live[h].kind) && KindPasses(live[h], kind) {
        SameKind(live[h], live[i], kind);
      }
    }
    ProbeDisturbs(live, 0, i, j, kind);
  }

  /** A blanket rule that lets the type of another rule through is for that type. */
  lemma SameKind(blanket: Rule, rule: Rule, kind: u16)
    requires Blanket(blanket, blanket.kind) && KindPasses(blanket, kind)
    requires Valid(rule) && kind == if Typed(rule) then KindCode(rule.kind) else 3
    ensures Typed(rule) && Blanket(blanket, rule.kind)
  {
  }

  /** Every block sees the device type it tests, on every request, exactly when the list is undisturbing. */
  lemma TypeSeenExactly(live: seq<Rule>)
    requires WildcardLast(live)
    ensures (forall ctx: Context :: SeesType(live, ctx.Kind(), ctx)) <==> Undisturbing(live)
  {
    if Undisturbing(live) {
      assert live[0..] == live;
      forall ctx: Context ensures SeesType(live, ctx.Kind(), ctx) {
        UndisturbingSees(live, 0, ctx);
      }
    } else {
      var i, j :| 0 <= i < j < |live| && Disturbs(live, i, j);
      var ctx := DisturbanceShows(live, i, j);
    }
  }
}
