/**
 What an overwritten type register does to verdicts: exactly which rule lists are
 decided as they should be on every real request.
 */
module Misreading {
  import opened Bpf
  import opened DeviceFilter
  import opened FilterRun
  import opened Rules
  import opened RuleTests
  import opened Words
  import opened Wrappers

  type Numbers = seq<Option<i64>>

  /** The threaded blocks come to the verdict of the first rule that matches once loaded. */
  predicate Agrees(live: seq<Rule>, ctx: Context) {
    Thread(live, ctx.Kind(), ctx) == FirstMatch(live, ctx)
  }

  function Request(kind: u16, access: u16, major: u32, minor: u32): (ctx: Context)
    ensures ctx.Kind() == kind && ctx.Access() == access
  {
    Context(kind + 0x1_0000 * access, major, minor)
  }

  predicate RealKind(kind: u16) { kind == DEV_BLOCK || kind == DEV_CHAR }

  predicate RealAccess(access: u16) { access <= ACC_ALL }

  // ---------- A condition on kinds and access strings ----------

  /** R2 on entry to block `j`, when no block before it has accepted. Device numbers play no part. */
  function TypeRead(live: seq<Rule>, j: nat, kind: u16, access: u16): u64
    requires j <= |live|
  {
    if j == 0 then kind
    else Scratch(live[j - 1], TypeRead(live, j - 1, kind, access), access)
  }

  /** What a block reads for the type lets through the same requests as the type would. */
  predicate ReadsRightAt(live: seq<Rule>, j: nat, kind: u16, access: u16)
    requires j < |live|
  {
    AccessMatches(live[j].access, access) ==>
      (KindPasses(live[j], TypeRead(live, j, kind, access)) <==> KindPasses(live[j], kind))
  }

  predicate ReadsRight(live: seq<Rule>) {
    forall j: nat, kind: u16, access: u16 ::
      j < |live| && RealKind(kind) && RealAccess(access) ==> ReadsRightAt(live, j, kind, access)
  }

  /** A block entered with R2 as read accepts what its rule meets, if it reads right. */
  lemma ReadingBlock(live: seq<Rule>, j: nat, ctx: Context)
    requires j < |live| && Valid(live[j]) && ReadsRight(live) && RealRequest(ctx)
    ensures Accepts(live[j], TypeRead(live, j, ctx.Kind(), ctx.Access()), ctx) <==> Meets(live[j], ctx)
  {
    assert ReadsRightAt(live, j, ctx.Kind(), ctx.Access());
    BlockExact(live[j], ctx);
    AccessTestExact(live[j].access, ctx.Access());
  }

  lemma {:induction false} ThreadStep(live: seq<Rule>, j: nat, r2: u64, ctx: Context)
    requires j < |live|
    ensures Thread(live[j..], r2, ctx) ==
            if Accepts(live[j], r2, ctx) then Some(live[j].allow)
            else Thread(live[j + 1..], Scratch(live[j], r2, ctx.Access()), ctx)
  {
    assert live[j..][1..] == live[j + 1..];
  }

  lemma {:induction false} FirstMatchStep(live: seq<Rule>, j: nat, ctx: Context)
    requires j < |live|
    ensures FirstMatch(live[j..], ctx) ==
            if Meets(live[j], ctx) then Some(live[j].allow) else FirstMatch(live[j + 1..], ctx)
  {
    assert live[j..][1..] == live[j + 1..];
  }

  predicate AgreesFrom(live: seq<Rule>, j: nat, ctx: Context)
    requires j <= |live|
  {
    Thread(live[j..], TypeRead(live, j, ctx.Kind(), ctx.Access()), ctx) == FirstMatch(live[j..], ctx)
  }

  lemma AgreesAtEnd(live: seq<Rule>, ctx: Context)
    ensures AgreesFrom(live, |live|, ctx)
  {
    assert live[|live|..] == [];
  }

  lemma {:induction false} ReadsRightStep(live: seq<Rule>, j: nat, ctx: Context)
    requires AllValid(live) && ReadsRight(live) && RealRequest(ctx) && j < |live|
    requires AgreesFrom(live, j + 1, ctx)
    ensures AgreesFrom(live, j, ctx)
  {
    var r2 := TypeRead(live, j, ctx.Kind(), ctx.Access());
    ReadingBlock(live, j, ctx);
    ThreadStep(live, j, r2, ctx);
    FirstMatchStep(live, j, ctx);
  }

  predicate StepAgrees(live: seq<Rule>, j: nat, ctx: Context)
    requires j < |live|
  {
    AgreesFrom(live, j + 1, ctx) ==> AgreesFrom(live, j, ctx)
  }

  lemma {:induction false} StepsAgree(live: seq<Rule>, j: nat, ctx: Context)
    requires j <= |live| && forall i :: 0 <= i < |live| ==> StepAgrees(live, i, ctx)
    ensures AgreesFrom(live, j, ctx)
    decreases |live| - j
  {
    if j == |live| {
      AgreesAtEnd(live, ctx);
    } else {
      StepsAgree(live, j + 1, ctx);
      assert StepAgrees(live, j, ctx);
    }
  }

  /** Whatever the numbers: lists that read right are decided right. */
  lemma ReadsRightSuffices(live: seq<Rule>, ctx: Context)
    requires AllValid(live) && ReadsRight(live) && RealRequest(ctx)
    ensures Agrees(live, ctx)
  {
    forall j | 0 <= j < |live| ensures StepAgrees(live, j, ctx) {
      if AgreesFrom(live, j + 1, ctx) {
        ReadsRightStep(live, j, ctx);
      }
    }
    StepsAgree(live, 0, ctx);
    assert live[0..] == live;
  }

  /** Each rule is for a single device, and no two for the same. */
  predicate DistinctDevices(live: seq<Rule>) {
    && (forall i :: 0 <= i < |live| ==> SingleDevice(live[i]))
    && (forall i, j :: 0 <= i < j < |live| ==> (live[i].major, live[i].minor) != (live[j].major, live[j].minor))
  }

  predicate SingleDevice(rule: Rule) {
    rule.major.Some? && rule.minor.Some? && 0 <= rule.major.value < 0x8000_0000 && 0 <= rule.minor.value < 0x8000_0000
  }

  /** The rule is not about the device asked for. */
  predicate OffDevice(rule: Rule, ctx: Context) {
    !(NumberPasses(rule.major, ctx.major) && NumberPasses(rule.minor, ctx.minor))
  }

  lemma OffDeviceMisses(rule: Rule, r2: u64, ctx: Context)
    requires Valid(rule) && OffDevice(rule, ctx)
    ensures !Accepts(rule, r2, ctx) && !Meets(rule, ctx)
  {
    BlockExact(rule, ctx);
  }

  lemma {:induction false} AllMiss(live: seq<Rule>, r2: u64, ctx: Context)
    requires AllValid(live) && forall i :: 0 <= i < |live| ==> OffDevice(live[i], ctx)
    ensures Thread(live, r2, ctx) == FirstMatch(live, ctx) == None
  {
    if live != [] {
      OffDeviceMisses(live[0], r2, ctx);
      AllMiss(live[1..], Scratch(live[0], r2, ctx.Access()), ctx);
    }
  }

  /** The verdicts fall at block `j` or behind. */
  predicate ReachesBlock(live: seq<Rule>, j: nat, ctx: Context)
    requires j <= |live|
  {
    && Thread(live, ctx.Kind(), ctx) == Thread(live[j..], TypeRead(live, j, ctx.Kind(), ctx.Access()), ctx)
    && FirstMatch(live, ctx) == FirstMatch(live[j..], ctx)
  }

  lemma {:induction false} ReachesNext(live: seq<Rule>, j: nat, ctx: Context)
    requires j < |live| && Valid(live[j]) && OffDevice(live[j], ctx) && ReachesBlock(live, j, ctx)
    ensures ReachesBlock(live, j + 1, ctx)
  {
    var r2 := TypeRead(live, j, ctx.Kind(), ctx.Access());
    ThreadStep(live, j, r2, ctx);
    FirstMatchStep(live, j, ctx);
    OffDeviceMisses(live[j], r2, ctx);
  }

  /** As they do when nothing in front is about the device. */
  lemma {:induction false} Reaches(live: seq<Rule>, j: nat, ctx: Context)
    requires AllValid(live) && j <= |live| && forall i :: 0 <= i < j ==> OffDevice(live[i], ctx)
    ensures ReachesBlock(live, j, ctx)
  {
    if j == 0 {
      assert live[0..] == live;
    } else {
      Reaches(live, j - 1, ctx);
      ReachesNext(live, j - 1, ctx);
    }
  }

  /** A block that reads wrong shows on a request for its own device. */
  lemma MisreadShows(live: seq<Rule>, j: nat, kind: u16, access: u16)
    requires AllValid(live) && DistinctDevices(live) && j < |live|
    requires RealKind(kind) && RealAccess(access) && !ReadsRightAt(live, j, kind, access)
    ensures !Agrees(live, Request(kind, access, live[j].major.value, live[j].minor.value))
  {
    assert SingleDevice(live[j]);
    var rule, ctx := live[j], Request(kind, access, live[j].major.value, live[j].minor.value);
    forall i | 0 <= i < |live| && i != j ensures OffDevice(live[i], ctx) {
      assert SingleDevice(live[i]);
      assert (live[i].major, live[i].minor) != (rule.major, rule.minor);
      NumberTestExact(live[i].major.value, ctx.major);
      NumberTestExact(live[i].minor.value, ctx.minor);
    }
    Reaches(live, j, ctx);
    var r2 := TypeRead(live, j, kind, access);
    AllMiss(live[j + 1..], Scratch(rule, r2, ctx.Access()), ctx);
    ThreadStep(live, j, r2, ctx);
    FirstMatchStep(live, j, ctx);
    BlockExact(rule, ctx);
    AccessTestExact(rule.access, access);
    NumberTestExact(rule.major.value, ctx.major);
    NumberTestExact(rule.minor.value, ctx.minor);
  }

  /** For rules about different devices, reading right is exactly what it takes. */
  lemma ReadsRightExactly(live: seq<Rule>)
    requires AllValid(live) && DistinctDevices(live)
    ensures (forall ctx: Context :: RealRequest(ctx) ==> Agrees(live, ctx)) <==> ReadsRight(live)
  {
    if ReadsRight(live) {
      forall ctx: Context | RealRequest(ctx) ensures Agrees(live, ctx) {
        ReadsRightSuffices(live, ctx);
      }
    } else {
      var j: nat, kind: u16, access: u16 :|
        j < |live| && RealKind(kind) && RealAccess(access) && !ReadsRightAt(live, j, kind, access);
      MisreadShows(live, j, kind, access);
    }
  }

  // ---------- A condition for every list: finitely many requests decide ----------

  /** Numbers below 2^31 that some rule names. */
  function Named(numbers: Numbers): (r: set<int>)
    ensures forall n :: n in r ==> 0 <= n < 0x8000_0000
    ensures forall n :: Some(n) in numbers && 0 <= n < 0x8000_0000 ==> n in r
  {
    set n | n in numbers && n.Some? && 0 <= n.value < 0x8000_0000 :: n.value
  }

  /** The least number from `n` on that is not taken. */
  function Fresh(taken: set<int>, n: nat): (r: nat)
    ensures n <= r <= n + |taken| && r !in taken
    ensures forall m :: n <= m < r ==> m in taken
  {
    if n !in taken then n else Fresh(taken - {n}, n + 1)
  }

  /** A number that no rule names. */
  function Unnamed(numbers: Numbers): (r: u32)
    ensures r !in Named(numbers) && r <= |Named(numbers)|
    ensures forall n :: 0 <= n && n !in Named(numbers) ==> r <= n
  {
    var r := Fresh(Named(numbers), 0);
    assert r > 0 ==> r - 1 in Named(numbers);
    r
  }

  function Majors(live: seq<Rule>): (numbers: Numbers)
    ensures forall i :: 0 <= i < |live| ==> live[i].major in numbers
  {
    var numbers := seq(|live|, i requires 0 <= i < |live| => live[i].major);
    assert forall i :: 0 <= i < |live| ==> numbers[i] == live[i].major;
    numbers
  }

  function Minors(live: seq<Rule>): (numbers: Numbers)
    ensures forall i :: 0 <= i < |live| ==> live[i].minor in numbers
  {
    var numbers := seq(|live|, i requires 0 <= i < |live| => live[i].minor);
    assert forall i :: 0 <= i < |live| ==> numbers[i] == live[i].minor;
    numbers
  }

  /** The numbers to try: those named, and one that is not. */
  function Tried(numbers: Numbers): (r: set<u32>)
    ensures Unnamed(numbers) in r && forall n :: n in Named(numbers) ==> n in r
  {
    (set n | n in Named(numbers)) + {Unnamed(numbers)}
  }

  /** The check to make for numbers below `bound`: both types, every access, and the device numbers to try. */
  predicate PassesSamples(live: seq<Rule>, bound: nat) {
    forall kind: u16, access: u16, major, minor ::
      RealKind(kind) && RealAccess(access) && major in Tried(Majors(live)) && minor in Tried(Minors(live)) &&
      major < bound && minor < bound ==>
        Agrees(live, Request(kind, access, major, minor))
  }

  function Representative(n: u32, numbers: Numbers): (r: u32)
    ensures r in Tried(numbers) && r <= n
  {
    if n in Named(numbers) then n else Unnamed(numbers)
  }

  /** No rule can tell a number from its representative. */
  lemma RepresentativePasses(number: Option<i64>, n: u32, numbers: Numbers)
    requires number in numbers && (number.Some? ==> number.value <= MAX_UINT32)
    ensures NumberPasses(number, n) == NumberPasses(number, Representative(n, numbers))
  {
    if number.Some? {
      NumberTestExact(number.value, n);
      NumberTestExact(number.value, Representative(n, numbers));
    }
  }

  /** The same type and access, and numbers that no rule tells apart. */
  predicate Alike(live: seq<Rule>, a: Context, b: Context) {
    && a.Kind() == b.Kind() && a.Access() == b.Access()
    && forall i :: 0 <= i < |live| ==> OffDevice(live[i], a) == OffDevice(live[i], b)
  }

  lemma {:induction false} AlikeThread(live: seq<Rule>, r2: u64, a: Context, b: Context)
    requires Alike(live, a, b)
    ensures Thread(live, r2, a) == Thread(live, r2, b)
  {
    if live != [] {
      assert OffDevice(live[0], a) == OffDevice(live[0], b);
      AlikeThread(live[1..], Scratch(live[0], r2, a.Access()), a, b);
    }
  }

  lemma {:induction false} AlikeFirstMatch(live: seq<Rule>, a: Context, b: Context)
    requires Alike(live, a, b) && AllValid(live)
    ensures FirstMatch(live, a) == FirstMatch(live, b)
  {
    if live != [] {
      assert OffDevice(live[0], a) == OffDevice(live[0], b);
      BlockExact(live[0], a);
      BlockExact(live[0], b);
      AlikeFirstMatch(live[1..], a, b);
    }
  }

  function SampleFor(live: seq<Rule>, ctx: Context): (r: Context)
    ensures r.Kind() == ctx.Kind() && r.Access() == ctx.Access() && r.major <= ctx.major && r.minor <= ctx.minor
  {
    Request(ctx.Kind(), ctx.Access(), Representative(ctx.major, Majors(live)), Representative(ctx.minor, Minors(live)))
  }

  lemma SampleAlike(live: seq<Rule>, ctx: Context)
    requires AllValid(live)
    ensures Alike(live, ctx, SampleFor(live, ctx))
  {
    forall i | 0 <= i < |live| ensures OffDevice(live[i], ctx) == OffDevice(live[i], SampleFor(live, ctx)) {
      RepresentativePasses(live[i].major, ctx.major, Majors(live));
      RepresentativePasses(live[i].minor, ctx.minor, Minors(live));
    }
  }

  /** For every valid list and range of numbers: all real requests are decided right exactly when the samples are. */
  lemma SamplesSuffice(live: seq<Rule>, bound: nat)
    requires AllValid(live)
    ensures (forall ctx: Context :: RealRequest(ctx) && Below(ctx, bound) ==> Agrees(live, ctx))
            <==> PassesSamples(live, bound)
  {
    if PassesSamples(live, bound) {
      forall ctx: Context | RealRequest(ctx) && Below(ctx, bound) ensures Agrees(live, ctx) {
        var sample := SampleFor(live, ctx);
        assert Agrees(live, sample);
        SampleAlike(live, ctx);
        AlikeThread(live, ctx.Kind(), ctx, sample);
        AlikeFirstMatch(live, ctx, sample);
      }
    }
  }

  // ---------- Partial access that does no harm ----------

  predicate ReadersOf(live: seq<Rule>, kind: string) {
    forall i :: 0 <= i < |live| ==> live[i].kind == kind && live[i].access == "r"
  }

  lemma OverlapOfRead(access: u16)
    requires RealAccess(access)
    ensures BitAnd(access, Mask("r")) == if HasBit(access, ACC_READ) then DEV_CHAR else 0
  {
    assert Mask("r") == 2;
    assert BitAnd(access, 2) == 2 * BitAnd(access / 2, 1);
    assert BitAnd(access / 2, 1) == access / 2 % 2;
  }

  lemma {:induction false} ReadersReadRight(live: seq<Rule>, j: nat, kind: u16, access: u16)
    requires ReadersOf(live, "c") && j <= |live| && RealKind(kind) && RealAccess(access) && HasBit(access, ACC_READ)
    ensures TypeRead(live, j, kind, access) == kind
  {
    if j > 0 {
      ReadersReadRight(live, j - 1, kind, access);
      OverlapOfRead(access);
    }
  }

  /** Rules that let character devices be read do no harm: the overlap they leave is 2, the code of their type. */
  lemma CharReaders(live: seq<Rule>)
    requires ReadersOf(live, "c")
    ensures ReadsRight(live)
  {
    forall j: nat, kind: u16, access: u16 | j < |live| && RealKind(kind) && RealAccess(access)
      ensures ReadsRightAt(live, j, kind, access)
    {
      if HasBit(access, ACC_READ) {
        ReadersReadRight(live, j, kind, access);
      }
    }
  }
}
