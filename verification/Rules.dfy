/**
 Device rules and what they mean: the last rule of the list that matches a
 request decides it. Nothing here knows about BPF instructions.
 */
module Rules {
  import opened Bpf
  import opened Words
  import opened Wrappers

  /** specs.LinuxDeviceCgroup; a missing number is a nil pointer in Go. */
  datatype Rule = Rule(allow: bool, kind: string, major: Option<i64>, minor: Option<i64>, access: string)

  // linux/bpf.h
  const DEV_BLOCK: u16 := 1
  const DEV_CHAR: u16 := 2
  const ACC_MKNOD: nat := 1
  const ACC_READ: nat := 2
  const ACC_WRITE: nat := 4
  const ACC_ALL: nat := 7

  /** "rwm" in any order, possibly with repetitions. */
  predicate FullAccess(access: string) { 'r' in access && 'w' in access && 'm' in access }

  /**
   What the kernel asks: a request for a character or block device. To check for
   execution it asks with no access bit at all.
   */
  predicate RealRequest(ctx: Context) {
    (ctx.Kind() == DEV_CHAR || ctx.Kind() == DEV_BLOCK) && ctx.Access() <= ACC_ALL
  }

  /** Device numbers as the kernel makes them are far below this. */
  const NARROW: nat := 0x8000_0000

  predicate Below(ctx: Context, bound: nat) { ctx.major < bound && ctx.minor < bound }

  predicate Narrow(ctx: Context) { Below(ctx, NARROW) }

  predicate KindMatches(kind: string, code: u16) {
    || kind == "a"
    || (kind == "b" && code == DEV_BLOCK)
    || (kind == "c" && code == DEV_CHAR)
  }

  /** Any overlap is a match; a full access string matches without looking. */
  predicate AccessMatches(access: string, requested: nat) {
    || FullAccess(access)
    || ('m' in access && HasBit(requested, ACC_MKNOD))
    || ('r' in access && HasBit(requested, ACC_READ))
    || ('w' in access && HasBit(requested, ACC_WRITE))
  }

  /** A missing or negative number stands for any device number. */
  predicate NumberMatches(number: Option<i64>, actual: u32) {
    number.None? || number.value < 0 || number.value == actual
  }

  predicate Matches(rule: Rule, ctx: Context) {
    && KindMatches(rule.kind, ctx.Kind())
    && AccessMatches(rule.access, ctx.Access())
    && NumberMatches(rule.major, ctx.major)
    && NumberMatches(rule.minor, ctx.minor)
  }

  /** In the kernel's numbers: types 1 and 2, and access bits 1, 2 and 4. */
  lemma KernelNumbers(kind: u16, access: nat)
    requires access <= 7
    ensures KindMatches("a", kind) && (KindMatches("b", kind) <==> kind == 1) && (KindMatches("c", kind) <==> kind == 2)
    ensures AccessMatches("m", access) <==> access in {1, 3, 5, 7}
    ensures AccessMatches("r", access) <==> access in {2, 3, 6, 7}
    ensures AccessMatches("w", access) <==> access in {4, 5, 6, 7}
  {
  }

  /** Rule `i` matches and no later rule does. */
  predicate IsLastMatch(rules: seq<Rule>, i: int, ctx: Context) {
    && 0 <= i < |rules|
    && Matches(rules[i], ctx)
    && forall j :: i < j < |rules| ==> !Matches(rules[j], ctx)
  }

  /** The verdict of the last matching rule, if any rule matches. */
  function Verdict(rules: seq<Rule>, ctx: Context): Option<bool> {
    if rules == [] then None
    else
      var last := rules[|rules| - 1];
      if Matches(last, ctx) then Some(last.allow) else Verdict(rules[..|rules| - 1], ctx)
  }

  lemma {:induction false} NoVerdict(rules: seq<Rule>, ctx: Context)
    ensures Verdict(rules, ctx).None? <==> forall i :: 0 <= i < |rules| ==> !Matches(rules[i], ctx)
  {
    if rules != [] {
      NoVerdict(rules[..|rules| - 1], ctx);
    }
  }

  lemma {:induction false} VerdictOfLast(rules: seq<Rule>, i: nat, ctx: Context)
    requires IsLastMatch(rules, i, ctx)
    ensures Verdict(rules, ctx) == Some(rules[i].allow)
  {
    if i < |rules| - 1 {
      VerdictOfLast(rules[..|rules| - 1], i, ctx);
    }
  }

  /** What the whole policy says when a rule list is consulted before something else. */
  function Decide(rules: seq<Rule>, ctx: Context, otherwise: bool): bool {
    var v := Verdict(rules, ctx);
    if v.Some? then v.value else otherwise
  }

  /** A later list overrides an earlier one. */
  lemma {:induction false} VerdictConcat(a: seq<Rule>, b: seq<Rule>, ctx: Context)
    ensures Verdict(a + b, ctx) == if Verdict(b, ctx).Some? then Verdict(b, ctx) else Verdict(a, ctx)
  {
    if b == [] {
      assert a + b == a;
    } else {
      assert (a + b)[..|a + b| - 1] == a + b[..|b| - 1];
      VerdictConcat(a, b[..|b| - 1], ctx);
    }
  }

  lemma DecideConcat(a: seq<Rule>, b: seq<Rule>, ctx: Context, otherwise: bool)
    ensures Decide(a + b, ctx, otherwise) == Decide(b, ctx, Decide(a, ctx, otherwise))
  {
    VerdictConcat(a, b, ctx);
  }

  /** Rules that only allow never take anything away. */
  lemma AllowOnly(rules: seq<Rule>, ctx: Context, otherwise: bool)
    requires forall i :: 0 <= i < |rules| ==> rules[i].allow
    ensures Decide(rules, ctx, otherwise) == (otherwise || exists i :: 0 <= i < |rules| && Matches(rules[i], ctx))
  {
    NoVerdict(rules, ctx);
    AllowOnlyVerdict(rules, ctx);
  }

  lemma {:induction false} AllowOnlyVerdict(rules: seq<Rule>, ctx: Context)
    requires forall i :: 0 <= i < |rules| ==> rules[i].allow
    ensures Verdict(rules, ctx) != Some(false)
  {
    if rules != [] {
      AllowOnlyVerdict(rules[..|rules| - 1], ctx);
    }
  }
}
