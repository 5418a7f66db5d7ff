/** The tests of a block against what the fields of a rule mean. */
module RuleTests {
  import opened Bpf
  import opened DeviceFilter
  import opened FilterRun
  import opened Rules
  import opened Words
  import opened Wrappers

  /** The comparison with a sign-extended 32-bit immediate, for every number a valid rule can have. */
  lemma NumberTestExact(number: i64, actual: u32)
    requires number <= MAX_UINT32
    ensures NumberPasses(Some(number), actual) <==> number < 0 || (number < 0x8000_0000 && number == actual)
  {
  }

  /** It means equality for every device exactly when the number fits 31 bits. */
  lemma NumberTestFaithful(number: i64)
    requires number <= MAX_UINT32
    ensures (forall actual: u32 :: NumberPasses(Some(number), actual) == NumberMatches(Some(number), actual))
            <==> number < 0x8000_0000
  {
    forall actual: u32
      ensures NumberPasses(Some(number), actual) <==> number < 0 || (number < 0x8000_0000 && number == actual)
    {
      NumberTestExact(number, actual);
    }
    if number >= 0x8000_0000 {
      var actual: u32 := number;
      assert NumberPasses(Some(number), actual) != NumberMatches(Some(number), actual);
    }
  }

  /** The request has the number the rule names, and it needs 32 bits. */
  predicate WideHit(number: Option<i64>, actual: u32) {
    number == Some(actual) && actual >= 0x8000_0000
  }

  predicate Faithful(rule: Rule, ctx: Context) {
    !WideHit(rule.major, ctx.major) && !WideHit(rule.minor, ctx.minor)
  }

  /** What a rule amounts to once loaded. */
  predicate Meets(rule: Rule, ctx: Context) {
    Matches(rule, ctx) && Faithful(rule, ctx)
  }

  /** The verdict of the first block whose rule, once loaded, matches. */
  function FirstMatch(live: seq<Rule>, ctx: Context): Option<bool> {
    if live == [] then None
    else if Meets(live[0], ctx) then Some(live[0].allow)
    else FirstMatch(live[1..], ctx)
  }

  lemma AccessTestExact(access: string, requested: nat)
    ensures (!FullAccess(access) ==> BitAnd(requested, Mask(access)) != 0) <==> AccessMatches(access, requested)
  {
    var m := Mask(access);
    BitAndMeets(requested, m);
    MaskBits(access);
  }

  /** A block entered with the device type in R2 accepts exactly the requests its rule matches, wide hits apart. */
  lemma BlockExact(rule: Rule, ctx: Context)
    requires Valid(rule)
    ensures Accepts(rule, ctx.Kind(), ctx) <==> Meets(rule, ctx)
  {
    AccessTestExact(rule.access, ctx.Access());
    NumberTestExact(rule.major.value, ctx.major);
    NumberTestExact(rule.minor.value, ctx.minor);
  }
}
