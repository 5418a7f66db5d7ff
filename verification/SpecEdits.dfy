/** What the edits of a spec keep, add and leave alone. */
module SpecEdits {
  import opened Bpf
  import opened Missing
  import opened OciSpec
  import opened Rules
  import opened Strings
  import opened Wrappers

  // ---------- Device nodes ----------

  function DevicePath(d: LinuxDevice): string { d.path }

  lemma PathsGrow(devices: seq<LinuxDevice>, infos: seq<DevInfo>)
    ensures Paths(devices + ToDevices(infos)) == Paths(devices) + Keys(PathOf, infos)
  {
    var all := devices + ToDevices(infos);
    forall p | p in Keys(PathOf, infos) ensures p in Paths(all) {
      var info :| info in infos && info.path == p;
      var i :| 0 <= i < |infos| && infos[i] == info;
      assert all[|devices| + i] == ToDevice(info);
    }
    forall p | p in Paths(all) ensures p in Paths(devices) + Keys(PathOf, infos) {
      var i :| 0 <= i < |all| && all[i].path == p;
      if i < |devices| {
        assert all[i] in devices;
      } else {
        assert infos[i - |devices|] in infos;
      }
    }
  }

  /** Old nodes stay in front, every given path has a node, and a second run adds nothing. */
  lemma DeviceNodesAdded(d: SpecData, infos: seq<DevInfo>)
    ensures var after := WithDevices(d, infos);
            && d.devices <= after.devices
            && Paths(after.devices) == Paths(d.devices) + Keys(PathOf, infos)
            && WithDevices(after, infos) == after
  {
    var missing := NotIn(Paths(d.devices), PathOf, infos);
    Covers(Paths(d.devices), PathOf, infos);
    PathsGrow(d.devices, missing);
    var after := WithDevices(d, infos);
    NothingMissing(Paths(after.devices), PathOf, infos);
  }

  /** The node for a device: a character device with its path, numbers and mode, owned by root. */
  predicate IsNodeOf(node: LinuxDevice, info: DevInfo) {
    && node.kind == "c" && node.path == info.path && node.major == info.major && node.minor == info.minor
    && node.fileMode == Some(info.fileMode) && node.uid == Some(0) && node.gid == Some(0)
  }

  /** One device more, one node more behind the others, unless the spec had a node for its path. */
  lemma DeviceNodesAppend(d: SpecData, infos: seq<DevInfo>, info: DevInfo)
    ensures WithDevices(d, []).devices == d.devices
    ensures var before, after := WithDevices(d, infos).devices, WithDevices(d, infos + [info]).devices;
            if exists i :: 0 <= i < |d.devices| && d.devices[i].path == info.path then after == before
            else after != [] && after[..|after| - 1] == before && IsNodeOf(after[|after| - 1], info)
  {
    NotInAppend(Paths(d.devices), PathOf, infos, info);
    if i :| 0 <= i < |d.devices| && d.devices[i].path == info.path {
      assert d.devices[i] in d.devices;
    }
    var missing := NotIn(Paths(d.devices), PathOf, infos);
    assert ToDevices(missing + [info]) == ToDevices(missing) + [ToDevice(info)];
  }

  /** Each device whose path had no node gets one of its own; each node added belongs to such a device. */
  lemma NodesOfDevices(d: SpecData, infos: seq<DevInfo>, i: nat)
    ensures var after := WithDevices(d, infos).devices;
            && (i < |infos| && infos[i].path !in Paths(d.devices) ==>
                exists k :: |d.devices| <= k < |after| && IsNodeOf(after[k], infos[i]))
            && (|d.devices| <= i < |after| ==>
                exists j :: 0 <= j < |infos| && infos[j].path !in Paths(d.devices) && IsNodeOf(after[i], infos[j]))
  {
    var missing, after := NotIn(Paths(d.devices), PathOf, infos), WithDevices(d, infos).devices;
    if i < |infos| && infos[i].path !in Paths(d.devices) {
      NotInMember(Paths(d.devices), PathOf, infos, infos[i]);
      var k :| 0 <= k < |missing| && missing[k] == infos[i];
      assert IsNodeOf(after[|d.devices| + k], infos[i]);
    }
    if |d.devices| <= i < |after| {
      var info := missing[i - |d.devices|];
      NotInMember(Paths(d.devices), PathOf, infos, info);
      var j :| 0 <= j < |infos| && infos[j] == info;
      assert IsNodeOf(after[i], infos[j]);
    }
  }

  lemma DeviceNodesDistinct(d: SpecData, infos: seq<DevInfo>)
    requires Distinct(DevicePath, d.devices) && Distinct(PathOf, infos)
    ensures Distinct(DevicePath, WithDevices(d, infos).devices)
  {
    var missing := NotIn(Paths(d.devices), PathOf, infos);
    var all := WithDevices(d, infos).devices;
    StaysDistinct(Paths(d.devices), PathOf, infos);
    forall i, j | 0 <= i < j < |all| ensures DevicePath(all[i]) != DevicePath(all[j]) {
      if j >= |d.devices| {
        assert DevicePath(all[j]) == PathOf(missing[j - |d.devices|]);
        if i < |d.devices| {
          assert d.devices[i] in d.devices;
        } else {
          assert DevicePath(all[i]) == PathOf(missing[i - |d.devices|]);
        }
      }
    }
  }

  // ---------- Allow list ----------

  lemma KeyedGrows(rules: seq<Rule>, infos: seq<DevInfo>)
    ensures Keyed(rules + AllowRules(infos)) == Keyed(rules) + Keys(NumbersOf, infos)
  {
    var all := rules + AllowRules(infos);
    forall p | p in Keys(NumbersOf, infos) ensures p in Keyed(all) {
      var info :| info in infos && NumbersOf(info) == p;
      var i :| 0 <= i < |infos| && infos[i] == info;
      assert all[|rules| + i] == AllowRule(info);
      assert AllowRule(info) in all;
    }
    forall p | p in Keyed(all) ensures p in Keyed(rules) + Keys(NumbersOf, infos) {
      var r :| r in all && r.major.Some? && r.minor.Some? && (r.major.value, r.minor.value) == p;
      var i :| 0 <= i < |all| && all[i] == r;
      if i < |rules| {
        assert r in rules;
      } else {
        assert r == AllowRule(infos[i - |rules|]);
        assert infos[i - |rules|] in infos;
      }
    }
    forall p | p in Keyed(rules) ensures p in Keyed(all) {
      var r :| r in rules && r.major.Some? && r.minor.Some? && (r.major.value, r.minor.value) == p;
      assert r in all;
    }
  }

  /** Old rules stay in front, every given number pair has an entry, and a second run adds nothing. */
  lemma AllowListAdded(d: SpecData, infos: seq<DevInfo>)
    ensures var after := WithAllowList(d, infos);
            && d.rules <= after.rules
            && Keyed(after.rules) == Keyed(d.rules) + Keys(NumbersOf, infos)
            && WithAllowList(after, infos) == after
  {
    var missing := NotIn(Keyed(d.rules), NumbersOf, infos);
    Covers(Keyed(d.rules), NumbersOf, infos);
    KeyedGrows(d.rules, missing);
    NothingMissing(Keyed(WithAllowList(d, infos).rules), NumbersOf, infos);
  }

  /** One device more, one rule more behind the others, unless the spec had an entry for its numbers. */
  lemma AllowListAppend(d: SpecData, infos: seq<DevInfo>, info: DevInfo)
    ensures WithAllowList(d, []).rules == d.rules
    ensures WithAllowList(d, infos + [info]).rules ==
            WithAllowList(d, infos).rules +
            if (info.major, info.minor) in Keyed(d.rules) then []
            else [Rule(true, "c", Some(info.major), Some(info.minor), "rwm")]
  {
    NotInAppend(Keyed(d.rules), NumbersOf, infos, info);
    var missing := NotIn(Keyed(d.rules), NumbersOf, infos);
    assert AllowRules(missing + [info]) == AllowRules(missing) + [AllowRule(info)];
  }

  /** No two entries for the same numbers. */
  predicate DistinctNumbers(rules: seq<Rule>) {
    forall i, j :: 0 <= i < j < |rules| && HasNumbers(rules[i], rules[j]) ==>
      (rules[i].major, rules[i].minor) != (rules[j].major, rules[j].minor)
  }

  predicate HasNumbers(a: Rule, b: Rule) { a.major.Some? && a.minor.Some? && b.major.Some? && b.minor.Some? }

  lemma AllowListDistinct(d: SpecData, infos: seq<DevInfo>)
    requires DistinctNumbers(d.rules) && Distinct(NumbersOf, infos)
    ensures DistinctNumbers(WithAllowList(d, infos).rules)
  {
    var missing := NotIn(Keyed(d.rules), NumbersOf, infos);
    var all := WithAllowList(d, infos).rules;
    StaysDistinct(Keyed(d.rules), NumbersOf, infos);
    forall i, j | 0 <= i < j < |all| && HasNumbers(all[i], all[j])
      ensures (all[i].major, all[i].minor) != (all[j].major, all[j].minor)
    {
      if j >= |d.rules| {
        assert all[j] == AllowRule(missing[j - |d.rules|]);
        assert NumbersOf(missing[j - |d.rules|]) !in Keyed(d.rules);
        if i < |d.rules| {
          assert d.rules[i] in d.rules;
        } else {
          assert all[i] == AllowRule(missing[i - |d.rules|]);
          assert NumbersOf(missing[i - |d.rules|]) != NumbersOf(missing[j - |d.rules|]);
        }
      }
    }
  }

  /** A request for one of the given devices that the list had no entry for. */
  predicate NewlyAllowed(d: SpecData, infos: seq<DevInfo>, ctx: Context) {
    && ctx.Kind() == DEV_CHAR
    && (ctx.major, ctx.minor) in Keys(NumbersOf, infos)
    && (ctx.major, ctx.minor) !in Keyed(d.rules)
  }

  lemma AllowRuleMatches(info: DevInfo, ctx: Context)
    ensures Matches(AllowRule(info), ctx) <==> ctx.Kind() == DEV_CHAR && (ctx.major, ctx.minor) == NumbersOf(info)
  {
  }

  lemma {:induction false} AllowRulesVerdict(infos: seq<DevInfo>, ctx: Context)
    ensures Verdict(AllowRules(infos), ctx) ==
            if ctx.Kind() == DEV_CHAR && (ctx.major, ctx.minor) in Keys(NumbersOf, infos) then Some(true) else None
  {
    if infos != [] {
      var n := |infos| - 1;
      AllowRulesVerdict(infos[..n], ctx);
      AllowRuleMatches(infos[n], ctx);
      assert AllowRules(infos)[..n] == AllowRules(infos[..n]);
      assert infos == infos[..n] + [infos[n]];
      assert Keys(NumbersOf, infos) == Keys(NumbersOf, infos[..n]) + {NumbersOf(infos[n])};
    }
  }

  /** Under "the last matching rule decides": exactly these requests become allowed, and no other verdict changes. */
  lemma AllowListVerdict(d: SpecData, infos: seq<DevInfo>, ctx: Context)
    ensures Verdict(WithAllowList(d, infos).rules, ctx) ==
            if NewlyAllowed(d, infos, ctx) then Some(true) else Verdict(d.rules, ctx)
  {
    var missing := NotIn(Keyed(d.rules), NumbersOf, infos);
    Covers(Keyed(d.rules), NumbersOf, infos);
    VerdictConcat(d.rules, AllowRules(missing), ctx);
    AllowRulesVerdict(missing, ctx);
  }

  /** A given device is usable afterwards exactly when it had no entry, or was usable before. */
  lemma GivenDeviceUsable(d: SpecData, infos: seq<DevInfo>, ctx: Context, otherwise: bool)
    requires ctx.Kind() == DEV_CHAR && (ctx.major, ctx.minor) in Keys(NumbersOf, infos)
    ensures Decide(WithAllowList(d, infos).rules, ctx, otherwise) <==>
            (ctx.major, ctx.minor) !in Keyed(d.rules) || Decide(d.rules, ctx, otherwise)
  {
    AllowListVerdict(d, infos, ctx);
  }

  /** An entry for the numbers keeps a device out, even one that denies it or is for a block device. */
  lemma DenyEntryStays()
    ensures var all, block := Rule(false, "a", Some(-1), Some(-1), "rwm"), Rule(true, "b", Some(5), Some(6), "rwm");
            var d := SpecData(None, [], [all, block], []);
            var info, read := DevInfo("/dev/accel/accel0", 5, 6, 0), Context(0x2_0002, 5, 6);
            && WithAllowList(d, [info]) == d
            && !Decide(WithAllowList(d, [info]).rules, read, true)
  {
    var all, block := Rule(false, "a", Some(-1), Some(-1), "rwm"), Rule(true, "b", Some(5), Some(6), "rwm");
    var d := SpecData(None, [], [all, block], []);
    var info, read := DevInfo("/dev/accel/accel0", 5, 6, 0), Context(0x2_0002, 5, 6);
    assert d.rules[1] in d.rules;
    assert (5, 6) in Keyed(d.rules);
    assert NumbersOf(info) == (5, 6);
    assert forall p :: p in Keys(NumbersOf, [info]) ==> p == (5, 6);
    NothingMissing(Keyed(d.rules), NumbersOf, [info]);
    assert Matches(all, read) && !Matches(block, read);
    assert d.rules[..1] == [all];
    assert Verdict(d.rules, read) == Verdict(d.rules[..1], read) == Some(false);
  }

  // ---------- Hooks and the error variable ----------

  lemma PrestartHookOnce(d: SpecData, path: string)
    requires Contains(path, HOOK_NAME)
    ensures WithPrestartHook(WithPrestartHook(d, path), path) == WithPrestartHook(d, path)
  {
    var h := HooksOf(d).prestart;
    var more := h + [Hook(path, [path, "prestart"])];
    assert more[|h|] == Hook(path, [path, "prestart"]);
  }

  lemma CreateRuntimeHookOnce(d: SpecData, path: string)
    requires Contains(path, HOOK_NAME)
    ensures WithCreateRuntimeHook(WithCreateRuntimeHook(d, path), path) == WithCreateRuntimeHook(d, path)
    ensures HasHabanaHook(HooksOf(WithCreateRuntimeHook(d, path)).createRuntime)
  {
    var h := HooksOf(d).createRuntime;
    var more := h + [Hook(path, [path, "createRuntime"])];
    assert more[|h|] == Hook(path, [path, "createRuntime"]);
  }

  function CountVariable(env: seq<string>, name: string): nat {
    if env == [] then 0
    else CountVariable(env[..|env| - 1], name) + if HasPrefix(env[|env| - 1], name) then 1 else 0
  }

  lemma {:induction false} CountMeansHas(env: seq<string>, name: string)
    ensures HasVariable(env, name) <==> CountVariable(env, name) > 0
  {
    if env != [] {
      var n := |env| - 1;
      CountMeansHas(env[..n], name);
      if HasVariable(env, name) && !HasPrefix(env[n], name) {
        var i :| 0 <= i < |env| && HasPrefix(env[i], name);
        assert HasPrefix(env[..n][i], name);
      }
      if i :| 0 <= i < n && HasPrefix(env[..n][i], name) {
        assert HasPrefix(env[i], name);
      }
    }
  }

  lemma ErrorVarPresent(d: SpecData, quoted: string)
    ensures HasVariable(WithErrorVar(d, quoted).env, RUNTIME_ERROR)
    ensures CountVariable(WithErrorVar(d, quoted).env, RUNTIME_ERROR) ==
            if HasVariable(d.env, RUNTIME_ERROR) then CountVariable(d.env, RUNTIME_ERROR) else 1
  {
    CountMeansHas(d.env, RUNTIME_ERROR);
    var v := RUNTIME_ERROR + "=" + quoted;
    assert HasPrefix(v, RUNTIME_ERROR);
    var more := d.env + [v];
    assert more[|d.env|] == v && more[..|more| - 1] == d.env;
  }
}
