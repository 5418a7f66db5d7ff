/**
 cmd/habana-container-runtime/specs.go: the edits to an OCI runtime spec. The
 class is edited in place; functions on its value say what each edit amounts to.
 */
module OciSpec {
  import opened Decimal
  import opened Missing
  import opened Rules
  import opened Strings
  import opened Words
  import opened Wrappers

  datatype Hook = Hook(path: string, args: seq<string>)
  datatype Hooks = Hooks(prestart: seq<Hook>, createRuntime: seq<Hook>)

  datatype LinuxDevice = LinuxDevice(
    kind: string, path: string, major: i64, minor: i64,
    fileMode: Option<u32>, uid: Option<u32>, gid: Option<u32>)

  /** What stat says about a device file. */
  datatype DevInfo = DevInfo(path: string, major: u32, minor: u32, fileMode: u32)

  /** The parts of a spec the runtime edits. */
  datatype SpecData = SpecData(
    hooks: Option<Hooks>, devices: seq<LinuxDevice>, rules: seq<Rule>, env: seq<string>)

  const HOOK_NAME := "habana-container-hook"
  const VISIBLE_DEVICES := "HABANA_VISIBLE_DEVICES"
  const RUNTIME_ERROR := "HABANA_RUNTIME_ERROR"

  // ---------- Devices ----------

  function Paths(devices: seq<LinuxDevice>): set<string> {
    set d | d in devices :: d.path
  }

  function PathOf(info: DevInfo): string { info.path }

  function ToDevice(info: DevInfo): LinuxDevice {
    LinuxDevice("c", info.path, info.major, info.minor, Some(info.fileMode), Some(0), Some(0))
  }

  function ToDevices(infos: seq<DevInfo>): seq<LinuxDevice> {
    seq(|infos|, i requires 0 <= i < |infos| => ToDevice(infos[i]))
  }

  function WithDevices(d: SpecData, infos: seq<DevInfo>): SpecData {
    d.(devices := d.devices + ToDevices(NotIn(Paths(d.devices), PathOf, infos)))
  }

  // ---------- Rules ----------

  function NumbersOf(info: DevInfo): (int, int) { (info.major, info.minor) }

  /** Number pairs the list has an entry for, whatever its type, access or verdict. */
  function Keyed(rules: seq<Rule>): set<(int, int)> {
    set r | r in rules && r.major.Some? && r.minor.Some? :: (r.major.value, r.minor.value)
  }

  function AllowRule(info: DevInfo): Rule {
    Rule(true, "c", Some(info.major), Some(info.minor), "rwm")
  }

  function AllowRules(infos: seq<DevInfo>): seq<Rule> {
    seq(|infos|, i requires 0 <= i < |infos| => AllowRule(infos[i]))
  }

  function WithAllowList(d: SpecData, infos: seq<DevInfo>): SpecData {
    d.(rules := d.rules + AllowRules(NotIn(Keyed(d.rules), NumbersOf, infos)))
  }

  // ---------- Hooks ----------

  predicate IsHabanaHook(hook: Hook) { Contains(hook.path, HOOK_NAME) }

  predicate HasHabanaHook(hooks: seq<Hook>) {
    exists i :: 0 <= i < |hooks| && IsHabanaHook(hooks[i])
  }

  function HooksOf(d: SpecData): Hooks {
    if d.hooks.Some? then d.hooks.value else Hooks([], [])
  }

  function WithPrestartHook(d: SpecData, path: string): SpecData {
    var h := HooksOf(d);
    if HasHabanaHook(h.prestart) then d
    else d.(hooks := Some(h.(prestart := h.prestart + [Hook(path, [path, "prestart"])])))
  }

  function WithCreateRuntimeHook(d: SpecData, path: string): SpecData {
    var h := HooksOf(d);
    if HasHabanaHook(h.createRuntime) then d
    else d.(hooks := Some(h.(createRuntime := h.createRuntime + [Hook(path, [path, "createRuntime"])])))
  }

  // ---------- Environment ----------

  predicate HasVariable(env: seq<string>, name: string) {
    exists i :: 0 <= i < |env| && HasPrefix(env[i], name)
  }

  /** `quoted` is the message as strconv.Quote prints it. */
  function WithErrorVar(d: SpecData, quoted: string): SpecData {
    if HasVariable(d.env, RUNTIME_ERROR) then d
    else d.(env := d.env + [RUNTIME_ERROR + "=" + quoted])
  }

  // ---------- The spec object ----------

  class Spec {
    var hooks: Option<Hooks>
    var devices: seq<LinuxDevice>
    var rules: seq<Rule>
    var env: seq<string>

    ghost function State(): SpecData
      reads this
    {
      SpecData(hooks, devices, rules, env)
    }

    constructor (d: SpecData)
      ensures State() == d
    {
      hooks, devices, rules, env := d.hooks, d.devices, d.rules, d.env;
    }

    method AddDevicesToSpec(infos: seq<DevInfo>)
      modifies this
      ensures State() == WithDevices(old(State()), infos)
    {
      var current: set<string> := {};
      for i := 0 to |devices|
        invariant current == Paths(devices[..i])
      {
        assert devices[..i + 1] == devices[..i] + [devices[i]];
        current := current + {devices[i].path};
      }
      assert devices[..|devices|] == devices;
      var devicesToAdd: seq<LinuxDevice> := [];
      ghost var added: seq<DevInfo> := [];
      for i := 0 to |infos|
        invariant State() == old(State())
        invariant added == NotIn(current, PathOf, infos[..i]) && devicesToAdd == ToDevices(added)
      {
        NotInAppend(current, PathOf, infos[..i], infos[i]);
        assert infos[..i + 1] == infos[..i] + [infos[i]];
        if infos[i].path in current {
          continue;
        }
        devicesToAdd := devicesToAdd + [LinuxDevice("c", infos[i].path, infos[i].major, infos[i].minor,
                                                    Some(infos[i].fileMode), Some(0), Some(0))];
        added := added + [infos[i]];
      }
      assert infos[..|infos|] == infos;
      devices := devices + devicesToAdd;
    }

    /** The map of the code is keyed by "%d-%d" strings; they stand for the pairs. */
    method AddAllowList(infos: seq<DevInfo>)
      modifies this
      ensures State() == WithAllowList(old(State()), infos)
    {
      var current: set<string> := {};
      ghost var pairs: set<(int, int)> := {};
      for i := 0 to |rules|
        invariant State() == old(State()) && pairs == Keyed(rules[..i]) && current == PairKeys(pairs)
      {
        KeyedNext(rules, i);
        if rules[i].major.Some? && rules[i].minor.Some? {
          PairKeysGrow(pairs, (rules[i].major.value, rules[i].minor.value));
          current := current + {PairKey(rules[i].major.value, rules[i].minor.value)};
          pairs := pairs + {(rules[i].major.value, rules[i].minor.value)};
        }
      }
      assert rules[..|rules|] == rules;
      var devsToAdd: seq<Rule> := [];
      ghost var added: seq<DevInfo> := [];
      for i := 0 to |infos|
        invariant State() == old(State())
        invariant added == NotIn(pairs, NumbersOf, infos[..i]) && devsToAdd == AllowRules(added)
      {
        NotInAppend(pairs, NumbersOf, infos[..i], infos[i]);
        assert infos[..i + 1] == infos[..i] + [infos[i]];
        KeyStandsForPair(pairs, infos[i].major, infos[i].minor);
        if PairKey(infos[i].major, infos[i].minor) !in current {
          devsToAdd := devsToAdd + [Rule(true, "c", Some(infos[i].major), Some(infos[i].minor), "rwm")];
          added := added + [infos[i]];
        }
      }
      assert infos[..|infos|] == infos;
      rules := rules + devsToAdd;
    }

    method AddPrestartHook(path: string)
      modifies this
      ensures State() == WithPrestartHook(old(State()), path)
    {
      var args := [path];
      assert args + ["prestart"] == [path, "prestart"];
      ghost var before := HooksOf(State()).prestart;
      if hooks.None? {
        hooks := Some(Hooks([], []));
      } else if |hooks.value.prestart| != 0 {
        for i := 0 to |hooks.value.prestart|
          invariant forall k :: 0 <= k < i ==> !IsHabanaHook(before[k])
        {
          if !Contains(hooks.value.prestart[i].path, HOOK_NAME) {
            continue;
          }
          return;
        }
      }
      hooks := Some(hooks.value.(prestart := hooks.value.prestart + [Hook(path, args + ["prestart"])]));
    }

    method AddCreateRuntimeHook(path: string)
      modifies this
      ensures State() == WithCreateRuntimeHook(old(State()), path)
    {
      var args := [path];
      assert args + ["createRuntime"] == [path, "createRuntime"];
      ghost var before := HooksOf(State()).createRuntime;
      if hooks.None? {
        hooks := Some(Hooks([], []));
      } else if |hooks.value.createRuntime| != 0 {
        for i := 0 to |hooks.value.createRuntime|
          invariant forall k :: 0 <= k < i ==> !IsHabanaHook(before[k])
        {
          if !Contains(hooks.value.createRuntime[i].path, HOOK_NAME) {
            continue;
          }
          return;
        }
      }
      hooks := Some(hooks.value.(createRuntime := hooks.value.createRuntime + [Hook(path, args + ["createRuntime"])]));
    }

    method AddErrorEnvVar(quoted: string)
      modifies this
      ensures State() == WithErrorVar(old(State()), quoted)
    {
      for i := 0 to |env|
        invariant forall k :: 0 <= k < i ==> !HasPrefix(env[k], RUNTIME_ERROR)
      {
        if HasPrefix(env[i], RUNTIME_ERROR) {
          return;
        }
      }
      env := env + [RUNTIME_ERROR + "=" + quoted];
    }
  }

  function PairKeys(pairs: set<(int, int)>): set<string> {
    set p | p in pairs :: PairKey(p.0, p.1)
  }

  lemma PairKeysGrow(pairs: set<(int, int)>, pair: (int, int))
    ensures PairKeys(pairs + {pair}) == PairKeys(pairs) + {PairKey(pair.0, pair.1)}
  {
  }

  lemma KeyedNext(rules: seq<Rule>, i: nat)
    requires i < |rules|
    ensures Keyed(rules[..i + 1]) ==
            Keyed(rules[..i]) +
            if rules[i].major.Some? && rules[i].minor.Some? then {(rules[i].major.value, rules[i].minor.value)} else {}
  {
    assert rules[..i + 1] == rules[..i] + [rules[i]];
  }

  lemma KeyStandsForPair(pairs: set<(int, int)>, major: int, minor: int)
    ensures PairKey(major, minor) in PairKeys(pairs) <==> (major, minor) in pairs
  {
    if PairKey(major, minor) in PairKeys(pairs) {
      var p :| p in pairs && PairKey(p.0, p.1) == PairKey(major, minor);
      PairKeyInjective(p.0, p.1, major, minor);
    }
  }
}
