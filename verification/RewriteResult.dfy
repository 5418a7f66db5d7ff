/**
 What a rewrite leaves in a spec, said in the host's answers: the hook, the nodes of
 the devices, the error variable; and which error it ends with.
 */
module RewriteResult {
  import opened Discover
  import opened OciSpec
  import opened Runtime
  import opened RuntimeEffect
  import opened SpecEdits
  import opened Strings
  import opened Wrappers

  /** A create command for a bundle whose container is to have devices. */
  predicate Wanted(cfg: Config, host: Host, args: seq<string>, d: SpecData) {
    && "create" in args && host.bundle
    && (cfg.alwaysMount || exists i :: 0 <= i < |d.env| && HasPrefix(d.env[i], "HABANA_VISIBLE_DEVICES"))
  }

  /** Otherwise nothing happens to the spec. */
  lemma RewriteSkips(cfg: Config, host: Host, args: seq<string>, d: SpecData)
    requires !Wanted(cfg, host, args, d)
    ensures Rewritten(cfg, host, args, d) == (d, if "create" in args && !host.bundle then Some(NoBundle) else None)
  {
    CreateCommand(args);
  }

  /** No other word than create counts, and flags are no matter. */
  lemma CreateCommand(args: seq<string>)
    ensures HasCreate(args) <==> "create" in args
  {
    assert "create"[0] == 'c' && "-"[0] == '-';
  }

  // ---------- The hook ----------

  /** Where the hook is looked for, in turn: $PATH, next to the runtime, the configured place, the default one. */
  function Lookups(cfg: Config, host: Host): seq<string> {
    (if host.pathDir.Some? then [HookIn(host.pathDir.value)] else []) +
    (if host.executableDir.Some? && host.stat(HookIn(host.executableDir.value))
     then [HookIn(host.executableDir.value)] else []) +
    (if host.stat(HookIn(cfg.binariesDir)) then [HookIn(cfg.binariesDir)] else []) +
    (if host.stat("/usr/bin/habana-container-hook") then ["/usr/bin/habana-container-hook"] else [])
  }

  /** The hook is found exactly when one of the lookups finds it; the first one counts. */
  lemma HookPathExactly(cfg: Config, host: Host)
    ensures HookPath(cfg, host) == if Lookups(cfg, host) == [] then None else Some(Lookups(cfg, host)[0])
  {
  }

  function PrestartOf(d: SpecData): seq<Hook> {
    if d.hooks.Some? then d.hooks.value.prestart else []
  }

  function CreateRuntimeOf(d: SpecData): seq<Hook> {
    if d.hooks.Some? then d.hooks.value.createRuntime else []
  }

  /** One hook more behind the others, called for `stage`, unless there is one of that name. */
  predicate HookAdded(before: seq<Hook>, after: seq<Hook>, path: string, stage: string) {
    if exists i :: 0 <= i < |before| && Contains(before[i].path, "habana-container-hook") then after == before
    else after == before + [Hook(path, [path, stage])]
  }

  /** Legacy mode adds the prestart hook and nothing else. */
  lemma LegacyRewrite(cfg: Config, host: Host, args: seq<string>, d: SpecData)
    requires Wanted(cfg, host, args, d) && cfg.mode == "legacy"
    ensures var (after, err) := Rewritten(cfg, host, args, d);
            && after.devices == d.devices && after.rules == d.rules && after.env == d.env
            && (if Lookups(cfg, host) == [] then err == Some(NoHook) && after.hooks == d.hooks
                else
                  && err == None && after.hooks.Some?
                  && HookAdded(PrestartOf(d), PrestartOf(after), Lookups(cfg, host)[0], "prestart")
                  && CreateRuntimeOf(after) == CreateRuntimeOf(d))
  {
    CreateCommand(args);
    HookPathExactly(cfg, host);
  }

  lemma DeviceEditsKeepHooks(cfg: Config, host: Host, ids: seq<string>, d: SpecData)
    ensures DeviceEdits(cfg, host, ids, d).0.hooks == d.hooks
  {
  }

  /** The other mode adds the createRuntime hook, before anything else. */
  lemma OciHook(cfg: Config, host: Host, args: seq<string>, d: SpecData)
    requires Wanted(cfg, host, args, d) && cfg.mode != "legacy"
    ensures var (after, err) := Rewritten(cfg, host, args, d);
            if Lookups(cfg, host) == [] then err == Some(NoHook) && after == d
            else
              && err != Some(NoHook) && after.hooks.Some?
              && HookAdded(CreateRuntimeOf(d), CreateRuntimeOf(after), Lookups(cfg, host)[0], "createRuntime")
              && PrestartOf(after) == PrestartOf(d)
  {
    CreateCommand(args);
    HookPathExactly(cfg, host);
    if Lookups(cfg, host) != [] {
      var d1 := WithCreateRuntimeHook(d, Lookups(cfg, host)[0]);
      DeviceEditsKeepHooks(cfg, host, Requested(d1, host), d1);
    }
  }

  // ---------- Errors ----------

  /** The rewrite gets as far as the devices with these ids. */
  predicate GoesOn(cfg: Config, host: Host, args: seq<string>, d: SpecData, ids: seq<string>) {
    && Wanted(cfg, host, args, d) && cfg.mode != "legacy" && Lookups(cfg, host) != []
    && ids == Unique({}, FilteredDevices(d.env, AcceleratorDevices(host.devAccel)))
  }

  predicate StatsAll(paths: seq<string>, host: Host) {
    forall i :: 0 <= i < |paths| ==> host.deviceInfo(paths[i]).Success?
  }

  predicate FailsFirst(paths: seq<string>, host: Host, i: nat) {
    i < |paths| && host.deviceInfo(paths[i]).Failure? && StatsAll(paths[..i], host)
  }

  /** The first message is kept in the environment, unless there is an error already. */
  predicate Noticed(before: seq<string>, after: seq<string>, messages: seq<string>, host: Host) {
    if messages == [] || exists i :: 0 <= i < |before| && HasPrefix(before[i], "HABANA_RUNTIME_ERROR")
    then after == before
    else after == before + ["HABANA_RUNTIME_ERROR" + "=" + host.quote(messages[0])]
  }

  lemma FirstFailure(paths: seq<string>, host: Host, i: nat)
    requires FailsFirst(paths, host, i)
    ensures Infos(paths, host) == Failure(host.deviceInfo(paths[i]).error)
  {
    forall k | 0 <= k < i ensures host.deviceInfo(paths[k]).Success? {
      assert paths[..i][k] == paths[k];
    }
    FirstInfoError(paths, host, i);
  }

  lemma RewriteIsDeviceEdits(cfg: Config, host: Host, args: seq<string>, d: SpecData, ids: seq<string>)
    requires GoesOn(cfg, host, args, d, ids)
    ensures var d1 := WithCreateRuntimeHook(d, Lookups(cfg, host)[0]);
            && d1.(hooks := d.hooks) == d
            && Rewritten(cfg, host, args, d) == if ids == [] then (d1, None) else DeviceEdits(cfg, host, ids, d1)
  {
    CreateCommand(args);
    HookPathExactly(cfg, host);
  }

  /** Without devices nothing but the hook is added. */
  lemma NoDevicesRewrite(cfg: Config, host: Host, args: seq<string>, d: SpecData)
    requires GoesOn(cfg, host, args, d, [])
    ensures var (after, err) := Rewritten(cfg, host, args, d);
            err == None && after.devices == d.devices && after.rules == d.rules && after.env == d.env
  {
    RewriteIsDeviceEdits(cfg, host, args, d, []);
  }

  /** An accelerator that cannot be looked at ends the rewrite. */
  lemma AcceleratorFailure(cfg: Config, host: Host, args: seq<string>, d: SpecData, ids: seq<string>, i: nat)
    requires GoesOn(cfg, host, args, d, ids) && cfg.mountAccelerators && FailsFirst(AcceleratorPaths(ids), host, i)
    ensures var (after, err) := Rewritten(cfg, host, args, d);
            var message := host.deviceInfo(AcceleratorPaths(ids)[i]).error;
            && err == Some(AcceleratorError(message)) && Noticed(d.env, after.env, [message], host)
            && after.devices == d.devices && after.rules == d.rules
  {
    RewriteIsDeviceEdits(cfg, host, args, d, ids);
    FirstFailure(AcceleratorPaths(ids), host, i);
  }

  /** So do uverbs, when the accelerators have gone well. */
  lemma UverbsFailure(cfg: Config, host: Host, args: seq<string>, d: SpecData, ids: seq<string>, i: nat)
    requires GoesOn(cfg, host, args, d, ids) && (cfg.mountAccelerators ==> StatsAll(AcceleratorPaths(ids), host))
    requires ids != [] && cfg.mountUverbs && FailsFirst(UverbsPaths(ids, host), host, i)
    ensures var (after, err) := Rewritten(cfg, host, args, d);
            var message := host.deviceInfo(UverbsPaths(ids, host)[i]).error;
            err == Some(UverbsError(message)) && Noticed(d.env, after.env, [message], host)
  {
    RewriteIsDeviceEdits(cfg, host, args, d, ids);
    InfosAll(AcceleratorPaths(ids), host);
    FirstFailure(UverbsPaths(ids, host), host, i);
  }

  function Messages(host: Host, ids: seq<string>): seq<string> {
    (if host.generate(ids).Some? then [host.generate(ids).value] else []) +
    (if host.gaudinet.Some? then [host.gaudinet.value] else [])
  }

  /** When all devices are found there is no error, even if the netinfo steps fail; the first such failure is noted. */
  lemma RewriteSucceeds(cfg: Config, host: Host, args: seq<string>, d: SpecData, ids: seq<string>)
    requires GoesOn(cfg, host, args, d, ids) && ids != []
    requires cfg.mountAccelerators ==> StatsAll(AcceleratorPaths(ids), host)
    requires cfg.mountUverbs ==> StatsAll(UverbsPaths(ids, host), host)
    ensures var (after, err) := Rewritten(cfg, host, args, d);
            err == None && Noticed(d.env, after.env, Messages(host, ids), host)
  {
    RewriteIsDeviceEdits(cfg, host, args, d, ids);
    InfosAll(AcceleratorPaths(ids), host);
    InfosAll(UverbsPaths(ids, host), host);
    var d1 := WithCreateRuntimeHook(d, Lookups(cfg, host)[0]);
    TwoNotes(d1.env, host.generate(ids), host.gaudinet, host);
  }

  lemma TwoNotes(env: seq<string>, a: Option<string>, b: Option<string>, host: Host)
    ensures var messages := (if a.Some? then [a.value] else []) + (if b.Some? then [b.value] else []);
            forall d: SpecData :: d.env == env ==> Noticed(env, Noted(Noted(d, a, host), b, host).env, messages, host)
  {
    forall d: SpecData | d.env == env
      ensures Noticed(env, Noted(Noted(d, a, host), b, host).env,
                      (if a.Some? then [a.value] else []) + (if b.Some? then [b.value] else []), host)
    {
      if a.Some? {
        ErrorVarPresent(d, host.quote(a.value));
      }
    }
  }

  // ---------- Device nodes ----------

  /** A stat is about the path it was asked for. */
  ghost predicate OwnPaths(host: Host) {
    forall p :: host.deviceInfo(p).Success? ==> host.deviceInfo(p).value.path == p
  }

  predicate HasNode(devices: seq<LinuxDevice>, from: nat, info: DevInfo) {
    exists k :: from <= k < |devices| && IsNodeOf(devices[k], info)
  }

  /** What one round of device edits does to the nodes. */
  lemma MountedNodes(on: bool, d: SpecData, infos: Result<seq<DevInfo>, string>, host: Host, info: DevInfo)
    ensures var after := if on then Mounted(d, infos, host) else d;
            && d.devices <= after.devices
            && (on && infos.Success? && info in infos.value && info.path !in Paths(d.devices) ==>
                HasNode(after.devices, |d.devices|, info))
            && forall k :: |d.devices| <= k < |after.devices| ==>
                 on && infos.Success? && NodeFrom(after.devices[k], infos.value)
  {
    if on && infos.Success? {
      var after := WithDevices(d, infos.value).devices;
      if info in infos.value && info.path !in Paths(d.devices) {
        var i :| 0 <= i < |infos.value| && infos.value[i] == info;
        NodesOfDevices(d, infos.value, i);
      }
      forall k | |d.devices| <= k < |after| ensures NodeFrom(after[k], infos.value) {
        NodesOfDevices(d, infos.value, k);
      }
    }
  }

  predicate NodeFrom(node: LinuxDevice, infos: seq<DevInfo>) {
    exists j :: 0 <= j < |infos| && IsNodeOf(node, infos[j])
  }

  lemma {:induction false} InfoIsStat(paths: seq<string>, host: Host, info: DevInfo)
    requires Infos(paths, host).Success? && info in Infos(paths, host).value && OwnPaths(host)
    ensures host.deviceInfo(info.path) == Success(info)
  {
    InfosAll(paths, host);
    var infos := Infos(paths, host).value;
    var i :| 0 <= i < |infos| && infos[i] == info;
    assert host.deviceInfo(paths[i]) == Success(info);
  }

  /** A path the first round has given a node has it from the same stat. */
  lemma SameStat(d: SpecData, accel: seq<string>, uverbs: seq<string>, host: Host, info: DevInfo)
    requires OwnPaths(host) && Infos(accel, host).Success? && Infos(uverbs, host).Success?
    requires info in Infos(uverbs, host).value && info.path !in Paths(d.devices)
    requires info.path in Paths(WithDevices(d, Infos(accel, host).value).devices)
    ensures HasNode(WithDevices(d, Infos(accel, host).value).devices, |d.devices|, info)
  {
    var infos := Infos(accel, host).value;
    var after := WithDevices(d, infos).devices;
    var k :| 0 <= k < |after| && after[k].path == info.path;
    assert forall m :: 0 <= m < |d.devices| ==> after[m] == d.devices[m] && d.devices[m].path in Paths(d.devices);
    NodesOfDevices(d, infos, k);
    var j :| 0 <= j < |infos| && infos[j].path !in Paths(d.devices) && IsNodeOf(after[k], infos[j]);
    InfoIsStat(accel, host, infos[j]);
    InfoIsStat(uverbs, host, info);
    assert infos[j].path == info.path;
    assert infos[j] == info && IsNodeOf(after[k], info);
  }

  /**
   In every mode and on every exit: old nodes stay in front, and each collected
   device whose path had no node gets one with the numbers of its own stat.
   */
  lemma CollectedHaveNodes(cfg: Config, host: Host, args: seq<string>, d: SpecData, info: DevInfo)
    requires OwnPaths(host) && info in CollectedBy(cfg, host, args, d) && info.path !in Paths(d.devices)
    ensures var after := Rewritten(cfg, host, args, d).0.devices;
            d.devices <= after && HasNode(after, |d.devices|, info)
  {
    var ids := Requested(d, host);
    CreateCommand(args);
    HookPathExactly(cfg, host);
    RewriteIsDeviceEdits(cfg, host, args, d, ids);
    CollectedNodes(cfg, host, ids, WithCreateRuntimeHook(d, Lookups(cfg, host)[0]), info);
  }

  lemma CollectedNodes(cfg: Config, host: Host, ids: seq<string>, d: SpecData, info: DevInfo)
    requires OwnPaths(host) && info in Collected(cfg, host, ids) && info.path !in Paths(d.devices)
    ensures var after := DeviceEdits(cfg, host, ids, d).0.devices;
            d.devices <= after && HasNode(after, |d.devices|, info)
  {
    TwoRounds(cfg.mountAccelerators, cfg.mountUverbs, d, AcceleratorPaths(ids), UverbsPaths(ids, host), host, info);
    NotesKeepNodes(cfg, host, ids, d);
  }

  lemma NotesKeepNodes(cfg: Config, host: Host, ids: seq<string>, d: SpecData)
    ensures var accel, uverbs := Infos(AcceleratorPaths(ids), host), Infos(UverbsPaths(ids, host), host);
            var d1 := if cfg.mountAccelerators then Mounted(d, accel, host) else d;
            DeviceEdits(cfg, host, ids, d).0.devices ==
            if cfg.mountAccelerators && accel.Failure? then d.devices
            else if cfg.mountUverbs then Mounted(d1, uverbs, host).devices else d1.devices
  {
  }

  lemma TwoRounds(first: bool, second: bool, d: SpecData, one: seq<string>, two: seq<string>, host: Host, info: DevInfo)
    requires OwnPaths(host) && info.path !in Paths(d.devices) && (first ==> Infos(one, host).Success?)
    requires || (first && info in Infos(one, host).value)
             || (second && Infos(two, host).Success? && info in Infos(two, host).value)
    ensures var d1 := if first then Mounted(d, Infos(one, host), host) else d;
            var d2 := if second then Mounted(d1, Infos(two, host), host) else d1;
            d.devices <= d2.devices && HasNode(d2.devices, |d.devices|, info)
  {
    var d1 := if first then Mounted(d, Infos(one, host), host) else d;
    var d2 := if second then Mounted(d1, Infos(two, host), host) else d1;
    MountedNodes(first, d, Infos(one, host), host, info);
    MountedNodes(second, d1, Infos(two, host), host, info);
    if info.path !in Paths(d1.devices) {
      NodeFurther(d2.devices, |d.devices|, |d1.devices|, info);
    } else {
      if !HasNode(d1.devices, |d.devices|, info) {
        SameStat(d, one, two, host, info);
      }
      NodeStays(d1.devices, d2.devices, |d.devices|, info);
    }
  }

  /** And no node is added but those of collected devices. */
  lemma AddedNodesCollected(cfg: Config, host: Host, args: seq<string>, d: SpecData, k: nat)
    requires |d.devices| <= k < |Rewritten(cfg, host, args, d).0.devices|
    ensures NodeFrom(Rewritten(cfg, host, args, d).0.devices[k], CollectedBy(cfg, host, args, d))
  {
    CreateCommand(args);
    HookPathExactly(cfg, host);
    assert Proceeds(cfg, host, args, d);
    var ids := Requested(d, host);
    RewriteIsDeviceEdits(cfg, host, args, d, ids);
    AddedInEdits(cfg, host, ids, WithCreateRuntimeHook(d, Lookups(cfg, host)[0]), k);
  }

  lemma AddedInEdits(cfg: Config, host: Host, ids: seq<string>, d: SpecData, k: nat)
    requires |d.devices| <= k < |DeviceEdits(cfg, host, ids, d).0.devices|
    ensures NodeFrom(DeviceEdits(cfg, host, ids, d).0.devices[k], Collected(cfg, host, ids))
  {
    var accel, uverbs := Infos(AcceleratorPaths(ids), host), Infos(UverbsPaths(ids, host), host);
    var d1 := if cfg.mountAccelerators then Mounted(d, accel, host) else d;
    var d2 := if cfg.mountUverbs then Mounted(d1, uverbs, host) else d1;
    var any := DevInfo("", 0, 0, 0);
    MountedNodes(cfg.mountAccelerators, d, accel, host, any);
    MountedNodes(cfg.mountUverbs, d1, uverbs, host, any);
    var a := if cfg.mountAccelerators && accel.Success? then accel.value else [];
    var b := if cfg.mountUverbs && uverbs.Success? then uverbs.value else [];
    var node := DeviceEdits(cfg, host, ids, d).0.devices[k];
    if k < |d1.devices| {
      assert node == d1.devices[k];
      FromEither(node, a, b);
    } else {
      assert node == d2.devices[k];
      FromEither(node, a, b);
    }
  }

  lemma FromEither(node: LinuxDevice, a: seq<DevInfo>, b: seq<DevInfo>)
    requires NodeFrom(node, a) || NodeFrom(node, b)
    ensures NodeFrom(node, a + b)
  {
    if NodeFrom(node, a) {
      var j :| 0 <= j < |a| && IsNodeOf(node, a[j]);
      assert IsNodeOf(node, (a + b)[j]);
    } else {
      var j :| 0 <= j < |b| && IsNodeOf(node, b[j]);
      assert IsNodeOf(node, (a + b)[|a| + j]);
    }
  }

  lemma NodeStays(some: seq<LinuxDevice>, more: seq<LinuxDevice>, from: nat, info: DevInfo)
    requires some <= more && HasNode(some, from, info)
    ensures HasNode(more, from, info)
  {
    var k :| from <= k < |some| && IsNodeOf(some[k], info);
    assert IsNodeOf(more[k], info);
  }

  lemma NodeFurther(devices: seq<LinuxDevice>, from: nat, further: nat, info: DevInfo)
    requires from <= further && HasNode(devices, further, info)
    ensures HasNode(devices, from, info)
  {
    var k :| further <= k < |devices| && IsNodeOf(devices[k], info);
  }
}
