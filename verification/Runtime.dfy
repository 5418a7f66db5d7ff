/**
 cmd/habana-container-runtime/main.go: the whole rewrite of a container's spec,
 with its modes and early exits, against fixed answers of the host.
 */
module Runtime {
  import opened Discover
  import opened OciSpec
  import opened Strings
  import opened Wrappers

  datatype Config = Config(
    alwaysMount: bool, mode: string, mountAccelerators: bool, mountUverbs: bool, binariesDir: string)

  /** What the host answers: file lookups, stats, directory listings and the two netinfo steps. */
  datatype Host = Host(
    bundle: bool,                                        // the bundle is found and its spec decoded
    pathDir: Option<string>,                             // directory in $PATH that holds the hook
    executableDir: Option<string>,                       // directory of the running binary
    stat: string -> bool,
    devAccel: seq<string>,                               // names in /dev/accel
    deviceInfo: string -> Result<DevInfo, string>,
    readDir: string -> Result<seq<string>, string>,
    generate: seq<string> -> Option<string>,             // message of a failing netinfo.Generate
    gaudinet: Option<string>,                            // message of a failing netinfo.GaudinetFile
    quote: string -> string)

  datatype RuntimeError = NoBundle | NoHook | AcceleratorError(msg: string) | UverbsError(msg: string)

  const MODE_LEGACY := "legacy"
  const HOOK_DEFAULT := "/usr/bin/habana-container-hook"

  /** path.Join of a directory and the hook's name; cleaning inside the directory is not modelled. */
  function HookIn(dir: string): string {
    (if dir == "" then "" else if dir[|dir| - 1] == '/' then dir else dir + "/") + HOOK_NAME
  }

  lemma EndsWithName(path: string, dir: string)
    requires path == dir + HOOK_NAME
    ensures Contains(path, HOOK_NAME)
  {
    ContainsAtEnd(dir, HOOK_NAME);
  }

  lemma HookInNames(dir: string)
    ensures Contains(HookIn(dir), HOOK_NAME)
  {
    ContainsAtEnd(if dir == "" then "" else if dir[|dir| - 1] == '/' then dir else dir + "/", HOOK_NAME);
  }

  lemma HookInDir(dir: string)
    requires dir != "" && dir[|dir| - 1] != '/'
    ensures HookIn(dir) == dir + "/habana-container-hook"
    ensures HookIn(dir + "/") == dir + "/habana-container-hook"
  {
    assert "/" + HOOK_NAME == "/habana-container-hook";
    assert dir + "/" + HOOK_NAME == dir + ("/" + HOOK_NAME);
  }

  /** hookBinaryPath, and the second look at the default that its callers take. */
  function HookPath(cfg: Config, host: Host): Option<string> {
    if host.pathDir.Some? then Some(HookIn(host.pathDir.value))
    else if host.executableDir.Some? && host.stat(HookIn(host.executableDir.value))
    then Some(HookIn(host.executableDir.value))
    else if host.stat(HookIn(cfg.binariesDir)) then Some(HookIn(cfg.binariesDir))
    else if host.stat(HOOK_DEFAULT) then Some(HOOK_DEFAULT)
    else None
  }

  /** Whichever path is found, later runs recognise the hook by it. */
  lemma HookPathNames(cfg: Config, host: Host)
    requires HookPath(cfg, host).Some?
    ensures Contains(HookPath(cfg, host).value, HOOK_NAME)
  {
    if host.pathDir.Some? {
      HookInNames(host.pathDir.value);
    } else if host.executableDir.Some? && host.stat(HookIn(host.executableDir.value)) {
      HookInNames(host.executableDir.value);
    } else if host.stat(HookIn(cfg.binariesDir)) {
      HookInNames(cfg.binariesDir);
    } else {
      EndsWithName(HookPath(cfg, host).value, "/usr/bin/");
    }
  }

  // ---------- Collecting devices ----------

  function AcceleratorPaths(ids: seq<string>): seq<string> {
    if ids == [] then []
    else ["/dev/accel/accel" + ids[0], "/dev/accel/accel_controlD" + ids[0]] + AcceleratorPaths(ids[1..])
  }

  /** Device files of the uverbs that have one; unreadable or empty directories are passed over. */
  function UverbsPaths(ids: seq<string>, host: Host): seq<string> {
    if ids == [] then []
    else
      var listing := host.readDir("/sys/class/infiniband/hlib_" + ids[0] + "/device/infiniband_verbs");
      if listing.Failure? || listing.value == [] then UverbsPaths(ids[1..], host)
      else ["/dev/infiniband/" + listing.value[0]] + UverbsPaths(ids[1..], host)
  }

  /** For each id the accelerator and then its control device. */
  lemma {:induction false} AcceleratorPathsAre(ids: seq<string>, i: nat)
    ensures |AcceleratorPaths(ids)| == 2 * |ids|
    ensures i < |ids| ==>
              && AcceleratorPaths(ids)[2 * i] == "/dev/accel/accel" + ids[i]
              && AcceleratorPaths(ids)[2 * i + 1] == "/dev/accel/accel_controlD" + ids[i]
  {
    if ids != [] {
      AcceleratorPathsAre(ids[1..], if i > 0 then i - 1 else 0);
    }
  }

  /** A further id adds the first entry of its verbs directory, if that can be read and has one. */
  lemma {:induction false} UverbsPathsAppend(ids: seq<string>, id: string, host: Host)
    ensures var listing := host.readDir("/sys/class/infiniband/hlib_" + id + "/device/infiniband_verbs");
            UverbsPaths(ids + [id], host) ==
            UverbsPaths(ids, host) +
            if listing.Success? && listing.value != [] then ["/dev/infiniband/" + listing.value[0]] else []
  {
    if ids == [] {
      assert (ids + [id])[1..] == [];
    } else {
      assert (ids + [id])[1..] == ids[1..] + [id];
      UverbsPathsAppend(ids[1..], id, host);
    }
  }

  /** The infos of all paths, or the message of the first that fails. */
  function Infos(paths: seq<string>, host: Host): Result<seq<DevInfo>, string> {
    if paths == [] then Success([])
    else
      var info := host.deviceInfo(paths[0]);
      if info.Failure? then Failure(info.error)
      else
        var rest := Infos(paths[1..], host);
        if rest.Failure? then rest else Success([info.value] + rest.value)
  }

  /** All infos are there exactly when each one is, in order. */
  lemma {:induction false} InfosAll(paths: seq<string>, host: Host)
    ensures Infos(paths, host).Success? <==> forall i :: 0 <= i < |paths| ==> host.deviceInfo(paths[i]).Success?
    ensures Infos(paths, host).Success? ==>
              var infos := Infos(paths, host).value;
              |infos| == |paths| && forall i :: 0 <= i < |paths| ==> host.deviceInfo(paths[i]) == Success(infos[i])
  {
    if paths != [] {
      InfosAll(paths[1..], host);
      assert forall i :: 1 <= i < |paths| ==> paths[i] == paths[1..][i - 1];
    }
  }

  /** The message is that of the first path that fails. */
  lemma {:induction false} FirstInfoError(paths: seq<string>, host: Host, i: nat)
    requires i < |paths| && host.deviceInfo(paths[i]).Failure?
    requires forall k :: 0 <= k < i ==> host.deviceInfo(paths[k]).Success?
    ensures Infos(paths, host) == Failure(host.deviceInfo(paths[i]).error)
  {
    if i > 0 {
      FirstInfoError(paths[1..], host, i - 1);
    }
  }

  function Prepended(infos: seq<DevInfo>, rest: Result<seq<DevInfo>, string>): Result<seq<DevInfo>, string> {
    if rest.Failure? then rest else Success(infos + rest.value)
  }

  lemma InfosStep(devs: seq<DevInfo>, path: string, rest: seq<string>, host: Host)
    ensures Prepended(devs, Infos([path] + rest, host)) ==
            if host.deviceInfo(path).Failure? then Failure(host.deviceInfo(path).error)
            else Prepended(devs + [host.deviceInfo(path).value], Infos(rest, host))
  {
    assert ([path] + rest)[1..] == rest;
    var tail := Infos(rest, host);
    if host.deviceInfo(path).Success? && tail.Success? {
      var info := host.deviceInfo(path).value;
      assert devs + ([info] + tail.value) == devs + [info] + tail.value;
    }
  }

  lemma InfosEnds(paths: seq<string>, host: Host)
    ensures Prepended([], Infos(paths, host)) == Infos(paths, host)
  {
    if Infos(paths, host).Success? {
      assert [] + Infos(paths, host).value == Infos(paths, host).value;
    }
  }

  method CollectAccelerators(requestedDevs: seq<string>, host: Host) returns (r: Result<seq<DevInfo>, string>)
    ensures r == Infos(AcceleratorPaths(requestedDevs), host)
  {
    var devs: seq<DevInfo> := [];
    ghost var all := Infos(AcceleratorPaths(requestedDevs), host);
    InfosEnds(AcceleratorPaths(requestedDevs), host);
    assert requestedDevs[0..] == requestedDevs;
    for i := 0 to |requestedDevs|
      invariant all == Prepended(devs, Infos(AcceleratorPaths(requestedDevs[i..]), host))
    {
      var u := requestedDevs[i];
      assert requestedDevs[i..][1..] == requestedDevs[i + 1..];
      ghost var rest := AcceleratorPaths(requestedDevs[i + 1..]);
      var prefixes := ["/dev/accel/accel", "/dev/accel/accel_controlD"];
      ghost var now := [prefixes[0] + u, prefixes[1] + u];
      assert now[0..] + rest == AcceleratorPaths(requestedDevs[i..]);
      for k := 0 to |prefixes|
        invariant all == Prepended(devs, Infos(now[k..] + rest, host))
      {
        assert now[k..] + rest == [now[k]] + (now[k + 1..] + rest);
        InfosStep(devs, now[k], now[k + 1..] + rest, host);
        var info := host.deviceInfo(prefixes[k] + u);
        if info.Failure? {
          return Failure(info.error);
        }
        devs := devs + [info.value];
      }
      assert now[2..] + rest == rest;
    }
    assert devs + [] == devs;
    return Success(devs);
  }

  /** One round of the loop over the uverbs. */
  lemma {:induction false} UverbsStep(devs: seq<DevInfo>, ids: seq<string>, i: nat, host: Host)
    requires i < |ids|
    ensures var listing := host.readDir("/sys/class/infiniband/hlib_" + ids[i] + "/device/infiniband_verbs");
            Prepended(devs, Infos(UverbsPaths(ids[i..], host), host)) ==
            if listing.Failure? || listing.value == []
            then Prepended(devs, Infos(UverbsPaths(ids[i + 1..], host), host))
            else
              var info := host.deviceInfo("/dev/infiniband/" + listing.value[0]);
              if info.Failure? then Failure(info.error)
              else Prepended(devs + [info.value], Infos(UverbsPaths(ids[i + 1..], host), host))
  {
    assert ids[i..][0] == ids[i] && ids[i..][1..] == ids[i + 1..];
    var listing := host.readDir("/sys/class/infiniband/hlib_" + ids[i] + "/device/infiniband_verbs");
    if listing.Success? && listing.value != [] {
      InfosStep(devs, "/dev/infiniband/" + listing.value[0], UverbsPaths(ids[i + 1..], host), host);
    }
  }

  method CollectUverbs(requestedDevsIDs: seq<string>, host: Host) returns (r: Result<seq<DevInfo>, string>)
    ensures r == Infos(UverbsPaths(requestedDevsIDs, host), host)
  {
    var devs: seq<DevInfo> := [];
    ghost var all := Infos(UverbsPaths(requestedDevsIDs, host), host);
    InfosEnds(UverbsPaths(requestedDevsIDs, host), host);
    assert requestedDevsIDs[0..] == requestedDevsIDs;
    for i := 0 to |requestedDevsIDs|
      invariant all == Prepended(devs, Infos(UverbsPaths(requestedDevsIDs[i..], host), host))
    {
      UverbsStep(devs, requestedDevsIDs, i, host);
      var hlib := "/sys/class/infiniband/hlib_" + requestedDevsIDs[i];
      var uverbs := host.readDir(hlib + "/device/infiniband_verbs");
      if !uverbs.Success? {
        continue;
      }
      if |uverbs.value| == 0 {
        continue;
      }
      var uverbDev := "/dev/infiniband/" + uverbs.value[0];
      var info := host.deviceInfo(uverbDev);
      if !info.Success? {
        return Failure(info.error);
      }
      devs := devs + [info.value];
    }
    assert devs + [] == devs;
    return Success(devs);
  }

  // ---------- The rewrite as a function ----------

  predicate HasCreate(args: seq<string>) {
    exists i :: 0 <= i < |args| && !HasPrefix(args[i], "-") && args[i] == "create"
  }

  predicate HabanaContainer(env: seq<string>) {
    HasVariable(env, VISIBLE_DEVICES)
  }

  function Requested(d: SpecData, host: Host): seq<string>
  {
    Unique({}, FilteredDevices(d.env, AcceleratorDevices(host.devAccel)))
  }

  /** Device nodes and allow list for collected devices, or the error variable. */
  function Mounted(d: SpecData, infos: Result<seq<DevInfo>, string>, host: Host): SpecData {
    if infos.Failure? then WithErrorVar(d, host.quote(infos.error))
    else WithAllowList(WithDevices(d, infos.value), infos.value)
  }

  function Noted(d: SpecData, msg: Option<string>, host: Host): SpecData {
    if msg.None? then d else WithErrorVar(d, host.quote(msg.value))
  }

  /** Everything from the accelerators on, for a non-empty list of ids. */
  function DeviceEdits(cfg: Config, host: Host, ids: seq<string>, d: SpecData): (SpecData, Option<RuntimeError>) {
    var accel := Infos(AcceleratorPaths(ids), host);
    var d1 := if cfg.mountAccelerators then Mounted(d, accel, host) else d;
    if cfg.mountAccelerators && accel.Failure? then (d1, Some(AcceleratorError(accel.error)))
    else
      var uverbs := Infos(UverbsPaths(ids, host), host);
      var d2 := if cfg.mountUverbs then Mounted(d1, uverbs, host) else d1;
      if cfg.mountUverbs && uverbs.Failure? then (d2, Some(UverbsError(uverbs.error)))
      else (Noted(Noted(d2, host.generate(ids), host), host.gaudinet, host), None)
  }

  function OciEdits(cfg: Config, host: Host, d: SpecData): (SpecData, Option<RuntimeError>)
  {
    var path := HookPath(cfg, host);
    if path.None? then (d, Some(NoHook))
    else
      var d1 := WithCreateRuntimeHook(d, path.value);
      var ids := Requested(d1, host);
      if ids == [] then (d1, None) else DeviceEdits(cfg, host, ids, d1)
  }

  function LegacyEdits(cfg: Config, host: Host, d: SpecData): (SpecData, Option<RuntimeError>) {
    var path := HookPath(cfg, host);
    if path.None? then (d, Some(NoHook)) else (WithPrestartHook(d, path.value), None)
  }

  /** The spec as saved, and the error returned. */
  function Rewritten(cfg: Config, host: Host, args: seq<string>, d: SpecData): (SpecData, Option<RuntimeError>)
  {
    if !HasCreate(args) then (d, None)
    else if !host.bundle then (d, Some(NoBundle))
    else if !cfg.alwaysMount && !HabanaContainer(d.env) then (d, None)
    else if cfg.mode == MODE_LEGACY then LegacyEdits(cfg, host, d)
    else OciEdits(cfg, host, d)
  }

  // ---------- The code ----------

  method HasCreateCommand(args: seq<string>) returns (found: bool)
    ensures found == HasCreate(args)
  {
    for i := 0 to |args|
      invariant forall k :: 0 <= k < i ==> HasPrefix(args[k], "-") || args[k] != "create"
    {
      if HasPrefix(args[i], "-") {
        continue;
      }
      if args[i] == "create" {
        return true;
      }
    }
    return false;
  }

  method IsHabanaContainer(env: seq<string>) returns (found: bool)
    ensures found == HabanaContainer(env)
  {
    for i := 0 to |env|
      invariant forall k :: 0 <= k < i ==> !HasPrefix(env[k], VISIBLE_DEVICES)
    {
      if HasPrefix(env[i], VISIBLE_DEVICES) {
        return true;
      }
    }
    return false;
  }

  method AddAcceleratorDevices(spec: Spec, requestedDevs: seq<string>, host: Host) returns (err: Option<string>)
    modifies spec
    ensures var infos := Infos(AcceleratorPaths(requestedDevs), host);
            if infos.Failure? then err == Some(infos.error) && spec.State() == old(spec.State())
            else err == None && spec.State() == Mounted(old(spec.State()), infos, host)
  {
    var devs := CollectAccelerators(requestedDevs, host);
    if devs.Failure? {
      return Some(devs.error);
    }
    spec.AddDevicesToSpec(devs.value);
    spec.AddAllowList(devs.value);
    return None;
  }

  method AddUverbsDevices(spec: Spec, requestedDevsIDs: seq<string>, host: Host) returns (err: Option<string>)
    modifies spec
    ensures var infos := Infos(UverbsPaths(requestedDevsIDs, host), host);
            if infos.Failure? then err == Some(infos.error) && spec.State() == old(spec.State())
            else err == None && spec.State() == Mounted(old(spec.State()), infos, host)
  {
    var devs := CollectUverbs(requestedDevsIDs, host);
    if devs.Failure? {
      return Some(devs.error);
    }
    spec.AddDevicesToSpec(devs.value);
    spec.AddAllowList(devs.value);
    return None;
  }

  /** The spec is saved on every way out, so its state on return is what counts. */
  method HandleRequest(cfg: Config, host: Host, args: seq<string>, specConfig: Spec) returns (err: Option<RuntimeError>)
    modifies specConfig
    ensures (specConfig.State(), err) == Rewritten(cfg, host, args, old(specConfig.State()))
  {
    var create := HasCreateCommand(args);
    if !create {
      return None;
    }
    if !host.bundle {
      return Some(NoBundle);
    }
    if !cfg.alwaysMount {
      var habana := IsHabanaContainer(specConfig.env);
      if !habana {
        return None;
      }
    }
    if cfg.mode == MODE_LEGACY {
      var path := HookPath(cfg, host);
      if path.None? {
        return Some(NoHook);
      }
      specConfig.AddPrestartHook(path.value);
      return None;
    }
    var path := HookPath(cfg, host);
    if path.None? {
      return Some(NoHook);
    }
    specConfig.AddCreateRuntimeHook(path.value);
    var available := FilterDevicesByENV(specConfig.env, AcceleratorDevices(host.devAccel));
    var requestedDevices := DevicesIDs(available);
    if |requestedDevices| == 0 {
      return None;
    }
    err := EditDevices(cfg, host, requestedDevices, specConfig);
  }

  /** The second half of handleRequest. */
  method EditDevices(cfg: Config, host: Host, ids: seq<string>, specConfig: Spec) returns (err: Option<RuntimeError>)
    modifies specConfig
    ensures (specConfig.State(), err) == DeviceEdits(cfg, host, ids, old(specConfig.State()))
  {
    if cfg.mountAccelerators {
      var failed := AddAcceleratorDevices(specConfig, ids, host);
      if failed.Some? {
        specConfig.AddErrorEnvVar(host.quote(failed.value));
        return Some(AcceleratorError(failed.value));
      }
    }
    if cfg.mountUverbs {
      var failed := AddUverbsDevices(specConfig, ids, host);
      if failed.Some? {
        specConfig.AddErrorEnvVar(host.quote(failed.value));
        return Some(UverbsError(failed.value));
      }
    }
    var generated := host.generate(ids);
    if generated.Some? {
      specConfig.AddErrorEnvVar(host.quote(generated.value));
    }
    if host.gaudinet.Some? {
      specConfig.AddErrorEnvVar(host.quote(host.gaudinet.value));
    }
    return None;
  }
}
