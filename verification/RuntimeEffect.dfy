/** What a whole rewrite in OCI mode does to the access a container gets. */
module RuntimeEffect {
  import opened Bpf
  import opened Missing
  import opened OciSpec
  import opened Rules
  import opened Runtime
  import opened SpecEdits
  import opened Wrappers

  /**
   The devices whose rules are added: none for what is switched off or cannot be
   collected, and no uverbs once the accelerators have failed.
   */
  function Collected(cfg: Config, host: Host, ids: seq<string>): seq<DevInfo> {
    var accel, uverbs := Infos(AcceleratorPaths(ids), host), Infos(UverbsPaths(ids, host), host);
    if cfg.mountAccelerators && accel.Failure? then []
    else
      (if cfg.mountAccelerators then accel.value else []) +
      (if cfg.mountUverbs && uverbs.Success? then uverbs.value else [])
  }

  /** A rewrite gets to the devices. */
  predicate Proceeds(cfg: Config, host: Host, args: seq<string>, d: SpecData) {
    && HasCreate(args) && host.bundle && (cfg.alwaysMount || HabanaContainer(d.env)) && cfg.mode != MODE_LEGACY
    && HookPath(cfg, host).Some? && Requested(d, host) != []
  }

  function CollectedBy(cfg: Config, host: Host, args: seq<string>, d: SpecData): seq<DevInfo> {
    if Proceeds(cfg, host, args, d) then Collected(cfg, host, Requested(d, host)) else []
  }

  lemma KeysConcat(a: seq<DevInfo>, b: seq<DevInfo>)
    ensures Keys(NumbersOf, a + b) == Keys(NumbersOf, a) + Keys(NumbersOf, b)
  {
    assert forall d :: d in a + b <==> d in a || d in b;
  }

  lemma MountedVerdict(d: SpecData, infos: seq<DevInfo>, host: Host, ctx: Context)
    ensures var after := Mounted(d, Success(infos), host);
            && Keyed(after.rules) == Keyed(d.rules) + Keys(NumbersOf, infos)
            && Verdict(after.rules, ctx) == if NewlyAllowed(d, infos, ctx) then Some(true) else Verdict(d.rules, ctx)
  {
    var nodes := WithDevices(d, infos);
    AllowListAdded(nodes, infos);
    AllowListVerdict(nodes, infos, ctx);
  }

  lemma MountedVerdictIf(on: bool, d: SpecData, infos: Result<seq<DevInfo>, string>, host: Host, ctx: Context)
    ensures var after := if on then Mounted(d, infos, host) else d;
            var added := if on && infos.Success? then infos.value else [];
            && Keyed(after.rules) == Keyed(d.rules) + Keys(NumbersOf, added)
            && Verdict(after.rules, ctx) == if NewlyAllowed(d, added, ctx) then Some(true) else Verdict(d.rules, ctx)
  {
    assert Keys(NumbersOf, []) == {};
    if on && infos.Success? {
      MountedVerdict(d, infos.value, host, ctx);
    }
  }

  lemma AllowedInTwoSteps(d: SpecData, d1: SpecData, a: seq<DevInfo>, b: seq<DevInfo>, ctx: Context)
    requires Keyed(d1.rules) == Keyed(d.rules) + Keys(NumbersOf, a)
    ensures NewlyAllowed(d, a + b, ctx) <==> NewlyAllowed(d, a, ctx) || NewlyAllowed(d1, b, ctx)
  {
    KeysConcat(a, b);
  }

  lemma DeviceEditsVerdict(cfg: Config, host: Host, ids: seq<string>, d: SpecData, ctx: Context)
    ensures Verdict(DeviceEdits(cfg, host, ids, d).0.rules, ctx) ==
            if NewlyAllowed(d, Collected(cfg, host, ids), ctx) then Some(true) else Verdict(d.rules, ctx)
  {
    var accel, uverbs := Infos(AcceleratorPaths(ids), host), Infos(UverbsPaths(ids, host), host);
    var d1 := if cfg.mountAccelerators then Mounted(d, accel, host) else d;
    MountedVerdictIf(cfg.mountAccelerators, d, accel, host, ctx);
    if !(cfg.mountAccelerators && accel.Failure?) {
      MountedVerdictIf(cfg.mountUverbs, d1, uverbs, host, ctx);
      AllowedInTwoSteps(d, d1, if cfg.mountAccelerators then accel.value else [],
                        if cfg.mountUverbs && uverbs.Success? then uverbs.value else [], ctx);
    }
  }

  /**
   In every mode and on every exit: a rewrite allows exactly the collected devices
   that had no entry, and changes no other verdict. After a failure of the uverbs the
   accelerators stay allowed.
   */
  lemma RewriteVerdict(cfg: Config, host: Host, args: seq<string>, d: SpecData, ctx: Context)
    ensures Verdict(Rewritten(cfg, host, args, d).0.rules, ctx) ==
            if NewlyAllowed(d, CollectedBy(cfg, host, args, d), ctx) then Some(true) else Verdict(d.rules, ctx)
  {
    assert Keys(NumbersOf, []) == {};
    if Proceeds(cfg, host, args, d) {
      var d1 := WithCreateRuntimeHook(d, HookPath(cfg, host).value);
      assert Requested(d1, host) == Requested(d, host);
      DeviceEditsVerdict(cfg, host, Requested(d, host), d1, ctx);
    }
  }
}
