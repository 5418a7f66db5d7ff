/** Rewriting an already rewritten spec changes nothing. */
module Idempotence {
  import opened Discover
  import opened Missing
  import opened OciSpec
  import opened Runtime
  import opened SpecEdits
  import opened Strings
  import opened Wrappers

  // ---------- What the error variable leaves visible ----------

  lemma {:induction false} RequestedByAppend(env: seq<string>, v: string)
    requires !HasPrefix(v, VISIBLE_DEVICES)
    ensures RequestedBy(env + [v]) == RequestedBy(env)
  {
    if env == [] {
      assert (env + [v])[1..] == [];
    } else {
      assert (env + [v])[1..] == env[1..] + [v] && (env + [v])[0] == env[0];
      RequestedByAppend(env[1..], v);
    }
  }

  lemma ErrorVarIsNotVisibleDevices(quoted: string)
    ensures !HasPrefix(RUNTIME_ERROR + "=" + quoted, VISIBLE_DEVICES)
  {
    var v := RUNTIME_ERROR + "=" + quoted;
    assert v[7] == RUNTIME_ERROR[7] == 'R' && VISIBLE_DEVICES[7] == 'V';
  }

  lemma ErrorVarInvisible(d: SpecData, quoted: string)
    ensures RequestedBy(WithErrorVar(d, quoted).env) == RequestedBy(d.env)
    ensures HabanaContainer(WithErrorVar(d, quoted).env) == HabanaContainer(d.env)
  {
    var v := RUNTIME_ERROR + "=" + quoted;
    ErrorVarIsNotVisibleDevices(quoted);
    RequestedByAppend(d.env, v);
    var more := d.env + [v];
    if HabanaContainer(d.env) {
      var i :| 0 <= i < |d.env| && HasPrefix(d.env[i], VISIBLE_DEVICES);
      assert more[i] == d.env[i];
    }
    if HabanaContainer(more) {
      var i :| 0 <= i < |more| && HasPrefix(more[i], VISIBLE_DEVICES);
      assert more[i] == d.env[i];
    }
  }

  // ---------- Settled specs ----------

  /** Nothing is missing of what these devices need. */
  predicate Settled(d: SpecData, infos: Result<seq<DevInfo>, string>) {
    infos.Success? ==>
      Keys(PathOf, infos.value) <= Paths(d.devices) && Keys(NumbersOf, infos.value) <= Keyed(d.rules)
  }

  /** `b` has everything `a` has, and offers the same view to the selection of devices. */
  predicate Follows(a: SpecData, b: SpecData) {
    && a.hooks == b.hooks
    && Paths(a.devices) <= Paths(b.devices) && Keyed(a.rules) <= Keyed(b.rules)
    && RequestedBy(a.env) == RequestedBy(b.env) && HabanaContainer(a.env) == HabanaContainer(b.env)
    && (HasVariable(a.env, RUNTIME_ERROR) ==> HasVariable(b.env, RUNTIME_ERROR))
  }

  lemma ErrorVarFollows(d: SpecData, quoted: string)
    ensures Follows(d, WithErrorVar(d, quoted))
    ensures HasVariable(WithErrorVar(d, quoted).env, RUNTIME_ERROR)
  {
    ErrorVarInvisible(d, quoted);
    ErrorVarPresent(d, quoted);
  }

  lemma MountedSettles(d: SpecData, infos: Result<seq<DevInfo>, string>, host: Host)
    ensures Follows(d, Mounted(d, infos, host)) && Settled(Mounted(d, infos, host), infos)
    ensures infos.Failure? ==> HasVariable(Mounted(d, infos, host).env, RUNTIME_ERROR)
  {
    if infos.Failure? {
      ErrorVarFollows(d, host.quote(infos.error));
    } else {
      DeviceNodesAdded(d, infos.value);
      AllowListAdded(WithDevices(d, infos.value), infos.value);
    }
  }

  lemma SettledStays(d: SpecData, infos: Result<seq<DevInfo>, string>, host: Host)
    requires Settled(d, infos) && (infos.Failure? ==> HasVariable(d.env, RUNTIME_ERROR))
    ensures Mounted(d, infos, host) == d
  {
    if infos.Success? {
      NothingMissing(Paths(d.devices), PathOf, infos.value);
      NothingMissing(Keyed(d.rules), NumbersOf, infos.value);
      assert d.devices + [] == d.devices && d.rules + [] == d.rules;
      assert WithDevices(d, infos.value) == d;
    }
  }

  lemma NotedFollows(d: SpecData, msg: Option<string>, host: Host)
    ensures Follows(d, Noted(d, msg, host))
    ensures msg.Some? ==> HasVariable(Noted(d, msg, host).env, RUNTIME_ERROR)
  {
    if msg.Some? {
      ErrorVarFollows(d, host.quote(msg.value));
    }
  }

  // ---------- One rewrite after another ----------

  lemma DeviceEditsTwice(cfg: Config, host: Host, ids: seq<string>, d: SpecData)
    ensures var (after, err) := DeviceEdits(cfg, host, ids, d);
            Follows(d, after) && DeviceEdits(cfg, host, ids, after) == (after, err)
  {
    var accel, uverbs := Infos(AcceleratorPaths(ids), host), Infos(UverbsPaths(ids, host), host);
    var d1 := if cfg.mountAccelerators then Mounted(d, accel, host) else d;
    var d2 := if cfg.mountUverbs then Mounted(d1, uverbs, host) else d1;
    var after := DeviceEdits(cfg, host, ids, d).0;
    MountedSettles(d, accel, host);
    MountedSettles(d1, uverbs, host);
    NotedFollows(d2, host.generate(ids), host);
    NotedFollows(Noted(d2, host.generate(ids), host), host.gaudinet, host);
    if cfg.mountAccelerators {
      SettledStays(after, accel, host);
    }
    if cfg.mountUverbs && !(cfg.mountAccelerators && accel.Failure?) {
      SettledStays(after, uverbs, host);
    }
  }

  lemma OciEditsTwice(cfg: Config, host: Host, d: SpecData)
    ensures var (after, err) := OciEdits(cfg, host, d);
            HabanaContainer(after.env) == HabanaContainer(d.env) && OciEdits(cfg, host, after) == (after, err)
  {
    var path := HookPath(cfg, host);
    if path.Some? {
      HookPathNames(cfg, host);
      CreateRuntimeHookOnce(d, path.value);
      var d1 := WithCreateRuntimeHook(d, path.value);
      var ids := Requested(d1, host);
      if ids != [] {
        DeviceEditsTwice(cfg, host, ids, d1);
        var after := DeviceEdits(cfg, host, ids, d1).0;
        assert WithCreateRuntimeHook(after, path.value) == after;
      }
    }
  }

  /**
   In every mode, on the skip path and on every error exit: with the same
   configuration and host answers, a second run leaves the spec as the first one
   saved it and ends the same way.
   */
  lemma RewriteTwice(cfg: Config, host: Host, args: seq<string>, d: SpecData)
    ensures var (after, err) := Rewritten(cfg, host, args, d);
            Rewritten(cfg, host, args, after) == (after, err)
  {
    OciEditsTwice(cfg, host, d);
    var path := HookPath(cfg, host);
    if path.Some? {
      HookPathNames(cfg, host);
      PrestartHookOnce(d, path.value);
    }
  }

  // ---------- The error variable ----------

  /** `b` is `a` with at most one error variable more, and none if there was one. */
  predicate OneErrorMore(a: seq<string>, b: seq<string>) {
    || b == a
    || (!HasVariable(a, RUNTIME_ERROR) && |b| == |a| + 1 && a <= b && HasPrefix(b[|a|], RUNTIME_ERROR + "="))
  }

  lemma OneErrorChain(a: seq<string>, d: SpecData, quoted: string)
    requires OneErrorMore(a, d.env)
    ensures OneErrorMore(a, WithErrorVar(d, quoted).env)
  {
    if d.env == a {
      assert HasPrefix(RUNTIME_ERROR + "=" + quoted, RUNTIME_ERROR + "=");
    } else {
      assert HasPrefix(d.env[|a|], RUNTIME_ERROR);
    }
  }

  lemma OneErrorMounted(a: seq<string>, d: SpecData, infos: Result<seq<DevInfo>, string>, host: Host)
    requires OneErrorMore(a, d.env)
    ensures OneErrorMore(a, Mounted(d, infos, host).env)
  {
    if infos.Failure? {
      OneErrorChain(a, d, host.quote(infos.error));
    }
  }

  lemma OneErrorNoted(a: seq<string>, d: SpecData, msg: Option<string>, host: Host)
    requires OneErrorMore(a, d.env)
    ensures OneErrorMore(a, Noted(d, msg, host).env)
  {
    if msg.Some? {
      OneErrorChain(a, d, host.quote(msg.value));
    }
  }

  lemma OneErrorDevices(a: seq<string>, cfg: Config, host: Host, ids: seq<string>, d: SpecData)
    requires OneErrorMore(a, d.env)
    ensures OneErrorMore(a, DeviceEdits(cfg, host, ids, d).0.env)
  {
    var accel, uverbs := Infos(AcceleratorPaths(ids), host), Infos(UverbsPaths(ids, host), host);
    var d1 := if cfg.mountAccelerators then Mounted(d, accel, host) else d;
    var d2 := if cfg.mountUverbs then Mounted(d1, uverbs, host) else d1;
    OneErrorMounted(a, d, accel, host);
    OneErrorMounted(a, d1, uverbs, host);
    OneErrorNoted(a, d2, host.generate(ids), host);
    OneErrorNoted(a, Noted(d2, host.generate(ids), host), host.gaudinet, host);
  }

  /** A rewrite adds at most one error variable to the environment, and nothing else. */
  lemma AtMostOneError(cfg: Config, host: Host, args: seq<string>, d: SpecData)
    ensures OneErrorMore(d.env, Rewritten(cfg, host, args, d).0.env)
  {
    var path := HookPath(cfg, host);
    if path.Some? {
      var d1 := WithCreateRuntimeHook(d, path.value);
      OneErrorDevices(d.env, cfg, host, Requested(d1, host), d1);
    }
  }

  /** Of several errors the first is kept. */
  lemma FirstErrorKept(d: SpecData, first: string, later: string)
    ensures WithErrorVar(WithErrorVar(d, first), later) == WithErrorVar(d, first)
  {
    ErrorVarPresent(d, first);
  }
}
