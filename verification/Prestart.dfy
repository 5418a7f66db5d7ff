/**
 cmd/habana-container-cli/main.go: the legacy hook opens the devices of a
 container in two batches, accelerators and uverbs, each added as rules.
 */
module Prestart {
  import opened Bpf
  import opened CgroupV2
  import opened Correctness
  import opened DeviceFilter
  import opened Missing
  import opened OciSpec
  import opened Rules
  import opened SpecEdits
  import opened Wrappers

  datatype MountError = NoSuchDevice(path: string) | NotADevice(msg: string) | CannotMount(path: string)
  datatype HookError = MountFailed(why: MountError) | RulesFailed(reason: V2Error)

  /** Answers of host and container about device files. */
  datatype Files = Files(
    host: string -> bool, info: string -> Result<DevInfo, string>, container: string -> bool, bindMount: string -> bool)

  function MountOne(path: string, files: Files): Result<DevInfo, MountError> {
    if !files.host(path) then Failure(NoSuchDevice(path))
    else if files.info(path).Failure? then Failure(NotADevice(files.info(path).error))
    else if !files.container(path) && !files.bindMount(path) then Failure(CannotMount(path))
    else Success(files.info(path).value)
  }

  function MountAll(paths: seq<string>, files: Files): Result<seq<DevInfo>, MountError> {
    if paths == [] then Success([])
    else
      var front := MountAll(paths[..|paths| - 1], files);
      if front.Failure? then front
      else
        var last := MountOne(paths[|paths| - 1], files);
        if last.Failure? then Failure(last.error) else Success(front.value + [last.value])
  }

  lemma {:induction false} MountFails(paths: seq<string>, files: Files, i: nat)
    requires i <= |paths| && MountAll(paths[..i], files).Failure?
    ensures MountAll(paths, files) == MountAll(paths[..i], files)
    decreases |paths| - i
  {
    if i < |paths| {
      assert paths[..i + 1][..i] == paths[..i];
      MountFails(paths, files, i + 1);
    } else {
      assert paths[..i] == paths;
    }
  }

  /** It is on the host, it is a device, and it is in the container already or can be mounted there. */
  predicate CanMount(path: string, files: Files) {
    files.host(path) && files.info(path).Success? && (files.container(path) || files.bindMount(path))
  }

  predicate CanMountAll(paths: seq<string>, files: Files) {
    forall i :: 0 <= i < |paths| ==> CanMount(paths[i], files)
  }

  /** All devices are mounted exactly when each one can be; what is returned is what their own stat says, in order. */
  lemma MountsExactly(paths: seq<string>, files: Files)
    ensures MountAll(paths, files).Success? <==> CanMountAll(paths, files)
    ensures CanMountAll(paths, files) ==>
              var infos := MountAll(paths, files).value;
              |infos| == |paths| && forall i :: 0 <= i < |paths| ==> files.info(paths[i]) == Success(infos[i])
  {
    MountsAll(paths, files);
    forall i | 0 <= i < |paths| ensures CanMount(paths[i], files) <==> MountOne(paths[i], files).Success? {
    }
  }

  /** The first device that cannot be mounted is reported, with the first thing that is wrong with it. */
  lemma MountErrorIs(paths: seq<string>, files: Files, i: nat)
    requires i < |paths| && !CanMount(paths[i], files) && CanMountAll(paths[..i], files)
    ensures var r, p := MountAll(paths, files), paths[i];
            && (!files.host(p) ==> r == Failure(NoSuchDevice(p)))
            && (files.host(p) && files.info(p).Failure? ==> r == Failure(NotADevice(files.info(p).error)))
            && (files.host(p) && files.info(p).Success? ==> r == Failure(CannotMount(p)))
  {
    forall k | 0 <= k < i ensures MountOne(paths[k], files).Success? {
      assert CanMount(paths[..i][k], files);
    }
    FirstMountError(paths, files, i);
  }

  /** Each device is mounted exactly when `MountOne` says so. */
  lemma {:induction false} MountsAll(paths: seq<string>, files: Files)
    ensures MountAll(paths, files).Success? <==> forall i :: 0 <= i < |paths| ==> MountOne(paths[i], files).Success?
    ensures MountAll(paths, files).Success? ==>
              var infos := MountAll(paths, files).value;
              |infos| == |paths| && forall i :: 0 <= i < |paths| ==> MountOne(paths[i], files) == Success(infos[i])
  {
    if paths != [] {
      var n := |paths| - 1;
      MountsAll(paths[..n], files);
      assert forall i :: 0 <= i < n ==> paths[..n][i] == paths[i];
    }
  }

  /** The error is that of the first device that cannot be mounted. */
  lemma {:induction false} FirstMountError(paths: seq<string>, files: Files, i: nat)
    requires i < |paths| && MountOne(paths[i], files).Failure?
    requires forall k :: 0 <= k < i ==> MountOne(paths[k], files).Success?
    ensures MountAll(paths, files) == Failure(MountOne(paths[i], files).error)
  {
    MountsAll(paths[..i], files);
    assert paths[..i + 1][..i] == paths[..i];
    MountFails(paths, files, i + 1);
  }

  method MountDevices(devices: seq<string>, files: Files) returns (r: Result<seq<DevInfo>, MountError>)
    ensures r == MountAll(devices, files)
    ensures r.Success? <==> CanMountAll(devices, files)
    ensures r.Success? ==>
              |r.value| == |devices| && forall i :: 0 <= i < |devices| ==> files.info(devices[i]) == Success(r.value[i])
  {
    var infos: seq<DevInfo> := [];
    MountsExactly(devices, files);
    for i := 0 to |devices|
      invariant MountAll(devices[..i], files) == Success(infos)
    {
      assert devices[..i + 1][..i] == devices[..i];
      var info := MountOne(devices[i], files);
      if info.Failure? {
        MountFails(devices, files, i + 1);
        return Failure(info.error);
      }
      infos := infos + [info.value];
    }
    assert devices[..|devices|] == devices;
    return Success(infos);
  }

  /** One allowing rule with full access for each device, in order. */
  method ConvertDevInfoToDevRule(devices: seq<DevInfo>) returns (rules: seq<Rule>)
    ensures rules == AllowRules(devices)
  {
    var made := new Rule[|devices|](_ => Rule(false, "", None, None, ""));
    for i := 0 to |devices|
      invariant forall k :: 0 <= k < i ==> made[k] == AllowRule(devices[k])
    {
      made[i] := Rule(true, "c", Some(devices[i].major), Some(devices[i].minor), "rwm");
    }
    rules := made[..];
  }

  type History = seq<seq<Attached>>

  /** The infos of a batch, if it is switched on and all its devices can be mounted. */
  function Batch(on: bool, devices: seq<string>, files: Files): Option<seq<DevInfo>> {
    if on && MountAll(devices, files).Success? then Some(MountAll(devices, files).value) else None
  }

  /** The attached programs after a batch, if there is one. */
  function AfterBatch(progs: seq<Attached>, infos: Option<seq<DevInfo>>, id: nat): seq<Attached> {
    if infos.None? then progs else Replaced(progs, AllowRules(infos.value), id)
  }

  /** The sets of attached programs that a batch goes through. */
  function BatchPassage(progs: seq<Attached>, infos: Option<seq<DevInfo>>, id: nat): History {
    if infos.None? then [] else FullPassage(progs, AllowRules(infos.value), id)
  }

  /** From one record to the next, the first `steps` kernel calls of a passage have gone through. */
  predicate Progress(from: History, to: History, passage: History, steps: nat) {
    steps <= |passage| && to == from + passage[..steps]
  }

  /** A cgroup at one moment. */
  datatype Snapshot = Snapshot(attached: seq<Attached>, nextId: nat, history: History)

  ghost function Now(cgroup: DeviceCgroup): Snapshot
    reads cgroup
  {
    Snapshot(cgroup.attached, cgroup.nextId, cgroup.history)
  }

  /** Of a batch, just the kernel calls before the first refusal go through. */
  predicate BatchSteps(progs: seq<Attached>, infos: Option<seq<DevInfo>>, kernel: Kernel, total: nat, steps: nat) {
    if infos.None? then steps == 0
    else UpToRefusal(AllowRules(infos.value), Accessible(progs), kernel, total, steps)
  }

  /** What `steps` calls of a batch make of a cgroup. */
  predicate BatchRan(s: Snapshot, t: Snapshot, infos: Option<seq<DevInfo>>, kernel: Kernel, steps: nat) {
    var passage := BatchPassage(s.attached, infos, s.nextId);
    && BatchSteps(s.attached, infos, kernel, |passage|, steps)
    && Progress(s.history, t.history, passage, steps)
    && (steps == |passage| ==>
        t.attached == AfterBatch(s.attached, infos, s.nextId) && t.nextId == BatchId(s.attached, infos, s.nextId))
  }

  /** The next free id after a batch, if there is one. */
  function BatchId(progs: seq<Attached>, infos: Option<seq<DevInfo>>, id: nat): nat {
    if infos.None? then id else IdAfter(id, |Accessible(progs)|, |BatchPassage(progs, infos, id)|)
  }

  lemma {:induction false} AllowRulesBuild(infos: seq<DevInfo>)
    ensures BuildFailure(AllowRules(infos)).None?
  {
    if infos != [] {
      var n := |infos| - 1;
      assert AllowRules(infos)[..n] == AllowRules(infos[..n]);
      assert FirstUnknown("rwm").None?;
      assert Valid(AllowRule(infos[n]));
      AllowRulesBuild(infos[..n]);
    }
  }

  /** A kernel that refuses nothing. */
  ghost predicate Willing(kernel: Kernel) {
    && kernel.opens && kernel.finds
    && forall i: nat :: kernel.decodes(i) && kernel.loads(i) && kernel.detaches(i) && kernel.attaches(i)
  }

  lemma WillingBatch(s: Snapshot, t: Snapshot, infos: Option<seq<DevInfo>>, kernel: Kernel, steps: nat)
    requires BatchRan(s, t, infos, kernel, steps) && Willing(kernel)
    ensures steps == |BatchPassage(s.attached, infos, s.nextId)|
  {
    if infos.Some? {
      AllowRulesBuild(infos.value);
    }
  }

  /** `err` is what AddDeviceRules reports after that many steps. */
  ghost predicate RulesError(s: Snapshot, infos: seq<DevInfo>, kernel: Kernel, steps: nat, err: HookError) {
    err.RulesFailed? && ErrorIs(AllowRules(infos), Accessible(s.attached), kernel, steps, err.reason)
  }

  method HandleMounts(cgroup: DeviceCgroup, devices: seq<string>, files: Files, kernel: Kernel)
    returns (err: Option<HookError>, ghost steps: nat)
    requires cgroup.Valid()
    modifies cgroup
    ensures cgroup.Valid()
    ensures var batch := Batch(true, devices, files);
            && BatchRan(old(Now(cgroup)), Now(cgroup), batch, kernel, steps)
            && (err.None? <==>
                batch.Some? && steps == |BatchPassage(old(cgroup.attached), batch, old(cgroup.nextId))|)
    ensures MountAll(devices, files).Failure? ==> err == Some(MountFailed(MountAll(devices, files).error))
    ensures MountAll(devices, files).Success? && err.Some? ==>
              RulesError(old(Now(cgroup)), MountAll(devices, files).value, kernel, steps, err.value)
    ensures err.None? ==> CanMountAll(devices, files)
    ensures CanMountAll(devices, files) && Willing(kernel) ==> err.None?
  {
    ghost var start := Now(cgroup);
    var infos := MountDevices(devices, files);
    if infos.Failure? {
      return Some(MountFailed(infos.error)), 0;
    }
    var rules := ConvertDevInfoToDevRule(infos.value);
    var failure, n := cgroup.AddDeviceRules(rules, kernel);
    if Willing(kernel) {
      WillingBatch(start, Now(cgroup), Some(infos.value), kernel, n);
    }
    return if failure.None? then None else Some(RulesFailed(failure.value)), n;
  }

  /** The attached programs after both batches, as far as they are switched on. */
  function AfterHook(progs: seq<Attached>, accel: Option<seq<DevInfo>>, uverbs: Option<seq<DevInfo>>,
                     id: nat): seq<Attached> {
    AfterBatch(AfterBatch(progs, accel, id), uverbs, BatchId(progs, accel, id))
  }

  /** The sets of attached programs that the hook goes through. */
  function HookPassage(progs: seq<Attached>, accel: Option<seq<DevInfo>>, uverbs: Option<seq<DevInfo>>,
                       id: nat): History {
    BatchPassage(progs, accel, id) + BatchPassage(AfterBatch(progs, accel, id), uverbs, BatchId(progs, accel, id))
  }

  /**
   `m` calls of the first batch and `n` of the second go through, each up to its
   kernel's first refusal; the second comes only when the first is through.
   */
  predicate HookRan(s: Snapshot, t: Snapshot, accel: Option<seq<DevInfo>>, uverbs: Option<seq<DevInfo>>,
                    first: Kernel, second: Kernel, m: nat, n: nat) {
    var one, between := BatchPassage(s.attached, accel, s.nextId), AfterBatch(s.attached, accel, s.nextId);
    var two := BatchPassage(between, uverbs, BatchId(s.attached, accel, s.nextId));
    && BatchSteps(s.attached, accel, first, |one|, m)
    && (if m < |one| then n == 0 else BatchSteps(between, uverbs, second, |two|, n))
    && Progress(s.history, t.history, HookPassage(s.attached, accel, uverbs, s.nextId), m + n)
    && (m == |one| && n == |two| ==> t.attached == AfterHook(s.attached, accel, uverbs, s.nextId))
  }

  lemma FirstBatchProgress(from: History, to: History, one: History, two: History, m: nat)
    requires Progress(from, to, one, m)
    ensures Progress(from, to, one + two, m)
  {
    assert (one + two)[..m] == one[..m];
  }

  lemma SecondBatchProgress(from: History, between: History, to: History, one: History, two: History, n: nat)
    requires Progress(from, between, one, |one|) && Progress(between, to, two, n)
    ensures Progress(from, to, one + two, |one| + n)
  {
    assert one[..|one|] + two[..n] == (one + two)[..|one| + n];
  }

  lemma FirstRan(s: Snapshot, t: Snapshot, accel: Option<seq<DevInfo>>, uverbs: Option<seq<DevInfo>>,
                 first: Kernel, second: Kernel, m: nat)
    requires BatchRan(s, t, accel, first, m) && m < |BatchPassage(s.attached, accel, s.nextId)|
    ensures HookRan(s, t, accel, uverbs, first, second, m, 0)
  {
    var one, between := BatchPassage(s.attached, accel, s.nextId), AfterBatch(s.attached, accel, s.nextId);
    var two := BatchPassage(between, uverbs, BatchId(s.attached, accel, s.nextId));
    FirstBatchProgress(s.history, t.history, one, two, m);
  }

  lemma BothRan(s: Snapshot, u: Snapshot, t: Snapshot, accel: Option<seq<DevInfo>>, uverbs: Option<seq<DevInfo>>,
                first: Kernel, second: Kernel, n: nat)
    requires var m := |BatchPassage(s.attached, accel, s.nextId)|; BatchRan(s, u, accel, first, m)
    requires BatchRan(u, t, uverbs, second, n)
    ensures HookRan(s, t, accel, uverbs, first, second, |BatchPassage(s.attached, accel, s.nextId)|, n)
  {
    var one := BatchPassage(s.attached, accel, s.nextId);
    var two := BatchPassage(u.attached, uverbs, u.nextId);
    SecondBatchProgress(s.history, u.history, t.history, one, two, n);
  }

  lemma NoBatchRan(s: Snapshot, kernel: Kernel)
    ensures BatchRan(s, s, None, kernel, 0)
  {
    assert s.history + [] == s.history;
  }

  /** Every batch that is switched on can be mounted. */
  predicate Complete(accelOn: bool, accel: Option<seq<DevInfo>>, uverbsOn: bool, uverbs: Option<seq<DevInfo>>) {
    (accelOn ==> accel.Some?) && (uverbsOn ==> uverbs.Some?)
  }

  /** What is left to do of the uverbs when the accelerators cannot be mounted: nothing. */
  function Second(accelOn: bool, accel: Option<seq<DevInfo>>, uverbs: Option<seq<DevInfo>>): Option<seq<DevInfo>> {
    if accelOn && accel.None? then None else uverbs
  }

  /**
   The device part of handlePrestart under cgroup version 2. When the second batch
   fails, what the first one attached is still there.
   */
  method HandlePrestart(cgroup: DeviceCgroup, mountAccelerators: bool, mountUverbs: bool,
                        accelerators: seq<string>, uverbs: seq<string>, files: Files, first: Kernel, second: Kernel)
    returns (err: Option<HookError>, ghost m: nat, ghost n: nat)
    requires cgroup.Valid()
    modifies cgroup
    ensures cgroup.Valid()
    ensures var accel := Batch(mountAccelerators, accelerators, files);
            var uverb := Second(mountAccelerators, accel, Batch(mountUverbs, uverbs, files));
            && HookRan(old(Now(cgroup)), Now(cgroup), accel, uverb, first, second, m, n)
            && (err.None? <==>
                Complete(mountAccelerators, accel, mountUverbs, uverb) &&
                m + n == |HookPassage(old(cgroup.attached), accel, uverb, old(cgroup.nextId))|)
    ensures mountAccelerators && MountAll(accelerators, files).Failure? ==>
              err == Some(MountFailed(MountAll(accelerators, files).error))
    ensures mountUverbs && MountAll(uverbs, files).Failure? ==>
              var accel := Batch(mountAccelerators, accelerators, files);
              (mountAccelerators ==> accel.Some?) &&
              m == |BatchPassage(old(cgroup.attached), accel, old(cgroup.nextId))| ==>
                err == Some(MountFailed(MountAll(uverbs, files).error))
    ensures err.None? ==>
              (mountAccelerators ==> CanMountAll(accelerators, files)) && (mountUverbs ==> CanMountAll(uverbs, files))
    ensures (mountAccelerators ==> CanMountAll(accelerators, files) && Willing(first)) &&
            (mountUverbs ==> CanMountAll(uverbs, files) && Willing(second)) ==>
              err.None?
  {
    ghost var accel := Batch(mountAccelerators, accelerators, files);
    ghost var uverb := Second(mountAccelerators, accel, Batch(mountUverbs, uverbs, files));
    ghost var start := Now(cgroup);
    NoBatchRan(start, first);
    m, n := 0, 0;
    if mountAccelerators {
      err, m := HandleMounts(cgroup, accelerators, files, first);
      if err.Some? {
        if accel.None? {
          NoBatchRan(Now(cgroup), second);
          BothRan(start, Now(cgroup), Now(cgroup), accel, uverb, first, second, 0);
        } else {
          FirstRan(start, Now(cgroup), accel, uverb, first, second, m);
        }
        return err, m, 0;
      }
    }
    ghost var middle := Now(cgroup);
    NoBatchRan(middle, second);
    if mountUverbs {
      err, n := HandleMounts(cgroup, uverbs, files, second);
      if err.Some? {
        BothRan(start, middle, Now(cgroup), accel, uverb, first, second, n);
        return err, m, n;
      }
    }
    BothRan(start, middle, Now(cgroup), accel, uverb, first, second, n);
    return None, m, n;
  }

  /** Once the first batch is through, its programs are attached, whatever becomes of the second. */
  lemma BetweenBatches(progs: seq<Attached>, infos: seq<DevInfo>, uverbs: Option<seq<DevInfo>>, id: nat)
    ensures var n := |BatchPassage(progs, Some(infos), id)|;
            && 0 < n <= |HookPassage(progs, Some(infos), uverbs, id)|
            && HookPassage(progs, Some(infos), uverbs, id)[n - 1] == AfterBatch(progs, Some(infos), id)
  {
    PassageEnds(progs, AllowRules(infos), id);
  }

  // ---------- Who may do what afterwards ----------

  lemma AllowRulesCompile(infos: seq<DevInfo>, ctx: Context)
    requires Narrow(ctx)
    ensures BuildFailure(AllowRules(infos)).None?
    ensures Undisturbed(AllowRules(infos)) && FaithfulTo(AllowRules(infos), ctx)
  {
    AllowRulesBuild(infos);
  }

  /** A character-device request for one of these devices. */
  predicate Concerns(infos: Option<seq<DevInfo>>, ctx: Context) {
    infos.Some? && ctx.Kind() == DEV_CHAR && (ctx.major, ctx.minor) in Keys(NumbersOf, infos.value)
  }

  lemma BatchDecides(progs: seq<Attached>, infos: seq<DevInfo>, id: nat, ctx: Context, regs: Regs)
    requires Accessible(progs) != [] && AllDefine(Accessible(progs)) && Entry(regs) && Narrow(ctx)
    ensures var after := Replaced(progs, AllowRules(infos), id);
            && Skipped(after) == Skipped(progs) && Accessible(after) != [] && AllDefine(Accessible(after))
            && (Allowed(after, ctx, regs) <==>
                Allowed(Skipped(progs), ctx, regs) &&
                (Concerns(Some(infos), ctx) || Allowed(Accessible(progs), ctx, regs)))
  {
    AllowRulesCompile(infos, ctx);
    AllowRulesVerdict(infos, ctx);
    ReplacementDecides(progs, AllowRules(infos), id, ctx, regs);
    ReplacedDefine(progs, AllowRules(infos), id);
    AccessibleReplaced(progs, AllowRules(infos), id);
  }

  /**
   What the hook is for: afterwards the container may use the devices of both
   batches and whatever it could use before, and nothing else.
   */
  lemma DevicesOpened(before: seq<Attached>, accel: Option<seq<DevInfo>>, uverbs: Option<seq<DevInfo>>,
                      id: nat, ctx: Context, regs: Regs)
    requires Accessible(before) != [] && AllDefine(Accessible(before)) && Entry(regs) && Narrow(ctx)
    ensures Allowed(AfterHook(before, accel, uverbs, id), ctx, regs) <==>
            Allowed(Skipped(before), ctx, regs) &&
            (Concerns(accel, ctx) || Concerns(uverbs, ctx) || Allowed(Accessible(before), ctx, regs))
  {
    var between := AfterBatch(before, accel, id);
    AllowedSplits(before, ctx, regs);
    if accel.Some? {
      BatchDecides(before, accel.value, id, ctx, regs);
    }
    AllowedSplits(between, ctx, regs);
    if uverbs.Some? {
      BatchDecides(between, uverbs.value, BatchId(before, accel, id), ctx, regs);
    }
  }
}
