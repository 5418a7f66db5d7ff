/**
 cgroup/v2.go: adding device rules by replacing the attached programs. A request
 is allowed when every attached program allows it.
 */
module CgroupV2 {
  import opened Bpf
  import opened Correctness
  import opened DeviceFilter
  import opened Linker
  import opened Rules
  import opened Sequences
  import opened Soundness
  import opened Splice
  import opened Wrappers

  /** A program attached to the cgroup; an inaccessible one (EACCES, EPERM) is skipped by the tool. */
  datatype Attached = Attached(id: nat, accessible: bool, code: Code)

  datatype V2Error =
    | CannotOpen
    | CannotFind
    | CannotRead
    | CannotBuild(why: BuildError)
    | CannotLink(reason: LinkError)
    | CannotLoad
    | CannotDetach
    | CannotAttach

  /** Answers of the kernel that the code cannot foresee, by the index of the program concerned. */
  datatype Kernel = Kernel(
    opens: bool, finds: bool,
    decodes: nat -> bool, loads: nat -> bool, detaches: nat -> bool, attaches: nat -> bool,
    uuid: nat -> string)

  function Accessible(progs: seq<Attached>): seq<Attached> {
    if progs == [] then []
    else if progs[0].accessible then [progs[0]] + Accessible(progs[1..])
    else Accessible(progs[1..])
  }

  function Skipped(progs: seq<Attached>): seq<Attached> {
    if progs == [] then []
    else if progs[0].accessible then Skipped(progs[1..])
    else [progs[0]] + Skipped(progs[1..])
  }

  /** What is left after detaching the first `k` accessible programs. */
  function Remaining(progs: seq<Attached>, k: nat): seq<Attached> {
    if progs == [] then []
    else if progs[0].accessible && k > 0 then Remaining(progs[1..], k - 1)
    else [progs[0]] + Remaining(progs[1..], k)
  }

  /** The accessible ones are those that are accessible, the skipped ones the others; both in their order. */
  lemma {:induction false} PartsAppend(progs: seq<Attached>, p: Attached)
    ensures Accessible(progs + [p]) == Accessible(progs) + if p.accessible then [p] else []
    ensures Skipped(progs + [p]) == Skipped(progs) + if p.accessible then [] else [p]
  {
    if progs == [] {
      assert (progs + [p])[1..] == [];
    } else {
      assert (progs + [p])[1..] == progs[1..] + [p];
      PartsAppend(progs[1..], p);
    }
  }

  function Without(progs: seq<Attached>, id: nat): seq<Attached> {
    if progs == [] then []
    else if progs[0].id == id then Without(progs[1..], id)
    else [progs[0]] + Without(progs[1..], id)
  }

  predicate DistinctIds(progs: seq<Attached>) {
    forall i, j :: 0 <= i < j < |progs| ==> progs[i].id != progs[j].id
  }

  predicate Absent(progs: seq<Attached>, id: nat) {
    forall i :: 0 <= i < |progs| ==> progs[i].id != id
  }

  lemma {:induction false} WithoutAbsent(progs: seq<Attached>, id: nat)
    requires Absent(progs, id)
    ensures Without(progs, id) == progs
  {
    if progs != [] {
      WithoutAbsent(progs[1..], id);
    }
  }

  lemma {:induction false} NoneDetached(progs: seq<Attached>)
    ensures Remaining(progs, 0) == progs
  {
    if progs != [] {
      NoneDetached(progs[1..]);
    }
  }

  lemma {:induction false} DetachNext(progs: seq<Attached>, k: nat)
    requires DistinctIds(progs) && k < |Accessible(progs)|
    ensures Without(Remaining(progs, k), Accessible(progs)[k].id) == Remaining(progs, k + 1)
  {
    var rest := progs[1..];
    if progs[0].accessible && k == 0 {
      NoneDetached(rest);
      NoneDetached(progs);
      WithoutAbsent(rest, progs[0].id);
    } else if progs[0].accessible {
      DetachNext(rest, k - 1);
    } else {
      DetachNext(rest, k);
      AccessibleAmong(rest, k);
    }
  }

  lemma {:induction false} AccessibleAmong(progs: seq<Attached>, k: nat)
    requires k < |Accessible(progs)|
    ensures exists i :: 0 <= i < |progs| && progs[i] == Accessible(progs)[k]
  {
    if progs[0].accessible && k == 0 {
      assert progs[0] == Accessible(progs)[k];
    } else {
      var k' := if progs[0].accessible then k - 1 else k;
      AccessibleAmong(progs[1..], k');
      var i :| 0 <= i < |progs[1..]| && progs[1..][i] == Accessible(progs[1..])[k'];
      assert progs[i + 1] == Accessible(progs)[k];
    }
  }

  /** The kernel gives out every id once, and loads no empty program. */
  predicate Sound(progs: seq<Attached>, next: nat) {
    DistinctIds(progs) && forall i :: 0 <= i < |progs| ==> progs[i].id < next && progs[i].code != []
  }

  lemma {:induction false} RemainingAmong(progs: seq<Attached>, k: nat, i: nat)
    requires i < |Remaining(progs, k)|
    ensures exists j :: 0 <= j < |progs| && progs[j] == Remaining(progs, k)[i]
  {
    var gone := progs[0].accessible && k > 0;
    if !gone && i == 0 {
      assert progs[0] == Remaining(progs, k)[0];
    } else {
      var k', i' := if gone then k - 1 else k, if gone then i else i - 1;
      RemainingAmong(progs[1..], k', i');
      var j :| 0 <= j < |progs[1..]| && progs[1..][j] == Remaining(progs[1..], k')[i'];
      assert progs[j + 1] == Remaining(progs, k)[i];
    }
  }

  lemma {:induction false} RemainingSound(progs: seq<Attached>, k: nat, next: nat)
    requires Sound(progs, next)
    ensures Sound(Remaining(progs, k), next)
  {
    if progs != [] {
      var rest := progs[1..];
      if progs[0].accessible && k > 0 {
        RemainingSound(rest, k - 1, next);
      } else {
        RemainingSound(rest, k, next);
        forall i | 0 <= i < |Remaining(rest, k)| ensures Remaining(rest, k)[i].id != progs[0].id {
          RemainingAmong(rest, k, i);
        }
      }
    }
  }

  lemma {:induction false} AllDetached(progs: seq<Attached>)
    ensures Remaining(progs, |Accessible(progs)|) == Skipped(progs)
  {
    if progs != [] {
      AllDetached(progs[1..]);
    }
  }

  /** On the way, the skipped programs are all there, and of the others a suffix. */
  lemma {:induction false} RemainingIsSkippedAndSuffix(progs: seq<Attached>, k: nat)
    requires k <= |Accessible(progs)|
    ensures Skipped(Remaining(progs, k)) == Skipped(progs)
    ensures Accessible(Remaining(progs, k)) == Accessible(progs)[k..]
  {
    if progs != [] {
      var rest := progs[1..];
      if progs[0].accessible && k > 0 {
        RemainingIsSkippedAndSuffix(rest, k - 1);
      } else {
        RemainingIsSkippedAndSuffix(rest, k);
        var r := Remaining(progs, k);
        assert r[1..] == Remaining(rest, k) && r[0] == progs[0];
        if progs[0].accessible {
          assert Accessible(rest)[0..] == Accessible(rest);
        }
      }
    }
  }

  // ---------- New programs ----------

  function Filtered(rules: seq<Rule>, orig: Code): Code {
    FilterCode(Live(rules)) + orig
  }

  /** One new program for each old one, or a single one over a bare return. */
  function NewCodes(rules: seq<Rule>, olds: seq<Attached>): (codes: seq<Code>)
    ensures |codes| == if olds == [] then 1 else |olds|
  {
    if olds == [] then [Filtered(rules, [Return])]
    else seq(|olds|, i requires 0 <= i < |olds| => Filtered(rules, olds[i].code))
  }

  lemma NewCodesNotEmpty(rules: seq<Rule>, olds: seq<Attached>)
    ensures forall j :: 0 <= j < |NewCodes(rules, olds)| ==> NewCodes(rules, olds)[j] != []
  {
  }

  lemma NewCodesGrow(rules: seq<Rule>, olds: seq<Attached>, i: nat)
    requires i < |olds|
    ensures NewCodes(rules, olds)[..i] + [Filtered(rules, olds[i].code)] == NewCodes(rules, olds)[..i + 1]
  {
    TakeNext(NewCodes(rules, olds), i);
    assert NewCodes(rules, olds)[i] == Filtered(rules, olds[i].code);
  }

  /** The first `i` new programs are made. */
  predicate Generated(rules: seq<Rule>, olds: seq<Attached>, kernel: Kernel, i: nat, codes: seq<Code>)
    requires i <= |olds| && olds != []
  {
    && codes == NewCodes(rules, olds)[..i] && (i > 0 ==> BuildFailure(rules).None?)
    && forall k :: 0 <= k < i ==> kernel.decodes(k) && kernel.loads(k)
  }

  lemma GeneratedNext(rules: seq<Rule>, olds: seq<Attached>, kernel: Kernel, i: nat, codes: seq<Code>, code: Code)
    requires i < |olds| && Generated(rules, olds, kernel, i, codes) && code == Filtered(rules, olds[i].code)
    requires BuildFailure(rules).None? && kernel.decodes(i) && kernel.loads(i)
    ensures Generated(rules, olds, kernel, i + 1, codes + [code])
  {
    NewCodesGrow(rules, olds, i);
  }

  lemma NewCodesComplete(rules: seq<Rule>, olds: seq<Attached>)
    requires olds != []
    ensures NewCodes(rules, olds)[..|olds|] == NewCodes(rules, olds)
  {
  }

  method GenerateNewProgram(rules: seq<Rule>, oldInsts: seq<Insn>, kernel: Kernel, i: nat)
    returns (r: Result<Code, V2Error>)
    ensures BuildFailure(rules).Some? ==> r == Failure(CannotBuild(BuildFailure(rules).value))
    ensures r.Success? <==> BuildFailure(rules).None? && oldInsts != [] && kernel.loads(i) &&
                            Resolve(Linked(Live(rules), oldInsts, kernel.uuid(i))).Success?
    ensures r.Success? ==> r.value == Resolve(Linked(Live(rules), oldInsts, kernel.uuid(i))).value
    ensures BuildFailure(rules).None? && oldInsts == [] ==> r == Failure(CannotBuild(IndexOutOfRange))
    ensures BuildFailure(rules).None? && oldInsts != [] ==>
              match Resolve(Linked(Live(rules), oldInsts, kernel.uuid(i)))
              case Failure(e) => r == Failure(CannotLink(e))
              case Success(_) => !kernel.loads(i) ==> r == Failure(CannotLoad)
  {
    var newInsts := PrependDeviceFilter(rules, oldInsts, kernel.uuid(i));
    if newInsts.Failure? {
      return Failure(CannotBuild(newInsts.error));
    }
    var code := Resolve(newInsts.value);
    if code.Failure? {
      return Failure(CannotLink(code.error));
    }
    if !kernel.loads(i) {
      return Failure(CannotLoad);
    }
    return Success(code.value);
  }

  /** Of a program read back from the kernel, the new program is the filter and the old code. */
  lemma GeneratedCode(rules: seq<Rule>, code: Code, prefix: string)
    requires code != []
    ensures Resolve(Linked(Live(rules), Decoded(code), prefix)) == Success(Filtered(rules, code))
  {
    ReadBack(code, prefix);
    LinkResolves(Live(rules), Decoded(code), prefix);
  }

  /** Why no new program can be made of a loaded one: the rules, or else the kernel. */
  function Unmade(rules: seq<Rule>): V2Error {
    if BuildFailure(rules).Some? then CannotBuild(BuildFailure(rules).value) else CannotLoad
  }

  /** generateNewProgram on the instructions of loaded code. */
  method GenerateFrom(rules: seq<Rule>, oldCode: Code, kernel: Kernel, i: nat) returns (r: Result<Code, V2Error>)
    requires oldCode != []
    ensures r.Success? <==> BuildFailure(rules).None? && kernel.loads(i)
    ensures r.Success? ==> r.value == Filtered(rules, oldCode)
    ensures r.Failure? ==> r.error == Unmade(rules)
  {
    GeneratedCode(rules, oldCode, kernel.uuid(i));
    r := GenerateNewProgram(rules, Decoded(oldCode), kernel, i);
  }

  /** With nothing attached, a single program over a bare return. */
  method GenerateFresh(rules: seq<Rule>, kernel: Kernel) returns (newProgs: seq<Code>, failure: Option<V2Error>)
    ensures failure.None? <==> BuildFailure(rules).None? && kernel.loads(0)
    ensures failure.None? ==> newProgs == [Filtered(rules, [Return])]
    ensures failure.Some? ==> failure.value == Unmade(rules)
  {
    var newProg := GenerateFrom(rules, [Return], kernel, 0);
    if newProg.Failure? {
      return [], Some(newProg.error);
    }
    return [newProg.value], None;
  }

  /** The first old program that cannot be read, or made into a new one, decides what is reported. */
  predicate GenerationError(rules: seq<Rule>, olds: seq<Attached>, kernel: Kernel, error: V2Error) {
    if olds == [] then error == Unmade(rules)
    else
      exists i :: 0 <= i < |olds| && (forall k :: 0 <= k < i ==> kernel.decodes(k) && kernel.loads(k)) &&
                  !(kernel.decodes(i) && kernel.loads(i) && BuildFailure(rules).None?) &&
                  error == if kernel.decodes(i) then Unmade(rules) else CannotRead
  }

  /** The generating half of AddDeviceRules: no kernel state is touched. */
  method GenerateAll(rules: seq<Rule>, oldProgs: seq<Attached>, kernel: Kernel)
    returns (newProgs: seq<Code>, failure: Option<V2Error>)
    requires kernel.opens && kernel.finds
    requires forall i :: 0 <= i < |oldProgs| ==> oldProgs[i].code != []
    ensures failure.None? <==> GenerationOk(rules, oldProgs, kernel)
    ensures failure.None? ==> newProgs == NewCodes(rules, oldProgs)
    ensures failure.Some? ==> GenerationError(rules, oldProgs, kernel, failure.value)
  {
    newProgs := [];
    if |oldProgs| == 0 {
      newProgs, failure := GenerateFresh(rules, kernel);
      return;
    }
    for i := 0 to |oldProgs|
      invariant Generated(rules, oldProgs, kernel, i, newProgs)
    {
      if !kernel.decodes(i) {
        return newProgs, Some(CannotRead);
      }
      var newProg := GenerateFrom(rules, oldProgs[i].code, kernel, i);
      if newProg.Failure? {
        return newProgs, Some(newProg.error);
      }
      GeneratedNext(rules, oldProgs, kernel, i, newProgs, newProg.value);
      newProgs := newProgs + [newProg.value];
    }
    NewCodesComplete(rules, oldProgs);
    return newProgs, None;
  }

  function Renumbered(codes: seq<Code>, id: nat): seq<Attached> {
    seq(|codes|, i requires 0 <= i < |codes| => Attached(id + i, true, codes[i]))
  }

  /** Everything that precedes the first detach works out. */
  predicate GenerationOk(rules: seq<Rule>, olds: seq<Attached>, kernel: Kernel) {
    && kernel.opens && kernel.finds && BuildFailure(rules).None?
    && (olds == [] ==> kernel.loads(0))
    && forall i :: 0 <= i < |olds| ==> kernel.decodes(i) && kernel.loads(i)
  }

  /** The sets of attached programs a replacement goes through, one after each kernel call. */
  function Passage(progs: seq<Attached>, news: seq<Attached>): (t: seq<seq<Attached>>)
    ensures |t| == |Accessible(progs)| + |news|
  {
    var n := |Accessible(progs)|;
    seq(n + |news|, k requires 0 <= k < n + |news| =>
      if k < n then Remaining(progs, k + 1) else Skipped(progs) + news[..k - n + 1])
  }

  /** The passage of a whole replacement, new programs numbered from `id`. */
  function FullPassage(progs: seq<Attached>, rules: seq<Rule>, id: nat): seq<seq<Attached>> {
    Passage(progs, Renumbered(NewCodes(rules, Accessible(progs)), id))
  }

  lemma PassageHalves(progs: seq<Attached>, news: seq<Attached>)
    ensures var n, t := |Accessible(progs)|, Passage(progs, news);
            && |t[n..]| == |news|
            && (forall i :: 0 <= i < n ==> t[i] == Remaining(progs, i + 1))
            && (forall j :: 0 <= j < |news| ==> t[n..][j] == Skipped(progs) + news[..j + 1])
  {
  }

  /** Kernel call `k` of a replacement of `n` programs. */
  predicate CallOk(kernel: Kernel, n: nat, k: nat) {
    if k < n then kernel.detaches(k) else kernel.attaches(k - n)
  }

  /** Of `total` kernel calls, just those before the first refusal go through; none, if the programs cannot be made. */
  predicate UpToRefusal(rules: seq<Rule>, olds: seq<Attached>, kernel: Kernel, total: nat, steps: nat) {
    && steps <= total
    && (!GenerationOk(rules, olds, kernel) ==> steps == 0)
    && (forall k :: 0 <= k < steps ==> CallOk(kernel, |olds|, k))
    && (GenerationOk(rules, olds, kernel) && steps < total ==> !CallOk(kernel, |olds|, steps))
  }

  /** The next free id when `steps` calls of a replacement of `n` programs have gone through. */
  function IdAfter(id: nat, n: nat, steps: nat): nat {
    if steps <= n then id else id + (steps - n)
  }

  lemma SucceedsExactly(rules: seq<Rule>, olds: seq<Attached>, kernel: Kernel, total: nat, steps: nat)
    requires UpToRefusal(rules, olds, kernel, total, steps)
    requires total == |olds| + if olds == [] then 1 else |olds|
    ensures steps == total <==>
            && kernel.opens && kernel.finds && BuildFailure(rules).None?
            && (forall i :: 0 <= i < |olds| ==> kernel.decodes(i) && kernel.detaches(i))
            && (forall i :: 0 <= i < |olds| || i == 0 ==> kernel.loads(i) && kernel.attaches(i))
  {
    var n := |olds|;
    if steps == total {
      forall i | 0 <= i < n ensures kernel.detaches(i) {
        assert CallOk(kernel, n, i);
      }
      forall i | 0 <= i < n || i == 0 ensures kernel.attaches(i) {
        assert CallOk(kernel, n, n + i);
      }
    }
  }

  /** What is reported when a replacement has come `steps` calls far. */
  predicate ErrorIs(rules: seq<Rule>, olds: seq<Attached>, kernel: Kernel, steps: nat, error: V2Error) {
    if !kernel.opens then error == CannotOpen
    else if !kernel.finds then error == CannotFind
    else if !GenerationOk(rules, olds, kernel) then GenerationError(rules, olds, kernel, error)
    else error == if steps < |olds| then CannotDetach else CannotAttach
  }

  lemma AppendPassage(history: seq<seq<Attached>>, t: seq<seq<Attached>>, k: nat)
    requires k < |t|
    ensures history + t[..k] + [t[k]] == history + t[..k + 1]
  {
    assert t[..k] + [t[k]] == t[..k + 1];
  }

  lemma JoinPassage(history: seq<seq<Attached>>, t: seq<seq<Attached>>, n: nat, a: nat)
    requires n + a <= |t|
    ensures history + t[..n] + t[n..][..a] == history + t[..n + a]
  {
    assert t[..n] + t[n..][..a] == t[..n + a];
  }

  /** The attached programs of one cgroup, with a record of every set of them there has been. */
  class DeviceCgroup {
    var attached: seq<Attached>
    var nextId: nat
    ghost var history: seq<seq<Attached>>

    ghost predicate Valid()
      reads this
    {
      && Sound(attached, nextId)
      && history != [] && history[|history| - 1] == attached
    }

    constructor (progs: seq<Attached>, next: nat)
      requires Sound(progs, next)
      ensures Valid() && attached == progs && history == [progs]
    {
      attached, nextId, history := progs, next, [progs];
    }

    /** FindAttachedCgroupDeviceFilters: skips what it may not touch. */
    method FindAttached() returns (programs: seq<Attached>)
      ensures programs == Accessible(attached)
    {
      programs := [];
      for i := 0 to |attached|
        invariant programs + Accessible(attached[i..]) == Accessible(attached)
      {
        assert attached[i..][1..] == attached[i + 1..];
        if !attached[i].accessible {
          continue;
        }
        programs := programs + [attached[i]];
      }
    }

    method Detach(prog: Attached)
      modifies this
      ensures attached == Without(old(attached), prog.id) && nextId == old(nextId)
      ensures history == old(history) + [attached]
    {
      var left := [];
      for i := 0 to |attached|
        invariant left + Without(attached[i..], prog.id) == Without(attached, prog.id)
      {
        assert attached[i..][1..] == attached[i + 1..];
        if attached[i].id != prog.id {
          left := left + [attached[i]];
        }
      }
      attached := left;
      history := history + [attached];
    }

    method Attach(code: Code)
      modifies this
      ensures attached == old(attached) + [Attached(old(nextId), true, code)] && nextId == old(nextId) + 1
      ensures history == old(history) + [attached]
    {
      attached := attached + [Attached(nextId, true, code)];
      nextId := nextId + 1;
      history := history + [attached];
    }

    /**
     AddDeviceRules. Nothing changes until every new program is there; then the old
     ones go one by one and the new ones come one by one, up to the first refusal.
     */
    method AddDeviceRules(rules: seq<Rule>, kernel: Kernel) returns (err: Option<V2Error>, ghost steps: nat)
      requires Valid()
      modifies this
      ensures Valid()
      ensures var olds := Accessible(old(attached));
              var passage := FullPassage(old(attached), rules, old(nextId));
              && UpToRefusal(rules, olds, kernel, |passage|, steps)
              && history == old(history) + passage[..steps]
              && (err.None? <==> steps == |passage|)
              && nextId == IdAfter(old(nextId), |olds|, steps)
      ensures err.None? ==> attached == Replaced(old(attached), rules, old(nextId))
      ensures err.Some? ==> ErrorIs(rules, Accessible(old(attached)), kernel, steps, err.value)
      ensures var n := |Accessible(old(attached))|;
              err.None? <==>
              && kernel.opens && kernel.finds && BuildFailure(rules).None?
              && (forall i :: 0 <= i < n ==> kernel.decodes(i) && kernel.detaches(i))
              && (forall i :: 0 <= i < n || i == 0 ==> kernel.loads(i) && kernel.attaches(i))
    {
      steps := 0;
      if !kernel.opens {
        return Some(CannotOpen), 0;
      }
      if !kernel.finds {
        return Some(CannotFind), 0;
      }
      var oldProgs := FindAttached();
      forall i | 0 <= i < |oldProgs| ensures oldProgs[i].code != [] {
        AccessibleAmong(attached, i);
      }
      var newProgs, failure := GenerateAll(rules, oldProgs, kernel);
      if failure.Some? {
        return failure, 0;
      }
      NewCodesNotEmpty(rules, oldProgs);
      PassageEnds(attached, rules, nextId);
      ghost var before := attached;
      err, steps := Replace(oldProgs, newProgs, kernel);
      SucceedsExactly(rules, oldProgs, kernel, |FullPassage(before, rules, old(nextId))|, steps);
    }

    /** The replacing half of AddDeviceRules. */
    method Replace(oldProgs: seq<Attached>, newProgs: seq<Code>, kernel: Kernel)
      returns (err: Option<V2Error>, ghost steps: nat)
      requires Valid() && oldProgs == Accessible(attached)
      requires forall j :: 0 <= j < |newProgs| ==> newProgs[j] != []
      modifies this
      ensures Valid()
      ensures var passage := Passage(old(attached), Renumbered(newProgs, old(nextId)));
              && steps <= |passage| && history == old(history) + passage[..steps]
              && (err.None? <==> steps == |passage|)
              && (forall k :: 0 <= k < steps ==> CallOk(kernel, |oldProgs|, k))
              && (steps < |passage| ==> !CallOk(kernel, |oldProgs|, steps))
              && (err.Some? ==> err.value == if steps < |oldProgs| then CannotDetach else CannotAttach)
              && nextId == IdAfter(old(nextId), |oldProgs|, steps)
    {
      ghost var news := Renumbered(newProgs, nextId);
      ghost var passage := Passage(attached, news);
      ghost var start := history;
      ghost var n := |oldProgs|;
      AllDetached(attached);
      PassageHalves(attached, news);
      var detached, d := DetachAll(oldProgs, kernel, passage);
      if !detached {
        return Some(CannotDetach), d;
      }
      var complete, a := AttachAll(newProgs, kernel, news, passage[n..]);
      JoinPassage(start, passage, n, a);
      return if complete then None else Some(CannotAttach), n + a;
    }

    /** The first replacing loop. */
    method DetachAll(oldProgs: seq<Attached>, kernel: Kernel, ghost passage: seq<seq<Attached>>)
      returns (ok: bool, ghost steps: nat)
      requires Valid() && oldProgs == Accessible(attached) && |oldProgs| <= |passage|
      requires forall i :: 0 <= i < |oldProgs| ==> passage[i] == Remaining(attached, i + 1)
      modifies this
      ensures Valid() && nextId == old(nextId)
      ensures steps <= |oldProgs| && attached == Remaining(old(attached), steps)
      ensures history == old(history) + passage[..steps]
      ensures forall k :: 0 <= k < steps ==> kernel.detaches(k)
      ensures if ok then steps == |oldProgs| else steps < |oldProgs| && !kernel.detaches(steps)
    {
      ghost var before := attached;
      assert history + passage[..0] == history;
      NoneDetached(before);
      for i := 0 to |oldProgs|
        invariant attached == Remaining(before, i) && nextId == old(nextId) && Valid()
        invariant history == old(history) + passage[..i]
        invariant forall k :: 0 <= k < i ==> kernel.detaches(k)
      {
        if !kernel.detaches(i) {
          return false, i;
        }
        Detach(oldProgs[i]);
        DetachNext(before, i);
        RemainingSound(before, i + 1, nextId);
        AppendPassage(old(history), passage, i);
      }
      return true, |oldProgs|;
    }

    /** The second replacing loop. */
    method AttachAll(newProgs: seq<Code>, kernel: Kernel, ghost news: seq<Attached>, ghost passage: seq<seq<Attached>>)
      returns (ok: bool, ghost steps: nat)
      requires Valid() && |news| == |newProgs| == |passage|
      requires forall j :: 0 <= j < |newProgs| ==>
                 news[j] == Attached(nextId + j, true, newProgs[j]) && newProgs[j] != []
      requires forall j :: 0 <= j < |newProgs| ==> passage[j] == attached + news[..j + 1]
      modifies this
      ensures Valid()
      ensures steps <= |newProgs| && history == old(history) + passage[..steps] && nextId == old(nextId) + steps
      ensures forall k :: 0 <= k < steps ==> kernel.attaches(k)
      ensures if ok then steps == |newProgs| else steps < |newProgs| && !kernel.attaches(steps)
    {
      ghost var skipped, id := attached, nextId;
      assert history + passage[..0] == history;
      for j := 0 to |newProgs|
        invariant attached == skipped + news[..j] && nextId == id + j && Valid()
        invariant history == old(history) + passage[..j]
        invariant forall k :: 0 <= k < j ==> kernel.attaches(k)
      {
        if !kernel.attaches(j) {
          return false, j;
        }
        Attach(newProgs[j]);
        assert news[..j] + [news[j]] == news[..j + 1];
        assert attached == skipped + news[..j + 1];
        AppendPassage(old(history), passage, j);
      }
      return true, |newProgs|;
    }
  }

  // ---------- What replacement does to access ----------

  /** Every attached program, entered with these registers, lets the request pass. */
  predicate Allowed(progs: seq<Attached>, ctx: Context, regs: Regs) {
    forall i :: 0 <= i < |progs| ==> Allows(progs[i].code, ctx, regs)
  }

  /** The attached programs once a replacement has gone through. */
  function Replaced(progs: seq<Attached>, rules: seq<Rule>, id: nat): seq<Attached> {
    Skipped(progs) + Renumbered(NewCodes(rules, Accessible(progs)), id)
  }

  /** Completion leaves the replaced set, with as many new programs as there were old ones, but at least one. */
  lemma PassageEnds(progs: seq<Attached>, rules: seq<Rule>, id: nat)
    ensures var olds, passage := Accessible(progs), FullPassage(progs, rules, id);
            && |passage| > 0
            && passage[|passage| - 1] == Replaced(progs, rules, id)
            && |Accessible(Replaced(progs, rules, id))| == if |olds| == 0 then 1 else |olds|
  {
    var news := Renumbered(NewCodes(rules, Accessible(progs)), id);
    assert news[..|news|] == news;
    AccessibleReplaced(progs, rules, id);
  }

  /** At every moment: the skipped programs, and either a suffix of the old or a prefix of the new ones. */
  lemma PassageKeeps(progs: seq<Attached>, news: seq<Attached>, k: nat)
    requires k < |Passage(progs, news)|
    requires forall i :: 0 <= i < |news| ==> news[i].accessible
    ensures var now, n := Passage(progs, news)[k], |Accessible(progs)|;
            && Skipped(now) == Skipped(progs)
            && Accessible(now) == if k < n then Accessible(progs)[k + 1..] else news[..k - n + 1]
  {
    var n := |Accessible(progs)|;
    if k < n {
      RemainingIsSkippedAndSuffix(progs, k + 1);
    } else {
      SkippedAndNew(progs, news[..k - n + 1]);
    }
  }

  lemma SkippedAndNew(progs: seq<Attached>, news: seq<Attached>)
    requires forall i :: 0 <= i < |news| ==> news[i].accessible
    ensures Skipped(Skipped(progs) + news) == Skipped(progs)
    ensures Accessible(Skipped(progs) + news) == news
  {
    SplitConcat(Skipped(progs), news);
    SplitSkipped(progs);
    SplitAccessible(news);
  }

  lemma {:induction false} SplitConcat(a: seq<Attached>, b: seq<Attached>)
    ensures Accessible(a + b) == Accessible(a) + Accessible(b)
    ensures Skipped(a + b) == Skipped(a) + Skipped(b)
  {
    if a == [] {
      assert a + b == b;
    } else {
      SplitConcat(a[1..], b);
      ConsSplits(a[0], a[1..]);
      ConsSplits(a[0], a[1..] + b);
      SeqAssociative([a[0]], a[1..], b);
      SeqAssociative(if a[0].accessible then [a[0]] else [], Accessible(a[1..]), Accessible(b));
      SeqAssociative(if a[0].accessible then [] else [a[0]], Skipped(a[1..]), Skipped(b));
      assert [a[0]] + a[1..] == a;
    }
  }

  lemma ConsSplits(p: Attached, rest: seq<Attached>)
    ensures Accessible([p] + rest) == (if p.accessible then [p] else []) + Accessible(rest)
    ensures Skipped([p] + rest) == (if p.accessible then [] else [p]) + Skipped(rest)
  {
    assert ([p] + rest)[1..] == rest;
  }

  lemma {:induction false} SplitSkipped(progs: seq<Attached>)
    ensures Accessible(Skipped(progs)) == [] && Skipped(Skipped(progs)) == Skipped(progs)
  {
    if progs != [] {
      SplitSkipped(progs[1..]);
      assert !progs[0].accessible ==> Skipped(progs)[1..] == Skipped(progs[1..]);
    }
  }

  lemma {:induction false} SplitAccessible(progs: seq<Attached>)
    requires forall i :: 0 <= i < |progs| ==> progs[i].accessible
    ensures Accessible(progs) == progs && Skipped(progs) == []
  {
    if progs != [] {
      SplitAccessible(progs[1..]);
    }
  }

  lemma AccessibleReplaced(progs: seq<Attached>, rules: seq<Rule>, id: nat)
    ensures Accessible(Replaced(progs, rules, id)) == Renumbered(NewCodes(rules, Accessible(progs)), id)
    ensures Skipped(Replaced(progs, rules, id)) == Skipped(progs)
  {
    var news := Renumbered(NewCodes(rules, Accessible(progs)), id);
    SkippedAndNew(progs, news);
  }

  lemma {:induction false} AllowedSplits(progs: seq<Attached>, ctx: Context, regs: Regs)
    ensures Allowed(progs, ctx, regs) <==> Allowed(Skipped(progs), ctx, regs) && Allowed(Accessible(progs), ctx, regs)
  {
    if progs != [] {
      AllowedSplits(progs[1..], ctx, regs);
      AllowedCons(progs, ctx, regs);
      if progs[0].accessible {
        assert Accessible(progs)[1..] == Accessible(progs[1..]);
        AllowedCons(Accessible(progs), ctx, regs);
      } else {
        assert Skipped(progs)[1..] == Skipped(progs[1..]);
        AllowedCons(Skipped(progs), ctx, regs);
      }
    }
  }

  lemma AllowedCons(progs: seq<Attached>, ctx: Context, regs: Regs)
    requires progs != []
    ensures Allowed(progs, ctx, regs) <==> Allows(progs[0].code, ctx, regs) && Allowed(progs[1..], ctx, regs)
  {
    if Allows(progs[0].code, ctx, regs) && Allowed(progs[1..], ctx, regs) {
      forall i | 0 <= i < |progs| ensures Allows(progs[i].code, ctx, regs) {
        if i > 0 {
          assert progs[i] == progs[1..][i - 1];
        }
      }
    }
  }

  /** What the kernel's verifier demands of every attached program. */
  predicate AllDefine(progs: seq<Attached>) {
    forall i :: 0 <= i < |progs| ==> DefinesBeforeUse(progs[i].code, 0, {R1})
  }

  lemma FilteredAllows(rules: seq<Rule>, orig: Code, ctx: Context, regs: Regs)
    requires BuildFailure(rules).None? && Reliable(rules, ctx) && FaithfulTo(rules, ctx) && Entry(regs)
    requires DefinesBeforeUse(orig, 0, {R1})
    ensures Allows(Filtered(rules, orig), ctx, regs) == Decide(rules, ctx, Allows(orig, ctx, regs))
  {
    DefinesMonotone(orig, 0, {R1}, UNTOUCHED);
    FilterCorrect(rules, orig, ctx, regs);
  }

  /**
   With programs to replace, a request is allowed afterwards exactly when the skipped
   programs allow it and the last matching rule does, or, no rule matching, all the
   old programs do.
   */
  lemma ReplacementDecides(progs: seq<Attached>, rules: seq<Rule>, id: nat, ctx: Context, regs: Regs)
    requires Accessible(progs) != [] && AllDefine(Accessible(progs)) && Entry(regs)
    requires BuildFailure(rules).None? && Reliable(rules, ctx) && FaithfulTo(rules, ctx)
    ensures Allowed(Replaced(progs, rules, id), ctx, regs) <==>
            Allowed(Skipped(progs), ctx, regs) && Decide(rules, ctx, Allowed(Accessible(progs), ctx, regs))
  {
    var olds := Accessible(progs);
    var news := Renumbered(NewCodes(rules, olds), id);
    AccessibleReplaced(progs, rules, id);
    AllowedSplits(Replaced(progs, rules, id), ctx, regs);
    forall i | 0 <= i < |olds|
      ensures Allows(news[i].code, ctx, regs) == Decide(rules, ctx, Allows(olds[i].code, ctx, regs))
    {
      FilteredAllows(rules, olds[i].code, ctx, regs);
    }
    assert Allowed(news, ctx, regs) ==> Allows(news[0].code, ctx, regs);
  }

  /** With allowing rules only, nothing that was allowed is lost. */
  lemma {:induction false} NothingLost(progs: seq<Attached>, rules: seq<Rule>, id: nat, ctx: Context, regs: Regs)
    requires Accessible(progs) != [] && AllDefine(Accessible(progs)) && Entry(regs)
    requires BuildFailure(rules).None? && Reliable(rules, ctx) && FaithfulTo(rules, ctx)
    requires forall i :: 0 <= i < |rules| ==> rules[i].allow
    requires Allowed(progs, ctx, regs)
    ensures Allowed(Replaced(progs, rules, id), ctx, regs)
  {
    AllowedSplits(progs, ctx, regs);
    AllowOnly(rules, ctx, true);
    ReplacementDecides(progs, rules, id, ctx, regs);
  }

  lemma BareReturn(ctx: Context, regs: Regs)
    ensures DefinesBeforeUse([Return], 0, UNTOUCHED)
    ensures Run([Return], ctx, State(0, regs)) == Returned(regs[R0])
  {
  }

  /** With nothing to replace, a matching rule decides; without one the answer is whatever R0 held on entry. */
  lemma FreshDecides(progs: seq<Attached>, rules: seq<Rule>, id: nat, ctx: Context, regs: Regs)
    requires Accessible(progs) == [] && Entry(regs)
    requires BuildFailure(rules).None? && Reliable(rules, ctx) && FaithfulTo(rules, ctx)
    ensures Allowed(Replaced(progs, rules, id), ctx, regs) <==>
            Allowed(Skipped(progs), ctx, regs) && Decide(rules, ctx, regs[R0] == Num(1))
  {
    var news := Renumbered(NewCodes(rules, []), id);
    AccessibleReplaced(progs, rules, id);
    AllowedSplits(Replaced(progs, rules, id), ctx, regs);
    FilterCorrect(rules, [Return], ctx, regs);
    BareReturn(ctx, regs);
    assert Allowed(news, ctx, regs) <==> Allows(news[0].code, ctx, regs);
  }

  /** Replaced programs again meet the verifier's demand, so the next batch can build on them. */
  lemma ReplacedDefine(progs: seq<Attached>, rules: seq<Rule>, id: nat)
    requires Accessible(progs) != [] && AllDefine(Accessible(progs)) && BuildFailure(rules).None?
    ensures AllDefine(Accessible(Replaced(progs, rules, id)))
  {
    var olds := Accessible(progs);
    AccessibleReplaced(progs, rules, id);
    LiveValid(rules);
    forall i | 0 <= i < |olds| ensures DefinesBeforeUse(Filtered(rules, olds[i].code), 0, {R1}) {
      DefinesMonotone(olds[i].code, 0, {R1}, PREPARED);
      LinkedDefinesBeforeUse(Live(rules), olds[i].code);
    }
  }

  /** Two batches in turn decide like their concatenation. */
  lemma {:induction false} TwoBatchesDecide(progs: seq<Attached>, first: seq<Rule>, second: seq<Rule>,
                                            id: nat, id': nat, ctx: Context, regs: Regs)
    requires Accessible(progs) != [] && AllDefine(Accessible(progs)) && Entry(regs)
    requires BuildFailure(first).None? && Reliable(first, ctx) && FaithfulTo(first, ctx)
    requires BuildFailure(second).None? && Reliable(second, ctx) && FaithfulTo(second, ctx)
    ensures Allowed(Replaced(Replaced(progs, first, id), second, id'), ctx, regs) <==>
            Allowed(Skipped(progs), ctx, regs) && Decide(first + second, ctx, Allowed(Accessible(progs), ctx, regs))
  {
    var between := Replaced(progs, first, id);
    AccessibleReplaced(progs, first, id);
    ReplacedDefine(progs, first, id);
    ReplacementDecides(between, second, id', ctx, regs);
    ReplacementDecides(progs, first, id, ctx, regs);
    AllowedSplits(between, ctx, regs);
    DecideConcat(first, second, ctx, Allowed(Accessible(progs), ctx, regs));
  }
}
