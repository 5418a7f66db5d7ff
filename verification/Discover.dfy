/**
 Which devices a container gets: ids taken from device names, the runtime's
 selection by environment variable and the command line tool's selection by flag.
 */
module Discover {
  import opened Decimal
  import opened OciSpec
  import opened Sequences
  import opened Strings
  import opened Wrappers

  /** The id the runtime reads off a device name: its last character. */
  function LastChar(device: string): string
    requires device != ""
  {
    [device[|device| - 1]]
  }

  predicate Named(devices: seq<string>) {
    forall i :: 0 <= i < |devices| ==> devices[i] != ""
  }

  // ---------- Which files each program looks at ----------

  const ACCEL_DIR := "/dev/accel/"

  /** The runtime: glob /dev/accel/accel* over the names in the directory. */
  function AcceleratorDevices(names: seq<string>): (devices: seq<string>)
    ensures Named(devices)
  {
    if names == [] then []
    else if HasPrefix(names[0], "accel") then [ACCEL_DIR + names[0]] + AcceleratorDevices(names[1..])
    else AcceleratorDevices(names[1..])
  }

  predicate IsDigit(c: char) { '0' <= c <= '9' }

  /** The pattern `prefix`[0-9]. */
  predicate OneDigit(prefix: string, name: string) {
    prefix <= name && |name| == |prefix| + 1 && IsDigit(name[|prefix|])
  }

  function Glob(prefix: string, names: seq<string>): (devices: seq<string>)
    ensures Named(devices)
  {
    if names == [] then []
    else if OneDigit(prefix, names[0]) then [ACCEL_DIR + names[0]] + Glob(prefix, names[1..])
    else Glob(prefix, names[1..])
  }

  /** devPrefixes of the command line tool, below /dev/accel. */
  const DEV_PREFIXES: seq<string> := ["accel", "accel_controlD"]

  /** The command line tool: one glob after the other. */
  function GlobAll(prefixes: seq<string>, names: seq<string>): (devices: seq<string>)
    ensures Named(devices)
  {
    if prefixes == [] then [] else Glob(prefixes[0], names) + GlobAll(prefixes[1..], names)
  }

  datatype DiscoverError = NoDevices

  method CharDevices(prefixes: seq<string>, names: seq<string>) returns (r: Result<seq<string>, DiscoverError>)
    ensures var devices := GlobAll(prefixes, names);
            r == if devices == [] then Failure(NoDevices) else Success(devices)
  {
    var devices: seq<string> := [];
    for i := 0 to |prefixes|
      invariant devices + GlobAll(prefixes[i..], names) == GlobAll(prefixes, names)
    {
      assert prefixes[i..][1..] == prefixes[i + 1..];
      SeqAssociative(devices, Glob(prefixes[i], names), GlobAll(prefixes[i + 1..], names));
      devices := devices + Glob(prefixes[i], names);
    }
    assert devices + [] == devices;
    if |devices| == 0 {
      return Failure(NoDevices);
    }
    return Success(devices);
  }

  /** What the command line tool has to choose from. */
  function Listed(names: seq<string>): (devices: seq<string>)
    ensures Named(devices)
  {
    GlobAll(DEV_PREFIXES, names)
  }

  /** Everything whose name starts with accel, in the order of the directory. */
  lemma {:induction false} AcceleratorAppend(names: seq<string>, name: string)
    ensures AcceleratorDevices(names + [name]) ==
            AcceleratorDevices(names) + if HasPrefix(name, "accel") then ["/dev/accel/" + name] else []
  {
    if names == [] {
      assert (names + [name])[1..] == [];
    } else {
      assert (names + [name])[1..] == names[1..] + [name];
      AcceleratorAppend(names[1..], name);
    }
  }

  lemma {:induction false} GlobAppend(prefix: string, names: seq<string>, name: string)
    ensures Glob(prefix, names + [name]) ==
            Glob(prefix, names) +
            if exists c :: '0' <= c <= '9' && name == prefix + [c] then ["/dev/accel/" + name] else []
  {
    OneDigitExists(prefix, name);
    if names == [] {
      assert (names + [name])[1..] == [];
    } else {
      assert (names + [name])[1..] == names[1..] + [name];
      GlobAppend(prefix, names[1..], name);
    }
  }

  lemma OneDigitExists(prefix: string, name: string)
    ensures OneDigit(prefix, name) <==> exists c :: '0' <= c <= '9' && name == prefix + [c]
  {
    if OneDigit(prefix, name) {
      assert name == prefix + [name[|prefix|]];
    }
  }

  // ---------- discover.DevicesIDs ----------

  /** Ids in order of first occurrence, leaving out those in `seen`. */
  function Unique(seen: set<string>, devices: seq<string>): seq<string>
    requires Named(devices)
    decreases devices
  {
    if devices == [] then []
    else
      var id := LastChar(devices[0]);
      if id in seen then Unique(seen, devices[1..]) else [id] + Unique(seen + {id}, devices[1..])
  }

  function Ids(devices: seq<string>): set<string>
    requires Named(devices)
  {
    if devices == [] then {} else {LastChar(devices[0])} + Ids(devices[1..])
  }

  predicate NoDuplicates<T(==)>(s: seq<T>) {
    forall i, j :: 0 <= i < j < |s| ==> s[i] != s[j]
  }

  method DevicesIDs(devices: seq<string>) returns (unique: seq<string>)
    requires Named(devices)
    ensures unique == Unique({}, devices)
  {
    unique := [];
    var m: set<string> := {};
    for i := 0 to |devices|
      invariant unique + Unique(m, devices[i..]) == Unique({}, devices)
    {
      assert devices[i..][1..] == devices[i + 1..];
      var devID := LastChar(devices[i]);
      if devID !in m {
        m := m + {devID};
        unique := unique + [devID];
      }
    }
  }

  /** No id is lost: only those already seen are left out. */
  lemma {:induction false} UniqueMember(seen: set<string>, devices: seq<string>, id: string)
    requires Named(devices)
    ensures id in Unique(seen, devices) <==> id in Ids(devices) && id !in seen
    decreases devices
  {
    if devices != [] {
      var first := LastChar(devices[0]);
      UniqueMember(if first in seen then seen else seen + {first}, devices[1..], id);
    }
  }

  /** Each id comes once. */
  lemma {:induction false} UniqueOnce(seen: set<string>, devices: seq<string>)
    requires Named(devices)
    ensures NoDuplicates(Unique(seen, devices))
    decreases devices
  {
    if devices != [] {
      var id := LastChar(devices[0]);
      if id in seen {
        UniqueOnce(seen, devices[1..]);
      } else {
        UniqueOnce(seen + {id}, devices[1..]);
        UniqueMember(seen + {id}, devices[1..], id);
      }
    }
  }

  /** In order of first occurrence: a further device adds its id at the end, if it is new. */
  lemma {:induction false} UniqueAppend(seen: set<string>, devices: seq<string>, d: string)
    requires Named(devices) && d != ""
    ensures Named(devices + [d])
    ensures var before := Unique(seen, devices);
            Unique(seen, devices + [d]) ==
            if [d[|d| - 1]] in before || [d[|d| - 1]] in seen then before else before + [[d[|d| - 1]]]
    decreases devices
  {
    if devices == [] {
      assert (devices + [d])[1..] == [];
    } else {
      var id := LastChar(devices[0]);
      assert (devices + [d])[1..] == devices[1..] + [d];
      UniqueAppend(if id in seen then seen else seen + {id}, devices[1..], d);
    }
  }

  // ---------- The runtime: filterDevicesByENV ----------

  /** The list asked for by the first variable of that name; nothing when all devices are meant. */
  function RequestedBy(env: seq<string>): Option<seq<string>> {
    if env == [] then None
    else if HasPrefix(env[0], VISIBLE_DEVICES) then
      var cut := Cut(env[0], '=');
      if cut.None? || cut.value.1 == "all" then None else Some(Split(cut.value.1, ','))
    else RequestedBy(env[1..])
  }

  function ByLastChar(ids: seq<string>, devices: seq<string>): (r: seq<string>)
    requires Named(devices)
    ensures Named(r)
  {
    if devices == [] then []
    else if LastChar(devices[0]) in ids then [devices[0]] + ByLastChar(ids, devices[1..])
    else ByLastChar(ids, devices[1..])
  }

  function FilteredDevices(env: seq<string>, devices: seq<string>): (r: seq<string>)
    requires Named(devices)
    ensures Named(r)
  {
    if RequestedBy(env).None? then devices else ByLastChar(RequestedBy(env).value, devices)
  }

  method FilterDevicesByENV(env: seq<string>, devices: seq<string>) returns (filtered: seq<string>)
    requires Named(devices)
    ensures filtered == FilteredDevices(env, devices)
  {
    var requestedDevs: seq<string> := [];
    for i := 0 to |env|
      invariant requestedDevs == [] && RequestedBy(env) == RequestedBy(env[i..])
    {
      assert env[i..][1..] == env[i + 1..];
      if HasPrefix(env[i], VISIBLE_DEVICES) {
        var cut := Cut(env[i], '=');
        if cut.Some? {
          if cut.value.1 == "all" {
            return devices;
          } else {
            requestedDevs := Split(cut.value.1, ',');
          }
        }
        break;
      }
    }
    if |requestedDevs| == 0 {
      return devices;
    }
    filtered := [];
    for i := 0 to |devices|
      invariant filtered + ByLastChar(requestedDevs, devices[i..]) == ByLastChar(requestedDevs, devices)
    {
      assert devices[i..][1..] == devices[i + 1..];
      var devID := LastChar(devices[i]);
      if devID in requestedDevs {
        filtered := filtered + [devices[i]];
      }
    }
  }

  /** The first variable of that name. */
  predicate First(env: seq<string>, i: nat) {
    i < |env| && HasPrefix(env[i], "HABANA_VISIBLE_DEVICES") &&
    forall j :: 0 <= j < i ==> !HasPrefix(env[j], "HABANA_VISIBLE_DEVICES")
  }

  /** It reads key=values, and the key is what stands before the first '='. */
  predicate Reads(variable: string, key: string, values: string) {
    variable == key + ['='] + values && '=' !in key
  }

  lemma {:induction false} FirstRequests(env: seq<string>, i: nat)
    requires First(env, i)
    ensures RequestedBy(env) ==
            var cut := Cut(env[i], '=');
            if cut.None? || cut.value.1 == "all" then None else Some(Split(cut.value.1, ','))
  {
    if i > 0 {
      assert forall j :: 0 <= j < |env[1..]| ==> env[1..][j] == env[j + 1];
      FirstRequests(env[1..], i - 1);
    }
  }

  lemma {:induction false} NoneRequests(env: seq<string>)
    requires forall i :: 0 <= i < |env| ==> !HasPrefix(env[i], "HABANA_VISIBLE_DEVICES")
    ensures RequestedBy(env).None?
  {
    if env != [] {
      NoneRequests(env[1..]);
    }
  }

  /** Without the variable, without a value, or asked for "all": all devices. */
  lemma AllDevices(env: seq<string>, devices: seq<string>)
    requires Named(devices)
    requires || (forall i :: 0 <= i < |env| ==> !HasPrefix(env[i], "HABANA_VISIBLE_DEVICES"))
             || (exists i: nat :: First(env, i) && '=' !in env[i])
             || (exists i: nat, key :: First(env, i) && Reads(env[i], key, "all"))
    ensures FilteredDevices(env, devices) == devices
  {
    if forall i :: 0 <= i < |env| ==> !HasPrefix(env[i], "HABANA_VISIBLE_DEVICES") {
      NoneRequests(env);
    } else if i: nat :| First(env, i) && '=' !in env[i] {
      FirstRequests(env, i);
      CutUndone(env[i], '=');
    } else {
      var i: nat, key :| First(env, i) && Reads(env[i], key, "all");
      FirstRequests(env, i);
      CutJoin(key, '=', "all");
    }
  }

  /** The elements of `devices` whose last character is asked for, and no others, in their order. */
  predicate Selects(ids: seq<string>, devices: seq<string>, chosen: seq<string>)
    requires Named(devices)
    decreases devices
  {
    if devices == [] then chosen == []
    else if [devices[0][|devices[0]| - 1]] in ids
    then chosen != [] && chosen[0] == devices[0] && Selects(ids, devices[1..], chosen[1..])
    else Selects(ids, devices[1..], chosen)
  }

  lemma {:induction false} ByLastCharSelects(ids: seq<string>, devices: seq<string>)
    requires Named(devices)
    ensures Selects(ids, devices, ByLastChar(ids, devices))
    decreases devices
  {
    if devices != [] {
      ByLastCharSelects(ids, devices[1..]);
    }
  }

  /** Otherwise those whose last character is among the values between commas. */
  lemma SomeDevices(env: seq<string>, i: nat, key: string, values: string, devices: seq<string>)
    requires Named(devices) && First(env, i) && Reads(env[i], key, values) && values != "all"
    ensures Selects(Split(values, ','), devices, FilteredDevices(env, devices))
  {
    FirstRequests(env, i);
    CutJoin(key, '=', values);
    ByLastCharSelects(Split(values, ','), devices);
  }

  // ---------- The command line tool: parseDevices ----------

  function DeviceID(device: string): string {
    TrimPrefix(TrimPrefix(TrimPrefix(device, "/dev/"), "accel/accel"), "_controlD")
  }

  function Pick(id: string, devices: seq<string>): (r: seq<string>)
    ensures Named(devices) ==> Named(r)
  {
    if devices == [] then []
    else if id == DeviceID(devices[0]) then [devices[0]] + Pick(id, devices[1..])
    else Pick(id, devices[1..])
  }

  function ByRequest(ids: seq<string>, devices: seq<string>): (r: seq<string>)
    ensures Named(devices) ==> Named(r)
  {
    if ids == [] then [] else Pick(ids[0], devices) + ByRequest(ids[1..], devices)
  }

  lemma RequestStep(requested: seq<string>, i: nat, accelDevices: seq<string>, selected: seq<string>)
    requires i < |requested|
    ensures selected + ByRequest(requested[i..], accelDevices) ==
            selected + Pick(requested[i], accelDevices) + ByRequest(requested[i + 1..], accelDevices)
  {
    assert requested[i..][0] == requested[i] && requested[i..][1..] == requested[i + 1..];
    SeqAssociative(selected, Pick(requested[i], accelDevices), ByRequest(requested[i + 1..], accelDevices));
  }

  method SelectRequested(requested: seq<string>, accelDevices: seq<string>) returns (devices: seq<string>)
    ensures devices == ByRequest(requested, accelDevices)
  {
    devices := [];
    for i := 0 to |requested|
      invariant devices + ByRequest(requested[i..], accelDevices) == ByRequest(requested, accelDevices)
    {
      RequestStep(requested, i, accelDevices, devices);
      devices := AppendMatching(devices, requested[i], accelDevices);
    }
  }

  function ParsedDevices(deviceFlag: string, names: seq<string>): Result<seq<string>, DiscoverError> {
    var accelDevices := Listed(names);
    if accelDevices == [] then Failure(NoDevices)
    else Success(if deviceFlag == "all" then accelDevices else ByRequest(Split(deviceFlag, ','), accelDevices))
  }

  method ParseDevices(deviceFlag: string, names: seq<string>) returns (r: Result<seq<string>, DiscoverError>)
    ensures r == ParsedDevices(deviceFlag, names)
  {
    var accelDevices := CharDevices(DEV_PREFIXES, names);
    if accelDevices.Failure? {
      return Failure(accelDevices.error);
    }
    if deviceFlag == "all" {
      return Success(accelDevices.value);
    }
    var devices := SelectRequested(Split(deviceFlag, ','), accelDevices.value);
    return Success(devices);
  }

  /** The inner loop. */
  method AppendMatching(selected: seq<string>, id: string, accelDevices: seq<string>) returns (devices: seq<string>)
    ensures devices == selected + Pick(id, accelDevices)
  {
    devices := selected;
    for j := 0 to |accelDevices|
      invariant devices + Pick(id, accelDevices[j..]) == selected + Pick(id, accelDevices)
    {
      assert accelDevices[j..][1..] == accelDevices[j + 1..];
      if id == DeviceID(accelDevices[j]) {
        devices := devices + [accelDevices[j]];
      }
    }
  }

  // ---------- Both select the same ----------

  /** Both readings of a device name give the same id. */
  predicate SameIds(devices: seq<string>)
    requires Named(devices)
  {
    forall i :: 0 <= i < |devices| ==> DeviceID(devices[i]) == LastChar(devices[i])
  }

  lemma {:induction false} SplitByFirst(ids: seq<string>, devices: seq<string>)
    requires Named(devices) && SameIds(devices) && ids != [] && ids[0] !in ids[1..]
    ensures multiset(ByLastChar(ids, devices)) ==
            multiset(Pick(ids[0], devices)) + multiset(ByLastChar(ids[1..], devices))
  {
    if devices != [] {
      SplitByFirst(ids, devices[1..]);
      assert ids == [ids[0]] + ids[1..];
    }
  }

  lemma {:induction false} NoneByLastChar(devices: seq<string>)
    requires Named(devices)
    ensures ByLastChar([], devices) == []
  {
    if devices != [] {
      NoneByLastChar(devices[1..]);
    }
  }

  lemma {:induction false} SameSelection(ids: seq<string>, devices: seq<string>)
    requires Named(devices) && SameIds(devices) && NoDuplicates(ids)
    ensures multiset(ByLastChar(ids, devices)) == multiset(ByRequest(ids, devices))
  {
    if ids == [] {
      NoneByLastChar(devices);
    } else {
      SplitByFirst(ids, devices);
      SameSelection(ids[1..], devices);
    }
  }

  /** In the order of the request; for each id in the order of the devices. */
  lemma {:induction false} RequestOrder(a: seq<string>, b: seq<string>, id: string, devices: seq<string>,
                                        more: seq<string>, d: string)
    ensures ByRequest(a + b, devices) == ByRequest(a, devices) + ByRequest(b, devices)
    ensures ByRequest([id], devices) == Pick(id, devices)
    ensures Pick(id, devices + more) == Pick(id, devices) + Pick(id, more)
    ensures Pick(id, [d]) == if DeviceID(d) == id then [d] else []
  {
    RequestConcat(a, b, devices);
    PickConcat(id, devices, more);
    assert [id][1..] == [] && [d][1..] == [];
    assert ByRequest([id], devices) == Pick(id, devices) + ByRequest([], devices);
  }

  lemma {:induction false} RequestConcat(a: seq<string>, b: seq<string>, devices: seq<string>)
    ensures ByRequest(a + b, devices) == ByRequest(a, devices) + ByRequest(b, devices)
  {
    if a == [] {
      assert a + b == b;
    } else {
      assert (a + b)[1..] == a[1..] + b;
      RequestConcat(a[1..], b, devices);
      SeqAssociative(Pick(a[0], devices), ByRequest(a[1..], devices), ByRequest(b, devices));
    }
  }

  lemma {:induction false} PickConcat(id: string, a: seq<string>, b: seq<string>)
    ensures Pick(id, a + b) == Pick(id, a) + Pick(id, b)
  {
    if a == [] {
      assert a + b == b;
    } else {
      assert (a + b)[1..] == a[1..] + b;
      PickConcat(id, a[1..], b);
      if id == DeviceID(a[0]) {
        SeqAssociative([a[0]], Pick(id, a[1..]), Pick(id, b));
      }
    }
  }

  lemma {:induction false} InByLastChar(ids: seq<string>, devices: seq<string>, d: string)
    requires Named(devices)
    ensures d in ByLastChar(ids, devices) <==> d in devices && LastChar(d) in ids
  {
    if devices != [] {
      InByLastChar(ids, devices[1..], d);
      assert devices == [devices[0]] + devices[1..];
    }
  }

  lemma {:induction false} InPick(id: string, devices: seq<string>, d: string)
    ensures d in Pick(id, devices) <==> d in devices && DeviceID(d) == id
  {
    if devices != [] {
      InPick(id, devices[1..], d);
      assert devices == [devices[0]] + devices[1..];
    }
  }

  // ---------- The two listings ----------

  /** A name that both programs' patterns match. */
  predicate Common(name: string) { OneDigit("accel", name) || OneDigit("accel_controlD", name) }

  /** Everything the runtime lists has one of the forms the command line tool looks for. */
  predicate OnlyOneDigit(names: seq<string>) {
    forall i :: 0 <= i < |names| && HasPrefix(names[i], "accel") ==> Common(names[i])
  }

  lemma Trimmed(prefix: string, rest: string)
    ensures TrimPrefix(prefix + rest, prefix) == rest
  {
  }

  /** What is left of the path of a device called accel-something. */
  lemma IdOfAccel(x: string)
    ensures DeviceID(ACCEL_DIR + ("accel" + x)) == TrimPrefix(x, "_controlD")
  {
    assert ACCEL_DIR + ("accel" + x) == "/dev/" + ("accel/accel" + x);
    Trimmed("/dev/", "accel/accel" + x);
    Trimmed("accel/accel", x);
  }

  /** Accelerators with one-digit numbers, and their control devices, are read alike. */
  lemma OneDigitNames(digit: char)
    ensures DeviceID(ACCEL_DIR + ("accel" + [digit])) == [digit]
    ensures DeviceID(ACCEL_DIR + ("accel" + ("_controlD" + [digit]))) == [digit]
  {
    IdOfAccel([digit]);
    IdOfAccel("_controlD" + [digit]);
    Trimmed("_controlD", [digit]);
  }

  lemma OneDigitForm(prefix: string, name: string)
    requires OneDigit(prefix, name)
    ensures name == prefix + [name[|prefix|]]
    ensures LastChar(ACCEL_DIR + name) == [name[|prefix|]]
  {
  }

  lemma ControlForm(digit: char)
    ensures "accel_controlD" + [digit] == "accel" + ("_controlD" + [digit])
  {
  }

  lemma CommonReadAlike(name: string)
    requires Common(name)
    ensures DeviceID(ACCEL_DIR + name) == LastChar(ACCEL_DIR + name)
  {
    if OneDigit("accel", name) {
      OneDigitForm("accel", name);
      OneDigitNames(name[5]);
    } else {
      OneDigitForm("accel_controlD", name);
      ControlForm(name[14]);
      OneDigitNames(name[14]);
    }
  }

  lemma {:induction false} InGlob(prefix: string, names: seq<string>, d: string)
    ensures d in Glob(prefix, names) <==>
            exists i :: 0 <= i < |names| && OneDigit(prefix, names[i]) && d == ACCEL_DIR + names[i]
  {
    if names != [] {
      InGlob(prefix, names[1..], d);
      if i :| 0 <= i < |names[1..]| && OneDigit(prefix, names[1..][i]) && d == ACCEL_DIR + names[1..][i] {
        assert OneDigit(prefix, names[i + 1]) && d == ACCEL_DIR + names[i + 1];
      }
      if i :| 0 <= i < |names| && OneDigit(prefix, names[i]) && d == ACCEL_DIR + names[i] {
        if i > 0 {
          assert names[1..][i - 1] == names[i];
        }
      }
    }
  }

  lemma InListed(names: seq<string>, d: string)
    ensures d in Listed(names) <==> d in Glob("accel", names) || d in Glob("accel_controlD", names)
  {
    var a, c := Glob("accel", names), Glob("accel_controlD", names);
    assert DEV_PREFIXES[1..] == ["accel_controlD"] && DEV_PREFIXES[1..][1..] == [];
    assert GlobAll(DEV_PREFIXES[1..], names) == c + [] == c;
    assert Listed(names) == a + c;
  }

  /** The command line tool always reads ids as the runtime does, for it lists no other names. */
  lemma ListedReadAlike(names: seq<string>)
    ensures SameIds(Listed(names))
  {
    forall i | 0 <= i < |Listed(names)| ensures DeviceID(Listed(names)[i]) == LastChar(Listed(names)[i]) {
      var d := Listed(names)[i];
      InListed(names, d);
      InGlob("accel", names, d);
      InGlob("accel_controlD", names, d);
      var k :| 0 <= k < |names| && Common(names[k]) && d == ACCEL_DIR + names[k];
      CommonReadAlike(names[k]);
    }
  }

  lemma DifferentPatterns(name: string)
    ensures !(OneDigit("accel", name) && OneDigit("accel_controlD", name))
    ensures Common(name) ==> HasPrefix(name, "accel")
  {
  }

  /** Where only the common forms occur, one listing is a rearrangement of the other. */
  lemma {:induction false} SameListing(names: seq<string>)
    requires OnlyOneDigit(names)
    ensures multiset(AcceleratorDevices(names)) ==
            multiset(Glob("accel", names)) + multiset(Glob("accel_controlD", names))
  {
    if names != [] {
      DifferentPatterns(names[0]);
      SameListing(names[1..]);
    }
  }

  lemma ListedRearranged(names: seq<string>)
    requires OnlyOneDigit(names)
    ensures multiset(AcceleratorDevices(names)) == multiset(Listed(names))
  {
    var a, c := Glob("accel", names), Glob("accel_controlD", names);
    SameListing(names);
    assert DEV_PREFIXES[1..] == ["accel_controlD"] && DEV_PREFIXES[1..][1..] == [];
    assert GlobAll(DEV_PREFIXES[1..], names) == c + [] == c;
    assert Listed(names) == a + c;
  }

  /** Filtering respects rearrangement: the runtime's choice, element by element. */
  lemma {:induction false} ByLastCharCount(ids: seq<string>, devices: seq<string>, d: string)
    requires Named(devices) && d != ""
    ensures multiset(ByLastChar(ids, devices))[d] == if LastChar(d) in ids then multiset(devices)[d] else 0
  {
    if devices != [] {
      ByLastCharCount(ids, devices[1..], d);
      assert devices == [devices[0]] + devices[1..];
    }
  }

  lemma ByLastCharRearranged(ids: seq<string>, a: seq<string>, b: seq<string>)
    requires Named(a) && Named(b) && multiset(a) == multiset(b)
    ensures multiset(ByLastChar(ids, a)) == multiset(ByLastChar(ids, b))
  {
    forall d ensures multiset(ByLastChar(ids, a))[d] == multiset(ByLastChar(ids, b))[d] {
      if d != "" {
        ByLastCharCount(ids, a, d);
        ByLastCharCount(ids, b, d);
      }
    }
  }

  predicate SameChoice(ids: seq<string>, names: seq<string>) {
    multiset(ByLastChar(ids, AcceleratorDevices(names))) == multiset(ByRequest(ids, Listed(names)))
  }

  lemma ChoicesAgree(ids: seq<string>, names: seq<string>)
    requires OnlyOneDigit(names) && NoDuplicates(ids)
    ensures SameChoice(ids, names)
  {
    ListedRearranged(names);
    ByLastCharRearranged(ids, AcceleratorDevices(names), Listed(names));
    ListedReadAlike(names);
    SameSelection(ids, Listed(names));
  }

  lemma {:induction false} InAcceleratorDevices(names: seq<string>, i: nat)
    requires i < |names| && HasPrefix(names[i], "accel")
    ensures ACCEL_DIR + names[i] in AcceleratorDevices(names)
  {
    if i > 0 {
      InAcceleratorDevices(names[1..], i - 1);
    }
  }

  lemma NotListed(names: seq<string>, name: string)
    requires !Common(name)
    ensures ACCEL_DIR + name !in Listed(names)
  {
    var d := ACCEL_DIR + name;
    InListed(names, d);
    InGlob("accel", names, d);
    InGlob("accel_controlD", names, d);
    forall n: string | ACCEL_DIR + n == d ensures n == name {
      assert d[|ACCEL_DIR|..] == n && d[|ACCEL_DIR|..] == name;
    }
  }

  // ---------- Requests the command line tool accepts ----------

  predicate Signed(s: string) { s != "" && (s[0] == '+' || s[0] == '-') }

  function Unsigned(s: string): string {
    if Signed(s) then s[1..] else s
  }

  predicate AllDigits(s: string) { forall i :: 0 <= i < |s| ==> IsDigit(s[i]) }

  /** strconv.Atoi takes it: decimal digits, perhaps with a sign, in the range of a 64-bit integer. */
  predicate IsNumber(s: string) {
    && Unsigned(s) != "" && AllDigits(Unsigned(s))
    && Read(Unsigned(s)) < 0x8000_0000_0000_0000 + if s[0] == '-' then 1 else 0
  }

  /** The flag is checked before anything else happens. */
  predicate Accepted(ids: seq<string>) {
    forall i :: 0 <= i < |ids| ==> IsNumber(ids[i])
  }

  lemma OneCharNumber(c: char)
    ensures IsNumber([c]) <==> IsDigit(c)
  {
    var s := [c];
    assert s[0] == c && s[..0] == [];
    assert Read(s) == if IsDigit(c) then (c - '0') as nat else 0;
    assert AllDigits(s) <==> IsDigit(s[0]);
  }

  /** Everything the runtime lists under a number has one of the forms the command line tool looks for. */
  predicate NumbersOneDigit(names: seq<string>) {
    forall i :: 0 <= i < |names| && HasPrefix(names[i], "accel") && IsDigit(names[i][|names[i]| - 1]) ==>
      Common(names[i])
  }

  lemma {:induction false} SameCount(names: seq<string>, d: string)
    requires NumbersOneDigit(names) && d != "" && IsDigit(d[|d| - 1])
    ensures multiset(AcceleratorDevices(names))[d] ==
            multiset(Glob("accel", names))[d] + multiset(Glob("accel_controlD", names))[d]
  {
    if names != [] {
      DifferentPatterns(names[0]);
      SameCount(names[1..], d);
      assert HasPrefix(names[0], "accel") && !Common(names[0]) ==> ACCEL_DIR + names[0] != d;
    }
  }

  lemma ListedCount(names: seq<string>, d: string)
    ensures multiset(Listed(names))[d] == multiset(Glob("accel", names))[d] + multiset(Glob("accel_controlD", names))[d]
  {
    var a, c := Glob("accel", names), Glob("accel_controlD", names);
    assert DEV_PREFIXES[1..] == ["accel_controlD"] && DEV_PREFIXES[1..][1..] == [];
    assert GlobAll(DEV_PREFIXES[1..], names) == c + [] == c;
    assert Listed(names) == a + c;
  }

  lemma NumbersChosenAlike(ids: seq<string>, names: seq<string>)
    requires NumbersOneDigit(names) && NoDuplicates(ids) && Accepted(ids)
    ensures SameChoice(ids, names)
  {
    var all, listed := AcceleratorDevices(names), Listed(names);
    forall d ensures multiset(ByLastChar(ids, all))[d] == multiset(ByLastChar(ids, listed))[d] {
      if d != "" {
        ByLastCharCount(ids, all, d);
        ByLastCharCount(ids, listed, d);
        if LastChar(d) in ids {
          OneCharNumber(d[|d| - 1]);
          SameCount(names, d);
          ListedCount(names, d);
        }
      }
    }
    ListedReadAlike(names);
    SameSelection(ids, listed);
  }

  lemma LastOfPath(name: string)
    requires name != ""
    ensures LastChar(ACCEL_DIR + name) == [name[|name| - 1]]
  {
  }

  lemma OneId(digit: char)
    requires IsDigit(digit)
    ensures NoDuplicates([[digit]]) && Accepted([[digit]])
  {
    OneCharNumber(digit);
  }

  /** A name of another form is chosen by the runtime under its last character, and by the command line tool never. */
  lemma OddNameDiffers(names: seq<string>, i: nat, ids: seq<string>)
    requires i < |names| && HasPrefix(names[i], "accel") && !Common(names[i])
    requires ids == [LastChar(ACCEL_DIR + names[i])]
    ensures !SameChoice(ids, names)
  {
    var d := ACCEL_DIR + names[i];
    InAcceleratorDevices(names, i);
    InByLastChar(ids, AcceleratorDevices(names), d);
    NotListed(names, names[i]);
    InPick(ids[0], Listed(names), d);
    assert ids[1..] == [];
    assert ByRequest(ids, Listed(names)) == Pick(ids[0], Listed(names)) + ByRequest([], Listed(names));
    assert d in multiset(ByLastChar(ids, AcceleratorDevices(names)));
    assert d !in multiset(ByRequest(ids, Listed(names)));
  }

  lemma OddNameShows(names: seq<string>, i: nat, ids: seq<string>)
    requires i < |names| && HasPrefix(names[i], "accel") && !Common(names[i]) && IsDigit(names[i][|names[i]| - 1])
    requires ids == [[names[i][|names[i]| - 1]]]
    ensures NoDuplicates(ids) && Accepted(ids) && !SameChoice(ids, names)
  {
    LastOfPath(names[i]);
    OneId(names[i][|names[i]| - 1]);
    OddNameDiffers(names, i, ids);
  }

  /**
   From the same directory, the two programs choose the same devices on every request
   for different numbers, exactly when all its accel* names that end in a digit have
   one of the two one-digit forms.
   */
  lemma SelectionsAgree(names: seq<string>)
    ensures (forall ids: seq<string> :: NoDuplicates(ids) && Accepted(ids) ==> SameChoice(ids, names))
            <==> NumbersOneDigit(names)
  {
    if NumbersOneDigit(names) {
      forall ids: seq<string> | NoDuplicates(ids) && Accepted(ids) ensures SameChoice(ids, names) {
        NumbersChosenAlike(ids, names);
      }
    } else {
      var i :| 0 <= i < |names| && HasPrefix(names[i], "accel") && IsDigit(names[i][|names[i]| - 1]) &&
               !Common(names[i]);
      OddNameShows(names, i, [[names[i][|names[i]| - 1]]]);
    }
  }

  /** Accelerator 12: the runtime takes it for number 2, the command line tool does not see it. */
  lemma TwoDigitNames()
    ensures AcceleratorDevices(["accel12"]) == ["/dev/accel/accel12"] && LastChar("/dev/accel/accel12") == "2"
    ensures ByLastChar(["2"], AcceleratorDevices(["accel12"])) == ["/dev/accel/accel12"]
    ensures ParsedDevices("all", ["accel12"]) == Failure(NoDevices)
  {
    var names := ["accel12"];
    assert names[1..] == [];
    assert ACCEL_DIR + names[0] == "/dev/accel/accel12";
    assert ["/dev/accel/accel12"][1..] == [];
    assert !OneDigit("accel", names[0]) && !OneDigit("accel_controlD", names[0]);
    assert Glob("accel", names) == [] && Glob("accel_controlD", names) == [];
    assert DEV_PREFIXES[1..] == ["accel_controlD"] && DEV_PREFIXES[1..][1..] == [];
    assert Listed(names) == [];
  }

  lemma {:induction false} IdsByLastChar(ids: seq<string>, devices: seq<string>, id: string)
    requires Named(devices)
    ensures id in Ids(ByLastChar(ids, devices)) <==> id in ids && id in Ids(devices)
  {
    if devices != [] {
      IdsByLastChar(ids, devices[1..], id);
    }
  }

  lemma {:induction false} IdsPick(want: string, devices: seq<string>, id: string)
    requires Named(devices) && SameIds(devices)
    ensures id in Ids(Pick(want, devices)) <==> id == want && id in Ids(devices)
  {
    if devices != [] {
      IdsPick(want, devices[1..], id);
    }
  }

  lemma {:induction false} IdsConcat(a: seq<string>, b: seq<string>)
    requires Named(a) && Named(b)
    ensures Named(a + b) && Ids(a + b) == Ids(a) + Ids(b)
  {
    if a == [] {
      assert a + b == b;
    } else {
      IdsConcat(a[1..], b);
      assert (a + b)[1..] == a[1..] + b && (a + b)[0] == a[0];
    }
  }

  lemma {:induction false} IdsByRequest(ids: seq<string>, devices: seq<string>, id: string)
    requires Named(devices) && SameIds(devices)
    ensures id in Ids(ByRequest(ids, devices)) <==> id in ids && id in Ids(devices)
  {
    if ids != [] {
      IdsConcat(Pick(ids[0], devices), ByRequest(ids[1..], devices));
      IdsPick(ids[0], devices, id);
      IdsByRequest(ids[1..], devices, id);
    }
  }

  /** The ids of both selections: each once, and just those both requested and present in the own listing. */
  lemma SelectedIds(ids: seq<string>, names: seq<string>, id: string)
    ensures var all, listed := AcceleratorDevices(names), Listed(names);
            var a, b := Unique({}, ByLastChar(ids, all)), Unique({}, ByRequest(ids, listed));
            && NoDuplicates(a) && NoDuplicates(b)
            && (id in a <==> id in ids && id in Ids(all))
            && (id in b <==> id in ids && id in Ids(listed))
  {
    ListedReadAlike(names);
    var x, y := ByLastChar(ids, AcceleratorDevices(names)), ByRequest(ids, Listed(names));
    UniqueOnce({}, x);
    UniqueOnce({}, y);
    UniqueMember({}, x, id);
    UniqueMember({}, y, id);
    IdsByLastChar(ids, AcceleratorDevices(names), id);
    IdsByRequest(ids, Listed(names), id);
  }

  // ---------- Variable and flag ----------

  /** The command line tool fails where there is nothing to list; the runtime then chooses nothing. */
  predicate SameResult(env: seq<string>, values: string, names: seq<string>) {
    var chosen, parsed := FilteredDevices(env, AcceleratorDevices(names)), ParsedDevices(values, names);
    if parsed.Failure? then chosen == [] else multiset(chosen) == multiset(parsed.value)
  }

  /** The first variable of that name in `env` holds `values`. */
  predicate Asks(env: seq<string>, values: string) {
    exists i :: 0 <= i < |env| && env[i] == VISIBLE_DEVICES + ['='] + values &&
                forall j :: 0 <= j < i ==> !HasPrefix(env[j], VISIBLE_DEVICES)
  }

  lemma AskedFor(env: seq<string>, values: string)
    requires Asks(env, values)
    ensures RequestedBy(env) == if values == "all" then None else Some(Split(values, ','))
  {
    var i :| 0 <= i < |env| && env[i] == VISIBLE_DEVICES + ['='] + values &&
             forall j :: 0 <= j < i ==> !HasPrefix(env[j], VISIBLE_DEVICES);
    assert HasPrefix(env[i], VISIBLE_DEVICES);
    FirstRequests(env, i);
    CutJoin(VISIBLE_DEVICES, '=', values);
  }

  lemma SameTextSameDevices(env: seq<string>, values: string, names: seq<string>)
    requires OnlyOneDigit(names) && Asks(env, values) && NoDuplicates(Split(values, ','))
    ensures SameResult(env, values, names)
  {
    AskedFor(env, values);
    ListedRearranged(names);
    ChoicesAgree(Split(values, ','), names);
    if Listed(names) == [] {
      assert |AcceleratorDevices(names)| == |multiset(AcceleratorDevices(names))| == 0;
    }
  }

  /**
   The same text in the variable and in the flag makes both programs choose the same
   devices, "all" included, exactly when only the one-digit forms occur.
   */
  lemma VariableAndFlagAgree(names: seq<string>)
    ensures (forall env: seq<string>, values: string ::
               Asks(env, values) && NoDuplicates(Split(values, ',')) ==> SameResult(env, values, names))
            <==> OnlyOneDigit(names)
  {
    if OnlyOneDigit(names) {
      forall env: seq<string>, values: string | Asks(env, values) && NoDuplicates(Split(values, ','))
        ensures SameResult(env, values, names)
      {
        SameTextSameDevices(env, values, names);
      }
    } else {
      var i :| 0 <= i < |names| && HasPrefix(names[i], "accel") && !Common(names[i]);
      AllShows(names, i);
    }
  }

  lemma AllShows(names: seq<string>, i: nat)
    requires i < |names| && HasPrefix(names[i], "accel") && !Common(names[i])
    ensures var env := [VISIBLE_DEVICES + ['='] + "all"];
            Asks(env, "all") && NoDuplicates(Split("all", ',')) && !SameResult(env, "all", names)
  {
    var env := [VISIBLE_DEVICES + ['='] + "all"];
    assert env[0] == VISIBLE_DEVICES + ['='] + "all";
    AskedFor(env, "all");
    CutUndone("all", ',');
    assert Split("all", ',') == ["all"];
    InAcceleratorDevices(names, i);
    NotListed(names, names[i]);
    var d := ACCEL_DIR + names[i];
    assert d in multiset(AcceleratorDevices(names)) && d !in multiset(Listed(names));
  }
}
