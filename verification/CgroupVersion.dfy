/**
 cgroup/cgroup.go and the DeviceCGroupRootPath methods: which hierarchy a process
 is in, and where in it. The lines are those of /proc/<pid>/cgroup.
 */
module CgroupVersion {
  import opened Strings
  import opened Wrappers

  datatype VersionError = Malformed(line: string) | NoEntry | InvalidVersion

  const DEVICES := "devices"
  const UNIFIED := ""

  /** strings.SplitN(line, ":", 3) */
  function SplitN3(line: string): (parts: seq<string>)
    ensures 1 <= |parts| <= 3
  {
    var a := Cut(line, ':');
    if a.None? then [line]
    else
      var b := Cut(a.value.1, ':');
      if b.None? then [a.value.0, a.value.1] else [a.value.0, b.value.0, b.value.1]
  }

  /** Splitting in three and joining undo each other: the path may hold further colons. */
  lemma SplitJoin(id: string, subsystem: string, path: string)
    requires ':' !in id && ':' !in subsystem
    ensures SplitN3(id + ":" + subsystem + ":" + path) == [id, subsystem, path]
  {
    var rest := subsystem + [':'] + path;
    assert id + ":" + subsystem + ":" + path == id + [':'] + rest;
    CutJoin(id, ':', rest);
    CutJoin(subsystem, ':', path);
  }

  lemma JoinSplit(line: string)
    requires |SplitN3(line)| == 3
    ensures var p := SplitN3(line);
            line == p[0] + ":" + p[1] + ":" + p[2] && ':' !in p[0] && ':' !in p[1]
  {
    CutUndone(line, ':');
    var rest := Cut(line, ':').value.1;
    CutUndone(rest, ':');
  }

  predicate WellFormed(lines: seq<string>) {
    forall i :: 0 <= i < |lines| ==> |SplitN3(lines[i])| == 3
  }

  /** Some well-formed line names the subsystem. */
  predicate Names(lines: seq<string>, subsystem: string) {
    exists i :: 0 <= i < |lines| && |SplitN3(lines[i])| == 3 && SplitN3(lines[i])[1] == subsystem
  }

  /** The first line that is not well formed is reported. */
  predicate Fails(lines: seq<string>, error: VersionError) {
    exists i :: 0 <= i < |lines| && |SplitN3(lines[i])| != 3 && WellFormed(lines[..i]) && error == Malformed(lines[i])
  }

  /**
   All lines are well formed, and one names devices; or, for version 2, none does and
   one is without a subsystem.
   */
  predicate Detects(lines: seq<string>, version: int) {
    WellFormed(lines) &&
    ((version == 1 && Names(lines, DEVICES)) || (version == 2 && !Names(lines, DEVICES) && Names(lines, UNIFIED)))
  }

  method CGroupVersion(lines: seq<string>) returns (r: Result<int, VersionError>)
    ensures forall version :: r == Success(version) <==> Detects(lines, version)
    ensures r.Failure? ==> Fails(lines, r.error) || (WellFormed(lines) && r.error == NoEntry)
  {
    var found: set<string> := {};
    for i := 0 to |lines|
      invariant WellFormed(lines[..i])
      invariant forall s :: s in found <==> Names(lines[..i], s)
    {
      var parts := SplitN3(lines[i]);
      assert lines[..i + 1] == lines[..i] + [lines[i]];
      if |parts| != 3 {
        assert |SplitN3(lines[i])| != 3;
        return Failure(Malformed(lines[i]));
      }
      NamesGrows(lines, i);
      found := found + {parts[1]};
    }
    assert lines[..|lines|] == lines;
    if DEVICES in found {
      return Success(1);
    }
    if UNIFIED in found {
      return Success(2);
    }
    return Failure(NoEntry);
  }

  lemma NamesGrows(lines: seq<string>, i: nat)
    requires i < |lines| && |SplitN3(lines[i])| == 3
    ensures forall s :: Names(lines[..i + 1], s) <==> Names(lines[..i], s) || s == SplitN3(lines[i])[1]
  {
    var now, before := lines[..i + 1], lines[..i];
    forall s ensures Names(now, s) <==> Names(before, s) || s == SplitN3(lines[i])[1] {
      if Names(now, s) {
        var k :| 0 <= k < |now| && |SplitN3(now[k])| == 3 && SplitN3(now[k])[1] == s;
        if k < i {
          assert before[k] == now[k];
        }
      }
      if Names(before, s) {
        var k :| 0 <= k < |before| && |SplitN3(before[k])| == 3 && SplitN3(before[k])[1] == s;
        assert before[k] == now[k];
      }
      assert now[i] == lines[i];
    }
  }

  /** The path of the first line for the subsystem, with the prefix of the mount taken off. */
  function RootPath(lines: seq<string>, subsystem: string, prefix: string): Result<string, VersionError> {
    if lines == [] then Failure(NoEntry)
    else
      var parts := SplitN3(lines[0]);
      if |parts| != 3 then Failure(Malformed(lines[0]))
      else if parts[1] != subsystem then RootPath(lines[1..], subsystem, prefix)
      else Success(if prefix == "/" then parts[2] else TrimPrefix(parts[2], prefix))
  }

  /** Version 1 looks for "devices", version 2 for the entry without a subsystem. */
  function SubsystemOf(version: int): Result<string, VersionError> {
    match version
    case 1 => Success(DEVICES)
    case 2 => Success(UNIFIED)
    case _ => Failure(InvalidVersion)
  }

  method DeviceCGroupRootPath(lines: seq<string>, subsystem: string, prefix: string)
    returns (r: Result<string, VersionError>)
    ensures r == RootPath(lines, subsystem, prefix)
  {
    for i := 0 to |lines|
      invariant RootPath(lines, subsystem, prefix) == RootPath(lines[i..], subsystem, prefix)
    {
      assert lines[i..][1..] == lines[i + 1..];
      var parts := SplitN3(lines[i]);
      if |parts| != 3 {
        return Failure(Malformed(lines[i]));
      }
      if parts[1] != subsystem {
        continue;
      }
      if prefix == "/" {
        return Success(parts[2]);
      }
      return Success(TrimPrefix(parts[2], prefix));
    }
    return Failure(NoEntry);
  }

  /** Line `i` is the first for the subsystem, and all lines up to it are well formed. */
  predicate IsFirst(lines: seq<string>, subsystem: string, i: int) {
    && 0 <= i < |lines|
    && (forall k :: 0 <= k <= i ==> |SplitN3(lines[k])| == 3)
    && (forall k :: 0 <= k < i ==> SplitN3(lines[k])[1] != subsystem)
    && SplitN3(lines[i])[1] == subsystem
  }

  lemma {:induction false} RootPathOfFirst(lines: seq<string>, subsystem: string, prefix: string, i: nat)
    requires IsFirst(lines, subsystem, i)
    ensures var path := SplitN3(lines[i])[2];
            RootPath(lines, subsystem, prefix) == Success(if prefix == "/" then path else TrimPrefix(path, prefix))
  {
    if i > 0 {
      RootPathOfFirst(lines[1..], subsystem, prefix, i - 1);
    }
  }

  /** Without such a line the first malformed one is reported, or that there is no entry. */
  lemma {:induction false} RootPathFails(lines: seq<string>, subsystem: string, prefix: string)
    requires forall i :: !IsFirst(lines, subsystem, i)
    ensures var r := RootPath(lines, subsystem, prefix);
            r.Failure? && if WellFormed(lines) then r.error == NoEntry else Fails(lines, r.error)
  {
    if lines != [] {
      assert !IsFirst(lines, subsystem, 0);
      if |SplitN3(lines[0])| != 3 {
        assert WellFormed(lines[..0]);
      } else {
        var rest := lines[1..];
        forall i ensures !IsFirst(rest, subsystem, i) {
          NextFirst(lines, subsystem, i);
        }
        RootPathFails(rest, subsystem, prefix);
        FailsLater(lines, RootPath(rest, subsystem, prefix).error);
      }
    }
  }

  lemma NextFirst(lines: seq<string>, subsystem: string, i: int)
    requires lines != [] && |SplitN3(lines[0])| == 3 && SplitN3(lines[0])[1] != subsystem
    ensures IsFirst(lines[1..], subsystem, i) ==> IsFirst(lines, subsystem, i + 1)
  {
    if IsFirst(lines[1..], subsystem, i) {
      assert forall k :: 0 < k < |lines| ==> lines[k] == lines[1..][k - 1];
    }
  }

  lemma FailsLater(lines: seq<string>, error: VersionError)
    requires lines != [] && |SplitN3(lines[0])| == 3
    ensures Fails(lines[1..], error) ==> Fails(lines, error)
    ensures WellFormed(lines[1..]) <==> WellFormed(lines)
  {
    var rest := lines[1..];
    assert forall k :: 0 < k < |lines| ==> lines[k] == rest[k - 1];
    if Fails(rest, error) {
      var i :| 0 <= i < |rest| && |SplitN3(rest[i])| != 3 && WellFormed(rest[..i]) && error == Malformed(rest[i]);
      var front := lines[..i + 1];
      forall k | 0 <= k < |front| ensures |SplitN3(front[k])| == 3 {
        if k > 0 {
          assert front[k] == rest[..i][k - 1];
        }
      }
      assert lines[i + 1] == rest[i];
    }
    if WellFormed(rest) {
      forall k | 0 <= k < |lines| ensures |SplitN3(lines[k])| == 3 {
        if k > 0 {
          assert lines[k] == rest[k - 1];
        }
      }
    }
    if WellFormed(lines) {
      assert forall k :: 0 <= k < |rest| ==> rest[k] == lines[k + 1];
    }
  }

  lemma {:induction false} FirstExists(lines: seq<string>, subsystem: string) returns (i: nat)
    requires WellFormed(lines) && Names(lines, subsystem)
    ensures IsFirst(lines, subsystem, i)
  {
    if SplitN3(lines[0])[1] == subsystem {
      i := 0;
    } else {
      var rest := lines[1..];
      var k :| 0 <= k < |lines| && SplitN3(lines[k])[1] == subsystem;
      assert SplitN3(rest[k - 1])[1] == subsystem;
      i := FirstExists(rest, subsystem);
      i := i + 1;
    }
  }

  /** The handler chosen for a detected version finds its path on the same lines. */
  lemma DetectedVersionHasPath(lines: seq<string>, version: int, prefix: string)
    requires Detects(lines, version)
    ensures SubsystemOf(version).Success?
    ensures exists i :: IsFirst(lines, SubsystemOf(version).value, i) &&
                        var path := SplitN3(lines[i])[2];
                        RootPath(lines, SubsystemOf(version).value, prefix) ==
                        Success(if prefix == "/" then path else TrimPrefix(path, prefix))
  {
    var subsystem := SubsystemOf(version).value;
    var i := FirstExists(lines, subsystem);
    RootPathOfFirst(lines, subsystem, prefix, i);
  }
}
