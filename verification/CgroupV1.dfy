/**
 cgroup/v1.go: the same rules written one by one, front to back, to the control
 files of a version 1 hierarchy, and what a sequence of such writes amounts to.
 */
module CgroupV1 {
  import opened Decimal
  import opened Rules
  import opened Strings
  import opened Wrappers

  /** devices.allow and devices.deny in the directory of the cgroup. */
  datatype ControlFile = DevicesAllow | DevicesDeny
  datatype Write = Write(cgroupPath: string, file: ControlFile, line: string)
  datatype V1Error = NoMajor | NoMinor | CannotOpen | CannotWrite

  /** Which of the coming file operations succeed, by the index of the rule. */
  datatype Files = Files(opens: nat -> bool, writes: nat -> bool)

  /** "%s %d:%d %s" */
  function Line(kind: string, major: int, minor: int, access: string): string {
    kind + " " + Format(major) + ":" + Format(minor) + " " + access
  }

  function WriteOf(rule: Rule, cgroupPath: string): Write
    requires rule.major.Some? && rule.minor.Some?
  {
    Write(cgroupPath, if rule.allow then DevicesAllow else DevicesDeny,
          Line(rule.kind, rule.major.value, rule.minor.value, rule.access))
  }

  /** The first `n` rules have both numbers. */
  predicate NumberedUpTo(rules: seq<Rule>, n: nat)
    requires n <= |rules|
  {
    forall i :: 0 <= i < n ==> rules[i].major.Some? && rules[i].minor.Some?
  }

  predicate Numbered(rules: seq<Rule>) { NumberedUpTo(rules, |rules|) }

  /** The writes for the first `n` rules, in order. */
  function WritesUpTo(rules: seq<Rule>, cgroupPath: string, n: nat): (log: seq<Write>)
    requires n <= |rules| && NumberedUpTo(rules, n)
    ensures |log| == n
  {
    if n == 0 then []
    else WritesUpTo(rules, cgroupPath, n - 1) + [WriteOf(rules[n - 1], cgroupPath)]
  }

  /** `log` holds just the writes for the first |log| rules. */
  predicate Records(log: seq<Write>, rules: seq<Rule>, cgroupPath: string) {
    |log| <= |rules| && NumberedUpTo(rules, |log|) && log == WritesUpTo(rules, cgroupPath, |log|)
  }

  /** Write `i` goes to the file for the verdict of rule `i`, in this cgroup, and says what the rule says. */
  predicate SaysRules(log: seq<Write>, rules: seq<Rule>, cgroupPath: string) {
    |log| <= |rules| && forall i :: 0 <= i < |log| ==> SaysRule(log[i], rules[i], cgroupPath)
  }

  predicate SaysRule(write: Write, rule: Rule, cgroupPath: string) {
    && write.cgroupPath == cgroupPath
    && write.file == (if rule.allow then DevicesAllow else DevicesDeny)
    && rule.major.Some? && rule.minor.Some?
    && (' ' !in rule.kind ==>
        ReadLine(write.line) == Some(Entry(rule.kind, rule.major.value, rule.minor.value, rule.access)))
  }

  lemma WriteSaysRule(rule: Rule, cgroupPath: string)
    requires rule.major.Some? && rule.minor.Some?
    ensures SaysRule(WriteOf(rule, cgroupPath), rule, cgroupPath)
  {
    if ' ' !in rule.kind {
      LineReadsBack(rule.kind, rule.major.value, rule.minor.value, rule.access);
    }
  }

  lemma {:induction false} RecordsSayRules(log: seq<Write>, rules: seq<Rule>, cgroupPath: string)
    requires Records(log, rules, cgroupPath)
    ensures SaysRules(log, rules, cgroupPath)
  {
    if log != [] {
      var n := |log| - 1;
      assert Records(log[..n], rules, cgroupPath);
      RecordsSayRules(log[..n], rules, cgroupPath);
      WriteSaysRule(rules[n], cgroupPath);
      assert forall i :: 0 <= i < n ==> log[i] == log[..n][i];
    }
  }

  class ControlFiles {
    var log: seq<Write>

    constructor ()
      ensures log == []
    {
      log := [];
    }

    method AddDeviceRule(cgroupPath: string, rule: Rule, files: Files, i: nat) returns (err: Option<V1Error>)
      modifies this
      ensures err.None? <==> rule.major.Some? && rule.minor.Some? && files.opens(i) && files.writes(i)
      ensures rule.major.None? ==> err == Some(NoMajor)
      ensures rule.major.Some? && rule.minor.None? ==> err == Some(NoMinor)
      ensures rule.major.Some? && rule.minor.Some? && err.Some? ==>
                err == Some(if files.opens(i) then CannotWrite else CannotOpen)
      ensures log == if err.None? then old(log) + [WriteOf(rule, cgroupPath)] else old(log)
    {
      if rule.major.None? {
        return Some(NoMajor);
      }
      if rule.minor.None? {
        return Some(NoMinor);
      }
      var file := if rule.allow then DevicesAllow else DevicesDeny;
      if !files.opens(i) {
        return Some(CannotOpen);
      }
      if !files.writes(i) {
        return Some(CannotWrite);
      }
      log := log + [Write(cgroupPath, file, Line(rule.kind, rule.major.value, rule.minor.value, rule.access))];
      return None;
    }

    /** Stops at the first failure; the rules before it have been written, to this cgroup's files alone. */
    method AddDeviceRules(cgroupPath: string, rules: seq<Rule>, files: Files)
      returns (err: Option<V1Error>, ghost written: seq<Write>)
      modifies this
      ensures log == old(log) + written && Records(written, rules, cgroupPath)
      ensures SaysRules(written, rules, cgroupPath)
      ensures err.None? <==> |written| == |rules|
      ensures var n := |written|;
              n < |rules| ==> !(rules[n].major.Some? && rules[n].minor.Some? && files.opens(n) && files.writes(n))
    {
      written := [];
      for i := 0 to |rules|
        invariant |written| == i && log == old(log) + written && Records(written, rules, cgroupPath)
      {
        err := AddDeviceRule(cgroupPath, rules[i], files, i);
        if err.Some? {
          RecordsSayRules(written, rules, cgroupPath);
          return err, written;
        }
        written := written + [WriteOf(rules[i], cgroupPath)];
      }
      RecordsSayRules(written, rules, cgroupPath);
      return None, written;
    }
  }

  // ---------- What a line says ----------

  datatype Entry = Entry(kind: string, major: int, minor: int, access: string)

  function EntryOf(rule: Rule): Entry
    requires rule.major.Some? && rule.minor.Some?
  {
    Entry(rule.kind, rule.major.value, rule.minor.value, rule.access)
  }

  /** Reads a line back: up to a space, up to a colon, up to a space, the rest. */
  function ReadLine(line: string): Option<Entry> {
    var a := Cut(line, ' ');
    if a.None? then None
    else
      var b := Cut(a.value.1, ':');
      if b.None? then None
      else
        var c := Cut(b.value.1, ' ');
        if c.None? then None
        else Some(Entry(a.value.0, ReadInt(b.value.0), ReadInt(c.value.0), c.value.1))
  }

  lemma FormatIsNoSeparator(n: int)
    ensures ' ' !in Format(n) && ':' !in Format(n)
  {
    FormatDigits(n);
  }

  /** No rule is garbled on the way: the line determines kind, numbers and access. */
  lemma LineReadsBack(kind: string, major: int, minor: int, access: string)
    requires ' ' !in kind
    ensures ReadLine(Line(kind, major, minor, access)) == Some(Entry(kind, major, minor, access))
  {
    var m, n := Format(major), Format(minor);
    FormatIsNoSeparator(major);
    FormatIsNoSeparator(minor);
    var last := n + [' '] + access;
    var middle := m + [':'] + last;
    LineParts(kind, m, n, access);
    CutJoin(kind, ' ', middle);
    CutJoin(m, ':', last);
    CutJoin(n, ' ', access);
    ReadFormat(major);
    ReadFormat(minor);
  }

  lemma LineExample()
    ensures Line("c", 507, 3, "rwm") == "c 507:3 rwm"
  {
    assert Digits(5) == "5" && Digits(50) == Digits(5) + "0" && Digits(507) == Digits(50) + "7";
    assert Digits(3) == "3";
  }

  lemma LineParts(kind: string, m: string, n: string, access: string)
    ensures kind + " " + m + ":" + n + " " + access == kind + [' '] + (m + [':'] + (n + [' '] + access))
  {
  }

  // ---------- What a sequence of writes does ----------

  /** One access right to one device. */
  datatype Right = Right(kind: string, major: int, minor: int, bit: nat)

  function BitsOf(access: string): set<nat> {
    (if 'm' in access then {ACC_MKNOD} else {}) + (if 'r' in access then {ACC_READ} else {}) +
    (if 'w' in access then {ACC_WRITE} else {})
  }

  function Rights(e: Entry): set<Right> {
    set w | w in BitsOf(e.access) :: Right(e.kind, e.major, e.minor, w)
  }

  /** devices.allow adds rights, devices.deny takes them away. */
  function Apply(rights: set<Right>, allow: bool, e: Entry): set<Right> {
    if allow then rights + Rights(e) else rights - Rights(e)
  }

  /** The first `n` rules applied in order. */
  function ApplyUpTo(rights: set<Right>, rules: seq<Rule>, n: nat): set<Right>
    requires n <= |rules| && NumberedUpTo(rules, n)
  {
    if n == 0 then rights
    else
      var last := rules[n - 1];
      Apply(ApplyUpTo(rights, rules, n - 1), last.allow, EntryOf(last))
  }

  function ApplyRules(rights: set<Right>, rules: seq<Rule>): set<Right>
    requires Numbered(rules)
  {
    ApplyUpTo(rights, rules, |rules|)
  }

  /** What the kernel makes of the log for one cgroup: each line to its own files read back, in order. */
  function ApplyLog(rights: set<Right>, log: seq<Write>, cgroupPath: string): set<Right> {
    if log == [] then rights
    else
      var before, last := ApplyLog(rights, log[..|log| - 1], cgroupPath), log[|log| - 1];
      if last.cgroupPath == cgroupPath then ApplyWrite(before, last) else before
  }

  /** A line that cannot be read has no effect. */
  function ApplyWrite(rights: set<Right>, write: Write): set<Right> {
    var e := ReadLine(write.line);
    if e.None? then rights else Apply(rights, write.file.DevicesAllow?, e.value)
  }

  lemma {:induction false} WriteMeansRule(rights: set<Right>, rule: Rule, cgroupPath: string)
    requires rule.major.Some? && rule.minor.Some? && ' ' !in rule.kind
    ensures ApplyWrite(rights, WriteOf(rule, cgroupPath)) == Apply(rights, rule.allow, EntryOf(rule))
  {
    LineReadsBack(rule.kind, rule.major.value, rule.minor.value, rule.access);
  }

  /** Lines read back and applied in order have the effect of the rules. */
  lemma {:induction false} LogMeansRules(rights: set<Right>, log: seq<Write>, rules: seq<Rule>, cgroupPath: string)
    requires Records(log, rules, cgroupPath) && forall i :: 0 <= i < |log| ==> ' ' !in rules[i].kind
    ensures ApplyLog(rights, log, cgroupPath) == ApplyUpTo(rights, rules, |log|)
  {
    if log != [] {
      var n := |log| - 1;
      assert Records(log[..n], rules, cgroupPath);
      LogMeansRules(rights, log[..n], rules, cgroupPath);
      WriteMeansRule(ApplyUpTo(rights, rules, n), rules[n], cgroupPath);
    }
  }

  /** The rights of other cgroups stay as they are. */
  lemma {:induction false} OthersUntouched(rights: set<Right>, log: seq<Write>, rules: seq<Rule>, cgroupPath: string,
                                           other: string)
    requires Records(log, rules, cgroupPath) && other != cgroupPath
    ensures ApplyLog(rights, log, other) == rights
  {
    if log != [] {
      assert Records(log[..|log| - 1], rules, cgroupPath);
      OthersUntouched(rights, log[..|log| - 1], rules, cgroupPath, other);
    }
  }

  lemma {:induction false} ApplyLogConcat(rights: set<Right>, a: seq<Write>, b: seq<Write>, cgroupPath: string)
    ensures ApplyLog(rights, a + b, cgroupPath) == ApplyLog(ApplyLog(rights, a, cgroupPath), b, cgroupPath)
  {
    if b == [] {
      assert a + b == a;
    } else {
      assert (a + b)[..|a + b| - 1] == a + b[..|b| - 1];
      ApplyLogConcat(rights, a, b[..|b| - 1], cgroupPath);
    }
  }

  /** Behind whatever has been written before: the cgroup gets the rules, and no other cgroup changes. */
  lemma WrittenRulesApply(rights: set<Right>, before: seq<Write>, written: seq<Write>, rules: seq<Rule>,
                          cgroupPath: string, other: string)
    requires Records(written, rules, cgroupPath) && other != cgroupPath
    requires forall i :: 0 <= i < |written| ==> ' ' !in rules[i].kind
    ensures ApplyLog(rights, before + written, cgroupPath) ==
            ApplyUpTo(ApplyLog(rights, before, cgroupPath), rules, |written|)
    ensures ApplyLog(rights, before + written, other) == ApplyLog(rights, before, other)
  {
    ApplyLogConcat(rights, before, written, cgroupPath);
    ApplyLogConcat(rights, before, written, other);
    LogMeansRules(ApplyLog(rights, before, cgroupPath), written, rules, cgroupPath);
    OthersUntouched(ApplyLog(rights, before, other), written, rules, cgroupPath, other);
  }
}
