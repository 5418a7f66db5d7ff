# Device access of the Habana container runtime, verified

The repository lets containers use Habana accelerators. Access to devices is
decided by the cgroup device controller, and the repository feeds it in three
ways:

* Under cgroup version 2 it compiles a list of device rules to eBPF basic blocks
  and links them in front of the programs that are already attached
  (`cgroup/ebpf.go`, `cgroup/v2.go`).
* Under cgroup version 1 it writes the same rules to control files
  (`cgroup/v1.go`).
* In OCI mode it edits the runtime spec, so that the next runtime does the work
  (`cmd/habana-container-runtime`).

This project models these parts in Dafny and proves that they decide access as
intended. The central statement: *the last matching rule decides, and when no
rule matches, the old programs do*. It is proved of the loaded code: instructions
with registers, sign-extended immediates and relative jumps, run for every
request, every rule list and every old program.

`dafny verify dfyconfig.toml` checks everything.

## Modules

| file | content |
|---|---|
| `Words.dfy`, `Decimal.dfy`, `Strings.dfy`, `Sequences.dfy`, `Wrappers.dfy` | fixed-width integers, numerals, Go string functions, concatenation of pieces |
| `Bpf.dfy` | the BPF machine: instructions, steps, runs, and the def-before-use check over all paths (RFC 9669, sections 4.1, 4.3 and 5.1) |
| `Rules.dfy` | device rules and the verdict of the last matching one, without reference to BPF |
| `DeviceFilter.dfy` | the builder class and `PrependDeviceFilter` |
| `BuilderStates.dfy` | every state of the builder; when a rule list is refused |
| `Linker.dfy` | labels, their resolution, and the linked form |
| `FilterRun.dfy` | what linked code computes: an interpreter that threads register R2 |
| `RuleTests.dfy` | what the tests of one block mean |
| `TypeRegister.dfy` | for which block lists R2 holds the device type at every type test |
| `Misreading.dfy` | what an overwritten R2 does to verdicts, and for which lists nothing |
| `Splice.dfy` | relocation and non-interference: the old program does not notice the filter |
| `Correctness.dfy` | the compiler theorems |
| `Soundness.dfy` | jumps, labels, size, and def-before-use of linked code |
| `Composition.dfy` | prepending two batches |
| `CgroupV2.dfy` | replacement of the attached programs, step by step, and its effect on access |
| `CgroupV1.dfy` | version 1 control files, and what a sequence of writes amounts to |
| `Agreement.dfy` | exactly when both versions come to the same verdict |
| `CgroupVersion.dfy` | version detection and root paths |
| `Prestart.dfy` | the legacy hook with its two batches |
| `OciSpec.dfy`, `Missing.dfy`, `SpecEdits.dfy` | the spec object, its edits, and what they do to verdicts |
| `Discover.dfy` | which devices are selected |
| `Runtime.dfy`, `Idempotence.dfy`, `RuntimeEffect.dfy`, `RewriteResult.dfy` | the whole rewrite of a spec, done twice, its effect on access, and the hooks, nodes and errors it leaves |

## What was found

* **R2 serves two purposes.** It holds the device type and is the scratch
  register of the access test. A rule with partial access that is listed after a
  rule with a type can make the earlier rule miss its requests
  (`Correctness.DisturbedTypeTest`). It can also make a rule for character devices
  allow a block device that no rule allows, because the overlap left by a read
  request is 2, which is the code of character devices
  (`Correctness.WrongTypeAllowed`).
* **Which lists are decided right all the same.** For every list that compiles,
  the loaded code is right on every request for a block or character device with
  numbers below 2^31, in front of every old program, if and only if it is right on
  finitely many requests that can be computed from the list: both types, the eight
  accesses, the numbers its rules name and one they do not (`Correctness.FilterRightExactly`,
  `Misreading.SamplesSuffice`). For rules about different devices this comes down to
  a condition on types and access strings alone (`Misreading.ReadsRightExactly`),
  which is enough for any list (`Misreading.ReadsRightSuffices`). The compiler
  theorems ask for `Reliable` lists: those passing the samples, for real requests,
  or `Undisturbed` ones, for every content of the request's fields. The rules this
  repository makes always have full access and are undisturbed
  (`Correctness.FullAccessUndisturbed`).
* **The versions differ on partial access.** Version 2 takes a rule to match when
  any access asked for is among its letters, version 1 grants a request when every
  access is granted (`Agreement.PartialAccessDiffers`). From all permissions and on
  all requests for some access, both come to the same verdict if and only if no
  allowing rule has the last word on one access to its device while the last word on
  another access is an earlier refusal, or missing (`Agreement.AgreementExactly`; on
  loaded code `Agreement.VersionsAgreeExactly`). Rules with full access never do
  that (`Agreement.FullAccessAllowsInFull`).
* **Two batches are not always one list.** The second filter unpacks the request
  anew, so that an access test of the later batch disturbs the earlier one only in
  the joint list (`Composition.JointListDiffers`;
  `Composition.PrependTwiceExactly` says when it makes no difference).
* **Numbers of 2^31 and more never match**, because the immediate is
  sign-extended; below that the comparison is exact
  (`RuleTests.NumberTestFaithful`, `Correctness.FilterExact`).
* **With nothing attached, the new program returns R0 unwritten** when no rule
  matches. It defines every register before use only with a wildcard
  (`Soundness.FreshProgram`, `CgroupV2.FreshDecides`).
* **An entry with the same numbers keeps a device out of the allow list**, even
  one that denies it or stands for a block device (`SpecEdits.DenyEntryStays`;
  `SpecEdits.GivenDeviceUsable` says exactly when a device becomes usable).
* **The runtime and the command line tool list different devices.** The runtime
  looks for `accel*`, the command line tool for one-digit names only. So the runtime
  takes accelerator 12 for number 2, while the command line tool does not see it
  (`Discover.TwoDigitNames`). Asked for different numbers, both choose alike if and
  only if every `accel*` name that ends in a digit has one of the two one-digit forms
  (`Discover.SelectionsAgree`); asked for all devices too, if and only if every
  `accel*` name has (`Discover.VariableAndFlagAgree`).
* **The error variable keeps the first error**, not the last one as the
  repository's README.md:178 says (`Idempotence.FirstErrorKept`). The code is
  followed.
* The message for an over-large minor number names the major number
  (`cgroup/ebpf.go:108`); `DeviceFilter.CheckRule` reproduces it.

## Reading the model

* A method is the Go code; the function it is proved equal to gives its result as
  a value, and the lemmas are about that function.
* A nil number and an empty old program make the Go code panic. Here they are the
  errors `NilDereference` and `IndexOutOfRange`.
* UUIDs, file lookups, stats, directory listings and kernel answers are
  parameters (`Kernel`, `Files`, `Host`): the theorems hold for all of them.
* Register files on entry are arbitrary, apart from the context pointer in R1.
* Version 1 permissions follow the kernel's documented use of `devices.allow` and
  `devices.deny`: one adds rights, the other takes them away.

## Model

| member | source | states |
|---|---|---|
| DeviceFilter.ParseAccess | cgroup/ebpf.go:112-124 | the loop yields the mask of the letters that occur, or the first unknown letter |
| DeviceFilter.Program.Init | cgroup/ebpf.go:55-79 | appends the five instructions that unpack the request |
| DeviceFilter.Program.AppendDevice | cgroup/ebpf.go:82-165 | appends one labelled block, ignores what comes behind a wildcard, and on every error changes nothing |
| DeviceFilter.Program.EmitTests | cgroup/ebpf.go:131-156 | the tests emitted are those the rule needs, all aimed at the next block |
| DeviceFilter.Program.EmitAccept | cgroup/ebpf.go:160-177 | the accepting end, and the label set in place on the first instruction of the block |
| DeviceFilter.Program.Finalize | cgroup/ebpf.go:179-187 | the old program follows, its first instruction relabelled; afterwards the builder is closed |
| DeviceFilter.PrependDeviceFilter | cgroup/ebpf.go:259-270 | the descending loop yields the chain of the live rules linked to the old program, or the first error met |
| BuilderStates.ReachableStates | cgroup/ebpf.go:82-187 | after any calls of appendDevice and finalize in any order the builder holds consecutive blocks for the rules it took, a wildcard only last, and behind them what finalize added |
| BuilderStates.BlockEncodesRule | cgroup/ebpf.go:128-163 | in every such state block k is the code of rule k, and blockID counts the blocks until the builder is finalized |
| BuilderStates.Frozen | cgroup/ebpf.go:83-89 | behind a wildcard, and after finalize, no append changes anything |
| BuilderStates.ClosedForGood | cgroup/ebpf.go:83-85 | after finalize every append fails, whatever is called in between, and the instructions stay in front |
| BuilderStates.RefusedExactly | cgroup/ebpf.go:86-124 | a list is refused if and only if an invalid rule has no wildcard behind it |
| BuilderStates.RefusedWith | cgroup/ebpf.go:263-267 | the error is that of the last such rule |
| BuilderStates.ValidExactly | cgroup/ebpf.go:90-124 | a rule is accepted if and only if its type is a, b or c, both numbers are there and fit 32 bits, and its letters are r, w and m |
| BuilderStates.RefusedBecause | cgroup/ebpf.go:90-124 | of several defects the first in this order is reported, of unknown letters the first |
| BuilderStates.WildcardDecides | cgroup/ebpf.go:86-89 | with a wildcard neither earlier rules nor the old program influence the outcome |
| Linker.LinkResolves | cgroup/ebpf.go:128-187 | loading succeeds whenever the old program loads alone, and gives the filter followed by the very code the old program loads to |
| Linker.LabelUnique | cgroup/ebpf.go:128-129 | a label occurs only at the start of its block, for any old program without the fresh prefix |
| FilterRun.RunBlock | cgroup/ebpf.go:131-160 | run from its start, a block answers exactly when its tests pass, and otherwise reaches the next block with the tested overlap left in R2 |
| FilterRun.FilterRefinesThread | cgroup/ebpf.go:55-187 | for all rules, requests, old code and entry registers, linked code does what the R2-threading interpreter does, then runs the old code |
| Splice.RunRelocates | cgroup/ebpf.go:183 | a run of code behind a prefix ends as the run of the code alone |
| Splice.SplicedRunsInLockstep | cgroup/ebpf.go:179-187 | behind any prefix, a program that defines registers before use takes the same path to the same outcome, step for step |
| Splice.RunsEnd | cgroup/ebpf.go:131-155 | every run stops within as many steps as instructions ahead |
| RuleTests.NumberTestFaithful | cgroup/ebpf.go:145-156 | the 64-bit comparison with a truncated, sign-extended number means equality for all devices if and only if the number is below 2^31 |
| RuleTests.BlockExact | cgroup/ebpf.go:131-156 | a block entered with the device type in R2 accepts exactly the requests its rule matches, numbers of 2^31 and more apart |
| RuleTests.AccessTestExact | cgroup/ebpf.go:137-144 | the masked test passes if and only if some requested access is among the rule's letters |
| Correctness.LiveVerdict | cgroup/ebpf.go:86-89 | walking backwards and stopping at a wildcard gives the verdict of the last match |
| TypeRegister.TypeSeenExactly | cgroup/ebpf.go:137-144 | R2 holds the type at every type test of a block list, for every content of the request's fields, if and only if no access test is in the way of a later type test; about the register, not the verdict |
| Misreading.ReadsRightSuffices | cgroup/ebpf.go:137-144 | a list whose type tests let through the same real requests as the type would is decided right, whatever its numbers |
| Misreading.ReadsRightExactly | cgroup/ebpf.go:137-156 | for rules about different devices, every real request is decided right if and only if the list reads right, which depends on types and access strings only |
| Misreading.SamplesSuffice | cgroup/ebpf.go:137-156 | for every valid list and range of numbers, every real request is decided right if and only if finitely many computed ones are |
| Misreading.CharReaders | cgroup/ebpf.go:140-142 | rules that let character devices be read are decided right in any number and order, although they overwrite R2 |
| Correctness.UndisturbedExactly | cgroup/ebpf.go:137-144 | the same as a condition on the rule list |
| Correctness.ThreadIsFirstMatch | cgroup/ebpf.go:137-144 | where R2 holds the type at every type test, the threaded interpreter answers with the first block that matches |
| Rules.NoVerdict | cgroup/ebpf.go:81 | there is no verdict if and only if no rule matches |
| Rules.KernelNumbers | cgroup/ebpf.go:90-124 | types and accesses are matched in the kernel's numbers |
| Rules.VerdictOfLast | cgroup/ebpf.go:81 | the last matching rule gives the verdict |
| Correctness.LiveIsReversedSuffix | cgroup/ebpf.go:263-267 | block k is for the k-th rule from the end, down to the last wildcard |
| Correctness.FilterSettlesExactly | cgroup/ebpf.go:55-187 | in any range of numbers, linked code answers every real request with the last rule that matches once loaded, or else as the old program does, for every old program, if and only if its rules pass the samples |
| Correctness.FilterRightExactly | cgroup/ebpf.go:55-187 | for numbers below 2^31 the same of the last rule that matches |
| Correctness.PassesWhenUndisturbedOrReadRight | cgroup/ebpf.go:137-144 | undisturbed lists and lists that read right pass the samples |
| Correctness.FilterExact | cgroup/ebpf.go:55-187 | linked code of a reliable list answers with the last rule that matches once loaded, or gives the old code's own outcome |
| Correctness.CompilerCorrect | cgroup/ebpf.go:259-270 | from a reliable list and an old program to loaded code: success, and the last matching rule decides or else the old program does |
| Correctness.FullAccessUndisturbed | cmd/habana-container-cli/main.go:435-448 | rules with full access always satisfy the side condition |
| Correctness.DisturbedTypeTest | cgroup/ebpf.go:140-142 | a list, and a request that its first rule should allow and the compiled chain passes on |
| Correctness.WrongTypeAllowed | cgroup/ebpf.go:140-142 | a list that makes a read of a block device pass under a rule for a character device |
| Soundness.LabelsOnce | cgroup/ebpf.go:128-163 | each label 0 to n occurs exactly once, at the start of its block |
| Soundness.LabelsInOrder | cgroup/ebpf.go:128-163 | the labels stand in order |
| Soundness.LinkSound | cgroup/ebpf.go:131-156 | every jump of the filter is forward, in bounds, at most seven instructions long, and lands on the start of a block |
| Soundness.FilterSize | cgroup/ebpf.go:55-79 | at most five instructions and eight per rule |
| Soundness.LinkedDefinesBeforeUse | cgroup/ebpf.go:55-187 | linked code reads nothing but R1 before writing it if and only if there is a wildcard or the old program manages with R1 to R5 |
| Soundness.FreshProgram | cgroup/v2.go:131-140 | the program made from a bare return does so if and only if there is a wildcard |
| Composition.TwoPrepends | cgroup/ebpf.go:259-270 | for all rules: the later filter decides, then the earlier one on the unpacked request, then the old program |
| Composition.PrependTwice | cgroup/ebpf.go:259-270 | prepending one batch and then another equals prepending both at once, when the batches combine |
| Composition.PrependTwiceExactly | cgroup/ebpf.go:259-270 | it does so on every real request and for every old program if and only if finitely many computed requests say so |
| Composition.JointListDiffers | cgroup/ebpf.go:137-144 | two batches that decide a request which their joint list passes on |
| Composition.PrependTwiceLoaded | cmd/habana-container-cli/main.go:258-268 | the same through building, loading, reading back and building again |
| Composition.JointlyAccepted | cgroup/ebpf.go:259-270 | the joint list is accepted if and only if the later one is, and the earlier one too unless a wildcard hides it |
| CgroupV2.DeviceCgroup.FindAttached | cgroup/ebpf.go:228-252 | yields the accessible programs in order and passes over the others |
| CgroupV2.PartsAppend | cgroup/ebpf.go:238-246 | these are the accessible ones, and the skipped ones the others |
| CgroupV2.GenerateNewProgram | cgroup/v2.go:190-211 | succeeds exactly when building, linking and loading do, with the linked code |
| CgroupV2.GenerateAll | cgroup/v2.go:127-159 | one new program for each old one, or a single one over a bare return, or the first failure |
| CgroupV2.DeviceCgroup.AddDeviceRules | cgroup/v2.go:113-188 | every set of attached programs there ever is, up to the first kernel refusal; a failing generation leaves the set alone; it succeeds if and only if the rules are accepted and nothing is refused, and otherwise reports the first thing that fails |
| CgroupV2.PassageKeeps | cgroup/v2.go:169-185 | at every moment all skipped programs are attached, with a suffix of the old or a prefix of the new ones |
| CgroupV2.PassageEnds | cgroup/v2.go:131-185 | at the end there are as many new programs as there were old ones, but at least one |
| CgroupV2.ReplacementDecides | cgroup/v2.go:127-187 | afterwards a request is allowed if and only if the skipped programs allow it and the last matching rule does, or else all old programs do |
| CgroupV2.NothingLost | cgroup/v2.go:127-187 | with allowing rules nothing that was allowed is lost |
| CgroupV2.FreshDecides | cgroup/v2.go:131-140 | with nothing to replace a matching rule decides, otherwise the entry value of R0 |
| CgroupV2.ReplacedDefine | cgroup/v2.go:142-159 | new programs define registers before use, so that the next batch can build on them |
| CgroupV2.TwoBatchesDecide | cmd/habana-container-cli/main.go:258-268 | two replacements in turn decide like their concatenated rules |
| Prestart.MountDevices | cmd/habana-container-cli/main.go:348-385 | the stat of each device in order, if and only if each is on the host, is a device, and is in the container or can be mounted there |
| Prestart.MountsExactly | cmd/habana-container-cli/main.go:361-385 | the same of the function that gives the result as a value |
| Prestart.MountErrorIs | cmd/habana-container-cli/main.go:361-385 | otherwise the first thing wrong with the first such device is reported |
| Prestart.ConvertDevInfoToDevRule | cmd/habana-container-cli/main.go:435-448 | one allowing character-device rule with full access for each device |
| Prestart.HandleMounts | cmd/habana-container-cli/main.go:328-345 | just the kernel calls before the first refusal go through; a failing mount leaves the programs alone, and it succeeds if and only if nothing fails or is refused |
| Prestart.HandlePrestart | cmd/habana-container-cli/main.go:256-268 | every set of attached programs gone through in both batches, each up to its kernel's first refusal, the second after the first; success leaves the programs of both, as far as they are switched on |
| Prestart.BetweenBatches | cmd/habana-container-cli/main.go:258-268 | when the second batch fails, the first one has been replaced in full |
| Prestart.DevicesOpened | cmd/habana-container-cli/main.go:256-268 | afterwards exactly the devices of both batches, and what was allowed before, are allowed |
| CgroupV1.ControlFiles.AddDeviceRule | cgroup/v1.go:127-157 | writes the line of the rule to the file for its verdict, or fails without writing |
| CgroupV1.ControlFiles.AddDeviceRules | cgroup/v1.go:115-125 | writes the rules in order up to the first failure: each to the file for its verdict, in the cgroup given, with its own type, numbers and access |
| CgroupV1.LineReadsBack | cgroup/v1.go:151 | the line determines kind, numbers and access |
| CgroupV1.LineExample | cgroup/v1.go:151 | such a line |
| CgroupV1.LogMeansRules | cgroup/v1.go:115-157 | the lines read back and applied in order have the effect of the rules |
| CgroupV1.WrittenRulesApply | cgroup/v1.go:138-154 | behind whatever was written before, the cgroup gets the rules and no other cgroup changes |
| Agreement.UpdatesDecide | cgroup/v1.go:115-157 | front-to-back updates give the verdict of the last matching rule, when the list allows by itself each access it allows |
| Agreement.SameVerdictExactly | cgroup/v1.go:115-157 | for one request, they do so from all permissions if and only if that is so |
| Agreement.AgreementExactly | cgroup/ebpf.go:137-144 | for all requests for some access, if and only if no allowing rule overreaches |
| Agreement.VersionsAgree | cgroup/v1.go:115-157 | from the same permissions, control files and loaded code come to the same verdict on such a request |
| Agreement.VersionsAgreeExactly | cgroup/v1.go:115-157 | for rules whose filter is right, they do so for all permissions, old programs and requests if and only if no allowing rule overreaches |
| Agreement.FullAccessAllowsInFull | cmd/habana-container-cli/main.go:435-448 | rules with full access never overreach |
| Agreement.PartialAccessDiffers | cgroup/ebpf.go:137-144 | an overreaching rule and a request for two accesses on which the versions differ |
| CgroupVersion.CGroupVersion | cgroup/cgroup.go:51-85 | version 1 if and only if all lines are well formed and one names devices; version 2 if and only if none does and one is unified; otherwise the first malformed line, or that there is no entry |
| CgroupVersion.DeviceCGroupRootPath | cgroup/v1.go:92-111 | the scanning loop, for either version's subsystem |
| CgroupVersion.DetectedVersionHasPath | cgroup/v2.go:90-109 | the handler of a detected version finds the path of the first line for its subsystem |
| CgroupVersion.RootPathFails | cgroup/v1.go:95-111 | without such a line the first malformed one is reported, or that there is none |
| CgroupVersion.SplitJoin | cgroup/v1.go:95 | splitting in three undoes joining, whatever colons the path holds |
| CgroupVersion.JoinSplit | cgroup/v2.go:93 | joining undoes splitting in three |
| OciSpec.Spec.AddDevicesToSpec | cmd/habana-container-runtime/specs.go:242-270 | appends nodes for the devices whose path has none, in order |
| OciSpec.Spec.AddAllowList | cmd/habana-container-runtime/specs.go:273-302 | appends rules for the devices whose number pair has no entry, although the code compares strings |
| OciSpec.Spec.AddPrestartHook | cmd/habana-container-runtime/specs.go:81-98 | appends the hook unless one of that name is there |
| OciSpec.Spec.AddCreateRuntimeHook | cmd/habana-container-runtime/specs.go:114-130 | the same for the createRuntime hook |
| OciSpec.Spec.AddErrorEnvVar | cmd/habana-container-runtime/main.go:237-244 | appends the error variable unless there is one |
| Decimal.PairKeyInjective | cmd/habana-container-runtime/specs.go:279-285 | different number pairs have different keys |
| SpecEdits.DeviceNodesAdded | cmd/habana-container-runtime/specs.go:242-270 | old nodes stay in front, every given path is covered, doing it again adds nothing |
| SpecEdits.DeviceNodesAppend | cmd/habana-container-runtime/specs.go:251-267 | one device more adds one character device node with its path, numbers and mode, owned by root, at the end, unless there was a node for its path |
| SpecEdits.NodesOfDevices | cmd/habana-container-runtime/specs.go:251-267 | each device without a node gets one of its own, and each node added belongs to such a device |
| SpecEdits.DeviceNodesDistinct | cmd/habana-container-runtime/specs.go:242-270 | distinct paths stay distinct when the given ones are |
| SpecEdits.AllowListAdded | cmd/habana-container-runtime/specs.go:273-302 | the same for rules and number pairs |
| SpecEdits.AllowListAppend | cmd/habana-container-runtime/specs.go:283-298 | one device more adds one rule at the end, unless there was an entry for its numbers |
| SpecEdits.AllowListDistinct | cmd/habana-container-runtime/specs.go:273-302 | distinct number pairs stay distinct when the given ones are |
| SpecEdits.AllowListVerdict | cmd/habana-container-runtime/specs.go:273-302 | exactly the requests for given devices without an entry become allowed; no other verdict changes |
| SpecEdits.GivenDeviceUsable | cmd/habana-container-runtime/specs.go:276-286 | a given device is usable afterwards if and only if it had no entry or was usable before |
| SpecEdits.DenyEntryStays | cmd/habana-container-runtime/specs.go:276-286 | a spec in which a given device stays unusable |
| Missing.StaysDistinct | cmd/habana-container-runtime/specs.go:250-267 | what is added clashes neither with itself nor with what was there |
| Discover.DevicesIDs | discover/discover.go:117-129 | ids by last character, in order of first occurrence |
| Discover.UniqueMember | discover/discover.go:117-129 | no id is lost and none invented |
| Discover.UniqueOnce | discover/discover.go:117-129 | no id comes twice |
| Discover.UniqueAppend | discover/discover.go:117-129 | ids come in order of first occurrence |
| Discover.FilterDevicesByENV | cmd/habana-container-runtime/specs.go:209-239 | the devices asked for by the first matching variable, or all |
| Discover.AllDevices | cmd/habana-container-runtime/specs.go:211-228 | all devices, if the variable is missing, has no value, or asks for all |
| Discover.SomeDevices | cmd/habana-container-runtime/specs.go:222-238 | otherwise those whose last character stands between the commas of the first such variable, in their order |
| Discover.AcceleratorAppend | discover/discover.go:36-43 | what is listed: names that start with accel, in the order of the directory |
| Discover.CharDevices | discover/discover.go:101-115 | the one-digit names, pattern by pattern, or an error when there are none |
| Discover.GlobAppend | discover/discover.go:104-109 | a pattern lists the names with one digit behind its prefix, in the order of the directory |
| Discover.ParseDevices | cmd/habana-container-cli/main.go:290-311 | of the devices listed those asked for by the flag, in the order of the request, or all |
| Discover.RequestOrder | cmd/habana-container-cli/main.go:303-309 | ids in the order of the request, for each of them devices in the order listed |
| Discover.SelectionsAgree | cmd/habana-container-cli/main.go:299-311 | from one directory, both programs choose the same devices on every request for different numbers that the flag takes if and only if every accel* name ending in a digit has a one-digit form |
| Discover.VariableAndFlagAgree | cmd/habana-container-runtime/specs.go:209-239 | the same text in variable and flag, "all" included, makes them choose the same devices if and only if every accel* name has a one-digit form |
| Discover.SelectedIds | discover/discover.go:117-129 | the ids of each selection are those both requested and listed, each once |
| Discover.ListedReadAlike | cmd/habana-container-cli/main.go:450-460 | of every name the command line tool lists, it reads the id the runtime reads |
| Discover.TwoDigitNames | discover/discover.go:36-43 | a name the runtime chooses under its last digit and the command line tool does not list |
| Runtime.HookPathNames | cmd/habana-container-runtime/specs.go:317-346 | every path found names the hook, so that later runs recognise it |
| Runtime.AcceleratorPathsAre | cmd/habana-container-runtime/specs.go:153-157 | for each id the accelerator and then its control device |
| Runtime.UverbsPathsAppend | cmd/habana-container-runtime/specs.go:176-195 | for each id the first entry of its verbs directory, if there is one |
| Runtime.InfosAll | cmd/habana-container-runtime/specs.go:153-165 | collecting succeeds if and only if every stat does, with each info in its place |
| Runtime.FirstInfoError | cmd/habana-container-runtime/specs.go:153-165 | otherwise the message is that of the first path that fails |
| Runtime.CollectAccelerators | cmd/habana-container-runtime/specs.go:153-165 | infos of accelerator and control device for each id, or the first failure |
| Runtime.CollectUverbs | cmd/habana-container-runtime/specs.go:176-201 | infos of the uverbs that have a device, or the first failing stat |
| Runtime.HasCreateCommand | cmd/habana-container-runtime/main.go:216-226 | whether create occurs among the arguments that are no flags |
| Runtime.IsHabanaContainer | cmd/habana-container-runtime/main.go:228-235 | whether the container asks for devices |
| Runtime.HandleRequest | cmd/habana-container-runtime/main.go:94-194 | the spec saved and the error returned, in every mode and on every exit |
| Runtime.EditDevices | cmd/habana-container-runtime/main.go:158-193 | the device half with its error exits |
| Idempotence.RewriteTwice | cmd/habana-container-runtime/main.go:94-194 | with the same host answers a second rewrite changes nothing and ends the same way, on every path |
| Idempotence.AtMostOneError | cmd/habana-container-runtime/main.go:237-244 | at most one error variable is added, none if there was one, and nothing else in the environment changes |
| Idempotence.FirstErrorKept | cmd/habana-container-runtime/main.go:237-244 | of several errors the first is kept |
| RuntimeEffect.RewriteVerdict | cmd/habana-container-runtime/main.go:94-194 | in every mode and on every exit a rewrite allows exactly the collected devices without an entry and changes no other verdict; after a failure of the uverbs the accelerators stay allowed |
| RewriteResult.RewriteSkips | cmd/habana-container-runtime/main.go:97-130 | without a create command, a bundle, or a wish for devices nothing changes, and only a missing bundle is an error |
| RewriteResult.HookPathExactly | cmd/habana-container-runtime/specs.go:317-346 | the hook is found if and only if one of the lookups finds it, and the first one counts |
| RewriteResult.LegacyRewrite | cmd/habana-container-runtime/main.go:132-139 | legacy mode adds one prestart hook with its arguments, unless there is one, and changes nothing else; a missing hook is the error |
| RewriteResult.OciHook | cmd/habana-container-runtime/main.go:141-146 | the other mode adds one createRuntime hook with its arguments, unless there is one; a missing hook ends it |
| RewriteResult.NoDevicesRewrite | cmd/habana-container-runtime/main.go:151-155 | without devices asked for nothing else changes |
| RewriteResult.AcceleratorFailure | cmd/habana-container-runtime/main.go:158-164 | the first accelerator that cannot be looked at is the error, is noted in the environment, and no node or rule is added |
| RewriteResult.UverbsFailure | cmd/habana-container-runtime/main.go:166-172 | the same of uverbs |
| RewriteResult.RewriteSucceeds | cmd/habana-container-runtime/main.go:174-193 | otherwise there is no error, and the first failing netinfo step is noted |
| RewriteResult.CollectedHaveNodes | cmd/habana-container-runtime/main.go:158-172 | in every mode and on every exit each collected device whose path had no node gets one with its own numbers |
| RewriteResult.AddedNodesCollected | cmd/habana-container-runtime/main.go:158-172 | and no other node is added |

## Left out

- Correctness.FilterExact: for requests of other types, or for no or unknown accesses, it asks for undisturbed lists; the exact condition is on requests for block and character devices, which are the ones there are.
- Agreement.AgreementExactly: only rules for one device each; wildcards of version 1 ("a", "*") are not written by this repository. Requests without any access are not compared.
- Agreement.VersionsAgreeExactly: asks for rules that pass the samples; where the filter itself goes wrong, it may by chance agree with version 1.
- Bpf.Step: helper calls, stores, atomics, 64-bit immediates, byte loads, R10 and backward jumps are not modelled; the filter emits none of them, and the programs it is linked to are taken from the modelled subset.
- Linker.Resolve: a label that stands before the jump to it is an error here, since control only moves forward.
- The bpf query with its size retries, rlimits, and what the kernel's verifier checks beyond registers defined before use.
- RewriteResult.CollectedHaveNodes: asks that a stat answers for the path it was given, as discover/discover.go:181-182 does.
- Reading and writing of spec, config and log files; `Linux`, `Resources`, `Process` and `Root` are assumed present.
- Rune decoding of access strings, and strconv.Quote, which is a parameter.
- path.Join is modelled without cleaning the directory part.
- Mount info parsing, cgroup paths, nsenter mounts, netlink work and netinfo files; their failures are parameters.
- The cgroup part of HandlePrestart under version 1, which is AddDeviceRules of the control files in turn.
- The uverbs that the command line tool finds through PCI addresses (discover/discover.go:54-81); HandlePrestart is given them as a list.
