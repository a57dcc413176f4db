# sio2jail, modelled in Dafny

sio2jail runs a contest program under a seccomp filter, ptrace, resource limits and a supervisor that ends with a
verdict. This project models its three hard parts and proves what each of them is for.

**The syscall policy.** `SyscallFilter.dfy` has filters in their two forms, the tracer's predicates and libseccomp's
argument comparisons. `SeccompRule.dfy` has rules, shared actions, the stable sort and an independent reference for what
a list of rules means: the first match on the highest precedence level that has one. `SeccompContext.dfy` has the trace
messages, the emission of a rule for each architecture and the kernel's first-match decision over what was emitted.
`SeccompListener.dfy` is the listener as a class: grouping, sorting, numbering, backward emission, and the second look at
a trace event, whose handlers write to the same record as the listener. `StagedEnforcement.dfy` proves that the two
stages together decide as the reference does, for all rules, calls and remembered architectures. `PolicyTables.dfy` has
the tables of the default policy and of the limits. `PolicyPromises.dfy` says, name by name and in terms of the arguments
as numbers, what is done about every system call, and proves that the tables, with their filters and precedences, say just
that; `TablePromises.dfy` and `PolicyDecisions.dfy` carry it over to the rules and to the answers. `Policies.dfy` makes,
embeds and compiles the rules and runs calls under them: each is decided, answered and recorded as is said, the first execve
goes through and every later one is killed, and the memory limit's handler is asked exactly for the requests the limit is
about. `Bits.dfy` has what is used of bits.

**The supervisor.** `ProcessInfo.dfy` is the process tree with its shared index, on the heap. `Tracees.dfy` is a small
environment of tasks that run, stop, clone, end and are killed. `Supervision.dfy` defines the machine: tasks and
supervisor take steps in any order, the answers of the outside world are parameters. `SupervisionRuns.dfy` and
`SupervisionProgress.dfy` prove what every run keeps; `SupervisionVerdicts.dfy` says exactly when an event is answered KILL
and what is on record after it. `TraceExecutor.dfy`, `Executor.dfy`, `ThreadsLimit.dfy`,
`MemoryLimit.dfy` and `ResultRecord.dfy` are the objects themselves, with their fields and loops; each method is proved to
take the machine's step, so that `Executor.Execute` makes only runs of the machine. `SignalLoop.dfy` looks at the loop
closer, with signal handlers between any two of its steps and a timer; `TimeLimit.dfy` arms that timer.
`SupervisedPolicy.dfy` puts the seccomp listener to work in the machine and says how runs end that it kills.

**The performance counter.** `Split.dfy` splits strings, `PerfConfig.dfy` spreads a value over ranges of bits in an array,
`PerfFormat.dfy` reads the text that says which, and `PerfLimit.dfy` bounds how far the instruction limit can be overshot.

Four statements one might expect do not hold of the code; each has its exact condition. The two forms of a comparison
differ on 32-bit calls for most constants of 2^32 and more (`SyscallFilter.CmpAgreesIff`). A refused memory request is on
the limit's account unless the limit with its margin wraps around in 64 bits (`MemoryLimit.AttributedIff`), and a refused
mapping exactly when the kernel chose its address (`MemoryLimit.HintedMappingsEscape`). A task can be lost to the
supervisor, and then is stopped for good at its next stop: as long as nothing is killed, a run loses no task exactly if no
clone event is handled before its child has stopped, no task is killed in a clone call whose child is still there, and no
task ends before those created below it (`SupervisionProgress.RunIff`; each of the three happens:
`EarlyCloneEventHappens`, `KilledCreatorHappens`, `EndedCreatorHappens`). One oversampling share of the instruction limit
bounds the overshoot exactly for as many tasks as their periods fit in it, which are those the factor counts, but not
always the root that runs beside them (`PerfLimit.ShareIsEnoughIff`, `SharesOfTheFactor`, `OneTaskTooMany`).

Where comment and code disagree the code is followed: the comment on `getConfigFieldNumber`
(src/perf/PerfListener.cc:91) speaks of three names, the code accepts "config0" and "config3" too, the latter naming a
field that does not exist (`PerfConfig.FieldExistsIff`). The second rule of src/seccomp/SeccompContext.cc:93-101 is never
added, since adding a rule does not return a positive number; the condition before it suffices alone
(`SyscallFilter.TwoFormsAgree`). The rules that allow open and openat for reading only (src/seccomp/policy/DefaultPolicy.cc:223-232)
decide nothing, since an earlier section allows both calls as they are (`PolicyPromises.OpenIsSaid`).

## Results

The other rows of the table below are the steps these rest on.

- Both stages of the filter together are the reference: `StagedEnforcement.StagedPreservesMeaning`, `AttendedIsExact`,
  `PureRulesAreExact`, `Enforce`; when the forms of a filter agree: `SyscallFilter.CmpAgreesIff`; which messages decode:
  `SeccompContext.MessageIsFaithfulIff`.
- Runs under the default policy: `Policies.RunDefaultPolicy` for all calls, those that are named nowhere included,
  `Policies.RunRefused` for refused memory; and how they end: `SupervisedPolicy.SuperviseExecves`, `SuperviseRequest`.
- Who is to blame for refused memory: `MemoryLimit.AttributedIff`, `HintedMappingsEscape`; what is recorded when handler
  and listener both offer a reason: `SeccompListener.HandlersReasonStays`.
- The process tree on the heap agrees with its index: `ProcessInfo.Destroy`, `AddChild`, `DelChild`.
- Every run of the supervisor: `SupervisionRuns.ReachableIsValid`, `StopsAreNoticed`, `ThreadsAreAccounted`,
  `VerdictIsCoherent`, `CodeIsFaithful`, `FirstWriterWins`, `OriginalSignalSurvives`; the objects make only such runs:
  `Executor.ExecuteParent`.
- What an event does to the verdict, for every run: `SupervisionVerdicts.EventIsRecordedAs`, `LimitIsInForceIff`,
  `FinishedIsOkIff`, `KillReaches`.
- Which runs lose a task, and what becomes of it: `SupervisionProgress.RunIff`, `NoTaskIsStranded`, `LostStaysLost`.
- Signals and time: `SignalLoop.NoSignalIsLost`, `RealTimeLimitIsKept`, `BoundIsReached`.
- The performance counter: `PerfFormat.InsertIntoConfig`, `PerfConfig.InsertedReadsBack`, `PerfLimit.ShareIsEnoughIff`,
  `FirstKillIsInTime`; strings: `Split.SplitIsUnique`, `JoinThenSplitIff`.

## Model

| member | source | states |
|---|---|---|
| `SyscallFilter.CmpAgreesIff` | src/seccomp/filter/LibSeccompFilter.cc:50-129 | for every architecture and every comparison or mask operator, the kernel's form and the tracer's form agree on all calls if and only if the constant fits: it has no high word on X86, or its high word makes the cut comparison as constant as the uncut one |
| `SyscallFilter.CompareIs` | src/seccomp/filter/LibSeccompFilter.cc:50-108 | each comparison operator compares words as the 64-bit numbers they are |
| `SyscallFilter.AndIsBitwise` | src/seccomp/filter/LibSeccompFilter.cc:117-129 | a bit of a masked word is set if and only if it is set in the word and in the mask |
| `SyscallFilter.BitIsTold` | src/limits/ThreadsLimitListener.cc:35-42 | a filter on a mask of one bit holds exactly if the argument has the bit, and the one that compares with 0 exactly if not |
| `SyscallFilter.BuiltForms` | src/seccomp/filter/LibSeccompFilter.cc:29-46 | a filter built by any nesting of the operators and `&&` is pure, and both its predicate list and its comparison list hold exactly where the expression does |
| `SyscallFilter.TwoFormsAgree` | src/seccomp/SeccompContext.cc:78-101 | what is emitted, with GE 0 standing in for no condition, holds exactly where `match` does |
| `SeccompRule.SeccompAction.Execute` | src/seccomp/policy/DefaultPolicy.cc:56-82 | what each kind of action answers, what its handler records and what it cancels: a once-only handler answers by the flag it finds and leaves it set, the memory limit's handler raises the peak and records MLE when it kills, an errno action cancels the syscall with its errno |
| `SeccompRule.StableSortIsStable` | src/seccomp/SeccompListener.cc:56-62 | the sorted group is in descending precedence and keeps the order within every precedence level |
| `SeccompRule.StableSortUnique` | src/seccomp/SeccompListener.cc:56-62 | that property determines the order: any stable sort gives this one |
| `SeccompRule.FirstMatchOfSorted` | src/seccomp/SeccompListener.cc:48-55 | the first match in the sorted group is the rule the reference picks from the group as it was added |
| `SeccompRule.ChooseStep` | src/seccomp/SeccompListener.cc:155-162 | a running maximum that only a strictly higher precedence replaces computes the reference |
| `SeccompRule.ChooseIsBest` | src/seccomp/SeccompListener.cc:152-166 | the reference picks a matching rule that no matching rule outranks, and none exactly when none matches |
| `SeccompRule.DecisionTypeIgnoresOrder` | src/seccomp/SeccompListener.cc:179-185 | permuting the embedded rules does not change the type of the decision |
| `SeccompRule.AddingNeverLowers` | src/seccomp/SeccompListener.cc:179-185 | adding rules anywhere never lowers the precedence of a decision some rule took already |
| `SeccompContext.ShiftAndOrAdd` | src/seccomp/SeccompContext.cc:55-56 | the shift and or that build a rule id are the arithmetic the model uses, and are undone by shift and mask |
| `SeccompContext.MessageIsFaithfulIff` | src/seccomp/SeccompContext.cc:55-66 | a 16-bit message decodes to the group it was built from if and only if the group is one of the first 8191, and always to its architecture |
| `SeccompContext.DefaultMessageIsNoGroup` | src/seccomp/SeccompContext.cc:21-21 | message 0 is never that of a group |
| `SeccompContext.Builder.AddRule` | src/seccomp/SeccompContext.cc:48-106 | every architecture's filter grows by this rule's emission for it, although the action's rule id is overwritten in between |
| `SeccompContext.KernelChecksForwards` | src/seccomp/SeccompListener.cc:65-69 | a group emitted from its end is decided by its first rule whose kernel form matches |
| `SeccompContext.OtherRulesAfter` | src/seccomp/SeccompContext.cc:78-91 | rules of other syscalls do not change a decision |
| `SeccompListener.SeccompListener.AddRule` | src/seccomp/SeccompListener.h:46-52 | the rule joins its group unless the filter is compiled, when nothing changes |
| `SeccompListener.SeccompListener.AddPolicy` | src/seccomp/SeccompListener.cc:179-185 | a policy's rules are added in their order |
| `SeccompListener.SeccompListener.OnPreFork` | src/seccomp/SeccompListener.cc:33-73 | afterwards every group is stably sorted, the groups are numbered from 1 and each filter is the groups' backward emission in that order |
| `SeccompListener.SeccompListener.CompileGroups` | src/seccomp/SeccompListener.cc:48-70 | the loop over the groups establishes that, from the groups as they were added |
| `SeccompListener.SeccompListener.EmitGroup` | src/seccomp/SeccompListener.cc:65-69 | the inner loop appends the group's backward emission to every architecture's filter |
| `SeccompListener.SeccompListener.HighestMatching` | src/seccomp/SeccompListener.cc:154-163 | started from nothing, the loop over a group settles on the reference's choice |
| `SeccompListener.SeccompListener.OnTraceEvent` | src/seccomp/SeccompListener.cc:93-177 | which action a message leads to, what is answered and cancelled, that nothing is only for the failed assertion, and what record and peak are: the handler's own reason is offered first, RV after it on a KILL, and nothing else |
| `SeccompListener.HandlersReasonStays` | src/seccomp/SeccompListener.cc:170-175 | a reason the handler recorded, as MLE, stays though RV is offered after it: on the record every answer is what the supervisor's machine takes it for |
| `StagedEnforcement.KernelAnswer` | src/seccomp/SeccompListener.cc:48-70 | the loaded filter decides a call by its own syscall's sorted group, or by the default if there is none |
| `StagedEnforcement.TracerSees` | src/seccomp/SeccompListener.cc:145-163 | told the message of a group, the tracer settles on that group's choice, on the right architecture |
| `StagedEnforcement.StagedPreservesMeaning` | src/seccomp/SeccompListener.cc:93-177 | kernel and tracer together decide as the reference does, for sound filters; where no rule matches although a kernel form does, the tracer's assertion fails, and only there |
| `StagedEnforcement.AttendedIsExact` | src/seccomp/SeccompListener.cc:165-166 | away from such calls the decision is exactly the reference's and the assertion holds |
| `StagedEnforcement.PureRulesAreExact` | src/seccomp/filter/LibSeccompFilter.cc:11-46 | with filters the operators can build for the architecture it always is |
| `StagedEnforcement.DefaultIgnoresMemory` | src/seccomp/SeccompListener.cc:112-122 | the default decision does not depend on the remembered architecture |
| `StagedEnforcement.Enforce` | src/seccomp/SeccompListener.cc:93-177 | a call under a compiled listener meets the reference's decision; answer, record, with the handler's reason before RV, and shared flags follow from it, and a rule's handler reads the call on its own architecture |
| `Policies.MadeRulesAreBuilt` | src/seccomp/policy/DefaultPolicy.cc:28-102 | rules made from the policies' tables are sound on every call of either architecture |
| `PolicyPromises.ControlIsKept` | src/seccomp/policy/DefaultPolicy.cc:28-102 | the table of the first section says of every call exactly what is promised: permitted, failed with its errno, or asked about by its handler |
| `PolicyPromises.MemoryIsKept` | src/seccomp/policy/DefaultPolicy.cc:104-115 | so does that of memory management |
| `PolicyPromises.InformationIsKept` | src/seccomp/policy/DefaultPolicy.cc:117-140 | that of system information, with clocks failing under a randomized time and prctl only for 15 |
| `PolicyPromises.FilesAreKept` | src/seccomp/policy/DefaultPolicy.cc:188-264 | that of the file system, with close from descriptor 3 on |
| `PolicyPromises.TransfersAreKept` | src/seccomp/policy/DefaultPolicy.cc:142-186 | that of input and output, with writes to descriptors above 0, dup2 to 3 and above, and seeking refused below 3 |
| `PolicyPromises.RequestsAreKept` | src/limits/MemoryLimitListener.cc:42-78 | that of the memory limit: mappings without address and remappings of more than 4 MiB are asked about |
| `PolicyPromises.ThreadsAreKept` | src/limits/ThreadsLimitListener.cc:20-53 | that of the threads limit: processes killed, clone permitted exactly if threads are allowed and bit 8 of argument 2 is set, clone3 failed with 38 or killed |
| `PolicyPromises.CloneFilters` | src/limits/ThreadsLimitListener.cc:35-42 | on either architecture the filter of the rule that allows clone matches, for the tracer and in the kernel, exactly if bit 8 of argument 2 is set, and that of the rule that kills exactly if not |
| `PolicyPromises.ForkIsSaid` | src/limits/ThreadsLimitListener.cc:20-23 | of all policies together: fork is killed |
| `PolicyPromises.CloneIsSaid` | src/limits/ThreadsLimitListener.cc:25-42 | clone is permitted exactly for a thread under a threads limit, and killed otherwise |
| `PolicyPromises.KillIsSaid` | src/seccomp/policy/DefaultPolicy.cc:66-81 | the signal sent by kill is looked at |
| `PolicyPromises.MmapIsSaid` | src/limits/MemoryLimitListener.cc:42-54 | a large mapping is asked about although mappings are permitted |
| `PolicyPromises.OpenIsSaid` | src/seccomp/policy/DefaultPolicy.cc:223-232 | open is permitted whatever its access mode |
| `PolicyPromises.WriteIsSaid` | src/seccomp/policy/DefaultPolicy.cc:144-147 | write is permitted exactly to descriptors above 0 |
| `PolicyDecisions.DecidedAsSaid` | src/seccomp/SeccompListener.cc:145-166 | a call whose number one name has is decided as the strongest entry of that name says, KILL if none does |
| `PolicyDecisions.KilledIfSilent` | src/seccomp/policy/DefaultPolicy.cc:14-15 | a call about which nothing is said under any name with its number is killed |
| `Policies.TracedMappings` | src/limits/MemoryLimitListener.cc:42-54 | the filter of the mapping rules matches exactly the requests the memory limit counts as traced |
| `Policies.TracedRemappings` | src/limits/MemoryLimitListener.cc:55-78 | so does the filter of the remapping rule |
| `Policies.RequestDecision` | src/limits/MemoryLimitListener.cc:42-78 | although the default policy allows these syscalls, the decision on one is to run the memory limit's handler if and only if its request is traced, and to permit it otherwise |
| `Policies.EnforceRequest` | src/limits/MemoryLimitListener.cc:42-100 | under the compiled policies such a call is answered KILL exactly if it is traced and exceeds the limit, and then MLE is offered to the record, not RV |
| `Policies.EnforceRefused` | src/limits/MemoryLimitListener.cc:134-156 | a request the address space limit refuses, and the tracee's next event, end in KILL and MLE under the compiled policies |
| `Policies.RunRefused` | src/seccomp/policy/DefaultPolicy.cc:14-102 | so it is under the default policy with the limits' rules, from an empty record, for mmap, mmap2 and mremap whatever their numbers, as long as the syscall shares its own with none |
| `Policies.GuardedDecision` | src/seccomp/policy/DefaultPolicy.cc:56-64 | with a guarded syscall, the decision is to run the guarding handler exactly for its calls |
| `Policies.ExecuteCalls` | src/seccomp/policy/DefaultPolicy.cc:56-64 | over any run, the first call of a guarded syscall is answered CONTINUE and every later one KILL, and each call is answered and recorded as its decision has it, on one record |
| `Policies.RunDefaultPolicy` | src/seccomp/policy/DefaultPolicy.cc:14-102 | over any run under the default policy with the limits' rules embedded, every call is decided, answered and recorded as is said of the name with its number: permitted, failed, killed with RV, let through unless it sends 9, 19 or 26, or killed with MLE if the request exceeds the limit; a call about which nothing is said is killed with RV; execve goes through once |
| `SupervisedPolicy.SuperviseCall` | src/tracer/TraceExecutor.cc:106-115 | a call that the filter hands to the tracer takes the machine's step: after the memory limit's check, the seccomp listener with the handler it runs and the signal of a KILL, record and peak are those of the machine told the seccomp listener's answer |
| `SupervisedPolicy.KillEndsRun` | src/seccomp/SeccompListener.cc:170-176 | in any run, a call that is answered KILL on a record without a reason ends it with the listener's reason and status code, or MLE if the peak was over the limit already, whatever follows |
| `SupervisedPolicy.SuperviseExecves` | src/seccomp/policy/DefaultPolicy.cc:56-64 | so the second execve under the default policy, and any later one, ends the run with RV |
| `SupervisedPolicy.SuperviseRequest` | src/limits/MemoryLimitListener.cc:42-100 | and a traced request for memory over the limit ends it with MLE |
| `ResultRecord.CodeZeroIffOk` | src/printer/OITimeToolOutputBuilder.cc:22-52 | of the records a uint32_t can hold, status code 0, the text "ok" and the reported "OK" coincide for all but one, an exit status of 2^32 - 200, which no run records (`SupervisionRuns.CodeIsFaithful`) |
| `ResultRecord.CodeNumbers` | src/printer/OITimeToolOutputBuilder.cc:22-52 | the code, the text and the reported reason of each kind of verdict: 100, 120, 121, 124 and 125 for the reasons, the signal, or 200 and the status |
| `ResultRecord.OIModelOutputBuilder.SetExitStatus` | src/printer/OIModelOutputBuilder.cc:42-47 | the first nonzero status stays |
| `ResultRecord.OIModelOutputBuilder.SetKillSignal` | src/printer/OIModelOutputBuilder.cc:49-55 | the first signal stays, and sets the status that goes with it if there is none |
| `ResultRecord.OIModelOutputBuilder.SetKillReason` | src/printer/OIModelOutputBuilder.cc:57-67 | the first reason stays |
| `ProcessInfo.ProcessInfo.Destroy` | src/tracer/ProcessInfo.cc:28-30 | destroying a node takes exactly its subtree out of the shared index, and leaves no pointer to it |
| `ProcessInfo.ProcessInfo.MakeProcessInfo` | src/tracer/ProcessInfo.cc:17-26 | the node is indexed; if the pid is taken the assertion fails and the old entry is gone |
| `ProcessInfo.ProcessInfo.AddChild` | src/tracer/ProcessInfo.cc:32-37 | index and tree stay in agreement if and only if the pid is new |
| `ProcessInfo.ProcessInfo.DelChild` | src/tracer/ProcessInfo.cc:39-43 | exactly the child's subtree leaves the index, and index and tree agree again |
| `ProcessInfo.ProcessInfo.GetProcess` | src/tracer/ProcessInfo.h:40-51 | an expired entry is erased; while index and tree agree the pid's one node is returned and nothing is erased |
| `ProcessInfo.TakenPidBreaks` | src/tracer/ProcessInfo.cc:20-23 | an erased entry of a node that stays breaks the agreement |
| `ProcessInfo.ReachableIsIndexed` | src/tracer/ProcessInfo.h:53-57 | every node reached from the root through children is in the index under its pid |
| `ProcessInfo.IndexedIsReachable` | src/tracer/ProcessInfo.h:53-57 | every node of the index is reached from the root |
| `ProcessInfo.WithoutIsPrune` | src/tracer/ProcessInfo.cc:39-43 | seen as parent links, dropping a subtree removes the links of all that climb to its top |
| `MemoryLimit.RefusalsAreAttributed` | src/limits/MemoryLimitListener.cc:29-78 | a mapping without address or a growing remapping that the address space limit refuses is traced and over the limit, or the peak is over it already, KiB and page rounding included |
| `MemoryLimit.KillsIff` | src/limits/MemoryLimitListener.cc:42-100 | in bytes: a request is killed exactly after exec, under a limit, when it grows the size, or keeps the old pages, and takes it to a whole KiB over the limit |
| `MemoryLimit.AttributedIff` | src/limits/MemoryLimitListener.cc:105-112 | it is so for all requests if and only if the limit with its margin fits in 64 bits |
| `MemoryLimit.HintedMappingsEscape` | src/limits/MemoryLimitListener.cc:53-53 | for a limit that fits with its margin: the mappings at an address that the kernel refuses are all on the limit's account if and only if the address is none |
| `MemoryLimit.MemoryLimitListener.HandleMemoryAllocation` | src/limits/MemoryLimitListener.cc:80-100 | KILL and MLE exactly for a positive limit exceeded; the peak becomes the larger of itself and the usage |
| `MemoryLimit.MemoryLimitListener.OnRequest` | src/limits/MemoryLimitListener.cc:42-79 | the traced handlers answer KILL exactly after exec, for what does not shrink, when size and request exceed the limit; the peak and the record follow from it; the subtraction does not underflow |
| `MemoryLimit.MemoryLimitListener.OnExecuteEvent` | src/limits/MemoryLimitListener.cc:134-156 | the peak check takes the machine's step |
| `ThreadsLimit.ThreadsLimitListener.OnPostClone` | src/limits/ThreadsLimitListener.cc:56-85 | the check on clone takes the machine's step |
| `ThreadsLimit.ThreadsLimitListener.OnExecuteEvent` | src/limits/ThreadsLimitListener.cc:87-102 | an ended task is dropped as the machine does |
| `SupervisionRuns.ReachableIsValid` | src/executor/Executor.cc:109-206 | every state of every run keeps the invariant: pids, event in hand, stops, threads, verdict, dead root |
| `SupervisionRuns.StopsAreNoticed` | src/tracer/TraceExecutor.cc:60-122 | an indexed stopped task has its stop still to be reported, and no running task was ever resumed |
| `SupervisionRuns.HandledStopIsResumed` | src/tracer/TraceExecutor.cc:106-115 | a handled stop resumes its tracee and the child it brought in, unless they were killed |
| `SupervisionRuns.ThreadsAreAccounted` | src/limits/ThreadsLimitListener.cc:56-102 | the tracked threads are those accepted and not reported ended, cover the tree but for the root, and exceed the limit only after a KILL |
| `SupervisionRuns.VerdictIsCoherent` | src/executor/Executor.cc:166-198 | a recorded signal shows in the status; after a KILL the verdict is not OK and the root runs no more |
| `SupervisionRuns.CodeIsFaithful` | src/printer/OITimeToolOutputBuilder.cc:22-52 | in every run the status code is 0 exactly when the text is ok, it is not 0 once KILL was answered, and each reason has its number |
| `SupervisionRuns.FirstWriterWins` | src/printer/OIModelOutputBuilder.cc:42-67 | whatever follows, the reason, signal and status recorded first stay |
| `SupervisionRuns.OriginalSignalSurvives` | src/tracer/TraceExecutor.cc:214-232 | a signal 1 to 30 that is no trap, not suppressed, not caught and none of 17, 18, 19, 23 and 28, when it is the first recorded, is in the final record with status 128 and the signal, whatever kills follow |
| `SupervisionRuns.FailsOnlyIf` | src/tracer/TraceExecutor.cc:137-169 | where the system calls of the handlers succeed, the supervisor fails on an event only if a trace listener does or the tracee died in its clone call; the assertions on pids and thread support hold in every run |
| `SupervisionVerdicts.EventIsRecordedAs` | src/tracer/TraceExecutor.cc:60-122 | in every run an event is answered KILL if and only if it has one of six causes, stated in numbers, and leaves the reason of the first cause there is and the tracee's own signal, or 9, where none was on record |
| `SupervisionVerdicts.KillReaches` | src/tracer/TraceExecutor.cc:245-281 | a KILL ends the root; one of a trace listener, a signal or a clone the tracee too, and a child that is one too many |
| `SupervisionVerdicts.SignalCheckKills` | src/executor/Executor.cc:118-125 | a KILL of a signal listener is recorded with its reason and 9, and ends the root |
| `SupervisionVerdicts.UncaughtSignalKills` | src/tracer/TraceExecutor.cc:217-233 | a signal that is not suppressed, caught or ignored, and no trap, kills and is recorded |
| `SupervisionVerdicts.OtherSignalsGoOn` | src/tracer/TraceExecutor.cc:200-243 | without another cause any other signal kills nothing and is not recorded |
| `SupervisionVerdicts.InjectedIs` | src/tracer/TraceExecutor.cc:213-242 | the signal a tracee is resumed with: 9 for one that kills, none for a trap or a suppressed one, else its own |
| `SupervisionVerdicts.PeakIsValidUpto` | src/tracer/TraceExecutor.cc:89-92 | over any run, the peak is valid if and only if the exec event of a task of the tree was handled |
| `SupervisionVerdicts.LimitIsInForceIff` | src/limits/MemoryLimitListener.cc:127-156 | from that event on, and not before, an event that reads a peak over a positive limit is answered KILL, with MLE if nothing is on record |
| `SupervisionVerdicts.NoExcessNoMemoryReason` | src/limits/MemoryLimitListener.cc:134-156 | without an excess nothing is recorded for memory but what a trace listener reports |
| `SupervisionVerdicts.PeakGrows` | src/limits/MemoryLimitListener.cc:80-100 | after exec the peak becomes the largest of itself, what is read, and what the memory limit's handler comes to |
| `SupervisionVerdicts.RootEndIsRecorded` | src/executor/Executor.cc:170-179 | with no signal on record, the root's exit status or signal is what is recorded at its end |
| `SupervisionVerdicts.FinishedIsOkIff` | src/executor/Executor.cc:170-206 | a finished run is ok if and only if the root exited with 0 and neither reason nor signal is on record; with another status, and neither, the verdict is that status and its code 200 more |
| `SupervisionProgress.ServedIff` | src/tracer/TraceExecutor.cc:60-122 | from a state in which every live task is in the tree or awaited, while nothing is killed, a step leads to such a state, and to one in which no live task is lost, exactly if it is orderly |
| `SupervisionProgress.RunIff` | src/tracer/TraceExecutor.cc:60-122 | while nothing is killed, every step of a run is orderly if and only if at no point of it a task that still existed was lost: no early clone event, no kill in a clone call whose child is there, no end before that of a task below |
| `SupervisionProgress.NoTaskIsStranded` | src/tracer/TraceExecutor.cc:66-84 | in an orderly run, while nothing is killed, every stopped task is still to be reported or its clone event is, whichever comes first |
| `SupervisionProgress.LostStaysLost` | src/tracer/TraceExecutor.cc:66-84 | whatever follows, a task outside the tree that no clone event is to bring in stays so; and if it does not run then it never runs again |
| `SupervisionProgress.EarlyCloneEventStrands` | src/tracer/TraceExecutor.cc:150-167 | a clone event handled before the child has stopped loses it, and it never runs |
| `SupervisionProgress.KilledCreatorStrands` | src/tracer/TraceExecutor.cc:66-84 | the kill of a creator in its clone call loses the child, in whatever state it is |
| `SupervisionProgress.EndedCreatorStrands` | src/tracer/TraceExecutor.cc:98-104 | when the end of a task is handled, all below it in the tree are lost, in whatever state they are |
| `SupervisionProgress.NextStopStrands` | src/tracer/TraceExecutor.cc:66-84 | a lost task that runs on never runs again after its next stop |
| `SupervisionProgress.EarlyCloneEventHappens` | src/tracer/TraceExecutor.cc:150-167 | under any limits that allow threads a run loses a task by an early clone event |
| `SupervisionProgress.KilledCreatorHappens` | src/tracer/TraceExecutor.cc:66-84 | with a thread allowed a run loses a task by the kill of a thread in its clone call |
| `SupervisionProgress.EndedCreatorHappens` | src/tracer/TraceExecutor.cc:98-104 | with two threads allowed a run loses a thread by the end of the one that made it |
| `TraceExecutor.TraceExecutor.Adopt` | src/tracer/TraceExecutor.cc:169-169 | the child joins the tree, and its link the links, exactly if its pid is not known yet |
| `TraceExecutor.TraceExecutor.OnEventClone` | src/tracer/TraceExecutor.cc:137-198 | on the heap tree, the listeners and the record it takes the machine's step |
| `TraceExecutor.TraceExecutor.HandleTraceeSignal` | src/tracer/TraceExecutor.cc:200-243 | KILL, with the signal recorded, exactly for a signal that kills, and the signal to inject; which these are in numbers is `SupervisionVerdicts.EventIsRecordedAs` and `InjectedIs` |
| `TraceExecutor.TraceExecutor.ContinueTracee` | src/tracer/TraceExecutor.cc:245-281 | kills the root and the tracee first on KILL, then resumes |
| `TraceExecutor.TraceExecutor.OnExecuteEvent` | src/tracer/TraceExecutor.cc:60-122 | the whole handler, with the exec event that makes the peak valid and the peak a listener raises, takes the machine's step and keeps index and tree in agreement |
| `Executor.OutputLimitListener.OnExecuteEvent` | src/limits/OutputLimitListener.cc:47-60 | the output check takes the machine's step |
| `Executor.Executor.CheckSignals` | src/executor/Executor.cc:118-125 | the signal check with its kill takes the machine's step |
| `Executor.Executor.KillChild` | src/executor/Executor.cc:251-262 | records SIGKILL and kills the root |
| `Executor.Executor.FinishEvent` | src/executor/Executor.cc:170-198 | after the listeners the loop ends, reaps and kills as the machine does; what that records is `SupervisionVerdicts.RootEndIsRecorded` |
| `Executor.Executor.OnEvent` | src/executor/Executor.cc:166-198 | the loop body from the wait's answer on takes the machine's step |
| `Executor.Executor.ExecuteParent` | src/executor/Executor.cc:109-206 | for any rounds of the world the loop makes a run of the machine |
| `Executor.Execute` | src/executor/Executor.cc:50-64 | so a finished run ends with a coherent record, not OK after a KILL, and balanced threads |
| `TimeLimit.TimeLimitListener.OnPostForkParent` | src/limits/TimeLimitListener.cc:44-86 | the timer is armed exactly if some limit counts, for the least of them, in valid seconds and nanoseconds, and every 200 ms after |
| `TimeLimit.TimeLimitListener.VerifyTimeUsage` | src/limits/TimeLimitListener.cc:105-136 | KILL and TLE exactly if a limit is exceeded |
| `TimeLimit.SingleLimits` | src/limits/TimeLimitListener.cc:105-136 | each limit alone is exceeded exactly by the time it is named for, the last by the sum of user and system time, and together they are when one of them is |
| `TimeLimit.TimeLimitListener.OnSigalrmSignal` | src/limits/TimeLimitListener.cc:88-94 | the same, if a timer was armed |
| `TimeLimit.TimeLimitListener.OnPostExecute` | src/limits/TimeLimitListener.cc:96-103 | an exceeded limit is recorded at the end too |
| `TimeLimit.UncountedIsNeverExceeded` | src/limits/TimeLimitListener.cc:49-63 | where no timer is armed no usage exceeds anything |
| `SignalLoop.NoSignalIsLost` | src/executor/Executor.cc:225-243 | with handlers between any two steps, for each arrival of SIGIO or SIGALRM, wherever it comes and whatever comes after it: once the loop has tested the flag since and is through its checks a listener call has started after that arrival, and until one has the flag is up or the call is the next step |
| `SignalLoop.RealTimeLimitIsKept` | src/executor/Executor.cc:118-144 | under an ideal timer, armed as the time limit's listener arms it for any limits, a real time limit is answered with KILL by two intervals after it |
| `SignalLoop.BoundIsReached` | src/executor/Executor.cc:127-136 | for every limit some run reaches that time |
| `PerfConfig.FieldExistsIff` | src/perf/PerfListener.cc:91-102 | the number found for a name indexes the three fields exactly if the name is not "config3" |
| `PerfConfig.FieldNumbers` | src/perf/PerfListener.cc:92-98 | "config" and "config0" are field 0, "config1" to "config3" fields 1 to 3, and every other name is none |
| `PerfFormat.ParseFormat` | src/perf/PerfListener.cc:108-119 | what is read from a text is what it says up to the first range that is none, completely exactly if the text is a format, and nothing is read exactly if its halves are not two |
| `PerfFormat.ReadingIsUnique` | src/perf/PerfListener.cc:104-119 | a text reads as one field and one list of ranges at most, complete or not |
| `PerfFormat.FormatIsUnique` | src/perf/PerfListener.cc:104-107 | a text says one field and one list of ranges at most |
| `PerfFormat.ShownFormatIsRead` | src/perf/PerfListener.cc:104-107 | every field name and list of ranges can be said, with "-", "," and ":" between decimal numbers |
| `PerfFormat.InsertIntoConfig` | src/perf/PerfListener.cc:103-126 | it succeeds exactly if the text is a format of a field there is and the value fits its ordered ranges; whether it succeeds or not, exactly the scattered bits of the ranges read in order are set in that field and nothing else changes |
| `PerfConfig.InsertIntoConfig` | src/perf/PerfListener.cc:112-125 | the loop over the ranges: exactly the scattered bits of the ranges up to the first out of order are set and no others changed; the assertions hold exactly for ordered ranges and a value below 2 to the sum of their widths |
| `PerfConfig.GatherInverse` | src/perf/PerfListener.cc:112-124 | reading disjoint ranges back in order undoes scattering |
| `PerfConfig.InsertedReadsBack` | src/perf/PerfListener.cc:103-126 | over disjoint ranges of zero bits, what was inserted reads back as the value and all other bits are unchanged |
| `PerfLimit.PerfListener.GetInstructionsUsed` | src/perf/PerfListener.cc:245-266 | the counters' sum in 64 bits, or the exception exactly if one is negative |
| `PerfLimit.PerfListener.OnSigioSignal` | src/perf/PerfListener.cc:274-289 | KILL and TLE exactly from the limit on |
| `PerfLimit.OvershootIsBounded` | src/perf/PerfListener.cc:190-193 | after a CONTINUE the next check sees less than the limit and a period for each task that ran in between, whatever tasks end and appear |
| `PerfLimit.OvershootUnderThreadsLimit` | src/limits/ThreadsLimitListener.cc:69-82 | when no more tasks than the root and the threads allowed went on from one check, the next sees less than the limit and a period for each of those and for each task that has appeared since |
| `PerfLimit.ShareIsEnoughIff` | src/perf/PerfListener.cc:190-193 | the overshoot of a number of tasks is always below one oversampling share of the limit if and only if their periods together fit in that share |
| `PerfLimit.SharesOfTheFactor` | src/s2japp/Application.cc:81-87 | so it is, without wrap-around, for as many tasks as the factor counts |
| `PerfLimit.OneTaskTooMany` | src/s2japp/Application.cc:81-87 | with one thread allowed beside the root two tasks can overshoot by more than a share |
| `PerfLimit.SamplesIff` | src/perf/PerfListener.cc:40-44 | there is a sampling period exactly if the limit is no less than the factor |
| `PerfLimit.FirstKillIsInTime` | src/s2japp/Application.cc:81-87 | over a run of checks that answered CONTINUE by their 64-bit sums, the first included: unless a sum can wrap around within these periods of the limit none did, and the check that first finds the limit reached finds it overshot by less than a period for each task that ran since the last |
| `Split.Split` | src/common/Utils.cc:21-35 | the tokens are a split of the string: pieces each ended by the first delimiter found, and perhaps a last one that is not empty and holds none |
| `Split.SplitIsUnique` | src/common/Utils.cc:21-35 | a string has only one split |
| `Split.SplitThenJoin` | src/common/Utils.cc:21-35 | the tokens joined are the string up to one dropped trailing delimiter, and none contains the delimiter |
| `Split.JoinThenSplitIff` | src/common/Utils.cc:21-35 | joining and splitting gives tokens back exactly if each but the last is ended by the delimiter after it and the last is not empty and holds none |
| `Split.JoinThenSplit` | src/common/Utils.cc:21-35 | it does for a one-character delimiter no token contains, with a last token that is not empty |
| `Split.EmptyDelimiterStays` | src/common/Utils.cc:27-30 | with an empty delimiter the loop stands where it stood after any number of turns, and goes on |
| `Split.OtherDelimitersEnd` | src/common/Utils.cc:27-30 | with any other it is over after one turn more than there are characters left |

## Left out

- `SeccompListener.SeccompListener.OnTraceEvent`: requires what the kernel guarantees of a message (0, or one that was emitted) and at most 8191 groups; looking a syscall's name up for the log, which can throw, is not part of it.
- `SeccompContext.Builder.AddRule`: libseccomp is an ordered list of rules per architecture; that it can reject two comparisons of one argument, and how it translates syscall numbers and merges contexts, is not modelled.
- `Policies.RequestDecision`: reads the arguments of every request from registers, as the source's filter and handler do; the old i386 `mmap` passes its arguments in memory, so that on X86 what is said of mappings is about mmap2 only.
- `Policies.RunDefaultPolicy`: of a call whose number several names share it says what becomes of it only if nothing is said under any of them.
- `MemoryLimit.RefusalsAreAttributed`: the address space is the same when the handler looks and when the kernel decides; another thread that grows it in between is not modelled.
- `SupervisionRuns.FailsOnlyIf`: the handlers' other system calls (reading procfs, kill, waitid, ptrace with errors the source does not tolerate) do not fail in the model.
- `TraceExecutor.TraceExecutor.HandleTraceeSignal`: the mask test for signals above 30, which the source makes with a 32-bit shift, has an arbitrary outcome.
- `TraceExecutor.TraceExecutor.ContinueTracee`: what the injected signal does to the resumed task is the tasks' own later step, not a consequence of the injection.
- `ProcessInfo.ProcessInfo.DelChild`: the source holds the node until its handler returns; here it goes at once.
- `PerfFormat.InsertIntoConfig`: requires texts for which the source's shifts (end at most 63, width at most 63) and its array access (not "config3") are defined.
- `PerfConfig.InsertIntoConfig`: requires ranges for which the shifts are defined.
- `PerfFormat.ParseFormat`: numbers are texts without blanks and signs, as the file is read word by word; the event string with its hexadecimal numbers (src/perf/PerfListener.cc:157-173) is not modelled.
- `SignalLoop.RealTimeLimitIsKept`: for an ideal timer and a loop in which only the wait takes time.
- Handling an event is one step of the machine: tasks do not change between the system calls the listeners make for one event.
- Pids are not reused within a run; the stop of a traced task always arrives as CLD_TRAPPED.
- `SupervisedPolicy.SuperviseCall`: takes one event of a run; over the loop of `Executor.ExecuteParent` the trace listeners' answers are parameters of the rounds.
- RDTSC emulation and the set of caught signals are parameters of the machine's events, as are VmPeak, VmSize, counters and clocks.
- Comments of kill reasons, memory and time figures of the report, and the formatting of the reports.
- Real ptrace, waitid, perf_event_open, prctl and procfs calls, the file system side of perf configuration, and BPF generation.
- Namespaces, mounts, privileges, file descriptors, the logger, command line parsing and unit suffixes: no deep property.
