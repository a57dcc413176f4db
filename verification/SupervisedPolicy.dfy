/** The seccomp listener at work in the supervisor: what its answers make of a run. */
module SupervisedPolicy {
  import opened Common
  import opened Tracees
  import opened Supervision
  import opened SupervisionRuns
  import opened SyscallFilter
  import opened SeccompRule
  import opened SeccompContext
  import opened SeccompListener
  import opened StagedEnforcement
  import opened PolicyTables
  import opened PolicyDecisions
  import opened Policies
  import M = MemoryLimit
  import R = ResultRecord

  /** A stop in the tree for a syscall that the loaded filter hands to the tracer. */
  predicate AtCall(w: World) {
    && w.phase.Handling? && w.phase.event.kind == Trapped(SECCOMP_TRAP) && Indexed(w.c, w.s, w.phase.event.pid)
  }

  // ------------------------------------------------------------------ a run after a KILL

  /** The memory limit lets the event pass. */
  predicate WithinLimit(w: World, o: Oracle) {
    !MemoryOnEvent(w.c, w.s, o).1
  }

  /** What a call that is answered KILL for a reason leaves on a record that has none: that reason, unless the peak is over
      the memory limit already. */
  lemma ReasonAtCall(w: World, o: Oracle)
    requires AtCall(w) && InHand(w.c, w.s.kernel, w.phase.event) && w.s.verdict.reason == R.NONE && o.trace.KillFor?
    ensures Handled(w, o).killed
    ensures Handled(w, o).s.verdict.reason == if WithinLimit(w, o) then o.trace.reason else R.MLE
  {}

  /** Whatever follows, the run ends with this reason and its code. */
  ghost predicate EndsWith(w: World, reason: R.KillReason) {
    forall rest :: var v := Exec(w, rest);
      && v.killed && v.s.verdict.reason == reason && !v.s.verdict.Text().Ok?
      && v.s.verdict.Code() == R.Verdict(reason, 0, 0).Code()
  }

  lemma {:induction false} KilledStays(w: World, rest: seq<Step>)
    requires w.killed
    ensures Exec(w, rest).killed
    decreases |rest|
  {
    if rest != [] {
      KilledStays(Next(w, rest[0]), rest[1..]);
    }
  }

  lemma KilledEndsWith(v: World)
    requires ValidWorld(v) && v.killed && v.s.verdict.reason != R.NONE
    ensures EndsWith(v, v.s.verdict.reason)
  {
    forall rest ensures Exec(v, rest).killed && Exec(v, rest).s.verdict.reason == v.s.verdict.reason {
      KilledStays(v, rest);
      ExecIsValid(v, rest);
    }
  }

  /** A call that is answered KILL ends the run with the listener's reason. */
  lemma KillEndsRun(w: World, o: Oracle)
    requires Reachable(w) && AtCall(w) && w.s.verdict.reason == R.NONE && o.trace.KillFor?
    ensures EndsWith(Next(w, Handle(o)), if WithinLimit(w, o) then o.trace.reason else R.MLE)
  {
    ReachableIsValid(w);
    ReasonAtCall(w, o);
    NextIsValid(w, Handle(o));
    KilledEndsWith(Handled(w, o));
  }

  // ------------------------------------------------------------------ one call, on the objects

  /** The memory limit's listener and the record are in the state the world is in. */
  ghost predicate Mirrors(memory: M.MemoryLimitListener, w: World)
    reads memory, memory.out
  {
    && memory.memoryLimitKb == w.c.memoryLimitKb && memory.memoryPeakKb == w.s.peakKb
    && memory.vmPeakValid == w.s.peakValid && memory.out.verdict == w.s.verdict
  }

  /** What the machine is told of a call: the seccomp listener's answer and the size the memory limit's handler came to. */
  function Told(o: Oracle, answer: TraceAction, own: R.KillReason, reachedKb: nat): Oracle {
    o.(trace := AsTraceAnswer(Some(answer), own), reachedKb := reachedKb)
  }

  /** The record after a call: the handler's reason, RV and the signal of a KILL, after what was there. */
  function CallRecord(v: R.Verdict, answer: TraceAction, own: R.KillReason, otherKill: bool): R.Verdict {
    var record := AfterHandler(v, answer, own);
    if otherKill || answer == Kill then record.WithSignal(SIGKILL) else record
  }

  lemma LimitsAtCall(c: Config, s: Sandbox, e: Event, o: Oracle)
    requires e.kind == Trapped(SECCOMP_TRAP)
    ensures LimitsOnEvent(c, s, e, o) == MemoryOnEvent(c, s, o)
  {}

  lemma TraceAtCall(c: Config, s: Sandbox, e: Event, o: Oracle)
    requires e.kind == Trapped(SECCOMP_TRAP) && Indexed(c, s, e.pid) && s.kernel.Exists(e.pid) && !o.trace.Fail?
    ensures var r, heard := TraceOnEvent(c, s, e, o), Heard(s, o);
      && !r.failed && r.kill == o.trace.KillFor? && r.state.peakKb == heard.peakKb && r.state.peakValid == s.peakValid
      && r.state.verdict == if r.kill then heard.verdict.WithSignal(SIGKILL) else heard.verdict
  {}

  lemma EventAtCall(c: Config, s: Sandbox, e: Event, o: Oracle, carried: bool)
    requires e.kind == Trapped(SECCOMP_TRAP) && Indexed(c, s, e.pid) && s.kernel.Exists(e.pid) && !o.trace.Fail?
    ensures var (t, kill) := MemoryOnEvent(c, s, o);
      var heard, v := Heard(t, o), OnEvent(c, s, e, o, carried).state;
      && v.peakKb == heard.peakKb && v.peakValid == s.peakValid
      && v.verdict == if kill || carried || o.trace.KillFor? then heard.verdict.WithSignal(SIGKILL) else heard.verdict
  {
    LimitsAtCall(c, s, e, o);
    TraceAtCall(c, MemoryOnEvent(c, s, o).0, e, o);
  }

  /** How the record and the peak come out of a call in the machine. */
  lemma CallIsStep(w: World, o: Oracle, answer: TraceAction, own: R.KillReason, reachedKb: nat)
    requires AtCall(w) && InHand(w.c, w.s.kernel, w.phase.event) && (own != R.NONE ==> answer == Kill)
    requires reachedKb > 0 ==> w.s.peakValid
    ensures var (t, kill) := MemoryOnEvent(w.c, w.s, o);
      var v := Next(w, Handle(Told(o, answer, own, reachedKb)));
      && v.c == w.c && v.s.peakValid == w.s.peakValid && v.s.peakKb == Max(t.peakKb, reachedKb)
      && v.s.verdict == CallRecord(t.verdict, answer, own, kill || w.phase.carried)
  {
    EventAtCall(w.c, w.s, w.phase.event, Told(o, answer, own, reachedKb), w.phase.carried);
  }

  /** The listeners, asked in their order. */
  method AskInOrder(listener: SeccompListener, call: Call, memory: M.MemoryLimitListener, used: nat, vmPeakKb: nat,
                    carried: bool, ghost c: Config, ghost s: Sandbox, ghost o: Oracle)
    returns (decision: Decision, answer: TraceAction)
    requires listener.Valid() && listener.context.Some? && |listener.order| <= MAX_GROUPS
    requires AttendedAndSound(listener.inserted, call) && Matched(listener.inserted, call)
    requires c.memoryLimitKb == memory.memoryLimitKb && s.peakKb == memory.memoryPeakKb
    requires s.peakValid == memory.vmPeakValid && s.verdict == memory.out.verdict && o.vmPeakKb == vmPeakKb
    modifies listener`lastSyscallArch, memory, memory.out, listener.actions`executed
    ensures listener.Valid() && memory.vmPeakValid == old(memory.vmPeakValid)
    ensures decision == Reference(listener.inserted, listener.basePolicy.defaultAction, call) != Unhandled
    ensures answer == DecisionAnswer(decision, old(HadRun(decision)), call, old(memory.Sees(used)))
    ensures var (t, kill) := MemoryOnEvent(c, s, o);
      && memory.memoryPeakKb == Max(t.peakKb, DecisionReached(decision, call, old(memory.Sees(used))))
      && memory.out.verdict ==
         CallRecord(t.verdict, answer, DecisionReason(decision, call, old(memory.Sees(used))), kill || carried)
  {
    var overPeak := memory.OnExecuteEvent(vmPeakKb, c, s, o);
    ghost var seen;
    decision, answer, seen := Enforce(listener, call, memory, used);
    if overPeak || answer == Kill || carried {
      memory.out.SetKillSignal(SIGKILL);
    }
  }

  lemma ReasonMeansKill(d: Decision, executed: bool, call: Call, view: M.View)
    ensures DecisionReason(d, call, view) != R.NONE ==> DecisionAnswer(d, executed, call, view) == Kill
    ensures DecisionReached(d, call, view) > 0 ==> view.peakValid
  {}

  /** A call that the filter hands to the tracer, in the supervisor: the memory limit's check, the seccomp listener with the
      handler it runs, and the signal of a KILL leave the record and the peak as the machine's step does, the seccomp
      listener's answer being the trace listeners' one. */
  method SuperviseCall(listener: SeccompListener, call: Call, memory: M.MemoryLimitListener, used: nat, vmPeakKb: nat,
                       carried: bool, ghost w: World, ghost o: Oracle)
    returns (decision: Decision, answer: TraceAction, ghost told: Oracle)
    requires listener.Valid() && listener.context.Some? && |listener.order| <= MAX_GROUPS
    requires AttendedAndSound(listener.inserted, call) && Matched(listener.inserted, call)
    requires KernelDecide(listener.context.value[call.arch], call).KernelTrace?
    requires ValidWorld(w) && AtCall(w) && Mirrors(memory, w) && o.vmPeakKb == vmPeakKb && carried == w.phase.carried
    modifies listener`lastSyscallArch, memory, memory.out, listener.actions`executed
    ensures listener.Valid()
    ensures decision == Reference(listener.inserted, listener.basePolicy.defaultAction, call) != Unhandled
    ensures answer == DecisionAnswer(decision, old(HadRun(decision)), call, old(memory.Sees(used)))
    ensures told == Told(o, answer, DecisionReason(decision, call, old(memory.Sees(used))),
                         DecisionReached(decision, call, old(memory.Sees(used))))
    ensures Mirrors(memory, Next(w, Handle(told)))
  {
    ghost var view := memory.Sees(used);
    decision, answer := AskInOrder(listener, call, memory, used, vmPeakKb, carried, w.c, w.s, o);
    ReasonMeansKill(decision, old(HadRun(decision)), call, view);
    told := Told(o, answer, DecisionReason(decision, call, view), DecisionReached(decision, call, view));
    CallIsStep(w, o, answer, DecisionReason(decision, call, view), DecisionReached(decision, call, view));
  }

  // ------------------------------------------------------------------ the default policy

  /** What a later guarded call makes of any run it is made in. */
  ghost predicate EndsRuns(answer: TraceAction, reason: R.KillReason) {
    forall w: World, o: Oracle | Reachable(w) && AtCall(w) && w.s.verdict.reason == R.NONE ::
      EndsWith(Next(w, Handle(Told(o, answer, R.NONE, 0))), if WithinLimit(w, o) then reason else R.MLE)
  }

  lemma KillEndsRuns()
    ensures EndsRuns(Kill, R.RV)
  {
    forall w: World, o: Oracle | Reachable(w) && AtCall(w) && w.s.verdict.reason == R.NONE
      ensures EndsWith(Next(w, Handle(Told(o, Kill, R.NONE, 0))), if WithinLimit(w, o) then R.RV else R.MLE)
    {
      KillEndsRun(w, Told(o, Kill, R.NONE, 0));
      assert WithinLimit(w, Told(o, Kill, R.NONE, 0)) == WithinLimit(w, o);
    }
  }

  /** Under the default policy with the limits' rules, the second execve, and each after it, ends the run with RV, if the
      peak is within the memory limit and nothing was recorded before. */
  method SuperviseExecves(randomizeTime: bool, threadsLimit: int, resolve: SyscallName -> int, calls: seq<Call>,
                          memory: M.MemoryLimitListener, used: seq<nat>)
    returns (answers: seq<TraceAction>)
    requires OwnNumber(resolve, execve) && |used| == |calls|
    modifies memory, memory.out
    ensures |answers| == |calls|
    ensures forall i, j | 0 <= i < j < |calls| && calls[i].syscall == resolve(execve) == calls[j].syscall ::
      EndsRuns(answers[j], R.RV)
  {
    ghost var turns;
    answers, turns := RunDefaultPolicy(randomizeTime, threadsLimit, resolve, calls, memory, used);
    KillEndsRuns();
    forall i, j | 0 <= i < j < |calls| && calls[i].syscall == resolve(execve) == calls[j].syscall
      ensures answers[j] == Kill
    {
      assert Earlier(calls, j, resolve(execve));
    }
  }

  lemma HandlerIsAsked(listener: SeccompListener, call: Call)
    requires listener.Valid() && listener.context.Some? && |listener.order| <= MAX_GROUPS
    requires AttendedAndSound(listener.inserted, call)
    requires Reference(listener.inserted, listener.basePolicy.defaultAction, call).RunHandler?
    ensures KernelDecide(listener.context.value[call.arch], call).KernelTrace?
  {
    EnforcedDecision(listener.inserted, listener.rules, listener.order, listener.rulesById, listener.context.value,
                     listener.basePolicy.defaultAction, listener.lastSyscallArch, call);
  }

  /** The filter hands the call to the tracer, whose handler has it killed for the memory limit. */
  ghost predicate KilledForMemory(listener: SeccompListener, call: Call, view: M.View)
    reads listener
  {
    && listener.Valid() && listener.context.Some? && |listener.order| <= MAX_GROUPS
    && AttendedAndSound(listener.inserted, call) && Matched(listener.inserted, call)
    && KernelDecide(listener.context.value[call.arch], call).KernelTrace?
    && var d := Reference(listener.inserted, listener.basePolicy.defaultAction, call);
    forall executed :: DecisionAnswer(d, executed, call, view) == Kill && DecisionReason(d, call, view) == R.MLE
  }

  lemma TracedIsKilled(listener: SeccompListener, table: Table, resolve: SyscallName -> int, name: SyscallName,
                       call: Call, view: M.View)
    requires Ready(listener, table, resolve) && Offers(table, name) && OwnNumber(resolve, name)
    requires call.syscall == resolve(name)
    requires var r := RequestOf(call, name.mremap?); M.IsTraced(r) && view.Kills(r)
    ensures KilledForMemory(listener, call, view)
  {
    RequestIsReady(listener.inserted, table, resolve, name, listener.basePolicy.defaultAction, call, R.NO_VERDICT, view);
    RequestDecision(listener.inserted, table, resolve, name, listener.basePolicy.defaultAction, call);
    HandlerIsAsked(listener, call);
  }

  method SuperviseKilled(listener: SeccompListener, call: Call, memory: M.MemoryLimitListener, used: nat, vmPeakKb: nat,
                         carried: bool, ghost w: World, ghost o: Oracle)
    returns (ghost told: Oracle)
    requires KilledForMemory(listener, call, memory.Sees(used))
    requires ValidWorld(w) && AtCall(w) && Mirrors(memory, w) && o.vmPeakKb == vmPeakKb && carried == w.phase.carried
    modifies listener`lastSyscallArch, memory, memory.out, listener.actions`executed
    ensures Mirrors(memory, Next(w, Handle(told))) && told.trace == KillFor(R.MLE)
  {
    var decision, answer;
    decision, answer, told := SuperviseCall(listener, call, memory, used, vmPeakKb, carried, w, o);
  }

  /** Under the default policy with the limits' rules, a request for memory that is traced and exceeds the limit ends the
      run with MLE, if nothing was recorded before. */
  method SuperviseRequest(randomizeTime: bool, threadsLimit: int, resolve: SyscallName -> int, ghost name: SyscallName,
                          call: Call, memory: M.MemoryLimitListener, used: nat, vmPeakKb: nat, carried: bool,
                          ghost w: World, ghost o: Oracle)
    returns (ghost told: Oracle)
    requires IsRequest(name) && OwnNumber(resolve, name) && call.syscall == resolve(name)
    requires var r := RequestOf(call, name.mremap?); M.IsTraced(r) && memory.Sees(used).Kills(r)
    requires Reachable(w) && AtCall(w) && Mirrors(memory, w) && o.vmPeakKb == vmPeakKb && carried == w.phase.carried
    modifies memory, memory.out
    ensures Mirrors(memory, Next(w, Handle(told)))
    ensures w.s.verdict.reason == R.NONE ==> EndsWith(Next(w, Handle(told)), R.MLE)
  {
    ReachableIsValid(w);
    var listener;
    ghost var table;
    listener, table := PrepareDefault(randomizeTime, threadsLimit, resolve, name);
    TracedIsKilled(listener, table, resolve, name, call, memory.Sees(used));
    told := SuperviseKilled(listener, call, memory, used, vmPeakKb, carried, w, o);
    if w.s.verdict.reason == R.NONE {
      KillEndsRun(w, told);
    }
  }
}
