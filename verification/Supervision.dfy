/** The supervisor as a state machine (src/executor/Executor.cc, src/tracer/TraceExecutor.cc and the listeners of
    src/limits/), with what every run of it keeps. */
module Supervision {
  import opened Common
  import opened Tracees
  import opened ProcessInfo
  import R = ResultRecord

  type Reason = r: R.KillReason | r != R.NONE witness R.RV

  datatype Config = Config(root: int, memoryLimitKb: nat, outputLimited: bool, threadsLimit: int) {
    predicate SupportThreads() {
      threadsLimit >= 0
    }
  }

  /** The state the supervisor's objects and the kernel hold. `links` is the process tree. */
  datatype Sandbox = Sandbox(kernel: Kernel, links: Links, threads: set<int>, execved: bool, peakValid: bool,
                             peakKb: nat, verdict: R.Verdict)

  datatype Kind = Over(how: Ending) | Trapped(signal: nat)

  datatype Event = Event(pid: int, kind: Kind) {
    function Signal(): nat {
      match kind
      case Over(Exited(_)) => 0
      case Over(Killed(signal)) => signal
      case Trapped(signal) => signal
    }
  }

  /** The answers of the listeners to a trace event: some of them let the tracee go on, or kill it and have recorded why,
      or fail an assertion. */
  datatype TraceAnswer = GoOn | KillFor(reason: Reason) | Fail

  /** What handling an event learns from outside: VmPeak, the trace listeners' answer, the size the memory limit's handler
      comes to with the request it is asked about, 0 if there is none, whether a listener suppressed the signal, the signals
      the tracee catches, and how the mask test falls out for signals it cannot represent. */
  datatype Oracle = Oracle(vmPeakKb: nat, trace: TraceAnswer, reachedKb: nat, suppressed: bool, caught: set<nat>, beyond: bool)

  // ------------------------------------------------------------------ the listeners

  function MemoryOnEvent(c: Config, s: Sandbox, o: Oracle): (Sandbox, bool) {
    if !s.peakValid then (s, false)
    else
      var peak := Max(s.peakKb, o.vmPeakKb);
      if c.memoryLimitKb > 0 && peak > c.memoryLimitKb
      then (s.(peakKb := peak, verdict := s.verdict.WithReason(R.MLE)), true)
      else (s.(peakKb := peak), false)
  }

  const SIGXFSZ := 25

  function OutputOnEvent(c: Config, s: Sandbox, e: Event): (Sandbox, bool) {
    if c.outputLimited && e.Signal() == SIGXFSZ then (s.(verdict := s.verdict.WithReason(R.OLE)), true) else (s, false)
  }

  function ThreadsOnEvent(c: Config, s: Sandbox, e: Event): Sandbox {
    if c.threadsLimit >= 0 && e.kind.Over? then s.(threads := s.threads - {e.pid}) else s
  }

  /** The answer serves for the tracee and for the child. */
  function ThreadsOnClone(c: Config, s: Sandbox, child: int): (Sandbox, bool) {
    if c.threadsLimit < 0 then (s.(verdict := s.verdict.WithReason(R.RV)), true)
    else
      var threads := s.threads + {child};
      if |threads| > c.threadsLimit then (s.(threads := threads, verdict := s.verdict.WithReason(R.RV)), true)
      else (s.(threads := threads), false)
  }

  // ------------------------------------------------------------------ the trace executor

  datatype Outcome = Outcome(state: Sandbox, kill: bool, failed: bool)

  predicate Indexed(c: Config, s: Sandbox, pid: int) {
    pid == c.root || pid in s.links
  }

  /** onEventClone. Asking a tracee that is no longer stopped for its event message fails, and so does the assertion that
      the child is not known yet. */
  function CloneEvent(c: Config, s: Sandbox, pid: int): Outcome {
    if !s.kernel.IsStopped(pid) then Outcome(s, false, true)
    else if !s.kernel.IsStopped(s.kernel.tasks[pid].msg) then Outcome(s, false, false)
    else TakeIn(c, s, pid, s.kernel.tasks[pid].msg)
  }

  /** A stopped child joins the tree and is set going, unless the tree knows its pid. */
  function TakeIn(c: Config, s: Sandbox, pid: int, child: int): Outcome {
    if Indexed(c, s, child) then Outcome(s, false, true)
    else
      var (t, kill) := ThreadsOnClone(c, s.(links := s.links[child := pid]), child);
      var kernel := if kill then t.kernel.SendKill(child) else t.kernel;
      Outcome(t.(kernel := kernel.Resume(child)), kill, false)
  }

  /** The clone call of a stopped tracee whose child has stopped too and is not known yet. */
  predicate Accepts(c: Config, s: Sandbox, pid: int) {
    && s.kernel.IsStopped(pid) && s.kernel.IsStopped(s.kernel.tasks[pid].msg)
    && !Indexed(c, s, s.kernel.tasks[pid].msg)
  }

  /** The child an event brings into the tree. */
  function Taken(c: Config, s: Sandbox, e: Event): set<int> {
    if Indexed(c, s, e.pid) && e.kind == Trapped(CLONE_TRAP) && Accepts(c, s, e.pid) then {s.kernel.tasks[e.pid].msg}
    else {}
  }

  /** SIGCHLD, SIGURG, SIGWINCH, SIGSTOP and SIGCONT. */
  const IGNORED_SIGNALS: set<nat> := {17, 23, 28, 19, 18}

  /** handleTraceeSignal's test. A signal's bit can be tested in a 32-bit int only up to 30. */
  predicate Uncaught(signal: nat, o: Oracle) {
    && !o.suppressed && signal % 256 > 0 && signal % 256 != SIGTRAP
    && if signal % 256 <= 30 then signal % 256 !in o.caught + IGNORED_SIGNALS else o.beyond
  }

  /** The signal a tracee is resumed with: its own if it catches or ignores it, SIGKILL in place of an uncaught one, and
      none after a ptrace event or when a listener has suppressed it. */
  function Injected(signal: nat, o: Oracle): nat {
    if o.suppressed || signal % 256 == SIGTRAP then 0 else if Uncaught(signal, o) then SIGKILL else signal % 256
  }

  /** continueTracee. */
  function Continue(c: Config, s: Sandbox, pid: int, kill: bool): Sandbox {
    if kill then s.(verdict := s.verdict.WithSignal(SIGKILL),
                    kernel := s.kernel.SendKill(c.root).SendKill(pid).Resume(pid))
    else s.(kernel := s.kernel.Resume(pid))
  }

  /** What the trace listeners leave: the memory limit's peak and the reason of a KILL. */
  function Heard(s: Sandbox, o: Oracle): Sandbox {
    s.(peakKb := if s.peakValid then Max(s.peakKb, o.reachedKb) else s.peakKb,
       verdict := if o.trace.KillFor? then s.verdict.WithReason(o.trace.reason) else s.verdict)
  }

  /** The rest of onExecuteEvent for a tracee that stopped; `kill` is the answer so far. */
  function StopEvent(c: Config, s: Sandbox, pid: int, signal: nat, o: Oracle, kill: bool): Outcome {
    if o.trace.Fail? then Outcome(s, kill, true)
    else
      var t := Heard(s, o);
      if !t.kernel.Exists(pid) then Outcome(t, kill || o.trace.KillFor?, false)
      else
        var u := if Uncaught(signal, o) then t.(verdict := t.verdict.WithSignal(signal % 256)) else t;
        var answer := kill || o.trace.KillFor? || Uncaught(signal, o);
        Outcome(Continue(c, u, pid, answer), answer, false)
  }

  ghost function TraceOnEvent(c: Config, s: Sandbox, e: Event, o: Oracle): Outcome {
    if !Indexed(c, s, e.pid) then Outcome(s.(kernel := s.kernel.Reap(e.pid)), false, false)
    else match e.kind
      case Over(_) => Outcome(if e.pid in s.links then s.(links := Prune(s.links, e.pid)) else s, false, false)
      case Trapped(signal) =>
        var t := if !s.execved && signal == EXEC_TRAP then s.(execved := true, peakValid := true) else s;
        var cloned := if signal == CLONE_TRAP then CloneEvent(c, t, e.pid) else Outcome(t, false, false);
        if cloned.failed then cloned else StopEvent(c, cloned.state, e.pid, signal, o, cloned.kill)
  }

  // ------------------------------------------------------------------ the executor

  function KillChild(c: Config, s: Sandbox): Sandbox {
    s.(verdict := s.verdict.WithSignal(SIGKILL), kernel := s.kernel.SendKill(c.root))
  }

  /** The limit listeners, which come first. */
  function LimitsOnEvent(c: Config, s: Sandbox, e: Event, o: Oracle): (Sandbox, bool) {
    var (m, memory) := MemoryOnEvent(c, s, o);
    var (f, output) := OutputOnEvent(c, m, e);
    (ThreadsOnEvent(c, f, e), memory || output)
  }

  ghost function ListenersOnEvent(c: Config, s: Sandbox, e: Event, o: Oracle): Outcome {
    var (t, kill) := LimitsOnEvent(c, s, e, o);
    var traced := TraceOnEvent(c, t, e, o);
    Outcome(traced.state, kill || traced.kill, traced.failed)
  }

  predicate IsLast(c: Config, e: Event) {
    e.kind.Over? && e.pid == c.root
  }

  /** What the loop does with an event once the listeners have answered. */
  function AfterListeners(c: Config, s: Sandbox, e: Event, kill: bool): Outcome {
    if IsLast(c, e) then
      Outcome(s.(verdict := match e.kind.how
                            case Exited(status) => s.verdict.WithStatus(status)
                            case Killed(signal) => s.verdict.WithSignal(signal)), kill, false)
    else if e.kind.Over? && !c.SupportThreads() then Outcome(s, kill, true)
    else
      var t := if e.kind.Over? then s.(kernel := s.kernel.Reap(e.pid)) else s;
      Outcome(if kill then KillChild(c, t) else t, kill, false)
  }

  /** An event, from waitid to the next round of the loop; `carried` is the answer of this round's signal check. */
  ghost function OnEvent(c: Config, s: Sandbox, e: Event, o: Oracle, carried: bool): Outcome {
    var answered := ListenersOnEvent(c, s, e, o);
    if answered.failed then answered else AfterListeners(c, answered.state, e, carried || answered.kill)
  }

  // ------------------------------------------------------------------ runs

  /** Where the loop stands. Failed is an exception or assertion that ends the supervisor. */
  datatype Phase =
    | Checking
    | Waiting(carried: bool)
    | Handling(event: Event, carried: bool)
    | Finished
    | Reported
    | Failed

  /** The state with its history: whether KILL was ever answered, the children taken into the tree and the tasks whose end
      was handled. */
  datatype World = World(c: Config, s: Sandbox, phase: Phase, killed: bool, accepted: set<int>, exited: set<int>)

  datatype Step =
    // what the tasks do
    | Trap(pid: int, signal: nat, msg: int)
    | Clone(pid: int, child: int, succeeded: bool)
    | Settle(pid: int, initial: SignalNumber)
    | Die(pid: int)
    | Finish(pid: int, how: Ending)
    // what the supervisor does: a signal check with the listeners' answer, a wait, an event, the end
    | CheckSignals(answer: Option<Reason>)
    | Interrupted
    | Wait(pid: int)
    | Handle(oracle: Oracle)
    | PostExecute(late: Option<Reason>)

  function KindOf(task: Task): Kind
    requires task.Stopped? || task.Ended?
  {
    if task.Stopped? then Trapped(task.signal) else Over(task.how)
  }

  predicate CanWait(w: World, pid: int) {
    w.phase.Waiting? && w.s.kernel.Waitable(pid) && (w.c.SupportThreads() || pid == w.c.root)
  }

  /** The world once the event in hand has come out as `r`. */
  function Settled(w: World, r: Outcome): World
    requires w.phase.Handling?
  {
    var e := w.phase.event;
    World(w.c, r.state,
          if r.failed then Failed else if IsLast(w.c, e) then Finished else Checking,
          w.killed || r.kill,
          w.accepted + Taken(w.c, w.s, e),
          if e.kind.Over? && !IsLast(w.c, e) then w.exited + {e.pid} else w.exited)
  }

  ghost function Handled(w: World, o: Oracle): World
    requires w.phase.Handling?
  {
    Settled(w, OnEvent(w.c, w.s, w.phase.event, o, w.phase.carried))
  }

  /** A step that cannot be taken changes nothing. */
  ghost function Next(w: World, step: Step): World {
    match step
    case Trap(pid, signal, msg) => w.(s := w.s.(kernel := w.s.kernel.Trap(pid, signal, msg)))
    case Clone(pid, child, succeeded) => w.(s := w.s.(kernel := w.s.kernel.Clone(pid, child, succeeded)))
    case Settle(pid, initial) => w.(s := w.s.(kernel := w.s.kernel.Settle(pid, initial)))
    case Die(pid) => w.(s := w.s.(kernel := w.s.kernel.SendKill(pid)))
    case Finish(pid, how) => w.(s := w.s.(kernel := w.s.kernel.Finish(pid, how)))
    case CheckSignals(answer) =>
      if !w.phase.Checking? then w
      else if answer == None then w.(phase := Waiting(false))
      else w.(s := KillChild(w.c, w.s.(verdict := w.s.verdict.WithReason(answer.value))),
              phase := Waiting(true), killed := true)
    case Interrupted => if w.phase.Waiting? then w.(phase := Checking) else w
    case Wait(pid) =>
      if CanWait(w, pid) then w.(phase := Handling(Event(pid, KindOf(w.s.kernel.tasks[pid])), w.phase.carried)) else w
    case Handle(o) => if w.phase.Handling? then Handled(w, o) else w
    case PostExecute(late) =>
      if !w.phase.Finished? then w
      else if late == None then w.(phase := Reported)
      else w.(phase := Reported, s := w.s.(verdict := w.s.verdict.WithReason(late.value)))
  }

  ghost function Exec(w: World, steps: seq<Step>): World
    decreases |steps|
  {
    if steps == [] then w else Exec(Next(w, steps[0]), steps[1..])
  }

  /** The root has been forked, set up and resumed. */
  function Start(c: Config): World {
    World(c, Sandbox(Kernel(map[c.root := Running], {c.root}, 0), map[], {}, false, false, 0, R.NO_VERDICT),
          Checking, false, {}, {})
  }
}
