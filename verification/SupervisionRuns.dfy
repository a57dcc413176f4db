/** What every run of the supervisor keeps. */
module SupervisionRuns {
  import opened Common
  import opened Tracees
  import opened ProcessInfo
  import opened Supervision
  import R = ResultRecord

  // ------------------------------------------------------------------ the invariant

  predicate InClone(k: Kernel, pid: int) {
    pid in k.tasks && k.tasks[pid].Stopped? && k.tasks[pid].signal == CLONE_TRAP
  }

  /** A pid is given out once, and a child has one creator, which is stopped in the clone call that made it. */
  ghost predicate PidsAreFresh(k: Kernel, c: Config, accepted: set<int>) {
    && c.root in k.used && k.tasks.Keys <= k.used && accepted <= k.used && c.root !in accepted
    && (forall q | InClone(k, q) :: k.tasks[q].msg in k.used && k.tasks[q].msg != c.root && k.tasks[q].msg !in accepted)
    && (forall p, q | InClone(k, p) && InClone(k, q) && k.tasks[p].msg == k.tasks[q].msg :: p == q)
  }

  /** The event in hand is still what the kernel has, but that the task may have been killed. */
  ghost predicate InHand(c: Config, k: Kernel, e: Event) {
    && e.pid in k.tasks && (c.SupportThreads() || e.pid == c.root)
    && match e.kind
       case Over(how) => k.tasks[e.pid] == Ended(how)
       case Trapped(signal) =>
         match k.tasks[e.pid]
         case Stopped(at, _, waitable) => at == signal && waitable
         case Dying => true
         case Ended(_) => true
         case _ => false
  }

  /** No indexed task is stopped without a wait reporting it, and no running task was ever resumed. */
  ghost predicate Noticed(c: Config, s: Sandbox) {
    && s.kernel.misses == 0
    && forall p | Indexed(c, s, p) && s.kernel.IsStopped(p) :: s.kernel.tasks[p].waitable
  }

  /** The tree holds accepted tasks; with threads allowed the tracked ones are those accepted and not yet gone. */
  ghost predicate Accounted(w: World) {
    && w.s.links.Keys <= w.accepted && w.exited <= w.s.kernel.used && w.exited !! w.s.kernel.tasks.Keys
    && (w.c.threadsLimit >= 0 ==>
      && w.s.threads == w.accepted - w.exited
      && w.s.links.Keys <= w.s.threads
      && (!w.killed ==> |w.s.threads| <= w.c.threadsLimit))
  }

  /** Signals and statuses of a wait, and 128 with a signal. */
  predicate Bounded(v: R.Verdict) {
    v.signal < 256 && v.status < 128 + 256
  }

  predicate Recorded(v: R.Verdict) {
    R.Coherent(v) && Bounded(v) && (v.signal == 0 ==> v.status == 0)
  }

  ghost predicate VerdictKept(w: World) {
    && R.Coherent(w.s.verdict) && Bounded(w.s.verdict)
    && (!w.phase.Finished? && !w.phase.Reported? ==> Recorded(w.s.verdict))
    && (w.killed ==> Blamed(w.s.verdict))
  }

  ghost predicate PhaseHolds(w: World) {
    && (w.phase.Handling? ==> InHand(w.c, w.s.kernel, w.phase.event))
    && (w.phase.Waiting? && w.phase.carried ==> w.killed)
    && (w.phase.Handling? && w.phase.carried ==> w.killed)
  }

  /** After a KILL the root runs no more. */
  ghost predicate RootStaysDead(w: World) {
    w.killed ==> w.s.kernel.IsOver(w.c.root)
  }

  ghost predicate Supervised(w: World) {
    PidsAreFresh(w.s.kernel, w.c, w.accepted) && PhaseHolds(w) && Noticed(w.c, w.s) && Accounted(w) && RootStaysDead(w)
  }

  ghost predicate ValidWorld(w: World) {
    VerdictKept(w) && (!w.phase.Failed? ==> Supervised(w))
  }

  // ------------------------------------------------------------------ steps of the tasks and of the loop

  lemma StartIsValid(c: Config)
    ensures ValidWorld(Start(c))
  {}

  lemma CloneStep(w: World, step: Step)
    requires Supervised(w) && step.Clone?
    ensures Supervised(Next(w, step))
  {}

  lemma OtherTaskStep(w: World, step: Step)
    requires Supervised(w)
    requires step.Trap? || step.Settle? || step.Die? || step.Finish?
    ensures Supervised(Next(w, step))
  {}

  lemma LoopStep(w: World, step: Step)
    requires ValidWorld(w)
    requires step.CheckSignals? || step.Interrupted? || step.Wait? || step.PostExecute?
    ensures ValidWorld(Next(w, step))
  {}

  // ------------------------------------------------------------------ an event: the verdict

  /** A KILL answer leaves something on the record, and the record stays coherent. */
  ghost predicate Answered(before: R.Verdict, r: Outcome) {
    && Recorded(r.state.verdict) && R.Extends(r.state.verdict, before)
    && (r.kill ==> Blamed(r.state.verdict))
  }

  /** Something is on record that makes the verdict other than OK. */
  predicate Blamed(v: R.Verdict) {
    v.reason != R.NONE || v.signal != 0
  }

  lemma BlamedIsNotOk(v: R.Verdict)
    ensures Blamed(v) ==> !v.Text().Ok?
  {}

  /** What a stop writes to the record: the trace listeners' reason, the tracee's own signal, that of the KILL. */
  function StopRecord(v: R.Verdict, trace: TraceAnswer, own: nat, kill: bool): R.Verdict {
    var u := if trace.KillFor? then v.WithReason(trace.reason) else v;
    var x := if own > 0 then u.WithSignal(own) else u;
    if kill then x.WithSignal(SIGKILL) else x
  }

  lemma StopRecordKeeps(v: R.Verdict, trace: TraceAnswer, own: nat, kill: bool)
    requires Recorded(v) && own < 256
    ensures var u := StopRecord(v, trace, own, kill);
      Recorded(u) && R.Extends(u, v) && (kill || trace.KillFor? || own > 0 || Blamed(v) ==> Blamed(u))
  {}

  lemma StopIsRecorded(c: Config, s: Sandbox, pid: int, signal: nat, o: Oracle, kill: bool)
    requires !o.trace.Fail? && s.kernel.Exists(pid)
    ensures var own := if Uncaught(signal, o) then signal % 256 else 0;
      var answer := kill || o.trace.KillFor? || Uncaught(signal, o);
      var r := StopEvent(c, s, pid, signal, o, kill);
      r.state.verdict == StopRecord(s.verdict, o.trace, own, answer) && r.kill == answer
  {}

  lemma StopVerdict(c: Config, s: Sandbox, pid: int, signal: nat, o: Oracle, kill: bool)
    requires Recorded(s.verdict) && (kill ==> Blamed(s.verdict))
    ensures Answered(s.verdict, StopEvent(c, s, pid, signal, o, kill))
  {
    if !o.trace.Fail? && s.kernel.Exists(pid) {
      StopIsRecorded(c, s, pid, signal, o, kill);
      StopRecordKeeps(s.verdict, o.trace, if Uncaught(signal, o) then signal % 256 else 0,
                      kill || o.trace.KillFor? || Uncaught(signal, o));
    }
  }

  lemma CloneVerdict(c: Config, s: Sandbox, pid: int)
    requires Recorded(s.verdict)
    ensures Answered(s.verdict, CloneEvent(c, s, pid))
  {}

  lemma TraceVerdict(c: Config, s: Sandbox, e: Event, o: Oracle)
    requires Recorded(s.verdict)
    ensures Answered(s.verdict, TraceOnEvent(c, s, e, o))
  {
    if Indexed(c, s, e.pid) && e.kind.Trapped? {
      var signal := e.kind.signal;
      var t := if !s.execved && signal == EXEC_TRAP then s.(execved := true, peakValid := true) else s;
      CloneVerdict(c, t, e.pid);
      var cloned := if signal == CLONE_TRAP then CloneEvent(c, t, e.pid) else Outcome(t, false, false);
      StopVerdict(c, cloned.state, e.pid, signal, o, cloned.kill);
    }
  }

  /** The limit listeners touch no task and not the tree. */
  lemma LimitsTouch(c: Config, s: Sandbox, e: Event, o: Oracle)
    ensures var (t, kill) := LimitsOnEvent(c, s, e, o);
      && t.kernel == s.kernel && t.links == s.links && t.threads == ThreadsOnEvent(c, s, e).threads
      && Taken(c, t, e) == Taken(c, s, e)
      && t.verdict.signal == s.verdict.signal && t.verdict.status == s.verdict.status
      && R.Extends(t.verdict, s.verdict) && (kill ==> t.verdict.reason != R.NONE)
  {}

  lemma ListenersVerdict(c: Config, s: Sandbox, e: Event, o: Oracle)
    requires Recorded(s.verdict)
    ensures Answered(s.verdict, ListenersOnEvent(c, s, e, o))
  {
    LimitsTouch(c, s, e, o);
    TraceVerdict(c, LimitsOnEvent(c, s, e, o).0, e, o);
  }

  lemma AfterVerdict(c: Config, s: Sandbox, e: Event, kill: bool)
    requires Recorded(s.verdict) && (kill ==> Blamed(s.verdict))
    ensures var r := AfterListeners(c, s, e, kill);
      && R.Coherent(r.state.verdict) && Bounded(r.state.verdict) && R.Extends(r.state.verdict, s.verdict)
      && (!IsLast(c, e) ==> Recorded(r.state.verdict))
      && (kill ==> Blamed(r.state.verdict))
  {}

  lemma EventVerdict(c: Config, s: Sandbox, e: Event, o: Oracle, carried: bool)
    requires Recorded(s.verdict) && (carried ==> Blamed(s.verdict))
    ensures var r := OnEvent(c, s, e, o, carried);
      && R.Coherent(r.state.verdict) && Bounded(r.state.verdict) && R.Extends(r.state.verdict, s.verdict)
      && (r.failed || !IsLast(c, e) ==> Recorded(r.state.verdict))
      && (r.kill ==> Blamed(r.state.verdict))
  {
    ListenersVerdict(c, s, e, o);
    var answered := ListenersOnEvent(c, s, e, o);
    if !answered.failed {
      AfterVerdict(c, answered.state, e, carried || answered.kill);
    }
  }

  lemma HandledVerdict(w: World, o: Oracle)
    requires VerdictKept(w) && w.phase.Handling? && (w.phase.carried ==> w.killed)
    ensures VerdictKept(Handled(w, o)) && R.Extends(Handled(w, o).s.verdict, w.s.verdict)
  {
    EventVerdict(w.c, w.s, w.phase.event, o, w.phase.carried);
  }

  // ------------------------------------------------------------------ an event: the tasks

  /** As PidsAreFresh, but for the clone call whose event is being handled. */
  ghost predicate FreshBut(k: Kernel, c: Config, accepted: set<int>, pid: int) {
    && c.root in k.used && k.tasks.Keys <= k.used && accepted <= k.used && c.root !in accepted
    && (forall q | InClone(k, q) && q != pid ::
      k.tasks[q].msg in k.used && k.tasks[q].msg != c.root && k.tasks[q].msg !in accepted)
    && (forall p, q | InClone(k, p) && InClone(k, q) && p != pid && q != pid && k.tasks[p].msg == k.tasks[q].msg ::
      p == q)
  }

  /** The clone call of a stopped tracee, taken into the tree and resumed with its child, or refused. */
  lemma AcceptKeeps(c: Config, k: Kernel, pid: int, child: int, kill: bool, accepted: set<int>)
    requires PidsAreFresh(k, c, accepted) && InClone(k, pid) && k.tasks[pid].msg == child && k.IsStopped(child)
    ensures FreshBut((if kill then k.SendKill(child) else k).Resume(child), c, accepted + {child}, pid)
  {}

  lemma AcceptNotices(c: Config, s: Sandbox, t: Sandbox, pid: int, child: int, kill: bool)
    requires Noticed(c, s) && s.kernel.IsStopped(child)
    requires t.links == s.links[child := pid]
    requires t.kernel == (if kill then s.kernel.SendKill(child) else s.kernel).Resume(child)
    ensures Noticed(c, t)
  {}

  /** What becomes of a clone call: the child is taken into the tree or nothing happens. */
  lemma CloneCases(c: Config, s: Sandbox, pid: int)
    ensures var r := CloneEvent(c, s, pid);
      if Accepts(c, s, pid) then
        var child := s.kernel.tasks[pid].msg;
        && r.state.links == s.links[child := pid]
        && r.state.kernel == (if r.kill then s.kernel.SendKill(child) else s.kernel).Resume(child)
        && (c.threadsLimit >= 0 ==>
          && r.state.threads == s.threads + {child} && (r.kill <==> |r.state.threads| > c.threadsLimit))
      else r.state == s && !r.kill
  {}

  /** The state once a clone call of `pid` has been seen to, before the tracee itself goes on. */
  ghost predicate CloneSeen(c: Config, s: Sandbox, t: Sandbox, pid: int, accepted: set<int>, taken: set<int>) {
    && pid in s.kernel.tasks && pid in t.kernel.tasks && t.kernel.tasks[pid] == s.kernel.tasks[pid]
    && Noticed(c, t) && FreshBut(t.kernel, c, accepted + taken, pid) && t.links.Keys == s.links.Keys + taken
    && forall p | p in taken :: Resumed(t.kernel, p)
  }

  lemma AcceptedIsSeen(c: Config, s: Sandbox, pid: int, accepted: set<int>)
    requires PidsAreFresh(s.kernel, c, accepted) && Noticed(c, s) && InClone(s.kernel, pid) && Accepts(c, s, pid)
    requires Indexed(c, s, pid)
    ensures CloneSeen(c, s, CloneEvent(c, s, pid).state, pid, accepted, {s.kernel.tasks[pid].msg})
  {
    CloneCases(c, s, pid);
    var r, child := CloneEvent(c, s, pid), s.kernel.tasks[pid].msg;
    AcceptKeeps(c, s.kernel, pid, child, r.kill, accepted);
    AcceptNotices(c, s, r.state, pid, child, r.kill);
  }

  lemma CloneKeeps(c: Config, s: Sandbox, pid: int, accepted: set<int>)
    requires PidsAreFresh(s.kernel, c, accepted) && Noticed(c, s) && s.links.Keys <= accepted
    requires Indexed(c, s, pid) && InClone(s.kernel, pid)
    ensures var r := CloneEvent(c, s, pid);
      !r.failed && CloneSeen(c, s, r.state, pid, accepted, Taken(c, s, Event(pid, Trapped(CLONE_TRAP))))
  {
    assert s.kernel.tasks[pid].msg !in accepted;
    if Accepts(c, s, pid) {
      AcceptedIsSeen(c, s, pid, accepted);
    } else {
      CloneCases(c, s, pid);
      assert accepted + {} == accepted;
    }
  }

  /** Running again, unless it was killed. */
  predicate Resumed(k: Kernel, pid: int) {
    k.IsOver(pid) || k.tasks[pid].Running?
  }

  /** The tasks a stop in the tree leaves to be resumed: the tracee, and the child it has made. */
  function Due(c: Config, s: Sandbox, e: Event): set<int> {
    if Indexed(c, s, e.pid) && e.kind.Trapped? then {e.pid} + Taken(c, s, e) else {}
  }

  lemma ContinueKeeps(c: Config, s: Sandbox, pid: int, kill: bool, accepted: set<int>)
    requires FreshBut(s.kernel, c, accepted, pid) && Noticed(c, s) && s.links.Keys <= accepted
    requires pid in s.kernel.tasks && !s.kernel.tasks[pid].Running? && !s.kernel.tasks[pid].Starting?
    ensures var t := Continue(c, s, pid, kill);
      PidsAreFresh(t.kernel, c, accepted) && Noticed(c, t) && Resumed(t.kernel, pid) &&
      forall p | Resumed(s.kernel, p) :: Resumed(t.kernel, p)
  {}

  lemma StopKeeps(c: Config, s: Sandbox, pid: int, signal: nat, o: Oracle, kill: bool, accepted: set<int>)
    requires FreshBut(s.kernel, c, accepted, pid) && Noticed(c, s) && s.links.Keys <= accepted
    requires pid in s.kernel.tasks && !s.kernel.tasks[pid].Running? && !s.kernel.tasks[pid].Starting?
    ensures var r := StopEvent(c, s, pid, signal, o, kill);
      && (r.failed <==> o.trace.Fail?)
      && (!r.failed ==>
        && PidsAreFresh(r.state.kernel, c, accepted) && Noticed(c, r.state)
        && Resumed(r.state.kernel, pid) && forall p | Resumed(s.kernel, p) :: Resumed(r.state.kernel, p))
  {
    var t := Heard(s, o);
    var u := if Uncaught(signal, o) then t.(verdict := t.verdict.WithSignal(signal % 256)) else t;
    ContinueKeeps(c, u, pid, kill || o.trace.KillFor? || Uncaught(signal, o), accepted);
  }

  /** What handling an event leaves of the tasks. */
  ghost predicate TasksKept(c: Config, r: Outcome, accepted: set<int>, due: set<int>) {
    !r.failed ==>
      && PidsAreFresh(r.state.kernel, c, accepted) && Noticed(c, r.state)
      && forall p | p in due :: Resumed(r.state.kernel, p)
  }

  lemma CloneTrapKeeps(c: Config, s: Sandbox, e: Event, o: Oracle, accepted: set<int>)
    requires PidsAreFresh(s.kernel, c, accepted) && Noticed(c, s) && s.links.Keys <= accepted
    requires Indexed(c, s, e.pid) && InHand(c, s.kernel, e) && e.kind == Trapped(CLONE_TRAP)
    ensures var r := TraceOnEvent(c, s, e, o);
      && TasksKept(c, r, accepted + Taken(c, s, e), Due(c, s, e))
      && (r.failed ==> o.trace.Fail? || s.kernel.IsOver(e.pid))
  {
    if s.kernel.IsStopped(e.pid) {
      CloneKeeps(c, s, e.pid, accepted);
      var cloned := CloneEvent(c, s, e.pid);
      StopKeeps(c, cloned.state, e.pid, CLONE_TRAP, o, cloned.kill, accepted + Taken(c, s, e));
    }
  }

  lemma TrapKeeps(c: Config, s: Sandbox, e: Event, o: Oracle, accepted: set<int>)
    requires PidsAreFresh(s.kernel, c, accepted) && Noticed(c, s) && s.links.Keys <= accepted
    requires Indexed(c, s, e.pid) && InHand(c, s.kernel, e) && e.kind.Trapped? && e.kind.signal != CLONE_TRAP
    ensures var r := TraceOnEvent(c, s, e, o);
      && TasksKept(c, r, accepted, Due(c, s, e))
      && (r.failed ==> o.trace.Fail?)
  {
    var t := if !s.execved && e.kind.signal == EXEC_TRAP then s.(execved := true, peakValid := true) else s;
    StopKeeps(c, t, e.pid, e.kind.signal, o, false, accepted);
  }

  lemma TraceKeeps(c: Config, s: Sandbox, e: Event, o: Oracle, accepted: set<int>)
    requires PidsAreFresh(s.kernel, c, accepted) && Noticed(c, s) && s.links.Keys <= accepted
    requires InHand(c, s.kernel, e)
    ensures TasksKept(c, TraceOnEvent(c, s, e, o), accepted + Taken(c, s, e), Due(c, s, e))
  {
    assert accepted + {} == accepted;
    if Indexed(c, s, e.pid) && e.kind.Trapped? {
      if e.kind.signal == CLONE_TRAP {
        CloneTrapKeeps(c, s, e, o, accepted);
      } else {
        TrapKeeps(c, s, e, o, accepted);
      }
    }
  }

  lemma AfterKeeps(c: Config, s: Sandbox, e: Event, kill: bool, accepted: set<int>)
    requires PidsAreFresh(s.kernel, c, accepted) && Noticed(c, s)
    requires kill && IsLast(c, e) ==> s.kernel.IsOver(c.root)
    requires e.kind.Over? && e.pid in s.kernel.tasks ==> s.kernel.tasks[e.pid].Ended?
    ensures var r := AfterListeners(c, s, e, kill);
      && PidsAreFresh(r.state.kernel, c, accepted) && Noticed(c, r.state)
      && (kill && !r.failed ==> r.state.kernel.IsOver(c.root))
      && (forall p | Resumed(s.kernel, p) :: Resumed(r.state.kernel, p))
      && (e.kind.Over? && !IsLast(c, e) && !r.failed ==> e.pid !in r.state.kernel.tasks)
      && (r.failed ==> !c.SupportThreads() && e.pid != c.root)
  {}

  /** A task stays over, and pids are neither added nor forgotten, while an event is handled. */
  ghost predicate TasksGo(before: Kernel, after: Kernel) {
    && after.used == before.used && after.tasks.Keys <= before.tasks.Keys
    && forall p | p in before.tasks && before.IsOver(p) && p in after.tasks :: after.tasks[p] == before.tasks[p]
  }

  lemma CloneGoes(c: Config, s: Sandbox, pid: int)
    ensures TasksGo(s.kernel, CloneEvent(c, s, pid).state.kernel)
  {}

  lemma ContinueGoes(c: Config, s: Sandbox, pid: int, kill: bool)
    ensures TasksGo(s.kernel, Continue(c, s, pid, kill).kernel)
  {}

  lemma StopGoes(c: Config, s: Sandbox, pid: int, signal: nat, o: Oracle, kill: bool)
    ensures TasksGo(s.kernel, StopEvent(c, s, pid, signal, o, kill).state.kernel)
  {
    var t := Heard(s, o);
    var u := if Uncaught(signal, o) then t.(verdict := t.verdict.WithSignal(signal % 256)) else t;
    ContinueGoes(c, u, pid, kill || o.trace.KillFor? || Uncaught(signal, o));
  }

  lemma TraceGoes(c: Config, s: Sandbox, e: Event, o: Oracle)
    ensures TasksGo(s.kernel, TraceOnEvent(c, s, e, o).state.kernel)
  {
    if Indexed(c, s, e.pid) && e.kind.Trapped? {
      var signal := e.kind.signal;
      var t := if !s.execved && signal == EXEC_TRAP then s.(execved := true, peakValid := true) else s;
      CloneGoes(c, t, e.pid);
      var cloned := if signal == CLONE_TRAP then CloneEvent(c, t, e.pid) else Outcome(t, false, false);
      StopGoes(c, cloned.state, e.pid, signal, o, cloned.kill);
    }
  }

  // ------------------------------------------------------------------ an event: the threads

  /** What handling an event does to the tree and the tracked threads. */
  ghost predicate ThreadsKept(c: Config, links: set<int>, threads: set<int>, e: Event, r: Outcome, taken: set<int>) {
    && r.state.links.Keys <= links + taken
    && (e.kind.Over? ==> e.pid !in r.state.links)
    && (c.threadsLimit >= 0 ==>
      && r.state.threads == threads + taken
      && (!r.kill && |threads| <= c.threadsLimit ==> |r.state.threads| <= c.threadsLimit))
  }

  lemma StopThreads(c: Config, s: Sandbox, pid: int, signal: nat, o: Oracle, kill: bool)
    ensures var r := StopEvent(c, s, pid, signal, o, kill);
      r.state.links == s.links && r.state.threads == s.threads && (kill ==> r.kill)
  {}

  lemma TraceThreads(c: Config, s: Sandbox, e: Event, o: Oracle)
    ensures ThreadsKept(c, s.links.Keys, s.threads, e, TraceOnEvent(c, s, e, o), Taken(c, s, e))
  {
    assert s.threads + {} == s.threads;
    if Indexed(c, s, e.pid) {
      match e.kind
      case Over(_) => assert Climb(s.links, e.pid, 0) == e.pid;
      case Trapped(signal) => {
        var t := if !s.execved && signal == EXEC_TRAP then s.(execved := true, peakValid := true) else s;
        CloneCases(c, t, e.pid);
        var cloned := if signal == CLONE_TRAP then CloneEvent(c, t, e.pid) else Outcome(t, false, false);
        StopThreads(c, cloned.state, e.pid, signal, o, cloned.kill);
      }
    }
  }

  // ------------------------------------------------------------------ every run

  lemma ListenersTasks(c: Config, s: Sandbox, e: Event, o: Oracle, accepted: set<int>)
    requires PidsAreFresh(s.kernel, c, accepted) && Noticed(c, s) && s.links.Keys <= accepted && InHand(c, s.kernel, e)
    ensures var r := ListenersOnEvent(c, s, e, o);
      TasksKept(c, r, accepted + Taken(c, s, e), Due(c, s, e)) && TasksGo(s.kernel, r.state.kernel)
  {
    LimitsTouch(c, s, e, o);
    var t := LimitsOnEvent(c, s, e, o).0;
    TraceKeeps(c, t, e, o, accepted);
    TraceGoes(c, t, e, o);
  }

  lemma ListenersThreads(c: Config, s: Sandbox, e: Event, o: Oracle)
    ensures ThreadsKept(c, s.links.Keys, ThreadsOnEvent(c, s, e).threads, e, ListenersOnEvent(c, s, e, o),
                        Taken(c, s, e))
  {
    LimitsTouch(c, s, e, o);
    TraceThreads(c, LimitsOnEvent(c, s, e, o).0, e, o);
  }

  lemma AfterThreads(c: Config, s: Sandbox, e: Event, kill: bool)
    ensures var r := AfterListeners(c, s, e, kill);
      && r.state.links == s.links && r.state.threads == s.threads && r.kill == kill
      && r.state.kernel.used == s.kernel.used && r.state.kernel.tasks.Keys <= s.kernel.tasks.Keys
  {}

  lemma TakenExist(c: Config, s: Sandbox, e: Event)
    ensures Taken(c, s, e) <= s.kernel.tasks.Keys
    ensures e.kind.Over? ==> Taken(c, s, e) == {}
  {}

  lemma EventThreads(c: Config, s: Sandbox, e: Event, o: Oracle, carried: bool)
    ensures ThreadsKept(c, s.links.Keys, ThreadsOnEvent(c, s, e).threads, e, OnEvent(c, s, e, o, carried),
                        Taken(c, s, e))
    ensures carried && !OnEvent(c, s, e, o, carried).failed ==> OnEvent(c, s, e, o, carried).kill
  {
    ListenersThreads(c, s, e, o);
    var r := ListenersOnEvent(c, s, e, o);
    AfterThreads(c, r.state, e, carried || r.kill);
  }

  /** The child whose end is reported. */
  function Gone(c: Config, e: Event): set<int> {
    if e.kind.Over? && !IsLast(c, e) then {e.pid} else {}
  }

  ghost predicate TasksSettled(c: Config, s: Sandbox, e: Event, r: Outcome, accepted: set<int>) {
    && PidsAreFresh(r.state.kernel, c, accepted) && Noticed(c, r.state)
    && (r.kill ==> r.state.kernel.IsOver(c.root))
    && r.state.kernel.used == s.kernel.used && r.state.kernel.tasks.Keys <= s.kernel.tasks.Keys - Gone(c, e)
    && (s.kernel.IsOver(c.root) ==> r.state.kernel.IsOver(c.root))
    && forall p | p in Due(c, s, e) :: Resumed(r.state.kernel, p)
  }

  lemma EventTasks(c: Config, s: Sandbox, e: Event, o: Oracle, carried: bool, accepted: set<int>)
    requires PidsAreFresh(s.kernel, c, accepted) && Noticed(c, s) && s.links.Keys <= accepted && InHand(c, s.kernel, e)
    ensures var r := OnEvent(c, s, e, o, carried);
      !r.failed ==> TasksSettled(c, s, e, r, accepted + Taken(c, s, e))
  {
    ListenersTasks(c, s, e, o, accepted);
    var r := ListenersOnEvent(c, s, e, o);
    if !r.failed {
      AfterKeeps(c, r.state, e, carried || r.kill, accepted + Taken(c, s, e));
      AfterThreads(c, r.state, e, carried || r.kill);
    }
  }

  /** The books after an event that took in `taken`, or told the end of a child in `gone`. */
  lemma BooksBalance(accepted: set<int>, exited: set<int>, taken: set<int>, gone: set<int>)
    requires taken !! exited && (gone == {} || taken == {})
    ensures accepted - exited - gone + taken == (accepted + taken) - (exited + gone)
  {}

  lemma AccountsAdd(w: World, v: World, taken: set<int>, gone: set<int>)
    requires Accounted(w) && w.c == v.c
    requires taken <= w.s.kernel.tasks.Keys && gone <= w.s.kernel.used && (gone == {} || taken == {})
    requires v.s.kernel.used == w.s.kernel.used && v.s.kernel.tasks.Keys <= w.s.kernel.tasks.Keys - gone
    requires v.accepted == w.accepted + taken && v.exited == w.exited + gone
    requires v.s.links.Keys <= w.s.links.Keys + taken && v.s.links.Keys !! gone
    requires w.c.threadsLimit >= 0 ==>
      v.s.threads == w.s.threads - gone + taken && (!v.killed ==> |v.s.threads| <= w.c.threadsLimit)
    ensures Accounted(v)
  {
    BooksBalance(w.accepted, w.exited, taken, gone);
    forall p | p in v.s.links && w.c.threadsLimit >= 0 ensures p in v.s.threads {}
    assert v.exited !! v.s.kernel.tasks.Keys;
  }

  /** The root is not among the tracked threads. */
  lemma TrackedAfter(w: World, e: Event)
    requires Accounted(w) && w.c.root !in w.accepted && w.c.threadsLimit >= 0
    ensures ThreadsOnEvent(w.c, w.s, e).threads == w.s.threads - Gone(w.c, e)
    ensures !w.killed ==> |ThreadsOnEvent(w.c, w.s, e).threads| <= w.c.threadsLimit
  {}

  lemma ThreadsSettle(w: World, r: Outcome, threads: set<int>, taken: set<int>)
    requires w.phase.Handling? && threads == ThreadsOnEvent(w.c, w.s, w.phase.event).threads
    requires Accounted(w) && w.c.root !in w.accepted
    requires ThreadsKept(w.c, w.s.links.Keys, threads, w.phase.event, r, taken)
    ensures r.state.links.Keys <= w.s.links.Keys + taken && r.state.links.Keys !! Gone(w.c, w.phase.event)
    ensures w.c.threadsLimit >= 0 ==>
      && r.state.threads == w.s.threads - Gone(w.c, w.phase.event) + taken
      && (!w.killed && !r.kill ==> |r.state.threads| <= w.c.threadsLimit)
  {
    if w.c.threadsLimit >= 0 {
      TrackedAfter(w, w.phase.event);
    }
  }

  lemma OutcomeSettles(w: World, r: Outcome)
    requires Supervised(w) && w.phase.Handling? && !r.failed
    requires var e := w.phase.event;
      && TasksSettled(w.c, w.s, e, r, w.accepted + Taken(w.c, w.s, e))
      && ThreadsKept(w.c, w.s.links.Keys, ThreadsOnEvent(w.c, w.s, e).threads, e, r, Taken(w.c, w.s, e))
    ensures Supervised(Settled(w, r))
  {
    ThreadsSettle(w, r, ThreadsOnEvent(w.c, w.s, w.phase.event).threads, Taken(w.c, w.s, w.phase.event));
    TakenExist(w.c, w.s, w.phase.event);
    AccountsAdd(w, Settled(w, r), Taken(w.c, w.s, w.phase.event), Gone(w.c, w.phase.event));
  }

  lemma HandledKeeps(w: World, o: Oracle)
    requires Supervised(w) && w.phase.Handling? && !Handled(w, o).phase.Failed?
    ensures Supervised(Handled(w, o))
  {
    var e := w.phase.event;
    EventTasks(w.c, w.s, e, o, w.phase.carried, w.accepted);
    EventThreads(w.c, w.s, e, o, w.phase.carried);
    OutcomeSettles(w, OnEvent(w.c, w.s, e, o, w.phase.carried));
  }

  // ------------------------------------------------------------------ every run

  lemma NextIsValid(w: World, step: Step)
    requires ValidWorld(w)
    ensures ValidWorld(Next(w, step)) && R.Extends(Next(w, step).s.verdict, w.s.verdict)
  {
    match step
    case Clone(_, _, _) => if !w.phase.Failed? { CloneStep(w, step); }
    case Handle(o) =>
      if w.phase.Handling? {
        HandledVerdict(w, o);
        if !Handled(w, o).phase.Failed? {
          HandledKeeps(w, o);
        }
      }
    case CheckSignals(_) => LoopStep(w, step);
    case Interrupted => LoopStep(w, step);
    case Wait(_) => LoopStep(w, step);
    case PostExecute(_) => LoopStep(w, step);
    case _ => if !w.phase.Failed? { OtherTaskStep(w, step); }
  }

  lemma {:induction false} ExecIsValid(w: World, steps: seq<Step>)
    requires ValidWorld(w)
    ensures ValidWorld(Exec(w, steps)) && R.Extends(Exec(w, steps).s.verdict, w.s.verdict)
    decreases |steps|
  {
    if steps != [] {
      NextIsValid(w, steps[0]);
      ExecIsValid(Next(w, steps[0]), steps[1..]);
    }
  }

  ghost predicate Reachable(w: World) {
    exists c, steps :: w == Exec(Start(c), steps)
  }

  lemma ReachableIsValid(w: World)
    requires Reachable(w)
    ensures ValidWorld(w)
  {
    var c, steps :| w == Exec(Start(c), steps);
    StartIsValid(c);
    ExecIsValid(Start(c), steps);
  }

  lemma {:induction false} ExecConcat(w: World, a: seq<Step>, b: seq<Step>)
    ensures Exec(w, a + b) == Exec(Exec(w, a), b)
    decreases |a|
  {
    if a == [] {
      assert a + b == b;
    } else {
      assert (a + b)[0] == a[0] && (a + b)[1..] == a[1..] + b;
      ExecConcat(Next(w, a[0]), a[1..], b);
    }
  }

  /** While the supervisor runs, a stopped task of the tree has its stop reported by the next wait, and PTRACE_CONT never
      went to a task that was running: each stop is answered by one resumption. */
  lemma StopsAreNoticed(w: World, pid: int)
    requires Reachable(w) && !w.phase.Failed?
    ensures w.s.kernel.misses == 0
    ensures Indexed(w.c, w.s, pid) && w.s.kernel.IsStopped(pid) ==> w.s.kernel.Waitable(pid)
  {
    ReachableIsValid(w);
  }

  /** With threads allowed, the tracked threads are the children taken into the tree whose end was not reported yet; every
      process of the tree but the root is tracked; and there are too many only once KILL has been answered. */
  lemma ThreadsAreAccounted(w: World)
    requires Reachable(w) && !w.phase.Failed? && w.c.threadsLimit >= 0
    ensures w.s.threads == w.accepted - w.exited && w.s.links.Keys <= w.s.threads
    ensures |w.s.threads| > w.c.threadsLimit ==> w.killed
  {
    ReachableIsValid(w);
  }

  /** The verdict of every run is coherent; once KILL was answered it is not OK and the root runs no more. */
  lemma VerdictIsCoherent(w: World)
    requires Reachable(w)
    ensures w.s.verdict.signal != 0 ==> w.s.verdict.status == 128 + w.s.verdict.signal
    ensures w.killed ==> !w.s.verdict.Text().Ok?
    ensures w.killed && !w.phase.Failed? ==> w.s.kernel.IsOver(w.c.root)
  {
    ReachableIsValid(w);
    BlamedIsNotOk(w.s.verdict);
  }

  /** In every run the status code is 0 exactly when the text is ok, and not 0 once KILL was answered. */
  lemma CodeIsFaithful(w: World)
    requires Reachable(w)
    ensures w.s.verdict.Code() == 0 <==> w.s.verdict.Text().Ok?
    ensures w.killed ==> w.s.verdict.Code() != 0
    ensures w.s.verdict.reason == R.TLE ==> w.s.verdict.Code() == 125
    ensures w.s.verdict.reason == R.MLE ==> w.s.verdict.Code() == 124
    ensures w.s.verdict.reason == R.RV ==> w.s.verdict.Code() == 121
    ensures w.s.verdict.reason == R.OLE ==> w.s.verdict.Code() == 120
  {
    ReachableIsValid(w);
    R.CodeNumbers(w.s.verdict);
    BlamedIsNotOk(w.s.verdict);
    R.CodeZeroIffOk(w.s.verdict);
  }

  /** What was recorded first stays: reason, signal and status. */
  lemma FirstWriterWins(w: World, rest: seq<Step>)
    requires Reachable(w)
    ensures R.Extends(Exec(w, rest).s.verdict, w.s.verdict)
  {
    ReachableIsValid(w);
    ExecIsValid(w, rest);
  }

  lemma SignalStays(w: World, rest: seq<Step>)
    requires ValidWorld(w) && w.s.verdict.signal != 0
    ensures var v := Exec(w, rest).s.verdict; v.signal == w.s.verdict.signal && v.status == 128 + v.signal
  {
    ExecIsValid(w, rest);
  }

  /** A tracee killed for an uncaught signal: if no signal is on record yet, this one and the status that goes with it are
      what the run ends with, whatever kills the supervisor sends after it. */
  lemma OriginalSignalSurvives(w: World, o: Oracle, rest: seq<Step>)
    requires Reachable(w) && w.phase.Handling? && Indexed(w.c, w.s, w.phase.event.pid)
    requires w.phase.event.kind.Trapped? && 1 <= w.phase.event.kind.signal <= 30
    requires w.phase.event.kind.signal !in o.caught + {5, 17, 18, 19, 23, 28} && !o.suppressed
    requires w.s.verdict.signal == 0 && !o.trace.Fail?
    ensures var v, signal := Exec(w, [Handle(o)] + rest).s.verdict, w.phase.event.kind.signal;
      v.signal == signal && v.status == 128 + signal
  {
    ReachableIsValid(w);
    RecordedSignal(w.c, w.s, w.phase.event, o, w.phase.carried);
    ExecConcat(w, [Handle(o)], rest);
    SignalIsNext(w, o);
    SignalStays(Exec(w, [Handle(o)]), rest);
  }

  lemma SignalIsNext(w: World, o: Oracle)
    requires ValidWorld(w) && w.phase.Handling?
    ensures var v := Exec(w, [Handle(o)]);
      ValidWorld(v) && v.s.verdict == OnEvent(w.c, w.s, w.phase.event, o, w.phase.carried).state.verdict
  {
    NextIsValid(w, Handle(o));
    OneStep(w, Handle(o));
  }

  lemma OneStep(w: World, step: Step)
    ensures Exec(w, [step]) == Next(w, step)
  {
    assert Exec(w, [step]) == Exec(Next(w, step), []);
  }

  lemma StopRecordsSignal(c: Config, s: Sandbox, pid: int, signal: nat, o: Oracle)
    requires s.kernel.Exists(pid) && s.verdict.signal == 0 && s.verdict.status == 0 && !o.trace.Fail?
    requires 1 <= signal <= 30 && Uncaught(signal, o)
    ensures var r := StopEvent(c, s, pid, signal, o, false);
      !r.failed && r.state.verdict.signal == signal && r.state.verdict.status == 128 + signal
  {
    StopIsRecorded(c, s, pid, signal, o, false);
  }

  lemma TraceRecordsSignal(c: Config, s: Sandbox, e: Event, o: Oracle)
    requires s.kernel.Exists(e.pid) && s.verdict.signal == 0 && s.verdict.status == 0 && !o.trace.Fail?
    requires e.kind.Trapped? && 1 <= e.kind.signal <= 30 && Uncaught(e.kind.signal, o) && Indexed(c, s, e.pid)
    ensures var r := TraceOnEvent(c, s, e, o);
      !r.failed && r.state.verdict.signal == e.kind.signal && r.state.verdict.status == 128 + e.kind.signal
  {
    StopRecordsSignal(c, s, e.pid, e.kind.signal, o);
  }

  lemma AfterKeepsSignal(c: Config, s: Sandbox, e: Event, kill: bool)
    requires e.kind.Trapped? && s.verdict.signal != 0
    ensures AfterListeners(c, s, e, kill).state.verdict == s.verdict
  {}

  lemma RecordedSignal(c: Config, s: Sandbox, e: Event, o: Oracle, carried: bool)
    requires Recorded(s.verdict) && s.verdict.signal == 0 && InHand(c, s.kernel, e) && Indexed(c, s, e.pid)
    requires e.kind.Trapped? && 1 <= e.kind.signal <= 30 && Uncaught(e.kind.signal, o) && !o.trace.Fail?
    ensures OnEvent(c, s, e, o, carried).state.verdict.signal == e.kind.signal
    ensures OnEvent(c, s, e, o, carried).state.verdict.status == 128 + e.kind.signal
  {
    LimitsTouch(c, s, e, o);
    TraceRecordsSignal(c, LimitsOnEvent(c, s, e, o).0, e, o);
    var r := ListenersOnEvent(c, s, e, o);
    AfterKeepsSignal(c, r.state, e, carried || r.kill);
  }

  /** The supervisor fails on an event only when a trace listener does, or when the tracee was killed between its clone
      event and the question for the child's pid: never because a pid is in the tree already, nor because a child is
      heard of although threads are not supported. */
  lemma FailsOnlyIf(w: World, o: Oracle)
    requires Reachable(w) && w.phase.Handling? && Handled(w, o).phase.Failed?
    ensures o.trace.Fail? || (w.phase.event.kind == Trapped(CLONE_TRAP) && w.s.kernel.IsOver(w.phase.event.pid))
  {
    ReachableIsValid(w);
    var c, s, e := w.c, w.s, w.phase.event;
    LimitsTouch(c, s, e, o);
    var t := LimitsOnEvent(c, s, e, o).0;
    if Indexed(c, t, e.pid) && e.kind.Trapped? {
      if e.kind.signal == CLONE_TRAP {
        CloneTrapKeeps(c, t, e, o, w.accepted);
      } else {
        TrapKeeps(c, t, e, o, w.accepted);
      }
    }
  }

  /** Handling a stop of a tracee in the tree resumes the tracee and the child it brought in, unless they were killed. */
  lemma HandledStopIsResumed(w: World, o: Oracle, pid: int)
    requires Reachable(w) && w.phase.Handling? && !Handled(w, o).phase.Failed?
    requires pid in Due(w.c, w.s, w.phase.event)
    ensures Resumed(Handled(w, o).s.kernel, pid)
  {
    ReachableIsValid(w);
    EventTasks(w.c, w.s, w.phase.event, o, w.phase.carried, w.accepted);
  }
}
