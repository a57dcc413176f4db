/** No task is left stopped for good, and how one could be. */
module SupervisionProgress {
  import opened Common
  import opened Tracees
  import opened ProcessInfo
  import opened Supervision
  import opened SupervisionRuns

  // ------------------------------------------------------------------ events that are answered CONTINUE

  /** What an event comes to when nothing is killed: the tracee and the child it brought in go on, a stop outside the tree
      is only noted, and a task that ended is gone. */
  function QuietKernel(c: Config, s: Sandbox, e: Event): Kernel {
    if e.kind.Over? || !Indexed(c, s, e.pid) then (if IsLast(c, e) then s.kernel else s.kernel.Reap(e.pid))
    else if Taken(c, s, e) != {} then s.kernel.Resume(s.kernel.tasks[e.pid].msg).Resume(e.pid)
    else s.kernel.Resume(e.pid)
  }

  ghost function QuietLinks(c: Config, s: Sandbox, e: Event): Links {
    if e.kind.Over? && e.pid in s.links then Prune(s.links, e.pid)
    else if Taken(c, s, e) != {} then s.links[s.kernel.tasks[e.pid].msg := e.pid]
    else s.links
  }

  lemma QuietStop(c: Config, s: Sandbox, pid: int, signal: nat, o: Oracle, kill: bool)
    ensures var r := StopEvent(c, s, pid, signal, o, kill);
      !r.failed && !r.kill ==> !kill && r.state.kernel == s.kernel.Resume(pid) && r.state.links == s.links
  {}

  lemma QuietClone(c: Config, s: Sandbox, e: Event)
    requires e.kind == Trapped(CLONE_TRAP) && Indexed(c, s, e.pid)
    ensures var r := CloneEvent(c, s, e.pid);
      !r.failed && !r.kill ==>
        r.state.kernel.Resume(e.pid) == QuietKernel(c, s, e) && r.state.links == QuietLinks(c, s, e)
  {}

  /** As the trace executor leaves it; a task that ended is reaped by the executor. */
  lemma QuietTrace(c: Config, s: Sandbox, e: Event, o: Oracle)
    ensures var r := TraceOnEvent(c, s, e, o);
      !r.failed && !r.kill ==>
        && r.state.links == QuietLinks(c, s, e)
        && (e.kind.Trapped? ==> r.state.kernel == QuietKernel(c, s, e))
        && (e.kind.Over? ==>
          r.state.kernel == if Indexed(c, s, e.pid) then s.kernel else s.kernel.Reap(e.pid))
  {
    if Indexed(c, s, e.pid) && e.kind.Trapped? {
      var signal := e.kind.signal;
      var t := if !s.execved && signal == EXEC_TRAP then s.(execved := true, peakValid := true) else s;
      if signal == CLONE_TRAP {
        QuietClone(c, s, e);
        var cloned := CloneEvent(c, t, e.pid);
        QuietStop(c, cloned.state, e.pid, signal, o, cloned.kill);
      } else {
        QuietStop(c, t, e.pid, signal, o, false);
      }
    }
  }

  lemma ReapTwice(k: Kernel, pid: int)
    ensures k.Reap(pid).Reap(pid) == k.Reap(pid)
  {}

  lemma QuietEvent(c: Config, s: Sandbox, e: Event, o: Oracle, carried: bool)
    ensures var r := OnEvent(c, s, e, o, carried);
      !r.failed && !r.kill && !IsLast(c, e) ==>
        r.state.kernel == QuietKernel(c, s, e) && r.state.links == QuietLinks(c, s, e)
  {
    LimitsTouch(c, s, e, o);
    QuietTrace(c, LimitsOnEvent(c, s, e, o).0, e, o);
    ReapTwice(s.kernel, e.pid);
  }

  // ------------------------------------------------------------------ lost tasks

  /** A child whose creator is still stopped in the clone call: its clone event is yet to be handled. */
  ghost predicate Awaited(k: Kernel, pid: int) {
    exists q :: InClone(k, q) && k.tasks[q].msg == pid
  }

  /** Outside the tree, with no clone event left to bring it in. */
  ghost predicate Lost(w: World, pid: int) {
    pid in w.s.kernel.used && !Indexed(w.c, w.s, pid) && !Awaited(w.s.kernel, pid)
  }

  /** Lost, and stopped or not yet running: nothing will resume it. */
  ghost predicate Stranded(w: World, pid: int) {
    Lost(w, pid) && (w.s.kernel.Exists(pid) ==> !w.s.kernel.tasks[pid].Running?)
  }

  /** A task an event is not about stays as it is, or is killed, and is not taken into the tree. */
  ghost predicate LeftAlone(before: Sandbox, after: Sandbox, pid: int) {
    && (after.kernel.IsOver(pid) ||
        (pid in before.kernel.tasks && pid in after.kernel.tasks && after.kernel.tasks[pid] == before.kernel.tasks[pid]))
    && after.kernel.used == before.kernel.used && (pid in after.links ==> pid in before.links)
    && forall q | InClone(after.kernel, q) ::
      InClone(before.kernel, q) && after.kernel.tasks[q].msg == before.kernel.tasks[q].msg
  }

  lemma ContinueLeavesAlone(c: Config, s: Sandbox, pid: int, kill: bool, p: int)
    requires p != pid
    ensures LeftAlone(s, Continue(c, s, pid, kill), p)
  {}

  lemma StopLeavesAlone(c: Config, s: Sandbox, pid: int, signal: nat, o: Oracle, kill: bool, p: int)
    requires p != pid
    ensures LeftAlone(s, StopEvent(c, s, pid, signal, o, kill).state, p)
  {
    var t := Heard(s, o);
    var u := if Uncaught(signal, o) then t.(verdict := t.verdict.WithSignal(signal % 256)) else t;
    ContinueLeavesAlone(c, u, pid, kill || o.trace.KillFor? || Uncaught(signal, o), p);
  }

  lemma CloneLeavesAlone(c: Config, s: Sandbox, pid: int, p: int)
    requires s.kernel.IsStopped(pid) ==> s.kernel.tasks[pid].msg != p
    ensures LeftAlone(s, CloneEvent(c, s, pid).state, p)
  {
    CloneCases(c, s, pid);
  }

  lemma TraceLeavesAlone(c: Config, s: Sandbox, e: Event, o: Oracle, p: int)
    requires p != e.pid && (e.kind == Trapped(CLONE_TRAP) && s.kernel.IsStopped(e.pid) ==> s.kernel.tasks[e.pid].msg != p)
    ensures LeftAlone(s, TraceOnEvent(c, s, e, o).state, p)
  {
    if Indexed(c, s, e.pid) && e.kind.Trapped? {
      var signal := e.kind.signal;
      var t := if !s.execved && signal == EXEC_TRAP then s.(execved := true, peakValid := true) else s;
      if signal == CLONE_TRAP {
        CloneLeavesAlone(c, t, e.pid, p);
        var cloned := CloneEvent(c, t, e.pid);
        StopLeavesAlone(c, cloned.state, e.pid, signal, o, cloned.kill, p);
      } else {
        StopLeavesAlone(c, t, e.pid, signal, o, false, p);
      }
    }
  }

  lemma AfterLeavesAlone(c: Config, s: Sandbox, e: Event, kill: bool, p: int)
    requires p != e.pid
    ensures LeftAlone(s, AfterListeners(c, s, e, kill).state, p)
  {}

  lemma EventLeavesAlone(c: Config, s: Sandbox, e: Event, o: Oracle, carried: bool, p: int)
    requires p != e.pid && (e.kind == Trapped(CLONE_TRAP) && s.kernel.IsStopped(e.pid) ==> s.kernel.tasks[e.pid].msg != p)
    ensures LeftAlone(s, OnEvent(c, s, e, o, carried).state, p)
  {
    LimitsTouch(c, s, e, o);
    TraceLeavesAlone(c, LimitsOnEvent(c, s, e, o).0, e, o, p);
    var r := ListenersOnEvent(c, s, e, o);
    AfterLeavesAlone(c, r.state, e, carried || r.kill, p);
  }

  /** An event of a task outside the tree is only noted. */
  lemma OwnEvent(c: Config, s: Sandbox, e: Event, o: Oracle, carried: bool)
    requires !Indexed(c, s, e.pid)
    ensures var t := OnEvent(c, s, e, o, carried).state;
      && t.links == s.links && t.kernel.used == s.kernel.used
      && (s.kernel.IsOver(e.pid) ==> t.kernel.IsOver(e.pid))
      && (s.kernel.IsStopped(e.pid) ==> t.kernel.IsStopped(e.pid) && !t.kernel.tasks[e.pid].waitable)
      && forall q | InClone(t.kernel, q) :: InClone(s.kernel, q) && t.kernel.tasks[q].msg == s.kernel.tasks[q].msg
  {
    LimitsTouch(c, s, e, o);
  }

  lemma NextStaysLost(w: World, step: Step, pid: int)
    requires ValidWorld(w) && Lost(w, pid)
    ensures Lost(Next(w, step), pid) && (Stranded(w, pid) ==> Stranded(Next(w, step), pid))
  {
    if step.Handle? && w.phase.Handling? {
      var e := w.phase.event;
      if e.pid == pid {
        OwnEvent(w.c, w.s, e, step.oracle, w.phase.carried);
      } else {
        EventLeavesAlone(w.c, w.s, e, step.oracle, w.phase.carried, pid);
      }
    }
  }

  /** Whatever happens, a lost task stays lost; and once it has stopped, or if it never ran, it never runs again. */
  lemma {:induction false} LostStaysLost(w: World, rest: seq<Step>, pid: int)
    requires ValidWorld(w) && Lost(w, pid)
    ensures Lost(Exec(w, rest), pid) && (Stranded(w, pid) ==> Stranded(Exec(w, rest), pid))
    decreases |rest|
  {
    if rest != [] {
      NextStaysLost(w, rest[0], pid);
      NextIsValid(w, rest[0]);
      LostStaysLost(Next(w, rest[0]), rest[1..], pid);
    }
  }

  // ------------------------------------------------------------------ orderly steps

  /** The supervisor goes on, and nothing was killed. */
  predicate Going(w: World) {
    (w.phase.Checking? || w.phase.Waiting? || w.phase.Handling?) && !w.killed
  }

  /** Tasks run, and clone, only once they are in the tree, and any other live task is awaited. */
  ghost predicate Served(c: Config, s: Sandbox) {
    forall p | p in s.kernel.tasks ::
      && (s.kernel.tasks[p].Running? || InClone(s.kernel, p) ==> Indexed(c, s, p))
      && (s.kernel.tasks[p].Starting? || s.kernel.tasks[p].Stopped? ==> Indexed(c, s, p) || Awaited(s.kernel, p))
  }

  /** The event in hand comes in time: a task ends after all that were created below it, and a child has stopped, or is
      over, by the time its clone event is handled. */
  ghost predicate Timely(w: World)
    requires w.phase.Handling?
  {
    var k, links, e := w.s.kernel, w.s.links, w.phase.event;
    && (e.kind.Over? && e.pid in links ==> forall p | p in links && p != e.pid && Below(links, p, e.pid) :: k.IsOver(p))
    && (InClone(k, e.pid) && k.Exists(k.tasks[e.pid].msg) ==> !k.tasks[k.tasks[e.pid].msg].Starting?)
  }

  /** And no task is killed in a clone call whose child is still there. */
  ghost predicate Orderly(w: World, step: Step) {
    && (step.Die? && InClone(w.s.kernel, step.pid) ==> w.s.kernel.IsOver(w.s.kernel.tasks[step.pid].msg))
    && (step.Handle? && w.phase.Handling? ==> Timely(w))
  }

  /** No task that still exists is lost. */
  ghost predicate NothingLost(w: World) {
    forall p | Lost(w, p) :: w.s.kernel.IsOver(p)
  }

  lemma ServedLosesNothing(w: World)
    requires Supervised(w) && Served(w.c, w.s)
    ensures NothingLost(w)
  {}

  // ------------------------------------------------------------------ the tasks' steps

  lemma TaskStepServes(w: World, step: Step)
    requires Supervised(w) && Served(w.c, w.s) && Orderly(w, step)
    requires step.Trap? || step.Settle? || step.Die? || step.Finish?
    ensures Served(w.c, Next(w, step).s)
  {
    var k := Next(w, step).s.kernel;
    forall q | InClone(w.s.kernel, q) && !(step.Die? && q == step.pid)
      ensures InClone(k, q) && k.tasks[q].msg == w.s.kernel.tasks[q].msg
    {}
  }

  lemma CloneStepServes(w: World, step: Step)
    requires Supervised(w) && Served(w.c, w.s) && step.Clone?
    ensures Served(w.c, Next(w, step).s)
  {
    var k := Next(w, step).s.kernel;
    forall q | InClone(w.s.kernel, q) ensures InClone(k, q) && k.tasks[q].msg == w.s.kernel.tasks[q].msg {}
    if k != w.s.kernel {
      assert InClone(k, step.pid) && k.tasks[step.pid].msg == step.child;
    }
  }

  /** A kill in a clone call loses the child, unless that is over. */
  lemma KillLoses(w: World, creator: int)
    requires Supervised(w) && InClone(w.s.kernel, creator)
    ensures Lost(Next(w, Die(creator)), w.s.kernel.tasks[creator].msg)
  {}

  // ------------------------------------------------------------------ events

  /** The sandbox after an event in which nothing is killed. */
  ghost function Quiet(w: World): Sandbox
    requires w.phase.Handling?
  {
    w.s.(kernel := QuietKernel(w.c, w.s, w.phase.event), links := QuietLinks(w.c, w.s, w.phase.event))
  }

  lemma ReapServes(w: World)
    requires Supervised(w) && w.phase.Handling? && Served(w.c, w.s) && Timely(w)
    requires var e := w.phase.event; (e.kind.Over? && !IsLast(w.c, e)) || !Indexed(w.c, w.s, e.pid)
    ensures Served(w.c, Quiet(w))
  {
    var k := Quiet(w).kernel;
    forall q | InClone(w.s.kernel, q) ensures InClone(k, q) && k.tasks[q].msg == w.s.kernel.tasks[q].msg {}
  }

  lemma ResumeServes(w: World)
    requires Supervised(w) && w.phase.Handling? && Served(w.c, w.s) && Timely(w)
    requires var e := w.phase.event; e.kind.Trapped? && Indexed(w.c, w.s, e.pid)
    ensures Served(w.c, Quiet(w))
  {
    var e := w.phase.event;
    var k := Quiet(w).kernel;
    forall q | InClone(w.s.kernel, q) && q != e.pid && q !in Taken(w.c, w.s, e)
      ensures InClone(k, q) && k.tasks[q].msg == w.s.kernel.tasks[q].msg
    {}
  }

  /** The end of a task loses those below it. */
  lemma EndLoses(w: World, pid: int)
    requires Supervised(w) && w.phase.Handling? && w.phase.event.kind.Over? && w.phase.event.pid in w.s.links
    requires pid in w.s.links && pid != w.phase.event.pid && Below(w.s.links, pid, w.phase.event.pid)
    ensures Lost(w.(s := Quiet(w)), pid)
    ensures Quiet(w).kernel.IsOver(pid) == w.s.kernel.IsOver(pid)
  {}

  /** An early clone event loses the child. */
  lemma EarlyEventLoses(w: World)
    requires Supervised(w) && w.phase.Handling? && InClone(w.s.kernel, w.phase.event.pid)
    requires Indexed(w.c, w.s, w.phase.event.pid)
    requires var child := w.s.kernel.tasks[w.phase.event.pid].msg;
      w.s.kernel.Exists(child) && w.s.kernel.tasks[child].Starting?
    ensures var child := w.s.kernel.tasks[w.phase.event.pid].msg;
      Lost(w.(s := Quiet(w)), child) && Quiet(w).kernel.Exists(child) && Quiet(w).kernel.tasks[child].Starting?
  {}

  /** An untimely event loses a task that still exists. */
  lemma UntimelyLoses(w: World) returns (pid: int)
    requires Supervised(w) && w.phase.Handling? && Served(w.c, w.s) && !Timely(w)
    ensures Lost(w.(s := Quiet(w)), pid) && !Quiet(w).kernel.IsOver(pid)
  {
    var k, links, e := w.s.kernel, w.s.links, w.phase.event;
    if InClone(k, e.pid) {
      pid := k.tasks[e.pid].msg;
      EarlyEventLoses(w);
    } else {
      pid :| pid in links && pid != e.pid && Below(links, pid, e.pid) && !k.IsOver(pid);
      EndLoses(w, pid);
    }
  }

  lemma LostIsOfTheSandbox(w: World, v: World, pid: int)
    requires w.c == v.c && w.s.kernel == v.s.kernel && w.s.links == v.s.links
    ensures Lost(w, pid) <==> Lost(v, pid)
    ensures Served(w.c, w.s) <==> Served(v.c, v.s)
  {}

  lemma HandledIsQuiet(w: World, o: Oracle)
    requires w.phase.Handling? && Going(Handled(w, o))
    ensures Handled(w, o).s.kernel == Quiet(w).kernel && Handled(w, o).s.links == Quiet(w).links
    ensures Handled(w, o).c == w.c && !IsLast(w.c, w.phase.event)
  {
    QuietEvent(w.c, w.s, w.phase.event, o, w.phase.carried);
  }

  lemma HandledIff(w: World, o: Oracle)
    requires Supervised(w) && w.phase.Handling? && Served(w.c, w.s) && Going(Handled(w, o))
    ensures Timely(w) ==> Served(w.c, Handled(w, o).s)
    ensures !Timely(w) ==> !NothingLost(Handled(w, o))
  {
    HandledIsQuiet(w, o);
    var quiet := w.(s := Quiet(w));
    if Timely(w) {
      if w.phase.event.kind.Over? || !Indexed(w.c, w.s, w.phase.event.pid) {
        ReapServes(w);
      } else {
        ResumeServes(w);
      }
      LostIsOfTheSandbox(quiet, Handled(w, o), 0);
    } else {
      var pid := UntimelyLoses(w);
      LostIsOfTheSandbox(quiet, Handled(w, o), pid);
    }
  }

  // ------------------------------------------------------------------ runs

  /** While the supervisor goes on, a step loses a task that still exists if and only if it is not orderly. */
  lemma ServedIff(w: World, step: Step)
    requires ValidWorld(w) && Going(w) && Served(w.c, w.s) && Going(Next(w, step))
    ensures Orderly(w, step) <==> Served(w.c, Next(w, step).s)
    ensures Orderly(w, step) <==> NothingLost(Next(w, step))
  {
    NextIsValid(w, step);
    match step {
      case Clone(_, _, _) => CloneStepServes(w, step);
      case Handle(o) =>
        if w.phase.Handling? {
          HandledIff(w, o);
        }
      case CheckSignals(_) =>
      case Interrupted =>
      case Wait(_) =>
      case PostExecute(_) =>
      case Die(pid) =>
        if Orderly(w, step) {
          TaskStepServes(w, step);
        } else {
          KillLoses(w, pid);
        }
      case _ => TaskStepServes(w, step);
    }
    if Served(w.c, Next(w, step).s) {
      ServedLosesNothing(Next(w, step));
    }
  }

  ghost predicate AllOrderly(w: World, steps: seq<Step>)
    decreases |steps|
  {
    steps == [] || (Orderly(w, steps[0]) && AllOrderly(Next(w, steps[0]), steps[1..]))
  }

  lemma {:induction false} GoingBefore(w: World, steps: seq<Step>)
    requires Going(Exec(w, steps))
    ensures Going(w)
    decreases |steps|
  {
    if steps != [] {
      GoingBefore(Next(w, steps[0]), steps[1..]);
    }
  }

  ghost predicate LosesNothing(w: World, steps: seq<Step>) {
    forall i | 0 <= i <= |steps| :: NothingLost(Exec(w, steps[..i]))
  }

  lemma LosesNothingFirst(w: World, steps: seq<Step>)
    requires steps != []
    ensures LosesNothing(w, steps) <==> NothingLost(w) && LosesNothing(Next(w, steps[0]), steps[1..])
  {
    var v, rest := Next(w, steps[0]), steps[1..];
    assert Exec(w, steps[..0]) == w;
    forall i | 1 <= i <= |steps| ensures Exec(w, steps[..i]) == Exec(v, rest[..i - 1]) {
      assert steps[..i][1..] == rest[..i - 1];
    }
    if LosesNothing(w, steps) {
      forall i | 0 <= i <= |rest| ensures NothingLost(Exec(v, rest[..i])) {
        assert NothingLost(Exec(w, steps[..i + 1]));
      }
    }
  }

  lemma {:induction false} ExecIff(w: World, steps: seq<Step>)
    requires ValidWorld(w) && Served(w.c, w.s) && Going(Exec(w, steps))
    ensures AllOrderly(w, steps) <==> LosesNothing(w, steps)
    ensures AllOrderly(w, steps) ==> Served(Exec(w, steps).c, Exec(w, steps).s)
    decreases |steps|
  {
    GoingBefore(w, steps);
    ServedLosesNothing(w);
    if steps != [] {
      var v, rest := Next(w, steps[0]), steps[1..];
      GoingBefore(v, rest);
      NextIsValid(w, steps[0]);
      ServedIff(w, steps[0]);
      LosesNothingFirst(w, steps);
      if Orderly(w, steps[0]) {
        ExecIff(v, rest);
      } else {
        assert Exec(v, rest[..0]) == v;
      }
    }
  }

  /** A run that still goes on, with nothing killed, is orderly in each step if and only if at no point of it a task that
      still existed was lost. */
  lemma RunIff(c: Config, steps: seq<Step>)
    requires Going(Exec(Start(c), steps))
    ensures AllOrderly(Start(c), steps) <==> LosesNothing(Start(c), steps)
  {
    StartIsValid(c);
    ExecIff(Start(c), steps);
  }

  /** In an orderly run, while nothing was killed, no task is left stopped for good: its stop is still to be reported, or
      it is a new child whose clone event is, whichever of the two comes first. */
  lemma NoTaskIsStranded(c: Config, steps: seq<Step>, pid: int)
    requires AllOrderly(Start(c), steps) && Going(Exec(Start(c), steps))
    ensures var w := Exec(Start(c), steps);
      w.s.kernel.IsStopped(pid) ==>
        w.s.kernel.Waitable(pid) ||
        exists q :: InClone(w.s.kernel, q) && w.s.kernel.tasks[q].msg == pid && w.s.kernel.Waitable(q)
  {
    StartIsValid(c);
    ExecIsValid(Start(c), steps);
    ExecIff(Start(c), steps);
    var w := Exec(Start(c), steps);
    if w.s.kernel.IsStopped(pid) && !w.s.kernel.Waitable(pid) {
      var q :| InClone(w.s.kernel, q) && w.s.kernel.tasks[q].msg == pid;
      assert w.s.kernel.Waitable(q);
    }
  }


  // ------------------------------------------------------------------ how a task is lost

  /** What a step loses is lost for the rest of the run. */
  lemma LostByStep(w: World, step: Step, rest: seq<Step>, pid: int)
    requires ValidWorld(w) && Lost(Next(w, step), pid)
    ensures var v := Next(w, step);
      Lost(Exec(v, rest), pid) && (Stranded(v, pid) ==> Stranded(Exec(v, rest), pid))
  {
    NextIsValid(w, step);
    LostStaysLost(Next(w, step), rest, pid);
  }

  lemma LostOnEvent(w: World, o: Oracle, pid: int)
    requires w.phase.Handling? && Going(Handled(w, o)) && Lost(w.(s := Quiet(w)), pid)
    ensures Handled(w, o).s.kernel == Quiet(w).kernel && Lost(Handled(w, o), pid)
  {
    HandledIsQuiet(w, o);
    LostIsOfTheSandbox(w.(s := Quiet(w)), Handled(w, o), pid);
  }

  /** A clone event handled before the child has stopped is taken for that of a failed call. */
  lemma EarlyCloneEventStrands(w: World, o: Oracle, rest: seq<Step>)
    requires Reachable(w) && w.phase.Handling? && Going(Handled(w, o))
    requires InClone(w.s.kernel, w.phase.event.pid) && Indexed(w.c, w.s, w.phase.event.pid)
    requires var child := w.s.kernel.tasks[w.phase.event.pid].msg;
      w.s.kernel.Exists(child) && w.s.kernel.tasks[child].Starting?
    ensures var child := w.s.kernel.tasks[w.phase.event.pid].msg;
      && Handled(w, o).s.kernel.Exists(child) && Handled(w, o).s.kernel.tasks[child].Starting?
      && Stranded(Exec(Handled(w, o), rest), child)
  {
    ReachableIsValid(w);
    EarlyEventLoses(w);
    LostOnEvent(w, o, w.s.kernel.tasks[w.phase.event.pid].msg);
    LostByStep(w, Handle(o), rest, w.s.kernel.tasks[w.phase.event.pid].msg);
  }

  /** A creator that is killed in its clone call leaves its child behind, stopped or not, whether or not its stop was
      reported. */
  lemma KilledCreatorStrands(w: World, creator: int, rest: seq<Step>)
    requires Reachable(w) && !w.phase.Failed? && InClone(w.s.kernel, creator)
    ensures var child, v := w.s.kernel.tasks[creator].msg, Next(w, Die(creator));
      && Lost(Exec(v, rest), child) && (Stranded(v, child) ==> Stranded(Exec(v, rest), child))
      && (child != creator ==> (v.s.kernel.IsOver(child) <==> w.s.kernel.IsOver(child)))
  {
    ReachableIsValid(w);
    KillLoses(w, creator);
    LostByStep(w, Die(creator), rest, w.s.kernel.tasks[creator].msg);
  }

  /** A task whose end is handled takes all below it out of the tree, whatever state they are in. */
  lemma EndedCreatorStrands(w: World, o: Oracle, pid: int, rest: seq<Step>)
    requires Reachable(w) && w.phase.Handling? && Going(Handled(w, o))
    requires w.phase.event.kind.Over? && w.phase.event.pid in w.s.links
    requires pid in w.s.links && pid != w.phase.event.pid && Below(w.s.links, pid, w.phase.event.pid)
    ensures var v := Handled(w, o);
      && Lost(Exec(v, rest), pid) && (Stranded(v, pid) ==> Stranded(Exec(v, rest), pid))
      && (v.s.kernel.IsOver(pid) <==> w.s.kernel.IsOver(pid))
  {
    ReachableIsValid(w);
    EndLoses(w, pid);
    LostOnEvent(w, o, pid);
    LostByStep(w, Handle(o), rest, pid);
  }

  /** A lost task that still runs is stranded by its next stop. */
  lemma NextStopStrands(w: World, pid: int, signal: nat, msg: int, rest: seq<Step>)
    requires ValidWorld(w) && Lost(w, pid) && w.s.kernel.Exists(pid) && w.s.kernel.tasks[pid].Running?
    requires signal != CLONE_TRAP
    ensures var v := Next(w, Trap(pid, signal, msg)); v.s.kernel.IsStopped(pid) && Stranded(Exec(v, rest), pid)
  {
    NextStaysLost(w, Trap(pid, signal, msg), pid);
    NextIsValid(w, Trap(pid, signal, msg));
    LostStaysLost(Next(w, Trap(pid, signal, msg)), rest, pid);
  }

  // ------------------------------------------------------------------ runs in which that happens

  const QUIET := Oracle(0, GoOn, 0, false, {}, false)
  const SIGSTOP: SignalNumber := 19

  lemma Then(w: World, step: Step) returns (v: World)
    requires Reachable(w)
    ensures v == Next(w, step) && Reachable(v)
  {
    var c, steps :| w == Exec(Start(c), steps);
    ExecConcat(Start(c), steps, [step]);
    v := Next(w, step);
    assert Exec(w, [step]) == Exec(v, []);
    assert v == Exec(Start(c), steps + [step]);
  }

  lemma Begin(c: Config) returns (w: World)
    ensures w == Start(c) && Reachable(w)
  {
    w := Start(c);
    assert w == Exec(Start(c), []);
  }

  /** The loop is at the wait, and the tasks of the tree run, with no limit near. */
  ghost predicate AtWait(w: World) {
    && w.phase == Waiting(false) && !w.killed && w.s.threads == w.s.links.Keys && !w.s.peakValid && w.c.SupportThreads()
    && w.s.kernel.used == w.s.links.Keys + {w.c.root}
    && forall p | Indexed(w.c, w.s, p) :: w.s.kernel.Exists(p) && w.s.kernel.tasks[p].Running?
  }

  /** A clone event is in hand, of a child that has stopped. */
  ghost predicate Offered(w: World, creator: int, child: int) {
    && w.phase == Handling(Event(creator, Trapped(CLONE_TRAP)), false) && !w.killed && !w.s.peakValid
    && Indexed(w.c, w.s, creator) && !Indexed(w.c, w.s, child)
    && InClone(w.s.kernel, creator) && w.s.kernel.tasks[creator].msg == child && w.s.kernel.IsStopped(child)
    && w.c.SupportThreads() && |w.s.threads + {child}| <= w.c.threadsLimit
  }

  lemma TakenInQuietly(w: World, creator: int, child: int)
    requires Offered(w, creator, child)
    ensures var v := Handled(w, QUIET);
      && Going(v) && v.phase.Checking? && v.s.threads == w.s.threads + {child} && !v.s.peakValid
      && v.s.links == w.s.links[child := creator]
      && v.s.kernel == w.s.kernel.Resume(child).Resume(creator)
  {}

  function InCall(k: Kernel, creator: int, child: int): Kernel {
    Kernel(k.tasks[creator := Stopped(CLONE_TRAP, child, true)][child := Starting], k.used + {child}, k.misses)
  }

  /** A task of the tree makes a child. */
  lemma Call(w: World, creator: int, child: int) returns (v: World)
    requires Reachable(w) && AtWait(w) && Indexed(w.c, w.s, creator) && !Indexed(w.c, w.s, child)
    ensures Reachable(v) && v == w.(s := w.s.(kernel := InCall(w.s.kernel, creator, child)))
    ensures InClone(v.s.kernel, creator) && v.s.kernel.Exists(child)
  {
    assert w.s.kernel.Exists(creator) && w.s.kernel.tasks[creator].Running?;
    v := Then(w, Clone(creator, child, true));
  }

  lemma Hear(w: World, pid: int) returns (v: World)
    requires Reachable(w) && w.phase.Waiting? && w.s.kernel.Waitable(pid) && w.c.SupportThreads()
    ensures Reachable(v) && v == w.(phase := Handling(Event(pid, KindOf(w.s.kernel.tasks[pid])), w.phase.carried))
  {
    v := Then(w, Wait(pid));
  }

  /** The child stops, and the clone event is in hand. */
  lemma Offer(w: World, v: World, creator: int, child: int) returns (u: World)
    requires Reachable(v) && AtWait(w) && Indexed(w.c, w.s, creator) && !Indexed(w.c, w.s, child)
    requires v == w.(s := w.s.(kernel := InCall(w.s.kernel, creator, child)))
    requires |w.s.links.Keys + {child}| <= w.c.threadsLimit
    ensures Reachable(u) && Offered(u, creator, child) && u.c == w.c
    ensures u.s == v.s.(kernel := v.s.kernel.Settle(child, SIGSTOP))
  {
    u := Then(v, Settle(child, SIGSTOP));
    u := Hear(u, creator);
  }

  /** The clone event is handled, and the loop is at the wait again. */
  lemma TakenIn(w: World, creator: int, child: int) returns (v: World)
    requires Reachable(w) && Offered(w, creator, child)
    ensures Reachable(v) && v.c == w.c && v.phase == Waiting(false) && !v.killed && !v.s.peakValid
    ensures v.s.threads == w.s.threads + {child} && v.s.links == w.s.links[child := creator]
    ensures v.s.kernel == w.s.kernel.Resume(child).Resume(creator)
  {
    TakenInQuietly(w, creator, child);
    v := Then(w, Handle(QUIET));
    v := Then(v, CheckSignals(None));
  }

  lemma AtWaitAgain(w: World, v: World, creator: int, child: int)
    requires AtWait(w) && Indexed(w.c, w.s, creator) && !Indexed(w.c, w.s, child)
    requires v.c == w.c && v.phase == Waiting(false) && !v.killed && !v.s.peakValid
    requires v.s.threads == w.s.threads + {child} && v.s.links == w.s.links[child := creator]
    requires v.s.kernel ==
      Kernel(w.s.kernel.tasks[creator := Running][child := Running], w.s.kernel.used + {child}, w.s.kernel.misses)
    ensures AtWait(v)
  {}

  lemma RunsAgain(k: Kernel, creator: int, child: int)
    requires creator != child
    ensures var v := InCall(k, creator, child).Settle(child, SIGSTOP).Resume(child).Resume(creator);
      v == Kernel(k.tasks[creator := Running][child := Running], k.used + {child}, k.misses)
  {
    assert k.tasks[creator := Stopped(CLONE_TRAP, child, true)][child := Starting][child := Stopped(SIGSTOP, 0, true)]
      [child := Running][creator := Running] == k.tasks[creator := Running][child := Running];
  }

  /** A task of the tree makes a child, which stops; then the clone event is handled. */
  lemma Grow(w: World, creator: int, child: int) returns (v: World)
    requires Reachable(w) && AtWait(w) && Indexed(w.c, w.s, creator) && !Indexed(w.c, w.s, child)
    requires |w.s.links.Keys + {child}| <= w.c.threadsLimit
    ensures Reachable(v) && v.c == w.c && AtWait(v) && v.s.links == w.s.links[child := creator]
  {
    var called := Call(w, creator, child);
    var offered := Offer(w, called, creator, child);
    RunsAgain(w.s.kernel, creator, child);
    v := TakenIn(offered, creator, child);
    AtWaitAgain(w, v, creator, child);
  }

  lemma AtFirstWait(c: Config) returns (w: World)
    requires c.SupportThreads()
    ensures Reachable(w) && w.c == c && AtWait(w) && w.s.links == map[]
  {
    w := Begin(c);
    w := Then(w, CheckSignals(None));
  }

  lemma EarlyQuietly(w: World, creator: int, child: int)
    requires w.phase == Handling(Event(creator, Trapped(CLONE_TRAP)), false) && !w.killed && !w.s.peakValid
    requires InClone(w.s.kernel, creator) && w.s.kernel.tasks[creator].msg == child && !w.s.kernel.IsStopped(child)
    ensures Going(Handled(w, QUIET))
  {}

  lemma EndedQuietly(w: World, pid: int)
    requires w.phase == Handling(Event(pid, Over(Exited(0))), false) && !w.killed && !w.s.peakValid
    requires pid != w.c.root && w.c.SupportThreads()
    ensures Going(Handled(w, QUIET))
  {}

  /** The clone event first. */
  lemma EarlyCloneEventHappens(c: Config, child: int) returns (w: World)
    requires c.SupportThreads() && child != c.root
    ensures Reachable(w) && w.c == c && Going(w) && Lost(w, child) && !w.s.kernel.IsOver(child)
  {
    var start := AtFirstWait(c);
    var called := Call(start, c.root, child);
    w := Then(called, Wait(c.root));
    EarlyQuietly(w, c.root, child);
    EarlyCloneEventStrands(w, QUIET, []);
    w := Then(w, Handle(QUIET));
  }

  lemma OneThread(c: Config, creator: int) returns (w: World)
    requires c.threadsLimit > 0 && creator != c.root
    ensures Reachable(w) && w.c == c && AtWait(w) && w.s.links == map[creator := c.root]
  {
    var start := AtFirstWait(c);
    assert start.s.links.Keys + {creator} == {creator};
    w := Grow(start, c.root, creator);
  }

  lemma TwoThreads(c: Config, creator: int, child: int) returns (w: World)
    requires c.threadsLimit > 1 && creator != c.root && child != c.root && creator != child
    ensures Reachable(w) && w.c == c && AtWait(w) && w.s.links == map[creator := c.root, child := creator]
  {
    var one := OneThread(c, creator);
    assert one.s.links.Keys + {child} == {creator, child};
    w := Grow(one, creator, child);
  }

  lemma ParentIsAbove(links: Links, child: int, parent: int)
    requires child in links && links[child] == parent
    ensures Below(links, child, parent)
  {
    assert Climb(links, child, 1) == parent;
  }

  /** A thread killed in its clone call. */
  lemma KilledCreatorHappens(c: Config, creator: int, child: int) returns (w: World)
    requires c.threadsLimit > 0 && creator != c.root && child != c.root && creator != child
    ensures Reachable(w) && w.c == c && Going(w) && Lost(w, child) && !w.s.kernel.IsOver(child)
  {
    var one := OneThread(c, creator);
    var called := Call(one, creator, child);
    KilledCreatorStrands(called, creator, []);
    w := Then(called, Die(creator));
  }

  lemma EndInHand(w: World, creator: int) returns (v: World)
    requires Reachable(w) && AtWait(w) && creator in w.s.links
    ensures Reachable(v) && v.phase == Handling(Event(creator, Over(Exited(0))), false) && v.c == w.c && !v.killed
    ensures v.s == w.s.(kernel := w.s.kernel.Finish(creator, Exited(0)))
  {
    assert Indexed(w.c, w.s, creator);
    v := Then(w, Finish(creator, Exited(0)));
    v := Hear(v, creator);
  }

  lemma EndTaken(w: World, creator: int, child: int) returns (v: World)
    requires Reachable(w) && w.phase == Handling(Event(creator, Over(Exited(0))), false) && !w.killed && !w.s.peakValid
    requires creator != w.c.root && w.c.SupportThreads() && creator in w.s.links && child in w.s.links && child != creator
    requires Below(w.s.links, child, creator)
    ensures Reachable(v) && Going(v) && v.c == w.c && Lost(v, child)
    ensures v.s.kernel.IsOver(child) <==> w.s.kernel.IsOver(child)
  {
    EndedQuietly(w, creator);
    EndedCreatorStrands(w, QUIET, child, []);
    v := Then(w, Handle(QUIET));
  }

  /** A thread that ends before the one it has made. */
  lemma EndedCreatorHappens(c: Config, creator: int, child: int) returns (w: World)
    requires c.threadsLimit > 1 && creator != c.root && child != c.root && creator != child
    ensures Reachable(w) && w.c == c && Going(w) && Lost(w, child) && !w.s.kernel.IsOver(child)
  {
    var two := TwoThreads(c, creator, child);
    ParentIsAbove(two.s.links, child, creator);
    assert Indexed(c, two.s, child);
    var ended := EndInHand(two, creator);
    w := EndTaken(ended, creator, child);
  }
}
