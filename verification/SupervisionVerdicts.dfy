/** What an event makes of a run: when it is answered KILL, and what it leaves on the record. */
module SupervisionVerdicts {
  import opened Common
  import opened Tracees
  import opened ProcessInfo
  import opened Supervision
  import opened SupervisionRuns
  import R = ResultRecord

  // ------------------------------------------------------------------ the causes of a KILL

  /** After exec, under a memory limit, the peak so far or the one now read is over it. */
  predicate PeakExceeds(c: Config, s: Sandbox, o: Oracle) {
    s.peakValid && c.memoryLimitKb > 0 && (s.peakKb > c.memoryLimitKb || o.vmPeakKb > c.memoryLimitKb)
  }

  /** Under an output limit, signal 25, that of a file size limit, stops or has killed a task. */
  predicate OutputExceeds(c: Config, e: Event) {
    c.outputLimited && (e.kind == Trapped(25) || e.kind == Over(Killed(25)))
  }

  /** A clone call of the tree, trap 5 with event 3, whose child has stopped and is new, where no thread is allowed or the
      child is one too many. */
  predicate CloneExceeds(c: Config, s: Sandbox, e: Event) {
    && e.kind == Trapped(5 + 3 * 256) && Indexed(c, s, e.pid) && s.kernel.IsStopped(e.pid)
    && var child := s.kernel.tasks[e.pid].msg;
    && s.kernel.IsStopped(child) && !Indexed(c, s, child)
    && (c.threadsLimit < 0 || |s.threads + {child}| > c.threadsLimit)
  }

  /** A stop of the tree on which a trace listener answers KILL. */
  predicate ListenerKills(c: Config, s: Sandbox, e: Event, o: Oracle) {
    e.kind.Trapped? && Indexed(c, s, e.pid) && o.trace.KillFor?
  }

  /** A stop of the tree by a signal that is not suppressed, not a trap, and neither caught nor SIGCHLD, SIGCONT, SIGSTOP,
      SIGURG or SIGWINCH. */
  predicate SignalKills(c: Config, s: Sandbox, e: Event, o: Oracle) {
    && e.kind.Trapped? && Indexed(c, s, e.pid) && s.kernel.Exists(e.pid) && !o.suppressed
    && var signal := e.kind.signal % 256;
    && signal != 0 && signal != 5
    && if signal <= 30 then signal !in o.caught && signal !in {17, 18, 19, 23, 28} else o.beyond
  }

  lemma LimitsKillIff(c: Config, s: Sandbox, e: Event, o: Oracle)
    ensures LimitsOnEvent(c, s, e, o).1 <==> PeakExceeds(c, s, o) || OutputExceeds(c, e)
    ensures LimitsOnEvent(c, s, e, o).0.verdict.reason ==
      if s.verdict.reason != R.NONE then s.verdict.reason
      else if PeakExceeds(c, s, o) then R.MLE
      else if OutputExceeds(c, e) then R.OLE
      else R.NONE
    ensures var v := LimitsOnEvent(c, s, e, o).0.verdict; v.signal == s.verdict.signal && v.status == s.verdict.status
  {}

  lemma LimitsLeave(c: Config, s: Sandbox, e: Event, o: Oracle)
    requires e.kind.Trapped?
    ensures var t := LimitsOnEvent(c, s, e, o).0;
      t.kernel == s.kernel && t.links == s.links && t.threads == s.threads && t.peakValid == s.peakValid
  {}

  lemma CloneKillsIff(c: Config, s: Sandbox, e: Event)
    requires e.kind == Trapped(CLONE_TRAP) && Indexed(c, s, e.pid)
    ensures var r := CloneEvent(c, s, e.pid);
      && (r.kill <==> CloneExceeds(c, s, e)) && r.state.verdict == (if r.kill then s.verdict.WithReason(R.RV) else s.verdict)
  {}

  lemma StopKillsIff(c: Config, s: Sandbox, pid: int, signal: nat, o: Oracle, kill: bool)
    requires !o.trace.Fail? && Indexed(c, s, pid)
    ensures var r := StopEvent(c, s, pid, signal, o, kill);
      var e := Event(pid, Trapped(signal));
      var own := if SignalKills(c, s, e, o) then signal % 256 else 0;
      && (r.kill <==> kill || o.trace.KillFor? || SignalKills(c, s, e, o))
      && (s.kernel.Exists(pid) ==> r.state.verdict == StopRecord(s.verdict, o.trace, own, r.kill))
  {}

  /** The record after a stop of the tree: the clone's reason first, then the listener's; the own signal before that of a
      KILL. */
  predicate RecordedAs(before: R.Verdict, after: R.Verdict, clone: bool, trace: TraceAnswer, own: nat) {
    && after.reason == (
      if before.reason != R.NONE then before.reason
      else if clone then R.RV
      else if trace.KillFor? then trace.reason
      else R.NONE)
    && after.signal == (
      if before.signal != 0 then before.signal
      else if own != 0 then own
      else if clone || trace.KillFor? then 9
      else 0)
  }

  lemma StopRecordIs(before: R.Verdict, clone: bool, trace: TraceAnswer, own: nat)
    ensures var v := if clone then before.WithReason(R.RV) else before;
      RecordedAs(before, StopRecord(v, trace, own, clone || trace.KillFor? || own != 0), clone, trace, own)
  {}

  lemma CloneStopKillsIff(c: Config, s: Sandbox, e: Event, o: Oracle)
    requires e.kind == Trapped(CLONE_TRAP) && Indexed(c, s, e.pid) && !TraceOnEvent(c, s, e, o).failed
    ensures var r := TraceOnEvent(c, s, e, o);
      && (r.kill <==> CloneExceeds(c, s, e) || o.trace.KillFor?)
      && RecordedAs(s.verdict, r.state.verdict, CloneExceeds(c, s, e), o.trace, 0)
  {
    CloneKillsIff(c, s, e);
    CloneCases(c, s, e.pid);
    var cloned := CloneEvent(c, s, e.pid);
    StopKillsIff(c, cloned.state, e.pid, CLONE_TRAP, o, cloned.kill);
    StopRecordIs(s.verdict, cloned.kill, o.trace, 0);
  }

  lemma OtherStopKillsIff(c: Config, s: Sandbox, e: Event, o: Oracle)
    requires e.kind.Trapped? && e.kind.signal != CLONE_TRAP && Indexed(c, s, e.pid) && s.kernel.Exists(e.pid)
    requires !TraceOnEvent(c, s, e, o).failed
    ensures var r := TraceOnEvent(c, s, e, o);
      && (r.kill <==> o.trace.KillFor? || SignalKills(c, s, e, o))
      && RecordedAs(s.verdict, r.state.verdict, false, o.trace,
                    if SignalKills(c, s, e, o) then e.kind.signal % 256 else 0)
  {
    var t := if !s.execved && e.kind.signal == EXEC_TRAP then s.(execved := true, peakValid := true) else s;
    StopKillsIff(c, t, e.pid, e.kind.signal, o, false);
    StopRecordIs(s.verdict, false, o.trace, if SignalKills(c, s, e, o) then e.kind.signal % 256 else 0);
  }

  /** The causes of a KILL among the trace listeners, and what they leave on the record. */
  predicate TracedAs(c: Config, s: Sandbox, e: Event, o: Oracle, kill: bool, after: R.Verdict) {
    && (kill <==> CloneExceeds(c, s, e) || ListenerKills(c, s, e, o) || SignalKills(c, s, e, o))
    && RecordedAs(s.verdict, after, CloneExceeds(c, s, e), if ListenerKills(c, s, e, o) then o.trace else GoOn,
                  if SignalKills(c, s, e, o) then e.kind.signal % 256 else 0)
  }

  lemma CloneStopTraced(c: Config, s: Sandbox, e: Event, o: Oracle, kill: bool, after: R.Verdict)
    requires e.kind == Trapped(CLONE_TRAP) && Indexed(c, s, e.pid)
    requires kill <==> CloneExceeds(c, s, e) || o.trace.KillFor?
    requires RecordedAs(s.verdict, after, CloneExceeds(c, s, e), o.trace, 0)
    ensures TracedAs(c, s, e, o, kill, after)
  {}

  lemma OtherStopTraced(c: Config, s: Sandbox, e: Event, o: Oracle, kill: bool, after: R.Verdict)
    requires e.kind.Trapped? && e.kind.signal != CLONE_TRAP && Indexed(c, s, e.pid)
    requires kill <==> o.trace.KillFor? || SignalKills(c, s, e, o)
    requires RecordedAs(s.verdict, after, false, o.trace, if SignalKills(c, s, e, o) then e.kind.signal % 256 else 0)
    ensures TracedAs(c, s, e, o, kill, after)
  {}

  lemma StrangerTraced(c: Config, s: Sandbox, e: Event, o: Oracle)
    requires e.kind.Trapped? && !Indexed(c, s, e.pid)
    ensures var r := TraceOnEvent(c, s, e, o); TracedAs(c, s, e, o, r.kill, r.state.verdict)
  {}

  lemma TraceKillsIff(c: Config, s: Sandbox, e: Event, o: Oracle)
    requires e.kind.Trapped? && s.kernel.Exists(e.pid) && !TraceOnEvent(c, s, e, o).failed
    ensures var r := TraceOnEvent(c, s, e, o); TracedAs(c, s, e, o, r.kill, r.state.verdict)
  {
    var r := TraceOnEvent(c, s, e, o);
    if !Indexed(c, s, e.pid) {
      StrangerTraced(c, s, e, o);
    } else if e.kind.signal == CLONE_TRAP {
      CloneStopKillsIff(c, s, e, o);
      CloneStopTraced(c, s, e, o, r.kill, r.state.verdict);
    } else {
      OtherStopKillsIff(c, s, e, o);
      OtherStopTraced(c, s, e, o, r.kill, r.state.verdict);
    }
  }

  /** The causes of a KILL. */
  predicate Kills(w: World, o: Oracle)
    requires w.phase.Handling?
  {
    var c, s, e := w.c, w.s, w.phase.event;
    || w.phase.carried || PeakExceeds(c, s, o) || OutputExceeds(c, e)
    || CloneExceeds(c, s, e) || ListenerKills(c, s, e, o) || SignalKills(c, s, e, o)
  }

  /** The first cause there is gives the reason. */
  function ReasonAfter(w: World, o: Oracle): R.KillReason
    requires w.phase.Handling?
  {
    var c, s, e := w.c, w.s, w.phase.event;
    if s.verdict.reason != R.NONE then s.verdict.reason
    else if PeakExceeds(c, s, o) then R.MLE
    else if OutputExceeds(c, e) then R.OLE
    else if CloneExceeds(c, s, e) then R.RV
    else if ListenerKills(c, s, e, o) then o.trace.reason
    else R.NONE
  }

  /** The tracee's own signal, or 9 for any other KILL; at the end of the root what has killed it. */
  function SignalAfter(w: World, o: Oracle): nat
    requires w.phase.Handling?
  {
    var c, s, e := w.c, w.s, w.phase.event;
    if s.verdict.signal != 0 then s.verdict.signal
    else if e.kind.Over? && e.pid == c.root then (if e.kind.how.Killed? then e.kind.how.signal else 0)
    else if SignalKills(c, s, e, o) then e.kind.signal % 256
    else if Kills(w, o) then 9
    else 0
  }

  lemma StopIsRecordedAs(w: World, o: Oracle)
    requires w.phase.Handling? && w.phase.event.kind.Trapped? && w.s.kernel.Exists(w.phase.event.pid)
    requires !OnEvent(w.c, w.s, w.phase.event, o, w.phase.carried).failed
    ensures var r := OnEvent(w.c, w.s, w.phase.event, o, w.phase.carried);
      && (r.kill <==> Kills(w, o))
      && r.state.verdict.reason == ReasonAfter(w, o) && r.state.verdict.signal == SignalAfter(w, o)
  {
    var c, s, e := w.c, w.s, w.phase.event;
    LimitsKillIff(c, s, e, o);
    LimitsLeave(c, s, e, o);
    TraceKillsIff(c, LimitsOnEvent(c, s, e, o).0, e, o);
  }

  lemma TraceAtEnd(c: Config, s: Sandbox, e: Event, o: Oracle)
    requires e.kind.Over?
    ensures var r := TraceOnEvent(c, s, e, o); !r.kill && !r.failed && r.state.verdict == s.verdict
  {}

  lemma AfterEnd(c: Config, s: Sandbox, e: Event, kill: bool)
    requires e.kind.Over? && !AfterListeners(c, s, e, kill).failed
    ensures var r := AfterListeners(c, s, e, kill);
      && r.kill == kill && r.state.verdict.reason == s.verdict.reason
      && r.state.verdict.signal == (
        if s.verdict.signal != 0 then s.verdict.signal
        else if e.pid == c.root then (if e.kind.how.Killed? then e.kind.how.signal else 0)
        else if kill then 9
        else 0)
  {}

  lemma EndIsRecordedAs(w: World, o: Oracle)
    requires w.phase.Handling? && w.phase.event.kind.Over?
    requires !OnEvent(w.c, w.s, w.phase.event, o, w.phase.carried).failed
    ensures var r := OnEvent(w.c, w.s, w.phase.event, o, w.phase.carried);
      && (r.kill <==> Kills(w, o))
      && r.state.verdict.reason == ReasonAfter(w, o) && r.state.verdict.signal == SignalAfter(w, o)
  {
    var c, s, e := w.c, w.s, w.phase.event;
    var (t, kill) := LimitsOnEvent(c, s, e, o);
    LimitsKillIff(c, s, e, o);
    TraceAtEnd(c, t, e, o);
    AfterEnd(c, TraceOnEvent(c, t, e, o).state, e, w.phase.carried || kill);
  }

  /** An event that does not make the supervisor fail is answered KILL exactly for one of the causes, and leaves the reason
      and the signal that they give. */
  lemma EventIsRecordedAs(w: World, o: Oracle)
    requires Reachable(w) && w.phase.Handling? && !Handled(w, o).phase.Failed?
    ensures var v := Handled(w, o);
      && (v.killed <==> w.killed || Kills(w, o))
      && v.s.verdict.reason == ReasonAfter(w, o) && v.s.verdict.signal == SignalAfter(w, o)
  {
    ReachableIsValid(w);
    if w.phase.event.kind.Trapped? {
      StopIsRecordedAs(w, o);
    } else {
      EndIsRecordedAs(w, o);
    }
  }

  // ------------------------------------------------------------------ signals

  /** A signal that a tracee neither catches nor has ignored, and that is not suppressed, kills it and is on record. */
  lemma UncaughtSignalKills(w: World, o: Oracle)
    requires Reachable(w) && w.phase.Handling? && Indexed(w.c, w.s, w.phase.event.pid) && !o.trace.Fail?
    requires w.phase.event.kind.Trapped? && 1 <= w.phase.event.kind.signal <= 30
    requires w.phase.event.kind.signal !in o.caught + {5, 17, 18, 19, 23, 28} && !o.suppressed
    ensures Handled(w, o).killed
    ensures w.s.verdict.signal == 0 ==> Handled(w, o).s.verdict.signal == w.phase.event.kind.signal
  {
    ReachableIsValid(w);
    StopDoesNotFail(w, o);
    EventIsRecordedAs(w, o);
  }

  lemma StopDoesNotFail(w: World, o: Oracle)
    requires Reachable(w) && w.phase.Handling? && !o.trace.Fail?
    requires w.phase.event.kind.Trapped? && w.phase.event.kind.signal != CLONE_TRAP
    ensures !Handled(w, o).phase.Failed?
  {
    if Handled(w, o).phase.Failed? {
      FailsOnlyIf(w, o);
    }
  }

  /** Where no limit is exceeded and no listener answers KILL, a signal that is caught, ignored or suppressed, or a trap,
      kills nothing and is not recorded. */
  lemma OtherSignalsGoOn(w: World, o: Oracle)
    requires Reachable(w) && w.phase.Handling? && w.phase.event.kind.Trapped? && o.trace.GoOn?
    requires var signal := w.phase.event.kind.signal;
      0 <= signal <= 30 && (o.suppressed || signal in o.caught + {0, 5, 17, 18, 19, 23, 28})
    requires !w.phase.carried && !PeakExceeds(w.c, w.s, o) && !OutputExceeds(w.c, w.phase.event)
    ensures Handled(w, o).killed == w.killed && Handled(w, o).s.verdict.signal == w.s.verdict.signal
    ensures Handled(w, o).s.verdict.reason == w.s.verdict.reason
  {
    StopDoesNotFail(w, o);
    EventIsRecordedAs(w, o);
  }

  /** What a tracee is resumed with: 9 in place of a signal that kills it, nothing for a trap or a suppressed signal, and
      otherwise the signal itself. */
  lemma InjectedIs(c: Config, s: Sandbox, e: Event, o: Oracle)
    requires e.kind.Trapped? && Indexed(c, s, e.pid) && s.kernel.Exists(e.pid)
    ensures Injected(e.kind.signal, o) ==
      if SignalKills(c, s, e, o) then 9
      else if o.suppressed || e.kind.signal % 256 == 5 then 0
      else e.kind.signal % 256
  {}

  // ------------------------------------------------------------------ the memory limit

  /** The first exec of the tree is handled. */
  predicate SeesExec(w: World, step: Step) {
    step.Handle? && w.phase.Handling? && w.phase.event.kind == Trapped(5 + 4 * 256) && Indexed(w.c, w.s, w.phase.event.pid)
  }

  lemma LimitsLeavePeak(c: Config, s: Sandbox, e: Event, o: Oracle)
    ensures var t := LimitsOnEvent(c, s, e, o).0;
      t.execved == s.execved && t.peakValid == s.peakValid && t.kernel == s.kernel && t.links == s.links
  {}

  /** The two notes of the exec event. */
  predicate SameNotes(s: Sandbox, t: Sandbox) {
    t.execved == s.execved && t.peakValid == s.peakValid
  }

  lemma StopLeavesNotes(c: Config, s: Sandbox, pid: int, signal: nat, o: Oracle, kill: bool)
    ensures SameNotes(s, StopEvent(c, s, pid, signal, o, kill).state)
  {}

  lemma CloneLeavesNotes(c: Config, s: Sandbox, pid: int)
    ensures SameNotes(s, CloneEvent(c, s, pid).state)
  {}

  lemma TraceSeesExec(c: Config, s: Sandbox, e: Event, o: Oracle)
    requires s.execved == s.peakValid
    ensures var t := TraceOnEvent(c, s, e, o).state;
      t.peakValid == (s.peakValid || (e.kind == Trapped(5 + 4 * 256) && Indexed(c, s, e.pid))) && t.execved == t.peakValid
  {
    if Indexed(c, s, e.pid) && e.kind.Trapped? {
      var signal := e.kind.signal;
      var t := if !s.execved && signal == EXEC_TRAP then s.(execved := true, peakValid := true) else s;
      if signal == CLONE_TRAP {
        CloneLeavesNotes(c, t, e.pid);
        var cloned := CloneEvent(c, t, e.pid);
        StopLeavesNotes(c, cloned.state, e.pid, signal, o, cloned.kill);
      } else {
        StopLeavesNotes(c, t, e.pid, signal, o, false);
      }
    }
  }

  lemma StepSeesExec(w: World, step: Step)
    requires w.s.execved == w.s.peakValid
    ensures var v := Next(w, step);
      v.s.peakValid == (w.s.peakValid || SeesExec(w, step)) && v.s.execved == v.s.peakValid
  {
    if step.Handle? && w.phase.Handling? {
      LimitsLeavePeak(w.c, w.s, w.phase.event, step.oracle);
      TraceSeesExec(w.c, LimitsOnEvent(w.c, w.s, w.phase.event, step.oracle).0, w.phase.event, step.oracle);
    }
  }

  /** Some step of the run handles the exec event of a task of the tree. */
  ghost predicate HasSeenExec(w: World, steps: seq<Step>) {
    exists i | 0 <= i < |steps| :: SeesExec(Exec(w, steps[..i]), steps[i])
  }

  lemma {:induction false} PeakIsValidUpto(c: Config, steps: seq<Step>)
    ensures var s := Exec(Start(c), steps).s; s.peakValid == HasSeenExec(Start(c), steps) && s.execved == s.peakValid
    decreases |steps|
  {
    if steps != [] {
      var n := |steps| - 1;
      var before := steps[..n];
      PeakIsValidUpto(c, before);
      assert steps == before + [steps[n]];
      ExecConcat(Start(c), before, [steps[n]]);
      StepSeesExec(Exec(Start(c), before), steps[n]);
      HasSeenOneMore(Start(c), before, steps[n]);
    }
  }

  lemma HasSeenOneMore(w: World, steps: seq<Step>, step: Step)
    ensures HasSeenExec(w, steps + [step]) <==> HasSeenExec(w, steps) || SeesExec(Exec(w, steps), step)
    ensures Exec(Exec(w, steps), [step]) == Next(Exec(w, steps), step)
  {
    var more := steps + [step];
    assert more[..|steps|] == steps;
    forall i | 0 <= i < |steps| ensures more[..i] == steps[..i] && more[i] == steps[i] {}
    if HasSeenExec(w, steps) {
      var i :| 0 <= i < |steps| && SeesExec(Exec(w, steps[..i]), steps[i]);
      assert SeesExec(Exec(w, more[..i]), more[i]);
    } else if SeesExec(Exec(w, steps), step) {
      assert SeesExec(Exec(w, more[..|steps|]), more[|steps|]);
    }
    var v := Exec(w, steps);
    assert Exec(v, [step]) == Exec(Next(v, step), []);
  }

  /** The memory limit is in force exactly from the first exec on: then, and not before, an event that reads a peak over a
      positive limit is answered KILL, with MLE if nothing is on record yet. */
  lemma LimitIsInForceIff(c: Config, steps: seq<Step>, o: Oracle)
    requires Exec(Start(c), steps).phase.Handling? && c.memoryLimitKb > 0 && o.vmPeakKb > c.memoryLimitKb
    requires !Handled(Exec(Start(c), steps), o).phase.Failed?
    ensures var w := Exec(Start(c), steps);
      if HasSeenExec(Start(c), steps)
      then Handled(w, o).killed && (w.s.verdict.reason == R.NONE ==> Handled(w, o).s.verdict.reason == R.MLE)
      else w.s.verdict.reason != R.MLE && o.trace != KillFor(R.MLE) ==> Handled(w, o).s.verdict.reason != R.MLE
  {
    var w := Exec(Start(c), steps);
    PeakIsValidUpto(c, steps);
    assert Reachable(w);
    KeepsConfig(Start(c), steps);
    EventIsRecordedAs(w, o);
  }

  lemma {:induction false} KeepsConfig(w: World, steps: seq<Step>)
    ensures Exec(w, steps).c == w.c
    decreases |steps|
  {
    if steps != [] {
      KeepsConfig(Next(w, steps[0]), steps[1..]);
    }
  }

  /** Without an excess nothing is recorded for memory but what a trace listener reports. */
  lemma NoExcessNoMemoryReason(w: World, o: Oracle)
    requires Reachable(w) && w.phase.Handling? && !Handled(w, o).phase.Failed?
    requires !(w.s.peakValid && w.c.memoryLimitKb > 0 && (w.s.peakKb > w.c.memoryLimitKb || o.vmPeakKb > w.c.memoryLimitKb))
    requires w.s.verdict.reason != R.MLE && o.trace != KillFor(R.MLE)
    ensures Handled(w, o).s.verdict.reason != R.MLE
  {
    EventIsRecordedAs(w, o);
  }

  // ------------------------------------------------------------------ the end of the root

  /** With no signal on record, how the root ended is what the record says. */
  lemma RootEndIsRecorded(w: World, o: Oracle)
    requires Reachable(w) && w.phase.Handling? && w.phase.event.pid == w.c.root && w.phase.event.kind.Over?
    requires w.s.verdict.signal == 0
    ensures var v := Handled(w, o).s.verdict;
      match w.phase.event.kind.how
      case Exited(status) => v.status == status && v.signal == 0
      case Killed(signal) => v.signal == signal && v.status == 128 + signal
  {
    ReachableIsValid(w);
    LimitsKillIff(w.c, w.s, w.phase.event, o);
  }

  /** Once the root's end is handled it stays as it is, and the record tells it: its status if no signal is there, and a
      signal if it was killed. */
  ghost predicate RootIsTold(w: World) {
    w.phase.Finished? || w.phase.Reported? ==>
      && w.c.root in w.s.kernel.tasks && w.s.kernel.tasks[w.c.root].Ended?
      && var how := w.s.kernel.tasks[w.c.root].how;
      w.s.verdict.signal == 0 ==> how.Exited? && how.status == w.s.verdict.status
  }

  lemma RootEndIsTold(w: World, o: Oracle)
    requires ValidWorld(w) && w.phase.Handling? && IsLast(w.c, w.phase.event)
    ensures RootIsTold(Handled(w, o))
  {
    LimitsKillIff(w.c, w.s, w.phase.event, o);
    LimitsLeavePeak(w.c, w.s, w.phase.event, o);
  }

  lemma NextIsTold(w: World, step: Step)
    requires ValidWorld(w) && RootIsTold(w)
    ensures RootIsTold(Next(w, step))
  {
    if step.Handle? && w.phase.Handling? && IsLast(w.c, w.phase.event) {
      RootEndIsTold(w, step.oracle);
    }
  }

  lemma {:induction false} RunIsTold(w: World, steps: seq<Step>)
    requires ValidWorld(w) && RootIsTold(w)
    ensures RootIsTold(Exec(w, steps))
    decreases |steps|
  {
    if steps != [] {
      NextIsTold(w, steps[0]);
      NextIsValid(w, steps[0]);
      RunIsTold(Next(w, steps[0]), steps[1..]);
    }
  }

  /** A finished run is ok exactly if the root exited with status 0 and neither a reason nor a signal is on record; with
      another status, and neither of those, that status is the verdict. */
  lemma FinishedIsOkIff(w: World)
    requires Reachable(w) && (w.phase.Finished? || w.phase.Reported?)
    ensures w.c.root in w.s.kernel.tasks && w.s.kernel.tasks[w.c.root].Ended?
    ensures var how, v := w.s.kernel.tasks[w.c.root].how, w.s.verdict;
      && (v.Text().Ok? <==> how == Exited(0) && v.reason == R.NONE && v.signal == 0)
      && (v.reason == R.NONE && v.signal == 0 && how != Exited(0) ==>
            how.Exited? && v.Text() == R.RuntimeError(how.status) && v.Code() == 200 + how.status)
  {
    var c, steps :| w == Exec(Start(c), steps);
    StartIsValid(c);
    RunIsTold(Start(c), steps);
    ReachableIsValid(w);
  }

  lemma LimitsPeak(c: Config, s: Sandbox, e: Event, o: Oracle)
    requires s.peakValid
    ensures LimitsOnEvent(c, s, e, o).0.peakKb == Max(s.peakKb, o.vmPeakKb)
  {}

  lemma StopPeak(c: Config, s: Sandbox, pid: int, signal: nat, o: Oracle, kill: bool)
    requires s.peakValid && !o.trace.Fail?
    ensures StopEvent(c, s, pid, signal, o, kill).state.peakKb == Max(s.peakKb, o.reachedKb)
  {}

  lemma TracePeak(c: Config, s: Sandbox, e: Event, o: Oracle)
    requires s.peakValid && !TraceOnEvent(c, s, e, o).failed
    ensures TraceOnEvent(c, s, e, o).state.peakKb ==
      if e.kind.Trapped? && Indexed(c, s, e.pid) then Max(s.peakKb, o.reachedKb) else s.peakKb
  {
    if e.kind.Trapped? && Indexed(c, s, e.pid) {
      var signal := e.kind.signal;
      var t := if !s.execved && signal == EXEC_TRAP then s.(execved := true, peakValid := true) else s;
      if signal == CLONE_TRAP {
        var cloned := CloneEvent(c, t, e.pid);
        StopPeak(c, cloned.state, e.pid, signal, o, cloned.kill);
      } else {
        StopPeak(c, t, e.pid, signal, o, false);
      }
    }
  }

  lemma AfterPeak(c: Config, s: Sandbox, e: Event, kill: bool)
    ensures AfterListeners(c, s, e, kill).state.peakKb == s.peakKb
  {}

  /** After exec the peak grows to what is read, and to what the memory limit's handler comes to. */
  lemma PeakGrows(w: World, o: Oracle)
    requires w.phase.Handling? && !Handled(w, o).phase.Failed? && w.s.peakValid
    ensures Handled(w, o).s.peakKb ==
      if w.phase.event.kind.Trapped? && Indexed(w.c, w.s, w.phase.event.pid)
      then Max(Max(w.s.peakKb, o.vmPeakKb), o.reachedKb)
      else Max(w.s.peakKb, o.vmPeakKb)
  {
    var c, s, e := w.c, w.s, w.phase.event;
    LimitsPeak(c, s, e, o);
    LimitsLeavePeak(c, s, e, o);
    TracePeak(c, LimitsOnEvent(c, s, e, o).0, e, o);
    var r := ListenersOnEvent(c, s, e, o);
    AfterPeak(c, r.state, e, w.phase.carried || r.kill);
  }

  // ------------------------------------------------------------------ whom a KILL reaches

  lemma StopKillReaches(c: Config, s: Sandbox, pid: int, signal: nat, o: Oracle, kill: bool)
    requires s.kernel.Exists(pid) && !o.trace.Fail?
    ensures var r := StopEvent(c, s, pid, signal, o, kill);
      && (r.kill ==> r.state.kernel.IsOver(pid) && r.state.kernel.IsOver(c.root))
      && forall p | s.kernel.IsOver(p) :: r.state.kernel.IsOver(p)
  {}

  lemma TraceKillReaches(c: Config, s: Sandbox, e: Event, o: Oracle)
    requires e.kind.Trapped? && Indexed(c, s, e.pid) && s.kernel.Exists(e.pid) && !TraceOnEvent(c, s, e, o).failed
    ensures var r := TraceOnEvent(c, s, e, o);
      && (r.kill ==> r.state.kernel.IsOver(e.pid) && r.state.kernel.IsOver(c.root))
      && (CloneExceeds(c, s, e) ==> r.state.kernel.IsOver(s.kernel.tasks[e.pid].msg))
  {
    var signal := e.kind.signal;
    var t := if !s.execved && signal == EXEC_TRAP then s.(execved := true, peakValid := true) else s;
    if signal == CLONE_TRAP {
      CloneKillsIff(c, s, e);
      CloneCases(c, s, e.pid);
      var cloned := CloneEvent(c, s, e.pid);
      StopKillReaches(c, cloned.state, e.pid, signal, o, cloned.kill);
    } else {
      StopKillReaches(c, t, e.pid, signal, o, false);
    }
  }

  lemma AfterKillReaches(c: Config, s: Sandbox, e: Event, kill: bool)
    requires e.kind.Trapped?
    ensures var k := AfterListeners(c, s, e, kill).state.kernel;
      (kill ==> k.IsOver(c.root)) && forall p | s.kernel.IsOver(p) :: k.IsOver(p)
  {}

  /** A KILL on a stop of the tree ends the tracee with the root, and a child that is one too many with them. */
  lemma KillReaches(w: World, o: Oracle)
    requires Reachable(w) && w.phase.Handling? && !Handled(w, o).phase.Failed?
    requires w.phase.event.kind.Trapped? && Indexed(w.c, w.s, w.phase.event.pid)
    ensures var c, s, e, k := w.c, w.s, w.phase.event, Handled(w, o).s.kernel;
      && (Kills(w, o) ==> k.IsOver(c.root))
      && (CloneExceeds(c, s, e) || ListenerKills(c, s, e, o) || SignalKills(c, s, e, o) ==> k.IsOver(e.pid))
      && (CloneExceeds(c, s, e) ==> k.IsOver(s.kernel.tasks[e.pid].msg))
  {
    ReachableIsValid(w);
    var c, s, e := w.c, w.s, w.phase.event;
    var t := LimitsOnEvent(c, s, e, o).0;
    LimitsKillIff(c, s, e, o);
    LimitsLeave(c, s, e, o);
    TraceKillsIff(c, t, e, o);
    TraceKillReaches(c, t, e, o);
    var r := ListenersOnEvent(c, s, e, o);
    AfterKillReaches(c, r.state, e, w.phase.carried || r.kill);
  }

  /** A signal listener's KILL is recorded, and ends the root. */
  lemma SignalCheckKills(w: World, reason: Reason)
    requires Reachable(w) && w.phase.Checking?
    ensures var v := Next(w, CheckSignals(Some(reason)));
      && v.killed && v.phase == Waiting(true) && v.s.kernel.IsOver(w.c.root)
      && v.s.verdict.reason == (if w.s.verdict.reason == R.NONE then reason else w.s.verdict.reason)
      && v.s.verdict.signal == if w.s.verdict.signal == 0 then 9 else w.s.verdict.signal
  {}
}
