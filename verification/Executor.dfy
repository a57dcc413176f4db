/** The executor's loop (src/executor/Executor.cc), proved to make only runs of the state machine. */
module Executor {
  import opened Common
  import opened Tracees
  import opened ProcessInfo
  import opened Supervision
  import opened SupervisionRuns
  import opened MemoryLimit
  import opened ThreadsLimit
  import opened TraceExecutor
  import R = ResultRecord

  /** What the world contributes to one round of the loop: the answer of the signal listeners, what the tasks do before and
      after the wait, the pid the wait returns, none if a signal interrupts it, and what handling the event learns. */
  datatype Round = Round(answer: Option<Reason>, before: seq<TaskStep>, woken: Option<int>, between: seq<TaskStep>,
                         oracle: Oracle)

  type TaskStep = s: Step | s.Trap? || s.Clone? || s.Settle? || s.Die? || s.Finish? witness Die(0)

  /** The round as steps of the machine. A wait for a task that has nothing to report ends by being interrupted. */
  function StepsOf(r: Round): seq<Step> {
    [CheckSignals(r.answer)] + Plain(r.before) + (if r.woken == None then [] else [Wait(r.woken.value)])
    + Plain(r.between) + [Handle(r.oracle), Interrupted]
  }

  function Plain(steps: seq<TaskStep>): seq<Step> {
    seq(|steps|, i requires 0 <= i < |steps| => steps[i])
  }

  function AllSteps(rounds: seq<Round>): seq<Step> {
    if rounds == [] then [] else StepsOf(rounds[0]) + AllSteps(rounds[1..])
  }

  class OutputLimitListener {
    const outputLimited: bool
    const out: R.OIModelOutputBuilder

    constructor (outputLimited: bool, out: R.OIModelOutputBuilder)
      ensures this.outputLimited == outputLimited && this.out == out
    {
      this.outputLimited, this.out := outputLimited, out;
    }

    method OnExecuteEvent(e: Event, ghost c: Config, ghost s: Sandbox) returns (kill: bool)
      requires c.outputLimited == outputLimited && s.verdict == out.verdict
      modifies out
      ensures OutputOnEvent(c, s, e) == (s.(verdict := out.verdict), kill)
    {
      if outputLimited && e.Signal() == SIGXFSZ {
        out.SetKillReason(R.OLE);
        return true;
      }
      return false;
    }
  }

  class Executor {
    const kernel: Ptrace
    const out: R.OIModelOutputBuilder
    const memory: MemoryLimitListener
    const output: OutputLimitListener
    const threads: ThreadsLimitListener
    const trace: TraceExecutor
    const childPid: int
    const supportThreads: bool
    ghost var world: World

    /** The objects are those of one sandbox, and they hold the state the world is in; until the supervisor fails. */
    ghost predicate Valid()
      reads this, kernel, out, memory, threads, trace, trace.root.index, trace.root.index.nodes.Values
    {
      && trace.kernel == kernel && trace.out == out && trace.memory == memory && trace.threads == threads
      && output.out == out && output.outputLimited == trace.outputLimited
      && childPid == trace.root.pid && supportThreads == (threads.threadsLimit >= 0)
      && world.c == trace.Limits()
      && (!world.phase.Failed? ==> trace.Sound() && world.s == trace.State())
    }

    /** The parent's side of the fork, the tracee set up and resumed. */
    constructor (limits: Config)
      requires limits.memoryLimitKb < WORD_SIZE
      ensures Valid() && world == Start(limits)
      ensures fresh(kernel) && fresh(out) && fresh(memory) && fresh(threads) && fresh(trace)
      ensures fresh(trace.root.index) && fresh(trace.all)
    {
      var builder := new R.OIModelOutputBuilder();
      var ptrace := new Ptrace(Start(limits).s.kernel);
      var memoryListener := new MemoryLimitListener(limits.memoryLimitKb, builder);
      var threadsListener := new ThreadsLimitListener(limits.threadsLimit, builder);
      var outputListener := new OutputLimitListener(limits.outputLimited, builder);
      var tracer := new TraceExecutor(ptrace, builder, memoryListener, threadsListener, limits.root, limits.outputLimited);
      kernel, out, memory, threads, output, trace := ptrace, builder, memoryListener, threadsListener, outputListener, tracer;
      childPid, supportThreads, world := limits.root, limits.threadsLimit >= 0, Start(limits);
    }

    method KillChild()
      requires trace.kernel == kernel && trace.out == out && childPid == trace.root.pid
      modifies kernel, out
      ensures trace.State() == Supervision.KillChild(trace.Limits(), old(trace.State()))
    {
      out.SetKillSignal(SIGKILL);
      kernel.Kill(childPid);
    }

    /** checkSignals, and the kill on its answer. */
    method CheckSignals(answer: Option<Reason>) returns (kill: bool)
      requires Valid() && world.phase.Checking?
      modifies kernel, out, this`world
      ensures Valid() && kill == (answer != None)
      ensures world == Next(old(world), Step.CheckSignals(answer)) && world.phase == Waiting(kill)
    {
      kill := answer != None;
      if kill {
        out.SetKillReason(answer.value);
        KillChild();
      }
      world := Next(world, Step.CheckSignals(answer));
    }

    method HappenOnce(step: TaskStep)
      requires Valid()
      modifies kernel, this`world
      ensures Valid() && world == Next(old(world), step) && world.phase == old(world).phase
    {
      match step {
        case Trap(pid, signal, msg) => kernel.k := kernel.k.Trap(pid, signal, msg);
        case Clone(pid, child, succeeded) => kernel.k := kernel.k.Clone(pid, child, succeeded);
        case Settle(pid, initial) => kernel.k := kernel.k.Settle(pid, initial);
        case Die(pid) => kernel.k := kernel.k.SendKill(pid);
        case Finish(pid, how) => kernel.k := kernel.k.Finish(pid, how);
      }
      world := Next(world, step);
    }

    /** The tasks go on by themselves. */
    method Happen(steps: seq<TaskStep>)
      requires Valid()
      modifies kernel, this`world
      ensures Valid() && world == Exec(old(world), Plain(steps)) && world.phase == old(world).phase
    {
      for i := 0 to |steps|
        invariant Valid() && world == Exec(old(world), Plain(steps[..i])) && world.phase == old(world).phase
      {
        ExecOneMore(old(world), Plain(steps[..i]), steps[i]);
        HappenOnce(steps[i]);
        assert Plain(steps[..i + 1]) == Plain(steps[..i]) + [steps[i]];
      }
      assert steps[..|steps|] == steps;
    }

    /** waitid, leaving the status in place. */
    method WaitFor(pid: int) returns (event: Option<Event>)
      requires Valid() && world.phase.Waiting?
      modifies this`world
      ensures Valid() && world == Next(old(world), Wait(pid))
      ensures event == if world.phase.Handling? then Some(world.phase.event) else None
      ensures world.phase.Handling? ==> world.phase.carried == old(world).phase.carried
      ensures world.phase.Handling? || world.phase == old(world).phase
    {
      world := Next(world, Wait(pid));
      if !(supportThreads || pid == childPid) || pid !in kernel.k.tasks {
        return None;
      }
      var task := kernel.k.tasks[pid];
      if (task.Stopped? && task.waitable) || task.Ended? {
        return Some(Event(pid, KindOf(task)));
      }
      return None;
    }

    /** The limit listeners in their order. */
    method AskLimits(e: Event, o: Oracle) returns (kill: bool)
      requires memory == trace.memory && threads == trace.threads && out == trace.out
      requires memory.out == out && threads.out == out && output.out == out && output.outputLimited == trace.outputLimited
      modifies out, memory, threads
      ensures (trace.State(), kill) == LimitsOnEvent(trace.Limits(), old(trace.State()), e, o)
    {
      ghost var c := trace.Limits();
      var byMemory := memory.OnExecuteEvent(o.vmPeakKb, c, trace.State(), o);
      var byOutput := output.OnExecuteEvent(e, c, trace.State());
      threads.OnExecuteEvent(e, c, trace.State());
      kill := byMemory || byOutput;
    }

    /** The limits, then the trace executor. */
    method AskListeners(e: Event, o: Oracle) returns (kill: bool, failed: bool)
      requires Valid() && !world.phase.Failed?
      modifies kernel, out, memory, threads, trace`all, trace`hasExecved, trace.root.index, trace.all`children,
               trace.all`alive
      ensures var r := ListenersOnEvent(trace.Limits(), old(trace.State()), e, o);
        failed == r.failed && (!failed ==> kill == r.kill && trace.State() == r.state && trace.Sound())
      ensures fresh(trace.all - old(trace.all))
    {
      var byLimits := AskLimits(e, o);
      var byTrace;
      byTrace, failed := trace.OnExecuteEvent(e, o);
      kill := byLimits || byTrace;
    }

    /** What the loop does with the answer. */
    method FinishEvent(e: Event, kill: bool) returns (failed: bool)
      requires trace.kernel == kernel && trace.out == out && childPid == trace.root.pid
      requires supportThreads == (trace.threads.threadsLimit >= 0)
      modifies kernel, out
      ensures Outcome(trace.State(), kill, failed) == AfterListeners(trace.Limits(), old(trace.State()), e, kill)
    {
      if e.kind.Over? {
        if e.pid == childPid {
          match e.kind.how {
            case Exited(status) => out.SetExitStatus(status);
            case Killed(signal) => out.SetKillSignal(signal);
          }
          return false;
        }
        if !supportThreads {
          return true;
        }
        kernel.Reap(e.pid);
      }
      if kill {
        KillChild();
      }
      return false;
    }

    /** The body of the loop from the answer of waitid on. */
    method OnEvent(e: Event, carried: bool, o: Oracle) returns (kill: bool, failed: bool)
      requires Valid() && !world.phase.Failed?
      modifies kernel, out, memory, threads, trace`all, trace`hasExecved, trace.root.index, trace.all`children,
               trace.all`alive
      ensures var r := Supervision.OnEvent(trace.Limits(), old(trace.State()), e, o, carried);
        failed == r.failed && (!failed ==> kill == r.kill && trace.State() == r.state && trace.Sound())
      ensures fresh(trace.all - old(trace.all))
    {
      kill, failed := AskListeners(e, o);
      if !failed {
        kill := carried || kill;
        failed := FinishEvent(e, kill);
      }
    }

    method HandleEvent(e: Event, carried: bool, o: Oracle) returns (last: bool, failed: bool)
      requires Valid() && world.phase == Handling(e, carried)
      modifies this`world, kernel, out, memory, threads, trace`all, trace`hasExecved, trace.root.index,
               trace.all`children, trace.all`alive
      ensures Valid() && world == Next(old(world), Handle(o))
      ensures world.phase == if failed then Failed else if last then Finished else Checking
      ensures !(last && failed) && fresh(trace.all - old(trace.all))
    {
      var kill;
      kill, failed := OnEvent(e, carried, o);
      last := !failed && e.kind.Over? && e.pid == childPid;
      world := Next(world, Handle(o));
    }

    method CheckAndWait(r: Round) returns (event: Option<Event>, action: bool)
      requires Valid() && world.phase.Checking?
      modifies kernel, out, this`world
      ensures Valid() && world == Waited(old(world), r)
      ensures if event == None then world.phase.Waiting? else world.phase == Handling(event.value, action)
    {
      action := CheckSignals(r.answer);
      Happen(r.before);
      event := None;
      if r.woken != None {
        event := WaitFor(r.woken.value);
      }
    }

    /** The tasks go on while the wait's answer is in hand. */
    method CheckWaitAndGoOn(r: Round) returns (event: Option<Event>, action: bool)
      requires Valid() && world.phase.Checking?
      modifies kernel, out, this`world
      ensures Valid() && world == Exec(Waited(old(world), r), Plain(r.between))
      ensures if event == None then world.phase.Waiting? else world.phase == Handling(event.value, action)
    {
      event, action := CheckAndWait(r);
      Happen(r.between);
    }

    /** An event is handled; an interrupted wait starts the next turn at once. */
    method AnswerWait(event: Option<Event>, action: bool, o: Oracle) returns (last: bool, failed: bool)
      requires Valid() && if event == None then world.phase.Waiting? else world.phase == Handling(event.value, action)
      modifies this`world, kernel, out, memory, threads, trace`all, trace`hasExecved, trace.root.index,
               trace.all`children, trace.all`alive
      ensures Valid() && world == Next(Next(old(world), Handle(o)), Interrupted)
      ensures world.phase == if failed then Failed else if last then Finished else Checking
      ensures !(last && failed) && fresh(trace.all - old(trace.all))
    {
      if event == None {
        world := Next(world, Interrupted);
        return false, false;
      }
      last, failed := HandleEvent(event.value, action, o);
    }

    /** One turn of the loop, in the order of its parts. */
    method PlayTurn(r: Round) returns (last: bool, failed: bool)
      requires Valid() && world.phase.Checking?
      modifies this`world, kernel, out, memory, threads, trace`all, trace`hasExecved, trace.root.index,
               trace.all`children, trace.all`alive
      ensures Valid() && world == Turned(old(world), r)
      ensures world.phase == if failed then Failed else if last then Finished else Checking
      ensures !(last && failed) && fresh(trace.all - old(trace.all))
    {
      var event, action := CheckWaitAndGoOn(r);
      last, failed := AnswerWait(event, action, r.oracle);
    }

    /** One turn of the loop. */
    method PlayRound(r: Round) returns (last: bool, failed: bool)
      requires Valid() && world.phase.Checking?
      modifies this`world, kernel, out, memory, threads, trace`all, trace`hasExecved, trace.root.index,
               trace.all`children, trace.all`alive
      ensures Valid() && world == Exec(old(world), StepsOf(r))
      ensures world.phase == if failed then Failed else if last then Finished else Checking
      ensures !(last && failed) && fresh(trace.all - old(trace.all))
    {
      RoundIsExec(world, r);
      last, failed := PlayTurn(r);
    }

    method PostExecute(late: Option<Reason>)
      requires Valid() && world.phase.Finished?
      modifies this`world, out
      ensures Valid() && world == Next(old(world), Step.PostExecute(late)) && world.phase.Reported?
    {
      if late != None {
        out.SetKillReason(late.value);
      }
      world := Next(world, Step.PostExecute(late));
    }

    /** So many rounds have been played since the start; the last of them may have ended the loop, or failed. */
    ghost predicate Played(start: World, rounds: seq<Round>, i: nat, last: bool, failed: bool)
      reads this, kernel, out, memory, threads, trace, trace.root.index, trace.root.index.nodes.Values
    {
      && i <= |rounds| && Valid() && world == Exec(start, AllSteps(rounds[..i])) && !(last && failed)
      && world.phase == if failed then Failed else if last then Finished else Checking
    }

    method PlayNext(rounds: seq<Round>, i: nat, ghost start: World) returns (last: bool, failed: bool)
      requires i < |rounds| && Played(start, rounds, i, false, false)
      modifies this`world, kernel, out, memory, threads, trace`all, trace`hasExecved, trace.root.index,
               trace.all`children, trace.all`alive
      ensures Played(start, rounds, i + 1, last, failed) && fresh(trace.all - old(trace.all))
    {
      RoundsAdd(start, rounds, i);
      last, failed := PlayRound(rounds[i]);
    }

    /** The loop, for as many rounds as the world has, or until the root's end is handled or the supervisor fails. */
    method PlayRounds(rounds: seq<Round>) returns (finished: bool, failed: bool, played: nat)
      requires Valid() && world.phase.Checking?
      modifies this`world, kernel, out, memory, threads, trace`all, trace`hasExecved, trace.root.index,
               trace.all`children, trace.all`alive
      ensures Played(old(world), rounds, played, finished, failed)
      ensures finished || failed || played == |rounds|
    {
      ghost var start := world;
      finished, failed, played := false, false, 0;
      while played < |rounds| && !finished && !failed
        invariant Played(start, rounds, played, finished, failed) && fresh(trace.all - old(trace.all))
      {
        finished, failed := PlayNext(rounds, played, start);
        played := played + 1;
      }
    }

    /** The loop, and the end of the execution once the root's end is handled. */
    method ExecuteParent(rounds: seq<Round>, late: Option<Reason>) returns (finished: bool, played: nat)
      requires Valid() && world.phase.Checking?
      modifies this`world, kernel, out, memory, threads, trace`all, trace`hasExecved, trace.root.index,
               trace.all`children, trace.all`alive
      ensures Valid() && played <= |rounds|
      ensures world == Exec(old(world), AllSteps(rounds[..played]) + if finished then [Step.PostExecute(late)] else [])
      ensures if finished then world.phase.Reported? else world.phase.Failed? || played == |rounds|
    {
      ghost var start := world;
      var failed;
      finished, failed, played := PlayRounds(rounds);
      if finished {
        ExecOneMore(start, AllSteps(rounds[..played]), Step.PostExecute(late));
        PostExecute(late);
      } else {
        assert AllSteps(rounds[..played]) + [] == AllSteps(rounds[..played]);
      }
    }
  }

  lemma ExecOneMore(w: World, steps: seq<Step>, step: Step)
    ensures Exec(w, steps + [step]) == Next(Exec(w, steps), step)
  {
    ExecConcat(w, steps, [step]);
    var v := Exec(w, steps);
    assert Exec(v, [step]) == Exec(Next(v, step), []);
  }

  /** The world when waitid answers, or is interrupted. */
  ghost function Waited(w: World, r: Round): World {
    var waiting := Exec(Next(w, CheckSignals(r.answer)), Plain(r.before));
    if r.woken == None then waiting else Next(waiting, Wait(r.woken.value))
  }

  /** The world after one turn. */
  ghost function Turned(w: World, r: Round): World {
    Next(Next(Exec(Waited(w, r), Plain(r.between)), Handle(r.oracle)), Interrupted)
  }

  lemma RoundIsExec(w: World, r: Round)
    ensures Exec(w, StepsOf(r)) == Turned(w, r)
  {
    var a := [CheckSignals(r.answer)] + Plain(r.before);
    var b := a + if r.woken == None then [] else [Wait(r.woken.value)];
    var c := b + Plain(r.between);
    assert a[1..] == Plain(r.before);
    if r.woken != None {
      ExecOneMore(w, a, Wait(r.woken.value));
    } else {
      assert b == a;
    }
    ExecConcat(w, b, Plain(r.between));
    ExecOneMore(w, c, Handle(r.oracle));
    ExecOneMore(w, c + [Handle(r.oracle)], Interrupted);
    assert StepsOf(r) == (c + [Handle(r.oracle)]) + [Interrupted];
  }

  lemma {:induction false} AllStepsConcat(a: seq<Round>, b: seq<Round>)
    ensures AllSteps(a + b) == AllSteps(a) + AllSteps(b)
  {
    if a == [] {
      assert a + b == b;
    } else {
      assert (a + b)[1..] == a[1..] + b;
      AllStepsConcat(a[1..], b);
    }
  }

  lemma RoundsAdd(w: World, rounds: seq<Round>, i: nat)
    requires i < |rounds|
    ensures Exec(w, AllSteps(rounds[..i + 1])) == Exec(Exec(w, AllSteps(rounds[..i])), StepsOf(rounds[i]))
  {
    assert rounds[..i + 1] == rounds[..i] + [rounds[i]];
    AllStepsConcat(rounds[..i], [rounds[i]]);
    assert AllSteps([rounds[i]]) == StepsOf(rounds[i]) + AllSteps([]) == StepsOf(rounds[i]);
    ExecConcat(w, AllSteps(rounds[..i]), StepsOf(rounds[i]));
  }

  /** A sandboxed run from the fork to the report. Whatever the tasks, the clock and the other listeners do, its record is
      coherent, it is not OK if KILL was ever answered, and a finished run was never out of threads without that. */
  method Execute(limits: Config, rounds: seq<Round>, late: Option<Reason>) returns (executor: Executor, finished: bool)
    requires limits.memoryLimitKb < WORD_SIZE
    ensures Reachable(executor.world) && executor.world.c == limits
    ensures finished ==> executor.world.phase.Reported? && executor.world.s.verdict == executor.out.verdict
    ensures finished ==> R.Coherent(executor.out.verdict) && (executor.world.killed ==> !executor.out.verdict.Text().Ok?)
    ensures finished && limits.threadsLimit >= 0 ==>
      executor.threads.threadsPids == executor.world.accepted - executor.world.exited
  {
    executor := new Executor(limits);
    var played;
    finished, played := executor.ExecuteParent(rounds, late);
    assert Reachable(executor.world);
    VerdictIsCoherent(executor.world);
    if finished && limits.threadsLimit >= 0 {
      ThreadsAreAccounted(executor.world);
    }
  }
}
