/** The trace executor (src/tracer/TraceExecutor.cc), each of its methods proved to take the state machine's step on the
    objects it works on: the process tree, the listeners, the result record and the tracees. */
module TraceExecutor {
  import opened Common
  import opened Tracees
  import opened ProcessInfo
  import opened Supervision
  import opened MemoryLimit
  import opened ThreadsLimit
  import R = ResultRecord

  /** The system calls the supervisor makes on its tracees. */
  class Ptrace {
    var k: Kernel

    constructor (k: Kernel)
      ensures this.k == k
    {
      this.k := k;
    }

    /** PTRACE_CONT. What a tracee does with the signal is its own next step. */
    method Cont(pid: int, signal: nat)
      modifies this
      ensures k == old(k).Resume(pid)
    {
      k := k.Resume(pid);
    }

    method Kill(pid: int)
      modifies this
      ensures k == old(k).SendKill(pid)
    {
      k := k.SendKill(pid);
    }

    method Reap(pid: int)
      modifies this
      ensures k == old(k).Reap(pid)
    {
      k := k.Reap(pid);
    }

    /** PTRACE_SETOPTIONS, and None for ESRCH of PTRACE_GETEVENTMSG: both need a stopped tracee. */
    method SetOptions(pid: int) returns (found: bool)
      ensures found == k.IsStopped(pid)
    {
      found := pid in k.tasks && k.tasks[pid].Stopped?;
    }

    method GetEventMsg(pid: int) returns (msg: Option<int>)
      ensures msg == if k.IsStopped(pid) then Some(k.tasks[pid].msg) else None
    {
      msg := if pid in k.tasks && k.tasks[pid].Stopped? then Some(k.tasks[pid].msg) else None;
    }
  }

  // ------------------------------------------------------------------ the tree and its links

  lemma IndexedIsKnown(nodes: Nodes, index: TreeIndex, root: ProcessInfo, pid: int)
    requires Valid(nodes, index, root)
    ensures pid in nodes <==> pid == root.pid || pid in LinksOf(nodes)
  {}

  lemma AddedLink(nodes: Nodes, child: ProcessInfo, parent: ProcessInfo)
    requires child.pid !in nodes && child.parent == parent
    ensures LinksOf(nodes[child.pid := child]) == LinksOf(nodes)[child.pid := parent.pid]
  {}

  class TraceExecutor {
    const kernel: Ptrace
    const out: R.OIModelOutputBuilder
    const memory: MemoryLimitListener
    const threads: ThreadsLimitListener
    const root: ProcessInfo
    const outputLimited: bool
    var hasExecved: bool
    ghost var all: set<ProcessInfo>

    ghost function Limits(): Config {
      Config(root.pid, memory.memoryLimitKb, outputLimited, threads.threadsLimit)
    }

    ghost function State(): Sandbox
      reads this, kernel, out, memory, threads, root.index
    {
      Sandbox(kernel.k, LinksOf(root.index.nodes), threads.threadsPids, hasExecved, memory.vmPeakValid,
              memory.memoryPeakKb, out.verdict)
    }

    ghost predicate Sound()
      reads this, root.index, root.index.nodes.Values
    {
      && memory.out == out && threads.out == out
      && Valid(root.index.nodes, root.index, root)
      && forall p | p in root.index.nodes :: root.index.nodes[p] in all
    }

    /** onPostForkParent. */
    constructor (kernel: Ptrace, out: R.OIModelOutputBuilder, memory: MemoryLimitListener,
                 threads: ThreadsLimitListener, pid: int, outputLimited: bool)
      requires memory.out == out && threads.out == out
      ensures Sound() && !hasExecved && LinksOf(root.index.nodes) == map[] && root.pid == pid
      ensures this.kernel == kernel && this.out == out && this.memory == memory && this.threads == threads
      ensures this.outputLimited == outputLimited && fresh(all) && fresh(root.index)
    {
      this.kernel, this.out, this.memory, this.threads, this.outputLimited := kernel, out, memory, threads, outputLimited;
      var process := ProcessInfo.MakeProcessInfo(pid, null);
      root := process.value;
      hasExecved, all := false, {process.value};
    }

    /** Sets a child of the tree going, or has it killed first. */
    method StartChild(child: int, ghost s: Sandbox) returns (kill: bool)
      requires threads.out == out
      requires s.threads == threads.threadsPids && s.verdict == out.verdict && s.kernel == kernel.k
      modifies kernel, out, threads
      ensures var (t, answer) := ThreadsOnClone(Limits(), s, child);
        && kill == answer
        && kernel.k == (if kill then s.kernel.SendKill(child) else s.kernel).Resume(child)
        && threads.threadsPids == t.threads && out.verdict == t.verdict
    {
      kill := threads.OnPostClone(child, Limits(), s);
      if kill {
        kernel.Kill(child);
      }
      kernel.Cont(child, if kill then SIGKILL else 0);
    }

    /** Takes a child into the tree, unless the tree knows its pid. */
    method Adopt(process: ProcessInfo, child: int) returns (adopted: bool)
      requires Sound() && Holds(root.index.nodes, process)
      modifies this`all, root.index, process`children
      ensures adopted <==> !Indexed(Limits(), old(State()), child)
      ensures adopted ==> Sound() && State() == old(State()).(links := old(State()).links[child := process.pid])
      ensures fresh(all - old(all)) && old(all) <= all
    {
      IndexedIsKnown(root.index.nodes, root.index, root, child);
      var added := process.AddChild(child, root);
      if added == None {
        return false;
      }
      AddedLink(old(root.index.nodes), added.value, process);
      all := all + {added.value};
      return true;
    }

    /** A stopped child joins the tree and is set going, unless the tree knows its pid. */
    method TakeIn(process: ProcessInfo, child: int) returns (kill: bool, failed: bool)
      requires Sound() && Holds(root.index.nodes, process)
      modifies this`all, kernel, out, threads, root.index, process`children
      ensures var r := Supervision.TakeIn(Limits(), old(State()), process.pid, child);
        failed == r.failed && (!failed ==> kill == r.kill && State() == r.state && Sound())
      ensures fresh(all - old(all)) && old(all) <= all
    {
      var adopted := Adopt(process, child);
      if !adopted {
        return false, true;
      }
      kill := StartChild(child, State());
      failed := false;
    }

    method OnEventClone(process: ProcessInfo) returns (kill: bool, failed: bool)
      requires Sound() && Holds(root.index.nodes, process)
      modifies this`all, kernel, out, threads, root.index, process`children
      ensures var r := CloneEvent(Limits(), old(State()), process.pid);
        failed == r.failed && (!failed ==> kill == r.kill && State() == r.state && Sound())
      ensures fresh(all - old(all)) && old(all) <= all
    {
      var msg := kernel.GetEventMsg(process.pid);
      if msg == None {
        return false, true;
      }
      var found := kernel.SetOptions(msg.value);
      if !found {
        return false, false;
      }
      kill, failed := TakeIn(process, msg.value);
    }

    /** The answer, and the signal to inject. */
    method HandleTraceeSignal(signal: nat, o: Oracle) returns (kill: bool, injected: nat)
      modifies out
      ensures kill == Uncaught(signal, o) && injected == Injected(signal, o)
      ensures out.verdict == if kill then old(out.verdict).WithSignal(signal % 256) else old(out.verdict)
    {
      if o.suppressed {
        return false, 0;
      }
      kill, injected := false, signal % 256;
      if injected == SIGTRAP {
        injected := 0;
      } else if injected > 0 {
        var caught := if injected <= 30 then injected in o.caught + IGNORED_SIGNALS else !o.beyond;
        if !caught {
          out.SetKillSignal(injected);
          kill, injected := true, SIGKILL;
        }
      }
    }

    method ContinueTracee(kill: bool, injected: nat, pid: int)
      modifies kernel, out
      ensures State() == Continue(Limits(), old(State()), pid, kill)
    {
      if kill {
        out.SetKillSignal(SIGKILL);
        kernel.Kill(root.pid);
        if root.pid != pid {
          kernel.Kill(pid);
        }
      }
      kernel.Cont(pid, injected);
    }

    /** The part of onExecuteEvent that follows the clone and exec events of a stopped tracee. */
    method OnStop(pid: int, signal: nat, o: Oracle, answered: bool) returns (kill: bool, failed: bool)
      modifies kernel, out, memory`memoryPeakKb
      ensures StopEvent(Limits(), old(State()), pid, signal, o, answered) == Outcome(State(), kill, failed)
    {
      kill := answered;
      match o.trace {
        case Fail => return kill, true;
        case KillFor(reason) => out.SetKillReason(reason); kill := true;
        case GoOn =>
      }
      if memory.vmPeakValid {
        memory.RaisePeak(o.reachedKb);
      }
      if pid in kernel.k.tasks {
        var own, injected := HandleTraceeSignal(signal, o);
        kill := kill || own;
        ContinueTracee(kill, injected, pid);
      }
      failed := false;
    }

    /** An exec event of the first exec makes the peak valid. */
    method OnEventExec()
      modifies this`hasExecved, memory
      ensures State() == old(State()).(execved := true, peakValid := true)
    {
      hasExecved := true;
      memory.OnPostExec();
    }

    /** A child that ended leaves the tree with what is below it. */
    method OnEnd(process: ProcessInfo)
      requires Sound() && Holds(root.index.nodes, process)
      modifies root.index, all`children, all`alive
      ensures Sound()
      ensures State() == old(State()).(links :=
        if process.pid in old(State()).links then Prune(old(State()).links, process.pid) else old(State()).links)
    {
      IndexedIsKnown(root.index.nodes, root.index, root, process.pid);
      if process.parent != null {
        assert HeldByParent(root.index.nodes, process);
        WithoutIsPrune(root.index.nodes, root.index, root, process);
        var deleted := process.parent.DelChild(process.pid, root, all);
      }
    }

    method OnTrap(process: ProcessInfo, signal: nat, o: Oracle) returns (kill: bool, failed: bool)
      requires Sound() && Holds(root.index.nodes, process)
      modifies this`all, this`hasExecved, kernel, out, memory, threads, root.index, process`children
      ensures var r := TraceOnEvent(Limits(), old(State()), Event(process.pid, Trapped(signal)), o);
        failed == r.failed && (!failed ==> kill == r.kill && State() == r.state && Sound())
      ensures fresh(all - old(all)) && old(all) <= all
    {
      IndexedIsKnown(root.index.nodes, root.index, root, process.pid);
      if !hasExecved && signal == EXEC_TRAP {
        OnEventExec();
      }
      kill, failed := false, false;
      if signal == CLONE_TRAP {
        kill, failed := OnEventClone(process);
      }
      if !failed {
        kill, failed := OnStop(process.pid, signal, o, kill);
      }
    }

    /** The whole of onExecuteEvent. */
    method OnExecuteEvent(e: Event, o: Oracle) returns (kill: bool, failed: bool)
      requires Sound()
      modifies this`all, this`hasExecved, kernel, out, memory, threads, root.index, all`children, all`alive
      ensures var r := TraceOnEvent(Limits(), old(State()), e, o);
        failed == r.failed && (!failed ==> kill == r.kill && State() == r.state && Sound())
      ensures fresh(all - old(all)) && old(all) <= all
    {
      IndexedIsKnown(root.index.nodes, root.index, root, e.pid);
      var process := root.GetProcess(e.pid, root);
      if process == null {
        kernel.Reap(e.pid);
        return false, false;
      }
      match e.kind
      case Over(_) =>
        OnEnd(process);
        return false, false;
      case Trapped(signal) =>
        kill, failed := OnTrap(process, signal, o);
    }
  }
}
