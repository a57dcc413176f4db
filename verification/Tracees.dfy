/** The traced tasks as the kernel keeps them: a small abstract environment for the supervisor. */
module Tracees {

  type SignalNumber = s: nat | 1 <= s <= 64 witness 1

  /** What a wait reports of an exit: one byte. */
  type ExitStatus = s: nat | s < 256

  datatype Ending = Exited(status: ExitStatus) | Killed(signal: SignalNumber)

  const SIGTRAP := 5
  const CLONE_TRAP := SIGTRAP + 3 * 256
  const EXEC_TRAP := SIGTRAP + 4 * 256
  const SECCOMP_TRAP := SIGTRAP + 7 * 256

  /** A task is Starting from its creation to its initial stop. `waitable` tells whether a wait still reports the stop,
      `msg` is the event message; for a CLONE_TRAP that is the pid of the child. */
  datatype Task =
    | Starting
    | Running
    | Stopped(signal: nat, msg: int, waitable: bool)
    | Dying
    | Ended(how: Ending)

  /** The tasks that exist. `used` holds every pid ever given out, `misses` counts the tasks resumed while they ran. */
  datatype Kernel = Kernel(tasks: map<int, Task>, used: set<int>, misses: nat) {

    predicate Exists(pid: int) {
      pid in tasks
    }

    predicate IsStopped(pid: int) {
      pid in tasks && tasks[pid].Stopped?
    }

    predicate IsOver(pid: int) {
      pid !in tasks || tasks[pid].Dying? || tasks[pid].Ended?
    }

    /** What waitid can return. */
    predicate Waitable(pid: int) {
      pid in tasks && ((tasks[pid].Stopped? && tasks[pid].waitable) || tasks[pid].Ended?)
    }

    // ---------------------------------------------------------------- what the supervisor asks of it

    /** PTRACE_CONT: fails with ESRCH unless the task is stopped. */
    function Resume(pid: int): Kernel {
      if pid !in tasks then this
      else match tasks[pid]
        case Stopped(_, _, _) => this.(tasks := tasks[pid := Running])
        case Starting => this.(misses := misses + 1)
        case Running => this.(misses := misses + 1)
        case _ => this
    }

    /** kill(pid, SIGKILL). */
    function SendKill(pid: int): Kernel {
      if pid !in tasks || tasks[pid].Ended? then this else this.(tasks := tasks[pid := Dying])
    }

    /** A wait that does not leave the status in place. */
    function Reap(pid: int): Kernel {
      if pid !in tasks then this
      else match tasks[pid]
        case Stopped(signal, msg, _) => this.(tasks := tasks[pid := Stopped(signal, msg, false)])
        case Ended(_) => this.(tasks := tasks - {pid})
        case _ => this
    }

    // ---------------------------------------------------------------- what the tasks do, where they can

    /** Stops for anything but a clone. */
    function Trap(pid: int, signal: nat, msg: int): Kernel {
      if pid in tasks && tasks[pid].Running? && signal != CLONE_TRAP
      then this.(tasks := tasks[pid := Stopped(signal, msg, true)]) else this
    }

    /** Stops in a clone call, which has made `child` if it succeeded. */
    function Clone(pid: int, child: int, succeeded: bool): Kernel {
      if pid in tasks && tasks[pid].Running? && child !in used then
        var stopped := tasks[pid := Stopped(CLONE_TRAP, child, true)];
        Kernel(if succeeded then stopped[child := Starting] else stopped, used + {child}, misses)
      else this
    }

    /** Comes to its initial stop. */
    function Settle(pid: int, signal: SignalNumber): Kernel {
      if pid in tasks && tasks[pid].Starting? then this.(tasks := tasks[pid := Stopped(signal, 0, true)]) else this
    }

    function Finish(pid: int, how: Ending): Kernel {
      if pid in tasks && (tasks[pid].Running? || tasks[pid].Dying?) then this.(tasks := tasks[pid := Ended(how)])
      else this
    }
  }
}
