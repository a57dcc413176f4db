/** What the default policy with the rules of the limits says about every system call, name by name and in terms of its
    arguments as numbers, and that the tables say just that. */
module PolicyPromises {
  import opened Common
  import opened Bits
  import opened SyscallFilter
  import opened SeccompRule
  import opened PolicyTables
  import opened TablePromises

  /** An argument as a number: on X86 the low half of its register. */
  function Argument(call: Call, i: ArgIndex): nat {
    if call.arch.X86? then call.regs[i].lo else call.regs[i].hi * 0x1_0000_0000 + call.regs[i].lo
  }

  // ------------------------------------------------------------------ the promises

  function Control(name: SyscallName): Option<Promise> {
    Stronger(When(name in {
        restart_syscall, getpriority, setpriority, sigaction, sigaltstack, rt_sigaction, rt_sigprocmask, futex,
        set_tid_address, set_robust_list, getpid, getrandom, sigsuspend, clock_nanosleep, open, epoll_create1,
        openat}, Permits),
    Stronger(When(name == set_thread_area, Asks(AlwaysContinue)),
    Stronger(When(name == execve, Asks(OnlyOnce)), EndingOf(name))))
  }

  function EndingOf(name: SyscallName): Option<Promise> {
    Stronger(When(name in {kill, tkill}, Asks(SignalNumber(1))),
    Stronger(When(name == tgkill, Asks(SignalNumber(2))),
    Stronger(When(name in {exit, exit_group}, Asks(AlwaysContinue)),
    Stronger(When(name == rseq, Fails(38)),
             When(name == prlimit64, Fails(1))))))
  }

  function Memory(name: SyscallName): Option<Promise> {
    Stronger(When(name in {brk, mmap, mmap2, munmap, mremap, mprotect, arch_prctl}, Permits),
             When(name == madvise, Fails(22)))
  }

  function Information(name: SyscallName, call: Call, randomizeTime: bool): Option<Promise> {
    Stronger(When(name in {
        getuid, getuid32, getgid, getgid32, geteuid, geteuid32, getegid, getegid32, getrlimit, ugetrlimit, getcpu,
          gettid,
        getcwd, uname, olduname, oldolduname, sysinfo, sched_getaffinity, sched_yield}, Permits),
    Stronger(When(name in {clock_gettime, clock_gettime64, clock_getres, clock_getres_time64, gettimeofday, time},
                  if randomizeTime then Fails(1) else Permits),
             When(name == prctl && Argument(call, 0) == 15, Permits)))
  }

  /** Neither the lowest bit nor the next: opened to be read only. */
  predicate ToRead(flags: nat) {
    !BitAt(flags, 0) && !BitAt(flags, 1)
  }

  function Files(name: SyscallName, call: Call): Option<Promise> {
    Stronger(When(name in {
        stat, stat64, fstat, fstat64, fstatat64, newfstatat, lstat, lstat64, listxattr, llistxattr, flistxattr,
          readlink,
        readlinkat, access, faccessat, getdents, getdents64}, Permits), AccessOf(name, call))
  }

  function AccessOf(name: SyscallName, call: Call): Option<Promise> {
    Stronger(When(name == close && Argument(call, 0) >= 3, Permits),
    Stronger(When(name in {statfs, statfs64, fstatfs, fstatfs64, statx}, Fails(38)), OpeningOf(name, call)))
  }

  function OpeningOf(name: SyscallName, call: Call): Option<Promise> {
    Stronger(When(name == open && ToRead(Argument(call, 1)), Permits),
    Stronger(When(name == openat && ToRead(Argument(call, 2)), Permits),
             When(name in {unlink, unlinkat, symlink, symlinkat, mkdir, mkdirat, setxattr, lsetxattr, fsetxattr},
                  Fails(1))))
  }

  function Transfers(name: SyscallName, call: Call): Option<Promise> {
    Stronger(When(name in {write, writev} && Argument(call, 0) > 0, Permits),
    Stronger(When(name == dup2 && Argument(call, 1) >= 3, Permits), InputOf(name, call)))
  }

  function InputOf(name: SyscallName, call: Call): Option<Promise> {
    Stronger(When(name in {read, readv, dup, fcntl, fcntl64, pread64}, Permits),
    Stronger(When(name in {
        socket, socketpair, connect, bind, listen, accept, accept4, getsockname, getpeername, sendto, recvfrom, sendmsg,
        recvmsg, shutdown, setsockopt, getsockopt}, Permits),
    Stronger(When(name in {
        poll, ppoll, epoll_create, epoll_create1, epoll_ctl, epoll_pwait, epoll_pwait2, epoll_wait, select,
        pselect6}, Permits),
    Stronger(When(name == ioctl, Fails(25)),
             When(name in {lseek, llseek}, if Argument(call, 0) <= 2 then Fails(29) else Permits)))))
  }

  /** Four mebibytes: half the margin above the memory limit. */
  const LARGE := 4 * 1024 * 1024

  function Requests(name: SyscallName, call: Call): Option<Promise> {
    Stronger(When(name in {mmap, mmap2} && Argument(call, 0) == 0 && Argument(call, 1) > LARGE,
                  Asks(MemoryRequest(false))),
             When(name == mremap && Argument(call, 2) > LARGE, Asks(MemoryRequest(true))))
  }

  /** A clone that shares its memory makes a thread. */
  function Threads(name: SyscallName, call: Call, threadsLimit: int): Option<Promise> {
    Stronger(When(name in {fork, vfork}, Kills),
             if threadsLimit < 0 then When(name in {clone, clone3}, Kills) else ClonesOf(name, call))
  }

  function ClonesOf(name: SyscallName, call: Call): Option<Promise> {
    Stronger(When(name == clone, if BitAt(Argument(call, 2), 8) then Permits else Kills),
    Stronger(When(name == clone3, Fails(38)), When(name == nanosleep, Permits)))
  }

  // ------------------------------------------------------------------ arguments

  lemma ArgumentIs(call: Call, i: ArgIndex)
    ensures Argument(call, i) == SyscallArgument(call, i).Value()
  {}

  lemma ComparedTo(call: Call, i: ArgIndex, lo: Half)
    ensures Denotes(Cmp(i, Eq, Data(lo)), call) <==> Argument(call, i) == lo
    ensures Denotes(Cmp(i, Le, Data(lo)), call) <==> Argument(call, i) <= lo
    ensures Denotes(Cmp(i, Ge, Data(lo)), call) <==> Argument(call, i) >= lo
    ensures Denotes(Cmp(i, Gt, Data(lo)), call) <==> Argument(call, i) > lo
  {
    ArgumentIs(call, i);
    CompareIs(Eq, SyscallArgument(call, i), Data(lo));
    CompareIs(Le, SyscallArgument(call, i), Data(lo));
    CompareIs(Ge, SyscallArgument(call, i), Data(lo));
    CompareIs(Gt, SyscallArgument(call, i), Data(lo));
  }

  lemma {:induction false} MaskedByThree(x: nat)
    ensures BitAnd(x, 3) == 0 <==> !BitAt(x, 0) && !BitAt(x, 1)
  {
    if x != 0 {
      assert BitAnd(x / 2, 1) == if x / 2 % 2 == 1 then 1 else 0 by {
        AndPow2(x / 2, 0);
      }
    } else {
      NoBits(0);
      NoBits(1);
    }
  }

  lemma OpenedToRead(call: Call, i: ArgIndex)
    ensures Denotes(Masked(i, Data(ACCESS_MODES), Data(0)), call) <==> ToRead(Argument(call, i))
  {
    ArgumentIs(call, i);
    var w := SyscallArgument(call, i);
    MaskedByThree(w.lo);
    WordBit(w, 0);
    WordBit(w, 1);
  }

  lemma SharesMemory(call: Call)
    ensures Denotes(Masked(2, Data(CLONE_VM), Data(CLONE_VM)), call) <==> BitAt(Argument(call, 2), 8)
    ensures Denotes(Masked(2, Data(CLONE_VM), Data(0)), call) <==> !BitAt(Argument(call, 2), 8)
  {
    ArgumentIs(call, 2);
    assert Pow2(8) == 0x100;
    BitIsTold(call, 2, 8);
  }

  /** On either architecture, the rule that allows clone matches, for the tracer and in the kernel, exactly if bit 8 of
      argument 2 is set, and the one that kills it exactly if not. */
  lemma CloneFilters(call: Call)
    ensures var allows := Build(Masked(2, Data(CLONE_VM), Data(CLONE_VM)));
      (allows.Match(call) <==> BitAt(Argument(call, 2), 8)) && (allows.KernelMatch(call) <==> BitAt(Argument(call, 2),
        8))
    ensures var kills := Build(Masked(2, Data(CLONE_VM), Data(0)));
      (kills.Match(call) <==> !BitAt(Argument(call, 2), 8)) && (kills.KernelMatch(call) <==> !BitAt(Argument(call, 2),
        8))
  {
    SharesMemory(call);
    TwoFormsAgree(Masked(2, Data(CLONE_VM), Data(CLONE_VM)), call);
    TwoFormsAgree(Masked(2, Data(CLONE_VM), Data(0)), call);
  }

  // ------------------------------------------------------------------ execution control

  lemma SignalList(name: SyscallName, call: Call)
    ensures Strongest(Each(SIGNAL_CALLS, Tracing(kill, SignalNumber(1), Everything)), name, call) ==
      When(name in {kill, tkill}, Asks(SignalNumber(1)))
  {
    EachSays(SIGNAL_CALLS, Tracing(kill, SignalNumber(1), Everything), name in {kill, tkill}, Asks(SignalNumber(1)),
             name, call);
  }

  lemma GroupSignalList(name: SyscallName, call: Call)
    ensures Strongest(Each(GROUP_SIGNAL_CALLS, Tracing(tgkill, SignalNumber(2), Everything)), name, call) ==
      When(name == tgkill, Asks(SignalNumber(2)))
  {
    EachSays(GROUP_SIGNAL_CALLS, Tracing(tgkill, SignalNumber(2), Everything), name == tgkill, Asks(SignalNumber(2)),
             name, call);
  }

  lemma ExitList(name: SyscallName, call: Call)
    ensures Strongest(Each(EXIT_CALLS, Tracing(exit, AlwaysContinue, Everything)), name, call) ==
      When(name in {exit, exit_group}, Asks(AlwaysContinue))
  {
    EachSays(EXIT_CALLS, Tracing(exit, AlwaysContinue, Everything), name in {exit, exit_group}, Asks(AlwaysContinue),
             name, call);
  }

  lemma SequenceList(name: SyscallName, call: Call)
    ensures Strongest(Each(SEQUENCE_CALLS, Failing(rseq, ENOSYS, Everything)), name, call) ==
      When(name == rseq, Fails(38))
  {
    EachSays(SEQUENCE_CALLS, Failing(rseq, ENOSYS, Everything), name == rseq, Fails(38), name, call);
  }

  lemma LimitList(name: SyscallName, call: Call)
    ensures Strongest(Each(LIMIT_CALLS, Failing(prlimit64, EPERM, Everything)), name, call) ==
      When(name == prlimit64, Fails(1))
  {
    EachSays(LIMIT_CALLS, Failing(prlimit64, EPERM, Everything), name == prlimit64, Fails(1), name, call);
  }

  lemma EndingIsKept(name: SyscallName, call: Call)
    ensures Strongest(Ending(), name, call) == EndingOf(name)
  {
    JoinFive(Each(SIGNAL_CALLS, Tracing(kill, SignalNumber(1), Everything)),
             Each(GROUP_SIGNAL_CALLS, Tracing(tgkill, SignalNumber(2), Everything)),
             Each(EXIT_CALLS, Tracing(exit, AlwaysContinue, Everything)),
             Each(SEQUENCE_CALLS, Failing(rseq, ENOSYS, Everything)),
             Each(LIMIT_CALLS, Failing(prlimit64, EPERM, Everything)), name, call);
    SignalList(name, call);
    GroupSignalList(name, call);
    ExitList(name, call);
    SequenceList(name, call);
    LimitList(name, call);
  }

  lemma ControlNames(name: SyscallName)
    ensures name in CONTROL_CALLS <==> name in {
        restart_syscall, getpriority, setpriority, sigaction, sigaltstack, rt_sigaction, rt_sigprocmask, futex,
        set_tid_address, set_robust_list, getpid, getrandom, sigsuspend, clock_nanosleep, open, epoll_create1,
        openat}
  {}

  lemma ControlList(name: SyscallName, call: Call)
    ensures Strongest(AllowAll(CONTROL_CALLS), name, call) ==
      When(name in {
        restart_syscall, getpriority, setpriority, sigaction, sigaltstack, rt_sigaction, rt_sigprocmask, futex,
        set_tid_address, set_robust_list, getpid, getrandom, sigsuspend, clock_nanosleep, open, epoll_create1,
        openat}, Permits)
  {
    StrongestAllowed(CONTROL_CALLS, name, call);
    ControlNames(name);
  }

  lemma AreaList(name: SyscallName, call: Call)
    ensures Strongest(Each(AREA_CALLS, Tracing(set_thread_area, AlwaysContinue, Everything)), name, call) ==
      When(name == set_thread_area, Asks(AlwaysContinue))
  {
    EachSays(AREA_CALLS, Tracing(set_thread_area, AlwaysContinue, Everything), name == set_thread_area,
             Asks(AlwaysContinue), name, call);
  }

  lemma ExecveList(name: SyscallName, call: Call)
    ensures Strongest(EXECVE_RULES, name, call) == When(name == execve, Asks(OnlyOnce))
  {
    StrongestOfOne(EXECVE_RULES, name, call);
  }

  lemma ControlFrom(allowed: Table, area: Table, exec: Table, ending: Table, name: SyscallName, call: Call)
    requires Strongest(allowed, name, call) == When(name in {
        restart_syscall, getpriority, setpriority, sigaction, sigaltstack, rt_sigaction, rt_sigprocmask, futex,
        set_tid_address, set_robust_list, getpid, getrandom, sigsuspend, clock_nanosleep, open, epoll_create1,
        openat}, Permits)
    requires Strongest(area, name, call) == When(name == set_thread_area, Asks(AlwaysContinue))
    requires Strongest(exec, name, call) == When(name == execve, Asks(OnlyOnce))
    requires Strongest(ending, name, call) == EndingOf(name)
    ensures Strongest(Join(allowed, Join(area, Join(exec, ending))), name, call) == Control(name)
  {
    JoinFour(allowed, area, exec, ending, name, call);
  }

  lemma ControlIsKept(name: SyscallName, call: Call)
    ensures Strongest(ExecutionControl(), name, call) == Control(name)
  {
    ControlList(name, call);
    AreaList(name, call);
    ExecveList(name, call);
    EndingIsKept(name, call);
    ControlFrom(AllowAll(CONTROL_CALLS), Each(AREA_CALLS, Tracing(set_thread_area, AlwaysContinue, Everything)),
                EXECVE_RULES, Ending(), name, call);
  }

  // ------------------------------------------------------------------ memory and information

  lemma MemoryNames(name: SyscallName)
    ensures name in MEMORY_CALLS <==> name in {brk, mmap, mmap2, munmap, mremap, mprotect, arch_prctl}
  {}

  lemma MemoryList(name: SyscallName, call: Call)
    ensures Strongest(AllowAll(MEMORY_CALLS), name, call) ==
      When(name in {brk, mmap, mmap2, munmap, mremap, mprotect, arch_prctl}, Permits)
  {
    StrongestAllowed(MEMORY_CALLS, name, call);
    MemoryNames(name);
  }

  lemma AdviceList(name: SyscallName, call: Call)
    ensures Strongest(Each(ADVICE_CALLS, Failing(madvise, EINVAL, Everything)), name, call) ==
      When(name == madvise, Fails(22))
  {
    EachSays(ADVICE_CALLS, Failing(madvise, EINVAL, Everything), name == madvise, Fails(22), name, call);
  }

  lemma MemoryIsKept(name: SyscallName, call: Call)
    ensures Strongest(MemoryManagement(), name, call) == Memory(name)
  {
    StrongestJoin(AllowAll(MEMORY_CALLS), Each(ADVICE_CALLS, Failing(madvise, EINVAL, Everything)), name, call);
    MemoryList(name, call);
    AdviceList(name, call);
  }

  lemma SystemNames(name: SyscallName)
    ensures name in SYSTEM_CALLS <==> name in {
        getuid, getuid32, getgid, getgid32, geteuid, geteuid32, getegid, getegid32, getrlimit, ugetrlimit, getcpu,
        gettid, getcwd, uname, olduname, oldolduname, sysinfo, sched_getaffinity, sched_yield}
  {}

  lemma SystemList(name: SyscallName, call: Call)
    ensures Strongest(AllowAll(SYSTEM_CALLS), name, call) ==
      When(name in {
        getuid, getuid32, getgid, getgid32, geteuid, geteuid32, getegid, getegid32, getrlimit, ugetrlimit, getcpu,
        gettid, getcwd, uname, olduname, oldolduname, sysinfo, sched_getaffinity, sched_yield}, Permits)
  {
    StrongestAllowed(SYSTEM_CALLS, name, call);
    SystemNames(name);
  }

  lemma ClockNames(name: SyscallName)
    ensures name in CLOCK_CALLS <==> name in {clock_gettime, clock_gettime64, clock_getres, clock_getres_time64, gettimeofday, time}
  {}

  lemma AllowedClockList(name: SyscallName, call: Call)
    ensures Strongest(AllowAll(CLOCK_CALLS), name, call) ==
      When(name in {clock_gettime, clock_gettime64, clock_getres, clock_getres_time64, gettimeofday, time}, Permits)
  {
    StrongestAllowed(CLOCK_CALLS, name, call);
    ClockNames(name);
  }

  lemma ClockList(name: SyscallName, call: Call)
    ensures Strongest(Each(CLOCK_CALLS, Failing(time, EPERM, Everything)), name, call) ==
      When(name in {clock_gettime, clock_gettime64, clock_getres, clock_getres_time64, gettimeofday, time}, Fails(1))
  {
    ClockNames(name);
    EachSays(CLOCK_CALLS, Failing(time, EPERM, Everything), name in {clock_gettime, clock_gettime64, clock_getres,
             clock_getres_time64, gettimeofday, time}, Fails(1), name, call);
  }

  lemma NamingList(name: SyscallName, call: Call)
    ensures Strongest(Each(NAMING_CALLS, Allowing(prctl, Cmp(0, Eq, Data(15)))), name, call) ==
      When(name == prctl && Argument(call, 0) == 15, Permits)
  {
    ComparedTo(call, 0, 15);
    EachSays(NAMING_CALLS, Allowing(prctl, Cmp(0, Eq, Data(15))), name == prctl && Argument(call, 0) == 15, Permits,
             name, call);
  }

  lemma InformationIsKept(name: SyscallName, call: Call, randomizeTime: bool)
    ensures Strongest(SystemInformation(randomizeTime), name, call) == Information(name, call, randomizeTime)
  {
    var clocks := if randomizeTime then Each(CLOCK_CALLS, Failing(time, EPERM, Everything)) else AllowAll(CLOCK_CALLS);
    JoinThree(AllowAll(SYSTEM_CALLS), clocks, Each(NAMING_CALLS, Allowing(prctl, Cmp(0, Eq, Data(15)))), name, call);
    SystemList(name, call);
    AllowedClockList(name, call);
    ClockList(name, call);
    NamingList(name, call);
  }

  // ------------------------------------------------------------------ files

  lemma StatNames(name: SyscallName)
    ensures name in STAT_CALLS <==> name in {
        stat, stat64, fstat, fstat64, fstatat64, newfstatat, lstat, lstat64, listxattr, llistxattr, flistxattr,
        readlink, readlinkat, access, faccessat, getdents, getdents64}
  {}

  lemma StatList(name: SyscallName, call: Call)
    ensures Strongest(AllowAll(STAT_CALLS), name, call) ==
      When(name in {
        stat, stat64, fstat, fstat64, fstatat64, newfstatat, lstat, lstat64, listxattr, llistxattr, flistxattr,
        readlink, readlinkat, access, faccessat, getdents, getdents64}, Permits)
  {
    StrongestAllowed(STAT_CALLS, name, call);
    StatNames(name);
  }

  lemma CloseList(name: SyscallName, call: Call)
    ensures Strongest(Each(CLOSE_CALLS, Allowing(close, Cmp(0, Ge, Data(3)))), name, call) ==
      When(name == close && Argument(call, 0) >= 3, Permits)
  {
    ComparedTo(call, 0, 3);
    EachSays(CLOSE_CALLS, Allowing(close, Cmp(0, Ge, Data(3))), name == close && Argument(call, 0) >= 3, Permits,
             name, call);
  }

  lemma StatfsList(name: SyscallName, call: Call)
    ensures Strongest(Each(STATFS_CALLS, Failing(statfs, ENOSYS, Everything)), name, call) ==
      When(name in {statfs, statfs64, fstatfs, fstatfs64, statx}, Fails(38))
  {
    EachSays(STATFS_CALLS, Failing(statfs, ENOSYS, Everything), name in {statfs, statfs64, fstatfs, fstatfs64, statx},
             Fails(38), name, call);
  }

  lemma OpenList(name: SyscallName, call: Call)
    ensures Strongest(Each(OPEN_CALLS, Allowing(open, Masked(1, Data(ACCESS_MODES), Data(0)))), name, call) ==
      When(name == open && ToRead(Argument(call, 1)), Permits)
  {
    OpenedToRead(call, 1);
    EachSays(OPEN_CALLS, Allowing(open, Masked(1, Data(ACCESS_MODES), Data(0))), name == open && ToRead(Argument(call,
             1)), Permits, name, call);
  }

  lemma OpenatList(name: SyscallName, call: Call)
    ensures Strongest(Each(OPENAT_CALLS, Allowing(openat, Masked(2, Data(ACCESS_MODES), Data(0)))), name, call) ==
      When(name == openat && ToRead(Argument(call, 2)), Permits)
  {
    OpenedToRead(call, 2);
    EachSays(OPENAT_CALLS, Allowing(openat, Masked(2, Data(ACCESS_MODES), Data(0))),
             name == openat && ToRead(Argument(call, 2)), Permits, name, call);
  }

  lemma WriteList(name: SyscallName, call: Call)
    ensures Strongest(Each(WRITE_CALLS, Failing(unlink, EPERM, Everything)), name, call) ==
      When(name in {unlink, unlinkat, symlink, symlinkat, mkdir, mkdirat, setxattr, lsetxattr, fsetxattr}, Fails(1))
  {
    EachSays(WRITE_CALLS, Failing(unlink, EPERM, Everything), name in {unlink, unlinkat, symlink, symlinkat, mkdir,
             mkdirat, setxattr, lsetxattr, fsetxattr}, Fails(1), name, call);
  }

  lemma OpeningFrom(opens: Table, openats: Table, writes: Table, name: SyscallName, call: Call)
    requires Strongest(opens, name, call) == When(name == open && ToRead(Argument(call, 1)), Permits)
    requires Strongest(openats, name, call) == When(name == openat && ToRead(Argument(call, 2)), Permits)
    requires Strongest(writes, name, call) ==
      When(name in {unlink, unlinkat, symlink, symlinkat, mkdir, mkdirat, setxattr, lsetxattr, fsetxattr}, Fails(1))
    ensures Strongest(Join(opens, Join(openats, writes)), name, call) == OpeningOf(name, call)
  {
    JoinThree(opens, openats, writes, name, call);
  }

  lemma OpeningIsKept(name: SyscallName, call: Call)
    ensures Strongest(Opening(), name, call) == OpeningOf(name, call)
  {
    OpenList(name, call);
    OpenatList(name, call);
    WriteList(name, call);
    OpeningFrom(Each(OPEN_CALLS, Allowing(open, Masked(1, Data(ACCESS_MODES), Data(0)))),
                Each(OPENAT_CALLS, Allowing(openat, Masked(2, Data(ACCESS_MODES), Data(0)))),
                Each(WRITE_CALLS, Failing(unlink, EPERM, Everything)), name, call);
  }

  lemma AccessFrom(closing: Table, systems: Table, opening: Table, name: SyscallName, call: Call)
    requires Strongest(closing, name, call) == When(name == close && Argument(call, 0) >= 3, Permits)
    requires Strongest(systems, name, call) == When(name in {statfs, statfs64, fstatfs, fstatfs64, statx}, Fails(38))
    requires Strongest(opening, name, call) == OpeningOf(name, call)
    ensures Strongest(Join(closing, Join(systems, opening)), name, call) == AccessOf(name, call)
  {
    JoinThree(closing, systems, opening, name, call);
  }

  lemma AccessIsKept(name: SyscallName, call: Call)
    ensures Strongest(Access(), name, call) == AccessOf(name, call)
  {
    CloseList(name, call);
    StatfsList(name, call);
    OpeningIsKept(name, call);
    AccessFrom(Each(CLOSE_CALLS, Allowing(close, Cmp(0, Ge, Data(3)))),
               Each(STATFS_CALLS, Failing(statfs, ENOSYS, Everything)), Opening(), name, call);
  }

  lemma FilesAreKept(name: SyscallName, call: Call)
    ensures Strongest(FileSystemAccess(), name, call) == Files(name, call)
  {
    StrongestJoin(AllowAll(STAT_CALLS), Access(), name, call);
    StatList(name, call);
    AccessIsKept(name, call);
  }

  // ------------------------------------------------------------------ input and output

  lemma OutputList(name: SyscallName, call: Call)
    ensures Strongest(Each(OUTPUT_CALLS, Allowing(write, Cmp(0, Gt, Data(0)))), name, call) ==
      When(name in {write, writev} && Argument(call, 0) > 0, Permits)
  {
    ComparedTo(call, 0, 0);
    EachSays(OUTPUT_CALLS, Allowing(write, Cmp(0, Gt, Data(0))), name in {write, writev} && Argument(call, 0) > 0,
             Permits, name, call);
  }

  lemma DuplicationList(name: SyscallName, call: Call)
    ensures Strongest(Each(DUPLICATION_CALLS, Allowing(dup2, Cmp(1, Ge, Data(3)))), name, call) ==
      When(name == dup2 && Argument(call, 1) >= 3, Permits)
  {
    ComparedTo(call, 1, 3);
    EachSays(DUPLICATION_CALLS, Allowing(dup2, Cmp(1, Ge, Data(3))), name == dup2 && Argument(call, 1) >= 3, Permits,
             name, call);
  }

  lemma ReadNames(name: SyscallName)
    ensures name in READ_CALLS <==> name in {read, readv, dup, fcntl, fcntl64, pread64}
  {}

  lemma ReadList(name: SyscallName, call: Call)
    ensures Strongest(AllowAll(READ_CALLS), name, call) ==
      When(name in {read, readv, dup, fcntl, fcntl64, pread64}, Permits)
  {
    StrongestAllowed(READ_CALLS, name, call);
    ReadNames(name);
  }

  lemma SocketNames(name: SyscallName)
    ensures name in SOCKET_CALLS <==> name in {
        socket, socketpair, connect, bind, listen, accept, accept4, getsockname, getpeername, sendto, recvfrom,
        sendmsg, recvmsg, shutdown, setsockopt, getsockopt}
  {}

  lemma SocketList(name: SyscallName, call: Call)
    ensures Strongest(AllowAll(SOCKET_CALLS), name, call) ==
      When(name in {
        socket, socketpair, connect, bind, listen, accept, accept4, getsockname, getpeername, sendto, recvfrom,
        sendmsg, recvmsg, shutdown, setsockopt, getsockopt}, Permits)
  {
    StrongestAllowed(SOCKET_CALLS, name, call);
    SocketNames(name);
  }

  lemma PollNames(name: SyscallName)
    ensures name in POLL_CALLS <==> name in {
      poll, ppoll, epoll_create, epoll_create1, epoll_ctl, epoll_pwait, epoll_pwait2, epoll_wait, select, pselect6}
  {}

  lemma PollList(name: SyscallName, call: Call)
    ensures Strongest(AllowAll(POLL_CALLS), name, call) == When(name in {
      poll, ppoll, epoll_create, epoll_create1, epoll_ctl, epoll_pwait, epoll_pwait2, epoll_wait, select,
      pselect6}, Permits)
  {
    StrongestAllowed(POLL_CALLS, name, call);
    PollNames(name);
  }

  lemma DeviceList(name: SyscallName, call: Call)
    ensures Strongest(Each(DEVICE_CALLS, Failing(ioctl, ENOTTY, Everything)), name, call) ==
      When(name == ioctl, Fails(25))
  {
    EachSays(DEVICE_CALLS, Failing(ioctl, ENOTTY, Everything), name == ioctl, Fails(25), name, call);
  }

  lemma SeekRulesSay(names: FailNames, name: SyscallName, call: Call)
    ensures Strongest(SeekRules(names), name, call) ==
      When(name in names, if Argument(call, 0) <= 2 then Fails(29) else Permits)
  {
    var refused, allowed := Failing(lseek, ESPIPE, Cmp(0, Le, Data(2))), Allowing(lseek, Cmp(0, Ge, Data(3)));
    StrongestJoin(Each(names, refused), Each(names, allowed), name, call);
    SeekRefused(names, name, call);
    SeekAllowed(names, name, call);
  }

  lemma SeekRefused(names: FailNames, name: SyscallName, call: Call)
    ensures Strongest(Each(names, Failing(lseek, ESPIPE, Cmp(0, Le, Data(2)))), name, call) ==
      When(name in names && Argument(call, 0) <= 2, Fails(29))
  {
    ComparedTo(call, 0, 2);
    EachSays(names, Failing(lseek, ESPIPE, Cmp(0, Le, Data(2))), name in names && Argument(call, 0) <= 2, Fails(29),
             name,
             call);
  }

  lemma SeekAllowed(names: FailNames, name: SyscallName, call: Call)
    ensures Strongest(Each(names, Allowing(lseek, Cmp(0, Ge, Data(3)))), name, call) ==
      When(name in names && Argument(call, 0) >= 3, Permits)
  {
    ComparedTo(call, 0, 3);
    EachSays(names, Allowing(lseek, Cmp(0, Ge, Data(3))), name in names && Argument(call, 0) >= 3, Permits, name, call);
  }

  lemma SeekLists(name: SyscallName, call: Call)
    ensures Strongest(Join(SeekRules(LSEEK_CALLS), SeekRules(LLSEEK_CALLS)), name, call) ==
      When(name in {lseek, llseek}, if Argument(call, 0) <= 2 then Fails(29) else Permits)
  {
    SeekRulesSay(LSEEK_CALLS, name, call);
    SeekRulesSay(LLSEEK_CALLS, name, call);
    StrongestJoin(SeekRules(LSEEK_CALLS), SeekRules(LLSEEK_CALLS), name, call);
  }

  lemma DevicesAreKept(name: SyscallName, call: Call)
    ensures Strongest(Devices(), name, call) ==
      Stronger(When(name == ioctl, Fails(25)),
               When(name in {lseek, llseek}, if Argument(call, 0) <= 2 then Fails(29) else Permits))
  {
    StrongestJoin(Each(DEVICE_CALLS, Failing(ioctl, ENOTTY, Everything)),
                  Join(SeekRules(LSEEK_CALLS), SeekRules(LLSEEK_CALLS)), name, call);
    DeviceList(name, call);
    SeekLists(name, call);
  }

  lemma InputIsKept(name: SyscallName, call: Call)
    ensures Strongest(Input(), name, call) == InputOf(name, call)
  {
    JoinFour(AllowAll(READ_CALLS), AllowAll(SOCKET_CALLS), AllowAll(POLL_CALLS), Devices(), name, call);
    ReadList(name, call);
    SocketList(name, call);
    PollList(name, call);
    DevicesAreKept(name, call);
  }

  lemma TransfersAreKept(name: SyscallName, call: Call)
    ensures Strongest(InputOutput(), name, call) == Transfers(name, call)
  {
    JoinThree(Each(OUTPUT_CALLS, Allowing(write, Cmp(0, Gt, Data(0)))),
              Each(DUPLICATION_CALLS, Allowing(dup2, Cmp(1, Ge, Data(3)))), Input(), name, call);
    OutputList(name, call);
    DuplicationList(name, call);
    InputIsKept(name, call);
  }

  // ------------------------------------------------------------------ the limits

  lemma LargeIs(call: Call)
    ensures Denotes(LARGE_MAPPING, call) <==> Argument(call, 0) == 0 && Argument(call, 1) > LARGE
    ensures Denotes(LARGE_REMAPPING, call) <==> Argument(call, 2) > LARGE
  {
    ComparedTo(call, 0, 0);
    ComparedTo(call, 1, TRACED_ALLOCATION);
    ComparedTo(call, 2, TRACED_ALLOCATION);
  }

  lemma Mmap2List(name: SyscallName, call: Call)
    ensures Strongest(MMAP2_RULES, name, call) ==
      When(name == mmap2 && Argument(call, 0) == 0 && Argument(call, 1) > LARGE, Asks(MemoryRequest(false)))
  {
    LargeIs(call);
    StrongestOfOne(MMAP2_RULES, name, call);
  }

  lemma MmapList(name: SyscallName, call: Call)
    ensures Strongest(MMAP_RULES, name, call) ==
      When(name == mmap && Argument(call, 0) == 0 && Argument(call, 1) > LARGE, Asks(MemoryRequest(false)))
  {
    LargeIs(call);
    StrongestOfOne(MMAP_RULES, name, call);
  }

  lemma MremapList(name: SyscallName, call: Call)
    ensures Strongest(MREMAP_RULES, name, call) ==
      When(name == mremap && Argument(call, 2) > LARGE, Asks(MemoryRequest(true)))
  {
    LargeIs(call);
    StrongestOfOne(MREMAP_RULES, name, call);
  }

  lemma RequestsAreKept(name: SyscallName, call: Call)
    ensures Strongest(MemoryTable(), name, call) == Requests(name, call)
  {
    JoinThree(MMAP2_RULES, MMAP_RULES, MREMAP_RULES, name, call);
    Mmap2List(name, call);
    MmapList(name, call);
    MremapList(name, call);
  }

  lemma ForkList(name: SyscallName, call: Call)
    ensures Strongest(Each(FORK_CALLS, Killing(fork, Everything)), name, call) == When(name in {fork, vfork}, Kills)
  {
    EachSays(FORK_CALLS, Killing(fork, Everything), name in {fork, vfork}, Kills, name, call);
  }

  lemma AllCloneList(name: SyscallName, call: Call)
    ensures Strongest(Each(ALL_CLONE_CALLS, Killing(clone, Everything)), name, call) ==
      When(name in {clone, clone3}, Kills)
  {
    EachSays(ALL_CLONE_CALLS, Killing(clone, Everything), name in {clone, clone3}, Kills, name, call);
  }

  lemma Clone3List(name: SyscallName, call: Call)
    ensures Strongest(Each(CLONE3_CALLS, Failing(clone3, ENOSYS, Everything)), name, call) ==
      When(name == clone3, Fails(38))
  {
    EachSays(CLONE3_CALLS, Failing(clone3, ENOSYS, Everything), name == clone3, Fails(38), name, call);
  }

  lemma SleepList(name: SyscallName, call: Call)
    ensures Strongest(Each(SLEEP_CALLS, Allowing(nanosleep, Everything)), name, call) ==
      When(name == nanosleep, Permits)
  {
    EachSays(SLEEP_CALLS, Allowing(nanosleep, Everything), name == nanosleep, Permits, name, call);
  }

  lemma CloneList(name: SyscallName, call: Call)
    ensures Strongest(Each(CLONE_CALLS, Allowing(clone, Masked(2, Data(CLONE_VM), Data(CLONE_VM)))), name, call) ==
      When(name == clone && BitAt(Argument(call, 2), 8), Permits)
  {
    SharesMemory(call);
    EachSays(CLONE_CALLS, Allowing(clone, Masked(2, Data(CLONE_VM), Data(CLONE_VM))),
             name == clone && BitAt(Argument(call, 2), 8), Permits, name, call);
  }

  lemma NoThreadList(name: SyscallName, call: Call)
    ensures Strongest(Each(CLONE_CALLS, Killing(clone, Masked(2, Data(CLONE_VM), Data(0)))), name, call) ==
      When(name == clone && !BitAt(Argument(call, 2), 8), Kills)
  {
    SharesMemory(call);
    EachSays(CLONE_CALLS, Killing(clone, Masked(2, Data(CLONE_VM), Data(0))), name == clone && !BitAt(Argument(call,
             2), 8), Kills, name, call);
  }

  lemma CloneRulesFrom(allowed: Table, killed: Table, refused: Table, sleep: Table, name: SyscallName, call: Call)
    requires Strongest(allowed, name, call) == When(name == clone && BitAt(Argument(call, 2), 8), Permits)
    requires Strongest(killed, name, call) == When(name == clone && !BitAt(Argument(call, 2), 8), Kills)
    requires Strongest(refused, name, call) == When(name == clone3, Fails(38))
    requires Strongest(sleep, name, call) == When(name == nanosleep, Permits)
    ensures Strongest(Join(allowed, Join(killed, Join(refused, sleep))), name, call) == ClonesOf(name, call)
  {
    JoinFour(allowed, killed, refused, sleep, name, call);
  }

  lemma CloneRulesSay(name: SyscallName, call: Call)
    ensures Strongest(CloneRules(), name, call) == ClonesOf(name, call)
  {
    CloneList(name, call);
    NoThreadList(name, call);
    Clone3List(name, call);
    SleepList(name, call);
    CloneRulesFrom(Each(CLONE_CALLS, Allowing(clone, Masked(2, Data(CLONE_VM), Data(CLONE_VM)))),
                   Each(CLONE_CALLS, Killing(clone, Masked(2, Data(CLONE_VM), Data(0)))),
                   Each(CLONE3_CALLS, Failing(clone3, ENOSYS, Everything)),
                   Each(SLEEP_CALLS, Allowing(nanosleep, Everything)), name, call);
  }

  lemma ThreadsFrom(forks: Table, clones: Table, name: SyscallName, call: Call, threadsLimit: int)
    requires Strongest(forks, name, call) == When(name in {fork, vfork}, Kills)
    requires Strongest(clones, name, call) ==
      if threadsLimit < 0 then When(name in {clone, clone3}, Kills) else ClonesOf(name, call)
    ensures Strongest(Join(forks, clones), name, call) == Threads(name, call, threadsLimit)
  {
    StrongestJoin(forks, clones, name, call);
  }

  lemma ThreadsAreKept(name: SyscallName, call: Call, threadsLimit: int)
    ensures Strongest(ThreadsTable(threadsLimit), name, call) == Threads(name, call, threadsLimit)
  {
    var clones := if threadsLimit < 0 then Each(ALL_CLONE_CALLS, Killing(clone, Everything)) else CloneRules();
    ForkList(name, call);
    AllCloneList(name, call);
    CloneRulesSay(name, call);
    ThreadsFrom(Each(FORK_CALLS, Killing(fork, Everything)), clones, name, call, threadsLimit);
  }

  // ------------------------------------------------------------------ all of them

  lemma ControlSays()
    ensures forall n, call :: Strongest(ExecutionControl(), n, call) == Control(n)
  {
    forall n, call ensures Strongest(ExecutionControl(), n, call) == Control(n) {
      ControlIsKept(n, call);
    }
  }

  lemma MemorySays()
    ensures forall n, call :: Strongest(MemoryManagement(), n, call) == Memory(n)
  {
    forall n, call ensures Strongest(MemoryManagement(), n, call) == Memory(n) {
      MemoryIsKept(n, call);
    }
  }

  lemma InformationSays(randomizeTime: bool)
    ensures forall n, call ::
      Strongest(SystemInformation(randomizeTime), n, call) == Information(n, call, randomizeTime)
  {
    forall n, call ensures Strongest(SystemInformation(randomizeTime), n, call) == Information(n, call, randomizeTime) {
      InformationIsKept(n, call, randomizeTime);
    }
  }

  lemma FilesSay()
    ensures forall n, call :: Strongest(FileSystemAccess(), n, call) == Files(n, call)
  {
    forall n, call ensures Strongest(FileSystemAccess(), n, call) == Files(n, call) {
      FilesAreKept(n, call);
    }
  }

  lemma TransfersSay()
    ensures forall n, call :: Strongest(InputOutput(), n, call) == Transfers(n, call)
  {
    forall n, call ensures Strongest(InputOutput(), n, call) == Transfers(n, call) {
      TransfersAreKept(n, call);
    }
  }

  function Base(name: SyscallName, call: Call, randomizeTime: bool): Option<Promise> {
    Stronger(Stronger(Stronger(Stronger(Control(name), Memory(name)), Information(name, call, randomizeTime)),
                      Files(name, call)), Transfers(name, call))
  }

  /** What the rules of the limits and those of the default policy say about a call with this name, if anything. */
  function Said(name: SyscallName, call: Call, randomizeTime: bool, threadsLimit: int): Option<Promise> {
    Stronger(Stronger(Requests(name, call), Threads(name, call, threadsLimit)), Base(name, call, randomizeTime))
  }

  /** The default policy's table. */
  ghost predicate KeepsBase(table: Table, randomizeTime: bool) {
    forall name, call :: Strongest(table, name, call) == Base(name, call, randomizeTime)
  }

  /** The table of the limits and the default policy together. */
  ghost predicate Keeps(table: Table, randomizeTime: bool, threadsLimit: int) {
    forall name, call :: Strongest(table, name, call) == Said(name, call, randomizeTime, threadsLimit)
  }

  lemma TogetherKept(first: Table, second: Table, base: Table, randomizeTime: bool, threadsLimit: int)
    requires first == MemoryTable() && second == ThreadsTable(threadsLimit) && KeepsBase(base, randomizeTime)
    ensures Keeps(Join(Join(first, second), base), randomizeTime, threadsLimit)
  {
    forall name, call
      ensures Strongest(Join(Join(first, second), base), name, call) == Said(name, call, randomizeTime, threadsLimit)
    {
      StrongestJoin(Join(first, second), base, name, call);
      StrongestJoin(first, second, name, call);
      RequestsAreKept(name, call);
      ThreadsAreKept(name, call, threadsLimit);
    }
  }

  // ------------------------------------------------------------------ what comes of it

  /** Processes cannot be made. */
  lemma ForkIsSaid(call: Call, randomizeTime: bool, threadsLimit: int)
    ensures Said(fork, call, randomizeTime, threadsLimit) == Some(Kills)
  {}

  lemma VforkIsSaid(call: Call, randomizeTime: bool, threadsLimit: int)
    ensures Said(vfork, call, randomizeTime, threadsLimit) == Some(Kills)
  {}

  /** Threads can, under a threads limit, by a clone that shares its memory. */
  lemma CloneIsSaid(call: Call, randomizeTime: bool, threadsLimit: int)
    ensures Said(clone, call, randomizeTime, threadsLimit) ==
      Some(if threadsLimit >= 0 && BitAt(Argument(call, 2), 8) then Permits else Kills)
  {}

  /** The signals sent are looked at. */
  lemma KillIsSaid(call: Call, randomizeTime: bool, threadsLimit: int)
    ensures Said(kill, call, randomizeTime, threadsLimit) == Some(Asks(SignalNumber(1)))
  {}

  lemma TgkillIsSaid(call: Call, randomizeTime: bool, threadsLimit: int)
    ensures Said(tgkill, call, randomizeTime, threadsLimit) == Some(Asks(SignalNumber(2)))
  {}

  /** Large requests for memory are asked about although requests are allowed. */
  lemma MmapIsSaid(call: Call, randomizeTime: bool, threadsLimit: int)
    ensures Said(mmap, call, randomizeTime, threadsLimit) ==
      Some(if Argument(call, 0) == 0 && Argument(call, 1) > LARGE then Asks(MemoryRequest(false)) else Permits)
  {}

  lemma MremapIsSaid(call: Call, randomizeTime: bool, threadsLimit: int)
    ensures Said(mremap, call, randomizeTime, threadsLimit) ==
      Some(if Argument(call, 2) > LARGE then Asks(MemoryRequest(true)) else Permits)
  {}

  /** Files may be opened in any mode: the rule that asks for reading only comes after one that allows every call. */
  lemma OpenIsSaid(call: Call, randomizeTime: bool, threadsLimit: int)
    ensures Said(open, call, randomizeTime, threadsLimit) == Some(Permits)
  {}

  /** Nothing may be written to the standard input; a write to it is killed like a call that is named nowhere. */
  lemma WriteIsSaid(call: Call, randomizeTime: bool, threadsLimit: int)
    ensures Said(write, call, randomizeTime, threadsLimit) == When(Argument(call, 0) > 0, Permits)
  {}
}
