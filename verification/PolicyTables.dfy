/** The rules of the default policy and of the memory and threads limits as tables (src/seccomp/policy/DefaultPolicy.cc,
    src/limits/MemoryLimitListener.cc, src/limits/ThreadsLimitListener.cc). */
module PolicyTables {
  import opened Common
  import opened SyscallFilter
  import opened SeccompRule
  import opened SeccompContext

  datatype SyscallName =
    | restart_syscall | getpriority | setpriority | sigaction | sigaltstack | rt_sigaction | rt_sigprocmask | futex
    | set_tid_address | set_robust_list | getpid | getrandom | sigsuspend | clock_nanosleep | open | epoll_create1
    | openat | set_thread_area | execve | kill | tkill | tgkill | exit | exit_group | rseq | prlimit64
    | brk | mmap | mmap2 | munmap | mremap | mprotect | arch_prctl | madvise
    | getuid | getuid32 | getgid | getgid32 | geteuid | geteuid32 | getegid | getegid32 | getrlimit | ugetrlimit | getcpu
    | gettid | getcwd | uname | olduname | oldolduname | sysinfo | sched_getaffinity | sched_yield
    | clock_gettime | clock_gettime64 | clock_getres | clock_getres_time64 | gettimeofday | time | prctl
    | write | writev | dup2 | read | readv | dup | fcntl | fcntl64 | pread64
    | socket | socketpair | connect | bind | listen | accept | accept4 | getsockname | getpeername | sendto | recvfrom
    | sendmsg | recvmsg | shutdown | setsockopt | getsockopt
    | poll | ppoll | epoll_create | epoll_ctl | epoll_pwait | epoll_pwait2 | epoll_wait | select | pselect6 | ioctl
    | lseek | llseek
    | stat | stat64 | fstat | fstat64 | fstatat64 | newfstatat | lstat | lstat64 | listxattr | llistxattr | flistxattr
    | readlink | readlinkat | access | faccessat | getdents | getdents64 | close | statfs | statfs64 | fstatfs
    | fstatfs64 | statx | unlink | unlinkat | symlink | symlinkat | mkdir | mkdirat | setxattr | lsetxattr | fsetxattr
    | fork | vfork | clone | clone3 | nanosleep

  /** A rule before its syscall is resolved and its action allocated. */
  datatype Entry = Entry(name: SyscallName, kind: ActionType, errno: nat, handler: Handler, filter: Expr)

  const EPERM := 1
  const EINVAL := 22
  const ENOTTY := 25
  const ESPIPE := 29
  const ENOSYS := 38

  function Data(lo: Half): Word {
    Word(0, lo)
  }

  function Allowing(name: SyscallName, filter: Expr): Entry {
    Entry(name, ALLOW, 0, AlwaysContinue, filter)
  }

  function Failing(name: SyscallName, errno: nat, filter: Expr): Entry {
    Entry(name, ERRNO, errno, AlwaysContinue, filter)
  }

  function Tracing(name: SyscallName, handler: Handler, filter: Expr): Entry {
    Entry(name, TRACE, 0, handler, filter)
  }

  function Killing(name: SyscallName, filter: Expr): Entry {
    Entry(name, KILL, 0, AlwaysContinue, filter)
  }

  const EXECVE_ENTRY := Tracing(execve, OnlyOnce, Everything)

  /** The system calls whose large requests the memory limit traces. */
  predicate IsRequest(name: SyscallName) {
    name.mmap? || name.mmap2? || name.mremap?
  }

  function MemoryEntry(name: SyscallName): Entry {
    Tracing(name, MemoryRequest(name.mremap?), if name.mremap? then LARGE_REMAPPING else LARGE_MAPPING)
  }

  predicate Fitting(e: Entry) {
    && e.errno < MESSAGES && Fits(X86, e.filter) && Fits(X86_64, e.filter)
    && (e.name == execve ==> e == EXECVE_ENTRY)
    && (IsRequest(e.name) ==> e == MemoryEntry(e.name) || e == Allowing(e.name, Everything))
  }

  /** Entries that fit both architectures, trace execve if they name it, and allow or trace requests for memory. */
  type Table = t: seq<Entry> | forall e | e in t :: Fitting(e) witness []

  type OtherNames = n: seq<SyscallName> | execve !in n && |n| <= 32 witness []

  type FailNames = n: OtherNames | mmap !in n && mmap2 !in n && mremap !in n witness []

  function Join(a: Table, b: Table): (table: Table)
    ensures |table| == |a| + |b|
  {
    a + b
  }

  /** DefaultPolicy::allowSyscalls. */
  function AllowAll(names: OtherNames): (table: Table)
    ensures |table| == |names|
  {
    seq(|names|, i requires 0 <= i < |names| => Allowing(names[i], Everything))
  }

  /** The same rule for several system calls. */
  function Each(names: FailNames, rule: Entry): (table: Table)
    requires rule.errno < MESSAGES && Fits(X86, rule.filter) && Fits(X86_64, rule.filter)
    ensures |table| == |names|
  {
    seq(|names|, i requires 0 <= i < |names| => rule.(name := names[i]))
  }

  // Execution control.

  const CONTROL_CALLS: OtherNames := [
    restart_syscall, getpriority, setpriority, sigaction, sigaltstack, rt_sigaction, rt_sigprocmask, futex,
    set_tid_address, set_robust_list, getpid, getrandom, sigaltstack, sigsuspend, clock_nanosleep, open,
    epoll_create1, openat]

  const AREA_CALLS: FailNames := [set_thread_area]
  const SIGNAL_CALLS: FailNames := [kill, tkill]
  const GROUP_SIGNAL_CALLS: FailNames := [tgkill]
  const EXIT_CALLS: FailNames := [exit, exit_group]
  const SEQUENCE_CALLS: FailNames := [rseq]
  const LIMIT_CALLS: FailNames := [prlimit64]

  const EXECVE_RULES: Table := [EXECVE_ENTRY]

  /** The rules after that for execve. */
  function Ending(): (table: Table)
    ensures |table| <= 100
  {
    Join(Each(SIGNAL_CALLS, Tracing(kill, SignalNumber(1), Everything)),
    Join(Each(GROUP_SIGNAL_CALLS, Tracing(tgkill, SignalNumber(2), Everything)),
    Join(Each(EXIT_CALLS, Tracing(exit, AlwaysContinue, Everything)),
    Join(Each(SEQUENCE_CALLS, Failing(rseq, ENOSYS, Everything)),
         Each(LIMIT_CALLS, Failing(prlimit64, EPERM, Everything))))))
  }

  function ExecutionControl(): (table: Table)
    ensures |table| <= 200
  {
    Join(AllowAll(CONTROL_CALLS),
    Join(Each(AREA_CALLS, Tracing(set_thread_area, AlwaysContinue, Everything)), Join(EXECVE_RULES, Ending())))
  }

  // Memory management.

  const MEMORY_CALLS: OtherNames := [brk, mmap, mmap2, munmap, mremap, mprotect, arch_prctl]

  const ADVICE_CALLS: FailNames := [madvise]

  function MemoryManagement(): (table: Table)
    ensures |table| <= 200
  {
    Join(AllowAll(MEMORY_CALLS), Each(ADVICE_CALLS, Failing(madvise, EINVAL, Everything)))
  }

  // System information.

  const SYSTEM_CALLS: OtherNames := [
    getuid, getuid32, getgid, getgid32, geteuid, geteuid32, getegid, getegid32, getrlimit, ugetrlimit, getcpu, gettid,
    getcwd, uname, olduname, oldolduname, sysinfo, sched_getaffinity, sched_yield]

  const CLOCK_CALLS: FailNames := [
    clock_gettime, clock_gettime64, clock_getres, clock_getres_time64, gettimeofday, time]

  const NAMING_CALLS: FailNames := [prctl]

  function SystemInformation(randomizeTime: bool): (table: Table)
    ensures |table| <= 200
  {
    Join(AllowAll(SYSTEM_CALLS),
    Join(if randomizeTime then Each(CLOCK_CALLS, Failing(time, EPERM, Everything)) else AllowAll(CLOCK_CALLS),
         Each(NAMING_CALLS, Allowing(prctl, Cmp(0, Eq, Data(15))))))
  }

  // Access to the file system.

  const STAT_CALLS: OtherNames := [
    stat, stat64, fstat, fstat64, fstatat64, newfstatat, lstat, lstat64, listxattr, llistxattr, flistxattr, readlink,
    readlinkat, access, faccessat, getdents, getdents64]

  const CLOSE_CALLS: FailNames := [close]

  const STATFS_CALLS: FailNames := [statfs, statfs64, fstatfs, fstatfs64, statx]

  const OPEN_CALLS: FailNames := [open]
  const OPENAT_CALLS: FailNames := [openat]

  const WRITE_CALLS: FailNames := [
    unlink, unlinkat, symlink, symlinkat, mkdir, mkdirat, setxattr, lsetxattr, fsetxattr]

  /** O_RDWR | O_WRONLY. */
  const ACCESS_MODES := 3

  /** The rules for opening files, and for changing what there is. */
  function Opening(): (table: Table)
    ensures |table| <= 50
  {
    Join(Each(OPEN_CALLS, Allowing(open, Masked(1, Data(ACCESS_MODES), Data(0)))),
    Join(Each(OPENAT_CALLS, Allowing(openat, Masked(2, Data(ACCESS_MODES), Data(0)))),
         Each(WRITE_CALLS, Failing(unlink, EPERM, Everything))))
  }

  /** The rules after the list of calls for information. */
  function Access(): (table: Table)
    ensures |table| <= 100
  {
    Join(Each(CLOSE_CALLS, Allowing(close, Cmp(0, Ge, Data(3)))),
    Join(Each(STATFS_CALLS, Failing(statfs, ENOSYS, Everything)), Opening()))
  }

  function FileSystemAccess(): (table: Table)
    ensures |table| <= 200
  {
    Join(AllowAll(STAT_CALLS), Access())
  }

  // Input and output.

  const OUTPUT_CALLS: FailNames := [write, writev]

  const DUPLICATION_CALLS: FailNames := [dup2]

  const READ_CALLS: OtherNames := [read, readv, dup, fcntl, fcntl64, pread64]

  const SOCKET_CALLS: OtherNames := [
    socket, socketpair, connect, bind, listen, accept, accept4, getsockname, getpeername, sendto, recvfrom, sendmsg,
    recvmsg, shutdown, setsockopt, getsockopt]

  const POLL_CALLS: OtherNames := [
    poll, ppoll, epoll_create, epoll_create1, epoll_ctl, epoll_pwait, epoll_pwait2, epoll_wait, select, pselect6]

  const DEVICE_CALLS: FailNames := [ioctl]

  const LSEEK_CALLS: FailNames := [lseek]
  const LLSEEK_CALLS: FailNames := [llseek]

  function SeekRules(names: FailNames): (table: Table)
    ensures |table| == 2 * |names|
  {
    Join(Each(names, Failing(lseek, ESPIPE, Cmp(0, Le, Data(2)))), Each(names, Allowing(lseek, Cmp(0, Ge, Data(3)))))
  }

  /** The rules after the lists of what is allowed. */
  function Devices(): (table: Table)
    ensures |table| <= 50
  {
    Join(Each(DEVICE_CALLS, Failing(ioctl, ENOTTY, Everything)), Join(SeekRules(LSEEK_CALLS), SeekRules(LLSEEK_CALLS)))
  }

  /** The rules after those for output. */
  function Input(): (table: Table)
    ensures |table| <= 150
  {
    Join(AllowAll(READ_CALLS), Join(AllowAll(SOCKET_CALLS), Join(AllowAll(POLL_CALLS), Devices())))
  }

  function InputOutput(): (table: Table)
    ensures |table| <= 200
  {
    Join(Each(OUTPUT_CALLS, Allowing(write, Cmp(0, Gt, Data(0)))),
    Join(Each(DUPLICATION_CALLS, Allowing(dup2, Cmp(1, Ge, Data(3)))), Input()))
  }

  // The limits.

  /** Half the margin between the memory limit and the address space limit, in bytes. */
  const TRACED_ALLOCATION: Half := 0x40_0000

  const LARGE_MAPPING := Both(Cmp(0, Eq, Data(0)), Cmp(1, Gt, Data(TRACED_ALLOCATION)))

  const LARGE_REMAPPING := Cmp(2, Gt, Data(TRACED_ALLOCATION))

  const MMAP2_RULES: Table := [MemoryEntry(mmap2)]
  const MMAP_RULES: Table := [MemoryEntry(mmap)]
  const MREMAP_RULES: Table := [MemoryEntry(mremap)]

  function MemoryTable(): (table: Table)
    ensures |table| == 3
  {
    Join(MMAP2_RULES, Join(MMAP_RULES, MREMAP_RULES))
  }

  const CLONE_VM: Half := 0x100

  const FORK_CALLS: FailNames := [fork, vfork]
  const ALL_CLONE_CALLS: FailNames := [clone, clone3]
  const CLONE_CALLS: FailNames := [clone]
  const CLONE3_CALLS: FailNames := [clone3]
  const SLEEP_CALLS: FailNames := [nanosleep]

  function CloneRules(): (table: Table)
    ensures |table| <= 100
  {
    Join(Each(CLONE_CALLS, Allowing(clone, Masked(2, Data(CLONE_VM), Data(CLONE_VM)))),
    Join(Each(CLONE_CALLS, Killing(clone, Masked(2, Data(CLONE_VM), Data(0)))),
    Join(Each(CLONE3_CALLS, Failing(clone3, ENOSYS, Everything)),
         Each(SLEEP_CALLS, Allowing(nanosleep, Everything)))))
  }

  function ThreadsTable(threadsLimit: int): (table: Table)
    ensures |table| <= 200
  {
    Join(Each(FORK_CALLS, Killing(fork, Everything)),
         if threadsLimit < 0 then Each(ALL_CLONE_CALLS, Killing(clone, Everything)) else CloneRules())
  }
}
