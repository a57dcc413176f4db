/** The rules of the default policy and of the memory and threads limits made from their tables, embedded in a listener
    and compiled. */
module Policies {
  import opened Common
  import opened SyscallFilter
  import opened SeccompRule
  import opened SeccompContext
  import opened SeccompListener
  import opened StagedEnforcement
  import opened PolicyTables
  import opened TablePromises
  import opened PolicyPromises
  import opened PolicyDecisions
  import M = MemoryLimit
  import R = ResultRecord
  import S = Supervision

  lemma LargerIsGreater(w: Word, lo: Half)
    ensures Compare(Gt, w, Data(lo)) <==> w.Value() > lo
    ensures Compare(Eq, w, Data(lo)) <==> w.Value() == lo
  {}

  lemma TracedMappings(call: Call)
    ensures Denotes(LARGE_MAPPING, call) <==> M.IsTraced(RequestOf(call, false))
  {
    LargerIsGreater(SyscallArgument(call, 0), 0);
    LargerIsGreater(SyscallArgument(call, 1), TRACED_ALLOCATION);
  }

  lemma TracedRemappings(call: Call)
    ensures Denotes(LARGE_REMAPPING, call) <==> M.IsTraced(RequestOf(call, true))
  {
    LargerIsGreater(SyscallArgument(call, 2), TRACED_ALLOCATION);
  }

  // ------------------------------------------------------------------ rules made from a table

  ghost predicate OwnActions(rules: seq<Rule>) {
    forall r, q | r in rules && q in rules && r.action == q.action :: r.syscall == q.syscall
  }

  /** Appends a rule with an action of its own for every entry. */
  method MakeRules(table: seq<Entry>, resolve: SyscallName -> int) returns (rules: seq<Rule>)
    ensures Realizes(rules, table, resolve)
    ensures forall r | r in rules :: fresh(r.action) && !r.action.executed
    ensures OwnActions(rules)
  {
    rules := [];
    for i := 0 to |table|
      invariant Realizes(rules, table[..i], resolve)
      invariant forall r | r in rules :: fresh(r.action) && !r.action.executed
      invariant OwnActions(rules)
    {
      assert forall r | r in rules :: allocated(r.action);
      var action := new SeccompAction(table[i].kind, table[i].errno, table[i].handler);
      rules := rules + [Rule(resolve(table[i].name), action, Build(table[i].filter))];
    }
    assert table[..|table|] == table;
  }

  lemma JoinKeeps(a: Table, b: Table, e: Entry)
    requires e in a || e in b
    ensures e in Join(a, b)
  {}

  lemma ExecveIsControlled()
    ensures EXECVE_ENTRY in ExecutionControl()
  {
    var area := Each(AREA_CALLS, Tracing(set_thread_area, AlwaysContinue, Everything));
    JoinKeeps(EXECVE_RULES, Ending(), EXECVE_ENTRY);
    JoinKeeps(area, Join(EXECVE_RULES, Ending()), EXECVE_ENTRY);
    JoinKeeps(AllowAll(CONTROL_CALLS), Join(area, Join(EXECVE_RULES, Ending())), EXECVE_ENTRY);
  }

  // ------------------------------------------------------------------ at most one execve

  /** Every rule of `syscall` matches always and traces with an `OnlyOnce` handler; `once`, the action of the first of
      them, belongs to no rule of another syscall. */
  ghost predicate GuardedBy(inserted: seq<Rule>, syscall: int, once: SeccompAction) {
    var group := ForSyscall(inserted, syscall);
    && group != [] && group[0].action == once
    && (forall r | r in group :: r.filter == ALWAYS && r.action.kind.TRACE? && r.action.handler.OnlyOnce?)
    && (forall r | r in inserted && r.action == once :: r.syscall == syscall)
  }

  lemma {:induction false} OneLevel(group: seq<Rule>, k: nat)
    requires forall r | r in group :: r.Rank() == 1
    ensures OfRank(group, k) == if k == 1 then group else []
  {
    if group != [] {
      assert group == [group[0]] + group[1..];
      OneLevel(group[1..], k);
    }
  }

  lemma GuardedDecision(inserted: seq<Rule>, syscall: int, once: SeccompAction, default: SeccompAction, call: Call)
    requires GuardedBy(inserted, syscall, once) && default != once
    ensures Reference(inserted, default, call) == RunHandler(once) <==> call.syscall == syscall
  {
    var group := ForSyscall(inserted, call.syscall);
    if call.syscall == syscall {
      OneLevel(group, 3);
      OneLevel(group, 2);
      OneLevel(group, 1);
      assert group[0] in group && group[0].filter.Match(call);
      assert Choose(group, call) == Some(group[0]);
    } else {
      ChooseIsBest(group, call);
      if Choose(group, call).Some? {
        ForSyscallIn(inserted, call.syscall, Choose(group, call).value);
      }
    }
  }

  lemma AllowedIsListed(names: OtherNames, name: SyscallName)
    requires name in names
    ensures Allowing(name, Everything) in AllowAll(names)
  {
    var i :| 0 <= i < |names| && names[i] == name;
    assert AllowAll(names)[i] == Allowing(name, Everything);
  }

  lemma RequestIsNamed(name: SyscallName)
    requires IsRequest(name)
    ensures name in MEMORY_CALLS
  {
    assert MEMORY_CALLS[1] == mmap && MEMORY_CALLS[2] == mmap2 && MEMORY_CALLS[4] == mremap;
  }

  lemma RequestIsManaged(name: SyscallName)
    requires IsRequest(name)
    ensures Allowing(name, Everything) in MemoryManagement()
  {
    RequestIsNamed(name);
    AllowedIsListed(MEMORY_CALLS, name);
    JoinKeeps(AllowAll(MEMORY_CALLS), Each(ADVICE_CALLS, Failing(madvise, EINVAL, Everything)),
              Allowing(name, Everything));
  }

  lemma RequestIsTraced(name: SyscallName)
    requires IsRequest(name)
    ensures MemoryEntry(name) in MemoryTable()
  {
    var rest := Join(MMAP_RULES, MREMAP_RULES);
    if !name.mmap2? {
      JoinKeeps(MMAP_RULES, MREMAP_RULES, MemoryEntry(name));
    }
    JoinKeeps(MMAP2_RULES, rest, MemoryEntry(name));
  }

  lemma GuardIsOnce(inserted: seq<Rule>, syscall: int, once: SeccompAction)
    requires GuardedBy(inserted, syscall, once)
    ensures once.kind.TRACE? && once.handler.OnlyOnce?
  {}

  ghost predicate Earlier(calls: seq<Call>, i: nat, syscall: int)
    requires i <= |calls|
  {
    exists j | 0 <= j < i :: calls[j].syscall == syscall
  }

  /** A listener whose rules guard `guarded`, given calls its filters are sound on. */
  ghost predicate Guarding(listener: SeccompListener, guarded: int, once: SeccompAction)
    reads listener
  {
    && listener.Valid() && listener.context.Some? && |listener.order| <= MAX_GROUPS
    && GuardedBy(listener.inserted, guarded, once)
    && listener.basePolicy.defaultAction != once && once in listener.actions
    && listener.basePolicy.defaultAction.kind == KILL
  }

  ghost predicate AllAttended(inserted: seq<Rule>, calls: seq<Call>) {
    forall i {:trigger AttendedAndSound(inserted, calls[i])} | 0 <= i < |calls| :: AttendedAndSound(inserted, calls[i])
  }

  /** One call: a guarded one finds the shared flag, answers by it and sets it. */
  method ExecuteCall(listener: SeccompListener, call: Call, memory: M.MemoryLimitListener, used: nat, ghost guarded: int,
                     ghost once: SeccompAction) returns (answer: TraceAction, ghost t: Turn)
    requires Guarding(listener, guarded, once) && AttendedAndSound(listener.inserted, call)
    modifies listener`lastSyscallArch, memory, memory.out, listener.actions`executed
    ensures Guarding(listener, guarded, once)
    ensures call.syscall == guarded ==> answer == if old(once.executed) then Kill else Continue
    ensures once.executed == (old(once.executed) || call.syscall == guarded)
    ensures IsTurn(t, listener.inserted, listener.basePolicy.defaultAction, call) && t.answer == answer
    ensures t.before == old(memory.out.verdict) && t.after == memory.out.verdict
    ensures t.view == old(memory.Sees(used)) && memory.vmPeakValid == old(memory.vmPeakValid)
  {
    GuardedDecision(listener.inserted, guarded, once, listener.basePolicy.defaultAction, call);
    GuardIsOnce(listener.inserted, guarded, once);
    ghost var view, before := memory.Sees(used), memory.out.verdict;
    var decision;
    ghost var seen;
    decision, answer, seen := Enforce(listener, call, memory, used);
    HandlerIsMatched(listener.inserted, listener.basePolicy.defaultAction, call);
    t := Turn(decision, view, answer, before, memory.out.verdict);
  }

  lemma HandlerIsMatched(rules: seq<Rule>, default: SeccompAction, call: Call)
    requires default.kind == KILL
    ensures Reference(rules, default, call).RunHandler? ==> Matched(rules, call)
  {
    ChooseIsBest(ForSyscall(rules, call.syscall), call);
  }

  ghost predicate IsTurn(t: Turn, rules: seq<Rule>, default: SeccompAction, call: Call) {
    t.decision == Reference(rules, default, call) && t.Follows(call)
  }

  /** Of the guarded calls answered so far, the first was let through and the later ones killed. */
  ghost predicate OnceOnly(calls: seq<Call>, answers: seq<TraceAction>, guarded: int) {
    && |answers| <= |calls|
    && forall k | 0 <= k < |answers| && calls[k].syscall == guarded ::
      answers[k] == if Earlier(calls, k, guarded) then Kill else Continue
  }

  lemma OneMoreCall(calls: seq<Call>, answers: seq<TraceAction>, guarded: int, answer: TraceAction)
    requires OnceOnly(calls, answers, guarded) && |answers| < |calls|
    requires calls[|answers|].syscall == guarded ==>
      answer == if Earlier(calls, |answers|, guarded) then Kill else Continue
    ensures OnceOnly(calls, answers + [answer], guarded)
    ensures Earlier(calls, |answers| + 1, guarded) <==>
            Earlier(calls, |answers|, guarded) || calls[|answers|].syscall == guarded
  {
    var i := |answers|;
    if calls[i].syscall == guarded {
      assert Earlier(calls, i + 1, guarded);
    }
  }

  /** Over any run of calls, the first one of a guarded syscall is let through and every later one is answered KILL: the
      rules were copied, sorted and emitted twice, but they share one action. */
  method ExecuteCalls(listener: SeccompListener, calls: seq<Call>, memory: M.MemoryLimitListener, used: seq<nat>,
                      ghost guarded: int, ghost once: SeccompAction)
    returns (answers: seq<TraceAction>, ghost turns: seq<Turn>)
    requires |used| == |calls|
    requires AllAttended(listener.inserted, calls)
    requires Guarding(listener, guarded, once) && !once.executed
    modifies listener`lastSyscallArch, memory, memory.out, listener.actions`executed
    ensures |answers| == |calls|
    ensures Ran(turns, listener.inserted, listener.basePolicy.defaultAction, calls, answers, guarded,
                old(memory.out.verdict), memory.out.verdict, old(memory.Sees(0)), used)
  {
    ghost var rules, default := listener.inserted, listener.basePolicy.defaultAction;
    ghost var start, view := memory.out.verdict, memory.Sees(0);
    answers, turns := [], [];
    for i := 0 to |calls|
      invariant Guarding(listener, guarded, once) && |answers| == i && memory.vmPeakValid == view.peakValid
      invariant listener.inserted == rules && (once.executed <==> Earlier(calls, i, guarded))
      invariant Ran(turns, rules, default, calls, answers, guarded, start, memory.out.verdict, view, used)
    {
      var answer;
      ghost var t;
      answer, t := ExecuteCall(listener, calls[i], memory, used[i], guarded, once);
      OneMoreCall(calls, answers, guarded, answer);
      RanOneMore(turns, t, rules, default, calls, answers, guarded, start, view, used);
      answers, turns := answers + [answer], turns + [t];
    }
  }

  /** The calls answered so far, each by its decision, on one record, the guarded ones once only. */
  ghost predicate Ran(turns: seq<Turn>, rules: seq<Rule>, default: SeccompAction, calls: seq<Call>,
                      answers: seq<TraceAction>, guarded: int, start: R.Verdict, end: R.Verdict, view: M.View,
                      used: seq<nat>) {
    && AllTurns(turns, rules, default, calls, answers) && OnceOnly(calls, answers, guarded)
    && OnOneRecord(turns, start, end) && Views(turns, view, used)
  }

  lemma RanOneMore(turns: seq<Turn>, t: Turn, rules: seq<Rule>, default: SeccompAction, calls: seq<Call>,
                   answers: seq<TraceAction>, guarded: int, start: R.Verdict, view: M.View, used: seq<nat>)
    requires Ran(turns, rules, default, calls, answers, guarded, start, t.before, view, used)
    requires |answers| < |calls| == |used| && IsTurn(t, rules, default, calls[|answers|])
    requires t.view == view.(used := used[|answers|]) && OnceOnly(calls, answers + [t.answer], guarded)
    ensures Ran(turns + [t], rules, default, calls, answers + [t.answer], guarded, start, t.after, view, used)
  {
    OneMoreTurn(turns, t, start);
  }

  ghost predicate AllTurns(turns: seq<Turn>, rules: seq<Rule>, default: SeccompAction, calls: seq<Call>,
                           answers: seq<TraceAction>) {
    && |turns| == |answers| <= |calls|
    && forall k | 0 <= k < |turns| :: turns[k].answer == answers[k] && IsTurn(turns[k], rules, default, calls[k])
  }

  /** At each turn the handlers go by the size of the address space at that time. */
  ghost predicate Views(turns: seq<Turn>, view: M.View, used: seq<nat>) {
    |turns| <= |used| && forall k | 0 <= k < |turns| :: turns[k].view == view.(used := used[k])
  }

  // ------------------------------------------------------------------ the policies together

  lemma MadeRuleIsBuilt(rules: seq<Rule>, table: Table, resolve: SyscallName -> int, r: Rule, arch: Arch)
    requires Realizes(rules, table, resolve) && r in rules
    ensures BuiltFor(r.filter, arch) && r.action.errno < MESSAGES
  {}

  /** Rules made from tables are sound on every call. */
  lemma MadeRulesAreBuilt(rules: seq<Rule>, table: Table, resolve: SyscallName -> int, call: Call)
    requires Realizes(rules, table, resolve)
    ensures AttendedAndSound(rules, call)
  {
    assert AllBuiltFor(rules, call.arch) && ErrnosFit(rules) by {
      forall r | r in rules ensures BuiltFor(r.filter, call.arch) && r.action.errno < MESSAGES {
        MadeRuleIsBuilt(rules, table, resolve, r, call.arch);
      }
    }
    BuiltRulesAreSound(rules, call);
  }

  lemma OwnExecve(rules: seq<Rule>, table: Table, resolve: SyscallName -> int, r: Rule)
    requires Realizes(rules, table, resolve) && OwnNumber(resolve, execve)
    requires r in rules && r.syscall == resolve(execve)
    ensures r.filter == ALWAYS && r.action.kind.TRACE? && r.action.handler.OnlyOnce?
  {}

  lemma SomeExecve(rules: seq<Rule>, table: seq<Entry>, resolve: SyscallName -> int)
    requires Realizes(rules, table, resolve) && EXECVE_ENTRY in table
    ensures ForSyscall(rules, resolve(execve)) != []
  {
    var i :| 0 <= i < |table| && table[i] == EXECVE_ENTRY;
    assert rules[i] in rules;
    ForSyscallIn(rules, resolve(execve), rules[i]);
  }

  lemma GroupsAreFewerThanRules(order: seq<int>, inserted: seq<Rule>)
    requires Distinct(order) && forall k | k in order :: ForSyscall(inserted, k) != []
    ensures |order| <= |inserted|
  {
    var numbers := set k | k in order;
    forall k | k in numbers ensures k in Syscalls(inserted) {
      var r := ForSyscall(inserted, k)[0];
      ForSyscallIn(inserted, k, r);
      SyscallsOf(inserted, r);
    }
    DistinctCount(order);
    SubsetSize(numbers, Syscalls(inserted));
    SyscallCount(inserted);
  }

  function Syscalls(rules: seq<Rule>): set<int> {
    if rules == [] then {} else {rules[0].syscall} + Syscalls(rules[1..])
  }

  lemma {:induction false} SyscallsOf(rules: seq<Rule>, r: Rule)
    requires r in rules
    ensures r.syscall in Syscalls(rules)
  {
    if r != rules[0] {
      SyscallsOf(rules[1..], r);
    }
  }

  lemma {:induction false} SyscallCount(rules: seq<Rule>)
    ensures |Syscalls(rules)| <= |rules|
  {
    if rules != [] {
      SyscallCount(rules[1..]);
    }
  }

  lemma SubsetSize(a: set<int>, b: set<int>)
    requires a <= b
    ensures |a| <= |b|
  {
    assert b == a + (b - a);
  }

  lemma {:induction false} DistinctCount(order: seq<int>)
    requires Distinct(order)
    ensures |set k | k in order| == |order|
  {
    if order != [] {
      var n := |order| - 1;
      DistinctCount(order[..n]);
      assert order == order[..n] + [order[n]];
      assert order[n] !in order[..n];
      assert (set k | k in order) == (set k | k in order[..n]) + {order[n]};
    }
  }

  /** In the rules of all policies together execve is guarded. */
  lemma ExecveIsGuarded(rules: seq<Rule>, table: Table, resolve: SyscallName -> int) returns (first: Rule)
    requires Realizes(rules, table, resolve) && OwnActions(rules) && OwnNumber(resolve, execve)
    requires EXECVE_ENTRY in table
    ensures first in rules && GuardedBy(rules, resolve(execve), first.action)
  {
    SomeExecve(rules, table, resolve);
    var group := ForSyscall(rules, resolve(execve));
    forall r | r in group
      ensures r in rules && r.syscall == resolve(execve)
      ensures r.filter == ALWAYS && r.action.kind.TRACE? && r.action.handler.OnlyOnce?
    {
      ForSyscallIn(rules, resolve(execve), r);
      OwnExecve(rules, table, resolve, r);
    }
    first := group[0];
    assert first in group;
  }

  lemma ConcatRealizes(a: seq<Rule>, b: seq<Rule>, s: seq<Entry>, t: seq<Entry>, resolve: SyscallName -> int)
    requires Realizes(a, s, resolve) && Realizes(b, t, resolve)
    ensures Realizes(a + b, s + t, resolve)
  {}

  lemma ConcatOwns(a: seq<Rule>, b: seq<Rule>)
    requires OwnActions(a) && OwnActions(b)
    requires forall r, q | r in a && q in b :: r.action != q.action
    ensures OwnActions(a + b)
  {}

  method MakeAllRules(first: Table, second: Table, third: Table, resolve: SyscallName -> int)
    returns (a: seq<Rule>, b: seq<Rule>, c: seq<Rule>, ghost actions: set<SeccompAction>)
    ensures Realizes(a + b + c, Join(Join(first, second), third), resolve)
    ensures OwnActions(a + b + c)
    ensures actions == set r | r in a + b + c :: r.action
    ensures fresh(actions) && forall x | x in actions :: !x.executed
  {
    a := MakeRules(first, resolve);
    b := MakeRules(second, resolve);
    ConcatOwns(a, b);
    ConcatRealizes(a, b, first, second, resolve);
    c := MakeRules(third, resolve);
    ConcatOwns(a + b, c);
    ConcatRealizes(a + b, c, Join(first, second), third, resolve);
    actions := set r | r in a + b + c :: r.action;
  }

  /** A listener that embeds two policies before its base policy. */
  method NewListener(first: seq<Rule>, second: seq<Rule>, base: seq<Rule>)
    returns (listener: SeccompListener)
    ensures fresh(listener) && fresh(listener.basePolicy.defaultAction) && listener.basePolicy.rules == base
    ensures listener.basePolicy.defaultAction.kind == KILL
    ensures listener.Valid() && listener.context == None && listener.inserted == first + second
    ensures listener.actions == {listener.basePolicy.defaultAction} + set r | r in first + second + base :: r.action
  {
    var default := new SeccompAction(KILL);
    listener := new SeccompListener(Policy(base, default));
    listener.AddPolicy(first);
    listener.AddPolicy(second);
  }

  /** The same, compiled. */
  method Embed(first: seq<Rule>, second: seq<Rule>, base: seq<Rule>, ghost actions: set<SeccompAction>)
    returns (listener: SeccompListener)
    requires actions == set r | r in first + second + base :: r.action
    modifies actions`ruleId
    ensures fresh(listener) && fresh(listener.basePolicy.defaultAction)
    ensures listener.Valid() && listener.context.Some? && listener.basePolicy.defaultAction.kind == KILL
    ensures listener.inserted == first + second + base
    ensures listener.actions == {listener.basePolicy.defaultAction} + actions
    ensures |listener.order| <= |first + second + base|
  {
    listener := NewListener(first, second, base);
    listener.OnPreFork();
    CompiledGroupsAreFewer(listener);
  }

  lemma CompiledGroupsAreFewer(listener: SeccompListener)
    requires listener.Valid() && listener.context.Some?
    ensures |listener.order| <= |listener.inserted|
  {
    GroupsAreFewerThanRules(listener.order, listener.inserted);
  }

  lemma PoliciesAreReady(rules: seq<Rule>, table: Table, resolve: SyscallName -> int, calls: seq<Call>)
    returns (guard: Rule)
    requires Realizes(rules, table, resolve) && OwnActions(rules) && OwnNumber(resolve, execve)
    requires EXECVE_ENTRY in table
    ensures guard in rules && GuardedBy(rules, resolve(execve), guard.action)
    ensures AllAttended(rules, calls)
  {
    guard := ExecveIsGuarded(rules, table, resolve);
    forall i | 0 <= i < |calls| ensures AttendedAndSound(rules, calls[i]) {
      MadeRulesAreBuilt(rules, table, resolve, calls[i]);
    }
  }

  /** Rules made, embedded and compiled. */
  method Prepare(first: Table, second: Table, base: Table, resolve: SyscallName -> int)
    returns (listener: SeccompListener)
    requires |first| + |second| + |base| <= MAX_GROUPS
    ensures fresh(listener) && fresh(listener.actions) && listener.basePolicy.defaultAction.kind == KILL
    ensures listener.Valid() && listener.context.Some? && |listener.order| <= MAX_GROUPS
    ensures Realizes(listener.inserted, Join(Join(first, second), base), resolve) && OwnActions(listener.inserted)
    ensures forall r | r in listener.inserted ::
      r.action in listener.actions && !r.action.executed && r.action != listener.basePolicy.defaultAction
  {
    var a, b, c;
    ghost var actions;
    a, b, c, actions := MakeAllRules(first, second, base, resolve);
    listener := Embed(a, b, c, actions);
  }

  /** A listener prepared from a table that names execve, with actions that have not run. */
  ghost predicate Prepared(listener: SeccompListener, table: seq<Entry>, resolve: SyscallName -> int)
    reads listener, set r | r in listener.inserted :: r.action
  {
    && listener.basePolicy.defaultAction.kind == KILL
    && listener.Valid() && listener.context.Some? && |listener.order| <= MAX_GROUPS
    && Realizes(listener.inserted, table, resolve) && OwnActions(listener.inserted) && EXECVE_ENTRY in table
    && forall r | r in listener.inserted ::
      r.action in listener.actions && !r.action.executed && r.action != listener.basePolicy.defaultAction
  }

  method RunGuarded(listener: SeccompListener, ghost table: Table, resolve: SyscallName -> int, calls: seq<Call>,
                    memory: M.MemoryLimitListener, used: seq<nat>, ghost once: SeccompAction)
    returns (answers: seq<TraceAction>, ghost turns: seq<Turn>)
    requires Guarding(listener, resolve(execve), once) && !once.executed && AllAttended(listener.inserted, calls)
    requires Realizes(listener.inserted, table, resolve) && |used| == |calls|
    modifies listener`lastSyscallArch, memory, memory.out, listener.actions`executed
    ensures |answers| == |calls| && OnceOnly(calls, answers, resolve(execve))
    ensures AllSettled(turns, table, resolve, calls, answers)
    ensures OnOneRecord(turns, old(memory.out.verdict), memory.out.verdict)
    ensures Views(turns, old(memory.Sees(0)), used)
  {
    ghost var rules, default := listener.inserted, listener.basePolicy.defaultAction;
    ghost var start, view := memory.out.verdict, memory.Sees(0);
    answers, turns := ExecuteCalls(listener, calls, memory, used, resolve(execve), once);
    RanSettles(turns, rules, table, resolve, default, calls, answers, start, memory.out.verdict, view, used);
  }

  lemma PreparedGuards(listener: SeccompListener, table: Table, resolve: SyscallName -> int, calls: seq<Call>)
    returns (once: SeccompAction)
    requires Prepared(listener, table, resolve) && OwnNumber(resolve, execve)
    ensures Guarding(listener, resolve(execve), once) && !once.executed && AllAttended(listener.inserted, calls)
    ensures Realizes(listener.inserted, table, resolve)
  {
    var guard := PoliciesAreReady(listener.inserted, table, resolve, calls);
    once := guard.action;
  }

  lemma RanSettles(turns: seq<Turn>, rules: seq<Rule>, table: Table, resolve: SyscallName -> int, default: SeccompAction,
                   calls: seq<Call>, answers: seq<TraceAction>, start: R.Verdict, end: R.Verdict, view: M.View,
                   used: seq<nat>)
    requires Realizes(rules, table, resolve) && default.kind == KILL && |answers| == |calls|
    requires Ran(turns, rules, default, calls, answers, resolve(execve), start, end, view, used)
    ensures AllSettled(turns, table, resolve, calls, answers)
    ensures OnceOnly(calls, answers, resolve(execve)) && OnOneRecord(turns, start, end) && Views(turns, view, used)
  {
    TurnsSettle(turns, rules, table, resolve, default, calls, answers);
  }

  /** A run under two embedded policies and a base policy: the first execve is let through, later ones are answered KILL. */
  method RunPolicies(first: Table, second: Table, base: Table, resolve: SyscallName -> int, calls: seq<Call>,
                     memory: M.MemoryLimitListener, used: seq<nat>)
    returns (answers: seq<TraceAction>, ghost turns: seq<Turn>)
    requires OwnNumber(resolve, execve) && EXECVE_ENTRY in base && |first| + |second| + |base| <= MAX_GROUPS
    requires |used| == |calls|
    modifies memory, memory.out
    ensures |answers| == |calls| && OnceOnly(calls, answers, resolve(execve))
    ensures AllSettled(turns, Join(Join(first, second), base), resolve, calls, answers)
    ensures OnOneRecord(turns, old(memory.out.verdict), memory.out.verdict)
    ensures Views(turns, old(memory.Sees(0)), used)
  {
    var listener := Prepare(first, second, base, resolve);
    JoinKeeps(Join(first, second), base, EXECVE_ENTRY);
    ghost var table := Join(Join(first, second), base);
    ghost var once := PreparedGuards(listener, table, resolve, calls);
    answers, turns := RunGuarded(listener, table, resolve, calls, memory, used, once);
  }

  ghost predicate AllSettled(turns: seq<Turn>, table: seq<Entry>, resolve: SyscallName -> int, calls: seq<Call>,
                             answers: seq<TraceAction>) {
    && |turns| == |answers| == |calls|
    && forall k | 0 <= k < |turns| :: turns[k].answer == answers[k] && Settled(table, resolve, calls[k], turns[k])
  }

  lemma TurnsSettle(turns: seq<Turn>, rules: seq<Rule>, table: Table, resolve: SyscallName -> int, default: SeccompAction,
                    calls: seq<Call>, answers: seq<TraceAction>)
    requires Realizes(rules, table, resolve) && default.kind == KILL && |answers| == |calls|
    requires AllTurns(turns, rules, default, calls, answers)
    ensures AllSettled(turns, table, resolve, calls, answers)
  {
    forall k | 0 <= k < |turns| ensures turns[k].answer == answers[k] && Settled(table, resolve, calls[k], turns[k]) {
      assert IsTurn(turns[k], rules, default, calls[k]);
      SettledAsFollowed(rules, table, resolve, default, calls[k], turns[k]);
    }
  }

  /** Rules are only ever added. */
  ghost predicate Grown(rules: Table, more: Table) {
    |more| <= |rules| + 200 && forall e | e in rules :: e in more
  }

  lemma JoinGrows(rules: Table, more: Table)
    requires |more| <= 200
    ensures Grown(rules, Join(rules, more))
  {}

  /** Appends a section. */
  method Append(rules: Table, own: Table) returns (more: Table)
    requires |own| <= 200
    ensures Grown(rules, more) && forall e | e in own :: e in more
    ensures forall n, call :: Strongest(more, n, call) == Stronger(Strongest(rules, n, call), Strongest(own, n, call))
  {
    JoinGrows(rules, own);
    forall n, call
      ensures Strongest(Join(rules, own), n, call) == Stronger(Strongest(rules, n, call), Strongest(own, n, call))
    {
      StrongestJoin(rules, own, n, call);
    }
    more := Join(rules, own);
  }

  method AddExecutionControlRules(rules: Table) returns (more: Table)
    ensures forall n, call :: Strongest(more, n, call) == Stronger(Strongest(rules, n, call), Control(n))
    ensures Grown(rules, more) && EXECVE_ENTRY in more
  {
    ControlSays();
    ExecveIsControlled();
    more := Append(rules, ExecutionControl());
  }

  method AddMemoryManagementRules(rules: Table, ghost name: SyscallName) returns (more: Table)
    ensures forall n, call :: Strongest(more, n, call) == Stronger(Strongest(rules, n, call), Memory(n))
    ensures Grown(rules, more) && (IsRequest(name) ==> Allowing(name, Everything) in more)
  {
    MemorySays();
    if IsRequest(name) {
      RequestIsManaged(name);
    }
    more := Append(rules, MemoryManagement());
  }

  method AddSystemInformationRules(rules: Table, randomizeTime: bool) returns (more: Table)
    ensures forall n, call ::
      Strongest(more, n, call) == Stronger(Strongest(rules, n, call), Information(n, call, randomizeTime))
    ensures Grown(rules, more)
  {
    InformationSays(randomizeTime);
    more := Append(rules, SystemInformation(randomizeTime));
  }

  method AddFileSystemAccessRules(rules: Table) returns (more: Table)
    ensures forall n, call :: Strongest(more, n, call) == Stronger(Strongest(rules, n, call), Files(n, call))
    ensures Grown(rules, more)
  {
    FilesSay();
    more := Append(rules, FileSystemAccess());
  }

  method AddInputOutputRules(rules: Table) returns (more: Table)
    ensures forall n, call :: Strongest(more, n, call) == Stronger(Strongest(rules, n, call), Transfers(n, call))
    ensures Grown(rules, more)
  {
    TransfersSay();
    more := Append(rules, InputOutput());
  }

  /** The first half of the default policy's constructor: what may run at all. */
  method AddProcessRules(ghost name: SyscallName) returns (rules: Table)
    ensures EXECVE_ENTRY in rules && |rules| <= 400
    ensures forall n, call :: Strongest(rules, n, call) == Stronger(Control(n), Memory(n))
    ensures IsRequest(name) ==> Allowing(name, Everything) in rules
  {
    rules := AddExecutionControlRules([]);
    rules := AddMemoryManagementRules(rules, name);
  }

  /** The second half: what may be reached, and learned. */
  method AddFileRules(rules: Table) returns (more: Table)
    ensures |more| <= |rules| + 400 && forall e | e in rules :: e in more
    ensures forall n, call ::
      Strongest(more, n, call) == Stronger(Stronger(Strongest(rules, n, call), Files(n, call)), Transfers(n, call))
  {
    more := AddFileSystemAccessRules(rules);
    more := AddInputOutputRules(more);
  }

  method AddAccessRules(rules: Table, randomizeTime: bool) returns (more: Table)
    ensures |more| <= |rules| + 600 && forall e | e in rules :: e in more
    ensures forall n, call ::
      Strongest(more, n, call) ==
      Stronger(Stronger(Stronger(Strongest(rules, n, call), Information(n, call, randomizeTime)), Files(n, call)),
               Transfers(n, call))
  {
    more := AddSystemInformationRules(rules, randomizeTime);
    more := AddFileRules(more);
  }

  /** The default policy's rules, in the order its constructor adds them. */
  method DefaultRules(randomizeTime: bool, ghost name: SyscallName) returns (base: Table)
    ensures EXECVE_ENTRY in base && |base| <= 1000 && KeepsBase(base, randomizeTime)
    ensures IsRequest(name) ==> Allowing(name, Everything) in base
  {
    base := AddProcessRules(name);
    base := AddAccessRules(base, randomizeTime);
  }

  /** The memory limit's rules. */
  method MemoryRules(ghost name: SyscallName) returns (first: Table)
    ensures first == MemoryTable() && |first| == 3 && (IsRequest(name) ==> MemoryEntry(name) in first)
  {
    first := MemoryTable();
    if IsRequest(name) {
      RequestIsTraced(name);
    }
  }

  /** The rules of the memory limit, those of the threads limit and those of the default policy. */
  method EmbeddedTables(randomizeTime: bool, threadsLimit: int, ghost name: SyscallName)
    returns (first: Table, second: Table, base: Table)
    ensures EXECVE_ENTRY in base && |first| + |second| + |base| <= MAX_GROUPS
    ensures IsRequest(name) ==> MemoryEntry(name) in first && Allowing(name, Everything) in base
    ensures Keeps(Join(Join(first, second), base), randomizeTime, threadsLimit)
  {
    first := MemoryRules(name);
    second := ThreadsTable(threadsLimit);
    base := DefaultRules(randomizeTime, name);
    TogetherKept(first, second, base, randomizeTime, threadsLimit);
  }

  /** Nothing is said about the call under any name that has its number. */
  ghost predicate Unsaid(randomizeTime: bool, threadsLimit: int, resolve: SyscallName -> int, call: Call) {
    forall name | resolve(name) == call.syscall :: Said(name, call, randomizeTime, threadsLimit) == None
  }

  /** Every call is decided, answered and recorded as is said of the one name with its number, and killed with RV offered
      if nothing is said about it. */
  ghost predicate AsSaid(turns: seq<Turn>, randomizeTime: bool, threadsLimit: int, resolve: SyscallName -> int,
                         calls: seq<Call>, answers: seq<TraceAction>) {
    && |turns| == |answers| == |calls|
    && (forall k | 0 <= k < |turns| :: turns[k].answer == answers[k])
    && (forall k, name | 0 <= k < |turns| && OwnNumber(resolve, name) && resolve(name) == calls[k].syscall ::
          var said := Said(name, calls[k], randomizeTime, threadsLimit);
          Decided(turns[k].decision, said) && turns[k].Obeys(said, calls[k]))
    && forall k | 0 <= k < |turns| && Unsaid(randomizeTime, threadsLimit, resolve, calls[k]) ::
      turns[k].decision == KillTracee && turns[k].KilledIf(true, R.RV)
  }

  lemma SettledIsSaid(turns: seq<Turn>, table: Table, randomizeTime: bool, threadsLimit: int,
                      resolve: SyscallName -> int, calls: seq<Call>, answers: seq<TraceAction>)
    requires Keeps(table, randomizeTime, threadsLimit) && AllSettled(turns, table, resolve, calls, answers)
    ensures AsSaid(turns, randomizeTime, threadsLimit, resolve, calls, answers)
  {
    forall k, name | 0 <= k < |turns| && OwnNumber(resolve, name) && resolve(name) == calls[k].syscall
      ensures var said := Said(name, calls[k], randomizeTime, threadsLimit);
        Decided(turns[k].decision, said) && turns[k].Obeys(said, calls[k])
    {
      assert Settled(table, resolve, calls[k], turns[k]);
      assert Strongest(table, name, calls[k]) == Said(name, calls[k], randomizeTime, threadsLimit);
    }
    forall k | 0 <= k < |turns| && Unsaid(randomizeTime, threadsLimit, resolve, calls[k])
      ensures turns[k].decision == KillTracee && turns[k].KilledIf(true, R.RV)
    {
      assert Settled(table, resolve, calls[k], turns[k]);
      assert Silent(table, resolve, calls[k]);
    }
  }

  /** The same under the default policy, with the rules of the memory and threads limits embedded before its own. */
  method RunDefaultPolicy(randomizeTime: bool, threadsLimit: int, resolve: SyscallName -> int, calls: seq<Call>,
                          memory: M.MemoryLimitListener, used: seq<nat>)
    returns (answers: seq<TraceAction>, ghost turns: seq<Turn>)
    requires OwnNumber(resolve, execve)
    requires |used| == |calls|
    modifies memory, memory.out
    ensures |answers| == |calls| && OnceOnly(calls, answers, resolve(execve))
    ensures AsSaid(turns, randomizeTime, threadsLimit, resolve, calls, answers)
    ensures OnOneRecord(turns, old(memory.out.verdict), memory.out.verdict)
    ensures Views(turns, old(memory.Sees(0)), used)
  {
    var first, second, base := EmbeddedTables(randomizeTime, threadsLimit, execve);
    answers, turns := RunPolicies(first, second, base, resolve, calls, memory, used);
    SettledIsSaid(turns, Join(Join(first, second), base), randomizeTime, threadsLimit, resolve, calls, answers);
  }

  // ------------------------------------------------------------------ requests for memory

  /** A rule for a request is one of two: the memory limit's, or the one that allows it. */
  lemma RequestRule(rules: seq<Rule>, table: Table, resolve: SyscallName -> int, name: SyscallName, r: Rule)
    requires Realizes(rules, table, resolve) && IsRequest(name) && OwnNumber(resolve, name)
    requires r in rules && r.syscall == resolve(name)
    ensures Made(r, MemoryEntry(name), resolve) || Made(r, Allowing(name, Everything), resolve)
  {
    var i :| 0 <= i < |rules| && rules[i] == r;
    assert Made(r, table[i], resolve) && Fitting(table[i]);
  }

  lemma RuleOf(rules: seq<Rule>, table: Table, resolve: SyscallName -> int, e: Entry) returns (r: Rule)
    requires Realizes(rules, table, resolve) && e in table
    ensures r in ForSyscall(rules, resolve(e.name)) && Made(r, e, resolve)
  {
    var i :| 0 <= i < |table| && table[i] == e;
    r := rules[i];
    assert Made(r, table[i], resolve);
    ForSyscallIn(rules, resolve(e.name), r);
  }

  lemma RequestFilters(name: SyscallName, call: Call)
    requires IsRequest(name)
    ensures Build(MemoryEntry(name).filter).Match(call) <==> M.IsTraced(RequestOf(call, name.mremap?))
    ensures Build(Everything).Match(call)
  {
    BuiltForms(MemoryEntry(name).filter, call);
    if name.mremap? {
      TracedRemappings(call);
    } else {
      TracedMappings(call);
    }
  }

  /** What is decided about a request for memory: exactly the traced ones run the memory limit's handler, whose rule
      outranks the one that allows them; the others are allowed. */
  lemma RequestDecision(rules: seq<Rule>, table: Table, resolve: SyscallName -> int, name: SyscallName,
                        default: SeccompAction, call: Call)
    requires Realizes(rules, table, resolve) && IsRequest(name) && OwnNumber(resolve, name)
    requires MemoryEntry(name) in table && Allowing(name, Everything) in table && call.syscall == resolve(name)
    ensures Matched(rules, call)
    ensures var decision := Reference(rules, default, call);
      if M.IsTraced(RequestOf(call, name.mremap?))
      then decision.RunHandler? && decision.action.handler == MemoryRequest(name.mremap?)
      else decision == Permit
  {
    var group := ForSyscall(rules, call.syscall);
    var traced := RuleOf(rules, table, resolve, MemoryEntry(name));
    var allowed := RuleOf(rules, table, resolve, Allowing(name, Everything));
    RequestFilters(name, call);
    ChooseIsBest(group, call);
    var chosen := Choose(group, call).value;
    ForSyscallIn(rules, call.syscall, chosen);
    RequestRule(rules, table, resolve, name, chosen);
  }

  /** A compiled listener whose rules were made from a table. */
  ghost predicate Ready(listener: SeccompListener, table: Table, resolve: SyscallName -> int)
    reads listener
  {
    && listener.Valid() && listener.context.Some? && |listener.order| <= MAX_GROUPS
    && Realizes(listener.inserted, table, resolve)
  }

  /** The table traces a request for memory and allows it. */
  ghost predicate Offers(table: Table, name: SyscallName) {
    IsRequest(name) && MemoryEntry(name) in table && Allowing(name, Everything) in table
  }

  /** What the decision about a request comes to. */
  ghost predicate Judged(d: Decision, r: M.Request, call: Call, v: R.Verdict, view: M.View) {
    var answer := DecisionAnswer(d, false, call, view);
    && (answer == Kill <==> M.IsTraced(r) && view.Kills(r))
    && AfterHandler(v, answer, DecisionReason(d, call, view)) ==
       (if answer == Kill then v.WithReason(R.MLE) else v)
    && (d.RunHandler? ==> d.action.handler.MemoryRequest?)
  }

  lemma RequestIsJudged(d: Decision, remap: bool, call: Call, v: R.Verdict, view: M.View)
    requires var r := RequestOf(call, remap);
      if M.IsTraced(r) then d.RunHandler? && d.action.handler == MemoryRequest(remap) else d == Permit
    ensures Judged(d, RequestOf(call, remap), call, v, view)
  {}

  lemma RequestIsReady(rules: seq<Rule>, table: Table, resolve: SyscallName -> int, name: SyscallName,
                       default: SeccompAction, call: Call, v: R.Verdict, view: M.View)
    requires Realizes(rules, table, resolve) && Offers(table, name) && OwnNumber(resolve, name)
    requires call.syscall == resolve(name)
    ensures AttendedAndSound(rules, call) && Matched(rules, call)
    ensures Judged(Reference(rules, default, call), RequestOf(call, name.mremap?), call, v, view)
  {
    MadeRulesAreBuilt(rules, table, resolve, call);
    RequestDecision(rules, table, resolve, name, default, call);
    RequestIsJudged(Reference(rules, default, call), name.mremap?, call, v, view);
  }

  method EnforceJudged(listener: SeccompListener, call: Call, memory: M.MemoryLimitListener, used: nat,
                       ghost r: M.Request) returns (answer: TraceAction)
    requires listener.Valid() && listener.context.Some? && |listener.order| <= MAX_GROUPS
    requires AttendedAndSound(listener.inserted, call) && Matched(listener.inserted, call)
    requires Judged(Reference(listener.inserted, listener.basePolicy.defaultAction, call), r, call, memory.out.verdict,
                    memory.Sees(used))
    modifies listener`lastSyscallArch, memory, memory.out, listener.actions`executed
    ensures listener.Valid() && memory.vmPeakValid == old(memory.vmPeakValid)
    ensures answer == Kill <==> M.IsTraced(r) && old(memory.Sees(used)).Kills(r)
    ensures memory.out.verdict ==
      if answer == Kill then old(memory.out.verdict).WithReason(R.MLE) else old(memory.out.verdict)
  {
    var decision;
    ghost var seen;
    decision, answer, seen := Enforce(listener, call, memory, used);
  }

  /** Under the compiled policies a request for memory is answered KILL exactly when it is traced and too much, and then
      MLE is on record, not the RV that is offered after it. */
  method EnforceRequest(listener: SeccompListener, ghost table: Table, resolve: SyscallName -> int,
                        ghost name: SyscallName, call: Call, memory: M.MemoryLimitListener, used: nat)
    returns (answer: TraceAction)
    requires Ready(listener, table, resolve) && Offers(table, name) && OwnNumber(resolve, name)
    requires call.syscall == resolve(name)
    modifies listener`lastSyscallArch, memory, memory.out, listener.actions`executed
    ensures Ready(listener, table, resolve) && memory.vmPeakValid == old(memory.vmPeakValid)
    ensures var r := RequestOf(call, name.mremap?);
      answer == Kill <==> M.IsTraced(r) && old(memory.Sees(used)).Kills(r)
    ensures memory.out.verdict ==
      if answer == Kill then old(memory.out.verdict).WithReason(R.MLE) else old(memory.out.verdict)
  {
    RequestIsReady(listener.inserted, table, resolve, name, listener.basePolicy.defaultAction, call, memory.out.verdict,
                   memory.Sees(used));
    answer := EnforceJudged(listener, call, memory, used, RequestOf(call, name.mremap?));
  }

  lemma RefusedIsOverLimit(view: M.View, r: M.Request)
    requires view.peakValid && 0 < view.limitKb && view.limitKb * M.KIB + M.MEMORY_LIMIT_MARGIN < WORD_SIZE
    requires (r.Map? ==> r.address == 0) && M.Refused(view.limitKb, view.used, r)
    ensures (M.IsTraced(r) && view.Kills(r)) || M.UsageKb(view.used) > view.limitKb
  {
    M.RefusalsAreAttributed(view.limitKb, view.used, r);
  }

  /** The next event, when the size was over the limit already. */
  method ReadPeak(memory: M.MemoryLimitListener, vmPeakKb: nat, ghost c: S.Config, ghost s: S.Sandbox, ghost o: S.Oracle)
    returns (killed: bool)
    requires memory.vmPeakValid && 0 < memory.memoryLimitKb < vmPeakKb
    requires c.memoryLimitKb == memory.memoryLimitKb && o.vmPeakKb == vmPeakKb
    modifies memory, memory.out
    ensures killed && memory.out.verdict == old(memory.out.verdict).WithReason(R.MLE)
  {
    killed := memory.OnExecuteEvent(vmPeakKb, c, s.(peakKb := memory.memoryPeakKb, peakValid := memory.vmPeakValid,
                                                    verdict := memory.out.verdict), o);
  }

  /** A request the kernel would refuse, made after exec under the compiled policies, and the next event of the tracee,
      which reads a peak no lower than the size at the time: in the end the limit has killed it, with MLE on record. */
  method EnforceRefused(listener: SeccompListener, ghost table: Table, resolve: SyscallName -> int,
                        ghost name: SyscallName, call: Call, memory: M.MemoryLimitListener, used: nat, vmPeakKb: nat,
                        ghost c: S.Config, ghost s: S.Sandbox, ghost o: S.Oracle)
    returns (killed: bool)
    requires Ready(listener, table, resolve) && Offers(table, name) && OwnNumber(resolve, name)
    requires call.syscall == resolve(name)
    requires memory.vmPeakValid && 0 < memory.memoryLimitKb
    requires memory.memoryLimitKb * M.KIB + M.MEMORY_LIMIT_MARGIN < WORD_SIZE
    requires var r := RequestOf(call, name.mremap?);
      (r.Map? ==> r.address == 0) && M.Refused(memory.memoryLimitKb, used, r)
    requires vmPeakKb >= M.UsageKb(used) && c.memoryLimitKb == memory.memoryLimitKb && o.vmPeakKb == vmPeakKb
    modifies listener`lastSyscallArch, memory, memory.out, listener.actions`executed
    ensures killed && memory.out.verdict == old(memory.out.verdict).WithReason(R.MLE)
  {
    RefusedIsOverLimit(memory.Sees(used), RequestOf(call, name.mremap?));
    var answer := EnforceRequest(listener, table, resolve, name, call, memory, used);
    if answer == Kill {
      return true;
    }
    killed := ReadPeak(memory, vmPeakKb, c, s, o);
  }

  /** The default policy with the limits' rules, compiled. */
  method PrepareDefault(randomizeTime: bool, threadsLimit: int, resolve: SyscallName -> int, ghost name: SyscallName)
    returns (listener: SeccompListener, ghost table: Table)
    requires IsRequest(name)
    ensures fresh(listener) && fresh(listener.actions) && Ready(listener, table, resolve) && Offers(table, name)
  {
    var first, second, base := EmbeddedTables(randomizeTime, threadsLimit, name);
    listener := Prepare(first, second, base, resolve);
    table := Join(Join(first, second), base);
    JoinKeeps(first, second, MemoryEntry(name));
    JoinKeeps(Join(first, second), base, MemoryEntry(name));
    JoinKeeps(Join(first, second), base, Allowing(name, Everything));
  }

  /** The same under the default policy with the limits' rules, from a record without a reason. */
  method RunRefused(randomizeTime: bool, threadsLimit: int, resolve: SyscallName -> int, ghost name: SyscallName,
                    call: Call, memory: M.MemoryLimitListener, used: nat, vmPeakKb: nat,
                    ghost c: S.Config, ghost s: S.Sandbox, ghost o: S.Oracle)
    returns (killed: bool)
    requires IsRequest(name) && OwnNumber(resolve, name) && call.syscall == resolve(name)
    requires memory.vmPeakValid && 0 < memory.memoryLimitKb
    requires memory.memoryLimitKb * M.KIB + M.MEMORY_LIMIT_MARGIN < WORD_SIZE
    requires var r := RequestOf(call, name.mremap?);
      (r.Map? ==> r.address == 0) && M.Refused(memory.memoryLimitKb, used, r)
    requires vmPeakKb >= M.UsageKb(used) && c.memoryLimitKb == memory.memoryLimitKb && o.vmPeakKb == vmPeakKb
    modifies memory, memory.out
    ensures killed && (old(memory.out.verdict.reason) == R.NONE ==> memory.out.verdict.reason == R.MLE)
  {
    ghost var table;
    var listener;
    listener, table := PrepareDefault(randomizeTime, threadsLimit, resolve, name);
    killed := EnforceRefused(listener, table, resolve, name, call, memory, used, vmPeakKb, c, s, o);
  }
}
