/** The seccomp listener (src/seccomp/SeccompListener.cc): it groups and sorts the rules of all policies, compiles them,
    and answers the trace events the loaded filter raises. */
module SeccompListener {
  import opened Common
  import opened SyscallFilter
  import opened SeccompRule
  import opened SeccompContext
  import M = MemoryLimit
  import R = ResultRecord
  import S = Supervision

  datatype Policy = Policy(rules: seq<Rule>, defaultAction: SeccompAction)

  /** The groups numbered from 1 in the order they are compiled in, one architecture's filter. */
  function EmittedAll(groups: map<int, seq<Rule>>, order: seq<int>, arch: Arch): seq<KernelRule>
    requires forall i | 0 <= i < |order| :: order[i] in groups
  {
    if order == [] then []
    else
      var n := |order| - 1;
      EmittedAll(groups, order[..n], arch) + EmittedGroup(groups[order[n]], n + 1, arch)
  }

  /** The rules that were added, grouped by syscall. */
  ghost predicate Grouped(groups: map<int, seq<Rule>>, inserted: seq<Rule>) {
    forall k :: (k in groups <==> ForSyscall(inserted, k) != []) && (k in groups ==> groups[k] == ForSyscall(inserted, k))
  }

  ghost predicate Distinct(order: seq<int>) {
    forall i, j | 0 <= i < j < |order| :: order[i] != order[j]
  }

  /** What onPreFork makes of the inserted rules. */
  ghost predicate Compiled(groups: map<int, seq<Rule>>, order: seq<int>, byId: map<int, int>,
                           ctx: map<Arch, seq<KernelRule>>, inserted: seq<Rule>) {
    SortedSoFar(groups, {}, order, inserted) && Numbered(order, byId) && Emits(groups, order, ctx)
  }

  lemma {:induction false} EmittedAllFrame(groups: map<int, seq<Rule>>, others: map<int, seq<Rule>>, order: seq<int>,
                                           arch: Arch)
    requires forall i | 0 <= i < |order| ::
      order[i] in groups && order[i] in others && groups[order[i]] == others[order[i]]
    ensures EmittedAll(groups, order, arch) == EmittedAll(others, order, arch)
  {
    if order != [] {
      var n := |order| - 1;
      EmittedAllFrame(groups, others, order[..n], arch);
      assert groups[order[n]] == others[order[n]];
    }
  }

  lemma {:induction false} Smallest(s: set<int>) returns (k: int)
    requires s != {}
    ensures k in s && forall x | x in s :: k <= x
  {
    k := Member(s);
    var rest := s - {k};
    assert s == rest + {k};
    if rest != {} {
      var m := Smallest(rest);
      k := if k < m then k else m;
    }
  }

  /** The loop of onPreFork halfway: the groups in `order` are sorted, those in `rest` are as they were added. */
  ghost predicate SortedSoFar(groups: map<int, seq<Rule>>, rest: set<int>, order: seq<int>, inserted: seq<Rule>) {
    && Distinct(order)
    && (forall k :: k in groups <==> k in rest || k in order)
    && (forall k | k in order :: k !in rest)
    && (forall k :: k in groups <==> ForSyscall(inserted, k) != [])
    && (forall k | k in rest :: groups[k] == ForSyscall(inserted, k))
    && (forall k | k in order :: groups[k] == StableSort(ForSyscall(inserted, k)))
  }

  ghost predicate Numbered(order: seq<int>, byId: map<int, int>) {
    |order| <= MAX_GROUPS ==>
      && (forall id :: id in byId <==> 1 <= id <= |order|)
      && (forall id | id in byId :: byId[id] == order[id - 1])
  }

  ghost predicate Emits(groups: map<int, seq<Rule>>, order: seq<int>, ctx: map<Arch, seq<KernelRule>>) {
    && (forall arch: Arch :: arch in ctx)
    && (forall i | 0 <= i < |order| :: order[i] in groups)
    && (forall arch | arch in ctx :: ctx[arch] == EmittedAll(groups, order, arch))
  }

  lemma SortStep(groups: map<int, seq<Rule>>, rest: set<int>, order: seq<int>, inserted: seq<Rule>, k: int)
    requires SortedSoFar(groups, rest, order, inserted) && k in rest
    ensures SortedSoFar(groups[k := StableSort(groups[k])], rest - {k}, order + [k], inserted)
    ensures forall r | r in StableSort(groups[k]) :: r in inserted
  {
    assert k !in order;
    forall x ensures x in order + [k] <==> x in order || x == k {}
    forall r | r in StableSort(groups[k]) ensures r in inserted {
      SortKeepsMembers(groups[k], r);
      ForSyscallIn(inserted, k, r);
    }
  }

  lemma NumberStep(order: seq<int>, byId: map<int, int>, k: int)
    requires Numbered(order, byId)
    ensures Numbered(order + [k], byId[(|order| + 1) % MESSAGES := k])
  {
    if |order| < MAX_GROUPS {
      assert (|order| + 1) % MESSAGES == |order| + 1;
    }
  }

  lemma EmitStep(groups: map<int, seq<Rule>>, order: seq<int>, ctx: map<Arch, seq<KernelRule>>, k: int,
                 sorted: seq<Rule>, ctx': map<Arch, seq<KernelRule>>)
    requires Emits(groups, order, ctx) && k !in order && k in groups
    requires forall arch: Arch :: arch in ctx'
    requires forall arch | arch in ctx :: ctx'[arch] == ctx[arch] + EmittedGroup(sorted, |order| + 1, arch)
    ensures Emits(groups[k := sorted], order + [k], ctx')
  {
    var groups' := groups[k := sorted];
    var order' := order + [k];
    assert order'[..|order|] == order;
    assert forall i | 0 <= i < |order| :: order[i] in order;
    forall arch | arch in ctx'
      ensures ctx'[arch] == EmittedAll(groups', order', arch)
    {
      EmittedAllFrame(groups, groups', order, arch);
    }
  }

  /** The record after an answer: what the handler wrote, then RV if it answered KILL. */
  function AfterHandler(v: R.Verdict, answer: TraceAction, own: R.KillReason): R.Verdict {
    if answer == Kill then v.WithReason(own).WithReason(R.RV) else v.WithReason(own)
  }

  /** An answer as the supervisor's machine knows it. */
  function AsTraceAnswer(answer: Option<TraceAction>, own: R.KillReason): S.TraceAnswer {
    match answer
    case None => S.Fail
    case Some(Continue) => S.GoOn
    case Some(Kill) => S.KillFor(if own == R.NONE then R.RV else own)
  }

  /** A reason the handler recorded stays though RV is offered after it: on the record, an answer is what the machine takes
      it for. */
  lemma HandlersReasonStays(v: R.Verdict, kind: ActionType, handler: Handler, executed: bool, call: Call, view: M.View)
    ensures var answer, own := Answer(kind, handler, executed, call, view), OwnReason(kind, handler, call, view);
      AfterHandler(v, answer, own) ==
      match AsTraceAnswer(Some(answer), own)
      case KillFor(reason) => v.WithReason(reason)
      case _ => v
  {}

  class SeccompListener {
    const basePolicy: Policy
    var context: Option<map<Arch, seq<KernelRule>>>
    var rules: map<int, seq<Rule>>
    var rulesById: map<int, int>
    var lastSyscallArch: Arch
    ghost var inserted: seq<Rule>
    ghost var order: seq<int>
    ghost var actions: set<SeccompAction>

    ghost predicate Valid()
      reads this
    {
      && (forall r | r in inserted + basePolicy.rules :: r.action in actions)
      && basePolicy.defaultAction in actions
      && match context
      case None => Grouped(rules, inserted) && rulesById == map[]
      case Some(ctx) => Compiled(rules, order, rulesById, ctx, inserted)
    }

    constructor (basePolicy: Policy)
      ensures Valid() && context == None && inserted == [] && this.basePolicy == basePolicy
      ensures actions == {basePolicy.defaultAction} + set r | r in basePolicy.rules :: r.action
    {
      this.basePolicy := basePolicy;
      context, rules, rulesById, lastSyscallArch := None, map[], map[], X86;
      inserted, order := [], [];
      actions := {basePolicy.defaultAction} + set r | r in basePolicy.rules :: r.action;
    }

    /** Refused once the filter is compiled. */
    method AddRule(rule: Rule) returns (added: bool)
      requires Valid()
      modifies this
      ensures Valid() && context == old(context) && lastSyscallArch == old(lastSyscallArch)
      ensures added <==> old(context) == None
      ensures inserted == if added then old(inserted) + [rule] else old(inserted)
      ensures !added ==> rules == old(rules) && rulesById == old(rulesById)
      ensures actions == if added then old(actions) + {rule.action} else old(actions)
    {
      if context != None {
        return false;
      }
      var group := if rule.syscall in rules then rules[rule.syscall] else [];
      rules := rules[rule.syscall := group + [rule]];
      inserted := inserted + [rule];
      actions := actions + {rule.action};
      forall k
        ensures ForSyscall(inserted, k) == ForSyscall(old(inserted), k) + if k == rule.syscall then [rule] else []
      {
        ForSyscallConcat(old(inserted), [rule], k);
      }
      return true;
    }

    method AddPolicy(policy: seq<Rule>)
      requires Valid() && context == None
      modifies this
      ensures Valid() && context == None && lastSyscallArch == old(lastSyscallArch)
      ensures inserted == old(inserted) + policy
      ensures actions == old(actions) + set r | r in policy :: r.action
    {
      for i := 0 to |policy|
        invariant Valid() && context == None && lastSyscallArch == old(lastSyscallArch)
        invariant inserted == old(inserted) + policy[..i]
        invariant actions == old(actions) + set r | r in policy[..i] :: r.action
      {
        var _ := AddRule(policy[i]);
        assert policy[..i + 1] == policy[..i] + [policy[i]];
      }
      assert policy[..|policy|] == policy;
    }

    /** Emits a sorted group from its end to its beginning. */
    static method EmitGroup(builder: Builder, sorted: seq<Rule>, group: nat, ghost actions: set<SeccompAction>)
      requires builder.Valid()
      requires forall r | r in sorted :: r.action in actions
      modifies builder, actions`ruleId
      ensures builder.Valid()
      ensures forall arch | arch in builder.ctx ::
        builder.ctx[arch] == old(builder.ctx)[arch] + EmittedGroup(sorted, group, arch)
    {
      var j := |sorted|;
      while j > 0
        invariant 0 <= j <= |sorted|
        invariant builder.Valid()
        invariant forall arch | arch in builder.ctx ::
          builder.ctx[arch] == old(builder.ctx)[arch] + EmittedGroup(sorted[j..], group, arch)
      {
        j := j - 1;
        assert sorted[j] in sorted;
        builder.AddRule(sorted[j], group);
        assert sorted[j..][1..] == sorted[j + 1..];
      }
      assert sorted[0..] == sorted;
    }

    /** Adds the base policy, sorts every group, numbers the groups and compiles them, the group of the smallest syscall
        number first. */
    method OnPreFork()
      requires Valid() && context == None
      modifies this
      modifies actions`ruleId
      ensures Valid() && context.Some? && lastSyscallArch == old(lastSyscallArch)
      ensures inserted == old(inserted) + basePolicy.rules && actions == old(actions)
    {
      AddPolicy(basePolicy.rules);
      assert actions == old(actions);
      var builder;
      rules, rulesById, builder, order := CompileGroups(rules, inserted, actions);
      context := Some(builder.ctx);
    }

    /** The groups sorted, numbered and emitted. */
    static method CompileGroups(added: map<int, seq<Rule>>, ghost inserted: seq<Rule>, ghost actions: set<SeccompAction>)
      returns (groups: map<int, seq<Rule>>, byId: map<int, int>, builder: Builder, ghost order: seq<int>)
      requires Grouped(added, inserted)
      requires forall r | r in inserted :: r.action in actions
      modifies actions`ruleId
      ensures Compiled(groups, order, byId, builder.ctx, inserted)
    {
      groups, byId, order := added, map[], [];
      var ruleId := 0;
      builder := new Builder();
      var rest := added.Keys;
      while rest != {}
        invariant ruleId == |order| && fresh(builder)
        invariant SortedSoFar(groups, rest, order, inserted)
        invariant Numbered(order, byId)
        invariant Emits(groups, order, builder.ctx)
        decreases rest
      {
        ghost var smallest := Smallest(rest);
        var k :| k in rest && forall x | x in rest :: k <= x;
        SortStep(groups, rest, order, inserted, k);
        NumberStep(order, byId, k);
        ruleId := ruleId + 1;
        byId := byId[ruleId % MESSAGES := k];
        var group := StableSort(groups[k]);
        CompileGroup(builder, groups, order, k, group, ruleId, actions);
        groups := groups[k := group];
        order := order + [k];
        rest := rest - {k};
      }
    }

    /** Emits the next sorted group. */
    static method CompileGroup(builder: Builder, ghost groups: map<int, seq<Rule>>, ghost order: seq<int>, syscall: int,
                               sorted: seq<Rule>, ruleId: nat, ghost actions: set<SeccompAction>)
      requires forall r | r in sorted :: r.action in actions
      requires Emits(groups, order, builder.ctx)
      requires syscall in groups && syscall !in order && ruleId == |order| + 1
      modifies builder, actions`ruleId
      ensures builder.Valid() && Emits(groups[syscall := sorted], order + [syscall], builder.ctx)
    {
      EmitGroup(builder, sorted, ruleId, actions);
      EmitStep(groups, order, old(builder.ctx), syscall, sorted, builder.ctx);
    }

    /** The tracer's running maximum over a group. */
    static method HighestMatching(group: seq<Rule>, call: Call, start: SeccompAction?) returns (chosen: SeccompAction?)
      ensures start == null ==> chosen == ActionOf(Choose(group, call))
    {
      chosen := start;
      for i := 0 to |group|
        invariant start == null ==> chosen == ActionOf(Choose(group[..i], call))
      {
        var rule := group[i];
        ChooseStep(group[..i], rule, call);
        assert group[..i + 1] == group[..i] + [rule];
        if rule.filter.Match(call) {
          if chosen == null || rule.action.kind.Rank() > chosen.kind.Rank() {
            chosen := rule.action;
          }
        }
      }
      assert group[..|group|] == group;
    }

    /** Answers a trace event of a tracee that was stopped in `syscall` with `used` pages of address space: `answer` is the
        trace action, None the failed assertion that some rule handles the event; `cancelled` is the errno the syscall is
        made to fail with. The memory limit's handler and this listener write to one record, the handler first. */
    method OnTraceEvent(alive: bool, seccompTrap: bool, msg: nat, syscall: int, regs: Registers,
                        memory: M.MemoryLimitListener, used: nat, out: R.OIModelOutputBuilder)
      returns (answer: Option<TraceAction>, chosen: SeccompAction?, cancelled: Option<nat>)
      requires Valid() && context.Some? && |order| <= MAX_GROUPS
      requires msg == 0 || MessageArch(msg) in {1, 2}
      requires memory.out == out
      modifies this`lastSyscallArch, out, memory
      modifies actions`executed
      ensures Valid() && memory.vmPeakValid == old(memory.vmPeakValid)
      ensures !alive || !seccompTrap ==>
        answer == Some(Continue) && chosen == null && lastSyscallArch == old(lastSyscallArch)
      ensures alive && seccompTrap ==>
        && (msg != 0 ==> ArchCode(lastSyscallArch) == MessageArch(msg))
        && (msg == 0 ==> lastSyscallArch == old(lastSyscallArch))
        && chosen == ChosenAction(rules, rulesById, basePolicy.defaultAction, msg, Call(syscall, lastSyscallArch, regs))
        && (answer == None <==> chosen == null)
      ensures chosen != null ==> chosen in actions
      ensures chosen != null ==> var call := Call(syscall, lastSyscallArch, regs);
        && answer == Some(Answer(chosen.kind, chosen.handler, old(chosen.executed), call, old(memory.Sees(used))))
        && out.verdict == AfterHandler(old(out.verdict), answer.value,
                                       OwnReason(chosen.kind, chosen.handler, call, old(memory.Sees(used))))
      ensures forall a: SeccompAction | a in actions ::
        a.executed == (old(a.executed) || (a == chosen && a.kind.TRACE? && a.handler.OnlyOnce?))
      ensures chosen == null ==> out.verdict == old(out.verdict)
      ensures memory.memoryPeakKb ==
        Max(old(memory.memoryPeakKb), if chosen == null then 0 else
          OwnReached(chosen.kind, chosen.handler, Call(syscall, lastSyscallArch, regs), old(memory.Sees(used))))
      ensures cancelled == if chosen != null && chosen.kind.ERRNO? then Some(chosen.errno) else None
    {
      if !alive {
        return Some(Continue), null, None;
      }
      if !seccompTrap {
        return Some(Continue), null, None;
      }
      if msg != 0 {
        lastSyscallArch := if MessageArch(msg) == 1 then X86 else X86_64;
      }
      var call := Call(syscall, lastSyscallArch, regs);
      chosen := null;
      if msg == 0 {
        chosen := basePolicy.defaultAction;
      }
      if MessageGroup(msg) in rulesById {
        chosen := HighestMatching(rules[rulesById[MessageGroup(msg)]], call, chosen);
        ChosenIsInserted(call, msg);
      }
      if chosen == null {
        return None, null, None;
      }
      var trace;
      trace, cancelled := chosen.Execute(call, memory, used);
      if trace == Kill {
        out.SetKillReason(R.RV);
      }
      return Some(trace), chosen, cancelled;
    }

    lemma ChosenIsInserted(call: Call, msg: nat)
      requires Valid() && context.Some? && |order| <= MAX_GROUPS && MessageGroup(msg) in rulesById
      ensures var group := rules[rulesById[MessageGroup(msg)]];
        Choose(group, call).Some? ==> Choose(group, call).value in inserted
    {
      var k := rulesById[MessageGroup(msg)];
      ChooseIsBest(rules[k], call);
      if Choose(rules[k], call).Some? {
        SortKeepsMembers(ForSyscall(inserted, k), Choose(rules[k], call).value);
        ForSyscallIn(inserted, k, Choose(rules[k], call).value);
      }
    }
  }

  function ActionOf(rule: Option<Rule>): SeccompAction? {
    match rule
    case None => null
    case Some(r) => r.action
  }

  /** The action the tracer settles on for a message: the default for message 0, else the choice of the group it names. */
  function ChosenAction(groups: map<int, seq<Rule>>, byId: map<int, int>, default: SeccompAction, msg: nat, call: Call)
    : SeccompAction?
  {
    if msg == 0 then default
    else if MessageGroup(msg) in byId && byId[MessageGroup(msg)] in groups then
      ActionOf(Choose(groups[byId[MessageGroup(msg)]], call))
    else null
  }
}
