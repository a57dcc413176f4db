/** The kernel's filter and the tracer's second look together mean what the rules say. */
module StagedEnforcement {
  import opened Common
  import opened SyscallFilter
  import opened SeccompRule
  import opened SeccompContext
  import opened SeccompListener
  import M = MemoryLimit
  import R = ResultRecord

  /** What becomes of a system call. `Unhandled` is the failed assertion that some rule handles a traced call. */
  datatype Decision = Permit | FailWith(errno: nat) | RunHandler(action: SeccompAction) | KillTracee | Unhandled

  function Effect(action: SeccompAction): Decision {
    match action.kind
    case ALLOW => Permit
    case ERRNO => FailWith(action.errno)
    case TRACE => RunHandler(action)
    case KILL => KillTracee
  }

  /** The reference: among the inserted rules of the syscall the chosen one decides, the default if none matches. */
  function Reference(inserted: seq<Rule>, default: SeccompAction, call: Call): Decision {
    match Choose(ForSyscall(inserted, call.syscall), call)
    case None => Effect(default)
    case Some(r) => Effect(r.action)
  }

  function EffectOf(action: SeccompAction?): Decision {
    if action == null then Unhandled else Effect(action)
  }

  /** A decision up to the 16 bits of an errno number the kernel's filter can hold. */
  function Narrow(d: Decision): Decision {
    if d.FailWith? then FailWith(d.errno % MESSAGES) else d
  }

  /** First the kernel decides; when its answer is to trace, the tracer does, knowing of the call's architecture only what
      the message says, or what it remembers when the message is the default one. */
  function Staged(groups: map<int, seq<Rule>>, byId: map<int, int>, ctx: map<Arch, seq<KernelRule>>,
                  default: SeccompAction, remembered: Arch, call: Call): Decision
    requires forall arch: Arch :: arch in ctx
  {
    match KernelDecide(ctx[call.arch], call)
    case KernelAllow => Permit
    case KernelErrno(errno) => FailWith(errno)
    case KernelTrace(msg) =>
      var arch := if msg == 0 then remembered else if MessageArch(msg) == 1 then X86 else X86_64;
      EffectOf(ChosenAction(groups, byId, default, msg, call.(arch := arch)))
  }

  /** A filter whose kernel form is good enough for `call`: the same as `match` if it claims to be pure, and no narrower
      if it does not. */
  predicate Sound(f: Filter, call: Call) {
    if f.pure then f.KernelMatch(call) <==> f.Match(call) else f.Match(call) ==> f.KernelMatch(call)
  }

  /** Every filter the policies can build is sound on calls whose architecture it fits. */
  lemma BuiltFiltersAreSound(e: Expr, call: Call)
    requires Fits(call.arch, e)
    ensures Build(e).pure && Sound(Build(e), call)
  {
    BuiltForms(e, call);
    TwoFormsAgree(e, call);
  }

  ghost predicate OwnRules(groups: map<int, seq<Rule>>, order: seq<int>) {
    forall i | 0 <= i < |order| :: order[i] in groups && forall r | r in groups[order[i]] :: r.syscall == order[i]
  }

  lemma {:induction false} NotEmitted(groups: map<int, seq<Rule>>, order: seq<int>, arch: Arch, syscall: int)
    requires OwnRules(groups, order) && syscall !in order
    ensures NoRuleFor(EmittedAll(groups, order, arch), syscall)
  {
    if order != [] {
      var n := |order| - 1;
      NotEmitted(groups, order[..n], arch, syscall);
      EmittedGroupSyscall(groups[order[n]], n + 1, arch, syscall);
    }
  }

  /** The loaded filter decides a call by the group of its syscall. */
  lemma {:induction false} KernelUsesGroup(groups: map<int, seq<Rule>>, order: seq<int>, i: nat, call: Call)
    requires Distinct(order) && OwnRules(groups, order)
    requires i < |order| && order[i] == call.syscall
    ensures KernelDecide(EmittedAll(groups, order, call.arch), call) ==
      KernelDecide(EmittedGroup(groups[call.syscall], i + 1, call.arch), call)
  {
    var n := |order| - 1;
    var before := EmittedAll(groups, order[..n], call.arch);
    var last := EmittedGroup(groups[order[n]], n + 1, call.arch);
    assert EmittedAll(groups, order, call.arch) == before + last;
    if i == n {
      NotEmitted(groups, order[..n], call.arch, call.syscall);
      OtherRulesBefore(before, last, call);
    } else {
      KernelUsesGroup(groups, order[..n], i, call);
      EmittedGroupSyscall(groups[order[n]], n + 1, call.arch, call.syscall);
      OtherRulesAfter(before, last, call);
    }
  }

  lemma {:induction false} NoKernelMatch(rules: seq<Rule>, call: Call)
    ensures FirstKernelMatch(rules, call).None? <==> forall r | r in rules :: !r.filter.KernelMatch(call)
  {
    if rules != [] {
      NoKernelMatch(rules[1..], call);
    }
  }

  /** When the rule the kernel settles on is pure it is the one the tracer would settle on. */
  lemma {:induction false} KernelMatchIsFirst(rules: seq<Rule>, call: Call)
    requires forall r | r in rules :: Sound(r.filter, call)
    ensures FirstKernelMatch(rules, call).Some? && FirstKernelMatch(rules, call).value.filter.pure ==>
      FirstMatch(rules, call) == FirstKernelMatch(rules, call)
    ensures FirstKernelMatch(rules, call).None? ==> FirstMatch(rules, call).None?
    ensures FirstKernelMatch(rules, call).Some? ==> FirstKernelMatch(rules, call).value in rules
  {
    if rules != [] {
      KernelMatchIsFirst(rules[1..], call);
    }
  }

  lemma GroupFacts(inserted: seq<Rule>, groups: map<int, seq<Rule>>, k: int)
    requires k in groups && groups[k] == StableSort(ForSyscall(inserted, k))
    ensures forall r :: r in groups[k] <==> r in inserted && r.syscall == k
  {
    forall r ensures r in groups[k] <==> r in inserted && r.syscall == k {
      SortKeepsMembers(ForSyscall(inserted, k), r);
      ForSyscallIn(inserted, k, r);
    }
  }

  /** The kernel's answer, in terms of the sorted group of the syscall. */
  lemma KernelAnswer(inserted: seq<Rule>, groups: map<int, seq<Rule>>, order: seq<int>, byId: map<int, int>,
                     ctx: map<Arch, seq<KernelRule>>, call: Call) returns (id: nat)
    requires Compiled(groups, order, byId, ctx, inserted) && |order| <= MAX_GROUPS
    ensures call.syscall !in groups ==>
      ForSyscall(inserted, call.syscall) == [] && KernelDecide(ctx[call.arch], call) == DEFAULT
    ensures call.syscall in groups ==>
      && 1 <= id <= MAX_GROUPS && id in byId && byId[id] == call.syscall
      && KernelDecide(ctx[call.arch], call) ==
         match FirstKernelMatch(groups[call.syscall], call)
         case None => DEFAULT
         case Some(r) => Emitted(r, id, call.arch).action
  {
    forall i | 0 <= i < |order|
      ensures order[i] in groups && forall r | r in groups[order[i]] :: r.syscall == order[i]
    {
      GroupFacts(inserted, groups, order[i]);
    }
    var all := EmittedAll(groups, order, call.arch);
    assert ctx[call.arch] == all;
    id := 0;
    if call.syscall in groups {
      assert call.syscall in order;
      var i :| 0 <= i < |order| && order[i] == call.syscall;
      id := i + 1;
      KernelUsesGroup(groups, order, i, call);
      KernelChecksForwards(groups[call.syscall], id, call);
    } else {
      NotEmitted(groups, order, call.arch, call.syscall);
      OtherRulesAfter([], all, call);
      assert [] + all == all;
    }
  }

  /** Told the message of the call's group, the tracer settles on that group's choice, for the call as it was made. */
  lemma TracerSees(groups: map<int, seq<Rule>>, byId: map<int, int>, ctx: map<Arch, seq<KernelRule>>,
                   default: SeccompAction, remembered: Arch, call: Call, id: nat)
    requires forall arch: Arch :: arch in ctx
    requires 1 <= id <= MAX_GROUPS && id in byId && byId[id] == call.syscall && call.syscall in groups
    requires KernelDecide(ctx[call.arch], call) == KernelTrace(TraceMessage(RuleId(id, call.arch)))
    ensures Staged(groups, byId, ctx, default, remembered, call) ==
      EffectOf(ActionOf(Choose(groups[call.syscall], call)))
  {
    MessageIsFaithfulIff(id, call.arch);
    DefaultMessageIsNoGroup(id, call.arch);
    assert call.(arch := call.arch) == call;
  }

  /** The kernel form of some rule matches although no rule does. Only filters that are not pure can bring this about. */
  ghost predicate Unattended(inserted: seq<Rule>, call: Call) {
    && (exists r :: r in inserted && r.syscall == call.syscall && r.filter.KernelMatch(call))
    && (forall r | r in inserted && r.syscall == call.syscall :: !r.filter.Match(call))
  }

  /** What the sorted group of a call's syscall says of the rules that were inserted. */
  lemma GroupMeaning(inserted: seq<Rule>, groups: map<int, seq<Rule>>, call: Call)
    requires call.syscall in groups && groups[call.syscall] == StableSort(ForSyscall(inserted, call.syscall))
    requires forall r | r in inserted :: Sound(r.filter, call)
    ensures GroupFollows(inserted, groups[call.syscall], call)
  {
    var added := ForSyscall(inserted, call.syscall);
    var group := groups[call.syscall];
    GroupFacts(inserted, groups, call.syscall);
    KernelMatchIsFirst(group, call);
    NoKernelMatch(group, call);
    FirstMatchOfSorted(added, call);
    ChooseOfSorted(added, call);
    ChooseIsBest(group, call);
  }

  ghost function Meant(inserted: seq<Rule>, default: SeccompAction, call: Call): Decision {
    if Unattended(inserted, call) then Unhandled else Reference(inserted, default, call)
  }

  ghost predicate ErrnosFit(inserted: seq<Rule>) {
    forall r | r in inserted :: r.action.errno < MESSAGES
  }

  ghost predicate GroupFollows(inserted: seq<Rule>, group: seq<Rule>, call: Call) {
    var first := FirstKernelMatch(group, call);
    var chosen := Choose(ForSyscall(inserted, call.syscall), call);
    && Choose(group, call) == chosen
    && (first.None? ==> chosen.None?)
    && (first.Some? ==> first.value in inserted)
    && (first.Some? && first.value.filter.pure ==> chosen == first)
    && (Unattended(inserted, call) <==> first.Some? && chosen.None?)
  }

  /** Once the kernel's form of some rule has matched, the choice of the group is what is meant. */
  lemma ChosenIsMeant(inserted: seq<Rule>, default: SeccompAction, call: Call, chosen: Option<Rule>)
    requires chosen == Choose(ForSyscall(inserted, call.syscall), call)
    requires Unattended(inserted, call) <==> chosen.None?
    ensures Meant(inserted, default, call) == EffectOf(ActionOf(chosen))
  {}

  lemma UnmatchedIsDefault(inserted: seq<Rule>, default: SeccompAction, call: Call)
    requires Choose(ForSyscall(inserted, call.syscall), call) == None && !Unattended(inserted, call)
    ensures Meant(inserted, default, call) == Effect(default)
  {}

  lemma TracedByKernel(r: Rule, id: nat, arch: Arch)
    requires !r.filter.pure || r.action.kind.TRACE? || r.action.kind.KILL?
    ensures Emitted(r, id, arch).action == KernelTrace(TraceMessage(RuleId(id, arch)))
  {}

  /** Two decisions are the same, up to the width of errno numbers that do not fit. */
  ghost predicate Agree(staged: Decision, meant: Decision, fit: bool) {
    Narrow(staged) == Narrow(meant) && (fit ==> staged == meant)
  }

  lemma SettledAgrees(groups: map<int, seq<Rule>>, byId: map<int, int>, ctx: map<Arch, seq<KernelRule>>,
                      default: SeccompAction, remembered: Arch, call: Call, r: Rule, id: nat)
    requires forall arch: Arch :: arch in ctx
    requires r.filter.pure && (r.action.kind.ALLOW? || r.action.kind.ERRNO?)
    requires KernelDecide(ctx[call.arch], call) == Emitted(r, id, call.arch).action
    ensures Agree(Staged(groups, byId, ctx, default, remembered, call), Effect(r.action), r.action.errno < MESSAGES)
  {}

  lemma StagedGroup(inserted: seq<Rule>, groups: map<int, seq<Rule>>, byId: map<int, int>,
                    ctx: map<Arch, seq<KernelRule>>, default: SeccompAction, remembered: Arch, call: Call, id: nat)
    requires forall arch: Arch :: arch in ctx
    requires call.syscall in groups && GroupFollows(inserted, groups[call.syscall], call)
    requires 1 <= id <= MAX_GROUPS && id in byId && byId[id] == call.syscall
    requires KernelDecide(ctx[call.arch], call) ==
         match FirstKernelMatch(groups[call.syscall], call)
         case None => DEFAULT
         case Some(r) => Emitted(r, id, call.arch).action
    ensures Agree(Staged(groups, byId, ctx, default, remembered, call), Meant(inserted, default, call),
                  ErrnosFit(inserted))
  {
    match FirstKernelMatch(groups[call.syscall], call)
    case None => {
      DefaultIgnoresMemory(groups, byId, ctx, default, remembered, call);
      UnmatchedIsDefault(inserted, default, call);
    }
    case Some(r) => StagedMatch(inserted, groups, byId, ctx, default, remembered, call, id, r);
  }

  lemma StagedMatch(inserted: seq<Rule>, groups: map<int, seq<Rule>>, byId: map<int, int>,
                    ctx: map<Arch, seq<KernelRule>>, default: SeccompAction, remembered: Arch, call: Call, id: nat,
                    r: Rule)
    requires forall arch: Arch :: arch in ctx
    requires call.syscall in groups && GroupFollows(inserted, groups[call.syscall], call)
    requires FirstKernelMatch(groups[call.syscall], call) == Some(r)
    requires 1 <= id <= MAX_GROUPS && id in byId && byId[id] == call.syscall
    requires KernelDecide(ctx[call.arch], call) == Emitted(r, id, call.arch).action
    ensures Agree(Staged(groups, byId, ctx, default, remembered, call), Meant(inserted, default, call),
                  ErrnosFit(inserted))
  {
    var chosen := Choose(groups[call.syscall], call);
    ChosenIsMeant(inserted, default, call, chosen);
    if !r.filter.pure || r.action.kind.TRACE? || r.action.kind.KILL? {
      TracedByKernel(r, id, call.arch);
      TracerSees(groups, byId, ctx, default, remembered, call, id);
    } else {
      SettledAgrees(groups, byId, ctx, default, remembered, call, r, id);
    }
  }

  /** Staged enforcement preserves meaning: for every list of rules, every call and whatever the tracer remembers, the two
      stages decide as the reference does, and the tracer's assertion fails exactly on unattended calls. */
  lemma StagedPreservesMeaning(inserted: seq<Rule>, groups: map<int, seq<Rule>>, order: seq<int>, byId: map<int, int>,
                               ctx: map<Arch, seq<KernelRule>>, default: SeccompAction, remembered: Arch, call: Call)
    requires Compiled(groups, order, byId, ctx, inserted) && |order| <= MAX_GROUPS
    requires forall r | r in inserted :: Sound(r.filter, call)
    ensures Agree(Staged(groups, byId, ctx, default, remembered, call), Meant(inserted, default, call),
                  ErrnosFit(inserted))
  {
    var id := KernelAnswer(inserted, groups, order, byId, ctx, call);
    if call.syscall in groups {
      GroupMeaning(inserted, groups, call);
      StagedGroup(inserted, groups, byId, ctx, default, remembered, call, id);
    } else {
      forall r | r in inserted ensures r.syscall != call.syscall {
        ForSyscallIn(inserted, call.syscall, r);
      }
      assert Choose([], call) == None;
    }
  }

  ghost predicate AttendedAndSound(inserted: seq<Rule>, call: Call) {
    && (forall r | r in inserted :: Sound(r.filter, call))
    && ErrnosFit(inserted)
    && !Unattended(inserted, call)
  }

  /** The filter comes from an expression that fits the architecture. */
  ghost predicate BuiltFor(f: Filter, arch: Arch) {
    exists e :: f == Build(e) && Fits(arch, e)
  }

  ghost predicate AllBuiltFor(inserted: seq<Rule>, arch: Arch) {
    forall r | r in inserted :: BuiltFor(r.filter, arch)
  }

  lemma BuiltRulesAreSound(inserted: seq<Rule>, call: Call)
    requires AllBuiltFor(inserted, call.arch) && ErrnosFit(inserted)
    ensures AttendedAndSound(inserted, call)
  {
    forall r | r in inserted ensures Sound(r.filter, call) && r.filter.pure {
      var e :| r.filter == Build(e) && Fits(call.arch, e);
      BuiltFiltersAreSound(e, call);
    }
  }

  lemma ReferenceIsHandled(inserted: seq<Rule>, default: SeccompAction, call: Call)
    requires AttendedAndSound(inserted, call)
    ensures Meant(inserted, default, call) == Reference(inserted, default, call) != Unhandled
  {}

  lemma AttendedIsExact(inserted: seq<Rule>, groups: map<int, seq<Rule>>, order: seq<int>, byId: map<int, int>,
                        ctx: map<Arch, seq<KernelRule>>, default: SeccompAction, remembered: Arch, call: Call)
    requires Compiled(groups, order, byId, ctx, inserted) && |order| <= MAX_GROUPS
    requires AttendedAndSound(inserted, call)
    ensures Staged(groups, byId, ctx, default, remembered, call) == Reference(inserted, default, call) != Unhandled
  {
    StagedPreservesMeaning(inserted, groups, order, byId, ctx, default, remembered, call);
    ReferenceIsHandled(inserted, default, call);
  }

  /** With the filters the policies can build the assertion never fails. */
  lemma PureRulesAreExact(inserted: seq<Rule>, groups: map<int, seq<Rule>>, order: seq<int>, byId: map<int, int>,
                          ctx: map<Arch, seq<KernelRule>>, default: SeccompAction, remembered: Arch, call: Call)
    requires Compiled(groups, order, byId, ctx, inserted) && |order| <= MAX_GROUPS
    requires AllBuiltFor(inserted, call.arch) && ErrnosFit(inserted)
    ensures Staged(groups, byId, ctx, default, remembered, call) == Reference(inserted, default, call) != Unhandled
  {
    BuiltRulesAreSound(inserted, call);
    AttendedIsExact(inserted, groups, order, byId, ctx, default, remembered, call);
  }

  /** The default decision does not depend on the architecture the tracer remembers from an earlier event. */
  lemma DefaultIgnoresMemory(groups: map<int, seq<Rule>>, byId: map<int, int>, ctx: map<Arch, seq<KernelRule>>,
                             default: SeccompAction, remembered: Arch, call: Call)
    requires (forall arch: Arch :: arch in ctx) && KernelDecide(ctx[call.arch], call) == DEFAULT
    ensures Staged(groups, byId, ctx, default, remembered, call) == Effect(default)
  {}

  ghost predicate Matched(inserted: seq<Rule>, call: Call) {
    Choose(ForSyscall(inserted, call.syscall), call).Some?
  }

  /** A call that some rule matches comes with a message of its own, so the tracer knows its architecture. */
  lemma MatchedIsTagged(inserted: seq<Rule>, groups: map<int, seq<Rule>>, order: seq<int>, byId: map<int, int>,
                        ctx: map<Arch, seq<KernelRule>>, call: Call)
    requires Compiled(groups, order, byId, ctx, inserted) && |order| <= MAX_GROUPS
    requires AttendedAndSound(inserted, call)
    ensures Matched(inserted, call) ==> KernelDecide(ctx[call.arch], call) != DEFAULT
  {
    var id := KernelAnswer(inserted, groups, order, byId, ctx, call);
    if call.syscall in groups {
      GroupMeaning(inserted, groups, call);
      DefaultMessageIsNoGroup(id, call.arch);
    }
  }

  /** The call as the tracer sees it, given the message. */
  function AsSeen(call: Call, msg: nat, remembered: Arch): Call {
    if msg == 0 then call.(arch := remembered) else call
  }

  /** The tracer's part, when the kernel's answer spells out what is meant. */
  method AskTracer(listener: SeccompListener, call: Call, msg: nat, memory: M.MemoryLimitListener, used: nat,
                   ghost meant: Decision)
    returns (chosen: SeccompAction, answer: TraceAction)
    requires listener.Valid() && listener.context.Some? && |listener.order| <= MAX_GROUPS
    requires Spelled(listener.rules, listener.rulesById, listener.basePolicy.defaultAction, listener.lastSyscallArch,
                     call, KernelTrace(msg), meant)
    modifies listener`lastSyscallArch, memory, memory.out, listener.actions`executed
    ensures listener.Valid() && memory.vmPeakValid == old(memory.vmPeakValid)
    ensures Effect(chosen) == meant && chosen in listener.actions
    ensures answer == Answer(chosen.kind, chosen.handler, old(chosen.executed),
                             AsSeen(call, msg, old(listener.lastSyscallArch)), old(memory.Sees(used)))
    ensures memory.out.verdict == AfterHandler(old(memory.out.verdict), answer,
      OwnReason(chosen.kind, chosen.handler, AsSeen(call, msg, old(listener.lastSyscallArch)), old(memory.Sees(used))))
    ensures memory.memoryPeakKb == Max(old(memory.memoryPeakKb),
      OwnReached(chosen.kind, chosen.handler, AsSeen(call, msg, old(listener.lastSyscallArch)), old(memory.Sees(used))))
    ensures forall a | a in listener.actions ::
      a.executed == (old(a.executed) || (a == chosen && a.kind.TRACE? && a.handler.OnlyOnce?))
  {
    var told, action, cancelled := listener.OnTraceEvent(true, true, msg, call.syscall, call.regs, memory, used, memory.out);
    assert listener.lastSyscallArch == if msg == 0 then old(listener.lastSyscallArch) else call.arch;
    chosen, answer := action, told.value;
  }

  /** The answer to a decision, and what is recorded for it. */
  function DecisionAnswer(d: Decision, executed: bool, call: Call, view: M.View): TraceAction {
    match d
    case Permit => Continue
    case FailWith(_) => Continue
    case RunHandler(action) => Answer(TRACE, action.handler, executed, call, view)
    case _ => Kill
  }

  function DecisionReason(d: Decision, call: Call, view: M.View): R.KillReason {
    if d.RunHandler? then OwnReason(TRACE, d.action.handler, call, view) else R.NONE
  }

  function DecisionReached(d: Decision, call: Call, view: M.View): nat {
    if d.RunHandler? then OwnReached(TRACE, d.action.handler, call, view) else 0
  }

  ghost predicate HadRun(d: Decision)
    reads if d.RunHandler? then {d.action} else {}
  {
    d.RunHandler? && d.action.executed
  }

  /** A call under a compiled listener: the loaded filter decides it, and a traced call goes to the listener. `answer` is
      what the tracee is told in the end. `seen` is the call as a handler reads it, the call itself if some rule matches. */
  method Enforce(listener: SeccompListener, call: Call, memory: M.MemoryLimitListener, used: nat)
    returns (decision: Decision, answer: TraceAction, ghost seen: Call)
    requires listener.Valid() && listener.context.Some? && |listener.order| <= MAX_GROUPS
    requires AttendedAndSound(listener.inserted, call)
    modifies listener`lastSyscallArch, memory, memory.out, listener.actions`executed
    ensures listener.Valid() && memory.vmPeakValid == old(memory.vmPeakValid)
    ensures decision == Reference(listener.inserted, listener.basePolicy.defaultAction, call) != Unhandled
    ensures decision.RunHandler? ==> decision.action in listener.actions && decision.action.kind.TRACE?
    ensures seen.syscall == call.syscall && seen.regs == call.regs && (Matched(listener.inserted, call) ==> seen == call)
    ensures answer == DecisionAnswer(decision, old(HadRun(decision)), seen, old(memory.Sees(used)))
    ensures memory.out.verdict ==
      AfterHandler(old(memory.out.verdict), answer, DecisionReason(decision, seen, old(memory.Sees(used))))
    ensures memory.memoryPeakKb == Max(old(memory.memoryPeakKb), DecisionReached(decision, seen, old(memory.Sees(used))))
    ensures forall a | a in listener.actions ::
      a.executed == (old(a.executed) || (decision == RunHandler(a) && a.handler.OnlyOnce?))
  {
    var kernel := KernelDecide(listener.context.value[call.arch], call);
    EnforcedDecision(listener.inserted, listener.rules, listener.order, listener.rulesById, listener.context.value,
                     listener.basePolicy.defaultAction, listener.lastSyscallArch, call);
    seen := call;
    match kernel
    case KernelAllow => return Permit, Continue, seen;
    case KernelErrno(errno) => return FailWith(errno), Continue, seen;
    case KernelTrace(msg) =>
      seen := AsSeen(call, msg, listener.lastSyscallArch);
      var chosen;
      chosen, answer := AskTracer(listener, call, msg, memory, used,
                                  Reference(listener.inserted, listener.basePolicy.defaultAction, call));
      decision := Effect(chosen);
  }

  /** The decision, spelled out for the kernel's answer. */
  ghost predicate Spelled(groups: map<int, seq<Rule>>, byId: map<int, int>, default: SeccompAction, remembered: Arch,
                          call: Call, kernel: KernelAction, decision: Decision) {
    match kernel
    case KernelAllow => decision == Permit
    case KernelErrno(errno) => decision == FailWith(errno)
    case KernelTrace(msg) =>
      && (msg == 0 || MessageArch(msg) == ArchCode(call.arch))
      && var arch := if msg == 0 then remembered else call.arch;
      var action := ChosenAction(groups, byId, default, msg, Call(call.syscall, arch, call.regs));
      action != null && Effect(action) == decision
  }

  lemma StagedIsSpelled(groups: map<int, seq<Rule>>, byId: map<int, int>, ctx: map<Arch, seq<KernelRule>>,
                        default: SeccompAction, remembered: Arch, call: Call, decision: Decision)
    requires forall arch: Arch :: arch in ctx
    requires decision == Staged(groups, byId, ctx, default, remembered, call) != Unhandled
    requires KernelDecide(ctx[call.arch], call).KernelTrace? ==>
      var msg := KernelDecide(ctx[call.arch], call).msg;
      msg == 0 || MessageArch(msg) == ArchCode(call.arch)
    ensures Spelled(groups, byId, default, remembered, call, KernelDecide(ctx[call.arch], call), decision)
  {}

  lemma EnforcedDecision(inserted: seq<Rule>, groups: map<int, seq<Rule>>, order: seq<int>, byId: map<int, int>,
                         ctx: map<Arch, seq<KernelRule>>, default: SeccompAction, remembered: Arch, call: Call)
    requires Compiled(groups, order, byId, ctx, inserted) && |order| <= MAX_GROUPS
    requires AttendedAndSound(inserted, call)
    ensures Spelled(groups, byId, default, remembered, call, KernelDecide(ctx[call.arch], call),
                    Reference(inserted, default, call))
    ensures Matched(inserted, call) ==> KernelDecide(ctx[call.arch], call) != DEFAULT
  {
    MatchedIsTagged(inserted, groups, order, byId, ctx, call);
    AttendedIsExact(inserted, groups, order, byId, ctx, default, remembered, call);
    KernelMessages(inserted, groups, order, byId, ctx, call);
    StagedIsSpelled(groups, byId, ctx, default, remembered, call, Reference(inserted, default, call));
  }

  /** The kernel only sends messages it was given. */
  lemma KernelMessages(inserted: seq<Rule>, groups: map<int, seq<Rule>>, order: seq<int>, byId: map<int, int>,
                       ctx: map<Arch, seq<KernelRule>>, call: Call)
    requires Compiled(groups, order, byId, ctx, inserted) && |order| <= MAX_GROUPS
    ensures KernelDecide(ctx[call.arch], call).KernelTrace? ==>
      var msg := KernelDecide(ctx[call.arch], call).msg;
      msg == 0 || MessageArch(msg) == ArchCode(call.arch)
  {
    var id := KernelAnswer(inserted, groups, order, byId, ctx, call);
    MessageIsFaithfulIff(id, call.arch);
  }
}
