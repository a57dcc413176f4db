/** Compiling rules into the kernel's filter (src/seccomp/SeccompContext.cc), and how the loaded filter decides. */
module SeccompContext {
  import opened Common
  import opened SyscallFilter
  import opened SeccompRule

  // ------------------------------------------------------------------ trace messages

  /** The numeric value of tracer::Arch. */
  function ArchCode(arch: Arch): nat {
    if arch.X86? then 1 else 2
  }

  /** 1 << SECCOMP_TRACE_MSG_NUM_SHIFT. */
  const MSG_NUM_UNIT := 8

  const MESSAGES := 0x1_0000

  /** The rule id given to an action: the group number shifted past the architecture. */
  function RuleId(group: nat, arch: Arch): nat {
    group * MSG_NUM_UNIT + ArchCode(arch)
  }

  /** SCMP_ACT_TRACE keeps 16 bits of its argument. */
  function TraceMessage(ruleId: nat): nat {
    ruleId % MESSAGES
  }

  function MessageGroup(msg: nat): nat {
    msg / MSG_NUM_UNIT
  }

  function MessageArch(msg: nat): nat {
    msg % MSG_NUM_UNIT
  }

  const MAX_GROUPS := 8191

  /** The source builds the rule id with a shift and an or; the architecture fits below the shift. */
  lemma ShiftAndOrAdd(group: bv32, arch: bv32)
    requires arch < 8 && group < 0x1000_0000
    ensures (group << 3) | arch == group * 8 + arch
    ensures ((group << 3) | arch) >> 3 == group && ((group << 3) | arch) & 7 == arch
  {}

  /** A message names the group and the architecture it was built from exactly for the first 8191 groups. */
  lemma MessageIsFaithfulIff(group: nat, arch: Arch)
    ensures MessageGroup(TraceMessage(RuleId(group, arch))) == group <==> group <= MAX_GROUPS
    ensures MessageArch(TraceMessage(RuleId(group, arch))) == ArchCode(arch)
  {
    assert RuleId(group, arch) / MSG_NUM_UNIT == group;
    if group > MAX_GROUPS {
      assert MessageGroup(TraceMessage(RuleId(group, arch))) <= MAX_GROUPS;
    }
  }

  /** Message 0, the one the default action sends, belongs to no group and no architecture. */
  lemma DefaultMessageIsNoGroup(group: nat, arch: Arch)
    ensures TraceMessage(RuleId(group, arch)) != 0
    ensures group >= 1 ==> MessageGroup(0) != group
  {
    MessageIsFaithfulIff(group, arch);
  }

  // ------------------------------------------------------------------ the kernel's filter

  datatype KernelAction = KernelAllow | KernelErrno(errno: nat) | KernelTrace(msg: nat)

  datatype KernelRule = KernelRule(syscall: int, action: KernelAction, cmps: seq<ArgCmp>) {
    predicate Matches(call: Call) {
      call.syscall == syscall && AllCmps(cmps, call)
    }
  }

  const DEFAULT := KernelTrace(0)

  /** libseccomp puts later rules first in the program, and the first one that matches decides. */
  function KernelDecide(rules: seq<KernelRule>, call: Call): KernelAction {
    if rules == [] then DEFAULT
    else if rules[|rules| - 1].Matches(call) then rules[|rules| - 1].action
    else KernelDecide(rules[..|rules| - 1], call)
  }

  /** What a rule is emitted as. */
  function LibSeccompAction(action: ActionType, errno: nat, ruleId: nat): KernelAction {
    match action
    case ALLOW => KernelAllow
    case ERRNO => KernelErrno(errno % MESSAGES)
    case TRACE => KernelTrace(TraceMessage(ruleId))
    case KILL => KernelTrace(TraceMessage(ruleId))
  }

  function Emitted(rule: Rule, group: nat, arch: Arch): KernelRule {
    var id := RuleId(group, arch);
    KernelRule(
      rule.syscall,
      if rule.filter.pure then LibSeccompAction(rule.action.kind, rule.action.errno, id)
      else KernelTrace(TraceMessage(id)),
      rule.filter.EmittedCmps())
  }

  /** A sorted group, emitted from its end to its beginning. */
  function EmittedGroup(sorted: seq<Rule>, group: nat, arch: Arch): seq<KernelRule> {
    if sorted == [] then [] else EmittedGroup(sorted[1..], group, arch) + [Emitted(sorted[0], group, arch)]
  }

  const ARCHITECTURES: seq<Arch> := [X86, X86_64]

  /** SeccompContext::Builder. The two contexts stay apart when they are merged, so the map is also the merged filter. */
  class Builder {
    var ctx: map<Arch, seq<KernelRule>>

    constructor ()
      ensures Valid() && forall arch :: arch in ctx ==> ctx[arch] == []
    {
      ctx := map[X86 := [], X86_64 := []];
      new;
      forall arch: Arch ensures arch in ctx {
        match arch
        case X86 =>
        case X86_64 =>
      }
    }

    ghost predicate Valid()
      reads this
    {
      forall arch :: arch in ctx
    }

    method AddRule(rule: Rule, group: nat)
      requires Valid()
      modifies this, rule.action`ruleId
      ensures Valid()
      ensures forall arch :: arch in ctx ==> ctx[arch] == old(ctx)[arch] + [Emitted(rule, group, arch)]
    {
      for i := 0 to |ARCHITECTURES|
        invariant Valid()
        invariant forall j | 0 <= j < i ::
          ctx[ARCHITECTURES[j]] == old(ctx)[ARCHITECTURES[j]] + [Emitted(rule, group, ARCHITECTURES[j])]
        invariant forall j | i <= j < |ARCHITECTURES| :: ctx[ARCHITECTURES[j]] == old(ctx)[ARCHITECTURES[j]]
      {
        var arch := ARCHITECTURES[i];
        rule.action.SetRuleId(RuleId(group, arch));
        var action := LibSeccompAction(rule.action.kind, rule.action.errno, rule.action.ruleId);
        if !rule.filter.pure {
          action := KernelTrace(TraceMessage(RuleId(group, arch)));
        }
        ctx := ctx[arch := ctx[arch] + [KernelRule(rule.syscall, action, rule.filter.EmittedCmps())]];
      }
      assert ARCHITECTURES[0] == X86 && ARCHITECTURES[1] == X86_64;
    }
  }

  // ------------------------------------------------------------------ what the loaded filter decides

  function FirstKernelMatch(rules: seq<Rule>, call: Call): Option<Rule> {
    if rules == [] then None
    else if rules[0].filter.KernelMatch(call) then Some(rules[0])
    else FirstKernelMatch(rules[1..], call)
  }

  /** Emitting a group backwards makes the kernel check it forwards. */
  lemma {:induction false} KernelChecksForwards(sorted: seq<Rule>, group: nat, call: Call)
    requires forall r | r in sorted :: r.syscall == call.syscall
    ensures KernelDecide(EmittedGroup(sorted, group, call.arch), call) ==
      match FirstKernelMatch(sorted, call)
      case None => DEFAULT
      case Some(r) => Emitted(r, group, call.arch).action
  {
    if sorted != [] {
      var rest := EmittedGroup(sorted[1..], group, call.arch);
      var all := rest + [Emitted(sorted[0], group, call.arch)];
      assert all[..|all| - 1] == rest;
      KernelChecksForwards(sorted[1..], group, call);
    }
  }

  ghost predicate NoRuleFor(rules: seq<KernelRule>, syscall: int) {
    forall r | r in rules :: r.syscall != syscall
  }

  /** Rules of other syscalls do not take part, whether added before or after. */
  lemma {:induction false} OtherRulesAfter(rules: seq<KernelRule>, others: seq<KernelRule>, call: Call)
    requires NoRuleFor(others, call.syscall)
    ensures KernelDecide(rules + others, call) == KernelDecide(rules, call)
  {
    if others == [] {
      assert rules + others == rules;
    } else {
      var all := rules + others;
      assert all[|all| - 1] == others[|others| - 1] && others[|others| - 1] in others;
      assert all[..|all| - 1] == rules + others[..|others| - 1];
      OtherRulesAfter(rules, others[..|others| - 1], call);
    }
  }

  lemma {:induction false} OtherRulesBefore(others: seq<KernelRule>, rules: seq<KernelRule>, call: Call)
    requires NoRuleFor(others, call.syscall)
    ensures KernelDecide(others + rules, call) == KernelDecide(rules, call)
  {
    var all := others + rules;
    if rules == [] {
      assert all == [] + others;
      OtherRulesAfter([], others, call);
    } else {
      assert all[|all| - 1] == rules[|rules| - 1];
      assert all[..|all| - 1] == others + rules[..|rules| - 1];
      OtherRulesBefore(others, rules[..|rules| - 1], call);
    }
  }

  lemma {:induction false} EmittedGroupSyscall(sorted: seq<Rule>, group: nat, arch: Arch, syscall: int)
    requires forall r | r in sorted :: r.syscall != syscall
    ensures NoRuleFor(EmittedGroup(sorted, group, arch), syscall)
  {
    if sorted != [] {
      EmittedGroupSyscall(sorted[1..], group, arch, syscall);
    }
  }
}
