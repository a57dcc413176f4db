/** From tables to decisions: rules made from a table decide as the strongest of its entries says. */
module PolicyDecisions {
  import opened Common
  import opened SyscallFilter
  import opened SeccompRule
  import opened SeccompContext
  import opened SeccompListener
  import opened StagedEnforcement
  import opened PolicyTables
  import opened TablePromises
  import opened PolicyPromises
  import M = MemoryLimit
  import R = ResultRecord

  ghost predicate Made(r: Rule, e: Entry, resolve: SyscallName -> int) {
    && r.syscall == resolve(e.name)
    && r.action.kind == e.kind && r.action.errno == e.errno && r.action.handler == e.handler
    && r.filter == Build(e.filter)
  }

  ghost predicate Realizes(rules: seq<Rule>, table: seq<Entry>, resolve: SyscallName -> int) {
    |rules| == |table| && forall i | 0 <= i < |rules| :: Made(rules[i], table[i], resolve)
  }

  /** No other syscall has the number of this one. */
  ghost predicate OwnNumber(resolve: SyscallName -> int, name: SyscallName) {
    forall a :: resolve(a) == resolve(name) ==> a == name
  }

  // ------------------------------------------------------------------ the choice

  /** The rule acts as promised. */
  predicate Acts(r: Rule, p: Promise) {
    match p
    case Permits => r.action.kind.ALLOW?
    case Asks(handler) => r.action.kind.TRACE? && r.action.handler == handler
    case Fails(errno) => r.action.kind.ERRNO? && r.action.errno == errno
    case Kills => r.action.kind.KILL?
  }

  predicate Agrees(chosen: Option<Rule>, said: Option<Promise>) {
    match said
    case None => chosen.None?
    case Some(p) => chosen.Some? && Acts(chosen.value, p)
  }

  lemma OneMoreRule(rules: seq<Rule>, r: Rule, e: Entry, said: Option<Promise>, resolve: SyscallName -> int,
                    name: SyscallName, call: Call)
    requires Made(r, e, resolve) && Fits(call.arch, e.filter) && OwnNumber(resolve, name) && call.syscall == resolve(name)
    requires Agrees(Choose(ForSyscall(rules, call.syscall), call), said)
    ensures Agrees(Choose(ForSyscall(rules + [r], call.syscall), call), Stronger(said, Own(e, name, call)))
  {
    ForSyscallConcat(rules, [r], call.syscall);
    BuiltForms(e.filter, call);
    if e.name == name {
      assert ForSyscall([r], call.syscall) == [r];
      ChooseStep(ForSyscall(rules, call.syscall), r, call);
    } else {
      assert ForSyscall([r], call.syscall) == [];
      assert ForSyscall(rules, call.syscall) + [] == ForSyscall(rules, call.syscall);
    }
  }

  lemma EntryIsMade(rules: seq<Rule>, table: Table, resolve: SyscallName -> int, i: nat, arch: Arch)
    requires Realizes(rules, table, resolve) && i < |rules|
    ensures Made(rules[i], table[i], resolve) && Fits(arch, table[i].filter)
  {
    assert table[i] in table;
  }

  lemma {:induction false} ChosenUpto(rules: seq<Rule>, table: seq<Entry>, n: nat, resolve: SyscallName -> int,
                                      name: SyscallName, call: Call)
    requires n <= |rules| == |table|
    requires forall i | 0 <= i < |rules| :: Made(rules[i], table[i], resolve)
    requires forall i | 0 <= i < |rules| :: Fits(call.arch, table[i].filter)
    requires OwnNumber(resolve, name) && call.syscall == resolve(name)
    ensures Agrees(Choose(ForSyscall(rules[..n], call.syscall), call), Upto(table, n, name, call))
  {
    if n > 0 {
      ChosenUpto(rules, table, n - 1, resolve, name, call);
      assert rules[..n] == rules[..n - 1] + [rules[n - 1]];
      OneMoreRule(rules[..n - 1], rules[n - 1], table[n - 1], Upto(table, n - 1, name, call), resolve, name, call);
    }
  }

  /** What is decided about a call, where nothing said means it is killed. */
  predicate Decided(d: Decision, said: Option<Promise>) {
    match said
    case None => d == KillTracee
    case Some(Permits) => d == Permit
    case Some(Asks(handler)) => d.RunHandler? && d.action.handler == handler
    case Some(Fails(errno)) => d == FailWith(errno)
    case Some(Kills) => d == KillTracee
  }

  /** A call whose number one name has is decided as the table says of that name. */
  lemma DecidedAsSaid(rules: seq<Rule>, table: Table, resolve: SyscallName -> int, name: SyscallName,
                      default: SeccompAction, call: Call)
    requires Realizes(rules, table, resolve) && default.kind == KILL
    requires OwnNumber(resolve, name) && call.syscall == resolve(name)
    ensures Decided(Reference(rules, default, call), Strongest(table, name, call))
  {
    forall i | 0 <= i < |rules| ensures Made(rules[i], table[i], resolve) && Fits(call.arch, table[i].filter) {
      EntryIsMade(rules, table, resolve, i, call.arch);
    }
    ChosenUpto(rules, table, |rules|, resolve, name, call);
    assert rules[..|rules|] == rules;
  }

  lemma {:induction false} SomethingSaid(table: seq<Entry>, i: nat, n: nat, name: SyscallName, call: Call)
    requires i < n <= |table| && Own(table[i], name, call).Some?
    ensures Upto(table, n, name, call).Some?
  {
    if i < n - 1 {
      SomethingSaid(table, i, n - 1, name, call);
    }
  }

  lemma MatchIsSaid(rules: seq<Rule>, table: Table, resolve: SyscallName -> int, i: nat, call: Call)
    requires Realizes(rules, table, resolve) && i < |rules|
    ensures resolve(table[i].name) == rules[i].syscall
    ensures rules[i].filter.Match(call) ==> Strongest(table, table[i].name, call).Some?
  {
    EntryIsMade(rules, table, resolve, i, call.arch);
    BuiltForms(table[i].filter, call);
    if rules[i].filter.Match(call) {
      SomethingSaid(table, i, |table|, table[i].name, call);
    }
  }

  ghost predicate Silent(table: seq<Entry>, resolve: SyscallName -> int, call: Call) {
    forall name | resolve(name) == call.syscall :: Strongest(table, name, call) == None
  }

  lemma SilentRule(rules: seq<Rule>, table: Table, resolve: SyscallName -> int, r: Rule, call: Call)
    requires Realizes(rules, table, resolve) && Silent(table, resolve, call)
    requires r in rules && r.syscall == call.syscall
    ensures !r.filter.Match(call)
  {
    var i :| 0 <= i < |rules| && rules[i] == r;
    MatchIsSaid(rules, table, resolve, i, call);
  }

  /** A call of which nothing is said under any name that has its number is killed. */
  lemma KilledIfSilent(rules: seq<Rule>, table: Table, resolve: SyscallName -> int, default: SeccompAction, call: Call)
    requires Realizes(rules, table, resolve) && default.kind == KILL
    requires Silent(table, resolve, call)
    ensures Reference(rules, default, call) == KillTracee
  {
    var group := ForSyscall(rules, call.syscall);
    forall r | r in group ensures !r.filter.Match(call) {
      ForSyscallIn(rules, call.syscall, r);
      SilentRule(rules, table, resolve, r, call);
    }
    ChooseIsBest(group, call);
  }

  // ------------------------------------------------------------------ the answer

  /** A call's turn: what is decided, what a handler goes by, what is answered, and the record before and after. */
  datatype Turn = Turn(decision: Decision, view: M.View, answer: TraceAction, before: R.Verdict, after: R.Verdict) {

    /** KILL with this reason offered to the record if the condition holds, or else CONTINUE with nothing recorded. */
    predicate KilledIf(condition: bool, reason: R.KillReason) {
      if condition then answer == Kill && after == before.WithReason(reason) else answer == Continue && after == before
    }

    /** As the decision has it; what a once-only handler answers depends on the calls before. */
    ghost predicate Follows(call: Call) {
      && after == AfterHandler(before, answer, DecisionReason(decision, call, view))
      && ((decision.RunHandler? && decision.action.handler.OnlyOnce?) ||
          answer == DecisionAnswer(decision, false, call, view))
    }

    /** As it is said: SIGKILL, SIGSTOP and SIGVTALRM must not be sent, requests for memory must not exceed the limit, and
        what nothing is said about must not be done. */
    predicate Obeys(said: Option<Promise>, call: Call) {
      match said
      case None => KilledIf(true, R.RV)
      case Some(Kills) => KilledIf(true, R.RV)
      case Some(Permits) => KilledIf(false, R.RV)
      case Some(Fails(_)) => KilledIf(false, R.RV)
      case Some(Asks(handler)) =>
        match handler
        case AlwaysContinue => KilledIf(false, R.RV)
        case OnlyOnce => KilledIf(answer == Kill, R.RV)
        case SignalNumber(arg) => KilledIf(Argument(call, arg) % 0x1_0000_0000 in {9, 19, 26}, R.RV)
        case MemoryRequest(remap) => KilledIf(view.Kills(Requested(call, remap)), R.MLE)
    }
  }

  /** The turns of calls, one after the other on one record. */
  ghost predicate OnOneRecord(turns: seq<Turn>, start: R.Verdict, end: R.Verdict) {
    && (forall k | 0 < k < |turns| :: turns[k].before == turns[k - 1].after)
    && if turns == [] then end == start else turns[0].before == start && turns[|turns| - 1].after == end
  }

  lemma OneMoreTurn(turns: seq<Turn>, t: Turn, start: R.Verdict)
    requires OnOneRecord(turns, start, t.before)
    ensures OnOneRecord(turns + [t], start, t.after)
  {}

  /** The request for memory that a call makes. */
  function Requested(call: Call, remap: bool): M.Request {
    if remap then M.Remap(Argument(call, 1), Argument(call, 2), Argument(call, 3))
    else M.Map(Argument(call, 0), Argument(call, 1))
  }

  lemma RequestedIs(call: Call, remap: bool)
    ensures RequestOf(call, remap) == Requested(call, remap)
  {}

  lemma ObeyedAsDecided(t: Turn, said: Option<Promise>, call: Call)
    requires Decided(t.decision, said) && t.Follows(call)
    ensures t.Obeys(said, call)
  {
    if t.decision.RunHandler? && t.decision.action.handler.MemoryRequest? {
      RequestedIs(call, t.decision.action.handler.remap);
    }
  }

  /** A call is decided, answered and recorded as the table says of the one name with its number; and killed, with RV
      offered, if the table says nothing of it under any name. */
  ghost predicate Settled(table: seq<Entry>, resolve: SyscallName -> int, call: Call, t: Turn) {
    && (forall name | OwnNumber(resolve, name) && resolve(name) == call.syscall ::
          Decided(t.decision, Strongest(table, name, call)) && t.Obeys(Strongest(table, name, call), call))
    && (Silent(table, resolve, call) ==> t.decision == KillTracee && t.KilledIf(true, R.RV))
  }

  lemma SettledAsFollowed(rules: seq<Rule>, table: Table, resolve: SyscallName -> int, default: SeccompAction, call: Call,
                          t: Turn)
    requires Realizes(rules, table, resolve) && default.kind == KILL
    requires t.decision == Reference(rules, default, call) && t.Follows(call)
    ensures Settled(table, resolve, call, t)
  {
    forall name | OwnNumber(resolve, name) && resolve(name) == call.syscall
      ensures Decided(t.decision, Strongest(table, name, call)) && t.Obeys(Strongest(table, name, call), call)
    {
      DecidedAsSaid(rules, table, resolve, name, default, call);
      ObeyedAsDecided(t, Strongest(table, name, call), call);
    }
    if Silent(table, resolve, call) {
      KilledIfSilent(rules, table, resolve, default, call);
    }
  }
}
