/** Seccomp actions and rules (src/seccomp/action/, src/seccomp/SeccompRule.h), the order the listener sorts them in, and
    the meaning a list of rules is supposed to have. */
module SeccompRule {
  import opened Common
  import opened SyscallFilter
  import M = MemoryLimit
  import R = ResultRecord

  /** SeccompAction::Type, lowest precedence first. */
  datatype ActionType = ALLOW | TRACE | ERRNO | KILL {
    function Rank(): (r: nat)
      ensures r <= 3
    {
      match this
      case ALLOW => 0
      case TRACE => 1
      case ERRNO => 2
      case KILL => 3
    }
  }

  datatype TraceAction = Continue | Kill

  /** The handlers the policies give to trace actions. A `MemoryRequest` calls the memory limit's listener, which writes
      to the record itself. */
  datatype Handler = AlwaysContinue | OnlyOnce | SignalNumber(arg: ArgIndex) | MemoryRequest(remap: bool)

  const SIGSTOP: Half := 19
  const SIGVTALRM: Half := 26

  /** DefaultPolicy::isSignalValid. The argument is narrowed to an int, its low word. */
  predicate IsSignalValid(signal: Half) {
    signal != SIGSTOP && signal != SIGKILL && signal != SIGVTALRM
  }

  /** The request a memory handler reads from a call. */
  function RequestOf(call: Call, remap: bool): M.Request {
    if remap
    then M.Remap(SyscallArgument(call, 1).Value(), SyscallArgument(call, 2).Value(), SyscallArgument(call, 3).Value())
    else M.Map(SyscallArgument(call, 0).Value(), SyscallArgument(call, 1).Value())
  }

  /** The reason a handler records by itself, NONE if it records nothing. */
  function OwnReason(kind: ActionType, handler: Handler, call: Call, view: M.View): R.KillReason {
    if kind.TRACE? && handler.MemoryRequest? && view.Kills(RequestOf(call, handler.remap)) then R.MLE else R.NONE
  }

  /** The size a memory handler comes to with the request, 0 for any other action. */
  function OwnReached(kind: ActionType, handler: Handler, call: Call, view: M.View): nat {
    if kind.TRACE? && handler.MemoryRequest? then view.Reached(RequestOf(call, handler.remap)) else 0
  }

  /** What an action answers on a call; `executed` is the flag an `OnlyOnce` handler finds. */
  function Answer(kind: ActionType, handler: Handler, executed: bool, call: Call, view: M.View): TraceAction {
    match kind
    case ALLOW => Continue
    case ERRNO => Continue
    case KILL => Kill
    case TRACE =>
      match handler
      case AlwaysContinue => Continue
      case OnlyOnce => if executed then Kill else Continue
      case SignalNumber(arg) => if IsSignalValid(SyscallArgument(call, arg).lo) then Continue else Kill
      case MemoryRequest(remap) => if view.Kills(RequestOf(call, remap)) then Kill else Continue
  }

  /** An action: rules copied from one another share it, so the rule id last written to it and the flag an `OnlyOnce`
      handler captures are shared too. */
  class SeccompAction {
    const kind: ActionType
    const errno: nat
    const handler: Handler
    var ruleId: nat
    var executed: bool

    constructor (kind: ActionType, errno: nat := 0, handler: Handler := AlwaysContinue)
      ensures this.kind == kind && this.errno == errno && this.handler == handler && !executed && ruleId == 0
    {
      this.kind, this.errno, this.handler := kind, errno, handler;
      ruleId, executed := 0, false;
    }

    method SetRuleId(id: nat)
      modifies this`ruleId
      ensures ruleId == id
    {
      ruleId := id;
    }

    /** Carries out the action on a stopped tracee. An errno action cancels the syscall, which then fails with the errno,
        and lets the tracee go on. */
    method Execute(call: Call, memory: M.MemoryLimitListener, used: nat)
      returns (answer: TraceAction, cancelled: Option<nat>)
      modifies this`executed, memory, memory.out
      ensures memory.vmPeakValid == old(memory.vmPeakValid)
      ensures answer == Answer(kind, handler, old(executed), call, old(memory.Sees(used)))
      ensures memory.out.verdict ==
        old(memory.out.verdict).WithReason(OwnReason(kind, handler, call, old(memory.Sees(used))))
      ensures memory.memoryPeakKb ==
        Max(old(memory.memoryPeakKb), OwnReached(kind, handler, call, old(memory.Sees(used))))
      ensures executed == (old(executed) || (kind.TRACE? && handler.OnlyOnce?))
      ensures cancelled == if kind.ERRNO? then Some(errno) else None
    {
      cancelled := None;
      match kind
      case ALLOW => answer := Continue;
      case ERRNO => answer, cancelled := Continue, Some(errno);
      case KILL => answer := Kill;
      case TRACE =>
        match handler {
          case AlwaysContinue => answer := Continue;
          case OnlyOnce =>
            if executed {
              return Kill, None;
            }
            executed := true;
            answer := Continue;
          case SignalNumber(arg) =>
            answer := if IsSignalValid(SyscallArgument(call, arg).lo) then Continue else Kill;
          case MemoryRequest(remap) =>
            var kill := memory.OnRequest(RequestOf(call, remap), used);
            answer := if kill then Kill else Continue;
        }
    }
  }

  datatype Rule = Rule(syscall: int, action: SeccompAction, filter: Filter) {
    function Rank(): nat {
      action.kind.Rank()
    }
  }

  /** The rules of one precedence level, in their order. */
  function OfRank(rules: seq<Rule>, rank: nat): seq<Rule> {
    if rules == [] then []
    else if rules[0].Rank() == rank then [rules[0]] + OfRank(rules[1..], rank)
    else OfRank(rules[1..], rank)
  }

  function FirstMatch(rules: seq<Rule>, call: Call): Option<Rule> {
    if rules == [] then None
    else if rules[0].filter.Match(call) then Some(rules[0])
    else FirstMatch(rules[1..], call)
  }

  function OrElse<T>(a: Option<T>, b: Option<T>): Option<T> {
    if a.Some? then a else b
  }

  /** The meaning of a group of rules: the first matching rule of the highest precedence level that has one. */
  function Choose(rules: seq<Rule>, call: Call): Option<Rule> {
    OrElse(FirstMatch(OfRank(rules, 3), call),
    OrElse(FirstMatch(OfRank(rules, 2), call),
    OrElse(FirstMatch(OfRank(rules, 1), call),
           FirstMatch(OfRank(rules, 0), call))))
  }

  /** The rules of one syscall among those of all, in their order. */
  function ForSyscall(rules: seq<Rule>, syscall: int): (group: seq<Rule>)
  {
    if rules == [] then []
    else if rules[0].syscall == syscall then [rules[0]] + ForSyscall(rules[1..], syscall)
    else ForSyscall(rules[1..], syscall)
  }

  // ------------------------------------------------------------------ appending and concatenation

  lemma {:induction false} OfRankConcat(a: seq<Rule>, b: seq<Rule>, rank: nat)
    ensures OfRank(a + b, rank) == OfRank(a, rank) + OfRank(b, rank)
  {
    if a == [] {
      assert a + b == b;
    } else {
      assert (a + b)[0] == a[0] && (a + b)[1..] == a[1..] + b;
      OfRankConcat(a[1..], b, rank);
    }
  }

  lemma {:induction false} FirstMatchConcat(a: seq<Rule>, b: seq<Rule>, call: Call)
    ensures FirstMatch(a + b, call) == OrElse(FirstMatch(a, call), FirstMatch(b, call))
  {
    if a == [] {
      assert a + b == b;
    } else {
      assert (a + b)[1..] == a[1..] + b;
      FirstMatchConcat(a[1..], b, call);
    }
  }

  lemma {:induction false} ForSyscallConcat(a: seq<Rule>, b: seq<Rule>, syscall: int)
    ensures ForSyscall(a + b, syscall) == ForSyscall(a, syscall) + ForSyscall(b, syscall)
  {
    if a == [] {
      assert a + b == b;
    } else {
      assert (a + b)[1..] == a[1..] + b;
      ForSyscallConcat(a[1..], b, syscall);
    }
  }

  lemma {:induction false} ForSyscallIn(rules: seq<Rule>, syscall: int, r: Rule)
    ensures r in ForSyscall(rules, syscall) <==> r in rules && r.syscall == syscall
  {
    if rules != [] {
      ForSyscallIn(rules[1..], syscall, r);
    }
  }

  lemma {:induction false} OfRankIn(rules: seq<Rule>, rank: nat, r: Rule)
    ensures r in OfRank(rules, rank) <==> r in rules && r.Rank() == rank
  {
    if rules != [] {
      OfRankIn(rules[1..], rank, r);
    }
  }

  lemma {:induction false} FirstMatchIn(rules: seq<Rule>, call: Call)
    ensures FirstMatch(rules, call).Some? ==>
      FirstMatch(rules, call).value in rules && FirstMatch(rules, call).value.filter.Match(call)
    ensures FirstMatch(rules, call).None? <==> forall r | r in rules :: !r.filter.Match(call)
  {
    if rules != [] {
      FirstMatchIn(rules[1..], call);
    }
  }

  // ------------------------------------------------------------------ the sort

  ghost predicate Sorted(rules: seq<Rule>) {
    forall i, j | 0 <= i < j < |rules| :: rules[i].Rank() >= rules[j].Rank()
  }

  /** What std::stable_sort by descending precedence yields. */
  ghost predicate StableSortOf(sorted: seq<Rule>, rules: seq<Rule>) {
    Sorted(sorted) && forall k: nat :: OfRank(sorted, k) == OfRank(rules, k)
  }

  function Insert(r: Rule, sorted: seq<Rule>): seq<Rule> {
    if sorted == [] || r.Rank() >= sorted[0].Rank() then [r] + sorted
    else [sorted[0]] + Insert(r, sorted[1..])
  }

  function StableSort(rules: seq<Rule>): seq<Rule> {
    if rules == [] then [] else Insert(rules[0], StableSort(rules[1..]))
  }

  lemma {:induction false} NoneOfHigherRank(sorted: seq<Rule>, k: nat)
    requires Sorted(sorted)
    requires sorted == [] || sorted[0].Rank() < k
    ensures OfRank(sorted, k) == []
  {
    if |sorted| > 1 {
      NoneOfHigherRank(sorted[1..], k);
    }
  }

  lemma {:induction false} InsertMember(r: Rule, sorted: seq<Rule>, x: Rule)
    ensures x in Insert(r, sorted) <==> x == r || x in sorted
  {
    if !(sorted == [] || r.Rank() >= sorted[0].Rank()) {
      InsertMember(r, sorted[1..], x);
    }
  }

  lemma {:induction false} InsertIsSorted(r: Rule, sorted: seq<Rule>)
    requires Sorted(sorted)
    ensures Sorted(Insert(r, sorted))
  {
    if !(sorted == [] || r.Rank() >= sorted[0].Rank()) {
      InsertIsSorted(r, sorted[1..]);
      var rest := Insert(r, sorted[1..]);
      forall j | 0 <= j < |rest| ensures sorted[0].Rank() >= rest[j].Rank() {
        InsertMember(r, sorted[1..], rest[j]);
      }
    }
  }

  lemma {:induction false} InsertOfRank(r: Rule, sorted: seq<Rule>, k: nat)
    requires Sorted(sorted)
    ensures OfRank(Insert(r, sorted), k) == if r.Rank() == k then [r] + OfRank(sorted, k) else OfRank(sorted, k)
  {
    if !(sorted == [] || r.Rank() >= sorted[0].Rank()) {
      InsertOfRank(r, sorted[1..], k);
      assert ([sorted[0]] + Insert(r, sorted[1..]))[1..] == Insert(r, sorted[1..]);
    } else {
      assert ([r] + sorted)[1..] == sorted;
    }
  }

  lemma {:induction false} StableSortIsStable(rules: seq<Rule>)
    ensures StableSortOf(StableSort(rules), rules)
  {
    if rules != [] {
      StableSortIsStable(rules[1..]);
      InsertIsSorted(rules[0], StableSort(rules[1..]));
      forall k: nat ensures OfRank(StableSort(rules), k) == OfRank(rules, k) {
        InsertOfRank(rules[0], StableSort(rules[1..]), k);
      }
    }
  }

  lemma {:induction false} HeadOfRank(s: seq<Rule>)
    requires s != []
    ensures OfRank(s, s[0].Rank()) == [s[0]] + OfRank(s[1..], s[0].Rank())
    ensures forall k: nat | k != s[0].Rank() :: OfRank(s, k) == OfRank(s[1..], k)
  {}

  lemma {:induction false} SortedIsDetermined(a: seq<Rule>, b: seq<Rule>)
    requires Sorted(a) && Sorted(b) && |a| >= |b|
    requires forall k: nat :: OfRank(a, k) == OfRank(b, k)
    ensures a == b
  {
    if a != [] {
      HeadOfRank(a);
      var k := a[0].Rank();
      assert OfRank(b, k) == OfRank(a, k) != [];
      assert b != [];
      HeadOfRank(b);
      if b[0].Rank() < k {
        NoneOfHigherRank(b, k);
      } else if k < b[0].Rank() {
        NoneOfHigherRank(a, b[0].Rank());
      }
      SameTails(a, b);
      SortedIsDetermined(a[1..], b[1..]);
    }
  }

  lemma SameTails(a: seq<Rule>, b: seq<Rule>)
    requires a != [] && b != [] && a[0].Rank() == b[0].Rank()
    requires forall k: nat :: OfRank(a, k) == OfRank(b, k)
    ensures a[0] == b[0] && forall k: nat :: OfRank(a[1..], k) == OfRank(b[1..], k)
  {
    HeadOfRank(a);
    HeadOfRank(b);
    var k := a[0].Rank();
    assert OfRank(a, k)[0] == a[0] && OfRank(b, k)[0] == b[0];
    assert OfRank(a, k)[1..] == OfRank(a[1..], k) && OfRank(b, k)[1..] == OfRank(b[1..], k);
    forall j: nat ensures OfRank(a[1..], j) == OfRank(b[1..], j) {
      assert OfRank(a, j) == OfRank(b, j);
    }
  }

  /** The sorted order is determined by the property that defines it, whichever algorithm produced it. */
  lemma StableSortUnique(sorted: seq<Rule>, rules: seq<Rule>)
    requires StableSortOf(sorted, rules)
    ensures sorted == StableSort(rules)
  {
    StableSortIsStable(rules);
    if |sorted| >= |StableSort(rules)| {
      SortedIsDetermined(sorted, StableSort(rules));
    } else {
      SortedIsDetermined(StableSort(rules), sorted);
    }
  }

  lemma {:induction false} FirstOfSortedIsChosen(s: seq<Rule>, call: Call)
    requires Sorted(s)
    ensures FirstMatch(s, call) == Choose(s, call)
  {
    if s != [] {
      FirstOfSortedIsChosen(s[1..], call);
      HeadOfRank(s);
      var k := s[0].Rank();
      if k < 3 { NoneOfHigherRank(s, 3); }
      if k < 2 { NoneOfHigherRank(s, 2); }
      if k < 1 { NoneOfHigherRank(s, 1); }
    }
  }

  /** In the sorted order the first rule that matches is the chosen one. */
  lemma FirstMatchOfSorted(rules: seq<Rule>, call: Call)
    ensures FirstMatch(StableSort(rules), call) == Choose(rules, call)
  {
    StableSortIsStable(rules);
    FirstOfSortedIsChosen(StableSort(rules), call);
  }

  lemma SortKeepsMembers(rules: seq<Rule>, r: Rule)
    ensures r in StableSort(rules) <==> r in rules
  {
    StableSortIsStable(rules);
    OfRankIn(StableSort(rules), r.Rank(), r);
    OfRankIn(rules, r.Rank(), r);
  }

  /** Sorting does not change what a group means. */
  lemma ChooseOfSorted(rules: seq<Rule>, call: Call)
    ensures Choose(StableSort(rules), call) == Choose(rules, call)
  {
    StableSortIsStable(rules);
  }

  // ------------------------------------------------------------------ the choice

  /** What one precedence level contributes to the choice. */
  lemma Level(rules: seq<Rule>, k: nat, call: Call)
    ensures var first := FirstMatch(OfRank(rules, k), call);
      && (first.Some? ==> first.value in rules && first.value.Rank() == k && first.value.filter.Match(call))
      && (first.None? ==> forall r | r in rules && r.Rank() == k :: !r.filter.Match(call))
  {}

  lemma LevelStep(rules: seq<Rule>, r: Rule, k: nat, call: Call)
    ensures FirstMatch(OfRank(rules + [r], k), call) ==
      OrElse(FirstMatch(OfRank(rules, k), call), if r.Rank() == k && r.filter.Match(call) then Some(r) else None)
  {
    OfRankConcat(rules, [r], k);
    FirstMatchConcat(OfRank(rules, k), OfRank([r], k), call);
    assert OfRank([r], k) == if r.Rank() == k then [r] else [];
    assert FirstMatch([r], call) == if r.filter.Match(call) then Some(r) else None;
  }

  /** One step of the tracer's running maximum: a later rule takes over only with a strictly higher precedence. */
  lemma ChooseStep(rules: seq<Rule>, r: Rule, call: Call)
    ensures Choose(rules + [r], call) ==
      if r.filter.Match(call) && (Choose(rules, call).None? || r.Rank() > Choose(rules, call).value.Rank())
      then Some(r) else Choose(rules, call)
  {
    LevelStep(rules, r, 3, call);
    LevelStep(rules, r, 2, call);
    LevelStep(rules, r, 1, call);
    LevelStep(rules, r, 0, call);
    Level(rules, 3, call);
    Level(rules, 2, call);
    Level(rules, 1, call);
    Level(rules, 0, call);
  }

  /** The chosen rule matches, and no matching rule has a higher precedence; there is none only if none matches. */
  lemma ChooseIsBest(rules: seq<Rule>, call: Call)
    ensures Choose(rules, call).None? <==> forall r | r in rules :: !r.filter.Match(call)
    ensures Choose(rules, call).Some? ==>
      var best := Choose(rules, call).value;
      && best in rules && best.filter.Match(call)
      && forall r | r in rules && r.filter.Match(call) :: r.Rank() <= best.Rank()
  {
    Level(rules, 3, call);
    Level(rules, 2, call);
    Level(rules, 1, call);
    Level(rules, 0, call);
  }

  /** The precedence of the decision depends on the set of rules only: reordering them, or splitting them over policies
      in another way, can change which of several equal rules decides but not the type of the decision. */
  lemma DecisionTypeIgnoresOrder(rules: seq<Rule>, others: seq<Rule>, call: Call)
    requires multiset(rules) == multiset(others)
    ensures Choose(rules, call).Some? == Choose(others, call).Some?
    ensures Choose(rules, call).Some? ==>
      Choose(rules, call).value.action.kind == Choose(others, call).value.action.kind
  {
    forall r ensures r in rules <==> r in others {
      assert r in rules <==> r in multiset(rules);
      assert r in others <==> r in multiset(others);
    }
    ChooseIsBest(rules, call);
    ChooseIsBest(others, call);
    if Choose(rules, call).Some? {
      RankIsType(Choose(rules, call).value.action.kind, Choose(others, call).value.action.kind);
    }
  }

  lemma RankIsType(a: ActionType, b: ActionType)
    ensures a.Rank() == b.Rank() <==> a == b
  {}

  /** Adding rules, wherever they go, never lowers a decision an existing rule takes. */
  lemma AddingNeverLowers(before: seq<Rule>, added: seq<Rule>, after: seq<Rule>, call: Call)
    requires Choose(before + after, call).Some?
    ensures Choose(before + added + after, call).Some?
    ensures Choose(before + added + after, call).value.Rank() >= Choose(before + after, call).value.Rank()
  {
    ChooseIsBest(before + after, call);
    ChooseIsBest(before + added + after, call);
    assert Choose(before + after, call).value in before + added + after;
  }
}
