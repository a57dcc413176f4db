/** What a table of rules says about a call: the strongest of what its entries say. */
module TablePromises {
  import opened Common
  import opened SyscallFilter
  import opened SeccompRule
  import opened SeccompContext
  import opened PolicyTables

  /** What is decided about a call. */
  datatype Promise = Permits | Asks(handler: Handler) | Fails(errno: nat) | Kills {
    function Rank(): nat {
      match this
      case Permits => 0
      case Asks(_) => 1
      case Fails(_) => 2
      case Kills => 3
    }
  }

  function When(condition: bool, p: Promise): Option<Promise> {
    if condition then Some(p) else None
  }

  /** The stronger of two promises, the first if neither is. */
  function Stronger(a: Option<Promise>, b: Option<Promise>): Option<Promise> {
    if b.Some? && (a.None? || b.value.Rank() > a.value.Rank()) then b else a
  }

  // ------------------------------------------------------------------ what a table says

  function Says(e: Entry): Promise {
    match e.kind
    case ALLOW => Permits
    case TRACE => Asks(e.handler)
    case ERRNO => Fails(e.errno)
    case KILL => Kills
  }

  function Own(e: Entry, name: SyscallName, call: Call): Option<Promise> {
    When(e.name == name && Denotes(e.filter, call), Says(e))
  }

  /** What the first `n` entries say. */
  function Upto(table: seq<Entry>, n: nat, name: SyscallName, call: Call): Option<Promise>
    requires n <= |table|
  {
    if n == 0 then None else Stronger(Upto(table, n - 1, name, call), Own(table[n - 1], name, call))
  }

  function Strongest(table: seq<Entry>, name: SyscallName, call: Call): Option<Promise> {
    Upto(table, |table|, name, call)
  }

  lemma {:induction false} UptoPrefix(a: seq<Entry>, b: seq<Entry>, n: nat, name: SyscallName, call: Call)
    requires n <= |a|
    ensures Upto(a + b, n, name, call) == Upto(a, n, name, call)
  {
    if n > 0 {
      UptoPrefix(a, b, n - 1, name, call);
    }
  }

  lemma {:induction false} UptoConcat(a: seq<Entry>, b: seq<Entry>, n: nat, name: SyscallName, call: Call)
    requires n <= |b|
    ensures Upto(a + b, |a| + n, name, call) == Stronger(Strongest(a, name, call), Upto(b, n, name, call))
  {
    if n == 0 {
      UptoPrefix(a, b, |a|, name, call);
    } else {
      UptoConcat(a, b, n - 1, name, call);
      assert (a + b)[|a| + n - 1] == b[n - 1];
    }
  }

  lemma StrongestJoin(a: Table, b: Table, name: SyscallName, call: Call)
    ensures Strongest(Join(a, b), name, call) == Stronger(Strongest(a, name, call), Strongest(b, name, call))
  {
    UptoConcat(a, b, |b|, name, call);
  }

  /** A table in which every entry says the same of its name. */
  lemma {:induction false} UptoOfList(table: seq<Entry>, names: seq<SyscallName>, p: Option<Promise>, n: nat,
                                      name: SyscallName, call: Call)
    requires n <= |table| == |names|
    requires forall i | 0 <= i < |names| :: table[i].name == names[i] && Own(table[i], names[i], call) == p
    ensures Upto(table, n, name, call) == if name in names[..n] then p else None
  {
    if n > 0 {
      UptoOfList(table, names, p, n - 1, name, call);
      assert names[..n] == names[..n - 1] + [names[n - 1]];
    }
  }

  lemma StrongestAllowed(names: OtherNames, name: SyscallName, call: Call)
    ensures Strongest(AllowAll(names), name, call) == When(name in names, Permits)
  {
    UptoOfList(AllowAll(names), names, Some(Permits), |names|, name, call);
    assert names[..|names|] == names;
  }

  lemma StrongestEach(names: FailNames, rule: Entry, name: SyscallName, call: Call)
    requires rule.errno < MESSAGES && Fits(X86, rule.filter) && Fits(X86_64, rule.filter)
    ensures Strongest(Each(names, rule), name, call) ==
      if name in names then When(Denotes(rule.filter, call), Says(rule)) else None
  {
    UptoOfList(Each(names, rule), names, When(Denotes(rule.filter, call), Says(rule)), |names|, name, call);
    assert names[..|names|] == names;
  }

  /** The same with what the rule says spelled out. */
  lemma EachSays(names: FailNames, rule: Entry, said: bool, p: Promise, name: SyscallName, call: Call)
    requires rule.errno < MESSAGES && Fits(X86, rule.filter) && Fits(X86_64, rule.filter) && Says(rule) == p
    requires said <==> name in names && Denotes(rule.filter, call)
    ensures Strongest(Each(names, rule), name, call) == When(said, p)
  {
    StrongestEach(names, rule, name, call);
  }

  lemma StrongestOfOne(table: seq<Entry>, name: SyscallName, call: Call)
    requires |table| == 1
    ensures Strongest(table, name, call) == Own(table[0], name, call)
  {
    assert Upto(table, 1, name, call) == Stronger(Upto(table, 0, name, call), Own(table[0], name, call));
  }

  lemma JoinFive(a: Table, b: Table, c: Table, d: Table, e: Table, name: SyscallName, call: Call)
    ensures Strongest(Join(a, Join(b, Join(c, Join(d, e)))), name, call) ==
      Stronger(Strongest(a, name, call), Stronger(Strongest(b, name, call), Stronger(Strongest(c, name, call),
        Stronger(Strongest(d, name, call), Strongest(e, name, call)))))
  {
    JoinFour(b, c, d, e, name, call);
    StrongestJoin(a, Join(b, Join(c, Join(d, e))), name, call);
  }

  lemma JoinFour(a: Table, b: Table, c: Table, d: Table, name: SyscallName, call: Call)
    ensures Strongest(Join(a, Join(b, Join(c, d))), name, call) ==
      Stronger(Strongest(a, name, call), Stronger(Strongest(b, name, call),
        Stronger(Strongest(c, name, call), Strongest(d, name, call))))
  {
    JoinThree(b, c, d, name, call);
    StrongestJoin(a, Join(b, Join(c, d)), name, call);
  }

  lemma JoinThree(a: Table, b: Table, c: Table, name: SyscallName, call: Call)
    ensures Strongest(Join(a, Join(b, c)), name, call) ==
      Stronger(Strongest(a, name, call), Stronger(Strongest(b, name, call), Strongest(c, name, call)))
  {
    StrongestJoin(b, c, name, call);
    StrongestJoin(a, Join(b, c), name, call);
  }
}
