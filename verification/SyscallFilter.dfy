/** Syscall filters in their two forms: the predicates the tracer evaluates and the argument comparisons handed to
    libseccomp (src/seccomp/filter/LibSeccompFilter.cc). */
module SyscallFilter {
  import opened Common
  import opened Bits

  datatype Arch = X86 | X86_64

  type ArgIndex = i: int | 0 <= i < 6

  type Half = n: nat | n < 0x1_0000_0000

  /** A 64-bit word as its two halves. */
  datatype Word = Word(hi: Half, lo: Half) {
    predicate Less(other: Word) {
      hi < other.hi || (hi == other.hi && lo < other.lo)
    }

    function And(mask: Word): Word {
      Word(BitAnd(hi, mask.hi), BitAnd(lo, mask.lo))
    }

    function Value(): Size {
      hi * 0x1_0000_0000 + lo
    }

    /** static_cast<uint32_t>. */
    function Low(): Word {
      Word(0, lo)
    }
  }

  const ZERO := Word(0, 0)

  type Registers = r: seq<Word> | |r| == 6 witness seq(6, i => ZERO)

  /** A system call as it is entered: `regs[i]` is the register that carries argument `i` on `arch`. */
  datatype Call = Call(syscall: int, arch: Arch, regs: Registers)

  /** What an architecture sees of a word. */
  function Seen(arch: Arch, w: Word): Word {
    if arch.X86? then w.Low() else w
  }

  /** What Tracee::getSyscallArgument returns. */
  function SyscallArgument(call: Call, index: ArgIndex): Word {
    Seen(call.arch, call.regs[index])
  }

  datatype Op = Eq | Ne | Le | Ge | Lt | Gt

  predicate Compare(op: Op, x: Word, y: Word) {
    match op
    case Eq => x == y
    case Ne => x != y
    case Le => !y.Less(x)
    case Ge => !x.Less(y)
    case Lt => x.Less(y)
    case Gt => y.Less(x)
  }

  /** A libseccomp argument comparison (struct scmp_arg_cmp). */
  datatype ArgCmp =
    | Plain(arg: ArgIndex, op: Op, datum: Word)
    | MaskedEq(arg: ArgIndex, mask: Word, datum: Word)

  /** How the loaded filter evaluates a comparison: on a 32-bit architecture only the low words of the argument, the
      mask and the datum take part. */
  predicate CmpHolds(cmp: ArgCmp, call: Call) {
    var x := Seen(call.arch, call.regs[cmp.arg]);
    match cmp
    case Plain(_, op, datum) => Compare(op, x, Seen(call.arch, datum))
    case MaskedEq(_, mask, datum) => x.And(Seen(call.arch, mask)) == Seen(call.arch, datum)
  }

  predicate AllCmps(cmps: seq<ArgCmp>, call: Call) {
    forall i | 0 <= i < |cmps| :: CmpHolds(cmps[i], call)
  }

  /** A syscall filter: `conditions` is what `match` evaluates, `cmps` what libseccomp is given. A filter that is not
      pure says more than its comparisons do. */
  datatype Filter = Filter(pure: bool, conditions: seq<Call -> bool>, cmps: seq<ArgCmp>) {

    predicate Match(call: Call) {
      forall i | 0 <= i < |conditions| :: conditions[i](call)
    }

    /** The comparisons a rule with this filter is emitted with: never none, since libseccomp drops other rules of the
        same syscall when one has no condition. */
    function EmittedCmps(): seq<ArgCmp> {
      if cmps == [] then [Plain(0, Ge, ZERO)] else cmps
    }

    predicate KernelMatch(call: Call) {
      AllCmps(EmittedCmps(), call)
    }

    function And(other: Filter): Filter {
      Filter(true, conditions + other.conditions, cmps + other.cmps)
    }
  }

  /** The default LibSeccompFilter, which matches everything. */
  const ALWAYS := Filter(true, [], [])

  /** SyscallArg's comparison operators. */
  function ArgCompare(arg: ArgIndex, op: Op, data: Word): Filter {
    Filter(true, [(call: Call) => Compare(op, SyscallArgument(call, arg), data)], [Plain(arg, op, data)])
  }

  /** MaskedSyscallArg::operator==. */
  function ArgMaskedEq(arg: ArgIndex, mask: Word, data: Word): Filter {
    Filter(true, [(call: Call) => SyscallArgument(call, arg).And(mask) == data], [MaskedEq(arg, mask, data)])
  }

  /** Filter expressions as the policies write them, and what they denote. */
  datatype Expr =
    | Everything
    | Cmp(arg: ArgIndex, op: Op, data: Word)
    | Masked(arg: ArgIndex, mask: Word, data: Word)
    | Both(left: Expr, right: Expr)

  function Build(e: Expr): Filter {
    match e
    case Everything => ALWAYS
    case Cmp(arg, op, data) => ArgCompare(arg, op, data)
    case Masked(arg, mask, data) => ArgMaskedEq(arg, mask, data)
    case Both(left, right) => Build(left).And(Build(right))
  }

  predicate Denotes(e: Expr, call: Call) {
    match e
    case Everything => true
    case Cmp(arg, op, data) => Compare(op, SyscallArgument(call, arg), data)
    case Masked(arg, mask, data) => SyscallArgument(call, arg).And(mask) == data
    case Both(left, right) => Denotes(left, call) && Denotes(right, call)
  }

  const ALL_ONES: Half := 0xFFFF_FFFF

  /** A comparison whose two forms agree on `arch`. On X86 a datum of 2^32 or more is cut to its low word for the kernel
      only; the forms then agree just when the cut comparison is as constant as the uncut one. */
  predicate CmpFits(arch: Arch, cmp: ArgCmp) {
    arch.X86_64? || cmp.datum.hi == 0 ||
    match cmp
    case Plain(_, op, datum) => (op.Le? || op.Gt?) && datum.lo == ALL_ONES
    case MaskedEq(_, mask, datum) => BitAnd(datum.lo, mask.lo) != datum.lo
  }

  predicate Fits(arch: Arch, e: Expr) {
    match e
    case Everything => true
    case Cmp(arg, op, data) => CmpFits(arch, Plain(arg, op, data))
    case Masked(arg, mask, data) => CmpFits(arch, MaskedEq(arg, mask, data))
    case Both(left, right) => Fits(arch, left) && Fits(arch, right)
  }

  /** What the tracer's predicate for a comparison says. */
  predicate TracerHolds(cmp: ArgCmp, call: Call) {
    match cmp
    case Plain(arg, op, datum) => Compare(op, SyscallArgument(call, arg), datum)
    case MaskedEq(arg, mask, datum) => SyscallArgument(call, arg).And(mask) == datum
  }

  // ------------------------------------------------------------------ words as numbers

  /** The operators compare words as the numbers they are. */
  lemma CompareIs(op: Op, x: Word, y: Word)
    ensures Compare(op, x, y) <==>
      match op
      case Eq => x.Value() == y.Value()
      case Ne => x.Value() != y.Value()
      case Le => x.Value() <= y.Value()
      case Ge => x.Value() >= y.Value()
      case Lt => x.Value() < y.Value()
      case Gt => x.Value() > y.Value()
  {}

  lemma WordBit(w: Word, i: nat)
    ensures BitAt(w.Value(), i) <==> if i < 32 then BitAt(w.lo, i) else BitAt(w.hi, i - 32)
  {
    HalfWordSize();
    JoinedBit(w.hi, w.lo, 32, i);
  }

  /** Masking keeps of a word exactly the bits the mask has. */
  lemma AndIsBitwise(x: Word, mask: Word, i: nat)
    ensures BitAt(x.And(mask).Value(), i) <==> BitAt(x.Value(), i) && BitAt(mask.Value(), i)
  {
    WordBit(x, i);
    WordBit(mask, i);
    WordBit(x.And(mask), i);
    if i < 32 {
      AndBit(x.lo, mask.lo, i);
    } else {
      AndBit(x.hi, mask.hi, i - 32);
    }
  }

  /** A mask of one bit tells whether an argument has it. */
  lemma BitIsTold(call: Call, arg: ArgIndex, k: nat)
    requires k < 32 && Pow2(k) < 0x1_0000_0000
    ensures Denotes(Masked(arg, Word(0, Pow2(k)), Word(0, Pow2(k))), call) <==> BitAt(SyscallArgument(call, arg).Value(), k)
    ensures Denotes(Masked(arg, Word(0, Pow2(k)), ZERO), call) <==> !BitAt(SyscallArgument(call, arg).Value(), k)
  {
    AndPow2(SyscallArgument(call, arg).lo, k);
    WordBit(SyscallArgument(call, arg), k);
  }

  /** Masking twice is masking once, so a masked value is fixed by the mask. */
  lemma {:induction false} MaskTwice(x: nat, m: nat)
    ensures BitAnd(BitAnd(x, m), m) == BitAnd(x, m)
  {
    if x != 0 && m != 0 {
      MaskTwice(x / 2, m / 2);
      var bit := if x % 2 == 1 && m % 2 == 1 then 1 else 0;
      var r := BitAnd(x, m);
      assert r % 2 == bit && r / 2 == BitAnd(x / 2, m / 2);
    }
  }

  lemma CmpAgrees(cmp: ArgCmp, call: Call)
    requires CmpFits(call.arch, cmp)
    ensures CmpHolds(cmp, call) == TracerHolds(cmp, call)
  {
    if cmp.MaskedEq? {
      MaskTwice(call.regs[cmp.arg].lo, cmp.mask.lo);
    }
  }

  /** A register value on which the two forms of an unfit comparison differ. */
  function Disagreement(cmp: ArgCmp): Word {
    match cmp
    case Plain(_, op, datum) => if op.Eq? || op.Ne? then datum else Word(0, ALL_ONES)
    case MaskedEq(_, mask, datum) => datum
  }

  lemma UnfitDisagrees(cmp: ArgCmp, call: Call)
    requires !CmpFits(call.arch, cmp)
    requires call.regs[cmp.arg] == Disagreement(cmp)
    ensures CmpHolds(cmp, call) != TracerHolds(cmp, call)
  {}

  /** The kernel's form and the tracer's form of a comparison agree on every call of an architecture exactly when the
      comparison fits it. */
  lemma CmpAgreesIff(arch: Arch, cmp: ArgCmp)
    ensures CmpFits(arch, cmp) <==>
            forall call: Call :: call.arch == arch ==> CmpHolds(cmp, call) == TracerHolds(cmp, call)
  {
    if CmpFits(arch, cmp) {
      forall call: Call | call.arch == arch ensures CmpHolds(cmp, call) == TracerHolds(cmp, call) {
        CmpAgrees(cmp, call);
      }
    } else {
      var regs: Registers := seq(6, i => Disagreement(cmp));
      UnfitDisagrees(cmp, Call(0, arch, regs));
      assert Call(0, arch, regs).arch == arch;
    }
  }

  lemma AllCmpsConcat(a: seq<ArgCmp>, b: seq<ArgCmp>, call: Call)
    ensures AllCmps(a + b, call) <==> AllCmps(a, call) && AllCmps(b, call)
  {
    if AllCmps(a + b, call) {
      forall i | 0 <= i < |a| ensures CmpHolds(a[i], call) { assert a[i] == (a + b)[i]; }
      forall i | 0 <= i < |b| ensures CmpHolds(b[i], call) { assert b[i] == (a + b)[|a| + i]; }
    }
  }

  lemma MatchConcat(f: Filter, g: Filter, call: Call)
    ensures f.And(g).Match(call) <==> f.Match(call) && g.Match(call)
  {
    var all := f.And(g).conditions;
    if f.And(g).Match(call) {
      forall i | 0 <= i < |f.conditions| ensures f.conditions[i](call) { assert f.conditions[i] == all[i]; }
      forall i | 0 <= i < |g.conditions| ensures g.conditions[i](call) {
        assert g.conditions[i] == all[|f.conditions| + i];
      }
    }
  }

  lemma {:induction false} BuiltForms(e: Expr, call: Call)
    requires Fits(call.arch, e)
    ensures Build(e).pure
    ensures Build(e).Match(call) <==> Denotes(e, call)
    ensures AllCmps(Build(e).cmps, call) <==> Denotes(e, call)
  {
    match e
    case Everything =>
    case Cmp(arg, op, data) => {
      var f := Build(e);
      CmpAgrees(Plain(arg, op, data), call);
      assert f.Match(call) <==> f.conditions[0](call);
      assert AllCmps(f.cmps, call) <==> CmpHolds(f.cmps[0], call);
    }
    case Masked(arg, mask, data) => {
      var f := Build(e);
      CmpAgrees(MaskedEq(arg, mask, data), call);
      assert f.Match(call) <==> f.conditions[0](call);
      assert AllCmps(f.cmps, call) <==> CmpHolds(f.cmps[0], call);
    }
    case Both(left, right) => {
      BuiltForms(left, call);
      BuiltForms(right, call);
      MatchConcat(Build(left), Build(right), call);
      AllCmpsConcat(Build(left).cmps, Build(right).cmps, call);
    }
  }

  /** Every filter built from the operators means the same to the tracer and to the loaded filter, the stand-in condition
      of empty filters included. */
  lemma TwoFormsAgree(e: Expr, call: Call)
    requires Fits(call.arch, e)
    ensures Build(e).Match(call) <==> Denotes(e, call)
    ensures Build(e).KernelMatch(call) <==> Denotes(e, call)
  {
    BuiltForms(e, call);
    var f := Build(e);
    if f.cmps == [] {
      assert f.EmittedCmps() == [Plain(0, Ge, ZERO)];
    }
  }
}
