/** Setting the bits of a perf event (src/perf/PerfListener.cc): words are natural numbers, and shifts, masks and the
    bitwise or go bit by bit from the lowest. */
module PerfConfig {
  import opened Common
  import opened Bits

  const WORD_BITS := 64

  /** x & ((1 << n) - 1). */
  function Low(x: nat, n: nat): (r: nat)
    ensures r <= x && r < Pow2(n)
    decreases n
  {
    if n == 0 then 0 else x % 2 + 2 * Low(x / 2, n - 1)
  }

  /** x >> n. */
  function Shr(x: nat, n: nat): (r: nat)
    ensures r <= x
    decreases n
  {
    if n == 0 then x else Shr(x / 2, n - 1)
  }

  /** x << n in a word. */
  function Shl(x: nat, n: nat): (r: nat)
    ensures r < Pow2(WORD_BITS)
  {
    Low(Shifted(x, n), WORD_BITS)
  }

  function Shifted(x: nat, n: nat): nat {
    if n == 0 then x else 2 * Shifted(x, n - 1)
  }

  function BitOr(x: nat, y: nat): nat {
    if x == 0 then y
    else if y == 0 then x
    else (if x % 2 == 1 || y % 2 == 1 then 1 else 0) + 2 * BitOr(x / 2, y / 2)
  }

  // ------------------------------------------------------------------ bits of the results

  lemma {:induction false} LowBit(x: nat, n: nat, i: nat)
    ensures BitAt(Low(x, n), i) <==> i < n && BitAt(x, i)
    decreases n
  {
    if n == 0 {
      NoBits(i);
    } else {
      assert Low(x, n) / 2 == Low(x / 2, n - 1) && Low(x, n) % 2 == x % 2;
      if i > 0 { LowBit(x / 2, n - 1, i - 1); }
    }
  }

  lemma {:induction false} ShrBit(x: nat, n: nat, i: nat)
    ensures BitAt(Shr(x, n), i) <==> BitAt(x, n + i)
    decreases n
  {
    if n > 0 { ShrBit(x / 2, n - 1, i); }
  }

  lemma {:induction false} ShiftedBit(x: nat, n: nat, i: nat)
    ensures BitAt(Shifted(x, n), i) <==> n <= i && BitAt(x, i - n)
    decreases n
  {
    if n > 0 {
      assert Shifted(x, n) / 2 == Shifted(x, n - 1) && Shifted(x, n) % 2 == 0;
      if i > 0 { ShiftedBit(x, n - 1, i - 1); }
    }
  }

  lemma ShlBit(x: nat, n: nat, i: nat)
    ensures BitAt(Shl(x, n), i) <==> n <= i < WORD_BITS && BitAt(x, i - n)
  {
    LowBit(Shifted(x, n), WORD_BITS, i);
    ShiftedBit(x, n, i);
  }

  lemma {:induction false} OrBit(x: nat, y: nat, i: nat)
    ensures BitAt(BitOr(x, y), i) <==> BitAt(x, i) || BitAt(y, i)
  {
    NoBits(i);
    if x != 0 && y != 0 {
      var bit := if x % 2 == 1 || y % 2 == 1 then 1 else 0;
      assert BitOr(x, y) / 2 == BitOr(x / 2, y / 2) && BitOr(x, y) % 2 == bit;
      if i > 0 { OrBit(x / 2, y / 2, i - 1); }
    }
  }

  lemma {:induction false} OrBound(x: nat, y: nat, n: nat)
    requires x < Pow2(n) && y < Pow2(n)
    ensures BitOr(x, y) < Pow2(n)
  {
    if x != 0 && y != 0 { OrBound(x / 2, y / 2, n - 1); }
  }

  lemma WordSize()
    ensures Pow2(WORD_BITS) == WORD_SIZE
  {
    HalfWordSize();
    Pow2Sum(32, 32);
  }

  /** Numbers agree below a bit when their bits do. */
  lemma {:induction false} SameBitsSameLow(x: nat, y: nat, n: nat)
    requires forall i: nat | i < n :: BitAt(x, i) <==> BitAt(y, i)
    ensures Low(x, n) == Low(y, n)
    decreases n
  {
    if n > 0 {
      assert BitAt(x, 0) <==> BitAt(y, 0);
      forall i: nat | i < n - 1 ensures BitAt(x / 2, i) <==> BitAt(y / 2, i) {
        assert BitAt(x, i + 1) <==> BitAt(y, i + 1);
      }
      SameBitsSameLow(x / 2, y / 2, n - 1);
    }
  }

  /** What is shifted out is gone exactly when the number was small. */
  lemma {:induction false} ShrZeroIff(x: nat, n: nat)
    ensures Shr(x, n) == 0 <==> x < Pow2(n)
    decreases n
  {
    if n > 0 { ShrZeroIff(x / 2, n - 1); }
  }

  lemma {:induction false} ShrTwice(x: nat, a: nat, b: nat)
    ensures Shr(Shr(x, a), b) == Shr(x, a + b)
    decreases a
  {
    if a > 0 {
      ShrTwice(x / 2, a - 1, b);
      assert a + b - 1 == a - 1 + b;
    }
  }

  // ------------------------------------------------------------------ the ranges

  /** A range of bits, both ends in it. The source's mask and shifts are defined up to these bounds. */
  datatype Range = Range(start: nat, end: nat) {
    predicate Shiftable() {
      end <= 63 && (start <= end ==> end - start < 63)
    }

    function Width(): nat
      requires start <= end
    {
      end - start + 1
    }
  }

  ghost predicate Ordered(ranges: seq<Range>) {
    forall r | r in ranges :: r.start <= r.end
  }

  function Covers(r: Range, b: nat): bool {
    r.start <= b <= r.end
  }

  function TotalWidth(ranges: seq<Range>): nat
    requires Ordered(ranges)
  {
    if ranges == [] then 0 else ranges[0].Width() + TotalWidth(ranges[1..])
  }

  /** Whether bit `b` is set by spreading `value` over the ranges, the lowest bits over the first. */
  ghost predicate Scattered(ranges: seq<Range>, value: nat, b: nat)
    requires Ordered(ranges)
  {
    ranges != [] &&
    ((Covers(ranges[0], b) && BitAt(value, b - ranges[0].start)) ||
     Scattered(ranges[1..], Shr(value, ranges[0].Width()), b))
  }

  /** The bits of `lo` below `n`, and `hi` above them. */
  function Append(lo: nat, n: nat, hi: nat): nat {
    if n == 0 then hi else lo % 2 + 2 * Append(lo / 2, n - 1, hi)
  }

  /** The ranges read back in order. */
  function Gather(word: nat, ranges: seq<Range>): nat
    requires Ordered(ranges)
  {
    if ranges == [] then 0
    else Append(Shr(word, ranges[0].start), ranges[0].Width(), Gather(word, ranges[1..]))
  }

  ghost predicate Disjoint(ranges: seq<Range>) {
    forall i, j, b: nat | 0 <= i < j < |ranges| && Covers(ranges[i], b) :: !Covers(ranges[j], b)
  }

  lemma {:induction false} ScatteredIsCovered(ranges: seq<Range>, value: nat, b: nat)
    requires Ordered(ranges)
    ensures Scattered(ranges, value, b) ==> exists r :: r in ranges && Covers(r, b)
  {
    if ranges != [] {
      ScatteredIsCovered(ranges[1..], Shr(value, ranges[0].Width()), b);
    }
  }

  lemma {:induction false} AppendLowShr(x: nat, n: nat)
    ensures Append(x, n, Shr(x, n)) == x
    decreases n
  {
    if n > 0 { AppendLowShr(x / 2, n - 1); }
  }

  lemma {:induction false} AppendIgnoresHigh(x: nat, y: nat, n: nat, hi: nat)
    requires Low(x, n) == Low(y, n)
    ensures Append(x, n, hi) == Append(y, n, hi)
    decreases n
  {
    if n > 0 {
      assert Low(x, n) % 2 == x % 2 && Low(y, n) % 2 == y % 2;
      assert Low(x, n) / 2 == Low(x / 2, n - 1) && Low(y, n) / 2 == Low(y / 2, n - 1);
      AppendIgnoresHigh(x / 2, y / 2, n - 1, hi);
    }
  }

  /** Scattering is undone by gathering: with disjoint ranges, a word whose bits in them are exactly the scattered ones
      reads back as the value, if that fits. */
  lemma {:induction false} GatherInverse(word: nat, ranges: seq<Range>, value: nat)
    requires Ordered(ranges) && Disjoint(ranges) && value < Pow2(TotalWidth(ranges))
    requires forall b: nat, r | r in ranges && Covers(r, b) :: BitAt(word, b) <==> Scattered(ranges, value, b)
    ensures Gather(word, ranges) == value
  {
    if ranges != [] {
      var r, rest := ranges[0], ranges[1..];
      var left := Shr(value, r.Width());
      RestIsScattered(word, ranges, value);
      ShrZeroIff(value, TotalWidth(ranges));
      ShrTwice(value, r.Width(), TotalWidth(rest));
      ShrZeroIff(left, TotalWidth(rest));
      GatherInverse(word, rest, left);
      FirstIsRead(word, ranges, value);
      AppendIgnoresHigh(Shr(word, r.start), value, r.Width(), left);
      AppendLowShr(value, r.Width());
    }
  }

  lemma RestIsScattered(word: nat, ranges: seq<Range>, value: nat)
    requires Ordered(ranges) && Disjoint(ranges) && ranges != []
    requires forall b: nat, r | r in ranges && Covers(r, b) :: BitAt(word, b) <==> Scattered(ranges, value, b)
    ensures Disjoint(ranges[1..])
    ensures forall b: nat, r | r in ranges[1..] && Covers(r, b) ::
      BitAt(word, b) <==> Scattered(ranges[1..], Shr(value, ranges[0].Width()), b)
  {}

  lemma FirstIsRead(word: nat, ranges: seq<Range>, value: nat)
    requires Ordered(ranges) && Disjoint(ranges) && ranges != []
    requires forall b: nat, r | r in ranges && Covers(r, b) :: BitAt(word, b) <==> Scattered(ranges, value, b)
    ensures Low(Shr(word, ranges[0].start), ranges[0].Width()) == Low(value, ranges[0].Width())
  {
    var r := ranges[0];
    forall i: nat | i < r.Width() ensures BitAt(Shr(word, r.start), i) <==> BitAt(value, i) {
      ShrBit(word, r.start, i);
      assert r in ranges && Covers(r, r.start + i);
      ScatteredIsCovered(ranges[1..], Shr(value, r.Width()), r.start + i);
      assert forall q | q in ranges[1..] :: !Covers(q, r.start + i);
    }
    SameBitsSameLow(Shr(word, r.start), value, r.Width());
  }

  // ------------------------------------------------------------------ the configuration

  /** getConfigFieldNumber: "config", "config0" to "config3", or -1. */
  function GetConfigFieldNumber(name: string): int {
    if |name| < 6 || |name| > 7 || name[..6] != "config" then -1
    else
      var index := if |name| == 7 then name[6] as int - '0' as int else 0;
      if index < 0 || index > 3 then -1 else index
  }

  /** The names there are, with the numbers they stand for. */
  lemma FieldNumbers(name: string)
    ensures name == "config" || name == "config0" ==> GetConfigFieldNumber(name) == 0
    ensures name == "config1" ==> GetConfigFieldNumber(name) == 1
    ensures name == "config2" ==> GetConfigFieldNumber(name) == 2
    ensures name == "config3" ==> GetConfigFieldNumber(name) == 3
    ensures name !in {"config", "config0", "config1", "config2", "config3"} ==> GetConfigFieldNumber(name) == -1
  {
    assert "config0" == "config" + ['0'] && "config1" == "config" + ['1'];
    assert "config2" == "config" + ['2'] && "config3" == "config" + ['3'];
    if GetConfigFieldNumber(name) != -1 {
      assert name == if |name| == 7 then name[..6] + [name[6]] else name[..6];
      assert |name| == 7 ==> name[6] == '0' || name[6] == '1' || name[6] == '2' || name[6] == '3';
    }
  }

  /** The number names one of the three fields for every name but one. */
  lemma FieldExistsIff(name: string)
    ensures GetConfigFieldNumber(name) < 3 <==> name != "config3"
  {}

  /** One range's bits put into a word. */
  function WithBits(word: nat, r: Range, value: nat): nat
    requires r.start <= r.end
  {
    BitOr(word, Shl(Low(value, r.Width()), r.start))
  }

  lemma WithBitsAt(word: nat, r: Range, value: nat, b: nat)
    requires r.Shiftable() && r.start <= r.end
    ensures BitAt(WithBits(word, r, value), b) <==>
      BitAt(word, b) || (Covers(r, b) && BitAt(value, b - r.start))
  {
    var low := Low(value, r.Width());
    OrBit(word, Shl(low, r.start), b);
    ShlBit(low, r.start, b);
    if r.start <= b {
      LowBit(value, r.Width(), b - r.start);
    }
  }

  lemma WithBitsFits(word: Size, r: Range, value: nat)
    requires r.start <= r.end
    ensures WithBits(word, r, value) < WORD_SIZE
  {
    WordSize();
    OrBound(word, Shl(Low(value, r.Width()), r.start), WORD_BITS);
  }

  /** What is in the word together with what is still to be scattered stays the same. */
  ghost predicate SameInAll(was: nat, value: nat, word: nat, rest: seq<Range>, left: nat, ranges: seq<Range>)
    requires Ordered(ranges) && Ordered(rest)
  {
    && Shr(left, TotalWidth(rest)) == Shr(value, TotalWidth(ranges))
    && forall b: nat :: BitAt(word, b) || Scattered(rest, left, b) <==> BitAt(was, b) || Scattered(ranges, value, b)
  }

  lemma OneRangeDone(was: nat, value: nat, word: nat, rest: seq<Range>, left: nat, ranges: seq<Range>)
    requires Ordered(ranges) && Ordered(rest) && rest != [] && rest[0].Shiftable()
    requires SameInAll(was, value, word, rest, left, ranges)
    ensures SameInAll(was, value, WithBits(word, rest[0], left), rest[1..], Shr(left, rest[0].Width()), ranges)
  {
    var r := rest[0];
    var next, tail := WithBits(word, r, left), Shr(left, r.Width());
    ShrTwice(left, r.Width(), TotalWidth(rest[1..]));
    forall b: nat
      ensures BitAt(next, b) || Scattered(rest[1..], tail, b) <==> BitAt(was, b) || Scattered(ranges, value, b)
    {
      WithBitsAt(word, r, left, b);
      assert BitAt(word, b) || Scattered(rest, left, b) <==> BitAt(was, b) || Scattered(ranges, value, b);
    }
  }

  /** How many ranges come before one whose ends are the wrong way round. */
  function OrderedCount(ranges: seq<Range>): (n: nat)
    ensures n <= |ranges| && (forall i | 0 <= i < n :: ranges[i].start <= ranges[i].end)
    ensures n < |ranges| ==> ranges[n].start > ranges[n].end
  {
    if ranges == [] || ranges[0].start > ranges[0].end then 0 else 1 + OrderedCount(ranges[1..])
  }

  function OrderedPrefix(ranges: seq<Range>): (prefix: seq<Range>)
    ensures Ordered(prefix) && prefix <= ranges && (Ordered(ranges) <==> prefix == ranges)
  {
    assert Ordered(ranges) ==> OrderedCount(ranges) == |ranges|;
    ranges[..OrderedCount(ranges)]
  }

  /** The loop after `k` ranges: those done are in the word, `left` is what is left of the value. */
  ghost predicate Inserted(was: nat, value: nat, word: nat, prefix: seq<Range>, k: nat, left: nat)
    requires Ordered(prefix)
  {
    k <= |prefix| && SameInAll(was, value, word, prefix[k..], left, prefix)
  }

  lemma TurnDone(was: nat, value: nat, word: Size, prefix: seq<Range>, k: nat, left: nat)
    requires k < |prefix| && prefix[k].Shiftable() && Ordered(prefix) && Inserted(was, value, word, prefix, k, left)
    ensures WithBits(word, prefix[k], left) < WORD_SIZE
    ensures Inserted(was, value, WithBits(word, prefix[k], left), prefix, k + 1, Shr(left, prefix[k].Width()))
  {
    WithBitsFits(word, prefix[k], left);
    OneRangeDone(was, value, word, prefix[k..], left, prefix);
    assert prefix[k..][1..] == prefix[k + 1..];
  }

  lemma AllDone(was: nat, value: nat, word: nat, prefix: seq<Range>, left: nat)
    requires Ordered(prefix) && Inserted(was, value, word, prefix, |prefix|, left)
    ensures left == 0 <==> value < Pow2(TotalWidth(prefix))
    ensures forall b: nat :: BitAt(word, b) <==> BitAt(was, b) || Scattered(prefix, value, b)
  {
    ShrZeroIff(value, TotalWidth(prefix));
    forall b: nat ensures BitAt(word, b) <==> BitAt(was, b) || Scattered(prefix, value, b) {
      assert BitAt(word, b) || Scattered(prefix[|prefix|..], left, b) <==> BitAt(was, b) || Scattered(prefix, value, b);
    }
  }

  /** One turn of the loop. */
  method InsertRange(config: array<Size>, field: nat, r: Range, value: nat) returns (left: nat)
    requires field < config.Length && r.start <= r.end && r.Shiftable()
    modifies config
    ensures forall i | 0 <= i < config.Length && i != field :: config[i] == old(config[i])
    ensures config[field] == WithBits(old(config[field]), r, value) && left == Shr(value, r.Width())
  {
    WithBitsFits(config[field], r, value);
    var width := r.end - r.start + 1;
    config[field] := BitOr(config[field], Shl(Low(value, width), r.start));
    left := Shr(value, width);
  }

  /** insertIntoConfig, the format taken apart. False is a failed assertion; the ranges before the one that fails it are in
      the configuration then. */
  method InsertIntoConfig(config: array<Size>, field: nat, ranges: seq<Range>, value: Size) returns (ok: bool)
    requires field < config.Length
    requires forall r | r in OrderedPrefix(ranges) :: r.Shiftable()
    modifies config
    ensures forall i | 0 <= i < config.Length && i != field :: config[i] == old(config[i])
    ensures ok <==> Ordered(ranges) && value < Pow2(TotalWidth(ranges))
    ensures forall b: nat ::
      BitAt(config[field], b) <==> BitAt(old(config[field]), b) || Scattered(OrderedPrefix(ranges), value, b)
  {
    ghost var was, prefix := config[field], OrderedPrefix(ranges);
    var left: nat := value;
    for k := 0 to |ranges|
      invariant forall i | 0 <= i < config.Length && i != field :: config[i] == old(config[i])
      invariant Inserted(was, value, config[field], prefix, k, left)
    {
      if !(ranges[k].start <= ranges[k].end) {
        AllDone(was, value, config[field], prefix, left);
        return false;
      }
      TurnDone(was, value, config[field], prefix, k, left);
      left := InsertRange(config, field, ranges[k], left);
    }
    AllDone(was, value, config[field], prefix, left);
    ok := left == 0;
  }

  /** A value that fits, spread over disjoint ranges of a word that is 0 there: the ranges read back as the value and the
      other bits are what they were. */
  lemma InsertedReadsBack(was: nat, ranges: seq<Range>, value: nat, after: nat)
    requires Ordered(ranges) && Disjoint(ranges) && value < Pow2(TotalWidth(ranges))
    requires forall b: nat, r | r in ranges && Covers(r, b) :: !BitAt(was, b)
    requires forall b: nat :: BitAt(after, b) <==> BitAt(was, b) || Scattered(ranges, value, b)
    ensures Gather(after, ranges) == value
    ensures forall b: nat | (forall r | r in ranges :: !Covers(r, b)) :: BitAt(after, b) == BitAt(was, b)
  {
    GatherInverse(after, ranges, value);
    forall b: nat | (forall r | r in ranges :: !Covers(r, b)) ensures !Scattered(ranges, value, b) {
      ScatteredIsCovered(ranges, value, b);
    }
  }
}
