/** Bits of natural numbers. */
module Bits {

  function Pow2(n: nat): (p: nat)
    ensures p > 0
  {
    if n == 0 then 1 else 2 * Pow2(n - 1)
  }

  predicate BitAt(x: nat, i: nat) {
    if i == 0 then x % 2 == 1 else BitAt(x / 2, i - 1)
  }

  lemma {:induction false} NoBits(i: nat)
    ensures !BitAt(0, i)
  {
    if i > 0 { NoBits(i - 1); }
  }

  lemma {:induction false} Pow2Sum(a: nat, b: nat)
    ensures Pow2(a + b) == Pow2(a) * Pow2(b)
  {
    if a > 0 {
      Pow2Sum(a - 1, b);
      assert a + b - 1 == a - 1 + b;
    }
  }

  lemma HalfWordSize()
    ensures Pow2(32) == 0x1_0000_0000
  {
    assert Pow2(8) == 256;
    Pow2Sum(8, 8);
    Pow2Sum(16, 16);
  }

  /** The bits of a number put together from two. */
  lemma {:induction false} JoinedBit(hi: nat, lo: nat, n: nat, i: nat)
    requires lo < Pow2(n)
    ensures BitAt(hi * Pow2(n) + lo, i) <==> if i < n then BitAt(lo, i) else BitAt(hi, i - n)
    decreases n
  {
    if n > 0 {
      Halves(hi, lo, Pow2(n - 1));
      if i > 0 {
        JoinedBit(hi, lo / 2, n - 1, i - 1);
      }
    }
  }

  lemma Halves(hi: nat, lo: nat, p: nat)
    ensures (hi * (2 * p) + lo) / 2 == hi * p + lo / 2 && (hi * (2 * p) + lo) % 2 == lo % 2
  {
    assert hi * (2 * p) == 2 * (hi * p);
  }

  /** x & m, bit by bit from the lowest. */
  function BitAnd(x: nat, m: nat): (r: nat)
    ensures r <= x && r <= m
  {
    if x == 0 || m == 0 then 0 else (if x % 2 == 1 && m % 2 == 1 then 1 else 0) + 2 * BitAnd(x / 2, m / 2)
  }

  /** A bit of the result is set exactly if it is set in both. */
  lemma {:induction false} AndBit(x: nat, m: nat, i: nat)
    ensures BitAt(BitAnd(x, m), i) <==> BitAt(x, i) && BitAt(m, i)
  {
    NoBits(i);
    if x != 0 && m != 0 {
      var bit := if x % 2 == 1 && m % 2 == 1 then 1 else 0;
      assert BitAnd(x, m) / 2 == BitAnd(x / 2, m / 2) && BitAnd(x, m) % 2 == bit;
      if i > 0 { AndBit(x / 2, m / 2, i - 1); }
    }
  }

  /** What a mask of one bit leaves. */
  lemma {:induction false} AndPow2(x: nat, k: nat)
    ensures BitAnd(x, Pow2(k)) == if BitAt(x, k) then Pow2(k) else 0
  {
    NoBits(k);
    if x != 0 {
      if k > 0 {
        AndPow2(x / 2, k - 1);
        assert Pow2(k) % 2 == 0 && Pow2(k) / 2 == Pow2(k - 1);
      } else {
        assert BitAnd(x / 2, 0) == 0;
      }
    }
  }
}
