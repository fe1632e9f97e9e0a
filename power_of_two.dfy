/** IS_POWER_OF_2 and power_of_2 of include/anp_state.h on a 64-bit size_t.

    power_of_2 rounds its argument up to a power of two by decrementing it,
    copying its highest set bit into every lower bit (the "smear"), and
    incrementing. The facts below are split into small bit-level steps, each
    about one mask, so that no proof has to reason about a long chain of
    64-bit comparisons. */
module PowerOfTwo {

  /** 2^63, the largest power of two a size_t holds. */
  const TopBit: bv64 := 0x8000_0000_0000_0000

  /** IS_POWER_OF_2: positive with a single bit set. */
  predicate IsPowerOf2(n: bv64) {
    n > 0 && n & (n - 1) == 0
  }

  /** A run of ones in the low bits and zeros above (2^k - 1 for some k). */
  predicate LowOnes(s: bv64) {
    s & (s + 1) == 0
  }

  /** The six shift-or steps of power_of_2 after the decrement. */
  function Smear(n0: bv64): bv64 {
    var n1 := n0 | (n0 >> 1);
    var n2 := n1 | (n1 >> 2);
    var n3 := n2 | (n2 >> 4);
    var n4 := n3 | (n3 >> 8);
    var n5 := n4 | (n4 >> 16);
    n5 | (n5 >> 32)
  }

  /** power_of_2: zero gives one; otherwise decrement, smear, increment. */
  function PowerOf2(number: bv64): bv64 {
    if number == 0 then 1 else Smear(number - 1) + 1
  }

  // ---------------------------------------------------------------------
  // One-mask facts about the smear

  /** The smear leaves a run of low ones... */
  lemma SmearLowOnes(m: bv64)
    ensures LowOnes(Smear(m))
  {
  }

  /** ... that covers its argument ... */
  lemma SmearCovers(m: bv64)
    ensures m <= Smear(m)
  {
  }

  /** ... sets no bit above the highest bit of its argument ... */
  lemma SmearKeepsMask(m: bv64, l: bv64)
    requires LowOnes(l) && m & !l == 0
    ensures Smear(m) & !l == 0
  {
  }

  /** ... so stays below 2^63 when its argument does ... */
  lemma SmearBelowTop(m: bv64)
    requires m < TopBit
    ensures Smear(m) < TopBit
  {
  }

  /** ... and changes nothing that is already a run of low ones. */
  lemma SmearFixesLowOnes(m: bv64)
    requires LowOnes(m)
    ensures Smear(m) == m
  {
  }

  // ---------------------------------------------------------------------
  // Powers of two and runs of low ones

  /** One below a power of two is a run of low ones. */
  lemma PowerPred(p: bv64)
    requires IsPowerOf2(p)
    ensures LowOnes(p - 1)
  {
  }

  /** One above a run of low ones below 2^63 is a power of two. */
  lemma LowOnesSucc(s: bv64)
    requires LowOnes(s) && s < TopBit
    ensures IsPowerOf2(s + 1)
  {
  }

  /** A number up to a power of two p is p itself or lies within p - 1's
      bits. */
  lemma UpToPower(n: bv64, p: bv64)
    requires IsPowerOf2(p) && n <= p
    ensures n == p || n & !(p - 1) == 0
  {
  }

  /** Decrementing a non-zero number keeps it within a run of low ones. */
  lemma MaskedPred(n: bv64, l: bv64)
    requires LowOnes(l) && n != 0 && n & !l == 0
    ensures (n - 1) & !l == 0
  {
  }

  /** A number within p - 1's bits is below the power of two p. */
  lemma MaskedBelow(s: bv64, p: bv64)
    requires IsPowerOf2(p) && s & !(p - 1) == 0
    ensures s + 1 <= p
  {
  }

  /** A run of low ones below 2^63 that reaches m stays above m after both
      are incremented. */
  lemma LowOnesReach(m: bv64, s: bv64)
    requires m <= s && LowOnes(s) && s < TopBit
    ensures m + 1 <= s + 1
  {
  }

  lemma DecrementBelowTop(n: bv64)
    requires 1 <= n <= TopBit
    ensures n - 1 < TopBit
  {
  }

  // ---------------------------------------------------------------------
  // What power_of_2 computes

  lemma PowerOf2Zero()
    ensures PowerOf2(0) == 1 && IsPowerOf2(1)
  {
  }

  /** Up to 2^63 the result is a power of two at or above the input ... */
  lemma PowerOf2RoundsUp(n: bv64)
    requires n <= TopBit
    ensures IsPowerOf2(PowerOf2(n)) && n <= PowerOf2(n)
  {
    if n == 0 {
      PowerOf2Zero();
      assert IsPowerOf2(PowerOf2(n)) && n <= PowerOf2(n);
    } else {
      NonZeroAtLeastOne(n);
      PositiveIsPower(n);
      PositiveAtLeast(n);
    }
  }

  /** ... and no larger than any power of two at or above the input. */
  lemma PowerOf2Least(n: bv64, p: bv64)
    requires n <= p && IsPowerOf2(p)
    ensures PowerOf2(n) <= p
  {
    if n == 0 {
      PowerOf2Zero();
      PowerAtLeastOne(p);
    } else {
      NonZeroAtLeastOne(n);
      PositiveLeast(n, p);
    }
  }

  lemma NonZeroAtLeastOne(n: bv64)
    requires n != 0
    ensures 1 <= n
  {
  }

  lemma PowerAtLeastOne(p: bv64)
    requires IsPowerOf2(p)
    ensures 1 <= p
  {
  }

  lemma PositiveIsPower(n: bv64)
    requires 1 <= n <= TopBit
    ensures IsPowerOf2(PowerOf2(n))
  {
    DecrementBelowTop(n);
    SmearLowOnes(n - 1);
    SmearBelowTop(n - 1);
    LowOnesSucc(Smear(n - 1));
  }

  lemma PositiveAtLeast(n: bv64)
    requires 1 <= n <= TopBit
    ensures n <= PowerOf2(n)
  {
    DecrementBelowTop(n);
    SmearReach(n - 1);
  }

  lemma SmearReach(m: bv64)
    requires m < TopBit
    ensures m + 1 <= Smear(m) + 1
  {
    SmearLowOnes(m);
    SmearCovers(m);
    SmearBelowTop(m);
    LowOnesReach(m, Smear(m));
  }

  lemma PositiveLeast(n: bv64, p: bv64)
    requires 1 <= n <= p && IsPowerOf2(p)
    ensures PowerOf2(n) <= p
  {
    UpToPower(n, p);
    if n == p {
      PowerOf2FixesPowers(p);
    } else {
      PowerOf2Below(n, p);
    }
  }

  lemma PowerOf2Below(n: bv64, p: bv64)
    requires n != 0 && IsPowerOf2(p) && n & !(p - 1) == 0
    ensures PowerOf2(n) <= p
  {
    PowerPred(p);
    MaskedPred(n, p - 1);
    SmearKeepsMask(n - 1, p - 1);
    MaskedBelow(Smear(n - 1), p);
  }

  /** The fixed points of power_of_2 are exactly the IS_POWER_OF_2 numbers. */
  lemma PowerOf2FixesPowers(n: bv64)
    requires IsPowerOf2(n)
    ensures PowerOf2(n) == n
  {
    PowerPred(n);
    SmearFixesLowOnes(n - 1);
  }

  lemma PowerOf2FixedIsPower(n: bv64)
    requires PowerOf2(n) == n
    ensures IsPowerOf2(n)
  {
    if n != 0 {
      SmearLowOnes(n - 1);
    }
  }

  /** Above 2^63 the final increment wraps round to zero. */
  lemma PowerOf2Overflow(n: bv64)
    requires n > TopBit
    ensures PowerOf2(n) == 0
  {
  }
}
