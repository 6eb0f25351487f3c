/** Subsets of a bit mask, and the carry-rippler step that enumerates them.
    The subsets of a mask with `k` set bits are numbered 0 .. 2^k - 1 by
    `Compress`, which packs the bits a subset keeps at the mask's positions;
    one carry-rippler step `(s - mask) & mask` adds one to that number. */
module Subsets {
  import opened Bits

  /** `s` is a non-negative int that sets only bits `mask` sets. */
  predicate SubsetOf(s: int, mask: int)
    requires 0 <= mask
    decreases mask
  {
    if mask == 0 then s == 0
    else 0 <= s && (mask % 2 == 0 ==> s % 2 == 0) && SubsetOf(s / 2, mask / 2)
  }

  /** The number of a subset: the bits of `s` at the set positions of
      `mask`, packed from the lowest up.  There are 2^Ones(mask) numbers. */
  function Compress(s: int, mask: int): (r: nat)
    requires 0 <= mask
    ensures r < Pow2(Ones(mask))
    decreases mask
  {
    if mask == 0 then 0
    else if mask % 2 == 1 then s % 2 + 2 * Compress(s / 2, mask / 2)
    else Compress(s / 2, mask / 2)
  }

  /** One carry-rippler step with carry `c`: `(s + ~mask + c) & mask`.
      With `c == 1` this is Python's `(s - mask) & mask`. */
  function Ripple(s: int, mask: int, c: int): int {
    And(s + Not(mask) + c, mask)
  }

  lemma RippleIsSubtraction(s: int, mask: int)
    ensures Ripple(s, mask, 1) == And(s - mask, mask)
  {
  }

  /** A subset sets only bits the mask sets. */
  lemma {:induction false} SubsetHasBits(s: int, mask: int, i: int)
    requires 0 <= mask && SubsetOf(s, mask) && 0 <= i && Has(s, i)
    ensures Has(mask, i)
    decreases mask
  {
    if mask == 0 {
      HasZero(i);
    } else if i > 0 {
      SubsetHasBits(s / 2, mask / 2, i - 1);
    }
  }

  /** A non-negative int that sets only bits the mask sets is a subset. */
  lemma {:induction false} BitsGiveSubset(s: int, mask: int)
    requires 0 <= mask && 0 <= s
    requires forall i | 0 <= i :: Has(s, i) ==> Has(mask, i)
    ensures SubsetOf(s, mask)
    decreases mask
  {
    if mask == 0 {
      if s != 0 {
        NonZero(s);
        var i :| 0 <= i && Has(s, i);
        HasZero(i);
      }
    } else {
      assert Has(s, 0) ==> Has(mask, 0);
      forall i | 0 <= i && Has(s / 2, i) ensures Has(mask / 2, i) {
        assert Has(s, i + 1);
      }
      BitsGiveSubset(s / 2, mask / 2);
    }
  }

  /** Subsets in terms of bits: every bit `s` sets, `mask` sets. */
  lemma SubsetBits(s: int, mask: int)
    requires 0 <= mask
    ensures SubsetOf(s, mask) ==> 0 <= s && forall i | 0 <= i :: Has(s, i) ==> Has(mask, i)
    ensures (0 <= s && forall i | 0 <= i :: Has(s, i) ==> Has(mask, i)) ==> SubsetOf(s, mask)
  {
    if SubsetOf(s, mask) {
      assert 0 <= s by {
        if mask != 0 {
        }
      }
      forall i | 0 <= i && Has(s, i) ensures Has(mask, i) {
        SubsetHasBits(s, mask, i);
      }
    }
    if 0 <= s && forall i | 0 <= i :: Has(s, i) ==> Has(mask, i) {
      BitsGiveSubset(s, mask);
    }
  }

  /** The empty subset is number 0. */
  lemma {:induction false} EmptySubset(mask: int)
    requires 0 <= mask
    ensures SubsetOf(0, mask) && Compress(0, mask) == 0
    decreases mask
  {
    if mask != 0 {
      EmptySubset(mask / 2);
    }
  }

  /** Different subsets have different numbers. */
  lemma {:induction false} CompressInjective(s: int, t: int, mask: int)
    requires 0 <= mask && SubsetOf(s, mask) && SubsetOf(t, mask)
    requires Compress(s, mask) == Compress(t, mask)
    ensures s == t
    decreases mask
  {
    if mask != 0 {
      CompressInjective(s / 2, t / 2, mask / 2);
    }
  }

  /** Halving the sum `s + ~mask + c` when `mask` is odd: the carry out of
      the lowest bit goes on into the rest. */
  lemma OddHalf(s: int, mask: int, c: int)
    requires 0 <= mask && mask % 2 == 1 && (s % 2 == 0 || s % 2 == 1) && (c == 0 || c == 1)
    ensures (s + Not(mask) + c) / 2 == s / 2 + Not(mask / 2) + (s % 2 + c) / 2
    ensures (s + Not(mask) + c) % 2 == (s % 2 + c) % 2
  {
    var x := s + Not(mask) + c;
    assert x == 2 * (s / 2 + Not(mask / 2)) + (s % 2 + c);
  }

  /** Halving the sum when `mask` is even and `s` clears that bit. */
  lemma EvenHalf(s: int, mask: int, c: int)
    requires 0 <= mask && mask % 2 == 0 && s % 2 == 0 && (c == 0 || c == 1)
    ensures (s + Not(mask) + c) / 2 == s / 2 + Not(mask / 2) + c
  {
    var x := s + Not(mask) + c;
    assert x == 2 * (s / 2 + Not(mask / 2) + c) + 1 - c;
  }

  /** A ripple step with an even mask leaves the lowest bit clear and ripples
      the rest with the same carry. */
  lemma EvenRipple(s: int, mask: int, c: int)
    requires 0 < mask && mask % 2 == 0 && s % 2 == 0 && (c == 0 || c == 1)
    ensures Ripple(s, mask, c) == 2 * Ripple(s / 2, mask / 2, c)
  {
    var x := s + Not(mask) + c;
    EvenHalf(s, mask, c);
    AndStep(x, mask);
    assert And(x / 2, mask / 2) == Ripple(s / 2, mask / 2, c);
  }

  /** A ripple step with an odd mask: the lowest bit is `s`'s bit plus the
      carry, and the carry out ripples the rest. */
  lemma OddRipple(s: int, mask: int, c: int)
    requires 0 < mask && mask % 2 == 1 && (s % 2 == 0 || s % 2 == 1) && (c == 0 || c == 1)
    ensures Ripple(s, mask, c) == 2 * Ripple(s / 2, mask / 2, (s % 2 + c) / 2) + (s % 2 + c) % 2
  {
    var x := s + Not(mask) + c;
    OddHalf(s, mask, c);
    AndStep(x, mask);
    assert And(x / 2, mask / 2) == Ripple(s / 2, mask / 2, (s % 2 + c) / 2);
    assert (if x % 2 == 1 && mask % 2 == 1 then 1 else 0) == (s % 2 + c) % 2;
  }

  /** What one ripple step does to the number of a subset. */
  predicate StepNumbers(s: int, mask: int, c: int)
    requires 0 <= mask
  {
    SubsetOf(Ripple(s, mask, c), mask) &&
    (Compress(s, mask) + c == Pow2(Ones(mask)) ==> Compress(Ripple(s, mask, c), mask) == 0) &&
    (Compress(s, mask) + c != Pow2(Ones(mask)) ==> Compress(Ripple(s, mask, c), mask) == Compress(s, mask) + c)
  }

  /** The carry-rippler step: rippling a subset with carry `c` gives a subset
      whose number is one more (for `c == 1`), or 0 after the last subset. */
  lemma {:induction false} RippleStep(s: int, mask: int, c: int)
    requires 0 <= mask && SubsetOf(s, mask) && (c == 0 || c == 1)
    ensures StepNumbers(s, mask, c)
    decreases mask
  {
    if mask == 0 {
      AndComm(s + Not(mask) + c, 0);
    } else if mask % 2 == 1 {
      RippleStep(s / 2, mask / 2, (s % 2 + c) / 2);
      OddRipple(s, mask, c);
      RippleOddNumber(s, mask, c);
    } else {
      RippleStep(s / 2, mask / 2, c);
      EvenRipple(s, mask, c);
      RippleEvenNumber(s, mask, c);
    }
  }

  /** The arithmetic of the even case of `RippleStep`, given the step below. */
  lemma RippleEvenNumber(s: int, mask: int, c: int)
    requires 0 < mask && mask % 2 == 0 && SubsetOf(s, mask) && (c == 0 || c == 1)
    requires Ripple(s, mask, c) == 2 * Ripple(s / 2, mask / 2, c)
    requires StepNumbers(s / 2, mask / 2, c)
    ensures StepNumbers(s, mask, c)
  {
    hide Ripple, And, Not;
    var r := Ripple(s, mask, c);
    var low := Ripple(s / 2, mask / 2, c);
    assert r / 2 == low && r % 2 == 0;
    assert Ones(mask) == Ones(mask / 2);
    assert Compress(s, mask) == Compress(s / 2, mask / 2);
    assert Compress(r, mask) == Compress(low, mask / 2);
    assert SubsetOf(low, mask / 2);
  }

  /** The arithmetic of the odd case of `RippleStep`, given the step below. */
  lemma RippleOddNumber(s: int, mask: int, c: int)
    requires 0 < mask && mask % 2 == 1 && SubsetOf(s, mask) && (c == 0 || c == 1)
    requires Ripple(s, mask, c) == 2 * Ripple(s / 2, mask / 2, (s % 2 + c) / 2) + (s % 2 + c) % 2
    requires StepNumbers(s / 2, mask / 2, (s % 2 + c) / 2)
    ensures StepNumbers(s, mask, c)
  {
    hide Ripple, And, Not;
    var r := Ripple(s, mask, c);
    var c' := (s % 2 + c) / 2;
    var low := Ripple(s / 2, mask / 2, c');
    assert r / 2 == low && r % 2 == (s % 2 + c) % 2;
    assert Ones(mask) == 1 + Ones(mask / 2);
    assert Pow2(Ones(mask)) == 2 * Pow2(Ones(mask / 2));
    assert Compress(s, mask) == s % 2 + 2 * Compress(s / 2, mask / 2);
    assert Compress(r, mask) == r % 2 + 2 * Compress(low, mask / 2);
    assert SubsetOf(low, mask / 2);
  }

  /** Only the empty subset has number 0. */
  lemma NonEmptyNumber(s: int, mask: int)
    requires 0 <= mask && SubsetOf(s, mask) && s != 0
    ensures Compress(s, mask) != 0
  {
    EmptySubset(mask);
    if Compress(s, mask) == 0 {
      CompressInjective(s, 0, mask);
    }
  }

  /** Masking any int with a mask gives a subset of the mask. */
  lemma AndIsSubset(mask: int, x: int)
    requires 0 <= mask
    ensures SubsetOf(And(mask, x), mask)
  {
    AndComm(mask, x);
    AndRange(x, mask);
    forall i | 0 <= i && Has(And(mask, x), i) ensures Has(mask, i) {
      HasAnd(mask, x, i);
    }
    BitsGiveSubset(And(mask, x), mask);
  }
}
