/** Python integers seen as bit strings.  A Python int is an infinite
    two's-complement bit string (a negative number has all its high bits
    set); the bitwise operators work bit by bit on those strings and the
    shifts move them.  Bit i of a bitboard stands for square i
    (a1 = 0, b1 = 1, ..., h8 = 63), and a bitboard is an int in 0 .. 2^64-1.
    `Has(b, i)` is the one notion every other module reasons with; the lemmas
    below translate each operator into it. */
module Bits {

  /** A board as Python keeps it: an int whose bit `i` marks square `i`. */
  type Bitboard = int

  /** 2 to the power `n`. */
  function Pow2(n: nat): (r: nat)
    ensures r > 0
  {
    if n == 0 then 1 else 2 * Pow2(n - 1)
  }

  /** Bit `i` of `b`: Python's `(b >> i) & 1 == 1`. */
  predicate Has(b: int, i: int)
    requires 0 <= i
    decreases i
  {
    if i == 0 then b % 2 == 1 else Has(b / 2, i - 1)
  }

  /** A bitboard: a Python int in 0 .. 2^64-1. */
  predicate IsBitboard(b: int) {
    0 <= b < 0x1_0000_0000_0000_0000
  }

  /** The magnitude that the bitwise recursions below shrink. */
  function Size(a: int): nat {
    if a < 0 then -a else a
  }

  /** Whether `a` is one of the two ints whose bit string is constant. */
  predicate Uniform(a: int) {
    a == 0 || a == -1
  }

  /** Python `a & b`. */
  function And(a: int, b: int): int
    decreases Size(a) + Size(b)
  {
    if Uniform(a) && Uniform(b) then (if a == -1 && b == -1 then -1 else 0)
    else 2 * And(a / 2, b / 2) + (if a % 2 == 1 && b % 2 == 1 then 1 else 0)
  }

  /** Python `a | b`. */
  function Or(a: int, b: int): int
    decreases Size(a) + Size(b)
  {
    if Uniform(a) && Uniform(b) then (if a == -1 || b == -1 then -1 else 0)
    else 2 * Or(a / 2, b / 2) + (if a % 2 == 1 || b % 2 == 1 then 1 else 0)
  }

  /** Python `a ^ b`. */
  function Xor(a: int, b: int): int
    decreases Size(a) + Size(b)
  {
    if Uniform(a) && Uniform(b) then (if a != b then -1 else 0)
    else 2 * Xor(a / 2, b / 2) + (if (a % 2 == 1) != (b % 2 == 1) then 1 else 0)
  }

  /** Python `~a`. */
  function Not(a: int): int {
    -a - 1
  }

  /** Python `a << n`. */
  function Shl(a: int, n: nat): int
    decreases n
  {
    if n == 0 then a else 2 * Shl(a, n - 1)
  }

  /** Python `a >> n`, which rounds toward minus infinity. */
  function Shr(a: int, n: nat): int
    decreases n
  {
    if n == 0 then a else Shr(a / 2, n - 1)
  }

  // ---- the operators, bit by bit ----

  lemma {:induction false} HasUniform(a: int, i: int)
    requires Uniform(a) && 0 <= i
    ensures Has(a, i) == (a == -1)
    decreases i
  {
    if i > 0 {
      HasUniform(a, i - 1);
    }
  }

  /** The bits of `2 * x + c` are `c` followed by the bits of `x`. */
  lemma {:induction false} HasTwice(x: int, c: int, i: int)
    requires 0 <= c <= 1 && 0 <= i
    ensures Has(2 * x + c, i) == if i == 0 then c == 1 else Has(x, i - 1)
  {
    assert (2 * x + c) / 2 == x;
  }

  lemma {:induction false} HasAnd(a: int, b: int, i: int)
    requires 0 <= i
    ensures Has(And(a, b), i) == (Has(a, i) && Has(b, i))
    decreases i
  {
    if Uniform(a) && Uniform(b) {
      HasUniform(a, i);
      HasUniform(b, i);
      HasUniform(And(a, b), i);
    } else {
      HasTwice(And(a / 2, b / 2), if a % 2 == 1 && b % 2 == 1 then 1 else 0, i);
      if i > 0 {
        HasAnd(a / 2, b / 2, i - 1);
      }
    }
  }

  lemma {:induction false} HasOr(a: int, b: int, i: int)
    requires 0 <= i
    ensures Has(Or(a, b), i) == (Has(a, i) || Has(b, i))
    decreases i
  {
    if Uniform(a) && Uniform(b) {
      HasUniform(a, i);
      HasUniform(b, i);
      HasUniform(Or(a, b), i);
    } else {
      HasTwice(Or(a / 2, b / 2), if a % 2 == 1 || b % 2 == 1 then 1 else 0, i);
      if i > 0 {
        HasOr(a / 2, b / 2, i - 1);
      }
    }
  }

  lemma {:induction false} HasXor(a: int, b: int, i: int)
    requires 0 <= i
    ensures Has(Xor(a, b), i) == (Has(a, i) != Has(b, i))
    decreases i
  {
    if Uniform(a) && Uniform(b) {
      HasUniform(a, i);
      HasUniform(b, i);
      HasUniform(Xor(a, b), i);
    } else {
      HasTwice(Xor(a / 2, b / 2), if (a % 2 == 1) != (b % 2 == 1) then 1 else 0, i);
      if i > 0 {
        HasXor(a / 2, b / 2, i - 1);
      }
    }
  }

  lemma {:induction false} HasNot(a: int, i: int)
    requires 0 <= i
    ensures Has(Not(a), i) == !Has(a, i)
    decreases i
  {
    if i > 0 {
      assert Not(a) / 2 == Not(a / 2);
      HasNot(a / 2, i - 1);
    }
  }

  lemma {:induction false} HasShl(a: int, n: nat, i: int)
    requires 0 <= i
    ensures Has(Shl(a, n), i) == (i >= n && Has(a, i - n))
    decreases n
  {
    if n > 0 {
      HasTwice(Shl(a, n - 1), 0, i);
      if i > 0 {
        HasShl(a, n - 1, i - 1);
      }
    }
  }

  lemma {:induction false} HasShr(a: int, n: nat, i: int)
    requires 0 <= i
    ensures Has(Shr(a, n), i) == Has(a, i + n)
    decreases n
  {
    if n > 0 {
      HasShr(a / 2, n - 1, i);
    }
  }

  /** Shifting a non-negative int right never makes it negative or larger. */
  lemma {:induction false} ShrRange(a: int, n: nat)
    requires 0 <= a
    ensures 0 <= Shr(a, n) <= a
    decreases n
  {
    if n > 0 {
      ShrRange(a / 2, n - 1);
    }
  }

  lemma {:induction false} HasPow2(s: nat, i: int)
    requires 0 <= i
    ensures Has(Pow2(s), i) == (s == i)
    decreases s
  {
    if s == 0 {
      if i > 0 {
        HasZero(i - 1);
      }
    } else {
      HasTwice(Pow2(s - 1), 0, i);
      if i > 0 {
        HasPow2(s - 1, i - 1);
      }
    }
  }

  lemma {:induction false} HasZero(i: int)
    requires 0 <= i
    ensures !Has(0, i)
  {
    HasUniform(0, i);
  }

  // ---- sizes ----

  lemma Pow8()
    ensures Pow2(8) == 256
  {
    assert Pow2(2) == 4;
    assert Pow2(4) == 16;
    assert Pow2(6) == 64;
  }

  lemma Pow16()
    ensures Pow2(16) == 0x10000
  {
    assert Pow2(1) == 0x2;
    assert Pow2(2) == 0x4;
    assert Pow2(3) == 0x8;
    assert Pow2(4) == 0x10;
    assert Pow2(5) == 0x20;
    assert Pow2(6) == 0x40;
    assert Pow2(7) == 0x80;
    assert Pow2(8) == 0x100;
    assert Pow2(9) == 0x200;
    assert Pow2(10) == 0x400;
    assert Pow2(11) == 0x800;
    assert Pow2(12) == 0x1000;
    assert Pow2(13) == 0x2000;
    assert Pow2(14) == 0x4000;
    assert Pow2(15) == 0x8000;
    assert Pow2(16) == 0x10000;
  }

  lemma Pow32()
    ensures Pow2(32) == 0x100000000
  {
    Pow16();
    assert Pow2(17) == 0x20000;
    assert Pow2(18) == 0x40000;
    assert Pow2(19) == 0x80000;
    assert Pow2(20) == 0x100000;
    assert Pow2(21) == 0x200000;
    assert Pow2(22) == 0x400000;
    assert Pow2(23) == 0x800000;
    assert Pow2(24) == 0x1000000;
    assert Pow2(25) == 0x2000000;
    assert Pow2(26) == 0x4000000;
    assert Pow2(27) == 0x8000000;
    assert Pow2(28) == 0x10000000;
    assert Pow2(29) == 0x20000000;
    assert Pow2(30) == 0x40000000;
    assert Pow2(31) == 0x80000000;
    assert Pow2(32) == 0x100000000;
  }

  lemma Pow48()
    ensures Pow2(48) == 0x1000000000000
  {
    Pow32();
    assert Pow2(33) == 0x200000000;
    assert Pow2(34) == 0x400000000;
    assert Pow2(35) == 0x800000000;
    assert Pow2(36) == 0x1000000000;
    assert Pow2(37) == 0x2000000000;
    assert Pow2(38) == 0x4000000000;
    assert Pow2(39) == 0x8000000000;
    assert Pow2(40) == 0x10000000000;
    assert Pow2(41) == 0x20000000000;
    assert Pow2(42) == 0x40000000000;
    assert Pow2(43) == 0x80000000000;
    assert Pow2(44) == 0x100000000000;
    assert Pow2(45) == 0x200000000000;
    assert Pow2(46) == 0x400000000000;
    assert Pow2(47) == 0x800000000000;
    assert Pow2(48) == 0x1000000000000;
  }

  lemma Pow64()
    ensures Pow2(64) == 0x10000000000000000
  {
    Pow48();
    assert Pow2(49) == 0x2000000000000;
    assert Pow2(50) == 0x4000000000000;
    assert Pow2(51) == 0x8000000000000;
    assert Pow2(52) == 0x10000000000000;
    assert Pow2(53) == 0x20000000000000;
    assert Pow2(54) == 0x40000000000000;
    assert Pow2(55) == 0x80000000000000;
    assert Pow2(56) == 0x100000000000000;
    assert Pow2(57) == 0x200000000000000;
    assert Pow2(58) == 0x400000000000000;
    assert Pow2(59) == 0x800000000000000;
    assert Pow2(60) == 0x1000000000000000;
    assert Pow2(61) == 0x2000000000000000;
    assert Pow2(62) == 0x4000000000000000;
    assert Pow2(63) == 0x8000000000000000;
    assert Pow2(64) == 0x10000000000000000;
  }

  /** A number below `2^n` has no bit at or above `n`. */
  lemma {:induction false} HasBelow(b: int, n: nat, i: int)
    requires 0 <= b < Pow2(n) && n <= i
    ensures !Has(b, i)
    decreases n
  {
    if n == 0 {
      HasZero(i);
    } else if i > 0 {
      HasBelow(b / 2, n - 1, i - 1);
    } else {
    }
  }

  lemma {:induction false} AndRange(a: int, b: int)
    requires 0 <= b
    ensures 0 <= And(a, b) <= b
    decreases Size(a) + Size(b)
  {
    if !(Uniform(a) && Uniform(b)) {
      AndRange(a / 2, b / 2);
    }
  }

  lemma {:induction false} OrBelow(a: int, b: int, n: nat)
    requires 0 <= a < Pow2(n) && 0 <= b < Pow2(n)
    ensures 0 <= Or(a, b) < Pow2(n)
    decreases n
  {
    if n > 0 && !(Uniform(a) && Uniform(b)) {
      OrBelow(a / 2, b / 2, n - 1);
    }
  }

  lemma {:induction false} XorBelow(a: int, b: int, n: nat)
    requires 0 <= a < Pow2(n) && 0 <= b < Pow2(n)
    ensures 0 <= Xor(a, b) < Pow2(n)
    decreases n
  {
    if n > 0 && !(Uniform(a) && Uniform(b)) {
      XorBelow(a / 2, b / 2, n - 1);
    }
  }

  // ---- a number is determined by its bits ----

  lemma {:induction false} Extensional(a: int, b: int, n: nat)
    requires 0 <= a < Pow2(n) && 0 <= b < Pow2(n)
    requires forall i | 0 <= i < n :: Has(a, i) == Has(b, i)
    ensures a == b
    decreases n
  {
    if n > 0 {
      forall i | 0 <= i < n - 1
        ensures Has(a / 2, i) == Has(b / 2, i)
      {
        assert Has(a, i + 1) == Has(b, i + 1);
      }
      Extensional(a / 2, b / 2, n - 1);
      assert Has(a, 0) == Has(b, 0);
    }
  }

  /** An int is determined by its bits. */
  lemma {:induction false} BitsEqual(a: int, b: int)
    requires forall i | 0 <= i :: Has(a, i) == Has(b, i)
    ensures a == b
    decreases Size(a) + Size(b)
  {
    if Uniform(a) && Uniform(b) {
      HasUniform(a, 0);
      HasUniform(b, 0);
    } else {
      forall i | 0 <= i
        ensures Has(a / 2, i) == Has(b / 2, i)
      {
        assert Has(a, i + 1) == Has(b, i + 1);
      }
      BitsEqual(a / 2, b / 2);
      assert Has(a, 0) == Has(b, 0);
    }
  }

  /** An int is non-zero exactly when some bit is set. */
  lemma NonZero(b: int)
    ensures b != 0 <==> exists i :: 0 <= i && Has(b, i)
  {
    if forall i | 0 <= i :: !Has(b, i) {
      forall i | 0 <= i
        ensures Has(b, i) == Has(0, i)
      {
        HasZero(i);
      }
      BitsEqual(b, 0);
    } else {
      var i :| 0 <= i && Has(b, i);
      HasZero(i);
      assert exists j :: 0 <= j && Has(b, j);
    }
  }

  // ---- one step of each operator ----

  lemma AndStep(a: int, b: int)
    ensures And(a, b) == 2 * And(a / 2, b / 2) + (if a % 2 == 1 && b % 2 == 1 then 1 else 0)
  {
  }

  lemma XorStep(a: int, b: int)
    ensures Xor(a, b) == 2 * Xor(a / 2, b / 2) + (if (a % 2 == 1) != (b % 2 == 1) then 1 else 0)
  {
  }

  // ---- algebra ----

  lemma {:induction false} AndZero(a: int)
    ensures And(0, a) == 0 && And(a, 0) == 0
    decreases Size(a)
  {
    if !Uniform(a) {
      AndZero(a / 2);
    }
  }

  lemma OrZero(a: int)
    ensures Or(a, 0) == a && Or(0, a) == a
  {
    forall i | 0 <= i
      ensures Has(Or(a, 0), i) == Has(a, i) && Has(Or(0, a), i) == Has(a, i)
    {
      HasOr(a, 0, i);
      HasOr(0, a, i);
      HasZero(i);
    }
    BitsEqual(Or(a, 0), a);
    BitsEqual(Or(0, a), a);
  }

  lemma OrAssoc(a: int, b: int, c: int)
    ensures Or(Or(a, b), c) == Or(a, Or(b, c))
  {
    forall i | 0 <= i
      ensures Has(Or(Or(a, b), c), i) == Has(Or(a, Or(b, c)), i)
    {
      HasOr(Or(a, b), c, i);
      HasOr(a, b, i);
      HasOr(a, Or(b, c), i);
      HasOr(b, c, i);
    }
    BitsEqual(Or(Or(a, b), c), Or(a, Or(b, c)));
  }

  lemma OrComm(a: int, b: int)
    ensures Or(a, b) == Or(b, a)
  {
    forall i | 0 <= i
      ensures Has(Or(a, b), i) == Has(Or(b, a), i)
    {
      HasOr(a, b, i);
      HasOr(b, a, i);
    }
    BitsEqual(Or(a, b), Or(b, a));
  }

  lemma AndComm(a: int, b: int)
    ensures And(a, b) == And(b, a)
  {
    forall i | 0 <= i
      ensures Has(And(a, b), i) == Has(And(b, a), i)
    {
      HasAnd(a, b, i);
      HasAnd(b, a, i);
    }
    BitsEqual(And(a, b), And(b, a));
  }

  // ---- lowest bit, bit length and population count ----

  /** The index of the lowest set bit of a non-zero int. */
  function LowestBit(x: int): nat
    requires x != 0
    decreases Size(x)
  {
    if x % 2 == 1 then 0 else 1 + LowestBit(x / 2)
  }

  lemma {:induction false} HasLowest(x: int)
    requires x != 0
    ensures Has(x, LowestBit(x))
    ensures forall i | 0 <= i < LowestBit(x) :: !Has(x, i)
    decreases Size(x)
  {
    if x % 2 == 0 {
      HasLowest(x / 2);
      forall i | 0 < i < LowestBit(x)
        ensures !Has(x, i)
      {
        assert Has(x, i) == Has(x / 2, i - 1);
      }
    }
  }

  /** Subtracting one clears the lowest set bit and sets every bit below it. */
  lemma {:induction false} HasPredecessor(x: int, i: int)
    requires x != 0 && 0 <= i
    ensures Has(x - 1, i) == if i < LowestBit(x) then true else if i == LowestBit(x) then false else Has(x, i)
    decreases Size(x)
  {
    if x % 2 == 1 {
      assert (x - 1) / 2 == x / 2;
    } else {
      assert (x - 1) / 2 == x / 2 - 1;
      if i > 0 {
        HasPredecessor(x / 2, i - 1);
      }
    }
  }

  /** `x & (x - 1)` is `x` without its lowest set bit. */
  lemma ClearLowest(x: int, i: int)
    requires x != 0 && 0 <= i
    ensures Has(And(x, x - 1), i) == (Has(x, i) && i != LowestBit(x))
  {
    HasAnd(x, x - 1, i);
    HasPredecessor(x, i);
    HasLowest(x);
  }

  /** `x & -x` is the lowest set bit of `x` alone. */
  lemma IsolateLowest(x: int)
    requires x != 0
    ensures And(x, -x) == Pow2(LowestBit(x))
  {
    HasLowest(x);
    forall i | 0 <= i
      ensures Has(And(x, -x), i) == Has(Pow2(LowestBit(x)), i)
    {
      assert -x == Not(x - 1);
      HasAnd(x, -x, i);
      HasNot(x - 1, i);
      HasPredecessor(x, i);
      HasPow2(LowestBit(x), i);
    }
    BitsEqual(And(x, -x), Pow2(LowestBit(x)));
  }

  /** Python's `int.bit_length`: the number of bits of `|x|`. */
  function BitLength(x: int): nat
    decreases Size(x), if x < 0 then 1 else 0
  {
    if x == 0 then 0 else if x < 0 then BitLength(-x) else 1 + BitLength(x / 2)
  }

  /** The highest set bit of a positive int is bit `BitLength(x) - 1`. */
  lemma {:induction false} HasHighest(x: int, i: int)
    requires 0 < x && 0 <= i
    ensures Has(x, BitLength(x) - 1)
    ensures i >= BitLength(x) ==> !Has(x, i)
    decreases x
  {
    if x / 2 == 0 {
      if i > 0 {
        HasZero(i - 1);
      }
    } else {
      HasHighest(x / 2, if i > 0 then i - 1 else 0);
    }
  }

  lemma {:induction false} BitLengthBound(x: int, n: nat)
    requires 0 <= x < Pow2(n)
    ensures BitLength(x) <= n
    decreases n
  {
    if n > 0 && x > 0 {
      BitLengthBound(x / 2, n - 1);
    }
  }

  lemma {:induction false} BitLengthPow2(k: nat)
    ensures BitLength(Pow2(k)) == k + 1
    decreases k
  {
    if k > 0 {
      BitLengthPow2(k - 1);
    }
  }

  /** The number of set bits of a non-negative int. */
  function Ones(x: int): nat
    requires 0 <= x
    decreases x
  {
    if x == 0 then 0 else x % 2 + Ones(x / 2)
  }

  lemma {:induction false} OnesZero(x: int)
    requires 0 <= x
    ensures Ones(x) == 0 <==> x == 0
    decreases x
  {
    if x > 0 && x % 2 == 0 {
      OnesZero(x / 2);
    }
  }

  lemma OnesTwice(y: int, c: int)
    requires 0 <= y && 0 <= c <= 1
    ensures Ones(2 * y + c) == c + Ones(y)
  {
    assert (2 * y + c) / 2 == y && (2 * y + c) % 2 == c;
  }

  /** Exactly one bit is set when the highest and the lowest set bits coincide. */
  lemma {:induction false} OneBit(x: int)
    requires 0 < x
    ensures Ones(x) == 1 <==> BitLength(x) == LowestBit(x) + 1
    decreases x
  {
    if x % 2 == 0 {
      OneBit(x / 2);
    } else {
      OnesZero(x / 2);
    }
  }

  lemma XorZero(a: int)
    ensures Xor(a, 0) == a
  {
    forall i | 0 <= i
      ensures Has(Xor(a, 0), i) == Has(a, i)
    {
      HasXor(a, 0, i);
      HasZero(i);
    }
    BitsEqual(Xor(a, 0), a);
  }

  lemma ClearBitZero(x: int)
    requires x % 2 == 1
    ensures Xor(x, 1) == 2 * (x / 2)
  {
    XorStep(x, 1);
    XorZero(x / 2);
  }

  lemma ClearBitStep(x: int, k: nat)
    requires 0 < k
    ensures Xor(x, Pow2(k)) == 2 * Xor(x / 2, Pow2(k - 1)) + x % 2
  {
    var p := Pow2(k);
    assert p / 2 == Pow2(k - 1) && p % 2 == 0;
    XorStep(x, p);
  }

  /** Toggling a set bit off subtracts its value. */
  lemma {:induction false} XorBitIsSub(x: int, k: nat)
    requires Has(x, k)
    ensures Xor(x, Pow2(k)) == x - Pow2(k)
    decreases k
  {
    if k == 0 {
      ClearBitZero(x);
    } else {
      ClearBitStep(x, k);
      XorBitIsSub(x / 2, k - 1);
    }
  }

  lemma {:induction false} OnesSub(x: int, k: nat)
    requires 0 <= x && Has(x, k)
    ensures 0 <= x - Pow2(k)
    ensures Ones(x - Pow2(k)) == Ones(x) - 1
    decreases k, 1
  {
    if k == 0 {
      OnesTwice(x / 2, 0);
      OnesTwice(x / 2, 1);
    } else {
      OnesSubStep(x, k);
    }
  }

  lemma OnesSubStep(x: int, k: nat)
    requires 0 <= x && Has(x, k) && k > 0
    ensures 0 <= x - Pow2(k)
    ensures Ones(x - Pow2(k)) == Ones(x) - 1
    decreases k, 0
  {
    var h := Pow2(k - 1);
    var y := x / 2;
    var c := x % 2;
    assert Has(y, k - 1);
    OnesSub(y, k - 1);
    assert Pow2(k) == 2 * h;
    assert x - Pow2(k) == 2 * (y - h) + c;
    OnesTwice(y - h, c);
    OnesTwice(y, c);
    assert x == 2 * y + c;
  }

  /** Clearing a set bit lowers the count by one and keeps the value non-negative. */
  lemma ClearBit(x: int, k: nat)
    requires 0 <= x && Has(x, k)
    ensures 0 <= Xor(x, Pow2(k)) < x
    ensures Ones(Xor(x, Pow2(k))) == Ones(x) - 1
  {
    XorBitIsSub(x, k);
    OnesSub(x, k);
  }

  // ---- constant masks: runs of ones and repeated patterns ----

  /** `2^k - 1` holds exactly bits `0 .. k-1`. */
  lemma {:induction false} HasLowOnes(k: nat, i: int)
    requires 0 <= i
    ensures Has(Pow2(k) - 1, i) == (i < k)
    decreases k
  {
    if k == 0 {
      HasZero(i);
    } else {
      HasTwice(Pow2(k - 1) - 1, 1, i);
      if i > 0 {
        HasLowOnes(k - 1, i - 1);
      }
    }
  }

  /** `n` copies of the `w`-bit pattern `block`, lowest copy first. */
  function Repeat(block: int, w: nat, n: nat): int
    decreases n
  {
    if n == 0 then 0 else block + Shl(Repeat(block, w, n - 1), w)
  }

  /** The bits of `c + (x << w)`, for `c` below `2^w`: those of `c`, then those of `x`. */
  lemma {:induction false} HasLowHigh(c: int, x: int, w: nat, i: int)
    requires 0 <= c < Pow2(w) && 0 <= i
    ensures Has(c + Shl(x, w), i) == if i < w then Has(c, i) else Has(x, i - w)
    decreases w
  {
    if w == 0 {
    } else {
      assert (c + Shl(x, w)) / 2 == c / 2 + Shl(x, w - 1);
      if i > 0 {
        HasLowHigh(c / 2, x, w - 1, i - 1);
      }
    }
  }

  /** Position `i` lies within the first `n` copies of a `w`-bit pattern,
      at offset `Offset(i, w)` inside its copy. */
  predicate InCopies(i: int, w: nat, n: nat)
    requires 0 < w
    decreases n
  {
    n > 0 && 0 <= i && (i < w || InCopies(i - w, w, n - 1))
  }

  function Offset(i: int, w: nat): (r: int)
    requires 0 < w && 0 <= i
    ensures 0 <= r < w
    decreases i
  {
    if i < w then i else Offset(i - w, w)
  }

  lemma {:induction false} HasRepeat(block: int, w: nat, n: nat, i: int)
    requires 0 <= block < Pow2(w) && 0 < w && 0 <= i
    ensures Has(Repeat(block, w, n), i) == (InCopies(i, w, n) && Has(block, Offset(i, w)))
    decreases n
  {
    if n == 0 {
      HasZero(i);
    } else {
      HasLowHigh(block, Repeat(block, w, n - 1), w, i);
      if i >= w {
        HasRepeat(block, w, n - 1, i - w);
      }
    }
  }

  lemma {:induction false} CopiesBound(i: int, w: nat, n: nat)
    requires 0 <= i && 0 < w
    ensures InCopies(i, w, n) == (i < w * n)
    decreases i
  {
    if i >= w && n > 0 {
      CopiesBound(i - w, w, n - 1);
    }
  }

  lemma ModStep(i: int, w: int)
    requires w == 2 || w == 4 || w == 8 || w == 16 || w == 32
    requires w <= i
    ensures i % w == (i - w) % w
  {
    var q, r := (i - w) / w, (i - w) % w;
    assert i == w * (q + 1) + r && 0 <= r < w;
    ModUnique(i, w, q + 1, r);
  }

  /** The remainder is the one `r` with `i == w * q + r` and `0 <= r < w`. */
  lemma ModUnique(i: int, w: int, q: int, r: int)
    requires 0 < w && i == w * q + r && 0 <= r < w
    ensures i % w == r
  {
    var q', r' := i / w, i % w;
    assert w * q + r == w * q' + r';
    if q' > q {
      MulAtLeast(w, q' - q);
    } else if q' < q {
      MulAtLeast(w, q - q');
    }
  }

  lemma MulAtLeast(w: int, k: int)
    requires 0 < w && 1 <= k
    ensures w * k >= w
  {
    assert w * k == w * (k - 1) + w;
    MulNonNeg(w, k - 1);
  }

  lemma MulNonNeg(a: int, b: int)
    requires 0 <= a && 0 <= b
    ensures 0 <= a * b
  {
  }

  lemma {:induction false} OffsetMod(i: int, w: nat)
    requires w == 2 || w == 4 || w == 8 || w == 16 || w == 32
    requires 0 <= i
    ensures Offset(i, w) == i % w
    decreases i
  {
    if i >= w {
      OffsetMod(i - w, w);
      ModStep(i, w);
    }
  }

  lemma {:induction false} ShlMul(x: int, n: nat)
    ensures Shl(x, n) == x * Pow2(n)
    decreases n
  {
    if n > 0 {
      ShlMul(x, n - 1);
    }
  }


  // ---- masks given rank by rank ----

  /** The 64-bit mask whose byte `r` (rank `r` of a board) is `bytes[r]`. */
  function Rows(bytes: seq<int>): int
    decreases |bytes|
  {
    if |bytes| == 0 then 0 else bytes[0] + 256 * Rows(bytes[1..])
  }

  predicate Bytes(bytes: seq<int>) {
    forall k | 0 <= k < |bytes| :: 0 <= bytes[k] < 256
  }

  /** Bit `i` of a row mask is bit `i % 8` of byte `i / 8`. */
  lemma {:induction false} HasRows(bytes: seq<int>, i: int)
    requires Bytes(bytes) && 0 <= i
    ensures Has(Rows(bytes), i) == (i < 8 * |bytes| && Has(bytes[i / 8], i % 8))
    decreases |bytes|
  {
    if |bytes| == 0 {
      HasZero(i);
    } else {
      var rest := Rows(bytes[1..]);
      Pow8();
      ShlMul(rest, 8);
      HasLowHigh(bytes[0], rest, 8, i);
      if i >= 8 {
        HasRows(bytes[1..], i - 8);
        ModStep(i, 8);
        assert i == 8 * (i / 8) + i % 8 && i - 8 == 8 * ((i - 8) / 8) + (i - 8) % 8;
      }
    }
  }

  // ---- bits confined to the board ----

  /** Every set bit of `x` is a board square. */
  ghost predicate Within(x: int) {
    forall j | 0 <= j :: Has(x, j) ==> j < 64
  }

  /** A negative int sets every bit from its magnitude up. */
  lemma {:induction false} NegativeHigh(x: int, j: int)
    requires x < 0 && Size(x) <= j
    ensures Has(x, j)
    decreases j
  {
    if x == -1 {
      HasUniform(x, j);
    } else {
      NegativeHigh(x / 2, j - 1);
    }
  }

  lemma WithinIsBitboard(x: int)
    requires Within(x)
    ensures IsBitboard(x)
  {
    if x < 0 {
      NegativeHigh(x, Size(x) + 64);
    }
    Pow64();
    if x >= Pow2(64) {
      BitLengthAbove(x, 64);
      HasHighest(x, 0);
    }
  }

  /** An int at least `2^n` has more than `n` bits. */
  lemma {:induction false} BitLengthAbove(x: int, n: nat)
    requires Pow2(n) <= x
    ensures n < BitLength(x)
    decreases n
  {
    if n > 0 {
      BitLengthAbove(x / 2, n - 1);
    }
  }

  lemma BitboardWithin(x: int)
    requires IsBitboard(x)
    ensures Within(x)
  {
    Pow64();
    forall j | 0 <= j && Has(x, j)
      ensures j < 64
    {
      if j >= 64 {
        HasBelow(x, 64, j);
      }
    }
  }

  // ---- counting set bits ----

  /** The set bits of `x` among positions `0 .. n-1`. */
  ghost function BitSet(x: int, n: nat): set<int> {
    set i | 0 <= i < n && Has(x, i)
  }

  ghost predicate Injective(s: set<int>, f: int -> int) {
    forall a, b | a in s && b in s && f(a) == f(b) :: a == b
  }

  /** An injective map keeps the size of a set of positions below `n`. */
  lemma {:induction false} ImageCard(s: set<int>, f: int -> int, n: nat)
    requires forall a | a in s :: 0 <= a < n
    requires Injective(s, f)
    ensures |(set a | a in s :: f(a))| == |s|
    decreases n
  {
    if n == 0 {
      forall x
        ensures x !in s
      {
      }
      assert s == {};
      assert (set a | a in s :: f(a)) == {};
    } else {
      var r := s - {n - 1};
      ImageCard(r, f, n - 1);
      var image := set a | a in r :: f(a);
      if n - 1 in s {
        forall a | a in r
          ensures f(a) != f(n - 1)
        {
          assert a in s && a != n - 1;
        }
        assert f(n - 1) !in image;
        assert (set a | a in s :: f(a)) == image + {f(n - 1)};
        assert s == r + {n - 1};
      } else {
        assert r == s;
      }
    }
  }

  function Succ(i: int): int {
    i + 1
  }

  /** A set of positions moved one place up. */
  ghost function Shifted(s: set<int>): set<int> {
    set i | i in s :: Succ(i)
  }

  /** The set bits of `2y + c` are bit 0 when `c` is 1, and those of `y`
      one place up. */
  lemma BitSetStep(x: int, n: nat)
    requires 0 <= x && 0 < n
    ensures BitSet(x, n) == (if x % 2 == 1 then {0} else {}) + Shifted(BitSet(x / 2, n - 1))
  {
    var moved := Shifted(BitSet(x / 2, n - 1));
    forall i
      ensures i in BitSet(x, n) <==> i in (if x % 2 == 1 then {0} else {}) + moved
    {
      if 0 <= i {
        HasTwice(x / 2, x % 2, i);
        assert x == 2 * (x / 2) + x % 2;
      }
      if i > 0 {
        assert Succ(i - 1) == i;
        assert i in moved <==> i - 1 in BitSet(x / 2, n - 1);
      }
    }
  }

  /** Moving a set of positions one place up keeps its size. */
  lemma SuccCard(s: set<int>, n: nat)
    requires forall a | a in s :: 0 <= a < n
    ensures |Shifted(s)| == |s|
  {
    var succ: int -> int := Succ;
    assert Injective(s, succ);
    ImageCard(s, succ, n);
    assert Shifted(s) == (set i | i in s :: succ(i));
  }

  /** The size of the set bits below `n` of `2y + c` is `c` plus those of `y`. */
  lemma BitSetCard(x: int, n: nat)
    requires 0 <= x && 0 < n
    ensures |BitSet(x, n)| == x % 2 + |BitSet(x / 2, n - 1)|
  {
    var low: set<int> := if x % 2 == 1 then {0} else {};
    var moved := Shifted(BitSet(x / 2, n - 1));
    BitSetStep(x, n);
    SuccCard(BitSet(x / 2, n - 1), n - 1);
    assert 0 !in moved;
    assert low * moved == {};
    assert |low + moved| == |low| + |moved|;
    assert |low| == x % 2;
    assert |moved| == |BitSet(x / 2, n - 1)|;
    assert BitSet(x, n) == low + moved;
  }

  /** `Ones` counts the set bits. */
  lemma {:induction false} OnesIsCard(x: int, n: nat)
    requires 0 <= x < Pow2(n)
    ensures Ones(x) == |BitSet(x, n)|
    decreases n
  {
    if n == 0 {
      forall i
        ensures i !in BitSet(x, n)
      {
      }
      assert BitSet(x, n) == {};
    } else {
      OnesIsCard(x / 2, n - 1);
      BitSetCard(x, n);
      OnesTwice(x / 2, x % 2);
      assert x == 2 * (x / 2) + x % 2;
    }
  }

  /** Moving the bits of a board by an involution of the squares keeps
      their number. */
  lemma PermutedOnes(x: int, y: int, move: int -> int)
    requires IsBitboard(x) && IsBitboard(y)
    requires forall t | 0 <= t < 64 :: 0 <= move(t) < 64 && move(move(t)) == t
    requires forall t | 0 <= t < 64 :: Has(y, move(t)) == Has(x, t)
    ensures Ones(y) == Ones(x)
  {
    Pow64();
    OnesIsCard(x, 64);
    OnesIsCard(y, 64);
    forall t
      ensures t in BitSet(y, 64) <==> t in (set a | a in BitSet(x, 64) :: move(a))
    {
      if 0 <= t < 64 && Has(y, t) {
        assert move(t) in BitSet(x, 64) by {
          assert Has(y, move(move(t))) == Has(x, move(t));
        }
      }
    }
    assert BitSet(y, 64) == (set a | a in BitSet(x, 64) :: move(a));
    ImageCard(BitSet(x, 64), move, 64);
  }
}
