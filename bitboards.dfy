/** The bit primitives of `BitboardManager`: the board shifts, the lowest and
    highest set bit, the two set-bit scans and the four mirror networks.
    The manager keeps no state, so each operation is a function of its
    argument; the scans, which are `while` loops, are methods. */
module Bitboards {
  import opened Bits
  import opened Computer

  // ---- shifts ----

  /** `shift_down`: every square one rank down; rank 1 falls off. */
  function ShiftDown(b: Bitboard): Bitboard {
    Shr(b, 8)
  }

  function Shift2Down(b: Bitboard): Bitboard {
    Shr(b, 16)
  }

  /** `shift_up`: every square one rank up, cut back to 64 bits. */
  function ShiftUp(b: Bitboard): Bitboard {
    And(Shl(b, 8), BB_ALL)
  }

  function Shift2Up(b: Bitboard): Bitboard {
    And(Shl(b, 16), BB_ALL)
  }

  /** `shift_right`: every square one file right; what wrapped onto file a is cleared. */
  function ShiftRight(b: Bitboard): Bitboard {
    And(And(Shl(b, 1), Not(FileBB(0))), BB_ALL)
  }

  /** `shift_2_right` as written: clears files a and c of `b << 2`. */
  function Shift2Right(b: Bitboard): Bitboard {
    And(And(And(Shl(b, 2), Not(FileBB(0))), Not(FileBB(2))), BB_ALL)
  }

  /** `shift_2_right` as evidently intended: clears files a and b, the two
      files a shift by two squares wraps onto. */
  function Shift2RightIntended(b: Bitboard): Bitboard {
    And(And(And(Shl(b, 2), Not(FileBB(0))), Not(FileBB(1))), BB_ALL)
  }

  function ShiftLeft(b: Bitboard): Bitboard {
    And(Shr(b, 1), Not(FileBB(-1)))
  }

  function Shift2Left(b: Bitboard): Bitboard {
    And(And(Shr(b, 2), Not(FileBB(-2))), Not(FileBB(-1)))
  }

  function ShiftUpLeft(b: Bitboard): Bitboard {
    And(And(Shl(b, 7), Not(FileBB(-1))), BB_ALL)
  }

  function ShiftUpRight(b: Bitboard): Bitboard {
    And(And(Shl(b, 9), Not(FileBB(0))), BB_ALL)
  }

  function ShiftDownLeft(b: Bitboard): Bitboard {
    And(Shr(b, 9), Not(FileBB(-1)))
  }

  function ShiftDownRight(b: Bitboard): Bitboard {
    And(Shr(b, 7), Not(FileBB(0)))
  }

  /** Bit `t` of `(b << n) & BB_ALL`. */
  lemma ShiftUpPlainBits(b: int, n: nat, t: int)
    requires 0 <= t
    ensures Has(And(Shl(b, n), BB_ALL), t) == (n <= t < 64 && Has(b, t - n))
    ensures IsBitboard(And(Shl(b, n), BB_ALL))
  {
    hide And, Shl;
    HasAnd(Shl(b, n), BB_ALL, t);
    HasShl(b, n, t);
    HasAll(t);
    AndRange(Shl(b, n), BB_ALL);
  }

  /** Bit `t` of `(b << n) & ~file & BB_ALL`, the pattern of the upward and
      rightward shifts. */
  lemma ShiftUpBits(b: int, n: nat, file: int, t: int)
    requires -8 <= file < 8 && 0 <= t
    ensures Has(And(And(Shl(b, n), Not(FileBB(file))), BB_ALL), t)
        == (n <= t < 64 && File(t) != (if file < 0 then file + 8 else file) && Has(b, t - n))
    ensures IsBitboard(And(And(Shl(b, n), Not(FileBB(file))), BB_ALL))
  {
    hide And, Shl, Not, FileBB;
    HasAnd(And(Shl(b, n), Not(FileBB(file))), BB_ALL, t);
    HasAnd(Shl(b, n), Not(FileBB(file)), t);
    HasShl(b, n, t);
    HasNot(FileBB(file), t);
    HasFile(file, t);
    HasAll(t);
    AndRange(And(Shl(b, n), Not(FileBB(file))), BB_ALL);
  }

  /** Bit `t` of `(b >> n) & ~file` for a bitboard `b`, the pattern of the
      downward and leftward shifts. */
  lemma ShiftDownBits(b: Bitboard, n: nat, file: int, t: int)
    requires IsBitboard(b) && -8 <= file < 8 && 0 <= t
    ensures Has(And(Shr(b, n), Not(FileBB(file))), t)
        == (File(t) != (if file < 0 then file + 8 else file) && Has(b, t + n))
    ensures IsBitboard(And(Shr(b, n), Not(FileBB(file))))
  {
    hide And, Shr, Not, FileBB;
    HasAnd(Shr(b, n), Not(FileBB(file)), t);
    HasShr(b, n, t);
    HasNot(FileBB(file), t);
    HasFile(file, t);
    BitboardWithin(b);
    ShrRange(b, n);
    AndComm(Shr(b, n), Not(FileBB(file)));
    AndRange(Not(FileBB(file)), Shr(b, n));
  }

  /** Bit `t` of `b >> n` for a bitboard `b`. */
  lemma ShiftDownPlainBits(b: Bitboard, n: nat, t: int)
    requires IsBitboard(b) && 0 <= t
    ensures Has(Shr(b, n), t) == Has(b, t + n)
    ensures IsBitboard(Shr(b, n))
  {
    HasShr(b, n, t);
    ShrRange(b, n);
  }

  /** Downward shifts: a bitboard stays a bitboard, and square `t` of the
      result holds what the square `8`, `16`, `9` or `7` above it held, the
      last two only off file h and file a respectively, so no square wraps
      round to the other side of the board. */
  lemma ShiftDownSquares(b: Bitboard)
    requires IsBitboard(b)
    ensures IsBitboard(ShiftDown(b)) && IsBitboard(Shift2Down(b))
    ensures IsBitboard(ShiftDownLeft(b)) && IsBitboard(ShiftDownRight(b))
    ensures forall t | 0 <= t :: Has(ShiftDown(b), t) == Has(b, t + 8)
    ensures forall t | 0 <= t :: Has(Shift2Down(b), t) == Has(b, t + 16)
    ensures forall t | 0 <= t :: Has(ShiftDownLeft(b), t) == (File(t) != 7 && Has(b, t + 9))
    ensures forall t | 0 <= t :: Has(ShiftDownRight(b), t) == (File(t) != 0 && Has(b, t + 7))
  {
    hide And, Shr, Not, FileBB;
    forall t | 0 <= t
      ensures Has(ShiftDown(b), t) == Has(b, t + 8)
      ensures Has(Shift2Down(b), t) == Has(b, t + 16)
      ensures Has(ShiftDownLeft(b), t) == (File(t) != 7 && Has(b, t + 9))
      ensures Has(ShiftDownRight(b), t) == (File(t) != 0 && Has(b, t + 7))
    {
      ShiftDownPlainBits(b, 8, t);
      ShiftDownPlainBits(b, 16, t);
      ShiftDownBits(b, 9, -1, t);
      ShiftDownBits(b, 7, 0, t);
    }
    ShiftDownPlainBits(b, 8, 0);
    ShiftDownPlainBits(b, 16, 0);
    ShiftDownBits(b, 9, -1, 0);
    ShiftDownBits(b, 7, 0, 0);
  }

  /** Upward shifts are cut to 64 bits, so they give a bitboard for any int;
      square `t` of the result holds what the square 8 or 16 below it held. */
  lemma ShiftUpSquares(b: int)
    ensures IsBitboard(ShiftUp(b)) && IsBitboard(Shift2Up(b))
    ensures forall t | 0 <= t :: Has(ShiftUp(b), t) == (8 <= t < 64 && Has(b, t - 8))
    ensures forall t | 0 <= t :: Has(Shift2Up(b), t) == (16 <= t < 64 && Has(b, t - 16))
  {
    forall t | 0 <= t
      ensures Has(ShiftUp(b), t) == (8 <= t < 64 && Has(b, t - 8))
      ensures Has(Shift2Up(b), t) == (16 <= t < 64 && Has(b, t - 16))
    {
      ShiftUpPlainBits(b, 8, t);
      ShiftUpPlainBits(b, 16, t);
    }
    ShiftUpPlainBits(b, 8, 0);
    ShiftUpPlainBits(b, 16, 0);
  }

  /** The rightward shifts give a bitboard for any int and never set file a:
      square `t` of the result holds what the square 1, 7 or 9 behind it
      held, and the file the shift would wrap onto is cleared. */
  lemma ShiftRightSquares(b: int)
    ensures IsBitboard(ShiftRight(b)) && IsBitboard(ShiftUpLeft(b)) && IsBitboard(ShiftUpRight(b))
    ensures forall t | 0 <= t :: Has(ShiftRight(b), t) == (1 <= t < 64 && File(t) != 0 && Has(b, t - 1))
    ensures forall t | 0 <= t :: Has(ShiftUpLeft(b), t) == (7 <= t < 64 && File(t) != 7 && Has(b, t - 7))
    ensures forall t | 0 <= t :: Has(ShiftUpRight(b), t) == (9 <= t < 64 && File(t) != 0 && Has(b, t - 9))
  {
    hide And, Shl, Not, FileBB;
    forall t | 0 <= t
      ensures Has(ShiftRight(b), t) == (1 <= t < 64 && File(t) != 0 && Has(b, t - 1))
      ensures Has(ShiftUpLeft(b), t) == (7 <= t < 64 && File(t) != 7 && Has(b, t - 7))
      ensures Has(ShiftUpRight(b), t) == (9 <= t < 64 && File(t) != 0 && Has(b, t - 9))
    {
      ShiftUpBits(b, 1, 0, t);
      ShiftUpBits(b, 7, -1, t);
      ShiftUpBits(b, 9, 0, t);
    }
    ShiftUpBits(b, 1, 0, 0);
    ShiftUpBits(b, 7, -1, 0);
    ShiftUpBits(b, 9, 0, 0);
  }

  /** `shift_left` and `shift_2_left` keep a bitboard a bitboard and never
      set file h; `shift_2_left` never sets file g either. */
  lemma ShiftLeftSquares(b: Bitboard)
    requires IsBitboard(b)
    ensures IsBitboard(ShiftLeft(b)) && IsBitboard(Shift2Left(b))
    ensures forall t | 0 <= t :: Has(ShiftLeft(b), t) == (File(t) != 7 && Has(b, t + 1))
    ensures forall t | 0 <= t :: Has(Shift2Left(b), t) == (File(t) < 6 && Has(b, t + 2))
  {
    var x := And(Shr(b, 2), Not(FileBB(-2)));
    ShiftDownBits(b, 1, -1, 0);
    ShiftDownBits(b, 2, -2, 0);
    forall t | 0 <= t
      ensures Has(ShiftLeft(b), t) == (File(t) != 7 && Has(b, t + 1))
      ensures Has(Shift2Left(b), t) == (File(t) < 6 && Has(b, t + 2))
    {
      ShiftDownBits(b, 1, -1, t);
      ShiftDownBits(b, 2, -2, t);
      HasAnd(x, Not(FileBB(-1)), t);
      HasNot(FileBB(-1), t);
      HasFile(-1, t);
      BitboardWithin(b);
    }
    AndComm(x, Not(FileBB(-1)));
    AndRange(Not(FileBB(-1)), x);
  }

  /** `shift_2_right` as written: square `t` of the result is the square
      two files to its left, except on files a and c. */
  lemma Shift2RightSquares(b: int)
    ensures IsBitboard(Shift2Right(b))
    ensures forall t | 0 <= t :: Has(Shift2Right(b), t) == (2 <= t < 64 && File(t) != 0 && File(t) != 2 && Has(b, t - 2))
  {
    var x := And(Shl(b, 2), Not(FileBB(0)));
    var y := And(x, Not(FileBB(2)));
    forall t | 0 <= t
      ensures Has(Shift2Right(b), t) == (2 <= t < 64 && File(t) != 0 && File(t) != 2 && Has(b, t - 2))
    {
      HasAnd(y, BB_ALL, t);
      HasAnd(x, Not(FileBB(2)), t);
      HasAnd(Shl(b, 2), Not(FileBB(0)), t);
      HasShl(b, 2, t);
      HasNot(FileBB(0), t);
      HasNot(FileBB(2), t);
      HasFile(0, t);
      HasFile(2, t);
      HasAll(t);
    }
    AndRange(y, BB_ALL);
  }

  /** The bits the written `shift_2_right` gets wrong: h1 wraps onto b2, a
      different rank, and a1 never reaches c1. */
  lemma Shift2RightWraps()
    ensures Has(Shift2Right(SquareBB(7)), 9) && Rank(9) != Rank(7)
    ensures !Has(Shift2Right(SquareBB(0)), 2)
  {
    Shift2RightSquares(SquareBB(7));
    Shift2RightSquares(SquareBB(0));
    HasSquareBB(7, 7);
    HasSquareBB(0, 0);
  }

  /** The intended `shift_2_right` moves every square two files right on
      its own rank and drops the squares of files g and h. */
  lemma Shift2RightIntendedSquares(b: int)
    ensures IsBitboard(Shift2RightIntended(b))
    ensures forall t | 0 <= t :: Has(Shift2RightIntended(b), t) == (2 <= t < 64 && File(t) >= 2 && Has(b, t - 2))
    ensures forall t | 0 <= t && Has(Shift2RightIntended(b), t) :: Rank(t - 2) == Rank(t)
  {
    var x := And(Shl(b, 2), Not(FileBB(0)));
    var y := And(x, Not(FileBB(1)));
    forall t | 0 <= t
      ensures Has(Shift2RightIntended(b), t) == (2 <= t < 64 && File(t) >= 2 && Has(b, t - 2))
    {
      HasAnd(y, BB_ALL, t);
      HasAnd(x, Not(FileBB(1)), t);
      HasAnd(Shl(b, 2), Not(FileBB(0)), t);
      HasShl(b, 2, t);
      HasNot(FileBB(0), t);
      HasNot(FileBB(1), t);
      HasFile(0, t);
      HasFile(1, t);
      HasAll(t);
    }
    AndRange(y, BB_ALL);
  }

  // ---- lowest and highest set bit ----

  /** `lsb`: the length of `bb & -bb`, the lowest set bit alone, minus one. */
  function Lsb(bb: Bitboard): int {
    BitLength(And(bb, -bb)) - 1
  }

  /** `msb`: the length of `bb` minus one. */
  function Msb(bb: Bitboard): int {
    BitLength(bb) - 1
  }

  /** `is_one_bit_on`: the highest and the lowest set bit coincide. */
  predicate IsOneBitOn(bb: Bitboard) {
    Msb(bb) == Lsb(bb)
  }

  /** On the empty board both scans give -1. */
  lemma EmptyScans()
    ensures Lsb(0) == -1 && Msb(0) == -1
  {
    assert And(0, 0) == 0;
  }

  /** For a non-empty bitboard `lsb` is the square of its lowest set bit. */
  lemma LsbLowest(bb: Bitboard)
    requires IsBitboard(bb) && bb != 0
    ensures 0 <= Lsb(bb) < 64 && Has(bb, Lsb(bb))
    ensures forall i | 0 <= i < Lsb(bb) :: !Has(bb, i)
  {
    IsolateLowest(bb);
    BitLengthPow2(LowestBit(bb));
    HasLowest(bb);
    BitboardWithin(bb);
  }

  /** For a non-empty bitboard `msb` is the square of its highest set bit. */
  lemma MsbHighest(bb: Bitboard)
    requires IsBitboard(bb) && bb != 0
    ensures 0 <= Msb(bb) < 64 && Has(bb, Msb(bb))
    ensures forall i | Msb(bb) < i :: !Has(bb, i)
  {
    HasHighest(bb, 0);
    forall i | Msb(bb) < i
      ensures !Has(bb, i)
    {
      HasHighest(bb, i);
    }
    BitboardWithin(bb);
  }

  /** `msb` of a bitboard is a square, or -1 exactly for the empty board. */
  lemma MsbRange(bb: Bitboard)
    requires IsBitboard(bb)
    ensures -1 <= Msb(bb) < 64 && (Msb(bb) == -1 <==> bb == 0)
  {
    if bb == 0 {
      EmptyScans();
    } else {
      MsbHighest(bb);
    }
  }

  /** `is_one_bit_on` holds exactly for boards with one set bit, and also
      for the empty board, where both scans give -1. */
  lemma OneBitOn(bb: Bitboard)
    requires IsBitboard(bb)
    ensures IsOneBitOn(bb) <==> bb == 0 || Ones(bb) == 1
  {
    if bb == 0 {
      EmptyScans();
    } else {
      IsolateLowest(bb);
      BitLengthPow2(LowestBit(bb));
      OneBit(bb);
    }
  }

  // ---- scans ----

  /** What one scan step sees of a non-empty non-negative `rest`: `rest & -rest`
      is the board of its lowest set bit `k`, and `rest ^ (1 << k)` drops that
      bit and keeps the others. */
  lemma LowestStep(rest: int)
    requires 0 < rest
    ensures var k := LowestBit(rest);
      && And(rest, -rest) == Pow2(k) && BitLength(Pow2(k)) - 1 == k
      && Has(rest, k) && (forall i | 0 <= i < k :: !Has(rest, i))
      && 0 <= Xor(rest, Pow2(k)) < rest && Ones(Xor(rest, Pow2(k))) == Ones(rest) - 1
      && forall i | 0 <= i :: Has(Xor(rest, Pow2(k)), i) == (Has(rest, i) && i != k)
  {
    var k := LowestBit(rest);
    IsolateLowest(rest);
    BitLengthPow2(k);
    HasLowest(rest);
    ClearBit(rest, k);
    forall i | 0 <= i
      ensures Has(Xor(rest, Pow2(k)), i) == (Has(rest, i) && i != k)
    {
      HasXor(rest, Pow2(k), i);
      HasPow2(k, i);
    }
  }

  /** `scan_forward`: the squares of the set bits, lowest first. */
  method ScanForward(bb: Bitboard) returns (squares: seq<int>)
    requires IsBitboard(bb)
    ensures |squares| == Ones(bb)
    ensures forall k | 0 <= k < |squares| :: 0 <= squares[k] < 64 && Has(bb, squares[k])
    ensures forall t | 0 <= t && Has(bb, t) :: t in squares
    ensures forall j, k | 0 <= j < k < |squares| :: squares[j] < squares[k]
  {
    hide And, Xor;
    BitboardWithin(bb);
    squares := [];
    var rest := bb;
    while rest != 0
      invariant 0 <= rest <= bb
      invariant |squares| + Ones(rest) == Ones(bb)
      invariant forall k | 0 <= k < |squares| :: 0 <= squares[k] < 64 && Has(bb, squares[k])
      invariant forall t | 0 <= t :: Has(bb, t) <==> t in squares || Has(rest, t)
      invariant forall k, t | 0 <= k < |squares| && 0 <= t && Has(rest, t) :: squares[k] < t
      invariant forall j, k | 0 <= j < k < |squares| :: squares[j] < squares[k]
      decreases rest
    {
      LowestStep(rest);
      var r := And(rest, -rest);
      squares := squares + [BitLength(r) - 1];
      rest := Xor(rest, r);
    }
    forall t | 0 <= t
      ensures !Has(rest, t)
    {
      HasZero(t);
    }
  }

  /** What one step of the reversed scan sees of a non-empty bitboard `rest`:
      its highest set bit `r` is a square, and `rest ^ BB_SQUARES[r]` drops
      that bit and keeps the others. */
  lemma HighestStep(rest: int)
    requires IsBitboard(rest) && 0 < rest
    ensures var r := BitLength(rest) - 1;
      && 0 <= r < 64 && Has(rest, r) && (forall i | r < i :: !Has(rest, i))
      && SquareBB(r) == Pow2(r)
      && 0 <= Xor(rest, Pow2(r)) < rest && Ones(Xor(rest, Pow2(r))) == Ones(rest) - 1
      && forall i | 0 <= i :: Has(Xor(rest, Pow2(r)), i) == (Has(rest, i) && i != r)
  {
    var r := BitLength(rest) - 1;
    MsbHighest(rest);
    ShlMul(1, r);
    ClearBit(rest, r);
    forall i | 0 <= i
      ensures Has(Xor(rest, Pow2(r)), i) == (Has(rest, i) && i != r)
    {
      HasXor(rest, Pow2(r), i);
      HasPow2(r, i);
    }
  }

  /** `scan_reversed`: the squares of the set bits, highest first. */
  method ScanReversed(bb: Bitboard) returns (squares: seq<int>)
    requires IsBitboard(bb)
    ensures |squares| == Ones(bb)
    ensures forall k | 0 <= k < |squares| :: 0 <= squares[k] < 64 && Has(bb, squares[k])
    ensures forall t | 0 <= t && Has(bb, t) :: t in squares
    ensures forall j, k | 0 <= j < k < |squares| :: squares[j] > squares[k]
    ensures squares == Squares(bb)
  {
    hide Xor, SquareBB;
    squares := [];
    var rest := bb;
    while rest != 0
      invariant 0 <= rest <= bb
      invariant |squares| + Ones(rest) == Ones(bb)
      invariant forall k | 0 <= k < |squares| :: 0 <= squares[k] < 64 && Has(bb, squares[k])
      invariant forall t | 0 <= t :: Has(bb, t) <==> t in squares || Has(rest, t)
      invariant forall k, t | 0 <= k < |squares| && 0 <= t && Has(rest, t) :: squares[k] > t
      invariant forall j, k | 0 <= j < k < |squares| :: squares[j] > squares[k]
      decreases rest
    {
      HighestStep(rest);
      var r := BitLength(rest) - 1;
      squares := squares + [r];
      rest := Xor(rest, SquareBB(r));
    }
    forall t | 0 <= t
      ensures !Has(rest, t)
    {
      HasZero(t);
    }
    DescendingUnique(squares, Squares(bb));
  }

  /** Strictly decreasing. */
  predicate Descending(s: seq<int>) {
    forall j, k | 0 <= j < k < |s| :: s[j] > s[k]
  }

  /** The set squares of `bb` below `n`, highest first. */
  function SquaresBelow(bb: Bitboard, n: nat): (s: seq<int>)
    ensures forall k | 0 <= k < |s| :: 0 <= s[k] < n && Has(bb, s[k])
    ensures forall t | 0 <= t < n && Has(bb, t) :: t in s
    ensures Descending(s)
  {
    if n == 0 then []
    else if Has(bb, n - 1) then [n - 1] + SquaresBelow(bb, n - 1)
    else SquaresBelow(bb, n - 1)
  }

  /** The squares `scan_reversed` lists, as a value: those of the set bits,
      highest first. */
  function Squares(bb: Bitboard): (s: seq<int>)
    ensures forall t :: t in s <==> 0 <= t < 64 && Has(bb, t)
    ensures Descending(s)
  {
    SquaresBelow(bb, 64)
  }

  /** The first element of a decreasing sequence is its largest, and the
      rest are the others. */
  lemma DescendingHead(a: seq<int>, x: int)
    requires Descending(a) && a != []
    ensures x in a ==> x <= a[0]
    ensures x in a[1..] <==> x in a && x != a[0]
  {
  }

  /** A sequence with a member is not empty. */
  lemma InNonEmpty(x: int, s: seq<int>)
    requires x in s
    ensures s != []
  {
  }

  /** Two sequences with the same elements are both empty or both not. */
  lemma EmptyTogether(a: seq<int>, b: seq<int>)
    requires forall x :: x in a <==> x in b
    ensures a == [] <==> b == []
  {
    if a != [] {
      assert a[0] in a;
      InNonEmpty(a[0], b);
    }
    if b != [] {
      assert b[0] in b;
      InNonEmpty(b[0], a);
    }
  }

  /** A strictly decreasing sequence is fixed by its elements. */
  lemma {:induction false} DescendingUnique(a: seq<int>, b: seq<int>)
    requires Descending(a) && Descending(b)
    requires forall x :: x in a <==> x in b
    ensures a == b
    decreases |a|
  {
    EmptyTogether(a, b);
    if a != [] {
      DescendingHead(a, b[0]);
      DescendingHead(b, a[0]);
      assert a[0] == b[0];
      forall x
        ensures x in a[1..] <==> x in b[1..]
      {
        DescendingHead(a, x);
        DescendingHead(b, x);
      }
      DescendingUnique(a[1..], b[1..]);
      assert a == [a[0]] + a[1..];
      assert b == [b[0]] + b[1..];
    }
  }

  // ---- the masks of the mirror networks, rank by rank ----

  /** Bit 0 and bit 1 of a file or rank number. */
  predicate Odd(x: int) {
    x % 2 == 1
  }

  predicate Half(x: int) {
    x % 4 >= 2
  }

  /** How bits 0 and 1 change when a file or rank number moves. */
  lemma Residues(x: int)
    ensures Odd(x + 1) == !Odd(x) && Odd(x - 1) == !Odd(x)
    ensures Odd(x + 7) == !Odd(x) && Odd(x - 7) == !Odd(x)
    ensures Half(x + 2) == !Half(x) && Half(x - 2) == !Half(x)
    ensures Half(x + 6) == !Half(x) && Half(x - 6) == !Half(x)
    ensures (0 <= x < 2 ==> !Half(x)) && (6 <= x < 8 ==> Half(x))
    ensures (x == 0 ==> !Odd(x)) && (x == 7 ==> Odd(x)) && (x == 8 ==> !Odd(x))
    ensures 8 <= x < 10 ==> !Half(x)
  {
    OddResidues(x);
    HalfResidues(x);
  }

  lemma OddResidues(x: int)
    ensures Odd(x + 1) == !Odd(x) && Odd(x - 1) == !Odd(x)
    ensures Odd(x + 7) == !Odd(x) && Odd(x - 7) == !Odd(x)
    ensures (x == 0 ==> !Odd(x)) && (x == 7 ==> Odd(x)) && (x == 8 ==> !Odd(x))
  {
    var q := x / 2;
    var r := x % 2;
    assert x == 2 * q + r && 0 <= r < 2;
    assert x + 1 == 2 * q + r + 1;
    assert x + 7 == 2 * (q + 3) + r + 1;
    assert x - 7 == 2 * (q - 4) + r + 1;
  }

  lemma HalfResidues(x: int)
    ensures Half(x + 2) == !Half(x) && Half(x - 2) == !Half(x)
    ensures Half(x + 6) == !Half(x) && Half(x - 6) == !Half(x)
    ensures (0 <= x < 2 ==> !Half(x)) && (6 <= x < 8 ==> Half(x))
    ensures 8 <= x < 10 ==> !Half(x)
  {
    var q := x / 4;
    var r := x % 4;
    assert x == 4 * q + r && 0 <= r < 4;
    assert x + 6 == 4 * (q + 1) + r + 2;
    assert x - 6 == 4 * (q - 2) + r + 2;
  }

  lemma ByteFF(f: int)
    requires 0 <= f < 8
    ensures Has(0xff, f) && !Has(0, f)
  {
    HasZero(f);
    if f == 0 {} else if f == 1 {} else if f == 2 {} else if f == 3 {}
    else if f == 4 {} else if f == 5 {} else if f == 6 {} else {}
  }

  lemma Byte55(f: int)
    requires 0 <= f < 8
    ensures Has(0x55, f) == (!Odd(f)) && Has(0xaa, f) == (Odd(f))
  {
    if f == 0 {} else if f == 1 {} else if f == 2 {} else if f == 3 {}
    else if f == 4 {} else if f == 5 {} else if f == 6 {} else {}
  }

  lemma Byte33(f: int)
    requires 0 <= f < 8
    ensures Has(0x33, f) == (!Half(f)) && Has(0xcc, f) == (Half(f))
  {
    if f == 0 {} else if f == 1 {} else if f == 2 {} else if f == 3 {}
    else if f == 4 {} else if f == 5 {} else if f == 6 {} else {}
  }

  lemma Byte0F(f: int)
    requires 0 <= f < 8
    ensures Has(0x0f, f) == (f < 4) && Has(0xf0, f) == (f >= 4)
  {
    if f == 0 {} else if f == 1 {} else if f == 2 {} else if f == 3 {}
    else if f == 4 {} else if f == 5 {} else if f == 6 {} else {}
  }

  lemma RowsV8()
    ensures Rows([0xff, 0, 0xff, 0, 0xff, 0, 0xff, 0]) == 0x00ff_00ff_00ff_00ff
  {
  }

  lemma MaskV8(i: int)
    requires 0 <= i
    ensures Has(0x00ff_00ff_00ff_00ff, i) == (i < 64 && !Odd(Rank(i)))
  {
    hide Has, Rows;
    var bytes := [0xff, 0, 0xff, 0, 0xff, 0, 0xff, 0];
    RowsV8();
    HasRows(bytes, i);
    if i < 64 {
      ByteFF(File(i));
      assert bytes[Rank(i)] == if !Odd(Rank(i)) then 0xff else 0;
    }
  }

  lemma RowsV16()
    ensures Rows([0xff, 0xff, 0, 0, 0xff, 0xff, 0, 0]) == 0x0000_ffff_0000_ffff
  {
  }

  lemma MaskV16(i: int)
    requires 0 <= i
    ensures Has(0x0000_ffff_0000_ffff, i) == (i < 64 && !Half(Rank(i)))
  {
    hide Has, Rows;
    var bytes := [0xff, 0xff, 0, 0, 0xff, 0xff, 0, 0];
    RowsV16();
    HasRows(bytes, i);
    if i < 64 {
      ByteFF(File(i));
      assert bytes[Rank(i)] == if !Half(Rank(i)) then 0xff else 0;
    }
  }

  lemma RowsV32()
    ensures Rows([0xff, 0xff, 0xff, 0xff, 0, 0, 0, 0]) == 0x0000_0000_ffff_ffff
  {
  }

  lemma MaskV32(i: int)
    requires 0 <= i
    ensures Has(0x0000_0000_ffff_ffff, i) == (i < 32)
  {
    hide Has, Rows;
    var bytes := [0xff, 0xff, 0xff, 0xff, 0, 0, 0, 0];
    RowsV32();
    HasRows(bytes, i);
    if i < 64 {
      ByteFF(File(i));
      assert bytes[Rank(i)] == if Rank(i) < 4 then 0xff else 0;
    }
  }

  lemma RowsH1()
    ensures Rows([0x55, 0x55, 0x55, 0x55, 0x55, 0x55, 0x55, 0x55]) == 0x5555_5555_5555_5555
  {
  }

  lemma MaskH1(i: int)
    requires 0 <= i
    ensures Has(0x5555_5555_5555_5555, i) == (i < 64 && !Odd(File(i)))
  {
    hide Has, Rows;
    var bytes := [0x55, 0x55, 0x55, 0x55, 0x55, 0x55, 0x55, 0x55];
    RowsH1();
    HasRows(bytes, i);
    if i < 64 {
      Byte55(File(i));
      assert bytes[Rank(i)] == 0x55;
    }
  }

  lemma RowsH2()
    ensures Rows([0x33, 0x33, 0x33, 0x33, 0x33, 0x33, 0x33, 0x33]) == 0x3333_3333_3333_3333
  {
  }

  lemma MaskH2(i: int)
    requires 0 <= i
    ensures Has(0x3333_3333_3333_3333, i) == (i < 64 && !Half(File(i)))
  {
    hide Has, Rows;
    var bytes := [0x33, 0x33, 0x33, 0x33, 0x33, 0x33, 0x33, 0x33];
    RowsH2();
    HasRows(bytes, i);
    if i < 64 {
      Byte33(File(i));
      assert bytes[Rank(i)] == 0x33;
    }
  }

  lemma RowsH4()
    ensures Rows([0x0f, 0x0f, 0x0f, 0x0f, 0x0f, 0x0f, 0x0f, 0x0f]) == 0x0f0f_0f0f_0f0f_0f0f
  {
  }

  lemma MaskH4(i: int)
    requires 0 <= i
    ensures Has(0x0f0f_0f0f_0f0f_0f0f, i) == (i < 64 && File(i) < 4)
  {
    hide Has, Rows;
    var bytes := [0x0f, 0x0f, 0x0f, 0x0f, 0x0f, 0x0f, 0x0f, 0x0f];
    RowsH4();
    HasRows(bytes, i);
    if i < 64 {
      Byte0F(File(i));
      assert bytes[Rank(i)] == 0x0f;
    }
  }

  lemma RowsD28()
    ensures Rows([0, 0, 0, 0, 0x0f, 0x0f, 0x0f, 0x0f]) == 0x0f0f_0f0f_0000_0000
  {
  }

  lemma MaskD28(i: int)
    requires 0 <= i
    ensures Has(0x0f0f_0f0f_0000_0000, i) == (i < 64 && Rank(i) >= 4 && File(i) < 4)
  {
    hide Has, Rows;
    var bytes := [0, 0, 0, 0, 0x0f, 0x0f, 0x0f, 0x0f];
    RowsD28();
    HasRows(bytes, i);
    if i < 64 {
      ByteFF(File(i));
      Byte0F(File(i));
      assert bytes[Rank(i)] == if Rank(i) >= 4 then 0x0f else 0;
    }
  }

  lemma RowsD14()
    ensures Rows([0, 0, 0x33, 0x33, 0, 0, 0x33, 0x33]) == 0x3333_0000_3333_0000
  {
  }

  lemma MaskD14(i: int)
    requires 0 <= i
    ensures Has(0x3333_0000_3333_0000, i) == (i < 64 && Half(Rank(i)) && !Half(File(i)))
  {
    hide Has, Rows;
    var bytes := [0, 0, 0x33, 0x33, 0, 0, 0x33, 0x33];
    RowsD14();
    HasRows(bytes, i);
    if i < 64 {
      ByteFF(File(i));
      Byte33(File(i));
      assert bytes[Rank(i)] == if Half(Rank(i)) then 0x33 else 0;
    }
  }

  lemma RowsD7()
    ensures Rows([0, 0x55, 0, 0x55, 0, 0x55, 0, 0x55]) == 0x5500_5500_5500_5500
  {
  }

  lemma MaskD7(i: int)
    requires 0 <= i
    ensures Has(0x5500_5500_5500_5500, i) == (i < 64 && Odd(Rank(i)) && !Odd(File(i)))
  {
    hide Has, Rows;
    var bytes := [0, 0x55, 0, 0x55, 0, 0x55, 0, 0x55];
    RowsD7();
    HasRows(bytes, i);
    if i < 64 {
      ByteFF(File(i));
      Byte55(File(i));
      assert bytes[Rank(i)] == if Odd(Rank(i)) then 0x55 else 0;
    }
  }

  lemma RowsA36()
    ensures Rows([0x0f, 0x0f, 0x0f, 0x0f, 0xf0, 0xf0, 0xf0, 0xf0]) == 0xf0f0_f0f0_0f0f_0f0f
  {
  }

  lemma MaskA36(i: int)
    requires 0 <= i
    ensures Has(0xf0f0_f0f0_0f0f_0f0f, i) == (i < 64 && (Rank(i) < 4) == (File(i) < 4))
  {
    hide Has, Rows;
    var bytes := [0x0f, 0x0f, 0x0f, 0x0f, 0xf0, 0xf0, 0xf0, 0xf0];
    RowsA36();
    HasRows(bytes, i);
    if i < 64 {
      Byte0F(File(i));
      assert bytes[Rank(i)] == if Rank(i) < 4 then 0x0f else 0xf0;
    }
  }

  lemma RowsA18()
    ensures Rows([0, 0, 0xcc, 0xcc, 0, 0, 0xcc, 0xcc]) == 0xcccc_0000_cccc_0000
  {
  }

  lemma MaskA18(i: int)
    requires 0 <= i
    ensures Has(0xcccc_0000_cccc_0000, i) == (i < 64 && Half(Rank(i)) && Half(File(i)))
  {
    hide Has, Rows;
    var bytes := [0, 0, 0xcc, 0xcc, 0, 0, 0xcc, 0xcc];
    RowsA18();
    HasRows(bytes, i);
    if i < 64 {
      ByteFF(File(i));
      Byte33(File(i));
      assert bytes[Rank(i)] == if Half(Rank(i)) then 0xcc else 0;
    }
  }

  lemma RowsA9()
    ensures Rows([0, 0xaa, 0, 0xaa, 0, 0xaa, 0, 0xaa]) == 0xaa00_aa00_aa00_aa00
  {
  }

  lemma MaskA9(i: int)
    requires 0 <= i
    ensures Has(0xaa00_aa00_aa00_aa00, i) == (i < 64 && Odd(Rank(i)) && Odd(File(i)))
  {
    hide Has, Rows;
    var bytes := [0, 0xaa, 0, 0xaa, 0, 0xaa, 0, 0xaa];
    RowsA9();
    HasRows(bytes, i);
    if i < 64 {
      ByteFF(File(i));
      Byte55(File(i));
      assert bytes[Rank(i)] == if Odd(Rank(i)) then 0xaa else 0;
    }
  }

  // ---- the mirror networks ----

  /** One swap of the vertical and horizontal flips:
      `((bb >> s) & m) | ((bb & m) << s)`. */
  function SwapMasked(bb: int, m: int, s: nat): int {
    Or(And(Shr(bb, s), m), Shl(And(bb, m), s))
  }

  /** One delta swap of the diagonal flips:
      `t = (bb ^ (bb << s)) & k`, then `bb ^ t ^ (t >> s)`. */
  function DeltaSwap(bb: int, k: int, s: nat): int {
    var t := And(Xor(bb, Shl(bb, s)), k);
    Xor(Xor(bb, t), Shr(t, s))
  }

  /** The first step of `flip_anti_diagonal`: with `t = bb ^ (bb << s)`,
      `bb ^ ((t ^ (bb >> s)) & k)`. */
  function FarSwap(bb: int, k: int, s: nat): int {
    var t := Xor(bb, Shl(bb, s));
    Xor(bb, And(Xor(t, Shr(bb, s)), k))
  }

  /** `flip_vertical`: swaps ranks 1 and 8, 2 and 7, and so on. */
  function FlipVertical(bb: Bitboard): Bitboard {
    var b1 := SwapMasked(bb, 0x00ff_00ff_00ff_00ff, 8);
    var b2 := SwapMasked(b1, 0x0000_ffff_0000_ffff, 16);
    Or(Shr(b2, 32), Shl(And(b2, 0x0000_0000_ffff_ffff), 32))
  }

  /** `flip_horizontal`: swaps files a and h, b and g, and so on. */
  function FlipHorizontal(bb: Bitboard): Bitboard {
    var b1 := SwapMasked(bb, 0x5555_5555_5555_5555, 1);
    var b2 := SwapMasked(b1, 0x3333_3333_3333_3333, 2);
    SwapMasked(b2, 0x0f0f_0f0f_0f0f_0f0f, 4)
  }

  /** `flip_diagonal`: mirrors the board in the a1-h8 diagonal. */
  function FlipDiagonal(bb: Bitboard): Bitboard {
    var b1 := DeltaSwap(bb, 0x0f0f_0f0f_0000_0000, 28);
    var b2 := DeltaSwap(b1, 0x3333_0000_3333_0000, 14);
    DeltaSwap(b2, 0x5500_5500_5500_5500, 7)
  }

  /** `flip_anti_diagonal`: mirrors the board in the a8-h1 diagonal.  Its
      first step is written differently from the later two. */
  function FlipAntiDiagonal(bb: Bitboard): Bitboard {
    var b1 := FarSwap(bb, 0xf0f0_f0f0_0f0f_0f0f, 36);
    var b2 := DeltaSwap(b1, 0xcccc_0000_cccc_0000, 18);
    DeltaSwap(b2, 0xaa00_aa00_aa00_aa00, 9)
  }

  /** Where each flip sends a square. */
  function VerticalSquare(sq: int): int {
    SquareAt(File(sq), 7 - Rank(sq))
  }

  function HorizontalSquare(sq: int): int {
    SquareAt(7 - File(sq), Rank(sq))
  }

  function DiagonalSquare(sq: int): int {
    SquareAt(Rank(sq), File(sq))
  }

  function AntiDiagonalSquare(sq: int): int {
    SquareAt(7 - Rank(sq), 7 - File(sq))
  }

  /** Square `i` of `y` holds what square `move(i)` of `x` holds, and `y` has
      nothing off the board. */
  ghost predicate MovesBits(x: int, y: int, move: int -> int) {
    forall i | 0 <= i :: Has(y, i) == (i < 64 && 0 <= move(i) && Has(x, move(i)))
  }

  /** `move` pairs up the squares of the board. */
  ghost predicate Involution(move: int -> int) {
    forall i | 0 <= i < 64 :: 0 <= move(i) < 64 && move(move(i)) == i
  }

  /** Three moves, applied last first, send every square where `target` does. */
  ghost predicate ComposesTo(m1: int -> int, m2: int -> int, m3: int -> int, target: int -> int) {
    forall i | 0 <= i < 64 ::
      0 <= m3(i) < 64 && 0 <= m2(m3(i)) < 64 && 0 <= m1(m2(m3(i))) && m1(m2(m3(i))) == target(i)
  }

  lemma SwapMaskedBits(bb: int, m: int, s: nat, i: int)
    requires 0 <= i
    ensures Has(SwapMasked(bb, m, s), i)
        == ((Has(m, i) && Has(bb, i + s)) || (i >= s && Has(m, i - s) && Has(bb, i - s)))
  {
    hide And, Or, Shl, Shr;
    HasOr(And(Shr(bb, s), m), Shl(And(bb, m), s), i);
    HasAnd(Shr(bb, s), m, i);
    HasShr(bb, s, i);
    HasShl(And(bb, m), s, i);
    if i >= s {
      HasAnd(bb, m, i - s);
    }
  }

  lemma DeltaSwapBits(bb: int, k: int, s: nat, i: int)
    requires 0 <= i
    ensures Has(DeltaSwap(bb, k, s), i)
        == ((Has(bb, i) != (Has(k, i) && (Has(bb, i) != (i >= s && Has(bb, i - s)))))
            != (Has(k, i + s) && (Has(bb, i + s) != Has(bb, i))))
  {
    hide And, Xor, Shl, Shr;
    var t := And(Xor(bb, Shl(bb, s)), k);
    HasXor(Xor(bb, t), Shr(t, s), i);
    HasXor(bb, t, i);
    HasShr(t, s, i);
    HasAnd(Xor(bb, Shl(bb, s)), k, i);
    HasAnd(Xor(bb, Shl(bb, s)), k, i + s);
    HasXor(bb, Shl(bb, s), i);
    HasXor(bb, Shl(bb, s), i + s);
    HasShl(bb, s, i);
    HasShl(bb, s, i + s);
  }

  /** A step that moves the bits of a bitboard onto board squares gives a bitboard. */
  lemma MovedIsBitboard(x: int, y: int, move: int -> int)
    requires MovesBits(x, y, move)
    ensures IsBitboard(y)
  {
    assert Within(y);
    WithinIsBitboard(y);
  }

  lemma Composed(x: int, y: int, z: int, w: int, m1: int -> int, m2: int -> int, m3: int -> int, target: int -> int)
    requires MovesBits(x, y, m1) && MovesBits(y, z, m2) && MovesBits(z, w, m3)
    requires ComposesTo(m1, m2, m3, target)
    ensures MovesBits(x, w, target)
  {
    forall i | 0 <= i
      ensures Has(w, i) == (i < 64 && 0 <= target(i) && Has(x, target(i)))
    {
      if i < 64 {
        assert Has(w, i) == Has(z, m3(i));
        assert Has(z, m3(i)) == Has(y, m2(m3(i)));
      }
    }
  }

  /** A flip that moves the bits of a bitboard by an involution of the
      squares undoes itself and keeps the number of set bits. */
  lemma Permutes(x: int, y: int, z: int, move: int -> int)
    requires IsBitboard(x) && Involution(move)
    requires MovesBits(x, y, move) && MovesBits(y, z, move)
    ensures IsBitboard(y) && z == x && Ones(y) == Ones(x)
  {
    MovedIsBitboard(x, y, move);
    BitboardWithin(x);
    forall i | 0 <= i
      ensures Has(z, i) == Has(x, i)
    {
      if i < 64 {
        assert Has(z, i) == Has(y, move(i));
      }
    }
    BitsEqual(z, x);
    forall t | 0 <= t < 64
      ensures Has(y, move(t)) == Has(x, t)
    {
      assert move(move(t)) == t;
    }
    PermutedOnes(x, y, move);
  }

  /** The square `dr` ranks and `df` files away from `i`, when that stays
      within the files of the board. */
  lemma Offset(i: int, df: int, dr: int)
    requires 0 <= File(i) + df < 8
    ensures File(i + 8 * dr + df) == File(i) + df && Rank(i + 8 * dr + df) == Rank(i) + dr
  {
    CoordinatesOfSquare(i);
    SquareOfCoordinates(File(i) + df, Rank(i) + dr);
  }

  /** How one masked swap treats square `i`: a square of the mask takes the
      square `s` above it, a square `s` above the mask takes the one below,
      and no other square is set. */
  ghost predicate SwapCase(m: int, s: nat, step: int -> int, i: int)
    requires 0 <= i
  {
    if Has(m, i) then i < 64 && (i < s || !Has(m, i - s)) && step(i) == i + s
    else if i >= s && Has(m, i - s) then i < 64 && step(i) == i - s
    else 64 <= i
  }

  /** How one delta swap treats square `i`: a square of the mask takes the
      square `s` below it, a square `s` below the mask takes the one above,
      and every other square keeps its contents. */
  ghost predicate DeltaCase(k: int, s: nat, step: int -> int, i: int)
    requires 0 <= i
  {
    if Has(k, i) then s <= i < 64 && !Has(k, i + s) && step(i) == i - s
    else if Has(k, i + s) then i + s < 64 && step(i) == i + s
    else 64 <= i || step(i) == i
  }

  lemma SwapMaskedMoves(x: int, m: int, s: nat, step: int -> int)
    requires IsBitboard(x)
    requires forall i | 0 <= i :: SwapCase(m, s, step, i)
    ensures MovesBits(x, SwapMasked(x, m, s), step)
  {
    hide SwapMasked;
    BitboardWithin(x);
    forall i | 0 <= i
      ensures Has(SwapMasked(x, m, s), i) == (i < 64 && 0 <= step(i) && Has(x, step(i)))
    {
      SwapMaskedBits(x, m, s, i);
      assert SwapCase(m, s, step, i);
    }
  }

  lemma DeltaSwapMoves(x: int, k: int, s: nat, step: int -> int)
    requires IsBitboard(x)
    requires forall i | 0 <= i :: DeltaCase(k, s, step, i)
    ensures MovesBits(x, DeltaSwap(x, k, s), step)
  {
    hide DeltaSwap;
    BitboardWithin(x);
    forall i | 0 <= i
      ensures Has(DeltaSwap(x, k, s), i) == (i < 64 && 0 <= step(i) && Has(x, step(i)))
    {
      DeltaSwapBits(x, k, s, i);
      assert DeltaCase(k, s, step, i);
    }
  }

  // ---- flip_vertical, step by step ----

  function VerticalStep1(i: int): int {
    if !Odd(Rank(i)) then i + 8 else i - 8
  }

  function VerticalStep2(i: int): int {
    if !Half(Rank(i)) then i + 16 else i - 16
  }

  function VerticalStep3(i: int): int {
    if i < 32 then i + 32 else i - 32
  }

  lemma VerticalCases1At(i: int)
    requires 0 <= i
    ensures SwapCase(0x00ff_00ff_00ff_00ff, 8, VerticalStep1, i)
  {
    hide Has, File, Rank, Odd, Half;
    CoordinatesOfSquare(i);
    Residues(File(i));
    Residues(Rank(i));
    MaskV8(i);
    Offset(i, 0, 1);
    if i >= 8 {
      MaskV8(i - 8);
      Offset(i, 0, -1);
    }
  }

  lemma VerticalCases1()
    ensures forall i | 0 <= i :: SwapCase(0x00ff_00ff_00ff_00ff, 8, VerticalStep1, i)
  {
    forall i | 0 <= i
      ensures SwapCase(0x00ff_00ff_00ff_00ff, 8, VerticalStep1, i)
    {
      VerticalCases1At(i);
    }
  }

  lemma VerticalSwap1(x: int)
    requires IsBitboard(x)
    ensures MovesBits(x, SwapMasked(x, 0x00ff_00ff_00ff_00ff, 8), VerticalStep1)
  {
    VerticalCases1();
    SwapMaskedMoves(x, 0x00ff_00ff_00ff_00ff, 8, VerticalStep1);
  }

  lemma VerticalCases2At(i: int)
    requires 0 <= i
    ensures SwapCase(0x0000_ffff_0000_ffff, 16, VerticalStep2, i)
  {
    hide Has, File, Rank, Odd, Half;
    CoordinatesOfSquare(i);
    Residues(File(i));
    Residues(Rank(i));
    MaskV16(i);
    Offset(i, 0, 2);
    if i >= 16 {
      MaskV16(i - 16);
      Offset(i, 0, -2);
    }
  }

  lemma VerticalCases2()
    ensures forall i | 0 <= i :: SwapCase(0x0000_ffff_0000_ffff, 16, VerticalStep2, i)
  {
    forall i | 0 <= i
      ensures SwapCase(0x0000_ffff_0000_ffff, 16, VerticalStep2, i)
    {
      VerticalCases2At(i);
    }
  }

  lemma VerticalSwap2(x: int)
    requires IsBitboard(x)
    ensures MovesBits(x, SwapMasked(x, 0x0000_ffff_0000_ffff, 16), VerticalStep2)
  {
    VerticalCases2();
    SwapMaskedMoves(x, 0x0000_ffff_0000_ffff, 16, VerticalStep2);
  }

  /** The last step, `(bb >> 32) | ((bb & 0xffffffff) << 32)`, which masks
      only the half it shifts up. */
  lemma VerticalSwap3(x: int)
    requires IsBitboard(x)
    ensures MovesBits(x, Or(Shr(x, 32), Shl(And(x, 0x0000_0000_ffff_ffff), 32)), VerticalStep3)
  {
    hide And, Or, Shl, Shr, Has;
    BitboardWithin(x);
    forall i | 0 <= i
      ensures Has(Or(Shr(x, 32), Shl(And(x, 0x0000_0000_ffff_ffff), 32)), i)
        == (i < 64 && 0 <= VerticalStep3(i) && Has(x, VerticalStep3(i)))
    {
      HasOr(Shr(x, 32), Shl(And(x, 0x0000_0000_ffff_ffff), 32), i);
      HasShr(x, 32, i);
      HasShl(And(x, 0x0000_0000_ffff_ffff), 32, i);
      if i >= 32 {
        HasAnd(x, 0x0000_0000_ffff_ffff, i - 32);
        MaskV32(i - 32);
      }
    }
  }

  /** Swapping rank pairs 4 apart, then 2 apart, then 1 apart mirrors the rank. */
  function SwapBit(r: int, k: int): int
    requires 0 < k
  {
    if r % (2 * k) < k then r + k else r - k
  }

  lemma MirrorByBits(r: int)
    requires 0 <= r < 8
    ensures 0 <= SwapBit(r, 4) < 8 && 0 <= SwapBit(SwapBit(r, 4), 2) < 8
    ensures SwapBit(SwapBit(SwapBit(r, 4), 2), 1) == 7 - r
  {
  }

  lemma VerticalMaps()
    ensures ComposesTo(VerticalStep1, VerticalStep2, VerticalStep3, VerticalSquare)
    ensures Involution(VerticalSquare)
  {
    hide File, Rank;
    forall i | 0 <= i < 64
      ensures 0 <= VerticalStep3(i) < 64 && 0 <= VerticalStep2(VerticalStep3(i)) < 64
      ensures 0 <= VerticalStep1(VerticalStep2(VerticalStep3(i)))
      ensures VerticalStep1(VerticalStep2(VerticalStep3(i))) == VerticalSquare(i)
      ensures 0 <= VerticalSquare(i) < 64 && VerticalSquare(VerticalSquare(i)) == i
    {
      var f, r := File(i), Rank(i);
      CoordinatesOfSquare(i);
      MirrorByBits(r);
      var r3 := SwapBit(r, 4);
      var r2 := SwapBit(r3, 2);
      SquareOfCoordinates(f, r3);
      SquareOfCoordinates(f, r2);
      SquareOfCoordinates(f, 7 - r);
      assert VerticalStep3(i) == SquareAt(f, r3);
      assert VerticalStep2(SquareAt(f, r3)) == SquareAt(f, r2);
    }
  }

  /** `flip_vertical` sends the contents of square `sq` to square
      `VerticalSquare(sq)`, the same file on the mirrored rank. */
  lemma FlipVerticalSquares(bb: Bitboard)
    requires IsBitboard(bb)
    ensures MovesBits(bb, FlipVertical(bb), VerticalSquare)
    ensures IsBitboard(FlipVertical(bb))
  {
    var b1 := SwapMasked(bb, 0x00ff_00ff_00ff_00ff, 8);
    var b2 := SwapMasked(b1, 0x0000_ffff_0000_ffff, 16);
    VerticalSwap1(bb);
    MovedIsBitboard(bb, b1, VerticalStep1);
    VerticalSwap2(b1);
    MovedIsBitboard(b1, b2, VerticalStep2);
    VerticalSwap3(b2);
    VerticalMaps();
    Composed(bb, b1, b2, FlipVertical(bb), VerticalStep1, VerticalStep2, VerticalStep3, VerticalSquare);
    MovedIsBitboard(bb, FlipVertical(bb), VerticalSquare);
  }

  /** `flip_vertical` undoes itself and keeps the number of pieces. */
  lemma FlipVerticalPermutes(bb: Bitboard)
    requires IsBitboard(bb)
    ensures FlipVertical(FlipVertical(bb)) == bb
    ensures IsBitboard(FlipVertical(bb)) && Ones(FlipVertical(bb)) == Ones(bb)
  {
    FlipVerticalSquares(bb);
    FlipVerticalSquares(FlipVertical(bb));
    VerticalMaps();
    Permutes(bb, FlipVertical(bb), FlipVertical(FlipVertical(bb)), VerticalSquare);
  }

  // ---- flip_horizontal, step by step ----

  function HorizontalStep1(i: int): int {
    if !Odd(File(i)) then i + 1 else i - 1
  }

  function HorizontalStep2(i: int): int {
    if !Half(File(i)) then i + 2 else i - 2
  }

  function HorizontalStep3(i: int): int {
    if File(i) < 4 then i + 4 else i - 4
  }

  lemma HorizontalCases1At(i: int)
    requires 0 <= i
    ensures SwapCase(0x5555_5555_5555_5555, 1, HorizontalStep1, i)
  {
    hide Has, File, Rank, Odd, Half;
    CoordinatesOfSquare(i);
    Residues(File(i));
    Residues(Rank(i));
    MaskH1(i);
    if File(i) < 7 { Offset(i, 1, 0); } else { Offset(i, -7, 1); }
    if i >= 1 {
      MaskH1(i - 1);
      if File(i) >= 1 { Offset(i, -1, 0); } else { Offset(i, 7, -1); }
    }
  }

  lemma HorizontalCases1()
    ensures forall i | 0 <= i :: SwapCase(0x5555_5555_5555_5555, 1, HorizontalStep1, i)
  {
    forall i | 0 <= i
      ensures SwapCase(0x5555_5555_5555_5555, 1, HorizontalStep1, i)
    {
      HorizontalCases1At(i);
    }
  }

  lemma HorizontalSwap1(x: int)
    requires IsBitboard(x)
    ensures MovesBits(x, SwapMasked(x, 0x5555_5555_5555_5555, 1), HorizontalStep1)
  {
    HorizontalCases1();
    SwapMaskedMoves(x, 0x5555_5555_5555_5555, 1, HorizontalStep1);
  }

  lemma HorizontalCases2At(i: int)
    requires 0 <= i
    ensures SwapCase(0x3333_3333_3333_3333, 2, HorizontalStep2, i)
  {
    hide Has, File, Rank, Odd, Half;
    CoordinatesOfSquare(i);
    Residues(File(i));
    Residues(Rank(i));
    MaskH2(i);
    if File(i) < 6 { Offset(i, 2, 0); } else { Offset(i, -6, 1); }
    if i >= 2 {
      MaskH2(i - 2);
      if File(i) >= 2 { Offset(i, -2, 0); } else { Offset(i, 6, -1); }
    }
  }

  lemma HorizontalCases2()
    ensures forall i | 0 <= i :: SwapCase(0x3333_3333_3333_3333, 2, HorizontalStep2, i)
  {
    forall i | 0 <= i
      ensures SwapCase(0x3333_3333_3333_3333, 2, HorizontalStep2, i)
    {
      HorizontalCases2At(i);
    }
  }

  lemma HorizontalSwap2(x: int)
    requires IsBitboard(x)
    ensures MovesBits(x, SwapMasked(x, 0x3333_3333_3333_3333, 2), HorizontalStep2)
  {
    HorizontalCases2();
    SwapMaskedMoves(x, 0x3333_3333_3333_3333, 2, HorizontalStep2);
  }

  lemma HorizontalCases3At(i: int)
    requires 0 <= i
    ensures SwapCase(0x0f0f_0f0f_0f0f_0f0f, 4, HorizontalStep3, i)
  {
    hide Has, File, Rank, Odd, Half;
    CoordinatesOfSquare(i);
    Residues(File(i));
    Residues(Rank(i));
    MaskH4(i);
    if File(i) < 4 { Offset(i, 4, 0); } else { Offset(i, -4, 1); }
    if i >= 4 {
      MaskH4(i - 4);
      if File(i) >= 4 { Offset(i, -4, 0); } else { Offset(i, 4, -1); }
    }
  }

  lemma HorizontalCases3()
    ensures forall i | 0 <= i :: SwapCase(0x0f0f_0f0f_0f0f_0f0f, 4, HorizontalStep3, i)
  {
    forall i | 0 <= i
      ensures SwapCase(0x0f0f_0f0f_0f0f_0f0f, 4, HorizontalStep3, i)
    {
      HorizontalCases3At(i);
    }
  }

  lemma HorizontalSwap3(x: int)
    requires IsBitboard(x)
    ensures MovesBits(x, SwapMasked(x, 0x0f0f_0f0f_0f0f_0f0f, 4), HorizontalStep3)
  {
    HorizontalCases3();
    SwapMaskedMoves(x, 0x0f0f_0f0f_0f0f_0f0f, 4, HorizontalStep3);
  }

  lemma HorizontalMaps()
    ensures ComposesTo(HorizontalStep1, HorizontalStep2, HorizontalStep3, HorizontalSquare)
    ensures Involution(HorizontalSquare)
  {
    hide File, Rank;
    forall i | 0 <= i < 64
      ensures 0 <= HorizontalStep3(i) < 64 && 0 <= HorizontalStep2(HorizontalStep3(i)) < 64
      ensures 0 <= HorizontalStep1(HorizontalStep2(HorizontalStep3(i)))
      ensures HorizontalStep1(HorizontalStep2(HorizontalStep3(i))) == HorizontalSquare(i)
      ensures 0 <= HorizontalSquare(i) < 64 && HorizontalSquare(HorizontalSquare(i)) == i
    {
      var f, r := File(i), Rank(i);
      CoordinatesOfSquare(i);
      MirrorByBits(f);
      var f3 := SwapBit(f, 4);
      var f2 := SwapBit(f3, 2);
      var f1 := SwapBit(f2, 1);
      SquareOfCoordinates(f3, r);
      SquareOfCoordinates(f2, r);
      SquareOfCoordinates(f1, r);
      SquareOfCoordinates(7 - f, r);
      assert HorizontalStep3(i) == SquareAt(f3, r);
      assert HorizontalStep2(SquareAt(f3, r)) == SquareAt(f2, r);
    }
  }

  /** `flip_horizontal` sends the contents of square `sq` to square
      `HorizontalSquare(sq)`, the mirrored file on the same rank. */
  lemma FlipHorizontalSquares(bb: Bitboard)
    requires IsBitboard(bb)
    ensures MovesBits(bb, FlipHorizontal(bb), HorizontalSquare)
    ensures IsBitboard(FlipHorizontal(bb))
  {
    var b1 := SwapMasked(bb, 0x5555_5555_5555_5555, 1);
    var b2 := SwapMasked(b1, 0x3333_3333_3333_3333, 2);
    HorizontalSwap1(bb);
    MovedIsBitboard(bb, b1, HorizontalStep1);
    HorizontalSwap2(b1);
    MovedIsBitboard(b1, b2, HorizontalStep2);
    HorizontalSwap3(b2);
    HorizontalMaps();
    Composed(bb, b1, b2, FlipHorizontal(bb), HorizontalStep1, HorizontalStep2, HorizontalStep3, HorizontalSquare);
    MovedIsBitboard(bb, FlipHorizontal(bb), HorizontalSquare);
  }

  /** `flip_horizontal` undoes itself and keeps the number of pieces. */
  lemma FlipHorizontalPermutes(bb: Bitboard)
    requires IsBitboard(bb)
    ensures FlipHorizontal(FlipHorizontal(bb)) == bb
    ensures IsBitboard(FlipHorizontal(bb)) && Ones(FlipHorizontal(bb)) == Ones(bb)
  {
    FlipHorizontalSquares(bb);
    FlipHorizontalSquares(FlipHorizontal(bb));
    HorizontalMaps();
    Permutes(bb, FlipHorizontal(bb), FlipHorizontal(FlipHorizontal(bb)), HorizontalSquare);
  }

  // ---- flip_diagonal, step by step ----

  /** Each step exchanges one bit of the file with the same bit of the
      rank where the two differ: bit 2, then bit 1, then bit 0. */
  function DiagonalStep1(i: int): int {
    if Rank(i) >= 4 && File(i) < 4 then i - 28
    else if Rank(i) < 4 && File(i) >= 4 then i + 28
    else i
  }

  function DiagonalStep2(i: int): int {
    if Half(Rank(i)) && !Half(File(i)) then i - 14
    else if !Half(Rank(i)) && Half(File(i)) then i + 14
    else i
  }

  function DiagonalStep3(i: int): int {
    if Odd(Rank(i)) && !Odd(File(i)) then i - 7
    else if !Odd(Rank(i)) && Odd(File(i)) then i + 7
    else i
  }

  lemma DiagonalCases1At(i: int)
    requires 0 <= i
    ensures DeltaCase(0x0f0f_0f0f_0000_0000, 28, DiagonalStep1, i)
  {
    hide Has, File, Rank;
    CoordinatesOfSquare(i);
    MaskD28(i);
    MaskD28(i + 28);
    if i < 64 {
      if File(i) >= 4 { Offset(i, -4, 4); } else { Offset(i, 4, 3); }
    }
  }

  lemma DiagonalCases1()
    ensures forall i | 0 <= i :: DeltaCase(0x0f0f_0f0f_0000_0000, 28, DiagonalStep1, i)
  {
    forall i | 0 <= i
      ensures DeltaCase(0x0f0f_0f0f_0000_0000, 28, DiagonalStep1, i)
    {
      DiagonalCases1At(i);
    }
  }

  lemma DiagonalSwap1(x: int)
    requires IsBitboard(x)
    ensures MovesBits(x, DeltaSwap(x, 0x0f0f_0f0f_0000_0000, 28), DiagonalStep1)
  {
    DiagonalCases1();
    DeltaSwapMoves(x, 0x0f0f_0f0f_0000_0000, 28, DiagonalStep1);
  }

  lemma DiagonalCases2At(i: int)
    requires 0 <= i
    ensures DeltaCase(0x3333_0000_3333_0000, 14, DiagonalStep2, i)
  {
    hide Has, File, Rank, Odd, Half;
    CoordinatesOfSquare(i);
    MaskD14(i);
    MaskD14(i + 14);
    if i < 64 {
      Residues(File(i));
      Residues(Rank(i));
      if File(i) >= 2 { Offset(i, -2, 2); } else { Offset(i, 6, 1); }
    }
  }

  lemma DiagonalCases2()
    ensures forall i | 0 <= i :: DeltaCase(0x3333_0000_3333_0000, 14, DiagonalStep2, i)
  {
    forall i | 0 <= i
      ensures DeltaCase(0x3333_0000_3333_0000, 14, DiagonalStep2, i)
    {
      DiagonalCases2At(i);
    }
  }

  lemma DiagonalSwap2(x: int)
    requires IsBitboard(x)
    ensures MovesBits(x, DeltaSwap(x, 0x3333_0000_3333_0000, 14), DiagonalStep2)
  {
    DiagonalCases2();
    DeltaSwapMoves(x, 0x3333_0000_3333_0000, 14, DiagonalStep2);
  }

  lemma DiagonalCases3At(i: int)
    requires 0 <= i
    ensures DeltaCase(0x5500_5500_5500_5500, 7, DiagonalStep3, i)
  {
    hide Has, File, Rank, Odd, Half;
    CoordinatesOfSquare(i);
    MaskD7(i);
    MaskD7(i + 7);
    if i < 64 {
      Residues(File(i));
      Residues(Rank(i));
      if File(i) >= 1 { Offset(i, -1, 1); } else { Offset(i, 7, 0); }
    }
  }

  lemma DiagonalCases3()
    ensures forall i | 0 <= i :: DeltaCase(0x5500_5500_5500_5500, 7, DiagonalStep3, i)
  {
    forall i | 0 <= i
      ensures DeltaCase(0x5500_5500_5500_5500, 7, DiagonalStep3, i)
    {
      DiagonalCases3At(i);
    }
  }

  lemma DiagonalSwap3(x: int)
    requires IsBitboard(x)
    ensures MovesBits(x, DeltaSwap(x, 0x5500_5500_5500_5500, 7), DiagonalStep3)
  {
    DiagonalCases3();
    DeltaSwapMoves(x, 0x5500_5500_5500_5500, 7, DiagonalStep3);
  }

  /** Bit `k` (1, 2 or 4) of a file or rank number. */
  predicate BitOf(x: int, k: int)
    requires 0 < k
  {
    x / k % 2 == 1
  }

  /** Exchanging bit `k` of the file with bit `k` of the rank, where they
      differ, moves the file and the rank by `k` in opposite directions. */
  function ExchangeFile(f: int, r: int, k: int): int
    requires 0 < k
  {
    if BitOf(r, k) && !BitOf(f, k) then f + k
    else if !BitOf(r, k) && BitOf(f, k) then f - k
    else f
  }

  function ExchangeRank(f: int, r: int, k: int): int
    requires 0 < k
  {
    if BitOf(r, k) && !BitOf(f, k) then r - k
    else if !BitOf(r, k) && BitOf(f, k) then r + k
    else r
  }

  /** Exchanging bit 0, then bit 1, then bit 2 of square (f, r) in range
      lands on (r, f), passing only through board squares. */
  predicate Transposes(f: int, r: int) {
    var f1, r1 := ExchangeFile(f, r, 1), ExchangeRank(f, r, 1);
    var f2, r2 := ExchangeFile(f1, r1, 2), ExchangeRank(f1, r1, 2);
    0 <= f1 < 8 && 0 <= r1 < 8 && 0 <= f2 < 8 && 0 <= r2 < 8 &&
    ExchangeFile(f2, r2, 4) == r && ExchangeRank(f2, r2, 4) == f
  }

  /** The bits of a coordinate written as `4 * a + 2 * b + c`. */
  lemma DigitsOf(a: int, b: int, c: int)
    requires 0 <= a < 2 && 0 <= b < 2 && 0 <= c < 2
    ensures 0 <= 4 * a + 2 * b + c < 8
    ensures BitOf(4 * a + 2 * b + c, 1) == (c == 1)
    ensures BitOf(4 * a + 2 * b + c, 2) == (b == 1)
    ensures BitOf(4 * a + 2 * b + c, 4) == (a == 1)
  {
    assert (4 * a + 2 * b + c) / 2 == 2 * a + b;
    assert (4 * a + 2 * b + c) / 4 == a;
  }

  /** The three exchanges on file `4a + 2b + c` and rank `4x + 2y + z`. */
  lemma ExchangeDigits(a: int, b: int, c: int, x: int, y: int, z: int)
    requires 0 <= a < 2 && 0 <= b < 2 && 0 <= c < 2 && 0 <= x < 2 && 0 <= y < 2 && 0 <= z < 2
    ensures ExchangeFile(4 * a + 2 * b + c, 4 * x + 2 * y + z, 1) == 4 * a + 2 * b + z
    ensures ExchangeRank(4 * a + 2 * b + c, 4 * x + 2 * y + z, 1) == 4 * x + 2 * y + c
    ensures ExchangeFile(4 * a + 2 * b + c, 4 * x + 2 * y + z, 2) == 4 * a + 2 * y + c
    ensures ExchangeRank(4 * a + 2 * b + c, 4 * x + 2 * y + z, 2) == 4 * x + 2 * b + z
    ensures ExchangeFile(4 * a + 2 * b + c, 4 * x + 2 * y + z, 4) == 4 * x + 2 * b + c
    ensures ExchangeRank(4 * a + 2 * b + c, 4 * x + 2 * y + z, 4) == 4 * a + 2 * y + z
  {
    hide BitOf;
    DigitsOf(a, b, c);
    DigitsOf(x, y, z);
  }

  lemma Digits(x: int)
    requires 0 <= x < 8
    ensures 0 <= x / 4 < 2 && 0 <= x / 2 % 2 < 2 && 0 <= x % 2 < 2
    ensures x == 4 * (x / 4) + 2 * (x / 2 % 2) + x % 2
  {
    if x < 4 {
      if x < 2 { assert x / 2 == 0; } else { assert x / 2 == 1; }
    } else {
      if x < 6 { assert x / 2 == 2; } else { assert x / 2 == 3; }
    }
  }

  lemma TransposeDigits(a: int, b: int, c: int, x: int, y: int, z: int)
    requires 0 <= a < 2 && 0 <= b < 2 && 0 <= c < 2 && 0 <= x < 2 && 0 <= y < 2 && 0 <= z < 2
    ensures Transposes(4 * a + 2 * b + c, 4 * x + 2 * y + z)
  {
    hide ExchangeFile, ExchangeRank;
    ExchangeDigits(a, b, c, x, y, z);
    ExchangeDigits(a, b, z, x, y, c);
    ExchangeDigits(a, y, z, x, b, c);
  }

  lemma TransposeByBits(f: int, r: int)
    requires 0 <= f < 8 && 0 <= r < 8
    ensures Transposes(f, r)
  {
    hide Transposes;
    Digits(f);
    Digits(r);
    TransposeDigits(f / 4, f / 2 % 2, f % 2, r / 4, r / 2 % 2, r % 2);
  }

  /** The step predicates read bits 0, 1 and 2 of a coordinate. */
  lemma CoordinateBits(x: int)
    requires 0 <= x < 8
    ensures Odd(x) == BitOf(x, 1) && Half(x) == BitOf(x, 2) && (x >= 4) == BitOf(x, 4)
  {
    if x < 4 {
      if x < 2 { assert x / 2 == 0; } else { assert x / 2 == 1; }
    } else {
      if x < 6 { assert x / 2 == 2; } else { assert x / 2 == 3; }
    }
  }

  /** Each step of `flip_diagonal` on a board square, in coordinates. */
  lemma DiagonalStepsAt(f: int, r: int)
    requires 0 <= f < 8 && 0 <= r < 8
    ensures DiagonalStep3(SquareAt(f, r)) == SquareAt(ExchangeFile(f, r, 1), ExchangeRank(f, r, 1))
    ensures DiagonalStep2(SquareAt(f, r)) == SquareAt(ExchangeFile(f, r, 2), ExchangeRank(f, r, 2))
    ensures DiagonalStep1(SquareAt(f, r)) == SquareAt(ExchangeFile(f, r, 4), ExchangeRank(f, r, 4))
  {
    hide File, Rank, Odd, Half, BitOf;
    SquareOfCoordinates(f, r);
    CoordinateBits(f);
    CoordinateBits(r);
  }

  lemma DiagonalMaps()
    ensures ComposesTo(DiagonalStep1, DiagonalStep2, DiagonalStep3, DiagonalSquare)
    ensures Involution(DiagonalSquare)
  {
    hide File, Rank, DiagonalStep1, DiagonalStep2, DiagonalStep3, ExchangeFile, ExchangeRank;
    forall i | 0 <= i < 64
      ensures 0 <= DiagonalStep3(i) < 64 && 0 <= DiagonalStep2(DiagonalStep3(i)) < 64
      ensures 0 <= DiagonalStep1(DiagonalStep2(DiagonalStep3(i)))
      ensures DiagonalStep1(DiagonalStep2(DiagonalStep3(i))) == DiagonalSquare(i)
      ensures 0 <= DiagonalSquare(i) < 64 && DiagonalSquare(DiagonalSquare(i)) == i
    {
      var f, r := File(i), Rank(i);
      CoordinatesOfSquare(i);
      TransposeByBits(f, r);
      var f1, r1 := ExchangeFile(f, r, 1), ExchangeRank(f, r, 1);
      var f2, r2 := ExchangeFile(f1, r1, 2), ExchangeRank(f1, r1, 2);
      DiagonalStepsAt(f, r);
      DiagonalStepsAt(f1, r1);
      DiagonalStepsAt(f2, r2);
      SquareOfCoordinates(r, f);
    }
  }

  /** `flip_diagonal` sends the contents of square `sq` to square
      `DiagonalSquare(sq)`, with file and rank exchanged. */
  lemma FlipDiagonalSquares(bb: Bitboard)
    requires IsBitboard(bb)
    ensures MovesBits(bb, FlipDiagonal(bb), DiagonalSquare)
    ensures IsBitboard(FlipDiagonal(bb))
  {
    var b1 := DeltaSwap(bb, 0x0f0f_0f0f_0000_0000, 28);
    var b2 := DeltaSwap(b1, 0x3333_0000_3333_0000, 14);
    DiagonalSwap1(bb);
    MovedIsBitboard(bb, b1, DiagonalStep1);
    DiagonalSwap2(b1);
    MovedIsBitboard(b1, b2, DiagonalStep2);
    DiagonalSwap3(b2);
    DiagonalMaps();
    Composed(bb, b1, b2, FlipDiagonal(bb), DiagonalStep1, DiagonalStep2, DiagonalStep3, DiagonalSquare);
    MovedIsBitboard(bb, FlipDiagonal(bb), DiagonalSquare);
  }

  /** `flip_diagonal` undoes itself and keeps the number of pieces. */
  lemma FlipDiagonalPermutes(bb: Bitboard)
    requires IsBitboard(bb)
    ensures FlipDiagonal(FlipDiagonal(bb)) == bb
    ensures IsBitboard(FlipDiagonal(bb)) && Ones(FlipDiagonal(bb)) == Ones(bb)
  {
    FlipDiagonalSquares(bb);
    FlipDiagonalSquares(FlipDiagonal(bb));
    DiagonalMaps();
    Permutes(bb, FlipDiagonal(bb), FlipDiagonal(FlipDiagonal(bb)), DiagonalSquare);
  }

  // ---- flip_anti_diagonal, step by step ----

  lemma FarSwapBits(bb: int, k: int, s: nat, i: int)
    requires 0 <= i
    ensures Has(FarSwap(bb, k, s), i)
        == (Has(bb, i) != (Has(k, i) && ((Has(bb, i) != (i >= s && Has(bb, i - s))) != Has(bb, i + s))))
  {
    hide And, Xor, Shl, Shr;
    var t := Xor(bb, Shl(bb, s));
    HasXor(bb, And(Xor(t, Shr(bb, s)), k), i);
    HasAnd(Xor(t, Shr(bb, s)), k, i);
    HasXor(t, Shr(bb, s), i);
    HasXor(bb, Shl(bb, s), i);
    HasShl(bb, s, i);
    HasShr(bb, s, i);
  }

  /** How the first step treats square `i`: a square of the mask takes the
      square `s` above it when that is on the board, or the square `s` below
      it when the one above is off the board; the rest stay. */
  ghost predicate FarCase(k: int, s: nat, step: int -> int, i: int)
    requires 0 <= i
  {
    if Has(k, i) then i < 64 && ((i < s && step(i) == i + s) || (s <= i && 64 <= i + s && step(i) == i - s))
    else 64 <= i || step(i) == i
  }

  lemma FarSwapMoves(x: int, k: int, s: nat, step: int -> int)
    requires IsBitboard(x)
    requires forall i | 0 <= i :: FarCase(k, s, step, i)
    ensures MovesBits(x, FarSwap(x, k, s), step)
  {
    hide FarSwap;
    BitboardWithin(x);
    forall i | 0 <= i
      ensures Has(FarSwap(x, k, s), i) == (i < 64 && 0 <= step(i) && Has(x, step(i)))
    {
      FarSwapBits(x, k, s, i);
      assert FarCase(k, s, step, i);
    }
  }

  /** Each step exchanges one bit of the file with the same bit of the rank,
      complemented, where the two agree: bit 2, then bit 1, then bit 0. */
  function AntiStep1(i: int): int {
    if Rank(i) < 4 && File(i) < 4 then i + 36
    else if Rank(i) >= 4 && File(i) >= 4 then i - 36
    else i
  }

  function AntiStep2(i: int): int {
    if Half(Rank(i)) && Half(File(i)) then i - 18
    else if !Half(Rank(i)) && !Half(File(i)) then i + 18
    else i
  }

  function AntiStep3(i: int): int {
    if Odd(Rank(i)) && Odd(File(i)) then i - 9
    else if !Odd(Rank(i)) && !Odd(File(i)) then i + 9
    else i
  }

  lemma AntiCases1At(i: int)
    requires 0 <= i
    ensures FarCase(0xf0f0_f0f0_0f0f_0f0f, 36, AntiStep1, i)
  {
    hide Has;
    CoordinatesOfSquare(i);
    MaskA36(i);
  }

  lemma AntiCases1()
    ensures forall i | 0 <= i :: FarCase(0xf0f0_f0f0_0f0f_0f0f, 36, AntiStep1, i)
  {
    forall i | 0 <= i
      ensures FarCase(0xf0f0_f0f0_0f0f_0f0f, 36, AntiStep1, i)
    {
      AntiCases1At(i);
    }
  }

  lemma AntiSwap1(x: int)
    requires IsBitboard(x)
    ensures MovesBits(x, FarSwap(x, 0xf0f0_f0f0_0f0f_0f0f, 36), AntiStep1)
  {
    AntiCases1();
    FarSwapMoves(x, 0xf0f0_f0f0_0f0f_0f0f, 36, AntiStep1);
  }

  lemma AntiCases2At(i: int)
    requires 0 <= i
    ensures DeltaCase(0xcccc_0000_cccc_0000, 18, AntiStep2, i)
  {
    hide Has, File, Rank, Odd, Half;
    CoordinatesOfSquare(i);
    MaskA18(i);
    MaskA18(i + 18);
    if i < 64 {
      Residues(File(i));
      Residues(Rank(i));
      if File(i) < 6 { Offset(i, 2, 2); } else { Offset(i, -6, 3); }
    }
  }

  lemma AntiCases2()
    ensures forall i | 0 <= i :: DeltaCase(0xcccc_0000_cccc_0000, 18, AntiStep2, i)
  {
    forall i | 0 <= i
      ensures DeltaCase(0xcccc_0000_cccc_0000, 18, AntiStep2, i)
    {
      AntiCases2At(i);
    }
  }

  lemma AntiSwap2(x: int)
    requires IsBitboard(x)
    ensures MovesBits(x, DeltaSwap(x, 0xcccc_0000_cccc_0000, 18), AntiStep2)
  {
    AntiCases2();
    DeltaSwapMoves(x, 0xcccc_0000_cccc_0000, 18, AntiStep2);
  }

  lemma AntiCases3At(i: int)
    requires 0 <= i
    ensures DeltaCase(0xaa00_aa00_aa00_aa00, 9, AntiStep3, i)
  {
    hide Has, File, Rank, Odd, Half;
    CoordinatesOfSquare(i);
    MaskA9(i);
    MaskA9(i + 9);
    if i < 64 {
      Residues(File(i));
      Residues(Rank(i));
      if File(i) < 7 { Offset(i, 1, 1); } else { Offset(i, -7, 2); }
    }
  }

  lemma AntiCases3()
    ensures forall i | 0 <= i :: DeltaCase(0xaa00_aa00_aa00_aa00, 9, AntiStep3, i)
  {
    forall i | 0 <= i
      ensures DeltaCase(0xaa00_aa00_aa00_aa00, 9, AntiStep3, i)
    {
      AntiCases3At(i);
    }
  }

  lemma AntiSwap3(x: int)
    requires IsBitboard(x)
    ensures MovesBits(x, DeltaSwap(x, 0xaa00_aa00_aa00_aa00, 9), AntiStep3)
  {
    AntiCases3();
    DeltaSwapMoves(x, 0xaa00_aa00_aa00_aa00, 9, AntiStep3);
  }

  /** Where bit `k` of the file and of the rank agree, both flip. */
  function MirrorFile(f: int, r: int, k: int): int
    requires 0 < k
  {
    if BitOf(r, k) && BitOf(f, k) then f - k
    else if !BitOf(r, k) && !BitOf(f, k) then f + k
    else f
  }

  function MirrorRank(f: int, r: int, k: int): int
    requires 0 < k
  {
    if BitOf(r, k) && BitOf(f, k) then r - k
    else if !BitOf(r, k) && !BitOf(f, k) then r + k
    else r
  }

  /** Mirroring bit 0, then bit 1, then bit 2 of square (f, r) lands on
      (7 - r, 7 - f), passing only through board squares. */
  predicate AntiTransposes(f: int, r: int) {
    var f1, r1 := MirrorFile(f, r, 1), MirrorRank(f, r, 1);
    var f2, r2 := MirrorFile(f1, r1, 2), MirrorRank(f1, r1, 2);
    0 <= f1 < 8 && 0 <= r1 < 8 && 0 <= f2 < 8 && 0 <= r2 < 8 &&
    MirrorFile(f2, r2, 4) == 7 - r && MirrorRank(f2, r2, 4) == 7 - f
  }

  /** Each mirror takes the complement of the other coordinate's bit. */
  lemma MirrorDigits(a: int, b: int, c: int, x: int, y: int, z: int)
    requires 0 <= a < 2 && 0 <= b < 2 && 0 <= c < 2 && 0 <= x < 2 && 0 <= y < 2 && 0 <= z < 2
    ensures MirrorFile(4 * a + 2 * b + c, 4 * x + 2 * y + z, 1) == 4 * a + 2 * b + (1 - z)
    ensures MirrorRank(4 * a + 2 * b + c, 4 * x + 2 * y + z, 1) == 4 * x + 2 * y + (1 - c)
    ensures MirrorFile(4 * a + 2 * b + c, 4 * x + 2 * y + z, 2) == 4 * a + 2 * (1 - y) + c
    ensures MirrorRank(4 * a + 2 * b + c, 4 * x + 2 * y + z, 2) == 4 * x + 2 * (1 - b) + z
    ensures MirrorFile(4 * a + 2 * b + c, 4 * x + 2 * y + z, 4) == 4 * (1 - x) + 2 * b + c
    ensures MirrorRank(4 * a + 2 * b + c, 4 * x + 2 * y + z, 4) == 4 * (1 - a) + 2 * y + z
  {
    hide BitOf;
    DigitsOf(a, b, c);
    DigitsOf(x, y, z);
  }

  lemma AntiTransposeDigits(a: int, b: int, c: int, x: int, y: int, z: int)
    requires 0 <= a < 2 && 0 <= b < 2 && 0 <= c < 2 && 0 <= x < 2 && 0 <= y < 2 && 0 <= z < 2
    ensures AntiTransposes(4 * a + 2 * b + c, 4 * x + 2 * y + z)
  {
    hide MirrorFile, MirrorRank;
    MirrorDigits(a, b, c, x, y, z);
    MirrorDigits(a, b, 1 - z, x, y, 1 - c);
    MirrorDigits(a, 1 - y, 1 - z, x, 1 - b, 1 - c);
  }

  lemma AntiTransposeByBits(f: int, r: int)
    requires 0 <= f < 8 && 0 <= r < 8
    ensures AntiTransposes(f, r)
  {
    hide AntiTransposes;
    Digits(f);
    Digits(r);
    AntiTransposeDigits(f / 4, f / 2 % 2, f % 2, r / 4, r / 2 % 2, r % 2);
  }

  /** Each step of `flip_anti_diagonal` on a board square, in coordinates. */
  lemma AntiStepsAt(f: int, r: int)
    requires 0 <= f < 8 && 0 <= r < 8
    ensures AntiStep3(SquareAt(f, r)) == SquareAt(MirrorFile(f, r, 1), MirrorRank(f, r, 1))
    ensures AntiStep2(SquareAt(f, r)) == SquareAt(MirrorFile(f, r, 2), MirrorRank(f, r, 2))
    ensures AntiStep1(SquareAt(f, r)) == SquareAt(MirrorFile(f, r, 4), MirrorRank(f, r, 4))
  {
    hide File, Rank, Odd, Half, BitOf;
    SquareOfCoordinates(f, r);
    CoordinateBits(f);
    CoordinateBits(r);
  }

  lemma AntiMaps()
    ensures ComposesTo(AntiStep1, AntiStep2, AntiStep3, AntiDiagonalSquare)
    ensures Involution(AntiDiagonalSquare)
  {
    hide File, Rank, AntiStep1, AntiStep2, AntiStep3, MirrorFile, MirrorRank;
    forall i | 0 <= i < 64
      ensures 0 <= AntiStep3(i) < 64 && 0 <= AntiStep2(AntiStep3(i)) < 64
      ensures 0 <= AntiStep1(AntiStep2(AntiStep3(i)))
      ensures AntiStep1(AntiStep2(AntiStep3(i))) == AntiDiagonalSquare(i)
      ensures 0 <= AntiDiagonalSquare(i) < 64 && AntiDiagonalSquare(AntiDiagonalSquare(i)) == i
    {
      var f, r := File(i), Rank(i);
      CoordinatesOfSquare(i);
      AntiTransposeByBits(f, r);
      var f1, r1 := MirrorFile(f, r, 1), MirrorRank(f, r, 1);
      var f2, r2 := MirrorFile(f1, r1, 2), MirrorRank(f1, r1, 2);
      AntiStepsAt(f, r);
      AntiStepsAt(f1, r1);
      AntiStepsAt(f2, r2);
      SquareOfCoordinates(7 - r, 7 - f);
    }
  }

  /** `flip_anti_diagonal` sends the contents of square `sq` to square
      `AntiDiagonalSquare(sq)`, mirrored in the a8-h1 diagonal. */
  lemma FlipAntiDiagonalSquares(bb: Bitboard)
    requires IsBitboard(bb)
    ensures MovesBits(bb, FlipAntiDiagonal(bb), AntiDiagonalSquare)
    ensures IsBitboard(FlipAntiDiagonal(bb))
  {
    var b1 := FarSwap(bb, 0xf0f0_f0f0_0f0f_0f0f, 36);
    var b2 := DeltaSwap(b1, 0xcccc_0000_cccc_0000, 18);
    AntiSwap1(bb);
    MovedIsBitboard(bb, b1, AntiStep1);
    AntiSwap2(b1);
    MovedIsBitboard(b1, b2, AntiStep2);
    AntiSwap3(b2);
    AntiMaps();
    Composed(bb, b1, b2, FlipAntiDiagonal(bb), AntiStep1, AntiStep2, AntiStep3, AntiDiagonalSquare);
    MovedIsBitboard(bb, FlipAntiDiagonal(bb), AntiDiagonalSquare);
  }

  /** `flip_anti_diagonal` undoes itself and keeps the number of pieces. */
  lemma FlipAntiDiagonalPermutes(bb: Bitboard)
    requires IsBitboard(bb)
    ensures FlipAntiDiagonal(FlipAntiDiagonal(bb)) == bb
    ensures IsBitboard(FlipAntiDiagonal(bb)) && Ones(FlipAntiDiagonal(bb)) == Ones(bb)
  {
    FlipAntiDiagonalSquares(bb);
    FlipAntiDiagonalSquares(FlipAntiDiagonal(bb));
    AntiMaps();
    Permutes(bb, FlipAntiDiagonal(bb), FlipAntiDiagonal(FlipAntiDiagonal(bb)), AntiDiagonalSquare);
  }

  // ---- the square maps as xor ----

  /** One binary digit of an xor: `X = 2x + p` and `Y = 2y + q`. */
  lemma XorDigit(x: int, y: int, p: int, q: int, X: int, Y: int)
    requires 0 <= p < 2 && 0 <= q < 2 && X == 2 * x + p && Y == 2 * y + q
    ensures Xor(X, Y) == 2 * Xor(x, y) + (if p != q then 1 else 0)
  {
    XorStep(X, Y);
    hide Xor;
    assert X / 2 == x && X % 2 == p;
    assert Y / 2 == y && Y % 2 == q;
  }

  /** `r ^ 7` on a rank or file number in 0 .. 7 mirrors it. */
  lemma XorSeven(r: int)
    requires 0 <= r < 8
    ensures Xor(r, 7) == 7 - r
  {
    Digits(r);
    var a, b, c := r / 4, r / 2 % 2, r % 2;
    assert Xor(a, 1) == 1 - a by {
      if a == 0 { assert Xor(0, 1) == 1; } else { assert Xor(1, 1) == 0; }
    }
    hide Xor;
    XorDigit(a, 1, b, 1, 2 * a + b, 3);
    XorDigit(2 * a + b, 3, c, 1, r, 7);
  }

  /** `flip_vertical` moves square `sq` to `sq ^ 56`. */
  lemma VerticalIsXor(sq: int)
    requires 0 <= sq < 64
    ensures VerticalSquare(sq) == Xor(sq, 56)
  {
    hide Xor, File, Rank;
    var f, r := File(sq), Rank(sq);
    CoordinatesOfSquare(sq);
    Digits(f);
    var d, e, g := f / 4, f / 2 % 2, f % 2;
    XorSeven(r);
    XorDigit(r, 7, d, 0, 2 * r + d, 14);
    XorDigit(2 * r + d, 14, e, 0, 4 * r + 2 * d + e, 28);
    XorDigit(4 * r + 2 * d + e, 28, g, 0, sq, 56);
  }

  /** `flip_horizontal` moves square `sq` to `sq ^ 7`. */
  lemma HorizontalIsXor(sq: int)
    requires 0 <= sq < 64
    ensures HorizontalSquare(sq) == Xor(sq, 7)
  {
    hide Xor, File, Rank;
    var f, r := File(sq), Rank(sq);
    CoordinatesOfSquare(sq);
    Digits(f);
    var d, e, g := f / 4, f / 2 % 2, f % 2;
    XorZero(r);
    XorDigit(r, 0, d, 1, 2 * r + d, 1);
    XorDigit(2 * r + d, 1, e, 1, 4 * r + 2 * d + e, 3);
    XorDigit(4 * r + 2 * d + e, 3, g, 1, sq, 7);
  }
}
