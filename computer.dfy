/** Board geometry and attack generation of `computer.py`: the square and
    file/rank constants, square names, distance, the sliding-attack walk,
    the carry-rippler subset enumeration, the attack tables and the
    ray/between tables.  Squares are Python ints: a1 = 0, ..., h8 = 63. */
module Computer {
  import opened Bits
  import opened Wrappers
  import opened Subsets

  const BB_EMPTY: Bitboard := 0
  const BB_ALL: Bitboard := 0xffff_ffff_ffff_ffff

  /** `BB_SQUARES[sq]` is `1 << sq`; Python's negative indexing makes
      `BB_SQUARES[-1]` the board of h8, `BB_SQUARES[-2]` that of g8, and so on. */
  function SquareBB(sq: int): Bitboard
    requires -64 <= sq < 64
  {
    Shl(1, if sq < 0 then sq + 64 else sq)
  }

  const BB_FILE_A: Bitboard := 0x0101_0101_0101_0101

  /** `BB_FILES[i]`: the file-a pattern shifted `i` places; Python's
      negative indexing makes `BB_FILES[-1]` file h and `BB_FILES[-2]` file g. */
  function FileBB(i: int): Bitboard
    requires -8 <= i < 8
  {
    Shl(BB_FILE_A, if i < 0 then i + 8 else i)
  }

  const BB_FILE_H: Bitboard := FileBB(7)

  /** `BB_RANKS[i]`: `0xff` shifted `8 * i` places, negative `i` counting
      back from rank 8. */
  function RankBB(i: int): Bitboard
    requires -8 <= i < 8
  {
    Shl(0xff, 8 * (if i < 0 then i + 8 else i))
  }

  const BB_RANK_1: Bitboard := RankBB(0)
  const BB_RANK_2: Bitboard := RankBB(1)
  const BB_RANK_7: Bitboard := RankBB(6)
  const BB_RANK_8: Bitboard := RankBB(7)

  const BB_CORNERS: Bitboard := Or(Or(Or(SquareBB(0), SquareBB(7)), SquareBB(56)), SquareBB(63))
  const BB_PROMOTION_RANKS: Bitboard := Or(BB_RANK_1, BB_RANK_8)

  // ---- squares and coordinates ----

  /** The square at file `f` and rank `r`. */
  function SquareAt(f: int, r: int): int {
    8 * r + f
  }

  /** `compute_rank`: `sq >> 3`, which floors like Dafny's `/` by 8. */
  function Rank(sq: int): int {
    sq / 8
  }

  /** `compute_file`: `sq & 7`, which on Python ints equals Dafny's `%` by 8. */
  function File(sq: int): int {
    sq % 8
  }

  /** Every square is `8 * rank + file` with the file in 0 .. 7, and a board
      square has its rank in 0 .. 7 too. */
  lemma CoordinatesOfSquare(sq: int)
    ensures 0 <= File(sq) < 8
    ensures SquareAt(File(sq), Rank(sq)) == sq
    ensures 0 <= sq < 64 <==> 0 <= Rank(sq) < 8
  {
  }

  lemma SquareOfCoordinates(f: int, r: int)
    requires 0 <= f < 8
    ensures File(SquareAt(f, r)) == f && Rank(SquareAt(f, r)) == r
  {
  }

  // ---- the meaning of the constant boards, square by square ----

  lemma FileAPattern()
    ensures Repeat(1, 8, 8) == BB_FILE_A
  {
    Pow8();
    forall x
      ensures Shl(x, 8) == x * 256
    {
      ShlMul(x, 8);
    }
    assert Repeat(1, 8, 1) == 1;
    assert Repeat(1, 8, 2) == 0x0101;
    assert Repeat(1, 8, 3) == 0x01_0101;
    assert Repeat(1, 8, 4) == 0x0101_0101;
    assert Repeat(1, 8, 5) == 0x01_0101_0101;
    assert Repeat(1, 8, 6) == 0x0101_0101_0101;
    assert Repeat(1, 8, 7) == 0x01_0101_0101_0101;
  }

  lemma HasFileA(t: int)
    requires 0 <= t
    ensures Has(BB_FILE_A, t) == (t < 64 && t % 8 == 0)
  {
    FileAPattern();
    Pow8();
    HasRepeat(1, 8, 8, t);
    CopiesBound(t, 8, 8);
    OffsetMod(t, 8);
    if t % 8 != 0 {
      HasPow2(0, t % 8);
    }
  }

  lemma HasSquareBB(sq: int, t: int)
    requires -64 <= sq < 64 && 0 <= t
    ensures Has(SquareBB(sq), t) == (t == if sq < 0 then sq + 64 else sq)
  {
    var s := if sq < 0 then sq + 64 else sq;
    HasShl(1, s, t);
    if t >= s {
      HasPow2(0, t - s);
    }
  }

  lemma HasAll(t: int)
    requires 0 <= t
    ensures Has(BB_ALL, t) == (t < 64)
  {
    Pow64();
    HasLowOnes(64, t);
  }

  /** `BB_FILES[i]` holds exactly the board squares of file `i`. */
  lemma HasFile(i: int, t: int)
    requires -8 <= i < 8 && 0 <= t
    ensures Has(FileBB(i), t) == (t < 64 && File(t) == if i < 0 then i + 8 else i)
  {
    var k := if i < 0 then i + 8 else i;
    HasShl(BB_FILE_A, k, t);
    if t >= k {
      HasFileA(t - k);
    }
  }

  /** `BB_RANKS[i]` holds exactly the board squares of rank `i`. */
  lemma HasRank(i: int, t: int)
    requires -8 <= i < 8 && 0 <= t
    ensures Has(RankBB(i), t) == (t < 64 && Rank(t) == if i < 0 then i + 8 else i)
  {
    var j := if i < 0 then i + 8 else i;
    var k := 8 * j;
    HasShl(0xff, k, t);
    Pow8();
    if t >= k {
      HasLowOnes(8, t - k);
    }
    assert (k <= t < k + 8) == (Rank(t) == j);
  }

  lemma HasCorners(t: int)
    requires 0 <= t
    ensures Has(BB_CORNERS, t) == (t == 0 || t == 7 || t == 56 || t == 63)
  {
    HasOr(Or(Or(SquareBB(0), SquareBB(7)), SquareBB(56)), SquareBB(63), t);
    HasOr(Or(SquareBB(0), SquareBB(7)), SquareBB(56), t);
    HasOr(SquareBB(0), SquareBB(7), t);
    HasSquareBB(0, t);
    HasSquareBB(7, t);
    HasSquareBB(56, t);
    HasSquareBB(63, t);
  }

  lemma HasPromotionRanks(t: int)
    requires 0 <= t
    ensures Has(BB_PROMOTION_RANKS, t) == (t < 64 && (Rank(t) == 0 || Rank(t) == 7))
  {
    HasOr(BB_RANK_1, BB_RANK_8, t);
    HasRank(0, t);
    HasRank(7, t);
  }

  /** A non-negative int whose bits all lie on the board is a bitboard. */
  lemma WithinAll(b: int)
    requires 0 <= b
    requires forall t | 0 <= t :: Has(b, t) ==> t < 64
    ensures IsBitboard(b)
  {
    Pow64();
    forall t | 0 <= t
      ensures Has(And(b, BB_ALL), t) == Has(b, t)
    {
      HasAnd(b, BB_ALL, t);
      HasAll(t);
    }
    BitsEqual(And(b, BB_ALL), b);
    AndRange(b, BB_ALL);
  }

  /** The whole board and every file, rank and square board are bitboards. */
  lemma AllIsBitboard()
    ensures IsBitboard(BB_ALL)
  {
  }

  lemma FileIsBitboard(i: int)
    requires -8 <= i < 8
    ensures IsBitboard(FileBB(i))
  {
    forall t | 0 <= t
      ensures Has(FileBB(i), t) ==> t < 64
    {
      HasFile(i, t);
    }
    ShlMul(BB_FILE_A, if i < 0 then i + 8 else i);
    WithinAll(FileBB(i));
  }

  lemma RankIsBitboard(i: int)
    requires -8 <= i < 8
    ensures IsBitboard(RankBB(i))
  {
    forall t | 0 <= t
      ensures Has(RankBB(i), t) ==> t < 64
    {
      HasRank(i, t);
    }
    ShlMul(0xff, 8 * (if i < 0 then i + 8 else i));
    WithinAll(RankBB(i));
  }

  lemma SquareIsBitboard(sq: int)
    requires -64 <= sq < 64
    ensures IsBitboard(SquareBB(sq))
  {
    forall t | 0 <= t
      ensures Has(SquareBB(sq), t) ==> t < 64
    {
      HasSquareBB(sq, t);
    }
    ShlMul(1, if sq < 0 then sq + 64 else sq);
    WithinAll(SquareBB(sq));
  }

  // ---- square names ----

  const FILE_NAMES: string := "abcdefgh"
  const RANK_NAMES: string := "12345678"

  /** The letter of file `f` and the digit of rank `r`; `NamesSpelledOut`
      shows they are `FILE_NAMES[f]` and `RANK_NAMES[r]`. */
  function FileName(f: int): char
    requires 0 <= f < 8
  {
    ('a' as int + f) as char
  }

  function RankName(r: int): char
    requires 0 <= r < 8
  {
    ('1' as int + r) as char
  }

  lemma NamesSpelledOut()
    ensures forall f | 0 <= f < 8 :: FILE_NAMES[f] == FileName(f)
    ensures forall r | 0 <= r < 8 :: RANK_NAMES[r] == RankName(r)
  {
  }

  /** The name of board square `sq`: its file letter, then its rank digit. */
  function NameOf(sq: int): string
    requires 0 <= sq < 64
  {
    [FileName(File(sq)), RankName(Rank(sq))]
  }

  /** The names of squares `from .. 63`, rank by rank from a1, as the
      comprehension over `RANK_NAMES` and then `FILE_NAMES` lists them. */
  function NamesFrom(from: nat): (names: seq<string>)
    ensures |names| == if from >= 64 then 0 else 64 - from
    decreases 64 - from
  {
    if from >= 64 then [] else [NameOf(from)] + NamesFrom(from + 1)
  }

  const SQUARE_NAMES: seq<string> := NamesFrom(0)

  lemma {:induction false} NamesFromIndex(from: nat, sq: int)
    requires from <= sq < 64
    ensures NamesFrom(from)[sq - from] == NameOf(sq)
    decreases 64 - from
  {
    var rest := NamesFrom(from + 1);
    assert NamesFrom(from) == [NameOf(from)] + rest;
    if sq > from {
      NamesFromIndex(from + 1, sq);
      assert NamesFrom(from)[sq - from] == rest[sq - (from + 1)];
    }
  }

  /** Python list indexing, where a negative index counts from the end. */
  function PyAt<T>(xs: seq<T>, i: int): T
    requires -|xs| <= i < |xs|
  {
    if i < 0 then xs[i + |xs|] else xs[i]
  }

  /** Python's `list.index`: the first position holding `x`, or nothing
      where Python raises `ValueError`. */
  function IndexOf<T(==)>(xs: seq<T>, x: T): (r: Option<int>)
    ensures r.Some? <==> x in xs
    ensures r.Some? ==> 0 <= r.value < |xs| && xs[r.value] == x && x !in xs[..r.value]
  {
    if |xs| == 0 then None
    else if xs[0] == x then Some(0)
    else match IndexOf(xs[1..], x)
      case None => None
      case Some(i) =>
        assert xs[1..][..i] == xs[1..i + 1];
        Some(i + 1)
  }

  /** `compute_square`: the square a name denotes, or nothing (`ValueError`). */
  function ComputeSquare(name: string): (r: Option<int>)
    ensures r.Some? ==> 0 <= r.value < 64
  {
    IndexOf(SQUARE_NAMES, name)
  }

  /** `compute_square_name`; a negative square counts back from h8. */
  function ComputeSquareName(sq: int): string
    requires -64 <= sq < 64
  {
    PyAt(SQUARE_NAMES, sq)
  }

  /** Every square name is a file letter followed by a rank digit. */
  lemma SquareNameSpelledOut(sq: int)
    requires 0 <= sq < 64
    ensures ComputeSquareName(sq) == [FileName(File(sq)), RankName(Rank(sq))]
    ensures 'a' <= ComputeSquareName(sq)[0] <= 'h' && '1' <= ComputeSquareName(sq)[1] <= '8'
  {
    NamesFromIndex(0, sq);
  }

  lemma SquareNamesDistinct(a: int, b: int)
    requires 0 <= a < 64 && 0 <= b < 64
    ensures SQUARE_NAMES[a] == SQUARE_NAMES[b] <==> a == b
  {
    SquareNameSpelledOut(a);
    SquareNameSpelledOut(b);
    if SQUARE_NAMES[a] == SQUARE_NAMES[b] {
      assert SQUARE_NAMES[a][0] == SQUARE_NAMES[b][0] && SQUARE_NAMES[a][1] == SQUARE_NAMES[b][1];
      CoordinatesOfSquare(a);
      CoordinatesOfSquare(b);
    }
  }

  /** Naming a board square and parsing the name back gives the square. */
  lemma SquareNameRoundTrip(sq: int)
    requires 0 <= sq < 64
    ensures ComputeSquare(ComputeSquareName(sq)) == Some(sq)
  {
    var name := ComputeSquareName(sq);
    assert SQUARE_NAMES[sq] == name;
    var r := ComputeSquare(name);
    SquareNamesDistinct(sq, r.value);
  }

  /** A name that parses is a file letter followed by a rank digit, and it
      denotes the square of that file and rank. */
  lemma ParsedNameShape(name: string)
    requires ComputeSquare(name).Some?
    ensures |name| == 2 && 'a' <= name[0] <= 'h' && '1' <= name[1] <= '8'
    ensures ComputeSquare(name).value == SquareAt(name[0] as int - 'a' as int, name[1] as int - '1' as int)
  {
    var sq := ComputeSquare(name).value;
    SquareNameSpelledOut(sq);
    CoordinatesOfSquare(sq);
    assert name[0] as int - 'a' as int == File(sq);
    assert name[1] as int - '1' as int == Rank(sq);
  }

  /** Every file letter followed by a rank digit parses. */
  lemma WellFormedNameParses(name: string)
    requires |name| == 2 && 'a' <= name[0] <= 'h' && '1' <= name[1] <= '8'
    ensures ComputeSquare(name).Some?
  {
    var f := name[0] as int - 'a' as int;
    var r := name[1] as int - '1' as int;
    var sq := SquareAt(f, r);
    SquareOfCoordinates(f, r);
    SquareNameSpelledOut(sq);
    assert FileName(f) == name[0] && RankName(r) == name[1];
    assert SQUARE_NAMES[sq] == [name[0], name[1]] == name;
  }

  // ---- distance ----

  function Abs(x: int): nat {
    if x < 0 then -x else x
  }

  /** `compute_distance`: the king-move (Chebyshev) distance. */
  function Distance(a: int, b: int): int {
    var fd := Abs(File(a) - File(b));
    var rd := Abs(Rank(a) - Rank(b));
    if fd < rd then rd else fd
  }

  /** Distance is zero exactly between equal squares, and symmetric. */
  lemma DistanceIsMetric(a: int, b: int)
    ensures Distance(a, b) >= 0
    ensures Distance(a, b) == 0 <==> a == b
    ensures Distance(a, b) == Distance(b, a)
  {
    CoordinatesOfSquare(a);
    CoordinatesOfSquare(b);
  }

  /** The triangle inequality. */
  lemma DistanceTriangle(a: int, b: int, c: int)
    ensures Distance(a, c) <= Distance(a, b) + Distance(b, c)
  {
  }

  /** The distance is at least the number of files between the squares. */
  lemma DistanceAtLeastFiles(a: int, b: int)
    ensures Distance(a, b) >= Abs(File(a) - File(b))
  {
  }

  /** Two board squares are at most 7 apart. */
  lemma DistanceBound(a: int, b: int)
    requires 0 <= a < 64 && 0 <= b < 64
    ensures Distance(a, b) <= 7
  {
    CoordinatesOfSquare(a);
    CoordinatesOfSquare(b);
  }

  // ---- edges ----

  /** `compute_edges`: the outer ranks and files, except those `sq` lies on. */
  function Edges(sq: int): Bitboard
    requires -64 <= sq < 64
  {
    Or(And(Or(BB_RANK_1, BB_RANK_8), Not(RankBB(Rank(sq)))),
       And(Or(BB_FILE_A, BB_FILE_H), Not(FileBB(File(sq)))))
  }

  /** A square is an edge of `sq` when it is on rank 1 or 8 and `sq` is not
      on that rank, or on file a or h and `sq` is not on that file. */
  lemma EdgesSquares(sq: int, t: int)
    requires 0 <= sq < 64 && 0 <= t
    ensures Has(Edges(sq), t) <==>
      (t < 64 &&
       (((Rank(t) == 0 || Rank(t) == 7) && Rank(t) != Rank(sq)) ||
        ((File(t) == 0 || File(t) == 7) && File(t) != File(sq))))
  {
    CoordinatesOfSquare(sq);
    HasOr(And(Or(BB_RANK_1, BB_RANK_8), Not(RankBB(Rank(sq)))), And(Or(BB_FILE_A, BB_FILE_H), Not(FileBB(File(sq)))), t);
    HasAnd(Or(BB_RANK_1, BB_RANK_8), Not(RankBB(Rank(sq))), t);
    HasAnd(Or(BB_FILE_A, BB_FILE_H), Not(FileBB(File(sq))), t);
    HasOr(BB_RANK_1, BB_RANK_8, t);
    HasOr(BB_FILE_A, BB_FILE_H, t);
    HasNot(RankBB(Rank(sq)), t);
    HasNot(FileBB(File(sq)), t);
    HasRank(0, t);
    HasRank(7, t);
    HasRank(Rank(sq), t);
    HasFile(0, t);
    HasFile(7, t);
    HasFile(File(sq), t);
    HasFileA(t);
  }

  // ---- sliding and stepping attacks ----

  /** No delta is zero; with a zero delta the walk below would stay on its
      square forever. */
  predicate NonZeroDeltas(deltas: seq<int>) {
    forall i | 0 <= i < |deltas| :: deltas[i] != 0
  }

  /** The walk goes on from `sq` to `sq + delta` when that square is on the
      board and no more than two files and two ranks away (the wrap guard). */
  predicate Continues(sq: int, delta: int) {
    0 <= sq + delta < 64 && Distance(sq + delta, sq) <= 2
  }

  /** What one walk of `compute_sliding_attacks` adds: starting after
      `from`, every square along `delta` while the walk continues, up to and
      including the first occupied one. */
  function RayAttacks(from: int, occupied: Bitboard, delta: int): Bitboard
    requires delta != 0
    decreases if delta > 0 then 64 - from else from
  {
    if !Continues(from, delta) then BB_EMPTY
    else if And(occupied, SquareBB(from + delta)) != 0 then SquareBB(from + delta)
    else Or(SquareBB(from + delta), RayAttacks(from + delta, occupied, delta))
  }

  /** The union of the walks along `deltas`, in order. */
  function SlidingAttacks(square: int, occupied: Bitboard, deltas: seq<int>): Bitboard
    requires NonZeroDeltas(deltas)
  {
    if |deltas| == 0 then BB_EMPTY
    else Or(SlidingAttacks(square, occupied, deltas[..|deltas| - 1]),
            RayAttacks(square, occupied, deltas[|deltas| - 1]))
  }

  /** `compute_sliding_attacks`. */
  method ComputeSlidingAttacks(square: int, occupied: Bitboard, deltas: seq<int>) returns (attacks: Bitboard)
    requires NonZeroDeltas(deltas)
    ensures attacks == SlidingAttacks(square, occupied, deltas)
  {
    hide Or, And, Distance, SquareBB;
    attacks := BB_EMPTY;
    for i := 0 to |deltas|
      invariant attacks == SlidingAttacks(square, occupied, deltas[..i])
    {
      var delta := deltas[i];
      ghost var before := attacks;
      var sq := square;
      while true
        invariant Or(attacks, RayAttacks(sq, occupied, delta)) == Or(before, RayAttacks(square, occupied, delta))
        decreases if delta > 0 then 64 - sq else sq
      {
        sq := sq + delta;
        if !(0 <= sq < 64) || Distance(sq, sq - delta) > 2 {
          OrZero(attacks);
          break;
        }
        OrAssoc(attacks, SquareBB(sq), RayAttacks(sq, occupied, delta));
        attacks := Or(attacks, SquareBB(sq));
        if And(occupied, SquareBB(sq)) != 0 {
          break;
        }
      }
      assert deltas[..i + 1][..i] == deltas[..i];
    }
    assert deltas[..|deltas|] == deltas;
  }

  /** The squares of a walk, one by one: the next square is attacked when the
      walk continues to it, and the walk goes past it only when it is empty. */
  predicate OnRay(from: int, occupied: Bitboard, delta: int, t: int)
    requires delta != 0
    decreases if delta > 0 then 64 - from else from
  {
    Continues(from, delta) &&
    (t == from + delta || (!Has(occupied, from + delta) && OnRay(from + delta, occupied, delta, t)))
  }

  /** The occupancy test of the walk, `occupied & BB_SQUARES[sq]`, is
      non-zero exactly when `sq` is occupied. */
  lemma OccupiedTest(occupied: Bitboard, sq: int)
    requires 0 <= sq < 64
    ensures And(occupied, SquareBB(sq)) != 0 <==> Has(occupied, sq)
  {
    HasAnd(occupied, SquareBB(sq), sq);
    HasSquareBB(sq, sq);
    NonZero(And(occupied, SquareBB(sq)));
    if And(occupied, SquareBB(sq)) != 0 {
      var t :| 0 <= t && Has(And(occupied, SquareBB(sq)), t);
      HasAnd(occupied, SquareBB(sq), t);
      HasSquareBB(sq, t);
    }
  }

  lemma {:induction false} RayAttacksSquares(from: int, occupied: Bitboard, delta: int, t: int)
    requires delta != 0 && 0 <= t
    ensures Has(RayAttacks(from, occupied, delta), t) == OnRay(from, occupied, delta, t)
    decreases if delta > 0 then 64 - from else from
  {
    if Continues(from, delta) {
      var next := from + delta;
      OccupiedTest(occupied, next);
      HasSquareBB(next, t);
      if !Has(occupied, next) {
        HasOr(SquareBB(next), RayAttacks(next, occupied, delta), t);
        RayAttacksSquares(next, occupied, delta, t);
      }
    } else {
      HasZero(t);
    }
  }

  /** A square attacked by `compute_sliding_attacks` is one some walk along
      one of the deltas reaches. */
  lemma {:induction false} SlidingAttacksSquares(square: int, occupied: Bitboard, deltas: seq<int>, t: int)
    requires NonZeroDeltas(deltas) && 0 <= t
    ensures Has(SlidingAttacks(square, occupied, deltas), t) <==>
      exists i | 0 <= i < |deltas| :: OnRay(square, occupied, deltas[i], t)
    decreases |deltas|
  {
    if |deltas| == 0 {
      HasZero(t);
    } else {
      var n := |deltas| - 1;
      var init := deltas[..n];
      HasOr(SlidingAttacks(square, occupied, init), RayAttacks(square, occupied, deltas[n]), t);
      SlidingAttacksSquares(square, occupied, init, t);
      RayAttacksSquares(square, occupied, deltas[n], t);
      if exists i | 0 <= i < |deltas| :: OnRay(square, occupied, deltas[i], t) {
        var i :| 0 <= i < |deltas| && OnRay(square, occupied, deltas[i], t);
        if i < n {
          assert init[i] == deltas[i];
        }
      }
      if exists i | 0 <= i < |init| :: OnRay(square, occupied, init[i], t) {
        var i :| 0 <= i < |init| && OnRay(square, occupied, init[i], t);
        assert deltas[i] == init[i];
      }
    }
  }

  /** Each walk moves strictly away from its start. */
  lemma {:induction false} RayAhead(from: int, occupied: Bitboard, delta: int, t: int)
    requires delta != 0 && OnRay(from, occupied, delta, t)
    ensures delta > 0 ==> t > from
    ensures delta < 0 ==> t < from
    decreases if delta > 0 then 64 - from else from
  {
    if t != from + delta {
      RayAhead(from + delta, occupied, delta, t);
    }
  }

  /** `compute_sliding_attacks` never attacks the square it starts from. */
  lemma OriginNotAttacked(square: int, occupied: Bitboard, deltas: seq<int>)
    requires NonZeroDeltas(deltas) && 0 <= square
    ensures !Has(SlidingAttacks(square, occupied, deltas), square)
  {
    SlidingAttacksSquares(square, occupied, deltas, square);
    if exists i | 0 <= i < |deltas| :: OnRay(square, occupied, deltas[i], square) {
      var i :| 0 <= i < |deltas| && OnRay(square, occupied, deltas[i], square);
      RayAhead(square, occupied, deltas[i], square);
    }
  }

  /** `u` comes before `t` along `delta`. */
  predicate Before(u: int, t: int, delta: int) {
    if delta > 0 then u < t else u > t
  }

  /** A walk attacks exactly the squares of its empty-board walk that no
      occupied square precedes: it includes the first occupied square and
      nothing beyond it. */
  lemma {:induction false} RayStopsAtFirstBlocker(from: int, occupied: Bitboard, delta: int, t: int)
    requires delta != 0
    ensures OnRay(from, occupied, delta, t) <==>
      OnRay(from, BB_EMPTY, delta, t) &&
      forall u | 0 <= u && OnRay(from, BB_EMPTY, delta, u) && Before(u, t, delta) :: !Has(occupied, u)
    decreases if delta > 0 then 64 - from else from
  {
    if Continues(from, delta) {
      var next := from + delta;
      HasZero(next);
      forall u | 0 <= u && OnRay(next, BB_EMPTY, delta, u)
        ensures Before(next, u, delta)
      {
        RayAhead(next, BB_EMPTY, delta, u);
      }
      if t != next {
        RayStopsAtFirstBlocker(next, occupied, delta, t);
        if OnRay(next, BB_EMPTY, delta, t) {
          RayAhead(next, BB_EMPTY, delta, t);
        }
      }
    }
  }

  /** `compute_step_attacks`: the walks over a full board, each of which
      stops after its first step. */
  function StepAttacks(square: int, deltas: seq<int>): Bitboard
    requires NonZeroDeltas(deltas)
  {
    SlidingAttacks(square, BB_ALL, deltas)
  }

  /** The step attacks are exactly the squares `square + delta` that are on
      the board and at most two files and ranks from `square`. */
  lemma StepAttacksSquares(square: int, deltas: seq<int>, t: int)
    requires NonZeroDeltas(deltas) && 0 <= t
    ensures Has(StepAttacks(square, deltas), t) <==>
      exists i | 0 <= i < |deltas| :: Continues(square, deltas[i]) && t == square + deltas[i]
  {
    SlidingAttacksSquares(square, BB_ALL, deltas, t);
    forall i | 0 <= i < |deltas|
      ensures OnRay(square, BB_ALL, deltas[i], t) <==> Continues(square, deltas[i]) && t == square + deltas[i]
    {
      if Continues(square, deltas[i]) {
        HasAll(square + deltas[i]);
      }
    }
  }

  // ---- the geometry of the slider walks ----

  /** The deltas of the sliding pieces: one step along a rank, a file or a diagonal. */
  predicate SliderDelta(delta: int) {
    delta == 1 || delta == -1 || delta == 8 || delta == -8 ||
    delta == 7 || delta == -7 || delta == 9 || delta == -9
  }

  /** The file change of one step along a slider delta. */
  function FileStep(delta: int): int {
    if delta == 1 || delta == 9 || delta == -7 then 1
    else if delta == -1 || delta == -9 || delta == 7 then -1
    else 0
  }

  /** The rank change of one step along a slider delta. */
  function RankStep(delta: int): int {
    if delta >= 7 then 1 else if delta <= -7 then -1 else 0
  }

  /** Each slider delta is eight times its rank change plus its file change. */
  lemma DeltaParts(delta: int)
    requires SliderDelta(delta)
    ensures delta == 8 * RankStep(delta) + FileStep(delta)
    ensures -1 <= FileStep(delta) <= 1 && -1 <= RankStep(delta) <= 1
  {
  }

  /** A step that keeps the file on the board moves the coordinates by the
      step; one that leaves it lands seven files away. */
  lemma StepCoordinates(f: int, r: int, fs: int, rs: int, n: int)
    requires 0 <= f < 8 && -1 <= fs <= 1 && n == SquareAt(f, r) + 8 * rs + fs
    ensures 0 <= f + fs < 8 ==> File(n) == f + fs && Rank(n) == r + rs
    ensures !(0 <= f + fs < 8) ==> Abs(File(n) - f) == 7
  {
    if 0 <= f + fs < 8 {
      assert n == SquareAt(f + fs, r + rs);
      SquareOfCoordinates(f + fs, r + rs);
    } else if f + fs < 0 {
      assert n == SquareAt(7, r + rs - 1);
      SquareOfCoordinates(7, r + rs - 1);
    } else {
      assert n == SquareAt(0, r + rs + 1);
      SquareOfCoordinates(0, r + rs + 1);
    }
  }

  /** A step that keeps the file on the board moves both coordinates by the
      step's amounts. */
  lemma StepInside(sq: int, delta: int)
    requires 0 <= sq < 64 && SliderDelta(delta) && 0 <= File(sq) + FileStep(delta) < 8
    ensures File(sq + delta) == File(sq) + FileStep(delta) && Rank(sq + delta) == Rank(sq) + RankStep(delta)
  {
    hide File, Rank;
    DeltaParts(delta);
    CoordinatesOfSquare(sq);
    StepCoordinates(File(sq), Rank(sq), FileStep(delta), RankStep(delta), sq + delta);
  }

  /** Such a step passes the guard exactly when the rank stays on the board. */
  lemma StepInsideGuard(sq: int, delta: int)
    requires 0 <= sq < 64 && SliderDelta(delta) && 0 <= File(sq) + FileStep(delta) < 8
    ensures Continues(sq, delta) <==> 0 <= Rank(sq) + RankStep(delta) < 8
  {
    hide File, Rank;
    StepInside(sq, delta);
    DeltaParts(delta);
    CoordinatesOfSquare(sq + delta);
  }

  /** A step that would leave the file wraps around the board, and the
      guard stops it. */
  lemma StepWraps(sq: int, delta: int)
    requires 0 <= sq < 64 && SliderDelta(delta) && !(0 <= File(sq) + FileStep(delta) < 8)
    ensures !Continues(sq, delta)
  {
    hide Distance, File, Rank;
    DeltaParts(delta);
    CoordinatesOfSquare(sq);
    WrapFar(sq, FileStep(delta), RankStep(delta), sq + delta);
  }

  /** The square a wrapping step lands on is seven files away. */
  lemma WrapFar(sq: int, fs: int, rs: int, n: int)
    requires 0 <= File(sq) < 8 && -1 <= fs <= 1 && !(0 <= File(sq) + fs < 8)
    requires n == SquareAt(File(sq), Rank(sq)) + 8 * rs + fs
    ensures Distance(n, sq) >= 7
  {
    StepCoordinates(File(sq), Rank(sq), fs, rs, n);
    DistanceAtLeastFiles(n, sq);
  }

  /** The wrap guard lets a slider step through exactly when the file and
      the rank change by the step's amounts and stay on the board. */
  lemma StepGeometry(sq: int, delta: int)
    requires 0 <= sq < 64 && SliderDelta(delta)
    ensures Continues(sq, delta) <==>
      0 <= File(sq) + FileStep(delta) < 8 && 0 <= Rank(sq) + RankStep(delta) < 8
    ensures Continues(sq, delta) ==>
      File(sq + delta) == File(sq) + FileStep(delta) && Rank(sq + delta) == Rank(sq) + RankStep(delta)
  {
    if 0 <= File(sq) + FileStep(delta) < 8 {
      StepInside(sq, delta);
      StepInsideGuard(sq, delta);
    } else {
      StepWraps(sq, delta);
    }
  }

  function Sign(x: int): int {
    if x > 0 then 1 else if x < 0 then -1 else 0
  }

  /** A displacement of `df` files and `dr` ranks points along the step
      `(sf, sr)`: same signs, and as many files as ranks on a diagonal. */
  predicate Along(df: int, dr: int, sf: int, sr: int) {
    Sign(df) == sf && Sign(dr) == sr && (sf != 0 && sr != 0 ==> Abs(df) == Abs(dr))
  }

  /** A displacement along a step is the step itself or the step followed by
      a shorter displacement along it. */
  lemma AlongPeel(df: int, dr: int, sf: int, sr: int)
    requires -1 <= sf <= 1 && -1 <= sr <= 1 && (sf != 0 || sr != 0)
    ensures Along(df, dr, sf, sr) <==> (df == sf && dr == sr) || Along(df - sf, dr - sr, sf, sr)
  {
  }

  /** `t` lies strictly ahead of `a` on the line through `a` along `delta`. */
  predicate Ahead(a: int, t: int, delta: int) {
    Along(File(t) - File(a), Rank(t) - Rank(a), FileStep(delta), RankStep(delta))
  }

  /** A board square ahead of `a` leaves room for the first step. */
  lemma AheadRoom(a: int, t: int, delta: int)
    requires 0 <= a < 64 && 0 <= t < 64 && SliderDelta(delta) && Ahead(a, t, delta)
    ensures 0 <= File(a) + FileStep(delta) < 8 && 0 <= Rank(a) + RankStep(delta) < 8
  {
    CoordinatesOfSquare(a);
    CoordinatesOfSquare(t);
  }

  /** A square ahead of `a` is the next square or ahead of it. */
  lemma AheadPeel(a: int, t: int, delta: int)
    requires 0 <= a < 64 && SliderDelta(delta) && Continues(a, delta)
    ensures Ahead(a, t, delta) <==> t == a + delta || Ahead(a + delta, t, delta)
  {
    var next := a + delta;
    StepGeometry(a, delta);
    AlongPeel(File(t) - File(a), Rank(t) - Rank(a), FileStep(delta), RankStep(delta));
    CoordinatesOfSquare(t);
    CoordinatesOfSquare(next);
    assert (File(t) == File(next) && Rank(t) == Rank(next)) == (t == next);
  }

  /** Where the walk stops at once, no board square is ahead. */
  lemma NothingAhead(a: int, t: int, delta: int)
    requires 0 <= a < 64 && SliderDelta(delta) && !Continues(a, delta)
    ensures !(0 <= t < 64 && Ahead(a, t, delta))
  {
    if 0 <= t < 64 && Ahead(a, t, delta) {
      AheadRoom(a, t, delta);
      StepGeometry(a, delta);
    }
  }

  lemma EmptyRayStep(a: int, delta: int, t: int)
    requires 0 <= a < 64 && SliderDelta(delta) && Continues(a, delta)
    requires OnRay(a + delta, BB_EMPTY, delta, t) <==> 0 <= t < 64 && Ahead(a + delta, t, delta)
    ensures OnRay(a, BB_EMPTY, delta, t) <==> 0 <= t < 64 && Ahead(a, t, delta)
  {
    HasZero(a + delta);
    AheadPeel(a, t, delta);
  }

  /** On an empty board a slider walk reaches exactly the board squares
      ahead of its start: it never wraps around an edge. */
  lemma {:induction false} EmptyRay(a: int, delta: int, t: int)
    requires 0 <= a < 64 && SliderDelta(delta)
    ensures OnRay(a, BB_EMPTY, delta, t) <==> 0 <= t < 64 && Ahead(a, t, delta)
    decreases if delta > 0 then 64 - a else a
  {
    if Continues(a, delta) {
      EmptyRay(a + delta, delta, t);
      EmptyRayStep(a, delta, t);
    } else {
      NothingAhead(a, t, delta);
    }
  }

  /** The deltas of the three slider tables. */
  const DIAG_DELTAS: seq<int> := [7, 9, -7, -9]
  const FILE_DELTAS: seq<int> := [-8, 8]
  const RANK_DELTAS: seq<int> := [-1, 1]

  /** The diagonal walks, spelled out one by one. */
  lemma DiagonalWalks(a: int, occupied: Bitboard, t: int)
    requires 0 <= t
    ensures Has(SlidingAttacks(a, occupied, DIAG_DELTAS), t) <==>
      OnRay(a, occupied, 7, t) || OnRay(a, occupied, 9, t) || OnRay(a, occupied, -7, t) || OnRay(a, occupied, -9, t)
  {
    var ds := DIAG_DELTAS;
    SlidingAttacksSquares(a, occupied, ds, t);
    assert ds[0] == 7 && ds[1] == 9 && ds[2] == -7 && ds[3] == -9;
    if exists i | 0 <= i < |ds| :: OnRay(a, occupied, ds[i], t) {
      var i :| 0 <= i < |ds| && OnRay(a, occupied, ds[i], t);
      assert i == 0 || i == 1 || i == 2 || i == 3;
    }
  }

  lemma EmptyDiagonalWalks(a: int, t: int)
    requires 0 <= a < 64 && 0 <= t
    ensures (OnRay(a, BB_EMPTY, 7, t) || OnRay(a, BB_EMPTY, 9, t) || OnRay(a, BB_EMPTY, -7, t) || OnRay(a, BB_EMPTY, -9, t)) <==>
      t < 64 && (Ahead(a, t, 7) || Ahead(a, t, 9) || Ahead(a, t, -7) || Ahead(a, t, -9))
  {
    EmptyRay(a, 7, t);
    EmptyRay(a, 9, t);
    EmptyRay(a, -7, t);
    EmptyRay(a, -9, t);
  }

  /** The empty-board attacks of a two-delta slider list, spelled out. */
  lemma EmptyOfTwo(a: int, deltas: seq<int>, t: int)
    requires 0 <= a < 64 && 0 <= t && |deltas| == 2
    requires SliderDelta(deltas[0]) && SliderDelta(deltas[1])
    ensures Has(SlidingAttacks(a, BB_EMPTY, deltas), t) <==>
      t < 64 && (Ahead(a, t, deltas[0]) || Ahead(a, t, deltas[1]))
  {
    SlidingAttacksSquares(a, BB_EMPTY, deltas, t);
    EmptyRay(a, deltas[0], t);
    EmptyRay(a, deltas[1], t);
  }

  /** Two distinct squares differ in file or rank. */
  lemma DistinctSquares(a: int, t: int)
    ensures a == t <==> File(t) - File(a) == 0 && Rank(t) - Rank(a) == 0
  {
    CoordinatesOfSquare(a);
    CoordinatesOfSquare(t);
  }

  /** The four diagonal directions together cover every non-zero
      displacement with as many files as ranks. */
  lemma DiagonalDirections(df: int, dr: int)
    ensures Along(df, dr, -1, 1) || Along(df, dr, 1, 1) || Along(df, dr, 1, -1) || Along(df, dr, -1, -1) <==>
      !(df == 0 && dr == 0) && Abs(df) == Abs(dr)
  {
  }

  lemma RankDirections(df: int, dr: int)
    ensures Along(df, dr, -1, 0) || Along(df, dr, 1, 0) <==> df != 0 && dr == 0
  {
  }

  lemma FileDirections(df: int, dr: int)
    ensures Along(df, dr, 0, -1) || Along(df, dr, 0, 1) <==> df == 0 && dr != 0
  {
  }

  lemma AheadDiagonal(a: int, t: int)
    ensures (Ahead(a, t, 7) || Ahead(a, t, 9) || Ahead(a, t, -7) || Ahead(a, t, -9)) <==>
      t != a && Abs(File(t) - File(a)) == Abs(Rank(t) - Rank(a))
  {
    var df := File(t) - File(a);
    var dr := Rank(t) - Rank(a);
    assert Ahead(a, t, 7) == Along(df, dr, -1, 1);
    assert Ahead(a, t, 9) == Along(df, dr, 1, 1);
    assert Ahead(a, t, -7) == Along(df, dr, 1, -1);
    assert Ahead(a, t, -9) == Along(df, dr, -1, -1);
    DiagonalDirections(df, dr);
    DistinctSquares(a, t);
  }

  lemma AheadRank(a: int, t: int)
    ensures (Ahead(a, t, -1) || Ahead(a, t, 1)) <==> t != a && Rank(t) == Rank(a)
  {
    var df := File(t) - File(a);
    var dr := Rank(t) - Rank(a);
    assert Ahead(a, t, -1) == Along(df, dr, -1, 0);
    assert Ahead(a, t, 1) == Along(df, dr, 1, 0);
    RankDirections(df, dr);
    DistinctSquares(a, t);
  }

  lemma AheadFile(a: int, t: int)
    ensures (Ahead(a, t, -8) || Ahead(a, t, 8)) <==> t != a && File(t) == File(a)
  {
    var df := File(t) - File(a);
    var dr := Rank(t) - Rank(a);
    assert Ahead(a, t, -8) == Along(df, dr, 0, -1);
    assert Ahead(a, t, 8) == Along(df, dr, 0, 1);
    FileDirections(df, dr);
    DistinctSquares(a, t);
  }

  /** On an empty board the diagonal walks reach the other squares of both
      diagonals through `a`. */
  lemma EmptyDiagonals(a: int, t: int)
    requires 0 <= a < 64 && 0 <= t
    ensures Has(SlidingAttacks(a, BB_EMPTY, DIAG_DELTAS), t) <==>
      t < 64 && t != a && Abs(File(t) - File(a)) == Abs(Rank(t) - Rank(a))
  {
    DiagonalWalks(a, BB_EMPTY, t);
    EmptyDiagonalWalks(a, t);
    AheadDiagonal(a, t);
  }

  /** On an empty board the rank walks reach the other squares of `a`'s rank. */
  lemma EmptyRank(a: int, t: int)
    requires 0 <= a < 64 && 0 <= t
    ensures Has(SlidingAttacks(a, BB_EMPTY, RANK_DELTAS), t) <==>
      t < 64 && t != a && Rank(t) == Rank(a)
  {
    EmptyOfTwo(a, RANK_DELTAS, t);
    AheadRank(a, t);
  }

  /** On an empty board the file walks reach the other squares of `a`'s file. */
  lemma EmptyFile(a: int, t: int)
    requires 0 <= a < 64 && 0 <= t
    ensures Has(SlidingAttacks(a, BB_EMPTY, FILE_DELTAS), t) <==>
      t < 64 && t != a && File(t) == File(a)
  {
    EmptyOfTwo(a, FILE_DELTAS, t);
    AheadFile(a, t);
  }

  /** Every walk's squares are board squares. */
  lemma {:induction false} RayIsBitboard(from: int, occupied: Bitboard, delta: int)
    requires delta != 0
    ensures IsBitboard(RayAttacks(from, occupied, delta))
    decreases if delta > 0 then 64 - from else from
  {
    Pow64();
    if Continues(from, delta) {
      SquareIsBitboard(from + delta);
      if And(occupied, SquareBB(from + delta)) == 0 {
        RayIsBitboard(from + delta, occupied, delta);
        OrBelow(SquareBB(from + delta), RayAttacks(from + delta, occupied, delta), 64);
      }
    }
  }

  lemma {:induction false} SlidingIsBitboard(square: int, occupied: Bitboard, deltas: seq<int>)
    requires NonZeroDeltas(deltas)
    ensures IsBitboard(SlidingAttacks(square, occupied, deltas))
    decreases |deltas|
  {
    Pow64();
    if |deltas| > 0 {
      var n := |deltas| - 1;
      SlidingIsBitboard(square, occupied, deltas[..n]);
      RayIsBitboard(square, occupied, deltas[n]);
      OrBelow(SlidingAttacks(square, occupied, deltas[..n]), RayAttacks(square, occupied, deltas[n]), 64);
    }
  }

  // ---- relevant-occupancy masks and the table lookup ----

  /** Every delta is a slider delta. */
  predicate AllSliders(deltas: seq<int>) {
    forall i | 0 <= i < |deltas| :: SliderDelta(deltas[i])
  }

  /** The mask `compute_mask_attack_table` stores for `sq`: the empty-board
      attacks without the edges of `sq`. */
  function Mask(sq: int, deltas: seq<int>): (r: Bitboard)
    requires 0 <= sq < 64 && NonZeroDeltas(deltas)
    ensures IsBitboard(r)
  {
    var e := SlidingAttacks(sq, BB_EMPTY, deltas);
    SlidingIsBitboard(sq, BB_EMPTY, deltas);
    AndComm(e, Not(Edges(sq)));
    AndRange(Not(Edges(sq)), e);
    And(e, Not(Edges(sq)))
  }

  /** The mask holds the empty-board attacks that are not edges of `sq`;
      it is a bitboard and never holds `sq` itself. */
  lemma MaskSquares(sq: int, deltas: seq<int>, t: int)
    requires 0 <= sq < 64 && NonZeroDeltas(deltas) && 0 <= t
    ensures Has(Mask(sq, deltas), t) <==> Has(SlidingAttacks(sq, BB_EMPTY, deltas), t) && !Has(Edges(sq), t)
    ensures !Has(Mask(sq, deltas), sq)
  {
    var e := SlidingAttacks(sq, BB_EMPTY, deltas);
    HasAnd(e, Not(Edges(sq)), t);
    HasNot(Edges(sq), t);
    HasAnd(e, Not(Edges(sq)), sq);
    OriginNotAttacked(sq, BB_EMPTY, deltas);
  }

  /** A square strictly inside a slider line is not an edge of the line's
      start: the walk could only have reached rank 8 (say) moving up, and
      then it could not step on. */
  lemma InnerNotEdge(fs: int, rs: int, fn: int, rn: int, sf: int, sr: int)
    requires 0 <= fs < 8 && 0 <= rs < 8
    requires Along(fn - fs, rn - rs, sf, sr)
    requires 0 <= fn + sf < 8 && 0 <= rn + sr < 8
    ensures !((rn == 0 || rn == 7) && rn != rs)
    ensures !((fn == 0 || fn == 7) && fn != fs)
  {
  }

  /** On an empty board, the walk continues past each square it reaches
      while the wrap guard allows. */
  lemma {:induction false} RayExtend(sq: int, from: int, delta: int)
    requires delta != 0 && OnRay(sq, BB_EMPTY, delta, from) && Continues(from, delta)
    ensures OnRay(sq, BB_EMPTY, delta, from + delta)
    decreases if delta > 0 then 64 - sq else sq
  {
    hide Has, Distance;
    HasZero(sq + delta);
    if from != sq + delta {
      RayExtend(sq + delta, from, delta);
    }
  }

  /** A square a walk can step past is never an edge of the walk's start. */
  lemma RayNotEdge(sq: int, delta: int, n: int)
    requires 0 <= sq < 64 && SliderDelta(delta)
    requires OnRay(sq, BB_EMPTY, delta, n) && Continues(n, delta)
    ensures 0 <= n < 64 && !Has(Edges(sq), n)
  {
    hide Edges, OnRay, Distance;
    EmptyRay(sq, delta, n);
    StepGeometry(n, delta);
    InnerNotEdge(File(sq), Rank(sq), File(n), Rank(n), FileStep(delta), RankStep(delta));
    EdgesSquares(sq, n);
  }

  /** Every square a walk can step past is in the mask. */
  lemma MaskCoversRay(sq: int, deltas: seq<int>, k: int, n: int)
    requires 0 <= sq < 64 && NonZeroDeltas(deltas) && AllSliders(deltas) && 0 <= k < |deltas|
    requires OnRay(sq, BB_EMPTY, deltas[k], n) && Continues(n, deltas[k])
    ensures 0 <= n < 64 && Has(Mask(sq, deltas), n)
  {
    RayNotEdge(sq, deltas[k], n);
    SlidingAttacksSquares(sq, BB_EMPTY, deltas, n);
    MaskSquares(sq, deltas, n);
  }

  /** Two occupancies give the same walk from `from` when they agree on the
      next square (or the walk ends there) and give the same walk after it. */
  lemma RayAgree(from: int, m: Bitboard, o: Bitboard, delta: int)
    requires delta != 0
    requires Continues(from, delta) ==>
      (Has(m, from + delta) == Has(o, from + delta) || !Continues(from + delta, delta)) &&
      RayAttacks(from + delta, m, delta) == RayAttacks(from + delta, o, delta)
    ensures RayAttacks(from, m, delta) == RayAttacks(from, o, delta)
  {
    if Continues(from, delta) {
      var next := from + delta;
      OccupiedTest(m, next);
      OccupiedTest(o, next);
      OrZero(SquareBB(next));
    }
  }

  /** `m` holds every square the walk from `sq` along `delta` can step past. */
  predicate Covers(sq: int, delta: int, m: Bitboard)
    requires delta != 0
  {
    forall n | 0 <= n < 64 && OnRay(sq, BB_EMPTY, delta, n) && Continues(n, delta) :: Has(m, n)
  }

  lemma MaskCovers(sq: int, deltas: seq<int>, k: int)
    requires 0 <= sq < 64 && NonZeroDeltas(deltas) && AllSliders(deltas) && 0 <= k < |deltas|
    ensures Covers(sq, deltas[k], Mask(sq, deltas))
  {
    forall n | 0 <= n < 64 && OnRay(sq, BB_EMPTY, deltas[k], n) && Continues(n, deltas[k])
      ensures Has(Mask(sq, deltas), n)
    {
      MaskCoversRay(sq, deltas, k, n);
    }
  }

  /** One step of a walk from `sq`: the next square is on the empty-board
      walk, and if the walk can go on from it a covering mask keeps its
      occupancy. */
  lemma LookupStep(sq: int, from: int, delta: int, m: Bitboard, occupied: Bitboard)
    requires delta != 0 && Covers(sq, delta, m)
    requires from == sq || OnRay(sq, BB_EMPTY, delta, from)
    requires Continues(from, delta)
    ensures OnRay(sq, BB_EMPTY, delta, from + delta)
    ensures Continues(from + delta, delta) ==>
      Has(And(m, occupied), from + delta) == Has(occupied, from + delta)
  {
    var next := from + delta;
    if from == sq {
      HasZero(next);
    } else {
      RayExtend(sq, from, delta);
    }
    HasAnd(m, occupied, next);
  }

  /** Masking the occupancy with a covering mask does not change the walk. */
  lemma {:induction false} RayLookup(sq: int, from: int, delta: int, m: Bitboard, occupied: Bitboard)
    requires delta != 0 && Covers(sq, delta, m)
    requires from == sq || OnRay(sq, BB_EMPTY, delta, from)
    ensures RayAttacks(from, And(m, occupied), delta) == RayAttacks(from, occupied, delta)
    decreases if delta > 0 then 64 - from else from
  {
    if Continues(from, delta) {
      LookupStep(sq, from, delta, m, occupied);
      if Continues(from + delta, delta) {
        RayLookup(sq, from + delta, delta, m, occupied);
      }
    }
    RayAgree(from, And(m, occupied), occupied, delta);
  }

  lemma {:induction false} SlidingLookup(sq: int, deltas: seq<int>, prefix: nat, occupied: Bitboard)
    requires 0 <= sq < 64 && NonZeroDeltas(deltas) && AllSliders(deltas) && prefix <= |deltas|
    ensures SlidingAttacks(sq, And(Mask(sq, deltas), occupied), deltas[..prefix]) ==
      SlidingAttacks(sq, occupied, deltas[..prefix])
    decreases prefix
  {
    if prefix > 0 {
      var ds := deltas[..prefix];
      assert ds[..prefix - 1] == deltas[..prefix - 1];
      SlidingLookup(sq, deltas, prefix - 1, occupied);
      MaskCovers(sq, deltas, prefix - 1);
      RayLookup(sq, sq, deltas[prefix - 1], Mask(sq, deltas), occupied);
    }
  }

  /** The table lookup `attacks[sq][mask[sq] & occupied]` gives the same
      attacks as walking over the full occupancy. */
  lemma LookupEquation(sq: int, occupied: Bitboard, deltas: seq<int>)
    requires 0 <= sq < 64 && NonZeroDeltas(deltas) && AllSliders(deltas)
    ensures SlidingAttacks(sq, And(Mask(sq, deltas), occupied), deltas) == SlidingAttacks(sq, occupied, deltas)
  {
    SlidingLookup(sq, deltas, |deltas|, occupied);
    assert deltas[..|deltas|] == deltas;
  }

  // ---- the mask and attack tables ----

  /** `compute_gen_carry_rippler`: the subsets of `mask`, the empty one
      first, each exactly once; subset number `k` (see `Compress`) comes
      `k`-th.  The generator's yields are collected into a sequence. */
  method CarryRippler(mask: Bitboard) returns (subsets: seq<Bitboard>)
    requires 0 <= mask
    ensures |subsets| == Pow2(Ones(mask))
    ensures forall k | 0 <= k < |subsets| :: SubsetOf(subsets[k], mask) && Compress(subsets[k], mask) == k
    ensures subsets[0] == BB_EMPTY
    ensures forall i, j | 0 <= i < j < |subsets| :: subsets[i] != subsets[j]
    ensures forall s | SubsetOf(s, mask) :: s in subsets
  {
    hide And, Not, Ripple;
    EmptySubset(mask);
    var subset := BB_EMPTY;
    subsets := [];
    while true
      invariant SubsetOf(subset, mask) && Compress(subset, mask) == |subsets|
      invariant forall k | 0 <= k < |subsets| :: SubsetOf(subsets[k], mask) && Compress(subsets[k], mask) == k
      decreases Pow2(Ones(mask)) - |subsets|
    {
      subsets := subsets + [subset];
      RippleStep(subset, mask, 1);
      RippleIsSubtraction(subset, mask);
      subset := And(subset - mask, mask);
      if subset == BB_EMPTY {
        break;
      }
      NonEmptyNumber(subset, mask);
    }
    CompressInjective(subsets[0], BB_EMPTY, mask);
    forall s | SubsetOf(s, mask)
      ensures s in subsets
    {
      CompressInjective(s, subsets[Compress(s, mask)], mask);
    }
  }

  /** The table of one square: its keys are exactly the subsets of `mask`,
      each mapped to the attacks from `square` with that occupancy. */
  ghost predicate SquareTable(square: int, deltas: seq<int>, mask: Bitboard, table: map<Bitboard, Bitboard>)
    requires NonZeroDeltas(deltas) && 0 <= mask
  {
    (forall s :: s in table <==> SubsetOf(s, mask)) &&
    (forall s | s in table :: table[s] == SlidingAttacks(square, s, deltas))
  }

  /** The masks of squares `0 .. n-1`. */
  function Masks(deltas: seq<int>, n: nat): (r: seq<Bitboard>)
    requires NonZeroDeltas(deltas) && n <= 64
    ensures |r| == n
  {
    if n == 0 then [] else Masks(deltas, n - 1) + [Mask(n - 1, deltas)]
  }

  lemma {:induction false} MasksIndex(deltas: seq<int>, n: nat, sq: int)
    requires NonZeroDeltas(deltas) && n <= 64 && 0 <= sq < n
    ensures Masks(deltas, n)[sq] == Mask(sq, deltas)
  {
    hide Edges;
    if sq < n - 1 {
      MasksIndex(deltas, n - 1, sq);
    }
  }

  /** One square's part of `compute_mask_attack_table`. */
  method ComputeSquareTable(square: int, deltas: seq<int>) returns (mask: Bitboard, table: map<Bitboard, Bitboard>)
    requires 0 <= square < 64 && NonZeroDeltas(deltas)
    ensures mask == Mask(square, deltas) && IsBitboard(mask)
    ensures SquareTable(square, deltas, mask, table)
  {
    var empty := ComputeSlidingAttacks(square, BB_EMPTY, deltas);
    mask := And(empty, Not(Edges(square)));
    assert mask == Mask(square, deltas);
    var subsets := CarryRippler(mask);
    table := map[];
    for i := 0 to |subsets|
      invariant forall s :: s in table <==> s in subsets[..i]
      invariant forall s | s in table :: table[s] == SlidingAttacks(square, s, deltas)
    {
      var a := ComputeSlidingAttacks(square, subsets[i], deltas);
      table := table[subsets[i] := a];
    }
    assert subsets[..|subsets|] == subsets;
  }

  /** `compute_mask_attack_table`: for every square, the mask of the squares
      whose occupancy matters, and a table from every subset of the mask to
      the attacks with that occupancy. */
  method ComputeMaskAttackTable(deltas: seq<int>) returns (masks: seq<Bitboard>, attacks: seq<map<Bitboard, Bitboard>>)
    requires NonZeroDeltas(deltas)
    ensures |masks| == 64 && |attacks| == 64
    ensures forall sq | 0 <= sq < 64 ::
      masks[sq] == Mask(sq, deltas) && IsBitboard(masks[sq]) && SquareTable(sq, deltas, masks[sq], attacks[sq])
  {
    hide Edges;
    masks := [];
    attacks := [];
    for square := 0 to 64
      invariant masks == Masks(deltas, square) && |attacks| == square
      invariant forall sq | 0 <= sq < square :: IsBitboard(masks[sq])
      invariant forall sq | 0 <= sq < square :: SquareTable(sq, deltas, masks[sq], attacks[sq])
    {
      var mask, table := ComputeSquareTable(square, deltas);
      attacks := attacks + [table];
      masks := masks + [mask];
    }
    forall sq | 0 <= sq < 64
      ensures masks[sq] == Mask(sq, deltas)
    {
      MasksIndex(deltas, 64, sq);
    }
  }

  lemma SliderLists()
    ensures NonZeroDeltas(DIAG_DELTAS) && AllSliders(DIAG_DELTAS)
    ensures NonZeroDeltas(FILE_DELTAS) && AllSliders(FILE_DELTAS)
    ensures NonZeroDeltas(RANK_DELTAS) && AllSliders(RANK_DELTAS)
  {
  }

  /** A slider table lookup `ATTACK[sq][MASK[sq] & occupied]` (the key is
      always in the table: `MaskedKey`): the attacks along `deltas` from `sq`
      with the given occupancy. */
  function TableAttacks(sq: int, occupied: Bitboard, deltas: seq<int>): (r: Bitboard)
    requires 0 <= sq < 64 && NonZeroDeltas(deltas) && AllSliders(deltas)
    ensures r == SlidingAttacks(sq, occupied, deltas)
  {
    LookupEquation(sq, occupied, deltas);
    SlidingAttacks(sq, And(Mask(sq, deltas), occupied), deltas)
  }

  /** The key of a table lookup is a subset of the mask, so it is in the table. */
  lemma MaskedKey(sq: int, occupied: Bitboard, deltas: seq<int>)
    requires 0 <= sq < 64 && NonZeroDeltas(deltas)
    ensures SubsetOf(And(Mask(sq, deltas), occupied), Mask(sq, deltas))
  {
    AndIsSubset(Mask(sq, deltas), occupied);
  }
}
