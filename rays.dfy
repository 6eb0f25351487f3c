/** The ray and between tables of `computer.py`: `RAYS[a][b]` is the whole
    line (rank, file or diagonal) through two aligned squares, and
    `compute_between` keeps the squares strictly between them. */
module Rays {
  import opened Bits
  import opened Subsets
  import opened Computer

  /** The empty-subset entry of a square's attack table is the walk on an
      empty board: `compute_rays` reads `ATTACK[a][0]` for this. */
  lemma EmptyEntry(sq: int, deltas: seq<int>, mask: Bitboard, table: map<Bitboard, Bitboard>)
    requires NonZeroDeltas(deltas) && 0 <= mask && SquareTable(sq, deltas, mask, table)
    ensures BB_EMPTY in table && table[BB_EMPTY] == SlidingAttacks(sq, BB_EMPTY, deltas)
  {
    EmptySubset(mask);
  }

  // ---- lines through two squares ----

  /** The square at displacement `(u, v)` from `a` lies on the line through
      `a` and the square at displacement `(p, q)`: the diagonal, the
      anti-diagonal, the rank or the file, whichever `(p, q)` points along. */
  predicate LineThrough(p: int, q: int, u: int, v: int) {
    if p == q then u == v
    else if p == -q then u == -v
    else if q == 0 then v == 0
    else p == 0 && u == 0
  }

  /** Two distinct squares share a rank, a file or a diagonal. */
  predicate Aligned(a: int, b: int) {
    var p, q := File(b) - File(a), Rank(b) - Rank(a);
    a != b && (Abs(p) == Abs(q) || p == 0 || q == 0)
  }

  /** `t` lies on the line through `a` and `b`. */
  predicate OnLine(a: int, b: int, t: int) {
    LineThrough(File(b) - File(a), Rank(b) - Rank(a), File(t) - File(a), Rank(t) - Rank(a))
  }

  /** `RAYS[a][b]` as `compute_rays` builds it from the empty-board diagonal,
      rank and file attacks: the diagonal case is tested first, then the
      rank, then the file. */
  function RayEntry(a: int, b: int): Bitboard
    requires 0 <= a < 64 && 0 <= b < 64
  {
    SliderLists();
    var diagA := SlidingAttacks(a, BB_EMPTY, DIAG_DELTAS);
    var rankA := SlidingAttacks(a, BB_EMPTY, RANK_DELTAS);
    var fileA := SlidingAttacks(a, BB_EMPTY, FILE_DELTAS);
    if And(diagA, SquareBB(b)) != 0 then
      Or(Or(And(diagA, SlidingAttacks(b, BB_EMPTY, DIAG_DELTAS)), SquareBB(a)), SquareBB(b))
    else if And(rankA, SquareBB(b)) != 0 then Or(rankA, SquareBB(a))
    else if And(fileA, SquareBB(b)) != 0 then Or(fileA, SquareBB(a))
    else BB_EMPTY
  }

  /** The points common to the two diagonal crosses through `a` and `b`, with
      `a` and `b` themselves, make up the one diagonal they share. */
  lemma DiagLine(p: int, q: int, u: int, v: int)
    requires Abs(p) == Abs(q) && !(p == 0 && q == 0)
    ensures LineThrough(p, q, u, v) <==>
      (u == 0 && v == 0) || (u == p && v == q) ||
      (!(u == 0 && v == 0) && Abs(u) == Abs(v) && !(u == p && v == q) && Abs(u - p) == Abs(v - q))
  {
  }

  /** The line through `a` and `b` is the line through `b` and `a`. */
  lemma LineSymmetric(p: int, q: int, u: int, v: int)
    requires !(p == 0 && q == 0) && (Abs(p) == Abs(q) || p == 0 || q == 0)
    ensures LineThrough(p, q, u, v) == LineThrough(-p, -q, u - p, v - q)
  {
  }

  lemma DiagonalCase(a: int, b: int, t: int)
    requires 0 <= a < 64 && 0 <= b < 64 && 0 <= t
    requires a != b && Abs(File(b) - File(a)) == Abs(Rank(b) - Rank(a))
    ensures Has(Or(Or(And(SlidingAttacks(a, BB_EMPTY, DIAG_DELTAS), SlidingAttacks(b, BB_EMPTY, DIAG_DELTAS)),
                     SquareBB(a)), SquareBB(b)), t) <==>
      t < 64 && OnLine(a, b, t)
  {
    hide SlidingAttacks, Has, Or, And, SquareBB, File, Rank;
    SliderLists();
    var diagA := SlidingAttacks(a, BB_EMPTY, DIAG_DELTAS);
    var diagB := SlidingAttacks(b, BB_EMPTY, DIAG_DELTAS);
    HasOr(Or(And(diagA, diagB), SquareBB(a)), SquareBB(b), t);
    HasOr(And(diagA, diagB), SquareBB(a), t);
    HasAnd(diagA, diagB, t);
    HasSquareBB(a, t);
    HasSquareBB(b, t);
    EmptyDiagonals(a, t);
    EmptyDiagonals(b, t);
    DistinctSquares(a, t);
    DistinctSquares(b, t);
    DistinctSquares(a, b);
    var p, q := File(b) - File(a), Rank(b) - Rank(a);
    var u, v := File(t) - File(a), Rank(t) - Rank(a);
    assert File(t) - File(b) == u - p && Rank(t) - Rank(b) == v - q;
    DiagLine(p, q, u, v);
  }

  lemma RankCase(a: int, b: int, t: int)
    requires 0 <= a < 64 && 0 <= b < 64 && 0 <= t
    requires a != b && Abs(File(b) - File(a)) != Abs(Rank(b) - Rank(a)) && Rank(b) == Rank(a)
    ensures Has(Or(SlidingAttacks(a, BB_EMPTY, RANK_DELTAS), SquareBB(a)), t) <==> t < 64 && OnLine(a, b, t)
  {
    SliderLists();
    HasOr(SlidingAttacks(a, BB_EMPTY, RANK_DELTAS), SquareBB(a), t);
    HasSquareBB(a, t);
    EmptyRank(a, t);
  }

  lemma FileCase(a: int, b: int, t: int)
    requires 0 <= a < 64 && 0 <= b < 64 && 0 <= t
    requires a != b && Abs(File(b) - File(a)) != Abs(Rank(b) - Rank(a)) && File(b) == File(a)
    ensures Has(Or(SlidingAttacks(a, BB_EMPTY, FILE_DELTAS), SquareBB(a)), t) <==> t < 64 && OnLine(a, b, t)
  {
    SliderLists();
    HasOr(SlidingAttacks(a, BB_EMPTY, FILE_DELTAS), SquareBB(a), t);
    HasSquareBB(a, t);
    EmptyFile(a, t);
  }

  /** `RAYS[a][b]` holds the board squares of the line through `a` and `b`
      when the two are distinct and aligned, and nothing otherwise. */
  lemma RaySquares(a: int, b: int, t: int)
    requires 0 <= a < 64 && 0 <= b < 64 && 0 <= t
    ensures Has(RayEntry(a, b), t) <==> Aligned(a, b) && t < 64 && OnLine(a, b, t)
  {
    SliderLists();
    var diagA := SlidingAttacks(a, BB_EMPTY, DIAG_DELTAS);
    var rankA := SlidingAttacks(a, BB_EMPTY, RANK_DELTAS);
    var fileA := SlidingAttacks(a, BB_EMPTY, FILE_DELTAS);
    OccupiedTest(diagA, b);
    OccupiedTest(rankA, b);
    OccupiedTest(fileA, b);
    EmptyDiagonals(a, b);
    EmptyRank(a, b);
    EmptyFile(a, b);
    if Has(diagA, b) {
      DiagonalCase(a, b, t);
    } else if Has(rankA, b) {
      RankCase(a, b, t);
    } else if Has(fileA, b) {
      FileCase(a, b, t);
    } else {
      HasZero(t);
    }
  }

  /** The ray of two aligned squares contains both of them. */
  lemma RayEnds(a: int, b: int)
    requires 0 <= a < 64 && 0 <= b < 64
    ensures Has(RayEntry(a, b), a) <==> Aligned(a, b)
    ensures Has(RayEntry(a, b), b) <==> Aligned(a, b)
  {
    RaySquares(a, b, a);
    RaySquares(a, b, b);
  }

  /** `RAYS[a][b] == RAYS[b][a]`. */
  lemma RaySymmetric(a: int, b: int)
    requires 0 <= a < 64 && 0 <= b < 64
    ensures RayEntry(a, b) == RayEntry(b, a)
  {
    hide RayEntry, Has, File, Rank;
    forall t | 0 <= t
      ensures Has(RayEntry(a, b), t) == Has(RayEntry(b, a), t)
    {
      RaySquares(a, b, t);
      RaySquares(b, a, t);
      if Aligned(a, b) {
        var p, q := File(b) - File(a), Rank(b) - Rank(a);
        var u, v := File(t) - File(a), Rank(t) - Rank(a);
        DistinctSquares(a, b);
        assert File(a) - File(b) == -p && Rank(a) - Rank(b) == -q;
        assert File(t) - File(b) == u - p && Rank(t) - Rank(b) == v - q;
        LineSymmetric(p, q, u, v);
      }
    }
    BitsEqual(RayEntry(a, b), RayEntry(b, a));
  }

  /** The ray is empty exactly when the squares are equal or unaligned. */
  lemma RayEmpty(a: int, b: int)
    requires 0 <= a < 64 && 0 <= b < 64
    ensures RayEntry(a, b) == BB_EMPTY <==> !Aligned(a, b)
  {
    RayEnds(a, b);
    HasZero(a);
    if !Aligned(a, b) {
      forall t | 0 <= t
        ensures Has(RayEntry(a, b), t) == Has(BB_EMPTY, t)
      {
        RaySquares(a, b, t);
        HasZero(t);
      }
      BitsEqual(RayEntry(a, b), BB_EMPTY);
    }
  }

  /** The tables `compute_rays` reads: for each square, a non-negative mask
      and the table of its subsets (what `compute_mask_attack_table` builds). */
  ghost predicate AttackTables(deltas: seq<int>, masks: seq<Bitboard>, attacks: seq<map<Bitboard, Bitboard>>)
    requires NonZeroDeltas(deltas)
  {
    |masks| == 64 && |attacks| == 64 &&
    forall sq | 0 <= sq < 64 :: 0 <= masks[sq] && SquareTable(sq, deltas, masks[sq], attacks[sq])
  }

  /** `compute_rays`: the 64 x 64 table, row by row, from the empty-subset
      entries of the diagonal, rank and file attack tables. */
  method ComputeRays(diagMasks: seq<Bitboard>, diagAttacks: seq<map<Bitboard, Bitboard>>,
                     rankMasks: seq<Bitboard>, rankAttacks: seq<map<Bitboard, Bitboard>>,
                     fileMasks: seq<Bitboard>, fileAttacks: seq<map<Bitboard, Bitboard>>)
      returns (rays: seq<seq<Bitboard>>)
    requires NonZeroDeltas(DIAG_DELTAS) && AttackTables(DIAG_DELTAS, diagMasks, diagAttacks)
    requires NonZeroDeltas(RANK_DELTAS) && AttackTables(RANK_DELTAS, rankMasks, rankAttacks)
    requires NonZeroDeltas(FILE_DELTAS) && AttackTables(FILE_DELTAS, fileMasks, fileAttacks)
    ensures |rays| == 64
    ensures forall a | 0 <= a < 64 :: |rays[a]| == 64 && forall b | 0 <= b < 64 :: rays[a][b] == RayEntry(a, b)
  {
    hide SlidingAttacks, And, Or, SquareBB, SquareTable;
    rays := [];
    for a := 0 to 64
      invariant |rays| == a
      invariant forall i | 0 <= i < a :: |rays[i]| == 64 && forall b | 0 <= b < 64 :: rays[i][b] == RayEntry(i, b)
    {
      EmptyEntry(a, DIAG_DELTAS, diagMasks[a], diagAttacks[a]);
      EmptyEntry(a, RANK_DELTAS, rankMasks[a], rankAttacks[a]);
      EmptyEntry(a, FILE_DELTAS, fileMasks[a], fileAttacks[a]);
      var diagA := diagAttacks[a][BB_EMPTY];
      var rankA := rankAttacks[a][BB_EMPTY];
      var fileA := fileAttacks[a][BB_EMPTY];
      var row := [];
      for b := 0 to 64
        invariant |row| == b
        invariant forall j | 0 <= j < b :: row[j] == RayEntry(a, j)
      {
        var entry;
        if And(diagA, SquareBB(b)) != 0 {
          EmptyEntry(b, DIAG_DELTAS, diagMasks[b], diagAttacks[b]);
          entry := Or(Or(And(diagA, diagAttacks[b][BB_EMPTY]), SquareBB(a)), SquareBB(b));
        } else if And(rankA, SquareBB(b)) != 0 {
          entry := Or(rankA, SquareBB(a));
        } else if And(fileA, SquareBB(b)) != 0 {
          entry := Or(fileA, SquareBB(a));
        } else {
          entry := BB_EMPTY;
        }
        row := row + [entry];
      }
      rays := rays + [row];
    }
  }

  // ---- between ----

  function Min(a: int, b: int): int {
    if a < b then a else b
  }

  function Max(a: int, b: int): int {
    if a < b then b else a
  }

  /** `compute_between`: the ray cut to the indices from `min(a, b)` up to
      but not including `max(a, b)` by `(ALL << a) ^ (ALL << b)`, then its
      lowest bit cleared with `bb & (bb - 1)`. */
  function Between(a: int, b: int): Bitboard
    requires 0 <= a < 64 && 0 <= b < 64
  {
    var bb := And(RayEntry(a, b), Xor(Shl(BB_ALL, a), Shl(BB_ALL, b)));
    And(bb, bb - 1)
  }

  /** `(ALL << a) ^ (ALL << b)` holds, below 64, the indices from `min(a, b)`
      up to but not including `max(a, b)`. */
  lemma HalfOpenRange(a: int, b: int, t: int)
    requires 0 <= a < 64 && 0 <= b < 64 && 0 <= t < 64
    ensures Has(Xor(Shl(BB_ALL, a), Shl(BB_ALL, b)), t) <==> Min(a, b) <= t < Max(a, b)
  {
    HasXor(Shl(BB_ALL, a), Shl(BB_ALL, b), t);
    HasShl(BB_ALL, a, t);
    HasShl(BB_ALL, b, t);
    if t >= a {
      HasAll(t - a);
    }
    if t >= b {
      HasAll(t - b);
    }
  }

  /** The ray cut to the half-open index range. */
  lemma CutSquares(a: int, b: int, t: int)
    requires 0 <= a < 64 && 0 <= b < 64 && 0 <= t
    ensures Has(And(RayEntry(a, b), Xor(Shl(BB_ALL, a), Shl(BB_ALL, b))), t) <==>
      Aligned(a, b) && t < 64 && OnLine(a, b, t) && Min(a, b) <= t < Max(a, b)
  {
    HasAnd(RayEntry(a, b), Xor(Shl(BB_ALL, a), Shl(BB_ALL, b)), t);
    RaySquares(a, b, t);
    if t < 64 {
      HalfOpenRange(a, b, t);
    }
  }

  /** The lowest bit of the cut ray is the lower endpoint. */
  lemma CutLowest(a: int, b: int)
    requires 0 <= a < 64 && 0 <= b < 64 && Aligned(a, b)
    ensures And(RayEntry(a, b), Xor(Shl(BB_ALL, a), Shl(BB_ALL, b))) != 0
    ensures LowestBit(And(RayEntry(a, b), Xor(Shl(BB_ALL, a), Shl(BB_ALL, b)))) == Min(a, b)
  {
    var bb := And(RayEntry(a, b), Xor(Shl(BB_ALL, a), Shl(BB_ALL, b)));
    var m := Min(a, b);
    RayEnds(a, b);
    assert OnLine(a, b, m) by {
      RaySquares(a, b, m);
    }
    CutSquares(a, b, m);
    HasZero(m);
    HasLowest(bb);
    CutSquares(a, b, LowestBit(bb));
  }

  /** `compute_between(a, b)` holds the squares of the line through `a` and
      `b` whose indices lie strictly between theirs, and nothing when the
      squares are equal or unaligned. */
  lemma BetweenSquares(a: int, b: int, t: int)
    requires 0 <= a < 64 && 0 <= b < 64 && 0 <= t
    ensures Has(Between(a, b), t) <==>
      Aligned(a, b) && t < 64 && OnLine(a, b, t) && Min(a, b) < t < Max(a, b)
  {
    hide RayEntry, And, Xor, Shl, Has, File, Rank;
    var bb := And(RayEntry(a, b), Xor(Shl(BB_ALL, a), Shl(BB_ALL, b)));
    CutSquares(a, b, t);
    if Aligned(a, b) {
      CutLowest(a, b);
      ClearLowest(bb, t);
    } else {
      HasAnd(bb, bb - 1, t);
    }
  }

  /** `compute_between(a, b)` is a 64-bit board. */
  lemma BetweenIsBitboard(a: int, b: int)
    requires 0 <= a < 64 && 0 <= b < 64
    ensures IsBitboard(Between(a, b))
  {
    hide Between, Has;
    forall j | 0 <= j && Has(Between(a, b), j)
      ensures j < 64
    {
      BetweenSquares(a, b, j);
    }
    WithinIsBitboard(Between(a, b));
  }

  /** The between squares are on the ray, exclude both ends, and do not
      depend on the order of the ends. */
  lemma BetweenInRay(a: int, b: int, t: int)
    requires 0 <= a < 64 && 0 <= b < 64 && 0 <= t
    ensures Has(Between(a, b), t) ==> Has(RayEntry(a, b), t)
    ensures !Has(Between(a, b), a) && !Has(Between(a, b), b)
  {
    BetweenSquares(a, b, t);
    BetweenSquares(a, b, a);
    BetweenSquares(a, b, b);
    RaySquares(a, b, t);
  }

  lemma BetweenSymmetric(a: int, b: int)
    requires 0 <= a < 64 && 0 <= b < 64
    ensures Between(a, b) == Between(b, a)
  {
    forall t | 0 <= t
      ensures Has(Between(a, b), t) == Has(Between(b, a), t)
    {
      BetweenSquares(a, b, t);
      BetweenSquares(b, a, t);
      RaySquares(a, b, t);
      RaySquares(b, a, t);
      RaySymmetric(a, b);
    }
    BitsEqual(Between(a, b), Between(b, a));
  }

  /** No square of a line lies strictly between two neighbouring squares. */
  lemma NeighboursLine(p: int, q: int, u: int, v: int)
    requires -1 <= p <= 1 && -1 <= q <= 1 && !(p == 0 && q == 0)
    requires LineThrough(p, q, u, v)
    ensures !(Min(0, 8 * q + p) < 8 * v + u < Max(0, 8 * q + p))
  {
  }

  /** `compute_between` of two neighbouring squares is empty. */
  lemma BetweenNeighbours(a: int, b: int)
    requires 0 <= a < 64 && 0 <= b < 64 && Distance(a, b) == 1
    ensures Between(a, b) == BB_EMPTY
  {
    hide Between, Has, File, Rank;
    forall t | 0 <= t
      ensures Has(Between(a, b), t) == Has(BB_EMPTY, t)
    {
      BetweenSquares(a, b, t);
      HasZero(t);
      if Aligned(a, b) && OnLine(a, b, t) {
        CoordinatesOfSquare(a);
        CoordinatesOfSquare(b);
        CoordinatesOfSquare(t);
        var p, q := File(b) - File(a), Rank(b) - Rank(a);
        var u, v := File(t) - File(a), Rank(t) - Rank(a);
        assert b - a == 8 * q + p && t - a == 8 * v + u;
        NeighboursLine(p, q, u, v);
      }
    }
    BitsEqual(Between(a, b), BB_EMPTY);
  }
}
