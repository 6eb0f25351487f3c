/** The per-piece attack descriptions `create_dict_attacks` builds in
    `chess_deck.py`, and the attacks one piece makes from a square, as
    `get_mask_attack` reads them off those descriptions.  The precomputed
    per-square lists of the source are modelled by the function that
    computes each of their entries. */
module AttackTables {
  import opened Bits
  import opened Computer
  import opened Pieces

  /** The step part of a description: none, `'Step'` (one list of offsets
      for every side) or `'Steps'` (one list of offsets per side, white
      first). */
  datatype StepTable = NoSteps | Step(deltas: seq<int>) | Steps(sides: seq<seq<int>>)

  /** The keys of one description: its step part and which of
      `'Horizontal slide'`, `'Vertical slide'` and `'Diagonal slide'` it has. */
  datatype Attacks = Attacks(step: StepTable, horizontal: bool, vertical: bool, diagonal: bool)

  /** The description `create_dict_attacks` gives a piece: a step part when
      its offsets are non-empty (`'Step'` when symmetric, `'Steps'` for the
      pawn), and one slide entry per slide attribute. */
  function AttacksOf(k: Kind): Attacks {
    var d := Describe(k);
    var step :=
      if d.stepAttacks == Flat([]) || d.stepAttacks == Sided([]) then NoSteps
      else if d.symmetry then (match d.stepAttacks case Flat(ds) => Step(ds) case Sided(_) => NoSteps)
      else (match d.stepAttacks case Sided(sides) => Steps(sides) case Flat(_) => NoSteps);
    Attacks(step, d.horizontalSlide, d.verticalSlide, d.diagonalSlide)
  }

  /** Offsets that never stand still, and a list for each side. */
  predicate StepsOK(a: Attacks) {
    match a.step
    case NoSteps => true
    case Step(ds) => NonZeroDeltas(ds)
    case Steps(sides) => |sides| >= 2 && NonZeroDeltas(sides[0]) && NonZeroDeltas(sides[1])
  }

  /** The step attacks from `sq`, from the side's list when there are two. */
  function StepPart(a: Attacks, sq: int, turn: Color): Bitboard
    requires StepsOK(a)
  {
    match a.step
    case NoSteps => 0
    case Step(ds) => StepAttacks(sq, ds)
    case Steps(sides) => StepAttacks(sq, if turn == WHITE then sides[0] else sides[1])
  }

  /** The slider table lookups `ATTACK[sq][MASK[sq] & occupied]` of the
      three slide entries. */
  function DiagonalAttacks(sq: int, occupied: Bitboard): Bitboard
    requires 0 <= sq < 64
  {
    SliderLists();
    TableAttacks(sq, occupied, DIAG_DELTAS)
  }

  function FileAttacks(sq: int, occupied: Bitboard): Bitboard
    requires 0 <= sq < 64
  {
    SliderLists();
    TableAttacks(sq, occupied, FILE_DELTAS)
  }

  function RankAttacks(sq: int, occupied: Bitboard): Bitboard
    requires 0 <= sq < 64
  {
    SliderLists();
    TableAttacks(sq, occupied, RANK_DELTAS)
  }

  /** What one piece with description `a` on `sq` adds to `get_mask_attack`:
      its step attacks, then each slide it has, looked up with the occupancy
      `occupied`. */
  function PieceAttack(a: Attacks, sq: int, turn: Color, occupied: Bitboard): Bitboard
    requires 0 <= sq < 64 && StepsOK(a)
  {
    var d := if a.diagonal then DiagonalAttacks(sq, occupied) else 0;
    var v := if a.vertical then FileAttacks(sq, occupied) else 0;
    var h := if a.horizontal then RankAttacks(sq, occupied) else 0;
    Or(Or(Or(StepPart(a, sq, turn), d), v), h)
  }

  // ---- properties ----

  /** The descriptions are those of the pieces: the king, the knight and the
      ghost step, the pawn steps by side, the bishop, rook and queen slide,
      the archbishop and chancellor do both, and the base piece and the wall
      attack nothing; every list of offsets moves. */
  lemma DescriptionOfPiece(k: Kind)
    ensures AttacksOf(k) == match k
        case King => Attacks(Step([1, -1, 7, 8, 9, -7, -8, -9]), false, false, false)
        case Pawn => Attacks(Steps([[7, 9], [-7, -9]]), false, false, false)
        case Knight => Attacks(Step(KNIGHT_JUMPS), false, false, false)
        case Ghost => Attacks(Step([8, 16, -8, -16, 1, 2, -1, -2]), false, false, false)
        case Bishop => Attacks(NoSteps, false, false, true)
        case Rook => Attacks(NoSteps, true, true, false)
        case Queen => Attacks(NoSteps, true, true, true)
        case Archbishop => Attacks(Step(KNIGHT_JUMPS), false, false, true)
        case Chancellor => Attacks(Step(KNIGHT_JUMPS), true, true, false)
        case Base => Attacks(NoSteps, false, false, false)
        case Wall => Attacks(NoSteps, false, false, false)
  {
    match k {
      case King =>
      case Pawn =>
      case Knight =>
      case Ghost =>
      case Bishop =>
      case Rook =>
      case Queen =>
      case Archbishop =>
      case Chancellor =>
      case Base =>
      case Wall =>
    }
  }

  /** Every list of offsets of a piece moves, and the pawn has one list per
      side. */
  lemma AttacksStepsOK(k: Kind)
    ensures StepsOK(AttacksOf(k))
  {
    DescriptionOfPiece(k);
    assert NonZeroDeltas([1, -1, 7, 8, 9, -7, -8, -9]);
    assert NonZeroDeltas(KNIGHT_JUMPS);
    assert NonZeroDeltas([8, 16, -8, -16, 1, 2, -1, -2]);
    assert NonZeroDeltas([7, 9]) && NonZeroDeltas([-7, -9]);
  }

  /** A piece slides exactly when its description has a slide entry, and has
      a step part exactly when it has offsets, `'Steps'` only for the pawn. */
  lemma AttacksFollowDescriptor(k: Kind)
    ensures var a := AttacksOf(k); var d := Describe(k);
      a.horizontal == d.horizontalSlide && a.vertical == d.verticalSlide && a.diagonal == d.diagonalSlide
      && (a.step.Steps? <==> k == Pawn)
      && (a.step.NoSteps? <==> d.stepAttacks == Flat([]))
  {
    DescriptionOfPiece(k);
  }

  /** The attack set of one piece, square by square: a square reached by a
      step, or by a slide the piece has, stopping at the first occupied
      square. */
  lemma PieceAttackSquares(a: Attacks, sq: int, turn: Color, occupied: Bitboard, t: int)
    requires 0 <= sq < 64 && StepsOK(a) && 0 <= t
    ensures Has(PieceAttack(a, sq, turn, occupied), t) <==>
      Has(StepPart(a, sq, turn), t)
      || (a.diagonal && Has(DiagonalAttacks(sq, occupied), t))
      || (a.vertical && Has(FileAttacks(sq, occupied), t))
      || (a.horizontal && Has(RankAttacks(sq, occupied), t))
  {
    hide Has, DiagonalAttacks, FileAttacks, RankAttacks, StepPart, Or;
    var s := StepPart(a, sq, turn);
    var d := if a.diagonal then DiagonalAttacks(sq, occupied) else 0;
    var v := if a.vertical then FileAttacks(sq, occupied) else 0;
    var h := if a.horizontal then RankAttacks(sq, occupied) else 0;
    HasOr(Or(Or(s, d), v), h, t);
    HasOr(Or(s, d), v, t);
    HasOr(s, d, t);
    HasIf(a.diagonal, DiagonalAttacks(sq, occupied), t);
    HasIf(a.vertical, FileAttacks(sq, occupied), t);
    HasIf(a.horizontal, RankAttacks(sq, occupied), t);
  }

  /** A board that is present only under a condition. */
  lemma HasIf(c: bool, x: Bitboard, t: int)
    requires 0 <= t
    ensures Has(if c then x else 0, t) == (c && Has(x, t))
  {
    HasZero(t);
  }

  /** One piece's attacks are a 64-bit board. */
  lemma PieceAttackIsBitboard(a: Attacks, sq: int, turn: Color, occupied: Bitboard)
    requires 0 <= sq < 64 && StepsOK(a)
    ensures IsBitboard(PieceAttack(a, sq, turn, occupied))
  {
    hide Has, SlidingAttacks, Or;
    SliderLists();
    Pow64();
    var s := StepPart(a, sq, turn);
    match a.step {
      case NoSteps =>
      case Step(ds) => SlidingIsBitboard(sq, BB_ALL, ds);
      case Steps(sides) => SlidingIsBitboard(sq, BB_ALL, if turn == WHITE then sides[0] else sides[1]);
    }
    SlidingIsBitboard(sq, occupied, DIAG_DELTAS);
    SlidingIsBitboard(sq, occupied, FILE_DELTAS);
    SlidingIsBitboard(sq, occupied, RANK_DELTAS);
    var d := if a.diagonal then DiagonalAttacks(sq, occupied) else 0;
    var v := if a.vertical then FileAttacks(sq, occupied) else 0;
    var h := if a.horizontal then RankAttacks(sq, occupied) else 0;
    OrBelow(s, d, 64);
    OrBelow(Or(s, d), v, 64);
    OrBelow(Or(Or(s, d), v), h, 64);
  }

  /** Pieces with the same name have the same description, so writing the
      description under a piece's name is the same for both colours. */
  lemma SameNameSameAttacks(p: Piece, q: Piece)
    requires p.Name() == q.Name()
    ensures AttacksOf(p.kind) == AttacksOf(q.kind)
  {
    NamesDistinct(p.kind, q.kind);
  }
}
