/** The move generators of `ChessDeck` (`gen_attack_moves`,
    `gen_push_pawns`, `gen_castling_moves`, `gen_pseudo_moves`,
    `gen_scape_moves`, `gen_legal_moves`) and `get_status_game`.  A Python
    generator becomes the sequence of the moves it yields, in the order it
    yields them. */
module MoveGen {
  import opened Bits
  import opened Wrappers
  import opened Computer
  import opened Pieces
  import opened Boards
  import opened Moves
  import opened Bitboards
  import opened Rays
  import opened AttackTables
  import opened Play
  import opened Positions

  // ---- promotions ----

  /** A destination on the first or last rank (`compute_rank(to_sq) in [0, 7]`). */
  predicate PromotionRank(to: int) {
    Rank(to) == 0 || Rank(to) == 7
  }

  /** One move per promotion piece, in the order of the list. */
  function PromotionMoves(from: int, to: int, proms: seq<Piece>): seq<Move> {
    if proms == [] then [] else [Move(from, to, Some(proms[0]))] + PromotionMoves(from, to, proms[1..])
  }

  /** What a generator yields for one origin and destination: one move per
      promotion piece of the side to move when it promotes, else the plain
      move. */
  function Expand(st: State, from: int, to: int, promotes: bool): seq<Move> {
    if promotes then PromotionMoves(from, to, st.PromOf(st.turn)) else [Move(from, to, None)]
  }

  /** A move has the promotion a generator gives it: a piece of the side's
      promotion set when it promotes, none otherwise. */
  predicate PromotionOK(st: State, m: Move, promotes: bool) {
    if promotes then m.promotion.Some? && m.promotion.value in st.PromOf(st.turn) else m.promotion.None?
  }

  lemma {:induction false} PromotionMovesMembers(from: int, to: int, proms: seq<Piece>, m: Move)
    ensures m in PromotionMoves(from, to, proms) <==>
      m.fromSq == from && m.toSq == to && m.promotion.Some? && m.promotion.value in proms
    decreases |proms|
  {
    if proms != [] {
      PromotionMovesMembers(from, to, proms[1..], m);
      assert proms == [proms[0]] + proms[1..];
    }
  }

  /** The moves for one origin and destination are those with these
      squares and the promotion the generator gives. */
  lemma ExpandMembers(st: State, from: int, to: int, promotes: bool, m: Move)
    ensures m in Expand(st, from, to, promotes) <==>
      m.fromSq == from && m.toSq == to && PromotionOK(st, m, promotes)
  {
    PromotionMovesMembers(from, to, st.PromOf(st.turn), m);
  }

  // ---- gen_attack_moves ----

  /** Whether a move from `from` to `to` of `gen_attack_moves` promotes:
      a pawn on the origin, by `get_type_at`, going to the first or last
      rank. */
  predicate AttackPromotes(st: State, from: int, to: int)
    requires st.game.Valid() && 0 <= from < 64
  {
    PromotionRank(to) && TypeAt(st.game, from) == Some("Pawn")
  }

  /** The moves of one origin to each destination of `tos`, in order. */
  function TargetMoves(st: State, from: int, tos: seq<int>): seq<Move>
    requires st.game.Valid() && 0 <= from < 64
  {
    if tos == [] then []
    else Expand(st, from, tos[0], AttackPromotes(st, from, tos[0])) + TargetMoves(st, from, tos[1..])
  }

  /** The destinations of one origin: what `get_mask_attack` reaches from
      there, within the condition and the end mask. */
  function AttackTargets(st: State, from: int, condition: Bitboard, end: Bitboard): Bitboard
    requires WF(st) && 0 <= from < 64
  {
    And(And(MaskAttack(st, from), condition), end)
  }

  function AttackMovesFrom(st: State, froms: seq<int>, condition: Bitboard, end: Bitboard): seq<Move>
    requires WF(st) && forall k | 0 <= k < |froms| :: 0 <= froms[k] < 64
  {
    if froms == [] then []
    else
      TargetMoves(st, froms[0], Squares(AttackTargets(st, froms[0], condition, end)))
      + AttackMovesFrom(st, froms[1..], condition, end)
  }

  /** `gen_attack_moves(pieces, condition, start_mask, end_mask)`: from each
      square of `pieces & start_mask`, highest first, to each square its
      mask attack reaches within `condition & end_mask`, highest first. */
  function AttackMoves(st: State, pieces: Bitboard, condition: Bitboard, start: Bitboard, end: Bitboard): seq<Move>
    requires WF(st)
  {
    AttackMovesFrom(st, Squares(And(pieces, start)), condition, end)
  }

  /** A move `gen_attack_moves` yields: from a square of `pieces` and
      `start`, to a square the mask attack from there reaches and that is
      in `condition` and `end`, with the promotion the generator gives. */
  predicate AttackMoveOK(st: State, m: Move, pieces: Bitboard, condition: Bitboard, start: Bitboard, end: Bitboard)
    requires WF(st)
  {
    0 <= m.fromSq < 64 && 0 <= m.toSq < 64
    && Has(pieces, m.fromSq) && Has(start, m.fromSq)
    && Has(MaskAttack(st, m.fromSq), m.toSq) && Has(condition, m.toSq) && Has(end, m.toSq)
    && PromotionOK(st, m, AttackPromotes(st, m.fromSq, m.toSq))
  }

  lemma {:induction false} TargetMovesMembers(st: State, from: int, tos: seq<int>, m: Move)
    requires st.game.Valid() && 0 <= from < 64
    ensures m in TargetMoves(st, from, tos) <==>
      m.fromSq == from && m.toSq in tos && PromotionOK(st, m, AttackPromotes(st, from, m.toSq))
    decreases |tos|
  {
    hide AttackPromotes, PromotionOK;
    if tos != [] {
      TargetMovesMembers(st, from, tos[1..], m);
      ExpandMembers(st, from, tos[0], AttackPromotes(st, from, tos[0]), m);
      assert tos == [tos[0]] + tos[1..];
    }
  }

  lemma {:induction false} AttackMovesFromMembers(st: State, froms: seq<int>, condition: Bitboard, end: Bitboard, m: Move)
    requires WF(st) && forall k | 0 <= k < |froms| :: 0 <= froms[k] < 64
    ensures m in AttackMovesFrom(st, froms, condition, end) <==>
      m.fromSq in froms && 0 <= m.fromSq < 64
      && m in TargetMoves(st, m.fromSq, Squares(AttackTargets(st, m.fromSq, condition, end)))
    decreases |froms|
  {
    hide TargetMoves, AttackTargets, WF;
    GameValid(st);
    if froms != [] {
      AttackMovesFromMembers(st, froms[1..], condition, end, m);
      TargetMovesMembers(st, froms[0], Squares(AttackTargets(st, froms[0], condition, end)), m);
      assert froms == [froms[0]] + froms[1..];
    }
  }

  /** `gen_attack_moves` yields exactly the moves described by
      `AttackMoveOK`. */
  lemma AttackMovesMembers(st: State, pieces: Bitboard, condition: Bitboard, start: Bitboard, end: Bitboard, m: Move)
    requires WF(st)
    ensures m in AttackMoves(st, pieces, condition, start, end) <==> AttackMoveOK(st, m, pieces, condition, start, end)
  {
    hide TargetMoves, MaskAttack, AttackPromotes, PromotionOK, Has, WF;
    GameValid(st);
    AttackMovesFromMembers(st, Squares(And(pieces, start)), condition, end, m);
    if 0 <= m.fromSq < 64 {
      TargetMovesMembers(st, m.fromSq, Squares(AttackTargets(st, m.fromSq, condition, end)), m);
      HasAnd(pieces, start, m.fromSq);
      if 0 <= m.toSq {
        var a := MaskAttack(st, m.fromSq);
        HasAnd(And(a, condition), end, m.toSq);
        HasAnd(a, condition, m.toSq);
      }
    }
  }

  // ---- gen_push_pawns ----

  /** Every square of `pawns` has its destination, `distance` squares
      toward the far side of the side to move, inside what `BB_SQUARES`
      accepts. */
  predicate PushesInRange(st: State, pawns: Bitboard, distance: int) {
    forall f | 0 <= f < 64 && Has(pawns, f) :: InRange(f + Forward(st.turn, distance))
  }

  /** The pushes from each origin of `froms`, in order. */
  function PushFrom(st: State, froms: seq<int>, distance: int, end: Bitboard): seq<Move>
    requires st.game.Valid()
    requires forall k | 0 <= k < |froms| :: 0 <= froms[k] < 64 && InRange(froms[k] + Forward(st.turn, distance))
  {
    if froms == [] then []
    else
      var f := froms[0];
      assert 0 <= f < 64 && InRange(f + Forward(st.turn, distance));
      var to := f + Forward(st.turn, distance);
      (if TypeAt(st.game, to).None? && And(SquareBB(to), end) != BB_EMPTY then Expand(st, f, to, PromotionRank(to)) else [])
      + PushFrom(st, froms[1..], distance, end)
  }

  /** `gen_push_pawns(bb_pawns, distance, start_mask, end_mask)`: from each
      square of `bb_pawns & start_mask`, highest first, to the square
      `distance` ahead when `get_type_at` finds nothing there and it is in
      the end mask. */
  function PushMoves(st: State, pawns: Bitboard, distance: int, start: Bitboard, end: Bitboard): seq<Move>
    requires st.game.Valid() && PushesInRange(st, pawns, distance)
  {
    SquaresOfAnd(st, pawns, start, distance);
    PushFrom(st, Squares(And(pawns, start)), distance, end)
  }

  /** The squares of `pawns & start` keep their destinations in range. */
  lemma SquaresOfAnd(st: State, pawns: Bitboard, start: Bitboard, distance: int)
    requires PushesInRange(st, pawns, distance)
    ensures forall k | 0 <= k < |Squares(And(pawns, start))| ::
      0 <= Squares(And(pawns, start))[k] < 64 && InRange(Squares(And(pawns, start))[k] + Forward(st.turn, distance))
  {
    hide Has, And, Forward, InRange;
    var sqs := Squares(And(pawns, start));
    forall k | 0 <= k < |sqs|
      ensures 0 <= sqs[k] < 64 && InRange(sqs[k] + Forward(st.turn, distance))
    {
      var f := sqs[k];
      assert f in sqs;
      HasAnd(pawns, start, f);
      assert Has(pawns, f);
    }
  }

  /** A move `gen_push_pawns` yields: from a square of `pawns` and `start`
      to the empty square `distance` ahead, in the end mask, promoting on
      the first or last rank.  Only the destination is tested empty. */
  predicate PushMoveOK(st: State, m: Move, pawns: Bitboard, distance: int, start: Bitboard, end: Bitboard)
    requires st.game.Valid()
  {
    0 <= m.fromSq < 64 && Has(pawns, m.fromSq) && Has(start, m.fromSq)
    && m.toSq == m.fromSq + Forward(st.turn, distance) && InRange(m.toSq)
    && TypeAt(st.game, m.toSq).None? && Has(end, Norm(m.toSq))
    && PromotionOK(st, m, PromotionRank(m.toSq))
  }

  lemma {:induction false} PushFromMembers(st: State, froms: seq<int>, distance: int, end: Bitboard, m: Move)
    requires st.game.Valid()
    requires forall k | 0 <= k < |froms| :: 0 <= froms[k] < 64 && InRange(froms[k] + Forward(st.turn, distance))
    ensures m in PushFrom(st, froms, distance, end) <==>
      m.fromSq in froms && m.toSq == m.fromSq + Forward(st.turn, distance) && InRange(m.toSq)
      && TypeAt(st.game, m.toSq).None? && Has(end, Norm(m.toSq)) && PromotionOK(st, m, PromotionRank(m.toSq))
    decreases |froms|
  {
    hide TypeAt, PromotionOK, Has;
    if froms != [] {
      var f := froms[0];
      var to := f + Forward(st.turn, distance);
      PushFromMembers(st, froms[1..], distance, end, m);
      ExpandMembers(st, f, to, PromotionRank(to), m);
      AndSquare(end, to);
      assert froms == [f] + froms[1..];
    }
  }

  /** `gen_push_pawns` yields exactly the moves described by `PushMoveOK`. */
  lemma PushMovesMembers(st: State, pawns: Bitboard, distance: int, start: Bitboard, end: Bitboard, m: Move)
    requires st.game.Valid() && PushesInRange(st, pawns, distance)
    ensures m in PushMoves(st, pawns, distance, start, end) <==> PushMoveOK(st, m, pawns, distance, start, end)
  {
    hide TypeAt, PromotionOK, Has;
    SquaresOfAnd(st, pawns, start, distance);
    PushFromMembers(st, Squares(And(pawns, start)), distance, end, m);
    if 0 <= m.fromSq < 64 {
      HasAnd(pawns, start, m.fromSq);
    }
  }

  /** The double push of `gen_push_pawns` tests only the square it lands
      on: a pawn goes two squares ahead even when a piece stands on the
      square it passes over. */
  lemma DoublePushOverPiece(st: State, pawns: Bitboard, f: int)
    requires st.game.Valid() && PushesInRange(st, pawns, 16) && 0 <= f < 64 && Has(pawns, f)
    requires InRange(f + Forward(st.turn, 8)) && TypeAt(st.game, f + Forward(st.turn, 8)).Some?
    requires InRange(f + Forward(st.turn, 16)) && TypeAt(st.game, f + Forward(st.turn, 16)).None?
    requires !PromotionRank(f + Forward(st.turn, 16))
    ensures Move(f, f + Forward(st.turn, 16), None) in PushMoves(st, pawns, 16, BB_ALL, BB_ALL)
  {
    hide TypeAt, Has, PushMoves, PromotionRank;
    var to := f + Forward(st.turn, 16);
    PushMovesMembers(st, pawns, 16, BB_ALL, BB_ALL, Move(f, to, None));
    HasAll(f);
    HasAll(Norm(to));
  }

  // ---- gen_castling_moves ----

  /** The king board of a side: the king board restricted to the side's
      colour board. */
  function KingBoard(st: State, c: Color): (r: Bitboard)
    requires WF(st)
    ensures IsBitboard(r)
  {
    AndRange(st.game.entries["King"], ColorBoard(st, c));
    And(st.game.entries["King"], ColorBoard(st, c))
  }

  /** `get_king_square(color)`: the highest square of the side's king board,
      -1 exactly when the side has no king on the board. */
  function KingSquare(st: State, c: Color): (r: int)
    requires WF(st)
    ensures -1 <= r < 64 && (r == -1 <==> KingBoard(st, c) == BB_EMPTY)
  {
    MsbRange(KingBoard(st, c));
    Msb(KingBoard(st, c))
  }

  /** The far end of the squares the king's path is read from: the
      candidate itself when it is within three squares of the king, the
      square after it otherwise. */
  function PathEnd(k: int, c: int): int {
    if Abs(c - k) < 4 then c else c + 1
  }

  /** The first test of a castling candidate: nothing stands between it
      and the king. */
  predicate SpaceClear(st: State, k: int, c: int)
    requires WF(st) && 0 <= k < 64 && 0 <= c < 64
  {
    And(Between(c, k), st.game.entries["All"]) == BB_EMPTY
  }

  /** The king's path is looked up only for a candidate that passes the
      first test, and then its far end must be a square `compute_between`
      accepts. */
  predicate PathInRange(st: State, k: int, c: int)
    requires WF(st) && 0 <= k < 64 && 0 <= c < 64
  {
    SpaceClear(st, k, c) ==> PathEnd(k, c) < 64
  }

  /** A castling candidate that passes both tests: nothing stands between
      it and the king, and no square strictly between the king and the path
      end is attacked by the other side. */
  predicate CastlingClear(st: State, k: int, c: int)
    requires WF(st) && 0 <= k < 64 && 0 <= c < 64 && PathInRange(st, k, c)
  {
    SpaceClear(st, k, c) && !IsBitboardAttacked(st, Between(k, PathEnd(k, c)), !st.turn)
  }

  /** The king's destination: the highest square of the king board shifted
      two files toward the candidate. */
  function CastlingDestination(king: Bitboard, k: int, c: int): (to: int)
    requires IsBitboard(king)
    ensures -1 <= to < 64
  {
    Shift2RightSquares(king);
    ShiftLeftSquares(king);
    var shifted := if File(k) < File(c) then Shift2Right(king) else Shift2Left(king);
    MsbRange(shifted);
    Msb(shifted)
  }

  /** For a king alone on `k`, the destination is two squares toward the
      candidate, or -1 when the shift drops the king: toward the h-file the
      shift also drops a king landing on the a- or c-file. */
  lemma CastlingDestinationOfKing(k: int, c: int)
    requires 0 <= k < 64
    ensures IsBitboard(SquareBB(k))
    ensures IsBitboard(SquareBB(k)) && CastlingDestination(SquareBB(k), k, c) ==
      if File(k) < File(c) then
        (if k + 2 < 64 && File(k + 2) != 0 && File(k + 2) != 2 then k + 2 else -1)
      else
        (if File(k) >= 2 then k - 2 else -1)
  {
    SquareIsBitboard(k);
    if File(k) < File(c) {
      KingShiftedRight(k);
    } else {
      KingShiftedLeft(k);
    }
  }

  /** The king board shifted two files toward the h-file. */
  lemma KingShiftedRight(k: int)
    requires 0 <= k < 64
    ensures Msb(Shift2Right(SquareBB(k))) ==
      if k + 2 < 64 && File(k + 2) != 0 && File(k + 2) != 2 then k + 2 else -1
  {
    hide *;
    var b := SquareBB(k);
    forall t | 0 <= t
      ensures Has(b, t) == (t == k)
    {
      HasSquareBB(k, t);
    }
    Shift2RightSquares(b);
    if k + 2 < 64 && File(k + 2) != 0 && File(k + 2) != 2 {
      MsbOfOnly(Shift2Right(b), k + 2);
    } else {
      MsbOfNone(Shift2Right(b));
    }
  }

  /** The king board shifted two files toward the a-file. */
  lemma KingShiftedLeft(k: int)
    requires 0 <= k < 64
    ensures IsBitboard(SquareBB(k))
    ensures IsBitboard(SquareBB(k)) && Msb(Shift2Left(SquareBB(k))) == if File(k) >= 2 then k - 2 else -1
  {
    hide Msb, Shift2Left, SquareBB, Has;
    var b := SquareBB(k);
    SquareIsBitboard(k);
    forall t | 0 <= t
      ensures Has(b, t) == (t == k)
    {
      HasSquareBB(k, t);
    }
    ShiftLeftSquares(b);
    if File(k) >= 2 {
      assert File(k - 2) == File(k) - 2;
      MsbOfOnly(Shift2Left(b), k - 2);
    } else {
      forall t | 0 <= t
        ensures !Has(Shift2Left(b), t)
      {
        if t + 2 == k {
          assert File(t) == File(k) + 6;
        }
      }
      MsbOfNone(Shift2Left(b));
    }
  }

  /** `msb` of a board holding one square is that square. */
  lemma MsbOfOnly(x: int, to: int)
    requires 0 <= to < 64 && forall t | 0 <= t :: Has(x, t) == (t == to)
    ensures Msb(x) == to
  {
    forall t | 0 <= t
      ensures Has(x, t) == Has(SquareBB(to), t)
    {
      HasSquareBB(to, t);
    }
    BitsEqual(x, SquareBB(to));
    MsbOfSquare(to);
  }

  /** `msb` of a board holding no square is -1. */
  lemma MsbOfNone(x: int)
    requires forall t | 0 <= t :: !Has(x, t)
    ensures Msb(x) == -1
  {
    forall t | 0 <= t
      ensures Has(x, t) == Has(0, t)
    {
      HasZero(t);
    }
    BitsEqual(x, 0);
    MsbRange(0);
  }

  /** The castling moves for the candidates `cands`, in order: a candidate
      that fails a test is skipped, and the first passing one whose
      destination is outside the end mask ends the generation. */
  function CastlingFrom(st: State, cands: seq<int>, king: Bitboard, k: int, end: Bitboard): seq<Move>
    requires WF(st) && IsBitboard(king) && 0 <= k < 64
    requires forall i | 0 <= i < |cands| :: 0 <= cands[i] < 64 && PathInRange(st, k, cands[i])
  {
    if cands == [] then []
    else
      var c := cands[0];
      if !CastlingClear(st, k, c) then CastlingFrom(st, cands[1..], king, k, end)
      else
        var to := CastlingDestination(king, k, c);
        if And(SquareBB(to), end) == BB_EMPTY then []
        else [Move(k, to, None)] + CastlingFrom(st, cands[1..], king, k, end)
  }

  /** The castling rights on the back rank of the side to move. */
  function CastlingCandidates(st: State): Bitboard
    requires WF(st)
  {
    And(st.game.entries["Castling"], BackRank(st.turn))
  }

  /** With a king on the board, every candidate whose castling space is
      clear has its path end in range. */
  predicate CastlingInRange(st: State)
    requires WF(st)
  {
    0 <= KingSquare(st, st.turn) ==>
      forall c | 0 <= c < 64 && Has(CastlingCandidates(st), c) :: PathInRange(st, KingSquare(st, st.turn), c)
  }

  /** What `gen_castling_moves(start_mask, ...)` needs to finish: nothing
      when the king board misses the start mask, since it then returns
      before any lookup; the candidates' paths in range otherwise. */
  predicate CastlingFits(st: State, start: Bitboard)
    requires WF(st)
  {
    And(KingBoard(st, st.turn), start) != BB_EMPTY ==> CastlingInRange(st)
  }

  /** `gen_castling_moves(start_mask, end_mask)`: nothing when the king
      board misses the start mask; otherwise the castling moves of the king
      square for the candidates, highest first. */
  function CastlingMoves(st: State, start: Bitboard, end: Bitboard): seq<Move>
    requires WF(st) && CastlingFits(st, start)
  {
    var king := KingBoard(st, st.turn);
    if And(king, start) == BB_EMPTY then []
    else
      CastlingReady(st, start);
      CastlingFrom(st, Squares(CastlingCandidates(st)), king, KingSquare(st, st.turn), end)
  }

  /** When the king board meets the start mask there is a king, and the
      candidates as `scan_reversed` lists them have their path ends in
      range. */
  lemma CastlingReady(st: State, start: Bitboard)
    requires WF(st) && CastlingInRange(st) && And(KingBoard(st, st.turn), start) != BB_EMPTY
    ensures IsBitboard(KingBoard(st, st.turn)) && 0 <= KingSquare(st, st.turn) < 64
    ensures forall i | 0 <= i < |Squares(CastlingCandidates(st))| ::
      0 <= Squares(CastlingCandidates(st))[i] < 64
      && PathInRange(st, KingSquare(st, st.turn), Squares(CastlingCandidates(st))[i])
  {
    hide Has, KingSquare, PathEnd, WF;
    AndZero(start);
    var sqs := Squares(CastlingCandidates(st));
    forall i | 0 <= i < |sqs|
      ensures 0 <= sqs[i] < 64 && PathInRange(st, KingSquare(st, st.turn), sqs[i])
    {
      assert sqs[i] in sqs;
    }
  }

  /** Every castling move starts on the king square, promotes nothing,
      lands in the end mask, and goes to the destination of a candidate
      that passes both tests. */
  lemma {:induction false} CastlingFromSound(st: State, cands: seq<int>, king: Bitboard, k: int, end: Bitboard, m: Move)
    requires WF(st) && IsBitboard(king) && 0 <= k < 64
    requires forall i | 0 <= i < |cands| :: 0 <= cands[i] < 64 && PathInRange(st, k, cands[i])
    requires m in CastlingFrom(st, cands, king, k, end)
    ensures m.fromSq == k && m.promotion.None? && InRange(m.toSq) && Has(end, Norm(m.toSq))
    ensures exists i | 0 <= i < |cands| :: CastlingClear(st, k, cands[i]) && m.toSq == CastlingDestination(king, k, cands[i])
    decreases |cands|
  {
    hide CastlingClear, CastlingDestination, PathInRange, Has, WF;
    var c := cands[0];
    if m in CastlingFrom(st, cands[1..], king, k, end) {
      CastlingFromSound(st, cands[1..], king, k, end, m);
      var i :| 0 <= i < |cands[1..]| && CastlingClear(st, k, cands[1..][i])
        && m.toSq == CastlingDestination(king, k, cands[1..][i]);
      assert cands[1..][i] == cands[i + 1];
    } else {
      var to := CastlingDestination(king, k, c);
      AndSquare(end, to);
      assert CastlingClear(st, k, cands[0]) && m.toSq == CastlingDestination(king, k, cands[0]);
    }
  }

  /** With the whole board as end mask every passing candidate gives its
      castling move. */
  lemma {:induction false} CastlingFromComplete(st: State, cands: seq<int>, king: Bitboard, k: int, i: int)
    requires WF(st) && IsBitboard(king) && 0 <= k < 64
    requires forall j | 0 <= j < |cands| :: 0 <= cands[j] < 64 && PathInRange(st, k, cands[j])
    requires 0 <= i < |cands| && CastlingClear(st, k, cands[i])
    ensures Move(k, CastlingDestination(king, k, cands[i]), None) in CastlingFrom(st, cands, king, k, BB_ALL)
    decreases |cands|
  {
    hide CastlingClear, CastlingDestination, PathInRange, Has, WF;
    var c := cands[0];
    if CastlingClear(st, k, c) {
      var to := CastlingDestination(king, k, c);
      AndSquare(BB_ALL, to);
      HasAll(Norm(to));
    }
    if i > 0 {
      CastlingFromComplete(st, cands[1..], king, k, i - 1);
    }
  }

  /** The early stop of `gen_castling_moves`: once a passing candidate's
      destination is outside the end mask, no castling move is generated,
      whatever the later candidates. */
  lemma CastlingStopsEarly(st: State, cands: seq<int>, king: Bitboard, k: int, end: Bitboard)
    requires WF(st) && IsBitboard(king) && 0 <= k < 64
    requires forall i | 0 <= i < |cands| :: 0 <= cands[i] < 64 && PathInRange(st, k, cands[i])
    requires cands != [] && CastlingClear(st, k, cands[0])
    requires !Has(end, Norm(CastlingDestination(king, k, cands[0])))
    ensures CastlingFrom(st, cands, king, k, end) == []
  {
    hide CastlingClear, CastlingDestination, PathInRange, Has, WF;
    AndSquare(end, CastlingDestination(king, k, cands[0]));
  }

  /** `gen_castling_moves` with the whole board as end mask: exactly one
      move from the king square to the destination of each passing
      candidate, when the king board meets the start mask. */
  lemma CastlingMovesMeans(st: State, start: Bitboard, m: Move)
    requires WF(st) && CastlingFits(st, start)
    ensures m in CastlingMoves(st, start, BB_ALL) <==>
      And(KingBoard(st, st.turn), start) != BB_EMPTY && 0 <= KingSquare(st, st.turn) < 64
      && m.fromSq == KingSquare(st, st.turn) && m.promotion.None?
      && exists c | 0 <= c < 64 && Has(CastlingCandidates(st), c) ::
           PathInRange(st, KingSquare(st, st.turn), c) && CastlingClear(st, KingSquare(st, st.turn), c)
           && m.toSq == CastlingDestination(KingBoard(st, st.turn), KingSquare(st, st.turn), c)
  {
    hide CastlingClear, CastlingDestination, CastlingFrom, Has, WF, KingSquare, KingBoard, PathEnd;
    var king := KingBoard(st, st.turn);
    if And(king, start) != BB_EMPTY {
      CastlingReady(st, start);
      var k := KingSquare(st, st.turn);
      var cands := Squares(CastlingCandidates(st));
      if m in CastlingMoves(st, start, BB_ALL) {
        CastlingFromSound(st, cands, king, k, BB_ALL, m);
        var i :| 0 <= i < |cands| && CastlingClear(st, k, cands[i]) && m.toSq == CastlingDestination(king, k, cands[i]);
        assert cands[i] in cands;
      }
      if m.fromSq == k && m.promotion.None?
        && exists c | 0 <= c < 64 && Has(CastlingCandidates(st), c) ::
             PathInRange(st, k, c) && CastlingClear(st, k, c) && m.toSq == CastlingDestination(king, k, c) {
        var c :| 0 <= c < 64 && Has(CastlingCandidates(st), c)
          && PathInRange(st, k, c) && CastlingClear(st, k, c) && m.toSq == CastlingDestination(king, k, c);
        assert c in cands;
        var i :| 0 <= i < |cands| && cands[i] == c;
        CastlingFromComplete(st, cands, king, k, i);
      }
    }
  }

  /** Every castling move starts on the king square, promotes nothing and
      lands in the end mask. */
  lemma CastlingMovesSound(st: State, start: Bitboard, end: Bitboard, m: Move)
    requires WF(st) && CastlingFits(st, start) && m in CastlingMoves(st, start, end)
    ensures 0 <= KingSquare(st, st.turn) && m.fromSq == KingSquare(st, st.turn)
    ensures And(KingBoard(st, st.turn), start) != BB_EMPTY
    ensures m.promotion.None? && InRange(m.toSq) && Has(end, Norm(m.toSq))
  {
    hide CastlingClear, CastlingDestination, CastlingFrom, Has, WF, KingSquare, KingBoard, PathEnd;
    CastlingReady(st, start);
    CastlingFromSound(st, Squares(CastlingCandidates(st)), KingBoard(st, st.turn), KingSquare(st, st.turn), end, m);
  }

  // ---- gen_pseudo_moves ----

  /** The pawns of the side to move. */
  function OwnPawns(st: State): Bitboard
    requires WF(st)
  {
    And(st.game.entries["Pawn"], ColorBoard(st, st.turn))
  }

  /** The pawns of the side to move on its second rank. */
  function DoublePawns(st: State): Bitboard
    requires WF(st)
  {
    if st.turn == WHITE then And(And(st.game.entries["Pawn"], st.game.entries["White"]), BB_RANK_2)
    else And(And(st.game.entries["Pawn"], st.game.entries["Black"]), BB_RANK_7)
  }

  /** What generation from `start` needs so that no lookup leaves the
      board: the single pushes of the side's pawns stay in range, and so do
      the castling paths the start mask lets the generator look up. */
  predicate Generable(st: State, start: Bitboard)
    requires WF(st)
  {
    PushesInRange(st, OwnPawns(st), 8) && CastlingFits(st, start)
  }

  /** Double pushes from the second rank always land on the board. */
  lemma DoublePushesInRange(st: State)
    requires WF(st)
    ensures PushesInRange(st, DoublePawns(st), 16)
  {
    hide Has, And;
    var pawn := st.game.entries["Pawn"];
    forall f | 0 <= f < 64 && Has(DoublePawns(st), f)
      ensures InRange(f + Forward(st.turn, 16))
    {
      if st.turn == WHITE {
        HasAnd(And(pawn, st.game.entries["White"]), BB_RANK_2, f);
        HasRank(1, f);
        assert 8 <= f < 16;
      } else {
        HasAnd(And(pawn, st.game.entries["Black"]), BB_RANK_7, f);
        HasRank(6, f);
        assert 48 <= f < 56;
      }
    }
  }

  /** The pieces of the side to move other than its pawns. */
  function OwnPieces(st: State): Bitboard
    requires WF(st)
  {
    And(ColorBoard(st, st.turn), Not(st.game.entries["Pawn"]))
  }

  /** What a pawn may capture: an enemy piece or the en-passant square. */
  function PawnTargets(st: State): Bitboard
    requires WF(st)
  {
    Or(ColorBoard(st, !st.turn), st.game.entries["En passant"])
  }

  /** `gen_pseudo_moves(start_mask, end_mask)`: the moves of the side's
      pieces other than pawns to squares not its own, the pawn captures of
      enemy pieces and of the en-passant square, the single and the double
      pawn pushes, then the castling moves. */
  function PseudoMoves(st: State, start: Bitboard, end: Bitboard): seq<Move>
    requires WF(st) && Generable(st, start)
  {
    DoublePushesInRange(st);
    AttackMoves(st, OwnPieces(st), Not(ColorBoard(st, st.turn)), start, end)
    + AttackMoves(st, OwnPawns(st), PawnTargets(st), start, end)
    + PushMoves(st, OwnPawns(st), 8, start, end)
    + PushMoves(st, DoublePawns(st), 16, start, end)
    + CastlingMoves(st, start, end)
  }

  /** The moves of `gen_pseudo_moves`, by the generator that yields them. */
  lemma PseudoMovesMembers(st: State, start: Bitboard, end: Bitboard, m: Move)
    requires WF(st) && Generable(st, start)
    ensures m in PseudoMoves(st, start, end) <==>
      AttackMoveOK(st, m, OwnPieces(st), Not(ColorBoard(st, st.turn)), start, end)
      || AttackMoveOK(st, m, OwnPawns(st), PawnTargets(st), start, end)
      || PushMoveOK(st, m, OwnPawns(st), 8, start, end)
      || PushMoveOK(st, m, DoublePawns(st), 16, start, end)
      || m in CastlingMoves(st, start, end)
  {
    DoublePushesInRange(st);
    AttackMovesMembers(st, OwnPieces(st), Not(ColorBoard(st, st.turn)), start, end, m);
    AttackMovesMembers(st, OwnPawns(st), PawnTargets(st), start, end, m);
    PushMovesMembers(st, OwnPawns(st), 8, start, end, m);
    PushMovesMembers(st, DoublePawns(st), 16, start, end, m);
  }

  /** Every pseudo move has squares `BB_SQUARES` accepts and lands in the
      end mask; it starts in the start mask, or it is a castling move from
      the king square of a king board that meets the start mask. */
  lemma PseudoMovesSound(st: State, start: Bitboard, end: Bitboard, m: Move)
    requires WF(st) && Generable(st, start) && m in PseudoMoves(st, start, end)
    ensures InRange(m.fromSq) && InRange(m.toSq) && Has(end, Norm(m.toSq))
    ensures Has(start, Norm(m.fromSq))
      || (m.fromSq == KingSquare(st, st.turn) && 0 <= m.fromSq && And(KingBoard(st, st.turn), start) != BB_EMPTY)
  {
    hide Has, MaskAttack, TypeAt, PromotionOK, AttackPromotes, CastlingMoves, KingSquare, KingBoard;
    PseudoMovesMembers(st, start, end, m);
    if m in CastlingMoves(st, start, end) {
      CastlingMovesSound(st, start, end, m);
    }
  }

  /** The start mask that leaves out the king board makes the castling
      generator return before any lookup, so it yields nothing whatever the
      candidates. */
  lemma NoCastlingWithoutKing(st: State, end: Bitboard)
    requires WF(st)
    ensures CastlingFits(st, Not(KingBoard(st, st.turn)))
    ensures CastlingMoves(st, Not(KingBoard(st, st.turn)), end) == []
  {
    AndNotSelf(KingBoard(st, st.turn));
  }

  /** A board and its complement share no square. */
  lemma AndNotSelf(b: Bitboard)
    ensures And(b, Not(b)) == 0
  {
    var both := And(b, Not(b));
    forall i | 0 <= i
      ensures !Has(both, i)
    {
      HasAnd(b, Not(b), i);
      HasNot(b, i);
    }
    NonZero(both);
  }

  // ---- gen_scape_moves ----

  /** The squares the king may step to out of check: those its mask attack
      reaches, not of its own side and off every ray from a sliding
      attacker through the king. */
  function EscapeSquares(st: State, k: int, attackers: Bitboard): Bitboard
    requires WF(st) && 0 <= k < 64
  {
    And(And(MaskAttack(st, k), Not(ColorBoard(st, st.turn))), Not(AttackedBySliders(st, k, attackers)))
  }

  /** The king moves to each square of `tos`, in order. */
  function KingSteps(k: int, tos: seq<int>): seq<Move> {
    seq(|tos|, i requires 0 <= i < |tos| => Move(k, tos[i], None))
  }

  /** A king step goes from `k` to a square of `tos` and promotes nothing. */
  lemma KingStepsMembers(k: int, tos: seq<int>, m: Move)
    ensures m in KingSteps(k, tos) <==> m.fromSq == k && m.promotion.None? && m.toSq in tos
  {
    if m.fromSq == k && m.promotion.None? && m.toSq in tos {
      var i :| 0 <= i < |tos| && tos[i] == m.toSq;
      assert KingSteps(k, tos)[i] == m;
    }
  }

  /** What the remaining pieces must reach against a single attacker with
      description `d` on `a`: the squares between it and the king and the
      attacker itself for a slider, the attacker alone for a stepper,
      nothing otherwise. */
  function BlockTargets(d: Attacks, a: int, k: int, attackers: Bitboard): Bitboard
    requires 0 <= a < 64 && 0 <= k < 64
  {
    if d.horizontal || d.vertical || d.diagonal then Or(Between(a, k), attackers)
    else if !d.step.NoSteps? then Or(BB_EMPTY, attackers)
    else BB_EMPTY
  }

  /** What `gen_scape_moves` looks up for a single attacker: a square
      `get_type_at` names, under a name with an attack description. */
  predicate ScapeTyped(st: State, attackers: Bitboard)
    requires WF(st)
  {
    GameValid(st);
    attackers != BB_EMPTY && IsOneBitOn(attackers) ==>
      0 <= Msb(attackers) < 64 && TypeAt(st.game, Msb(attackers)).Some?
      && TypeAt(st.game, Msb(attackers)).value in st.attacks
  }

  /** The block targets of a single attacker. */
  function ScapeTargets(st: State, attackers: Bitboard): Bitboard
    requires WF(st) && 0 <= KingSquare(st, st.turn) && ScapeTyped(st, attackers)
    requires attackers != BB_EMPTY && IsOneBitOn(attackers)
  {
    GameValid(st);
    var a := Msb(attackers);
    BlockTargets(st.attacks[TypeAt(st.game, a).value], a, KingSquare(st, st.turn), attackers)
  }

  /** `gen_scape_moves(attackers)`: the king steps to each escape square,
      highest first; then, against a single attacker whose block targets
      are not empty, the pseudo moves of every piece but the king onto
      those targets. */
  function ScapeMoves(st: State, attackers: Bitboard): seq<Move>
    requires WF(st) && PushesInRange(st, OwnPawns(st), 8) && 0 <= KingSquare(st, st.turn)
    requires attackers != BB_EMPTY && ScapeTyped(st, attackers)
  {
    NoCastlingWithoutKing(st, BB_EMPTY);
    var k := KingSquare(st, st.turn);
    var escapes := KingSteps(k, Squares(EscapeSquares(st, k, attackers)));
    if IsOneBitOn(attackers) && ScapeTargets(st, attackers) != BB_EMPTY then
      escapes + PseudoMoves(st, Not(KingBoard(st, st.turn)), ScapeTargets(st, attackers))
    else escapes
  }

  /** The moves of `gen_scape_moves`: a king step to an escape square, or,
      against a single attacker, a move of another piece that lands on a
      block target. */
  lemma ScapeMovesMembers(st: State, attackers: Bitboard, m: Move)
    requires WF(st) && PushesInRange(st, OwnPawns(st), 8) && 0 <= KingSquare(st, st.turn)
    requires attackers != BB_EMPTY && ScapeTyped(st, attackers)
    ensures CastlingFits(st, Not(KingBoard(st, st.turn)))
    ensures m in ScapeMoves(st, attackers) <==>
      (m.fromSq == KingSquare(st, st.turn) && m.promotion.None? && 0 <= m.toSq < 64
       && Has(EscapeSquares(st, KingSquare(st, st.turn), attackers), m.toSq))
      || (IsOneBitOn(attackers) && m in PseudoMoves(st, Not(KingBoard(st, st.turn)), ScapeTargets(st, attackers)))
  {
    hide Has, PseudoMoves, EscapeSquares, ScapeTargets, KingSquare, KingBoard, WF, ScapeTyped, IsOneBitOn;
    NoCastlingWithoutKing(st, BB_EMPTY);
    var k := KingSquare(st, st.turn);
    var tos := Squares(EscapeSquares(st, k, attackers));
    var escapes := KingSteps(k, tos);
    KingStepsMembers(k, tos, m);
    if IsOneBitOn(attackers) && m in PseudoMoves(st, Not(KingBoard(st, st.turn)), ScapeTargets(st, attackers)) {
      PseudoMovesSound(st, Not(KingBoard(st, st.turn)), ScapeTargets(st, attackers), m);
      if ScapeTargets(st, attackers) == BB_EMPTY {
        HasZero(Norm(m.toSq));
      }
    }
  }

  // ---- gen_legal_moves ----

  /** What `gen_legal_moves` needs to run to the end: a readable position
      whose single pawn pushes stay on the board, a king of the side to
      move, castling paths in range when the king is not attacked (the only
      case that generates castling moves), an en-passant board whose pawn
      square `BB_SQUARES` accepts, and, in check from a single attacker, a
      named attacker with a description. */
  ghost predicate Playable(st: State) {
    WF(st) && PushesInRange(st, OwnPawns(st), 8) && 0 <= KingSquare(st, st.turn)
    && (Attackers(st, KingSquare(st, st.turn), !st.turn) == BB_EMPTY ==> CastlingInRange(st))
    && (st.game.entries["En passant"] != BB_EMPTY ==> InRange(LastMoveSquare(st)))
    && ScapeTyped(st, Attackers(st, KingSquare(st, st.turn), !st.turn))
  }

  /** The moves `gen_legal_moves` filters: the escape moves when the king
      has attackers, all pseudo moves otherwise. */
  function Candidates(st: State): seq<Move>
    requires Playable(st)
  {
    var attackers := Attackers(st, KingSquare(st, st.turn), !st.turn);
    if attackers != BB_EMPTY then ScapeMoves(st, attackers) else PseudoMoves(st, BB_ALL, BB_ALL)
  }

  /** Every candidate is a move `is_safe` can judge. */
  lemma CandidateCheckable(st: State, m: Move)
    requires Playable(st) && m in Candidates(st)
    ensures Checkable(st, m)
  {
    hide Has, PseudoMoves, ScapeMoves, EscapeSquares, ScapeTargets, KingSquare, KingBoard, ScapeTyped, Attackers, IsOneBitOn, LastMoveSquare;
    var k := KingSquare(st, st.turn);
    var attackers := Attackers(st, k, !st.turn);
    if attackers != BB_EMPTY {
      ScapeMovesMembers(st, attackers, m);
      if !(m.fromSq == k && 0 <= m.toSq < 64) {
        PseudoMovesSound(st, Not(KingBoard(st, st.turn)), ScapeTargets(st, attackers), m);
      }
    } else {
      PseudoMovesSound(st, BB_ALL, BB_ALL, m);
    }
    if IsEnPassantMove(st, m) {
      AndZero(SquareBB(m.toSq));
    }
  }

  /** The moves of `ms` that `is_safe` accepts, in order. */
  function SafeOnes(st: State, k: int, blockers: Bitboard, ms: seq<Move>): seq<Move>
    requires WF(st) && 0 <= k < 64 && forall i | 0 <= i < |ms| :: Checkable(st, ms[i])
  {
    if ms == [] then []
    else (if Safe(st, k, ms[0], blockers) then [ms[0]] else []) + SafeOnes(st, k, blockers, ms[1..])
  }

  lemma {:induction false} SafeOnesMembers(st: State, k: int, blockers: Bitboard, ms: seq<Move>, m: Move)
    requires WF(st) && 0 <= k < 64 && forall i | 0 <= i < |ms| :: Checkable(st, ms[i])
    ensures m in SafeOnes(st, k, blockers, ms) <==> m in ms && Checkable(st, m) && Safe(st, k, m, blockers)
    decreases |ms|
  {
    hide Safe, Checkable, WF;
    if ms != [] {
      SafeOnesMembers(st, k, blockers, ms[1..], m);
      assert ms == [ms[0]] + ms[1..];
    }
  }

  /** `gen_legal_moves`: the candidates `is_safe` accepts for the king
      square and the blockers of the side to move. */
  function LegalMoves(st: State): seq<Move>
    requires Playable(st)
  {
    var k := KingSquare(st, st.turn);
    assert forall i | 0 <= i < |Candidates(st)| :: Checkable(st, Candidates(st)[i]) by {
      forall i | 0 <= i < |Candidates(st)|
        ensures Checkable(st, Candidates(st)[i])
      {
        CandidateCheckable(st, Candidates(st)[i]);
      }
    }
    SafeOnes(st, k, Blockers(st, k, st.turn), Candidates(st))
  }

  /** A legal move is a candidate that `is_safe` accepts. */
  lemma LegalMovesMembers(st: State, m: Move)
    requires Playable(st)
    ensures m in LegalMoves(st) <==>
      m in Candidates(st) && Checkable(st, m)
      && Safe(st, KingSquare(st, st.turn), m, Blockers(st, KingSquare(st, st.turn), st.turn))
  {
    hide Safe, Checkable, WF, Candidates, KingSquare, Blockers;
    var k := KingSquare(st, st.turn);
    assert forall i | 0 <= i < |Candidates(st)| :: Checkable(st, Candidates(st)[i]) by {
      forall i | 0 <= i < |Candidates(st)|
        ensures Checkable(st, Candidates(st)[i])
      {
        CandidateCheckable(st, Candidates(st)[i]);
      }
    }
    SafeOnesMembers(st, k, Blockers(st, k, st.turn), Candidates(st), m);
  }

  /** Out of check, the legal moves are the pseudo moves `is_safe`
      accepts. */
  lemma NotInCheckLegal(st: State, m: Move)
    requires Playable(st) && !IsSquareAttacked(st, KingSquare(st, st.turn), !st.turn)
    ensures m in LegalMoves(st) <==>
      m in PseudoMoves(st, BB_ALL, BB_ALL) && Checkable(st, m)
      && Safe(st, KingSquare(st, st.turn), m, Blockers(st, KingSquare(st, st.turn), st.turn))
  {
    hide Safe, Checkable, WF, KingSquare, Blockers, PseudoMoves, ScapeMoves, LegalMoves, Attackers;
    LegalMovesMembers(st, m);
  }

  /** In check from two or more pieces only the king moves: every legal
      move starts on the king square and goes to an unattacked square,
      unless it has the shape of a castling move. */
  lemma DoubleCheckKingMoves(st: State, m: Move)
    requires Playable(st)
    requires Attackers(st, KingSquare(st, st.turn), !st.turn) != BB_EMPTY
    requires !IsOneBitOn(Attackers(st, KingSquare(st, st.turn), !st.turn))
    requires m in LegalMoves(st)
    ensures m.fromSq == KingSquare(st, st.turn) && 0 <= m.toSq < 64
    ensures IsMoveCastling(st.game, m) || !IsSquareAttacked(st, m.toSq, !st.turn)
  {
    hide Has, Checkable, WF, KingSquare, Blockers, PseudoMoves, EscapeSquares, ScapeTargets, LegalMoves, Attackers, IsOneBitOn, Generable, ScapeTyped;
    var k := KingSquare(st, st.turn);
    LegalMovesMembers(st, m);
    ScapeMovesMembers(st, Attackers(st, k, !st.turn), m);
  }

  /** In check from a single piece, every legal move of a piece other
      than the king starts off the king board and lands on the attacker or,
      when it slides, between it and the king. */
  lemma SingleCheckBlocks(st: State, m: Move)
    requires Playable(st)
    requires Attackers(st, KingSquare(st, st.turn), !st.turn) != BB_EMPTY
    requires IsOneBitOn(Attackers(st, KingSquare(st, st.turn), !st.turn))
    requires m in LegalMoves(st) && m.fromSq != KingSquare(st, st.turn)
    ensures InRange(m.fromSq) && !Has(KingBoard(st, st.turn), Norm(m.fromSq))
    ensures InRange(m.toSq) && Has(ScapeTargets(st, Attackers(st, KingSquare(st, st.turn), !st.turn)), Norm(m.toSq))
  {
    hide Has, Safe, Checkable, WF, KingSquare, KingBoard, Blockers, PseudoMoves, EscapeSquares, ScapeTargets, LegalMoves, Attackers, IsOneBitOn, ScapeTyped;
    var k := KingSquare(st, st.turn);
    var attackers := Attackers(st, k, !st.turn);
    LegalMovesMembers(st, m);
    ScapeMovesMembers(st, attackers, m);
    var king := KingBoard(st, st.turn);
    PseudoMovesSound(st, Not(king), ScapeTargets(st, attackers), m);
    AndNotSelf(king);
    HasNot(king, Norm(m.fromSq));
  }

  // ---- get_status_game ----

  /** `get_status_game`: with no legal move the side to move has lost when
      its king is attacked and it is stalemated otherwise; with any legal
      move the game goes on. */
  function Status(st: State): Resolution
    requires Playable(st)
  {
    if |LegalMoves(st)| == 0 then
      if IsSquareAttacked(st, KingSquare(st, st.turn), !st.turn) then
        (if st.turn == BLACK then WhiteWins else BlackWins)
      else DrawByStalemate
    else Ongoing
  }

  /** The status in terms of the candidates and `is_safe`: the game goes
      on exactly when some candidate is safe; a side with no safe candidate
      loses when in check and is stalemated otherwise; a repetition draw
      is never reported. */
  lemma StatusMeans(st: State)
    requires Playable(st)
    ensures Status(st) != DrawByRepetition
    ensures Status(st) == Ongoing <==>
      exists m | m in Candidates(st) && Checkable(st, m) ::
        Safe(st, KingSquare(st, st.turn), m, Blockers(st, KingSquare(st, st.turn), st.turn))
    ensures Status(st) == DrawByStalemate <==>
      Status(st) != Ongoing && Attackers(st, KingSquare(st, st.turn), !st.turn) == BB_EMPTY
    ensures Status(st) == WhiteWins <==>
      Status(st) != Ongoing && st.turn == BLACK && Attackers(st, KingSquare(st, st.turn), !st.turn) != BB_EMPTY
    ensures Status(st) == BlackWins <==>
      Status(st) != Ongoing && st.turn == WHITE && Attackers(st, KingSquare(st, st.turn), !st.turn) != BB_EMPTY
  {
    hide Safe, Checkable, KingSquare, Blockers, Candidates, Attackers;
    var k := KingSquare(st, st.turn);
    var legal := LegalMoves(st);
    if |legal| > 0 {
      LegalMovesMembers(st, legal[0]);
    } else {
      forall m | m in Candidates(st) && Checkable(st, m)
        ensures !Safe(st, k, m, Blockers(st, k, st.turn))
      {
        LegalMovesMembers(st, m);
      }
    }
  }
}
