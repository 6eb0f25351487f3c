/** The analyses of `ChessDeck` that read a position without changing it:
    the attacks of the pieces on a square, the attackers of a square, the
    pinned pieces, the squares a sliding checker covers, the en-passant
    skewer, pseudo-legal, escape and legal move generation, the safety
    filter and the game status.  Each is a function of a `State`, the
    fields of a `ChessDeck` these methods read; the class `ChessDeck`
    computes them with the loops of the source and is proved to agree. */
module Positions {
  import opened Bits
  import opened Wrappers
  import opened Computer
  import opened Pieces
  import opened Dicts
  import opened Boards
  import opened Moves
  import opened Bitboards
  import opened Rays
  import opened AttackTables
  import opened Play

  /** `GameResolution`. */
  datatype Resolution = WhiteWins | BlackWins | DrawByStalemate | DrawByRepetition | Ongoing

  /** What the analyses read of a `ChessDeck`: the board dictionary, the
      side to move, the piece sets and promotion sets of both sides (Python
      sets, listed here in some order: every use of a set ORs over it, so
      the order does not change a result) and the attack descriptions by
      piece name. */
  datatype State = State(game: Dict, turn: Color, whiteSet: seq<Piece>, blackSet: seq<Piece>,
                         whiteProm: seq<Piece>, blackProm: seq<Piece>, attacks: map<string, Attacks>)
  {
    /** `get_set_of_color`. */
    function SetOf(c: Color): seq<Piece> {
      if c == WHITE then whiteSet else blackSet
    }

    /** `white_prom if turn is WHITE else black_prom`. */
    function PromOf(c: Color): seq<Piece> {
      if c == WHITE then whiteProm else blackProm
    }
  }

  /** A piece whose board and description are where the engine looks them
      up: a board under its name, and under its name the description
      `create_dict_attacks` gives its kind. */
  predicate Known(st: State, p: Piece) {
    p.Name() in st.game.entries && p.Name() in st.attacks && st.attacks[p.Name()] == AttacksOf(p.kind)
  }

  /** Every piece of `ps` is known. */
  predicate AllKnown(st: State, ps: seq<Piece>) {
    forall k | 0 <= k < |ps| :: Known(st, ps[k])
  }

  /** A position the analyses can read: a well-formed dictionary with the
      aggregate, pawn, king, castling and en-passant boards, every board a
      64-bit board, and every piece of both sets known. */
  ghost predicate WF(st: State) {
    HasBoards(st.game)
    && "Pawn" in st.game.entries && "King" in st.game.entries
    && "Castling" in st.game.entries && "En passant" in st.game.entries
    && (forall k | k in st.game.entries :: IsBitboard(st.game.entries[k]))
    && AllKnown(st, st.whiteSet) && AllKnown(st, st.blackSet)
  }

  /** A readable position has a well-formed dictionary. */
  lemma GameValid(st: State)
    requires WF(st)
    ensures st.game.Valid() && HasBoards(st.game)
  {
  }

  /** `get_pieces_of_color`. */
  function ColorBoard(st: State, c: Color): Bitboard
    requires WF(st)
  {
    st.game.entries[ColorKey(c)]
  }

  /** A step of `distance` squares toward the far side of the side to move. */
  function Forward(turn: Color, distance: int): int {
    if turn == WHITE then distance else -distance
  }

  // ---- get_mask_attack ----

  /** The attacks of a piece of kind `p.kind` on `sq`, with the pawn
      direction of the side to move and the current occupancy. */
  function Reach(st: State, p: Piece, sq: int): Bitboard
    requires WF(st) && 0 <= sq < 64
  {
    AttacksStepsOK(p.kind);
    PieceAttack(AttacksOf(p.kind), sq, st.turn, st.game.entries["All"])
  }

  /** What one piece of the set adds to `get_mask_attack(sq)`: its attacks
      from its description when its board has `sq`, nothing otherwise. */
  function Contribution(st: State, p: Piece, sq: int): Bitboard
    requires WF(st) && 0 <= sq < 64 && Known(st, p)
  {
    if And(SquareBB(sq), st.game.entries[p.Name()]) == BB_EMPTY then BB_EMPTY
    else
      AttacksStepsOK(p.kind);
      PieceAttack(st.attacks[p.Name()], sq, st.turn, st.game.entries["All"])
  }

  /** The contributions of the pieces `ps`, ORed in order. */
  function MaskAttackOver(st: State, ps: seq<Piece>, sq: int): Bitboard
    requires WF(st) && 0 <= sq < 64 && AllKnown(st, ps)
  {
    if ps == [] then BB_EMPTY
    else Or(MaskAttackOver(st, ps[..|ps| - 1], sq), Contribution(st, ps[|ps| - 1], sq))
  }

  /** `get_mask_attack(sq)`: over the piece set of the side to move, whose
      pieces stand on `sq` and what they attack from there.  The colour of
      what stands on `sq` is never read. */
  function MaskAttack(st: State, sq: int): Bitboard
    requires WF(st) && 0 <= sq < 64
  {
    MaskAttackOver(st, st.SetOf(st.turn), sq)
  }

  /** Testing a board against `BB_SQUARES[sq]` reads bit `sq`. */
  lemma AndSquare(x: int, sq: int)
    requires InRange(sq)
    ensures And(SquareBB(sq), x) != 0 <==> Has(x, Norm(sq))
    ensures And(x, SquareBB(sq)) != 0 <==> Has(x, Norm(sq))
  {
    hide Has, And, SquareBB;
    AndComm(x, SquareBB(sq));
    NonZero(And(SquareBB(sq), x));
    HasAnd(SquareBB(sq), x, Norm(sq));
    HasSquareBB(sq, Norm(sq));
    forall i | 0 <= i && Has(And(SquareBB(sq), x), i)
      ensures Has(x, Norm(sq))
    {
      HasAnd(SquareBB(sq), x, i);
      HasSquareBB(sq, i);
    }
  }

  /** A piece of the set standing on `sq` (by its board alone) and
      reaching `t` from there. */
  predicate Hits(st: State, p: Piece, sq: int, t: int)
    requires WF(st) && 0 <= sq < 64 && Known(st, p) && 0 <= t
  {
    Has(st.game.entries[p.Name()], sq) && Has(Reach(st, p, sq), t)
  }

  /** A contribution is the piece's reach when its board has the square. */
  lemma ContributionHits(st: State, p: Piece, sq: int, t: int)
    requires WF(st) && 0 <= sq < 64 && Known(st, p) && 0 <= t
    ensures Has(Contribution(st, p, sq), t) <==> Hits(st, p, sq, t)
  {
    hide Has, And, SquareBB, PieceAttack;
    AndSquare(st.game.entries[p.Name()], sq);
    HasZero(t);
  }

  /** The attacks `get_mask_attack` finds, square by square: square `t` is
      attacked from `sq` exactly when some piece of the list hits it. */
  lemma {:induction false} MaskAttackOverSquares(st: State, ps: seq<Piece>, sq: int, t: int)
    requires WF(st) && 0 <= sq < 64 && AllKnown(st, ps) && 0 <= t
    ensures Has(MaskAttackOver(st, ps, sq), t) <==> exists i | 0 <= i < |ps| :: Hits(st, ps[i], sq, t)
    decreases |ps|
  {
    hide Has, Or, Contribution, Hits, WF, Known, AttacksOf, Describe, Piece.Name;
    if ps == [] {
      HasZero(t);
    } else {
      var n := |ps| - 1;
      var p := ps[n];
      var pre := ps[..n];
      assert AllKnown(st, pre) by {
        forall k | 0 <= k < n
          ensures Known(st, pre[k])
        {
          assert pre[k] == ps[k];
        }
      }
      MaskAttackOverSquares(st, pre, sq, t);
      HasOr(MaskAttackOver(st, pre, sq), Contribution(st, p, sq), t);
      ContributionHits(st, p, sq, t);
      if exists i | 0 <= i < n :: Hits(st, pre[i], sq, t) {
        var i :| 0 <= i < n && Hits(st, pre[i], sq, t);
        assert ps[i] == pre[i];
      }
      if exists i | 0 <= i < |ps| :: Hits(st, ps[i], sq, t) {
        var i :| 0 <= i < |ps| && Hits(st, ps[i], sq, t);
        if i < n {
          assert pre[i] == ps[i];
        }
      }
    }
  }

  /** `get_mask_attack(sq)` square by square: `t` is attacked exactly when a
      piece of the side to move's set has `sq` on its board and reaches `t`
      with that side's pawn direction, whatever the colour of the piece
      that actually stands on `sq`. */
  lemma MaskAttackSquares(st: State, sq: int, t: int)
    requires WF(st) && 0 <= sq < 64 && 0 <= t
    ensures Has(MaskAttack(st, sq), t) <==>
      exists p | p in st.SetOf(st.turn) :: Has(st.game.entries[p.Name()], sq) && Has(Reach(st, p, sq), t)
  {
    hide Has, Reach, MaskAttackOver, Hits, AttacksOf, Describe, Piece.Name;
    MaskAttackOverSquares(st, st.SetOf(st.turn), sq, t);
    SomeHit(st, st.SetOf(st.turn), sq, t);
  }

  /** A hit by an index of the list is a hit by a member. */
  lemma SomeHit(st: State, ps: seq<Piece>, sq: int, t: int)
    requires WF(st) && 0 <= sq < 64 && AllKnown(st, ps) && 0 <= t
    ensures (exists i | 0 <= i < |ps| :: Hits(st, ps[i], sq, t)) <==>
      exists p | p in ps :: Has(st.game.entries[p.Name()], sq) && Has(Reach(st, p, sq), t)
  {
    hide Has, Reach, WF, AttacksOf, Describe, Piece.Name;
    if exists p | p in ps :: Has(st.game.entries[p.Name()], sq) && Has(Reach(st, p, sq), t) {
      var p :| p in ps && Has(st.game.entries[p.Name()], sq) && Has(Reach(st, p, sq), t);
      var i :| 0 <= i < |ps| && ps[i] == p;
      assert Hits(st, ps[i], sq, t);
    }
    if exists i | 0 <= i < |ps| :: Hits(st, ps[i], sq, t) {
      var i :| 0 <= i < |ps| && Hits(st, ps[i], sq, t);
      assert ps[i] in ps;
    }
  }

  /** The pawn quirk of `get_mask_attack`: with the side to move's pawn in
      its set, a square on the pawn board attacks the two squares diagonally
      ahead of the side to move, even when the pawn there is the
      opponent's. */
  lemma PawnSquareAttacksAhead(st: State, sq: int, t: int)
    requires WF(st) && 0 <= sq < 64 && 0 <= t
    requires Piece(Pawn, st.turn) in st.SetOf(st.turn) && Has(st.game.entries["Pawn"], sq)
    requires Has(StepAttacks(sq, if st.turn == WHITE then [7, 9] else [-7, -9]), t)
    ensures Has(MaskAttack(st, sq), t)
  {
    var p := Piece(Pawn, st.turn);
    DescriptionOfPiece(Pawn);
    AttacksStepsOK(Pawn);
    PieceAttackSquares(AttacksOf(Pawn), sq, st.turn, st.game.entries["All"], t);
    MaskAttackSquares(st, sq, t);
  }

  /** `get_mask_attack` never reads the colour boards: two positions that
      differ only there attack the same squares. */
  lemma {:induction false} MaskAttackIgnoresColours(st: State, st': State, ps: seq<Piece>, sq: int)
    requires WF(st) && WF(st') && 0 <= sq < 64
    requires AllKnown(st, ps) && AllKnown(st', ps)
    requires st'.turn == st.turn && st'.attacks == st.attacks
    requires st'.game.entries["All"] == st.game.entries["All"]
    requires forall k | 0 <= k < |ps| :: st'.game.entries[ps[k].Name()] == st.game.entries[ps[k].Name()]
    ensures MaskAttackOver(st', ps, sq) == MaskAttackOver(st, ps, sq)
    decreases |ps|
  {
    hide Reach, PieceAttack, Or, And, SquareBB;
    if ps != [] {
      MaskAttackIgnoresColours(st, st', ps[..|ps| - 1], sq);
    }
  }

  /** One piece's contribution is a 64-bit board. */
  lemma ContributionIsBitboard(st: State, p: Piece, sq: int)
    requires WF(st) && 0 <= sq < 64 && Known(st, p)
    ensures IsBitboard(Contribution(st, p, sq))
  {
    hide PieceAttack;
    AttacksStepsOK(p.kind);
    PieceAttackIsBitboard(st.attacks[p.Name()], sq, st.turn, st.game.entries["All"]);
  }

  /** `get_mask_attack` is a 64-bit board. */
  lemma {:induction false} MaskAttackOverIsBitboard(st: State, ps: seq<Piece>, sq: int)
    requires WF(st) && 0 <= sq < 64 && AllKnown(st, ps)
    ensures IsBitboard(MaskAttackOver(st, ps, sq))
    decreases |ps|
  {
    hide Or, WF, Contribution;
    if ps != [] {
      var p := ps[|ps| - 1];
      MaskAttackOverIsBitboard(st, ps[..|ps| - 1], sq);
      ContributionIsBitboard(st, p, sq);
      Pow64();
      OrBelow(MaskAttackOver(st, ps[..|ps| - 1], sq), Contribution(st, p, sq), 64);
    }
  }

  // ---- get_attackers_of_square, is_square_attacked, is_bitboard_attacked ----

  /** The squares of `froms` whose mask attack has `sq`, ORed in order. */
  function AttackersOver(st: State, froms: seq<int>, sq: int): Bitboard
    requires WF(st) && InRange(sq) && forall k | 0 <= k < |froms| :: 0 <= froms[k] < 64
  {
    if froms == [] then BB_EMPTY
    else
      var a := froms[|froms| - 1];
      var acc := AttackersOver(st, froms[..|froms| - 1], sq);
      if And(MaskAttack(st, a), SquareBB(sq)) != BB_EMPTY then Or(acc, SquareBB(a)) else acc
  }

  /** `get_attackers_of_square(sq, color)`: the squares of `color` whose
      `get_mask_attack` has `sq`. */
  function Attackers(st: State, sq: int, color: Color): Bitboard
    requires WF(st) && InRange(sq)
  {
    AttackersOver(st, Squares(ColorBoard(st, color)), sq)
  }

  /** `is_square_attacked`. */
  predicate IsSquareAttacked(st: State, sq: int, color: Color)
    requires WF(st) && InRange(sq)
  {
    Attackers(st, sq, color) != BB_EMPTY
  }

  lemma {:induction false} AttackersOverSquares(st: State, froms: seq<int>, sq: int, t: int)
    requires WF(st) && InRange(sq) && (forall k | 0 <= k < |froms| :: 0 <= froms[k] < 64) && 0 <= t
    ensures Has(AttackersOver(st, froms, sq), t) <==> t in froms && Has(MaskAttack(st, t), Norm(sq))
    decreases |froms|
  {
    hide Has, And, Or, SquareBB, MaskAttack;
    if froms == [] {
      HasZero(t);
    } else {
      var n := |froms| - 1;
      var a := froms[n];
      AttackersOverSquares(st, froms[..n], sq, t);
      AndSquare(MaskAttack(st, a), sq);
      HasOr(AttackersOver(st, froms[..n], sq), SquareBB(a), t);
      HasSquareBB(a, t);
      assert froms == froms[..n] + [a];
    }
  }

  /** `get_attackers_of_square(sq, color)` square by square: the squares of
      `color` from which `get_mask_attack` reaches `sq`. */
  lemma AttackersSquares(st: State, sq: int, color: Color, t: int)
    requires WF(st) && InRange(sq) && 0 <= t
    ensures Has(Attackers(st, sq, color), t) <==>
      t < 64 && Has(ColorBoard(st, color), t) && Has(MaskAttack(st, t), Norm(sq))
  {
    AttackersOverSquares(st, Squares(ColorBoard(st, color)), sq, t);
  }

  lemma {:induction false} AttackersOverIsBitboard(st: State, froms: seq<int>, sq: int)
    requires WF(st) && InRange(sq) && forall k | 0 <= k < |froms| :: 0 <= froms[k] < 64
    ensures IsBitboard(AttackersOver(st, froms, sq))
    decreases |froms|
  {
    hide Or, And, SquareBB, MaskAttack, WF;
    if froms != [] {
      var n := |froms| - 1;
      AttackersOverIsBitboard(st, froms[..n], sq);
      SquareIsBitboard(froms[n]);
      Pow64();
      OrBelow(AttackersOver(st, froms[..n], sq), SquareBB(froms[n]), 64);
    }
  }

  /** `get_attackers_of_square` is a 64-bit board. */
  lemma AttackersIsBitboard(st: State, sq: int, color: Color)
    requires WF(st) && InRange(sq)
    ensures IsBitboard(Attackers(st, sq, color))
  {
    AttackersOverIsBitboard(st, Squares(ColorBoard(st, color)), sq);
  }

  /** `is_square_attacked(sq, color)` holds exactly when some square of
      `color` attacks `sq`. */
  lemma SquareAttackedMeans(st: State, sq: int, color: Color)
    requires WF(st) && InRange(sq)
    ensures IsSquareAttacked(st, sq, color) <==>
      exists t | 0 <= t < 64 :: Has(ColorBoard(st, color), t) && Has(MaskAttack(st, t), Norm(sq))
  {
    hide Has, MaskAttack, Attackers;
    NonZero(Attackers(st, sq, color));
    if exists t | 0 <= t < 64 :: Has(ColorBoard(st, color), t) && Has(MaskAttack(st, t), Norm(sq)) {
      var t :| 0 <= t < 64 && Has(ColorBoard(st, color), t) && Has(MaskAttack(st, t), Norm(sq));
      AttackersSquares(st, sq, color, t);
    }
    if Attackers(st, sq, color) != BB_EMPTY {
      var t :| 0 <= t && Has(Attackers(st, sq, color), t);
      AttackersSquares(st, sq, color, t);
    }
  }

  /** Whether some square of `sqs` is attacked by `color`, looking at them
      in order. */
  predicate AnyAttacked(st: State, sqs: seq<int>, color: Color)
    requires WF(st) && forall k | 0 <= k < |sqs| :: 0 <= sqs[k] < 64
  {
    sqs != [] && (IsSquareAttacked(st, sqs[0], color) || AnyAttacked(st, sqs[1..], color))
  }

  /** `is_bitboard_attacked(bb, color)`: some square of `bb`, scanned from
      the highest, is attacked by `color`. */
  predicate IsBitboardAttacked(st: State, bb: Bitboard, color: Color)
    requires WF(st)
  {
    AnyAttacked(st, Squares(bb), color)
  }

  lemma {:induction false} AnyAttackedMeans(st: State, sqs: seq<int>, color: Color)
    requires WF(st) && forall k | 0 <= k < |sqs| :: 0 <= sqs[k] < 64
    ensures AnyAttacked(st, sqs, color) <==> exists t | t in sqs :: IsSquareAttacked(st, t, color)
    decreases |sqs|
  {
    hide IsSquareAttacked;
    if sqs != [] {
      AnyAttackedMeans(st, sqs[1..], color);
      assert sqs == [sqs[0]] + sqs[1..];
    }
  }

  /** `is_bitboard_attacked(bb, color)` holds exactly when some square of
      `bb` is attacked by `color`. */
  lemma BitboardAttackedMeans(st: State, bb: Bitboard, color: Color)
    requires WF(st)
    ensures IsBitboardAttacked(st, bb, color) <==>
      exists t | 0 <= t < 64 :: Has(bb, t) && IsSquareAttacked(st, t, color)
  {
    hide IsSquareAttacked;
    AnyAttackedMeans(st, Squares(bb), color);
  }

  // ---- get_blockers ----

  /** One enemy piece's step of the sniper loop: for each slide it has, the
      squares of its board on that empty-board line through `sq`. */
  function AddSniper(st: State, acc: Bitboard, p: Piece, sq: int): Bitboard
    requires WF(st) && 0 <= sq < 64 && Known(st, p)
  {
    var board := st.game.entries[p.Name()];
    var h := if p.HorizontalSlide() then Or(acc, And(RankAttacks(sq, BB_EMPTY), board)) else acc;
    var v := if p.VerticalSlide() then Or(h, And(FileAttacks(sq, BB_EMPTY), board)) else h;
    if p.DiagonalSlide() then Or(v, And(DiagonalAttacks(sq, BB_EMPTY), board)) else v
  }

  function SnipersOver(st: State, ps: seq<Piece>, sq: int): Bitboard
    requires WF(st) && 0 <= sq < 64 && AllKnown(st, ps)
  {
    if ps == [] then BB_EMPTY
    else AddSniper(st, SnipersOver(st, ps[..|ps| - 1], sq), ps[|ps| - 1], sq)
  }

  /** The snipers of `get_blockers(sq, color)`: enemy pieces on a line
      through `sq` along which they slide, whatever stands between. */
  function Snipers(st: State, sq: int, color: Color): Bitboard
    requires WF(st) && 0 <= sq < 64
  {
    And(SnipersOver(st, st.SetOf(!color), sq), ColorBoard(st, !color))
  }

  /** The occupied squares strictly between a sniper and `sq`. */
  function Screen(st: State, s: int, sq: int): Bitboard
    requires WF(st) && 0 <= s < 64 && 0 <= sq < 64
  {
    And(Between(s, sq), st.game.entries["All"])
  }

  function BlockersOver(st: State, snipers: seq<int>, sq: int): Bitboard
    requires WF(st) && 0 <= sq < 64 && forall k | 0 <= k < |snipers| :: 0 <= snipers[k] < 64
  {
    if snipers == [] then BB_EMPTY
    else
      var acc := BlockersOver(st, snipers[..|snipers| - 1], sq);
      var screen := Screen(st, snipers[|snipers| - 1], sq);
      if IsOneBitOn(screen) then Or(acc, screen) else acc
  }

  /** `get_blockers(sq, color)`: the pieces of `color` that stand alone
      between `sq` and a sniper. */
  function Blockers(st: State, sq: int, color: Color): Bitboard
    requires WF(st) && 0 <= sq < 64
  {
    And(BlockersOver(st, Squares(Snipers(st, sq, color)), sq), ColorBoard(st, color))
  }

  /** `is_one_bit_on` of a non-empty board: its lowest set bit is its
      only one. */
  lemma SoleBit(b: Bitboard)
    requires IsBitboard(b) && b != 0
    ensures IsOneBitOn(b) ==> forall u | 0 <= u && Has(b, u) :: u == Lsb(b)
    ensures (forall u | 0 <= u && Has(b, u) :: u == Lsb(b)) ==> IsOneBitOn(b)
  {
    LsbLowest(b);
    MsbHighest(b);
    if IsOneBitOn(b) {
      forall u | 0 <= u && Has(b, u)
        ensures u == Lsb(b)
      {
        assert !(u < Lsb(b)) && !(Msb(b) < u);
      }
    } else {
      var m := Msb(b);
      assert 0 <= m && Has(b, m) && m != Lsb(b);
      assert !(forall u | 0 <= u && Has(b, u) :: u == Lsb(b));
    }
  }

  /** The screen between a sniper and `sq` is a 64-bit board. */
  lemma ScreenIsBitboard(st: State, s: int, sq: int)
    requires WF(st) && 0 <= s < 64 && 0 <= sq < 64
    ensures IsBitboard(Screen(st, s, sq))
  {
    hide Between;
    AndRange(Between(s, sq), st.game.entries["All"]);
  }

  /** `t` is the only occupied square strictly between `s` and `sq`. */
  ghost predicate Alone(st: State, s: int, sq: int, t: int)
    requires WF(st) && 0 <= s < 64 && 0 <= sq < 64 && 0 <= t
  {
    OnlyBit(Screen(st, s, sq), t)
  }

  /** `t` is the one set bit of `b`. */
  ghost predicate OnlyBit(b: Bitboard, t: int)
    requires 0 <= t
  {
    Has(b, t) && forall u | 0 <= u && Has(b, u) :: u == t
  }

  /** Having one set bit, and that bit `t`, is what the `is_one_bit_on` test
      finds. */
  lemma OnlyBitMeans(b: Bitboard, t: int)
    requires IsBitboard(b) && 0 <= t
    ensures OnlyBit(b, t) ==> IsOneBitOn(b) && Has(b, t)
    ensures IsOneBitOn(b) && Has(b, t) ==> OnlyBit(b, t)
  {
    if b == 0 {
      HasZero(t);
    } else {
      SoleBit(b);
      LsbLowest(b);
    }
  }

  /** Standing alone between is what the `is_one_bit_on` test finds. */
  lemma AloneMeans(st: State, s: int, sq: int, t: int)
    requires WF(st) && 0 <= s < 64 && 0 <= sq < 64 && 0 <= t
    ensures Alone(st, s, sq, t) <==> IsOneBitOn(Screen(st, s, sq)) && Has(Screen(st, s, sq), t)
  {
    ScreenIsBitboard(st, s, sq);
    OnlyBitMeans(Screen(st, s, sq), t);
  }

  lemma {:induction false} BlockersOverSquares(st: State, snipers: seq<int>, sq: int, t: int)
    requires WF(st) && 0 <= sq < 64 && (forall k | 0 <= k < |snipers| :: 0 <= snipers[k] < 64) && 0 <= t
    ensures Has(BlockersOver(st, snipers, sq), t) <==> exists s | s in snipers :: Alone(st, s, sq, t)
    decreases |snipers|
  {
    hide Has, Or, Screen, IsOneBitOn, Alone, WF;
    if snipers == [] {
      HasZero(t);
    } else {
      var n := |snipers| - 1;
      var s := snipers[n];
      var pre := snipers[..n];
      BlockersOverSquares(st, pre, sq, t);
      var screen := Screen(st, s, sq);
      ScreenIsBitboard(st, s, sq);
      HasOr(BlockersOver(st, pre, sq), screen, t);
      AloneMeans(st, s, sq, t);
      assert snipers == pre + [s];
    }
  }

  /** `get_blockers(sq, color)` square by square: the squares of `color`
      that stand alone between `sq` and a sniper. */
  lemma BlockersSquares(st: State, sq: int, color: Color, t: int)
    requires WF(st) && 0 <= sq < 64 && 0 <= t
    ensures Has(Blockers(st, sq, color), t) <==>
      Has(ColorBoard(st, color), t)
      && exists s | 0 <= s < 64 && Has(Snipers(st, sq, color), s) :: Alone(st, s, sq, t)
  {
    hide Has, Alone, Snipers, BlockersOver, WF;
    var sn := Squares(Snipers(st, sq, color));
    HasAnd(BlockersOver(st, sn, sq), ColorBoard(st, color), t);
    BlockersOverSquares(st, sn, sq, t);
  }

  /** A piece of the enemy set on one of the empty-board lines through `sq`
      along which it slides. */
  predicate SniperHit(st: State, p: Piece, sq: int, s: int)
    requires WF(st) && 0 <= sq < 64 && Known(st, p) && 0 <= s
  {
    Has(st.game.entries[p.Name()], s)
    && ((p.HorizontalSlide() && Has(RankAttacks(sq, BB_EMPTY), s))
        || (p.VerticalSlide() && Has(FileAttacks(sq, BB_EMPTY), s))
        || (p.DiagonalSlide() && Has(DiagonalAttacks(sq, BB_EMPTY), s)))
  }

  lemma AddSniperSquares(st: State, acc: Bitboard, p: Piece, sq: int, s: int)
    requires WF(st) && 0 <= sq < 64 && Known(st, p) && 0 <= s
    ensures Has(AddSniper(st, acc, p, sq), s) <==> Has(acc, s) || SniperHit(st, p, sq, s)
  {
    hide Has, Or, And, RankAttacks, FileAttacks, DiagonalAttacks;
    var board := st.game.entries[p.Name()];
    var h := if p.HorizontalSlide() then Or(acc, And(RankAttacks(sq, BB_EMPTY), board)) else acc;
    var v := if p.VerticalSlide() then Or(h, And(FileAttacks(sq, BB_EMPTY), board)) else h;
    HasOr(acc, And(RankAttacks(sq, BB_EMPTY), board), s);
    HasAnd(RankAttacks(sq, BB_EMPTY), board, s);
    HasOr(h, And(FileAttacks(sq, BB_EMPTY), board), s);
    HasAnd(FileAttacks(sq, BB_EMPTY), board, s);
    HasOr(v, And(DiagonalAttacks(sq, BB_EMPTY), board), s);
    HasAnd(DiagonalAttacks(sq, BB_EMPTY), board, s);
  }

  lemma {:induction false} SnipersOverSquares(st: State, ps: seq<Piece>, sq: int, s: int)
    requires WF(st) && 0 <= sq < 64 && AllKnown(st, ps) && 0 <= s
    ensures Has(SnipersOver(st, ps, sq), s) <==> exists i | 0 <= i < |ps| :: SniperHit(st, ps[i], sq, s)
    decreases |ps|
  {
    hide Has, AddSniper, SniperHit, WF, Known, AttacksOf, Describe, Piece.Name;
    if ps == [] {
      HasZero(s);
    } else {
      var n := |ps| - 1;
      var pre := ps[..n];
      assert AllKnown(st, pre) by {
        forall k | 0 <= k < n
          ensures Known(st, pre[k])
        {
          assert pre[k] == ps[k];
        }
      }
      SnipersOverSquares(st, pre, sq, s);
      AddSniperSquares(st, SnipersOver(st, pre, sq), ps[n], sq, s);
      if exists i | 0 <= i < n :: SniperHit(st, pre[i], sq, s) {
        var i :| 0 <= i < n && SniperHit(st, pre[i], sq, s);
        assert ps[i] == pre[i];
      }
      if exists i | 0 <= i < |ps| :: SniperHit(st, ps[i], sq, s) {
        var i :| 0 <= i < |ps| && SniperHit(st, ps[i], sq, s);
        if i < n {
          assert pre[i] == ps[i];
        }
      }
    }
  }

  /** The piece set of the side other than `color`. */
  function Opponents(st: State, color: Color): seq<Piece> {
    st.SetOf(!color)
  }

  /** The snipers of `get_blockers(sq, color)`, square by square: squares of
      the other colour holding a piece of the other side's set that slides
      along an empty-board line from there to `sq`. */
  lemma SnipersSquares(st: State, sq: int, color: Color, s: int)
    requires WF(st) && 0 <= sq < 64 && 0 <= s
    ensures Has(Snipers(st, sq, color), s) <==>
      Has(ColorBoard(st, !color), s)
      && exists i | 0 <= i < |Opponents(st, color)| :: SniperHit(st, Opponents(st, color)[i], sq, s)
  {
    hide Has, SnipersOver, SniperHit, Known, AttacksOf, Describe, Piece.Name;
    assert Opponents(st, color) == st.SetOf(!color);
    HasAnd(SnipersOver(st, st.SetOf(!color), sq), ColorBoard(st, !color), s);
    SnipersOverSquares(st, st.SetOf(!color), sq, s);
  }

  // ---- get_attacked_squares_by_sliders ----

  /** A piece that slides in some direction. */
  predicate Slides(p: Piece) {
    p.HorizontalSlide() || p.VerticalSlide() || p.DiagonalSlide()
  }

  /** The boards of the pieces of `ps` that slide, ORed in order. */
  function SlidersOver(st: State, ps: seq<Piece>): Bitboard
    requires WF(st) && AllKnown(st, ps)
  {
    if ps == [] then BB_EMPTY
    else
      var p := ps[|ps| - 1];
      var acc := SlidersOver(st, ps[..|ps| - 1]);
      if Slides(p) then Or(acc, st.game.entries[p.Name()]) else acc
  }

  /** The sliders' boards ORed together form a 64-bit board. */
  lemma {:induction false} SlidersOverIsBitboard(st: State, ps: seq<Piece>)
    requires WF(st) && AllKnown(st, ps)
    ensures IsBitboard(SlidersOver(st, ps))
    decreases |ps|
  {
    hide Or, Describe, AttacksOf, Slides, Piece.Name, Pow2;
    Pow64();
    if ps != [] {
      var n := |ps| - 1;
      assert AllKnown(st, ps[..n]) by {
        forall k | 0 <= k < n
          ensures Known(st, ps[..n][k])
        {
          assert ps[..n][k] == ps[k];
        }
      }
      SlidersOverIsBitboard(st, ps[..n]);
      assert Known(st, ps[n]);
      var board := st.game.entries[ps[n].Name()];
      assert IsBitboard(board);
      OrBelow(SlidersOver(st, ps[..n]), board, 64);
    }
  }

  /** The empty squares of the lines through each square of `froms` and
      the king, ORed in order. */
  function RaysOver(st: State, froms: seq<int>, king: int): Bitboard
    requires WF(st) && 0 <= king < 64 && forall k | 0 <= k < |froms| :: 0 <= froms[k] < 64
  {
    if froms == [] then BB_EMPTY
    else
      var a := froms[|froms| - 1];
      Or(RaysOver(st, froms[..|froms| - 1], king), And(RayEntry(a, king), Not(st.game.entries["All"])))
  }

  /** `get_attacked_squares_by_sliders(king_sq, attackers)`: the empty
      squares on the whole line through the king and each attacker that
      stands on the board of an enemy sliding piece. */
  function AttackedBySliders(st: State, king: int, attackers: Bitboard): Bitboard
    requires WF(st) && 0 <= king < 64
  {
    RaysOver(st, Squares(And(attackers, SlidersOver(st, Opponents(st, st.turn)))), king)
  }

  /** Some sliding piece of `ps` has `a` on its board. */
  predicate SliderOn(st: State, ps: seq<Piece>, a: int)
    requires WF(st) && AllKnown(st, ps) && 0 <= a
  {
    exists i | 0 <= i < |ps| :: Slides(ps[i]) && Has(st.game.entries[ps[i].Name()], a)
  }

  lemma {:induction false} SlidersOverSquares(st: State, ps: seq<Piece>, a: int)
    requires WF(st) && AllKnown(st, ps) && 0 <= a
    ensures Has(SlidersOver(st, ps), a) <==> SliderOn(st, ps, a)
    decreases |ps|
  {
    hide Has, Or, Slides, WF, AttacksOf, Describe, Piece.Name;
    if ps == [] {
      HasZero(a);
    } else {
      var n := |ps| - 1;
      var p := ps[n];
      var pre := ps[..n];
      assert AllKnown(st, pre) by {
        forall k | 0 <= k < n
          ensures Known(st, pre[k])
        {
          assert pre[k] == ps[k];
        }
      }
      SlidersOverSquares(st, pre, a);
      HasOr(SlidersOver(st, pre), st.game.entries[p.Name()], a);
      if SliderOn(st, pre, a) {
        var i :| 0 <= i < n && Slides(pre[i]) && Has(st.game.entries[pre[i].Name()], a);
        assert ps[i] == pre[i];
      }
      if SliderOn(st, ps, a) {
        var i :| 0 <= i < |ps| && Slides(ps[i]) && Has(st.game.entries[ps[i].Name()], a);
        if i < n {
          assert pre[i] == ps[i];
        }
      }
    }
  }

  lemma {:induction false} RaysOverSquares(st: State, froms: seq<int>, king: int, t: int)
    requires WF(st) && 0 <= king < 64 && (forall k | 0 <= k < |froms| :: 0 <= froms[k] < 64) && 0 <= t
    ensures Has(RaysOver(st, froms, king), t) <==>
      !Has(st.game.entries["All"], t) && exists a | a in froms :: Has(RayEntry(a, king), t)
    decreases |froms|
  {
    hide Has, Or, And, Not, RayEntry;
    if froms == [] {
      HasZero(t);
    } else {
      var n := |froms| - 1;
      var a := froms[n];
      RaysOverSquares(st, froms[..n], king, t);
      HasOr(RaysOver(st, froms[..n], king), And(RayEntry(a, king), Not(st.game.entries["All"])), t);
      HasAnd(RayEntry(a, king), Not(st.game.entries["All"]), t);
      HasNot(st.game.entries["All"], t);
      assert froms == froms[..n] + [a];
    }
  }

  /** `get_attacked_squares_by_sliders(king_sq, attackers)` square by
      square: an empty square on the line through the king and an attacker
      standing on an enemy slider's board, on either side of the king. */
  lemma AttackedBySlidersSquares(st: State, king: int, attackers: Bitboard, t: int)
    requires WF(st) && 0 <= king < 64 && 0 <= t
    ensures Has(AttackedBySliders(st, king, attackers), t) <==>
      !Has(st.game.entries["All"], t)
      && exists a | 0 <= a < 64 && Has(attackers, a) && SliderOn(st, Opponents(st, st.turn), a) ::
           Aligned(a, king) && t < 64 && OnLine(a, king, t)
  {
    hide Has, RaysOver, SliderOn, RayEntry;
    var sl := SlidersOver(st, Opponents(st, st.turn));
    var froms := Squares(And(attackers, sl));
    RaysOverSquares(st, froms, king, t);
    if exists a | a in froms :: Has(RayEntry(a, king), t) {
      var a :| a in froms && Has(RayEntry(a, king), t);
      HasAnd(attackers, sl, a);
      SlidersOverSquares(st, Opponents(st, st.turn), a);
      RaySquares(a, king, t);
    }
    if exists a | 0 <= a < 64 && Has(attackers, a) && SliderOn(st, Opponents(st, st.turn), a) ::
         Aligned(a, king) && t < 64 && OnLine(a, king, t) {
      var a :| 0 <= a < 64 && Has(attackers, a) && SliderOn(st, Opponents(st, st.turn), a)
        && Aligned(a, king) && t < 64 && OnLine(a, king, t);
      HasAnd(attackers, sl, a);
      SlidersOverSquares(st, Opponents(st, st.turn), a);
      RaySquares(a, king, t);
      assert a in froms;
    }
  }

  // ---- is_ep_skewered ----

  /** `piece_set`: the pieces of both sets. */
  function PieceSet(st: State): seq<Piece> {
    st.whiteSet + st.blackSet
  }

  /** Every piece of both sets is known. */
  lemma PieceSetKnown(st: State)
    requires WF(st)
    ensures AllKnown(st, PieceSet(st))
  {
    hide Known;
    forall k | 0 <= k < |PieceSet(st)|
      ensures Known(st, PieceSet(st)[k])
    {
      if k < |st.whiteSet| {
        assert PieceSet(st)[k] == st.whiteSet[k];
      } else {
        assert PieceSet(st)[k] == st.blackSet[k - |st.whiteSet|];
      }
    }
  }

  /** The enemy-coloured squares of the boards of the horizontal sliders of
      `ps`, ORed in order. */
  function HorizontalOver(st: State, ps: seq<Piece>): Bitboard
    requires WF(st) && AllKnown(st, ps)
  {
    if ps == [] then BB_EMPTY
    else
      var p := ps[|ps| - 1];
      var acc := HorizontalOver(st, ps[..|ps| - 1]);
      if p.HorizontalSlide() then Or(acc, And(st.game.entries[p.Name()], ColorBoard(st, !st.turn))) else acc
  }

  /** The square of the pawn that just made a two-square move: one rank
      behind the highest square of the en-passant board, seen from the side
      to move. */
  function LastMoveSquare(st: State): int
    requires WF(st)
  {
    Msb(st.game.entries["En passant"]) + (if st.turn == WHITE then -8 else 8)
  }

  /** The occupancy with the pawn taken en passant and the capturing pawn
      lifted off the board. */
  function SkewerOccupancy(st: State, capturer: int): Bitboard
    requires WF(st) && InRange(capturer) && InRange(LastMoveSquare(st))
  {
    And(And(st.game.entries["All"], Not(SquareBB(LastMoveSquare(st)))), Not(SquareBB(capturer)))
  }

  /** `is_ep_skewered(king_sq, capturer)`: with both pawns gone, the rank
      attacks from the king reach an enemy-coloured square on the board of
      a horizontal slider of either set. */
  predicate EpSkewered(st: State, king: int, capturer: int)
    requires WF(st) && 0 <= king < 64 && InRange(capturer) && InRange(LastMoveSquare(st))
  {
    PieceSetKnown(st);
    And(RankAttacks(king, SkewerOccupancy(st, capturer)), HorizontalOver(st, PieceSet(st))) != BB_EMPTY
  }

  /** Some horizontal slider of `ps` has `t` on its board. */
  predicate HorizontalOn(st: State, ps: seq<Piece>, t: int)
    requires 0 <= t
  {
    exists i | 0 <= i < |ps| ::
      ps[i].HorizontalSlide() && ps[i].Name() in st.game.entries && Has(st.game.entries[ps[i].Name()], t)
  }

  lemma {:induction false} HorizontalOverSquares(st: State, ps: seq<Piece>, t: int)
    requires WF(st) && AllKnown(st, ps) && 0 <= t
    ensures Has(HorizontalOver(st, ps), t) <==> Has(ColorBoard(st, !st.turn), t) && HorizontalOn(st, ps, t)
    decreases |ps|
  {
    hide Has, Or, And, WF, AttacksOf, Describe, Piece.Name, Piece.HorizontalSlide;
    if ps == [] {
      HasZero(t);
    } else {
      var n := |ps| - 1;
      var p := ps[n];
      var pre := ps[..n];
      assert AllKnown(st, pre) by {
        forall k | 0 <= k < n
          ensures Known(st, pre[k])
        {
          assert pre[k] == ps[k];
        }
      }
      HorizontalOverSquares(st, pre, t);
      HasOr(HorizontalOver(st, pre), And(st.game.entries[p.Name()], ColorBoard(st, !st.turn)), t);
      HasAnd(st.game.entries[p.Name()], ColorBoard(st, !st.turn), t);
      if HorizontalOn(st, pre, t) {
        var i :| 0 <= i < n && pre[i].HorizontalSlide() && Has(st.game.entries[pre[i].Name()], t);
        assert ps[i] == pre[i];
      }
      if HorizontalOn(st, ps, t) {
        var i :| 0 <= i < |ps| && ps[i].HorizontalSlide() && Has(st.game.entries[ps[i].Name()], t);
        if i < n {
          assert pre[i] == ps[i];
        }
      }
    }
  }

  /** The lifted occupancy, square by square: occupied, and neither the
      taken pawn's square nor the capturer's. */
  lemma SkewerOccupancySquares(st: State, capturer: int, t: int)
    requires WF(st) && InRange(capturer) && InRange(LastMoveSquare(st)) && 0 <= t
    ensures Has(SkewerOccupancy(st, capturer), t) <==>
      Has(st.game.entries["All"], t) && t != Norm(LastMoveSquare(st)) && t != Norm(capturer)
  {
    hide Has, And, Not, SquareBB, LastMoveSquare;
    var last := LastMoveSquare(st);
    var all := st.game.entries["All"];
    HasAnd(And(all, Not(SquareBB(last))), Not(SquareBB(capturer)), t);
    HasAnd(all, Not(SquareBB(last)), t);
    HasNot(SquareBB(last), t);
    HasNot(SquareBB(capturer), t);
    HasSquareBB(last, t);
    HasSquareBB(capturer, t);
  }

  /** `is_ep_skewered` holds exactly when, with both pawns lifted, the rank
      attacks from the king reach an enemy-coloured square holding a
      horizontal slider of either set. */
  lemma EpSkeweredMeans(st: State, king: int, capturer: int)
    requires WF(st) && 0 <= king < 64 && InRange(capturer) && InRange(LastMoveSquare(st))
    ensures EpSkewered(st, king, capturer) <==>
      exists t | 0 <= t < 64 ::
        Has(RankAttacks(king, SkewerOccupancy(st, capturer)), t) && Has(ColorBoard(st, !st.turn), t)
        && HorizontalOn(st, PieceSet(st), t)
  {
    hide Has, RankAttacks, SkewerOccupancy, HorizontalOver, HorizontalOn, WF;
    PieceSetKnown(st);
    var r := RankAttacks(king, SkewerOccupancy(st, capturer));
    var h := HorizontalOver(st, PieceSet(st));
    NonZero(And(r, h));
    if And(r, h) != 0 {
      var t :| 0 <= t && Has(And(r, h), t);
      HasAnd(r, h, t);
      HorizontalOverSquares(st, PieceSet(st), t);
      AttacksInBoard(king, SkewerOccupancy(st, capturer), t);
    }
    if exists t | 0 <= t < 64 ::
        Has(r, t) && Has(ColorBoard(st, !st.turn), t) && HorizontalOn(st, PieceSet(st), t) {
      var t :| 0 <= t < 64 && Has(r, t) && Has(ColorBoard(st, !st.turn), t) && HorizontalOn(st, PieceSet(st), t);
      HasAnd(r, h, t);
      HorizontalOverSquares(st, PieceSet(st), t);
    }
  }

  /** The rank attacks from a square stay on the board. */
  lemma AttacksInBoard(sq: int, occupied: Bitboard, t: int)
    requires 0 <= sq < 64 && 0 <= t && Has(RankAttacks(sq, occupied), t)
    ensures t < 64
  {
    hide Has, SlidingAttacks;
    SliderLists();
    SlidingIsBitboard(sq, occupied, RANK_DELTAS);
    Pow64();
    if t >= 64 {
      HasBelow(SlidingAttacks(sq, occupied, RANK_DELTAS), 64, t);
    }
  }

  // ---- is_safe ----

  /** `is_the_move_a_en_passant`: the move lands on the en-passant board
      and starts on the pawn board. */
  predicate IsEnPassantMove(st: State, m: Move)
    requires WF(st) && InRange(m.fromSq) && InRange(m.toSq)
  {
    And(st.game.entries["En passant"], SquareBB(m.toSq)) != BB_EMPTY
    && And(SquareBB(m.fromSq), st.game.entries["Pawn"]) != BB_EMPTY
  }

  /** What `is_safe` needs of a move: squares `BB_SQUARES` accepts, and for
      an en-passant capture a square of the taken pawn it accepts too. */
  predicate Checkable(st: State, m: Move)
    requires WF(st)
  {
    InRange(m.fromSq) && InRange(m.toSq) && (IsEnPassantMove(st, m) ==> InRange(LastMoveSquare(st)))
  }

  /** `is_safe(king_sq, move, blockers)`: a king move is safe when it is a
      castling move or its destination is not attacked; an en-passant
      capture when its pawn is no blocker and the capture does not skewer
      the king; any other move when its piece is no blocker or the king is
      on the line through its two squares. */
  predicate Safe(st: State, king: int, m: Move, blockers: Bitboard)
    requires WF(st) && 0 <= king < 64 && Checkable(st, m)
  {
    if m.fromSq == king then IsMoveCastling(st.game, m) || !IsSquareAttacked(st, m.toSq, !st.turn)
    else if IsEnPassantMove(st, m) then
      And(blockers, SquareBB(m.fromSq)) == BB_EMPTY && !EpSkewered(st, king, m.fromSq)
    else
      And(blockers, SquareBB(m.fromSq)) == BB_EMPTY
      || And(RayEntry(Norm(m.fromSq), Norm(m.toSq)), SquareBB(king)) != BB_EMPTY
  }

  /** `is_safe` square by square: a pinned piece (one on the blocker board)
      may move only along the line through its two squares when the king
      is on it; an en-passant capture by a pinned pawn is never safe; a
      king move other than castling is safe when no enemy square attacks
      its destination. */
  lemma SafeMeans(st: State, king: int, m: Move, blockers: Bitboard)
    requires WF(st) && 0 <= king < 64 && Checkable(st, m)
    ensures m.fromSq == king ==>
      (Safe(st, king, m, blockers) <==>
        IsMoveCastling(st.game, m)
        || !exists t | 0 <= t < 64 :: Has(ColorBoard(st, !st.turn), t) && Has(MaskAttack(st, t), Norm(m.toSq)))
    ensures m.fromSq != king && IsEnPassantMove(st, m) ==>
      (Safe(st, king, m, blockers) <==> !Has(blockers, Norm(m.fromSq)) && !EpSkewered(st, king, m.fromSq))
    ensures m.fromSq != king && !IsEnPassantMove(st, m) ==>
      (Safe(st, king, m, blockers) <==>
        !Has(blockers, Norm(m.fromSq))
        || (Aligned(Norm(m.fromSq), Norm(m.toSq)) && OnLine(Norm(m.fromSq), Norm(m.toSq), king)))
  {
    hide Has, IsSquareAttacked, EpSkewered, IsMoveCastling, IsEnPassantMove, RayEntry, MaskAttack, WF;
    AndSquare(blockers, m.fromSq);
    AndSquare(RayEntry(Norm(m.fromSq), Norm(m.toSq)), king);
    RaySquares(Norm(m.fromSq), Norm(m.toSq), king);
    SquareAttackedMeans(st, m.toSq, !st.turn);
  }
}
