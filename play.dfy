/** What `ChessDeck.push` does to the board dictionary, step by step, as
    functions of the dictionary, the move and the side to move: clear the
    en-passant board, apply the move, move the castling rook, set the
    en-passant square after a two-square pawn move, remove the pawn taken
    en passant, promote, and update the castling rights.  A step that would
    raise (an index outside `BB_SQUARES`, a missing key) makes the whole push
    `None`. */
module Play {
  import opened Bits
  import opened Wrappers
  import opened Computer
  import opened Pieces
  import opened Dicts
  import opened Boards
  import opened Moves
  import opened Bitboards

  /** An index `BB_SQUARES` accepts. */
  predicate InRange(sq: int) {
    -64 <= sq < 64
  }

  /** `clear_en_passant`. */
  function ClearEnPassant(g: Dict): (r: Dict)
    ensures r.entries.Keys == g.entries.Keys + {"En passant"}
  {
    g.Put("En passant", BB_EMPTY)
  }

  /** Clearing the en-passant board keeps the boards and leaves the key. */
  lemma ClearValid(g: Dict)
    requires HasBoards(g)
    ensures HasBoards(ClearEnPassant(g)) && "En passant" in ClearEnPassant(g).entries
  {
    PutValid(g, "En passant", BB_EMPTY);
  }

  /** `apply_move`: remove what stands on the origin and set its key, in the
      colour of the side to move, on the destination. */
  function ApplyMove(g: Dict, m: Move, turn: Color): (r: Option<Dict>)
    requires HasBoards(g)
    ensures r.Some? ==> InRange(m.fromSq) && InRange(m.toSq)
    ensures r.Some? ==> r.value.keys == g.keys && r.value.entries.Keys == g.entries.Keys
    ensures r.Some? ==> HasBoards(r.value)
  {
    hide TypeAt, FirstHolder, Has, SquareBB, Or, Xor, Dict.Valid;
    if !InRange(m.fromSq) || !InRange(m.toSq) then None
    else
      SameKeysBoards(g, RemovePieceAt(g, m.fromSq).0);
      var (g1, key) := RemovePieceAt(g, m.fromSq);
      if key !in g1.entries then None
      else
        SameKeysBoards(g1, SetPieceAt(g1, m.toSq, key, turn));
        Some(SetPieceAt(g1, m.toSq, key, turn))
  }

  /** A dictionary with the keys of one holding the aggregate boards holds
      them too. */
  lemma SameKeysBoards(g: Dict, g': Dict)
    requires HasBoards(g) && g'.keys == g.keys && g'.entries.Keys == g.entries.Keys
    ensures HasBoards(g')
  {
  }

  /** `is_move_castling`: a king now stands on the destination, two squares
      from the origin. */
  predicate IsMoveCastling(g: Dict, m: Move)
    requires g.Valid() && InRange(m.toSq)
  {
    TypeAt(g, m.toSq) == Some("King") && Distance(m.fromSq, m.toSq) == 2
  }

  /** `can_be_en_passanted`: a pawn now stands on the destination, two squares
      from the origin. */
  predicate CanBeEnPassanted(g: Dict, m: Move)
    requires g.Valid() && InRange(m.toSq)
  {
    TypeAt(g, m.toSq) == Some("Pawn") && Distance(m.fromSq, m.toSq) == 2
  }

  /** `has_been_an_en_passant_capture`: a pawn now stands on the destination
      and the move changed file. */
  predicate HasBeenEnPassantCapture(g: Dict, m: Move)
    requires g.Valid() && InRange(m.toSq)
  {
    TypeAt(g, m.toSq) == Some("Pawn") && !m.IsGoingStraight()
  }

  /** The square behind the destination, seen from the side to move. */
  function BehindTarget(m: Move, turn: Color): int {
    if turn == WHITE then m.toSq - 8 else m.toSq + 8
  }

  /** `set_en_passant`. */
  function SetEnPassant(g: Dict, m: Move, turn: Color): (r: Dict)
    requires "En passant" in g.entries && InRange(BehindTarget(m, turn))
    ensures r.keys == g.keys && r.entries.Keys == g.entries.Keys
  {
    g.Put("En passant", Or(g.entries["En passant"], SquareBB(BehindTarget(m, turn))))
  }

  /** The back rank of a side. */
  function BackRank(turn: Color): Bitboard {
    if turn == WHITE then BB_RANK_1 else BB_RANK_8
  }

  /** `update_castling_rights`: a king on the destination clears the side's
      back rank from the rights; otherwise a move from a square with a right
      drops that right. */
  function UpdateCastlingRights(g: Dict, m: Move, turn: Color): (r: Dict)
    requires g.Valid() && "Castling" in g.entries && InRange(m.fromSq) && InRange(m.toSq)
    ensures r.keys == g.keys && r.entries.Keys == g.entries.Keys
    ensures forall k | k in g.entries && k != "Castling" :: r.entries[k] == g.entries[k]
  {
    var rights := g.entries["Castling"];
    if TypeAt(g, m.toSq) == Some("King") then g.Put("Castling", And(rights, Not(BackRank(turn))))
    else if And(SquareBB(m.fromSq), rights) != BB_EMPTY then g.Put("Castling", Xor(rights, SquareBB(m.fromSq)))
    else g
  }

  /** `get_additional_castling_move`: the highest square of the back rank on
      file h to the square left of the destination when going right, else
      the highest square of the back rank on file a to the square right of
      it. */
  function AdditionalCastlingMove(m: Move, turn: Color): Move {
    if m.IsGoingRight() then Move(Msb(And(BackRank(turn), BB_FILE_H)), m.toSq - 1, None)
    else Move(Msb(And(BackRank(turn), BB_FILE_A)), m.toSq + 1, None)
  }

  /** The first steps of `push`: clear the en-passant board, apply the move,
      and apply the rook move when it castled. */
  function AfterMoves(g: Dict, m: Move, turn: Color): (r: Option<Dict>)
    requires HasBoards(g)
    ensures r.Some? ==> InRange(m.fromSq) && InRange(m.toSq)
    ensures r.Some? ==> HasBoards(r.value) && "En passant" in r.value.entries
  {
    hide TypeAt, FirstHolder, Has, SquareBB, Or, Xor, And, Msb, RemovePieceAt, SetPieceAt, ApplyMove, Dict.Put, CastlingStep, Dict.Valid, ClearEnPassant;
    var g1 := ClearEnPassant(g);
    ClearValid(g);
    match ApplyMove(g1, m, turn)
    case None => None
    case Some(g2) => CastlingStep(g2, m, turn)
  }

  /** The rook move of `push`, when the move castled. */
  function CastlingStep(g2: Dict, m: Move, turn: Color): (r: Option<Dict>)
    requires HasBoards(g2) && InRange(m.toSq)
    ensures r.Some? ==> r.value.entries.Keys == g2.entries.Keys && HasBoards(r.value)
  {
    hide TypeAt, FirstHolder, Has, SquareBB, Or, Xor, And, Msb, RemovePieceAt, SetPieceAt, ApplyMove, IsMoveCastling, AdditionalCastlingMove, Distance;
    if IsMoveCastling(g2, m) then ApplyMove(g2, AdditionalCastlingMove(m, turn), turn) else Some(g2)
  }

  /** `has_been_an_en_passant_capture` followed by `remove_piece_at` on the
      square behind the destination, when `taken`. */
  function CaptureStep(g4: Dict, m: Move, turn: Color, taken: bool): (r: Option<Dict>)
    requires HasBoards(g4)
    ensures r.Some? ==> r.value.keys == g4.keys && r.value.entries.Keys == g4.entries.Keys
  {
    var ep := BehindTarget(m, turn);
    if !taken then Some(g4)
    else if !InRange(ep) then None
    else Some(RemovePieceAt(g4, ep).0)
  }

  /** The rest of `push` after the moves: the en-passant square, the
      en-passant removal, the promotion and the castling rights.  The
      removal happens for a pawn that changed file, and only when `gate`
      holds; as written the gate is always open. */
  function FinishWith(g3: Dict, m: Move, turn: Color, gate: bool): (r: Option<Dict>)
    requires HasBoards(g3) && "En passant" in g3.entries && InRange(m.fromSq) && InRange(m.toSq)
    ensures r.Some? ==> r.value.keys == g3.keys && r.value.entries.Keys == g3.entries.Keys
  {
    hide TypeAt, FirstHolder, Has, SquareBB, Or, Xor, And, Dict.Valid, RemovePieceAt, SetPieceAt, CaptureStep;
    var ep := BehindTarget(m, turn);
    if CanBeEnPassanted(g3, m) && !InRange(ep) then None
    else
      var g4 := if CanBeEnPassanted(g3, m) then SetEnPassant(g3, m, turn) else g3;
      SameKeysBoards(g3, g4);
      match CaptureStep(g4, m, turn, gate && HasBeenEnPassantCapture(g4, m))
      case None => None
      case Some(g5) =>
        SameKeysBoards(g4, g5);
        if m.IsPromotion() && m.promotion.value.Name() !in g5.entries then None
        else
          var g6 := if m.IsPromotion() then SetPieceAt(g5, m.toSq, m.promotion.value.Name(), turn) else g5;
          SameKeysBoards(g5, g6);
          if "Castling" !in g6.entries then None
          else Some(UpdateCastlingRights(g6, m, turn))
  }

  /** `push`, on the board dictionary, as written. */
  function PushSpec(g: Dict, m: Move, turn: Color): (r: Option<Dict>)
    requires HasBoards(g)
    ensures r.Some? ==> HasBoards(r.value) && "En passant" in r.value.entries
  {
    hide FinishWith, ApplyMove, Dict.Valid;
    match AfterMoves(g, m, turn)
    case None => None
    case Some(g3) =>
      match FinishWith(g3, m, turn, true)
      case None => None
      case Some(g7) => SameKeysBoards(g3, g7); Some(g7)
  }

  /** The en-passant board a dictionary had before `push` cleared it. */
  function PreviousEnPassant(g: Dict): Bitboard {
    if "En passant" in g.entries then g.entries["En passant"] else BB_EMPTY
  }

  /** `push` with the en-passant removal limited to a pawn landing on the
      en-passant square the position had before the move. */
  function PushIntended(g: Dict, m: Move, turn: Color): Option<Dict>
    requires HasBoards(g)
  {
    hide FinishWith, ApplyMove, Dict.Valid;
    match AfterMoves(g, m, turn)
    case None => None
    case Some(g3) => FinishWith(g3, m, turn, Has(PreviousEnPassant(g), Norm(m.toSq)))
  }

  // ---- properties ----

  /** Every piece is stored under a piece-type key. */
  lemma PieceNamesArePieceKeys(k: Kind)
    ensures PieceKey(Describe(k).name)
  {
    match k {
      case Base =>
      case King =>
      case Pawn =>
      case Bishop =>
      case Knight =>
      case Rook =>
      case Queen =>
      case Archbishop =>
      case Chancellor =>
      case Ghost =>
      case Wall =>
    }
  }

  /** Clearing the en-passant board keeps a consistent game consistent and
      leaves the board empty. */
  lemma ClearKeepsConsistent(g: Dict)
    requires Consistent(g)
    ensures Consistent(ClearEnPassant(g)) && ClearEnPassant(g).entries["En passant"] == BB_EMPTY
  {
    hide Has, FirstHolder, Column, ColumnOK;
    var g' := ClearEnPassant(g);
    PutValid(g, "En passant", BB_EMPTY);
    forall t | 0 <= t < 64
      ensures ColumnOK(Column(g', t))
    {
      ColumnPut(g, "En passant", BB_EMPTY, t);
      HasZero(t);
      ClearedColumn(Column(g, t), "En passant");
    }
  }

  /** Clearing a board that is neither an aggregate nor a piece type keeps a
      column consistent. */
  lemma ClearedColumn(col: map<string, bool>, k: string)
    requires ColumnOK(col) && EnPassantKey(k)
    ensures ColumnOK(col[k := false])
  {
    var col' := col[k := false];
    if col'["All"] {
      var a :| a in col && PieceKey(a) && col[a];
      assert a in col' && PieceKey(a) && col'[a];
    }
  }

  /** `apply_move` of a piece onto an empty square or one holding a piece
      type: the game stays consistent, the destination holds the moved piece
      type in the mover's colour, the origin is empty, and every other square
      reads as before. */
  lemma ApplyMoveEffect(g: Dict, m: Move, turn: Color)
    requires Consistent(g) && InRange(m.fromSq) && InRange(m.toSq) && Norm(m.fromSq) != Norm(m.toSq)
    requires TypeAt(g, m.fromSq).Some? && PieceKey(TypeAt(g, m.fromSq).value)
    requires TypeAt(g, m.toSq).None? || PieceKey(TypeAt(g, m.toSq).value)
    ensures ApplyMove(g, m, turn).Some?
    ensures var g' := ApplyMove(g, m, turn).value;
      Consistent(g')
      && TypeAt(g', m.toSq) == TypeAt(g, m.fromSq) && ColorAt(g', m.toSq) == Some(turn)
      && EmptyColumn(Column(g', Norm(m.fromSq)))
      && forall t | 0 <= t < 64 && t != Norm(m.fromSq) && t != Norm(m.toSq) :: Column(g', t) == Column(g, t)
  {
    hide Has, Or, Xor, SquareBB, FirstHolder, Dict.Valid, Column, ColumnOK, RemovePieceAt, SetPieceAt, TypeAt, ColorAt;
    var (g1, key) := RemovePieceAt(g, m.fromSq);
    RemoveKeepsConsistent(g, m.fromSq);
    AwayFromSquare(g, m.fromSq, key, turn, Norm(m.toSq));
    TypeAtByColumn(g, g1, m.toSq);
    SetKeepsConsistent(g1, m.toSq, key, turn);
    var g' := SetPieceAt(g1, m.toSq, key, turn);
    assert ApplyMove(g, m, turn) == Some(g');
    AwayFromSquare(g1, m.toSq, key, turn, Norm(m.fromSq));
    forall t | 0 <= t < 64 && t != Norm(m.fromSq) && t != Norm(m.toSq)
      ensures Column(g', t) == Column(g, t)
    {
      AwayFromSquare(g, m.fromSq, key, turn, t);
      AwayFromSquare(g1, m.toSq, key, turn, t);
    }
  }

  // ---- the en-passant board through `push` ----

  /** Removing or setting a piece on a square the en-passant board does not
      have leaves that board alone. */
  lemma KeepsEnPassantBoard(g: Dict, sq: int, name: string, turn: Color)
    requires HasBoards(g) && "En passant" in g.entries && InRange(sq) && name in g.entries
    requires name != "En passant" && !Has(g.entries["En passant"], Norm(sq))
    ensures RemovePieceAt(g, sq).0.entries["En passant"] == g.entries["En passant"]
    ensures SetPieceAt(g, sq, name, turn).entries["En passant"] == g.entries["En passant"]
  {
    hide Has, Or, Xor, SquareBB, FirstHolder, Dict.Valid, SetPieceAt, RemovePieceAt;
    UpdatesKeepOtherBoards(g, sq, name, turn, "En passant");
  }

  /** `apply_move` leaves an empty en-passant board empty. */
  lemma ApplyMoveKeepsEmptyEnPassant(g: Dict, m: Move, turn: Color)
    requires HasBoards(g) && "En passant" in g.entries && g.entries["En passant"] == BB_EMPTY
    ensures ApplyMove(g, m, turn).Some? ==> ApplyMove(g, m, turn).value.entries["En passant"] == BB_EMPTY
  {
    hide Has, Or, Xor, SquareBB, FirstHolder, Dict.Valid, SetPieceAt;
    if InRange(m.fromSq) && InRange(m.toSq) {
      HasZero(Norm(m.fromSq));
      HasZero(Norm(m.toSq));
      var (g1, key) := RemovePieceAt(g, m.fromSq);
      KeepsEnPassantBoard(g, m.fromSq, "All", turn);
      SameKeysBoards(g, g1);
      if key in g1.entries {
        KeepsEnPassantBoard(g1, m.toSq, key, turn);
      }
    }
  }

  /** After the moves of `push` the en-passant board is empty. */
  lemma AfterMovesEmptyEnPassant(g: Dict, m: Move, turn: Color)
    requires HasBoards(g)
    ensures AfterMoves(g, m, turn).Some? ==> AfterMoves(g, m, turn).value.entries["En passant"] == BB_EMPTY
  {
    hide Has, Or, Xor, SquareBB, FirstHolder, Dict.Valid, SetPieceAt, RemovePieceAt, ApplyMove, TypeAt;
    var g1 := ClearEnPassant(g);
    ClearValid(g);
    ApplyMoveKeepsEmptyEnPassant(g1, m, turn);
    if ApplyMove(g1, m, turn).Some? {
      var g2 := ApplyMove(g1, m, turn).value;
      if IsMoveCastling(g2, m) {
        ApplyMoveKeepsEmptyEnPassant(g2, AdditionalCastlingMove(m, turn), turn);
      }
    }
  }

  /** The en-passant board `set_en_passant` leaves on an empty one: the square
      behind the destination after a two-square pawn move, else nothing. */
  function EnPassantAfter(g3: Dict, m: Move, turn: Color): Bitboard
    requires g3.Valid() && InRange(m.toSq)
    requires CanBeEnPassanted(g3, m) ==> InRange(BehindTarget(m, turn))
  {
    if CanBeEnPassanted(g3, m) then SquareBB(BehindTarget(m, turn)) else BB_EMPTY
  }

  /** The last steps of `push` on an empty en-passant board: after a
      two-square pawn move straight ahead the board holds exactly the square
      behind the pawn, and after a move that is not a two-square pawn move
      it stays empty. */
  lemma FinishEnPassant(g3: Dict, m: Move, turn: Color, gate: bool)
    requires HasBoards(g3) && "En passant" in g3.entries && InRange(m.fromSq) && InRange(m.toSq)
    requires g3.entries["En passant"] == BB_EMPTY
    ensures var r := FinishWith(g3, m, turn, gate);
      r.Some? ==>
        (!CanBeEnPassanted(g3, m) ==> r.value.entries["En passant"] == BB_EMPTY)
        && (CanBeEnPassanted(g3, m) && m.IsGoingStraight() ==>
              r.value.entries["En passant"] == SquareBB(BehindTarget(m, turn)))
  {
    hide Has, Or, Xor, SquareBB, FirstHolder, Dict.Valid, SetPieceAt, RemovePieceAt, TypeAt, Distance, UpdateCastlingRights;
    var r := FinishWith(g3, m, turn, gate);
    var ep := BehindTarget(m, turn);
    if r.Some? {
      var g4 := if CanBeEnPassanted(g3, m) then SetEnPassant(g3, m, turn) else g3;
      SameKeysBoards(g3, g4);
      var taken := gate && HasBeenEnPassantCapture(g4, m);
      if !(taken && CanBeEnPassanted(g3, m)) {
        var board := EnPassantAfter(g3, m, turn);
        SetEnPassantBoard(g3, m, turn);
        var g5 := CaptureStep(g4, m, turn, taken).value;
        if taken {
          HasZero(Norm(ep));
          KeepsEnPassantBoard(g4, ep, "All", turn);
        }
        SameKeysBoards(g4, g5);
        if m.IsPromotion() {
          var name := m.promotion.value.Name();
          PieceNamesArePieceKeys(m.promotion.value.kind);
          KeepsEnPassantBoard(g5, m.toSq, name, turn);
          var g6 := SetPieceAt(g5, m.toSq, name, turn);
          SameKeysBoards(g5, g6);
          assert r.value == UpdateCastlingRights(g6, m, turn);
        } else {
          assert r.value == UpdateCastlingRights(g5, m, turn);
        }
      }
    }
  }

  /** `set_en_passant` on an empty board gives `EnPassantAfter`, a board that
      never has the destination. */
  lemma SetEnPassantBoard(g3: Dict, m: Move, turn: Color)
    requires HasBoards(g3) && "En passant" in g3.entries && InRange(m.toSq)
    requires g3.entries["En passant"] == BB_EMPTY
    requires CanBeEnPassanted(g3, m) ==> InRange(BehindTarget(m, turn))
    ensures var g4 := if CanBeEnPassanted(g3, m) then SetEnPassant(g3, m, turn) else g3;
      g4.entries["En passant"] == EnPassantAfter(g3, m, turn)
      && !Has(EnPassantAfter(g3, m, turn), Norm(m.toSq))
  {
    hide Has, Or, FirstHolder, TypeAt;
    var ep := BehindTarget(m, turn);
    OrZero(EnPassantAfter(g3, m, turn));
    HasZero(Norm(m.toSq));
    if CanBeEnPassanted(g3, m) {
      HasSquareBB(ep, Norm(m.toSq));
    }
  }

  /** `push` leaves an en-passant square only after a two-square pawn move:
      straight ahead it is exactly the square the pawn passed over, and after
      any move that is not a two-square pawn move the board is empty. */
  lemma PushEnPassant(g: Dict, m: Move, turn: Color)
    requires HasBoards(g)
    ensures var r := PushSpec(g, m, turn);
      r.Some? ==>
        var g3 := AfterMoves(g, m, turn).value;
        (!CanBeEnPassanted(g3, m) ==> r.value.entries["En passant"] == BB_EMPTY)
        && (CanBeEnPassanted(g3, m) && m.IsGoingStraight() ==>
              r.value.entries["En passant"] == SquareBB(BehindTarget(m, turn)))
  {
    hide FinishWith, AfterMoves, CanBeEnPassanted, SquareBB, Dict.Valid;
    AfterMovesEmptyEnPassant(g, m, turn);
    if AfterMoves(g, m, turn).Some? {
      FinishEnPassant(AfterMoves(g, m, turn).value, m, turn, true);
    }
  }

  // ---- castling ----

  /** `update_castling_rights`, square by square: a king landing on the
      destination drops every right on its side's back rank; any other move
      drops the right on its origin square; nothing else changes. */
  lemma CastlingRightsBits(g: Dict, m: Move, turn: Color, t: int)
    requires g.Valid() && "Castling" in g.entries && InRange(m.fromSq) && InRange(m.toSq) && 0 <= t < 64
    ensures var rights := g.entries["Castling"];
      var kingMoved := TypeAt(g, m.toSq) == Some("King");
      Has(UpdateCastlingRights(g, m, turn).entries["Castling"], t) <==>
        Has(rights, t)
        && (kingMoved ==> Rank(t) != (if turn == WHITE then 0 else 7))
        && (!kingMoved ==> t != Norm(m.fromSq))
  {
    hide Has, And, Or, Xor, Not, SquareBB, FirstHolder, Dict.Valid, RankBB;
    var rights := g.entries["Castling"];
    var from := Norm(m.fromSq);
    if TypeAt(g, m.toSq) == Some("King") {
      HasAnd(rights, Not(BackRank(turn)), t);
      HasNot(BackRank(turn), t);
      HasRank(0, t);
      HasRank(7, t);
    } else {
      HasAnd(SquareBB(m.fromSq), rights, from);
      HasSquareBB(m.fromSq, from);
      if And(SquareBB(m.fromSq), rights) != BB_EMPTY {
        NonZero(And(SquareBB(m.fromSq), rights));
        var i :| 0 <= i && Has(And(SquareBB(m.fromSq), rights), i);
        HasAnd(SquareBB(m.fromSq), rights, i);
        HasSquareBB(m.fromSq, i);
        HasXor(rights, SquareBB(m.fromSq), t);
        HasSquareBB(m.fromSq, t);
      } else {
        HasZero(from);
      }
    }
  }

  /** The corner of the back rank `r` on file `f`, as `msb` reads it. */
  lemma CornerSquare(r: int, f: int)
    requires (r == 0 || r == 7) && (f == 0 || f == 7)
    ensures Msb(And(RankBB(r), FileBB(f))) == 8 * r + f
  {
    hide Has, And, RankBB, FileBB, SquareBB, Msb;
    CornerBoard(r, f);
    MsbOfSquare(8 * r + f);
  }

  /** A rank and a file meet in one square. */
  lemma CornerBoard(r: int, f: int)
    requires 0 <= r < 8 && 0 <= f < 8
    ensures And(RankBB(r), FileBB(f)) == SquareBB(8 * r + f)
  {
    hide Has, And, RankBB, FileBB, SquareBB, Shl, File, Rank;
    var s := 8 * r + f;
    forall i | 0 <= i
      ensures Has(And(RankBB(r), FileBB(f)), i) == Has(SquareBB(s), i)
    {
      HasAnd(RankBB(r), FileBB(f), i);
      HasRank(r, i);
      HasFile(f, i);
      HasSquareBB(s, i);
      SquareOfCoordinates(f, r);
      if i < 64 {
        CoordinatesOfSquare(i);
      }
    }
    BitsEqual(And(RankBB(r), FileBB(f)), SquareBB(s));
  }

  /** `msb` of the board of one square is that square. */
  lemma MsbOfSquare(s: int)
    requires 0 <= s < 64
    ensures Msb(SquareBB(s)) == s
  {
    ShlMul(1, s);
    BitLengthPow2(s);
  }

  /** `get_additional_castling_move`: the rook comes from the back-rank
      corner on the side the king went, to the square the king passed
      over. */
  lemma AdditionalCastlingSquares(m: Move, turn: Color)
    ensures var rook := AdditionalCastlingMove(m, turn);
      var rank := if turn == WHITE then 0 else 7;
      rook.fromSq == (if m.IsGoingRight() then 8 * rank + 7 else 8 * rank)
      && rook.toSq == (if m.IsGoingRight() then m.toSq - 1 else m.toSq + 1)
      && rook.promotion.None?
  {
    hide Msb, And;
    var rank := if turn == WHITE then 0 else 7;
    CornerSquare(rank, 7);
    CornerSquare(rank, 0);
    ShlMul(BB_FILE_A, 0);
  }

  // ---- the en-passant removal ----

  /** As written, the removal fires for every pawn that lands on another
      file: a pawn capturing an ordinary piece also removes the piece of a
      piece type standing on the square behind its destination. */
  lemma PawnCaptureRemovesBehind(g3: Dict, m: Move, turn: Color)
    requires Consistent(g3) && "En passant" in g3.entries
    requires InRange(m.fromSq) && InRange(m.toSq) && InRange(BehindTarget(m, turn))
    requires !CanBeEnPassanted(g3, m) && HasBeenEnPassantCapture(g3, m)
    requires TypeAt(g3, BehindTarget(m, turn)).Some? && PieceKey(TypeAt(g3, BehindTarget(m, turn)).value)
    ensures var r := FinishWith(g3, m, turn, true);
      r.Some? ==> !Has(r.value.entries[TypeAt(g3, BehindTarget(m, turn)).value], Norm(BehindTarget(m, turn)))
  {
    hide Has, Or, Xor, SquareBB, FirstHolder, Dict.Valid, SetPieceAt, RemovePieceAt, TypeAt, Distance, UpdateCastlingRights, Column;
    var ep := BehindTarget(m, turn);
    var key := TypeAt(g3, ep).value;
    var r := FinishWith(g3, m, turn, true);
    if r.Some? {
      var g5 := RemovePieceAt(g3, ep).0;
      RemoveKeepsConsistent(g3, ep);
      ColumnAt(g5, key, Norm(ep));
      assert !Has(g5.entries[key], Norm(ep));
      SameKeysBoards(g3, g5);
      if m.IsPromotion() {
        var name := m.promotion.value.Name();
        var g6 := SetPieceAt(g5, m.toSq, name, turn);
        AwayFromSquare(g5, m.toSq, name, turn, Norm(ep));
        ColumnAt(g6, key, Norm(ep));
        SameKeysBoards(g5, g6);
        assert r.value == UpdateCastlingRights(g6, m, turn);
      } else {
        assert r.value == UpdateCastlingRights(g5, m, turn);
      }
    }
  }

  /** With the removal limited to the en-passant square, a move onto any
      other square that is not a two-square pawn move leaves the square
      behind its destination as it was on every board but the castling
      rights. */
  lemma IntendedCaptureKeepsBehind(g: Dict, m: Move, turn: Color)
    requires HasBoards(g) && InRange(m.toSq) && InRange(BehindTarget(m, turn))
    requires !Has(PreviousEnPassant(g), Norm(m.toSq))
    ensures var r := PushIntended(g, m, turn);
      r.Some? && !CanBeEnPassanted(AfterMoves(g, m, turn).value, m) ==>
        var g3 := AfterMoves(g, m, turn).value;
        var s := Norm(BehindTarget(m, turn));
        forall k | k in g3.entries && k != "Castling" :: Has(r.value.entries[k], s) == Has(g3.entries[k], s)
  {
    hide Has, Or, Xor, SquareBB, FirstHolder, Dict.Valid, SetPieceAt, RemovePieceAt, TypeAt, Distance, UpdateCastlingRights, Column, AfterMoves;
    var r := PushIntended(g, m, turn);
    if r.Some? {
      var g3 := AfterMoves(g, m, turn).value;
      if !CanBeEnPassanted(g3, m) {
        ClosedGateKeepsBehind(g3, m, turn);
      }
    }
  }

  /** `FinishWith` with the gate closed, after a move that is not a
      two-square pawn move, changes the square behind the destination on
      no board but the castling rights. */
  lemma ClosedGateKeepsBehind(g3: Dict, m: Move, turn: Color)
    requires HasBoards(g3) && "En passant" in g3.entries
    requires InRange(m.fromSq) && InRange(m.toSq) && InRange(BehindTarget(m, turn))
    requires !CanBeEnPassanted(g3, m)
    ensures var r := FinishWith(g3, m, turn, false);
      var s := Norm(BehindTarget(m, turn));
      r.Some? ==> forall k | k in g3.entries && k != "Castling" :: Has(r.value.entries[k], s) == Has(g3.entries[k], s)
  {
    hide Has, Or, Xor, SquareBB, FirstHolder, Dict.Valid, SetPieceAt, RemovePieceAt, TypeAt, Distance, UpdateCastlingRights, Column;
    var s := Norm(BehindTarget(m, turn));
    var r := FinishWith(g3, m, turn, false);
    if r.Some? {
      var g6 := if m.IsPromotion() then SetPieceAt(g3, m.toSq, m.promotion.value.Name(), turn) else g3;
      if m.IsPromotion() {
        AwayFromSquare(g3, m.toSq, m.promotion.value.Name(), turn, s);
      }
      forall k | k in g3.entries
        ensures Has(g6.entries[k], s) == Has(g3.entries[k], s)
      {
        ColumnAt(g3, k, s);
        ColumnAt(g6, k, s);
      }
      SameKeysBoards(g3, g6);
      assert r.value == UpdateCastlingRights(g6, m, turn);
    }
  }

  // ---- every board stays a 64-bit board ----

  /** Every board of the dictionary is a 64-bit board. */
  ghost predicate AllBitboards(g: Dict) {
    forall k | k in g.entries :: IsBitboard(g.entries[k])
  }

  /** `apply_move` keeps every board a 64-bit board. */
  lemma ApplyMoveBitboards(g: Dict, m: Move, turn: Color)
    requires HasBoards(g) && AllBitboards(g) && ApplyMove(g, m, turn).Some?
    ensures AllBitboards(ApplyMove(g, m, turn).value)
  {
    hide Has, Or, Xor, SquareBB, FirstHolder, Dict.Valid, SetPieceAt, RemovePieceAt, TypeAt;
    var (g1, key) := RemovePieceAt(g, m.fromSq);
    RemoveIsBitboard(g, m.fromSq);
    SameKeysBoards(g, g1);
    SetIsBitboard(g1, m.toSq, key, turn);
  }

  /** The first steps of `push` keep every board a 64-bit board and add the
      en-passant key. */
  lemma AfterMovesBitboards(g: Dict, m: Move, turn: Color)
    requires HasBoards(g) && AllBitboards(g) && AfterMoves(g, m, turn).Some?
    ensures AllBitboards(AfterMoves(g, m, turn).value)
    ensures AfterMoves(g, m, turn).value.entries.Keys == g.entries.Keys + {"En passant"}
  {
    hide Has, Or, Xor, And, Msb, SquareBB, FirstHolder, Dict.Valid, SetPieceAt, RemovePieceAt, TypeAt, ApplyMove, IsMoveCastling, AdditionalCastlingMove;
    var g1 := ClearEnPassant(g);
    ClearValid(g);
    HasZero(0);
    assert AllBitboards(g1);
    var g2 := ApplyMove(g1, m, turn).value;
    ApplyMoveBitboards(g1, m, turn);
    if IsMoveCastling(g2, m) {
      ApplyMoveBitboards(g2, AdditionalCastlingMove(m, turn), turn);
    }
  }

  /** `update_castling_rights` keeps every board a 64-bit board. */
  lemma CastlingRightsBitboards(g: Dict, m: Move, turn: Color)
    requires g.Valid() && "Castling" in g.entries && InRange(m.fromSq) && InRange(m.toSq) && AllBitboards(g)
    ensures AllBitboards(UpdateCastlingRights(g, m, turn))
  {
    hide Has, Or, Xor, And, Not, SquareBB, FirstHolder, TypeAt;
    var rights := g.entries["Castling"];
    AndComm(rights, Not(BackRank(turn)));
    AndRange(Not(BackRank(turn)), rights);
    MaskedIsBitboard(rights, m.fromSq);
  }

  /** The rest of `push` keeps every board a 64-bit board. */
  lemma FinishBitboards(g3: Dict, m: Move, turn: Color, gate: bool)
    requires HasBoards(g3) && "En passant" in g3.entries && InRange(m.fromSq) && InRange(m.toSq)
    requires AllBitboards(g3) && FinishWith(g3, m, turn, gate).Some?
    ensures AllBitboards(FinishWith(g3, m, turn, gate).value)
  {
    hide Has, Or, Xor, And, SquareBB, FirstHolder, Dict.Valid, SetPieceAt, RemovePieceAt, TypeAt, UpdateCastlingRights, CanBeEnPassanted, HasBeenEnPassantCapture;
    var ep := BehindTarget(m, turn);
    var g4 := if CanBeEnPassanted(g3, m) then SetEnPassant(g3, m, turn) else g3;
    if CanBeEnPassanted(g3, m) {
      MaskedIsBitboard(g3.entries["En passant"], ep);
    }
    assert AllBitboards(g4);
    SameKeysBoards(g3, g4);
    var g5 := CaptureStep(g4, m, turn, gate && HasBeenEnPassantCapture(g4, m)).value;
    if gate && HasBeenEnPassantCapture(g4, m) {
      RemoveIsBitboard(g4, ep);
    }
    assert AllBitboards(g5);
    SameKeysBoards(g4, g5);
    var g6 := if m.IsPromotion() then SetPieceAt(g5, m.toSq, m.promotion.value.Name(), turn) else g5;
    if m.IsPromotion() {
      SetIsBitboard(g5, m.toSq, m.promotion.value.Name(), turn);
    }
    SameKeysBoards(g5, g6);
    CastlingRightsBitboards(g6, m, turn);
  }

  /** `push` keeps every board a 64-bit board, and the keys of the
      dictionary with the en-passant key among them. */
  lemma PushBitboards(g: Dict, m: Move, turn: Color)
    requires HasBoards(g) && AllBitboards(g) && PushSpec(g, m, turn).Some?
    ensures AllBitboards(PushSpec(g, m, turn).value)
    ensures PushSpec(g, m, turn).value.entries.Keys == g.entries.Keys + {"En passant"}
  {
    hide FinishWith, ApplyMove, Dict.Valid, AfterMoves;
    AfterMovesBitboards(g, m, turn);
    var g3 := AfterMoves(g, m, turn).value;
    FinishBitboards(g3, m, turn, true);
  }
}
