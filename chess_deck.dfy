/** `ChessDeck` of `chess_deck.py`: the position object of the engine.  Its
    fields are the board dictionary, the side to move, the clocks, the two
    decks and the piece and promotion sets of both sides (Python sets, kept
    here as a listing of their elements), and the attack descriptions by
    piece name.  The methods change these fields in place, or run the loops
    of the source over them, and each is proved against the function of the
    fields that specifies it: the queries against `Positions`, the move
    generators against `MoveGen`, the updates against `Boards` and `Play`,
    and the loading against `FenLoading`. */
module ChessDecks {
  import opened Bits
  import opened Wrappers
  import opened Computer
  import opened Pieces
  import opened Dicts
  import opened Boards
  import opened Moves
  import opened Bitboards
  import opened Rays
  import opened AttackTables
  import opened Play
  import opened Positions
  import opened MoveGen
  import opened Decks
  import opened Setup
  import opened FenLoading

  /** ORing a piece's step part and then each of its slide parts into an
      accumulator, one after the other, as `get_mask_attack` does, ORs in
      the piece's whole attack at once. */
  lemma Accumulate(acc: int, s: int, d: int, v: int, h: int)
    ensures Or(Or(Or(Or(acc, s), d), v), h) == Or(acc, Or(Or(Or(s, d), v), h))
  {
    OrAssoc(acc, Or(Or(s, d), v), h);
    OrAssoc(acc, Or(s, d), v);
    OrAssoc(acc, s, d);
  }

  /** What a readable position offers the loops below: the boards they
      look up and the pieces of both sets known. */
  lemma Readable(st: State)
    requires WF(st)
    ensures HasBoards(st.game) && st.game.Valid()
    ensures "Pawn" in st.game.entries && "King" in st.game.entries
    ensures "Castling" in st.game.entries && "En passant" in st.game.entries
    ensures AllKnown(st, st.whiteSet) && AllKnown(st, st.blackSet)
    ensures IsBitboard(st.game.entries["White"]) && IsBitboard(st.game.entries["Black"])
    ensures IsBitboard(st.game.entries["All"]) && IsBitboard(st.game.entries["En passant"])
    ensures AllBitboards(st.game)
  {
  }

  /** A dictionary that keeps the boards a readable position looks up, and
      keeps every board a 64-bit board, gives a readable position. */
  lemma ReadableWith(st: State, g: Dict, turn: Color)
    requires WF(st) && HasBoards(g) && AllBitboards(g) && st.game.entries.Keys <= g.entries.Keys
    ensures WF(st.(game := g, turn := turn))
  {
    hide Describe, AttacksOf;
    var st' := st.(game := g, turn := turn);
    assert AllKnown(st', st.whiteSet) by {
      forall k | 0 <= k < |st.whiteSet|
        ensures Known(st', st.whiteSet[k])
      {
        assert Known(st, st.whiteSet[k]);
      }
    }
    assert AllKnown(st', st.blackSet) by {
      forall k | 0 <= k < |st.blackSet|
        ensures Known(st', st.blackSet[k])
      {
        assert Known(st, st.blackSet[k]);
      }
    }
  }

  /** Masking a 64-bit board, on either side, gives a 64-bit board. */
  lemma AndBitboard(a: int, b: int)
    requires IsBitboard(a)
    ensures IsBitboard(And(a, b)) && IsBitboard(And(b, a))
  {
    AndComm(a, b);
    AndRange(b, a);
  }

  /** `scan_reversed(bb)` as the generators use it: the listing, and that
      every entry is a square. */
  method ScanSquares(bb: Bitboard) returns (squares: seq<int>)
    requires IsBitboard(bb)
    ensures squares == Squares(bb)
    ensures forall i | 0 <= i < |squares| :: 0 <= squares[i] < 64
  {
    squares := ScanReversed(bb);
  }

  /** One origin of `gen_attack_moves` taken off the front of its listing. */
  lemma AttackMovesStep(st: State, froms: seq<int>, k: int, condition: Bitboard, end: Bitboard)
    requires WF(st) && 0 <= k < |froms| && forall i | 0 <= i < |froms| :: 0 <= froms[i] < 64
    ensures AttackMovesFrom(st, froms[k..], condition, end)
      == TargetMoves(st, froms[k], Squares(AttackTargets(st, froms[k], condition, end)))
         + AttackMovesFrom(st, froms[k + 1..], condition, end)
  {
    assert froms[k..][0] == froms[k] && froms[k..][1..] == froms[k + 1..];
  }

  /** One origin of `gen_push_pawns` taken off the front of its listing. */
  lemma PushFromStep(st: State, froms: seq<int>, k: int, distance: int, end: Bitboard)
    requires st.game.Valid() && 0 <= k < |froms|
    requires forall i | 0 <= i < |froms| :: 0 <= froms[i] < 64 && InRange(froms[i] + Forward(st.turn, distance))
    ensures PushFrom(st, froms[k..], distance, end)
      == PushFrom(st, [froms[k]], distance, end) + PushFrom(st, froms[k + 1..], distance, end)
  {
    assert froms[k..][0] == froms[k] && froms[k..][1..] == froms[k + 1..];
    assert [froms[k]][1..] == [];
  }

  /** No pawn, no push. */
  lemma PushFromNone(st: State, distance: int, end: Bitboard)
    requires st.game.Valid()
    ensures PushFrom(st, [], distance, end) == []
  {
  }

  /** `get_mask_attack` gives a 64-bit board. */
  lemma MaskAttackIsBitboard(st: State, sq: int)
    requires WF(st) && 0 <= sq < 64
    ensures IsBitboard(MaskAttack(st, sq))
  {
    MaskAttackOverIsBitboard(st, st.SetOf(st.turn), sq);
  }

  /** The pawn boards `gen_pseudo_moves` pushes from are 64-bit boards. */
  lemma DoublePawnsIsBitboard(st: State)
    requires WF(st)
    ensures IsBitboard(DoublePawns(st)) && IsBitboard(OwnPawns(st))
  {
    var pawn := st.game.entries["Pawn"];
    AndBitboard(pawn, st.game.entries["White"]);
    AndBitboard(pawn, st.game.entries["Black"]);
    AndBitboard(And(pawn, st.game.entries["White"]), BB_RANK_2);
    AndBitboard(And(pawn, st.game.entries["Black"]), BB_RANK_7);
  }

  /** One candidate of `gen_castling_moves` taken off the front of its
      listing: skipped when a test fails, the end of generation when its
      destination misses the end mask, one move otherwise. */
  lemma CastlingFromStep(st: State, cands: seq<int>, k: int, king: Bitboard, kingSq: int, end: Bitboard)
    requires WF(st) && IsBitboard(king) && 0 <= kingSq < 64 && 0 <= k < |cands|
    requires forall i | 0 <= i < |cands| :: 0 <= cands[i] < 64 && PathInRange(st, kingSq, cands[i])
    ensures CastlingFrom(st, cands[k..], king, kingSq, end) ==
      if !CastlingClear(st, kingSq, cands[k]) then CastlingFrom(st, cands[k + 1..], king, kingSq, end)
      else if And(SquareBB(CastlingDestination(king, kingSq, cands[k])), end) == BB_EMPTY then []
      else [Move(kingSq, CastlingDestination(king, kingSq, cands[k]), None)] + CastlingFrom(st, cands[k + 1..], king, kingSq, end)
  {
    assert cands[k..][0] == cands[k] && cands[k..][1..] == cands[k + 1..];
  }

  /** No candidate, no castling move. */
  lemma CastlingFromNone(st: State, king: Bitboard, kingSq: int, end: Bitboard)
    requires WF(st) && IsBitboard(king) && 0 <= kingSq < 64
    ensures CastlingFrom(st, [], king, kingSq, end) == []
  {
  }

  /** One move `gen_legal_moves` keeps or drops, off the front of the
      candidates. */
  lemma SafeOnesStep(st: State, kingSq: int, blockers: Bitboard, ms: seq<Move>, k: int)
    requires WF(st) && 0 <= kingSq < 64 && 0 <= k < |ms| && forall i | 0 <= i < |ms| :: Checkable(st, ms[i])
    ensures SafeOnes(st, kingSq, blockers, ms[k..])
      == (if Safe(st, kingSq, ms[k], blockers) then [ms[k]] else []) + SafeOnes(st, kingSq, blockers, ms[k + 1..])
  {
    assert ms[k..][0] == ms[k] && ms[k..][1..] == ms[k + 1..];
  }

  /** One piece's turn in the loop of `get_mask_attack`: its step table, then
      its diagonal, vertical and horizontal tables, each ORed into `acc`. */
  method OrPieceAttack(acc: Bitboard, a: Attacks, sq: int, turn: Color, all: Bitboard) returns (bbMoves: Bitboard)
    requires 0 <= sq < 64 && StepsOK(a)
    ensures bbMoves == Or(acc, PieceAttack(a, sq, turn, all))
  {
    bbMoves := acc;
    match a.step {
      case Step(ds) =>
        bbMoves := Or(bbMoves, StepAttacks(sq, ds));
      case Steps(sides) =>
        bbMoves := Or(bbMoves, if turn == WHITE then StepAttacks(sq, sides[0]) else StepAttacks(sq, sides[1]));
      case NoSteps =>
        OrZero(bbMoves);
    }
    assert bbMoves == Or(acc, StepPart(a, sq, turn));
    var d := if a.diagonal then DiagonalAttacks(sq, all) else 0;
    var v := if a.vertical then FileAttacks(sq, all) else 0;
    var h := if a.horizontal then RankAttacks(sq, all) else 0;
    if a.diagonal {
      bbMoves := Or(bbMoves, DiagonalAttacks(sq, all));
    } else {
      OrZero(bbMoves);
    }
    if a.vertical {
      bbMoves := Or(bbMoves, FileAttacks(sq, all));
    } else {
      OrZero(bbMoves);
    }
    if a.horizontal {
      bbMoves := Or(bbMoves, RankAttacks(sq, all));
    } else {
      OrZero(bbMoves);
    }
    Accumulate(acc, StepPart(a, sq, turn), d, v, h);
  }

  /** A FEN string the constructor can load with the piece set listed as
      `pieces`: six fields, a placement that fits, a target square that
      parses, and two clocks that are numbers. */
  predicate FenLoads(fen: string, pieces: seq<Piece>) {
    NewFenLoader(fen).Some?
    && LoadedBoard(NewFenLoader(fen).value, pieces).Some?
    && LoadHalfmoveClock(NewFenLoader(fen).value).Some?
    && LoadFullmoveNumber(NewFenLoader(fen).value).Some?
  }

  /** After the reset, a piece of either set has its board and its attack
      description. */
  lemma KnownAfterReset(st: State, wd: Deck, bd: Deck, k: int)
    requires |wd.whitePieces| <= 8 && |bd.blackPieces| <= 8
    requires st.game == ResetBoards(wd.whitePieces, bd.blackPieces)
    requires st.whiteSet == GetSetPieces(wd, WHITE) && st.blackSet == GetSetPieces(bd, BLACK)
    requires st.attacks == DictAttacks(st.whiteSet + st.blackSet)
    requires 0 <= k < |st.whiteSet + st.blackSet|
    ensures Known(st, (st.whiteSet + st.blackSet)[k])
  {
    hide Or, RankBB, SquareBB, Shl, ResetBoards, DictAttacks, AttacksOf, GetSetPieces, StartBoards, DeckNames, Dict.Valid;
    var p := (st.whiteSet + st.blackSet)[k];
    if k < |st.whiteSet| {
      assert p == st.whiteSet[k];
      assert p in st.whiteSet;
    } else {
      assert p == st.blackSet[k - |st.whiteSet|];
      assert p in st.blackSet;
    }
    DictAttacksMeans(st.whiteSet + st.blackSet);
    ResetNames(wd.whitePieces, bd.blackPieces, p);
  }

  /** After the reset, every piece of one side's set is known. */
  lemma SideKnown(st: State, wd: Deck, bd: Deck, c: Color)
    requires |wd.whitePieces| <= 8 && |bd.blackPieces| <= 8
    requires st.game == ResetBoards(wd.whitePieces, bd.blackPieces)
    requires st.whiteSet == GetSetPieces(wd, WHITE) && st.blackSet == GetSetPieces(bd, BLACK)
    requires st.attacks == DictAttacks(st.whiteSet + st.blackSet)
    ensures AllKnown(st, st.SetOf(c))
  {
    hide Or, RankBB, SquareBB, Shl, ResetBoards, DictAttacks, AttacksOf, Known, Describe, Piece.Name,
      GetSetPieces, StartBoards, DeckNames, Dict.Valid;
    var pieces := st.whiteSet + st.blackSet;
    var offset := if c == WHITE then 0 else |st.whiteSet|;
    forall k | 0 <= k < |st.SetOf(c)|
      ensures Known(st, st.SetOf(c)[k])
    {
      assert st.SetOf(c)[k] == pieces[offset + k] && st.SetOf(c)[k] in st.SetOf(c);
      KnownAfterReset(st, wd, bd, offset + k);
    }
  }

  /** A freshly reset game with a king on the board can be read by the
      analyses: every piece of both sets has its board and its attack
      description. */
  lemma StartReadable(st: State, wd: Deck, bd: Deck)
    requires |wd.whitePieces| <= 8 && |bd.blackPieces| <= 8
    requires st.game == ResetBoards(wd.whitePieces, bd.blackPieces) && "King" in st.game.entries
    requires st.whiteSet == GetSetPieces(wd, WHITE) && st.blackSet == GetSetPieces(bd, BLACK)
    requires st.attacks == DictAttacks(st.whiteSet + st.blackSet)
    ensures WF(st)
  {
    hide Or, RankBB, SquareBB, Shl, ResetBoards, DictAttacks, AttacksOf, Consistent, AllKnown, Describe,
      GetSetPieces;
    SideKnown(st, wd, bd, WHITE);
    SideKnown(st, wd, bd, BLACK);
    ResetConsistent(wd.whitePieces, bd.blackPieces);
  }

  /** After loading a FEN string, a piece of either set has its board and
      its attack description. */
  lemma KnownAfterLoad(st: State, f: FenLoader, k: int)
    requires LoadedBoard(f, st.whiteSet + st.blackSet).Some? && st.game == LoadedBoard(f, st.whiteSet + st.blackSet).value
    requires st.attacks == DictAttacks(st.whiteSet + st.blackSet)
    requires 0 <= k < |st.whiteSet + st.blackSet|
    ensures Known(st, (st.whiteSet + st.blackSet)[k])
  {
    hide WithCastling, PlaceFrom, ComputeSquare, WithPieceBoards, EmptyBoards, LoadedBoard, DictAttacks, AttacksOf, Dict.Valid;
    var pieces := st.whiteSet + st.blackSet;
    assert pieces[k] in pieces;
    DictAttacksMeans(pieces);
  }

  /** A position loaded from a FEN string with a king board can be read by
      the analyses: the loaded dictionary is well formed, holds the fixed
      boards, a board per piece of both sets (the pawns among them) and
      only 64-bit boards, and every piece has its attack description. */
  lemma FenReadable(st: State, f: FenLoader, wd: Deck, bd: Deck)
    requires OnlyOnes(f.board) && LoadedBoard(f, st.whiteSet + st.blackSet).Some?
    requires st.game == LoadedBoard(f, st.whiteSet + st.blackSet).value && "King" in st.game.entries
    requires st.whiteSet == GetSetPieces(wd, WHITE) && st.blackSet == GetSetPieces(bd, BLACK)
    requires st.attacks == DictAttacks(st.whiteSet + st.blackSet)
    ensures WF(st)
  {
    hide WithCastling, PlaceFrom, ComputeSquare, WithPieceBoards, LoadedBoard, DictAttacks, AttacksOf, Known, Describe,
      GetSetPieces, PieceNames, Dict.Valid;
    assert Piece(Pawn, WHITE) in st.whiteSet + st.blackSet;
    FenBoards(f, st.whiteSet + st.blackSet);
    FenSideKnown(st, f, WHITE);
    FenSideKnown(st, f, BLACK);
  }

  /** The boards of a loaded position: a well-formed dictionary with the
      fixed boards, a pawn board and only 64-bit boards. */
  lemma FenBoards(f: FenLoader, pieces: seq<Piece>)
    requires OnlyOnes(f.board) && LoadedBoard(f, pieces).Some? && Piece(Pawn, WHITE) in pieces
    ensures var r := LoadedBoard(f, pieces).value;
      HasBoards(r) && "Pawn" in r.entries && "Castling" in r.entries && "En passant" in r.entries
      && forall k | k in r.entries :: IsBitboard(r.entries[k])
  {
    hide WithCastling, PlaceFrom, ComputeSquare, WithPieceBoards, LoadedBoard, EmptyBoards, PieceNames, Describe, Dict.Valid;
    var r := LoadedBoard(f, pieces).value;
    LoadedKeysValid(f, pieces);
    LoadedKeys(f, pieces);
    PawnNamed(pieces);
    forall k | k in r.entries
      ensures IsBitboard(r.entries[k])
    {
      LoadedEntryBitboard(f, pieces, k);
    }
  }

  /** A set holding the white pawn names a pawn board. */
  lemma PawnNamed(pieces: seq<Piece>)
    requires Piece(Pawn, WHITE) in pieces
    ensures "Pawn" in PieceNames(pieces)
  {
    assert Piece(Pawn, WHITE).Name() == "Pawn";
  }

  /** After loading, every piece of one side's set is known. */
  lemma FenSideKnown(st: State, f: FenLoader, c: Color)
    requires LoadedBoard(f, st.whiteSet + st.blackSet).Some? && st.game == LoadedBoard(f, st.whiteSet + st.blackSet).value
    requires st.attacks == DictAttacks(st.whiteSet + st.blackSet)
    ensures AllKnown(st, st.SetOf(c))
  {
    hide WithCastling, PlaceFrom, ComputeSquare, WithPieceBoards, LoadedBoard, DictAttacks, AttacksOf, Known, Describe,
      Piece.Name, Dict.Valid;
    var pieces := st.whiteSet + st.blackSet;
    var offset := if c == WHITE then 0 else |st.whiteSet|;
    forall k | 0 <= k < |st.SetOf(c)|
      ensures Known(st, st.SetOf(c)[k])
    {
      assert st.SetOf(c)[k] == pieces[offset + k];
      KnownAfterLoad(st, f, offset + k);
    }
  }

  class ChessDeck {
    var game: Dict
    var turn: Color
    var halfmoveClock: int
    var fullmoveNumber: int
    var whiteDeck: seq<Option<Piece>>
    var blackDeck: seq<Option<Piece>>
    var whiteSet: seq<Piece>
    var blackSet: seq<Piece>
    var whiteProm: seq<Piece>
    var blackProm: seq<Piece>
    var attacks: map<string, Attacks>

    /** The fields the analyses read. */
    function Pos(): State
      reads this
    {
      State(game, turn, whiteSet, blackSet, whiteProm, blackProm, attacks)
    }

    /** A position the analyses can read. */
    ghost predicate Valid()
      reads this
    {
      WF(Pos())
    }

    // ---- setting the game up ----

    /** `ChessDeck(white_deck, black_deck, fen)`: the decks, the piece and
        promotion sets of both sides and their attack descriptions; then
        either the starting position with white to move and the clocks at
        0 and 1, or the position, side to move and clocks the FEN string
        gives. */
    constructor(wd: Deck, bd: Deck, fen: Option<string>)
      requires fen.None? ==> |wd.whitePieces| <= 8 && |bd.blackPieces| <= 8
      requires fen.Some? ==> FenLoads(fen.value, GetSetPieces(wd, WHITE) + GetSetPieces(bd, BLACK))
      ensures whiteDeck == wd.whitePieces && blackDeck == bd.blackPieces
      ensures whiteSet == GetSetPieces(wd, WHITE) && blackSet == GetSetPieces(bd, BLACK)
      ensures whiteProm == GetPromPieces(wd, WHITE) && blackProm == GetPromPieces(bd, BLACK)
      ensures attacks == DictAttacks(whiteSet + blackSet)
      ensures fen.None? ==>
        game == ResetBoards(whiteDeck, blackDeck) && Consistent(game)
        && turn == WHITE && halfmoveClock == 0 && fullmoveNumber == 1
      ensures fen.None? && "King" in game.entries ==> Valid()
      ensures fen.Some? ==>
        var f := NewFenLoader(fen.value).value;
        game == LoadedBoard(f, whiteSet + blackSet).value && turn == LoadTurn(f)
        && halfmoveClock == LoadHalfmoveClock(f).value && fullmoveNumber == LoadFullmoveNumber(f).value
      ensures fen.Some? && "King" in game.entries ==> Valid()
    {
      hide GetSetPieces, GetPromPieces, DictAttacks, ResetBoards, LoadedBoard, NewFenLoader, Consistent, WF,
        LoadHalfmoveClock, LoadFullmoveNumber, Describe, Piece.Name, StartBoards, Or, RankBB, SquareBB, Shl;
      game := Dict([], map[]);
      attacks := map[];
      whiteDeck := wd.whitePieces;
      blackDeck := bd.blackPieces;
      whiteSet := GetSetPieces(wd, WHITE);
      blackSet := GetSetPieces(bd, BLACK);
      whiteProm := GetPromPieces(wd, WHITE);
      blackProm := GetPromPieces(bd, BLACK);
      turn := WHITE;
      halfmoveClock := 0;
      fullmoveNumber := 1;
      new;
      CreateDictAttacks();
      if fen.None? {
        StartPosition();
        if "King" in game.entries {
          StartReadable(Pos(), wd, bd);
        }
      } else {
        LoadPosition(fen.value);
        if "King" in game.entries {
          FenReadable(Pos(), NewFenLoader(fen.value).value, wd, bd);
        }
      }
    }

    /** The position without a FEN string: the decks on their back ranks,
        white to move, the clocks at 0 and 1. */
    method StartPosition()
      requires |whiteDeck| <= 8 && |blackDeck| <= 8
      modifies this
      ensures Pos() == old(Pos()).(game := game, turn := turn) && whiteDeck == old(whiteDeck) && blackDeck == old(blackDeck)
      ensures game == ResetBoards(whiteDeck, blackDeck) && Consistent(game)
      ensures turn == WHITE && halfmoveClock == 0 && fullmoveNumber == 1
    {
      hide ResetBoards, Consistent, StartBoards, Or, RankBB, SquareBB, Shl;
      ResetGame();
      turn := WHITE;
      halfmoveClock := 0;
      fullmoveNumber := 1;
    }

    /** The position a FEN string gives: `FenLoader(fen, piece_set)`, then
        its board, side to move and clocks. */
    method LoadPosition(fen: string)
      requires FenLoads(fen, whiteSet + blackSet)
      modifies this
      ensures Pos() == old(Pos()).(game := game, turn := turn) && whiteDeck == old(whiteDeck) && blackDeck == old(blackDeck)
      ensures var f := NewFenLoader(fen).value;
        game == LoadedBoard(f, whiteSet + blackSet).value && turn == LoadTurn(f)
        && halfmoveClock == LoadHalfmoveClock(f).value && fullmoveNumber == LoadFullmoveNumber(f).value
    {
      hide LoadedBoard, LoadHalfmoveClock, LoadFullmoveNumber, EmptyBoards, PieceNames;
      var f := NewFenLoader(fen).value;
      var loaded := LoadBoard(f, whiteSet + blackSet);
      game := loaded.value;
      turn := LoadTurn(f);
      halfmoveClock := LoadHalfmoveClock(f).value;
      fullmoveNumber := LoadFullmoveNumber(f).value;
    }

    /** `reset_game()`: the starting boards, then the white deck and the
        black deck loaded; the game this leaves is consistent. */
    method ResetGame()
      requires |whiteDeck| <= 8 && |blackDeck| <= 8
      modifies this
      ensures Pos() == old(Pos()).(game := game) && Rest() == old(Rest())
      ensures game == ResetBoards(whiteDeck, blackDeck)
      ensures Consistent(game)
    {
      hide Or, RankBB, SquareBB, Shl, DeckBoards, Consistent;
      game := StartBoards();
      LoadDeck(whiteDeck, WHITE);
      LoadDeck(blackDeck, BLACK);
      ResetConsistent(whiteDeck, blackDeck);
    }

    /** `load_deck(deck, color)`: each entry holding a piece sets its
        back-rank square on the board of the piece's name (created when
        missing), on the side's board and on `All`; a `None` entry is
        passed over. */
    method LoadDeck(deck: seq<Slot>, color: Color)
      requires game.Valid() && |deck| <= 8 && ColorKey(color) in game.entries && "All" in game.entries
      modifies this
      ensures Pos() == old(Pos()).(game := game) && Rest() == old(Rest())
      ensures game == DeckBoards(old(game), deck, color)
    {
      hide Or, RankBB, SquareBB, Shl, DeckBoards, Dict.Valid, DeckSquare, PlaceSlot;
      DeckBoardsNone(game, deck, color);
      var position := 0;
      while position < |deck|
        invariant 0 <= position <= |deck|
        invariant Pos() == old(Pos()).(game := game) && Rest() == old(Rest())
        invariant game == DeckBoards(old(game), deck[..position], color)
      {
        DeckBoardsStep(old(game), deck, position, color);
        var piece := deck[position];
        if piece.None? {
          PlaceSlotNone(game, position, color);
          position := position + 1;
          continue;
        }
        PlaceEntry(piece.value, position, color);
        position := position + 1;
      }
      assert deck[..|deck|] == deck;
    }

    /** One entry of `load_deck` holding a piece: its back-rank square set
        on the board of its name (created when missing), on the side's
        board and on `All`. */
    method PlaceEntry(piece: Piece, position: int, color: Color)
      requires game.Valid() && 0 <= position < 8 && ColorKey(color) in game.entries && "All" in game.entries
      modifies this
      ensures Pos() == old(Pos()).(game := game) && Rest() == old(Rest())
      ensures game == PlaceSlot(old(game), Some(piece), position, color)
    {
      hide Or, RankBB, SquareBB, Shl, Dict.Valid, DeckSquare;
      var bb := DeckSquare(position, color);
      var name := piece.Name();
      if name !in game.entries {
        game := game.Put(name, bb);
      } else {
        game := game.Put(name, Or(game.entries[name], bb));
      }
      game := game.Put(ColorKey(color), Or(game.entries[ColorKey(color)], bb));
      game := game.Put("All", Or(game.entries["All"], bb));
    }

    /** `clear_game()`: every board emptied, no key added or removed. */
    method ClearGame()
      requires game.Valid()
      modifies this
      ensures Pos() == old(Pos()).(game := game) && Rest() == old(Rest())
      ensures game == ClearedBoards(old(game))
    {
      var i := 0;
      while i < |game.keys|
        invariant 0 <= i <= |game.keys|
        invariant Pos() == old(Pos()).(game := game) && Rest() == old(Rest())
        invariant game.keys == old(game).keys && game.entries.Keys == old(game).entries.Keys
        invariant forall k | k in game.entries ::
          game.entries[k] == if k in game.keys[..i] then BB_EMPTY else old(game).entries[k]
      {
        var key := game.keys[i];
        assert game.keys[..i + 1] == game.keys[..i] + [key];
        game := game.Put(key, BB_EMPTY);
        i := i + 1;
      }
      assert game.keys[..i] == game.keys;
      assert game.entries == ClearedBoards(old(game)).entries;
    }

    /** `create_dict_attacks()`: the king's attack description under
        `"King"`, then the description of every piece of both sets under
        its name. */
    method CreateDictAttacks()
      modifies this
      ensures Pos() == old(Pos()).(attacks := attacks) && Rest() == old(Rest())
      ensures attacks == DictAttacks(whiteSet + blackSet)
    {
      hide AttacksOf, Describe;
      attacks := map["King" := AttacksOf(King)];
      var pieces := whiteSet + blackSet;
      var i := 0;
      while i < |pieces|
        invariant 0 <= i <= |pieces|
        invariant Pos() == old(Pos()).(attacks := attacks) && Rest() == old(Rest())
        invariant attacks == DictAttacks(pieces[..i])
      {
        assert pieces[..i + 1][..i] == pieces[..i];
        var piece := pieces[i];
        // `piece in self.attacks` compares a piece with the string keys and
        // never holds, so no piece is passed over.
        attacks := attacks[piece.Name() := AttacksOf(piece.kind)];
        i := i + 1;
      }
      assert pieces[..|pieces|] == pieces;
    }

    // ---- queries of single squares ----

    /** `get_type_at`: the keys in insertion order, passing over the three
        aggregates and the castling rights, until a board has the square. */
    method GetTypeAt(sq: int) returns (r: Option<string>)
      requires game.Valid() && InRange(sq)
      ensures r == TypeAt(game, sq)
    {
      var mask := SquareBB(sq);
      var i := 0;
      while i < |game.keys|
        invariant 0 <= i <= |game.keys|
        invariant FirstHolder(game.keys[i..], game.entries, Norm(sq)) == TypeAt(game, sq)
      {
        var key := game.keys[i];
        assert game.keys[i..][0] == key && game.keys[i..][1..] == game.keys[i + 1..];
        if Skipped(key) {
          i := i + 1;
          continue;
        }
        AndSquare(game.entries[key], sq);
        if And(mask, game.entries[key]) != BB_EMPTY {
          return Some(key);
        }
        i := i + 1;
      }
      return None;
    }

    /** `get_color_at`. */
    method GetColorAt(sq: int) returns (r: Option<Color>)
      requires "White" in game.entries && "Black" in game.entries && InRange(sq)
      ensures r == ColorAt(game, sq)
    {
      var mask := SquareBB(sq);
      AndSquare(game.entries["White"], sq);
      AndSquare(game.entries["Black"], sq);
      if And(mask, game.entries["White"]) != BB_EMPTY {
        return Some(WHITE);
      } else if And(mask, game.entries["Black"]) != BB_EMPTY {
        return Some(BLACK);
      }
      return None;
    }

    /** `is_square_empty(sq)`: no board that `get_type_at` looks at has the
        square.  On a consistent game that is an empty square that is not
        the en-passant target. */
    method IsSquareEmpty(sq: int) returns (r: bool)
      requires game.Valid() && InRange(sq)
      ensures r == TypeAt(game, sq).None?
      ensures Consistent(game) ==>
        (r <==> !Has(game.entries["All"], Norm(sq))
                && forall k | k in game.entries && EnPassantKey(k) :: !Has(game.entries[k], Norm(sq)))
    {
      var t := GetTypeAt(sq);
      r := t.None?;
      if Consistent(game) {
        OccupiedSquare(game, sq);
        forall k | k in game.entries && EnPassantKey(k)
          ensures Has(game.entries[k], Norm(sq)) ==> !r
        {
          TypeAtUnique(game, sq, k);
        }
      }
    }

    // ---- get_mask_attack and the attackers ----

    /** `get_mask_attack(sq)`: over the piece set of the side to move, the
        attacks from `sq` of every piece whose board has `sq`, its step
        table first and then its slide tables. */
    method GetMaskAttack(sq: int) returns (bbMoves: Bitboard)
      requires Valid() && 0 <= sq < 64
      ensures bbMoves == MaskAttack(Pos(), sq)
    {
      hide PieceAttack, Or, And, SquareBB, Describe, AttacksOf, WF;
      var st := Pos();
      Readable(st);
      var pieceSet := if turn == WHITE then whiteSet else blackSet;
      assert pieceSet == st.SetOf(st.turn) && AllKnown(st, pieceSet);
      bbMoves := BB_EMPTY;
      for k := 0 to |pieceSet|
        invariant bbMoves == MaskAttackOver(st, pieceSet[..k], sq)
      {
        var piece := pieceSet[k];
        assert pieceSet[..k + 1][..k] == pieceSet[..k] && pieceSet[..k + 1][k] == piece;
        assert Known(st, piece);
        if And(SquareBB(sq), game.entries[piece.Name()]) == BB_EMPTY {
          OrZero(bbMoves);
          continue;
        }
        AttacksStepsOK(piece.kind);
        bbMoves := OrPieceAttack(bbMoves, attacks[piece.Name()], sq, turn, game.entries["All"]);
      }
      assert pieceSet[..|pieceSet|] == pieceSet;
    }

    /** `get_attackers_of_square(sq, color)`: the squares of `color`,
        highest first, whose mask attack has `sq`. */
    method GetAttackersOfSquare(sq: int, color: Color) returns (attackers: Bitboard)
      requires Valid() && InRange(sq)
      ensures attackers == Attackers(Pos(), sq, color)
    {
      hide MaskAttack, And, Or, SquareBB, Has, WF, Squares, Norm, Describe, AttacksOf, Dict.Valid;
      var st := Pos();
      Readable(st);
      attackers := BB_EMPTY;
      var froms := ScanReversed(if color then game.entries["White"] else game.entries["Black"]);
      assert froms == Squares(ColorBoard(st, color));
      for k := 0 to |froms|
        invariant attackers == AttackersOver(st, froms[..k], sq)
      {
        var a := froms[k];
        assert froms[..k + 1][..k] == froms[..k] && froms[..k + 1][k] == a;
        var mask := GetMaskAttack(a);
        if And(mask, SquareBB(sq)) != BB_EMPTY {
          attackers := Or(attackers, SquareBB(a));
        }
      }
      assert froms[..|froms|] == froms;
    }

    /** `is_square_attacked(sq, color)`. */
    method IsSquareAttacked(sq: int, color: Color) returns (r: bool)
      requires Valid() && InRange(sq)
      ensures r == Positions.IsSquareAttacked(Pos(), sq, color)
    {
      var attackers := GetAttackersOfSquare(sq, color);
      r := attackers != BB_EMPTY;
    }

    /** `is_bitboard_attacked(bb, color)`: the squares of `bb`, highest
        first, until one is attacked. */
    method IsBitboardAttacked(bb: Bitboard, color: Color) returns (r: bool)
      requires Valid() && IsBitboard(bb)
      ensures r == Positions.IsBitboardAttacked(Pos(), bb, color)
    {
      hide Positions.IsSquareAttacked, WF;
      var st := Pos();
      Readable(st);
      var sqs := ScanReversed(bb);
      for k := 0 to |sqs|
        invariant AnyAttacked(st, sqs[k..], color) == AnyAttacked(st, sqs, color)
      {
        assert sqs[k..][0] == sqs[k] && sqs[k..][1..] == sqs[k + 1..];
        var attacked := IsSquareAttacked(sqs[k], color);
        if attacked {
          return true;
        }
      }
      return false;
    }

    // ---- pins, sliders and the en-passant skewer ----

    /** `get_blockers(sq, color)`: the enemy snipers first, piece by piece
        and slide by slide, then for each sniper, highest first, the
        occupied squares between it and `sq` when there is one. */
    method GetBlockers(sq: int, color: Color) returns (blockers: Bitboard)
      requires Valid() && 0 <= sq < 64
      ensures blockers == Blockers(Pos(), sq, color)
    {
      hide And, Or, Has, IsOneBitOn, Between, Snipers, WF, Squares, Describe, AttacksOf, Dict.Valid;
      var snipers := GetSnipers(sq, color);
      var st := Pos();
      Readable(st);
      var sns := ScanReversed(snipers);
      blockers := BB_EMPTY;
      for k := 0 to |sns|
        invariant blockers == BlockersOver(st, sns[..k], sq)
      {
        var s := sns[k];
        assert sns[..k + 1][..k] == sns[..k] && sns[..k + 1][k] == s;
        var between := And(Between(s, sq), game.entries["All"]);
        assert between == Screen(st, s, sq);
        if IsOneBitOn(between) {
          blockers := Or(blockers, between);
        }
      }
      assert sns[..|sns|] == sns;
      blockers := And(blockers, if color then game.entries["White"] else game.entries["Black"]);
    }

    /** The sniper loop of `get_blockers(sq, color)`. */
    method GetSnipers(sq: int, color: Color) returns (snipers: Bitboard)
      requires Valid() && 0 <= sq < 64
      ensures snipers == Snipers(Pos(), sq, color) && IsBitboard(snipers)
    {
      hide AddSniper, And, Or, Describe, AttacksOf, WF;
      var st := Pos();
      Readable(st);
      var enemies := if color then blackSet else whiteSet;
      assert enemies == st.SetOf(!color) && AllKnown(st, enemies);
      snipers := BB_EMPTY;
      for k := 0 to |enemies|
        invariant snipers == SnipersOver(st, enemies[..k], sq)
      {
        var piece := enemies[k];
        assert enemies[..k + 1][..k] == enemies[..k] && enemies[..k + 1][k] == piece;
        assert Known(st, piece);
        snipers := AddSniperTo(snipers, piece, sq);
      }
      assert enemies[..|enemies|] == enemies;
      var theirs := if color then game.entries["Black"] else game.entries["White"];
      AndRange(snipers, theirs);
      snipers := And(snipers, theirs);
    }

    /** One piece's turn in the sniper loop of `get_blockers`. */
    method AddSniperTo(acc: Bitboard, piece: Piece, sq: int) returns (snipers: Bitboard)
      requires Valid() && 0 <= sq < 64 && Known(Pos(), piece)
      ensures snipers == AddSniper(Pos(), acc, piece, sq)
    {
      var board := game.entries[piece.Name()];
      snipers := acc;
      if piece.HorizontalSlide() {
        snipers := Or(snipers, And(RankAttacks(sq, BB_EMPTY), board));
      }
      if piece.VerticalSlide() {
        snipers := Or(snipers, And(FileAttacks(sq, BB_EMPTY), board));
      }
      if piece.DiagonalSlide() {
        snipers := Or(snipers, And(DiagonalAttacks(sq, BB_EMPTY), board));
      }
    }

    /** `get_attacked_squares_by_sliders(king_sq, attackers)`: the boards of
        the enemy sliders, then for each attacker on them, highest first,
        the empty squares of its line through the king. */
    method GetAttackedSquaresBySliders(king: int, attackers: Bitboard) returns (attacked: Bitboard)
      requires Valid() && 0 <= king < 64
      ensures attacked == AttackedBySliders(Pos(), king, attackers)
    {
      hide And, Or, Not, RayEntry, SlidersOver, WF, Squares, Describe, AttacksOf, Dict.Valid;
      var sliders := GetSliders();
      var st := Pos();
      Readable(st);
      var sliding := And(attackers, sliders);
      AndRange(attackers, sliders);
      var froms := ScanReversed(sliding);
      attacked := BB_EMPTY;
      for k := 0 to |froms|
        invariant attacked == RaysOver(st, froms[..k], king)
      {
        var a := froms[k];
        assert froms[..k + 1][..k] == froms[..k] && froms[..k + 1][k] == a;
        attacked := Or(attacked, And(RayEntry(a, king), Not(game.entries["All"])));
      }
      assert froms[..|froms|] == froms;
    }

    /** The first loop of `get_attacked_squares_by_sliders`: the boards of
        the enemy pieces that slide. */
    method GetSliders() returns (sliders: Bitboard)
      requires Valid()
      ensures sliders == SlidersOver(Pos(), Opponents(Pos(), turn)) && IsBitboard(sliders)
    {
      hide Or, Describe, AttacksOf, WF;
      var st := Pos();
      Readable(st);
      var enemies := if turn then blackSet else whiteSet;
      assert enemies == Opponents(st, turn) && AllKnown(st, enemies);
      sliders := BB_EMPTY;
      for k := 0 to |enemies|
        invariant sliders == SlidersOver(st, enemies[..k])
      {
        var piece := enemies[k];
        assert enemies[..k + 1][..k] == enemies[..k] && enemies[..k + 1][k] == piece;
        assert Known(st, piece);
        if piece.HorizontalSlide() || piece.VerticalSlide() || piece.DiagonalSlide() {
          sliders := Or(sliders, game.entries[piece.Name()]);
        }
      }
      assert enemies[..|enemies|] == enemies;
      SlidersOverIsBitboard(st, enemies);
    }

    /** `is_ep_skewered(king_sq, capturer)`: the horizontal sliders of both
        sets on enemy squares, against the rank attacks from the king with
        both pawns lifted. */
    method IsEpSkewered(king: int, capturer: int) returns (r: bool)
      requires Valid() && 0 <= king < 64 && InRange(capturer) && InRange(LastMoveSquare(Pos()))
      ensures r == EpSkewered(Pos(), king, capturer)
    {
      hide And, Not, RankAttacks, SquareBB, HorizontalOver, WF;
      var horizontal := GetHorizontalAttackers();
      Readable(Pos());
      var lastMove := Msb(game.entries["En passant"]) + (if turn == WHITE then -8 else 8);
      var occupancy := And(And(game.entries["All"], Not(SquareBB(lastMove))), Not(SquareBB(capturer)));
      assert occupancy == SkewerOccupancy(Pos(), capturer);
      r := And(RankAttacks(king, occupancy), horizontal) != BB_EMPTY;
    }

    /** The loop of `is_ep_skewered`: the enemy-coloured squares of the
        horizontal sliders of both sets. */
    method GetHorizontalAttackers() returns (horizontal: Bitboard)
      requires Valid()
      ensures AllKnown(Pos(), PieceSet(Pos())) && horizontal == HorizontalOver(Pos(), PieceSet(Pos()))
    {
      hide And, Or, Describe, AttacksOf, WF;
      var st := Pos();
      Readable(st);
      var pieceSet := whiteSet + blackSet;
      PieceSetKnown(st);
      assert pieceSet == PieceSet(st);
      horizontal := BB_EMPTY;
      for k := 0 to |pieceSet|
        invariant horizontal == HorizontalOver(st, pieceSet[..k])
      {
        var piece := pieceSet[k];
        assert pieceSet[..k + 1][..k] == pieceSet[..k] && pieceSet[..k + 1][k] == piece;
        assert Known(st, piece);
        if !piece.HorizontalSlide() {
          continue;
        }
        horizontal := Or(horizontal, And(game.entries[piece.Name()], if turn then game.entries["Black"] else game.entries["White"]));
      }
      assert pieceSet[..|pieceSet|] == pieceSet;
    }

    /** `is_the_move_a_en_passant`. */
    method IsEnPassantMove(m: Move) returns (r: bool)
      requires Valid() && InRange(m.fromSq) && InRange(m.toSq)
      ensures r == Positions.IsEnPassantMove(Pos(), m)
    {
      r := And(game.entries["En passant"], SquareBB(m.toSq)) != BB_EMPTY
        && And(SquareBB(m.fromSq), game.entries["Pawn"]) != BB_EMPTY;
    }

    // ---- the updates ----

    /** The fields no update of the board touches. */
    function Rest(): (int, int, seq<Option<Piece>>, seq<Option<Piece>>)
      reads this
    {
      (halfmoveClock, fullmoveNumber, whiteDeck, blackDeck)
    }

    /** `remove_piece_at(sq)`: toggles the square on the board `get_type_at`
        names, on `All` and on the colour board, and returns the key. */
    method RemovePieceAt(sq: int) returns (key: string)
      requires HasBoards(game) && InRange(sq)
      modifies this
      ensures Pos() == old(Pos()).(game := game) && Rest() == old(Rest())
      ensures (game, key) == Boards.RemovePieceAt(old(game), sq)
      ensures old(Valid()) ==> Valid()
    {
      hide Has, Xor, SquareBB, FirstHolder, Dict.Valid, WF;
      var mask := SquareBB(sq);
      var bbKey := GetTypeAt(sq);
      if bbKey.None? {
        return "";
      }
      key := bbKey.value;
      game := game.Put(key, Xor(game.entries[key], mask));
      game := game.Put("All", Xor(game.entries["All"], mask));
      var color := GetColorAt(sq);
      var ck := if color == Some(WHITE) then "White" else "Black";
      game := game.Put(ck, Xor(game.entries[ck], mask));
      assert (game, key) == Boards.RemovePieceAt(old(game), sq);
      if old(Valid()) {
        Readable(old(Pos()));
        RemoveIsBitboard(old(game), sq);
        SameKeysBoards(old(game), game);
        ReadableWith(old(Pos()), game, turn);
      }
    }

    /** `set_piece_at(sq, name, color)`: empties the square, then sets it on
        the board `name`, on `All` and on the colour board. */
    method SetPieceAt(sq: int, name: string, color: Color)
      requires HasBoards(game) && InRange(sq) && name in game.entries
      modifies this
      ensures Pos() == old(Pos()).(game := game) && Rest() == old(Rest())
      ensures game == Boards.SetPieceAt(old(game), sq, name, color)
      ensures old(Valid()) ==> Valid()
    {
      hide Has, Xor, Or, SquareBB, FirstHolder, Dict.Valid, WF, Boards.RemovePieceAt;
      var mask := SquareBB(sq);
      var _ := RemovePieceAt(sq);
      game := game.Put(name, Or(game.entries[name], mask));
      game := game.Put("All", Or(game.entries["All"], mask));
      var ck := if color then "White" else "Black";
      game := game.Put(ck, Or(game.entries[ck], mask));
      assert game == Boards.SetPieceAt(old(game), sq, name, color);
      if old(Valid()) {
        Readable(old(Pos()));
        SetIsBitboard(old(game), sq, name, color);
        SameKeysBoards(old(game), game);
        ReadableWith(old(Pos()), game, turn);
      }
    }

    /** `clear_en_passant`. */
    method ClearEnPassant()
      modifies this
      ensures Pos() == old(Pos()).(game := game) && Rest() == old(Rest())
      ensures game == Play.ClearEnPassant(old(game))
    {
      game := game.Put("En passant", BB_EMPTY);
    }

    /** `set_en_passant(move)`: adds the square behind the destination. */
    method SetEnPassant(m: Move)
      requires "En passant" in game.entries && InRange(BehindTarget(m, turn))
      modifies this
      ensures Pos() == old(Pos()).(game := game) && Rest() == old(Rest())
      ensures game == Play.SetEnPassant(old(game), m, turn)
    {
      var behind := if turn == WHITE then m.toSq - 8 else m.toSq + 8;
      game := game.Put("En passant", Or(game.entries["En passant"], SquareBB(behind)));
    }

    /** `apply_move(move)`: removes what stands on the origin and sets its
        key on the destination in the colour of the side to move. */
    method ApplyMove(m: Move)
      requires HasBoards(game) && Play.ApplyMove(game, m, turn).Some?
      modifies this
      ensures Pos() == old(Pos()).(game := game) && Rest() == old(Rest())
      ensures game == Play.ApplyMove(old(game), m, turn).value
    {
      hide Has, Xor, Or, SquareBB, FirstHolder, Dict.Valid, WF, Boards.RemovePieceAt, Boards.SetPieceAt;
      var key := RemovePieceAt(m.fromSq);
      assert (game, key) == Boards.RemovePieceAt(old(game), m.fromSq);
      SameKeysBoards(old(game), game);
      SetPieceAt(m.toSq, key, turn);
    }

    /** `is_move_castling(move)`. */
    method IsMoveCastling(m: Move) returns (r: bool)
      requires game.Valid() && InRange(m.toSq)
      ensures r == Play.IsMoveCastling(game, m)
    {
      var key := GetTypeAt(m.toSq);
      r := key == Some("King") && Distance(m.fromSq, m.toSq) == 2;
    }

    /** `can_be_en_passanted(move)`. */
    method CanBeEnPassanted(m: Move) returns (r: bool)
      requires game.Valid() && InRange(m.toSq)
      ensures r == Play.CanBeEnPassanted(game, m)
    {
      var key := GetTypeAt(m.toSq);
      r := key == Some("Pawn") && Distance(m.fromSq, m.toSq) == 2;
    }

    /** `has_been_an_en_passant_capture(move)`. */
    method HasBeenEnPassantCapture(m: Move) returns (r: bool)
      requires game.Valid() && InRange(m.toSq)
      ensures r == Play.HasBeenEnPassantCapture(game, m)
    {
      var key := GetTypeAt(m.toSq);
      r := key == Some("Pawn") && !m.IsGoingStraight();
    }

    /** `update_castling_rights(move)`. */
    method UpdateCastlingRights(m: Move)
      requires game.Valid() && "Castling" in game.entries && InRange(m.fromSq) && InRange(m.toSq)
      modifies this
      ensures Pos() == old(Pos()).(game := game) && Rest() == old(Rest())
      ensures game == Play.UpdateCastlingRights(old(game), m, turn)
    {
      var backrank := if turn == WHITE then BB_RANK_1 else BB_RANK_8;
      var key := GetTypeAt(m.toSq);
      if key == Some("King") {
        game := game.Put("Castling", And(game.entries["Castling"], Not(backrank)));
      } else if And(SquareBB(m.fromSq), game.entries["Castling"]) != BB_EMPTY {
        game := game.Put("Castling", Xor(game.entries["Castling"], SquareBB(m.fromSq)));
      }
    }

    /** `get_additional_castling_move(move)`. */
    method GetAdditionalCastlingMove(m: Move) returns (r: Move)
      ensures r == AdditionalCastlingMove(m, turn)
    {
      var backrank := if turn == WHITE then BB_RANK_1 else BB_RANK_8;
      if m.IsGoingRight() {
        var castlingPieceSq := Msb(And(backrank, BB_FILE_H));
        return Move(castlingPieceSq, m.toSq - 1, None);
      } else {
        var castlingPieceSq := Msb(And(backrank, BB_FILE_A));
        return Move(castlingPieceSq, m.toSq + 1, None);
      }
    }

    /** `push(move)`: clears the en-passant board, applies the move and the
        rook move of a castling, sets the en-passant square after a
        two-square pawn move, removes the pawn behind a pawn that changed
        file, promotes, updates the castling rights, and passes the turn.
        The position stays readable. */
    method Push(m: Move)
      requires Valid() && PushSpec(game, m, turn).Some?
      modifies this
      ensures Pos() == old(Pos()).(game := game, turn := turn) && Rest() == old(Rest())
      ensures game == PushSpec(old(game), m, old(turn)).value && turn == !old(turn)
      ensures Valid()
    {
      hide Has, Xor, Or, And, Not, Msb, SquareBB, FirstHolder, TypeAt, Distance, Dict.Valid, WF;
      hide AfterMoves, FinishWith;
      Readable(Pos());
      ghost var g := game;
      PushApply(m);
      PushFinish(m);
      turn := !turn;
      PushBitboards(g, m, old(turn));
      ReadableWith(old(Pos()), game, turn);
    }

    /** The first part of `push(move)`: clear the en-passant board, apply
        the move, and apply the rook move when the move castled. */
    method PushApply(m: Move)
      requires HasBoards(game) && AfterMoves(game, m, turn).Some?
      modifies this
      ensures Pos() == old(Pos()).(game := game) && Rest() == old(Rest())
      ensures game == AfterMoves(old(game), m, turn).value
    {
      hide Has, Xor, Or, And, Not, Msb, SquareBB, FirstHolder, TypeAt, Distance, Dict.Valid, WF;
      hide Boards.RemovePieceAt, Boards.SetPieceAt, Play.ApplyMove, AdditionalCastlingMove, Play.IsMoveCastling;
      ghost var g := game;
      ClearEnPassant();
      ClearValid(g);
      ApplyMove(m);
      ghost var g2 := game;
      var castling := IsMoveCastling(m);
      if castling {
        var additional := GetAdditionalCastlingMove(m);
        ApplyMove(additional);
      }
      assert CastlingStep(g2, m, turn) == Some(game);
    }

    /** The rest of `push(move)` before the turn passes: the en-passant
        square, the en-passant removal, the promotion and the castling
        rights. */
    method PushFinish(m: Move)
      requires HasBoards(game) && "En passant" in game.entries && InRange(m.fromSq) && InRange(m.toSq)
      requires FinishWith(game, m, turn, true).Some?
      modifies this
      ensures Pos() == old(Pos()).(game := game) && Rest() == old(Rest())
      ensures game == FinishWith(old(game), m, turn, true).value
    {
      hide Has, Xor, Or, And, Not, Msb, SquareBB, FirstHolder, TypeAt, Distance, Dict.Valid, WF;
      hide Boards.RemovePieceAt, Boards.SetPieceAt, Play.ApplyMove, Play.SetEnPassant;
      hide Play.CanBeEnPassanted, Play.HasBeenEnPassantCapture, Play.UpdateCastlingRights;
      ghost var g3 := game;
      var epable := CanBeEnPassanted(m);
      if epable {
        SetEnPassant(m);
      }
      ghost var g4 := game;
      SameKeysBoards(g3, g4);
      var captured := HasBeenEnPassantCapture(m);
      if captured {
        var _ := RemovePieceAt(if turn == WHITE then m.toSq - 8 else m.toSq + 8);
      }
      ghost var g5 := game;
      assert CaptureStep(g4, m, turn, captured) == Some(g5);
      SameKeysBoards(g4, g5);
      if m.IsPromotion() {
        SetPieceAt(m.toSq, m.promotion.value.Name(), turn);
      }
      ghost var g6 := game;
      SameKeysBoards(g5, g6);
      UpdateCastlingRights(m);
    }

    // ---- the move generators ----

    /** The moves of one origin and destination: one per promotion piece
        of the side to move, in the order of its list. */
    method PromotionsFor(from: int, to: int) returns (moves: seq<Move>)
      ensures moves == PromotionMoves(from, to, Pos().PromOf(turn))
    {
      var proms := if turn == WHITE then whiteProm else blackProm;
      moves := [];
      for j := 0 to |proms|
        invariant moves + PromotionMoves(from, to, proms[j..]) == PromotionMoves(from, to, proms)
      {
        assert proms[j..][0] == proms[j] && proms[j..][1..] == proms[j + 1..];
        moves := moves + [Move(from, to, Some(proms[j]))];
      }
      assert proms[|proms|..] == [];
    }

    /** The inner loop of `gen_attack_moves`: the moves from `from` to each
        square of `tos`, promoting when a pawn reaches the first or last
        rank. */
    method AttackMovesTo(from: int, tos: seq<int>) returns (moves: seq<Move>)
      requires game.Valid() && 0 <= from < 64
      ensures moves == TargetMoves(Pos(), from, tos)
    {
      hide TypeAt, PromotionMoves;
      moves := [];
      for j := 0 to |tos|
        invariant moves + TargetMoves(Pos(), from, tos[j..]) == TargetMoves(Pos(), from, tos)
      {
        var to := tos[j];
        assert tos[j..][0] == to && tos[j..][1..] == tos[j + 1..];
        var promotes := Rank(to) == 0 || Rank(to) == 7;
        if promotes {
          var key := GetTypeAt(from);
          promotes := key == Some("Pawn");
        }
        assert promotes == AttackPromotes(Pos(), from, to);
        var ms: seq<Move>;
        if promotes {
          ms := PromotionsFor(from, to);
        } else {
          ms := [Move(from, to, None)];
        }
        assert ms == Expand(Pos(), from, to, promotes);
        assert TargetMoves(Pos(), from, tos[j..]) == ms + TargetMoves(Pos(), from, tos[j + 1..]);
        moves := moves + ms;
      }
      assert tos[|tos|..] == [];
    }

    /** The moves `gen_attack_moves` yields from one origin. */
    method AttackMovesOf(from: int, condition: Bitboard, end: Bitboard) returns (ms: seq<Move>)
      requires Valid() && 0 <= from < 64
      ensures ms == TargetMoves(Pos(), from, Squares(AttackTargets(Pos(), from, condition, end)))
    {
      hide TargetMoves, WF, Describe, AttacksOf, Dict.Valid;
      var st := Pos();
      Readable(st);
      var mask := GetMaskAttack(from);
      MaskAttackIsBitboard(st, from);
      AndBitboard(mask, condition);
      AndBitboard(And(mask, condition), end);
      var bbMoves := And(And(mask, condition), end);
      var tos := ScanReversed(bbMoves);
      ms := AttackMovesTo(from, tos);
    }

    /** `gen_attack_moves(pieces, condition, start_mask, end_mask)`. */
    method GenAttackMoves(pieces: Bitboard, condition: Bitboard, start: Bitboard, end: Bitboard) returns (moves: seq<Move>)
      requires Valid() && IsBitboard(pieces)
      ensures moves == AttackMoves(Pos(), pieces, condition, start, end)
    {
      hide And, Has, MaskAttack, TargetMoves, AttackTargets, WF, Describe, AttacksOf, Dict.Valid, Squares;
      var st := Pos();
      AndBitboard(pieces, start);
      var froms := ScanSquares(And(pieces, start));
      moves := [];
      for k := 0 to |froms|
        invariant moves + AttackMovesFrom(st, froms[k..], condition, end) == AttackMovesFrom(st, froms, condition, end)
      {
        var ms := AttackMovesOf(froms[k], condition, end);
        AttackMovesStep(st, froms, k, condition, end);
        moves := moves + ms;
      }
      assert froms[|froms|..] == [];
    }

    /** The move `gen_push_pawns` yields from one pawn, if any. */
    method PushOf(from: int, distance: int, end: Bitboard) returns (ms: seq<Move>)
      requires game.Valid() && 0 <= from < 64 && InRange(from + Forward(turn, distance))
      ensures ms == PushFrom(Pos(), [from], distance, end)
    {
      hide TypeAt, PromotionMoves, Dict.Valid;
      var to := from + (if turn == WHITE then distance else -distance);
      assert to == from + Forward(turn, distance);
      var key := GetTypeAt(to);
      ms := [];
      if key.None? && And(SquareBB(to), end) != BB_EMPTY {
        if Rank(to) == 0 || Rank(to) == 7 {
          ms := PromotionsFor(from, to);
        } else {
          ms := [Move(from, to, None)];
        }
      }
      assert [from][1..] == [];
    }

    /** `gen_push_pawns(bb_pawns, distance, start_mask, end_mask)`. */
    method GenPushPawns(pawns: Bitboard, distance: int, start: Bitboard, end: Bitboard) returns (moves: seq<Move>)
      requires game.Valid() && IsBitboard(pawns) && PushesInRange(Pos(), pawns, distance)
      ensures moves == PushMoves(Pos(), pawns, distance, start, end)
    {
      hide And, Has, TypeAt, PromotionMoves, SquareBB, Dict.Valid, Forward, InRange, Squares, PushFrom;
      var st := Pos();
      AndBitboard(pawns, start);
      SquaresOfAnd(st, pawns, start, distance);
      var froms := ScanSquares(And(pawns, start));
      moves := [];
      for k := 0 to |froms|
        invariant moves + PushFrom(st, froms[k..], distance, end) == PushFrom(st, froms, distance, end)
      {
        var ms := PushOf(froms[k], distance, end);
        PushFromStep(st, froms, k, distance, end);
        moves := moves + ms;
      }
      assert froms[|froms|..] == [];
      PushFromNone(st, distance, end);
    }

    /** The two tests `gen_castling_moves` puts a candidate to: nothing
        between it and the king, and no square of the king's path attacked;
        and, for a candidate that passes, the king's destination. */
    method CastlingTest(king: Bitboard, kingSq: int, candidate: int) returns (clear: bool, to: int)
      requires Valid() && IsBitboard(king) && 0 <= kingSq < 64 && 0 <= candidate < 64 && PathInRange(Pos(), kingSq, candidate)
      ensures clear == CastlingClear(Pos(), kingSq, candidate)
      ensures clear ==> to == CastlingDestination(king, kingSq, candidate)
    {
      hide Between, And, Positions.IsBitboardAttacked, WF, Shift2Right, Shift2Left;
      Readable(Pos());
      var space := Between(candidate, kingSq);
      if And(space, game.entries["All"]) != BB_EMPTY {
        return false, -1;
      }
      var movement := Between(kingSq, if Abs(candidate - kingSq) < 4 then candidate else candidate + 1);
      BetweenIsBitboard(kingSq, PathEnd(kingSq, candidate));
      var attacked := IsBitboardAttacked(movement, !turn);
      if attacked {
        return false, -1;
      }
      Shift2RightSquares(king);
      ShiftLeftSquares(king);
      if File(kingSq) < File(candidate) {
        to := Msb(Shift2Right(king));
      } else {
        to := Msb(Shift2Left(king));
      }
      clear := true;
    }

    /** The castling rights on the back rank of the side to move, as
        `scan_reversed` lists them. */
    method CastlingCandidatesOf() returns (cands: seq<int>)
      requires Valid()
      ensures cands == Squares(CastlingCandidates(Pos()))
    {
      hide And, Squares, WF, Describe, AttacksOf, Dict.Valid;
      Readable(Pos());
      var backrank := if turn == WHITE then BB_RANK_1 else BB_RANK_8;
      AndBitboard(game.entries["Castling"], backrank);
      cands := ScanSquares(And(game.entries["Castling"], backrank));
    }

    /** `gen_castling_moves(start_mask, end_mask)`. */
    method GenCastlingMoves(start: Bitboard, end: Bitboard) returns (moves: seq<Move>)
      requires Valid() && CastlingFits(Pos(), start)
      ensures moves == CastlingMoves(Pos(), start, end)
    {
      hide And, Has, SquareBB, CastlingClear, CastlingFrom, CastlingDestination, CastlingInRange, CastlingCandidates, Squares, PathEnd, WF, Describe, AttacksOf, Dict.Valid;
      var st := Pos();
      Readable(st);
      var king := And(game.entries["King"], game.entries[if turn then "White" else "Black"]);
      assert king == KingBoard(st, turn);
      if And(king, start) == BB_EMPTY {
        return [];
      }
      CastlingReady(st, start);
      var kingSq := Msb(king);
      var cands := CastlingCandidatesOf();
      moves := [];
      for k := 0 to |cands|
        invariant moves + CastlingFrom(st, cands[k..], king, kingSq, end) == CastlingFrom(st, cands, king, kingSq, end)
      {
        CastlingFromStep(st, cands, k, king, kingSq, end);
        var clear, to := CastlingTest(king, kingSq, cands[k]);
        if clear {
          if And(SquareBB(to), end) == BB_EMPTY {
            return;
          }
          moves := moves + [Move(kingSq, to, None)];
        }
      }
      assert cands[|cands|..] == [];
      CastlingFromNone(st, king, kingSq, end);
    }

    /** `gen_pseudo_moves(start_mask, end_mask)`. */
    method GenPseudoMoves(start: Bitboard, end: Bitboard) returns (moves: seq<Move>)
      requires Valid() && Generable(Pos(), start)
      ensures moves == PseudoMoves(Pos(), start, end)
    {
      hide And, Or, Not, Has, AttackMoves, PushMoves, CastlingMoves, PushesInRange, CastlingInRange, WF, Describe, AttacksOf, Dict.Valid;
      var st := Pos();
      Readable(st);
      var mine := if turn == WHITE then game.entries["White"] else game.entries["Black"];
      var theirs := if turn == WHITE then game.entries["Black"] else game.entries["White"];
      var pawns := And(game.entries["Pawn"], mine);
      var others := And(mine, Not(game.entries["Pawn"]));
      AndBitboard(mine, Not(game.entries["Pawn"]));
      AndBitboard(game.entries["Pawn"], mine);
      var attackMoves := GenAttackMoves(others, Not(mine), start, end);
      var captures := GenAttackMoves(pawns, Or(theirs, game.entries["En passant"]), start, end);
      var double := if turn == WHITE then And(And(game.entries["Pawn"], game.entries["White"]), BB_RANK_2)
                    else And(And(game.entries["Pawn"], game.entries["Black"]), BB_RANK_7);
      var single := if turn == WHITE then And(game.entries["Pawn"], game.entries["White"])
                    else And(game.entries["Pawn"], game.entries["Black"]);
      assert single == OwnPawns(st) && double == DoublePawns(st);
      DoublePushesInRange(st);
      DoublePawnsIsBitboard(st);
      var pushes := GenPushPawns(single, 8, start, end);
      var doubles := GenPushPawns(double, 16, start, end);
      var castlings := GenCastlingMoves(start, end);
      moves := attackMoves + captures + pushes + doubles + castlings;
    }

    /** The king steps of `gen_scape_moves`: to each escape square, highest
        first. */
    method KingEscapes(kingSq: int, attackers: Bitboard) returns (moves: seq<Move>)
      requires Valid() && 0 <= kingSq < 64
      ensures moves == KingSteps(kingSq, Squares(EscapeSquares(Pos(), kingSq, attackers)))
    {
      hide And, Not, Has, MaskAttack, AttackedBySliders, Squares, WF, Describe, AttacksOf, Dict.Valid;
      var st := Pos();
      Readable(st);
      var kingAttacks := GetMaskAttack(kingSq);
      var attacked := GetAttackedSquaresBySliders(kingSq, attackers);
      MaskAttackIsBitboard(st, kingSq);
      var mine := game.entries[if turn then "White" else "Black"];
      AndBitboard(kingAttacks, Not(mine));
      AndBitboard(And(kingAttacks, Not(mine)), Not(attacked));
      var tos := ScanSquares(And(And(kingAttacks, Not(mine)), Not(attacked)));
      moves := [];
      for j := 0 to |tos|
        invariant |moves| == j && forall i | 0 <= i < j :: moves[i] == Move(kingSq, tos[i], None)
      {
        moves := moves + [Move(kingSq, tos[j], None)];
      }
    }

    /** What the other pieces must reach against a single attacker: the
        squares between it and the king and the attacker itself for a
        slider, the attacker alone for a stepper. */
    method BlockTargetsOf(attackers: Bitboard, kingSq: int) returns (targets: Bitboard)
      requires Valid() && kingSq == KingSquare(Pos(), turn) && 0 <= kingSq
      requires attackers != BB_EMPTY && IsOneBitOn(attackers) && ScapeTyped(Pos(), attackers)
      ensures targets == ScapeTargets(Pos(), attackers)
    {
      hide Or, Between, KingSquare, WF, Describe, AttacksOf, Dict.Valid;
      Readable(Pos());
      var attackerSq := Msb(attackers);
      var name := GetTypeAt(attackerSq);
      var d := attacks[name.value];
      targets := BB_EMPTY;
      if d.diagonal || d.horizontal || d.vertical {
        targets := Or(Between(attackerSq, kingSq), attackers);
      } else if d.step.Step? || d.step.Steps? {
        targets := Or(targets, attackers);
      }
    }

    /** `gen_scape_moves(attackers)`. */
    method GenScapeMoves(attackers: Bitboard) returns (moves: seq<Move>)
      requires Valid() && PushesInRange(Pos(), OwnPawns(Pos()), 8) && 0 <= KingSquare(Pos(), turn)
      requires attackers != BB_EMPTY && ScapeTyped(Pos(), attackers)
      ensures moves == ScapeMoves(Pos(), attackers)
    {
      hide And, Or, Not, Has, EscapeSquares, ScapeTargets, PseudoMoves, KingSteps, ScapeTyped, Squares, KingSquare, IsOneBitOn, WF, Describe, AttacksOf, Dict.Valid;
      var st := Pos();
      Readable(st);
      var kingBB := And(game.entries["King"], game.entries[if turn then "White" else "Black"]);
      assert kingBB == KingBoard(st, turn);
      var kingSq := GetKingSquare(turn);
      moves := KingEscapes(kingSq, attackers);
      if IsOneBitOn(attackers) {
        var targets := BlockTargetsOf(attackers, kingSq);
        if targets != BB_EMPTY {
          NoCastlingWithoutKing(st, targets);
          var blocks := GenPseudoMoves(Not(kingBB), targets);
          moves := moves + blocks;
        }
      }
    }

    /** `get_king_square(color)`. */
    method GetKingSquare(color: Color) returns (sq: int)
      requires Valid()
      ensures sq == KingSquare(Pos(), color)
    {
      Readable(Pos());
      sq := Msb(And(game.entries["King"], game.entries[if color then "White" else "Black"]));
    }

    /** `is_safe(king_sq, move, blockers)`. */
    method IsSafe(kingSq: int, m: Move, blockers: Bitboard) returns (r: bool)
      requires Valid() && 0 <= kingSq < 64 && Checkable(Pos(), m)
      ensures r == Safe(Pos(), kingSq, m, blockers)
    {
      hide And, Positions.IsSquareAttacked, EpSkewered, Positions.IsEnPassantMove, Play.IsMoveCastling, RayEntry, WF;
      Readable(Pos());
      if m.fromSq == kingSq {
        var castling := IsMoveCastling(m);
        if castling {
          return true;
        }
        var attacked := IsSquareAttacked(m.toSq, !turn);
        return !attacked;
      }
      var enPassant := IsEnPassantMove(m);
      if enPassant {
        if And(blockers, SquareBB(m.fromSq)) != BB_EMPTY {
          return false;
        }
        var skewered := IsEpSkewered(kingSq, m.fromSq);
        return !skewered;
      }
      r := And(blockers, SquareBB(m.fromSq)) == BB_EMPTY
        || And(RayEntry(Norm(m.fromSq), Norm(m.toSq)), SquareBB(kingSq)) != BB_EMPTY;
    }

    /** The candidates of `gen_legal_moves`: the escape moves when the king
        has attackers, every pseudo move otherwise. */
    method GenCandidates(kingSq: int) returns (candidates: seq<Move>)
      requires Valid() && Playable(Pos()) && kingSq == KingSquare(Pos(), turn)
      ensures candidates == Candidates(Pos())
    {
      hide ScapeMoves, PseudoMoves, Attackers, ScapeTyped, KingSquare, WF, Describe, AttacksOf, Dict.Valid;
      var attackers := GetAttackersOfSquare(kingSq, !turn);
      if attackers != BB_EMPTY {
        candidates := GenScapeMoves(attackers);
      } else {
        candidates := GenPseudoMoves(BB_ALL, BB_ALL);
      }
    }

    /** The loop of `gen_legal_moves`: the candidates `is_safe` accepts, in
        order. */
    method FilterSafe(kingSq: int, blockers: Bitboard, candidates: seq<Move>) returns (moves: seq<Move>)
      requires Valid() && 0 <= kingSq < 64 && forall i | 0 <= i < |candidates| :: Checkable(Pos(), candidates[i])
      ensures moves == SafeOnes(Pos(), kingSq, blockers, candidates)
    {
      hide Safe, Checkable, WF, Describe, AttacksOf, Dict.Valid;
      var st := Pos();
      moves := [];
      for j := 0 to |candidates|
        invariant moves + SafeOnes(st, kingSq, blockers, candidates[j..]) == SafeOnes(st, kingSq, blockers, candidates)
      {
        SafeOnesStep(st, kingSq, blockers, candidates, j);
        var safe := IsSafe(kingSq, candidates[j], blockers);
        if safe {
          moves := moves + [candidates[j]];
        }
      }
      assert candidates[|candidates|..] == [];
    }

    /** `gen_legal_moves()`: every candidate `is_safe` accepts, in order. */
    method GenLegalMoves() returns (moves: seq<Move>)
      requires Valid() && Playable(Pos())
      ensures moves == LegalMoves(Pos())
    {
      hide Safe, Checkable, Candidates, SafeOnes, Blockers, Generable, ScapeTyped, Attackers, LastMoveSquare, WF, Describe, AttacksOf, Dict.Valid;
      var st := Pos();
      Readable(st);
      var kingBB := And(game.entries["King"], game.entries[if turn then "White" else "Black"]);
      var kingSq := Msb(kingBB);
      assert kingSq == KingSquare(st, turn);
      var blockers := GetBlockers(kingSq, turn);
      var candidates := GenCandidates(kingSq);
      forall i | 0 <= i < |candidates|
        ensures Checkable(st, candidates[i])
      {
        CandidateCheckable(st, candidates[i]);
      }
      moves := FilterSafe(kingSq, blockers, candidates);
    }

    /** `get_status_game()`. */
    method GetStatusGame() returns (r: Resolution)
      requires Valid() && Playable(Pos())
      ensures r == Status(Pos())
    {
      hide LegalMoves, Positions.IsSquareAttacked, KingSquare, Playable, WF;
      var legal := GenLegalMoves();
      if |legal| == 0 {
        var kingSq := GetKingSquare(turn);
        var attacked := IsSquareAttacked(kingSq, !turn);
        if attacked {
          return if turn == BLACK then WhiteWins else BlackWins;
        }
        return DrawByStalemate;
      }
      return Ongoing;
    }
  }
}
