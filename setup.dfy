/** How `ChessDeck` fills its board dictionary and its attack descriptions:
    `reset_game` and `load_deck` (the starting boards with the pawns, the
    castling corners and each side's deck on its back rank), `clear_game`
    and `create_dict_attacks`; with the proof that a freshly reset board is
    read consistently square by square. */
module Setup {
  import opened Bits
  import opened Wrappers
  import opened Computer
  import opened Pieces
  import opened Dicts
  import opened Boards
  import opened Decks
  import opened AttackTables
  import opened Play

  // ---- reset_game and load_deck ----

  /** The dictionary `reset_game` starts from, keys in insertion order: the
      pawns on the second and seventh ranks, the castling rights on the four
      corners, no en-passant square. */
  function StartBoards(): (r: Dict)
    ensures r.Valid()
    ensures r.entries.Keys == {"Pawn", "White", "Black", "All", "Castling", "En passant"}
  {
    hide Or, RankBB, SquareBB, Shl;
    Dict(["Pawn", "White", "Black", "All", "Castling", "En passant"],
         map["Pawn" := Or(BB_RANK_2, BB_RANK_7), "White" := BB_RANK_2, "Black" := BB_RANK_7,
             "All" := Or(BB_RANK_2, BB_RANK_7), "Castling" := BB_CORNERS, "En passant" := BB_EMPTY])
  }

  /** `(BB_RANK_1 if color else BB_RANK_8) & BB_FILES[position]`: the
      back-rank square of a deck position. */
  function DeckSquare(position: int, color: Color): Bitboard
    requires 0 <= position < 8
  {
    And(BackRank(color), FileBB(position))
  }

  /** The back-rank square of a deck position is the one square of the side's
      back rank on that file. */
  lemma HasDeckSquare(position: int, color: Color, t: int)
    requires 0 <= position < 8 && 0 <= t
    ensures Has(DeckSquare(position, color), t) == (t < 64 && Rank(t) == HomeRank(color) && File(t) == position)
  {
    HasAnd(BackRank(color), FileBB(position), t);
    HasRank(HomeRank(color), t);
    HasFile(position, t);
  }

  /** The rank of a side's back rank. */
  function HomeRank(color: Color): int {
    if color == WHITE then 0 else 7
  }

  /** The name a deck entry adds to the dictionary, if any. */
  function SlotNames(slot: Slot): set<string> {
    if slot.Some? then {slot.value.Name()} else {}
  }

  /** The names the entries of a deck add. */
  function DeckNames(deck: seq<Slot>): set<string> {
    if deck == [] then {} else DeckNames(deck[..|deck| - 1]) + SlotNames(deck[|deck| - 1])
  }

  /** One entry of `load_deck`: nothing for `None`; otherwise the square is
      added to the piece's board (created when missing), to the side's
      board and to `All`. */
  function PlaceSlot(g: Dict, slot: Slot, position: int, color: Color): (r: Dict)
    requires g.Valid() && 0 <= position < 8 && ColorKey(color) in g.entries && "All" in g.entries
    ensures r.entries.Keys == g.entries.Keys + SlotNames(slot)
    ensures r.Valid()
  {
    if slot.None? then g
    else
      var bb := DeckSquare(position, color);
      var name := slot.value.Name();
      var g1 := if name !in g.entries then g.Put(name, bb) else g.Put(name, Or(g.entries[name], bb));
      var g2 := g1.Put(ColorKey(color), Or(g1.entries[ColorKey(color)], bb));
      var r := g2.Put("All", Or(g2.entries["All"], bb));
      PutValid(g, name, g1.entries[name]);
      PutValid(g1, ColorKey(color), g2.entries[ColorKey(color)]);
      PutValid(g2, "All", r.entries["All"]);
      r
  }

  /** `load_deck(deck, color)`: the entries placed in order, position by
      position. */
  function DeckBoards(g: Dict, deck: seq<Slot>, color: Color): (r: Dict)
    requires g.Valid() && |deck| <= 8 && ColorKey(color) in g.entries && "All" in g.entries
    ensures r.entries.Keys == g.entries.Keys + DeckNames(deck)
    ensures r.Valid()
    decreases |deck|
  {
    if deck == [] then g
    else PlaceSlot(DeckBoards(g, deck[..|deck| - 1], color), deck[|deck| - 1], |deck| - 1, color)
  }

  /** `load_deck` one entry further: the boards of the first `n` entries,
      then entry `n` placed. */
  lemma DeckBoardsStep(g: Dict, deck: seq<Slot>, n: int, color: Color)
    requires g.Valid() && |deck| <= 8 && ColorKey(color) in g.entries && "All" in g.entries && 0 <= n < |deck|
    ensures DeckBoards(g, deck[..n + 1], color) == PlaceSlot(DeckBoards(g, deck[..n], color), deck[n], n, color)
  {
    hide PlaceSlot, Dict.Valid;
    assert deck[..n + 1][..n] == deck[..n];
  }

  /** An empty deck entry changes nothing. */
  lemma PlaceSlotNone(g: Dict, position: int, color: Color)
    requires g.Valid() && 0 <= position < 8 && ColorKey(color) in g.entries && "All" in g.entries
    ensures PlaceSlot(g, None, position, color) == g
  {
  }

  /** Loading no entry changes nothing. */
  lemma DeckBoardsNone(g: Dict, deck: seq<Slot>, color: Color)
    requires g.Valid() && |deck| <= 8 && ColorKey(color) in g.entries && "All" in g.entries
    ensures DeckBoards(g, deck[..0], color) == g
  {
  }

  /** Every piece of a deck and the pawns have a board after the reset. */
  lemma ResetNames(white: seq<Slot>, black: seq<Slot>, p: Piece)
    requires |white| <= 8 && |black| <= 8
    requires Some(p) in white || Some(p) in black || p.kind == Pawn
    ensures p.Name() in ResetBoards(white, black).entries
  {
    hide Or, RankBB, SquareBB, Shl, DeckBoards, StartBoards, DeckNames, Dict.Valid;
    if Some(p) in white {
      var i :| 0 <= i < |white| && white[i] == Some(p);
      DeckNamesMembers(white, p.Name());
    } else if Some(p) in black {
      var i :| 0 <= i < |black| && black[i] == Some(p);
      DeckNamesMembers(black, p.Name());
    }
  }

  /** `reset_game()`: the starting boards, then the white deck, then the
      black deck. */
  function ResetBoards(white: seq<Slot>, black: seq<Slot>): (r: Dict)
    requires |white| <= 8 && |black| <= 8
    ensures r.Valid()
    ensures r.entries.Keys == StartBoards().entries.Keys + DeckNames(white) + DeckNames(black)
  {
    DeckBoards(DeckBoards(StartBoards(), white, WHITE), black, BLACK)
  }

  /** Square `t` is the back-rank square of a deck position holding a
      piece. */
  predicate DeckHolds(deck: seq<Slot>, color: Color, t: int) {
    0 <= t < 64 && Rank(t) == HomeRank(color) && File(t) < |deck| && deck[File(t)].Some?
  }

  /** A name is added by a deck exactly when some entry holds a piece of
      that name. */
  lemma {:induction false} DeckNamesMembers(deck: seq<Slot>, k: string)
    ensures k in DeckNames(deck) <==> exists i | 0 <= i < |deck| :: deck[i].Some? && deck[i].value.Name() == k
    decreases |deck|
  {
    hide Piece.Name, Describe;
    if deck != [] {
      var n := |deck| - 1;
      DeckNamesMembers(deck[..n], k);
      if k in DeckNames(deck[..n]) {
        var i :| 0 <= i < n && deck[..n][i].Some? && deck[..n][i].value.Name() == k;
        assert deck[i] == deck[..n][i];
      }
      if exists i | 0 <= i < |deck| :: deck[i].Some? && deck[i].value.Name() == k {
        var i :| 0 <= i < |deck| && deck[i].Some? && deck[i].value.Name() == k;
        if i < n {
          assert deck[..n][i] == deck[i];
        }
      }
    }
  }

  /** One entry of `load_deck`, bit by bit: a board has a square when it
      had it before, or when the entry holds a piece, the square is the
      entry's back-rank square and the board is the piece's, the side's or
      `All`. */
  lemma PlaceSlotBits(g: Dict, slot: Slot, position: int, color: Color, k: string, t: int)
    requires g.Valid() && 0 <= position < 8 && ColorKey(color) in g.entries && "All" in g.entries
    requires 0 <= t && k in PlaceSlot(g, slot, position, color).entries
    ensures Has(PlaceSlot(g, slot, position, color).entries[k], t) ==
      ((k in g.entries && Has(g.entries[k], t))
       || (slot.Some? && Has(DeckSquare(position, color), t) && (k == slot.value.Name() || k == ColorKey(color) || k == "All")))
  {
    hide DeckSquare, Or, Has, Piece.Name, Describe;
    if slot.Some? {
      var bb := DeckSquare(position, color);
      var name := slot.value.Name();
      var g1 := if name !in g.entries then g.Put(name, bb) else g.Put(name, Or(g.entries[name], bb));
      var g2 := g1.Put(ColorKey(color), Or(g1.entries[ColorKey(color)], bb));
      if name in g.entries {
        HasOr(g.entries[name], bb, t);
      }
      HasOr(g1.entries[ColorKey(color)], bb, t);
      HasOr(g2.entries["All"], bb, t);
    }
  }

  /** The part of `load_deck` that sets square `t` on board `k`: the deck
      holds a piece there and `k` is its board, the side's or `All`. */
  predicate DeckBit(deck: seq<Slot>, color: Color, k: string, t: int) {
    DeckHolds(deck, color, t) && (k == deck[File(t)].value.Name() || k == ColorKey(color) || k == "All")
  }

  /** The last entry of a deck sets only its own back-rank square. */
  lemma DeckBitStep(deck: seq<Slot>, color: Color, k: string, t: int)
    requires 0 < |deck| <= 8 && 0 <= t
    ensures DeckBit(deck, color, k, t) ==
      (DeckBit(deck[..|deck| - 1], color, k, t)
       || (deck[|deck| - 1].Some? && Has(DeckSquare(|deck| - 1, color), t)
           && (k == deck[|deck| - 1].value.Name() || k == ColorKey(color) || k == "All")))
  {
    hide DeckSquare, Piece.Name, Describe;
    var n := |deck| - 1;
    HasDeckSquare(n, color, t);
    if DeckHolds(deck, color, t) && File(t) < n {
      assert deck[..n][File(t)] == deck[File(t)];
    }
  }

  /** A board a deck sets a square on is its side's, `All` or one of its
      pieces'. */
  lemma DeckBitKey(deck: seq<Slot>, color: Color, k: string, t: int)
    requires DeckBit(deck, color, k, t)
    ensures k in DeckNames(deck) || k == ColorKey(color) || k == "All"
  {
    hide Piece.Name, Describe;
    DeckNamesMembers(deck, k);
  }

  /** `load_deck`, bit by bit: a board has a square when it had it before,
      or when the deck holds a piece on that back-rank square and the board
      is that piece's, the side's or `All`. */
  lemma {:induction false} DeckBoardsBits(g: Dict, deck: seq<Slot>, color: Color, k: string, t: int)
    requires g.Valid() && |deck| <= 8 && ColorKey(color) in g.entries && "All" in g.entries
    requires 0 <= t && k in DeckBoards(g, deck, color).entries
    ensures Has(DeckBoards(g, deck, color).entries[k], t) ==
      ((k in g.entries && Has(g.entries[k], t)) || DeckBit(deck, color, k, t))
    decreases |deck|
  {
    if deck != [] {
      hide DeckSquare, Or, Has, Piece.Name, Describe, PlaceSlot, DeckBit, DeckNames;
      var n := |deck| - 1;
      var prev := DeckBoards(g, deck[..n], color);
      PlaceSlotBits(prev, deck[n], n, color, k, t);
      DeckBitStep(deck, color, k, t);
      if k in prev.entries {
        DeckBoardsBits(g, deck[..n], color, k, t);
      } else if DeckBit(deck[..n], color, k, t) {
        DeckBitKey(deck[..n], color, k, t);
      }
    }
  }

  /** What the starting boards hold: the pawns on the second and seventh
      ranks, white on the second, black on the seventh, the rights on the
      corners, no en-passant square. */
  lemma StartBits(k: string, t: int)
    requires 0 <= t && k in StartBoards().entries
    ensures Has(StartBoards().entries[k], t) == StartBit(k, t)
  {
    hide Or, RankBB, SquareBB, Shl, Has, And;
    HasOr(BB_RANK_2, BB_RANK_7, t);
    HasRank(1, t);
    HasRank(6, t);
    HasCorners(t);
    HasZero(t);
  }

  /** A piece's name is the key of a piece-type board. */
  lemma NameIsPieceKey(p: Piece)
    ensures PieceKey(p.Name())
  {
    hide Or, RankBB, SquareBB, Shl;
  }

  /** The piece key `reset_game` puts on square `t`, if any. */
  function ResetHolder(white: seq<Slot>, black: seq<Slot>, t: int): Option<string>
    requires 0 <= t < 64
  {
    if Rank(t) == 1 || Rank(t) == 6 then Some("Pawn")
    else if DeckHolds(white, WHITE, t) then Some(white[File(t)].value.Name())
    else if DeckHolds(black, BLACK, t) then Some(black[File(t)].value.Name())
    else None
  }

  /** The colour `reset_game` gives square `t`, if any. */
  function ResetColor(white: seq<Slot>, black: seq<Slot>, t: int): Option<Color>
    requires 0 <= t < 64
  {
    if Rank(t) == 1 || DeckHolds(white, WHITE, t) then Some(WHITE)
    else if Rank(t) == 6 || DeckHolds(black, BLACK, t) then Some(BLACK)
    else None
  }

  /** What the starting boards put on square `t` of board `k`. */
  predicate StartBit(k: string, t: int) {
    t < 64 &&
    (((k == "Pawn" || k == "All") && (Rank(t) == 1 || Rank(t) == 6))
     || (k == "White" && Rank(t) == 1)
     || (k == "Black" && Rank(t) == 6)
     || (k == "Castling" && (t == 0 || t == 7 || t == 56 || t == 63)))
  }

  /** Only the starting boards' keys have a starting bit. */
  lemma StartBitKey(k: string, t: int)
    ensures StartBit(k, t) ==> k in StartBoards().entries
  {
    hide Or, RankBB, SquareBB, Shl, StartBoards;
  }

  /** `reset_game`, bit by bit, stage by stage: the starting boards, the
      white deck, the black deck. */
  lemma ResetStages(white: seq<Slot>, black: seq<Slot>, k: string, t: int)
    requires |white| <= 8 && |black| <= 8 && 0 <= t && k in ResetBoards(white, black).entries
    ensures Has(ResetBoards(white, black).entries[k], t) ==
      (StartBit(k, t) || DeckBit(white, WHITE, k, t) || DeckBit(black, BLACK, k, t))
  {
    hide Or, RankBB, SquareBB, Shl, Has, And, Piece.Name, Describe, DeckBoards, StartBoards, DeckBit, StartBit;
    var g0 := StartBoards();
    var g1 := DeckBoards(g0, white, WHITE);
    DeckBoardsBits(g1, black, BLACK, k, t);
    if k in g1.entries {
      DeckBoardsBits(g0, white, WHITE, k, t);
      if k in g0.entries {
        StartBits(k, t);
      } else {
        StartBitKey(k, t);
      }
    } else {
      StartBitKey(k, t);
      if DeckBit(white, WHITE, k, t) {
        DeckBitKey(white, WHITE, k, t);
      }
    }
  }

  /** What the reset sets on square `t` of board `k`, read as the piece,
      colour and castling right the square gets. */
  predicate ResetBit(white: seq<Slot>, black: seq<Slot>, k: string, t: int) {
    0 <= t < 64 &&
    (Some(k) == ResetHolder(white, black, t)
     || (ResetColor(white, black, t).Some? && (k == ColorKey(ResetColor(white, black, t).value) || k == "All"))
     || (k == "Castling" && (t == 0 || t == 7 || t == 56 || t == 63)))
  }

  /** The stages of the reset add up to the piece, colour and castling right
      of each square. */
  lemma StagesAreResetBit(white: seq<Slot>, black: seq<Slot>, k: string, t: int)
    requires 0 <= t
    ensures (StartBit(k, t) || DeckBit(white, WHITE, k, t) || DeckBit(black, BLACK, k, t)) == ResetBit(white, black, k, t)
  {
    hide Piece.Name, Describe;
    if t < 64 {
      CoordinatesOfSquare(t);
      if Rank(t) == 0 {
        assert !DeckHolds(black, BLACK, t);
      } else if Rank(t) == 7 {
        assert !DeckHolds(white, WHITE, t);
      } else {
        assert !DeckHolds(white, WHITE, t) && !DeckHolds(black, BLACK, t);
      }
    }
  }

  /** `reset_game`, bit by bit: every board has square `t` exactly when it
      is the board of the piece the reset puts there, of its colour, `All`
      for an occupied square, or the castling board on a corner. */
  lemma ResetBits(white: seq<Slot>, black: seq<Slot>, k: string, t: int)
    requires |white| <= 8 && |black| <= 8 && 0 <= t && k in ResetBoards(white, black).entries
    ensures Has(ResetBoards(white, black).entries[k], t) == ResetBit(white, black, k, t)
  {
    hide Has, Piece.Name, Describe, ResetBoards, StartBit, DeckBit, ResetBit;
    ResetStages(white, black, k, t);
    StagesAreResetBit(white, black, k, t);
  }

  /** A square whose boards say exactly what the reset puts there is read
      consistently. */
  lemma ResetBitColumnOK(white: seq<Slot>, black: seq<Slot>, t: int, col: map<string, bool>)
    requires 0 <= t < 64 && "All" in col && "White" in col && "Black" in col
    requires forall k | k in col :: col[k] == ResetBit(white, black, k, t)
    requires ResetHolder(white, black, t).Some? ==>
      ResetHolder(white, black, t).value in col && PieceKey(ResetHolder(white, black, t).value)
    ensures ColumnOK(col)
  {
    hide Piece.Name, Describe;
    CoordinatesOfSquare(t);
    assert ResetHolder(white, black, t).Some? <==> ResetColor(white, black, t).Some?;
  }

  /** Every square of a reset board is read consistently. */
  lemma ResetColumn(white: seq<Slot>, black: seq<Slot>, t: int)
    requires |white| <= 8 && |black| <= 8 && 0 <= t < 64
    ensures ColumnOK(Column(ResetBoards(white, black), t))
  {
    hide Or, RankBB, SquareBB, Shl, Has, And, Describe, Piece.Name, ResetBoards, StartBoards, ResetBit, ColumnOK;
    var g := ResetBoards(white, black);
    var col := Column(g, t);
    var holder := ResetHolder(white, black, t);
    forall k | k in col
      ensures col[k] == ResetBit(white, black, k, t)
    {
      ResetBits(white, black, k, t);
    }
    if holder.Some? {
      CoordinatesOfSquare(t);
      if Rank(t) == 0 && Rank(t) != 1 {
        NameIsPieceKey(white[File(t)].value);
        DeckNamesMembers(white, holder.value);
      } else if Rank(t) == 7 && Rank(t) != 6 {
        NameIsPieceKey(black[File(t)].value);
        DeckNamesMembers(black, holder.value);
      }
    }
    ResetBitColumnOK(white, black, t, col);
  }

  /** `reset_game` leaves a consistent game: every board a 64-bit board,
      and every square in `All` exactly when white or black, held by one
      piece-type board when occupied and by none when empty. */
  lemma ResetConsistent(white: seq<Slot>, black: seq<Slot>)
    requires |white| <= 8 && |black| <= 8
    ensures Consistent(ResetBoards(white, black))
  {
    var g := ResetBoards(white, black);
    forall k | k in g.entries
      ensures IsBitboard(g.entries[k])
    {
      forall j | 0 <= j && Has(g.entries[k], j)
        ensures j < 64
      {
        ResetBits(white, black, k, j);
      }
      WithinIsBitboard(g.entries[k]);
    }
    forall t | 0 <= t < 64
      ensures ColumnOK(Column(g, t))
    {
      ResetColumn(white, black, t);
    }
  }

  // ---- clear_game ----

  /** `clear_game()`: every board emptied, the keys kept in order. */
  function ClearedBoards(g: Dict): (r: Dict)
    ensures r.keys == g.keys && r.entries.Keys == g.entries.Keys
    ensures forall k | k in r.entries :: r.entries[k] == BB_EMPTY
  {
    Dict(g.keys, map k | k in g.entries :: BB_EMPTY)
  }

  /** A cleared game is consistent and has no piece on any square. */
  lemma ClearedConsistent(g: Dict, t: int)
    requires HasBoards(g) && 0 <= t < 64
    ensures Consistent(ClearedBoards(g))
    ensures TypeAt(ClearedBoards(g), t).None?
  {
    var r := ClearedBoards(g);
    SameKeysValid(g, r);
    HasZero(t);
    forall u | 0 <= u < 64
      ensures ColumnOK(Column(r, u))
    {
      HasZero(u);
    }
  }

  // ---- create_dict_attacks ----

  /** `create_dict_attacks()` over the piece set listed as `pieces`: the
      king's description under `"King"`, then each piece's description
      under its name.  (`piece in self.attacks` compares a piece with string
      keys and never holds, so no piece is skipped.) */
  function DictAttacks(pieces: seq<Piece>): (r: map<string, Attacks>)
  {
    if pieces == [] then map["King" := AttacksOf(King)]
    else DictAttacks(pieces[..|pieces| - 1])[pieces[|pieces| - 1].Name() := AttacksOf(pieces[|pieces| - 1].kind)]
  }

  /** The attack descriptions hold the king's under `"King"` and each
      piece's under its name, and nothing else. */
  lemma {:induction false} DictAttacksMeans(pieces: seq<Piece>)
    ensures "King" in DictAttacks(pieces) && DictAttacks(pieces)["King"] == AttacksOf(King)
    ensures forall i | 0 <= i < |pieces| ::
      pieces[i].Name() in DictAttacks(pieces) && DictAttacks(pieces)[pieces[i].Name()] == AttacksOf(pieces[i].kind)
    ensures forall k | k in DictAttacks(pieces) :: k == "King" || exists i | 0 <= i < |pieces| :: pieces[i].Name() == k
    decreases |pieces|
  {
    hide AttacksOf;
    if pieces != [] {
      var n := |pieces| - 1;
      var prev := pieces[..n];
      DictAttacksMeans(prev);
      var last := pieces[n];
      if last.Name() == "King" {
        SameNameSameAttacks(last, Piece(King, WHITE));
      }
      forall i | 0 <= i < |pieces|
        ensures pieces[i].Name() in DictAttacks(pieces) && DictAttacks(pieces)[pieces[i].Name()] == AttacksOf(pieces[i].kind)
      {
        if i < n {
          assert prev[i] == pieces[i];
          if pieces[i].Name() == last.Name() {
            SameNameSameAttacks(pieces[i], last);
          }
        }
      }
      forall k | k in DictAttacks(pieces)
        ensures k == "King" || exists i | 0 <= i < |pieces| :: pieces[i].Name() == k
      {
        if k != "King" && k != last.Name() {
          var i :| 0 <= i < |prev| && prev[i].Name() == k;
          assert pieces[i] == prev[i];
        }
      }
    }
  }
}
