/** The board dictionary `game` of the engine and the square-level
    operations of `chess_deck.py` on it (`get_type_at`, `get_color_at`,
    `remove_piece_at`, `set_piece_at`), as functions from one dictionary to
    the next, with the invariant that keeps the aggregate boards `All`,
    `White` and `Black` in step with the boards of the piece types. */
module Boards {
  import opened Bits
  import opened Wrappers
  import opened Computer
  import opened Pieces
  import opened Dicts

  /** The keys `get_type_at` passes over. */
  predicate Skipped(k: string) {
    k == "All" || k == "White" || k == "Black" || k == "Castling"
  }

  /** The en-passant board: under the name the engine reads, and under the
      name the FEN loader writes. */
  predicate EnPassantKey(k: string) {
    k == "En passant" || k == "En Passant"
  }

  /** The board of one piece type. */
  predicate PieceKey(k: string) {
    !Skipped(k) && !EnPassantKey(k)
  }

  /** `'White' if color else 'Black'`. */
  function ColorKey(c: Color): string {
    if c then "White" else "Black"
  }

  /** The square a Python index `-64 .. 63` into `BB_SQUARES` denotes. */
  function Norm(sq: int): (s: int)
    requires -64 <= sq < 64
    ensures 0 <= s < 64 && (sq >= 0 ==> s == sq) && (sq < 0 ==> s == sq + 64)
  {
    if sq < 0 then sq + 64 else sq
  }

  /** A well-formed dictionary holding the three aggregate boards. */
  ghost predicate HasBoards(g: Dict) {
    g.Valid() && "All" in g.entries && "White" in g.entries && "Black" in g.entries
  }

  // ---- the queries ----

  /** The first key, in insertion order, that is not passed over and whose
      board has square `s`. */
  function FirstHolder(keys: seq<string>, entries: map<string, Bitboard>, s: int): (r: Option<string>)
    requires 0 <= s
    requires forall k | k in keys :: k in entries
    ensures r.Some? ==> r.value in keys && !Skipped(r.value) && Has(entries[r.value], s)
    ensures r.None? <==> forall k | k in keys && !Skipped(k) :: !Has(entries[k], s)
  {
    if keys == [] then None
    else if !Skipped(keys[0]) && Has(entries[keys[0]], s) then Some(keys[0])
    else FirstHolder(keys[1..], entries, s)
  }

  /** `get_type_at`: the first board in the dictionary's order, other than
      the aggregates and the castling rights, that has the square. */
  function TypeAt(g: Dict, sq: int): (r: Option<string>)
    requires g.Valid() && -64 <= sq < 64
    ensures r.Some? ==> r.value in g.entries && !Skipped(r.value) && Has(g.entries[r.value], Norm(sq))
    ensures r.None? <==> forall k | k in g.entries && !Skipped(k) :: !Has(g.entries[k], Norm(sq))
  {
    FirstHolder(g.keys, g.entries, Norm(sq))
  }

  /** `get_color_at`: white if the white board has the square, else black
      if the black board has it, else nothing. */
  function ColorAt(g: Dict, sq: int): Option<Color>
    requires "White" in g.entries && "Black" in g.entries && -64 <= sq < 64
  {
    if Has(g.entries["White"], Norm(sq)) then Some(WHITE)
    else if Has(g.entries["Black"], Norm(sq)) then Some(BLACK)
    else None
  }

  // ---- the updates ----

  /** `remove_piece_at`: toggles the square on the board `get_type_at`
      names, then on `All`, then on the board of the colour `get_color_at`
      now reports (`Black` when it reports none), and returns the key; an
      empty square changes nothing and gives `""`. */
  function RemovePieceAt(g: Dict, sq: int): (r: (Dict, string))
    requires HasBoards(g) && -64 <= sq < 64
    ensures r.0.keys == g.keys && r.0.entries.Keys == g.entries.Keys
  {
    match TypeAt(g, sq)
    case None => (g, "")
    case Some(key) =>
      var mask := SquareBB(sq);
      var g1 := g.Put(key, Xor(g.entries[key], mask));
      var g2 := g1.Put("All", Xor(g1.entries["All"], mask));
      var ck := if ColorAt(g2, sq) == Some(WHITE) then "White" else "Black";
      (g2.Put(ck, Xor(g2.entries[ck], mask)), key)
  }

  /** `set_piece_at`: removes what stands on the square, then sets it on the
      board `name`, on `All` and on the board of `color`. */
  function SetPieceAt(g: Dict, sq: int, name: string, color: Color): (r: Dict)
    requires HasBoards(g) && -64 <= sq < 64 && name in g.entries
    ensures r.keys == g.keys && r.entries.Keys == g.entries.Keys
  {
    var mask := SquareBB(sq);
    var g1 := RemovePieceAt(g, sq).0;
    var g2 := g1.Put(name, Or(g1.entries[name], mask));
    var g3 := g2.Put("All", Or(g2.entries["All"], mask));
    var ck := ColorKey(color);
    g3.Put(ck, Or(g3.entries[ck], mask))
  }

  // ---- the invariant, square by square ----

  /** What the boards say about square `t`: for each key, whether its board
      has the square. */
  ghost function Column(g: Dict, t: int): map<string, bool>
    requires 0 <= t
  {
    map k | k in g.entries :: Has(g.entries[k], t)
  }

  /** A square read consistently: it is in `All` exactly when it is white or
      black and never both; at most one piece-type or en-passant board has
      it; a piece-type board has it only when it is occupied and an
      en-passant board only when it is empty; and an occupied square is on
      some piece-type board. */
  ghost predicate ColumnOK(col: map<string, bool>) {
    "All" in col && "White" in col && "Black" in col
    && col["All"] == (col["White"] || col["Black"])
    && !(col["White"] && col["Black"])
    && (forall a, b | a in col && b in col && !Skipped(a) && !Skipped(b) && col[a] && col[b] :: a == b)
    && (forall a | a in col && !Skipped(a) && col[a] :: PieceKey(a) == col["All"])
    && (col["All"] ==> exists a | a in col :: PieceKey(a) && col[a])
  }

  /** A consistent game: well formed, every board a 64-bit board, and every
      square read consistently. */
  ghost predicate Consistent(g: Dict) {
    HasBoards(g)
    && (forall k | k in g.entries :: IsBitboard(g.entries[k]))
    && (forall t | 0 <= t < 64 :: ColumnOK(Column(g, t)))
  }

  // ---- how the updates act on one square ----

  lemma ColumnPut(g: Dict, k: string, v: Bitboard, t: int)
    requires 0 <= t
    ensures Column(g.Put(k, v), t) == Column(g, t)[k := Has(v, t)]
  {
  }

  lemma ToggleBit(b: Bitboard, sq: int, t: int)
    requires -64 <= sq < 64 && 0 <= t
    ensures Has(Xor(b, SquareBB(sq)), t) == (Has(b, t) != (t == Norm(sq)))
  {
    HasXor(b, SquareBB(sq), t);
    HasSquareBB(sq, t);
  }

  lemma SetBit(b: Bitboard, sq: int, t: int)
    requires -64 <= sq < 64 && 0 <= t
    ensures Has(Or(b, SquareBB(sq)), t) == (Has(b, t) || t == Norm(sq))
  {
    HasOr(b, SquareBB(sq), t);
    HasSquareBB(sq, t);
  }

  /** Toggling or setting a square keeps a board a 64-bit board. */
  lemma MaskedIsBitboard(b: Bitboard, sq: int)
    requires IsBitboard(b) && -64 <= sq < 64
    ensures IsBitboard(Xor(b, SquareBB(sq))) && IsBitboard(Or(b, SquareBB(sq)))
  {
    SquareIsBitboard(sq);
    Pow64();
    XorBelow(b, SquareBB(sq), 64);
    OrBelow(b, SquareBB(sq), 64);
  }

  /** Reading one entry of a column. */
  lemma ColumnAt(g: Dict, k: string, t: int)
    requires 0 <= t
    ensures k in Column(g, t) <==> k in g.entries
    ensures k in g.entries ==> Column(g, t)[k] == Has(g.entries[k], t)
  {
  }

  /** The column of square `t` after a toggle of square `sq` on board `k`. */
  lemma ToggleColumn(g: Dict, k: string, sq: int, t: int)
    requires k in g.entries && -64 <= sq < 64 && 0 <= t
    ensures var col := Column(g, t);
      Column(g.Put(k, Xor(g.entries[k], SquareBB(sq))), t) == col[k := col[k] != (t == Norm(sq))]
  {
    hide Has, Xor, SquareBB;
    ColumnPut(g, k, Xor(g.entries[k], SquareBB(sq)), t);
    ToggleBit(g.entries[k], sq, t);
    ColumnAt(g, k, t);
  }

  /** The column of square `t` after square `sq` is set on board `k`. */
  lemma SetBitColumn(g: Dict, k: string, sq: int, t: int)
    requires k in g.entries && -64 <= sq < 64 && 0 <= t
    ensures var col := Column(g, t);
      Column(g.Put(k, Or(g.entries[k], SquareBB(sq))), t) == col[k := col[k] || t == Norm(sq)]
  {
    hide Has, Or, SquareBB;
    ColumnPut(g, k, Or(g.entries[k], SquareBB(sq)), t);
    SetBit(g.entries[k], sq, t);
    ColumnAt(g, k, t);
  }

  /** The column of square `t` after a removal: unchanged away from the
      square; on it, the named board, `All` and the colour board flipped. */
  lemma RemoveColumn(g: Dict, sq: int, t: int)
    requires HasBoards(g) && -64 <= sq < 64 && 0 <= t
    ensures var col := Column(g, t);
      Column(RemovePieceAt(g, sq).0, t) ==
        if TypeAt(g, sq).None? || t != Norm(sq) then col
        else
          var key := TypeAt(g, sq).value;
          var ck := if col["White"] then "White" else "Black";
          col[key := !col[key]]["All" := !col["All"]][ck := !col[ck]]
  {
    hide Has, Xor, Or, SquareBB, Column, FirstHolder, Dict.Valid;
    if TypeAt(g, sq).Some? {
      var key := TypeAt(g, sq).value;
      var mask := SquareBB(sq);
      var g1 := g.Put(key, Xor(g.entries[key], mask));
      var g2 := g1.Put("All", Xor(g1.entries["All"], mask));
      var ck := if ColorAt(g2, sq) == Some(WHITE) then "White" else "Black";
      assert RemovePieceAt(g, sq).0 == g2.Put(ck, Xor(g2.entries[ck], mask));
      var c0 := Column(g, t);
      ToggleColumn(g, key, sq, t);
      ToggleColumn(g1, "All", sq, t);
      ToggleColumn(g2, ck, sq, t);
      ColumnAt(g, "White", t);
      ColumnAt(g, "All", t);
      ColumnAt(g, ck, t);
      ColumnAt(g, key, t);
      assert g2.entries["White"] == g.entries["White"];
      if t != Norm(sq) {
        assert c0[key := c0[key]] == c0;
        assert c0["All" := c0["All"]] == c0;
        assert c0[ck := c0[ck]] == c0;
      } else {
        assert ColorAt(g2, sq) == Some(WHITE) <==> c0["White"];
      }
    }
  }

  /** The column of square `t` after `set_piece_at`. */
  lemma SetColumn(g: Dict, sq: int, name: string, color: Color, t: int)
    requires HasBoards(g) && -64 <= sq < 64 && name in g.entries && 0 <= t
    ensures var col := Column(RemovePieceAt(g, sq).0, t);
      Column(SetPieceAt(g, sq, name, color), t) ==
        if t != Norm(sq) then col else col[name := true]["All" := true][ColorKey(color) := true]
  {
    hide Has, Or, Xor, SquareBB, Column, RemovePieceAt, FirstHolder, Dict.Valid;
    var mask := SquareBB(sq);
    var g1 := RemovePieceAt(g, sq).0;
    var g2 := g1.Put(name, Or(g1.entries[name], mask));
    var g3 := g2.Put("All", Or(g2.entries["All"], mask));
    var ck := ColorKey(color);
    assert SetPieceAt(g, sq, name, color) == g3.Put(ck, Or(g3.entries[ck], mask));
    var c0 := Column(g1, t);
    SetBitColumn(g1, name, sq, t);
    SetBitColumn(g2, "All", sq, t);
    SetBitColumn(g3, ck, sq, t);
    ColumnAt(g1, name, t);
    ColumnAt(g1, "All", t);
    ColumnAt(g1, ck, t);
    if t != Norm(sq) {
      assert c0[name := c0[name]] == c0;
      assert c0["All" := c0["All"]] == c0;
      assert c0[ck := c0[ck]] == c0;
    }
  }

  /** Away from the square, `remove_piece_at` and `set_piece_at` leave every
      board's bit as it was. */
  lemma AwayFromSquare(g: Dict, sq: int, name: string, color: Color, t: int)
    requires HasBoards(g) && -64 <= sq < 64 && name in g.entries && 0 <= t && t != Norm(sq)
    ensures Column(RemovePieceAt(g, sq).0, t) == Column(g, t)
    ensures Column(SetPieceAt(g, sq, name, color), t) == Column(g, t)
  {
    hide RemovePieceAt, SetPieceAt, Column;
    RemoveColumn(g, sq, t);
    SetColumn(g, sq, name, color, t);
  }

  /** `FirstHolder` only reads whether each listed board has the square. */
  lemma {:induction false} FirstHolderAgree(keys: seq<string>, e1: map<string, Bitboard>, e2: map<string, Bitboard>, s: int)
    requires 0 <= s
    requires forall k | k in keys :: k in e1 && k in e2 && Has(e1[k], s) == Has(e2[k], s)
    ensures FirstHolder(keys, e1, s) == FirstHolder(keys, e2, s)
  {
    if keys != [] {
      FirstHolderAgree(keys[1..], e1, e2, s);
    }
  }

  /** `get_type_at` on two dictionaries with the same keys in the same order
      depends only on the square's column. */
  lemma TypeAtByColumn(g: Dict, g': Dict, sq: int)
    requires g.Valid() && g'.Valid() && g'.keys == g.keys && -64 <= sq < 64
    requires Column(g, Norm(sq)) == Column(g', Norm(sq))
    ensures TypeAt(g, sq) == TypeAt(g', sq)
  {
    hide Has, Column;
    var s := Norm(sq);
    forall k | k in g.keys
      ensures k in g.entries && k in g'.entries && Has(g.entries[k], s) == Has(g'.entries[k], s)
    {
      ColumnAt(g, k, s);
      ColumnAt(g', k, s);
    }
    FirstHolderAgree(g.keys, g.entries, g'.entries, s);
  }

  /** On a consistent game the type at a square is the one board, of a
      piece type or of en passant, that has it. */
  lemma TypeAtUnique(g: Dict, sq: int, k: string)
    requires Consistent(g) && -64 <= sq < 64
    ensures TypeAt(g, sq) == Some(k) <==> k in g.entries && !Skipped(k) && Has(g.entries[k], Norm(sq))
  {
    var col := Column(g, Norm(sq));
    assert ColumnOK(col);
    var r := TypeAt(g, sq);
    if k in g.entries && !Skipped(k) && Has(g.entries[k], Norm(sq)) {
      assert col[k];
      assert col[r.value];
    }
  }

  /** In a consistent game a square is occupied exactly when some piece
      type stands on it, and `get_color_at` reports a colour exactly then. */
  lemma OccupiedSquare(g: Dict, sq: int)
    requires Consistent(g) && -64 <= sq < 64
    ensures var s := Norm(sq);
      Has(g.entries["All"], s) <==> TypeAt(g, sq).Some? && PieceKey(TypeAt(g, sq).value)
    ensures ColorAt(g, sq).Some? <==> Has(g.entries["All"], Norm(sq))
  {
    var s := Norm(sq);
    var col := Column(g, s);
    assert ColumnOK(col);
    if Has(g.entries["All"], s) {
      var a :| a in col && PieceKey(a) && col[a];
      TypeAtUnique(g, sq, a);
    }
    if TypeAt(g, sq).Some? {
      assert col[TypeAt(g, sq).value];
    }
  }

  // ---- the invariant is kept ----

  /** The column of a freshly emptied square. */
  ghost predicate EmptyColumn(col: map<string, bool>) {
    "All" in col && "White" in col && "Black" in col
    && !col["All"] && !col["White"] && !col["Black"]
    && forall a | a in col && !Skipped(a) :: !col[a]
  }

  lemma RemovedColumnEmpty(g: Dict, sq: int)
    requires Consistent(g) && -64 <= sq < 64
    requires TypeAt(g, sq).None? || PieceKey(TypeAt(g, sq).value)
    ensures EmptyColumn(Column(RemovePieceAt(g, sq).0, Norm(sq)))
  {
    hide Has, Or, Xor, SquareBB, FirstHolder, Dict.Valid, RemovePieceAt;
    var s := Norm(sq);
    var col := Column(g, s);
    assert ColumnOK(col);
    RemoveColumn(g, sq, s);
    if TypeAt(g, sq).Some? {
      var key := TypeAt(g, sq).value;
      assert col[key];
      forall a | a in col && !Skipped(a)
        ensures a != key ==> !col[a]
      {
      }
    }
  }

  /** `remove_piece_at` on a square holding a piece, or on an empty square,
      keeps the game consistent and leaves the square empty; it returns the
      key of the piece type that stood there, or `""`. */
  lemma RemoveKeepsConsistent(g: Dict, sq: int)
    requires Consistent(g) && -64 <= sq < 64
    requires TypeAt(g, sq).None? || PieceKey(TypeAt(g, sq).value)
    ensures var (g', key) := RemovePieceAt(g, sq);
      Consistent(g')
      && EmptyColumn(Column(g', Norm(sq)))
      && key == (if TypeAt(g, sq).None? then "" else TypeAt(g, sq).value)
      && (TypeAt(g, sq).None? ==> g' == g)
  {
    hide Has, Or, Xor, SquareBB, FirstHolder, Dict.Valid, Column;
    var g' := RemovePieceAt(g, sq).0;
    RemovedColumnEmpty(g, sq);
    forall t | 0 <= t < 64
      ensures ColumnOK(Column(g', t))
    {
      RemoveColumn(g, sq, t);
    }
    RemoveIsBitboard(g, sq);
    SameKeysValid(g, g');
  }

  /** Removing keeps every board a 64-bit board. */
  lemma RemoveIsBitboard(g: Dict, sq: int)
    requires HasBoards(g) && -64 <= sq < 64
    requires forall k | k in g.entries :: IsBitboard(g.entries[k])
    ensures forall k | k in g.entries :: IsBitboard(RemovePieceAt(g, sq).0.entries[k])
  {
    hide Has, Or, Xor, SquareBB, FirstHolder, Dict.Valid;
    var g1 := RemovePieceAt(g, sq).0;
    forall k | k in g1.entries
      ensures IsBitboard(g1.entries[k])
    {
      if TypeAt(g, sq).Some? {
        MaskedIsBitboard(g.entries[k], sq);
        MaskedIsBitboard(g.entries["All"], sq);
        MaskedIsBitboard(g.entries[TypeAt(g, sq).value], sq);
        MaskedIsBitboard(Xor(g.entries["All"], SquareBB(sq)), sq);
        MaskedIsBitboard(Xor(g.entries[TypeAt(g, sq).value], SquareBB(sq)), sq);
      }
    }
  }

  /** Setting a square keeps every board a 64-bit board. */
  lemma SetIsBitboard(g: Dict, sq: int, name: string, color: Color)
    requires HasBoards(g) && -64 <= sq < 64 && name in g.entries
    requires forall k | k in g.entries :: IsBitboard(g.entries[k])
    ensures forall k | k in g.entries :: IsBitboard(SetPieceAt(g, sq, name, color).entries[k])
  {
    hide Has, Or, Xor, SquareBB, RemovePieceAt, FirstHolder, Dict.Valid;
    var g1 := RemovePieceAt(g, sq).0;
    RemoveIsBitboard(g, sq);
    forall k | k in g.entries
      ensures IsBitboard(SetPieceAt(g, sq, name, color).entries[k])
    {
      MaskedIsBitboard(g1.entries[k], sq);
      MaskedIsBitboard(g1.entries[name], sq);
      MaskedIsBitboard(g1.entries["All"], sq);
      MaskedIsBitboard(Or(g1.entries[name], SquareBB(sq)), sq);
      MaskedIsBitboard(Or(g1.entries["All"], SquareBB(sq)), sq);
    }
  }

  /** After `set_piece_at` on an emptied square, the square's column
      names exactly the piece type and the colour. */
  lemma SetColumnOK(g: Dict, sq: int, name: string, color: Color)
    requires Consistent(g) && -64 <= sq < 64 && name in g.entries && PieceKey(name)
    requires TypeAt(g, sq).None? || PieceKey(TypeAt(g, sq).value)
    ensures forall t | 0 <= t < 64 :: ColumnOK(Column(SetPieceAt(g, sq, name, color), t))
    ensures var col := Column(SetPieceAt(g, sq, name, color), Norm(sq));
      col[name] && col[ColorKey(color)] && !col[ColorKey(!color)]
  {
    hide SetPieceAt, RemovePieceAt, Has, Column, FirstHolder, Dict.Valid, Or, Xor, SquareBB;
    var g1 := RemovePieceAt(g, sq).0;
    RemoveKeepsConsistent(g, sq);
    var s := Norm(sq);
    forall t | 0 <= t < 64
      ensures ColumnOK(Column(SetPieceAt(g, sq, name, color), t))
    {
      SetColumn(g, sq, name, color, t);
      if t == s {
        var col := Column(g1, s);
        assert EmptyColumn(col);
        var col' := col[name := true]["All" := true][ColorKey(color) := true];
        assert col'[name];
        assert !col'[ColorKey(!color)];
      } else {
        assert ColumnOK(Column(g1, t));
      }
    }
    SetColumn(g, sq, name, color, s);
    assert EmptyColumn(Column(g1, s));
  }

  /** `set_piece_at` with the board of a piece type, on a square that is not
      the en-passant square, keeps the game consistent: afterwards the
      square holds exactly that piece type in that colour. */
  lemma SetKeepsConsistent(g: Dict, sq: int, name: string, color: Color)
    requires Consistent(g) && -64 <= sq < 64 && name in g.entries && PieceKey(name)
    requires TypeAt(g, sq).None? || PieceKey(TypeAt(g, sq).value)
    ensures var g' := SetPieceAt(g, sq, name, color);
      Consistent(g')
      && TypeAt(g', sq) == Some(name)
      && ColorAt(g', sq) == Some(color)
  {
    hide RemovePieceAt, SetPieceAt, Column, ColumnOK, Has, FirstHolder, Dict.Valid, Or, Xor, SquareBB;
    var g' := SetPieceAt(g, sq, name, color);
    SetIsBitboard(g, sq, name, color);
    SetColumnOK(g, sq, name, color);
    var s := Norm(sq);
    ColumnAt(g', name, s);
    ColumnAt(g', "White", s);
    ColumnAt(g', "Black", s);
    SameKeysValid(g, g');
    TypeAtUnique(g', sq, name);
  }

  /** Boards other than the aggregates and the one that held the square are
      untouched by `remove_piece_at` and `set_piece_at`. */
  lemma UpdatesKeepOtherBoards(g: Dict, sq: int, name: string, color: Color, k: string)
    requires HasBoards(g) && -64 <= sq < 64 && name in g.entries && k in g.entries
    requires k != "All" && k != "White" && k != "Black" && TypeAt(g, sq) != Some(k)
    ensures RemovePieceAt(g, sq).0.entries[k] == g.entries[k]
    ensures k != name ==> SetPieceAt(g, sq, name, color).entries[k] == g.entries[k]
  {
    hide Has, Or, Xor, SquareBB, FirstHolder, Dict.Valid;
  }

  /** As written, `get_type_at` also reports the en-passant board, so
      removing a piece from the empty en-passant square puts the square on
      `All` and on `Black`: an occupied square with no piece on it. */
  lemma RemoveAtEnPassantSquare(g: Dict, sq: int)
    requires Consistent(g) && -64 <= sq < 64
    requires TypeAt(g, sq).Some? && EnPassantKey(TypeAt(g, sq).value)
    ensures var g' := RemovePieceAt(g, sq).0;
      Has(g'.entries["All"], Norm(sq)) && Has(g'.entries["Black"], Norm(sq))
      && !Has(g'.entries[TypeAt(g, sq).value], Norm(sq))
      && !Consistent(g')
  {
    hide Has, Or, Xor, SquareBB, FirstHolder, Dict.Valid, RemovePieceAt;
    var s := Norm(sq);
    var col := Column(g, s);
    assert ColumnOK(col);
    var key := TypeAt(g, sq).value;
    assert col[key];
    RemoveColumn(g, sq, s);
    var col' := Column(RemovePieceAt(g, sq).0, s);
    forall a | a in col' && PieceKey(a)
      ensures !col'[a]
    {
      assert col[a] ==> a == key;
    }
    NoPieceOccupied(col');
  }

  /** A column on `All` with no piece-type board on it is not consistent. */
  lemma NoPieceOccupied(col: map<string, bool>)
    requires "All" in col && col["All"]
    requires forall a | a in col && PieceKey(a) :: !col[a]
    ensures !ColumnOK(col)
  {
  }
}
