/** The piece catalogue of `pieces.py`: the base piece with its default
    descriptor, the nine concrete pieces that override it, the FEN letter
    table, symbols, colour swapping and piece equality. */
module Pieces {

  /** `Color = bool` with `WHITE = True` and `BLACK = False`. */
  type Color = bool
  const WHITE: Color := true
  const BLACK: Color := false

  /** Which class a piece was built from: `Base` is a plain `Piece`. */
  datatype Kind = Base | King | Pawn | Bishop | Knight | Rook | Queen
                | Archbishop | Chancellor | Ghost | Wall

  /** The attack offsets of a piece: one list for a symmetric piece, one
      list per side (white first) for the pawn. */
  datatype Steps = Flat(deltas: seq<int>) | Sided(sides: seq<seq<int>>)

  /** The attributes every piece constructor sets, apart from the colour. */
  datatype Descriptor = Descriptor(
    stepAttacks: Steps,
    diagonalSlide: bool,
    verticalSlide: bool,
    horizontalSlide: bool,
    symbol: string,
    name: string,
    canCastle: bool,
    symmetry: bool,
    price: int,
    canBePromotion: bool)

  /** The defaults of `Piece.__init__`. */
  const BASE: Descriptor := Descriptor(Flat([]), false, false, false, "", "", false, true, 0, true)

  const KNIGHT_JUMPS: seq<int> := [6, -6, 10, -10, 15, -15, 17, -17]

  /** Each subclass constructor runs the base constructor and overrides
      some attributes. */
  function Describe(k: Kind): Descriptor {
    match k
    case Base => BASE
    case King => BASE.(stepAttacks := Flat([1, -1, 7, 8, 9, -7, -8, -9]), name := "King",
                       symbol := "K", price := 0, canBePromotion := false)
    case Pawn => BASE.(stepAttacks := Sided([[7, 9], [-7, -9]]), name := "Pawn", symbol := "P",
                       symmetry := false, price := 1, canBePromotion := false)
    case Bishop => BASE.(diagonalSlide := true, name := "Bishop", symbol := "B", price := 6)
    case Knight => BASE.(stepAttacks := Flat(KNIGHT_JUMPS), name := "Knight", symbol := "N", price := 6)
    case Rook => BASE.(verticalSlide := true, horizontalSlide := true, name := "Rook",
                       symbol := "R", canCastle := true, price := 10)
    case Queen => BASE.(verticalSlide := true, horizontalSlide := true, diagonalSlide := true,
                        name := "Queen", symbol := "Q", price := 16)
    case Archbishop => BASE.(diagonalSlide := true, stepAttacks := Flat(KNIGHT_JUMPS),
                             name := "Archbishop", symbol := "A", price := 12)
    case Chancellor => BASE.(verticalSlide := true, horizontalSlide := true,
                             stepAttacks := Flat(KNIGHT_JUMPS), name := "Chancellor",
                             symbol := "C", canCastle := true, price := 16)
    case Ghost => BASE.(stepAttacks := Flat([8, 16, -8, -16, 1, 2, -1, -2]), name := "Ghost",
                        symbol := "G", canCastle := true, price := 8)
    case Wall => BASE.(name := "Wall", symbol := "W", canCastle := true, price := 0,
                       canBePromotion := false)
  }

  /** A piece object: its class and its colour. */
  datatype Piece = Piece(kind: Kind, color: Color)
  {
    function Name(): string { Describe(kind).name }
    function Symbol(): string { Describe(kind).symbol }
    function Price(): int { Describe(kind).price }
    function CanCastle(): bool { Describe(kind).canCastle }
    function CanBePromotion(): bool { Describe(kind).canBePromotion }
    function Symmetric(): bool { Describe(kind).symmetry }
    function StepAttacks(): Steps { Describe(kind).stepAttacks }
    function DiagonalSlide(): bool { Describe(kind).diagonalSlide }
    function VerticalSlide(): bool { Describe(kind).verticalSlide }
    function HorizontalSlide(): bool { Describe(kind).horizontalSlide }
  }

  // ---- letters ----

  predicate IsUpper(c: char) { 'A' <= c <= 'Z' }
  predicate IsLower(c: char) { 'a' <= c <= 'z' }

  /** `str.lower` on ASCII letters; every other character is kept. */
  function LowerChar(c: char): (r: char)
    ensures IsUpper(c) ==> IsLower(r)
    ensures !IsUpper(c) ==> r == c
  {
    if IsUpper(c) then (c as int + 32) as char else c
  }

  function Lower(s: string): (r: string)
    ensures |r| == |s|
    ensures forall i :: 0 <= i < |s| ==> r[i] == LowerChar(s[i])
  {
    if s == [] then [] else [LowerChar(s[0])] + Lower(s[1..])
  }

  /** `ALL_PIECES_DICT`: the FEN letters the loader understands. */
  const ALL_PIECES_DICT: map<char, string> := map[
    'w' := "Wall", 'n' := "Knight", 'b' := "Bishop", 'q' := "Queen", 'k' := "King",
    'g' := "Ghost", 'c' := "Chancellor", 'r' := "Rook", 'p' := "Pawn"]

  /** `Piece.get_symbol`: the symbol as is for white, lower-cased for black. */
  function GetSymbol(p: Piece): (r: string)
    ensures |r| == |p.Symbol()|
    ensures p.color == WHITE ==> r == p.Symbol()
    ensures p.color == BLACK ==> forall i :: 0 <= i < |r| ==> IsLower(r[i]) || !IsUpper(p.Symbol()[i])
  {
    if p.color == WHITE then p.Symbol() else Lower(p.Symbol())
  }

  /** `Piece.swap_color`, on a value: the same piece of the other colour. */
  function SwapColor(p: Piece): (r: Piece)
    ensures r.color != p.color && r.Name() == p.Name()
  {
    Piece(p.kind, !p.color)
  }

  /** `Piece.__eq__` through `__hash__`: the same name and the same colour. */
  predicate SamePiece(a: Piece, b: Piece) {
    a.Name() == b.Name() && a.color == b.color
  }

  // ---- properties of the catalogue ----

  /** Swapping the colour twice restores the piece. */
  lemma SwapTwice(p: Piece)
    ensures SwapColor(SwapColor(p)) == p
  { }

  /** Every class has its own name, so name-and-colour equality of pieces
      is exactly equality of pieces. */
  lemma NamesDistinct(a: Kind, b: Kind)
    ensures Describe(a).name == Describe(b).name <==> a == b
  {
    NameLetters(a);
    NameLetters(b);
  }

  /** Names are told apart by their length and first two letters. */
  lemma NameLetters(k: Kind)
    ensures var n := Describe(k).name;
      (k == Base <==> |n| == 0) && (k != Base ==> |n| >= 4 && NameKey(n) == KeyOf(k))
  { }

  function NameKey(n: string): (int, char, char)
    requires |n| >= 2
  {
    (|n|, n[0], n[1])
  }

  function KeyOf(k: Kind): (int, char, char) {
    match k
    case Base => (0, ' ', ' ')
    case King => (4, 'K', 'i') case Pawn => (4, 'P', 'a') case Bishop => (6, 'B', 'i')
    case Knight => (6, 'K', 'n') case Rook => (4, 'R', 'o') case Queen => (5, 'Q', 'u')
    case Archbishop => (10, 'A', 'r') case Chancellor => (10, 'C', 'h')
    case Ghost => (5, 'G', 'h') case Wall => (4, 'W', 'a')
  }

  lemma SamePieceIsEquality(a: Piece, b: Piece)
    ensures SamePiece(a, b) <==> a == b
  {
    NamesDistinct(a.kind, b.kind);
  }

  /** `__eq__` is reflexive and symmetric, and `__ne__` is its negation. */
  lemma SamePieceIsEquivalence(a: Piece, b: Piece, c: Piece)
    ensures SamePiece(a, a)
    ensures SamePiece(a, b) == SamePiece(b, a)
    ensures SamePiece(a, b) && SamePiece(b, c) ==> SamePiece(a, c)
  { }

  /** A plain `Piece` has no moves, no name and no symbol, is symmetric,
      free, cannot castle and can be promoted to. */
  lemma BaseDefaults(c: Color)
    ensures var p := Piece(Base, c);
      p.StepAttacks() == Flat([]) && !p.DiagonalSlide() && !p.VerticalSlide()
      && !p.HorizontalSlide() && p.Symbol() == "" && p.Name() == "" && !p.CanCastle()
      && p.Symmetric() && p.Price() == 0 && p.CanBePromotion()
  { }

  /** The pawn is the only asymmetric piece, and the only one whose
      offsets are given per side: `[7, 9]` for white, `[-7, -9]` for black. */
  lemma OnlyPawnIsAsymmetric(k: Kind)
    ensures !Describe(k).symmetry <==> k == Pawn
    ensures Describe(k).stepAttacks.Sided? <==> k == Pawn
    ensures k == Pawn ==> Describe(k).stepAttacks.sides == [[7, 9], [-7, -9]]
  { }

  /** Every class except the base piece has a one-letter symbol. */
  lemma SymbolOneLetter(k: Kind)
    requires k != Base
    ensures |Describe(k).symbol| == 1
  {
  }

  /** Kings, pawns and walls are the only pieces a pawn cannot promote to. */
  lemma PromotionTargets(k: Kind)
    ensures !Describe(k).canBePromotion <==> k in {King, Pawn, Wall}
  { }

  /** Prices are never negative and at most 16. */
  lemma PriceBounds(k: Kind)
    ensures 0 <= Describe(k).price <= 16
  { }

  /** The class a FEN letter names. */
  function KindOfLetter(c: char): (k: Kind)
    requires c in ALL_PIECES_DICT
    ensures Describe(k).name == ALL_PIECES_DICT[c]
    ensures k != Base && k != Archbishop
  {
    match c
    case 'w' => Wall case 'n' => Knight case 'b' => Bishop case 'q' => Queen
    case 'k' => King case 'g' => Ghost case 'c' => Chancellor case 'r' => Rook
    case _ => Pawn
  }

  /** Every FEN letter is lower-case, and the archbishop has none. */
  lemma LettersLowerCase()
    ensures forall c :: c in ALL_PIECES_DICT ==> IsLower(c)
    ensures "Archbishop" !in ALL_PIECES_DICT.Values
  {
    var m := ALL_PIECES_DICT;
    forall c | c in m
      ensures IsLower(c) && m[c] != "Archbishop"
    {
      NamesDistinct(KindOfLetter(c), Archbishop);
    }
  }

  /** Distinct letters name distinct pieces. */
  lemma LettersNameDistinctPieces(c: char, d: char)
    requires c in ALL_PIECES_DICT && d in ALL_PIECES_DICT
    ensures ALL_PIECES_DICT[c] == ALL_PIECES_DICT[d] <==> c == d
  {
    hide ALL_PIECES_DICT;
    NamesDistinct(KindOfLetter(c), KindOfLetter(d));
    LetterRoundTrip(c);
    LetterRoundTrip(d);
  }

  /** The letter of a piece class, inverse to `KindOfLetter`. */
  function LetterOfKind(k: Kind): char {
    match k
    case Wall => 'w' case Knight => 'n' case Bishop => 'b' case Queen => 'q'
    case King => 'k' case Ghost => 'g' case Chancellor => 'c' case Rook => 'r'
    case Pawn => 'p' case _ => ' '
  }

  lemma LetterRoundTrip(c: char)
    requires c in ALL_PIECES_DICT
    ensures LetterOfKind(KindOfLetter(c)) == c
  { }

  /** A piece's FEN letter reads back as that piece: the letter of
      `get_symbol` is upper-case exactly for white, and lower-casing it
      finds the piece's name in `ALL_PIECES_DICT`.  Every class except the
      base piece and the archbishop has a letter. */
  lemma SymbolReadsBack(p: Piece)
    requires p.kind != Base && p.kind != Archbishop
    ensures |GetSymbol(p)| == 1
    ensures IsUpper(GetSymbol(p)[0]) <==> p.color == WHITE
    ensures LowerChar(GetSymbol(p)[0]) in ALL_PIECES_DICT
    ensures ALL_PIECES_DICT[LowerChar(GetSymbol(p)[0])] == p.Name()
    ensures KindOfLetter(LowerChar(GetSymbol(p)[0])) == p.kind
  { }
}
