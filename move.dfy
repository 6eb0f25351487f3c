/** Moves of `move.py`: an origin, a destination and an optional promotion
    piece, with the direction tests, the UCI-style text form and equality. */
module Moves {
  import opened Wrappers
  import opened Pieces
  import opened Computer
  import opened Bits

  datatype Move = Move(fromSq: int, toSq: int, promotion: Option<Piece>)
  {
    /** `is_going_right`: the destination lies on a file to the right. */
    predicate IsGoingRight() {
      File(fromSq) < File(toSq)
    }

    /** `is_going_straight`: origin and destination share a file. */
    predicate IsGoingStraight() {
      File(fromSq) == File(toSq)
    }

    /** `is_promotion`: a promotion piece is attached. */
    predicate IsPromotion() {
      promotion.Some?
    }
  }

  /** An end point given to the constructor: a square index or a square name. */
  datatype Endpoint = Index(sq: int) | Named(name: string)

  /** The square an end point denotes; a name that `compute_square` does
      not know raises `ValueError`, here `None`. */
  function EndpointSquare(e: Endpoint): (r: Option<int>)
    ensures e.Index? ==> r == Some(e.sq)
    ensures e.Named? && r.Some? ==> 0 <= r.value < 64 && ComputeSquareName(r.value) == e.name
    ensures e.Named? && r.None? ==> e.name !in SQUARE_NAMES
  {
    match e
    case Index(sq) => Some(sq)
    case Named(name) => ComputeSquare(name)
  }

  /** `Move.__init__`: names are turned into squares, squares kept as given. */
  function NewMove(from: Endpoint, to: Endpoint, promotion: Option<Piece>): (r: Option<Move>)
    ensures r.Some? <==> EndpointSquare(from).Some? && EndpointSquare(to).Some?
    ensures r.Some? ==> r.value == Move(EndpointSquare(from).value, EndpointSquare(to).value, promotion)
  {
    match (EndpointSquare(from), EndpointSquare(to))
    case (Some(a), Some(b)) => Some(Move(a, b, promotion))
    case _ => None
  }

  /** `Move.__str__`: both square names, then the lower-cased promotion
      symbol, if any.  Squares outside `-64 .. 63` raise `IndexError`. */
  function MoveString(m: Move): (r: string)
    requires -64 <= m.fromSq < 64 && -64 <= m.toSq < 64
  {
    var prom := if m.promotion.None? then "" else Lower(m.promotion.value.Symbol());
    ComputeSquareName(m.fromSq) + ComputeSquareName(m.toSq) + prom
  }

  /** `Move.__eq__`: the same origin, the same destination and equal
      promotions, `None` equalling only `None`. */
  predicate SameMove(a: Move, b: Move) {
    a.fromSq == b.fromSq && a.toSq == b.toSq
    && match (a.promotion, b.promotion)
       case (None, None) => true
       case (Some(p), Some(q)) => SamePiece(p, q)
       case _ => false
  }

  // ---- properties ----

  /** A move goes right, goes straight, or goes left (its reverse goes
      right), and exactly one of the three. */
  lemma DirectionTrichotomy(m: Move)
    ensures var back := Move(m.toSq, m.fromSq, m.promotion);
      (m.IsGoingRight() || m.IsGoingStraight() || back.IsGoingRight())
      && !(m.IsGoingRight() && m.IsGoingStraight())
      && !(m.IsGoingRight() && back.IsGoingRight())
      && !(m.IsGoingStraight() && back.IsGoingRight())
  { }

  /** Going straight means moving by a whole number of ranks. */
  lemma StraightIsWholeRanks(m: Move)
    ensures m.IsGoingStraight() <==> (m.toSq - m.fromSq) % 8 == 0
  {
    hide File, Rank;
    CoordinatesOfSquare(m.fromSq);
    CoordinatesOfSquare(m.toSq);
    var d := m.toSq - m.fromSq;
    var dr := Rank(m.toSq) - Rank(m.fromSq);
    var df := File(m.toSq) - File(m.fromSq);
    assert d == 8 * dr + df;
    if df >= 0 {
      ModUnique(d, 8, dr, df);
    } else {
      ModUnique(d, 8, dr - 1, df + 8);
    }
  }

  /** The text of a move on the board: four characters, or five with a
      promotion, whose first two name the origin and next two the
      destination. */
  lemma MoveStringShape(m: Move)
    requires 0 <= m.fromSq < 64 && 0 <= m.toSq < 64
    requires m.promotion.Some? ==> m.promotion.value.kind != Base
    ensures var s := MoveString(m);
      |s| == (if m.IsPromotion() then 5 else 4)
      && ComputeSquare(s[..2]) == Some(m.fromSq)
      && ComputeSquare(s[2..4]) == Some(m.toSq)
  {
    hide ComputeSquare, ComputeSquareName, Describe;
    if m.promotion.Some? {
      SymbolOneLetter(m.promotion.value.kind);
    }
    SquareNameSpelledOut(m.fromSq);
    SquareNameSpelledOut(m.toSq);
    SquareNameRoundTrip(m.fromSq);
    SquareNameRoundTrip(m.toSq);
    var s := MoveString(m);
    assert s[..2] == ComputeSquareName(m.fromSq);
    assert s[2..4] == ComputeSquareName(m.toSq);
  }

  /** Reading the text of a move back gives the move: the square names
      rebuild origin and destination, and the promotion letter is the
      piece's black FEN letter, which names the promotion piece. */
  lemma MoveStringRoundTrip(m: Move)
    requires 0 <= m.fromSq < 64 && 0 <= m.toSq < 64
    requires m.promotion.Some? ==> m.promotion.value.kind != Base && m.promotion.value.kind != Archbishop
    ensures var s := MoveString(m);
      |s| == (if m.IsPromotion() then 5 else 4)
      && NewMove(Named(s[..2]), Named(s[2..4]), m.promotion) == Some(m)
      && (m.IsPromotion() ==> s[4] in ALL_PIECES_DICT && ALL_PIECES_DICT[s[4]] == m.promotion.value.Name()
                              && KindOfLetter(s[4]) == m.promotion.value.kind)
  {
    MoveStringShape(m);
    if m.IsPromotion() {
      var p := m.promotion.value;
      SymbolReadsBack(Piece(p.kind, BLACK));
      assert MoveString(m)[4] == Lower(p.Symbol())[0] == GetSymbol(Piece(p.kind, BLACK))[0];
    }
  }

  /** `__eq__` is equality of moves; hence reflexive and symmetric. */
  lemma SameMoveIsEquality(a: Move, b: Move)
    ensures SameMove(a, b) <==> a == b
    ensures SameMove(a, a) && SameMove(a, b) == SameMove(b, a)
  {
    if a.promotion.Some? && b.promotion.Some? {
      SamePieceIsEquality(a.promotion.value, b.promotion.value);
    }
  }
}
