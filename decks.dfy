/** Decks of `decks.py`: the back-rank arrangement each side starts with,
    a list of optional pieces per colour, with the sets derived from it
    and the legality rules of a deck. */
module Decks {
  import opened Wrappers
  import opened Pieces

  /** A deck entry: a piece, or `None` for an empty square. */
  type Slot = Option<Piece>

  datatype Deck = Deck(whitePieces: seq<Slot>, blackPieces: seq<Slot>)
  {
    /** `get_deck`: the entries of one side. */
    function GetDeck(color: Color): seq<Slot> {
      if color == WHITE then whitePieces else blackPieces
    }
  }

  /** No piece listed twice: a listing of a set. */
  predicate NoDuplicates(ps: seq<Piece>) {
    forall i, j | 0 <= i < j < |ps| :: ps[i] != ps[j]
  }

  /** The distinct pieces of a list of entries, in order of first
      occurrence, without `None`. */
  function Distinct(slots: seq<Slot>): (r: seq<Piece>)
    ensures forall p :: p in r <==> Some(p) in slots
    ensures NoDuplicates(r)
  {
    if slots == [] then []
    else
      var r := Distinct(slots[..|slots| - 1]);
      var last := slots[|slots| - 1];
      assert slots == slots[..|slots| - 1] + [last];
      if last.Some? && last.value !in r then r + [last.value] else r
  }

  /** `get_set_pieces`, the set listed: the distinct pieces of a side's
      deck in order of first occurrence, then that side's pawn when the
      deck has none. */
  function GetSetPieces(d: Deck, color: Color): (r: seq<Piece>)
    ensures forall p :: p in r <==> Some(p) in d.GetDeck(color) || p == Piece(Pawn, color)
    ensures NoDuplicates(r)
  {
    var r := Distinct(d.GetDeck(color));
    if Piece(Pawn, color) in r then r else r + [Piece(Pawn, color)]
  }

  /** The pieces of a listing a pawn of `color` may promote to, in order:
      not that side's king, and only pieces whose `can_be_promotion`
      holds. */
  function Promotable(ps: seq<Piece>, color: Color): (r: seq<Piece>)
    ensures forall p :: p in r <==> p in ps && p != Piece(King, color) && p.CanBePromotion()
    ensures NoDuplicates(ps) ==> NoDuplicates(r)
  {
    if ps == [] then []
    else
      var r := Promotable(ps[..|ps| - 1], color);
      var last := ps[|ps| - 1];
      assert ps == ps[..|ps| - 1] + [last];
      assert NoDuplicates(ps) ==> last !in ps[..|ps| - 1];
      if last != Piece(King, color) && last.CanBePromotion() then r + [last] else r
  }

  /** `get_prom_pieces`, the set listed: the distinct pieces of a side's
      deck a pawn may promote to, never a king, a pawn or a wall. */
  function GetPromPieces(d: Deck, color: Color): (r: seq<Piece>)
    ensures forall p :: p in r <==>
      Some(p) in d.GetDeck(color) && p != Piece(King, color) && p.CanBePromotion()
    ensures forall p | p in r :: p.kind !in {King, Pawn, Wall}
    ensures NoDuplicates(r)
  {
    var r := Promotable(Distinct(d.GetDeck(color)), color);
    forall p | p in r
      ensures p.kind !in {King, Pawn, Wall}
    {
      PromotionTargets(p.kind);
    }
    r
  }

  /** `weight_deck`: the sum of the prices; an empty entry has no price
      and raises `AttributeError`, here `None`. */
  function Weight(slots: seq<Slot>): (r: Option<int>)
  {
    if slots == [] then Some(0)
    else if slots[0].None? then None
    else match Weight(slots[1..])
      case None => None
      case Some(w) => Some(slots[0].value.Price() + w)
  }

  /** The weight exists exactly when every entry holds a piece, and lies
      between 0 and 16 per entry. */
  lemma {:induction false} WeightDefined(slots: seq<Slot>)
    ensures Weight(slots).Some? <==> None !in slots
    ensures Weight(slots).Some? ==> 0 <= Weight(slots).value <= 16 * |slots|
  {
    if slots != [] {
      WeightDefined(slots[1..]);
      assert None in slots <==> slots[0] == None || None in slots[1..];
      if slots[0].Some? {
        PriceBounds(slots[0].value.kind);
      }
    }
  }

  /** The weight of two halves is the sum of their weights. */
  lemma {:induction false} WeightAppend(a: seq<Slot>, b: seq<Slot>)
    requires None !in a && None !in b
    ensures Weight(a + b).Some? && Weight(a).Some? && Weight(b).Some?
    ensures Weight(a + b).value == Weight(a).value + Weight(b).value
  {
    WeightDefined(a);
    WeightDefined(b);
    WeightDefined(a + b);
    if a != [] {
      assert (a + b)[1..] == a[1..] + b;
      WeightAppend(a[1..], b);
    } else {
      assert a + b == b;
    }
  }

  /** `is_castling_pieces_at_extremes`: the first and last entries are
      pieces that can castle; an empty deck raises `IndexError`. */
  function CastlingPiecesAtExtremes(d: Deck, color: Color): (r: Option<bool>)
    ensures r.None? <==> d.GetDeck(color) == []
    ensures r == Some(true) <==> var s := d.GetDeck(color);
      |s| > 0 && s[0].Some? && s[0].value.CanCastle() && s[|s| - 1].Some? && s[|s| - 1].value.CanCastle()
  {
    var s := d.GetDeck(color);
    if s == [] then None
    else
      var left, right := s[0], s[|s| - 1];
      Some(left.Some? && left.value.CanCastle() && right.Some? && right.value.CanCastle())
  }

  /** Python's `list.count`. */
  function Count<T(==)>(s: seq<T>, x: T): nat {
    if s == [] then 0 else (if s[0] == x then 1 else 0) + Count(s[1..], x)
  }

  /** `is_more_than_one_king`: the side's king occurs more than once. */
  predicate MoreThanOneKing(d: Deck, color: Color) {
    Count(d.GetDeck(color), Some(Piece(King, color))) > 1
  }

  /** Counting more than one occurrence means two distinct positions hold it. */
  lemma {:induction false} CountAboveOne<T>(s: seq<T>, x: T)
    ensures Count(s, x) > 1 <==> exists i, j :: 0 <= i < j < |s| && s[i] == x && s[j] == x
  {
    if s != [] {
      CountAboveOne(s[1..], x);
      CountPositive(s[1..], x);
      if Count(s, x) > 1 {
        if s[0] == x {
          var j :| 0 <= j < |s[1..]| && s[1..][j] == x;
          assert s[0] == x && s[j + 1] == x;
        } else {
          var i, j :| 0 <= i < j < |s[1..]| && s[1..][i] == x && s[1..][j] == x;
          assert s[i + 1] == x && s[j + 1] == x;
        }
      }
      if exists i, j :: 0 <= i < j < |s| && s[i] == x && s[j] == x {
        var i, j :| 0 <= i < j < |s| && s[i] == x && s[j] == x;
        assert s[1..][j - 1] == x;
        if i > 0 {
          assert s[1..][i - 1] == x;
        }
      }
    }
  }

  lemma {:induction false} CountPositive<T>(s: seq<T>, x: T)
    ensures Count(s, x) > 0 <==> x in s
  {
    if s != [] {
      CountPositive(s[1..], x);
      assert x in s <==> s[0] == x || x in s[1..];
    }
  }

  /** `is_king_in_place`: entry 4 (the e-file) holds the side's king; a
      deck of fewer than five entries raises `IndexError`. */
  function KingInPlace(d: Deck, color: Color): (r: Option<bool>)
    ensures r.None? <==> |d.GetDeck(color)| <= 4
    ensures r.Some? ==> (r.value <==> d.GetDeck(color)[4] == Some(Piece(King, color)))
  {
    var s := d.GetDeck(color);
    if |s| <= 4 then None
    else if s[4] != Some(Piece(King, color)) then Some(false)
    else Some(true)
  }

  /** The checks of `is_deck_legal` in order, the first failing one
      answering `False` and a raised exception answering `None`; the last
      one rejects a side whose `is_king_in_place` differs from `kingInPlace`. */
  function DeckChecks(d: Deck, kingInPlace: bool): Option<bool> {
    var ww, wb := Weight(d.GetDeck(WHITE)), Weight(d.GetDeck(BLACK));
    if ww.None? then None
    else if ww.value > 64 then Some(false)
    else if wb.None? then None
    else if wb.value > 66 then Some(false)
    else if CastlingPiecesAtExtremes(d, WHITE).None? then None
    else if !CastlingPiecesAtExtremes(d, WHITE).value then Some(false)
    else if CastlingPiecesAtExtremes(d, BLACK).None? then None
    else if !CastlingPiecesAtExtremes(d, BLACK).value then Some(false)
    else if MoreThanOneKing(d, WHITE) || MoreThanOneKing(d, BLACK) then Some(false)
    else if KingInPlace(d, WHITE).None? then None
    else if KingInPlace(d, WHITE).value != kingInPlace then Some(false)
    else if KingInPlace(d, BLACK).None? then None
    else if KingInPlace(d, BLACK).value != kingInPlace then Some(false)
    else Some(true)
  }

  /** `is_deck_legal` as written: the test at decks.py:54 returns `False`
      when a king IS in place. */
  function IsDeckLegal(d: Deck): Option<bool> {
    DeckChecks(d, false)
  }

  /** The same checks with the king test the way round its name says: a
      deck is legal only if its king stands on entry 4. */
  function IsDeckLegalIntended(d: Deck): Option<bool> {
    DeckChecks(d, true)
  }

  /** The rules a side's deck must meet, apart from where its king stands. */
  predicate SideRules(s: seq<Slot>, color: Color, limit: int) {
    None !in s && Weight(s).Some? && Weight(s).value <= limit
    && |s| > 4 && s[0].Some? && s[0].value.CanCastle() && s[|s| - 1].Some? && s[|s| - 1].value.CanCastle()
    && !(exists i, j :: 0 <= i < j < |s| && s[i] == Some(Piece(King, color)) && s[j] == Some(Piece(King, color)))
  }

  /** One side passes the weight, extremes and king-count checks and has
      room for entry 4 exactly when it meets `SideRules`. */
  lemma SideChecks(d: Deck, color: Color, limit: int)
    ensures var s := d.GetDeck(color);
      SideRules(s, color, limit) <==>
        Weight(s).Some? && Weight(s).value <= limit
        && CastlingPiecesAtExtremes(d, color) == Some(true)
        && !MoreThanOneKing(d, color) && KingInPlace(d, color).Some?
  {
    WeightDefined(d.GetDeck(color));
    CountAboveOne(d.GetDeck(color), Some(Piece(King, color)));
  }

  /** A deck passes `is_deck_legal` exactly when both sides weigh at most
      64 and 66, have castling pieces at both ends, have at most one king,
      and (as written) do NOT have their king on entry 4. */
  lemma DeckLegalMeans(d: Deck)
    ensures IsDeckLegal(d) == Some(true) <==>
      SideRules(d.whitePieces, WHITE, 64) && SideRules(d.blackPieces, BLACK, 66)
      && d.whitePieces[4] != Some(Piece(King, WHITE)) && d.blackPieces[4] != Some(Piece(King, BLACK))
  {
    hide SideRules, Weight, MoreThanOneKing, CastlingPiecesAtExtremes, KingInPlace;
    SideChecks(d, WHITE, 64);
    SideChecks(d, BLACK, 66);
  }

  /** With the king test the right way round, a deck is legal exactly when
      both sides meet the rules and have their king on entry 4. */
  lemma DeckLegalIntendedMeans(d: Deck)
    ensures IsDeckLegalIntended(d) == Some(true) <==>
      SideRules(d.whitePieces, WHITE, 64) && SideRules(d.blackPieces, BLACK, 66)
      && d.whitePieces[4] == Some(Piece(King, WHITE)) && d.blackPieces[4] == Some(Piece(King, BLACK))
  {
    hide SideRules, Weight, MoreThanOneKing, CastlingPiecesAtExtremes, KingInPlace;
    SideChecks(d, WHITE, 64);
    SideChecks(d, BLACK, 66);
  }

  /** The classical back rank of one side. */
  function ClassicalRank(c: Color): seq<Slot> {
    [Some(Piece(Rook, c)), Some(Piece(Knight, c)), Some(Piece(Bishop, c)), Some(Piece(Queen, c)),
     Some(Piece(King, c)), Some(Piece(Bishop, c)), Some(Piece(Knight, c)), Some(Piece(Rook, c))]
  }

  const CLASSICAL: Deck := Deck(ClassicalRank(WHITE), ClassicalRank(BLACK))

  /** The prices of the classical pieces. */
  lemma ClassicalPrices(c: Color)
    ensures Piece(Rook, c).Price() == 10 && Piece(Knight, c).Price() == 6 && Piece(Bishop, c).Price() == 6
    ensures Piece(Queen, c).Price() == 16 && Piece(King, c).Price() == 0
  { }

  /** The classical rank weighs 60. */
  lemma ClassicalWeight(c: Color)
    ensures Weight(ClassicalRank(c)) == Some(60)
  {
    hide Describe;
    ClassicalPrices(c);
    var s := ClassicalRank(c);
    assert Weight(s[7..]) == Some(10);
    assert Weight(s[6..]) == Some(16);
    assert Weight(s[5..]) == Some(22);
    assert Weight(s[4..]) == Some(22);
    assert Weight(s[3..]) == Some(38);
    assert Weight(s[2..]) == Some(44);
    assert Weight(s[1..]) == Some(50);
  }

  /** The classical rank weighs 60, has rooks at both ends and one king,
      on entry 4. */
  lemma ClassicalSide(c: Color, limit: int)
    requires limit >= 60
    ensures SideRules(ClassicalRank(c), c, limit)
    ensures ClassicalRank(c)[4] == Some(Piece(King, c))
  {
    hide Weight;
    ClassicalWeight(c);
    var s := ClassicalRank(c);
    forall i, j | 0 <= i < j < |s| && s[i] == Some(Piece(King, c))
      ensures s[j] != Some(Piece(King, c))
    { }
  }

  /** The classical deck: `is_deck_legal` as written rejects it, the
      intended test accepts it. */
  lemma ClassicalDeckRejected()
    ensures IsDeckLegal(CLASSICAL) == Some(false)
    ensures IsDeckLegalIntended(CLASSICAL) == Some(true)
  {
    hide SideRules, Weight, MoreThanOneKing, CastlingPiecesAtExtremes, KingInPlace, ClassicalRank;
    ClassicalSide(WHITE, 64);
    ClassicalSide(BLACK, 66);
    DeckLegalIntendedMeans(CLASSICAL);
    SideChecks(CLASSICAL, WHITE, 64);
    SideChecks(CLASSICAL, BLACK, 66);
  }
}
