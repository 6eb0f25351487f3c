/** `FenLoader`: reading a position in Forsyth-Edwards Notation (section
    16.1 of the PGN standard) into the board dictionary of the engine.  The
    loader splits the record on spaces, expands the digits of the piece
    placement into runs of `'1'` and reverses the ranks so that character
    `i` describes square `i`; `load_board` then ORs each piece letter into
    the board of its name, its colour board and `All`, stores the
    en-passant target under the key `"En Passant"`, and sets the castling
    corners named in the castling field. */
module FenLoading {
  import opened Bits
  import opened Wrappers
  import opened Computer
  import opened Pieces
  import opened Dicts
  import opened Boards
  import opened Play

  // ---- str.split and str.join ----

  /** `s.split(sep)`: the pieces between the separators, empty ones
      included. */
  function Split(s: string, sep: char): (r: seq<string>)
    ensures |r| >= 1
    ensures forall i | 0 <= i < |r| :: sep !in r[i]
  {
    if s == [] then [""]
    else
      var rest := Split(s[1..], sep);
      if s[0] == sep then [""] + rest else [[s[0]] + rest[0]] + rest[1..]
  }

  /** `sep.join(parts)`. */
  function Join(parts: seq<string>, sep: char): string
    requires |parts| >= 1
  {
    if |parts| == 1 then parts[0] else parts[0] + [sep] + Join(parts[1..], sep)
  }

  /** Joining the pieces of a split gives the string back. */
  lemma {:induction false} SplitJoin(s: string, sep: char)
    ensures Join(Split(s, sep), sep) == s
  {
    if s != [] {
      var rest := Split(s[1..], sep);
      SplitJoin(s[1..], sep);
      if s[0] != sep {
        if |rest| == 1 {
          assert Join(rest, sep) == rest[0];
        } else {
          assert Join(rest, sep) == rest[0] + [sep] + Join(rest[1..], sep);
        }
      }
      assert s == [s[0]] + s[1..];
    }
  }

  /** A separator-free prefix joins the first piece of the split. */
  lemma {:induction false} SplitPrefix(a: string, t: string, sep: char)
    requires sep !in a
    ensures Split(a + t, sep) == [a + Split(t, sep)[0]] + Split(t, sep)[1..]
    decreases |a|
  {
    if a != [] {
      var st := Split(t, sep);
      assert a[0] in a;
      SplitPrefix(a[1..], t, sep);
      assert (a + t)[0] == a[0] && (a + t)[1..] == a[1..] + t;
      var rest := Split(a[1..] + t, sep);
      assert rest == [a[1..] + st[0]] + st[1..];
      assert rest[0] == a[1..] + st[0] && rest[1..] == st[1..];
      assert Split(a + t, sep) == [[a[0]] + rest[0]] + rest[1..];
      assert [a[0]] + (a[1..] + st[0]) == a + st[0];
    } else {
      var st := Split(t, sep);
      assert a + t == t && a + st[0] == st[0];
      assert st == [st[0]] + st[1..];
    }
  }

  /** Splitting the join of separator-free pieces gives the pieces back. */
  lemma {:induction false} JoinSplit(parts: seq<string>, sep: char)
    requires |parts| >= 1 && forall i | 0 <= i < |parts| :: sep !in parts[i]
    ensures Split(Join(parts, sep), sep) == parts
    decreases |parts|
  {
    if |parts| == 1 {
      SplitPrefix(parts[0], [], sep);
      assert parts[0] + [] == parts[0];
    } else {
      var tail := Join(parts[1..], sep);
      JoinSplit(parts[1..], sep);
      assert Split(tail, sep) == parts[1..];
      var u := [sep] + tail;
      assert u[0] == sep && u[1..] == tail;
      assert Split(u, sep) == [""] + parts[1..];
      SplitPrefix(parts[0], u, sep);
      assert Join(parts, sep) == parts[0] + u;
      assert Split(Join(parts, sep), sep) == [parts[0] + ""] + parts[1..];
      assert parts[0] + "" == parts[0];
      assert parts == [parts[0]] + parts[1..];
    }
  }

  // ---- process_fen ----

  /** A decimal digit (ASCII). */
  predicate IsDigit(c: char) {
    '0' <= c <= '9'
  }

  /** The value of a digit. */
  function DigitValue(c: char): int
    requires IsDigit(c)
  {
    c as int - '0' as int
  }

  /** `'1' * n`. */
  function Ones(n: int): (r: string)
    ensures |r| == if n < 0 then 0 else n
    ensures forall i | 0 <= i < |r| :: r[i] == '1'
    decreases n
  {
    if n <= 0 then [] else Ones(n - 1) + ['1']
  }

  /** The `re.sub` of `process_fen`: every digit `d` becomes `d` copies of
      `'1'`, every other character stays. */
  function ExpandDigits(s: string): (r: string)
    ensures forall i | 0 <= i < |r| :: IsDigit(r[i]) ==> r[i] == '1'
  {
    if s == [] then []
    else (if IsDigit(s[0]) then Ones(DigitValue(s[0])) else [s[0]]) + ExpandDigits(s[1..])
  }

  /** `[::-1]`. */
  function Reverse<T>(xs: seq<T>): (r: seq<T>)
    ensures |r| == |xs| && forall i | 0 <= i < |xs| :: r[i] == xs[|xs| - 1 - i]
  {
    if xs == [] then [] else Reverse(xs[1..]) + [xs[0]]
  }

  /** `"".join(parts)`. */
  function Concat(parts: seq<string>): string {
    if parts == [] then [] else parts[0] + Concat(parts[1..])
  }

  /** No digit other than `'1'`. */
  predicate OnlyOnes(s: string) {
    forall i | 0 <= i < |s| :: IsDigit(s[i]) ==> s[i] == '1'
  }

  /** `process_fen`: expand the digits, split the ranks on `'/'`, put the
      first rank first and concatenate.  Only the digit `'1'` is left. */
  function ProcessFen(fen: string): (r: string)
    ensures OnlyOnes(r)
  {
    var ranks := Reverse(Split(ExpandDigits(fen), '/'));
    SplitOnlyOnes(ExpandDigits(fen));
    ConcatOnlyOnes(ranks);
    Concat(ranks)
  }

  /** The pieces of a split keep a property of every character. */
  lemma {:induction false} SplitOnlyOnes(s: string)
    requires OnlyOnes(s)
    ensures forall k | 0 <= k < |Split(s, '/')| :: OnlyOnes(Split(s, '/')[k])
  {
    if s != [] {
      SplitOnlyOnes(s[1..]);
      var rest := Split(s[1..], '/');
      assert OnlyOnes(rest[0]);
      if s[0] != '/' {
        assert OnlyOnes([s[0]] + rest[0]) by {
          assert s[0] == s[0 + 0];
        }
      }
    }
  }

  /** So does a concatenation. */
  lemma {:induction false} ConcatOnlyOnes(parts: seq<string>)
    requires forall k | 0 <= k < |parts| :: OnlyOnes(parts[k])
    ensures OnlyOnes(Concat(parts))
  {
    if parts != [] {
      ConcatOnlyOnes(parts[1..]);
      assert OnlyOnes(parts[0]);
      var c := Concat(parts);
      forall i | 0 <= i < |c|
        ensures IsDigit(c[i]) ==> c[i] == '1'
      {
        if i < |parts[0]| {
          assert c[i] == parts[0][i];
        } else {
          assert c[i] == Concat(parts[1..])[i - |parts[0]|];
        }
      }
    }
  }

  /** A placement field of eight ranks whose digits and letters fill eight
      squares each. */
  predicate WellFormedPlacement(fen: string) {
    var ranks := Split(fen, '/');
    |ranks| == 8 && forall k | 0 <= k < 8 :: |ExpandDigits(ranks[k])| == 8
  }

  /** Expanding the digits commutes with splitting on `'/'`. */
  lemma {:induction false} ExpandSplit(s: string)
    ensures |Split(ExpandDigits(s), '/')| == |Split(s, '/')|
    ensures forall k | 0 <= k < |Split(s, '/')| :: Split(ExpandDigits(s), '/')[k] == ExpandDigits(Split(s, '/')[k])
  {
    if s != [] {
      var rest := Split(s[1..], '/');
      ExpandSplit(s[1..]);
      var er := Split(ExpandDigits(s[1..]), '/');
      var head := if IsDigit(s[0]) then Ones(DigitValue(s[0])) else [s[0]];
      assert ExpandDigits(s) == head + ExpandDigits(s[1..]);
      if s[0] == '/' {
        SplitPrefix([], ['/'] + ExpandDigits(s[1..]), '/');
        assert ExpandDigits(s) == ['/'] + ExpandDigits(s[1..]);
        assert ([] + (['/'] + ExpandDigits(s[1..]))) == ExpandDigits(s);
        assert (['/'] + ExpandDigits(s[1..]))[1..] == ExpandDigits(s[1..]);
        assert Split(ExpandDigits(s), '/') == [""] + er;
        assert ExpandDigits([]) == [];
      } else {
        assert '/' !in head;
        SplitPrefix(head, ExpandDigits(s[1..]), '/');
        assert ExpandDigits([s[0]] + rest[0]) == head + ExpandDigits(rest[0]) by {
          assert ([s[0]] + rest[0])[1..] == rest[0];
        }
      }
    }
  }

  /** A concatenation of pieces of length eight has the character `f` of
      piece `r` at index `8 * r + f`. */
  lemma {:induction false} ConcatEights(parts: seq<string>, r: int, f: int)
    requires forall k | 0 <= k < |parts| :: |parts[k]| == 8
    requires 0 <= r < |parts| && 0 <= f < 8
    ensures |Concat(parts)| == 8 * |parts|
    ensures Concat(parts)[8 * r + f] == parts[r][f]
    decreases |parts|
  {
    if r == 0 {
      if |parts| > 1 {
        ConcatEights(parts[1..], 0, 0);
      }
    } else {
      ConcatEights(parts[1..], r - 1, f);
    }
  }

  /** For a well-formed placement, `process_fen` gives 64 characters and
      character `8 * r + f` is the square of file `f` in rank `r + 1`: the
      `f`-th character of the expanded rank written `8 - r`-th. */
  lemma ProcessFenSquares(fen: string, r: int, f: int)
    requires WellFormedPlacement(fen) && 0 <= r < 8 && 0 <= f < 8
    ensures |ProcessFen(fen)| == 64
    ensures ProcessFen(fen)[8 * r + f] == ExpandDigits(Split(fen, '/')[7 - r])[f]
  {
    hide Split, ExpandDigits, Concat, Reverse;
    var ranks := Split(ExpandDigits(fen), '/');
    ExpandSplit(fen);
    var rev := Reverse(ranks);
    assert ProcessFen(fen) == Concat(rev);
    forall k | 0 <= k < |rev|
      ensures |rev[k]| == 8
    {
      assert rev[k] == ranks[7 - k];
    }
    ConcatEights(rev, r, f);
  }

  // ---- the record ----

  /** The fields `FenLoader.__init__` keeps: the processed placement and
      the other five fields as strings. */
  datatype FenLoader = FenLoader(board: string, turn: string, castling: string, enPassant: string,
                                 halfmoveClock: string, fullmoveNumber: string)

  /** `FenLoader(fen_string)`: nothing when the record has fewer than six
      space-separated fields (an `IndexError`). */
  function NewFenLoader(fenString: string): (r: Option<FenLoader>)
    ensures r.Some? ==> OnlyOnes(r.value.board)
  {
    var fen := Split(fenString, ' ');
    if |fen| < 6 then None
    else Some(FenLoader(ProcessFen(fen[0]), fen[1], fen[2], fen[3], fen[4], fen[5]))
  }

  /** A record of six space-free fields loads them back, the placement
      through `process_fen`; a record of fewer fields does not load. */
  lemma FieldsRoundTrip(fields: seq<string>)
    requires |fields| >= 1 && forall i | 0 <= i < |fields| :: ' ' !in fields[i]
    ensures NewFenLoader(Join(fields, ' ')).Some? <==> |fields| >= 6
    ensures |fields| >= 6 ==>
      NewFenLoader(Join(fields, ' ')) == Some(FenLoader(ProcessFen(fields[0]), fields[1], fields[2], fields[3], fields[4], fields[5]))
  {
    JoinSplit(fields, ' ');
  }

  /** `load_turn`: white exactly when the field is `"w"`. */
  function LoadTurn(f: FenLoader): (r: Color)
    ensures r == WHITE <==> f.turn == "w"
  {
    if f.turn == "w" then WHITE else BLACK
  }

  // ---- int() ----

  /** The value of a run of digits. */
  function DigitsValue(ds: string): (r: nat)
    requires forall i | 0 <= i < |ds| :: IsDigit(ds[i])
  {
    if ds == [] then 0 else DigitsValue(ds[..|ds| - 1]) * 10 + DigitValue(ds[|ds| - 1])
  }

  /** `int(s)` for a decimal literal with an optional sign; nothing where
      Python raises `ValueError`. */
  function ParseInt(s: string): Option<int> {
    var sign := if |s| > 0 && (s[0] == '-' || s[0] == '+') then 1 else 0;
    var ds := s[sign..];
    if ds == [] || exists i | 0 <= i < |ds| :: !IsDigit(ds[i]) then None
    else
      var v: int := DigitsValue(ds);
      if sign == 1 && s[0] == '-' then Some(-v) else Some(v)
  }

  /** `str(n)` for a natural number. */
  function NatString(n: nat): (r: string)
    ensures |r| >= 1 && forall i | 0 <= i < |r| :: IsDigit(r[i])
  {
    var d := ['0' + (n % 10) as char];
    if n < 10 then d else NatString(n / 10) + d
  }

  /** `str(n)`. */
  function IntString(n: int): string {
    if n < 0 then "-" + NatString(-n) else NatString(n)
  }

  lemma {:induction false} NatStringValue(n: nat)
    ensures DigitsValue(NatString(n)) == n
  {
    var r := NatString(n);
    if n >= 10 {
      NatStringValue(n / 10);
      assert r[..|r| - 1] == NatString(n / 10);
    }
  }

  /** `int(str(n)) == n`: the clocks read back what was written. */
  lemma ParseIntRoundTrip(n: int)
    ensures ParseInt(IntString(n)) == Some(n)
  {
    if n < 0 {
      NatStringValue(-n);
      assert IntString(n)[1..] == NatString(-n);
    } else {
      NatStringValue(n);
      assert IntString(n)[0..] == NatString(n);
    }
  }

  /** `load_halfmove_clock`. */
  function LoadHalfmoveClock(f: FenLoader): Option<int> {
    ParseInt(f.halfmoveClock)
  }

  /** `load_fullmove_number`. */
  function LoadFullmoveNumber(f: FenLoader): Option<int> {
    ParseInt(f.fullmoveNumber)
  }

  // ---- load_board ----

  /** The dictionary `load_board` starts from: the colour boards, `All`,
      the en-passant and the castling board, all empty, in that order. */
  function EmptyBoards(): Dict {
    Dict(["White", "Black", "All", "En passant", "Castling"],
         map["White" := BB_EMPTY, "Black" := BB_EMPTY, "All" := BB_EMPTY, "En passant" := BB_EMPTY, "Castling" := BB_EMPTY])
  }

  /** Then an empty board under the name of each piece of the set; the
      boards already there stay, and every piece of the set has one. */
  function WithPieceBoards(d: Dict, pieces: seq<Piece>): (r: Dict)
    ensures r.entries.Keys == d.entries.Keys + PieceNames(pieces)
  {
    if pieces == [] then d
    else WithPieceBoards(d, pieces[..|pieces| - 1]).Put(pieces[|pieces| - 1].Name(), BB_EMPTY)
  }

  /** The names of the pieces of a set. */
  function PieceNames(pieces: seq<Piece>): set<string> {
    set p | p in pieces :: p.Name()
  }

  /** A character whose lower case is a letter of `ALL_PIECES_DICT`. */
  predicate IsPieceLetter(c: char) {
    LowerChar(c) in ALL_PIECES_DICT
  }

  /** The name a piece letter stands for. */
  function LetterName(c: char): string
    requires IsPieceLetter(c)
  {
    ALL_PIECES_DICT[LowerChar(c)]
  }

  /** The boards a piece letter is written to: the board of its name, the
      white board for an upper-case letter and the black one otherwise, and
      `All`. */
  predicate Writes(c: char, k: string) {
    IsPieceLetter(c) && (k == LetterName(c) || k == ColorKey(IsUpper(c)) || k == "All")
  }

  /** A dictionary holding the three aggregate boards. */
  predicate Aggregates(d: Dict) {
    "White" in d.entries && "Black" in d.entries && "All" in d.entries
  }

  /** A letter writes neither to the castling board nor to an en-passant
      board. */
  lemma WritesNoCastling(c: char, k: string)
    requires Writes(c, k)
    ensures k != "Castling" && !EnPassantKey(k)
  {
    LetterNameIsPieceKey(c);
  }

  /** A piece letter never names an aggregate board. */
  lemma LetterNameIsPieceKey(c: char)
    requires IsPieceLetter(c)
    ensures PieceKey(LetterName(c))
  {
    PieceNamesArePieceKeys(KindOfLetter(LowerChar(c)));
  }

  /** Square `i` ORed into the board of the letter's name, its colour
      board and `All`. */
  function PlaceLetter(d: Dict, c: char, i: int): (r: Dict)
    requires IsPieceLetter(c) && LetterName(c) in d.entries && Aggregates(d) && 0 <= i < 64
    ensures r.keys == d.keys && r.entries.Keys == d.entries.Keys
  {
    var name := LetterName(c);
    var colour := ColorKey(IsUpper(c));
    var d1 := d.Put(name, Or(d.entries[name], SquareBB(i)));
    var d2 := d1.Put(colour, Or(d1.entries[colour], SquareBB(i)));
    d2.Put("All", Or(d2.entries["All"], SquareBB(i)))
  }

  /** The placement loop of `load_board` from character `i` on, with the
      `skipping` counter: nothing when a letter's name has no board (a
      `KeyError`) or a letter stands at index 64 or beyond (an
      `IndexError`). */
  function PlaceFrom(d: Dict, s: string, i: int, skipping: int): (r: Option<Dict>)
    requires 0 <= i <= |s| && Aggregates(d)
    ensures r.Some? ==> r.value.keys == d.keys && r.value.entries.Keys == d.entries.Keys
    decreases |s| - i
  {
    if i == |s| then Some(d)
    else if skipping > 0 then PlaceFrom(d, s, i + 1, skipping - 1)
    else if IsDigit(s[i]) then PlaceFrom(d, s, i + 1, skipping + DigitValue(s[i]) - 1)
    else if !IsPieceLetter(s[i]) then PlaceFrom(d, s, i + 1, skipping)
    else if LetterName(s[i]) !in d.entries || i >= 64 then None
    else PlaceFrom(PlaceLetter(d, s[i], i), s, i + 1, skipping)
  }

  /** A square's name, file letter then rank digit, parses back to it. */
  lemma NamedSquare(sq: int, name: string)
    requires 0 <= sq < 64 && name == [FileName(File(sq)), RankName(Rank(sq))]
    ensures ComputeSquare(name) == Some(sq)
  {
    SquareNameSpelledOut(sq);
    SquareNameRoundTrip(sq);
  }

  /** The board squares of the castling corners. */
  lemma CornerNames()
    ensures ComputeSquare("h1") == Some(7) && ComputeSquare("a1") == Some(0)
    ensures ComputeSquare("h8") == Some(63) && ComputeSquare("a8") == Some(56)
  {
    hide ComputeSquare;
    NamedSquare(7, "h1");
    NamedSquare(0, "a1");
    NamedSquare(63, "h8");
    NamedSquare(56, "a8");
  }

  /** The en-passant field: a target other than `"-"` goes, as a one-square
      board, under the new key `"En Passant"`; nothing when it is not a
      square name (a `ValueError`). */
  function WithEnPassant(d: Dict, f: FenLoader): (r: Option<Dict>)
    ensures r.Some? ==> forall k | k in d.entries && k != "En Passant" :: k in r.value.entries && r.value.entries[k] == d.entries[k]
  {
    if f.enPassant == "-" then Some(d)
    else match ComputeSquare(f.enPassant)
      case None => None
      case Some(sq) => Some(d.Put("En Passant", SquareBB(sq)))
  }

  /** One line of the castling field: when `letter` occurs in it, the
      corner `sq` is added to the castling board. */
  function AddCorner(d: Dict, castling: string, letter: char, sq: int): (r: Dict)
    requires "Castling" in d.entries && 0 <= sq < 64
    ensures r.keys == d.keys && r.entries.Keys == d.entries.Keys
    ensures forall k | k in d.entries && k != "Castling" :: r.entries[k] == d.entries[k]
  {
    if letter in castling then d.Put("Castling", Or(d.entries["Castling"], SquareBB(sq))) else d
  }

  /** The castling field: `K`, `Q`, `k` and `q` add h1, a1, h8 and a8 to
      the castling board. */
  function WithCastling(d: Dict, castling: string): (r: Dict)
    requires "Castling" in d.entries
    ensures r.keys == d.keys && r.entries.Keys == d.entries.Keys
    ensures forall k | k in d.entries && k != "Castling" :: r.entries[k] == d.entries[k]
  {
    CornerNames();
    var d1 := AddCorner(d, castling, 'K', ComputeSquare("h1").value);
    var d2 := AddCorner(d1, castling, 'Q', ComputeSquare("a1").value);
    var d3 := AddCorner(d2, castling, 'k', ComputeSquare("h8").value);
    AddCorner(d3, castling, 'q', ComputeSquare("a8").value)
  }

  /** `load_board` with the piece set listed as `pieces`: the five fixed
      boards, a board per piece of the set and, when the field names a
      target, `"En Passant"`. */
  function LoadedBoard(f: FenLoader, pieces: seq<Piece>): (r: Option<Dict>)
    ensures r.Some? ==>
      r.value.entries.Keys == EmptyBoards().entries.Keys + PieceNames(pieces) + (if f.enPassant != "-" then {"En Passant"} else {})
  {
    var d := WithPieceBoards(EmptyBoards(), pieces);
    match PlaceFrom(d, f.board, 0, 0)
    case None => None
    case Some(d1) =>
      match WithEnPassant(d1, f)
      case None => None
      case Some(d2) => Some(WithCastling(d2, f.castling))
  }

  /** The first loop of `load_board`: a board per piece of the set. */
  method PieceBoards(pieces: seq<Piece>) returns (board: Dict)
    ensures board == WithPieceBoards(EmptyBoards(), pieces)
  {
    board := EmptyBoards();
    for k := 0 to |pieces|
      invariant board == WithPieceBoards(EmptyBoards(), pieces[..k])
    {
      assert pieces[..k + 1][..k] == pieces[..k];
      board := board.Put(pieces[k].Name(), BB_EMPTY);
    }
    assert pieces[..|pieces|] == pieces;
  }

  /** The second loop of `load_board`: the pieces of the processed
      placement written to their boards. */
  method PlacePieces(d: Dict, s: string) returns (r: Option<Dict>)
    requires Aggregates(d)
    ensures r == PlaceFrom(d, s, 0, 0)
  {
    var board := d;
    var skipping := 0;
    for i := 0 to |s|
      invariant Aggregates(board)
      invariant PlaceFrom(board, s, i, skipping) == PlaceFrom(d, s, 0, 0)
    {
      var c := s[i];
      if skipping > 0 {
        skipping := skipping - 1;
        continue;
      }
      if IsDigit(c) {
        skipping := skipping + DigitValue(c) - 1;
        continue;
      }
      if !IsPieceLetter(c) {
        continue;
      }
      var name := LetterName(c);
      if name !in board.entries || i >= 64 {
        return None;
      }
      board := board.Put(name, Or(board.entries[name], SquareBB(i)));
      var colour := ColorKey(IsUpper(c));
      board := board.Put(colour, Or(board.entries[colour], SquareBB(i)));
      board := board.Put("All", Or(board.entries["All"], SquareBB(i)));
    }
    r := Some(board);
  }

  /** `load_board`. */
  method LoadBoard(f: FenLoader, pieces: seq<Piece>) returns (r: Option<Dict>)
    ensures r == LoadedBoard(f, pieces)
  {
    hide ComputeSquare, PlaceFrom, WithPieceBoards, SquareBB, AddCorner;
    var board := PieceBoards(pieces);
    var placed := PlacePieces(board, f.board);
    if placed.None? {
      return None;
    }
    board := placed.value;
    if f.enPassant != "-" {
      var sq := ComputeSquare(f.enPassant);
      if sq.None? {
        return None;
      }
      board := board.Put("En Passant", SquareBB(sq.value));
    }
    CornerNames();
    board := AddCorner(board, f.castling, 'K', ComputeSquare("h1").value);
    board := AddCorner(board, f.castling, 'Q', ComputeSquare("a1").value);
    board := AddCorner(board, f.castling, 'k', ComputeSquare("h8").value);
    board := AddCorner(board, f.castling, 'q', ComputeSquare("a8").value);
    r := Some(board);
  }

  // ---- what load_board builds ----

  /** A digit is not a piece letter. */
  lemma DigitNotLetter(c: char)
    requires IsDigit(c)
    ensures !IsPieceLetter(c)
  {
    LettersLowerCase();
  }

  /** The fixed boards start empty. */
  lemma EmptyBoardsEmpty()
    ensures EmptyBoards().entries.Keys == {"White", "Black", "All", "En passant", "Castling"}
    ensures forall k | k in EmptyBoards().entries :: EmptyBoards().entries[k] == BB_EMPTY
  {
  }

  /** The piece boards all start empty. */
  lemma {:induction false} PieceBoardsEmpty(d: Dict, pieces: seq<Piece>)
    requires forall k | k in d.entries :: d.entries[k] == BB_EMPTY
    ensures forall k | k in WithPieceBoards(d, pieces).entries :: WithPieceBoards(d, pieces).entries[k] == BB_EMPTY
    decreases |pieces|
  {
    if pieces != [] {
      PieceBoardsEmpty(d, pieces[..|pieces| - 1]);
    }
  }

  /** Placing a letter sets square `i` in exactly the boards it writes. */
  lemma PlaceLetterBits(d: Dict, c: char, i: int, k: string, t: int)
    requires IsPieceLetter(c) && LetterName(c) in d.entries && Aggregates(d) && 0 <= i < 64
    requires k in d.entries && 0 <= t
    ensures Has(PlaceLetter(d, c, i).entries[k], t) == (Has(d.entries[k], t) || (t == i && Writes(c, k)))
  {
    hide Has, Or, SquareBB;
    var name := LetterName(c);
    var colour := ColorKey(IsUpper(c));
    var d1 := d.Put(name, Or(d.entries[name], SquareBB(i)));
    var d2 := d1.Put(colour, Or(d1.entries[colour], SquareBB(i)));
    SetBit(d.entries[name], i, t);
    SetBit(d1.entries[colour], i, t);
    SetBit(d2.entries["All"], i, t);
  }

  /** On a processed placement the loop sets, in each board, exactly the
      squares from `i` on whose letter writes to it. */
  lemma {:induction false} PlaceFromBits(d: Dict, s: string, i: int, k: string, t: int)
    requires 0 <= i <= |s| && Aggregates(d) && OnlyOnes(s) && PlaceFrom(d, s, i, 0).Some?
    requires k in d.entries && 0 <= t
    ensures Has(PlaceFrom(d, s, i, 0).value.entries[k], t) == (Has(d.entries[k], t) || (i <= t < |s| && Writes(s[t], k)))
    decreases |s| - i
  {
    if i < |s| {
      if IsDigit(s[i]) {
        DigitNotLetter(s[i]);
        PlaceFromBits(d, s, i + 1, k, t);
      } else if !IsPieceLetter(s[i]) {
        PlaceFromBits(d, s, i + 1, k, t);
      } else {
        var d1 := PlaceLetter(d, s[i], i);
        PlaceLetterBits(d, s[i], i, k, t);
        PlaceFromBits(d1, s, i + 1, k, t);
      }
    }
  }

  /** On a processed placement the loop fails exactly when some letter
      from `i` on names a piece without a board, or stands past square 63. */
  lemma {:induction false} PlaceFromFails(d: Dict, s: string, i: int)
    requires 0 <= i <= |s| && Aggregates(d) && OnlyOnes(s)
    ensures PlaceFrom(d, s, i, 0).None? <==>
      exists t :: i <= t < |s| && IsPieceLetter(s[t]) && (LetterName(s[t]) !in d.entries || t >= 64)
    decreases |s| - i
  {
    if i < |s| {
      if IsDigit(s[i]) {
        DigitNotLetter(s[i]);
        PlaceFromFails(d, s, i + 1);
      } else if !IsPieceLetter(s[i]) {
        PlaceFromFails(d, s, i + 1);
      } else if LetterName(s[i]) in d.entries && i < 64 {
        PlaceFromFails(PlaceLetter(d, s[i], i), s, i + 1);
      }
    }
  }

  /** A castling board holds a corner exactly when its letter occurs in the
      castling field. */
  lemma AddCornerBits(d: Dict, castling: string, letter: char, sq: int, t: int)
    requires "Castling" in d.entries && 0 <= sq < 64 && 0 <= t
    ensures Has(AddCorner(d, castling, letter, sq).entries["Castling"], t) ==
      (Has(d.entries["Castling"], t) || (letter in castling && t == sq))
  {
    if letter in castling {
      SetBit(d.entries["Castling"], sq, t);
    }
  }

  /** The corners the castling field grants. */
  predicate CornerGranted(castling: string, t: int) {
    (t == 7 && 'K' in castling) || (t == 0 && 'Q' in castling)
    || (t == 63 && 'k' in castling) || (t == 56 && 'q' in castling)
  }

  lemma CastlingBits(d: Dict, castling: string, t: int)
    requires "Castling" in d.entries && 0 <= t
    ensures Has(WithCastling(d, castling).entries["Castling"], t) ==
      (Has(d.entries["Castling"], t) || CornerGranted(castling, t))
  {
    hide Has, AddCorner, ComputeSquare;
    CornerNames();
    var d1 := AddCorner(d, castling, 'K', 7);
    var d2 := AddCorner(d1, castling, 'Q', 0);
    var d3 := AddCorner(d2, castling, 'k', 63);
    AddCornerBits(d, castling, 'K', 7, t);
    AddCornerBits(d1, castling, 'Q', 0, t);
    AddCornerBits(d2, castling, 'k', 63, t);
    AddCornerBits(d3, castling, 'q', 56, t);
  }

  /** Each piece, colour and `All` board of a loaded board holds exactly
      the squares whose letter writes to it; the `"En passant"` board the
      engine reads stays empty. */
  lemma LoadedBoardBits(f: FenLoader, pieces: seq<Piece>, k: string, t: int)
    requires OnlyOnes(f.board) && LoadedBoard(f, pieces).Some? && 0 <= t
    requires k in LoadedBoard(f, pieces).value.entries && k != "Castling" && k != "En Passant"
    ensures Has(LoadedBoard(f, pieces).value.entries[k], t) <==> t < |f.board| && Writes(f.board[t], k)
  {
    hide Has, WithCastling, PlaceFrom, Writes, ComputeSquare, WithPieceBoards, SquareBB, WithEnPassant, EmptyBoards;
    EmptyBoardsEmpty();
    var d := WithPieceBoards(EmptyBoards(), pieces);
    PieceBoardsEmpty(EmptyBoards(), pieces);
    var d1 := PlaceFrom(d, f.board, 0, 0).value;
    PlaceFromBits(d, f.board, 0, k, t);
    HasZero(t);
  }

  /** The castling board of a loaded board holds the granted corners. */
  lemma LoadedCastling(f: FenLoader, pieces: seq<Piece>, t: int)
    requires OnlyOnes(f.board) && LoadedBoard(f, pieces).Some? && 0 <= t
    ensures Has(LoadedBoard(f, pieces).value.entries["Castling"], t) <==> CornerGranted(f.castling, t)
  {
    hide Has, WithCastling, PlaceFrom, Writes, ComputeSquare, WithPieceBoards, SquareBB, WithEnPassant, EmptyBoards;
    EmptyBoardsEmpty();
    var d := WithPieceBoards(EmptyBoards(), pieces);
    PieceBoardsEmpty(EmptyBoards(), pieces);
    var d1 := PlaceFrom(d, f.board, 0, 0).value;
    var d2 := WithEnPassant(d1, f).value;
    PlaceFromBits(d, f.board, 0, "Castling", t);
    HasZero(t);
    if t < |f.board| && Writes(f.board[t], "Castling") {
      WritesNoCastling(f.board[t], "Castling");
    }
    CastlingBits(d2, f.castling, t);
    assert d2.entries["Castling"] == d1.entries["Castling"];
  }

  /** A named en-passant target is stored, as its one-square board, under
      `"En Passant"`. */
  lemma LoadedEnPassant(f: FenLoader, pieces: seq<Piece>)
    requires LoadedBoard(f, pieces).Some? && f.enPassant != "-"
    ensures ComputeSquare(f.enPassant).Some?
    ensures LoadedBoard(f, pieces).value.entries["En Passant"] == SquareBB(ComputeSquare(f.enPassant).value)
  {
    hide ComputeSquare, PlaceFrom, WithCastling, WithPieceBoards, SquareBB;
  }

  /** Loading fails exactly when a letter names a piece outside the set
      (a `KeyError`), a letter stands past square 63 (an `IndexError`), or
      the en-passant field is neither `"-"` nor a square name. */
  lemma LoadedBoardFails(f: FenLoader, pieces: seq<Piece>)
    requires OnlyOnes(f.board)
    ensures LoadedBoard(f, pieces).None? <==>
      (exists t :: 0 <= t < |f.board| && IsPieceLetter(f.board[t]) && (LetterName(f.board[t]) !in PieceNames(pieces) || t >= 64))
      || (f.enPassant != "-" && ComputeSquare(f.enPassant).None?)
  {
    hide WithCastling, PlaceFrom, ComputeSquare, WithPieceBoards, EmptyBoards;
    EmptyBoardsEmpty();
    var d := WithPieceBoards(EmptyBoards(), pieces);
    PlaceFromFails(d, f.board, 0);
    forall t | 0 <= t < |f.board| && IsPieceLetter(f.board[t])
      ensures LetterName(f.board[t]) in d.entries <==> LetterName(f.board[t]) in PieceNames(pieces)
    {
      LetterNameIsPieceKey(f.board[t]);
    }
  }

  /** A loaded board is consistent on every square: `All` is the union of
      the two colours, which do not overlap; a piece in `All` stands on
      the board and on exactly one piece board; and the `"En passant"`
      board the engine reads is empty. */
  lemma LoadedBoardConsistent(f: FenLoader, pieces: seq<Piece>, t: int)
    requires OnlyOnes(f.board) && LoadedBoard(f, pieces).Some? && 0 <= t
    ensures var r := LoadedBoard(f, pieces).value.entries;
      (Has(r["All"], t) <==> Has(r["White"], t) || Has(r["Black"], t))
      && !(Has(r["White"], t) && Has(r["Black"], t))
      && !Has(r["En passant"], t)
      && (Has(r["All"], t) ==>
            t < 64 && t < |f.board| && IsPieceLetter(f.board[t]) && LetterName(f.board[t]) in r && Has(r[LetterName(f.board[t])], t))
      && (forall k | k in r && PieceKey(k) && Has(r[k], t) :: Has(r["All"], t))
      && (forall k1, k2 | k1 in r && k2 in r && PieceKey(k1) && PieceKey(k2) && Has(r[k1], t) && Has(r[k2], t) :: k1 == k2)
  {
    hide WithCastling, PlaceFrom, ComputeSquare, WithPieceBoards, EmptyBoards, LoadedBoard, Has;
    EmptyBoardsEmpty();
    var r := LoadedBoard(f, pieces).value.entries;
    LoadedBoardBits(f, pieces, "All", t);
    LoadedBoardBits(f, pieces, "White", t);
    LoadedBoardBits(f, pieces, "Black", t);
    LoadedBoardBits(f, pieces, "En passant", t);
    if t < |f.board| && Writes(f.board[t], "En passant") {
      WritesNoCastling(f.board[t], "En passant");
    }
    if Has(r["All"], t) {
      var c := f.board[t];
      LetterNameIsPieceKey(c);
      LoadedBoardFails(f, pieces);
      assert LetterName(c) in r;
      LoadedBoardBits(f, pieces, LetterName(c), t);
    }
    forall k | k in r && PieceKey(k) && Has(r[k], t)
      ensures Has(r["All"], t)
    {
      LoadedBoardBits(f, pieces, k, t);
    }
    forall k1, k2 | k1 in r && k2 in r && PieceKey(k1) && PieceKey(k2) && Has(r[k1], t) && Has(r[k2], t)
      ensures k1 == k2
    {
      LoadedBoardBits(f, pieces, k1, t);
      LoadedBoardBits(f, pieces, k2, t);
    }
  }

  /** Adding the piece boards keeps a dictionary well formed. */
  lemma {:induction false} WithPieceBoardsValid(d: Dict, pieces: seq<Piece>)
    requires d.Valid()
    ensures WithPieceBoards(d, pieces).Valid()
    decreases |pieces|
  {
    if pieces != [] {
      WithPieceBoardsValid(d, pieces[..|pieces| - 1]);
      PutValid(WithPieceBoards(d, pieces[..|pieces| - 1]), pieces[|pieces| - 1].Name(), BB_EMPTY);
    }
  }

  /** No piece of a set is named after the en-passant board. */
  lemma PieceNamesNotEnPassant(pieces: seq<Piece>)
    ensures "En Passant" !in PieceNames(pieces)
  {
    forall p | p in pieces
      ensures p.Name() != "En Passant"
    {
      PieceNamesArePieceKeys(p.kind);
    }
  }

  /** A loaded board is a well-formed dictionary: each key listed once. */
  lemma LoadedKeysValid(f: FenLoader, pieces: seq<Piece>)
    requires LoadedBoard(f, pieces).Some?
    ensures LoadedBoard(f, pieces).value.Valid()
  {
    hide Has, Or, WithCastling, PlaceFrom, PlaceLetter, Writes, ComputeSquare, WithPieceBoards, SquareBB, EmptyBoards, Dict.Valid;
    EmptyBoardsValid();
    EmptyBoardsEmpty();
    var d := WithPieceBoards(EmptyBoards(), pieces);
    WithPieceBoardsValid(EmptyBoards(), pieces);
    assert Aggregates(d);
    var o1 := PlaceFrom(d, f.board, 0, 0);
    assert o1.Some?;
    var d1 := o1.value;
    SameKeysValid(d, d1);
    var o2 := WithEnPassant(d1, f);
    assert o2.Some?;
    var d2 := o2.value;
    if f.enPassant != "-" {
      PutValid(d1, "En Passant", SquareBB(ComputeSquare(f.enPassant).value));
    }
    assert LoadedBoard(f, pieces).value == WithCastling(d2, f.castling);
    SameKeysValid(d2, WithCastling(d2, f.castling));
  }

  /** The keys of a loaded board: the fixed boards, the piece boards, and
      `"En Passant"` when the field names a target. */
  lemma LoadedKeys(f: FenLoader, pieces: seq<Piece>)
    requires LoadedBoard(f, pieces).Some?
    ensures LoadedBoard(f, pieces).value.entries.Keys ==
      {"White", "Black", "All", "En passant", "Castling"} + PieceNames(pieces) + (if f.enPassant != "-" then {"En Passant"} else {})
  {
    EmptyBoardsEmpty();
  }

  /** The fixed boards are listed once each. */
  lemma EmptyBoardsValid()
    ensures EmptyBoards().Valid()
  {
  }

  /** Each board of a loaded board is a 64-bit board: the castling board
      holds corners, the en-passant target is one square, and every other
      board holds squares of letters the loader accepted. */
  lemma LoadedEntryBitboard(f: FenLoader, pieces: seq<Piece>, k: string)
    requires OnlyOnes(f.board) && LoadedBoard(f, pieces).Some? && k in LoadedBoard(f, pieces).value.entries
    ensures IsBitboard(LoadedBoard(f, pieces).value.entries[k])
  {
    hide Has, WithCastling, PlaceFrom, ComputeSquare, WithPieceBoards, SquareBB, WithEnPassant, EmptyBoards, LoadedBoard;
    EmptyBoardsEmpty();
    var b := LoadedBoard(f, pieces).value.entries[k];
    if k == "En Passant" {
      PieceNamesNotEnPassant(pieces);
      LoadedEnPassant(f, pieces);
      SquareIsBitboard(ComputeSquare(f.enPassant).value);
    } else {
      LoadedBoardFails(f, pieces);
      forall t | 0 <= t && Has(b, t)
        ensures t < 64
      {
        if k == "Castling" {
          LoadedCastling(f, pieces, t);
        } else {
          LoadedBoardBits(f, pieces, k, t);
        }
      }
      WithinIsBitboard(b);
    }
  }
}
