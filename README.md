# Calabruix bitboard core in Dafny

Calabruix is a chess engine for "chess decks". Each side chooses its own back
rank (a deck of eight entries, each a piece or empty) from an extended piece
family: king, pawn, bishop, knight, rook, queen, archbishop, chancellor, ghost
and wall. The engine keeps the position as a dictionary of 64-bit bitboards:
one board per piece type, the aggregates `White`, `Black` and `All`, the
castling rights and the en-passant target. It precomputes slider attack tables
with the magic-free "mask plus subset table" scheme, walking every subset of
each mask with the carry-rippler trick. From these it generates pseudo-legal
moves, check escapes and legal moves, plays moves and reports the game status.

This project models that core and proves properties of the model:

- `bits.dfy`: Python's unbounded two's-complement integers as bitboards.
  `Has`, `And`, `Or`, `Xor`, `Not` and shifts are defined bit by bit.
- `computer.dfy`: the square arithmetic and constants of `computer.py`.
  - the sliding-attack walk (a `method` with its loop) and its square-by-square meaning;
  - the masks, the carry rippler (a `method`) and the mask/attack tables (methods);
  - the proof that a table lookup `ATTACK[sq][MASK[sq] & occ]` equals walking the full occupancy.
- `subsets.dfy`: the numbering of the subsets of a mask, which the carry rippler steps through.
- `rays.dfy`: `compute_rays` (a `method` building the 64 x 64 table), `compute_ray` and `compute_between`.
- `bitboards.dfy`: the shifts, `lsb`, `msb`, `is_one_bit_on`, and the two scans (methods with loops).
  The four board flips are proved to move each square to its mirror image and to be involutions.
- `pieces.dfy`: the piece classes as a `Kind` and a colour, the FEN letters and the symbols.
- `move.py` is modelled in `move.dfy`.
- `decks.dfy`: the `Deck` checks, including `is_deck_legal`.
- `dicts.dfy` and `boards.dfy`: the game dictionary.
  - It is an insertion-ordered Python `dict` of bitboards.
  - Modelled here: `get_type_at`, `get_color_at`, `remove_piece_at` and `set_piece_at`.
  - The consistency invariant: on every square, `All` is `White` or `Black`, exactly one piece board holds an occupied square, and so on.
- `play.dfy`: the steps of `push` and `push` itself, as functions on the dictionary.
- `position.dfy` and `movegen.dfy`: the attack analyses and the move generators, as reference functions with square-by-square lemmas.
  - attack analyses: `get_mask_attack`, attackers, blockers and snipers, `is_ep_skewered`, `is_safe`;
  - move generators: attack moves, pawn pushes, castling, pseudo moves, escape moves, legal moves and the game status.
- `fen_loader.dfy`: the `FenLoader` (`process_fen`, `load_board` with its loops as methods, the turn and the clocks).
- `setup.dfy`: the dictionaries `reset_game`, `load_deck`, `clear_game` and `create_dict_attacks` build.
- `chess_deck.dfy`: the `ChessDeck` object as a Dafny `class`.
  - Its fields are the ones the source updates in place: the game dictionary, the attack descriptions, the turn and the clocks.
  - Every method of the source becomes a method. Each is proved to compute the reference function of the modules above, or to leave the state it describes.

Bitboards are Python `int`s (`Bitboard = int`), not machine words. Squares are
`int`s, so that Python's negative list indexing (`BB_SQUARES[-1]` is h8) is
modelled where the source can reach it. Python exceptions (`KeyError`,
`IndexError`, `ValueError`, `AttributeError`) become `None` results of the
reference functions.

## Model

| member | source | states |
|---|---|---|
| Computer.CoordinatesOfSquare | Source/computer.py:71-76 | the file of any square is in 0..7, the square is 8 * rank + file, and it is a board square exactly when its rank is in 0..7 |
| Computer.SquareOfCoordinates | Source/computer.py:71-76 | the file and rank of `8 * r + f` are `f` and `r` |
| Computer.HasFileA | Source/computer.py:33-42 | the file-a pattern holds exactly the board squares with file 0 |
| Computer.HasSquareBB | Source/computer.py:20-29 | `BB_SQUARES[sq]` holds exactly square `sq`, a negative index counting back from h8 |
| Computer.HasAll | Source/computer.py:7 | `BB_ALL` holds exactly the 64 board squares |
| Computer.HasFile | Source/computer.py:33-42 | `BB_FILES[i]` holds exactly the board squares of file `i`, a negative index counting back from file h |
| Computer.HasRank | Source/computer.py:44-53 | `BB_RANKS[i]` holds exactly the board squares of rank `i`, a negative index counting back from rank 8 |
| Computer.HasCorners | Source/computer.py:31 | `BB_CORNERS` holds exactly a1, h1, a8 and h8 |
| Computer.HasPromotionRanks | Source/computer.py:58 | `BB_PROMOTION_RANKS` holds exactly the squares of ranks 1 and 8 |
| Computer.AllIsBitboard | Source/computer.py:7 | the full board is a 64-bit board |
| Computer.FileIsBitboard | Source/computer.py:33-42 | every file board fits in 64 bits |
| Computer.RankIsBitboard | Source/computer.py:44-53 | every rank board fits in 64 bits |
| Computer.SquareIsBitboard | Source/computer.py:20-29 | every square board fits in 64 bits |
| Computer.NamesSpelledOut | Source/computer.py:55-56 | `FILE_NAMES[f]` is the letter of file `f` and `RANK_NAMES[r]` the digit of rank `r` |
| Computer.NamesFromIndex | Source/computer.py:57 | the comprehension lists the squares rank by rank from a1: entry `sq` is the name of square `sq` |
| Computer.IndexOf | Source/computer.py:63-64 | `list.index` finds a position exactly when the value occurs; it is the first position holding it |
| Computer.ComputeSquare | Source/computer.py:63-64 | a name that parses denotes a board square |
| Computer.SquareNameSpelledOut | Source/computer.py:66-68 | the name of a board square is its file letter a..h then its rank digit 1..8 |
| Computer.SquareNamesDistinct | Source/computer.py:57 | two board squares have the same name exactly when they are the same square |
| Computer.SquareNameRoundTrip | Source/computer.py:63-68 | parsing the name of a board square gives the square back |
| Computer.ParsedNameShape | Source/computer.py:63-64 | a name that parses is a file letter and a rank digit, and denotes the square of that file and rank |
| Computer.WellFormedNameParses | Source/computer.py:63-64 | every file letter followed by a rank digit parses |
| Computer.DistanceIsMetric | Source/computer.py:78-79 | the king distance is non-negative, zero exactly between equal squares, and symmetric |
| Computer.DistanceTriangle | Source/computer.py:78-79 | the king distance satisfies the triangle inequality |
| Computer.DistanceAtLeastFiles | Source/computer.py:78-79 | the distance is at least the file difference |
| Computer.DistanceBound | Source/computer.py:78-79 | two board squares are at most 7 apart |
| Computer.EdgesSquares | Source/computer.py:81-87 | the edges of `sq` are the squares of ranks 1 and 8 not on `sq`'s rank and of files a and h not on `sq`'s file |
| Computer.ComputeSlidingAttacks | Source/computer.py:89-108 | the loop computes the union of the walks along each delta, each up to and including the first occupied square |
| Computer.OccupiedTest | Source/computer.py:105 | the test `occupied & BB_SQUARES[sq]` is non-zero exactly when `sq` is occupied |
| Computer.RayAttacksSquares | Source/computer.py:96-106 | one walk attacks exactly the squares it steps onto, one by one, while the wrap guard lets it continue |
| Computer.SlidingAttacksSquares | Source/computer.py:89-108 | a square is attacked exactly when the walk along some delta reaches it |
| Computer.RayAhead | Source/computer.py:99-106 | a walk moves strictly away from its start, upward for a positive delta and downward for a negative one |
| Computer.OriginNotAttacked | Source/computer.py:89-108 | the starting square is never attacked |
| Computer.RayStopsAtFirstBlocker | Source/computer.py:98-106 | a walk attacks exactly those squares of its empty-board walk that no occupied square precedes |
| Computer.StepAttacksSquares | Source/computer.py:110-115 | the step attacks are the squares `square + delta` on the board and within two files and ranks (the walk over a full board stops after one step) |
| Computer.StepGeometry | Source/computer.py:101 | for slider deltas the wrap guard passes exactly when the file and the rank move by the step and stay on the board |
| Computer.StepWraps | Source/computer.py:101 | a slider step that would leave the files is stopped by the guard |
| Computer.EmptyRay | Source/computer.py:96-108 | on an empty board a slider walk reaches exactly the board squares ahead of it on its line, never wrapping round an edge |
| Computer.EmptyDiagonals | Source/computer.py:175 | the empty-board diagonal attacks are the other squares of both diagonals through the square |
| Computer.EmptyRank | Source/computer.py:177 | the empty-board rank attacks are the other squares of the rank |
| Computer.EmptyFile | Source/computer.py:176 | the empty-board file attacks are the other squares of the file |
| Computer.RayIsBitboard | Source/computer.py:96-106 | a walk only attacks board squares |
| Computer.SlidingIsBitboard | Source/computer.py:89-108 | sliding attacks are a 64-bit board |
| Computer.MaskSquares | Source/computer.py:127 | the mask is the empty-board attacks minus the edges of the square, and never holds the square |
| Computer.MaskCovers | Source/computer.py:127 | the mask holds every square a slider walk can step past |
| Computer.LookupEquation | Source/computer.py:127-129 | walking with the occupancy masked by the mask gives the same attacks as walking with the full occupancy |
| Computer.CarryRippler | Source/computer.py:136-144 | the generator yields every subset of the mask exactly once, the empty subset first: 2^popcount(mask) subsets, and the k-th has number k |
| Computer.ComputeSquareTable | Source/computer.py:125-132 | one square's mask and a table whose keys are exactly the subsets of the mask, each mapped to the attacks with that occupancy |
| Computer.ComputeMaskAttackTable | Source/computer.py:117-134 | 64 masks and 64 tables, square by square as above |
| Computer.SliderLists | Source/computer.py:175-177 | the diagonal, file and rank delta lists are slider steps |
| Computer.TableAttacks | Source/computer.py:175-177 | a lookup `ATTACK[sq][MASK[sq] & occupied]` in the module tables gives the sliding attacks with the full occupancy |
| Computer.MaskedKey | Source/computer.py:127-129 | the lookup key `MASK[sq] & occupied` is a subset of the mask, so it is a key of the table |
| Subsets.RippleIsSubtraction | Source/computer.py:142 | the step `(subset - mask) & mask` is the ripple with carry 1 |
| Subsets.RippleStep | Source/computer.py:142-144 | a ripple step takes subset number k to subset number k + 1, and the last subset to the empty one |
| Subsets.EmptySubset | Source/computer.py:139 | the empty board is subset number 0 |
| Subsets.CompressInjective | Source/computer.py:136-144 | different subsets have different numbers |
| Subsets.NonEmptyNumber | Source/computer.py:143-144 | only the empty subset has number 0, so the loop stops after the last subset |
| Rays.EmptyEntry | Source/computer.py:154-159 | entry 0 of a square's attack table is the empty-board walk |
| Rays.DiagonalCase | Source/computer.py:154-155 | the diagonal branch gives the squares of the diagonal through both squares |
| Rays.RankCase | Source/computer.py:156-157 | the rank branch gives the whole rank |
| Rays.FileCase | Source/computer.py:158-159 | the file branch gives the whole file |
| Rays.RaySquares | Source/computer.py:146-163 | `RAYS[a][b]` holds the board squares of the line through `a` and `b` when they are distinct and aligned, and nothing otherwise |
| Rays.RayEnds | Source/computer.py:146-163 | the ray of two aligned squares contains both |
| Rays.RaySymmetric | Source/computer.py:146-163 | `RAYS[a][b] == RAYS[b][a]` |
| Rays.RayEmpty | Source/computer.py:160-161 | the ray is empty exactly when the squares are equal or unaligned |
| Rays.ComputeRays | Source/computer.py:146-163 | the loops build the 64 x 64 table entry by entry from entry 0 of the three attack tables |
| Rays.HalfOpenRange | Source/computer.py:171 | `(ALL << a) ^ (ALL << b)` holds, below 64, exactly the indices from min(a, b) up to but not including max(a, b) |
| Rays.CutSquares | Source/computer.py:171 | the cut ray is the ray restricted to that index range |
| Rays.CutLowest | Source/computer.py:171-172 | the lowest bit of the cut ray, which `bb & (bb - 1)` clears, is the lower endpoint |
| Rays.BetweenSquares | Source/computer.py:169-172 | `compute_between(a, b)` holds the squares of the line strictly between `a` and `b`, and nothing when they are equal or unaligned |
| Rays.BetweenIsBitboard | Source/computer.py:169-172 | the between board is a 64-bit board |
| Rays.BetweenInRay | Source/computer.py:169-172 | between squares lie on the ray and exclude both ends |
| Rays.BetweenSymmetric | Source/computer.py:169-172 | `compute_between(a, b) == compute_between(b, a)` |
| Rays.BetweenNeighbours | Source/computer.py:169-172 | nothing lies between neighbouring squares |
| Bitboards.ShiftDownSquares | Source/bitboards.py:8-12 | `shift_down`, `shift_2_down`, `shift_down_left` and `shift_down_right` (lines 38-42) keep a bitboard a bitboard; each square receives the square 8, 16, 9 or 7 above it, never wrapping across the board |
| Bitboards.ShiftUpSquares | Source/bitboards.py:14-18 | the upward shifts are cut to 64 bits; each square receives the square 8 or 16 below it |
| Bitboards.ShiftRightSquares | Source/bitboards.py:20-21 | `shift_right`, `shift_up_left` and `shift_up_right` (lines 32-36) give bitboards; each square receives the square 1, 7 or 9 behind it, and the wrapped-onto file is cleared |
| Bitboards.ShiftLeftSquares | Source/bitboards.py:26-30 | the left shifts keep a bitboard a bitboard and never set file h; `shift_2_left` never sets file g either |
| Bitboards.Shift2RightSquares | Source/bitboards.py:23-24 | `shift_2_right` as written: each square receives the square two to its left, except on files a and c |
| Bitboards.Shift2RightWraps | Source/bitboards.py:23-24 | as written, h1 wraps onto b2 and a1 never reaches c1 |
| Bitboards.Shift2RightIntendedSquares | Source/bitboards.py:23-24 | the corrected shift moves every square two files right on its own rank and drops files g and h |
| Bitboards.EmptyScans | Source/bitboards.py:47-64 | `lsb` and `msb` of the empty board are -1 |
| Bitboards.LsbLowest | Source/bitboards.py:47-52 | for a non-empty bitboard `lsb` is its lowest set square |
| Bitboards.MsbHighest | Source/bitboards.py:61-64 | for a non-empty bitboard `msb` is its highest set square |
| Bitboards.MsbRange | Source/bitboards.py:61-64 | `msb` is a board square, or -1 exactly for the empty board |
| Bitboards.OneBitOn | Source/bitboards.py:44-45 | `is_one_bit_on` holds exactly for boards with one set bit, and for the empty board |
| Bitboards.LowestStep | Source/bitboards.py:56-58 | `rest & -rest` isolates the lowest bit, and the xor drops exactly that bit |
| Bitboards.ScanForward | Source/bitboards.py:54-59 | the loop yields the set squares, lowest first, each once |
| Bitboards.HighestStep | Source/bitboards.py:68-70 | the highest bit is a square, and the xor drops exactly that bit |
| Bitboards.ScanReversed | Source/bitboards.py:66-71 | the loop yields the set squares, highest first, each once |
| Bitboards.Squares | Source/bitboards.py:66-71 | the listing is strictly decreasing and holds exactly the set squares |
| Bitboards.FlipVerticalSquares | Source/bitboards.py:83-89 | square `sq` moves to the same file on the mirrored rank |
| Bitboards.FlipVerticalPermutes | Source/bitboards.py:83-89 | the vertical flip undoes itself and keeps the number of set squares |
| Bitboards.VerticalIsXor | Source/bitboards.py:83-89 | the vertical mirror of `sq` is `sq ^ 56` |
| Bitboards.FlipHorizontalSquares | Source/bitboards.py:91-97 | square `sq` moves to the mirrored file on the same rank |
| Bitboards.FlipHorizontalPermutes | Source/bitboards.py:91-97 | the horizontal flip undoes itself and keeps the number of set squares |
| Bitboards.HorizontalIsXor | Source/bitboards.py:91-97 | the horizontal mirror of `sq` is `sq ^ 7` |
| Bitboards.FlipDiagonalSquares | Source/bitboards.py:99-108 | square `sq` moves to the square with file and rank exchanged |
| Bitboards.FlipDiagonalPermutes | Source/bitboards.py:99-108 | the diagonal flip undoes itself and keeps the number of set squares |
| Bitboards.FlipAntiDiagonalSquares | Source/bitboards.py:110-119 | square `sq` moves to its mirror in the a8-h1 diagonal |
| Bitboards.FlipAntiDiagonalPermutes | Source/bitboards.py:110-119 | the anti-diagonal flip undoes itself and keeps the number of set squares |
| Pieces.GetSymbol | Source/pieces.py:33-34 | the symbol has the length of the piece's symbol; for white it is that symbol, for black every upper-case letter of it is lowered |
| Pieces.SwapColor | Source/pieces.py:36-37 | a piece of the other colour with the same name |
| Pieces.SwapTwice | Source/pieces.py:36-37 | swapping twice gives the piece back |
| Pieces.NamesDistinct | Source/pieces.py:53-153 | each class has its own name |
| Pieces.SamePieceIsEquality | Source/pieces.py:39-47 | `__eq__` (same hash of name and colour) is exactly equality of pieces |
| Pieces.SamePieceIsEquivalence | Source/pieces.py:39-50 | `__eq__` is reflexive, symmetric and transitive |
| Pieces.BaseDefaults | Source/pieces.py:20-31 | a plain piece has no offsets or slides, no name or symbol, is symmetric, costs 0, cannot castle and can be promoted to |
| Pieces.OnlyPawnIsAsymmetric | Source/pieces.py:63-71 | only the pawn is asymmetric, with offsets `[7, 9]` for white and `[-7, -9]` for black |
| Pieces.SymbolOneLetter | Source/pieces.py:53-153 | every class but the base piece has a one-letter symbol |
| Pieces.PromotionTargets | Source/pieces.py:53-153 | kings, pawns and walls are exactly the pieces that cannot be promoted to |
| Pieces.PriceBounds | Source/pieces.py:53-153 | prices lie between 0 and 16 |
| Pieces.KindOfLetter | Source/pieces.py:6-16 | a letter of `ALL_PIECES_DICT` names the class its entry names |
| Pieces.LettersLowerCase | Source/pieces.py:6-16 | every key of `ALL_PIECES_DICT` is lower case, and the archbishop has no letter |
| Pieces.LettersNameDistinctPieces | Source/pieces.py:6-16 | distinct letters name distinct pieces |
| Pieces.LetterRoundTrip | Source/pieces.py:6-16 | the letter of the class a letter names is that letter |
| Pieces.SymbolReadsBack | Source/pieces.py:33-34 | a piece's `get_symbol` is upper case exactly for white, and lower-casing it finds the piece's name in `ALL_PIECES_DICT` |
| Moves.EndpointSquare | Source/move.py:10-11 | a square stays as given; a name gives its square, or an error for an unknown name |
| Moves.NewMove | Source/move.py:9-12 | a move exists exactly when both endpoints resolve, with those squares and the promotion |
| Moves.DirectionTrichotomy | Source/move.py:14-18 | a move goes right, straight or left, exactly one of the three |
| Moves.StraightIsWholeRanks | Source/move.py:17-18 | going straight means moving by a whole number of ranks |
| Moves.MoveStringShape | Source/move.py:23-27 | the text is 4 characters, or 5 with a promotion, the first two naming the origin and the next two the destination |
| Moves.MoveStringRoundTrip | Source/move.py:23-27 | reading the text back gives origin, destination and promotion piece |
| Moves.SameMoveIsEquality | Source/move.py:29-38 | `__eq__` is equality of moves |
| AttackTables.DescriptionOfPiece | Source/chess_deck.py:130-152 | each piece's attack description, class by class: king, knight and ghost steps, pawn steps by side, bishop, rook and queen slides, archbishop and chancellor both, base piece and wall nothing |
| AttackTables.AttacksStepsOK | Source/chess_deck.py:139-144 | every offset list moves, and the pawn has one list per side |
| AttackTables.AttacksFollowDescriptor | Source/chess_deck.py:139-150 | a description has a slide entry exactly for each slide attribute, and a step part exactly when the piece has offsets, `'Steps'` only for the asymmetric pawn |
| AttackTables.PieceAttackSquares | Source/chess_deck.py:357-367 | one piece's attacks are the squares its steps reach, plus those its slides reach up to the first occupied square |
| AttackTables.PieceAttackIsBitboard | Source/chess_deck.py:357-367 | one piece's attacks are a 64-bit board |
| AttackTables.SameNameSameAttacks | Source/chess_deck.py:152 | pieces with the same name get the same description, so writing under the name is colour-independent |
| Boards.FirstHolder | Source/chess_deck.py:384-389 | the first listed key not passed over whose board has the square, or nothing when there is none |
| Boards.TypeAt | Source/chess_deck.py:379-389 | `get_type_at` names a key not among the aggregates and castling whose board has the square, the first in insertion order |
| Boards.RemovePieceAt | Source/chess_deck.py:400-413 | removal keeps the dictionary's keys, in order; its effect on each square is stated by `Boards.RemoveKeepsConsistent` |
| Boards.SetPieceAt | Source/chess_deck.py:371-377 | setting keeps the keys, in order; the name must already be a key, as `self.game[piece_name]` demands |
| Boards.RemoveColumn | Source/chess_deck.py:400-413 | away from the square nothing changes; on it the named board, `All` and the colour board flip |
| Boards.SetColumn | Source/chess_deck.py:371-377 | after `set_piece_at` the square holds exactly the name, `All` and the colour among the boards the removal left, and every other square reads as after the removal |
| Boards.AwayFromSquare | Source/chess_deck.py:371-413 | both updates leave every other square's bits as they were |
| Boards.TypeAtUnique | Source/chess_deck.py:379-389 | on a consistent game the type at a square is the one board that holds it |
| Boards.OccupiedSquare | Source/chess_deck.py:379-398 | on a consistent game a square is occupied exactly when some piece type stands there, and `get_color_at` reports a colour exactly then |
| Boards.RemoveKeepsConsistent | Source/chess_deck.py:400-413 | removing from an occupied or empty square keeps the game consistent, empties the square and returns the piece type |
| Boards.RemoveIsBitboard | Source/chess_deck.py:400-413 | removing keeps every board a 64-bit board |
| Boards.SetIsBitboard | Source/chess_deck.py:371-377 | setting keeps every board a 64-bit board |
| Boards.SetKeepsConsistent | Source/chess_deck.py:371-377 | setting a piece type on a square holding a piece type or nothing keeps the game consistent, with exactly that piece and colour on the square |
| Boards.UpdatesKeepOtherBoards | Source/chess_deck.py:371-413 | boards other than the aggregates and the one involved are untouched |
| Boards.RemoveAtEnPassantSquare | Source/chess_deck.py:400-413 | removing at the empty en-passant square marks it in `All` and `Black`: an occupied square with no piece |
| Boards.NoPieceOccupied | Source/chess_deck.py:379-398 | a square in `All` with no piece board is inconsistent |
| Play.ClearEnPassant | Source/chess_deck.py:487-489 | the keys are the old ones plus `"En passant"`; its emptying is stated by `Play.ClearKeepsConsistent` |
| Play.ClearKeepsConsistent | Source/chess_deck.py:487-489 | clearing keeps a consistent game consistent |
| Play.ApplyMove | Source/chess_deck.py:491-494 | a move is applied only when both squares are in range; applying keeps the keys, in order, and the three aggregate boards |
| Play.ApplyMoveEffect | Source/chess_deck.py:491-494 | the destination holds the moved piece type in the mover's colour, the origin is empty, every other square reads as before, and the game stays consistent |
| Play.SetEnPassant | Source/chess_deck.py:483-485 | recording the en-passant square keeps the keys, in order |
| Play.UpdateCastlingRights | Source/chess_deck.py:496-502 | only the castling board changes |
| Play.CastlingRightsBits | Source/chess_deck.py:496-502 | a king landing drops every right on its back rank; otherwise the right on the origin square is dropped; nothing else changes |
| Play.AdditionalCastlingSquares | Source/chess_deck.py:504-512 | the rook move goes from the back-rank corner on the king's side to the square the king passed over |
| Play.AfterMoves | Source/chess_deck.py:452-456 | the first steps of `push` succeed only when both squares are in range, keep the three aggregate boards and leave an en-passant board |
| Play.ApplyMoveKeepsEmptyEnPassant | Source/chess_deck.py:491-494 | applying a move leaves an empty en-passant board empty |
| Play.AfterMovesEmptyEnPassant | Source/chess_deck.py:452-456 | after the moves the en-passant board is empty |
| Play.CastlingStep | Source/chess_deck.py:454-456 | a successful rook move keeps the keys and the three aggregate boards |
| Play.CaptureStep | Source/chess_deck.py:461-462 | a successful en-passant removal keeps the keys, in order |
| Play.FinishWith | Source/chess_deck.py:458-467 | the last steps of `push` keep the keys, in order, when they succeed |
| Play.PushSpec | Source/chess_deck.py:447-468 | a successful `push` keeps the three aggregate boards and leaves an en-passant board |
| Play.FinishEnPassant | Source/chess_deck.py:458-462 | after a two-square pawn move straight ahead the en-passant board is exactly the square passed over; otherwise it stays empty |
| Play.SetEnPassantBoard | Source/chess_deck.py:483-485 | on an empty board the result never holds the destination |
| Play.PushEnPassant | Source/chess_deck.py:447-468 | after `push`, the en-passant board is the square a pawn passed over in a two-square move, and empty after any other move |
| Play.PawnCaptureRemovesBehind | Source/chess_deck.py:478-481 | as written, a pawn capturing an ordinary piece also removes a piece standing behind its destination |
| Play.IntendedCaptureKeepsBehind | Source/chess_deck.py:461-462 | with the removal limited to the previous en-passant square, an ordinary move leaves the square behind its destination unchanged |
| Play.ClosedGateKeepsBehind | Source/chess_deck.py:461-462 | with the removal switched off, the square behind the destination changes on no board but the castling rights |
| Play.ApplyMoveBitboards | Source/chess_deck.py:491-494 | applying a move keeps every board a 64-bit board |
| Play.AfterMovesBitboards | Source/chess_deck.py:452-456 | the first steps keep every board a 64-bit board |
| Play.CastlingRightsBitboards | Source/chess_deck.py:496-502 | updating the rights keeps every board a 64-bit board |
| Play.FinishBitboards | Source/chess_deck.py:458-467 | the last steps keep every board a 64-bit board |
| Play.PushBitboards | Source/chess_deck.py:447-468 | `push` keeps every board a 64-bit board and the en-passant key present |
| Decks.Distinct | Source/decks.py:17-19 | the distinct pieces of the entries, no `None`, in order of first occurrence |
| Decks.GetSetPieces | Source/decks.py:16-20 | the set holds exactly the side's deck pieces and its pawn, each once |
| Decks.Promotable | Source/decks.py:24-26 | the listed pieces minus the side's king, keeping only those that can be promoted to |
| Decks.GetPromPieces | Source/decks.py:22-26 | exactly the distinct deck pieces that can be promoted to; never a king, a pawn or a wall |
| Decks.WeightDefined | Source/decks.py:28-29 | the weight exists exactly when every entry holds a piece, and lies between 0 and 16 per entry |
| Decks.WeightAppend | Source/decks.py:28-29 | the weight of two halves is the sum of their weights |
| Decks.CastlingPiecesAtExtremes | Source/decks.py:31-35 | true exactly when the first and last entries are pieces that can castle; an empty deck is an error |
| Decks.CountAboveOne | Source/decks.py:37-38 | a count above one means two distinct positions hold the value |
| Decks.CountPositive | Source/decks.py:37-38 | a positive count means some position holds the value |
| Decks.KingInPlace | Source/decks.py:40-43 | true exactly when entry 4 is the side's king; a deck of fewer than five entries is an error |
| Decks.SideChecks | Source/decks.py:46-53 | one side passes the weight, extremes and king-count checks exactly when it meets the deck rules |
| Decks.DeckLegalMeans | Source/decks.py:45-56 | as written: legal exactly when both sides meet the rules and neither has its king on entry 4 |
| Decks.DeckLegalIntendedMeans | Source/decks.py:54-55 | corrected: legal exactly when both sides meet the rules and both have their king on entry 4 |
| Decks.ClassicalWeight | Source/decks.py:28-29 | the classical back rank weighs 60 |
| Decks.ClassicalSide | Source/decks.py:31-43 | the classical rank has rooks at both ends and one king, on entry 4 |
| Decks.ClassicalDeckRejected | Source/decks.py:54-55 | the classical deck is rejected as written and accepted by the corrected test |
| Positions.MaskAttackOverSquares | Source/chess_deck.py:352-367 | a square is attacked exactly when some listed piece standing on `sq` reaches it |
| Positions.MaskAttackSquares | Source/chess_deck.py:343-369 | `get_mask_attack(sq)` reaches `t` exactly when a piece of the side to move's set has `sq` on its board and reaches `t`, whatever the colour on `sq` |
| Positions.PawnSquareAttacksAhead | Source/chess_deck.py:349-361 | a pawn square attacks the two squares diagonally ahead of the side to move, even when the pawn there belongs to the opponent |
| Positions.MaskAttackIgnoresColours | Source/chess_deck.py:343-369 | two positions that differ only in the colour boards attack the same squares |
| Positions.MaskAttackOverIsBitboard | Source/chess_deck.py:343-369 | the mask attack is a 64-bit board |
| Positions.AttackersSquares | Source/chess_deck.py:421-426 | the attackers are the squares of `color` from which the mask attack reaches `sq` |
| Positions.AttackersIsBitboard | Source/chess_deck.py:421-426 | the attackers form a 64-bit board |
| Positions.SquareAttackedMeans | Source/chess_deck.py:415-419 | a square is attacked exactly when some square of `color` attacks it |
| Positions.AnyAttackedMeans | Source/chess_deck.py:442-445 | the scan answers true exactly when some listed square is attacked |
| Positions.BitboardAttackedMeans | Source/chess_deck.py:437-445 | `is_bitboard_attacked` holds exactly when some square of the board is attacked |
| Positions.OnlyBitMeans | Source/chess_deck.py:212 | the `is_one_bit_on` test finds exactly a board with one set square |
| Positions.AloneMeans | Source/chess_deck.py:211-213 | a square counts as blocker exactly when it alone is occupied between sniper and king |
| Positions.BlockersSquares | Source/chess_deck.py:195-214 | the blockers are the squares of `color` standing alone between `sq` and a sniper |
| Positions.SnipersSquares | Source/chess_deck.py:201-208 | the snipers are enemy pieces on an empty-board line through `sq` along which they slide |
| Positions.AttackedBySlidersSquares | Source/chess_deck.py:239-248 | the result is the empty squares on the line through the king and each attacker that stands on an enemy slider's board, on either side of the king |
| Positions.SkewerOccupancySquares | Source/chess_deck.py:183-184 | the lifted occupancy is occupied squares other than the taken pawn's and the capturer's |
| Positions.EpSkeweredMeans | Source/chess_deck.py:182-193 | skewered exactly when, with both pawns lifted, the king's rank attacks reach an enemy-coloured horizontal slider of either set |
| Positions.SafeMeans | Source/chess_deck.py:170-180 | a king move is safe when castling or when its destination is not attacked; an en-passant capture only when not pinned and not skewered; any other move when not pinned or moving along the pin line |
| MoveGen.PromotionMovesMembers | Source/chess_deck.py:291-293 | one move per promotion piece of the list |
| MoveGen.ExpandMembers | Source/chess_deck.py:290-295 | the moves for one origin and destination: one per promotion piece when promoting, else the plain move |
| MoveGen.AttackMovesMembers | Source/chess_deck.py:284-295 | the attack moves are exactly those from a square of `pieces & start` to a square of its mask attack within `condition & end`, promoting when a pawn reaches rank 1 or 8 |
| MoveGen.PushMovesMembers | Source/chess_deck.py:297-308 | the pushes are exactly those from a pawn to the empty square `distance` ahead within the end mask, promoting on rank 1 or 8 |
| MoveGen.DoublePushOverPiece | Source/chess_deck.py:301-302 | a double push tests only its landing square, so a pawn jumps a piece on the square it passes over |
| MoveGen.KingSquare | Source/chess_deck.py:523-525 | the king square lies in -1..63, and is -1 exactly when the side has no king on the board |
| MoveGen.CastlingDestination | Source/chess_deck.py:334-337 | the king's destination is a square of the board or -1 |
| MoveGen.CastlingDestinationOfKing | Source/chess_deck.py:334-337 | for a king alone on `k` the destination is two squares toward the candidate; it is -1 when the king would leave the board or, moving toward the h-file, land on the a- or c-file |
| MoveGen.CastlingReady | Source/chess_deck.py:318-324 | when the king board meets the start mask there is a king, and every candidate whose castling space is clear has its path end in range |
| MoveGen.CastlingFromSound | Source/chess_deck.py:324-341 | every castling move starts on the king square, promotes nothing, lands in the end mask, and belongs to a candidate that passed both tests |
| MoveGen.CastlingFromComplete | Source/chess_deck.py:324-341 | with the whole board as end mask every passing candidate gives its move |
| MoveGen.CastlingStopsEarly | Source/chess_deck.py:339-340 | once a passing candidate's destination misses the end mask, generation stops, whatever comes later |
| MoveGen.CastlingMovesMeans | Source/chess_deck.py:310-341 | with the whole board as end mask the castling moves are exactly one per passing candidate |
| MoveGen.CastlingMovesSound | Source/chess_deck.py:310-341 | every castling move starts on the king square, promotes nothing and lands in the end mask |
| MoveGen.DoublePushesInRange | Source/chess_deck.py:269-278 | double pushes from the second rank land on the board |
| MoveGen.PseudoMovesMembers | Source/chess_deck.py:250-282 | the pseudo moves are exactly the moves of the five generators |
| MoveGen.PseudoMovesSound | Source/chess_deck.py:250-282 | every pseudo move lands in the end mask and starts in the start mask, or is a castling move from the king square |
| MoveGen.NoCastlingWithoutKing | Source/chess_deck.py:318-321 | with the king left out of the start mask the castling generator returns before any lookup, whatever the candidates, and yields nothing |
| MoveGen.KingStepsMembers | Source/chess_deck.py:224-225 | a king step goes from the king to a listed square and promotes nothing |
| MoveGen.ScapeMovesMembers | Source/chess_deck.py:216-237 | an escape move is a king step to a safe square, or, against one attacker, another piece's move onto a block target |
| MoveGen.CandidateCheckable | Source/chess_deck.py:161-167 | every candidate is a move `is_safe` can judge |
| MoveGen.SafeOnesMembers | Source/chess_deck.py:162-168 | the filter keeps exactly the moves `is_safe` accepts |
| MoveGen.LegalMovesMembers | Source/chess_deck.py:154-168 | a legal move is a candidate that `is_safe` accepts |
| MoveGen.NotInCheckLegal | Source/chess_deck.py:165-168 | out of check, the legal moves are the pseudo moves `is_safe` accepts |
| MoveGen.DoubleCheckKingMoves | Source/chess_deck.py:227-237 | in double check only the king moves, to unattacked squares, unless the move has the shape of a castling |
| MoveGen.SingleCheckBlocks | Source/chess_deck.py:227-237 | in single check a non-king move lands on the attacker, or between it and the king when it slides |
| MoveGen.StatusMeans | Source/chess_deck.py:514-521 | the game goes on exactly when some candidate is safe; otherwise the side in check loses and a side not in check is stalemated; repetition is never reported |
| FenLoading.Split | Source/fen_loader.py:11 | a split has at least one piece and no piece contains the separator |
| FenLoading.SplitJoin | Source/fen_loader.py:11 | joining the pieces of a split gives the string back |
| FenLoading.JoinSplit | Source/fen_loader.py:23 | splitting a join of separator-free pieces gives the pieces back |
| FenLoading.ExpandDigits | Source/fen_loader.py:22 | the only digit left after the expansion is `'1'` |
| FenLoading.Reverse | Source/fen_loader.py:23 | the reversal lists the elements back to front |
| FenLoading.ProcessFen | Source/fen_loader.py:21-25 | `'1'` is the only digit of the processed placement |
| FenLoading.ExpandSplit | Source/fen_loader.py:22-23 | expanding the digits commutes with splitting on `'/'` |
| FenLoading.ProcessFenSquares | Source/fen_loader.py:21-25 | for a well-formed placement the result has 64 characters, character `8r + f` being the square of file `f` in rank `r + 1` |
| FenLoading.NewFenLoader | Source/fen_loader.py:10-18 | a loader's board is a processed placement, whose only digit is `'1'` |
| FenLoading.FieldsRoundTrip | Source/fen_loader.py:10-18 | a record of six space-free fields loads them back, the placement processed |
| FenLoading.LoadTurn | Source/fen_loader.py:75-76 | white exactly when the field is `"w"` |
| FenLoading.NatString | Source/fen_loader.py:78-82 | the decimal text of a number is a non-empty run of digits |
| FenLoading.ParseIntRoundTrip | Source/fen_loader.py:78-82 | `int(str(n)) == n` for every integer |
| FenLoading.EmptyBoardsEmpty | Source/fen_loader.py:28-34 | the five fixed boards start empty |
| FenLoading.WithPieceBoards | Source/fen_loader.py:36-37 | the keys are the old ones plus the name of every piece of the set |
| FenLoading.PieceBoardsEmpty | Source/fen_loader.py:36-37 | the piece boards start empty |
| FenLoading.WithPieceBoardsValid | Source/fen_loader.py:36-37 | adding the piece boards keeps every key listed once |
| FenLoading.PieceNamesNotEnPassant | Source/fen_loader.py:36-37 | no piece board is named `"En Passant"` |
| FenLoading.EmptyBoardsValid | Source/fen_loader.py:28-34 | the five fixed boards are listed once each |
| FenLoading.LoadedKeys | Source/fen_loader.py:27-73 | the keys of a loaded board are the fixed boards, the piece boards and `"En Passant"` when a target is named |
| FenLoading.LoadedKeysValid | Source/fen_loader.py:27-73 | a loaded board lists each key once |
| FenLoading.LoadedEntryBitboard | Source/fen_loader.py:27-73 | every board of a loaded board is a 64-bit board |
| FenLoading.PlaceLetter | Source/fen_loader.py:52-59 | placing a letter keeps the keys, in order; `FenLoading.PlaceLetterBits` states which boards change |
| FenLoading.PlaceFrom | Source/fen_loader.py:39-59 | the placement loop keeps the keys when it succeeds |
| FenLoading.CornerNames | Source/fen_loader.py:64-71 | the corner names denote h1, a1, h8 and a8 |
| FenLoading.WithEnPassant | Source/fen_loader.py:61-62 | when the target parses, every board other than `"En Passant"` is kept |
| FenLoading.AddCorner | Source/fen_loader.py:64-71 | one castling letter keeps the keys and changes no board but `Castling` |
| FenLoading.WithCastling | Source/fen_loader.py:64-71 | the castling field changes only the castling board |
| FenLoading.LoadedBoard | Source/fen_loader.py:27-73 | a loaded board has the five fixed boards, a board per piece of the set, and `"En Passant"` when a target is named |
| FenLoading.PieceBoards | Source/fen_loader.py:36-37 | the loop gives a board per piece of the set |
| FenLoading.PlacePieces | Source/fen_loader.py:39-59 | the loop with its `skipping` counter computes the placement |
| FenLoading.LoadBoard | Source/fen_loader.py:27-73 | the method computes the loaded board |
| FenLoading.PlaceLetterBits | Source/fen_loader.py:52-59 | placing a letter sets square `i` in exactly the boards it writes |
| FenLoading.PlaceFromBits | Source/fen_loader.py:39-59 | on a processed placement each board gets exactly the squares whose letter writes to it |
| FenLoading.PlaceFromFails | Source/fen_loader.py:49-52 | the loop fails exactly when a letter names a piece without a board or stands past square 63 |
| FenLoading.CastlingBits | Source/fen_loader.py:64-71 | the castling board holds a corner exactly when its letter occurs |
| FenLoading.LoadedBoardBits | Source/fen_loader.py:27-73 | each piece, colour and `All` board holds exactly the squares whose letter writes to it |
| FenLoading.LoadedCastling | Source/fen_loader.py:64-71 | the loaded castling board holds the granted corners |
| FenLoading.LoadedEnPassant | Source/fen_loader.py:61-62 | a named target is stored under `"En Passant"`, which the engine never reads |
| FenLoading.LoadedBoardFails | Source/fen_loader.py:27-73 | loading fails exactly for an unknown piece letter, a letter past square 63, or an unparsable target |
| FenLoading.LoadedBoardConsistent | Source/fen_loader.py:27-73 | a loaded board is consistent on every square |
| Setup.StartBoards | Source/chess_deck.py:64-71 | the starting dictionary is well formed and has exactly the keys `Pawn`, `White`, `Black`, `All`, `Castling` and `En passant` |
| Setup.HasDeckSquare | Source/chess_deck.py:81 | the square of a deck position is the one back-rank square on that file |
| Setup.PlaceSlot | Source/chess_deck.py:77-88 | one entry keeps the existing keys and adds only its piece's name |
| Setup.DeckBoards | Source/chess_deck.py:75-88 | loading a deck keeps the keys and adds only its pieces' names |
| Setup.DeckBoardsStep | Source/chess_deck.py:77-88 | loading `n + 1` entries is loading `n` entries and then placing entry `n` |
| Setup.PlaceSlotNone | Source/chess_deck.py:78-79 | an empty entry changes nothing |
| Setup.DeckBoardsNone | Source/chess_deck.py:75-88 | loading no entries changes nothing |
| Setup.ResetNames | Source/chess_deck.py:62-88 | after the reset every deck piece and both pawns have a board |
| Setup.ResetBoards | Source/chess_deck.py:62-73 | the reset dictionary is well formed; its keys are the six starting ones plus the name of every deck piece of either side |
| Setup.PlaceSlotBits | Source/chess_deck.py:81-88 | one entry sets its back-rank square on its piece's, its side's and the `All` board only |
| Setup.DeckBoardsBits | Source/chess_deck.py:75-88 | loading a deck sets exactly each piece's back-rank square on its piece's, side's and `All` board |
| Setup.StartBits | Source/chess_deck.py:64-71 | the pawns stand on ranks 2 and 7, white and black, the rights on the corners, no en-passant square |
| Setup.ResetStages | Source/chess_deck.py:62-73 | the reset bit by bit, stage by stage: starting boards, white deck, black deck |
| Setup.ResetBits | Source/chess_deck.py:62-88 | after the reset each board has a square exactly when the reset puts its piece, its colour, `All` or a castling right there |
| Setup.ResetColumn | Source/chess_deck.py:62-88 | every square of a reset board is read consistently |
| Setup.ResetConsistent | Source/chess_deck.py:62-88 | the reset leaves a consistent game of 64-bit boards |
| Setup.ClearedBoards | Source/chess_deck.py:90-93 | clearing keeps the keys in order and empties every board |
| Setup.ClearedConsistent | Source/chess_deck.py:90-93 | a cleared game is consistent and holds no piece |
| Setup.DictAttacksMeans | Source/chess_deck.py:123-152 | the descriptions hold the king's under `"King"`, each piece's under its name, and nothing else |
| ChessDecks.KnownAfterReset | Source/chess_deck.py:38-48 | after the reset every piece of either set has its board and its attack description |
| ChessDecks.SideKnown | Source/chess_deck.py:38-48 | after the reset every piece of one side's set is known |
| ChessDecks.StartReadable | Source/chess_deck.py:30-51 | a freshly reset game with a king is readable by the analyses |
| ChessDecks.KnownAfterLoad | Source/chess_deck.py:38-57 | after loading a FEN string every piece of either set has its board and its attack description |
| ChessDecks.FenSideKnown | Source/chess_deck.py:38-57 | after loading a FEN string every piece of one side's set is known |
| ChessDecks.PawnNamed | Source/fen_loader.py:36-37 | a set holding the white pawn gives a `Pawn` board |
| ChessDecks.FenBoards | Source/chess_deck.py:52-54 | a loaded dictionary is well formed, holds the fixed boards and a pawn board, and only 64-bit boards |
| ChessDecks.FenReadable | Source/chess_deck.py:30-57 | a position loaded from a FEN string with a king board is readable by the analyses |
| ChessDecks.ReadableWith | Source/chess_deck.py:447-468 | a dictionary that keeps the looked-up boards and stays 64-bit keeps the position readable |
| ChessDecks.ScanSquares | Source/bitboards.py:66-71 | the scan as the generators use it: the listing, every entry a square |
| ChessDecks.ChessDeck.constructor | Source/chess_deck.py:30-57 | the decks, the piece and promotion sets, the attack descriptions, then the starting position or the FEN position, turn and clocks; either way a game with a king board is readable |
| ChessDecks.ChessDeck.StartPosition | Source/chess_deck.py:47-51 | the reset position, white to move, clocks 0 and 1 |
| ChessDecks.ChessDeck.LoadPosition | Source/chess_deck.py:52-57 | the FEN's board, turn and clocks |
| ChessDecks.ChessDeck.ResetGame | Source/chess_deck.py:62-73 | the game becomes the reset dictionary, a consistent one |
| ChessDecks.ChessDeck.LoadDeck | Source/chess_deck.py:75-88 | the game becomes the old one with the deck loaded |
| ChessDecks.ChessDeck.PlaceEntry | Source/chess_deck.py:81-88 | one entry placed on its back-rank square |
| ChessDecks.ChessDeck.ClearGame | Source/chess_deck.py:90-93 | every board emptied, no key added or removed |
| ChessDecks.ChessDeck.CreateDictAttacks | Source/chess_deck.py:123-152 | the attack descriptions of the king and of every piece of both sets |
| ChessDecks.ChessDeck.GetTypeAt | Source/chess_deck.py:379-389 | the loop returns `get_type_at` of the game |
| ChessDecks.ChessDeck.GetColorAt | Source/chess_deck.py:391-398 | white if the white board has the square, else black if the black board has it, else nothing |
| ChessDecks.ChessDeck.IsSquareEmpty | Source/chess_deck.py:428-429 | empty exactly when no looked-at board has the square; on a consistent game, an empty square off the en-passant target |
| ChessDecks.ChessDeck.GetMaskAttack | Source/chess_deck.py:343-369 | the loop computes the mask attack of the position |
| ChessDecks.ChessDeck.GetAttackersOfSquare | Source/chess_deck.py:421-426 | the loop computes the attackers of the position |
| ChessDecks.ChessDeck.IsSquareAttacked | Source/chess_deck.py:415-419 | true exactly when the attackers are non-empty |
| ChessDecks.ChessDeck.IsBitboardAttacked | Source/chess_deck.py:437-445 | true exactly when some square of the board is attacked |
| ChessDecks.ChessDeck.GetBlockers | Source/chess_deck.py:195-214 | the loops compute the blockers of the position |
| ChessDecks.ChessDeck.GetSnipers | Source/chess_deck.py:198-208 | the sniper loop computes the snipers of the position |
| ChessDecks.ChessDeck.GetAttackedSquaresBySliders | Source/chess_deck.py:239-248 | the loops compute the squares on slider lines through the king |
| ChessDecks.ChessDeck.GetSliders | Source/chess_deck.py:240-243 | the boards of the enemy sliding pieces |
| ChessDecks.ChessDeck.IsEpSkewered | Source/chess_deck.py:182-193 | the method answers the skewer test of the position |
| ChessDecks.ChessDeck.GetHorizontalAttackers | Source/chess_deck.py:185-189 | the enemy-coloured squares of horizontal sliders of both sets |
| ChessDecks.ChessDeck.IsEnPassantMove | Source/chess_deck.py:431-435 | true exactly when the destination is on the en-passant board and a pawn board holds the origin |
| ChessDecks.ChessDeck.RemovePieceAt | Source/chess_deck.py:400-413 | the game becomes the removal's dictionary, the key is returned, the other fields are kept, and a readable position stays readable |
| ChessDecks.ChessDeck.SetPieceAt | Source/chess_deck.py:371-377 | the game becomes the dictionary with the piece set, the other fields are kept, and a readable position stays readable |
| ChessDecks.ChessDeck.ClearEnPassant | Source/chess_deck.py:487-489 | the game becomes the old one with the en-passant board emptied (`Play.ClearEnPassant`), the other fields kept |
| ChessDecks.ChessDeck.SetEnPassant | Source/chess_deck.py:483-485 | the square behind the destination is added |
| ChessDecks.ChessDeck.ApplyMove | Source/chess_deck.py:491-494 | the game becomes the moved dictionary |
| ChessDecks.ChessDeck.IsMoveCastling | Source/chess_deck.py:470-472 | true exactly when a king stands on the destination, two squares from the origin |
| ChessDecks.ChessDeck.CanBeEnPassanted | Source/chess_deck.py:474-476 | true exactly when a pawn stands on the destination, two squares from the origin |
| ChessDecks.ChessDeck.HasBeenEnPassantCapture | Source/chess_deck.py:478-481 | true exactly when a pawn stands on the destination and the move changed file |
| ChessDecks.ChessDeck.UpdateCastlingRights | Source/chess_deck.py:496-502 | the game becomes the dictionary with the rights updated |
| ChessDecks.ChessDeck.GetAdditionalCastlingMove | Source/chess_deck.py:504-512 | the rook move of the castling |
| ChessDecks.ChessDeck.Push | Source/chess_deck.py:447-468 | the game becomes the pushed dictionary, the turn passes, and the position stays readable |
| ChessDecks.ChessDeck.PushApply | Source/chess_deck.py:452-456 | the game becomes the dictionary after the moves |
| ChessDecks.ChessDeck.PushFinish | Source/chess_deck.py:458-467 | the game becomes the finished dictionary |
| ChessDecks.ChessDeck.PromotionsFor | Source/chess_deck.py:291-293 | one move per promotion piece of the side to move |
| ChessDecks.ChessDeck.AttackMovesTo | Source/chess_deck.py:289-295 | the inner loop's moves from one origin |
| ChessDecks.ChessDeck.AttackMovesOf | Source/chess_deck.py:288-295 | the moves from one origin |
| ChessDecks.ChessDeck.GenAttackMoves | Source/chess_deck.py:284-295 | the loops yield the attack moves of the position |
| ChessDecks.ChessDeck.PushOf | Source/chess_deck.py:301-308 | the push from one pawn, if any |
| ChessDecks.ChessDeck.GenPushPawns | Source/chess_deck.py:297-308 | the loop yields the pushes of the position |
| ChessDecks.ChessDeck.CastlingTest | Source/chess_deck.py:325-337 | the two tests of a candidate and its destination |
| ChessDecks.ChessDeck.CastlingCandidatesOf | Source/chess_deck.py:324 | the rights on the side's back rank, highest first |
| ChessDecks.ChessDeck.GenCastlingMoves | Source/chess_deck.py:310-341 | the loop yields the castling moves of the position, stopping early as the source does |
| ChessDecks.ChessDeck.GenPseudoMoves | Source/chess_deck.py:250-282 | the pseudo moves of the position |
| ChessDecks.ChessDeck.KingEscapes | Source/chess_deck.py:224-225 | the king steps to the escape squares, highest first |
| ChessDecks.ChessDeck.BlockTargetsOf | Source/chess_deck.py:228-234 | the block targets against a single attacker |
| ChessDecks.ChessDeck.GenScapeMoves | Source/chess_deck.py:216-237 | the escape moves of the position |
| ChessDecks.ChessDeck.GetKingSquare | Source/chess_deck.py:523-525 | the king square of the side |
| ChessDecks.ChessDeck.IsSafe | Source/chess_deck.py:170-180 | the safety test of the move |
| ChessDecks.ChessDeck.GenCandidates | Source/chess_deck.py:159-166 | the escape moves in check, the pseudo moves otherwise |
| ChessDecks.ChessDeck.FilterSafe | Source/chess_deck.py:162-168 | the candidates `is_safe` accepts, in order |
| ChessDecks.ChessDeck.GenLegalMoves | Source/chess_deck.py:154-168 | the legal moves of the position |
| ChessDecks.ChessDeck.GetStatusGame | Source/chess_deck.py:514-521 | the status of the position: a win for the other side in check with no legal move, stalemate without check, ongoing otherwise |
| ChessDecks.OrPieceAttack | Source/chess_deck.py:357-367 | one piece's attacks ORed into the accumulator |

## Left out

- `bb_to_str` (bitboards.py) and `get_board_as_str` (chess_deck.py) render text for display and are not modelled.
- `start_game` (chess_deck.py) is a console loop reading moves from standard input; it is console I/O and is not modelled.
- The `BitboardManager` and `ComputerManager` objects hold no state, so their methods are module functions here.
- Python generators are modelled as the full sequence of what they yield. Laziness and early abandonment by the consumer (`any(...)`) are not modelled.
- Python sets (`piece_set`, `white_set`, `white_prom`, …) are modelled as sequences in first-occurrence order.
  - The source iterates them in hash order. The results that do not depend on the order (boards ORed together, membership) are what the lemmas state.
  - The order in which the generators yield promotion moves follows the chosen order.
- `ChessDecks.ChessDeck.constructor`: with a FEN string it requires that the string loads (`FenLoads`). The source raises `KeyError`, `IndexError` or `ValueError` instead; those cases are stated on `FenLoading.LoadedBoardFails`.
- `ChessDecks.ChessDeck.constructor`: without a FEN string it requires each deck to have at most 8 entries. The source raises `IndexError` from `BB_FILES[position]` for a ninth entry.
- `ChessDecks.ChessDeck.ResetGame`: requires at most 8 entries per deck, for the same reason.
- `ChessDecks.ChessDeck.LoadDeck`: requires at most 8 entries, for the same reason.
- `ChessDecks.ChessDeck.PlaceEntry`: requires a position in 0..7, for the same reason.
- `ChessDecks.ChessDeck.StartPosition`: requires at most 8 entries per deck, for the same reason.
- `ChessDecks.ChessDeck.ClearGame`: requires a readable position. This is the class invariant, not something `clear_game` itself reads.
- The analyses and generators require a readable position: every piece of both sets has its board and attack description, and a `King` board is present.
  - `load_board` makes a board for every piece of the set, so the `King` board is missing only when neither deck holds a king; `gen_legal_moves` then raises `KeyError` at `self.game["King"]`, and those runs are not modelled. A FEN string that places no king while the set has one is the case below.
- `MoveGen.PushMovesMembers`: requires every single push to land on the board (`PushesInRange`). A white pawn on rank 8 (a FEN such as `P3k3/8/8/8/8/8/8/4K3 w - - 0 1`) pushes to square 64 or beyond, and the source raises `IndexError` from `BB_SQUARES` in `get_type_at`; those runs are not modelled. A black pawn on rank 1 pushes to -8..-1, which Python indexes from the end, and that run is modelled.
- `MoveGen.CastlingReady`: when the king board meets the start mask, requires every candidate whose castling space is clear to have its path end on the board (`CastlingInRange`). A king on a8–d8 with the h8 right and nothing between them has path end 64, where the source raises `IndexError` from `RAYS[a][64]` in `compute_between`; those runs are not modelled. A blocked candidate needs nothing, as the source skips it first.
- `MoveGen.CastlingFromSound`: requires the same of each listed candidate (`PathInRange`), for the same reason.
- `MoveGen.CastlingFromComplete`: requires the same, for the same reason.
- `MoveGen.CastlingStopsEarly`: requires the same, for the same reason.
- `MoveGen.CastlingMovesMeans`: requires `CastlingFits`, the condition of `MoveGen.CastlingReady` when the king board meets the start mask and nothing otherwise, for the same reason.
- `MoveGen.CastlingMovesSound`: requires the same, for the same reason.
- `MoveGen.PseudoMovesMembers`: requires `Generable`, the pawn pushes of `MoveGen.PushMovesMembers` on the board and `CastlingFits` for the start mask, for the two reasons above.
- `MoveGen.PseudoMovesSound`: requires the same, for the same reasons.
- `MoveGen.ScapeMovesMembers`: requires the pawn pushes on the board, a king of the side to move and a single attacker with an attack description (see `MoveGen.LegalMovesMembers` and `ChessDecks.ChessDeck.GenScapeMoves`). It needs no castling condition: the start mask leaves the king out, so the castling generator returns at once.
- `MoveGen.LegalMovesMembers`: requires `Playable`: the pawn pushes on the board; a king of the side to move (`0 <= KingSquare`); out of check, `CastlingInRange`; an en-passant pawn square inside `BB_SQUARES`, which holds for every en-passant board `push` writes; and a single attacker with an attack description. For a side without a king `msb` gives -1 and the source goes on as if the king stood on h8 (`BB_SQUARES[-1]`), or raises `ValueError` from the negative shift `BB_ALL << -1` in `compute_between`; those runs are not modelled, nor are the pawn and castling `IndexError` runs above.
- `MoveGen.CandidateCheckable`: requires `Playable`, for the same reasons.
- `MoveGen.NotInCheckLegal`: requires `Playable`, for the same reasons.
- `MoveGen.DoubleCheckKingMoves`: requires `Playable`, for the same reasons.
- `MoveGen.SingleCheckBlocks`: requires `Playable`, for the same reasons.
- `MoveGen.StatusMeans`: requires `Playable`, for the same reasons. With the generators modelled as whole sequences, a run where `any()` would stop before the generator raises is not told apart.
- `ChessDecks.ChessDeck.CastlingTest`: requires `PathInRange` of its candidate, as `MoveGen.CastlingFromSound`.
- `ChessDecks.ChessDeck.GenCastlingMoves`: requires `CastlingFits`, as `MoveGen.CastlingMovesMeans`.
- `ChessDecks.ChessDeck.GenPseudoMoves`: requires `Generable`, as `MoveGen.PseudoMovesMembers`.
- `ChessDecks.ChessDeck.GenCandidates`: requires `Playable`, as `MoveGen.LegalMovesMembers`.
- `ChessDecks.ChessDeck.GenLegalMoves`: requires `Playable`, as `MoveGen.LegalMovesMembers`.
- `ChessDecks.ChessDeck.GetStatusGame`: requires `Playable`, as `MoveGen.StatusMeans`.
- `ChessDecks.ChessDeck.GenScapeMoves`: requires the pawn pushes on the board and a king of the side to move, as `MoveGen.ScapeMovesMembers`.
- `ChessDecks.ChessDeck.GenScapeMoves`: requires that the type found on the single attacker's square has an attack description. The source raises `KeyError` otherwise, e.g. for a square holding only the en-passant board.
- `ChessDecks.ChessDeck.IsBitboardAttacked`: requires a 64-bit board, so that the scan terminates. The source is only called with such boards.
- `ChessDecks.ChessDeck.GenAttackMoves`: requires 64-bit `pieces` and `start`. The source is only called with such boards.
- `ChessDecks.ChessDeck.GenPushPawns`: requires 64-bit `pawns` and `start`, and destinations on the board. A pawn on the far rank pushes off the board, where the source raises `IndexError` (see `MoveGen.PushMovesMembers` above).
- `ChessDecks.ChessDeck.Push`: requires that `push` raises no exception, i.e. that `Play.PushSpec` is defined. The source would raise part-way through and leave a half-updated position.
- `ChessDecks.ChessDeck.ApplyMove`: requires that no exception occurs, for the same reason.
- FEN parsing is modelled for ASCII digits and letters only. Python's `str.isdigit`, `str.lower` and `re` `\d` also accept other Unicode digits and letters.
- `int()` is modelled for an optional sign followed by ASCII digits. Surrounding whitespace and `_` separators, which Python also accepts, are not modelled.
- `FenLoading.ProcessFenSquares` and the bit lemmas of `load_board` are stated for placements whose ranks expand to eight squares. On other input the model still computes what the source computes, but those lemmas say nothing about it.
- `Pieces.SamePiece` and `Pieces.SamePieceIsEquality`: `__eq__` compares the sums `hash(name) + hash(color)` of two pieces. It is modelled as equality of name and colour; two different pieces whose sums collide are not modelled.
- `piece in self.attacks` compares a piece with string keys. It is never true (a hash collision between a piece and a string is not modelled), so no piece is skipped.
- `Piece.swap_color` flips the colour of a piece object in place. It is modelled on values (`Pieces.SwapColor`), so aliasing of piece objects is not modelled.
- Integers are Python's unbounded integers. No 64-bit wrap-around is modelled, because the source has none; every shift up is masked with `BB_ALL` where the source masks it.

## Findings

| source | as written | input that shows it | evidently intended | confidence | as-written member | corrected member |
|---|---|---|---|---|---|---|
| Source/bitboards.py:23-24 | `shift_2_right` clears files a and c after shifting by two | a king on h1: the bit moves to b2; a bit on a1 never reaches c1 | clear files a and b, the two files a two-square shift wraps onto | not executed | Bitboards.Shift2RightWraps | Bitboards.Shift2RightIntendedSquares |
| Source/decks.py:54-55 | `is_deck_legal` returns `False` when a king IS on entry 4 | the classical deck (rook, knight, bishop, queen, king, bishop, knight, rook for both sides) is rejected | reject a deck whose king is NOT in place | not executed | Decks.DeckLegalMeans | Decks.DeckLegalIntendedMeans |
| Source/chess_deck.py:478-481 | `has_been_an_en_passant_capture` fires for every pawn that lands on another file, so `push` removes whatever stands behind the destination | a white pawn on e4 takes a piece on d5 while a piece stands on d4: the d4 piece is removed too | remove the pawn behind only when the pawn lands on the previous en-passant square | not executed | Play.PawnCaptureRemovesBehind | Play.IntendedCaptureKeepsBehind |
