# cwig chess engine core, in Dafny

This project models the core of `cwig`, a small chess engine written in C
(`src/main.c`). The model covers:

- **Board encoding.** Pieces are five-bit tags: two colour bits and three
  kind bits. `piece_color`, `piece_as_white`, `toggled_color` and
  `piece_val` are pure functions over them (module `Pieces`).
- **Geometry.** The sixteen square-step transforms, four orthogonal, four
  diagonal and eight knight leaps, are a closed datatype `Dir` with
  (file, rank) offsets. The source's function-pointer identity tests
  become the class predicates `IsOrthogonal` and `IsDiagonal`. The
  algebraic-notation conversions `algf_to_f`, `algr_to_r`, `f_to_algf`
  and `r_to_algr` are also here (module `Geometry`).
- **Memory and records.** The two bump-allocated pools are modelled by
  their byte accounting: offset and capacity. The position record is the
  class `Pos`, with a 64-cell `placement` array. The source's
  `placement[f][r]` is cell `f * 8 + r`, and each position's move list
  lives in the move pool. `make_position`, `cwig_malloc`, `cwig_calloc`,
  `move_appended_to_move_list` and `position_after_move` are methods
  (module `Positions`). An `abort()` on pool exhaustion is an
  `ok == false` result, and every caller passes it on at once.
- **Check detection.** A value-level specification of what
  `is_king_in_square_in_check` looks for is in module `Attacks`: rays
  along the queen directions, knight leaps and pawn captures. The two
  detector functions are read-only methods proved equal to it (module
  `CheckDetect`).
- **Move generation.** A value-level specification of
  `append_legal_moves_for_piece` and `set_legal_moves_for_position` is in
  module `MoveRules`:
  - the per-kind pass table;
  - the step-by-step walk of one direction;
  - the legality filter, which keeps a move only when the mover's king is
    not reported in check on the board after the move.

  Module `MoveRulesFacts` proves what the generated moves are, piece kind
  by piece kind. The generator itself is imperative (module `MoveGen`):
  - it walks passes, directions and steps;
  - for every candidate it allocates a child position from the pool;
  - it appends a move that points to that child.

  It is proved to append exactly `LegalMoves(board, colour)`, in the
  source's order, each move with its own fresh child.
- **Evaluation and search.** Module `Evaluation` holds, as values:
  - the comparator `cmp_eval_results`;
  - the static evaluation;
  - the fixed-depth minimax value.

  The memoised `explore_position`, `position_static_val` and the recursive
  `position_val_at_ply` are methods over position records (module
  `Search`). They are proved to compute those values.
- **FEN decoding.** `decode_fen` is a character-driven state machine. It
  is modelled as a step function over a decoder state (module `Fen`), and
  the imperative decoder is proved to follow it character by character.
  Module `FenFacts` defines an encoder from a board and header fields to
  FEN text. It proves that decoding the encoder's output recovers the
  board, the side to move, the castling bits, the en-passant square and
  both counters.

## Model

| member | source | states |
|---|---|---|
| Pieces.PieceColor | src/main.c:401-403 | On a valid tag, the colour is `COLOR_EMPTY` exactly for the empty square; otherwise it is white or black. |
| Pieces.PieceAsWhite | src/main.c:413-415 | On a valid non-empty tag, the result is a kind (pawn .. king); on the empty tag it is 0. |
| Pieces.ToggledColor | src/main.c:405-411 | For white or black, the result is the other one of the two. |
| Pieces.MakePieceRoundTrip | src/main.c:19-33 | `colour \| kind` is a valid non-empty tag from which `piece_color` and `piece_as_white` recover the colour and the kind. |
| Pieces.PieceDecomposes | src/main.c:19-33 | Every valid non-empty tag is `colour \| kind` of its own colour and kind. |
| Pieces.PieceVal | src/main.c:222-237 | The value is the kind's weight (pawn 1, knight 3, bishop 3, rook 5, queen 9, king 9999), positive for White and negative for Black. |
| Pieces.PieceValSwap | src/main.c:222-237 | A piece and the same kind in the other colour are worth opposite amounts. |
| Geometry.StepNOffsets | src/main.c:422-439 | k applications of a direction move a square by k times that direction's offsets. |
| Geometry.Opposite | src/main.c:422-439 | The opposite direction has negated offsets. |
| Geometry.StepInverse | src/main.c:422-439 | A step followed by a step in the opposite direction returns to the start. |
| Geometry.DirectionClasses | src/main.c:640-665 | The orthogonal directions are those with a zero offset, the diagonal ones have unit offsets on both axes, and the knight leaps are exactly the rest (squared length 5). |
| Geometry.StepTowardsEdge | src/main.c:628-631 | Each on-board step of a ray brings it strictly closer to the edge, so the detector's and generator's unbounded loops end. |
| Geometry.Idx | src/main.c:177 | A square's cell `f * 8 + r` lies in 0..63. |
| Geometry.SqAt | src/main.c:177 | Every cell 0..63 is the cell of exactly one on-board square. |
| Geometry.IdxInjective | src/main.c:177 | Distinct on-board squares have distinct cells. |
| Geometry.AlgebraicRoundTrip | src/main.c:239-253 | For on-board files and ranks, `algf_to_f(f_to_algf(f)) == f` and `algr_to_r(r_to_algr(r)) == r`; for letters a-h and digits 1-8, the converse round trip holds and lands on the board. |
| Boards.ApplyMove | src/main.c:469-470 | After a move, the origin is empty and (for distinct squares) the destination holds the piece from the origin. |
| Boards.ApplyMoveElsewhere | src/main.c:461-473 | A move leaves every other square unchanged and keeps a board of valid tags valid. |
| Boards.FindPieceFrom | src/main.c:718-726 | A found square is on the board, holds the piece and is at or after the starting cell. |
| Boards.FindPieceFromSpec | src/main.c:718-726 | The search fails exactly when no later cell holds the piece; when it succeeds, no earlier cell does (it finds the first in file-major order). |
| Attacks.RayHitsSound | src/main.c:625-671 | When the ray walk reports a hit, some k steps out there is an enemy that attacks along the direction at that distance, and no own-colour piece stands before it. |
| Attacks.RayHitsComplete | src/main.c:625-671 | Conversely, such an attacker makes the walk report a hit. Enemy pieces that do not attack along the ray do not stop it. |
| Attacks.RayHitsIff | src/main.c:625-671 | The ray walk hits if and only if the reference reading holds. |
| Attacks.CheckStatus | src/main.c:715-728 | The check status is -1, 0 or 1. |
| Attacks.CheckStatusAt | src/main.c:715-728 | When the first king of the colour in scan order stands on `sq`, the status is 1 if that square is attacked and 0 otherwise. |
| Attacks.CheckStatusNoKing | src/main.c:715-728 | The status is -1 exactly when the board has no king of the colour. |
| CheckDetect.IsKingInSquareInCheck | src/main.c:621-713 | The loops over queen rays, knight leaps and pawn captures return 1 exactly when `SquareAttacked` holds for the side to move, else 0. |
| CheckDetect.IsKingInCheck | src/main.c:715-728 | The scan returns `CheckStatus` of the placement and the side to move. |
| MoveRules.PassRules | src/main.c:508-567 | The per-kind table has one pass, or two exactly for a pawn, and every pass has a distance budget of at least 1. |
| MoveRules.Walk | src/main.c:569-616 | A direction walk yields at most `budget` squares, all on the board. |
| MoveRulesFacts.WalkSound | src/main.c:569-616 | The i-th square of a walk is i+1 steps out. Every square before it was empty and could be moved to. It is the last square when it is occupied. |
| MoveRulesFacts.WalkComplete | src/main.c:569-616 | Every square that the reference reading says the walk reaches is in the walk, at its position. |
| MoveRulesFacts.WalkIff | src/main.c:569-616 | A square is in a walk exactly when it is reached k steps out for some k. |
| MoveRulesFacts.WalkTargets | src/main.c:574-614 | Every walk target is on the board and is not an own piece. It is empty only if moves to empty squares are allowed, and occupied only if captures are. A walk that may not move to empty squares stops after one step. |
| MoveRulesFacts.KeepPairsIff | src/main.c:583-591 | The filter keeps the pair (from, t) exactly when t is a candidate that passes the test. |
| MoveRulesFacts.DirsMovesFilter | src/main.c:569-617 | The moves of one pass are its candidates, direction by direction, passed through the legality filter. |
| MoveRulesFacts.RulesMovesFilter | src/main.c:508-618 | The moves of a piece's passes are all its candidates, pass by pass, passed through the legality filter. |
| MoveRulesFacts.PieceMovesIff | src/main.c:499-619 | A pair is generated for a piece exactly when it starts on the piece's square, its target is a candidate of the piece and the move is legal. |
| MoveRulesFacts.MovesUpToIff | src/main.c:737-748 | The moves from the first n cells are exactly the legal candidate moves of own pieces on those cells. |
| MoveRulesFacts.LegalMovesIff | src/main.c:737-748 | A pair is a legal move of colour c exactly when it starts on an own piece, targets a candidate square of that piece, and the board after it does not report c's king in check. A missing king (-1) counts as legal. |
| MoveRulesFacts.LegalMovesKeepKingSafe | src/main.c:580-591 | Every generated move is between on-board squares, and after it the mover's check status is not 1. |
| MoveRulesFacts.DirsCandidatesIff | src/main.c:569-571 | A pass's candidates are the union of its direction walks. |
| MoveRulesFacts.OneStepWalk | src/main.c:525-534 | A one-step walk that may move and capture yields only the adjacent on-board square, and only when it is empty or holds an enemy. |
| MoveRulesFacts.LeaperRules | src/main.c:525-534 | Kings and knights have a single pass over their eight directions, with distance 1 and both permissions. |
| MoveRulesFacts.LeaperCandidates | src/main.c:525-534 | A king's or knight's candidates are exactly the on-board squares one step away in its directions that are empty or hold an enemy. |
| MoveRulesFacts.SliderCandidates | src/main.c:510-524 | A rook's, bishop's or queen's candidates are exactly the squares some k steps along one of its directions, with empty squares before them, that are empty or hold an enemy: the ray stops at the first occupied square. |
| MoveRulesFacts.PawnQuietWalk | src/main.c:535-553 | A quiet walk with budget 1 or 2 yields the empty square ahead and, with budget 2, the empty square beyond it only when the first is empty: it stops at the first occupied square. |
| MoveRulesFacts.PawnCaptureWalk | src/main.c:554-563 | A one-step capture walk yields the diagonal square only when an enemy occupies it. |
| MoveRulesFacts.PawnRules | src/main.c:535-563 | A pawn has a quiet pass straight ahead (budget 2 from rank 1 for White or rank 6 for Black, else 1), then a capture pass over its two forward diagonals. |
| MoveRulesFacts.PawnQuietPass | src/main.c:535-553 | The quiet pass's candidates are the empty square ahead and, from the home rank, the empty square two ahead when the first is empty. |
| MoveRulesFacts.PawnCapturePass | src/main.c:554-563 | The capture pass's candidates are the two forward-diagonal squares that hold an enemy. |
| MoveRulesFacts.PawnCandidates | src/main.c:535-566 | All of a pawn's candidates: the quiet ones and the capture ones. |
| MoveRulesFacts.RayPassesOverEnemyPiece | src/main.c:639-669 | A white king on e1 with a black knight on e2 and a black rook on e8: no knight attacks e1, yet the detector reports check because the ray passes over the knight. |
| Positions.PosPool.constructor | src/main.c:116-128 | A new pool is empty, with the given capacity. |
| Positions.PosPool.CwigMalloc | src/main.c:135-146 | An allocation succeeds exactly when it fits. It then returns the old offset and advances the offset by the size; on failure the offset is unchanged. |
| Positions.PosPool.CwigCalloc | src/main.c:148-150 | The same, for `nmemb * size` bytes. |
| Positions.MovePool.constructor | src/main.c:116-128 | A new move pool is empty, with the given capacity. |
| Positions.MakePosition | src/main.c:194-212 | Draws a record from the position pool. On success the record is fresh and unexplored: verdicts are -2, the move list is empty, castling is 0, en passant is a1 and the counters are zero. |
| Positions.MoveAppendedToMoveList | src/main.c:161-173 | An empty list starts at the move pool's bump pointer. An append that fits adds exactly one slot at the end and advances the pool by one `Move`. One that does not fit changes neither the list nor the pool. |
| Positions.PositionAfterMove | src/main.c:461-473 | The new record's placement is the old one with the piece moved and its origin emptied; the side to move is toggled; castling, en passant and counters are `make_position`'s defaults. |
| MoveGen.NewChild | src/main.c:579-583 | Builds the child for a candidate move. It reports whether the mover's king is safe on the child's board, with the mover temporarily on move. It succeeds exactly when a position record fits in the position pool, and then advances that pool by one record; on failure the pool is unchanged. |
| MoveGen.AppendChild | src/main.c:584-590 | Appends the move, pointing to the child, as the last slot of the list and toggles the child's side to move back. Every listed move then still leads to its own distinct child holding the board after that move. It succeeds exactly when a move slot fits in the move pool, and then advances that pool by one slot; on failure the pool is unchanged. |
| MoveGen.TryMove | src/main.c:579-591 | Appends the move exactly when it is legal, i.e. the list grows by `LegalPairs` of that one target. It succeeds exactly when the child record fits and, for a legal move, the move slot fits as well. The pool offsets never decrease, and a failure leaves a pool without room for a record or a slot (`OutOfRoom`). |
| MoveGen.WalkOntoEmpty | src/main.c:577-594 | An empty target: the list grows by the legal moves among the squares walked so far. The walk stops when moves to empty squares are not allowed or the budget is spent; otherwise it goes on with a smaller budget. The pool offsets never decrease, and it stops (where the source aborts) only when a pool lacks room for a record or a move slot (`OutOfRoom`). |
| MoveGen.WalkOntoPiece | src/main.c:595-614 | An occupied target ends the walk; the list grows by the legal moves among the squares walked, which include an enemy square only when captures are allowed. The pool offsets never decrease, and it stops (where the source aborts) only when a pool lacks room for a record or a move slot (`OutOfRoom`). |
| MoveGen.WalkStep | src/main.c:572-615 | One step of a walk, with the distance budget counted down. The pool offsets never decrease, and it stops (where the source aborts) only when a pool lacks room for a record or a move slot (`OutOfRoom`). |
| MoveGen.WalkDirection | src/main.c:569-616 | Walking one direction appends exactly the legal moves among that direction's walk. The pool offsets never decrease, and it stops (where the source aborts) only when a pool lacks room for a record or a move slot (`OutOfRoom`). |
| MoveGen.AppendPass | src/main.c:568-617 | One pass appends exactly `DirsMoves` of its directions. The pool offsets never decrease, and it stops (where the source aborts) only when a pool lacks room for a record or a move slot (`OutOfRoom`). |
| MoveGen.AppendPasses | src/main.c:508-618 | The passes append exactly `RulesMoves` of the piece's table. The pool offsets never decrease, and it stops (where the source aborts) only when a pool lacks room for a record or a move slot (`OutOfRoom`). |
| MoveGen.AppendLegalMovesForPiece | src/main.c:499-619 | A piece appends exactly `PieceMoves` for its square, each move leading to its own fresh child. The pool offsets never decrease, and it stops (where the source aborts) only when a pool lacks room for a record or a move slot (`OutOfRoom`). |
| MoveGen.ScanSquare | src/main.c:741-746 | A square of the side to move appends that piece's moves; any other square appends nothing. The pool offsets never decrease, and it stops (where the source aborts) only when a pool lacks room for a record or a move slot (`OutOfRoom`). |
| MoveGen.ScanFile | src/main.c:740-747 | One file appends the moves of its eight squares, in rank order. The pool offsets never decrease, and it stops (where the source aborts) only when a pool lacks room for a record or a move slot (`OutOfRoom`). |
| MoveGen.ScanFiles | src/main.c:739-748 | The whole scan appends the moves of all 64 squares, in file-major order. The pool offsets never decrease, and it stops (where the source aborts) only when a pool lacks room for a record or a move slot (`OutOfRoom`). |
| MoveGen.SetLegalMovesForPosition | src/main.c:737-756 | The moves appended to the list are exactly `LegalMoves` of the board and side to move, in scan order (on a fresh record the list is exactly that). Every move leads to its own fresh, unexplored child holding the board after it, with the other side to move. The pool offsets never decrease, and it stops (where the source aborts) only when a pool lacks room for a record or a move slot (`OutOfRoom`). |
| Evaluation.CmpEvalResults | src/main.c:819-840 | Negative exactly when `a` is better for White: a White win beats undecided, which beats a Black win, and two undecided results compare by value. Positive exactly when `b` is better; zero exactly when they are equivalent. |
| Evaluation.CmpAntisymmetric | src/main.c:819-840 | Swapping the arguments swaps the sign and keeps zero. |
| Evaluation.CmpTransitive | src/main.c:819-840 | The order is transitive, and strict when either step is strict. |
| Evaluation.CmpRespectsEquiv | src/main.c:819-840 | Equivalent results compare alike against any third result. |
| Evaluation.MaterialSwapUpTo | src/main.c:802-810 | Swapping every piece's colour negates the material sum over any prefix of cells. |
| Evaluation.MaterialSwap | src/main.c:802-810 | Swapping every piece's colour negates the material balance. |
| Evaluation.MissingKingIsNeither | src/main.c:758-764 | Without a king of the side to move, the position is neither checkmate nor stalemate. |
| Evaluation.StaticValueMeaning | src/main.c:785-813 | A checkmate is won by the side not on move and is the comparator's extreme. A stalemate is a draw. Otherwise the result is undecided with the material balance as its value. |
| Evaluation.BestForWhite | src/main.c:866-868 | The result White picks is one of the results, and none is better for White. |
| Evaluation.BestForBlack | src/main.c:866-871 | The result Black picks is one of the results, and none is worse for White. |
| Evaluation.ExtremalUnique | src/main.c:866-871 | Any two extremal picks from pairwise-equivalent result lists are equivalent, so the unspecified tie choice of the sort does not change the value up to the comparator. |
| Evaluation.ChildValues | src/main.c:862-865 | There is one value per legal move, the i-th being the value of the i-th child board one ply shallower, the other side to move. |
| Evaluation.Minimax | src/main.c:842-874 | At ply 0, checkmate or stalemate, the value is the static value. Otherwise there is a legal move, and the value is one of the children's values with no child better for the side to move (White maximises, Black minimises). |
| Search.ExploredVerdicts | src/main.c:758-772 | On an explored record, the checkmate flag is 1 exactly when in check with no legal move and the stalemate flag exactly when not in check with none. Without a king, neither is set. |
| Search.SetVerdicts | src/main.c:766-772 | Sets the two verdicts from the check status and the move count, then marks the record explored. |
| Search.ListAndJudge | src/main.c:777-780 | After the check status is stored: the record lists exactly the legal moves, each with its own fresh child, and holds the verdicts derived from them. The pool offsets never decrease, and it stops (where the source aborts) only when a pool lacks room for a record or a move slot (`OutOfRoom`). |
| Search.ExploreUnexplored | src/main.c:775-781 | Fills in the check status, the legal moves with fresh children and the verdicts. Only the check status, the move list, the two verdicts and the explored mark of the record can change. The pool offsets never decrease, and it stops (where the source aborts) only when a pool lacks room for a record or a move slot (`OutOfRoom`). |
| Search.ExplorePosition | src/main.c:774-783 | On an explored record, nothing changes. Otherwise the record becomes explored, with the check status, the legal moves and the two verdicts as specified. Only the check status, the move list, the two verdicts and the explored mark of the record can change. The pool offsets never decrease, and it stops (where the source aborts) only when a pool lacks room for a record or a move slot (`OutOfRoom`). |
| Search.MaterialSum | src/main.c:802-810 | The file-by-file, rank-by-rank sum of `piece_val` over occupied squares is the material balance. |
| Search.PositionStaticVal | src/main.c:785-813 | Explores the record, then returns `StaticValue` of its board and side to move. Only the check status, the move list, the two verdicts and the explored mark of the record can change. The pool offsets never decrease, and it stops (where the source aborts) only when a pool lacks room for a record or a move slot (`OutOfRoom`). |
| Search.PickResult | src/main.c:866-871 | The element picked after the sort is `Pick`: comparator-best for White, comparator-worst for Black. |
| Search.ValueChild | src/main.c:863-864 | The i-th child's value one ply shallower is the value of the i-th child board. Only the exploration fields of that child and of records created below it change. The pool offsets never decrease, and it stops only when a record or a move slot does not fit, or when the results array of a node of the searched tree, one slot per legal move there, does not (`Starved`). |
| Search.ValueChildren | src/main.c:853-865 | Allocates the results array and fills it with the children's values, in move order. Only the exploration fields of the children and of records created below them change. The pool offsets never decrease, and it stops only when a record or a move slot does not fit, or when the results array of a node of the searched tree, one slot per legal move there, does not (`Starved`). |
| Search.ValueBelow | src/main.c:853-871 | On a non-terminal node, the result is the pick among the children's values. Only the exploration fields of the children and of records created below them change. The pool offsets never decrease, and it stops only when a record or a move slot does not fit, or when the results array of a node of the searched tree, one slot per legal move there, does not (`Starved`). |
| Search.PositionValAtPly | src/main.c:842-874 | The record ends explored, and the result is `Value` of its board, side to move and ply: the minimax value. Only the check status, move list, verdicts and explored mark of the record and its children change; castling, en passant and the counters are kept. The pool offsets never decrease, and it stops only when a record or a move slot does not fit, or when the results array of a node of the searched tree, one slot per legal move there, does not (`Starved`). |
| Fen.PieceOfLetter | src/main.c:285-320 | A piece letter decodes to a valid non-empty tag. |
| Fen.Short | src/main.c:181-182 | A counter value is wrapped into the range of a 16-bit `short` and is congruent to the unwrapped value modulo 2^16. |
| Fen.PutPiece | src/main.c:285-320 | Writing a piece at the cursor matches the step function. It is defined only on the board. |
| Fen.PutEmpties | src/main.c:321-360 | The loop writing n empty squares matches the step function. |
| Fen.PlacementChar | src/main.c:284-364 | A placement-field character changes the record and the cursor as the step function says. |
| Fen.EnPassantChar | src/main.c:383-384 | An en-passant character is buffered as the step function says; a third one is undefined. |
| Fen.HeaderChar | src/main.c:365-384 | Side-to-move, castling and en-passant characters change the record as the step function says. |
| Fen.CounterChar | src/main.c:385-395 | A counter character records the en-passant square (in field 4), then accumulates a decimal digit, as the step function says. |
| Fen.DecodeChar | src/main.c:282-395 | One character of the loop, dispatched on the field, matches `FenStep`. |
| Fen.DecodeFen | src/main.c:271-399 | The record comes from the position pool. Its behaviour is defined exactly when `FenDecode` of the text is, and then the record agrees with the decoded state cell by cell and field by field. |
| FenFacts.PieceLetterRoundTrip | src/main.c:285-320 | Every valid non-empty tag has a letter that decodes back to it. |
| FenFacts.EmptyRunEmpty | src/main.c:321-360 | A run of empty squares written by a digit is all empty, and at least 1 long when it starts on an empty square. |
| FenFacts.FenRunAppend | src/main.c:281-396 | Decoding a concatenation decodes the first part, then the second from where the first left off. |
| FenFacts.RankDecodes | src/main.c:284-364 | Decoding the encoding of one rank writes exactly that rank's cells and leaves the cursor past the last file. |
| FenFacts.PlacementDecodes | src/main.c:284-364 | Decoding the placement field from rank r down writes exactly the board's cells of those ranks. |
| FenFacts.BoardDecodes | src/main.c:276-364 | Decoding the placement field of a board from the start state writes exactly the board. |
| FenFacts.SideDecodes | src/main.c:365-382 | The side-to-move and castling fields decode to the colour and the castling bits, with the letters mapped as the source maps them. |
| FenFacts.CastlingDecodes | src/main.c:371-382 | The castling field decodes to exactly the 4-bit castling value it encodes. |
| FenFacts.EnPassantDecodes | src/main.c:383-389 | The en-passant field is buffered, and it decodes to the square, or to the old value for `-`. |
| FenFacts.HalfmovesDecode | src/main.c:385-391 | Decimal digits of a number below 2^15 accumulate to that number, and the en-passant square is recorded. |
| FenFacts.FullmovesDecode | src/main.c:392-395 | Decimal digits of a number below 2^15 accumulate to that number. |
| FenFacts.CountersDecode | src/main.c:383-395 | The en-passant, half-move and full-move fields decode to their values. |
| FenFacts.HeaderDecodes | src/main.c:365-395 | Everything after the placement decodes to the side to move, castling bits, en-passant square and counters. |
| FenFacts.EncodeDecode | src/main.c:271-399 | For every valid board, side, castling value below 16, on-board or absent en-passant square and counters below 2^15, decoding the encoded text recovers all of them. |
| FenFacts.DecodedPosition | src/main.c:271-399 | A record that `decode_fen` filled from encoded text holds the board, a valid position, the side to move, the castling bits, the en-passant square and both counters. |

## Notes on the source

- **Ray check.** Read naturally, the detector's ray stops at the first
  piece it meets. The code stops it only at a piece of the side to move
  or at the edge (`src/main.c:639-669`). An enemy piece that cannot
  attack along the ray is passed over, so a rook behind an enemy knight
  still gives check. The model follows the code. `Attacks.RayHits` is
  the code's walk. `MoveRulesFacts.RayPassesOverEnemyPiece` shows a
  concrete board on which this reports check.
- **Castling bits.** The castling letters set bits whose names are the
  other colour's: `K` sets `CASTLING_BLACK_KINGSIDE`
  (`src/main.c:372-379`). The model keeps the bit values as written.
- **Pool choice.** `cwig_malloc` draws from the position pool whatever
  pool its caller names (`src/main.c:136-141`). Both of its callers name
  that pool anyway, so it is a method of `PosPool`.
- **Sort order.** The sort is modelled as a scan for an extremal
  element. Which of several comparator-equal results the library sort
  returns is unspecified. The model picks the earliest, and
  `Evaluation.ExtremalUnique` shows the choice does not matter up to
  the comparator.

## Left out

- Printing and diagnostics are console output only and are not modelled:
  `print_sq`, `print_sq_nl`, `print_placement`, `print_move`,
  `print_eval_result` and the report in `main`. The same goes for
  `main`, a driver over fixed FEN strings.
- The counters `n_pos_explored`, `positions_allocated` and
  `positions_made` are diagnostics only, and are not modelled.
- `malloc` in `make_mem_pool` is not modelled. A pool is created with
  its capacity as a parameter.
- `abort()` is not modelled as process termination. It is an
  `ok == false` result. Every allocating method states exactly when that
  happens: a leaf allocator fails exactly when its block does not fit,
  and a composite one only in a state where some block it asks for does
  not fit (`Positions.OutOfRoom`, `Search.Starved`). The pool offsets
  never decrease. The records a failed call leaves behind are not
  described, because the source never reads them after the abort. This
  applies to the members listed next, whose results are stated for
  `ok == true`.
- MoveGen.TryMove: the move list and children after `ok == false` are not described.
- MoveGen.TryTarget: the move list and children after `ok == false` are not described.
- MoveGen.WalkQuiet: the move list and children after `ok == false` are not described.
- MoveGen.WalkOntoEmpty: the move list and children after `ok == false` are not described.
- MoveGen.WalkOntoPiece: the move list and children after `ok == false` are not described.
- MoveGen.WalkStep: the move list and children after `ok == false` are not described.
- MoveGen.WalkDirection: the move list and children after `ok == false` are not described.
- MoveGen.AppendPass: the move list and children after `ok == false` are not described.
- MoveGen.AppendPasses: the move list and children after `ok == false` are not described.
- MoveGen.AppendLegalMovesForPiece: the move list and children after `ok == false` are not described.
- MoveGen.ScanSquare: the move list and children after `ok == false` are not described.
- MoveGen.ScanFile: the move list and children after `ok == false` are not described.
- MoveGen.ScanFiles: the move list and children after `ok == false` are not described.
- MoveGen.SetLegalMovesForPosition: the move list and children after `ok == false` are not described.
- Search.ListAndJudge: the records' exploration state and the result after `ok == false` are not described.
- Search.ExploreUnexplored: the records' exploration state and the result after `ok == false` are not described.
- Search.ExplorePosition: the records' exploration state and the result after `ok == false` are not described.
- Search.PositionStaticVal: the records' exploration state and the result after `ok == false` are not described.
- Search.ValueChild: the records' exploration state and the result after `ok == false` are not described.
- Search.ValueChildren: the records' exploration state and the result after `ok == false` are not described.
- Search.ValueBelow: the records' exploration state and the result after `ok == false` are not described.
- Search.PositionValAtPly: the records' exploration state and the result after `ok == false` are not described.
- The pools are modelled by their byte accounting, not their bytes.
  Positions, moves and evaluation arrays are Dafny objects. The
  `sizeof` values (96, 16, 16) assume an LP64 target.
- `Val` is a `double` in the source. It is an `int` here, because every
  value is a sum of integer piece weights. The `int` conversion in the
  comparator (`src/main.c:826`) is then exact.
- Castling, en-passant and promotion moves are not modelled; the source
  does not generate them. Castling rights, the en-passant square and the
  move counters are decoded and stored, but nothing reads them.
- The 16-bit `len` of a move list is an unbounded length. It cannot wrap
  in practice, because a board of 64 cells has far fewer than 32767
  moves.
- Pieces.ToggledColor, Pieces.PieceVal: require a real colour and a
  listed piece. The source returns an indeterminate value outside
  them.
- Search.PositionValAtPly: requires `WellDefined`. Every non-terminal
  node of the tree must have a legal move. Without one (only when the
  side to move has no king), the source reads element 0 of a
  zero-length array.
- Search.PositionValAtPly: also requires the record to be unexplored,
  or explored with its children still unexplored, which is what
  `explore_position` leaves. Calls on records reached through other
  paths are not covered.
- Positions.MakePosition: the source leaves the placement and the side
  to move uninitialised; the model's fresh record holds zeros. The same
  applies to the cells and side that `decode_fen` does not write.
- Fen.DecodeFen: behaviour the C leaves undefined is reported as
  `defined == false`. This covers a write off the board, a third
  en-passant character, and reading an en-passant buffer character that
  was never written. The model says nothing about the record in that
  case.
- Fen.DecodeFen: the text is a sequence of characters without NUL (the
  C string's terminator). Characters outside ASCII are read as their
  code point rather than as a negative signed `char`.
- Fen.DecodeFen: two wraparounds are not modelled. After more than 128
  `/` characters the C `char` rank wraps around, but here it keeps
  decreasing. The `int` field counter overflow is not modelled either.
- The en-passant square is stored only when a half-move character
  follows, as in the source. A FEN text that ends after the en-passant
  field leaves the square at a1.
- FenFacts.EncodeDecode: stated for castling values below 16 and
  counters below 2^15, the ranges the FEN fields encode. Larger counters
  wrap as a C `short`, and `Fen.Short` models that wrap.
