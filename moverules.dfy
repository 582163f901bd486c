/**
 * What move generation computes, as values. For a piece on `sq0` the
 * generator runs one pass (two for a pawn: quiet advance, then capture);
 * each pass walks its directions in table order, step by step, and every
 * candidate target is kept only if the mover's king is not reported in
 * check on the board after the move.
 */
module MoveRules {
  import opened Pieces
  import opened Geometry
  import opened Boards
  import opened Attacks

  /** One pass of `append_legal_moves_for_piece`: its directions and permissions. */
  datatype PassRule = PassRule(dirs: seq<Dir>, moveToEmptyAllowed: bool, capturesAllowed: bool, maxDistance: nat)

  /** The distance budget of a sliding piece; the board edge always ends the walk first. */
  const SLIDER_DISTANCE: nat := 9999

  /** The per-kind table, in pass order. */
  function PassRules(piece: Piece, sq0: Sq): (rules: seq<PassRule>)
    requires ValidPiece(piece) && piece != PIECE_EMPTY
    ensures 1 <= |rules| <= 2
    ensures forall i :: 0 <= i < |rules| ==> rules[i].maxDistance >= 1
    ensures |rules| == 2 <==> PieceAsWhite(piece) == P_WHITE
  {
    var wp := PieceAsWhite(piece);
    if wp == R_WHITE then [PassRule(ROOK_DIRS, true, true, SLIDER_DISTANCE)]
    else if wp == B_WHITE then [PassRule(BISHOP_DIRS, true, true, SLIDER_DISTANCE)]
    else if wp == Q_WHITE then [PassRule(QUEEN_DIRS, true, true, SLIDER_DISTANCE)]
    else if wp == K_WHITE then [PassRule(KING_DIRS, true, true, 1)]
    else if wp == N_WHITE then [PassRule(KNIGHT_DIRS, true, true, 1)]
    else if PieceColor(piece) == COLOR_WHITE then
      [ PassRule(WHITE_PAWN_MOVE_TO_EMPTY_DIRS, true, false, if sq0.r == 1 then 2 else 1),
        PassRule(WHITE_PAWN_CAPTURE_DIRS, false, true, 1) ]
    else
      [ PassRule(BLACK_PAWN_MOVE_TO_EMPTY_DIRS, true, false, if sq0.r == 6 then 2 else 1),
        PassRule(BLACK_PAWN_CAPTURE_DIRS, false, true, 1) ]
  }

  /**
   * The candidate targets of one direction walk from `sq` with `budget`
   * steps left, for a piece of colour `own`, before the legality filter.
   */
  function Walk(b: Board, own: Color, sq: Sq, d: Dir, budget: nat, moveToEmpty: bool, captures: bool): (w: seq<Sq>)
    ensures |w| <= budget
    ensures forall i :: 0 <= i < |w| ==> OnBoard(w[i])
    decreases budget
  {
    if budget == 0 then []
    else
      var next := Step(sq, d);
      if !OnBoard(next) then []
      else if At(b, next) == PIECE_EMPTY then
        if moveToEmpty then [next] + Walk(b, own, next, d, budget - 1, moveToEmpty, captures) else []
      else if PieceColor(At(b, next)) == own then []
      else if captures then [next]
      else []
  }

  /** The legality filter: after the move, the king of colour `active` is not reported in check. */
  predicate Legal(b: Board, active: Color, from: Sq, to: Sq)
    requires OnBoard(from) && OnBoard(to)
  {
    CheckStatus(ApplyMove(b, from, to), active) != 1
  }

  /** The legality filter as a test on targets, for moves out of `from`. */
  function LegalTest(b: Board, active: Color, from: Sq): Sq -> bool {
    t => OnBoard(from) && OnBoard(t) && Legal(b, active, from, t)
  }

  /** The moves from `from` to those of `ts` that pass `keep`, in order. */
  function KeepPairs(from: Sq, ts: seq<Sq>, keep: Sq -> bool): (ms: seq<(Sq, Sq)>)
    ensures forall i :: 0 <= i < |ms| ==> ms[i].0 == from && ms[i].1 in ts
  {
    if ts == [] then []
    else (if keep(ts[0]) then [(from, ts[0])] else []) + KeepPairs(from, ts[1..], keep)
  }

  /** The moves from `from` to those of `ts` that pass the legality filter, in order. */
  function LegalPairs(b: Board, active: Color, from: Sq, ts: seq<Sq>): seq<(Sq, Sq)> {
    KeepPairs(from, ts, LegalTest(b, active, from))
  }

  /** The walk of one direction of a pass. */
  function PassWalk(b: Board, own: Color, sq0: Sq, rule: PassRule, d: Dir): seq<Sq> {
    Walk(b, own, sq0, d, rule.maxDistance, rule.moveToEmptyAllowed, rule.capturesAllowed)
  }

  /** Legal moves of one pass over the directions `dirs`, in order. */
  function DirsMoves(b: Board, active: Color, own: Color, sq0: Sq, rule: PassRule, dirs: seq<Dir>): seq<(Sq, Sq)>
  {
    if dirs == [] then []
    else DirsMoves(b, active, own, sq0, rule, dirs[..|dirs| - 1])
         + LegalPairs(b, active, sq0, PassWalk(b, own, sq0, rule, dirs[|dirs| - 1]))
  }

  /** Legal moves of the passes `rules`, in order. */
  function RulesMoves(b: Board, active: Color, own: Color, sq0: Sq, rules: seq<PassRule>): seq<(Sq, Sq)>
  {
    if rules == [] then []
    else RulesMoves(b, active, own, sq0, rules[..|rules| - 1])
         + DirsMoves(b, active, own, sq0, rules[|rules| - 1], rules[|rules| - 1].dirs)
  }

  /** What `append_legal_moves_for_piece` appends for `piece` on `sq0` when `active` is on move. */
  function PieceMoves(b: Board, active: Color, sq0: Sq, piece: Piece): seq<(Sq, Sq)>
    requires ValidPiece(piece) && piece != PIECE_EMPTY
  {
    RulesMoves(b, active, PieceColor(piece), sq0, PassRules(piece, sq0))
  }

  /** What the scan of `set_legal_moves_for_position` appends for cell `i`. */
  function SquareMoves(b: Board, c: Color, i: nat): seq<(Sq, Sq)>
    requires ValidBoard(b) && IsColor(c) && i < 64
  {
    if PieceColor(b[i]) == c then PieceMoves(b, c, SqAt(i), b[i]) else []
  }

  /** The moves of the first `n` cells, in scan order. */
  function MovesUpTo(b: Board, c: Color, n: nat): seq<(Sq, Sq)>
    requires ValidBoard(b) && IsColor(c) && n <= 64
  {
    if n == 0 then [] else MovesUpTo(b, c, n - 1) + SquareMoves(b, c, n - 1)
  }

  /** The legal-move list of a position with `c` to move. */
  function LegalMoves(b: Board, c: Color): seq<(Sq, Sq)>
    requires ValidBoard(b) && IsColor(c)
  {
    MovesUpTo(b, c, |b|)
  }
}
