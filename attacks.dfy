/**
 * What the check detector computes, as values: whether the king of colour
 * `own` standing on a square is attacked, by a ray along one of the eight
 * queen directions, by a knight leap, or by a pawn.
 *
 * The ray follows the source exactly: it passes over empty squares AND over
 * enemy pieces that do not attack along that direction, and stops only at a
 * piece of colour `own` or at the board's edge.
 */
module Attacks {
  import opened Options
  import opened Pieces
  import opened Geometry
  import opened Boards

  /** The piece-kind test of the ray pass, with `dist` the number of steps taken. */
  predicate AttacksAlong(d: Dir, kind: Piece, dist: nat) {
    (IsOrthogonal(d) && (kind == UNCOLORED_ROOK || kind == UNCOLORED_QUEEN || (kind == UNCOLORED_KING && dist <= 1)))
    || (IsDiagonal(d) && (kind == UNCOLORED_BISHOP || kind == UNCOLORED_QUEEN || (kind == UNCOLORED_KING && dist <= 1)))
  }

  /** A piece of colour `own`: the only thing that ends a ray before the edge. */
  predicate Blocks(b: Board, own: Color, sq: Sq)
    requires OnBoard(sq)
  {
    At(b, sq) != PIECE_EMPTY && PieceColor(At(b, sq)) == own
  }

  /** An enemy piece attacking along `d` from `dist` steps away stands on `sq`. */
  predicate AttackerOn(b: Board, own: Color, sq: Sq, d: Dir, dist: nat)
    requires OnBoard(sq)
  {
    At(b, sq) != PIECE_EMPTY && PieceColor(At(b, sq)) != own && AttacksAlong(d, PieceAsWhite(At(b, sq)), dist)
  }

  /**
   * The ray walk of `is_king_in_square_in_check` from `sq`, which is `dist`
   * steps from the king: true when it meets an attacker.
   */
  predicate RayHits(b: Board, own: Color, sq: Sq, d: Dir, dist: nat)
    requires OnBoard(sq)
    decreases EdgeDistance(sq, d)
  {
    var next := Step(sq, d);
    if !OnBoard(next) then false
    else
      StepTowardsEdge(sq, d);
      var p := At(b, next);
      if p == PIECE_EMPTY then RayHits(b, own, next, d, dist + 1)
      else if PieceColor(p) == own then false
      else if AttacksAlong(d, PieceAsWhite(p), dist + 1) then true
      else RayHits(b, own, next, d, dist + 1)
  }

  /** Reference reading of a ray hit: an attacker `k` steps out, no piece of colour `own` before it. */
  ghost predicate RayReaches(b: Board, own: Color, sq: Sq, d: Dir, dist: nat, k: nat) {
    && 1 <= k
    && OnBoard(StepN(sq, d, k))
    && AttackerOn(b, own, StepN(sq, d, k), d, dist + k)
    && forall j {:trigger StepN(sq, d, j)} :: 1 <= j < k ==> OnBoard(StepN(sq, d, j)) && !Blocks(b, own, StepN(sq, d, j))
  }

  /** Every hit of the ray walk is an attacker reachable in the reference sense. */
  lemma {:induction false} RayHitsSound(b: Board, own: Color, sq: Sq, d: Dir, dist: nat)
    requires OnBoard(sq) && RayHits(b, own, sq, d, dist)
    ensures exists k: nat :: RayReaches(b, own, sq, d, dist, k)
    decreases EdgeDistance(sq, d)
  {
    var next := Step(sq, d);
    assert StepN(sq, d, 1) == next;
    if AttackerOn(b, own, next, d, dist + 1) {
      assert RayReaches(b, own, sq, d, dist, 1);
    } else {
      StepTowardsEdge(sq, d);
      RayHitsSound(b, own, next, d, dist + 1);
      var k: nat :| RayReaches(b, own, next, d, dist + 1, k);
      forall j | 1 <= j < k + 1
        ensures OnBoard(StepN(sq, d, j)) && !Blocks(b, own, StepN(sq, d, j))
      {
        if j > 1 { assert StepN(sq, d, j) == StepN(next, d, j - 1); }
      }
      assert StepN(sq, d, k + 1) == StepN(next, d, k);
      assert RayReaches(b, own, sq, d, dist, k + 1);
    }
  }

  /** Every attacker reachable in the reference sense is found by the ray walk. */
  lemma {:induction false} RayHitsComplete(b: Board, own: Color, sq: Sq, d: Dir, dist: nat, k: nat)
    requires OnBoard(sq) && RayReaches(b, own, sq, d, dist, k)
    ensures RayHits(b, own, sq, d, dist)
    decreases k
  {
    var next := Step(sq, d);
    assert StepN(sq, d, 1) == next;
    if k > 1 {
      assert OnBoard(next) && !Blocks(b, own, next);
      forall j | 1 <= j < k - 1
        ensures OnBoard(StepN(next, d, j)) && !Blocks(b, own, StepN(next, d, j))
      {
        assert StepN(sq, d, j + 1) == StepN(next, d, j);
      }
      assert StepN(sq, d, k) == StepN(next, d, k - 1);
      assert RayReaches(b, own, next, d, dist + 1, k - 1);
      RayHitsComplete(b, own, next, d, dist + 1, k - 1);
    }
  }

  /** The ray walk finds an attacker exactly when one is reachable in the reference sense. */
  lemma RayHitsIff(b: Board, own: Color, sq: Sq, d: Dir, dist: nat)
    requires OnBoard(sq)
    ensures RayHits(b, own, sq, d, dist) <==> exists k: nat :: RayReaches(b, own, sq, d, dist, k)
  {
    if RayHits(b, own, sq, d, dist) {
      RayHitsSound(b, own, sq, d, dist);
    }
    if exists k: nat :: RayReaches(b, own, sq, d, dist, k) {
      var k: nat :| RayReaches(b, own, sq, d, dist, k);
      RayHitsComplete(b, own, sq, d, dist, k);
    }
  }

  /** A knight or pawn on the square one leap `d` away, of a colour other than `own`. */
  predicate LeapHits(b: Board, own: Color, sq: Sq, d: Dir, kind: Piece) {
    var t := Step(sq, d);
    OnBoard(t) && At(b, t) != PIECE_EMPTY && PieceColor(At(b, t)) != own && PieceAsWhite(At(b, t)) == kind
  }

  /** The two squares from which an enemy pawn attacks a king of colour `own`. */
  function PawnAttackDirs(own: Color): seq<Dir> {
    if own == COLOR_WHITE then [UL, UR] else [DL, DR]
  }

  /** `is_king_in_square_in_check` as a value: any of the three passes finds an attacker. */
  predicate SquareAttacked(b: Board, own: Color, sq: Sq)
    requires OnBoard(sq)
  {
    || (exists i :: 0 <= i < |QUEEN_DIRS| && RayHits(b, own, sq, QUEEN_DIRS[i], 0))
    || (exists i :: 0 <= i < |KNIGHT_DIRS| && LeapHits(b, own, sq, KNIGHT_DIRS[i], UNCOLORED_KNIGHT))
    || (exists i :: 0 <= i < |PawnAttackDirs(own)| && LeapHits(b, own, sq, PawnAttackDirs(own)[i], UNCOLORED_PAWN))
  }

  /**
   * `is_king_in_check` as a value: -1 when no king of colour `c` is on the
   * board, otherwise 1 or 0 for the first such king in scan order.
   */
  function CheckStatus(b: Board, c: Color): (s: int)
    ensures -1 <= s <= 1
  {
    match FindPiece(b, MakePiece(c, UNCOLORED_KING))
    case None => -1
    case Some(sq) => if SquareAttacked(b, c, sq) then 1 else 0
  }

  /** The status is decided by the first king of colour `c` in scan order. */
  lemma CheckStatusAt(b: Board, c: Color, sq: Sq)
    requires OnBoard(sq) && At(b, sq) == MakePiece(c, UNCOLORED_KING)
    requires forall j :: 0 <= j < Idx(sq) ==> b[j] != MakePiece(c, UNCOLORED_KING)
    ensures CheckStatus(b, c) == if SquareAttacked(b, c, sq) then 1 else 0
  {
    var first := FindPiece(b, MakePiece(c, UNCOLORED_KING));
    FindPieceFromSpec(b, MakePiece(c, UNCOLORED_KING), 0);
    assert first.Some?;
    assert Idx(first.value) == Idx(sq);
    IdxInjective(first.value, sq);
  }

  /** The status is -1 exactly when there is no king of colour `c` on the board. */
  lemma CheckStatusNoKing(b: Board, c: Color)
    ensures CheckStatus(b, c) == -1 <==> MakePiece(c, UNCOLORED_KING) !in b
  {
    FindPieceFromSpec(b, MakePiece(c, UNCOLORED_KING), 0);
    if MakePiece(c, UNCOLORED_KING) in b {
      var j :| 0 <= j < 64 && b[j] == MakePiece(c, UNCOLORED_KING);
    }
  }
}
