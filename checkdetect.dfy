/**
 * The check detector over a position record: `is_king_in_square_in_check`
 * and `is_king_in_check`, read-only scans proved equal to `SquareAttacked`
 * and `CheckStatus`.
 */
module CheckDetect {
  import opened Options
  import opened Pieces
  import opened Geometry
  import opened Boards
  import opened Attacks
  import opened Positions

  /**
   * `is_king_in_square_in_check`: 1 when a king of the side to move on
   * `sq0` would be attacked, else 0. Three passes: rays along the queen
   * directions, knight leaps, pawn captures.
   */
  method IsKingInSquareInCheck(pos: Pos, sq0: Sq) returns (r: int)
    requires pos.placement.Length == 64 && OnBoard(sq0)
    ensures r == (if SquareAttacked(pos.placement[..], pos.activeColor, sq0) then 1 else 0)
  {
    ghost var b: Board := pos.placement[..];
    var ownColor := pos.activeColor;
    var i := 0;
    while i < |QUEEN_DIRS|
      invariant 0 <= i <= |QUEEN_DIRS|
      invariant forall j :: 0 <= j < i ==> !RayHits(b, ownColor, sq0, QUEEN_DIRS[j], 0)
    {
      var dir := QUEEN_DIRS[i];
      var sq := sq0;
      var d := 0;
      while true
        invariant OnBoard(sq)
        invariant RayHits(b, ownColor, sq0, dir, 0) == RayHits(b, ownColor, sq, dir, d)
        decreases EdgeDistance(sq, dir)
      {
        var prev := sq;
        sq := Step(sq, dir);
        d := d + 1;
        if sq.f < 0 || sq.f > 7 || sq.r < 0 || sq.r > 7 {
          break;
        }
        StepTowardsEdge(prev, dir);
        var found := pos.placement[Idx(sq)];
        var foundAsWhite := PieceAsWhite(found);
        var foundColor := PieceColor(found);
        if found == PIECE_EMPTY {
        } else if foundColor == ownColor {
          break;
        } else {
          if (IsOrthogonal(dir) && (foundAsWhite == R_WHITE || foundAsWhite == Q_WHITE || (foundAsWhite == K_WHITE && d <= 1)))
            || (IsDiagonal(dir) && (foundAsWhite == B_WHITE || foundAsWhite == Q_WHITE || (foundAsWhite == K_WHITE && d <= 1)))
          {
            return 1;
          }
        }
      }
      i := i + 1;
    }

    i := 0;
    while i < |KNIGHT_DIRS|
      invariant 0 <= i <= |KNIGHT_DIRS|
      invariant forall j :: 0 <= j < |QUEEN_DIRS| ==> !RayHits(b, ownColor, sq0, QUEEN_DIRS[j], 0)
      invariant forall j :: 0 <= j < i ==> !LeapHits(b, ownColor, sq0, KNIGHT_DIRS[j], UNCOLORED_KNIGHT)
    {
      var sq := Step(sq0, KNIGHT_DIRS[i]);
      if !(sq.f < 0 || sq.f > 7 || sq.r < 0 || sq.r > 7) {
        var found := pos.placement[Idx(sq)];
        if found == PIECE_EMPTY {
        } else if PieceColor(found) != ownColor && PieceAsWhite(found) == N_WHITE {
          return 1;
        }
      }
      i := i + 1;
    }

    var pawnCaptureDirs: seq<Dir>;
    if ownColor == COLOR_WHITE {
      pawnCaptureDirs := [UL, UR];
    } else {
      pawnCaptureDirs := [DL, DR];
    }
    i := 0;
    while i < |pawnCaptureDirs|
      invariant 0 <= i <= |pawnCaptureDirs| && pawnCaptureDirs == PawnAttackDirs(ownColor)
      invariant forall j :: 0 <= j < |QUEEN_DIRS| ==> !RayHits(b, ownColor, sq0, QUEEN_DIRS[j], 0)
      invariant forall j :: 0 <= j < |KNIGHT_DIRS| ==> !LeapHits(b, ownColor, sq0, KNIGHT_DIRS[j], UNCOLORED_KNIGHT)
      invariant forall j :: 0 <= j < i ==> !LeapHits(b, ownColor, sq0, pawnCaptureDirs[j], UNCOLORED_PAWN)
    {
      var sq := Step(sq0, pawnCaptureDirs[i]);
      if !(sq.f < 0 || sq.f > 7 || sq.r < 0 || sq.r > 7) {
        var found := pos.placement[Idx(sq)];
        if found == PIECE_EMPTY {
        } else if PieceColor(found) != ownColor && PieceAsWhite(found) == P_WHITE {
          return 1;
        }
      }
      i := i + 1;
    }
    return 0;
  }

  /**
   * `is_king_in_check`: finds the first king of the side to move in
   * file-major order and asks whether it is attacked; -1 when there is none.
   */
  method IsKingInCheck(pos: Pos) returns (r: int)
    requires pos.placement.Length == 64
    ensures r == CheckStatus(pos.placement[..], pos.activeColor)
  {
    ghost var b: Board := pos.placement[..];
    var kingToFind := pos.activeColor | UNCOLORED_KING;
    assert kingToFind == MakePiece(pos.activeColor, UNCOLORED_KING);
    var f := 0;
    while f < 8
      invariant 0 <= f <= 8
      invariant forall j :: 0 <= j < f * 8 ==> b[j] != kingToFind
    {
      var rk := 0;
      while rk < 8
        invariant 0 <= rk <= 8
        invariant forall j :: 0 <= j < f * 8 + rk ==> b[j] != kingToFind
      {
        var sq := Sq(f, rk);
        var found := pos.placement[Idx(sq)];
        if found == kingToFind {
          CheckStatusAt(b, pos.activeColor, sq);
          r := IsKingInSquareInCheck(pos, sq);
          return;
        }
        rk := rk + 1;
      }
      f := f + 1;
    }
    assert kingToFind !in b;
    CheckStatusNoKing(b, pos.activeColor);
    return -1;
  }
}
