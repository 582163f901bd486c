/** The optional result of a search. */
module Options {
  datatype Option<T> = None | Some(value: T)
}

/**
 * The 8x8 placement as a value: 64 cells, cell `f * 8 + r` holding square
 * (f, r), which is how `Piece placement[N_FILES][N_RANKS]` lies in memory.
 */
module Boards {
  import opened Options
  import opened Pieces
  import opened Geometry

  type Board = b: seq<Piece> | |b| == 64 witness seq(64, _ => PIECE_EMPTY)

  /** `get_piece_at_sq`. */
  function At(b: Board, sq: Sq): Piece
    requires OnBoard(sq)
  {
    b[Idx(sq)]
  }

  /** Every square holds one of the thirteen tags. */
  predicate ValidBoard(b: Board) {
    forall i :: 0 <= i < 64 ==> ValidPiece(b[i])
  }

  /**
   * The placement after moving the piece on `from` to `to`: the target
   * receives what stood on `from`, then `from` is emptied.
   */
  function ApplyMove(b: Board, from: Sq, to: Sq): (c: Board)
    requires OnBoard(from) && OnBoard(to)
    ensures At(c, from) == PIECE_EMPTY
    ensures from != to ==> At(c, to) == At(b, from)
  {
    b[Idx(to) := b[Idx(from)]][Idx(from) := PIECE_EMPTY]
  }

  /** A move leaves every other square as it was, and a board of valid tags stays one. */
  lemma ApplyMoveElsewhere(b: Board, from: Sq, to: Sq)
    requires OnBoard(from) && OnBoard(to)
    ensures forall sq :: OnBoard(sq) && sq != from && sq != to ==> At(ApplyMove(b, from, to), sq) == At(b, sq)
    ensures ValidBoard(b) ==> ValidBoard(ApplyMove(b, from, to))
  {
    forall sq | OnBoard(sq) && sq != from && sq != to
      ensures Idx(sq) != Idx(from) && Idx(sq) != Idx(to)
    {
      if Idx(sq) == Idx(from) { IdxInjective(sq, from); }
      if Idx(sq) == Idx(to) { IdxInjective(sq, to); }
    }
  }

  /** First cell, scanning files then ranks from cell `i` on, that holds `p`. */
  function FindPieceFrom(b: Board, p: Piece, i: nat): (res: Option<Sq>)
    requires i <= 64
    ensures res.Some? ==> OnBoard(res.value) && i <= Idx(res.value) && At(b, res.value) == p
    decreases 64 - i
  {
    if i == 64 then None
    else if b[i] == p then Some(SqAt(i))
    else FindPieceFrom(b, p, i + 1)
  }

  /** The search fails exactly when no cell from `i` on holds `p`, and succeeds at the first one that does. */
  lemma {:induction false} FindPieceFromSpec(b: Board, p: Piece, i: nat)
    requires i <= 64
    ensures FindPieceFrom(b, p, i).None? <==> forall j :: i <= j < 64 ==> b[j] != p
    ensures FindPieceFrom(b, p, i).Some? ==> forall j :: i <= j < Idx(FindPieceFrom(b, p, i).value) ==> b[j] != p
    decreases 64 - i
  {
    if i < 64 && b[i] != p {
      FindPieceFromSpec(b, p, i + 1);
    }
  }

  /** The first square, in the order `is_king_in_check` scans, that holds `p`. */
  function FindPiece(b: Board, p: Piece): Option<Sq> {
    FindPieceFrom(b, p, 0)
  }
}
