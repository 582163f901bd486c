/**
 * Piece tags. A piece is a five-bit value held in a C `char`: bits 3-4
 * carry the colour (white 0b00000, black 0b11000, the empty marker
 * 0b10000) and bits 0-2 the kind (pawn 1 .. king 6).
 */
module Pieces {

  type Piece = bv8
  type Color = bv8

  const COLOR_WHITE: Color := 0x00
  const COLOR_BLACK: Color := 0x18
  const COLOR_EMPTY: Color := 0x10

  const UNCOLORED_PAWN: Piece := 0x01
  const UNCOLORED_ROOK: Piece := 0x02
  const UNCOLORED_KNIGHT: Piece := 0x03
  const UNCOLORED_BISHOP: Piece := 0x04
  const UNCOLORED_QUEEN: Piece := 0x05
  const UNCOLORED_KING: Piece := 0x06

  const PIECE_EMPTY: Piece := COLOR_EMPTY | 0x00

  const P_WHITE: Piece := COLOR_WHITE | UNCOLORED_PAWN
  const R_WHITE: Piece := COLOR_WHITE | UNCOLORED_ROOK
  const N_WHITE: Piece := COLOR_WHITE | UNCOLORED_KNIGHT
  const B_WHITE: Piece := COLOR_WHITE | UNCOLORED_BISHOP
  const Q_WHITE: Piece := COLOR_WHITE | UNCOLORED_QUEEN
  const K_WHITE: Piece := COLOR_WHITE | UNCOLORED_KING

  const P_BLACK: Piece := COLOR_BLACK | UNCOLORED_PAWN
  const R_BLACK: Piece := COLOR_BLACK | UNCOLORED_ROOK
  const N_BLACK: Piece := COLOR_BLACK | UNCOLORED_KNIGHT
  const B_BLACK: Piece := COLOR_BLACK | UNCOLORED_BISHOP
  const Q_BLACK: Piece := COLOR_BLACK | UNCOLORED_QUEEN
  const K_BLACK: Piece := COLOR_BLACK | UNCOLORED_KING

  /** A colour that can be on move. */
  predicate IsColor(c: Color) {
    c == COLOR_WHITE || c == COLOR_BLACK
  }

  /** A kind tag, as left by `PieceAsWhite` on a real piece. */
  predicate IsKind(k: Piece) {
    UNCOLORED_PAWN <= k <= UNCOLORED_KING
  }

  /** The thirteen tags the program ever writes to a square. */
  predicate ValidPiece(p: Piece) {
    p == PIECE_EMPTY || (IsColor(p & 0x18) && IsKind(p & 0x07) && p & 0xE0 == 0)
  }

  /** `piece_color`: the colour bits of a tag. */
  function PieceColor(p: Piece): (c: Color)
    ensures ValidPiece(p) ==> (c == COLOR_EMPTY <==> p == PIECE_EMPTY)
    ensures ValidPiece(p) && p != PIECE_EMPTY ==> IsColor(c)
  {
    p & 0x18
  }

  /** `piece_as_white`: the kind bits of a tag, i.e. the white piece of the same kind. */
  function PieceAsWhite(p: Piece): (k: Piece)
    ensures ValidPiece(p) && p != PIECE_EMPTY ==> IsKind(k)
    ensures ValidPiece(p) && p == PIECE_EMPTY ==> k == 0
  {
    p & 0x07
  }

  /** `toggled_color`; undefined in the source for anything but white or black. */
  function ToggledColor(c: Color): (t: Color)
    requires IsColor(c)
    ensures IsColor(t) && t != c
  {
    if c == COLOR_WHITE then COLOR_BLACK else COLOR_WHITE
  }

  /** The tag of a coloured piece, `color | kind`, as in the P_WHITE .. K_BLACK table. */
  function MakePiece(c: Color, k: Piece): Piece {
    c | k
  }

  /** Building a tag from a colour and a kind and taking it apart again round-trips. */
  lemma MakePieceRoundTrip(c: Color, k: Piece)
    requires IsColor(c) && IsKind(k)
    ensures ValidPiece(MakePiece(c, k)) && MakePiece(c, k) != PIECE_EMPTY
    ensures PieceColor(MakePiece(c, k)) == c && PieceAsWhite(MakePiece(c, k)) == k
  {
  }

  /** Every non-empty valid tag is rebuilt from its colour and kind. */
  lemma PieceDecomposes(p: Piece)
    requires ValidPiece(p) && p != PIECE_EMPTY
    ensures p == MakePiece(PieceColor(p), PieceAsWhite(p))
  {
  }

  /** The piece of the same kind and the other colour. */
  function SwapPieceColor(p: Piece): (q: Piece)
    requires ValidPiece(p)
    ensures ValidPiece(q)
    ensures p == PIECE_EMPTY <==> q == PIECE_EMPTY
    ensures p != PIECE_EMPTY ==> PieceColor(q) == ToggledColor(PieceColor(p)) && PieceAsWhite(q) == PieceAsWhite(p)
  {
    if p == PIECE_EMPTY then p else MakePiece(ToggledColor(PieceColor(p)), PieceAsWhite(p))
  }

  /** Material weight of a kind, the magnitude `piece_val` gives it: pawn 1, knight 3, bishop 3, rook 5, queen 9, king 9999. */
  function KindWeight(k: Piece): int
    requires IsKind(k)
  {
    if k == UNCOLORED_PAWN then 1
    else if k == UNCOLORED_KNIGHT || k == UNCOLORED_BISHOP then 3
    else if k == UNCOLORED_ROOK then 5
    else if k == UNCOLORED_QUEEN then 9
    else 9999
  }

  /**
   * `piece_val`: the signed weight of a piece, positive for white and
   * negative for black. The source leaves the value uninitialised for a
   * tag outside the table, so the empty tag and junk are excluded.
   */
  function PieceVal(p: Piece): (v: int)
    requires ValidPiece(p) && p != PIECE_EMPTY
    ensures v == (if PieceColor(p) == COLOR_WHITE then KindWeight(PieceAsWhite(p)) else -KindWeight(PieceAsWhite(p)))
  {
    if p == P_WHITE then 1
    else if p == R_WHITE then 5
    else if p == N_WHITE then 3
    else if p == B_WHITE then 3
    else if p == Q_WHITE then 9
    else if p == K_WHITE then 9999
    else if p == P_BLACK then -1
    else if p == R_BLACK then -5
    else if p == N_BLACK then -3
    else if p == B_BLACK then -3
    else if p == Q_BLACK then -9
    else -9999
  }

  /** A piece and its other-coloured twin are worth opposite amounts. */
  lemma PieceValSwap(p: Piece)
    requires ValidPiece(p) && p != PIECE_EMPTY
    ensures PieceVal(SwapPieceColor(p)) == -PieceVal(p)
  {
  }
}
