/**
 * What the FEN decoder makes of a well-formed string: an encoder for
 * every field the decoder reads, and the round trip from a board, side to
 * move, castling bits, en-passant square and counters through the text
 * back to the decoder's state.
 */
module FenFacts {
  import opened Options
  import opened Pieces
  import opened Geometry
  import opened Boards
  import opened Positions
  import opened Fen

  /** The placement letter of a piece (a white pawn's for anything but the twelve piece tags). */
  function PieceLetter(p: Piece): char {
    if p == R_BLACK then 'r' else if p == N_BLACK then 'n' else if p == B_BLACK then 'b'
    else if p == Q_BLACK then 'q' else if p == K_BLACK then 'k' else if p == P_BLACK then 'p'
    else if p == R_WHITE then 'R' else if p == N_WHITE then 'N' else if p == B_WHITE then 'B'
    else if p == Q_WHITE then 'Q' else if p == K_WHITE then 'K' else 'P'
  }

  /** Reading a piece's letter gives the piece back. */
  lemma PieceLetterRoundTrip(p: Piece)
    requires ValidPiece(p) && p != PIECE_EMPTY
    ensures PieceOfLetter(PieceLetter(p)) == Some(p)
    ensures PieceLetter(p) != ' '
  {
    assert p in {R_BLACK, N_BLACK, B_BLACK, Q_BLACK, K_BLACK, P_BLACK, R_WHITE, N_WHITE, B_WHITE, Q_WHITE, K_WHITE, P_WHITE};
  }

  /** The decimal digit `d`. */
  function Digit(d: nat): char
    requires d < 10
  {
    (48 + d) as char
  }

  /** The number of empty cells on rank `r` from file `f` on, up to the first occupied one. */
  function EmptyRun(b: Board, r: int, f: int): (n: nat)
    requires 0 <= r < 8 && 0 <= f <= 8
    ensures f + n <= 8
    decreases 8 - f
  {
    if f == 8 || b[f * 8 + r] != PIECE_EMPTY then 0 else 1 + EmptyRun(b, r, f + 1)
  }

  /** The run counted by `EmptyRun` is all empty cells, and it is not empty when it starts on an empty cell. */
  lemma {:induction false} EmptyRunEmpty(b: Board, r: int, f: int)
    requires 0 <= r < 8 && 0 <= f <= 8
    ensures forall k :: f <= k < f + EmptyRun(b, r, f) ==> b[k * 8 + r] == PIECE_EMPTY
    ensures f < 8 && b[f * 8 + r] == PIECE_EMPTY ==> EmptyRun(b, r, f) >= 1
    decreases 8 - f
  {
    if f < 8 && b[f * 8 + r] == PIECE_EMPTY {
      EmptyRunEmpty(b, r, f + 1);
    }
  }

  /** Rank `r` from file `f` on: a letter per piece, a digit per run of empty cells. */
  function RankText(b: Board, r: int, f: int): string
    requires 0 <= r < 8 && 0 <= f <= 8
    decreases 8 - f
  {
    if f == 8 then []
    else if b[f * 8 + r] == PIECE_EMPTY then
      var n := EmptyRun(b, r, f);
      [Digit(n)] + RankText(b, r, f + n)
    else [PieceLetter(b[f * 8 + r])] + RankText(b, r, f + 1)
  }

  /** Ranks `r` down to 1, separated by slashes. */
  function PlacementText(b: Board, r: int): string
    requires 0 <= r < 8
    decreases r
  {
    RankText(b, r, 0) + (if r == 0 then [] else ['/'] + PlacementText(b, r - 1))
  }

  /** The castling letters for bits `x`, `-` for none; the letters follow the decoder's inverted mapping. */
  function CastlingText(x: bv8): string {
    if x == 0 then "-"
    else
      (if x & CASTLING_BLACK_KINGSIDE != 0 then "K" else "")
      + (if x & CASTLING_BLACK_QUEENSIDE != 0 then "Q" else "")
      + (if x & CASTLING_WHITE_KINGSIDE != 0 then "k" else "")
      + (if x & CASTLING_WHITE_QUEENSIDE != 0 then "q" else "")
  }

  /** The en-passant field: the square in algebraic form, `-` for none. */
  function EnPassantText(ep: Option<Sq>): string
    requires ep.Some? ==> OnBoard(ep.value)
  {
    if ep.None? then "-" else [FToAlgf(ep.value.f), RToAlgr(ep.value.r)]
  }

  /** A counter in decimal. */
  function DecimalText(n: nat): (s: string)
    ensures |s| > 0
    decreases n
  {
    if n < 10 then [Digit(n)] else DecimalText(n / 10) + [Digit(n % 10)]
  }

  /** The side to move and castling fields, each after its space. */
  function SideText(c: Color, castling: bv8): string {
    [' ', if c == COLOR_WHITE then 'w' else 'b'] + [' '] + CastlingText(castling)
  }

  /** The en-passant field and the two counters, each after its space. */
  function CountersText(ep: Option<Sq>, half: nat, full: nat): string
    requires ep.Some? ==> OnBoard(ep.value)
  {
    [' '] + EnPassantText(ep) + [' '] + DecimalText(half) + [' '] + DecimalText(full)
  }

  /** A whole FEN string. */
  function EncodeFen(b: Board, c: Color, castling: bv8, ep: Option<Sq>, half: nat, full: nat): string
    requires ValidBoard(b) && IsColor(c) && (ep.Some? ==> OnBoard(ep.value))
  {
    PlacementText(b, 7) + (SideText(c, castling) + CountersText(ep, half, full))
  }

  /** The whole board as a map from cells. */
  function BoardMap(b: Board): map<int, Piece> {
    map k | 0 <= k < 64 :: b[k]
  }

  /** The cells of the ranks above `r`, and of rank `r` left of file `f`. */
  function Covered(b: Board, r: int, f: int): map<int, Piece> {
    map k | 0 <= k < 64 && (k % 8 > r || (k % 8 == r && k / 8 < f)) :: b[k]
  }

  /** Running a concatenation runs its parts one after the other. */
  lemma {:induction false} FenRunAppend(st: FenState, s: string, t: string)
    ensures FenRun(st, s + t) == match FenRun(st, s) { case None => None case Some(u) => FenRun(u, t) }
    decreases |s|
  {
    if s == [] {
      assert s + t == t;
    } else {
      assert (s + t)[0] == s[0] && (s + t)[1..] == s[1..] + t;
      match FenStep(st, s[0]) {
        case None =>
        case Some(next) => FenRunAppend(next, s[1..], t);
      }
    }
  }

  /** Running one character is one step. */
  lemma FenRunOne(st: FenState, c: char)
    ensures FenRun(st, [c]) == FenStep(st, c)
  {
  }

  /** In the placement, a digit writes that many empty cells. */
  lemma DigitStep(st: FenState, n: nat)
    requires st.field == 0 && 1 <= n <= 8
    ensures FenStep(st, Digit(n)) == Empties(st, n)
  {
    assert PieceOfLetter(Digit(n)).None?;
  }

  /** In the placement, a piece's letter writes the piece. */
  lemma PieceStep(st: FenState, p: Piece)
    requires st.field == 0 && ValidPiece(p) && p != PIECE_EMPTY
    ensures FenStep(st, PieceLetter(p)) == Put(st, p)
  {
    PieceLetterRoundTrip(p);
  }

  /** In the placement, a slash moves to the a-file of the rank below. */
  lemma SlashStep(st: FenState)
    requires st.field == 0
    ensures FenStep(st, '/') == Some(st.(f := 0, r := st.r - 1))
  {
  }

  /** Writing the next cell of rank `r` extends the covered cells by one. */
  lemma PutCovers(st: FenState, b: Board, r: int, f: int)
    requires 0 <= r < 8 && 0 <= f < 8 && st.f == f && st.r == r && st.written == Covered(b, r, f)
    ensures Put(st, b[f * 8 + r]) == Some(st.(written := Covered(b, r, f + 1), f := f + 1))
  {
    var k0 := f * 8 + r;
    assert k0 % 8 == r && k0 / 8 == f;
    var m := Covered(b, r, f)[k0 := b[k0]];
    forall k | 0 <= k < 64
      ensures k in m <==> k in Covered(b, r, f + 1)
    {
      if k % 8 == r && k / 8 == f { assert k == k0; }
    }
    assert m == Covered(b, r, f + 1);
  }

  /** A digit's run of empty cells, where the board is empty, extends the covered cells by the run. */
  lemma {:induction false} EmptiesCover(st: FenState, b: Board, r: int, f: int, n: nat)
    requires 0 <= r < 8 && 0 <= f && f + n <= 8 && st.f == f && st.r == r && st.written == Covered(b, r, f)
    requires forall k :: f <= k < f + n ==> b[k * 8 + r] == PIECE_EMPTY
    ensures Empties(st, n) == Some(st.(written := Covered(b, r, f + n), f := f + n))
    decreases n
  {
    if n > 0 {
      PutCovers(st, b, r, f);
      EmptiesCover(st.(written := Covered(b, r, f + 1), f := f + 1), b, r, f + 1, n - 1);
    }
  }

  /** Writing the placement fields twice keeps only the second write. */
  lemma Overwritten(st: FenState, w1: map<int, Piece>, f1: int, w: map<int, Piece>)
    ensures Some(st.(written := w1, f := f1).(written := w, f := 8)) == Some(st.(written := w, f := 8))
  {
  }

  /** A rank's text at a run of empty cells: the digit writes the run, and the rest of the rank follows. */
  lemma RankDigit(st: FenState, b: Board, r: int, f: int)
    requires 0 <= r < 8 && 0 <= f < 8 && b[f * 8 + r] == PIECE_EMPTY
    requires st.field == 0 && st.f == f && st.r == r && st.written == Covered(b, r, f)
    ensures var n := EmptyRun(b, r, f);
      && 1 <= n
      && FenRun(st, RankText(b, r, f)) == FenRun(st.(written := Covered(b, r, f + n), f := f + n), RankText(b, r, f + n))
  {
    var n := EmptyRun(b, r, f);
    EmptyRunEmpty(b, r, f);
    assert RankText(b, r, f) == [Digit(n)] + RankText(b, r, f + n);
    FenRunOne(st, Digit(n));
    DigitStep(st, n);
    EmptiesCover(st, b, r, f, n);
    FenRunAppend(st, [Digit(n)], RankText(b, r, f + n));
  }

  /** A rank's text at a piece: its letter writes it, and the rest of the rank follows. */
  lemma RankPiece(st: FenState, b: Board, r: int, f: int)
    requires 0 <= r < 8 && 0 <= f < 8 && b[f * 8 + r] != PIECE_EMPTY && ValidPiece(b[f * 8 + r])
    requires st.field == 0 && st.f == f && st.r == r && st.written == Covered(b, r, f)
    ensures FenRun(st, RankText(b, r, f)) == FenRun(st.(written := Covered(b, r, f + 1), f := f + 1), RankText(b, r, f + 1))
  {
    var piece := b[f * 8 + r];
    assert RankText(b, r, f) == [PieceLetter(piece)] + RankText(b, r, f + 1);
    FenRunOne(st, PieceLetter(piece));
    PieceStep(st, piece);
    PutCovers(st, b, r, f);
    FenRunAppend(st, [PieceLetter(piece)], RankText(b, r, f + 1));
  }

  /** One rank's text, from file `f` on, writes the rest of that rank and stops past the h-file. */
  lemma {:induction false} RankDecodes(st: FenState, b: Board, r: int, f: int)
    requires 0 <= r < 8 && 0 <= f <= 8 && forall k :: f <= k < 8 ==> ValidPiece(b[k * 8 + r])
    requires st.field == 0 && st.f == f && st.r == r && st.written == Covered(b, r, f)
    ensures FenRun(st, RankText(b, r, f)) == Some(st.(written := Covered(b, r, 8), f := 8))
    decreases 8 - f, 1
  {
    if f == 8 {
      assert FenRun(st, RankText(b, r, f)) == Some(st);
    } else if b[f * 8 + r] == PIECE_EMPTY {
      RankDecodesDigit(st, b, r, f);
    } else {
      RankDecodesPiece(st, b, r, f);
    }
  }

  /** `RankDecodes` where the rank continues with a run of empty cells. */
  lemma {:induction false} RankDecodesDigit(st: FenState, b: Board, r: int, f: int)
    requires 0 <= r < 8 && 0 <= f < 8 && b[f * 8 + r] == PIECE_EMPTY && forall k :: f <= k < 8 ==> ValidPiece(b[k * 8 + r])
    requires st.field == 0 && st.f == f && st.r == r && st.written == Covered(b, r, f)
    ensures FenRun(st, RankText(b, r, f)) == Some(st.(written := Covered(b, r, 8), f := 8))
    decreases 8 - f, 0
  {
    var n := EmptyRun(b, r, f);
    RankDigit(st, b, r, f);
    RankDecodes(st.(written := Covered(b, r, f + n), f := f + n), b, r, f + n);
    Overwritten(st, Covered(b, r, f + n), f + n, Covered(b, r, 8));
  }

  /** `RankDecodes` where the rank continues with a piece. */
  lemma {:induction false} RankDecodesPiece(st: FenState, b: Board, r: int, f: int)
    requires 0 <= r < 8 && 0 <= f < 8 && b[f * 8 + r] != PIECE_EMPTY && forall k :: f <= k < 8 ==> ValidPiece(b[k * 8 + r])
    requires st.field == 0 && st.f == f && st.r == r && st.written == Covered(b, r, f)
    ensures FenRun(st, RankText(b, r, f)) == Some(st.(written := Covered(b, r, 8), f := 8))
    decreases 8 - f, 0
  {
    RankPiece(st, b, r, f);
    RankDecodes(st.(written := Covered(b, r, f + 1), f := f + 1), b, r, f + 1);
    Overwritten(st, Covered(b, r, f + 1), f + 1, Covered(b, r, 8));
  }

  /** A full rank covers exactly what the empty start of the rank below covers. */
  lemma CoveredNextRank(b: Board, r: int)
    requires 1 <= r < 8
    ensures Covered(b, r, 8) == Covered(b, r - 1, 0)
  {
    forall k | 0 <= k < 64
      ensures k in Covered(b, r, 8) <==> k in Covered(b, r - 1, 0)
    {
      assert k / 8 < 8;
    }
  }

  /** Rank 1 complete, the whole board is covered. */
  lemma CoveredAll(b: Board)
    ensures Covered(b, 0, 8) == BoardMap(b)
  {
    forall k | 0 <= k < 64
      ensures k in Covered(b, 0, 8)
    {
      assert k / 8 < 8;
    }
  }

  /** Nothing is covered at a8, where decoding starts. */
  lemma CoveredNone(b: Board)
    ensures Covered(b, 7, 0) == map[]
  {
    forall k | k in Covered(b, 7, 0)
      ensures false
    {
    }
  }

  /** The placement text from rank `r` down writes every cell of those ranks and stops at rank 1. */
  lemma {:induction false} PlacementDecodes(st: FenState, b: Board, r: int)
    requires ValidBoard(b) && 0 <= r < 8
    requires st.field == 0 && st.f == 0 && st.r == r && st.written == Covered(b, r, 0)
    ensures FenRun(st, PlacementText(b, r)) == Some(st.(written := BoardMap(b), f := 8, r := 0))
    decreases r
  {
    var rest := if r == 0 then [] else ['/'] + PlacementText(b, r - 1);
    FenRunAppend(st, RankText(b, r, 0), rest);
    RankDecodes(st, b, r, 0);
    var st1 := st.(written := Covered(b, r, 8), f := 8);
    if r == 0 {
      CoveredAll(b);
    } else {
      CoveredNextRank(b, r);
      var st2 := st1.(f := 0, r := r - 1);
      FenRunAppend(st1, ['/'], PlacementText(b, r - 1));
      FenRunOne(st1, '/');
      SlashStep(st1);
      PlacementDecodes(st2, b, r - 1);
    }
  }

  /** A counter's decimal text, read into a zero half-move counter, sets it, and reads the en-passant buffer on the way. */
  lemma {:induction false} HalfmovesDecode(st: FenState, n: nat)
    requires st.field == 4 && st.halfmoves == 0 && n < 0x8000 && ReadEnPassant(st).Some?
    ensures FenRun(st, DecimalText(n)) == Some(st.(enPassant := ReadEnPassant(st).value, halfmoves := n))
    decreases n
  {
    var ep := ReadEnPassant(st).value;
    if n < 10 {
      assert FenRun(Some(st.(enPassant := ep, halfmoves := n)).value, []) == Some(st.(enPassant := ep, halfmoves := n));
    } else {
      HalfmovesDecode(st, n / 10);
      FenRunAppend(st, DecimalText(n / 10), [Digit(n % 10)]);
      var mid := st.(enPassant := ep, halfmoves := n / 10);
      assert ReadEnPassant(mid) == Some(ep);
      assert AddDigit(n / 10, Digit(n % 10)) == n;
    }
  }

  /** A counter's decimal text, read into a zero full-move counter, sets it. */
  lemma {:induction false} FullmovesDecode(st: FenState, n: nat)
    requires st.field == 5 && st.fullmoves == 0 && n < 0x8000
    ensures FenRun(st, DecimalText(n)) == Some(st.(fullmoves := n))
    decreases n
  {
    if n >= 10 {
      FullmovesDecode(st, n / 10);
      FenRunAppend(st, DecimalText(n / 10), [Digit(n % 10)]);
      assert AddDigit(n / 10, Digit(n % 10)) == n;
    }
  }

  /** The castling letters of bits `x` (at most the four rights) set exactly those bits. */
  lemma CastlingDecodes(st: FenState, x: bv8)
    requires st.field == 2 && st.castling == 0 && x < 16
    ensures FenRun(st, CastlingText(x)) == Some(st.(castling := x))
  {
    var s := CastlingText(x);
    if x == 0 {
      assert FenRun(st, s) == Some(st);
    } else {
      var bk: string := if x & CASTLING_BLACK_KINGSIDE != 0 then "K" else "";
      var bq: string := if x & CASTLING_BLACK_QUEENSIDE != 0 then "Q" else "";
      var wk: string := if x & CASTLING_WHITE_KINGSIDE != 0 then "k" else "";
      var wq: string := if x & CASTLING_WHITE_QUEENSIDE != 0 then "q" else "";
      var x1 := x & CASTLING_BLACK_KINGSIDE;
      var x2 := x1 | (x & CASTLING_BLACK_QUEENSIDE);
      var x3 := x2 | (x & CASTLING_WHITE_KINGSIDE);
      assert x3 | (x & CASTLING_WHITE_QUEENSIDE) == x;
      FenRunAppend(st, bk + bq + wk, wq);
      FenRunAppend(st, bk + bq, wk);
      FenRunAppend(st, bk, bq);
      assert FenRun(st, bk) == Some(st.(castling := x1));
      assert FenRun(st.(castling := x1), bq) == Some(st.(castling := x2));
      assert FenRun(st.(castling := x2), wk) == Some(st.(castling := x3));
    }
  }

  /** The en-passant field fills the buffer with its one or two characters. */
  lemma EnPassantDecodes(st: FenState, ep: Option<Sq>)
    requires st.field == 3 && st.epText == [] && (ep.Some? ==> OnBoard(ep.value))
    ensures FenRun(st, EnPassantText(ep)) == Some(st.(epText := EnPassantText(ep)))
    ensures ReadEnPassant(st.(epText := EnPassantText(ep))) == Some(if ep.None? then st.enPassant else ep.value)
  {
    var s := EnPassantText(ep);
    if ep.Some? {
      AlgebraicRoundTrip(ep.value.f, ep.value.r, s[0], s[1]);
      var st1 := st.(epText := [s[0]]);
      FenRunOne(st, s[0]);
      assert [] + [s[0]] == [s[0]];
      assert FenRun(st, [s[0]]) == Some(st1);
      FenRunOne(st1, s[1]);
      assert [s[0]] + [s[1]] == s;
      assert FenRun(st1, [s[1]]) == Some(st.(epText := s));
      FenRunAppend(st, [s[0]], [s[1]]);
    } else {
      FenRunOne(st, '-');
      assert s == ['-'] && [] + ['-'] == ['-'];
    }
  }

  /** A space then the rest of a field: the field counter moves on first. */
  lemma SpaceThen(st: FenState, s: string)
    ensures FenRun(st, [' '] + s) == FenRun(st.(field := st.field + 1), s)
  {
    assert ([' '] + s)[1..] == s;
  }

  /** The side to move and the castling letters, read after the placement. */
  lemma SideDecodes(st: FenState, c: Color, castling: bv8)
    requires st.field == 0 && st.castling == 0 && IsColor(c) && castling < 16
    ensures FenRun(st, SideText(c, castling)) == Some(st.(field := 2, active := Some(c), castling := castling))
  {
    var letter := if c == COLOR_WHITE then 'w' else 'b';
    var s1 := st.(field := 1);
    var s2 := s1.(active := Some(c));
    var s3 := s2.(field := 2);
    assert [' ', letter] == [' '] + [letter];
    SpaceThen(st, [letter]);
    FenRunOne(s1, letter);
    assert FenRun(st, [' ', letter]) == Some(s2);
    SpaceThen(s2, CastlingText(castling));
    CastlingDecodes(s3, castling);
    assert FenRun(s2, [' '] + CastlingText(castling)) == Some(s3.(castling := castling));
    FenRunAppend(st, [' ', letter], [' '] + CastlingText(castling));
    assert SideText(c, castling) == [' ', letter] + ([' '] + CastlingText(castling));
  }

  /** The half-move field after its space. */
  lemma HalfmovesField(st: FenState, half: nat)
    requires st.field == 3 && ReadEnPassant(st).Some? && st.halfmoves == 0 && half < 0x8000
    ensures FenRun(st, [' '] + DecimalText(half)) == Some(st.(field := 4, enPassant := ReadEnPassant(st).value, halfmoves := half))
  {
    HalfmovesDecode(st.(field := 4), half);
    SpaceThen(st, DecimalText(half));
  }

  /** The full-move field after its space. */
  lemma FullmovesField(st: FenState, full: nat)
    requires st.field == 4 && st.fullmoves == 0 && full < 0x8000
    ensures FenRun(st, [' '] + DecimalText(full)) == Some(st.(field := 5, fullmoves := full))
  {
    FullmovesDecode(st.(field := 5), full);
    SpaceThen(st, DecimalText(full));
  }

  /** The two counters, read once the en-passant buffer holds a readable field. */
  lemma ClocksDecode(st: FenState, half: nat, full: nat)
    requires st.field == 3 && ReadEnPassant(st).Some? && st.halfmoves == 0 && st.fullmoves == 0
    requires half < 0x8000 && full < 0x8000
    ensures FenRun(st, [' '] + DecimalText(half) + [' '] + DecimalText(full))
      == Some(st.(field := 5, enPassant := ReadEnPassant(st).value, halfmoves := half, fullmoves := full))
  {
    var s5 := st.(field := 4, enPassant := ReadEnPassant(st).value, halfmoves := half);
    HalfmovesField(st, half);
    FullmovesField(s5, full);
    FenRunAppend(st, [' '] + DecimalText(half), [' '] + DecimalText(full));
    assert [' '] + DecimalText(half) + [' '] + DecimalText(full) == ([' '] + DecimalText(half)) + ([' '] + DecimalText(full));
    assert s5.(field := 5, fullmoves := full) == st.(field := 5, enPassant := ReadEnPassant(st).value, halfmoves := half, fullmoves := full);
  }

  /** The en-passant field and the counters, read after the castling letters. */
  lemma CountersDecode(st: FenState, ep: Option<Sq>, half: nat, full: nat)
    requires st.field == 2 && st.epText == [] && st.halfmoves == 0 && st.fullmoves == 0
    requires (ep.Some? ==> OnBoard(ep.value)) && half < 0x8000 && full < 0x8000
    ensures FenRun(st, CountersText(ep, half, full))
      == Some(st.(field := 5, epText := EnPassantText(ep),
                  enPassant := if ep.None? then st.enPassant else ep.value, halfmoves := half, fullmoves := full))
  {
    var t2 := [' '] + DecimalText(half) + [' '] + DecimalText(full);
    assert CountersText(ep, half, full) == [' '] + (EnPassantText(ep) + t2);
    var s3 := st.(field := 3);
    var s4 := s3.(epText := EnPassantText(ep));
    EnPassantDecodes(s3, ep);
    ClocksDecode(s4, half, full);
    FenRunAppend(s3, EnPassantText(ep), t2);
    SpaceThen(st, EnPassantText(ep) + t2);
  }

  /**
   * Round trip: the decoder reads back every field the encoder wrote —
   * every cell of the board, the side to move, the castling bits, the
   * en-passant square (a1 stays when there is none) and both counters
   * while they fit a `short`.
   */
  lemma EncodeDecode(b: Board, c: Color, castling: bv8, ep: Option<Sq>, half: nat, full: nat)
    requires ValidBoard(b) && IsColor(c) && (ep.Some? ==> OnBoard(ep.value))
    requires castling < 16 && half < 0x8000 && full < 0x8000
    ensures FenDecode(EncodeFen(b, c, castling, ep, half, full))
      == Some(FenState(5, 8, 0, BoardMap(b), Some(c), castling, EnPassantText(ep),
                       if ep.None? then Sq(0, 0) else ep.value, half, full))
  {
    var header := SideText(c, castling) + CountersText(ep, half, full);
    BoardDecodes(b);
    FenRunAppend(Start(), PlacementText(b, 7), header);
    HeaderDecodes(b, c, castling, ep, half, full);
  }

  /** The placement of a board, read from the start, writes every cell and ends past h1. */
  lemma BoardDecodes(b: Board)
    requires ValidBoard(b)
    ensures FenRun(Start(), PlacementText(b, 7)) == Some(Start().(written := BoardMap(b), f := 8, r := 0))
  {
    CoveredNone(b);
    PlacementDecodes(Start(), b, 7);
  }

  /** All the fields after the placement, read into the state `make_position` left. */
  lemma HeaderDecodes(b: Board, c: Color, castling: bv8, ep: Option<Sq>, half: nat, full: nat)
    requires IsColor(c) && (ep.Some? ==> OnBoard(ep.value))
    requires castling < 16 && half < 0x8000 && full < 0x8000
    ensures var s1 := Start().(written := BoardMap(b), f := 8, r := 0);
      FenRun(s1, SideText(c, castling) + CountersText(ep, half, full))
      == Some(FenState(5, 8, 0, BoardMap(b), Some(c), castling, EnPassantText(ep),
                       if ep.None? then Sq(0, 0) else ep.value, half, full))
  {
    var s1 := Start().(written := BoardMap(b), f := 8, r := 0);
    FenRunAppend(s1, SideText(c, castling), CountersText(ep, half, full));
    SideDecodes(s1, c, castling);
    CountersDecode(s1.(field := 2, active := Some(c), castling := castling), ep, half, full);
  }

  /** A record that holds every cell of a board's map holds that board. */
  lemma AgreesBoard(p: Pos, st: FenState, b: Board)
    requires Agrees(p, st) && st.written == BoardMap(b)
    ensures BoardOf(p) == b
  {
    forall k | 0 <= k < 64
      ensures p.placement[k] == b[k]
    {
      assert k in st.written;
    }
  }

  /** A position the decoder filled from an encoded string holds every encoded field. */
  lemma DecodedPosition(p: Pos, b: Board, c: Color, castling: bv8, ep: Option<Sq>, half: nat, full: nat)
    requires ValidBoard(b) && IsColor(c) && (ep.Some? ==> OnBoard(ep.value))
    requires castling < 16 && half < 0x8000 && full < 0x8000
    requires FenDecode(EncodeFen(b, c, castling, ep, half, full)).Some?
    requires Agrees(p, FenDecode(EncodeFen(b, c, castling, ep, half, full)).value)
    ensures BoardOf(p) == b && ValidPos(p) && p.activeColor == c
    ensures p.castling == castling && p.halfmoves == half && p.fullmoves == full
    ensures p.enPassant == if ep.None? then Sq(0, 0) else ep.value
  {
    EncodeDecode(b, c, castling, ep, half, full);
    var st := FenDecode(EncodeFen(b, c, castling, ep, half, full)).value;
    assert st == FenState(5, 8, 0, BoardMap(b), Some(c), castling, EnPassantText(ep),
                          if ep.None? then Sq(0, 0) else ep.value, half, full);
    AgreesBoard(p, st, b);
  }
}
