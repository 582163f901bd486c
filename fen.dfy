/**
 * `decode_fen`: a character-driven state machine that fills a fresh
 * position from a FEN string. Spaces advance a field counter; field 0 is
 * the placement, written rank 8 first from the a-file, field 1 the side to
 * move, field 2 the castling letters, field 3 the en-passant square (into a
 * two-character buffer), fields 4 and 5 the move counters.
 *
 * `FenStep` is one character of the machine and `FenRun` a whole string.
 * Where the C code has undefined behaviour — a placement write off the
 * 8x8 array, a third character into the en-passant buffer, a read of a
 * buffer character never written — the step is `None`.
 */
module Fen {
  import opened Options
  import opened Pieces
  import opened Geometry
  import opened Positions

  const CASTLING_BLACK_KINGSIDE: bv8 := 0x08
  const CASTLING_BLACK_QUEENSIDE: bv8 := 0x04
  const CASTLING_WHITE_KINGSIDE: bv8 := 0x02
  const CASTLING_WHITE_QUEENSIDE: bv8 := 0x01

  /**
   * What the decoder knows after a prefix of the string: the field
   * counter, the square `sq` of the next placement write, the cells written
   * so far (cell `f * 8 + r`), the side to move if a `w` or `b` was read,
   * the castling bits, the en-passant buffer and square, and the counters.
   */
  datatype FenState = FenState(
    field: nat, f: int, r: int,
    written: map<int, Piece>,
    active: Option<Color>,
    castling: bv8,
    epText: seq<char>, enPassant: Sq,
    halfmoves: int, fullmoves: int)

  /** `make_position` has run: no rights, en passant a1, zero counters; nothing placed yet; writing starts at a8. */
  function Start(): FenState {
    FenState(0, 0, 7, map[], None, 0, [], Sq(0, 0), 0, 0)
  }

  /** The piece a placement letter stands for: lower case black, upper case white. */
  function PieceOfLetter(c: char): (p: Option<Piece>)
    ensures p.Some? ==> ValidPiece(p.value) && p.value != PIECE_EMPTY
  {
    match c
    case 'r' => Some(R_BLACK)
    case 'n' => Some(N_BLACK)
    case 'b' => Some(B_BLACK)
    case 'q' => Some(Q_BLACK)
    case 'k' => Some(K_BLACK)
    case 'p' => Some(P_BLACK)
    case 'R' => Some(R_WHITE)
    case 'N' => Some(N_WHITE)
    case 'B' => Some(B_WHITE)
    case 'Q' => Some(Q_WHITE)
    case 'K' => Some(K_WHITE)
    case 'P' => Some(P_WHITE)
    case _ => None
  }

  /** The castling bit a letter sets; the letters are mapped with the colours inverted. */
  function CastlingBit(c: char): bv8 {
    if c == 'K' then CASTLING_BLACK_KINGSIDE
    else if c == 'Q' then CASTLING_BLACK_QUEENSIDE
    else if c == 'k' then CASTLING_WHITE_KINGSIDE
    else if c == 'q' then CASTLING_WHITE_QUEENSIDE
    else 0
  }

  /** A value stored into a C `short`: reduced into -32768 .. 32767. */
  function Short(x: int): (s: int)
    ensures -0x8000 <= s < 0x8000
    ensures (s - x) % 0x1_0000 == 0
  {
    (x + 0x8000) % 0x1_0000 - 0x8000
  }

  /** `x *= 10; x += c - '0';` on a `short` counter. */
  function AddDigit(x: int, c: char): int {
    Short(Short(x * 10) + (c as int - 48))
  }

  /** `set_piece_at_sq` followed by `sq.f += 1`; undefined off the board. */
  function Put(st: FenState, piece: Piece): Option<FenState> {
    if OnBoard(Sq(st.f, st.r)) then Some(st.(written := st.written[st.f * 8 + st.r := piece], f := st.f + 1))
    else None
  }

  /** A digit's loop: `n` empty cells written one after another. */
  function Empties(st: FenState, n: nat): Option<FenState>
    decreases n
  {
    if n == 0 then Some(st)
    else
      match Put(st, PIECE_EMPTY)
      case None => None
      case Some(next) => Empties(next, n - 1)
  }

  /** The en-passant square once the buffer is read, or `None` when it reads an unwritten character. */
  function ReadEnPassant(st: FenState): Option<Sq> {
    if |st.epText| == 0 then None
    else if st.epText[0] == '-' then Some(st.enPassant)
    else if |st.epText| < 2 then None
    else Some(Sq(AlgfToF(st.epText[0]), AlgrToR(st.epText[1])))
  }

  /** One pass of the character loop. */
  function FenStep(st: FenState, c: char): Option<FenState> {
    if c == ' ' then Some(st.(field := st.field + 1))
    else if st.field == 0 then
      if PieceOfLetter(c).Some? then Put(st, PieceOfLetter(c).value)
      else if '1' <= c <= '8' then Empties(st, c as int - 48)
      else if c == '/' then Some(st.(f := 0, r := st.r - 1))
      else Some(st)
    else if st.field == 1 then
      if c == 'w' then Some(st.(active := Some(COLOR_WHITE)))
      else if c == 'b' then Some(st.(active := Some(COLOR_BLACK)))
      else Some(st)
    else if st.field == 2 then Some(st.(castling := st.castling | CastlingBit(c)))
    else if st.field == 3 then
      if |st.epText| < 2 then Some(st.(epText := st.epText + [c])) else None
    else if st.field == 4 then
      match ReadEnPassant(st)
      case None => None
      case Some(ep) => Some(st.(enPassant := ep, halfmoves := AddDigit(st.halfmoves, c)))
    else if st.field == 5 then Some(st.(fullmoves := AddDigit(st.fullmoves, c)))
    else Some(st)
  }

  /** The machine run over a whole string, first character first. */
  function FenRun(st: FenState, s: string): Option<FenState>
    decreases |s|
  {
    if s == [] then Some(st)
    else
      match FenStep(st, s[0])
      case None => None
      case Some(next) => FenRun(next, s[1..])
  }

  /** What `decode_fen` makes of a string. */
  function FenDecode(fen: string): Option<FenState> {
    FenRun(Start(), fen)
  }

  /** The record holds what the decoder knows; cells not written and an unset side to move are whatever the fresh record held. */
  predicate Agrees(p: Pos, st: FenState)
    reads p, p.placement
  {
    && p.placement.Length == 64
    && (forall k :: k in st.written ==> 0 <= k < 64 && p.placement[k] == st.written[k])
    && (st.active.Some? ==> p.activeColor == st.active.value)
    && p.castling == st.castling
    && p.enPassant == st.enPassant
    && p.halfmoves == st.halfmoves
    && p.fullmoves == st.fullmoves
  }

  /** The local variables of `decode_fen` hold the rest of the state. */
  predicate Locals(st: FenState, field: nat, f: int, r: int, epBuf: array<char>, epLen: nat)
    reads epBuf
  {
    && st.field == field && st.f == f && st.r == r
    && epBuf.Length == 2 && epLen <= 2 && epLen == |st.epText| && epBuf[..epLen] == st.epText
  }

  /** `set_piece_at_sq` and the file advance, for a square on the board. */
  method PutPiece(p: Pos, piece: Piece, f: int, r: int, ghost st: FenState) returns (defined: bool, f': int, ghost st': FenState)
    requires Agrees(p, st) && st.f == f && st.r == r
    modifies p.placement
    ensures defined <==> Put(st, piece).Some?
    ensures defined ==> st' == Put(st, piece).value && Agrees(p, st') && f' == st'.f && st'.r == r
    ensures defined ==> st'.field == st.field && st'.epText == st.epText
  {
    if !(0 <= f < 8 && 0 <= r < 8) {
      return false, f, st;
    }
    p.placement[f * 8 + r] := piece;
    st' := st.(written := st.written[f * 8 + r := piece], f := f + 1);
    f' := f + 1;
    defined := true;
  }

  /** The `for (j = 0; j < n; j++)` loop of a digit. */
  method PutEmpties(p: Pos, n: nat, f: int, r: int, ghost st: FenState) returns (defined: bool, f': int, ghost st': FenState)
    requires Agrees(p, st) && st.f == f && st.r == r
    modifies p.placement
    ensures defined <==> Empties(st, n).Some?
    ensures defined ==> st' == Empties(st, n).value && Agrees(p, st') && f' == st'.f && st'.r == r
    ensures defined ==> st'.field == st.field && st'.epText == st.epText
  {
    var j := 0;
    f', st' := f, st;
    while j < n
      invariant 0 <= j <= n
      invariant Agrees(p, st') && st'.f == f' && st'.r == r
      invariant st'.field == st.field && st'.epText == st.epText
      invariant Empties(st, n) == Empties(st', n - j)
    {
      var ok;
      ok, f', st' := PutPiece(p, PIECE_EMPTY, f', r, st');
      if !ok {
        return false, f', st';
      }
      j := j + 1;
    }
    defined := true;
  }

  /** The placement branch of the loop body: a piece letter, a digit, a slash or anything else. */
  method PlacementChar(p: Pos, c: char, f: int, r: int, ghost st: FenState) returns (defined: bool, f': int, r': int, ghost st': FenState)
    requires Agrees(p, st) && st.f == f && st.r == r && st.field == 0 && c != ' '
    modifies p.placement
    ensures defined <==> FenStep(st, c).Some?
    ensures defined ==> st' == FenStep(st, c).value && Agrees(p, st') && f' == st'.f && r' == st'.r
    ensures defined ==> st'.field == 0 && st'.epText == st.epText
  {
    r' := r;
    var piece := PieceOfLetter(c);
    if piece.Some? {
      defined, f', st' := PutPiece(p, piece.value, f, r, st);
    } else if '1' <= c <= '8' {
      defined, f', st' := PutEmpties(p, c as int - 48, f, r, st);
    } else if c == '/' {
      defined, f', r', st' := true, 0, r - 1, st.(f := 0, r := r - 1);
    } else {
      defined, f', st' := true, f, st;
    }
  }

  /** The counter fields: the en-passant buffer is read on every half-move character. */
  method CounterChar(p: Pos, c: char, field: nat, epBuf: array<char>, epLen: nat, ghost st: FenState) returns (defined: bool, ghost st': FenState)
    requires Agrees(p, st) && st.field == field && 4 <= field && c != ' '
    requires epBuf.Length == 2 && epLen <= 2 && epLen == |st.epText| && epBuf[..epLen] == st.epText
    modifies p`enPassant, p`halfmoves, p`fullmoves
    ensures defined <==> FenStep(st, c).Some?
    ensures defined ==> st' == FenStep(st, c).value && Agrees(p, st')
    ensures defined ==> st'.field == st.field && st'.f == st.f && st'.r == st.r && st'.epText == st.epText
  {
    st' := st;
    if field == 4 {
      if epLen == 0 || (epBuf[0] != '-' && epLen < 2) {
        return false, st;
      }
      if epBuf[0] != '-' {
        p.enPassant := Sq(AlgfToF(epBuf[0]), AlgrToR(epBuf[1]));
      }
      p.halfmoves := AddDigit(p.halfmoves, c);
      st' := st.(enPassant := p.enPassant, halfmoves := p.halfmoves);
    } else if field == 5 {
      p.fullmoves := AddDigit(p.fullmoves, c);
      st' := st.(fullmoves := p.fullmoves);
    }
    defined := true;
  }

  /** `en_passant_str[en_passant_idx++] = c`, undefined once both buffer characters are written. */
  method EnPassantChar(p: Pos, c: char, epBuf: array<char>, epLen: nat, ghost st: FenState)
    returns (defined: bool, epLen': nat, ghost st': FenState)
    requires Agrees(p, st) && Locals(st, 3, st.f, st.r, epBuf, epLen) && c != ' '
    modifies epBuf
    ensures defined <==> FenStep(st, c).Some?
    ensures defined ==> st' == FenStep(st, c).value && Agrees(p, st') && Locals(st', 3, st.f, st.r, epBuf, epLen')
  {
    if epLen == 2 {
      return false, epLen, st;
    }
    ghost var board := p.placement[..];
    epBuf[epLen] := c;
    assert p.placement[..] == board;
    epLen' := epLen + 1;
    st' := st.(epText := st.epText + [c]);
    assert epBuf[..epLen'] == epBuf[..epLen] + [c];
    defined := true;
  }

  /** The header fields: side to move, castling letters, and the en-passant buffer. */
  method HeaderChar(p: Pos, c: char, field: nat, epBuf: array<char>, epLen: nat, ghost st: FenState)
    returns (defined: bool, epLen': nat, ghost st': FenState)
    requires Agrees(p, st) && Locals(st, field, st.f, st.r, epBuf, epLen)
    requires 1 <= field <= 3 && c != ' '
    modifies p`activeColor, p`castling, epBuf
    ensures defined <==> FenStep(st, c).Some?
    ensures defined ==> st' == FenStep(st, c).value && Agrees(p, st') && Locals(st', field, st.f, st.r, epBuf, epLen')
  {
    epLen', st' := epLen, st;
    if field == 1 {
      if c == 'w' {
        p.activeColor := COLOR_WHITE;
        st' := st.(active := Some(COLOR_WHITE));
      } else if c == 'b' {
        p.activeColor := COLOR_BLACK;
        st' := st.(active := Some(COLOR_BLACK));
      }
    } else if field == 2 {
      p.castling := p.castling | CastlingBit(c);
      st' := st.(castling := p.castling);
    } else {
      defined, epLen', st' := EnPassantChar(p, c, epBuf, epLen, st);
      return;
    }
    defined := true;
  }

  /** One pass of the loop body of `decode_fen`. */
  method DecodeChar(p: Pos, c: char, field: nat, f: int, r: int, epBuf: array<char>, epLen: nat, ghost st: FenState)
    returns (defined: bool, field': nat, f': int, r': int, epLen': nat, ghost st': FenState)
    requires Agrees(p, st) && Locals(st, field, f, r, epBuf, epLen)
    modifies p.placement, p`activeColor, p`castling, p`enPassant, p`halfmoves, p`fullmoves, epBuf
    ensures defined <==> FenStep(st, c).Some?
    ensures defined ==> st' == FenStep(st, c).value && Agrees(p, st') && Locals(st', field', f', r', epBuf, epLen')
  {
    field', f', r', epLen', st' := field, f, r, epLen, st;
    if c == ' ' {
      field' := field + 1;
      st' := st.(field := field + 1);
      defined := true;
    } else if field == 0 {
      defined, f', r', st' := PlacementChar(p, c, f, r, st);
    } else if field <= 3 {
      defined, epLen', st' := HeaderChar(p, c, field, epBuf, epLen, st);
    } else {
      defined, st' := CounterChar(p, c, field, epBuf, epLen, st);
    }
  }

  /**
   * `decode_fen`: a fresh position from the pool, filled character by
   * character. `defined` is false when the string drives the C code into
   * undefined behaviour; the record is then left part-filled.
   */
  method DecodeFen(fen: string, posPool: PosPool) returns (ok: bool, defined: bool, p: Pos?)
    requires posPool.Valid()
    requires forall i :: 0 <= i < |fen| ==> fen[i] != '\0'
    modifies posPool
    ensures posPool.Valid()
    ensures ok <==> old(posPool.offset) + POS_SIZE <= posPool.currentSize
    ensures ok ==> p != null && fresh(p) && fresh(p.placement) && Unexplored(p)
    ensures ok ==> (defined <==> FenDecode(fen).Some?)
    ensures ok && defined ==> Agrees(p, FenDecode(fen).value)
  {
    defined := false;
    ok, p := MakePosition(posPool);
    if !ok {
      return;
    }
    var field: nat := 0;
    var f, r := 0, 7;
    var epBuf := new char[2];
    var epLen: nat := 0;
    ghost var st := Start();
    ghost var offset, size := posPool.offset, posPool.currentSize;
    assert epBuf[..0] == [];
    var i := 0;
    while i < |fen|
      invariant 0 <= i <= |fen|
      invariant Agrees(p, st) && Locals(st, field, f, r, epBuf, epLen)
      invariant Unexplored(p)
      invariant posPool.Valid() && posPool.offset == offset && posPool.currentSize == size
      invariant FenDecode(fen) == FenRun(st, fen[i..])
    {
      var c := fen[i];
      assert fen[i..] == [c] + fen[i + 1..];
      var ok';
      ok', field, f, r, epLen, st := DecodeChar(p, c, field, f, r, epBuf, epLen, st);
      if !ok' {
        return;
      }
      i := i + 1;
    }
    assert fen[i..] == [];
    defined := true;
  }
}
