/**
 * The engine's mutable state: the two bump-allocated memory pools, the
 * position record and the move list that lives inside the move pool.
 *
 * The position pool is modelled by its byte accounting only; what the
 * source places in it (position records and evaluation-result arrays) are
 * Dafny objects. The move pool is modelled by its byte accounting too; the
 * slots it hands out to one position's move list are that position's
 * `moves` sequence, and `movesData` is the byte offset of the first of
 * them. An `abort()` on exhaustion is an `ok == false` result that every
 * caller passes on at once.
 */
module Positions {
  import opened Pieces
  import opened Geometry
  import opened Boards

  /** `MEM_ALLOC_SIZE`, the size `make_mem_pool` gives each pool. */
  const MEM_ALLOC_SIZE: nat := 1024 * 1024 * 1024

  /** `sizeof(Pos)`, `sizeof(Move)` and `sizeof(EvalResult)` on an LP64 target. */
  const POS_SIZE: nat := 96
  const MOVE_SIZE: nat := 16
  const EVAL_RESULT_SIZE: nat := 16

  /** The position pool: `offset` is the byte distance of the bump pointer from the pool's start. */
  class PosPool {
    const currentSize: nat
    var offset: nat

    predicate Valid()
      reads this
    {
      offset <= currentSize
    }

    /** `make_mem_pool`: an empty pool of `size` bytes. */
    constructor (size: nat)
      ensures Valid() && currentSize == size && offset == 0
    {
      currentSize := size;
      offset := 0;
    }

    /**
     * `cwig_malloc`. Whatever pool the caller names, the source always
     * draws from the position pool, so this is a method of that pool. The
     * block starts at the old offset; exceeding the pool aborts instead.
     */
    method CwigMalloc(size: nat) returns (ok: bool, result: nat)
      requires Valid()
      modifies this
      ensures Valid()
      ensures ok <==> old(offset) + size <= currentSize
      ensures ok ==> result == old(offset) && offset == old(offset) + size
      ensures !ok ==> offset == old(offset)
    {
      if offset + size > currentSize {
        return false, 0;
      }
      result := offset;
      offset := offset + size;
      ok := true;
    }

    /** `cwig_calloc`: a block of `nmemb * size` bytes; like the source, it does not clear the block. */
    method CwigCalloc(nmemb: nat, size: nat) returns (ok: bool, result: nat)
      requires Valid()
      modifies this
      ensures Valid()
      ensures ok <==> old(offset) + nmemb * size <= currentSize
      ensures ok ==> result == old(offset) && offset == old(offset) + nmemb * size
      ensures !ok ==> offset == old(offset)
    {
      ok, result := CwigMalloc(nmemb * size);
    }
  }

  /** One entry of a move list; `leadsTo` is the position the move produces. */
  datatype Move = Move(from: Sq, to: Sq, leadsTo: Pos?)

  /** The move pool: `offset` is the byte distance of its bump pointer from the pool's start. */
  class MovePool {
    const currentSize: nat
    var offset: nat

    predicate Valid()
      reads this
    {
      offset <= currentSize
    }

    /** `make_mem_pool`: an empty pool of `size` bytes. */
    constructor (size: nat)
      ensures Valid() && currentSize == size && offset == 0
    {
      currentSize := size;
      offset := 0;
    }
  }

  /**
   * `struct Pos`. `placement` holds `placement[f][r]` at cell `f * 8 + r`;
   * `moves` is the move list (`moves.len` is its length) and `movesData`
   * the pool offset of its first slot. The three verdict fields hold -2 until the position is
   * explored.
   */
  class Pos {
    var isExplored: bool
    const placement: array<Piece>
    var activeColor: Color
    var castling: bv8
    var enPassant: Sq
    var halfmoves: int
    var fullmoves: int
    var isKingInCheck: int
    var isKingInCheckmate: int
    var isKingInStalemate: int
    var movesData: nat
    var moves: seq<Move>

    /** Fresh storage for one record; the source leaves it uninitialised, here it is zero. */
    constructor ()
      ensures fresh(placement) && placement.Length == 64
    {
      placement := new Piece[64];
    }
  }

  /** The placement as a board value. */
  function BoardOf(p: Pos): Board
    reads p.placement
    requires p.placement.Length == 64
  {
    p.placement[..]
  }

  /** A position whose placement is 64 valid cells and whose side to move is white or black. */
  predicate ValidPos(p: Pos)
    reads p, p.placement
  {
    p.placement.Length == 64 && ValidBoard(p.placement[..]) && IsColor(p.activeColor)
  }

  /** The state `make_position` leaves the record in, as far as exploration is concerned. */
  predicate Unexplored(p: Pos)
    reads p
  {
    !p.isExplored && p.isKingInCheck == -2 && p.isKingInCheckmate == -2 && p.isKingInStalemate == -2 && p.moves == []
  }

  /** The move list ends at the move pool's bump pointer, so the next appended slot extends it. */
  predicate AtPoolEnd(p: Pos, mp: MovePool)
    reads p, mp
  {
    p.moves == [] || p.movesData + |p.moves| * MOVE_SIZE == mp.offset
  }

  /**
   * One of the pools lacks room for a block move generation asks for: a
   * position record in the position pool, or a slot in the move pool.
   * Move generation stops (the source aborts) only in such a state.
   */
  predicate OutOfRoom(posPool: PosPool, mp: MovePool)
    reads posPool, mp
  {
    posPool.offset + POS_SIZE > posPool.currentSize || mp.offset + MOVE_SIZE > mp.currentSize
  }

  /** The (from, to) pairs of a move list. */
  function Pairs(ms: seq<Move>): (ps: seq<(Sq, Sq)>)
    ensures |ps| == |ms|
  {
    seq(|ms|, i requires 0 <= i < |ms| => (ms[i].from, ms[i].to))
  }

  /** The objects a child reference stands for: the record and its placement. */
  function ChildFrame(p: Pos?): set<object> {
    if p == null then {} else {p, p.placement}
  }

  /**
   * The move `m`, made on board `b` with `c` to move, leads to an
   * unexplored position holding the board after the move, the other
   * side to move.
   */
  predicate ChildOk(b: Board, c: Color, m: Move)
    reads ChildFrame(m.leadsTo)
  {
    && m.leadsTo != null
    && OnBoard(m.from) && OnBoard(m.to) && IsColor(c)
    && m.leadsTo.placement.Length == 64
    && m.leadsTo.placement[..] == ApplyMove(b, m.from, m.to)
    && m.leadsTo.activeColor == ToggledColor(c)
    && Unexplored(m.leadsTo)
  }

  /** Every move of `ms` leads to its own fresh child of board `b`, none of them `p`. */
  predicate ChildrenOk(p: Pos, b: Board, c: Color, ms: seq<Move>)
    reads set i, o | 0 <= i < |ms| && o in ChildFrame(ms[i].leadsTo) :: o
  {
    && (forall i :: 0 <= i < |ms| ==> ChildOk(b, c, ms[i]) && ms[i].leadsTo != p)
    && (forall i, j :: 0 <= i < j < |ms| ==> ms[i].leadsTo != ms[j].leadsTo)
  }

  /** The records the moves `ms` lead to. */
  function Kids(ms: seq<Move>): set<Pos> {
    set i | 0 <= i < |ms| && ms[i].leadsTo != null :: ms[i].leadsTo
  }

  /**
   * `make_position`: a record drawn from the position pool, unexplored,
   * with no castling rights, en-passant square a1, zero move counters and
   * an empty move list. Placement and side to move are not initialised.
   */
  method MakePosition(posPool: PosPool) returns (ok: bool, p: Pos?)
    requires posPool.Valid()
    modifies posPool
    ensures posPool.Valid()
    ensures ok <==> old(posPool.offset) + POS_SIZE <= posPool.currentSize
    ensures posPool.offset == if ok then old(posPool.offset) + POS_SIZE else old(posPool.offset)
    ensures ok ==> p != null && fresh(p) && fresh(p.placement) && p.placement.Length == 64
    ensures ok ==> Unexplored(p) && p.castling == 0 && p.enPassant == Sq(0, 0) && p.halfmoves == 0 && p.fullmoves == 0
  {
    var start;
    ok, start := posPool.CwigMalloc(POS_SIZE);
    if !ok {
      return false, null;
    }
    p := new Pos();
    p.isExplored := false;
    p.enPassant := Sq(0, 0);
    p.castling := 0;
    p.halfmoves := 0;
    p.fullmoves := 0;
    p.isKingInCheck := -2;
    p.isKingInCheckmate := -2;
    p.isKingInStalemate := -2;
    p.moves := [];
  }

  /**
   * `move_appended_to_move_list`: hands out the next slot of the move pool
   * as a new, not yet filled, last entry of `p`'s list. An empty list first
   * moves its start to the bump pointer, so a list built without
   * interruption stays a contiguous run of slots.
   */
  method MoveAppendedToMoveList(p: Pos, mp: MovePool) returns (ok: bool)
    requires mp.Valid()
    modifies p`movesData, p`moves, mp`offset
    ensures mp.Valid()
    ensures old(p.moves) == [] ==> p.movesData == old(mp.offset)
    ensures old(p.moves) != [] ==> p.movesData == old(p.movesData)
    ensures ok <==> old(mp.offset) + MOVE_SIZE <= mp.currentSize
    ensures ok ==> |p.moves| == |old(p.moves)| + 1 && p.moves[..|old(p.moves)|] == old(p.moves)
    ensures ok ==> mp.offset == old(mp.offset) + MOVE_SIZE
    ensures !ok ==> p.moves == old(p.moves) && mp.offset == old(mp.offset)
  {
    if p.moves == [] {
      p.movesData := mp.offset;
    }
    if mp.offset + MOVE_SIZE > mp.currentSize {
      return false;
    }
    p.moves := p.moves + [Move(Sq(0, 0), Sq(0, 0), null)];
    mp.offset := mp.offset + MOVE_SIZE;
    ok := true;
  }

  /**
   * `position_after_move`: a new record whose placement is a copy of the
   * old one with the piece on `from` moved to `to`, the other side to
   * move, and the defaults of `make_position` for everything else.
   */
  method PositionAfterMove(pos: Pos, move: Move, posPool: PosPool) returns (ok: bool, newPos: Pos?)
    requires pos.placement.Length == 64 && IsColor(pos.activeColor)
    requires OnBoard(move.from) && OnBoard(move.to)
    requires posPool.Valid()
    modifies posPool
    ensures posPool.Valid()
    ensures ok <==> old(posPool.offset) + POS_SIZE <= posPool.currentSize
    ensures posPool.offset == if ok then old(posPool.offset) + POS_SIZE else old(posPool.offset)
    ensures ok ==> newPos != null && fresh(newPos) && fresh(newPos.placement)
    ensures ok ==> newPos.placement.Length == 64 && newPos.placement[..] == ApplyMove(pos.placement[..], move.from, move.to)
    ensures ok ==> newPos.activeColor == ToggledColor(pos.activeColor) && Unexplored(newPos)
    ensures ok ==> newPos.castling == 0 && newPos.enPassant == Sq(0, 0) && newPos.halfmoves == 0 && newPos.fullmoves == 0
  {
    ok, newPos := MakePosition(posPool);
    if !ok {
      return;
    }
    var f := 0;
    while f < 8
      invariant 0 <= f <= 8
      invariant forall i :: 0 <= i < f * 8 ==> newPos.placement[i] == pos.placement[i]
      modifies newPos.placement
    {
      var r := 0;
      while r < 8
        invariant 0 <= r <= 8
        invariant forall i :: 0 <= i < f * 8 + r ==> newPos.placement[i] == pos.placement[i]
        modifies newPos.placement
      {
        newPos.placement[f * 8 + r] := pos.placement[f * 8 + r];
        r := r + 1;
      }
      f := f + 1;
    }
    assert newPos.placement[..] == pos.placement[..];
    newPos.placement[Idx(move.to)] := pos.placement[Idx(move.from)];
    newPos.placement[Idx(move.from)] := PIECE_EMPTY;
    newPos.activeColor := ToggledColor(pos.activeColor);
  }
}
