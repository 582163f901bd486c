/**
 * Exploration, static evaluation and the fixed-depth search over position
 * records: `explore_position`, `position_static_val` and
 * `position_val_at_ply`, proved against `StaticValue` and `Value`.
 */
module Search {
  import opened Pieces
  import opened Geometry
  import opened Boards
  import opened Attacks
  import opened MoveRules
  import opened MoveRulesFacts
  import opened Positions
  import opened CheckDetect
  import opened MoveGen
  import opened Evaluation

  /**
   * The memo an explored record holds: the check status of the side to
   * move, the legal-move list, and the checkmate and stalemate flags that
   * `set_is_king_in_checkmate` and `set_is_king_in_stalemate` derive from
   * the first two.
   */
  predicate Explored(p: Pos)
    reads p, p.placement
  {
    && ValidPos(p)
    && p.isExplored
    && p.isKingInCheck == CheckStatus(BoardOf(p), p.activeColor)
    && Pairs(p.moves) == LegalMoves(BoardOf(p), p.activeColor)
    && p.isKingInCheckmate == (if p.isKingInCheck == 1 && |p.moves| == 0 then 1 else 0)
    && p.isKingInStalemate == (if p.isKingInCheck == 0 && |p.moves| == 0 then 1 else 0)
  }

  /**
   * On an explored record, the checkmate flag is set exactly when the side
   * to move is in check and has no legal move, the stalemate flag exactly
   * when it is not in check and has none; without a king of the side to
   * move, neither is set.
   */
  lemma ExploredVerdicts(p: Pos)
    requires Explored(p)
    ensures p.isKingInCheckmate == 1 <==> Checkmated(BoardOf(p), p.activeColor)
    ensures p.isKingInStalemate == 1 <==> Stalemated(BoardOf(p), p.activeColor)
    ensures p.isKingInCheckmate == 1 <==> p.isKingInCheck == 1 && |LegalMoves(BoardOf(p), p.activeColor)| == 0
    ensures p.isKingInStalemate == 1 <==> p.isKingInCheck == 0 && |LegalMoves(BoardOf(p), p.activeColor)| == 0
    ensures MakePiece(p.activeColor, UNCOLORED_KING) !in BoardOf(p) ==> p.isKingInCheckmate == 0 && p.isKingInStalemate == 0
  {
    CheckStatusNoKing(BoardOf(p), p.activeColor);
  }

  /**
   * The verdicts `set_is_king_in_checkmate` and `set_is_king_in_stalemate`
   * derive from the check status and the move list, then the explored mark.
   */
  method SetVerdicts(pos: Pos, ghost b: Board, ghost c: Color)
    requires ValidPos(pos) && BoardOf(pos) == b && pos.activeColor == c
    requires pos.isKingInCheck == CheckStatus(b, c) && Pairs(pos.moves) == LegalMoves(b, c)
    requires ChildrenOk(pos, b, c, pos.moves)
    modifies pos`isKingInCheckmate, pos`isKingInStalemate, pos`isExplored
    ensures Explored(pos) && ChildrenOk(pos, b, c, pos.moves)
  {
    pos.isKingInCheckmate := if pos.isKingInCheck == 1 && |pos.moves| == 0 then 1 else 0;
    pos.isKingInStalemate := if pos.isKingInCheck == 0 && |pos.moves| == 0 then 1 else 0;
    pos.isExplored := true;
    assert BoardOf(pos) == b;
  }

  /**
   * The rest of `explore_position` once the check status is stored: list
   * the legal moves, then derive the verdicts and set the explored mark.
   */
  method ListAndJudge(pos: Pos, posPool: PosPool, mp: MovePool, ghost b: Board) returns (ok: bool)
    requires ValidPos(pos) && BoardOf(pos) == b && pos.isKingInCheck == CheckStatus(b, pos.activeColor)
    requires !pos.isExplored && pos.moves == []
    requires posPool.Valid() && mp.Valid()
    modifies pos`movesData, pos`moves
    modifies pos`isKingInCheckmate, pos`isKingInStalemate, pos`isExplored
    modifies posPool, mp
    ensures posPool.Valid() && mp.Valid()
    ensures old(posPool.offset) <= posPool.offset && old(mp.offset) <= mp.offset
    ensures !ok ==> OutOfRoom(posPool, mp)
    ensures ok ==> Explored(pos)
    ensures ok ==> ChildrenOk(pos, b, pos.activeColor, pos.moves) && fresh(Kids(pos.moves))
  {
    ghost var added, born;
    ok, added, born := SetLegalMovesForPosition(pos, posPool, mp, b);
    if !ok {
      return;
    }
    assert pos.moves == added;
    SetVerdicts(pos, b, pos.activeColor);
  }

  /** The body of `explore_position` on an unexplored record. */
  method ExploreUnexplored(pos: Pos, posPool: PosPool, mp: MovePool) returns (ok: bool)
    requires ValidPos(pos) && Unexplored(pos)
    requires posPool.Valid() && mp.Valid()
    modifies pos`isKingInCheck, pos`movesData, pos`moves
    modifies pos`isKingInCheckmate, pos`isKingInStalemate, pos`isExplored
    modifies posPool, mp
    ensures posPool.Valid() && mp.Valid() && pos.activeColor == old(pos.activeColor)
    ensures old(posPool.offset) <= posPool.offset && old(mp.offset) <= mp.offset
    ensures !ok ==> OutOfRoom(posPool, mp)
    ensures ok ==> Explored(pos)
    ensures ok ==> ChildrenOk(pos, BoardOf(pos), pos.activeColor, pos.moves) && fresh(Kids(pos.moves))
  {
    ghost var b := BoardOf(pos);
    var check := IsKingInCheck(pos);
    pos.isKingInCheck := check;
    ok := ListAndJudge(pos, posPool, mp, b);
  }

  /**
   * `explore_position`: on an unexplored record, compute the check status,
   * the legal moves (each with a fresh child) and the two verdicts, then
   * mark the record explored. On an explored record it does nothing.
   */
  method ExplorePosition(pos: Pos, posPool: PosPool, mp: MovePool) returns (ok: bool)
    requires ValidPos(pos) && (Unexplored(pos) || Explored(pos))
    requires posPool.Valid() && mp.Valid()
    modifies pos`isKingInCheck, pos`movesData, pos`moves
    modifies pos`isKingInCheckmate, pos`isKingInStalemate, pos`isExplored
    modifies posPool, mp
    ensures posPool.Valid() && mp.Valid() && pos.activeColor == old(pos.activeColor)
    ensures old(posPool.offset) <= posPool.offset && old(mp.offset) <= mp.offset
    ensures !ok ==> OutOfRoom(posPool, mp)
    ensures old(pos.isExplored) ==> ok && unchanged(pos, posPool, mp)
    ensures ok ==> Explored(pos)
    ensures ok && !old(pos.isExplored) ==> ChildrenOk(pos, BoardOf(pos), pos.activeColor, pos.moves) && fresh(Kids(pos.moves))
  {
    ok := true;
    if !pos.isExplored {
      ok := ExploreUnexplored(pos, posPool, mp);
    }
  }

  /**
   * The scan of `position_static_val` that adds `piece_val` of every
   * occupied square, file by file and rank by rank, to the value 0.
   */
  method MaterialSum(pos: Pos) returns (val: int)
    requires pos.placement.Length == 64 && ValidBoard(pos.placement[..])
    ensures val == Material(pos.placement[..])
  {
    ghost var b: Board := pos.placement[..];
    val := 0;
    for f := 0 to 8
      invariant val == MaterialUpTo(b, f * 8)
    {
      for r := 0 to 8
        invariant val == MaterialUpTo(b, f * 8 + r)
      {
        var found := pos.placement[Idx(Sq(f, r))];
        if found != PIECE_EMPTY {
          val := val + PieceVal(found);
        }
      }
    }
  }

  /** `position_static_val`: explore the record, then score it as `StaticValue` says. */
  method PositionStaticVal(pos: Pos, posPool: PosPool, mp: MovePool) returns (ok: bool, out: EvalResult)
    requires ValidPos(pos) && (Unexplored(pos) || Explored(pos))
    requires posPool.Valid() && mp.Valid()
    modifies pos`isKingInCheck, pos`movesData, pos`moves
    modifies pos`isKingInCheckmate, pos`isKingInStalemate, pos`isExplored
    modifies posPool, mp
    ensures posPool.Valid() && mp.Valid() && pos.activeColor == old(pos.activeColor)
    ensures old(posPool.offset) <= posPool.offset && old(mp.offset) <= mp.offset
    ensures !ok ==> OutOfRoom(posPool, mp)
    ensures old(pos.isExplored) ==> ok && unchanged(pos, posPool, mp)
    ensures ok ==> Explored(pos) && out == StaticValue(BoardOf(pos), pos.activeColor)
    ensures ok && !old(pos.isExplored) ==> ChildrenOk(pos, BoardOf(pos), pos.activeColor, pos.moves) && fresh(Kids(pos.moves))
  {
    out := EvalResult(0, WinnerUndecided, false);
    ok := ExplorePosition(pos, posPool, mp);
    if !ok {
      return;
    }
    ExploredVerdicts(pos);
    if pos.isKingInCheckmate == 1 {
      if pos.activeColor == COLOR_WHITE {
        out := out.(winner := WinnerBlack);
      } else if pos.activeColor == COLOR_BLACK {
        out := out.(winner := WinnerWhite);
      }
    } else if pos.isKingInStalemate == 1 {
      out := out.(isDraw := true, val := 0);
    } else {
      out := out.(winner := WinnerUndecided);
      var sum := MaterialSum(pos);
      out := out.(val := sum);
    }
  }

  /**
   * The pick after `qsort`: the first result for White, the last for
   * Black. Among results the comparator ranks equal, the earliest in
   * move order is the one picked.
   */
  method PickResult(c: Color, evalResults: array<EvalResult>) returns (result: EvalResult)
    requires evalResults.Length > 0
    ensures result == Pick(c, evalResults[..])
  {
    result := evalResults[0];
    assert evalResults[..1] == [evalResults[0]];
    for i := 1 to evalResults.Length
      invariant result == Pick(c, evalResults[..i])
    {
      assert evalResults[..i + 1][..i] == evalResults[..i];
      if c == COLOR_WHITE {
        if CmpEvalResults(evalResults[i], result) < 0 {
          result := evalResults[i];
        }
      } else {
        if CmpEvalResults(result, evalResults[i]) < 0 {
          result := evalResults[i];
        }
      }
    }
    assert evalResults[..evalResults.Length] == evalResults[..];
  }

  /**
   * Why a valuation of the tree of `b` to depth `ply` stops (the source
   * aborts): a position record or a move slot did not fit, or the results
   * array drawn for a node of the tree with `need` legal moves did not.
   */
  ghost predicate Starved(posPool: PosPool, mp: MovePool, b: Board, c: Color, ply: nat, need: nat)
    requires ValidBoard(b) && IsColor(c)
    reads posPool, mp
  {
    || OutOfRoom(posPool, mp)
    || (BranchingIn(b, c, ply, need) && posPool.offset + need * EVAL_RESULT_SIZE > posPool.currentSize)
  }

  /** The `i`-th child of a record listing the legal moves of `b` holds the `i`-th child board, the other side to move. */
  lemma ChildMatches(pos: Pos, i: nat, b: Board, c: Color)
    requires ValidBoard(b) && IsColor(c) && Pairs(pos.moves) == LegalMoves(b, c)
    requires i < |pos.moves| && ChildOk(b, c, pos.moves[i])
    ensures i < |LegalMoves(b, c)|
    ensures var child := pos.moves[i].leadsTo;
      && child != null
      && child.placement.Length == 64
      && child.placement[..] == ChildBoard(b, c, i)
      && child.activeColor == ToggledColor(c)
      && Unexplored(child)
  {
    assert Pairs(pos.moves)[i] == (pos.moves[i].from, pos.moves[i].to);
  }

  /** One turn of the loop of `position_val_at_ply`: the value of the `i`-th child, one ply shallower. */
  method ValueChild(pos: Pos, i: nat, ply: nat, posPool: PosPool, mp: MovePool, ghost b: Board, ghost c: Color)
    returns (ok: bool, r: EvalResult, ghost need: nat)
    requires ValidBoard(b) && IsColor(c) && Pairs(pos.moves) == LegalMoves(b, c)
    requires i < |pos.moves| && ChildOk(b, c, pos.moves[i])
    requires !Terminal(b, c, ply) && WellDefined(b, c, ply)
    requires posPool.Valid() && mp.Valid()
    modifies pos.moves[i].leadsTo`isKingInCheck, pos.moves[i].leadsTo`movesData, pos.moves[i].leadsTo`moves
    modifies pos.moves[i].leadsTo`isKingInCheckmate, pos.moves[i].leadsTo`isKingInStalemate, pos.moves[i].leadsTo`isExplored
    modifies posPool, mp
    ensures posPool.Valid() && mp.Valid()
    ensures old(posPool.offset) <= posPool.offset && old(mp.offset) <= mp.offset
    ensures !ok ==> Starved(posPool, mp, b, c, ply, need)
    ensures ok ==> i < |ChildValues(b, c, ply)| && r == ChildValues(b, c, ply)[i]
    decreases ply, 0
  {
    ChildMatches(pos, i, b, c);
    var child := pos.moves[i].leadsTo;
    ok, r, need := PositionValAtPly(child, ply - 1, posPool, mp);
    if !ok && !OutOfRoom(posPool, mp) {
      assert BranchingIn(ChildBoard(b, c, i), ToggledColor(c), ply - 1, need);
    }
  }

  /**
   * The body of `position_val_at_ply` below an explored, non-terminal
   * record: draw a results array from the position pool and value each
   * child one ply shallower into it, in move order.
   */
  method ValueChildren(pos: Pos, ply: nat, posPool: PosPool, mp: MovePool, ghost b: Board, ghost c: Color)
    returns (ok: bool, evalResults: array<EvalResult>, ghost need: nat)
    requires ValidBoard(b) && IsColor(c) && Pairs(pos.moves) == LegalMoves(b, c)
    requires ChildrenOk(pos, b, c, pos.moves)
    requires !Terminal(b, c, ply) && WellDefined(b, c, ply)
    requires posPool.Valid() && mp.Valid()
    modifies Kids(pos.moves)`isKingInCheck, Kids(pos.moves)`movesData, Kids(pos.moves)`moves
    modifies Kids(pos.moves)`isKingInCheckmate, Kids(pos.moves)`isKingInStalemate, Kids(pos.moves)`isExplored
    modifies posPool, mp
    ensures posPool.Valid() && mp.Valid() && fresh(evalResults)
    ensures old(posPool.offset) <= posPool.offset && old(mp.offset) <= mp.offset
    ensures !ok ==> Starved(posPool, mp, b, c, ply, need)
    ensures ok ==> evalResults[..] == ChildValues(b, c, ply)
    decreases ply, 1
  {
    ghost var vs := ChildValues(b, c, ply);
    var n := |pos.moves|;
    var start;
    need := n;
    ok, start := posPool.CwigCalloc(n, EVAL_RESULT_SIZE);
    evalResults := new EvalResult[n];
    if !ok {
      return;
    }
    for i := 0 to n
      invariant posPool.Valid() && mp.Valid()
      invariant old(posPool.offset) <= posPool.offset && old(mp.offset) <= mp.offset
      invariant forall j :: i <= j < n ==> ChildOk(b, c, pos.moves[j])
      invariant evalResults[..i] == vs[..i]
    {
      assert pos.moves[i].leadsTo in Kids(pos.moves);
      var childResult;
      ok, childResult, need := ValueChild(pos, i, ply, posPool, mp, b, c);
      if !ok {
        return;
      }
      evalResults[i] := childResult;
      assert evalResults[..i + 1] == evalResults[..i] + [childResult];
      assert vs[..i + 1] == vs[..i] + [vs[i]];
    }
    assert evalResults[..] == evalResults[..n];
  }

  /**
   * The non-terminal case of `position_val_at_ply`: value the children
   * and pick the best for the side to move.
   */
  method ValueBelow(pos: Pos, ply: nat, posPool: PosPool, mp: MovePool, ghost b: Board, ghost c: Color)
    returns (ok: bool, result: EvalResult, ghost need: nat)
    requires ValidBoard(b) && IsColor(c) && Pairs(pos.moves) == LegalMoves(b, c) && pos.activeColor == c
    requires ChildrenOk(pos, b, c, pos.moves)
    requires !Terminal(b, c, ply) && WellDefined(b, c, ply)
    requires posPool.Valid() && mp.Valid()
    modifies Kids(pos.moves)`isKingInCheck, Kids(pos.moves)`movesData, Kids(pos.moves)`moves
    modifies Kids(pos.moves)`isKingInCheckmate, Kids(pos.moves)`isKingInStalemate, Kids(pos.moves)`isExplored
    modifies posPool, mp
    ensures posPool.Valid() && mp.Valid()
    ensures old(posPool.offset) <= posPool.offset && old(mp.offset) <= mp.offset
    ensures !ok ==> Starved(posPool, mp, b, c, ply, need)
    ensures ok ==> result == Value(b, c, ply)
    decreases ply, 2
  {
    result := EvalResult(0, WinnerUndecided, false);
    var evalResults;
    ok, evalResults, need := ValueChildren(pos, ply, posPool, mp, b, c);
    if !ok {
      return;
    }
    result := PickResult(pos.activeColor, evalResults);
  }

  /**
   * `position_val_at_ply`: explore the record; at depth 0, checkmate or
   * stalemate return the static value; otherwise value every child one
   * ply shallower and pick the best one for the side to move. The result
   * is `Value`.
   *
   * The record is unexplored, or explored with its children still
   * unexplored, which is what `explore_position` leaves.
   */
  method PositionValAtPly(pos: Pos, ply: nat, posPool: PosPool, mp: MovePool)
    returns (ok: bool, result: EvalResult, ghost need: nat)
    requires ValidPos(pos)
    requires Unexplored(pos) || (Explored(pos) && ChildrenOk(pos, BoardOf(pos), pos.activeColor, pos.moves))
    requires WellDefined(BoardOf(pos), pos.activeColor, ply)
    requires posPool.Valid() && mp.Valid()
    modifies pos`isKingInCheck, pos`movesData, pos`moves
    modifies pos`isKingInCheckmate, pos`isKingInStalemate, pos`isExplored
    modifies Kids(pos.moves)`isKingInCheck, Kids(pos.moves)`movesData, Kids(pos.moves)`moves
    modifies Kids(pos.moves)`isKingInCheckmate, Kids(pos.moves)`isKingInStalemate, Kids(pos.moves)`isExplored
    modifies posPool, mp
    ensures posPool.Valid() && mp.Valid() && pos.activeColor == old(pos.activeColor)
    ensures old(posPool.offset) <= posPool.offset && old(mp.offset) <= mp.offset
    ensures !ok ==> Starved(posPool, mp, BoardOf(pos), pos.activeColor, ply, need)
    ensures ok ==> Explored(pos) && result == Value(BoardOf(pos), pos.activeColor, ply)
    decreases ply, 3
  {
    result := EvalResult(0, WinnerUndecided, false);
    need := 0;
    ghost var b := BoardOf(pos);
    ghost var c := pos.activeColor;
    ok := ExplorePosition(pos, posPool, mp);
    if !ok {
      return;
    }
    ExploredVerdicts(pos);
    if ply == 0 || pos.isKingInCheckmate == 1 || pos.isKingInStalemate == 1 {
      ok, result := PositionStaticVal(pos, posPool, mp);
      return;
    }
    ok, result, need := ValueBelow(pos, ply, posPool, mp, b, c);
  }
}
