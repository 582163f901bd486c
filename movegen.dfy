/**
 * Move generation over position records: `append_legal_moves_for_piece`
 * and `set_legal_moves_for_position`, proved to append exactly the moves
 * `PieceMoves` and `LegalMoves` describe, each with a fresh child record.
 *
 * Every generating method returns, as a ghost value, the moves `added` it
 * appended to the list of `pos`; its contract says what their (from, to)
 * pairs are and that the children they lead to were allocated by the call.
 */
module MoveGen {
  import opened Pieces
  import opened Geometry
  import opened Boards
  import opened Attacks
  import opened MoveRules
  import opened MoveRulesFacts
  import opened Positions
  import opened CheckDetect

  lemma ConcatAssoc<T>(x: seq<T>, y: seq<T>, z: seq<T>)
    ensures (x + y) + z == x + (y + z)
  {
  }

  /** Appending `added` to the moves `acc` already appended after `init`. */
  lemma Grow(init: seq<Move>, acc: seq<Move>, added: seq<Move>)
    ensures (init + acc) + added == init + (acc + added)
    ensures Pairs(acc + added) == Pairs(acc) + Pairs(added)
    ensures Kids(acc + added) == Kids(acc) + Kids(added)
  {
    ConcatAssoc(init, acc, added);
    var ms := acc + added;
    assert forall i :: 0 <= i < |acc| ==> ms[i] == acc[i];
    assert forall i :: 0 <= i < |added| ==> ms[|acc| + i] == added[i];
    forall o | o in Kids(ms)
      ensures o in Kids(acc) + Kids(added)
    {
      var i :| 0 <= i < |ms| && ms[i].leadsTo != null && ms[i].leadsTo == o;
      if i >= |acc| {
        assert added[i - |acc|].leadsTo == o;
      }
    }
  }

  /** An empty list leads nowhere. */
  lemma KidsNone(acc: seq<Move>)
    ensures Kids([]) == {} && Kids(acc) + Kids([]) == Kids(acc)
  {
  }

  /** The child of a one-move list. */
  lemma KidsOne(m: Move)
    requires m.leadsTo != null
    ensures Kids([m]) == {m.leadsTo}
  {
    assert [m][0] == m;
  }

  /**
   * The first step of the block the generator runs for each candidate
   * target `sq`: the position after the move, looked at with the mover
   * still to move; `legal` says that `is_king_in_check` does not report
   * check there. `b` and `a` are the placement and side to move of `pos`;
   * the children already listed are left as they were.
   */
  method NewChild(pos: Pos, sq0: Sq, sq: Sq, posPool: PosPool, ghost b: Board, ghost a: Color)
    returns (ok: bool, child: Pos?, legal: bool)
    requires pos.placement.Length == 64 && pos.placement[..] == b && pos.activeColor == a && IsColor(a)
    requires OnBoard(sq0) && OnBoard(sq) && posPool.Valid() && ChildrenOk(pos, b, a, pos.moves)
    modifies posPool
    ensures posPool.Valid() && ChildrenOk(pos, b, a, pos.moves)
    ensures ok <==> old(posPool.offset) + POS_SIZE <= posPool.currentSize
    ensures posPool.offset == if ok then old(posPool.offset) + POS_SIZE else old(posPool.offset)
    ensures ok ==> child != null && fresh(child) && fresh(child.placement) && child != pos
    ensures ok ==> forall i :: 0 <= i < |pos.moves| ==> pos.moves[i].leadsTo != child
    ensures ok ==> child.placement.Length == 64 && child.placement[..] == ApplyMove(b, sq0, sq)
    ensures ok ==> child.activeColor == a && Unexplored(child)
    ensures ok ==> (legal <==> Legal(b, a, sq0, sq))
  {
    var move := Move(sq0, sq, null);
    ok, child := PositionAfterMove(pos, move, posPool);
    if !ok {
      return false, null, false;
    }
    child.activeColor := ToggledColor(child.activeColor);
    var check := IsKingInCheck(child);
    legal := check != 1;
  }

  /** A list of children stays one when a new, distinct child is appended. */
  lemma ChildrenOkAppend(p: Pos, b: Board, c: Color, ms: seq<Move>, m: Move)
    requires ChildrenOk(p, b, c, ms) && ChildOk(b, c, m) && m.leadsTo != p
    requires forall i :: 0 <= i < |ms| ==> ms[i].leadsTo != m.leadsTo
    ensures ChildrenOk(p, b, c, ms + [m])
  {
  }

  /**
   * The last step of that block, for a legal move: append a slot to the
   * move list, fill it with the move and its child, and give the child's
   * side to move back to the opponent.
   */
  method AppendChild(pos: Pos, sq0: Sq, sq: Sq, child: Pos, mp: MovePool, ghost b: Board, ghost a: Color)
    returns (ok: bool)
    requires OnBoard(sq0) && OnBoard(sq) && IsColor(a)
    requires mp.Valid() && AtPoolEnd(pos, mp) && ChildrenOk(pos, b, a, pos.moves)
    requires child != pos && forall i :: 0 <= i < |pos.moves| ==> pos.moves[i].leadsTo != child
    requires child.placement.Length == 64 && child.placement[..] == ApplyMove(b, sq0, sq)
    requires child.activeColor == a && Unexplored(child)
    modifies pos`movesData, pos`moves, mp, child`activeColor
    ensures mp.Valid()
    ensures ok <==> old(mp.offset) + MOVE_SIZE <= mp.currentSize
    ensures mp.offset == if ok then old(mp.offset) + MOVE_SIZE else old(mp.offset)
    ensures ok ==> AtPoolEnd(pos, mp) && pos.moves == old(pos.moves) + [Move(sq0, sq, child)]
    ensures ok ==> ChildrenOk(pos, b, a, pos.moves)
  {
    ghost var before := pos.moves;
    ok := MoveAppendedToMoveList(pos, mp);
    if !ok {
      return;
    }
    pos.moves := pos.moves[|pos.moves| - 1 := Move(sq0, sq, child)];
    child.activeColor := ToggledColor(child.activeColor);
    assert pos.moves == before + [Move(sq0, sq, child)];
    ChildrenOkAppend(pos, b, a, before, Move(sq0, sq, child));
  }

  /**
   * The block the generator runs for each candidate target `sq`: the move
   * to `sq` is appended, with its fresh child, exactly when it is legal.
   * A rejected child stays allocated in the position pool.
   */
  method TryMove(pos: Pos, sq0: Sq, sq: Sq, posPool: PosPool, mp: MovePool, ghost b: Board, ghost a: Color)
    returns (ok: bool, ghost added: seq<Move>)
    requires pos.placement.Length == 64 && pos.placement[..] == b && pos.activeColor == a && IsColor(a)
    requires OnBoard(sq0) && OnBoard(sq)
    requires posPool.Valid() && mp.Valid() && AtPoolEnd(pos, mp) && ChildrenOk(pos, b, a, pos.moves)
    modifies pos`movesData, pos`moves, posPool, mp
    ensures posPool.Valid() && mp.Valid()
    ensures old(posPool.offset) <= posPool.offset && old(mp.offset) <= mp.offset
    ensures !ok ==> OutOfRoom(posPool, mp)
    ensures ok ==> AtPoolEnd(pos, mp) && ChildrenOk(pos, b, a, pos.moves)
    ensures ok ==> pos.moves == old(pos.moves) + added && fresh(Kids(added))
    ensures ok <==> old(posPool.offset) + POS_SIZE <= posPool.currentSize
                    && (Legal(b, a, sq0, sq) ==> old(mp.offset) + MOVE_SIZE <= mp.currentSize)
    ensures ok ==> Pairs(added) == LegalPairs(b, a, sq0, [sq])
  {
    added := [];
    var child, legal;
    ok, child, legal := NewChild(pos, sq0, sq, posPool, b, a);
    if !ok {
      return;
    }
    LegalPairsOne(b, a, sq0, sq);
    if legal {
      ok := AppendChild(pos, sq0, sq, child, mp, b, a);
      added := [Move(sq0, sq, child)];
      KidsOne(added[0]);
    } else {
      assert pos.moves == old(pos.moves) + [];
    }
  }

  /**
   * Trying target `next` of a walk: the moves `acc` appended so far (after
   * `init`) are those of the targets `walked`, and both grow by `next`.
   */
  method TryTarget(pos: Pos, sq0: Sq, next: Sq, posPool: PosPool, mp: MovePool,
                   ghost b: Board, ghost a: Color, ghost init: seq<Move>, ghost acc: seq<Move>, ghost walked: seq<Sq>)
    returns (ok: bool, ghost acc': seq<Move>, ghost added: seq<Move>)
    requires pos.placement.Length == 64 && pos.placement[..] == b && pos.activeColor == a && IsColor(a)
    requires OnBoard(sq0) && OnBoard(next)
    requires posPool.Valid() && mp.Valid() && AtPoolEnd(pos, mp) && ChildrenOk(pos, b, a, pos.moves)
    requires pos.moves == init + acc && Pairs(acc) == LegalPairs(b, a, sq0, walked)
    modifies pos`movesData, pos`moves, posPool, mp
    ensures posPool.Valid() && mp.Valid()
    ensures old(posPool.offset) <= posPool.offset && old(mp.offset) <= mp.offset
    ensures !ok ==> OutOfRoom(posPool, mp)
    ensures ok ==> AtPoolEnd(pos, mp) && ChildrenOk(pos, b, a, pos.moves)
    ensures ok ==> pos.moves == init + acc' && fresh(Kids(added)) && Kids(acc') == Kids(acc) + Kids(added)
    ensures ok ==> Pairs(acc') == LegalPairs(b, a, sq0, walked + [next])
  {
    ok, added := TryMove(pos, sq0, next, posPool, mp, b, a);
    acc' := acc + added;
    if ok {
      Grow(init, acc, added);
      LegalPairsSnoc(b, a, sq0, walked, next);
    }
  }

  /** A walk stepping onto an empty square: it goes on from there when quiet moves are allowed, and ends otherwise. */
  lemma WalkEmptyStep(b: Board, own: Color, sq: Sq, dir: Dir, budget: nat, e: bool, c: bool)
    requires budget >= 1 && OnBoard(Step(sq, dir)) && At(b, Step(sq, dir)) == PIECE_EMPTY
    ensures Walk(b, own, sq, dir, budget, e, c)
      == if e then [Step(sq, dir)] + Walk(b, own, Step(sq, dir), dir, budget - 1, e, c) else []
    ensures Walk(b, own, Step(sq, dir), dir, 0, e, c) == []
  {
  }

  /**
   * A quiet step of a walk onto the empty square `next`: the move there is
   * tried, and the walk goes on from `next` with one step less.
   */
  method WalkQuiet(pos: Pos, sq0: Sq, next: Sq, own: Color, rule: PassRule, dir: Dir, d: nat,
                   posPool: PosPool, mp: MovePool,
                   ghost b: Board, ghost a: Color, ghost init: seq<Move>, ghost acc: seq<Move>, ghost walked: seq<Sq>)
    returns (ok: bool, ghost acc': seq<Move>, ghost walked': seq<Sq>, ghost rest': seq<Sq>, ghost added: seq<Move>)
    requires pos.placement.Length == 64 && pos.placement[..] == b && pos.activeColor == a && IsColor(a)
    requires OnBoard(sq0) && d >= 1 && OnBoard(next)
    requires posPool.Valid() && mp.Valid() && AtPoolEnd(pos, mp) && ChildrenOk(pos, b, a, pos.moves)
    requires pos.moves == init + acc && Pairs(acc) == LegalPairs(b, a, sq0, walked)
    modifies pos`movesData, pos`moves, posPool, mp
    ensures posPool.Valid() && mp.Valid()
    ensures old(posPool.offset) <= posPool.offset && old(mp.offset) <= mp.offset
    ensures !ok ==> OutOfRoom(posPool, mp)
    ensures rest' == Walk(b, own, next, dir, d - 1, rule.moveToEmptyAllowed, rule.capturesAllowed)
    ensures walked + ([next] + rest') == walked' + rest'
    ensures ok ==> AtPoolEnd(pos, mp) && ChildrenOk(pos, b, a, pos.moves)
    ensures ok ==> pos.moves == init + acc' && fresh(Kids(added)) && Kids(acc') == Kids(acc) + Kids(added)
    ensures ok ==> Pairs(acc') == LegalPairs(b, a, sq0, walked')
  {
    rest' := Walk(b, own, next, dir, d - 1, rule.moveToEmptyAllowed, rule.capturesAllowed);
    ConcatAssoc(walked, [next], rest');
    ok, acc', added := TryTarget(pos, sq0, next, posPool, mp, b, a, init, acc, walked);
    walked' := walked + [next];
  }

  /**
   * A walk that steps onto the empty square `next`: a pass that may move
   * to empty squares tries it and goes on while distance is left; any
   * other pass stops there.
   */
  method WalkOntoEmpty(pos: Pos, sq0: Sq, sq: Sq, next: Sq, found: Piece, own: Color, rule: PassRule, dir: Dir, d: nat,
                  posPool: PosPool, mp: MovePool,
                  ghost b: Board, ghost a: Color, ghost init: seq<Move>, ghost acc: seq<Move>, ghost walked: seq<Sq>, ghost rest: seq<Sq>)
    returns (ok: bool, stop: bool, d': nat,
             ghost acc': seq<Move>, ghost walked': seq<Sq>, ghost rest': seq<Sq>, ghost added: seq<Move>)
    requires pos.placement.Length == 64 && pos.placement[..] == b && pos.activeColor == a && IsColor(a)
    requires OnBoard(sq0) && d >= 1 && next == Step(sq, dir) && OnBoard(next) && found == At(b, next)
    requires rest == Walk(b, own, sq, dir, d, rule.moveToEmptyAllowed, rule.capturesAllowed)
    requires posPool.Valid() && mp.Valid() && AtPoolEnd(pos, mp) && ChildrenOk(pos, b, a, pos.moves)
    requires pos.moves == init + acc && Pairs(acc) == LegalPairs(b, a, sq0, walked)
    requires found == PIECE_EMPTY
    modifies pos`movesData, pos`moves, posPool, mp
    ensures posPool.Valid() && mp.Valid()
    ensures old(posPool.offset) <= posPool.offset && old(mp.offset) <= mp.offset
    ensures !ok ==> OutOfRoom(posPool, mp)
    ensures ok ==> AtPoolEnd(pos, mp) && ChildrenOk(pos, b, a, pos.moves)
    ensures ok ==> pos.moves == init + acc' && fresh(Kids(added)) && Kids(acc') == Kids(acc) + Kids(added)
    ensures ok ==> Pairs(acc') == LegalPairs(b, a, sq0, walked') && walked + rest == walked' + rest'
    ensures ok && stop ==> rest' == []
    ensures ok && !stop ==> (1 <= d' < d
      && rest' == Walk(b, own, next, dir, d', rule.moveToEmptyAllowed, rule.capturesAllowed))
  {
    WalkEmptyStep(b, own, sq, dir, d, rule.moveToEmptyAllowed, rule.capturesAllowed);
    if rule.moveToEmptyAllowed {
      ok, acc', walked', rest', added := WalkQuiet(pos, sq0, next, own, rule, dir, d, posPool, mp, b, a, init, acc, walked);
      d' := d - 1;
      stop := d' == 0;
    } else {
      acc', walked', rest', added := acc, walked, [], [];
      ok, stop, d' := true, true, d;
      KidsNone(acc);
    }
  }

  /**
   * A walk that steps onto the occupied square `next`: it ends there, after
   * trying the capture when the piece is the opponent's and the pass may
   * capture.
   */
  method WalkOntoPiece(pos: Pos, sq0: Sq, sq: Sq, next: Sq, found: Piece, own: Color, rule: PassRule, dir: Dir, d: nat,
                  posPool: PosPool, mp: MovePool,
                  ghost b: Board, ghost a: Color, ghost init: seq<Move>, ghost acc: seq<Move>, ghost walked: seq<Sq>, ghost rest: seq<Sq>)
    returns (ok: bool, ghost acc': seq<Move>, ghost walked': seq<Sq>, ghost added: seq<Move>)
    requires pos.placement.Length == 64 && pos.placement[..] == b && pos.activeColor == a && IsColor(a)
    requires OnBoard(sq0) && d >= 1 && next == Step(sq, dir) && OnBoard(next) && found == At(b, next)
    requires rest == Walk(b, own, sq, dir, d, rule.moveToEmptyAllowed, rule.capturesAllowed)
    requires posPool.Valid() && mp.Valid() && AtPoolEnd(pos, mp) && ChildrenOk(pos, b, a, pos.moves)
    requires pos.moves == init + acc && Pairs(acc) == LegalPairs(b, a, sq0, walked)
    requires found != PIECE_EMPTY
    modifies pos`movesData, pos`moves, posPool, mp
    ensures posPool.Valid() && mp.Valid()
    ensures old(posPool.offset) <= posPool.offset && old(mp.offset) <= mp.offset
    ensures !ok ==> OutOfRoom(posPool, mp)
    ensures ok ==> AtPoolEnd(pos, mp) && ChildrenOk(pos, b, a, pos.moves)
    ensures ok ==> pos.moves == init + acc' && fresh(Kids(added)) && Kids(acc') == Kids(acc) + Kids(added)
    ensures ok ==> Pairs(acc') == LegalPairs(b, a, sq0, walked') && walked + rest == walked'
  {
    acc', walked', added := acc, walked, [];
    ok := true;
    KidsNone(acc);
    var foundColor := PieceColor(found);
    if own == foundColor {
      assert rest == [];
    } else {
      if rule.capturesAllowed {
        assert rest == [next];
        ok, acc', added := TryTarget(pos, sq0, next, posPool, mp, b, a, init, acc, walked);
        walked' := walked + [next];
      }
    }
  }

  /**
   * One turn of the `for (;;)` walk: step from `sq` along `dir`, stop at
   * the edge, and go on as `WalkOntoEmpty` and `WalkOntoPiece` say otherwise.
   */
  method WalkStep(pos: Pos, sq0: Sq, sq: Sq, own: Color, rule: PassRule, dir: Dir, d: nat, posPool: PosPool, mp: MovePool,
                  ghost b: Board, ghost a: Color, ghost init: seq<Move>, ghost acc: seq<Move>, ghost walked: seq<Sq>, ghost rest: seq<Sq>)
    returns (ok: bool, stop: bool, sq': Sq, d': nat,
             ghost acc': seq<Move>, ghost walked': seq<Sq>, ghost rest': seq<Sq>, ghost added: seq<Move>)
    requires pos.placement.Length == 64 && pos.placement[..] == b && pos.activeColor == a && IsColor(a)
    requires OnBoard(sq0) && OnBoard(sq) && d >= 1
    requires rest == Walk(b, own, sq, dir, d, rule.moveToEmptyAllowed, rule.capturesAllowed)
    requires posPool.Valid() && mp.Valid() && AtPoolEnd(pos, mp) && ChildrenOk(pos, b, a, pos.moves)
    requires pos.moves == init + acc && Pairs(acc) == LegalPairs(b, a, sq0, walked)
    modifies pos`movesData, pos`moves, posPool, mp
    ensures posPool.Valid() && mp.Valid()
    ensures old(posPool.offset) <= posPool.offset && old(mp.offset) <= mp.offset
    ensures !ok ==> OutOfRoom(posPool, mp)
    ensures ok ==> AtPoolEnd(pos, mp) && ChildrenOk(pos, b, a, pos.moves)
    ensures ok ==> pos.moves == init + acc' && fresh(Kids(added)) && Kids(acc') == Kids(acc) + Kids(added)
    ensures ok ==> Pairs(acc') == LegalPairs(b, a, sq0, walked') && walked + rest == walked' + rest'
    ensures ok && stop ==> rest' == []
    ensures ok ==> OnBoard(sq')
    ensures ok && !stop ==> (1 <= d' < d
      && rest' == Walk(b, own, sq', dir, d', rule.moveToEmptyAllowed, rule.capturesAllowed))
  {
    var next := Step(sq, dir);
    if next.f < 0 || next.f > 7 || next.r < 0 || next.r > 7 {
      KidsNone(acc);
      return true, true, sq, d, acc, walked, [], [];
    }
    var found := pos.placement[Idx(next)];
    sq' := next;
    if found == PIECE_EMPTY {
      ok, stop, d', acc', walked', rest', added := WalkOntoEmpty(pos, sq0, sq, next, found, own, rule, dir, d, posPool, mp, b, a, init, acc, walked, rest);
    } else {
      ok, acc', walked', added := WalkOntoPiece(pos, sq0, sq, next, found, own, rule, dir, d, posPool, mp, b, a, init, acc, walked, rest);
      stop, d', rest' := true, d, [];
      assert walked' + [] == walked';
    }
  }

  /**
   * One direction of one pass: the `for (;;)` walk from `sq0` along `dir`,
   * trying every candidate target of `Walk` in order.
   */
  method WalkDirection(pos: Pos, sq0: Sq, own: Color, rule: PassRule, dir: Dir, posPool: PosPool, mp: MovePool,
                       ghost b: Board, ghost a: Color)
    returns (ok: bool, ghost added: seq<Move>)
    requires pos.placement.Length == 64 && pos.placement[..] == b && pos.activeColor == a && IsColor(a)
    requires OnBoard(sq0) && rule.maxDistance >= 1
    requires posPool.Valid() && mp.Valid() && AtPoolEnd(pos, mp) && ChildrenOk(pos, b, a, pos.moves)
    modifies pos`movesData, pos`moves, posPool, mp
    ensures posPool.Valid() && mp.Valid()
    ensures old(posPool.offset) <= posPool.offset && old(mp.offset) <= mp.offset
    ensures !ok ==> OutOfRoom(posPool, mp)
    ensures ok ==> AtPoolEnd(pos, mp) && ChildrenOk(pos, b, a, pos.moves)
    ensures ok ==> pos.moves == old(pos.moves) + added && fresh(Kids(added))
    ensures ok ==> Pairs(added) == LegalPairs(b, a, sq0, PassWalk(b, own, sq0, rule, dir))
  {
    ghost var init := pos.moves;
    ghost var walked: seq<Sq> := [];
    ghost var rest := PassWalk(b, own, sq0, rule, dir);
    ghost var step: seq<Move>;
    added := [];
    var sq := sq0;
    var d := rule.maxDistance;
    var stop := false;
    ok := true;
    assert init + [] == init;
    while !stop
      invariant OnBoard(sq) && pos.activeColor == a
      invariant posPool.Valid() && mp.Valid() && AtPoolEnd(pos, mp) && ChildrenOk(pos, b, a, pos.moves)
      invariant old(posPool.offset) <= posPool.offset && old(mp.offset) <= mp.offset
      invariant pos.moves == init + added && fresh(Kids(added))
      invariant Pairs(added) == LegalPairs(b, a, sq0, walked)
      invariant PassWalk(b, own, sq0, rule, dir) == walked + rest
      invariant !stop ==> d >= 1 && rest == Walk(b, own, sq, dir, d, rule.moveToEmptyAllowed, rule.capturesAllowed)
      invariant stop ==> rest == []
      decreases if stop then 0 else d + 1
    {
      ok, stop, sq, d, added, walked, rest, step := WalkStep(pos, sq0, sq, own, rule, dir, d, posPool, mp, b, a, init, added, walked, rest);
      if !ok {
        return;
      }
    }
    assert walked + [] == walked;
  }

  /** Splitting off the last direction of a pass. */
  lemma DirsMovesSnoc(b: Board, active: Color, own: Color, sq0: Sq, rule: PassRule, i: nat)
    requires i < |rule.dirs|
    ensures DirsMoves(b, active, own, sq0, rule, rule.dirs[..i + 1])
      == DirsMoves(b, active, own, sq0, rule, rule.dirs[..i]) + LegalPairs(b, active, sq0, PassWalk(b, own, sq0, rule, rule.dirs[i]))
  {
    assert rule.dirs[..i + 1][..i] == rule.dirs[..i];
  }

  /**
   * One pass of `append_legal_moves_for_piece`: walk every direction of
   * `rule` in table order.
   */
  method AppendPass(pos: Pos, sq0: Sq, own: Color, rule: PassRule, posPool: PosPool, mp: MovePool, ghost b: Board, ghost a: Color)
    returns (ok: bool, ghost added: seq<Move>)
    requires pos.placement.Length == 64 && pos.placement[..] == b && pos.activeColor == a && IsColor(a)
    requires OnBoard(sq0) && rule.maxDistance >= 1
    requires posPool.Valid() && mp.Valid() && AtPoolEnd(pos, mp) && ChildrenOk(pos, b, a, pos.moves)
    modifies pos`movesData, pos`moves, posPool, mp
    ensures posPool.Valid() && mp.Valid()
    ensures old(posPool.offset) <= posPool.offset && old(mp.offset) <= mp.offset
    ensures !ok ==> OutOfRoom(posPool, mp)
    ensures ok ==> AtPoolEnd(pos, mp) && ChildrenOk(pos, b, a, pos.moves)
    ensures ok ==> pos.moves == old(pos.moves) + added && fresh(Kids(added))
    ensures ok ==> Pairs(added) == DirsMoves(b, a, own, sq0, rule, rule.dirs)
  {
    ghost var init := pos.moves;
    added := [];
    ok := true;
    assert init + [] == init;
    assert rule.dirs[..0] == [];
    for i := 0 to |rule.dirs|
      invariant pos.activeColor == a
      invariant posPool.Valid() && mp.Valid() && AtPoolEnd(pos, mp) && ChildrenOk(pos, b, a, pos.moves)
      invariant old(posPool.offset) <= posPool.offset && old(mp.offset) <= mp.offset
      invariant pos.moves == init + added && fresh(Kids(added))
      invariant Pairs(added) == DirsMoves(b, a, own, sq0, rule, rule.dirs[..i])
    {
      ghost var step;
      DirsMovesSnoc(b, a, own, sq0, rule, i);
      ok, step := WalkDirection(pos, sq0, own, rule, rule.dirs[i], posPool, mp, b, a);
      if !ok {
        return;
      }
      Grow(init, added, step);
      added := added + step;
    }
    assert rule.dirs[..|rule.dirs|] == rule.dirs;
  }

  /** Splitting off the last pass of a piece. */
  lemma RulesMovesSnoc(b: Board, active: Color, own: Color, sq0: Sq, rules: seq<PassRule>, n: nat)
    requires n < |rules|
    ensures RulesMoves(b, active, own, sq0, rules[..n + 1])
      == RulesMoves(b, active, own, sq0, rules[..n]) + DirsMoves(b, active, own, sq0, rules[n], rules[n].dirs)
  {
    assert rules[..n + 1][..n] == rules[..n];
  }

  /** The passes `rules`, in order, for a piece of colour `own` on `sq0`. */
  method AppendPasses(pos: Pos, sq0: Sq, own: Color, rules: seq<PassRule>, posPool: PosPool, mp: MovePool, ghost b: Board, ghost a: Color)
    returns (ok: bool, ghost added: seq<Move>)
    requires pos.placement.Length == 64 && pos.placement[..] == b && pos.activeColor == a && IsColor(a)
    requires OnBoard(sq0) && forall n :: 0 <= n < |rules| ==> rules[n].maxDistance >= 1
    requires posPool.Valid() && mp.Valid() && AtPoolEnd(pos, mp) && ChildrenOk(pos, b, a, pos.moves)
    modifies pos`movesData, pos`moves, posPool, mp
    ensures posPool.Valid() && mp.Valid()
    ensures old(posPool.offset) <= posPool.offset && old(mp.offset) <= mp.offset
    ensures !ok ==> OutOfRoom(posPool, mp)
    ensures ok ==> AtPoolEnd(pos, mp) && ChildrenOk(pos, b, a, pos.moves)
    ensures ok ==> pos.moves == old(pos.moves) + added && fresh(Kids(added))
    ensures ok ==> Pairs(added) == RulesMoves(b, a, own, sq0, rules)
  {
    ghost var init := pos.moves;
    added := [];
    ok := true;
    assert init + [] == init;
    assert rules[..0] == [];
    for nPass := 0 to |rules|
      invariant pos.activeColor == a
      invariant posPool.Valid() && mp.Valid() && AtPoolEnd(pos, mp) && ChildrenOk(pos, b, a, pos.moves)
      invariant old(posPool.offset) <= posPool.offset && old(mp.offset) <= mp.offset
      invariant pos.moves == init + added && fresh(Kids(added))
      invariant Pairs(added) == RulesMoves(b, a, own, sq0, rules[..nPass])
    {
      ghost var step;
      RulesMovesSnoc(b, a, own, sq0, rules, nPass);
      ok, step := AppendPass(pos, sq0, own, rules[nPass], posPool, mp, b, a);
      if !ok {
        return;
      }
      Grow(init, added, step);
      added := added + step;
    }
    assert rules[..|rules|] == rules;
  }

  /**
   * `append_legal_moves_for_piece`: the passes of `piece` on `sq0`, in order,
   * append to the move list of `pos` exactly the moves `PieceMoves` lists,
   * each with a fresh child position. `ok` is false when a pool ran out.
   */
  method AppendLegalMovesForPiece(pos: Pos, sq0: Sq, piece: Piece, posPool: PosPool, mp: MovePool, ghost b: Board, ghost a: Color)
    returns (ok: bool, ghost added: seq<Move>)
    requires pos.placement.Length == 64 && pos.placement[..] == b && pos.activeColor == a && IsColor(a)
    requires OnBoard(sq0) && ValidPiece(piece) && piece != PIECE_EMPTY
    requires posPool.Valid() && mp.Valid() && AtPoolEnd(pos, mp) && ChildrenOk(pos, b, a, pos.moves)
    modifies pos`movesData, pos`moves, posPool, mp
    ensures posPool.Valid() && mp.Valid()
    ensures old(posPool.offset) <= posPool.offset && old(mp.offset) <= mp.offset
    ensures !ok ==> OutOfRoom(posPool, mp)
    ensures ok ==> AtPoolEnd(pos, mp) && ChildrenOk(pos, b, a, pos.moves)
    ensures ok ==> pos.moves == old(pos.moves) + added && fresh(Kids(added))
    ensures ok ==> Pairs(added) == PieceMoves(b, a, sq0, piece)
  {
    var rules := PassRules(piece, sq0);
    ok, added := AppendPasses(pos, sq0, PieceColor(piece), rules, posPool, mp, b, a);
  }

  /** The concatenation of the per-cell move lists `ss`, in order. */
  function Concat(ss: seq<seq<(Sq, Sq)>>): seq<(Sq, Sq)> {
    if ss == [] then [] else Concat(ss[..|ss| - 1]) + ss[|ss| - 1]
  }

  lemma ConcatSnoc(ss: seq<seq<(Sq, Sq)>>, n: nat)
    requires n < |ss|
    ensures Concat(ss[..n + 1]) == Concat(ss[..n]) + ss[n]
  {
    assert ss[..n + 1][..n] == ss[..n];
  }

  /**
   * `cells` lists, cell by cell, the moves the scan appends there. The
   * quantifier is only instantiated where a cell's `SquareMoves` is
   * already under discussion, which keeps the scan loops' proofs small.
   */
  ghost predicate CellsOk(b: Board, c: Color, cells: seq<seq<(Sq, Sq)>>)
    requires ValidBoard(b) && IsColor(c)
  {
    && |cells| == 64
    && forall i: nat {:trigger SquareMoves(b, c, i)} :: i < 64 ==> cells[i] == SquareMoves(b, c, i)
  }

  lemma CellsOf(b: Board, c: Color) returns (cells: seq<seq<(Sq, Sq)>>)
    requires ValidBoard(b) && IsColor(c)
    ensures CellsOk(b, c, cells)
  {
    cells := seq(64, i requires 0 <= i < 64 => SquareMoves(b, c, i));
  }

  /** The cells' lists, concatenated up to cell `n`, are the scan's moves up to there. */
  lemma {:induction false} CellsUpTo(b: Board, c: Color, cells: seq<seq<(Sq, Sq)>>, n: nat)
    requires ValidBoard(b) && IsColor(c) && CellsOk(b, c, cells) && n <= 64
    ensures Concat(cells[..n]) == MovesUpTo(b, c, n)
  {
    if n > 0 {
      CellsUpTo(b, c, cells, n - 1);
      ConcatSnoc(cells, n - 1);
      assert cells[n - 1] == SquareMoves(b, c, n - 1);
    }
  }

  /**
   * Cell `f * 8 + r` is the square the scan visits at file `f`, rank `r`;
   * the scan appends there the moves of its piece when that belongs to
   * the side to move, and nothing otherwise.
   */
  lemma ScanStep(b: Board, c: Color, cells: seq<seq<(Sq, Sq)>>, f: int, r: int)
    requires ValidBoard(b) && IsColor(c) && CellsOk(b, c, cells) && 0 <= f < 8 && 0 <= r < 8
    ensures SqAt(f * 8 + r) == Sq(f, r)
    ensures cells[f * 8 + r]
      == if PieceColor(b[f * 8 + r]) == c then PieceMoves(b, c, Sq(f, r), b[f * 8 + r]) else []
  {
    IdxInjective(SqAt(f * 8 + r), Sq(f, r));
    assert cells[f * 8 + r] == SquareMoves(b, c, f * 8 + r);
  }

  /**
   * One square of the scan: the moves of the piece on `(f, r)` when it
   * belongs to the side to move. The moves `acc` appended so far (after
   * `init`) grow by that cell's list; the children of the new moves make
   * up `born`.
   */
  method ScanSquare(pos: Pos, f: int, r: int, posPool: PosPool, mp: MovePool,
                    ghost b: Board, ghost a: Color, ghost cells: seq<seq<(Sq, Sq)>>, ghost init: seq<Move>, ghost acc: seq<Move>)
    returns (ok: bool, ghost acc': seq<Move>, ghost born: set<Pos>)
    requires 0 <= f < 8 && 0 <= r < 8
    requires pos.placement.Length == 64 && pos.placement[..] == b && ValidBoard(b) && pos.activeColor == a && IsColor(a)
    requires CellsOk(b, a, cells)
    requires posPool.Valid() && mp.Valid() && AtPoolEnd(pos, mp) && ChildrenOk(pos, b, a, pos.moves)
    requires pos.moves == init + acc
    modifies pos`movesData, pos`moves, posPool, mp
    ensures posPool.Valid() && mp.Valid()
    ensures old(posPool.offset) <= posPool.offset && old(mp.offset) <= mp.offset
    ensures !ok ==> OutOfRoom(posPool, mp)
    ensures ok ==> AtPoolEnd(pos, mp) && ChildrenOk(pos, b, a, pos.moves)
    ensures ok ==> pos.moves == init + acc' && Kids(acc') == Kids(acc) + born && fresh(born)
    ensures ok ==> Pairs(acc') == Pairs(acc) + cells[f * 8 + r]
  {
    ScanStep(b, a, cells, f, r);
    KidsNone(acc);
    acc', born := acc, {};
    assert Pairs(acc) + [] == Pairs(acc);
    var sq := Sq(f, r);
    var found := pos.placement[Idx(sq)];
    ok := true;
    if pos.activeColor == PieceColor(found) {
      assert found != PIECE_EMPTY;
      ghost var added;
      ok, added := AppendLegalMovesForPiece(pos, sq, found, posPool, mp, b, a);
      if ok {
        Grow(init, acc, added);
        acc', born := acc + added, Kids(added);
      }
    }
  }

  /**
   * The ranks of file `f`, in order: cells `f * 8` to `f * 8 + 7` of the
   * scan, with `acc` and `born` as for `ScanSquare`.
   */
  method ScanFile(pos: Pos, f: int, posPool: PosPool, mp: MovePool,
                  ghost b: Board, ghost a: Color, ghost cells: seq<seq<(Sq, Sq)>>, ghost init: seq<Move>, ghost acc: seq<Move>)
    returns (ok: bool, ghost acc': seq<Move>, ghost born: set<Pos>)
    requires 0 <= f < 8
    requires pos.placement.Length == 64 && pos.placement[..] == b && ValidBoard(b) && pos.activeColor == a && IsColor(a)
    requires CellsOk(b, a, cells)
    requires posPool.Valid() && mp.Valid() && AtPoolEnd(pos, mp) && ChildrenOk(pos, b, a, pos.moves)
    requires pos.moves == init + acc && Pairs(acc) == Concat(cells[..f * 8])
    modifies pos`movesData, pos`moves, posPool, mp
    ensures posPool.Valid() && mp.Valid()
    ensures old(posPool.offset) <= posPool.offset && old(mp.offset) <= mp.offset
    ensures !ok ==> OutOfRoom(posPool, mp)
    ensures ok ==> AtPoolEnd(pos, mp) && ChildrenOk(pos, b, a, pos.moves)
    ensures ok ==> pos.moves == init + acc' && Kids(acc') == Kids(acc) + born && fresh(born)
    ensures ok ==> Pairs(acc') == Concat(cells[..f * 8 + 8])
  {
    acc', born := acc, {};
    ok := true;
    assert Kids(acc) + {} == Kids(acc);
    assert f * 8 + 0 == f * 8;
    for r := 0 to 8
      invariant pos.activeColor == a
      invariant posPool.Valid() && mp.Valid() && AtPoolEnd(pos, mp) && ChildrenOk(pos, b, a, pos.moves)
      invariant old(posPool.offset) <= posPool.offset && old(mp.offset) <= mp.offset
      invariant pos.moves == init + acc' && Kids(acc') == Kids(acc) + born && fresh(born)
      invariant Pairs(acc') == Concat(cells[..f * 8 + r])
    {
      ConcatSnoc(cells, f * 8 + r);
      ghost var step;
      ok, acc', step := ScanSquare(pos, f, r, posPool, mp, b, a, cells, init, acc');
      if !ok {
        return;
      }
      born := born + step;
    }
  }

  /** The cells' lists, all 64 concatenated, are the legal-move list. */
  lemma CellsCover(b: Board, c: Color, cells: seq<seq<(Sq, Sq)>>)
    requires ValidBoard(b) && IsColor(c) && CellsOk(b, c, cells)
    ensures Concat(cells[..8 * 8]) == LegalMoves(b, c)
  {
    CellsUpTo(b, c, cells, 64);
  }

  /** The files of the scan, in order, with `added` and `born` as for `ScanFile`. */
  method ScanFiles(pos: Pos, posPool: PosPool, mp: MovePool,
                   ghost b: Board, ghost a: Color, ghost cells: seq<seq<(Sq, Sq)>>)
    returns (ok: bool, ghost added: seq<Move>, ghost born: set<Pos>)
    requires pos.placement.Length == 64 && pos.placement[..] == b && ValidBoard(b) && pos.activeColor == a && IsColor(a)
    requires CellsOk(b, a, cells)
    requires posPool.Valid() && mp.Valid() && AtPoolEnd(pos, mp) && ChildrenOk(pos, b, a, pos.moves)
    modifies pos`movesData, pos`moves, posPool, mp
    ensures posPool.Valid() && mp.Valid()
    ensures old(posPool.offset) <= posPool.offset && old(mp.offset) <= mp.offset
    ensures !ok ==> OutOfRoom(posPool, mp)
    ensures ok ==> AtPoolEnd(pos, mp) && ChildrenOk(pos, b, a, pos.moves)
    ensures ok ==> pos.moves == old(pos.moves) + added && Kids(added) == born && fresh(born)
    ensures ok ==> Pairs(added) == Concat(cells[..8 * 8])
  {
    ghost var init := pos.moves;
    added, born := [], {};
    ok := true;
    assert init + [] == init;
    KidsNone(added);
    assert cells[..0 * 8] == [];
    for f := 0 to 8
      invariant pos.activeColor == a
      invariant posPool.Valid() && mp.Valid() && AtPoolEnd(pos, mp) && ChildrenOk(pos, b, a, pos.moves)
      invariant old(posPool.offset) <= posPool.offset && old(mp.offset) <= mp.offset
      invariant pos.moves == init + added && Kids(added) == born && fresh(born)
      invariant Pairs(added) == Concat(cells[..f * 8])
    {
      ghost var step;
      ok, added, step := ScanFile(pos, f, posPool, mp, b, a, cells, init, added);
      if !ok {
        return;
      }
      born := born + step;
    }
  }

  /**
   * `set_legal_moves_for_position`: scanning the board file by file and
   * rank by rank, append the moves of every piece of the side to move;
   * the list grows by exactly `LegalMoves`, and the moves' children, `born`,
   * are all new.
   */
  method SetLegalMovesForPosition(pos: Pos, posPool: PosPool, mp: MovePool, ghost b: Board)
    returns (ok: bool, ghost added: seq<Move>, ghost born: set<Pos>)
    requires pos.placement.Length == 64 && pos.placement[..] == b && ValidBoard(b) && IsColor(pos.activeColor)
    requires posPool.Valid() && mp.Valid() && AtPoolEnd(pos, mp) && ChildrenOk(pos, b, pos.activeColor, pos.moves)
    modifies pos`movesData, pos`moves, posPool, mp
    ensures posPool.Valid() && mp.Valid()
    ensures old(posPool.offset) <= posPool.offset && old(mp.offset) <= mp.offset
    ensures !ok ==> OutOfRoom(posPool, mp)
    ensures ok ==> AtPoolEnd(pos, mp) && ChildrenOk(pos, b, pos.activeColor, pos.moves)
    ensures ok ==> pos.moves == old(pos.moves) + added && Kids(added) == born && fresh(born)
    ensures ok ==> Pairs(added) == LegalMoves(b, pos.activeColor)
  {
    ghost var cells := CellsOf(b, pos.activeColor);
    CellsCover(b, pos.activeColor, cells);
    ok, added, born := ScanFiles(pos, posPool, mp, b, pos.activeColor, cells);
  }
}
