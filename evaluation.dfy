/**
 * What the evaluator computes, as values: the static value of a position,
 * the comparator that orders evaluation results from White's point of
 * view, and the fixed-depth minimax value over the legal-move tree.
 *
 * The source's `Val` is a `double`; every value it ever holds is a sum of
 * the integer piece values, so it is an `int` here.
 */
module Evaluation {
  import opened Pieces
  import opened Geometry
  import opened Boards
  import opened Attacks
  import opened MoveRules
  import opened MoveRulesFacts

  /** `WINNER_WHITE` (1), `WINNER_UNDECIDED` (0) and `WINNER_BLACK` (-1). */
  datatype Winner = WinnerWhite | WinnerUndecided | WinnerBlack

  datatype EvalResult = EvalResult(val: int, winner: Winner, isDraw: bool)

  /** How good a verdict is for White: a White win first, a Black win last. */
  function WinnerRank(w: Winner): int {
    match w
    case WinnerWhite => 0
    case WinnerUndecided => 1
    case WinnerBlack => 2
  }

  /** `a` is strictly better for White than `b`: a better verdict, or both undecided and more material. */
  predicate Better(a: EvalResult, b: EvalResult) {
    WinnerRank(a.winner) < WinnerRank(b.winner)
    || (a.winner == WinnerUndecided && b.winner == WinnerUndecided && a.val > b.val)
  }

  /** Neither result is better: the same verdict and, when undecided, the same value. */
  predicate Equiv(a: EvalResult, b: EvalResult) {
    a.winner == b.winner && (a.winner == WinnerUndecided ==> a.val == b.val)
  }

  /**
   * `cmp_eval_results`: negative when `a` is better for White, positive
   * when `b` is, zero when neither is.
   */
  function CmpEvalResults(a: EvalResult, b: EvalResult): (r: int)
    ensures r < 0 <==> Better(a, b)
    ensures r > 0 <==> Better(b, a)
    ensures r == 0 <==> Equiv(a, b)
  {
    if a.winner == WinnerUndecided && b.winner == WinnerUndecided then b.val - a.val
    else if a.winner == WinnerUndecided && b.winner == WinnerBlack then -1
    else if a.winner == WinnerUndecided && b.winner == WinnerWhite then 1
    else if a.winner == WinnerWhite && b.winner == WinnerUndecided then -1
    else if a.winner == WinnerWhite && b.winner == WinnerBlack then -1
    else if a.winner == WinnerWhite && b.winner == WinnerWhite then 0
    else if a.winner == WinnerBlack && b.winner == WinnerUndecided then 1
    else if a.winner == WinnerBlack && b.winner == WinnerBlack then 0
    else 1
  }

  /** The comparator is antisymmetric: swapping the arguments flips the sign. */
  lemma CmpAntisymmetric(a: EvalResult, b: EvalResult)
    ensures CmpEvalResults(a, b) < 0 <==> CmpEvalResults(b, a) > 0
    ensures CmpEvalResults(a, b) == 0 <==> CmpEvalResults(b, a) == 0
  {
  }

  /** The comparator is a total preorder: "at least as good for White" is transitive. */
  lemma CmpTransitive(a: EvalResult, b: EvalResult, c: EvalResult)
    requires CmpEvalResults(a, b) <= 0 && CmpEvalResults(b, c) <= 0
    ensures CmpEvalResults(a, c) <= 0
    ensures CmpEvalResults(a, b) < 0 || CmpEvalResults(b, c) < 0 ==> CmpEvalResults(a, c) < 0
  {
  }

  /** Equivalent results compare alike against anything. */
  lemma CmpRespectsEquiv(a: EvalResult, a': EvalResult, b: EvalResult)
    requires Equiv(a, a')
    ensures CmpEvalResults(a, b) < 0 <==> CmpEvalResults(a', b) < 0
    ensures CmpEvalResults(a, b) == 0 <==> CmpEvalResults(a', b) == 0
    ensures CmpEvalResults(b, a) < 0 <==> CmpEvalResults(b, a') < 0
  {
  }

  /** The sum of `piece_val` over the non-empty cells `[0, n)`, in scan order. */
  function MaterialUpTo(b: Board, n: nat): int
    requires ValidBoard(b) && n <= 64
  {
    if n == 0 then 0
    else MaterialUpTo(b, n - 1) + (if b[n - 1] != PIECE_EMPTY then PieceVal(b[n - 1]) else 0)
  }

  /** The material balance of a board, positive when White is ahead. */
  function Material(b: Board): int
    requires ValidBoard(b)
  {
    MaterialUpTo(b, |b|)
  }

  /** The board with every piece changed to the other colour. */
  function SwapColors(b: Board): (s: Board)
    requires ValidBoard(b)
    ensures ValidBoard(s)
  {
    seq(64, i requires 0 <= i < 64 => SwapPieceColor(b[i]))
  }

  /** Exchanging the colours of all pieces negates the material balance. */
  lemma {:induction false} MaterialSwapUpTo(b: Board, n: nat)
    requires ValidBoard(b) && n <= 64
    ensures MaterialUpTo(SwapColors(b), n) == -MaterialUpTo(b, n)
  {
    if n > 0 {
      MaterialSwapUpTo(b, n - 1);
      if b[n - 1] != PIECE_EMPTY {
        PieceValSwap(b[n - 1]);
      }
    }
  }

  lemma MaterialSwap(b: Board)
    requires ValidBoard(b)
    ensures Material(SwapColors(b)) == -Material(b)
  {
    MaterialSwapUpTo(b, |b|);
  }

  /** `is_king_in_checkmate` on an explored position: in check and no legal move. */
  predicate Checkmated(b: Board, c: Color)
    requires ValidBoard(b) && IsColor(c)
  {
    CheckStatus(b, c) == 1 && |LegalMoves(b, c)| == 0
  }

  /** `is_king_in_stalemate` on an explored position: not in check and no legal move. */
  predicate Stalemated(b: Board, c: Color)
    requires ValidBoard(b) && IsColor(c)
  {
    CheckStatus(b, c) == 0 && |LegalMoves(b, c)| == 0
  }

  /** With no king of the side to move, the position is neither checkmate nor stalemate. */
  lemma MissingKingIsNeither(b: Board, c: Color)
    requires ValidBoard(b) && IsColor(c) && MakePiece(c, UNCOLORED_KING) !in b
    ensures !Checkmated(b, c) && !Stalemated(b, c)
  {
    CheckStatusNoKing(b, c);
  }

  /** `position_static_val` as a value. */
  function StaticValue(b: Board, c: Color): (r: EvalResult)
    requires ValidBoard(b) && IsColor(c)
  {
    if Checkmated(b, c) then
      EvalResult(0, if c == COLOR_WHITE then WinnerBlack else WinnerWhite, false)
    else if Stalemated(b, c) then EvalResult(0, WinnerUndecided, true)
    else EvalResult(Material(b), WinnerUndecided, false)
  }

  /**
   * The static value: a checkmate is won by the side NOT to move, which
   * makes it the extreme of the comparator; a stalemate is a draw of value
   * 0; otherwise the verdict is open and the value is the material balance.
   */
  lemma StaticValueMeaning(b: Board, c: Color, x: EvalResult)
    requires ValidBoard(b) && IsColor(c)
    ensures var r := StaticValue(b, c);
      && (r.winner == WinnerWhite <==> Checkmated(b, c) && c == COLOR_BLACK)
      && (r.winner == WinnerBlack <==> Checkmated(b, c) && c == COLOR_WHITE)
      && (r.isDraw <==> Stalemated(b, c))
      && (r.winner == WinnerUndecided && !r.isDraw ==> r.val == Material(b))
      && (Checkmated(b, c) && c == COLOR_WHITE ==> CmpEvalResults(x, r) <= 0)
      && (Checkmated(b, c) && c == COLOR_BLACK ==> CmpEvalResults(r, x) <= 0)
  {
  }

  /** The result `qsort` puts first: one that no other result beats for White. */
  function BestForWhite(rs: seq<EvalResult>): (r: EvalResult)
    requires |rs| > 0
    ensures r in rs
    ensures forall j :: 0 <= j < |rs| ==> CmpEvalResults(r, rs[j]) <= 0
  {
    if |rs| == 1 then rs[0]
    else
      var r := BestForWhite(rs[..|rs| - 1]);
      assert forall j :: 0 <= j < |rs| - 1 ==> rs[j] == rs[..|rs| - 1][j];
      if CmpEvalResults(rs[|rs| - 1], r) < 0 then rs[|rs| - 1] else r
  }

  /** The result `qsort` puts last: one that beats no other result for White. */
  function BestForBlack(rs: seq<EvalResult>): (r: EvalResult)
    requires |rs| > 0
    ensures r in rs
    ensures forall j :: 0 <= j < |rs| ==> CmpEvalResults(rs[j], r) <= 0
  {
    if |rs| == 1 then rs[0]
    else
      var r := BestForBlack(rs[..|rs| - 1]);
      assert forall j :: 0 <= j < |rs| - 1 ==> rs[j] == rs[..|rs| - 1][j];
      if CmpEvalResults(r, rs[|rs| - 1]) < 0 then rs[|rs| - 1] else r
  }

  /** The pick of `position_val_at_ply`: the first sorted result for White, the last otherwise. */
  function Pick(c: Color, rs: seq<EvalResult>): EvalResult
    requires |rs| > 0
  {
    if c == COLOR_WHITE then BestForWhite(rs) else BestForBlack(rs)
  }

  /** A result of `rs` that none of `rs` beats for the side `c`. */
  predicate ExtremalFor(c: Color, r: EvalResult, rs: seq<EvalResult>) {
    r in rs
    && if c == COLOR_WHITE then forall j :: 0 <= j < |rs| ==> CmpEvalResults(r, rs[j]) <= 0
       else forall j :: 0 <= j < |rs| ==> CmpEvalResults(rs[j], r) <= 0
  }

  /**
   * Whichever extremal element a sort yields, and whatever equivalent
   * results it is given, the pick is the same up to equivalence.
   */
  lemma ExtremalUnique(c: Color, r: EvalResult, rs: seq<EvalResult>, s: EvalResult, ss: seq<EvalResult>)
    requires |rs| == |ss| && forall j :: 0 <= j < |rs| ==> Equiv(rs[j], ss[j])
    requires ExtremalFor(c, r, rs) && ExtremalFor(c, s, ss)
    ensures Equiv(r, s)
  {
    var i :| 0 <= i < |rs| && rs[i] == r;
    var k :| 0 <= k < |ss| && ss[k] == s;
    if c == COLOR_WHITE {
      assert CmpEvalResults(r, rs[k]) <= 0 && CmpEvalResults(s, ss[i]) <= 0;
    } else {
      assert CmpEvalResults(rs[k], r) <= 0 && CmpEvalResults(ss[i], s) <= 0;
    }
  }

  /** The board after the `i`-th legal move. */
  function ChildBoard(b: Board, c: Color, i: nat): (d: Board)
    requires ValidBoard(b) && IsColor(c) && i < |LegalMoves(b, c)|
    ensures ValidBoard(d)
  {
    LegalMovesKeepKingSafe(b, c, i);
    ApplyMove(b, LegalMoves(b, c)[i].0, LegalMoves(b, c)[i].1)
  }

  /** A node that `position_val_at_ply` evaluates statically. */
  predicate Terminal(b: Board, c: Color, ply: nat)
    requires ValidBoard(b) && IsColor(c)
  {
    ply == 0 || Checkmated(b, c) || Stalemated(b, c)
  }

  /**
   * The search is defined on this tree: every non-terminal node has a legal
   * move. (A non-terminal node without one has no king of the side to move;
   * there the source reads outside its zero-length result array.)
   */
  predicate WellDefined(b: Board, c: Color, ply: nat)
    requires ValidBoard(b) && IsColor(c)
    decreases ply
  {
    Terminal(b, c, ply)
    || (|LegalMoves(b, c)| > 0
        && forall i :: 0 <= i < |LegalMoves(b, c)| ==> WellDefined(ChildBoard(b, c, i), ToggledColor(c), ply - 1))
  }

  /**
   * Some node of the tree searched from `b` to depth `ply` that is valued
   * through its children has exactly `n` legal moves.
   */
  ghost predicate BranchingIn(b: Board, c: Color, ply: nat, n: nat)
    requires ValidBoard(b) && IsColor(c)
    decreases ply
  {
    && !Terminal(b, c, ply)
    && (|| n == |LegalMoves(b, c)|
        || exists i :: 0 <= i < |LegalMoves(b, c)| && BranchingIn(ChildBoard(b, c, i), ToggledColor(c), ply - 1, n))
  }

  /** `position_val_at_ply` as a value. */
  function Value(b: Board, c: Color, ply: nat): EvalResult
    requires ValidBoard(b) && IsColor(c) && WellDefined(b, c, ply)
    decreases ply, 1
  {
    if Terminal(b, c, ply) then StaticValue(b, c)
    else Pick(c, ChildValues(b, c, ply))
  }

  /** The values of the children, one ply shallower, in move order. */
  function ChildValues(b: Board, c: Color, ply: nat): (vs: seq<EvalResult>)
    requires ValidBoard(b) && IsColor(c) && !Terminal(b, c, ply) && WellDefined(b, c, ply)
    ensures |vs| == |LegalMoves(b, c)|
    ensures forall i :: 0 <= i < |vs| ==> vs[i] == Value(ChildBoard(b, c, i), ToggledColor(c), ply - 1)
    decreases ply, 0
  {
    seq(|LegalMoves(b, c)|, i requires 0 <= i < |LegalMoves(b, c)| => Value(ChildBoard(b, c, i), ToggledColor(c), ply - 1))
  }

  /**
   * Minimax: at depth 0 or at a checkmate or stalemate the value is the
   * static one; otherwise it is the value of one of the children, and no
   * child is better for the side to move (White maximises, Black minimises
   * in the comparator's order).
   */
  lemma Minimax(b: Board, c: Color, ply: nat)
    requires ValidBoard(b) && IsColor(c) && WellDefined(b, c, ply)
    ensures Terminal(b, c, ply) ==> Value(b, c, ply) == StaticValue(b, c)
    ensures !Terminal(b, c, ply) ==> |LegalMoves(b, c)| > 0 && ExtremalFor(c, Value(b, c, ply), ChildValues(b, c, ply))
  {
    if !Terminal(b, c, ply) {
      var vs := ChildValues(b, c, ply);
      if c == COLOR_WHITE {
        assert Value(b, c, ply) == BestForWhite(vs);
      } else {
        assert Value(b, c, ply) == BestForBlack(vs);
      }
    }
  }
}
