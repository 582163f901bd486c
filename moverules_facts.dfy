/**
 * Properties of the move-generation rules: the geometry of a direction
 * walk, the legality filter, and the membership of the full legal-move
 * list in both directions.
 */
module MoveRulesFacts {
  import opened Options
  import opened Pieces
  import opened Geometry
  import opened Boards
  import opened Attacks
  import opened MoveRules

  /** Reference reading of a walk target `k` steps out: every earlier square empty, the target free or an enemy. */
  ghost predicate WalkReaches(b: Board, own: Color, sq: Sq, d: Dir, budget: nat, moveToEmpty: bool, captures: bool, k: nat) {
    && 1 <= k <= budget
    && (forall j {:trigger StepN(sq, d, j)} :: 1 <= j <= k ==> OnBoard(StepN(sq, d, j)))
    && (forall j {:trigger StepN(sq, d, j)} :: 1 <= j < k ==> At(b, StepN(sq, d, j)) == PIECE_EMPTY)
    && (k > 1 ==> moveToEmpty)
    && var t := StepN(sq, d, k);
       if At(b, t) == PIECE_EMPTY then moveToEmpty else PieceColor(At(b, t)) != own && captures
  }

  /** A walk of two or more targets starts on an empty square and carries on from there. */
  lemma WalkCons(b: Board, own: Color, sq: Sq, d: Dir, budget: nat, e: bool, c: bool)
    requires |Walk(b, own, sq, d, budget, e, c)| >= 2
    ensures budget >= 1 && e
    ensures OnBoard(Step(sq, d)) && At(b, Step(sq, d)) == PIECE_EMPTY
    ensures Walk(b, own, sq, d, budget, e, c) == [Step(sq, d)] + Walk(b, own, Step(sq, d), d, budget - 1, e, c)
  {
  }

  /** The first target of a walk is the neighbouring square, reachable in the reference sense. */
  lemma WalkFirst(b: Board, own: Color, sq: Sq, d: Dir, budget: nat, e: bool, c: bool)
    requires |Walk(b, own, sq, d, budget, e, c)| >= 1
    ensures Walk(b, own, sq, d, budget, e, c)[0] == StepN(sq, d, 1)
    ensures WalkReaches(b, own, sq, d, budget, e, c, 1)
    ensures At(b, StepN(sq, d, 1)) != PIECE_EMPTY ==> |Walk(b, own, sq, d, budget, e, c)| == 1
  {
    assert StepN(sq, d, 1) == Step(sq, d);
  }

  /** Each target of a walk lies `i + 1` steps out and is reachable in the reference sense; only the last may be occupied. */
  lemma {:induction false} WalkSound(b: Board, own: Color, sq: Sq, d: Dir, budget: nat, e: bool, c: bool, i: nat)
    requires i < |Walk(b, own, sq, d, budget, e, c)|
    ensures Walk(b, own, sq, d, budget, e, c)[i] == StepN(sq, d, i + 1)
    ensures WalkReaches(b, own, sq, d, budget, e, c, i + 1)
    ensures At(b, StepN(sq, d, i + 1)) != PIECE_EMPTY ==> i == |Walk(b, own, sq, d, budget, e, c)| - 1
    decreases budget
  {
    if i == 0 {
      WalkFirst(b, own, sq, d, budget, e, c);
    } else {
      var next := Step(sq, d);
      WalkCons(b, own, sq, d, budget, e, c);
      WalkSound(b, own, next, d, budget - 1, e, c, i - 1);
      assert StepN(sq, d, 1) == next;
      forall j | 1 <= j <= i + 1
        ensures OnBoard(StepN(sq, d, j)) && (j < i + 1 ==> At(b, StepN(sq, d, j)) == PIECE_EMPTY)
      {
        if j > 1 { assert StepN(sq, d, j) == StepN(next, d, j - 1); }
      }
    }
  }

  /** Every square reachable in the reference sense is a target of the walk, at position `k - 1`. */
  lemma {:induction false} WalkComplete(b: Board, own: Color, sq: Sq, d: Dir, budget: nat, e: bool, c: bool, k: nat)
    requires WalkReaches(b, own, sq, d, budget, e, c, k)
    ensures k <= |Walk(b, own, sq, d, budget, e, c)|
    ensures Walk(b, own, sq, d, budget, e, c)[k - 1] == StepN(sq, d, k)
    decreases k
  {
    var next := Step(sq, d);
    assert StepN(sq, d, 1) == next;
    if k > 1 {
      assert OnBoard(next) && At(b, next) == PIECE_EMPTY;
      forall j | 1 <= j <= k - 1
        ensures OnBoard(StepN(next, d, j)) && (j < k - 1 ==> At(b, StepN(next, d, j)) == PIECE_EMPTY)
      {
        assert StepN(sq, d, j + 1) == StepN(next, d, j);
      }
      assert StepN(sq, d, k) == StepN(next, d, k - 1);
      WalkComplete(b, own, next, d, budget - 1, e, c, k - 1);
    }
  }

  /** A square is a walk target exactly when the reference reading reaches it. */
  lemma WalkIff(b: Board, own: Color, sq: Sq, d: Dir, budget: nat, e: bool, c: bool, t: Sq)
    ensures t in Walk(b, own, sq, d, budget, e, c) <==> exists k: nat :: WalkReaches(b, own, sq, d, budget, e, c, k) && t == StepN(sq, d, k)
  {
    var w := Walk(b, own, sq, d, budget, e, c);
    if t in w {
      var i :| 0 <= i < |w| && w[i] == t;
      WalkSound(b, own, sq, d, budget, e, c, i);
    }
    if exists k: nat :: WalkReaches(b, own, sq, d, budget, e, c, k) && t == StepN(sq, d, k) {
      var k: nat :| WalkReaches(b, own, sq, d, budget, e, c, k) && t == StepN(sq, d, k);
      WalkComplete(b, own, sq, d, budget, e, c, k);
    }
  }

  /**
   * Generator bounds: no walk target holds a piece of the mover's colour,
   * a walk without quiet moves only captures, and one without captures
   * only lands on empty squares.
   */
  lemma WalkTargets(b: Board, own: Color, sq: Sq, d: Dir, budget: nat, e: bool, c: bool, t: Sq)
    requires t in Walk(b, own, sq, d, budget, e, c)
    ensures OnBoard(t)
    ensures At(b, t) == PIECE_EMPTY || PieceColor(At(b, t)) != own
    ensures At(b, t) == PIECE_EMPTY ==> e
    ensures At(b, t) != PIECE_EMPTY ==> c
    ensures !e ==> t == Step(sq, d)
  {
    WalkIff(b, own, sq, d, budget, e, c, t);
    var k: nat :| WalkReaches(b, own, sq, d, budget, e, c, k) && t == StepN(sq, d, k);
    if !e {
      assert k == 1;
      assert StepN(sq, d, 1) == Step(sq, d);
    }
  }

  /** The filter keeps exactly the targets that pass, each paired with `from`. */
  lemma {:induction false} KeepPairsIff(from: Sq, ts: seq<Sq>, keep: Sq -> bool, m: (Sq, Sq))
    ensures m in KeepPairs(from, ts, keep) <==> m.0 == from && m.1 in ts && keep(m.1)
  {
    if ts != [] {
      KeepPairsIff(from, ts[1..], keep, m);
      assert ts == [ts[0]] + ts[1..];
    }
  }

  /** Filtering a concatenation filters each part. */
  lemma {:induction false} KeepPairsAppend(from: Sq, xs: seq<Sq>, ys: seq<Sq>, keep: Sq -> bool)
    ensures KeepPairs(from, xs + ys, keep) == KeepPairs(from, xs, keep) + KeepPairs(from, ys, keep)
  {
    if xs != [] {
      assert (xs + ys)[0] == xs[0] && (xs + ys)[1..] == xs[1..] + ys;
      KeepPairsAppend(from, xs[1..], ys, keep);
    } else {
      assert xs + ys == ys;
    }
  }

  /** The filter on a single target keeps its move exactly when the move is legal. */
  lemma LegalPairsOne(b: Board, active: Color, from: Sq, t: Sq)
    requires OnBoard(from) && OnBoard(t)
    ensures LegalPairs(b, active, from, [t]) == if Legal(b, active, from, t) then [(from, t)] else []
  {
    var keep := LegalTest(b, active, from);
    assert [t][1..] == [];
    assert KeepPairs(from, [t], keep) == (if keep(t) then [(from, t)] else []) + KeepPairs(from, [], keep);
  }

  /** Walking one more target extends the filtered list by the filter on that target. */
  lemma LegalPairsSnoc(b: Board, active: Color, from: Sq, ts: seq<Sq>, t: Sq)
    ensures LegalPairs(b, active, from, ts + [t]) == LegalPairs(b, active, from, ts) + LegalPairs(b, active, from, [t])
  {
    KeepPairsAppend(from, ts, [t], LegalTest(b, active, from));
  }

  /** The pseudo-legal targets of one pass over `dirs`. */
  function DirsCandidates(b: Board, own: Color, sq0: Sq, rule: PassRule, dirs: seq<Dir>): (ts: seq<Sq>)
    ensures forall i :: 0 <= i < |ts| ==> OnBoard(ts[i])
  {
    if dirs == [] then []
    else DirsCandidates(b, own, sq0, rule, dirs[..|dirs| - 1]) + PassWalk(b, own, sq0, rule, dirs[|dirs| - 1])
  }

  /** The pseudo-legal targets of the passes `rules`. */
  function RulesCandidates(b: Board, own: Color, sq0: Sq, rules: seq<PassRule>): (ts: seq<Sq>)
    ensures forall i :: 0 <= i < |ts| ==> OnBoard(ts[i])
  {
    if rules == [] then []
    else RulesCandidates(b, own, sq0, rules[..|rules| - 1]) + DirsCandidates(b, own, sq0, rules[|rules| - 1], rules[|rules| - 1].dirs)
  }

  /** The pseudo-legal targets of `piece` on `sq0`. */
  function Candidates(b: Board, sq0: Sq, piece: Piece): seq<Sq>
    requires ValidPiece(piece) && piece != PIECE_EMPTY
  {
    RulesCandidates(b, PieceColor(piece), sq0, PassRules(piece, sq0))
  }

  /** The generator's output is the legality filter applied to the pseudo-legal targets. */
  lemma {:induction false} DirsMovesFilter(b: Board, active: Color, own: Color, sq0: Sq, rule: PassRule, dirs: seq<Dir>)
    requires OnBoard(sq0)
    ensures DirsMoves(b, active, own, sq0, rule, dirs) == LegalPairs(b, active, sq0, DirsCandidates(b, own, sq0, rule, dirs))
  {
    if dirs != [] {
      DirsMovesFilter(b, active, own, sq0, rule, dirs[..|dirs| - 1]);
      KeepPairsAppend(sq0, DirsCandidates(b, own, sq0, rule, dirs[..|dirs| - 1]), PassWalk(b, own, sq0, rule, dirs[|dirs| - 1]), LegalTest(b, active, sq0));
    }
  }

  lemma {:induction false} RulesMovesFilter(b: Board, active: Color, own: Color, sq0: Sq, rules: seq<PassRule>)
    requires OnBoard(sq0)
    ensures RulesMoves(b, active, own, sq0, rules) == LegalPairs(b, active, sq0, RulesCandidates(b, own, sq0, rules))
  {
    if rules != [] {
      var last := rules[|rules| - 1];
      RulesMovesFilter(b, active, own, sq0, rules[..|rules| - 1]);
      DirsMovesFilter(b, active, own, sq0, last, last.dirs);
      KeepPairsAppend(sq0, RulesCandidates(b, own, sq0, rules[..|rules| - 1]), DirsCandidates(b, own, sq0, last, last.dirs), LegalTest(b, active, sq0));
    }
  }

  /** A move of `piece` is generated exactly when its target is a pseudo-legal candidate that passes the filter. */
  lemma PieceMovesIff(b: Board, active: Color, sq0: Sq, piece: Piece, m: (Sq, Sq))
    requires OnBoard(sq0) && ValidPiece(piece) && piece != PIECE_EMPTY
    ensures m in PieceMoves(b, active, sq0, piece) <==>
      m.0 == sq0 && m.1 in Candidates(b, sq0, piece) && Legal(b, active, sq0, m.1)
  {
    RulesMovesFilter(b, active, PieceColor(piece), sq0, PassRules(piece, sq0));
    KeepPairsIff(sq0, Candidates(b, sq0, piece), LegalTest(b, active, sq0), m);
  }

  /** Membership of the first `n` cells' moves. */
  lemma {:induction false} MovesUpToIff(b: Board, c: Color, n: nat, m: (Sq, Sq))
    requires ValidBoard(b) && IsColor(c) && n <= 64
    ensures m in MovesUpTo(b, c, n) <==>
      && OnBoard(m.0) && Idx(m.0) < n
      && PieceColor(At(b, m.0)) == c
      && m.1 in Candidates(b, m.0, At(b, m.0))
      && Legal(b, c, m.0, m.1)
  {
    if n > 0 {
      MovesUpToIff(b, c, n - 1, m);
      var sq := SqAt(n - 1);
      if PieceColor(b[n - 1]) == c {
        PieceMovesIff(b, c, sq, b[n - 1], m);
      }
      if OnBoard(m.0) && Idx(m.0) == n - 1 {
        IdxInjective(m.0, sq);
      }
    }
  }

  /**
   * The legal-move list holds exactly the moves of a piece of the side to
   * move to a pseudo-legal target after which its king is not reported in check.
   */
  lemma LegalMovesIff(b: Board, c: Color, m: (Sq, Sq))
    requires ValidBoard(b) && IsColor(c)
    ensures m in LegalMoves(b, c) <==>
      && OnBoard(m.0)
      && PieceColor(At(b, m.0)) == c
      && m.1 in Candidates(b, m.0, At(b, m.0))
      && CheckStatus(ApplyMove(b, m.0, m.1), c) != 1
  {
    MovesUpToIff(b, c, |b|, m);
  }

  /** Every generated move leaves the mover's own king not in check (a missing king counts as not in check). */
  lemma LegalMovesKeepKingSafe(b: Board, c: Color, i: nat)
    requires ValidBoard(b) && IsColor(c) && i < |LegalMoves(b, c)|
    ensures OnBoard(LegalMoves(b, c)[i].0) && OnBoard(LegalMoves(b, c)[i].1)
    ensures CheckStatus(ApplyMove(b, LegalMoves(b, c)[i].0, LegalMoves(b, c)[i].1), c) != 1
  {
    LegalMovesIff(b, c, LegalMoves(b, c)[i]);
  }

  /** A target of a pass is a target of the walk along one of its directions. */
  lemma {:induction false} DirsCandidatesIff(b: Board, own: Color, sq0: Sq, rule: PassRule, dirs: seq<Dir>, t: Sq)
    ensures t in DirsCandidates(b, own, sq0, rule, dirs) <==>
      exists i :: 0 <= i < |dirs| && t in PassWalk(b, own, sq0, rule, dirs[i])
  {
    if dirs != [] {
      var init := dirs[..|dirs| - 1];
      DirsCandidatesIff(b, own, sq0, rule, init, t);
      if exists i :: 0 <= i < |dirs| && t in PassWalk(b, own, sq0, rule, dirs[i]) {
        var i :| 0 <= i < |dirs| && t in PassWalk(b, own, sq0, rule, dirs[i]);
        if i < |dirs| - 1 {
          assert dirs[i] == init[i];
        }
      }
    }
  }

  /** A one-step walk reaches the neighbouring square when it is on the board and free of the mover's pieces. */
  lemma OneStepWalk(b: Board, own: Color, sq: Sq, d: Dir, t: Sq)
    ensures t in Walk(b, own, sq, d, 1, true, true) <==>
      t == Step(sq, d) && OnBoard(t) && (At(b, t) == PIECE_EMPTY || PieceColor(At(b, t)) != own)
  {
    assert Walk(b, own, Step(sq, d), d, 0, true, true) == [];
  }

  /** A king or a knight has one pass of single steps. */
  lemma LeaperRules(piece: Piece, sq0: Sq)
    requires ValidPiece(piece) && piece != PIECE_EMPTY
    requires PieceAsWhite(piece) == K_WHITE || PieceAsWhite(piece) == N_WHITE
    ensures PassRules(piece, sq0) == [PassRule(if PieceAsWhite(piece) == K_WHITE then KING_DIRS else KNIGHT_DIRS, true, true, 1)]
  {
  }

  /** The targets of a single pass. */
  lemma OnePass(b: Board, own: Color, sq0: Sq, p: PassRule)
    ensures RulesCandidates(b, own, sq0, [p]) == DirsCandidates(b, own, sq0, p, p.dirs)
  {
    assert [p][..0] == [];
  }

  /** King and knight travel exactly one step of their table, onto a square not held by their own side. */
  lemma LeaperCandidates(b: Board, sq0: Sq, piece: Piece, t: Sq)
    requires ValidPiece(piece) && piece != PIECE_EMPTY
    requires PieceAsWhite(piece) == K_WHITE || PieceAsWhite(piece) == N_WHITE
    ensures var dirs := if PieceAsWhite(piece) == K_WHITE then KING_DIRS else KNIGHT_DIRS;
      t in Candidates(b, sq0, piece) <==>
        && (exists i :: 0 <= i < |dirs| && t == Step(sq0, dirs[i]))
        && OnBoard(t)
        && (At(b, t) == PIECE_EMPTY || PieceColor(At(b, t)) != PieceColor(piece))
  {
    var own := PieceColor(piece);
    var dirs := if PieceAsWhite(piece) == K_WHITE then KING_DIRS else KNIGHT_DIRS;
    var rule := PassRule(dirs, true, true, 1);
    LeaperRules(piece, sq0);
    OnePass(b, own, sq0, rule);
    DirsCandidatesIff(b, own, sq0, rule, dirs, t);
    forall i | 0 <= i < |dirs|
      ensures t in PassWalk(b, own, sq0, rule, dirs[i]) <==>
        t == Step(sq0, dirs[i]) && OnBoard(t) && (At(b, t) == PIECE_EMPTY || PieceColor(At(b, t)) != own)
    {
      OneStepWalk(b, own, sq0, dirs[i], t);
    }
  }

  /** A sliding piece reaches, along each of its directions, every square up to and including the first occupied one unless that holds its own piece. */
  lemma SliderCandidates(b: Board, sq0: Sq, piece: Piece, t: Sq)
    requires ValidPiece(piece) && piece != PIECE_EMPTY
    requires PieceAsWhite(piece) == R_WHITE || PieceAsWhite(piece) == B_WHITE || PieceAsWhite(piece) == Q_WHITE
    ensures var dirs := if PieceAsWhite(piece) == R_WHITE then ROOK_DIRS else if PieceAsWhite(piece) == B_WHITE then BISHOP_DIRS else QUEEN_DIRS;
      t in Candidates(b, sq0, piece) <==>
        exists i, k: nat :: 0 <= i < |dirs| && WalkReaches(b, PieceColor(piece), sq0, dirs[i], SLIDER_DISTANCE, true, true, k) && t == StepN(sq0, dirs[i], k)
  {
    var own := PieceColor(piece);
    var rules := PassRules(piece, sq0);
    var rule := rules[0];
    assert rules == [rule];
    var dirs := rule.dirs;
    assert RulesCandidates(b, own, sq0, rules) == DirsCandidates(b, own, sq0, rule, dirs) by {
      assert rules[..0] == [];
    }
    DirsCandidatesIff(b, own, sq0, rule, dirs, t);
    forall i | 0 <= i < |dirs|
      ensures t in PassWalk(b, own, sq0, rule, dirs[i]) <==>
        exists k: nat :: WalkReaches(b, own, sq0, dirs[i], SLIDER_DISTANCE, true, true, k) && t == StepN(sq0, dirs[i], k)
    {
      WalkIff(b, own, sq0, dirs[i], SLIDER_DISTANCE, true, true, t);
    }
  }

  /** The square straight ahead of a pawn of colour `c`. */
  function PawnForward(c: Color): Dir {
    if c == COLOR_WHITE then U else D
  }

  /** The rank from which a pawn of colour `c` may advance two squares. */
  function PawnHomeRank(c: Color): int {
    if c == COLOR_WHITE then 1 else 6
  }

  /** The quiet pass of a pawn: one step onto an empty square, a second one when the budget allows. */
  lemma PawnQuietWalk(b: Board, c: Color, sq0: Sq, fwd: Dir, budget: nat, t: Sq)
    requires budget == 1 || budget == 2
    ensures t in Walk(b, c, sq0, fwd, budget, true, false) <==>
      || (t == Step(sq0, fwd) && OnBoard(t) && At(b, t) == PIECE_EMPTY)
      || (budget == 2 && OnBoard(Step(sq0, fwd)) && At(b, Step(sq0, fwd)) == PIECE_EMPTY
          && t == Step(Step(sq0, fwd), fwd) && OnBoard(t) && At(b, t) == PIECE_EMPTY)
  {
    var s1 := Step(sq0, fwd);
    var s2 := Step(s1, fwd);
    assert Walk(b, c, s1, fwd, 0, true, false) == [];
    assert Walk(b, c, s2, fwd, 0, true, false) == [];
  }

  /** The capture pass of a pawn along `d`: one step onto an enemy piece. */
  lemma PawnCaptureWalk(b: Board, c: Color, sq0: Sq, d: Dir, t: Sq)
    ensures t in Walk(b, c, sq0, d, 1, false, true) <==>
      t == Step(sq0, d) && OnBoard(t) && At(b, t) != PIECE_EMPTY && PieceColor(At(b, t)) != c
  {
    assert Walk(b, c, Step(sq0, d), d, 0, false, true) == [];
  }

  /** The two passes of a pawn of colour `c` on `sq0`. */
  lemma PawnRules(piece: Piece, sq0: Sq)
    requires ValidPiece(piece) && PieceAsWhite(piece) == P_WHITE
    ensures var c := PieceColor(piece);
      PassRules(piece, sq0) == [
        PassRule([PawnForward(c)], true, false, if sq0.r == PawnHomeRank(c) then 2 else 1),
        PassRule(if c == COLOR_WHITE then WHITE_PAWN_CAPTURE_DIRS else BLACK_PAWN_CAPTURE_DIRS, false, true, 1) ]
  {
  }

  /** The targets of two passes are those of the first followed by those of the second. */
  lemma TwoPasses(b: Board, own: Color, sq0: Sq, p1: PassRule, p2: PassRule)
    ensures RulesCandidates(b, own, sq0, [p1, p2])
      == DirsCandidates(b, own, sq0, p1, p1.dirs) + DirsCandidates(b, own, sq0, p2, p2.dirs)
  {
    assert [p1, p2][..1] == [p1];
    assert [p1][..0] == [];
    assert RulesCandidates(b, own, sq0, [p1]) == [] + DirsCandidates(b, own, sq0, p1, p1.dirs);
  }

  /** The quiet pass of a pawn reaches one empty square ahead, or two from the home rank. */
  lemma PawnQuietPass(b: Board, c: Color, sq0: Sq, quiet: PassRule, t: Sq)
    requires OnBoard(sq0) && IsColor(c)
    requires quiet == PassRule([PawnForward(c)], true, false, if sq0.r == PawnHomeRank(c) then 2 else 1)
    ensures var fwd := PawnForward(c);
      t in DirsCandidates(b, c, sq0, quiet, quiet.dirs) <==>
        || (t == Step(sq0, fwd) && OnBoard(t) && At(b, t) == PIECE_EMPTY)
        || (sq0.r == PawnHomeRank(c) && t == Step(Step(sq0, fwd), fwd)
            && At(b, Step(sq0, fwd)) == PIECE_EMPTY && At(b, t) == PIECE_EMPTY)
  {
    var fwd := PawnForward(c);
    DirsCandidatesIff(b, c, sq0, quiet, quiet.dirs, t);
    PawnQuietWalk(b, c, sq0, fwd, quiet.maxDistance, t);
    if sq0.r == PawnHomeRank(c) {
      assert OnBoard(Step(sq0, fwd)) && OnBoard(Step(Step(sq0, fwd), fwd));
    }
  }

  /** The capture pass of a pawn reaches a forward-diagonal square holding an enemy piece. */
  lemma PawnCapturePass(b: Board, c: Color, sq0: Sq, capture: PassRule, t: Sq)
    requires capture.dirs == (if c == COLOR_WHITE then WHITE_PAWN_CAPTURE_DIRS else BLACK_PAWN_CAPTURE_DIRS)
    requires !capture.moveToEmptyAllowed && capture.capturesAllowed && capture.maxDistance == 1
    ensures t in DirsCandidates(b, c, sq0, capture, capture.dirs) <==>
      (t == Step(sq0, capture.dirs[0]) || t == Step(sq0, capture.dirs[1]))
      && OnBoard(t) && At(b, t) != PIECE_EMPTY && PieceColor(At(b, t)) != c
  {
    DirsCandidatesIff(b, c, sq0, capture, capture.dirs, t);
    PawnCaptureWalk(b, c, sq0, capture.dirs[0], t);
    PawnCaptureWalk(b, c, sq0, capture.dirs[1], t);
  }

  /**
   * The pawn rule: one empty square ahead; two empty squares ahead from
   * the home rank; a diagonal step forward onto an enemy piece. No other
   * target, in particular no capture straight ahead and no promotion.
   */
  lemma PawnCandidates(b: Board, sq0: Sq, piece: Piece, t: Sq)
    requires ValidPiece(piece) && PieceAsWhite(piece) == P_WHITE && OnBoard(sq0)
    ensures var c := PieceColor(piece);
      var fwd := PawnForward(c);
      var caps := if c == COLOR_WHITE then WHITE_PAWN_CAPTURE_DIRS else BLACK_PAWN_CAPTURE_DIRS;
      t in Candidates(b, sq0, piece) <==>
        || (t == Step(sq0, fwd) && OnBoard(t) && At(b, t) == PIECE_EMPTY)
        || (sq0.r == PawnHomeRank(c) && t == Step(Step(sq0, fwd), fwd)
            && At(b, Step(sq0, fwd)) == PIECE_EMPTY && At(b, t) == PIECE_EMPTY)
        || ((t == Step(sq0, caps[0]) || t == Step(sq0, caps[1]))
            && OnBoard(t) && At(b, t) != PIECE_EMPTY && PieceColor(At(b, t)) != c)
  {
    var c := PieceColor(piece);
    PawnRules(piece, sq0);
    var rules := PassRules(piece, sq0);
    TwoPasses(b, c, sq0, rules[0], rules[1]);
    PawnQuietPass(b, c, sq0, rules[0], t);
    PawnCapturePass(b, c, sq0, rules[1], t);
  }

  /** A white king on e1, a black knight on e2 and a black rook on e8. */
  function RayExampleBoard(): Board {
    seq(64, i => if i == 32 then K_WHITE else if i == 33 then N_BLACK else if i == 39 then R_BLACK else PIECE_EMPTY)
  }

  /** The only white king of `RayExampleBoard` stands on e1. */
  lemma RayExampleKing()
    ensures FindPiece(RayExampleBoard(), K_WHITE) == Some(Sq(4, 0))
  {
    var b := RayExampleBoard();
    assert forall i :: 0 <= i < 64 ==> (b[i] == K_WHITE <==> i == 32);
    var found := FindPiece(b, K_WHITE);
    FindPieceFromSpec(b, K_WHITE, 0);
    assert b[32] == K_WHITE;
    assert Idx(found.value) == 32;
    IdxInjective(found.value, Sq(4, 0));
  }

  /** The ray up the e-file from e1 reaches the rook on e8, passing e2 to e7. */
  lemma RayExampleHit()
    ensures RayHits(RayExampleBoard(), COLOR_WHITE, Sq(4, 0), U, 0)
  {
    var b := RayExampleBoard();
    assert b[39] == R_BLACK;
    assert RayHits(b, COLOR_WHITE, Sq(4, 6), U, 6);
    assert b[38] == PIECE_EMPTY;
    assert RayHits(b, COLOR_WHITE, Sq(4, 5), U, 5);
    assert b[37] == PIECE_EMPTY;
    assert RayHits(b, COLOR_WHITE, Sq(4, 4), U, 4);
    assert b[36] == PIECE_EMPTY;
    assert RayHits(b, COLOR_WHITE, Sq(4, 3), U, 3);
    assert b[35] == PIECE_EMPTY;
    assert RayHits(b, COLOR_WHITE, Sq(4, 2), U, 2);
    assert b[34] == PIECE_EMPTY;
    assert RayHits(b, COLOR_WHITE, Sq(4, 1), U, 1);
    assert b[33] == N_BLACK;
  }

  /** No knight leap from e1 lands on the knight of `RayExampleBoard`. */
  lemma RayExampleNoKnight(i: nat)
    requires i < |KNIGHT_DIRS|
    ensures !LeapHits(RayExampleBoard(), COLOR_WHITE, Sq(4, 0), KNIGHT_DIRS[i], UNCOLORED_KNIGHT)
  {
    var t := Step(Sq(4, 0), KNIGHT_DIRS[i]);
    if OnBoard(t) {
      assert Idx(t) != 33;
    }
  }

  /**
   * The check detector as written: on `RayExampleBoard` the knight does not
   * attack e1 and stands between the rook and the king, yet the ray up the
   * e-file passes over it, so the king is reported in check.
   */
  lemma RayPassesOverEnemyPiece()
    ensures At(RayExampleBoard(), Sq(4, 0)) == K_WHITE
    ensures At(RayExampleBoard(), Sq(4, 1)) == N_BLACK && At(RayExampleBoard(), Sq(4, 7)) == R_BLACK
    ensures forall i :: 0 <= i < |KNIGHT_DIRS| ==> !LeapHits(RayExampleBoard(), COLOR_WHITE, Sq(4, 0), KNIGHT_DIRS[i], UNCOLORED_KNIGHT)
    ensures CheckStatus(RayExampleBoard(), COLOR_WHITE) == 1
  {
    RayExampleKing();
    RayExampleHit();
    assert QUEEN_DIRS[0] == U;
    forall i | 0 <= i < |KNIGHT_DIRS|
      ensures !LeapHits(RayExampleBoard(), COLOR_WHITE, Sq(4, 0), KNIGHT_DIRS[i], UNCOLORED_KNIGHT)
    {
      RayExampleNoKnight(i);
    }
  }
}
