/**
 * Squares and the sixteen square-step transforms: four orthogonal and
 * four diagonal unit steps, and eight knight leaps. The source keeps them
 * as function pointers; here they are a closed datatype with (df, dr)
 * offsets, and the pointer-identity tests become the class predicates
 * `IsOrthogonal` and `IsDiagonal`.
 */
module Geometry {

  /** A (file, rank) pair; off-board values occur while walking. */
  datatype Sq = Sq(f: int, r: int)

  predicate OnBoard(sq: Sq) {
    0 <= sq.f < 8 && 0 <= sq.r < 8
  }

  /** One constructor per `apply_dir_*` function. N0 .. N7 are the knight leaps. */
  datatype Dir = U | D | L | R | UR | UL | DR | DL | N0 | N1 | N2 | N3 | N4 | N5 | N6 | N7

  function DeltaF(d: Dir): int {
    match d
    case U => 0 case D => 0 case L => -1 case R => 1
    case UR => 1 case UL => -1 case DR => 1 case DL => -1
    case N0 => 2 case N1 => 1 case N2 => 2 case N3 => 1
    case N4 => -2 case N5 => -1 case N6 => -2 case N7 => -1
  }

  function DeltaR(d: Dir): int {
    match d
    case U => 1 case D => -1 case L => 0 case R => 0
    case UR => 1 case UL => 1 case DR => -1 case DL => -1
    case N0 => 1 case N1 => 2 case N2 => -1 case N3 => -2
    case N4 => 1 case N5 => 2 case N6 => -1 case N7 => -2
  }

  /** Applying a direction to a square. */
  function Step(sq: Sq, d: Dir): Sq {
    Sq(sq.f + DeltaF(d), sq.r + DeltaR(d))
  }

  /** `k` successive steps in direction `d`. */
  function StepN(sq: Sq, d: Dir, k: nat): Sq
    decreases k
  {
    if k == 0 then sq else StepN(Step(sq, d), d, k - 1)
  }

  /** `k` steps in direction `d` move by `k` times its offsets. */
  lemma {:induction false} StepNOffsets(sq: Sq, d: Dir, k: nat)
    ensures StepN(sq, d, k) == Sq(sq.f + k * DeltaF(d), sq.r + k * DeltaR(d))
    decreases k
  {
    if k > 0 {
      StepNOffsets(Step(sq, d), d, k - 1);
    }
  }

  predicate IsOrthogonal(d: Dir) {
    d == U || d == D || d == L || d == R
  }

  predicate IsDiagonal(d: Dir) {
    d == UR || d == UL || d == DR || d == DL
  }

  /** The eight directions a sliding piece or a ray may follow. */
  predicate IsRayDir(d: Dir) {
    IsOrthogonal(d) || IsDiagonal(d)
  }

  /** The direction that undoes `d`. */
  function Opposite(d: Dir): (o: Dir)
    ensures DeltaF(o) == -DeltaF(d) && DeltaR(o) == -DeltaR(d)
  {
    match d
    case U => D case D => U case L => R case R => L
    case UR => DL case DL => UR case UL => DR case DR => UL
    case N0 => N6 case N6 => N0 case N1 => N7 case N7 => N1
    case N2 => N4 case N4 => N2 case N3 => N5 case N5 => N3
  }

  /** Every transform is undone by its opposite, and every opposite pairs back. */
  lemma StepInverse(sq: Sq, d: Dir)
    ensures Step(Step(sq, d), Opposite(d)) == sq
    ensures Opposite(Opposite(d)) == d
  {
  }

  /** The table's geometry: rays are unit steps, the rest are the eight knight leaps. */
  lemma DirectionClasses(d: Dir)
    ensures IsOrthogonal(d) <==> (DeltaF(d) == 0 || DeltaR(d) == 0)
    ensures IsDiagonal(d) <==> (DeltaF(d) * DeltaF(d) == 1 && DeltaR(d) * DeltaR(d) == 1)
    ensures !IsRayDir(d) <==> DeltaF(d) * DeltaF(d) + DeltaR(d) * DeltaR(d) == 5
    ensures IsRayDir(d) ==> -1 <= DeltaF(d) <= 1 && -1 <= DeltaR(d) <= 1 && (DeltaF(d), DeltaR(d)) != (0, 0)
  {
  }

  // The direction tables of src/main.c, in the order the source lists them.
  const ROOK_DIRS: seq<Dir> := [U, D, L, R]
  const BISHOP_DIRS: seq<Dir> := [UR, UL, DR, DL]
  const QUEEN_DIRS: seq<Dir> := [U, D, L, R, UR, UL, DR, DL]
  const KING_DIRS: seq<Dir> := [U, D, L, R, UR, UL, DR, DL]
  const KNIGHT_DIRS: seq<Dir> := [N0, N1, N2, N3, N4, N5, N6, N7]
  const WHITE_PAWN_MOVE_TO_EMPTY_DIRS: seq<Dir> := [U]
  const BLACK_PAWN_MOVE_TO_EMPTY_DIRS: seq<Dir> := [D]
  const WHITE_PAWN_CAPTURE_DIRS: seq<Dir> := [UR, UL]
  const BLACK_PAWN_CAPTURE_DIRS: seq<Dir> := [DR, DL]

  /** Room left on one axis when moving by `dx`: the termination measure of every walk. */
  function Room(x: int, dx: int): int {
    if dx > 0 then 7 - x else if dx < 0 then x else 8
  }

  function EdgeDistance(sq: Sq, d: Dir): int {
    var a := Room(sq.f, DeltaF(d));
    var b := Room(sq.r, DeltaR(d));
    if a <= b then a else b
  }

  /** A step that stays on the board brings the edge closer, by exactly one for a ray. */
  lemma StepTowardsEdge(sq: Sq, d: Dir)
    requires OnBoard(sq) && OnBoard(Step(sq, d))
    ensures 0 <= EdgeDistance(Step(sq, d), d) < EdgeDistance(sq, d)
    ensures IsRayDir(d) ==> EdgeDistance(Step(sq, d), d) == EdgeDistance(sq, d) - 1
  {
  }

  /** Position of a square in the 64-cell placement, `placement[f][r]` laid out file-major. */
  function Idx(sq: Sq): (i: nat)
    requires OnBoard(sq)
    ensures i < 64
  {
    sq.f * 8 + sq.r
  }

  /** The square stored at cell `i`. */
  function SqAt(i: nat): (sq: Sq)
    requires i < 64
    ensures OnBoard(sq) && Idx(sq) == i
  {
    Sq(i / 8, i % 8)
  }

  /** Distinct squares occupy distinct cells. */
  lemma IdxInjective(a: Sq, b: Sq)
    requires OnBoard(a) && OnBoard(b) && Idx(a) == Idx(b)
    ensures a == b
  {
  }

  /** `algf_to_f`: file letter 'a'..'h' to 0..7. */
  function AlgfToF(c: char): int {
    c as int - 97
  }

  /** `algr_to_r`: rank digit '1'..'8' to 0..7. */
  function AlgrToR(c: char): int {
    c as int - 49
  }

  /** `f_to_algf`. */
  function FToAlgf(f: int): char
    requires 0 <= f < 8
  {
    (f + 97) as char
  }

  /** `r_to_algr`. */
  function RToAlgr(r: int): char
    requires 0 <= r < 8
  {
    (r + 49) as char
  }

  /** The conversions between square coordinates and algebraic characters are inverse. */
  lemma AlgebraicRoundTrip(f: int, r: int, cf: char, cr: char)
    requires 0 <= f < 8 && 0 <= r < 8
    requires 'a' <= cf <= 'h' && '1' <= cr <= '8'
    ensures AlgfToF(FToAlgf(f)) == f && AlgrToR(RToAlgr(r)) == r
    ensures 0 <= AlgfToF(cf) < 8 && FToAlgf(AlgfToF(cf)) == cf
    ensures 0 <= AlgrToR(cr) < 8 && RToAlgr(AlgrToR(cr)) == cr
  {
  }
}
