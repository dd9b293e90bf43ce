/**
 * The static evaluator used at the search's depth limit: a mobility
 * differential plus a centre-distance differential, both from the point of
 * view of the searching player.
 */
module Heuristic {
  import opened Game

  /** Width of the playable board. */
  const Width := 11
  /** Row stride of the padded grid the cell indices are laid out on. */
  const Stride := Width + 2
  /** The fixed centre cell the distance is measured to. */
  const CenterX := 5
  const CenterY := 4

  function Abs(n: int): (r: nat)
    ensures r == n || r == -n
  {
    if n < 0 then -n else n
  }

  /**
   * Decodes a cell index into (x, y) on the padded grid. For a positive
   * divisor Python's `%` and `//` agree with Dafny's Euclidean `%` and `/`,
   * so this holds for every integer index.
   */
  function Ind2Xy(ind: int): (xy: (int, int))
    ensures 0 <= xy.0 < Stride
    ensures ind == xy.1 * Stride + xy.0
  {
    (ind % Stride, ind / Stride)
  }

  /** Decoding undoes the encoding `y * Stride + x` of every column `x` of the grid. */
  lemma Ind2XyInverse(x: int, y: int)
    requires 0 <= x < Stride
    ensures Ind2Xy(y * Stride + x) == (x, y)
  {
  }

  /** The index of the centre cell. */
  const CenterIndex := CenterY * Stride + CenterX

  /** Manhattan distance of a cell from the centre cell. */
  function DistanceFromTheCenter(loc: int): (d: int)
    ensures d >= 0
    ensures d == 0 <==> loc == CenterIndex
  {
    var xy := Ind2Xy(loc);
    Abs(CenterX - xy.0) + Abs(CenterY - xy.1)
  }

  /** Mobility differential: positive exactly when we have more liberties than the opponent. */
  function ScoreLiberties(own: seq<Action>, opp: seq<Action>): (r: int)
    ensures r > 0 <==> |own| > |opp|
    ensures r == 0 <==> |own| == |opp|
  {
    |own| - |opp|
  }

  /** Centre differential: positive exactly when we stand closer to the centre than the opponent. */
  function ScoreDistanceFromCenter(ownLoc: Action, oppLoc: Action): (r: real)
    ensures r > 0.0 <==> DistanceFromTheCenter(ownLoc) < DistanceFromTheCenter(oppLoc)
    ensures r == 0.0 <==> DistanceFromTheCenter(ownLoc) == DistanceFromTheCenter(oppLoc)
  {
    -(DistanceFromTheCenter(ownLoc) as real / 5.0) + DistanceFromTheCenter(oppLoc) as real / 5.0
  }

  /** The heuristic value of a non-terminal position for player `p`. */
  function Score(t: Tree, p: PlayerId): real
  {
    var own, opp := Of(t.locs, p), Of(t.locs, Opponent(p));
    ScoreLiberties(Of(t.liberties, p), Of(t.liberties, Opponent(p))) as real
      + ScoreDistanceFromCenter(own, opp)
  }

  lemma ScoreLibertiesAntisymmetric(own: seq<Action>, opp: seq<Action>)
    ensures ScoreLiberties(own, opp) == -ScoreLiberties(opp, own)
  {
  }

  lemma ScoreDistanceFromCenterAntisymmetric(ownLoc: Action, oppLoc: Action)
    ensures ScoreDistanceFromCenter(ownLoc, oppLoc) == -ScoreDistanceFromCenter(oppLoc, ownLoc)
  {
  }

  /** The evaluator is zero-sum: the two players score a position with opposite signs. */
  lemma ScoreAntisymmetric(t: Tree, p: PlayerId)
    ensures Score(t, p) == -Score(t, Opponent(p))
  {
  }
}
