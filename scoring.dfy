/** The heuristic: Manhattan distance scaled by the orthogonal move cost. */
module Scoring {
  import opened Grid

  /** Integer absolute value, standing for `fabs` on the small integer
      differences the source feeds it. */
  function Abs(x: int): (r: int)
    ensures r >= 0 && (r == x || r == -x)
  {
    if x < 0 then -x else x
  }

  function HeuristicDistance(p: Coord, t: Coord): (r: int)
    ensures r >= 0
    ensures r == 0 <==> p == t
    ensures r % HorizontalMove == 0
  {
    (Abs(p.0 - t.0) + Abs(p.1 - t.1)) * HorizontalMove
  }

  lemma HeuristicSymmetric(p: Coord, t: Coord)
    ensures HeuristicDistance(p, t) == HeuristicDistance(t, p)
  {
  }

  /** One orthogonal step changes the heuristic by exactly the move cost,
      one diagonal step by at most twice the orthogonal cost. */
  lemma HeuristicStep(p: Coord, d: Direction, t: Coord)
    ensures
      var delta := HeuristicDistance(Neighbor(p, d), t) - HeuristicDistance(p, t);
      if d.IsDiagonal() then -2 * HorizontalMove <= delta <= 2 * HorizontalMove
      else delta == HorizontalMove || delta == -HorizontalMove
  {
  }

  /** The heuristic overestimates a diagonal step: from (0, 0) to (1, 1)
      it says 20 while the step costs 14, so it is not admissible under the
      eight-direction cost model. */
  lemma HeuristicOverestimatesDiagonal()
    ensures HeuristicDistance((0, 0), (1, 1)) == 2 * HorizontalMove
    ensures StepCost((0, 0), (1, 1)) == DiagonalMove < HeuristicDistance((0, 0), (1, 1))
  {
  }
}
