/** The lattice the search runs on: coordinates, entity codes, the eight
    move directions, the move costs, and the bounds rule of neighbour generation. */
module Grid {

  /** A cell coordinate `(x, y)`; `y` grows downwards. */
  type Coord = (int, int)

  // Entity codes stored in `Node.entities` and in the persisted grid file.
  const EmptyCell := 0
  const Player := 1
  const Target := 2
  const Wall := 3
  const PathMark := 4
  const LowestFScoreMark := 5
  const InClosedListMark := 6
  const InOpenListMark := 7

  /** The two A* lists; `Node.listType` is `None` for a node in neither. */
  datatype ListType = OpenList | ClosedList

  const HorizontalMove := 10
  const DiagonalMove := 14

  // Screen and cell sizes; the grid bounds are their quotients.
  const ScreenSizeX := 800
  const ScreenSizeY := 600
  const NodeSize := 20
  const DefaultWidth := ScreenSizeX / NodeSize
  const DefaultHeight := ScreenSizeY / NodeSize

  lemma DefaultBounds()
    ensures DefaultWidth == 40 && DefaultHeight == 30
  {
  }

  /** The eight keys of the neighbour dictionary. */
  datatype Direction =
    | Top | Bottom | Left | Right
    | TopLeft | TopRight | BottomLeft | BottomRight
  {
    function Dx(): int {
      match this
      case Left | TopLeft | BottomLeft => -1
      case Right | TopRight | BottomRight => 1
      case Top | Bottom => 0
    }

    function Dy(): int {
      match this
      case Top | TopLeft | TopRight => -1
      case Bottom | BottomLeft | BottomRight => 1
      case Left | Right => 0
    }

    predicate IsDiagonal() {
      this.TopLeft? || this.TopRight? || this.BottomLeft? || this.BottomRight?
    }

    /** The orthogonal direction sharing this direction's vertical component. */
    function VerticalPart(): Direction {
      if Dy() < 0 then Top else Bottom
    }

    /** The orthogonal direction sharing this direction's horizontal component. */
    function HorizontalPart(): Direction {
      if Dx() < 0 then Left else Right
    }
  }

  function Neighbor(c: Coord, d: Direction): Coord {
    (c.0 + d.Dx(), c.1 + d.Dy())
  }

  /** The cost written into a neighbour: orthogonal moves cost 10, diagonal ones 14. */
  function MoveCost(d: Direction): (r: int)
    ensures r == (if d.IsDiagonal() then DiagonalMove else HorizontalMove)
    ensures d.IsDiagonal() <==> (d.Dx() != 0 && d.Dy() != 0)
  {
    match d
    case Top | Bottom | Right | Left => HorizontalMove
    case TopLeft | TopRight | BottomLeft | BottomRight => DiagonalMove
  }

  predicate InBounds(c: Coord, w: int, h: int) {
    0 <= c.0 < w && 0 <= c.1 < h
  }

  /** 8-adjacency: distinct cells at Chebyshev distance one. */
  predicate Adjacent(a: Coord, b: Coord) {
    a != b && -1 <= a.0 - b.0 <= 1 && -1 <= a.1 - b.1 <= 1
  }

  /** The direction leading from `a` to the adjacent cell `b`. */
  function DirectionBetween(a: Coord, b: Coord): (d: Direction)
    requires Adjacent(a, b)
    ensures Neighbor(a, d) == b
  {
    var dx, dy := b.0 - a.0, b.1 - a.1;
    if dy < 0 then (if dx < 0 then TopLeft else if dx > 0 then TopRight else Top)
    else if dy > 0 then (if dx < 0 then BottomLeft else if dx > 0 then BottomRight else Bottom)
    else if dx < 0 then Left else Right
  }

  /** The cost of a step between two cells: 14 when both coordinates change, 10 otherwise. */
  function StepCost(a: Coord, b: Coord): int {
    if a.0 != b.0 && a.1 != b.1 then DiagonalMove else HorizontalMove
  }

  lemma NeighborAdjacent(c: Coord, d: Direction)
    ensures Adjacent(c, Neighbor(c, d))
    ensures DirectionBetween(c, Neighbor(c, d)) == d
    ensures StepCost(c, Neighbor(c, d)) == MoveCost(d)
  {
  }

  lemma NeighborInjective(c: Coord, d1: Direction, d2: Direction)
    ensures Neighbor(c, d1) == Neighbor(c, d2) <==> d1 == d2
  {
  }

  /** A dictionary iteration order over the eight keys: each key exactly once. */
  predicate IsDirectionOrder(order: seq<Direction>) {
    && |order| == 8
    && (forall i, j | 0 <= i < j < |order| :: order[i] != order[j])
    && (forall d: Direction :: d in order)
  }

  /** The edge checks of neighbour generation: a direction survives unless the
      node sits on the bound that direction would leave. The right and bottom
      bounds are `w - 1` and `h - 1`. */
  predicate EdgeKept(c: Coord, d: Direction, w: int, h: int) {
    && !(c.0 <= 0 && d.Dx() == -1)
    && !(c.0 >= w - 1 && d.Dx() == 1)
    && !(c.1 <= 0 && d.Dy() == -1)
    && !(c.1 >= h - 1 && d.Dy() == 1)
  }

  /** For a node inside the bounds, the edge checks keep exactly the
      directions whose target is inside the bounds. */
  lemma EdgeKeptInBounds(c: Coord, d: Direction, w: int, h: int)
    requires InBounds(c, w, h)
    ensures EdgeKept(c, d, w, h) <==> InBounds(Neighbor(c, d), w, h)
  {
  }
}
