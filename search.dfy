/** A value-level view of the A* search state: one `Cell` per grid
    coordinate, the open list as a sequence of coordinates and the step log as
    a sequence of events. It defines the movement rule, the invariants that
    `find_path` keeps, the effect of each of its steps, and proves that every
    step keeps the invariants and that the loop makes progress. */
module SearchModel {
  import opened Wrappers
  import opened Grid
  import opened Scoring
  import opened Encodings

  /** What the search reads and writes of one node (its move cost is scratch
      data that neighbour generation overwrites, and is not part of the view). */
  datatype Cell = Cell(
    entities: int,
    g: Option<int>,
    h: Option<int>,
    f: Option<int>,
    parent: Option<Coord>,
    list: Option<ListType>)

  type Cells = map<Coord, Cell>

  /** The inputs of one search: start and goal coordinates, the bounds, and the
      fixed iteration order of the neighbour dictionary. */
  datatype Problem = Problem(player: Coord, target: Coord, w: int, h: int, order: seq<Direction>)

  predicate WallAt(S: Cells, c: Coord) { c in S && S[c].entities == Wall }
  predicate Listed(S: Cells, c: Coord) { c in S && S[c].list.Some? }
  predicate OpenAt(S: Cells, c: Coord) { c in S && S[c].list == Some(OpenList) }
  predicate ClosedAt(S: Cells, c: Coord) { c in S && S[c].list == Some(ClosedList) }

  /** Every cell inside the bounds exists. */
  ghost predicate Complete(S: Cells, w: int, h: int) {
    forall c | InBounds(c, w, h) :: c in S
  }

  /** A cell is in neither list, in the open list or in the closed list. */
  lemma ListCases(S: Cells, c: Coord)
    requires c in S
    ensures S[c].list.None? || OpenAt(S, c) || ClosedAt(S, c)
    ensures Listed(S, c) <==> OpenAt(S, c) || ClosedAt(S, c)
  {
    match S[c].list
    case None =>
    case Some(t) =>
      match t
      case OpenList =>
      case ClosedList =>
  }

  /** Two views that agree on the cells and on every cell's entity. */
  predicate SameTerrain(S: Cells, S': Cells) {
    S.Keys == S'.Keys && forall c | c in S :: S'[c].entities == S[c].entities
  }

  // ---------------------------------------------------------------------
  // Movement rule

  /** Corner cutting: a diagonal is dropped when the orthogonal cell it shares
      its row or its column with survived the edge checks and is a wall. */
  predicate CornerKept(S: Cells, c: Coord, d: Direction, w: int, h: int) {
    d.IsDiagonal() ==>
      && !(EdgeKept(c, d.VerticalPart(), w, h) && WallAt(S, Neighbor(c, d.VerticalPart())))
      && !(EdgeKept(c, d.HorizontalPart(), w, h) && WallAt(S, Neighbor(c, d.HorizontalPart())))
  }

  /** The orthogonal direction `o` survived the edge checks and ends on a wall. */
  predicate CutsCorner(S: Cells, c: Coord, o: Direction, w: int, h: int) {
    EdgeKept(c, o, w, h) && WallAt(S, Neighbor(c, o))
  }

  /** The edge checks followed by the four corner checks leave exactly the
      directions that pass the edge and corner rules. */
  lemma SurvivorsByCuts(S: Cells, c: Coord, w: int, h: int, edges: set<Direction>, present: set<Direction>,
                        cutTop: bool, cutBottom: bool, cutRight: bool, cutLeft: bool)
    requires forall d: Direction :: d in edges <==> EdgeKept(c, d, w, h)
    requires cutTop == CutsCorner(S, c, Top, w, h) && cutBottom == CutsCorner(S, c, Bottom, w, h)
    requires cutRight == CutsCorner(S, c, Right, w, h) && cutLeft == CutsCorner(S, c, Left, w, h)
    requires forall d: Direction :: d in present <==>
               && d in edges
               && !(cutTop && d in {TopLeft, TopRight})
               && !(cutBottom && d in {BottomLeft, BottomRight})
               && !(cutRight && d in {TopRight, BottomRight})
               && !(cutLeft && d in {TopLeft, BottomLeft})
    ensures forall d: Direction :: d in present <==> EdgeKept(c, d, w, h) && CornerKept(S, c, d, w, h)
  {
    forall d: Direction
      ensures d in present <==> EdgeKept(c, d, w, h) && CornerKept(S, c, d, w, h)
    {
      match d
      case Top => case Bottom => case Left => case Right =>
      case TopLeft => case TopRight => case BottomLeft => case BottomRight =>
    }
  }

  /** A legal move: it stays inside the bounds, does not cut a wall corner and does not end on a wall. */
  predicate Passable(S: Cells, c: Coord, d: Direction, w: int, h: int) {
    EdgeKept(c, d, w, h) && CornerKept(S, c, d, w, h) && !WallAt(S, Neighbor(c, d))
  }

  /** A direction neighbour generation returns: a legal move to a cell not in the closed list. */
  predicate Kept(S: Cells, c: Coord, d: Direction, w: int, h: int) {
    Passable(S, c, d, w, h) && !ClosedAt(S, Neighbor(c, d))
  }

  /** A legal move between two cells. */
  predicate MoveAllowed(S: Cells, a: Coord, b: Coord, w: int, h: int) {
    Adjacent(a, b) && Passable(S, a, DirectionBetween(a, b), w, h)
  }

  lemma PassableSameTerrain(S: Cells, S': Cells, c: Coord, d: Direction, w: int, h: int)
    requires SameTerrain(S, S')
    ensures Passable(S', c, d, w, h) <==> Passable(S, c, d, w, h)
  {
    assert WallAt(S', Neighbor(c, d)) == WallAt(S, Neighbor(c, d));
    assert WallAt(S', Neighbor(c, d.VerticalPart())) == WallAt(S, Neighbor(c, d.VerticalPart()));
    assert WallAt(S', Neighbor(c, d.HorizontalPart())) == WallAt(S, Neighbor(c, d.HorizontalPart()));
  }

  lemma MoveAllowedSameTerrain(S: Cells, S': Cells, a: Coord, b: Coord, w: int, h: int)
    requires SameTerrain(S, S')
    ensures MoveAllowed(S', a, b, w, h) <==> MoveAllowed(S, a, b, w, h)
  {
    if Adjacent(a, b) {
      PassableSameTerrain(S, S', a, DirectionBetween(a, b), w, h);
    }
  }

  /** The directions of `ds` that neighbour generation keeps, in the order of `ds`. */
  function KeptDirections(S: Cells, c: Coord, ds: seq<Direction>, w: int, h: int): (r: seq<Direction>)
    ensures forall d :: d in r <==> d in ds && Kept(S, c, d, w, h)
    ensures (forall i, j | 0 <= i < j < |ds| :: ds[i] != ds[j]) ==>
              (forall i, j | 0 <= i < j < |r| :: r[i] != r[j])
    decreases |ds|
  {
    if ds == [] then []
    else
      var front := KeptDirections(S, c, ds[..|ds| - 1], w, h);
      assert ds == ds[..|ds| - 1] + [ds[|ds| - 1]];
      if Kept(S, c, ds[|ds| - 1], w, h) then front + [ds[|ds| - 1]] else front
  }

  /** Scanning one more direction of the iteration order. */
  lemma KeptDirectionsStep(S: Cells, c: Coord, ds: seq<Direction>, i: int, w: int, h: int)
    requires 0 <= i < |ds|
    ensures KeptDirections(S, c, ds[..i + 1], w, h) ==
              KeptDirections(S, c, ds[..i], w, h) + (if Kept(S, c, ds[i], w, h) then [ds[i]] else [])
  {
    assert ds[..i + 1][..i] == ds[..i];
  }

  function NeighborCoords(c: Coord, ds: seq<Direction>): (r: seq<Coord>)
    ensures |r| == |ds| && forall i | 0 <= i < |ds| :: r[i] == Neighbor(c, ds[i])
  {
    seq(|ds|, i requires 0 <= i < |ds| => Neighbor(c, ds[i]))
  }

  // ---------------------------------------------------------------------
  // The open list's removal

  /** Python's `list.remove` on a list that holds `x`: drops the first occurrence only.
      Python raises `ValueError` when `x` is absent; this total function returns the
      list as it was in that case, which the model never reaches (the open list
      only ever removes its own head). */
  function RemoveFirst<T(==)>(s: seq<T>, x: T): (r: seq<T>)
    ensures x in s ==> |r| == |s| - 1
    ensures x !in s ==> r == s
    decreases |s|
  {
    if s == [] then []
    else if s[0] == x then s[1..]
    else [s[0]] + RemoveFirst(s[1..], x)
  }

  /** Removal keeps every other value, and adds none. */
  lemma {:induction false} RemoveFirstMembers<T(!new)>(s: seq<T>, x: T)
    ensures forall y :: y in RemoveFirst(s, x) ==> y in s
    ensures forall y | y != x :: y in RemoveFirst(s, x) <==> y in s
    decreases |s|
  {
    if s != [] && s[0] != x {
      RemoveFirstMembers(s[1..], x);
      assert s == [s[0]] + s[1..];
    }
  }

  /** Removing the head removes exactly index 0, whatever copies follow. */
  lemma RemoveFirstHead<T>(s: seq<T>)
    requires |s| > 0
    ensures RemoveFirst(s, s[0]) == s[1..]
  {
  }

  // ---------------------------------------------------------------------
  // Invariants

  /** Search fields are all unset exactly for nodes in neither list; a listed
      node lies inside the bounds and carries `g >= 0`, `h` the heuristic to the
      goal and `f = g + h`. */
  predicate CellsOk(S: Cells, P: Problem) {
    forall c | c in S ::
      && (S[c].list.None? ==> S[c].g.None? && S[c].h.None? && S[c].f.None? && S[c].parent.None?)
      && (S[c].list.Some? ==>
            && InBounds(c, P.w, P.h)
            && S[c].g.Some? && S[c].g.value >= 0
            && S[c].h == Some(HeuristicDistance(c, P.target))
            && S[c].f == Some(S[c].g.value + S[c].h.value))
  }

  /** A parent is a closed cell one legal move away whose `g` plus the step
      cost is the child's `g`; the only listed cell without a parent is the start. */
  predicate ParentOk(S: Cells, P: Problem, c: Coord)
    requires c in S
  {
    match S[c].parent
    case None => S[c].list.Some? ==> c == P.player
    case Some(p) =>
      && p in S && S[c].list.Some? && S[p].list == Some(ClosedList)
      && S[p].g.Some? && S[c].g.Some?
      && MoveAllowed(S, p, c, P.w, P.h)
      && S[c].g.value == S[p].g.value + StepCost(p, c)
  }

  predicate ParentsOk(S: Cells, P: Problem) {
    forall c {:trigger ParentOk(S, P, c)} | c in S :: ParentOk(S, P, c)
  }

  /** Everything in the open list is listed, and every open cell is in it. */
  ghost predicate OpenOk(S: Cells, open: seq<Coord>) {
    && (forall i | 0 <= i < |open| :: Listed(S, open[i]))
    && (forall c | OpenAt(S, c) :: c in open)
  }

  /** The goal test failed on every closed cell. */
  ghost predicate ClosedOk(S: Cells) {
    forall c | ClosedAt(S, c) :: S[c].entities != Target
  }

  /** Every legal move out of a closed cell (other than `except`) reaches a listed cell. */
  ghost predicate ClosureOk(S: Cells, P: Problem, except: Option<Coord>) {
    forall c, d | ClosedAt(S, c) && Some(c) != except && Passable(S, c, d, P.w, P.h) ::
      Listed(S, Neighbor(c, d))
  }

  /** What may follow event `a` in the log: a choice is followed by the
      closing of the same cell, and a closing follows the choice of the same cell
      (so an open-list event never directly follows a choice). */
  predicate Follows(a: Step, b: Step) {
    && (a.tag == ChooseLowestFScore ==> b == Step(AddToClosedList, a.at))
    && (b.tag == AddToClosedList ==> a == Step(ChooseLowestFScore, b.at))
  }

  /** The cell of the last closed-list event of the log, if there is one. */
  function LastClosed(ev: seq<Step>): Option<Coord>
    decreases |ev|
  {
    if ev == [] then None
    else if ev[|ev| - 1].tag == AddToClosedList then Some(ev[|ev| - 1].at)
    else LastClosed(ev[..|ev| - 1])
  }

  lemma LastClosedAppend(ev: seq<Step>, x: Step)
    ensures LastClosed(ev + [x]) == if x.tag == AddToClosedList then Some(x.at) else LastClosed(ev)
  {
    assert (ev + [x])[..|ev|] == ev;
  }

  /** An open-list event after the log `prefix` names a neighbour of the cell
      closed last: the search opens only neighbours of the node it expands. */
  predicate OpensNear(prefix: seq<Step>, x: Step) {
    x.tag == AddToOpenList ==> LastClosed(prefix).Some? && Adjacent(LastClosed(prefix).value, x.at)
  }

  /** The shape of the step log: it opens with a choice, every event may
      follow the one before it, and every open-list event names a neighbour of
      the cell closed last before it. */
  predicate LogShape(ev: seq<Step>)
    decreases |ev|
  {
    if |ev| <= 1 then ev == [] || ev[0].tag == ChooseLowestFScore
    else LogShape(ev[..|ev| - 1]) && Follows(ev[|ev| - 2], ev[|ev| - 1]) && OpensNear(ev[..|ev| - 1], ev[|ev| - 1])
  }

  /** Appending to the log keeps its shape exactly when the new event may
      follow the last one and, if it opens a cell, that cell neighbours the
      cell closed last. */
  lemma LogShapeAppend(ev: seq<Step>, x: Step)
    requires LogShape(ev) && ev != []
    ensures LogShape(ev + [x]) <==> Follows(ev[|ev| - 1], x) && OpensNear(ev, x)
  {
    assert (ev + [x])[..|ev|] == ev;
  }

  /** The log against the cells: open-list events name distinct listed cells
      other than the start, and every listed cell other than the start has
      one; closed-list events name closed cells; choices name listed cells. */
  ghost predicate LogMatches(S: Cells, P: Problem, ev: seq<Step>) {
    && (forall i | 0 <= i < |ev| && ev[i].tag == AddToOpenList :: ev[i].at != P.player && Listed(S, ev[i].at))
    && (forall i, j | 0 <= i < j < |ev| && ev[i].tag == AddToOpenList && ev[j].tag == AddToOpenList ::
          ev[i].at != ev[j].at)
    && (forall c | Listed(S, c) && c != P.player :: Step(AddToOpenList, c) in ev)
    && (forall i | 0 <= i < |ev| && ev[i].tag == AddToClosedList :: ClosedAt(S, ev[i].at))
    && (forall i | 0 <= i < |ev| && ev[i].tag == ChooseLowestFScore :: Listed(S, ev[i].at))
  }

  /** The start: listed with `g = 0` and no parent. Before the first choice it
      is the whole open list and the only listed cell; afterwards it is closed
      and its choice opens the log. */
  ghost predicate StartOk(S: Cells, P: Problem, open: seq<Coord>, ev: seq<Step>) {
    && Listed(S, P.player) && S[P.player].g == Some(0) && S[P.player].parent.None?
    && (ev == [] ==> open == [P.player] && forall c | Listed(S, c) :: c == P.player)
    && (ev != [] ==> ev[0] == Step(ChooseLowestFScore, P.player) && ClosedAt(S, P.player))
  }

  predicate ProblemOk(P: Problem) {
    InBounds(P.player, P.w, P.h) && IsDirectionOrder(P.order)
  }

  ghost predicate Common(S: Cells, P: Problem, open: seq<Coord>, ev: seq<Step>) {
    && ProblemOk(P)
    && Complete(S, P.w, P.h)
    && CellsOk(S, P)
    && ParentsOk(S, P)
    && OpenOk(S, open)
    && ClosedOk(S)
    && LogShape(ev)
    && LogMatches(S, P, ev)
    && StartOk(S, P, open, ev)
    && (ev == [] || ev[|ev| - 1].tag != ChooseLowestFScore)
  }

  /** The invariant at the head of the main loop. */
  ghost predicate Idle(S: Cells, P: Problem, open: seq<Coord>, ev: seq<Step>) {
    Common(S, P, open, ev) && ClosureOk(S, P, None)
  }

  /** The neighbours of the closed cell `c` still to process: distinct cells
      inside the bounds, one legal move from `c`, not closed, and together with
      the listed cells covering every legal move out of `c`. */
  ghost predicate PendingOk(S: Cells, P: Problem, c: Coord, pending: seq<Coord>) {
    && (forall d | Passable(S, c, d, P.w, P.h) :: Listed(S, Neighbor(c, d)) || Neighbor(c, d) in pending)
    && (forall k | 0 <= k < |pending| ::
          && pending[k] in S && InBounds(pending[k], P.w, P.h)
          && MoveAllowed(S, c, pending[k], P.w, P.h) && !ClosedAt(S, pending[k]))
    && (forall i, j | 0 <= i < j < |pending| :: pending[i] != pending[j])
  }

  /** The invariant while the neighbours of the closed cell `c` are processed. */
  ghost predicate Expanding(S: Cells, P: Problem, open: seq<Coord>, ev: seq<Step>, c: Coord, pending: seq<Coord>) {
    && Common(S, P, open, ev)
    && ClosureOk(S, P, Some(c))
    && ClosedAt(S, c) && ev != [] && LastClosed(ev) == Some(c)
    && PendingOk(S, P, c, pending)
  }

  /** Every node as `init_graph` creates it: no search field set. */
  predicate Fresh(S: Cells) {
    forall c | c in S ::
      S[c].g.None? && S[c].h.None? && S[c].f.None? && S[c].parent.None? && S[c].list.None?
  }

  // ---------------------------------------------------------------------
  // Steps of find_path

  /** The start node enters the open list with `g = 0` and `h` its heuristic. */
  /** The start of `find_path`: the start node gets `g = 0`, its heuristic as
      `h` and `f = h`, and joins the open list; its parent and the terrain stay. */
  function Begin(S: Cells, P: Problem): (r: Cells)
    requires P.player in S
    ensures SameTerrain(S, r)
    ensures OpenAt(r, P.player) && r[P.player].parent == S[P.player].parent
    ensures r[P.player].g == Some(0) && r[P.player].h == Some(HeuristicDistance(P.player, P.target))
    ensures r[P.player].f == r[P.player].h
  {
    var hh := HeuristicDistance(P.player, P.target);
    S[P.player := S[P.player].(g := Some(0), h := Some(hh), f := Some(0 + hh), list := Some(OpenList))]
  }

  /** Moving a cell to the closed list changes its list type and nothing else. */
  function CloseCell(S: Cells, c: Coord): (r: Cells)
    requires c in S
    ensures SameTerrain(S, r) && ClosedAt(r, c)
    ensures r[c].g == S[c].g && r[c].h == S[c].h && r[c].f == S[c].f && r[c].parent == S[c].parent
  {
    S[c := S[c].(list := Some(ClosedList))]
  }

  /** Whether a neighbour reached from `c` at `cost` is taken: always when it is
      not in the open list, otherwise only on a strictly smaller `g`. */
  predicate Accepts(S: Cells, c: Coord, n: Coord, cost: int): (b: bool)
    requires c in S && n in S && S[c].g.Some?
    ensures !OpenAt(S, n) ==> b
    ensures OpenAt(S, n) ==> (b <==> S[n].g.Some? && S[c].g.value + cost < S[n].g.value)
  {
    !OpenAt(S, n) || Py2Less(S[c].g.value + cost, S[n].g)
  }

  /** An accepted neighbour: parent `c`, `g` through `c`, fresh `h` and `f`, open. */
  function Relax(S: Cells, P: Problem, c: Coord, n: Coord, cost: int): (r: Cells)
    requires c in S && n in S && S[c].g.Some?
    ensures SameTerrain(S, r) && OpenAt(r, n) && r[n].parent == Some(c)
    ensures r[n].g == Some(S[c].g.value + cost) && r[n].h == Some(HeuristicDistance(n, P.target))
    ensures r[n].f == Some(r[n].g.value + r[n].h.value)
  {
    var g := S[c].g.value + cost;
    var hh := HeuristicDistance(n, P.target);
    S[n := S[n].(g := Some(g), h := Some(hh), f := Some(g + hh), parent := Some(c), list := Some(OpenList))]
  }

  function Pending(S: Cells, P: Problem, c: Coord): seq<Coord> {
    NeighborCoords(c, KeptDirections(S, c, P.order, P.w, P.h))
  }

  lemma BeginIdle(S: Cells, P: Problem)
    requires ProblemOk(P) && Complete(S, P.w, P.h) && Fresh(S)
    ensures P.player in S
    ensures Idle(Begin(S, P), P, [P.player], [])
  {
    var S' := Begin(S, P);
    assert CellsOk(S', P);
    assert ParentsOk(S', P) by {
      forall c | c in S' ensures ParentOk(S', P, c) {
      }
    }
    assert OpenOk(S', [P.player]);
  }

  // Closing the chosen cell, one invariant at a time.

  lemma CloseTerrain(S: Cells, c: Coord)
    requires c in S
    ensures SameTerrain(S, CloseCell(S, c))
    ensures Listed(S, c) ==> forall x :: Listed(CloseCell(S, c), x) <==> Listed(S, x)
  {
    var S' := CloseCell(S, c);
    assert S'.Keys == S.Keys;
  }

  lemma CloseCellsOk(S: Cells, P: Problem, c: Coord)
    requires CellsOk(S, P) && Listed(S, c)
    ensures CellsOk(CloseCell(S, c), P)
  {
  }

  lemma CloseParentsOk(S: Cells, P: Problem, c: Coord)
    requires ParentsOk(S, P) && Listed(S, c)
    ensures ParentsOk(CloseCell(S, c), P)
  {
    var S' := CloseCell(S, c);
    CloseTerrain(S, c);
    forall x | x in S' ensures ParentOk(S', P, x) {
      assert ParentOk(S, P, x);
      if S[x].parent.Some? {
        MoveAllowedSameTerrain(S, S', S[x].parent.value, x, P.w, P.h);
      }
    }
  }

  lemma CloseOpenOk(S: Cells, open: seq<Coord>)
    requires OpenOk(S, open) && open != []
    ensures open[0] in S
    ensures OpenOk(CloseCell(S, open[0]), RemoveFirst(open, open[0]))
  {
    assert Listed(S, open[0]);
    var S' := CloseCell(S, open[0]);
    var open' := RemoveFirst(open, open[0]);
    RemoveFirstMembers(open, open[0]);
    forall i | 0 <= i < |open'| ensures Listed(S', open'[i]) {
      assert open'[i] in open;
    }
    forall x | OpenAt(S', x) ensures x in open' {
      assert OpenAt(S, x);
    }
  }

  lemma CloseClosedOk(S: Cells, c: Coord)
    requires ClosedOk(S) && c in S && S[c].entities != Target
    ensures ClosedOk(CloseCell(S, c))
  {
  }

  lemma CloseLogShape(ev: seq<Step>, c: Coord)
    requires LogShape(ev) && (ev == [] || ev[|ev| - 1].tag != ChooseLowestFScore)
    ensures LogShape(ev + [Step(ChooseLowestFScore, c), Step(AddToClosedList, c)])
  {
    var ev1 := ev + [Step(ChooseLowestFScore, c)];
    if ev != [] {
      LogShapeAppend(ev, Step(ChooseLowestFScore, c));
    }
    LogShapeAppend(ev1, Step(AddToClosedList, c));
    assert ev1 + [Step(AddToClosedList, c)] == ev + [Step(ChooseLowestFScore, c), Step(AddToClosedList, c)];
  }

  lemma CloseLogMatches(S: Cells, P: Problem, ev: seq<Step>, c: Coord)
    requires LogMatches(S, P, ev) && Listed(S, c)
    ensures LogMatches(CloseCell(S, c), P, ev + [Step(ChooseLowestFScore, c), Step(AddToClosedList, c)])
  {
    var S' := CloseCell(S, c);
    var ev' := ev + [Step(ChooseLowestFScore, c), Step(AddToClosedList, c)];
    CloseTerrain(S, c);
    forall x | Listed(S', x) && x != P.player ensures Step(AddToOpenList, x) in ev' {
      assert Step(AddToOpenList, x) in ev;
    }
  }

  lemma CloseStartOk(S: Cells, P: Problem, open: seq<Coord>, ev: seq<Step>)
    requires StartOk(S, P, open, ev) && open != [] && open[0] in S
    ensures StartOk(CloseCell(S, open[0]), P, RemoveFirst(open, open[0]),
                    ev + [Step(ChooseLowestFScore, open[0]), Step(AddToClosedList, open[0])])
  {
  }

  lemma CloseClosureOk(S: Cells, P: Problem, c: Coord)
    requires ClosureOk(S, P, None) && c in S
    ensures ClosureOk(CloseCell(S, c), P, Some(c))
  {
    var S' := CloseCell(S, c);
    CloseTerrain(S, c);
    forall x, d | ClosedAt(S', x) && Some(x) != Some(c) && Passable(S', x, d, P.w, P.h)
      ensures Listed(S', Neighbor(x, d))
    {
      PassableSameTerrain(S, S', x, d, P.w, P.h);
    }
  }

  /** The kept neighbours of a closed cell inside the bounds are its pending neighbours. */
  lemma PendingStart(S: Cells, P: Problem, c: Coord)
    requires ProblemOk(P) && Complete(S, P.w, P.h) && InBounds(c, P.w, P.h)
    ensures PendingOk(S, P, c, Pending(S, P, c))
  {
    var ks := KeptDirections(S, c, P.order, P.w, P.h);
    var pending := Pending(S, P, c);
    forall d | Passable(S, c, d, P.w, P.h)
      ensures Listed(S, Neighbor(c, d)) || Neighbor(c, d) in pending
    {
      if !ClosedAt(S, Neighbor(c, d)) {
        assert d in P.order;
        assert d in ks;
        var k :| 0 <= k < |ks| && ks[k] == d;
        assert pending[k] == Neighbor(c, d);
      }
    }
    forall k | 0 <= k < |pending|
      ensures pending[k] in S && InBounds(pending[k], P.w, P.h)
      ensures MoveAllowed(S, c, pending[k], P.w, P.h) && !ClosedAt(S, pending[k])
    {
      assert ks[k] in ks;
      NeighborAdjacent(c, ks[k]);
      EdgeKeptInBounds(c, ks[k], P.w, P.h);
    }
    forall i, j | 0 <= i < j < |pending| ensures pending[i] != pending[j] {
      NeighborInjective(c, ks[i], ks[j]);
    }
  }

  /** Choosing the head `c` of the open list, when it is not the goal: it
      leaves the open list (first copy only), enters the closed list, the log
      records both, and its kept neighbours become pending. */
  lemma ChooseAndClose(S: Cells, P: Problem, open: seq<Coord>, ev: seq<Step>)
    requires Idle(S, P, open, ev) && open != []
    requires S[open[0]].entities != Target
    ensures open[0] in S
    ensures
      var c := open[0];
      var S' := CloseCell(S, c);
      Expanding(S', P, RemoveFirst(open, c), ev + [Step(ChooseLowestFScore, c), Step(AddToClosedList, c)],
                c, Pending(S', P, c))
  {
    var c := open[0];
    assert Listed(S, c);
    var S' := CloseCell(S, c);
    CloseTerrain(S, c);
    CloseCellsOk(S, P, c);
    CloseParentsOk(S, P, c);
    CloseOpenOk(S, open);
    CloseClosedOk(S, c);
    CloseLogShape(ev, c);
    CloseLogMatches(S, P, ev, c);
    CloseStartOk(S, P, open, ev);
    CloseClosureOk(S, P, c);
    assert InBounds(c, P.w, P.h);
    PendingStart(S', P, c);
    LastClosedAppend(ev + [Step(ChooseLowestFScore, c)], Step(AddToClosedList, c));
  }

  // Processing one pending neighbour, one invariant at a time.

  lemma RelaxTerrain(S: Cells, P: Problem, c: Coord, n: Coord, cost: int)
    requires c in S && n in S && S[c].g.Some?
    ensures SameTerrain(S, Relax(S, P, c, n, cost))
    ensures forall x | x != n :: x !in S || Relax(S, P, c, n, cost)[x] == S[x]
    ensures Listed(Relax(S, P, c, n, cost), n)
  {
  }

  lemma RelaxCellsOk(S: Cells, P: Problem, c: Coord, n: Coord, cost: int)
    requires CellsOk(S, P) && Listed(S, c) && n in S && InBounds(n, P.w, P.h) && cost >= 0
    ensures CellsOk(Relax(S, P, c, n, cost), P)
  {
  }

  lemma RelaxParentsOk(S: Cells, P: Problem, c: Coord, n: Coord)
    requires ParentsOk(S, P) && ClosedAt(S, c) && S[c].g.Some? && n in S && !ClosedAt(S, n)
    requires MoveAllowed(S, c, n, P.w, P.h)
    ensures ParentsOk(Relax(S, P, c, n, StepCost(c, n)), P)
  {
    var S' := Relax(S, P, c, n, StepCost(c, n));
    RelaxTerrain(S, P, c, n, StepCost(c, n));
    forall x | x in S' ensures ParentOk(S', P, x) {
      if x == n {
        MoveAllowedSameTerrain(S, S', c, n, P.w, P.h);
      } else {
        assert ParentOk(S, P, x);
        if S[x].parent.Some? {
          MoveAllowedSameTerrain(S, S', S[x].parent.value, x, P.w, P.h);
        }
      }
    }
  }

  lemma RelaxOpenOk(S: Cells, P: Problem, open: seq<Coord>, c: Coord, n: Coord, cost: int, open': seq<Coord>)
    requires OpenOk(S, open) && c in S && n in S && S[c].g.Some?
    requires
      var open1 := if OpenAt(S, n) then open else open + [n];
      open' == open1 || open' == [n] + open1
    ensures OpenOk(Relax(S, P, c, n, cost), open')
  {
    var S' := Relax(S, P, c, n, cost);
    forall i | 0 <= i < |open'| ensures Listed(S', open'[i]) {
      if open'[i] != n {
        assert open'[i] in open;
      }
    }
  }

  lemma RelaxClosedOk(S: Cells, P: Problem, c: Coord, n: Coord, cost: int)
    requires ClosedOk(S) && c in S && n in S && S[c].g.Some?
    ensures ClosedOk(Relax(S, P, c, n, cost))
  {
  }

  lemma AppendOpenEventShape(ev: seq<Step>, n: Coord)
    requires LogShape(ev) && ev != [] && ev[|ev| - 1].tag != ChooseLowestFScore
    requires LastClosed(ev).Some? && Adjacent(LastClosed(ev).value, n)
    ensures LogShape(ev + [Step(AddToOpenList, n)])
  {
    LogShapeAppend(ev, Step(AddToOpenList, n));
  }

  lemma RelaxLogMatches(S: Cells, P: Problem, ev: seq<Step>, c: Coord, n: Coord, cost: int)
    requires LogMatches(S, P, ev) && Listed(S, P.player) && c in S && n in S && S[c].g.Some?
    ensures
      var ev' := if OpenAt(S, n) then ev else ev + [Step(AddToOpenList, n)];
      !ClosedAt(S, n) ==> LogMatches(Relax(S, P, c, n, cost), P, ev')
  {
    var S' := Relax(S, P, c, n, cost);
    var ev' := if OpenAt(S, n) then ev else ev + [Step(AddToOpenList, n)];
    if !ClosedAt(S, n) {
      if !OpenAt(S, n) {
        ListCases(S, n);
        assert Step(AddToOpenList, n) in ev';
        forall i | 0 <= i < |ev| && ev[i].tag == AddToOpenList ensures ev[i].at != n {
          assert Listed(S, ev[i].at);
        }
      }
      forall x | Listed(S', x) && x != P.player ensures Step(AddToOpenList, x) in ev' {
        if x != n {
          assert Step(AddToOpenList, x) in ev;
        }
      }
    }
  }

  lemma RelaxStartOk(S: Cells, P: Problem, open: seq<Coord>, ev: seq<Step>, c: Coord, n: Coord, cost: int,
                     open': seq<Coord>, ev': seq<Step>)
    requires StartOk(S, P, open, ev) && ev != [] && c in S && n in S && S[c].g.Some? && !ClosedAt(S, n)
    requires ev' != [] && ev'[0] == ev[0]
    ensures StartOk(Relax(S, P, c, n, cost), P, open', ev')
  {
  }

  lemma RelaxClosureOk(S: Cells, P: Problem, c: Coord, n: Coord, cost: int)
    requires ClosureOk(S, P, Some(c)) && c in S && n in S && S[c].g.Some? && !ClosedAt(S, n)
    ensures ClosureOk(Relax(S, P, c, n, cost), P, Some(c))
  {
    var S' := Relax(S, P, c, n, cost);
    RelaxTerrain(S, P, c, n, cost);
    forall x, d | ClosedAt(S', x) && Some(x) != Some(c) && Passable(S', x, d, P.w, P.h)
      ensures Listed(S', Neighbor(x, d))
    {
      PassableSameTerrain(S, S', x, d, P.w, P.h);
    }
  }

  /** The first pending neighbour is done once it is listed, whatever else changed
      in the search fields. */
  lemma PendingAdvance(S: Cells, S': Cells, P: Problem, c: Coord, pending: seq<Coord>)
    requires PendingOk(S, P, c, pending) && pending != []
    requires SameTerrain(S, S') && Listed(S', pending[0])
    requires forall x | Listed(S, x) :: Listed(S', x)
    requires forall x | ClosedAt(S', x) :: ClosedAt(S, x)
    ensures PendingOk(S', P, c, pending[1..])
  {
    var n := pending[0];
    forall d | Passable(S', c, d, P.w, P.h)
      ensures Listed(S', Neighbor(c, d)) || Neighbor(c, d) in pending[1..]
    {
      PassableSameTerrain(S, S', c, d, P.w, P.h);
      if Neighbor(c, d) != n && !Listed(S, Neighbor(c, d)) {
        var k :| 0 <= k < |pending| && pending[k] == Neighbor(c, d);
        assert pending[1..][k - 1] == pending[k];
      }
    }
    forall k | 0 <= k < |pending[1..]|
      ensures pending[1..][k] in S' && InBounds(pending[1..][k], P.w, P.h)
      ensures MoveAllowed(S', c, pending[1..][k], P.w, P.h) && !ClosedAt(S', pending[1..][k])
    {
      assert pending[1..][k] == pending[k + 1];
      MoveAllowedSameTerrain(S, S', c, pending[k + 1], P.w, P.h);
    }
  }

  /** The invariants shared by both phases survive accepting a neighbour. */
  lemma AcceptCommon(S: Cells, P: Problem, open: seq<Coord>, ev: seq<Step>, c: Coord, n: Coord, open': seq<Coord>)
    requires Common(S, P, open, ev) && ClosedAt(S, c) && ev != [] && LastClosed(ev) == Some(c)
    requires n in S && InBounds(n, P.w, P.h) && MoveAllowed(S, c, n, P.w, P.h) && !ClosedAt(S, n)
    requires
      var open1 := if OpenAt(S, n) then open else open + [n];
      open' == open1 || open' == [n] + open1
    ensures S[c].g.Some?
    ensures
      var ev' := if OpenAt(S, n) then ev else ev + [Step(AddToOpenList, n)];
      Common(Relax(S, P, c, n, StepCost(c, n)), P, open', ev')
  {
    var cost := StepCost(c, n);
    assert Listed(S, c);
    var ev' := if OpenAt(S, n) then ev else ev + [Step(AddToOpenList, n)];
    RelaxTerrain(S, P, c, n, cost);
    RelaxCellsOk(S, P, c, n, cost);
    RelaxParentsOk(S, P, c, n);
    RelaxOpenOk(S, P, open, c, n, cost, open');
    RelaxClosedOk(S, P, c, n, cost);
    if !OpenAt(S, n) {
      AppendOpenEventShape(ev, n);
    }
    RelaxLogMatches(S, P, ev, c, n, cost);
    RelaxStartOk(S, P, open, ev, c, n, cost, open', ev');
  }

  /** An accepted neighbour `n`: it becomes open with parent `c`. */
  lemma AcceptPending(S: Cells, P: Problem, open: seq<Coord>, ev: seq<Step>, c: Coord, pending: seq<Coord>,
                      open': seq<Coord>)
    requires Expanding(S, P, open, ev, c, pending) && pending != []
    requires
      var n := pending[0];
      var open1 := if OpenAt(S, n) then open else open + [n];
      open' == open1 || open' == [n] + open1
    ensures c in S && pending[0] in S && S[c].g.Some?
    ensures
      var n := pending[0];
      var ev' := if OpenAt(S, n) then ev else ev + [Step(AddToOpenList, n)];
      Expanding(Relax(S, P, c, n, StepCost(c, n)), P, open', ev', c, pending[1..])
  {
    var n := pending[0];
    assert Listed(S, c);
    AcceptCommon(S, P, open, ev, c, n, open');
    AcceptFrontier(S, P, c, pending);
    LastClosedAppend(ev, Step(AddToOpenList, n));
  }

  /** Accepting the first pending neighbour keeps the frontier invariants of the expansion. */
  lemma AcceptFrontier(S: Cells, P: Problem, c: Coord, pending: seq<Coord>)
    requires ClosureOk(S, P, Some(c)) && ClosedAt(S, c) && S[c].g.Some?
    requires PendingOk(S, P, c, pending) && pending != []
    ensures
      var S' := Relax(S, P, c, pending[0], StepCost(c, pending[0]));
      ClosureOk(S', P, Some(c)) && ClosedAt(S', c) && PendingOk(S', P, c, pending[1..])
  {
    var n := pending[0];
    var cost := StepCost(c, n);
    var S' := Relax(S, P, c, n, cost);
    RelaxTerrain(S, P, c, n, cost);
    RelaxClosureOk(S, P, c, n, cost);
    PendingAdvance(S, S', P, c, pending);
  }

  /** A rejected neighbour, already open with a `g` no larger: nothing changes but the pending list. */
  lemma RejectPending(S: Cells, P: Problem, open: seq<Coord>, ev: seq<Step>, c: Coord, pending: seq<Coord>)
    requires Expanding(S, P, open, ev, c, pending) && pending != [] && OpenAt(S, pending[0])
    ensures Expanding(S, P, open, ev, c, pending[1..])
  {
    PendingAdvance(S, S, P, c, pending);
  }

  /** Processing the first pending neighbour `n` of `c` at the cost of the step
      from `c`, with `open'` the open list afterwards (the neighbour appended
      when it was not open, and possibly also prepended when it was accepted). */
  lemma ProcessPending(S: Cells, P: Problem, open: seq<Coord>, ev: seq<Step>, c: Coord, pending: seq<Coord>,
                       open': seq<Coord>)
    requires Expanding(S, P, open, ev, c, pending) && pending != []
    requires
      var n := pending[0];
      var open1 := if OpenAt(S, n) then open else open + [n];
      open' == open1 || (Accepts(S, c, n, StepCost(c, n)) && open' == [n] + open1)
    ensures pending[0] in S && c in S && S[c].g.Some?
    ensures
      var n := pending[0];
      var cost := StepCost(c, n);
      var S' := if Accepts(S, c, n, cost) then Relax(S, P, c, n, cost) else S;
      var ev' := if OpenAt(S, n) then ev else ev + [Step(AddToOpenList, n)];
      Expanding(S', P, open', ev', c, pending[1..])
  {
    if Accepts(S, c, pending[0], StepCost(c, pending[0])) {
      AcceptPending(S, P, open, ev, c, pending, open');
    } else {
      RejectPending(S, P, open, ev, c, pending);
    }
  }

  /** Recording the choice of the head of the open list at the top of the
      main loop keeps the log well formed; the first choice is the start. */
  lemma ChooseRecorded(S: Cells, P: Problem, open: seq<Coord>, ev: seq<Step>)
    requires Idle(S, P, open, ev) && open != []
    ensures open[0] in S
    ensures
      var ev' := ev + [Step(ChooseLowestFScore, open[0])];
      LogShape(ev') && LogMatches(S, P, ev') && ev'[0] == Step(ChooseLowestFScore, P.player)
  {
    var x := Step(ChooseLowestFScore, open[0]);
    var ev' := ev + [x];
    assert Listed(S, open[0]);
    if ev != [] {
      LogShapeAppend(ev, x);
    }
    assert forall i | 0 <= i < |ev| :: ev'[i] == ev[i];
  }

  /** Processing a neighbour never raises the `g` of an open cell: it only
      ever gives way to a strictly smaller one reached through `c`. */
  lemma OpenGNeverIncreases(S: Cells, P: Problem, c: Coord, n: Coord, cost: int)
    requires c in S && n in S && S[c].g.Some? && OpenAt(S, n) && S[n].g.Some?
    ensures
      var S' := if Accepts(S, c, n, cost) then Relax(S, P, c, n, cost) else S;
      && S'[n].g.Some? && S'[n].g.value <= S[n].g.value
      && (S'[n] != S[n] ==> S'[n].g.value < S[n].g.value && S'[n].parent == Some(c))
  {
  }

  /** With no neighbour pending, the expanded cell's moves are all listed. */
  lemma FinishExpansion(S: Cells, P: Problem, open: seq<Coord>, ev: seq<Step>, c: Coord)
    requires Expanding(S, P, open, ev, c, [])
    ensures Idle(S, P, open, ev)
  {
  }

  // ---------------------------------------------------------------------
  // Progress

  /** Cells in neither list. */
  function Unlisted(S: Cells): set<Coord> {
    set c | c in S && S[c].list.None?
  }

  /** One token `(c, k)` for each `0 <= k < g` of every listed cell: lowering a `g` removes tokens. */
  function Budget(S: Cells): set<(Coord, int)> {
    set c, k | c in S && S[c].list.Some? && S[c].g.Some? && 0 <= k < S[c].g.value :: (c, k)
  }

  /** Closing a listed cell changes neither measure. */
  lemma CloseMeasure(S: Cells, c: Coord)
    requires Listed(S, c)
    ensures Unlisted(CloseCell(S, c)) == Unlisted(S)
    ensures Budget(CloseCell(S, c)) == Budget(S)
  {
    var S' := CloseCell(S, c);
    assert forall x | x in S :: S'[x].g == S[x].g && (S'[x].list.Some? <==> S[x].list.Some?);
  }

  /** Processing one neighbour: the unlisted cells never grow; when they stay
      the same, the budget never grows; when it also stays the same, the
      neighbour was rejected. */
  lemma RelaxMeasure(S: Cells, P: Problem, c: Coord, n: Coord, cost: int)
    requires c in S && n in S && S[c].g.Some? && S[c].g.value >= 0 && cost >= 0
    requires S[n].list.Some? ==> S[n].g.Some?
    requires !ClosedAt(S, n)
    ensures
      var S' := if Accepts(S, c, n, cost) then Relax(S, P, c, n, cost) else S;
      && Unlisted(S') <= Unlisted(S)
      && (Unlisted(S') == Unlisted(S) ==>
            Budget(S') <= Budget(S) && (Budget(S') == Budget(S) ==> !Accepts(S, c, n, cost)))
  {
    if Accepts(S, c, n, cost) {
      var S' := Relax(S, P, c, n, cost);
      assert forall x | x in S && x != n :: S'[x] == S[x];
      if S[n].list.None? {
        assert n in Unlisted(S) && n !in Unlisted(S');
      } else {
        ListCases(S, n);
        var a, b := S[n].g.value, S'[n].g.value;
        assert 0 <= b < a;
        assert Unlisted(S') == Unlisted(S);
        assert (n, a - 1) !in Budget(S');
        assert (n, a - 1) in Budget(S);
        forall t | t in Budget(S') ensures t in Budget(S) {
          var x, k := t.0, t.1;
          if x == n {
            assert 0 <= k < b;
          }
        }
      }
    }
  }

  /** The progress measure `(Unlisted, Budget, length of the open list)` did not
      grow, in lexicographic order with sets ordered by inclusion. */
  predicate NoWorse(S: Cells, n: int, S': Cells, n': int) {
    && Unlisted(S') <= Unlisted(S)
    && (Unlisted(S') == Unlisted(S) ==> Budget(S') <= Budget(S) && (Budget(S') == Budget(S) ==> n' <= n))
  }

  lemma NoWorseTrans(S: Cells, n: int, S1: Cells, n1: int, S2: Cells, n2: int)
    requires NoWorse(S, n, S1, n1) && NoWorse(S1, n1, S2, n2)
    ensures NoWorse(S, n, S2, n2)
  {
    if Unlisted(S2) == Unlisted(S) {
      assert Unlisted(S1) == Unlisted(S);
      if Budget(S2) == Budget(S) {
        assert Budget(S1) == Budget(S);
      }
    }
  }

  /** Processing one neighbour does not make the measure worse; the open list
      stays as it is unless the neighbour is accepted. */
  lemma RelaxNoWorse(S: Cells, P: Problem, c: Coord, n: Coord, cost: int, k: int, k': int)
    requires c in S && n in S && S[c].g.Some? && S[c].g.value >= 0 && cost >= 0
    requires S[n].list.Some? ==> S[n].g.Some?
    requires !ClosedAt(S, n)
    requires !Accepts(S, c, n, cost) ==> k' == k
    ensures NoWorse(S, k, if Accepts(S, c, n, cost) then Relax(S, P, c, n, cost) else S, k')
  {
    RelaxMeasure(S, P, c, n, cost);
  }

  /** The progress measure strictly decreased, in the same lexicographic order. */
  predicate Better(S: Cells, n: int, S': Cells, n': int) {
    || Unlisted(S') < Unlisted(S)
    || (Unlisted(S') == Unlisted(S) && (Budget(S') < Budget(S) || (Budget(S') == Budget(S) && n' < n)))
  }

  /** One iteration of the main loop: closing the head leaves both sets and
      shortens the open list, and the neighbour loop makes nothing worse, so
      the measure strictly decreases. */
  lemma ExpansionBetter(S: Cells, n: int, S1: Cells, n1: int, S2: Cells, n2: int)
    requires Unlisted(S1) == Unlisted(S) && Budget(S1) == Budget(S) && n1 < n
    requires NoWorse(S1, n1, S2, n2)
    ensures Better(S, n, S2, n2)
  {
    if Unlisted(S2) == Unlisted(S) && Budget(S2) == Budget(S) {
      assert n2 <= n1;
    }
  }

  // ---------------------------------------------------------------------
  // Outcomes

  /** The closed cells of an exhausted search: every listed cell is closed,
      the start is among them, none is a goal, and every legal move out of one
      leads to another. */
  ghost predicate Exhausted(S: Cells, P: Problem) {
    && Listed(S, P.player)
    && (forall c | Listed(S, c) :: ClosedAt(S, c) && S[c].entities != Target)
    && (forall c, d | ClosedAt(S, c) && Passable(S, c, d, P.w, P.h) :: Listed(S, Neighbor(c, d)))
  }

  lemma EmptyOpenExhausted(S: Cells, P: Problem)
    requires OpenOk(S, []) && ClosedOk(S) && ClosureOk(S, P, None) && Listed(S, P.player)
    ensures Exhausted(S, P)
  {
    forall c | Listed(S, c) ensures ClosedAt(S, c) && S[c].entities != Target {
      ListCases(S, c);
    }
  }

  /** An empty open list at the head of the main loop: the search is exhausted. */
  lemma IdleEmptyExhausted(S: Cells, P: Problem, ev: seq<Step>)
    requires Idle(S, P, [], ev)
    ensures Exhausted(S, P)
  {
    EmptyOpenExhausted(S, P);
  }

  /** A sequence of legal moves from the start. */
  predicate IsWalk(S: Cells, P: Problem, cs: seq<Coord>) {
    && |cs| >= 1 && cs[0] == P.player
    && forall i | 0 <= i < |cs| - 1 :: MoveAllowed(S, cs[i], cs[i + 1], P.w, P.h)
  }

  /** When the search is exhausted no walk from the start reaches a goal cell:
      failure means the goal is unreachable. */
  lemma {:induction false} ExhaustedNoWalkToTarget(S: Cells, P: Problem, cs: seq<Coord>)
    requires Exhausted(S, P) && IsWalk(S, P, cs)
    ensures forall i | 0 <= i < |cs| :: Listed(S, cs[i]) && S[cs[i]].entities != Target
    decreases |cs|
  {
    if |cs| > 1 {
      var front := cs[..|cs| - 1];
      assert IsWalk(S, P, front) by {
        forall i | 0 <= i < |front| - 1 ensures MoveAllowed(S, front[i], front[i + 1], P.w, P.h) {
          assert front[i] == cs[i] && front[i + 1] == cs[i + 1];
        }
      }
      ExhaustedNoWalkToTarget(S, P, front);
      var a, b := cs[|cs| - 2], cs[|cs| - 1];
      assert a == front[|front| - 1];
      assert MoveAllowed(S, a, b, P.w, P.h);
      assert Neighbor(a, DirectionBetween(a, b)) == b;
      forall i | 0 <= i < |cs| ensures Listed(S, cs[i]) && S[cs[i]].entities != Target {
        if i < |cs| - 1 {
          assert cs[i] == front[i];
        }
      }
    }
  }

  /** Every event but the last may precede the one after it. */
  lemma {:induction false} LogShapeFollows(ev: seq<Step>, i: int)
    requires LogShape(ev) && 0 <= i < |ev| - 1
    ensures Follows(ev[i], ev[i + 1])
    decreases |ev|
  {
    if i < |ev| - 2 {
      var front := ev[..|ev| - 1];
      LogShapeFollows(front, i);
      assert front[i] == ev[i] && front[i + 1] == ev[i + 1];
    }
  }

  /** Every open-list event of the log names a neighbour of the cell of the
      last closed-list event before it. */
  lemma {:induction false} LogOpensNearClosed(ev: seq<Step>, i: int)
    requires LogShape(ev) && 0 <= i < |ev| && ev[i].tag == AddToOpenList
    ensures LastClosed(ev[..i]).Some? && Adjacent(LastClosed(ev[..i]).value, ev[i].at)
    decreases |ev|
  {
    var front := ev[..|ev| - 1];
    if i < |ev| - 1 {
      LogOpensNearClosed(front, i);
      assert front[..i] == ev[..i] && front[i] == ev[i];
    } else {
      assert front == ev[..i];
    }
  }

  /** A choice followed by another event closed its cell, so the goal test
      failed on every choice but the last. */
  lemma EarlierChoicesNotGoals(S: Cells, P: Problem, ev: seq<Step>)
    requires LogShape(ev) && LogMatches(S, P, ev) && ClosedOk(S)
    ensures forall i | 0 <= i < |ev| - 1 && ev[i].tag == ChooseLowestFScore ::
              ev[i].at in S && S[ev[i].at].entities != Target
  {
    forall i | 0 <= i < |ev| - 1 && ev[i].tag == ChooseLowestFScore
      ensures ev[i].at in S && S[ev[i].at].entities != Target
    {
      LogShapeFollows(ev, i);
      assert ev[i + 1].tag == AddToClosedList;
    }
  }

  // ---------------------------------------------------------------------
  // Parent chains

  /** Parents have a strictly smaller, non-negative `g`, so chains are finite. */
  predicate Ranked(S: Cells) {
    forall c {:trigger S[c].parent} | c in S && S[c].parent.Some? ::
      && S[c].g.Some? && S[c].parent.value in S && S[S[c].parent.value].g.Some?
      && 0 <= S[S[c].parent.value].g.value < S[c].g.value
  }

  lemma ParentsRanked(S: Cells, P: Problem)
    requires CellsOk(S, P) && ParentsOk(S, P)
    ensures Ranked(S)
  {
    forall c | c in S && S[c].parent.Some?
      ensures S[c].parent.value in S && S[S[c].parent.value].g.Some?
      ensures S[c].g.Some? && 0 <= S[S[c].parent.value].g.value < S[c].g.value
    {
      assert ParentOk(S, P, c);
    }
  }

  /** The cells `reconstruct_path` visits: the parent of `c`, its parent, and
      so on, `c` itself excluded. */
  function ParentChain(S: Cells, c: Coord): (r: seq<Coord>)
    requires Ranked(S) && c in S
    ensures forall i | 0 <= i < |r| :: r[i] in S
    ensures r == [] <==> S[c].parent.None?
    decreases if S[c].g.Some? then S[c].g.value else 0
  {
    match S[c].parent
    case None => []
    case Some(p) => [p] + ParentChain(S, p)
  }

  /** One link of a chain: the chain of `c` is its parent followed by the parent's chain. */
  lemma ParentChainStep(S: Cells, c: Coord)
    requires Ranked(S) && c in S
    ensures S[c].parent.Some? ==>
              && S[c].parent.value in S && S[S[c].parent.value].g.Some?
              && 0 <= S[S[c].parent.value].g.value < S[c].g.value
              && ParentChain(S, c) == [S[c].parent.value] + ParentChain(S, S[c].parent.value)
    ensures S[c].parent.None? ==> ParentChain(S, c) == []
  {
  }

  /** `c` followed by its parent chain. */
  function Route(S: Cells, c: Coord): (r: seq<Coord>)
    requires Ranked(S) && c in S
    ensures |r| >= 1 && r[0] == c
  {
    [c] + ParentChain(S, c)
  }

  /** Sum of the step costs along a route. */
  function RouteCost(cs: seq<Coord>): int
    decreases |cs|
  {
    if |cs| < 2 then 0 else StepCost(cs[0], cs[1]) + RouteCost(cs[1..])
  }

  /** Each entry of a route is the parent of the one before, and the last has none. */
  lemma {:induction false} RouteLinks(S: Cells, c: Coord)
    requires Ranked(S) && c in S
    ensures forall i | 0 <= i < |Route(S, c)| - 1 :: S[Route(S, c)[i]].parent == Some(Route(S, c)[i + 1])
    ensures S[Route(S, c)[|Route(S, c)| - 1]].parent.None?
    decreases if S[c].g.Some? then S[c].g.value else 0
  {
    if S[c].parent.Some? {
      var p := S[c].parent.value;
      RouteLinks(S, p);
      var r, r' := Route(S, c), Route(S, p);
      assert r == [c] + r';
      forall i | 0 <= i < |r| - 1 ensures S[r[i]].parent == Some(r[i + 1]) {
        if i > 0 {
          assert r[i] == r'[i - 1] && r[i + 1] == r'[i];
        }
      }
      assert r[|r| - 1] == r'[|r'| - 1];
    }
  }

  /** The cost of a route is the drop in `g` from its first to its last entry. */
  lemma {:induction false} RouteCostIsG(S: Cells, P: Problem, c: Coord)
    requires CellsOk(S, P) && ParentsOk(S, P) && c in S && S[c].g.Some?
    ensures Ranked(S)
    ensures
      var last := Route(S, c)[|Route(S, c)| - 1];
      S[last].g.Some? && RouteCost(Route(S, c)) + S[last].g.value == S[c].g.value
    decreases S[c].g.value
  {
    ParentsRanked(S, P);
    assert ParentOk(S, P, c);
    if S[c].parent.Some? {
      var p := S[c].parent.value;
      RouteCostIsG(S, P, p);
      var r, r' := Route(S, c), Route(S, p);
      assert r == [c] + r';
      assert r[1..] == r';
      assert r[|r| - 1] == r'[|r'| - 1];
    }
  }

  /** Every step of the route from `c` is a legal move out of a closed cell:
      each entry with a parent is one legal move from it, and the parent is closed. */
  lemma RouteMoves(S: Cells, P: Problem, c: Coord)
    requires CellsOk(S, P) && ParentsOk(S, P) && c in S
    ensures Ranked(S)
    ensures forall i | 0 <= i < |Route(S, c)| && S[Route(S, c)[i]].parent.Some? ::
              && MoveAllowed(S, S[Route(S, c)[i]].parent.value, Route(S, c)[i], P.w, P.h)
              && ClosedAt(S, S[Route(S, c)[i]].parent.value)
  {
    ParentsRanked(S, P);
    var r := Route(S, c);
    forall i | 0 <= i < |r| && S[r[i]].parent.Some?
      ensures MoveAllowed(S, S[r[i]].parent.value, r[i], P.w, P.h) && ClosedAt(S, S[r[i]].parent.value)
    {
      assert ParentOk(S, P, r[i]);
    }
  }

  /** A route with more than one entry ends at the start and costs exactly `g` of `c`. */
  lemma RouteEnd(S: Cells, P: Problem, c: Coord)
    requires CellsOk(S, P) && ParentsOk(S, P) && c in S && P.player in S && S[P.player].g == Some(0)
    ensures Ranked(S)
    ensures |Route(S, c)| > 1 ==>
              && Route(S, c)[|Route(S, c)| - 1] == P.player
              && RouteCost(Route(S, c)) == S[c].g.value
  {
    ParentsRanked(S, P);
    RouteLinks(S, c);
    var r := Route(S, c);
    if |r| > 1 {
      var last := r[|r| - 1];
      assert S[r[|r| - 2]].parent == Some(last);
      assert ParentOk(S, P, r[|r| - 2]);
      assert ParentOk(S, P, last);
      assert ParentOk(S, P, c);
      RouteCostIsG(S, P, c);
    }
  }

  // ---------------------------------------------------------------------
  // What find_path reports

  predicate GoalAt(S: Cells, c: Coord) { c in S && S[c].entities == Target }

  /** No walk from the start passes through a goal cell. */
  ghost predicate Unreachable(S: Cells, P: Problem) {
    forall cs | IsWalk(S, P, cs) :: forall i | 0 <= i < |cs| :: !GoalAt(S, cs[i])
  }

  /** An exhausted search: whatever the cells looked like before it (same
      terrain), no goal can be reached from the start. */
  lemma Failure(S0: Cells, S: Cells, P: Problem)
    requires Exhausted(S, P) && SameTerrain(S0, S)
    ensures Unreachable(S0, P)
  {
    forall cs | IsWalk(S0, P, cs)
      ensures forall i | 0 <= i < |cs| :: !GoalAt(S0, cs[i])
    {
      forall i | 0 <= i < |cs| - 1
        ensures MoveAllowed(S, cs[i], cs[i + 1], P.w, P.h)
      {
        MoveAllowedSameTerrain(S0, S, cs[i], cs[i + 1], P.w, P.h);
      }
      ExhaustedNoWalkToTarget(S, P, cs);
    }
  }

  /** The path reported for the target when the goal test succeeded on
      `goal`: the parent chain of the target. Each entry of the path is a
      closed cell one legal move before the entry ahead of it; when `goal` is
      the target itself and not the start, the path is not empty, ends at the
      start, and the moves along it cost exactly the target's `g`. */
  ghost predicate PathReport(S: Cells, P: Problem, goal: Coord, path: seq<Coord>) {
    && Ranked(S) && P.target in S && path == ParentChain(S, P.target)
    && (forall i | 0 <= i < |path| ::
          MoveAllowed(S, path[i], Route(S, P.target)[i], P.w, P.h) && ClosedAt(S, path[i]))
    && (goal == P.target != P.player ==>
          && |path| > 0 && path[|path| - 1] == P.player
          && RouteCost(Route(S, P.target)) == S[P.target].g.value)
  }

  /** The report of a search whose goal test succeeded: the log opens with
      the choice of the start and ends with the choice of a goal cell, every
      earlier choice was of a cell that is not a goal, and the path is as
      `PathReport` describes. */
  ghost predicate Succeeded(S: Cells, P: Problem, ev: seq<Step>, path: seq<Coord>) {
    && LogShape(ev) && LogMatches(S, P, ev)
    && ev != [] && ev[0] == Step(ChooseLowestFScore, P.player)
    && ev[|ev| - 1].tag == ChooseLowestFScore && GoalAt(S, ev[|ev| - 1].at)
    && (forall i | 0 <= i < |ev| - 1 && ev[i].tag == ChooseLowestFScore :: ev[i].at in S && !GoalAt(S, ev[i].at))
    && PathReport(S, P, ev[|ev| - 1].at, path)
  }

  lemma ParentChainReport(S: Cells, P: Problem, goal: Coord)
    requires CellsOk(S, P) && ParentsOk(S, P) && P.target in S
    requires Listed(S, P.player) && S[P.player].g == Some(0) && S[P.player].parent.None?
    requires goal == P.target ==> Listed(S, goal)
    ensures Ranked(S)
    ensures PathReport(S, P, goal, ParentChain(S, P.target))
  {
    ParentsRanked(S, P);
    var t := P.target;
    var path := ParentChain(S, t);
    var r := Route(S, t);
    assert r == [t] + path;
    RouteLinks(S, t);
    RouteMoves(S, P, t);
    forall i | 0 <= i < |path|
      ensures MoveAllowed(S, path[i], r[i], P.w, P.h) && ClosedAt(S, path[i])
    {
      assert r[i + 1] == path[i];
    }
    if goal == t != P.player {
      assert ParentOk(S, P, t);
      RouteEnd(S, P, t);
      assert r[|r| - 1] == path[|path| - 1];
    }
  }

  /** The goal test succeeding on the head of the open list between two passes
      yields that report. */
  lemma Success(S: Cells, P: Problem, open: seq<Coord>, ev: seq<Step>)
    requires Idle(S, P, open, ev) && open != [] && GoalAt(S, open[0]) && P.target in S
    ensures Ranked(S)
    ensures Succeeded(S, P, ev + [Step(ChooseLowestFScore, open[0])], ParentChain(S, P.target))
  {
    var ev' := ev + [Step(ChooseLowestFScore, open[0])];
    ChooseRecorded(S, P, open, ev);
    EarlierChoicesNotGoals(S, P, ev');
    assert Listed(S, open[0]);
    ParentChainReport(S, P, open[0]);
  }
}
