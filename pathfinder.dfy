/** The heap side of the pathfinder: the `Node` objects of the graph, the two
    A* lists, neighbour generation, the search loop and path reconstruction.
    Each method is tied to the value-level model through `State`, the view of
    the graph as a map of `Cell`s. */
module Pathfinder {
  import opened Wrappers
  import opened Grid
  import opened Scoring
  import opened Encodings
  import opened SearchModel

  /** One square of the grid with its search bookkeeping. */
  class Node {
    const coordinates: Coord
    var entities: int
    var fScore: Option<int>
    var gScore: Option<int>
    var hScore: Option<int>
    var parentNode: Node?
    var parentMoveCost: Option<int>
    var listType: Option<ListType>

    /** A node with the given entity and no search field set. */
    constructor (coordinates: Coord, entities: int)
      ensures this.coordinates == coordinates && this.entities == entities
      ensures fScore.None? && gScore.None? && hScore.None? && parentNode == null
      ensures parentMoveCost.None? && listType.None?
    {
      this.coordinates := coordinates;
      this.entities := entities;
      fScore := None;
      gScore := None;
      hScore := None;
      parentNode := null;
      parentMoveCost := None;
      listType := None;
    }

    method SetParent(node: Node?)
      modifies this`parentNode
      ensures parentNode == node
    {
      parentNode := node;
    }

    method SetMovementCostFromParent(cost: int)
      modifies this`parentMoveCost
      ensures parentMoveCost == Some(cost)
    {
      parentMoveCost := Some(cost);
    }

    /** The cost of reaching this node by a move in direction `d`: orthogonal
        moves cost 10, diagonal ones 14. */
    method SetMoveCostFor(d: Direction)
      modifies this`parentMoveCost
      ensures parentMoveCost == Some(MoveCost(d))
    {
      if d in {Top, Bottom, Right, Left} {
        SetMovementCostFromParent(HorizontalMove);
      } else if d in {TopLeft, TopRight, BottomLeft, BottomRight} {
        SetMovementCostFromParent(DiagonalMove);
      }
    }

    method SetGScore(score: int)
      modifies this`gScore
      ensures gScore == Some(score)
    {
      gScore := Some(score);
    }

    method SetHScore(score: int)
      modifies this`hScore
      ensures hScore == Some(score)
    {
      hScore := Some(score);
    }

    method SetList(listType: ListType)
      modifies this`listType
      ensures this.listType == Some(listType)
    {
      this.listType := Some(listType);
    }

    method SetEntities(entities: int)
      modifies this`entities
      ensures this.entities == entities
    {
      this.entities := entities;
    }

    /** When only this node changed, the view of the graph changes at its coordinates only. */
    twostate lemma ViewUpdated(graph: map<Coord, Node>)
      requires KeysMatch(graph) && InGraph(graph, this)
      requires forall m | m in graph.Values && m != this :: old(View(m)) == View(m)
      ensures State(graph) == old(State(graph))[coordinates := View(this)]
    {
    }

    /** `f = g + h`, then the node moves to the front of the open list when its
        `f` is strictly below that of the node at the front (compared after the
        update, so a node already at the front stays where it is). */
    method FScoreDetermination(openList: AStarList)
      requires gScore.Some? && hScore.Some? && |openList.nodes| > 0
      modifies this`fScore, openList`nodes
      ensures fScore == Some(gScore.value + hScore.value)
      ensures openList.nodes ==
                if Py2Less(fScore.value, old(openList.nodes)[0].fScore) then [this] + old(openList.nodes)
                else old(openList.nodes)
    {
      fScore := Some(gScore.value + hScore.value);
      if Py2Less(fScore.value, openList.nodes[0].fScore) {
        openList.Resort(this);
      }
    }

    /** The new path through `parent`: parent, `g` and `h` are set, then
        `FScoreDetermination` sets `f` and may move the node to the front. */
    method TakePath(parent: Node, g: int, h: int, openList: AStarList)
      requires |openList.nodes| > 0
      modifies this`parentNode, this`gScore, this`hScore, this`fScore, openList`nodes
      ensures parentNode == parent && gScore == Some(g) && hScore == Some(h) && fScore == Some(g + h)
      ensures openList.nodes ==
                if Py2Less(g + h, old(openList.nodes)[0].fScore) then [this] + old(openList.nodes)
                else old(openList.nodes)
    {
      SetParent(parent);
      SetGScore(g);
      SetHScore(h);
      FScoreDetermination(openList);
    }

    /** The start node's scores: `g = 0`, `h` given, then `FScoreDetermination`. */
    method ScoreStart(h: int, openList: AStarList)
      requires |openList.nodes| > 0
      modifies this`gScore, this`hScore, this`fScore, openList`nodes
      ensures gScore == Some(0) && hScore == Some(h) && fScore == Some(h)
      ensures openList.nodes ==
                if Py2Less(h, old(openList.nodes)[0].fScore) then [this] + old(openList.nodes)
                else old(openList.nodes)
    {
      SetGScore(0);
      SetHScore(h);
      FScoreDetermination(openList);
    }

    /** When only this node's parent may have changed, to a node of the graph,
        every parent link still points into the graph. */
    twostate lemma ParentsKept(graph: map<Coord, Node>)
      requires old(ParentsInGraph(graph)) && ParentInGraph(graph, this)
      requires forall m | m in graph.Values && m != this :: old(m.parentNode) == m.parentNode
      ensures ParentsInGraph(graph)
    {
      forall c | c in graph
        ensures ParentInGraph(graph, graph[c])
      {
        if graph[c] != this {
          assert old(ParentInGraph(graph, graph[c]));
        }
      }
    }

    /** The neighbours the search may step to, in the dictionary's iteration
        order `order`: the directions that survive the edge checks and the
        corner-cutting rule, leading to a node that is neither a wall nor in
        the closed list. Each returned node gets the cost of its move written
        into it; nothing else changes. */
    method GetNeighborNodes(graph: map<Coord, Node>, w: int, h: int, order: seq<Direction>)
      returns (neighbors: seq<Node>)
      requires GraphValid(graph, w, h) && InBounds(coordinates, w, h) && IsDirectionOrder(order)
      modifies graph.Values`parentMoveCost
      ensures
        var ks := KeptDirections(State(graph), coordinates, order, w, h);
        && |neighbors| == |ks|
        && (forall i | 0 <= i < |ks| ::
              && Neighbor(coordinates, ks[i]) in graph
              && neighbors[i] == graph[Neighbor(coordinates, ks[i])]
              && neighbors[i].parentMoveCost == Some(MoveCost(ks[i])))
      ensures Coords(neighbors) == NeighborCoords(coordinates, KeptDirections(State(graph), coordinates, order, w, h))
      ensures forall k | k in graph && graph[k] !in neighbors :: graph[k].parentMoveCost == old(graph[k].parentMoveCost)
      ensures State(graph) == old(State(graph))
    {
      ghost var S := State(graph);
      var present := SurvivingDirections(graph, w, h);
      neighbors := CollectNeighbors(graph, w, h, order, present, S);
      StateUnchanged(graph);
    }

    /** The loop over the surviving directions: keeps the nodes that are
        neither a wall nor closed, writing each one's move cost. */
    method CollectNeighbors(graph: map<Coord, Node>, w: int, h: int, order: seq<Direction>,
                            present: set<Direction>, ghost S: Cells)
      returns (neighbors: seq<Node>)
      requires GraphValid(graph, w, h) && InBounds(coordinates, w, h) && IsDirectionOrder(order)
      requires S.Keys == graph.Keys
      requires forall k | k in graph :: S[k].entities == graph[k].entities && S[k].list == graph[k].listType
      requires forall d: Direction :: d in present <==>
                 EdgeKept(coordinates, d, w, h) && CornerKept(S, coordinates, d, w, h)
      modifies graph.Values`parentMoveCost
      ensures
        var ks := KeptDirections(S, coordinates, order, w, h);
        && |neighbors| == |ks|
        && (forall i | 0 <= i < |ks| ::
              && Neighbor(coordinates, ks[i]) in graph
              && neighbors[i] == graph[Neighbor(coordinates, ks[i])]
              && neighbors[i].parentMoveCost == Some(MoveCost(ks[i])))
      ensures forall k | k in graph && graph[k] !in neighbors :: graph[k].parentMoveCost == old(graph[k].parentMoveCost)
    {
      var c := coordinates;

      neighbors := [];
      ghost var ks: seq<Direction> := [];
      for i := 0 to |order|
        invariant ks == KeptDirections(S, c, order[..i], w, h)
        invariant NodesAt(graph, c, ks, neighbors)
        invariant forall j | 0 <= j < |ks| :: neighbors[j].parentMoveCost == Some(MoveCost(ks[j]))
        invariant forall k | k in graph && graph[k] !in neighbors :: graph[k].parentMoveCost == old(graph[k].parentMoveCost)
      {
        var d := order[i];
        KeptDirectionsStep(S, c, order, i, w, h);
        if d in present {
          EdgeKeptInBounds(c, d, w, h);
          var node := graph[Neighbor(c, d)];
          if node.entities != Wall && node.listType != Some(ClosedList) {
            assert Kept(S, c, d, w, h);
            forall j | 0 <= j < |ks| ensures neighbors[j] != node {
              NeighborInjective(c, ks[j], d);
              assert ks[j] in order[..i];
            }
            NodesAtAppend(graph, c, ks, neighbors, d);
            neighbors := KeepNeighbor(neighbors, ks, node, d);
            ks := ks + [d];
          } else {
            assert !Kept(S, c, d, w, h);
          }
        } else {
          assert !Kept(S, c, d, w, h);
        }
      }
      assert order[..|order|] == order;
    }

    /** Appends a kept neighbour and writes its move cost; the costs already
        written stay in place. */
    method KeepNeighbor(neighbors: seq<Node>, ghost ks: seq<Direction>, node: Node, d: Direction)
      returns (neighbors': seq<Node>)
      requires |neighbors| == |ks| && node !in neighbors
      requires forall j | 0 <= j < |ks| :: neighbors[j].parentMoveCost == Some(MoveCost(ks[j]))
      modifies node`parentMoveCost
      ensures neighbors' == neighbors + [node]
      ensures forall j | 0 <= j < |ks| + 1 :: neighbors'[j].parentMoveCost == Some(MoveCost((ks + [d])[j]))
    {
      node.SetMoveCostFor(d);
      neighbors' := neighbors + [node];
      forall j | 0 <= j < |ks| + 1
        ensures neighbors'[j].parentMoveCost == Some(MoveCost((ks + [d])[j]))
      {
        if j < |ks| {
          assert neighbors'[j] == neighbors[j] != node;
        }
      }
    }

    /** The keys of the neighbour dictionary left after the edge checks and
        the corner-cutting rule: a direction survives when it does not leave
        the bounds and, for a diagonal, neither orthogonal direction it cuts
        past survived the edge checks with a wall at its end. */
    method SurvivingDirections(graph: map<Coord, Node>, w: int, h: int) returns (present: set<Direction>)
      requires GraphValid(graph, w, h) && InBounds(coordinates, w, h)
      ensures forall d: Direction :: d in present <==>
                EdgeKept(coordinates, d, w, h) && CornerKept(State(graph), coordinates, d, w, h)
    {
      var c := coordinates;
      present := {Top, Bottom, Left, Right, TopLeft, TopRight, BottomLeft, BottomRight};

      // edge checks
      if c.0 <= 0 {
        present := present - {Left, TopLeft, BottomLeft};
      }
      if c.0 >= w - 1 {
        present := present - {Right, TopRight, BottomRight};
      }
      if c.1 <= 0 {
        present := present - {Top, TopLeft, TopRight};
      }
      if c.1 >= h - 1 {
        present := present - {Bottom, BottomLeft, BottomRight};
      }
      forall d: Direction
        ensures d in present <==> EdgeKept(c, d, w, h)
      {
        match d
        case Top => case Bottom => case Left => case Right =>
        case TopLeft => case TopRight => case BottomLeft => case BottomRight =>
      }
      ghost var edges := present;

      // corner cutting
      var cutTop := false;
      if Top in present {
        EdgeKeptInBounds(c, Top, w, h);
        cutTop := graph[Neighbor(c, Top)].entities == Wall;
      }
      var cutBottom := false;
      if Bottom in present {
        EdgeKeptInBounds(c, Bottom, w, h);
        cutBottom := graph[Neighbor(c, Bottom)].entities == Wall;
      }
      var cutRight := false;
      if Right in present {
        EdgeKeptInBounds(c, Right, w, h);
        cutRight := graph[Neighbor(c, Right)].entities == Wall;
      }
      var cutLeft := false;
      if Left in present {
        EdgeKeptInBounds(c, Left, w, h);
        cutLeft := graph[Neighbor(c, Left)].entities == Wall;
      }
      present := CutCorners(present, cutTop, cutBottom, cutRight, cutLeft);
      ghost var S := State(graph);
      assert cutTop == CutsCorner(S, c, Top, w, h);
      assert cutBottom == CutsCorner(S, c, Bottom, w, h);
      assert cutRight == CutsCorner(S, c, Right, w, h);
      assert cutLeft == CutsCorner(S, c, Left, w, h);
      SurvivorsByCuts(S, c, w, h, edges, present, cutTop, cutBottom, cutRight, cutLeft);
    }
  }

  /** Drops the diagonals next to each orthogonal direction found blocked, as
      the four corner checks delete them from the neighbour dictionary. */
  method CutCorners(edges: set<Direction>, cutTop: bool, cutBottom: bool, cutRight: bool, cutLeft: bool)
    returns (present: set<Direction>)
    ensures forall d: Direction :: d in present <==>
              && d in edges
              && !(cutTop && d in {TopLeft, TopRight})
              && !(cutBottom && d in {BottomLeft, BottomRight})
              && !(cutRight && d in {TopRight, BottomRight})
              && !(cutLeft && d in {TopLeft, BottomLeft})
  {
    present := edges;
    if cutTop {
      present := present - {TopLeft, TopRight};
    }
    if cutBottom {
      present := present - {BottomLeft, BottomRight};
    }
    if cutRight {
      present := present - {TopRight, BottomRight};
    }
    if cutLeft {
      present := present - {TopLeft, BottomLeft};
    }
  }

  /** A list of nodes and the list type it stamps on the nodes it receives. */
  class AStarList {
    var nodes: seq<Node>
    const listType: ListType

    constructor (listType: ListType)
      ensures nodes == [] && this.listType == listType
    {
      nodes := [];
      this.listType := listType;
    }

    /** Appends the node and records the list in it. */
    method AddNode(node: Node)
      modifies this`nodes, node`listType
      ensures nodes == old(nodes) + [node]
      ensures node.listType == Some(listType)
    {
      nodes := nodes + [node];
      node.SetList(listType);
    }

    /** Python's `list.remove`: only the first occurrence goes. The source raises
        `ValueError` for a node that is not in the list; that path is excluded here. */
    method RemoveNode(node: Node)
      requires node in nodes
      modifies this`nodes
      ensures nodes == RemoveFirst(old(nodes), node)
      ensures |nodes| == |old(nodes)| - 1
    {
      var i := 0;
      while nodes[i] != node
        invariant 0 <= i < |nodes| && node in nodes[i..]
        invariant forall j | 0 <= j < i :: nodes[j] != node
        decreases |nodes| - i
      {
        assert nodes[i..] == [nodes[i]] + nodes[i + 1..];
        i := i + 1;
      }
      RemoveFirstAt(nodes, node, i);
      nodes := nodes[..i] + nodes[i + 1..];
    }

    /** Puts the node in front; an earlier copy stays where it was. */
    method Resort(node: Node)
      modifies this`nodes
      ensures nodes == [node] + old(nodes)
    {
      nodes := [node] + nodes;
    }

    /** The node at the front (the linear scan for a true minimum is not done). */
    function GetNodeWithLowestFScore(): (r: Node)
      reads this`nodes
      requires |nodes| > 0
      ensures r in nodes && r == nodes[0]
    {
      nodes[0]
    }
  }

  /** The coordinates of a sequence of nodes. */
  function Coords(ns: seq<Node>): (r: seq<Coord>)
    ensures |r| == |ns| && forall i | 0 <= i < |ns| :: r[i] == ns[i].coordinates
  {
    seq(|ns|, i requires 0 <= i < |ns| => ns[i].coordinates)
  }

  lemma CoordsPrepend(n: Node, ns: seq<Node>)
    ensures Coords([n] + ns) == [n.coordinates] + Coords(ns)
  {
  }

  lemma CoordsSnoc(ns: seq<Node>, n: Node)
    ensures Coords(ns + [n]) == Coords(ns) + [n.coordinates]
  {
  }

  lemma CoordsAppend(cs: seq<Coord>, n: Node)
    ensures forall ns: seq<Node> | Coords(ns) == cs :: Coords(ns + [n]) == cs + [n.coordinates]
  {
  }

  /** Removing the first occurrence at its index. */
  lemma RemoveFirstAt(s: seq<Node>, x: Node, i: int)
    requires 0 <= i < |s| && s[i] == x && forall j | 0 <= j < i :: s[j] != x
    ensures RemoveFirst(s, x) == s[..i] + s[i + 1..]
    decreases i
  {
    if i > 0 {
      RemoveFirstAt(s[1..], x, i - 1);
      assert s[1..][..i - 1] == s[1..i];
      assert s[1..][i..] == s[i + 1..];
      assert s[..i] == [s[0]] + s[1..i];
    }
  }

  /** What the search sees of one node. */
  ghost function View(n: Node): Cell
    reads n`entities, n`gScore, n`hScore, n`fScore, n`parentNode, n`listType
  {
    Cell(n.entities, n.gScore, n.hScore, n.fScore,
         if n.parentNode == null then None else Some(n.parentNode.coordinates), n.listType)
  }

  /** The graph as a map of cells. The move cost is left out: it is scratch
      data written during neighbour generation and read right after. */
  ghost function State(graph: map<Coord, Node>): (S: Cells)
    reads graph.Values`entities, graph.Values`gScore, graph.Values`hScore, graph.Values`fScore,
          graph.Values`parentNode, graph.Values`listType
    ensures S.Keys == graph.Keys
    ensures forall c | c in graph :: S[c] == View(graph[c])
  {
    map c | c in graph :: View(graph[c])
  }

  /** `ns` are the nodes of the graph one step from `c` in the directions `ds`. */
  ghost predicate NodesAt(graph: map<Coord, Node>, c: Coord, ds: seq<Direction>, ns: seq<Node>) {
    && |ns| == |ds|
    && forall j | 0 <= j < |ds| :: Neighbor(c, ds[j]) in graph && ns[j] == graph[Neighbor(c, ds[j])]
  }

  lemma NodesAtAppend(graph: map<Coord, Node>, c: Coord, ds: seq<Direction>, ns: seq<Node>, d: Direction)
    requires NodesAt(graph, c, ds, ns) && Neighbor(c, d) in graph
    ensures NodesAt(graph, c, ds + [d], ns + [graph[Neighbor(c, d)]])
  {
  }

  /** The view of the graph is unchanged when no node's view changed. */
  twostate lemma StateUnchanged(graph: map<Coord, Node>)
    requires forall m | m in graph.Values :: old(View(m)) == View(m)
    ensures State(graph) == old(State(graph))
  {
  }

  /** Every node sits under its own coordinates. */
  ghost predicate KeysMatch(graph: map<Coord, Node>) {
    forall c | c in graph :: graph[c].coordinates == c
  }

  /** Keys match and every cell inside the bounds has a node, as `init_graph` builds it. */
  ghost predicate GraphValid(graph: map<Coord, Node>, w: int, h: int) {
    KeysMatch(graph) && forall c | InBounds(c, w, h) :: c in graph
  }

  predicate InGraph(graph: map<Coord, Node>, n: Node) {
    n.coordinates in graph && graph[n.coordinates] == n
  }

  /** Every node of the sequence is the graph's node at its coordinates. */
  ghost predicate AllInGraph(graph: map<Coord, Node>, ns: seq<Node>) {
    forall i | 0 <= i < |ns| :: InGraph(graph, ns[i])
  }

  /** Every parent link points at a node of the graph. */
  ghost predicate ParentsInGraph(graph: map<Coord, Node>)
    reads graph.Values`parentNode
  {
    forall c {:trigger ParentInGraph(graph, graph[c])} | c in graph :: ParentInGraph(graph, graph[c])
  }

  /** The node has no parent or its parent is a node of the graph. */
  ghost predicate ParentInGraph(graph: map<Coord, Node>, n: Node)
    reads n`parentNode
  {
    n.parentNode == null || InGraph(graph, n.parentNode)
  }

  /** The events, formatted one by one. */
  function FormatSteps(ev: seq<Step>): (steps: seq<string>)
    ensures |steps| == |ev|
    decreases |ev|
  {
    if ev == [] then [] else FormatSteps(ev[..|ev| - 1]) + [FormatStep(ev[|ev| - 1])]
  }

  /** Entry `i` of the step strings is event `i`, rendered. */
  lemma {:induction false} FormatStepsAt(ev: seq<Step>)
    ensures forall i | 0 <= i < |ev| :: FormatSteps(ev)[i] == FormatStep(ev[i])
    decreases |ev|
  {
    if ev != [] {
      var front := ev[..|ev| - 1];
      FormatStepsAt(front);
      forall i | 0 <= i < |ev| - 1 ensures FormatSteps(ev)[i] == FormatStep(ev[i]) {
        assert front[i] == ev[i];
      }
    }
  }

  /** The step strings are the events, formatted one by one. */
  predicate Logged(steps: seq<string>, ev: seq<Step>) {
    steps == FormatSteps(ev)
  }

  /** `AddNode` on a node of the graph: the list grows by the node, whose
      view now carries the list's type. */
  method Enlist(graph: map<Coord, Node>, list: AStarList, node: Node)
    requires KeysMatch(graph) && InGraph(graph, node) && AllInGraph(graph, list.nodes) && ParentsInGraph(graph)
    modifies list`nodes, node`listType
    ensures list.nodes == old(list.nodes) + [node]
    ensures State(graph) == old(State(graph))[node.coordinates := old(View(node)).(list := Some(list.listType))]
    ensures AllInGraph(graph, list.nodes) && ParentsInGraph(graph)
  {
    list.AddNode(node);
    node.ViewUpdated(graph);
  }

  /** `TakePath` on a node of the graph: its cell gets the new parent, `g`,
      `h` and `f`. */
  method Relink(graph: map<Coord, Node>, node: Node, parent: Node, g: int, h: int, openList: AStarList)
    requires KeysMatch(graph) && InGraph(graph, node) && InGraph(graph, parent)
    requires ParentsInGraph(graph) && AllInGraph(graph, openList.nodes) && |openList.nodes| > 0
    modifies node`parentNode, node`gScore, node`hScore, node`fScore, openList`nodes
    ensures openList.nodes ==
              if Py2Less(g + h, old(openList.nodes)[0].fScore) then [node] + old(openList.nodes)
              else old(openList.nodes)
    ensures
      var S := old(State(graph));
      State(graph) == S[node.coordinates := S[node.coordinates].(g := Some(g), h := Some(h), f := Some(g + h),
                                                                 parent := Some(parent.coordinates))]
    ensures ParentsInGraph(graph) && AllInGraph(graph, openList.nodes)
  {
    node.TakePath(parent, g, h, openList);
    node.ViewUpdated(graph);
    node.ParentsKept(graph);
  }

  /** Taking the path on the cells after the neighbour was opened (or found
      open) gives `Relax` on the cells before. */
  lemma RelaxIs(S: Cells, P: Problem, c: Coord, n: Coord, cost: int, T: Cells, g: int, hh: int)
    requires c in S && n in S && S[c].g.Some?
    requires T == S || T == S[n := S[n].(list := Some(OpenList))]
    requires T[n].list == Some(OpenList)
    requires g == S[c].g.value + cost && hh == HeuristicDistance(n, P.target)
    ensures T[n := T[n].(g := Some(g), h := Some(hh), f := Some(g + hh), parent := Some(c))] == Relax(S, P, c, n, cost)
  {
  }

  /** One neighbour of the expanded node `current`: a node not in the open
      list is appended to it and logged, and its new path is taken; an open
      node takes the new path only when it lowers `g`. A taken path sets the
      parent, `g`, `h` and `f`, and `f` may move the node to the front. */
  method ProcessNeighbor(graph: map<Coord, Node>, target: Coord, openList: AStarList,
                         current: Node, neighbor: Node, steps: seq<string>, ghost P: Problem)
    returns (steps': seq<string>)
    requires P.target == target && KeysMatch(graph)
    requires openList.listType == OpenList && AllInGraph(graph, openList.nodes)
    requires InGraph(graph, current) && InGraph(graph, neighbor) && ParentsInGraph(graph)
    requires current.listType == Some(ClosedList) && neighbor.listType != Some(ClosedList)
    requires current.gScore.Some?
    requires neighbor.parentMoveCost == Some(StepCost(current.coordinates, neighbor.coordinates))
    requires neighbor.listType == Some(OpenList) ==> |openList.nodes| > 0
    modifies neighbor`parentNode, neighbor`gScore, neighbor`hScore, neighbor`fScore, neighbor`listType
    modifies openList`nodes
    ensures
      var S := old(State(graph));
      current.coordinates in S && neighbor.coordinates in S && S[current.coordinates].g.Some?
    ensures
      var S, c, n := old(State(graph)), current.coordinates, neighbor.coordinates;
      State(graph) == (if Accepts(S, c, n, StepCost(c, n)) then Relax(S, P, c, n, StepCost(c, n)) else S)
    ensures
      var S, c, n := old(State(graph)), current.coordinates, neighbor.coordinates;
      var open1 := if OpenAt(S, n) then Coords(old(openList.nodes)) else Coords(old(openList.nodes)) + [n];
      Coords(openList.nodes) == open1 || (Accepts(S, c, n, StepCost(c, n)) && Coords(openList.nodes) == [n] + open1)
    ensures
      var S, c, n := old(State(graph)), current.coordinates, neighbor.coordinates;
      !Accepts(S, c, n, StepCost(c, n)) ==> openList.nodes == old(openList.nodes)
    ensures
      var S, n := old(State(graph)), neighbor.coordinates;
      steps' == steps + (if OpenAt(S, n) then [] else [FormatStep(Step(AddToOpenList, n))])
    ensures AllInGraph(graph, openList.nodes) && ParentsInGraph(graph)
  {
    ghost var S0 := State(graph);
    ghost var cc := current.coordinates;
    ghost var nn := neighbor.coordinates;
    ghost var open := Coords(openList.nodes);
    assert S0[cc] == View(current) && S0[nn] == View(neighbor);
    ghost var step := StepCost(cc, nn);

    var tentative := current.gScore.value + neighbor.parentMoveCost.value;
    assert tentative == S0[cc].g.value + step;
    var accepted: bool;
    steps' := steps;
    if neighbor.listType != Some(OpenList) {
      Enlist(graph, openList, neighbor);
      accepted := true;
      steps' := steps' + [FormatStep(Step(AddToOpenList, neighbor.coordinates))];
      CoordsAppend(open, neighbor);
    } else if Py2Less(tentative, neighbor.gScore) {
      accepted := true;
    } else {
      accepted := false;
    }
    assert accepted == Accepts(S0, cc, nn, step);
    ghost var S1 := State(graph);
    ghost var before := openList.nodes;
    if accepted {
      var hh := HeuristicDistance(neighbor.coordinates, target);
      RelaxIs(S0, P, cc, nn, step, S1, tentative, hh);
      Relink(graph, neighbor, current, tentative, hh, openList);
      CoordsPrepend(neighbor, before);
    }
  }

  /** The steps logged so far grow by one formatted event. */
  lemma LoggedAppend(steps: seq<string>, ev: seq<Step>, x: Step)
    requires Logged(steps, ev)
    ensures Logged(steps + [FormatStep(x)], ev + [x])
  {
    assert (ev + [x])[..|ev|] == ev;
  }

  lemma CoordsTail(ns: seq<Node>)
    requires |ns| > 0
    ensures Coords(ns[1..]) == Coords(ns)[1..]
  {
  }

  /** The start of `find_path`: the start node enters the open list, gets
      `g = 0` and its heuristic, and stays the only node of the list because
      its `f` is compared with itself. */
  method StartSearch(graph: map<Coord, Node>, start: Node, target: Coord, openList: AStarList, ghost P: Problem)
    requires KeysMatch(graph) && InGraph(graph, start) && P.player == start.coordinates && P.target == target
    requires openList.nodes == [] && openList.listType == OpenList && ParentsInGraph(graph)
    modifies start`gScore, start`hScore, start`fScore, start`listType, openList`nodes
    ensures openList.nodes == [start]
    ensures State(graph) == Begin(old(State(graph)), P)
    ensures ParentsInGraph(graph)
  {
    openList.AddNode(start);
    start.ScoreStart(HeuristicDistance(start.coordinates, target), openList);
    start.ViewUpdated(graph);
  }

  /** The `parentNode` links of the graph agree with the parents of `S`. */
  ghost predicate LinksMatch(graph: map<Coord, Node>, S: Cells)
    reads graph.Values`parentNode
  {
    forall c | c in graph ::
      && c in S
      && (graph[c].parentNode == null <==> S[c].parent.None?)
      && (graph[c].parentNode != null ==>
            InGraph(graph, graph[c].parentNode) && S[c].parent == Some(graph[c].parentNode.coordinates))
  }

  lemma LinksMatchState(graph: map<Coord, Node>)
    requires KeysMatch(graph) && ParentsInGraph(graph)
    ensures LinksMatch(graph, State(graph))
  {
    var S := State(graph);
    forall c | c in graph
      ensures graph[c].parentNode != null ==> InGraph(graph, graph[c].parentNode)
    {
      assert ParentInGraph(graph, graph[c]);
    }
  }

  /** One step along a parent chain: the entry at `k` is `c`, followed by the
      chain of its parent, or by nothing when `c` has none. */
  lemma ChainAdvance(S: Cells, chain: seq<Coord>, k: int, c: Coord)
    requires Ranked(S) && c in S && 0 <= k < |chain|
    requires chain[k..] == [c] + ParentChain(S, c)
    ensures chain[k] == c
    ensures S[c].parent.None? ==> k + 1 == |chain|
    ensures S[c].parent.Some? ==>
              && S[c].parent.value in S && S[S[c].parent.value].g.Some?
              && 0 <= S[S[c].parent.value].g.value < S[c].g.value
              && chain[k + 1..] == [S[c].parent.value] + ParentChain(S, S[c].parent.value)
  {
    ParentChainStep(S, c);
    assert chain[k] == chain[k..][0];
    assert chain[k + 1..] == chain[k..][1..];
  }

  /** The parents of the node at `target`, nearest first, up to the node with
      no parent. */
  method ReconstructPath(graph: map<Coord, Node>, target: Coord) returns (path: seq<Node>)
    requires KeysMatch(graph) && target in graph && ParentsInGraph(graph) && Ranked(State(graph))
    ensures Coords(path) == ParentChain(State(graph), target)
    ensures AllInGraph(graph, path)
    ensures State(graph) == old(State(graph))
  {
    ghost var S := State(graph);
    LinksMatchState(graph);
    path := [];
    var parent := graph[target].parentNode;
    ParentChainStep(S, target);
    ghost var chain := ParentChain(S, target);
    while parent != null
      invariant LinksMatch(graph, S)
      invariant |path| <= |chain|
      invariant parent != null ==>
                  && InGraph(graph, parent)
                  && S[parent.coordinates].g.Some? && S[parent.coordinates].g.value >= 0
                  && chain[|path|..] == [parent.coordinates] + ParentChain(S, parent.coordinates)
      invariant parent == null ==> |path| == |chain|
      invariant forall i | 0 <= i < |path| :: InGraph(graph, path[i]) && path[i].coordinates == chain[i]
      decreases if parent == null then 0 else S[parent.coordinates].g.value + 1
    {
      var node: Node := parent;
      ChainAdvance(S, chain, |path|, node.coordinates);
      path := path + [node];
      parent := node.parentNode;
    }
  }

  /** The move cost `node` carries is the cost of the step from `current`. */
  predicate CostFrom(current: Node, node: Node)
    reads node`parentMoveCost
  {
    node.parentMoveCost == Some(StepCost(current.coordinates, node.coordinates))
  }

  /** One pass of the loop over the neighbours of `current`: the neighbour
      `pending[i]` is processed and leaves the pending cells. */
  method RelaxOne(graph: map<Coord, Node>, target: Coord, openList: AStarList, current: Node, neighbor: Node,
                  steps: seq<string>, ghost P: Problem, ghost ev: seq<Step>, ghost pending: seq<Coord>, ghost i: nat)
    returns (steps': seq<string>, ghost ev': seq<Step>)
    requires P.target == target && KeysMatch(graph) && InGraph(graph, current) && InGraph(graph, neighbor)
    requires openList.listType == OpenList && AllInGraph(graph, openList.nodes) && ParentsInGraph(graph)
    requires i < |pending| && pending[i] == neighbor.coordinates
    requires CostFrom(current, neighbor)
    requires Expanding(State(graph), P, Coords(openList.nodes), ev, current.coordinates, pending[i..])
    requires Logged(steps, ev)
    modifies neighbor`parentNode, neighbor`gScore, neighbor`hScore, neighbor`fScore, neighbor`listType
    modifies openList`nodes
    ensures Expanding(State(graph), P, Coords(openList.nodes), ev', current.coordinates, pending[i + 1..])
    ensures Logged(steps', ev')
    ensures AllInGraph(graph, openList.nodes) && ParentsInGraph(graph)
    ensures NoWorse(old(State(graph)), |old(openList.nodes)|, State(graph), |openList.nodes|)
  {
    ghost var c := current.coordinates;
    ghost var S := State(graph);
    ghost var open := Coords(openList.nodes);
    ghost var n := neighbor.coordinates;
    ghost var cost := StepCost(c, n);
    assert pending[i..][0] == n && pending[i..][1..] == pending[i + 1..];
    assert S[c] == View(current) && S[n] == View(neighbor);
    assert neighbor.listType == Some(OpenList) ==> n in open;
    steps' := ProcessNeighbor(graph, target, openList, current, neighbor, steps, P);
    ProcessPending(S, P, open, ev, c, pending[i..], Coords(openList.nodes));
    RelaxNoWorse(S, P, c, n, cost, |open|, |openList.nodes|);
    if OpenAt(S, n) {
      ev' := ev;
    } else {
      LoggedAppend(steps, ev, Step(AddToOpenList, n));
      ev' := ev + [Step(AddToOpenList, n)];
    }
  }

  /** The invariant of the loop over the neighbours of `current`, after the
      first `i` of them: the cells are `Expanding` with the rest pending, the
      log matches, and no measure of the search has grown since `S0` and `k0`.
      The body is a `match` so that it is proved and used as one fact. */
  ghost predicate Relaxing(graph: map<Coord, Node>, openList: AStarList, current: Node, neighbors: seq<Node>,
                           steps: seq<string>, P: Problem, ev: seq<Step>, i: nat, S0: Cells, k0: int)
    reads graph.Values, openList, neighbors
  {
    match P
    case Problem(_, _, _, _, _) =>
      && i <= |neighbors| && KeysMatch(graph) && InGraph(graph, current)
      && openList.listType == OpenList && AllInGraph(graph, openList.nodes) && ParentsInGraph(graph)
      && (forall j | i <= j < |neighbors| :: InGraph(graph, neighbors[j]) && CostFrom(current, neighbors[j]))
      && Expanding(State(graph), P, Coords(openList.nodes), ev, current.coordinates, Coords(neighbors)[i..])
      && Logged(steps, ev)
      && NoWorse(S0, k0, State(graph), |openList.nodes|)
  }

  /** One pass of the neighbour loop keeps `Relaxing`. */
  method RelaxStep(graph: map<Coord, Node>, target: Coord, openList: AStarList, current: Node,
                   neighbors: seq<Node>, steps: seq<string>, ghost P: Problem, ghost ev: seq<Step>, i: nat,
                   ghost S0: Cells, ghost k0: int)
    returns (steps': seq<string>, ghost ev': seq<Step>)
    requires P.target == target && i < |neighbors|
    requires Relaxing(graph, openList, current, neighbors, steps, P, ev, i, S0, k0)
    modifies graph.Values`parentNode, graph.Values`gScore, graph.Values`hScore, graph.Values`fScore
    modifies graph.Values`listType, openList`nodes
    ensures Relaxing(graph, openList, current, neighbors, steps', P, ev', i + 1, S0, k0)
  {
    ghost var S := State(graph);
    ghost var k := |openList.nodes|;
    ghost var pending := Coords(neighbors);
    assert pending[i..] == Coords(neighbors)[i..];
    steps', ev' := RelaxOne(graph, target, openList, current, neighbors[i], steps, P, ev, pending, i);
    NoWorseTrans(S0, k0, S, k, State(graph), |openList.nodes|);
  }

  /** The loop over the neighbours of the expanded node `current`; it ends
      with every pending neighbour processed. */
  method RelaxNeighbors(graph: map<Coord, Node>, target: Coord, openList: AStarList, closedList: AStarList,
                        current: Node, neighbors: seq<Node>, steps: seq<string>, ghost P: Problem,
                        ghost ev: seq<Step>, ghost S: Cells, ghost open: seq<Coord>,
                        ghost before: Cells, ghost k: int)
    returns (steps': seq<string>, ghost ev': seq<Step>)
    requires P.target == target && KeysMatch(graph) && InGraph(graph, current)
    requires ListsOk(graph, openList, closedList) && ParentsInGraph(graph)
    requires forall j | 0 <= j < |neighbors| :: InGraph(graph, neighbors[j]) && CostFrom(current, neighbors[j])
    requires S == State(graph) && open == Coords(openList.nodes)
    requires Unlisted(S) == Unlisted(before) && Budget(S) == Budget(before) && |open| < k
    requires Expanding(S, P, open, ev, current.coordinates, Coords(neighbors))
    requires Logged(steps, ev)
    modifies graph.Values`parentNode, graph.Values`gScore, graph.Values`hScore, graph.Values`fScore
    modifies graph.Values`listType, openList`nodes
    ensures ListsOk(graph, openList, closedList) && ParentsInGraph(graph)
    ensures Better(before, k, State(graph), |openList.nodes|)
    ensures Idle(State(graph), P, Coords(openList.nodes), ev') && Logged(steps', ev')
  {
    ghost var S0 := S;
    ghost var k0 := |open|;
    steps', ev' := steps, ev;
    RelaxingStart(graph, openList, current, neighbors, steps, P, ev, S, open);
    for i := 0 to |neighbors|
      invariant Relaxing(graph, openList, current, neighbors, steps', P, ev', i, S0, k0)
    {
      steps', ev' := RelaxStep(graph, target, openList, current, neighbors, steps', P, ev', i, S0, k0);
    }
    RelaxingDone(graph, openList, current, neighbors, steps', P, ev', S0, k0);
    ExpansionBetter(before, k, S0, k0, State(graph), |openList.nodes|);
  }


  lemma RelaxingStart(graph: map<Coord, Node>, openList: AStarList, current: Node, neighbors: seq<Node>,
                      steps: seq<string>, P: Problem, ev: seq<Step>, S: Cells, open: seq<Coord>)
    requires KeysMatch(graph) && InGraph(graph, current)
    requires openList.listType == OpenList && AllInGraph(graph, openList.nodes) && ParentsInGraph(graph)
    requires forall j | 0 <= j < |neighbors| :: InGraph(graph, neighbors[j]) && CostFrom(current, neighbors[j])
    requires S == State(graph) && open == Coords(openList.nodes)
    requires Expanding(S, P, open, ev, current.coordinates, Coords(neighbors))
    requires Logged(steps, ev)
    ensures Relaxing(graph, openList, current, neighbors, steps, P, ev, 0, State(graph), |openList.nodes|)
  {
    assert Coords(neighbors)[0..] == Coords(neighbors);
  }

  lemma RelaxingDone(graph: map<Coord, Node>, openList: AStarList, current: Node, neighbors: seq<Node>,
                     steps: seq<string>, P: Problem, ev: seq<Step>, S0: Cells, k0: int)
    requires Relaxing(graph, openList, current, neighbors, steps, P, ev, |neighbors|, S0, k0)
    ensures Idle(State(graph), P, Coords(openList.nodes), ev)
    ensures Logged(steps, ev)
    ensures AllInGraph(graph, openList.nodes) && ParentsInGraph(graph)
    ensures NoWorse(S0, k0, State(graph), |openList.nodes|)
  {
    assert Coords(neighbors)[|neighbors|..] == [];
    FinishExpansion(State(graph), P, Coords(openList.nodes), ev, current.coordinates);
  }

  /** The chosen node leaves the open list (its first copy, here the head),
      joins the closed list, and the closing is logged. */
  method CloseNode(graph: map<Coord, Node>, openList: AStarList, closedList: AStarList, current: Node,
                   steps: seq<string>)
    returns (steps': seq<string>)
    requires KeysMatch(graph) && InGraph(graph, current) && ParentsInGraph(graph)
    requires openList.listType == OpenList && closedList.listType == ClosedList && openList != closedList
    requires AllInGraph(graph, openList.nodes) && AllInGraph(graph, closedList.nodes)
    requires openList.nodes != [] && openList.nodes[0] == current
    modifies openList`nodes, closedList`nodes, current`listType
    ensures Coords(openList.nodes) == RemoveFirst(Coords(old(openList.nodes)), current.coordinates)
    ensures closedList.nodes == old(closedList.nodes) + [current]
    ensures State(graph) == CloseCell(old(State(graph)), current.coordinates)
    ensures steps' == steps + [FormatStep(Step(AddToClosedList, current.coordinates))]
    ensures AllInGraph(graph, openList.nodes) && AllInGraph(graph, closedList.nodes) && ParentsInGraph(graph)
  {
    ghost var S := State(graph);
    assert S[current.coordinates] == View(current);
    DropHead(graph, openList, current);
    Enlist(graph, closedList, current);
    assert State(graph) == S[current.coordinates := S[current.coordinates].(list := Some(ClosedList))];
    steps' := steps + [FormatStep(Step(AddToClosedList, current.coordinates))];
  }

  /** `removeNode` of the node at the front of the open list. */
  method DropHead(graph: map<Coord, Node>, openList: AStarList, current: Node)
    requires AllInGraph(graph, openList.nodes)
    requires openList.nodes != [] && openList.nodes[0] == current
    modifies openList`nodes
    ensures openList.nodes == old(openList.nodes)[1..]
    ensures Coords(openList.nodes) == RemoveFirst(Coords(old(openList.nodes)), current.coordinates)
    ensures AllInGraph(graph, openList.nodes)
  {
    ghost var before := openList.nodes;
    openList.RemoveNode(current);
    RemoveFirstHead(before);
    CoordsTail(before);
    RemoveFirstHead(Coords(before));
  }

  /** The nodes neighbour generation returns are nodes of the graph carrying
      the cost of the step from `current`. */
  lemma NeighborCosts(graph: map<Coord, Node>, current: Node, neighbors: seq<Node>, ks: seq<Direction>)
    requires KeysMatch(graph) && |neighbors| == |ks|
    requires forall i | 0 <= i < |ks| ::
               && Neighbor(current.coordinates, ks[i]) in graph
               && neighbors[i] == graph[Neighbor(current.coordinates, ks[i])]
               && neighbors[i].parentMoveCost == Some(MoveCost(ks[i]))
    ensures forall j | 0 <= j < |neighbors| :: InGraph(graph, neighbors[j]) && CostFrom(current, neighbors[j])
  {
    forall j | 0 <= j < |neighbors|
      ensures InGraph(graph, neighbors[j]) && CostFrom(current, neighbors[j])
    {
      NeighborAdjacent(current.coordinates, ks[j]);
    }
  }

  /** The two lists of `find_path`, holding nodes of the graph. */
  ghost predicate ListsOk(graph: map<Coord, Node>, openList: AStarList, closedList: AStarList)
    reads openList, closedList
  {
    && openList.listType == OpenList && closedList.listType == ClosedList && openList != closedList
    && AllInGraph(graph, openList.nodes) && AllInGraph(graph, closedList.nodes)
  }

  /** The start of one pass of the main loop once the head `current` was
      chosen, logged and found not to be the goal: it moves to the closed
      list and the closing is logged. */
  method CloseChosen(graph: map<Coord, Node>, openList: AStarList, closedList: AStarList,
                     current: Node, steps: seq<string>, ghost P: Problem, ghost ev: seq<Step>)
    returns (steps': seq<string>, ghost ev': seq<Step>)
    requires GraphValid(graph, P.w, P.h)
    requires ListsOk(graph, openList, closedList) && ParentsInGraph(graph)
    requires Idle(State(graph), P, Coords(openList.nodes), ev)
    requires openList.nodes != [] && openList.nodes[0] == current && current.entities != Target
    requires Logged(steps, ev + [Step(ChooseLowestFScore, current.coordinates)])
    modifies current`listType, openList`nodes, closedList`nodes
    ensures State(graph) == CloseCell(old(State(graph)), current.coordinates)
    ensures Unlisted(State(graph)) == Unlisted(old(State(graph))) && Budget(State(graph)) == Budget(old(State(graph)))
    ensures |openList.nodes| == |old(openList.nodes)| - 1
    ensures Expanding(State(graph), P, Coords(openList.nodes), ev', current.coordinates,
                      Pending(State(graph), P, current.coordinates))
    ensures Logged(steps', ev')
    ensures ListsOk(graph, openList, closedList) && ParentsInGraph(graph) && InGraph(graph, current)
  {
    ghost var S := State(graph);
    ghost var c := current.coordinates;
    ghost var open := Coords(openList.nodes);
    assert S[c] == View(current);
    ChooseAndClose(S, P, open, ev);
    assert Listed(S, c) by {
      assert open[0] == c;
    }
    CloseMeasure(S, c);
    ghost var evc := ev + [Step(ChooseLowestFScore, c)];
    ev' := evc + [Step(AddToClosedList, c)];
    assert ev' == ev + [Step(ChooseLowestFScore, c), Step(AddToClosedList, c)];
    steps' := CloseNode(graph, openList, closedList, current, steps);
    LoggedAppend(steps, evc, Step(AddToClosedList, c));
  }

  /** The neighbours of the closed node `current`, each carrying the cost of
      the move from `current`. */
  method Generate(graph: map<Coord, Node>, current: Node, P: Problem, openList: AStarList, closedList: AStarList)
    returns (neighbors: seq<Node>)
    requires GraphValid(graph, P.w, P.h) && InGraph(graph, current)
    requires ListsOk(graph, openList, closedList) && ParentsInGraph(graph)
    requires InBounds(current.coordinates, P.w, P.h) && IsDirectionOrder(P.order)
    modifies graph.Values`parentMoveCost
    ensures State(graph) == old(State(graph)) && openList.nodes == old(openList.nodes)
    ensures ListsOk(graph, openList, closedList) && ParentsInGraph(graph)
    ensures Coords(neighbors) == Pending(State(graph), P, current.coordinates)
    ensures forall j | 0 <= j < |neighbors| :: InGraph(graph, neighbors[j]) && CostFrom(current, neighbors[j])
  {
    neighbors := current.GetNeighborNodes(graph, P.w, P.h, P.order);
    NeighborCosts(graph, current, neighbors, KeptDirections(State(graph), current.coordinates, P.order, P.w, P.h));
  }

  /** One pass of the main loop once the head `current` was chosen, logged
      and found not to be the goal: it is closed, its neighbours are
      generated and processed, and the loop invariant holds again with a
      strictly smaller measure. */
  method ExpandNode(graph: map<Coord, Node>, openList: AStarList, closedList: AStarList,
                    current: Node, steps: seq<string>, P: Problem, ghost ev: seq<Step>)
    returns (steps': seq<string>, ghost ev': seq<Step>)
    requires GraphValid(graph, P.w, P.h)
    requires ListsOk(graph, openList, closedList) && ParentsInGraph(graph)
    requires Idle(State(graph), P, Coords(openList.nodes), ev)
    requires openList.nodes != [] && openList.nodes[0] == current && current.entities != Target
    requires Logged(steps, ev + [Step(ChooseLowestFScore, current.coordinates)])
    modifies graph.Values`parentNode, graph.Values`gScore, graph.Values`hScore, graph.Values`fScore
    modifies graph.Values`listType, graph.Values`parentMoveCost, openList`nodes, closedList`nodes
    ensures ListsOk(graph, openList, closedList) && ParentsInGraph(graph)
    ensures Better(old(State(graph)), |old(openList.nodes)|, State(graph), |openList.nodes|)
    ensures Idle(State(graph), P, Coords(openList.nodes), ev') && Logged(steps', ev')
  {
    ghost var S := State(graph);
    ghost var k := |openList.nodes|;
    ghost var ev1;
    steps', ev1 := CloseChosen(graph, openList, closedList, current, steps, P, ev);
    ghost var S1 := State(graph);
    ghost var open1 := Coords(openList.nodes);
    ghost var pending := Pending(S1, P, current.coordinates);
    assert InBounds(current.coordinates, P.w, P.h) && IsDirectionOrder(P.order);
    var neighbors := Generate(graph, current, P, openList, closedList);
    assert State(graph) == S1 && Coords(openList.nodes) == open1;
    steps', ev' := RelaxNeighbors(graph, P.target, openList, closedList, current, neighbors, steps', P, ev1,
                                  S1, open1, S, k);
  }

  /** The entity of every node is left as it was. */
  twostate lemma TerrainKept(graph: map<Coord, Node>)
    requires forall m | m in graph.Values :: old(m.entities) == m.entities
    ensures SameTerrain(old(State(graph)), State(graph))
  {
  }

  /** Nodes as `init_graph` creates them have no parent. */
  lemma FreshParents(graph: map<Coord, Node>)
    requires Fresh(State(graph))
    ensures ParentsInGraph(graph)
  {
    forall c | c in graph
      ensures ParentInGraph(graph, graph[c])
    {
      assert View(graph[c]).parent.None?;
    }
  }

  /** The start of `find_path`: two empty lists, then the start node goes
      to the open list with `g = 0`, `h` its heuristic and `f = g + h`. */
  method BeginSearch(graph: map<Coord, Node>, P: Problem) returns (openList: AStarList, closedList: AStarList)
    requires GraphValid(graph, P.w, P.h) && ProblemOk(P) && Fresh(State(graph))
    modifies graph.Values`gScore, graph.Values`hScore, graph.Values`fScore, graph.Values`listType
    ensures fresh(openList) && fresh(closedList)
    ensures ListsOk(graph, openList, closedList) && ParentsInGraph(graph)
    ensures Idle(State(graph), P, Coords(openList.nodes), [])
  {
    openList := new AStarList(OpenList);
    closedList := new AStarList(ClosedList);
    EnterStart(graph, P, openList, closedList);
  }

  /** The start node goes to the empty open list with `g = 0` and `h` its heuristic. */
  method EnterStart(graph: map<Coord, Node>, P: Problem, openList: AStarList, closedList: AStarList)
    requires GraphValid(graph, P.w, P.h) && ProblemOk(P) && Fresh(State(graph))
    requires openList.nodes == [] && closedList.nodes == []
    requires openList.listType == OpenList && closedList.listType == ClosedList && openList != closedList
    modifies graph.Values`gScore, graph.Values`hScore, graph.Values`fScore, graph.Values`listType
    modifies openList`nodes
    ensures ListsOk(graph, openList, closedList) && ParentsInGraph(graph)
    ensures Idle(State(graph), P, Coords(openList.nodes), [])
  {
    ghost var S0 := State(graph);
    FreshParents(graph);
    BeginIdle(S0, P);
    var startNode := graph[P.player];
    StartSearch(graph, startNode, P.target, openList, P);
    assert Coords(openList.nodes) == [P.player];
  }

  /** The goal test succeeded on `current`, the head of the open list: the path
      is rebuilt from the target's parents. */
  method ReportPath(graph: map<Coord, Node>, openList: AStarList, current: Node, target: Coord,
                    ghost P: Problem, ghost ev: seq<Step>)
    returns (path: seq<Node>)
    requires GraphValid(graph, P.w, P.h) && P.target == target && target in graph && ParentsInGraph(graph)
    requires AllInGraph(graph, openList.nodes) && Idle(State(graph), P, Coords(openList.nodes), ev)
    requires openList.nodes != [] && openList.nodes[0] == current && current.entities == Target
    ensures AllInGraph(graph, path)
    ensures Succeeded(State(graph), P, ev + [Step(ChooseLowestFScore, current.coordinates)], Coords(path))
  {
    ghost var S := State(graph);
    assert Coords(openList.nodes)[0] == current.coordinates && S[current.coordinates] == View(current);
    Success(S, P, Coords(openList.nodes), ev);
    path := ReconstructPath(graph, target);
  }

  /** What `find_path` returns: the path and the step log, or `-1`. */
  datatype SearchResult = Found(path: seq<Node>, steps: seq<string>) | NoPath

  /** `find_path` itself: the start node goes to the open list, then while
      the open list is not empty its head is chosen and logged; a goal ends the
      search with the path rebuilt from the target, anything else is expanded.
      The outcome is stated on the cells as the search leaves them. */
  method Search(graph: map<Coord, Node>, P: Problem) returns (r: SearchResult, ghost ev: seq<Step>)
    requires GraphValid(graph, P.w, P.h) && ProblemOk(P) && P.target in graph && Fresh(State(graph))
    modifies graph.Values`parentNode, graph.Values`gScore, graph.Values`hScore, graph.Values`fScore
    modifies graph.Values`listType, graph.Values`parentMoveCost
    ensures r.Found? ==> Logged(r.steps, ev) && AllInGraph(graph, r.path) && Succeeded(State(graph), P, ev, Coords(r.path))
    ensures r.NoPath? ==> Exhausted(State(graph), P)
  {
    var steps: seq<string> := [];
    ev := [];
    var openList, closedList := BeginSearch(graph, P);
    while openList.nodes != []
      invariant ListsOk(graph, openList, closedList) && ParentsInGraph(graph)
      invariant Idle(State(graph), P, Coords(openList.nodes), ev) && Logged(steps, ev)
      decreases Unlisted(State(graph)), Budget(State(graph)), |openList.nodes|
    {
      var current := openList.GetNodeWithLowestFScore();
      var choice := Step(ChooseLowestFScore, current.coordinates);
      LoggedAppend(steps, ev, choice);
      steps := steps + [FormatStep(choice)];
      if current.entities == Target {
        var path := ReportPath(graph, openList, current, P.target, P, ev);
        return Found(path, steps), ev + [choice];
      }
      steps, ev := ExpandNode(graph, openList, closedList, current, steps, P, ev);
    }
    assert Coords(openList.nodes) == [];
    IdleEmptyExhausted(State(graph), P, ev);
    return NoPath, ev;
  }

  /** `find_path` on a freshly built graph, with its outcome stated on the
      graph as it was handed over: on success the log and the path are as
      `Succeeded` describes, and `-1` means no walk from the player reaches a
      goal cell. */
  method FindPath(graph: map<Coord, Node>, player: Coord, target: Coord, w: int, h: int, order: seq<Direction>)
    returns (r: SearchResult, ghost ev: seq<Step>)
    requires GraphValid(graph, w, h) && InBounds(player, w, h) && target in graph && IsDirectionOrder(order)
    requires Fresh(State(graph))
    modifies graph.Values`parentNode, graph.Values`gScore, graph.Values`hScore, graph.Values`fScore
    modifies graph.Values`listType, graph.Values`parentMoveCost
    ensures r.Found? ==>
              && Logged(r.steps, ev) && AllInGraph(graph, r.path)
              && Succeeded(State(graph), Problem(player, target, w, h, order), ev, Coords(r.path))
    ensures r.NoPath? ==> Unreachable(old(State(graph)), Problem(player, target, w, h, order))
  {
    var P := Problem(player, target, w, h, order);
    r, ev := Search(graph, P);
    if r.NoPath? {
      TerrainKept(graph);
      Failure(old(State(graph)), State(graph), P);
    }
  }

  // ---------------------------------------------------------------------
  // init_graph and save_graph

  /** A node as the constructor leaves it, holding `code`. */
  ghost predicate Untouched(n: Node, code: int)
    reads n
  {
    && n.entities == code && n.gScore.None? && n.hScore.None? && n.fScore.None?
    && n.parentNode == null && n.parentMoveCost.None? && n.listType.None?
  }

  /** One untouched node per cell of the terrain `T`, each keyed by its coordinates. */
  ghost predicate BuiltFrom(graph: map<Coord, Node>, T: map<Coord, int>)
    reads graph.Values
  {
    && graph.Keys == T.Keys && KeysMatch(graph)
    && forall c | c in graph :: Untouched(graph[c], T[c])
  }

  /** The `init_graph` loops over the default grid: a fresh empty node per cell. */
  method BlankGraph() returns (graph: map<Coord, Node>)
    ensures BuiltFrom(graph, BlankTerrain(DefaultWidth, DefaultHeight))
  {
    graph := map[];
    for x := 0 to DefaultWidth
      invariant forall c :: c in graph <==> 0 <= c.0 < x && 0 <= c.1 < DefaultHeight
      invariant KeysMatch(graph) && forall c | c in graph :: Untouched(graph[c], EmptyCell)
    {
      graph := AddColumn(graph, x);
    }
    BlankBuilt(graph);
  }

  lemma BlankBuilt(graph: map<Coord, Node>)
    requires forall c :: c in graph <==> InBounds(c, DefaultWidth, DefaultHeight)
    requires KeysMatch(graph) && forall c | c in graph :: Untouched(graph[c], EmptyCell)
    ensures BuiltFrom(graph, BlankTerrain(DefaultWidth, DefaultHeight))
  {
    var T := BlankTerrain(DefaultWidth, DefaultHeight);
    assert graph.Keys == T.Keys;
  }

  /** The inner loop of `init_graph`: a fresh empty node for every cell of column `x`. */
  method AddColumn(graph: map<Coord, Node>, x: int) returns (graph': map<Coord, Node>)
    requires KeysMatch(graph) && forall c | c in graph :: Untouched(graph[c], EmptyCell)
    ensures forall c :: c in graph' <==> c in graph || (c.0 == x && 0 <= c.1 < DefaultHeight)
    ensures KeysMatch(graph') && forall c | c in graph' :: Untouched(graph'[c], EmptyCell)
  {
    graph' := graph;
    for y := 0 to DefaultHeight
      invariant forall c :: c in graph' <==> c in graph || (c.0 == x && 0 <= c.1 < y)
      invariant KeysMatch(graph') && forall c | c in graph' :: Untouched(graph'[c], EmptyCell)
    {
      var n := new Node((x, y), EmptyCell);
      graph' := graph'[(x, y) := n];
    }
  }

  /** The loading loop of `init_graph`: each line replaces the node at its
      coordinates by a fresh node with its code, adding the cell if it was
      not there; a line that does not parse raises, modelled as `None`. */
  method LoadLines(graph: map<Coord, Node>, lines: seq<string>, ghost T: map<Coord, int>)
    returns (r: Option<map<Coord, Node>>)
    requires BuiltFrom(graph, T)
    ensures r.Some? <==> ParseGridLines(lines).Some?
    ensures r.Some? ==> BuiltFrom(r.value, ApplyEntries(T, ParseGridLines(lines).value))
  {
    var g: map<Coord, Node> := graph;
    ghost var Ti := T;
    for i := 0 to |lines|
      invariant BuiltFrom(g, Ti)
      invariant ParseGridLines(lines).Some? <==> ParseGridLines(lines[i..]).Some?
      invariant ParseGridLines(lines).Some? ==>
        ApplyEntries(T, ParseGridLines(lines).value) == ApplyEntries(Ti, ParseGridLines(lines[i..]).value)
    {
      ParseGridLinesStep(lines, i);
      var entry := ParseGridLine(lines[i]);
      if entry.None? {
        return None;
      }
      var (c, code) := entry.value;
      if ParseGridLines(lines[i + 1..]).Some? {
        ApplyEntriesStep(Ti, (c, code), ParseGridLines(lines[i + 1..]).value);
      }
      g := PutNode(g, c, code, Ti);
      Ti := Ti[c := code];
    }
    assert lines[|lines|..] == [];
    return Some(g);
  }

  /** `graph[c] = Node(c, code)`: a fresh node replaces (or adds) the one at `c`. */
  method PutNode(graph: map<Coord, Node>, c: Coord, code: int, ghost T: map<Coord, int>)
    returns (graph': map<Coord, Node>)
    requires BuiltFrom(graph, T)
    ensures BuiltFrom(graph', T[c := code])
  {
    var n := new Node(c, code);
    graph' := graph[c := n];
  }

  /** `init_graph`, the file already read into `lines`: the graph is built
      from `InitialTerrain`, every node fresh for a search. */
  method InitGraph(loadFromFile: bool, lines: seq<string>) returns (r: Option<map<Coord, Node>>)
    ensures r.Some? <==> InitialTerrain(loadFromFile, lines).Some?
    ensures r.Some? ==> BuiltFrom(r.value, InitialTerrain(loadFromFile, lines).value)
    ensures r.Some? ==> GraphValid(r.value, DefaultWidth, DefaultHeight) && Fresh(State(r.value))
  {
    var graph := BlankGraph();
    if loadFromFile {
      r := LoadLines(graph, lines, BlankTerrain(DefaultWidth, DefaultHeight));
    } else {
      r := Some(graph);
    }
    if r.Some? {
      BuiltReady(r.value, InitialTerrain(loadFromFile, lines).value);
    }
  }

  /** A built graph covering the default grid is ready for `find_path`. */
  lemma BuiltReady(graph: map<Coord, Node>, T: map<Coord, int>)
    requires BuiltFrom(graph, T) && forall c | InBounds(c, DefaultWidth, DefaultHeight) :: c in T
    ensures GraphValid(graph, DefaultWidth, DefaultHeight) && Fresh(State(graph))
    ensures forall c | c in graph :: State(graph)[c].entities == T[c]
  {
  }

  /** The cells visited in `order`, each with its entity code. */
  function VisitedCells(S: Cells, order: seq<Coord>): (cells: seq<(Coord, int)>)
    requires forall k | 0 <= k < |order| :: order[k] in S
    ensures |cells| == |order|
    ensures forall k | 0 <= k < |order| :: cells[k] == (order[k], S[order[k]].entities)
  {
    seq(|order|, k requires 0 <= k < |order| => (order[k], S[order[k]].entities))
  }

  /** `save_graph` without the file: the lines written while visiting the
      cells in `order`, the dictionary's iteration order, each cell once. */
  method SaveGraph(graph: map<Coord, Node>, order: seq<Coord>) returns (lines: seq<string>)
    requires forall c :: c in graph <==> c in order
    requires forall i, j | 0 <= i < j < |order| :: order[i] != order[j]
    ensures lines == SavedLines(VisitedCells(State(graph), order))
  {
    ghost var S := State(graph);
    ghost var cells := VisitedCells(S, order);
    lines := [];
    for i := 0 to |order|
      invariant lines == SavedLines(cells[..i])
    {
      var code := graph[order[i]].entities;
      assert cells[i] == (order[i], code);
      SavedLinesPrefix(cells, i);
      lines := lines + SaveLine(order[i], code);
    }
    assert cells[..|order|] == cells;
  }

  /** Saving a graph of the default grid and loading the lines back: every
      cell is there again, walls and empty cells as they were, the player,
      the target and the replay marks turned into empty cells. */
  lemma SaveInitRoundTrip(S: Cells, order: seq<Coord>)
    requires forall c :: c in S <==> c in order
    requires forall i, j | 0 <= i < j < |order| :: order[i] != order[j]
    requires forall c | c in S :: InBounds(c, DefaultWidth, DefaultHeight)
    ensures InitialTerrain(true, SavedLines(VisitedCells(S, order))).Some?
    ensures forall c | c in S ::
      InitialTerrain(true, SavedLines(VisitedCells(S, order))).value[c]
        == if IsPersisted(S[c].entities) then S[c].entities else EmptyCell
  {
    var cells := VisitedCells(S, order);
    SaveLoadRoundTrip(DefaultWidth, DefaultHeight, cells);
    forall c | c in S
      ensures InitialTerrain(true, SavedLines(cells)).value[c]
        == if IsPersisted(S[c].entities) then S[c].entities else EmptyCell
    {
      var k :| 0 <= k < |order| && order[k] == c;
      assert cells[k] == (c, S[c].entities);
    }
  }
}
