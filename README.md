# A* pathfinder core, modelled and proved in Dafny

This project models the search engine of the a-star-animator pathfinder
(`trunk/pathfinder.py`). Its parts:

- the grid of `Node` objects, keyed by `(x, y)` coordinates;
- the open and closed `AStarList`s;
- neighbour generation with its edge checks and the rule that forbids cutting a wall corner diagonally;
- the Manhattan heuristic;
- `find_path` with its step log;
- `reconstruct_path`;
- the two text formats: the step strings that the replay decodes and the grid file that `init_graph` and `save_graph` read and write.

The model has two layers:

- `SearchModel` (search.dfy) is a value-level view. The open list is a sequence of coordinates, every node is a `Cell` record in a map, and the step log is a sequence of `Step` events. It defines:
  - the movement rule;
  - the invariants `find_path` keeps (`Idle` at the head of the main loop, `Expanding` while the neighbours of the closed node are processed);
  - the effect of each step (`Begin`, `CloseCell`, `Relax`);
  - the termination measure;
  - the meaning of the two outcomes.
- `Pathfinder` (pathfinder.dfy) is the heap side. `Node` and `AStarList` are classes whose methods update their fields in place. Neighbour generation, the two search loops, path reconstruction and the grid building and saving loops are methods with loop invariants. Every method is tied to the value layer by the ghost function `State(graph)`. On success, `Search` and `FindPath` are both proved against `Succeeded`. On failure, `Search` is proved against `Exhausted` (in the final state every listed cell is closed, none is a `TARGET`, and every passable neighbour of a closed cell is listed), and `FindPath` against `Unreachable` (no walk from the player reaches a `TARGET` on the graph it was handed).
- `Grid`, `Scoring`, `Text` and `Encodings` hold the supporting pieces:
  - the constants, directions and move costs;
  - the heuristic;
  - Python's `str`, `int`, `split` and `strip`;
  - the step and grid-line encodings with their round trips.

What is proved about `find_path` (`Pathfinder.FindPath`):

- **Termination.** The loop's measure is the set of cells in neither list, then the set of `(cell, k)` with `k < g`, then the length of the open list. This measure decreases on every pass.
- **Invariants.**
  - At every `FScoreDetermination` call the open list is non-empty.
  - The cell chosen at the head is always listed.
- **Success.** When it returns `(path, steps)`:
  - `steps` is the log of the run, rendered one event at a time. It opens with the choice of the start; every cell it opens is a neighbour of the cell closed last before it; each choice is followed by the closing of the same cell; each cell is opened at most once; only the last choice lands on a `TARGET` cell.
  - `path` is the parent chain of `target_coordinates`, nearest parent first.
  - Every node on the path is closed, and each step of the route `[target] + path` is a legal move.
  - When the goal found is the target and differs from the start, the path ends at the start node, and the route costs exactly the target's `g`.
- **Failure.** When it returns `-1`, no walk of legal moves from the player, on the graph as it was handed in, passes through a `TARGET` cell.

## Model

| member | source | states |
|---|---|---|
| Grid.MoveCost | trunk/pathfinder.py:151-156 | the move cost written into a neighbour is 10 for the four orthogonal keys and 14 for the four diagonal ones |
| Grid.DefaultBounds | trunk/pathfinder.py:9-12 | the grid is `SCREEN_SIZE_X/NODE_SIZE` = 40 columns by `SCREEN_SIZE_Y/NODE_SIZE` = 30 rows |
| Grid.Neighbor | trunk/pathfinder.py:90-99 | definition, with no contract of its own: the cell one step away in the key's direction; `NeighborAdjacent` and `NeighborInjective` pin it down |
| Grid.NeighborAdjacent | trunk/pathfinder.py:90-99 | each entry of the neighbour dictionary is an adjacent cell in its own direction, and its step cost is that direction's move cost |
| Grid.NeighborInjective | trunk/pathfinder.py:90-99 | the eight dictionary entries are eight different cells |
| Grid.EdgeKept | trunk/pathfinder.py:102-120 | definition, with no contract of its own: the edge pops keyed on `x <= 0`, `x >= w - 1`, `y <= 0`, `y >= h - 1`; `EdgeKeptInBounds` pins it down |
| Grid.EdgeKeptInBounds | trunk/pathfinder.py:101-120 | for a node inside the grid, the edge checks keep exactly the directions whose cell is inside the grid |
| Scoring.HeuristicDistance | trunk/pathfinder.py:276-289 | the heuristic is non-negative, zero exactly at the target, and a multiple of the orthogonal move cost |
| Scoring.HeuristicSymmetric | trunk/pathfinder.py:276-289 | the distance from p to t equals the distance from t to p |
| Scoring.HeuristicStep | trunk/pathfinder.py:276-289 | an orthogonal step changes the heuristic by exactly 10; a diagonal step changes it by at most 20 |
| Scoring.HeuristicOverestimatesDiagonal | trunk/pathfinder.py:276-289 | from (0, 0) to (1, 1) the heuristic says 20 while the single diagonal move costs 14 |
| Text.IntToString | trunk/pathfinder.py:401 | `str` of an integer is non-empty and has no surrounding white space; it is all digits for `n >= 0` and a `-` followed by digits otherwise |
| Text.Strip | trunk/pathfinder.py:384 | the stripped string is no longer than the original and neither starts nor ends with white space; `StripIsInfix` states the rest |
| Text.StripIsInfix | trunk/pathfinder.py:384 | `strip` keeps one contiguous piece of the string, and every character removed before or after it is white space |
| Text.ParseInt | trunk/pathfinder.py:382-384 | `int` succeeds only when something other than white space is left after stripping; `ParseIntOfIntToString` is its round trip with `str` |
| Text.Split | trunk/pathfinder.py:380-382 | `split` always returns at least one piece |
| Text.ParseIntOfIntToString | trunk/pathfinder.py:461 | `int(str(n)) == n` for every integer, negative ones included |
| Text.ParseIntWithNewline | trunk/pathfinder.py:384 | a code read back with its trailing newline still parses to the number written |
| Text.SplitPair | trunk/pathfinder.py:380-382 | splitting `a + sep + b`, where neither piece contains the separator, gives exactly the two pieces |
| Encodings.DecodeFormatStep | trunk/pathfinder.py:460-461 | decoding a step string as the replay does recovers the tag name and the coordinates it was formatted from, and the tag name maps back to its tag |
| Encodings.TagName | trunk/pathfinder.py:319 | the three tag names of the step log are non-empty and hold neither `:` nor `,`, so the replay's `split` finds the separators the format put in |
| Encodings.FormatStep | trunk/pathfinder.py:319 | a step string splits on `:` into exactly the tag name and `x,y` |
| Encodings.FormatStepInjective | trunk/pathfinder.py:319 | two events render to the same step string exactly when they are the same event |
| Encodings.TagOf | trunk/pathfinder.py:464-471 | a decoded tag name is recognised exactly when it is one of the three tag names |
| Encodings.DecodeStep | trunk/pathfinder.py:460-461 | a decoded tag name never contains the `:` separator |
| Encodings.PersistedCodes | trunk/pathfinder.py:400 | among the eight entity codes the save filter keeps exactly empty cells and walls |
| Encodings.FormatGridLine | trunk/pathfinder.py:401 | a grid line, before its newline, splits on the space into exactly `x,y` and the code, and holds no newline |
| Encodings.ParseGridLine | trunk/pathfinder.py:380-384 | a line loads only when it has exactly one space, and its code is `int` of the text after that space |
| Encodings.SaveLine | trunk/pathfinder.py:400-403 | one cell gives at most one line, exactly when its entity passes the save filter, and that line parses back to the cell and its code |
| Encodings.ParseFormatGridLine | trunk/pathfinder.py:401-403 | a grid line written by the saver, read back with its newline, parses to the cell and code it was written from |
| Encodings.ParseSavedLines | trunk/pathfinder.py:399-403 | parsing all the saved lines succeeds and yields the filtered cells in visiting order |
| Encodings.BlankTerrain | trunk/pathfinder.py:369-371 | the fresh grid has a cell at exactly the in-bounds coordinates, all empty |
| Encodings.ApplyEntries | trunk/pathfinder.py:379-386 | a loaded grid has the blank cells plus every coordinate named by a line |
| Encodings.ApplyDistinct | trunk/pathfinder.py:386 | when lines name distinct cells, each loaded cell holds its line's code, and untouched cells keep their old code |
| Encodings.SaveLoadRoundTrip | trunk/pathfinder.py:360-405 | saving cells listed once each and loading the lines gives back the code of every saved cell; every cell filtered out, and every other in-bounds cell, comes back empty |
| Encodings.LoadedKeys | trunk/pathfinder.py:369-386 | when every saved cell is in bounds, the loaded grid has a cell at exactly the in-bounds coordinates |
| Encodings.SavedCellsRestored | trunk/pathfinder.py:379-403 | for cells listed once each, loading gives every saved cell its code and every filtered-out cell the empty code |
| Encodings.UnsavedCellsEmpty | trunk/pathfinder.py:369-386 | an in-bounds cell that no saved line names keeps the blank grid's empty code after loading |
| Encodings.SavedLines | trunk/pathfinder.py:399-403 | the saver writes at most one line per visited cell; `ParseSavedLines` proves that the lines parse back to `PersistedCells` of the cells |
| Encodings.PersistedCells | trunk/pathfinder.py:400 | the cells kept by the save filter are no more than those visited, and each holds a code the filter lets through; `PersistedCellsMembership` states which ones |
| Encodings.ParseGridLines | trunk/pathfinder.py:379-384 | definition, with no contract of its own: every line must parse, in order; `ParseGridLinesStep` and `ParseSavedLines` pin it down |
| Encodings.LoadTerrain | trunk/pathfinder.py:369-386 | definition, with no contract of its own: the blank grid overwritten by the parsed lines, or failure on a bad line; `SaveLoadRoundTrip` pins it down |
| Encodings.InitialTerrain | trunk/pathfinder.py:362-388 | definition, with no contract of its own: the loaded terrain when reading from a file, the blank grid otherwise; `Pathfinder.InitGraph` and `Pathfinder.SaveInitRoundTrip` pin it down |
| Encodings.SavedLinesSnoc | trunk/pathfinder.py:399-403 | visiting one more cell appends its line exactly when it passes the filter |
| Encodings.ParseGridLinesStep | trunk/pathfinder.py:379-386 | a bad line fails the rest of the load, and a good one puts its entry in front of those after it |
| SearchModel.KeptDirections | trunk/pathfinder.py:144-149 | the kept directions are exactly those in the iteration order that survive the edge and corner checks and lead to a node that is neither a wall nor closed, without repeats |
| SearchModel.CornerKept | trunk/pathfinder.py:124-142 | definition, with no contract of its own: a diagonal goes when the orthogonal key sharing its row or column survived and leads to a wall; `SurvivorsByCuts` and `Pathfinder.CutCorners` pin it down |
| SearchModel.SurvivorsByCuts | trunk/pathfinder.py:123-142 | after the edge checks and the four corner checks, a direction survives exactly when it passes `EdgeKept` and `CornerKept` |
| SearchModel.RemoveFirst | trunk/pathfinder.py:231 | `list.remove` on a list holding the element shortens it by exactly one; for an absent element, where Python raises `ValueError`, this total function returns the list unchanged and the model never calls it that way |
| SearchModel.RemoveFirstMembers | trunk/pathfinder.py:231 | removing one copy deletes no other element and adds none |
| SearchModel.Begin | trunk/pathfinder.py:306-313 | the start node joins the open list with `g = 0`, its heuristic as `h` and `f = h`; its parent and every entity stay as they were |
| SearchModel.CloseCell | trunk/pathfinder.py:330-334 | the closed cell moves to the closed list and keeps its scores and parent; every entity stays |
| SearchModel.Accepts | trunk/pathfinder.py:339-350 | a neighbour outside the open list is always taken; an open one only when its `g` is set and the new `g` is strictly smaller |
| SearchModel.Relax | trunk/pathfinder.py:352-356 | a taken neighbour gets the expanded cell as parent, `g` through it, a fresh `h`, `f = g + h`, and is open; every entity stays |
| SearchModel.BeginIdle | trunk/pathfinder.py:303-313 | the start state, with the start node alone in the open list and every other node untouched, satisfies the main-loop invariant |
| SearchModel.ChooseAndClose | trunk/pathfinder.py:316-334 | choosing the head, finding it is not the goal, removing it and closing it (both logged) gives the expansion invariant, with the kept neighbours pending |
| SearchModel.PendingStart | trunk/pathfinder.py:81-158 | the generated neighbours are distinct in-bounds cells, each a legal move away and not closed, and every legal move leads to one of them or to a listed cell |
| SearchModel.ProcessPending | trunk/pathfinder.py:336-356 | processing one pending neighbour keeps the expansion invariant, whether the neighbour is opened, improved or left alone |
| SearchModel.OpenGNeverIncreases | trunk/pathfinder.py:346-356 | an open node's `g` never grows, and it changes only to a strictly smaller value with the expanded node as its new parent |
| SearchModel.FinishExpansion | trunk/pathfinder.py:336-356 | with no neighbour left pending, the main-loop invariant holds again |
| SearchModel.RelaxMeasure | trunk/pathfinder.py:337-356 | a neighbour step never grows the set of unlisted cells or the g-budget, and an accepted step shrinks one of them |
| SearchModel.ExpansionBetter | trunk/pathfinder.py:316-356 | a whole pass of the main loop strictly decreases the termination measure |
| SearchModel.LastClosedAppend | trunk/pathfinder.py:330-334 | appending a closed-list event makes its cell the last closed one; any other event leaves the last closed cell as it was |
| SearchModel.LogShapeAppend | trunk/pathfinder.py:316-356 | an event may extend a well-shaped log exactly when it may follow the last event and, if it opens a cell, that cell neighbours the cell closed last |
| SearchModel.LogOpensNearClosed | trunk/pathfinder.py:336-344 | every open-list event of the log names a neighbour of the cell of the last closed-list event before it |
| SearchModel.EarlierChoicesNotGoals | trunk/pathfinder.py:319-322 | every choice in the log that was followed by another event was not the goal |
| SearchModel.IdleEmptyExhausted | trunk/pathfinder.py:316 | an empty open list at the head of the main loop means every listed cell is closed and not a goal, and every legal move out of a closed cell leads to a listed one |
| SearchModel.ExhaustedNoWalkToTarget | trunk/pathfinder.py:358 | after an exhausted search, every cell of every walk from the start is listed and not a goal |
| SearchModel.Failure | trunk/pathfinder.py:358 | `-1` means no walk from the player, on the terrain the search started with, reaches a goal cell |
| SearchModel.ParentsRanked | trunk/pathfinder.py:352-354 | along every parent link `g` strictly decreases and stays non-negative, so parent chains are finite |
| SearchModel.ParentChain | trunk/pathfinder.py:260-274 | the chain lists cells of the graph, and it is empty exactly when the node has no parent |
| SearchModel.RouteLinks | trunk/pathfinder.py:267-272 | each entry of the route is the parent of the one before, and the last entry has none |
| SearchModel.RouteCostIsG | trunk/pathfinder.py:337 | the summed step costs along a route equal the drop in `g` from its first to its last cell |
| SearchModel.RouteMoves | trunk/pathfinder.py:336-353 | every step of a route is a legal move out of a closed cell |
| SearchModel.RouteEnd | trunk/pathfinder.py:306-311 | a route longer than one cell ends at the start node and costs exactly the `g` of its first cell |
| SearchModel.ParentChainReport | trunk/pathfinder.py:260-274 | the reconstructed path is the parent chain of the target; its cells are closed and its steps are legal; when the goal is the target and differs from the start, it ends at the start and its cost is the target's `g` |
| SearchModel.Success | trunk/pathfinder.py:317-328 | when the head of the open list is a goal, the log with that last choice and the parent chain of the target satisfy `Succeeded` |
| Pathfinder.FormatSteps | trunk/pathfinder.py:319-344 | the step strings `algorithm_steps` gathers are exactly as many as the events of the run |
| Pathfinder.FormatStepsAt | trunk/pathfinder.py:319-344 | entry `i` of `algorithm_steps` is event `i` of the run, rendered by `FormatStep` |
| Pathfinder.Node.constructor | trunk/pathfinder.py:41-52 | a new node holds its coordinates and entity, with every search field unset |
| Pathfinder.Node.SetParent | trunk/pathfinder.py:180-181 | only the parent changes, to the given node |
| Pathfinder.Node.SetMovementCostFromParent | trunk/pathfinder.py:183-188 | only the move cost changes, to the given cost |
| Pathfinder.Node.SetGScore | trunk/pathfinder.py:190-191 | only `g` changes |
| Pathfinder.Node.SetHScore | trunk/pathfinder.py:193-194 | only `h` changes |
| Pathfinder.Node.SetList | trunk/pathfinder.py:196-201 | only the list type changes |
| Pathfinder.Node.SetEntities | trunk/pathfinder.py:203-204 | only the entity changes |
| Pathfinder.Node.SetMoveCostFor | trunk/pathfinder.py:151-156 | a neighbour reached by an orthogonal key gets cost 10, and one reached by a diagonal key gets 14 |
| Wrappers.Py2Less | trunk/pathfinder.py:63 | definition, with no contract of its own: Python 2's `a < b` when `b` may be `None`, false against `None`; the contracts of `Pathfinder.Node.FScoreDetermination` and `SearchModel.Accepts` spell out both cases |
| Pathfinder.Node.FScoreDetermination | trunk/pathfinder.py:54-64 | `f = g + h`, and the node is prepended to the open list exactly when its new `f` is below the front node's `f` (a front with no `f` never loses), otherwise the list is unchanged |
| Pathfinder.Node.TakePath | trunk/pathfinder.py:352-356 | a taken path sets the parent, `g`, `h` and `f = g + h`, with the front-of-list rule of `FScoreDetermination` |
| Pathfinder.Node.ScoreStart | trunk/pathfinder.py:311-313 | the start node gets `g = 0`, its heuristic as `h`, and `f = h` |
| Pathfinder.Node.GetNeighborNodes | trunk/pathfinder.py:81-158 | the returned nodes are the graph's nodes in the kept directions, in the dictionary's iteration order; each carries its move cost; no other node's move cost and no search field changes |
| Pathfinder.Node.SurvivingDirections | trunk/pathfinder.py:90-142 | the keys left in the dictionary are exactly the directions passing the edge checks and the corner rule on the current walls |
| Pathfinder.Node.CollectNeighbors | trunk/pathfinder.py:144-158 | the loop keeps, in order, the surviving directions whose node is neither a wall nor closed, and writes each kept node's move cost |
| Pathfinder.Node.KeepNeighbor | trunk/pathfinder.py:151-158 | a kept neighbour is appended with its move cost, and the costs written before stay in place |
| Pathfinder.CutCorners | trunk/pathfinder.py:123-142 | each orthogonal direction found blocked by a wall removes its two adjacent diagonals, and nothing else is removed |
| Pathfinder.AStarList.constructor | trunk/pathfinder.py:212-215 | a new list is empty and carries its list type |
| Pathfinder.AStarList.GetNodeWithLowestFScore | trunk/pathfinder.py:247-258 | returns the front node of the list, which need not have the lowest `f` |
| Pathfinder.AStarList.AddNode | trunk/pathfinder.py:217-224 | the node is appended and records this list's type |
| Pathfinder.AStarList.RemoveNode | trunk/pathfinder.py:226-231 | the first occurrence of the node is removed, and only that one |
| Pathfinder.AStarList.Resort | trunk/pathfinder.py:233-238 | the node is put in front; an earlier copy of it stays in place |
| Pathfinder.Enlist | trunk/pathfinder.py:217-224 | adding a graph node to a list changes the graph's view only in that node's list type |
| Pathfinder.Relink | trunk/pathfinder.py:352-356 | a taken path changes the graph's view only at the neighbour: parent, `g`, `h` and `f` |
| Pathfinder.ProcessNeighbor | trunk/pathfinder.py:337-356 | one neighbour: the graph becomes `Relax` of the old view exactly when the neighbour is accepted (not open, or a strictly better `g`); the open list grows by the neighbour when it was not open, and may gain a front copy; `add_to_open_list` is logged exactly when the neighbour was not open |
| Pathfinder.StartSearch | trunk/pathfinder.py:306-313 | the open list is exactly the start node, and the view is `Begin` of the old one |
| Pathfinder.ReconstructPath | trunk/pathfinder.py:260-274 | the returned nodes are the graph's nodes along the parent chain of the target, nearest first, and the graph is left as it was |
| Pathfinder.CloseNode | trunk/pathfinder.py:330-334 | the chosen head leaves the open list, is appended to the closed list and is logged; the view is `CloseCell` of the old one |
| Pathfinder.DropHead | trunk/pathfinder.py:331 | removing the node at the front of the open list leaves exactly the rest of the list, in order |
| Pathfinder.CloseChosen | trunk/pathfinder.py:317-334 | after the choice and the closing, the expansion invariant holds, with the kept neighbours pending and the log matching |
| Pathfinder.Generate | trunk/pathfinder.py:336 | the neighbours are the pending cells of the expansion, each a graph node carrying the cost of the step; the view and the lists are unchanged |
| Pathfinder.RelaxOne | trunk/pathfinder.py:337-356 | one neighbour keeps the expansion invariant and the log, and does not grow the termination measure |
| Pathfinder.RelaxNeighbors | trunk/pathfinder.py:336-356 | after the neighbour loop, the main-loop invariant holds again, and the measure is strictly below its value at the start of the pass |
| Pathfinder.ExpandNode | trunk/pathfinder.py:330-356 | one pass that does not end the search restores the main-loop invariant and strictly decreases the measure |
| Pathfinder.BeginSearch | trunk/pathfinder.py:300-313 | on a freshly built graph the two new lists and the start node satisfy the main-loop invariant with an empty log |
| Pathfinder.EnterStart | trunk/pathfinder.py:306-313 | with both lists empty, entering the start node into the open list establishes the main-loop invariant |
| Pathfinder.ReportPath | trunk/pathfinder.py:322-328 | when the head holds the target entity, the reconstructed path and the log satisfy `Succeeded` |
| Pathfinder.Search | trunk/pathfinder.py:291-358 | the search terminates; it returns the log and a path satisfying `Succeeded` (a log that opens with the choice of the start, opens only neighbours of the cell closed last, and ends with the choice of a goal), or `-1` with the search `Exhausted` |
| Pathfinder.FindPath | trunk/pathfinder.py:291-358 | `find_path` on a fresh graph: success as in `Search`; `-1` only when no walk from the player on the original graph reaches a goal cell |
| Pathfinder.BlankGraph | trunk/pathfinder.py:366-371 | the nested loops build one fresh empty node per in-bounds cell, keyed by its coordinates |
| Pathfinder.AddColumn | trunk/pathfinder.py:370-371 | the inner loop adds a fresh empty node, keyed by its coordinates, for every cell of one column and for no other cell |
| Pathfinder.LoadLines | trunk/pathfinder.py:373-386 | the load fails exactly when some line does not parse; otherwise each line replaces (or adds) the node at its coordinates with a fresh node holding its code |
| Pathfinder.PutNode | trunk/pathfinder.py:386 | a line's cell gets a fresh node holding its code; every other node is as before |
| Pathfinder.InitGraph | trunk/pathfinder.py:360-390 | the graph exists exactly when the terrain loads; it holds one fresh node per cell of that terrain, covers the grid, and is ready for `find_path` |
| Pathfinder.BuiltReady | trunk/pathfinder.py:360-390 | a built graph covering the grid has matching keys, no search field set, and the terrain's entities |
| Pathfinder.VisitedCells | trunk/pathfinder.py:399 | the visited cells are the graph's coordinates in iteration order, each with its entity |
| Pathfinder.SaveGraph | trunk/pathfinder.py:392-405 | the lines written are the filtered, formatted lines of the cells in dictionary order |
| Pathfinder.SaveInitRoundTrip | trunk/pathfinder.py:360-405 | saving a graph of the default grid and loading it back restores every wall and empty cell; the player, the target and the replay marks come back empty |

## Left out

- Drawing, the event loop, command-line options, timing and `print` are not modelled (pygame and optparse). The replay of the step log (`reconstruct_algorithm`) and the drawing of a found path are also left out. The step strings' decoding, which the replay does first, is modelled by `Encodings.DecodeStep` and `Encodings.TagOf`.
- File I/O is not modelled. `init_graph` receives the file's lines already read, and `save_graph` returns the lines it would write.
- Python dictionaries have an iteration order that the source does not fix. The model makes it a parameter:
  - the order of the neighbour dictionary's eight keys (`Problem.order`, any permutation);
  - the order of the graph's keys in `save_graph`, a sequence listing each key once.
- `fabs` returns a float in the source. The model uses integer absolute value. Every value the heuristic sees is an integer difference, so the results agree.
- The grid size: neighbour generation compares against `SCREEN_SIZE_X/NODE_SIZE - 1` and `SCREEN_SIZE_Y/NODE_SIZE - 1`, and `init_graph` loops up to those quotients. The model's `InitGraph` uses the default quotients (40 by 30); in the source a `--node_size` option can change `NODE_SIZE` and with it the grid. The search methods take the bounds as parameters `w` and `h`, which equal those quotients when the graph comes from `InitGraph`.
- Pathfinder.FindPath requires the target coordinates to be a key of the graph. It also requires the player to be inside the grid and the graph to be fresh, as `init_graph` leaves it.
  - The source reads `graph[target_coordinates]` only when a goal is found, and would raise `KeyError` there. The model excludes that input instead of modelling the exception.
  - A player outside the grid is excluded too. The only call site guarantees it: both coordinates come from a mouse click divided by `NODE_SIZE`.
- Pathfinder.AStarList.GetNodeWithLowestFScore: returns the front node, as the source does, because the loop that would scan for the true minimum is commented out; its contract promises no minimum. What the model proves about the choice is stated on the front of the list (`SearchModel.ChooseAndClose`, `SearchModel.Success`). It is not a minimum, so the model claims no optimality of the path, in `Search` or anywhere else.
- `SearchModel.PathReport` says that the path ends at the start, and costs the target's `g`, only when the `TARGET` node that stops the search sits at `target_coordinates`. With a second `TARGET` cell elsewhere, the source still reconstructs from `target_coordinates`. The model then claims only that the path is the parent chain of that cell, made of closed cells and legal moves.
- Pathfinder.AStarList.RemoveNode: requires the node to be in the list, so the `ValueError` that `list.remove` raises for an absent node is not modelled. `find_path` only ever removes the node it just took from the front of the open list, so that path is never taken there.
- The move cost a neighbour carries (`parent_move_cost`) is scratch data to the search. The view `State` leaves it out, and the methods state it separately.
- The Python 2 comparison `x < None` is `False`. It is modelled by `Py2Less`. It matters for the front-of-list test when the front node has no `f` yet, and for the `g` test on an open node.

## Notes on the heuristic and the open list

Three docstrings in `trunk/pathfinder.py` promise more than the code does. The model follows the code:

- **"Find the shortest path"** (`find_path`, line 293). The path found need not be shortest. Two reasons follow.
- **The heuristic is not admissible.** Diagonal moves cost 14, but the Manhattan heuristic is 10 per unit of each axis. From (0, 0) to (1, 1) it gives 20, while one diagonal move costs 14 (`Scoring.HeuristicOverestimatesDiagonal`). A* with an overestimating heuristic may return a longer path.
- **"Return the node with the lowest F score"** (`_getNodeWithLowestFScore`, line 249) and **"Replace the lowest f score on top of the list"** (`resort`, line 236). The scan for the minimum is commented out, and the method returns the front node. A node goes to the front only when its new `f` beats the current front's. Once the front is removed, the new front need not hold the lowest `f`.

The model proves the search's soundness, termination and the meaning of failure. It claims no optimality of the path.

