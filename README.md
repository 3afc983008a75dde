# Pacman search agents: BFS and A*

This project models the two planning agents of a Pacman search assignment.
Each agent plans a whole move sequence with a best-first graph search over
game states, buffers it, and hands out one move per call of `get_action`.

- `bfs.py` orders the search by path length: the cost is `1 + len(path)` and
  the heuristic is 0.
- `astar.py` orders it by a cost credited for each dot eaten, plus a heuristic
  built from the furthest food dot and Manhattan distances ("Chasles'
  relation").

The Dafny modules follow that structure:

- `Pacman` (`pacman.dfy`) holds the game as the planners see it. A
  `GameModel` bundles four queries on a state: Pacman's position, the food
  grid, the win test and the successor list. It also defines the state key
  `(position, food grid)` and the Manhattan distance.
- `Search` (`search.dfy`) holds the search loop both planners share,
  `BestFirstSearch`. It is generic over the state, key and move types. The
  frontier is a sequence, and each pop takes any entry of minimum priority.
  The `closed` and `fringeKeys` sets work as in the source. Ghost logs record
  the expanded keys and the popped entries. The loop itself is `SearchLoop`,
  whose results are stated as two predicates; `BestFirstSearch` spells them
  out clause by clause.
- `AStar` (`astar.dfy`) holds the A* planner and its agent.
  - `getNumFood` and `heuristic` are methods whose loops mirror the source's
    loops. Each one is proved equal to a specification function.
  - `FoodPositions`, `FurthestIndex`, `MaxChasles` and `Estimate` are those
    specification functions. Each has lemmas that say what it means: the food
    cells, the first maximum, the largest detour, and the three cases of the
    heuristic.
  - `costFunction` and `priorityFunction` are functions.
  - The agent is a class whose field `moves` is the move buffer.
- `Bfs` (`bfs.dfy`) holds the BFS planner and its agent.

Points where the model follows the code rather than its comments:

- The frontier-key set, commented as the keys of the states currently in the
  fringe (astar.py:206-207, bfs.py:125-126), starts as `set(key(state))`.
  That is a set of the key's two components, not a set holding the start
  key. So the start key is not pending before the first pop, and the
  modelled set starts empty.
- The A* heuristic is not proved admissible, and A* is not proved to return
  an optimal path.
- The initial food count is a module global in the source. Here it is a value
  computed once per search and passed to the priority.

The search needs three assumptions:

- **Termination** assumes a finite set of keys that contains the start key and
  is closed under successors (`ClosedUnder`).
- **Completeness** assumes `KeyDetermines`: the key decides whether a state
  wins and which keys its successors have. Completeness means that an empty
  result for a non-winning start implies no winning state is reachable.
- **Soundness** needs nothing further: a non-empty result replays through the
  successor lists from the start state to a winning state.

Under the BFS priority the search also returns a shortest plan. It is no
longer than any chain of successor moves from the start to a winning state.
This too assumes `KeyDetermines`.

## Model

| member | source | states |
|---|---|---|
| Pacman.KeyIdentifiesState | astar.py:30-45 | two states share a key exactly when they agree on Pacman's position and on the food grid (the BFS planner's `key` at bfs.py:6-21 is the same) |
| Pacman.TriangleInequality | astar.py:152-155 | Chasles' relation on Manhattan distances, which the heuristic's detour computation relies on |
| Search.MinimumExists | astar.py:215 | a non-empty frontier always has an entry of minimum priority for the pop to return |
| Search.ChainSnoc | astar.py:232 | a successor entry pushed with `path + [action]` extends a chain from the start to the parent into a chain to the successor |
| Search.KeysOfRemoveAt | astar.py:222-223 | popping an entry from a frontier with distinct keys removes exactly its key from the pending keys, and the keys stay distinct |
| Search.KeysOfSnoc | astar.py:230-232 | pushing an entry adds exactly its key to the frontier's keys |
| Search.PushSuccessors | astar.py:228-232 | the expansion loop keeps the old frontier as a prefix; every new entry is some successor with its move appended; the pending keys grow by exactly the successors' keys; no key is pending twice |
| Search.ReachableStaysClosed | astar.py:226-232 | once the frontier is exhausted, every state reachable from a closed key has a closed key |
| Search.ExpandEntry | astar.py:222-232 | one expansion (remove the popped entry and its pending key, push its successors) keeps the loop invariant and closes one more key of the finite key set |
| Search.ChainCovered | bfs.py:141-151 | with breadth-first bookkeeping, if a chain's first key is closed at depth at most `d` or pending with a path of at most `d` moves, then its last key is closed at depth at most `d` plus the chain's length, or some pending entry is at most that long |
| Search.ShortestAtWin | bfs.py:133-138 | with breadth-first bookkeeping, a popped minimum entry is no longer than any successor chain from the start to a winning state |
| Search.ExhaustedMeansUnsolvable | astar.py:211-213 | an exhausted frontier means that no winning state is reachable from the start |
| Search.BestFirstSearch | astar.py:204-234 | a winning start returns `[]`; a non-empty result is a successor chain to a winning state; an empty result for a non-winning start means no win is reachable, and no reachable win means an empty result; each key is expanded at most once and lies in the finite key set; every popped entry is reachable by its path; under a monotone priority, entries leave in nondecreasing priority; under a path-length priority the result is no longer than any successor chain to a winning state; the logs follow the run: the start entry is popped first, only the last pop can win, the result is the last pop's path when it wins and `[]` otherwise, and the expanded keys are exactly the keys of the non-winning pops (the BFS loop at bfs.py:123-153 is the same) |
| AStar.RowFoodIsRow | astar.py:130-138 | scanning one row records exactly the cells of that row holding food, in column order |
| AStar.FoodPositionsAreFoodCells | astar.py:129-143 | the scan of the grid records a position exactly when that cell holds food, in strictly increasing row-major order |
| AStar.NumFoodIsFoodCellCount | astar.py:22-28 | the number of recorded positions is the number of food cells, and the recorded positions are exactly the food cells |
| AStar.GetNumFood | astar.py:8-28 | the nested loop counts exactly the `True` cells of the food grid, which is also the length of the heuristic's `foodPos` |
| AStar.FurthestIsFirstMaximum | astar.py:123-137 | the furthest index is unassigned exactly when no dot lies at a positive distance; otherwise its dot has the maximal distance and no earlier dot has the same distance |
| AStar.FurthestDefined | astar.py:148-152 | with two or more dots the furthest index is defined, because at most one dot can lie at distance 0 |
| AStar.ScanFood | astar.py:119-143 | the first loop of `heuristic` records the food positions in scan order, their distances to Pacman, and the index of the first furthest dot |
| AStar.MaxChaslesIsMaximum | astar.py:149-157 | the running `maxChasles` is at least every non-furthest dot's gain and equals one of them, or is -1 when no such dot exists |
| AStar.ChaslesGainNonNegative | astar.py:152-155 | a detour through another dot never shortens the walk to the furthest dot, so every gain beats the initial -1 |
| AStar.LongestDetour | astar.py:149-161 | the second loop leaves `res` equal to the largest gain plus the furthest dot's distance, or 0 when there is no other dot |
| AStar.HeuristicNoFood | astar.py:145-167 | with no food the heuristic is 1 |
| AStar.HeuristicOneFood | astar.py:146-147 | with one food dot the heuristic is `1 + d - 1`, the dot's distance to Pacman, and no clamp applies |
| AStar.HeuristicManyFood | astar.py:148-167 | with two or more dots the estimate is at least the number of dots, so the heuristic is at least 1; every detour via a dot other than the furthest is at most the estimate; the estimate is the longest such detour or the clamp value |
| AStar.Heuristic | astar.py:101-167 | the source's loops compute the heuristic value `1 + res - getNumFood(state)` |
| AStar.CostCreditsEatenFood | astar.py:82-99 | one more move adds 1 to the cost, minus the number of dots it ate |
| AStar.PriorityFunction | astar.py:169-184 | cost plus heuristic is `2 + len(path) - initialNumFood + res`: the current food count cancels |
| AStar.AStarSearch | astar.py:186-234 | records the initial food count, then gives the search's guarantees for the A* priority, including the logs tied to the run |
| AStar.PacmanAgent.constructor | astar.py:49-56 | a new agent has an empty move buffer |
| AStar.PacmanAgent.GetAction | astar.py:58-80 | a non-empty buffer yields its head and keeps its tail; an empty buffer triggers one plan and yields its first move, or `Stop` with an empty buffer when there is none; from a winning or an unsolvable state that is `Stop`; from a non-winning state that can reach a win (under `KeyDetermines`) the move and the new buffer form a chain to a winning state |
| Bfs.PriorityFunction | bfs.py:58-106 | cost `1 + len(path)` plus heuristic 0: the priority is `1 + len(path)` |
| Bfs.PriorityIsMonotone | bfs.py:91-106 | the priority is the path length plus one, so a successor entry's priority is its parent's plus one and the BFS priority is monotone |
| Bfs.BfsSearch | bfs.py:108-153 | the search's guarantees for the BFS priority, including the logs tied to the run; the popped entries leave in nondecreasing path length; the returned path is no longer than any successor chain from the start to a winning state |
| Bfs.PacmanAgent.constructor | bfs.py:25-32 | a new agent has an empty move buffer |
| Bfs.PacmanAgent.GetAction | bfs.py:34-56 | the move buffer as for A*, refilled by the BFS planner; from a non-winning state the planned move plus the new buffer is no longer than any chain to a winning state (under `KeyDetermines`) |

## Left out

- The game engine (`pacman_module`) is not part of this model. The game state's queries (`getPacmanPosition`, `getFood`, `isWin`, `generatePacmanSuccessors`) are the four functions of `GameModel`. The `Agent` base class is not modelled: both agent classes stand alone. `Directions` becomes the datatype `Direction`, which lists the five moves, with `Stop` for `Directions.STOP`.
- `manhattanDistance` is not part of this model. It is defined with its standard meaning, `|x1 - x2| + |y1 - y2|`, as an assumption.
- The internals of `PriorityQueueWithFunction` are left out. The frontier is a sequence, and a pop may return any entry of minimum priority. The queue's own tie order is not modelled.
- Hashing and equality of the food grid are left out. Keys are `(position, grid)` values compared structurally.
- `self.args` and the command-line plumbing are left out, because no planner reads them.
- The `IndexError` of `pop(0)` on an empty list is modelled as an explicit test for an empty buffer.
- BestFirstSearch: termination assumes a finite key set, containing the start key and closed under successors. The source relies on the finite board without stating it.
- BestFirstSearch: completeness assumes `KeyDetermines`, i.e. that equal keys mean equal win status and equal successor keys. This is what the duplicate suppression by key takes for granted.
- AStarSearch: no admissibility of the heuristic and no optimality of the returned path is claimed. The source does not establish either.
- AStarSearch: does not state the order in which entries leave, because the A* priority is not monotone in general.
- BfsSearch: the shortest-path guarantee assumes `KeyDetermines`, as completeness does.
- Heuristic: when no dot lies at a positive distance, the source's `furthestFoodIndex` is never assigned. The model writes -1 for that case, and `FurthestDefined` shows that the case never reaches the second loop.
