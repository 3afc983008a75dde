/**
 * The A* planner: the food count, the "furthest food dot" heuristic, the
 * food-adjusted cost, the search itself and the agent that replays its plan.
 *
 * The initial food count, a module-level variable in the source that the
 * search writes and the cost function reads, is threaded here as a
 * parameter of the cost and priority functions.
 */
module AStar {
  import opened Pacman
  import opened Search

  // ---------------------------------------------------------------------
  // The food grid, scanned in the order of the source's nested loops
  // ---------------------------------------------------------------------

  /** The food positions of row `i`, in increasing column order. */
  function RowFood(i: int, row: seq<bool>): seq<Pos>
    decreases |row|
  {
    if row == [] then []
    else RowFood(i, row[..|row| - 1]) + (if row[|row| - 1] then [(i, |row| - 1)] else [])
  }

  /** The food positions of the grid, row by row: the source's `foodPos`. */
  function FoodPositions(food: FoodGrid): seq<Pos>
    decreases |food|
  {
    if food == [] then []
    else FoodPositions(food[..|food| - 1]) + RowFood(|food| - 1, food[|food| - 1])
  }

  /** `p` is a cell of the grid that holds a food dot. */
  ghost predicate IsFood(food: FoodGrid, p: Pos)
  {
    0 <= p.0 < |food| && 0 <= p.1 < |food[p.0]| && food[p.0][p.1]
  }

  /** The set of cells holding a food dot. */
  ghost function FoodCells(food: FoodGrid): set<Pos>
  {
    set i, j | 0 <= i < |food| && 0 <= j < |food[i]| && food[i][j] :: (i, j)
  }

  /** `p` comes before `q` in the scan: an earlier row, or the same row and an earlier column. */
  predicate ScanBefore(p: Pos, q: Pos)
  {
    p.0 < q.0 || (p.0 == q.0 && p.1 < q.1)
  }

  ghost predicate InScanOrder(ps: seq<Pos>)
  {
    forall a, b :: 0 <= a < b < |ps| ==> ScanBefore(ps[a], ps[b])
  }

  lemma {:induction false} RowFoodIsRow(i: int, row: seq<bool>)
    ensures forall p :: p in RowFood(i, row) <==> p.0 == i && 0 <= p.1 < |row| && row[p.1]
    ensures InScanOrder(RowFood(i, row))
    decreases |row|
  {
    if row != [] {
      var front := row[..|row| - 1];
      RowFoodIsRow(i, front);
      var ps := RowFood(i, front);
      var all := RowFood(i, row);
      assert all == ps + (if row[|row| - 1] then [(i, |row| - 1)] else []);
      forall p ensures p in all <==> p.0 == i && 0 <= p.1 < |row| && row[p.1] {
        if p.0 == i && 0 <= p.1 < |row| - 1 {
          assert front[p.1] == row[p.1];
        }
      }
      forall a, b | 0 <= a < b < |all| ensures ScanBefore(all[a], all[b]) {
        if b < |ps| {
          assert all[a] == ps[a] && all[b] == ps[b];
        } else {
          assert all[a] == ps[a] && all[a] in ps;
        }
      }
    }
  }

  /**
   * The scan lists exactly the food cells, each once, in scan order: the
   * `foodPos` list of the source holds every food dot of the grid.
   */
  lemma {:induction false} FoodPositionsAreFoodCells(food: FoodGrid)
    ensures forall p :: p in FoodPositions(food) <==> IsFood(food, p)
    ensures InScanOrder(FoodPositions(food))
    decreases |food|
  {
    if food != [] {
      var last := |food| - 1;
      var front := food[..last];
      FoodPositionsAreFoodCells(front);
      RowFoodIsRow(last, food[last]);
      var ps := FoodPositions(front);
      var row := RowFood(last, food[last]);
      var all := FoodPositions(food);
      assert all == ps + row;
      forall p ensures p in all <==> IsFood(food, p) {
        if 0 <= p.0 < last {
          assert front[p.0] == food[p.0];
          assert IsFood(front, p) <==> IsFood(food, p);
        }
      }
      forall a, b | 0 <= a < b < |all| ensures ScanBefore(all[a], all[b]) {
        if b < |ps| {
          assert all[a] == ps[a] && all[b] == ps[b];
        } else if a >= |ps| {
          assert all[a] == row[a - |ps|] && all[b] == row[b - |ps|];
        } else {
          assert all[a] == ps[a] && all[a] in ps && IsFood(front, all[a]);
          assert all[b] == row[b - |ps|] && all[b] in row;
        }
      }
    }
  }

  /** A sequence in strict scan order has as many elements as its set. */
  lemma {:induction false} ScanOrderCardinality(ps: seq<Pos>)
    requires InScanOrder(ps)
    ensures |(set p | p in ps)| == |ps|
    decreases |ps|
  {
    if ps != [] {
      var front := ps[..|ps| - 1];
      var last := ps[|ps| - 1];
      assert InScanOrder(front);
      ScanOrderCardinality(front);
      assert (set p | p in ps) == (set p | p in front) + {last};
      assert last !in front;
    }
  }

  /** The number of food dots is the number of food cells of the grid. */
  lemma NumFoodIsFoodCellCount(food: FoodGrid)
    ensures |FoodPositions(food)| == |FoodCells(food)|
    ensures (set p | p in FoodPositions(food)) == FoodCells(food)
  {
    var ps := FoodPositions(food);
    FoodPositionsAreFoodCells(food);
    forall p ensures p in FoodCells(food) <==> IsFood(food, p) {
      if IsFood(food, p) {
        assert p == (p.0, p.1);
      }
    }
    assert (set p | p in ps) == FoodCells(food);
    ScanOrderCardinality(ps);
  }

  /** One more cell of row `i` scanned. */
  lemma ScanCell(food: FoodGrid, i: nat, j: nat)
    requires i < |food| && j < |food[i]|
    ensures RowFood(i, food[i][..j + 1]) == RowFood(i, food[i][..j]) + (if food[i][j] then [(i, j)] else [])
  {
    assert food[i][..j + 1][..j] == food[i][..j];
  }

  /** One more row scanned. */
  lemma ScanRow(food: FoodGrid, i: nat)
    requires i < |food|
    ensures FoodPositions(food[..i + 1]) == FoodPositions(food[..i]) + RowFood(i, food[i][..|food[i]|])
  {
    assert food[..i + 1][..i] == food[..i];
    assert food[i][..|food[i]|] == food[i];
  }

  /** `getNumFood`: count the food dots with a nested loop over the grid. */
  method GetNumFood(food: FoodGrid) returns (numFood: nat)
    ensures numFood == |FoodCells(food)|
    ensures numFood == |FoodPositions(food)|
  {
    numFood := 0;
    for i := 0 to |food|
      invariant numFood == |FoodPositions(food[..i])|
    {
      for j := 0 to |food[i]|
        invariant numFood == |FoodPositions(food[..i])| + |RowFood(i, food[i][..j])|
      {
        ScanCell(food, i, j);
        if food[i][j] {
          numFood := numFood + 1;
        }
      }
      ScanRow(food, i);
    }
    assert food[..|food|] == food;
    NumFoodIsFoodCellCount(food);
  }

  // ---------------------------------------------------------------------
  // The heuristic
  // ---------------------------------------------------------------------

  /** The distance from each food dot to Pacman: the source's `dist`. */
  function Distances(ps: seq<Pos>, position: Pos): (d: seq<int>)
    ensures |d| == |ps|
    ensures forall k :: 0 <= k < |ps| ==> d[k] == ManhattanDistance(ps[k], position)
  {
    seq(|ps|, k requires 0 <= k < |ps| => ManhattanDistance(ps[k], position) as int)
  }

  /**
   * The index the source's first loop leaves in `furthestFoodIndex`: a dot
   * replaces the current one only when it lies strictly farther, starting
   * from distance 0; -1 stands for "never assigned".
   */
  function FurthestIndex(d: seq<int>): (f: int)
    ensures -1 <= f < |d|
    decreases |d|
  {
    if d == [] then -1
    else
      var f := FurthestIndex(d[..|d| - 1]);
      var maxDist := if f < 0 then 0 else d[f];
      if d[|d| - 1] > maxDist then |d| - 1 else f
  }

  /** One more distance appended: it becomes the furthest only when strictly farther. */
  lemma FurthestSnoc(d: seq<int>, v: int)
    ensures var f := FurthestIndex(d);
            FurthestIndex(d + [v]) == if v > (if f < 0 then 0 else d[f]) then |d| else f
  {
    assert (d + [v])[..|d|] == d;
  }

  /**
   * `FurthestIndex` is the first index of maximal distance, and it is
   * unassigned exactly when no dot lies at a positive distance.
   */
  lemma {:induction false} FurthestIsFirstMaximum(d: seq<int>)
    ensures FurthestIndex(d) == -1 <==> forall k :: 0 <= k < |d| ==> d[k] <= 0
    ensures FurthestIndex(d) >= 0 ==>
              var f := FurthestIndex(d);
              d[f] > 0 && (forall k :: 0 <= k < |d| ==> d[k] <= d[f]) &&
              (forall k :: 0 <= k < f ==> d[k] < d[f])
    decreases |d|
  {
    if d != [] {
      var front := d[..|d| - 1];
      FurthestIsFirstMaximum(front);
      assert forall k :: 0 <= k < |front| ==> front[k] == d[k];
    }
  }

  /** With two or more dots, one lies at a positive distance, so the furthest dot is defined. */
  lemma FurthestDefined(food: FoodGrid, position: Pos)
    requires |FoodPositions(food)| >= 2
    ensures FurthestIndex(Distances(FoodPositions(food), position)) >= 0
  {
    var ps := FoodPositions(food);
    var d := Distances(ps, position);
    FoodPositionsAreFoodCells(food);
    assert ScanBefore(ps[0], ps[1]);
    ManhattanZero(ps[0], position);
    ManhattanZero(ps[1], position);
    assert d[0] > 0 || d[1] > 0;
    FurthestIsFirstMaximum(d);
  }

  /** The source's `chasles`: how much visiting dot `a` lengthens the walk to the furthest dot `f`. */
  function ChaslesGain(ps: seq<Pos>, d: seq<int>, f: nat, a: nat): int
    requires |d| == |ps| && f < |ps| && a < |ps|
  {
    d[a] + ManhattanDistance(ps[a], ps[f]) - d[f]
  }

  /** The value the source's second loop leaves in `maxChasles` after the first `k` dots. */
  function MaxChasles(ps: seq<Pos>, d: seq<int>, f: nat, k: nat): (m: int)
    requires |d| == |ps| && f < |ps| && k <= |ps|
    ensures m >= -1
    decreases k
  {
    if k == 0 then -1
    else
      var m := MaxChasles(ps, d, f, k - 1);
      var a := k - 1;
      if a != f && ChaslesGain(ps, d, f, a) > m then ChaslesGain(ps, d, f, a) else m
  }

  /** `MaxChasles` is the maximum gain over the dots other than `f`, or -1 if there are none. */
  lemma {:induction false} MaxChaslesIsMaximum(ps: seq<Pos>, d: seq<int>, f: nat, k: nat)
    requires |d| == |ps| && f < |ps| && k <= |ps|
    ensures forall a :: 0 <= a < k && a != f ==> ChaslesGain(ps, d, f, a) <= MaxChasles(ps, d, f, k)
    ensures MaxChasles(ps, d, f, k) == -1 ||
            exists a :: 0 <= a < k && a != f && ChaslesGain(ps, d, f, a) == MaxChasles(ps, d, f, k)
    decreases k
  {
    if k > 0 {
      MaxChaslesIsMaximum(ps, d, f, k - 1);
    }
  }

  /** By the triangle inequality a detour through another dot never shortens the walk. */
  lemma ChaslesGainNonNegative(ps: seq<Pos>, position: Pos, f: nat, a: nat)
    requires f < |ps| && a < |ps|
    ensures ChaslesGain(ps, Distances(ps, position), f, a) >= 0
  {
    TriangleInequality(ps[f], ps[a], position);
    ManhattanSymmetric(ps[f], ps[a]);
  }

  /**
   * The source's `res` before the final `1 + res - getNumFood(state)`: 0
   * without food, the distance to the only dot, and otherwise the longest
   * walk "Pacman, another dot, the furthest dot", clamped from below by the
   * number of dots.
   */
  function Estimate(food: FoodGrid, position: Pos): int
  {
    var ps := FoodPositions(food);
    var d := Distances(ps, position);
    if |ps| == 0 then 0
    else if |ps| == 1 then d[0]
    else
      FurthestDefined(food, position);
      var f := FurthestIndex(d);
      var maxChasles := MaxChasles(ps, d, f, |ps|);
      var res := if maxChasles == -1 then 0 else maxChasles + d[f];
      if res < |ps| then |ps| else res
  }

  /** The value the source's `heuristic` returns. */
  function HeuristicValue(food: FoodGrid, position: Pos): int
  {
    1 + Estimate(food, position) - |FoodPositions(food)|
  }

  /** The walk from Pacman to dot `a`, then on to dot `f`. */
  function Detour(ps: seq<Pos>, position: Pos, f: nat, a: nat): int
    requires f < |ps| && a < |ps|
  {
    ManhattanDistance(ps[a], position) + ManhattanDistance(ps[a], ps[f])
  }

  /** The heuristic of a grid without food is 1. */
  lemma HeuristicNoFood(food: FoodGrid, position: Pos)
    requires FoodCells(food) == {}
    ensures HeuristicValue(food, position) == 1
  {
    NumFoodIsFoodCellCount(food);
  }

  /** With exactly one food dot, at `p`, the heuristic is its distance: `1 + d - 1`. */
  lemma HeuristicOneFood(food: FoodGrid, position: Pos, p: Pos)
    requires FoodCells(food) == {p}
    ensures HeuristicValue(food, position) == ManhattanDistance(p, position)
  {
    NumFoodIsFoodCellCount(food);
    var ps := FoodPositions(food);
    assert ps[0] in (set q | q in ps);
  }

  /**
   * With two or more dots, the estimate is the longest detour through a
   * dot other than the furthest one `f`, or the number of dots when that is
   * larger; so the heuristic is at least 1. `f` is the first dot of
   * maximal distance (`FurthestIsFirstMaximum`).
   */
  lemma HeuristicManyFood(food: FoodGrid, position: Pos)
    requires |FoodCells(food)| >= 2
    ensures HeuristicValue(food, position) >= 1
    ensures Estimate(food, position) >= |FoodCells(food)|
    ensures var ps := FoodPositions(food);
            var f := FurthestIndex(Distances(ps, position));
            0 <= f < |ps| &&
            (forall a :: 0 <= a < |ps| && a != f ==> Detour(ps, position, f, a) <= Estimate(food, position)) &&
            (Estimate(food, position) == |ps| ||
             exists a :: 0 <= a < |ps| && a != f && Detour(ps, position, f, a) == Estimate(food, position))
  {
    NumFoodIsFoodCellCount(food);
    var ps := FoodPositions(food);
    var d := Distances(ps, position);
    FurthestDefined(food, position);
    var f := FurthestIndex(d);
    MaxChaslesIsMaximum(ps, d, f, |ps|);
    var a0 := if f == 0 then 1 else 0;
    ChaslesGainNonNegative(ps, position, f, a0);
    assert MaxChasles(ps, d, f, |ps|) >= 0;
    forall a | 0 <= a < |ps| && a != f
      ensures Detour(ps, position, f, a) == ChaslesGain(ps, d, f, a) + d[f]
    {
    }
  }

  /**
   * The first loop of `heuristic`: scan the grid, recording each dot, its
   * distance to Pacman and the index of the first furthest dot (-1 while
   * no dot lies at a positive distance).
   */
  method ScanFood(food: FoodGrid, position: Pos) returns (foodPos: seq<Pos>, dist: seq<int>, furthestFoodIndex: int)
    ensures foodPos == FoodPositions(food)
    ensures dist == Distances(foodPos, position)
    ensures furthestFoodIndex == FurthestIndex(dist)
  {
    dist := [];
    foodPos := [];
    var maxDist := 0;
    // unassigned in the source until a dot at a positive distance is seen
    furthestFoodIndex := -1;
    var x := 0;
    for i := 0 to |food|
      invariant foodPos == FoodPositions(food[..i])
      invariant |dist| == |foodPos| == x
      invariant forall k :: 0 <= k < x ==> dist[k] == ManhattanDistance(foodPos[k], position)
      invariant furthestFoodIndex == FurthestIndex(dist)
      invariant maxDist == if furthestFoodIndex < 0 then 0 else dist[furthestFoodIndex]
    {
      for j := 0 to |food[i]|
        invariant foodPos == FoodPositions(food[..i]) + RowFood(i, food[i][..j])
        invariant |dist| == |foodPos| == x
        invariant forall k :: 0 <= k < x ==> dist[k] == ManhattanDistance(foodPos[k], position)
        invariant furthestFoodIndex == FurthestIndex(dist)
        invariant maxDist == if furthestFoodIndex < 0 then 0 else dist[furthestFoodIndex]
      {
        ScanCell(food, i, j);
        if food[i][j] {
          foodPos := foodPos + [(i, j)];
          FurthestSnoc(dist, ManhattanDistance(foodPos[x], position));
          dist := dist + [ManhattanDistance(foodPos[x], position)];
          if dist[x] > maxDist {
            maxDist := dist[x];
            furthestFoodIndex := x;
          }
          x := x + 1;
        }
      }
      ScanRow(food, i);
    }
    assert food[..|food|] == food;
  }

  /**
   * The second loop of `heuristic`: over the dots other than the furthest
   * one, keep the largest gain and the length of the walk that has it.
   */
  method LongestDetour(foodPos: seq<Pos>, dist: seq<int>, furthestFoodIndex: nat) returns (res: int)
    requires |dist| == |foodPos| && furthestFoodIndex < |foodPos|
    ensures var m := MaxChasles(foodPos, dist, furthestFoodIndex, |foodPos|);
            res == if m == -1 then 0 else m + dist[furthestFoodIndex]
  {
    res := 0;
    var maxChasles := -1;
    for a := 0 to |dist|
      invariant maxChasles == MaxChasles(foodPos, dist, furthestFoodIndex, a)
      invariant res == if maxChasles == -1 then 0 else maxChasles + dist[furthestFoodIndex]
    {
      if a != furthestFoodIndex {
        var chasles := dist[a] + ManhattanDistance(foodPos[a], foodPos[furthestFoodIndex]) - dist[furthestFoodIndex];
        if chasles > maxChasles {
          maxChasles := chasles;
          res := dist[a] + ManhattanDistance(foodPos[a], foodPos[furthestFoodIndex]);
        }
      }
    }
  }

  /** `heuristic`: the scan of the grid, then the loop over the dots. */
  method Heuristic(food: FoodGrid, position: Pos) returns (h: int)
    ensures h == HeuristicValue(food, position)
  {
    var foodPos, dist, furthestFoodIndex := ScanFood(food, position);
    var res := 0;
    if |dist| == 1 {
      res := dist[0];
    } else if |dist| > 1 {
      FurthestDefined(food, position);
      res := LongestDetour(foodPos, dist, furthestFoodIndex);
      if res < |foodPos| {
        res := |foodPos|;
      }
    }
    assert res == Estimate(food, position);
    var numFood := GetNumFood(food);
    h := 1 + res - numFood;
  }

  // ---------------------------------------------------------------------
  // Cost and priority
  // ---------------------------------------------------------------------

  /** `costFunction`: path length plus one, less the dots eaten since the start. */
  function CostFunction(initialNumFood: int, food: FoodGrid, path: seq<Direction>): int
  {
    1 + |path| - (initialNumFood - |FoodPositions(food)|)
  }

  /** A move that eats a dot costs nothing; any other move costs one. */
  lemma CostCreditsEatenFood(initialNumFood: int, food: FoodGrid, food': FoodGrid,
                             path: seq<Direction>, move: Direction)
    ensures CostFunction(initialNumFood, food', path + [move]) ==
            CostFunction(initialNumFood, food, path) + 1 - (|FoodCells(food)| - |FoodCells(food')|)
  {
    NumFoodIsFoodCellCount(food);
    NumFoodIsFoodCellCount(food');
  }

  /**
   * `priorityFunction`: cost plus heuristic. The current food count cancels
   * between the two, leaving the path length, the initial count and the
   * heuristic's estimate.
   */
  function PriorityFunction(initialNumFood: int, food: FoodGrid, position: Pos, path: seq<Direction>): (r: int)
    ensures r == 2 + |path| - initialNumFood + Estimate(food, position)
  {
    CostFunction(initialNumFood, food, path) + HeuristicValue(food, position)
  }

  /** The frontier's ordering in one search: `PriorityFunction` for a fixed initial food count. */
  function Priority<S>(game: GameModel<S>, initialNumFood: int): (S, seq<Direction>) -> int
  {
    (s: S, p: seq<Direction>) => PriorityFunction(initialNumFood, game.food(s), game.position(s), p)
  }

  // ---------------------------------------------------------------------
  // The search and the agent
  // ---------------------------------------------------------------------

  /**
   * `astar`: record the initial food count, then run the best-first search
   * ordered by `PriorityFunction`.
   */
  method AStarSearch<S(!new)>(game: GameModel<S>, state: S, ghost universe: set<StateKey>)
    returns (path: seq<Direction>, ghost expanded: seq<StateKey>, ghost popped: seq<Node<S, Direction>>)
    requires Key(game, state) in universe
    requires ClosedUnder(game.successors, KeyOf(game), universe)
    ensures game.isWin(state) ==> path == []
    ensures path != [] ==> exists t :: Chain(game.successors, state, path, t) && game.isWin(t)
    ensures path == [] && !game.isWin(state) && KeyDetermines(game.successors, game.isWin, KeyOf(game)) ==>
              NoWinReachable(game.successors, game.isWin, state)
    ensures NoWinReachable(game.successors, game.isWin, state) ==> path == []
    ensures forall a, b :: 0 <= a < b < |expanded| ==> expanded[a] != expanded[b]
    ensures forall n :: 0 <= n < |expanded| ==> expanded[n] in universe
    ensures forall n :: 0 <= n < |popped| ==> Chain(game.successors, state, popped[n].path, popped[n].state)
    ensures popped != [] && popped[0] == Node(state, [])
    ensures forall n :: 0 <= n < |popped| - 1 ==> !game.isWin(popped[n].state)
    ensures path == (if game.isWin(popped[|popped| - 1].state) then popped[|popped| - 1].path else [])
    ensures Elements(expanded) == WinlessKeys(game.isWin, KeyOf(game), popped)
  {
    var initialNumFood := GetNumFood(game.food(state));
    path, expanded, popped := BestFirstSearch(game.successors, game.isWin, KeyOf(game),
                                              Priority(game, initialNumFood), state, universe);
  }

  /** The A* agent: plans once, then replays the buffered moves. */
  class PacmanAgent<S(!new)> {
    const game: GameModel<S>
    ghost const universe: set<StateKey>
    var moves: seq<Direction>

    constructor (game: GameModel<S>, ghost universe: set<StateKey>)
      ensures this.game == game && this.universe == universe
      ensures moves == []
    {
      this.game := game;
      this.universe := universe;
      moves := [];
    }

    /**
     * `get_action`: plan when the buffer is empty, then hand out and drop
     * the first buffered move, or `Stop` when there is none.
     */
    method GetAction(state: S) returns (move: Direction)
      requires Key(game, state) in universe
      requires ClosedUnder(game.successors, KeyOf(game), universe)
      modifies this
      ensures old(moves) != [] ==> move == old(moves)[0] && moves == old(moves)[1..]
      ensures old(moves) == [] ==>
                (move == Stop && moves == []) ||
                exists t :: Chain(game.successors, state, [move] + moves, t) && game.isWin(t)
      ensures old(moves) == [] && game.isWin(state) ==> move == Stop && moves == []
      ensures old(moves) == [] && NoWinReachable(game.successors, game.isWin, state) ==>
                move == Stop && moves == []
      ensures old(moves) == [] && !game.isWin(state) && KeyDetermines(game.successors, game.isWin, KeyOf(game)) &&
              !NoWinReachable(game.successors, game.isWin, state) ==>
                exists t :: Chain(game.successors, state, [move] + moves, t) && game.isWin(t)
    {
      if moves == [] {
        ghost var expanded, popped;
        moves, expanded, popped := AStarSearch(game, state, universe);
      }
      if moves == [] {
        move := Stop;
      } else {
        move := moves[0];
        moves := moves[1..];
      }
    }
  }
}
