/**
 * The game collaborators the two planners consume, and the state key used
 * for duplicate suppression.
 *
 * The game engine itself (successor generation, win detection, the food
 * grid) is not part of this model: a `GameModel` bundles the four queries
 * the planners make of a game state, as total functions of the state.
 */
module Pacman {

  /** A board position `(x, y)`. */
  type Pos = (int, int)

  /**
   * The food grid as the planners iterate it: `food[i][j]` is the cell at
   * position `(i, j)`, and `true` marks a food dot still to be eaten.
   */
  type FoodGrid = seq<seq<bool>>

  /** The key of a game state: Pacman's position and the food grid. */
  type StateKey = (Pos, FoodGrid)

  /** The moves of `game.Directions`; `Stop` is the agent's "stay" move. */
  datatype Direction = North | South | East | West | Stop

  /** The queries a planner makes of a game state of type `S`. */
  datatype GameModel<!S> = GameModel(
    position: S -> Pos,
    food: S -> FoodGrid,
    isWin: S -> bool,
    successors: S -> seq<(S, Direction)>)

  function Abs(v: int): nat
  {
    if v < 0 then -v else v
  }

  /**
   * The Manhattan distance `|x1 - x2| + |y1 - y2|`. The game library's
   * `manhattanDistance` is not part of this model; this is its standard
   * meaning, taken as an assumption.
   */
  function ManhattanDistance(p: Pos, q: Pos): nat
  {
    Abs(p.0 - q.0) + Abs(p.1 - q.1)
  }

  lemma ManhattanSymmetric(p: Pos, q: Pos)
    ensures ManhattanDistance(p, q) == ManhattanDistance(q, p)
  {
  }

  lemma ManhattanZero(p: Pos, q: Pos)
    ensures ManhattanDistance(p, q) == 0 <==> p == q
  {
  }

  /** The triangle inequality ("Chasles' relation" in the heuristic's terms). */
  lemma TriangleInequality(p: Pos, q: Pos, r: Pos)
    ensures ManhattanDistance(p, r) <= ManhattanDistance(p, q) + ManhattanDistance(q, r)
  {
  }

  /** The key of a state: its position and its food grid, compared by value. */
  function Key<S>(game: GameModel<S>, s: S): StateKey
  {
    (game.position(s), game.food(s))
  }

  /** `Key` as a function value, the form the generic search takes. */
  function KeyOf<S>(game: GameModel<S>): S -> StateKey
  {
    s => Key(game, s)
  }

  /** Two states share a key exactly when they agree on position and food. */
  lemma KeyIdentifiesState<S>(game: GameModel<S>, s1: S, s2: S)
    ensures Key(game, s1) == Key(game, s2) <==>
              game.position(s1) == game.position(s2) && game.food(s1) == game.food(s2)
    ensures KeyOf(game)(s1) == Key(game, s1)
  {
  }
}
