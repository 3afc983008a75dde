/**
 * The breadth-first planner: the same best-first search ordered by path
 * length alone (the heuristic is zero), and the agent that replays its plan.
 */
module Bfs {
  import opened Pacman
  import opened Search

  /** `costFunction`: the path length plus one. */
  function CostFunction(path: seq<Direction>): int
  {
    1 + |path|
  }

  /** `heuristic`: zero for every entry. */
  function Heuristic<S>(state: S, path: seq<Direction>): int
  {
    0
  }

  /** `priorityFunction`: cost plus heuristic, which is the path length plus one. */
  function PriorityFunction<S>(state: S, path: seq<Direction>): (r: int)
    ensures r == 1 + |path|
  {
    CostFunction(path) + Heuristic(state, path)
  }

  /**
   * The priority is the path length plus one; so every successor entry,
   * one move longer, has a priority one more than its parent's.
   */
  lemma PriorityIsMonotone<S(!new)>(succ: S -> seq<(S, Direction)>)
    ensures PathLengthPriority((s: S, p: seq<Direction>) => PriorityFunction(s, p))
    ensures Monotone(succ, (s: S, p: seq<Direction>) => PriorityFunction(s, p))
    ensures forall s: S, p: seq<Direction>, a: Direction ::
              PriorityFunction(s, p + [a]) == PriorityFunction(s, p) + 1
  {
  }

  /**
   * `bfs`: the best-first search ordered by `PriorityFunction`. Besides the
   * search's guarantees, the entries leave the frontier in nondecreasing
   * path length, and the returned path is no longer than any chain of moves
   * from the start to a winning state.
   */
  method BfsSearch<S(!new)>(game: GameModel<S>, state: S, ghost universe: set<StateKey>)
    returns (path: seq<Direction>, ghost expanded: seq<StateKey>, ghost popped: seq<Node<S, Direction>>)
    requires Key(game, state) in universe
    requires ClosedUnder(game.successors, KeyOf(game), universe)
    ensures game.isWin(state) ==> path == []
    ensures path != [] ==> exists t :: Chain(game.successors, state, path, t) && game.isWin(t)
    ensures path == [] && !game.isWin(state) && KeyDetermines(game.successors, game.isWin, KeyOf(game)) ==>
              NoWinReachable(game.successors, game.isWin, state)
    ensures NoWinReachable(game.successors, game.isWin, state) ==> path == []
    ensures forall a, b :: 0 <= a < b < |expanded| ==> expanded[a] != expanded[b]
    ensures forall a, b :: 0 <= a < b < |popped| ==> |popped[a].path| <= |popped[b].path|
    ensures KeyDetermines(game.successors, game.isWin, KeyOf(game)) ==>
              forall q, t :: Chain(game.successors, state, q, t) && game.isWin(t) ==> |path| <= |q|
    ensures forall n :: 0 <= n < |expanded| ==> expanded[n] in universe
    ensures forall n :: 0 <= n < |popped| ==> Chain(game.successors, state, popped[n].path, popped[n].state)
    ensures popped != [] && popped[0] == Node(state, [])
    ensures forall n :: 0 <= n < |popped| - 1 ==> !game.isWin(popped[n].state)
    ensures path == (if game.isWin(popped[|popped| - 1].state) then popped[|popped| - 1].path else [])
    ensures Elements(expanded) == WinlessKeys(game.isWin, KeyOf(game), popped)
  {
    var priority := (s: S, p: seq<Direction>) => PriorityFunction(s, p);
    PriorityIsMonotone(game.successors);
    path, expanded, popped := BestFirstSearch(game.successors, game.isWin, KeyOf(game), priority, state, universe);
    assert PoppedInOrder(priority, popped);
    forall a, b | 0 <= a < b < |popped| ensures |popped[a].path| <= |popped[b].path| {
      assert priority(popped[a].state, popped[a].path) <= priority(popped[b].state, popped[b].path);
    }
  }

  /** The BFS agent: plans once, then replays the buffered moves. */
  class PacmanAgent<S(!new)> {
    const game: GameModel<S>
    ghost const universe: set<StateKey>
    var moves: seq<Direction>

    constructor (game: GameModel<S>, ghost universe: set<StateKey>)
      ensures this.game == game && this.universe == universe
      ensures moves == []
    {
      this.game := game;
      this.universe := universe;
      moves := [];
    }

    /**
     * `get_action`: plan when the buffer is empty, then hand out and drop
     * the first buffered move, or `Stop` when there is none.
     */
    method GetAction(state: S) returns (move: Direction)
      requires Key(game, state) in universe
      requires ClosedUnder(game.successors, KeyOf(game), universe)
      modifies this
      ensures old(moves) != [] ==> move == old(moves)[0] && moves == old(moves)[1..]
      ensures old(moves) == [] ==>
                (move == Stop && moves == []) ||
                exists t :: Chain(game.successors, state, [move] + moves, t) && game.isWin(t)
      ensures old(moves) == [] && game.isWin(state) ==> move == Stop && moves == []
      ensures old(moves) == [] && NoWinReachable(game.successors, game.isWin, state) ==>
                move == Stop && moves == []
      ensures old(moves) == [] && !game.isWin(state) && KeyDetermines(game.successors, game.isWin, KeyOf(game)) &&
              !NoWinReachable(game.successors, game.isWin, state) ==>
                exists t :: Chain(game.successors, state, [move] + moves, t) && game.isWin(t)
      ensures old(moves) == [] && !game.isWin(state) && KeyDetermines(game.successors, game.isWin, KeyOf(game)) ==>
                forall q, t :: Chain(game.successors, state, q, t) && game.isWin(t) ==> 1 + |moves| <= |q|
    {
      if moves == [] {
        ghost var expanded, popped;
        moves, expanded, popped := BfsSearch(game, state, universe);
      }
      if moves == [] {
        move := Stop;
      } else {
        move := moves[0];
        moves := moves[1..];
      }
    }
  }
}
