/**
 * The best-first graph search that both planners run: pop a frontier entry
 * of minimum priority, return its path when its state wins, otherwise
 * expand its key once and push every successor whose key is not already
 * pending.
 *
 * The search is generic over the state type `S`, the key type `K` and the
 * move type `A`. The priority queue is a sequence from which the loop takes
 * any entry of minimum priority: the order among ties is left open.
 */
module Search {

  /** A frontier entry: a state and the moves that reached it from the start. */
  datatype Node<S, A> = Node(state: S, path: seq<A>)

  /** `path` leads from `s` to `t`, each move taken from a successor entry. */
  ghost predicate Chain<S(!new), A(!new)>(succ: S -> seq<(S, A)>, s: S, path: seq<A>, t: S)
    decreases |path|
  {
    if path == [] then s == t
    else exists i :: 0 <= i < |succ(s)| && succ(s)[i].1 == path[0] &&
                     Chain(succ, succ(s)[i].0, path[1..], t)
  }

  /** No state reachable from `start` is winning. */
  ghost predicate NoWinReachable<S(!new), A(!new)>(succ: S -> seq<(S, A)>, isWin: S -> bool, start: S)
  {
    forall path, t :: Chain(succ, start, path, t) ==> !isWin(t)
  }

  /** The keys of the successors of `s`. */
  ghost function SuccKeys<S(!new), K, A(!new)>(succ: S -> seq<(S, A)>, key: S -> K, s: S): set<K>
  {
    set i | 0 <= i < |succ(s)| :: key(succ(s)[i].0)
  }

  /** The keys in `universe` are closed under taking successors: a finite state space. */
  ghost predicate ClosedUnder<S(!new), K, A(!new)>(succ: S -> seq<(S, A)>, key: S -> K, universe: set<K>)
  {
    forall s, i {:trigger key(succ(s)[i].0)} ::
      key(s) in universe && 0 <= i < |succ(s)| ==> key(succ(s)[i].0) in universe
  }

  /**
   * The key is a faithful abstraction of the state: states with equal keys
   * agree on winning and on the keys of their successors.
   */
  ghost predicate KeyDetermines<S(!new), K, A(!new)>(succ: S -> seq<(S, A)>, isWin: S -> bool, key: S -> K)
  {
    forall s1, s2 :: key(s1) == key(s2) ==>
      isWin(s1) == isWin(s2) && SuccKeys(succ, key, s1) == SuccKeys(succ, key, s2)
  }

  /** A successor entry never has a smaller priority than the entry it came from. */
  ghost predicate Monotone<S(!new), A(!new)>(succ: S -> seq<(S, A)>, priority: (S, seq<A>) -> int)
  {
    forall s, path, i {:trigger priority(succ(s)[i].0, path + [succ(s)[i].1])} ::
      0 <= i < |succ(s)| ==> priority(s, path) <= priority(succ(s)[i].0, path + [succ(s)[i].1])
  }

  ghost function KeysOf<S(!new), K, A(!new)>(key: S -> K, fringe: seq<Node<S, A>>): set<K>
  {
    set n | 0 <= n < |fringe| :: key(fringe[n].state)
  }

  /** No two frontier entries share a key. */
  ghost predicate DistinctKeys<S(!new), K, A(!new)>(key: S -> K, fringe: seq<Node<S, A>>)
  {
    forall a, b :: 0 <= a < b < |fringe| ==> key(fringe[a].state) != key(fringe[b].state)
  }

  predicate IsMinimum<S(!new), A(!new)>(priority: (S, seq<A>) -> int, fringe: seq<Node<S, A>>, i: nat)
    requires i < |fringe|
  {
    forall j :: 0 <= j < |fringe| ==>
      priority(fringe[i].state, fringe[i].path) <= priority(fringe[j].state, fringe[j].path)
  }

  /** The popped entries, in order, have nondecreasing priority. */
  ghost predicate PoppedInOrder<S(!new), A(!new)>(priority: (S, seq<A>) -> int, popped: seq<Node<S, A>>)
  {
    forall a, b :: 0 <= a < b < |popped| ==>
      priority(popped[a].state, popped[a].path) <= priority(popped[b].state, popped[b].path)
  }

  /**
   * The bookkeeping of expanded keys: each closed key was expanded from a
   * non-winning state `rep[k]`, and every successor key of that state is
   * closed or pending.
   */
  ghost predicate ClosedExpanded<S(!new), K, A(!new)>(succ: S -> seq<(S, A)>, isWin: S -> bool, key: S -> K,
                                          closed: set<K>, rep: map<K, S>, pending: set<K>)
  {
    forall k :: k in closed ==>
      k in rep && key(rep[k]) == k && !isWin(rep[k]) && SuccKeys(succ, key, rep[k]) <= closed + pending
  }

  /** `node` is the entry for one of the first `m` successors, reached by `path` and its move. */
  ghost predicate PushedFrom<S(!new), A(!new)>(node: Node<S, A>, successors: seq<(S, A)>, m: nat, path: seq<A>)
  {
    exists j :: 0 <= j < m && j < |successors| &&
                node.state == successors[j].0 && node.path == path + [successors[j].1]
  }

  function RemoveAt<T>(s: seq<T>, i: nat): (r: seq<T>)
    requires i < |s|
    ensures |r| == |s| - 1
    ensures forall k :: 0 <= k < i ==> r[k] == s[k]
    ensures forall k :: i <= k < |r| ==> r[k] == s[k + 1]
  {
    s[..i] + s[i + 1..]
  }

  /** Appending a successor entry to a path that reaches `u` extends the chain. */
  lemma {:induction false} ChainSnoc<S(!new), A(!new)>(succ: S -> seq<(S, A)>, s: S, path: seq<A>, u: S, i: nat)
    requires Chain(succ, s, path, u)
    requires i < |succ(u)|
    ensures Chain(succ, s, path + [succ(u)[i].1], succ(u)[i].0)
    decreases |path|
  {
    var a := succ(u)[i].1;
    if path == [] {
      assert Chain(succ, succ(u)[i].0, ([] + [a])[1..], succ(u)[i].0);
    } else {
      var k :| 0 <= k < |succ(s)| && succ(s)[k].1 == path[0] &&
               Chain(succ, succ(s)[k].0, path[1..], u);
      ChainSnoc(succ, succ(s)[k].0, path[1..], u, i);
      assert (path + [a])[1..] == path[1..] + [a];
      assert (path + [a])[0] == path[0];
    }
  }

  /** A non-empty frontier has an entry of minimum priority. */
  lemma {:induction false} MinimumExists<S(!new), A(!new)>(priority: (S, seq<A>) -> int, fringe: seq<Node<S, A>>)
    requires fringe != []
    ensures exists i: nat :: i < |fringe| && IsMinimum(priority, fringe, i)
    decreases |fringe|
  {
    if |fringe| == 1 {
      assert IsMinimum(priority, fringe, 0);
    } else {
      var front := fringe[..|fringe| - 1];
      MinimumExists(priority, front);
      var i: nat :| i < |front| && IsMinimum(priority, front, i);
      var last := |fringe| - 1;
      if priority(fringe[last].state, fringe[last].path) < priority(fringe[i].state, fringe[i].path) {
        assert IsMinimum(priority, fringe, last);
      } else {
        assert IsMinimum(priority, fringe, i);
      }
    }
  }

  lemma KeysOfSnoc<S(!new), K, A(!new)>(key: S -> K, fringe: seq<Node<S, A>>, x: Node<S, A>)
    ensures KeysOf(key, fringe + [x]) == KeysOf(key, fringe) + {key(x.state)}
  {
    var longer := fringe + [x];
    forall k | k in KeysOf(key, longer) ensures k in KeysOf(key, fringe) + {key(x.state)} {
      var n :| 0 <= n < |longer| && key(longer[n].state) == k;
      if n < |fringe| {
        assert longer[n] == fringe[n];
      }
    }
    forall k | k in KeysOf(key, fringe) ensures k in KeysOf(key, longer) {
      var n :| 0 <= n < |fringe| && key(fringe[n].state) == k;
      assert longer[n] == fringe[n];
    }
    assert longer[|fringe|] == x;
  }

  /** Removing one entry of a key-distinct frontier removes exactly its key. */
  lemma KeysOfRemoveAt<S(!new), K, A(!new)>(key: S -> K, fringe: seq<Node<S, A>>, i: nat)
    requires i < |fringe|
    requires DistinctKeys(key, fringe)
    ensures KeysOf(key, RemoveAt(fringe, i)) == KeysOf(key, fringe) - {key(fringe[i].state)}
    ensures DistinctKeys(key, RemoveAt(fringe, i))
  {
    var shorter := RemoveAt(fringe, i);
    forall k | k in KeysOf(key, shorter)
      ensures k in KeysOf(key, fringe) - {key(fringe[i].state)}
    {
      var n :| 0 <= n < |shorter| && key(shorter[n].state) == k;
      if n < i {
        assert shorter[n] == fringe[n];
      } else {
        assert shorter[n] == fringe[n + 1];
      }
    }
    forall k | k in KeysOf(key, fringe) - {key(fringe[i].state)}
      ensures k in KeysOf(key, shorter)
    {
      var n :| 0 <= n < |fringe| && key(fringe[n].state) == k;
      if n < i {
        assert shorter[n] == fringe[n];
      } else {
        assert n != i;
        assert shorter[n - 1] == fringe[n];
      }
    }
  }

  /** Every state reachable from a closed key has a closed key. */
  lemma {:induction false} ReachableStaysClosed<S(!new), K, A(!new)>(
    succ: S -> seq<(S, A)>, isWin: S -> bool, key: S -> K,
    closed: set<K>, rep: map<K, S>, s: S, path: seq<A>, t: S)
    requires KeyDetermines(succ, isWin, key)
    requires ClosedExpanded(succ, isWin, key, closed, rep, {})
    requires key(s) in closed
    requires Chain(succ, s, path, t)
    ensures key(t) in closed
    decreases |path|
  {
    if path != [] {
      var i :| 0 <= i < |succ(s)| && succ(s)[i].1 == path[0] && Chain(succ, succ(s)[i].0, path[1..], t);
      assert key(succ(s)[i].0) in SuccKeys(succ, key, s);
      assert SuccKeys(succ, key, s) == SuccKeys(succ, key, rep[key(s)]);
      ReachableStaysClosed(succ, isWin, key, closed, rep, succ(s)[i].0, path[1..], t);
    }
  }

  /** An exhausted frontier means that no winning state is reachable. */
  lemma ExhaustedMeansUnsolvable<S(!new), K, A(!new)>(
    succ: S -> seq<(S, A)>, isWin: S -> bool, key: S -> K,
    closed: set<K>, rep: map<K, S>, start: S)
    requires KeyDetermines(succ, isWin, key)
    requires ClosedExpanded(succ, isWin, key, closed, rep, {})
    requires key(start) in closed
    ensures NoWinReachable(succ, isWin, start)
  {
    forall path, t | Chain(succ, start, path, t) ensures !isWin(t) {
      ReachableStaysClosed(succ, isWin, key, closed, rep, start, path, t);
      assert isWin(t) == isWin(rep[key(t)]);
    }
  }

  /**
   * The inner loop of an expansion: push, in order, every successor whose
   * key is not pending, marking its key pending.
   */
  method PushSuccessors<S(!new), K(==), A(!new)>(key: S -> K, successors: seq<(S, A)>, path: seq<A>,
                                     fringe: seq<Node<S, A>>, fringeKeys: set<K>)
    returns (fringe': seq<Node<S, A>>, fringeKeys': set<K>)
    requires fringeKeys == KeysOf(key, fringe)
    requires DistinctKeys(key, fringe)
    ensures |fringe| <= |fringe'| && fringe'[..|fringe|] == fringe
    ensures forall n :: |fringe| <= n < |fringe'| ==> PushedFrom(fringe'[n], successors, |successors|, path)
    ensures fringeKeys' == fringeKeys + (set j | 0 <= j < |successors| :: key(successors[j].0))
    ensures fringeKeys' == KeysOf(key, fringe')
    ensures DistinctKeys(key, fringe')
  {
    fringe', fringeKeys' := fringe, fringeKeys;
    for j := 0 to |successors|
      invariant |fringe| <= |fringe'| && fringe'[..|fringe|] == fringe
      invariant forall n :: |fringe| <= n < |fringe'| ==> PushedFrom(fringe'[n], successors, j, path)
      invariant fringeKeys' == fringeKeys + (set j' | 0 <= j' < j :: key(successors[j'].0))
      invariant fringeKeys' == KeysOf(key, fringe')
      invariant DistinctKeys(key, fringe')
    {
      var (nextState, action) := successors[j];
      var nextKey := key(nextState);
      if nextKey !in fringeKeys' {
        KeysOfSnoc(key, fringe', Node(nextState, path + [action]));
        fringeKeys' := fringeKeys' + {nextKey};
        fringe' := fringe' + [Node(nextState, path + [action])];
      }
      assert (set j' | 0 <= j' < j + 1 :: key(successors[j'].0)) ==
             (set j' | 0 <= j' < j :: key(successors[j'].0)) + {nextKey};
    }
  }

  /**
   * The frontier part of the loop invariant: everything stays inside the
   * finite universe, every entry's path leads from the start to its state,
   * no two pending entries share a key, and the pending keys are those of
   * the frontier, except before the first pop, when the start key is not in
   * `fringeKeys`.
   */
  ghost predicate FrontierInv<S(!new), K, A(!new)>(
    succ: S -> seq<(S, A)>, isWin: S -> bool, key: S -> K, start: S, universe: set<K>,
    closed: set<K>, fringeKeys: set<K>, fringe: seq<Node<S, A>>, popped: seq<Node<S, A>>)
  {
    && closed <= universe
    && (forall n :: 0 <= n < |fringe| ==> key(fringe[n].state) in universe)
    && (forall n :: 0 <= n < |fringe| ==> Chain(succ, start, fringe[n].path, fringe[n].state))
    && (forall n :: 0 <= n < |popped| ==> Chain(succ, start, popped[n].path, popped[n].state))
    && DistinctKeys(key, fringe)
    && (popped == [] ==> fringe == [Node(start, [])] && fringeKeys == {} && closed == {})
    && (popped != [] ==> fringeKeys == KeysOf(key, fringe))
    && (isWin(start) ==> popped == [])
  }

  /**
   * The closed-key part: the start key is closed or pending, closed keys
   * were expanded once each, and their successors are closed or pending.
   */
  ghost predicate ClosedInv<S(!new), K, A(!new)>(
    succ: S -> seq<(S, A)>, isWin: S -> bool, key: S -> K, start: S,
    closed: set<K>, fringe: seq<Node<S, A>>, rep: map<K, S>, expanded: seq<K>)
  {
    && key(start) in closed + KeysOf(key, fringe)
    && ClosedExpanded(succ, isWin, key, closed, rep, KeysOf(key, fringe))
    && (forall k :: k in closed ==> k in expanded)
    && (forall n :: 0 <= n < |expanded| ==> expanded[n] in closed)
    && (forall a, b :: 0 <= a < b < |expanded| ==> expanded[a] != expanded[b])
  }

  /**
   * The order part: under a monotone priority, entries leave in order and
   * none pending is below the last one popped.
   */
  ghost predicate OrderInv<S(!new), A(!new)>(
    succ: S -> seq<(S, A)>, priority: (S, seq<A>) -> int, fringe: seq<Node<S, A>>, popped: seq<Node<S, A>>)
  {
    && (Monotone(succ, priority) ==> PoppedInOrder(priority, popped))
    && (Monotone(succ, priority) && popped != [] ==>
          forall n :: 0 <= n < |fringe| ==>
            priority(popped[|popped| - 1].state, popped[|popped| - 1].path) <=
            priority(fringe[n].state, fringe[n].path))
  }

  /**
   * The loop invariant of `BestFirstSearch`, over the loop's variables:
   * the closed keys, the pending keys, the frontier, the representative
   * state of each closed key, and the logs of expanded keys and popped
   * entries.
   */
  ghost predicate SearchInv<S(!new), K, A(!new)>(
    succ: S -> seq<(S, A)>, isWin: S -> bool, key: S -> K,
    priority: (S, seq<A>) -> int, start: S, universe: set<K>,
    closed: set<K>, fringeKeys: set<K>, fringe: seq<Node<S, A>>, rep: map<K, S>,
    expanded: seq<K>, popped: seq<Node<S, A>>)
  {
    && FrontierInv(succ, isWin, key, start, universe, closed, fringeKeys, fringe, popped)
    && ClosedInv(succ, isWin, key, start, closed, fringe, rep, expanded)
    && OrderInv(succ, priority, fringe, popped)
  }

  lemma SearchInvInit<S(!new), K, A(!new)>(
    succ: S -> seq<(S, A)>, isWin: S -> bool, key: S -> K,
    priority: (S, seq<A>) -> int, start: S, universe: set<K>)
    requires key(start) in universe
    ensures SearchInv(succ, isWin, key, priority, start, universe, {}, {}, [Node(start, [])], map[], [], [])
  {
    var fringe: seq<Node<S, A>> := [Node(start, [])];
    assert key(fringe[0].state) in KeysOf(key, fringe);
  }

  /** Popping entry `i` keeps the pending keys equal to the frontier's keys. */
  lemma PopKeepsPending<S(!new), K, A(!new)>(
    succ: S -> seq<(S, A)>, isWin: S -> bool, key: S -> K,
    priority: (S, seq<A>) -> int, start: S, universe: set<K>,
    closed: set<K>, fringeKeys: set<K>, fringe: seq<Node<S, A>>, rep: map<K, S>,
    expanded: seq<K>, popped: seq<Node<S, A>>, i: nat)
    requires SearchInv(succ, isWin, key, priority, start, universe, closed, fringeKeys, fringe, rep, expanded, popped)
    requires i < |fringe|
    ensures fringeKeys - {key(fringe[i].state)} == KeysOf(key, RemoveAt(fringe, i))
    ensures DistinctKeys(key, RemoveAt(fringe, i))
    ensures KeysOf(key, fringe) == KeysOf(key, RemoveAt(fringe, i)) + {key(fringe[i].state)}
    ensures key(fringe[i].state) in universe
  {
    KeysOfRemoveAt(key, fringe, i);
    assert key(fringe[i].state) in KeysOf(key, fringe);
  }

  /** A popped, non-winning entry whose key is already closed is discarded. */
  lemma SearchInvStale<S(!new), K, A(!new)>(
    succ: S -> seq<(S, A)>, isWin: S -> bool, key: S -> K,
    priority: (S, seq<A>) -> int, start: S, universe: set<K>,
    closed: set<K>, fringeKeys: set<K>, fringe: seq<Node<S, A>>, rep: map<K, S>,
    expanded: seq<K>, popped: seq<Node<S, A>>, i: nat)
    requires SearchInv(succ, isWin, key, priority, start, universe, closed, fringeKeys, fringe, rep, expanded, popped)
    requires i < |fringe| && IsMinimum(priority, fringe, i)
    requires !isWin(fringe[i].state)
    requires key(fringe[i].state) in closed
    ensures SearchInv(succ, isWin, key, priority, start, universe,
                      closed, fringeKeys - {key(fringe[i].state)}, RemoveAt(fringe, i), rep,
                      expanded, popped + [fringe[i]])
  {
    PopKeepsPending(succ, isWin, key, priority, start, universe, closed, fringeKeys, fringe, rep, expanded, popped, i);
    var rest := RemoveAt(fringe, i);
    assert closed + KeysOf(key, rest) == closed + KeysOf(key, fringe);
    PopInOrder(succ, priority, fringe, popped, i);
  }

  /** The order facts about popping a minimum entry. */
  lemma PopInOrder<S(!new), A(!new)>(
    succ: S -> seq<(S, A)>, priority: (S, seq<A>) -> int,
    fringe: seq<Node<S, A>>, popped: seq<Node<S, A>>, i: nat)
    requires i < |fringe| && IsMinimum(priority, fringe, i)
    requires Monotone(succ, priority) ==> PoppedInOrder(priority, popped)
    requires Monotone(succ, priority) && popped != [] ==>
               forall n :: 0 <= n < |fringe| ==>
                 priority(popped[|popped| - 1].state, popped[|popped| - 1].path) <=
                 priority(fringe[n].state, fringe[n].path)
    ensures Monotone(succ, priority) ==> PoppedInOrder(priority, popped + [fringe[i]])
    ensures forall n :: 0 <= n < |RemoveAt(fringe, i)| ==>
              priority(fringe[i].state, fringe[i].path) <=
              priority(RemoveAt(fringe, i)[n].state, RemoveAt(fringe, i)[n].path)
  {
    var rest := RemoveAt(fringe, i);
    forall n | 0 <= n < |rest|
      ensures priority(fringe[i].state, fringe[i].path) <= priority(rest[n].state, rest[n].path)
    {
      if n < i {
        assert rest[n] == fringe[n];
      } else {
        assert rest[n] == fringe[n + 1];
      }
    }
    if Monotone(succ, priority) {
      var p := popped + [fringe[i]];
      forall a, b | 0 <= a < b < |p|
        ensures priority(p[a].state, p[a].path) <= priority(p[b].state, p[b].path)
      {
        if b == |popped| {
          assert p[a] == popped[a];
          if a < |popped| - 1 {
            assert priority(popped[a].state, popped[a].path) <=
                   priority(popped[|popped| - 1].state, popped[|popped| - 1].path);
          }
        } else {
          assert p[a] == popped[a] && p[b] == popped[b];
        }
      }
    }
  }

  /**
   * A popped, non-winning entry whose key is not closed is expanded: its key
   * is closed and the successors that `PushSuccessors` pushed join the
   * frontier.
   */
  lemma SearchInvExpand<S(!new), K, A(!new)>(
    succ: S -> seq<(S, A)>, isWin: S -> bool, key: S -> K,
    priority: (S, seq<A>) -> int, start: S, universe: set<K>,
    closed: set<K>, fringeKeys: set<K>, fringe: seq<Node<S, A>>, rep: map<K, S>,
    expanded: seq<K>, popped: seq<Node<S, A>>, i: nat,
    fringe': seq<Node<S, A>>, fringeKeys': set<K>)
    requires ClosedUnder(succ, key, universe)
    requires SearchInv(succ, isWin, key, priority, start, universe, closed, fringeKeys, fringe, rep, expanded, popped)
    requires i < |fringe| && IsMinimum(priority, fringe, i)
    requires !isWin(fringe[i].state)
    requires key(fringe[i].state) !in closed
    requires |RemoveAt(fringe, i)| <= |fringe'| && fringe'[..|RemoveAt(fringe, i)|] == RemoveAt(fringe, i)
    requires forall n :: |RemoveAt(fringe, i)| <= n < |fringe'| ==>
               PushedFrom(fringe'[n], succ(fringe[i].state), |succ(fringe[i].state)|, fringe[i].path)
    requires fringeKeys' == (fringeKeys - {key(fringe[i].state)}) + SuccKeys(succ, key, fringe[i].state)
    requires fringeKeys' == KeysOf(key, fringe')
    requires DistinctKeys(key, fringe')
    ensures SearchInv(succ, isWin, key, priority, start, universe,
                      closed + {key(fringe[i].state)}, fringeKeys', fringe',
                      rep[key(fringe[i].state) := fringe[i].state],
                      expanded + [key(fringe[i].state)], popped + [fringe[i]])
  {
    var current := fringe[i];
    var mid := RemoveAt(fringe, i);
    forall n | 0 <= n < |mid| ensures fringe'[n] == mid[n] {
      assert fringe'[..|mid|][n] == mid[n];
    }
    ExpandFrontier(succ, isWin, key, start, universe, closed, fringeKeys, fringe, popped, i, fringe', fringeKeys');
    ExpandClosed(succ, isWin, key, start, closed, fringe, rep, expanded, i, fringeKeys, fringe', fringeKeys');
    ExpandOrder(succ, key, priority, start, universe, fringe, popped, i, fringe');
  }

  /** The frontier part of the invariant across an expansion. */
  lemma ExpandFrontier<S(!new), K, A(!new)>(
    succ: S -> seq<(S, A)>, isWin: S -> bool, key: S -> K, start: S, universe: set<K>,
    closed: set<K>, fringeKeys: set<K>, fringe: seq<Node<S, A>>, popped: seq<Node<S, A>>, i: nat,
    fringe': seq<Node<S, A>>, fringeKeys': set<K>)
    requires ClosedUnder(succ, key, universe)
    requires FrontierInv(succ, isWin, key, start, universe, closed, fringeKeys, fringe, popped)
    requires i < |fringe| && !isWin(fringe[i].state)
    requires |RemoveAt(fringe, i)| <= |fringe'|
    requires forall n :: 0 <= n < |RemoveAt(fringe, i)| ==> fringe'[n] == RemoveAt(fringe, i)[n]
    requires forall n :: |RemoveAt(fringe, i)| <= n < |fringe'| ==>
               PushedFrom(fringe'[n], succ(fringe[i].state), |succ(fringe[i].state)|, fringe[i].path)
    requires fringeKeys' == KeysOf(key, fringe')
    requires DistinctKeys(key, fringe')
    ensures FrontierInv(succ, isWin, key, start, universe,
                        closed + {key(fringe[i].state)}, fringeKeys', fringe', popped + [fringe[i]])
  {
    var current := fringe[i];
    var mid := RemoveAt(fringe, i);
    PushedEntries(succ, key, start, universe, current, fringe', |mid|);
    forall n | 0 <= n < |mid|
      ensures key(fringe'[n].state) in universe && Chain(succ, start, fringe'[n].path, fringe'[n].state)
    {
      var m := if n < i then n else n + 1;
      assert fringe'[n] == fringe[m];
    }
    PoppedReachable(succ, start, popped, current);
  }

  /** The closed-key part of the invariant across an expansion. */
  lemma ExpandClosed<S(!new), K, A(!new)>(
    succ: S -> seq<(S, A)>, isWin: S -> bool, key: S -> K, start: S,
    closed: set<K>, fringe: seq<Node<S, A>>, rep: map<K, S>, expanded: seq<K>, i: nat,
    fringeKeys: set<K>, fringe': seq<Node<S, A>>, fringeKeys': set<K>)
    requires ClosedInv(succ, isWin, key, start, closed, fringe, rep, expanded)
    requires DistinctKeys(key, fringe)
    requires i < |fringe| && !isWin(fringe[i].state)
    requires key(fringe[i].state) !in closed
    requires |RemoveAt(fringe, i)| <= |fringe'|
    requires forall n :: 0 <= n < |RemoveAt(fringe, i)| ==> fringe'[n] == RemoveAt(fringe, i)[n]
    requires fringeKeys' == (fringeKeys - {key(fringe[i].state)}) + SuccKeys(succ, key, fringe[i].state)
    requires fringeKeys' == KeysOf(key, fringe')
    ensures ClosedInv(succ, isWin, key, start, closed + {key(fringe[i].state)}, fringe',
                      rep[key(fringe[i].state) := fringe[i].state], expanded + [key(fringe[i].state)])
  {
    var current := fringe[i];
    var k := key(current.state);
    var mid := RemoveAt(fringe, i);
    KeysOfRemoveAt(key, fringe, i);
    forall c | c in KeysOf(key, mid) ensures c in KeysOf(key, fringe') {
      var n :| 0 <= n < |mid| && key(mid[n].state) == c;
      assert fringe'[n] == mid[n];
    }
    ClosedAfterExpand(succ, isWin, key, closed, rep, KeysOf(key, fringe), current, KeysOf(key, fringe'));
    ExpandedStaysDistinct(closed, expanded, k);
  }

  /** The order part of the invariant across an expansion. */
  lemma ExpandOrder<S(!new), K, A(!new)>(
    succ: S -> seq<(S, A)>, key: S -> K, priority: (S, seq<A>) -> int, start: S, universe: set<K>,
    fringe: seq<Node<S, A>>, popped: seq<Node<S, A>>, i: nat, fringe': seq<Node<S, A>>)
    requires OrderInv(succ, priority, fringe, popped)
    requires i < |fringe| && IsMinimum(priority, fringe, i)
    requires |RemoveAt(fringe, i)| <= |fringe'|
    requires forall n :: 0 <= n < |RemoveAt(fringe, i)| ==> fringe'[n] == RemoveAt(fringe, i)[n]
    requires forall n :: |RemoveAt(fringe, i)| <= n < |fringe'| ==>
               PushedFrom(fringe'[n], succ(fringe[i].state), |succ(fringe[i].state)|, fringe[i].path)
    ensures OrderInv(succ, priority, fringe', popped + [fringe[i]])
  {
    var current := fringe[i];
    var mid := RemoveAt(fringe, i);
    PopInOrder(succ, priority, fringe, popped, i);
    if Monotone(succ, priority) {
      forall n | |mid| <= n < |fringe'|
        ensures priority(current.state, current.path) <= priority(fringe'[n].state, fringe'[n].path)
      {
        assert PushedFrom(fringe'[n], succ(current.state), |succ(current.state)|, current.path);
        var j :| 0 <= j < |succ(current.state)| && fringe'[n].state == succ(current.state)[j].0 &&
                 fringe'[n].path == current.path + [succ(current.state)[j].1];
      }
      assert (popped + [current])[|popped|] == current;
    }
  }

  /** The entries pushed by an expansion stay in the universe and are reachable from the start. */
  lemma PushedEntries<S(!new), K, A(!new)>(
    succ: S -> seq<(S, A)>, key: S -> K, start: S, universe: set<K>,
    current: Node<S, A>, fringe': seq<Node<S, A>>, m: nat)
    requires ClosedUnder(succ, key, universe)
    requires key(current.state) in universe
    requires Chain(succ, start, current.path, current.state)
    requires forall n :: m <= n < |fringe'| ==>
               PushedFrom(fringe'[n], succ(current.state), |succ(current.state)|, current.path)
    ensures forall n :: m <= n < |fringe'| ==>
              key(fringe'[n].state) in universe && Chain(succ, start, fringe'[n].path, fringe'[n].state)
  {
    var successors := succ(current.state);
    forall n | m <= n < |fringe'|
      ensures key(fringe'[n].state) in universe
      ensures Chain(succ, start, fringe'[n].path, fringe'[n].state)
    {
      assert PushedFrom(fringe'[n], successors, |successors|, current.path);
      var j :| 0 <= j < |successors| && fringe'[n].state == successors[j].0 &&
               fringe'[n].path == current.path + [successors[j].1];
      ChainSnoc(succ, start, current.path, current.state, j);
    }
  }

  /** Closing the popped key keeps the closed-key bookkeeping, with the successors now pending. */
  lemma ClosedAfterExpand<S(!new), K, A(!new)>(
    succ: S -> seq<(S, A)>, isWin: S -> bool, key: S -> K,
    closed: set<K>, rep: map<K, S>, pending: set<K>, current: Node<S, A>, pending': set<K>)
    requires ClosedExpanded(succ, isWin, key, closed, rep, pending)
    requires !isWin(current.state)
    requires key(current.state) !in closed
    requires pending <= pending' + {key(current.state)}
    requires SuccKeys(succ, key, current.state) <= pending'
    ensures ClosedExpanded(succ, isWin, key, closed + {key(current.state)},
                           rep[key(current.state) := current.state], pending')
  {
    var k := key(current.state);
    var closed' := closed + {k};
    var rep' := rep[k := current.state];
    forall c | c in closed'
      ensures c in rep' && key(rep'[c]) == c && !isWin(rep'[c]) &&
              SuccKeys(succ, key, rep'[c]) <= closed' + pending'
    {
      if c != k {
        assert SuccKeys(succ, key, rep[c]) <= closed + pending;
      }
    }
  }

  /** Appending a key that is not closed keeps the log of expanded keys free of repeats. */
  lemma ExpandedStaysDistinct<K>(closed: set<K>, expanded: seq<K>, k: K)
    requires k !in closed
    requires forall n :: 0 <= n < |expanded| ==> expanded[n] in closed
    requires forall a, b :: 0 <= a < b < |expanded| ==> expanded[a] != expanded[b]
    ensures forall a, b :: 0 <= a < b < |expanded + [k]| ==> (expanded + [k])[a] != (expanded + [k])[b]
  {
    var expanded' := expanded + [k];
    forall a, b | 0 <= a < b < |expanded'| ensures expanded'[a] != expanded'[b] {
      if b == |expanded| {
        assert expanded'[a] == expanded[a];
      } else {
        assert expanded'[a] == expanded[a] && expanded'[b] == expanded[b];
      }
    }
  }

  /** Closing a new key of the universe leaves fewer keys to expand. */
  lemma FewerUnexpanded<K>(universe: set<K>, closed: set<K>, k: K)
    requires k in universe && k !in closed
    ensures |universe - (closed + {k})| < |universe - closed|
  {
    assert universe - (closed + {k}) == (universe - closed) - {k};
  }

  /** An exhausted frontier after the first pop: the start key is closed. */
  lemma SearchInvExhausted<S(!new), K, A(!new)>(
    succ: S -> seq<(S, A)>, isWin: S -> bool, key: S -> K,
    priority: (S, seq<A>) -> int, start: S, universe: set<K>,
    closed: set<K>, fringeKeys: set<K>, rep: map<K, S>,
    expanded: seq<K>, popped: seq<Node<S, A>>)
    requires SearchInv(succ, isWin, key, priority, start, universe, closed, fringeKeys, [], rep, expanded, popped)
    ensures !isWin(start)
    ensures KeyDetermines(succ, isWin, key) ==> NoWinReachable(succ, isWin, start)
  {
    var empty: seq<Node<S, A>> := [];
    assert KeysOf(key, empty) == {};
    if KeyDetermines(succ, isWin, key) {
      ExhaustedMeansUnsolvable(succ, isWin, key, closed, rep, start);
    }
  }

  // ---------------------------------------------------------------------
  // Shortest paths under a path-length priority
  // ---------------------------------------------------------------------

  /** Each entry's priority is its path length plus one, as in breadth-first search. */
  ghost predicate PathLengthPriority<S(!new), A(!new)>(priority: (S, seq<A>) -> int)
  {
    forall s, path :: priority(s, path) == 1 + |path|
  }

  /** The path length of the last popped entry, 0 before the first pop. */
  ghost function LastLength<S, A>(popped: seq<Node<S, A>>): nat
  {
    if popped == [] then 0 else |popped[|popped| - 1].path|
  }

  /** Key `k` is closed at depth at most `d`, or pending with a path of at most `d` moves. */
  ghost predicate Covered<S(!new), K, A(!new)>(key: S -> K, closed: set<K>, depth: map<K, nat>,
                                               fringe: seq<Node<S, A>>, k: K, d: int)
  {
    (k in closed && k in depth && depth[k] <= d) ||
    exists n :: 0 <= n < |fringe| && key(fringe[n].state) == k && |fringe[n].path| <= d
  }

  /**
   * The breadth-first invariant. `depth[k]` is the path length with which
   * closed key `k` was expanded and `level` the path length of the last
   * pop: closed keys lie at most at `level`, pending entries at `level` or
   * one more; the start key, and every successor key of a closed key at one
   * more than its depth, is covered.
   */
  ghost predicate ShortestInv<S(!new), K, A(!new)>(
    succ: S -> seq<(S, A)>, key: S -> K, start: S,
    closed: set<K>, fringe: seq<Node<S, A>>, rep: map<K, S>, depth: map<K, nat>, level: nat)
  {
    && (forall k :: k in closed ==> k in rep && k in depth && depth[k] <= level)
    && (forall n :: 0 <= n < |fringe| ==> level <= |fringe[n].path| <= level + 1)
    && Covered(key, closed, depth, fringe, key(start), 0)
    && (forall k, j :: k in closed && j in SuccKeys(succ, key, rep[k]) ==>
          Covered(key, closed, depth, fringe, j, depth[k] + 1))
  }

  lemma ShortestInit<S(!new), K, A(!new)>(succ: S -> seq<(S, A)>, key: S -> K, start: S)
    ensures ShortestInv(succ, key, start, {}, [Node(start, [])], map[], map[], 0)
  {
    var fringe: seq<Node<S, A>> := [Node(start, [])];
    assert key(fringe[0].state) == key(start) && |fringe[0].path| <= 0;
  }

  /**
   * Popping entry `i` keeps a key covered, provided the popped key ends up
   * closed at a depth no greater than the popped path's length.
   */
  lemma CoveredAfterPop<S(!new), K, A(!new)>(
    key: S -> K, closed: set<K>, depth: map<K, nat>, fringe: seq<Node<S, A>>, i: nat,
    closed': set<K>, depth': map<K, nat>, fringe': seq<Node<S, A>>, k: K, d: int)
    requires Covered(key, closed, depth, fringe, k, d)
    requires i < |fringe|
    requires closed <= closed'
    requires forall c :: c in closed && c in depth ==> c in depth' && depth'[c] == depth[c]
    requires key(fringe[i].state) in closed' && key(fringe[i].state) in depth' &&
             depth'[key(fringe[i].state)] <= |fringe[i].path|
    requires |fringe| - 1 <= |fringe'| && fringe'[..|fringe| - 1] == RemoveAt(fringe, i)
    ensures Covered(key, closed', depth', fringe', k, d)
  {
    if !(k in closed && k in depth && depth[k] <= d) {
      var n :| 0 <= n < |fringe| && key(fringe[n].state) == k && |fringe[n].path| <= d;
      var rest := RemoveAt(fringe, i);
      if n < i {
        assert fringe'[n] == fringe'[..|fringe| - 1][n] == rest[n];
      } else if n > i {
        assert fringe'[n - 1] == fringe'[..|fringe| - 1][n - 1] == rest[n - 1];
      }
    }
  }

  /** A popped entry whose key is already closed is discarded. */
  lemma ShortestStale<S(!new), K, A(!new)>(
    succ: S -> seq<(S, A)>, key: S -> K, priority: (S, seq<A>) -> int, start: S,
    closed: set<K>, fringe: seq<Node<S, A>>, rep: map<K, S>, depth: map<K, nat>,
    popped: seq<Node<S, A>>, i: nat)
    requires PathLengthPriority(priority) ==> ShortestInv(succ, key, start, closed, fringe, rep, depth, LastLength(popped))
    requires i < |fringe| && IsMinimum(priority, fringe, i)
    requires key(fringe[i].state) in closed
    ensures PathLengthPriority(priority) ==>
              ShortestInv(succ, key, start, closed, RemoveAt(fringe, i), rep, depth, LastLength(popped + [fringe[i]]))
  {
    if PathLengthPriority(priority) {
      ShortestStaleStep(succ, key, priority, start, closed, fringe, rep, depth, LastLength(popped), i);
      assert (popped + [fringe[i]])[|popped|] == fringe[i];
    }
  }

  lemma ShortestStaleStep<S(!new), K, A(!new)>(
    succ: S -> seq<(S, A)>, key: S -> K, priority: (S, seq<A>) -> int, start: S,
    closed: set<K>, fringe: seq<Node<S, A>>, rep: map<K, S>, depth: map<K, nat>, level: nat, i: nat)
    requires PathLengthPriority(priority)
    requires ShortestInv(succ, key, start, closed, fringe, rep, depth, level)
    requires i < |fringe| && IsMinimum(priority, fringe, i)
    requires key(fringe[i].state) in closed
    ensures ShortestInv(succ, key, start, closed, RemoveAt(fringe, i), rep, depth, |fringe[i].path|)
  {
    var rest := RemoveAt(fringe, i);
    var p := |fringe[i].path|;
    forall n | 0 <= n < |rest| ensures p <= |rest[n].path| <= p + 1 {
      var m := if n < i then n else n + 1;
      assert rest[n] == fringe[m];
      assert priority(fringe[i].state, fringe[i].path) <= priority(fringe[m].state, fringe[m].path);
    }
    assert rest[..|fringe| - 1] == rest;
    CoveredAfterPop(key, closed, depth, fringe, i, closed, depth, rest, key(start), 0);
    forall k, j | k in closed && j in SuccKeys(succ, key, rep[k])
      ensures Covered(key, closed, depth, rest, j, depth[k] + 1)
    {
      CoveredAfterPop(key, closed, depth, fringe, i, closed, depth, rest, j, depth[k] + 1);
    }
  }

  /** A popped entry whose key is not closed is expanded at its path length. */
  lemma ShortestExpand<S(!new), K, A(!new)>(
    succ: S -> seq<(S, A)>, key: S -> K, priority: (S, seq<A>) -> int, start: S,
    closed: set<K>, fringe: seq<Node<S, A>>, rep: map<K, S>, depth: map<K, nat>,
    popped: seq<Node<S, A>>, i: nat, fringeKeys: set<K>, fringe': seq<Node<S, A>>, fringeKeys': set<K>)
    requires PathLengthPriority(priority) ==> ShortestInv(succ, key, start, closed, fringe, rep, depth, LastLength(popped))
    requires i < |fringe| && IsMinimum(priority, fringe, i)
    requires key(fringe[i].state) !in closed
    requires |RemoveAt(fringe, i)| <= |fringe'| && fringe'[..|RemoveAt(fringe, i)|] == RemoveAt(fringe, i)
    requires forall n :: |RemoveAt(fringe, i)| <= n < |fringe'| ==>
               PushedFrom(fringe'[n], succ(fringe[i].state), |succ(fringe[i].state)|, fringe[i].path)
    requires fringeKeys' == (fringeKeys - {key(fringe[i].state)}) + SuccKeys(succ, key, fringe[i].state)
    requires fringeKeys' == KeysOf(key, fringe')
    ensures PathLengthPriority(priority) ==>
              ShortestInv(succ, key, start, closed + {key(fringe[i].state)}, fringe',
                          rep[key(fringe[i].state) := fringe[i].state],
                          depth[key(fringe[i].state) := |fringe[i].path|], LastLength(popped + [fringe[i]]))
  {
    if PathLengthPriority(priority) {
      ShortestExpandStep(succ, key, priority, start, closed, fringe, rep, depth, LastLength(popped), i, fringe');
      assert (popped + [fringe[i]])[|popped|] == fringe[i];
    }
  }

  lemma ShortestExpandStep<S(!new), K, A(!new)>(
    succ: S -> seq<(S, A)>, key: S -> K, priority: (S, seq<A>) -> int, start: S,
    closed: set<K>, fringe: seq<Node<S, A>>, rep: map<K, S>, depth: map<K, nat>, level: nat, i: nat,
    fringe': seq<Node<S, A>>)
    requires PathLengthPriority(priority)
    requires ShortestInv(succ, key, start, closed, fringe, rep, depth, level)
    requires i < |fringe| && IsMinimum(priority, fringe, i)
    requires key(fringe[i].state) !in closed
    requires |RemoveAt(fringe, i)| <= |fringe'| && fringe'[..|RemoveAt(fringe, i)|] == RemoveAt(fringe, i)
    requires forall n :: |RemoveAt(fringe, i)| <= n < |fringe'| ==>
               PushedFrom(fringe'[n], succ(fringe[i].state), |succ(fringe[i].state)|, fringe[i].path)
    requires SuccKeys(succ, key, fringe[i].state) <= KeysOf(key, fringe')
    ensures ShortestInv(succ, key, start, closed + {key(fringe[i].state)}, fringe',
                        rep[key(fringe[i].state) := fringe[i].state],
                        depth[key(fringe[i].state) := |fringe[i].path|], |fringe[i].path|)
  {
    var current := fringe[i];
    var ck := key(current.state);
    var p := |current.path|;
    var rest := RemoveAt(fringe, i);
    var closed' := closed + {ck};
    var rep' := rep[ck := current.state];
    var depth' := depth[ck := p];
    ExpandSpan(succ, priority, fringe, level, i, fringe');
    CoveredAfterPop(key, closed, depth, fringe, i, closed', depth', fringe', key(start), 0);
    forall k, j | k in closed' && j in SuccKeys(succ, key, rep'[k])
      ensures Covered(key, closed', depth', fringe', j, depth'[k] + 1)
    {
      if k == ck {
        assert j in KeysOf(key, fringe');
        var n :| 0 <= n < |fringe'| && key(fringe'[n].state) == j;
        assert |fringe'[n].path| <= p + 1;
      } else {
        CoveredAfterPop(key, closed, depth, fringe, i, closed', depth', fringe', j, depth[k] + 1);
      }
    }
  }

  /** After an expansion at path length `p`, every frontier entry is `p` or `p + 1` moves long. */
  lemma ExpandSpan<S(!new), A(!new)>(
    succ: S -> seq<(S, A)>, priority: (S, seq<A>) -> int,
    fringe: seq<Node<S, A>>, level: nat, i: nat, fringe': seq<Node<S, A>>)
    requires PathLengthPriority(priority)
    requires forall n :: 0 <= n < |fringe| ==> level <= |fringe[n].path| <= level + 1
    requires i < |fringe| && IsMinimum(priority, fringe, i)
    requires |RemoveAt(fringe, i)| <= |fringe'| && fringe'[..|RemoveAt(fringe, i)|] == RemoveAt(fringe, i)
    requires forall n :: |RemoveAt(fringe, i)| <= n < |fringe'| ==>
               PushedFrom(fringe'[n], succ(fringe[i].state), |succ(fringe[i].state)|, fringe[i].path)
    ensures forall n :: 0 <= n < |fringe'| ==> |fringe[i].path| <= |fringe'[n].path| <= |fringe[i].path| + 1
  {
    var current := fringe[i];
    var rest := RemoveAt(fringe, i);
    forall n | 0 <= n < |fringe'| ensures |current.path| <= |fringe'[n].path| <= |current.path| + 1 {
      if n < |rest| {
        var m := if n < i then n else n + 1;
        assert fringe'[n] == fringe'[..|rest|][n] == rest[n] == fringe[m];
        assert priority(fringe[i].state, fringe[i].path) <= priority(fringe[m].state, fringe[m].path);
      } else {
        assert PushedFrom(fringe'[n], succ(current.state), |succ(current.state)|, current.path);
      }
    }
  }

  /**
   * Following a chain from a covered key stays covered: the chain's end is
   * closed at most `d + |path|` deep, or some pending entry is at most that long.
   */
  lemma {:induction false} ChainCovered<S(!new), K, A(!new)>(
    succ: S -> seq<(S, A)>, isWin: S -> bool, key: S -> K,
    closed: set<K>, fringe: seq<Node<S, A>>, rep: map<K, S>, depth: map<K, nat>,
    s: S, path: seq<A>, t: S, d: int)
    requires KeyDetermines(succ, isWin, key)
    requires forall k :: k in closed ==> k in rep && k in depth && key(rep[k]) == k
    requires forall k, j :: k in closed && j in SuccKeys(succ, key, rep[k]) ==>
               Covered(key, closed, depth, fringe, j, depth[k] + 1)
    requires Covered(key, closed, depth, fringe, key(s), d)
    requires Chain(succ, s, path, t)
    ensures (key(t) in closed && depth[key(t)] <= d + |path|) ||
            exists n :: 0 <= n < |fringe| && |fringe[n].path| <= d + |path|
    decreases |path|
  {
    if exists n :: 0 <= n < |fringe| && key(fringe[n].state) == key(s) && |fringe[n].path| <= d {
      var n :| 0 <= n < |fringe| && key(fringe[n].state) == key(s) && |fringe[n].path| <= d;
      assert |fringe[n].path| <= d + |path|;
    } else if path != [] {
      var i :| 0 <= i < |succ(s)| && succ(s)[i].1 == path[0] && Chain(succ, succ(s)[i].0, path[1..], t);
      var s1 := succ(s)[i].0;
      assert key(s1) in SuccKeys(succ, key, s);
      assert SuccKeys(succ, key, s) == SuccKeys(succ, key, rep[key(s)]);
      assert Covered(key, closed, depth, fringe, key(s1), d + 1);
      ChainCovered(succ, isWin, key, closed, fringe, rep, depth, s1, path[1..], t, d + 1);
    }
  }

  /**
   * Under a path-length priority, a popped minimum entry is no longer than
   * any chain from the start to a winning state.
   */
  lemma ShortestAtWin<S(!new), K, A(!new)>(
    succ: S -> seq<(S, A)>, isWin: S -> bool, key: S -> K, priority: (S, seq<A>) -> int, start: S,
    closed: set<K>, fringe: seq<Node<S, A>>, rep: map<K, S>, depth: map<K, nat>, level: nat, i: nat)
    requires PathLengthPriority(priority) ==> ShortestInv(succ, key, start, closed, fringe, rep, depth, level)
    requires forall k :: k in closed ==> k in rep && key(rep[k]) == k && !isWin(rep[k])
    requires i < |fringe| && IsMinimum(priority, fringe, i)
    ensures PathLengthPriority(priority) && KeyDetermines(succ, isWin, key) ==>
              forall q, t :: Chain(succ, start, q, t) && isWin(t) ==> |fringe[i].path| <= |q|
  {
    if PathLengthPriority(priority) && KeyDetermines(succ, isWin, key) {
      forall q, t | Chain(succ, start, q, t) && isWin(t) ensures |fringe[i].path| <= |q| {
        ChainCovered(succ, isWin, key, closed, fringe, rep, depth, start, q, t, 0);
        var n :| 0 <= n < |fringe| && |fringe[n].path| <= |q|;
        assert priority(fringe[i].state, fringe[i].path) <= priority(fringe[n].state, fringe[n].path);
      }
    }
  }

  // ---------------------------------------------------------------------
  // The logs of popped entries and expanded keys
  // ---------------------------------------------------------------------

  /**
   * The logs follow the run: the start entry is the first pop, every popped
   * entry so far was non-winning and had its key expanded, and each expanded
   * key is the key of some popped entry.
   */
  ghost predicate LogInv<S(!new), K, A(!new)>(
    isWin: S -> bool, key: S -> K, start: S,
    fringe: seq<Node<S, A>>, expanded: seq<K>, popped: seq<Node<S, A>>)
  {
    && (popped == [] ==> fringe == [Node(start, [])])
    && (popped != [] ==> popped[0] == Node(start, []))
    && (forall n :: 0 <= n < |popped| ==> !isWin(popped[n].state) && key(popped[n].state) in expanded)
    && (forall n :: 0 <= n < |expanded| ==>
          exists m :: 0 <= m < |popped| && key(popped[m].state) == expanded[n])
  }

  /** The elements of a log. */
  ghost function Elements<T>(s: seq<T>): set<T>
  {
    set x | x in s
  }

  /** The keys of the popped entries that do not win. */
  ghost function WinlessKeys<S(!new), K, A(!new)>(isWin: S -> bool, key: S -> K, popped: seq<Node<S, A>>): set<K>
  {
    set m | 0 <= m < |popped| && !isWin(popped[m].state) :: key(popped[m].state)
  }

  /** Popping the non-winning entry `i`, and expanding its key unless it was expanded before. */
  lemma LogStep<S(!new), K, A(!new)>(
    isWin: S -> bool, key: S -> K, start: S,
    fringe: seq<Node<S, A>>, expanded: seq<K>, popped: seq<Node<S, A>>, i: nat,
    fringe': seq<Node<S, A>>, expanded': seq<K>)
    requires LogInv(isWin, key, start, fringe, expanded, popped)
    requires i < |fringe| && !isWin(fringe[i].state)
    requires expanded' == expanded || expanded' == expanded + [key(fringe[i].state)]
    requires key(fringe[i].state) in expanded'
    ensures LogInv(isWin, key, start, fringe', expanded', popped + [fringe[i]])
  {
    var popped' := popped + [fringe[i]];
    if popped == [] {
      assert fringe[i] == Node(start, []);
    }
    forall n | 0 <= n < |expanded'|
      ensures exists m :: 0 <= m < |popped'| && key(popped'[m].state) == expanded'[n]
    {
      if n < |expanded| {
        assert expanded'[n] == expanded[n];
        var m :| 0 <= m < |popped| && key(popped[m].state) == expanded[n];
        assert popped'[m] == popped[m];
      } else {
        assert key(popped'[|popped|].state) == expanded'[n];
      }
    }
  }

  /**
   * What the logs say once the search returns: the start entry was popped
   * first, only the last pop can be winning, the result is the last pop's
   * path when it wins and empty otherwise, and the expanded keys are
   * exactly the keys of the non-winning pops.
   */
  ghost predicate LogOutcome<S(!new), K, A(!new)>(
    isWin: S -> bool, key: S -> K, start: S,
    path: seq<A>, expanded: seq<K>, popped: seq<Node<S, A>>)
  {
    && popped != [] && popped[0] == Node(start, [])
    && (forall n :: 0 <= n < |popped| - 1 ==> !isWin(popped[n].state))
    && path == (if isWin(popped[|popped| - 1].state) then popped[|popped| - 1].path else [])
    && Elements(expanded) == WinlessKeys(isWin, key, popped)
  }

  /** Popping a winning entry ends the logs. */
  lemma LogWin<S(!new), K, A(!new)>(
    isWin: S -> bool, key: S -> K, start: S,
    fringe: seq<Node<S, A>>, expanded: seq<K>, popped: seq<Node<S, A>>, i: nat)
    requires LogInv(isWin, key, start, fringe, expanded, popped)
    requires i < |fringe| && isWin(fringe[i].state)
    ensures LogOutcome(isWin, key, start, fringe[i].path, expanded, popped + [fringe[i]])
  {
    var popped' := popped + [fringe[i]];
    if popped == [] {
      assert fringe[i] == Node(start, []);
    }
    forall n | 0 <= n < |expanded|
      ensures expanded[n] in WinlessKeys(isWin, key, popped')
    {
      var m :| 0 <= m < |popped| && key(popped[m].state) == expanded[n];
      assert popped'[m] == popped[m] && !isWin(popped[m].state);
    }
    forall n | 0 <= n < |popped'| && !isWin(popped'[n].state)
      ensures key(popped'[n].state) in expanded
    {
      assert popped'[n] == popped[n];
    }
    ElementsAreWinless(isWin, key, expanded, popped');
  }

  /** An exhausted frontier ends the logs with a non-winning last pop. */
  lemma LogExhausted<S(!new), K, A(!new)>(
    isWin: S -> bool, key: S -> K, start: S, expanded: seq<K>, popped: seq<Node<S, A>>)
    requires LogInv(isWin, key, start, [], expanded, popped)
    ensures LogOutcome(isWin, key, start, [], expanded, popped)
  {
    forall n | 0 <= n < |expanded|
      ensures expanded[n] in WinlessKeys(isWin, key, popped)
    {
      var m :| 0 <= m < |popped| && key(popped[m].state) == expanded[n];
    }
    ElementsAreWinless(isWin, key, expanded, popped);
  }

  /** Two inclusions between the expanded keys and the non-winning pops' keys give equality. */
  lemma ElementsAreWinless<S(!new), K, A(!new)>(
    isWin: S -> bool, key: S -> K, expanded: seq<K>, popped: seq<Node<S, A>>)
    requires forall n :: 0 <= n < |popped| && !isWin(popped[n].state) ==> key(popped[n].state) in expanded
    requires forall n :: 0 <= n < |expanded| ==> expanded[n] in WinlessKeys(isWin, key, popped)
    ensures Elements(expanded) == WinlessKeys(isWin, key, popped)
  {
    forall k | k in WinlessKeys(isWin, key, popped) ensures k in Elements(expanded) {
      var m :| 0 <= m < |popped| && !isWin(popped[m].state) && key(popped[m].state) == k;
    }
  }

  // ---------------------------------------------------------------------
  // The loop invariant as a whole
  // ---------------------------------------------------------------------

  /** The invariants of the search loop: bookkeeping, breadth-first spans and logs. */
  ghost predicate LoopInv<S(!new), K, A(!new)>(
    succ: S -> seq<(S, A)>, isWin: S -> bool, key: S -> K,
    priority: (S, seq<A>) -> int, start: S, universe: set<K>,
    closed: set<K>, fringeKeys: set<K>, fringe: seq<Node<S, A>>, rep: map<K, S>, depth: map<K, nat>,
    expanded: seq<K>, popped: seq<Node<S, A>>)
  {
    && SearchInv(succ, isWin, key, priority, start, universe, closed, fringeKeys, fringe, rep, expanded, popped)
    && (PathLengthPriority(priority) ==>
          ShortestInv(succ, key, start, closed, fringe, rep, depth, LastLength(popped)))
    && LogInv(isWin, key, start, fringe, expanded, popped)
  }

  /** Appending a reachable entry to a log of reachable entries keeps every entry reachable. */
  lemma PoppedReachable<S(!new), A(!new)>(succ: S -> seq<(S, A)>, start: S, popped: seq<Node<S, A>>, x: Node<S, A>)
    requires forall n :: 0 <= n < |popped| ==> Chain(succ, start, popped[n].path, popped[n].state)
    requires Chain(succ, start, x.path, x.state)
    ensures forall n :: 0 <= n < |popped + [x]| ==>
              Chain(succ, start, (popped + [x])[n].path, (popped + [x])[n].state)
  {
    forall n | 0 <= n < |popped + [x]|
      ensures Chain(succ, start, (popped + [x])[n].path, (popped + [x])[n].state)
    {
      if n < |popped| {
        assert (popped + [x])[n] == popped[n];
      }
    }
  }

  /** The discard of a stale entry keeps the loop invariant. */
  lemma StaleStep<S(!new), K, A(!new)>(
    succ: S -> seq<(S, A)>, isWin: S -> bool, key: S -> K,
    priority: (S, seq<A>) -> int, start: S, universe: set<K>,
    closed: set<K>, fringeKeys: set<K>, fringe: seq<Node<S, A>>, rep: map<K, S>, depth: map<K, nat>,
    expanded: seq<K>, popped: seq<Node<S, A>>, i: nat)
    requires LoopInv(succ, isWin, key, priority, start, universe, closed, fringeKeys, fringe, rep, depth, expanded, popped)
    requires i < |fringe| && IsMinimum(priority, fringe, i)
    requires !isWin(fringe[i].state)
    requires key(fringe[i].state) in closed
    ensures LoopInv(succ, isWin, key, priority, start, universe,
                    closed, fringeKeys - {key(fringe[i].state)}, RemoveAt(fringe, i), rep, depth,
                    expanded, popped + [fringe[i]])
  {
    SearchInvStale(succ, isWin, key, priority, start, universe, closed, fringeKeys, fringe, rep, expanded, popped, i);
    ShortestStale(succ, key, priority, start, closed, fringe, rep, depth, popped, i);
    LogStep(isWin, key, start, fringe, expanded, popped, i, RemoveAt(fringe, i), expanded);
  }

  /** The expansion of a popped entry keeps the loop invariant and closes a new key. */
  lemma ExpandStep<S(!new), K, A(!new)>(
    succ: S -> seq<(S, A)>, isWin: S -> bool, key: S -> K,
    priority: (S, seq<A>) -> int, start: S, universe: set<K>,
    closed: set<K>, fringeKeys: set<K>, fringe: seq<Node<S, A>>, rep: map<K, S>, depth: map<K, nat>,
    expanded: seq<K>, popped: seq<Node<S, A>>, i: nat,
    fringe': seq<Node<S, A>>, fringeKeys': set<K>)
    requires ClosedUnder(succ, key, universe)
    requires LoopInv(succ, isWin, key, priority, start, universe, closed, fringeKeys, fringe, rep, depth, expanded, popped)
    requires i < |fringe| && IsMinimum(priority, fringe, i)
    requires !isWin(fringe[i].state)
    requires key(fringe[i].state) !in closed
    requires |RemoveAt(fringe, i)| <= |fringe'| && fringe'[..|RemoveAt(fringe, i)|] == RemoveAt(fringe, i)
    requires forall n :: |RemoveAt(fringe, i)| <= n < |fringe'| ==>
               PushedFrom(fringe'[n], succ(fringe[i].state), |succ(fringe[i].state)|, fringe[i].path)
    requires fringeKeys' == (fringeKeys - {key(fringe[i].state)}) + SuccKeys(succ, key, fringe[i].state)
    requires fringeKeys' == KeysOf(key, fringe')
    requires DistinctKeys(key, fringe')
    ensures LoopInv(succ, isWin, key, priority, start, universe,
                    closed + {key(fringe[i].state)}, fringeKeys', fringe',
                    rep[key(fringe[i].state) := fringe[i].state],
                    depth[key(fringe[i].state) := |fringe[i].path|],
                    expanded + [key(fringe[i].state)], popped + [fringe[i]])
    ensures |universe - (closed + {key(fringe[i].state)})| < |universe - closed|
  {
    PopKeepsPending(succ, isWin, key, priority, start, universe, closed, fringeKeys, fringe, rep, expanded, popped, i);
    SearchInvExpand(succ, isWin, key, priority, start, universe,
                    closed, fringeKeys, fringe, rep, expanded, popped, i, fringe', fringeKeys');
    ShortestExpand(succ, key, priority, start, closed, fringe, rep, depth, popped, i,
                   fringeKeys, fringe', fringeKeys');
    FewerUnexpanded(universe, closed, key(fringe[i].state));
    LogStep(isWin, key, start, fringe, expanded, popped, i, fringe', expanded + [key(fringe[i].state)]);
  }

  /** What `BestFirstSearch` promises about its results. */
  ghost predicate Outcome<S(!new), K, A(!new)>(
    succ: S -> seq<(S, A)>, isWin: S -> bool, key: S -> K,
    priority: (S, seq<A>) -> int, start: S, universe: set<K>,
    path: seq<A>, expanded: seq<K>, popped: seq<Node<S, A>>)
  {
    && (isWin(start) ==> path == [])
    && (path != [] ==> exists t :: Chain(succ, start, path, t) && isWin(t))
    && (path == [] && !isWin(start) && KeyDetermines(succ, isWin, key) ==> NoWinReachable(succ, isWin, start))
    && (NoWinReachable(succ, isWin, start) ==> path == [])
    && (forall a, b :: 0 <= a < b < |expanded| ==> expanded[a] != expanded[b])
    && (forall n :: 0 <= n < |expanded| ==> expanded[n] in universe)
    && (forall n :: 0 <= n < |popped| ==> Chain(succ, start, popped[n].path, popped[n].state))
    && (Monotone(succ, priority) ==> PoppedInOrder(priority, popped))
    && (PathLengthPriority(priority) && KeyDetermines(succ, isWin, key) ==>
          forall q, t :: Chain(succ, start, q, t) && isWin(t) ==> |path| <= |q|)
  }

  /** Popping a winning entry ends the search with its path. */
  lemma WinStep<S(!new), K, A(!new)>(
    succ: S -> seq<(S, A)>, isWin: S -> bool, key: S -> K,
    priority: (S, seq<A>) -> int, start: S, universe: set<K>,
    closed: set<K>, fringeKeys: set<K>, fringe: seq<Node<S, A>>, rep: map<K, S>, depth: map<K, nat>,
    expanded: seq<K>, popped: seq<Node<S, A>>, i: nat)
    requires LoopInv(succ, isWin, key, priority, start, universe, closed, fringeKeys, fringe, rep, depth, expanded, popped)
    requires i < |fringe| && IsMinimum(priority, fringe, i)
    requires isWin(fringe[i].state)
    ensures Outcome(succ, isWin, key, priority, start, universe, fringe[i].path, expanded, popped + [fringe[i]])
  {
    PopInOrder(succ, priority, fringe, popped, i);
    ShortestAtWin(succ, isWin, key, priority, start, closed, fringe, rep, depth, LastLength(popped), i);
    PoppedReachable(succ, start, popped, fringe[i]);
  }

  /** An exhausted frontier ends the search with the empty path. */
  lemma ExhaustedStep<S(!new), K, A(!new)>(
    succ: S -> seq<(S, A)>, isWin: S -> bool, key: S -> K,
    priority: (S, seq<A>) -> int, start: S, universe: set<K>,
    closed: set<K>, fringeKeys: set<K>, rep: map<K, S>, depth: map<K, nat>,
    expanded: seq<K>, popped: seq<Node<S, A>>)
    requires LoopInv(succ, isWin, key, priority, start, universe, closed, fringeKeys, [], rep, depth, expanded, popped)
    ensures Outcome(succ, isWin, key, priority, start, universe, [], expanded, popped)
  {
    SearchInvExhausted(succ, isWin, key, priority, start, universe, closed, fringeKeys, rep, expanded, popped);
  }

  /**
   * The expansion of a popped entry whose key is not closed: remove it from
   * the frontier and its key from the pending keys, then push its successors.
   */
  method ExpandEntry<S(!new), K(==), A(!new)>(
    succ: S -> seq<(S, A)>, isWin: S -> bool, key: S -> K,
    priority: (S, seq<A>) -> int, start: S, ghost universe: set<K>,
    closed: set<K>, fringeKeys: set<K>, fringe: seq<Node<S, A>>,
    ghost rep: map<K, S>, ghost depth: map<K, nat>, ghost expanded: seq<K>, ghost popped: seq<Node<S, A>>, i: nat)
    returns (fringe': seq<Node<S, A>>, fringeKeys': set<K>)
    requires ClosedUnder(succ, key, universe)
    requires LoopInv(succ, isWin, key, priority, start, universe, closed, fringeKeys, fringe, rep, depth, expanded, popped)
    requires i < |fringe| && IsMinimum(priority, fringe, i)
    requires !isWin(fringe[i].state)
    requires key(fringe[i].state) !in closed
    ensures LoopInv(succ, isWin, key, priority, start, universe,
                    closed + {key(fringe[i].state)}, fringeKeys', fringe',
                    rep[key(fringe[i].state) := fringe[i].state],
                    depth[key(fringe[i].state) := |fringe[i].path|],
                    expanded + [key(fringe[i].state)], popped + [fringe[i]])
    ensures |universe - (closed + {key(fringe[i].state)})| < |universe - closed|
  {
    var current := fringe[i];
    var currentKey := key(current.state);
    PopKeepsPending(succ, isWin, key, priority, start, universe,
                    closed, fringeKeys, fringe, rep, expanded, popped, i);
    var rest := RemoveAt(fringe, i);
    var restKeys := fringeKeys - {currentKey};
    fringe', fringeKeys' := PushSuccessors(key, succ(current.state), current.path, rest, restKeys);
    ExpandStep(succ, isWin, key, priority, start, universe,
               closed, fringeKeys, fringe, rep, depth, expanded, popped, i, fringe', fringeKeys');
  }

  /**
   * The loop of `BestFirstSearch`, with its results stated as the two
   * predicates `Outcome` and `LogOutcome`.
   */
  method SearchLoop<S(!new), K(==), A(!new)>(
    succ: S -> seq<(S, A)>, isWin: S -> bool, key: S -> K,
    priority: (S, seq<A>) -> int, start: S, ghost universe: set<K>)
    returns (path: seq<A>, ghost expanded: seq<K>, ghost popped: seq<Node<S, A>>)
    requires key(start) in universe
    requires ClosedUnder(succ, key, universe)
    ensures Outcome(succ, isWin, key, priority, start, universe, path, expanded, popped)
    ensures LogOutcome(isWin, key, start, path, expanded, popped)
  {
    var closed: set<K> := {};
    // `set(key(state))` in the source holds the key's two components, not
    // the key itself: the start key is not pending.
    var fringeKeys: set<K> := {};
    var fringe := [Node(start, [])];
    ghost var rep: map<K, S> := map[];
    ghost var depth: map<K, nat> := map[];
    expanded, popped := [], [];
    SearchInvInit(succ, isWin, key, priority, start, universe);
    ShortestInit<S, K, A>(succ, key, start);
    while true
      invariant LoopInv(succ, isWin, key, priority, start, universe,
                        closed, fringeKeys, fringe, rep, depth, expanded, popped)
      decreases |universe - closed|, |fringe|
    {
      if fringe == [] {
        ExhaustedStep(succ, isWin, key, priority, start, universe,
                      closed, fringeKeys, rep, depth, expanded, popped);
        LogExhausted(isWin, key, start, expanded, popped);
        return [], expanded, popped;
      }
      MinimumExists(priority, fringe);
      var i: nat :| i < |fringe| && IsMinimum(priority, fringe, i);
      var current := fringe[i];
      if isWin(current.state) {
        WinStep(succ, isWin, key, priority, start, universe,
                closed, fringeKeys, fringe, rep, depth, expanded, popped, i);
        LogWin(isWin, key, start, fringe, expanded, popped, i);
        popped := popped + [current];
        return current.path, expanded, popped;
      }
      var currentKey := key(current.state);
      if currentKey in closed {
        StaleStep(succ, isWin, key, priority, start, universe,
                  closed, fringeKeys, fringe, rep, depth, expanded, popped, i);
        fringe := RemoveAt(fringe, i);
        fringeKeys := fringeKeys - {currentKey};
        popped := popped + [current];
      } else {
        var fringe', fringeKeys' := ExpandEntry(succ, isWin, key, priority, start, universe,
                                                closed, fringeKeys, fringe, rep, depth, expanded, popped, i);
        closed := closed + {currentKey};
        expanded := expanded + [currentKey];
        rep := rep[currentKey := current.state];
        depth := depth[currentKey := |current.path|];
        fringe, fringeKeys := fringe', fringeKeys';
        popped := popped + [current];
      }
    }
  }

  /**
   * The best-first search. `priority` orders the frontier, `universe` is a finite
   * set of keys closed under successors that holds the start key (it bounds
   * the number of expansions). Besides the path, the method gives back, as
   * ghost results, the keys in the order they were expanded and the entries
   * in the order they were popped.
   */
  method BestFirstSearch<S(!new), K(==), A(!new)>(
    succ: S -> seq<(S, A)>, isWin: S -> bool, key: S -> K,
    priority: (S, seq<A>) -> int, start: S, ghost universe: set<K>)
    returns (path: seq<A>, ghost expanded: seq<K>, ghost popped: seq<Node<S, A>>)
    requires key(start) in universe
    requires ClosedUnder(succ, key, universe)
    // a winning start state is popped first and its empty path returned
    ensures isWin(start) ==> path == []
    // a non-empty result replays, successor by successor, to a winning state
    ensures path != [] ==> exists t :: Chain(succ, start, path, t) && isWin(t)
    // the empty result for a non-winning start means the frontier ran dry
    ensures path == [] && !isWin(start) && KeyDetermines(succ, isWin, key) ==>
              NoWinReachable(succ, isWin, start)
    // conversely, when no winning state is reachable the result is empty
    ensures NoWinReachable(succ, isWin, start) ==> path == []
    // each key is expanded at most once, and only keys of the universe are
    ensures forall a, b :: 0 <= a < b < |expanded| ==> expanded[a] != expanded[b]
    ensures forall n :: 0 <= n < |expanded| ==> expanded[n] in universe
    // every popped entry is reachable; under a monotone priority they leave in order
    ensures forall n :: 0 <= n < |popped| ==> Chain(succ, start, popped[n].path, popped[n].state)
    ensures Monotone(succ, priority) ==> PoppedInOrder(priority, popped)
    // under a path-length priority the result is no longer than any chain to a win
    ensures PathLengthPriority(priority) && KeyDetermines(succ, isWin, key) ==>
              forall q, t :: Chain(succ, start, q, t) && isWin(t) ==> |path| <= |q|
    // the start entry is popped first, and only the last pop can win
    ensures popped != [] && popped[0] == Node(start, [])
    ensures forall n :: 0 <= n < |popped| - 1 ==> !isWin(popped[n].state)
    // the result is the winning last pop's path, or empty when the last pop does not win
    ensures path == (if isWin(popped[|popped| - 1].state) then popped[|popped| - 1].path else [])
    // the expanded keys are exactly the keys of the non-winning pops
    ensures Elements(expanded) == WinlessKeys(isWin, key, popped)
  {
    path, expanded, popped := SearchLoop(succ, isWin, key, priority, start, universe);
  }
}
