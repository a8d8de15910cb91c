/**
 * The breadth-first searches the virus puzzle runs on the corridor graph:
 * the path to the nearest gate, the distance to one gate, and the virus's next
 * step toward its chosen gate.
 */
module VirusSearch {
  import opened Wrappers
  import opened VirusGraph

  /** The node names of the queue's entries, front first. */
  function Heads<T>(queue: seq<(char, T)>): (r: seq<char>)
    ensures |r| == |queue|
    ensures forall i :: 0 <= i < |queue| ==> r[i] == queue[i].0
  {
    if queue == [] then [] else [queue[0].0] + Heads(queue[1..])
  }

  lemma HeadsPush<T>(queue: seq<(char, T)>, e: (char, T))
    ensures Heads(queue + [e]) == Heads(queue) + [e.0]
  {
  }

  lemma HeadsPop<T>(queue: seq<(char, T)>)
    requires queue != []
    ensures Heads(queue) == [queue[0].0] + Heads(queue[1..])
  {
  }

  /** Visiting at least one new node of a finite universe shrinks what is left to visit. */
  lemma VisitShrinks(universe: set<char>, seen: set<char>, visited: set<char>)
    requires seen <= visited <= universe && seen != visited
    ensures |universe - visited| < |universe - seen|
  {
    assert visited - seen != {};
    var x :| x in visited - seen;
    var gained := (universe - seen) - (universe - visited);
    assert x in gained;
    assert universe - seen == (universe - visited) + gained;
    assert (universe - visited) * gained == {};
  }

  /**
   * The breadth-first frontier invariant: every visited node is still queued,
   * is one of `busy` (being expanded right now), or has been expanded, in which
   * case it is not in `stop` and all its neighbours are visited.
   */
  ghost predicate Settled(g: Graph, visited: set<char>, heads: seq<char>, busy: set<char>, stop: set<char>) {
    forall x :: x in visited ==> x in heads || x in busy || (x !in stop && Adj(g, x) <= visited)
  }

  lemma SettledPop<T>(g: Graph, visited: set<char>, queue: seq<(char, T)>, stop: set<char>)
    requires queue != [] && Settled(g, visited, Heads(queue), {}, stop)
    ensures Settled(g, visited, Heads(queue[1..]), {queue[0].0}, stop)
  {
    HeadsPop(queue);
  }

  lemma SettledPush<T>(g: Graph, visited: set<char>, queue: seq<(char, T)>, busy: set<char>, stop: set<char>, e: (char, T))
    requires Settled(g, visited, Heads(queue), busy, stop)
    ensures Settled(g, visited + {e.0}, Heads(queue + [e]), busy, stop)
  {
    HeadsPush(queue, e);
  }

  lemma SettledFinish(g: Graph, visited: set<char>, heads: seq<char>, x: char, stop: set<char>)
    requires Settled(g, visited, heads, {x}, stop) && x !in stop && Adj(g, x) <= visited
    ensures Settled(g, visited, heads, {}, stop)
  {
  }

  /**
   * The state of an inner loop that expands `node`: only neighbours of `node`
   * were added to the visited set, the queue grew only if the visited set did,
   * and the frontier invariant holds with `node` busy.
   */
  ghost predicate Expanding<T>(g: Graph, stop: set<char>, node: char, visited0: set<char>, queue0: seq<(char, T)>,
                               visited: set<char>, queue: seq<(char, T)>) {
    && visited0 <= visited <= visited0 + Adj(g, node)
    && (visited == visited0 ==> queue == queue0)
    && Settled(g, visited, Heads(queue), {node}, stop)
  }

  lemma ExpandingPush<T>(g: Graph, stop: set<char>, node: char, visited0: set<char>, queue0: seq<(char, T)>,
                         visited: set<char>, queue: seq<(char, T)>, e: (char, T))
    requires Expanding(g, stop, node, visited0, queue0, visited, queue) && e.0 in Adj(g, node) && e.0 !in visited
    ensures Expanding(g, stop, node, visited0, queue0, visited + {e.0}, queue + [e])
  {
    SettledPush(g, visited, queue, {node}, stop, e);
  }

  lemma ExpandingDone<T>(g: Graph, stop: set<char>, node: char, visited0: set<char>, queue0: seq<(char, T)>,
                         visited: set<char>, queue: seq<(char, T)>)
    requires Expanding(g, stop, node, visited0, queue0, visited, queue) && node !in stop && Adj(g, node) <= visited
    ensures visited0 <= visited <= visited0 + Adj(g, node)
    ensures visited == visited0 ==> queue == queue0
    ensures Settled(g, visited, Heads(queue), {}, stop)
  {
    SettledFinish(g, visited, Heads(queue), node, stop);
  }

  /**
   * An inner loop's effect so far: behind the untouched `queue0` it has queued
   * exactly the nodes of `done` that were not in `visited0`, and visited just those.
   */
  ghost predicate Appended<T>(done: set<char>, visited0: set<char>, queue0: seq<(char, T)>,
                              visited: set<char>, queue: seq<(char, T)>) {
    && |queue0| <= |queue| && queue[..|queue0|] == queue0
    && (forall x :: x in Heads(queue[|queue0|..]) <==> x in done && x !in visited0)
    && (forall x :: x in visited <==> x in visited0 || x in Heads(queue[|queue0|..]))
  }

  lemma AppendedPush<T>(done: set<char>, visited0: set<char>, queue0: seq<(char, T)>,
                        visited: set<char>, queue: seq<(char, T)>, e: (char, T))
    requires Appended(done, visited0, queue0, visited, queue) && e.0 !in done && e.0 !in visited
    ensures Appended(done + {e.0}, visited0, queue0, visited + {e.0}, queue + [e])
    ensures Heads((queue + [e])[|queue0|..]) == Heads(queue[|queue0|..]) + [e.0]
  {
    assert (queue + [e])[..|queue0|] == queue0;
    assert (queue + [e])[|queue0|..] == queue[|queue0|..] + [e];
    HeadsPush(queue[|queue0|..], e);
  }

  lemma AppendedSkip<T>(done: set<char>, visited0: set<char>, queue0: seq<(char, T)>,
                        visited: set<char>, queue: seq<(char, T)>, n: char)
    requires Appended(done, visited0, queue0, visited, queue) && n !in done && n in visited
    ensures n in visited0
    ensures Appended(done + {n}, visited0, queue0, visited, queue)
  {
  }

  /** In an ascending scan, queuing the next entry of `order` keeps the queued heads ascending. */
  lemma AscendingAppend<T>(order: seq<char>, j: nat, done: set<char>, visited0: set<char>, queue0: seq<(char, T)>,
                           visited: set<char>, queue: seq<(char, T)>, e: (char, T))
    requires StrictlyAscending(order) && j < |order| && e.0 == order[j]
    requires forall x :: x in done <==> x in order[..j]
    requires Appended(done, visited0, queue0, visited, queue) && StrictlyAscending(Heads(queue[|queue0|..]))
    requires e.0 !in visited
    ensures e.0 !in done
    ensures Appended(done + {e.0}, visited0, queue0, visited + {e.0}, queue + [e])
    ensures StrictlyAscending(Heads((queue + [e])[|queue0|..]))
  {
    AppendedPush(done, visited0, queue0, visited, queue, e);
    ListedBelow(order, j, Heads(queue[|queue0|..]));
  }

  /** Scanning the next entry of an ascending order extends the scanned set by it. */
  lemma ScanStep(order: seq<char>, j: nat, done: set<char>)
    requires StrictlyAscending(order) && j < |order|
    requires forall x :: x in done <==> x in order[..j]
    ensures order[j] !in done
    ensures forall x :: x in done + {order[j]} <==> x in order[..j + 1]
  {
    assert order[..j + 1] == order[..j] + [order[j]];
  }

  /**
   * The state of an ascending scan over `order`, the sorted neighbours of `node`:
   * its first `j` entries are visited and make up `done`, what was queued so far
   * is in ascending order, and the frontier invariant holds with `node` busy.
   */
  ghost predicate ScanInv<T>(g: Graph, stop: set<char>, node: char, order: seq<char>, j: int, done: set<char>,
                             visited0: set<char>, queue0: seq<(char, T)>, visited: set<char>, queue: seq<(char, T)>) {
    && Covered(order, j, visited)
    && (forall x :: x in done <==> x in order[..j])
    && Appended(done, visited0, queue0, visited, queue)
    && StrictlyAscending(Heads(queue[|queue0|..]))
    && Expanding(g, stop, node, visited0, queue0, visited, queue)
  }

  /** One scan step: the next neighbour is queued as `e` when unvisited, and skipped otherwise. */
  lemma ScanNext<T>(g: Graph, stop: set<char>, node: char, order: seq<char>, j: int, done: set<char>,
                    visited0: set<char>, queue0: seq<(char, T)>, visited: set<char>, queue: seq<(char, T)>, e: (char, T))
    requires ScanInv(g, stop, node, order, j, done, visited0, queue0, visited, queue)
    requires StrictlyAscending(order) && 0 <= j < |order| && e.0 == order[j] && e.0 in Adj(g, node)
    ensures e.0 !in visited ==>
      ScanInv(g, stop, node, order, j + 1, done + {e.0}, visited0, queue0, visited + {e.0}, queue + [e])
    ensures e.0 in visited ==>
      ScanInv(g, stop, node, order, j + 1, done + {e.0}, visited0, queue0, visited, queue)
  {
    ScanStep(order, j, done);
    if e.0 !in visited {
      ExpandingPush(g, stop, node, visited0, queue0, visited, queue, e);
      AscendingAppend(order, j, done, visited0, queue0, visited, queue, e);
      CoveredStep(order, j, visited, visited + {e.0});
    } else {
      AppendedSkip(done, visited0, queue0, visited, queue, e.0);
      CoveredStep(order, j, visited, visited);
    }
  }

  /** A finished scan has visited every neighbour and queued, in ascending order, exactly the unvisited ones. */
  lemma ScanDone<T>(g: Graph, stop: set<char>, node: char, order: seq<char>, done: set<char>,
                    visited0: set<char>, queue0: seq<(char, T)>, visited: set<char>, queue: seq<(char, T)>)
    requires ScanInv(g, stop, node, order, |order|, done, visited0, queue0, visited, queue)
    requires (forall x :: x in order <==> x in Adj(g, node)) && node !in stop
    ensures visited == visited0 + Adj(g, node)
    ensures |queue0| <= |queue| && queue[..|queue0|] == queue0
    ensures forall x :: x in Heads(queue[|queue0|..]) <==> x in Adj(g, node) && x !in visited0
    ensures StrictlyAscending(Heads(queue[|queue0|..]))
    ensures visited == visited0 ==> queue == queue0
    ensures Settled(g, visited, Heads(queue), {}, stop)
  {
    assert order[..|order|] == order;
    CoveredAll(order, Adj(g, node), visited);
    ExpandingDone(g, stop, node, visited0, queue0, visited, queue);
  }

  /** Every entry queued behind `queue0` carries `v`. */
  ghost predicate Carries<T>(queue0: seq<(char, T)>, queue: seq<(char, T)>, v: T) {
    forall i :: |queue0| <= i < |queue| ==> queue[i].1 == v
  }

  lemma CarriesPush<T>(queue0: seq<(char, T)>, queue: seq<(char, T)>, v: T, n: char)
    requires Carries(queue0, queue, v)
    ensures Carries(queue0, queue + [(n, v)], v)
  {
  }

  /** The first `j` entries of `order` are visited. */
  ghost predicate Covered(order: seq<char>, j: int, visited: set<char>) {
    0 <= j <= |order| && forall k :: 0 <= k < j ==> order[k] in visited
  }

  lemma CoveredStep(order: seq<char>, j: int, visited: set<char>, visited': set<char>)
    requires Covered(order, j, visited) && j < |order| && visited <= visited' && order[j] in visited'
    ensures Covered(order, j + 1, visited')
  {
  }

  lemma CoveredAll(order: seq<char>, s: set<char>, visited: set<char>)
    requires Covered(order, |order|, visited) && forall x :: x in s ==> x in order
    ensures s <= visited
  {
    forall x | x in s ensures x in visited {
      var k :| 0 <= k < |order| && order[k] == x;
    }
  }

  /** Once the queue is empty, no node of `stop` can be reached from a visited node. */
  lemma SettledExhausted(g: Graph, visited: set<char>, start: char, stop: set<char>)
    requires start in visited && Settled(g, visited, [], {}, stop)
    ensures forall t :: t in stop ==> !Reachable(g, start, t)
  {
    forall t | t in stop ensures !Reachable(g, start, t) {
      if Reachable(g, start, t) {
        var p :| WalkFrom(g, p, start, t);
        WalkStaysIn(g, visited, p);
      }
    }
  }

  lemma GateFreeExtend(g: Graph, gates: set<char>, start: char, p: seq<char>, y: char)
    requires GateFreeWalk(g, gates, start, p) && p[|p| - 1] !in gates && y in Adj(g, p[|p| - 1])
    ensures GateFreeWalk(g, gates, start, p + [y])
  {
    WalkExtend(g, p, y);
    var q := p + [y];
    forall i | 0 <= i < |q| - 1 ensures q[i] !in gates {
      assert q[i] == p[i];
    }
  }

  /** A walk with its first node dropped is still a walk. */
  lemma WalkDropFirst(g: Graph, p: seq<char>)
    requires IsWalk(g, p) && |p| >= 2
    ensures IsWalk(g, p[1..]) && p[1] in Adj(g, p[0])
  {
    var q := p[1..];
    forall i | 0 <= i < |q| - 1 ensures q[i + 1] in Adj(g, q[i]) {
      assert q[i] == p[i + 1] && q[i + 1] == p[i + 2];
    }
  }

  /** A path the gate search may return: a walk from `start` whose last node is its first gate. */
  predicate PathToGate(g: Graph, gates: set<char>, start: char, p: seq<char>) {
    GateFreeWalk(g, gates, start, p) && p[|p| - 1] in gates
  }

  /** Each queued node is visited, and its path followed by the node is a gate-free walk from `start`. */
  ghost predicate PathsOk(g: Graph, gates: set<char>, start: char, visited: set<char>, queue: seq<(char, seq<char>)>) {
    forall i :: 0 <= i < |queue| ==> queue[i].0 in visited && GateFreeWalk(g, gates, start, queue[i].1 + [queue[i].0])
  }

  lemma PathsPush(g: Graph, gates: set<char>, start: char, visited: set<char>, queue: seq<(char, seq<char>)>,
                  p: seq<char>, current: char, n: char)
    requires PathsOk(g, gates, start, visited, queue)
    requires GateFreeWalk(g, gates, start, p + [current]) && current !in gates && n in Adj(g, current)
    ensures PathsOk(g, gates, start, visited + {n}, queue + [(n, p + [current])])
  {
    GateFreeExtend(g, gates, start, p + [current], n);
  }

  /**
   * Breadth-first search from `start`, expanding neighbours in ascending order,
   * for the first gate dequeued; returns the path to it, or None when the queue
   * runs dry.
   */
  method ShortestPathToGate(g: Graph, gates: set<char>, start: char) returns (path: Option<seq<char>>)
    ensures path.Some? ==> PathToGate(g, gates, start, path.value)
    ensures path.None? <==> !GateReachable(g, gates, start)
  {
    var queue: seq<(char, seq<char>)> := [(start, [])];
    var visited := {start};
    ghost var universe := Nodes(g) + {start};
    while queue != []
      invariant start in visited && visited <= universe
      invariant PathsOk(g, gates, start, visited, queue)
      invariant Settled(g, visited, Heads(queue), {}, gates)
      decreases |universe - visited|, |queue|
    {
      var current, p := queue[0].0, queue[0].1;
      assert GateFreeWalk(g, gates, start, p + [current]);
      SettledPop(g, visited, queue, gates);
      queue := queue[1..];
      if current in gates {
        assert WalkFrom(g, p + [current], start, current);
        return Some(p + [current]);
      }
      ghost var seen, waiting := visited, queue;
      AdjInNodes(g, current);
      visited, queue := EnqueuePaths(g, gates, start, visited, queue, p, current);
      if visited != seen {
        VisitShrinks(universe, seen, visited);
      }
    }
    SettledExhausted(g, visited, start, gates);
    return None;
  }

  /**
   * The shortest-path search's inner loop: visits every unvisited neighbour of
   * `current` and queues it at the back, in ascending order, with the path to it.
   */
  method EnqueuePaths(g: Graph, gates: set<char>, ghost start: char, visited: set<char>, queue: seq<(char, seq<char>)>,
                      p: seq<char>, current: char)
    returns (visited': set<char>, queue': seq<(char, seq<char>)>)
    requires GateFreeWalk(g, gates, start, p + [current]) && current !in gates
    requires PathsOk(g, gates, start, visited, queue)
    requires Settled(g, visited, Heads(queue), {current}, gates)
    ensures visited' == visited + Adj(g, current)
    ensures |queue| <= |queue'| && queue'[..|queue|] == queue
    ensures forall x :: x in Heads(queue'[|queue|..]) <==> x in Adj(g, current) && x !in visited
    ensures StrictlyAscending(Heads(queue'[|queue|..]))
    ensures forall i :: |queue| <= i < |queue'| ==> queue'[i].1 == p + [current]
    ensures visited' == visited ==> queue' == queue
    ensures PathsOk(g, gates, start, visited', queue')
    ensures Settled(g, visited', Heads(queue'), {}, gates)
  {
    var neighbours := SortedSet(Adj(g, current));
    SortedSetAscending(Adj(g, current));
    visited', queue' := visited, queue;
    ghost var done: set<char> := {};
    var j := 0;
    while j < |neighbours|
      invariant ScanInv(g, gates, current, neighbours, j, done, visited, queue, visited', queue')
      invariant Carries(queue, queue', p + [current])
      invariant PathsOk(g, gates, start, visited', queue')
    {
      var n := neighbours[j];
      ScanNext(g, gates, current, neighbours, j, done, visited, queue, visited', queue', (n, p + [current]));
      if n !in visited' {
        PathsPush(g, gates, start, visited', queue', p, current, n);
        CarriesPush(queue, queue', p + [current], n);
        visited' := visited' + {n};
        queue' := queue' + [(n, p + [current])];
      }
      done := done + {n};
      j := j + 1;
    }
    ScanDone(g, gates, current, neighbours, done, visited, queue, visited', queue');
  }

  /** `t` can be reached from `s` by a walk of exactly `n` steps. */
  ghost predicate WalkOfLength(g: Graph, s: char, t: char, n: nat) {
    exists p :: WalkFrom(g, p, s, t) && |p| == n + 1
  }

  /** Each queued node is visited, and its ghost walk reaches it from `start` in as many steps as its count. */
  ghost predicate CountsOk(g: Graph, start: char, visited: set<char>, queue: seq<(char, nat)>, walks: seq<seq<char>>) {
    && |walks| == |queue|
    && forall i :: 0 <= i < |queue| ==> queue[i].0 in visited && WalkFrom(g, walks[i], start, queue[i].0) && |walks[i]| == queue[i].1 + 1
  }

  lemma CountsPush(g: Graph, start: char, visited: set<char>, queue: seq<(char, nat)>, walks: seq<seq<char>>,
                   walk: seq<char>, node: char, dist: nat, n: char)
    requires CountsOk(g, start, visited, queue, walks)
    requires WalkFrom(g, walk, start, node) && |walk| == dist + 1 && n in Adj(g, node)
    ensures CountsOk(g, start, visited + {n}, queue + [(n, dist + 1)], walks + [walk + [n]])
  {
    WalkExtend(g, walk, n);
  }

  lemma CountsPop(g: Graph, start: char, visited: set<char>, queue: seq<(char, nat)>, walks: seq<seq<char>>)
    requires CountsOk(g, start, visited, queue, walks) && queue != []
    ensures WalkFrom(g, walks[0], start, queue[0].0) && |walks[0]| == queue[0].1 + 1
    ensures CountsOk(g, start, visited, queue[1..], walks[1..])
  {
  }

  lemma CountFound(g: Graph, start: char, gate: char, walk: seq<char>, dist: nat)
    requires WalkFrom(g, walk, start, gate) && |walk| == dist + 1
    ensures WalkOfLength(g, start, gate, dist)
    ensures dist == 0 ==> start == gate
  {
  }

  /**
   * Breadth-first search from `start` that counts steps and stops when `gate`
   * is dequeued.
   */
  method GateDistance(g: Graph, start: char, gate: char) returns (d: Option<nat>)
    ensures d.Some? ==> WalkOfLength(g, start, gate, d.value)
    ensures d.None? <==> !Reachable(g, start, gate)
    ensures d == Some(0) <==> start == gate
  {
    var queue: seq<(char, nat)> := [(start, 0)];
    ghost var walks: seq<seq<char>> := [[start]];
    var visited := {start};
    ghost var universe := Nodes(g) + {start};
    while queue != []
      invariant start in visited && visited <= universe
      invariant CountsOk(g, start, visited, queue, walks)
      invariant Settled(g, visited, Heads(queue), {}, {gate})
      invariant start == gate ==> queue == [(start, 0)]
      decreases |universe - visited|, |queue|
    {
      var node, dist := queue[0].0, queue[0].1;
      ghost var walk := walks[0];
      CountsPop(g, start, visited, queue, walks);
      SettledPop(g, visited, queue, {gate});
      queue, walks := queue[1..], walks[1..];
      if node == gate {
        CountFound(g, start, gate, walk, dist);
        return Some(dist);
      }
      ghost var seen, waiting := visited, queue;
      AdjInNodes(g, node);
      visited, queue, walks := EnqueueCounts(g, gate, start, visited, queue, walks, walk, node, dist);
      if visited != seen {
        VisitShrinks(universe, seen, visited);
      }
    }
    SettledExhausted(g, visited, start, {gate});
    return None;
  }

  /**
   * The distance search's inner loop: visits every unvisited neighbour of
   * `node`, taken in no particular order, and queues it at the back one step
   * further than `node`.
   */
  method EnqueueCounts(g: Graph, gate: char, ghost start: char, visited: set<char>, queue: seq<(char, nat)>,
                       ghost walks: seq<seq<char>>, ghost walk: seq<char>, node: char, dist: nat)
    returns (visited': set<char>, queue': seq<(char, nat)>, ghost walks': seq<seq<char>>)
    requires WalkFrom(g, walk, start, node) && |walk| == dist + 1 && node != gate
    requires CountsOk(g, start, visited, queue, walks)
    requires Settled(g, visited, Heads(queue), {node}, {gate})
    ensures visited' == visited + Adj(g, node)
    ensures |queue| <= |queue'| && queue'[..|queue|] == queue
    ensures forall x :: x in Heads(queue'[|queue|..]) <==> x in Adj(g, node) && x !in visited
    ensures forall i :: |queue| <= i < |queue'| ==> queue'[i].1 == dist + 1
    ensures visited' == visited ==> queue' == queue
    ensures CountsOk(g, start, visited', queue', walks')
    ensures Settled(g, visited', Heads(queue'), {}, {gate})
  {
    var pending := Adj(g, node);
    visited', queue', walks' := visited, queue, walks;
    ghost var done: set<char> := {};
    while pending != {}
      invariant CountsScan(g, gate, start, walk, node, dist, pending, done, visited, queue, visited', queue', walks')
      decreases |pending|
    {
      var n :| n in pending;
      if n !in visited' {
        CountsScanPush(g, gate, start, walk, node, dist, pending, done, visited, queue, visited', queue', walks', n);
        var e: (char, nat) := (n, dist + 1);
        visited' := visited' + {n};
        queue', walks' := queue' + [e], walks' + [walk + [n]];
      } else {
        CountsScanSkip(g, gate, start, walk, node, dist, pending, done, visited, queue, visited', queue', walks', n);
      }
      pending := pending - {n};
      done := done + {n};
    }
    CountsScanDone(g, gate, start, walk, node, dist, done, visited, queue, visited', queue', walks');
  }

  /** A finished scan has visited every neighbour and queued exactly the unvisited ones. */
  lemma CountsScanDone(g: Graph, gate: char, start: char, walk: seq<char>, node: char, dist: nat,
                       done: set<char>, visited0: set<char>, queue0: seq<(char, nat)>,
                       visited: set<char>, queue: seq<(char, nat)>, walks: seq<seq<char>>)
    requires CountsScan(g, gate, start, walk, node, dist, {}, done, visited0, queue0, visited, queue, walks)
    requires node != gate
    ensures visited == visited0 + Adj(g, node)
    ensures |queue0| <= |queue| && queue[..|queue0|] == queue0
    ensures forall x :: x in Heads(queue[|queue0|..]) <==> x in Adj(g, node) && x !in visited0
    ensures forall i :: |queue0| <= i < |queue| ==> queue[i].1 == dist + 1
    ensures visited == visited0 ==> queue == queue0
    ensures Settled(g, visited, Heads(queue), {}, {gate})
  {
    ExpandingDone(g, {gate}, node, visited0, queue0, visited, queue);
  }

  /**
   * The invariant of the distance search's inner loop: the neighbours of `node`
   * are split into the `done` ones, all visited, and the `pending` ones.
   */
  ghost predicate CountsScan(g: Graph, gate: char, start: char, walk: seq<char>, node: char, dist: nat,
                             pending: set<char>, done: set<char>, visited0: set<char>, queue0: seq<(char, nat)>,
                             visited: set<char>, queue: seq<(char, nat)>, walks: seq<seq<char>>) {
    && pending + done == Adj(g, node) && pending !! done
    && done <= visited
    && Appended(done, visited0, queue0, visited, queue)
    && Carries(queue0, queue, dist + 1)
    && CountsOk(g, start, visited, queue, walks)
    && Expanding(g, {gate}, node, visited0, queue0, visited, queue)
  }

  /** Queuing an unvisited pending neighbour one step further keeps the invariant. */
  lemma CountsScanPush(g: Graph, gate: char, start: char, walk: seq<char>, node: char, dist: nat,
                       pending: set<char>, done: set<char>, visited0: set<char>, queue0: seq<(char, nat)>,
                       visited: set<char>, queue: seq<(char, nat)>, walks: seq<seq<char>>, n: char)
    requires CountsScan(g, gate, start, walk, node, dist, pending, done, visited0, queue0, visited, queue, walks)
    requires WalkFrom(g, walk, start, node) && |walk| == dist + 1 && n in pending && n !in visited
    ensures var e: (char, nat) := (n, dist + 1);
            CountsScan(g, gate, start, walk, node, dist, pending - {n}, done + {n}, visited0, queue0,
                       visited + {n}, queue + [e], walks + [walk + [n]])
  {
    var e: (char, nat) := (n, dist + 1);
    var v', q', w' := visited + {n}, queue + [e], walks + [walk + [n]];
    assert (pending - {n}) + (done + {n}) == Adj(g, node) && (pending - {n}) !! (done + {n});
    assert done + {n} <= v';
    assert Appended(done + {n}, visited0, queue0, v', q') by {
      AppendedPush(done, visited0, queue0, visited, queue, e);
    }
    assert Carries(queue0, q', dist + 1) by {
      CarriesPush(queue0, queue, dist + 1, n);
    }
    assert CountsOk(g, start, v', q', w') by {
      CountsPush(g, start, visited, queue, walks, walk, node, dist, n);
    }
    assert Expanding(g, {gate}, node, visited0, queue0, v', q') by {
      ExpandingPush(g, {gate}, node, visited0, queue0, visited, queue, e);
    }
  }

  /** Dropping an already visited pending neighbour keeps the invariant. */
  lemma CountsScanSkip(g: Graph, gate: char, start: char, walk: seq<char>, node: char, dist: nat,
                       pending: set<char>, done: set<char>, visited0: set<char>, queue0: seq<(char, nat)>,
                       visited: set<char>, queue: seq<(char, nat)>, walks: seq<seq<char>>, n: char)
    requires CountsScan(g, gate, start, walk, node, dist, pending, done, visited0, queue0, visited, queue, walks)
    requires n in pending && n in visited
    ensures CountsScan(g, gate, start, walk, node, dist, pending - {n}, done + {n}, visited0, queue0, visited, queue, walks)
  {
    assert (pending - {n}) + (done + {n}) == Adj(g, node) && (pending - {n}) !! (done + {n});
    assert Appended(done + {n}, visited0, queue0, visited, queue) by {
      AppendedSkip(done, visited0, queue0, visited, queue, n);
    }
  }

  /**
   * Each queued node is visited and reached from `cur` by its ghost walk; its
   * remembered path is empty exactly for `cur` itself, and otherwise starts with
   * the walk's first step.
   */
  ghost predicate StepsOk(g: Graph, cur: char, visited: set<char>, queue: seq<(char, seq<char>)>, walks: seq<seq<char>>) {
    && |walks| == |queue|
    && forall i :: 0 <= i < |queue| ==>
         && queue[i].0 in visited && WalkFrom(g, walks[i], cur, queue[i].0)
         && (queue[i].1 == [] <==> queue[i].0 == cur)
         && (queue[i].1 == [] ==> walks[i] == [cur])
         && (queue[i].1 != [] ==> |walks[i]| >= 2 && walks[i][1] == queue[i].1[0])
  }

  lemma StepsPush(g: Graph, cur: char, visited: set<char>, queue: seq<(char, seq<char>)>, walks: seq<seq<char>>,
                  walk: seq<char>, current: char, path: seq<char>, n: char)
    requires StepsOk(g, cur, visited, queue, walks)
    requires WalkFrom(g, walk, cur, current) && n in Adj(g, current) && cur in visited && n !in visited
    requires path == [] <==> current == cur
    requires path == [] ==> walk == [cur]
    requires path != [] ==> |walk| >= 2 && walk[1] == path[0]
    ensures StepsOk(g, cur, visited + {n}, queue + [(n, if current != cur then path + [current] else [n])], walks + [walk + [n]])
  {
    WalkExtend(g, walk, n);
  }

  /**
   * Breadth-first search from `cur`, expanding neighbours in ascending order,
   * that remembers the first step of each path; returns that first step when
   * `target` is dequeued with a non-empty path. `target == cur` is dequeued
   * with the empty path, so it yields no step.
   */
  method StepToward(g: Graph, cur: char, target: char) returns (next: Option<char>)
    ensures next.Some? ==> next.value in Adj(g, cur) && Reachable(g, next.value, target)
    ensures next.None? <==> (target == cur || !Reachable(g, cur, target))
  {
    var queue: seq<(char, seq<char>)> := [(cur, [])];
    ghost var walks: seq<seq<char>> := [[cur]];
    var visited := {cur};
    ghost var universe := Nodes(g) + {cur};
    ghost var stop := {target} - {cur};
    while queue != []
      invariant cur in visited && visited <= universe
      invariant StepsOk(g, cur, visited, queue, walks)
      invariant Settled(g, visited, Heads(queue), {}, stop)
      decreases |universe - visited|, |queue|
    {
      var current, path := queue[0].0, queue[0].1;
      ghost var walk := walks[0];
      assert WalkFrom(g, walk, cur, current);
      assert path == [] <==> current == cur;
      assert path == [] ==> walk == [cur];
      assert path != [] ==> |walk| >= 2 && walk[1] == path[0];
      SettledPop(g, visited, queue, stop);
      queue, walks := queue[1..], walks[1..];
      if current == target && |path| >= 1 {
        WalkDropFirst(g, walk);
        assert WalkFrom(g, walk[1..], path[0], target);
        assert WalkFrom(g, walk, cur, target);
        return Some(path[0]);
      }
      ghost var seen, waiting := visited, queue;
      AdjInNodes(g, current);
      visited, queue, walks := EnqueueSteps(g, cur, stop, visited, queue, walks, walk, current, path);
      if visited != seen {
        VisitShrinks(universe, seen, visited);
      }
    }
    SettledExhausted(g, visited, cur, stop);
    return None;
  }

  /**
   * Every entry queued behind `queue0` carries the path to it that starts with
   * the step out of `cur`: `path` and `current`, or just the entry's own node
   * when `current` is `cur`.
   */
  ghost predicate CarriesStep(queue0: seq<(char, seq<char>)>, queue: seq<(char, seq<char>)>,
                              cur: char, current: char, path: seq<char>) {
    forall i :: |queue0| <= i < |queue| ==> queue[i].1 == if current != cur then path + [current] else [queue[i].0]
  }

  lemma CarriesStepPush(queue0: seq<(char, seq<char>)>, queue: seq<(char, seq<char>)>,
                        cur: char, current: char, path: seq<char>, n: char)
    requires CarriesStep(queue0, queue, cur, current, path)
    ensures CarriesStep(queue0, queue + [(n, if current != cur then path + [current] else [n])], cur, current, path)
  {
  }

  /**
   * The next-step search's inner loop: visits every unvisited neighbour of
   * `current` and queues it at the back, in ascending order, with the path that
   * starts with the step out of `cur` (just the neighbour itself when `current`
   * is `cur`).
   */
  method EnqueueSteps(g: Graph, cur: char, ghost stop: set<char>, visited: set<char>, queue: seq<(char, seq<char>)>,
                      ghost walks: seq<seq<char>>, ghost walk: seq<char>, current: char, path: seq<char>)
    returns (visited': set<char>, queue': seq<(char, seq<char>)>, ghost walks': seq<seq<char>>)
    requires WalkFrom(g, walk, cur, current) && cur in visited && current !in stop
    requires path == [] <==> current == cur
    requires path == [] ==> walk == [cur]
    requires path != [] ==> |walk| >= 2 && walk[1] == path[0]
    requires StepsOk(g, cur, visited, queue, walks)
    requires Settled(g, visited, Heads(queue), {current}, stop)
    ensures visited' == visited + Adj(g, current)
    ensures |queue| <= |queue'| && queue'[..|queue|] == queue
    ensures forall x :: x in Heads(queue'[|queue|..]) <==> x in Adj(g, current) && x !in visited
    ensures StrictlyAscending(Heads(queue'[|queue|..]))
    ensures forall i :: |queue| <= i < |queue'| ==>
              queue'[i].1 == if current != cur then path + [current] else [queue'[i].0]
    ensures visited' == visited ==> queue' == queue
    ensures StepsOk(g, cur, visited', queue', walks')
    ensures Settled(g, visited', Heads(queue'), {}, stop)
  {
    var neighbours := SortedSet(Adj(g, current));
    SortedSetAscending(Adj(g, current));
    visited', queue', walks' := visited, queue, walks;
    ghost var done: set<char> := {};
    var j := 0;
    while j < |neighbours|
      invariant StepsScan(g, cur, stop, walk, current, path, neighbours, j, done, visited, queue, visited', queue', walks')
    {
      var n := neighbours[j];
      var step := if current != cur then path + [current] else [n];
      StepsScanNext(g, cur, stop, walk, current, path, neighbours, j, done, visited, queue, visited', queue', walks');
      if n !in visited' {
        visited' := visited' + {n};
        queue', walks' := queue' + [(n, step)], walks' + [walk + [n]];
      }
      done := done + {n};
      j := j + 1;
    }
    ScanDone(g, stop, current, neighbours, done, visited, queue, visited', queue');
  }

  /** The invariant of the next-step search's inner loop. */
  ghost predicate StepsScan(g: Graph, cur: char, stop: set<char>, walk: seq<char>, current: char, path: seq<char>,
                            order: seq<char>, j: int, done: set<char>, visited0: set<char>, queue0: seq<(char, seq<char>)>,
                            visited: set<char>, queue: seq<(char, seq<char>)>, walks: seq<seq<char>>) {
    && ScanInv(g, stop, current, order, j, done, visited0, queue0, visited, queue)
    && CarriesStep(queue0, queue, cur, current, path)
    && cur in visited
    && StepsOk(g, cur, visited, queue, walks)
  }

  lemma StepsScanNext(g: Graph, cur: char, stop: set<char>, walk: seq<char>, current: char, path: seq<char>,
                      order: seq<char>, j: int, done: set<char>, visited0: set<char>, queue0: seq<(char, seq<char>)>,
                      visited: set<char>, queue: seq<(char, seq<char>)>, walks: seq<seq<char>>)
    requires StepsScan(g, cur, stop, walk, current, path, order, j, done, visited0, queue0, visited, queue, walks)
    requires StrictlyAscending(order) && 0 <= j < |order| && (forall x :: x in order <==> x in Adj(g, current))
    requires WalkFrom(g, walk, cur, current)
    requires path == [] <==> current == cur
    requires path == [] ==> walk == [cur]
    requires path != [] ==> |walk| >= 2 && walk[1] == path[0]
    ensures var n := order[j];
            var step := if current != cur then path + [current] else [n];
            if n !in visited then
              StepsScan(g, cur, stop, walk, current, path, order, j + 1, done + {n}, visited0, queue0,
                        visited + {n}, queue + [(n, step)], walks + [walk + [n]])
            else
              StepsScan(g, cur, stop, walk, current, path, order, j + 1, done + {n}, visited0, queue0, visited, queue, walks)
  {
    var n := order[j];
    var step := if current != cur then path + [current] else [n];
    assert n in order;
    ScanNext(g, stop, current, order, j, done, visited0, queue0, visited, queue, (n, step));
    if n !in visited {
      StepsPush(g, cur, visited, queue, walks, walk, current, path, n);
      CarriesStepPush(queue0, queue, cur, current, path, n);
    }
  }

  /** The gates of the (distance, gate) pairs, in order. */
  function GatesOf(found: seq<(nat, char)>): (r: seq<char>)
    ensures |r| == |found|
    ensures forall i :: 0 <= i < |found| ==> r[i] == found[i].1
  {
    if found == [] then [] else [found[0].1] + GatesOf(found[1..])
  }

  lemma GatesOfPush(found: seq<(nat, char)>, e: (nat, char))
    ensures GatesOf(found + [e]) == GatesOf(found) + [e.1]
  {
  }

  /** Each listed node is reachable in as many steps as listed, and only the start is listed at distance 0. */
  ghost predicate DistancesOk(g: Graph, cur: char, found: seq<(nat, char)>) {
    forall i :: 0 <= i < |found| ==>
      WalkOfLength(g, cur, found[i].1, found[i].0) && (found[i].0 == 0 <==> found[i].1 == cur)
  }

  lemma DistancesPush(g: Graph, cur: char, found: seq<(nat, char)>, d: nat, gate: char)
    requires DistancesOk(g, cur, found)
    requires WalkOfLength(g, cur, gate, d) && (d == 0 <==> gate == cur)
    ensures DistancesOk(g, cur, found + [(d, gate)])
  {
  }

  lemma AscendingPush(s: seq<char>, c: char)
    requires StrictlyAscending(s) && forall i :: 0 <= i < |s| ==> s[i] < c
    ensures StrictlyAscending(s + [c])
  {
  }

  /**
   * The per-gate loop's listing after the first `k` gates of `order`: exactly
   * the reachable ones, in ascending order.
   */
  ghost predicate Listed(g: Graph, cur: char, order: seq<char>, k: nat, found: seq<(nat, char)>)
    requires k <= |order|
  {
    && (forall t :: t in GatesOf(found) <==> t in order[..k] && Reachable(g, cur, t))
    && StrictlyAscending(GatesOf(found))
  }

  /** One gate's distance search result keeps the listing invariant of the per-gate loop. */
  lemma ListedStep(g: Graph, cur: char, order: seq<char>, k: nat,
                   found: seq<(nat, char)>, reached: bool, d: nat, found': seq<(nat, char)>)
    requires StrictlyAscending(order) && k < |order|
    requires Listed(g, cur, order, k, found)
    requires reached <==> Reachable(g, cur, order[k])
    requires found' == if reached then found + [(d, order[k])] else found
    ensures Listed(g, cur, order, k + 1, found')
  {
    var gate := order[k];
    assert order[..k + 1] == order[..k] + [gate];
    if reached {
      GatesOfPush(found, (d, gate));
      ListedBelow(order, k, GatesOf(found));
      forall t ensures t in GatesOf(found') <==> t in order[..k + 1] && Reachable(g, cur, t) {
        assert t in GatesOf(found') <==> t in GatesOf(found) || t == gate;
      }
    }
  }

  /** Appending the next entry of an ascending order to a list drawn from the entries before it keeps the list ascending. */
  lemma ListedBelow(order: seq<char>, k: nat, listed: seq<char>)
    requires StrictlyAscending(order) && k < |order|
    requires StrictlyAscending(listed) && forall t :: t in listed ==> t in order[..k]
    ensures StrictlyAscending(listed + [order[k]])
  {
    forall i | 0 <= i < |listed| ensures listed[i] < order[k] {
      assert listed[i] in order[..k];
    }
    AscendingPush(listed, order[k]);
  }

  /**
   * The distance search run once per gate, gates in ascending order; a gate
   * is listed with its distance exactly when it can be reached.
   */
  method GateDistances(g: Graph, gates: set<char>, cur: char) returns (found: seq<(nat, char)>)
    ensures DistancesOk(g, cur, found)
    ensures forall t :: t in GatesOf(found) <==> t in gates && Reachable(g, cur, t)
    ensures StrictlyAscending(GatesOf(found))
  {
    var order := SortedSet(gates);
    SortedSetAscending(gates);
    found := ListDistances(g, cur, order);
    assert order[..|order|] == order;
  }

  /** The per-gate loop: runs the distance search for each node of `order` and lists the reachable ones. */
  method ListDistances(g: Graph, cur: char, order: seq<char>) returns (found: seq<(nat, char)>)
    requires StrictlyAscending(order)
    ensures DistancesOk(g, cur, found)
    ensures Listed(g, cur, order, |order|, found)
  {
    found := [];
    var k := 0;
    while k < |order|
      invariant 0 <= k <= |order|
      invariant DistancesOk(g, cur, found)
      invariant Listed(g, cur, order, k, found)
    {
      var d := GateDistance(g, cur, order[k]);
      var found' := if d.Some? then found + [(d.value, order[k])] else found;
      ListedStep(g, cur, order, k, found, d.Some?, if d.Some? then d.value else 0, found');
      if d.Some? {
        DistancesPush(g, cur, found, d.value, order[k]);
      }
      found := found';
      k := k + 1;
    }
  }

  /** The least distance among the pairs. */
  function MinDistance(found: seq<(nat, char)>): (d: nat)
    requires found != []
    ensures exists i :: 0 <= i < |found| && found[i].0 == d
    ensures forall i :: 0 <= i < |found| ==> d <= found[i].0
  {
    if |found| == 1 then found[0].0
    else
      var rest := MinDistance(found[1..]);
      assert forall i :: 1 <= i < |found| ==> found[i] == found[1..][i - 1];
      if found[0].0 <= rest then found[0].0 else rest
  }

  /** The gate the virus heads for: the nearest one, ties broken by the least name. */
  function NearestGate(found: seq<(nat, char)>): (r: (nat, char))
    requires found != []
    ensures r in found
    ensures forall e :: e in found ==> r.0 <= e.0
    ensures forall e :: e in found && e.0 == r.0 ==> r.1 <= e.1
  {
    var d := MinDistance(found);
    var tied := set e | e in found && e.0 == d :: e.1;
    var i :| 0 <= i < |found| && found[i].0 == d;
    assert found[i].1 in tied;
    assert forall e :: e in found && e.0 == d ==> e.1 in tied;
    (d, Least(tied))
  }

  /**
   * The virus's next node: the first step of a breadth-first path toward the
   * nearest gate. None when no gate can be reached, and also when the virus
   * already stands on a gate.
   */
  method NextMove(g: Graph, gates: set<char>, cur: char) returns (next: Option<char>)
    ensures next.Some? ==> next.value in Adj(g, cur) && GateReachable(g, gates, next.value)
    ensures next.None? <==> (cur in gates || !GateReachable(g, gates, cur))
  {
    var found := GateDistances(g, gates, cur);
    if found == [] {
      WalkSingle(g, cur);
      return None;
    }
    var nearest := NearestGate(found);
    NearestIsReachable(g, gates, cur, found, nearest);
    next := StepToward(g, cur, nearest.1);
  }

  /**
   * The nearest listed gate is a reachable gate, and it is the virus's own node
   * exactly when that node is a gate.
   */
  lemma NearestIsReachable(g: Graph, gates: set<char>, cur: char, found: seq<(nat, char)>, r: (nat, char))
    requires DistancesOk(g, cur, found)
    requires forall t :: t in GatesOf(found) <==> t in gates && Reachable(g, cur, t)
    requires r in found && forall e :: e in found ==> r.0 <= e.0
    ensures r.1 in gates && Reachable(g, cur, r.1)
    ensures r.1 == cur <==> cur in gates
  {
    var i :| 0 <= i < |found| && found[i] == r;
    assert WalkOfLength(g, cur, r.1, r.0);
    assert GatesOf(found)[i] == r.1;
    if cur in gates {
      WalkSingle(g, cur);
      assert cur in GatesOf(found);
      var j :| 0 <= j < |found| && GatesOf(found)[j] == cur;
      assert found[j] in found;
    }
  }
}
