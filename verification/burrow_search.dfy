/**
 * Uniform-cost (Dijkstra) search over board states: a map of best known costs,
 * a min-priority queue of (cost, state) entries with lazy deletion of stale
 * entries, and the entry point that picks the depth from the diagram.
 */
module BurrowSearch {
  import opened Wrappers
  import opened BurrowBoard
  import opened BurrowMoves

  datatype Entry = Entry(cost: int, state: State)

  /** The search's outcome: the goal's cost, no solution (reported as -1), or the step budget ran out. */
  datatype Answer = Energy(cost: int) | NoSolution | GaveUp

  /**
   * Plays `ms` from `e`, each move legal where it is made, adding up the costs;
   * None once a move is illegal. Defined by the last move, so that playing one
   * more move unfolds it once.
   */
  ghost function Replay(cfg: Config, e: Entry, ms: seq<Move>): (r: Option<Entry>)
    requires cfg.Valid() && WellFormed(cfg, e.state)
    ensures r.Some? ==> WellFormed(cfg, r.value.state) && r.value.cost >= e.cost
    ensures r.Some? && ms != [] ==> r.value.cost > e.cost
    decreases |ms|
  {
    if ms == [] then Some(e)
    else
      var prev := Replay(cfg, e, ms[..|ms| - 1]);
      var m := ms[|ms| - 1];
      if prev.Some? && Legal(cfg, prev.value.state, m) then
        ApplyKeepsShape(cfg, prev.value.state, m);
        LegalMoveFits(cfg, prev.value.state, m);
        Some(Entry(prev.value.cost + m.cost, Apply(prev.value.state, m)))
      else None
  }

  /** `e.state` can be reached from `start` by legal moves whose costs add up to `e.cost`. */
  ghost predicate Reaches(cfg: Config, start: State, e: Entry)
    requires cfg.Valid() && WellFormed(cfg, start)
  {
    exists ms :: Replay(cfg, Entry(0, start), ms) == Some(e)
  }

  /** `target` can be reached from `start` by legal moves at some cost. */
  ghost predicate Reachable(cfg: Config, start: State, target: State)
    requires cfg.Valid() && WellFormed(cfg, start)
  {
    exists ms :: Replay(cfg, Entry(0, start), ms).Some? && Replay(cfg, Entry(0, start), ms).value.state == target
  }

  lemma ReplayExtend(cfg: Config, e: Entry, ms: seq<Move>, last: Entry, m: Move)
    requires cfg.Valid() && WellFormed(cfg, e.state)
    requires Replay(cfg, e, ms) == Some(last) && Legal(cfg, last.state, m)
    ensures Replay(cfg, e, ms + [m]) == Some(Entry(last.cost + m.cost, Apply(last.state, m)))
  {
    assert (ms + [m])[..|ms|] == ms;
  }

  /** One more legal move extends a reachable entry by that move's cost. */
  lemma ReachStep(cfg: Config, start: State, e: Entry, m: Move)
    requires cfg.Valid() && WellFormed(cfg, start) && WellFormed(cfg, e.state)
    requires Reaches(cfg, start, e) && Legal(cfg, e.state, m)
    ensures Reaches(cfg, start, Entry(e.cost + m.cost, Apply(e.state, m)))
  {
    var ms :| Replay(cfg, Entry(0, start), ms) == Some(e);
    ReplayExtend(cfg, Entry(0, start), ms, e, m);
  }

  /** Every state one legal move away from `st` is in `keys`. */
  ghost predicate Expanded(cfg: Config, keys: set<State>, st: State)
    requires cfg.Valid() && WellFormed(cfg, st)
  {
    forall m :: Legal(cfg, st, m) ==> Apply(st, m) in keys
  }

  /** Every successor of a state of `keys` is in `keys`. */
  ghost predicate Closed(cfg: Config, keys: set<State>)
    requires cfg.Valid()
  {
    forall st :: st in keys ==> WellFormed(cfg, st) && Expanded(cfg, keys, st)
  }

  /** A set of states closed under moves holds every state a replay from one of its members ends in. */
  lemma {:induction false} ClosedHoldsReplays(cfg: Config, keys: set<State>, e: Entry, ms: seq<Move>)
    requires cfg.Valid() && Closed(cfg, keys) && e.state in keys
    ensures Replay(cfg, e, ms).Some? ==> Replay(cfg, e, ms).value.state in keys
    decreases |ms|
  {
    if ms != [] {
      var front := ms[..|ms| - 1];
      ClosedHoldsReplays(cfg, keys, e, front);
      var prev := Replay(cfg, e, front);
      if prev.Some? && Legal(cfg, prev.value.state, ms[|ms| - 1]) {
        assert Expanded(cfg, keys, prev.value.state);
      }
    }
  }

  /** Extract-min of the priority queue: removes one entry of least cost. */
  method PopMin(heap: seq<Entry>) returns (top: Entry, rest: seq<Entry>)
    requires heap != []
    ensures multiset(rest) + multiset{top} == multiset(heap)
    ensures top in heap
    ensures forall e :: e in rest ==> top.cost <= e.cost
  {
    var best := 0;
    var i := 1;
    while i < |heap|
      invariant 0 <= best < i <= |heap|
      invariant forall j :: 0 <= j < i ==> heap[best].cost <= heap[j].cost
    {
      if heap[i].cost < heap[best].cost {
        best := i;
      }
      i := i + 1;
    }
    top := heap[best];
    rest := heap[..best] + heap[best + 1..];
    RemoveLeast(heap, best);
  }

  /** Removing the entry at `best`, one of least cost, leaves the others, none cheaper than it. */
  lemma RemoveLeast(heap: seq<Entry>, best: nat)
    requires best < |heap| && forall j :: 0 <= j < |heap| ==> heap[best].cost <= heap[j].cost
    ensures multiset(heap[..best] + heap[best + 1..]) + multiset{heap[best]} == multiset(heap)
    ensures forall e :: e in heap[..best] + heap[best + 1..] ==> heap[best].cost <= e.cost
  {
    var rest := heap[..best] + heap[best + 1..];
    assert heap == heap[..best] + [heap[best]] + heap[best + 1..];
    forall e | e in rest ensures heap[best].cost <= e.cost {
      assert e in multiset(heap);
      var j :| 0 <= j < |heap| && heap[j] == e;
    }
  }

  /** The (cost, state) entries the moves lead to from `cur`, in the order of the moves. */
  function Offers(cur: Entry, moves: seq<Move>): (offers: seq<Entry>)
    requires forall m :: m in moves ==> Fits(cur.state, m)
    ensures |offers| == |moves|
    ensures forall j :: 0 <= j < |moves| ==> offers[j] == Entry(cur.cost + moves[j].cost, Apply(cur.state, moves[j]))
  {
    if moves == [] then [] else [Entry(cur.cost + moves[0].cost, Apply(cur.state, moves[0]))] + Offers(cur, moves[1..])
  }

  /**
   * Relaxes each offered entry in turn: its state's recorded cost is written,
   * and the entry pushed, only when the state is new or the offered cost is
   * strictly smaller. Recorded costs only ever decrease.
   */
  method Relax(dist: map<State, int>, heap: seq<Entry>, offers: seq<Entry>)
    returns (dist': map<State, int>, heap': seq<Entry>)
    ensures |heap| <= |heap'| && heap'[..|heap|] == heap
    ensures forall st :: st in dist ==> st in dist' && dist'[st] <= dist[st]
    ensures forall o :: o in offers ==> o.state in dist' && dist'[o.state] <= o.cost
    ensures forall st :: st in dist' && (st !in dist || dist'[st] < dist[st]) ==> Entry(dist'[st], st) in heap'[|heap|..]
    ensures forall e :: e in heap'[|heap|..] ==> e in offers && (e.state !in dist || e.cost < dist[e.state])
  {
    dist', heap' := dist, heap;
    var i := 0;
    while i < |offers|
      invariant 0 <= i <= |offers|
      invariant |heap| <= |heap'| && heap'[..|heap|] == heap
      invariant forall st :: st in dist ==> st in dist' && dist'[st] <= dist[st]
      invariant forall o :: o in offers[..i] ==> o.state in dist' && dist'[o.state] <= o.cost
      invariant forall st :: st in dist' && (st !in dist || dist'[st] < dist[st]) ==> Entry(dist'[st], st) in heap'[|heap|..]
      invariant forall e :: e in heap'[|heap|..] ==> e in offers[..i] && (e.state !in dist || e.cost < dist[e.state])
    {
      var next := offers[i];
      if next.state !in dist' || next.cost < dist'[next.state] {
        ghost var pushed := heap'[|heap|..];
        dist' := dist'[next.state := next.cost];
        heap' := heap' + [next];
        assert heap'[|heap|..] == pushed + [next];
      }
      assert offers[..i + 1] == offers[..i] + [next];
      i := i + 1;
    }
    assert offers[..i] == offers;
  }

  /**
   * What the search keeps true between pops: the start is recorded; every
   * recorded state is reachable from the start at its recorded cost, and is
   * still pending in the queue at that cost or has all its successors recorded;
   * every queued entry is recorded, well-formed and reachable from the start at
   * its cost; a recorded goal is pending.
   */
  ghost predicate SearchInv(cfg: Config, start: State, goal: State, dist: map<State, int>, heap: seq<Entry>)
    requires cfg.Valid() && WellFormed(cfg, start)
  {
    && start in dist
    && (forall st :: st in dist ==> WellFormed(cfg, st) && (Entry(dist[st], st) in heap || Expanded(cfg, dist.Keys, st)))
    && (forall st :: st in dist ==> Reaches(cfg, start, Entry(dist[st], st)))
    && (forall e :: e in heap ==> e.state in dist && WellFormed(cfg, e.state) && Reaches(cfg, start, e))
    && (goal in dist ==> Entry(dist[goal], goal) in heap)
  }

  /**
   * The search from the given rooms under an empty hallway. A reported cost is
   * the cost of a legal move sequence that ends in the goal; "no solution" is
   * reported only when no legal move sequence reaches the goal. `fuel` bounds
   * the number of queue pops.
   */
  method FindSolution(cfg: Config, rooms: seq<seq<char>>, fuel: nat) returns (answer: Answer)
    requires cfg.Valid() && WellFormed(cfg, State(EmptyHallway(), rooms))
    ensures answer.Energy? ==> Reaches(cfg, State(EmptyHallway(), rooms), Entry(answer.cost, Goal(cfg.depth)))
    ensures answer.NoSolution? ==> !Reachable(cfg, State(EmptyHallway(), rooms), Goal(cfg.depth))
    ensures State(EmptyHallway(), rooms) == Goal(cfg.depth) && fuel > 0 ==> answer == Energy(0)
  {
    var start := State(EmptyHallway(), rooms);
    var goal := Goal(cfg.depth);
    var dist := map[start := 0];
    var heap := [Entry(0, start)];
    var steps := fuel;
    assert Replay(cfg, Entry(0, start), []) == Some(Entry(0, start));
    while heap != []
      invariant SearchInv(cfg, start, goal, dist, heap)
      invariant start == goal ==> heap == [Entry(0, start)] && steps == fuel
      decreases steps
    {
      if steps == 0 {
        return GaveUp;
      }
      steps := steps - 1;
      var top, rest := PopMin(heap);
      if top.state == goal {
        return Energy(top.cost);
      }
      if top.cost > dist[top.state] {
        StaleKeepsInv(cfg, start, goal, dist, heap, top, rest);
        heap := rest;
        continue;
      }
      var moves := AllMoves(cfg, top.state);
      var offers := Offers(top, moves);
      var dist', heap' := Relax(dist, rest, offers);
      ExpansionKeepsInv(cfg, start, goal, dist, heap, top, rest, moves, offers, dist', heap');
      dist, heap := dist', heap';
    }
    ExhaustedUnreachable(cfg, start, goal, dist);
    return NoSolution;
  }

  /** Once the queue is empty, the recorded states are closed under moves, so the goal is unreachable. */
  lemma ExhaustedUnreachable(cfg: Config, start: State, goal: State, dist: map<State, int>)
    requires cfg.Valid() && WellFormed(cfg, start)
    requires SearchInv(cfg, start, goal, dist, [])
    ensures !Reachable(cfg, start, goal)
  {
    if Reachable(cfg, start, goal) {
      var ms :| Replay(cfg, Entry(0, start), ms).Some? && Replay(cfg, Entry(0, start), ms).value.state == goal;
      ClosedHoldsReplays(cfg, dist.Keys, Entry(0, start), ms);
      assert false;
    }
  }

  /** Dropping a stale entry (one costlier than its state's recorded cost) keeps the search invariant. */
  lemma StaleKeepsInv(cfg: Config, start: State, goal: State, dist: map<State, int>, heap: seq<Entry>,
                      top: Entry, rest: seq<Entry>)
    requires cfg.Valid() && WellFormed(cfg, start)
    requires SearchInv(cfg, start, goal, dist, heap)
    requires multiset(rest) + multiset{top} == multiset(heap) && top in heap
    requires top.state != goal && top.state in dist && top.cost > dist[top.state]
    ensures SearchInv(cfg, start, goal, dist, rest)
  {
    PopKeepsEntries(heap, top, rest, rest);
  }

  /** Expanding a popped entry and relaxing its successors keeps the search invariant. */
  lemma ExpansionKeepsInv(cfg: Config, start: State, goal: State, dist: map<State, int>, heap: seq<Entry>,
                          top: Entry, rest: seq<Entry>, moves: seq<Move>, offers: seq<Entry>,
                          dist': map<State, int>, heap': seq<Entry>)
    requires cfg.Valid() && WellFormed(cfg, start)
    requires SearchInv(cfg, start, goal, dist, heap)
    requires multiset(rest) + multiset{top} == multiset(heap) && top in heap && top.state != goal
    requires forall m :: m in moves ==> Fits(top.state, m)
    requires forall m :: m in moves <==> Legal(cfg, top.state, m)
    requires offers == Offers(top, moves)
    requires |rest| <= |heap'| && heap'[..|rest|] == rest
    requires forall st :: st in dist ==> st in dist' && dist'[st] <= dist[st]
    requires forall o :: o in offers ==> o.state in dist' && dist'[o.state] <= o.cost
    requires forall st :: st in dist' && (st !in dist || dist'[st] < dist[st]) ==> Entry(dist'[st], st) in heap'[|rest|..]
    requires forall e :: e in heap'[|rest|..] ==> e in offers
    ensures SearchInv(cfg, start, goal, dist', heap')
  {
    PopKeepsEntries(heap, top, rest, heap');
    ExpansionKeepsClosure(cfg, dist, heap, top, rest, moves, offers, dist', heap');
    ExpansionKeepsQueue(cfg, start, dist, heap, top, rest, moves, offers, dist', heap');
    ExpansionKeepsRecords(cfg, start, dist, rest, dist', heap');
  }

  /** After relaxing, every recorded cost is still reachable: it is either unchanged or was just queued. */
  lemma ExpansionKeepsRecords(cfg: Config, start: State, dist: map<State, int>, rest: seq<Entry>,
                              dist': map<State, int>, heap': seq<Entry>)
    requires cfg.Valid() && WellFormed(cfg, start)
    requires forall st :: st in dist ==> Reaches(cfg, start, Entry(dist[st], st))
    requires forall e :: e in heap' ==> Reaches(cfg, start, e)
    requires |rest| <= |heap'|
    requires forall st :: st in dist ==> st in dist' && dist'[st] <= dist[st]
    requires forall st :: st in dist' && (st !in dist || dist'[st] < dist[st]) ==> Entry(dist'[st], st) in heap'[|rest|..]
    ensures forall st :: st in dist' ==> Reaches(cfg, start, Entry(dist'[st], st))
  {
    forall st | st in dist' ensures Reaches(cfg, start, Entry(dist'[st], st)) {
      if !(st in dist && dist'[st] == dist[st]) {
        var e := Entry(dist'[st], st);
        var k :| 0 <= k < |heap'[|rest|..]| && heap'[|rest|..][k] == e;
        assert heap'[|rest| + k] == e;
      }
    }
  }

  /** Every heap entry other than the popped one is among the rest, and the rest are among the relaxed heap. */
  lemma PopKeepsEntries(heap: seq<Entry>, top: Entry, rest: seq<Entry>, heap': seq<Entry>)
    requires multiset(rest) + multiset{top} == multiset(heap)
    requires |rest| <= |heap'| && heap'[..|rest|] == rest
    ensures forall e :: e in heap && e != top ==> e in rest
    ensures forall e :: e in rest ==> e in heap && e in heap'
    ensures forall e :: e in heap' ==> e in rest || e in heap'[|rest|..]
  {
    forall e | e in heap && e != top ensures e in rest {
      assert e in multiset(heap);
    }
    forall e | e in rest ensures e in heap && e in heap' {
      assert e in multiset(heap);
      var i :| 0 <= i < |rest| && rest[i] == e;
      assert heap'[..|rest|][i] == e;
    }
    forall e | e in heap' ensures e in rest || e in heap'[|rest|..] {
      var i :| 0 <= i < |heap'| && heap'[i] == e;
      if i < |rest| {
        assert heap'[..|rest|][i] == e;
      } else {
        assert heap'[|rest|..][i - |rest|] == e;
      }
    }
  }

  /** An offered entry is the result of one of the moves from `top`, at `top`'s cost plus the move's. */
  lemma OfferFrom(top: Entry, moves: seq<Move>, e: Entry) returns (m: Move)
    requires forall m :: m in moves ==> Fits(top.state, m)
    requires e in Offers(top, moves)
    ensures m in moves && Fits(top.state, m) && e == Entry(top.cost + m.cost, Apply(top.state, m))
  {
    var offers := Offers(top, moves);
    var j :| 0 <= j < |offers| && offers[j] == e;
    m := moves[j];
  }

  /** After expanding `top`, every recorded state is still pending in the queue or has all its successors recorded. */
  lemma ExpansionKeepsClosure(cfg: Config, dist: map<State, int>, heap: seq<Entry>,
                              top: Entry, rest: seq<Entry>, moves: seq<Move>, offers: seq<Entry>,
                              dist': map<State, int>, heap': seq<Entry>)
    requires cfg.Valid() && WellFormed(cfg, top.state)
    requires forall st :: st in dist ==> WellFormed(cfg, st) && (Entry(dist[st], st) in heap || Expanded(cfg, dist.Keys, st))
    requires multiset(rest) + multiset{top} == multiset(heap)
    requires |rest| <= |heap'| && heap'[..|rest|] == rest
    requires forall m :: m in moves ==> Fits(top.state, m)
    requires forall m :: m in moves <==> Legal(cfg, top.state, m)
    requires offers == Offers(top, moves)
    requires forall st :: st in dist ==> st in dist' && dist'[st] <= dist[st]
    requires forall o :: o in offers ==> o.state in dist' && dist'[o.state] <= o.cost
    requires forall st :: st in dist' && (st !in dist || dist'[st] < dist[st]) ==> Entry(dist'[st], st) in heap'[|rest|..]
    requires forall e :: e in heap'[|rest|..] ==> e in offers
    ensures forall st :: st in dist' ==> WellFormed(cfg, st) && (Entry(dist'[st], st) in heap' || Expanded(cfg, dist'.Keys, st))
  {
    PopKeepsEntries(heap, top, rest, heap');
    forall st | st in dist' ensures WellFormed(cfg, st) && (Entry(dist'[st], st) in heap' || Expanded(cfg, dist'.Keys, st)) {
      if st !in dist {
        var m := OfferFrom(top, moves, Entry(dist'[st], st));
        ApplyKeepsShape(cfg, top.state, m);
      } else if st == top.state {
        forall m | Legal(cfg, st, m) ensures Apply(st, m) in dist'.Keys {
          var j :| 0 <= j < |moves| && moves[j] == m;
          assert offers[j] in offers;
        }
      } else if dist'[st] == dist[st] {
        if Entry(dist[st], st) in heap {
          assert Entry(dist[st], st) != top;
        } else {
          assert Expanded(cfg, dist.Keys, st);
        }
      }
    }
  }

  /** After expanding `top`, every queued entry is recorded, well-formed and reachable at its cost. */
  lemma ExpansionKeepsQueue(cfg: Config, start: State, dist: map<State, int>, heap: seq<Entry>,
                            top: Entry, rest: seq<Entry>, moves: seq<Move>, offers: seq<Entry>,
                            dist': map<State, int>, heap': seq<Entry>)
    requires cfg.Valid() && WellFormed(cfg, start)
    requires forall e :: e in heap ==> e.state in dist && WellFormed(cfg, e.state) && Reaches(cfg, start, e)
    requires top in heap
    requires multiset(rest) + multiset{top} == multiset(heap)
        requires forall m :: m in moves ==> Fits(top.state, m) && Legal(cfg, top.state, m)
    requires offers == Offers(top, moves)
    requires |rest| <= |heap'| && heap'[..|rest|] == rest
    requires forall st :: st in dist ==> st in dist'
    requires forall o :: o in offers ==> o.state in dist'
    requires forall e :: e in heap'[|rest|..] ==> e in offers
    ensures forall e :: e in heap' ==> e.state in dist' && WellFormed(cfg, e.state) && Reaches(cfg, start, e)
  {
    PopKeepsEntries(heap, top, rest, heap');
    forall e | e in heap' ensures e.state in dist' && WellFormed(cfg, e.state) && Reaches(cfg, start, e) {
      if e !in rest {
        var m := OfferFrom(top, moves, e);
        LegalMoveFits(cfg, top.state, m);
        ApplyKeepsShape(cfg, top.state, m);
        ReachStep(cfg, start, top, m);
      }
    }
  }

  /** The rooms read from a diagram of letters and '.' form a well-formed starting board. */
  lemma ParsedBoardWellFormed(lines: seq<string>)
    requires |lines| >= 2 + DepthOf(lines)
    requires forall k :: 2 <= k < 2 + DepthOf(lines) ==> |lines[k]| > 9
    requires forall k, j :: 2 <= k < 2 + DepthOf(lines) && j in {3, 5, 7, 9} ==> lines[k][j] == Empty || lines[k][j] in "ABCD"
    ensures WellFormed(Standard(DepthOf(lines)), State(EmptyHallway(), ParseRooms(lines, DepthOf(lines))))
  {
    var cfg := Standard(DepthOf(lines));
    var rooms := ParseRooms(lines, DepthOf(lines));
    forall i, k | 0 <= i < |rooms| && 0 <= k < |rooms[i]| ensures IsCell(cfg, rooms[i][k]) {
      assert rooms[i][k] == lines[2 + k][3 + 2 * i] && 3 + 2 * i in {3, 5, 7, 9};
    }
  }

  /**
   * The puzzle's entry point: five input lines mean rooms of depth 2, any other
   * count depth 4; the rooms are read from the diagram and searched under the
   * standard costs.
   */
  method Solve(lines: seq<string>, fuel: nat) returns (answer: Answer)
    requires |lines| >= 2 + DepthOf(lines)
    requires forall k :: 2 <= k < 2 + DepthOf(lines) ==> |lines[k]| > 9
    requires forall k, j :: 2 <= k < 2 + DepthOf(lines) && j in {3, 5, 7, 9} ==> lines[k][j] == Empty || lines[k][j] in "ABCD"
    ensures var cfg := Standard(DepthOf(lines));
            var start := State(EmptyHallway(), ParseRooms(lines, DepthOf(lines)));
            && WellFormed(cfg, start)
            && (answer.Energy? ==> Reaches(cfg, start, Entry(answer.cost, Goal(cfg.depth))))
            && (answer.NoSolution? ==> !Reachable(cfg, start, Goal(cfg.depth)))
  {
    var depth := DepthOf(lines);
    var cfg := Standard(depth);
    var rooms := ParseRooms(lines, depth);
    ParsedBoardWellFormed(lines);
    answer := FindSolution(cfg, rooms, fuel);
  }
}
