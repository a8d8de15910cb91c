/**
 * The isolation loop: the virus starts at node 'a'; each turn one corridor
 * into a gate is cut and the virus moves one step toward its nearest gate,
 * until it stands on a gate or can no longer reach one.
 */
module VirusSolve {
  import opened Wrappers
  import opened VirusGraph
  import opened VirusSearch
  import opened VirusCut

  /** One turn of the game: the graph and the virus's node before it, the corridor cut, the graph after, and the virus's move. */
  datatype Turn = Turn(before: Graph, virus: char, cut: Option<Corridor>, after: Graph, next: Option<char>)

  /**
   * What one turn does. When gates touch the virus, the corridor from the
   * least of them to the virus is cut and the virus moves on the cut graph.
   * Otherwise the virus's move is taken on the uncut graph; when it has one,
   * the corridor chosen on the virus's gate-search path is cut. The virus
   * moves along a corridor that survives the cut, toward a gate reachable on
   * the graph its move was computed on: the cut graph when a danger gate was
   * cut, the uncut graph otherwise. It stays put exactly when it stands on a
   * gate or can reach none on that graph.
   */
  ghost predicate Obeys(gates: set<char>, t: Turn) {
    var danger := DangerGates(t.before, gates, t.virus);
    var moveGraph := if danger != [] then t.after else t.before;
    && Symmetric(t.before)
    && (danger != [] ==> t.cut == Some((danger[0], t.virus)))
    && (danger == [] && t.cut.Some? ==>
          exists p :: PathToGate(t.before, gates, t.virus, p) && t.cut == ChooseCut(t.before, gates, p))
    && (t.cut.Some? ==> t.cut.value.0 in gates && t.cut.value.1 in Adj(t.before, t.cut.value.0)
                        && t.after == Cut(t.before, t.cut.value.0, t.cut.value.1))
    && (t.cut.None? ==> t.after == t.before)
    && Symmetric(t.after)
    && (t.next.None? <==> (t.virus in gates || !GateReachable(moveGraph, gates, t.virus)))
    && (t.next.None? ==> (t.virus in gates || !GateReachable(t.after, gates, t.virus)))
    && (t.next.Some? ==> && t.cut.Some? && t.next.value in Adj(t.after, t.virus)
                         && t.next.value in Adj(moveGraph, t.virus) && GateReachable(moveGraph, gates, t.next.value))
  }

  /** One turn on graph `g` with the virus at `v`. */
  method Round(g: Graph, gates: set<char>, v: char) returns (cut: Option<Corridor>, g': Graph, next: Option<char>)
    requires Symmetric(g)
    ensures Obeys(gates, Turn(g, v, cut, g', next))
  {
    var danger := DangerGates(g, gates, v);
    if danger != [] {
      var gate := danger[0];
      assert gate in danger;
      cut := Some((gate, v));
      g' := Cut(g, gate, v);
      CutKeepsSymmetric(g, gate, v);
      next := NextMove(g', gates, v);
    } else {
      cut, g' := None, g;
      next := NextMove(g, gates, v);
      if next.None? {
        return;
      }
      cut := GateToCut(g, gates, v);
      if cut.Some? {
        var (gate, node) := cut.value;
        assert next.value !in gates;
        g' := Cut(g, gate, node);
        CutKeepsSymmetric(g, gate, node);
      }
    }
  }

  /**
   * The adjacency is the input corridors minus the cut ones; each cut is a
   * (gate, node) pair of an input corridor; no corridor is cut twice, in either
   * direction.
   */
  ghost predicate CutsRecorded(corridors: seq<Corridor>, gates: set<char>, g: Graph, cuts: seq<Corridor>) {
    && (forall x, y {:trigger y in Adj(g, x)} :: y in Adj(g, x) <==>
          ((x, y) in corridors || (y, x) in corridors) && (x, y) !in cuts && (y, x) !in cuts)
    && (forall i :: 0 <= i < |cuts| ==>
          cuts[i].0 in gates && (cuts[i] in corridors || (cuts[i].1, cuts[i].0) in corridors))
    && (forall i, j :: 0 <= i < j < |cuts| ==> cuts[i] != cuts[j] && cuts[i] != (cuts[j].1, cuts[j].0))
  }

  lemma RecordCut(corridors: seq<Corridor>, gates: set<char>, g: Graph, cuts: seq<Corridor>, c: Corridor)
    requires CutsRecorded(corridors, gates, g, cuts)
    requires c.0 in gates && c.1 in Adj(g, c.0)
    ensures CutsRecorded(corridors, gates, Cut(g, c.0, c.1), cuts + [c])
  {
    var cuts' := cuts + [c];
    forall i, j | 0 <= i < j < |cuts'| ensures cuts'[i] != cuts'[j] && cuts'[i] != (cuts'[j].1, cuts'[j].0) {
      if j == |cuts| {
        assert cuts'[i] in cuts;
      } else {
        assert cuts'[i] == cuts[i] && cuts'[j] == cuts[j];
      }
    }
  }

  /** A corridor cut or none, as a list of one or zero corridors. */
  function CutList(cut: Option<Corridor>): seq<Corridor> {
    if cut.Some? then [cut.value] else []
  }

  /** The corridors cut over a sequence of turns, in order. */
  function CutsOf(turns: seq<Turn>): (cuts: seq<Corridor>)
    ensures |cuts| <= |turns|
  {
    if turns == [] then []
    else
      var last := turns[|turns| - 1];
      CutsOf(turns[..|turns| - 1]) + CutList(last.cut)
  }

  /**
   * A game played from the corridors: it starts on the graph they build with
   * the virus at 'a', every turn obeys the rules, and each turn starts on the
   * graph the one before it left, at the node the virus moved to.
   */
  ghost predicate Chained(corridors: seq<Corridor>, gates: set<char>, turns: seq<Turn>) {
    && turns != [] && turns[0].virus == 'a' && Links(turns[0].before, corridors)
    && (forall t :: t in turns ==> Obeys(gates, t))
    && Consecutive(turns)
  }

  /** Each turn starts on the graph the one before it left, at the node the virus moved to. */
  ghost predicate Consecutive(turns: seq<Turn>) {
    forall i :: 0 <= i < |turns| - 1 ==> turns[i].next == Some(turns[i + 1].virus) && turns[i + 1].before == turns[i].after
  }

  /** The turns so far leave the game on graph `g` with the virus at `v`. */
  ghost predicate Played(corridors: seq<Corridor>, gates: set<char>, turns: seq<Turn>, g: Graph, v: char) {
    if turns == [] then Links(g, corridors) && v == 'a'
    else Chained(corridors, gates, turns) && turns[|turns| - 1].after == g && turns[|turns| - 1].next == Some(v)
  }

  /** One more turn adds its cut, if any, to the end of the cuts. */
  lemma CutsOfPush(turns: seq<Turn>, t: Turn)
    ensures CutsOf(turns + [t]) == CutsOf(turns) + CutList(t.cut)
  {
    assert (turns + [t])[..|turns|] == turns;
  }

  /** A turn that starts where the last one ended keeps the turns consecutive. */
  lemma ConsecutivePush(turns: seq<Turn>, t: Turn)
    requires Consecutive(turns)
    requires turns != [] ==> turns[|turns| - 1].next == Some(t.virus) && t.before == turns[|turns| - 1].after
    ensures Consecutive(turns + [t])
  {
    var turns' := turns + [t];
    forall i | 0 <= i < |turns'| - 1 ensures turns'[i].next == Some(turns'[i + 1].virus) && turns'[i + 1].before == turns'[i].after {
      assert turns'[i] == turns[i];
    }
  }

  /** A turn that obeys the rules and starts where the game stands extends a chained game. */
  lemma PlayTurn(corridors: seq<Corridor>, gates: set<char>, turns: seq<Turn>, g: Graph, v: char, t: Turn)
    requires Played(corridors, gates, turns, g, v) && t.before == g && t.virus == v && Obeys(gates, t)
    ensures Chained(corridors, gates, turns + [t])
  {
    ConsecutivePush(turns, t);
    assert (turns + [t])[0] == if turns == [] then t else turns[0];
  }

  /** The game so far: the turns played, the corridors cut, the graph left and the virus's node. */
  ghost predicate Game(corridors: seq<Corridor>, gates: set<char>, turns: seq<Turn>, cuts: seq<Corridor>, g: Graph, v: char) {
    && Symmetric(g)
    && CutsRecorded(corridors, gates, g, cuts)
    && Played(corridors, gates, turns, g, v)
    && cuts == CutsOf(turns)
  }

  /**
   * The game is over: the turns chain from the start and every one obeys the
   * rules; the last one leaves the virus on a gate or unable to reach one; the
   * cuts are those of the turns, in order, and the graph left is the input
   * corridors minus the cut ones.
   */
  ghost predicate Over(corridors: seq<Corridor>, gates: set<char>, turns: seq<Turn>, cuts: seq<Corridor>) {
    && Chained(corridors, gates, turns)
    && var last := turns[|turns| - 1];
       && last.next.None?
       && (last.virus in gates || !GateReachable(last.after, gates, last.virus))
       && cuts == CutsOf(turns)
       && CutsRecorded(corridors, gates, last.after, cuts)
  }

  /** Playing one more turn that obeys the rules either continues the game on fewer corridors or ends it. */
  lemma GameStep(corridors: seq<Corridor>, gates: set<char>, turns: seq<Turn>, cuts: seq<Corridor>, t: Turn)
    requires Game(corridors, gates, turns, cuts, t.before, t.virus) && Obeys(gates, t)
    ensures t.next.Some? ==> t.cut.Some? && |EdgeSet(t.after)| < |EdgeSet(t.before)|
    ensures t.next.Some? ==> Game(corridors, gates, turns + [t], cuts + CutList(t.cut), t.after, t.next.value)
    ensures t.next.None? ==> Over(corridors, gates, turns + [t], cuts + CutList(t.cut))
  {
    PlayTurn(corridors, gates, turns, t.before, t.virus, t);
    CutsOfPush(turns, t);
    assert (turns + [t])[|turns|] == t;
    if t.cut.Some? {
      CutShrinks(t.before, t.cut.value.0, t.cut.value.1);
      RecordCut(corridors, gates, t.before, cuts, t.cut.value);
      assert CutsRecorded(corridors, gates, t.after, cuts + CutList(t.cut));
    } else {
      assert cuts + CutList(t.cut) == cuts;
    }
  }

  /**
   * The whole game on the corridors read from the input. Returns the cut
   * corridors as (gate, node) pairs in the order they were cut, and a ghost
   * log of the turns played: the log starts at 'a' on the input graph, every
   * turn in it obeys the rules, consecutive turns meet, the last one leaves
   * the virus on a gate or cut off from all of them, and the cuts returned
   * are exactly the log's.
   */
  method Solve(corridors: seq<Corridor>) returns (cuts: seq<Corridor>, ghost turns: seq<Turn>)
    ensures forall i :: 0 <= i < |cuts| ==>
              cuts[i].0 in CorridorGates(corridors) && (cuts[i] in corridors || (cuts[i].1, cuts[i].0) in corridors)
    ensures forall i, j :: 0 <= i < j < |cuts| ==> cuts[i] != cuts[j] && cuts[i] != (cuts[j].1, cuts[j].0)
    ensures Over(corridors, CorridorGates(corridors), turns, cuts)
  {
    var g, gates := BuildGraph(corridors);
    BuiltIsSymmetric(corridors, g);
    var v := 'a';
    cuts, turns := [], [];
    while true
      invariant Game(corridors, gates, turns, cuts, g, v)
      decreases |EdgeSet(g)|
    {
      var cut, g', next := Round(g, gates, v);
      ghost var t := Turn(g, v, cut, g', next);
      GameStep(corridors, gates, turns, cuts, t);
      cuts := cuts + CutList(cut);
      turns := turns + [t];
      g := g';
      if next.None? {
        return;
      }
      v := next.value;
    }
  }
}
