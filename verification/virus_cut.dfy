/**
 * Which corridor to cut: a gate the virus touches right now, or else the
 * corridor into the first gate on the virus's breadth-first path.
 */
module VirusCut {
  import opened Wrappers
  import opened VirusGraph
  import opened VirusSearch

  /** The entries of `order` adjacent to `v`, in their original order. */
  function KeepAdjacent(g: Graph, order: seq<char>, v: char): (kept: seq<char>)
    ensures forall x :: x in kept <==> x in order && v in Adj(g, x)
    ensures StrictlyAscending(order) ==> StrictlyAscending(kept)
  {
    if order == [] then []
    else
      var rest := KeepAdjacent(g, order[1..], v);
      if v in Adj(g, order[0]) then
        assert StrictlyAscending(order) ==> forall j :: 0 <= j < |rest| ==> order[0] < rest[j] by {
          if StrictlyAscending(order) {
            forall j | 0 <= j < |rest| ensures order[0] < rest[j] {
              assert rest[j] in rest;
              var m :| 0 <= m < |order[1..]| && order[1..][m] == rest[j];
              assert order[m + 1] == rest[j];
            }
          }
        }
        [order[0]] + rest
      else rest
  }

  /** The gates with a corridor to the virus's node, in ascending order. */
  function DangerGates(g: Graph, gates: set<char>, v: char): (danger: seq<char>)
    ensures StrictlyAscending(danger)
    ensures forall x :: x in danger <==> x in gates && v in Adj(g, x)
  {
    SortedSetAscending(gates);
    KeepAdjacent(g, SortedSet(gates), v)
  }

  /** The first danger gate is the least-named gate adjacent to the virus. */
  lemma FirstDangerIsLeast(g: Graph, gates: set<char>, v: char)
    requires DangerGates(g, gates, v) != []
    ensures (set x | x in gates && v in Adj(g, x)) != {}
    ensures DangerGates(g, gates, v)[0] == Least(set x | x in gates && v in Adj(g, x))
  {
    var danger := DangerGates(g, gates, v);
    var touching := set x | x in gates && v in Adj(g, x);
    assert danger[0] in touching;
    var m := Least(touching);
    assert m in danger;
    var k :| 0 <= k < |danger| && danger[k] == m;
  }

  /** The index of the first gate on `path` at `from` or later, or -1 when there is none. */
  function FirstGateIndex(path: seq<char>, gates: set<char>, from: nat): (i: int)
    requires from <= |path|
    ensures -1 <= i < |path|
    ensures i >= 0 ==> from <= i && path[i] in gates
    ensures forall k :: from <= k < (if i < 0 then |path| else i) ==> path[k] !in gates
    decreases |path| - from
  {
    if from == |path| then -1
    else if path[from] in gates then from
    else FirstGateIndex(path, gates, from + 1)
  }

  /**
   * The corridor to cut on a path: from the first gate on the path to the
   * least-named of that gate's neighbours that lie on the path. None when the
   * path holds no gate, or the gate has no neighbour on it.
   */
  function ChooseCut(g: Graph, gates: set<char>, path: seq<char>): (cut: Option<Corridor>)
    ensures cut.Some? ==> exists i :: 0 <= i < |path| && path[i] == cut.value.0 && path[i] in gates &&
                                      forall k :: 0 <= k < i ==> path[k] !in gates
    ensures cut.Some? ==> cut.value.1 in Adj(g, cut.value.0) && cut.value.1 in path
    ensures cut.Some? ==> forall n :: n in Adj(g, cut.value.0) && n in path ==> cut.value.1 <= n
    ensures cut.None? <==> var i := FirstGateIndex(path, gates, 0);
                           i < 0 || forall n :: n in Adj(g, path[i]) ==> n !in path
  {
    var i := FirstGateIndex(path, gates, 0);
    if i < 0 then None
    else
      var gate := path[i];
      var near := set n | n in Adj(g, gate) && n in path;
      assert forall n :: n in Adj(g, gate) && n in path ==> n in near;
      if near == {} then None else Some((gate, Least(near)))
  }

  /**
   * On the path the gate search returns from a node that is not a gate, and in a
   * symmetric graph, the cut exists and is at the path's last node.
   */
  lemma CutOnGatePath(g: Graph, gates: set<char>, start: char, p: seq<char>)
    requires Symmetric(g) && PathToGate(g, gates, start, p) && start !in gates
    ensures ChooseCut(g, gates, p).Some? && ChooseCut(g, gates, p).value.0 == p[|p| - 1]
  {
    var last := |p| - 1;
    assert last >= 1;
    var i := FirstGateIndex(p, gates, 0);
    assert i == last;
    assert p[last] in Adj(g, p[last - 1]);
    assert p[last - 1] in Adj(g, p[last]);
  }

  /**
   * The corridor to cut when no gate touches the virus: the chosen cut on the
   * gate search's path from the virus.
   */
  method GateToCut(g: Graph, gates: set<char>, cur: char) returns (cut: Option<Corridor>)
    ensures cut.Some? ==> exists p :: PathToGate(g, gates, cur, p) && cut == ChooseCut(g, gates, p)
    ensures cut.Some? ==> cut.value.0 in gates && cut.value.1 in Adj(g, cut.value.0)
    ensures !GateReachable(g, gates, cur) ==> cut.None?
    ensures Symmetric(g) && cur !in gates && GateReachable(g, gates, cur) ==> cut.Some?
  {
    var path := ShortestPathToGate(g, gates, cur);
    if path.None? {
      return None;
    }
    cut := ChooseCut(g, gates, path.value);
    if Symmetric(g) && cur !in gates {
      CutOnGatePath(g, gates, cur, path.value);
    }
  }
}
