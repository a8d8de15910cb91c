/**
 * The corridor network of the virus-isolation puzzle: an undirected graph on
 * single-character node names, held as a map from a node to its neighbour set.
 * Upper-case names are gates. A node missing from the map has no neighbours,
 * as in a dictionary that defaults to an empty set.
 */
module VirusGraph {

  type Graph = map<char, set<char>>

  /** A corridor as read from the input: its two endpoint names. */
  type Corridor = (char, char)

  predicate IsGate(c: char) {
    'A' <= c <= 'Z'
  }

  function Adj(g: Graph, x: char): set<char> {
    if x in g then g[x] else {}
  }

  predicate Symmetric(g: Graph) {
    forall x, y {:trigger y in Adj(g, x)} :: y in Adj(g, x) ==> x in Adj(g, y)
  }

  /** Every node named in the graph, as a key or as a neighbour. */
  function Nodes(g: Graph): set<char> {
    g.Keys + (set x, y | x in g && y in g[x] :: y)
  }

  lemma AdjInNodes(g: Graph, x: char)
    ensures Adj(g, x) <= Nodes(g)
  {
    forall y | y in Adj(g, x) ensures y in Nodes(g) {
      assert x in g && y in g[x];
    }
  }

  /** The directed pairs (x, y) with y a neighbour of x. */
  function EdgeSet(g: Graph): set<Corridor> {
    set x, y | x in g && y in g[x] :: (x, y)
  }

  /** The gates among the corridors' endpoints. */
  function CorridorGates(corridors: seq<Corridor>): set<char> {
    (set c | c in corridors && IsGate(c.0) :: c.0) + (set c | c in corridors && IsGate(c.1) :: c.1)
  }

  /** `p` is a non-empty walk: each node is a neighbour of the one before it. */
  predicate IsWalk(g: Graph, p: seq<char>) {
    |p| >= 1 && forall i :: 0 <= i < |p| - 1 ==> p[i + 1] in Adj(g, p[i])
  }

  predicate WalkFrom(g: Graph, p: seq<char>, s: char, t: char) {
    IsWalk(g, p) && p[0] == s && p[|p| - 1] == t
  }

  ghost predicate Reachable(g: Graph, s: char, t: char) {
    exists p :: WalkFrom(g, p, s, t)
  }

  /** Some gate of `gates` can be reached from `s` (possibly `s` itself). */
  ghost predicate GateReachable(g: Graph, gates: set<char>, s: char) {
    exists t :: t in gates && Reachable(g, s, t)
  }

  /** A walk from `s` that passes no gate before its last node. */
  predicate GateFreeWalk(g: Graph, gates: set<char>, s: char, p: seq<char>) {
    IsWalk(g, p) && p[0] == s && forall i :: 0 <= i < |p| - 1 ==> p[i] !in gates
  }

  lemma WalkSingle(g: Graph, s: char)
    ensures WalkFrom(g, [s], s, s) && Reachable(g, s, s)
  {
    assert WalkFrom(g, [s], s, s);
  }

  lemma WalkExtend(g: Graph, p: seq<char>, y: char)
    requires IsWalk(g, p) && y in Adj(g, p[|p| - 1])
    ensures IsWalk(g, p + [y])
  {
    var q := p + [y];
    forall i | 0 <= i < |q| - 1 ensures q[i + 1] in Adj(g, q[i]) {
      if i < |p| - 1 {
        assert q[i] == p[i] && q[i + 1] == p[i + 1];
      }
    }
  }

  /** A walk that starts inside a neighbour-closed set never leaves it. */
  lemma {:induction false} WalkStaysIn(g: Graph, inside: set<char>, p: seq<char>)
    requires IsWalk(g, p) && p[0] in inside
    requires forall x :: x in inside ==> Adj(g, x) <= inside
    ensures forall i :: 0 <= i < |p| ==> p[i] in inside
    decreases |p|
  {
    if |p| > 1 {
      var front := p[..|p| - 1];
      assert IsWalk(g, front) by {
        forall i | 0 <= i < |front| - 1 ensures front[i + 1] in Adj(g, front[i]) {
          assert front[i] == p[i] && front[i + 1] == p[i + 1];
        }
      }
      WalkStaysIn(g, inside, front);
      assert p[|p| - 2] == front[|front| - 1];
      assert p[|p| - 1] in Adj(g, p[|p| - 2]);
      forall i | 0 <= i < |p| ensures p[i] in inside {
        if i < |p| - 1 {
          assert p[i] == front[i];
        }
      }
    }
  }

  /**
   * The least name in a non-empty set. Lexicographic order on single-character
   * names is the order of the characters.
   */
  function Least(s: set<char>): (m: char)
    requires s != {}
    ensures m in s && forall x :: x in s ==> m <= x
  {
    LeastExists(s);
    var m :| m in s && forall x :: x in s ==> m <= x; m
  }

  lemma {:induction false} LeastExists(s: set<char>)
    requires s != {}
    ensures exists m :: m in s && forall x :: x in s ==> m <= x
    decreases |s|
  {
    var y :| y in s;
    if s != {y} {
      LeastExists(s - {y});
      var m :| m in s - {y} && forall x :: x in s - {y} ==> m <= x;
      var w := if y < m then y else m;
      forall x | x in s ensures w <= x {
        if x != y {
          assert x in s - {y};
        }
      }
    } else {
      assert forall x :: x in s ==> y <= x;
    }
  }

  predicate StrictlyAscending(s: seq<char>) {
    forall i, j :: 0 <= i < j < |s| ==> s[i] < s[j]
  }

  /** The elements of a set in ascending order. */
  function SortedSet(s: set<char>): (r: seq<char>)
    ensures forall x :: x in r <==> x in s
    ensures |r| == |s|
    decreases |s|
  {
    if s == {} then []
    else
      var m := Least(s);
      [m] + SortedSet(s - {m})
  }

  lemma {:induction false} SortedSetAscending(s: set<char>)
    ensures StrictlyAscending(SortedSet(s))
    decreases |s|
  {
    if s != {} {
      var m := Least(s);
      var tail := SortedSet(s - {m});
      SortedSetAscending(s - {m});
      var r := [m] + tail;
      forall i, j | 0 <= i < j < |r| ensures r[i] < r[j] {
        assert r[j] == tail[j - 1] && tail[j - 1] in s - {m};
        if i > 0 {
          assert r[i] == tail[i - 1];
        }
      }
    }
  }

  /**
   * The adjacency of the corridors read one by one: each corridor adds both of
   * its endpoints to each other's neighbour set, and each upper-case endpoint
   * to the gate set.
   */
  method BuildGraph(corridors: seq<Corridor>) returns (g: Graph, gates: set<char>)
    ensures forall x, y {:trigger y in Adj(g, x)} :: y in Adj(g, x) <==> (x, y) in corridors || (y, x) in corridors
    ensures gates == CorridorGates(corridors)
  {
    g, gates := map[], {};
    var i := 0;
    while i < |corridors|
      invariant 0 <= i <= |corridors|
      invariant HoldsCorridors(g, gates, corridors[..i])
    {
      var (u, v) := corridors[i];
      ghost var read, g0, gates0 := corridors[..i], g, gates;
      assert corridors[..i + 1] == read + [(u, v)];
      g := g[u := Adj(g, u) + {v}];
      ghost var g1 := g;
      g := g[v := Adj(g, v) + {u}];
      if IsGate(u) {
        gates := gates + {u};
      }
      if IsGate(v) {
        gates := gates + {v};
      }
      assert gates == gates0 + EndGates((u, v));
      AddCorridor(g0, gates0, read, u, v, g1, g, gates);
      i := i + 1;
    }
    assert corridors[..i] == corridors;
  }

  /** The upper-case endpoints of one corridor. */
  function EndGates(c: Corridor): set<char> {
    (if IsGate(c.0) then {c.0} else {}) + (if IsGate(c.1) then {c.1} else {})
  }

  /** The adjacency holds exactly the corridors read, in both directions. */
  ghost predicate Links(g: Graph, read: seq<Corridor>) {
    forall x, y {:trigger y in Adj(g, x)} :: y in Adj(g, x) <==> (x, y) in read || (y, x) in read
  }

  /** The adjacency holds exactly the corridors read and `gates` their gate endpoints. */
  ghost predicate HoldsCorridors(g: Graph, gates: set<char>, read: seq<Corridor>) {
    Links(g, read) && gates == CorridorGates(read)
  }

  /** Reading one more corridor into `g` and `gates` (through the intermediate `h`) gives `g'` and `gates'`. */
  lemma AddCorridor(g: Graph, gates: set<char>, read: seq<Corridor>, u: char, v: char,
                    h: Graph, g': Graph, gates': set<char>)
    requires HoldsCorridors(g, gates, read)
    requires h == g[u := Adj(g, u) + {v}] && g' == h[v := Adj(h, v) + {u}]
    requires gates' == gates + EndGates((u, v))
    ensures HoldsCorridors(g', gates', read + [(u, v)])
  {
    AddLink(g, read, u, v, h, g');
    CorridorGatesAppend(read, (u, v));
  }

  lemma AddLink(g: Graph, read: seq<Corridor>, u: char, v: char, h: Graph, h': Graph)
    requires Links(g, read)
    requires h == g[u := Adj(g, u) + {v}] && h' == h[v := Adj(h, v) + {u}]
    ensures Links(h', read + [(u, v)])
  {
    var read' := read + [(u, v)];
    forall x, y ensures y in Adj(h', x) <==> (x, y) in read' || (y, x) in read' {
      assert Adj(h, x) == if x == u then Adj(g, u) + {v} else Adj(g, x);
      assert Adj(h', x) == if x == v then Adj(h, v) + {u} else Adj(h, x);
      assert (x, y) in read' <==> (x, y) in read || (x, y) == (u, v);
      assert (y, x) in read' <==> (y, x) in read || (y, x) == (u, v);
    }
  }

  lemma CorridorGatesAppend(read: seq<Corridor>, c: Corridor)
    ensures CorridorGates(read + [c]) == CorridorGates(read) + EndGates(c)
  {
    var both := read + [c];
    forall x | x in CorridorGates(both) ensures x in CorridorGates(read) + EndGates(c) {
      var e :| e in both && IsGate(x) && (x == e.0 || x == e.1);
      if e != c {
        assert e in read;
      }
    }
  }

  /** An adjacency read from undirected corridors is symmetric. */
  lemma BuiltIsSymmetric(corridors: seq<Corridor>, g: Graph)
    requires forall x, y {:trigger y in Adj(g, x)} :: y in Adj(g, x) <==> (x, y) in corridors || (y, x) in corridors
    ensures Symmetric(g)
  {
  }

  /** The graph after removing the corridor between `a` and `b` from both neighbour sets. */
  function Cut(g: Graph, a: char, b: char): (h: Graph)
    ensures forall x, y {:trigger y in Adj(h, x)} :: y in Adj(h, x) <==> y in Adj(g, x) && (x, y) != (a, b) && (x, y) != (b, a)
  {
    var h := g[a := Adj(g, a) - {b}];
    h[b := Adj(h, b) - {a}]
  }

  lemma CutKeepsSymmetric(g: Graph, a: char, b: char)
    requires Symmetric(g)
    ensures Symmetric(Cut(g, a, b))
  {
  }

  /** Removing an existing corridor leaves strictly fewer directed pairs. */
  lemma CutShrinks(g: Graph, a: char, b: char)
    requires b in Adj(g, a)
    ensures EdgeSet(Cut(g, a, b)) < EdgeSet(g)
    ensures |EdgeSet(Cut(g, a, b))| < |EdgeSet(g)|
  {
    var h := Cut(g, a, b);
    forall e | e in EdgeSet(h) ensures e in EdgeSet(g) {
      assert e.1 in Adj(h, e.0);
    }
    var gone := EdgeSet(g) - EdgeSet(h);
    assert (a, b) in EdgeSet(g);
    assert b !in Adj(h, a);
    assert (a, b) in gone;
    assert EdgeSet(g) == EdgeSet(h) + gone;
    assert EdgeSet(h) * gone == {};
  }
}
