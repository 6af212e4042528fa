/** The Ford-Fulkerson exploit, a flow network with one heavy source, and the max-flow and
    min-cut classes that sit next to it in the source. Those delegate to Kruskal, not to
    Ford-Fulkerson. */
module Flow {
  import opened Outcomes
  import opened PyBuiltins
  import opened Generators
  import opened Chains
  import SpanningTree

  type Network = map<int, set<(int, int)>>

  /** The nodes strictly between the source and the last node. */
  function Middle(nodes: seq<int>): seq<int> {
    if |nodes| <= 2 then [] else nodes[1..|nodes| - 1]
  }

  /** An edge of capacity `w` to every node of `vs`. */
  function Edges(vs: seq<int>, w: int): set<(int, int)> {
    set v | v in vs :: (v, w)
  }

  lemma EdgeIn(vs: seq<int>, i: int, w: int)
    requires 0 <= i < |vs|
    ensures (vs[i], w) in Edges(vs, w)
  {
    var v := vs[i];
    assert v in vs;
    assert (v, w) in (set u | u in vs :: (u, w));
  }

  lemma EdgesAppend(vs: seq<int>, x: int, w: int)
    ensures Edges(vs + [x], w) == Edges(vs, w) + {(x, w)}
  {
    assert forall v :: v in vs + [x] <==> v in vs || v == x;
  }

  /** Capacity-1 edges to every middle node. */
  function LightEdges(nodes: seq<int>): set<(int, int)> {
    Edges(Middle(nodes), 1)
  }

  /** Edges of capacity `heavy` to every node, the source itself included. */
  function HeavyEdges(nodes: seq<int>, heavy: int): set<(int, int)> {
    Edges(nodes, heavy)
  }

  /** The dictionary lines 38-44 build: every middle node maps to the light edges, and then
      the source nodes[0] is (re)assigned the heavy edges. */
  function FlowNetwork(nodes: seq<int>, heavy: int): Network
    requires |nodes| >= 1
  {
    (map v | v in Middle(nodes) :: LightEdges(nodes))[nodes[0] := HeavyEdges(nodes, heavy)]
  }

  /** The edges to `vs` are exactly one per position of `vs`. */
  lemma EdgesMembers(vs: seq<int>, w: int)
    ensures forall e :: e in Edges(vs, w) <==> exists i :: 0 <= i < |vs| && e == (vs[i], w)
  {
    forall e | e in Edges(vs, w) ensures exists i :: 0 <= i < |vs| && e == (vs[i], w) {
      var v :| v in vs && e == (v, w);
      var i :| 0 <= i < |vs| && vs[i] == v;
    }
    forall i | 0 <= i < |vs| ensures (vs[i], w) in Edges(vs, w) {
      EdgeIn(vs, i, w);
    }
  }

  /** The source maps to exactly {(nodes[i], heavy) | 0 <= i < n}, itself included. */
  lemma FlowSource(nodes: seq<int>, heavy: int)
    requires |nodes| >= 1
    ensures nodes[0] in FlowNetwork(nodes, heavy)
    ensures forall e :: e in FlowNetwork(nodes, heavy)[nodes[0]] <==> exists i :: 0 <= i < |nodes| && e == (nodes[i], heavy)
    ensures (nodes[0], heavy) in FlowNetwork(nodes, heavy)[nodes[0]]
  {
    EdgesMembers(nodes, heavy);
  }

  /** With distinct nodes each middle node maps to {(nodes[j], 1) | 1 <= j <= n - 2}. */
  lemma FlowMiddle(nodes: seq<int>, heavy: int)
    requires |nodes| >= 1 && Distinct(nodes)
    ensures forall i :: 1 <= i < |nodes| - 1 ==>
      && nodes[i] in FlowNetwork(nodes, heavy)
      && forall e :: e in FlowNetwork(nodes, heavy)[nodes[i]] <==> exists j :: 1 <= j < |nodes| - 1 && e == (nodes[j], 1)
  {
    var G := FlowNetwork(nodes, heavy);
    var mid := Middle(nodes);
    EdgesMembers(mid, 1);
    forall e | e in Edges(mid, 1) ensures exists j :: 1 <= j < |nodes| - 1 && e == (nodes[j], 1) {
      var t :| 0 <= t < |mid| && e == (mid[t], 1);
      assert nodes[t + 1] == mid[t];
    }
    forall j | 1 <= j < |nodes| - 1 ensures (nodes[j], 1) in Edges(mid, 1) {
      assert mid[j - 1] == nodes[j];
    }
    forall i | 1 <= i < |nodes| - 1
      ensures nodes[i] in G && G[nodes[i]] == Edges(mid, 1)
    {
      assert nodes[i] != nodes[0];
      assert nodes[i] == mid[i - 1];
    }
  }

  /** With distinct nodes and n >= 2 the last node is not a key, and the keys are exactly
      nodes[0..n-2]. */
  lemma FlowKeys(nodes: seq<int>, heavy: int)
    requires |nodes| >= 1 && Distinct(nodes)
    ensures |nodes| >= 2 ==> nodes[|nodes| - 1] !in FlowNetwork(nodes, heavy)
    ensures FlowNetwork(nodes, heavy).Keys == Elements(nodes[..Count(|nodes| - 1)]) + {nodes[0]}
  {
    var G := FlowNetwork(nodes, heavy);
    var mid := Middle(nodes);
    if |nodes| >= 2 {
      var last := nodes[|nodes| - 1];
      assert last != nodes[0];
      forall t | 0 <= t < |mid| ensures mid[t] != last {
        assert mid[t] == nodes[t + 1];
      }
    }
    forall v | v in Elements(nodes[..Count(|nodes| - 1)]) ensures v in G {
      var t :| 0 <= t < |nodes| - 1 && nodes[t] == v;
      if t > 0 {
        assert mid[t - 1] == v;
      }
    }
    forall v | v in G ensures v in Elements(nodes[..Count(|nodes| - 1)]) + {nodes[0]} {
      if v != nodes[0] {
        var t :| 0 <= t < |mid| && mid[t] == v;
        assert nodes[..Count(|nodes| - 1)][t + 1] == v;
      }
    }
  }

  /** The source maps to exactly {(nodes[i], heavy) | 0 <= i < n}, itself included; each
      middle node maps to {(nodes[j], 1) | 1 <= j <= n - 2}; when the nodes are distinct and
      n >= 2 the last node is not a key, and the keys are exactly nodes[0..n-2]. */
  lemma FlowNetworkShape(nodes: seq<int>, heavy: int)
    requires |nodes| >= 1
    ensures var G := FlowNetwork(nodes, heavy);
      && nodes[0] in G
      && (forall e :: e in G[nodes[0]] <==> exists i :: 0 <= i < |nodes| && e == (nodes[i], heavy))
      && (nodes[0], heavy) in G[nodes[0]]
    ensures var G := FlowNetwork(nodes, heavy);
      Distinct(nodes) ==>
        && (forall i :: 1 <= i < |nodes| - 1 ==>
              nodes[i] in G && forall e :: e in G[nodes[i]] <==> exists j :: 1 <= j < |nodes| - 1 && e == (nodes[j], 1))
        && (|nodes| >= 2 ==> nodes[|nodes| - 1] !in G)
        && G.Keys == Elements(nodes[..Count(|nodes| - 1)]) + {nodes[0]}
  {
    FlowSource(nodes, heavy);
    if Distinct(nodes) {
      FlowMiddle(nodes, heavy);
      FlowKeys(nodes, heavy);
    }
  }

  /** The nodes Ford-Fulkerson generates from query number `k`: 0 and then n - 1 successive
      get_greater_than answers (an n-th query is asked and its answer dropped). */
  function FlowNodes(g: Generator<int>, k: nat, n: int): (nodes: seq<int>)
    ensures |nodes| == Count(n)
    ensures n >= 1 ==> nodes[0] == 0
  {
    Chain(g.above, k, 0, Count(n))[..Count(n)]
  }

  /** When get_greater_than rises the generated nodes are distinct, so the network has the
      shape stated by FlowNetworkShape. */
  lemma FlowNodesDistinct(g: Generator<int>, k: nat, n: int)
    requires g.Rises()
    ensures Distinct(FlowNodes(g, k, n))
  {
    var c := Chain(g.above, k, 0, Count(n));
    ChainRises(g, k, 0, Count(n));
    var nodes := FlowNodes(g, k, n);
    forall i, j | 0 <= i < j < |nodes| ensures nodes[i] != nodes[j] {
      assert nodes[i] == c[i] && nodes[j] == c[j];
    }
  }

  /** Lines 38-41: every middle node is given the set of light edges. */
  method LightCore(nodes: seq<int>, n: int) returns (G: Network)
    requires |nodes| == Count(n)
    ensures G == map v | v in Middle(nodes) :: LightEdges(nodes)
  {
    G := map[];
    var i := 1;
    assert G == LightUpTo(nodes, i);
    while i < n - 1
      invariant n <= 2 ==> i == 1
      invariant n > 2 ==> 1 <= i <= n - 1
      invariant G == LightUpTo(nodes, i)
    {
      LightUpToStep(nodes, i);
      G := LinkMiddle(G, nodes, n, nodes[i]);
      i := i + 1;
    }
    if n > 2 {
      assert nodes[1..i] == Middle(nodes);
    }
  }

  /** The middle nodes before position `i` mapped to the light edges. */
  ghost function LightUpTo(nodes: seq<int>, i: int): Network {
    if 1 <= i <= |nodes| then map v | v in nodes[1..i] :: LightEdges(nodes) else map[]
  }

  lemma LightUpToStep(nodes: seq<int>, i: int)
    requires 1 <= i < |nodes|
    ensures LightUpTo(nodes, i + 1) == LightUpTo(nodes, i)[nodes[i] := LightEdges(nodes)]
  {
    assert nodes[1..i + 1] == nodes[1..i] + [nodes[i]];
  }

  /** Lines 39-41, for one node: `node` is (re)assigned a capacity-1 edge to every middle
      node, one at a time. */
  method LinkMiddle(G0: Network, nodes: seq<int>, n: int, node: int) returns (G: Network)
    requires |nodes| == Count(n)
    ensures G == G0[node := LightEdges(nodes)]
  {
    var light := 1;
    G := G0[node := {}];
    var j := 1;
    if n > 2 {
      assert Edges(nodes[1..1], light) == {};
    }
    while j < n - 1
      invariant n > 2 ==> 1 <= j <= n - 1
      invariant n <= 2 ==> j == 1
      invariant G == G0[node := if n > 2 then Edges(nodes[1..j], light) else {}]
    {
      assert nodes[1..j + 1] == nodes[1..j] + [nodes[j]];
      EdgesAppend(nodes[1..j], nodes[j], light);
      G := G[node := G[node] + {(nodes[j], light)}];
      j := j + 1;
    }
    if n > 2 {
      assert nodes[1..j] == Middle(nodes);
    } else {
      assert LightEdges(nodes) == {};
    }
  }

  /** Lines 42-44: the source is (re)assigned an edge of capacity `heavy` to every node. */
  method HeavySource(G0: Network, nodes: seq<int>, heavy: int) returns (G: Network)
    requires |nodes| >= 1
    ensures G == G0[nodes[0] := HeavyEdges(nodes, heavy)]
  {
    var source := nodes[0];
    G := G0[source := {}];
    var i := 0;
    assert Edges(nodes[..i], heavy) == {};
    while i < |nodes|
      invariant 0 <= i <= |nodes|
      invariant G == G0[source := Edges(nodes[..i], heavy)]
    {
      assert nodes[..i + 1] == nodes[..i] + [nodes[i]];
      EdgesAppend(nodes[..i], nodes[i], heavy);
      G := G[source := G[source] + {(nodes[i], heavy)}];
      i := i + 1;
    }
    assert nodes[..i] == nodes;
  }

  /** Lines 28-47. With n <= 0 the list of nodes is empty and `possible_nodes[0]` at line 42
      raises IndexError. The explanatory print at line 46 is not modelled. */
  method FordFulkerson(g: Generator<int>, n: int) returns (r: Result<Network>)
    modifies g
    ensures g.queries == old(g.queries) + Count(n)
    ensures n <= 0 ==> r == Err(IndexError)
    ensures n >= 1 ==> r == Ok(FlowNetwork(FlowNodes(g, old(g.queries), n), g.maxValue))
  {
    var heavy := g.GetMaxValue();
    var nodes := ClimbNodes(g, 0, n);
    var G := LightCore(nodes, n);
    if |nodes| == 0 {
      return Err(IndexError);
    }
    G := HeavySource(G, nodes, heavy);
    r := Ok(G);
  }

  method PushRelabel<V(==, !new)>(g: Generator<V>, n: int) returns (r: Result<string>)
    modifies g
    ensures r == if n >= 1 then Err(TypeError) else Ok("")
    ensures g.queries == old(g.queries) + 1 + Count(n)
  {
    r := SpanningTree.Kruskal(g, n);
  }

  method Dinic<V(==, !new)>(g: Generator<V>, n: int) returns (r: Result<string>)
    modifies g
    ensures r == if n >= 1 then Err(TypeError) else Ok("")
    ensures g.queries == old(g.queries) + 1 + Count(n)
  {
    r := SpanningTree.Kruskal(g, n);
  }

  method EdmondsKarp<V(==, !new)>(g: Generator<V>, n: int) returns (r: Result<string>)
    modifies g
    ensures r == if n >= 1 then Err(TypeError) else Ok("")
    ensures g.queries == old(g.queries) + 1 + Count(n)
  {
    r := SpanningTree.Kruskal(g, n);
  }

  method Karger<V(==, !new)>(g: Generator<V>, n: int) returns (r: Result<string>)
    modifies g
    ensures r == if n >= 1 then Err(TypeError) else Ok("")
    ensures g.queries == old(g.queries) + 1 + Count(n)
  {
    r := SpanningTree.Kruskal(g, n);
  }
}
