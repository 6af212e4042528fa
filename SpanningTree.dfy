/** Kruskal's exploit, a complete graph with one uniform weight, and the minimum spanning
    tree classes that delegate to it. */
module SpanningTree {
  import opened Outcomes
  import opened PyBuiltins
  import opened Generators
  import opened Chains

  /** The list every Kruskal node is given: (node_j, weight) for every node, in order. */
  function Neighbours<V>(nodes: seq<V>, weight: int): (row: seq<(V, int)>)
    ensures |row| == |nodes|
    ensures forall j :: 0 <= j < |nodes| ==> row[j] == (nodes[j], weight)
  {
    seq(|nodes|, j requires 0 <= j < |nodes| => (nodes[j], weight))
  }

  /** Kruskal's adjacency: each node maps to the complete list of neighbours. */
  function UniformGraph<V>(nodes: seq<V>): map<V, seq<(V, int)>> {
    map x | x in nodes :: Neighbours(nodes, 1)
  }

  /** The nodes Kruskal generates from query number `k`: a get_random seed and then n - 1
      successive get_greater_than answers (one more query is asked and its answer dropped). */
  function KruskalNodes<V(!new)>(g: Generator<V>, k: nat, n: int): (nodes: seq<V>)
    ensures |nodes| == Count(n)
    ensures n >= 1 ==> nodes[0] == g.draw(k)
  {
    Chain(g.above, k + 1, g.draw(k), Count(n))[..Count(n)]
  }

  /** Every generated node maps to the list [(node_j, 1)] over all nodes in generation order;
      when get_greater_than rises the graph has exactly n keys. */
  lemma KruskalGraphShape<V(!new)>(g: Generator<V>, k: nat, n: int)
    ensures var nodes := KruskalNodes(g, k, n); var graph := UniformGraph(nodes);
      && graph.Keys == Elements(nodes)
      && (forall i, j :: 0 <= i < |nodes| && 0 <= j < |nodes| ==>
            nodes[i] in graph && |graph[nodes[i]]| == Count(n) && graph[nodes[i]][j] == (nodes[j], 1))
    ensures g.Rises() ==> |UniformGraph(KruskalNodes(g, k, n)).Keys| == Count(n)
  {
    var nodes := KruskalNodes(g, k, n);
    if g.Rises() {
      var c := Chain(g.above, k + 1, g.draw(k), Count(n));
      ChainRises(g, k + 1, g.draw(k), Count(n));
      assert Distinct(nodes) by {
        forall i, j | 0 <= i < j < |nodes| ensures nodes[i] != nodes[j] {
          assert nodes[i] == c[i] && nodes[j] == c[j];
        }
      }
      DistinctCard(nodes);
      assert UniformGraph(nodes).Keys == Elements(nodes);
    }
  }

  /** Lines 155-167: the node chain and the adjacency lists. The test at line 159 compares
      the type of a bound method with `int`, which never holds, so the seed is never reset. */
  method KruskalGraph<V(==, !new)>(g: Generator<V>, n: int) returns (nodes: seq<V>, graph: map<V, seq<(V, int)>>)
    modifies g
    ensures nodes == KruskalNodes(g, old(g.queries), n)
    ensures graph == UniformGraph(nodes)
    ensures g.queries == old(g.queries) + 1 + Count(n)
  {
    var seed := g.GetRandom();
    nodes := ClimbNodes(g, seed, n);
    ghost var q := g.queries;
    graph := map[];
    var i := 0;
    while i < n
      invariant 0 <= i <= Count(n)
      invariant graph == UniformUpTo(nodes, i)
      invariant g.queries == q
    {
      UniformUpToStep(nodes, i);
      graph := ListNeighbours(graph, nodes, n, nodes[i]);
      i := i + 1;
    }
    assert nodes[..i] == nodes;
    assert UniformUpTo(nodes, i) == UniformGraph(nodes);
  }

  /** The nodes before position `i` mapped to the complete neighbour list. */
  ghost function UniformUpTo<V>(nodes: seq<V>, i: int): map<V, seq<(V, int)>> {
    if 0 <= i <= |nodes| then map x | x in nodes[..i] :: Neighbours(nodes, 1) else map[]
  }

  lemma UniformUpToStep<V>(nodes: seq<V>, i: int)
    requires 0 <= i < |nodes|
    ensures UniformUpTo(nodes, i + 1) == UniformUpTo(nodes, i)[nodes[i] := Neighbours(nodes, 1)]
  {
    assert nodes[..i + 1] == nodes[..i] + [nodes[i]];
  }

  /** Lines 165-167, for one node: `node` is (re)assigned the list of (node_j, weight) over
      all nodes, built one append at a time. */
  method ListNeighbours<V>(graph0: map<V, seq<(V, int)>>, nodes: seq<V>, n: int, node: V)
    returns (graph: map<V, seq<(V, int)>>)
    requires |nodes| == Count(n)
    ensures graph == graph0[node := Neighbours(nodes, 1)]
  {
    var weight := 1;
    graph := graph0[node := []];
    var j := 0;
    while j < n
      invariant 0 <= j <= Count(n)
      invariant graph == graph0[node := Neighbours(nodes, weight)[..j]]
    {
      assert Neighbours(nodes, weight)[..j + 1] == Neighbours(nodes, weight)[..j] + [(nodes[j], weight)];
      graph := graph[node := graph[node] + [(nodes[j], weight)]];
      j := j + 1;
    }
    assert Neighbours(nodes, weight)[..j] == Neighbours(nodes, weight);
  }

  /** Lines 155-180. The formatting loop adds `node + ": "` (a TypeError when nodes are not
      strings, line 170) and then a (node, weight) tuple to a string (a TypeError, line 174),
      so every run with n >= 1 raises; with n <= 0 the graph is empty and "" is returned. */
  method Kruskal<V(==, !new)>(g: Generator<V>, n: int) returns (r: Result<string>)
    modifies g
    ensures r == if n >= 1 then Err(TypeError) else Ok("")
    ensures g.queries == old(g.queries) + 1 + Count(n)
  {
    var nodes, graph := KruskalGraph(g, n);
    assert n >= 1 ==> nodes[0] in graph;
    if graph != map[] {
      r := Err(TypeError);
    } else {
      r := Ok("");
    }
  }

  method Prim<V(==, !new)>(g: Generator<V>, n: int) returns (r: Result<string>)
    modifies g
    ensures r == if n >= 1 then Err(TypeError) else Ok("")
    ensures g.queries == old(g.queries) + 1 + Count(n)
  {
    r := Kruskal(g, n);
  }

  method Boruvka<V(==, !new)>(g: Generator<V>, n: int) returns (r: Result<string>)
    modifies g
    ensures r == if n >= 1 then Err(TypeError) else Ok("")
    ensures g.queries == old(g.queries) + 1 + Count(n)
  {
    r := Kruskal(g, n);
  }

  method ReverseDelete<V(==, !new)>(g: Generator<V>, n: int) returns (r: Result<string>)
    modifies g
    ensures r == if n >= 1 then Err(TypeError) else Ok("")
    ensures g.queries == old(g.queries) + 1 + Count(n)
  {
    r := Kruskal(g, n);
  }
}
