/** The shortest-path exploits. None builds an instance of its own: each hands the generator
    to Kruskal's exploit and returns what it returns. */
module ShortestPath {
  import opened Outcomes
  import opened PyBuiltins
  import opened Generators
  import SpanningTree

  method Dijkstra<V(==, !new)>(g: Generator<V>, n: int) returns (r: Result<string>)
    modifies g
    ensures r == if n >= 1 then Err(TypeError) else Ok("")
    ensures g.queries == old(g.queries) + 1 + Count(n)
  {
    r := SpanningTree.Kruskal(g, n);
  }

  method BellmanFord<V(==, !new)>(g: Generator<V>, n: int) returns (r: Result<string>)
    modifies g
    ensures r == if n >= 1 then Err(TypeError) else Ok("")
    ensures g.queries == old(g.queries) + 1 + Count(n)
  {
    r := SpanningTree.Kruskal(g, n);
  }

  method FloydWarshall<V(==, !new)>(g: Generator<V>, n: int) returns (r: Result<string>)
    modifies g
    ensures r == if n >= 1 then Err(TypeError) else Ok("")
    ensures g.queries == old(g.queries) + 1 + Count(n)
  {
    r := SpanningTree.Kruskal(g, n);
  }

  method Johnson<V(==, !new)>(g: Generator<V>, n: int) returns (r: Result<string>)
    modifies g
    ensures r == if n >= 1 then Err(TypeError) else Ok("")
    ensures g.queries == old(g.queries) + 1 + Count(n)
  {
    r := SpanningTree.Kruskal(g, n);
  }
}
