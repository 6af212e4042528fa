/** Fleury's exploit, a complete unweighted graph rendered as text, and the traversal classes
    that delegate to it. Nodes are strings: the seed is the first character of the
    generator's minimum value and each node is added to a string. */
module Traversal {
  import opened Outcomes
  import opened PyBuiltins
  import opened Generators
  import opened Chains
  import PyStrings

  type Adjacency = map<string, set<string>>

  /** The order in which Python iterates over a set, which the hash table decides. */
  type SetOrder = set<string> -> seq<string>

  /** Iterating over a set yields each of its elements exactly once. */
  ghost predicate Enumerates(order: SetOrder) {
    forall s :: Distinct(order(s)) && Elements(order(s)) == s
  }

  /** The keys of a dictionary filled with `s` in order: first occurrences only. */
  function FirstOccurrences<V(==)>(s: seq<V>): seq<V>
    decreases |s|
  {
    if s == [] then []
    else
      var p := FirstOccurrences(s[..|s| - 1]);
      if s[|s| - 1] in p then p else p + [s[|s| - 1]]
  }

  /** The key order holds every inserted value exactly once. */
  lemma {:induction false} FirstOccurrencesKeys<V>(s: seq<V>)
    ensures Elements(FirstOccurrences(s)) == Elements(s)
    ensures Distinct(FirstOccurrences(s))
    decreases |s|
  {
    if s != [] {
      var p := s[..|s| - 1];
      FirstOccurrencesKeys(p);
      assert s == p + [s[|s| - 1]];
      assert Elements(s) == Elements(p) + {s[|s| - 1]};
    }
  }

  /** A dictionary filled with distinct keys iterates over them in insertion order. */
  lemma {:induction false} FirstOccurrencesOfDistinct<V>(s: seq<V>)
    requires Distinct(s)
    ensures FirstOccurrences(s) == s
    decreases |s|
  {
    if s != [] {
      var p := s[..|s| - 1];
      FirstOccurrencesOfDistinct(p);
      assert s[|s| - 1] !in p;
      assert s == p + [s[|s| - 1]];
    }
  }

  /** Appending one more value adds it to the keys only when it is new. */
  lemma {:induction false} FirstOccurrencesSnoc<V>(s: seq<V>, x: V)
    ensures FirstOccurrences(s + [x]) == if x in s then FirstOccurrences(s) else FirstOccurrences(s) + [x]
  {
    var t := s + [x];
    assert t[..|t| - 1] == s;
    var p := FirstOccurrences(s);
    FirstOccurrencesKeys(s);
    assert x in p <==> x in Elements(p);
    assert x in s <==> x in Elements(s);
  }

  /** The complete graph lines 94-101 build: every node's set holds every node, itself
      included. The guard at line 100 asks whether a set is an element of a set of strings,
      which never holds, so every edge is added. */
  function FullGraph(nodes: seq<string>): Adjacency {
    map x | x in nodes :: Elements(nodes)
  }

  lemma FullGraphComplete(nodes: seq<string>)
    ensures FullGraph(nodes).Keys == Elements(nodes)
    ensures forall x, y :: x in nodes && y in nodes ==> x in FullGraph(nodes) && y in FullGraph(nodes)[x]
  {
  }

  /** What the inner formatting loop appends: the items separated by ", ". */
  function Join(items: seq<string>): string
    decreases |items|
  {
    if |items| == 0 then ""
    else if |items| == 1 then items[0]
    else Join(items[..|items| - 1]) + ", " + items[|items| - 1]
  }

  /** One output line: the node, ": ", its neighbours in set order, and a newline. */
  function Line(node: string, neighbours: seq<string>): string {
    node + ": " + Join(neighbours) + "\n"
  }

  /** The text of lines 103-113: one line per key, in key order. */
  function Render(keys: seq<string>, adj: Adjacency, order: SetOrder): string
    requires forall x :: x in keys ==> x in adj
    decreases |keys|
  {
    if keys == [] then ""
    else Render(keys[..|keys| - 1], adj, order) + Line(keys[|keys| - 1], order(adj[keys[|keys| - 1]]))
  }

  /** The nodes Fleury names from query number `k`: the first character of the minimum value
      and then n - 1 successive get_greater_than answers. */
  function FleuryNodes(g: Generator<string>, k: nat, n: int): (nodes: seq<string>)
    requires g.minValue != ""
    ensures |nodes| == Count(n)
  {
    Chain(g.above, k, [g.minValue[0]], Count(n))[..Count(n)]
  }

  /** The text Fleury returns for the nodes it names. */
  function FleuryText(nodes: seq<string>, order: SetOrder): string {
    FirstOccurrencesKeys(nodes);
    Render(FirstOccurrences(nodes), FullGraph(nodes), order)
  }

  /** When get_greater_than rises the nodes are distinct, so the output has one line per
      node in generation order, each node's set holding all nodes; when set iteration
      yields each element once, every line lists each of the n nodes exactly once. */
  lemma FleuryLines(g: Generator<string>, k: nat, n: int, order: SetOrder)
    requires g.Rises() && g.minValue != ""
    ensures FleuryText(FleuryNodes(g, k, n), order) == Render(FleuryNodes(g, k, n), FullGraph(FleuryNodes(g, k, n)), order)
    ensures forall x :: x in FleuryNodes(g, k, n) ==> FullGraph(FleuryNodes(g, k, n))[x] == Elements(FleuryNodes(g, k, n))
    ensures Enumerates(order) ==> forall x :: x in FleuryNodes(g, k, n) ==>
      && Distinct(order(FullGraph(FleuryNodes(g, k, n))[x]))
      && Elements(order(FullGraph(FleuryNodes(g, k, n))[x])) == Elements(FleuryNodes(g, k, n))
      && |order(FullGraph(FleuryNodes(g, k, n))[x])| == Count(n)
  {
    var c := Chain(g.above, k, [g.minValue[0]], Count(n));
    var nodes := FleuryNodes(g, k, n);
    ChainRises(g, k, [g.minValue[0]], Count(n));
    forall i, j | 0 <= i < j < |nodes| ensures nodes[i] != nodes[j] {
      assert nodes[i] == c[i] && nodes[j] == c[j];
    }
    FirstOccurrencesOfDistinct(nodes);
    if Enumerates(order) {
      DistinctCard(nodes);
      forall x | x in nodes
        ensures |order(FullGraph(nodes)[x])| == Count(n)
      {
        var ns := order(FullGraph(nodes)[x]);
        assert Distinct(ns) && Elements(ns) == Elements(nodes);
        DistinctCard(ns);
      }
    }
  }

  /** A string generator ordered by Python's `<` whose get_greater_than appends "a" meets
      Rises(), so the lemmas that assume it hold for such generators. */
  lemma AppendingRises(g: Generator<string>)
    requires forall a, b :: g.lt(a, b) == PyStrings.Below(a, b)
    requires forall k, v :: g.above(k, v) == v + "a"
    ensures g.Rises()
  {
    forall a ensures !g.lt(a, a) {
      PyStrings.BelowIrreflexive(a);
    }
    forall a, b, c | g.lt(a, b) && g.lt(b, c) ensures g.lt(a, c) {
      PyStrings.BelowTransitive(a, b, c);
    }
    forall k, v ensures g.lt(v, g.above(k, v)) {
      PyStrings.BelowExtension(v, "a");
    }
  }

  /** The dictionary of line 96 after the nodes `nodes` were inserted: its key order and
      an empty set per key. */
  ghost predicate Named<V>(nodes: seq<V>, keys: seq<V>, adj: map<V, set<V>>) {
    && keys == FirstOccurrences(nodes)
    && adj.Keys == Elements(nodes)
    && forall x :: x in adj ==> adj[x] == {}
  }

  /** Inserting one more node keeps the dictionary in step. */
  lemma NameStep<V>(nodes: seq<V>, keys: seq<V>, adj: map<V, set<V>>, cur: V)
    requires Named(nodes, keys, adj)
    ensures Named(nodes + [cur], if cur in adj then keys else keys + [cur], adj[cur := {}])
  {
    FirstOccurrencesSnoc(nodes, cur);
    assert Elements(nodes + [cur]) == Elements(nodes) + {cur};
  }

  /** Lines 93-97: name the nodes and give each an empty set, in dictionary order. */
  method NameNodes<V(==, !new)>(g: Generator<V>, seed: V, n: int) returns (nodes: seq<V>, keys: seq<V>, adj: map<V, set<V>>)
    modifies g
    ensures nodes == Chain(g.above, old(g.queries), seed, Count(n))[..Count(n)]
    ensures keys == FirstOccurrences(nodes)
    ensures adj.Keys == Elements(nodes) && forall x :: x in adj ==> adj[x] == {}
    ensures g.queries == old(g.queries) + Count(n)
  {
    ghost var k := g.queries;
    nodes, keys, adj := [], [], map[];
    var cur := seed;
    var i := 0;
    while i < n
      invariant 0 <= i <= Count(n)
      invariant |nodes| == i && nodes + [cur] == Chain(g.above, k, seed, i)
      invariant Named(nodes, keys, adj)
      invariant g.queries == k + i
    {
      ChainStep(g.above, k, seed, i, nodes, cur);
      NameStep(nodes, keys, adj, cur);
      if cur !in adj {
        keys := keys + [cur];
      }
      nodes := nodes + [cur];
      adj := adj[cur := {}];
      cur := g.GetGreaterThan(cur);
      i := i + 1;
    }
    assert nodes == (nodes + [cur])[..Count(n)];
  }

  /** The dictionary after the outer loop of lines 98-101 has handled the first `i` nodes:
      those have every node in their set, the others still an empty one. */
  ghost function Connected(nodes: seq<string>, i: nat): Adjacency
    requires i <= |nodes|
  {
    map x | x in nodes :: if x in nodes[..i] then Elements(nodes) else {}
  }

  /** Lines 99-101: the inner loop adds every node to the set of `node`. */
  method Connect(nodes: seq<string>, adj0: Adjacency, node: string) returns (adj: Adjacency)
    requires node in adj0
    ensures adj == adj0[node := adj0[node] + Elements(nodes)]
  {
    adj := adj0;
    var j := 0;
    assert adj0[node] + Elements(nodes[..j]) == adj0[node];
    assert adj0[node := adj0[node]] == adj0;
    while j < |nodes|
      invariant 0 <= j <= |nodes|
      invariant adj == adj0[node := adj0[node] + Elements(nodes[..j])]
    {
      assert Elements(nodes[..j + 1]) == Elements(nodes[..j]) + {nodes[j]} by {
        assert nodes[..j + 1] == nodes[..j] + [nodes[j]];
      }
      assert adj0[node] + Elements(nodes[..j + 1]) == adj[node] + {nodes[j]};
      adj := adj[node := adj[node] + {nodes[j]}];
      j := j + 1;
    }
    assert nodes[..j] == nodes;
  }

  /** Handling one more node of the outer loop. */
  lemma ConnectedStep(nodes: seq<string>, i: nat)
    requires i < |nodes|
    ensures nodes[i] in Connected(nodes, i)
    ensures Connected(nodes, i + 1) == Connected(nodes, i)[nodes[i] := Connected(nodes, i)[nodes[i]] + Elements(nodes)]
  {
    assert nodes[..i + 1] == nodes[..i] + [nodes[i]];
    var E := Elements(nodes);
    assert Connected(nodes, i)[nodes[i]] + E == E;
    forall x | x in nodes
      ensures Connected(nodes, i + 1)[x] == Connected(nodes, i)[nodes[i] := Connected(nodes, i)[nodes[i]] + E][x]
    {
      assert x in nodes[..i + 1] <==> x in nodes[..i] || x == nodes[i];
    }
  }

  /** Lines 98-101: every node is added to every node's set. */
  method ConnectAll(nodes: seq<string>, adj0: Adjacency) returns (adj: Adjacency)
    requires adj0.Keys == Elements(nodes) && forall x :: x in adj0 ==> adj0[x] == {}
    ensures adj == FullGraph(nodes)
  {
    assert adj0 == Connected(nodes, 0);
    adj := adj0;
    var i := 0;
    while i < |nodes|
      invariant 0 <= i <= |nodes|
      invariant adj == Connected(nodes, i)
    {
      ConnectedStep(nodes, i);
      adj := Connect(nodes, adj, nodes[i]);
      i := i + 1;
    }
    assert nodes[..i] == nodes;
  }

  /** Lines 103-113: one "node: n1, n2, ...\n" line per key. */
  method Format(keys: seq<string>, adj: Adjacency, order: SetOrder) returns (out: string)
    requires forall x :: x in keys ==> x in adj
    ensures out == Render(keys, adj, order)
  {
    out := "";
    var t := 0;
    while t < |keys|
      invariant 0 <= t <= |keys|
      invariant out == Render(keys[..t], adj, order)
    {
      var node := keys[t];
      var head := out;
      out := out + (node + ": ");
      var first := true;
      var neighbours := order(adj[node]);
      var c := 0;
      while c < |neighbours|
        invariant 0 <= c <= |neighbours|
        invariant first <==> c == 0
        invariant out == head + node + ": " + Join(neighbours[..c])
      {
        assert neighbours[..c + 1][..c] == neighbours[..c];
        if first {
          out := out + neighbours[c];
          first := false;
        } else {
          out := out + (", " + neighbours[c]);
        }
        c := c + 1;
      }
      out := out + "\n";
      assert neighbours[..c] == neighbours;
      assert keys[..t + 1][..t] == keys[..t];
      t := t + 1;
    }
    assert keys[..t] == keys;
  }

  /** Lines 90-115. The minimum value is indexed with [0], an IndexError when it is "". */
  method Fleury(g: Generator<string>, n: int, order: SetOrder) returns (r: Result<string>)
    modifies g
    ensures g.minValue == "" ==> r == Err(IndexError) && g.queries == old(g.queries)
    ensures g.minValue != "" ==> r == Ok(FleuryText(FleuryNodes(g, old(g.queries), n), order))
    ensures g.minValue != "" ==> g.queries == old(g.queries) + Count(n)
  {
    var least := g.GetMinValue();
    if |least| == 0 {
      return Err(IndexError);
    }
    var nodes, keys, adj := NameNodes(g, [least[0]], n);
    FirstOccurrencesKeys(nodes);
    adj := ConnectAll(nodes, adj);
    var out := Format(keys, adj, order);
    r := Ok(out);
  }

  method Hierholzer(g: Generator<string>, n: int, order: SetOrder) returns (r: Result<string>)
    modifies g
    ensures g.minValue == "" ==> r == Err(IndexError) && g.queries == old(g.queries)
    ensures g.minValue != "" ==> r == Ok(FleuryText(FleuryNodes(g, old(g.queries), n), order))
    ensures g.minValue != "" ==> g.queries == old(g.queries) + Count(n)
  {
    r := Fleury(g, n, order);
  }

  method TopologicalSort(g: Generator<string>, n: int, order: SetOrder) returns (r: Result<string>)
    modifies g
    ensures g.minValue == "" ==> r == Err(IndexError) && g.queries == old(g.queries)
    ensures g.minValue != "" ==> r == Ok(FleuryText(FleuryNodes(g, old(g.queries), n), order))
    ensures g.minValue != "" ==> g.queries == old(g.queries) + Count(n)
  {
    r := Fleury(g, n, order);
  }

  method BFS(g: Generator<string>, n: int, order: SetOrder) returns (r: Result<string>)
    modifies g
    ensures g.minValue == "" ==> r == Err(IndexError) && g.queries == old(g.queries)
    ensures g.minValue != "" ==> r == Ok(FleuryText(FleuryNodes(g, old(g.queries), n), order))
    ensures g.minValue != "" ==> g.queries == old(g.queries) + Count(n)
  {
    r := Fleury(g, n, order);
  }

  method DFS(g: Generator<string>, n: int, order: SetOrder) returns (r: Result<string>)
    modifies g
    ensures g.minValue == "" ==> r == Err(IndexError) && g.queries == old(g.queries)
    ensures g.minValue != "" ==> r == Ok(FleuryText(FleuryNodes(g, old(g.queries), n), order))
    ensures g.minValue != "" ==> g.queries == old(g.queries) + Count(n)
  {
    r := Fleury(g, n, order);
  }
}
