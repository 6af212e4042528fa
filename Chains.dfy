/** The chains of values the exploit constructors obtain by asking the generator, again and
    again, for a value below (or above) the previous one. */
module Chains {
  import opened PyBuiltins
  import opened Generators

  /** `seed` followed by the answers to `m` successive queries answered by `step`, the first
      being query number `k` and each asked of the previous answer. */
  function Chain<V>(step: (nat, V) -> V, k: nat, seed: V, m: nat): (r: seq<V>)
    ensures |r| == m + 1 && r[0] == seed
    decreases m
  {
    if m == 0 then [seed]
    else
      var p := Chain(step, k, seed, m - 1);
      p + [step(k + m - 1, p[m - 1])]
  }

  /** Each element after the first is the answer, at its own query number, to a query about
      its predecessor. */
  lemma {:induction false} ChainLinks<V>(step: (nat, V) -> V, k: nat, seed: V, m: nat)
    ensures forall i :: 1 <= i <= m ==>
      Chain(step, k, seed, m)[i] == step(k + i - 1, Chain(step, k, seed, m)[i - 1])
    decreases m
  {
    if m > 0 {
      ChainLinks(step, k, seed, m - 1);
    }
  }

  /** One more query, asked of the last value, extends the chain by its answer. */
  lemma ChainStep<V>(step: (nat, V) -> V, k: nat, seed: V, m: nat, prefix: seq<V>, last: V)
    requires prefix + [last] == Chain(step, k, seed, m)
    ensures prefix + [last] + [step(k + m, last)] == Chain(step, k, seed, m + 1)
  {
    assert Chain(step, k, seed, m)[m] == last;
  }

  /** A chain taken from a longer one is its prefix. */
  lemma {:induction false} ChainPrefix<V>(step: (nat, V) -> V, k: nat, seed: V, m: nat, j: nat)
    requires j <= m
    ensures Chain(step, k, seed, m)[..j + 1] == Chain(step, k, seed, j)
    decreases m
  {
    if j < m {
      ChainPrefix(step, k, seed, m - 1, j);
      assert Chain(step, k, seed, m)[..m] == Chain(step, k, seed, m - 1);
    }
  }

  /** If every step moves forward in a transitive relation, the whole chain is ordered by it. */
  lemma {:induction false} ChainMonotone<V(!new)>(step: (nat, V) -> V, before: (V, V) -> bool,
                                                  k: nat, seed: V, m: nat)
    requires forall a, b, c :: before(a, b) && before(b, c) ==> before(a, c)
    requires forall t, v :: before(v, step(t, v))
    ensures forall i, j :: 0 <= i < j <= m ==>
      before(Chain(step, k, seed, m)[i], Chain(step, k, seed, m)[j])
    decreases m
  {
    if m > 0 {
      ChainMonotone(step, before, k, seed, m - 1);
      var p := Chain(step, k, seed, m - 1);
      var r := Chain(step, k, seed, m);
      assert before(p[m - 1], r[m]);
      forall i, j | 0 <= i < j <= m
        ensures before(r[i], r[j])
      {
        if j < m {
          assert r[i] == p[i] && r[j] == p[j];
        } else if i < m - 1 {
          assert before(p[i], p[m - 1]);
        }
      }
    }
  }

  /** In a transitive relation, a sequence whose every element precedes the next is ordered
      throughout. */
  lemma {:induction false} AdjacentOrder<V(!new)>(before: (V, V) -> bool, c: seq<V>, i: nat, j: nat)
    requires forall a, b, d :: before(a, b) && before(b, d) ==> before(a, d)
    requires forall t :: 0 <= t < |c| - 1 ==> before(c[t], c[t + 1])
    requires i < j < |c|
    ensures before(c[i], c[j])
    decreases j - i
  {
    if j > i + 1 {
      AdjacentOrder(before, c, i, j - 1);
    }
  }

  /** When get_greater_than answers rise in a strict order, a chain of them is
      strictly increasing, so its values are pairwise distinct. */
  lemma ChainRises<V(!new)>(g: Generator<V>, k: nat, seed: V, m: nat)
    requires g.Rises()
    ensures forall i, j :: 0 <= i < j <= m ==>
      g.lt(Chain(g.above, k, seed, m)[i], Chain(g.above, k, seed, m)[j])
    ensures forall i, j :: 0 <= i < j <= m ==>
      Chain(g.above, k, seed, m)[i] != Chain(g.above, k, seed, m)[j]
  {
    ChainMonotone(g.above, g.lt, k, seed, m);
  }

  /** When get_less_than answers fall in a strict order, a chain of them is strictly
      decreasing, so its values are pairwise distinct. */
  lemma ChainFalls<V(!new)>(g: Generator<V>, k: nat, seed: V, m: nat)
    requires g.Falls()
    ensures forall i, j :: 0 <= i < j <= m ==>
      g.lt(Chain(g.below, k, seed, m)[j], Chain(g.below, k, seed, m)[i])
    ensures forall i, j :: 0 <= i < j <= m ==>
      Chain(g.below, k, seed, m)[i] != Chain(g.below, k, seed, m)[j]
  {
    ChainMonotone(g.below, (a, b) => g.lt(b, a), k, seed, m);
  }

  /** No value occurs twice. */
  ghost predicate Distinct<V>(s: seq<V>) {
    forall i, j :: 0 <= i < j < |s| ==> s[i] != s[j]
  }

  /** The values of a sequence, as a set. */
  function Elements<V>(s: seq<V>): set<V> {
    set x | x in s
  }

  /** A sequence without repetitions has as many distinct values as elements. */
  lemma {:induction false} DistinctCard<V>(s: seq<V>)
    requires Distinct(s)
    ensures |Elements(s)| == |s|
    decreases |s|
  {
    if |s| > 0 {
      var p := s[..|s| - 1];
      DistinctCard(p);
      assert Elements(s) == Elements(p) + {s[|s| - 1]};
    }
  }

  /** The node-naming loop of the graph exploits: `for i in range(n): nodes.append(cur);
      cur = generator.get_greater_than(cur)`. It asks max(n, 0) queries and keeps the first
      max(n, 0) values of the chain, dropping the last answer. */
  method ClimbNodes<V(!new)>(g: Generator<V>, seed: V, n: int) returns (nodes: seq<V>)
    modifies g
    ensures nodes == Chain(g.above, old(g.queries), seed, Count(n))[..Count(n)]
    ensures g.queries == old(g.queries) + Count(n)
  {
    ghost var k := g.queries;
    nodes := [];
    var cur := seed;
    var i := 0;
    while i < n
      invariant 0 <= i <= Count(n)
      invariant nodes + [cur] == Chain(g.above, k, seed, i)
      invariant g.queries == k + i
    {
      nodes := nodes + [cur];
      cur := g.GetGreaterThan(cur);
      i := i + 1;
    }
    assert nodes == (nodes + [cur])[..Count(n)];
  }
}
