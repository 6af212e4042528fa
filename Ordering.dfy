/** The sorting, binary-search-tree, AVL-tree and trie exploits: a strictly decreasing chain.
    The four source classes carry the same loop, written out four times. */
module Ordering {
  import opened PyBuiltins
  import opened Generators
  import opened Chains

  /** What the ordering exploits build when started at query number `k`: a get_random seed
      followed by n - 1 successive get_less_than answers (only the seed when n <= 1). */
  function Descending<V(!new)>(g: Generator<V>, k: nat, n: int): (r: seq<V>)
    ensures |r| == if n >= 1 then n else 1
    ensures r[0] == g.draw(k)
  {
    Chain(g.below, k + 1, g.draw(k), Count(n - 1))
  }

  /** Each element after the seed is get_less_than of its predecessor; when get_less_than
      answers fall in a strict order the whole output is strictly decreasing. The same holds
      when `<` is a strict order and only the answers actually received fell: a string
      generator can meet that, though nothing is below "". */
  lemma DescendingShape<V(!new)>(g: Generator<V>, k: nat, n: int)
    ensures var r := Descending(g, k, n);
      forall i :: 1 <= i < |r| ==> r[i] == g.below(k + i, r[i - 1])
    ensures var r := Descending(g, k, n);
      g.Falls() ==> forall i, j :: 0 <= i < j < |r| ==> g.lt(r[j], r[i]) && r[i] != r[j]
    ensures var r := Descending(g, k, n);
      g.StrictOrder() && (forall i :: 1 <= i < |r| ==> g.lt(r[i], r[i - 1])) ==>
        forall i, j :: 0 <= i < j < |r| ==> g.lt(r[j], r[i]) && r[i] != r[j]
  {
    ChainLinks(g.below, k + 1, g.draw(k), Count(n - 1));
    if g.Falls() {
      ChainFalls(g, k + 1, g.draw(k), Count(n - 1));
    }
    var r := Descending(g, k, n);
    if g.StrictOrder() && (forall i :: 1 <= i < |r| ==> g.lt(r[i], r[i - 1])) {
      var above := (a, b) => g.lt(b, a);
      forall i, j | 0 <= i < j < |r| ensures g.lt(r[j], r[i]) && r[i] != r[j] {
        AdjacentOrder(above, r, i, j);
      }
    }
  }

  /** The loop shared by the four classes below. */
  method DecreasingChain<V(!new)>(g: Generator<V>, n: int) returns (output: seq<V>)
    modifies g
    ensures output == Descending(g, old(g.queries), n)
    ensures g.queries == old(g.queries) + (if n >= 1 then n else 1)
  {
    ghost var k := g.queries;
    var seed := g.GetRandom();
    output := [seed];
    var i := 1;
    while i < n
      invariant 1 <= i <= (if n >= 1 then n else 1)
      invariant output == Chain(g.below, k + 1, seed, i - 1)
      invariant g.queries == k + i
    {
      var next := g.GetLessThan(output[i - 1]);
      output := output + [next];
      i := i + 1;
    }
  }

  method Sort<V(!new)>(g: Generator<V>, n: int) returns (output: seq<V>)
    modifies g
    ensures output == Descending(g, old(g.queries), n)
    ensures g.queries == old(g.queries) + (if n >= 1 then n else 1)
  {
    output := DecreasingChain(g, n);
  }

  method BinarySearchTree<V(!new)>(g: Generator<V>, n: int) returns (output: seq<V>)
    modifies g
    ensures output == Descending(g, old(g.queries), n)
    ensures g.queries == old(g.queries) + (if n >= 1 then n else 1)
  {
    output := DecreasingChain(g, n);
  }

  method AVLTree<V(!new)>(g: Generator<V>, n: int) returns (output: seq<V>)
    modifies g
    ensures output == Descending(g, old(g.queries), n)
    ensures g.queries == old(g.queries) + (if n >= 1 then n else 1)
  {
    output := DecreasingChain(g, n);
  }

  method Trie<V(!new)>(g: Generator<V>, n: int) returns (output: seq<V>)
    modifies g
    ensures output == Descending(g, old(g.queries), n)
    ensures g.queries == old(g.queries) + (if n >= 1 then n else 1)
  {
    output := DecreasingChain(g, n);
  }
}
