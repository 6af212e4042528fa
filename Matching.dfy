/** HopcroftKarp's exploit: a complete bipartite graph whose two sides are taken alternately
    from an increasing chain of values. */
module Matching {
  import opened PyBuiltins
  import opened Generators
  import opened Chains

  /** `[a0, b0, a1, b1, ...]`. */
  function Interleave<V>(a: seq<V>, b: seq<V>): (r: seq<V>)
    requires |a| == |b|
    ensures |r| == 2 * |a|
    decreases |a|
  {
    if |a| == 0 then []
    else Interleave(a[..|a| - 1], b[..|b| - 1]) + [a[|a| - 1], b[|b| - 1]]
  }

  /** The values of `a` sit at the even positions and those of `b` at the odd ones. */
  lemma {:induction false} InterleaveAt<V>(a: seq<V>, b: seq<V>)
    requires |a| == |b|
    ensures forall i :: 0 <= i < |a| ==> Interleave(a, b)[2 * i] == a[i] && Interleave(a, b)[2 * i + 1] == b[i]
    decreases |a|
  {
    if |a| > 0 {
      var m := |a| - 1;
      InterleaveAt(a[..m], b[..m]);
    }
  }

  /** The values at even positions. */
  function Lefts<V>(c: seq<V>): (a: seq<V>)
    ensures |a| == |c| / 2
    ensures forall i :: 0 <= i < |a| ==> a[i] == c[2 * i]
  {
    seq(|c| / 2, i requires 0 <= i < |c| / 2 => c[2 * i])
  }

  /** The values at odd positions. */
  function Rights<V>(c: seq<V>): (b: seq<V>)
    ensures |b| == |c| / 2
    ensures forall i :: 0 <= i < |b| ==> b[i] == c[2 * i + 1]
  {
    seq(|c| / 2, i requires 0 <= i < |c| / 2 => c[2 * i + 1])
  }

  /** Splitting an interleaving gives back its two halves. */
  lemma InterleaveSplit<V>(a: seq<V>, b: seq<V>)
    requires |a| == |b|
    ensures Lefts(Interleave(a, b)) == a && Rights(Interleave(a, b)) == b
  {
    InterleaveAt(a, b);
  }

  /** Appending one pair to both halves appends it to the interleaving. */
  lemma InterleaveSnoc<V>(a: seq<V>, b: seq<V>, x: V, y: V)
    requires |a| == |b|
    ensures Interleave(a + [x], b + [y]) == Interleave(a, b) + [x, y]
  {
    assert (a + [x])[..|a|] == a;
    assert (b + [y])[..|b|] == b;
  }

  /** The dictionary after the first `i` rounds of lines 258-264. Round i gives `left[i]`
      the whole right list and `right[i]` the whole left list. When the two are the same
      value, the second fresh list replaces the first and both appends land on it. */
  function PairUp<V(==)>(left: seq<V>, right: seq<V>, i: nat): map<V, seq<V>>
    requires |left| == |right| && i <= |left|
    decreases i
  {
    if i == 0 then map[]
    else
      var G := PairUp(left, right, i - 1);
      if left[i - 1] != right[i - 1] then G[left[i - 1] := right][right[i - 1] := left]
      else G[left[i - 1] := Interleave(right, left)]
  }

  /** Round i adds its two values as keys. */
  lemma PairUpStep<V>(left: seq<V>, right: seq<V>, i: nat)
    requires |left| == |right| && i < |left|
    ensures PairUp(left, right, i + 1) ==
      if left[i] != right[i] then PairUp(left, right, i)[left[i] := right][right[i] := left]
      else PairUp(left, right, i)[left[i] := Interleave(right, left)]
  {
  }

  /** After i rounds the keys are exactly the first i values of each side. */
  lemma {:induction false} PairUpKeys<V>(left: seq<V>, right: seq<V>, i: nat)
    requires |left| == |right| && i <= |left|
    ensures PairUp(left, right, i).Keys == Elements(left[..i]) + Elements(right[..i])
    decreases i
  {
    if i > 0 {
      PairUpKeys(left, right, i - 1);
      assert left[..i] == left[..i - 1] + [left[i - 1]];
      assert right[..i] == right[..i - 1] + [right[i - 1]];
    }
  }

  /** When no value repeats, each left node maps to the right list and each right node to
      the left list. */
  lemma {:induction false} PairUpDistinct<V>(left: seq<V>, right: seq<V>, i: nat)
    requires |left| == |right| && i <= |left|
    requires Distinct(left + right)
    ensures forall j :: 0 <= j < i ==> left[j] in PairUp(left, right, i) && PairUp(left, right, i)[left[j]] == right
    ensures forall j :: 0 <= j < i ==> right[j] in PairUp(left, right, i) && PairUp(left, right, i)[right[j]] == left
    decreases i
  {
    if i > 0 {
      PairUpDistinct(left, right, i - 1);
      var m := |left|;
      forall j | 0 <= j < i - 1
        ensures left[j] != left[i - 1] && left[j] != right[i - 1]
        ensures right[j] != left[i - 1] && right[j] != right[i - 1]
      {
        assert (left + right)[j] == left[j] && (left + right)[m + j] == right[j];
        assert (left + right)[i - 1] == left[i - 1] && (left + right)[m + i - 1] == right[i - 1];
      }
      assert (left + right)[i - 1] == left[i - 1] && (left + right)[m + i - 1] == right[i - 1];
    }
  }

  /** The nodes of HopcroftKarp from query number `k` on: the minimum value followed by
      `2 * int(n / 2) - 1` successive get_greater_than answers. */
  function PairChain<V(!new)>(g: Generator<V>, k: nat, n: int): (c: seq<V>)
    ensures |c| == 2 * Count(TruncHalf(n))
  {
    Chain(g.above, k, g.minValue, 2 * Count(TruncHalf(n)))[..2 * Count(TruncHalf(n))]
  }

  /** When get_greater_than rises the chain has no repeated value. */
  lemma PairChainDistinct<V(!new)>(g: Generator<V>, k: nat, n: int)
    requires g.Rises()
    ensures Distinct(PairChain(g, k, n))
  {
    var m := 2 * Count(TruncHalf(n));
    var c := Chain(g.above, k, g.minValue, m);
    var p := PairChain(g, k, n);
    ChainRises(g, k, g.minValue, m);
    forall i, j | 0 <= i < j < |p| ensures p[i] != p[j] {
      assert p[i] == c[i] && p[j] == c[j];
    }
  }

  /** Splitting a sequence without repetitions into its even and odd positions gives two
      sides that share no value. */
  lemma SidesDistinct<V>(c: seq<V>)
    requires Distinct(c)
    ensures Distinct(Lefts(c) + Rights(c))
  {
    var h := |c| / 2;
    var s := Lefts(c) + Rights(c);
    forall i, j | 0 <= i < j < |s| ensures s[i] != s[j] {
      var ci := if i < h then 2 * i else 2 * (i - h) + 1;
      var cj := if j < h then 2 * j else 2 * (j - h) + 1;
      assert s[i] == c[ci] && s[j] == c[cj] && ci != cj;
    }
  }

  /** The graph HopcroftKarp returns. */
  function Bipartite<V(==)>(c: seq<V>): map<V, seq<V>> {
    PairUp(Lefts(c), Rights(c), |c| / 2)
  }

  /** When get_greater_than rises: the sides hold `int(n / 2)` values each, taken
      alternately from the chain; each left key maps to the full right list, each right key
      to the full left list, and the graph has twice as many keys as a side has values. */
  lemma BipartiteShape<V(!new)>(g: Generator<V>, k: nat, n: int)
    requires g.Rises()
    ensures var c := PairChain(g, k, n);
      var h := Count(TruncHalf(n));
      |Lefts(c)| == h && |Rights(c)| == h &&
      (forall i :: 0 <= i < h ==> Lefts(c)[i] == c[2 * i] && Rights(c)[i] == c[2 * i + 1]) &&
      (forall i :: 0 <= i < h ==> Lefts(c)[i] in Bipartite(c) && Bipartite(c)[Lefts(c)[i]] == Rights(c)) &&
      (forall i :: 0 <= i < h ==> Rights(c)[i] in Bipartite(c) && Bipartite(c)[Rights(c)[i]] == Lefts(c)) &&
      |Bipartite(c).Keys| == 2 * h
  {
    var h := Count(TruncHalf(n));
    var c := PairChain(g, k, n);
    var left, right := Lefts(c), Rights(c);
    PairChainDistinct(g, k, n);
    SidesDistinct(c);
    var s := left + right;
    PairUpDistinct(left, right, h);
    PairUpKeys(left, right, h);
    DistinctCard(s);
    assert left[..h] == left && right[..h] == right;
    assert Elements(s) == Elements(left) + Elements(right);
  }

  /** Lines 253-257: name `int(n / 2)` left nodes and as many right nodes, alternately. */
  method PairNodes<V(!new)>(g: Generator<V>, seed: V, h: int) returns (left: seq<V>, right: seq<V>)
    modifies g
    ensures |left| == |right| == Count(h)
    ensures Interleave(left, right) == Chain(g.above, old(g.queries), seed, 2 * Count(h))[..2 * Count(h)]
    ensures g.queries == old(g.queries) + 2 * Count(h)
  {
    ghost var k := g.queries;
    left, right := [], [];
    var cur := seed;
    var i := 0;
    while i < h
      invariant 0 <= i <= Count(h) && |left| == |right| == i
      invariant Interleave(left, right) + [cur] == Chain(g.above, k, seed, 2 * i)
      invariant g.queries == k + 2 * i
    {
      InterleaveSnoc(left, right, cur, g.above(g.queries, cur));
      left := left + [cur];
      cur := g.GetGreaterThan(cur);
      right := right + [cur];
      cur := g.GetGreaterThan(cur);
      i := i + 1;
    }
    assert Interleave(left, right) == (Interleave(left, right) + [cur])[..2 * Count(h)];
  }

  /** The dictionary during round `l`, `r` of lines 259-264 once `j` values of each side have
      been appended: when `l` and `r` are the same value, both appends land on one list. */
  function Filling<V(==)>(G0: map<V, seq<V>>, l: V, r: V, left: seq<V>, right: seq<V>, j: nat): map<V, seq<V>>
    requires |left| == |right| && j <= |right|
  {
    if l != r then G0[l := right[..j]][r := left[..j]]
    else G0[l := Interleave(right[..j], left[..j])]
  }

  /** The two appends of one inner iteration take the round one value further. */
  lemma FillingStep<V>(G0: map<V, seq<V>>, l: V, r: V, left: seq<V>, right: seq<V>, j: nat)
    requires |left| == |right| && j < |right|
    ensures var G := Filling(G0, l, r, left, right, j);
      var G1 := G[l := G[l] + [right[j]]];
      G1[r := G1[r] + [left[j]]] == Filling(G0, l, r, left, right, j + 1)
  {
    assert right[..j + 1] == right[..j] + [right[j]];
    assert left[..j + 1] == left[..j] + [left[j]];
    if l == r {
      var a := Interleave(right[..j], left[..j]);
      InterleaveSnoc(right[..j], left[..j], right[j], left[j]);
      assert a + [right[j]] + [left[j]] == a + [right[j], left[j]];
    }
  }

  /** One round of lines 259-264: fresh lists for `l` and `r`, then the other side's values
      appended one at a time. */
  method Round<V(==)>(G0: map<V, seq<V>>, l: V, r: V, left: seq<V>, right: seq<V>) returns (G: map<V, seq<V>>)
    requires |left| == |right|
    ensures l != r ==> G == G0[l := right][r := left]
    ensures l == r ==> G == G0[l := Interleave(right, left)]
  {
    G := G0[l := []];
    G := G[r := []];
    assert G == Filling(G0, l, r, left, right, 0);
    var j := 0;
    while j < |right|
      invariant 0 <= j <= |right|
      invariant G == Filling(G0, l, r, left, right, j)
    {
      FillingStep(G0, l, r, left, right, j);
      G := G[l := G[l] + [right[j]]];
      G := G[r := G[r] + [left[j]]];
      j := j + 1;
    }
    assert right[..j] == right && left[..j] == left;
  }

  /** Lines 258-264: one round per left node. */
  method BuildGraph<V(==)>(left: seq<V>, right: seq<V>) returns (G: map<V, seq<V>>)
    requires |left| == |right|
    ensures G == PairUp(left, right, |left|)
  {
    G := map[];
    var i := 0;
    while i < |left|
      invariant 0 <= i <= |left|
      invariant G == PairUp(left, right, i)
    {
      PairUpStep(left, right, i);
      G := Round(G, left[i], right[i], left, right);
      i := i + 1;
    }
  }

  /** Lines 249-265. */
  method HopcroftKarp<V(==, !new)>(g: Generator<V>, n: int) returns (G: map<V, seq<V>>)
    modifies g
    ensures G == Bipartite(PairChain(g, old(g.queries), n))
    ensures g.queries == old(g.queries) + 2 * Count(TruncHalf(n))
  {
    var least := g.GetMinValue();
    var left, right := PairNodes(g, least, TruncHalf(n));
    InterleaveSplit(left, right);
    G := BuildGraph(left, right);
  }
}
