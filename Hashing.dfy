/** Hashmap's exploit: a birthday search for pairs of keys with the same hash. The hash is
    a parameter; the search stops with an error after `maxDraws` random values. */
module Hashing {
  import opened Outcomes
  import opened Generators

  /** The key list and the first value seen for each hash. */
  datatype Scan<V, H> = Scan(keys: seq<V>, firsts: map<H, V>)

  /** Lines 303-310 applied to one drawn value `v`: a value with a new hash is recorded; one
      whose hash was seen before is appended to the key list together with the recorded
      value. */
  function Handle<V, H(==)>(s: Scan<V, H>, v: V, hashFn: V -> H): Scan<V, H> {
    if hashFn(v) in s.firsts then Scan(s.keys + [v, s.firsts[hashFn(v)]], s.firsts)
    else Scan(s.keys, s.firsts[hashFn(v) := v])
  }

  /** The state of lines 296-310 once the values drawn by queries number `k` to `e - 1` have
      been handled, in order. */
  function Scanned<V(!new), H(==)>(g: Generator<V>, k: nat, e: nat, hashFn: V -> H): Scan<V, H>
    decreases e
  {
    if e <= k then Scan([], map[])
    else Handle(Scanned(g, k, e - 1, hashFn), g.draw(e - 1), hashFn)
  }

  /** Handling the value of query number `e` when its hash is new records it. */
  lemma RecordStep<V(!new), H>(g: Generator<V>, k: nat, e: nat, hashFn: V -> H, keys: seq<V>, firsts: map<H, V>)
    requires k <= e && Scanned(g, k, e, hashFn) == Scan(keys, firsts)
    requires hashFn(g.draw(e)) !in firsts
    ensures Scanned(g, k, e + 1, hashFn) == Scan(keys, firsts[hashFn(g.draw(e)) := g.draw(e)])
  {
  }

  /** Handling the value of query number `e` when its hash is known appends it and the
      recorded value to the keys. */
  lemma PairStep<V(!new), H>(g: Generator<V>, k: nat, e: nat, hashFn: V -> H, keys: seq<V>, firsts: map<H, V>)
    requires k <= e && Scanned(g, k, e, hashFn) == Scan(keys, firsts)
    requires hashFn(g.draw(e)) in firsts
    ensures Scanned(g, k, e + 1, hashFn) == Scan(keys + [g.draw(e), firsts[hashFn(g.draw(e))]], firsts)
  {
  }

  /** Every recorded value carries the hash it is recorded under and was drawn. */
  lemma {:induction false} ScanFirsts<V(!new), H>(g: Generator<V>, k: nat, e: nat, hashFn: V -> H)
    ensures forall h :: h in Scanned(g, k, e, hashFn).firsts ==> hashFn(Scanned(g, k, e, hashFn).firsts[h]) == h
    ensures forall h :: h in Scanned(g, k, e, hashFn).firsts ==>
      exists q :: k <= q < e && g.draw(q) == Scanned(g, k, e, hashFn).firsts[h]
    decreases e
  {
    if e > k {
      ScanFirsts(g, k, e - 1, hashFn);
      var s0 := Scanned(g, k, e - 1, hashFn);
      var s := Scanned(g, k, e, hashFn);
      var v := g.draw(e - 1);
      forall h | h in s.firsts
        ensures hashFn(s.firsts[h]) == h && exists q :: k <= q < e && g.draw(q) == s.firsts[h]
      {
        if hashFn(v) !in s0.firsts && h == hashFn(v) {
          assert g.draw(e - 1) == s.firsts[h];
        } else {
          assert h in s0.firsts && s.firsts[h] == s0.firsts[h];
        }
      }
    }
  }

  /** Every hash drawn is recorded, and it is recorded with the first value drawn with it. */
  lemma {:induction false} ScanRecorded<V(!new), H>(g: Generator<V>, k: nat, e: nat, hashFn: V -> H)
    ensures forall q :: k <= q < e ==> hashFn(g.draw(q)) in Scanned(g, k, e, hashFn).firsts
    ensures forall q :: k <= q < e && (forall p :: k <= p < q ==> hashFn(g.draw(p)) != hashFn(g.draw(q))) ==>
      Scanned(g, k, e, hashFn).firsts[hashFn(g.draw(q))] == g.draw(q)
    decreases e
  {
    if e > k {
      ScanRecorded(g, k, e - 1, hashFn);
      var s0 := Scanned(g, k, e - 1, hashFn);
      var s := Scanned(g, k, e, hashFn);
      if hashFn(g.draw(e - 1)) !in s0.firsts {
        forall q | k <= q < e && (forall p :: k <= p < q ==> hashFn(g.draw(p)) != hashFn(g.draw(q)))
          ensures s.firsts[hashFn(g.draw(q))] == g.draw(q)
        {
          if q < e - 1 {
            assert hashFn(g.draw(q)) in s0.firsts;
          }
        }
      } else {
        ScanFirsts(g, k, e - 1, hashFn);
        var w :| k <= w < e - 1 && g.draw(w) == s0.firsts[hashFn(g.draw(e - 1))];
        assert hashFn(g.draw(w)) == hashFn(g.draw(e - 1));
      }
    }
  }

  /** The key list is made of colliding pairs, the second of each pair being the value
      recorded for their hash. */
  lemma {:induction false} ScanPairs<V(!new), H>(g: Generator<V>, k: nat, e: nat, hashFn: V -> H)
    ensures |Scanned(g, k, e, hashFn).keys| % 2 == 0
    ensures forall i :: 0 <= i < |Scanned(g, k, e, hashFn).keys| / 2 ==>
      var s := Scanned(g, k, e, hashFn);
      hashFn(s.keys[2 * i]) == hashFn(s.keys[2 * i + 1]) &&
      hashFn(s.keys[2 * i]) in s.firsts && s.keys[2 * i + 1] == s.firsts[hashFn(s.keys[2 * i])]
    decreases e
  {
    if e > k {
      ScanPairs(g, k, e - 1, hashFn);
      ScanFirsts(g, k, e - 1, hashFn);
      var s0 := Scanned(g, k, e - 1, hashFn);
      var s := Scanned(g, k, e, hashFn);
      var v := g.draw(e - 1);
      if hashFn(v) in s0.firsts {
        forall i | 0 <= i < |s.keys| / 2
          ensures hashFn(s.keys[2 * i]) == hashFn(s.keys[2 * i + 1])
          ensures hashFn(s.keys[2 * i]) in s.firsts && s.keys[2 * i + 1] == s.firsts[hashFn(s.keys[2 * i])]
        {
          if i < |s0.keys| / 2 {
            assert s.keys[2 * i] == s0.keys[2 * i] && s.keys[2 * i + 1] == s0.keys[2 * i + 1];
          } else {
            assert s.keys[2 * i] == v;
          }
        }
      }
    }
  }

  /** The key list grows by pairs. */
  lemma {:induction false} KeysEven<V(!new), H>(g: Generator<V>, k: nat, e: nat, hashFn: V -> H)
    ensures |Scanned(g, k, e, hashFn).keys| % 2 == 0
    decreases e
  {
    if e > k {
      KeysEven(g, k, e - 1, hashFn);
    }
  }

  /** The key list only grows as more values are drawn. */
  lemma {:induction false} KeysGrow<V(!new), H>(g: Generator<V>, k: nat, j: nat, e: nat, hashFn: V -> H)
    requires j <= e
    ensures |Scanned(g, k, j, hashFn).keys| <= |Scanned(g, k, e, hashFn).keys|
    decreases e
  {
    if j < e {
      KeysGrow(g, k, j, e - 1, hashFn);
    }
  }

  /** When the search stops as soon as the key list is at least `n` long, it holds exactly
      `n` keys rounded up to an even number, and no earlier point of the search had `n` keys. */
  lemma StopLength<V(!new), H>(g: Generator<V>, k: nat, e: nat, hashFn: V -> H, n: int)
    requires n > 0
    requires k < e
    requires |Scanned(g, k, e, hashFn).keys| >= n
    requires |Scanned(g, k, e - 1, hashFn).keys| < n
    ensures |Scanned(g, k, e, hashFn).keys| == n + n % 2
    ensures forall j :: k <= j < e ==> |Scanned(g, k, j, hashFn).keys| < n
  {
    forall j | k <= j < e ensures |Scanned(g, k, j, hashFn).keys| < n {
      KeysGrow(g, k, j, e - 1, hashFn);
    }
    KeysEven(g, k, e, hashFn);
    KeysEven(g, k, e - 1, hashFn);
  }

  /** Lines 304-305: record the value of query number `e` under its new hash. */
  method Record<V(!new), H(==)>(g: Generator<V>, hashFn: V -> H, ghost k: nat, ghost keys: seq<V>, ghost e: nat,
                                 cur: V, pairs0: map<H, V>, hashes0: set<H>)
    returns (pairs: map<H, V>, hashes: set<H>)
    requires k <= e && cur == g.draw(e) && hashFn(cur) !in hashes0
    requires Scanned(g, k, e, hashFn) == Scan(keys, pairs0) && hashes0 == pairs0.Keys
    ensures Scanned(g, k, e + 1, hashFn) == Scan(keys, pairs) && hashes == pairs.Keys
  {
    RecordStep(g, k, e, hashFn, keys, pairs0);
    pairs := pairs0[hashFn(cur) := cur];
    hashes := hashes0 + {hashFn(cur)};
  }

  /** Lines 303-307: record each value whose hash is new and draw again, until a value with
      a known hash comes up or `maxDraws` values have been drawn in all. The key list does not
      change meanwhile. `cur0` is the value of query number `e0`, the last one asked. When
      the cap is reached, every value drawn has been handled. */
  method SeekCollision<V(!new), H(==)>(g: Generator<V>, hashFn: V -> H, ghost k: nat, ghost keys: seq<V>, ghost e0: nat,
                                        cur0: V, pairs0: map<H, V>, hashes0: set<H>, drawn0: nat, maxDraws: nat)
    returns (found: bool, ghost e: nat, cur: V, pairs: map<H, V>, hashes: set<H>, drawn: nat)
    modifies g
    requires g.queries == e0 + 1 && k <= e0 && drawn0 == e0 + 1 - k && drawn0 <= maxDraws
    requires cur0 == g.draw(e0)
    requires Scanned(g, k, e0, hashFn) == Scan(keys, pairs0) && hashes0 == pairs0.Keys
    ensures g.queries == e + 1 && e0 <= e && drawn == e + 1 - k && drawn <= maxDraws
    ensures found ==> cur == g.draw(e) && hashFn(cur) in pairs && hashes == pairs.Keys
    ensures found ==> Scanned(g, k, e, hashFn) == Scan(keys, pairs)
    ensures !found ==> drawn == maxDraws && Scanned(g, k, g.queries, hashFn) == Scan(keys, pairs)
  {
    e := e0;
    cur, pairs, hashes, drawn := cur0, pairs0, hashes0, drawn0;
    var h := hashFn(cur);
    while h !in hashes
      invariant g.queries == e + 1 && e0 <= e && drawn == e + 1 - k && drawn <= maxDraws
      invariant cur == g.draw(e) && h == hashFn(cur)
      invariant Scanned(g, k, e, hashFn) == Scan(keys, pairs) && hashes == pairs.Keys
      decreases maxDraws - drawn
    {
      pairs, hashes := Record(g, hashFn, k, keys, e, cur, pairs, hashes);
      if drawn == maxDraws {
        return false, e, cur, pairs, hashes, drawn;
      }
      cur := g.GetRandom();
      drawn := drawn + 1;
      e := e + 1;
      h := hashFn(cur);
    }
    found := true;
  }

  /** Lines 294-312, with the search bounded by `maxDraws` draws. On success the keys are
      those of the scan over the values drawn, which stopped as soon as it held `n` keys; on
      failure the scan over all `maxDraws` values drawn still held fewer than `n` keys. */
  method Hashmap<V(!new), H(==)>(g: Generator<V>, hashFn: V -> H, n: int, maxDraws: nat) returns (r: Result<seq<V>>)
    modifies g
    ensures old(g.queries) <= g.queries <= old(g.queries) + maxDraws
    ensures r.Ok? ==> r.value == Scanned(g, old(g.queries), g.queries, hashFn).keys
    ensures r.Ok? ==> |r.value| >= n
    ensures r.Ok? && n > 0 ==> g.queries > old(g.queries)
    ensures r.Ok? && n > 0 ==> |Scanned(g, old(g.queries), g.queries - 1, hashFn).keys| < n
    ensures r.Ok? && n > 0 ==> |r.value| == n + n % 2
    ensures n <= 0 ==> r == Ok([]) && g.queries == old(g.queries)
    ensures r.Err? ==> r.error == CollisionSearchExceeded
    ensures r.Err? ==> g.queries == old(g.queries) + maxDraws
    ensures r.Err? ==> |Scanned(g, old(g.queries), g.queries, hashFn).keys| < n
  {
    ghost var k := g.queries;
    ghost var q: nat := k;
    ghost var last: nat := k;
    var keys: seq<V> := [];
    var pairs: map<H, V> := map[];
    var hashes: set<H> := {};
    var drawn: nat := 0;
    while |keys| < n
      invariant g.queries == q && q == k + drawn && drawn <= maxDraws
      invariant Scanned(g, k, q, hashFn) == Scan(keys, pairs)
      invariant hashes == pairs.Keys
      invariant keys == [] || (q == last + 1 && |Scanned(g, k, last, hashFn).keys| < n)
      invariant n <= 0 ==> drawn == 0 && keys == []
      decreases maxDraws - drawn
    {
      if drawn == maxDraws {
        assert Scanned(g, k, g.queries, hashFn).keys == keys;
        return Err(CollisionSearchExceeded);
      }
      var cur := g.GetRandom();
      var found;
      ghost var e;
      found, e, cur, pairs, hashes, drawn := SeekCollision(g, hashFn, k, keys, q, cur, pairs, hashes, drawn + 1, maxDraws);
      if !found {
        assert Scanned(g, k, g.queries, hashFn).keys == keys;
        return Err(CollisionSearchExceeded);
      }
      PairStep(g, k, e, hashFn, keys, pairs);
      keys := keys + [cur, pairs[hashFn(cur)]];
      last, q := e, e + 1;
    }
    if n > 0 {
      StopLength(g, k, q, hashFn, n);
    }
    r := Ok(keys);
  }
}
