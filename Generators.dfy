/** The value source the exploit constructors query. The generator classes themselves are
    not part of this model: a generator is described by what it answers. Every query to
    get_random, get_less_than or get_greater_than is answered by an oracle indexed by the
    number of such queries asked so far (its randomness state); get_min_value and
    get_max_value return the configured bounds and consume nothing. */
module Generators {

  class Generator<V(!new)> {
    /** The domain's ordering `<`. */
    const lt: (V, V) -> bool
    /** draw(k): the answer to get_random() when it is query number k. */
    const draw: nat -> V
    /** below(k, v): the answer to get_less_than(v) when it is query number k. */
    const below: (nat, V) -> V
    /** above(k, v): the answer to get_greater_than(v) when it is query number k. */
    const above: (nat, V) -> V
    const minValue: V
    const maxValue: V
    /** Number of get_random / get_less_than / get_greater_than queries answered so far. */
    var queries: nat

    constructor (lt: (V, V) -> bool, draw: nat -> V, below: (nat, V) -> V,
                 above: (nat, V) -> V, minValue: V, maxValue: V)
      ensures this.lt == lt && this.draw == draw && this.below == below && this.above == above
      ensures this.minValue == minValue && this.maxValue == maxValue
      ensures queries == 0
    {
      this.lt, this.draw, this.below, this.above := lt, draw, below, above;
      this.minValue, this.maxValue := minValue, maxValue;
      queries := 0;
    }

    /** `<` is a strict order. This and the two predicates below are assumptions about the
        generator classes, which are not part of this model. */
    ghost predicate StrictOrder() {
      && (forall a :: !lt(a, a))
      && (forall a, b, c :: lt(a, b) && lt(b, c) ==> lt(a, c))
    }

    /** get_greater_than(v) is above v, in a strict order. */
    ghost predicate Rises() {
      StrictOrder() && forall k, v :: lt(v, above(k, v))
    }

    /** get_less_than(v) is below v, in a strict order. */
    ghost predicate Falls() {
      StrictOrder() && forall k, v :: lt(below(k, v), v)
    }

    method GetRandom() returns (v: V)
      modifies this
      ensures v == draw(old(queries)) && queries == old(queries) + 1
    {
      v := draw(queries);
      queries := queries + 1;
    }

    method GetLessThan(v: V) returns (u: V)
      modifies this
      ensures u == below(old(queries), v) && queries == old(queries) + 1
      ensures Falls() ==> lt(u, v)
    {
      u := below(queries, v);
      queries := queries + 1;
    }

    method GetGreaterThan(v: V) returns (u: V)
      modifies this
      ensures u == above(old(queries), v) && queries == old(queries) + 1
      ensures Rises() ==> lt(v, u)
    {
      u := above(queries, v);
      queries := queries + 1;
    }

    method GetMinValue() returns (v: V)
      ensures v == minValue
    {
      v := minValue;
    }

    method GetMaxValue() returns (v: V)
      ensures v == maxValue
    {
      v := maxValue;
    }
  }
}
