/**
 * `TypeIndexedTuple<Tuple, Types>`: a tuple whose entries are addressed by
 * type. The entry for type `T` is the one at the first position of `T` in
 * `Types`; `Types` is documented to hold distinct types.
 */
module TypeIndexedTuples {
  import opened Wrappers
  import opened FirstIndex

  class TypeIndexedTuple<K(==,!new), V> {
    const types: seq<K>
    var tuple: seq<V>

    /** `TypeIndexedTuple(tuple)`. */
    constructor (types: seq<K>, tuple: seq<V>)
      ensures this.types == types && this.tuple == tuple
    {
      this.types := types;
      this.tuple := tuple;
    }

    /** `Position<T>::value`: `FirstTypeIndex<Types, T>::value`; `None` when `T` is not among the types. */
    function Position(x: K): Option<nat>
    {
      FirstTypeIndex(types, x, 0)
    }

    /** `at<T>()` compiles: `T` is among the types and its position is an index of the tuple. */
    predicate Indexes(x: K)
      reads this
    {
      Position(x).Some? && Position(x).value < |tuple|
    }

    /** `at<T>()` (and `operator[]`, whose argument only names the type): the entry at the position of `T`. */
    function At(x: K): (r: V)
      reads this
      requires Indexes(x)
      ensures exists p :: IsFirstIndex(types, x, p) && p < |tuple| && r == tuple[p]
    {
      FirstTypeIndexFinds(types, x, 0);
      assert types[0..] == types;
      tuple[Position(x).value]
    }

    /** `get<i>(t)`: forwards to the wrapped tuple. */
    function Get(i: nat): V
      reads this
      requires i < |tuple|
    {
      tuple[i]
    }

    /** `tuple_size`: the size of the wrapped tuple. */
    function Size(): nat
      reads this
    {
      |tuple|
    }

    /** Writing through the reference `at<T>()` returns: only the entry of `T` changes. */
    method SetAt(x: K, v: V)
      requires Indexes(x)
      modifies this
      ensures tuple == old(tuple)[Position(x).value := v]
      ensures Indexes(x) && At(x) == v
      ensures forall y :: old(Indexes(y)) && Position(y) != Position(x) ==> Indexes(y) && At(y) == old(At(y))
    {
      tuple := tuple[Position(x).value := v];
    }

    /** With distinct types, distinct types that both index the tuple name distinct entries. */
    lemma DistinctTypesDistinctEntries(x: K, y: K)
      requires forall i, j :: 0 <= i < j < |types| ==> types[i] != types[j]
      requires Indexes(x) && Indexes(y) && x != y
      ensures Position(x) != Position(y)
    {
      FirstTypeIndexFinds(types, x, 0);
      FirstTypeIndexFinds(types, y, 0);
      assert types[0..] == types;
    }

    /** `at<T>()` is `get<i>` at the position of `T`. */
    lemma AtIsGet(x: K)
      requires Indexes(x)
      ensures At(x) == Get(Position(x).value)
      ensures types[Position(x).value] == x
    {
      FirstTypeIndexFinds(types, x, 0);
      assert types[0..] == types;
    }
  }
}
