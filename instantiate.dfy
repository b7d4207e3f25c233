/**
 * `InstantiateTuple<Tuple, Key>::apply(key)`: a tuple whose every element is
 * constructed from the same key. The tuple type is the list of its element
 * types, each given by its constructor from a key.
 */
module InstantiateTuple {
  import opened TupleModifiers

  /**
   * `InstantiateTuple<Tuple, Key, Seed, len>::append`: constructs the element
   * at `index = size - len` from the key, pushes it onto the seed and
   * continues with `len - 1`; at `len == 0` the seed is the result.
   */
  function Append<K, E>(types: seq<K -> E>, key: K, seed: seq<E>, len: nat): (r: seq<E>)
    requires len <= |types|
    ensures |r| == |seed| + len
    ensures forall k :: 0 <= k < |r| ==>
      r[k] == if k < |seed| then seed[k] else types[|types| - len + k - |seed|](key)
    decreases len
  {
    if len == 0 then seed
    else
      var index := |types| - len;
      Append(types, key, PushBack(seed, types[index](key)), len - 1)
  }

  /** `InstantiateTuple<Tuple, Key>::apply(key)`; the empty tuple is default-constructed without using the key. */
  function Apply<K, E>(types: seq<K -> E>, key: K): seq<E>
  {
    if |types| == 0 then [] else Append(types, key, [], |types|)
  }

  /** The result has one element per element type, element `i` constructed from the key. */
  lemma ApplyConstructsEach<K, E>(types: seq<K -> E>, key: K)
    ensures |Apply(types, key)| == |types|
    ensures forall i :: 0 <= i < |types| ==> Apply(types, key)[i] == types[i](key)
    ensures types == [] ==> Apply(types, key) == []
  {
  }

  /** Instantiating one more element type appends one element and keeps the others. */
  lemma ApplyPushBack<K, E>(types: seq<K -> E>, ctor: K -> E, key: K)
    ensures Apply(types + [ctor], key) == Apply(types, key) + [ctor(key)]
  {
    ApplyConstructsEach(types, key);
    ApplyConstructsEach(types + [ctor], key);
  }
}
