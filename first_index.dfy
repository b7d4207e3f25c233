/**
 * Searching a tuple type: `FirstPredicateIndex` finds the first element type
 * from `start` on that a predicate accepts, `FirstTypeIndex` the first
 * occurrence of one type, and `FirstTypeIndexTuple` the first occurrence of
 * each type of a second tuple. A search that finds nothing is a compile-time
 * error in the source; here it is `None`.
 */
module FirstIndex {
  import opened Wrappers
  import opened TupleModifiers

  /**
   * `FirstPredicateIndex<Tuple, Predicate, start>::value`: `start` if the
   * predicate accepts element `start`, otherwise the search from `start + 1`;
   * reaching the end of the tuple is an error.
   */
  function FirstPredicateIndex<T>(t: seq<T>, accepts: T -> bool, start: nat): (r: Option<nat>)
    ensures r.Some? ==> start <= r.value < |t| && accepts(t[r.value])
    ensures r.Some? ==> forall i :: start <= i < r.value ==> !accepts(t[i])
    ensures r.None? <==> forall i :: start <= i < |t| ==> !accepts(t[i])
    decreases |t| - start
  {
    if start >= |t| then None
    else if accepts(t[start]) then Some(start)
    else FirstPredicateIndex(t, accepts, start + 1)
  }

  /** `IsType<T>::Predicate<U>`: accepts exactly the type `T`. */
  function IsType<T(==)>(x: T): T -> bool
  {
    u => u == x
  }

  /** `FirstTypeIndex<Tuple, T, start>`: the first position from `start` on that holds `T`. */
  function FirstTypeIndex<T(==)>(t: seq<T>, x: T, start: nat): Option<nat>
  {
    FirstPredicateIndex(t, IsType(x), start)
  }

  /** `p` is the first position of `x` in `t`. */
  predicate IsFirstIndex<T(==)>(t: seq<T>, x: T, p: int)
  {
    0 <= p < |t| && t[p] == x && forall i :: 0 <= i < p ==> t[i] != x
  }

  /** The first type index is found exactly when the type occurs from `start` on, and then it is its first occurrence there. */
  lemma FirstTypeIndexFinds<T>(t: seq<T>, x: T, start: nat)
    ensures FirstTypeIndex(t, x, start).Some? <==> exists i :: start <= i < |t| && t[i] == x
    ensures FirstTypeIndex(t, x, start).Some? ==> IsFirstIndex(t[start..], x, FirstTypeIndex(t, x, start).value - start)
  {
    var r := FirstTypeIndex(t, x, start);
    if r.Some? {
      assert t[r.value] == x;
      forall i | 0 <= i < r.value - start ensures t[start..][i] != x {
        assert t[start..][i] == t[start + i];
      }
    }
  }

  /**
   * `FirstTypeIndexTuple<Tuple, SubTuple, Seed, index>::Type`: pushes the first
   * index in `Tuple` of `SubTuple[index]` onto the seed and continues with the
   * next index; a missing type is an error.
   */
  function FirstTypeIndexTupleFrom<T(==)>(t: seq<T>, sub: seq<T>, seed: seq<int>, index: nat): (r: Option<seq<int>>)
    requires index <= |sub|
    ensures r.Some? <==> forall k :: index <= k < |sub| ==> sub[k] in t
    ensures r.Some? ==> |r.value| == |seed| + |sub| - index
    ensures r.Some? ==> forall k :: 0 <= k < |r.value| ==>
      if k < |seed| then r.value[k] == seed[k] else IsFirstIndex(t, sub[index + k - |seed|], r.value[k])
    decreases |sub| - index
  {
    if index == |sub| then Some(seed)
    else
      FirstTypeIndexFinds(t, sub[index], 0);
      assert t[0..] == t;
      match FirstTypeIndex(t, sub[index], 0)
      case None => None
      case Some(p) => FirstTypeIndexTupleFrom(t, sub, PushBack(seed, p), index + 1)
  }

  /** `FirstTypeIndexTuple<Tuple, SubTuple>::Type`, started from the empty seed. */
  function FirstTypeIndexTuple<T(==)>(t: seq<T>, sub: seq<T>): Option<seq<int>>
  {
    FirstTypeIndexTupleFrom(t, sub, [], 0)
  }

  /**
   * The index tuple exists exactly when every type of `sub` occurs in `t`;
   * it then has one entry per type of `sub`, the first position of that type.
   */
  lemma FirstTypeIndexTupleSpec<T>(t: seq<T>, sub: seq<T>)
    ensures FirstTypeIndexTuple(t, sub).Some? <==> forall k :: 0 <= k < |sub| ==> sub[k] in t
    ensures FirstTypeIndexTuple(t, sub).Some? ==>
      |FirstTypeIndexTuple(t, sub).value| == |sub| &&
      forall k :: 0 <= k < |sub| ==> IsFirstIndex(t, sub[k], FirstTypeIndexTuple(t, sub).value[k])
  {
    var seed: seq<int> := [];
    var r := FirstTypeIndexTupleFrom(t, sub, seed, 0);
    if r.Some? {
      forall k | 0 <= k < |sub| ensures IsFirstIndex(t, sub[k], r.value[k]) {
        assert 0 <= k < |r.value| && !(k < |seed|);
      }
    }
  }

  /**
   * For a tuple whose element types are distinct, the index tuple of a
   * sub-tuple recovers the positions it was selected by.
   */
  lemma RecoverPositions<T>(t: seq<T>, positions: seq<int>)
    requires forall i, j :: 0 <= i < j < |t| ==> t[i] != t[j]
    requires ValidPositions(t, positions)
    ensures FirstTypeIndexTuple(t, SubTuple(t, positions)) == Some(positions)
  {
    var sub := SubTuple(t, positions);
    forall k | 0 <= k < |sub| ensures sub[k] in t {
      assert t[positions[k]] == sub[k];
    }
    FirstTypeIndexTupleSpec(t, sub);
    var r := FirstTypeIndexTuple(t, sub).value;
    forall k | 0 <= k < |sub| ensures r[k] == positions[k] {
      assert IsFirstIndex(t, sub[k], r[k]);
      assert t[positions[k]] == sub[k];
    }
    assert r == positions;
  }

  /** The documented example: in (1, 2, 3, 4) the sub-tuple picked by (2, 1) is found at (2, 1). */
  lemma RecoverPositionsExample()
    ensures FirstTypeIndexTuple([1, 2, 3, 4], SubTuple([1, 2, 3, 4], [2, 1])) == Some([2, 1])
  {
    RecoverPositions([1, 2, 3, 4], [2, 1]);
  }
}
