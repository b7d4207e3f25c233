/**
 * Tuples of pointers: `NullPointerInitialiser` builds one with every pointer
 * null, `ValidPointerTupleCheck` tells whether every pointer can be
 * dereferenced, and `DereferenceTuple` turns the pointers into the objects
 * they point to. Memory is a map from addresses to stored values.
 */
module PointerTuples {
  import opened TupleModifiers

  /** A raw pointer: null or the address of an object. */
  datatype Ptr = Null | Addr(address: nat)

  predicate AllNull(t: seq<Ptr>)
  {
    forall i :: 0 <= i < |t| ==> t[i] == Null
  }

  predicate NoneNull(t: seq<Ptr>)
  {
    forall i :: 0 <= i < |t| ==> t[i] != Null
  }

  /**
   * `NullPointerInitialiser<tuple<T0*, …>>::apply()`: one `static_cast<Ti*>(0)`
   * per element; specialised for tuples of at most nine pointers.
   */
  function NullPointerInitialiser(n: nat): (r: seq<Ptr>)
    requires n <= 9
    ensures |r| == n && AllNull(r)
  {
    if n == 0 then [] else PushBack(NullPointerInitialiser(n - 1), Null)
  }

  /**
   * `ValidPointerTupleCheck<Tuple>::apply(tuple)`: the visitor's flag starts
   * `true` and is and-ed with `bool(ptr)` for every pointer in order.
   */
  method ValidPointerTupleCheck(t: seq<Ptr>) returns (v: bool)
    ensures v <==> NoneNull(t)
  {
    v := true;
    var i := 0;
    while i < |t|
      invariant i <= |t|
      invariant v <==> NoneNull(t[..i])
    {
      assert t[..i + 1] == t[..i] + [t[i]];
      v := v && t[i] != Null;
      i := i + 1;
    }
    assert t[..i] == t;
  }

  /** Every pointer is non-null and points into memory. */
  predicate Dereferenceable<V>(t: seq<Ptr>, memory: map<nat, V>)
  {
    forall i :: 0 <= i < |t| ==> t[i].Addr? && t[i].address in memory
  }

  /**
   * `DereferenceTuple<Tuple, Seed, index>::append`: pushes `*get<index>(tuple)`
   * onto the seed and continues with `index + 1`; at `index == size` the seed
   * is the result.
   */
  function DereferenceFrom<V>(t: seq<Ptr>, memory: map<nat, V>, seed: seq<V>, index: nat): (r: seq<V>)
    requires index <= |t| && Dereferenceable(t, memory)
    ensures |r| == |seed| + |t| - index
    ensures forall k :: 0 <= k < |r| ==>
      r[k] == if k < |seed| then seed[k] else memory[t[index + k - |seed|].address]
    decreases |t| - index
  {
    if index == |t| then seed
    else DereferenceFrom(t, memory, PushBack(seed, memory[t[index].address]), index + 1)
  }

  /** `DereferenceTuple<Tuple>::apply(tuple)`: the empty tuple gives the empty tuple. */
  function DereferenceTuple<V>(t: seq<Ptr>, memory: map<nat, V>): seq<V>
    requires Dereferenceable(t, memory)
  {
    if |t| == 0 then [] else DereferenceFrom(t, memory, [], 0)
  }

  /** Dereferencing keeps the length and element `i` is the object pointer `i` points to. */
  lemma DereferenceElements<V>(t: seq<Ptr>, memory: map<nat, V>)
    requires Dereferenceable(t, memory)
    ensures |DereferenceTuple(t, memory)| == |t|
    ensures forall i :: 0 <= i < |t| ==> DereferenceTuple(t, memory)[i] == memory[t[i].address]
  {
  }

  /** Pointers to the given addresses, as `transformTuple<AddPtrTypeEvaluator>` builds them. */
  function PointTo(addresses: seq<nat>): (r: seq<Ptr>)
    ensures |r| == |addresses|
    ensures forall i :: 0 <= i < |r| ==> r[i] == Addr(addresses[i])
  {
    if addresses == [] then [] else [Addr(addresses[0])] + PointTo(addresses[1..])
  }

  /**
   * The check's verdicts on the tuples of the test: a null-initialised tuple
   * with at least one pointer is invalid, the empty tuple is valid, and a
   * tuple re-pointed at existing objects is valid and dereferences to them.
   */
  method CheckVerdicts<V>(n: nat, addresses: seq<nat>, memory: map<nat, V>)
    returns (nullValid: bool, emptyValid: bool, repointedValid: bool)
    requires 0 < n <= 9
    requires forall i :: 0 <= i < |addresses| ==> addresses[i] in memory
    ensures !nullValid && emptyValid && repointedValid
    ensures Dereferenceable(PointTo(addresses), memory)
    ensures forall i :: 0 <= i < |addresses| ==>
      DereferenceTuple(PointTo(addresses), memory)[i] == memory[addresses[i]]
  {
    var nulls := NullPointerInitialiser(n);
    assert nulls[0] == Null;
    nullValid := ValidPointerTupleCheck(nulls);
    emptyValid := ValidPointerTupleCheck([]);
    repointedValid := ValidPointerTupleCheck(PointTo(addresses));
    DereferenceElements(PointTo(addresses), memory);
  }
}
