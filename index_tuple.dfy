/**
 * `IndexTuple<length, init>`: a type that is never constructed (its
 * constructor is private) and only answers `tuple_size` and `tuple_element`.
 */
module IndexTuples {
  import opened EnumerationTuples

  /** `tuple_size<IndexTuple<length, init>>::value`. */
  function TupleSize(length: int): nat
  {
    if length >= 0 then length else 0
  }

  /** The value of `tuple_element<i, IndexTuple<length, init>>::type`; no bound on `i` is checked. */
  function TupleElement(init: int, i: nat): int
  {
    init + i
  }

  /** Size and element queries describe exactly the enumeration `EnumerationTuple<int, length, init>`. */
  lemma {:induction false} AgreesWithEnumeration(length: int, init: int)
    ensures TupleSize(length) == |Enumeration(length, init)|
    ensures forall i :: 0 <= i < TupleSize(length) ==> TupleElement(init, i) == Enumeration(length, init)[i]
  {
    EnumerationElements(length, init);
  }

  /** `IndexTuple<3, 1>` enumerates 1, 2, 3. */
  lemma IndexTupleExample()
    ensures TupleSize(3) == 3
    ensures [TupleElement(1, 0), TupleElement(1, 1), TupleElement(1, 2)] == [1, 2, 3]
  {
  }
}
