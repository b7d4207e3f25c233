/**
 * `FieldVectorTuple<Field, Dimensions>`: the dense vector tuple whose block
 * `i` is a `FieldVector<Field, Dimensions[i]>`. Its overall dimension is
 * computed at compile time by the recursive `Accumulate`.
 */
module FieldVectorTuples {
  import opened DenseVectors
  import ForEach

  /** The types that the traits produce: the field type itself, or a field vector of a given length. */
  datatype TypeName = FieldType | FieldVector(dimension: nat)

  /** `TypeEvaluator<T>::Type` for the integral constant `T`. */
  function TypeEvaluator(n: nat): TypeName
  {
    FieldVector(n)
  }

  /** The raw tuple type `ForEachType<TypeEvaluator, Dimensions>::Type`. */
  function RawTuple(dims: seq<nat>): (r: seq<TypeName>)
    requires |dims| <= 9
    ensures |r| == |dims|
    ensures forall i :: 0 <= i < |dims| ==> r[i] == FieldVector(dims[i])
  {
    ForEach.ForEachType(TypeEvaluator, dims)
  }

  /** `tuple_size<FieldVectorTuple>`: the size of the raw tuple, one per dimension. */
  function TupleSize(dims: seq<nat>): (n: nat)
    requires |dims| <= 9
    ensures n == |dims|
  {
    |RawTuple(dims)|
  }

  /** `field_type_tuple`: the field type once per block. */
  function FieldTypeTuple(dims: seq<nat>): (r: seq<TypeName>)
    requires |dims| <= 9
    ensures |r| == TupleSize(dims) && forall i :: 0 <= i < |r| ==> r[i] == FieldType
  {
    if dims == [] then [] else FieldTypeTuple(dims[..|dims| - 1]) + [FieldType]
  }

  /**
   * `Accumulate<Dimensions, init, length>::value`: adds the first `length`
   * dimensions to `init`, starting from the last of them.
   */
  function Accumulate(dims: seq<nat>, init: int, length: nat): int
    requires length <= |dims|
    decreases length
  {
    if length == 0 then init else Accumulate(dims, init + dims[length - 1], length - 1)
  }

  /** `Dimension::value`. */
  function Dimension(dims: seq<nat>): int
  {
    Accumulate(dims, 0, |dims|)
  }

  /** The sum of a list of dimensions. */
  function Sum(dims: seq<nat>): nat
  {
    if dims == [] then 0 else Sum(dims[..|dims| - 1]) + dims[|dims| - 1]
  }

  lemma {:induction false} AccumulateIsSum(dims: seq<nat>, init: int, length: nat)
    requires length <= |dims|
    ensures Accumulate(dims, init, length) == init + Sum(dims[..length])
    decreases length
  {
    if length > 0 {
      AccumulateIsSum(dims, init + dims[length - 1], length - 1);
      assert dims[..length][..length - 1] == dims[..length - 1];
    }
  }

  /** The overall dimension is the sum of all dimensions; no dimensions give 0. */
  lemma DimensionIsSum(dims: seq<nat>)
    ensures Dimension(dims) == Sum(dims)
    ensures dims == [] ==> Dimension(dims) == 0
  {
    AccumulateIsSum(dims, 0, |dims|);
    assert dims[..|dims|] == dims;
  }

  /** Blocks whose sizes are the given dimensions. */
  predicate HasShape(bs: seq<seq<int>>, dims: seq<nat>)
  {
    |bs| == |dims| && forall i :: 0 <= i < |bs| ==> |bs[i]| == dims[i]
  }

  /** `size()` of a field vector tuple equals its `Dimension::value`. */
  lemma {:induction false} SizeIsDimension(bs: seq<seq<int>>, dims: seq<nat>)
    requires HasShape(bs, dims)
    ensures |Entries(bs)| == Dimension(dims)
  {
    EntriesSize(bs);
    DimensionIsSum(dims);
    ShapeSize(bs, dims);
  }

  lemma {:induction false} ShapeSize(bs: seq<seq<int>>, dims: seq<nat>)
    requires HasShape(bs, dims)
    ensures TotalSize(bs) == Sum(dims)
  {
    if bs != [] {
      ShapeSize(bs[..|bs| - 1], dims[..|dims| - 1]);
    }
  }

  /** Blocks of the given dimensions, all zero. */
  function Zeros(dims: seq<nat>): (r: seq<seq<int>>)
    ensures HasShape(r, dims)
  {
    if dims == [] then [] else Zeros(dims[..|dims| - 1]) + [seq(dims[|dims| - 1], _ => 0)]
  }

  /**
   * `FieldVectorTuple()`: blocks of the given dimensions. The entries a
   * default-constructed `FieldVector` holds are not promised.
   */
  method New(dims: seq<nat>) returns (v: DenseVectorTuple)
    ensures fresh(v) && HasShape(v.blocks, dims)
  {
    v := new DenseVectorTuple(Zeros(dims));
  }

  /** `FieldVectorTuple(alpha)`: constructed, then assigned the scalar `alpha`. */
  method NewFilled(dims: seq<nat>, alpha: int) returns (v: DenseVectorTuple)
    ensures fresh(v) && HasShape(v.blocks, dims)
    ensures forall b, k :: 0 <= b < |v.blocks| && 0 <= k < |v.blocks[b]| ==> v.blocks[b][k] == alpha
  {
    v := New(dims);
    v.AssignScalar(alpha);
  }

  /** A field vector tuple of dimensions 1, 2, 3 has 6 entries, as the dense vector test checks. */
  lemma DimensionExample()
    ensures Dimension([1, 2, 3]) == 6
    ensures HasShape(Zeros([1, 2, 3]), [1, 2, 3]) && |Entries(Zeros([1, 2, 3]))| == 6
  {
    var dims: seq<nat> := [1, 2, 3];
    assert Accumulate(dims, 0, 3) == Accumulate(dims, 3, 2) == Accumulate(dims, 5, 1) == Accumulate(dims, 6, 0);
    SizeIsDimension(Zeros(dims), dims);
  }
}
