/**
 * Element-wise transformation of tuple values: `genericTransformTuple`
 * applies a functor to every element, `TransformTupleFunctor` binds up to ten
 * extra arguments to a type evaluator's `apply`, and `transformTuple`
 * combines the two. The const and non-const overloads of the source differ
 * only in the C++ reference qualifiers and compute the same tuple, so each is
 * one function here.
 */
module Transform {
  import opened EnumerationTuples
  import ForEach

  /**
   * `genericTransformTuple(tuple, functor)`: the backend is called with the
   * enumeration 0, …, size-1 and builds `Result(functor(get<T::value>(tuple))...)`.
   */
  function GenericTransformTuple<E, F>(t: seq<E>, functor: E -> F): (r: seq<F>)
    ensures |r| == |t|
    ensures forall i :: 0 <= i < |t| ==> r[i] == functor(t[i])
  {
    var e := Enumeration(|t|, 0);
    EnumerationElements(|t|, 0);
    seq(|e|, k requires 0 <= k < |e| => functor(t[e[k]]))
  }

  /** The value transformation has the type the type-level map `ForEachType` computes. */
  lemma GenericTransformMatchesForEachType<E, F>(t: seq<E>, functor: E -> F)
    requires |t| <= 9
    ensures GenericTransformTuple(t, functor) == ForEach.ForEachType(functor, t)
  {
  }

  /**
   * `TransformTupleFunctor<TE, A0, …>::operator()(t)`: `TE<T>::apply(t, a0, …)`
   * with the stored extra arguments in order; at most ten are supported.
   */
  function TransformTupleFunctor<E, A, F>(apply: (E, seq<A>) -> F, args: seq<A>): E -> F
    requires |args| <= 10
  {
    x => apply(x, args)
  }

  /** `transformTuple<TE>(orig, a0, …)`: `genericTransformTuple(orig, makeTransformTupleFunctor<TE>(a0, …))`. */
  function TransformTuple<E, A, F>(orig: seq<E>, apply: (E, seq<A>) -> F, args: seq<A>): seq<F>
    requires |args| <= 10
  {
    GenericTransformTuple(orig, TransformTupleFunctor(apply, args))
  }

  /** Element `i` of `transformTuple` is `TE::apply` of element `i` with the extra arguments, and the length is kept. */
  lemma TransformTupleElements<E, A, F>(orig: seq<E>, apply: (E, seq<A>) -> F, args: seq<A>)
    requires |args| <= 10
    ensures |TransformTuple(orig, apply, args)| == |orig|
    ensures forall i :: 0 <= i < |orig| ==> TransformTuple(orig, apply, args)[i] == apply(orig[i], args)
  {
    var functor := TransformTupleFunctor(apply, args);
    forall i | 0 <= i < |orig| ensures TransformTuple(orig, apply, args)[i] == apply(orig[i], args) {
      assert functor(orig[i]) == apply(orig[i], args);
    }
  }

  /** Transforming twice is transforming once with the composed functor. */
  lemma TransformComposes<E, F, G>(t: seq<E>, f: E -> F, g: F -> G)
    ensures GenericTransformTuple(GenericTransformTuple(t, f), g) == GenericTransformTuple(t, x => g(f(x)))
  {
  }
}
