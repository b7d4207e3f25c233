/**
 * `ContainsType<Tuple, Type, N>`: whether `Type` is one of the first `N`
 * element types of `Tuple`. Unlike `FirstTypeIndex`, a missing type is not an
 * error.
 */
module ContainsType {
  import opened Wrappers

  /**
   * The template as written: `N == 0` gives `false`; otherwise the value reads
   * the member `position` of `ContainsType<Tuple, Type, N-1>`, which the
   * template does not declare, so the value is ill-formed (`None`).
   */
  function ContainsTypeAsWritten<T(==)>(t: seq<T>, x: T, n: nat): (r: Option<bool>)
    requires n <= |t|
    ensures r.Some? <==> n == 0
    ensures r.Some? ==> !r.value
  {
    if n == 0 then Some(false) else None
  }

  /** The evidently intended recursion: element `N-1` is `Type`, or the first `N-1` elements contain it. */
  function Contains<T(==)>(t: seq<T>, x: T, n: nat): bool
    requires n <= |t|
  {
    if n == 0 then false else t[n - 1] == x || Contains(t, x, n - 1)
  }

  /** The intended value holds exactly when some element among the first `N` is `Type`. */
  lemma {:induction false} ContainsIsMembership<T>(t: seq<T>, x: T, n: nat)
    requires n <= |t|
    ensures Contains(t, x, n) <==> exists i :: 0 <= i < n && t[i] == x
  {
    if n > 0 {
      ContainsIsMembership(t, x, n - 1);
    }
  }

  /** The default `N` is the whole tuple. */
  function ContainsType<T(==)>(t: seq<T>, x: T): (r: bool)
    ensures r <==> x in t
  {
    ContainsIsMembership(t, x, |t|);
    Contains(t, x, |t|)
  }

  /** The as-written template agrees with the intended one only on the empty prefix. */
  lemma AsWrittenIllFormed<T>(t: seq<T>, x: T, n: nat)
    requires n <= |t|
    ensures ContainsTypeAsWritten(t, x, n) == Some(Contains(t, x, n)) <==> n == 0
  {
  }

  /**
   * The test over the tuple (1, 2, 3, 4): every element type is contained and
   * a type not among them is not; the as-written template cannot answer.
   */
  lemma ContainsExample()
    ensures forall i :: 0 <= i < 4 ==> ContainsType([1, 2, 3, 4], [1, 2, 3, 4][i])
    ensures !ContainsType([1, 2, 3, 4], 5)
    ensures ContainsTypeAsWritten([1, 2, 3, 4], 1, 4) == None
  {
  }
}
