/**
 * Checking a predicate on every element of a tuple. `CheckPredicate` is the
 * static form over element types; `check_predicate_tuple` visits the element
 * values with a functor that folds the predicate's answers into a flag.
 *
 * A predicate object is its state `p` together with the evaluation rule
 * `holds(p, x)`; `Predicate()` is the default-constructed state.
 */
module CheckPredicate {

  /** `CheckPredicate<Tuple, Predicate, N>::value`: the predicate on element `N-1` and on the first `N-1` elements. */
  function CheckPredicate<T>(t: seq<T>, accepts: T -> bool, n: nat): bool
    requires n <= |t|
  {
    if n == 0 then true else accepts(t[n - 1]) && CheckPredicate(t, accepts, n - 1)
  }

  /** The static check holds exactly when the predicate accepts each of the first `N` element types. */
  lemma {:induction false} CheckPredicateIsConjunction<T>(t: seq<T>, accepts: T -> bool, n: nat)
    requires n <= |t|
    ensures CheckPredicate(t, accepts, n) <==> forall i :: 0 <= i < n ==> accepts(t[i])
  {
    if n > 0 {
      CheckPredicateIsConjunction(t, accepts, n - 1);
    }
  }

  /**
   * `check_predicate_tuple` as written: the functor's flag starts `true` and is
   * and-ed with the answer for every element, with no early exit; the
   * functor's `predicate_` member is default-constructed, so the predicate
   * object passed in is never consulted. `visited` counts the calls of `visit`.
   */
  method CheckPredicateTupleAsWritten<P, E>(t: seq<E>, given: P, defaultPredicate: P, holds: (P, E) -> bool)
    returns (v: bool, visited: nat)
    ensures v <==> forall i :: 0 <= i < |t| ==> holds(defaultPredicate, t[i])
    ensures visited == |t|
  {
    var stored := defaultPredicate;
    v, visited := true, 0;
    while visited < |t|
      invariant visited <= |t|
      invariant v <==> forall i :: 0 <= i < visited ==> holds(stored, t[i])
    {
      var answer := holds(stored, t[visited]);
      v := v && answer;
      visited := visited + 1;
    }
  }

  /** The evidently intended functor, which stores the predicate object it is given. */
  method CheckPredicateTuple<P, E>(t: seq<E>, given: P, holds: (P, E) -> bool)
    returns (v: bool, visited: nat)
    ensures v <==> forall i :: 0 <= i < |t| ==> holds(given, t[i])
    ensures visited == |t|
  {
    var stored := given;
    v, visited := true, 0;
    while visited < |t|
      invariant visited <= |t|
      invariant v <==> forall i :: 0 <= i < visited ==> holds(stored, t[i])
    {
      var answer := holds(stored, t[visited]);
      v := v && answer;
      visited := visited + 1;
    }
  }

  /** Threshold predicate: accepts values of at least `p`; its default state is 0. */
  function AtLeast(p: int, x: int): bool
  {
    x >= p
  }

  /**
   * With a stateful predicate the as-written check answers for the default
   * state: "at least 5" on the tuple (1) gives `true` instead of `false`.
   */
  method PredicateIgnoredExample() returns (asWritten: bool, intended: bool)
    ensures asWritten && !intended
  {
    var n: nat;
    asWritten, n := CheckPredicateTupleAsWritten([1], 5, 0, AtLeast);
    intended, n := CheckPredicateTuple([1], 5, AtLeast);
    assert [1][0] == 1 && !AtLeast(5, 1);
  }

  /** The runtime check agrees with the static check over the element values. */
  method CheckAgreesWithStatic<E>(t: seq<E>, accepts: E -> bool) returns (v: bool)
    ensures v == CheckPredicate(t, accepts, |t|)
  {
    var visited: nat;
    v, visited := CheckPredicateTuple(t, accepts, (a: E -> bool, x: E) => a(x));
    CheckPredicateIsConjunction(t, accepts, |t|);
  }
}
