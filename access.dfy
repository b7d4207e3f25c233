/**
 * Reverse element access: `At<N>::get` and `AtType<N, Tuple>` count from the
 * end of the tuple, `N = 0` being the last element.
 */
module ReverseAccess {

  /** `At<N>::get(t)` / `AtType<N, Tuple>::Type`: `get<size - N - 1>(t)`. */
  function At<E>(t: seq<E>, n: nat): E
    requires n < |t|
  {
    t[|t| - n - 1]
  }

  /** The tuple in reverse order, element by element from the back. */
  function Reverse<E>(t: seq<E>): (r: seq<E>)
    ensures |r| == |t|
  {
    if t == [] then [] else [t[|t| - 1]] + Reverse(t[..|t| - 1])
  }

  /** `At<N>` is the `N`-th element of the reversed tuple; `At<0>` is the last element. */
  lemma {:induction false} AtIsReverseIndex<E>(t: seq<E>, n: nat)
    requires n < |t|
    ensures At(t, n) == Reverse(t)[n]
    ensures At(t, 0) == t[|t| - 1]
  {
    if n > 0 {
      AtIsReverseIndex(t[..|t| - 1], n - 1);
    }
  }

  /** Reverse access on a tuple with one more element at the back is unchanged for the old elements. */
  lemma PushBackShiftsAt<E>(t: seq<E>, x: E, n: nat)
    requires n < |t|
    ensures At(t + [x], n + 1) == At(t, n)
    ensures At(t + [x], 0) == x
  {
  }
}
