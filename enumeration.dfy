/**
 * `EnumerationTuple<T, length, init>`: the tuple of integral constants
 * init, init+1, …, init+length-1, modelled by the list of their values.
 */
module EnumerationTuples {
  function Max(n: int, m: int): int { if n >= m then n else m }

  /** `Create<n, m, Args...>`: appends the constant `m` and moves on until `m` reaches `n`. */
  function Create(n: int, m: int, args: seq<int>): seq<int>
    requires m <= n
    decreases n - m
  {
    if m == n then args else Create(n, m + 1, args + [m])
  }

  /** `EnumerationTuple<T, length, init>::Type`. */
  function Enumeration(length: int, init: int): seq<int>
  {
    Create(Max(length, 0) + init, init, [])
  }

  lemma {:induction false} CreateAppends(n: int, m: int, args: seq<int>)
    requires m <= n
    ensures |Create(n, m, args)| == |args| + (n - m)
    ensures forall k :: 0 <= k < |Create(n, m, args)| ==>
      Create(n, m, args)[k] == if k < |args| then args[k] else m + (k - |args|)
    decreases n - m
  {
    if m < n {
      CreateAppends(n, m + 1, args + [m]);
    }
  }

  /** The enumeration has `max(length, 0)` elements and element `k` is `init + k`. */
  lemma {:induction false} EnumerationElements(length: int, init: int)
    ensures |Enumeration(length, init)| == Max(length, 0)
    ensures forall k :: 0 <= k < |Enumeration(length, init)| ==> Enumeration(length, init)[k] == init + k
  {
    CreateAppends(Max(length, 0) + init, init, []);
  }

  /** A non-positive length gives the empty tuple. */
  lemma {:induction false} EmptyEnumeration(length: int, init: int)
    requires length <= 0
    ensures Enumeration(length, init) == []
  {
    EnumerationElements(length, init);
  }

  /** `EnumerationTuple<int, 3, 1>` is (1, 2, 3). */
  lemma {:induction false} EnumerationExample()
    ensures Enumeration(3, 1) == [1, 2, 3]
  {
    EnumerationElements(3, 1);
  }
}
