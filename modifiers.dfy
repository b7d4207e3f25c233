/**
 * Tuple modifiers and sub-tuples: push and pop at either end, the left fold
 * `ReduceTuple` with `JoinTuples` and `FlattenTuple` built on it, and
 * `SubTuple`/`sub_tuple`, which picks elements by a list of positions. The
 * two headers depend on each other (popping is a sub-tuple, a sub-tuple is
 * built by pushing), so they form one module. A tuple is the list of its
 * elements; a tuple type is the list of its element types, so the same
 * functions serve the type-level templates and the value-level functions.
 */
module TupleModifiers {
  import opened EnumerationTuples

  /** `Dune::get<I::value>(tuple)...` over a list of indices. */
  function Gather<E>(t: seq<E>, indices: seq<int>): (r: seq<E>)
    requires forall k :: 0 <= k < |indices| ==> 0 <= indices[k] < |t|
    ensures |r| == |indices| && forall k :: 0 <= k < |indices| ==> r[k] == t[indices[k]]
  {
    seq(|indices|, k requires 0 <= k < |indices| => t[indices[k]])
  }

  /** The elements of `t` gathered by the enumeration 0, …, |t|-1 are `t` itself. */
  lemma {:induction false} GatherAll<E>(t: seq<E>)
    ensures var e := Enumeration(|t|, 0);
      (forall k :: 0 <= k < |e| ==> 0 <= e[k] < |t|) && Gather(t, e) == t
  {
    EnumerationElements(|t|, 0);
  }

  /** `PushBackTuple::apply` / `tuple_push_back`: `Type(get<I>(tuple)..., t)`. */
  function PushBack<E>(t: seq<E>, x: E): (r: seq<E>)
    ensures r == t + [x]
  {
    GatherAll(t);
    Gather(t, Enumeration(|t|, 0)) + [x]
  }

  /** `PushFrontTuple::apply` / `tuple_push_front`: `Type(t, get<I>(tuple)...)`. */
  function PushFront<E>(t: seq<E>, x: E): (r: seq<E>)
    ensures r == [x] + t
  {
    GatherAll(t);
    [x] + Gather(t, Enumeration(|t|, 0))
  }

  // ---------------------------------------------------------------------------
  // SubTuple
  // ---------------------------------------------------------------------------

  predicate ValidPositions<E>(t: seq<E>, positions: seq<int>)
  {
    forall k :: 0 <= k < |positions| ==> 0 <= positions[k] < |t|
  }

  /**
   * `SubTuple<Tuple, Positions, Seed, index, size>::append`: pushes
   * `tuple[Positions[index]]` onto the seed and continues with the next
   * index; at `index == size` the seed is the result.
   */
  function Append<E>(t: seq<E>, positions: seq<int>, seed: seq<E>, index: nat): (r: seq<E>)
    requires index <= |positions| && ValidPositions(t, positions)
    ensures |r| == |seed| + |positions| - index
    ensures forall k :: 0 <= k < |r| ==>
      r[k] == if k < |seed| then seed[k] else t[positions[index + k - |seed|]]
    decreases |positions| - index
  {
    if index == |positions| then seed
    else Append(t, positions, PushBack(seed, t[positions[index]]), index + 1)
  }

  /**
   * `SubTuple<Tuple, Positions>::apply` and `sub_tuple<Positions>(tuple)`:
   * an empty position list yields a default-constructed empty tuple,
   * otherwise the elements at the given positions, in the order of the list.
   */
  function SubTuple<E>(t: seq<E>, positions: seq<int>): (r: seq<E>)
    requires ValidPositions(t, positions)
    ensures |r| == |positions| && forall k :: 0 <= k < |positions| ==> r[k] == t[positions[k]]
  {
    if |positions| == 0 then [] else Append(t, positions, [], 0)
  }

  /** Tuple (1, 2, 3, 4) with positions (2, 1) gives (3, 2). */
  lemma SubTupleExample()
    ensures SubTuple([1, 2, 3, 4], [2, 1]) == [3, 2]
  {
  }

  // ---------------------------------------------------------------------------
  // Popping
  // ---------------------------------------------------------------------------

  /** The positions `EnumerationTuple<int, size-1, init>` gives a pop. */
  lemma {:induction false} PopPositions<E>(t: seq<E>, init: int)
    requires init == 0 || init == 1
    ensures ValidPositions(t, Enumeration(|t| - 1, init))
    ensures |t| > 0 ==> SubTuple(t, Enumeration(|t| - 1, init)) == t[init..init + |t| - 1]
    ensures |t| == 0 ==> SubTuple(t, Enumeration(|t| - 1, init)) == []
  {
    var e := Enumeration(|t| - 1, init);
    EnumerationElements(|t| - 1, init);
    if |t| > 0 {
      SubTupleOfRange(t, e, init);
    }
  }

  /** Consecutive positions from `init` select the slice that starts at `init`. */
  lemma SubTupleOfRange<E>(t: seq<E>, positions: seq<int>, init: nat)
    requires init + |positions| <= |t|
    requires forall k :: 0 <= k < |positions| ==> positions[k] == init + k
    ensures ValidPositions(t, positions)
    ensures SubTuple(t, positions) == t[init..init + |positions|]
  {
    assert ValidPositions(t, positions);
    RangeSelected(t, positions, init, SubTuple(t, positions));
  }

  lemma RangeSelected<E>(t: seq<E>, positions: seq<int>, init: nat, r: seq<E>)
    requires init + |positions| <= |t| && |r| == |positions|
    requires forall k :: 0 <= k < |positions| ==> positions[k] == init + k
    requires ValidPositions(t, positions) && forall k :: 0 <= k < |positions| ==> r[k] == t[positions[k]]
    ensures r == t[init..init + |positions|]
  {
  }

  /** `PopBackTuple<Tuple>::Type` and `tuple_pop_back`: all but the last element. */
  function PopBack<E>(t: seq<E>): (r: seq<E>)
    ensures |t| > 0 ==> r == t[..|t| - 1]
    ensures |t| == 0 ==> r == []
  {
    PopPositions(t, 0);
    SubTuple(t, Enumeration(|t| - 1, 0))
  }

  /** `PopFrontTuple<Tuple>::Type`: all but the first element. */
  function PopFront<E>(t: seq<E>): (r: seq<E>)
    ensures |t| > 0 ==> r == t[1..]
    ensures |t| == 0 ==> r == []
  {
    PopPositions(t, 1);
    SubTuple(t, Enumeration(|t| - 1, 1))
  }

  /** `tuple_pop_front` as written: its enumeration starts at 0, not 1. */
  function TuplePopFrontAsWritten<E>(t: seq<E>): seq<E>
  {
    PopPositions(t, 0);
    SubTuple(t, Enumeration(|t| - 1, 0))
  }

  /**
   * `tuple_pop_front` as written removes the last element, exactly like
   * `tuple_pop_back`, and so disagrees with its own declared result type
   * `PopFrontTuple` whenever the first two elements differ.
   */
  lemma {:induction false} PopFrontMismatch<E>(t: seq<E>)
    ensures TuplePopFrontAsWritten(t) == PopBack(t)
    ensures |t| >= 2 && t[0] != t[1] ==> TuplePopFrontAsWritten(t) != PopFront(t)
  {
    PopPositions(t, 0);
    PopPositions(t, 1);
    if |t| >= 2 {
      assert TuplePopFrontAsWritten(t)[0] == t[0];
      assert PopFront(t)[0] == t[1];
    }
  }

  /** The two-element case: `tuple_pop_front((1, 2))` is (1) where (2) is meant. */
  lemma PopFrontCounterexample()
    ensures TuplePopFrontAsWritten([1, 2]) == [1]
    ensures PopFront([1, 2]) == [2]
  {
    PopFrontMismatch([1, 2]);
  }

  // ---------------------------------------------------------------------------
  // ReduceTuple, JoinTuples, FlattenTuple
  // ---------------------------------------------------------------------------

  /**
   * `ReduceTuple<F, Tuple, Seed, N>`: `F<Reduce<N-1>, tuple_element<N-1>>`,
   * and `Seed` for `N == 0`.
   */
  function Reduce<A, E>(f: (A, E) -> A, t: seq<E>, seed: A, n: nat): A
    requires n <= |t|
  {
    if n == 0 then seed else f(Reduce(f, t, seed, n - 1), t[n - 1])
  }

  /** The left fold, defined from the front: an independent reference for `Reduce`. */
  function FoldLeft<A, E>(f: (A, E) -> A, acc: A, s: seq<E>): A
  {
    if s == [] then acc else FoldLeft(f, f(acc, s[0]), s[1..])
  }

  lemma {:induction false} FoldLeftSnoc<A, E>(f: (A, E) -> A, acc: A, s: seq<E>, x: E)
    ensures FoldLeft(f, acc, s + [x]) == f(FoldLeft(f, acc, s), x)
  {
    if s != [] {
      assert (s + [x])[1..] == s[1..] + [x];
      FoldLeftSnoc(f, f(acc, s[0]), s[1..], x);
    }
  }

  /** `ReduceTuple` over the first `n` elements is the left fold of `f` over them from the seed. */
  lemma {:induction false} ReduceIsFoldLeft<A, E>(f: (A, E) -> A, t: seq<E>, seed: A, n: nat)
    requires n <= |t|
    ensures Reduce(f, t, seed, n) == FoldLeft(f, seed, t[..n])
  {
    if n > 0 {
      ReduceIsFoldLeft(f, t, seed, n - 1);
      assert t[..n] == t[..n - 1] + [t[n - 1]];
      FoldLeftSnoc(f, seed, t[..n - 1], t[n - 1]);
    }
  }

  /** `JoinTuples<Head, Tail>`: `Tail` pushed element by element onto `Head`. */
  function Join<E>(head: seq<E>, tail: seq<E>): seq<E>
  {
    Reduce((acc: seq<E>, x: E) => PushBack(acc, x), tail, head, |tail|)
  }

  lemma {:induction false} ReducePushBack<E>(head: seq<E>, tail: seq<E>, n: nat)
    requires n <= |tail|
    ensures Reduce((acc: seq<E>, x: E) => PushBack(acc, x), tail, head, n) == head + tail[..n]
  {
    if n > 0 {
      ReducePushBack(head, tail, n - 1);
      assert tail[..n] == tail[..n - 1] + [tail[n - 1]];
    }
  }

  /** Joining is concatenation: `Head` followed by `Tail`. */
  lemma {:induction false} JoinIsConcatenation<E>(head: seq<E>, tail: seq<E>)
    ensures Join(head, tail) == head + tail
  {
    ReducePushBack(head, tail, |tail|);
    assert tail[..|tail|] == tail;
  }

  /** `FlattenTuple<TupleTuple>`: the inner tuples joined onto the empty tuple, one after the other. */
  function Flatten<E>(tt: seq<seq<E>>): seq<E>
  {
    Reduce((acc: seq<E>, inner: seq<E>) => Join(acc, inner), tt, [], |tt|)
  }

  /** In-order concatenation, defined from the front. */
  function Concat<E>(tt: seq<seq<E>>): seq<E>
  {
    if tt == [] then [] else tt[0] + Concat(tt[1..])
  }

  lemma {:induction false} ConcatSnoc<E>(tt: seq<seq<E>>, x: seq<E>)
    ensures Concat(tt + [x]) == Concat(tt) + x
  {
    if tt != [] {
      assert (tt + [x])[1..] == tt[1..] + [x];
      ConcatSnoc(tt[1..], x);
    }
  }

  lemma {:induction false} ReduceJoin<E>(tt: seq<seq<E>>, n: nat)
    requires n <= |tt|
    ensures Reduce((acc: seq<E>, inner: seq<E>) => Join(acc, inner), tt, [], n) == Concat(tt[..n])
  {
    if n > 0 {
      ReduceJoin(tt, n - 1);
      var prev := Reduce((acc: seq<E>, inner: seq<E>) => Join(acc, inner), tt, [], n - 1);
      JoinIsConcatenation(prev, tt[n - 1]);
      assert tt[..n] == tt[..n - 1] + [tt[n - 1]];
      ConcatSnoc(tt[..n - 1], tt[n - 1]);
    }
  }

  /** Flattening concatenates the inner tuples in order; the empty tuple flattens to the empty tuple. */
  lemma {:induction false} FlattenIsConcatenation<E>(tt: seq<seq<E>>)
    ensures Flatten(tt) == Concat(tt)
    ensures tt == [] ==> Flatten(tt) == []
  {
    ReduceJoin(tt, |tt|);
    assert tt[..|tt|] == tt;
  }
}
