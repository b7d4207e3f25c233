/**
 * Iteration over tuples: `ForEachType` maps a type evaluator over the element
 * types, `ForEachValue` and `ForEachValuePair` hand each element (or pair of
 * elements) to a caller's functor in ascending order, and `ForEachElement`
 * applies an operation to every suffix of an enumeration.
 *
 * A functor is its state together with its `visit` rule. Elements are
 * passed by non-const reference, so the rule maps the state and the visited
 * element to the new state and the value written back into the element.
 */
module ForEach {
  import opened TupleModifiers

  /** `ForEachType<TE, tuple<T0, …, Tk>>::Type`, specialised for tuples of at most nine elements. */
  function ForEachType<T, U>(te: T -> U, ts: seq<T>): (r: seq<U>)
    requires |ts| <= 9
    ensures |r| == |ts|
    ensures forall i :: 0 <= i < |ts| ==> r[i] == te(ts[i])
  {
    if ts == [] then [] else [te(ts[0])] + ForEachType(te, ts[1..])
  }

  /**
   * The functor's final state and the tuple's new elements after visiting
   * `t` in ascending order, starting from state `f`.
   */
  function Threaded<S, E>(visit: (S, E) -> (S, E), f: S, t: seq<E>): (r: (S, seq<E>))
    ensures |r.1| == |t|
    decreases |t|
  {
    if t == [] then (f, [])
    else
      var p := Threaded(visit, f, t[..|t| - 1]);
      var q := visit(p.0, t[|t| - 1]);
      (q.0, p.1 + [q.1])
  }

  /** One more element: the functor visits it in the state reached so far. */
  lemma ThreadedSnoc<S, E>(visit: (S, E) -> (S, E), f: S, t: seq<E>, x: E)
    ensures var p := Threaded(visit, f, t);
            var q := visit(p.0, x);
            Threaded(visit, f, t + [x]) == (q.0, p.1 + [q.1])
  {
    assert (t + [x])[..|t|] == t;
  }

  /** The state part of a visit rule. */
  function StateOf<S, E>(visit: (S, E) -> (S, E)): (S, E) -> S
  {
    (s, e) => visit(s, e).0
  }

  /** The functor's final state is the left fold of its state rule over the original elements. */
  lemma {:induction false} ThreadedState<S, E>(visit: (S, E) -> (S, E), f: S, t: seq<E>)
    ensures Threaded(visit, f, t).0 == FoldLeft(StateOf(visit), f, t)
    decreases |t|
  {
    if t != [] {
      var front := t[..|t| - 1];
      ThreadedState(visit, f, front);
      assert t == front + [t[|t| - 1]];
      FoldLeftSnoc(StateOf(visit), f, front, t[|t| - 1]);
    }
  }

  /**
   * Element `k` is overwritten with what the functor writes when it visits
   * the original element `k` in the state reached after elements `0..k-1`.
   */
  lemma {:induction false} ThreadedWrites<S, E>(visit: (S, E) -> (S, E), f: S, t: seq<E>, k: nat)
    requires k < |t|
    ensures Threaded(visit, f, t).1[k] == visit(Threaded(visit, f, t[..k]).0, t[k]).1
    decreases |t|
  {
    var front := t[..|t| - 1];
    if k < |t| - 1 {
      ThreadedWrites(visit, f, front, k);
      assert front[..k] == t[..k];
    } else {
      assert front == t[..k];
    }
  }

  /** A functor that writes every element back unchanged leaves the tuple as it was. */
  lemma {:induction false} ThreadedReadOnly<S, E>(visit: (S, E) -> (S, E), f: S, t: seq<E>)
    requires forall s, e :: visit(s, e).1 == e
    ensures Threaded(visit, f, t).1 == t
    decreases |t|
  {
    if t != [] {
      var front := t[..|t| - 1];
      ThreadedReadOnly(visit, f, front);
      assert t == front + [t[|t| - 1]];
      ThreadedSnoc(visit, f, front, t[|t| - 1]);
      WritesBack(visit, Threaded(visit, f, front).0, t[|t| - 1]);
    }
  }

  lemma WritesBack<S, E>(visit: (S, E) -> (S, E), s: S, e: E)
    requires forall s, e :: visit(s, e).1 == e
    ensures visit(s, e).1 == e
  {
  }

  /**
   * `ForEachValue<Tuple>::apply(f)`: `Visitor<i>` visits element `size - i`
   * through a reference into the tuple and continues with `i - 1`, stopping
   * at `i == 0`. The functor is passed by reference, so its state runs on
   * from one element to the next: `g` is its final state and `u` the tuple
   * after the visits.
   */
  method ForEachValue<S, E>(t: seq<E>, f: S, visit: (S, E) -> (S, E)) returns (g: S, u: seq<E>)
    ensures (g, u) == Threaded(visit, f, t)
  {
    g := f;
    u := t;
    var i := |t|;
    while i > 0
      invariant 0 <= i <= |t| && |u| == |t|
      invariant (g, u[..|t| - i]) == Threaded(visit, f, t[..|t| - i])
      invariant u[|t| - i..] == t[|t| - i..]
    {
      var k := |t| - i;
      assert u[k] == t[k] by { assert u[k..][0] == t[k..][0]; }
      ThreadedSnoc(visit, f, t[..k], t[k]);
      assert t[..k] + [t[k]] == t[..k + 1];
      var q := visit(g, u[k]);
      ghost var prev := u;
      g := q.0;
      u := u[k := q.1];
      assert u[..k + 1] == prev[..k] + [q.1];
      assert u[k + 1..] == prev[k + 1..];
      assert prev[k + 1..] == prev[k..][1..];
      assert t[k + 1..] == t[k..][1..];
      i := i - 1;
    }
    assert t[..|t|] == t && u[..|t|] == u;
  }

  /** A functor that records every element it visits and leaves the element as it was. */
  function Record<E>(log: seq<E>, x: E): (r: (seq<E>, E))
    ensures r.1 == x
  {
    (log + [x], x)
  }

  /** A functor that counts the elements it visits, the documented example. */
  function Count<E>(n: nat, x: E): (r: (nat, E))
    ensures r.1 == x
  {
    (n + 1, x)
  }

  /** A functor that writes the number of elements visited before into each element. */
  function Number(n: int, x: int): (int, int)
  {
    (n + 1, n)
  }

  lemma {:induction false} FoldRecord<E>(log: seq<E>, t: seq<E>)
    ensures Threaded(Record, log, t) == (log + t, t)
    decreases |t|
  {
    if t != [] {
      var front := t[..|t| - 1];
      FoldRecord(log, front);
      assert t == front + [t[|t| - 1]];
      ThreadedSnoc(Record, log, front, t[|t| - 1]);
      assert Record(log + front, t[|t| - 1]) == (log + front + [t[|t| - 1]], t[|t| - 1]);
      assert log + front + [t[|t| - 1]] == log + t;
    } else {
      assert log + t == log;
    }
  }

  lemma {:induction false} FoldCount<E>(n: nat, t: seq<E>)
    ensures Threaded(Count, n, t) == (n + |t|, t)
    decreases |t|
  {
    if t != [] {
      var front := t[..|t| - 1];
      FoldCount(n, front);
      assert t == front + [t[|t| - 1]];
      ThreadedSnoc(Count, n, front, t[|t| - 1]);
    }
  }

  lemma {:induction false} FoldNumber(n: int, t: seq<int>)
    ensures Threaded(Number, n, t) == (n + |t|, seq(|t|, k => n + k))
    decreases |t|
  {
    if t != [] {
      var front := t[..|t| - 1];
      FoldNumber(n, front);
      assert t == front + [t[|t| - 1]];
      ThreadedSnoc(Number, n, front, t[|t| - 1]);
      assert Number(n + |front|, t[|t| - 1]) == (n + |t|, n + |front|);
      var all, prefix := seq(|t|, k => n + k), seq(|front|, k => n + k);
      assert all == prefix + [n + |front|] by {
        forall k | 0 <= k < |t| ensures all[k] == (prefix + [n + |front|])[k] { }
      }
    } else {
      assert seq(|t|, k => n + k) == [];
    }
  }

  /**
   * Every element is visited exactly once and in ascending order: a
   * recording functor ends with the tuple itself, a counting one with its
   * length, and neither changes the tuple.
   */
  method VisitOrder<E>(t: seq<E>) returns (log: seq<E>, count: nat)
    ensures log == t
    ensures count == |t|
  {
    var u1, u2;
    log, u1 := ForEachValue(t, [], Record);
    count, u2 := ForEachValue(t, 0, Count);
    FoldRecord([], t);
    FoldCount(0, t);
  }

  /** The functor's writes reach the tuple: numbering the elements makes element `k` equal to `k`. */
  method VisitWrites(t: seq<int>) returns (count: int, u: seq<int>)
    ensures count == |t|
    ensures |u| == |t| && forall k :: 0 <= k < |t| ==> u[k] == k
  {
    count, u := ForEachValue(t, 0, Number);
    FoldNumber(0, t);
  }

  /** The pairs `(a[k], b[k])` of two tuples of equal length. */
  function Zip<A, B>(a: seq<A>, b: seq<B>): (r: seq<(A, B)>)
    requires |a| == |b|
    ensures |r| == |a|
    ensures forall k :: 0 <= k < |a| ==> r[k] == (a[k], b[k])
  {
    if a == [] then [] else [(a[0], b[0])] + Zip(a[1..], b[1..])
  }

  /** The pair at `k` when the second tuple is aligned from the back. */
  lemma PairAt<A, B>(t1: seq<A>, t2: seq<B>, k: nat)
    requires |t1| <= |t2| && k < |t1|
    ensures Zip(t1, t2[|t2| - |t1|..])[k] == (t1[k], t2[|t2| - (|t1| - k)])
  {
  }

  /** What the first `n` pair visits leave in the two tuples, aligned from the back. */
  ghost predicate PairsWritten<S, A, B>(r: (S, seq<(A, B)>), n: nat, u1: seq<A>, u2: seq<B>, d: nat)
  {
    |r.1| == n && n <= |u1| && d + n <= |u2| &&
    forall j :: 0 <= j < n ==> r.1[j] == (u1[j], u2[d + j])
  }

  /** One more pair visit extends what is written by the pair it writes back. */
  lemma {:induction false} PairStep<S, A, B>(visit: (S, (A, B)) -> (S, (A, B)), f: S, pairs: seq<(A, B)>,
                                            k: nat, u1: seq<A>, u2: seq<B>, d: nat)
    requires k < |pairs| && k < |u1| && d + k < |u2|
    requires PairsWritten(Threaded(visit, f, pairs[..k]), k, u1, u2, d)
    ensures var q := visit(Threaded(visit, f, pairs[..k]).0, pairs[k]);
            Threaded(visit, f, pairs[..k + 1]).0 == q.0 &&
            PairsWritten(Threaded(visit, f, pairs[..k + 1]), k + 1, u1[k := q.1.0], u2[d + k := q.1.1], d)
  {
    ThreadedSnoc(visit, f, pairs[..k], pairs[k]);
    assert pairs[..k] + [pairs[k]] == pairs[..k + 1];
  }

  /** Once all `|u1|` pairs are written, the two tuples zip to the written pairs. */
  lemma PairsZip<S, A, B>(r: (S, seq<(A, B)>), u1: seq<A>, u2: seq<B>, d: nat)
    requires d + |u1| == |u2| && PairsWritten(r, |u1|, u1, u2, d)
    ensures Zip(u1, u2[d..]) == r.1
  {
  }

  /**
   * `ForEachValuePair<Tuple1, Tuple2>::apply(f)`: `PairVisitor<i>` visits
   * element `size1 - i` of the first tuple together with element `size2 - i`
   * of the second, both through references, for `i` from `size1` down to 1.
   * Both indices exist only when the second tuple is at least as long as
   * the first; the pairs are aligned from the back, and the leading elements
   * of a longer second tuple are never visited.
   */
  method ForEachValuePair<S, A, B>(t1: seq<A>, t2: seq<B>, f: S, visit: (S, (A, B)) -> (S, (A, B)))
    returns (g: S, u1: seq<A>, u2: seq<B>)
    requires |t1| <= |t2|
    ensures var r := Threaded(visit, f, Zip(t1, t2[|t2| - |t1|..]));
            g == r.0 && |u1| == |t1| && |u2| == |t2| &&
            u2[..|t2| - |t1|] == t2[..|t2| - |t1|] &&
            Zip(u1, u2[|t2| - |t1|..]) == r.1
  {
    var d := |t2| - |t1|;
    ghost var pairs := Zip(t1, t2[d..]);
    g, u1, u2 := f, t1, t2;
    var i := |t1|;
    while i > 0
      invariant 0 <= i <= |t1| && |u1| == |t1| && |u2| == |t2|
      invariant g == Threaded(visit, f, pairs[..|t1| - i]).0
      invariant PairsWritten(Threaded(visit, f, pairs[..|t1| - i]), |t1| - i, u1, u2, d)
      invariant u2[..d] == t2[..d]
      invariant u1[|t1| - i..] == t1[|t1| - i..] && u2[d + |t1| - i..] == t2[d + |t1| - i..]
    {
      var k := |t1| - i;
      PairAt(t1, t2, k);
      assert u1[k] == t1[k] by { assert u1[k..][0] == t1[k..][0]; }
      assert u2[d + k] == t2[d + k] by { assert u2[d + k..][0] == t2[d + k..][0]; }
      PairStep(visit, f, pairs, k, u1, u2, d);
      var q := visit(g, (u1[k], u2[d + k]));
      ghost var v1, v2 := u1, u2;
      g := q.0;
      u1 := u1[k := q.1.0];
      u2 := u2[d + k := q.1.1];
      assert u2[..d] == v2[..d];
      assert u1[k + 1..] == v1[k..][1..];
      assert u2[d + k + 1..] == v2[d + k..][1..];
      assert t1[k + 1..] == t1[k..][1..];
      assert t2[d + k + 1..] == t2[d + k..][1..];
      i := i - 1;
    }
    assert pairs[..|t1|] == pairs;
    PairsZip(Threaded(visit, f, pairs), u1, u2, d);
  }

  /**
   * For tuples of equal length, as the documentation requires, the functor
   * sees `(t1[k], t2[k])` for `k` ascending, each pair once, and a functor
   * that writes nothing leaves both tuples as they were.
   */
  method PairVisitOrder<A, B>(t1: seq<A>, t2: seq<B>) returns (log: seq<(A, B)>, u1: seq<A>, u2: seq<B>)
    requires |t1| == |t2|
    ensures |log| == |t1|
    ensures forall k :: 0 <= k < |t1| ==> log[k] == (t1[k], t2[k])
    ensures u1 == t1 && u2 == t2
  {
    var empty: seq<(A, B)> := [];
    log, u1, u2 := ForEachValuePair(t1, t2, empty, Record);
    assert t2[|t2| - |t1|..] == t2;
    var pairs := Zip(t1, t2);
    FoldRecord(empty, pairs);
    assert log == empty + pairs == pairs;
    assert Zip(u1, u2) == pairs;
    assert u1 == t1 by {
      forall k | 0 <= k < |t1| ensures u1[k] == t1[k] {
        assert Zip(u1, u2)[k] == pairs[k];
      }
    }
    assert u2 == t2 by {
      forall k | 0 <= k < |t2| ensures u2[k] == t2[k] {
        assert Zip(u1, u2)[k] == pairs[k];
      }
    }
  }

  /**
   * `ForEachElement<Operation, Enumeration>`: `Operation<0, E>` for the
   * enumeration `E` and then for its successive `PopFrontTuple`s, down to the
   * last element; an empty enumeration applies nothing. The result lists the
   * enumerations the operation is applied to, in order.
   */
  function ForEachElement(e: seq<int>): (r: seq<seq<int>>)
    ensures |r| == |e|
  {
    if e == [] then [] else [e] + ForEachElement(PopFront(e))
  }

  /** The operation is applied once per element, in order, to the enumeration starting at that element. */
  lemma {:induction false} ForEachElementSuffixes(e: seq<int>)
    ensures forall k :: 0 <= k < |e| ==> ForEachElement(e)[k] == e[k..]
    ensures e == [] ==> ForEachElement(e) == []
  {
    if e != [] {
      ForEachElementSuffixes(e[1..]);
      forall k | 1 <= k < |e| ensures ForEachElement(e)[k] == e[k..] {
        assert ForEachElement(e)[k] == ForEachElement(e[1..])[k - 1];
        assert e[1..][k - 1..] == e[k..];
      }
    }
  }
}
