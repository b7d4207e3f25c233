/**
 * The `DenseVectorTuple` facade: a tuple of dense vectors (blocks) seen as
 * one long vector whose entries are the blocks' entries in block-major
 * order. Entries are integers here; the field arithmetic of the source is
 * exact on them.
 */
module DenseVectors {
  import opened Wrappers
  import TupleIO

  /** All entries, block after block. */
  function Entries(bs: seq<seq<int>>): seq<int>
  {
    if bs == [] then [] else Entries(bs[..|bs| - 1]) + bs[|bs| - 1]
  }

  /** The sum of the block sizes. */
  function TotalSize(bs: seq<seq<int>>): nat
  {
    if bs == [] then 0 else TotalSize(bs[..|bs| - 1]) + |bs[|bs| - 1]|
  }

  /** Two tuples of blocks with the same number of blocks and the same block sizes. */
  predicate SameShape(x: seq<seq<int>>, y: seq<seq<int>>)
  {
    |x| == |y| && forall b :: 0 <= b < |x| ==> |x[b]| == |y[b]|
  }

  lemma {:induction false} EntriesSize(bs: seq<seq<int>>)
    ensures |Entries(bs)| == TotalSize(bs)
  {
    if bs != [] {
      EntriesSize(bs[..|bs| - 1]);
    }
  }

  /** Entries of one more block: the earlier entries, then the block's. */
  lemma EntriesSnoc(bs: seq<seq<int>>, b: nat)
    requires b < |bs|
    ensures Entries(bs[..b + 1]) == Entries(bs[..b]) + bs[b]
    ensures TotalSize(bs[..b + 1]) == TotalSize(bs[..b]) + |bs[b]|
  {
    assert bs[..b + 1][..b] == bs[..b];
  }

  lemma {:induction false} EntriesAppend(x: seq<seq<int>>, y: seq<seq<int>>)
    ensures Entries(x + y) == Entries(x) + Entries(y)
    decreases |y|
  {
    if y == [] {
      assert x + y == x;
    } else {
      var n := |y| - 1;
      var z := x + y;
      assert z[..|z| - 1] == x + y[..n];
      assert z[|z| - 1] == y[n];
      assert Entries(z) == Entries(x + y[..n]) + y[n];
      EntriesAppend(x, y[..n]);
      assert y[..n + 1] == y;
      assert Entries(y) == Entries(y[..n]) + y[n];
    }
  }

  /**
   * Entry `i` of the whole vector is entry `i - offset` of block `b` when
   * `offset`, the size of the blocks before `b`, is at most `i` and
   * `i < offset + |bs[b]|`.
   */
  lemma EntryInBlock(bs: seq<seq<int>>, b: nat, i: nat)
    requires b < |bs| && TotalSize(bs[..b]) <= i < TotalSize(bs[..b]) + |bs[b]|
    ensures i < |Entries(bs)| && Entries(bs)[i] == bs[b][i - TotalSize(bs[..b])]
  {
    assert bs == bs[..b] + ([bs[b]] + bs[b + 1..]);
    EntriesAppend(bs[..b], [bs[b]] + bs[b + 1..]);
    EntriesAppend([bs[b]], bs[b + 1..]);
    assert Entries([bs[b]]) == bs[b] by {
      assert [bs[b]][..0] == [];
    }
    EntriesSize(bs[..b]);
  }

  // ---------------------------------------------------------------------------
  // Blockwise operations as functions on values
  // ---------------------------------------------------------------------------

  /** Block `b` combined entry by entry with block `b` of `y` through `f`. */
  function ZipBlock(x: seq<int>, y: seq<int>, f: (int, int) -> int): (r: seq<int>)
    requires |x| == |y|
    ensures |r| == |x| && forall k :: 0 <= k < |r| ==> r[k] == f(x[k], y[k])
  {
    seq(|x|, k requires 0 <= k < |x| => f(x[k], y[k]))
  }

  /** Every block combined with the matching block of `y`; the shape is kept. */
  function ZipBlocks(x: seq<seq<int>>, y: seq<seq<int>>, f: (int, int) -> int): (r: seq<seq<int>>)
    requires SameShape(x, y)
    ensures SameShape(r, x)
    ensures forall b, k :: 0 <= b < |r| && 0 <= k < |r[b]| ==> r[b][k] == f(x[b][k], y[b][k])
  {
    if x == [] then []
    else
      var n := |x| - 1;
      ZipBlocks(x[..n], y[..n], f) + [ZipBlock(x[n], y[n], f)]
  }

  /** One block further in `ZipBlocks`. */
  lemma ZipBlocksSnoc(x: seq<seq<int>>, y: seq<seq<int>>, f: (int, int) -> int, b: nat)
    requires SameShape(x, y) && b < |x|
    ensures SameShape(x[..b], y[..b]) && SameShape(x[..b + 1], y[..b + 1])
    ensures ZipBlocks(x[..b + 1], y[..b + 1], f) == ZipBlocks(x[..b], y[..b], f) + [ZipBlock(x[b], y[b], f)]
  {
    assert x[..b + 1][..b] == x[..b];
    assert y[..b + 1][..b] == y[..b];
  }

  /** Applied block by block is applied entry by entry to the whole vector. */
  lemma ZipEntries(x: seq<seq<int>>, y: seq<seq<int>>, f: (int, int) -> int)
    requires SameShape(x, y)
    ensures var r := Entries(ZipBlocks(x, y, f));
      |r| == |Entries(x)| == |Entries(y)| &&
      forall i :: 0 <= i < |r| ==> r[i] == f(Entries(x)[i], Entries(y)[i])
  {
    var z := ZipBlocks(x, y, f);
    SameShapeSize(x, y);
    SameShapeSize(z, x);
    EntriesSize(x);
    EntriesSize(y);
    EntriesSize(z);
    forall i | 0 <= i < |Entries(z)|
      ensures Entries(z)[i] == f(Entries(x)[i], Entries(y)[i])
    {
      var b, offset := LocateEntry(z, i);
      SameShapePrefixSize(z, x, b);
      SameShapePrefixSize(x, y, b);
      EntryInBlock(z, b, i);
      EntryInBlock(x, b, i);
      EntryInBlock(y, b, i);
    }
  }

  lemma {:induction false} SameShapeSize(x: seq<seq<int>>, y: seq<seq<int>>)
    requires SameShape(x, y)
    ensures TotalSize(x) == TotalSize(y)
  {
    if x != [] {
      SameShapeSize(x[..|x| - 1], y[..|y| - 1]);
    }
  }

  lemma SameShapePrefixSize(x: seq<seq<int>>, y: seq<seq<int>>, b: nat)
    requires SameShape(x, y) && b <= |x|
    ensures TotalSize(x[..b]) == TotalSize(y[..b])
  {
    SameShapeSize(x[..b], y[..b]);
  }

  /** The block holding entry `i`, and the size of the blocks before it. */
  lemma {:induction false} LocateEntry(bs: seq<seq<int>>, i: nat) returns (b: nat, offset: nat)
    requires i < TotalSize(bs)
    ensures b < |bs| && offset == TotalSize(bs[..b]) && offset <= i < offset + |bs[b]|
    decreases |bs|
  {
    var n := |bs| - 1;
    assert bs[..n] == bs[..|bs| - 1];
    if i < TotalSize(bs[..n]) {
      b, offset := LocateEntry(bs[..n], i);
      assert bs[..n][..b] == bs[..b];
    } else {
      b, offset := n, TotalSize(bs[..n]);
    }
  }

  /** Scalar assignment: every entry becomes `alpha`. */
  function Fill(x: seq<seq<int>>, alpha: int): (r: seq<seq<int>>)
    ensures SameShape(r, x)
  {
    ZipBlocks(x, x, (u, v) => alpha)
  }

  /** `x += alpha y`. */
  function Axpy(x: seq<seq<int>>, alpha: int, y: seq<seq<int>>): (r: seq<seq<int>>)
    requires SameShape(x, y)
    ensures SameShape(r, x)
  {
    ZipBlocks(x, y, (u, v) => u + alpha * v)
  }

  /** `x *= alpha`. */
  function Scale(x: seq<seq<int>>, alpha: int): (r: seq<seq<int>>)
    ensures SameShape(r, x)
  {
    ZipBlocks(x, x, (u, v) => u * alpha)
  }

  /** After scalar assignment the whole vector is `alpha` everywhere, with the size unchanged. */
  lemma FillEntries(x: seq<seq<int>>, alpha: int)
    ensures var r := Entries(Fill(x, alpha));
      |r| == |Entries(x)| && forall i :: 0 <= i < |r| ==> r[i] == alpha
  {
    ZipEntries(x, x, (u, v) => alpha);
  }

  /** `axpy` on the blocks is `axpy` on the whole vector. */
  lemma AxpyEntries(x: seq<seq<int>>, alpha: int, y: seq<seq<int>>)
    requires SameShape(x, y)
    ensures var r := Entries(Axpy(x, alpha, y));
      |r| == |Entries(x)| == |Entries(y)| &&
      forall i :: 0 <= i < |r| ==> r[i] == Entries(x)[i] + alpha * Entries(y)[i]
  {
    ZipEntries(x, y, (u, v) => u + alpha * v);
  }

  /** Scaling the blocks scales the whole vector. */
  lemma ScaleEntries(x: seq<seq<int>>, alpha: int)
    ensures var r := Entries(Scale(x, alpha));
      |r| == |Entries(x)| && forall i :: 0 <= i < |r| ==> r[i] == Entries(x)[i] * alpha
  {
    ZipEntries(x, x, (u, v) => u * alpha);
  }

  /** `x += y` followed by `x -= y` gives back `x`. */
  lemma AddThenSubtract(x: seq<seq<int>>, y: seq<seq<int>>)
    requires SameShape(x, y)
    ensures Axpy(Axpy(x, 1, y), -1, y) == x
  {
    var s := Axpy(x, 1, y);
    var r := Axpy(s, -1, y);
    assert |r| == |x|;
    forall b | 0 <= b < |r| ensures r[b] == x[b] {
      assert |r[b]| == |x[b]|;
      forall k | 0 <= k < |r[b]| ensures r[b][k] == x[b][k] {
        assert r[b][k] == s[b][k] + -1 * y[b][k];
      }
    }
  }

  // ---------------------------------------------------------------------------
  // Visiting the entries (`for_each`)
  // ---------------------------------------------------------------------------

  /**
   * A visitor's run over `xs` whose flat indices start at `offset`: its call
   * on entry `x` with index `i` turns its state `g` into `visit(g, x, i).0`
   * and stores `visit(g, x, i).1` into the entry. The result is the final
   * state and the new entries.
   */
  function Visit<S>(visit: (S, int, nat) -> (S, int), init: S, xs: seq<int>, offset: nat): (r: (S, seq<int>))
    ensures |r.1| == |xs|
  {
    if xs == [] then (init, [])
    else
      var n := |xs| - 1;
      var p := Visit(visit, init, xs[..n], offset);
      var q := visit(p.0, xs[n], offset + n);
      (q.0, p.1 + [q.1])
  }

  /** Visiting `xs + ys` visits `xs`, then `ys` from the state reached and the next flat index. */
  lemma {:induction false} VisitAppend<S>(visit: (S, int, nat) -> (S, int), init: S, xs: seq<int>, ys: seq<int>, offset: nat)
    ensures var p := Visit(visit, init, xs, offset);
      var q := Visit(visit, p.0, ys, offset + |xs|);
      Visit(visit, init, xs + ys, offset) == (q.0, p.1 + q.1)
    decreases |ys|
  {
    if ys == [] {
      var p := Visit(visit, init, xs, offset);
      assert xs + ys == xs;
      assert Visit(visit, p.0, ys, offset + |xs|) == (p.0, []);
      assert p.1 + [] == p.1;
    } else {
      VisitAppend(visit, init, xs, ys[..|ys| - 1], offset);
      VisitAppendStep(visit, init, xs, ys, offset);
    }
  }

  /** The step of `VisitAppend`: from `ys` without its last entry to `ys`. */
  lemma {:induction false} VisitAppendStep<S>(visit: (S, int, nat) -> (S, int), init: S, xs: seq<int>, ys: seq<int>, offset: nat)
    requires ys != []
    requires var p := Visit(visit, init, xs, offset);
      var q := Visit(visit, p.0, ys[..|ys| - 1], offset + |xs|);
      Visit(visit, init, xs + ys[..|ys| - 1], offset) == (q.0, p.1 + q.1)
    ensures var p := Visit(visit, init, xs, offset);
      var q := Visit(visit, p.0, ys, offset + |xs|);
      Visit(visit, init, xs + ys, offset) == (q.0, p.1 + q.1)
  {
    var n := |ys| - 1;
    var p := Visit(visit, init, xs, offset);
    var q := Visit(visit, p.0, ys[..n], offset + |xs|);
    var w := Visit(visit, init, xs + ys[..n], offset);
    SplitLast(xs, ys);
    VisitLast(visit, init, xs + ys, offset, w);
    VisitLast(visit, p.0, ys, offset + |xs|, q);
    var r := visit(q.0, ys[n], offset + |xs| + n);
    assert p.1 + q.1 + [r.1] == p.1 + (q.1 + [r.1]);
  }

  /** The visit of a non-empty `zs` in terms of the visit `p` of all but its last entry. */
  lemma VisitLast<S>(visit: (S, int, nat) -> (S, int), init: S, zs: seq<int>, offset: nat, p: (S, seq<int>))
    requires zs != [] && p == Visit(visit, init, zs[..|zs| - 1], offset)
    ensures var q := visit(p.0, zs[|zs| - 1], offset + |zs| - 1);
      Visit(visit, init, zs, offset) == (q.0, p.1 + [q.1])
  {
  }

  lemma SplitLast(xs: seq<int>, ys: seq<int>)
    requires ys != []
    ensures (xs + ys)[..|xs + ys| - 1] == xs + ys[..|ys| - 1]
    ensures (xs + ys)[|xs + ys| - 1] == ys[|ys| - 1]
  {
  }

  /** A visitor that records each entry with its index and leaves the entry as it is. */
  function Record(log: seq<(int, nat)>, x: int, i: nat): (seq<(int, nat)>, int)
  {
    (log + [(x, i)], x)
  }

  /** A visitor threaded through all entries sees each exactly once, in order, with consecutive flat indices from 0. */
  lemma {:induction false} VisitRecordsEntries(xs: seq<int>)
    ensures var r := Visit(Record, [], xs, 0);
      r.1 == xs && |r.0| == |xs| && forall i :: 0 <= i < |xs| ==> r.0[i] == (xs[i], i)
  {
    if xs != [] {
      var n := |xs| - 1;
      VisitRecordsEntries(xs[..n]);
      assert xs[..n] + [xs[n]] == xs;
    }
  }

  /** The visitor of the `for_each` test: entry `i` is overwritten with `v[i]`; it keeps no state. */
  function AssignVisitor(v: seq<int>): (bool, int, nat) -> (bool, int)
  {
    (g: bool, x: int, i: nat) => (g, if i < |v| then v[i] else x)
  }

  /** With one value per entry, the test's visitor makes the entries equal to `v`. */
  lemma {:induction false} VisitAssigns(v: seq<int>, xs: seq<int>)
    requires |v| == |xs|
    ensures Visit(AssignVisitor(v), true, xs, 0).1 == v
  {
    VisitAssignsPrefix(v, xs, |xs|);
    assert xs[..|xs|] == xs;
    assert v[..|xs|] == v;
  }

  lemma {:induction false} VisitAssignsPrefix(v: seq<int>, xs: seq<int>, n: nat)
    requires |v| == |xs| && n <= |xs|
    ensures Visit(AssignVisitor(v), true, xs[..n], 0).1 == v[..n]
  {
    if n > 0 {
      VisitAssignsPrefix(v, xs, n - 1);
      assert xs[..n][..n - 1] == xs[..n - 1];
      assert v[..n - 1] + [v[n - 1]] == v[..n];
    }
  }

  /** One more entry in the visit. */
  lemma VisitSnoc<S>(visit: (S, int, nat) -> (S, int), init: S, xs: seq<int>, x: int, offset: nat)
    ensures var p := Visit(visit, init, xs, offset); var q := visit(p.0, x, offset + |xs|);
      Visit(visit, init, xs + [x], offset) == (q.0, p.1 + [q.1])
  {
    var ys := xs + [x];
    assert ys[..|ys| - 1] == xs;
    assert ys[|ys| - 1] == x;
  }

  /** Visiting `xs` from `init` with indices from `offset` ends in `state` and writes `ys`. */
  ghost predicate Visited<S>(visit: (S, int, nat) -> (S, int), init: S, xs: seq<int>, offset: nat, state: S, ys: seq<int>)
  {
    (state, ys) == Visit(visit, init, xs, offset)
  }

  lemma VisitedEmptySuffix<S>(visit: (S, int, nat) -> (S, int), init: S, xs: seq<int>, x: seq<int>, state: S, ys: seq<int>)
    requires Visited(visit, init, xs, 0, state, ys)
    ensures Visited(visit, init, xs + x[..0], 0, state, ys + [])
  {
    assert xs + x[..0] == xs && ys + [] == ys;
  }

  /** Visiting one more entry `x[k]` at flat index `|xs| + k`. */
  lemma VisitedStep<S>(visit: (S, int, nat) -> (S, int), init: S, xs: seq<int>, x: seq<int>, k: nat,
                       state: S, ys: seq<int>, updated: seq<int>)
    requires k < |x| && Visited(visit, init, xs + x[..k], 0, state, ys + updated)
    ensures var r := visit(state, x[k], |xs| + k);
      Visited(visit, init, xs + x[..k + 1], 0, r.0, ys + (updated + [r.1]))
  {
    VisitSnoc(visit, init, xs + x[..k], x[k], 0);
    assert xs + x[..k] + [x[k]] == xs + x[..k + 1];
    assert ys + updated + [visit(state, x[k], |xs| + k).1] == ys + (updated + [visit(state, x[k], |xs| + k).1]);
  }

  /** Finishing block `b`: the visit has covered the first `b + 1` blocks. */
  lemma BlockVisited<S>(visit: (S, int, nat) -> (S, int), init: S, source: seq<seq<int>>, b: nat,
                        done: seq<seq<int>>, updated: seq<int>, state: S)
    requires b < |source| && |done| == b
    requires Visited(visit, init, Entries(source[..b]) + source[b][..|source[b]|], 0, state, Entries(done) + updated)
    ensures Visited(visit, init, Entries(source[..b + 1]), 0, state, Entries(done + [updated]))
  {
    assert source[b][..|source[b]|] == source[b];
    EntriesSnoc(source, b);
    EntriesSnoc(done + [updated], b);
    assert (done + [updated])[..b] == done;
    assert (done + [updated])[..b + 1] == done + [updated];
  }

  /**
   * The new blocks of `for_each` as written: `ApplyFunctor<b>::apply` takes
   * the visitor by value, so the loop over block `b` runs a fresh copy of
   * the caller's visitor, in state `init`, numbering the block's entries on
   * from the entries of the blocks before it. What a copy learned is lost
   * when its block ends.
   */
  function VisitEach<S>(visit: (S, int, nat) -> (S, int), init: S, bs: seq<seq<int>>): (r: seq<seq<int>>)
    ensures SameShape(r, bs)
  {
    if bs == [] then []
    else
      var n := |bs| - 1;
      VisitEach(visit, init, bs[..n]) + [Visit(visit, init, bs[n], |Entries(bs[..n])|).1]
  }

  /** Visiting one more entry of a block whose indices start at `offset`. */
  lemma VisitedPrefixStep<S>(visit: (S, int, nat) -> (S, int), init: S, x: seq<int>, k: nat, offset: nat,
                             state: S, updated: seq<int>)
    requires k < |x| && Visited(visit, init, x[..k], offset, state, updated)
    ensures var r := visit(state, x[k], offset + k);
      Visited(visit, init, x[..k + 1], offset, r.0, updated + [r.1])
  {
    VisitSnoc(visit, init, x[..k], x[k], offset);
    assert x[..k] + [x[k]] == x[..k + 1];
  }

  /** Finishing block `b` of the as-written loops: its copy's entries join the earlier blocks. */
  lemma EachBlockVisited<S>(visit: (S, int, nat) -> (S, int), init: S, source: seq<seq<int>>, b: nat,
                            done: seq<seq<int>>, state: S, updated: seq<int>)
    requires b < |source| && done == VisitEach(visit, init, source[..b])
    requires Visited(visit, init, source[b][..|source[b]|], |Entries(source[..b])|, state, updated)
    ensures done + [updated] == VisitEach(visit, init, source[..b + 1])
  {
    assert source[b][..|source[b]|] == source[b];
    assert source[..b + 1][..b] == source[..b];
  }

  /** A visitor whose calls never change its state. */
  ghost predicate Stateless<S(!new)>(visit: (S, int, nat) -> (S, int))
  {
    forall g, x, i :: visit(g, x, i).0 == g
  }

  lemma {:induction false} StatelessKeepsState<S(!new)>(visit: (S, int, nat) -> (S, int), init: S, xs: seq<int>, offset: nat)
    requires Stateless(visit)
    ensures Visit(visit, init, xs, offset).0 == init
    decreases |xs|
  {
    if xs != [] {
      var n := |xs| - 1;
      StatelessKeepsState(visit, init, xs[..n], offset);
      var p := Visit(visit, init, xs[..n], offset);
      StatelessCall(visit, p.0, xs[n], offset + n);
    }
  }

  lemma StatelessCall<S(!new)>(visit: (S, int, nat) -> (S, int), g: S, x: int, i: nat)
    requires Stateless(visit)
    ensures visit(g, x, i).0 == g
  {
  }

  /**
   * For a visitor that keeps no state, the copies made per block do not
   * matter: the entries written as written are those of one visitor
   * threaded through all entries.
   */
  lemma {:induction false} StatelessCopiesAgree<S(!new)>(visit: (S, int, nat) -> (S, int), init: S, bs: seq<seq<int>>)
    requires Stateless(visit)
    ensures Entries(VisitEach(visit, init, bs)) == Visit(visit, init, Entries(bs), 0).1
    decreases |bs|
  {
    if bs != [] {
      var n := |bs| - 1;
      var front := Entries(bs[..n]);
      StatelessCopiesAgree(visit, init, bs[..n]);
      EachEntriesSnoc(visit, init, bs);
      EntriesSnoc(bs, n);
      assert bs[..n + 1] == bs;
      VisitAppend(visit, init, front, bs[n], 0);
      StatelessKeepsState(visit, init, front, 0);
    }
  }

  /** The entries the as-written visit writes: those of the blocks before the last, then the last block's. */
  lemma EachEntriesSnoc<S>(visit: (S, int, nat) -> (S, int), init: S, bs: seq<seq<int>>)
    requires bs != []
    ensures var n := |bs| - 1;
      Entries(VisitEach(visit, init, bs))
      == Entries(VisitEach(visit, init, bs[..n])) + Visit(visit, init, bs[n], |Entries(bs[..n])|).1
  {
    var n := |bs| - 1;
    var prev := VisitEach(visit, init, bs[..n]);
    var last := Visit(visit, init, bs[n], |Entries(bs[..n])|).1;
    assert VisitEach(visit, init, bs) == prev + [last];
    EntriesPush(prev, last);
  }

  /** Entries of one more block appended at the end. */
  lemma EntriesPush(bs: seq<seq<int>>, b: seq<int>)
    ensures Entries(bs + [b]) == Entries(bs) + b
  {
    var z := bs + [b];
    assert z[..|z| - 1] == bs;
    assert z[|z| - 1] == b;
  }

  /** The `for_each` test's assignment works as written: the entries become `v`. */
  lemma AssignsAsWritten(v: seq<int>, bs: seq<seq<int>>)
    requires |v| == |Entries(bs)|
    ensures Entries(VisitEach(AssignVisitor(v), true, bs)) == v
  {
    StatelessCopiesAgree(AssignVisitor(v), true, bs);
    VisitAssigns(v, Entries(bs));
  }

  /** A visitor that counts its calls and writes the count reached so far into each entry. */
  function CountWrite(count: nat, x: int, i: nat): (nat, int)
  {
    (count + 1, count)
  }

  /**
   * Blocks `[5]` and `[7]` with the counting visitor: as written each block
   * sees a fresh count, so both entries become 0 (and `for_each` returns
   * the count 0 it was given); a visitor threaded through, as
   * `std::for_each` does, ends at 2 and writes 0 and 1.
   */
  lemma ForEachLosesState()
    ensures VisitEach(CountWrite, 0, [[5], [7]]) == [[0], [0]]
    ensures Visit(CountWrite, 0, Entries([[5], [7]]), 0) == (2, [0, 1])
  {
    EachBlockCounts();
    ThreadedCounts();
  }

  /** One entry visited by a fresh counting visitor: the count becomes 1 and the entry 0. */
  lemma CountOne(x: int, offset: nat)
    ensures Visit(CountWrite, 0, [x], offset).0 == 1 && Visit(CountWrite, 0, [x], offset).1 == [0]
  {
    assert [x][..0] == [];
    VisitLast(CountWrite, 0, [x], offset, Visit(CountWrite, 0, [], offset));
  }

  lemma EachBlockCounts()
    ensures VisitEach(CountWrite, 0, [[5], [7]]) == [[0], [0]]
  {
    var bs: seq<seq<int>> := [[5], [7]];
    CountOne(5, 0);
    CountOne(7, 1);
    assert bs[..1] == [[5]] && [[5]][..0] == [];
    assert Entries([[5]]) == [5] && Entries([[5]][..0]) == [];
    assert VisitEach(CountWrite, 0, [[5]]) == [[0]];
  }

  lemma ThreadedCounts()
    ensures Visit(CountWrite, 0, Entries([[5], [7]]), 0) == (2, [0, 1])
  {
    TwoEntries();
    ThreadedTwo();
  }

  lemma TwoEntries()
    ensures Entries([[5], [7]]) == [5, 7]
  {
    var bs: seq<seq<int>> := [[5], [7]];
    assert bs[..1] == [[5]] && [[5]][..0] == [];
  }

  /** The counting visitor threaded through the entries 5 and 7. */
  lemma ThreadedTwo()
    ensures Visit(CountWrite, 0, [5, 7], 0) == (2, [0, 1])
  {
    assert [5, 7][..1] == [5];
    CountOne(5, 0);
    var p := Visit(CountWrite, 0, [5], 0);
    VisitLast(CountWrite, 0, [5, 7], 0, p);
    var whole := Visit(CountWrite, 0, [5, 7], 0);
    assert whole.1 == [0] + [1] == [0, 1];
    assert whole.0 == 2;
  }

  // ---------------------------------------------------------------------------
  // Printing (`operator<<`)
  // ---------------------------------------------------------------------------

  /** Blocks `i..` printed with `show`, each followed by a space unless it is the last block. */
  function PrintFrom(bs: seq<seq<int>>, show: seq<int> -> string, i: nat): string
    requires i <= |bs|
    decreases |bs| - i
  {
    if i == |bs| then ""
    else show(bs[i]) + (if i < |bs| - 1 then " " else "") + PrintFrom(bs, show, i + 1)
  }

  /** `out << tuple`: the blocks separated by single spaces. */
  function Print(bs: seq<seq<int>>, show: seq<int> -> string): string
  {
    PrintFrom(bs, show, 0)
  }

  /** Printing is the tuple writer with delimiter " ": one space between blocks, none after the last. */
  lemma PrintIsSpaceSeparated(bs: seq<seq<int>>, show: seq<int> -> string)
    ensures Print(bs, show) == TupleIO.Put(bs, show, " ")
  {
    PrintFromIsSeparated(bs, show, 0);
    TupleIO.PutIsJoin(bs, show, " ");
    if bs != [] {
      assert bs[0..] == bs;
    }
  }

  lemma {:induction false} PrintFromIsSeparated(bs: seq<seq<int>>, show: seq<int> -> string, i: nat)
    requires i <= |bs|
    ensures i < |bs| ==> PrintFrom(bs, show, i) == show(bs[i]) + TupleIO.Separated(bs[i + 1..], show, " ")
    ensures i == |bs| ==> PrintFrom(bs, show, i) == ""
    decreases |bs| - i
  {
    if i < |bs| - 1 {
      PrintFromIsSeparated(bs, show, i + 1);
      assert bs[i + 1..][1..] == bs[i + 2..];
    } else if i == |bs| - 1 {
      assert bs[i + 1..] == [];
    }
  }

  // ---------------------------------------------------------------------------
  // The class
  // ---------------------------------------------------------------------------

  /** A dense vector tuple; `blocks` is the wrapped tuple of dense vectors. */
  class DenseVectorTuple {
    var blocks: seq<seq<int>>

    constructor (blocks: seq<seq<int>>)
      ensures this.blocks == blocks
    {
      this.blocks := blocks;
    }

    /** `size()`: the `SizeFunctor` loop adds up the block sizes; this is the number of entries. */
    method Size() returns (size: nat)
      ensures size == |Entries(blocks)|
    {
      size := 0;
      var b := 0;
      while b < |blocks|
        invariant b <= |blocks| && size == TotalSize(blocks[..b])
      {
        EntriesSnoc(blocks, b);
        size := size + |blocks[b]|;
        b := b + 1;
      }
      assert blocks[..b] == blocks;
      EntriesSize(blocks);
    }

    /**
     * `operator[](i)`: the `FindFunctor` loop keeps the running offset and
     * picks entry `i - offset` of the first block that reaches past `i`.
     * Calling it with `i >= size()` dereferences a null pointer.
     */
    method At(i: nat) returns (x: int)
      requires i < |Entries(blocks)|
      ensures x == Entries(blocks)[i]
    {
      var f: Option<int> := None;
      var offset := 0;
      var b := 0;
      EntriesSize(blocks);
      while b < |blocks|
        invariant b <= |blocks|
        invariant f.None? ==> offset == TotalSize(blocks[..b]) && offset <= i
        invariant f.Some? ==> f.value == Entries(blocks)[i]
      {
        if f.None? {
          EntriesSnoc(blocks, b);
          var size := |blocks[b]|;
          if i < offset + size {
            EntryInBlock(blocks, b, i);
            f := Some(blocks[b][i - offset]);
          }
          offset := offset + size;
        }
        b := b + 1;
      }
      assert blocks[..b] == blocks;
      if f.None? {
        assert false;
      }
      x := f.value;
    }

    /**
     * The `ForLoop` over the blocks shared by scalar assignment, scaling and
     * `axpy`: block `b` becomes `ZipBlock(blocks[b], y[b], f)`.
     */
    method Blockwise(y: seq<seq<int>>, f: (int, int) -> int)
      requires SameShape(blocks, y)
      modifies this
      ensures blocks == ZipBlocks(old(blocks), y, f)
    {
      var source := blocks;
      var done: seq<seq<int>> := [];
      var b := 0;
      while b < |source|
        invariant b <= |source| && SameShape(source[..b], y[..b])
        invariant done == ZipBlocks(source[..b], y[..b], f)
      {
        ZipBlocksSnoc(source, y, f, b);
        done := done + [ZipBlock(source[b], y[b], f)];
        b := b + 1;
      }
      assert source[..b] == source && y[..b] == y;
      blocks := done;
    }

    /** `operator=(alpha)`: every block is set to `alpha`. */
    method AssignScalar(alpha: int)
      modifies this
      ensures blocks == Fill(old(blocks), alpha)
    {
      Blockwise(blocks, (u, v) => alpha);
    }

    /** `axpy(alpha, other)`: `x += alpha y`, block by block; `other` may be this vector. */
    method AxpyFrom(alpha: int, other: DenseVectorTuple)
      requires SameShape(blocks, other.blocks)
      modifies this
      ensures blocks == Axpy(old(blocks), alpha, old(other.blocks))
    {
      Blockwise(other.blocks, (u, v) => u + alpha * v);
    }

    /** `operator+=(other)` is `axpy(1, other)`. */
    method AddAssign(other: DenseVectorTuple)
      requires SameShape(blocks, other.blocks)
      modifies this
      ensures blocks == Axpy(old(blocks), 1, old(other.blocks))
    {
      AxpyFrom(1, other);
    }

    /** `operator-=(other)` is `axpy(-1, other)`. */
    method SubtractAssign(other: DenseVectorTuple)
      requires SameShape(blocks, other.blocks)
      modifies this
      ensures blocks == Axpy(old(blocks), -1, old(other.blocks))
    {
      AxpyFrom(-1, other);
    }

    /** `operator+=(alpha)`: a vector of the same shape filled with `alpha` is added. */
    method AddScalar(alpha: int)
      modifies this
      ensures blocks == Axpy(old(blocks), 1, Fill(old(blocks), alpha))
    {
      var other := new DenseVectorTuple(Fill(blocks, alpha));
      AddAssign(other);
    }

    /** `operator-=(alpha)`: a vector of the same shape filled with `alpha` is subtracted. */
    method SubtractScalar(alpha: int)
      modifies this
      ensures blocks == Axpy(old(blocks), -1, Fill(old(blocks), alpha))
    {
      var other := new DenseVectorTuple(Fill(blocks, alpha));
      SubtractAssign(other);
    }

    /** `operator*=(alpha)`: every block is scaled. */
    method ScaleBy(alpha: int)
      modifies this
      ensures blocks == Scale(old(blocks), alpha)
    {
      Blockwise(blocks, (u, v) => u * alpha);
    }

    /**
     * `for_each(function)` as written: the `ApplyFunctor` loop of every block
     * calls its own copy of `function` on the block's entries with the
     * running flat index `j`, and `function` itself comes back untouched.
     */
    method ForEach<S>(visit: (S, int, nat) -> (S, int), init: S) returns (result: S)
      modifies this
      ensures blocks == VisitEach(visit, init, old(blocks))
      ensures result == init
    {
      var source := blocks;
      var done: seq<seq<int>> := [];
      var j := 0;
      var b := 0;
      while b < |source|
        invariant b <= |source| && done == VisitEach(visit, init, source[..b])
        invariant j == |Entries(source[..b])|
      {
        var x := source[b];
        // the by-value parameter of `ApplyFunctor<b>::apply`
        var copy := init;
        var updated: seq<int> := [];
        var k := 0;
        assert x[..0] == [];
        while k < |x|
          invariant k <= |x| && j == |Entries(source[..b])| + k
          invariant Visited(visit, init, x[..k], |Entries(source[..b])|, copy, updated)
        {
          var r := visit(copy, x[k], j);
          VisitedPrefixStep(visit, init, x, k, |Entries(source[..b])|, copy, updated);
          copy := r.0;
          updated := updated + [r.1];
          j := j + 1;
          k := k + 1;
        }
        EachBlockVisited(visit, init, source, b, done, copy, updated);
        EntriesSnoc(source, b);
        done := done + [updated];
        b := b + 1;
      }
      assert source[..b] == source;
      blocks := done;
      result := init;
    }

    /**
     * `for_each` as `std::for_each` behaves: one visitor is called on every
     * entry of every block with the running flat index, and its final
     * state is returned.
     */
    method ForEachCorrected<S>(visit: (S, int, nat) -> (S, int), init: S) returns (state: S)
      modifies this
      ensures (state, Entries(blocks)) == Visit(visit, init, Entries(old(blocks)), 0)
      ensures SameShape(blocks, old(blocks))
    {
      var source := blocks;
      var done: seq<seq<int>> := [];
      state := init;
      var j := 0;
      var b := 0;
      while b < |source|
        invariant b <= |source| && SameShape(done, source[..b])
        invariant j == |Entries(source[..b])|
        invariant Visited(visit, init, Entries(source[..b]), 0, state, Entries(done))
      {
        var x := source[b];
        var updated: seq<int> := [];
        var k := 0;
        VisitedEmptySuffix(visit, init, Entries(source[..b]), x, state, Entries(done));
        while k < |x|
          invariant k <= |x| && |updated| == k
          invariant j == |Entries(source[..b])| + k
          invariant Visited(visit, init, Entries(source[..b]) + x[..k], 0, state, Entries(done) + updated)
        {
          var r := visit(state, x[k], j);
          VisitedStep(visit, init, Entries(source[..b]), x, k, state, Entries(done), updated);
          state := r.0;
          updated := updated + [r.1];
          j := j + 1;
          k := k + 1;
        }
        BlockVisited(visit, init, source, b, done, updated, state);
        done := done + [updated];
        b := b + 1;
      }
      assert source[..b] == source;
      blocks := done;
    }
  }
}
