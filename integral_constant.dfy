/**
 * `IntegralConstantTuple<T, v...>`: a tuple of integral constants with the
 * given values. The variadic form prepends the head to the converted tail.
 * The fallback form for compilers without variadic templates has nine value
 * slots; unused slots hold a sentinel of the integer type, and construction
 * stops once every remaining slot holds the sentinel.
 */
module IntegralConstantTuples {
  import opened TupleModifiers

  /** The variadic form: the empty list gives the empty tuple, otherwise `PushFront(tail, head)`. */
  function Variadic(values: seq<int>): seq<int>
  {
    if values == [] then [] else PushFront(Variadic(values[1..]), values[0])
  }

  /** The variadic form holds the given values, one element each, in order. */
  lemma {:induction false} VariadicKeepsValues(values: seq<int>)
    ensures Variadic(values) == values
  {
    if values != [] {
      VariadicKeepsValues(values[1..]);
    }
  }

  /** The integer types the fallback form supports. */
  datatype IntegerType = Int | UnsignedInt | SizeT

  /** `IntegralConstantTupleTraits<T>::unused`: `INT_MIN`, `UINT_MAX` and `size_t(-1)`. */
  function Unused(t: IntegerType): int
  {
    match t
    case Int => -0x8000_0000
    case UnsignedInt => 0xFFFF_FFFF
    case SizeT => 0xFFFF_FFFF_FFFF_FFFF
  }

  /** The slots up to and including the last one that does not hold the sentinel. */
  function DropTrailing(slots: seq<int>, unused: int): (r: seq<int>)
    ensures |r| <= |slots| && r == slots[..|r|]
    ensures r != [] ==> r[|r| - 1] != unused
    ensures forall k :: |r| <= k < |slots| ==> slots[k] == unused
  {
    if slots == [] then []
    else if slots[|slots| - 1] == unused then DropTrailing(slots[..|slots| - 1], unused)
    else slots
  }

  predicate AllUnused(slots: seq<int>, unused: int)
  {
    forall k :: 0 <= k < |slots| ==> slots[k] == unused
  }

  /** Dropping the first slot of a tuple that is not all sentinels drops the first meaningful value. */
  lemma {:induction false} DropFirst(slots: seq<int>, unused: int)
    requires slots != [] && !AllUnused(slots, unused)
    ensures DropTrailing(slots[1..], unused) == DropTrailing(slots, unused)[1..]
  {
    var n := |slots|;
    if slots[n - 1] == unused {
      var k :| 0 <= k < n && slots[k] != unused;
      var init := slots[..n - 1];
      assert init[k] == slots[k];
      DropFirst(init, unused);
      assert slots[1..][..n - 2] == init[1..];
    } else if n >= 2 {
      assert slots[1..][n - 2] == slots[n - 1];
    }
  }

  /** Shifting the slots left and refilling with the sentinel drops one slot from the meaningful prefix. */
  lemma ShiftShortens(slots: seq<int>, unused: int)
    requires slots != [] && !AllUnused(slots, unused)
    ensures DropTrailing(slots[1..] + [unused], unused) == DropTrailing(slots, unused)[1..]
  {
    assert (slots[1..] + [unused])[..|slots| - 1] == slots[1..];
    DropFirst(slots, unused);
  }

  /**
   * The fallback `Create<u1, …, u9, Seed>`: push `u1` onto the seed and shift
   * the remaining slots left, refilling with the sentinel, until every slot
   * holds the sentinel.
   */
  function Create(slots: seq<int>, unused: int, seed: seq<int>): (r: seq<int>)
    requires |slots| == 9
    ensures r == seed + DropTrailing(slots, unused)
    decreases |DropTrailing(slots, unused)|
  {
    if AllUnused(slots, unused) then
      NothingMeaningful(slots, unused);
      seed
    else
      CreateStep(slots, unused, seed);
      Create(slots[1..] + [unused], unused, PushBack(seed, slots[0]))
  }

  lemma NothingMeaningful(slots: seq<int>, unused: int)
    requires AllUnused(slots, unused)
    ensures DropTrailing(slots, unused) == []
  {
  }

  /** One step of `Create`: the first slot moves to the seed and the meaningful prefix shrinks by it. */
  lemma CreateStep(slots: seq<int>, unused: int, seed: seq<int>)
    requires slots != [] && !AllUnused(slots, unused)
    ensures var shifted := DropTrailing(slots[1..] + [unused], unused);
      |shifted| < |DropTrailing(slots, unused)| &&
      PushBack(seed, slots[0]) + shifted == seed + DropTrailing(slots, unused)
  {
    ShiftShortens(slots, unused);
    var d := DropTrailing(slots, unused);
    assert d == [slots[0]] + d[1..];
    assert (seed + [slots[0]]) + d[1..] == seed + d;
  }

  /** `count` copies of the sentinel. */
  function Padding(count: nat, unused: int): (r: seq<int>)
    ensures |r| == count && AllUnused(r, unused)
  {
    if count == 0 then [] else Padding(count - 1, unused) + [unused]
  }

  /** `IntegralConstantTuple<T, v, w1, …, w8>::Type`: the given values padded with the sentinel to nine slots. */
  function Fallback(t: IntegerType, v: int, ws: seq<int>): seq<int>
    requires |ws| <= 8
  {
    Create([v] + ws + Padding(8 - |ws|, Unused(t)), Unused(t), [])
  }

  /**
   * The fallback form holds the given values with every trailing value that
   * equals the sentinel dropped; when the last given value is not the
   * sentinel it agrees with the variadic form.
   */
  lemma FallbackDropsTrailingSentinels(t: IntegerType, v: int, ws: seq<int>)
    requires |ws| <= 8
    ensures Fallback(t, v, ws) == DropTrailing([v] + ws, Unused(t))
    ensures ([v] + ws)[|ws|] != Unused(t) ==> Fallback(t, v, ws) == Variadic([v] + ws)
  {
    FallbackDrops(t, v, ws);
    if ([v] + ws)[|ws|] != Unused(t) {
      KeepsLast([v] + ws, Unused(t));
      VariadicKeepsValues([v] + ws);
    }
  }

  lemma FallbackDrops(t: IntegerType, v: int, ws: seq<int>)
    requires |ws| <= 8
    ensures Fallback(t, v, ws) == DropTrailing([v] + ws, Unused(t))
  {
    PaddedDrops(v, ws, Unused(t));
  }

  /** Creating from the given values padded with the sentinel drops the trailing sentinels. */
  lemma PaddedDrops(v: int, ws: seq<int>, unused: int)
    requires |ws| <= 8
    ensures Create([v] + ws + Padding(8 - |ws|, unused), unused, []) == DropTrailing([v] + ws, unused)
  {
    var slots := [v] + ws + Padding(8 - |ws|, unused);
    assert [] + DropTrailing(slots, unused) == DropTrailing(slots, unused);
    DropPadding([v] + ws, 8 - |ws|, unused);
  }

  lemma KeepsLast(slots: seq<int>, unused: int)
    requires slots != [] && slots[|slots| - 1] != unused
    ensures DropTrailing(slots, unused) == slots
  {
  }

  lemma {:induction false} DropPadding(given: seq<int>, n: nat, unused: int)
    ensures DropTrailing(given + Padding(n, unused), unused) == DropTrailing(given, unused)
  {
    if n > 0 {
      var padded := given + Padding(n, unused);
      assert padded == (given + Padding(n - 1, unused)) + [unused];
      assert padded[..|padded| - 1] == given + Padding(n - 1, unused);
      DropPadding(given, n - 1, unused);
    } else {
      assert given + Padding(n, unused) == given;
    }
  }

  /** A trailing `INT_MIN` is lost: the fallback `<int, 1, INT_MIN>` has one element, not two. */
  lemma TrailingSentinelLost()
    ensures Fallback(Int, 1, [-0x8000_0000]) == [1]
    ensures Variadic([1, -0x8000_0000]) == [1, -0x8000_0000]
  {
    FallbackDropsTrailingSentinels(Int, 1, [-0x8000_0000]);
    VariadicKeepsValues([1, -0x8000_0000]);
    assert DropTrailing([1, -0x8000_0000], Unused(Int)) == DropTrailing([1], Unused(Int));
  }
}
