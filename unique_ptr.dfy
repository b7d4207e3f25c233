/**
 * `UniquePointerTuple<T...>`: a tuple of owning pointers. Each slot owns the
 * object it points to; replacing a non-null slot deletes the old object,
 * releasing a slot hands the object over without deleting it. The objects a
 * tuple has deleted are recorded, in order, in `deleted`.
 */
module UniquePointerTuples {
  import opened PointerTuples

  /** The addresses of the non-null pointers, in order: what resetting all of them deletes. */
  function Owned(t: seq<Ptr>): (r: seq<nat>)
    ensures |r| <= |t|
    ensures forall a :: a in r <==> Addr(a) in t
  {
    if t == [] then []
    else (if t[0].Addr? then [t[0].address] else []) + Owned(t[1..])
  }

  lemma {:induction false} OwnedSnoc(t: seq<Ptr>, p: Ptr)
    ensures Owned(t + [p]) == Owned(t) + (if p.Addr? then [p.address] else [])
  {
    if t != [] {
      assert (t + [p])[1..] == t[1..] + [p];
      OwnedSnoc(t[1..], p);
    }
  }

  lemma {:induction false} OwnedAllNull(t: seq<Ptr>)
    requires AllNull(t)
    ensures Owned(t) == []
  {
    if t != [] {
      OwnedAllNull(t[1..]);
    }
  }

  /** `std::unique_ptr<U>::reset(rp)` on a slot: the slot takes `rp` and its old object, if any, is deleted. */
  function ResetSlot(previous: Ptr, deleted: seq<nat>): seq<nat>
  {
    if previous.Addr? then deleted + [previous.address] else deleted
  }

  /** Slot `i` of a tuple reset up to `i` still holds its original pointer, and resetting it extends the prefix. */
  lemma SlotStep(s0: seq<Ptr>, pointers: seq<Ptr>, i: nat, cur: seq<Ptr>)
    requires i < |s0| == |pointers| && cur == pointers[..i] + s0[i..]
    ensures cur[i] == s0[i]
    ensures cur[i := pointers[i]] == pointers[..i + 1] + s0[i + 1..]
  {
  }

  /** Resetting slot `i` deletes exactly what that slot owned. */
  lemma OwnedStep(s0: seq<Ptr>, i: nat, d0: seq<nat>, deleted: seq<nat>)
    requires i < |s0| && deleted == d0 + Owned(s0[..i])
    ensures ResetSlot(s0[i], deleted) == d0 + Owned(s0[..i + 1])
  {
    assert s0[..i + 1] == s0[..i] + [s0[i]];
    OwnedSnoc(s0[..i], s0[i]);
  }

  class UniquePointerTuple {
    var slots: seq<Ptr>
    var deleted: seq<nat>

    /** The empty constructor: every slot holds a null pointer. */
    constructor (n: nat)
      ensures |slots| == n && AllNull(slots) && deleted == []
    {
      slots := seq(n, _ => Null);
      deleted := [];
    }

    /** `UniquePointerTuple(PointerTuple pointers)`: null slots, then `reset(pointers)`. */
    constructor FromPointers(pointers: seq<Ptr>)
      ensures slots == pointers && deleted == []
    {
      slots := seq(|pointers|, _ => Null);
      deleted := [];
      new;
      OwnedAllNull(slots);
      Reset(pointers);
    }

    /** The move constructor: takes over every slot of `other`, which is left null. */
    constructor Moved(other: UniquePointerTuple)
      modifies other
      ensures slots == old(other.slots) && deleted == []
      ensures |other.slots| == |slots| && AllNull(other.slots) && other.deleted == old(other.deleted)
    {
      slots := other.slots;
      deleted := [];
      new;
      other.slots := seq(|other.slots|, _ => Null);
    }

    /** `get()`: the current pointers; nothing changes. */
    method Get() returns (pointers: seq<Ptr>)
      ensures pointers == slots
    {
      pointers := slots;
    }

    /** `operator bool`: `valid_pointer_tuple(get())`, true exactly when no slot is null. */
    method IsValid() returns (b: bool)
      ensures b <==> NoneNull(slots)
    {
      var pointers := Get();
      b := ValidPointerTupleCheck(pointers);
    }

    /** `release()`: hands over every pointer and leaves every slot null, deleting nothing. */
    method Release() returns (pointers: seq<Ptr>)
      modifies this
      ensures pointers == old(slots)
      ensures |slots| == |pointers| && AllNull(slots) && deleted == old(deleted)
    {
      pointers := slots;
      slots := seq(|slots|, _ => Null);
    }

    /**
     * `reset(pointers)`: `ForEachValuePair` resets slot `i` to `pointers[i]`,
     * in ascending order; every object the tuple owned is deleted.
     */
    method Reset(pointers: seq<Ptr>)
      requires |pointers| == |slots|
      modifies this
      ensures slots == pointers
      ensures deleted == old(deleted) + Owned(old(slots))
    {
      ghost var s0, d0 := slots, deleted;
      var i := 0;
      while i < |pointers|
        invariant i <= |pointers| && |s0| == |pointers|
        invariant slots == pointers[..i] + s0[i..]
        invariant deleted == d0 + Owned(s0[..i])
      {
        SlotStep(s0, pointers, i, slots);
        OwnedStep(s0, i, d0, deleted);
        deleted := ResetSlot(slots[i], deleted);
        slots := slots[i := pointers[i]];
        i := i + 1;
      }
      assert s0[..i] == s0;
    }

    /** `reset()`: every slot is reset to null, deleting every object the tuple owned. */
    method ResetAll()
      modifies this
      ensures |slots| == |old(slots)| && AllNull(slots)
      ensures deleted == old(deleted) + Owned(old(slots))
    {
      ghost var s0, d0 := slots, deleted;
      ghost var nulls := seq(|slots|, _ => Null);
      var i := 0;
      while i < |slots|
        invariant i <= |slots| && |slots| == |s0|
        invariant slots == nulls[..i] + s0[i..]
        invariant deleted == d0 + Owned(s0[..i])
      {
        SlotStep(s0, nulls, i, slots);
        OwnedStep(s0, i, d0, deleted);
        deleted := ResetSlot(slots[i], deleted);
        slots := slots[i := Null];
        i := i + 1;
      }
      assert slots == nulls[..i];
      assert s0[..i] == s0;
    }

    /**
     * `swap(other)`: `ForEachValuePair` swaps slot `i` of both tuples, in
     * ascending order; the slots are exchanged on copies, which are stored
     * back at the end, so that swapping a tuple with itself is covered too.
     */
    method Swap(other: UniquePointerTuple)
      requires |other.slots| == |slots|
      modifies this, other
      ensures slots == old(other.slots) && other.slots == old(slots)
      ensures deleted == old(deleted) && other.deleted == old(other.deleted)
    {
      var mine, theirs := slots, other.slots;
      ghost var s0, o0 := slots, other.slots;
      var i := 0;
      while i < |mine|
        invariant i <= |mine| == |theirs| == |s0| == |o0|
        invariant mine == o0[..i] + s0[i..]
        invariant theirs == s0[..i] + o0[i..]
        invariant unchanged(this, other)
      {
        SlotStep(s0, o0, i, mine);
        SlotStep(o0, s0, i, theirs);
        mine, theirs := mine[i := theirs[i]], theirs[i := mine[i]];
        i := i + 1;
      }
      assert mine == o0[..i] && theirs == s0[..i];
      slots := mine;
      other.slots := theirs;
    }

    /** Move assignment from another tuple: takes over its slots, deleting the objects this tuple owned. */
    method MoveAssign(other: UniquePointerTuple)
      requires other != this && |other.slots| == |slots|
      modifies this, other
      ensures slots == old(other.slots) && deleted == old(deleted) + Owned(old(slots))
      ensures |other.slots| == |slots| && AllNull(other.slots) && other.deleted == old(other.deleted)
    {
      var pointers := other.Release();
      Reset(pointers);
    }
  }

  /** Swapping twice restores both tuples. */
  method SwapTwice(a: UniquePointerTuple, b: UniquePointerTuple)
    requires |a.slots| == |b.slots|
    modifies a, b
    ensures a.slots == old(a.slots) && b.slots == old(b.slots)
  {
    a.Swap(b);
    a.Swap(b);
  }

  /**
   * The life of a tuple in the test: empty and invalid after default
   * construction, valid after reset to non-null pointers, and invalid again
   * after `reset()`, which deletes the objects it owned.
   */
  method Lifecycle(pointers: seq<Ptr>) returns (initially: bool, afterReset: bool, afterClear: bool)
    requires NoneNull(pointers)
    ensures !initially || pointers == []
    ensures afterReset
    ensures !afterClear || pointers == []
  {
    var t := new UniquePointerTuple(|pointers|);
    initially := t.IsValid();
    if pointers != [] { assert t.slots[0] == Null; }
    t.Reset(pointers);
    afterReset := t.IsValid();
    t.ResetAll();
    afterClear := t.IsValid();
    if pointers != [] { assert t.slots[0] == Null; }
  }
}
