/**
 * The debug allocator: every allocation gets whole pages of its own, its
 * payload is placed so that it ends exactly where a trailing guard page
 * begins, and the guard page is made inaccessible so that an overrun traps.
 * The manager keeps one record per allocation and checks each deallocation
 * against it.
 *
 * Addresses are natural numbers, pages are numbered by `address / pageSize`,
 * and the page-protection state of the process is a map from page number to
 * protection. The system allocator (`memalign`) is a parameter of `Allocate`:
 * the caller passes the page-aligned block it returns, or `None` for a null
 * pointer. `allocation_error` aborts the process; it is the `Fatal` outcome
 * here, and every check that raises it runs before any state changes.
 */
module DebugAllocator {
  import opened Wrappers

  /** `size_type(-1)`: the largest value of a 64-bit `std::size_t`. */
  const SizeMax: nat := 0xFFFF_FFFF_FFFF_FFFF

  /** The run-time type of an allocation (its `std::type_info`). */
  type TypeId = string

  datatype Protection = ReadWrite | NoAccess

  /** What the manager remembers about one allocation. */
  datatype AllocationInfo = AllocationInfo(
    typeId: TypeId,
    pagePtr: nat,   // start of the block obtained from the system allocator
    ptr: nat,       // the address handed to the caller
    pages: nat,     // number of pages in the block, guard page included
    capacity: nat,  // bytes requested
    size: nat,      // objects requested
    notFree: bool)

  datatype Outcome = Done | Fatal(message: string)

  datatype Allocation = Allocated(ptr: nat) | BadAlloc

  // ---------------------------------------------------------------------------
  // Arithmetic of one allocation
  // ---------------------------------------------------------------------------

  /** `n * sizeof(T)` computed in `size_t`, which wraps modulo 2^64. */
  function Capacity(n: nat, elemSize: nat): (c: nat)
    ensures c <= SizeMax
    ensures n * elemSize <= SizeMax ==> c == n * elemSize
  {
    (n * elemSize) % (SizeMax + 1)
  }

  /** Pages needed for `capacity` bytes: enough whole pages plus one guard page. */
  function PagesFor(capacity: nat, pageSize: nat): nat
    requires pageSize > 0
  {
    capacity / pageSize + 2
  }

  /** Where the payload starts so that it ends at the guard page. */
  function PayloadStart(pagePtr: nat, capacity: nat, pageSize: nat): nat
    requires pageSize > 0
  {
    pagePtr + pageSize - capacity % pageSize
  }

  /** The block address `deallocate` derives from a pointer: the start of its page. */
  function BlockPage(ptr: nat, pageSize: nat): nat
    requires pageSize > 0
  {
    ptr - ptr % pageSize
  }

  /** The corrected derivation: the start of the page that holds the byte before `ptr`. */
  function BlockPageCorrected(ptr: nat, pageSize: nat): nat
    requires pageSize > 0
  {
    if ptr == 0 then 0 else (ptr - 1) - (ptr - 1) % pageSize
  }

  function FirstPage(r: AllocationInfo, pageSize: nat): nat
    requires pageSize > 0
  {
    r.pagePtr / pageSize
  }

  /** The last page of the block, which `allocate` makes inaccessible. */
  function GuardPage(r: AllocationInfo, pageSize: nat): int
    requires pageSize > 0
  {
    FirstPage(r, pageSize) + r.pages - 1
  }

  function PageRange(first: nat, count: nat): (r: set<nat>)
    ensures forall q :: q in r <==> first <= q < first + count
  {
    if count == 0 then {} else PageRange(first, count - 1) + {first + count - 1}
  }

  /** The pages of the block behind a record. */
  function Pages(r: AllocationInfo, pageSize: nat): set<nat>
    requires pageSize > 0
  {
    PageRange(FirstPage(r, pageSize), r.pages)
  }

  /** `mprotect` of `count` pages from page `first`. */
  function SetProtection(prot: map<nat, Protection>, first: nat, count: nat, p: Protection): (r: map<nat, Protection>)
    ensures r.Keys == prot.Keys + PageRange(first, count)
    ensures forall q :: q in r ==> r[q] == if first <= q < first + count then p else prot[q]
  {
    map q | q in prot.Keys + PageRange(first, count) :: if first <= q < first + count then p else prot[q]
  }

  /** The record `allocate` builds for `n` objects placed in the block at `pagePtr`. */
  function NewRecord(typeId: TypeId, elemSize: nat, n: nat, pagePtr: nat, pageSize: nat): AllocationInfo
    requires pageSize > 0
  {
    var capacity := Capacity(n, elemSize);
    AllocationInfo(typeId, pagePtr, PayloadStart(pagePtr, capacity, pageSize),
                   PagesFor(capacity, pageSize), capacity, n, true)
  }

  /** The page protection right after `allocate`: fresh pages are readable and writable, the last one is not. */
  function Guarded(prot: map<nat, Protection>, r: AllocationInfo, pageSize: nat): map<nat, Protection>
    requires pageSize > 0 && r.pages > 0
  {
    SetProtection(SetProtection(prot, FirstPage(r, pageSize), r.pages, ReadWrite),
                  GuardPage(r, pageSize), 1, NoAccess)
  }

  // ---------------------------------------------------------------------------
  // The manager's state as values
  // ---------------------------------------------------------------------------

  /** A record whose fields are those `allocate` computes for its block. */
  predicate WellPlaced(r: AllocationInfo, pageSize: nat)
    requires pageSize > 0
  {
    r.pagePtr > 0 && r.pagePtr % pageSize == 0 && r.capacity <= SizeMax
    && r.pages == PagesFor(r.capacity, pageSize)
    && r.ptr == PayloadStart(r.pagePtr, r.capacity, pageSize)
  }

  /**
   * The protection a record's pages have: a live block is readable and
   * writable except for its guard page; a released block exists only in keep
   * mode and is inaccessible as a whole.
   */
  predicate Protected(r: AllocationInfo, prot: map<nat, Protection>, pageSize: nat, keep: bool)
    requires pageSize > 0
  {
    Pages(r, pageSize) <= prot.Keys
    && if r.notFree then
         (forall q :: q in Pages(r, pageSize) ==> prot[q] == if q == GuardPage(r, pageSize) then NoAccess else ReadWrite)
       else
         keep && forall q :: q in Pages(r, pageSize) ==> prot[q] == NoAccess
  }

  /** Two records whose blocks share no page. */
  predicate Apart(a: AllocationInfo, b: AllocationInfo, pageSize: nat)
    requires pageSize > 0
  {
    Pages(a, pageSize) !! Pages(b, pageSize)
  }

  ghost predicate ValidState(list: seq<AllocationInfo>, prot: map<nat, Protection>, reserved: set<nat>, pageSize: nat, keep: bool)
  {
    pageSize > 0
    && (forall i :: 0 <= i < |list| ==>
          WellPlaced(list[i], pageSize) && Pages(list[i], pageSize) <= reserved
          && Protected(list[i], prot, pageSize, keep))
    && (forall i, j :: 0 <= i < |list| && 0 <= j < |list| && i != j ==> Apart(list[i], list[j], pageSize))
  }

  /** The first record whose block starts at `pagePtr`, as the iterator loop of `deallocate` finds it. */
  function IndexOfBlock(list: seq<AllocationInfo>, pagePtr: nat): (r: Option<nat>)
    ensures r.Some? ==> r.value < |list| && list[r.value].pagePtr == pagePtr
                        && forall j :: 0 <= j < r.value ==> list[j].pagePtr != pagePtr
    ensures r.None? ==> forall j :: 0 <= j < |list| ==> list[j].pagePtr != pagePtr
  {
    if list == [] then None
    else if list[0].pagePtr == pagePtr then Some(0)
    else match IndexOfBlock(list[1..], pagePtr)
      case None => None
      case Some(k) => Some(k + 1)
  }

  /** The four sanity checks of `deallocate`, in order, with the messages the assertion macro builds. */
  function SanityCheck(r: AllocationInfo, typeId: TypeId, ptr: nat, n: nat): (out: Outcome)
    ensures out == Done <==> (n == 0 || n == r.size) && ptr == r.ptr && r.notFree && typeId == r.typeId
  {
    if n != 0 && n != r.size then Fatal("Assertion n == it->size failed")
    else if ptr != r.ptr then Fatal("Assertion ptr == it->ptr failed")
    else if !r.notFree then Fatal("Assertion true == it->not_free failed")
    else if typeId != r.typeId then Fatal("Assertion typeid(T) == *(it->type) failed")
    else Done
  }

  /** The outcome of a deallocation that looked the block up and found `found`. */
  function DeallocOutcome(list: seq<AllocationInfo>, found: Option<nat>, typeId: TypeId, ptr: nat, n: nat): Outcome
    requires found.Some? ==> found.value < |list|
  {
    match found
    case None => Fatal("memory block not found")
    case Some(i) => SanityCheck(list[i], typeId, ptr, n)
  }

  function RemoveAt<T>(s: seq<T>, i: nat): (r: seq<T>)
    requires i < |s|
    ensures |r| == |s| - 1
    ensures forall j :: 0 <= j < |r| ==> r[j] == if j < i then s[j] else s[j + 1]
  {
    s[..i] + s[i + 1..]
  }

  /** Every page held by the records of `list`. */
  function AllPages(list: seq<AllocationInfo>, pageSize: nat): (r: set<nat>)
    requires pageSize > 0
    ensures forall i :: 0 <= i < |list| ==> Pages(list[i], pageSize) <= r
    ensures forall q :: q in r ==> exists i :: 0 <= i < |list| && q in Pages(list[i], pageSize)
  {
    if list == [] then {}
    else
      var rest := AllPages(list[..|list| - 1], pageSize);
      assert forall i :: 0 <= i < |list| - 1 ==> list[..|list| - 1][i] == list[i];
      rest + Pages(list[|list| - 1], pageSize)
  }

  // ---------------------------------------------------------------------------
  // Arithmetic lemmas
  // ---------------------------------------------------------------------------

  lemma MulSign(k: int, d: nat)
    requires d > 0
    ensures k >= 1 ==> k * d >= d
    ensures k <= -1 ==> k * d <= -(d as int)
  {
  }

  lemma DivModUnique(x: nat, d: nat, q: nat, m: nat)
    requires d > 0 && m < d && x == q * d + m
    ensures x / d == q && x % d == m
  {
    var q', m' := x / d, x % d;
    assert (q' - q) * d == m - m';
    MulSign(q' - q, d);
  }

  lemma DivMonotone(x: nat, y: nat, d: nat)
    requires d > 0 && x <= y
    ensures x / d <= y / d
  {
    assert (x / d - y / d) * d == x - x % d - (y - y % d);
    MulSign(x / d - y / d, d);
  }

  /**
   * Where `allocate` puts the payload inside a block of `PagesFor(capacity)`
   * pages at the page-aligned address `pagePtr`: strictly after the block
   * start and at most one page into it, ending exactly where the guard page
   * starts; rounding the payload address down to its page gives the block
   * start unless `capacity` is a multiple of the page size.
   */
  lemma {:induction false} Placement(pagePtr: nat, capacity: nat, pageSize: nat)
    requires pageSize > 0 && pagePtr % pageSize == 0
    ensures var ptr := PayloadStart(pagePtr, capacity, pageSize);
      var a := pagePtr / pageSize;
      var pages := PagesFor(capacity, pageSize);
      && pagePtr < ptr <= pagePtr + pageSize
      && ptr + capacity == pagePtr + (pages - 1) * pageSize
      && (ptr + capacity) / pageSize == a + pages - 1
      && ptr / pageSize >= a
      && (capacity > 0 ==> (ptr + capacity - 1) / pageSize == a + pages - 2)
      && BlockPage(ptr, pageSize) == (if capacity % pageSize == 0 then pagePtr + pageSize else pagePtr)
      && BlockPageCorrected(ptr, pageSize) == pagePtr
  {
    PayloadEnd(pagePtr, capacity, pageSize);
    PayloadPage(pagePtr, capacity, pageSize);
  }

  /** The payload ends exactly where the guard page starts. */
  lemma PayloadEnd(pagePtr: nat, capacity: nat, pageSize: nat)
    requires pageSize > 0 && pagePtr % pageSize == 0
    ensures var ptr := PayloadStart(pagePtr, capacity, pageSize);
      var a := pagePtr / pageSize;
      var pages := PagesFor(capacity, pageSize);
      && pagePtr < ptr <= pagePtr + pageSize
      && ptr + capacity == pagePtr + (pages - 1) * pageSize
      && (ptr + capacity) / pageSize == a + pages - 1
      && (capacity > 0 ==> (ptr + capacity - 1) / pageSize == a + pages - 2)
  {
    var ps := pageSize;
    var a, d, o := pagePtr / ps, capacity / ps, capacity % ps;
    var ptr := PayloadStart(pagePtr, capacity, ps);
    assert pagePtr == a * ps;
    assert capacity == d * ps + o;
    assert ptr + capacity == (a + d + 1) * ps;
    assert pagePtr + (PagesFor(capacity, ps) - 1) * ps == (a + d + 1) * ps;
    DivModUnique(ptr + capacity, ps, a + d + 1, 0);
    if capacity > 0 {
      DivModUnique(ptr + capacity - 1, ps, a + d, ps - 1);
    }
  }

  /** The page of the payload address, and the page of the byte before it. */
  lemma PayloadPage(pagePtr: nat, capacity: nat, pageSize: nat)
    requires pageSize > 0 && pagePtr % pageSize == 0
    ensures var ptr := PayloadStart(pagePtr, capacity, pageSize);
      && ptr / pageSize >= pagePtr / pageSize
      && BlockPage(ptr, pageSize) == (if capacity % pageSize == 0 then pagePtr + pageSize else pagePtr)
      && BlockPageCorrected(ptr, pageSize) == pagePtr
  {
    var ps := pageSize;
    var a, o := pagePtr / ps, capacity % ps;
    var ptr := PayloadStart(pagePtr, capacity, ps);
    assert pagePtr == a * ps;
    if o == 0 {
      assert ptr == (a + 1) * ps;
      DivModUnique(ptr, ps, a + 1, 0);
      DivModUnique(ptr - 1, ps, a, ps - 1);
    } else {
      assert ptr == a * ps + (ps - o);
      DivModUnique(ptr, ps, a, ps - o);
      DivModUnique(ptr - 1, ps, a, ps - o - 1);
    }
  }

  lemma PageOfAligned(pagePtr: nat, pageSize: nat)
    requires pageSize > 0 && pagePtr % pageSize == 0
    ensures (pagePtr + pageSize) / pageSize == pagePtr / pageSize + 1
    ensures (pagePtr + pageSize) % pageSize == 0
  {
    DivModUnique(pagePtr + pageSize, pageSize, pagePtr / pageSize + 1, 0);
  }

  lemma AlignedPagesDiffer(a: nat, b: nat, pageSize: nat)
    requires pageSize > 0 && a % pageSize == 0 && b % pageSize == 0 && a / pageSize == b / pageSize
    ensures a == b
  {
  }

  // ---------------------------------------------------------------------------
  // Lemmas about the manager's state
  // ---------------------------------------------------------------------------

  /** A live record's payload is readable and writable up to its last byte, and the first byte past it is not. */
  lemma {:induction false} OverrunHitsGuard(list: seq<AllocationInfo>, prot: map<nat, Protection>, reserved: set<nat>,
                                            pageSize: nat, keep: bool, i: nat)
    requires ValidState(list, prot, reserved, pageSize, keep)
    requires i < |list| && list[i].notFree
    ensures var r := list[i];
      && (r.ptr + r.capacity) / pageSize in prot && prot[(r.ptr + r.capacity) / pageSize] == NoAccess
      && forall b :: r.ptr <= b < r.ptr + r.capacity ==> b / pageSize in prot && prot[b / pageSize] == ReadWrite
  {
    var r := list[i];
    var ps := pageSize;
    var a := FirstPage(r, ps);
    Placement(r.pagePtr, r.capacity, ps);
    assert GuardPage(r, ps) in Pages(r, ps);
    forall b | r.ptr <= b < r.ptr + r.capacity
      ensures b / ps in prot && prot[b / ps] == ReadWrite
    {
      DivMonotone(r.ptr, b, ps);
      DivMonotone(b, r.ptr + r.capacity - 1, ps);
      assert b / ps in Pages(r, ps);
    }
  }

  /** Two different records never start at the same address. */
  lemma BlockStartsUnique(list: seq<AllocationInfo>, prot: map<nat, Protection>, reserved: set<nat>,
                          pageSize: nat, keep: bool, i: nat, j: nat)
    requires ValidState(list, prot, reserved, pageSize, keep)
    requires i < |list| && j < |list| && i != j
    ensures list[i].pagePtr != list[j].pagePtr
  {
    var ps := pageSize;
    assert Apart(list[i], list[j], ps);
    assert FirstPage(list[i], ps) in Pages(list[i], ps);
    assert FirstPage(list[j], ps) in Pages(list[j], ps);
  }

  /** The lookup by a record's own block address finds that record and no other. */
  lemma {:induction false} OwnBlockFound(list: seq<AllocationInfo>, prot: map<nat, Protection>, reserved: set<nat>,
                                         pageSize: nat, keep: bool, i: nat)
    requires ValidState(list, prot, reserved, pageSize, keep)
    requires i < |list|
    ensures forall j :: 0 <= j < |list| && j != i ==> list[j].pagePtr != list[i].pagePtr
    ensures IndexOfBlock(list, list[i].pagePtr) == Some(i)
  {
    forall j | 0 <= j < |list| && j != i ensures list[j].pagePtr != list[i].pagePtr {
      BlockStartsUnique(list, prot, reserved, pageSize, keep, i, j);
    }
  }

  /**
   * The lookup of `deallocate` as written, applied to the pointer that
   * `allocate` returned, finds the allocation's own record exactly when its
   * byte count is not a multiple of the page size, and finds nothing
   * otherwise.
   */
  lemma {:induction false} AsWrittenLookup(list: seq<AllocationInfo>, prot: map<nat, Protection>, reserved: set<nat>,
                                           pageSize: nat, keep: bool, i: nat)
    requires ValidState(list, prot, reserved, pageSize, keep)
    requires i < |list|
    ensures IndexOfBlock(list, BlockPage(list[i].ptr, pageSize))
            == if list[i].capacity % pageSize != 0 then Some(i) else None
  {
    var r := list[i];
    var ps := pageSize;
    Placement(r.pagePtr, r.capacity, ps);
    OwnBlockFound(list, prot, reserved, ps, keep, i);
    if r.capacity % ps == 0 {
      forall j | 0 <= j < |list| ensures list[j].pagePtr != r.pagePtr + ps {
        if j != i {
          NextPageNotABlock(r, list[j], ps);
        }
      }
    }
  }

  /** The page after a block's first page is its own, so no block apart from it can start there. */
  lemma NextPageNotABlock(a: AllocationInfo, b: AllocationInfo, pageSize: nat)
    requires pageSize > 0 && WellPlaced(a, pageSize) && WellPlaced(b, pageSize) && Apart(a, b, pageSize)
    ensures b.pagePtr != a.pagePtr + pageSize
  {
    PageOfAligned(a.pagePtr, pageSize);
    assert FirstPage(a, pageSize) + 1 in Pages(a, pageSize);
    assert FirstPage(b, pageSize) in Pages(b, pageSize);
  }

  /** The corrected lookup finds the allocation's own record for every pointer `allocate` returned. */
  lemma {:induction false} CorrectedLookup(list: seq<AllocationInfo>, prot: map<nat, Protection>, reserved: set<nat>,
                                           pageSize: nat, keep: bool, i: nat)
    requires ValidState(list, prot, reserved, pageSize, keep)
    requires i < |list|
    ensures IndexOfBlock(list, BlockPageCorrected(list[i].ptr, pageSize)) == Some(i)
  {
    Placement(list[i].pagePtr, list[i].capacity, pageSize);
    OwnBlockFound(list, prot, reserved, pageSize, keep, i);
  }

  /**
   * Allocation followed by deallocation of the same pointer with the same
   * type and count: with the lookup as written it succeeds exactly when the
   * byte count is not a multiple of the page size; with the corrected lookup
   * it always succeeds.
   */
  lemma {:induction false} RoundTrip(list: seq<AllocationInfo>, prot: map<nat, Protection>, reserved: set<nat>,
                                     pageSize: nat, keep: bool, i: nat, n: nat)
    requires ValidState(list, prot, reserved, pageSize, keep)
    requires i < |list| && list[i].notFree && (n == 0 || n == list[i].size)
    ensures var r := list[i];
      && (DeallocOutcome(list, IndexOfBlock(list, BlockPage(r.ptr, pageSize)), r.typeId, r.ptr, n) == Done
          <==> r.capacity % pageSize != 0)
      && DeallocOutcome(list, IndexOfBlock(list, BlockPageCorrected(r.ptr, pageSize)), r.typeId, r.ptr, n) == Done
  {
    AsWrittenLookup(list, prot, reserved, pageSize, keep, i);
    CorrectedLookup(list, prot, reserved, pageSize, keep, i);
  }

  /**
   * A concrete instance: `allocate<double>(0)` on 4096-byte pages, placed at
   * page 4096, returns 8192, and `deallocate<double>(8192, 0)` cannot find it.
   */
  lemma ZeroByteAllocationNotFound()
    ensures var r := NewRecord("double", 8, 0, 4096, 4096);
      && r.ptr == 8192
      && DeallocOutcome([r], IndexOfBlock([r], BlockPage(r.ptr, 4096)), "double", r.ptr, 0)
         == Fatal("memory block not found")
      && DeallocOutcome([r], IndexOfBlock([r], BlockPageCorrected(r.ptr, 4096)), "double", r.ptr, 0) == Done
  {
    var r := ZeroByteRecord();
    ZeroByteLookups(r);
  }

  /** The record `allocate` keeps for no objects of 8 bytes placed at page 4096. */
  lemma ZeroByteRecord() returns (r: AllocationInfo)
    ensures r == NewRecord("double", 8, 0, 4096, 4096)
    ensures r == AllocationInfo("double", 4096, 8192, 2, 0, 0, true)
  {
    assert Capacity(0, 8) == 0;
    r := NewRecord("double", 8, 0, 4096, 4096);
  }

  lemma ZeroByteLookups(r: AllocationInfo)
    requires r == AllocationInfo("double", 4096, 8192, 2, 0, 0, true)
    ensures IndexOfBlock([r], BlockPage(r.ptr, 4096)) == None
    ensures IndexOfBlock([r], BlockPageCorrected(r.ptr, 4096)) == Some(0)
  {
    assert BlockPage(8192, 4096) == 8192;
    assert BlockPageCorrected(8192, 4096) == 4096;
    SingleLookup(r, 8192);
    SingleLookup(r, 4096);
  }

  lemma SingleLookup(r: AllocationInfo, pagePtr: nat)
    ensures IndexOfBlock([r], pagePtr) == if r.pagePtr == pagePtr then Some(0) else None
  {
    assert [r][1..] == [];
  }

  /**
   * Giving a block back twice is fatal: in keep mode the record is still
   * there but marked free; otherwise the record is gone and no other block
   * starts at the same address.
   */
  lemma {:induction false} SecondReleaseFatal(list: seq<AllocationInfo>, prot: map<nat, Protection>, reserved: set<nat>,
                                              pageSize: nat, keep: bool, i: nat, pagePtr: nat, ptr: nat, typeId: TypeId, n: nat)
    requires ValidState(list, prot, reserved, pageSize, keep)
    requires i < |list| && list[i].pagePtr == pagePtr
    ensures var after := if keep then list[i := list[i].(notFree := false)] else RemoveAt(list, i);
      DeallocOutcome(after, IndexOfBlock(after, pagePtr), typeId, ptr, n).Fatal?
  {
    OwnBlockFound(list, prot, reserved, pageSize, keep, i);
    LookupAfterRelease(list, i);
  }

  /** Where the lookup lands once the only record starting at a block address was marked free or removed. */
  lemma LookupAfterRelease(list: seq<AllocationInfo>, i: nat)
    requires i < |list|
    requires forall j :: 0 <= j < |list| && j != i ==> list[j].pagePtr != list[i].pagePtr
    ensures IndexOfBlock(list[i := list[i].(notFree := false)], list[i].pagePtr) == Some(i)
    ensures IndexOfBlock(RemoveAt(list, i), list[i].pagePtr) == None
  {
    var kept := list[i := list[i].(notFree := false)];
    assert forall j :: 0 <= j < |kept| && j != i ==> kept[j] == list[j];
    assert kept[i].pagePtr == list[i].pagePtr;
    var removed := RemoveAt(list, i);
    assert forall j :: 0 <= j < |removed| ==> removed[j] == list[if j < i then j else j + 1];
  }

  // ---------------------------------------------------------------------------
  // Preservation of the state invariant
  // ---------------------------------------------------------------------------

  lemma {:induction false} AllocatePreserves(list: seq<AllocationInfo>, prot: map<nat, Protection>, reserved: set<nat>,
                                             pageSize: nat, keep: bool, r: AllocationInfo)
    requires ValidState(list, prot, reserved, pageSize, keep)
    requires WellPlaced(r, pageSize) && r.notFree && Pages(r, pageSize) !! reserved
    ensures ValidState(list + [r], Guarded(prot, r, pageSize), reserved + Pages(r, pageSize), pageSize, keep)
  {
    var ps := pageSize;
    var list', prot', reserved' := list + [r], Guarded(prot, r, ps), reserved + Pages(r, ps);
    forall i | 0 <= i < |list'|
      ensures WellPlaced(list'[i], ps) && Pages(list'[i], ps) <= reserved' && Protected(list'[i], prot', ps, keep)
    {
      if i < |list| {
        assert list'[i] == list[i];
        assert Pages(list[i], ps) !! Pages(r, ps);
        OutsideUnchanged(prot, r, ps, list[i]);
      } else {
        assert list'[i] == r;
      }
    }
    forall i, j | 0 <= i < |list'| && 0 <= j < |list'| && i != j
      ensures Apart(list'[i], list'[j], ps)
    {
      if i < |list| && j < |list| {
        assert Apart(list[i], list[j], ps);
      } else if i < |list| {
        assert Pages(list[i], ps) <= reserved;
      } else {
        assert Pages(list[j], ps) <= reserved;
      }
    }
  }

  /** Guarding one block leaves every page outside it as it was. */
  lemma OutsideUnchanged(prot: map<nat, Protection>, r: AllocationInfo, pageSize: nat, other: AllocationInfo)
    requires pageSize > 0 && r.pages > 0 && Pages(r, pageSize) !! Pages(other, pageSize)
    ensures forall q :: q in Pages(other, pageSize) && q in prot ==> q in Guarded(prot, r, pageSize) && Guarded(prot, r, pageSize)[q] == prot[q]
  {
    forall q | q in Pages(other, pageSize) && q in prot
      ensures q in Guarded(prot, r, pageSize) && Guarded(prot, r, pageSize)[q] == prot[q]
    {
      assert q !in Pages(r, pageSize);
    }
  }

  /** Re-protecting the pages of record `i` leaves the pages of every other record as they were. */
  lemma {:induction false} ReprotectOthers(list: seq<AllocationInfo>, prot: map<nat, Protection>, reserved: set<nat>,
                                           pageSize: nat, keep: bool, i: nat, p: Protection)
    requires ValidState(list, prot, reserved, pageSize, keep)
    requires i < |list|
    ensures var prot' := SetProtection(prot, FirstPage(list[i], pageSize), list[i].pages, p);
      forall k :: 0 <= k < |list| && k != i ==> Protected(list[k], prot', pageSize, keep)
  {
    var ps := pageSize;
    var r := list[i];
    var prot' := SetProtection(prot, FirstPage(r, ps), r.pages, p);
    forall k | 0 <= k < |list| && k != i ensures Protected(list[k], prot', ps, keep) {
      assert Apart(list[k], r, ps);
      forall q | q in Pages(list[k], ps) ensures q in prot' && prot'[q] == prot[q] {
        assert q !in Pages(r, ps);
      }
    }
  }

  lemma {:induction false} ReleaseKeptPreserves(list: seq<AllocationInfo>, prot: map<nat, Protection>, reserved: set<nat>,
                                                pageSize: nat, i: nat)
    requires ValidState(list, prot, reserved, pageSize, true)
    requires i < |list|
    ensures var r := list[i];
      ValidState(list[i := r.(notFree := false)], SetProtection(prot, FirstPage(r, pageSize), r.pages, NoAccess),
                 reserved, pageSize, true)
  {
    var ps := pageSize;
    var r := list[i];
    var list' := list[i := r.(notFree := false)];
    ReprotectOthers(list, prot, reserved, ps, true, i, NoAccess);
    assert Pages(list'[i], ps) == Pages(r, ps);
    forall a, b | 0 <= a < |list'| && 0 <= b < |list'| && a != b
      ensures Apart(list'[a], list'[b], ps)
    {
      assert Apart(list[a], list[b], ps);
      assert Pages(list'[a], ps) == Pages(list[a], ps);
      assert Pages(list'[b], ps) == Pages(list[b], ps);
    }
  }

  lemma {:induction false} ReleaseFreedPreserves(list: seq<AllocationInfo>, prot: map<nat, Protection>, reserved: set<nat>,
                                                 pageSize: nat, i: nat)
    requires ValidState(list, prot, reserved, pageSize, false)
    requires i < |list|
    ensures var r := list[i];
      ValidState(RemoveAt(list, i), SetProtection(prot, FirstPage(r, pageSize), r.pages, ReadWrite),
                 reserved - Pages(r, pageSize), pageSize, false)
  {
    var ps := pageSize;
    var r := list[i];
    var list' := RemoveAt(list, i);
    var reserved' := reserved - Pages(r, ps);
    ReprotectOthers(list, prot, reserved, ps, false, i, ReadWrite);
    forall k | 0 <= k < |list'| ensures Pages(list'[k], ps) <= reserved' {
      var src := if k < i then k else k + 1;
      assert list'[k] == list[src];
      assert Apart(list[src], r, ps);
    }
    forall a, b | 0 <= a < |list'| && 0 <= b < |list'| && a != b
      ensures Apart(list'[a], list'[b], ps)
    {
      var sa := if a < i then a else a + 1;
      var sb := if b < i then b else b + 1;
      assert Apart(list[sa], list[sb], ps);
    }
  }

  // ---------------------------------------------------------------------------
  // The manager
  // ---------------------------------------------------------------------------

  class AllocationManager {
    /** The system page size. */
    const pageSize: nat
    /** Whether released blocks are kept inaccessible instead of being returned (`DEBUG_ALLOCATOR_KEEP`). */
    const keep: bool
    var allocationList: seq<AllocationInfo>
    /** Protection of every page the manager has touched, by page number. */
    var protection: map<nat, Protection>
    /** Pages obtained from the system allocator and not yet returned to it. */
    var reserved: set<nat>

    ghost predicate Valid()
      reads this
    {
      ValidState(allocationList, protection, reserved, pageSize, keep)
    }

    constructor (pageSize: nat, keep: bool)
      requires pageSize > 0
      ensures Valid() && this.pageSize == pageSize && this.keep == keep
      ensures allocationList == [] && protection == map[] && reserved == {}
    {
      this.pageSize := pageSize;
      this.keep := keep;
      allocationList := [];
      protection := map[];
      reserved := {};
    }

    /** A block the system allocator may return for `pages` pages: non-null, page aligned, not in use. */
    predicate FreshBlock(pagePtr: nat, pages: nat)
      reads this
      requires pageSize > 0
    {
      pagePtr > 0 && pagePtr % pageSize == 0 && PageRange(pagePtr / pageSize, pages) !! reserved
    }

    /**
     * `allocate<T>(n)`: `block` is what `memalign(page_size, pages * page_size)`
     * returned. A null block raises `bad_alloc` and changes nothing; otherwise
     * the record is appended, the block's pages are reserved and its last page
     * becomes inaccessible.
     */
    method Allocate(typeId: TypeId, elemSize: nat, n: nat, block: Option<nat>) returns (a: Allocation)
      requires Valid()
      requires block.Some? ==> FreshBlock(block.value, PagesFor(Capacity(n, elemSize), pageSize))
      modifies this
      ensures Valid()
      ensures block.None? ==> a == BadAlloc && unchanged(this)
      ensures block.Some? ==>
        var r := NewRecord(typeId, elemSize, n, block.value, pageSize);
        && a == Allocated(r.ptr)
        && allocationList == old(allocationList) + [r]
        && protection == Guarded(old(protection), r, pageSize)
        && reserved == old(reserved) + Pages(r, pageSize)
    {
      var capacity := Capacity(n, elemSize);
      var pages := capacity / pageSize + 2;
      var overlap := capacity % pageSize;
      if block.None? {
        return BadAlloc;
      }
      var pagePtr := block.value;
      var ptr := pagePtr + pageSize - overlap;
      var r := AllocationInfo(typeId, pagePtr, ptr, pages, capacity, n, true);
      assert r == NewRecord(typeId, elemSize, n, pagePtr, pageSize);
      assert Pages(r, pageSize) == PageRange(pagePtr / pageSize, PagesFor(Capacity(n, elemSize), pageSize));
      AllocatePreserves(allocationList, protection, reserved, pageSize, keep, r);
      // fresh pages are readable and writable; the last one is protected
      protection := Guarded(protection, r, pageSize);
      reserved := reserved + Pages(r, pageSize);
      allocationList := allocationList + [r];
      a := Allocated(ptr);
    }

    /** The iterator loop of `deallocate`: the index of the first record starting at `pagePtr`, or the end. */
    method Find(pagePtr: nat) returns (i: nat)
      ensures i == match IndexOfBlock(allocationList, pagePtr) case Some(k) => k case None => |allocationList|
    {
      i := 0;
      while i < |allocationList| && allocationList[i].pagePtr != pagePtr
        invariant i <= |allocationList|
        invariant forall j :: 0 <= j < i ==> allocationList[j].pagePtr != pagePtr
      {
        i := i + 1;
      }
      ghost var found := IndexOfBlock(allocationList, pagePtr);
      assert found.Some? ==> found.value == i;
    }

    /** Checks and releases the record at index `i` that the lookup found. */
    method Release(i: nat, typeId: TypeId, ptr: nat, n: nat) returns (out: Outcome)
      requires Valid() && i < |allocationList|
      modifies this
      ensures Valid()
      ensures out == SanityCheck(old(allocationList[i]), typeId, ptr, n)
      ensures out.Fatal? ==> unchanged(this)
      ensures out == Done ==> Released(old(allocationList), old(protection), old(reserved), i)
    {
      var r := allocationList[i];
      out := SanityCheck(r, typeId, ptr, n);
      if out.Fatal? {
        return;
      }
      if keep {
        ReleaseKeptPreserves(allocationList, protection, reserved, pageSize, i);
        allocationList := allocationList[i := r.(notFree := false)];
        protection := SetProtection(protection, r.pagePtr / pageSize, r.pages, NoAccess);
      } else {
        ReleaseFreedPreserves(allocationList, protection, reserved, pageSize, i);
        protection := SetProtection(protection, r.pagePtr / pageSize, r.pages, ReadWrite);
        reserved := reserved - Pages(r, pageSize);
        allocationList := RemoveAt(allocationList, i);
      }
    }

    /** The state after the record at index `i` of the old state was released. */
    ghost predicate Released(list: seq<AllocationInfo>, prot: map<nat, Protection>, res: set<nat>, i: nat)
      reads this
      requires pageSize > 0 && i < |list|
    {
      var r := list[i];
      if keep then
        allocationList == list[i := r.(notFree := false)]
        && protection == SetProtection(prot, FirstPage(r, pageSize), r.pages, NoAccess)
        && reserved == res
      else
        allocationList == RemoveAt(list, i)
        && protection == SetProtection(prot, FirstPage(r, pageSize), r.pages, ReadWrite)
        && reserved == res - Pages(r, pageSize)
    }

    /**
     * `deallocate<T>(ptr, n)` as written: the block is looked up by rounding
     * `ptr` down to its page; a missing block or a failed check is fatal.
     */
    method Deallocate(typeId: TypeId, ptr: nat, n: nat) returns (out: Outcome)
      requires Valid()
      modifies this
      ensures Valid()
      ensures var found := IndexOfBlock(old(allocationList), BlockPage(ptr, pageSize));
        && out == DeallocOutcome(old(allocationList), found, typeId, ptr, n)
        && (out.Fatal? ==> unchanged(this))
        && (out == Done ==> Released(old(allocationList), old(protection), old(reserved), found.value))
    {
      var i := Find(BlockPage(ptr, pageSize));
      if i == |allocationList| {
        return Fatal("memory block not found");
      }
      out := Release(i, typeId, ptr, n);
    }

    /** `deallocate` with the corrected lookup, which rounds down the byte before `ptr`. */
    method DeallocateCorrected(typeId: TypeId, ptr: nat, n: nat) returns (out: Outcome)
      requires Valid()
      modifies this
      ensures Valid()
      ensures var found := IndexOfBlock(old(allocationList), BlockPageCorrected(ptr, pageSize));
        && out == DeallocOutcome(old(allocationList), found, typeId, ptr, n)
        && (out.Fatal? ==> unchanged(this))
        && (out == Done ==> Released(old(allocationList), old(protection), old(reserved), found.value))
    {
      var i := Find(BlockPageCorrected(ptr, pageSize));
      if i == |allocationList| {
        return Fatal("memory block not found");
      }
      out := Release(i, typeId, ptr, n);
    }

    /**
     * The destructor: every block is returned to the system allocator, and if
     * any record was still in use the process is aborted with "lost
     * allocations". The record list is destroyed with the manager.
     */
    method Destroy() returns (out: Outcome)
      requires Valid()
      modifies this
      ensures out == if exists i :: 0 <= i < |old(allocationList)| && old(allocationList)[i].notFree
                     then Fatal("lost allocations") else Done
      ensures reserved == old(reserved) - AllPages(old(allocationList), pageSize)
      ensures allocationList == [] && protection == old(protection)
    {
      var error := false;
      var i := 0;
      while i < |allocationList|
        invariant i <= |allocationList| && allocationList == old(allocationList) && protection == old(protection)
        invariant error <==> exists j :: 0 <= j < i && allocationList[j].notFree
        invariant reserved == old(reserved) - AllPages(allocationList[..i], pageSize)
      {
        var r := allocationList[i];
        if r.notFree {
          error := true;
        }
        assert allocationList[..i + 1][..i] == allocationList[..i];
        reserved := reserved - Pages(r, pageSize);
        i := i + 1;
      }
      assert allocationList[..i] == allocationList;
      allocationList := [];
      out := if error then Fatal("lost allocations") else Done;
    }
  }

  /**
   * `allocate<T>(n)` immediately followed by `deallocate<T>(p, n)` on the same
   * manager: with the lookup as written the round trip succeeds exactly when
   * the byte count is not a multiple of the page size.
   */
  method AllocateThenDeallocate(m: AllocationManager, typeId: TypeId, elemSize: nat, n: nat, block: nat)
    returns (out: Outcome)
    requires m.Valid()
    requires m.FreshBlock(block, PagesFor(Capacity(n, elemSize), m.pageSize))
    modifies m
    ensures m.Valid()
    ensures out == Done <==> Capacity(n, elemSize) % m.pageSize != 0
  {
    var a := m.Allocate(typeId, elemSize, n, Some(block));
    var r := NewRecord(typeId, elemSize, n, block, m.pageSize);
    RoundTrip(m.allocationList, m.protection, m.reserved, m.pageSize, m.keep, |m.allocationList| - 1, n);
    out := m.Deallocate(typeId, a.ptr, n);
  }

  /**
   * `DebugAllocator<T>`: the standard-allocator face of the manager for one
   * element type. It holds no state of its own; the manager it forwards to is
   * the process-wide `alloc_man`.
   */
  class DebugAllocatorOf {
    const manager: AllocationManager
    const typeId: TypeId
    /** `sizeof(T)`. */
    const elemSize: nat

    constructor (manager: AllocationManager, typeId: TypeId, elemSize: nat)
      requires elemSize > 0
      ensures this.manager == manager && this.typeId == typeId && this.elemSize == elemSize
    {
      this.manager := manager;
      this.typeId := typeId;
      this.elemSize := elemSize;
    }

    /** `allocate(n, hint)`: the hint is ignored; the manager allocates `n` objects of type `T`. */
    method Allocate(n: nat, block: Option<nat>) returns (p: Allocation)
      requires manager.Valid()
      requires block.Some? ==> manager.FreshBlock(block.value, PagesFor(Capacity(n, elemSize), manager.pageSize))
      modifies manager
      ensures manager.Valid()
      ensures block.None? ==> p == BadAlloc && unchanged(manager)
      ensures block.Some? ==>
        var r := NewRecord(typeId, elemSize, n, block.value, manager.pageSize);
        && p == Allocated(r.ptr)
        && manager.allocationList == old(manager.allocationList) + [r]
        && manager.protection == Guarded(old(manager.protection), r, manager.pageSize)
        && manager.reserved == old(manager.reserved) + Pages(r, manager.pageSize)
    {
      p := manager.Allocate(typeId, elemSize, n, block);
    }

    /** `deallocate(p, n)`: forwarded to the manager's `deallocate<T>`, whose lookup rounds `p` down. */
    method Deallocate(p: nat, n: nat) returns (out: Outcome)
      requires manager.Valid()
      modifies manager
      ensures manager.Valid()
      ensures var found := IndexOfBlock(old(manager.allocationList), BlockPage(p, manager.pageSize));
        && out == DeallocOutcome(old(manager.allocationList), found, typeId, p, n)
        && (out.Fatal? ==> unchanged(manager))
        && (out == Done ==> manager.Released(old(manager.allocationList), old(manager.protection), old(manager.reserved), found.value))
    {
      out := manager.Deallocate(typeId, p, n);
    }

    /** `deallocate(p, n)` over the corrected lookup, which finds every block `Allocate` returned. */
    method DeallocateCorrected(p: nat, n: nat) returns (out: Outcome)
      requires manager.Valid()
      modifies manager
      ensures manager.Valid()
      ensures var found := IndexOfBlock(old(manager.allocationList), BlockPageCorrected(p, manager.pageSize));
        && out == DeallocOutcome(old(manager.allocationList), found, typeId, p, n)
        && (out.Fatal? ==> unchanged(manager))
        && (out == Done ==> manager.Released(old(manager.allocationList), old(manager.protection), old(manager.reserved), found.value))
    {
      out := manager.DeallocateCorrected(typeId, p, n);
    }

    /** `max_size()`: the largest count whose byte size fits in `size_t`. */
    function MaxSize(): (m: nat)
      requires elemSize > 0
      ensures m * elemSize <= SizeMax < (m + 1) * elemSize
      ensures forall n: nat :: n <= m ==> Capacity(n, elemSize) == n * elemSize
    {
      var m := SizeMax / elemSize;
      assert forall n: nat :: n <= m ==> n * elemSize <= m * elemSize;
      m
    }
  }
}
