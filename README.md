# dune-common core, modelled in Dafny

This project models the parts of dune-common (the DUNE numerics toolbox) that carry
program logic of their own, and proves properties of that model.

- **Debug allocator** (`debug_allocator.dfy`). `AllocationManager` keeps a list of
  `AllocationInfo` records. Each allocation gets whole pages, with the payload
  right-justified against a trailing no-access guard page. Deallocation finds the record
  by page and checks count, pointer, liveness and type. It then frees the block, or in
  keep mode re-protects the block and keeps the record. The destructor frees everything
  and reports lost allocations. Page protection is a map from page index to protection,
  and the memory supplier is a parameter.
- **Tuple algebra** (one module per header under `dune/common/tuples`). Tuples are
  sequences of values, or of type tags where the header works on types. Covered:
  push/pop/reduce/join/flatten, sub-tuples, enumeration, index and integral-constant
  tuples, first-index search, membership, predicate checks, reverse access, `ForEach`
  visiting, transformation, instantiation, pointer tuples and type-indexed tuples.
- **Stateful tuple helpers**. `UniquePointerTuple` (owning slots) and
  `DenseVectorTuple` (blocks behind one flat index) are classes. `FieldVectorTuple`
  sums its dimensions at compile time. The tuple stream operators are modelled over a
  small `std::istream` model (`streams.dfy`): whitespace skipping, integer extraction,
  failbit and eofbit.
- **ParameterTree** (`parameter_tree.dfy`). The key/value store, `get` with and
  without a default, and the `Parser` rules for an integer scalar, a string, a
  `FieldVector` and a `std::vector`.
- **UG grid numbering** (`uggrid.dfy`). The face renumbering tables between DUNE and
  UG, the vertex checks and reordering of `insertElement`, the decision rule of
  `mark`, the mode flags of `adapt` and `adaptWithoutClosure`, and the count of grids
  that starts and stops UG, including a construction that fails after UG was started.

`wrappers.dfy` holds the `Option` and `Result` types used for the error paths. An
exception thrown by the source is an `Err` value or a `Fatal` outcome in the model.

## Model

| member | source | states |
|---|---|---|
| `ReverseAccess.At` | dune/common/tuples/access.hh:36-55 | `At<N>::get` reads element `N` counted from the back; what that means is stated by `ReverseAccess.AtIsReverseIndex` |
| `ReverseAccess.Reverse` | dune/common/tuples/access.hh:18-55 | the reversed tuple, of the same length, against which `At` is proved |
| `ReverseAccess.AtIsReverseIndex` | dune/common/tuples/access.hh:18-55 | `At<N>` is the `N`-th element of the reversed tuple, so `At<0>` is the last element |
| `ReverseAccess.PushBackShiftsAt` | dune/common/tuples/access.hh:36-55 | after appending an element, that element is `At<0>` and each old element's reverse index grows by one |
| `CheckPredicate.CheckPredicate` | dune/common/tuples/checkpredicate.hh:32-44 | `CheckPredicate<Tuple, Predicate, N>::value`: the predicate on element `N-1` and-ed with the value for the first `N-1` elements, `true` for `N == 0`; its meaning is stated by `CheckPredicate.CheckPredicateIsConjunction` |
| `CheckPredicate.CheckPredicateIsConjunction` | dune/common/tuples/checkpredicate.hh:32-44 | the static check over the first `N` element types holds exactly when the predicate accepts every one of them |
| `CheckPredicate.CheckPredicateTupleAsWritten` | dune/common/tuples/checkpredicate.hh:56-97 | as written, the flag starts `true`, is and-ed once per element with no early exit, and answers for a default-constructed predicate rather than the one passed in |
| `CheckPredicate.CheckPredicateTuple` | dune/common/tuples/checkpredicate.hh:128-132 | `true` exactly when the given predicate accepts every element, and every element is visited once |
| `CheckPredicate.PredicateIgnoredExample` | dune/common/tuples/checkpredicate.hh:62-76 | with the stateful predicate "at least 5" and the tuple (1), the as-written check answers `true` and the intended check answers `false` |
| `CheckPredicate.CheckAgreesWithStatic` | dune/common/tuples/checkpredicate.hh:32-44 | checking the values at run time gives the same answer as the static `CheckPredicate` |
| `ContainsType.ContainsTypeAsWritten` | dune/common/tuples/containstype.hh:26-38 | as written, only `N == 0` has a value (`false`); every other `N` reads the undeclared member `position` and is ill-formed |
| `ContainsType.Contains` | dune/common/tuples/containstype.hh:26-38 | the evidently intended recursion: element `N-1` is `Type` or the first `N-1` elements contain it, `false` for `N == 0`; its meaning is stated by `ContainsType.ContainsIsMembership` |
| `ContainsType.ContainsIsMembership` | dune/common/tuples/containstype.hh:26-38 | the intended recursion is `true` exactly when some element among the first `N` is `Type` |
| `ContainsType.ContainsType` | dune/common/tuples/containstype.hh:16-32 | with the default `N`, `true` exactly when `Type` is one of the tuple's element types; a missing type is not an error |
| `ContainsType.AsWrittenIllFormed` | dune/common/tuples/containstype.hh:30-31 | the as-written template agrees with the intended one only for `N == 0` |
| `ContainsType.ContainsExample` | dune/common/tuples/containstype.hh:26-38 | over (1, 2, 3, 4) every element is contained and 5 is not, while the as-written template has no value |
| `DebugAllocator.Capacity` | dune/common/debug_allocator.hh:101 | the byte count `n * sizeof(T)` never exceeds `size_t`'s maximum and is the true product whenever that fits |
| `DebugAllocator.PageRange` | dune/common/debug_allocator.hh:112-114 | the pages of a range are exactly the page numbers from the first to before first plus count |
| `DebugAllocator.SetProtection` | dune/common/debug_allocator.hh:54-73 | `mprotect` over a page range: the range gets the new protection, every other known page keeps its own |
| `DebugAllocator.IndexOfBlock` | dune/common/debug_allocator.hh:129-134 | the search finds a record whose block starts at the address, the first such record, or reports that none does |
| `DebugAllocator.SanityCheck` | dune/common/debug_allocator.hh:136-141 | the checks pass exactly when the count is 0 or the recorded size, the pointer is the recorded one, the block is still in use and the type matches |
| `DebugAllocator.RemoveAt` | dune/common/debug_allocator.hh:156 | `erase` drops exactly the element at the index and keeps the others in order |
| `DebugAllocator.AllPages` | dune/common/debug_allocator.hh:81-90 | the pages of all records are exactly the union of each record's pages |
| `DebugAllocator.PagesFor` | dune/common/debug_allocator.hh:102 | the page count of `allocate`: the byte count divided by the page size, plus two; that the payload then ends at the guard page is stated by `DebugAllocator.Placement` |
| `DebugAllocator.NewRecord` | dune/common/debug_allocator.hh:98-110 | the record `allocate` builds: the type, the block start, `ptr` placed `page_size - overlap` into the block, the page count, the byte count, the element count and `not_free`; where its payload lies is stated by `DebugAllocator.Placement`, and that appending it keeps the manager's invariant by `DebugAllocator.AllocatePreserves` |
| `DebugAllocator.Placement` | dune/common/debug_allocator.hh:98-114 | the payload starts inside the block's first page and ends exactly where the guard page starts; rounding it down to its page gives the block start unless the byte count is a multiple of the page size |
| `DebugAllocator.OverrunHitsGuard` | dune/common/debug_allocator.hh:110-114 | every byte of a live payload lies on a readable and writable page, and the first byte past it lies on an inaccessible page |
| `DebugAllocator.BlockStartsUnique` | dune/common/debug_allocator.hh:105-116 | two different records never start at the same address |
| `DebugAllocator.OwnBlockFound` | dune/common/debug_allocator.hh:129-134 | looking up a record's own block address finds that record and no other |
| `DebugAllocator.AsWrittenLookup` | dune/common/debug_allocator.hh:125-134 | the lookup as written, applied to a pointer `allocate` returned, finds its record exactly when the byte count is not a multiple of the page size, and finds nothing otherwise |
| `DebugAllocator.CorrectedLookup` | dune/common/debug_allocator.hh:125-134 | the corrected lookup finds the record for every pointer `allocate` returned |
| `DebugAllocator.RoundTrip` | dune/common/debug_allocator.hh:95-161 | deallocating a live block with its own pointer, type and count succeeds with the lookup as written exactly when the byte count is not a multiple of the page size, and always succeeds with the corrected lookup |
| `DebugAllocator.ZeroByteAllocationNotFound` | dune/common/debug_allocator.hh:125-161 | one zero-byte object on 4096-byte pages: the lookup as written reports "memory block not found", the corrected lookup releases it |
| `DebugAllocator.SecondReleaseFatal` | dune/common/debug_allocator.hh:140-161 | releasing a block a second time is fatal, whether its record was kept and marked free or was erased |
| `DebugAllocator.LookupAfterRelease` | dune/common/debug_allocator.hh:143-156 | after release the lookup finds the same record marked free in keep mode, and nothing once the record was erased |
| `DebugAllocator.AllocatePreserves` | dune/common/debug_allocator.hh:95-119 | adding a record for a fresh block and protecting its guard page keeps the manager's invariant: records are placed correctly, own reserved and pairwise disjoint pages, and live payloads are accessible with their guard page protected |
| `DebugAllocator.OutsideUnchanged` | dune/common/debug_allocator.hh:112-114 | protecting one block's guard page changes no page of a disjoint block |
| `DebugAllocator.ReprotectOthers` | dune/common/debug_allocator.hh:144-153 | re-protecting one record's pages leaves every other record protected as before |
| `DebugAllocator.ReleaseKeptPreserves` | dune/common/debug_allocator.hh:143-148 | in keep mode, marking the record free and making its whole block inaccessible keeps the manager's invariant |
| `DebugAllocator.ReleaseFreedPreserves` | dune/common/debug_allocator.hh:149-156 | otherwise, unprotecting the block, returning its pages and erasing the record keeps the manager's invariant |
| `DebugAllocator.AllocationManager.constructor` | dune/common/debug_allocator.hh:19-51 | the manager starts with no records, no protected pages and no reserved pages, which satisfies its invariant |
| `DebugAllocator.AllocationManager.Allocate` | dune/common/debug_allocator.hh:95-119 | a null block throws `bad_alloc` and changes nothing; otherwise the record is appended, the block reserved, its last page protected, the payload pointer returned, and the invariant kept |
| `DebugAllocator.AllocationManager.Find` | dune/common/debug_allocator.hh:129-134 | the loop stops at the first record whose block starts at the address, or at the end |
| `DebugAllocator.AllocationManager.Release` | dune/common/debug_allocator.hh:136-158 | a failed check is fatal and changes nothing; otherwise the record is marked free and protected (keep mode) or unprotected, returned and erased, and the invariant is kept |
| `DebugAllocator.AllocationManager.Deallocate` | dune/common/debug_allocator.hh:121-162 | as written: looks the block up by rounding the pointer down to its page; a missing block is fatal ("memory block not found"), a found one is checked and released |
| `DebugAllocator.AllocationManager.DeallocateCorrected` | dune/common/debug_allocator.hh:121-162 | the same with the lookup that rounds down the byte before the pointer |
| `DebugAllocator.AllocationManager.Destroy` | dune/common/debug_allocator.hh:77-93 | every block is returned, and the outcome is "lost allocations" exactly when some record is still in use |
| `DebugAllocator.AllocateThenDeallocate` | dune/common/debug_allocator.hh:95-162 | allocation immediately followed by deallocation of the same pointer succeeds exactly when the byte count is not a multiple of the page size |
| `DebugAllocator.DebugAllocatorOf.constructor` | dune/common/debug_allocator.hh:200-206 | the allocator holds no state beyond its element type and the manager it forwards to |
| `DebugAllocator.DebugAllocatorOf.Allocate` | dune/common/debug_allocator.hh:217-222 | forwards to the manager for its element type, ignoring the hint: a null block gives `bad_alloc` and leaves the manager untouched; otherwise the result is the payload pointer of the record appended to the list, whose pages become reserved, its guard page inaccessible and its other pages readable and writable |
| `DebugAllocator.DebugAllocatorOf.Deallocate` | dune/common/debug_allocator.hh:224-228 | forwards to the manager's `deallocate<T>` as written, with its element type: the record is looked up by `p` rounded down to its page; a failed lookup or check is fatal and changes nothing, and a passed one drops the record and its pages, or in keep mode marks it freed and makes its pages inaccessible |
| `DebugAllocator.DebugAllocatorOf.DeallocateCorrected` | dune/common/debug_allocator.hh:224-228 | the same forwarding to the corrected lookup, which rounds `p - 1` down and so finds every block `allocate` handed out |
| `DebugAllocator.DebugAllocatorOf.MaxSize` | dune/common/debug_allocator.hh:230-234 | the largest count whose byte size fits in `size_t`: no count up to it wraps around |
| `DenseVectors.EntriesSize` | dune/common/tuples/densevector.hh:275-281 | the number of entries of the whole vector is the sum of the block sizes |
| `DenseVectors.EntryInBlock` | dune/common/tuples/densevector.hh:160-176 | entry `i` of the whole vector is entry `i - offset` of the block that covers `i`, `offset` being the size of the blocks before it |
| `DenseVectors.ZipBlocks` | dune/common/tuples/densevector.hh:289-305 | a blockwise operation keeps every block's size and combines each entry with the matching entry of the other vector |
| `DenseVectors.ZipEntries` | dune/common/tuples/densevector.hh:289-305 | an operation applied block by block is the same operation applied entry by entry to the whole vector |
| `DenseVectors.FillEntries` | dune/common/tuples/densevector.hh:115-130 | after scalar assignment every entry of the whole vector is `alpha`, and the size is unchanged |
| `DenseVectors.AxpyEntries` | dune/common/tuples/densevector.hh:289-296 | blockwise `axpy` adds `alpha` times entry `i` of the other vector to entry `i`, for every entry of the whole vector |
| `DenseVectors.ScaleEntries` | dune/common/tuples/densevector.hh:298-305 | blockwise scaling multiplies every entry of the whole vector by `alpha` |
| `DenseVectors.AddThenSubtract` | dune/common/tuples/densevector.hh:308-322 | `x += y` followed by `x -= y` gives back `x` |
| `DenseVectors.Visit` | dune/common/tuples/densevector.hh:138-158 | the visitor replaces each entry by exactly one new entry, so the entries keep their number |
| `DenseVectors.VisitAppend` | dune/common/tuples/densevector.hh:138-158 | visiting two runs of entries one after the other is visiting them in turn: the second run starts from the state and the flat index the first one reached |
| `DenseVectors.VisitEach` | dune/common/tuples/densevector.hh:138-158 | the as-written visit keeps the shape of the blocks: each block is visited by a fresh copy of the visitor, while the flat index runs on across blocks |
| `DenseVectors.VisitRecordsEntries` | dune/common/tuples/densevector.hh:138-158 | a visitor whose state is threaded through all entries is handed every entry exactly once, in block-major order, with consecutive flat indices from 0 |
| `DenseVectors.VisitAssigns` | dune/common/tuples/densevector.hh:196-202 | a visitor that stores value `i` into entry `i` of a run of entries makes them equal to those values |
| `DenseVectors.StatelessCopiesAgree` | dune/common/tuples/densevector.hh:138-158 | for a visitor that keeps no state, visiting each block with its own copy writes the same entries as one visitor over the whole vector |
| `DenseVectors.AssignsAsWritten` | dune/common/tuples/densevector.hh:196-202 | even with one visitor copy per block, the visitor that stores value `i` into entry `i` makes the whole vector equal to those values |
| `DenseVectors.ForEachLosesState` | dune/common/tuples/densevector.hh:138-158 | with the blocks (5) and (7), a visitor that writes its running count writes (0) and (0) as written, while one visitor over both entries writes 0 and 1 and ends with count 2 |
| `DenseVectors.Print` | dune/common/tuples/densevector.hh:493-518 | `operator<<` runs `PrintFunctor` over the blocks, writing each block and a space after every block but the last; stated by `DenseVectors.PrintIsSpaceSeparated` |
| `DenseVectors.PrintIsSpaceSeparated` | dune/common/tuples/densevector.hh:498-518 | printing writes the blocks separated by single spaces, with none after the last: the tuple writer with delimiter `" "` |
| `DenseVectors.DenseVectorTuple.constructor` | dune/common/tuples/densevector.hh:454-465 | the facade wraps the given tuple of blocks |
| `DenseVectors.DenseVectorTuple.Size` | dune/common/tuples/densevector.hh:264-281 | the summing loop returns the number of entries of the whole vector |
| `DenseVectors.DenseVectorTuple.At` | dune/common/tuples/densevector.hh:160-176 | for `i` below the size, the search loop returns entry `i` of the whole vector |
| `DenseVectors.DenseVectorTuple.Blockwise` | dune/common/tuples/densevector.hh:128 | the loop over the blocks applies the operation to every block, with the other vector read before any block changes |
| `DenseVectors.DenseVectorTuple.AssignScalar` | dune/common/tuples/densevector.hh:115-130 | `operator=(alpha)` sets every block to `alpha` |
| `DenseVectors.DenseVectorTuple.AxpyFrom` | dune/common/tuples/densevector.hh:367-373 | `axpy(alpha, other)` becomes `x + alpha * other`, block by block, also when `other` is the vector itself |
| `DenseVectors.DenseVectorTuple.AddAssign` | dune/common/tuples/densevector.hh:308-314 | `x += y` is `axpy(1, y)` |
| `DenseVectors.DenseVectorTuple.SubtractAssign` | dune/common/tuples/densevector.hh:316-322 | `x -= y` is `axpy(-1, y)` |
| `DenseVectors.DenseVectorTuple.AddScalar` | dune/common/tuples/densevector.hh:340-345 | `x += alpha` adds a vector of the same shape filled with `alpha` |
| `DenseVectors.DenseVectorTuple.SubtractScalar` | dune/common/tuples/densevector.hh:347-352 | `x -= alpha` subtracts a vector of the same shape filled with `alpha` |
| `DenseVectors.DenseVectorTuple.ScaleBy` | dune/common/tuples/densevector.hh:354-359 | `x *= alpha` scales every block |
| `DenseVectors.DenseVectorTuple.ForEach` | dune/common/tuples/densevector.hh:138-202 | as written: the nested loops visit each block with a fresh copy of the visitor and the running flat index, so the vector becomes the as-written visit of the old blocks, and the visitor returned is the one passed in, untouched |
| `DenseVectors.DenseVectorTuple.ForEachCorrected` | dune/common/tuples/densevector.hh:186-202 | `std::for_each` semantics: one visitor is threaded through every entry in block-major order; the new entries and the returned visitor are those of that visit, and the shape is kept |
| `FieldVectorTuples.TypeEvaluator` | dune/common/tuples/fvector.hh:29-33 | `TypeEvaluator<T>::Type` is a field vector of length `T::value`; `FieldVectorTuples.RawTuple` states the raw tuple it produces |
| `FieldVectorTuples.RawTuple` | dune/common/tuples/fvector.hh:29-39 | the raw tuple has one element per dimension, element `i` being a field vector of length `Dimensions[i]` |
| `FieldVectorTuples.TupleSize` | dune/common/tuples/fvector.hh:157-161 | `tuple_size` is the number of dimensions |
| `FieldVectorTuples.FieldTypeTuple` | dune/common/tuples/fvector.hh:46 | `field_type_tuple` holds the field type once per element of the raw tuple |
| `FieldVectorTuples.Accumulate` | dune/common/tuples/fvector.hh:71-85 | `Accumulate<Dimensions, init, length>::value`: adds dimension `length-1` to `init` and recurses on `length-1`, `init` for length 0; its meaning is stated by `FieldVectorTuples.AccumulateIsSum` |
| `FieldVectorTuples.Dimension` | dune/common/tuples/fvector.hh:87-93 | `Dimension::value` is `Accumulate<Dimensions>::value`; its meaning is stated by `FieldVectorTuples.DimensionIsSum` |
| `FieldVectorTuples.AccumulateIsSum` | dune/common/tuples/fvector.hh:71-84 | `Accumulate<Dimensions, init, length>` is `init` plus the sum of the first `length` dimensions |
| `FieldVectorTuples.DimensionIsSum` | dune/common/tuples/fvector.hh:87-93 | the overall dimension is the sum of all dimensions, and 0 for no dimensions |
| `FieldVectorTuples.SizeIsDimension` | dune/common/tuples/fvector.hh:87-93 | for blocks of the given dimensions, `size()` of the dense vector tuple equals `Dimension::value` |
| `FieldVectorTuples.ShapeSize` | dune/common/tuples/fvector.hh:87-93 | blocks of the given dimensions hold as many entries as the dimensions add up to |
| `FieldVectorTuples.Zeros` | dune/common/tuples/fvector.hh:97 | a value with one block of each given dimension |
| `FieldVectorTuples.New` | dune/common/tuples/fvector.hh:97 | the default constructor gives blocks of the given dimensions |
| `FieldVectorTuples.NewFilled` | dune/common/tuples/fvector.hh:99-102 | constructing from `alpha` gives blocks of the given dimensions with every entry `alpha` |
| `FieldVectorTuples.DimensionExample` | dune/common/tuples/fvector.hh:87-93 | dimensions 1, 2, 3 give an overall dimension of 6 and 6 entries |
| `EnumerationTuples.Create` | dune/common/tuples/enumeration.hh:42-52 | the recursion of `EnumerationTuple`, which appends `m` and recurses on `m + 1` until `n`; its result is stated by `EnumerationTuples.CreateAppends` |
| `EnumerationTuples.Enumeration` | dune/common/tuples/enumeration.hh:33-55 | `EnumerationTuple<T, length, init>`; its elements are stated by `EnumerationTuples.EnumerationElements` |
| `EnumerationTuples.CreateAppends` | dune/common/tuples/enumeration.hh:42-52 | `Create<n, m, Args...>` keeps `Args` and appends the constants `m` up to `n - 1`, in order |
| `EnumerationTuples.EnumerationElements` | dune/common/tuples/enumeration.hh:33-55 | the enumeration has `max(length, 0)` elements and element `k` is `init + k` |
| `EnumerationTuples.EmptyEnumeration` | dune/common/tuples/enumeration.hh:30-31 | a length of 0 or less gives the empty tuple |
| `EnumerationTuples.EnumerationExample` | dune/common/tuples/enumeration.hh:22-28 | `EnumerationTuple<int, 3, 1>` is (1, 2, 3) |
| `FirstIndex.FirstPredicateIndex` | dune/common/tuples/firstindex.hh:46-66 | the result is the first position from `start` on whose element the predicate accepts; there is none (a compile-time error) exactly when the predicate rejects every element from `start` on |
| `FirstIndex.FirstTypeIndex` | dune/common/tuples/firstindex.hh:97-100 | `FirstTypeIndex` is `FirstPredicateIndex` with the predicate `IsType<T>`; its meaning is stated by `FirstIndex.FirstTypeIndexFinds` |
| `FirstIndex.FirstTypeIndexFinds` | dune/common/tuples/firstindex.hh:70-100 | `FirstTypeIndex` exists exactly when the type occurs from `start` on, and is then its first occurrence there |
| `FirstIndex.FirstTypeIndexTupleFrom` | dune/common/tuples/firstindex.hh:111-140 | the recursion keeps the seed and pushes, for each remaining type of the sub-tuple, its first position; it fails exactly when one of those types is missing |
| `FirstIndex.FirstTypeIndexTuple` | dune/common/tuples/firstindex.hh:104-140 | the seed-accumulating recursion over the sub-tuple, starting from the empty seed at index 0; its meaning is stated by `FirstIndex.FirstTypeIndexTupleSpec` |
| `FirstIndex.FirstTypeIndexTupleSpec` | dune/common/tuples/firstindex.hh:111-140 | the index tuple exists exactly when every type of the sub-tuple occurs, and entry `k` is the first position of sub-tuple type `k` |
| `FirstIndex.RecoverPositions` | dune/common/tuples/firstindex.hh:111-140 | for a tuple of distinct types, the index tuple of a sub-tuple gives back the positions that selected it |
| `FirstIndex.RecoverPositionsExample` | dune/common/tuples/firstindex.hh:111-140 | in (1, 2, 3, 4) the sub-tuple selected by (2, 1) is found at (2, 1) |
| `ForEach.ForEachType` | dune/common/tuples/foreach.hh:39-129 | for tuples of up to nine elements, the result has one element per element, each the evaluator applied to it |
| `ForEach.Threaded` | dune/common/tuples/foreach.hh:147-162 | the functor's final state and the tuple's new elements after visiting the elements in ascending order; it keeps the length, and `ForEach.ThreadedWrites` and `ForEach.ThreadedState` state what it holds |
| `ForEach.ThreadedSnoc` | dune/common/tuples/foreach.hh:147-152 | visiting one more element applies the functor once more, in the state reached so far, and appends what it writes back |
| `ForEach.ThreadedState` | dune/common/tuples/foreach.hh:147-162 | the functor's final state is the left fold of its state rule over the original elements |
| `ForEach.ThreadedWrites` | dune/common/tuples/foreach.hh:147-152 | element `k` ends up holding what the functor writes through its reference when it visits the original element `k`, in the state reached after elements `0` to `k-1` |
| `ForEach.ThreadedReadOnly` | dune/common/tuples/foreach.hh:199-211 | a functor that writes nothing through the reference, such as the documented `Counter`, leaves the tuple as it was |
| `ForEach.ForEachValue` | dune/common/tuples/foreach.hh:147-162 | the `Visitor` loop hands each element, by reference, to the functor (which is also held by reference) in ascending order; it returns the functor's final state and the tuple with every element the functor wrote |
| `ForEach.Record` | dune/common/tuples/foreach.hh:188-197 | a functor that appends each element it visits to its log and writes the element back unchanged; stated by `ForEach.FoldRecord` |
| `ForEach.Count` | dune/common/tuples/foreach.hh:199-211 | the documented `Counter` functor, adding one per element visited and writing nothing; stated by `ForEach.FoldCount` |
| `ForEach.Number` | dune/common/tuples/foreach.hh:205-207 | a functor that uses its `T& elem` to write the number of elements visited before; stated by `ForEach.FoldNumber` |
| `ForEach.FoldRecord` | dune/common/tuples/foreach.hh:188-197 | a recording functor ends with the elements appended in order, and the tuple is unchanged |
| `ForEach.FoldCount` | dune/common/tuples/foreach.hh:199-221 | the documented counting functor ends with the number of elements, and the tuple is unchanged |
| `ForEach.FoldNumber` | dune/common/tuples/foreach.hh:147-152 | the numbering functor leaves element `k` equal to its start value plus `k` |
| `ForEach.VisitOrder` | dune/common/tuples/foreach.hh:223-238 | every element is visited exactly once, in ascending order, and the count equals the size |
| `ForEach.VisitWrites` | dune/common/tuples/foreach.hh:147-152 | the writes a functor makes through the element reference reach the tuple: numbering from 0 leaves element `k` equal to `k` |
| `ForEach.Zip` | dune/common/tuples/foreach.hh:164-179 | pair `k` holds element `k` of each tuple |
| `ForEach.ForEachValuePair` | dune/common/tuples/foreach.hh:164-179 | the `PairVisitor` loop hands over element `size1 - i` of the first tuple with element `size2 - i` of the second, both by reference: the pairs are aligned from the back, the second tuple must be at least as long, and both tuples come back with what the functor wrote into each visited pair; a longer second tuple's leading elements are untouched |
| `ForEach.PairVisitOrder` | dune/common/tuples/foreach.hh:262-283 | for tuples of equal length the functor sees `(t1[k], t2[k])` for ascending `k`, each once, and a functor that writes nothing leaves both tuples as they were |
| `ForEach.ForEachElement` | dune/common/tuples/foreach.hh:295-325 | the operation is applied once per element of the enumeration |
| `ForEach.ForEachElementSuffixes` | dune/common/tuples/foreach.hh:295-362 | application `k` sees the enumeration from element `k` on; an empty enumeration applies nothing |
| `IndexTuples.TupleSize` | dune/common/tuples/indextuple.hh:87-91 | `tuple_size` of `IndexTuple<length, init>`: `length`, or 0 for a negative length; tied to the enumeration by `IndexTuples.AgreesWithEnumeration` |
| `IndexTuples.TupleElement` | dune/common/tuples/indextuple.hh:76-80 | `tuple_element<i>` of `IndexTuple<length, init>`: the constant `init + i`; tied to the enumeration by `IndexTuples.AgreesWithEnumeration` |
| `IndexTuples.AgreesWithEnumeration` | dune/common/tuples/indextuple.hh:76-91 | the `tuple_size` and `tuple_element` of `IndexTuple<length, init>` describe exactly `EnumerationTuple<int, length, init>`: `max(length, 0)` elements, element `i` being `init + i` |
| `IndexTuples.IndexTupleExample` | dune/common/tuples/indextuple.hh:22-28 | `IndexTuple<3, 1>` enumerates 1, 2, 3 |
| `InstantiateTuple.Append` | dune/common/tuples/instantiate.hh:47-67 | `append` keeps the seed and appends, for each remaining element type in order, that type constructed from the key |
| `InstantiateTuple.Apply` | dune/common/tuples/instantiate.hh:38-68 | `apply(key)`: appends each element constructed from the key to the seed, and returns the empty tuple for no elements; stated by `InstantiateTuple.ApplyConstructsEach` |
| `InstantiateTuple.ApplyConstructsEach` | dune/common/tuples/instantiate.hh:38-42 | the result has one element per element type, element `i` constructed from the key; the empty tuple ignores the key |
| `InstantiateTuple.ApplyPushBack` | dune/common/tuples/instantiate.hh:47-56 | instantiating a tuple with one more element type appends one element constructed from the key and keeps the others |
| `IntegralConstantTuples.Variadic` | dune/common/tuples/integralconstant.hh:39-54 | the variadic specialisation, pushing each value to the front of the tuple of the rest; stated by `IntegralConstantTuples.VariadicKeepsValues` |
| `IntegralConstantTuples.VariadicKeepsValues` | dune/common/tuples/integralconstant.hh:39-54 | the variadic form holds the given values, one element each, in order |
| `IntegralConstantTuples.DropTrailing` | dune/common/tuples/integralconstant.hh:99-112 | the result is the longest prefix of the slots that does not end in the sentinel: every slot after it holds the sentinel |
| `IntegralConstantTuples.DropFirst` | dune/common/tuples/integralconstant.hh:99-106 | unless every slot holds the sentinel, dropping the first slot drops the first element of the meaningful prefix |
| `IntegralConstantTuples.ShiftShortens` | dune/common/tuples/integralconstant.hh:105 | shifting the slots left and refilling the last with the sentinel shortens the meaningful prefix by one element |
| `IntegralConstantTuples.Create` | dune/common/tuples/integralconstant.hh:99-112 | the fallback `Create` appends to the seed the slots up to the last one that does not hold the sentinel |
| `IntegralConstantTuples.Padding` | dune/common/tuples/integralconstant.hh:87-94 | the omitted template arguments default to the sentinel |
| `IntegralConstantTuples.Fallback` | dune/common/tuples/integralconstant.hh:61-115 | the fallback form: the values padded with the sentinel to nine slots and handed to `Create`; stated by `IntegralConstantTuples.FallbackDropsTrailingSentinels` |
| `IntegralConstantTuples.FallbackDropsTrailingSentinels` | dune/common/tuples/integralconstant.hh:61-115 | the fallback form holds the given values with every trailing sentinel dropped, and agrees with the variadic form when the last given value is not the sentinel |
| `IntegralConstantTuples.DropPadding` | dune/common/tuples/integralconstant.hh:87-94 | padding with sentinels does not change the meaningful prefix |
| `IntegralConstantTuples.TrailingSentinelLost` | dune/common/tuples/integralconstant.hh:64-68 | the fallback `IntegralConstantTuple<int, 1, INT_MIN>` has one element while the variadic form has two |
| `TupleModifiers.Gather` | dune/common/tuples/modifiers.hh:55-59 | `get<I::value>(tuple)...` yields element `indices[k]` at position `k` |
| `TupleModifiers.GatherAll` | dune/common/tuples/modifiers.hh:48-52 | gathering by the enumeration 0, …, size-1 gives back the tuple itself |
| `TupleModifiers.PushBack` | dune/common/tuples/modifiers.hh:42-76 | `tuple_push_back` gives the old elements followed by the new one |
| `TupleModifiers.PushFront` | dune/common/tuples/modifiers.hh:103-137 | `tuple_push_front` gives the new element followed by the old ones |
| `TupleModifiers.Append` | dune/common/tuples/subtuple.hh:39-77 | `append` keeps the seed and appends the elements at the remaining positions, in the order of the list |
| `TupleModifiers.SubTuple` | dune/common/tuples/subtuple.hh:64-112 | element `k` of the sub-tuple is the element at `Positions[k]`; an empty position list gives the empty tuple |
| `TupleModifiers.SubTupleExample` | dune/common/tuples/subtuple.hh:13-38 | positions (2, 1) pick (3, 2) out of (1, 2, 3, 4) |
| `TupleModifiers.PopPositions` | dune/common/tuples/modifiers.hh:149-187 | the enumeration of `size - 1` positions from 0 (resp. 1) selects all elements but the last (resp. the first) |
| `TupleModifiers.PopBack` | dune/common/tuples/modifiers.hh:149-169 | `PopBackTuple` and `tuple_pop_back` give all elements but the last; the empty tuple stays empty |
| `TupleModifiers.PopFront` | dune/common/tuples/modifiers.hh:180-187 | `PopFrontTuple` gives all elements but the first; the empty tuple stays empty |
| `TupleModifiers.TuplePopFrontAsWritten` | dune/common/tuples/modifiers.hh:195-200 | `tuple_pop_front` as written: the sub-tuple at the positions of `EnumerationTuple<int, N-1>`; its defect is stated by `TupleModifiers.PopFrontMismatch` |
| `TupleModifiers.PopFrontMismatch` | dune/common/tuples/modifiers.hh:195-200 | `tuple_pop_front` as written removes the last element, like `tuple_pop_back`, and so differs from its declared result `PopFrontTuple` whenever the first two elements differ |
| `TupleModifiers.PopFrontCounterexample` | dune/common/tuples/modifiers.hh:195-200 | `tuple_pop_front((1, 2))` as written gives (1) where (2) is meant |
| `TupleModifiers.Reduce` | dune/common/tuples/modifiers.hh:218-238 | `ReduceTuple<F, Tuple, Seed, N>`: `F` of the reduction over the first `N - 1` elements and element `N - 1`, and the seed for `N == 0`; stated by `TupleModifiers.ReduceIsFoldLeft` |
| `TupleModifiers.ReduceIsFoldLeft` | dune/common/tuples/modifiers.hh:218-238 | `ReduceTuple` over the first `N` elements is the left fold of `F` over them, starting from the seed |
| `TupleModifiers.FoldLeftSnoc` | dune/common/tuples/modifiers.hh:223-229 | folding over one more element applies `F` once more to the accumulated result |
| `TupleModifiers.ReducePushBack` | dune/common/tuples/modifiers.hh:254-259 | reducing with `PushBackTuple` appends the first `n` elements of the tail to the head |
| `TupleModifiers.Join` | dune/common/tuples/modifiers.hh:254-259 | `JoinTuples` as the reduction of `Tail` with `PushBackTuple` from `Head`; stated by `TupleModifiers.JoinIsConcatenation` |
| `TupleModifiers.JoinIsConcatenation` | dune/common/tuples/modifiers.hh:254-259 | `JoinTuples<Head, Tail>` is `Head` followed by `Tail` |
| `TupleModifiers.ConcatSnoc` | dune/common/tuples/modifiers.hh:273-278 | concatenating one more inner tuple appends its elements |
| `TupleModifiers.ReduceJoin` | dune/common/tuples/modifiers.hh:273-278 | reducing with `JoinTuples` over the first `n` inner tuples concatenates them in order |
| `TupleModifiers.Flatten` | dune/common/tuples/modifiers.hh:273-278 | `FlattenTuple` as the reduction of the inner tuples with `JoinTuples` from the empty tuple; stated by `TupleModifiers.FlattenIsConcatenation` |
| `TupleModifiers.FlattenIsConcatenation` | dune/common/tuples/modifiers.hh:273-278 | `FlattenTuple` concatenates the inner tuples in order; the empty tuple flattens to the empty tuple |
| `PointerTuples.NullPointerInitialiser` | dune/common/tuples/pointer.hh:49-148 | for tuples of up to nine pointers, one pointer per element, every one null |
| `PointerTuples.ValidPointerTupleCheck` | dune/common/tuples/pointer.hh:200-229 | the and-ing visitor answers `true` exactly when no pointer is null |
| `PointerTuples.DereferenceFrom` | dune/common/tuples/pointer.hh:285-322 | `append` keeps the seed and appends, for each remaining pointer in order, the object it points to |
| `PointerTuples.DereferenceTuple` | dune/common/tuples/pointer.hh:266-322 | `DereferenceTuple::apply`, pushing the object of each pointer onto the seed in order; stated by `PointerTuples.DereferenceElements` |
| `PointerTuples.DereferenceElements` | dune/common/tuples/pointer.hh:266-322 | the dereferenced tuple has one element per pointer, element `i` being the object pointer `i` points to |
| `PointerTuples.PointTo` | dune/common/tuples/pointer.hh:266-283 | pointer `i` points to address `i` of the list |
| `PointerTuples.CheckVerdicts` | dune/common/tuples/pointer.hh:200-298 | a null-initialised tuple of at least one pointer is invalid, the empty tuple is valid, and a tuple of pointers to existing objects is valid and dereferences to them |
| `Transform.GenericTransformTuple` | dune/common/tuples/transform.hh:53-148 | the result has one element per element, element `i` being the functor applied to element `i` |
| `Transform.GenericTransformMatchesForEachType` | dune/common/tuples/transform.hh:53-58 | the transformed tuple has exactly the type `ForEachType` of the functor's type evaluator computes |
| `Transform.TransformTupleFunctor` | dune/common/tuples/transform.hh:193-226 | the functor that calls `TE::apply` on its argument with the stored extra arguments |
| `Transform.TransformTuple` | dune/common/tuples/transform.hh:651-660 | `transformTuple`: `genericTransformTuple` with that functor; stated by `Transform.TransformTupleElements` |
| `Transform.TransformTupleElements` | dune/common/tuples/transform.hh:190-226 | `transformTuple` keeps the length and element `i` is `TE::apply` of element `i` with the extra arguments in order |
| `Transform.TransformComposes` | dune/common/tuples/transform.hh:117-148 | transforming twice is transforming once with the composed functor |
| `TypeIndexedTuples.TypeIndexedTuple.constructor` | dune/common/tuples/typeindexed.hh:36-38 | the object wraps the given tuple under the given type list |
| `TypeIndexedTuples.TypeIndexedTuple.Position` | dune/common/tuples/typeindexed.hh:23-27 | `Position<T>::value` is `FirstTypeIndex<Types, T>::value`; `At` proves that this is the first position of `T` |
| `TypeIndexedTuples.TypeIndexedTuple.At` | dune/common/tuples/typeindexed.hh:23-66 | `at<T>()` is the entry at the first position of `T` in `Types` |
| `TypeIndexedTuples.TypeIndexedTuple.SetAt` | dune/common/tuples/typeindexed.hh:41-45 | writing through `at<T>()` changes the entry of `T` only; the entry of every type at another position keeps its value |
| `TypeIndexedTuples.TypeIndexedTuple.DistinctTypesDistinctEntries` | dune/common/tuples/typeindexed.hh:23-27 | with distinct types in `Types`, two different types address different entries |
| `TypeIndexedTuples.TypeIndexedTuple.AtIsGet` | dune/common/tuples/typeindexed.hh:41-112 | `at<T>()` is `get<i>` at the position of `T`, and `Types[i]` is `T` |
| `TypeIndexedTuples.TypeIndexedTuple.Get` | dune/common/tuples/typeindexed.hh:100-112 | `get<i>` forwards to element `i` of the wrapped tuple; related to `at` by `TypeIndexedTuples.TypeIndexedTuple.AtIsGet` |
| `TypeIndexedTuples.TypeIndexedTuple.Size` | dune/common/tuples/typeindexed.hh:116-123 | `tuple_size` is the size of the wrapped tuple |
| `UniquePointerTuples.Owned` | dune/common/tuples/unique_ptr.hh:30-37 | the objects a tuple owns are exactly the targets of its non-null slots, in slot order |
| `UniquePointerTuples.OwnedSnoc` | dune/common/tuples/unique_ptr.hh:30-37 | one more slot adds its object, if any, at the end |
| `UniquePointerTuples.OwnedAllNull` | dune/common/tuples/unique_ptr.hh:56-57 | a tuple of null slots owns nothing |
| `UniquePointerTuples.UniquePointerTuple.constructor` | dune/common/tuples/unique_ptr.hh:56-57 | the empty constructor leaves every slot null and deletes nothing |
| `UniquePointerTuples.UniquePointerTuple.FromPointers` | dune/common/tuples/unique_ptr.hh:59-68 | construction from pointers makes the tuple own exactly those pointers and deletes nothing |
| `UniquePointerTuples.UniquePointerTuple.Moved` | dune/common/tuples/unique_ptr.hh:70-73 | the move constructor takes over every slot and leaves the source's slots null, deleting nothing |
| `UniquePointerTuples.UniquePointerTuple.Get` | dune/common/tuples/unique_ptr.hh:99-100 | `get()` returns the current pointers |
| `UniquePointerTuples.UniquePointerTuple.IsValid` | dune/common/tuples/unique_ptr.hh:114-118 | `operator bool` is `true` exactly when no slot is null |
| `UniquePointerTuples.UniquePointerTuple.Release` | dune/common/tuples/unique_ptr.hh:120-121 | `release()` returns every pointer and leaves every slot null without deleting anything |
| `UniquePointerTuples.UniquePointerTuple.Reset` | dune/common/tuples/unique_ptr.hh:123-129 | `reset(pointers)` makes the slots the given pointers and deletes every object the tuple owned before, in slot order |
| `UniquePointerTuples.UniquePointerTuple.ResetAll` | dune/common/tuples/unique_ptr.hh:131-137 | `reset()` leaves every slot null and deletes every object the tuple owned, in slot order |
| `UniquePointerTuples.UniquePointerTuple.Swap` | dune/common/tuples/unique_ptr.hh:139-185 | `swap` exchanges the slots of both tuples and deletes nothing |
| `UniquePointerTuples.UniquePointerTuple.MoveAssign` | dune/common/tuples/unique_ptr.hh:80-85 | move assignment takes over the other tuple's slots, leaves them null and deletes the objects this tuple owned |
| `UniquePointerTuples.SwapTwice` | dune/common/tuples/unique_ptr.hh:139-140 | swapping twice restores both tuples |
| `UniquePointerTuples.Lifecycle` | dune/common/tuples/unique_ptr.hh:56-137 | a tuple of at least one slot is invalid after default construction, valid after reset to non-null pointers, and invalid again after `reset()` |
| `Streams.SkipSpace` | dune/common/tuples/iostream.hh:33-34 | the stream skips exactly the whitespace before the next character it reads |
| `Streams.DigitsEnd` | dune/common/tuples/iostream.hh:38 | integer extraction consumes exactly the maximal run of digits |
| `Streams.ExtractChar` | dune/common/tuples/iostream.hh:31-37 | `is >> c` yields a character exactly when the stream is good and a non-space remains; it then yields that character and stays good, and otherwise sets failbit |
| `Streams.ExtractInt` | dune/common/tuples/iostream.hh:38 | `is >> n` on a stream that is not good sets failbit and stores nothing; a successful extraction advances the stream |
| `Streams.ShowNat` | dune/common/tuples/iostream.hh:24 | a natural number is written as a non-empty string of decimal digits |
| `Streams.ShowInt` | dune/common/tuples/iostream.hh:24 | an integer is written as a non-empty string that does not start with whitespace |
| `Streams.ShowNatValue` | dune/common/tuples/iostream.hh:24 | the written digits of a natural number read back as that number |
| `Streams.ExtractShownInt` | dune/common/tuples/iostream.hh:38 | extracting a written integer that follows whitespace and is followed by the end or a non-digit yields exactly that integer, stops right after it and leaves the stream good |
| `TupleIO.Put` | dune/common/tuples/iostream.hh:18-65 | `tuple_writer<i>::put`: the first `i - 1` elements, the delimiter, then element `i - 1`, with one element and none as the base cases; stated by `TupleIO.PutIsJoin` |
| `TupleIO.WriteTuple` | dune/common/tuples/iostream.hh:77-93 | `write_tuple` and `operator<<`: `put` with the default delimiter ", "; shown on an example by `TupleIO.WriteTupleExample` |
| `TupleIO.PutIsJoin` | dune/common/tuples/iostream.hh:18-65 | `put` writes the first element and then the delimiter before each further element; the empty tuple writes nothing |
| `TupleIO.WriteTupleExample` | dune/common/tuples/iostream.hh:77-93 | `write_tuple` of (1, 23) is "1, 23" with the default delimiter |
| `TupleIO.MatchDelimiter` | dune/common/tuples/iostream.hh:31-37 | the delimiter loop never changes a failed stream and reads from the same text |
| `TupleIO.ReadElement` | dune/common/tuples/iostream.hh:38 | reading an element changes at most that element, and nothing once the stream has failed |
| `TupleIO.Get` | dune/common/tuples/iostream.hh:28-71 | the reader keeps the tuple's length and reads from the same text |
| `TupleIO.ReadDelimiter` | dune/common/tuples/iostream.hh:31-37 | the `for` loop over the delimiter characters computes the delimiter match |
| `TupleIO.ReadTuple` | dune/common/tuples/iostream.hh:97-105 | `read_tuple` as written: the element loop computes the recursive reader with the given delimiter |
| `TupleIO.StripSpaces` | dune/common/tuples/iostream.hh:31-36 | the stripped delimiter holds no whitespace, and a delimiter without whitespace is kept as it is |
| `TupleIO.ReadTupleCorrected` | dune/common/tuples/iostream.hh:97-105 | `read_tuple` with the delimiter's whitespace removed before matching |
| `TupleIO.MatchStripped` | dune/common/tuples/iostream.hh:31-37 | matching the stripped delimiter against a written delimiter keeps the stream good and stops no later than the delimiter's end, with only whitespace between |
| `TupleIO.PutPrefix` | dune/common/tuples/iostream.hh:22-25 | the first `n` written elements are a prefix of the written tuple, followed by the delimiter and element `n` when more remain |
| `TupleIO.ReadNext` | dune/common/tuples/iostream.hh:30-38 | one reading step consumes the stripped delimiter and the next written integer and yields that integer |
| `TupleIO.ReadWrittenPrefix` | dune/common/tuples/iostream.hh:28-55 | reading the first `n` elements of a written tuple stores exactly those elements and leaves the stream good right after the `n`-th |
| `TupleIO.ReadWritten` | dune/common/tuples/iostream.hh:77-105 | reading back a written tuple with the delimiter stripped of whitespace restores every element and sets no failbit, for any delimiter that does not start with a digit |
| `TupleIO.ReadWrittenWithoutSpaces` | dune/common/tuples/iostream.hh:77-105 | with a delimiter free of whitespace, `read_tuple` as written reads back what `write_tuple` wrote |
| `TupleIO.GetKeepsFailure` | dune/common/tuples/iostream.hh:30-38 | once reading the first two elements has set failbit, reading more elements keeps it set |
| `TupleIO.DefaultDelimiterFails` | dune/common/tuples/iostream.hh:97-113 | with the default delimiter ", ", `read_tuple` sets failbit on every tuple of two or more elements that `write_tuple` wrote |
| `TupleIO.GetOneIgnoresDelimiter` | dune/common/tuples/iostream.hh:51-55 | a one-element tuple is read without matching any delimiter, so its result does not depend on the delimiter |
| `TupleIO.CommaSpaceFails` | dune/common/tuples/iostream.hh:31-37 | matching ", " before a word reads the comma, then skips the space and reads the word's first character instead, and sets failbit |
| `ParameterTrees.ExtractProgress` | dune/common/parametertree.hh:294-307 | an integer extraction that does not fail yields a value and advances the stream, so the vector parser's loop makes progress |
| `ParameterTrees.ExtractInBounds` | dune/common/parametertree.hh:294-307 | extraction keeps the stream position within its text |
| `ParameterTrees.EndCheck` | dune/common/parametertree.hh:243-248 | the extraction of a dummy value fails with eofbit set exactly when nothing but whitespace, possibly ending in a lone sign, is left |
| `ParameterTrees.ParseScalar` | dune/common/parametertree.hh:234-251 | every failure of the scalar parser is the `RangeError` "Cannot parse value" for the given string |
| `ParameterTrees.ScalarExactlyOne` | dune/common/parametertree.hh:234-251 | a scalar parses exactly when one integer is read and the check for a second value then fails at the end of the string, and the result is that integer |
| `ParameterTrees.ScalarRoundTrip` | dune/common/parametertree.hh:234-251 | a written integer surrounded by whitespace parses back to itself |
| `ParameterTrees.ScalarRejectsSecond` | dune/common/parametertree.hh:243-248 | two integers separated by a space are rejected as a scalar |
| `ParameterTrees.ScalarIgnoresTrailingSign` | dune/common/parametertree.hh:243-248 | an integer followed by a space and a lone "-" is accepted as that integer, because the failed extraction of the dummy also reaches the end |
| `ParameterTrees.LTrim` | dune/common/parametertree.hh:230 | `ltrim` drops exactly the leading whitespace: the result is a suffix, everything dropped is whitespace, and the result does not start with whitespace |
| `ParameterTrees.RTrim` | dune/common/parametertree.hh:231 | `rtrim` drops exactly the trailing whitespace: the result is a prefix, everything dropped is whitespace, and the result does not end with whitespace |
| `ParameterTrees.ParseString` | dune/common/parametertree.hh:256-264 | the string parser never fails and returns a string no longer than its input that neither starts nor ends with whitespace |
| `ParameterTrees.LTrimDrops` | dune/common/parametertree.hh:230 | `ltrim` of whitespace followed by a word that does not start with whitespace is that word |
| `ParameterTrees.RTrimDrops` | dune/common/parametertree.hh:231 | `rtrim` of a word that does not end with whitespace, followed by whitespace, is that word |
| `ParameterTrees.TrimmedWord` | dune/common/parametertree.hh:256-264 | a word surrounded by whitespace parses as a string to exactly that word |
| `ParameterTrees.TrimIdempotent` | dune/common/parametertree.hh:256-264 | parsing an already parsed string changes nothing |
| `ParameterTrees.ReadCount` | dune/common/parametertree.hh:272-277 | the element loop reads from the same text and, when it succeeds, yields exactly the requested number of entries and leaves the stream good |
| `ParameterTrees.FieldVectorOf` | dune/common/parametertree.hh:266-286 | a parsed field vector has exactly `n` entries, and every failure is the `RangeError` "Cannot parse value" for the given string |
| `ParameterTrees.ReadCountStaysFailed` | dune/common/parametertree.hh:272-277 | once reading `k` entries has failed, reading more entries fails too |
| `ParameterTrees.ReadEntries` | dune/common/parametertree.hh:270-277 | each entry of the vector is the next integer the stream yields, in order; when an extraction fails the loop stops, and reading that many integers from the text fails |
| `ParameterTrees.ParseFieldVector` | dune/common/parametertree.hh:266-286 | the `for` loop with its checks after each entry and after the dummy computes the field vector parse |
| `ParameterTrees.ReadsWrittenPrefix` | dune/common/parametertree.hh:272-277 | reading the first `k` of a list of space-separated written integers yields exactly those integers and stops right after the `k`-th |
| `ParameterTrees.ReadsAllWritten` | dune/common/parametertree.hh:272-277 | reading all the written integers yields them and leaves the stream at the end with eofbit set |
| `ParameterTrees.FieldVectorExactCount` | dune/common/parametertree.hh:266-286 | space-separated written integers parse as a field vector exactly when its length is their number, and then to those integers |
| `ParameterTrees.FieldVectorTooLong` | dune/common/parametertree.hh:278-283 | more written integers than the field vector's length are rejected |
| `ParameterTrees.ReadAll` | dune/common/parametertree.hh:294-307 | the vector loop only appends to what it has read, and every failure is the `RangeError` "Cannot parse value" for the given string |
| `ParameterTrees.VectorOf` | dune/common/parametertree.hh:288-310 | every failure of the vector parser is the `RangeError` "Cannot parse value" for the given string |
| `ParameterTrees.ParseVector` | dune/common/parametertree.hh:288-310 | the `while (true)` loop that appends until extraction fails computes the vector parse |
| `ParameterTrees.VectorOfBlank` | dune/common/parametertree.hh:297-300 | a string of whitespace parses as the empty vector, since the first extraction fails at the end |
| `ParameterTrees.ReadCountThenAll` | dune/common/parametertree.hh:272-277 | reading `k` entries and then the rest gives what reading everything gives |
| `ParameterTrees.VectorRoundTrip` | dune/common/parametertree.hh:288-310 | any list of written integers separated by spaces parses back as a vector to that list |
| `ParameterTrees.FieldVectorIsVector` | dune/common/parametertree.hh:266-310 | a string that parses as a field vector parses to the same entries as a vector |
| `ParameterTrees.ScalarIsSingleton` | dune/common/parametertree.hh:234-286 | a string parses as a scalar exactly when it parses as a field vector of length 1, and then to the same value; it then also parses as the one-element vector |
| `ParameterTrees.VectorIgnoresTrailingSign` | dune/common/parametertree.hh:297-300 | "1 2 -" parses as the vector [1, 2], because the failed extraction of the lone sign also reaches the end |
| `ParameterTrees.VectorRejectsWord` | dune/common/parametertree.hh:301-304 | "1 x" is rejected with the `RangeError` because the extraction fails before the end |
| `ParameterTrees.ParameterTree.constructor` | dune/common/parametertree.hh:225-228 | a new tree holds no values and no keys |
| `ParameterTrees.ParameterTree.HasKey` | dune/common/parametertree.hh:39-44 | `hasKey`: whether a value is stored under the whole key; both forms of `get` branch on it |
| `ParameterTrees.ParameterTree.Index` | dune/common/parametertree.hh:57-65 | `operator[]` returns the stored value; an absent key is created with the empty value and appended to the keys in order of appearance; nothing else changes |
| `ParameterTrees.ParameterTree.Assign` | dune/common/parametertree.hh:57-65 | assigning through `operator[]` stores the value under the key, and a new key is appended to the keys once |
| `ParameterTrees.ParameterTree.Get` | dune/common/parametertree.hh:190-203 | `get<T>` reports a missing key with a `RangeError`, replaces a parser's `RangeError` by one naming the key, passes other errors through and otherwise returns the parsed value |
| `ParameterTrees.ParameterTree.GetWithDefault` | dune/common/parametertree.hh:174-180 | `get(key, default)` returns the default exactly when the key is absent, and otherwise what `get<T>(key)` returns |
| `ParameterTrees.GetWritten` | dune/common/parametertree.hh:174-251 | a key holding a written integer reads back that integer as a scalar, with or without a default, and as a one-element vector |
| `ParameterTrees.GetFieldVectorWritten` | dune/common/parametertree.hh:190-203 | a key holding written integers reads back as a field vector exactly when its length matches, to those integers, and otherwise fails with a `RangeError` |
| `UGGrids.TablesAreInverse` | grid/uggrid/uggrid.cc:543-586 | each table of the first switch (DUNE to UG face numbers) and the matching table of the second switch at 659-691 (UG back to DUNE) undo each other in both directions, and the hexahedron table is its own inverse |
| `UGGrids.TableSizes` | grid/uggrid/uggrid.cc:543-575 | for every renumbered type and dimension, both tables have one entry per face and are inverse permutations |
| `UGGrids.FaceToUG` | grid/uggrid/uggrid.cc:543-586 | the first switch maps a face of a cube or simplex to a valid UG face, passes vertex, prism and pyramid faces through unchanged and raises `NotImplemented` for any other type |
| `UGGrids.FaceFromUG` | grid/uggrid/uggrid.cc:659-691 | the second switch maps a UG face of a cube or simplex to a valid DUNE face, passes vertex, prism and pyramid faces through unchanged and raises `NotImplemented` for any other type |
| `UGGrids.FaceRoundTrip` | grid/uggrid/uggrid.cc:543-691 | translating a face number to UG and back, or from UG and back again, gives the original face for every supported type |
| `UGGrids.ChildSidesToDune` | grid/uggrid/uggrid.cc:653-696 | the loop over the children translates every UG side back to DUNE numbering in order, and fails with `NotImplemented` exactly when there is a child and the type is unknown |
| `UGGrids.Swap` | grid/uggrid/uggrid.cc:884-885 | exchanging two vertices keeps the length and the multiset of vertices |
| `UGGrids.ToUGOrder` | grid/uggrid/uggrid.cc:869-922 | the reordered vertices are a permutation of the given ones, with UG vertex `i` taken from DUNE vertex 3, 2, 7, 6 for `i` = 2, 3, 6, 7 of a cube and from vertex `i` otherwise |
| `UGGrids.ToUGOrderTwice` | grid/uggrid/uggrid.cc:884-885 | the vertex reordering undoes itself |
| `UGGrids.InsertElement` | grid/uggrid/uggrid.cc:861-923 | `insertElement` accepts exactly a supported type with its required number of vertices, raises `GridError` otherwise, and passes the vertices converted to `int` in UG order |
| `UGGrids.Mark` | grid/uggrid/uggrid.cc:381-413 | `mark` fails with `GridError` exactly when a non-zero count reaches an element that can be marked and either UG reports an error or the count is neither 1 nor -1; it returns true exactly when it marks, and then with the red rule for 1 and coarsening for -1 |
| `UGGrids.MarkAcceptsUnitCounts` | grid/uggrid/uggrid.cc:385-409 | the counts -1, 0 and 1 raise no error of `mark`'s own and mark red, coarsen or leave the element alone accordingly |
| `UGGrids.AdaptMode` | grid/uggrid/uggrid.cc:450-456 | the mode always requests truly local refinement, copies everything exactly for `COPY` refinement and refines without closure exactly when the green closure is omitted |
| `UGGrids.GridNamesDistinct` | grid/uggrid/uggrid.cc:186-190 | grids created at different values of the name counter get different names |
| `UGGrids.UGLibrary.constructor` | grid/uggrid/uggrid.cc:114-115 | no grid is counted at first, the name counter starts at 0 and UG has never been started |
| `UGGrids.UGLibrary.Register` | grid/uggrid/uggrid.cc:144-213 | `init` starts UG exactly when no grid is counted; it succeeds exactly when `CreateBoundaryValueProblem` succeeds and, for the first grid, `CreateFormatCmd` does; success names the grid after the name counter, counts it and increments the counter, while a failure raises `GridError` with the count and the counter unchanged and UG left started; UG runs while a grid is counted, and runs exactly then as long as no call has failed |
| `UGGrids.UGLibrary.Unregister` | grid/uggrid/uggrid.cc:215-248 | the destructor raises `GridError` and changes nothing when the grid's own boundary value problem is not found; otherwise it uncounts the grid and shuts UG down exactly when it was the last counted one, leaving the name counter untouched |
| `UGGrids.FailedFirstGridRestartsUG` | grid/uggrid/uggrid.cc:170-205 | a first grid whose `CreateBoundaryValueProblem` fails leaves UG started with no grid counted, so the next grid starts UG again and, once it is gone, two starts face one shutdown |
| `UGGrids.NewUGGrid` | grid/uggrid/uggrid.cc:121-142 | `UGGrid()`: a grid exists exactly when `init` succeeds, and is then fresh, registered with the library under the name `init` chose, with local refinement and the green closure; a failure raises `GridError` and counts no grid |
| `UGGrids.UGGrid.constructor` | grid/uggrid/uggrid.cc:121-128 | the member initialisers: local refinement with the green closure, and no adaptation yet |
| `UGGrids.UGGrid.Dispose` | grid/uggrid/uggrid.cc:215-248 | destroying a grid fails with `GridError` and changes nothing exactly when its own boundary value problem is not found; otherwise it uncounts the grid and shuts UG down after the last one |
| `UGGrids.UGGrid.Adapt` | grid/uggrid/uggrid.cc:431-475 | `adapt` hands UG the mode of the current settings, returns true when UG reports success and raises `GridError` otherwise; the settings are untouched |
| `UGGrids.UGGrid.AdaptWithoutClosure` | grid/uggrid/uggrid.cc:492-499 | as written: adapts without the green closure and restores the previous setting only when `adapt` returns, so a failure leaves the closure switched off |
| `UGGrids.UGGrid.AdaptWithoutClosureRestoring` | grid/uggrid/uggrid.cc:492-499 | adapts without the green closure and restores the previous setting on success and failure alike |
| `UGGrids.FailedAdaptKeepsClosureOff` | grid/uggrid/uggrid.cc:466-467 | after an `adaptWithoutClosure` whose adaptation failed on a grid with green closure, the flag stays set, so the next `adapt` still omits the green closure |

## Left out

- The operating-system calls `memalign`, `mprotect` and `free`. Page protection is a map and the fresh page-aligned block is a parameter of `allocate`; `memprotect`'s `abort` on a failing system call is not modelled.
- DebugAllocator.AllocationManager.Allocate: the page-count product `pages * page_size` is not reduced modulo 2^64, although the byte count `n * sizeof(T)` is.
- The global `operator new` and `operator delete` replacements, a process-wide hook.
- `DebugAllocator`'s `construct`, `destroy` and `address`, and its allocation hint, which is ignored.
- `DenseVectorTuple` norms and `operator/=`, which need floating point. Entries are integers throughout, and the iterators `begin`/`end` are covered only through the flat index they share with `operator[]`.
- DenseVectors.DenseVectorTuple.ForEach: models the non-const `for_each` only. The const overload's `ApplyFunctor` binds a non-const reference to an element of a const tuple, so it does not compile when called on a tuple of value blocks; it is not modelled.
- FieldVectorTuples.New: the entries a default-constructed `FieldVector` holds are indeterminate, so the contract states only the block shape.
- `PointerPairDeletor`, whose double delete is undefined behaviour.
- Compile-time defects that stop the templates from compiling are not reproduced: `::type` where `PushBackTuple`, `PushFrontTuple` and `PopFrontTuple` define `Type` (the last at `ForEachElementHelper` and `GenericTupleForLoop`, on the path of every enumeration of two or more elements), and the swapped argument order of `SubTuple` in `PopBackTuple` and `PopFrontTuple`. The documented meaning is modelled instead.
- The const overloads of `genericTransformTuple`, `at` and `get`, which compute the same values as the non-const ones.
- TypeIndexedTuples.TypeIndexedTuple.At: also stands for `operator[]`, whose argument only names the type.
- Transform.TransformTupleElements: the extra arguments are a sequence of values of one type rather than a list of arguments of different types.
- PointerTuples.DereferenceElements: the dereferenced tuple holds the objects' values, not references to them.
- UniquePointerTuples.UniquePointerTuple.MoveAssign: requires the other tuple to be a different object; self-move-assignment is not modelled.
- The `UniquePointerTuple` destructor (deletes what `reset()` would) and `get_deleters`, and swapping with a raw tuple.
- Tuple elements written and read by the stream operators are integers only.
- ParameterTree values are integers and strings only. `int` overflow, which sets failbit in `std::istream`, is not modelled.
- Hierarchical keys, `sub`, `hasSub`, `report`, and the non-template `int`, `double` and `bool` getters with a default value of `ParameterTree` (their bodies are not part of this model). A call such as `get(key, 5)` resolves to the `int` one; `ParameterTrees.ParameterTree.GetWithDefault` and `ParameterTrees.GetWritten` model the template, as `get<int>(key, d)` reaches it. The bodies of `ltrim`, `rtrim` and `hasKey` are not part of this model and are given their evident meaning: whitespace trimming and whole-key lookup.
- ParameterTrees.ParameterTree.Get: the `typeid(T).name()` text is left out of the error messages. A parser raises `NotImplemented` only through the parse function the caller passes.
- Every call into UG: `InitUg`, `ExitUg`, `CreateBoundaryValueProblem`, `CreateFormatCmd`, `BVP_GetByName`, `MarkForRefinement`, `EstimateHere`, `AdaptMultiGrid`, `setIndices`, `Get_Sons_of_ElementSide`, `InsertElementFromIDs`. Their results enter as parameters (`estimable`, `ugError`, `rv`) or are left out, including a failure of `InsertElementFromIDs`.
- The UG defaults file (`access`, `fopen`, `system("rm defaults")`), `loadBalance`, `communicate`, `globalRefine`, `postAdapt`, and the child traversal of `getChildrenOfSubface`, which a UG call drives.
- `mark(e, rule)` (`uggrid.cc` lines 415-429), which only forwards to UG.
- UGGrids.UGLibrary.Register: the `unsigned int` name counter is unbounded, so its wrap-around after 2^32 grids is not modelled.
- UGGrids.UGLibrary.Unregister: requires a counted grid, which every grid whose constructor returned is.
- UGGrids.UGLibrary.Register: `InitUg`, `ExitUg` and `DisposeMultiGrid` are taken to succeed; only the failures of `CreateBoundaryValueProblem`, `CreateFormatCmd` and `BVP_GetByName` are parameters, so `Balanced` is kept only while those succeed.
- UGGrids.FaceToUG: the geometry types other than vertex, line, simplex, cube, prism and pyramid are represented by `Line`.

## Findings

| source | as written | input that shows it | evidently intended | confidence | as-written member | corrected member |
|---|---|---|---|---|---|---|
| dune/common/debug_allocator.hh:125-134 | `deallocate` finds the record whose `page_ptr` is `ptr` rounded down to a page, but when the byte count is a multiple of the page size the payload starts exactly one page after `page_ptr` | `allocate<double>(0)` on 4096-byte pages: the block gets `page_ptr` 4096 and `ptr` 8192, and `deallocate` reports "memory block not found" | every pointer `allocate` returned is found (round down `ptr - 1`) | not executed | `DebugAllocator.AllocationManager.Deallocate`, `DebugAllocator.DebugAllocatorOf.Deallocate`, `DebugAllocator.AsWrittenLookup`, `DebugAllocator.ZeroByteAllocationNotFound` | `DebugAllocator.AllocationManager.DeallocateCorrected`, `DebugAllocator.DebugAllocatorOf.DeallocateCorrected`, `DebugAllocator.CorrectedLookup`, `DebugAllocator.RoundTrip` |
| dune/common/tuples/densevector.hh:138-158 | `ApplyFunctor::apply` takes the function object by value, so each block is visited by a fresh copy of it, and `for_each` (196-202) returns its own untouched copy | the blocks (5) and (7) with a visitor that writes its running count and counts: the vector becomes (0), (0) and the returned count is 0 | `std::for_each` semantics, as the documentation promises: one function object visits every entry, giving (0), (1) and count 2 | not executed | `DenseVectors.DenseVectorTuple.ForEach`, `DenseVectors.ForEachLosesState` | `DenseVectors.DenseVectorTuple.ForEachCorrected`, `DenseVectors.VisitRecordsEntries` |
| dune/common/tuples/modifiers.hh:195-200 | `tuple_pop_front` selects the positions of `EnumerationTuple<int, N-1>`, which start at 0 | (1, 2) gives (1) | positions 1 to N-1, as `PopFrontTuple` declares: (1, 2) gives (2) | not executed | `TupleModifiers.PopFrontMismatch`, `TupleModifiers.PopFrontCounterexample` | `TupleModifiers.PopFront` |
| dune/common/tuples/containstype.hh:30-31 | the recursive case reads `ContainsType<Tuple, Type, N-1>::position`, a member no specialisation declares | any `N` of 1 or more | the `value` of the smaller prefix or-ed with the test of element `N-1` | not executed | `ContainsType.ContainsTypeAsWritten`, `ContainsType.AsWrittenIllFormed` | `ContainsType.ContainsType`, `ContainsType.ContainsIsMembership` |
| dune/common/tuples/checkpredicate.hh:62-76 | the functor's constructor stores only the flag, so a default-constructed predicate is applied instead of the one passed | the stateful predicate "at least 5" on the tuple (1) answers `true` | the predicate passed in decides: `false` | not executed | `CheckPredicate.CheckPredicateTupleAsWritten`, `CheckPredicate.PredicateIgnoredExample` | `CheckPredicate.CheckPredicateTuple` |
| dune/common/tuples/iostream.hh:31-37 | each delimiter character is read with whitespace-skipping `>>`, so the space of the default delimiter ", " is never matched | (1, 23) written as "1, 23" and read back with `read_tuple` sets failbit | reading back what `write_tuple` wrote, for instance with whitespace in the delimiter skipped | not executed | `TupleIO.DefaultDelimiterFails`, `TupleIO.CommaSpaceFails` | `TupleIO.ReadTupleCorrected`, `TupleIO.ReadWritten` |
| grid/uggrid/uggrid.cc:492-499 | the saved `omitGreenClosure_` is restored only after `adapt` returns, and `adapt` throws `GridError` when UG reports an error (466-467) | a grid with green closure whose adaptation fails keeps omitting the closure in every later `adapt` | the previous setting is restored on every exit | not executed | `UGGrids.UGGrid.AdaptWithoutClosure`, `UGGrids.FailedAdaptKeepsClosureOff` | `UGGrids.UGGrid.AdaptWithoutClosureRestoring` |
