# ptr_to_unique in Dafny

A model of the header-only C++ library `ptr_to_unique.h`. The library provides `ptr_to_unique<T>`, a non-owning observer of an object owned by a `notifying_unique_ptr`. That is a `std::unique_ptr` whose deleter `notify_ptrs` tells every observer when the object dies.

The owner and its observers share a heap-allocated control block with two counters:
- `m_reference_count`, the number of attached observers;
- `m_valid_count`, the array size while the object lives and -1 once it is dead.

The block frees itself on one of two paths:
- the owner invalidates it while no observer is attached;
- the last observer detaches from a dead block.

Observers can also alias a sub-object, an array element or a member reached by a path of steps. An alias shares the block of the root object.

The model has six modules:

- `Outcomes`: `Option`, `Result` and the two exceptions the header throws (`std::out_of_range`, `std::runtime_error`).
- `Protocol`: the block's counters as a value.
  - `Step` gives the transition of each mutating operation (attach, detach, invalidate); `Run` gives a whole sequence of them.
  - Lemmas prove the block's lifetime property over every sequence of operations: it is freed exactly once, and only once it is dead and unobserved.
  - It also holds both halves of the unsigned-test finding below.
- `Paths`: alias path resolution (`read_offsets`, `do_offset`, `tuple_reader`).
  - It works over static object shapes (`Shape`), object values (`Value`) and selection lists (`Sel`); an `Addr` is null or a sub-object of an allocation.
  - Lemmas prove that resolution is sound, bounds-checked, left to right, and fails only with `out_of_range`.
- `Blocks`: the control block and its connection (`_ptr_to_unique_cbx`) as classes whose methods update fields in place.
  - `delete this` is a ghost `freed` flag.
  - The attached observer connections are a ghost `holders` set, with the invariant `refCount == |holders|`.
  - Every change a method makes to a block is stated as a `Protocol.Step` transition, so the lemmas of `Protocol` apply to the heap objects.
- `Handles`: the owner `NotifyingUniquePtr` (its held pointer plus the connection inside `notify_ptrs`) and the observer `PtrToUnique` (the cached `m_pT` plus a connection).
  - Each constructor, assignment and accessor performs the connection operations the header performs, in the same order.
  - This module also holds the aliasing constructors and `point_into`.
- `Scenarios`: client programs built from the handle operations. Each proves one end-to-end behaviour, such as deleting the owner invalidating every observer.

Three behaviours of the code are easy to miss; the model keeps each of them:
- Copies attach through `adopt_block_if_valid` (ptr_to_unique.h:500), so a copy of an observer whose block is dead is null and unattached.
- `dynamic_ptr_cast` attaches through `adopt_block` (ptr_to_unique.h:480) instead. Its result shares the block even when the type test fails, where it reports valid while `get()` returns null (`Scenarios.FailedCastStillAttaches`), and even when the block is already dead.
- The block is valid while its valid count is above -1 (ptr_to_unique.h:63). An array count of 0 is therefore valid, although the field's comment at line 52 calls the count valid only when non-zero.

## Model

| member | source | states |
|---|---|---|
| Protocol.ArrayCount | ptr_to_unique.h:169-172 | the array count equals the valid count exactly while the block is valid, and is 0 once it is dead |
| Protocol.DecWeakCanDelete | ptr_to_unique.h:69-72 | the intended signed test: on a block with an observer, it allows deletion exactly when that observer is the last and the block is dead |
| Protocol.Step | ptr_to_unique.h:87-101 | an operation applies exactly to an allocated block, and a detach only to one with an observer; an attach never frees the block |
| Protocol.Run | ptr_to_unique.h:87-101 | a run that ends with the block allocated started from an allocated block |
| Protocol.NewBlock | ptr_to_unique.h:76-80 | a new block has no observers, is valid (even for an array count of 0) and reports its array count |
| Protocol.StepKeepsCoherent | ptr_to_unique.h:87-101 | every operation keeps a block coherent (a dead, allocated block still has an observer), and a dead block never becomes valid again |
| Protocol.MarkInvalidOutcome | ptr_to_unique.h:87-92 | mark_invalid frees the block exactly when no observer is attached; otherwise it leaves it allocated with valid count -1 and the same observers |
| Protocol.ReleaseWeakOutcome | ptr_to_unique.h:69-72 | release_weak, under the signed test, frees the block exactly when the last observer detaches from a dead block; on a valid block it only decrements the count |
| Protocol.FreedIsFinal | ptr_to_unique.h:87-101 | no operation applies to a freed block, so it is never freed twice |
| Protocol.RunFrom | ptr_to_unique.h:87-101 | any run from a coherent block: an allocated end state is coherent, counts attaches minus detaches and is dead exactly when invalidated; a freed end state was dead and balanced |
| Protocol.FreedExactlyWhenDeadAndUnobserved | ptr_to_unique.h:76-101 | over every protocol run from a new block: it ends freed if and only if it was invalidated and every attach was matched by a detach; while allocated its count is that balance and it is valid if and only if never invalidated |
| Protocol.FreedOnlyAtTheEnd | ptr_to_unique.h:87-101 | in a run that frees the block, every strict prefix leaves it allocated, so the block is freed once, by the last step |
| Protocol.AsWrittenNeverDeletes | ptr_to_unique.h:69-72 | the test as written, with its unsigned sum, is false for every pair of counts |
| Protocol.AsWrittenLastDetachLeaks | ptr_to_unique.h:98-101 | on a dead block with one observer, the test as written does not free, although the block would be left unobserved; the signed test frees it, ending the run attach, invalidate, detach freed |
| Paths.DoOffset | ptr_to_unique.h:199-226 | an integer index fails exactly when it is at least N; a constant index or a member always resolves; a step that resolves selects at least one level |
| Paths.ReadOffsets | ptr_to_unique.h:188-196 | a path that resolves selects at least one level per step |
| Paths.Offset | ptr_to_unique.h:430-439 | moving into a sub-object keeps null null and non-null non-null; the result lies in the same allocation, extends the root's selection and is one level deeper per selection |
| Paths.IndexStep | ptr_to_unique.h:199-206 | an integer index step throws out_of_range if and only if the index is at least N, and otherwise selects that element |
| Paths.StepResolvesToItsType | ptr_to_unique.h:198-226 | the selections one step resolves to reach an object of the step's static type |
| Paths.PathResolvesToItsType | ptr_to_unique.h:188-196 | the selections a path resolves to reach an object of the type deduced for the whole path |
| Paths.TypedSelectionExists | ptr_to_unique.h:224-226 | well-typed selections reach a sub-object of that type in every object of the root's shape |
| Paths.ResolvedPathSelectsSubObject | ptr_to_unique.h:188-226 | a path that resolves selects an existing sub-object of the root, of the path's static type |
| Paths.PathTypeAppend | ptr_to_unique.h:192-196 | the static type of a concatenated path is found by typing its parts one after the other |
| Paths.ReadOffsetsAppend | ptr_to_unique.h:192-196 | steps apply left to right: resolving p + q resolves p, then q from what p selected, concatenating the selections; the first bad index wins |
| Paths.TupleSplices | ptr_to_unique.h:228-250 | a tuple step resolves the same as its steps spliced into the path |
| Paths.StepWithoutRuntimeIndexResolves | ptr_to_unique.h:209-226 | a step with no integer index (a constant index, a member, or a tuple of those) never fails |
| Paths.PathWithoutRuntimeIndexResolves | ptr_to_unique.h:188-219 | a well-typed path with no integer index never throws out_of_range |
| Paths.StepFailsOnlyOutOfRange | ptr_to_unique.h:198-226 | the only failure of a step is out_of_range |
| Paths.PathFailsOnlyOutOfRange | ptr_to_unique.h:188-206 | the only exception read_offsets throws is out_of_range |
| Blocks.ControlBlock.constructor | ptr_to_unique.h:76-80 | a new block is in the protocol's initial state for its array count, with no observers |
| Blocks.ControlBlock.MarkInvalid | ptr_to_unique.h:87-92 | performs the mark-invalid transition: frees when unobserved, otherwise marks dead; the observers are unchanged |
| Blocks.ControlBlock.AddWeak | ptr_to_unique.h:94-96 | performs the attach transition; the count and the observer set each grow by one |
| Blocks.ControlBlock.DecWeakCanDelete | ptr_to_unique.h:69-72 | decrements the count and answers the signed test on the old count and the valid count |
| Blocks.ControlBlock.ReleaseWeak | ptr_to_unique.h:98-101 | performs the detach transition: the count and the observer set each shrink by one, and the block is freed exactly when the protocol says so |
| Blocks.ControlBlock.GetValid | ptr_to_unique.h:59-64 | valid exactly when the block's counts are valid in the protocol (valid count above -1) |
| Blocks.Cbx.ArrayCount | ptr_to_unique.h:169-172 | 0 on a null connection, otherwise the protocol's array count of the block: its size while valid, 0 once dead |
| Blocks.Cbx.constructor | ptr_to_unique.h:107-108 | a new connection is null |
| Blocks.Cbx.QuickRelease | ptr_to_unique.h:116-120 | detaches from the block, nulls the connection and returns false |
| Blocks.Cbx.CheckValid | ptr_to_unique.h:110-114 | true exactly when attached to a valid block, which is then untouched; on a dead block it detaches and nulls the connection; on a null connection it changes nothing |
| Blocks.Cbx.Release | ptr_to_unique.h:121-127 | leaves the connection null, detaching if it was attached and changing nothing otherwise, so releasing twice is releasing once |
| Blocks.Cbx.AdoptBlockIfValid | ptr_to_unique.h:129-138 | attaches to the source's block, and returns true, exactly when that block is valid; otherwise the block is untouched |
| Blocks.Cbx.AdoptBlock | ptr_to_unique.h:139-145 | shares the source's block whatever its state, attaching if it is non-null |
| Blocks.Cbx.StealBlock | ptr_to_unique.h:146-149 | takes over the source's attachment and nulls the source; the block's counts do not change |
| Blocks.Cbx.AssureAndAdoptOwnerBlock | ptr_to_unique.h:150-155 | attaches to the owner's block, first creating it for the given array count if the owner has none; the owner then points to it |
| Blocks.Cbx.MarkInvalid | ptr_to_unique.h:156-162 | invalidates the owner's block, if any, and nulls the owner's connection; observers keep their attachment |
| Blocks.Cbx.SetOwnerBlock | ptr_to_unique.h:163-168 | invalidates any current block and points the owner to a fresh one with the given array count and no observers |
| Handles.NotifyingUniquePtr.constructor | ptr_to_unique.h:273-295 | a new owner holds the pointer and has no block yet (blocks are created lazily) |
| Handles.NotifyingUniquePtr.Delete | ptr_to_unique.h:328-333 | requires a held object; nulls the owner's pointer, invalidates the block and nulls the owner's connection, and returns the old pointer, the one handed to the inner deleter; every attached observer stays attached to the block and finds it dead |
| Handles.NotifyingUniquePtr.ResetAllPtrs | ptr_to_unique.h:335-337 | invalidates the block as Delete does but keeps the object |
| Handles.PtrToUnique.Empty | ptr_to_unique.h:354 | the default and nullptr constructors make an unattached, null observer |
| Handles.PtrToUnique.Destroy | ptr_to_unique.h:357-359 | the destructor detaches from the block, if any |
| Handles.PtrToUnique.AssignNull | ptr_to_unique.h:362-365 | assigning nullptr detaches from the block, if any |
| Handles.PtrToUnique.PointTo | ptr_to_unique.h:499-502 | attaches to the source's block and copies its address exactly when the source is attached to a valid block; otherwise nothing changes |
| Handles.PtrToUnique.Copy | ptr_to_unique.h:368-379 | a copy watches the source's object through the same block if that block is valid; otherwise it is unattached and the count is unchanged |
| Handles.PtrToUnique.AssignCopy | ptr_to_unique.h:371-383 | copy assignment as written: detaches from the old block, then copies as Copy does; a self-assignment ends unattached |
| Handles.PtrToUnique.AssignCopyGuarded | ptr_to_unique.h:371-373 | the intended copy assignment: a self-assignment changes nothing; any other source is copied as AssignCopy does, detaching from the old block and attaching to the source's block exactly when it is valid, which is otherwise untouched |
| Handles.PtrToUnique.AcceptMove | ptr_to_unique.h:504-507 | takes over the source's attachment and address; the block's counts do not change and the source is left unattached |
| Handles.PtrToUnique.Move | ptr_to_unique.h:386-397 | a moved-to observer holds the source's attachment and address; the source is unattached |
| Handles.PtrToUnique.AssignMove | ptr_to_unique.h:389-401 | detaches from the old block, then takes over the source's attachment; a self-move ends unattached |
| Handles.PtrToUnique.PointToOwner | ptr_to_unique.h:509-512 | copies the owner's pointer; a null owner leaves the observer unattached; otherwise it attaches to the owner's block, creating it with array count 1 when the owner has none |
| Handles.PtrToUnique.FromOwner | ptr_to_unique.h:404-417 | an observer from a null owner is unattached; otherwise the first observer creates the owner's block and later ones attach to the same block, each raising the count by one |
| Handles.PtrToUnique.AssignOwner | ptr_to_unique.h:408-421 | detaches from the old block, then points to the owner as FromOwner does |
| Handles.PtrToUnique.IsValid | ptr_to_unique.h:447-449 | operator bool is true exactly when attached to a valid block, and detaches from a block found dead |
| Handles.PtrToUnique.Get | ptr_to_unique.h:452-465 | get() and operator-> return the cached address while the block is valid and null otherwise, detaching from a dead block |
| Handles.PtrToUnique.Deref | ptr_to_unique.h:466-473 | operator* returns the watched object while the block is valid and throws runtime_error otherwise |
| Handles.PtrToUnique.DynamicPtrCast | ptr_to_unique.h:476-482 | the result holds the cast address (null when the type test fails) and attaches to this observer's block in every case |
| Handles.PtrToUnique.SharingBlock | ptr_to_unique.h:529-533 | shares the source observer's block whatever its state, attaching if it is non-null, and takes the given address; the source keeps its block |
| Handles.PtrToUnique.FromConnection | ptr_to_unique.h:534-538 | steals the given connection's attachment and takes the given address |
| Handles.PtrToUnique.AliasOf | ptr_to_unique.h:430-434 | an alias of an observer fails exactly when the path has a bad index, with out_of_range; otherwise it points at the sub-object of what get() returned and attaches to the root's block if that block is valid, never to a new one |
| Handles.PtrToUnique.AliasOfOwner | ptr_to_unique.h:436-440 | an alias of an owner fails exactly when the path has a bad index, leaving the owner's block untouched; otherwise it points at the sub-object; for a null owner it is unattached and the block is untouched; for any other owner it attaches to the owner's block, or to a fresh block with array count 1 and this alias as its only observer when the owner has none |
| Handles.PointInto | ptr_to_unique.h:556-562 | point_into on an observer: out_of_range exactly on a bad index; otherwise the alias of the observer |
| Handles.PointIntoOwner | ptr_to_unique.h:563-569 | point_into on an owner: out_of_range exactly on a bad index, with the owner's block untouched; otherwise the alias of the owner, with the same attachment and block clauses as AliasOfOwner |
| Scenarios.DeletingTheOwnerInvalidatesObservers | ptr_to_unique.h:328-333 | after the owner deletes its object, the deleter has received it, an observer and a copy of it both get null, dereferencing throws runtime_error, and an observer taken from the owner afterwards is null |
| Scenarios.LastDetachFreesTheBlock | ptr_to_unique.h:87-101 | deleting the owner leaves the block allocated while an observer is attached; that observer's next get() detaches and frees it |
| Scenarios.ResetKeepsTheObject | ptr_to_unique.h:335-337 | after reset_all_ptrs, old observers get null, and an observer taken afterwards attaches to a new block and is valid |
| Scenarios.NullOwnerYieldsNullObserver | ptr_to_unique.h:509-512 | an observer from a null owner is not valid and gets null |
| Scenarios.MoveLeavesTheSourceNull | ptr_to_unique.h:386-388 | after a move, the source gets null and the target gets the object |
| Scenarios.AliasIntoAnArray | ptr_to_unique.h:199-206 | in an array of 5, index 7 throws out_of_range; index 2 yields an alias of element 2 that gets null once the owner deletes the object |
| Scenarios.SelfCopyAssignmentAsWritten | ptr_to_unique.h:371-373 | a valid observer assigned to itself, as written, gets null afterwards |
| Scenarios.SelfCopyAssignmentGuarded | ptr_to_unique.h:371-373 | with the guarded assignment, a valid observer assigned to itself still gets the object |
| Scenarios.FailedCastStillAttaches | ptr_to_unique.h:476-482 | a dynamic_ptr_cast whose type test fails yields an observer that reports valid but gets null |

## Left out

- The thread-affinity check in `_is_valid` and the block constructor (`thread_id`, `std::exception`) is not modelled. The model is single-threaded.
- Compile-time gating is not modelled: the `enable_if`/`is_base_of` conversion constraints, and the deleted constructors and assignments from rvalue owners. Conversions between observer types are the same operations as the plain ones.
- The compile-time check of an `integral_constant` index against N becomes the `Typed` precondition of path resolution: a path the compiler rejects has no `PathType`.
- `dynamic_cast` is run-time type information. It is the parameter `cast` of `DynamicPtrCast`, a total function from addresses to addresses, returning null on failure.
- Handles.NotifyingUniquePtr.Delete: requires a held object, because `std::unique_ptr` runs the deleter only on a non-null pointer; `reset()` or destruction of an empty owner does nothing observable. It models `reset()` and destruction, where the owner's pointer is stored as null before the deleter runs, once. The inner deleter `D` is only the returned pointer; no storage is freed.
- The `std::unique_ptr` mechanics of copying, moving and converting `notify_ptrs` (lines 298-325) are left out. They depend on library behaviour outside the header. So are the conversion to `D&` (lines 321-325) and `operator=(const D2&)`.
- `unique_ptr::reset(q)` with a new object, and assignment of a new object to the owner, are left out. The owner's pointer is set at construction and only ever becomes null, through `Delete`.
- The comparison operators (lines 577-648) are left out. They compare the results of `get()` and add no state.
- Raw pointer and member-pointer arithmetic is left out. An address is an allocation number plus a selection list, so two distinct paths never alias.
- Blocks.ControlBlock.constructor: requires the array count to fit in an `int`. The `int(count)` conversion of a larger `size_t` is not modelled.
- Blocks.ControlBlock.DecWeakCanDelete: decides with the intended signed test, not the unsigned test as written (see Findings). `Protocol.DecWeakCanDeleteAsWritten` models the literal test.
- Blocks.ControlBlock.AddWeak: `m_reference_count` is an unbounded natural. Its 32-bit wrap-around after 2^32 attaches is not modelled.
- Blocks.Cbx.AdoptBlockIfValid, Blocks.Cbx.AdoptBlock, Blocks.Cbx.StealBlock, Blocks.Cbx.AssureAndAdoptOwnerBlock: require the target connection to be null. Every caller in the header releases it first or builds it fresh; the C++ would otherwise leak the old attachment.
- Handles.PtrToUnique.Empty: the C++ default constructor leaves `m_pT` uninitialised. The model starts every observer at null, so expressions such as an unattached copy's address are null rather than indeterminate.
- Handles.PtrToUnique.AliasOf: dereferencing a null `get()` to resolve an alias path (ptr_to_unique.h:433) is undefined behaviour in C++. The model treats it as resolving the path from null, which yields a null, unattached alias.
- Handles.PtrToUnique.AliasOfOwner: likewise dereferences the owner's `get()` (ptr_to_unique.h:439) even when it is null. The model resolves the path from null and yields a null, unattached alias.
- Handles.PointIntoOwner: the same null dereference at ptr_to_unique.h:567 (and at line 560 for Handles.PointInto) is modelled the same way.
- Handles.PtrToUnique.Deref: on a valid observer whose cached address is null, such as the result of a failed `dynamic_ptr_cast`, `*m_pT` (ptr_to_unique.h:468) dereferences null, which is undefined behaviour. The model returns `Ok(Null)`.
- Handles.PointInto: resolves the path once more than needed, to learn the alias type, exactly as the header does. Only the first resolution's `out_of_range` is observable.

## Findings

| source | as written | input that shows it | evidently intended | confidence | as-written member | corrected member |
|---|---|---|---|---|---|---|
| ptr_to_unique.h:69-72 | `--m_reference_count + m_valid_count < 0` adds an `int` to an `unsigned int`, so the sum is unsigned and the test is never true; a dead block is never freed by a detach | one observer attached, owner invalidates (valid count -1, count 1), observer detaches: the counts become 0 and -1 and the block leaks | a signed test: free when the last observer detaches from a dead block | not executed | Protocol.AsWrittenLastDetachLeaks | Protocol.FreedExactlyWhenDeadAndUnobserved |
| ptr_to_unique.h:371-373 | the copy assignment releases `cbx` before `point_to` reads the source, so `p = p` reads the already-released connection | an observer `p` of a live object; `p = p;` then `p.get()` returns null | self-assignment leaves the observer unchanged | not executed | Scenarios.SelfCopyAssignmentAsWritten | Scenarios.SelfCopyAssignmentGuarded |
