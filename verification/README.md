# gc-c: growable vector and mark / trace / sweep collector

A Dafny model of the core of gc-c, a small tracing garbage collector written in C.

**The growable vector (`src/vec.c`).** This is an ordered array of non-NULL opaque references with a `size` and a `capacity`.
- It starts at `INITIAL_CAPACITY` (10).
- It doubles (`RESIZE_FACTOR` 2) when an insertion finds it full.
- It reports failure through its result: `FAILURE` or a NULL element.

Here a vector is the value `Vec.Vector(elems, capacity)`. Every operation is a pure function that returns the new vector together with its status or removed element.

**The VM and its collector (`src/vm.c`).** A `vm_t` holds two things (`include/vm.h:6-10`):
- a registry of every allocated object;
- a stack of frames, each listing the objects its scope refers to.

The object constructors of `src/obj.c` are separate functions. The model pairs each of them with tracking the new object in the registry, as the driver does.

A collection (`vm_gc`) runs three phases:
1. `vm_mark` flags every object that some frame refers to.
2. `vm_trace` seeds a grey worklist with the flagged registry objects. It pops them one at a time and flags and pushes every child not yet flagged. Children are the non-NULL slots of a Tuple and the elements of a Vector.
3. `vm_sweep` destroys every unflagged registered object, clears the survivors' flags, and compacts the registry in order.

The model's VM state is `Vm.State(heap, objects, frames)`:
- `heap` maps object ids to their kind and flag;
- `objects` is the registry;
- `frames` is the frame stack.

`Vm.State.Valid` is the invariant the collector relies on but never checks:
- the registry lists each allocated object exactly once;
- every root is allocated;
- every child is allocated.

**Reference definition.** Reachability is defined independently of the collector, as the end points of chains of child edges (`Reachability.Reachable`). It is shown to be the least child-closed superset of its seeds. The main theorem is the contract of `Collector.Gc`. On a well-formed state, the collection keeps exactly the objects reachable from the frames' roots and from any flag already set on entry:
- they are kept in registry order;
- their flags are cleared;
- every other registered object is destroyed exactly once;
- the resulting state is well formed.

`Collector.GcFromRoots` covers the usual case, where every flag is clear on entry. There the survivors are exactly the objects reachable from the roots.

**Driver scenarios (`src/main.c`).** These are replayed as methods whose contracts state the object counts the driver asserts.

Modules:
- `Nullable` and `Vec` (vec.dfy): the vector.
- `Objects` (objects.dfy): object kinds and their children.
- `Vm` (vm.dfy): VM state, frames, registry and constructors.
- `Reachability` (reachability.dfy): the reference definition.
- `Collector` (collector.dfy): the collector.
- `Scenarios` (scenarios.dfy): the driver scenarios and a self-referencing Vector.

## Model

| member | source | states |
|---|---|---|
| Vec.Create | src/vec.c:6-22 | A new vector is empty, with capacity INITIAL_CAPACITY (10). |
| Vec.Reserve | src/vec.c:48-64 | A reserved vector is empty, with exactly the requested capacity, 0 included. |
| Vec.CreateAcceptsPushes | src/vec.c:6-22 | A vector from create (capacity 10) accepts any sequence of pushes, and ends up holding exactly the pushed values in order. |
| Vec.ReserveAcceptsPushes | src/vec.c:48-64 | A vector reserved with positive capacity accepts any sequence of pushes, and ends up holding exactly the pushed values in order. |
| Vec.At | src/vec.c:24-30 | Returns the element at `pos` exactly when `pos < size`, and NULL otherwise. |
| Vec.Front | src/vec.c:32-38 | Is the element at index 0, and is NULL exactly when the vector is empty. |
| Vec.Back | src/vec.c:40-46 | Is the element at index `size - 1`, and is NULL exactly when the vector is empty. |
| Vec.ShrinkToFit | src/vec.c:66-87 | Keeps the elements and sets the capacity to the size. A vector already at size is returned unchanged. |
| Vec.ShrinkToFitIdempotent | src/vec.c:71-84 | A second shrink changes nothing. |
| Vec.Clear | src/vec.c:89-102 | Leaves no elements, keeps the capacity, and always succeeds. |
| Vec.Resize | src/vec.c:183-208 | Fails exactly when `count == size`, leaving the vector unchanged. Otherwise the capacity becomes `count` and the elements become the first `min(size, count)` ones. It never adds elements. |
| Vec.Grow | src/vec.c:159-163 | The full-vector step before an insertion. It fails exactly when the capacity is 0. Otherwise the elements are kept, the capacity is doubled if it was full, and a free slot is left. |
| Vec.PushBack | src/vec.c:154-169 | Succeeds exactly for a non-NULL value on a vector with non-zero capacity. The elements become `elems + [x]` and the capacity doubles if it was full. On failure the vector is unchanged. |
| Vec.PopBack | src/vec.c:171-181 | On a non-empty vector, returns the last element and leaves the others in order. An empty vector yields NULL and is unchanged. The capacity is kept. |
| Vec.Insert | src/vec.c:104-130 | Succeeds exactly for a non-NULL value, `pos <= size` and non-zero capacity. The elements become `elems[..pos] + [x] + elems[pos..]`. On failure the vector is unchanged. |
| Vec.Remove | src/vec.c:132-152 | For `pos < size`, returns the element at `pos` and leaves `elems[..pos] + elems[pos+1..]`. Otherwise it yields NULL and the vector is unchanged. |
| Vec.PopBackAfterPushBack | src/vec.c:154-181 | A pop after a push returns the pushed value and restores the original elements. |
| Vec.RemoveAfterInsert | src/vec.c:104-152 | A remove at the position of an insert returns the inserted value and restores the original elements. |
| Vec.AtAfterInsert | src/vec.c:120-127 | After an insert, every element below `pos` keeps its index, the new value sits at `pos`, and later elements move up by one. |
| Vec.PushBackIsInsertAtEnd | src/vec.c:115-118 | An insert at `pos == size` is exactly a push_back, in status and result. |
| Vec.PushAllSucceeds | src/vec.c:154-169 | On a vector with positive capacity, any sequence of pushes succeeds and appends the values in order. This covers the registry, the frame lists and the worklist, which are all made by `vec_t_create`. |
| Vec.PushBackStuckAtZeroCapacity | src/vec.c:159-163 | Once the capacity is 0, whether through `vec_t_resize(v, 0)` or `vec_t_reserve(0)`, push_back and insert fail forever. |
| Vec.GrowCorrected | src/vec.c:159-163 | The growth step with the zero-capacity case repaired. It always succeeds, keeps the elements, leaves a free slot, and agrees with Grow whenever the capacity is positive. |
| Vec.PushBackCorrected | src/vec.c:154-169 | The repaired push_back succeeds exactly for non-NULL values and appends them. It agrees with PushBack whenever the capacity is positive. |
| Vm.Create | src/vm.c:5-27 | A new VM has no objects and no frames, and is well formed. |
| Vm.FramePush | src/vm.c:49-55 | Puts the frame on top of the stack; a NULL frame changes nothing. The roots grow by exactly the frame's objects. Heap and registry are untouched, and well-formedness is kept. |
| Vm.FrameCreate | src/vm.c:57-74 | A new empty frame becomes the top of the stack, and its index is returned. Roots, heap and registry are unchanged. |
| Vm.PopFrame | src/vm.c:76-84 | Popping and destroying the top frame removes only that frame. Heap and registry are untouched, so objects it rooted stay allocated. The roots can only shrink. |
| Vm.TrackObject | src/vm.c:86-92 | Appends the object to the registry; NULL is ignored. Heap and frames are unchanged. |
| Vm.TrackObjectNoDup | src/vm.c:86-92 | Tracking keeps the registry free of duplicates exactly when the object was not already in it. `vm_track_object` itself does not check this. |
| Vm.FrameTrackObject | src/vm.c:94-100 | Appends the object to that frame's list only, and other frames are unchanged; NULL is ignored. The roots grow by exactly that object and nothing is flagged. |
| Vm.Allocate | src/obj.c:8-18 | A successful constructor adds a fresh, unflagged object to the heap and appends it to the registry. Frames are untouched. |
| Vm.CreateInt | src/obj.c:20-30 | Always succeeds. The heap gains exactly an unflagged Int with the given value at the fresh id, which is appended to the registry. Frames and other objects are untouched, and the state stays well formed. |
| Vm.CreateFloat | src/obj.c:32-42 | Always succeeds. The heap gains exactly an unflagged Float with the given bits at the fresh id, which is appended to the registry. Frames and other objects are untouched, and the state stays well formed. |
| Vm.CreateString | src/obj.c:44-66 | Fails exactly on a NULL string, allocating nothing. Otherwise the heap gains exactly an unflagged String with those characters at the fresh id, which is appended to the registry. Frames and other objects are untouched, and the state stays well formed. |
| Vm.CreateTuple | src/obj.c:68-87 | Fails exactly when either slot is NULL, allocating nothing. Otherwise the heap gains exactly an unflagged Tuple of the two references at the fresh id, which is appended to the registry. Frames and other objects, their flags included, are untouched. |
| Vm.CreateVector | src/obj.c:89-106 | Fails exactly for capacity 0, allocating nothing. Otherwise the heap gains exactly an unflagged, empty Vector of that capacity at the fresh id, which is appended to the registry. Frames and other objects are untouched, and the state stays well formed. |
| Reachability.PathStaysInClosed | src/vm.c:172-180 | No chain of child edges leaves a child-closed set, so flagging cannot escape a closed set that contains the seeds. |
| Reachability.ReachableIsLeastClosed | src/vm.c:116-180 | The set reachable from the seeds along child edges is the least child-closed superset of the seeds. |
| Collector.Keep | src/vm.c:197-206 | The registry filtered to a set keeps exactly the entries in that set and adds no duplicates. |
| Collector.MarkChild | src/vm.c:172-180 | A NULL or already-flagged child leaves the state unchanged. Otherwise the child is flagged and pushed once; the flags grow by exactly that child. |
| Collector.ExtendsWorklist | src/vm.c:172-180 | Pushing only newly flagged objects keeps the worklist free of duplicates, and every grey object flagged and allocated. |
| Collector.ExtendsCount | src/vm.c:134-139 | The worklist length plus the number of unflagged objects is unchanged by pushes that flag. This measure drives termination. |
| Collector.BlackenElements | src/vm.c:157-168 | Blackening a Vector flags exactly its elements, pushing each newly flagged one once. |
| Collector.Blacken | src/vm.c:145-170 | Flags exactly the children of the object: none for Int, Float and String, the non-NULL slots of a Tuple, the elements of a Vector. Each newly flagged child is pushed once. |
| Collector.MarkFrame | src/vm.c:109-112 | Flags exactly the objects one frame refers to. Payloads and all other flags are unchanged. |
| Collector.Mark | src/vm.c:102-114 | The flags afterwards are the flags before plus exactly the roots of all frames. No payload, other flag, registry entry or frame changes. |
| Collector.DrainStart | src/vm.c:127-132 | The worklist seeded with the flagged registry objects, in registry order, satisfies the drain loop's invariant. |
| Collector.DrainStep | src/vm.c:134-139 | One pop-and-blacken round keeps the drain invariant: no flag cleared, flagged objects off the worklist have flagged children, nothing outside any closed superset of the entry flags. The termination measure strictly decreases. |
| Collector.FlaggedObjects | src/vm.c:127-132 | The initial worklist is the registry filtered to the flagged objects, in registry order. |
| Collector.Trace | src/vm.c:116-143 | Never clears a flag and keeps payloads, registry and frames. It terminates. The flagged set it leaves is child-closed and contained in every child-closed superset of the entry flags, i.e. it is the least one. |
| Collector.SweepKeepStep | src/vm.c:189-190 | Visiting a flagged registry object clears its flag and keeps it in its slot. |
| Collector.SweepDestroyStep | src/vm.c:191-194 | Visiting an unflagged registry object destroys it, NULLs its slot, and records it as destroyed once. |
| Collector.SweepFlags | src/vm.c:187-195 | After the first sweep pass: the heap holds exactly the flagged objects, unflagged; each slot is NULL exactly for a destroyed object; destroyed objects are the unflagged registry entries in registry order. |
| Collector.Compact | src/vm.c:197-206 | Compacting the slots gives the registry filtered to the survivors, in original order. |
| Collector.Sweep | src/vm.c:182-207 | The registry becomes the flagged entries in order, and the heap holds exactly them, unflagged. The destroyed objects are the unflagged entries, each exactly once. Frames are unchanged. |
| Collector.Gc | src/vm.c:209-213 | Keeps exactly the objects reachable from the roots and the entry flags, in registry order, with cleared flags. All others are destroyed once. No rooted object is destroyed and the state stays well formed. |
| Collector.GcFromRoots | src/vm.c:209-213 | With every flag clear on entry, the survivors are exactly the objects reachable from the frames' roots. They are unflagged copies, and the state stays well formed, so the registry lists exactly them. |
| Collector.TraceFindsLive | src/vm.c:210-211 | After mark and trace, the flagged set equals the set reachable from the roots and entry flags. |
| Collector.GcOutcome | src/vm.c:209-213 | Sweeping a heap whose flagged objects are the live ones keeps exactly the live objects, unflagged and in order, and destroys the rest. |
| Collector.SweptValid | src/vm.c:182-207 | The state left by a collection is well formed: registry without duplicates, all children and roots allocated. |
| Scenarios.RootedString | src/main.c:7-11 | One frame with "foo" allocated and rooted in it: one registered object, which is the only root. |
| Scenarios.CollectAllRooted | src/main.c:13-17 | A collection in which every registered object is rooted destroys nothing, keeps the registry and leaves all flags cleared. |
| Scenarios.RootedStringKept | src/main.c:13-17 | The rooted string survives the first collection. |
| Scenarios.CollectUnrooted | src/main.c:19-22 | With no frame left and no flag set, a collection destroys every registered object, in registry order. |
| Scenarios.RootedStringScenario | src/main.c:6-24 | First scenario: one object survives the first collection. After the frame is popped, none survives and the string is the one destroyed. |
| Scenarios.DriverSetup | src/main.c:28-48 | Second scenario setup: three frames, s1/s2/s3 rooted in f1/f2/f3, and the Tuple of two Ints rooted in f2 and f3. Six objects are registered. |
| Scenarios.DriverLiveAfterPop | src/main.c:50-55 | After f3 is popped, the live objects are s1, s2, the Tuple and both Ints; only s3 is not live. |
| Scenarios.DriverFirstGc | src/main.c:50-55 | The collection after popping f3 keeps exactly s1, s2, the Tuple and both Ints. |
| Scenarios.DriverScenario | src/main.c:28-64 | Six objects after setup, five after popping f3 and collecting, zero after popping the remaining frames and collecting. |
| Scenarios.PushElement | src/vec.c:154-169 | Storing a reference in a Vector object appends it to that object's elements only, keeping flags, other objects, registry and frames, and keeps the VM well formed; on positive capacity this is exactly `vec_t_push_back`. |
| Scenarios.SelfCycleScenario | src/vm.c:157-180 | A Vector holding only itself survives while rooted. After its frame is popped, it is destroyed exactly once; the trace terminates on the cycle. |

## Left out

- Memory allocation and its failures are not modelled. This covers the `malloc`/`calloc`/`realloc` failure paths in `vec_t_create`, `vec_t_reserve`, `vec_t_resize`, `vec_t_shrink_to_fit`, `vm_create`, `vm_frame_create` and the constructors. The unchecked `malloc` in `vm_frame_create` is also left out.
- Vec.ShrinkToFit: always succeeds, because the `realloc` failure path is one of the allocation failures left out.
- Vec.ShrinkToFit: on an empty vector with positive capacity, `src/vec.c:78` calls `realloc(data, 0)`. Its result is implementation-defined in C17 and undefined in C23. A C library that frees the array and returns NULL, as glibc does, makes the source return FAILURE with the capacity unchanged and `data` dangling. The model takes the other outcome: Success with capacity 0.
- Sizes and capacities are unbounded `nat`, not `size_t`. The byte counts `capacity * sizeof(void *)` and `count * sizeof(void *)` (`src/vec.c:196`), and the doubled capacity `capacity * RESIZE_FACTOR` (`src/vec.c:110`, `src/vec.c:160`), wrap in the source. On a 64-bit build, for example, `vec_t_resize(v, 2^61)` asks `realloc` for 0 bytes and returns FAILURE, while `Vec.Resize` returns Success. Such sizes lie far beyond any real allocation.
- Frames are values on the frame stack, addressed by their index (`Vm.FrameTrackObject` requires an index into the stack). In the source, `vm_frame_track_object` (`src/vm.c:94-100`) writes through a `frame_t *`. That pointer may have been pushed twice, so that both stack entries change, or it may not be on the stack at all, so that nothing a collection sees changes. Neither aliasing case is modelled.
- Vm.State.Valid: requires the registry to list each object once. In the source, an object registered twice is destroyed by `vm_sweep` even when it is flagged: the first visit clears its flag (`src/vm.c:190`), and the second visit then destroys it (`src/vm.c:192`) and leaves a dangling pointer in the first slot. The model does not describe registries with duplicates; `Vm.TrackObject` is only ever applied to a fresh object.
- Vec.Reserve: `vec_t_reserve(0)` depends on whether `calloc(0, …)` returns NULL, which is implementation-defined. The model takes the non-NULL outcome.
- Vec.Clear: does not model the `free` of each element. The vector's references are opaque, and destruction happens only in the sweep.
- NULL `vec_t *`/`vm_t *`/`frame_t *` arguments and a NULL `data` array are not modelled. The model has no such values: every vector, VM and frame exists. NULL object references, by contrast, are modelled with `Option`.
- `vm_destroy` and `vm_frame_destroy`'s freeing are left out; they only release memory. Popping a frame is modelled by `Vm.PopFrame`.
- `obj_destroy` is modelled as removing the object from the heap. Its `free` of the payload is left out.
- The reference-counting parts of `src/obj.c` are left out: `ref_count`, `obj_inc_ref`, `obj_dec_ref` and the `obj_vec_t_*` wrappers. They belong to an older scheme. The `obj_t` of `include/obj.h` has no count, and the collector does not use one.
- The constructors are modelled as the driver calls them: with the VM, tracking the new object in its registry. The driver passes the VM at `src/main.c:10`; the `src/obj.c` text takes no VM argument.
- `include/obj.h` also has no `is_marked` field, although `src/vm.c` uses one. The model gives every object a flag.
- Vm.Allocate: the fresh address `malloc` would return is the parameter `id`, required to be unused.
- `obj_debug_print` is left out: it is console output only.
- Float and string payloads are opaque: a Float is its 32-bit pattern and a String its characters, and no arithmetic or byte-level reasoning is done. Int payloads are 32-bit (`Objects.Int32`) and are never computed with.
- The VM's own vectors are modelled as sequences whose appends always succeed. These are the registry, the frame stack, each frame's list and the trace worklist. All are made by `vec_t_create` with capacity 10, and `Vec.PushAllSucceeds` shows that pushes on them cannot fail except through allocation failure. The source ignores these push results at `src/vm.c:130` and `src/vm.c:179`.
- Collector.SweepFlags: builds the blanked registry as a new sequence instead of overwriting slots in place. `Collector.Compact` then reads that sequence. The observable result, the compacted registry, is the same.
- Collector.Trace: the `if (obj)` guard on popped objects is not modelled, because the worklist never holds NULL.
- Collector.Gc: requires `Vm.State.Valid`, which the source never checks. On a state where a root or child is unallocated, the source dereferences a dangling pointer.
- Scenarios.PushElement: models a client storing into a Vector object's backing vector; the driver never does so, and it is used only to build the self-referencing Vector. It uses the repaired push (`Vec.PushBackCorrected`), which differs from `vec_t_push_back` only at capacity 0.

## Findings

| source | as written | input that shows it | evidently intended | confidence | as-written member | corrected member |
|---|---|---|---|---|---|---|
| src/vec.c:159-163 | When the vector is full it resizes to `capacity * RESIZE_FACTOR`. At capacity 0 this is 0, which equals the size, so `vec_t_resize` returns FAILURE: push_back and insert fail forever. | `vec_t_reserve(0)`, or `vec_t_resize(v, 0)` on a non-empty vector; then `vec_t_push_back(v, p)` with non-NULL `p` returns FAILURE | A full vector with capacity 0 grows to a positive capacity, so every non-NULL push succeeds | not executed | Vec.PushBackStuckAtZeroCapacity | Vec.PushBackCorrected |

`Vec.Resize` follows the code of `src/vec.c:183-208`, not the header comment in `include/vec.h`. The comment says that growing appends elements; the code only changes the capacity and never adds any.
