# Ring buffer (ringbuffer-c) in Dafny

A model of the fixed-capacity ring buffer of `ringbuffer.c`. The buffer is a
`ringbuffer_t`: an element array of `capacity` slots, a write cursor `head`,
a read cursor `tail` and an `is_full` flag. A write stores at `head` and,
when the buffer is full, overwrites the oldest element. A read consumes the
oldest element. Peek and borrow look at the oldest or newest element without
consuming it. Resize moves the elements to a new array, oldest first. Print
calls a callback on every element, oldest first.

The model has four modules:

- `RingQueue` (ring_queue.dfy) is the abstract behaviour: a bounded FIFO
  queue whose writes drop the oldest element when it is full.
- `RingIndex` (ring_index.dfy) is the cursor arithmetic:
  - advancing a cursor and stepping back from the write cursor;
  - the occupancy formula, and the same formula evaluated in a 64-bit `size_t`;
  - the window of slots from `tail` that holds the readable elements;
  - one lemma per write and per read, relating the cursor updates to the
    queue.
- `RingBuffers` (ringbuffer.dfy) is the `rb_status` codes and the class
  `RingBuffer<T>`. The class has the C struct's fields, a ghost `Contents`
  (the readable elements, oldest first) and a method for each C function except
  `ringbuffer_free`. `ringbuffer_init` has two members: the constructor `Init`
  and `Create`, which adds the allocation outcome. `ringbuffer_resize` also has
  two: the corrected `Resize` and `ResizeAsWritten`. Each method is proved
  against `Contents`.
- `Scenarios` (scenarios.dfy) replays the unit tests and the demo program as
  clients of the class.

The element type is the type parameter `T`, in place of `element_size` and
the byte copies.

## Model

| member | source | states |
|---|---|---|
| `RingBuffers.Status.Code` | ringbuffer.h:3-9 | RB_OK is 0 and is the only status that is not negative |
| `RingBuffers.RingBuffer.Valid` | ringbuffer.h:11-18 | the `ringbuffer_t` fields (array, `capacity`, `head`, `tail`, `is_full`) keep both cursors below a positive capacity that is the array's length, with `head == tail` when full; a valid buffer holds at most `capacity` readable elements, exactly `capacity` when full, and none exactly when `head == tail` and not full |
| `RingBuffers.RingBuffer.Size` | ringbuffer.c:38-40 | the occupancy is the number of readable elements, at most the capacity, and equals the capacity exactly when `is_full` is set |
| `RingBuffers.RingBuffer.IsEmpty` | ringbuffer.c:79 | the emptiness test `head == tail && !is_full` holds exactly when no element is readable |
| `RingBuffers.RingBuffer.Init` | ringbuffer.c:8-19 | a new buffer has the given capacity, both cursors at 0, `is_full` clear and no readable element |
| `RingBuffers.RingBuffer.Create` | ringbuffer.c:8-19 | if allocation fails, the status is RB_ERR_MEM and there is no buffer; otherwise the status is RB_OK and the buffer is empty, with cursors at 0 |
| `RingBuffers.RingBuffer.Reset` | ringbuffer.c:21-25 | only `head`, `tail` and `is_full` change; they become 0, 0 and clear, and the buffer holds nothing |
| `RingBuffers.RingBuffer.Write` | ringbuffer.c:62-75 | `head` advances with wrap; `tail` advances only if the buffer was full; afterwards `is_full == (head == tail)`. Occupancy grows by one, or stays at capacity when full. Contents become the queue after pushing the value, so the oldest element is dropped when full |
| `RingBuffers.RingBuffer.Read` | ringbuffer.c:78-92 | when empty: RB_ERR_EMPTY and no change. Otherwise: RB_OK, the value is the oldest element, the contents lose their first element, `tail` advances and `is_full` is cleared |
| `RingBuffers.RingBuffer.PeekFirst` | ringbuffer.c:124-136 | RB_ERR_EMPTY exactly when empty; otherwise returns the oldest element; the state does not change |
| `RingBuffers.RingBuffer.PeekLast` | ringbuffer.c:109-122 | RB_ERR_EMPTY exactly when empty; otherwise returns the newest element, read from the slot before `head` (slot `capacity - 1` when `head` is 0); the state does not change |
| `RingBuffers.RingBuffer.FirstBorrowed` | ringbuffer.c:102-107 | no slot (NULL) exactly when empty; otherwise slot `tail`, which holds the oldest element |
| `RingBuffers.RingBuffer.LastBorrowed` | ringbuffer.c:94-100 | no slot (NULL) exactly when empty; otherwise slot `head - 1` (wrapping to `capacity - 1`), which holds the newest element |
| `RingBuffers.RingBuffer.Print` | ringbuffer.c:139-154 | without a callback: RB_ERR_INVALID_CB and no call. Otherwise: RB_OK and one call per readable element, in order from oldest to newest; the state does not change |
| `RingBuffers.RingBuffer.CopyInOrder` | ringbuffer.c:32-49 | the copy loop fills a new array of the new capacity whose first `size` slots hold the contents, oldest first |
| `RingBuffers.RingBuffer.Resize` | ringbuffer.c:31-59 | if allocation fails: RB_ERR_MEM and no change. Otherwise: a new array of the new capacity, `tail == 0`, `head` is the occupancy (wrapped to 0 when that fills the buffer), `is_full` is set exactly when the occupancy equals the new capacity, and the contents are unchanged |
| `RingBuffers.RingBuffer.ResizeAsWritten` | ringbuffer.c:51-56 | the copy is right: slots `0 .. size-1` of the new array hold the old contents oldest first, `tail` is 0 and `head` becomes the occupancy. Below the new capacity the buffer stays valid with unchanged contents. At equality, `head == capacity` and `head != tail` while full, so the state is no longer valid |
| `RingQueue.Pushed` | ringbuffer.c:62-75 | a write grows the queue by one, or keeps it at capacity when full |
| `RingQueue.PushedKeepsNewest` | ringbuffer.c:61-75 | a write keeps the newest `capacity` elements of the old queue followed by the new value |
| `RingQueue.WriteAll` | ringbuffer.c:62-75 | any run of writes leaves at most `capacity` elements |
| `RingQueue.WriteAllKeepsNewest` | ringbuffer.c:61-75 | after any run of writes, the queue holds exactly the newest `capacity` elements of the old contents followed by the values written |
| `RingQueue.WriteAllWithinCapacity` | ringbuffer.c:62-75 | writes that fit are appended in order and nothing is lost (FIFO) |
| `RingQueue.WriteAllSnoc` | ringbuffer.c:62-75 | writing `xs` and then `x` is the same as writing `xs + [x]` |
| `RingIndex.Offset` | ringbuffer.c:43 | the slot `k` steps after `start` is a valid slot |
| `RingIndex.OffsetIsMod` | ringbuffer.c:43 | that slot is `(start + k) % capacity` |
| `RingIndex.Next` | ringbuffer.c:68 | an advanced cursor stays below the capacity |
| `RingIndex.NextIsMod` | ringbuffer.c:68-71 | advancing is `(i + 1) % capacity` |
| `RingIndex.Prev` | ringbuffer.c:98 | `head == 0 ? capacity - 1 : head - 1` is a valid slot, and advancing it gives `head` back |
| `RingIndex.Occupancy` | ringbuffer.c:38-40 | the occupancy is at most the capacity; it equals the capacity exactly when full and is 0 exactly when `head == tail` and not full; `tail` advanced by the occupancy is `head` |
| `RingIndex.OccupancyIsMod` | ringbuffer.c:38-40 | the occupancy is `is_full ? capacity : (head - tail + capacity) % capacity` over the integers |
| `RingIndex.OccupancyFrom` | ringbuffer.c:38-40 | a distance below capacity from `tail` to `head` is the occupancy of the non-full buffer |
| `RingIndex.SizeTSub` | ringbuffer.c:40 | `size_t` subtraction wraps modulo 2^64 |
| `RingIndex.SizeTAdd` | ringbuffer.c:40 | `size_t` addition wraps modulo 2^64 |
| `RingIndex.OccupancySizeT` | ringbuffer.c:38-40 | the occupancy expression evaluated in `size_t` is at most the capacity, and is the capacity when full |
| `RingIndex.OccupancySizeTAgrees` | ringbuffer.c:38-40 | in unsigned 64-bit arithmetic the occupancy expression gives the true occupancy for every capacity up to 2^63 |
| `RingIndex.Window` | ringbuffer.c:148-151 | the readable elements are the `n` slots visited from `tail` |
| `RingIndex.WindowIndex` | ringbuffer.c:43 | element `i` of the contents is in slot `tail + i` (wrapped) |
| `RingIndex.WindowAt` | ringbuffer.c:149 | element `i` of the contents is in slot `(tail + i) % capacity` |
| `RingIndex.WindowEq` | ringbuffer.c:42-49 | a sequence that matches every slot of the window is the contents |
| `RingIndex.WindowDropFirst` | ringbuffer.c:88 | moving `tail` on by one drops the oldest element |
| `RingIndex.WindowFrame` | ringbuffer.c:63-67 | a store outside the readable slots leaves the contents unchanged |
| `RingIndex.WindowStorePast` | ringbuffer.c:63-68 | on a non-full buffer, storing at `head` appends the value |
| `RingIndex.WindowOverwriteOldest` | ringbuffer.c:63-72 | on a full buffer, storing at `head` and moving `tail` on replaces the oldest element with a new newest one |
| `RingIndex.WindowLast` | ringbuffer.c:114 | the newest element is in the slot before `head` |
| `RingIndex.WindowFromZero` | ringbuffer.c:52-55 | after the copy, the contents from slot 0 are the prefix of the new array |
| `RingIndex.WriteStep` | ringbuffer.c:62-75 | one write's updates to the cursors and the slot give occupancy + 1 (or capacity when full), and the contents after the push |
| `RingIndex.ReadStep` | ringbuffer.c:88-89 | one read's updates to the cursors give occupancy − 1, and the contents without their first element |
| `Scenarios.WriteEach` | ringbuffer_demo.c:16-18 | a loop of writes leaves the contents of `WriteAll` |
| `Scenarios.ReadEach` | ringbuffer_demo.c:40-44 | `n` reads all report RB_OK, return the `n` oldest elements in order, and leave the rest |
| `Scenarios.Creation` | test/test_ringbuffer.c:33-43 | init with capacity 3 reports RB_OK and leaves an empty buffer |
| `Scenarios.FillPastCapacity` | test/test_ringbuffer.c:56-81 | init with capacity 5 reports RB_OK; not full after four writes, full after five, and the sixth write overwrites 1 |
| `Scenarios.ReadRefillDrain` | test/test_ringbuffer.c:84-117 | the read gives 2 and clears the full flag; after writing 7 and 8, reads give 4, 5, 6, 7, 8, then RB_ERR_EMPTY; all six successful reads report RB_OK |
| `Scenarios.OverwriteAndDrain` | test/test_ringbuffer.c:45-118 | the whole of test_ringbuffer: init with capacity 5 reports RB_OK; not full after four writes and full after the fifth; the six successful reads report RB_OK and give 2, 4, 5, 6, 7, 8; the buffer is not full after the first read; the last read reports RB_ERR_EMPTY |
| `Scenarios.BorrowFromEmpty` | test/test_ringbuffer.c:134-143 | init with capacity 3 reports RB_OK; both borrows on the empty buffer give NULL |
| `Scenarios.PeekAfterFirstWrite` | test/test_ringbuffer.c:145-154 | after writing 1, both peeks report RB_OK and give 1 |
| `Scenarios.BorrowAfterSecondWrite` | test/test_ringbuffer.c:156-165 | after writing 2, both borrows are non-null; the last slot holds 2, the first holds 1 |
| `Scenarios.PeekAfterThirdWrite` | test/test_ringbuffer.c:167-176 | after writing 3, both peeks report RB_OK; the last gives 3, the first 1 |
| `Scenarios.PeekAndBorrowAfterWrites` | test/test_ringbuffer.c:145-176 | after the writes 1, 2, 3: all four peeks report RB_OK and give 1, 1, then 3, 1; both borrows are non-null and give 2, 1 |
| `Scenarios.PeekAndBorrow` | test/test_ringbuffer.c:120-177 | the whole of test_ringbuffer_peek_borrow: init reports RB_OK; both borrows on the empty buffer give NULL; then the four peeks report RB_OK and give 1, 1, 3, 1, and the two borrows are non-null and give 2, 1 |
| `Scenarios.PrintAll` | ringbuffer_demo.c:4-6 | a callback that reports each element as-is prints exactly the contents |
| `Scenarios.DemoFill` | ringbuffer_demo.c:11-18 | capacity 3 holding 1, 2, 3 |
| `Scenarios.DemoGrow` | ringbuffer_demo.c:19-36 | resizing to 5 keeps 1, 2, 3; writing 4, 5, 6 leaves 2, 3, 4, 5, 6 |
| `Scenarios.DemoDrain` | ringbuffer_demo.c:38-47 | the three reads hand back 2, 3, 4 in `data`, and 5, 6 remain |
| `Scenarios.Demo` | ringbuffer_demo.c:9-52 | the printed lines are [1,2,3], [1,2,3], [2,3,4,5,6], [5,6], and the reads hand back 2, 3, 4 in `data` |
| `Scenarios.ResizeToOccupancyAsWritten` | ringbuffer.c:54 | two elements resized to capacity 2 as written leave `head == 2` on a two-slot array |
| `Scenarios.ResizeToOccupancy` | ringbuffer.c:31-59 | with the wrapped cursor, the same buffer is full, `head == 0`, a further write overwrites the oldest element, and a read gives 2 |
| `Scenarios.ResetAgain` | ringbuffer.c:21-25 | a reset of a buffer already reset (cursors 0, `is_full` clear, nothing readable) leaves `head`, `tail`, `is_full`, the contents, the array and the capacity as they were: reset is idempotent |
| `Scenarios.ResetTwice` | ringbuffer.c:21-25 | two resets from any valid state leave cursors 0, `is_full` clear and nothing readable, with the array and capacity untouched |

## Left out

- Allocation is the parameter `allocationSucceeds` of `Create` and `Resize`. Dafny's `new` does not fail, and memory exhaustion is outside the program.
- `ringbuffer_free` (ringbuffer.c:28) has no counterpart: Dafny has no explicit deallocation.
- `element_size` and the `memcpy` byte arithmetic are replaced by the element type `T` and array indexing.
- FirstBorrowed and LastBorrowed return a slot index rather than a pointer. The aliasing and lifetime of the borrowed pointer are not modelled.
- Print takes the callback as an optional function. The callback's side effects (`printf`) are represented only by the sequence of values it is called with.
- Scenarios: `printf` output in the demo and the tests is not modelled, and the cmocka test driver is left out.
- Scenarios.Demo: the demo's `Read:` lines are not modelled. Its guard `if (ringbuffer_read(...))` (ringbuffer_demo.c:41) is true only for an error status, since RB_OK is 0, so those lines would never appear; the model states only the values the reads hand back.
- Scenarios: the test's `struct demo_data` is modelled by its integer field `x`.
- RingBuffers.RingBuffer.Init: requires a positive capacity. With capacity 0, write (ringbuffer.c:68), print (ringbuffer.c:140-142) and resize (ringbuffer.c:40) divide by zero. Read, the peeks and the borrows on the fresh buffer would still report RB_ERR_EMPTY or NULL before any `%`, and `malloc(0)` may itself return NULL (RB_ERR_MEM); the model covers none of this.
- RingBuffers.RingBuffer.Create: requires a positive capacity, for the same reason as Init.
- RingBuffers.RingBuffer.Resize: requires a positive new capacity.
- RingBuffers.RingBuffer.Resize: also requires a new capacity no smaller than the occupancy. In C, shrinking below the occupancy copies past the end of the new block, which is undefined behaviour. This precondition applies even when the allocation fails, although in C that path returns RB_ERR_MEM safely.
- RingBuffers.RingBuffer.ResizeAsWritten: requires the same as Resize.
- RingBuffers.RingBuffer.Write: does not state the array slots outside the readable elements. Only the contents and cursors are specified.
- RB_ERR_CAPACITY (ringbuffer.h:7) is declared but never returned by any function, so no operation produces `ErrCapacity`.
- `size_t`: the cursors and capacity are unbounded naturals. The 64-bit wrap-around in the occupancy expression is modelled separately (`OccupancySizeT`), and shown harmless for capacities up to 2^63.
- RingIndex.OccupancySizeTAgrees: states the 64-bit case only. With a 32-bit `size_t` the same argument gives agreement for capacities up to 2^31, which is not stated.
- Concurrency: the C code has none, and none is modelled.

## Findings

| source | as written | input that shows it | evidently intended | confidence | as-written member | corrected member |
|---|---|---|---|---|---|---|
| ringbuffer.c:54 | `head = size` after the copy | capacity 3, write 1 and 2, resize to 2: `head == 2 == capacity`, so the next write stores at slot 2 of a two-slot array; and since `head != tail` while full, once every element is read the emptiness test still fails and reads never again report RB_ERR_EMPTY | `head` wraps to 0 when the copied elements fill the new array (`size % new_capacity`) | not executed | `RingBuffers.RingBuffer.ResizeAsWritten`, `Scenarios.ResizeToOccupancyAsWritten` | `RingBuffers.RingBuffer.Resize`, `Scenarios.ResizeToOccupancy` |
