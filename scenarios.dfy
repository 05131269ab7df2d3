/**
 * The unit tests of test/test_ringbuffer.c and the walk-through of
 * ringbuffer_demo.c, replayed against the specifications of the ring
 * buffer's operations. Elements are the `x` field of the tests'
 * `demo_data` records, or the demo's integers.
 */
module Scenarios {
  import opened RingQueue
  import opened RingBuffers

  /** A caller's loop of writes, as in ringbuffer_demo.c. */
  method WriteEach<T(0)>(rb: RingBuffer<T>, xs: seq<T>)
    requires rb.Valid()
    modifies rb`head, rb`tail, rb`isFull, rb`Contents, rb.buffer
    ensures rb.Valid() && rb.buffer == old(rb.buffer) && rb.capacity == old(rb.capacity)
    ensures rb.Contents == WriteAll(old(rb.Contents), rb.capacity, xs)
  {
    for i := 0 to |xs|
      invariant rb.Valid() && rb.buffer == old(rb.buffer) && rb.capacity == old(rb.capacity)
      invariant rb.Contents == WriteAll(old(rb.Contents), rb.capacity, xs[..i])
    {
      WriteAllSnoc(old(rb.Contents), rb.capacity, xs[..i], xs[i]);
      assert xs[..i + 1] == xs[..i] + [xs[i]];
      rb.Write(xs[i]);
    }
    assert xs[..|xs|] == xs;
  }

  /** `n` successive RB_OK results. */
  function Oks(n: nat): (r: seq<Status>)
    ensures |r| == n && forall i :: 0 <= i < n ==> r[i] == Ok
  {
    if n == 0 then [] else Oks(n - 1) + [Ok]
  }

  /** A caller's loop of `n` reads that all succeed, as in ringbuffer_demo.c. */
  method ReadEach<T(0)>(rb: RingBuffer<T>, n: nat) returns (statuses: seq<Status>, values: seq<T>)
    requires rb.Valid() && n <= |rb.Contents|
    modifies rb`tail, rb`isFull, rb`Contents
    ensures rb.Valid() && rb.buffer == old(rb.buffer) && rb.capacity == old(rb.capacity)
    ensures |statuses| == n && forall i :: 0 <= i < n ==> statuses[i] == Ok
    ensures values == old(rb.Contents)[..n]
    ensures rb.Contents == old(rb.Contents)[n..]
  {
    statuses, values := [], [];
    for i := 0 to n
      invariant rb.Valid() && rb.buffer == old(rb.buffer) && rb.capacity == old(rb.capacity)
      invariant statuses == Oks(i)
      invariant values == old(rb.Contents)[..i]
      invariant rb.Contents == old(rb.Contents)[i..]
    {
      ghost var before := rb.Contents;
      var status, x := rb.Read();
      assert status == Ok && x == before[0] && rb.Contents == before[1..];
      assert old(rb.Contents)[..i + 1] == values + [x];
      statuses, values := statuses + [status], values + [x];
    }
  }

  /** test_ringbuffer_creation: initialisation reports RB_OK and gives an empty buffer. */
  method Creation() returns (status: Status, size: nat, empty: bool)
    ensures status == Ok && size == 0 && empty
  {
    var rb: RingBuffer?<int>;
    status, rb := RingBuffer.Create(3, true);
    size := rb.Size();
    empty := rb.IsEmpty();
  }

  /**
   * First half of test_ringbuffer: capacity 5; the fifth write fills the
   * buffer and the sixth overwrites the first element.
   */
  method FillPastCapacity() returns (initStatus: Status, rb: RingBuffer<int>, fullAfterFour: bool, fullAfterFive: bool)
    ensures initStatus == Ok
    ensures fresh(rb) && fresh(rb.buffer) && rb.Valid() && rb.capacity == 5
    ensures !fullAfterFour && fullAfterFive
    ensures rb.Contents == [2, 3, 4, 5, 6]
  {
    var created: RingBuffer?<int>;
    initStatus, created := RingBuffer.Create(5, true);
    rb := created;
    WriteEach(rb, [1, 2, 3, 4]);
    WriteAllWithinCapacity([], 5, [1, 2, 3, 4]);
    fullAfterFour := rb.isFull;
    rb.Write(5);
    assert rb.Contents == [1, 2, 3, 4, 5];
    fullAfterFive := rb.isFull;
    rb.Write(6);
  }

  /**
   * Second half of test_ringbuffer: a read takes the oldest element and
   * clears the full flag, two more writes fill the buffer again, reads
   * come back oldest first, and the read after the last element reports
   * RB_ERR_EMPTY.
   */
  method ReadRefillDrain(rb: RingBuffer<int>)
    returns (okReads: seq<Status>, first: int, fullAfterRead: bool, drained: seq<int>, last: Status)
    requires rb.Valid() && rb.capacity == 5 && rb.Contents == [2, 3, 4, 5, 6]
    modifies rb`head, rb`tail, rb`isFull, rb`Contents, rb.buffer
    ensures okReads == [Ok, Ok, Ok, Ok, Ok, Ok]
    ensures first == 2 && !fullAfterRead
    ensures drained == [4, 5, 6, 7, 8]
    ensures last == ErrEmpty
  {
    var status;
    status, first := rb.Read();
    fullAfterRead := rb.isFull;
    WriteEach(rb, [7, 8]);
    WriteAllKeepsNewest([3, 4, 5, 6], 5, [7, 8]);
    assert [3, 4, 5, 6] + [7, 8] == [3, 4, 5, 6, 7, 8];
    var drainStatuses;
    drainStatuses, drained := ReadEach(rb, 5);
    okReads := [status] + drainStatuses;
    var x;
    last, x := rb.Read();
  }

  /** test_ringbuffer: the two halves in sequence. */
  method OverwriteAndDrain()
    returns (initStatus: Status, fullAfterFour: bool, fullAfterFive: bool, okReads: seq<Status>,
             first: int, fullAfterRead: bool, drained: seq<int>, last: Status)
    ensures initStatus == Ok
    ensures !fullAfterFour && fullAfterFive
    ensures okReads == [Ok, Ok, Ok, Ok, Ok, Ok]
    ensures first == 2 && !fullAfterRead
    ensures drained == [4, 5, 6, 7, 8]
    ensures last == ErrEmpty
  {
    var rb;
    initStatus, rb, fullAfterFour, fullAfterFive := FillPastCapacity();
    okReads, first, fullAfterRead, drained, last := ReadRefillDrain(rb);
  }

  /**
   * test_ringbuffer_peek_borrow, on the empty buffer: init reports RB_OK and
   * both borrows give NULL.
   */
  method BorrowFromEmpty()
    returns (initStatus: Status, rb: RingBuffer<int>, emptyLast: Option<nat>, emptyFirst: Option<nat>)
    ensures initStatus == Ok
    ensures fresh(rb) && fresh(rb.buffer) && rb.Valid() && rb.capacity == 3 && rb.Contents == []
    ensures emptyLast == None && emptyFirst == None
  {
    var created: RingBuffer?<int>;
    initStatus, created := RingBuffer.Create(3, true);
    rb := created;
    emptyLast := rb.LastBorrowed();
    emptyFirst := rb.FirstBorrowed();
  }

  /** test_ringbuffer_peek_borrow, after writing 1: both peeks succeed and see 1. */
  method PeekAfterFirstWrite(rb: RingBuffer<int>) returns (peekStatuses: seq<Status>, peeks: seq<int>)
    requires rb.Valid() && rb.capacity == 3 && rb.Contents == []
    modifies rb`head, rb`tail, rb`isFull, rb`Contents, rb.buffer
    ensures rb.Valid() && rb.Contents == [1]
    ensures peekStatuses == [Ok, Ok] && peeks == [1, 1]
  {
    rb.Write(1);
    var s1, last := rb.PeekLast();
    var s2, first := rb.PeekFirst();
    peekStatuses, peeks := [s1, s2], [last, first];
  }

  /**
   * test_ringbuffer_peek_borrow, after writing 2: both borrows are non-null,
   * the last slot holds 2 and the first holds 1.
   */
  method BorrowAfterSecondWrite(rb: RingBuffer<int>) returns (slots: seq<Option<nat>>, borrowed: seq<int>)
    requires rb.Valid() && rb.capacity == 3 && rb.Contents == [1]
    modifies rb`head, rb`tail, rb`isFull, rb`Contents, rb.buffer
    ensures rb.Valid() && rb.Contents == [1, 2]
    ensures |slots| == 2 && slots[0].Some? && slots[1].Some?
    ensures borrowed == [2, 1]
  {
    rb.Write(2);
    var slotLast := rb.LastBorrowed();
    var slotFirst := rb.FirstBorrowed();
    slots := [slotLast, slotFirst];
    borrowed := [rb.buffer[slotLast.value], rb.buffer[slotFirst.value]];
  }

  /** test_ringbuffer_peek_borrow, after writing 3: the last peek sees 3, the first still 1. */
  method PeekAfterThirdWrite(rb: RingBuffer<int>) returns (peekStatuses: seq<Status>, peeks: seq<int>)
    requires rb.Valid() && rb.capacity == 3 && rb.Contents == [1, 2]
    modifies rb`head, rb`tail, rb`isFull, rb`Contents, rb.buffer
    ensures peekStatuses == [Ok, Ok] && peeks == [3, 1]
  {
    rb.Write(3);
    var s1, last := rb.PeekLast();
    var s2, first := rb.PeekFirst();
    peekStatuses, peeks := [s1, s2], [last, first];
  }

  /**
   * test_ringbuffer_peek_borrow, after each of the writes 1, 2, 3: the first
   * element stays the oldest written and the last is the newest.
   */
  method PeekAndBorrowAfterWrites(rb: RingBuffer<int>)
    returns (peekStatuses: seq<Status>, peeks: seq<int>, slots: seq<Option<nat>>, borrowed: seq<int>)
    requires rb.Valid() && rb.capacity == 3 && rb.Contents == []
    modifies rb`head, rb`tail, rb`isFull, rb`Contents, rb.buffer
    ensures peekStatuses == [Ok, Ok, Ok, Ok]
    ensures peeks == [1, 1, 3, 1]
    ensures |slots| == 2 && slots[0].Some? && slots[1].Some?
    ensures borrowed == [2, 1]
  {
    var statusesA, peeksA := PeekAfterFirstWrite(rb);
    slots, borrowed := BorrowAfterSecondWrite(rb);
    var statusesB, peeksB := PeekAfterThirdWrite(rb);
    peekStatuses, peeks := statusesA + statusesB, peeksA + peeksB;
  }

  /** test_ringbuffer_peek_borrow: the two parts in sequence. */
  method PeekAndBorrow()
    returns (initStatus: Status, emptyLast: Option<nat>, emptyFirst: Option<nat>,
             peekStatuses: seq<Status>, peeks: seq<int>, slots: seq<Option<nat>>, borrowed: seq<int>)
    ensures initStatus == Ok
    ensures emptyLast == None && emptyFirst == None
    ensures peekStatuses == [Ok, Ok, Ok, Ok]
    ensures peeks == [1, 1, 3, 1]
    ensures |slots| == 2 && slots[0].Some? && slots[1].Some?
    ensures borrowed == [2, 1]
  {
    var rb;
    initStatus, rb, emptyLast, emptyFirst := BorrowFromEmpty();
    peekStatuses, peeks, slots, borrowed := PeekAndBorrowAfterWrites(rb);
  }

  /** A print callback that reports each element as it is: the printed output is the contents. */
  method PrintAll(rb: RingBuffer<int>) returns (printed: seq<int>)
    requires rb.Valid()
    ensures printed == rb.Contents
  {
    var status;
    status, printed := rb.Print(Some(x => x));
  }

  /** ringbuffer_demo.c, first part: capacity 3, writes 1, 2, 3. */
  method DemoFill() returns (rb: RingBuffer<int>)
    ensures fresh(rb) && fresh(rb.buffer) && rb.Valid() && rb.capacity == 3
    ensures rb.Contents == [1, 2, 3]
  {
    rb := new RingBuffer<int>.Init(3);
    WriteEach(rb, [1, 2, 3]);
    WriteAllWithinCapacity([], 3, [1, 2, 3]);
  }

  /**
   * ringbuffer_demo.c, second part: growing to 5 keeps 1, 2, 3 in order;
   * writing 4, 5, 6 then overwrites 1.
   */
  method DemoGrow(rb: RingBuffer<int>) returns (printed: seq<seq<int>>)
    requires rb.Valid() && rb.Contents == [1, 2, 3]
    modifies rb
    ensures rb.Valid() && fresh(rb.buffer) && rb.capacity == 5
    ensures rb.Contents == [2, 3, 4, 5, 6]
    ensures printed == [[1, 2, 3], [1, 2, 3], [2, 3, 4, 5, 6]]
  {
    var p1 := PrintAll(rb);
    var status := rb.Resize(5, true);
    var p2 := PrintAll(rb);
    WriteEach(rb, [4, 5, 6]);
    WriteAllKeepsNewest([1, 2, 3], 5, [4, 5, 6]);
    assert [1, 2, 3] + [4, 5, 6] == [1, 2, 3, 4, 5, 6];
    var p3 := PrintAll(rb);
    printed := [p1, p2, p3];
  }

  /** ringbuffer_demo.c, last part: three reads take 2, 3, 4 and leave 5, 6. */
  method DemoDrain(rb: RingBuffer<int>) returns (taken: seq<int>, printed: seq<int>)
    requires rb.Valid() && rb.Contents == [2, 3, 4, 5, 6]
    modifies rb`tail, rb`isFull, rb`Contents
    ensures taken == [2, 3, 4] && printed == [5, 6]
  {
    var statuses;
    statuses, taken := ReadEach(rb, 3);
    printed := PrintAll(rb);
  }

  /**
   * ringbuffer_demo.c: capacity 3 holding 1, 2, 3; growing to 5 keeps them;
   * writing 4, 5, 6 overwrites 1; three reads take 2, 3, 4. Each print lists
   * the elements oldest first.
   */
  method Demo() returns (printed: seq<seq<int>>, taken: seq<int>)
    ensures printed == [[1, 2, 3], [1, 2, 3], [2, 3, 4, 5, 6], [5, 6]]
    ensures taken == [2, 3, 4]
  {
    var rb := DemoFill();
    printed := DemoGrow(rb);
    var last;
    taken, last := DemoDrain(rb);
    printed := printed + [last];
  }

  /**
   * Resizing a buffer that holds two elements to capacity 2 with the resize
   * as written: the write cursor lands on slot 2 of a two-slot array.
   */
  method ResizeToOccupancyAsWritten() returns (head: nat, length: nat)
    ensures head == 2 && length == 2
  {
    var rb := new RingBuffer<int>.Init(3);
    rb.Write(1);
    rb.Write(2);
    rb.ResizeAsWritten(2);
    head, length := rb.head, rb.buffer.Length;
  }

  /** The same buffer resized with the wrapped write cursor stays usable and keeps its order. */
  method ResizeToOccupancy() returns (head: nat, full: bool, next: Status, oldest: int)
    ensures head == 0 && full
    ensures next == Ok && oldest == 2
  {
    var rb := new RingBuffer<int>.Init(3);
    rb.Write(1);
    rb.Write(2);
    var status := rb.Resize(2, true);
    head, full := rb.head, rb.isFull;
    rb.Write(3);
    assert rb.Contents == [2, 3];
    next, oldest := rb.Read();
  }

  /**
   * ringbuffer_reset on a buffer a reset has already emptied: nothing
   * changes, so resetting is idempotent.
   */
  method ResetAgain(rb: RingBuffer<int>)
    requires rb.Valid() && rb.head == 0 && rb.tail == 0 && !rb.isFull && rb.Contents == []
    modifies rb`head, rb`tail, rb`isFull, rb`Contents
    ensures rb.Valid() && rb.buffer == old(rb.buffer) && rb.capacity == old(rb.capacity)
    ensures rb.head == old(rb.head) && rb.tail == old(rb.tail)
    ensures rb.isFull == old(rb.isFull) && rb.Contents == old(rb.Contents)
  {
    rb.Reset();
  }

  /** ringbuffer_reset twice from any state: the second reset keeps what the first left. */
  method ResetTwice(rb: RingBuffer<int>)
    requires rb.Valid()
    modifies rb`head, rb`tail, rb`isFull, rb`Contents
    ensures rb.Valid() && rb.buffer == old(rb.buffer) && rb.capacity == old(rb.capacity)
    ensures rb.head == 0 && rb.tail == 0 && !rb.isFull && rb.Contents == []
  {
    rb.Reset();
    ResetAgain(rb);
  }
}
