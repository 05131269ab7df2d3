/**
 * The ring buffer of ringbuffer.c: a fixed array of slots with a write
 * cursor `head`, a read cursor `tail` and a full flag. The element type
 * is a type parameter in place of the C code's `element_size` and byte
 * copies.
 */
module RingBuffers {
  import opened RingIndex
  import opened RingQueue

  /** The `rb_status` codes of ringbuffer.h. */
  datatype Status = Ok | ErrMem | ErrEmpty | ErrCapacity | ErrInvalidCb
  {
    /**
     * The integer value of the C enumerator: RB_OK is zero and every error
     * is negative, so callers may test a status for nonzero.
     */
    function Code(): (c: int)
      ensures c <= 0
      ensures c == 0 <==> this == Ok
    {
      match this
      case Ok => 0
      case ErrMem => -1
      case ErrEmpty => -2
      case ErrCapacity => -3
      case ErrInvalidCb => -4
    }
  }

  datatype Option<T> = None | Some(value: T)

  class RingBuffer<T(0)> {
    var buffer: array<T>
    var capacity: nat
    /** Write cursor: the slot the next write stores into. */
    var head: nat
    /** Read cursor: the slot of the oldest readable element. */
    var tail: nat
    var isFull: bool
    /** The readable elements, oldest first. */
    ghost var Contents: seq<T>

    /** The state every operation starts from and keeps. */
    ghost predicate Valid()
      reads this, buffer
      ensures Valid() ==> |Contents| <= capacity && (|Contents| == capacity <==> isFull)
      ensures Valid() ==> (|Contents| == 0 <==> head == tail && !isFull)
    {
      && 0 < capacity
      && buffer.Length == capacity
      && head < capacity
      && tail < capacity
      && (isFull ==> head == tail)
      && Contents == Window(buffer[..], tail, Occupancy(capacity, head, tail, isFull))
    }

    /** Occupancy, computed as ringbuffer_resize and ringbuffer_print compute it. */
    function Size(): (n: nat)
      reads this, buffer
      requires Valid()
      ensures n == |Contents| && n <= capacity
      ensures n == capacity <==> isFull
    {
      Occupancy(capacity, head, tail, isFull)
    }

    /** The emptiness test that read, peek and borrow share. */
    predicate IsEmpty()
      reads this, buffer
      requires Valid()
      ensures IsEmpty() <==> Size() == 0
    {
      head == tail && !isFull
    }

    /** ringbuffer_init (its allocation succeeding): an empty buffer of the given capacity. */
    constructor Init(capacity: nat)
      requires 0 < capacity
      ensures Valid() && fresh(buffer)
      ensures this.capacity == capacity
      ensures head == 0 && tail == 0 && !isFull
      ensures Contents == []
    {
      buffer := new T[capacity];
      this.capacity := capacity;
      head, tail, isFull := 0, 0, false;
      Contents := [];
    }

    /**
     * ringbuffer_init with the outcome of its allocation as a parameter:
     * RB_ERR_MEM when it fails, otherwise RB_OK and an empty buffer.
     */
    static method Create(capacity: nat, allocationSucceeds: bool) returns (status: Status, rb: RingBuffer?<T>)
      requires 0 < capacity
      ensures status == if allocationSucceeds then Ok else ErrMem
      ensures status == ErrMem ==> rb == null
      ensures status == Ok ==> rb != null && fresh(rb) && fresh(rb.buffer) && rb.Valid()
      ensures status == Ok ==> rb.capacity == capacity && rb.Contents == []
      ensures status == Ok ==> rb.head == 0 && rb.tail == 0 && !rb.isFull
    {
      if !allocationSucceeds {
        return ErrMem, null;
      }
      rb := new RingBuffer<T>.Init(capacity);
      status := Ok;
    }

    /** ringbuffer_reset: forget every element; the slots and the capacity stay. */
    method Reset()
      requires Valid()
      modifies this`head, this`tail, this`isFull, this`Contents
      ensures Valid()
      ensures head == 0 && tail == 0 && !isFull
      ensures Contents == []
    {
      head, tail, isFull := 0, 0, false;
      Contents := [];
    }

    /**
     * ringbuffer_write: store at the write cursor and advance it; on a full
     * buffer also advance the read cursor, discarding the oldest element.
     */
    method Write(value: T)
      requires Valid()
      modifies this`head, this`tail, this`isFull, this`Contents, buffer
      ensures Valid() && buffer == old(buffer) && capacity == old(capacity)
      ensures head == Next(old(head), capacity)
      ensures tail == if old(isFull) then Next(old(tail), capacity) else old(tail)
      ensures isFull == (head == tail)
      ensures Size() == if old(isFull) then capacity else old(Size()) + 1
      ensures Contents == Pushed(old(Contents), capacity, value)
    {
      WriteStep(buffer[..], head, tail, isFull, value);
      buffer[head] := value;
      head := Next(head, capacity);
      if isFull {
        tail := Next(tail, capacity);
      }
      isFull := head == tail;
      Contents := Pushed(Contents, capacity, value);
    }

    /**
     * ringbuffer_read: on an empty buffer report RB_ERR_EMPTY and change
     * nothing; otherwise hand out the oldest element and advance the read
     * cursor, which always leaves the buffer not full.
     */
    method Read() returns (status: Status, value: T)
      requires Valid()
      modifies this`tail, this`isFull, this`Contents
      ensures Valid() && buffer == old(buffer) && capacity == old(capacity) && head == old(head)
      ensures status == if old(Size()) == 0 then ErrEmpty else Ok
      ensures status == ErrEmpty ==> tail == old(tail) && isFull == old(isFull)
      ensures status == Ok ==> tail == Next(old(tail), capacity) && !isFull
      ensures status == Ok ==> value == old(Contents)[0]
      ensures Contents == if status == Ok then old(Contents)[1..] else old(Contents)
    {
      if IsEmpty() {
        value := *;
        return ErrEmpty, value;
      }
      ReadStep(buffer[..], head, tail, isFull);
      WindowIndex(buffer[..], tail, Size(), 0);
      value := buffer[tail];
      tail := Next(tail, capacity);
      isFull := false;
      Contents := Contents[1..];
      status := Ok;
    }

    /** ringbuffer_peek_first: the oldest element, without consuming it. */
    method PeekFirst() returns (status: Status, value: T)
      requires Valid()
      ensures status == if Size() == 0 then ErrEmpty else Ok
      ensures status == Ok ==> value == Contents[0]
    {
      if IsEmpty() {
        value := *;
        return ErrEmpty, value;
      }
      WindowIndex(buffer[..], tail, Size(), 0);
      value := buffer[tail];
      status := Ok;
    }

    /** ringbuffer_peek_last: the newest element, without consuming it. */
    method PeekLast() returns (status: Status, value: T)
      requires Valid()
      ensures status == if Size() == 0 then ErrEmpty else Ok
      ensures status == Ok ==> value == Contents[|Contents| - 1]
      ensures status == Ok ==> value == buffer[Prev(head, capacity)]
    {
      if IsEmpty() {
        value := *;
        return ErrEmpty, value;
      }
      WindowLast(buffer[..], tail, Size());
      value := buffer[Prev(head, capacity)];
      status := Ok;
    }

    /**
     * ringbuffer_first_borrowed: the slot of the oldest element, in place of
     * a pointer into the storage; `None` in place of NULL.
     */
    method FirstBorrowed() returns (slot: Option<nat>)
      requires Valid()
      ensures slot.None? <==> Size() == 0
      ensures slot.Some? ==> slot.value < buffer.Length && buffer[slot.value] == Contents[0]
      ensures slot.Some? ==> slot.value == tail
    {
      if IsEmpty() {
        return None;
      }
      WindowIndex(buffer[..], tail, Size(), 0);
      slot := Some(tail);
    }

    /** ringbuffer_last_borrowed: the slot of the newest element, or `None` when empty. */
    method LastBorrowed() returns (slot: Option<nat>)
      requires Valid()
      ensures slot.None? <==> Size() == 0
      ensures slot.Some? ==>
                slot.value < buffer.Length && buffer[slot.value] == Contents[|Contents| - 1]
      ensures slot.Some? ==> slot.value == Prev(head, capacity)
    {
      if IsEmpty() {
        return None;
      }
      WindowLast(buffer[..], tail, Size());
      slot := Some(Prev(head, capacity));
    }

    /**
     * ringbuffer_print: without a callback report RB_ERR_INVALID_CB;
     * otherwise call it on every element, oldest first. The calls' effects
     * are represented by the sequence of their results.
     */
    method Print<R>(printFunc: Option<T -> R>) returns (status: Status, output: seq<R>)
      requires Valid()
      ensures status == if printFunc.None? then ErrInvalidCb else Ok
      ensures status == Ok ==> |output| == Size()
      ensures status == Ok ==> forall i :: 0 <= i < |output| ==> output[i] == printFunc.value(Contents[i])
      ensures status != Ok ==> output == []
    {
      var size := Size();
      if printFunc.None? {
        return ErrInvalidCb, [];
      }
      output := [];
      for i := 0 to size
        invariant |output| == i
        invariant forall k :: 0 <= k < i ==> output[k] == printFunc.value(Contents[k])
      {
        var index := Offset(tail, i, capacity);
        WindowIndex(buffer[..], tail, size, i);
        output := output + [printFunc.value(buffer[index])];
      }
      status := Ok;
    }

    /**
     * The allocation and copy of ringbuffer_resize: a fresh array of the new
     * capacity whose first `size` slots hold the elements, oldest first.
     */
    method CopyInOrder(newCapacity: nat) returns (newBuffer: array<T>, size: nat)
      requires Valid()
      requires Size() <= newCapacity
      ensures fresh(newBuffer) && newBuffer.Length == newCapacity
      ensures size == Size()
      ensures newBuffer[..size] == Contents
    {
      newBuffer := new T[newCapacity];
      size := Size();
      for i := 0 to size
        invariant forall k :: 0 <= k < i ==> newBuffer[k] == Contents[k]
      {
        var index := Offset(tail, i, capacity);
        WindowIndex(buffer[..], tail, size, i);
        newBuffer[i] := buffer[index];
      }
    }

    /**
     * ringbuffer_resize with the write cursor wrapped, and the outcome of its
     * allocation as a parameter. When the allocation fails: RB_ERR_MEM and
     * nothing changes. Otherwise the elements move to a new array of
     * `newCapacity` slots, oldest at slot 0, and stay readable in the same
     * order. Shrinking below the occupancy is excluded: the C loop would copy
     * past the end of the new block.
     */
    method Resize(newCapacity: nat, allocationSucceeds: bool) returns (status: Status)
      requires Valid()
      requires 0 < newCapacity && Size() <= newCapacity
      modifies this
      ensures Valid()
      ensures status == if allocationSucceeds then Ok else ErrMem
      ensures status == ErrMem ==>
        && buffer == old(buffer) && capacity == old(capacity)
        && head == old(head) && tail == old(tail) && isFull == old(isFull)
      ensures status == Ok ==> fresh(buffer) && capacity == newCapacity
      ensures status == Ok ==> tail == 0 && head == if old(Size()) < newCapacity then old(Size()) else 0
      ensures status == Ok ==> isFull == (old(Size()) == newCapacity)
      ensures Contents == old(Contents)
    {
      if !allocationSucceeds {
        return ErrMem;
      }
      var newBuffer, size := CopyInOrder(newCapacity);
      buffer := newBuffer;
      capacity := newCapacity;
      head := if size < newCapacity then size else 0;
      tail := 0;
      isFull := size == newCapacity;
      if !isFull {
        OccupancyFrom(capacity, head, tail, size);
      }
      WindowFromZero(buffer[..], size);
      status := Ok;
    }

    /**
     * ringbuffer_resize as written, with its allocation succeeding: the
     * write cursor becomes the occupancy.
     * The copy itself is right. Growing keeps the buffer valid, but resizing
     * to exactly the occupancy leaves `head == capacity`: the next write
     * stores one slot past the end of the array, and with `head != tail`
     * the emptiness test can no longer tell when every element is read.
     */
    method ResizeAsWritten(newCapacity: nat)
      requires Valid()
      requires 0 < newCapacity && Size() <= newCapacity
      modifies this
      ensures fresh(buffer) && capacity == newCapacity && buffer.Length == newCapacity
      ensures tail == 0 && head == old(Size())
      ensures isFull == (old(Size()) == newCapacity)
      ensures buffer[..old(Size())] == old(Contents)
      ensures old(Size()) < newCapacity ==> Valid() && Contents == old(Contents)
      ensures old(Size()) == newCapacity ==> !Valid() && head == buffer.Length && head != tail
    {
      var newBuffer, size := CopyInOrder(newCapacity);
      buffer := newBuffer;
      capacity := newCapacity;
      head := size;
      tail := 0;
      isFull := size == newCapacity;
      if !isFull {
        OccupancyFrom(capacity, head, tail, size);
        WindowFromZero(buffer[..], size);
      }
    }
  }
}
