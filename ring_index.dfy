/**
 * Index arithmetic of the ring buffer: advancing a cursor, stepping back
 * from the write cursor, the occupancy formula, and the logical window of
 * slots that starts at the read cursor.
 *
 * The definitions below wrap round with a comparison; the lemmas named
 * `...IsMod` show that they agree with the `%` expressions of the C code.
 */
module RingIndex {
  import opened RingQueue

  /** 2^64: the modulus of C's `size_t` on a 64-bit target. */
  const SizeTModulus: int := 0x1_0000_0000_0000_0000

  /** `x % m` for `x` below `2 * m`: at most one wrap. */
  lemma ModOnce(x: int, m: int)
    requires 0 < m && 0 <= x < 2 * m
    ensures x % m == if x < m then x else x - m
  {
  }

  /** The slot `k` steps after `start`, going round once at most. */
  function Offset(start: nat, k: nat, capacity: nat): (r: nat)
    requires start < capacity && k <= capacity
    ensures r < capacity
  {
    if start + k < capacity then start + k else start + k - capacity
  }

  /** `Offset` is the C code's `(start + k) % capacity`. */
  lemma OffsetIsMod(start: nat, k: nat, capacity: nat)
    requires start < capacity && k <= capacity
    ensures Offset(start, k, capacity) == (start + k) % capacity
  {
    ModOnce(start + k, capacity);
  }

  /** The cursor after `i`. */
  function Next(i: nat, capacity: nat): (r: nat)
    requires i < capacity
    ensures r < capacity
  {
    if i + 1 < capacity then i + 1 else 0
  }

  /** `Next` is the C code's `(i + 1) % capacity`. */
  lemma NextIsMod(i: nat, capacity: nat)
    requires i < capacity
    ensures Next(i, capacity) == (i + 1) % capacity
  {
    ModOnce(i + 1, capacity);
  }

  /** The slot before `i`, as in `i == 0 ? capacity - 1 : i - 1`. */
  function Prev(i: nat, capacity: nat): (r: nat)
    requires i < capacity
    ensures r < capacity
    ensures Next(r, capacity) == i
  {
    if i == 0 then capacity - 1 else i - 1
  }

  /**
   * Number of readable elements: the number of steps from the read cursor
   * to the write cursor, or the whole capacity when full.
   */
  function Occupancy(capacity: nat, head: nat, tail: nat, isFull: bool): (n: nat)
    requires head < capacity && tail < capacity
    requires isFull ==> head == tail
    ensures n <= capacity
    ensures isFull <==> n == capacity
    ensures n == 0 <==> head == tail && !isFull
    ensures Offset(tail, n, capacity) == head
  {
    if isFull then capacity else if tail <= head then head - tail else head + capacity - tail
  }

  /**
   * `Occupancy` is the C code's `is_full ? capacity
   * : (head - tail + capacity) % capacity`, read over the integers.
   */
  lemma OccupancyIsMod(capacity: nat, head: nat, tail: nat, isFull: bool)
    requires head < capacity && tail < capacity
    requires isFull ==> head == tail
    ensures Occupancy(capacity, head, tail, isFull)
         == if isFull then capacity else (head - tail + capacity) % capacity
  {
    ModOnce(head - tail + capacity, capacity);
  }

  /** The occupancy of a non-full buffer is the only distance from tail to head below capacity. */
  lemma OccupancyFrom(capacity: nat, head: nat, tail: nat, n: nat)
    requires head < capacity && tail < capacity && n < capacity
    requires Offset(tail, n, capacity) == head
    ensures Occupancy(capacity, head, tail, false) == n
  {
  }

  /** `a - b` in `size_t`: wraps modulo 2^64. */
  function SizeTSub(a: nat, b: nat): (r: nat)
    requires a < SizeTModulus && b < SizeTModulus
    ensures r < SizeTModulus
    ensures b <= a ==> r == a - b
    ensures a < b ==> r == SizeTModulus - (b - a)
  {
    (a - b) % SizeTModulus
  }

  /** `a + b` in `size_t`: wraps modulo 2^64. */
  function SizeTAdd(a: nat, b: nat): (r: nat)
    requires a < SizeTModulus && b < SizeTModulus
    ensures r < SizeTModulus
    ensures a + b < SizeTModulus ==> r == a + b
    ensures SizeTModulus <= a + b ==> r == a + b - SizeTModulus
  {
    ModOnce(a + b, SizeTModulus);
    (a + b) % SizeTModulus
  }

  /** The occupancy expression as the C code evaluates it, in unsigned 64-bit arithmetic. */
  function OccupancySizeT(capacity: nat, head: nat, tail: nat, isFull: bool): (n: nat)
    requires 0 < capacity < SizeTModulus
    requires head < capacity && tail < capacity
    ensures n <= capacity
    ensures isFull ==> n == capacity
  {
    if isFull then capacity else SizeTAdd(SizeTSub(head, tail), capacity) % capacity
  }

  /**
   * The unsigned expression never wraps to a wrong value while the capacity is
   * at most 2^63: it agrees with the mathematical occupancy.
   */
  lemma {:induction false} OccupancySizeTAgrees(capacity: nat, head: nat, tail: nat, isFull: bool)
    requires 0 < capacity <= SizeTModulus / 2
    requires head < capacity && tail < capacity
    requires isFull ==> head == tail
    ensures OccupancySizeT(capacity, head, tail, isFull) == Occupancy(capacity, head, tail, isFull)
  {
    OccupancyIsMod(capacity, head, tail, isFull);
    if !isFull && head < tail {
      var d := SizeTSub(head, tail);
      assert d == SizeTModulus - (tail - head);
      assert SizeTModulus <= d + capacity;
      assert SizeTAdd(d, capacity) == head - tail + capacity;
    }
  }

  /**
   * The logical contents: `n` slots of `data`, oldest first, starting at
   * `start` and advancing by one, round the end, through the capacity `|data|`.
   */
  function Window<T>(data: seq<T>, start: nat, n: nat): (w: seq<T>)
    requires start < |data| && n <= |data|
    ensures |w| == n
  {
    if n == 0 then [] else Window(data, start, n - 1) + [data[Offset(start, n - 1, |data|)]]
  }

  /** Element `i` of a window is the slot `i` steps after its start. */
  lemma {:induction false} WindowIndex<T>(data: seq<T>, start: nat, n: nat, i: nat)
    requires start < |data| && n <= |data| && i < n
    ensures Window(data, start, n)[i] == data[Offset(start, i, |data|)]
    decreases n
  {
    if i < n - 1 {
      WindowIndex(data, start, n - 1, i);
    }
  }

  /** Two windows agree when they agree slot by slot. */
  lemma WindowEq<T>(data: seq<T>, start: nat, n: nat, w: seq<T>)
    requires start < |data| && n <= |data| && |w| == n
    requires forall i :: 0 <= i < n ==> w[i] == data[Offset(start, i, |data|)]
    ensures Window(data, start, n) == w
  {
    forall i | 0 <= i < n
      ensures Window(data, start, n)[i] == w[i]
    {
      WindowIndex(data, start, n, i);
    }
  }

  /** Element `i` of a window is the slot the C loops address as `(start + i) % capacity`. */
  lemma WindowAt<T>(data: seq<T>, start: nat, n: nat, i: nat)
    requires start < |data| && n <= |data| && i < n
    ensures Window(data, start, n)[i] == data[(start + i) % |data|]
  {
    WindowIndex(data, start, n, i);
    OffsetIsMod(start, i, |data|);
  }

  /** Dropping the oldest element of a window is the window one slot further on. */
  lemma WindowDropFirst<T>(data: seq<T>, start: nat, n: nat)
    requires start < |data| && 0 < n <= |data|
    ensures Window(data, start, n)[1..] == Window(data, Next(start, |data|), n - 1)
  {
    var L := |data|;
    var w := Window(data, start, n)[1..];
    forall i | 0 <= i < n - 1
      ensures w[i] == data[Offset(Next(start, L), i, L)]
    {
      WindowIndex(data, start, n, i + 1);
    }
    WindowEq(data, Next(start, L), n - 1, w);
  }

  /** Storing into a slot outside a window leaves the window as it was. */
  lemma {:induction false} WindowFrame<T>(data: seq<T>, start: nat, n: nat, j: nat, v: T)
    requires start < |data| && n <= |data| && j < |data|
    requires forall i :: 0 <= i < n ==> Offset(start, i, |data|) != j
    ensures Window(data[j := v], start, n) == Window(data, start, n)
    decreases n
  {
    if n > 0 {
      WindowFrame(data, start, n - 1, j, v);
    }
  }

  /**
   * Storing `v` in the slot just past a window that does not fill the
   * buffer leaves the window as it was and extends it by `v`.
   */
  lemma WindowStorePast<T>(data: seq<T>, start: nat, n: nat, v: T)
    requires start < |data| && n < |data|
    ensures Window(data[Offset(start, n, |data|) := v], start, n + 1) == Window(data, start, n) + [v]
  {
    WindowFrame(data, start, n, Offset(start, n, |data|), v);
  }

  /**
   * Storing `v` at the start of a window that fills the buffer and moving
   * the start one slot on drops the oldest element and appends `v`.
   */
  lemma WindowOverwriteOldest<T>(data: seq<T>, start: nat, v: T)
    requires start < |data|
    ensures Window(data[start := v], Next(start, |data|), |data|)
         == Window(data, start, |data|)[1..] + [v]
  {
    var L := |data|;
    var old_ := Window(data, start, L);
    var w := old_[1..] + [v];
    forall i | 0 <= i < L
      ensures w[i] == data[start := v][Offset(Next(start, L), i, L)]
    {
      var slot := Offset(Next(start, L), i, L);
      if i < L - 1 {
        WindowIndex(data, start, L, i + 1);
        assert slot == Offset(start, i + 1, L) && slot != start;
        assert w[i] == old_[i + 1];
      } else {
        assert slot == start;
      }
    }
    WindowEq(data[start := v], Next(start, L), L, w);
  }

  /** The newest element of a non-empty window sits just before the slot past its end. */
  lemma WindowLast<T>(data: seq<T>, start: nat, n: nat)
    requires start < |data| && 0 < n <= |data|
    ensures Window(data, start, n)[n - 1] == data[Prev(Offset(start, n, |data|), |data|)]
  {
    WindowIndex(data, start, n, n - 1);
  }

  /** A window that starts at slot 0 is a prefix of the data. */
  lemma WindowFromZero<T>(data: seq<T>, n: nat)
    requires 0 < |data| && n <= |data|
    ensures Window(data, 0, n) == data[..n]
  {
    WindowEq(data, 0, n, data[..n]);
  }

  /**
   * One write, on the cursors and the slots: store `v` at `head`, advance
   * `head`, advance `tail` too when full, and recompute the full flag. The
   * readable elements become those of the queue after pushing `v`.
   */
  lemma {:induction false} WriteStep<T>(data: seq<T>, head: nat, tail: nat, isFull: bool, v: T)
    requires head < |data| && tail < |data|
    requires isFull ==> head == tail
    ensures var L := |data|;
            var head', tail' := Next(head, L), if isFull then Next(tail, L) else tail;
            var n' := Occupancy(L, head', tail', head' == tail');
            && n' == (if isFull then L else Occupancy(L, head, tail, isFull) + 1)
            && Window(data[head := v], tail', n') == Pushed(Window(data, tail, Occupancy(L, head, tail, isFull)), L, v)
  {
    var L := |data|;
    var n := Occupancy(L, head, tail, isFull);
    var head', tail' := Next(head, L), if isFull then Next(tail, L) else tail;
    if isFull {
      WindowOverwriteOldest(data, tail, v);
    } else {
      if head' != tail' {
        OccupancyFrom(L, head', tail', n + 1);
      }
      WindowStorePast(data, tail, n, v);
    }
  }

  /**
   * One read of a non-empty buffer, on the cursors: advance `tail` and clear
   * the full flag. The oldest element leaves the window.
   */
  lemma {:induction false} ReadStep<T>(data: seq<T>, head: nat, tail: nat, isFull: bool)
    requires head < |data| && tail < |data|
    requires isFull ==> head == tail
    requires Occupancy(|data|, head, tail, isFull) > 0
    ensures var L := |data|;
            var n := Occupancy(L, head, tail, isFull);
            && Occupancy(L, head, Next(tail, L), false) == n - 1
            && Window(data, Next(tail, L), n - 1) == Window(data, tail, n)[1..]
  {
    var L := |data|;
    var n := Occupancy(L, head, tail, isFull);
    OccupancyFrom(L, head, Next(tail, L), n - 1);
    WindowDropFirst(data, tail, n);
  }
}
