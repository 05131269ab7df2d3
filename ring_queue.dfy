/**
 * What the ring buffer holds, seen as a bounded queue of its readable
 * elements, oldest first: a write appends and, on a full buffer, first
 * drops the oldest element; a read removes the oldest element.
 */
module RingQueue {

  function Max(a: int, b: int): (m: int) { if a < b then b else a }

  /** The queue after writing `v`: on a full queue the oldest element makes room. */
  function Pushed<T>(q: seq<T>, capacity: nat, v: T): (r: seq<T>)
    requires 0 < capacity && |q| <= capacity
    ensures |r| == if |q| == capacity then capacity else |q| + 1
  {
    if |q| == capacity then q[1..] + [v] else q + [v]
  }

  /** A write keeps the newest `capacity` (at most) elements of `q + [v]`. */
  lemma PushedKeepsNewest<T>(q: seq<T>, capacity: nat, v: T)
    requires 0 < capacity && |q| <= capacity
    ensures Pushed(q, capacity, v) == (q + [v])[Max(0, |q| + 1 - capacity)..]
  {
  }

  /** The queue after writing every element of `xs` in turn. */
  function WriteAll<T>(q: seq<T>, capacity: nat, xs: seq<T>): (r: seq<T>)
    requires 0 < capacity && |q| <= capacity
    ensures |r| <= capacity
    decreases |xs|
  {
    if xs == [] then q else WriteAll(Pushed(q, capacity, xs[0]), capacity, xs[1..])
  }

  /**
   * Overwrite policy over many writes: the queue keeps exactly the newest
   * `capacity` elements of everything it held and everything written.
   */
  lemma {:induction false} WriteAllKeepsNewest<T>(q: seq<T>, capacity: nat, xs: seq<T>)
    requires 0 < capacity && |q| <= capacity
    ensures WriteAll(q, capacity, xs) == (q + xs)[Max(0, |q| + |xs| - capacity)..]
    decreases |xs|
  {
    if xs != [] {
      var q' := Pushed(q, capacity, xs[0]);
      WriteAllKeepsNewest(q', capacity, xs[1..]);
      var d := Max(0, |q| + 1 - capacity);
      PushedKeepsNewest(q, capacity, xs[0]);
      assert q' + xs[1..] == (q + xs)[d..] by {
        assert q + xs == (q + [xs[0]]) + xs[1..];
      }
    }
  }

  /** FIFO: writes that fit are kept in the order they were made, and nothing is lost. */
  lemma WriteAllWithinCapacity<T>(q: seq<T>, capacity: nat, xs: seq<T>)
    requires 0 < capacity && |q| + |xs| <= capacity
    ensures WriteAll(q, capacity, xs) == q + xs
  {
    WriteAllKeepsNewest(q, capacity, xs);
  }

  /** Writing `xs` and then `x` is writing `xs + [x]`. */
  lemma {:induction false} WriteAllSnoc<T>(q: seq<T>, capacity: nat, xs: seq<T>, x: T)
    requires 0 < capacity && |q| <= capacity
    ensures WriteAll(q, capacity, xs + [x]) == Pushed(WriteAll(q, capacity, xs), capacity, x)
    decreases |xs|
  {
    if xs == [] {
      assert xs + [x] == [x];
    } else {
      assert (xs + [x])[1..] == xs[1..] + [x];
      WriteAllSnoc(Pushed(q, capacity, xs[0]), capacity, xs[1..], x);
    }
  }
}
