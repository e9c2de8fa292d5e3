/** The ring-buffer event queue of WebUDP. Items are stored in `items` from
    `start` on, wrapping at `capacity`; a push onto a full queue moves them
    into an array half as large again, unwrapped to start at 0. */
module WuQueue {
  import opened Wrappers

  /** For 0 <= x < 2 * n the remainder is a single conditional subtraction. */
  lemma ModBelowTwice(x: int, n: int)
    requires n > 0 && 0 <= x < 2 * n
    ensures x % n == if x < n then x else x - n
  {
    if x < n {
      assert x == 0 * n + x;
    } else {
      assert x == 1 * n + (x - n);
    }
  }

  /** Capacity after growth: capacity * 1.5, truncated to an integer. */
  function GrownCapacity(capacity: nat): (r: nat)
    ensures capacity >= 2 ==> r > capacity
    ensures 2 * r <= 3 * capacity < 2 * r + 2
  {
    capacity + capacity / 2
  }

  /** The n items of a ring over a that start at index start. */
  ghost function RingView<T>(a: seq<T>, start: nat, n: nat): (s: seq<T>)
    requires |a| > 0 && n <= |a|
    ensures |s| == n
  {
    seq(n, i requires 0 <= i < n => a[(start + i) % |a|])
  }

  class Queue<T(0)> {
    var start: nat
    var length: nat
    var capacity: nat
    var items: array<T>

    ghost predicate Valid()
      reads this
    {
      items.Length == capacity && capacity >= 2 && start < capacity && length <= capacity
    }

    /** The queued items, oldest first. */
    ghost function Contents(): (s: seq<T>)
      reads this, items
      requires Valid()
      ensures |s| == length
    {
      RingView(items[..], start, length)
    }

    /** WuQueueFull: 1 iff every slot is taken. */
    function Full(): (r: int)
      reads this
      ensures r == 1 <==> length == capacity
      ensures r == 0 || r == 1
    {
      if length == capacity then 1 else 0
    }

    /** WuQueueInit: an empty queue with the given capacity. The growth rule
        needs capacity >= 2 to make room. */
    constructor Init(capacity: nat)
      requires capacity >= 2
      ensures Valid() && fresh(items)
      ensures this.capacity == capacity && start == 0 && Contents() == []
    {
      start := 0;
      length := 0;
      this.capacity := capacity;
      items := new T[capacity];
    }

    /** The full-queue branch of WuQueuePush: copies the upper run
        items[start..] and then the lower run items[..start] into a larger
        array, so the items keep their order from index 0. */
    method Grow()
      requires Valid() && length == capacity
      modifies this
      ensures Valid() && fresh(items)
      ensures capacity == GrownCapacity(old(capacity)) && start == 0
      ensures length == old(length) && Contents() == old(Contents())
    {
      var newCap := GrownCapacity(capacity);
      var newItems := new T[newCap];
      var nUpper := length - start;
      var nLower := length - nUpper;
      for j := 0 to nUpper
        modifies newItems
        invariant forall k :: 0 <= k < j ==> newItems[k] == items[start + k]
      {
        newItems[j] := items[start + j];
      }
      for j := 0 to nLower
        modifies newItems
        invariant forall k :: 0 <= k < nUpper ==> newItems[k] == items[start + k]
        invariant forall k :: 0 <= k < j ==> newItems[nUpper + k] == items[k]
      {
        newItems[nUpper + j] := items[j];
      }
      ghost var before := Contents();
      forall k | 0 <= k < length ensures newItems[k] == before[k] {
        ModBelowTwice(start + k, capacity);
      }
      start := 0;
      capacity := newCap;
      items := newItems;
      forall k | 0 <= k < length ensures Contents()[k] == before[k] {
        ModBelowTwice(k, capacity);
      }
    }

    /** WuQueuePush: appends x, first growing a full queue. */
    method Push(x: T)
      requires Valid()
      modifies this, items
      ensures Valid()
      ensures Contents() == old(Contents()) + [x]
      ensures old(length) == old(capacity) ==>
        fresh(items) && capacity == GrownCapacity(old(capacity)) && start == 0
      ensures old(length) < old(capacity) ==>
        items == old(items) && capacity == old(capacity) && start == old(start)
    {
      if Full() == 1 {
        Grow();
      }
      ghost var before := Contents();
      var insertIdx := (start + length) % capacity;
      ModBelowTwice(start + length, capacity);
      items[insertIdx] := x;
      length := length + 1;
      forall k | 0 <= k < length ensures Contents()[k] == (before + [x])[k] {
        ModBelowTwice(start + k, capacity);
      }
    }

    /** WuQueuePop: removes and returns the oldest item, or returns nothing
        (and changes nothing) when the queue is empty. */
    method Pop() returns (item: Option<T>)
      requires Valid()
      modifies this`start, this`length
      ensures Valid()
      ensures old(length) > 0 ==>
        item == Some(old(Contents())[0]) && Contents() == old(Contents())[1..]
      ensures old(length) == 0 ==>
        item == None && start == old(start) && length == 0
    {
      if length > 0 {
        ghost var before := Contents();
        item := Some(items[start]);
        ModBelowTwice(start, capacity);
        ModBelowTwice(start + 1, capacity);
        start := (start + 1) % capacity;
        length := length - 1;
        forall k | 0 <= k < length ensures Contents()[k] == before[k + 1] {
          ModBelowTwice(old(start) + k + 1, capacity);
          ModBelowTwice(start + k, capacity);
        }
        return;
      }
      return None;
    }
  }
}
