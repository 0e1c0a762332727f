/** The single-producer queue: a drop-oldest circular buffer read through
    consumers that each keep their own head. */
module SpmcQueue {
  import opened Words

  datatype Item<T> = Item(timestamp: U64, data: T)

  /** What a buffer of `n` slots retains: the last `n` items, oldest first. */
  function Window<T>(items: seq<T>, n: nat): (w: seq<T>)
    ensures |w| == if |items| <= n then |items| else n
  {
    if |items| <= n then items else items[|items| - n..]
  }

  lemma WindowKeepsLast<T>(items: seq<T>, n: nat, i: nat)
    requires i < |Window(items, n)|
    ensures Window(items, n)[i] == items[|items| - |Window(items, n)| + i]
  {
  }

  /** What a pop at `head` returns; a zero timestamp reads as an empty slot. */
  function PopAt<T>(items: seq<Item<T>>, n: nat, head: nat): Option<Item<T>>
    requires n > 0
  {
    if head >= |items| then None else
      var slot := Window(items, n)[SlotIndex(|items|, n, head)];
      if slot.timestamp != 0 then Some(slot) else None
  }

  function SlotIndex(tail: nat, n: nat, head: nat): (i: nat)
    requires n > 0 && head < tail
    ensures i < n && i < tail && i == head % n
  {
    if head < n then DivModUnique(head, n, 0, head); head % n else head % n
  }

  /** The slots of `count` consecutive positions, empty ones skipped. */
  function Batch<T>(items: seq<Item<T>>, n: nat, head: nat, count: nat): seq<Item<T>>
    requires n > 0 && (count > 0 ==> head + count <= |items|)
  {
    if count == 0 then [] else
      var rest := Batch(items, n, head, count - 1);
      var slot := Window(items, n)[SlotIndex(|items|, n, head + count - 1)];
      if slot.timestamp != 0 then rest + [slot] else rest
  }

  class Queue<T> {
    const capacity: nat
    ghost const exponent: nat
    var tail: nat
    // CircularBuffer contents, front first.
    var buffer: seq<Item<T>>
    ghost var pushed: seq<Item<T>>

    ghost predicate Valid()
      reads this
    {
      && capacity == Pow2(exponent) && capacity <= U64_MAX
      && tail == |pushed| && buffer == Window(pushed, capacity)
    }

    constructor (ghost exponent: nat, capacity: nat)
      requires capacity == Pow2(exponent) && capacity <= U64_MAX
      ensures Valid() && this.capacity == capacity && pushed == []
    {
      this.exponent, this.capacity := exponent, capacity;
      tail, buffer, pushed := 0, [], [];
    }

    method Push(data: T, now: U64)
      requires Valid()
      modifies this
      ensures Valid() && pushed == old(pushed) + [Item(now, data)]
    {
      var item := Item(now, data);
      buffer := if |buffer| == capacity then buffer[1..] + [item] else buffer + [item];
      tail := tail + 1;
      pushed := pushed + [item];
    }
  }

  class Consumer<T> {
    const queue: Queue<T>
    var head: nat

    constructor (queue: Queue<T>)
      ensures this.queue == queue && head == 0
    {
      this.queue, head := queue, 0;
    }

    method PopInner(consume: bool) returns (r: Option<Item<T>>)
      requires queue.Valid()
      modifies this
      ensures r == PopAt(queue.pushed, queue.capacity, old(head))
      ensures head == old(head) + if consume && r.Some? then 1 else 0
      ensures r.None? <==>
        || old(head) >= queue.tail
        || queue.buffer[SlotIndex(queue.tail, queue.capacity, old(head))].timestamp == 0
      ensures r.Some? ==> r.value == queue.buffer[SlotIndex(queue.tail, queue.capacity, old(head))]
    {
      if head >= queue.tail {
        return None;
      }
      var index := BitAnd(head, queue.capacity - 1);
      MaskIsModulo(head, queue.exponent);
      ghost var i := SlotIndex(queue.tail, queue.capacity, head);
      var slot := queue.buffer[index];
      r := if slot.timestamp != 0 then Some(slot) else None;
      if consume && r.Some? {
        head := head + 1;
      }
    }

    /** Up to `maxCount` items at once. With no empty slot among them they are
        the next single pops, as many as asked for, as fit in the buffer, or as
        are left, whichever is least. */
    method PopBatch(maxCount: nat) returns (r: seq<Item<T>>)
      requires queue.Valid()
      modifies this
      ensures head == old(head) + |r|
      ensures queue.tail <= old(head) ==> r == []
      ensures old(head) < queue.tail ==>
        exists count: nat :: LeastOf(count, maxCount, queue.capacity, queue.tail - old(head))
                             && r == Batch(queue.pushed, queue.capacity, old(head), count)
      ensures Stamped(queue.pushed) && old(head) <= queue.tail ==>
        && LeastOf(|r|, maxCount, queue.capacity, queue.tail - old(head))
        && |r| <= |PopAll(queue.pushed, queue.capacity, old(head))|
        && r == PopAll(queue.pushed, queue.capacity, old(head))[..|r|]
    {
      var available := if queue.tail < head then 0 else queue.tail - head;
      if queue.capacity < available {
        available := queue.capacity;
      }
      var count := if available < maxCount then available else maxCount;
      r := [];
      for i := 0 to count
        invariant head == old(head)
        invariant r == Batch(queue.pushed, queue.capacity, head, i)
      {
        var index := BitAnd(head + i, queue.capacity - 1);
        MaskIsModulo(head + i, queue.exponent);
        ghost var j := SlotIndex(queue.tail, queue.capacity, head + i);
        var slot := queue.buffer[index];
        if slot.timestamp != 0 {
          r := r + [slot];
        }
      }
      if Stamped(queue.pushed) && head <= queue.tail {
        BatchIsPops(queue.pushed, queue.capacity, head, count);
      }
      assert head < queue.tail ==> LeastOf(count, maxCount, queue.capacity, queue.tail - head);
      head := head + |r|;
    }

    /** All there is: for a consumer that has read nothing yet, what the buffer
        retains, oldest first. */
    method Drain() returns (r: seq<Item<T>>)
      requires queue.Valid()
      modifies this
      ensures head == old(head) + |r|
      ensures Stamped(queue.pushed) && old(head) <= queue.tail ==>
        && LeastOf(|r|, queue.capacity, queue.capacity, queue.tail - old(head))
        && |r| <= |PopAll(queue.pushed, queue.capacity, old(head))|
        && r == PopAll(queue.pushed, queue.capacity, old(head))[..|r|]
      ensures Stamped(queue.pushed) && old(head) == 0 ==> r == Window(queue.pushed, queue.capacity)
    {
      r := PopBatch(U64_MAX);
      if Stamped(queue.pushed) && old(head) == 0 {
        BatchIsPops(queue.pushed, queue.capacity, 0, |r|);
        DrainIsTheWindow(queue.pushed, queue.capacity);
      }
    }
  }

  ghost predicate LeastOf(r: int, a: int, b: int, c: int)
  {
    r <= a && r <= b && r <= c && (r == a || r == b || r == c)
  }

  // ------------------------------------------------------------- properties

  ghost predicate Stamped<T>(items: seq<Item<T>>)
  {
    forall i :: 0 <= i < |items| ==> items[i].timestamp != 0
  }

  /** Everything a consumer at `head` gets by popping until it gets nothing. */
  function PopAll<T>(items: seq<Item<T>>, n: nat, head: nat): seq<Item<T>>
    requires n > 0
    decreases |items| - head
  {
    var p := PopAt(items, n, head);
    if p.None? then [] else [p.value] + PopAll(items, n, head + 1)
  }

  /** A fresh consumer's pops walk the window round and round, and exactly as
      many succeed as items were ever pushed. */
  lemma {:induction false} PopsCycleTheWindow<T>(items: seq<Item<T>>, n: nat, head: nat)
    requires n > 0 && Stamped(items) && head <= |items|
    ensures |PopAll(items, n, head)| == |items| - head
    ensures forall k :: 0 <= k < |items| - head ==>
      PopAll(items, n, head)[k] == Window(items, n)[SlotIndex(|items|, n, head + k)]
    decreases |items| - head
  {
    if head < |items| {
      PopsCycleTheWindow(items, n, head + 1);
      var rest := PopAll(items, n, head + 1);
      assert PopAll(items, n, head) == [Window(items, n)[SlotIndex(|items|, n, head)]] + rest;
      forall k | 0 <= k < |items| - head
        ensures PopAll(items, n, head)[k] == Window(items, n)[SlotIndex(|items|, n, head + k)]
      {
        if k > 0 { assert rest[k - 1] == Window(items, n)[SlotIndex(|items|, n, (head + 1) + (k - 1))]; }
      }
    }
  }

  /** A batch is that many single pops. */
  lemma {:induction false} BatchIsPops<T>(items: seq<Item<T>>, n: nat, head: nat, count: nat)
    requires n > 0 && Stamped(items) && head + count <= |items|
    ensures |PopAll(items, n, head)| >= count && Batch(items, n, head, count) == PopAll(items, n, head)[..count]
    decreases count
  {
    PopsCycleTheWindow(items, n, head);
    if count == 0 {
    } else {
      BatchIsPops(items, n, head, count - 1);
      assert PopAll(items, n, head)[..count] ==
             PopAll(items, n, head)[..count - 1] + [PopAll(items, n, head)[count - 1]];
    }
  }

  /** A fresh consumer's drain is the window: the last `n` items, oldest first. */
  lemma DrainIsTheWindow<T>(items: seq<Item<T>>, n: nat)
    requires n > 0 && Stamped(items)
    ensures Batch(items, n, 0, |Window(items, n)|) == Window(items, n)
  {
    var w := Window(items, n);
    BatchIsPops(items, n, 0, |w|);
    PopsCycleTheWindow(items, n, 0);
    forall k | 0 <= k < |w| ensures Batch(items, n, 0, |w|)[k] == w[k] {
      DivModUnique(k, n, 0, k);
    }
  }

  /** The items that carry a timestamp, in order. */
  function StampedOnly<T>(items: seq<Item<T>>): seq<Item<T>>
  {
    if items == [] then [] else
      var n := |items| - 1;
      StampedOnly(items[..n]) + if items[n].timestamp == 0 then [] else [items[n]]
  }

  /** An item with timestamp zero reads as an empty slot. A batch steps over
      it; single pops get everything before it and then nothing more. */
  lemma {:induction false} BatchStepsOver<T>(items: seq<Item<T>>, n: nat, count: nat)
    requires count <= |items| <= n && n > 0
    ensures Batch(items, n, 0, count) == StampedOnly(items[..count])
    decreases count
  {
    if count == 0 {
    } else {
      BatchStepsOver(items, n, count - 1);
      assert items[..count][..count - 1] == items[..count - 1];
      DivModUnique(count - 1, n, 0, count - 1);
    }
  }

  lemma {:induction false} PopsStopAt<T>(items: seq<Item<T>>, n: nat, head: nat, zero: nat)
    requires head <= zero < |items| <= n && items[zero].timestamp == 0
    requires forall i :: head <= i < zero ==> items[i].timestamp != 0
    ensures PopAll(items, n, head) == items[head..zero]
    decreases zero - head
  {
    DivModUnique(head, n, 0, head);
    if head == zero {
    } else {
      PopsStopAt(items, n, head + 1, zero);
      assert items[head..zero] == [items[head]] + items[head + 1..zero];
    }
  }

  ghost predicate DeliversOnceInOrder<T>(items: seq<Item<T>>, n: nat)
    requires n > 0
  {
    PopAll(items, n, 0) == items
  }

  /** Popping delivers every item once, in order, for whatever was pushed,
      exactly when the buffer has not overflowed. */
  lemma ExactlyOnceIffNoOverflow(tail: nat, n: nat)
    requires n > 0 && tail <= U64_MAX
    ensures (forall items: seq<Item<int>> :: |items| == tail && Stamped(items) ==> DeliversOnceInOrder(items, n))
       <==> tail <= n
  {
    if tail <= n {
      forall items: seq<Item<int>> | |items| == tail && Stamped(items) ensures DeliversOnceInOrder(items, n) {
        PopsCycleTheWindow(items, n, 0);
        forall k | 0 <= k < tail ensures PopAll(items, n, 0)[k] == items[k] {
          DivModUnique(k, n, 0, k);
        }
      }
    } else {
      var items := seq(tail, i requires 0 <= i < tail => Item(i + 1, 0));
      PopsCycleTheWindow(items, n, 0);
      DivModUnique(0, n, 0, 0);
      assert PopAll(items, n, 0)[0] == items[tail - n];
      assert !DeliversOnceInOrder(items, n);
    }
  }
}
