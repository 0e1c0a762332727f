/** The per-topic ring buffer against the unbounded log it stands for. */
module TopicQueue {
  import opened Words

  type Byte = x: int | 0 <= x < 256

  datatype Entry = Entry(id: U64, timestamp: U64, topic: string, payload: seq<Byte>)

  datatype PushResult = Pushed(id: U64) | BufferFull

  /** The ring after appending the whole of `log` to it. */
  ghost function Slots(log: seq<Entry>, capacity: nat): (r: seq<Option<Entry>>)
    requires capacity > 0
    ensures |r| == capacity
    decreases |log|
  {
    if log == [] then seq(capacity, _ => None) else
      var n := |log| - 1;
      Slots(log[..n], capacity)[n % capacity := Some(log[n])]
  }

  lemma {:induction false} NextLap(j: nat, capacity: nat)
    requires capacity > 0
    ensures (j + capacity) % capacity == j % capacity
  {
    DivModUnique(j + capacity, capacity, j / capacity + 1, j % capacity);
  }

  lemma {:induction false} SameLap(a: nat, b: nat, capacity: nat)
    requires capacity > 0 && a <= b < a + capacity && a % capacity == b % capacity
    ensures a == b
  {
    var q := b / capacity - a / capacity;
    assert b - a == capacity * q;
    assert q >= 1 ==> capacity * q >= capacity;
    assert q <= -1 ==> capacity * q < 0;
  }

  /** Each slot holds the newest entry of its residue class: at or after the
      id asked for, and among the last `capacity`. */
  lemma {:induction false} SlotHoldsNewest(log: seq<Entry>, capacity: nat, id: nat) returns (j: nat)
    requires capacity > 0 && id < |log|
    ensures id <= j < |log| <= j + capacity && j % capacity == id % capacity
    ensures Slots(log, capacity)[id % capacity] == Some(log[j])
    decreases |log|
  {
    var n := |log| - 1;
    if n % capacity == id % capacity {
      j := n;
    } else {
      j := SlotHoldsNewest(log[..n], capacity, id);
      NextLap(j, capacity);
    }
  }

  lemma {:induction false} UnusedSlotIsEmpty(log: seq<Entry>, capacity: nat, i: nat)
    requires |log| <= i < capacity
    ensures Slots(log, capacity)[i] == None
    decreases |log|
  {
    if log == [] {
    } else {
      var n := |log| - 1;
      DivModUnique(n, capacity, 0, n);
      UnusedSlotIsEmpty(log[..n], capacity, i);
    }
  }

  /** The last `capacity` ids are all still there. */
  lemma RecentSlotsAreExact(log: seq<Entry>, capacity: nat, id: nat)
    requires capacity > 0 && id < |log| <= id + capacity
    ensures Slots(log, capacity)[id % capacity] == Some(log[id])
  {
    var j := SlotHoldsNewest(log, capacity, id);
    SameLap(id, j, capacity);
  }

  class Queue {
    const capacity: U64
    const mask: U64
    ghost const exponent: nat
    var writePos: U64
    var ackPos: U64
    const slots: array<Option<Entry>>
    // Everything ever pushed.
    ghost var log: seq<Entry>

    ghost predicate Valid()
      reads this, slots
    {
      && capacity == Pow2(exponent) && mask == capacity - 1
      && slots.Length == capacity
      && slots[..] == Slots(log, capacity)
      && writePos == |log| && writePos <= ackPos + capacity
      && forall i :: 0 <= i < |log| ==> log[i].id == i
    }

    /** The buffer size is the least power of two not below the size asked
        for; sizes beyond 2^63 have none. */
    constructor (requested: nat)
      requires Pow2(NextPow2Exponent(requested)) <= U64_MAX
      ensures Valid() && fresh(slots)
      ensures log == [] && ackPos == 0
      ensures requested <= capacity && exists k: nat :: capacity == Pow2(k)
      ensures forall k: nat :: requested <= Pow2(k) ==> exponent <= k
    {
      var k := NextPow2Exponent(requested);
      capacity, mask, exponent := Pow2(k), Pow2(k) - 1, k;
      writePos, ackPos, log := 0, 0, [];
      slots := new Option<Entry>[Pow2(k)](_ => None);
    }

    method Push(topic: string, payload: seq<Byte>, now: U64) returns (r: PushResult)
      requires Valid()
      modifies this`writePos, this`log, slots
      ensures Valid()
      ensures r.BufferFull? <==> |old(log)| >= WrapAdd(ackPos, capacity)
      ensures r.BufferFull? ==> log == old(log)
      ensures r.Pushed? ==> r.id == |old(log)| && log == old(log) + [Entry(r.id, now, topic, payload)]
    {
      var id := writePos;
      var index := BitAnd(id, mask);
      MaskIsModulo(id, exponent);
      if id >= WrapAdd(ackPos, capacity) {
        return BufferFull;
      }
      var entry := Entry(id, now, topic, payload);
      ghost var before := slots[..];
      slots[index] := Some(entry);
      log := log + [entry];
      assert log[..id] == old(log);
      assert slots[..] == before[index := Some(entry)];
      writePos := id + 1;
      r := Pushed(id);
    }

    method Read(id: U64) returns (r: Option<Entry>)
      requires Valid()
      ensures r.None? <==> id >= |log|
      ensures r.Some? ==>
        && id <= r.value.id < |log| <= r.value.id + capacity
        && r.value.id % capacity == id % capacity
        && r.value == log[r.value.id]
      ensures id < |log| <= id + capacity ==> r == Some(log[id])
    {
      if id >= writePos {
        return None;
      }
      var index := BitAnd(id, mask);
      MaskIsModulo(id, exponent);
      ghost var j := SlotHoldsNewest(log, capacity, id);
      if |log| <= id + capacity {
        RecentSlotsAreExact(log, capacity, id);
      }
      assert slots[index] == slots[..][index];
      r := slots[index];
    }

    method Ack(id: U64)
      requires Valid()
      modifies this`ackPos
      ensures Valid() && ackPos == Max(old(ackPos), id)
    {
      var current := ackPos;
      if id > current {
        ackPos := id;
      }
    }
  }
}
