/** The ring buffer under concurrency: pushes serialised by the lock, reads
    that load the write position before taking it, and acknowledgements that
    load and store without it. */
module RingRaces {
  import opened Words
  import opened TopicQueue

  datatype Lock = Free | Checked(entry: Entry) | Stored

  datatype AckPc = AckPc(id: U64, loaded: U64)

  datatype ReadResult = ReadResult(asked: U64, got: Option<Entry>)

  /** `log`, `acked`, `overwritten` and `results` record history: what was
      stored, which acknowledgements took effect, which ids were displaced and
      what reads returned. */
  datatype Ring = Ring(
    capacity: nat, slots: seq<Option<Entry>>, writePos: nat, ackPos: U64,
    lock: Lock, readers: map<nat, U64>, ackers: map<nat, AckPc>,
    log: seq<Entry>, acked: set<U64>, overwritten: set<U64>, results: set<ReadResult>)

  ghost function Fresh(capacity: nat): Ring
    requires capacity > 0
  {
    Ring(capacity, Slots([], capacity), 0, 0, Free, map[], map[], [], {}, {}, {})
  }

  datatype Step =
    | PushCheck(topic: string, payload: seq<Byte>, now: U64)
    | PushStore
    | PushPublish
    | ReadCheck(thread: nat, id: U64)
    | ReadSlot(thread: nat)
    | AckLoad(thread: nat, id: U64)
    | AckStore(thread: nat)

  predicate Enabled(r: Ring, step: Step)
  {
    match step
    case PushCheck(_, _, _) => r.lock.Free?
    case PushStore => r.lock.Checked?
    case PushPublish => r.lock.Stored?
    case ReadSlot(thread) => r.lock.Free? && thread in r.readers
    case AckStore(thread) => thread in r.ackers
    case _ => true
  }

  predicate Shaped(r: Ring)
  {
    0 < r.capacity <= U64_MAX && |r.slots| == r.capacity
  }

  function Next(r: Ring, step: Step): Ring
    requires Shaped(r) && Enabled(r, step)
    ensures Shaped(Next(r, step))
  {
    match step
    case PushCheck(topic, payload, now) =>
      if r.writePos >= WrapAdd(r.ackPos, r.capacity) then r
      else r.(lock := Checked(Entry(r.writePos, now, topic, payload)))
    case PushStore =>
      var index := r.lock.entry.id % r.capacity;
      r.(slots := r.slots[index := Some(r.lock.entry)], log := r.log + [r.lock.entry], lock := Stored,
         overwritten := if r.slots[index].Some? then r.overwritten + {r.slots[index].value.id} else r.overwritten)
    case PushPublish => r.(writePos := r.writePos + 1, lock := Free)
    case ReadCheck(thread, id) => if id < r.writePos then r.(readers := r.readers[thread := id]) else r
    case ReadSlot(thread) =>
      var id := r.readers[thread];
      r.(readers := r.readers - {thread}, results := r.results + {ReadResult(id, r.slots[id % r.capacity])})
    case AckLoad(thread, id) => r.(ackers := r.ackers[thread := AckPc(id, r.ackPos)])
    case AckStore(thread) =>
      var pc := r.ackers[thread];
      var r' := r.(ackers := r.ackers - {thread});
      if pc.id > pc.loaded then r'.(ackPos := pc.id, acked := r.acked + {pc.id}) else r'
  }

  predicate ValidRun(r: Ring, steps: seq<Step>)
    requires Shaped(r)
    decreases |steps|
  {
    steps == [] || (Enabled(r, steps[0]) && ValidRun(Next(r, steps[0]), steps[1..]))
  }

  function Run(r: Ring, steps: seq<Step>): Ring
    requires Shaped(r) && ValidRun(r, steps)
    ensures Shaped(Run(r, steps))
    decreases |steps|
  {
    if steps == [] then r else Run(Next(r, steps[0]), steps[1..])
  }

  ghost predicate AckedAbove(acked: set<U64>, id: int)
  {
    exists a :: a in acked && a > id
  }

  ghost predicate LogOk(r: Ring)
  {
    && Shaped(r)
    && r.slots == Slots(r.log, r.capacity)
    && |r.log| == r.writePos + (if r.lock.Stored? then 1 else 0)
    && (forall i :: 0 <= i < |r.log| ==> r.log[i].id == i)
    && (r.lock.Checked? ==> r.lock.entry.id == r.writePos)
  }

  ghost predicate AcksOk(r: Ring)
  {
    && (r.ackPos == 0 || r.ackPos in r.acked)
    && (r.lock.Checked? && r.lock.entry.id >= r.capacity ==> AckedAbove(r.acked, r.lock.entry.id - r.capacity))
    && (forall o :: o in r.overwritten ==> AckedAbove(r.acked, o))
  }

  /** What a read may return: an entry exactly as pushed, of the id asked for
      or a later lap of the same slot. */
  ghost predicate ReadOk(r: Ring, res: ReadResult)
    requires r.capacity > 0
  {
    && res.got.Some?
    && res.asked <= res.got.value.id < |r.log|
    && res.got.value.id % r.capacity == res.asked % r.capacity
    && r.log[res.got.value.id] == res.got.value
  }

  ghost predicate ReadsOk(r: Ring)
    requires r.capacity > 0
  {
    && (forall t :: t in r.readers ==> r.readers[t] < |r.log|)
    && (forall res :: res in r.results ==> ReadOk(r, res))
  }

  ghost predicate RingOk(r: Ring)
  {
    LogOk(r) && AcksOk(r) && ReadsOk(r)
  }

  lemma CheckKeepsRing(r: Ring, step: Step)
    requires RingOk(r) && step.PushCheck? && Enabled(r, step)
    ensures RingOk(Next(r, step))
  {
    if r.writePos < WrapAdd(r.ackPos, r.capacity) && r.writePos >= r.capacity {
      assert r.ackPos > r.writePos - r.capacity && r.ackPos in r.acked;
    }
  }

  lemma StoreKeepsRing(r: Ring)
    requires RingOk(r) && r.lock.Checked?
    ensures RingOk(Next(r, PushStore))
  {
    var r' := Next(r, PushStore);
    var id := r.lock.entry.id;
    assert r'.log[..id] == r.log;
    if id < r.capacity {
      DivModUnique(id, r.capacity, 0, id);
      UnusedSlotIsEmpty(r.log, r.capacity, id);
    } else {
      RecentSlotsAreExact(r.log, r.capacity, id - r.capacity);
      NextLap(id - r.capacity, r.capacity);
    }
    forall res | res in r'.results ensures ReadOk(r', res) {
      assert ReadOk(r, res);
    }
  }

  lemma ReadKeepsRing(r: Ring, thread: nat)
    requires RingOk(r) && Enabled(r, ReadSlot(thread))
    ensures RingOk(Next(r, ReadSlot(thread)))
  {
    var j := SlotHoldsNewest(r.log, r.capacity, r.readers[thread]);
    var r' := Next(r, ReadSlot(thread));
    forall res | res in r'.results ensures ReadOk(r', res) {
      if res in r.results { assert ReadOk(r, res); }
    }
  }

  lemma AckKeepsRing(r: Ring, thread: nat)
    requires RingOk(r) && Enabled(r, AckStore(thread))
    ensures RingOk(Next(r, AckStore(thread)))
  {
    var r' := Next(r, AckStore(thread));
    assert r.acked <= r'.acked;
    forall i: int | AckedAbove(r.acked, i) ensures AckedAbove(r'.acked, i) {
      var a :| a in r.acked && a > i;
      assert a in r'.acked;
    }
    forall res | res in r'.results ensures ReadOk(r', res) {
      assert ReadOk(r, res);
    }
  }

  lemma StepKeepsRing(r: Ring, step: Step)
    requires RingOk(r) && Enabled(r, step)
    ensures RingOk(Next(r, step))
  {
    match step
    case PushCheck(_, _, _) => CheckKeepsRing(r, step);
    case PushStore => StoreKeepsRing(r);
    case ReadSlot(thread) => ReadKeepsRing(r, thread);
    case AckStore(thread) => AckKeepsRing(r, thread);
    case _ =>
      forall res | res in r.results ensures ReadOk(Next(r, step), res) { assert ReadOk(r, res); }
  }

  lemma {:induction false} RunsKeepRing(r: Ring, steps: seq<Step>)
    requires RingOk(r) && ValidRun(r, steps)
    ensures RingOk(Run(r, steps))
    decreases |steps|
  {
    if steps == [] {
    } else {
      StepKeepsRing(r, steps[0]);
      RunsKeepRing(Next(r, steps[0]), steps[1..]);
    }
  }

  /** Under every interleaving: an entry is overwritten only below some
      acknowledged id, and a read that passes its check returns an entry as it
      was pushed, of the id asked for or a later one of the same slot. */
  lemma RingSafety(capacity: nat, steps: seq<Step>)
    requires 0 < capacity <= U64_MAX && ValidRun(Fresh(capacity), steps)
    ensures var r := Run(Fresh(capacity), steps);
            && (forall o :: o in r.overwritten ==> exists a :: a in r.acked && a > o)
            && r.capacity > 0
            && (forall res :: res in r.results ==> ReadOk(r, res))
            && (forall i :: 0 <= i < |r.log| ==> r.log[i].id == i)
  {
    RunsKeepRing(Fresh(capacity), steps);
    var r := Run(Fresh(capacity), steps);
    forall o | o in r.overwritten ensures exists a :: a in r.acked && a > o {
      assert AckedAbove(r.acked, o);
    }
  }

  /** Two racing acknowledgements do move the position backwards. */
  lemma AckCanGoBackwards(capacity: nat)
    requires 0 < capacity <= U64_MAX
    ensures exists steps ::
      && ValidRun(Fresh(capacity), steps) && Enabled(Run(Fresh(capacity), steps), AckStore(1))
      && Run(Fresh(capacity), steps).ackPos > Next(Run(Fresh(capacity), steps), AckStore(1)).ackPos
  {
    var steps := [AckLoad(0, 5), AckLoad(1, 3), AckStore(0)];
    var r0 := Fresh(capacity);
    var r1 := Next(r0, AckLoad(0, 5));
    var r2 := Next(r1, AckLoad(1, 3));
    var r3 := Next(r2, AckStore(0));
    assert r3.ackPos == 5 && r3.ackers[1] == AckPc(3, 0);
    assert steps[1..] == [AckLoad(1, 3), AckStore(0)] && steps[1..][1..] == [AckStore(0)] && steps[1..][1..][1..] == [];
    assert ValidRun(r3, []) && ValidRun(r2, [AckStore(0)]) && ValidRun(r1, steps[1..]) && ValidRun(r0, steps);
    assert Run(r0, steps) == Run(r1, steps[1..]) == Run(r2, [AckStore(0)]) == Run(r3, []) == r3;
  }

  // ------------------------------------------------ nobody in between

  /** A push with nobody in between is refused exactly at the bound the last
      acknowledgement set; otherwise its entry is the next of the log, in its
      slot, and published. */
  lemma UndisturbedPush(r: Ring, topic: string, payload: seq<Byte>, now: U64)
    requires LogOk(r) && r.lock.Free?
    ensures var r1 := Next(r, PushCheck(topic, payload, now));
            && (r1 == r <==> r.writePos >= WrapAdd(r.ackPos, r.capacity))
            && (r1 != r ==>
                  && Enabled(r1, PushStore) && Enabled(Next(r1, PushStore), PushPublish) && r.writePos <= U64_MAX
                  && var r3 := Next(Next(r1, PushStore), PushPublish);
                     && r3.log == r.log + [Entry(r.writePos, now, topic, payload)]
                     && r3.slots == Slots(r3.log, r.capacity) && r3.writePos == |r3.log|
                     && r3.lock.Free? && r3.ackPos == r.ackPos)
  {
    if r.writePos < WrapAdd(r.ackPos, r.capacity) {
      var r3 := Next(Next(Next(r, PushCheck(topic, payload, now)), PushStore), PushPublish);
      assert r3.log[..|r.log|] == r.log;
    }
  }

  /** A read with nobody in between finds something exactly for published ids,
      and then what their slot holds. */
  lemma UndisturbedRead(r: Ring, thread: nat, id: U64)
    requires LogOk(r) && r.lock.Free? && thread !in r.readers
    ensures var r1 := Next(r, ReadCheck(thread, id));
            && (Enabled(r1, ReadSlot(thread)) <==> id < |r.log|)
            && (id < |r.log| ==>
                  && ReadResult(id, Slots(r.log, r.capacity)[id % r.capacity]) in Next(r1, ReadSlot(thread)).results
                  && Next(r1, ReadSlot(thread)).readers == r.readers)
  {
    if id < |r.log| {
      assert Next(Next(r, ReadCheck(thread, id)), ReadSlot(thread)).readers == r.readers;
    }
  }

  /** An acknowledgement with nobody in between leaves the larger position. */
  lemma UndisturbedAck(r: Ring, thread: nat, id: U64)
    requires Shaped(r) && thread !in r.ackers
    ensures var r2 := Next(Next(r, AckLoad(thread, id)), AckStore(thread));
            r2.ackPos == Max(r.ackPos, id) && r2.ackers == r.ackers
  {
  }
}
