/** The lease table against the plain object it is meant to be: one expiring
    lock per key, with no ids to index and no leftovers. */
module LeaseLock {
  import opened Words
  import opened OwnershipModel
  import opened LeaseTable

  type Locks = map<string, LeaseEntry>

  function Holder(h: Locks, key: string, t: U64): Option<LeaseEntry>
  {
    if key in h && h[key].expiresAt > t then Some(h[key]) else None
  }

  function Lock(h: Locks, key: string, owner: NodeId, id: U64, ttlSecs: U64, timestamp: U64): Locks
  {
    if Holder(h, key, timestamp).Some? then h
    else h[key := LeaseEntry(id, key, owner, timestamp, ttlSecs, Expiry(timestamp, ttlSecs))]
  }

  function Refresh(e: LeaseEntry, id: U64, timestamp: U64): LeaseEntry
  {
    if e.id == id && e.expiresAt > timestamp then e.(expiresAt := Expiry(timestamp, e.ttlSecs)) else e
  }

  function DropStale(h: Locks, now: U64): Locks
  {
    map k | k in h && h[k].expiresAt > now :: h[k]
  }

  /** What an event means for the locks. `nextId` is the id a local acquisition
      would be given. */
  function LockNext(h: Locks, ev: Event, nextId: U64): Locks
  {
    match ev
    case Commit(AcquireLease(key, owner, id, ttlSecs, timestamp)) => Lock(h, key, owner, id, ttlSecs, timestamp)
    case LocalAcquire(key, owner, ttlSecs, timestamp) => Lock(h, key, owner, nextId, ttlSecs, timestamp)
    case Commit(RenewLease(id, timestamp)) => map k | k in h :: Refresh(h[k], id, timestamp)
    case Commit(ReleaseLease(key)) => h - {key}
    case Commit(ExpireLeases(now)) => DropStale(h, now)
    case Sweep(now) => DropStale(h, now)
    case _ => h
  }

  function LockRun(h: Locks, p: Proposer, evs: seq<Event>): Locks
    decreases |evs|
  {
    if evs == [] then h
    else LockRun(LockNext(h, evs[0], p.state.nextLeaseId), Next(p, evs[0]), evs[1..])
  }

  /** Table and locks name the same holder for every key, now and later. */
  ghost predicate SameHolders(s: State, h: Locks, clock: U64)
  {
    && (forall k :: LiveLease(s, k, clock) == Holder(h, k, clock))
    && (forall k :: k in h ==> h[k].key == k)
  }

  lemma HoldersAgreeFromNowOn(s: State, h: Locks, clock: U64, key: string, t: U64)
    requires SameHolders(s, h, clock) && t >= clock
    ensures LiveLease(s, key, t) == Holder(h, key, t)
  {
    assert LiveLease(s, key, clock) == Holder(h, key, clock);
  }

  /** A live lease whose key also has an entry that ran out by `now`: the
      leftover of an acquisition over an expired lease. An expiry pass at
      `now` removes the live lease with it. */
  ghost predicate Shadowed(s: State, key: string, now: U64, clock: U64)
  {
    Held(s, key, Max(now, clock)) && KeyHasExpired(s, key, now)
  }

  /** An expiry pass does to the table what it does to the locks exactly when
      no live lease is shadowed by a leftover of its own key. */
  lemma ExpiryMatchesLocksExactly(p: Proposer, h: Locks, now: U64)
    requires TableOk(p) && SameHolders(p.state, h, p.clock)
    ensures SameHolders(Expire(p.state, now), DropStale(h, now), p.clock)
       <==> forall k :: !Shadowed(p.state, k, now, p.clock)
  {
    var s, e, d := p.state, Expire(p.state, now), DropStale(h, now);
    forall k
      ensures LiveLease(e, k, p.clock) == Holder(d, k, p.clock) <==> !Shadowed(s, k, now, p.clock)
    {
      assert LiveLease(s, k, p.clock) == Holder(h, k, p.clock);
      if k in s.keyLeases && s.leases[s.keyLeases[k]].expiresAt <= now {
        assert KeyHasExpired(s, k, now);
      }
    }
  }

  ghost predicate ShadowFree(p: Proposer, ev: Event)
  {
    match ev
    case Sweep(now) => forall k :: !Shadowed(p.state, k, now, p.clock)
    case Commit(ExpireLeases(now)) => forall k :: !Shadowed(p.state, k, now, p.clock)
    case _ => true
  }

  ghost predicate ShadowFreeRun(p: Proposer, evs: seq<Event>)
    decreases |evs|
  {
    evs == [] || (ShadowFree(p, evs[0]) && ShadowFreeRun(Next(p, evs[0]), evs[1..]))
  }

  lemma GrantMatchesLock(
      p: Proposer, h: Locks, key: string, owner: NodeId, id: U64, ttlSecs: U64, timestamp: U64)
    requires TableOk(p) && SameHolders(p.state, h, p.clock) && timestamp >= p.clock
    requires id !in p.state.leases && !Held(p.state, key, timestamp)
    ensures SameHolders(Grant(p.state, key, owner, id, ttlSecs, timestamp),
                        Lock(h, key, owner, id, ttlSecs, timestamp), timestamp)
  {
    var s' := Grant(p.state, key, owner, id, ttlSecs, timestamp);
    var h' := Lock(h, key, owner, id, ttlSecs, timestamp);
    HoldersAgreeFromNowOn(p.state, h, p.clock, key, timestamp);
    forall k ensures LiveLease(s', k, timestamp) == Holder(h', k, timestamp) {
      HoldersAgreeFromNowOn(p.state, h, p.clock, k, timestamp);
    }
  }

  lemma RefusalMatchesLock(s: State, h: Locks, clock: U64, timestamp: U64)
    requires SameHolders(s, h, clock) && timestamp >= clock
    ensures SameHolders(s, h, timestamp)
  {
    forall k ensures LiveLease(s, k, timestamp) == Holder(h, k, timestamp) {
      HoldersAgreeFromNowOn(s, h, clock, k, timestamp);
    }
  }

  lemma RenewMatchesLock(p: Proposer, h: Locks, id: U64, timestamp: U64)
    requires TableOk(p) && SameHolders(p.state, h, p.clock) && timestamp >= p.clock
    ensures SameHolders(Apply(p.state, RenewLease(id, timestamp)),
                        map k | k in h :: Refresh(h[k], id, timestamp), timestamp)
  {
    var s' := Apply(p.state, RenewLease(id, timestamp));
    var h' := map k | k in h :: Refresh(h[k], id, timestamp);
    forall k ensures LiveLease(s', k, timestamp) == Holder(h', k, timestamp) {
      HoldersAgreeFromNowOn(p.state, h, p.clock, k, timestamp);
    }
  }

  lemma ReleaseMatchesLock(p: Proposer, h: Locks, key: string)
    requires TableOk(p) && SameHolders(p.state, h, p.clock)
    ensures SameHolders(Apply(p.state, ReleaseLease(key)), h - {key}, p.clock)
  {
    var s' := Apply(p.state, ReleaseLease(key));
    forall k ensures LiveLease(s', k, p.clock) == Holder(h - {key}, k, p.clock) {
      assert LiveLease(p.state, k, p.clock) == Holder(h, k, p.clock);
    }
  }

  lemma StepMatchesLocks(p: Proposer, h: Locks, ev: Event)
    requires TableOk(p) && Enabled(p, ev) && SameHolders(p.state, h, p.clock) && ShadowFree(p, ev)
    ensures SameHolders(Next(p, ev).state, LockNext(h, ev, p.state.nextLeaseId), Next(p, ev).clock)
  {
    match ev
    case Commit(AcquireLease(key, owner, id, ttlSecs, timestamp)) =>
      HoldersAgreeFromNowOn(p.state, h, p.clock, key, timestamp);
      if Held(p.state, key, timestamp) {
        RefusalMatchesLock(p.state, h, p.clock, timestamp);
      } else {
        GrantMatchesLock(p, h, key, owner, id, ttlSecs, timestamp);
      }
    case LocalAcquire(key, owner, ttlSecs, timestamp) =>
      HoldersAgreeFromNowOn(p.state, h, p.clock, key, timestamp);
      if Held(p.state, key, timestamp) {
        RefusalMatchesLock(p.state, h, p.clock, timestamp);
      } else {
        GrantMatchesLock(p, h, key, owner, p.state.nextLeaseId, ttlSecs, timestamp);
        var g := Grant(p.state, key, owner, p.state.nextLeaseId, ttlSecs, timestamp);
        SameLeasesSameHolders(g, Next(p, ev).state, LockNext(h, ev, p.state.nextLeaseId), timestamp);
      }
    case Commit(RenewLease(id, timestamp)) => RenewMatchesLock(p, h, id, timestamp);
    case Commit(ReleaseLease(key)) => ReleaseMatchesLock(p, h, key);
    case Commit(ExpireLeases(now)) => ExpiryMatchesLocksExactly(p, h, now);
    case Sweep(now) => ExpiryMatchesLocksExactly(p, h, now);
    case _ => SameLeasesSameHolders(p.state, Next(p, ev).state, h, p.clock);
  }

  lemma SameLeasesSameHolders(s: State, s': State, h: Locks, clock: U64)
    requires SameHolders(s, h, clock) && s'.leases == s.leases && s'.keyLeases == s.keyLeases
    ensures SameHolders(s', h, clock)
  {
    forall k ensures LiveLease(s', k, clock) == Holder(h, k, clock) {
      assert LiveLease(s, k, clock) == Holder(h, k, clock);
    }
  }

  /** The table refines the locks over every run in which no expiry pass meets
      a shadowed lease: at the end every key has the same holder in both, at
      the clock and at every later time. */
  lemma {:induction false} TableRefinesLocks(p: Proposer, h: Locks, evs: seq<Event>)
    requires TableOk(p) && ValidRun(p, evs) && ShadowFreeRun(p, evs)
    requires SameHolders(p.state, h, p.clock)
    ensures SameHolders(Run(p, evs).state, LockRun(h, p, evs), Run(p, evs).clock)
    decreases |evs|
  {
    if evs == [] {
    } else {
      StepMatchesLocks(p, h, evs[0]);
      StepKeepsTable(p, evs[0]);
      TableRefinesLocks(Next(p, evs[0]), LockNext(h, evs[0], p.state.nextLeaseId), evs[1..]);
    }
  }
}
