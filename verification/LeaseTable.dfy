/** Runs of the lease table on the proposing node: ids are drawn locally,
    commands commit later in log order, and expiry sweeps run beside the log. */
module LeaseTable {
  import opened Words
  import opened OwnershipModel
  import opened OwnershipMachine

  datatype Event =
    | Draw
    | Commit(cmd: Command)
    | Sweep(now: U64)
    | LocalAcquire(key: string, owner: NodeId, ttlSecs: U64, timestamp: U64)

  /** `drawn` holds the ids handed to proposals that have not committed yet;
      `clock` is the latest timestamp a lease command has carried. */
  datatype Proposer = Proposer(state: State, drawn: set<U64>, clock: U64)

  const START: Proposer := Proposer(EMPTY, {}, 0)

  /** Acquisitions use drawn ids, timestamps do not run backwards, and the id
      counter has not reached its last value. Sweeps may run at any time. */
  predicate Enabled(p: Proposer, ev: Event)
  {
    match ev
    case Draw => p.state.nextLeaseId < U64_MAX
    case Commit(AcquireLease(_, _, id, _, timestamp)) => id in p.drawn && timestamp >= p.clock
    case Commit(RenewLease(_, timestamp)) => timestamp >= p.clock
    case LocalAcquire(_, _, _, timestamp) => timestamp >= p.clock && p.state.nextLeaseId < U64_MAX
    case _ => true
  }

  function AcquireLocally(s: State, key: string, owner: NodeId, ttlSecs: U64, timestamp: U64): State
  {
    if Held(s, key, timestamp) then s
    else Grant(s, key, owner, s.nextLeaseId, ttlSecs, timestamp).(nextLeaseId := WrapAdd(s.nextLeaseId, 1))
  }

  function Next(p: Proposer, ev: Event): Proposer
  {
    match ev
    case Draw =>
      Proposer(p.state.(nextLeaseId := WrapAdd(p.state.nextLeaseId, 1)), p.drawn + {p.state.nextLeaseId}, p.clock)
    case Commit(cmd) =>
      Proposer(Apply(p.state, cmd),
               if cmd.AcquireLease? then p.drawn - {cmd.leaseId} else p.drawn,
               if cmd.AcquireLease? || cmd.RenewLease? then cmd.timestamp else p.clock)
    case Sweep(now) => p.(state := Expire(p.state, now))
    case LocalAcquire(key, owner, ttlSecs, timestamp) =>
      p.(state := AcquireLocally(p.state, key, owner, ttlSecs, timestamp), clock := timestamp)
  }

  predicate ValidRun(p: Proposer, evs: seq<Event>)
    decreases |evs|
  {
    evs == [] || (Enabled(p, evs[0]) && ValidRun(Next(p, evs[0]), evs[1..]))
  }

  function Run(p: Proposer, evs: seq<Event>): Proposer
    decreases |evs|
  {
    if evs == [] then p else Run(Next(p, evs[0]), evs[1..])
  }

  // -------------------------------------------------------------- invariant

  /** Every key points at a stored lease of that key. */
  ghost predicate PointersOk(s: State)
  {
    forall k :: k in s.keyLeases ==> s.keyLeases[k] in s.leases && s.leases[s.keyLeases[k]].key == k
  }

  ghost predicate IdsOk(p: Proposer)
  {
    && (forall id :: id in p.state.leases ==> p.state.leases[id].id == id && id < p.state.nextLeaseId)
    && (forall id :: id in p.drawn ==> id < p.state.nextLeaseId && id !in p.state.leases)
  }

  /** Whatever has not run out at `t` is the lease its key points to. */
  ghost predicate LiveTracked(s: State, t: U64)
  {
    forall id :: id in s.leases && s.leases[id].expiresAt > t ==> Tracked(s, id)
  }

  ghost predicate TableOk(p: Proposer)
  {
    PointersOk(p.state) && IdsOk(p) && LiveTracked(p.state, p.clock)
  }

  lemma ExpireKeepsTable(p: Proposer, now: U64)
    requires TableOk(p)
    ensures TableOk(p.(state := Expire(p.state, now)))
  {
  }

  lemma GrantKeepsTable(p: Proposer, key: string, owner: NodeId, id: U64, ttlSecs: U64, timestamp: U64)
    requires TableOk(p) && timestamp >= p.clock && !Held(p.state, key, timestamp)
    requires id !in p.state.leases && id < p.state.nextLeaseId
    ensures TableOk(Proposer(Grant(p.state, key, owner, id, ttlSecs, timestamp), p.drawn - {id}, timestamp))
  {
  }

  lemma RenewKeepsTable(p: Proposer, id: U64, timestamp: U64)
    requires TableOk(p) && timestamp >= p.clock
    ensures TableOk(Next(p, Commit(RenewLease(id, timestamp))))
  {
  }

  lemma ReleaseKeepsTable(p: Proposer, key: string)
    requires TableOk(p)
    ensures TableOk(Next(p, Commit(ReleaseLease(key))))
  {
  }

  lemma AcquireKeepsTable(p: Proposer, cmd: Command)
    requires TableOk(p) && cmd.AcquireLease? && Enabled(p, Commit(cmd))
    ensures TableOk(Next(p, Commit(cmd)))
  {
    if !Held(p.state, cmd.key, cmd.timestamp) {
      GrantKeepsTable(p, cmd.key, cmd.owner, cmd.leaseId, cmd.ttlSecs, cmd.timestamp);
    }
  }

  lemma LocalAcquireKeepsTable(p: Proposer, ev: Event)
    requires TableOk(p) && ev.LocalAcquire? && Enabled(p, ev)
    ensures TableOk(Next(p, ev))
  {
    if !Held(p.state, ev.key, ev.timestamp) {
      var id := p.state.nextLeaseId;
      var q := p.(state := p.state.(nextLeaseId := WrapAdd(id, 1)));
      GrantKeepsTable(q, ev.key, ev.owner, id, ev.ttlSecs, ev.timestamp);
      assert q.drawn - {id} == p.drawn;
    }
  }

  lemma StepKeepsTable(p: Proposer, ev: Event)
    requires TableOk(p) && Enabled(p, ev)
    ensures TableOk(Next(p, ev))
  {
    match ev
    case Sweep(now) => ExpireKeepsTable(p, now);
    case Commit(ExpireLeases(now)) => ExpireKeepsTable(p, now);
    case Commit(AcquireLease(_, _, _, _, _)) => AcquireKeepsTable(p, ev.cmd);
    case Commit(RenewLease(id, timestamp)) => RenewKeepsTable(p, id, timestamp);
    case Commit(ReleaseLease(key)) => ReleaseKeepsTable(p, key);
    case LocalAcquire(_, _, _, _) => LocalAcquireKeepsTable(p, ev);
    case _ =>
  }

  lemma {:induction false} RunsKeepTable(p: Proposer, evs: seq<Event>)
    requires TableOk(p) && ValidRun(p, evs)
    ensures TableOk(Run(p, evs))
    decreases |evs|
  {
    if evs == [] {
    } else {
      StepKeepsTable(p, evs[0]);
      RunsKeepTable(Next(p, evs[0]), evs[1..]);
    }
  }

  /** From the empty table, whatever the interleaving: drawn and stored ids
      are distinct and below the counter, keys point at leases of their own,
      and no key has two unexpired leases. */
  lemma OneLiveLeasePerKey(evs: seq<Event>)
    requires ValidRun(START, evs)
    ensures var p := Run(START, evs);
            && TableOk(p)
            && (forall a, b | a in p.state.leases && b in p.state.leases ::
                  (&& p.state.leases[a].key == p.state.leases[b].key
                   && p.state.leases[a].expiresAt > p.clock
                   && p.state.leases[b].expiresAt > p.clock) ==> a == b)
  {
    RunsKeepTable(START, evs);
  }

  // ------------------------------------------------------------ exclusivity

  ghost predicate PointsTo(s: State, key: string, id: U64)
  {
    key in s.keyLeases && s.keyLeases[key] == id
  }

  /** The events that take the key away from the lease it points to: its
      release, an acquisition at or after its expiry, or an expiry pass while
      any stored entry of the key has run out. */
  ghost predicate Evicts(s: State, ev: Event, key: string)
  {
    match ev
    case Commit(ReleaseLease(k)) => k == key
    case Commit(AcquireLease(k, _, _, _, timestamp)) => k == key && !Held(s, key, timestamp)
    case LocalAcquire(k, _, _, timestamp) => k == key && !Held(s, key, timestamp)
    case Commit(ExpireLeases(now)) => KeyHasExpired(s, key, now)
    case Sweep(now) => KeyHasExpired(s, key, now)
    case _ => false
  }

  ghost predicate NeverEvicted(p: Proposer, evs: seq<Event>, key: string)
    decreases |evs|
  {
    evs == [] || (!Evicts(p.state, evs[0], key) && NeverEvicted(Next(p, evs[0]), evs[1..], key))
  }

  ghost predicate Spent(p: Proposer, id: U64)
  {
    id < p.state.nextLeaseId && id !in p.drawn
  }

  lemma StepKeepsPointer(p: Proposer, ev: Event, key: string, id: U64)
    requires TableOk(p) && Enabled(p, ev) && PointsTo(p.state, key, id)
    ensures PointsTo(Next(p, ev).state, key, id) <==> !Evicts(p.state, ev, key)
    ensures PointsTo(Next(p, ev).state, key, id) ==>
      && id in Next(p, ev).state.leases
      && Next(p, ev).state.leases[id].(expiresAt := 0) == p.state.leases[id].(expiresAt := 0)
  {
    match ev
    case Sweep(now) => ExpiryAndPointer(p.state, now, key, id);
    case Commit(ExpireLeases(now)) => ExpiryAndPointer(p.state, now, key, id);
    case Commit(ReleaseLease(k)) =>
      if k in p.state.keyLeases && k != key { assert p.state.keyLeases[k] != id; }
    case Commit(AcquireLease(_, _, newId, _, _)) => assert newId != id;
    case LocalAcquire(_, _, _, _) => assert p.state.nextLeaseId != id;
    case _ =>
  }

  lemma ExpiryAndPointer(s: State, now: U64, key: string, id: U64)
    requires PointersOk(s) && PointsTo(s, key, id)
    ensures PointsTo(Expire(s, now), key, id) <==> !KeyHasExpired(s, key, now)
    ensures !KeyHasExpired(s, key, now) ==> id in Expire(s, now).leases && Expire(s, now).leases[id] == s.leases[id]
  {
  }

  lemma SpentStaysSpent(p: Proposer, ev: Event, key: string, id: U64)
    requires TableOk(p) && Enabled(p, ev) && Spent(p, id)
    ensures Spent(Next(p, ev), id)
    ensures !PointsTo(p.state, key, id) ==> !PointsTo(Next(p, ev).state, key, id)
  {
  }

  lemma {:induction false} NoReturn(p: Proposer, evs: seq<Event>, key: string, id: U64)
    requires TableOk(p) && ValidRun(p, evs) && Spent(p, id) && !PointsTo(p.state, key, id)
    ensures !PointsTo(Run(p, evs).state, key, id)
    decreases |evs|
  {
    if evs == [] {
    } else {
      SpentStaysSpent(p, evs[0], key, id);
      StepKeepsTable(p, evs[0]);
      NoReturn(Next(p, evs[0]), evs[1..], key, id);
    }
  }

  /** A granted lease is still its key's lease after a run if and only if no
      event of the run evicted it; until then nothing but its expiry changes. */
  lemma {:induction false} LeaseKeptExactly(p: Proposer, evs: seq<Event>, key: string, id: U64)
    requires TableOk(p) && ValidRun(p, evs) && PointsTo(p.state, key, id)
    ensures PointsTo(Run(p, evs).state, key, id) <==> NeverEvicted(p, evs, key)
    ensures NeverEvicted(p, evs, key) ==>
      && id in Run(p, evs).state.leases
      && Run(p, evs).state.leases[id].(expiresAt := 0) == p.state.leases[id].(expiresAt := 0)
    decreases |evs|
  {
    if evs == [] {
    } else {
      StepKeepsPointer(p, evs[0], key, id);
      StepKeepsTable(p, evs[0]);
      if Evicts(p.state, evs[0], key) {
        assert Spent(p, id);
        SpentStaysSpent(p, evs[0], key, id);
        NoReturn(Next(p, evs[0]), evs[1..], key, id);
      } else {
        LeaseKeptExactly(Next(p, evs[0]), evs[1..], key, id);
      }
    }
  }
}
