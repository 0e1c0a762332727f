/** Where the lease code departs from what it promises: exact conditions, and
    concrete runs that show each departure happens. */
module LeaseAudit {
  import opened Words
  import opened OwnershipModel
  import opened OwnershipMachine
  import opened LeaseTable

  /** The three lease clauses of `validate`. */
  ghost predicate AuditOk(s: State)
  {
    PointersStored(s) && LeasesTracked(s) && ExpiriesFromGrant(s)
  }

  /** An acquisition over an expired lease of the same key, or a renewal that
      moves the expiry. */
  predicate SpoilsAudit(s: State, cmd: Command)
  {
    match cmd
    case AcquireLease(key, _, _, _, timestamp) => key in s.keyLeases && !Held(s, key, timestamp)
    case RenewLease(id, timestamp) =>
      && id in s.leases && s.leases[id].expiresAt > timestamp
      && s.leases[id].expiresAt != Expiry(timestamp, s.leases[id].ttlSecs)
    case _ => false
  }

  /** From a table that passes `validate`, one more command keeps it passing
      exactly when it is not one of those two. */
  lemma AuditKeptExactly(s: State, cmd: Command)
    requires PointersOk(s) && AuditOk(s)
    requires cmd.AcquireLease? ==> cmd.leaseId !in s.leases
    ensures AuditOk(Apply(s, cmd)) <==> !SpoilsAudit(s, cmd)
  {
    match cmd
    case AcquireLease(_, _, _, _, _) => AcquireAudit(s, cmd);
    case RenewLease(_, _) => RenewAudit(s, cmd);
    case ReleaseLease(_) => RemovalAudit(s, Apply(s, cmd));
    case ExpireLeases(_) => RemovalAudit(s, Apply(s, cmd));
    case _ => assert Apply(s, cmd).leases == s.leases && Apply(s, cmd).keyLeases == s.keyLeases;
  }

  lemma AcquireAudit(s: State, cmd: Command)
    requires PointersOk(s) && AuditOk(s) && cmd.AcquireLease? && cmd.leaseId !in s.leases
    ensures AuditOk(Apply(s, cmd)) <==> !SpoilsAudit(s, cmd)
  {
    if SpoilsAudit(s, cmd) {
      assert !Tracked(Apply(s, cmd), s.keyLeases[cmd.key]);
    } else if Held(s, cmd.key, cmd.timestamp) {
      assert Apply(s, cmd) == s;
    } else {
      NewKeyAudit(s, Apply(s, cmd), cmd.leaseId);
    }
  }

  /** A first lease for a key, under a new id. */
  lemma NewKeyAudit(s: State, s': State, id: U64)
    requires AuditOk(s) && id !in s.leases && id in s'.leases && s'.leases == s.leases[id := s'.leases[id]]
    requires s'.leases[id].key !in s.keyLeases && s'.keyLeases == s.keyLeases[s'.leases[id].key := id]
    requires s'.leases[id].expiresAt == Expiry(s'.leases[id].acquiredAt, s'.leases[id].ttlSecs)
    ensures AuditOk(s')
  {
    forall i | i in s'.leases ensures Tracked(s', i) {
      if i != id { assert Tracked(s, i); }
    }
  }

  lemma RenewAudit(s: State, cmd: Command)
    requires AuditOk(s) && cmd.RenewLease?
    ensures AuditOk(Apply(s, cmd)) <==> !SpoilsAudit(s, cmd)
  {
    var s' := Apply(s, cmd);
    if SpoilsAudit(s, cmd) {
      assert s'.leases[cmd.leaseId].acquiredAt == s.leases[cmd.leaseId].acquiredAt;
    } else {
      assert s'.leases == s.leases;
    }
  }

  /** Removing keys together with their leases leaves a clean table clean. */
  lemma RemovalAudit(s: State, s': State)
    requires AuditOk(s)
    requires forall i :: i in s'.leases ==> i in s.leases && s'.leases[i] == s.leases[i]
    requires forall k :: k in s'.keyLeases ==> k in s.keyLeases && s'.keyLeases[k] == s.keyLeases[k]
    requires forall i :: i in s'.leases ==> s.leases[i].key in s'.keyLeases
    requires PointersStored(s')
    ensures AuditOk(s')
  {
    forall i | i in s'.leases ensures Tracked(s', i) {
      assert Tracked(s, i);
    }
  }

  // ------------------------------------------- what the hypotheses are for

  /** A grant keeps every key pointing at a lease of its own exactly when no
      other key points at the id it is given. */
  lemma CollisionBreaksExactly(s: State, cmd: Command)
    requires PointersOk(s) && cmd.AcquireLease? && !Held(s, cmd.key, cmd.timestamp)
    ensures PointersOk(Apply(s, cmd)) <==> forall k :: k in s.keyLeases && k != cmd.key ==> s.keyLeases[k] != cmd.leaseId
  {
    var s' := Apply(s, cmd);
    if k :| k in s.keyLeases && k != cmd.key && s.keyLeases[k] == cmd.leaseId {
      assert k in s'.keyLeases && s'.leases[s'.keyLeases[k]].key == cmd.key;
    }
  }

  /** A renewal, whatever its timestamp, leaves nothing unexpired at `t` but
      the leases their keys point to, exactly when it does not lift a leftover
      over `t`. */
  lemma RevivalBreaksExactly(s: State, t: U64, id: U64, timestamp: U64)
    requires LiveTracked(s, t)
    ensures LiveTracked(Apply(s, RenewLease(id, timestamp)), t) <==>
      !(&& id in s.leases && !Tracked(s, id) && s.leases[id].expiresAt > timestamp
        && Expiry(timestamp, s.leases[id].ttlSecs) > t)
  {
    var s' := Apply(s, RenewLease(id, timestamp));
    forall i | i in s.leases ensures i in s'.leases && (Tracked(s', i) <==> Tracked(s, i)) {
      assert s'.leases[i].key == s.leases[i].key;
    }
  }

  // ------------------------------------------------------------- witnesses

  /** Lease 1 takes the key over from expired lease 0; a sweep nine seconds
      before lease 1 runs out removes it because entry 0 is still stored. */
  lemma SweepKillsLiveLease()
    ensures exists evs, now: U64 ::
      && ValidRun(START, evs + [Sweep(now)])
      && Held(Run(START, evs).state, "k", now)
      && LeaseInfo(Next(Run(START, evs), Sweep(now)).state, "k") == None
  {
    var first, second := AcquireLease("k", 7, 0, 1, 0), AcquireLease("k", 9, 1, 10, 2_000_000_000);
    var evs := [Draw, Commit(first), Draw, Commit(second)];
    var now: U64 := 3_000_000_000;
    var p1 := Next(START, Draw);
    var p2 := Next(p1, Commit(first));
    assert p2.state.leases == map[0 := LeaseEntry(0, "k", 7, 0, 1, 1_000_000_000)];
    var p3 := Next(p2, Draw);
    assert !Held(p3.state, "k", 2_000_000_000);
    var p4 := Next(p3, Commit(second));
    assert p4.state.leases[1] == LeaseEntry(1, "k", 9, 2_000_000_000, 10, 12_000_000_000);
    assert 0 in p4.state.leases && p4.state.leases[0].expiresAt <= now;
    assert KeyHasExpired(p4.state, "k", now);
    RunOfFive(START, Draw, Commit(first), Draw, Commit(second), Sweep(now));
    assert evs + [Sweep(now)] == [Draw, Commit(first), Draw, Commit(second), Sweep(now)];
  }

  lemma RunOfFive(p: Proposer, a: Event, b: Event, c: Event, d: Event, e: Event)
    ensures Run(p, [a, b, c, d]) == Next(Next(Next(Next(p, a), b), c), d)
    ensures ValidRun(p, [a, b, c, d, e]) <==>
      && Enabled(p, a) && Enabled(Next(p, a), b) && Enabled(Next(Next(p, a), b), c)
      && Enabled(Next(Next(Next(p, a), b), c), d) && Enabled(Run(p, [a, b, c, d]), e)
  {
    var p1, p2 := Next(p, a), Next(Next(p, a), b);
    var p3 := Next(p2, c);
    assert [a, b, c, d][1..] == [b, c, d] && [b, c, d][1..] == [c, d] && [c, d][1..] == [d] && [d][1..] == [];
    assert Run(p1, [b, c, d]) == Run(p2, [c, d]) == Run(p3, [d]) == Next(p3, d);
    assert [a, b, c, d, e][1..] == [b, c, d, e] && [b, c, d, e][1..] == [c, d, e];
    assert [c, d, e][1..] == [d, e] && [d, e][1..] == [e] && [e][1..] == [];
    assert ValidRun(p2, [c, d, e]) <==> Enabled(p2, c) && ValidRun(p3, [d, e]);
    assert ValidRun(Next(p3, d), [e]) <==> Enabled(Next(p3, d), e);
    assert ValidRun(p3, [d, e]) <==> Enabled(p3, d) && Enabled(Next(p3, d), e);
  }

  /** Without the clock condition a renewal stamped in the past revives a
      superseded lease: key "k" then has two unexpired leases. */
  lemma BackwardsClockRevivesLease()
    ensures var s := ApplyAll(EMPTY, [AcquireLease("k", 7, 0, 1, 0), AcquireLease("k", 9, 1, 10, 1_000_000_000),
                                      RenewLease(0, 900_000_000)]);
            && 0 in s.leases && 1 in s.leases && s.leases[0].key == s.leases[1].key
            && s.leases[0].expiresAt > 1_000_000_000 && s.leases[1].expiresAt > 1_000_000_000
  {
    var a, b, c := AcquireLease("k", 7, 0, 1, 0), AcquireLease("k", 9, 1, 10, 1_000_000_000), RenewLease(0, 900_000_000);
    var s1 := Apply(EMPTY, a);
    assert s1.leases == map[0 := LeaseEntry(0, "k", 7, 0, 1, 1_000_000_000)];
    var s2 := Apply(s1, b);
    assert s2.leases[0] == s1.leases[0];
    assert [a, b, c][1..] == [b, c] && [b, c][1..] == [c] && [c][1..] == [];
    assert ApplyAll(EMPTY, [a, b, c]) == ApplyAll(s1, [b, c]) == ApplyAll(s2, [c]) == Apply(s2, c);
  }

  /** Two replicas that both propose draw the same id; the second grant then
      overwrites the first, whose key is left pointing at a foreign lease. */
  lemma TwoProposersCollide(s: State, a: string, b: string)
    requires TableOk(Proposer(s, {}, 0)) && a != b
    requires !Held(s, a, 0) && !Held(s, b, 0)
    ensures var id := s.nextLeaseId;
            var t := Apply(Apply(s, AcquireLease(a, 1, id, 10, 0)), AcquireLease(b, 2, id, 10, 0));
            t.keyLeases[a] == id && t.leases[id].key == b && t.leases[id].owner == 2 && !PointersOk(t)
  {
    var id := s.nextLeaseId;
    var m := Apply(s, AcquireLease(a, 1, id, 10, 0));
    assert !Held(m, b, 0) by {
      if b in s.keyLeases { assert s.keyLeases[b] != id; }
    }
    var t := Apply(m, AcquireLease(b, 2, id, 10, 0));
    assert a in t.keyLeases && t.keyLeases[a] == id;
  }
}
