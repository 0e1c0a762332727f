/** The history of a log of lease commands: the tables after each of its
    prefixes, applied once from empty, and how entries and pointers move along
    it. */
module LeaseHistory {
  import opened Words
  import opened OwnershipModel
  import opened OwnershipMachine
  import opened LeaseTable

  // ------------------------------------------------------------- the history

  /** The state after the first `j` commands, applied once from empty. */
  ghost function At(cmds: seq<Command>, j: nat): State
    requires j <= |cmds|
  {
    ApplyAll(EMPTY, cmds[..j])
  }

  lemma AtNext(cmds: seq<Command>, j: nat)
    requires j < |cmds|
    ensures At(cmds, j + 1) == Apply(At(cmds, j), cmds[j])
  {
    var s := At(cmds, j);
    assert cmds[..j + 1] == cmds[..j] + [cmds[j]];
    ApplyAllConcat(EMPTY, cmds[..j], [cmds[j]]);
    assert [cmds[j]][1..] == [];
    assert ApplyAll(s, [cmds[j]]) == ApplyAll(Apply(s, cmds[j]), []);
  }

  predicate Stamped(cmd: Command)
  {
    cmd.AcquireLease? || cmd.RenewLease?
  }

  predicate Acquires(cmd: Command, id: U64)
  {
    cmd.AcquireLease? && cmd.leaseId == id
  }

  ghost predicate AskedFor(cmds: seq<Command>, j: nat, id: U64)
    requires j <= |cmds|
  {
    exists i :: 0 <= i < j && Acquires(cmds[i], id)
  }

  /** No command from position `k` on is stamped before `t`. */
  ghost predicate Before(cmds: seq<Command>, k: nat, t: U64)
  {
    forall i :: k <= i < |cmds| && Stamped(cmds[i]) ==> t <= cmds[i].timestamp
  }

  ghost predicate CommandOk(cmds: seq<Command>, i: nat)
    requires i < |cmds|
  {
    match cmds[i]
    case AcquireLease(_, _, id, ttlSecs, timestamp) =>
      !AskedFor(cmds, i, id) && Expiry(timestamp, ttlSecs) > timestamp && Before(cmds, i, timestamp)
    case RenewLease(id, timestamp) => AskedFor(cmds, i, id) && Before(cmds, i, timestamp)
    case ExpireLeases(_) => false
    case _ => true
  }

  /** Logs without expiry commands whose ids are fresh, whose timestamps do not
      run backwards, whose renewals name ids acquired before, and whose grants
      do not run out as they are made. */
  ghost predicate LogOk(cmds: seq<Command>)
  {
    forall i :: 0 <= i < |cmds| ==> CommandOk(cmds, i)
  }

  /** The acquisition that made an entry. */
  ghost predicate Made(cmd: Command, id: U64, e: LeaseEntry)
  {
    && Acquires(cmd, id) && Expiry(cmd.timestamp, cmd.ttlSecs) > cmd.timestamp
    && e == LeaseEntry(id, cmd.key, cmd.owner, cmd.timestamp, cmd.ttlSecs, e.expiresAt)
    && e.expiresAt > cmd.timestamp
  }

  /** The command whose timestamp the entry's expiry was computed from. */
  ghost predicate Dated(cmd: Command, e: LeaseEntry)
  {
    Stamped(cmd) && e.expiresAt == Expiry(cmd.timestamp, e.ttlSecs)
  }

  ghost predicate Grounded(cmds: seq<Command>, j: nat, id: U64, e: LeaseEntry)
    requires j <= |cmds|
  {
    && (exists i :: 0 <= i < j && Made(cmds[i], id, e))
    && (exists i :: 0 <= i < j && Dated(cmds[i], e))
  }

  ghost predicate AllGrounded(cmds: seq<Command>, j: nat, s: State)
    requires j <= |cmds|
  {
    forall id :: id in s.leases ==> Grounded(cmds, j, id, s.leases[id])
  }

  ghost predicate HistoryOk(cmds: seq<Command>, j: nat)
    requires j <= |cmds|
  {
    PointersOk(At(cmds, j)) && AllGrounded(cmds, j, At(cmds, j))
  }

  lemma GroundedNext(cmds: seq<Command>, j: nat, id: U64, e: LeaseEntry)
    requires j < |cmds| && Grounded(cmds, j, id, e)
    ensures Grounded(cmds, j + 1, id, e)
  {
  }

  /** A renewal that takes effect never shortens a lease. */
  lemma RenewalExtends(cmds: seq<Command>, j: nat, id: U64, e: LeaseEntry)
    requires LogOk(cmds) && j < |cmds| && cmds[j].RenewLease? && Grounded(cmds, j, id, e)
    requires e.expiresAt > cmds[j].timestamp
    ensures Expiry(cmds[j].timestamp, e.ttlSecs) > cmds[j].timestamp
    ensures Expiry(cmds[j].timestamp, e.ttlSecs) >= e.expiresAt
    ensures Grounded(cmds, j + 1, id, e.(expiresAt := Expiry(cmds[j].timestamp, e.ttlSecs)))
  {
    var e' := e.(expiresAt := Expiry(cmds[j].timestamp, e.ttlSecs));
    var i :| 0 <= i < j && Made(cmds[i], id, e);
    var r :| 0 <= r < j && Dated(cmds[r], e);
    assert CommandOk(cmds, i) && CommandOk(cmds, r);
    assert Made(cmds[i], id, e') && Dated(cmds[j], e');
  }

  /** A stored lease that is not its key's lease any more. */
  ghost predicate Left(s: State, id: U64)
  {
    id in s.leases && !Tracked(s, id)
  }

  /** What one command may do to the history: entries appear by acquisition
      only and change by renewal only, leftovers stay, and a key comes to point
      at a lease by its acquisition only. */
  ghost predicate Evolves(s: State, s': State, cmd: Command)
  {
    && (forall id :: id in s'.leases && !Acquires(cmd, id) ==> id in s.leases && Grows(s.leases[id], s'.leases[id], cmd))
    && (forall id :: Left(s, id) ==> Left(s', id))
    && (forall key, id :: PointsTo(s', key, id) && !Acquires(cmd, id) ==> PointsTo(s, key, id))
  }

  ghost predicate Grows(e: LeaseEntry, e': LeaseEntry, cmd: Command)
  {
    && e' == e.(expiresAt := e'.expiresAt) && e.expiresAt <= e'.expiresAt
    && (e' == e || (Stamped(cmd) && e.expiresAt > cmd.timestamp))
  }

  lemma FreshId(cmds: seq<Command>, j: nat)
    requires LogOk(cmds) && j < |cmds| && AllGrounded(cmds, j, At(cmds, j)) && cmds[j].AcquireLease?
    ensures cmds[j].leaseId !in At(cmds, j).leases
  {
    assert CommandOk(cmds, j);
  }

  function NewLease(cmd: Command): LeaseEntry
    requires cmd.AcquireLease?
  {
    LeaseEntry(cmd.leaseId, cmd.key, cmd.owner, cmd.timestamp, cmd.ttlSecs, Expiry(cmd.timestamp, cmd.ttlSecs))
  }

  /** What a grant does to the two lease tables. */
  ghost predicate Grants(s: State, s': State, cmd: Command)
    requires cmd.AcquireLease?
  {
    && s'.leases == s.leases[cmd.leaseId := NewLease(cmd)]
    && s'.keyLeases == s.keyLeases[cmd.key := cmd.leaseId]
  }

  lemma AcquireTables(s: State, cmd: Command)
    requires cmd.AcquireLease?
    ensures Held(s, cmd.key, cmd.timestamp) ==> Apply(s, cmd) == s
    ensures !Held(s, cmd.key, cmd.timestamp) ==> Grants(s, Apply(s, cmd), cmd)
  {
  }

  lemma GrantEvolves(s: State, s': State, cmd: Command)
    requires PointersOk(s) && cmd.AcquireLease? && cmd.leaseId !in s.leases && Grants(s, s', cmd)
    ensures PointersOk(s') && Evolves(s, s', cmd)
  {
  }

  lemma AcquireEvolves(s: State, cmd: Command)
    requires PointersOk(s) && cmd.AcquireLease? && cmd.leaseId !in s.leases
    ensures PointersOk(Apply(s, cmd)) && Evolves(s, Apply(s, cmd), cmd)
  {
    AcquireTables(s, cmd);
    if !Held(s, cmd.key, cmd.timestamp) { GrantEvolves(s, Apply(s, cmd), cmd); }
  }

  lemma RenewEvolves(s: State, cmd: Command)
    requires PointersOk(s) && cmd.RenewLease?
    requires cmd.leaseId in s.leases && s.leases[cmd.leaseId].expiresAt > cmd.timestamp ==>
      Expiry(cmd.timestamp, s.leases[cmd.leaseId].ttlSecs) >= s.leases[cmd.leaseId].expiresAt
    ensures PointersOk(Apply(s, cmd)) && Evolves(s, Apply(s, cmd), cmd)
  {
  }

  lemma OthersEvolve(s: State, cmd: Command)
    requires PointersOk(s) && !Stamped(cmd) && !cmd.ExpireLeases?
    ensures PointersOk(Apply(s, cmd)) && Evolves(s, Apply(s, cmd), cmd)
  {
  }

  lemma NewEntryIsGrounded(cmds: seq<Command>, j: nat)
    requires LogOk(cmds) && j < |cmds| && cmds[j].AcquireLease?
    ensures Grounded(cmds, j + 1, cmds[j].leaseId, NewLease(cmds[j]))
  {
    assert CommandOk(cmds, j);
    assert Made(cmds[j], cmds[j].leaseId, NewLease(cmds[j])) && Dated(cmds[j], NewLease(cmds[j]));
  }

  lemma StepIsGrounded(cmds: seq<Command>, j: nat, s: State)
    requires LogOk(cmds) && j < |cmds| && AllGrounded(cmds, j, s)
    ensures AllGrounded(cmds, j + 1, Apply(s, cmds[j]))
  {
    var s' := Apply(s, cmds[j]);
    assert CommandOk(cmds, j);
    forall id | id in s'.leases ensures Grounded(cmds, j + 1, id, s'.leases[id]) {
      EntryOrigin(s, cmds[j], id);
      if id in s.leases && s'.leases[id] == s.leases[id] {
        GroundedNext(cmds, j, id, s.leases[id]);
      } else if cmds[j].RenewLease? {
        RenewalExtends(cmds, j, id, s.leases[id]);
      } else {
        NewEntryIsGrounded(cmds, j);
      }
    }
  }

  /** Where an entry comes from: kept, renewed or granted. */
  lemma EntryOrigin(s: State, cmd: Command, id: U64)
    requires id in Apply(s, cmd).leases && !cmd.ExpireLeases?
    ensures var e := Apply(s, cmd).leases[id];
            || (id in s.leases && e == s.leases[id])
            || (&& cmd.RenewLease? && id in s.leases && s.leases[id].expiresAt > cmd.timestamp
                && e == s.leases[id].(expiresAt := Expiry(cmd.timestamp, s.leases[id].ttlSecs)))
            || (cmd.AcquireLease? && id == cmd.leaseId && e == NewLease(cmd))
  {
  }

  lemma StepEvolves(cmds: seq<Command>, j: nat)
    requires LogOk(cmds) && j < |cmds| && HistoryOk(cmds, j)
    ensures HistoryOk(cmds, j + 1) && Evolves(At(cmds, j), At(cmds, j + 1), cmds[j])
  {
    var s, c := At(cmds, j), cmds[j];
    AtNext(cmds, j);
    StepIsGrounded(cmds, j, s);
    assert CommandOk(cmds, j);
    match c
    case AcquireLease(_, _, _, _, _) =>
      FreshId(cmds, j);
      AcquireEvolves(s, c);
    case RenewLease(id, timestamp) =>
      if id in s.leases && s.leases[id].expiresAt > timestamp {
        RenewalExtends(cmds, j, id, s.leases[id]);
      }
      RenewEvolves(s, c);
    case _ => OthersEvolve(s, c);
  }

  lemma {:induction false} HistoryIsOk(cmds: seq<Command>, j: nat)
    requires LogOk(cmds) && j <= |cmds|
    ensures HistoryOk(cmds, j)
  {
    if j == 0 {
      assert cmds[..0] == [];
    } else {
      HistoryIsOk(cmds, j - 1);
      StepEvolves(cmds, j - 1);
    }
  }

  // --------------------------------------------- the history over a distance

  lemma EntryOneStep(cmds: seq<Command>, id: U64, j: nat)
    requires LogOk(cmds) && j < |cmds| && !Acquires(cmds[j], id) && id in At(cmds, j + 1).leases
    ensures id in At(cmds, j).leases && Grows(At(cmds, j).leases[id], At(cmds, j + 1).leases[id], cmds[j])
  {
    HistoryIsOk(cmds, j);
    StepEvolves(cmds, j);
  }

  /** An id acquired before `j` and stored later was stored at `j` already; its
      expiry has only grown, and not at all if it had run out. */
  lemma {:induction false} EntryOverTime(cmds: seq<Command>, id: U64, j: nat, j': nat)
    requires LogOk(cmds) && j <= j' <= |cmds| && AskedFor(cmds, j, id) && id in At(cmds, j').leases
    ensures id in At(cmds, j).leases
    ensures var e, e' := At(cmds, j).leases[id], At(cmds, j').leases[id];
            && e' == e.(expiresAt := e'.expiresAt) && e.expiresAt <= e'.expiresAt
            && (Before(cmds, j, e.expiresAt) ==> e' == e)
    decreases j'
  {
    if j == j' {
    } else {
      var before := j' - 1;
      assert !Acquires(cmds[before], id) by { AcquiredOnce(cmds, j, before, id); }
      EntryOneStep(cmds, id, before);
      EntryOverTime(cmds, id, j, before);
    }
  }

  lemma AcquiredOnce(cmds: seq<Command>, j: nat, i: nat, id: U64)
    requires LogOk(cmds) && j <= i < |cmds| && AskedFor(cmds, j, id)
    ensures !Acquires(cmds[i], id) && AskedFor(cmds, i, id)
  {
    assert CommandOk(cmds, i);
  }

  lemma OneAcquirer(cmds: seq<Command>, i: nat, j: nat, id: U64)
    requires LogOk(cmds) && i < |cmds| && j < |cmds| && Acquires(cmds[i], id) && Acquires(cmds[j], id)
    ensures i == j
  {
    assert CommandOk(cmds, i) && CommandOk(cmds, j);
  }

  lemma {:induction false} LeftStaysLeft(cmds: seq<Command>, id: U64, j: nat, j': nat)
    requires LogOk(cmds) && j <= j' <= |cmds| && Left(At(cmds, j), id)
    ensures Left(At(cmds, j'), id)
    decreases j'
  {
    if j == j' {
    } else {
      HistoryIsOk(cmds, j' - 1);
      StepEvolves(cmds, j' - 1);
      LeftStaysLeft(cmds, id, j, j' - 1);
    }
  }

  lemma PointerOneStep(cmds: seq<Command>, key: string, id: U64, j: nat)
    requires LogOk(cmds) && j < |cmds| && !Acquires(cmds[j], id) && PointsTo(At(cmds, j + 1), key, id)
    ensures PointsTo(At(cmds, j), key, id)
  {
    HistoryIsOk(cmds, j);
    StepEvolves(cmds, j);
  }

  lemma {:induction false} PointerOverTime(cmds: seq<Command>, key: string, id: U64, j: nat, j': nat)
    requires LogOk(cmds) && j <= j' <= |cmds| && AskedFor(cmds, j, id) && PointsTo(At(cmds, j'), key, id)
    ensures PointsTo(At(cmds, j), key, id)
    decreases j'
  {
    if j == j' {
    } else {
      var before := j' - 1;
      assert !Acquires(cmds[before], id) by { AcquiredOnce(cmds, j, before, id); }
      PointerOneStep(cmds, key, id, before);
      PointerOverTime(cmds, key, id, j, before);
    }
  }

  /** An entry made at or after position `k` outlives the timestamp there. */
  lemma YoungEntryIsAlive(cmds: seq<Command>, id: U64, k: nat, j: nat)
    requires LogOk(cmds) && k < |cmds| && Stamped(cmds[k]) && j <= |cmds|
    requires id in At(cmds, j).leases && !AskedFor(cmds, k, id)
    ensures At(cmds, j).leases[id].expiresAt > cmds[k].timestamp
  {
    HistoryIsOk(cmds, j);
    var i :| 0 <= i < j && Made(cmds[i], id, At(cmds, j).leases[id]);
    assert Acquires(cmds[i], id);
    assert CommandOk(cmds, k);
  }
}
