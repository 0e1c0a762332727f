/** Applying a log of lease commands again on top of its own effects. The log's
    history, `At(cmds, j)` for every `j`, is the yardstick: a replaying table
    holds nothing that the history does not hold from here on. */
module LeaseReplay {
  import opened Words
  import opened OwnershipModel
  import opened OwnershipMachine
  import opened LeaseTable
  import opened LeaseHistory

  // ------------------------------------------------------ a replaying table

  ghost predicate Stores(cmds: seq<Command>, j: nat, id: U64, e: LeaseEntry)
    requires j <= |cmds|
  {
    id in At(cmds, j).leases && At(cmds, j).leases[id] == e
  }

  /** The history holds this entry, as it is, somewhere from `k` to `h`. */
  ghost predicate Seen(cmds: seq<Command>, k: nat, h: nat, id: U64, e: LeaseEntry)
    requires h <= |cmds|
  {
    exists j :: k <= j <= h && Stores(cmds, j, id, e)
  }

  ghost predicate Pointed(cmds: seq<Command>, k: nat, h: nat, key: string, id: U64)
    requires h <= |cmds|
  {
    exists j :: k <= j <= h && PointsTo(At(cmds, j), key, id)
  }

  /** The key's lease has run out for good: before `floor` and before every
      command still to come. */
  ghost predicate Overdue(cmds: seq<Command>, k: nat, floor: U64, id: U64)
    requires k <= |cmds|
  {
    && id in At(cmds, k).leases
    && At(cmds, k).leases[id].expiresAt <= floor
    && Before(cmds, k, At(cmds, k).leases[id].expiresAt)
  }

  ghost predicate EntriesSeen(cmds: seq<Command>, k: nat, h: nat, r: State)
    requires h <= |cmds|
  {
    forall id :: id in r.leases ==> Seen(cmds, k, h, id, r.leases[id])
  }

  ghost predicate PointersSeen(cmds: seq<Command>, k: nat, h: nat, r: State)
    requires h <= |cmds|
  {
    forall key :: key in r.keyLeases ==> Pointed(cmds, k, h, key, r.keyLeases[key])
  }

  ghost predicate StraysLeft(cmds: seq<Command>, h: nat, r: State)
    requires h <= |cmds|
  {
    forall id :: id in r.leases ==> Tracked(r, id) || Left(At(cmds, h), id)
  }

  ghost predicate MissingOverdue(cmds: seq<Command>, k: nat, floor: U64, r: State)
    requires k <= |cmds|
  {
    forall key :: key in At(cmds, k).keyLeases && key !in r.keyLeases ==>
      Overdue(cmds, k, floor, At(cmds, k).keyLeases[key])
  }

  /** `r` is about to apply command `k` of a log of which it once applied `h`.
      Its entries and pointers are those of the history from here on, what it
      does not point to is left over at `h` as well, and a key it lacks has run
      out for good. `floor` bounds the sweeps it has been through. */
  ghost predicate Consistent(cmds: seq<Command>, k: nat, h: nat, floor: U64, r: State)
  {
    && k <= h <= |cmds| && PointersOk(r)
    && EntriesSeen(cmds, k, h, r) && PointersSeen(cmds, k, h, r)
    && StraysLeft(cmds, h, r) && MissingOverdue(cmds, k, floor, r)
  }

  lemma SeenNext(cmds: seq<Command>, k: nat, h: nat, id: U64, e: LeaseEntry)
    requires k < h <= |cmds| && Seen(cmds, k, h, id, e)
    requires Stores(cmds, k, id, e) ==> Stores(cmds, k + 1, id, e)
    ensures Seen(cmds, k + 1, h, id, e)
  {
    var j :| k <= j <= h && Stores(cmds, j, id, e);
    if j == k { assert Stores(cmds, k + 1, id, e); }
  }

  lemma PointedNext(cmds: seq<Command>, k: nat, h: nat, key: string, id: U64)
    requires k < h <= |cmds| && Pointed(cmds, k, h, key, id)
    requires PointsTo(At(cmds, k), key, id) ==> PointsTo(At(cmds, k + 1), key, id)
    ensures Pointed(cmds, k + 1, h, key, id)
  {
    var j :| k <= j <= h && PointsTo(At(cmds, j), key, id);
    if j == k { assert PointsTo(At(cmds, k + 1), key, id); }
  }

  /** More history: nothing is lost by looking further ahead. */
  lemma LookAhead(cmds: seq<Command>, k: nat, h: nat, h': nat, floor: U64, r: State)
    requires LogOk(cmds) && Consistent(cmds, k, h, floor, r) && h <= h' <= |cmds|
    ensures Consistent(cmds, k, h', floor, r)
  {
    forall id | id in r.leases ensures Tracked(r, id) || Left(At(cmds, h'), id) {
      if !Tracked(r, id) { LeftStaysLeft(cmds, id, h, h'); }
    }
  }

  /** Starting over: nothing is lost by looking further back. */
  lemma StartOver(cmds: seq<Command>, k: nat, h: nat, floor: U64, r: State)
    requires Consistent(cmds, k, h, floor, r)
    ensures Consistent(cmds, 0, h, floor, r)
  {
    assert cmds[..0] == [];
  }

  /** An old entry of the table has run out exactly when history says so. */
  lemma OldEntry(cmds: seq<Command>, k: nat, h: nat, id: U64, e: LeaseEntry, t: U64)
    requires LogOk(cmds) && k <= h <= |cmds| && Seen(cmds, k, h, id, e) && AskedFor(cmds, k, id) && Before(cmds, k, t)
    ensures id in At(cmds, k).leases
    ensures e == At(cmds, k).leases[id].(expiresAt := e.expiresAt)
    ensures At(cmds, k).leases[id].expiresAt <= e.expiresAt
    ensures e.expiresAt <= t <==> At(cmds, k).leases[id].expiresAt <= t
    ensures e.expiresAt <= t ==> e == At(cmds, k).leases[id]
  {
    var j :| k <= j <= h && Stores(cmds, j, id, e);
    EntryOverTime(cmds, id, k, j);
  }

  lemma YoungEntry(cmds: seq<Command>, k: nat, h: nat, id: U64, e: LeaseEntry)
    requires LogOk(cmds) && k < h <= |cmds| && Stamped(cmds[k]) && Seen(cmds, k, h, id, e) && !AskedFor(cmds, k, id)
    ensures e.expiresAt > cmds[k].timestamp
  {
    var j :| k <= j <= h && Stores(cmds, j, id, e);
    YoungEntryIsAlive(cmds, id, k, j);
  }

  lemma OldPointer(cmds: seq<Command>, k: nat, h: nat, key: string, id: U64)
    requires LogOk(cmds) && k <= h <= |cmds| && Pointed(cmds, k, h, key, id) && AskedFor(cmds, k, id)
    ensures PointsTo(At(cmds, k), key, id)
  {
    var j :| k <= j <= h && PointsTo(At(cmds, j), key, id);
    PointerOverTime(cmds, key, id, k, j);
  }

  // ------------------------------------------------------------ acquisitions

  /** A key the table would grant is one that history grants, and then both
      point at the same lease that has run out, if the table points at all. */
  lemma GrantedByBoth(cmds: seq<Command>, k: nat, h: nat, floor: U64, r: State)
    requires LogOk(cmds) && Consistent(cmds, k, h, floor, r) && k < h && cmds[k].AcquireLease?
    requires !Held(r, cmds[k].key, cmds[k].timestamp)
    ensures !Held(At(cmds, k), cmds[k].key, cmds[k].timestamp)
    ensures cmds[k].key in r.keyLeases ==> PointsTo(At(cmds, k), cmds[k].key, r.keyLeases[cmds[k].key])
  {
    var key, t := cmds[k].key, cmds[k].timestamp;
    assert CommandOk(cmds, k);
    if key in r.keyLeases {
      var id := r.keyLeases[key];
      assert Seen(cmds, k, h, id, r.leases[id]);
      if !AskedFor(cmds, k, id) {
        YoungEntry(cmds, k, h, id, r.leases[id]);
      } else {
        OldPointer(cmds, k, h, key, id);
        OldEntry(cmds, k, h, id, r.leases[id], t);
      }
    }
  }

  /** A key that only the table refuses points past this command. */
  lemma RefusedByTable(cmds: seq<Command>, k: nat, h: nat, floor: U64, r: State)
    requires LogOk(cmds) && Consistent(cmds, k, h, floor, r) && k < h && cmds[k].AcquireLease?
    requires Held(r, cmds[k].key, cmds[k].timestamp) && !Held(At(cmds, k), cmds[k].key, cmds[k].timestamp)
    ensures !PointsTo(At(cmds, k), cmds[k].key, r.keyLeases[cmds[k].key])
  {
    var key, t := cmds[k].key, cmds[k].timestamp;
    var id := r.keyLeases[key];
    assert CommandOk(cmds, k);
    assert Seen(cmds, k, h, id, r.leases[id]);
    if PointsTo(At(cmds, k), key, id) {
      HistoryIsOk(cmds, k);
      StoredIsAcquired(cmds, k, id);
      OldEntry(cmds, k, h, id, r.leases[id], t);
      assert false;
    }
  }

  lemma StoredIsAcquired(cmds: seq<Command>, k: nat, id: U64)
    requires k <= |cmds| && AllGrounded(cmds, k, At(cmds, k)) && id in At(cmds, k).leases
    ensures AskedFor(cmds, k, id)
  {
    var i :| 0 <= i < k && Made(cmds[i], id, At(cmds, k).leases[id]);
    assert Acquires(cmds[i], id);
  }

  /** An acquisition leaves every entry of the history in place. */
  lemma AcquireKeepsEntries(cmds: seq<Command>, k: nat)
    requires LogOk(cmds) && k < |cmds| && cmds[k].AcquireLease?
    ensures forall id, e :: Stores(cmds, k, id, e) ==> Stores(cmds, k + 1, id, e)
    ensures forall key, id :: key != cmds[k].key ==> (PointsTo(At(cmds, k), key, id) <==> PointsTo(At(cmds, k + 1), key, id))
  {
    HistoryIsOk(cmds, k);
    FreshId(cmds, k);
    AtNext(cmds, k);
  }

  lemma OverdueNext(cmds: seq<Command>, k: nat, floor: U64, id: U64)
    requires k < |cmds| && Overdue(cmds, k, floor, id)
    requires Stores(cmds, k + 1, id, At(cmds, k).leases[id])
    ensures Overdue(cmds, k + 1, floor, id)
  {
  }

  lemma EntriesNext(cmds: seq<Command>, k: nat, h: nat, r: State)
    requires k < h <= |cmds| && EntriesSeen(cmds, k, h, r)
    requires forall id :: id in r.leases && Stores(cmds, k, id, r.leases[id]) ==> Stores(cmds, k + 1, id, r.leases[id])
    ensures EntriesSeen(cmds, k + 1, h, r)
  {
    forall id | id in r.leases ensures Seen(cmds, k + 1, h, id, r.leases[id]) {
      SeenNext(cmds, k, h, id, r.leases[id]);
    }
  }

  lemma PointersNext(cmds: seq<Command>, k: nat, h: nat, r: State)
    requires k < h <= |cmds| && PointersSeen(cmds, k, h, r)
    requires forall key :: key in r.keyLeases && PointsTo(At(cmds, k), key, r.keyLeases[key]) ==>
      PointsTo(At(cmds, k + 1), key, r.keyLeases[key])
    ensures PointersSeen(cmds, k + 1, h, r)
  {
    forall key | key in r.keyLeases ensures Pointed(cmds, k + 1, h, key, r.keyLeases[key]) {
      PointedNext(cmds, k, h, key, r.keyLeases[key]);
    }
  }

  /** `s'` points where `s` did, at entries that are as they were. */
  ghost predicate SameTargets(s: State, s': State, key: string)
  {
    && key in s.keyLeases && key in s'.keyLeases && s'.keyLeases[key] == s.keyLeases[key]
    && (s.keyLeases[key] in s.leases ==>
          s.keyLeases[key] in s'.leases && s'.leases[s.keyLeases[key]] == s.leases[s.keyLeases[key]])
  }

  lemma MissingNext(cmds: seq<Command>, k: nat, floor: U64, r: State, r': State)
    requires k < |cmds| && MissingOverdue(cmds, k, floor, r)
    requires forall key :: key in At(cmds, k + 1).keyLeases && key !in r'.keyLeases ==>
      key !in r.keyLeases && SameTargets(At(cmds, k), At(cmds, k + 1), key)
    ensures MissingOverdue(cmds, k + 1, floor, r')
  {
    var s, s' := At(cmds, k), At(cmds, k + 1);
    forall key | key in s'.keyLeases && key !in r'.keyLeases ensures Overdue(cmds, k + 1, floor, s'.keyLeases[key]) {
      assert SameTargets(s, s', key);
      OverdueNext(cmds, k, floor, s.keyLeases[key]);
    }
  }

  lemma MissingAfterAcquire(cmds: seq<Command>, k: nat, floor: U64, r: State, r': State)
    requires LogOk(cmds) && k < |cmds| && cmds[k].AcquireLease? && MissingOverdue(cmds, k, floor, r)
    requires forall key :: key in r.keyLeases || key == cmds[k].key ==> key in r'.keyLeases
    ensures MissingOverdue(cmds, k + 1, floor, r')
  {
    var s, s' := At(cmds, k), At(cmds, k + 1);
    assert forall key :: key in s'.keyLeases && key != cmds[k].key ==> SameTargets(s, s', key) by {
      HistoryIsOk(cmds, k);
      FreshId(cmds, k);
      AtNext(cmds, k);
      AcquireTables(At(cmds, k), cmds[k]);
    }
    MissingNext(cmds, k, floor, r, r');
  }

  lemma RefusedAcquireStep(cmds: seq<Command>, k: nat, h: nat, floor: U64, r: State)
    requires LogOk(cmds) && Consistent(cmds, k, h, floor, r) && k < h && cmds[k].AcquireLease?
    requires Held(r, cmds[k].key, cmds[k].timestamp)
    ensures Consistent(cmds, k + 1, h, floor, Apply(r, cmds[k]))
  {
    AcquireTables(r, cmds[k]);
    AcquireKeepsEntries(cmds, k);
    EntriesNext(cmds, k, h, r);
    assert PointersSeen(cmds, k + 1, h, r) by { RefusedAcquirePointers(cmds, k, h, floor, r); }
    MissingAfterAcquire(cmds, k, floor, r, r);
  }

  lemma RefusedAcquirePointers(cmds: seq<Command>, k: nat, h: nat, floor: U64, r: State)
    requires LogOk(cmds) && Consistent(cmds, k, h, floor, r) && k < h && cmds[k].AcquireLease?
    requires Held(r, cmds[k].key, cmds[k].timestamp)
    ensures PointersSeen(cmds, k + 1, h, r)
  {
    if Held(At(cmds, k), cmds[k].key, cmds[k].timestamp) {
      AtNext(cmds, k);
    } else {
      RefusedByTable(cmds, k, h, floor, r);
      AcquireKeepsEntries(cmds, k);
    }
    PointersNext(cmds, k, h, r);
  }

  /** The entry an acquisition makes is the same wherever it is granted. */
  lemma GrantIsStored(cmds: seq<Command>, k: nat, r: State)
    requires k < |cmds| && cmds[k].AcquireLease?
    requires !Held(r, cmds[k].key, cmds[k].timestamp) && !Held(At(cmds, k), cmds[k].key, cmds[k].timestamp)
    ensures var r', id := Apply(r, cmds[k]), cmds[k].leaseId;
            && id in r'.leases && Stores(cmds, k + 1, id, r'.leases[id])
            && PointsTo(At(cmds, k + 1), cmds[k].key, id)
  {
    AtNext(cmds, k);
    AcquireTables(r, cmds[k]);
    AcquireTables(At(cmds, k), cmds[k]);
  }

  /** If the table holds the id already, it is from a later stretch of history
      and belongs to the same key. */
  lemma ReusedIdIsOwn(cmds: seq<Command>, k: nat, h: nat, r: State)
    requires LogOk(cmds) && k < h <= |cmds| && EntriesSeen(cmds, k, h, r) && cmds[k].AcquireLease?
    requires cmds[k].leaseId in r.leases
    ensures r.leases[cmds[k].leaseId].key == cmds[k].key
  {
    var id := cmds[k].leaseId;
    var j :| k <= j <= h && Stores(cmds, j, id, r.leases[id]);
    HistoryIsOk(cmds, j);
    var i :| 0 <= i < j && Made(cmds[i], id, At(cmds, j).leases[id]);
    OneAcquirer(cmds, i, k, id);
  }

  /** Granting over a lease that has run out leaves it over, here and at `h`. */
  lemma SupersededIsLeft(cmds: seq<Command>, k: nat, h: nat, id: U64)
    requires LogOk(cmds) && k < h <= |cmds| && cmds[k].AcquireLease?
    requires PointsTo(At(cmds, k), cmds[k].key, id) && !Held(At(cmds, k), cmds[k].key, cmds[k].timestamp)
    ensures Left(At(cmds, h), id)
  {
    assert Left(At(cmds, k + 1), id) by {
      HistoryIsOk(cmds, k);
      FreshId(cmds, k);
      AtNext(cmds, k);
      GrantSupersedes(At(cmds, k), cmds[k], id);
    }
    LeftStaysLeft(cmds, id, k + 1, h);
  }

  lemma GrantSupersedes(s: State, cmd: Command, id: U64)
    requires PointersOk(s) && cmd.AcquireLease? && !Held(s, cmd.key, cmd.timestamp) && cmd.leaseId !in s.leases
    requires PointsTo(s, cmd.key, id)
    ensures Left(Apply(s, cmd), id)
  {
    AcquireTables(s, cmd);
  }

  lemma GrantKeepsPointers(r: State, cmd: Command)
    requires PointersOk(r) && cmd.AcquireLease? && !Held(r, cmd.key, cmd.timestamp)
    requires cmd.leaseId in r.leases ==> r.leases[cmd.leaseId].key == cmd.key
    ensures PointersOk(Apply(r, cmd))
  {
  }

  lemma GrantKeepsStrays(cmds: seq<Command>, h: nat, r: State, cmd: Command)
    requires h <= |cmds| && StraysLeft(cmds, h, r) && cmd.AcquireLease? && !Held(r, cmd.key, cmd.timestamp)
    requires cmd.key in r.keyLeases ==> Left(At(cmds, h), r.keyLeases[cmd.key])
    ensures StraysLeft(cmds, h, Apply(r, cmd))
  {
    var r' := Apply(r, cmd);
    forall id | id in r'.leases ensures Tracked(r', id) || Left(At(cmds, h), id) {
      if id != cmd.leaseId { assert Tracked(r, id) || Left(At(cmds, h), id); }
    }
  }

  lemma GrantedEntries(cmds: seq<Command>, k: nat, h: nat, r: State)
    requires LogOk(cmds) && k < h <= |cmds| && cmds[k].AcquireLease? && EntriesSeen(cmds, k, h, r)
    requires !Held(r, cmds[k].key, cmds[k].timestamp) && !Held(At(cmds, k), cmds[k].key, cmds[k].timestamp)
    ensures EntriesSeen(cmds, k + 1, h, Apply(r, cmds[k]))
  {
    var r', newId := Apply(r, cmds[k]), cmds[k].leaseId;
    assert EntriesSeen(cmds, k + 1, h, r) by {
      AcquireKeepsEntries(cmds, k);
      EntriesNext(cmds, k, h, r);
    }
    GrantIsStored(cmds, k, r);
    forall id | id in r'.leases ensures Seen(cmds, k + 1, h, id, r'.leases[id]) {
      if id != newId { assert Seen(cmds, k + 1, h, id, r.leases[id]); }
    }
  }

  lemma GrantedPointers(cmds: seq<Command>, k: nat, h: nat, r: State)
    requires LogOk(cmds) && k < h <= |cmds| && cmds[k].AcquireLease? && PointersSeen(cmds, k, h, r)
    requires !Held(r, cmds[k].key, cmds[k].timestamp) && !Held(At(cmds, k), cmds[k].key, cmds[k].timestamp)
    ensures PointersSeen(cmds, k + 1, h, Apply(r, cmds[k]))
  {
    var r' := Apply(r, cmds[k]);
    AcquireKeepsEntries(cmds, k);
    GrantIsStored(cmds, k, r);
    forall key | key in r'.keyLeases ensures Pointed(cmds, k + 1, h, key, r'.keyLeases[key]) {
      if key != cmds[k].key { PointedNext(cmds, k, h, key, r.keyLeases[key]); }
    }
  }

  lemma GrantedAcquireStep(cmds: seq<Command>, k: nat, h: nat, floor: U64, r: State)
    requires LogOk(cmds) && Consistent(cmds, k, h, floor, r) && k < h && cmds[k].AcquireLease?
    requires !Held(r, cmds[k].key, cmds[k].timestamp)
    ensures Consistent(cmds, k + 1, h, floor, Apply(r, cmds[k]))
  {
    GrantedByBoth(cmds, k, h, floor, r);
    GrantedEntries(cmds, k, h, r);
    GrantedPointers(cmds, k, h, r);
    if cmds[k].leaseId in r.leases { ReusedIdIsOwn(cmds, k, h, r); }
    GrantKeepsPointers(r, cmds[k]);
    if cmds[k].key in r.keyLeases { SupersededIsLeft(cmds, k, h, r.keyLeases[cmds[k].key]); }
    GrantKeepsStrays(cmds, h, r, cmds[k]);
    MissingAfterAcquire(cmds, k, floor, r, Apply(r, cmds[k]));
  }

  // ----------------------------------------------------- renewals, releases

  /** A renewal finds in the table what it finds in the history. */
  lemma RenewedEntry(cmds: seq<Command>, k: nat, h: nat, r: State, id: U64)
    requires LogOk(cmds) && k < h <= |cmds| && EntriesSeen(cmds, k, h, r) && cmds[k].RenewLease? && id in r.leases
    ensures Seen(cmds, k + 1, h, id, Apply(r, cmds[k]).leases[id])
  {
    var c, e := cmds[k], r.leases[id];
    AtNext(cmds, k);
    assert CommandOk(cmds, k);
    assert Seen(cmds, k, h, id, e);
    if id == c.leaseId {
      OldEntry(cmds, k, h, id, e, c.timestamp);
      if e.expiresAt > c.timestamp {
        assert Stores(cmds, k + 1, id, Apply(r, c).leases[id]);
      } else {
        SeenNext(cmds, k, h, id, e);
      }
    } else {
      SeenNext(cmds, k, h, id, e);
    }
  }

  lemma RenewedEntries(cmds: seq<Command>, k: nat, h: nat, r: State)
    requires LogOk(cmds) && k < h <= |cmds| && EntriesSeen(cmds, k, h, r) && cmds[k].RenewLease?
    ensures EntriesSeen(cmds, k + 1, h, Apply(r, cmds[k]))
  {
    forall id | id in r.leases ensures Seen(cmds, k + 1, h, id, Apply(r, cmds[k]).leases[id]) {
      RenewedEntry(cmds, k, h, r, id);
    }
  }

  lemma RenewKeepsStrays(cmds: seq<Command>, h: nat, r: State, cmd: Command)
    requires h <= |cmds| && PointersOk(r) && StraysLeft(cmds, h, r) && cmd.RenewLease?
    ensures PointersOk(Apply(r, cmd)) && StraysLeft(cmds, h, Apply(r, cmd))
  {
    var r' := Apply(r, cmd);
    forall id | id in r'.leases ensures Tracked(r', id) || Left(At(cmds, h), id) {
      assert Tracked(r, id) || Left(At(cmds, h), id);
    }
  }

  lemma RenewKeepsMissing(cmds: seq<Command>, k: nat, floor: U64, r: State)
    requires k < |cmds| && MissingOverdue(cmds, k, floor, r) && cmds[k].RenewLease?
    ensures MissingOverdue(cmds, k + 1, floor, Apply(r, cmds[k]))
  {
    var s, s' := At(cmds, k), At(cmds, k + 1);
    AtNext(cmds, k);
    forall key | key in s'.keyLeases && key !in r.keyLeases ensures SameTargets(s, s', key) {
      assert Overdue(cmds, k, floor, s.keyLeases[key]);
    }
    MissingNext(cmds, k, floor, r, Apply(r, cmds[k]));
  }

  lemma RenewedPointers(cmds: seq<Command>, k: nat, h: nat, r: State)
    requires k < h <= |cmds| && PointersSeen(cmds, k, h, r) && cmds[k].RenewLease?
    ensures PointersSeen(cmds, k + 1, h, Apply(r, cmds[k]))
  {
    AtNext(cmds, k);
    PointersNext(cmds, k, h, r);
  }

  lemma RenewStep(cmds: seq<Command>, k: nat, h: nat, floor: U64, r: State)
    requires LogOk(cmds) && Consistent(cmds, k, h, floor, r) && k < h && cmds[k].RenewLease?
    ensures Consistent(cmds, k + 1, h, floor, Apply(r, cmds[k]))
  {
    RenewedEntries(cmds, k, h, r);
    RenewedPointers(cmds, k, h, r);
    RenewKeepsStrays(cmds, h, r, cmds[k]);
    RenewKeepsMissing(cmds, k, floor, r);
  }

  /** What the history releases and the table does not point to is not in the
      table at all. */
  lemma ReleasedIsPointed(cmds: seq<Command>, k: nat, h: nat, r: State, id: U64)
    requires LogOk(cmds) && k < h <= |cmds| && EntriesSeen(cmds, k, h, r) && StraysLeft(cmds, h, r)
    requires cmds[k].ReleaseLease? && PointsTo(At(cmds, k), cmds[k].key, id) && id in r.leases
    ensures PointsTo(r, cmds[k].key, id)
  {
    HistoryIsOk(cmds, k);
    StoredIsAcquired(cmds, k, id);
    OldEntry(cmds, k, h, id, r.leases[id], 0);
    if !Tracked(r, id) {
      ReleasedForGood(cmds, k, h, id);
      assert false;
    }
  }

  lemma ReleasedForGood(cmds: seq<Command>, k: nat, h: nat, id: U64)
    requires LogOk(cmds) && k < h <= |cmds| && cmds[k].ReleaseLease? && PointsTo(At(cmds, k), cmds[k].key, id)
    ensures id !in At(cmds, h).leases
  {
    HistoryIsOk(cmds, k);
    StoredIsAcquired(cmds, k, id);
    AtNext(cmds, k);
    if id in At(cmds, h).leases {
      EntryOverTime(cmds, id, k + 1, h);
    }
  }

  lemma ReleasedEntries(cmds: seq<Command>, k: nat, h: nat, r: State)
    requires LogOk(cmds) && k < h <= |cmds| && EntriesSeen(cmds, k, h, r) && StraysLeft(cmds, h, r)
    requires cmds[k].ReleaseLease?
    ensures EntriesSeen(cmds, k + 1, h, Apply(r, cmds[k]))
  {
    var r', s, s' := Apply(r, cmds[k]), At(cmds, k), At(cmds, k + 1);
    AtNext(cmds, k);
    forall id | id in r'.leases ensures Seen(cmds, k + 1, h, id, r'.leases[id]) {
      assert r'.leases[id] == r.leases[id] && Seen(cmds, k, h, id, r.leases[id]);
      if PointsTo(s, cmds[k].key, id) { ReleasedIsPointed(cmds, k, h, r, id); }
      SeenNext(cmds, k, h, id, r.leases[id]);
    }
  }

  lemma ReleasedPointers(cmds: seq<Command>, k: nat, h: nat, r: State)
    requires k < h <= |cmds| && PointersSeen(cmds, k, h, r) && cmds[k].ReleaseLease?
    ensures PointersSeen(cmds, k + 1, h, Apply(r, cmds[k]))
  {
    AtNext(cmds, k);
    var r' := Apply(r, cmds[k]);
    assert forall key :: key in r'.keyLeases ==> key in r.keyLeases && r'.keyLeases[key] == r.keyLeases[key];
    PointersNext(cmds, k, h, r');
  }

  lemma ReleaseKeepsStrays(cmds: seq<Command>, h: nat, r: State, cmd: Command)
    requires h <= |cmds| && PointersOk(r) && StraysLeft(cmds, h, r) && cmd.ReleaseLease?
    ensures PointersOk(Apply(r, cmd)) && StraysLeft(cmds, h, Apply(r, cmd))
  {
    var r' := Apply(r, cmd);
    forall id | id in r'.leases ensures Tracked(r', id) || Left(At(cmds, h), id) {
      assert Tracked(r, id) || Left(At(cmds, h), id);
    }
  }

  lemma ReleaseSpares(s: State, cmd: Command, key: string)
    requires PointersOk(s) && cmd.ReleaseLease? && key in Apply(s, cmd).keyLeases
    ensures key != cmd.key && SameTargets(s, Apply(s, cmd), key)
  {
  }

  lemma ReleaseKeepsMissing(cmds: seq<Command>, k: nat, floor: U64, r: State)
    requires LogOk(cmds) && k < |cmds| && MissingOverdue(cmds, k, floor, r) && cmds[k].ReleaseLease?
    ensures MissingOverdue(cmds, k + 1, floor, Apply(r, cmds[k]))
  {
    var s, s', r' := At(cmds, k), At(cmds, k + 1), Apply(r, cmds[k]);
    HistoryIsOk(cmds, k);
    AtNext(cmds, k);
    forall key | key in s'.keyLeases && key !in r'.keyLeases ensures key !in r.keyLeases && SameTargets(s, s', key) {
      ReleaseSpares(s, cmds[k], key);
    }
    MissingNext(cmds, k, floor, r, r');
  }

  lemma ReleaseStep(cmds: seq<Command>, k: nat, h: nat, floor: U64, r: State)
    requires LogOk(cmds) && Consistent(cmds, k, h, floor, r) && k < h && cmds[k].ReleaseLease?
    ensures Consistent(cmds, k + 1, h, floor, Apply(r, cmds[k]))
  {
    ReleasedEntries(cmds, k, h, r);
    ReleasedPointers(cmds, k, h, r);
    ReleaseKeepsStrays(cmds, h, r, cmds[k]);
    ReleaseKeepsMissing(cmds, k, floor, r);
  }

  /** A command that leaves the lease tables alone. */
  lemma TopicStep(cmds: seq<Command>, k: nat, h: nat, floor: U64, r: State, r': State)
    requires Consistent(cmds, k, h, floor, r) && k < h
    requires At(cmds, k + 1).leases == At(cmds, k).leases && At(cmds, k + 1).keyLeases == At(cmds, k).keyLeases
    requires r'.leases == r.leases && r'.keyLeases == r.keyLeases
    ensures Consistent(cmds, k + 1, h, floor, r')
  {
    assert EntriesSeen(cmds, k, h, r') && PointersSeen(cmds, k, h, r');
    EntriesNext(cmds, k, h, r');
    PointersNext(cmds, k, h, r');
    MissingNext(cmds, k, floor, r, r');
    assert StraysLeft(cmds, h, r') by {
      forall id | id in r'.leases ensures Tracked(r', id) || Left(At(cmds, h), id) {
        assert Tracked(r, id) || Left(At(cmds, h), id);
      }
    }
  }

  lemma AcquireStep(cmds: seq<Command>, k: nat, h: nat, floor: U64, r: State)
    requires LogOk(cmds) && Consistent(cmds, k, h, floor, r) && k < h && cmds[k].AcquireLease?
    ensures Consistent(cmds, k + 1, h, floor, Apply(r, cmds[k]))
  {
    if Held(r, cmds[k].key, cmds[k].timestamp) {
      RefusedAcquireStep(cmds, k, h, floor, r);
    } else {
      GrantedAcquireStep(cmds, k, h, floor, r);
    }
  }

  lemma OtherTables(s: State, cmd: Command)
    requires !Stamped(cmd) && !cmd.ReleaseLease? && !cmd.ExpireLeases?
    ensures Apply(s, cmd).leases == s.leases && Apply(s, cmd).keyLeases == s.keyLeases
  {
  }

  lemma OtherStep(cmds: seq<Command>, k: nat, h: nat, floor: U64, r: State)
    requires Consistent(cmds, k, h, floor, r) && k < h
    requires !Stamped(cmds[k]) && !cmds[k].ReleaseLease? && !cmds[k].ExpireLeases?
    ensures Consistent(cmds, k + 1, h, floor, Apply(r, cmds[k]))
  {
    AtNext(cmds, k);
    OtherTables(r, cmds[k]);
    OtherTables(At(cmds, k), cmds[k]);
    TopicStep(cmds, k, h, floor, r, Apply(r, cmds[k]));
  }

  /** One command, replayed. */
  lemma ReplayStep(cmds: seq<Command>, k: nat, h: nat, floor: U64, r: State)
    requires LogOk(cmds) && Consistent(cmds, k, h, floor, r) && k < h
    ensures Consistent(cmds, k + 1, h, floor, Apply(r, cmds[k]))
  {
    if cmds[k].AcquireLease? {
      AcquireStep(cmds, k, h, floor, r);
    } else if cmds[k].RenewLease? {
      RenewStep(cmds, k, h, floor, r);
    } else if cmds[k].ReleaseLease? {
      ReleaseStep(cmds, k, h, floor, r);
    } else {
      assert !cmds[k].ExpireLeases? by { assert CommandOk(cmds, k); }
      OtherStep(cmds, k, h, floor, r);
    }
  }

  // -------------------------------------------------------------- the sweep

  /** A sweep that is on time: no later than any command still to come, and no
      unexpired lease shares its key with an expired entry. */
  ghost predicate OnTime(cmds: seq<Command>, k: nat, r: State, now: U64)
  {
    && Before(cmds, k, now)
    && (forall key :: KeyHasExpired(r, key, now) ==> !Held(r, key, now))
  }

  lemma SweepStep(cmds: seq<Command>, k: nat, h: nat, floor: U64, r: State, now: U64)
    requires LogOk(cmds) && Consistent(cmds, k, h, floor, r) && OnTime(cmds, k, r, now)
    ensures Consistent(cmds, k, h, if floor < now then now else floor, Expire(r, now))
  {
    var r' := Expire(r, now);
    assert PointersOk(r') && EntriesSeen(cmds, k, h, r') && PointersSeen(cmds, k, h, r');
    SweepKeepsStrays(cmds, h, r, now);
    SweepKeepsMissing(cmds, k, h, floor, r, now);
  }

  lemma SweepKeepsStrays(cmds: seq<Command>, h: nat, r: State, now: U64)
    requires h <= |cmds| && StraysLeft(cmds, h, r)
    ensures StraysLeft(cmds, h, Expire(r, now))
  {
    var r' := Expire(r, now);
    forall id | id in r'.leases ensures Tracked(r', id) || Left(At(cmds, h), id) {
      assert Tracked(r, id) || Left(At(cmds, h), id);
    }
  }

  lemma SweepKeepsMissing(cmds: seq<Command>, k: nat, h: nat, floor: U64, r: State, now: U64)
    requires LogOk(cmds) && Consistent(cmds, k, h, floor, r) && OnTime(cmds, k, r, now)
    ensures MissingOverdue(cmds, k, if floor < now then now else floor, Expire(r, now))
  {
    var s, floor' := At(cmds, k), if floor < now then now else floor;
    HistoryIsOk(cmds, k);
    forall key | key in s.keyLeases && key !in Expire(r, now).keyLeases ensures Overdue(cmds, k, floor', s.keyLeases[key]) {
      if key in r.keyLeases {
        SweptIsOverdue(cmds, k, h, r, key, now);
      } else {
        assert Overdue(cmds, k, floor, s.keyLeases[key]);
      }
    }
  }

  lemma SweptIsOverdue(cmds: seq<Command>, k: nat, h: nat, r: State, key: string, now: U64)
    requires LogOk(cmds) && k <= h <= |cmds| && PointersOk(r) && EntriesSeen(cmds, k, h, r) && PointersSeen(cmds, k, h, r)
    requires key in r.keyLeases && !Held(r, key, now) && Before(cmds, k, now) && key in At(cmds, k).keyLeases
    ensures Overdue(cmds, k, now, At(cmds, k).keyLeases[key])
  {
    var id := r.keyLeases[key];
    assert Seen(cmds, k, h, id, r.leases[id]) && Pointed(cmds, k, h, key, id);
    if AskedFor(cmds, k, id) {
      OldPointer(cmds, k, h, key, id);
      OldEntry(cmds, k, h, id, r.leases[id], now);
    } else {
      YoungEntryOutlives(cmds, k, h, id, r.leases[id], now);
      assert false;
    }
  }

  lemma YoungEntryOutlives(cmds: seq<Command>, k: nat, h: nat, id: U64, e: LeaseEntry, t: U64)
    requires LogOk(cmds) && k <= h <= |cmds| && Before(cmds, k, t) && Seen(cmds, k, h, id, e) && !AskedFor(cmds, k, id)
    ensures e.expiresAt > t
  {
    var j :| k <= j <= h && Stores(cmds, j, id, e);
    HistoryIsOk(cmds, j);
    var i :| 0 <= i < j && Made(cmds[i], id, e);
    assert Acquires(cmds[i], id);
  }

  // ------------------------------------------------------------- caught up

  /** Caught up: nothing in the table that the log does not give, and the same
      live lease for every key from `floor` on. */
  lemma CaughtUpShowsHolders(cmds: seq<Command>, h: nat, floor: U64, r: State)
    requires LogOk(cmds) && Consistent(cmds, h, h, floor, r)
    ensures forall id :: id in r.leases ==> id in At(cmds, h).leases && At(cmds, h).leases[id] == r.leases[id]
    ensures forall key, t: U64 :: t >= floor ==> LiveLease(r, key, t) == LiveLease(At(cmds, h), key, t)
  {
    var s := At(cmds, h);
    HistoryIsOk(cmds, h);
    forall id | id in r.leases ensures id in s.leases && s.leases[id] == r.leases[id] {
      assert Seen(cmds, h, h, id, r.leases[id]);
    }
    forall key, t: U64 | t >= floor ensures LiveLease(r, key, t) == LiveLease(s, key, t) {
      if key in r.keyLeases {
        assert Pointed(cmds, h, h, key, r.keyLeases[key]);
      } else if key in s.keyLeases {
        assert Overdue(cmds, h, floor, s.keyLeases[key]);
      }
    }
  }

  // ----------------------------------------------------- nothing was swept

  /** The table points where history does at `j` and holds all that history
      holds of the key there. */
  ghost predicate Mirrors(cmds: seq<Command>, j: nat, key: string, r: State)
    requires j <= |cmds|
  {
    && (forall id :: PointsTo(r, key, id) <==> PointsTo(At(cmds, j), key, id))
    && (forall id :: id in At(cmds, j).leases && At(cmds, j).leases[id].key == key ==> id in r.leases)
  }

  ghost predicate Mirrored(cmds: seq<Command>, k: nat, h: nat, key: string, r: State)
    requires h <= |cmds|
  {
    exists j :: k <= j <= h && Mirrors(cmds, j, key, r)
  }

  /** With no sweep in between nothing is missing. */
  ghost predicate Complete(cmds: seq<Command>, k: nat, h: nat, r: State)
    requires k <= h <= |cmds|
  {
    && At(cmds, k).keyLeases.Keys <= r.keyLeases.Keys
    && (forall key :: Mirrored(cmds, k, h, key, r))
  }

  lemma MirroredNext(cmds: seq<Command>, k: nat, h: nat, key: string, r: State)
    requires k < h <= |cmds| && Mirrored(cmds, k, h, key, r)
    requires Mirrors(cmds, k, key, r) ==> Mirrors(cmds, k + 1, key, r)
    ensures Mirrored(cmds, k + 1, h, key, r)
  {
    var j :| k <= j <= h && Mirrors(cmds, j, key, r);
    if j == k { assert Mirrors(cmds, k + 1, key, r); }
  }

  /** An id belongs to one key throughout. */
  lemma IdKeepsKey(cmds: seq<Command>, j: nat, j': nat, id: U64)
    requires LogOk(cmds) && j <= |cmds| && j' <= |cmds| && id in At(cmds, j).leases && id in At(cmds, j').leases
    ensures At(cmds, j).leases[id].key == At(cmds, j').leases[id].key
  {
    HistoryIsOk(cmds, j);
    HistoryIsOk(cmds, j');
    var a :| 0 <= a < j && Made(cmds[a], id, At(cmds, j).leases[id]);
    var b :| 0 <= b < j' && Made(cmds[b], id, At(cmds, j').leases[id]);
    OneAcquirer(cmds, a, b, id);
  }

  /** What is left over right after a command is in the table already. */
  lemma LeftoverIsHeld(cmds: seq<Command>, k: nat, h: nat, key: string, r: State, id: U64)
    requires LogOk(cmds) && k < h <= |cmds| && Mirrored(cmds, k, h, key, r)
    requires Left(At(cmds, k + 1), id) && At(cmds, k + 1).leases[id].key == key
    requires id in At(cmds, k).leases && At(cmds, k).leases[id].key == key
    ensures id in r.leases
    ensures PointsTo(r, key, id) ==> PointsTo(At(cmds, k), key, id)
  {
    var j :| k <= j <= h && Mirrors(cmds, j, key, r);
    if j > k {
      LeftStaysLeft(cmds, id, k + 1, j);
      IdKeepsKey(cmds, k + 1, j, id);
    }
  }

  lemma MirrorsSame(cmds: seq<Command>, j: nat, key: string, r: State, r': State)
    requires j <= |cmds| && Mirrors(cmds, j, key, r)
    requires forall id :: PointsTo(r, key, id) <==> PointsTo(r', key, id)
    requires forall id :: id in r.leases && id in At(cmds, j).leases && At(cmds, j).leases[id].key == key ==> id in r'.leases
    ensures Mirrors(cmds, j, key, r')
  {
  }

  lemma MirroredSame(cmds: seq<Command>, k: nat, h: nat, key: string, r: State, r': State)
    requires h <= |cmds| && Mirrored(cmds, k, h, key, r)
    requires forall id :: PointsTo(r, key, id) <==> PointsTo(r', key, id)
    requires r.leases.Keys <= r'.leases.Keys
    ensures Mirrored(cmds, k, h, key, r')
  {
    var j :| k <= j <= h && Mirrors(cmds, j, key, r);
    MirrorsSame(cmds, j, key, r, r');
  }

  /** History moves on without touching the key. */
  lemma HistoryLeavesKey(cmds: seq<Command>, k: nat, key: string, r: State)
    requires k < |cmds| && Mirrors(cmds, k, key, r)
    requires forall id :: PointsTo(At(cmds, k), key, id) <==> PointsTo(At(cmds, k + 1), key, id)
    requires forall id :: id in At(cmds, k + 1).leases && At(cmds, k + 1).leases[id].key == key ==>
      id in At(cmds, k).leases && At(cmds, k).leases[id].key == key
    ensures Mirrors(cmds, k + 1, key, r)
  {
  }

  /** If the table mirrors the present, it refuses only what history refuses. */
  lemma MirrorRefuses(cmds: seq<Command>, k: nat, h: nat, floor: U64, r: State)
    requires LogOk(cmds) && Consistent(cmds, k, h, floor, r) && k < h && cmds[k].AcquireLease?
    requires Mirrors(cmds, k, cmds[k].key, r) && Held(r, cmds[k].key, cmds[k].timestamp)
    ensures At(cmds, k + 1) == At(cmds, k)
  {
    AtNext(cmds, k);
    if !Held(At(cmds, k), cmds[k].key, cmds[k].timestamp) {
      RefusedByTable(cmds, k, h, floor, r);
      assert PointsTo(r, cmds[k].key, r.keyLeases[cmds[k].key]);
      assert false;
    }
  }

  lemma AcquireKeepsOtherKey(cmds: seq<Command>, k: nat, key: string, r: State)
    requires k < |cmds| && cmds[k].AcquireLease? && key != cmds[k].key && Mirrors(cmds, k, key, r)
    ensures Mirrors(cmds, k + 1, key, r)
  {
    AtNext(cmds, k);
    HistoryLeavesKey(cmds, k, key, r);
  }

  lemma RefusedAcquireComplete(cmds: seq<Command>, k: nat, h: nat, floor: U64, r: State, key: string)
    requires LogOk(cmds) && Consistent(cmds, k, h, floor, r) && k < h && cmds[k].AcquireLease?
    requires Mirrored(cmds, k, h, key, r) && Held(r, cmds[k].key, cmds[k].timestamp)
    ensures Mirrored(cmds, k + 1, h, key, Apply(r, cmds[k]))
  {
    assert Apply(r, cmds[k]) == r;
    if Mirrors(cmds, k, key, r) { RefusalKeepsMirror(cmds, k, h, floor, r, key); }
    MirroredNext(cmds, k, h, key, r);
  }

  lemma RefusalKeepsMirror(cmds: seq<Command>, k: nat, h: nat, floor: U64, r: State, key: string)
    requires LogOk(cmds) && Consistent(cmds, k, h, floor, r) && k < h && cmds[k].AcquireLease?
    requires Mirrors(cmds, k, key, r) && Held(r, cmds[k].key, cmds[k].timestamp)
    ensures Mirrors(cmds, k + 1, key, r)
  {
    if key == cmds[k].key {
      assert At(cmds, k + 1) == At(cmds, k) by { MirrorRefuses(cmds, k, h, floor, r); }
      MirrorsAlike(cmds, k, k + 1, key, r);
    } else {
      AcquireKeepsOtherKey(cmds, k, key, r);
    }
  }

  lemma MirrorsAlike(cmds: seq<Command>, j: nat, j': nat, key: string, r: State)
    requires j <= |cmds| && j' <= |cmds| && At(cmds, j') == At(cmds, j) && Mirrors(cmds, j, key, r)
    ensures Mirrors(cmds, j', key, r)
  {
  }

  lemma AcquireSparesKey(s: State, cmd: Command, key: string)
    requires cmd.AcquireLease? && key != cmd.key
    ensures forall id :: PointsTo(s, key, id) <==> PointsTo(Apply(s, cmd), key, id)
    ensures s.leases.Keys <= Apply(s, cmd).leases.Keys
  {
    AcquireTables(s, cmd);
  }

  lemma GrantLeavesOthers(cmds: seq<Command>, k: nat, h: nat, r: State, key: string)
    requires k < h <= |cmds| && cmds[k].AcquireLease? && key != cmds[k].key && Mirrored(cmds, k, h, key, r)
    ensures Mirrored(cmds, k + 1, h, key, Apply(r, cmds[k]))
  {
    if Mirrors(cmds, k, key, r) { AcquireKeepsOtherKey(cmds, k, key, r); }
    MirroredNext(cmds, k, h, key, r);
    AcquireSparesKey(r, cmds[k], key);
    MirroredSame(cmds, k + 1, h, key, r, Apply(r, cmds[k]));
  }

  lemma GrantedAcquireComplete(cmds: seq<Command>, k: nat, h: nat, floor: U64, r: State, key: string)
    requires LogOk(cmds) && Consistent(cmds, k, h, floor, r) && k < h && cmds[k].AcquireLease?
    requires Mirrored(cmds, k, h, key, r) && !Held(r, cmds[k].key, cmds[k].timestamp)
    ensures Mirrored(cmds, k + 1, h, key, Apply(r, cmds[k]))
  {
    if key == cmds[k].key {
      GrantedByBoth(cmds, k, h, floor, r);
      GrantMirrors(cmds, k, h, r);
    } else {
      GrantLeavesOthers(cmds, k, h, r, key);
    }
  }

  /** What a grant leaves of its key besides the new lease is left over. */
  lemma GrantLeaves(s: State, cmd: Command, id: U64)
    requires cmd.AcquireLease? && !Held(s, cmd.key, cmd.timestamp) && cmd.leaseId !in s.leases && id != cmd.leaseId
    requires id in Apply(s, cmd).leases && Apply(s, cmd).leases[id].key == cmd.key
    ensures Left(Apply(s, cmd), id) && id in s.leases && s.leases[id] == Apply(s, cmd).leases[id]
  {
  }

  lemma GrantKeepsLeftovers(cmds: seq<Command>, k: nat, h: nat, r: State, id: U64)
    requires LogOk(cmds) && k < h <= |cmds| && cmds[k].AcquireLease? && Mirrored(cmds, k, h, cmds[k].key, r)
    requires !Held(At(cmds, k), cmds[k].key, cmds[k].timestamp) && id != cmds[k].leaseId
    requires id in At(cmds, k + 1).leases && At(cmds, k + 1).leases[id].key == cmds[k].key
    ensures id in r.leases
  {
    HistoryIsOk(cmds, k);
    FreshId(cmds, k);
    AtNext(cmds, k);
    GrantLeaves(At(cmds, k), cmds[k], id);
    LeftoverIsHeld(cmds, k, h, cmds[k].key, r, id);
  }

  lemma GrantPoints(s: State, cmd: Command, id: U64)
    requires cmd.AcquireLease? && !Held(s, cmd.key, cmd.timestamp)
    ensures PointsTo(Apply(s, cmd), cmd.key, id) <==> id == cmd.leaseId
  {
  }

  lemma GrantMirrors(cmds: seq<Command>, k: nat, h: nat, r: State)
    requires LogOk(cmds) && k < h <= |cmds| && cmds[k].AcquireLease? && Mirrored(cmds, k, h, cmds[k].key, r)
    requires !Held(r, cmds[k].key, cmds[k].timestamp) && !Held(At(cmds, k), cmds[k].key, cmds[k].timestamp)
    ensures Mirrors(cmds, k + 1, cmds[k].key, Apply(r, cmds[k]))
  {
    var c, s', r' := cmds[k], At(cmds, k + 1), Apply(r, cmds[k]);
    forall id ensures PointsTo(r', c.key, id) <==> PointsTo(s', c.key, id) {
      AtNext(cmds, k);
      GrantPoints(r, c, id);
      GrantPoints(At(cmds, k), c, id);
    }
    forall id | id in s'.leases && s'.leases[id].key == c.key ensures id in r'.leases {
      if id != c.leaseId { GrantKeepsLeftovers(cmds, k, h, r, id); }
    }
  }

  lemma RenewComplete(cmds: seq<Command>, k: nat, h: nat, r: State, key: string)
    requires k < h <= |cmds| && cmds[k].RenewLease? && Mirrored(cmds, k, h, key, r)
    ensures Mirrored(cmds, k + 1, h, key, Apply(r, cmds[k]))
  {
    if Mirrors(cmds, k, key, r) {
      AtNext(cmds, k);
      HistoryLeavesKey(cmds, k, key, r);
    }
    MirroredNext(cmds, k, h, key, r);
    MirroredSame(cmds, k + 1, h, key, r, Apply(r, cmds[k]));
  }

  lemma ReleaseMirrors(cmds: seq<Command>, k: nat, h: nat, r: State)
    requires LogOk(cmds) && k < h <= |cmds| && cmds[k].ReleaseLease? && Mirrored(cmds, k, h, cmds[k].key, r)
    ensures Mirrors(cmds, k + 1, cmds[k].key, Apply(r, cmds[k]))
  {
    var key, s, s' := cmds[k].key, At(cmds, k), At(cmds, k + 1);
    AtNext(cmds, k);
    forall id | id in s'.leases && s'.leases[id].key == key ensures id in Apply(r, cmds[k]).leases {
      LeftoverIsHeld(cmds, k, h, key, r, id);
    }
  }

  lemma ReleaseLeavesOthers(cmds: seq<Command>, k: nat, h: nat, r: State, key: string)
    requires LogOk(cmds) && k < h <= |cmds| && cmds[k].ReleaseLease? && key != cmds[k].key
    requires PointersOk(r) && EntriesSeen(cmds, k, h, r) && Mirrored(cmds, k + 1, h, key, r)
    ensures Mirrored(cmds, k + 1, h, key, Apply(r, cmds[k]))
  {
    var j :| k + 1 <= j <= h && Mirrors(cmds, j, key, r);
    forall id | id in r.leases && id in At(cmds, j).leases && At(cmds, j).leases[id].key == key
      ensures id in Apply(r, cmds[k]).leases
    {
      assert r.leases[id].key == key by { TableKeepsKey(cmds, k, h, r, id, j); }
      ReleaseSparesEntry(r, cmds[k], id);
    }
    ReleaseSparesPointer(r, cmds[k], key);
    MirrorsSame(cmds, j, key, r, Apply(r, cmds[k]));
  }

  lemma ReleaseSparesPointer(r: State, cmd: Command, key: string)
    requires cmd.ReleaseLease? && key != cmd.key
    ensures forall id :: PointsTo(r, key, id) <==> PointsTo(Apply(r, cmd), key, id)
  {
  }

  lemma TableKeepsKey(cmds: seq<Command>, k: nat, h: nat, r: State, id: U64, j: nat)
    requires LogOk(cmds) && k <= h <= |cmds| && EntriesSeen(cmds, k, h, r) && id in r.leases
    requires j <= |cmds| && id in At(cmds, j).leases
    ensures r.leases[id].key == At(cmds, j).leases[id].key
  {
    var i :| k <= i <= h && Stores(cmds, i, id, r.leases[id]);
    IdKeepsKey(cmds, i, j, id);
  }

  lemma ReleaseSparesEntry(r: State, cmd: Command, id: U64)
    requires PointersOk(r) && cmd.ReleaseLease? && id in r.leases && r.leases[id].key != cmd.key
    ensures id in Apply(r, cmd).leases
  {
  }

  lemma ReleaseComplete(cmds: seq<Command>, k: nat, h: nat, floor: U64, r: State, key: string)
    requires LogOk(cmds) && Consistent(cmds, k, h, floor, r) && k < h && cmds[k].ReleaseLease?
    requires Mirrored(cmds, k, h, key, r)
    ensures Mirrored(cmds, k + 1, h, key, Apply(r, cmds[k]))
  {
    if key == cmds[k].key {
      ReleaseMirrors(cmds, k, h, r);
    } else {
      if Mirrors(cmds, k, key, r) { ReleaseKeepsOtherKey(cmds, k, key, r); }
      MirroredNext(cmds, k, h, key, r);
      ReleaseLeavesOthers(cmds, k, h, r, key);
    }
  }

  lemma ReleaseKeepsOtherKey(cmds: seq<Command>, k: nat, key: string, r: State)
    requires k < |cmds| && cmds[k].ReleaseLease? && key != cmds[k].key && Mirrors(cmds, k, key, r)
    ensures Mirrors(cmds, k + 1, key, r)
  {
    AtNext(cmds, k);
    HistoryLeavesKey(cmds, k, key, r);
  }

  lemma TopicComplete(cmds: seq<Command>, k: nat, h: nat, r: State, key: string)
    requires k < h <= |cmds| && Mirrored(cmds, k, h, key, r)
    requires !Stamped(cmds[k]) && !cmds[k].ReleaseLease? && !cmds[k].ExpireLeases?
    ensures Mirrored(cmds, k + 1, h, key, Apply(r, cmds[k]))
  {
    if Mirrors(cmds, k, key, r) {
      AtNext(cmds, k);
      OtherTables(At(cmds, k), cmds[k]);
      HistoryLeavesKey(cmds, k, key, r);
    }
    MirroredNext(cmds, k, h, key, r);
    OtherTables(r, cmds[k]);
    MirroredSame(cmds, k + 1, h, key, r, Apply(r, cmds[k]));
  }

  lemma KeyComplete(cmds: seq<Command>, k: nat, h: nat, floor: U64, r: State, key: string)
    requires LogOk(cmds) && Consistent(cmds, k, h, floor, r) && k < h && Mirrored(cmds, k, h, key, r)
    ensures Mirrored(cmds, k + 1, h, key, Apply(r, cmds[k]))
  {
    if cmds[k].AcquireLease? {
      if Held(r, cmds[k].key, cmds[k].timestamp) {
        RefusedAcquireComplete(cmds, k, h, floor, r, key);
      } else {
        GrantedAcquireComplete(cmds, k, h, floor, r, key);
      }
    } else if cmds[k].RenewLease? {
      RenewComplete(cmds, k, h, r, key);
    } else if cmds[k].ReleaseLease? {
      ReleaseComplete(cmds, k, h, floor, r, key);
    } else {
      assert !cmds[k].ExpireLeases? by { assert CommandOk(cmds, k); }
      TopicComplete(cmds, k, h, r, key);
    }
  }

  lemma KeysStayCovered(s: State, r: State, cmd: Command)
    requires s.keyLeases.Keys <= r.keyLeases.Keys && !cmd.ExpireLeases?
    ensures Apply(s, cmd).keyLeases.Keys <= Apply(r, cmd).keyLeases.Keys
  {
  }

  lemma CompleteStep(cmds: seq<Command>, k: nat, h: nat, floor: U64, r: State)
    requires LogOk(cmds) && Consistent(cmds, k, h, floor, r) && Complete(cmds, k, h, r) && k < h
    ensures Complete(cmds, k + 1, h, Apply(r, cmds[k]))
  {
    var r' := Apply(r, cmds[k]);
    assert At(cmds, k + 1).keyLeases.Keys <= r'.keyLeases.Keys by {
      AtNext(cmds, k);
      assert CommandOk(cmds, k);
      KeysStayCovered(At(cmds, k), r, cmds[k]);
    }
    var next := k + 1;
    forall key ensures Mirrored(cmds, next, h, key, r') {
      assert Mirrored(cmds, k, h, key, r);
      KeyComplete(cmds, k, h, floor, r, key);
    }
  }

  /** Caught up with nothing swept: the lease tables are those of the log. */
  lemma CaughtUpIsExact(cmds: seq<Command>, h: nat, floor: U64, r: State)
    requires LogOk(cmds) && Consistent(cmds, h, h, floor, r) && Complete(cmds, h, h, r)
    ensures r.leases == At(cmds, h).leases && r.keyLeases == At(cmds, h).keyLeases
  {
    var s := At(cmds, h);
    CaughtUpShowsHolders(cmds, h, floor, r);
    forall id | id in s.leases ensures id in r.leases {
      assert Mirrored(cmds, h, h, s.leases[id].key, r);
    }
    forall key | key in r.keyLeases ensures key in s.keyLeases && s.keyLeases[key] == r.keyLeases[key] {
      assert Mirrored(cmds, h, h, key, r);
      assert PointsTo(r, key, r.keyLeases[key]);
    }
  }
}
