/** The storage object driven through the steps of a crashing node: every call
    on it is the step it is named after, so the recovery theorems are about the
    tables it holds. */
module StorageRuns {
  import opened Words
  import opened OwnershipModel
  import opened OwnershipMachine
  import opened LogEntries
  import opened Storage
  import opened Recovery
  import LeaseRecovery

  /** The stored map holds exactly the entries of `es` from `first` on, each
      under its position. */
  ghost predicate Holds(log: Log, first: nat, es: seq<Entry>)
  {
    && |es| <= U64_MAX
    && (forall k: U64 :: k in log <==> first <= k < |es|)
    && (forall k: U64 :: k in log ==> log[k] == es[k])
  }

  ghost predicate Represents(s: RaftStorage, n: Node)
    reads s, s.machine
  {
    && s.Valid() && s.persistent && !s.dirty
    && SameLog(n) && Holds(s.log, n.purged, n.log)
    && s.machine.View() == n.mem
    && (if s.stateFile.Some? then s.stateFile.value else EMPTY) == n.disk
  }

  /** New entries carry the indices that follow the log. */
  ghost predicate Storable(n: Node, step: Step)
  {
    step.Append? ==>
      && |n.log| + |step.es| <= U64_MAX
      && forall i :: 0 <= i < |step.es| ==> step.es[i].logId.index == |n.log| + i
  }

  ghost predicate StorableRun(n: Node, steps: seq<Step>)
    requires ValidRun(n, steps)
    decreases |steps|
  {
    steps == [] || (Storable(n, steps[0]) && StorableRun(Next(n, steps[0]), steps[1..]))
  }

  lemma {:induction false} InsertAllOther(log: Log, es: seq<Entry>, k: U64)
    requires k in log && forall i :: 0 <= i < |es| ==> es[i].logId.index != k
    ensures k in InsertAll(log, es) && InsertAll(log, es)[k] == log[k]
    decreases |es|
  {
    if es == [] {
    } else {
      InsertAllOther(log, es[..|es| - 1], k);
    }
  }

  lemma AppendHolds(log: Log, first: nat, before: seq<Entry>, es: seq<Entry>)
    requires Holds(log, first, before) && first <= |before| && |before| + |es| <= U64_MAX
    requires forall i :: 0 <= i < |es| ==> es[i].logId.index == |before| + i
    ensures Holds(InsertAll(log, es), first, before + es)
  {
    InsertAllKeys(log, es);
    var log', all := InsertAll(log, es), before + es;
    forall k: U64 ensures k in log' <==> first <= k < |all| {
      if |before| <= k < |all| { assert es[k - |before|].logId.index == k; }
    }
    forall k: U64 | k in log' ensures log'[k] == all[k] {
      if k < |before| {
        InsertAllOther(log, es, k);
      } else {
        InsertAllGet(log, es, k - |before|);
      }
    }
  }

  lemma TruncateHolds(log: Log, first: nat, es: seq<Entry>, keep: nat)
    requires Holds(log, first, es) && first <= keep <= |es|
    ensures Holds(CutFrom(log, keep), first, es[..keep])
  {
  }

  lemma PurgeHolds(log: Log, first: nat, es: seq<Entry>, upto: nat)
    requires Holds(log, first, es) && first <= upto <= |es| && upto > 0
    ensures Holds(PurgeUpto(log, upto - 1), upto, es)
  {
  }

  /** Reading a range of a log held this way gives that stretch of entries. */
  lemma RangeIsSlice(log: Log, first: nat, es: seq<Entry>, i: nat, j: nat, read: seq<Entry>)
    requires Holds(log, first, es) && Indexed(log) && first <= i <= j <= |es| && Lists(log, i, j, read)
    ensures read == es[i..j]
  {
    assert GapFree(log, first, |es|);
    RangeReadIsConsecutive(log, first, |es|, i, j, read);
    forall k | 0 <= k < |read| ensures read[k] == es[i..j][k] {
      assert read[k].logId.index == i + k;
    }
  }

  method Append(s: RaftStorage, ghost n: Node, es: seq<Entry>)
    requires Represents(s, n) && Storable(n, Step.Append(es))
    modifies s
    ensures Represents(s, Next(n, Step.Append(es)))
  {
    s.AppendToLog(es);
    AppendHolds(old(s.log), n.purged, n.log, es);
    StepKeepsLog(n, Step.Append(es));
  }

  method Truncate(s: RaftStorage, ghost n: Node, keep: nat)
    requires Represents(s, n) && Enabled(n, Step.Truncate(keep))
    modifies s
    ensures Represents(s, Next(n, Step.Truncate(keep)))
  {
    StepKeepsLog(n, Step.Truncate(keep));
    s.DeleteConflictLogsSince(LogId(0, 0, keep));
    TruncateHolds(old(s.log), n.purged, n.log, keep);
  }

  method Purge(s: RaftStorage, ghost n: Node, upto: nat)
    requires Represents(s, n) && Enabled(n, Step.Purge(upto))
    modifies s
    ensures Represents(s, Next(n, Step.Purge(upto)))
  {
    StepKeepsLog(n, Step.Purge(upto));
    if upto > 0 {
      s.PurgeLogsUpto(LogId(0, 0, upto - 1));
      PurgeHolds(old(s.log), n.purged, n.log, upto);
    }
  }

  /** Read the entries from position `applied` on. */
  method ReadNext(s: RaftStorage, ghost n: Node, applied: nat, k: nat) returns (es: seq<Entry>)
    requires Represents(s, n) && Enabled(n, Step.ApplyBatch(k)) && applied == n.applied
    ensures es == n.log[n.applied..n.applied + k]
  {
    var r := s.TryGetLogEntries(Included(applied), Excluded(applied + k));
    RangeIsSlice(s.log, n.purged, n.log, applied, applied + k, r.value);
    es := r.value;
  }

  /** Read the next `k` entries from the log and apply them. `applied` is the
      position the Raft core keeps. */
  method ApplyNext(s: RaftStorage, ghost n: Node, applied: nat, k: nat) returns (answers: seq<Response>)
    requires Represents(s, n) && Enabled(n, Step.ApplyBatch(k)) && applied == n.applied
    modifies s, s.machine
    ensures Represents(s, Next(n, Step.ApplyBatch(k)))
    ensures AllTold(n.mem, n.log[n.applied..n.applied + k], answers)
  {
    StepKeepsLog(n, Step.ApplyBatch(k));
    var es := ReadNext(s, n, applied, k);
    answers := ApplyRead(s, n, es);
  }

  /** One answer per entry, each telling what the entry met and did. */
  ghost predicate AllTold(s: State, es: seq<Entry>, answers: seq<Response>)
  {
    && |answers| == |es|
    && forall i :: 0 <= i < |es| ==> Tells(ApplyEntries(s, es[..i]), es[i], answers[i])
  }

  method ApplyRead(s: RaftStorage, ghost n: Node, es: seq<Entry>) returns (answers: seq<Response>)
    requires s.Valid() && s.persistent && !s.dirty && s.machine.View() == n.mem
    requires (if s.stateFile.Some? then s.stateFile.value else EMPTY) == n.disk
    modifies s, s.machine
    ensures s.Valid() && !s.dirty && s.log == old(s.log) && s.machine.View() == ApplyEntries(n.mem, es)
    ensures (if s.stateFile.Some? then s.stateFile.value else EMPTY) ==
      if Commands(es) != [] then ApplyEntries(n.mem, es) else n.disk
    ensures AllTold(n.mem, es, answers)
  {
    answers := s.ApplyToStateMachine(es);
  }

  method Sweep(s: RaftStorage, ghost n: Node, now: U64)
    requires Represents(s, n)
    modifies s.machine
    ensures Represents(s, Next(n, Step.Sweep(now)))
  {
    var count := s.machine.ExpireStale(now);
  }

  method DrawId(s: RaftStorage, ghost n: Node)
    requires Represents(s, n)
    modifies s.machine
    ensures Represents(s, Next(n, Step.DrawId))
  {
    var id := s.machine.NextLeaseId();
  }

  method Crash(s: RaftStorage, ghost n: Node) returns (t: RaftStorage)
    requires Represents(s, n)
    ensures fresh(t) && fresh(t.machine) && Represents(t, Next(n, Step.Crash))
  {
    t := Restart(s);
    StepKeepsLog(n, Step.Crash);
  }

  /** Any step of the node, performed on the object. Of `n` the body uses only
      the position the Raft core keeps. */
  method Perform(s: RaftStorage, n: Node, step: Step) returns (t: RaftStorage)
    requires Represents(s, n) && Enabled(n, step) && Storable(n, step)
    modifies s, s.machine
    ensures Represents(t, Next(n, step))
    ensures t == s || (fresh(t) && fresh(t.machine))
  {
    t := s;
    match step
    case Append(es) => Append(s, n, es);
    case Truncate(keep) => Truncate(s, n, keep);
    case Purge(upto) => Purge(s, n, upto);
    case ApplyBatch(k) => var answers := ApplyNext(s, n, n.applied, k);
    case Sweep(now) => Sweep(s, n, now);
    case DrawId => DrawId(s, n);
    case Crash => t := Crash(s, n);
  }

  /** A whole run on the object. What the recovery theorems say of the run they
      say of the tables in the object: with the log kept whole its owner map
      is that of the committed log, and so are its leases where they recover. */
  method Execute(steps: seq<Step>) returns (s: RaftStorage)
    requires ValidRun(FRESH, steps) && StorableRun(FRESH, steps)
    ensures fresh(s) && Represents(s, Run(FRESH, steps))
    ensures var n := Run(FRESH, steps);
            Unpurged(steps) && n.applied == n.high ==>
              s.machine.ownership == ApplyEntries(EMPTY, n.truth[..n.applied]).ownership
    ensures var n := Run(FRESH, steps);
            LeaseRecovery.SafeRun(FRESH, steps, 0) && LeaseRecovery.Unswept(steps) && n.applied == n.high ==>
              var once := ApplyEntries(EMPTY, n.truth[..n.applied]);
              s.machine.leases == once.leases && s.machine.keyLeases == once.keyLeases
  {
    s := new RaftStorage.WithPersistence(None, None);
    var n := FRESH;
    for i := 0 to |steps|
      invariant ValidRun(n, steps[i..]) && StorableRun(n, steps[i..])
      invariant Run(n, steps[i..]) == Run(FRESH, steps)
      invariant fresh(s) && fresh(s.machine) && Represents(s, n)
    {
      assert steps[i..][1..] == steps[i + 1..];
      s := Perform(s, n, steps[i]);
      n := Next(n, steps[i]);
    }
    assert n == Run(FRESH, steps);
    if Unpurged(steps) { RecoveryIsExact(steps); }
    if LeaseRecovery.SafeRun(FRESH, steps, 0) && LeaseRecovery.Unswept(steps) { LeaseRecovery.LeasesRecover(steps); }
  }
}
