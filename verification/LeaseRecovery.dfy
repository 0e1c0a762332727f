/** Leases through crashes: what a node that replays its log on top of the saved
    state ends up with. */
module LeaseRecovery {
  import opened Words
  import opened OwnershipModel
  import opened OwnershipMachine
  import opened LogEntries
  import opened Storage
  import opened LeaseTable
  import opened LeaseHistory
  import opened LeaseReplay
  import Recovery

  // ------------------------------------------------------ a stretch of replay

  lemma {:induction false} ReplayMany(cmds: seq<Command>, k: nat, e: nat, h: nat, floor: U64, r: State)
    requires LogOk(cmds) && Consistent(cmds, k, h, floor, r) && k <= e <= h
    ensures Consistent(cmds, e, h, floor, ApplyAll(r, cmds[k..e]))
    ensures Complete(cmds, k, h, r) ==> Complete(cmds, e, h, ApplyAll(r, cmds[k..e]))
    decreases e - k
  {
    if k == e {
      assert cmds[k..e] == [];
    } else {
      ReplayStep(cmds, k, h, floor, r);
      if Complete(cmds, k, h, r) { CompleteStep(cmds, k, h, floor, r); }
      assert cmds[k..e][1..] == cmds[k + 1..e];
      ReplayMany(cmds, k + 1, e, h, floor, Apply(r, cmds[k]));
    }
  }

  /** Another log with the same first `h` commands and nothing new that is
      stamped before `floor`. */
  lemma LogChanges(cmds: seq<Command>, cmds': seq<Command>, k: nat, h: nat, floor: U64, r: State)
    requires Consistent(cmds, k, h, floor, r) && h <= |cmds'| && cmds'[..h] == cmds[..h]
    requires forall i :: h <= i < |cmds'| && Stamped(cmds'[i]) ==>
      cmds'[i].timestamp >= floor || (i < |cmds| && cmds'[i] == cmds[i])
    ensures Consistent(cmds', k, h, floor, r)
    ensures Complete(cmds, k, h, r) ==> Complete(cmds', k, h, r)
  {
    SameHistory(cmds, cmds', h);
    forall id | Overdue(cmds, k, floor, id) ensures Overdue(cmds', k, floor, id) {
      forall i | k <= i < |cmds'| && Stamped(cmds'[i])
        ensures At(cmds', k).leases[id].expiresAt <= cmds'[i].timestamp
      {
        if i < h { assert cmds'[..h][i] == cmds[..h][i]; }
      }
    }
    assert EntriesSeen(cmds', k, h, r) by { SameEntries(cmds, cmds', k, h, r); }
    assert PointersSeen(cmds', k, h, r) by { SamePointers(cmds, cmds', k, h, r); }
    if Complete(cmds, k, h, r) { SameMirrors(cmds, cmds', k, h, r); }
  }

  lemma SameHistory(cmds: seq<Command>, cmds': seq<Command>, h: nat)
    requires h <= |cmds| && h <= |cmds'| && cmds'[..h] == cmds[..h]
    ensures forall j: nat :: j <= h ==> At(cmds', j) == At(cmds, j)
  {
    forall j: nat | j <= h ensures At(cmds', j) == At(cmds, j) {
      assert cmds'[..j] == cmds'[..h][..j] == cmds[..j];
    }
  }

  lemma SameEntries(cmds: seq<Command>, cmds': seq<Command>, k: nat, h: nat, r: State)
    requires h <= |cmds| && h <= |cmds'| && cmds'[..h] == cmds[..h] && EntriesSeen(cmds, k, h, r)
    ensures EntriesSeen(cmds', k, h, r)
  {
    SameHistory(cmds, cmds', h);
    forall id | id in r.leases ensures Seen(cmds', k, h, id, r.leases[id]) {
      var j :| k <= j <= h && Stores(cmds, j, id, r.leases[id]);
      assert Stores(cmds', j, id, r.leases[id]);
    }
  }

  lemma SamePointers(cmds: seq<Command>, cmds': seq<Command>, k: nat, h: nat, r: State)
    requires h <= |cmds| && h <= |cmds'| && cmds'[..h] == cmds[..h] && PointersSeen(cmds, k, h, r)
    ensures PointersSeen(cmds', k, h, r)
  {
    SameHistory(cmds, cmds', h);
    forall key | key in r.keyLeases ensures Pointed(cmds', k, h, key, r.keyLeases[key]) {
      var j :| k <= j <= h && PointsTo(At(cmds, j), key, r.keyLeases[key]);
      assert PointsTo(At(cmds', j), key, r.keyLeases[key]);
    }
  }

  lemma SameMirrors(cmds: seq<Command>, cmds': seq<Command>, k: nat, h: nat, r: State)
    requires k <= h <= |cmds| && h <= |cmds'| && cmds'[..h] == cmds[..h] && Complete(cmds, k, h, r)
    ensures Complete(cmds', k, h, r)
  {
    SameHistory(cmds, cmds', h);
    forall key ensures Mirrored(cmds', k, h, key, r) {
      assert Mirrored(cmds, k, h, key, r);
      var j :| k <= j <= h && Mirrors(cmds, j, key, r);
      assert Mirrors(cmds', j, key, r);
    }
  }

  lemma PrefixLogOk(cmds: seq<Command>, c: nat)
    requires LogOk(cmds) && c <= |cmds|
    ensures LogOk(cmds[..c])
  {
    forall i | 0 <= i < c ensures CommandOk(cmds[..c], i) {
      assert CommandOk(cmds, i);
      forall id ensures AskedFor(cmds, i, id) <==> AskedFor(cmds[..c], i, id) {
        if j :| 0 <= j < i && Acquires(cmds[j], id) { assert Acquires(cmds[..c][j], id); }
        if j :| 0 <= j < i && Acquires(cmds[..c][j], id) { assert Acquires(cmds[j], id); }
      }
    }
  }

  /** Consistency speaks of the lease tables only. */
  lemma TablesDecide(cmds: seq<Command>, k: nat, h: nat, floor: U64, r: State, r': State)
    requires Consistent(cmds, k, h, floor, r) && r'.leases == r.leases && r'.keyLeases == r.keyLeases
    ensures Consistent(cmds, k, h, floor, r')
    ensures Complete(cmds, k, h, r) ==> Complete(cmds, k, h, r')
  {
    assert StraysLeft(cmds, h, r') by {
      forall id | id in r'.leases ensures Tracked(r', id) || Left(At(cmds, h), id) {
        assert Tracked(r, id) || Left(At(cmds, h), id);
      }
    }
    if Complete(cmds, k, h, r) {
      forall key ensures Mirrored(cmds, k, h, key, r') {
        assert Mirrored(cmds, k, h, key, r);
        MirroredSame(cmds, k, h, key, r, r');
      }
    }
  }

  // ------------------------------------------------------------- node by node

  /** How many of the first `k` committed entries are commands. */
  ghost function Count(n: Recovery.Node, k: nat): nat
    requires k <= |n.truth|
  {
    |Commands(n.truth[..k])|
  }

  lemma CountSplits(n: Recovery.Node, i: nat, j: nat)
    requires i <= j <= |n.truth|
    ensures Count(n, i) <= Count(n, j) <= |Commands(n.truth)|
    ensures Commands(n.truth)[..Count(n, j)] == Commands(n.truth[..j])
    ensures Commands(n.truth)[Count(n, i)..Count(n, j)] == Commands(n.truth[i..j])
  {
    assert n.truth == n.truth[..j] + n.truth[j..];
    CommandsConcat(n.truth[..j], n.truth[j..]);
    assert n.truth[..j] == n.truth[..i] + n.truth[i..j];
    CommandsConcat(n.truth[..i], n.truth[i..j]);
  }

  /** What the lease theorem asks of a step: the committed log stays in order,
      later commands are not stamped before earlier sweeps, sweeps are on time,
      and the log is kept whole. */
  ghost predicate Safe(n: Recovery.Node, step: Recovery.Step, floor: U64)
    requires Recovery.SameLog(n)
  {
    match step
    case Append(es) => LogOk(Commands(n.truth + es)) && Before(Commands(es), 0, floor)
    case Sweep(now) => CountSplits(n, n.applied, n.applied); OnTime(Commands(n.truth), Count(n, n.applied), n.mem, now)
    case Purge(_) => false
    case _ => true
  }

  function FloorAfter(step: Recovery.Step, floor: U64): U64
  {
    if step.Sweep? && floor < step.now then step.now else floor
  }

  ghost predicate SafeRun(n: Recovery.Node, steps: seq<Recovery.Step>, floor: U64)
    requires Recovery.SameLog(n) && Recovery.ValidRun(n, steps)
    decreases |steps|
  {
    steps == [] ||
    (Safe(n, steps[0], floor) &&
     (Recovery.StepKeepsLog(n, steps[0]); SafeRun(Recovery.Next(n, steps[0]), steps[1..], FloorAfter(steps[0], floor))))
  }

  /** The latest sweep of a run. */
  function LastSweep(steps: seq<Recovery.Step>, floor: U64): U64
    decreases |steps|
  {
    if steps == [] then floor else LastSweep(steps[1..], FloorAfter(steps[0], floor))
  }

  ghost predicate Unswept(steps: seq<Recovery.Step>)
  {
    forall i :: 0 <= i < |steps| ==> !steps[i].Sweep?
  }

  ghost predicate OnTrack(n: Recovery.Node, floor: U64)
  {
    && Recovery.SameLog(n) && n.purged == 0 && LogOk(Commands(n.truth))
    && Consistent(Commands(n.truth), Count(n, n.applied), Count(n, n.high), floor, n.mem)
    && Consistent(Commands(n.truth), 0, Count(n, n.high), floor, n.disk)
  }

  ghost predicate Whole(n: Recovery.Node, floor: U64)
    requires OnTrack(n, floor)
  {
    && Complete(Commands(n.truth), Count(n, n.applied), Count(n, n.high), n.mem)
    && Complete(Commands(n.truth), 0, Count(n, n.high), n.disk)
  }

  lemma Restarted(cmds: seq<Command>, k: nat, h: nat, floor: U64, r: State)
    requires Consistent(cmds, k, h, floor, r)
    ensures Consistent(cmds, 0, h, floor, r)
    ensures Complete(cmds, k, h, r) ==> Complete(cmds, 0, h, r)
  {
    StartOver(cmds, k, h, floor, r);
    assert cmds[..0] == [];
    if Complete(cmds, k, h, r) {
      forall key ensures Mirrored(cmds, 0, h, key, r) { assert Mirrored(cmds, k, h, key, r); }
    }
  }

  lemma Ahead(cmds: seq<Command>, k: nat, h: nat, h': nat, floor: U64, r: State)
    requires LogOk(cmds) && Consistent(cmds, k, h, floor, r) && h <= h' <= |cmds|
    ensures Consistent(cmds, k, h', floor, r)
    ensures Complete(cmds, k, h, r) ==> Complete(cmds, k, h', r)
  {
    LookAhead(cmds, k, h, h', floor, r);
    if Complete(cmds, k, h, r) {
      forall key ensures Mirrored(cmds, k, h', key, r) { assert Mirrored(cmds, k, h, key, r); }
    }
  }

  /** A stretch of replay, on the table in memory and, once saved, on disk. */
  lemma BatchTables(cmds: seq<Command>, a: nat, b: nat, h: nat, h': nat, floor: U64, mem: State, disk: State, mem': State)
    requires LogOk(cmds) && a <= b <= h' <= |cmds| && h <= h' && mem' == ApplyAll(mem, cmds[a..b])
    requires Consistent(cmds, a, h, floor, mem) && Consistent(cmds, 0, h, floor, disk)
    ensures Consistent(cmds, b, h', floor, mem') && Consistent(cmds, 0, h', floor, mem') && Consistent(cmds, 0, h', floor, disk)
    ensures Complete(cmds, a, h, mem) ==> Complete(cmds, b, h', mem') && Complete(cmds, 0, h', mem')
    ensures Complete(cmds, 0, h, disk) ==> Complete(cmds, 0, h', disk)
  {
    Ahead(cmds, a, h, h', floor, mem);
    Ahead(cmds, 0, h, h', floor, disk);
    ReplayMany(cmds, a, b, h', floor, mem);
    Restarted(cmds, b, h', floor, mem');
  }

  lemma BatchNode(n: Recovery.Node, k: nat)
    requires Recovery.SameLog(n) && n.applied + k <= |n.log|
    ensures var n' := Recovery.Next(n, Recovery.ApplyBatch(k));
            && Recovery.SameLog(n') && n'.truth == n.truth && n'.purged == n.purged
            && n'.applied == n.applied + k && n'.high == Recovery.HighAfter(n, k)
            && Count(n, n.applied) <= Count(n, n'.applied) <= Count(n, n'.high) <= |Commands(n.truth)|
            && Count(n, n.high) <= Count(n, n'.high)
            && n'.mem == ApplyAll(n.mem, Commands(n.truth)[Count(n, n.applied)..Count(n, n'.applied)])
            && (n'.disk == n'.mem || n'.disk == n.disk)
  {
    var end, high := n.applied + k, Recovery.HighAfter(n, k);
    Recovery.StepKeepsLog(n, Recovery.ApplyBatch(k));
    CountSplits(n, n.applied, end);
    CountSplits(n, end, high);
    CountSplits(n, n.high, high);
    SameCommands(n.log[n.applied..end], n.truth[n.applied..end]);
  }

  lemma BatchKeepsTrack(n: Recovery.Node, k: nat, floor: U64)
    requires OnTrack(n, floor) && n.applied + k <= |n.log|
    ensures var n' := Recovery.Next(n, Recovery.ApplyBatch(k));
            OnTrack(n', floor) && (Whole(n, floor) ==> Whole(n', floor))
  {
    BatchNode(n, k);
    var n' := Recovery.Next(n, Recovery.ApplyBatch(k));
    BatchTables(Commands(n.truth), Count(n, n.applied), Count(n, n'.applied), Count(n, n.high), Count(n, n'.high),
                floor, n.mem, n.disk, n'.mem);
    assert Count(n', n'.applied) == Count(n, n'.applied) && Count(n', n'.high) == Count(n, n'.high);
  }

  lemma LogStepKeepsTrack(n: Recovery.Node, m: Recovery.Node, floor: U64)
    requires OnTrack(n, floor) && Recovery.SameLog(m) && m == n.(truth := m.truth, log := m.log)
    requires LogOk(Commands(m.truth)) && m.truth[..n.high] == n.truth[..n.high]
    requires |m.truth| <= |n.truth| ==> m.truth == n.truth[..|m.truth|]
    requires |m.truth| > |n.truth| ==> m.truth[..|n.truth|] == n.truth && Before(Commands(m.truth[|n.truth|..]), 0, floor)
    ensures OnTrack(m, floor) && (Whole(n, floor) ==> Whole(m, floor))
  {
    var cmds, cmds', h := Commands(n.truth), Commands(m.truth), Count(n, n.high);
    CountSplits(n, n.applied, n.high);
    CountSplits(m, m.applied, m.high);
    assert n.truth[..n.high][..n.applied] == n.truth[..n.applied];
    assert m.truth[..n.high][..n.applied] == m.truth[..n.applied];
    assert cmds'[..h] == cmds[..h];
    if |m.truth| <= |n.truth| {
      CountSplits(n, |m.truth|, |m.truth|);
    } else {
      assert m.truth == n.truth + m.truth[|n.truth|..];
      CommandsConcat(n.truth, m.truth[|n.truth|..]);
      assert cmds' == cmds + Commands(m.truth[|n.truth|..]);
    }
    assert forall i :: h <= i < |cmds'| && Stamped(cmds'[i]) ==>
      cmds'[i].timestamp >= floor || (i < |cmds| && cmds'[i] == cmds[i]);
    LogChanges(cmds, cmds', Count(n, n.applied), h, floor, n.mem);
    LogChanges(cmds, cmds', 0, h, floor, n.disk);
  }

  lemma FloorRises(cmds: seq<Command>, k: nat, h: nat, floor: U64, floor': U64, r: State)
    requires Consistent(cmds, k, h, floor, r) && floor <= floor'
    ensures Consistent(cmds, k, h, floor', r)
  {
    forall key | key in At(cmds, k).keyLeases && key !in r.keyLeases
      ensures Overdue(cmds, k, floor', At(cmds, k).keyLeases[key])
    {
      assert Overdue(cmds, k, floor, At(cmds, k).keyLeases[key]);
    }
  }

  lemma SweepKeepsTrack(n: Recovery.Node, now: U64, floor: U64)
    requires OnTrack(n, floor) && Safe(n, Recovery.Sweep(now), floor)
    ensures OnTrack(Recovery.Next(n, Recovery.Sweep(now)), FloorAfter(Recovery.Sweep(now), floor))
  {
    var cmds, h := Commands(n.truth), Count(n, n.high);
    SweepStep(cmds, Count(n, n.applied), h, floor, n.mem, now);
    FloorRises(cmds, 0, h, floor, FloorAfter(Recovery.Sweep(now), floor), n.disk);
  }

  lemma CrashKeepsTrack(n: Recovery.Node, floor: U64)
    requires OnTrack(n, floor)
    ensures var n' := Recovery.Next(n, Recovery.Crash);
            OnTrack(n', floor) && (Whole(n, floor) ==> Whole(n', floor))
  {
    Recovery.StepKeepsLog(n, Recovery.Crash);
    assert n.truth[..0] == [];
  }

  lemma StepKeepsTrack(n: Recovery.Node, step: Recovery.Step, floor: U64)
    requires OnTrack(n, floor) && Recovery.Enabled(n, step) && Safe(n, step, floor)
    ensures OnTrack(Recovery.Next(n, step), FloorAfter(step, floor))
    ensures !step.Sweep? && Whole(n, floor) ==> Whole(Recovery.Next(n, step), floor)
  {
    var m := Recovery.Next(n, step);
    Recovery.StepKeepsLog(n, step);
    match step
    case Append(es) =>
      assert m.truth[..n.high] == n.truth[..n.high] && m.truth[..|n.truth|] == n.truth;
      assert m.truth[|n.truth|..] == es;
      LogStepKeepsTrack(n, m, floor);
    case Truncate(keep) =>
      CountSplits(n, keep, keep);
      PrefixLogOk(Commands(n.truth), Count(n, keep));
      assert m.truth[..n.high] == n.truth[..n.high];
      LogStepKeepsTrack(n, m, floor);
    case ApplyBatch(k) => BatchKeepsTrack(n, k, floor);
    case Sweep(now) => SweepKeepsTrack(n, now, floor);
    case DrawId =>
      TablesDecide(Commands(n.truth), Count(n, n.applied), Count(n, n.high), floor, n.mem, m.mem);
    case Crash => CrashKeepsTrack(n, floor);
  }

  lemma {:induction false} RunsKeepTrack(n: Recovery.Node, steps: seq<Recovery.Step>, floor: U64)
    requires OnTrack(n, floor) && Recovery.ValidRun(n, steps) && SafeRun(n, steps, floor)
    ensures OnTrack(Recovery.Run(n, steps), LastSweep(steps, floor))
    ensures Unswept(steps) && Whole(n, floor) ==>
      LastSweep(steps, floor) == floor && Whole(Recovery.Run(n, steps), floor)
    decreases |steps|
  {
    if steps == [] {
    } else {
      StepKeepsTrack(n, steps[0], floor);
      assert forall i :: 0 <= i < |steps[1..]| ==> steps[1..][i] == steps[i + 1];
      RunsKeepTrack(Recovery.Next(n, steps[0]), steps[1..], FloorAfter(steps[0], floor));
    }
  }

  lemma FreshIsOnTrack()
    ensures OnTrack(Recovery.FRESH, 0) && Whole(Recovery.FRESH, 0)
  {
    var none: seq<Command> := [];
    assert none[..0] == [] && Recovery.FRESH.truth[..0] == [];
    forall key ensures Mirrored(none, 0, 0, key, EMPTY) { assert Mirrors(none, 0, key, EMPTY); }
  }

  /** However often the node has crashed: with no sweep in between, a node that
      has caught up has exactly the lease tables of applying the log once. */
  lemma LeasesRecover(steps: seq<Recovery.Step>)
    requires Recovery.ValidRun(Recovery.FRESH, steps) && SafeRun(Recovery.FRESH, steps, 0) && Unswept(steps)
    ensures var n := Recovery.Run(Recovery.FRESH, steps);
            && n.applied <= n.high <= |n.truth|
            && (n.applied == n.high ==>
                  var once := ApplyEntries(EMPTY, n.truth[..n.applied]);
                  n.mem.leases == once.leases && n.mem.keyLeases == once.keyLeases)
  {
    var n := Recovery.Run(Recovery.FRESH, steps);
    FreshIsOnTrack();
    RunsKeepTrack(Recovery.FRESH, steps, 0);
    CountSplits(n, n.applied, n.applied);
    if n.applied == n.high {
      CaughtUpIsExact(Commands(n.truth), Count(n, n.applied), 0, n.mem);
    }
  }

  /** With sweeps on time, before or during a replay and whether or not a batch
      saved their effect: a node that has caught up names for every key the
      live lease that applying the log once would name, at every time from the
      latest sweep on, and stores no entry the log does not give. */
  lemma HoldersRecover(steps: seq<Recovery.Step>)
    requires Recovery.ValidRun(Recovery.FRESH, steps) && SafeRun(Recovery.FRESH, steps, 0)
    ensures var n := Recovery.Run(Recovery.FRESH, steps);
            && n.applied <= n.high <= |n.truth|
            && (n.applied == n.high ==>
                  var once := ApplyEntries(EMPTY, n.truth[..n.applied]);
                  && (forall id :: id in n.mem.leases ==> id in once.leases && once.leases[id] == n.mem.leases[id])
                  && (forall key, t: U64 :: t >= LastSweep(steps, 0) ==>
                        LiveLease(n.mem, key, t) == LiveLease(once, key, t)))
  {
    var n := Recovery.Run(Recovery.FRESH, steps);
    FreshIsOnTrack();
    RunsKeepTrack(Recovery.FRESH, steps, 0);
    CountSplits(n, n.applied, n.applied);
    if n.applied == n.high {
      CaughtUpShowsHolders(Commands(n.truth), Count(n, n.applied), LastSweep(steps, 0), n.mem);
    }
  }
}
