/** Crash recovery. A restart reloads the saved state and the log but not the
    applied position, so what is left of the log is applied again on top of its
    own effects. This module says when a topic's owner survives that. */
module Recovery {
  import opened Words
  import opened OwnershipModel
  import opened LogEntries
  import opened Storage
  import opened Topics

  /** `truth` is the committed log as first appended; `log` is this node's
      copy, whose membership payloads restarts erase and whose first `purged`
      entries are gone. `applied` is the position of the next entry to apply,
      `high` the most ever applied. `mem` is the state in memory and `disk` the
      saved one. */
  datatype Node = Node(
    truth: seq<Entry>, log: seq<Entry>, purged: nat, applied: nat, high: nat, mem: State, disk: State)

  const FRESH: Node := Node([], [], 0, 0, 0, EMPTY, EMPTY)

  datatype Step =
    | Append(es: seq<Entry>)
    | Truncate(keep: nat)
    | Purge(upto: nat)
    | ApplyBatch(n: nat)
    | Sweep(now: U64)
    | DrawId
    | Crash

  /** Raft never truncates what has been applied and purges nothing else. A
      crash inside a batch is a crash before it: the state is saved only after
      the whole batch. */
  predicate Enabled(n: Node, step: Step)
  {
    match step
    case Truncate(keep) => n.high <= keep <= |n.log| && |n.truth| == |n.log|
    case Purge(upto) => n.purged <= upto <= n.applied
    case ApplyBatch(k) => n.applied + k <= |n.log|
    case _ => true
  }

  function HighAfter(n: Node, k: nat): nat
  {
    if n.high < n.applied + k then n.applied + k else n.high
  }

  function Next(n: Node, step: Step): Node
    requires Enabled(n, step)
  {
    match step
    case Append(es) => n.(truth := n.truth + es, log := n.log + es)
    case Truncate(keep) => n.(truth := n.truth[..keep], log := n.log[..keep])
    case Purge(upto) => n.(purged := upto)
    case ApplyBatch(k) =>
      var batch := n.log[n.applied..n.applied + k];
      var mem := ApplyEntries(n.mem, batch);
      n.(applied := n.applied + k, high := HighAfter(n, k),
         mem := mem, disk := if Commands(batch) != [] then mem else n.disk)
    case Sweep(now) => n.(mem := Expire(n.mem, now))
    case DrawId => n.(mem := n.mem.(nextLeaseId := WrapAdd(n.mem.nextLeaseId, 1)))
    case Crash => n.(log := ReloadedAll(n.log), applied := n.purged, mem := n.disk)
  }

  predicate ValidRun(n: Node, steps: seq<Step>)
    decreases |steps|
  {
    steps == [] || (Enabled(n, steps[0]) && ValidRun(Next(n, steps[0]), steps[1..]))
  }

  function Run(n: Node, steps: seq<Step>): Node
    requires ValidRun(n, steps)
    decreases |steps|
  {
    if steps == [] then n else Run(Next(n, steps[0]), steps[1..])
  }

  // ------------------------------------------------------ commands of slices

  /** The log copy carries the same commands as the committed log. */
  ghost predicate SameLog(n: Node)
  {
    && |n.log| == |n.truth|
    && n.purged <= n.applied <= n.high <= |n.log|
    && forall i :: 0 <= i < |n.log| ==> CommandOf(n.log[i]) == CommandOf(n.truth[i])
  }

  lemma StepKeepsLog(n: Node, step: Step)
    requires SameLog(n) && Enabled(n, step)
    ensures SameLog(Next(n, step))
  {
  }

  /** The commands at positions `i` to `j` of the committed log. */
  ghost function Slice(n: Node, i: nat, j: nat): seq<Command>
    requires i <= j <= |n.truth|
  {
    Commands(n.truth[i..j])
  }

  lemma SliceSplits(n: Node, i: nat, j: nat, k: nat, topic: string)
    requires i <= j <= k <= |n.truth|
    ensures Slice(n, i, k) == Slice(n, i, j) + Slice(n, j, k)
    ensures Claims(Slice(n, i, k), topic) <==> Claims(Slice(n, i, j), topic) || Claims(Slice(n, j, k), topic)
  {
    assert n.truth[i..k] == n.truth[i..j] + n.truth[j..k];
    CommandsConcat(n.truth[i..j], n.truth[j..k]);
    ClaimsConcat(Slice(n, i, j), Slice(n, j, k), topic);
  }

  /** What a stretch of log does to an owner, cut in two. */
  lemma OwnerSplits(n: Node, i: nat, j: nat, k: nat, o: Option<NodeId>, topic: string)
    requires i <= j <= k <= |n.truth|
    ensures RegisterAll(o, Slice(n, i, k), topic) ==
      RegisterAll(RegisterAll(o, Slice(n, i, j), topic), Slice(n, j, k), topic)
    ensures Anchored(o, Slice(n, i, k), topic) <==>
      Anchored(o, Slice(n, i, j), topic) && Anchored(o, Slice(n, j, k), topic)
  {
    SliceSplits(n, i, j, k, topic);
    AnchoredConcat(o, Slice(n, i, j), Slice(n, j, k), topic);
    RegisterConcat(o, Slice(n, i, j), Slice(n, j, k), topic);
  }

  lemma {:induction false} RegisterConcat(o: Option<NodeId>, a: seq<Command>, b: seq<Command>, topic: string)
    ensures RegisterAll(o, a + b, topic) == RegisterAll(RegisterAll(o, a, topic), b, topic)
    decreases |a|
  {
    if a == [] {
      assert a + b == b;
    } else {
      assert (a + b)[1..] == a[1..] + b;
      RegisterConcat(Register(o, a[0], topic), a[1..], b, topic);
    }
  }

  lemma ClaimsConcat(a: seq<Command>, b: seq<Command>, topic: string)
    ensures Claims(a + b, topic) <==> Claims(a, topic) || Claims(b, topic)
  {
    if i :| 0 <= i < |a| && a[i].ClaimTopic? && a[i].topic == topic {
      assert (a + b)[i] == a[i];
    }
    if i :| 0 <= i < |b| && b[i].ClaimTopic? && b[i].topic == topic {
      assert (a + b)[|a| + i] == b[i];
    }
  }

  /** `cmd` is a transfer or release of `topic` that `owner` would be hit by. */
  predicate TakesFrom(owner: Option<NodeId>, cmd: Command, topic: string)
  {
    match cmd
    case ReleaseTopic(t, node) => t == topic && owner == Some(node)
    case TransferTopic(t, fromNode, toNode) => t == topic && owner == Some(fromNode) && toNode != fromNode
    case _ => false
  }

  predicate Anchored(owner: Option<NodeId>, cmds: seq<Command>, topic: string)
  {
    forall i :: 0 <= i < |cmds| ==> !TakesFrom(owner, cmds[i], topic)
  }

  lemma AnchoredConcat(o: Option<NodeId>, a: seq<Command>, b: seq<Command>, topic: string)
    ensures Anchored(o, a + b, topic) <==> Anchored(o, a, topic) && Anchored(o, b, topic)
  {
    if Anchored(o, a + b, topic) {
      assert forall i :: 0 <= i < |a| ==> (a + b)[i] == a[i];
      assert forall i :: 0 <= i < |b| ==> (a + b)[|a| + i] == b[i];
    }
  }

  /** An owner that no command takes the topic from stays, if nobody claims it. */
  lemma {:induction false} AnchoredStays(o: Option<NodeId>, cmds: seq<Command>, topic: string)
    requires Anchored(o, cmds, topic) && !Claims(cmds, topic)
    ensures RegisterAll(o, cmds, topic) == o
    decreases |cmds|
  {
    if cmds == [] {
    } else {
      assert !TakesFrom(o, cmds[0], topic) && !(cmds[0].ClaimTopic? && cmds[0].topic == topic);
      assert forall i :: 0 <= i < |cmds[1..]| ==> cmds[1..][i] == cmds[i + 1];
      AnchoredStays(o, cmds[1..], topic);
    }
  }

  // -------------------------------------------------------------- invariant

  /** The owner of `topic` after the first `k` committed entries. */
  ghost function Intended(n: Node, k: nat, topic: string): Option<NodeId>
    requires k <= |n.truth|
  {
    RegisterAll(None, Slice(n, 0, k), topic)
  }

  /** The owner in memory is the one intended here; or a claim still ahead in
      the replay will overwrite it; or it is already the final one and nothing
      ahead takes it away. What is saved is what is in memory. */
  ghost predicate OnTrack(n: Node, topic: string)
    requires SameLog(n)
  {
    var o := OwnerOf(n.mem, topic);
    && OwnerOf(n.disk, topic) == o
    && (Claims(Slice(n, n.purged, n.applied), topic) ==> o == Intended(n, n.applied, topic))
    && (|| (o == Intended(n, n.applied, topic) && (n.applied == n.high || Claims(Slice(n, n.purged, n.applied), topic)))
        || Claims(Slice(n, n.applied, n.high), topic)
        || (o == Intended(n, n.high, topic) && Anchored(o, Slice(n, n.applied, n.high), topic)))
  }

  /** What a crash or a purge must leave for `topic` to come back: a claim in
      the retained log, or a last owner that nothing retained takes the topic
      from. A purge during a replay must leave a claim. */
  ghost predicate Safe(n: Node, step: Step, topic: string)
    requires SameLog(n) && Enabled(n, step)
  {
    match step
    case Crash =>
      || Claims(Slice(n, n.purged, n.high), topic)
      || Anchored(Intended(n, n.high, topic), Slice(n, n.purged, n.high), topic)
    case Purge(upto) => n.applied == n.high || Claims(Slice(n, upto, n.high), topic)
    case _ => true
  }

  ghost predicate SafeRun(n: Node, steps: seq<Step>, topic: string)
    requires SameLog(n) && ValidRun(n, steps)
    decreases |steps|
  {
    steps == [] || (Safe(n, steps[0], topic) && (StepKeepsLog(n, steps[0]); SafeRun(Next(n, steps[0]), steps[1..], topic)))
  }

  /** A batch acts on one topic as its commands act on a register, in memory
      and, once saved, on disk. */
  lemma BatchOwner(n: Node, k: nat, topic: string)
    requires SameLog(n) && n.applied + k <= |n.log| && OwnerOf(n.disk, topic) == OwnerOf(n.mem, topic)
    ensures var n' := Next(n, ApplyBatch(k));
            OwnerOf(n'.disk, topic) == OwnerOf(n'.mem, topic) ==
            RegisterAll(OwnerOf(n.mem, topic), Slice(n, n.applied, n.applied + k), topic)
  {
    var end := n.applied + k;
    SameCommands(n.log[n.applied..end], n.truth[n.applied..end]);
    TopicsAreRegisters(n.mem, Commands(n.log[n.applied..end]), topic);
  }

  /** A batch that starts from the intended owner, or claims the topic, ends
      with the intended owner. */
  lemma BatchReachesIntended(n: Node, k: nat, topic: string)
    requires SameLog(n) && n.applied + k <= |n.log| && OwnerOf(n.disk, topic) == OwnerOf(n.mem, topic)
    requires || OwnerOf(n.mem, topic) == Intended(n, n.applied, topic)
             || Claims(Slice(n, n.applied, n.applied + k), topic)
    ensures OwnerOf(Next(n, ApplyBatch(k)).mem, topic) == Intended(n, n.applied + k, topic)
  {
    BatchOwner(n, k, topic);
    OwnerSplits(n, 0, n.applied, n.applied + k, None, topic);
    ClaimErasesPast(OwnerOf(n.mem, topic), Intended(n, n.applied, topic), Slice(n, n.applied, n.applied + k), topic);
  }

  /** A batch without a claim leaves an anchored last owner alone, and one that
      runs past the old end carries on from it. */
  lemma BatchKeepsAnchor(n: Node, k: nat, topic: string)
    requires SameLog(n) && n.applied + k <= |n.log| && OwnerOf(n.disk, topic) == OwnerOf(n.mem, topic)
    requires OwnerOf(n.mem, topic) == Intended(n, n.high, topic)
    requires Anchored(OwnerOf(n.mem, topic), Slice(n, n.applied, n.high), topic)
    requires !Claims(Slice(n, n.applied, n.applied + k), topic)
    ensures var n' := Next(n, ApplyBatch(k));
            && OwnerOf(n'.mem, topic) == Intended(n, n'.high, topic)
            && (n'.applied <= n.high ==> Anchored(OwnerOf(n'.mem, topic), Slice(n, n'.applied, n.high), topic))
  {
    BatchOwner(n, k, topic);
    if n.applied + k <= n.high {
      AnchorWithin(n, n.applied + k, OwnerOf(n.mem, topic), topic);
    } else {
      AnchorBeyond(n, n.applied + k, OwnerOf(n.mem, topic), topic);
    }
  }

  lemma AnchorWithin(n: Node, end: nat, o: Option<NodeId>, topic: string)
    requires n.applied <= end <= n.high <= |n.truth| && Anchored(o, Slice(n, n.applied, n.high), topic)
    requires !Claims(Slice(n, n.applied, end), topic)
    ensures RegisterAll(o, Slice(n, n.applied, end), topic) == o && Anchored(o, Slice(n, end, n.high), topic)
  {
    OwnerSplits(n, n.applied, end, n.high, o, topic);
    AnchoredStays(o, Slice(n, n.applied, end), topic);
  }

  lemma AnchorBeyond(n: Node, end: nat, o: Option<NodeId>, topic: string)
    requires n.applied <= n.high <= end <= |n.truth| && Anchored(o, Slice(n, n.applied, n.high), topic)
    requires !Claims(Slice(n, n.applied, end), topic) && o == Intended(n, n.high, topic)
    ensures RegisterAll(o, Slice(n, n.applied, end), topic) == Intended(n, end, topic)
  {
    OwnerSplits(n, n.applied, n.high, end, o, topic);
    OwnerSplits(n, 0, n.high, end, None, topic);
    SliceSplits(n, n.applied, n.high, end, topic);
    AnchoredStays(o, Slice(n, n.applied, n.high), topic);
  }

  lemma BatchKeepsTrack(n: Node, k: nat, topic: string)
    requires SameLog(n) && n.applied + k <= |n.log| && OnTrack(n, topic)
    ensures SameLog(Next(n, ApplyBatch(k))) && OnTrack(Next(n, ApplyBatch(k)), topic)
  {
    var end := n.applied + k;
    BatchOwner(n, k, topic);
    SliceSplits(n, n.purged, n.applied, end, topic);
    if OwnerOf(n.mem, topic) == Intended(n, n.applied, topic) || Claims(Slice(n, n.applied, end), topic) {
      BatchReachesIntended(n, k, topic);
    }
    if Claims(Slice(n, n.applied, end), topic) {
    } else if Claims(Slice(n, n.applied, n.high), topic) {
      ClaimIsAhead(n, end, topic);
    } else if OwnerOf(n.mem, topic) == Intended(n, n.high, topic) && Anchored(OwnerOf(n.mem, topic), Slice(n, n.applied, n.high), topic) {
      BatchKeepsAnchor(n, k, topic);
    }
  }

  lemma ClaimIsAhead(n: Node, end: nat, topic: string)
    requires SameLog(n) && n.applied <= end <= |n.log|
    requires Claims(Slice(n, n.applied, n.high), topic) && !Claims(Slice(n, n.applied, end), topic)
    ensures end < n.high && Claims(Slice(n, end, n.high), topic)
  {
    if n.high <= end {
      SliceSplits(n, n.applied, n.high, end, topic);
    } else {
      SliceSplits(n, n.applied, end, n.high, topic);
    }
  }

  lemma CrashKeepsTrack(n: Node, topic: string)
    requires SameLog(n) && OnTrack(n, topic) && Safe(n, Crash, topic)
    ensures SameLog(Next(n, Crash)) && OnTrack(Next(n, Crash), topic)
  {
    SliceSplits(n, n.purged, n.applied, n.high, topic);
    assert Slice(n, n.purged, n.purged) == [];
  }

  lemma PurgeKeepsTrack(n: Node, upto: nat, topic: string)
    requires SameLog(n) && OnTrack(n, topic) && Enabled(n, Purge(upto)) && Safe(n, Purge(upto), topic)
    ensures SameLog(Next(n, Purge(upto))) && OnTrack(Next(n, Purge(upto)), topic)
  {
    SliceSplits(n, n.purged, upto, n.applied, topic);
    SliceSplits(n, upto, n.applied, n.high, topic);
  }

  /** Positions up to the high-water mark mean the same in a longer or shorter log. */
  lemma LogEndIsFree(n: Node, m: Node, topic: string)
    requires SameLog(n) && SameLog(m) && OnTrack(n, topic)
    requires m == n.(truth := m.truth, log := m.log) && m.truth[..n.high] == n.truth[..n.high]
    ensures OnTrack(m, topic)
  {
    forall i: nat, j: nat | i <= j <= n.high ensures Slice(m, i, j) == Slice(n, i, j) {
      assert m.truth[i..j] == m.truth[..n.high][i..j] == n.truth[i..j];
    }
  }

  lemma StepKeepsTrack(n: Node, step: Step, topic: string)
    requires SameLog(n) && Enabled(n, step) && OnTrack(n, topic) && Safe(n, step, topic)
    ensures SameLog(Next(n, step)) && OnTrack(Next(n, step), topic)
  {
    match step
    case Append(es) =>
      assert (n.truth + es)[..n.high] == n.truth[..n.high];
      LogEndIsFree(n, Next(n, step), topic);
    case Truncate(keep) =>
      assert n.truth[..keep][..n.high] == n.truth[..n.high];
      LogEndIsFree(n, Next(n, step), topic);
    case Purge(upto) => PurgeKeepsTrack(n, upto, topic);
    case ApplyBatch(k) => BatchKeepsTrack(n, k, topic);
    case Crash => CrashKeepsTrack(n, topic);
    case _ =>
  }

  lemma {:induction false} RunsKeepTrack(n: Node, steps: seq<Step>, topic: string)
    requires SameLog(n) && ValidRun(n, steps) && OnTrack(n, topic) && SafeRun(n, steps, topic)
    ensures SameLog(Run(n, steps)) && OnTrack(Run(n, steps), topic)
    decreases |steps|
  {
    if steps == [] {
    } else {
      StepKeepsTrack(n, steps[0], topic);
      RunsKeepTrack(Next(n, steps[0]), steps[1..], topic);
    }
  }

  lemma {:induction false} RunsKeepLog(n: Node, steps: seq<Step>)
    requires SameLog(n) && ValidRun(n, steps)
    ensures SameLog(Run(n, steps))
    decreases |steps|
  {
    if steps == [] {
    } else {
      StepKeepsLog(n, steps[0]);
      RunsKeepLog(Next(n, steps[0]), steps[1..]);
    }
  }

  /** However often the node has crashed, purged, swept or drawn ids: a topic
      that every crash and purge left recoverable has, once the node has caught
      up with the most it ever applied, the owner that applying the committed
      log once, from empty, would give. It is exact even earlier, as soon as
      the replay has passed a retained claim of it. */
  lemma TopicRecovers(steps: seq<Step>, topic: string)
    requires ValidRun(FRESH, steps) && SafeRun(FRESH, steps, topic)
    ensures var n := Run(FRESH, steps);
            && n.purged <= n.applied <= n.high <= |n.truth|
            && (n.applied == n.high || Claims(Commands(n.truth[n.purged..n.applied]), topic) ==>
                  OwnerOf(n.mem, topic) == OwnerOf(ApplyEntries(EMPTY, n.truth[..n.applied]), topic))
  {
    var n := Run(FRESH, steps);
    RunsKeepTrack(FRESH, steps, topic);
    assert n.truth[..n.applied] == n.truth[0..n.applied];
    TopicsAreRegisters(EMPTY, Slice(n, 0, n.applied), topic);
  }

  ghost predicate Unpurged(steps: seq<Step>)
  {
    forall i :: 0 <= i < |steps| ==> !steps[i].Purge?
  }

  /** A whole log leaves every topic recoverable. */
  lemma {:induction false} UnpurgedIsSafe(n: Node, steps: seq<Step>, topic: string)
    requires SameLog(n) && n.purged == 0 && ValidRun(n, steps) && Unpurged(steps)
    ensures SafeRun(n, steps, topic) && Run(n, steps).purged == 0
    decreases |steps|
  {
    if steps == [] {
    } else {
      assert !steps[0].Purge?;
      if !Claims(Slice(n, 0, n.high), topic) {
        UnclaimedStaysFree(Slice(n, 0, n.high), topic);
      }
      StepKeepsLog(n, steps[0]);
      assert forall i :: 0 <= i < |steps[1..]| ==> steps[1..][i] == steps[i + 1];
      UnpurgedIsSafe(Next(n, steps[0]), steps[1..], topic);
    }
  }

  /** With the whole log retained nothing more is needed: the owner map of a
      node that has caught up is that of applying the committed log once. */
  lemma RecoveryIsExact(steps: seq<Step>)
    requires ValidRun(FRESH, steps) && Unpurged(steps)
    ensures var n := Run(FRESH, steps);
            && n.applied <= n.high <= |n.truth|
            && (forall t :: Claims(Commands(n.truth[..n.applied]), t) ==>
                  OwnerOf(n.mem, t) == OwnerOf(ApplyEntries(EMPTY, n.truth[..n.applied]), t))
            && (n.applied == n.high ==> n.mem.ownership == ApplyEntries(EMPTY, n.truth[..n.applied]).ownership)
  {
    var n := Run(FRESH, steps);
    RunsKeepLog(FRESH, steps);
    var once := ApplyEntries(EMPTY, n.truth[..n.applied]);
    forall t
      ensures Claims(Commands(n.truth[..n.applied]), t) || n.applied == n.high ==> OwnerOf(n.mem, t) == OwnerOf(once, t)
    {
      UnpurgedIsSafe(FRESH, steps, t);
      TopicRecovers(steps, t);
      assert n.truth[0..n.applied] == n.truth[..n.applied];
    }
    if n.applied == n.high {
      SameOwners(n.mem, once);
    }
  }

  lemma SameOwners(a: State, b: State)
    requires forall t :: OwnerOf(a, t) == OwnerOf(b, t)
    ensures a.ownership == b.ownership
  {
    forall t ensures t in a.ownership <==> t in b.ownership {
      assert OwnerOf(a, t) == OwnerOf(b, t);
    }
    forall t | t in a.ownership ensures a.ownership[t] == b.ownership[t] {
      assert OwnerOf(a, t) == OwnerOf(b, t);
    }
  }

  /** The condition is exact where nothing retained gives the topic back: if
      no retained command claims the topic or transfers it to its last owner,
      replaying the retained commands keeps that owner if and only if none of
      them takes the topic from it. */
  lemma {:induction false} ReplayKeepsOwnerExactly(w: Option<NodeId>, cmds: seq<Command>, topic: string)
    requires !Claims(cmds, topic)
    requires forall i :: 0 <= i < |cmds| ==> !GivesTo(w, cmds[i], topic)
    ensures RegisterAll(w, cmds, topic) == w <==> Anchored(w, cmds, topic)
    decreases |cmds|
  {
    if Anchored(w, cmds, topic) {
      AnchoredStays(w, cmds, topic);
    } else {
      assert cmds != [] && !(cmds[0].ClaimTopic? && cmds[0].topic == topic) && !GivesTo(w, cmds[0], topic);
      assert forall i :: 0 <= i < |cmds[1..]| ==> cmds[1..][i] == cmds[i + 1];
      if TakesFrom(w, cmds[0], topic) {
        NeverComesBack(w, Register(w, cmds[0], topic), cmds[1..], topic);
      } else {
        assert Register(w, cmds[0], topic) == w;
        assert cmds == [cmds[0]] + cmds[1..];
        AnchoredConcat(w, [cmds[0]], cmds[1..], topic);
        ReplayKeepsOwnerExactly(w, cmds[1..], topic);
      }
    }
  }

  predicate GivesTo(owner: Option<NodeId>, cmd: Command, topic: string)
  {
    cmd.TransferTopic? && cmd.topic == topic && owner == Some(cmd.toNode) && cmd.fromNode != cmd.toNode
  }

  lemma {:induction false} NeverComesBack(w: Option<NodeId>, o: Option<NodeId>, cmds: seq<Command>, topic: string)
    requires !Claims(cmds, topic) && o != w && w.Some?
    requires forall i :: 0 <= i < |cmds| ==> !GivesTo(w, cmds[i], topic)
    ensures RegisterAll(o, cmds, topic) != w
    decreases |cmds|
  {
    if cmds == [] {
    } else {
      assert !(cmds[0].ClaimTopic? && cmds[0].topic == topic) && !GivesTo(w, cmds[0], topic);
      assert forall i :: 0 <= i < |cmds[1..]| ==> cmds[1..][i] == cmds[i + 1];
      NeverComesBack(w, Register(o, cmds[0], topic), cmds[1..], topic);
    }
  }
}
