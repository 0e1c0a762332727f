/** Runs of a crashing node that end up wrong: one for each condition of the
    recovery theorems. Lease logs are about one key, with times in seconds. */
module RecoveryWitnesses {
  import opened Words
  import opened OwnershipModel
  import opened LogEntries
  import opened Storage
  import opened Topics
  import opened Recovery

  function Entries(cmds: seq<Command>): (es: seq<Entry>)
    requires |cmds| <= U64_MAX
    ensures |es| == |cmds|
    ensures forall i :: 0 <= i < |cmds| ==> es[i] == Entry(LogId(1, 1, i), Normal(cmds[i]))
  {
    seq(|cmds|, i requires 0 <= i < |cmds| => Entry(LogId(1, 1, i), Normal(cmds[i])))
  }

  lemma {:induction false} CommandsAre(es: seq<Entry>, cmds: seq<Command>)
    requires |es| == |cmds| && forall i :: 0 <= i < |es| ==> es[i].payload == Normal(cmds[i])
    ensures Commands(es) == cmds
    decreases |es|
  {
    if es == [] {
    } else {
      CommandsAre(es[1..], cmds[1..]);
    }
  }

  /** A node whose log is `cmds`, all of it applied once. */
  ghost function Done(cmds: seq<Command>, purged: nat, applied: nat, s: State): Node
    requires |cmds| <= U64_MAX
  {
    Node(Entries(cmds), Entries(cmds), purged, applied, |cmds|, s, s)
  }

  lemma Pass(cmds: seq<Command>, purged: nat, applied: nat, s: State, k: nat)
    requires 0 < k && purged <= applied && applied + k <= |cmds| <= U64_MAX
    ensures Next(Done(cmds, purged, applied, s), ApplyBatch(k)) ==
      Done(cmds, purged, applied + k, ApplyAll(s, cmds[applied..applied + k]))
  {
    CommandsAre(Entries(cmds)[applied..applied + k], cmds[applied..applied + k]);
  }

  /** A node with the log and nothing applied yet. */
  ghost function Loaded(cmds: seq<Command>): Node
    requires |cmds| <= U64_MAX
  {
    Node(Entries(cmds), Entries(cmds), 0, 0, 0, EMPTY, EMPTY)
  }

  lemma LoadedFirst(cmds: seq<Command>)
    requires |cmds| <= U64_MAX
    ensures Next(FRESH, Append(Entries(cmds))) == Loaded(cmds)
  {
    assert [] + Entries(cmds) == Entries(cmds);
  }

  lemma FirstPass(cmds: seq<Command>)
    requires 0 < |cmds| <= U64_MAX
    ensures Next(Loaded(cmds), ApplyBatch(|cmds|)) == Done(cmds, 0, |cmds|, ApplyAll(EMPTY, cmds))
  {
    assert Entries(cmds)[0..|cmds|] == Entries(cmds);
    CommandsAre(Entries(cmds), cmds);
  }

  lemma CrashOf(cmds: seq<Command>, purged: nat, applied: nat, s: State)
    requires |cmds| <= U64_MAX
    ensures Next(Done(cmds, purged, applied, s), Crash) == Done(cmds, purged, purged, s)
  {
    assert ReloadedAll(Entries(cmds)) == Entries(cmds);
  }

  lemma Unroll(n: Node, step: Step, rest: seq<Step>)
    requires Enabled(n, step) && ValidRun(Next(n, step), rest)
    ensures ValidRun(n, [step] + rest) && Run(n, [step] + rest) == Run(Next(n, step), rest)
  {
    assert ([step] + rest)[1..] == rest;
  }

  /** Append the log, apply all of it, and carry on. */
  function Begin(cmds: seq<Command>, rest: seq<Step>): seq<Step>
    requires |cmds| <= U64_MAX
  {
    [Append(Entries(cmds))] + ([ApplyBatch(|cmds|)] + rest)
  }

  lemma BeginEnds(cmds: seq<Command>, rest: seq<Step>)
    requires 0 < |cmds| <= U64_MAX && ValidRun(Done(cmds, 0, |cmds|, ApplyAll(EMPTY, cmds)), rest)
    ensures ValidRun(FRESH, Begin(cmds, rest))
    ensures Run(FRESH, Begin(cmds, rest)) == Run(Done(cmds, 0, |cmds|, ApplyAll(EMPTY, cmds)), rest)
  {
    LoadedFirst(cmds);
    FirstPass(cmds);
    Unroll(Loaded(cmds), ApplyBatch(|cmds|), rest);
    Unroll(FRESH, Append(Entries(cmds)), [ApplyBatch(|cmds|)] + rest);
  }

  /** Crash, apply `k` of what is left, and carry on. */
  function Again(k: nat, rest: seq<Step>): seq<Step>
  {
    [Crash] + ([ApplyBatch(k)] + rest)
  }

  lemma AgainEnds(cmds: seq<Command>, purged: nat, applied: nat, s: State, k: nat, rest: seq<Step>)
    requires 0 < k && purged <= applied && purged + k <= |cmds| <= U64_MAX
    requires ValidRun(Done(cmds, purged, purged + k, ApplyAll(s, cmds[purged..purged + k])), rest)
    ensures ValidRun(Done(cmds, purged, applied, s), Again(k, rest))
    ensures Run(Done(cmds, purged, applied, s), Again(k, rest)) ==
      Run(Done(cmds, purged, purged + k, ApplyAll(s, cmds[purged..purged + k])), rest)
  {
    CrashOf(cmds, purged, applied, s);
    Pass(cmds, purged, purged, s, k);
    Unroll(Done(cmds, purged, purged, s), ApplyBatch(k), rest);
    Unroll(Done(cmds, purged, applied, s), Crash, [ApplyBatch(k)] + rest);
  }

  /** Apply the log, crash, and apply `k` of it again. */
  function Rerun(cmds: seq<Command>, k: nat): seq<Step>
    requires |cmds| <= U64_MAX
  {
    Begin(cmds, Again(k, []))
  }

  lemma AgainStops(cmds: seq<Command>, purged: nat, applied: nat, s: State, k: nat)
    requires 0 < k && purged <= applied && purged + k <= |cmds| <= U64_MAX
    ensures ValidRun(Done(cmds, purged, applied, s), Again(k, []))
    ensures Run(Done(cmds, purged, applied, s), Again(k, [])) ==
      Done(cmds, purged, purged + k, ApplyAll(s, cmds[purged..purged + k]))
  {
    AgainEnds(cmds, purged, applied, s, k, []);
  }

  lemma RerunEnds(cmds: seq<Command>, k: nat)
    requires 0 < k <= |cmds| <= U64_MAX
    ensures ValidRun(FRESH, Rerun(cmds, k))
    ensures Run(FRESH, Rerun(cmds, k)) == Done(cmds, 0, k, ApplyAll(ApplyAll(EMPTY, cmds), cmds[0..k]))
  {
    var rest := Again(k, []);
    AgainStops(cmds, 0, |cmds|, ApplyAll(EMPTY, cmds), k);
    BeginEnds(cmds, rest);
  }

  /** Apply the log, purge its first `purge` entries, crash, apply the rest. */
  function PurgedRerun(cmds: seq<Command>, purge: nat): seq<Step>
    requires purge <= |cmds| <= U64_MAX
  {
    Begin(cmds, [Step.Purge(purge)] + Again(|cmds| - purge, []))
  }

  lemma PurgeEnds(cmds: seq<Command>, purge: nat, applied: nat, s: State)
    requires purge <= applied && purge < |cmds| <= U64_MAX
    ensures var steps := [Step.Purge(purge)] + Again(|cmds| - purge, []);
            && ValidRun(Done(cmds, 0, applied, s), steps)
            && Run(Done(cmds, 0, applied, s), steps) == Done(cmds, purge, |cmds|, ApplyAll(s, cmds[purge..|cmds|]))
  {
    var rest := Again(|cmds| - purge, []);
    AgainStops(cmds, purge, applied, s, |cmds| - purge);
    assert Next(Done(cmds, 0, applied, s), Step.Purge(purge)) == Done(cmds, purge, applied, s);
    Unroll(Done(cmds, 0, applied, s), Step.Purge(purge), rest);
  }

  lemma PurgedRerunEnds(cmds: seq<Command>, purge: nat)
    requires purge < |cmds| <= U64_MAX
    ensures ValidRun(FRESH, PurgedRerun(cmds, purge))
    ensures Run(FRESH, PurgedRerun(cmds, purge)) ==
      Done(cmds, purge, |cmds|, ApplyAll(ApplyAll(EMPTY, cmds), cmds[purge..|cmds|]))
  {
    PurgeEnds(cmds, purge, |cmds|, ApplyAll(EMPTY, cmds));
    BeginEnds(cmds, [Step.Purge(purge)] + Again(|cmds| - purge, []));
  }

  /** Apply the log, crash, apply `k` of it again, purge its first `purge`
      entries, crash, and apply what is left. */
  function RerunTwice(cmds: seq<Command>, k: nat, purge: nat): seq<Step>
    requires purge <= |cmds| <= U64_MAX
  {
    Begin(cmds, Again(k, [Step.Purge(purge)] + Again(|cmds| - purge, [])))
  }

  lemma RerunTwiceEnds(cmds: seq<Command>, k: nat, purge: nat)
    requires purge <= k <= |cmds| <= U64_MAX && purge < |cmds| && 0 < k
    ensures ValidRun(FRESH, RerunTwice(cmds, k, purge))
    ensures Run(FRESH, RerunTwice(cmds, k, purge)) ==
      Done(cmds, purge, |cmds|, ApplyAll(ApplyAll(ApplyAll(EMPTY, cmds), cmds[0..k]), cmds[purge..|cmds|]))
  {
    var once, rest := ApplyAll(EMPTY, cmds), [Step.Purge(purge)] + Again(|cmds| - purge, []);
    PurgeEnds(cmds, purge, k, ApplyAll(once, cmds[0..k]));
    AgainEnds(cmds, 0, |cmds|, once, k, rest);
    BeginEnds(cmds, Again(k, rest));
  }

  // ------------------------------------------------------------------ topics

  /** The owners of "t" before and after each command. */
  lemma {:induction false} OwnerAfter(s: State, cmds: seq<Command>, owners: seq<Option<NodeId>>)
    requires |owners| == |cmds| + 1 && OwnerOf(s, "t") == owners[0]
    requires forall i :: 0 <= i < |cmds| ==> owners[i + 1] == Register(owners[i], cmds[i], "t")
    ensures OwnerOf(ApplyAll(s, cmds), "t") == owners[|cmds|]
    decreases |cmds|
  {
    if cmds == [] {
    } else {
      CommandActsOnRegister(s, cmds[0], "t");
      OwnerAfter(Apply(s, cmds[0]), cmds[1..], owners[1..]);
    }
  }

  /** During the replay the owner goes back in time: a node that crashed after
      the second claim answers with the first. */
  lemma ReplayShowsPastOwner()
    ensures var cmds := [ClaimTopic("t", 1, 0), ClaimTopic("t", 2, 0)];
            && ValidRun(FRESH, Rerun(cmds, 1))
            && OwnerOf(ApplyAll(EMPTY, cmds), "t") == Some(2)
            && OwnerOf(Run(FRESH, Rerun(cmds, 1)).mem, "t") == Some(1)
  {
    var a, b := ClaimTopic("t", 1, 0), ClaimTopic("t", 2, 0);
    var cmds := [a, b];
    RerunEnds(cmds, 1);
    OwnerAfter(EMPTY, cmds, [None, Some(1), Some(2)]);
    OwnerAfter(ApplyAll(EMPTY, cmds), cmds[0..1], [Some(2), Some(1)]);
  }

  /** A purged claim is missed: the retained transfer that did nothing the
      first time takes the topic from its last owner. */
  lemma PurgedReplayDiverges()
    ensures var cmds := [ClaimTopic("t", 1, 0), TransferTopic("t", 2, 3), TransferTopic("t", 1, 2)];
            && ValidRun(FRESH, PurgedRerun(cmds, 1))
            && var n := Run(FRESH, PurgedRerun(cmds, 1));
               && n.applied == n.high == 3
               && OwnerOf(ApplyAll(EMPTY, cmds), "t") == Some(2) && OwnerOf(n.mem, "t") == Some(3)
  {
    var a, b, c := ClaimTopic("t", 1, 0), TransferTopic("t", 2, 3), TransferTopic("t", 1, 2);
    var cmds := [a, b, c];
    PurgedRerunEnds(cmds, 1);
    OwnerAfter(EMPTY, cmds, [None, Some(1), Some(1), Some(2)]);
    OwnerAfter(ApplyAll(EMPTY, cmds), cmds[1..3], [Some(2), Some(3), Some(3)]);
  }

  /** A purge in the middle of a replay can do the same to a topic whose last
      owner nothing in the log takes it from. */
  lemma MidReplayPurgeDiverges()
    ensures var cmds := [ClaimTopic("t", 1, 0), TransferTopic("t", 2, 9), TransferTopic("t", 1, 2), TransferTopic("t", 2, 3)];
            && Anchored(Some(3), cmds, "t")
            && ValidRun(FRESH, RerunTwice(cmds, 3, 1))
            && var n := Run(FRESH, RerunTwice(cmds, 3, 1));
               && n.applied == n.high == 4
               && OwnerOf(ApplyAll(EMPTY, cmds), "t") == Some(3) && OwnerOf(n.mem, "t") == Some(9)
  {
    var a, b, c, d := ClaimTopic("t", 1, 0), TransferTopic("t", 2, 9), TransferTopic("t", 1, 2), TransferTopic("t", 2, 3);
    var cmds := [a, b, c, d];
    RerunTwiceEnds(cmds, 3, 1);
    MidReplayOwners(cmds);
  }

  lemma MidReplayOwners(cmds: seq<Command>)
    requires cmds ==
      [ClaimTopic("t", 1, 0), TransferTopic("t", 2, 9), TransferTopic("t", 1, 2), TransferTopic("t", 2, 3)]
    ensures OwnerOf(ApplyAll(EMPTY, cmds), "t") == Some(3)
    ensures OwnerOf(ApplyAll(ApplyAll(ApplyAll(EMPTY, cmds), cmds[0..3]), cmds[1..4]), "t") == Some(9)
  {
    OwnerAfter(EMPTY, cmds, [None, Some(1), Some(1), Some(2), Some(3)]);
    OwnerAfter(ApplyAll(EMPTY, cmds), cmds[0..3], [Some(3), Some(1), Some(1), Some(2)]);
    OwnerAfter(ApplyAll(ApplyAll(EMPTY, cmds), cmds[0..3]), cmds[1..4], [Some(2), Some(9), Some(9), Some(9)]);
  }

  // ------------------------------------------------------------------ leases

  type Seconds = t: nat | t <= 1000

  function Nanos(t: Seconds): U64
  {
    t * NANOS_PER_SEC
  }

  function Acquire(owner: NodeId, id: U64, ttl: Seconds, at: Seconds): Command
  {
    AcquireLease("k", owner, id, ttl, Nanos(at))
  }

  function Renew(id: U64, at: Seconds): Command
  {
    RenewLease(id, Nanos(at))
  }

  function Lease(owner: NodeId, id: U64, ttl: Seconds, at: Seconds, end: nat): LeaseEntry
    requires end <= 2000
  {
    LeaseEntry(id, "k", owner, Nanos(at), ttl, end * NANOS_PER_SEC)
  }

  /** A state with leases of key "k" only. */
  function Table(leases: map<U64, LeaseEntry>, holder: Option<U64>, next: U64): State
  {
    State(map[], map[], leases, if holder.Some? then map["k" := holder.value] else map[], next)
  }

  lemma Granted(leases: map<U64, LeaseEntry>, holder: Option<U64>, next: U64,
                owner: NodeId, id: U64, ttl: Seconds, at: Seconds)
    requires holder.Some? && holder.value in leases ==> leases[holder.value].expiresAt <= Nanos(at)
    requires id < 100
    ensures Apply(Table(leases, holder, next), Acquire(owner, id, ttl, at)) ==
      Table(leases[id := Lease(owner, id, ttl, at, at + ttl)], Some(id), if id >= next then id + 1 else next)
  {
  }

  lemma Refused(leases: map<U64, LeaseEntry>, holder: U64, next: U64,
                owner: NodeId, id: U64, ttl: Seconds, at: Seconds)
    requires holder in leases && leases[holder].expiresAt > Nanos(at)
    ensures Apply(Table(leases, Some(holder), next), Acquire(owner, id, ttl, at)) == Table(leases, Some(holder), next)
  {
  }

  lemma Released(leases: map<U64, LeaseEntry>, holder: U64, next: U64)
    ensures Apply(Table(leases, Some(holder), next), ReleaseLease("k")) == Table(leases - {holder}, None, next)
  {
    assert map["k" := holder] - {"k"} == map[];
  }

  lemma Extended(leases: map<U64, LeaseEntry>, holder: Option<U64>, next: U64, id: U64, at: Seconds)
    requires id in leases && leases[id].expiresAt > Nanos(at) && leases[id].ttlSecs <= 1000
    ensures Apply(Table(leases, holder, next), Renew(id, at)) ==
      Table(leases[id := leases[id].(expiresAt := (at + leases[id].ttlSecs) * NANOS_PER_SEC)], holder, next)
  {
  }

  lemma Swept(leases: map<U64, LeaseEntry>, holder: Option<U64>, next: U64, now: U64)
    requires forall id :: id in leases ==> leases[id].key == "k"
    ensures (exists id :: id in leases && leases[id].expiresAt <= now) ==>
      Expire(Table(leases, holder, next), now) == Table(map[], None, next)
    ensures (forall id :: id in leases ==> leases[id].expiresAt > now) ==>
      Expire(Table(leases, holder, next), now) == Table(leases, holder, next)
  {
    var s := Table(leases, holder, next);
    if id :| id in leases && leases[id].expiresAt <= now {
      assert KeyHasExpired(s, "k", now);
      assert Expire(s, now).leases == map[] && Expire(s, now).keyLeases == map[];
    } else {
      assert Expire(s, now).leases == s.leases && Expire(s, now).keyLeases == s.keyLeases;
    }
  }

  lemma {:induction false} Through(cmds: seq<Command>, states: seq<State>)
    requires |states| == |cmds| + 1
    requires forall i :: 0 <= i < |cmds| ==> states[i + 1] == Apply(states[i], cmds[i])
    ensures ApplyAll(states[0], cmds) == states[|cmds|]
    decreases |cmds|
  {
    if cmds == [] {
    } else {
      Through(cmds[1..], states[1..]);
    }
  }

  /** Expiry commands in the log: everything else in order, and yet the node
      that replayed names another live holder than the log does. */
  ghost function WithExpiry(): seq<Command>
  {
    [Acquire(1, 0, 1, 3), Acquire(2, 1, 8, 5), ReleaseLease("k"), Acquire(3, 2, 8, 9),
     ExpireLeases(Nanos(12)), Acquire(4, 3, 4, 12)]
  }

  lemma WithExpiryBegins()
    ensures ApplyAll(EMPTY, WithExpiry()[..3]) == Table(map[0 := Lease(1, 0, 1, 3, 4)], None, 2)
  {
    var a, b := Lease(1, 0, 1, 3, 4), Lease(2, 1, 8, 5, 13);
    Granted(map[], None, 0, 1, 0, 1, 3);
    Granted(map[0 := a], Some(0), 1, 2, 1, 8, 5);
    Released(map[0 := a, 1 := b], 1, 2);
    assert map[0 := a, 1 := b] - {1} == map[0 := a];
    Through(WithExpiry()[..3],
      [EMPTY, Table(map[0 := a], Some(0), 1), Table(map[0 := a, 1 := b], Some(1), 2), Table(map[0 := a], None, 2)]);
  }

  lemma WithExpiryEnds()
    ensures ApplyAll(Table(map[0 := Lease(1, 0, 1, 3, 4)], None, 2), WithExpiry()[3..]) ==
      Table(map[3 := Lease(4, 3, 4, 12, 16)], Some(3), 4)
  {
    var a, c, d := Lease(1, 0, 1, 3, 4), Lease(3, 2, 8, 9, 17), Lease(4, 3, 4, 12, 16);
    Granted(map[0 := a], None, 2, 3, 2, 8, 9);
    Swept(map[0 := a, 2 := c], Some(2), 3, Nanos(12));
    assert a.expiresAt <= Nanos(12) && map[0 := a, 2 := c][0] == a;
    Granted(map[], None, 3, 4, 3, 4, 12);
    Through(WithExpiry()[3..], [Table(map[0 := a], None, 2), Table(map[0 := a, 2 := c], Some(2), 3),
                                Table(map[], None, 3), Table(map[3 := d], Some(3), 4)]);
  }

  lemma WithExpiryOnce()
    ensures ApplyAll(EMPTY, WithExpiry()) == Table(map[3 := Lease(4, 3, 4, 12, 16)], Some(3), 4)
  {
    WithExpiryBegins();
    WithExpiryEnds();
    var cmds := WithExpiry();
    assert cmds == cmds[..3] + cmds[3..];
    ApplyAllConcat(EMPTY, cmds[..3], cmds[3..]);
  }

  lemma WithExpiryAgain()
    ensures ApplyAll(Table(map[3 := Lease(4, 3, 4, 12, 16)], Some(3), 4), WithExpiry()) ==
      Table(map[2 := Lease(3, 2, 8, 9, 17)], Some(2), 4)
  {
    var c, d := Lease(3, 2, 8, 9, 17), Lease(4, 3, 4, 12, 16);
    Refused(map[3 := d], 3, 4, 1, 0, 1, 3);
    Refused(map[3 := d], 3, 4, 2, 1, 8, 5);
    Released(map[3 := d], 3, 4);
    assert map[3 := d] - {3} == map[];
    Granted(map[], None, 4, 3, 2, 8, 9);
    Swept(map[2 := c], Some(2), 4, Nanos(12));
    Refused(map[2 := c], 2, 4, 4, 3, 4, 12);
    var s, t := Table(map[3 := d], Some(3), 4), Table(map[2 := c], Some(2), 4);
    Through(WithExpiry(), [s, s, s, Table(map[], None, 4), t, t, t]);
  }

  lemma ExpiryCommandsMoveHolder()
    ensures var cmds := WithExpiry();
            && ValidRun(FRESH, Rerun(cmds, 6))
            && var n := Run(FRESH, Rerun(cmds, 6));
               && n.applied == n.high == 6
               && LiveLease(ApplyAll(EMPTY, cmds), "k", Nanos(12)) == Some(Lease(4, 3, 4, 12, 16))
               && LiveLease(n.mem, "k", Nanos(12)) == Some(Lease(3, 2, 8, 9, 17))
  {
    var cmds := WithExpiry();
    RerunEnds(cmds, 6);
    assert cmds[0..6] == cmds;
    WithExpiryOnce();
    WithExpiryAgain();
  }

  /** An id used twice: on replay the early renewal cuts the later lease short,
      and the acquisition it used to block is granted. */
  lemma ReusedIdMovesHolder()
    ensures var cmds := [Acquire(1, 1, 3, 2), Renew(1, 2), Acquire(3, 0, 5, 4), Acquire(4, 1, 1, 6)];
            && ValidRun(FRESH, Rerun(cmds, 4))
            && var n := Run(FRESH, Rerun(cmds, 4));
               && n.applied == n.high == 4
               && LiveLease(ApplyAll(EMPTY, cmds), "k", Nanos(6)) == Some(Lease(4, 1, 1, 6, 7))
               && LiveLease(n.mem, "k", Nanos(6)) == Some(Lease(3, 0, 5, 4, 9))
  {
    var cmds := [Acquire(1, 1, 3, 2), Renew(1, 2), Acquire(3, 0, 5, 4), Acquire(4, 1, 1, 6)];
    RerunEnds(cmds, 4);
    assert cmds[0..4] == cmds;
    ReusedIdOnce(cmds);
    ReusedIdAgain(cmds);
  }

  lemma ReusedIdOnce(cmds: seq<Command>)
    requires cmds == [Acquire(1, 1, 3, 2), Renew(1, 2), Acquire(3, 0, 5, 4), Acquire(4, 1, 1, 6)]
    ensures ApplyAll(EMPTY, cmds) == Table(map[1 := Lease(4, 1, 1, 6, 7)], Some(1), 2)
  {
    var a, b := Lease(1, 1, 3, 2, 5), Lease(4, 1, 1, 6, 7);
    var s := Table(map[1 := a], Some(1), 2);
    Granted(map[], None, 0, 1, 1, 3, 2);
    Extended(map[1 := a], Some(1), 2, 1, 2);
    Refused(map[1 := a], 1, 2, 3, 0, 5, 4);
    Granted(map[1 := a], Some(1), 2, 4, 1, 1, 6);
    assert map[1 := a][1 := a] == map[1 := a] && map[1 := a][1 := b] == map[1 := b];
    Through(cmds, [EMPTY, s, s, s, Table(map[1 := b], Some(1), 2)]);
  }

  lemma ReusedIdAgain(cmds: seq<Command>)
    requires cmds == [Acquire(1, 1, 3, 2), Renew(1, 2), Acquire(3, 0, 5, 4), Acquire(4, 1, 1, 6)]
    ensures ApplyAll(Table(map[1 := Lease(4, 1, 1, 6, 7)], Some(1), 2), cmds) ==
      Table(map[1 := Lease(4, 1, 1, 6, 3), 0 := Lease(3, 0, 5, 4, 9)], Some(0), 2)
  {
    var b, c, d := Lease(4, 1, 1, 6, 7), Lease(4, 1, 1, 6, 3), Lease(3, 0, 5, 4, 9);
    var s, t := Table(map[1 := b], Some(1), 2), Table(map[1 := c, 0 := d], Some(0), 2);
    Refused(map[1 := b], 1, 2, 1, 1, 3, 2);
    Extended(map[1 := b], Some(1), 2, 1, 2);
    assert map[1 := b][1 := c] == map[1 := c];
    Granted(map[1 := c], Some(1), 2, 3, 0, 5, 4);
    assert map[1 := c][0 := d] == map[1 := c, 0 := d];
    Refused(map[1 := c, 0 := d], 0, 2, 4, 1, 1, 6);
    Through(cmds, [s, s, Table(map[1 := c], Some(1), 2), t, t]);
  }

  /** A timestamp that runs backwards: the renewal shortens the lease, and on
      replay the acquisition it used to block is granted. */
  lemma BackwardsStampMovesHolder()
    ensures var cmds := [Acquire(1, 0, 2, 2), Acquire(2, 1, 2, 3), Renew(0, 1)];
            && ValidRun(FRESH, Rerun(cmds, 3))
            && var n := Run(FRESH, Rerun(cmds, 3));
               && n.applied == n.high == 3
               && LiveLease(ApplyAll(EMPTY, cmds), "k", Nanos(3)) == None
               && LiveLease(n.mem, "k", Nanos(3)) == Some(Lease(2, 1, 2, 3, 5))
  {
    var cmds := [Acquire(1, 0, 2, 2), Acquire(2, 1, 2, 3), Renew(0, 1)];
    RerunEnds(cmds, 3);
    assert cmds[0..3] == cmds;
    BackwardsStampOnce(cmds);
    BackwardsStampAgain(cmds);
  }

  lemma BackwardsStampOnce(cmds: seq<Command>)
    requires cmds == [Acquire(1, 0, 2, 2), Acquire(2, 1, 2, 3), Renew(0, 1)]
    ensures ApplyAll(EMPTY, cmds) == Table(map[0 := Lease(1, 0, 2, 2, 3)], Some(0), 1)
  {
    var a, b := Lease(1, 0, 2, 2, 4), Lease(1, 0, 2, 2, 3);
    Granted(map[], None, 0, 1, 0, 2, 2);
    Refused(map[0 := a], 0, 1, 2, 1, 2, 3);
    Extended(map[0 := a], Some(0), 1, 0, 1);
    assert map[0 := a][0 := b] == map[0 := b];
    var s := Table(map[0 := a], Some(0), 1);
    Through(cmds, [EMPTY, s, s, Table(map[0 := b], Some(0), 1)]);
  }

  lemma BackwardsStampAgain(cmds: seq<Command>)
    requires cmds == [Acquire(1, 0, 2, 2), Acquire(2, 1, 2, 3), Renew(0, 1)]
    ensures ApplyAll(Table(map[0 := Lease(1, 0, 2, 2, 3)], Some(0), 1), cmds) ==
      Table(map[0 := Lease(1, 0, 2, 2, 3), 1 := Lease(2, 1, 2, 3, 5)], Some(1), 2)
  {
    var b, c := Lease(1, 0, 2, 2, 3), Lease(2, 1, 2, 3, 5);
    Refused(map[0 := b], 0, 1, 1, 0, 2, 2);
    Granted(map[0 := b], Some(0), 1, 2, 1, 2, 3);
    Extended(map[0 := b, 1 := c], Some(1), 2, 0, 1);
    assert map[0 := b, 1 := c][0 := b] == map[0 := b, 1 := c];
    var t, u := Table(map[0 := b], Some(0), 1), Table(map[0 := b, 1 := c], Some(1), 2);
    Through(cmds, [t, t, u, u]);
  }

  /** A renewal that names an id acquired only later: nothing the first time,
      but on replay it cuts the lease short and a later renewal misses it. */
  lemma EarlyRenewalLosesHolder()
    ensures var cmds := [Renew(0, 0), Acquire(2, 0, 4, 2), Renew(0, 4)];
            && ValidRun(FRESH, Rerun(cmds, 3))
            && var n := Run(FRESH, Rerun(cmds, 3));
               && n.applied == n.high == 3
               && LiveLease(ApplyAll(EMPTY, cmds), "k", Nanos(4)) == Some(Lease(2, 0, 4, 2, 8))
               && LiveLease(n.mem, "k", Nanos(4)) == None
  {
    var cmds := [Renew(0, 0), Acquire(2, 0, 4, 2), Renew(0, 4)];
    RerunEnds(cmds, 3);
    assert cmds[0..3] == cmds;
    EarlyRenewalOnce(cmds);
    EarlyRenewalAgain(cmds);
  }

  lemma EarlyRenewalOnce(cmds: seq<Command>)
    requires cmds == [Renew(0, 0), Acquire(2, 0, 4, 2), Renew(0, 4)]
    ensures ApplyAll(EMPTY, cmds) == Table(map[0 := Lease(2, 0, 4, 2, 8)], Some(0), 1)
  {
    var a, b := Lease(2, 0, 4, 2, 6), Lease(2, 0, 4, 2, 8);
    Granted(map[], None, 0, 2, 0, 4, 2);
    Extended(map[0 := a], Some(0), 1, 0, 4);
    assert map[0 := a][0 := b] == map[0 := b];
    Through(cmds, [EMPTY, EMPTY, Table(map[0 := a], Some(0), 1), Table(map[0 := b], Some(0), 1)]);
  }

  lemma EarlyRenewalAgain(cmds: seq<Command>)
    requires cmds == [Renew(0, 0), Acquire(2, 0, 4, 2), Renew(0, 4)]
    ensures ApplyAll(Table(map[0 := Lease(2, 0, 4, 2, 8)], Some(0), 1), cmds) ==
      Table(map[0 := Lease(2, 0, 4, 2, 4)], Some(0), 1)
  {
    var b, c := Lease(2, 0, 4, 2, 8), Lease(2, 0, 4, 2, 4);
    Extended(map[0 := b], Some(0), 1, 0, 0);
    assert map[0 := b][0 := c] == map[0 := c];
    Refused(map[0 := c], 0, 1, 2, 0, 4, 2);
    var t, u := Table(map[0 := b], Some(0), 1), Table(map[0 := c], Some(0), 1);
    Through(cmds, [t, u, u, u]);
  }

  /** A lease of no duration: the replay grants what the log refused, and the
      release that follows leaves one entry too many behind. */
  lemma ZeroTtlLeavesStray()
    ensures var cmds := [Acquire(1, 0, 4, 2), Acquire(2, 1, 0, 4), Acquire(3, 2, 1, 4), ReleaseLease("k"), Acquire(5, 3, 0, 4)];
            && ValidRun(FRESH, Rerun(cmds, 5))
            && var n := Run(FRESH, Rerun(cmds, 5));
               n.applied == n.high == 5 && 1 !in ApplyAll(EMPTY, cmds).leases && 1 in n.mem.leases
  {
    var cmds := [Acquire(1, 0, 4, 2), Acquire(2, 1, 0, 4), Acquire(3, 2, 1, 4), ReleaseLease("k"), Acquire(5, 3, 0, 4)];
    RerunEnds(cmds, 5);
    assert cmds[0..5] == cmds;
    ZeroTtlOnce(cmds);
    ZeroTtlAgain(cmds);
  }

  lemma ZeroTtlOnce(cmds: seq<Command>)
    requires cmds == [Acquire(1, 0, 4, 2), Acquire(2, 1, 0, 4), Acquire(3, 2, 1, 4), ReleaseLease("k"), Acquire(5, 3, 0, 4)]
    ensures ApplyAll(EMPTY, cmds) == Table(map[3 := Lease(5, 3, 0, 4, 4)], Some(3), 4)
  {
    var a := Lease(1, 0, 4, 2, 6);
    var s := Table(map[0 := a], Some(0), 1);
    Granted(map[], None, 0, 1, 0, 4, 2);
    Refused(map[0 := a], 0, 1, 2, 1, 0, 4);
    Refused(map[0 := a], 0, 1, 3, 2, 1, 4);
    Released(map[0 := a], 0, 1);
    assert map[0 := a] - {0} == map[];
    Granted(map[], None, 1, 5, 3, 0, 4);
    Through(cmds, [EMPTY, s, s, s, Table(map[], None, 1), Table(map[3 := Lease(5, 3, 0, 4, 4)], Some(3), 4)]);
  }

  lemma ZeroTtlAgain(cmds: seq<Command>)
    requires cmds == [Acquire(1, 0, 4, 2), Acquire(2, 1, 0, 4), Acquire(3, 2, 1, 4), ReleaseLease("k"), Acquire(5, 3, 0, 4)]
    ensures ApplyAll(Table(map[3 := Lease(5, 3, 0, 4, 4)], Some(3), 4), cmds) ==
      Table(map[3 := Lease(5, 3, 0, 4, 4), 1 := Lease(2, 1, 0, 4, 4)], Some(3), 4)
  {
    var d, b, c := Lease(5, 3, 0, 4, 4), Lease(2, 1, 0, 4, 4), Lease(3, 2, 1, 4, 5);
    var two, three := map[3 := d, 1 := b], map[3 := d, 1 := b, 2 := c];
    Refused(map[3 := d], 3, 4, 1, 0, 4, 2);
    Granted(map[3 := d], Some(3), 4, 2, 1, 0, 4);
    Granted(two, Some(1), 4, 3, 2, 1, 4);
    Released(three, 2, 4);
    assert map[3 := d][1 := b] == two && two[2 := c] == three && three - {2} == two && two[3 := d] == two;
    Granted(two, None, 4, 5, 3, 0, 4);
    var s := Table(map[3 := d], Some(3), 4);
    Through(cmds, [s, s, Table(two, Some(1), 4), Table(three, Some(2), 4), Table(two, None, 4), Table(two, Some(3), 4)]);
  }

  /** Apply the first entry, sweep, apply the second. */
  function SweptBetween(cmds: seq<Command>, now: U64): seq<Step>
    requires |cmds| == 2
  {
    [Append(Entries(cmds))] + ([ApplyBatch(1)] + ([Sweep(now)] + ([ApplyBatch(1)] + [])))
  }

  lemma SweptBetweenEnds(cmds: seq<Command>, now: U64, s: State, t: State, u: State)
    requires |cmds| == 2 && s == Apply(EMPTY, cmds[0]) && t == Expire(s, now) && u == Apply(t, cmds[1])
    ensures ValidRun(FRESH, SweptBetween(cmds, now))
    ensures var n := Run(FRESH, SweptBetween(cmds, now)); n.applied == n.high == 2 && n.mem == u
  {
    var es := Entries(cmds);
    CommandsAre(es[0..1], cmds[0..1]);
    CommandsAre(es[1..2], cmds[1..2]);
    Through(cmds[0..1], [EMPTY, s]);
    Through(cmds[1..2], [t, u]);
    var n0, n1, n2 := Loaded(cmds), Node(es, es, 0, 1, 1, s, s), Node(es, es, 0, 1, 1, t, s);
    LoadedFirst(cmds);
    assert Next(n0, ApplyBatch(1)) == n1 && Next(n2, ApplyBatch(1)) == Node(es, es, 0, 2, 2, u, u);
    Unroll(n2, ApplyBatch(1), []);
    Unroll(n1, Sweep(now), [ApplyBatch(1)] + []);
    Unroll(n0, ApplyBatch(1), [Sweep(now)] + ([ApplyBatch(1)] + []));
    Unroll(FRESH, Append(es), [ApplyBatch(1)] + ([Sweep(now)] + ([ApplyBatch(1)] + [])));
  }

  /** A sweep ahead of the log: it removes a lease that a logged acquisition
      was refused for, and the node then grants that acquisition. */
  lemma LateSweepGrants()
    ensures var cmds := [Acquire(1, 0, 1, 0), Acquire(2, 1, 100, 0)];
            && ValidRun(FRESH, SweptBetween(cmds, Nanos(50)))
            && var n := Run(FRESH, SweptBetween(cmds, Nanos(50)));
               && n.applied == n.high == 2
               && LiveLease(ApplyAll(EMPTY, cmds), "k", Nanos(50)) == None
               && LiveLease(n.mem, "k", Nanos(50)) == Some(Lease(2, 1, 100, 0, 100))
  {
    var cmds := [Acquire(1, 0, 1, 0), Acquire(2, 1, 100, 0)];
    var a, b := Lease(1, 0, 1, 0, 1), Lease(2, 1, 100, 0, 100);
    var s, t, u := Table(map[0 := a], Some(0), 1), Table(map[], None, 1), Table(map[1 := b], Some(1), 2);
    Granted(map[], None, 0, 1, 0, 1, 0);
    Refused(map[0 := a], 0, 1, 2, 1, 100, 0);
    Through(cmds, [EMPTY, s, s]);
    Swept(map[0 := a], Some(0), 1, Nanos(50));
    assert map[0 := a][0].expiresAt <= Nanos(50);
    Granted(map[], None, 1, 2, 1, 100, 0);
    SweptBetweenEnds(cmds, Nanos(50), s, t, u);
  }

  /** A purged acquisition: what it blocked is granted on replay, and its
      leftover stays. */
  lemma PurgedAcquisitionLeavesStray()
    ensures var cmds := [Acquire(1, 0, 6, 1), Acquire(2, 1, 1, 1), Acquire(3, 2, 3, 3), ReleaseLease("k")];
            && ValidRun(FRESH, PurgedRerun(cmds, 1))
            && var n := Run(FRESH, PurgedRerun(cmds, 1));
               n.applied == n.high == 4 && ApplyAll(EMPTY, cmds).leases == map[] && 1 in n.mem.leases
  {
    var cmds := [Acquire(1, 0, 6, 1), Acquire(2, 1, 1, 1), Acquire(3, 2, 3, 3), ReleaseLease("k")];
    PurgedRerunEnds(cmds, 1);
    PurgedAcquisitionOnce(cmds);
    PurgedAcquisitionAgain(cmds[1..4]);
  }

  lemma PurgedAcquisitionOnce(cmds: seq<Command>)
    requires cmds == [Acquire(1, 0, 6, 1), Acquire(2, 1, 1, 1), Acquire(3, 2, 3, 3), ReleaseLease("k")]
    ensures ApplyAll(EMPTY, cmds) == Table(map[], None, 1)
  {
    var a := Lease(1, 0, 6, 1, 7);
    var s := Table(map[0 := a], Some(0), 1);
    Granted(map[], None, 0, 1, 0, 6, 1);
    Refused(map[0 := a], 0, 1, 2, 1, 1, 1);
    Refused(map[0 := a], 0, 1, 3, 2, 3, 3);
    Released(map[0 := a], 0, 1);
    assert map[0 := a] - {0} == map[];
    Through(cmds, [EMPTY, s, s, s, Table(map[], None, 1)]);
  }

  lemma PurgedAcquisitionAgain(cmds: seq<Command>)
    requires cmds == [Acquire(2, 1, 1, 1), Acquire(3, 2, 3, 3), ReleaseLease("k")]
    ensures ApplyAll(Table(map[], None, 1), cmds) == Table(map[1 := Lease(2, 1, 1, 1, 2)], None, 3)
  {
    var b, c := Lease(2, 1, 1, 1, 2), Lease(3, 2, 3, 3, 6);
    Granted(map[], None, 1, 2, 1, 1, 1);
    Granted(map[1 := b], Some(1), 2, 3, 2, 3, 3);
    Released(map[1 := b, 2 := c], 2, 3);
    assert map[1 := b, 2 := c] - {2} == map[1 := b];
    Through(cmds, [Table(map[], None, 1), Table(map[1 := b], Some(1), 2), Table(map[1 := b, 2 := c], Some(2), 3),
                   Table(map[1 := b], None, 3)]);
  }
}
