/** The Raft storage object: the log, the applied state and their two files. */
module Storage {
  import opened Words
  import opened OwnershipModel
  import opened OwnershipMachine
  import opened LogEntries
  import Topics

  datatype Response =
    | Owner(topic: string, owner: Option<NodeId>)
    | LeaseOwner(key: string, info: Option<LeaseEntry>)
    | LeaseResult(lease: Option<LeaseEntry>)
    | LeaseCount(count: nat)

  datatype Bound = Included(i: U64) | Excluded(i: U64) | Unbounded

  function ApplyEntries(s: State, es: seq<Entry>): State
  {
    ApplyAll(s, Commands(es))
  }

  /** The answer to an entry, read off the state it leaves behind. */
  function Answer(after: State, e: Entry): Response
  {
    match e.payload
    case Normal(ReleaseLease(key)) => LeaseOwner(key, None)
    case Normal(AcquireLease(key, _, _, _, _)) => LeaseOwner(key, LeaseInfo(after, key))
    case Normal(RenewLease(id, _)) => LeaseResult(if id in after.leases then Some(after.leases[id]) else None)
    case Normal(ExpireLeases(_)) => LeaseCount(0)
    case Normal(cmd) => Owner(cmd.topic, if cmd.topic in after.ownership then Some(after.ownership[cmd.topic]) else None)
    case _ => Owner("", None)
  }

  /** One answer per entry, each read off the state right after that entry. */
  function Answers(s: State, es: seq<Entry>): (r: seq<Response>)
    ensures |r| == |es|
    ensures forall i :: 0 <= i < |es| ==> r[i] == Answer(ApplyEntries(s, es[..i + 1]), es[i])
  {
    seq(|es|, i requires 0 <= i < |es| => Answer(ApplyEntries(s, es[..i + 1]), es[i]))
  }

  /** What an answer tells the proposer, said of the state before the entry.
      An acquisition is told the lease it was just given or the one that was in
      its way; a topic command the owner it leaves; a renewal the lease as
      renewed, or as it was if it had run out; an expiry command nothing. */
  ghost predicate Tells(before: State, e: Entry, r: Response)
  {
    match e.payload
    case Normal(AcquireLease(key, owner, id, ttlSecs, t)) =>
      && r.LeaseOwner? && r.key == key && r.info.Some?
      && (if Held(before, key, t) then r.info.value == before.leases[before.keyLeases[key]]
          else r.info.value == LeaseEntry(id, key, owner, t, ttlSecs, r.info.value.expiresAt)
               && EndsAt(t, ttlSecs, r.info.value.expiresAt))
    case Normal(RenewLease(id, t)) =>
      && r.LeaseResult?
      && (if id !in before.leases then r.lease == None
          else if before.leases[id].expiresAt <= t then r.lease == Some(before.leases[id])
          else && r.lease.Some? && r.lease.value == before.leases[id].(expiresAt := r.lease.value.expiresAt)
               && EndsAt(t, before.leases[id].ttlSecs, r.lease.value.expiresAt))
    case Normal(ReleaseLease(key)) => r == LeaseOwner(key, None)
    case Normal(ExpireLeases(_)) => r == LeaseCount(0)
    case Normal(cmd) => r == Owner(cmd.topic, Topics.Register(Topics.OwnerOf(before, cmd.topic), cmd, cmd.topic))
    case _ => r == Owner("", None)
  }

  /** `ttlSecs` seconds after `t`, or the end of representable time. */
  ghost predicate EndsAt(t: U64, ttlSecs: U64, end: U64)
  {
    end == (if t + ttlSecs * 1_000_000_000 <= U64_MAX then t + ttlSecs * 1_000_000_000 else U64_MAX)
  }

  lemma AnswerTells(before: State, e: Entry)
    ensures Tells(before, e, Answer(ApplyEntries(before, [e]), e))
  {
    assert [e][1..] == [];
    if e.payload.Normal? {
      var cmd := e.payload.cmd;
      assert Commands([e]) == [cmd] && [cmd][1..] == [];
      assert ApplyAll(before, [cmd]) == Apply(before, cmd);
      Topics.CommandActsOnRegister(before, cmd, if cmd.ClaimTopic? || cmd.ReleaseTopic? || cmd.TransferTopic? then cmd.topic else "");
    }
  }

  /** Every answer of a batch tells what its entry met and did. */
  lemma AnswersTell(s: State, es: seq<Entry>)
    ensures forall i :: 0 <= i < |es| ==> Tells(ApplyEntries(s, es[..i]), es[i], Answers(s, es)[i])
  {
    forall i | 0 <= i < |es| ensures Tells(ApplyEntries(s, es[..i]), es[i], Answers(s, es)[i]) {
      AnswerTells(ApplyEntries(s, es[..i]), es[i]);
      ApplyOneMore(s, es, i);
    }
  }

  function Serialized(es: seq<Entry>): (r: seq<SerializableLogEntry>)
    ensures |r| == |es| && forall i :: 0 <= i < |es| ==> r[i] == ToSerializable(es[i])
  {
    seq(|es|, i requires 0 <= i < |es| => ToSerializable(es[i]))
  }

  function Deserialized(ss: seq<SerializableLogEntry>): (r: seq<Entry>)
    ensures |r| == |ss| && forall i :: 0 <= i < |ss| ==> r[i] == FromSerializable(ss[i])
  {
    seq(|ss|, i requires 0 <= i < |ss| => FromSerializable(ss[i]))
  }

  lemma SerializedNext(es: seq<Entry>, i: nat)
    requires i < |es|
    ensures Serialized(es[..i + 1]) == Serialized(es[..i]) + [ToSerializable(es[i])]
  {
  }

  /** The log a restart reads from the file. */
  function Load(file: seq<SerializableLogEntry>): Log
  {
    InsertAll(map[], Deserialized(file))
  }

  /** Writing the log and reading it back restores every entry, membership
      payloads excepted. */
  lemma LogFileRestoresLog(log: Log, es: seq<Entry>)
    requires Indexed(log) && Lists(log, 0, U64_MAX + 1, es)
    ensures Load(Serialized(es)) == ReloadedLog(log)
  {
    ReadBack(es);
    ReloadingKeepsListing(log, es, ReloadedLog(log));
    ListingRebuildsLog(ReloadedLog(log), ReloadedAll(es));
  }

  lemma ReadBack(es: seq<Entry>)
    ensures Deserialized(Serialized(es)) == ReloadedAll(es)
  {
  }

  lemma ReloadingKeepsListing(log: Log, es: seq<Entry>, r: Log)
    requires Indexed(log) && Lists(log, 0, U64_MAX + 1, es)
    requires r.Keys == log.Keys && forall k :: k in log ==> r[k] == Reloaded(log[k])
    ensures Indexed(r) && Lists(r, 0, U64_MAX + 1, ReloadedAll(es))
  {
    var rs := ReloadedAll(es);
    assert forall i :: 0 <= i < |rs| ==> rs[i].logId == es[i].logId;
    forall k | k in r ensures exists i :: 0 <= i < |rs| && rs[i] == r[k] {
      var i := PositionOf(log, es, k);
      assert rs[i] == r[k];
    }
  }

  lemma ListingRebuildsLog(log: Log, es: seq<Entry>)
    requires Indexed(log) && Lists(log, 0, U64_MAX + 1, es)
    ensures InsertAll(map[], es) == log
  {
    forall k | k in log ensures k in InsertAll(map[], es) && InsertAll(map[], es)[k] == log[k] {
      ListedIsBuilt(log, es, k);
    }
    forall k | k in InsertAll(map[], es) ensures k in log {
      BuiltIsListed(log, es, k);
    }
  }

  lemma ListedIsBuilt(log: Log, es: seq<Entry>, k: U64)
    requires Indexed(log) && Lists(log, 0, U64_MAX + 1, es) && k in log
    ensures k in InsertAll(map[], es) && InsertAll(map[], es)[k] == log[k]
  {
    var i := PositionOf(log, es, k);
    InsertAllGet(map[], es, i);
  }

  lemma BuiltIsListed(log: Log, es: seq<Entry>, k: U64)
    requires Indexed(log) && Lists(log, 0, U64_MAX + 1, es) && k in InsertAll(map[], es)
    ensures k in log
  {
    var i := InsertedFrom(es, k);
  }

  lemma {:induction false} InsertedFrom(es: seq<Entry>, k: U64) returns (i: nat)
    requires k in InsertAll(map[], es)
    ensures i < |es| && es[i].logId.index == k
    decreases |es|
  {
    i := |es| - 1;
    if es[i].logId.index != k {
      i := InsertedFrom(es[..i], k);
    }
  }

  lemma PositionOf(log: Log, es: seq<Entry>, k: U64) returns (i: nat)
    requires Indexed(log) && Lists(log, 0, U64_MAX + 1, es) && k in log
    ensures i < |es| && es[i] == log[k] && es[i].logId.index == k
  {
    i :| 0 <= i < |es| && es[i] == log[k];
  }

  class RaftStorage {
    const machine: OwnershipState
    const persistent: bool
    var log: Log
    var lastApplied: Option<LogId>
    var dirty: bool
    // Contents of ownership_state.bin and raft_log.dat.
    var stateFile: Option<State>
    var logFile: Option<seq<SerializableLogEntry>>

    ghost predicate Valid()
      reads this
    {
      && Indexed(log)
      && (persistent && logFile.Some? ==> Load(logFile.value) == ReloadedLog(log))
      && (persistent && logFile.None? ==> log == map[])
    }

    constructor InMemory()
      ensures Valid() && fresh(machine) && !persistent
      ensures machine.View() == EMPTY && log == map[] && lastApplied == None && !dirty
    {
      machine := new OwnershipState();
      persistent := false;
      log, lastApplied, dirty, stateFile, logFile := map[], None, false, None, None;
    }

    /** Restart from the files an earlier instance left. The applied position
        is not among them. */
    constructor WithPersistence(savedState: Option<State>, savedLog: Option<seq<SerializableLogEntry>>)
      ensures Valid() && fresh(machine) && persistent
      ensures machine.View() == (if savedState.Some? then savedState.value else EMPTY)
      ensures log == (if savedLog.Some? then Load(savedLog.value) else map[])
      ensures lastApplied == None && !dirty && stateFile == savedState && logFile == savedLog
    {
      var m := new OwnershipState();
      if savedState.Some? {
        m.Restore(savedState.value);
      }
      var l: Log := map[];
      if savedLog.Some? {
        l := LoadLog(savedLog.value);
      }
      machine := m;
      persistent := true;
      log, lastApplied, dirty, stateFile, logFile := l, None, false, savedState, savedLog;
    }

    static method LoadLog(file: seq<SerializableLogEntry>) returns (l: Log)
      ensures l == Load(file) && Indexed(l)
      ensures l == ReloadedLog(l)
    {
      l := map[];
      for i := 0 to |file|
        invariant l == InsertAll(map[], Deserialized(file)[..i]) && Indexed(l)
        invariant forall k :: k in l ==> Reloaded(l[k]) == l[k]
      {
        var entry := FromSerializable(file[i]);
        SerializationRoundTrip(entry, file[i]);
        l := l[entry.logId.index := entry];
        assert Deserialized(file)[..i + 1][..i] == Deserialized(file)[..i];
      }
      assert Deserialized(file)[..|file|] == Deserialized(file);
    }

    method FlushLog()
      requires Indexed(log) && persistent
      modifies this`logFile
      ensures Valid() && logFile.Some?
    {
      var es := TreeRange(0, U64_MAX + 1);
      var out: seq<SerializableLogEntry> := [];
      for i := 0 to |es|
        invariant out == Serialized(es[..i])
      {
        SerializedNext(es, i);
        out := out + [ToSerializable(es[i])];
      }
      assert es[..|es|] == es;
      LogFileRestoresLog(log, es);
      logFile := Some(out);
    }

    /** `BTreeMap::range`: entries by ascending key. */
    method TreeRange(lo: int, hi: int) returns (es: seq<Entry>)
      requires Indexed(log)
      ensures Lists(log, lo, hi, es)
    {
      es := [];
      var todo := set k | k in log && lo <= k < hi;
      ghost var seen: Log := map k | k in log && k !in todo :: log[k];
      while todo != {}
        invariant Walked(log, todo, seen, lo, hi, es)
        decreases todo
      {
        var k := Least(todo);
        WalkNext(log, todo, seen, lo, hi, es, k);
        es := es + [log[k]];
        seen := seen[k := log[k]];
        todo := todo - {k};
      }
      assert seen == log;
    }

    /** `try_get_log_entries`. `None` is the panic of a range whose start is
        past its end. */
    method TryGetLogEntries(from: Bound, to: Bound) returns (r: Option<seq<Entry>>)
      requires Valid()
      ensures r.None? <==> Start(from) > End(log, to)
      ensures r.Some? ==> Lists(log, Start(from), End(log, to), r.value)
      ensures r.Some? ==>
        forall e :: e in r.value <==>
          e.logId.index in log && log[e.logId.index] == e && NotBefore(from, e.logId.index) && NotAfter(log, to, e.logId.index)
    {
      var start := Start(from);
      var end: U64 := 0;
      match to {
        case Included(i) => end := WrapAdd(i, 1);
        case Excluded(i) => end := i;
        case Unbounded =>
          if log != map[] {
            var last := Greatest(log.Keys);
            GreatestIsLast(log.Keys, last);
            end := WrapAdd(last, 1);
          }
      }
      if start > end {
        return None;
      }
      var es := TreeRange(start, end);
      r := Some(es);
      RangeHasExactly(log, from, to, es);
    }

    method AppendToLog(entries: seq<Entry>)
      requires Valid()
      modifies this`log, this`logFile
      ensures Valid() && log == InsertAll(old(log), entries)
      ensures persistent ==> logFile.Some?
    {
      for i := 0 to |entries|
        invariant log == InsertAll(old(log), entries[..i]) && Indexed(log) && logFile == old(logFile)
      {
        log := log[entries[i].logId.index := entries[i]];
        assert entries[..i + 1][..i] == entries[..i];
      }
      assert entries[..|entries|] == entries;
      if persistent {
        FlushLog();
      }
    }

    method DeleteConflictLogsSince(logId: LogId)
      requires Valid()
      modifies this`log, this`logFile
      ensures Valid() && log == CutFrom(old(log), logId.index)
      ensures persistent ==> logFile.Some?
    {
      RemoveKeys(set k | k in log && k >= logId.index);
      if persistent {
        FlushLog();
      }
    }

    method PurgeLogsUpto(logId: LogId)
      requires Valid()
      modifies this`log, this`logFile, this`lastApplied
      ensures Valid() && log == PurgeUpto(old(log), logId.index) && lastApplied == Some(logId)
      ensures persistent ==> logFile.Some?
    {
      RemoveKeys(set k | k in log && k <= logId.index);
      lastApplied := Some(logId);
      if persistent {
        FlushLog();
      }
    }

    method RemoveKeys(keys: set<U64>)
      modifies this`log
      ensures log == map k | k in old(log) && k !in keys :: old(log)[k]
    {
      var todo := keys;
      while todo != {}
        invariant todo <= keys
        invariant log == map k | k in old(log) && (k !in keys || k in todo) :: old(log)[k]
        decreases todo
      {
        var k :| k in todo;
        todo := todo - {k};
        log := log - {k};
      }
    }

    /** Apply committed entries, answer each, then flush the state if any of
        them was a command. The expiry pass that answers an `ExpireLeases`
        entry runs after the one that applied it, and so always counts zero. */
    method ApplyToStateMachine(entries: seq<Entry>) returns (r: seq<Response>)
      requires Valid()
      modifies this`lastApplied, this`dirty, this`stateFile, machine
      ensures Valid() && machine.View() == ApplyEntries(old(machine.View()), entries)
      ensures r == Answers(old(machine.View()), entries)
      ensures forall i :: 0 <= i < |entries| ==> Tells(ApplyEntries(old(machine.View()), entries[..i]), entries[i], r[i])
      ensures lastApplied == (if entries == [] then old(lastApplied) else Some(entries[|entries| - 1].logId))
      ensures persistent && (old(dirty) || Commands(entries) != []) ==> stateFile == Some(machine.View()) && !dirty
      ensures !(persistent && (old(dirty) || Commands(entries) != [])) ==>
        stateFile == old(stateFile) && dirty == (old(dirty) || Commands(entries) != [])
    {
      r := [];
      ghost var s := machine.View();
      for i := 0 to |entries|
        invariant machine.View() == ApplyEntries(s, entries[..i])
        invariant r == Answers(s, entries[..i])
        invariant lastApplied == (if i == 0 then old(lastApplied) else Some(entries[i - 1].logId))
        invariant dirty == (old(dirty) || Commands(entries[..i]) != []) && stateFile == old(stateFile)
      {
        ApplyOneMore(s, entries, i);
        AnswersNext(s, entries, i);
        var response := ApplyEntry(entries[i]);
        r := r + [response];
      }
      assert entries[..|entries|] == entries;
      AnswersTell(s, entries);
      if persistent && dirty {
        stateFile := Some(machine.View());
        dirty := false;
      }
    }

    method ApplyEntry(e: Entry) returns (response: Response)
      modifies this`lastApplied, this`dirty, machine
      ensures machine.View() == ApplyEntries(old(machine.View()), [e])
      ensures response == Answer(machine.View(), e)
      ensures lastApplied == Some(e.logId) && dirty == (old(dirty) || e.payload.Normal?)
    {
      lastApplied := Some(e.logId);
      ghost var s := machine.View();
      assert [e][1..] == [];
      if e.payload.Normal? {
        var cmd := e.payload.cmd;
        machine.Apply(cmd);
        dirty := true;
        assert Commands([e]) == [cmd] && [cmd][1..] == [];
        assert ApplyAll(s, [cmd]) == Apply(s, cmd);
        if cmd.ExpireLeases? {
          ExpireLeavesNothingExpired(s, cmd.now);
        }
        response := Respond(cmd);
      } else {
        assert Commands([e]) == Commands([e][1..]) == [];
        response := Owner("", None);
      }
    }

    method Respond(cmd: Command) returns (r: Response)
      requires cmd.ExpireLeases? ==> Expire(machine.View(), cmd.now) == machine.View()
      requires cmd.ExpireLeases? ==> forall k :: !KeyHasExpired(machine.View(), k, cmd.now)
      modifies machine
      ensures machine.View() == old(machine.View())
      ensures r == Answer(machine.View(), Entry(LogId(0, 0, 0), Normal(cmd)))
    {
      match cmd {
        case AcquireLease(key, _, _, _, _) =>
          r := LeaseOwner(key, if key in machine.keyLeases && machine.keyLeases[key] in machine.leases
                               then Some(machine.leases[machine.keyLeases[key]]) else None);
        case RenewLease(id, _) =>
          r := LeaseResult(if id in machine.leases then Some(machine.leases[id]) else None);
        case ReleaseLease(key) =>
          r := LeaseOwner(key, None);
        case ExpireLeases(now) =>
          ghost var s := machine.View();
          var count := machine.ExpireStale(now);
          ghost var hit := set id | id in s.leases && s.leases[id].expiresAt <= now;
          assert hit == {} by {
            if id :| id in hit { assert KeyHasExpired(s, s.leases[id].key, now); assert false; }
          }
          r := LeaseCount(count);
        case _ =>
          r := Owner(cmd.topic, if cmd.topic in machine.ownership then Some(machine.ownership[cmd.topic]) else None);
      }
    }
  }

  /** A crash and restart: membership payloads turn blank, the state is the
      one last saved, and nothing counts as applied. */
  method Restart(crashed: RaftStorage) returns (s: RaftStorage)
    requires crashed.Valid() && crashed.persistent
    ensures s.Valid() && fresh(s) && fresh(s.machine) && s.persistent && s.lastApplied == None && !s.dirty
    ensures s.log == ReloadedLog(crashed.log) && s.stateFile == crashed.stateFile
    ensures s.machine.View() == (if crashed.stateFile.Some? then crashed.stateFile.value else EMPTY)
  {
    s := new RaftStorage.WithPersistence(crashed.stateFile, crashed.logFile);
  }

  lemma AnswersNext(s: State, entries: seq<Entry>, i: nat)
    requires i < |entries|
    ensures Answers(s, entries[..i + 1]) ==
      Answers(s, entries[..i]) + [Answer(ApplyEntries(s, entries[..i + 1]), entries[i])]
  {
    var a, b := Answers(s, entries[..i]), Answers(s, entries[..i + 1]);
    forall j | 0 <= j < i ensures b[j] == a[j] {
      assert entries[..i][..j + 1] == entries[..j + 1] == entries[..i + 1][..j + 1];
    }
    assert entries[..i + 1][..i + 1] == entries[..i + 1];
  }

  /** A batch is its entries one after the other. */
  lemma ApplyOneMore(s: State, entries: seq<Entry>, i: nat)
    requires i < |entries|
    ensures ApplyEntries(s, entries[..i + 1]) == ApplyEntries(ApplyEntries(s, entries[..i]), [entries[i]])
    ensures Commands(entries[..i + 1]) != [] <==> Commands(entries[..i]) != [] || entries[i].payload.Normal?
  {
    assert entries[..i + 1] == entries[..i] + [entries[i]];
    CommandsConcat(entries[..i], [entries[i]]);
    assert [entries[i]][1..] == [];
    ApplyAllConcat(s, Commands(entries[..i]), Commands([entries[i]]));
  }

  function Start(b: Bound): U64
  {
    match b
    case Included(i) => i
    case Excluded(i) => WrapAdd(i, 1)
    case Unbounded => 0
  }

  ghost function End(log: Log, b: Bound): U64
  {
    match b
    case Included(i) => WrapAdd(i, 1)
    case Excluded(i) => i
    case Unbounded => if exists k :: IsLast(log.Keys, k) then WrapAdd((var k :| IsLast(log.Keys, k); k), 1) else 0
  }

  /** The lower bound as written. Excluding the last index of all wraps around
      and excludes nothing. */
  ghost predicate NotBefore(from: Bound, k: U64)
  {
    match from
    case Included(i) => i <= k
    case Excluded(i) => i < k || i == U64_MAX
    case Unbounded => true
  }

  /** The upper bound as written. Including the last index of all, by name or
      because it is stored, wraps around and excludes everything. */
  ghost predicate NotAfter(log: Log, to: Bound, k: U64)
  {
    match to
    case Included(i) => k <= i && i != U64_MAX
    case Excluded(i) => k < i
    case Unbounded => U64_MAX !in log
  }

  lemma RangeHasExactly(log: Log, from: Bound, to: Bound, es: seq<Entry>)
    requires Indexed(log) && Lists(log, Start(from), End(log, to), es)
    ensures forall e :: e in es <==>
      e.logId.index in log && log[e.logId.index] == e && NotBefore(from, e.logId.index) && NotAfter(log, to, e.logId.index)
  {
    forall e
      ensures e in es <==>
        e.logId.index in log && log[e.logId.index] == e && NotBefore(from, e.logId.index) && NotAfter(log, to, e.logId.index)
    {
      BoundsAgree(log, from, to, e.logId.index);
      if e in es {
        var i :| 0 <= i < |es| && es[i] == e;
      }
    }
  }

  lemma BoundsAgree(log: Log, from: Bound, to: Bound, k: U64)
    ensures Start(from) <= k <==> NotBefore(from, k)
    ensures k in log ==> (k < End(log, to) <==> NotAfter(log, to, k))
  {
    if to.Unbounded? && k in log {
      var last := LastKey(log.Keys);
      GreatestIsLast(log.Keys, last);
    }
  }

  lemma LastKey(keys: set<U64>) returns (k: U64)
    requires keys != {}
    ensures IsLast(keys, k)
    decreases |keys|
  {
    var some :| some in keys;
    k := some;
    if j :| j in keys && j > some {
      var rest := keys - {some};
      assert j in rest;
      k := LastKey(rest);
      assert forall i :: i in keys ==> i == some || i in rest;
    }
  }

  ghost predicate IsLast(keys: set<U64>, k: U64)
  {
    k in keys && forall j :: j in keys ==> j <= k
  }

  lemma GreatestIsLast(keys: set<U64>, k: U64)
    requires IsLast(keys, k)
    ensures forall j :: IsLast(keys, j) ==> j == k
  {
  }

  method Greatest(keys: set<U64>) returns (k: U64)
    requires keys != {}
    ensures IsLast(keys, k)
  {
    k :| k in keys;
    var todo := keys - {k};
    while todo != {}
      invariant todo <= keys && k in keys
      invariant forall j :: j in keys && j !in todo ==> j <= k
      decreases todo
    {
      var j :| j in todo;
      todo := todo - {j};
      if k < j { k := j; }
    }
  }

  method Least(keys: set<U64>) returns (k: U64)
    requires keys != {}
    ensures k in keys && forall j :: j in keys ==> k <= j
  {
    k :| k in keys;
    var todo := keys - {k};
    while todo != {}
      invariant todo <= keys && k in keys
      invariant forall j :: j in keys && j !in todo ==> k <= j
      decreases todo
    {
      var j :| j in todo;
      todo := todo - {j};
      if j < k { k := j; }
    }
  }

  /** A walk in key order has listed all of `seen` and has `todo` before it. */
  ghost predicate Walked(log: Log, todo: set<U64>, seen: Log, lo: int, hi: int, es: seq<Entry>)
  {
    && (forall k :: k in todo ==> k in log && lo <= k < hi)
    && seen.Keys == log.Keys - todo && (forall k :: k in seen ==> seen[k] == log[k])
    && Lists(seen, lo, hi, es)
    && (forall i, k :: 0 <= i < |es| && k in todo ==> es[i].logId.index < k)
  }

  lemma WalkNext(log: Log, todo: set<U64>, seen: Log, lo: int, hi: int, es: seq<Entry>, k: U64)
    requires Indexed(log) && Walked(log, todo, seen, lo, hi, es)
    requires k in todo && forall j :: j in todo ==> k <= j
    ensures Walked(log, todo - {k}, seen[k := log[k]], lo, hi, es + [log[k]])
  {
    ListsExtend(seen, lo, hi, es, log[k]);
  }

  lemma ListsExtend(seen: Log, lo: int, hi: int, es: seq<Entry>, e: Entry)
    requires Lists(seen, lo, hi, es) && Indexed(seen)
    requires lo <= e.logId.index < hi && e.logId.index !in seen
    requires forall i :: 0 <= i < |es| ==> es[i].logId.index < e.logId.index
    ensures Lists(seen[e.logId.index := e], lo, hi, es + [e])
  {
    var r, seen' := es + [e], seen[e.logId.index := e];
    forall k | k in seen' && lo <= k < hi ensures exists i :: 0 <= i < |r| && r[i] == seen'[k] {
      if k == e.logId.index {
        assert r[|es|] == seen'[k];
      } else {
        var i :| 0 <= i < |es| && es[i] == seen[k];
        assert r[i] == seen'[k];
      }
    }
  }
}
