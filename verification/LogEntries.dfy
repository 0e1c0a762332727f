/** Raft log entries, their on-disk form, and the stored log as a map. */
module LogEntries {
  import opened Words
  import opened OwnershipModel

  datatype LogId = LogId(term: U64, leader: NodeId, index: U64)

  datatype Payload = Normal(cmd: Command) | Membership(members: set<NodeId>) | Blank

  datatype Entry = Entry(logId: LogId, payload: Payload)

  datatype SerializableLogEntry =
    SerializableLogEntry(index: U64, term: U64, leaderId: NodeId, command: Option<Command>)

  function ToSerializable(e: Entry): SerializableLogEntry
  {
    SerializableLogEntry(e.logId.index, e.logId.term, e.logId.leader,
                         match e.payload case Normal(cmd) => Some(cmd) case _ => None)
  }

  function FromSerializable(s: SerializableLogEntry): Entry
  {
    Entry(LogId(s.term, s.leaderId, s.index),
          match s.command case Some(cmd) => Normal(cmd) case None => Blank)
  }

  /** What a restart makes of an entry. */
  function Reloaded(e: Entry): Entry
  {
    FromSerializable(ToSerializable(e))
  }

  /** Disk to memory and back loses nothing; memory to disk and back loses
      exactly the payload of membership entries. */
  lemma SerializationRoundTrip(e: Entry, s: SerializableLogEntry)
    ensures ToSerializable(FromSerializable(s)) == s
    ensures Reloaded(e) == e <==> !e.payload.Membership?
    ensures Reloaded(e).logId == e.logId
    ensures e.payload.Membership? ==> Reloaded(e).payload.Blank?
    ensures Reloaded(Reloaded(e)) == Reloaded(e)
  {
  }

  function ReloadedAll(es: seq<Entry>): (r: seq<Entry>)
    ensures |r| == |es| && forall i :: 0 <= i < |es| ==> r[i] == Reloaded(es[i])
  {
    seq(|es|, i requires 0 <= i < |es| => Reloaded(es[i]))
  }

  function ReloadedLog(log: map<U64, Entry>): (r: map<U64, Entry>)
    ensures r.Keys == log.Keys && forall k :: k in log ==> r[k] == Reloaded(log[k])
  {
    map k | k in log :: Reloaded(log[k])
  }

  function CommandOf(e: Entry): Option<Command>
  {
    match e.payload case Normal(cmd) => Some(cmd) case _ => None
  }

  /** The commands of a stretch of log, in order. */
  function Commands(es: seq<Entry>): seq<Command>
    decreases |es|
  {
    if es == [] then [] else
      match es[0].payload
      case Normal(cmd) => [cmd] + Commands(es[1..])
      case _ => Commands(es[1..])
  }

  lemma {:induction false} CommandsConcat(a: seq<Entry>, b: seq<Entry>)
    ensures Commands(a + b) == Commands(a) + Commands(b)
    decreases |a|
  {
    if a == [] {
      assert a + b == b;
    } else {
      assert (a + b)[1..] == a[1..] + b;
      CommandsConcat(a[1..], b);
    }
  }

  lemma {:induction false} SameCommands(a: seq<Entry>, b: seq<Entry>)
    requires |a| == |b| && forall i :: 0 <= i < |a| ==> CommandOf(a[i]) == CommandOf(b[i])
    ensures Commands(a) == Commands(b)
    decreases |a|
  {
    if a == [] {
    } else {
      assert CommandOf(a[0]) == CommandOf(b[0]);
      SameCommands(a[1..], b[1..]);
    }
  }

  // -------------------------------------------------------- the stored log

  type Log = map<U64, Entry>

  ghost predicate Indexed(log: Log)
  {
    forall k :: k in log ==> log[k].logId.index == k
  }

  function InsertAll(log: Log, es: seq<Entry>): (r: Log)
    ensures Indexed(log) ==> Indexed(r)
    decreases |es|
  {
    if es == [] then log else
      var last := es[|es| - 1];
      InsertAll(log, es[..|es| - 1])[last.logId.index := last]
  }

  function CutFrom(log: Log, index: U64): Log
  {
    map k | k in log && k < index :: log[k]
  }

  function PurgeUpto(log: Log, index: U64): Log
  {
    map k | k in log && k > index :: log[k]
  }

  /** `es` is the part of `log` with `lo <= index < hi`, in index order. */
  ghost predicate Lists(log: Log, lo: int, hi: int, es: seq<Entry>)
  {
    && Ascending(es)
    && (forall i :: 0 <= i < |es| ==>
          lo <= es[i].logId.index < hi && es[i].logId.index in log && log[es[i].logId.index] == es[i])
    && (forall k :: k in log && lo <= k < hi ==> exists i :: 0 <= i < |es| && es[i] == log[k])
  }

  ghost predicate GapFree(log: Log, lo: int, hi: int)
  {
    Indexed(log) && 0 <= lo && hi <= U64_MAX + 1 && forall k: U64 :: k in log <==> lo <= k < hi
  }

  datatype LogOp = AppendAtEnd(es: seq<Entry>) | TruncateFrom(index: U64) | PurgeTo(index: U64)

  function LogNext(log: Log, op: LogOp): Log
  {
    match op
    case AppendAtEnd(es) => InsertAll(log, es)
    case TruncateFrom(index) => CutFrom(log, index)
    case PurgeTo(index) => PurgeUpto(log, index)
  }

  /** New entries continue the log: consecutive among themselves, and starting
      where the log ends unless it is empty. */
  ghost predicate Continues(log: Log, es: seq<Entry>)
  {
    && (forall i :: 0 <= i < |es| ==> es[i].logId.index == es[0].logId.index + i)
    && (es != [] && log != map[] ==> Follows(log, es[0].logId.index))
  }

  ghost predicate Follows(log: Log, index: U64)
  {
    index !in log && index > 0 && index - 1 in log
  }

  ghost predicate LogRunOk(log: Log, ops: seq<LogOp>)
    decreases |ops|
  {
    ops == [] || ((ops[0].AppendAtEnd? ==> Continues(log, ops[0].es)) && LogRunOk(LogNext(log, ops[0]), ops[1..]))
  }

  function LogRun(log: Log, ops: seq<LogOp>): Log
    decreases |ops|
  {
    if ops == [] then log else LogRun(LogNext(log, ops[0]), ops[1..])
  }

  lemma {:induction false} InsertAllKeys(log: Log, es: seq<Entry>)
    ensures forall k :: k in InsertAll(log, es) <==>
      k in log || exists i :: 0 <= i < |es| && es[i].logId.index == k
    decreases |es|
  {
    if es == [] {
    } else {
      var n := |es| - 1;
      InsertAllKeys(log, es[..n]);
      forall k ensures k in InsertAll(log, es) <==> k in log || exists i :: 0 <= i < |es| && es[i].logId.index == k {
        if i :| 0 <= i < |es| && es[i].logId.index == k {
          if i < n { assert es[..n][i].logId.index == k; }
        }
        if k == es[n].logId.index { assert 0 <= n < |es|; }
      }
    }
  }

  ghost predicate Ascending(es: seq<Entry>)
  {
    forall i, j :: 0 <= i < j < |es| ==> es[i].logId.index < es[j].logId.index
  }

  lemma {:induction false} InsertAllGet(log: Log, es: seq<Entry>, i: nat)
    requires Ascending(es) && i < |es|
    ensures es[i].logId.index in InsertAll(log, es) && InsertAll(log, es)[es[i].logId.index] == es[i]
    decreases |es|
  {
    var n := |es| - 1;
    if i < n {
      assert es[..n][i] == es[i];
      InsertAllGet(log, es[..n], i);
    }
  }

  lemma AppendKeepsGapFree(log: Log, lo: nat, hi: nat, es: seq<Entry>) returns (lo': nat, hi': nat)
    requires GapFree(log, lo, hi) && Continues(log, es)
    ensures GapFree(InsertAll(log, es), lo', hi')
  {
    InsertAllKeys(log, es);
    if es == [] {
      lo', hi' := lo, hi;
    } else {
      var first := es[0].logId.index;
      forall k: U64 ensures k in InsertAll(log, es) <==> k in log || first <= k < first + |es| {
        if first <= k < first + |es| { assert es[k - first].logId.index == k; }
      }
      lo', hi' := (if log == map[] then first else lo), first + |es|;
      assert hi' <= U64_MAX + 1 by { assert es[|es| - 1].logId.index == hi' - 1; }
      assert log != map[] ==> hi == first && lo < hi;
      if log == map[] { assert forall k :: k !in log; }
    }
  }

  /** Any run of appends at the end, truncations and purges leaves a gap-free
      range of indices. */
  lemma {:induction false} LogStaysGapFree(log: Log, lo: nat, hi: nat, ops: seq<LogOp>)
    requires GapFree(log, lo, hi) && LogRunOk(log, ops)
    ensures exists lo': nat, hi': nat :: GapFree(LogRun(log, ops), lo', hi')
    decreases |ops|
  {
    if ops == [] {
      assert GapFree(LogRun(log, ops), lo, hi);
    } else {
      var next := LogNext(log, ops[0]);
      var lo', hi' := lo, hi;
      match ops[0] {
        case AppendAtEnd(es) => lo', hi' := AppendKeepsGapFree(log, lo, hi, es);
        case TruncateFrom(index) => hi' := if index < hi then index else hi;
        case PurgeTo(index) => lo' := if lo <= index then index + 1 else lo;
      }
      assert GapFree(next, lo', hi');
      LogStaysGapFree(next, lo', hi', ops[1..]);
      assert LogRun(log, ops) == LogRun(next, ops[1..]);
    }
  }

  lemma {:induction false} ListedInStep(log: Log, lo: nat, hi: nat, start: nat, end: nat, es: seq<Entry>, i: nat)
    requires GapFree(log, lo, hi) && Lists(log, start, end, es) && i < |es|
    ensures es[i].logId.index == (if lo < start then start else lo) + i
    decreases i
  {
    var first := if lo < start then start else lo;
    forall j: nat | j < i ensures es[j].logId.index == first + j {
      ListedInStep(log, lo, hi, start, end, es, j);
    }
    if i > 0 { assert es[i - 1].logId.index < es[i].logId.index; }
    if es[i].logId.index > first + i {
      var k: U64 := first + i;
      assert k in log;
      var j :| 0 <= j < |es| && es[j] == log[k];
      assert false;
    }
  }

  /** A range read of a gap-free log returns every index of the range that the
      log covers, consecutively. */
  lemma RangeReadIsConsecutive(log: Log, lo: nat, hi: nat, start: nat, end: nat, es: seq<Entry>)
    requires GapFree(log, lo, hi) && Lists(log, start, end, es)
    ensures var first := if lo < start then start else lo;
            var last := if hi < end then hi else end;
            && |es| == (if first < last then last - first else 0)
            && (forall i :: 0 <= i < |es| ==> es[i].logId.index == first + i)
  {
    var first := if lo < start then start else lo;
    var last := if hi < end then hi else end;
    forall i | 0 <= i < |es| ensures es[i].logId.index == first + i {
      ListedInStep(log, lo, hi, start, end, es, i);
    }
    if es != [] {
      assert es[|es| - 1].logId.index == first + |es| - 1 < last;
    }
    if first < last {
      var k: U64 := last - 1;
      assert k in log && start <= k < end;
      var j :| 0 <= j < |es| && es[j] == log[k];
      assert first + j == k;
    }
  }
}
