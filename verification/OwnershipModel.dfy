/** The replicated ownership and lease state machine as a value: its state,
    its commands, and what one command does to the state. */
module OwnershipModel {
  import opened Words

  type NodeId = U64

  const NANOS_PER_SEC: U64 := 1_000_000_000

  datatype LeaseEntry = LeaseEntry(
    id: U64, key: string, owner: NodeId, acquiredAt: U64, ttlSecs: U64, expiresAt: U64)

  datatype Command =
    | ClaimTopic(topic: string, node: NodeId, timestamp: U64)
    | ReleaseTopic(topic: string, node: NodeId)
    | TransferTopic(topic: string, fromNode: NodeId, toNode: NodeId)
    | AcquireLease(key: string, owner: NodeId, leaseId: U64, ttlSecs: U64, timestamp: U64)
    | RenewLease(leaseId: U64, timestamp: U64)
    | ReleaseLease(key: string)
    | ExpireLeases(now: U64)

  datatype State = State(
    ownership: map<string, NodeId>,
    nodeTopics: map<NodeId, seq<string>>,
    leases: map<U64, LeaseEntry>,
    keyLeases: map<string, U64>,
    nextLeaseId: U64)

  const EMPTY: State := State(map[], map[], map[], map[], 0)

  /** `Vec::retain(|t| t != topic)`. */
  function Retain(topics: seq<string>, topic: string): (r: seq<string>)
    ensures forall t :: t in r <==> t in topics && t != topic
    ensures topic !in topics ==> r == topics
    ensures NoDup(topics) ==> NoDup(r)
  {
    if topics == [] then [] else
      var init, last := topics[..|topics| - 1], topics[|topics| - 1];
      assert topics == init + [last];
      assert NoDup(topics) ==> last !in init;
      var rest := Retain(init, topic);
      assert NoDup(topics) && last != topic ==> NoDup(rest + [last]) by {
        assert NoDup(topics) ==> NoDup(init) && NoDup(rest) && last !in rest;
      }
      if last == topic then rest else rest + [last]
  }

  function Unlist(nodeTopics: map<NodeId, seq<string>>, node: NodeId, topic: string): map<NodeId, seq<string>>
  {
    if node in nodeTopics then nodeTopics[node := Retain(nodeTopics[node], topic)] else nodeTopics
  }

  function Enlist(nodeTopics: map<NodeId, seq<string>>, node: NodeId, topic: string): map<NodeId, seq<string>>
  {
    nodeTopics[node := (if node in nodeTopics then nodeTopics[node] else []) + [topic]]
  }

  function Expiry(timestamp: U64, ttlSecs: U64): (e: U64)
    ensures timestamp <= e
  {
    SatAdd(timestamp, SatMul(ttlSecs, NANOS_PER_SEC))
  }

  /** The guard of both acquisition paths: the key's entry is stored and has
      not run out at `timestamp`. */
  predicate Held(s: State, key: string, timestamp: U64)
  {
    && key in s.keyLeases
    && s.keyLeases[key] in s.leases
    && s.leases[s.keyLeases[key]].expiresAt > timestamp
  }

  function Grant(s: State, key: string, owner: NodeId, id: U64, ttlSecs: U64, timestamp: U64): State
  {
    s.(leases := s.leases[id := LeaseEntry(id, key, owner, timestamp, ttlSecs, Expiry(timestamp, ttlSecs))],
       keyLeases := s.keyLeases[key := id])
  }

  /** Some stored entry for `key` has run out at `now`: the entry need not be
      the one the key points to. */
  predicate KeyHasExpired(s: State, key: string, now: U64)
  {
    exists id :: id in s.leases && s.leases[id].key == key && s.leases[id].expiresAt <= now
  }

  /** The expiry pass as a one-shot filter on keys. */
  function Expire(s: State, now: U64): State
  {
    s.(leases := map id | id in s.leases && !KeyHasExpired(s, s.leases[id].key, now) :: s.leases[id],
       keyLeases := map k | k in s.keyLeases && !KeyHasExpired(s, k, now) :: s.keyLeases[k])
  }

  /** What one committed command does. */
  function Apply(s: State, cmd: Command): State
  {
    match cmd
    case ClaimTopic(topic, node, _) =>
      var lists := if topic in s.ownership then Unlist(s.nodeTopics, s.ownership[topic], topic) else s.nodeTopics;
      s.(ownership := s.ownership[topic := node], nodeTopics := Enlist(lists, node, topic))
    case ReleaseTopic(topic, node) =>
      if topic in s.ownership && s.ownership[topic] == node then
        s.(ownership := s.ownership - {topic}, nodeTopics := Unlist(s.nodeTopics, node, topic))
      else s
    case TransferTopic(topic, fromNode, toNode) =>
      if topic in s.ownership && s.ownership[topic] == fromNode then
        s.(ownership := s.ownership[topic := toNode],
           nodeTopics := Enlist(Unlist(s.nodeTopics, fromNode, topic), toNode, topic))
      else s
    case AcquireLease(key, owner, id, ttlSecs, timestamp) =>
      if Held(s, key, timestamp) then s else
        var g := Grant(s, key, owner, id, ttlSecs, timestamp);
        if id >= s.nextLeaseId then g.(nextLeaseId := WrapAdd(id, 1)) else g
    case RenewLease(id, timestamp) =>
      if id in s.leases && s.leases[id].expiresAt > timestamp then
        s.(leases := s.leases[id := s.leases[id].(expiresAt := Expiry(timestamp, s.leases[id].ttlSecs))])
      else s
    case ReleaseLease(key) =>
      if key in s.keyLeases then
        s.(leases := s.leases - {s.keyLeases[key]}, keyLeases := s.keyLeases - {key})
      else s
    case ExpireLeases(now) => Expire(s, now)
  }

  function ApplyAll(s: State, cmds: seq<Command>): State
    decreases |cmds|
  {
    if cmds == [] then s else ApplyAll(Apply(s, cmds[0]), cmds[1..])
  }

  lemma {:induction false} ApplyAllConcat(s: State, a: seq<Command>, b: seq<Command>)
    ensures ApplyAll(s, a + b) == ApplyAll(ApplyAll(s, a), b)
    decreases |a|
  {
    if a == [] {
      assert a + b == b;
    } else {
      assert (a + b)[1..] == a[1..] + b;
      ApplyAllConcat(Apply(s, a[0]), a[1..], b);
    }
  }

  /** `get_lease_info`: the entry the key points to, expired or not. */
  function LeaseInfo(s: State, key: string): Option<LeaseEntry>
  {
    if key in s.keyLeases && s.keyLeases[key] in s.leases then Some(s.leases[s.keyLeases[key]]) else None
  }

  /** The lease that holds `key` at time `t`. */
  function LiveLease(s: State, key: string, t: U64): Option<LeaseEntry>
  {
    if Held(s, key, t) then Some(s.leases[s.keyLeases[key]]) else None
  }

  // A second expiry pass at the same time finds nothing to do.
  lemma ExpireLeavesNothingExpired(s: State, now: U64)
    ensures forall k :: !KeyHasExpired(Expire(s, now), k, now)
    ensures Expire(Expire(s, now), now) == Expire(s, now)
  {
    var e := Expire(s, now);
    assert forall k :: !KeyHasExpired(e, k, now);
    assert Expire(e, now).leases == e.leases;
    assert Expire(e, now).keyLeases == e.keyLeases;
  }
}
