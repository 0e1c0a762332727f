/** Gossip ownership claims: one node's handling of messages, and the network
    of nodes as a convergent protocol. */
module GossipClaims {
  import opened Words

  type NodeId = U64
  type TopicId = nat

  const MAX_FUTURE_NANOS: U64 := 60_000_000_000

  datatype Ownership = Ownership(owner: NodeId, epoch: U64, claimedAt: U64, lastHeartbeat: U64)

  datatype Claim = Claim(topic: string, topicId: TopicId, node: NodeId, epoch: U64, timestamp: U64)

  datatype Heartbeat = Heartbeat(topic: string, node: NodeId, epoch: U64, timestamp: U64)

  type Owners = map<string, Ownership>

  function NewRecord(node: NodeId, now: U64): Ownership
  {
    Ownership(node, 1, now, now)
  }

  function RecordOr(owners: Owners, topic: string, node: NodeId, now: U64): Ownership
  {
    if topic in owners then owners[topic] else NewRecord(node, now)
  }

  /** The sanity checks a claim must pass before it is looked at. */
  predicate Admitted(c: Claim, derivedId: TopicId, now: U64)
  {
    c.timestamp <= SatAdd(now, MAX_FUTURE_NANOS) && c.topicId == derivedId
  }

  function Merge(o: Ownership, c: Claim): Ownership
  {
    if c.epoch > o.epoch || (c.epoch == o.epoch && c.node <= o.owner) then
      Ownership(c.node, c.epoch, Max(c.timestamp, o.claimedAt), Max(c.timestamp, o.lastHeartbeat))
    else o
  }

  function OnClaim(owners: Owners, c: Claim, derivedId: TopicId, now: U64): Owners
  {
    if Admitted(c, derivedId, now) then owners[c.topic := Merge(RecordOr(owners, c.topic, c.node, now), c)] else owners
  }

  function OnHeartbeat(owners: Owners, h: Heartbeat, now: U64): Owners
  {
    if && h.timestamp <= SatAdd(now, MAX_FUTURE_NANOS) && h.topic in owners
       && owners[h.topic].owner == h.node && owners[h.topic].epoch == h.epoch
    then owners[h.topic := owners[h.topic].(lastHeartbeat := Max(h.timestamp, owners[h.topic].lastHeartbeat))]
    else owners
  }

  /** What `claim_topic` records locally. A first claim starts from a fresh
      record of epoch 1 and so carries epoch 2. */
  function OwnClaim(owners: Owners, topic: string, node: NodeId, now: U64): Owners
  {
    owners[topic := Ownership(node, SatAdd(RecordOr(owners, topic, node, now).epoch, 1), now, now)]
  }

  predicate TimedOut(o: Ownership, timeout: U64, now: U64)
  {
    SatSub(now, o.lastHeartbeat) > timeout
  }

  /** The failover monitor's read: the epoch it will claim with, if any. */
  function FailoverPlan(owners: Owners, topic: string, node: NodeId, timeout: U64, now: U64): Option<U64>
  {
    if topic in owners && TimedOut(owners[topic], timeout, now) && owners[topic].owner != node
    then Some(SatAdd(owners[topic].epoch, 1)) else None
  }

  /** The monitor's write, under a second lock. */
  function FailoverWrite(owners: Owners, topic: string, node: NodeId, epoch: U64, now: U64): Owners
  {
    owners[topic := Ownership(node, epoch, now, now)]
  }

  class Coordinator {
    const nodeId: NodeId
    const ownerTimeout: U64
    var topicOwners: Owners
    var ownedTopics: seq<string>

    constructor (nodeId: NodeId, ownerTimeout: U64)
      ensures this.nodeId == nodeId && this.ownerTimeout == ownerTimeout
      ensures topicOwners == map[] && ownedTopics == []
    {
      this.nodeId, this.ownerTimeout := nodeId, ownerTimeout;
      topicOwners, ownedTopics := map[], [];
    }

    method HandleClaim(c: Claim, derivedId: TopicId, now: U64)
      modifies this`topicOwners
      ensures topicOwners == OnClaim(old(topicOwners), c, derivedId, now)
    {
      if c.timestamp > SatAdd(now, MAX_FUTURE_NANOS) {
        return;
      }
      if c.topicId != derivedId {
        return;
      }
      if c.topic !in topicOwners {
        topicOwners := topicOwners[c.topic := NewRecord(c.node, now)];
      }
      var o := topicOwners[c.topic];
      if c.epoch > o.epoch
         || (c.epoch == o.epoch && c.node == o.owner)
         || (c.epoch == o.epoch && c.node < o.owner)
      {
        topicOwners := topicOwners[c.topic :=
          Ownership(c.node, c.epoch, Max(c.timestamp, o.claimedAt), Max(c.timestamp, o.lastHeartbeat))];
      }
    }

    method HandleHeartbeat(h: Heartbeat, now: U64)
      modifies this`topicOwners
      ensures topicOwners == OnHeartbeat(old(topicOwners), h, now)
    {
      if h.timestamp > SatAdd(now, MAX_FUTURE_NANOS) {
        return;
      }
      if h.topic in topicOwners {
        var o := topicOwners[h.topic];
        if o.owner == h.node && h.epoch == o.epoch {
          topicOwners := topicOwners[h.topic := o.(lastHeartbeat := Max(h.timestamp, o.lastHeartbeat))];
        }
      }
    }

    method ClaimTopic(topic: string, topicId: TopicId, now: U64) returns (msg: Claim)
      modifies this
      ensures topicOwners == OwnClaim(old(topicOwners), topic, nodeId, now)
      ensures msg == Claim(topic, topicId, nodeId, topicOwners[topic].epoch, now)
      ensures ownedTopics == if topic in old(ownedTopics) then old(ownedTopics) else old(ownedTopics) + [topic]
      ensures topic !in old(topicOwners) ==> msg.epoch == 2
      ensures topic in old(topicOwners) && old(topicOwners)[topic].epoch < U64_MAX ==>
        msg.epoch == old(topicOwners)[topic].epoch + 1
      ensures topicOwners[topic] == Ownership(nodeId, msg.epoch, now, now)
    {
      if topic !in topicOwners {
        topicOwners := topicOwners[topic := NewRecord(nodeId, now)];
      }
      var o := topicOwners[topic];
      if o.owner == nodeId {
        topicOwners := topicOwners[topic :=
          o.(epoch := SatAdd(o.epoch, 1), claimedAt := now, lastHeartbeat := now)];
      } else {
        topicOwners := topicOwners[topic := Ownership(nodeId, SatAdd(o.epoch, 1), now, now)];
      }
      if topic !in ownedTopics {
        ownedTopics := ownedTopics + [topic];
      }
      msg := Claim(topic, topicId, nodeId, topicOwners[topic].epoch, now);
    }

    /** Messages handled one after the other. */
    method Hear(msgs: seq<Message>)
      modifies this`topicOwners
      ensures topicOwners == ReceiveAll(old(topicOwners), msgs)
    {
      ghost var before := topicOwners;
      for i := 0 to |msgs|
        invariant ReceiveAll(topicOwners, msgs[i..]) == ReceiveAll(before, msgs)
      {
        assert msgs[i..][1..] == msgs[i + 1..];
        match msgs[i] {
          case ClaimMessage(c, derivedId, now) => HandleClaim(c, derivedId, now);
          case HeartbeatMessage(beat, now) => HandleHeartbeat(beat, now);
        }
      }
    }

    /** Messages, then a pass of the monitor: it takes exactly the topics of
        others that have been silent for longer than the timeout. */
    method HearThenMonitor(msgs: seq<Message>, now: U64, topicIds: map<string, TopicId>) returns (claims: seq<Claim>)
      requires NoDup(ownedTopics) && forall t :: t in ownedTopics ==> t in topicIds
      modifies this`topicOwners
      ensures topicOwners.Keys == ReceiveAll(old(topicOwners), msgs).Keys
      ensures forall t :: t in ownedTopics && t in topicOwners && ReceiveAll(old(topicOwners), msgs)[t].owner != nodeId ==>
        (topicOwners[t].owner == nodeId <==> Silent(old(topicOwners), msgs, t, ownerTimeout, now))
      ensures forall t :: t in topicOwners && t !in ownedTopics ==>
        topicOwners[t] == ReceiveAll(old(topicOwners), msgs)[t]
      ensures forall c :: c in claims ==>
        && c.topic in ownedTopics && c.topic in topicOwners && topicOwners[c.topic].owner == nodeId
        && c == Claim(c.topic, topicIds[c.topic], nodeId, topicOwners[c.topic].epoch, now)
      ensures forall t :: t in ownedTopics && t in topicOwners ==>
        (topicOwners[t] != ReceiveAll(old(topicOwners), msgs)[t] ==> exists c :: c in claims && c.topic == t)
    {
      ghost var before := topicOwners;
      Hear(msgs);
      ghost var heard := topicOwners;
      claims := MonitorPass(now, topicIds);
      forall t | t in ownedTopics && t in topicOwners && heard[t].owner != nodeId
        ensures topicOwners[t].owner == nodeId <==> Silent(before, msgs, t, ownerTimeout, now)
      {
        TakenExactly(before, msgs, ownedTopics, t, nodeId, ownerTimeout, now);
      }
      TakeoversSay(heard, ownedTopics, nodeId, ownerTimeout, now, topicIds);
    }

    /** The monitor's pass over the topics this node wants, when nothing runs
        between its reads and its writes: each takeover is an ordinary claim. */
    method MonitorPass(now: U64, topicIds: map<string, TopicId>) returns (msgs: seq<Claim>)
      requires NoDup(ownedTopics) && forall t :: t in ownedTopics ==> t in topicIds
      modifies this`topicOwners
      ensures topicOwners == TakenOver(old(topicOwners), ownedTopics, nodeId, ownerTimeout, now)
      ensures msgs == Takeovers(old(topicOwners), ownedTopics, nodeId, ownerTimeout, now, topicIds)
    {
      ghost var before := topicOwners;
      msgs := [];
      for i := 0 to |ownedTopics|
        invariant topicOwners == TakenOver(before, ownedTopics[..i], nodeId, ownerTimeout, now)
        invariant msgs == Takeovers(before, ownedTopics[..i], nodeId, ownerTimeout, now, topicIds)
      {
        TakeoverNext(before, ownedTopics, i, nodeId, ownerTimeout, now, topicIds);
        var topic := ownedTopics[i];
        var plan := FailoverPlan(topicOwners, topic, nodeId, ownerTimeout, now);
        if plan.Some? {
          topicOwners := FailoverWrite(topicOwners, topic, nodeId, plan.value, now);
          msgs := msgs + [Claim(topic, topicIds[topic], nodeId, plan.value, now)];
        }
      }
      assert ownedTopics[..|ownedTopics|] == ownedTopics;
    }
  }

  /** Each timed-out topic of another node claimed, all others as they were. */
  function TakenOver(owners: Owners, topics: seq<string>, node: NodeId, timeout: U64, now: U64): Owners
  {
    map t | t in owners ::
      if t in topics && FailoverPlan(owners, t, node, timeout, now).Some? then OwnClaim(owners, t, node, now)[t]
      else owners[t]
  }

  /** The claims broadcast for them, in the order of the topics. */
  function Takeovers(owners: Owners, topics: seq<string>, node: NodeId, timeout: U64, now: U64,
                     topicIds: map<string, TopicId>): seq<Claim>
    requires forall t :: t in topics ==> t in topicIds
    decreases |topics|
  {
    if topics == [] then [] else
      var topic := topics[|topics| - 1];
      Takeovers(owners, topics[..|topics| - 1], node, timeout, now, topicIds) +
      if FailoverPlan(owners, topic, node, timeout, now).None? then [] else
        [Claim(topic, topicIds[topic], node, OwnClaim(owners, topic, node, now)[topic].epoch, now)]
  }

  ghost predicate IsTakeover(owners: Owners, c: Claim, node: NodeId, timeout: U64, now: U64, topicIds: map<string, TopicId>)
  {
    && FailoverPlan(owners, c.topic, node, timeout, now).Some? && c.topic in topicIds
    && c == Claim(c.topic, topicIds[c.topic], node, OwnClaim(owners, c.topic, node, now)[c.topic].epoch, now)
  }

  lemma {:induction false} TakeoversAre(owners: Owners, topics: seq<string>, node: NodeId, timeout: U64, now: U64,
                                        topicIds: map<string, TopicId>, c: Claim)
    requires forall t :: t in topics ==> t in topicIds
    ensures c in Takeovers(owners, topics, node, timeout, now, topicIds) <==>
      c.topic in topics && IsTakeover(owners, c, node, timeout, now, topicIds)
    decreases |topics|
  {
    if topics == [] {
    } else {
      var init := topics[..|topics| - 1];
      assert topics == init + [topics[|topics| - 1]];
      TakeoversAre(owners, init, node, timeout, now, topicIds, c);
    }
  }

  /** One claim for each record that changes, and none besides. */
  lemma TakeoversSay(owners: Owners, topics: seq<string>, node: NodeId, timeout: U64, now: U64,
                     topicIds: map<string, TopicId>)
    requires forall t :: t in topics ==> t in topicIds
    ensures var claims := Takeovers(owners, topics, node, timeout, now, topicIds);
            var after := TakenOver(owners, topics, node, timeout, now);
            && (forall c :: c in claims ==>
                  && c.topic in topics && c.topic in after && after[c.topic].owner == node
                  && c == Claim(c.topic, topicIds[c.topic], node, after[c.topic].epoch, now))
            && (forall t :: t in after && after[t] != owners[t] ==> exists c :: c in claims && c.topic == t)
  {
    var claims := Takeovers(owners, topics, node, timeout, now, topicIds);
    var after := TakenOver(owners, topics, node, timeout, now);
    forall c | c in claims
      ensures c.topic in topics && c.topic in after && after[c.topic].owner == node
      ensures c == Claim(c.topic, topicIds[c.topic], node, after[c.topic].epoch, now)
    {
      TakeoversAre(owners, topics, node, timeout, now, topicIds, c);
    }
    forall t | t in after && after[t] != owners[t] ensures exists c :: c in claims && c.topic == t {
      var c := Claim(t, topicIds[t], node, OwnClaim(owners, t, node, now)[t].epoch, now);
      TakeoversAre(owners, topics, node, timeout, now, topicIds, c);
    }
  }

  lemma TakeoverNext(owners: Owners, topics: seq<string>, i: nat, node: NodeId, timeout: U64, now: U64,
                     topicIds: map<string, TopicId>)
    requires i < |topics| && NoDup(topics) && forall t :: t in topics ==> t in topicIds
    ensures var done, next := TakenOver(owners, topics[..i], node, timeout, now), TakenOver(owners, topics[..i + 1], node, timeout, now);
            var plan := FailoverPlan(owners, topics[i], node, timeout, now);
            && FailoverPlan(done, topics[i], node, timeout, now) == plan
            && next == (if plan.Some? then FailoverWrite(done, topics[i], node, plan.value, now) else done)
            && (plan.Some? ==> plan.value == OwnClaim(owners, topics[i], node, now)[topics[i]].epoch)
    ensures topics[..i + 1][..i] == topics[..i] && topics[..i + 1][i] == topics[i]
  {
    assert topics[..i + 1] == topics[..i] + [topics[i]];
    assert topics[i] !in topics[..i];
  }

  // -------------------------------------------------------- the whole network

  /** `owners` and `seen` are per node; `seen[n]` holds the claims `n` issued
      or admitted. `issued` lists all claims in the order they were made. */
  datatype Net = Net(owners: map<NodeId, Owners>, seen: map<NodeId, set<Claim>>, issued: seq<Claim>)

  function Quiet(nodes: set<NodeId>): Net
  {
    Net(map n | n in nodes :: map[], map n | n in nodes :: {}, [])
  }

  datatype Step =
    | ClaimStep(node: NodeId, topic: string, topicId: TopicId, now: U64)
    | FailoverStep(node: NodeId, topic: string, topicId: TopicId, timeout: U64, now: U64)
    | DeliverStep(node: NodeId, claim: Claim, derivedId: TopicId, now: U64)
    | HeartbeatStep(node: NodeId, beat: Heartbeat, now: U64)

  /** Claims delivered are claims somebody issued, any number of times and in
      any order; heartbeats may say anything; no epoch is at its last value. */
  predicate Enabled(net: Net, step: Step)
  {
    && step.node in net.owners && step.node in net.seen
    && match step
       case ClaimStep(n, topic, _, _) => topic in net.owners[n] ==> net.owners[n][topic].epoch < U64_MAX
       case FailoverStep(n, topic, _, timeout, now) =>
         FailoverPlan(net.owners[n], topic, n, timeout, now).Some? && net.owners[n][topic].epoch < U64_MAX
       case DeliverStep(_, c, _, _) => c in net.issued
       case HeartbeatStep(_, _, _) => true
  }

  function Issue(net: Net, n: NodeId, owners: Owners, c: Claim): Net
    requires n in net.seen
  {
    Net(net.owners[n := owners], net.seen[n := net.seen[n] + {c}], net.issued + [c])
  }

  function Next(net: Net, step: Step): Net
    requires Enabled(net, step)
  {
    match step
    case ClaimStep(n, topic, topicId, now) =>
      var owners := OwnClaim(net.owners[n], topic, n, now);
      Issue(net, n, owners, Claim(topic, topicId, n, owners[topic].epoch, now))
    case FailoverStep(n, topic, topicId, timeout, now) =>
      var epoch := FailoverPlan(net.owners[n], topic, n, timeout, now).value;
      Issue(net, n, FailoverWrite(net.owners[n], topic, n, epoch, now), Claim(topic, topicId, n, epoch, now))
    case DeliverStep(n, c, derivedId, now) =>
      net.(owners := net.owners[n := OnClaim(net.owners[n], c, derivedId, now)],
           seen := if Admitted(c, derivedId, now) then net.seen[n := net.seen[n] + {c}] else net.seen)
    case HeartbeatStep(n, beat, now) =>
      net.(owners := net.owners[n := OnHeartbeat(net.owners[n], beat, now)])
  }

  predicate ValidRun(net: Net, steps: seq<Step>)
    decreases |steps|
  {
    steps == [] || (Enabled(net, steps[0]) && ValidRun(Next(net, steps[0]), steps[1..]))
  }

  function Run(net: Net, steps: seq<Step>): Net
    requires ValidRun(net, steps)
    decreases |steps|
  {
    if steps == [] then net else Run(Next(net, steps[0]), steps[1..])
  }

  // -------------------------------------------------------------- invariant

  /** Higher epoch first, lower node id among equals. */
  predicate AtLeast(o: Ownership, c: Claim)
  {
    o.epoch > c.epoch || (o.epoch == c.epoch && o.owner <= c.node)
  }

  /** The record is the best claim seen for the topic. */
  ghost predicate Winner(o: Ownership, seen: set<Claim>, topic: string)
  {
    && (exists c :: c in seen && c.topic == topic && c.node == o.owner && c.epoch == o.epoch)
    && (forall c :: c in seen && c.topic == topic ==> AtLeast(o, c))
  }

  ghost predicate NodeOk(owners: Owners, seen: set<Claim>)
  {
    && (forall t :: t in owners ==> Winner(owners[t], seen, t))
    && (forall c :: c in seen ==> c.topic in owners && c.epoch >= 2)
  }

  /** A node that claims a topic again does so with a higher epoch. */
  ghost predicate EpochsIncrease(issued: seq<Claim>)
  {
    forall i, j | 0 <= i < j < |issued| && issued[i].node == issued[j].node && issued[i].topic == issued[j].topic ::
      issued[i].epoch < issued[j].epoch
  }

  /** Whatever a node has seen was issued, and a node has seen its own. */
  ghost predicate Accounted(seen: map<NodeId, set<Claim>>, issued: seq<Claim>)
  {
    && (forall n, c :: n in seen && c in seen[n] ==> c in issued)
    && (forall c :: c in issued ==> c.node in seen && c in seen[c.node] && c.epoch >= 2)
  }

  ghost predicate NodesOk(owners: map<NodeId, Owners>, seen: map<NodeId, set<Claim>>)
  {
    owners.Keys == seen.Keys && forall n :: n in owners ==> NodeOk(owners[n], seen[n])
  }

  ghost predicate NetOk(net: Net)
  {
    NodesOk(net.owners, net.seen) && Accounted(net.seen, net.issued) && EpochsIncrease(net.issued)
  }

  lemma OwnClaimIsHighest(owners: Owners, seen: set<Claim>, n: NodeId, c: Claim)
    requires NodeOk(owners, seen)
    requires c.topic in owners ==> owners[c.topic].epoch < U64_MAX
    requires c.epoch == OwnClaim(owners, c.topic, n, c.timestamp)[c.topic].epoch
    ensures c.epoch >= 2 && forall d :: d in seen && d.topic == c.topic ==> d.epoch < c.epoch
  {
    if c.topic in owners {
      var w :| w in seen && w.topic == c.topic && w.node == owners[c.topic].owner && w.epoch == owners[c.topic].epoch;
      assert c.epoch == w.epoch + 1;
    }
  }

  lemma OwnClaimKeepsNode(owners: Owners, seen: set<Claim>, n: NodeId, c: Claim)
    requires NodeOk(owners, seen) && c.node == n
    requires c.topic in owners ==> owners[c.topic].epoch < U64_MAX
    requires c.epoch == OwnClaim(owners, c.topic, n, c.timestamp)[c.topic].epoch
    ensures NodeOk(OwnClaim(owners, c.topic, n, c.timestamp), seen + {c})
  {
    OwnClaimIsHighest(owners, seen, n, c);
    var owners' := OwnClaim(owners, c.topic, n, c.timestamp);
    var o := owners'[c.topic];
    assert c in seen + {c};
    forall t | t in owners' ensures Winner(owners'[t], seen + {c}, t) {
      if t != c.topic {
        var w :| w in seen && w.topic == t && w.node == owners[t].owner && w.epoch == owners[t].epoch;
        assert w in seen + {c};
      }
    }
  }

  lemma DeliveryKeepsNode(owners: Owners, seen: set<Claim>, c: Claim, derivedId: TopicId, now: U64)
    requires NodeOk(owners, seen) && c.epoch >= 2 && Admitted(c, derivedId, now)
    ensures NodeOk(OnClaim(owners, c, derivedId, now), seen + {c})
  {
    var owners' := OnClaim(owners, c, derivedId, now);
    assert c in seen + {c};
    forall t | t in owners' ensures Winner(owners'[t], seen + {c}, t) {
      if t in owners {
        var w :| w in seen && w.topic == t && w.node == owners[t].owner && w.epoch == owners[t].epoch;
        assert w in seen + {c};
      }
    }
  }

  lemma HeartbeatKeepsNode(owners: Owners, seen: set<Claim>, beat: Heartbeat, now: U64)
    requires NodeOk(owners, seen)
    ensures NodeOk(OnHeartbeat(owners, beat, now), seen)
  {
    var owners' := OnHeartbeat(owners, beat, now);
    forall t | t in owners' ensures Winner(owners'[t], seen, t) {
      assert Winner(owners[t], seen, t);
    }
  }

  lemma IssueKeepsNet(net: Net, n: NodeId, c: Claim)
    requires NetOk(net) && n in net.owners && c.node == n
    requires c.topic in net.owners[n] ==> net.owners[n][c.topic].epoch < U64_MAX
    requires c.epoch == OwnClaim(net.owners[n], c.topic, n, c.timestamp)[c.topic].epoch
    ensures NetOk(Issue(net, n, OwnClaim(net.owners[n], c.topic, n, c.timestamp), c))
  {
    var owners := OwnClaim(net.owners[n], c.topic, n, c.timestamp);
    assert NodesOk(net.owners[n := owners], net.seen[n := net.seen[n] + {c}]) by {
      OwnClaimKeepsNode(net.owners[n], net.seen[n], n, c);
      NodeChangeKeepsNodes(net.owners, net.seen, n, owners, net.seen[n] + {c});
    }
    assert EpochsIncrease(net.issued + [c]) by {
      OwnClaimIsHighest(net.owners[n], net.seen[n], n, c);
      NewestIsHighest(net.issued, net.seen[n], c);
    }
    OwnClaimAccounted(net.seen, net.issued, c);
  }

  lemma NodeChangeKeepsNodes(
      owners: map<NodeId, Owners>, seen: map<NodeId, set<Claim>>, n: NodeId, o: Owners, s: set<Claim>)
    requires NodesOk(owners, seen) && n in owners && NodeOk(o, s)
    ensures NodesOk(owners[n := o], seen[n := s])
  {
  }

  lemma OwnClaimAccounted(seen: map<NodeId, set<Claim>>, issued: seq<Claim>, c: Claim)
    requires Accounted(seen, issued) && c.node in seen && c.epoch >= 2
    ensures Accounted(seen[c.node := seen[c.node] + {c}], issued + [c])
  {
    assert forall d :: d in issued ==> d in issued + [c];
    assert c in issued + [c];
  }

  lemma NewestIsHighest(issued: seq<Claim>, seen: set<Claim>, c: Claim)
    requires EpochsIncrease(issued)
    requires forall d :: d in issued && d.node == c.node ==> d in seen
    requires forall d :: d in seen && d.topic == c.topic ==> d.epoch < c.epoch
    ensures EpochsIncrease(issued + [c])
  {
    var more := issued + [c];
    forall i, j | 0 <= i < j < |more| && more[i].node == more[j].node && more[i].topic == more[j].topic
      ensures more[i].epoch < more[j].epoch
    {
      if j == |issued| { assert more[i] in issued; }
    }
  }

  lemma DeliveryKeepsNet(net: Net, n: NodeId, c: Claim, derivedId: TopicId, now: U64)
    requires NetOk(net) && n in net.owners && c in net.issued && Admitted(c, derivedId, now)
    ensures NetOk(net.(owners := net.owners[n := OnClaim(net.owners[n], c, derivedId, now)],
                       seen := net.seen[n := net.seen[n] + {c}]))
  {
    var owners := OnClaim(net.owners[n], c, derivedId, now);
    assert NodesOk(net.owners[n := owners], net.seen[n := net.seen[n] + {c}]) by {
      DeliveryKeepsNode(net.owners[n], net.seen[n], c, derivedId, now);
      NodeChangeKeepsNodes(net.owners, net.seen, n, owners, net.seen[n] + {c});
    }
    SightingAccounted(net.seen, net.issued, n, c);
  }

  lemma SightingAccounted(seen: map<NodeId, set<Claim>>, issued: seq<Claim>, n: NodeId, c: Claim)
    requires Accounted(seen, issued) && n in seen && c in issued
    ensures Accounted(seen[n := seen[n] + {c}], issued)
  {
  }

  lemma HeartbeatKeepsNet(net: Net, n: NodeId, beat: Heartbeat, now: U64)
    requires NetOk(net) && n in net.owners
    ensures NetOk(net.(owners := net.owners[n := OnHeartbeat(net.owners[n], beat, now)]))
  {
    HeartbeatKeepsNode(net.owners[n], net.seen[n], beat, now);
    NodeChangeKeepsNodes(net.owners, net.seen, n, OnHeartbeat(net.owners[n], beat, now), net.seen[n]);
    assert net.seen[n := net.seen[n]] == net.seen;
  }

  lemma ClaimStepKeepsNet(net: Net, step: Step)
    requires NetOk(net) && step.ClaimStep? && Enabled(net, step)
    ensures NetOk(Next(net, step))
  {
    var epoch := OwnClaim(net.owners[step.node], step.topic, step.node, step.now)[step.topic].epoch;
    IssueKeepsNet(net, step.node, Claim(step.topic, step.topicId, step.node, epoch, step.now));
  }

  lemma RefusalChangesNothing(net: Net, step: Step)
    requires step.DeliverStep? && Enabled(net, step) && !Admitted(step.claim, step.derivedId, step.now)
    ensures Next(net, step) == net
  {
  }

  lemma StepKeepsNet(net: Net, step: Step)
    requires NetOk(net) && Enabled(net, step)
    ensures NetOk(Next(net, step))
  {
    match step
    case ClaimStep(_, _, _, _) =>
      ClaimStepKeepsNet(net, step);
    case FailoverStep(n, topic, topicId, _, now) =>
      FailoverIsClaim(net, step);
      ClaimStepKeepsNet(net, ClaimStep(n, topic, topicId, now));
    case DeliverStep(n, c, derivedId, now) =>
      if Admitted(c, derivedId, now) {
        DeliveryKeepsNet(net, n, c, derivedId, now);
      } else {
        RefusalChangesNothing(net, step);
      }
    case HeartbeatStep(n, beat, now) =>
      HeartbeatKeepsNet(net, n, beat, now);
  }

  /** An uninterrupted takeover is an ordinary claim. */
  lemma FailoverIsClaim(net: Net, step: Step)
    requires step.FailoverStep? && Enabled(net, step)
    ensures Enabled(net, ClaimStep(step.node, step.topic, step.topicId, step.now))
    ensures Next(net, step) == Next(net, ClaimStep(step.node, step.topic, step.topicId, step.now))
  {
  }

  lemma {:induction false} RunsKeepNet(net: Net, steps: seq<Step>)
    requires NetOk(net) && ValidRun(net, steps)
    ensures NetOk(Run(net, steps))
    decreases |steps|
  {
    if steps == [] {
    } else {
      StepKeepsNet(net, steps[0]);
      RunsKeepNet(Next(net, steps[0]), steps[1..]);
    }
  }

  // --------------------------------------------------------------- theorems

  function Regarding(seen: set<Claim>, topic: string): set<Claim>
  {
    set c | c in seen && c.topic == topic
  }

  /** Whatever the network did, two nodes that have processed the same claims
      for a topic agree on its owner and epoch: those of the claim with the
      highest epoch, lowest node id among equals. */
  lemma Convergence(nodes: set<NodeId>, steps: seq<Step>, a: NodeId, b: NodeId, topic: string)
    requires ValidRun(Quiet(nodes), steps) && a in nodes && b in nodes
    ensures var net := Run(Quiet(nodes), steps);
            && a in net.owners && b in net.owners && a in net.seen && b in net.seen
            && (Regarding(net.seen[a], topic) == Regarding(net.seen[b], topic) ==>
                  && (topic in net.owners[a] <==> topic in net.owners[b])
                  && (topic in net.owners[a] ==>
                        && net.owners[a][topic].owner == net.owners[b][topic].owner
                        && net.owners[a][topic].epoch == net.owners[b][topic].epoch
                        && Winner(net.owners[a][topic], net.seen[a], topic)))
  {
    NodesPersist(Quiet(nodes), steps);
    RunsKeepNet(Quiet(nodes), steps);
    var net := Run(Quiet(nodes), steps);
    if Regarding(net.seen[a], topic) == Regarding(net.seen[b], topic) {
      SameClaimsSameWinner(net.owners[a], net.seen[a], net.owners[b], net.seen[b], topic);
    }
  }

  lemma SameClaimsSameWinner(o1: Owners, s1: set<Claim>, o2: Owners, s2: set<Claim>, topic: string)
    requires NodeOk(o1, s1) && NodeOk(o2, s2) && Regarding(s1, topic) == Regarding(s2, topic)
    ensures topic in o1 <==> topic in o2
    ensures topic in o1 ==> o1[topic].owner == o2[topic].owner && o1[topic].epoch == o2[topic].epoch
  {
    if topic in o1 {
      var w :| w in s1 && w.topic == topic && w.node == o1[topic].owner && w.epoch == o1[topic].epoch;
      assert w in Regarding(s1, topic);
    }
    if topic in o2 {
      var w :| w in s2 && w.topic == topic && w.node == o2[topic].owner && w.epoch == o2[topic].epoch;
      assert w in Regarding(s2, topic);
    }
  }

  lemma {:induction false} NodesPersist(net: Net, steps: seq<Step>)
    requires ValidRun(net, steps) && net.owners.Keys == net.seen.Keys
    ensures Run(net, steps).owners.Keys == Run(net, steps).seen.Keys == net.owners.Keys
    decreases |steps|
  {
    if steps == [] {
    } else {
      NodesPersist(Next(net, steps[0]), steps[1..]);
    }
  }

  /** Every record is a claim its owner issued, and each node's claims for a
      topic carry strictly increasing epochs. */
  lemma ClaimIntegrity(nodes: set<NodeId>, steps: seq<Step>)
    requires ValidRun(Quiet(nodes), steps)
    ensures var net := Run(Quiet(nodes), steps);
            && net.owners.Keys == nodes
            && (forall n, t :: n in net.owners && t in net.owners[n] ==>
                  exists c :: c in net.issued && c.topic == t && c.node == net.owners[n][t].owner
                              && c.epoch == net.owners[n][t].epoch)
            && EpochsIncrease(net.issued)
  {
    RunsKeepNet(Quiet(nodes), steps);
    NodesPersist(Quiet(nodes), steps);
    var net := Run(Quiet(nodes), steps);
    forall n, t | n in net.owners && t in net.owners[n]
      ensures exists c :: c in net.issued && c.topic == t && c.node == net.owners[n][t].owner
                          && c.epoch == net.owners[n][t].epoch
    {
      assert Winner(net.owners[n][t], net.seen[n], t);
      var c :| c in net.seen[n] && c.topic == t && c.node == net.owners[n][t].owner && c.epoch == net.owners[n][t].epoch;
      assert c in net.issued;
    }
  }

  /** A later record never ranks below an earlier one. */
  ghost predicate Advances(o: Ownership, o': Ownership)
  {
    o'.epoch > o.epoch || (o'.epoch == o.epoch && o'.owner <= o.owner)
  }

  ghost predicate NetAdvances(net: Net, net': Net)
  {
    forall n, t :: n in net.owners && t in net.owners[n] ==>
      n in net'.owners && t in net'.owners[n] && Advances(net.owners[n][t], net'.owners[n][t])
  }

  ghost predicate OwnersAdvance(owners: Owners, owners': Owners)
  {
    forall t :: t in owners ==> t in owners' && Advances(owners[t], owners'[t])
  }

  lemma LocalAdvance(net: Net, step: Step)
    requires Enabled(net, step)
    ensures step.node in Next(net, step).owners
    ensures OwnersAdvance(net.owners[step.node], Next(net, step).owners[step.node])
    ensures forall n :: n in net.owners && n != step.node ==> n in Next(net, step).owners && Next(net, step).owners[n] == net.owners[n]
  {
  }

  lemma StepAdvances(net: Net, step: Step)
    requires Enabled(net, step)
    ensures NetAdvances(net, Next(net, step))
  {
    LocalAdvance(net, step);
  }

  lemma {:induction false} RecordsNeverRegress(net: Net, steps: seq<Step>)
    requires NetOk(net) && ValidRun(net, steps)
    ensures NetAdvances(net, Run(net, steps))
    decreases |steps|
  {
    if steps == [] {
    } else {
      var mid := Next(net, steps[0]);
      StepAdvances(net, steps[0]);
      StepKeepsNet(net, steps[0]);
      RecordsNeverRegress(mid, steps[1..]);
      forall n, t | n in net.owners && t in net.owners[n]
        ensures n in Run(net, steps).owners && t in Run(net, steps).owners[n]
                && Advances(net.owners[n][t], Run(net, steps).owners[n][t])
      {
        assert Advances(net.owners[n][t], mid.owners[n][t]);
        assert Advances(mid.owners[n][t], Run(mid, steps[1..]).owners[n][t]);
      }
    }
  }

  /** A takeover is put off only by the recorded owner, speaking of the
      recorded epoch, later than before and not from the future. */
  lemma OnlyOwnerPutsOffTakeover(owners: Owners, beat: Heartbeat, now: U64, topic: string, timeout: U64, later: U64)
    requires topic in owners
    ensures topic in OnHeartbeat(owners, beat, now)
    ensures TimedOut(owners[topic], timeout, later) && !TimedOut(OnHeartbeat(owners, beat, now)[topic], timeout, later)
       ==> && beat.topic == topic && beat.node == owners[topic].owner && beat.epoch == owners[topic].epoch
           && owners[topic].lastHeartbeat < beat.timestamp <= SatAdd(now, MAX_FUTURE_NANOS)
    ensures TimedOut(OnHeartbeat(owners, beat, now)[topic], timeout, later) ==> TimedOut(owners[topic], timeout, later)
  {
  }

  // --------------------------------------------- messages that break it

  function OnRelease(owners: Owners, topic: string, node: NodeId): Owners
  {
    if topic in owners && owners[topic].owner == node then owners - {topic} else owners
  }

  function OnResponse(owners: Owners, topic: string, node: NodeId, now: U64): Owners
  {
    owners[topic := NewRecord(node, now)]
  }

  /** A release carries no epoch: the same claim and release leave an owner or
      none, depending on the order they arrive in. */
  lemma ReleaseOrderMatters(c: Claim, now: U64)
    requires Admitted(c, c.topicId, now) && c.epoch >= 1
    ensures c.topic !in OnRelease(OnClaim(map[], c, c.topicId, now), c.topic, c.node)
    ensures c.topic in OnClaim(OnRelease(map[], c.topic, c.node), c, c.topicId, now)
  {
  }

  /** A release is heeded from the recorded owner only, whatever the epoch. */
  lemma ReleasedByOwnerOnly(owners: Owners, topic: string, node: NodeId, other: string)
    requires topic in owners
    ensures topic in OnRelease(owners, topic, node) <==> owners[topic].owner != node
    ensures other in OnRelease(owners, topic, node) <==> other in owners && !(other == topic && owners[topic].owner == node)
    ensures other in OnRelease(owners, topic, node) ==> OnRelease(owners, topic, node)[other] == owners[other]
  {
  }

  /** A response counts as a sign of life at the time it comes. */
  lemma ResponseStartsTimeout(owners: Owners, topic: string, node: NodeId, now: U64, me: NodeId, timeout: U64, later: U64)
    ensures FailoverPlan(OnResponse(owners, topic, node, now), topic, me, timeout, later).Some? <==>
      node != me && later > now + timeout
  {
  }

  /** An announcement or a query response throws the epoch back to 1. */
  lemma ResponseResetsEpoch(owners: Owners, topic: string, node: NodeId, now: U64)
    requires topic in owners
    ensures Advances(owners[topic], OnResponse(owners, topic, node, now)[topic]) <==>
      owners[topic].epoch == 0 || (owners[topic].epoch == 1 && node <= owners[topic].owner)
  {
  }

  datatype Message =
    | ClaimMessage(claim: Claim, derivedId: TopicId, now: U64)
    | HeartbeatMessage(beat: Heartbeat, now: U64)

  function ReceiveOne(owners: Owners, m: Message): Owners
  {
    match m
    case ClaimMessage(c, derivedId, now) => OnClaim(owners, c, derivedId, now)
    case HeartbeatMessage(beat, now) => OnHeartbeat(owners, beat, now)
  }

  function ReceiveAll(owners: Owners, msgs: seq<Message>): Owners
    decreases |msgs|
  {
    if msgs == [] then owners else ReceiveAll(ReceiveOne(owners, msgs[0]), msgs[1..])
  }

  predicate Outranks(epoch: U64, owner: NodeId, planEpoch: U64, planNode: NodeId)
  {
    epoch > planEpoch || (epoch == planEpoch && owner < planNode)
  }

  /** Some claim among the messages is admitted and outranks the plan. */
  ghost predicate Beaten(msgs: seq<Message>, topic: string, epoch: U64, node: NodeId)
  {
    exists i :: 0 <= i < |msgs| && Beats(msgs[i], topic, epoch, node)
  }

  predicate Beats(m: Message, topic: string, epoch: U64, node: NodeId)
  {
    && m.ClaimMessage? && m.claim.topic == topic && Admitted(m.claim, m.derivedId, m.now)
    && Outranks(m.claim.epoch, m.claim.node, epoch, node)
  }

  lemma {:induction false} RecordIsBestSeen(owners: Owners, msgs: seq<Message>, topic: string, epoch: U64, node: NodeId)
    requires topic in owners
    ensures topic in ReceiveAll(owners, msgs)
    ensures var o := ReceiveAll(owners, msgs)[topic];
            Outranks(o.epoch, o.owner, epoch, node) <==>
              Outranks(owners[topic].epoch, owners[topic].owner, epoch, node) || Beaten(msgs, topic, epoch, node)
    decreases |msgs|
  {
    if msgs == [] {
    } else {
      BeatenSplits(msgs, topic, epoch, node);
      MessageAndRecord(owners, msgs[0], topic, epoch, node);
      RecordIsBestSeen(ReceiveOne(owners, msgs[0]), msgs[1..], topic, epoch, node);
    }
  }

  lemma MessageAndRecord(owners: Owners, m: Message, topic: string, epoch: U64, node: NodeId)
    requires topic in owners
    ensures topic in ReceiveOne(owners, m)
    ensures var o := ReceiveOne(owners, m)[topic];
            Outranks(o.epoch, o.owner, epoch, node) <==>
              Outranks(owners[topic].epoch, owners[topic].owner, epoch, node) || Beats(m, topic, epoch, node)
  {
  }

  lemma BeatenSplits(msgs: seq<Message>, topic: string, epoch: U64, node: NodeId)
    requires msgs != []
    ensures Beaten(msgs, topic, epoch, node) <==> Beats(msgs[0], topic, epoch, node) || Beaten(msgs[1..], topic, epoch, node)
  {
    assert forall i :: 0 <= i < |msgs[1..]| ==> msgs[1..][i] == msgs[i + 1];
    if i :| 0 <= i < |msgs| && Beats(msgs[i], topic, epoch, node) {
      if i > 0 { assert Beats(msgs[1..][i - 1], topic, epoch, node); }
    }
  }

  // ------------------------------------------------ when a topic is taken

  /** Message `m` is a sign of life of `topic` at time `t`: an accepted claim
      or a heartbeat of the recorded owner and epoch, neither from more than a
      minute ahead; or the first claim heard of, at the time it was heard. */
  ghost predicate Sign(before: Owners, m: Message, topic: string, t: U64)
  {
    match m
    case ClaimMessage(c, derivedId, now) =>
      && c.topic == topic && c.topicId == derivedId && c.timestamp <= now + 60_000_000_000
      && (|| (topic !in before && t == now)
          || (t == c.timestamp && if topic in before then !Outranks(before[topic].epoch, before[topic].owner, c.epoch, c.node)
                                  else c.epoch >= 1))
    case HeartbeatMessage(beat, now) =>
      && beat.topic == topic && topic in before && t == beat.timestamp <= now + 60_000_000_000
      && beat.node == before[topic].owner && beat.epoch == before[topic].epoch
  }

  /** A sign at `t` among the messages; of its claims only, if so asked. */
  ghost predicate Heard(owners: Owners, msgs: seq<Message>, topic: string, t: U64, claimsOnly: bool)
  {
    exists i :: 0 <= i < |msgs| && Counts(ReceiveAll(owners, msgs[..i]), msgs[i], topic, t, claimsOnly)
  }

  ghost predicate Counts(before: Owners, m: Message, topic: string, t: U64, claimsOnly: bool)
  {
    Sign(before, m, topic, t) && (claimsOnly ==> m.ClaimMessage?)
  }

  /** The field that keeps the latest sign, or the latest claim. */
  function Kept(o: Ownership, claimsOnly: bool): U64
  {
    if claimsOnly then o.claimedAt else o.lastHeartbeat
  }

  lemma {:induction false} ReceiveLast(owners: Owners, msgs: seq<Message>)
    requires msgs != []
    ensures ReceiveAll(owners, msgs) == ReceiveOne(ReceiveAll(owners, msgs[..|msgs| - 1]), msgs[|msgs| - 1])
    decreases |msgs|
  {
    var n := |msgs| - 1;
    if n == 0 {
      assert msgs[..0] == [] && msgs[1..] == [];
    } else {
      assert msgs[..n][1..] == msgs[1..][..n - 1] && msgs[..n][0] == msgs[0];
      ReceiveLast(ReceiveOne(owners, msgs[0]), msgs[1..]);
    }
  }

  lemma HeardLast(owners: Owners, msgs: seq<Message>, topic: string, t: U64, claimsOnly: bool)
    requires msgs != []
    ensures var n := |msgs| - 1;
            Heard(owners, msgs, topic, t, claimsOnly) <==>
              || Heard(owners, msgs[..n], topic, t, claimsOnly)
              || Counts(ReceiveAll(owners, msgs[..n]), msgs[n], topic, t, claimsOnly)
  {
    var n := |msgs| - 1;
    forall i | 0 <= i < n ensures msgs[..n][..i] == msgs[..i] && msgs[..n][i] == msgs[i] {
    }
    if i :| 0 <= i < |msgs| && Counts(ReceiveAll(owners, msgs[..i]), msgs[i], topic, t, claimsOnly) {
      if i < n { assert Counts(ReceiveAll(owners, msgs[..n][..i]), msgs[..n][i], topic, t, claimsOnly); }
    }
    if i :| 0 <= i < n && Counts(ReceiveAll(owners, msgs[..n][..i]), msgs[..n][i], topic, t, claimsOnly) {
      assert Counts(ReceiveAll(owners, msgs[..i]), msgs[i], topic, t, claimsOnly);
    }
  }

  /** `last` is the latest of what was heard and what was kept before. */
  ghost predicate LatestHeard(owners: Owners, msgs: seq<Message>, topic: string, last: U64, claimsOnly: bool)
  {
    && (forall t: U64 :: Heard(owners, msgs, topic, t, claimsOnly) ==> t <= last)
    && (topic in owners ==> Kept(owners[topic], claimsOnly) <= last)
    && (Heard(owners, msgs, topic, last, claimsOnly) || (topic in owners && Kept(owners[topic], claimsOnly) == last))
  }

  lemma SignMovesRecord(before: Owners, m: Message, topic: string, claimsOnly: bool)
    ensures var after := ReceiveOne(before, m);
            && (topic in after <==> topic in before || exists t: U64 :: Counts(before, m, topic, t, claimsOnly))
            && (topic in after ==>
                  var last := Kept(after[topic], claimsOnly);
                  && (forall t: U64 :: Counts(before, m, topic, t, claimsOnly) ==> t <= last)
                  && (topic in before ==> Kept(before[topic], claimsOnly) <= last)
                  && (Counts(before, m, topic, last, claimsOnly) || (topic in before && last == Kept(before[topic], claimsOnly))))
  {
    if m.ClaimMessage? && topic !in before && topic in ReceiveOne(before, m) {
      assert Counts(before, m, topic, m.now, claimsOnly);
    }
  }

  /** A record keeps when its topic was last heard of, and last claimed. */
  lemma {:induction false} RecordIsLatest(owners: Owners, msgs: seq<Message>, topic: string, claimsOnly: bool)
    ensures var after := ReceiveAll(owners, msgs);
            && (topic in after <==> topic in owners || exists t: U64 :: Heard(owners, msgs, topic, t, claimsOnly))
            && (topic in after ==> LatestHeard(owners, msgs, topic, Kept(after[topic], claimsOnly), claimsOnly))
    decreases |msgs|
  {
    if msgs == [] {
    } else {
      var n := |msgs| - 1;
      RecordIsLatest(owners, msgs[..n], topic, claimsOnly);
      ReceiveLast(owners, msgs);
      SignMovesRecord(ReceiveAll(owners, msgs[..n]), msgs[n], topic, claimsOnly);
      forall t: U64
        ensures Heard(owners, msgs, topic, t, claimsOnly) <==>
          || Heard(owners, msgs[..n], topic, t, claimsOnly)
          || Counts(ReceiveAll(owners, msgs[..n]), msgs[n], topic, t, claimsOnly)
      {
        HeardLast(owners, msgs, topic, t, claimsOnly);
      }
    }
  }

  /** More than `timeout` has passed since the topic was last heard of, in the
      messages or before them. */
  ghost predicate Silent(owners: Owners, msgs: seq<Message>, topic: string, timeout: U64, now: U64)
  {
    && (forall t: U64 :: Heard(owners, msgs, topic, t, false) ==> now > t + timeout)
    && (topic in owners ==> now > owners[topic].lastHeartbeat + timeout)
  }

  /** Whatever messages came, the monitor takes another node's topic exactly
      when it has been silent for longer than the timeout, with the next epoch
      and as heard of just now; otherwise it leaves the record alone. */
  lemma TakenExactly(owners: Owners, msgs: seq<Message>, topics: seq<string>, topic: string,
                     node: NodeId, timeout: U64, now: U64)
    requires topic in topics && topic in ReceiveAll(owners, msgs) && ReceiveAll(owners, msgs)[topic].owner != node
    ensures var before := ReceiveAll(owners, msgs);
            var after := TakenOver(before, topics, node, timeout, now);
            && topic in after
            && (after[topic].owner == node <==> Silent(owners, msgs, topic, timeout, now))
            && (after[topic].owner != node ==> after[topic] == before[topic])
            && (after[topic].owner == node ==>
                  && after[topic].claimedAt == after[topic].lastHeartbeat == now
                  && (before[topic].epoch < U64_MAX ==> after[topic].epoch == before[topic].epoch + 1))
  {
    RecordIsLatest(owners, msgs, topic, false);
  }

  /** A heartbeat of the recorded owner and epoch protects the topic for the
      whole timeout, whatever else is heard. */
  lemma HeartbeatProtects(owners: Owners, msgs: seq<Message>, i: nat, topics: seq<string>, topic: string,
                          node: NodeId, timeout: U64, now: U64)
    requires i < |msgs| && msgs[i].HeartbeatMessage?
    requires topic in ReceiveAll(owners, msgs[..i])
    requires var o, beat := ReceiveAll(owners, msgs[..i])[topic], msgs[i].beat;
             && beat.topic == topic && beat.node == o.owner && beat.epoch == o.epoch
             && beat.timestamp <= msgs[i].now + 60_000_000_000 && now <= beat.timestamp + timeout
    ensures topic in ReceiveAll(owners, msgs)
    ensures TakenOver(ReceiveAll(owners, msgs), topics, node, timeout, now)[topic] == ReceiveAll(owners, msgs)[topic]
  {
    assert Counts(ReceiveAll(owners, msgs[..i]), msgs[i], topic, msgs[i].beat.timestamp, false);
    assert Heard(owners, msgs, topic, msgs[i].beat.timestamp, false);
    RecordIsLatest(owners, msgs, topic, false);
    if topic in topics && ReceiveAll(owners, msgs)[topic].owner != node {
      TakenExactly(owners, msgs, topics, topic, node, timeout, now);
    }
  }

  /** The monitor writes what it read under an earlier lock. Whatever messages
      land in between, the write throws the record back exactly when one of
      them is an admitted claim that outranks the plan. */
  lemma StaleFailoverRegresses(owners: Owners, topic: string, node: NodeId, timeout: U64, now: U64, msgs: seq<Message>)
    requires FailoverPlan(owners, topic, node, timeout, now).Some? && owners[topic].epoch < U64_MAX
    ensures var plan := FailoverPlan(owners, topic, node, timeout, now).value;
            var between := ReceiveAll(owners, msgs);
            && topic in between
            && (!Advances(between[topic], FailoverWrite(between, topic, node, plan, now)[topic]) <==>
                  Beaten(msgs, topic, plan, node))
  {
    RecordIsBestSeen(owners, msgs, topic, SatAdd(owners[topic].epoch, 1), node);
  }
}
