/** Topic ownership: the reverse index agrees with the owner map in every
    reachable state, and each topic behaves as a register of its own. */
module Topics {
  import opened Words
  import opened OwnershipModel
  import opened OwnershipMachine

  /** Each node's list is duplicate-free and holds exactly its topics. */
  ghost predicate Agree(s: State)
  {
    && (forall n :: n in s.nodeTopics ==> NoDup(s.nodeTopics[n]))
    && ListedOwned(s)
    && OwnersListed(s)
  }

  /** `s` with `topic` taken from whoever owns it. */
  function Freed(s: State, topic: string): State
  {
    if topic in s.ownership then
      s.(ownership := s.ownership - {topic}, nodeTopics := Unlist(s.nodeTopics, s.ownership[topic], topic))
    else s
  }

  lemma FreeingKeepsAgreement(s: State, topic: string)
    requires Agree(s)
    ensures Agree(Freed(s, topic)) && topic !in Freed(s, topic).ownership
  {
  }

  lemma ApplyKeepsAgreement(s: State, cmd: Command)
    requires Agree(s)
    ensures Agree(Apply(s, cmd))
  {
    match cmd
    case ClaimTopic(topic, node, _) =>
      AssigningKeepsAgreement(s, node, topic);
    case ReleaseTopic(topic, node) =>
      FreeingKeepsAgreement(s, topic);
    case TransferTopic(topic, fromNode, toNode) =>
      AssigningKeepsAgreement(s, toNode, topic);
    case _ =>
  }

  lemma AssigningKeepsAgreement(s: State, node: NodeId, topic: string)
    requires Agree(s)
    ensures Agree(s.(ownership := s.ownership[topic := node],
                     nodeTopics := Enlist(Freed(s, topic).nodeTopics, node, topic)))
  {
    FreeingKeepsAgreement(s, topic);
    EnlistKeepsAgreement(Freed(s, topic), node, topic);
    assert Freed(s, topic).ownership[topic := node] == s.ownership[topic := node];
  }

  lemma EnlistKeepsAgreement(s: State, node: NodeId, topic: string)
    requires Agree(s) && topic !in s.ownership
    ensures Agree(s.(ownership := s.ownership[topic := node], nodeTopics := Enlist(s.nodeTopics, node, topic)))
  {
    assert forall n :: n in s.nodeTopics ==> topic !in s.nodeTopics[n];
  }

  lemma {:induction false} RunsKeepAgreement(s: State, cmds: seq<Command>)
    requires Agree(s)
    ensures Agree(ApplyAll(s, cmds))
    decreases |cmds|
  {
    if cmds == [] {
    } else {
      ApplyKeepsAgreement(s, cmds[0]);
      RunsKeepAgreement(Apply(s, cmds[0]), cmds[1..]);
    }
  }

  /** In every reachable state a node's list enumerates its topics once each,
      so the ownership half of `validate` cannot fail. */
  lemma ReachableListsAreExact(cmds: seq<Command>, node: NodeId)
    ensures var s := ApplyAll(EMPTY, cmds);
            var listed := if node in s.nodeTopics then s.nodeTopics[node] else [];
            && NoDup(listed)
            && (set t | t in listed) == (set t | t in s.ownership && s.ownership[t] == node)
            && OwnersListed(s) && ListedOwned(s)
  {
    RunsKeepAgreement(EMPTY, cmds);
  }

  // ---------------------------------------------------- topics as registers

  function OwnerOf(s: State, topic: string): Option<NodeId>
  {
    if topic in s.ownership then Some(s.ownership[topic]) else None
  }

  /** What a command means for one topic, with no maps and no index. */
  function Register(owner: Option<NodeId>, cmd: Command, topic: string): Option<NodeId>
  {
    match cmd
    case ClaimTopic(t, node, _) => if t == topic then Some(node) else owner
    case ReleaseTopic(t, node) => if t == topic && owner == Some(node) then None else owner
    case TransferTopic(t, fromNode, toNode) =>
      if t == topic && owner == Some(fromNode) then Some(toNode) else owner
    case _ => owner
  }

  function RegisterAll(owner: Option<NodeId>, cmds: seq<Command>, topic: string): Option<NodeId>
    decreases |cmds|
  {
    if cmds == [] then owner else RegisterAll(Register(owner, cmds[0], topic), cmds[1..], topic)
  }

  lemma CommandActsOnRegister(s: State, cmd: Command, topic: string)
    ensures OwnerOf(Apply(s, cmd), topic) == Register(OwnerOf(s, topic), cmd, topic)
  {
  }

  lemma {:induction false} TopicsAreRegisters(s: State, cmds: seq<Command>, topic: string)
    ensures OwnerOf(ApplyAll(s, cmds), topic) == RegisterAll(OwnerOf(s, topic), cmds, topic)
    decreases |cmds|
  {
    if cmds == [] {
    } else {
      CommandActsOnRegister(s, cmds[0], topic);
      TopicsAreRegisters(Apply(s, cmds[0]), cmds[1..], topic);
    }
  }

  predicate Claims(cmds: seq<Command>, topic: string)
  {
    exists i :: 0 <= i < |cmds| && cmds[i].ClaimTopic? && cmds[i].topic == topic
  }

  /** A claim erases the past: after a log that claims the topic, its owner
      does not depend on where the log started. */
  lemma {:induction false} ClaimErasesPast(a: Option<NodeId>, b: Option<NodeId>, cmds: seq<Command>, topic: string)
    requires Claims(cmds, topic) || a == b
    ensures RegisterAll(a, cmds, topic) == RegisterAll(b, cmds, topic)
    decreases |cmds|
  {
    if cmds == [] {
    } else {
      var a', b' := Register(a, cmds[0], topic), Register(b, cmds[0], topic);
      if a' != b' {
        var i :| 0 <= i < |cmds| && cmds[i].ClaimTopic? && cmds[i].topic == topic;
        assert cmds[1..][i - 1] == cmds[i];
      }
      ClaimErasesPast(a', b', cmds[1..], topic);
    }
  }

  lemma {:induction false} UnclaimedStaysFree(cmds: seq<Command>, topic: string)
    requires !Claims(cmds, topic)
    ensures RegisterAll(None, cmds, topic) == None
    decreases |cmds|
  {
    if cmds == [] {
    } else {
      assert Register(None, cmds[0], topic) == None;
      assert forall i :: 0 <= i < |cmds[1..]| ==> cmds[1..][i] == cmds[i + 1];
      UnclaimedStaysFree(cmds[1..], topic);
    }
  }
}
