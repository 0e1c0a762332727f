/** The lease calls of a cluster node that touch the shared state outside the
    log: the id draw of an acquisition, and the periodic expiry task. */
module ClusterNode {
  import opened Words
  import opened OwnershipModel
  import opened OwnershipMachine
  import opened LeaseTable

  class Node {
    const nodeId: NodeId
    const machine: OwnershipState

    constructor (nodeId: NodeId, machine: OwnershipState)
      ensures this.nodeId == nodeId && this.machine == machine
    {
      this.nodeId, this.machine := nodeId, machine;
    }

    /** Draw an id, propose, wait for the commit, report the key's lease. In
        the meantime the node's other tasks and other commits go on. The
        documentation promises an error when the key is taken; the call in
        fact reports the other holder's lease. */
    method AcquireLease(key: string, ttlSecs: U64, timestamp: U64, meantime: seq<Event>, ghost p: Proposer)
        returns (info: Option<LeaseEntry>)
      requires p.state == machine.View() && TableOk(p) && p.state.nextLeaseId < U64_MAX
      requires ValidRun(Next(p, Draw), meantime)
      requires Enabled(Run(Next(p, Draw), meantime),
                       Commit(OwnershipModel.AcquireLease(key, nodeId, p.state.nextLeaseId, ttlSecs, timestamp)))
      modifies machine
      ensures var q := Run(Next(p, Draw), meantime);
              var id := old(machine.nextLeaseId);
              && machine.View() ==
                   Next(q, Commit(OwnershipModel.AcquireLease(key, nodeId, id, ttlSecs, timestamp))).state
              && info.Some? && info.value.key == key
              && (info.value.id == id <==> !Held(q.state, key, timestamp))
              && (Held(q.state, key, timestamp) ==> info == LiveLease(q.state, key, timestamp))
    {
      var id := machine.NextLeaseId();
      ghost var drawn := Next(p, Draw);
      StepKeepsTable(p, Draw);
      RunsKeepTable(drawn, meantime);
      Meanwhile(meantime, drawn);
      AcquireReportsHolder(Run(drawn, meantime), key, nodeId, id, ttlSecs, timestamp);
      machine.Apply(OwnershipModel.AcquireLease(key, nodeId, id, ttlSecs, timestamp));
      info := if key in machine.keyLeases && machine.keyLeases[key] in machine.leases
              then Some(machine.leases[machine.keyLeases[key]]) else None;
    }

    /** What the other tasks of the node and the log do to the shared state. */
    method Meanwhile(evs: seq<Event>, ghost p: Proposer)
      requires p.state == machine.View()
      modifies machine
      ensures machine.View() == Run(p, evs).state
    {
      ghost var q := p;
      for i := 0 to |evs|
        invariant q.state == machine.View() && Run(q, evs[i..]) == Run(p, evs)
      {
        assert evs[i..][1..] == evs[i + 1..];
        match evs[i] {
          case Draw => var id := machine.NextLeaseId();
          case Commit(cmd) => machine.Apply(cmd);
          case Sweep(now) => var count := machine.ExpireStale(now);
          case LocalAcquire(key, owner, ttlSecs, timestamp) =>
            var r := machine.Acquire(key, owner, ttlSecs, timestamp);
        }
        q := Next(q, evs[i]);
      }
    }

    /** One tick of the background expiry task. */
    method ExpirationTick(now: U64, ghost p: Proposer) returns (expired: nat)
      requires p.state == machine.View() && TableOk(p)
      modifies machine
      ensures machine.View() == Next(p, Sweep(now)).state && TableOk(Next(p, Sweep(now)))
      ensures expired == 0 ==> machine.View() == old(machine.View())
    {
      expired := machine.ExpireStale(now);
      StepKeepsTable(p, Sweep(now));
      if expired == 0 {
        ghost var s := old(machine.View());
        ghost var hit := set i | i in s.leases && s.leases[i].expiresAt <= now;
        assert hit == {};
        assert forall i :: i in s.leases ==> i !in hit;
        assert forall k :: !KeyHasExpired(s, k, now);
        assert Expire(s, now).leases == s.leases && Expire(s, now).keyLeases == s.keyLeases;
      }
    }
  }

  /** Whatever happened between the draw and the commit, the lease reported
      carries the drawn id exactly when the key was free at the timestamp. */
  lemma AcquireReportsHolder(p: Proposer, key: string, owner: NodeId, id: U64, ttlSecs: U64, timestamp: U64)
    requires TableOk(p) && Enabled(p, Commit(OwnershipModel.AcquireLease(key, owner, id, ttlSecs, timestamp)))
    ensures var s' := Next(p, Commit(OwnershipModel.AcquireLease(key, owner, id, ttlSecs, timestamp))).state;
            var info := LeaseInfo(s', key);
            && info.Some? && info.value.key == key
            && (info.value.id == id <==> !Held(p.state, key, timestamp))
            && (Held(p.state, key, timestamp) ==> info == LiveLease(p.state, key, timestamp) && s' == p.state)
  {
  }
}
