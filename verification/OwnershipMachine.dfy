/** The state machine object: fields updated in place, proved against
    `OwnershipModel`. */
module OwnershipMachine {
  import opened Words
  import opened OwnershipModel

  datatype AcquireResult = Acquired(id: U64) | LeaseHeld(key: string, owner: NodeId)

  datatype ValidationResult =
    | Valid
    | OrphanedKeyLease
    | LeaseIdInconsistency
    | DanglingLease
    | InvalidLeaseExpiration
    | Custom

  // The clauses `validate` checks, in its order.

  ghost predicate PointersStored(s: State)
  {
    forall k :: k in s.keyLeases ==> s.keyLeases[k] in s.leases
  }

  ghost predicate Tracked(s: State, id: U64)
    requires id in s.leases
  {
    s.leases[id].key in s.keyLeases && s.keyLeases[s.leases[id].key] == id
  }

  ghost predicate HasDangling(s: State)
  {
    exists id :: id in s.leases && s.leases[id].key !in s.keyLeases
  }

  ghost predicate HasInconsistent(s: State)
  {
    exists id :: id in s.leases && s.leases[id].key in s.keyLeases && s.keyLeases[s.leases[id].key] != id
  }

  ghost predicate LeasesTracked(s: State)
  {
    forall id :: id in s.leases ==> Tracked(s, id)
  }

  ghost predicate ExpiriesFromGrant(s: State)
  {
    forall id :: id in s.leases ==> s.leases[id].expiresAt == Expiry(s.leases[id].acquiredAt, s.leases[id].ttlSecs)
  }

  ghost predicate OwnersListed(s: State)
  {
    forall t :: t in s.ownership ==> s.ownership[t] in s.nodeTopics && t in s.nodeTopics[s.ownership[t]]
  }

  ghost predicate ListedOwned(s: State)
  {
    forall n, t :: n in s.nodeTopics && t in s.nodeTopics[n] ==> t in s.ownership && s.ownership[t] == n
  }

  // The tables once the listed keys have been removed.

  function WithoutKeys(leases: map<U64, LeaseEntry>, keys: seq<string>): map<U64, LeaseEntry>
  {
    map id | id in leases && leases[id].key !in keys :: leases[id]
  }

  function Unlinked(keyLeases: map<string, U64>, keys: seq<string>): map<string, U64>
  {
    map k | k in keyLeases && k !in keys :: keyLeases[k]
  }

  lemma RemoveNext(leases: map<U64, LeaseEntry>, keyLeases: map<string, U64>, keys: seq<string>, i: nat)
    requires i < |keys|
    ensures WithoutKeys(leases, keys[..i + 1]) ==
      map id | id in WithoutKeys(leases, keys[..i]) && leases[id].key != keys[i] :: leases[id]
    ensures Unlinked(keyLeases, keys[..i + 1]) == Unlinked(keyLeases, keys[..i]) - {keys[i]}
  {
    assert keys[..i + 1] == keys[..i] + [keys[i]];
  }

  lemma RemovalIsExpiry(s: State, keys: seq<string>, now: U64)
    requires forall k :: k in keys <==> KeyHasExpired(s, k, now)
    ensures WithoutKeys(s.leases, keys) == Expire(s, now).leases
    ensures Unlinked(s.keyLeases, keys) == Expire(s, now).keyLeases
  {
  }

  class OwnershipState {
    var ownership: map<string, NodeId>
    var nodeTopics: map<NodeId, seq<string>>
    var leases: map<U64, LeaseEntry>
    var keyLeases: map<string, U64>
    var nextLeaseId: U64

    constructor ()
      ensures View() == EMPTY
    {
      ownership, nodeTopics, leases, keyLeases, nextLeaseId := map[], map[], map[], map[], 0;
    }

    function View(): State
      reads this
    {
      State(ownership, nodeTopics, leases, keyLeases, nextLeaseId)
    }

    method Restore(s: State)
      modifies this
      ensures View() == s
    {
      ownership, nodeTopics, leases, keyLeases, nextLeaseId :=
        s.ownership, s.nodeTopics, s.leases, s.keyLeases, s.nextLeaseId;
    }

    method Apply(cmd: Command)
      modifies this
      ensures View() == OwnershipModel.Apply(old(View()), cmd)
    {
      match cmd {
        case ClaimTopic(topic, node, _) =>
          if topic in ownership {
            Forget(ownership[topic], topic);
          }
          ownership := ownership[topic := node];
          Record(node, topic);
        case ReleaseTopic(topic, node) =>
          if topic in ownership && ownership[topic] == node {
            ownership := ownership - {topic};
            Forget(node, topic);
          }
        case TransferTopic(topic, fromNode, toNode) =>
          if topic in ownership && ownership[topic] == fromNode {
            ownership := ownership[topic := toNode];
            Forget(fromNode, topic);
            Record(toNode, topic);
          }
        case AcquireLease(key, owner, id, ttlSecs, timestamp) =>
          if key in keyLeases && keyLeases[key] in leases && leases[keyLeases[key]].expiresAt > timestamp {
            return;
          }
          leases := leases[id := LeaseEntry(id, key, owner, timestamp, ttlSecs, Expiry(timestamp, ttlSecs))];
          keyLeases := keyLeases[key := id];
          if id >= nextLeaseId {
            nextLeaseId := WrapAdd(id, 1);
          }
        case RenewLease(id, timestamp) =>
          if id in leases && leases[id].expiresAt > timestamp {
            leases := leases[id := leases[id].(expiresAt := Expiry(timestamp, leases[id].ttlSecs))];
          }
        case ReleaseLease(key) =>
          if key in keyLeases {
            var id := keyLeases[key];
            keyLeases := keyLeases - {key};
            leases := leases - {id};
          }
        case ExpireLeases(now) =>
          var _ := ExpireStale(now);
      }
    }

    method Forget(node: NodeId, topic: string)
      modifies this`nodeTopics
      ensures nodeTopics == Unlist(old(nodeTopics), node, topic)
    {
      if node in nodeTopics {
        nodeTopics := nodeTopics[node := Retain(nodeTopics[node], topic)];
      }
    }

    method Record(node: NodeId, topic: string)
      modifies this`nodeTopics
      ensures nodeTopics == Enlist(old(nodeTopics), node, topic)
    {
      if node !in nodeTopics {
        nodeTopics := nodeTopics[node := []];
      }
      nodeTopics := nodeTopics[node := nodeTopics[node] + [topic]];
    }

    /** The keys of the entries that have run out, in whatever order the map
        yields them; a key appears once per such entry. */
    method ExpiredKeys(now: U64) returns (keys: seq<string>)
      ensures forall k :: k in keys <==> KeyHasExpired(View(), k, now)
      ensures |keys| == |set id | id in leases && leases[id].expiresAt <= now|
    {
      keys := [];
      var todo := leases.Keys;
      ghost var hit: set<U64> := {};
      while todo != {}
        invariant todo <= leases.Keys
        invariant hit == set id | id in leases && id !in todo && leases[id].expiresAt <= now
        invariant |keys| == |hit|
        invariant forall k :: k in keys <==> exists id :: id in hit && leases[id].key == k
        decreases todo
      {
        var id :| id in todo;
        todo := todo - {id};
        if leases[id].expiresAt <= now {
          keys := keys + [leases[id].key];
          assert id !in hit;
          hit := hit + {id};
        }
      }
      assert hit == set id | id in leases && leases[id].expiresAt <= now;
    }

    /** The expiry loop: one removal per collected key. */
    method ExpireStale(now: U64) returns (count: nat)
      modifies this`leases, this`keyLeases
      ensures View() == Expire(old(View()), now)
      ensures count == |set id | id in old(leases) && old(leases)[id].expiresAt <= now|
    {
      var keys := ExpiredKeys(now);
      count := |keys|;
      for i := 0 to |keys|
        invariant leases == WithoutKeys(old(leases), keys[..i])
        invariant keyLeases == Unlinked(old(keyLeases), keys[..i])
      {
        RemoveNext(old(leases), old(keyLeases), keys, i);
        keyLeases := keyLeases - {keys[i]};
        leases := map id | id in leases && leases[id].key != keys[i] :: leases[id];
      }
      assert keys[..|keys|] == keys;
      RemovalIsExpiry(old(View()), keys, now);
    }

    method NextLeaseId() returns (id: U64)
      modifies this`nextLeaseId
      ensures id == old(nextLeaseId) && nextLeaseId == WrapAdd(id, 1)
    {
      id := nextLeaseId;
      nextLeaseId := WrapAdd(nextLeaseId, 1);
    }

    method Acquire(key: string, owner: NodeId, ttlSecs: U64, timestamp: U64) returns (r: AcquireResult)
      modifies this
      ensures r.LeaseHeld? <==> Held(old(View()), key, timestamp)
      ensures r.LeaseHeld? ==> View() == old(View()) && r == LeaseHeld(key, leases[keyLeases[key]].owner)
      ensures r.Acquired? ==> r.id == old(nextLeaseId)
      ensures r.Acquired? ==>
        View() == Grant(old(View()), key, owner, r.id, ttlSecs, timestamp).(nextLeaseId := WrapAdd(r.id, 1))
      ensures r.Acquired? ==>
        forall u: U64 :: Held(View(), key, u) <==> u < timestamp + ttlSecs * 1_000_000_000 && u < U64_MAX
    {
      if key in keyLeases && keyLeases[key] in leases && leases[keyLeases[key]].expiresAt > timestamp {
        return LeaseHeld(key, leases[keyLeases[key]].owner);
      }
      var id := NextLeaseId();
      leases := leases[id := LeaseEntry(id, key, owner, timestamp, ttlSecs, Expiry(timestamp, ttlSecs))];
      keyLeases := keyLeases[key := id];
      r := Acquired(id);
    }

    /** `validate`: the first clause that fails decides the answer. With both
        dangling and inconsistent leases stored, either may be met first. */
    method Validate() returns (r: ValidationResult)
      ensures r.OrphanedKeyLease? <==> !PointersStored(View())
      ensures r.LeaseIdInconsistency? || r.DanglingLease? <==> PointersStored(View()) && !LeasesTracked(View())
      ensures r.DanglingLease? ==> HasDangling(View())
      ensures r.LeaseIdInconsistency? ==> HasInconsistent(View())
      ensures PointersStored(View()) && HasDangling(View()) && !HasInconsistent(View()) ==> r.DanglingLease?
      ensures PointersStored(View()) && HasInconsistent(View()) && !HasDangling(View()) ==> r.LeaseIdInconsistency?
      ensures r.InvalidLeaseExpiration? <==>
        PointersStored(View()) && LeasesTracked(View()) && !ExpiriesFromGrant(View())
      ensures r.Custom? <==>
        && PointersStored(View()) && LeasesTracked(View()) && ExpiriesFromGrant(View())
        && !(OwnersListed(View()) && ListedOwned(View()))
    {
      r := ValidateLeases();
      if r.Valid? {
        r := ValidateTopics();
      }
    }

    method ValidateLeases() returns (r: ValidationResult)
      ensures !r.Custom?
      ensures r.OrphanedKeyLease? <==> !PointersStored(View())
      ensures r.LeaseIdInconsistency? || r.DanglingLease? <==> PointersStored(View()) && !LeasesTracked(View())
      ensures r.DanglingLease? ==> HasDangling(View())
      ensures r.LeaseIdInconsistency? ==> HasInconsistent(View())
      ensures PointersStored(View()) && HasDangling(View()) && !HasInconsistent(View()) ==> r.DanglingLease?
      ensures PointersStored(View()) && HasInconsistent(View()) && !HasDangling(View()) ==> r.LeaseIdInconsistency?
      ensures r.InvalidLeaseExpiration? <==>
        PointersStored(View()) && LeasesTracked(View()) && !ExpiriesFromGrant(View())
    {
      var keys := keyLeases.Keys;
      while keys != {}
        invariant keys <= keyLeases.Keys
        invariant forall k :: k in keyLeases && k !in keys ==> keyLeases[k] in leases
      {
        var k :| k in keys;
        if keyLeases[k] !in leases { return OrphanedKeyLease; }
        keys := keys - {k};
      }
      var ids := leases.Keys;
      while ids != {}
        invariant ids <= leases.Keys
        invariant forall id :: id in leases && id !in ids ==> Tracked(View(), id)
      {
        var id :| id in ids;
        if leases[id].key in keyLeases {
          if keyLeases[leases[id].key] != id {
            assert !Tracked(View(), id) && HasInconsistent(View());
            return LeaseIdInconsistency;
          }
        } else {
          assert !Tracked(View(), id) && HasDangling(View());
          return DanglingLease;
        }
        ids := ids - {id};
      }
      ids := leases.Keys;
      while ids != {}
        invariant ids <= leases.Keys
        invariant forall id :: id in leases && id !in ids ==>
          leases[id].expiresAt == Expiry(leases[id].acquiredAt, leases[id].ttlSecs)
      {
        var id :| id in ids;
        if leases[id].expiresAt != Expiry(leases[id].acquiredAt, leases[id].ttlSecs) {
          return InvalidLeaseExpiration;
        }
        ids := ids - {id};
      }
      r := Valid;
    }

    method ValidateTopics() returns (r: ValidationResult)
      ensures r.Valid? || r.Custom?
      ensures r.Valid? <==> OwnersListed(View()) && ListedOwned(View())
    {
      var topics := ownership.Keys;
      while topics != {}
        invariant topics <= ownership.Keys
        invariant forall t :: t in ownership && t !in topics ==>
          ownership[t] in nodeTopics && t in nodeTopics[ownership[t]]
      {
        var t :| t in topics;
        if ownership[t] !in nodeTopics || t !in nodeTopics[ownership[t]] { return Custom; }
        topics := topics - {t};
      }
      var nodes := nodeTopics.Keys;
      while nodes != {}
        invariant nodes <= nodeTopics.Keys
        invariant forall n, t :: n in nodeTopics && n !in nodes && t in nodeTopics[n] ==>
          t in ownership && ownership[t] == n
      {
        var n :| n in nodes;
        var listed := nodeTopics[n];
        for i := 0 to |listed|
          invariant forall t :: t in listed[..i] ==> t in ownership && ownership[t] == n
        {
          if listed[i] !in ownership || ownership[listed[i]] != n {
            assert listed[i] in nodeTopics[n];
            return Custom;
          }
        }
        assert listed[..|listed|] == listed;
        nodes := nodes - {n};
      }
      r := Valid;
    }
  }
}
