/** How long leases last, in nanoseconds and over the integers, and the id
    counter of a replica that draws nothing. */
module LeaseDuration {
  import opened Words
  import opened OwnershipModel
  import opened LeaseTable

  /** The last instant a lease of `ttlSecs` seconds from `t` covers is the one
      before its end, or before the end of representable time. */
  predicate Covers(t: U64, ttlSecs: U64, u: U64)
  {
    u < t + ttlSecs * 1_000_000_000 && u < U64_MAX
  }

  /** A committed acquisition of a free key holds it for exactly its duration,
      for the node that asked. */
  lemma GrantLasts(s: State, key: string, owner: NodeId, id: U64, ttlSecs: U64, t: U64, u: U64)
    requires !Held(s, key, t)
    ensures var s' := Apply(s, AcquireLease(key, owner, id, ttlSecs, t));
            && (Held(s', key, u) <==> Covers(t, ttlSecs, u))
            && (Held(s', key, u) ==>
                  && LiveLease(s', key, u).Some?
                  && var e := LiveLease(s', key, u).value;
                     e.id == id && e.owner == owner && e.key == key && e.acquiredAt == t && e.ttlSecs == ttlSecs)
  {
  }

  /** And so does a local one. */
  lemma LocalGrantLasts(s: State, key: string, owner: NodeId, ttlSecs: U64, t: U64, u: U64)
    requires !Held(s, key, t)
    ensures var s' := AcquireLocally(s, key, owner, ttlSecs, t);
            && (Held(s', key, u) <==> Covers(t, ttlSecs, u))
            && (Held(s', key, u) ==>
                  LiveLease(s', key, u).Some? && LiveLease(s', key, u).value.id == s.nextLeaseId
                  && LiveLease(s', key, u).value.owner == owner)
  {
  }

  /** A renewal is accepted exactly while the lease it names has not run out;
      an accepted one makes the key's lease last for its duration from then. */
  lemma RenewalLasts(s: State, key: string, id: U64, t: U64, u: U64)
    requires PointsTo(s, key, id) && id in s.leases
    ensures var s' := Apply(s, RenewLease(id, t));
            && (Held(s, key, t) ==> (Held(s', key, u) <==> Covers(t, s.leases[id].ttlSecs, u)))
            && (!Held(s, key, t) ==> s' == s)
  {
  }

  /** From grant to renewal: the duration asked for at the grant counts again
      from the renewal, if that came in time. */
  lemma RenewedGrantLasts(s: State, key: string, owner: NodeId, id: U64, ttlSecs: U64, t: U64, again: U64, u: U64)
    requires !Held(s, key, t)
    ensures var s' := Apply(Apply(s, AcquireLease(key, owner, id, ttlSecs, t)), RenewLease(id, again));
            Held(s', key, u) <==> Covers(if Covers(t, ttlSecs, again) then again else t, ttlSecs, u)
  {
    var g := Apply(s, AcquireLease(key, owner, id, ttlSecs, t));
    GrantLasts(s, key, owner, id, ttlSecs, t, again);
    GrantLasts(s, key, owner, id, ttlSecs, t, u);
    assert g.leases[id].ttlSecs == ttlSecs;
    RenewalLasts(g, key, id, again, u);
  }

  /** Whoever asks next for the key gets it exactly when that time is over. */
  lemma NextHolder(s: State, key: string, owner: NodeId, id: U64, ttlSecs: U64, t: U64,
                   other: NodeId, otherId: U64, otherTtl: U64, u: U64)
    requires !Held(s, key, t) && otherId != id
    ensures var s' := Apply(Apply(s, AcquireLease(key, owner, id, ttlSecs, t)),
                            AcquireLease(key, other, otherId, otherTtl, u));
            PointsTo(s', key, otherId) <==> !Covers(t, ttlSecs, u)
  {
    GrantLasts(s, key, owner, id, ttlSecs, t, u);
  }

  /** An expiry pass removes the lease of a key that was free of leftovers
      exactly when its time is over. */
  lemma SweptExactly(s: State, key: string, owner: NodeId, id: U64, ttlSecs: U64, t: U64, now: U64)
    requires !Held(s, key, t) && forall i :: i in s.leases ==> s.leases[i].key != key
    ensures var swept := Expire(Apply(s, AcquireLease(key, owner, id, ttlSecs, t)), now);
            && (key in swept.keyLeases <==> Covers(t, ttlSecs, now))
            && (id in swept.leases <==> Covers(t, ttlSecs, now))
            && (forall i :: i in swept.leases ==> swept.leases[i].expiresAt > now)
  {
    var g := Apply(s, AcquireLease(key, owner, id, ttlSecs, t));
    GrantLasts(s, key, owner, id, ttlSecs, t, now);
    assert g.leases[id].key == key;
    assert KeyHasExpired(g, key, now) <==> g.leases[id].expiresAt <= now;
    forall i | i in Expire(g, now).leases ensures g.leases[i].expiresAt > now {
      assert !KeyHasExpired(g, g.leases[i].key, now);
    }
  }

  // -------------------------------------------------------- the id counter

  /** Command `i` of the log was granted when it was applied. */
  ghost predicate GrantedAt(cmds: seq<Command>, i: nat)
    requires i < |cmds|
  {
    cmds[i].AcquireLease? && !Held(ApplyAll(EMPTY, cmds[..i]), cmds[i].key, cmds[i].timestamp)
  }

  /** `next` is the least number above every id granted. */
  ghost predicate JustAbove(cmds: seq<Command>, next: U64)
  {
    && (forall i :: 0 <= i < |cmds| && GrantedAt(cmds, i) ==> cmds[i].leaseId < next)
    && (next == 0 || exists i :: 0 <= i < |cmds| && GrantedAt(cmds, i) && cmds[i].leaseId + 1 == next)
  }

  lemma SameGrants(cmds: seq<Command>, n: nat)
    requires n <= |cmds|
    ensures forall i :: 0 <= i < n ==> (GrantedAt(cmds[..n], i) <==> GrantedAt(cmds, i))
  {
    forall i | 0 <= i < n ensures GrantedAt(cmds[..n], i) <==> GrantedAt(cmds, i) {
      assert cmds[..n][..i] == cmds[..i];
    }
  }

  lemma JustAboveNext(cmds: seq<Command>, before: U64, after: U64)
    requires cmds != [] && JustAbove(cmds[..|cmds| - 1], before)
    requires !GrantedAt(cmds, |cmds| - 1) ==> after == before
    requires GrantedAt(cmds, |cmds| - 1) ==>
      after > cmds[|cmds| - 1].leaseId && after >= before && (after == before || after == cmds[|cmds| - 1].leaseId + 1)
    ensures JustAbove(cmds, after)
  {
    var n := |cmds| - 1;
    SameGrants(cmds, n);
    if after != before {
      assert GrantedAt(cmds, n);
    } else if after != 0 {
      var i :| 0 <= i < n && GrantedAt(cmds[..n], i) && cmds[..n][i].leaseId + 1 == before;
      assert GrantedAt(cmds, i);
    }
  }

  /** On a replica that draws nothing the counter is the least number above
      every id granted so far, as long as none of them is the last one. */
  lemma {:induction false} CounterFollowsGrants(cmds: seq<Command>)
    requires forall i :: 0 <= i < |cmds| && GrantedAt(cmds, i) ==> cmds[i].leaseId < U64_MAX
    ensures JustAbove(cmds, ApplyAll(EMPTY, cmds).nextLeaseId)
    decreases |cmds|
  {
    if cmds == [] {
    } else {
      var n := |cmds| - 1;
      SameGrants(cmds, n);
      CounterFollowsGrants(cmds[..n]);
      LastApplied(cmds);
      CounterStep(ApplyAll(EMPTY, cmds[..n]), cmds[n]);
      JustAboveNext(cmds, ApplyAll(EMPTY, cmds[..n]).nextLeaseId, ApplyAll(EMPTY, cmds).nextLeaseId);
    }
  }

  lemma LastApplied(cmds: seq<Command>)
    requires cmds != []
    ensures ApplyAll(EMPTY, cmds) == Apply(ApplyAll(EMPTY, cmds[..|cmds| - 1]), cmds[|cmds| - 1])
  {
    var n := |cmds| - 1;
    assert cmds == cmds[..n] + [cmds[n]] && [cmds[n]][1..] == [];
    ApplyAllConcat(EMPTY, cmds[..n], [cmds[n]]);
    assert ApplyAll(ApplyAll(EMPTY, cmds[..n]), [cmds[n]]) == ApplyAll(Apply(ApplyAll(EMPTY, cmds[..n]), cmds[n]), []);
  }

  lemma CounterStep(s: State, cmd: Command)
    ensures var granted := cmd.AcquireLease? && !Held(s, cmd.key, cmd.timestamp);
            && (!granted ==> Apply(s, cmd).nextLeaseId == s.nextLeaseId)
            && (granted && cmd.leaseId < U64_MAX ==>
                  && Apply(s, cmd).nextLeaseId > cmd.leaseId && Apply(s, cmd).nextLeaseId >= s.nextLeaseId
                  && (Apply(s, cmd).nextLeaseId == s.nextLeaseId || Apply(s, cmd).nextLeaseId == cmd.leaseId + 1))
  {
  }

  /** The last id throws the counter back to the first. */
  lemma LastIdResetsCounter(s: State, key: string, owner: NodeId, ttlSecs: U64, t: U64)
    requires !Held(s, key, t)
    ensures Apply(s, AcquireLease(key, owner, U64_MAX, ttlSecs, t)).nextLeaseId == 0
  {
  }
}
