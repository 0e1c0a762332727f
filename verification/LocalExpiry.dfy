/** Expiry sweeps run on one replica, outside the log. This module says when
    the other replicas cannot tell. */
module LocalExpiry {
  import opened Words
  import opened OwnershipModel
  import opened OwnershipMachine
  import opened LeaseTable

  /** Acquire, renew and release commands stamped at or after `now`, in any
      order, acquiring under ids not used before. */
  ghost predicate Admissible(cmds: seq<Command>, now: U64, used: set<U64>)
    decreases |cmds|
  {
    cmds == [] ||
    match cmds[0]
    case AcquireLease(_, _, id, _, timestamp) =>
      timestamp >= now && id !in used && Admissible(cmds[1..], now, used + {id})
    case RenewLease(_, timestamp) => timestamp >= now && Admissible(cmds[1..], now, used)
    case ReleaseLease(_) => Admissible(cmds[1..], now, used)
    case _ => false
  }

  predicate Granted(s: State, cmd: Command)
  {
    cmd.AcquireLease? && !Held(s, cmd.key, cmd.timestamp)
  }

  function Grants(s: State, cmds: seq<Command>): seq<bool>
    decreases |cmds|
  {
    if cmds == [] then [] else [Granted(s, cmds[0])] + Grants(Apply(s, cmds[0]), cmds[1..])
  }

  ghost predicate Indistinguishable(s: State, e: State, cmds: seq<Command>, now: U64)
  {
    && Grants(s, cmds) == Grants(e, cmds)
    && forall k, t: U64 :: t >= now ==> LiveLease(ApplyAll(s, cmds), k, t) == LiveLease(ApplyAll(e, cmds), k, t)
  }

  /** No later acquire, renew or release can tell a replica that swept at
      `now` from one that did not. */
  ghost predicate SweepInvisible(s: State, now: U64)
  {
    forall cmds :: Admissible(cmds, now, s.leases.Keys) ==> Indistinguishable(s, Expire(s, now), cmds, now)
  }

  function AliveEntry(s: State, id: U64, now: U64): Option<LeaseEntry>
  {
    if id in s.leases && s.leases[id].expiresAt > now then Some(s.leases[id]) else None
  }

  function HeldId(s: State, key: string, now: U64): Option<U64>
  {
    if Held(s, key, now) then Some(s.keyLeases[key]) else None
  }

  /** The two replicas differ at most in entries that have run out. */
  ghost predicate Twins(s: State, e: State, now: U64, used: set<U64>)
  {
    && PointersOk(s) && PointersOk(e)
    && s.leases.Keys <= used && e.leases.Keys <= used
    && (forall id :: AliveEntry(s, id, now) == AliveEntry(e, id, now))
    && (forall k :: HeldId(s, k, now) == HeldId(e, k, now))
  }

  lemma TwinsLookAlike(s: State, e: State, now: U64, used: set<U64>, key: string, t: U64)
    requires Twins(s, e, now, used) && t >= now
    ensures LiveLease(s, key, t) == LiveLease(e, key, t)
  {
    assert HeldId(s, key, now) == HeldId(e, key, now);
    if Held(s, key, now) {
      assert AliveEntry(s, s.keyLeases[key], now) == AliveEntry(e, s.keyLeases[key], now);
    }
  }

  lemma GrantKeepsTwins(s: State, e: State, s': State, e': State, now: U64, used: set<U64>, id: U64, l: LeaseEntry)
    requires Twins(s, e, now, used) && id !in used
    requires s'.leases == s.leases[id := l] && s'.keyLeases == s.keyLeases[l.key := id]
    requires e'.leases == e.leases[id := l] && e'.keyLeases == e.keyLeases[l.key := id]
    ensures Twins(s', e', now, used + {id})
  {
    forall i ensures AliveEntry(s', i, now) == AliveEntry(e', i, now) {
      assert AliveEntry(s, i, now) == AliveEntry(e, i, now);
    }
    forall k ensures HeldId(s', k, now) == HeldId(e', k, now) {
      assert HeldId(s, k, now) == HeldId(e, k, now);
    }
  }

  lemma Granting(s: State, cmd: Command) returns (l: LeaseEntry)
    requires Granted(s, cmd)
    ensures l.key == cmd.key
    ensures l == LeaseEntry(cmd.leaseId, cmd.key, cmd.owner, cmd.timestamp, cmd.ttlSecs,
                            Expiry(cmd.timestamp, cmd.ttlSecs))
    ensures Apply(s, cmd).leases == s.leases[cmd.leaseId := l]
    ensures Apply(s, cmd).keyLeases == s.keyLeases[cmd.key := cmd.leaseId]
  {
    l := Apply(s, cmd).leases[cmd.leaseId];
  }

  lemma AcquireKeepsTwins(s: State, e: State, now: U64, used: set<U64>, cmd: Command)
    requires Twins(s, e, now, used) && cmd.AcquireLease? && cmd.timestamp >= now && cmd.leaseId !in used
    ensures Granted(s, cmd) == Granted(e, cmd)
    ensures Twins(Apply(s, cmd), Apply(e, cmd), now, used + {cmd.leaseId})
  {
    TwinsLookAlike(s, e, now, used, cmd.key, cmd.timestamp);
    if Granted(s, cmd) {
      var l := Granting(s, cmd);
      var l' := Granting(e, cmd);
      GrantKeepsTwins(s, e, Apply(s, cmd), Apply(e, cmd), now, used, cmd.leaseId, l);
    } else {
      assert Apply(s, cmd) == s && Apply(e, cmd) == e;
    }
  }

  /** The same change to an entry alive in both replicas. */
  lemma UpdateKeepsTwins(s: State, e: State, now: U64, used: set<U64>, id: U64, l: LeaseEntry)
    requires Twins(s, e, now, used) && AliveEntry(s, id, now).Some? && AliveEntry(e, id, now).Some?
    requires l.key == s.leases[id].key == e.leases[id].key
    ensures Twins(s.(leases := s.leases[id := l]), e.(leases := e.leases[id := l]), now, used)
  {
    var s', e' := s.(leases := s.leases[id := l]), e.(leases := e.leases[id := l]);
    forall i ensures AliveEntry(s', i, now) == AliveEntry(e', i, now) {
      assert AliveEntry(s, i, now) == AliveEntry(e, i, now);
    }
    forall k ensures HeldId(s', k, now) == HeldId(e', k, now) {
      assert HeldId(s, k, now) == HeldId(e, k, now);
    }
  }

  lemma RenewKeepsTwins(s: State, e: State, now: U64, used: set<U64>, cmd: Command)
    requires Twins(s, e, now, used) && cmd.RenewLease? && cmd.timestamp >= now
    ensures Twins(Apply(s, cmd), Apply(e, cmd), now, used)
  {
    var id := cmd.leaseId;
    assert AliveEntry(s, id, now) == AliveEntry(e, id, now);
    if id in s.leases && s.leases[id].expiresAt > cmd.timestamp {
      assert s.leases[id] == e.leases[id];
      UpdateKeepsTwins(s, e, now, used, id, s.leases[id].(expiresAt := Expiry(cmd.timestamp, s.leases[id].ttlSecs)));
    } else {
      assert Apply(s, cmd) == s && Apply(e, cmd) == e;
    }
  }

  /** What a release takes out of one replica. */
  lemma ReleaseView(s: State, key: string, now: U64)
    requires PointersOk(s)
    ensures PointersOk(Apply(s, ReleaseLease(key))) && Apply(s, ReleaseLease(key)).leases.Keys <= s.leases.Keys
    ensures forall i: U64 ::
      AliveEntry(Apply(s, ReleaseLease(key)), i, now) ==
        if HeldId(s, key, now) == Some(i) then None else AliveEntry(s, i, now)
    ensures forall k :: HeldId(Apply(s, ReleaseLease(key)), k, now) == if k == key then None else HeldId(s, k, now)
  {
  }

  lemma ReleaseKeepsTwins(s: State, e: State, now: U64, used: set<U64>, key: string)
    requires Twins(s, e, now, used)
    ensures Twins(Apply(s, ReleaseLease(key)), Apply(e, ReleaseLease(key)), now, used)
  {
    ReleaseView(s, key, now);
    ReleaseView(e, key, now);
    assert HeldId(s, key, now) == HeldId(e, key, now);
  }

  lemma {:induction false} TwinsStayTwins(s: State, e: State, now: U64, used: set<U64>, cmds: seq<Command>)
    requires Twins(s, e, now, used) && Admissible(cmds, now, used)
    ensures Indistinguishable(s, e, cmds, now)
    decreases |cmds|
  {
    if cmds == [] {
      forall k, t: U64 | t >= now ensures LiveLease(s, k, t) == LiveLease(e, k, t) {
        TwinsLookAlike(s, e, now, used, k, t);
      }
    } else {
      var cmd := cmds[0];
      var used' := if cmd.AcquireLease? then used + {cmd.leaseId} else used;
      match cmd {
        case AcquireLease(_, _, _, _, _) => AcquireKeepsTwins(s, e, now, used, cmd);
        case RenewLease(_, _) => RenewKeepsTwins(s, e, now, used, cmd);
        case ReleaseLease(key) => ReleaseKeepsTwins(s, e, now, used, key);
      }
      TwinsStayTwins(Apply(s, cmd), Apply(e, cmd), now, used', cmds[1..]);
    }
  }

  /** A local sweep is invisible to every later acquire, renew and release
      exactly when no live lease shares its key with an entry that has run
      out. */
  lemma SweepInvisibleExactly(s: State, now: U64)
    requires PointersOk(s) && LiveTracked(s, now)
    ensures SweepInvisible(s, now) <==> forall k :: Held(s, k, now) ==> !KeyHasExpired(s, k, now)
  {
    var e := Expire(s, now);
    if forall k :: Held(s, k, now) ==> !KeyHasExpired(s, k, now) {
      SweptIsTwin(s, now);
      forall cmds | Admissible(cmds, now, s.leases.Keys) ensures Indistinguishable(s, e, cmds, now) {
        TwinsStayTwins(s, e, now, s.leases.Keys, cmds);
      }
    } else {
      var k :| Held(s, k, now) && KeyHasExpired(s, k, now);
      assert LiveLease(ApplyAll(s, []), k, now) != LiveLease(ApplyAll(e, []), k, now);
      assert Admissible([], now, s.leases.Keys) && !Indistinguishable(s, e, [], now);
    }
  }

  lemma SweptIsTwin(s: State, now: U64)
    requires PointersOk(s) && LiveTracked(s, now)
    requires forall k :: Held(s, k, now) ==> !KeyHasExpired(s, k, now)
    ensures Twins(s, Expire(s, now), now, s.leases.Keys)
  {
    var e := Expire(s, now);
    forall k ensures HeldId(s, k, now) == HeldId(e, k, now) {
      if k in s.keyLeases && s.leases[s.keyLeases[k]].expiresAt <= now {
        assert KeyHasExpired(s, k, now);
      }
    }
    forall id ensures AliveEntry(s, id, now) == AliveEntry(e, id, now) {
      if id in s.leases && s.leases[id].expiresAt > now {
        assert Tracked(s, id);
        assert Held(s, s.leases[id].key, now);
      }
    }
  }
}
