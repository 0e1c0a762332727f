/** Heartbeat failure detection: the peer table, the periodic check, and the
    event stream it emits. */
module FailureDetector {
  import opened Words

  type NodeId = U64

  datatype Peer = Peer(lastHeartbeat: nat, addr: string, failed: bool)

  datatype Kind = Failed | Recovered

  datatype MemberEvent = MemberEvent(node: NodeId, kind: Kind, at: nat)

  type Peers = map<NodeId, Peer>

  /** `Instant::duration_since` clamps at zero. */
  function Elapsed(now: nat, then_: nat): nat
  {
    if now < then_ then 0 else now - then_
  }

  function Silent(p: Peer, now: nat, timeout: nat): bool
  {
    Elapsed(now, p.lastHeartbeat) > timeout
  }

  /** One check of one peer: its new flag, and an event when the flag changes. */
  function Checked(p: Peer, now: nat, timeout: nat): Peer
  {
    p.(failed := Silent(p, now, timeout))
  }

  function Announce(n: NodeId, p: Peer, now: nat, timeout: nat): seq<MemberEvent>
  {
    if Silent(p, now, timeout) == p.failed then []
    else [MemberEvent(n, if p.failed then Recovered else Failed, now)]
  }

  function Of(events: seq<MemberEvent>, node: NodeId): seq<MemberEvent>
    decreases |events|
  {
    if events == [] then [] else
      var last := events[|events| - 1];
      Of(events[..|events| - 1], node) + if last.node == node then [last] else []
  }

  lemma {:induction false} OfConcat(a: seq<MemberEvent>, b: seq<MemberEvent>, node: NodeId)
    ensures Of(a + b, node) == Of(a, node) + Of(b, node)
    decreases |b|
  {
    if b == [] {
      assert a + b == a;
    } else {
      var n := |b| - 1;
      assert (a + b)[..|a + b| - 1] == a + b[..n];
      OfConcat(a, b[..n], node);
    }
  }

  /** A check pass emitted `out`: per peer, what that peer's own check says. */
  ghost predicate PassEmits(peers: Peers, now: nat, timeout: nat, out: seq<MemberEvent>)
  {
    forall n: NodeId :: Of(out, n) == if n in peers then Announce(n, peers[n], now, timeout) else []
  }

  class Detector {
    const timeout: nat
    var peers: Peers
    // Everything sent on the membership channel.
    var events: seq<MemberEvent>

    constructor (timeout: nat)
      ensures this.timeout == timeout && peers == map[] && events == []
    {
      this.timeout := timeout;
      peers, events := map[], [];
    }

    method AddPeer(node: NodeId, addr: string, now: nat)
      modifies this`peers
      ensures peers == old(peers)[node := Peer(now, addr, false)]
    {
      peers := peers[node := Peer(now, addr, false)];
    }

    method RemovePeer(node: NodeId)
      modifies this`peers
      ensures peers == old(peers) - {node}
    {
      peers := peers - {node};
    }

    method RecordHeartbeat(node: NodeId, now: nat)
      modifies this`peers
      ensures peers == if node in old(peers)
                       then old(peers)[node := old(peers)[node].(lastHeartbeat := now)] else old(peers)
    {
      if node in peers {
        peers := peers[node := peers[node].(lastHeartbeat := now)];
      }
    }

    /** Visit the peers in whatever order the table yields them. */
    method CheckFailures(now: nat) returns (ghost out: seq<MemberEvent>)
      modifies this
      ensures peers == map n | n in old(peers) :: Checked(old(peers)[n], now, timeout)
      ensures events == old(events) + out && PassEmits(old(peers), now, timeout, out)
    {
      ghost var order := VisitAll(now);
      out := EmitAll(old(peers), order, now, timeout);
      WholePass(old(peers), order, now, timeout);
      AllChecked(old(peers), order, now, timeout);
    }

    method VisitAll(now: nat) returns (ghost order: seq<NodeId>)
      modifies this
      ensures Visiting(old(peers), {}, order)
      ensures peers == CheckedOn(old(peers), order, now, timeout)
      ensures events == old(events) + EmitAll(old(peers), order, now, timeout)
    {
      ghost var before := peers;
      order := [];
      var todo := peers.Keys;
      while todo != {}
        invariant Visiting(before, todo, order)
        invariant peers == CheckedOn(before, order, now, timeout)
        invariant events == old(events) + EmitAll(before, order, now, timeout)
        decreases todo
      {
        var n :| n in todo;
        VisitingNext(before, todo, order, n);
        VisitNext(before, order, n, old(events), now, timeout);
        CheckPeer(n, now);
        todo, order := todo - {n}, Visit(order, n);
      }
    }

    method CheckPeer(n: NodeId, now: nat)
      requires n in peers
      modifies this
      ensures peers == old(peers)[n := Checked(old(peers)[n], now, timeout)]
      ensures events == old(events) + Announce(n, old(peers)[n], now, timeout)
    {
      var p := peers[n];
      if Elapsed(now, p.lastHeartbeat) > timeout {
        if !p.failed {
          peers := peers[n := p.(failed := true)];
          events := events + [MemberEvent(n, Failed, now)];
        }
      } else if p.failed {
        peers := peers[n := p.(failed := false)];
        events := events + [MemberEvent(n, Recovered, now)];
      }
    }
  }

  function Visit(order: seq<NodeId>, n: NodeId): seq<NodeId>
  {
    order + [n]
  }

  /** Every peer is either still to do or has been visited, once. */
  ghost predicate Visiting(peers: Peers, todo: set<NodeId>, order: seq<NodeId>)
  {
    && NoDup(order)
    && (forall n :: n in todo ==> n in peers && n !in order)
    && (forall n :: n in order ==> n in peers)
    && (forall n :: n in peers ==> n in todo || n in order)
  }

  lemma VisitingNext(peers: Peers, todo: set<NodeId>, order: seq<NodeId>, n: NodeId)
    requires Visiting(peers, todo, order) && n in todo
    ensures Visiting(peers, todo - {n}, Visit(order, n))
  {
  }

  /** The table after the peers in `order` have been checked. */
  function CheckedOn(peers: Peers, order: seq<NodeId>, now: nat, timeout: nat): (r: Peers)
  {
    map n | n in peers :: if n in order then Checked(peers[n], now, timeout) else peers[n]
  }

  /** The events of a pass that visits the peers in `order`. */
  function EmitAll(peers: Peers, order: seq<NodeId>, now: nat, timeout: nat): seq<MemberEvent>
    decreases |order|
  {
    if order == [] then [] else
      var n := order[|order| - 1];
      EmitAll(peers, order[..|order| - 1], now, timeout)
        + if n in peers then Announce(n, peers[n], now, timeout) else []
  }

  lemma VisitNext(peers: Peers, order: seq<NodeId>, n: NodeId, start: seq<MemberEvent>, now: nat, timeout: nat)
    requires n in peers && n !in order
    ensures CheckedOn(peers, order, now, timeout)[n] == peers[n]
    ensures CheckedOn(peers, Visit(order, n), now, timeout) ==
      CheckedOn(peers, order, now, timeout)[n := Checked(peers[n], now, timeout)]
    ensures start + EmitAll(peers, Visit(order, n), now, timeout) ==
      start + EmitAll(peers, order, now, timeout) + Announce(n, peers[n], now, timeout)
  {
    assert Visit(order, n)[..|order|] == order;
  }

  /** Adding the events of one more peer to those about `m`. */
  lemma EmitOneMore(peers: Peers, order: seq<NodeId>, now: nat, timeout: nat, m: NodeId)
    requires order != [] && order[|order| - 1] in peers
    ensures var k := |order| - 1;
            Of(EmitAll(peers, order, now, timeout), m) ==
              Of(EmitAll(peers, order[..k], now, timeout), m)
                + if m == order[k] then Announce(m, peers[m], now, timeout) else []
  {
    var n := order[|order| - 1];
    OfConcat(EmitAll(peers, order[..|order| - 1], now, timeout), Announce(n, peers[n], now, timeout), m);
    OfSingle(Announce(n, peers[n], now, timeout), n, m);
  }

  lemma {:induction false} EmittedNothing(peers: Peers, order: seq<NodeId>, now: nat, timeout: nat, m: NodeId)
    requires forall i :: 0 <= i < |order| ==> order[i] in peers && order[i] != m
    ensures Of(EmitAll(peers, order, now, timeout), m) == []
    decreases |order|
  {
    if order == [] {
    } else {
      EmittedNothing(peers, order[..|order| - 1], now, timeout, m);
      EmitOneMore(peers, order, now, timeout, m);
    }
  }

  lemma {:induction false} EmittedOnce(peers: Peers, order: seq<NodeId>, now: nat, timeout: nat, k: nat)
    requires NoDup(order) && k < |order| && forall i :: 0 <= i < |order| ==> order[i] in peers
    ensures Of(EmitAll(peers, order, now, timeout), order[k]) == Announce(order[k], peers[order[k]], now, timeout)
    decreases |order|
  {
    var n := |order| - 1;
    EmitOneMore(peers, order, now, timeout, order[k]);
    if k == n {
      EmittedNothing(peers, order[..n], now, timeout, order[k]);
    } else {
      EmittedOnce(peers, order[..n], now, timeout, k);
    }
  }

  lemma WholePass(peers: Peers, order: seq<NodeId>, now: nat, timeout: nat)
    requires Visiting(peers, {}, order)
    ensures PassEmits(peers, now, timeout, EmitAll(peers, order, now, timeout))
  {
    forall n: NodeId
      ensures Of(EmitAll(peers, order, now, timeout), n) ==
        if n in peers then Announce(n, peers[n], now, timeout) else []
    {
      if n in peers {
        var k :| 0 <= k < |order| && order[k] == n;
        EmittedOnce(peers, order, now, timeout, k);
      } else {
        EmittedNothing(peers, order, now, timeout, n);
      }
    }
  }

  lemma AllChecked(peers: Peers, order: seq<NodeId>, now: nat, timeout: nat)
    requires Visiting(peers, {}, order)
    ensures CheckedOn(peers, order, now, timeout) == map n | n in peers :: Checked(peers[n], now, timeout)
  {
  }

  lemma OfSingle(more: seq<MemberEvent>, n: NodeId, m: NodeId)
    requires |more| <= 1 && forall i :: 0 <= i < |more| ==> more[i].node == n
    ensures Of(more, m) == if m == n then more else []
  {
    if more != [] { assert more[..0] == [] && more == [more[0]]; }
  }

  // ------------------------------------------------------------- whole runs

  datatype Step =
    | Add(node: NodeId, addr: string, now: nat)
    | Remove(node: NodeId)
    | Beat(node: NodeId, now: nat)
    | Check(now: nat, out: seq<MemberEvent>)

  /** One tracked peer seen from outside: its record, the events about it since
      it was last added, when it was last heard of (or added), and for each
      event when it had last been heard of then. */
  datatype Track = Track(peer: Peer, events: seq<MemberEvent>, heard: nat, heardThen: seq<nat>)

  type System = map<NodeId, Track>

  ghost predicate Enabled(s: System, step: Step, timeout: nat)
  {
    step.Check? ==> PassEmits(map n | n in s :: s[n].peer, step.now, timeout, step.out)
  }

  function Next(s: System, step: Step, timeout: nat): System
  {
    match step
    case Add(node, addr, now) => s[node := Track(Peer(now, addr, false), [], now, [])]
    case Remove(node) => s - {node}
    case Beat(node, now) =>
      if node in s then s[node := s[node].(peer := s[node].peer.(lastHeartbeat := now), heard := now)] else s
    case Check(now, out) =>
      map n | n in s ::
        Track(Checked(s[n].peer, now, timeout), s[n].events + Of(out, n), s[n].heard,
              s[n].heardThen + if Of(out, n) == [] then [] else [s[n].heard])
  }

  ghost predicate ValidRun(s: System, steps: seq<Step>, timeout: nat)
    decreases |steps|
  {
    steps == [] || (Enabled(s, steps[0], timeout) && ValidRun(Next(s, steps[0], timeout), steps[1..], timeout))
  }

  function Run(s: System, steps: seq<Step>, timeout: nat): System
    decreases |steps|
  {
    if steps == [] then s else Run(Next(s, steps[0], timeout), steps[1..], timeout)
  }

  /** Failed, Recovered, Failed, ... */
  ghost predicate Alternates(events: seq<MemberEvent>)
  {
    forall i :: 0 <= i < |events| ==> (events[i].kind.Failed? <==> i % 2 == 0)
  }

  ghost predicate TrackOk(t: Track, timeout: nat)
  {
    && Alternates(t.events)
    && |t.heardThen| == |t.events|
    && (forall i :: 0 <= i < |t.events| ==>
          (t.events[i].kind.Failed? <==> t.events[i].at > t.heardThen[i] + timeout))
    && (t.peer.failed <==> |t.events| % 2 == 1)
    && t.heard == t.peer.lastHeartbeat
  }

  lemma CheckKeepsTrack(n: NodeId, t: Track, now: nat, timeout: nat)
    requires TrackOk(t, timeout)
    ensures var more := Announce(n, t.peer, now, timeout);
            TrackOk(Track(Checked(t.peer, now, timeout), t.events + more, t.heard,
                          t.heardThen + if more == [] then [] else [t.heard]), timeout)
  {
  }

  lemma StepKeepsTracks(s: System, step: Step, timeout: nat)
    requires (forall n :: n in s ==> TrackOk(s[n], timeout)) && Enabled(s, step, timeout)
    ensures forall n :: n in Next(s, step, timeout) ==> TrackOk(Next(s, step, timeout)[n], timeout)
  {
    if step.Check? {
      forall n | n in s ensures TrackOk(Next(s, step, timeout)[n], timeout) {
        CheckKeepsTrack(n, s[n], step.now, timeout);
        assert Of(step.out, n) == Announce(n, s[n].peer, step.now, timeout);
      }
    }
  }

  /** For every peer in every run, the events since it was last added strictly
      alternate starting with a failure, its flag says whether the last one was
      a failure, and the failures are exactly the events that came after a
      silence longer than the timeout. */
  lemma {:induction false} EventsAlternate(s: System, steps: seq<Step>, timeout: nat)
    requires (forall n :: n in s ==> TrackOk(s[n], timeout)) && ValidRun(s, steps, timeout)
    ensures forall n :: n in Run(s, steps, timeout) ==> TrackOk(Run(s, steps, timeout)[n], timeout)
    decreases |steps|
  {
    if steps == [] {
    } else {
      StepKeepsTracks(s, steps[0], timeout);
      EventsAlternate(Next(s, steps[0], timeout), steps[1..], timeout);
    }
  }

  /** What one check says of one peer. */
  lemma AnnouncedExactly(n: NodeId, p: Peer, now: nat, timeout: nat)
    ensures MemberEvent(n, Failed, now) in Announce(n, p, now, timeout) <==> !p.failed && now > p.lastHeartbeat + timeout
    ensures MemberEvent(n, Recovered, now) in Announce(n, p, now, timeout) <==> p.failed && now <= p.lastHeartbeat + timeout
  {
  }

  /** A peer is reported failed exactly when it was counted healthy and has
      been silent for longer than the timeout since it was last heard of. */
  lemma FailureFollowsSilence(s: System, now: nat, out: seq<MemberEvent>, timeout: nat, n: NodeId)
    requires (n in s ==> TrackOk(s[n], timeout)) && Enabled(s, Check(now, out), timeout)
    ensures MemberEvent(n, Failed, now) in Of(out, n) <==> n in s && !s[n].peer.failed && now > s[n].heard + timeout
    ensures MemberEvent(n, Recovered, now) in Of(out, n) <==> n in s && s[n].peer.failed && now <= s[n].heard + timeout
  {
    var peers := map m | m in s :: s[m].peer;
    assert Of(out, n) == if n in peers then Announce(n, peers[n], now, timeout) else [];
    if n in s { AnnouncedExactly(n, s[n].peer, now, timeout); }
  }

  // -------------------------------------------------- the object in a run

  datatype Action = Adding(node: NodeId, addr: string) | Removing(node: NodeId) | Hearing(node: NodeId) | Checking

  /** The records of a run are those of the object. */
  ghost function Records(s: System): Peers
  {
    map n | n in s :: s[n].peer
  }

  /** Whatever is done with the object is a step of the run, and what it sends
      is what the run adds to the peers' events. */
  method Act(d: Detector, action: Action, now: nat, ghost s: System) returns (ghost step: Step)
    requires d.peers == Records(s)
    modifies d
    ensures Enabled(s, step, d.timeout) && d.peers == Records(Next(s, step, d.timeout))
    ensures action.Adding? <==> step.Add?
    ensures action.Adding? ==> step == Add(action.node, action.addr, now)
    ensures action.Removing? ==> step == Remove(action.node)
    ensures action.Hearing? ==> step == Beat(action.node, now)
    ensures action.Checking? ==> step.Check? && step.now == now && d.events == old(d.events) + step.out
    ensures !action.Checking? ==> d.events == old(d.events)
  {
    match action {
      case Adding(node, addr) =>
        d.AddPeer(node, addr, now);
        step := Add(node, addr, now);
      case Removing(node) =>
        d.RemovePeer(node);
        step := Remove(node);
      case Hearing(node) =>
        d.RecordHeartbeat(node, now);
        step := Beat(node, now);
      case Checking =>
        ghost var out := d.CheckFailures(now);
        step := Check(now, out);
    }
  }
}
