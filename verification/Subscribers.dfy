/** Topic subscriptions: delivery of pushed entries to bounded channels under
    each backpressure mode, and the removal of subscribers that hung up. */
module Subscribers {
  import opened Words
  import opened TopicQueue

  datatype Mode = Block | DropOldest | DropNewest | Error

  /** What the receiver does while a blocking send waits on a full channel:
      takes one entry or more, or goes away. */
  datatype Wake = Takes(more: nat) | HangsUp

  /** A subscriber with its channel. `since` is the log position at which it
      subscribed; `missed` are the ids of the pushes that did not reach it. */
  datatype Subscriber = Subscriber(
    capacity: nat, connected: bool, received: seq<Entry>, queued: seq<Entry>, since: nat, missed: seq<nat>)
  {
    predicate Full() { |queued| >= capacity }

    function Stream(): seq<Entry> { received + queued }

    function Enqueue(e: Entry): Subscriber { this.(queued := queued + [e]) }

    function Miss(id: nat): Subscriber { this.(missed := missed + [id]) }

    /** The receiver takes up to `k` entries, oldest first. */
    function Receive(k: nat): (r: Subscriber)
      ensures r.Stream() == Stream()
      ensures |r.received| == |received| + if k < |queued| then k else |queued|
    {
      var n := if k < |queued| then k else |queued|;
      this.(received := received + queued[..n], queued := queued[n..])
    }
  }

  /** The subscriber after an entry has been offered to it. */
  function Offered(s: Subscriber, e: Entry, mode: Mode, wake: Wake): Subscriber
  {
    match mode
    case Block =>
      if !s.connected then s
      else if !s.Full() then s.Enqueue(e)
      else (match wake
            case Takes(more) => s.Receive(more + 1).Enqueue(e)
            case HangsUp => s.(connected := false))
    case DropOldest =>
      if !s.connected then s else if s.Full() then s.Miss(e.id) else s.Enqueue(e)
    case DropNewest =>
      if s.Full() then s.Miss(e.id) else if !s.connected then s else s.Enqueue(e)
    case Error =>
      if s.Full() || !s.connected then s else s.Enqueue(e)
  }

  /** Whether that offer found the receiver gone. */
  predicate FoundGone(s: Subscriber, mode: Mode, wake: Wake)
  {
    match mode
    case Block => !s.connected || (s.Full() && wake.HangsUp?)
    case DropOldest => !s.connected
    case _ => !s.connected && !s.Full()
  }

  /** In `Error` mode a full channel stops the delivery. */
  predicate Stops(s: Subscriber, mode: Mode)
  {
    mode.Error? && s.Full()
  }

  function StopIndex(subs: seq<Subscriber>, mode: Mode): (i: nat)
    ensures i <= |subs| && (i < |subs| ==> Stops(subs[i], mode))
    ensures forall j :: 0 <= j < i ==> !Stops(subs[j], mode)
  {
    if subs == [] || Stops(subs[0], mode) then 0 else 1 + StopIndex(subs[1..], mode)
  }

  function OfferedAll(subs: seq<Subscriber>, e: Entry, mode: Mode, wakes: nat -> Wake): (r: seq<Subscriber>)
    ensures |r| == |subs|
  {
    seq(|subs|, i requires 0 <= i < |subs| => Offered(subs[i], e, mode, wakes(i)))
  }

  /** For each subscriber, whether its offer finds the receiver gone. */
  function Gone(subs: seq<Subscriber>, mode: Mode, wakes: nat -> Wake): (r: seq<bool>)
    ensures |r| == |subs| && forall i :: 0 <= i < |subs| ==> r[i] == FoundGone(subs[i], mode, wakes(i))
  {
    seq(|subs|, i requires 0 <= i < |subs| => FoundGone(subs[i], mode, wakes(i)))
  }

  /** The subscribers from index `i` on whose flag is not set, in order. */
  function Keep(subs: seq<Subscriber>, gone: seq<bool>, i: nat): seq<Subscriber>
    requires i <= |subs| == |gone|
    decreases |subs| - i
  {
    if i == |subs| then [] else if gone[i] then Keep(subs, gone, i + 1) else [subs[i]] + Keep(subs, gone, i + 1)
  }

  function MissedAll(subs: seq<Subscriber>, id: nat): (r: seq<Subscriber>)
    ensures |r| == |subs| && forall i :: 0 <= i < |subs| ==> r[i] == subs[i].Miss(id)
  {
    seq(|subs|, i requires 0 <= i < |subs| => subs[i].Miss(id))
  }

  /** Delivery of one entry: everyone up to a stop is offered it; without a
      stop, exactly the subscribers found gone are dropped from the list. */
  function Notified(subs: seq<Subscriber>, e: Entry, mode: Mode, wakes: nat -> Wake): seq<Subscriber>
  {
    var stop := StopIndex(subs, mode);
    if stop < |subs| then OfferedAll(subs, e, mode, wakes)[..stop] + MissedAll(subs[stop..], e.id)
    else Keep(OfferedAll(subs, e, mode, wakes), Gone(subs, mode, wakes), 0)
  }

  /** The positions below `n` whose flag is set, ascending. */
  function Found(gone: seq<bool>, n: nat): seq<nat>
    requires n <= |gone|
  {
    if n == 0 then [] else if gone[n - 1] then Found(gone, n - 1) + [n - 1] else Found(gone, n - 1)
  }

  lemma FoundNext(gone: seq<bool>, n: nat)
    requires n < |gone|
    ensures Found(gone, n + 1) == if gone[n] then Found(gone, n) + [n] else Found(gone, n)
  {
  }

  lemma {:induction false} LastFound(gone: seq<bool>, n: nat) returns (idx: nat)
    requires n <= |gone| && Found(gone, n) != []
    ensures idx < n && gone[idx] && Found(gone, n) == Found(gone, idx) + [idx]
    ensures forall i :: idx < i < n ==> !gone[i]
    decreases n
  {
    if gone[n - 1] {
      idx := n - 1;
    } else {
      idx := LastFound(gone, n - 1);
    }
  }

  lemma TopPosition(gone: seq<bool>, n: nat, positions: seq<nat>, j: nat) returns (idx: nat)
    requires n <= |gone| && 0 < j <= |positions| && positions[..j] == Found(gone, n)
    ensures idx < n && gone[idx] && (forall i :: idx < i < n ==> !gone[i])
    ensures positions[j - 1] == idx && positions[..j - 1] == Found(gone, idx)
  {
    idx := LastFound(gone, n);
    assert positions[..j][j - 1] == positions[j - 1];
    assert positions[..j][..j - 1] == positions[..j - 1];
  }

  lemma {:induction false} NoneFound(gone: seq<bool>, n: nat)
    requires n <= |gone| && Found(gone, n) == []
    ensures forall i :: 0 <= i < n ==> !gone[i]
    decreases n
  {
    if n == 0 {
    } else {
      NoneFound(gone, n - 1);
    }
  }

  lemma Associate(a: seq<Subscriber>, b: seq<Subscriber>, c: seq<Subscriber>)
    ensures a + (b + c) == (a + b) + c
  {
  }

  lemma {:induction false} KeepRange(subs: seq<Subscriber>, gone: seq<bool>, a: nat, b: nat)
    requires a <= b <= |subs| == |gone| && forall i :: a <= i < b ==> !gone[i]
    ensures Keep(subs, gone, a) == subs[a..b] + Keep(subs, gone, b)
    decreases b - a
  {
    if a == b {
    } else {
      KeepRange(subs, gone, a + 1, b);
      Associate([subs[a]], subs[a + 1..b], Keep(subs, gone, b));
      assert subs[a..b] == [subs[a]] + subs[a + 1..b];
    }
  }

  datatype Delivery = Delivered | SubscriberBufferFull

  class Feed {
    const mode: Mode
    var subscribers: seq<Subscriber>

    constructor (mode: Mode)
      ensures this.mode == mode && subscribers == []
    {
      this.mode, subscribers := mode, [];
    }

    method Subscribe(capacity: nat, position: nat)
      modifies this
      ensures subscribers == old(subscribers) + [Subscriber(capacity, true, [], [], position, [])]
    {
      subscribers := subscribers + [Subscriber(capacity, true, [], [], position, [])];
    }

    method Notify(e: Entry, wakes: nat -> Wake) returns (r: Delivery)
      modifies this
      ensures subscribers == Notified(old(subscribers), e, mode, wakes)
      ensures r.SubscriberBufferFull? <==> StopIndex(old(subscribers), mode) < |old(subscribers)|
    {
      var offered, disconnected, stopped := OfferEach(subscribers, e, wakes);
      subscribers := offered;
      if stopped {
        return SubscriberBufferFull;
      }
      ghost var gone := Gone(old(subscribers), mode, wakes);
      RemoveDescending(disconnected, gone);
      assert Fitted(gone, |gone|) == gone;
      r := Delivered;
    }

    method OfferEach(subs: seq<Subscriber>, e: Entry, wakes: nat -> Wake)
        returns (out: seq<Subscriber>, disconnected: seq<nat>, stopped: bool)
      ensures stopped == (StopIndex(subs, mode) < |subs|)
      ensures stopped ==>
        out == OfferedAll(subs, e, mode, wakes)[..StopIndex(subs, mode)] + MissedAll(subs[StopIndex(subs, mode)..], e.id)
      ensures !stopped ==> out == OfferedAll(subs, e, mode, wakes)
      ensures !stopped ==> disconnected == Found(Gone(subs, mode, wakes), |subs|)
    {
      ghost var offered := OfferedAll(subs, e, mode, wakes);
      ghost var gone := Gone(subs, mode, wakes);
      out, disconnected, stopped := subs, [], false;
      var idx: nat := 0;
      while idx < |subs|
        invariant idx <= StopIndex(subs, mode) && Partway(out, offered, subs, idx)
        invariant disconnected == Found(gone, idx)
      {
        var s := out[idx];
        StopAt(subs, mode, idx);
        if mode.Error? && s.Full() {
          assert out[..idx] == offered[..idx] && out[idx..] == subs[idx..];
          return out[..idx] + MissedAll(out[idx..], e.id), disconnected, true;
        }
        FoundNext(gone, idx);
        var s', isGone := Offer(s, e, wakes(idx));
        out := out[idx := s'];
        if isGone {
          disconnected := disconnected + [idx];
        }
        idx := idx + 1;
      }
      assert out == offered;
    }

    /** The send of each mode. A blocking send waits for room; `DropOldest` in
        fact discards the incoming entry when the channel is full. */
    method Offer(s: Subscriber, e: Entry, wake: Wake) returns (s': Subscriber, gone: bool)
      requires !Stops(s, mode)
      ensures s' == Offered(s, e, mode, wake) && gone == FoundGone(s, mode, wake)
    {
      s', gone := s, false;
      match mode {
        case Block =>
          if s.connected && s.Full() {
            if wake.Takes? {
              s' := s.Receive(wake.more + 1);
            } else {
              s' := s.(connected := false);
            }
          }
          if s'.connected {
            s' := s'.Enqueue(e);
          } else {
            gone := true;
          }
        case DropOldest =>
          if !s.connected {
            gone := true;
          } else if s.Full() {
            s' := s.Miss(e.id);
          } else {
            s' := s.Enqueue(e);
          }
        case DropNewest =>
          if s.Full() {
            s' := s.Miss(e.id);
          } else if s.connected {
            s' := s.Enqueue(e);
          } else {
            gone := true;
          }
        case Error =>
          if s.connected {
            s' := s.Enqueue(e);
          } else {
            gone := true;
          }
      }
    }

    /** Remove the given positions from the highest down, so that a removal
        does not shift the ones still to come. The list may be another one than
        the positions were collected from. */
    method RemoveDescending(positions: seq<nat>, ghost gone: seq<bool>)
      requires positions == Found(gone, |gone|)
      modifies this
      ensures subscribers == Keep(old(subscribers), Fitted(gone, |old(subscribers)|), 0)
    {
      ghost var before := subscribers;
      ghost var flags := Fitted(gone, |before|);
      ghost var hi: nat := |gone|;
      KeepRange(before, flags, Within(before, hi), |before|);
      assert before[..Within(before, hi)] + before[Within(before, hi)..] == before;
      var j := |positions|;
      while j > 0
        invariant 0 <= j <= |positions| && hi <= |gone|
        invariant positions[..j] == Found(gone, hi)
        invariant subscribers == Cleaned(before, flags, hi)
      {
        ghost var top := TopPosition(gone, hi, positions, j);
        CleaningStep(before, gone, hi, top);
        j := j - 1;
        var idx := positions[j];
        if idx < |subscribers| {
          subscribers := subscribers[..idx] + subscribers[idx + 1..];
        }
        hi := idx;
      }
      NoneFound(gone, hi);
      KeepRange(before, flags, 0, Within(before, hi));
    }
  }

  /** The flags for a list of another length: missing ones are not set. */
  function Fitted(gone: seq<bool>, n: nat): (r: seq<bool>)
    ensures |r| == n && forall i :: 0 <= i < n ==> (r[i] <==> i < |gone| && gone[i])
  {
    seq(n, i requires 0 <= i < n => i < |gone| && gone[i])
  }

  function Within(list: seq<Subscriber>, n: nat): nat
  {
    if n < |list| then n else |list|
  }

  /** The list with the flagged positions from `hi` on removed. */
  ghost function Cleaned(before: seq<Subscriber>, flags: seq<bool>, hi: nat): seq<Subscriber>
    requires |flags| == |before|
  {
    before[..Within(before, hi)] + Keep(before, flags, Within(before, hi))
  }

  lemma CleaningStep(before: seq<Subscriber>, gone: seq<bool>, hi: nat, idx: nat)
    requires idx < hi <= |gone| && gone[idx] && forall i :: idx < i < hi ==> !gone[i]
    ensures var flags := Fitted(gone, |before|);
            var list := Cleaned(before, flags, hi);
            Cleaned(before, flags, idx) == if idx < |list| then list[..idx] + list[idx + 1..] else list
  {
    var flags := Fitted(gone, |before|);
    var list := Cleaned(before, flags, hi);
    if idx < |before| {
      RemovalStep(before, flags, Within(before, hi), idx, list);
    } else {
      assert list == before;
    }
  }

  /** Cleaning up keeps a list as it is exactly when no flag is set. */
  lemma {:induction false} KeepsAllExactly(subs: seq<Subscriber>, gone: seq<bool>, i: nat)
    requires i <= |subs| == |gone|
    ensures |Keep(subs, gone, i)| <= |subs| - i
    ensures |Keep(subs, gone, i)| == |subs| - i <==> forall j :: i <= j < |subs| ==> !gone[j]
    decreases |subs| - i
  {
    if i == |subs| {
    } else {
      KeepsAllExactly(subs, gone, i + 1);
    }
  }

  /** Two deliveries that found the same receivers gone both clean up. The
      second removes subscribers that were not gone exactly when one of the
      positions still lies within the list the first left. */
  lemma SecondCleanupExactly(subs: seq<Subscriber>, gone: seq<bool>)
    requires |gone| == |subs|
    ensures var once := Keep(subs, gone, 0);
            Keep(once, Fitted(gone, |once|), 0) == once <==> forall i :: 0 <= i < |gone| && gone[i] ==> i >= |once|
  {
    var once := Keep(subs, gone, 0);
    KeepsAllExactly(subs, gone, 0);
    KeepsAllExactly(once, Fitted(gone, |once|), 0);
    if forall i :: 0 <= i < |gone| && gone[i] ==> i >= |once| {
      KeepRange(once, Fitted(gone, |once|), 0, |once|);
    } else {
      var i :| 0 <= i < |gone| && gone[i] && i < |once|;
      assert Fitted(gone, |once|)[i];
    }
  }

  /** The first `idx` subscribers have been offered the entry. */
  ghost predicate Partway(out: seq<Subscriber>, offered: seq<Subscriber>, subs: seq<Subscriber>, idx: nat)
  {
    && idx <= |subs| == |offered| == |out|
    && (forall i :: 0 <= i < idx ==> out[i] == offered[i])
    && (forall i :: idx <= i < |out| ==> out[i] == subs[i])
  }

  lemma StopAt(subs: seq<Subscriber>, mode: Mode, idx: nat)
    requires idx < |subs| && idx <= StopIndex(subs, mode)
    ensures Stops(subs[idx], mode) <==> idx == StopIndex(subs, mode)
  {
  }

  /** Removing the topmost position still to go. */
  lemma RemovalStep(before: seq<Subscriber>, gone: seq<bool>, hi: nat, idx: nat, list: seq<Subscriber>)
    requires idx < hi <= |before| == |gone| && list == before[..hi] + Keep(before, gone, hi)
    requires gone[idx] && forall i :: idx < i < hi ==> !gone[i]
    ensures idx < |list| && list[..idx] + list[idx + 1..] == before[..idx] + Keep(before, gone, idx)
  {
    KeepRange(before, gone, idx + 1, hi);
    assert Keep(before, gone, idx) == Keep(before, gone, idx + 1);
    assert list[..idx] == before[..idx];
    assert list[idx + 1..] == before[idx + 1..hi] + Keep(before, gone, hi);
  }

  // ------------------------------------------------------------- whole runs

  datatype Step =
    | Push(entry: Entry, wakes: nat -> Wake)
    | Subscribe(capacity: nat)
    | Receive(index: nat)
    | HangUp(index: nat)

  datatype Topic = Topic(log: seq<Entry>, subs: seq<Subscriber>)

  predicate Enabled(t: Topic, step: Step)
  {
    match step
    case Push(e, _) => e.id == |t.log|
    case Subscribe(capacity) => capacity > 0
    case Receive(i) => i < |t.subs|
    case HangUp(i) => i < |t.subs|
  }

  function Next(t: Topic, step: Step, mode: Mode): Topic
    requires Enabled(t, step)
  {
    match step
    case Push(e, wakes) => Topic(t.log + [e], Notified(t.subs, e, mode, wakes))
    case Subscribe(capacity) => t.(subs := t.subs + [Subscriber(capacity, true, [], [], |t.log|, [])])
    case Receive(i) => t.(subs := t.subs[i := t.subs[i].Receive(1)])
    case HangUp(i) => t.(subs := t.subs[i := t.subs[i].(connected := false)])
  }

  predicate ValidRun(t: Topic, steps: seq<Step>, mode: Mode)
    decreases |steps|
  {
    steps == [] || (Enabled(t, steps[0]) && ValidRun(Next(t, steps[0], mode), steps[1..], mode))
  }

  function Run(t: Topic, steps: seq<Step>, mode: Mode): Topic
    requires ValidRun(t, steps, mode)
    decreases |steps|
  {
    if steps == [] then t else Run(Next(t, steps[0], mode), steps[1..], mode)
  }

  /** `stream` is a subsequence of the log from `since` on: entries as pushed,
      ids strictly increasing. */
  ghost predicate InOrder(stream: seq<Entry>, log: seq<Entry>, since: nat)
  {
    && (forall i :: 0 <= i < |stream| ==> since <= stream[i].id < |log| && stream[i] == log[stream[i].id])
    && (forall i, j :: 0 <= i < j < |stream| ==> stream[i].id < stream[j].id)
  }

  /** The entries pushed from `since` on, without those missed. */
  ghost function Since(log: seq<Entry>, since: nat, missed: seq<nat>): seq<Entry>
    requires since <= |log|
    decreases |log|
  {
    if |log| == since then [] else
      var n := |log| - 1;
      Since(log[..n], since, missed) + if n in missed then [] else [log[n]]
  }

  lemma SinceNext(log: seq<Entry>, since: nat, missed: seq<nat>, e: Entry)
    requires since <= |log| && |log| !in missed
    ensures Since(log + [e], since, missed) == Since(log, since, missed) + [e]
  {
    assert (log + [e])[..|log|] == log;
  }

  lemma SinceMissed(log: seq<Entry>, since: nat, missed: seq<nat>, e: Entry)
    requires since <= |log|
    ensures Since(log + [e], since, missed + [|log|]) == Since(log, since, missed)
  {
    assert (log + [e])[..|log|] == log;
    MissingLater(log, since, missed, |log|);
  }

  lemma {:induction false} MissingLater(log: seq<Entry>, since: nat, missed: seq<nat>, id: nat)
    requires since <= |log| <= id
    ensures Since(log, since, missed + [id]) == Since(log, since, missed)
    decreases |log|
  {
    if |log| == since {
    } else {
      MissingLater(log[..|log| - 1], since, missed, id);
    }
  }

  /** With nothing missed it is all of them. */
  lemma {:induction false} SinceAll(log: seq<Entry>, since: nat)
    requires since <= |log|
    ensures Since(log, since, []) == log[since..]
    decreases |log|
  {
    if |log| == since {
    } else {
      SinceAll(log[..|log| - 1], since);
    }
  }

  /** The channel is within its bounds, the stream in order, and for a receiver
      that is there it is everything pushed since, without exactly the pushes
      recorded as missed. A blocking send misses none. */
  ghost predicate SubOk(s: Subscriber, log: seq<Entry>, mode: Mode)
  {
    && s.capacity > 0 && |s.queued| <= s.capacity && s.since <= |log|
    && InOrder(s.Stream(), log, s.since)
    && (forall i :: 0 <= i < |s.missed| ==> s.since <= s.missed[i] < |log|)
    && (mode.Block? ==> s.missed == [])
    && (s.connected ==> s.Stream() == Since(log, s.since, s.missed))
  }

  ghost predicate TopicOk(t: Topic, mode: Mode)
  {
    && (forall i :: 0 <= i < |t.log| ==> t.log[i].id == i)
    && AllOk(t.subs, t.log, mode)
  }

  lemma EnqueueKeepsSub(s: Subscriber, log: seq<Entry>, e: Entry, mode: Mode)
    requires SubOk(s, log, mode) && e.id == |log| && s.connected && !s.Full()
    ensures SubOk(s.Enqueue(e), log + [e], mode)
  {
    assert s.Enqueue(e).Stream() == s.Stream() + [e];
    assert InOrder(s.Stream(), log + [e], s.since);
    SinceNext(log, s.since, s.missed, e);
  }

  lemma MissKeepsSub(s: Subscriber, log: seq<Entry>, e: Entry, mode: Mode)
    requires SubOk(s, log, mode) && e.id == |log| && !mode.Block?
    ensures SubOk(s.Miss(e.id), log + [e], mode)
  {
    assert s.Miss(e.id).Stream() == s.Stream();
    assert InOrder(s.Stream(), log + [e], s.since);
    SinceMissed(log, s.since, s.missed, e);
  }

  lemma GoneKeepsSub(s: Subscriber, log: seq<Entry>, e: Entry, mode: Mode)
    requires SubOk(s, log, mode) && !s.connected
    ensures SubOk(s, log + [e], mode)
  {
    assert InOrder(s.Stream(), log + [e], s.since);
  }

  lemma OfferKeepsSub(s: Subscriber, log: seq<Entry>, e: Entry, mode: Mode, wake: Wake)
    requires SubOk(s, log, mode) && e.id == |log| && !Stops(s, mode)
    ensures SubOk(Offered(s, e, mode, wake), log + [e], mode)
  {
    if mode.Block? && s.connected && s.Full() {
      if wake.Takes? {
        EnqueueKeepsSub(s.Receive(wake.more + 1), log, e, mode);
      } else {
        GoneKeepsSub(s.(connected := false), log, e, mode);
      }
    } else if s.connected && !s.Full() {
      EnqueueKeepsSub(s, log, e, mode);
    } else if (mode.DropOldest? && s.connected) || (mode.DropNewest? && s.Full()) {
      MissKeepsSub(s, log, e, mode);
    } else {
      GoneKeepsSub(s, log, e, mode);
    }
  }

  lemma {:induction false} KeepKeepsSubs(subs: seq<Subscriber>, gone: seq<bool>, i: nat, log: seq<Entry>, mode: Mode)
    requires i <= |subs| == |gone|
    requires forall k :: i <= k < |subs| && !gone[k] ==> SubOk(subs[k], log, mode)
    ensures AllOk(Keep(subs, gone, i), log, mode)
    decreases |subs| - i
  {
    if i == |subs| {
    } else {
      KeepKeepsSubs(subs, gone, i + 1, log, mode);
    }
  }

  ghost predicate AllOk(subs: seq<Subscriber>, log: seq<Entry>, mode: Mode)
  {
    forall i :: 0 <= i < |subs| ==> SubOk(subs[i], log, mode)
  }

  lemma OffersKeepSubs(subs: seq<Subscriber>, log: seq<Entry>, e: Entry, mode: Mode, wakes: nat -> Wake, n: nat)
    requires AllOk(subs, log, mode) && e.id == |log| && n <= StopIndex(subs, mode)
    ensures AllOk(OfferedAll(subs, e, mode, wakes)[..n], log + [e], mode)
  {
    forall k | 0 <= k < n ensures SubOk(OfferedAll(subs, e, mode, wakes)[k], log + [e], mode) {
      OfferKeepsSub(subs[k], log, e, mode, wakes(k));
    }
  }

  lemma MissesKeepSubs(subs: seq<Subscriber>, log: seq<Entry>, e: Entry, mode: Mode)
    requires AllOk(subs, log, mode) && e.id == |log| && !mode.Block?
    ensures AllOk(MissedAll(subs, e.id), log + [e], mode)
  {
    forall k | 0 <= k < |subs| ensures SubOk(MissedAll(subs, e.id)[k], log + [e], mode) {
      MissKeepsSub(subs[k], log, e, mode);
    }
  }

  lemma NotifyKeepsSubs(subs: seq<Subscriber>, log: seq<Entry>, e: Entry, mode: Mode, wakes: nat -> Wake)
    requires AllOk(subs, log, mode) && e.id == |log|
    ensures AllOk(Notified(subs, e, mode, wakes), log + [e], mode)
  {
    var stop := StopIndex(subs, mode);
    OffersKeepSubs(subs, log, e, mode, wakes, stop);
    if stop < |subs| {
      MissesKeepSubs(subs[stop..], log, e, mode);
    } else {
      var offered := OfferedAll(subs, e, mode, wakes);
      assert offered[..stop] == offered;
      KeepKeepsSubs(offered, Gone(subs, mode, wakes), 0, log + [e], mode);
    }
  }

  lemma PushKeepsTopic(t: Topic, e: Entry, mode: Mode, wakes: nat -> Wake)
    requires TopicOk(t, mode) && e.id == |t.log|
    ensures TopicOk(Next(t, Push(e, wakes), mode), mode)
  {
    NotifyKeepsSubs(t.subs, t.log, e, mode, wakes);
  }

  lemma StepKeepsTopic(t: Topic, step: Step, mode: Mode)
    requires TopicOk(t, mode) && Enabled(t, step)
    ensures TopicOk(Next(t, step, mode), mode)
  {
    match step
    case Push(e, wakes) => PushKeepsTopic(t, e, mode, wakes);
    case Receive(i) =>
    case HangUp(i) => assert t.subs[i].(connected := false).Stream() == t.subs[i].Stream();
    case Subscribe(capacity) =>
      assert t.log[|t.log|..] == [];
  }

  /** In every mode, what a subscriber has received followed by what its
      channel holds is a strictly increasing subsequence of the entries pushed
      since it subscribed, and while its receiver is there all of them without
      exactly the ones it missed; in `Block` mode it misses none. */
  lemma {:induction false} StreamsAreOrdered(t: Topic, steps: seq<Step>, mode: Mode)
    requires TopicOk(t, mode) && ValidRun(t, steps, mode)
    ensures TopicOk(Run(t, steps, mode), mode)
    decreases |steps|
  {
    if steps == [] {
    } else {
      StepKeepsTopic(t, steps[0], mode);
      StreamsAreOrdered(Next(t, steps[0], mode), steps[1..], mode);
    }
  }

  // ----------------------------------------------------- what a push does

  /** The pushes that do not reach a receiver: in the dropping modes those that
      find its channel full, in `Error` mode those that find its channel or one
      before it full. */
  ghost predicate Misses(subs: seq<Subscriber>, k: nat, mode: Mode)
    requires k < |subs|
  {
    match mode
    case Block => false
    case Error => exists j :: 0 <= j <= k && subs[j].Full()
    case _ => subs[k].Full()
  }

  /** `s'` is `s` with the entry at the end of its stream, or missed. */
  ghost predicate Continues(s: Subscriber, s': Subscriber, e: Entry, missed: bool)
  {
    && s'.connected && s'.capacity == s.capacity && s'.since == s.since
    && s'.Stream() == s.Stream() + (if missed then [] else [e])
    && s'.missed == s.missed + (if missed then [e.id] else [])
  }

  lemma {:induction false} KeptIsThere(subs: seq<Subscriber>, gone: seq<bool>, i: nat, k: nat) returns (p: nat)
    requires i <= k < |subs| == |gone| && !gone[k]
    ensures p < |Keep(subs, gone, i)| && p <= k - i && Keep(subs, gone, i)[p] == subs[k]
    decreases |subs| - i
  {
    if i == k {
      p := 0;
    } else {
      p := KeptIsThere(subs, gone, i + 1, k);
      if !gone[i] { p := p + 1; }
    }
  }

  lemma OfferContinues(s: Subscriber, e: Entry, mode: Mode, wake: Wake)
    requires s.connected && !Stops(s, mode) && !(mode.Block? && s.Full() && wake.HangsUp?)
    ensures !FoundGone(s, mode, wake)
    ensures Continues(s, Offered(s, e, mode, wake), e, !mode.Block? && s.Full())
  {
  }

  /** A push leaves every subscriber whose receiver is there, and does not hang
      up on it, in the list and in its place in the order; its stream goes on
      with the entry exactly when it does not miss it. So only subscribers that
      hung up leave. */
  lemma PushReaches(subs: seq<Subscriber>, e: Entry, mode: Mode, wakes: nat -> Wake, k: nat) returns (p: nat)
    requires k < |subs| && subs[k].connected && !(mode.Block? && subs[k].Full() && wakes(k).HangsUp?)
    ensures p <= k && p < |Notified(subs, e, mode, wakes)|
    ensures Continues(subs[k], Notified(subs, e, mode, wakes)[p], e, Misses(subs, k, mode))
  {
    var stop := StopIndex(subs, mode);
    if stop <= k {
      assert subs[stop].Full();
      p := k;
    } else {
      OfferContinues(subs[k], e, mode, wakes(k));
      if stop < |subs| {
        p := k;
      } else {
        p := KeptIsThere(OfferedAll(subs, e, mode, wakes), Gone(subs, mode, wakes), 0, k);
      }
    }
  }

  /** Who stays was kept. */
  lemma {:induction false} KeptWasThere(subs: seq<Subscriber>, gone: seq<bool>, i: nat, p: nat) returns (k: nat)
    requires i <= |subs| == |gone| && p < |Keep(subs, gone, i)|
    ensures i + p <= k < |subs| && !gone[k] && Keep(subs, gone, i)[p] == subs[k]
    decreases |subs| - i
  {
    if gone[i] {
      k := KeptWasThere(subs, gone, i + 1, p);
    } else if p == 0 {
      k := i;
    } else {
      k := KeptWasThere(subs, gone, i + 1, p - 1);
    }
  }

  /** After a delivery that was not stopped, everyone left in the list has its
      receiver or, in `DropNewest` mode, a full channel. In `Block` and `Error`
      mode everyone left has just got the entry. */
  lemma DeliveryReachesAll(subs: seq<Subscriber>, e: Entry, mode: Mode, wakes: nat -> Wake, p: nat)
    requires StopIndex(subs, mode) == |subs| && p < |Notified(subs, e, mode, wakes)|
    ensures var s := Notified(subs, e, mode, wakes)[p];
            && (s.connected || (mode.DropNewest? && s.Full()))
            && (mode.Block? || mode.Error? ==> s.Stream() != [] && s.Stream()[|s.Stream()| - 1] == e)
  {
    var k := KeptWasThere(OfferedAll(subs, e, mode, wakes), Gone(subs, mode, wakes), 0, p);
    assert !FoundGone(subs[k], mode, wakes(k)) && !Stops(subs[k], mode);
    if subs[k].connected { OfferContinues(subs[k], e, mode, wakes(k)); }
  }
}
