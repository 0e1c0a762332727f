/** Pushing to a topic: append to the ring, read the entry back, deliver it. */
module TopicService {
  import opened Words
  import opened TopicQueue
  import opened Subscribers

  datatype Outcome = Ok(id: U64) | QueueFull | SubscriberFull

  class TopicHandle {
    const topic: string
    const queue: Queue
    const feed: Feed

    constructor (topic: string, queue: Queue, feed: Feed)
      ensures this.topic == topic && this.queue == queue && this.feed == feed
    {
      this.topic, this.queue, this.feed := topic, queue, feed;
    }

    ghost function View(): Topic
      reads queue, feed
    {
      Topic(queue.log, feed.subscribers)
    }

    ghost predicate Valid()
      reads queue, queue.slots, feed
    {
      queue.Valid() && TopicOk(View(), feed.mode)
    }

    /** A push is one step of the topic's run. When a full subscriber stops
        the delivery the caller gets an error, but the entry stays. */
    method Push(payload: seq<Byte>, now: U64, wakes: nat -> Wake) returns (r: Outcome)
      requires Valid()
      modifies queue, queue.slots, feed
      ensures Valid() && queue.ackPos == old(queue.ackPos)
      ensures r.QueueFull? <==> |old(queue.log)| >= WrapAdd(queue.ackPos, queue.capacity)
      ensures r.QueueFull? ==> View() == old(View())
      ensures !r.QueueFull? ==>
        && |old(queue.log)| <= U64_MAX
        && View() == Next(old(View()), Subscribers.Push(Entry(|old(queue.log)|, now, topic, payload), wakes), feed.mode)
      ensures r.Ok? ==> r.id == |old(queue.log)|
      ensures r.Ok? ==> StopIndex(old(feed.subscribers), feed.mode) == |old(feed.subscribers)|
      ensures r.SubscriberFull? ==> StopIndex(old(feed.subscribers), feed.mode) < |old(feed.subscribers)|
      ensures r.Ok? && (feed.mode.Error? || feed.mode.Block?) ==>
        forall p :: 0 <= p < |feed.subscribers| ==>
          feed.subscribers[p].connected && EndsWith(feed.subscribers[p].Stream(), queue.log[r.id])
    {
      ghost var before := View();
      var pushed := queue.Push(topic, payload, now);
      if pushed.BufferFull? {
        return QueueFull;
      }
      var entry := queue.Read(pushed.id);
      assert entry == Some(queue.log[pushed.id]);
      var delivery := feed.Notify(entry.value, wakes);
      StepKeepsTopic(before, Subscribers.Push(entry.value, wakes), feed.mode);
      r := if delivery.Delivered? then Ok(pushed.id) else SubscriberFull;
      if delivery.Delivered? && (feed.mode.Error? || feed.mode.Block?) {
        forall p | 0 <= p < |feed.subscribers|
          ensures feed.subscribers[p].connected && EndsWith(feed.subscribers[p].Stream(), entry.value)
        {
          DeliveryReachesAll(before.subs, entry.value, feed.mode, wakes, p);
        }
      }
    }

    /** An empty batch is refused. Otherwise the payloads go in one by one,
        each at its own time; an error leaves the ones before it in place, and
        a full subscriber leaves the one it stopped on in place too. */
    method PushBatch(payloads: seq<seq<Byte>>, times: nat -> U64, wakes: nat -> nat -> Wake)
        returns (r: Outcome, ghost done: nat)
      requires Valid()
      modifies queue, queue.slots, feed
      ensures Valid() && queue.ackPos == old(queue.ackPos)
      ensures payloads == [] ==> r.QueueFull? && done == 0
      ensures done <= |payloads| && |old(queue.log)| + done <= U64_MAX + 1
      ensures RunsTo(old(View()), Pushes(topic, |old(queue.log)|, payloads[..done], times, wakes), feed.mode, View())
      ensures r.Ok? ==> done == |payloads| && r.id == |queue.log| - 1
      ensures r.QueueFull? && payloads != [] ==> done < |payloads| && |queue.log| >= WrapAdd(queue.ackPos, queue.capacity)
      ensures r.SubscriberFull? ==>
        done > 0 && StopsAfter(old(View()), Pushes(topic, |old(queue.log)|, payloads[..done - 1], times, wakes), feed.mode)
    {
      done := 0;
      if payloads == [] {
        return QueueFull, 0;
      }
      ghost var start := View();
      r := QueueFull;
      for i := 0 to |payloads|
        invariant Valid() && queue.ackPos == old(queue.ackPos) && done == i
        invariant |start.log| + i == |queue.log| <= U64_MAX + 1
        invariant RunsTo(start, Pushes(topic, |start.log|, payloads[..i], times, wakes), feed.mode, View())
        invariant i > 0 ==> r.Ok? && r.id == |queue.log| - 1
      {
        r := PushNext(payloads, times, wakes, i, start);
        if r.QueueFull? {
          return;
        }
        done := i + 1;
        if !r.Ok? {
          return;
        }
      }
    }

    /** One payload of a batch, the `i` before it having gone in. */
    method PushNext(payloads: seq<seq<Byte>>, times: nat -> U64, wakes: nat -> nat -> Wake, i: nat, ghost start: Topic)
        returns (r: Outcome)
      requires Valid() && i < |payloads| && |start.log| + i == |queue.log| <= U64_MAX + 1
      requires RunsTo(start, Pushes(topic, |start.log|, payloads[..i], times, wakes), feed.mode, View())
      modifies queue, queue.slots, feed
      ensures Valid() && queue.ackPos == old(queue.ackPos)
      ensures r.QueueFull? ==> View() == old(View()) && |queue.log| >= WrapAdd(queue.ackPos, queue.capacity)
      ensures !r.QueueFull? ==>
        && |start.log| + i + 1 == |queue.log| <= U64_MAX + 1
        && RunsTo(start, Pushes(topic, |start.log|, payloads[..i + 1], times, wakes), feed.mode, View())
      ensures r.Ok? ==> r.id == |queue.log| - 1
      ensures r.SubscriberFull? ==>
        StopsAfter(start, Pushes(topic, |start.log|, payloads[..i], times, wakes), feed.mode)
    {
      ghost var before := View();
      r := Push(payloads[i], times(i), wakes(i));
      if !r.QueueFull? {
        PushesNext(topic, |start.log|, payloads, times, wakes, i);
        RunsOn(start, Pushes(topic, |start.log|, payloads[..i], times, wakes), feed.mode, before,
               Subscribers.Push(Entry(|before.log|, times(i), topic, payloads[i]), wakes(i)));
      }
    }
  }

  ghost predicate EndsWith(stream: seq<Entry>, e: Entry)
  {
    stream != [] && stream[|stream| - 1] == e
  }

  /** The pushes of a batch: consecutive ids, each payload at its own time. */
  ghost function Pushes(topic: string, base: nat, payloads: seq<seq<Byte>>, times: nat -> U64,
                        wakes: nat -> nat -> Wake): (r: seq<Step>)
    requires base + |payloads| <= U64_MAX + 1
    ensures |r| == |payloads|
  {
    seq(|payloads|, i requires 0 <= i < |payloads| =>
      Subscribers.Push(Entry(base + i, times(i), topic, payloads[i]), wakes(i)))
  }

  lemma PushesNext(topic: string, base: nat, payloads: seq<seq<Byte>>, times: nat -> U64,
                   wakes: nat -> nat -> Wake, i: nat)
    requires i < |payloads| && base + i <= U64_MAX
    ensures Pushes(topic, base, payloads[..i + 1], times, wakes) ==
      Pushes(topic, base, payloads[..i], times, wakes)
        + [Subscribers.Push(Entry(base + i, times(i), topic, payloads[i]), wakes(i))]
  {
  }

  ghost predicate RunsTo(t: Topic, steps: seq<Step>, mode: Mode, t': Topic)
  {
    ValidRun(t, steps, mode) && Run(t, steps, mode) == t'
  }

  /** After these steps a full subscriber stops the delivery. */
  ghost predicate StopsAfter(t: Topic, steps: seq<Step>, mode: Mode)
  {
    ValidRun(t, steps, mode) && StopIndex(Run(t, steps, mode).subs, mode) < |Run(t, steps, mode).subs|
  }

  /** A run followed by one more step. */
  lemma {:induction false} RunsOn(t: Topic, steps: seq<Step>, mode: Mode, mid: Topic, step: Step)
    requires RunsTo(t, steps, mode, mid) && Enabled(mid, step)
    ensures RunsTo(t, steps + [step], mode, Next(mid, step, mode))
    decreases |steps|
  {
    if steps == [] {
      assert [] + [step] == [step] && [step][1..] == [];
    } else {
      assert (steps + [step])[1..] == steps[1..] + [step];
      RunsOn(Next(t, steps[0], mode), steps[1..], mode, mid, step);
    }
  }
}
