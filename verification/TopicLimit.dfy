/** Topic creation under a limit: callers look up, check the counter and
    insert in separate steps, so the limit can be overrun, by a known amount. */
module TopicLimit {
  import opened Words

  datatype Pc = Idle | Missed(topic: string) | Passed(topic: string)

  /** `max == 0` means unlimited. */
  datatype Registry = Registry(topics: set<string>, count: nat, callers: map<nat, Pc>, max: nat)

  datatype Step = Lookup(caller: nat, topic: string) | CheckLimit(caller: nat) | Insert(caller: nat)

  predicate Enabled(r: Registry, step: Step)
  {
    && step.caller in r.callers
    && match step
       case Lookup(c, _) => r.callers[c].Idle?
       case CheckLimit(c) => r.callers[c].Missed?
       case Insert(c) => r.callers[c].Passed?
  }

  function Next(r: Registry, step: Step): Registry
    requires Enabled(r, step)
  {
    match step
    case Lookup(c, topic) => if topic in r.topics then r else r.(callers := r.callers[c := Missed(topic)])
    case CheckLimit(c) =>
      r.(callers := r.callers[c := if r.max > 0 && r.count >= r.max then Idle else Passed(r.callers[c].topic)])
    case Insert(c) =>
      var r' := r.(callers := r.callers[c := Idle]);
      var topic := r.callers[c].topic;
      if topic in r.topics then r' else r'.(topics := r.topics + {topic}, count := r.count + 1)
  }

  predicate ValidRun(r: Registry, steps: seq<Step>)
    decreases |steps|
  {
    steps == [] || (Enabled(r, steps[0]) && ValidRun(Next(r, steps[0]), steps[1..]))
  }

  function Run(r: Registry, steps: seq<Step>): Registry
    requires ValidRun(r, steps)
    decreases |steps|
  {
    if steps == [] then r else Run(Next(r, steps[0]), steps[1..])
  }

  function Passing(r: Registry): set<nat>
  {
    set c | c in r.callers && r.callers[c].Passed?
  }

  /** Every caller past the check may still add one topic. */
  ghost predicate Bounded(r: Registry, n: nat)
  {
    && |r.callers.Keys| == n && n >= 1 && r.max > 0
    && r.count + |Passing(r)| <= r.max + n - 1
  }

  lemma SubsetSize(a: set<nat>, b: set<nat>)
    requires a <= b
    ensures |a| <= |b|
  {
    assert b == a + (b - a);
  }

  lemma StepKeepsBound(r: Registry, step: Step, n: nat)
    requires Bounded(r, n) && Enabled(r, step)
    ensures Bounded(Next(r, step), n)
    ensures Next(r, step).max == r.max
    ensures Next(r, step).count - |Next(r, step).topics| == r.count - |r.topics|
  {
    assert Next(r, step).callers.Keys == r.callers.Keys;
    match step
    case Lookup(c, _) => assert Passing(Next(r, step)) == Passing(r);
    case CheckLimit(c) => CheckKeepsBound(r, c, n);
    case Insert(c) => assert Passing(Next(r, step)) == Passing(r) - {c};
  }

  lemma CheckKeepsBound(r: Registry, c: nat, n: nat)
    requires Bounded(r, n) && Enabled(r, CheckLimit(c))
    ensures Bounded(Next(r, CheckLimit(c)), n)
  {
    var r' := Next(r, CheckLimit(c));
    assert r'.callers.Keys == r.callers.Keys;
    if r.count < r.max {
      assert Passing(r') == Passing(r) + {c};
      SubsetSize(Passing(r'), r'.callers.Keys);
    } else {
      assert Passing(r') == Passing(r);
    }
  }

  /** With `n` callers interleaved in any way from a start within the limit,
      there are never more than `max + n - 1` topics, and the counter keeps
      its distance from the number of topics. */
  lemma {:induction false} LimitOverrunBounded(r: Registry, steps: seq<Step>, n: nat)
    requires Bounded(r, n) && ValidRun(r, steps)
    ensures Bounded(Run(r, steps), n)
    ensures Run(r, steps).count <= r.max + n - 1
    ensures Run(r, steps).count - |Run(r, steps).topics| == r.count - |r.topics|
    ensures |r.topics| <= r.count ==> |Run(r, steps).topics| <= r.max + n - 1
    decreases |steps|
  {
    if steps == [] {
    } else {
      StepKeepsBound(r, steps[0], n);
      LimitOverrunBounded(Next(r, steps[0]), steps[1..], n);
    }
  }

  /** A start within the limit with nobody in flight is covered. */
  lemma IdleStartIsBounded(r: Registry, n: nat)
    requires |r.callers.Keys| == n && n >= 1 && r.max > 0 && r.count <= r.max
    requires forall c :: c in r.callers ==> r.callers[c].Idle?
    ensures Bounded(r, n)
  {
    assert Passing(r) == {};
  }

  // ---------------------------------------------------- who is refused

  /** A caller is turned away exactly when there is a limit and the counter has
      reached it at its check; otherwise it goes on with its topic. */
  lemma RefusedExactly(r: Registry, c: nat)
    requires Enabled(r, CheckLimit(c))
    ensures var r' := Next(r, CheckLimit(c));
            && c in r'.callers && r'.topics == r.topics && r'.count == r.count
            && (r'.callers[c].Idle? <==> r.max > 0 && r.count >= r.max)
            && (!r'.callers[c].Idle? ==> r'.callers[c] == Passed(r.callers[c].topic))
  {
  }

  /** Lookup, check and insertion with nobody in between: the topic is there
      afterwards exactly when it was before or there was room for it, and the
      counter has moved exactly when it is new. */
  lemma UndisturbedCreate(r: Registry, c: nat, topic: string)
    requires c in r.callers && r.callers[c].Idle?
    ensures var r1 := Next(r, Lookup(c, topic));
            var r2 := if Enabled(r1, CheckLimit(c)) then Next(r1, CheckLimit(c)) else r1;
            var r3 := if Enabled(r2, Insert(c)) then Next(r2, Insert(c)) else r2;
            && r3.callers == r.callers
            && (topic in r3.topics <==> topic in r.topics || r.max == 0 || r.count < r.max)
            && r3.topics == (if topic in r3.topics then r.topics + {topic} else r.topics)
            && r3.count == r.count + (if topic in r3.topics && topic !in r.topics then 1 else 0)
  {
    var r1 := Next(r, Lookup(c, topic));
    if topic in r.topics {
      assert r.topics + {topic} == r.topics;
    } else {
      var r2 := Next(r1, CheckLimit(c));
      var r3 := if Enabled(r2, Insert(c)) then Next(r2, Insert(c)) else r2;
      assert r3.callers == r.callers;
    }
  }

  /** Nobody is ever refused without a limit. */
  ghost predicate NoneRefused(r: Registry, steps: seq<Step>)
    requires ValidRun(r, steps)
    decreases |steps|
  {
    steps == [] ||
    ((steps[0].CheckLimit? ==> Next(r, steps[0]).callers[steps[0].caller].Passed?)
     && NoneRefused(Next(r, steps[0]), steps[1..]))
  }

  lemma {:induction false} UnlimitedRefusesNone(r: Registry, steps: seq<Step>)
    requires ValidRun(r, steps) && r.max == 0
    ensures NoneRefused(r, steps)
    decreases |steps|
  {
    if steps == [] {
    } else {
      UnlimitedRefusesNone(Next(r, steps[0]), steps[1..]);
    }
  }

  // -------------------------------------------------------- the bound is tight

  ghost predicate Reaches(r: Registry, goal: Registry)
  {
    exists steps :: ValidRun(r, steps) && Run(r, steps) == goal
  }

  lemma ReachesByStep(r: Registry, step: Step, goal: Registry)
    requires Enabled(r, step) && Reaches(Next(r, step), goal)
    ensures Reaches(r, goal)
  {
    var steps :| ValidRun(Next(r, step), steps) && Run(Next(r, step), steps) == goal;
    assert ([step] + steps)[1..] == steps;
    assert ValidRun(r, [step] + steps) && Run(r, [step] + steps) == goal;
  }

  /** `k` of the callers have passed the check, each for its own new topic. */
  function Gathered(topics: set<string>, names: seq<string>, max: nat, k: nat): Registry
    requires max > 0
  {
    Registry(topics, max - 1, map c: nat | c < |names| :: if c < k then Passed(names[c]) else Idle, max)
  }

  function First(names: seq<string>, k: nat): set<string>
    requires k <= |names|
  {
    if k == 0 then {} else First(names, k - 1) + {names[k - 1]}
  }

  /** `k` of them have then inserted it. */
  function Released(topics: set<string>, names: seq<string>, max: nat, k: nat): Registry
    requires max > 0 && k <= |names|
  {
    Registry(topics + First(names, k), max - 1 + k,
             map c: nat | c < |names| :: if c < k then Idle else Passed(names[c]), max)
  }

  lemma {:induction false} AllInsert(topics: set<string>, names: seq<string>, max: nat, k: nat)
    requires max > 0 && k <= |names| && NoDup(names) && forall i :: 0 <= i < |names| ==> names[i] !in topics
    ensures Reaches(Released(topics, names, max, k), Released(topics, names, max, |names|))
    decreases |names| - k
  {
    var r := Released(topics, names, max, k);
    if k == |names| {
      assert ValidRun(r, []) && Run(r, []) == r;
    } else {
      AllInsert(topics, names, max, k + 1);
      var next := Next(r, Insert(k));
      LaterIsNew(names, k, k);
      assert next.topics == Released(topics, names, max, k + 1).topics;
      assert next.callers == Released(topics, names, max, k + 1).callers;
      ReachesByStep(r, Insert(k), Released(topics, names, max, |names|));
    }
  }

  lemma {:induction false} AllPass(topics: set<string>, names: seq<string>, max: nat, k: nat)
    requires max > 0 && k <= |names| && NoDup(names) && forall i :: 0 <= i < |names| ==> names[i] !in topics
    ensures Reaches(Gathered(topics, names, max, k), Released(topics, names, max, |names|))
    decreases |names| - k
  {
    var r, goal := Gathered(topics, names, max, k), Released(topics, names, max, |names|);
    if k == |names| {
      AllInsert(topics, names, max, 0);
      assert r.callers == Released(topics, names, max, 0).callers;
      assert r.topics == Released(topics, names, max, 0).topics;
    } else {
      AllPass(topics, names, max, k + 1);
      OnePasses(topics, names, max, k);
      var missed := Next(r, Lookup(k, names[k]));
      ReachesByStep(missed, CheckLimit(k), goal);
      ReachesByStep(r, Lookup(k, names[k]), goal);
    }
  }

  lemma OnePasses(topics: set<string>, names: seq<string>, max: nat, k: nat)
    requires max > 0 && k < |names| && names[k] !in topics
    ensures var r := Gathered(topics, names, max, k);
            && Enabled(r, Lookup(k, names[k]))
            && var missed := Next(r, Lookup(k, names[k]));
               Enabled(missed, CheckLimit(k)) && Next(missed, CheckLimit(k)) == Gathered(topics, names, max, k + 1)
  {
    var r := Gathered(topics, names, max, k);
    var missed := Next(r, Lookup(k, names[k]));
    assert Next(missed, CheckLimit(k)).callers == Gathered(topics, names, max, k + 1).callers;
  }

  lemma {:induction false} LaterIsNew(names: seq<string>, k: nat, j: nat)
    requires k <= j < |names| && NoDup(names)
    ensures names[j] !in First(names, k)
    decreases k
  {
    if k == 0 {
    } else {
      LaterIsNew(names, k - 1, j);
      assert names[k - 1] != names[j];
    }
  }

  lemma {:induction false} FirstAvoids(names: seq<string>, k: nat, topics: set<string>)
    requires k <= |names| && forall i :: 0 <= i < |names| ==> names[i] !in topics
    ensures topics !! First(names, k)
    decreases k
  {
    if k == 0 {
    } else {
      FirstAvoids(names, k - 1, topics);
    }
  }

  lemma {:induction false} FirstSize(names: seq<string>, k: nat)
    requires k <= |names| && NoDup(names)
    ensures |First(names, k)| == k
    decreases k
  {
    if k == 0 {
    } else {
      FirstSize(names, k - 1);
      LaterIsNew(names, k - 1, k - 1);
    }
  }

  /** `n` callers that all check one below the limit before any of them
      inserts end with exactly `max + n - 1` topics. */
  lemma LimitOverrunIsReached(topics: set<string>, names: seq<string>, max: nat)
    requires max > 0 && |topics| == max - 1 && |names| >= 1
    requires NoDup(names) && forall i :: 0 <= i < |names| ==> names[i] !in topics
    ensures var start := Gathered(topics, names, max, 0);
            && (forall c :: c in start.callers ==> start.callers[c].Idle?)
            && exists steps :: ValidRun(start, steps) && |Run(start, steps).topics| == max + |names| - 1
  {
    var start := Gathered(topics, names, max, 0);
    AllPass(topics, names, max, 0);
    FirstSize(names, |names|);
    FirstAvoids(names, |names|, topics);
    var steps :| ValidRun(start, steps) && Run(start, steps) == Released(topics, names, max, |names|);
    assert |Run(start, steps).topics| == max + |names| - 1;
  }
}
