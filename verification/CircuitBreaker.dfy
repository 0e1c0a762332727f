/** The peer circuit breaker and what it guarantees over whole runs. */
module CircuitBreaker {
  import opened Words

  datatype Status = Closed | Open | HalfOpen

  datatype Breaker = Breaker(status: Status, failures: U32, lastFailure: U64)

  datatype Config = Config(threshold: U32, resetSecs: U64)

  datatype Event = Request(now: U64) | Success | Failure(now: U64)

  const INITIAL: Breaker := Breaker(Closed, 0, 0)

  predicate Admits(b: Breaker, now: U64, cfg: Config)
  {
    b.status.Open? ==> now >= WrapAdd(b.lastFailure, cfg.resetSecs)
  }

  function Next(b: Breaker, ev: Event, cfg: Config): Breaker
  {
    match ev
    case Request(now) => if b.status.Open? && Admits(b, now, cfg) then b.(status := HalfOpen) else b
    case Success => if b.status.Open? then b else b.(status := Closed, failures := 0)
    case Failure(now) =>
      var count := WrapAdd32(b.failures, 1);
      if count >= cfg.threshold then Breaker(Open, count, now) else b.(failures := count)
  }

  function Run(b: Breaker, evs: seq<Event>, cfg: Config): Breaker
    decreases |evs|
  {
    if evs == [] then b else Run(Next(b, evs[0], cfg), evs[1..], cfg)
  }

  class PeerBreaker {
    const cfg: Config
    var status: Status
    var failures: U32
    var lastFailure: U64

    constructor (cfg: Config)
      ensures this.cfg == cfg && View() == INITIAL
    {
      this.cfg := cfg;
      status, failures, lastFailure := Closed, 0, 0;
    }

    function View(): Breaker
      reads this
    {
      Breaker(status, failures, lastFailure)
    }

    method AllowRequest(now: U64) returns (ok: bool)
      modifies this
      ensures ok == Admits(old(View()), now, cfg) && View() == Next(old(View()), Request(now), cfg)
    {
      match status {
        case Closed => ok := true;
        case Open =>
          if now >= WrapAdd(lastFailure, cfg.resetSecs) {
            status := HalfOpen;
            ok := true;
          } else {
            ok := false;
          }
        case HalfOpen => ok := true;
      }
    }

    method RecordSuccess()
      modifies this
      ensures View() == Next(old(View()), Success, cfg)
    {
      if status != Open {
        status := Closed;
        failures := 0;
      }
    }

    method RecordFailure(now: U64)
      modifies this
      ensures View() == Next(old(View()), Failure(now), cfg)
    {
      var count := WrapAdd32(failures, 1);
      failures := count;
      if count >= cfg.threshold {
        status := Open;
        lastFailure := now;
      }
    }
  }

  // --------------------------------------------------------- when it is closed

  function Failures(evs: seq<Event>): nat
    decreases |evs|
  {
    if evs == [] then 0 else (if evs[0].Failure? then 1 else 0) + Failures(evs[1..])
  }

  /** No success in the run was heard: each came while the breaker was open. */
  ghost predicate NoEffectiveSuccess(b: Breaker, evs: seq<Event>, cfg: Config)
    decreases |evs|
  {
    evs == [] || ((evs[0].Success? ==> b.status.Open?) && NoEffectiveSuccess(Next(b, evs[0], cfg), evs[1..], cfg))
  }

  ghost predicate Counts(b: Breaker, n: nat, cfg: Config)
  {
    b.failures == n && (b.status.Closed? <==> n < cfg.threshold)
  }

  lemma {:induction false} FailuresDecide(b: Breaker, n: nat, evs: seq<Event>, cfg: Config)
    requires Counts(b, n, cfg) && NoEffectiveSuccess(b, evs, cfg) && n + Failures(evs) <= U32_MAX
    ensures Counts(Run(b, evs, cfg), n + Failures(evs), cfg)
    decreases |evs|
  {
    if evs == [] {
    } else {
      var n' := n + if evs[0].Failure? then 1 else 0;
      assert Counts(Next(b, evs[0], cfg), n', cfg);
      FailuresDecide(Next(b, evs[0], cfg), n', evs[1..], cfg);
    }
  }

  lemma {:induction false} RunConcat(b: Breaker, x: seq<Event>, y: seq<Event>, cfg: Config)
    ensures Run(b, x + y, cfg) == Run(Run(b, x, cfg), y, cfg)
    decreases |x|
  {
    if x == [] {
      assert x + y == y;
    } else {
      assert (x + y)[1..] == x[1..] + y;
      RunConcat(Next(b, x[0], cfg), x[1..], y, cfg);
    }
  }

  /** Split any run at its last effective success (or at its start): the
      breaker is closed exactly when fewer failures than the threshold have
      been reported since, and closed it lets every request through. */
  lemma ClosedExactly(past: seq<Event>, since: seq<Event>, cfg: Config)
    requires cfg.threshold >= 1 && Failures(since) <= U32_MAX
    requires past == [] ||
             (past[|past| - 1].Success? && !Run(INITIAL, past[..|past| - 1], cfg).status.Open?)
    requires NoEffectiveSuccess(Run(INITIAL, past, cfg), since, cfg)
    ensures Run(INITIAL, past + since, cfg).status.Closed? <==> Failures(since) < cfg.threshold
    ensures Failures(since) < cfg.threshold ==>
      forall now: U64 :: && Admits(Run(INITIAL, past + since, cfg), now, cfg)
                         && Next(Run(INITIAL, past + since, cfg), Request(now), cfg) == Run(INITIAL, past + since, cfg)
  {
    var b := Run(INITIAL, past, cfg);
    if past != [] {
      var n := |past| - 1;
      RunConcat(INITIAL, past[..n], [past[n]], cfg);
      assert past == past[..n] + [past[n]] && [past[n]][1..] == [];
      assert b == Next(Run(INITIAL, past[..n], cfg), past[n], cfg);
    }
    FailuresDecide(b, 0, since, cfg);
    RunConcat(INITIAL, past, since, cfg);
  }

  // ------------------------------------------------------ while it is open

  /** Every clock reading of the run lies in `[from, until)`. */
  ghost predicate Within(evs: seq<Event>, from: int, until: int)
  {
    forall i :: 0 <= i < |evs| && !evs[i].Success? ==> from <= evs[i].now < until
  }

  ghost predicate AdmitsNone(b: Breaker, evs: seq<Event>, cfg: Config)
    decreases |evs|
  {
    evs == [] ||
    ((evs[0].Request? ==> !Admits(b, evs[0].now, cfg)) && AdmitsNone(Next(b, evs[0], cfg), evs[1..], cfg))
  }

  /** The deadline of every failure of the run fits in 64 bits. */
  ghost predicate DeadlinesFit(evs: seq<Event>, cfg: Config)
  {
    forall i :: 0 <= i < |evs| && evs[i].Failure? ==> evs[i].now + cfg.resetSecs <= U64_MAX
  }

  /** From a failure that leaves the breaker open at time `f` until `f` plus
      the reset time no request is admitted, whatever is reported meanwhile. */
  lemma {:induction false} OpenAdmitsNone(b: Breaker, f: U64, evs: seq<Event>, cfg: Config)
    requires b.status.Open? && f <= b.lastFailure < f + cfg.resetSecs && b.lastFailure + cfg.resetSecs <= U64_MAX
    requires Within(evs, f, f + cfg.resetSecs) && DeadlinesFit(evs, cfg)
    requires b.failures + Failures(evs) <= U32_MAX && b.failures >= cfg.threshold
    ensures AdmitsNone(b, evs, cfg) && Run(b, evs, cfg).status.Open?
    decreases |evs|
  {
    if evs == [] {
    } else {
      var b' := Next(b, evs[0], cfg);
      if evs[0].Request? { assert !Admits(b, evs[0].now, cfg); }
      assert forall i :: 0 <= i < |evs[1..]| ==> evs[1..][i] == evs[i + 1];
      OpenAdmitsNone(b', f, evs[1..], cfg);
    }
  }

  lemma OpeningAdmitsNone(b: Breaker, f: U64, evs: seq<Event>, cfg: Config)
    requires Next(b, Failure(f), cfg).status.Open? && b.failures + 1 >= cfg.threshold && cfg.resetSecs > 0
    requires b.failures + 1 + Failures(evs) <= U32_MAX
    requires Within(evs, f, f + cfg.resetSecs) && f + cfg.resetSecs <= U64_MAX && DeadlinesFit(evs, cfg)
    ensures AdmitsNone(Next(b, Failure(f), cfg), evs, cfg)
  {
    OpenAdmitsNone(Next(b, Failure(f), cfg), f, evs, cfg);
  }

  /** Between the two stores of an opening failure the breaker reads open with
      the previous failure time. */
  function BetweenStores(b: Breaker): Breaker
  {
    b.(status := Open, failures := WrapAdd32(b.failures, 1))
  }

  ghost predicate RequestsBefore(evs: seq<Event>, deadline: U64)
  {
    forall i :: 0 <= i < |evs| && evs[i].Request? ==> evs[i].now < deadline
  }

  /** The opening survives whatever requests and successes fall between its two
      stores exactly when no request among them comes at or after the previous
      failure's deadline. Otherwise the failure ends half-open, where every
      request is admitted. */
  lemma {:induction false} OpeningSurvivesExactly(b: Breaker, evs: seq<Event>, f: U64, cfg: Config)
    requires forall i :: 0 <= i < |evs| ==> !evs[i].Failure?
    ensures var after := Run(BetweenStores(b), evs, cfg).(lastFailure := f);
            && (after.status.Open? <==> RequestsBefore(evs, WrapAdd(b.lastFailure, cfg.resetSecs)))
            && (!after.status.Open? ==> forall now: U64 :: Admits(after, now, cfg))
  {
    RaceDecides(BetweenStores(b), evs, cfg);
  }

  lemma {:induction false} RaceDecides(b: Breaker, evs: seq<Event>, cfg: Config)
    requires forall i :: 0 <= i < |evs| ==> !evs[i].Failure?
    ensures Run(b, evs, cfg).status.Open? <==>
      b.status.Open? && RequestsBefore(evs, WrapAdd(b.lastFailure, cfg.resetSecs))
    decreases |evs|
  {
    if evs == [] {
    } else {
      assert !evs[0].Failure?;
      assert forall i :: 0 <= i < |evs[1..]| ==> evs[1..][i] == evs[i + 1];
      assert forall i :: 1 <= i < |evs| ==> evs[i] == evs[1..][i - 1];
      RaceDecides(Next(b, evs[0], cfg), evs[1..], cfg);
    }
  }

  /** Once the reset time is over, with no failure since, a request goes
      through as a probe: a success then closes the breaker and forgets the
      failures, a failure reopens it for another full reset time. */
  lemma ProbeDecides(f: U64, failures: U32, now: U64, later: U64, cfg: Config)
    requires f + cfg.resetSecs <= now && cfg.threshold <= failures < U32_MAX
    ensures var open := Breaker(Open, failures, f);
            var probing := Next(open, Request(now), cfg);
            && Admits(open, now, cfg) && Admits(probing, later, cfg)
            && Next(probing, Success, cfg).status.Closed? && Next(probing, Success, cfg).failures == 0
            && Next(probing, Failure(later), cfg).status.Open? && Next(probing, Failure(later), cfg).lastFailure == later
  {
  }

  /** The deadline is computed without overflow checks: the whole interval is
      protected exactly when `f` plus the reset time fits in 64 bits. */
  lemma WindowProtectedExactly(f: U64, failures: U32, cfg: Config)
    requires cfg.resetSecs > 0
    ensures (forall now: U64 :: f <= now < f + cfg.resetSecs ==> !Admits(Breaker(Open, failures, f), now, cfg))
       <==> f + cfg.resetSecs <= U64_MAX
  {
    if f + cfg.resetSecs > U64_MAX {
      assert Admits(Breaker(Open, failures, f), f, cfg);
    }
  }
}
