/**
 * The goroutines, channels, contexts and timer of the four DNS racers (dns/router.go), as a step machine.
 *
 * A state holds the caller's context, the race's own context `queryCtx`, the goroutine that closes
 * `fallbackStart`, one worker goroutine per transport, and the consumer. A step is one of the atomic
 * things the scheduler may do next. A query is an oracle: it ends with any outcome at any time, but it
 * honours its deadline, so the clock does not pass the deadline of a query that still runs.
 */
module RaceProtocol {
  import opened Optional

  /** `stops` is the consumer's test for a result that ends the race at once. */
  datatype Config<!O> = Config(primaries: nat, fallbacks: nat, upstreamTimeout: nat, fallbackTimeout: nat, grace: nat, stops: O -> bool)
  {
    /** Hedging is entered with a timeout and a fallback only; otherwise the plain racer runs the primaries. */
    predicate Hedged() {
      upstreamTimeout > 0 && fallbacks > 0
    }

    function Total(): nat {
      if Hedged() then primaries + fallbacks else primaries
    }

    function Deadline(worker: nat, since: nat): Option<nat> {
      if worker < primaries then
        if Hedged() then Some(upstreamTimeout + grace) else None
      else if fallbackTimeout > 0 then Some(since + fallbackTimeout)
      else None
    }
  }

  datatype Worker<O> =
    | Parked                                             // waits for fallbackStart or for queryCtx
    | Woken                                              // left that select, has not read queryCtx.Err() yet
    | Querying(since: nat)
    | Offering(since: nat, until: nat, outcome: O)       // sends on results, or sees returned closed
    | Delivered(since: nat, until: nat, outcome: O)
    | Abandoned(since: nat, until: nat)                  // saw returned closed
    | Skipped                                            // never queried

  datatype Timer = Ticking | Released | Closed

  /** Why the consumer left its loop, and how far its deferred calls have come. */
  datatype Consumer = Waiting | Leaving(interrupted: bool) | Cancelled(interrupted: bool) | Returned(interrupted: bool)

  datatype State<O> = State(
    now: nat,
    callerDone: bool,
    queryDone: bool,
    timer: Timer,
    workers: seq<Worker<O>>,
    received: seq<O>,
    consumer: Consumer)

  datatype Step<O> =
    | Tick(d: nat)
    | CancelCaller
    | PropagateCancel
    | ReleaseTimer
    | CloseFallbackStart
    | Wake(i: nat)
    | SkipParked(i: nat)
    | CheckContext(i: nat)
    | FinishQuery(i: nat, outcome: O)
    | Deliver(i: nat)
    | ObserveCaller
    | CancelQuery
    | CloseReturned
    | Abandon(i: nat)

  function Init<O>(c: Config<O>): State<O> {
    State(
      0, false, false,
      if c.Hedged() then Ticking else Closed,
      seq(c.Total(), i => if i < c.primaries then Querying(0) else Parked),
      [],
      if c.Total() == 0 then Leaving(false) else Waiting)
  }

  predicate Enabled<O>(c: Config<O>, s: State<O>, step: Step<O>) {
    match step
    case Tick(d) =>
      forall i :: 0 <= i < |s.workers| && s.workers[i].Querying? && c.Deadline(i, s.workers[i].since).Some? ==>
        s.now + d <= c.Deadline(i, s.workers[i].since).value
    case CancelCaller => !s.callerDone
    case PropagateCancel => s.callerDone && !s.queryDone
    case ReleaseTimer => s.timer.Ticking? && (s.now >= c.upstreamTimeout || s.queryDone)
    case CloseFallbackStart => s.timer.Released?
    case Wake(i) => i < |s.workers| && s.workers[i].Parked? && s.timer.Closed?
    case SkipParked(i) => i < |s.workers| && s.workers[i].Parked? && s.queryDone
    case CheckContext(i) => i < |s.workers| && s.workers[i].Woken?
    case FinishQuery(i, outcome) => i < |s.workers| && s.workers[i].Querying?
    case Deliver(i) => i < |s.workers| && s.workers[i].Offering? && s.consumer.Waiting?
    case ObserveCaller => s.consumer.Waiting? && s.callerDone
    case CancelQuery => s.consumer.Leaving?
    case CloseReturned => s.consumer.Cancelled?
    case Abandon(i) => i < |s.workers| && s.workers[i].Offering? && s.consumer.Returned?
  }

  function Apply<O>(c: Config<O>, s: State<O>, step: Step<O>): State<O>
    requires Enabled(c, s, step)
  {
    match step
    case Tick(d) => s.(now := s.now + d)
    case CancelCaller => s.(callerDone := true)
    case PropagateCancel => s.(queryDone := true)
    case ReleaseTimer => s.(timer := Released)
    case CloseFallbackStart => s.(timer := Closed)
    case Wake(i) => s.(workers := s.workers[i := Woken])
    case SkipParked(i) => s.(workers := s.workers[i := Skipped])
    case CheckContext(i) => s.(workers := s.workers[i := if s.queryDone then Skipped else Querying(s.now)])
    case FinishQuery(i, outcome) => s.(workers := s.workers[i := Offering(s.workers[i].since, s.now, outcome)])
    case Deliver(i) =>
      var w := s.workers[i];
      var received := s.received + [w.outcome];
      s.(workers := s.workers[i := Delivered(w.since, w.until, w.outcome)],
         received := received,
         consumer := if c.stops(w.outcome) || |received| == c.Total() then Leaving(false) else Waiting)
    case ObserveCaller => s.(consumer := Leaving(true))
    case CancelQuery => s.(queryDone := true, consumer := Cancelled(s.consumer.interrupted))
    case CloseReturned => s.(consumer := Returned(s.consumer.interrupted))
    case Abandon(i) => s.(workers := s.workers[i := Abandoned(s.workers[i].since, s.workers[i].until)])
  }

  /** The state a run of steps reaches, if every step was enabled when it was taken. */
  function Run<O>(c: Config<O>, s: State<O>, steps: seq<Step<O>>): Option<State<O>>
    decreases steps
  {
    if steps == [] then Some(s)
    else if Enabled(c, s, steps[0]) then Run(c, Apply(c, s, steps[0]), steps[1..])
    else None
  }

  ghost predicate Reachable<O(!new)>(c: Config<O>, s: State<O>) {
    exists steps :: Run(c, Init(c), steps) == Some(s)
  }

  // ---------------------------------------------------------------- the invariant

  /** One delivery per worker: the outcomes delivered so far, counted with multiplicity. */
  ghost function Outcomes<O>(workers: seq<Worker<O>>): multiset<O> {
    if workers == [] then multiset{}
    else Outcomes(workers[1..]) + (if workers[0].Delivered? then multiset{workers[0].outcome} else multiset{})
  }

  predicate Started<O>(w: Worker<O>) {
    w.Querying? || w.Offering? || w.Delivered? || w.Abandoned?
  }

  predicate Ended<O>(w: Worker<O>) {
    w.Offering? || w.Delivered? || w.Abandoned?
  }

  predicate WorkerInv<O>(c: Config<O>, s: State<O>, i: nat)
    requires i < |s.workers|
  {
    var w := s.workers[i];
    && (i < c.primaries ==> Started(w) && w.since == 0)
    && (i >= c.primaries && Started(w) ==> c.upstreamTimeout <= w.since <= s.now)
    && (Ended(w) ==> w.since <= w.until <= s.now && (c.Deadline(i, w.since).Some? ==> w.until <= c.Deadline(i, w.since).value))
    && (w.Querying? && c.Deadline(i, w.since).Some? ==> s.now <= c.Deadline(i, w.since).value)
    && (w.Woken? ==> s.timer.Closed?)
    && (w.Skipped? ==> s.queryDone)
    && (w.Abandoned? ==> s.consumer.Returned?)
  }

  predicate ContextInv<O>(c: Config<O>, s: State<O>) {
    && (s.queryDone ==> s.callerDone || s.consumer.Cancelled? || s.consumer.Returned?)
    && (s.consumer.Cancelled? || s.consumer.Returned? ==> s.queryDone)
    && (c.Hedged() && !s.timer.Ticking? && !s.queryDone ==> s.now >= c.upstreamTimeout)
    && (!c.Hedged() ==> s.timer.Closed?)
  }

  ghost predicate Inv<O>(c: Config<O>, s: State<O>) {
    && |s.workers| == c.Total()
    && (forall i :: 0 <= i < |s.workers| ==> WorkerInv(c, s, i))
    && multiset(s.received) == Outcomes(s.workers)
    && ContextInv(c, s)
    && ConsumerInv(c, s)
  }

  predicate ConsumerInv<O>(c: Config<O>, s: State<O>) {
    var n := |s.received|;
    && n <= c.Total()
    && (forall k :: 0 <= k < n - 1 ==> !c.stops(s.received[k]))
    && (s.consumer.Waiting? ==> n < c.Total() && (n > 0 ==> !c.stops(s.received[n - 1])))
    && (!s.consumer.Waiting? && s.consumer.interrupted ==> s.callerDone && n < c.Total() && (n > 0 ==> !c.stops(s.received[n - 1])))
    && (!s.consumer.Waiting? && !s.consumer.interrupted ==> n == c.Total() || (n > 0 && c.stops(s.received[n - 1])))
  }

  lemma {:induction false} OutcomesUpdate<O>(workers: seq<Worker<O>>, i: nat, w: Worker<O>)
    requires i < |workers| && !workers[i].Delivered?
    ensures Outcomes(workers[i := w]) == Outcomes(workers) + (if w.Delivered? then multiset{w.outcome} else multiset{})
  {
    if i == 0 {
      assert workers[0 := w][1..] == workers[1..];
    } else {
      OutcomesUpdate(workers[1..], i - 1, w);
      assert workers[i := w][1..] == workers[1..][i - 1 := w];
    }
  }

  lemma {:induction false} NothingDelivered<O>(workers: seq<Worker<O>>)
    requires forall i :: 0 <= i < |workers| ==> !workers[i].Delivered?
    ensures Outcomes(workers) == multiset{}
  {
    if workers != [] {
      assert forall i :: 0 <= i < |workers[1..]| ==> workers[1..][i] == workers[i + 1];
      NothingDelivered(workers[1..]);
    }
  }

  lemma InitInv<O>(c: Config<O>)
    ensures Inv(c, Init(c))
  {
    NothingDelivered(Init(c).workers);
  }

  lemma StepWorker<O>(c: Config<O>, s: State<O>, step: Step<O>, i: nat)
    requires |s.workers| == c.Total() && i < |s.workers| && WorkerInv(c, s, i)
    requires ContextInv(c, s)
    requires Enabled(c, s, step)
    ensures |Apply(c, s, step).workers| == |s.workers|
    ensures WorkerInv(c, Apply(c, s, step), i)
  {
    var t := Apply(c, s, step);
    if step.Tick? && s.workers[i].Querying? && c.Deadline(i, s.workers[i].since).Some? {
      assert t.now <= c.Deadline(i, s.workers[i].since).value;
    }
  }

  lemma StepOutcomes<O>(c: Config<O>, s: State<O>, step: Step<O>)
    requires multiset(s.received) == Outcomes(s.workers)
    requires Enabled(c, s, step)
    ensures multiset(Apply(c, s, step).received) == Outcomes(Apply(c, s, step).workers)
  {
    var t := Apply(c, s, step);
    if t.workers != s.workers {
      var i := step.i;
      OutcomesUpdate(s.workers, i, t.workers[i]);
    }
  }

  lemma StepShared<O>(c: Config<O>, s: State<O>, step: Step<O>)
    requires ContextInv(c, s) && ConsumerInv(c, s) && Enabled(c, s, step)
    ensures ContextInv(c, Apply(c, s, step)) && ConsumerInv(c, Apply(c, s, step))
  {
  }

  lemma StepInv<O>(c: Config<O>, s: State<O>, step: Step<O>)
    requires Inv(c, s) && Enabled(c, s, step)
    ensures Inv(c, Apply(c, s, step))
  {
    var t := Apply(c, s, step);
    StepShared(c, s, step);
    StepOutcomes(c, s, step);
    forall i | 0 <= i < |s.workers| ensures |t.workers| == |s.workers| && WorkerInv(c, t, i) {
      StepWorker(c, s, step, i);
    }
  }

  lemma {:induction false} RunInv<O>(c: Config<O>, s: State<O>, steps: seq<Step<O>>)
    requires Inv(c, s) && Run(c, s, steps).Some?
    ensures Inv(c, Run(c, s, steps).value)
    decreases steps
  {
    if steps != [] {
      StepInv(c, s, steps[0]);
      RunInv(c, Apply(c, s, steps[0]), steps[1..]);
    }
  }

  lemma ReachableInv<O(!new)>(c: Config<O>, s: State<O>)
    requires Reachable(c, s)
    ensures Inv(c, s)
  {
    var steps :| Run(c, Init(c), steps) == Some(s);
    InitInv(c);
    RunInv(c, Init(c), steps);
  }

  // ---------------------------------------------------------------- progress while the consumer waits

  predicate WillOffer<O>(w: Worker<O>) {
    w.Parked? || w.Woken? || w.Querying? || w.Offering?
  }

  /** How many workers will still offer a result. */
  ghost function Pending<O>(workers: seq<Worker<O>>): nat {
    if workers == [] then 0
    else Pending(workers[1..]) + (if WillOffer(workers[0]) then 1 else 0)
  }

  lemma {:induction false} PendingOrDelivered<O>(workers: seq<Worker<O>>)
    requires forall i :: 0 <= i < |workers| ==> WillOffer(workers[i]) || workers[i].Delivered?
    ensures Pending(workers) + |Outcomes(workers)| == |workers|
  {
    if workers != [] {
      assert forall i :: 0 <= i < |workers[1..]| ==> workers[1..][i] == workers[i + 1];
      PendingOrDelivered(workers[1..]);
    }
  }

  lemma {:induction false} SomePending<O>(workers: seq<Worker<O>>)
    requires Pending(workers) > 0
    ensures exists i :: 0 <= i < |workers| && WillOffer(workers[i])
  {
    if !WillOffer(workers[0]) {
      SomePending(workers[1..]);
      var i :| 0 <= i < |workers[1..]| && WillOffer(workers[1..][i]);
      assert WillOffer(workers[i + 1]);
    }
  }

  /**
   * While the consumer waits and the caller is there, nothing has been cancelled and exactly the missing
   * results are still on their way: the loop cannot wait for a result that nobody will send.
   */
  lemma WaitingIsServed<O(!new)>(c: Config<O>, s: State<O>)
    requires Reachable(c, s) && s.consumer.Waiting? && !s.callerDone
    ensures !s.queryDone
    ensures Pending(s.workers) == c.Total() - |s.received| > 0
    ensures exists i :: 0 <= i < |s.workers| && WillOffer(s.workers[i])
  {
    ReachableInv(c, s);
    forall i | 0 <= i < |s.workers| ensures WillOffer(s.workers[i]) || s.workers[i].Delivered? {
      assert WorkerInv(c, s, i);
    }
    PendingOrDelivered(s.workers);
    assert |multiset(s.received)| == |s.received|;
    SomePending(s.workers);
  }

  /** A fallback goroutine leaves without a result only after its race was cancelled or its consumer left. */
  lemma SilenceNeedsCancellation<O(!new)>(c: Config<O>, s: State<O>, i: nat)
    requires Reachable(c, s) && i < |s.workers|
    ensures s.workers[i].Skipped? ==> i >= c.primaries && s.queryDone && (s.callerDone || !s.consumer.Waiting?)
    ensures s.workers[i].Abandoned? ==> s.consumer.Returned?
  {
    ReachableInv(c, s);
    assert WorkerInv(c, s, i);
  }

  // ---------------------------------------------------------------- timeline

  /**
   * The documented schedule: primaries start at once and are over by the upstream timeout plus the grace
   * window; a fallback starts no earlier than the upstream timeout and is over a fallback timeout later.
   */
  lemma HedgingTimeline<O(!new)>(c: Config<O>, s: State<O>, i: nat)
    requires Reachable(c, s) && c.Hedged() && i < |s.workers|
    ensures i < c.primaries ==> Started(s.workers[i]) && s.workers[i].since == 0
    ensures i < c.primaries && Ended(s.workers[i]) ==> s.workers[i].until <= c.upstreamTimeout + c.grace
    ensures i < c.primaries && s.workers[i].Querying? ==> s.now <= c.upstreamTimeout + c.grace
    ensures i >= c.primaries && Started(s.workers[i]) ==> c.upstreamTimeout <= s.workers[i].since <= s.now
    ensures i >= c.primaries && Ended(s.workers[i]) && c.fallbackTimeout > 0 ==>
      s.workers[i].since <= s.workers[i].until <= s.workers[i].since + c.fallbackTimeout
    ensures i >= c.primaries && s.workers[i].Querying? && c.fallbackTimeout > 0 ==> s.now <= s.workers[i].since + c.fallbackTimeout
  {
    ReachableInv(c, s);
    assert WorkerInv(c, s, i);
  }

  /** The clock may run until the first deadline of a query, and no further. */
  lemma ClockWaitsForDeadlines<O>(c: Config<O>, s: State<O>, d: nat)
    requires |s.workers| == c.Total()
    ensures Enabled(c, s, Tick(d)) <==> forall i :: 0 <= i < |s.workers| && s.workers[i].Querying? ==>
      && (i < c.primaries && c.Hedged() ==> s.now + d <= c.upstreamTimeout + c.grace)
      && (i >= c.primaries && c.fallbackTimeout > 0 ==> s.now + d <= s.workers[i].since + c.fallbackTimeout)
  {
  }

  /** The times are used up if need be: a primary may answer when its grace ends, a fallback starts at the timeout. */
  lemma TimesAreGranted<O>(c: Config<O>, outcome: O)
    requires c.Hedged()
    ensures c.primaries > 0 ==>
      var t := Run(c, Init(c), [Tick(c.upstreamTimeout + c.grace), FinishQuery(0, outcome), Deliver(0)]);
      t.Some? && t.value.received == [outcome]
    ensures var t := Run(c, Init(c), [Tick(c.upstreamTimeout), ReleaseTimer, CloseFallbackStart, Wake(c.primaries), CheckContext(c.primaries)]);
      t.Some? && |t.value.workers| > c.primaries && t.value.workers[c.primaries] == Querying(c.upstreamTimeout)
  {
    var s := Init(c);
    if c.primaries > 0 {
      var late: Step<O> := Tick(c.upstreamTimeout + c.grace);
      var s1 := Apply(c, s, late);
      var s2 := Apply(c, s1, FinishQuery(0, outcome));
      RunOf3(c, s, late, FinishQuery(0, outcome), Deliver(0));
    }
    var f := c.primaries;
    var s1 := Apply(c, s, Tick(c.upstreamTimeout));
    var s2 := Apply(c, s1, ReleaseTimer);
    var s3 := Apply(c, s2, CloseFallbackStart);
    var s4 := Apply(c, s3, Wake(f));
    RunOf3(c, s2, CloseFallbackStart, Wake(f), CheckContext(f));
    var all: seq<Step<O>> := [Tick(c.upstreamTimeout), ReleaseTimer, CloseFallbackStart, Wake(f), CheckContext(f)];
    assert all[1..][1..] == [CloseFallbackStart, Wake(f), CheckContext(f)];
  }

  lemma RunOf3<O>(c: Config<O>, s: State<O>, a: Step<O>, b: Step<O>, d: Step<O>)
    requires Enabled(c, s, a) && Enabled(c, Apply(c, s, a), b) && Enabled(c, Apply(c, Apply(c, s, a), b), d)
    ensures Run(c, s, [a, b, d]) == Some(Apply(c, Apply(c, Apply(c, s, a), b), d))
  {
    var t := Apply(c, s, a);
    assert [a, b, d][1..] == [b, d];
    assert [b, d][1..] == [d];
    assert [d][1..] == [];
    assert Run(c, t, [b, d]) == Run(c, Apply(c, t, b), [d]);
  }

  /** A step of a cancelled race starts no query. */
  lemma CancelledStepStartsNothing<O>(c: Config<O>, s: State<O>, step: Step<O>, i: nat)
    requires s.queryDone && Enabled(c, s, step) && i < |s.workers|
    ensures Apply(c, s, step).queryDone && |Apply(c, s, step).workers| == |s.workers|
    ensures Started(Apply(c, s, step).workers[i]) <==> Started(s.workers[i])
  {
  }

  /** Once a race is cancelled no query is started: the set of workers that have queried stays as it is. */
  lemma {:induction false} NoQueryStartsAfterCancel<O>(c: Config<O>, s: State<O>, steps: seq<Step<O>>, i: nat)
    requires s.queryDone && Run(c, s, steps).Some? && i < |s.workers|
    ensures var t := Run(c, s, steps).value;
      t.queryDone && |t.workers| == |s.workers| && (Started(t.workers[i]) <==> Started(s.workers[i]))
    decreases steps
  {
    if steps != [] {
      CancelledStepStartsNothing(c, s, steps[0], i);
      NoQueryStartsAfterCancel(c, Apply(c, s, steps[0]), steps[1..], i);
    }
  }

  // ---------------------------------------------------------------- what the consumer has seen when it leaves

  lemma {:induction false} AllDelivered<O>(workers: seq<Worker<O>>)
    ensures |Outcomes(workers)| <= |workers|
    ensures |Outcomes(workers)| == |workers| ==> forall i :: 0 <= i < |workers| ==> workers[i].Delivered?
    ensures forall i :: 0 <= i < |workers| && workers[i].Delivered? ==> workers[i].outcome in Outcomes(workers)
  {
    if workers != [] {
      AllDelivered(workers[1..]);
      assert forall i :: 1 <= i < |workers| ==> workers[i] == workers[1..][i - 1];
    }
  }

  /**
   * A consumer that leaves its loop by itself either ends with a stopping result, or has heard every worker
   * and none of them had a stopping result. It reads nothing that no worker sent.
   */
  lemma LeavesForAReason<O(!new)>(c: Config<O>, s: State<O>)
    requires Reachable(c, s) && !s.consumer.Waiting? && !s.consumer.interrupted
    ensures multiset(s.received) == Outcomes(s.workers)
    ensures (exists k :: 0 <= k < |s.received| && c.stops(s.received[k])) ||
            forall i :: 0 <= i < |s.workers| ==> s.workers[i].Delivered? && !c.stops(s.workers[i].outcome)
  {
    ReachableInv(c, s);
    AllDelivered(s.workers);
    assert |multiset(s.received)| == |s.received|;
    if forall k :: 0 <= k < |s.received| ==> !c.stops(s.received[k]) {
      forall i | 0 <= i < |s.workers| ensures s.workers[i].Delivered? && !c.stops(s.workers[i].outcome) {
        assert s.workers[i].outcome in multiset(s.received);
        assert s.workers[i].outcome in s.received;
      }
    }
  }

  // ---------------------------------------------------------------- termination and deadlock freedom

  function Rank<O>(w: Worker<O>): nat {
    match w
    case Parked => 4
    case Woken => 3
    case Querying(_) => 2
    case Offering(_, _, _) => 1
    case _ => 0
  }

  ghost function Work<O>(workers: seq<Worker<O>>): nat {
    if workers == [] then 0 else Rank(workers[0]) + Work(workers[1..])
  }

  /** Bounds the steps still to come, other than the passing of time. */
  ghost function Measure<O>(s: State<O>): nat {
    Work(s.workers)
    + (match s.timer case Ticking => 2 case Released => 1 case Closed => 0)
    + (match s.consumer case Waiting => 3 case Leaving(_) => 2 case Cancelled(_) => 1 case Returned(_) => 0)
    + (if s.callerDone then 0 else 1) + (if s.queryDone then 0 else 1)
  }

  lemma {:induction false} WorkUpdate<O>(workers: seq<Worker<O>>, i: nat, w: Worker<O>)
    requires i < |workers|
    ensures Work(workers[i := w]) == Work(workers) - Rank(workers[i]) + Rank(w)
  {
    if i == 0 {
      assert workers[0 := w][1..] == workers[1..];
    } else {
      WorkUpdate(workers[1..], i - 1, w);
      assert workers[i := w][1..] == workers[1..][i - 1 := w];
    }
  }

  lemma StepShrinks<O>(c: Config<O>, s: State<O>, step: Step<O>)
    requires Enabled(c, s, step)
    ensures Measure(Apply(c, s, step)) + (if step.Tick? then 0 else 1) <= Measure(s)
  {
    var t := Apply(c, s, step);
    if t.workers != s.workers {
      WorkUpdate(s.workers, step.i, t.workers[step.i]);
    }
  }

  function Actions<O>(steps: seq<Step<O>>): nat {
    if steps == [] then 0 else (if steps[0].Tick? then 0 else 1) + Actions(steps[1..])
  }

  /** Every run is short: apart from clock ticks it has no more steps than the measure of the state it starts in. */
  lemma {:induction false} RunsAreBounded<O>(c: Config<O>, s: State<O>, steps: seq<Step<O>>)
    requires Run(c, s, steps).Some?
    ensures Actions(steps) + Measure(Run(c, s, steps).value) <= Measure(s)
    decreases steps
  {
    if steps != [] {
      StepShrinks(c, s, steps[0]);
      RunsAreBounded(c, Apply(c, s, steps[0]), steps[1..]);
    }
  }

  /** All goroutines of the race have ended. */
  predicate Quiet<O>(s: State<O>) {
    && s.consumer.Returned?
    && s.timer.Closed?
    && (forall i :: 0 <= i < |s.workers| ==> s.workers[i].Delivered? || s.workers[i].Abandoned? || s.workers[i].Skipped?)
  }

  /** A step of the program itself: neither the clock nor the caller's own cancellation. */
  predicate Own<O>(step: Step<O>) {
    !step.Tick? && !step.CancelCaller?
  }

  /**
   * No reachable state is stuck: a race that is not over can take a step of its own, or is waiting for its
   * timer, with the clock free to move. Once the consumer has returned no clock is needed.
   */
  lemma NeverStuck<O(!new)>(c: Config<O>, s: State<O>, someOutcome: O)
    requires Reachable(c, s) && !Quiet(s)
    ensures (exists step :: Own(step) && Enabled(c, s, step)) ||
            (s.timer.Ticking? && s.now < c.upstreamTimeout && Enabled(c, s, Tick(1)))
    ensures s.consumer.Returned? ==> exists step :: Own(step) && Enabled(c, s, step)
  {
    ReachableInv(c, s);
    if s.timer.Released? {
      assert Own<O>(CloseFallbackStart) && Enabled(c, s, CloseFallbackStart);
    } else if s.consumer.Leaving? {
      assert Own<O>(CancelQuery) && Enabled(c, s, CancelQuery);
    } else if s.consumer.Cancelled? {
      assert Own<O>(CloseReturned) && Enabled(c, s, CloseReturned);
    } else if s.timer.Ticking? && (s.now >= c.upstreamTimeout || s.queryDone) {
      assert Own<O>(ReleaseTimer) && Enabled(c, s, ReleaseTimer);
    } else if i :| 0 <= i < |s.workers| && WillOffer(s.workers[i]) && !s.workers[i].Parked? {
      UnparkedCanMove(c, s, i, someOutcome);
    } else if s.consumer.Returned? || s.callerDone {
      CancelledCanMove(c, s);
    } else {
      WaitingIsServed(c, s);
      var i :| 0 <= i < |s.workers| && WillOffer(s.workers[i]);
      assert s.workers[i].Parked?;
      if s.timer.Closed? {
        assert Own<O>(Wake(i)) && Enabled(c, s, Wake(i));
      } else {
        assert Enabled(c, s, Tick(1));
      }
    }
  }

  lemma UnparkedCanMove<O>(c: Config<O>, s: State<O>, i: nat, someOutcome: O)
    requires i < |s.workers| && WillOffer(s.workers[i]) && !s.workers[i].Parked?
    requires s.consumer.Waiting? || s.consumer.Returned?
    ensures exists step :: Own(step) && Enabled(c, s, step)
  {
    match s.workers[i]
    case Woken => assert Own<O>(CheckContext(i)) && Enabled(c, s, CheckContext(i));
    case Querying(_) => assert Own(FinishQuery(i, someOutcome)) && Enabled(c, s, FinishQuery(i, someOutcome));
    case Offering(_, _, _) =>
      if s.consumer.Waiting? {
        assert Own<O>(Deliver(i)) && Enabled(c, s, Deliver(i));
      } else {
        assert Own<O>(Abandon(i)) && Enabled(c, s, Abandon(i));
      }
  }

  lemma CancelledCanMove<O>(c: Config<O>, s: State<O>)
    requires Inv(c, s) && !Quiet(s) && (s.callerDone || s.consumer.Returned?)
    requires s.consumer.Waiting? || s.consumer.Returned?
    requires s.timer.Ticking? ==> !s.queryDone
    requires !s.timer.Released?
    requires forall i :: 0 <= i < |s.workers| && WillOffer(s.workers[i]) ==> s.workers[i].Parked?
    ensures exists step :: Own(step) && Enabled(c, s, step)
  {
    if s.consumer.Waiting? {
      assert Own<O>(ObserveCaller) && Enabled(c, s, ObserveCaller);
    } else {
      var i :| 0 <= i < |s.workers| && !(s.workers[i].Delivered? || s.workers[i].Abandoned? || s.workers[i].Skipped?);
      assert WillOffer(s.workers[i]);
      assert Own<O>(SkipParked(i)) && Enabled(c, s, SkipParked(i));
    }
  }

  lemma {:induction false} RunExtends<O>(c: Config<O>, s: State<O>, steps: seq<Step<O>>, step: Step<O>)
    requires Run(c, s, steps).Some? && Enabled(c, Run(c, s, steps).value, step)
    ensures Run(c, s, steps + [step]) == Some(Apply(c, Run(c, s, steps).value, step))
    decreases steps
  {
    if steps == [] {
      assert [step][1..] == [];
    } else {
      RunExtends(c, Apply(c, s, steps[0]), steps[1..], step);
      assert (steps + [step])[1..] == steps[1..] + [step];
    }
  }

  /** Nothing leaks: once the consumer has returned, the race's own steps lead to the end of every goroutine. */
  lemma {:induction false} DrainsAfterReturn<O(!new)>(c: Config<O>, s: State<O>, someOutcome: O) returns (steps: seq<Step<O>>)
    requires Reachable(c, s) && s.consumer.Returned?
    ensures forall k :: 0 <= k < |steps| ==> Own(steps[k])
    ensures Run(c, s, steps).Some? && Quiet(Run(c, s, steps).value)
    decreases Measure(s)
  {
    if Quiet(s) {
      steps := [];
    } else {
      NeverStuck(c, s, someOutcome);
      var step :| Own(step) && Enabled(c, s, step);
      StepShrinks(c, s, step);
      var before :| Run(c, Init(c), before) == Some(s);
      RunExtends(c, Init(c), before, step);
      var rest := DrainsAfterReturn(c, Apply(c, s, step), someOutcome);
      steps := [step] + rest;
      assert steps[1..] == rest;
    }
  }
}
