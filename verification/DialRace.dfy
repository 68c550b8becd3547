/**
 * The parallel dialers (common/dialer/default_parallel_interface.go, default_parallel_network.go) as a step
 * machine. One attempt stands for one racer goroutine: a dial through one interface, or the serial dial of one
 * address family. With a timer the fallback group starts when it expires; without one it starts at once.
 */
module DialRace {
  import opened Optional

  datatype Config = Config(primaries: nat, fallbacks: nat, delay: nat, timed: bool)
  {
    function Total(): nat {
      primaries + fallbacks
    }

    /** dialParallelInterface makes a timer for a non-empty fallback group only. */
    predicate HasTimer() {
      timed && fallbacks > 0
    }
  }

  datatype Attempt =
    | Idle           // a fallback that has not been launched
    | Dialing
    | OffersConn     // connected, sends on results or sees returned closed
    | OffersError
    | Chosen         // its connection is the caller's
    | Reported       // its error has been collected
    | ConnClosed     // saw returned closed and closed its connection
    | ErrorDropped

  datatype Timer = NoTimer | Armed(due: nat) | Expired | Consumed

  datatype Consumer = Waiting | Won(attempt: nat) | Lost

  datatype State = State(
    now: nat,
    timer: Timer,
    attempts: seq<Attempt>,
    errors: nat,
    consumer: Consumer,
    returned: bool,
    dialed: nat,
    closed: nat)

  datatype Step =
    | Tick(d: nat)
    | Expire
    | Launch
    | Finish(i: nat, connected: bool)
    | Deliver(i: nat, rearm: bool)
    | CloseReturned
    | Leave(i: nat)

  function Init(c: Config): State {
    State(0, if c.HasTimer() then Armed(c.delay) else NoTimer,
      seq(c.Total(), i => if i < c.primaries || !c.timed then Dialing else Idle),
      0, Waiting, false, 0, 0)
  }

  predicate Enabled(c: Config, s: State, step: Step) {
    match step
    case Tick(_) => true
    case Expire => s.timer.Armed? && s.now >= s.timer.due
    case Launch => s.timer.Expired? && s.consumer.Waiting?
    case Finish(i, _) => i < |s.attempts| && s.attempts[i].Dialing?
    case Deliver(i, _) => i < |s.attempts| && (s.attempts[i].OffersConn? || s.attempts[i].OffersError?) && s.consumer.Waiting?
    case CloseReturned => !s.consumer.Waiting? && !s.returned
    case Leave(i) => i < |s.attempts| && (s.attempts[i].OffersConn? || s.attempts[i].OffersError?) && s.returned
  }

  /**
   * After a primary's error the timer is stopped and, if that stopped it, set to run at once. Whether a timer
   * that has expired but was not received from counts as stopped depends on the runtime: `rearm` is either.
   */
  function TimerAfterError(s: State, primary: bool, rearm: bool): Timer {
    if primary && (s.timer.Armed? || (s.timer.Expired? && rearm)) then Armed(s.now) else s.timer
  }

  function Apply(c: Config, s: State, step: Step): State
    requires Enabled(c, s, step)
  {
    match step
    case Tick(d) => s.(now := s.now + d)
    case Expire => s.(timer := Expired)
    case Launch =>
      s.(timer := Consumed, attempts := seq(|s.attempts|, i requires 0 <= i < |s.attempts| => if s.attempts[i].Idle? then Dialing else s.attempts[i]))
    case Finish(i, connected) =>
      s.(attempts := s.attempts[i := if connected then OffersConn else OffersError], dialed := s.dialed + if connected then 1 else 0)
    case Deliver(i, rearm) =>
      if s.attempts[i].OffersConn? then s.(attempts := s.attempts[i := Chosen], consumer := Won(i))
      else
        var last := s.errors + 1 == c.Total();
        s.(attempts := s.attempts[i := Reported], errors := s.errors + 1, consumer := if last then Lost else Waiting,
           timer := if last then s.timer else TimerAfterError(s, i < c.primaries, rearm))
    case CloseReturned => s.(returned := true)
    case Leave(i) =>
      if s.attempts[i].OffersConn? then s.(attempts := s.attempts[i := ConnClosed], closed := s.closed + 1)
      else s.(attempts := s.attempts[i := ErrorDropped])
  }

  function Run(c: Config, s: State, steps: seq<Step>): Option<State>
    decreases steps
  {
    if steps == [] then Some(s)
    else if Enabled(c, s, steps[0]) then Run(c, Apply(c, s, steps[0]), steps[1..])
    else None
  }

  /** The source refuses to race without any interface. */
  ghost predicate Reachable(c: Config, s: State) {
    c.Total() > 0 && exists steps :: Run(c, Init(c), steps) == Some(s)
  }

  // ---------------------------------------------------------------- the invariant

  function Count(attempts: seq<Attempt>, p: Attempt -> bool): nat {
    if attempts == [] then 0 else Count(attempts[1..], p) + if p(attempts[0]) then 1 else 0
  }

  predicate HoldsConn(a: Attempt) {
    a.OffersConn? || a.Chosen?
  }

  predicate IsReported(a: Attempt) {
    a.Reported?
  }

  lemma {:induction false} CountUpdate(attempts: seq<Attempt>, i: nat, a: Attempt, p: Attempt -> bool)
    requires i < |attempts|
    ensures Count(attempts[i := a], p) == Count(attempts, p) - (if p(attempts[i]) then 1 else 0) + (if p(a) then 1 else 0)
  {
    if i == 0 {
      assert attempts[0 := a][1..] == attempts[1..];
    } else {
      CountUpdate(attempts[1..], i - 1, a, p);
      assert attempts[i := a][1..] == attempts[1..][i - 1 := a];
    }
  }

  lemma {:induction false} CountAgrees(a: seq<Attempt>, b: seq<Attempt>, p: Attempt -> bool)
    requires |a| == |b| && forall i :: 0 <= i < |a| ==> p(a[i]) == p(b[i])
    ensures Count(a, p) == Count(b, p)
  {
    if a != [] {
      CountAgrees(a[1..], b[1..], p);
    }
  }

  lemma {:induction false} CountBounds(attempts: seq<Attempt>, p: Attempt -> bool)
    ensures Count(attempts, p) <= |attempts|
    ensures Count(attempts, p) == |attempts| <==> forall i :: 0 <= i < |attempts| ==> p(attempts[i])
    ensures Count(attempts, p) == 0 <==> forall i :: 0 <= i < |attempts| ==> !p(attempts[i])
  {
    if attempts != [] {
      CountBounds(attempts[1..], p);
      assert forall i :: 1 <= i < |attempts| ==> attempts[i] == attempts[1..][i - 1];
    }
  }

  predicate PrimaryFailed(c: Config, s: State) {
    exists i :: 0 <= i < |s.attempts| && i < c.primaries && s.attempts[i].Reported?
  }

  predicate AttemptInv(c: Config, s: State, i: nat)
    requires i < |s.attempts|
  {
    var a := s.attempts[i];
    && (a.Idle? <==> i >= c.primaries && (s.timer.Armed? || s.timer.Expired?))
    && (a.Chosen? <==> s.consumer == Won(i))
    && (a.ConnClosed? || a.ErrorDropped? ==> s.returned)
  }

  predicate TimerInv(c: Config, s: State) {
    && (s.timer.NoTimer? <==> !c.HasTimer())
    && (s.timer.Armed? ==> s.timer.due >= c.delay || PrimaryFailed(c, s))
    && (s.timer.Expired? || s.timer.Consumed? ==> s.now >= c.delay || PrimaryFailed(c, s))
  }

  predicate Inv(c: Config, s: State) {
    && |s.attempts| == c.Total()
    && (forall i :: 0 <= i < |s.attempts| ==> AttemptInv(c, s, i))
    && TimerInv(c, s)
    && s.errors == Count(s.attempts, IsReported)
    && s.dialed == s.closed + Count(s.attempts, HoldsConn)
    && (s.consumer.Lost? <==> s.errors == c.Total())
    && (s.consumer.Won? ==> s.consumer.attempt < |s.attempts|)
    && (s.returned ==> !s.consumer.Waiting?)
  }

  lemma InitInv(c: Config)
    requires c.Total() > 0
    ensures Inv(c, Init(c))
  {
    CountBounds(Init(c).attempts, IsReported);
    CountBounds(Init(c).attempts, HoldsConn);
  }

  lemma StepCounts(c: Config, s: State, step: Step)
    requires s.errors == Count(s.attempts, IsReported) && s.dialed == s.closed + Count(s.attempts, HoldsConn)
    requires Enabled(c, s, step)
    ensures var t := Apply(c, s, step); t.errors == Count(t.attempts, IsReported) && t.dialed == t.closed + Count(t.attempts, HoldsConn)
  {
    var t := Apply(c, s, step);
    if step.Launch? {
      CountAgrees(s.attempts, t.attempts, IsReported);
      CountAgrees(s.attempts, t.attempts, HoldsConn);
    } else if t.attempts != s.attempts {
      CountUpdate(s.attempts, step.i, t.attempts[step.i], IsReported);
      CountUpdate(s.attempts, step.i, t.attempts[step.i], HoldsConn);
    }
  }

  lemma StepTimer(c: Config, s: State, step: Step)
    requires TimerInv(c, s) && Enabled(c, s, step)
    ensures TimerInv(c, Apply(c, s, step))
  {
    var t := Apply(c, s, step);
    if PrimaryFailed(c, s) {
      var i :| 0 <= i < |s.attempts| && i < c.primaries && s.attempts[i].Reported?;
      assert t.attempts[i].Reported?;
    }
    if step.Deliver? && step.i < c.primaries && t.attempts[step.i].Reported? {
      assert PrimaryFailed(c, t);
    }
  }

  lemma StepAttempt(c: Config, s: State, step: Step, i: nat)
    requires |s.attempts| == c.Total() && i < |s.attempts| && AttemptInv(c, s, i)
    requires s.timer.NoTimer? <==> !c.HasTimer()
    requires s.returned ==> !s.consumer.Waiting?
    requires Enabled(c, s, step)
    ensures |Apply(c, s, step).attempts| == |s.attempts| && AttemptInv(c, Apply(c, s, step), i)
  {
  }

  lemma StepInv(c: Config, s: State, step: Step)
    requires Inv(c, s) && Enabled(c, s, step)
    ensures Inv(c, Apply(c, s, step))
  {
    var t := Apply(c, s, step);
    StepCounts(c, s, step);
    StepTimer(c, s, step);
    forall i | 0 <= i < |s.attempts| ensures |t.attempts| == |s.attempts| && AttemptInv(c, t, i) {
      StepAttempt(c, s, step, i);
    }
    CountBounds(s.attempts, IsReported);
  }

  lemma {:induction false} RunInv(c: Config, s: State, steps: seq<Step>)
    requires Inv(c, s) && Run(c, s, steps).Some?
    ensures Inv(c, Run(c, s, steps).value)
    decreases steps
  {
    if steps != [] {
      StepInv(c, s, steps[0]);
      RunInv(c, Apply(c, s, steps[0]), steps[1..]);
    }
  }

  lemma ReachableInv(c: Config, s: State)
    requires Reachable(c, s)
    ensures Inv(c, s)
  {
    var steps :| Run(c, Init(c), steps) == Some(s);
    InitInv(c);
    RunInv(c, Init(c), steps);
  }

  // ---------------------------------------------------------------- safety

  /** No attempt is under way any more. */
  predicate Quiet(s: State) {
    && s.returned
    && forall i :: 0 <= i < |s.attempts| ==> !s.attempts[i].Dialing? && !s.attempts[i].OffersConn? && !s.attempts[i].OffersError?
  }

  /** Every connection that was opened is the one the caller got, is still on its way, or has been closed. */
  lemma ConnectionsAreConserved(c: Config, s: State)
    requires Reachable(c, s)
    ensures s.dialed == s.closed + Count(s.attempts, HoldsConn)
    ensures forall i :: 0 <= i < |s.attempts| ==> (s.attempts[i].Chosen? <==> s.consumer == Won(i))
    ensures Quiet(s) ==> s.dialed == s.closed + if s.consumer.Won? then 1 else 0
  {
    ReachableInv(c, s);
    forall i | 0 <= i < |s.attempts| ensures s.attempts[i].Chosen? <==> s.consumer == Won(i) {
      assert AttemptInv(c, s, i);
    }
    if Quiet(s) {
      if s.consumer.Won? {
        var rest := s.attempts[s.consumer.attempt := Reported];
        CountUpdate(s.attempts, s.consumer.attempt, Reported, HoldsConn);
        CountBounds(rest, HoldsConn);
      } else {
        CountBounds(s.attempts, HoldsConn);
      }
    }
  }

  /** The dial fails only after every attempt, fallbacks included, has been made and has failed. */
  lemma LostMeansAllFailed(c: Config, s: State)
    requires Reachable(c, s)
    ensures s.consumer.Lost? <==> forall i :: 0 <= i < |s.attempts| ==> s.attempts[i].Reported?
  {
    ReachableInv(c, s);
    CountBounds(s.attempts, IsReported);
  }

  /** The fallback group is launched as a whole and once, after the delay or after a primary has failed. */
  lemma FallbacksLaunchTogether(c: Config, s: State, i: nat)
    requires Reachable(c, s) && c.HasTimer() && c.primaries <= i < |s.attempts|
    ensures s.attempts[i].Idle? <==> !s.timer.Consumed?
    ensures !s.attempts[i].Idle? ==> s.now >= c.delay || PrimaryFailed(c, s)
    ensures !s.attempts[i].Idle? ==> !Enabled(c, s, Launch) && !Enabled(c, s, Expire)
  {
    ReachableInv(c, s);
    assert AttemptInv(c, s, i);
  }

  /** The fallbacks wait no longer than the delay: when it has passed, the first of them may dial. */
  lemma DelayBringsFallbacks(c: Config)
    requires c.HasTimer()
    ensures var t := Run(c, Init(c), [Tick(c.delay), Expire, Launch]);
      t.Some? && |t.value.attempts| > c.primaries && t.value.now == c.delay && t.value.attempts[c.primaries].Dialing?
  {
    var tick := Tick(c.delay);
    var s1 := Apply(c, Init(c), tick);
    var s2 := Apply(c, s1, Expire);
    var s3 := Apply(c, s2, Launch);
    assert s2.attempts == Init(c).attempts && s3.attempts[c.primaries].Dialing?;
    assert [tick, Expire, Launch][1..] == [Expire, Launch] && [Expire, Launch][1..] == [Launch];
    assert Run(c, s3, []) == Some(s3);
    assert Run(c, s2, [Launch]) == Some(s3);
    assert Run(c, s1, [Expire, Launch]) == Some(s3);
  }

  // ---------------------------------------------------------------- progress

  predicate Active(a: Attempt) {
    a.Dialing? || a.OffersConn? || a.OffersError?
  }

  /** While the consumer waits, an attempt is under way or the timer has still to bring the fallbacks. */
  lemma WaitingIsServed(c: Config, s: State)
    requires Reachable(c, s) && s.consumer.Waiting?
    ensures s.timer.Armed? || s.timer.Expired? || exists i :: 0 <= i < |s.attempts| && Active(s.attempts[i])
  {
    ReachableInv(c, s);
    CountBounds(s.attempts, IsReported);
    var i :| 0 <= i < |s.attempts| && !s.attempts[i].Reported?;
    assert AttemptInv(c, s, i);
  }

  /** No reachable state is stuck: a race that is not over can step, or waits for its timer. */
  lemma NeverStuck(c: Config, s: State)
    requires Reachable(c, s) && !Quiet(s)
    ensures (exists step: Step :: !step.Tick? && Enabled(c, s, step)) || (s.consumer.Waiting? && s.timer.Armed? && s.now < s.timer.due)
  {
    ReachableInv(c, s);
    if i: nat :| i < |s.attempts| && Active(s.attempts[i]) {
      if s.attempts[i].Dialing? {
        assert Enabled(c, s, Finish(i, true));
      } else if s.consumer.Waiting? {
        assert Enabled(c, s, Deliver(i, false));
      } else if s.returned {
        assert Enabled(c, s, Leave(i));
      } else {
        assert Enabled(c, s, CloseReturned);
      }
    } else if s.consumer.Waiting? {
      WaitingIsServed(c, s);
      assert s.timer.Expired? ==> Enabled(c, s, Launch);
      assert s.timer.Armed? && s.now >= s.timer.due ==> Enabled(c, s, Expire);
    } else {
      assert Enabled(c, s, CloseReturned);
    }
  }

  function Rank(a: Attempt): nat {
    match a
    case Idle => 5
    case Dialing => 4
    case OffersConn => 3
    case OffersError => 3
    case _ => 0
  }

  function Work(attempts: seq<Attempt>): nat {
    if attempts == [] then 0 else Rank(attempts[0]) + Work(attempts[1..])
  }

  function Measure(s: State): nat {
    Work(s.attempts)
    + (match s.timer case Armed(_) => 2 case Expired => 1 case _ => 0)
    + if s.returned then 0 else 1
  }

  lemma {:induction false} WorkUpdate(attempts: seq<Attempt>, i: nat, a: Attempt)
    requires i < |attempts|
    ensures Work(attempts[i := a]) == Work(attempts) - Rank(attempts[i]) + Rank(a)
  {
    if i == 0 {
      assert attempts[0 := a][1..] == attempts[1..];
    } else {
      WorkUpdate(attempts[1..], i - 1, a);
      assert attempts[i := a][1..] == attempts[1..][i - 1 := a];
    }
  }

  lemma {:induction false} WorkShrinks(a: seq<Attempt>, b: seq<Attempt>)
    requires |a| == |b| && forall i :: 0 <= i < |a| ==> Rank(b[i]) <= Rank(a[i])
    ensures Work(b) <= Work(a)
  {
    if a != [] {
      WorkShrinks(a[1..], b[1..]);
    }
  }

  lemma StepShrinks(c: Config, s: State, step: Step)
    requires Enabled(c, s, step)
    ensures Measure(Apply(c, s, step)) + (if step.Tick? then 0 else 1) <= Measure(s)
  {
    var t := Apply(c, s, step);
    if step.Launch? {
      WorkShrinks(s.attempts, t.attempts);
    } else if t.attempts != s.attempts {
      WorkUpdate(s.attempts, step.i, t.attempts[step.i]);
    }
  }

  function Actions(steps: seq<Step>): nat {
    if steps == [] then 0 else (if steps[0].Tick? then 0 else 1) + Actions(steps[1..])
  }

  /** Every dial ends: apart from clock ticks a run has no more steps than the measure of its first state. */
  lemma {:induction false} RunsAreBounded(c: Config, s: State, steps: seq<Step>)
    requires Run(c, s, steps).Some?
    ensures Actions(steps) + Measure(Run(c, s, steps).value) <= Measure(s)
    decreases steps
  {
    if steps != [] {
      StepShrinks(c, s, steps[0]);
      RunsAreBounded(c, Apply(c, s, steps[0]), steps[1..]);
    }
  }

  function Launches(steps: seq<Step>): nat {
    if steps == [] then 0 else (if steps[0].Launch? then 1 else 0) + Launches(steps[1..])
  }

  function LaunchesLeft(s: State): nat {
    if s.timer.Armed? || s.timer.Expired? then 1 else 0
  }

  lemma {:induction false} LaunchesAreSpent(c: Config, s: State, steps: seq<Step>)
    requires Run(c, s, steps).Some?
    ensures Launches(steps) + LaunchesLeft(Run(c, s, steps).value) <= LaunchesLeft(s)
    decreases steps
  {
    if steps != [] {
      LaunchesAreSpent(c, Apply(c, s, steps[0]), steps[1..]);
    }
  }

  /** In every run the fallback group is launched at most once, and without a timer never. */
  lemma LaunchedAtMostOnce(c: Config, steps: seq<Step>)
    requires Run(c, Init(c), steps).Some?
    ensures Launches(steps) <= if c.HasTimer() then 1 else 0
  {
    LaunchesAreSpent(c, Init(c), steps);
  }

  // ---------------------------------------------------------------- a primary's failure brings the fallbacks forward

  /** A timer that is still armed after a primary has failed is due. */
  predicate DueAfterFailure(c: Config, s: State) {
    s.timer.Armed? && PrimaryFailed(c, s) ==> s.timer.due <= s.now
  }

  lemma StepDue(c: Config, s: State, step: Step)
    requires Inv(c, s) && DueAfterFailure(c, s) && Enabled(c, s, step)
    ensures DueAfterFailure(c, Apply(c, s, step)) || Apply(c, s, step).consumer.Lost?
  {
    var t := Apply(c, s, step);
    if PrimaryFailed(c, t) && !(step.Deliver? && step.i < c.primaries) {
      var i :| 0 <= i < |t.attempts| && i < c.primaries && t.attempts[i].Reported?;
      assert s.attempts[i].Reported?;
    }
  }

  lemma {:induction false} RunDue(c: Config, s: State, steps: seq<Step>)
    requires Inv(c, s) && DueAfterFailure(c, s) && Run(c, s, steps).Some?
    ensures var t := Run(c, s, steps).value; DueAfterFailure(c, t) || t.consumer.Lost?
    decreases steps
  {
    if steps != [] {
      var t := Apply(c, s, steps[0]);
      StepInv(c, s, steps[0]);
      StepDue(c, s, steps[0]);
      if t.consumer.Lost? {
        LostStays(c, t, steps[1..]);
      } else {
        RunDue(c, t, steps[1..]);
      }
    }
  }

  lemma {:induction false} LostStays(c: Config, s: State, steps: seq<Step>)
    requires s.consumer.Lost? && Run(c, s, steps).Some?
    ensures Run(c, s, steps).value.consumer.Lost?
    decreases steps
  {
    if steps != [] {
      LostStays(c, Apply(c, s, steps[0]), steps[1..]);
    }
  }

  /**
   * As soon as a primary has failed the fallbacks need not wait for the delay: while the caller waits, the timer has
   * expired or may expire at once, or the fallbacks have been launched.
   */
  lemma FailureBringsFallbacksForward(c: Config, s: State)
    requires Reachable(c, s) && c.HasTimer() && s.consumer.Waiting? && PrimaryFailed(c, s)
    ensures Enabled(c, s, Expire) || Enabled(c, s, Launch) || s.timer.Consumed?
  {
    var steps :| Run(c, Init(c), steps) == Some(s);
    InitInv(c);
    ReachableInv(c, s);
    RunDue(c, Init(c), steps);
  }
}
