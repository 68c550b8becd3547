/**
 * A race whose queries go through the cache's lock map (dns/router.go over dns/client.go): the product of the two
 * step machines. A worker's query is a call that may have to wait at a gate, behind another worker of the same race
 * or behind anybody else; the query ends only after its call has.
 */
module RaceOverGates {
  import opened Optional
  import R = RaceProtocol
  import S = SingleFlight

  /** `key` says at which gate a worker's query arrives, if it uses the cache. */
  datatype Config<!O, !K> = Config(race: R.Config<O>, key: nat -> Option<K>)

  /** `call` names the calls that the race's workers have made. */
  datatype State<O, !K> = State(race: R.State<O>, gates: S.State<K>, call: map<nat, nat>)

  datatype Step<O, K> =
    | Race(r: R.Step<O>)         // a step of the race other than the end of a query
    | Call(i: nat)               // the query of worker i comes to the client
    | Gates(g: S.Step<K>)        // a step of a call, of the race or not, or another call's arrival
    | Finish(i: nat, outcome: O) // the query of worker i ends

  ghost function Init<O, K>(c: Config<O, K>): State<O, K> {
    State(R.Init(c.race), S.Init(), map[])
  }

  ghost predicate Enabled<O, K>(c: Config<O, K>, s: State<O, K>, step: Step<O, K>) {
    match step
    case Race(r) => !r.FinishQuery? && R.Enabled(c.race, s.race, r)
    case Call(i) => i < |s.race.workers| && s.race.workers[i].Querying? && c.key(i).Some? && i !in s.call
    case Gates(g) => S.Enabled(s.gates, g)
    case Finish(i, outcome) =>
      && R.Enabled(c.race, s.race, R.FinishQuery(i, outcome))
      && (c.key(i).Some? ==> i in s.call && s.call[i] < |s.gates.calls| && s.gates.calls[s.call[i]].Finished?)
  }

  ghost function Apply<O, K>(c: Config<O, K>, s: State<O, K>, step: Step<O, K>): State<O, K>
    requires Enabled(c, s, step)
  {
    match step
    case Race(r) => s.(race := R.Apply(c.race, s.race, r))
    case Call(i) => s.(gates := S.Apply(s.gates, S.Arrive(c.key(i).value)), call := s.call[i := |s.gates.calls|])
    case Gates(g) => s.(gates := S.Apply(s.gates, g))
    case Finish(i, outcome) => s.(race := R.Apply(c.race, s.race, R.FinishQuery(i, outcome)))
  }

  ghost function Run<O, K>(c: Config<O, K>, s: State<O, K>, steps: seq<Step<O, K>>): Option<State<O, K>>
    decreases steps
  {
    if steps == [] then Some(s)
    else if Enabled(c, s, steps[0]) then Run(c, Apply(c, s, steps[0]), steps[1..])
    else None
  }

  ghost predicate Reachable<O(!new), K(!new)>(c: Config<O, K>, s: State<O, K>) {
    exists steps :: Run(c, Init(c), steps) == Some(s)
  }

  // ---------------------------------------------------------------- both machines run

  ghost predicate Inv<O(!new), K(!new)>(c: Config<O, K>, s: State<O, K>) {
    && R.Reachable(c.race, s.race)
    && S.Reachable(s.gates)
    && (forall i :: i in s.call ==> s.call[i] < |s.gates.calls|)
  }

  lemma RaceGoesOn<O(!new)>(c: R.Config<O>, s: R.State<O>, step: R.Step<O>)
    requires R.Reachable(c, s) && R.Enabled(c, s, step)
    ensures R.Reachable(c, R.Apply(c, s, step))
  {
    var steps :| R.Run(c, R.Init(c), steps) == Some(s);
    R.RunExtends(c, R.Init(c), steps, step);
  }

  lemma CallsStay<K>(s: S.State<K>, step: S.Step<K>)
    requires S.Enabled(s, step)
    ensures |s.calls| <= |S.Apply(s, step).calls|
  {
  }

  lemma StepInv<O(!new), K(!new)>(c: Config<O, K>, s: State<O, K>, step: Step<O, K>)
    requires Inv(c, s) && Enabled(c, s, step)
    ensures Inv(c, Apply(c, s, step))
  {
    match step {
      case Race(r) => RaceGoesOn(c.race, s.race, r);
      case Call(i) => S.ReachBy(s.gates, S.Arrive(c.key(i).value), S.Apply(s.gates, S.Arrive(c.key(i).value)));
      case Gates(g) =>
        S.ReachBy(s.gates, g, S.Apply(s.gates, g));
        CallsStay(s.gates, g);
      case Finish(i, outcome) => RaceGoesOn(c.race, s.race, R.FinishQuery(i, outcome));
    }
  }

  lemma {:induction false} RunInv<O(!new), K(!new)>(c: Config<O, K>, s: State<O, K>, steps: seq<Step<O, K>>)
    requires Inv(c, s) && Run(c, s, steps).Some?
    ensures Inv(c, Run(c, s, steps).value)
    decreases steps
  {
    if steps != [] {
      StepInv(c, s, steps[0]);
      RunInv(c, Apply(c, s, steps[0]), steps[1..]);
    }
  }

  lemma ReachableInv<O(!new), K(!new)>(c: Config<O, K>, s: State<O, K>)
    requires Reachable(c, s)
    ensures Inv(c, s)
  {
    var steps :| Run(c, Init(c), steps) == Some(s);
    assert R.Run(c.race, R.Init(c.race), []) == Some(R.Init(c.race));
    assert S.Run<K>(S.Init(), []) == Some(S.Init());
    RunInv(c, Init(c), steps);
  }

  // ---------------------------------------------------------------- progress

  /** A step of the program itself: not the clock, nor the caller's leaving, nor what other calls bring. */
  predicate Own<O, K>(step: Step<O, K>) {
    match step
    case Race(r) => R.Own(r)
    case Gates(g) => S.Own(g)
    case _ => true
  }

  /** A query that has not ended can go on, or the call that it waits for can. */
  lemma QueryGoesOn<O(!new), K(!new)>(c: Config<O, K>, s: State<O, K>, i: nat, outcome: O)
    requires Inv(c, s) && i < |s.race.workers| && s.race.workers[i].Querying?
    ensures exists step :: Own(step) && Enabled(c, s, step)
  {
    if c.key(i).Some? && i !in s.call {
      assert Own<O, K>(Call(i)) && Enabled(c, s, Call(i));
    } else if c.key(i).Some? && !s.gates.calls[s.call[i]].Finished? {
      S.NeverStuck(s.gates, s.call[i]);
      var g :| S.Own(g) && S.Enabled(s.gates, g);
      assert Own<O, K>(Gates(g)) && Enabled(c, s, Gates(g));
    } else {
      assert Own<O, K>(Finish(i, outcome)) && Enabled(c, s, Finish(i, outcome));
    }
  }

  /**
   * No race is stuck at its gates, not even one of whose workers wait for each other: while it is not over, a step
   * of the program is possible without anybody giving up, or the race waits for its timer only.
   */
  lemma NeverStuck<O(!new), K(!new)>(c: Config<O, K>, s: State<O, K>, someOutcome: O)
    requires Reachable(c, s) && !R.Quiet(s.race)
    ensures (exists step :: Own(step) && Enabled(c, s, step)) ||
            (s.race.timer.Ticking? && s.race.now < c.race.upstreamTimeout && R.Enabled(c.race, s.race, R.Tick(1)))
    ensures s.race.consumer.Returned? ==> exists step :: Own(step) && Enabled(c, s, step)
  {
    ReachableInv(c, s);
    R.NeverStuck(c.race, s.race, someOutcome);
    if r :| R.Own(r) && R.Enabled(c.race, s.race, r) {
      if r.FinishQuery? {
        QueryGoesOn(c, s, r.i, r.outcome);
      } else {
        assert Own<O, K>(Race(r)) && Enabled(c, s, Race(r));
      }
    }
  }

  // ---------------------------------------------------------------- termination

  /** Steps that the workers below `n` may still cause by making a call. */
  ghost function CallsToCome<K>(key: nat -> Option<K>, call: map<nat, nat>, n: nat): nat {
    if n == 0 then 0
    else CallsToCome(key, call, n - 1) + if key(n - 1).Some? && n - 1 !in call then S.LONGEST_CALL + 1 else 0
  }

  lemma {:induction false} OneCallLess<K>(key: nat -> Option<K>, call: map<nat, nat>, n: nat, i: nat, p: nat)
    requires key(i).Some? && i !in call
    ensures CallsToCome(key, call[i := p], n) == CallsToCome(key, call, n) - if i < n then S.LONGEST_CALL + 1 else 0
  {
    if n > 0 {
      OneCallLess(key, call, n - 1, i, p);
    }
  }

  ghost function Measure<O, K>(c: Config<O, K>, s: State<O, K>): nat {
    R.Measure(s.race) + S.Work(s.gates.calls) + CallsToCome(c.key, s.call, |s.race.workers|)
  }

  /** The clock, and an entry that goes, are not work. */
  predicate Idle<O, K>(step: Step<O, K>) {
    (step.Race? && step.r.Tick?) || (step.Gates? && step.g.Evict?)
  }

  predicate Arrival<O, K>(step: Step<O, K>) {
    step.Gates? && step.g.Arrive?
  }

  lemma WorkersStay<O>(c: R.Config<O>, s: R.State<O>, step: R.Step<O>)
    requires R.Enabled(c, s, step)
    ensures |R.Apply(c, s, step).workers| == |s.workers|
  {
  }

  lemma StepShrinks<O, K>(c: Config<O, K>, s: State<O, K>, step: Step<O, K>)
    requires Enabled(c, s, step)
    ensures Measure(c, Apply(c, s, step)) + (if Idle(step) || Arrival(step) then 0 else 1) <=
      Measure(c, s) + if Arrival(step) then S.LONGEST_CALL else 0
  {
    match step {
      case Race(r) =>
        R.StepShrinks(c.race, s.race, r);
        WorkersStay(c.race, s.race, r);
      case Call(i) =>
        S.StepWork(s.gates, S.Arrive(c.key(i).value));
        OneCallLess(c.key, s.call, |s.race.workers|, i, |s.gates.calls|);
      case Gates(g) => S.StepWork(s.gates, g);
      case Finish(i, outcome) =>
        R.StepShrinks(c.race, s.race, R.FinishQuery(i, outcome));
        WorkersStay(c.race, s.race, R.FinishQuery(i, outcome));
    }
  }

  function Count<O, K>(steps: seq<Step<O, K>>, p: Step<O, K> -> bool): nat {
    if steps == [] then 0 else (if p(steps[0]) then 1 else 0) + Count(steps[1..], p)
  }

  predicate IsWork<O, K>(step: Step<O, K>) {
    !Idle(step) && !Arrival(step)
  }

  /** A race and all calls end: a run has only so many steps, and seven more for each call that others make. */
  lemma {:induction false} RunsAreBounded<O, K>(c: Config<O, K>, s: State<O, K>, steps: seq<Step<O, K>>)
    requires Run(c, s, steps).Some?
    ensures Count(steps, IsWork) + Measure(c, Run(c, s, steps).value) <= Measure(c, s) + S.LONGEST_CALL * Count(steps, Arrival)
    decreases steps
  {
    if steps != [] {
      StepShrinks(c, s, steps[0]);
      RunsAreBounded(c, Apply(c, s, steps[0]), steps[1..]);
    }
  }
}
