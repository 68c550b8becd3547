/**
 * The lock map in front of the DNS cache (dns/client.go, `Client.Exchange`), as a step machine over any
 * number of concurrent calls. A gate is the channel a call makes for LoadOrStore; it is named by that call.
 * Both cache shapes run this machine: with the question as key, or with question, transport and subnet.
 */
module SingleFlight {
  import opened Optional

  /** A call either owns the gate it stored, or came in through the gate of another call. */
  datatype Role = Leader | Follower(gate: nat)

  datatype Call<K> =
    | Arriving(key: K)
    | Parked(key: K, gate: nat)       // waits for the gate or for its own context
    | Looking(key: K, role: Role)     // about to read the cache
    | Fetching(key: K, role: Role)    // asks the transport
    | Storing(key: K, role: Role)     // has a cacheable response
    | Deleting(key: K)                // a leader's deferred Delete
    | Opening(key: K)                 // a leader's deferred close
    | Finished(key: K)

  datatype State<!K> = State(
    calls: seq<Call<K>>,
    lock: map<K, nat>,
    closed: set<nat>,
    cache: map<K, nat>,           // an entry is named by its place in the log of stores
    ghost log: seq<nat>,          // the calls that have stored a response, in order
    ghost stored: map<nat, nat>,  // the store of each leader that has stored one
    ghost lost: set<nat>)         // those of them for whose key an entry has been evicted or has expired since

  datatype Step<K> =
    | Arrive(key: K)
    | Enter(p: nat)
    | GiveUp(p: nat)
    | Resume(p: nat)
    | Look(p: nat)
    | Fetch(p: nat, cacheable: bool)
    | Store(p: nat)
    | Delete(p: nat)
    | Open(p: nat)
    | Evict(key: K)

  ghost function Init<K>(): State<K> {
    State([], map[], {}, map[], [], map[], {})
  }

  ghost predicate Enabled<K>(s: State<K>, step: Step<K>) {
    match step
    case Arrive(_) => true
    case Enter(p) => p < |s.calls| && s.calls[p].Arriving?
    case GiveUp(p) => p < |s.calls| && s.calls[p].Parked?
    case Resume(p) => p < |s.calls| && s.calls[p].Parked? && s.calls[p].gate in s.closed
    case Look(p) => p < |s.calls| && s.calls[p].Looking?
    case Fetch(p, _) => p < |s.calls| && s.calls[p].Fetching?
    case Store(p) => p < |s.calls| && s.calls[p].Storing?
    case Delete(p) => p < |s.calls| && s.calls[p].Deleting?
    case Open(p) => p < |s.calls| && s.calls[p].Opening?
    case Evict(_) => true
  }

  /** What a call does once it has its answer: a leader runs its deferred calls. */
  function Done<K>(key: K, role: Role): Call<K> {
    if role.Leader? then Deleting(key) else Finished(key)
  }

  ghost function Apply<K>(s: State<K>, step: Step<K>): State<K>
    requires Enabled(s, step)
  {
    match step
    case Arrive(key) => s.(calls := s.calls + [Arriving(key)])
    case Enter(p) =>
      var key := s.calls[p].key;
      if key in s.lock then s.(calls := s.calls[p := Parked(key, s.lock[key])])
      else s.(calls := s.calls[p := Looking(key, Leader)], lock := s.lock[key := p])
    case GiveUp(p) => s.(calls := s.calls[p := Finished(s.calls[p].key)])
    case Resume(p) => s.(calls := s.calls[p := Looking(s.calls[p].key, Follower(s.calls[p].gate))])
    case Look(p) =>
      var Looking(key, role) := s.calls[p];
      s.(calls := s.calls[p := if key in s.cache then Done(key, role) else Fetching(key, role)])
    case Fetch(p, cacheable) =>
      var Fetching(key, role) := s.calls[p];
      s.(calls := s.calls[p := if cacheable then Storing(key, role) else Done(key, role)])
    case Store(p) =>
      var Storing(key, role) := s.calls[p];
      s.(calls := s.calls[p := Done(key, role)], cache := s.cache[key := |s.log|], log := s.log + [p],
         stored := if role.Leader? then s.stored[p := |s.log|] else s.stored)
    case Delete(p) => s.(calls := s.calls[p := Opening(s.calls[p].key)], lock := s.lock - {s.calls[p].key})
    case Open(p) => s.(calls := s.calls[p := Finished(s.calls[p].key)], closed := s.closed + {p})
    case Evict(key) =>
      s.(cache := s.cache - {key},
         lost := s.lost + (set g | g in s.stored && g < |s.calls| && s.calls[g].key == key))
  }

  ghost function Run<K>(s: State<K>, steps: seq<Step<K>>): Option<State<K>>
    decreases steps
  {
    if steps == [] then Some(s)
    else if Enabled(s, steps[0]) then Run(Apply(s, steps[0]), steps[1..])
    else None
  }

  ghost predicate Reachable<K(!new)>(s: State<K>) {
    exists steps :: Run(Init(), steps) == Some(s)
  }

  // ---------------------------------------------------------------- the invariant

  /** The call holds the lock of its key. */
  predicate Leads<K>(c: Call<K>) {
    ((c.Looking? || c.Fetching? || c.Storing?) && c.role.Leader?) || c.Deleting?
  }

  /** A leader is in the lock map, and its gate is closed only once it is over. */
  ghost predicate OwnGateInv<K>(s: State<K>, p: nat)
    requires p < |s.calls|
  {
    var c := s.calls[p];
    && (Leads(c) ==> c.key in s.lock && s.lock[c.key] == p && p !in s.closed)
    && (c.Opening? ==> p !in s.closed)
    && (p in s.closed ==> c.Finished?)
  }

  /** The gate a call came to is that of a call of its key, which has opened it or will. */
  ghost predicate GateAheadInv<K>(s: State<K>, p: nat)
    requires p < |s.calls|
  {
    var c := s.calls[p];
    && (c.Parked? ==> c.gate < |s.calls| && s.calls[c.gate].key == c.key &&
                      (c.gate in s.closed || Leads(s.calls[c.gate]) || s.calls[c.gate].Opening?))
    && ((c.Looking? || c.Fetching? || c.Storing?) && c.role.Follower? ==>
          c.role.gate < |s.calls| && c.role.gate in s.closed && s.calls[c.role.gate].key == c.key)
  }

  ghost predicate GateInv<K>(s: State<K>, p: nat)
    requires p < |s.calls|
  {
    OwnGateInv(s, p) && GateAheadInv(s, p)
  }

  predicate PastStore<K>(c: Call<K>) {
    c.Deleting? || c.Opening? || c.Finished?
  }

  /** A leader that has stored is past it, and an entry of its key that is not lost is its own or a later one. */
  ghost predicate StoreInv<K>(s: State<K>, p: nat)
    requires p < |s.calls|
  {
    p in s.stored ==>
      && PastStore(s.calls[p])
      && s.stored[p] < |s.log| && s.log[s.stored[p]] == p
      && (p !in s.lost ==> s.calls[p].key in s.cache && s.stored[p] <= s.cache[s.calls[p].key])
  }

  /** The lock map names a leader for each key in it. */
  ghost predicate LockInv<K>(s: State<K>) {
    forall k :: k in s.lock ==> s.lock[k] < |s.calls| && Leads(s.calls[s.lock[k]]) && s.calls[s.lock[k]].key == k
  }

  ghost predicate GatesInv<K>(s: State<K>) {
    && (forall p :: 0 <= p < |s.calls| ==> GateInv(s, p))
    && LockInv(s)
    && (forall g :: g in s.closed ==> g < |s.calls|)
  }

  /** The log holds each call once, and only calls that are past their store. */
  ghost predicate LogInv<K>(s: State<K>) {
    && (forall n :: 0 <= n < |s.log| ==> s.log[n] < |s.calls| && PastStore(s.calls[s.log[n]]))
    && (forall n, m :: 0 <= n < m < |s.log| ==> s.log[n] != s.log[m])
  }

  /** An entry is the latest store of its key. */
  ghost predicate Latest<K>(s: State<K>, k: K)
    requires k in s.cache && LogInv(s)
  {
    var n := s.cache[k];
    && n < |s.log| && s.calls[s.log[n]].key == k
    && (forall m :: n < m < |s.log| ==> s.calls[s.log[m]].key != k)
  }

  ghost predicate StoresInv<K>(s: State<K>) {
    && LogInv(s)
    && (forall k :: k in s.cache ==> Latest(s, k))
    && (forall g :: g in s.stored ==> g < |s.calls|)
    && (forall p :: 0 <= p < |s.calls| ==> StoreInv(s, p))
  }

  ghost predicate Inv<K>(s: State<K>) {
    GatesInv(s) && StoresInv(s)
  }

  lemma StepLock<K>(s: State<K>, step: Step<K>)
    requires GatesInv(s) && Enabled(s, step)
    ensures LockInv(Apply(s, step))
  {
    var t := Apply(s, step);
    forall k | k in t.lock
      ensures t.lock[k] < |t.calls| && Leads(t.calls[t.lock[k]]) && t.calls[t.lock[k]].key == k
    {
      if k in s.lock {
        assert s.lock[k] < |s.calls| && Leads(s.calls[s.lock[k]]) && s.calls[s.lock[k]].key == k;
        assert GateInv(s, s.lock[k]);
        if step.Delete? {
          assert GateInv(s, step.p);
        }
      }
    }
  }

  lemma StepOwnGate<K>(s: State<K>, step: Step<K>, p: nat)
    requires GatesInv(s) && Enabled(s, step) && p < |Apply(s, step).calls|
    ensures OwnGateInv(Apply(s, step), p)
  {
    assert p < |s.calls| ==> GateInv(s, p);
    if step.Delete? {
      assert GateInv(s, step.p);
    }
  }

  lemma StepGateAhead<K>(s: State<K>, step: Step<K>, p: nat)
    requires GatesInv(s) && Enabled(s, step) && p < |Apply(s, step).calls|
    ensures GateAheadInv(Apply(s, step), p)
  {
    if p < |s.calls| {
      assert GateInv(s, p);
      if s.calls[p].Parked? {
        assert GateInv(s, s.calls[p].gate);
      }
    }
  }

  /** What a step leaves of the calls: their keys, and that they are past their store. */
  lemma CallsMoveOn<K>(s: State<K>, step: Step<K>, p: nat)
    requires Enabled(s, step) && p < |s.calls|
    ensures var t := Apply(s, step);
      p < |t.calls| && t.calls[p].key == s.calls[p].key && (PastStore(s.calls[p]) ==> PastStore(t.calls[p]))
  {
  }

  lemma StepLog<K>(s: State<K>, step: Step<K>)
    requires LogInv(s) && Enabled(s, step)
    ensures LogInv(Apply(s, step))
  {
    var t := Apply(s, step);
    forall n | 0 <= n < |s.log| ensures t.log[n] == s.log[n] < |t.calls| && PastStore(t.calls[t.log[n]]) {
      CallsMoveOn(s, step, s.log[n]);
    }
  }

  lemma StepLatest<K>(s: State<K>, step: Step<K>, k: K)
    requires StoresInv(s) && Enabled(s, step) && LogInv(Apply(s, step)) && k in Apply(s, step).cache
    ensures Latest(Apply(s, step), k)
  {
    var t := Apply(s, step);
    forall n | 0 <= n < |s.log| ensures t.log[n] == s.log[n] && t.calls[t.log[n]].key == s.calls[s.log[n]].key {
      CallsMoveOn(s, step, s.log[n]);
    }
    assert k in s.cache ==> Latest(s, k);
  }

  lemma StepStore<K>(s: State<K>, step: Step<K>, p: nat)
    requires StoresInv(s) && Enabled(s, step) && p < |Apply(s, step).calls|
    ensures StoreInv(Apply(s, step), p)
  {
    if p < |s.calls| {
      assert StoreInv(s, p);
      CallsMoveOn(s, step, p);
    }
  }

  lemma StepInv<K>(s: State<K>, step: Step<K>)
    requires Inv(s) && Enabled(s, step)
    ensures Inv(Apply(s, step))
  {
    var t := Apply(s, step);
    StepLock(s, step);
    StepLog(s, step);
    forall p | 0 <= p < |t.calls| ensures GateInv(t, p) && StoreInv(t, p) {
      StepOwnGate(s, step, p);
      StepGateAhead(s, step, p);
      StepStore(s, step, p);
    }
    forall k | k in t.cache ensures Latest(t, k) {
      StepLatest(s, step, k);
    }
  }

  lemma {:induction false} RunInv<K>(s: State<K>, steps: seq<Step<K>>)
    requires Inv(s) && Run(s, steps).Some?
    ensures Inv(Run(s, steps).value)
    decreases steps
  {
    if steps != [] {
      StepInv(s, steps[0]);
      RunInv(Apply(s, steps[0]), steps[1..]);
    }
  }

  lemma ReachableInv<K(!new)>(s: State<K>)
    requires Reachable(s)
    ensures Inv(s)
  {
    var steps :| Run(Init(), steps) == Some(s);
    RunInv(Init(), steps);
  }

  // ---------------------------------------------------------------- safety

  /** At most one live call holds the lock of a key, and the lock map names its gate. */
  lemma OneLeaderPerKey<K(!new)>(s: State<K>, p: nat, q: nat)
    requires Reachable(s) && p < |s.calls| && q < |s.calls|
    requires Leads(s.calls[p]) && Leads(s.calls[q]) && s.calls[p].key == s.calls[q].key
    ensures p == q && s.calls[p].key in s.lock && s.lock[s.calls[p].key] == p
  {
    ReachableInv(s);
    assert GateInv(s, p) && GateInv(s, q);
  }

  /** A leader removes its own gate from the lock map, and closes a gate that nobody has closed before. */
  lemma LeaderCleansUpItsOwnGate<K(!new)>(s: State<K>, p: nat)
    requires Reachable(s)
    ensures Enabled(s, Delete(p)) ==> s.calls[p].key in s.lock && s.lock[s.calls[p].key] == p
    ensures Enabled(s, Open(p)) ==> p !in s.closed && p !in s.lock.Values
  {
    ReachableInv(s);
    if p < |s.calls| {
      assert GateInv(s, p);
    }
  }

  /** The next step of a call that is neither parked nor over. */
  function NextStep<K>(s: State<K>, p: nat): Step<K>
    requires p < |s.calls| && !s.calls[p].Finished?
  {
    match s.calls[p]
    case Arriving(_) => Enter(p)
    case Parked(_, _) => Resume(p)
    case Looking(_, _) => Look(p)
    case Fetching(_, _) => Fetch(p, true)
    case Storing(_, _) => Store(p)
    case Deleting(_) => Delete(p)
    case Opening(_) => Open(p)
  }

  /** Nobody waits for a gate that will not be opened: its owner is on its way and is not waiting itself. */
  lemma NoOrphanedWaiter<K(!new)>(s: State<K>, p: nat)
    requires Reachable(s) && p < |s.calls| && s.calls[p].Parked?
    ensures var g := s.calls[p].gate;
      && g < |s.calls| && s.calls[g].key == s.calls[p].key
      && (g in s.closed || (!s.calls[g].Parked? && !s.calls[g].Finished? && Enabled(s, NextStep(s, g))))
  {
    ReachableInv(s);
    assert GateInv(s, p);
  }

  /**
   * A waiter let in by a leader that stored its response finds the latest response stored for the key, unless it was
   * lost meanwhile: the leader's own, or a later one. It is the leader's when no later call has stored one: a waiter
   * of an earlier gate still may.
   */
  lemma ReleasedWaiterHits<K(!new)>(s: State<K>, p: nat)
    requires Reachable(s) && p < |s.calls| && s.calls[p].Looking? && s.calls[p].role.Follower?
    requires s.calls[p].role.gate in s.stored && s.calls[p].role.gate !in s.lost
    ensures var key, gate := s.calls[p].key, s.calls[p].role.gate;
      && Apply(s, Look(p)).calls[p] == Finished(key)
      && key in s.cache && s.stored[gate] <= s.cache[key] < |s.log|
      && s.log[s.cache[key]] < |s.calls| && s.calls[s.log[s.cache[key]]].key == key
      && (s.log[s.cache[key]] == gate <==> s.cache[key] == s.stored[gate])
      && (s.cache[key] == s.stored[gate] <==>
            forall n :: s.stored[gate] < n < |s.log| ==> s.log[n] < |s.calls| && s.calls[s.log[n]].key != key)
  {
    ReachableInv(s);
    var key, gate := s.calls[p].key, s.calls[p].role.gate;
    assert GateInv(s, p) && StoreInv(s, gate) && Latest(s, key);
  }

  /** A call asks the transport exactly if its key is not in the cache when it looks. */
  lemma OnlyMissesAskTheTransport<K(!new)>(s: State<K>, p: nat)
    requires Enabled(s, Look(p))
    ensures var call := Apply(s, Look(p)).calls[p];
      && call.key == s.calls[p].key
      && (call.Fetching? <==> s.calls[p].key !in s.cache)
      && (!call.Fetching? ==> call.Deleting? || call.Finished?)
  {
  }

  /**
   * Only the leader is alone: when it has stored nothing, two waiters it lets in both go on to ask the transport,
   * at the same time and without a gate between them.
   */
  lemma WaitersFetchTogether<K(!new)>(s: State<K>, p: nat, q: nat)
    requires Reachable(s) && p < |s.calls| && q < |s.calls| && p != q
    requires s.calls[p].Parked? && s.calls[q].Parked? && s.calls[p].gate == s.calls[q].gate
    requires s.calls[p].gate in s.closed && s.calls[p].key !in s.cache
    ensures var t := Run(s, [Resume(p), Look(p), Resume(q), Look(q)]);
      t.Some? && |t.value.calls| == |s.calls| && t.value.calls[p].Fetching? && t.value.calls[q].Fetching? && t.value.calls[p].key == t.value.calls[q].key
  {
    ReachableInv(s);
    assert GateInv(s, p) && GateInv(s, q);
    var first: seq<Step<K>>, second: seq<Step<K>> := [Resume(p), Look(p)], [Resume(q), Look(q)];
    var looked := Apply(Apply(s, Resume(p)), Look(p));
    RunOfTwo(s, Resume(p), Look(p), second);
    RunOfTwo(looked, Resume(q), Look(q), []);
    assert second + [] == second && first + second == [Resume(p), Look(p), Resume(q), Look(q)];
  }

  /** A state in which nothing has been stored. */
  ghost function Empty<K>(calls: seq<Call<K>>, lock: map<K, nat>, closed: set<nat>): State<K> {
    State(calls, lock, closed, map[], [], map[], {})
  }

  lemma RunOfThree<K>(s: State<K>, first: Step<K>, second: Step<K>, third: Step<K>)
    requires Enabled(s, first) && Enabled(Apply(s, first), second) && Enabled(Apply(Apply(s, first), second), third)
    ensures Run(s, [first, second, third]) == Some(Apply(Apply(Apply(s, first), second), third))
  {
    RunOfTwo(s, first, second, [third]);
    RunOfOne(Apply(Apply(s, first), second), third);
    assert [first, second] + [third] == [first, second, third];
  }

  lemma ThreeArrive<K>(key: K)
    ensures Run(Init(), [Arrive(key), Arrive(key), Arrive(key)]) == Some(Empty([Arriving(key), Arriving(key), Arriving(key)], map[], {}))
  {
    var s1, s2 := Empty([Arriving(key)], map[], {}), Empty([Arriving(key), Arriving(key)], map[], {});
    assert Apply(Init(), Arrive(key)) == s1 && Apply(s1, Arrive(key)) == s2;
    assert Apply(s2, Arrive(key)) == Empty([Arriving(key), Arriving(key), Arriving(key)], map[], {});
    RunOfThree(Init(), Arrive(key), Arrive(key), Arrive(key));
  }

  lemma ThreeMeet<K>(key: K)
    ensures Run(Empty([Arriving(key), Arriving(key), Arriving(key)], map[], {}), [Enter(0), Enter(1), Enter(2)]) ==
      Some(Empty([Looking(key, Leader), Parked(key, 0), Parked(key, 0)], map[key := 0], {}))
  {
    var s := Empty([Arriving(key), Arriving(key), Arriving(key)], map[], {});
    var s1 := Empty([Looking(key, Leader), Arriving(key), Arriving(key)], map[key := 0], {});
    var s2 := Empty([Looking(key, Leader), Parked(key, 0), Arriving(key)], map[key := 0], {});
    assert Apply(s, Enter(0)) == s1 && Apply(s1, Enter(1)) == s2;
    assert Apply(s2, Enter(2)) == Empty([Looking(key, Leader), Parked(key, 0), Parked(key, 0)], map[key := 0], {});
    RunOfThree(s, Enter(0), Enter(1), Enter(2));
  }

  /** The leader's answer may not be cached; it cleans up, and the two waiters are let in. */
  lemma FirstLeaves<K>(key: K)
    ensures Run(Empty([Looking(key, Leader), Parked(key, 0), Parked(key, 0)], map[key := 0], {}), [Look(0), Fetch(0, false), Delete(0), Open(0)]) ==
      Some(Empty([Finished(key), Parked(key, 0), Parked(key, 0)], map[], {0}))
  {
    var s := Empty([Looking(key, Leader), Parked(key, 0), Parked(key, 0)], map[key := 0], {});
    var s1 := Empty([Fetching(key, Leader), Parked(key, 0), Parked(key, 0)], map[key := 0], {});
    var s2 := Empty([Deleting(key), Parked(key, 0), Parked(key, 0)], map[key := 0], {});
    var s3 := Empty([Opening(key), Parked(key, 0), Parked(key, 0)], map[], {});
    assert Apply(s, Look(0)) == s1 && Apply(s1, Fetch(0, false)) == s2 && Apply(s2, Delete(0)) == s3;
    assert Apply(s3, Open(0)) == Empty([Finished(key), Parked(key, 0), Parked(key, 0)], map[], {0});
    var answer: seq<Step<K>>, cleanUp: seq<Step<K>> := [Look(0), Fetch(0, false)], [Delete(0), Open(0)];
    RunOfTwo(s, Look(0), Fetch(0, false), cleanUp);
    RunOfTwo(s2, Delete(0), Open(0), []);
    assert answer + cleanUp == [Look(0), Fetch(0, false), Delete(0), Open(0)] && cleanUp + [] == cleanUp;
  }

  /** Waiters that a leader without a store lets in: three calls meet, and the first one's answer may not be cached. */
  lemma MissReleasesWaiters<K(!new)>(key: K)
    ensures var s := Empty([Finished(key), Parked(key, 0), Parked(key, 0)], map[], {0});
      Reachable(s) && s.calls[1].gate == s.calls[2].gate && s.calls[1].gate in s.closed && key !in s.cache
  {
    var arrived, met: seq<Step<K>> := [Arrive(key), Arrive(key), Arrive(key)], [Enter(0), Enter(1), Enter(2)];
    var answered: seq<Step<K>> := [Look(0), Fetch(0, false), Delete(0), Open(0)];
    ThreeArrive(key);
    ThreeMeet(key);
    FirstLeaves(key);
    RunOfRuns(Init(), arrived, met);
    RunOfRuns(Init(), arrived + met, answered);
  }

  lemma ReachBy<K(!new)>(s: State<K>, step: Step<K>, t: State<K>)
    requires Reachable(s) && Enabled(s, step) && t == Apply(s, step)
    ensures Reachable(t)
  {
    var steps :| Run(Init(), steps) == Some(s);
    RunOfOne(s, step);
    RunOfRuns(Init(), steps, [step]);
  }

  /** A waiter of a leader without a store is at the transport. */
  lemma FollowerFetches<K(!new)>(key: K)
    ensures Reachable(Empty([Finished(key), Fetching(key, Follower(0))], map[], {0}))
  {
    var s0: State<K> := Init();
    assert Run(s0, []) == Some(s0);
    var s1 := Empty([Arriving(key)], map[], {});
    var s2 := Empty([Looking(key, Leader)], map[key := 0], {});
    var s3 := Empty([Looking(key, Leader), Arriving(key)], map[key := 0], {});
    var s4 := Empty([Looking(key, Leader), Parked(key, 0)], map[key := 0], {});
    var s5 := Empty([Fetching(key, Leader), Parked(key, 0)], map[key := 0], {});
    ReachBy(s0, Arrive(key), s1);
    ReachBy(s1, Enter(0), s2);
    ReachBy(s2, Arrive(key), s3);
    ReachBy(s3, Enter(1), s4);
    ReachBy(s4, Look(0), s5);
    FollowerIsLetIn(key);
  }

  lemma FollowerIsLetIn<K(!new)>(key: K)
    requires Reachable(Empty([Fetching(key, Leader), Parked(key, 0)], map[key := 0], {}))
    ensures Reachable(Empty([Finished(key), Fetching(key, Follower(0))], map[], {0}))
  {
    var s5 := Empty([Fetching(key, Leader), Parked(key, 0)], map[key := 0], {});
    var s6 := Empty([Deleting(key), Parked(key, 0)], map[key := 0], {});
    var s7 := Empty([Opening(key), Parked(key, 0)], map[], {});
    var s8 := Empty([Finished(key), Parked(key, 0)], map[], {0});
    var s9 := Empty([Finished(key), Looking(key, Follower(0))], map[], {0});
    ReachBy(s5, Fetch(0, false), s6);
    ReachBy(s6, Delete(0), s7);
    ReachBy(s7, Open(0), s8);
    ReachBy(s8, Resume(1), s9);
    ReachBy(s9, Look(1), Empty([Finished(key), Fetching(key, Follower(0))], map[], {0}));
  }

  /** Meanwhile another leader has an answer that it may store, and a waiter of its own. */
  lemma SecondLeaderStores<K(!new)>(key: K)
    ensures Reachable(Empty([Finished(key), Fetching(key, Follower(0)), Storing(key, Leader), Parked(key, 2)], map[key := 2], {0}))
  {
    FollowerFetches(key);
    var done, follower := Finished(key), Fetching(key, Follower(0));
    var s0 := Empty([done, follower], map[], {0});
    var s1 := Empty([done, follower, Arriving(key)], map[], {0});
    var s2 := Empty([done, follower, Looking(key, Leader)], map[key := 2], {0});
    var s3 := Empty([done, follower, Looking(key, Leader), Arriving(key)], map[key := 2], {0});
    var s4 := Empty([done, follower, Looking(key, Leader), Parked(key, 2)], map[key := 2], {0});
    var s5 := Empty([done, follower, Fetching(key, Leader), Parked(key, 2)], map[key := 2], {0});
    ReachBy(s0, Arrive(key), s1);
    ReachBy(s1, Enter(2), s2);
    ReachBy(s2, Arrive(key), s3);
    ReachBy(s3, Enter(3), s4);
    ReachBy(s4, Look(2), s5);
    ReachBy(s5, Fetch(2, true), Empty([done, follower, Storing(key, Leader), Parked(key, 2)], map[key := 2], {0}));
  }

  /** The follower of the earlier gate stores after the leader. */
  lemma FollowerStoresLater<K(!new)>(key: K)
    ensures Reachable(State([Finished(key), Finished(key), Deleting(key), Parked(key, 2)], map[key := 2], {0}, map[key := 1], [2, 1], map[2 := 0], {}))
  {
    SecondLeaderStores(key);
    var done, waiter := Finished(key), Parked(key, 2);
    var lock := map[key := 2];
    var s0 := Empty([done, Fetching(key, Follower(0)), Storing(key, Leader), waiter], lock, {0});
    var s1 := State([done, Fetching(key, Follower(0)), Deleting(key), waiter], lock, {0}, map[key := 0], [2], map[2 := 0], {});
    var s2 := State([done, Storing(key, Follower(0)), Deleting(key), waiter], lock, {0}, map[key := 0], [2], map[2 := 0], {});
    ReachBy(s0, Store(2), s1);
    ReachBy(s1, Fetch(1, true), s2);
    ReachBy(s2, Store(1), State([done, done, Deleting(key), waiter], lock, {0}, map[key := 1], [2, 1], map[2 := 0], {}));
  }

  /**
   * A waiter that does not find its leader's response: the follower of an earlier gate stores after leader 2 has,
   * and call 3, let in by leader 2, finds the response of call 1.
   */
  lemma WaiterFindsALaterResponse<K(!new)>(key: K)
    ensures exists s: State<K> ::
      && Reachable(s) && |s.calls| == 4 && s.calls[3] == Looking(key, Follower(2))
      && 2 in s.stored && 2 !in s.lost && key in s.cache && s.cache[key] < |s.log| && s.log[s.cache[key]] == 1
  {
    FollowerStoresLater(key);
    var done, waiter := Finished(key), Parked(key, 2);
    var s3 := State([done, done, Deleting(key), waiter], map[key := 2], {0}, map[key := 1], [2, 1], map[2 := 0], {});
    var s4 := State([done, done, Opening(key), waiter], map[], {0}, map[key := 1], [2, 1], map[2 := 0], {});
    var s5 := State([done, done, done, waiter], map[], {0, 2}, map[key := 1], [2, 1], map[2 := 0], {});
    var s6 := State([done, done, done, Looking(key, Follower(2))], map[], {0, 2}, map[key := 1], [2, 1], map[2 := 0], {});
    ReachBy(s3, Delete(2), s4);
    ReachBy(s4, Open(2), s5);
    ReachBy(s5, Resume(3), s6);
  }

  lemma RunOfOne<K>(s: State<K>, step: Step<K>)
    requires Enabled(s, step)
    ensures Run(s, [step]) == Some(Apply(s, step))
  {
    assert [step][1..] == [];
  }

  lemma {:induction false} RunOfRuns<K>(s: State<K>, first: seq<Step<K>>, second: seq<Step<K>>)
    requires Run(s, first).Some?
    ensures Run(s, first + second) == Run(Run(s, first).value, second)
    decreases first
  {
    if first == [] {
      assert first + second == second;
    } else {
      RunOfRuns(Apply(s, first[0]), first[1..], second);
      assert (first + second)[1..] == first[1..] + second;
    }
  }

  lemma RunOfTwo<K>(s: State<K>, first: Step<K>, second: Step<K>, rest: seq<Step<K>>)
    requires Enabled(s, first) && Enabled(Apply(s, first), second)
    ensures Run(s, [first, second] + rest) == Run(Apply(Apply(s, first), second), rest)
  {
    var steps := [first, second] + rest;
    assert steps[1..] == [second] + rest && steps[1..][1..] == rest;
  }

  // ---------------------------------------------------------------- progress

  predicate Own<K>(step: Step<K>) {
    !step.Arrive? && !step.Evict? && !step.GiveUp?
  }

  /** Some call can move whenever one is not finished, without anybody giving up. */
  lemma NeverStuck<K(!new)>(s: State<K>, p: nat)
    requires Reachable(s) && p < |s.calls| && !s.calls[p].Finished?
    ensures exists step :: Own(step) && Enabled(s, step)
  {
    if s.calls[p].Parked? {
      NoOrphanedWaiter(s, p);
      var g := s.calls[p].gate;
      if g in s.closed {
        assert Own<K>(Resume(p)) && Enabled(s, Resume(p));
      } else {
        assert Own(NextStep(s, g)) && Enabled(s, NextStep(s, g));
      }
    } else {
      assert Own(NextStep(s, p)) && Enabled(s, NextStep(s, p));
    }
  }

  const LONGEST_CALL: nat := 7

  function Rank<K>(c: Call<K>): (r: nat)
    ensures r <= LONGEST_CALL
  {
    match c
    case Arriving(_) => 7
    case Parked(_, _) => 6
    case Looking(_, _) => 5
    case Fetching(_, _) => 4
    case Storing(_, _) => 3
    case Deleting(_) => 2
    case Opening(_) => 1
    case Finished(_) => 0
  }

  function Work<K>(calls: seq<Call<K>>): nat {
    if calls == [] then 0 else Rank(calls[|calls| - 1]) + Work(calls[..|calls| - 1])
  }

  lemma {:induction false} WorkUpdate<K>(calls: seq<Call<K>>, p: nat, c: Call<K>)
    requires p < |calls|
    ensures Work(calls[p := c]) == Work(calls) - Rank(calls[p]) + Rank(c)
  {
    var n := |calls| - 1;
    if p == n {
      assert calls[p := c][..n] == calls[..n];
    } else {
      WorkUpdate(calls[..n], p, c);
      assert calls[p := c][..n] == calls[..n][p := c];
    }
  }

  function Count<K>(steps: seq<Step<K>>, p: Step<K> -> bool): nat {
    if steps == [] then 0 else (if p(steps[0]) then 1 else 0) + Count(steps[1..], p)
  }

  predicate Arrives<K>(step: Step<K>) {
    step.Arrive?
  }

  predicate OfACall<K>(step: Step<K>) {
    !step.Arrive? && !step.Evict?
  }

  lemma StepWork<K>(s: State<K>, step: Step<K>)
    requires Enabled(s, step)
    ensures Work(Apply(s, step).calls) + (if OfACall(step) then 1 else 0) <= Work(s.calls) + if Arrives(step) then LONGEST_CALL else 0
  {
    var t := Apply(s, step);
    if step.Arrive? {
      assert t.calls[..|s.calls|] == s.calls;
    } else if !step.Evict? {
      WorkUpdate(s.calls, step.p, t.calls[step.p]);
    }
  }

  /** No call runs for ever: the calls of a run take at most seven steps for each call that has arrived. */
  lemma {:induction false} CallsAreBounded<K>(s: State<K>, steps: seq<Step<K>>)
    requires Run(s, steps).Some?
    ensures Count(steps, OfACall) + Work(Run(s, steps).value.calls) <= Work(s.calls) + LONGEST_CALL * Count(steps, Arrives)
    decreases steps
  {
    if steps != [] {
      StepWork(s, steps[0]);
      CallsAreBounded(Apply(s, steps[0]), steps[1..]);
    }
  }
}
