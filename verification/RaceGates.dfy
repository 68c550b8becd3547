/**
 * The gates the workers of one race come to (dns/router.go, dns/client.go): each worker calls the client's
 * `Exchange`, which makes it wait in front of the cache when another call with the same key is ahead of it.
 */
module RaceGates {
  import opened Optional
  import opened DnsMessage
  import opened ClientSubnet
  import opened RuleWalk
  import opened RuleRetry
  import DnsCache
  import SingleFlight

  type Shared = DnsCache.Query

  /** A worker's call: the race's message and surroundings, with the worker's own server and options. */
  function CallOf(w: Worker, shared: Shared): DnsCache.Query {
    shared.(tag := w.transport.tag, options := w.options)
  }

  /** The worker's call comes to a gate. */
  predicate ComesToGate(c: DnsCache.Config, w: Worker, shared: Shared)
    requires CallOf(w, shared).Valid()
  {
    && shared.message.question != []
    && !DnsCache.StrategyRejects(shared.message.question[0], w.options.strategy)
    && DnsCache.UsesCache(c, CallOf(w, shared))
  }

  function Gate(c: DnsCache.Config, w: Worker, shared: Shared): DnsCache.Key
    requires CallOf(w, shared).Valid() && shared.message.question != []
  {
    DnsCache.QueryKey(c, CallOf(w, shared))
  }

  /** Both workers come to one gate, so one of them waits for the other. */
  predicate ShareGate(c: DnsCache.Config, v: Worker, w: Worker, shared: Shared)
    requires CallOf(v, shared).Valid() && CallOf(w, shared).Valid()
  {
    ComesToGate(c, v, shared) && ComesToGate(c, w, shared) && Gate(c, v, shared) == Gate(c, w, shared)
  }

  /** The subnet a worker asks for: the masked one it attaches, else the one that came with the message. */
  function AskedSubnet(c: DnsCache.Config, w: Worker, shared: Shared): Option<Prefix>
    requires CallOf(w, shared).Valid()
  {
    var subnet := DnsCache.Resolved(c, CallOf(w, shared));
    if subnet.Some? then Some(subnet.value.Masked()) else Extract(shared.message)
  }

  lemma FewOpts(extra: seq<Record>)
    requires |extra| <= 1
    ensures CountOpts(extra) <= 1
  {
  }

  /** A simple message has room for one OPT record only, so its key holds the subnet that the worker asked for. */
  lemma GateHoldsAskedSubnet(c: DnsCache.Config, w: Worker, shared: Shared)
    requires CallOf(w, shared).Valid() && c.independentCache && ComesToGate(c, w, shared)
    ensures Gate(c, w, shared) == DnsCache.ByTransport(shared.message.question[0], w.transport.tag, AskedSubnet(c, w, shared))
  {
    var subnet := DnsCache.Resolved(c, CallOf(w, shared));
    if subnet.Some? {
      SetLeavesTheRest(shared.message, subnet.value);
      FewOpts(shared.message.extra);
      ExtractAfterSetWellFormed(shared.message, subnet.value);
    }
  }

  /** With the independent cache two workers share a gate exactly when they ask one server for one subnet. */
  lemma SharedGateMeansSameServerAndSubnet(c: DnsCache.Config, v: Worker, w: Worker, shared: Shared)
    requires CallOf(v, shared).Valid() && CallOf(w, shared).Valid() && c.independentCache
    requires ComesToGate(c, v, shared) && ComesToGate(c, w, shared)
    ensures ShareGate(c, v, w, shared) <==>
      v.transport.tag == w.transport.tag && AskedSubnet(c, v, shared) == AskedSubnet(c, w, shared)
  {
    GateHoldsAskedSubnet(c, v, shared);
    GateHoldsAskedSubnet(c, w, shared);
  }

  // ---------------------------------------------------------------- all workers of an attempt

  predicate ValidCalls(workers: seq<Worker>, shared: Shared) {
    forall i :: 0 <= i < |workers| ==> CallOf(workers[i], shared).Valid()
  }

  predicate NoSharedGate(c: DnsCache.Config, workers: seq<Worker>, shared: Shared)
    requires ValidCalls(workers, shared)
  {
    forall i, j :: 0 <= i < j < |workers| ==> !ShareGate(c, workers[i], workers[j], shared)
  }

  /** With the global cache at most one worker of an attempt uses the cache. */
  lemma OneWorkerUsesTheCache(router: Router, c: DnsCache.Config, q: Query, k: int, o: Options, shared: Shared, i: nat, j: nat)
    requires -1 <= k < |router.rules| && !router.independentCache
    requires ValidCalls(Workers(router, AttemptAt(router, q, k, o)), shared)
    requires i < j < |Workers(router, AttemptAt(router, q, k, o))|
    ensures var workers := Workers(router, AttemptAt(router, q, k, o));
      !(DnsCache.UsesCache(c, CallOf(workers[i], shared)) && DnsCache.UsesCache(c, CallOf(workers[j], shared)))
  {
    OneCachingWorker(router, q, k, o, i, j);
  }

  /** So with the global cache no two workers of an attempt ever share a gate. */
  lemma GlobalCacheSharesNoGate(router: Router, c: DnsCache.Config, q: Query, k: int, o: Options, shared: Shared)
    requires -1 <= k < |router.rules| && !router.independentCache
    requires ValidCalls(Workers(router, AttemptAt(router, q, k, o)), shared)
    ensures NoSharedGate(c, Workers(router, AttemptAt(router, q, k, o)), shared)
  {
    var workers := Workers(router, AttemptAt(router, q, k, o));
    forall i, j | 0 <= i < j < |workers| ensures !ShareGate(c, workers[i], workers[j], shared) {
      OneWorkerUsesTheCache(router, c, q, k, o, shared, i, j);
    }
  }

  function PrimaryWorker(router: Router, a: Attempt, t: Transport): Worker {
    Worker(t, ServerOptions(router, t, a.primary))
  }

  function FallbackWorker(router: Router, a: Attempt, t: Transport): Worker {
    Worker(t, ServerOptions(router, t, a.fallback))
  }

  /** A server has both roles, and in both it is asked through the cache for one subnet. */
  predicate AskedTwice(router: Router, c: DnsCache.Config, a: Attempt, shared: Shared, t: Transport) {
    var v, w := PrimaryWorker(router, a, t), FallbackWorker(router, a, t);
    && t in a.walk.transports && t in a.walk.fallbacks
    && CallOf(v, shared).Valid() && CallOf(w, shared).Valid()
    && ComesToGate(c, v, shared) && ComesToGate(c, w, shared)
    && AskedSubnet(c, v, shared) == AskedSubnet(c, w, shared)
  }

  /** Servers with one tag are one server. */
  lemma SameTagSameServer(router: Router, q: Query, k: int, o: Options, t: Transport, u: Transport)
    requires -1 <= k < |router.rules| && WellTagged(router.table)
    requires var m := AttemptAt(router, q, k, o).walk; t in m.transports && u in m.fallbacks && t.tag == u.tag
    ensures t == u
  {
    UsableIsExact(router.table, router.rules[k].action.servers, q.allowFakeIP);
    UsableIsExact(router.table, router.rules[k].action.fallbackServers, q.allowFakeIP);
  }

  lemma SharingIsAskedTwice(router: Router, c: DnsCache.Config, q: Query, k: int, o: Options, shared: Shared, i: nat, j: nat)
    requires -1 <= k < |router.rules| && WellTagged(router.table) && c.independentCache
    requires var a := AttemptAt(router, q, k, o); a.Hedged() && ValidCalls(Workers(router, a), shared)
    requires var a := AttemptAt(router, q, k, o); i < |a.walk.transports| && j < |a.walk.fallbacks|
    ensures var a := AttemptAt(router, q, k, o); var workers := Workers(router, a); var n := |a.walk.transports|;
      ShareGate(c, workers[i], workers[n + j], shared) <==>
        a.walk.transports[i] == a.walk.fallbacks[j] && AskedTwice(router, c, a, shared, a.walk.transports[i])
  {
    var a := AttemptAt(router, q, k, o);
    var workers, n := Workers(router, a), |a.walk.transports|;
    var v, w := workers[i], workers[n + j];
    assert v == PrimaryWorker(router, a, a.walk.transports[i]) && w == FallbackWorker(router, a, a.walk.fallbacks[j]);
    if ComesToGate(c, v, shared) && ComesToGate(c, w, shared) {
      SharedGateMeansSameServerAndSubnet(c, v, w, shared);
      if v.transport.tag == w.transport.tag {
        SameTagSameServer(router, q, k, o, v.transport, w.transport);
      }
    }
  }

  /** Workers that ask different servers never share a gate. */
  lemma OtherServerSharesNothing(c: DnsCache.Config, v: Worker, w: Worker, shared: Shared)
    requires c.independentCache && CallOf(v, shared).Valid() && CallOf(w, shared).Valid()
    requires v.transport.tag != w.transport.tag
    ensures !ShareGate(c, v, w, shared)
  {
    if ComesToGate(c, v, shared) && ComesToGate(c, w, shared) {
      SharedGateMeansSameServerAndSubnet(c, v, w, shared);
    }
  }

  /** The tags of two workers of one role. */
  lemma OneRoleTags(router: Router, q: Query, k: int, o: Options, i: nat, j: nat)
    requires -1 <= k < |router.rules| && WellTagged(router.table)
    requires var a := AttemptAt(router, q, k, o); i < j < |Workers(router, a)| && (j < |a.walk.transports| || |a.walk.transports| <= i)
    ensures var workers := Workers(router, AttemptAt(router, q, k, o)); workers[i].transport.tag != workers[j].transport.tag
  {
    var a := AttemptAt(router, q, k, o);
    var n := |a.walk.transports|;
    MatchedServersAreDistinct(router, q, k, o);
    assert j < n ==> a.walk.transports[i].tag != a.walk.transports[j].tag;
    assert n <= i ==> a.walk.fallbacks[i - n].tag != a.walk.fallbacks[j - n].tag;
  }

  predicate NobodyAskedTwice(router: Router, c: DnsCache.Config, a: Attempt, shared: Shared) {
    forall t :: t in a.walk.transports ==> !AskedTwice(router, c, a, shared, t)
  }

  lemma PairSharesNothing(router: Router, c: DnsCache.Config, q: Query, k: int, o: Options, shared: Shared, a: Attempt, i: nat, j: nat)
    requires -1 <= k < |router.rules| && WellTagged(router.table) && c.independentCache && a == AttemptAt(router, q, k, o)
    requires ValidCalls(Workers(router, a), shared) && (a.Hedged() ==> NobodyAskedTwice(router, c, a, shared))
    requires i < j < |Workers(router, a)|
    ensures !ShareGate(c, Workers(router, a)[i], Workers(router, a)[j], shared)
  {
    var n := |a.walk.transports|;
    if i < n <= j {
      SharingIsAskedTwice(router, c, q, k, o, shared, i, j - n);
    } else {
      OneRoleTags(router, q, k, o, i, j);
      OtherServerSharesNothing(c, Workers(router, a)[i], Workers(router, a)[j], shared);
    }
  }

  lemma AskedTwiceShares(router: Router, c: DnsCache.Config, q: Query, k: int, o: Options, shared: Shared, t: Transport)
    requires -1 <= k < |router.rules| && WellTagged(router.table) && c.independentCache
    requires var a := AttemptAt(router, q, k, o);
      a.Hedged() && ValidCalls(Workers(router, a), shared) && AskedTwice(router, c, a, shared, t)
    ensures !NoSharedGate(c, Workers(router, AttemptAt(router, q, k, o)), shared)
  {
    var a := AttemptAt(router, q, k, o);
    var i :| 0 <= i < |a.walk.transports| && a.walk.transports[i] == t;
    var j :| 0 <= j < |a.walk.fallbacks| && a.walk.fallbacks[j] == t;
    SharingIsAskedTwice(router, c, q, k, o, shared, i, j);
  }

  /**
   * With the independent cache no two workers of an attempt share a gate exactly when no fallback runs, or no
   * server of both roles is asked through the cache for one subnet in both. Having both roles is not enough: a
   * legacy server that is one of several primaries and the only fallback brings its own subnet into that role only.
   */
  lemma GatesAreDistinct(router: Router, c: DnsCache.Config, q: Query, k: int, o: Options, shared: Shared)
    requires -1 <= k < |router.rules| && WellTagged(router.table) && c.independentCache
    requires ValidCalls(Workers(router, AttemptAt(router, q, k, o)), shared)
    ensures var a := AttemptAt(router, q, k, o);
      NoSharedGate(c, Workers(router, a), shared) <==>
        !a.Hedged() || NobodyAskedTwice(router, c, a, shared)
  {
    var a := AttemptAt(router, q, k, o);
    var workers := Workers(router, a);
    if a.Hedged() {
      forall t | AskedTwice(router, c, a, shared, t) ensures !NoSharedGate(c, workers, shared) {
        AskedTwiceShares(router, c, q, k, o, shared, t);
      }
    }
    if !a.Hedged() || NobodyAskedTwice(router, c, a, shared) {
      forall i, j | 0 <= i < j < |workers| ensures !ShareGate(c, workers[i], workers[j], shared) {
        PairSharesNothing(router, c, q, k, o, shared, a, i, j);
      }
    }
  }

  /** A rule whose primary and fallback servers are disjoint makes no two workers share a gate, with either cache. */
  lemma DisjointServersShareNoGate(router: Router, c: DnsCache.Config, q: Query, k: int, o: Options, shared: Shared)
    requires -1 <= k < |router.rules| && WellTagged(router.table) && c.independentCache == router.independentCache
    requires var a := AttemptAt(router, q, k, o);
      ValidCalls(Workers(router, a), shared) && DisjointTags(a.walk.transports, a.walk.fallbacks)
    ensures NoSharedGate(c, Workers(router, AttemptAt(router, q, k, o)), shared)
  {
    var workers := Workers(router, AttemptAt(router, q, k, o));
    if !router.independentCache {
      GlobalCacheSharesNoGate(router, c, q, k, o, shared);
    } else {
      ServersAreDistinct(router, q, k, o);
      forall i, j | 0 <= i < j < |workers| ensures !ShareGate(c, workers[i], workers[j], shared) {
        OtherServerSharesNothing(c, workers[i], workers[j], shared);
      }
    }
  }

  /** Calls without a shared gate never wait for each other, in whatever state the lock map is. */
  lemma NoWaitingWithoutSharedGate(c: DnsCache.Config, v: Worker, w: Worker, shared: Shared,
                                   s: SingleFlight.State<DnsCache.Key>, p: nat, g: nat)
    requires CallOf(v, shared).Valid() && CallOf(w, shared).Valid()
    requires ComesToGate(c, v, shared) && ComesToGate(c, w, shared) && !ShareGate(c, v, w, shared)
    requires SingleFlight.Reachable(s) && p < |s.calls| && g < |s.calls|
    requires s.calls[p].key == Gate(c, v, shared) && s.calls[g].key == Gate(c, w, shared)
    ensures !(s.calls[p].Parked? && s.calls[p].gate == g)
  {
    if s.calls[p].Parked? {
      SingleFlight.NoOrphanedWaiter(s, p);
    }
  }

  // ---------------------------------------------------------------- a server in both roles

  const NO_OPTIONS := Options(AsIs, false, None, None, None)

  function Plain(tag: string): Transport {
    Transport(tag, false, None)
  }

  function Hedge(servers: seq<string>, fallbacks: seq<string>, table: map<string, Transport>): Router {
    Router([Rule(false, true, Action.Route(servers, fallbacks, NO_OPTIONS, 1, 1, 0))], table, None, AsIs, 0, 0, 0, true, map[])
  }

  const INDEPENDENT := DnsCache.Settings(false, false, true, None, None)

  const QUESTION := Question("a", TYPE_A, 1)

  const SUBNET := Prefix(V4(Zeros(32)), 24)

  function Legacy(tag: string): Transport {
    Transport(tag, false, Some(LegacySettings(AsIs, Some(SUBNET))))
  }

  function Ask(): Shared {
    DnsCache.Query("", Message(0, 0, [QUESTION], [], [], []), NO_OPTIONS, None, 0, 0, DnsCache.UpstreamFailed(0), None, false, false)
  }

  /** The attempt of a single hedged rule. */
  lemma HedgedAttempt(router: Router, servers: seq<string>, fallbacks: seq<string>, table: map<string, Transport>)
    requires router == Hedge(servers, fallbacks, table)
    requires Usable(table, servers, true) != [] && Usable(table, fallbacks, true) != []
    requires !NamesFakeIP(table, servers) && !NamesFakeIP(table, fallbacks)
    ensures var a := AttemptAt(router, Query(true, true), 0, NO_OPTIONS);
      && a.Hedged()
      && a.walk.transports == Usable(table, servers, true) && a.walk.fallbacks == Usable(table, fallbacks, true)
      && a.primary == NO_OPTIONS.(strategy := OnlyLegacyStrategy(a.walk.transports), clientSubnet := OnlyLegacySubnet(a.walk.transports))
      && a.fallback == NO_OPTIONS.(strategy := Or(OnlyLegacyStrategy(a.walk.transports), OnlyLegacyStrategy(a.walk.fallbacks)),
                                   clientSubnet := OnlyLegacySubnet(a.walk.transports).Or(OnlyLegacySubnet(a.walk.fallbacks)))
  {
    AttemptSettings(router, Query(true, true), 0, NO_OPTIONS);
    AttemptCaching(router, Query(true, true), 0, NO_OPTIONS);
  }

  lemma UsableOne(table: map<string, Transport>, tag: string)
    requires tag != "" && tag in table && !table[tag].fakeIP
    ensures Usable(table, [tag], true) == [table[tag]] && !NamesFakeIP(table, [tag])
  {
    assert [tag][..0] == [];
  }

  /** What comes to a gate when the race's message has no additional record. */
  lemma PlainAskComesToGate(t: Transport, subnet: Option<Prefix>)
    requires subnet.Some? ==> subnet.value == SUBNET
    ensures var w := Worker(t, NO_OPTIONS.(clientSubnet := subnet));
      && CallOf(w, Ask()).Valid() && ComesToGate(INDEPENDENT, w, Ask())
      && (AskedSubnet(INDEPENDENT, w, Ask()).Some? <==> subnet.Some?)
  {
    var w := Worker(t, NO_OPTIONS.(clientSubnet := subnet));
    if subnet.Some? {
      ExtractAfterSetWellFormed(Ask().message, SUBNET);
    }
  }

  lemma TwoWorkers(router: Router, table: map<string, Transport>)
    requires table == map["t" := Plain("t")] && router == Hedge(["t"], ["t"], table)
    ensures Workers(router, AttemptAt(router, Query(true, true), 0, NO_OPTIONS)) == [Worker(Plain("t"), NO_OPTIONS), Worker(Plain("t"), NO_OPTIONS)]
  {
    UsableOne(table, "t");
    HedgedAttempt(router, ["t"], ["t"], table);
  }

  /** A plain server that is both primary and fallback waits for itself. */
  lemma BothRolesShareAGate()
    ensures var router := Hedge(["t"], ["t"], map["t" := Plain("t")]);
      var workers := Workers(router, AttemptAt(router, Query(true, true), 0, NO_OPTIONS));
      && |workers| == 2 && ValidCalls(workers, Ask()) && ShareGate(INDEPENDENT, workers[0], workers[1], Ask())
  {
    var table := map["t" := Plain("t")];
    TwoWorkers(Hedge(["t"], ["t"], table), table);
    PlainAskComesToGate(Plain("t"), None);
  }

  lemma UsableTwo(table: map<string, Transport>, first: string, second: string)
    requires first != second && first != "" && second != "" && first in table && second in table
    requires !table[first].fakeIP && !table[second].fakeIP
    ensures Usable(table, [first, second], true) == [table[first], table[second]] && !NamesFakeIP(table, [first, second])
  {
    assert [first, second][..1] == [first];
    UsableOne(table, first);
  }

  lemma ThreeWorkers(router: Router, table: map<string, Transport>)
    requires table == map["t" := Legacy("t"), "u" := Plain("u")] && router == Hedge(["t", "u"], ["t"], table)
    ensures Workers(router, AttemptAt(router, Query(true, true), 0, NO_OPTIONS)) ==
      [Worker(Legacy("t"), NO_OPTIONS), Worker(Plain("u"), NO_OPTIONS), Worker(Legacy("t"), NO_OPTIONS.(clientSubnet := Some(SUBNET)))]
  {
    UsableTwo(table, "t", "u");
    UsableOne(table, "t");
    HedgedAttempt(router, ["t", "u"], ["t"], table);
  }

  /** A legacy server that is primary next to another one, and the only fallback, is asked for two subnets. */
  lemma BothRolesMayHaveTwoGates()
    ensures var router := Hedge(["t", "u"], ["t"], map["t" := Legacy("t"), "u" := Plain("u")]);
      var workers := Workers(router, AttemptAt(router, Query(true, true), 0, NO_OPTIONS));
      && |workers| == 3 && ValidCalls(workers, Ask()) && workers[0].transport == workers[2].transport
      && (forall i :: 0 <= i < 3 ==> ComesToGate(INDEPENDENT, workers[i], Ask()))
      && NoSharedGate(INDEPENDENT, workers, Ask())
  {
    var table := map["t" := Legacy("t"), "u" := Plain("u")];
    var router := Hedge(["t", "u"], ["t"], table);
    var workers := Workers(router, AttemptAt(router, Query(true, true), 0, NO_OPTIONS));
    ThreeWorkers(router, table);
    PlainAskComesToGate(Legacy("t"), None);
    PlainAskComesToGate(Plain("u"), None);
    PlainAskComesToGate(Legacy("t"), Some(SUBNET));
    TwoGates(workers);
  }

  lemma TwoGates(workers: seq<Worker>)
    requires |workers| == 3 && ValidCalls(workers, Ask())
    requires forall i :: 0 <= i < 3 ==> ComesToGate(INDEPENDENT, workers[i], Ask())
    requires workers[0].transport.tag != workers[1].transport.tag && workers[1].transport.tag != workers[2].transport.tag
    requires AskedSubnet(INDEPENDENT, workers[0], Ask()) != AskedSubnet(INDEPENDENT, workers[2], Ask())
    ensures NoSharedGate(INDEPENDENT, workers, Ask())
  {
    OtherServerSharesNothing(INDEPENDENT, workers[0], workers[1], Ask());
    OtherServerSharesNothing(INDEPENDENT, workers[1], workers[2], Ask());
    SharedGateMeansSameServerAndSubnet(INDEPENDENT, workers[0], workers[2], Ask());
  }
}
