/**
 * The walk over the DNS rules (dns/router.go): `matchDNS` and the options it accumulates. A rule's match against
 * the query is an oracle kept in the rule.
 */
module RuleWalk {
  import opened Optional
  import opened DnsMessage

  /** As overrides, `AsIs`, `false` and `None` leave the option alone. */
  function Override(o: Options, over: Options): Options {
    Options(
      if over.strategy != AsIs then over.strategy else o.strategy,
      o.disableCache || over.disableCache,
      if over.rewriteTTL.Some? then over.rewriteTTL else o.rewriteTTL,
      if over.clientSubnet.Some? then over.clientSubnet else o.clientSubnet,
      if over.fromInbound.Some? then over.fromInbound else o.fromInbound)
  }

  /** The settings of a single legacy transport fill in what is still unset. */
  function FillLegacy(o: Options, transports: seq<Transport>): Options {
    if |transports| == 1 && transports[0].legacy.Some? then
      var l := transports[0].legacy.value;
      o.(strategy := if o.strategy == AsIs then l.strategy else o.strategy,
         clientSubnet := if o.clientSubnet.None? then l.subnet else o.clientSubnet)
    else o
  }

  datatype LegacySettings = LegacySettings(strategy: Strategy, subnet: Option<Prefix>)

  datatype Transport = Transport(tag: string, fakeIP: bool, legacy: Option<LegacySettings>)

  datatype Action =
    | Route(servers: seq<string>, fallbackServers: seq<string>, overrides: Options,
            upstreamTimeout: nat, fallbackTimeout: nat, fallbackGrace: nat)
    | RouteOptions(overrides: Options)
    | Reject(drop: bool)
    | Predefined(rcode: nat, addresses: seq<nat>)

  datatype Rule = Rule(addressLimit: bool, matches: bool, action: Action)

  datatype Router = Router(
    rules: seq<Rule>,
    table: map<string, Transport>,
    defaultTransport: Option<Transport>,
    defaultStrategy: Strategy,
    upstreamTimeout: nat,
    fallbackTimeout: nat,
    fallbackGrace: nat,
    independentCache: bool,
    serverFromInbound: map<string, InboundSubnet>)

  /** The kind of query: `Exchange` allows fake-IP servers, `Lookup` does not. */
  datatype Query = Query(allowFakeIP: bool, isAddress: bool)

  // ---------------------------------------------------------------- choosing the servers of a route rule

  predicate IsUsable(table: map<string, Transport>, tag: string, allowFakeIP: bool) {
    tag != "" && tag in table && (allowFakeIP || !table[tag].fakeIP)
  }

  function Usable(table: map<string, Transport>, tags: seq<string>, allowFakeIP: bool): seq<Transport> {
    if tags == [] then []
    else
      var front, tag := tags[..|tags| - 1], tags[|tags| - 1];
      Usable(table, front, allowFakeIP) + (if tag !in front && IsUsable(table, tag, allowFakeIP) then [table[tag]] else [])
  }

  predicate NamesFakeIP(table: map<string, Transport>, tags: seq<string>) {
    exists i :: 0 <= i < |tags| && tags[i] != "" && tags[i] in table && table[tags[i]].fakeIP
  }

  /** The two server loops of matchDNS. */
  method SelectServers(table: map<string, Transport>, tags: seq<string>, allowFakeIP: bool)
    returns (transports: seq<Transport>, hasFakeIP: bool)
    ensures transports == Usable(table, tags, allowFakeIP)
    ensures hasFakeIP <==> NamesFakeIP(table, tags)
  {
    var seen: set<string> := {};
    transports, hasFakeIP := [], false;
    for i := 0 to |tags|
      invariant forall t :: t in seen <==> t != "" && t in tags[..i]
      invariant transports == Usable(table, tags[..i], allowFakeIP)
      invariant hasFakeIP <==> NamesFakeIP(table, tags[..i])
    {
      var tag := tags[i];
      assert tags[..i + 1][..i] == tags[..i] && tags[..i + 1][i] == tag;
      assert NamesFakeIP(table, tags[..i + 1]) <==>
        NamesFakeIP(table, tags[..i]) || (tag != "" && tag in table && table[tag].fakeIP) by {
        assert forall j :: 0 <= j < i ==> tags[..i + 1][j] == tags[..i][j];
      }
      if tag == "" || tag in seen {
        continue;
      }
      seen := seen + {tag};
      if tag !in table {
        continue;
      }
      var transport := table[tag];
      if transport.fakeIP {
        hasFakeIP := true;
        if !allowFakeIP {
          continue;
        }
      }
      transports := transports + [transport];
    }
    assert tags[..|tags|] == tags;
  }

  /** Every transport is filed under its own tag (kept by the registration tables). */
  predicate WellTagged(table: map<string, Transport>) {
    forall tag :: tag in table ==> table[tag].tag == tag
  }

  /** The position at which a tag first appears. */
  function Position(tags: seq<string>, tag: string): (p: nat)
    ensures p <= |tags|
    ensures p < |tags| ==> tags[p] == tag
    ensures forall i :: 0 <= i < p ==> tags[i] != tag
  {
    if tags == [] || tags[0] == tag then 0 else 1 + Position(tags[1..], tag)
  }

  lemma PositionInFront(tags: seq<string>, tag: string)
    requires tags != []
    ensures var n := |tags| - 1;
      Position(tags, tag) == if tag in tags[..n] then Position(tags[..n], tag) else if tag == tags[n] then n else n + 1
  {
    var n := |tags| - 1;
    var front := tags[..n];
    if tag in front {
      var p, q := Position(tags, tag), Position(front, tag);
      assert q < n && front[q] == tag;
      assert p <= q;
      assert front[p] == tags[p];
    }
  }

  lemma {:induction false} UsableMembers(table: map<string, Transport>, tags: seq<string>, allowFakeIP: bool)
    requires WellTagged(table)
    ensures forall t :: t in Usable(table, tags, allowFakeIP) <==> t.tag in tags && IsUsable(table, t.tag, allowFakeIP) && table[t.tag] == t
  {
    if tags != [] {
      UsableMembers(table, tags[..|tags| - 1], allowFakeIP);
      assert tags == tags[..|tags| - 1] + [tags[|tags| - 1]];
    }
  }

  predicate OrderedByPosition(u: seq<Transport>, tags: seq<string>) {
    forall i, j :: 0 <= i < j < |u| ==> Position(tags, u[i].tag) < Position(tags, u[j].tag)
  }

  lemma {:induction false} UsableOrder(table: map<string, Transport>, tags: seq<string>, allowFakeIP: bool)
    requires WellTagged(table)
    ensures OrderedByPosition(Usable(table, tags, allowFakeIP), tags)
  {
    if tags != [] {
      var n := |tags| - 1;
      var front := tags[..n];
      var before, u := Usable(table, front, allowFakeIP), Usable(table, tags, allowFakeIP);
      UsableOrder(table, front, allowFakeIP);
      UsableMembers(table, front, allowFakeIP);
      forall i | 0 <= i < |u|
        ensures i < |before| ==> u[i].tag in front && Position(tags, u[i].tag) == Position(front, u[i].tag) < n
        ensures i >= |before| ==> Position(tags, u[i].tag) == n
      {
        assert i < |before| ==> u[i] == before[i] && before[i] in before;
        PositionInFront(tags, u[i].tag);
      }
    }
  }

  /** The chosen transports are exactly the usable ones, each once, in the order in which the rule first names them. */
  lemma UsableIsExact(table: map<string, Transport>, tags: seq<string>, allowFakeIP: bool)
    requires WellTagged(table)
    ensures var u := Usable(table, tags, allowFakeIP);
      && (forall t :: t in u <==> t.tag in tags && IsUsable(table, t.tag, allowFakeIP) && table[t.tag] == t)
      && OrderedByPosition(u, tags)
      && (forall i, j :: 0 <= i < j < |u| ==> u[i].tag != u[j].tag)
      && (!allowFakeIP ==> forall t :: t in u ==> !t.fakeIP)
  {
    UsableMembers(table, tags, allowFakeIP);
    UsableOrder(table, tags, allowFakeIP);
  }

  // ---------------------------------------------------------------- matchDNS

  predicate Eligible(q: Query, r: Rule) {
    r.matches && (r.addressLimit ==> q.isAddress)
  }

  /** The walk ends at this rule. */
  predicate Decisive(router: Router, q: Query, r: Rule) {
    Eligible(q, r) &&
    match r.action
    case Route(servers, _, _, _, _, _) => Usable(router.table, servers, q.allowFakeIP) != []
    case RouteOptions(_) => false
    case Reject(_) => true
    case Predefined(_, _) => true
  }

  function FirstDecisive(router: Router, q: Query, from: nat): (k: int)
    requires from <= |router.rules|
    ensures k == -1 || from <= k < |router.rules|
    ensures k != -1 ==> Decisive(router, q, router.rules[k]) && forall j :: from <= j < k ==> !Decisive(router, q, router.rules[j])
    ensures k == -1 ==> forall j :: from <= j < |router.rules| ==> !Decisive(router, q, router.rules[j])
    decreases |router.rules| - from
  {
    if from == |router.rules| then -1
    else if Decisive(router, q, router.rules[from]) then from
    else FirstDecisive(router, q, from + 1)
  }

  /** The options after the route-options rules in [lo, hi). */
  function Accumulate(rules: seq<Rule>, q: Query, lo: nat, hi: nat, o: Options): Options
    requires lo <= hi <= |rules|
    decreases hi
  {
    if lo == hi then o
    else
      var before := Accumulate(rules, q, lo, hi - 1, o);
      var r := rules[hi - 1];
      if Eligible(q, r) && r.action.RouteOptions? then Override(before, r.action.overrides) else before
  }

  /** Rule `j` changes the options when the walk passes it. */
  predicate Adjusts(rules: seq<Rule>, q: Query, j: nat)
    requires j < |rules|
  {
    Eligible(q, rules[j]) && rules[j].action.RouteOptions?
  }

  /** Rule `j` is the last one in [.., hi) to set an option. */
  predicate LastToSet(rules: seq<Rule>, q: Query, j: nat, hi: nat, isSet: Options -> bool)
    requires j < hi <= |rules|
  {
    && Adjusts(rules, q, j) && isSet(rules[j].action.overrides)
    && (forall m :: j < m < hi && Adjusts(rules, q, m) ==> !isSet(rules[m].action.overrides))
  }

  /** The last rule in [lo, hi) to set an option decides its value; without one it keeps its initial value. */
  predicate Decided<T(==)>(rules: seq<Rule>, q: Query, lo: nat, hi: nat, isSet: Options -> bool, get: Options -> T, initial: T, value: T)
    requires lo <= hi <= |rules|
  {
    && (forall j :: lo <= j < hi && LastToSet(rules, q, j, hi, isSet) ==> value == get(rules[j].action.overrides))
    && ((forall j :: lo <= j < hi ==> !LastToSet(rules, q, j, hi, isSet)) ==> value == initial)
  }

  lemma {:induction false} LastSetterWins<T>(rules: seq<Rule>, q: Query, lo: nat, hi: nat, o: Options, isSet: Options -> bool, get: Options -> T)
    requires lo <= hi <= |rules|
    requires forall a: Options, b: Options :: get(Override(a, b)) == if isSet(b) then get(b) else get(a)
    ensures Decided(rules, q, lo, hi, isSet, get, get(o), get(Accumulate(rules, q, lo, hi, o)))
  {
    if lo < hi {
      LastSetterWins(rules, q, lo, hi - 1, o, isSet, get);
      var before := Accumulate(rules, q, lo, hi - 1, o);
      if Adjusts(rules, q, hi - 1) && isSet(rules[hi - 1].action.overrides) {
        assert LastToSet(rules, q, hi - 1, hi, isSet);
      } else {
        forall j | lo <= j < hi - 1 ensures LastToSet(rules, q, j, hi, isSet) <==> LastToSet(rules, q, j, hi - 1, isSet) {
        }
        if forall j :: lo <= j < hi ==> !LastToSet(rules, q, j, hi, isSet) {
          var h := hi - 1;
          forall j | lo <= j < h ensures !LastToSet(rules, q, j, h, isSet) {
            assert !LastToSet(rules, q, j, hi, isSet);
          }
        }
      }
    }
  }

  /** Every option after a walk: the last eligible route-options rule to set it wins, and the cache is never switched back on. */
  lemma OptionsAfterWalk(rules: seq<Rule>, q: Query, lo: nat, hi: nat, o: Options)
    requires lo <= hi <= |rules|
    ensures var r := Accumulate(rules, q, lo, hi, o);
      && Decided(rules, q, lo, hi, (v: Options) => v.strategy != AsIs, (v: Options) => v.strategy, o.strategy, r.strategy)
      && Decided(rules, q, lo, hi, (v: Options) => v.rewriteTTL.Some?, (v: Options) => v.rewriteTTL, o.rewriteTTL, r.rewriteTTL)
      && Decided(rules, q, lo, hi, (v: Options) => v.clientSubnet.Some?, (v: Options) => v.clientSubnet, o.clientSubnet, r.clientSubnet)
      && Decided(rules, q, lo, hi, (v: Options) => v.fromInbound.Some?, (v: Options) => v.fromInbound, o.fromInbound, r.fromInbound)
      && (r.disableCache <==> o.disableCache || exists j :: lo <= j < hi && Adjusts(rules, q, j) && rules[j].action.overrides.disableCache)
  {
    LastSetterWins(rules, q, lo, hi, o, (v: Options) => v.strategy != AsIs, (v: Options) => v.strategy);
    LastSetterWins(rules, q, lo, hi, o, (v: Options) => v.rewriteTTL.Some?, (v: Options) => v.rewriteTTL);
    LastSetterWins(rules, q, lo, hi, o, (v: Options) => v.clientSubnet.Some?, (v: Options) => v.clientSubnet);
    LastSetterWins(rules, q, lo, hi, o, (v: Options) => v.fromInbound.Some?, (v: Options) => v.fromInbound);
    CacheStaysOff(rules, q, lo, hi, o);
  }

  lemma {:induction false} CacheStaysOff(rules: seq<Rule>, q: Query, lo: nat, hi: nat, o: Options)
    requires lo <= hi <= |rules|
    ensures Accumulate(rules, q, lo, hi, o).disableCache <==>
      o.disableCache || exists j :: lo <= j < hi && Adjusts(rules, q, j) && rules[j].action.overrides.disableCache
  {
    if lo < hi {
      CacheStaysOff(rules, q, lo, hi - 1, o);
    }
  }

  datatype Match = Match(
    transports: seq<Transport>,
    fallbacks: seq<Transport>,
    upstreamTimeout: nat,
    fallbackTimeout: nat,
    fallbackGrace: nat,
    rule: int,
    options: Options)

  function Inherit(own: nat, global: nat): nat {
    if own == 0 then global else own
  }

  /** What route rule `k` hands to the racers. */
  function RouteMatch(router: Router, q: Query, k: nat, before: Options): Match
    requires k < |router.rules| && router.rules[k].action.Route?
  {
    var Route(servers, fallbackServers, overrides, up, fb, grace) := router.rules[k].action;
    var transports := Usable(router.table, servers, q.allowFakeIP);
    var fake := NamesFakeIP(router.table, servers) || NamesFakeIP(router.table, fallbackServers);
    var upstream := Inherit(up, router.upstreamTimeout);
    Match(transports, Usable(router.table, fallbackServers, q.allowFakeIP),
          upstream,
          Inherit(Inherit(fb, router.fallbackTimeout), upstream),
          Inherit(grace, router.fallbackGrace),
          k,
          FillLegacy(Override(before, overrides.(disableCache := overrides.disableCache || fake)), transports))
  }

  /** What a walk that starts after rule `previous` and ends at rule `k` returns; -1 is "no rule". */
  function MatchAt(router: Router, q: Query, previous: int, k: int, o: Options): Match
    requires -1 <= previous < |router.rules| && (k == -1 || previous < k < |router.rules|)
  {
    var end := if k == -1 then |router.rules| else k;
    var accumulated := Accumulate(router.rules, q, previous + 1, end, o);
    if k != -1 && router.rules[k].action.Route? then RouteMatch(router, q, k, accumulated)
    else
      var transports := if k == -1 && router.defaultTransport.Some? then [router.defaultTransport.value] else [];
      Match(transports, [], router.upstreamTimeout, router.fallbackTimeout, router.fallbackGrace, k, accumulated)
  }

  /** The assignments both kinds of options make to the query's options. */
  method ApplyOverrides(initial: Options, overrides: Options) returns (options: Options)
    ensures options == Override(initial, overrides)
  {
    options := initial;
    if overrides.strategy != AsIs {
      options := options.(strategy := overrides.strategy);
    }
    if overrides.disableCache {
      options := options.(disableCache := true);
    }
    if overrides.rewriteTTL.Some? {
      options := options.(rewriteTTL := overrides.rewriteTTL);
    }
    if overrides.clientSubnet.Some? {
      options := options.(clientSubnet := overrides.clientSubnet);
    }
    if overrides.fromInbound.Some? {
      options := options.(fromInbound := overrides.fromInbound);
    }
  }

  /** The route case of matchDNS: no match when none of the rule's servers is usable. */
  method MatchRoute(router: Router, q: Query, k: nat, before: Options) returns (m: Option<Match>)
    requires k < |router.rules| && router.rules[k].action.Route?
    ensures m.None? <==> Usable(router.table, router.rules[k].action.servers, q.allowFakeIP) == []
    ensures m.Some? ==> m.value == RouteMatch(router, q, k, before)
  {
    var Route(servers, fallbackServers, overrides, up, fb, grace) := router.rules[k].action;
    var transports, fakeIP := SelectServers(router.table, servers, q.allowFakeIP);
    if |transports| == 0 {
      return None;
    }
    var fallbacks, fallbackFakeIP := SelectServers(router.table, fallbackServers, q.allowFakeIP);
    var options := ApplyOverrides(before, overrides);
    if fakeIP || fallbackFakeIP {
      options := options.(disableCache := true);
    }
    if |transports| == 1 && transports[0].legacy.Some? {
      if options.strategy == AsIs {
        options := options.(strategy := transports[0].legacy.value.strategy);
      }
      if options.clientSubnet.None? {
        options := options.(clientSubnet := transports[0].legacy.value.subnet);
      }
    }
    var upstreamTimeout := if up == 0 then router.upstreamTimeout else up;
    var fallbackTimeout := if fb == 0 then router.fallbackTimeout else fb;
    if fallbackTimeout == 0 {
      fallbackTimeout := upstreamTimeout;
    }
    var fallbackGrace := if grace == 0 then router.fallbackGrace else grace;
    m := Some(Match(transports, fallbacks, upstreamTimeout, fallbackTimeout, fallbackGrace, k, options));
  }

  /** What passing rule `k` leaves of the options. */
  function OptionsPast(rules: seq<Rule>, q: Query, k: nat, before: Options): Options
    requires k < |rules|
  {
    if Adjusts(rules, q, k) then Override(before, rules[k].action.overrides) else before
  }

  /** What a walk that ends at rule `k` returns, given the options it has accumulated. */
  function EndAt(router: Router, q: Query, k: nat, accumulated: Options): Match
    requires k < |router.rules|
  {
    if router.rules[k].action.Route? then RouteMatch(router, q, k, accumulated)
    else Match([], [], router.upstreamTimeout, router.fallbackTimeout, router.fallbackGrace, k, accumulated)
  }

  /** One iteration of matchDNS: it ends the walk, or passes the rule. */
  method VisitRule(router: Router, q: Query, k: nat, before: Options) returns (m: Option<Match>, options: Options)
    requires k < |router.rules|
    ensures m.Some? <==> Decisive(router, q, router.rules[k])
    ensures m.Some? ==> m.value == EndAt(router, q, k, before)
    ensures m.None? ==> options == OptionsPast(router.rules, q, k, before)
  {
    m, options := None, before;
    var rule := router.rules[k];
    if rule.addressLimit && !q.isAddress {
      return;
    }
    if rule.matches {
      match rule.action
      case Route(_, _, _, _, _, _) =>
        m := MatchRoute(router, q, k, before);
      case RouteOptions(overrides) =>
        options := ApplyOverrides(before, overrides);
      case _ =>
        m := Some(Match([], [], router.upstreamTimeout, router.fallbackTimeout, router.fallbackGrace, k, before));
    }
  }

  /** What the walk keeps when it passes rule `k`. */
  lemma PassRule(router: Router, q: Query, start: nat, k: nat, initial: Options)
    requires start <= k < |router.rules| && !Decisive(router, q, router.rules[k])
    ensures FirstDecisive(router, q, k) == FirstDecisive(router, q, k + 1)
    ensures Accumulate(router.rules, q, start, k + 1, initial) == OptionsPast(router.rules, q, k, Accumulate(router.rules, q, start, k, initial))
  {
  }

  /** What the walk returns when it ends at rule `k`. */
  lemma EndOfWalk(router: Router, q: Query, previous: int, k: nat, initial: Options)
    requires -1 <= previous < k < |router.rules| && Decisive(router, q, router.rules[k])
    ensures FirstDecisive(router, q, k) == k
    ensures MatchAt(router, q, previous, k, initial) == EndAt(router, q, k, Accumulate(router.rules, q, previous + 1, k, initial))
  {
  }

  // ---------------------------------------------------------------- what a walk promises its caller

  /** The rule names a server that can be asked. */
  predicate CanBeAsked(router: Router, tags: seq<string>, allowFakeIP: bool) {
    exists i :: 0 <= i < |tags| && tags[i] != "" && tags[i] in router.table && (allowFakeIP || !router.table[tags[i]].fakeIP)
  }

  /** A rule at which a walk ends: it matches, its address limit fits the query, and it says what to do. */
  predicate EndsWalk(router: Router, q: Query, r: Rule) {
    && r.matches && (q.isAddress || !r.addressLimit)
    && (r.action.Reject? || r.action.Predefined? || (r.action.Route? && CanBeAsked(router, r.action.servers, q.allowFakeIP)))
  }

  lemma {:induction false} SomethingIsUsable(router: Router, tags: seq<string>, allowFakeIP: bool)
    ensures Usable(router.table, tags, allowFakeIP) != [] <==> CanBeAsked(router, tags, allowFakeIP)
  {
    if tags != [] {
      var n := |tags| - 1;
      SomethingIsUsable(router, tags[..n], allowFakeIP);
      if i :| 0 <= i < n && tags[..n][i] != "" && tags[..n][i] in router.table && (allowFakeIP || !router.table[tags[..n][i]].fakeIP) {
        assert tags[i] == tags[..n][i];
      }
      if tags[n] in tags[..n] && IsUsable(router.table, tags[n], allowFakeIP) {
        var i :| 0 <= i < n && tags[..n][i] == tags[n];
        assert CanBeAsked(router, tags[..n], allowFakeIP);
      }
      if i :| 0 <= i < |tags| && tags[i] != "" && tags[i] in router.table && (allowFakeIP || !router.table[tags[i]].fakeIP) {
        if i < n {
          assert tags[..n][i] == tags[i];
        }
      }
    }
  }

  lemma DecisiveRulesEndWalks(router: Router, q: Query, r: Rule)
    ensures Decisive(router, q, r) <==> EndsWalk(router, q, r)
  {
    if r.action.Route? {
      SomethingIsUsable(router, r.action.servers, q.allowFakeIP);
    }
  }

  /** The walk after rule `previous` ends at the first such rule, or at none when there is none. */
  predicate EndsAtFirst(router: Router, q: Query, previous: int, k: int)
    requires -1 <= previous < |router.rules|
  {
    if k == -1 then forall j :: previous < j < |router.rules| ==> !EndsWalk(router, q, router.rules[j])
    else
      && previous < k < |router.rules| && EndsWalk(router, q, router.rules[k])
      && forall j :: previous < j < k ==> !EndsWalk(router, q, router.rules[j])
  }

  /** Exactly the servers that a list names and that can be asked, in the order in which it first names them. */
  ghost predicate Chosen(router: Router, tags: seq<string>, allowFakeIP: bool, ts: seq<Transport>) {
    && (forall t :: t in ts <==>
          t.tag in tags && t.tag != "" && t.tag in router.table && router.table[t.tag] == t && (allowFakeIP || !t.fakeIP))
    && OrderedByPosition(ts, tags)
  }

  /** Whom a walk that ends here asks, and for how long: a rule's own timeout goes before the router's. */
  ghost predicate Serves(router: Router, q: Query, m: Match)
    requires -1 <= m.rule < |router.rules|
  {
    if m.rule == -1 then
      && m.transports == (match router.defaultTransport case Some(t) => [t] case None => [])
      && m.fallbacks == []
      && m.upstreamTimeout == router.upstreamTimeout && m.fallbackTimeout == router.fallbackTimeout && m.fallbackGrace == router.fallbackGrace
    else
      match router.rules[m.rule].action
      case Route(servers, fallbackServers, _, up, fb, grace) =>
        && Chosen(router, servers, q.allowFakeIP, m.transports) && Chosen(router, fallbackServers, q.allowFakeIP, m.fallbacks)
        && (up > 0 ==> m.upstreamTimeout == up) && (up == 0 ==> m.upstreamTimeout == router.upstreamTimeout)
        && (fb > 0 ==> m.fallbackTimeout == fb) && (fb == 0 && router.fallbackTimeout > 0 ==> m.fallbackTimeout == router.fallbackTimeout)
        && (fb == 0 && router.fallbackTimeout == 0 ==> m.fallbackTimeout == m.upstreamTimeout)
        && (grace > 0 ==> m.fallbackGrace == grace) && (grace == 0 ==> m.fallbackGrace == router.fallbackGrace)
      case _ => m.transports == [] && m.fallbacks == []
  }

  lemma WalkServes(router: Router, q: Query, previous: int, o: Options)
    requires -1 <= previous < |router.rules|
    ensures var k := FirstDecisive(router, q, previous + 1);
      && EndsAtFirst(router, q, previous, k)
      && (WellTagged(router.table) ==> MatchAt(router, q, previous, k, o).rule == k && Serves(router, q, MatchAt(router, q, previous, k, o)))
  {
    var k := FirstDecisive(router, q, previous + 1);
    forall j | previous < j < |router.rules| ensures Decisive(router, q, router.rules[j]) <==> EndsWalk(router, q, router.rules[j]) {
      DecisiveRulesEndWalks(router, q, router.rules[j]);
    }
    if k != -1 && router.rules[k].action.Route? && WellTagged(router.table) {
      UsableIsExact(router.table, router.rules[k].action.servers, q.allowFakeIP);
      UsableIsExact(router.table, router.rules[k].action.fallbackServers, q.allowFakeIP);
    }
  }

  method MatchDNS(router: Router, q: Query, ruleIndex: int, initial: Options) returns (m: Match)
    requires -1 <= ruleIndex < |router.rules|
    ensures m.rule == FirstDecisive(router, q, ruleIndex + 1)
    ensures m == MatchAt(router, q, ruleIndex, m.rule, initial)
    ensures EndsAtFirst(router, q, ruleIndex, m.rule)
    ensures WellTagged(router.table) ==> Serves(router, q, m)
  {
    WalkServes(router, q, ruleIndex, initial);
    var options := initial;
    var current := 0;
    if ruleIndex != -1 {
      current := ruleIndex + 1;
    }
    while current < |router.rules|
      invariant ruleIndex + 1 <= current <= |router.rules|
      invariant FirstDecisive(router, q, ruleIndex + 1) == FirstDecisive(router, q, current)
      invariant options == Accumulate(router.rules, q, ruleIndex + 1, current, initial)
    {
      var ended, after := VisitRule(router, q, current, options);
      if ended.Some? {
        EndOfWalk(router, q, ruleIndex, current, initial);
        return ended.value;
      }
      PassRule(router, q, ruleIndex + 1, current, initial);
      options := after;
      current := current + 1;
    }
    var transports := if router.defaultTransport.None? then [] else [router.defaultTransport.value];
    return Match(transports, [], router.upstreamTimeout, router.fallbackTimeout, router.fallbackGrace, -1, options);
  }
}
