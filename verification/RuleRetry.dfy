/**
 * The retry loops of `Exchange` and `Lookup` (dns/router.go): each attempt walks on from the rule of the
 * previous one, and a rule with an address limit may have its answer turned away.
 */
module RuleRetry {
  import opened Optional
  import opened DnsMessage
  import opened RaceOutcome
  import opened RuleWalk
  import opened ClientSubnet

  // ---------------------------------------------------------------- what an attempt is made of

  /** One call of a racer: the match, and the options of its primary and of its fallback queries. */
  datatype Attempt = Attempt(walk: Match, primary: Options, fallback: Options)
  {
    predicate Hedged() {
      walk.upstreamTimeout > 0 && walk.fallbacks != []
    }
  }

  function WithDefaultStrategy(o: Options, strategy: Strategy): Options {
    if o.strategy == AsIs then o.(strategy := strategy) else o
  }

  function Prepare(router: Router, m: Match): Attempt {
    var primary := WithDefaultStrategy(FillLegacy(m.options, m.transports), router.defaultStrategy);
    var fallback := WithDefaultStrategy(FillLegacy(m.options, m.fallbacks), router.defaultStrategy);
    Attempt(m,
      if !router.independentCache && |m.transports| > 1 then primary.(disableCache := true) else primary,
      if !router.independentCache && m.upstreamTimeout > 0 && |m.fallbacks| > 0 then fallback.(disableCache := true) else fallback)
  }

  /** The assignments both loops make between a match and its race. */
  method PrepareAttempt(router: Router, m: Match) returns (a: Attempt)
    ensures a == Prepare(router, m)
  {
    var primary, fallback := m.options, m.options;
    if |m.transports| == 1 && m.transports[0].legacy.Some? {
      if primary.strategy == AsIs {
        primary := primary.(strategy := m.transports[0].legacy.value.strategy);
      }
      if primary.clientSubnet.None? {
        primary := primary.(clientSubnet := m.transports[0].legacy.value.subnet);
      }
    }
    if |m.fallbacks| == 1 && m.fallbacks[0].legacy.Some? {
      if fallback.strategy == AsIs {
        fallback := fallback.(strategy := m.fallbacks[0].legacy.value.strategy);
      }
      if fallback.clientSubnet.None? {
        fallback := fallback.(clientSubnet := m.fallbacks[0].legacy.value.subnet);
      }
    }
    if primary.strategy == AsIs {
      primary := primary.(strategy := router.defaultStrategy);
    }
    if fallback.strategy == AsIs {
      fallback := fallback.(strategy := router.defaultStrategy);
    }
    if !router.independentCache {
      if |m.transports| > 1 {
        primary := primary.(disableCache := true);
      }
      if m.upstreamTimeout > 0 && |m.fallbacks| > 0 {
        fallback := fallback.(disableCache := true);
      }
    }
    a := Attempt(m, primary, fallback);
  }

  /** The last rule before `end` that ends a walk, or -1. */
  function LastDecisive(router: Router, q: Query, end: nat): (k: int)
    requires end <= |router.rules|
    ensures -1 <= k < end
    ensures k != -1 ==> Decisive(router, q, router.rules[k])
    ensures forall j :: k < j < end ==> !Decisive(router, q, router.rules[j])
  {
    if end == 0 then -1
    else if Decisive(router, q, router.rules[end - 1]) then end - 1
    else LastDecisive(router, q, end - 1)
  }

  function End(router: Router, k: int): nat
    requires -1 <= k < |router.rules|
  {
    if k == -1 then |router.rules| else k
  }

  /** The attempt made for rule `k`: its options start from the caller's, after the last rule attempted before it. */
  function AttemptAt(router: Router, q: Query, k: int, o: Options): Attempt
    requires -1 <= k < |router.rules|
  {
    Prepare(router, MatchAt(router, q, LastDecisive(router, q, End(router, k)), k, o))
  }

  /** The first strategy if it is set, else the second. */
  function Or(first: Strategy, second: Strategy): Strategy {
    if first != AsIs then first else second
  }

  /** The strategy and the subnet of the only server of a list, if it is a legacy one. */
  function OnlyLegacyStrategy(transports: seq<Transport>): Strategy {
    if |transports| == 1 && transports[0].legacy.Some? then transports[0].legacy.value.strategy else AsIs
  }

  function OnlyLegacySubnet(transports: seq<Transport>): Option<Prefix> {
    if |transports| == 1 && transports[0].legacy.Some? then transports[0].legacy.value.subnet else None
  }

  /** The options that a walk has accumulated when it ends at rule `k`. */
  function AccumulatedAt(router: Router, q: Query, k: int, o: Options): Options
    requires -1 <= k < |router.rules|
  {
    Accumulate(router.rules, q, LastDecisive(router, q, End(router, k)) + 1, End(router, k), o)
  }

  /**
   * What an attempt for route rule `k` asks with. The rule's own setting goes first, then what was accumulated,
   * then the setting of a single legacy server, then the router's default. The settings of a single legacy primary
   * go before those of a single legacy fallback for the fallback queries too: the walk has put them into the
   * options that both roles start from.
   */
  lemma AttemptSettings(router: Router, q: Query, k: nat, o: Options)
    requires k < |router.rules| && router.rules[k].action.Route?
    ensures var a, rule, before := AttemptAt(router, q, k, o), router.rules[k].action, AccumulatedAt(router, q, k, o);
      var ts, fs := a.walk.transports, a.walk.fallbacks;
      && a.primary.strategy == Or(rule.overrides.strategy, Or(before.strategy, Or(OnlyLegacyStrategy(ts), router.defaultStrategy)))
      && a.fallback.strategy ==
           Or(rule.overrides.strategy, Or(before.strategy, Or(OnlyLegacyStrategy(ts), Or(OnlyLegacyStrategy(fs), router.defaultStrategy))))
      && a.primary.clientSubnet == rule.overrides.clientSubnet.Or(before.clientSubnet).Or(OnlyLegacySubnet(ts))
      && a.fallback.clientSubnet == rule.overrides.clientSubnet.Or(before.clientSubnet).Or(OnlyLegacySubnet(ts)).Or(OnlyLegacySubnet(fs))
  {
    var rule, before := router.rules[k].action, AccumulatedAt(router, q, k, o);
    var m := MatchAt(router, q, LastDecisive(router, q, k), k, o);
    var fake := NamesFakeIP(router.table, rule.servers) || NamesFakeIP(router.table, rule.fallbackServers);
    var overrides := rule.overrides.(disableCache := rule.overrides.disableCache || fake);
    assert m.options == FillLegacy(Override(before, overrides), m.transports);
    FillTwice(before, overrides, m.transports, m.fallbacks, router.defaultStrategy);
    CachingLeavesTheRest(router, m);
  }

  /** The same for the default transport, which no rule overrides. */
  lemma DefaultSettings(router: Router, q: Query, o: Options)
    ensures var a, before := AttemptAt(router, q, -1, o), AccumulatedAt(router, q, -1, o);
      && a.primary.strategy == Or(before.strategy, Or(OnlyLegacyStrategy(a.walk.transports), router.defaultStrategy))
      && a.primary.clientSubnet == before.clientSubnet.Or(OnlyLegacySubnet(a.walk.transports))
      && !a.Hedged()
  {
    CachingLeavesTheRest(router, MatchAt(router, q, LastDecisive(router, q, End(router, -1)), -1, o));
  }

  /** When an attempt's queries leave the cache alone, and which other options they have. */
  lemma AttemptCaching(router: Router, q: Query, k: nat, o: Options)
    requires k < |router.rules| && router.rules[k].action.Route?
    ensures var a, rule, before := AttemptAt(router, q, k, o), router.rules[k].action, AccumulatedAt(router, q, k, o);
      var uncached := before.disableCache || rule.overrides.disableCache ||
        NamesFakeIP(router.table, rule.servers) || NamesFakeIP(router.table, rule.fallbackServers);
      && (a.primary.disableCache <==> uncached || (!router.independentCache && |a.walk.transports| > 1))
      && (a.fallback.disableCache <==> uncached || (!router.independentCache && a.Hedged()))
      && a.primary.rewriteTTL == a.fallback.rewriteTTL == (if rule.overrides.rewriteTTL.Some? then rule.overrides.rewriteTTL else before.rewriteTTL)
      && a.primary.fromInbound == a.fallback.fromInbound == (if rule.overrides.fromInbound.Some? then rule.overrides.fromInbound else before.fromInbound)
  {
  }

  /** A fake-IP server that a rule names, usable or not, keeps the rule's queries away from the cache. */
  lemma FakeIPDisablesTheCache(router: Router, q: Query, k: nat, o: Options, i: nat)
    requires k < |router.rules| && router.rules[k].action.Route?
    requires var tags := router.rules[k].action.servers + router.rules[k].action.fallbackServers;
      i < |tags| && tags[i] != "" && tags[i] in router.table && router.table[tags[i]].fakeIP
    ensures var a := AttemptAt(router, q, k, o); a.primary.disableCache && a.fallback.disableCache
  {
    var servers, fallbackServers := router.rules[k].action.servers, router.rules[k].action.fallbackServers;
    var tags := servers + fallbackServers;
    assert i < |servers| ==> servers[i] == tags[i];
    assert i >= |servers| ==> fallbackServers[i - |servers|] == tags[i];
    AttemptCaching(router, q, k, o);
  }

  lemma FillTwice(before: Options, overrides: Options, ts: seq<Transport>, fs: seq<Transport>, fallback: Strategy)
    ensures var walked := FillLegacy(Override(before, overrides), ts);
      var p, f := WithDefaultStrategy(FillLegacy(walked, ts), fallback), WithDefaultStrategy(FillLegacy(walked, fs), fallback);
      && p.strategy == Or(overrides.strategy, Or(before.strategy, Or(OnlyLegacyStrategy(ts), fallback)))
      && f.strategy == Or(overrides.strategy, Or(before.strategy, Or(OnlyLegacyStrategy(ts), Or(OnlyLegacyStrategy(fs), fallback))))
      && p.clientSubnet == overrides.clientSubnet.Or(before.clientSubnet).Or(OnlyLegacySubnet(ts))
      && f.clientSubnet == overrides.clientSubnet.Or(before.clientSubnet).Or(OnlyLegacySubnet(ts)).Or(OnlyLegacySubnet(fs))
  {
  }

  lemma CachingLeavesTheRest(router: Router, m: Match)
    ensures var a := Prepare(router, m);
      && a.walk == m
      && a.primary.strategy == WithDefaultStrategy(FillLegacy(m.options, m.transports), router.defaultStrategy).strategy
      && a.fallback.strategy == WithDefaultStrategy(FillLegacy(m.options, m.fallbacks), router.defaultStrategy).strategy
      && a.primary.clientSubnet == FillLegacy(m.options, m.transports).clientSubnet
      && a.fallback.clientSubnet == FillLegacy(m.options, m.fallbacks).clientSubnet
  {
  }

  /** The attempts for the rules before `end` that end a walk, in order. */
  function AttemptsBefore(router: Router, q: Query, o: Options, end: nat): seq<Attempt>
    requires end <= |router.rules|
  {
    if end == 0 then []
    else
      var before := AttemptsBefore(router, q, o, end - 1);
      if Decisive(router, q, router.rules[end - 1]) then before + [AttemptAt(router, q, end - 1, o)] else before
  }

  lemma {:induction false} NoAttemptsBetween(router: Router, q: Query, o: Options, lo: nat, hi: nat)
    requires lo <= hi <= |router.rules|
    requires forall j :: lo <= j < hi ==> !Decisive(router, q, router.rules[j])
    ensures AttemptsBefore(router, q, o, hi) == AttemptsBefore(router, q, o, lo)
  {
    if lo < hi {
      NoAttemptsBetween(router, q, o, lo, hi - 1);
    }
  }

  /** Rule `k` is the first that ends a walk and is not turned away; -1 when there is none. */
  predicate Accepts(router: Router, q: Query, away: nat -> bool, k: int) {
    && -1 <= k < |router.rules|
    && (k != -1 ==> Decisive(router, q, router.rules[k]) && !away(k))
    && (forall j :: 0 <= j < End(router, k) && Decisive(router, q, router.rules[j]) ==> away(j))
  }

  /** Every rule up to `previous` that ends a walk has been turned away. */
  ghost predicate AwayUpTo(router: Router, q: Query, away: nat -> bool, previous: int)
    requires -1 <= previous < |router.rules|
  {
    && (previous != -1 ==> Decisive(router, q, router.rules[previous]))
    && (forall j :: 0 <= j <= previous && Decisive(router, q, router.rules[j]) ==> away(j))
  }

  /** What a walk finds that goes on after them. */
  lemma GoesOn(router: Router, q: Query, away: nat -> bool, previous: int, k: int)
    requires -1 <= previous < |router.rules| && AwayUpTo(router, q, away, previous)
    requires k == FirstDecisive(router, q, previous + 1)
    ensures LastDecisive(router, q, End(router, k)) == previous
    ensures k != -1 && away(k) ==> AwayUpTo(router, q, away, k)
    ensures k == -1 || !away(k) ==> Accepts(router, q, away, k)
  {
  }

  /** What a walk that goes on from rule `previous` has passed when it ends at rule `k`. */
  lemma NextWalk(router: Router, q: Query, o: Options, previous: int, k: int)
    requires -1 <= previous < |router.rules| && (previous != -1 ==> Decisive(router, q, router.rules[previous]))
    requires k == FirstDecisive(router, q, previous + 1)
    ensures LastDecisive(router, q, End(router, k)) == previous
    ensures AttemptsBefore(router, q, o, End(router, k)) == AttemptsBefore(router, q, o, previous + 1)
    ensures k != -1 ==> AttemptsBefore(router, q, o, k + 1) == AttemptsBefore(router, q, o, previous + 1) + [AttemptAt(router, q, k, o)]
    ensures forall j :: previous < j < End(router, k) ==> !Decisive(router, q, router.rules[j])
  {
    NoAttemptsBetween(router, q, o, previous + 1, End(router, k));
  }

  // ---------------------------------------------------------------- Exchange

  /** An error for which errors.Is finds the rejection, also inside a joined error. */
  predicate IsRejection(a: ExchangeAnswer) {
    a.AllRejectedFromCache? || a.AllRejected? || (a.Joined? && exists i :: 0 <= i < |a.errors| && !a.errors[i].Failed?)
  }

  /** Rule `k` routes under an address limit and its race ends in a rejection. */
  function TurnedAway(router: Router, q: Query, o: Options, race: Attempt -> ExchangeAnswer): nat -> bool {
    (k: nat) =>
      k < |router.rules| && router.rules[k].action.Route? && router.rules[k].addressLimit &&
      IsRejection(race(AttemptAt(router, q, k, o)))
  }

  datatype Reply = Refused | Dropped | PredefinedReply(rcode: nat, addresses: seq<nat>) | Raced(answer: ExchangeAnswer)

  function ReplyAt(router: Router, q: Query, o: Options, race: Attempt -> ExchangeAnswer, k: int): Reply
    requires -1 <= k < |router.rules|
  {
    if k != -1 && router.rules[k].action.Reject? then
      if router.rules[k].action.drop then Dropped else Refused
    else if k != -1 && router.rules[k].action.Predefined? then
      PredefinedReply(router.rules[k].action.rcode, router.rules[k].action.addresses)
    else Raced(race(AttemptAt(router, q, k, o)))
  }

  /**
   * The loop of Router.Exchange for a query without a fixed transport. It ends at the first accepting rule
   * (or the default transport) after exactly one attempt for each rule turned away.
   */
  method ExchangeLoop(router: Router, isAddress: bool, o: Options, race: Attempt -> ExchangeAnswer)
    returns (reply: Reply, rule: int, attempts: seq<Attempt>)
    ensures Accepts(router, Query(true, isAddress), TurnedAway(router, Query(true, isAddress), o, race), rule)
    ensures reply == ReplyAt(router, Query(true, isAddress), o, race, rule)
    ensures attempts == AttemptsBefore(router, Query(true, isAddress), o, End(router, rule)) +
      (if reply.Raced? then [AttemptAt(router, Query(true, isAddress), rule, o)] else [])
  {
    var q := Query(true, isAddress);
    ghost var away := TurnedAway(router, q, o, race);
    rule, attempts := -1, [];
    while true
      invariant -1 <= rule < |router.rules|
      invariant AwayUpTo(router, q, away, rule)
      invariant attempts == AttemptsBefore(router, q, o, rule + 1)
      decreases |router.rules| - rule
    {
      ghost var previous := rule;
      var m := MatchDNS(router, q, rule, o);
      rule := m.rule;
      GoesOn(router, q, away, previous, rule);
      NextWalk(router, q, o, previous, rule);
      if rule != -1 {
        match router.rules[rule].action
        case Reject(drop) =>
          reply := if drop then Dropped else Refused;
          return;
        case Predefined(rcode, addresses) =>
          reply := PredefinedReply(rcode, addresses);
          return;
        case _ =>
      }
      var attempt := PrepareAttempt(router, m);
      assert attempt == AttemptAt(router, q, rule, o);
      var answer := race(attempt);
      attempts := attempts + [attempt];
      if rule != -1 && router.rules[rule].addressLimit && IsRejection(answer) {
        continue;
      }
      reply := Raced(answer);
      return;
    }
  }

  /** No rule has an address limit. */
  predicate Unlimited(router: Router) {
    forall i :: 0 <= i < |router.rules| ==> !router.rules[i].addressLimit
  }

  lemma AcceptsFirst(router: Router, q: Query, away: nat -> bool, k: int)
    requires -1 <= k < |router.rules|
    requires forall j :: 0 <= j < |router.rules| && Decisive(router, q, router.rules[j]) ==> !away(j)
    ensures Accepts(router, q, away, k) <==> EndsAtFirst(router, q, -1, k)
  {
    forall j | 0 <= j < |router.rules| ensures Decisive(router, q, router.rules[j]) <==> EndsWalk(router, q, router.rules[j]) {
      DecisiveRulesEndWalks(router, q, router.rules[j]);
    }
  }

  /** Only an address limit turns a rule away: without one an exchange ends at the first rule that ends a walk. */
  lemma UnlimitedRulesAreFinal(router: Router, q: Query, o: Options, race: Attempt -> ExchangeAnswer, k: int)
    requires -1 <= k < |router.rules| && Unlimited(router)
    ensures Accepts(router, q, TurnedAway(router, q, o, race), k) <==> EndsAtFirst(router, q, -1, k)
  {
    AcceptsFirst(router, q, TurnedAway(router, q, o, race), k);
  }

  /** And it always does when its race ends in a rejection: such a rule is not where an exchange ends. */
  lemma AcceptedRaceIsNoRejection(router: Router, q: Query, o: Options, race: Attempt -> ExchangeAnswer, k: nat)
    requires k < |router.rules| && Accepts(router, q, TurnedAway(router, q, o, race), k)
    requires router.rules[k].addressLimit && router.rules[k].action.Route?
    ensures var answer := race(AttemptAt(router, q, k, o));
      !answer.AllRejectedFromCache? && !answer.AllRejected? &&
      (answer.Joined? ==> forall i :: 0 <= i < |answer.errors| ==> answer.errors[i].Failed?)
  {
  }

  /** What an exchange replies where it ends. */
  lemma ExchangeRepliesAsTold(router: Router, q: Query, o: Options, race: Attempt -> ExchangeAnswer, k: int)
    requires -1 <= k < |router.rules|
    ensures var reply := ReplyAt(router, q, o, race, k);
      && (reply.Dropped? <==> k != -1 && router.rules[k].action == Reject(true))
      && (reply.Refused? <==> k != -1 && router.rules[k].action == Reject(false))
      && (k != -1 && router.rules[k].action.Predefined? ==>
            reply == PredefinedReply(router.rules[k].action.rcode, router.rules[k].action.addresses))
      && (k == -1 || router.rules[k].action.Route? ==> reply == Raced(race(AttemptAt(router, q, k, o))))
  {
  }

  /**
   * Which races turn a rule with an address limit away, in terms of what the workers answer: nobody has a reply, and
   * somebody's answer was rejected unless nobody's query failed.
   */
  lemma TurnedAwayByResults(results: seq<ExchangeResult>)
    ensures IsRejection(Settled(results)) <==>
      && (forall i :: 0 <= i < |results| ==> !results[i].Reply?)
      && ((forall i :: 0 <= i < |results| ==> !results[i].Failed?) ||
          exists i :: 0 <= i < |results| && (results[i].Rejected? || results[i].RejectedFromCache?))
  {
    SettledAnswer(results);
    if !Settled(results).Answer? {
      VerdictIsTheBestReceived(results, false);
      ErrorsDecideTheClass(results);
      assert Settled(results) == ExchangeVerdict(results, false);
      if exists i :: 0 <= i < |results| && results[i].Failed? {
        RejectionIsJoined(results);
      }
    }
  }

  lemma RejectionIsJoined(results: seq<ExchangeResult>)
    requires forall i :: 0 <= i < |results| ==> !results[i].Reply?
    requires exists i :: 0 <= i < |results| && results[i].Failed?
    ensures IsRejection(ExchangeVerdict(results, false)) <==>
      exists i :: 0 <= i < |results| && (results[i].Rejected? || results[i].RejectedFromCache?)
  {
    ErrorsDecideTheClass(results);
    var errors := ExchangeVerdict(results, false).errors;
    if i :| 0 <= i < |results| && (results[i].Rejected? || results[i].RejectedFromCache?) {
      assert results[i] in errors;
      var j :| 0 <= j < |errors| && errors[j] == results[i];
    }
    if i :| 0 <= i < |errors| && !errors[i].Failed? {
      assert errors[i] in results;
      var j :| 0 <= j < |results| && results[j] == errors[i];
    }
  }

  /** The accepting rule is unique, so the loop's outcome is a function of the rules and the races. */
  lemma AcceptsOne(router: Router, q: Query, away: nat -> bool, k: int, m: int)
    requires Accepts(router, q, away, k) && Accepts(router, q, away, m)
    ensures k == m
  {
  }

  // ---------------------------------------------------------------- Lookup

  datatype LookupError = RejectedByRule | RcodeError(rcode: nat) | EmptyResult | FromRace(answer: LookupAnswer)

  function Addresses(a: LookupAnswer): seq<nat> {
    if a.Found? then a.addrs else []
  }

  function Error(a: LookupAnswer): Option<LookupError> {
    if a.Found? then None else Some(FromRace(a))
  }

  /** Rule `k` routes under an address limit and its race fails, for whatever reason. */
  function LookupTurnedAway(router: Router, q: Query, o: Options, race: Attempt -> LookupAnswer): nat -> bool {
    (k: nat) =>
      k < |router.rules| && router.rules[k].action.Route? && router.rules[k].addressLimit &&
      !race(AttemptAt(router, q, k, o)).Found?
  }

  /** The error of the attempt made for rule `k`; before the first attempt there is none. */
  function ErrorAfter(router: Router, q: Query, o: Options, race: Attempt -> LookupAnswer, k: int): Option<LookupError>
    requires -1 <= k < |router.rules|
  {
    if k == -1 then None else Error(race(AttemptAt(router, q, k, o)))
  }

  function OrEmpty(addrs: seq<nat>, error: Option<LookupError>): Option<LookupError> {
    if error.None? && addrs == [] then Some(EmptyResult) else error
  }

  datatype LookupReply = LookupReply(addrs: seq<nat>, error: Option<LookupError>)

  /** What Lookup returns when it ends at rule `k`. A predefined success keeps the error of an earlier attempt. */
  function LookupReplyAt(router: Router, q: Query, o: Options, race: Attempt -> LookupAnswer, k: int): LookupReply
    requires -1 <= k < |router.rules|
  {
    if k != -1 && router.rules[k].action.Reject? then LookupReply([], Some(RejectedByRule))
    else if k != -1 && router.rules[k].action.Predefined? then
      var Predefined(rcode, addresses) := router.rules[k].action;
      if rcode != RCODE_SUCCESS then LookupReply([], Some(RcodeError(rcode)))
      else LookupReply(addresses, OrEmpty(addresses, ErrorAfter(router, q, o, race, LastDecisive(router, q, End(router, k)))))
    else
      var answer := race(AttemptAt(router, q, k, o));
      LookupReply(Addresses(answer), OrEmpty(Addresses(answer), Error(answer)))
  }

  const LOOKUP := Query(false, true)

  /** The end of Lookup at a predefined answer. */
  method PredefinedLookup(rcode: nat, addresses: seq<nat>, before: Option<LookupError>) returns (reply: LookupReply)
    ensures reply == if rcode != RCODE_SUCCESS then LookupReply([], Some(RcodeError(rcode))) else LookupReply(addresses, OrEmpty(addresses, before))
  {
    var addrs: seq<nat>, error := [], before;
    if rcode != RCODE_SUCCESS {
      error := Some(RcodeError(rcode));
    } else {
      addrs := addrs + addresses;
    }
    if error.None? && |addrs| == 0 {
      error := Some(EmptyResult);
    }
    reply := LookupReply(addrs, error);
  }

  /** The loop of Router.Lookup for a query without a fixed transport. */
  method LookupLoop(router: Router, o: Options, race: Attempt -> LookupAnswer) returns (reply: LookupReply, rule: int)
    ensures Accepts(router, LOOKUP, LookupTurnedAway(router, LOOKUP, o, race), rule)
    ensures reply == LookupReplyAt(router, LOOKUP, o, race, rule)
  {
    ghost var away := LookupTurnedAway(router, LOOKUP, o, race);
    var addrs: seq<nat> := [];
    var error: Option<LookupError> := None;
    rule := -1;
    while true
      invariant -1 <= rule < |router.rules|
      invariant AwayUpTo(router, LOOKUP, away, rule)
      invariant addrs == []
      invariant error == ErrorAfter(router, LOOKUP, o, race, rule)
      decreases |router.rules| - rule
    {
      ghost var previous := rule;
      var m := MatchDNS(router, LOOKUP, rule, o);
      rule := m.rule;
      GoesOn(router, LOOKUP, away, previous, rule);
      assert m == MatchAt(router, LOOKUP, LastDecisive(router, LOOKUP, End(router, rule)), rule, o);
      if rule != -1 {
        match router.rules[rule].action
        case Reject(_) =>
          reply := LookupReply([], Some(RejectedByRule));
          return;
        case Predefined(rcode, addresses) =>
          reply := PredefinedLookup(rcode, addresses, error);
          return;
        case _ =>
      }
      var attempt := PrepareAttempt(router, m);
      assert attempt == AttemptAt(router, LOOKUP, rule, o);
      var answer := race(attempt);
      addrs, error := Addresses(answer), Error(answer);
      if rule == -1 || !router.rules[rule].addressLimit || error.None? {
        break;
      }
    }
    reply := LookupReply(addrs, OrEmpty(addrs, error));
  }

  /** What a lookup returns where it ends: the addresses its race found, or the reason why there are none. */
  lemma LookupReturnsWhatWasFound(router: Router, o: Options, race: Attempt -> LookupAnswer, k: int)
    requires -1 <= k < |router.rules|
    ensures var reply := LookupReplyAt(router, LOOKUP, o, race, k);
      && (k == -1 || router.rules[k].action.Route? ==>
            match race(AttemptAt(router, LOOKUP, k, o))
            case Found(addrs) => reply.addrs == addrs && (reply.error.None? <==> addrs != [])
            case NotFound(e) => reply == LookupReply([], Some(FromRace(NotFound(e))))
            case LookupContextError => reply == LookupReply([], Some(FromRace(LookupContextError))))
      && (k != -1 && router.rules[k].action.Reject? ==> reply == LookupReply([], Some(RejectedByRule)))
      && (k != -1 && router.rules[k].action.Predefined? && router.rules[k].action.rcode != 0 ==>
            reply == LookupReply([], Some(RcodeError(router.rules[k].action.rcode))))
      && (k != -1 && router.rules[k].action.Predefined? && router.rules[k].action.rcode == 0 ==>
            reply.addrs == router.rules[k].action.addresses)
  {
  }

  /** For lookups too only an address limit turns a rule away, and then every failure does. */
  lemma UnlimitedLookupsAreFinal(router: Router, o: Options, race: Attempt -> LookupAnswer, k: int)
    requires -1 <= k < |router.rules|
    ensures Unlimited(router) ==> (Accepts(router, LOOKUP, LookupTurnedAway(router, LOOKUP, o, race), k) <==> EndsAtFirst(router, LOOKUP, -1, k))
    ensures Accepts(router, LOOKUP, LookupTurnedAway(router, LOOKUP, o, race), k) && k != -1 ==>
      (router.rules[k].addressLimit && router.rules[k].action.Route? ==> race(AttemptAt(router, LOOKUP, k, o)).Found?)
  {
    if Unlimited(router) {
      AcceptsFirst(router, LOOKUP, LookupTurnedAway(router, LOOKUP, o, race), k);
    }
  }

  /**
   * A predefined success is reported as such exactly when it has an address and no attempt was turned away
   * before it: the loop does not clear the error of the previous attempt.
   */
  lemma PredefinedSuccessIsReported(router: Router, o: Options, race: Attempt -> LookupAnswer, k: nat)
    requires k < |router.rules| && Accepts(router, LOOKUP, LookupTurnedAway(router, LOOKUP, o, race), k)
    requires router.rules[k].action.Predefined? && router.rules[k].action.rcode == RCODE_SUCCESS
    ensures LookupReplyAt(router, LOOKUP, o, race, k).error.None? <==>
      router.rules[k].action.addresses != [] && forall j :: 0 <= j < k ==> !Decisive(router, LOOKUP, router.rules[j])
  {
    var previous := LastDecisive(router, LOOKUP, k);
    if previous != -1 {
      assert LookupTurnedAway(router, LOOKUP, o, race)(previous);
    }
  }

  /** Its shortest case: an address-limited rule whose lookup fails, and a predefined address after it. */
  lemma PredefinedSuccessWithAnError(o: Options)
    ensures
      var none := Options(AsIs, false, None, None, None);
      var rules := [Rule(true, true, Action.Route(["t"], [], none, 0, 0, 0)), Rule(false, true, Predefined(RCODE_SUCCESS, [1]))];
      var router := Router(rules, map["t" := Transport("t", false, None)], None, AsIs, 0, 0, 0, true, map[]);
      var race := (a: Attempt) => NotFound(7);
      && Accepts(router, LOOKUP, LookupTurnedAway(router, LOOKUP, o, race), 1)
      && LookupReplyAt(router, LOOKUP, o, race, 1) == LookupReply([1], Some(FromRace(NotFound(7))))
  {
    var none := Options(AsIs, false, None, None, None);
    var rules := [Rule(true, true, Action.Route(["t"], [], none, 0, 0, 0)), Rule(false, true, Predefined(RCODE_SUCCESS, [1]))];
    var table := map["t" := Transport("t", false, None)];
    var router := Router(rules, table, None, AsIs, 0, 0, 0, true, map[]);
    assert ["t"][..0] == [];
    assert Usable(table, ["t"], false) == [table["t"]];
    assert Decisive(router, LOOKUP, rules[0]) && Decisive(router, LOOKUP, rules[1]);
  }

  // ---------------------------------------------------------------- the workers of an attempt

  /** One worker's query: its server and its options. */
  datatype Worker = Worker(transport: Transport, options: Options)

  /** A server's own setting applies when neither the query nor a rule says where the subnet comes from. */
  function ServerOptions(router: Router, t: Transport, o: Options): Options {
    if o.clientSubnet.Some? || o.fromInbound.Some? || t.tag !in router.serverFromInbound then o
    else o.(fromInbound := Some(router.serverFromInbound[t.tag]))
  }

  /**
   * Where a worker's client subnet comes from: an explicit subnet, the query's or a rule's before the client's;
   * else the inbound peer, with the prefix lengths of the query or a rule, else of the server, else of the client.
   */
  lemma SubnetPrecedence(router: Router, t: Transport, o: Options, clientDefault: Option<Prefix>, inboundDefault: Option<InboundSubnet>, source: Option<Addr>)
    requires source.Some? ==> source.value.Valid()
    requires (o.clientSubnet.Some? ==> o.clientSubnet.value.Valid()) && (clientDefault.Some? ==> clientDefault.value.Valid())
    ensures var server := if t.tag in router.serverFromInbound then Some(router.serverFromInbound[t.tag]) else None;
      Resolve(ServerOptions(router, t, o), clientDefault, inboundDefault, source) ==
        o.clientSubnet.Or(clientDefault).Or(FromInbound(source, o.fromInbound.Or(server).Or(inboundDefault)))
  {
  }

  function WorkersFor(router: Router, transports: seq<Transport>, o: Options): (workers: seq<Worker>)
    ensures |workers| == |transports|
    ensures forall i :: 0 <= i < |workers| ==>
      workers[i].transport == transports[i] && workers[i].options.disableCache == o.disableCache
  {
    seq(|transports|, i requires 0 <= i < |transports| => Worker(transports[i], ServerOptions(router, transports[i], o)))
  }

  function Workers(router: Router, a: Attempt): seq<Worker> {
    WorkersFor(router, a.walk.transports, a.primary) +
      (if a.Hedged() then WorkersFor(router, a.walk.fallbacks, a.fallback) else [])
  }

  /** When no rule ends a walk the default server is asked, and nobody else. */
  lemma DefaultServerIsAsked(router: Router, q: Query, o: Options)
    ensures var workers := Workers(router, AttemptAt(router, q, -1, o));
      match router.defaultTransport
      case Some(t) => |workers| == 1 && workers[0].transport == t
      case None => workers == []
  {
  }

  /** An attempt for a route rule asks its servers, and its fallback servers too if it is hedged. */
  lemma RouteServersAreAsked(router: Router, q: Query, k: nat, o: Options)
    requires k < |router.rules| && router.rules[k].action.Route? && WellTagged(router.table)
    ensures var a, rule := AttemptAt(router, q, k, o), router.rules[k].action;
      var workers, n := Workers(router, a), |a.walk.transports|;
      && n <= |workers|
      && Chosen(router, rule.servers, q.allowFakeIP, Servers(workers[..n]))
      && (if a.Hedged() then Chosen(router, rule.fallbackServers, q.allowFakeIP, Servers(workers[n..])) else |workers| == n)
      && (a.Hedged() <==> CanBeAsked(router, rule.fallbackServers, q.allowFakeIP) && (rule.upstreamTimeout > 0 || router.upstreamTimeout > 0))
  {
    var a, rule := AttemptAt(router, q, k, o), router.rules[k].action;
    var workers, n := Workers(router, a), |a.walk.transports|;
    UsableIsExact(router.table, rule.servers, q.allowFakeIP);
    UsableIsExact(router.table, rule.fallbackServers, q.allowFakeIP);
    SomethingIsUsable(router, rule.fallbackServers, q.allowFakeIP);
    assert Servers(workers[..n]) == a.walk.transports;
    assert a.Hedged() ==> Servers(workers[n..]) == a.walk.fallbacks;
  }

  function Servers(workers: seq<Worker>): (ts: seq<Transport>)
    ensures |ts| == |workers| && forall i :: 0 <= i < |ts| ==> ts[i] == workers[i].transport
  {
    seq(|workers|, i requires 0 <= i < |workers| => workers[i].transport)
  }

  /** With the global cache, at most one worker of an attempt has caching enabled. */
  lemma OneCachingWorker(router: Router, q: Query, k: int, o: Options, i: nat, j: nat)
    requires -1 <= k < |router.rules| && !router.independentCache
    requires var workers := Workers(router, AttemptAt(router, q, k, o)); i < j < |workers|
    ensures var workers := Workers(router, AttemptAt(router, q, k, o));
      workers[i].options.disableCache || workers[j].options.disableCache
  {
  }

  predicate DistinctTags(ts: seq<Transport>) {
    forall i, j :: 0 <= i < j < |ts| ==> ts[i].tag != ts[j].tag
  }

  predicate DisjointTags(ts: seq<Transport>, us: seq<Transport>) {
    forall i, j :: 0 <= i < |ts| && 0 <= j < |us| ==> ts[i].tag != us[j].tag
  }

  predicate DistinctServers(workers: seq<Worker>) {
    forall i, j :: 0 <= i < j < |workers| ==> workers[i].transport.tag != workers[j].transport.tag
  }

  /** The workers of an attempt ask different servers exactly when no fallback runs or no server has both roles. */
  lemma ServersAreDistinct(router: Router, q: Query, k: int, o: Options)
    requires -1 <= k < |router.rules| && WellTagged(router.table)
    ensures var a := AttemptAt(router, q, k, o);
      DistinctServers(Workers(router, a)) <==> !a.Hedged() || DisjointTags(a.walk.transports, a.walk.fallbacks)
  {
    var a := AttemptAt(router, q, k, o);
    MatchedServersAreDistinct(router, q, k, o);
    WorkerTags(WorkersFor(router, a.walk.transports, a.primary), WorkersFor(router, a.walk.fallbacks, a.fallback),
      a.walk.transports, a.walk.fallbacks);
    assert WorkersFor(router, a.walk.transports, a.primary) + [] == WorkersFor(router, a.walk.transports, a.primary);
  }

  lemma MatchedServersAreDistinct(router: Router, q: Query, k: int, o: Options)
    requires -1 <= k < |router.rules| && WellTagged(router.table)
    ensures var m := AttemptAt(router, q, k, o).walk; DistinctTags(m.transports) && DistinctTags(m.fallbacks)
  {
    if k != -1 && router.rules[k].action.Route? {
      UsableIsExact(router.table, router.rules[k].action.servers, q.allowFakeIP);
      UsableIsExact(router.table, router.rules[k].action.fallbackServers, q.allowFakeIP);
    }
  }

  lemma WorkerTags(v: seq<Worker>, w: seq<Worker>, ts: seq<Transport>, us: seq<Transport>)
    requires |v| == |ts| && forall i :: 0 <= i < |v| ==> v[i].transport == ts[i]
    requires |w| == |us| && forall i :: 0 <= i < |w| ==> w[i].transport == us[i]
    requires DistinctTags(ts) && DistinctTags(us)
    ensures DistinctServers(v)
    ensures DistinctServers(v + w) <==> DisjointTags(ts, us)
  {
    var all := v + w;
    if DistinctServers(all) {
      forall i, j | 0 <= i < |ts| && 0 <= j < |us| ensures ts[i].tag != us[j].tag {
        assert all[i].transport == ts[i] && all[|ts| + j].transport == us[j];
      }
    }
  }

  /** Hedging always has a positive fallback timeout, whatever is inherited. */
  lemma HedgingHasAFallbackTimeout(router: Router, q: Query, k: int, o: Options)
    requires -1 <= k < |router.rules|
    ensures var a := AttemptAt(router, q, k, o); a.Hedged() ==> a.walk.fallbackTimeout > 0 && a.walk.transports == Usable(router.table, router.rules[k].action.servers, q.allowFakeIP)
  {
  }
}
