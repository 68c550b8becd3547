/** What the caching client promises over whole runs (dns/client.go, README section 3.4). */
module DnsCacheLaws {
  import opened Optional
  import opened DnsMessage
  import opened ClientSubnet
  import opened CacheTtl
  import opened DnsCache

  // ---------------------------------------------------------------- one key, computed twice

  /** The message lookupToExchange makes. */
  predicate IsLookup(q: Query) {
    |q.message.question| == 1 && q.message.ns == [] && q.message.extra == []
  }

  /** lookupToExchange and Exchange agree on whether a lookup uses the cache, and on its key. */
  lemma KeysAgree(c: Config, q: Query)
    requires q.Valid() && IsLookup(q)
    ensures LookupUsesCache(c, q) <==> UsesCache(c, q)
    ensures LookupUsesCache(c, q) ==> LookupKey(c, q) == QueryKey(c, q)
  {
    var subnet := Resolved(c, q);
    if subnet.Some? {
      ExtractAfterSetWellFormed(q.message, subnet.value);
    }
  }

  /**
   * Looking into the cache first changes nothing about a lookup's result, except where the query's strategy
   * rejects its type: Exchange then answers "no addresses" before it looks into the cache.
   */
  lemma LookupAgreesWithExchange(c: Config, entries: Entries, q: Query)
    requires q.Valid() && IsLookup(q)
    ensures var hit := if LookupUsesCache(c, q) then Load(c, entries, LookupKey(c, q), q.now) else None;
      Lookup(c, entries, q).1 == FromResult(Ask(c, entries, q).1) <==>
        !StrategyRejects(q.message.question[0], q.options.strategy) || hit.None? || FromMessage(hit.value) == Addresses([])
    ensures !StrategyRejects(q.message.question[0], q.options.strategy) ==> Lookup(c, entries, q).0 == Ask(c, entries, q).0
  {
    KeysAgree(c, q);
  }

  /** A query for the A record of one name, and the answer it gets. */
  function Example(strategy: Strategy): Query {
    Query("t", Message(0, 0, [Question("a", TYPE_A, 1)], [], [], []), Options(strategy, false, Some(60), None, None), None, 0, 0,
          Upstream.Answered(Message(0, RCODE_SUCCESS, [Question("a", TYPE_A, 1)], [Data(1, 7)], [], [])), None, false, false)
  }

  const GLOBAL := Settings(false, false, false, None, None)

  /** The disagreement in a run: one query stores an address, and a lookup for IPv6 only still finds it. */
  lemma LookupFindsARejectedType()
    ensures var entries := Ask(GLOBAL, map[], Example(AsIs)).0;
      && Lookup(GLOBAL, entries, Example(IPv6Only)).1 == Addresses([Data(60, 7)])
      && FromResult(Ask(GLOBAL, entries, Example(IPv6Only)).1) == Addresses([])
  {
    var q := Example(AsIs);
    var key := ByQuestion(Question("a", TYPE_A, 1));
    var stored := Stored(q.upstream.response, Some(60), q.message);
    assert stored.Records() == [Data(60, 7)];
    assert Ask(GLOBAL, map[], q).0 == map[key := Entry(stored, 60 * SECOND)];
    MinPositiveIsSmallest(stored.Records());
    var aged := Aged(stored, SecondsLeft(60 * SECOND, 0));
    assert aged.answer == [Data(60, 7)];
  }

  // ---------------------------------------------------------------- the global cache and client subnets

  predicate CarriesOption(extra: seq<Record>) {
    exists i :: 0 <= i < |extra| && extra[i].Opt? && extra[i].options != []
  }

  /** Attaching a subnet leaves an OPT record with an option behind. */
  lemma SetCarriesOption(m: Message, p: Prefix)
    ensures CarriesOption(Set(m, p).extra)
  {
    match FindTarget(m.extra)
    case ExistingOption(i, j) => assert Set(m, p).extra[i].options != [];
    case LastRecord => assert Set(m, p).extra[|m.extra| - 1].options != [];
    case NewRecord => assert Set(m, p).extra[|m.extra|].options != [];
  }

  /** Without the independent cache a query sent with a client subnet neither reads nor writes the cache. */
  lemma GlobalCacheIgnoresSubnets(c: Config, entries: Entries, q: Query)
    requires q.Valid() && !c.independentCache
    requires Resolved(c, q).Some? || CarriesOption(q.message.extra)
    ensures Ask(c, entries, q).0 == entries && !Ask(c, entries, q).1.Cached?
  {
    if Resolved(c, q).Some? {
      SetCarriesOption(q.message, Resolved(c, q).value);
    }
    assert CarriesOption(Sent(c, q).extra);
    assert !Simple(c, Sent(c, q));
  }

  // ---------------------------------------------------------------- every entry has a history

  /**
   * The things that may happen to the cache. A call that misses looks and concludes at two moments, between which
   * other calls may do anything; a lookup's own look is one more `Looked`.
   */
  datatype Operation = Looked(q: Query) | Concluded(q: Query) | Evicted(key: Key) | Purged

  ghost predicate Possible(op: Operation) {
    op.Looked? || op.Concluded? ==> op.q.Valid() && op.q.message.question != []
  }

  function Step(c: Config, entries: Entries, op: Operation): Entries
    requires Possible(op)
  {
    match op
    case Looked(q) => if UsesCache(c, q) then AfterLoad(c, entries, QueryKey(c, q), q.now) else entries
    case Concluded(q) => AskUpstream(c, entries, q).0
    case Evicted(key) => entries - {key}
    case Purged => map[]
  }

  function Run(c: Config, ops: seq<Operation>): Entries
    requires forall i :: 0 <= i < |ops| ==> Possible(ops[i])
  {
    if ops == [] then map[] else Step(c, Run(c, ops[..|ops| - 1]), ops[|ops| - 1])
  }

  /**
   * A call that nobody interrupts is one look, and a conclusion unless the look was a hit. One whose type the
   * strategy rejects does not come to the cache; a lookup does so all the same, and looks.
   */
  lemma CallsAreRuns(c: Config, entries: Entries, q: Query)
    requires Possible(Looked(q))
    ensures var looked := Step(c, entries, Looked(q));
      var rejects := StrategyRejects(q.message.question[0], q.options.strategy);
      && Ask(c, entries, q).0 == (if rejects || Ask(c, entries, q).1.Cached? then entries else Step(c, looked, Concluded(q)))
      && (IsLookup(q) ==> Lookup(c, entries, q).0 == if rejects then looked else Ask(c, entries, q).0)
  {
    if IsLookup(q) {
      KeysAgree(c, q);
      LookupAgreesWithExchange(c, entries, q);
    }
  }

  /** Query `f` was answered by its transport, and the answer was not turned away; it justifies this entry. */
  predicate Supports(c: Config, f: Query, key: Key, e: Entry) {
    && f.Valid() && f.message.question != [] && UsesCache(c, f) && key == QueryKey(c, f)
    && Response(c, f).Some?
    && var response := Response(c, f).value;
      && CacheableRcode(response.rcode) && !TurnsAway(f, response)
      && TimeToLive(response, f.options.rewriteTTL) > 0
      && e.message == Stored(response, f.options.rewriteTTL, Sent(c, f))
      && e.expireAt == f.later + TimeToLive(response, f.options.rewriteTTL) * SECOND
  }

  predicate SupportedBy(c: Config, ops: seq<Operation>, i: nat, key: Key, e: Entry)
    requires i < |ops|
  {
    ops[i].Concluded? && Supports(c, ops[i].q, key, e)
  }

  ghost predicate Backed(c: Config, entries: Entries, ops: seq<Operation>) {
    forall key :: key in entries ==> exists i :: 0 <= i < |ops| && SupportedBy(c, ops, i, key, entries[key])
  }

  lemma StepChangesOneKey(c: Config, entries: Entries, op: Operation, key: Key)
    requires Possible(op) && key in Step(c, entries, op)
    ensures (key in entries && Step(c, entries, op)[key] == entries[key]) ||
            (op.Concluded? && Supports(c, op.q, key, Step(c, entries, op)[key]))
  {
  }

  lemma StaysBacked(c: Config, before: Entries, ops: seq<Operation>, key: Key, e: Entry)
    requires ops != [] && Backed(c, before, ops[..|ops| - 1])
    requires (key in before && e == before[key]) || SupportedBy(c, ops, |ops| - 1, key, e)
    ensures exists i :: 0 <= i < |ops| && SupportedBy(c, ops, i, key, e)
  {
    var n := |ops| - 1;
    if !SupportedBy(c, ops, n, key, e) {
      var i :| 0 <= i < n && SupportedBy(c, ops[..n], i, key, e);
      assert SupportedBy(c, ops, i, key, e);
    }
  }

  lemma {:induction false} RunIsBacked(c: Config, ops: seq<Operation>)
    requires forall i :: 0 <= i < |ops| ==> Possible(ops[i])
    ensures Backed(c, Run(c, ops), ops)
  {
    if ops != [] {
      var n := |ops| - 1;
      var before, after := Run(c, ops[..n]), Run(c, ops);
      RunIsBacked(c, ops[..n]);
      forall key | key in after ensures exists i :: 0 <= i < |ops| && SupportedBy(c, ops, i, key, after[key]) {
        StepChangesOneKey(c, before, ops[n], key);
        StaysBacked(c, before, ops, key, after[key]);
      }
    }
  }

  /**
   * Over any interleaving of calls, evictions and purges, a hit serves an earlier answer to the same question.
   * With the independent cache it came from the same transport, which had been sent the same masked subnet; with
   * the global cache neither message carried an EDNS option. Nothing is served after the time its TTL gives it.
   */
  lemma HitsAreIsolated(c: Config, ops: seq<Operation>, q: Query)
    requires (forall i :: 0 <= i < |ops| ==> Possible(ops[i])) && q.Valid()
    requires Ask(c, Run(c, ops), q).1.Cached?
    ensures exists i :: 0 <= i < |ops| && ops[i].Concluded? && ServedFrom(c, ops[i].q, q, Ask(c, Run(c, ops), q).1.message)
  {
    var entries := Run(c, ops);
    RunIsBacked(c, ops);
    CachedMeansLoaded(c, entries, q);
    var key := QueryKey(c, q);
    var i :| 0 <= i < |ops| && SupportedBy(c, ops, i, key, entries[key]);
    HitServes(c, entries, ops[i].q, q);
  }

  /** The same holds of what a lookup finds when it looks into the cache by itself. */
  lemma LookupHitsAreIsolated(c: Config, ops: seq<Operation>, q: Query)
    requires (forall i :: 0 <= i < |ops| ==> Possible(ops[i])) && q.Valid() && IsLookup(q)
    requires LookupUsesCache(c, q) && Load(c, Run(c, ops), LookupKey(c, q), q.now).Some?
    ensures var hit := Load(c, Run(c, ops), LookupKey(c, q), q.now).value.(id := q.message.id);
      exists i :: 0 <= i < |ops| && ops[i].Concluded? && ServedFrom(c, ops[i].q, q, hit)
  {
    var entries := Run(c, ops);
    RunIsBacked(c, ops);
    KeysAgree(c, q);
    var key := QueryKey(c, q);
    var i :| 0 <= i < |ops| && SupportedBy(c, ops, i, key, entries[key]);
    HitServes(c, entries, ops[i].q, q);
  }

  lemma CachedMeansLoaded(c: Config, entries: Entries, q: Query)
    requires q.Valid() && Ask(c, entries, q).1.Cached?
    ensures q.message.question != [] && UsesCache(c, q)
    ensures Load(c, entries, QueryKey(c, q), q.now).Some?
    ensures Ask(c, entries, q).1.message == Load(c, entries, QueryKey(c, q), q.now).value.(id := q.message.id)
  {
  }

  lemma HitServes(c: Config, entries: Entries, f: Query, q: Query)
    requires q.Valid() && q.message.question != [] && UsesCache(c, q)
    requires Load(c, entries, QueryKey(c, q), q.now).Some?
    requires Supports(c, f, QueryKey(c, q), entries[QueryKey(c, q)])
    ensures ServedFrom(c, f, q, Load(c, entries, QueryKey(c, q), q.now).value.(id := q.message.id))
  {
    SameKey(c, f, q);
  }

  /** What two queries have in common that use the cache under one key. */
  lemma SameKey(c: Config, f: Query, q: Query)
    requires f.Valid() && f.message.question != [] && UsesCache(c, f)
    requires q.Valid() && q.message.question != [] && UsesCache(c, q)
    requires QueryKey(c, f) == QueryKey(c, q)
    ensures f.message.question == q.message.question
    ensures c.independentCache ==> f.tag == q.tag && Extract(Sent(c, f)) == Extract(Sent(c, q))
    ensures !c.independentCache ==> !CarriesOption(Sent(c, f).extra) && !CarriesOption(Sent(c, q).extra)
  {
    SimpleQuestion(c, f);
    SimpleQuestion(c, q);
  }

  lemma SimpleQuestion(c: Config, q: Query)
    requires q.Valid() && q.message.question != [] && Simple(c, Sent(c, q))
    ensures q.message.question == [q.message.question[0]]
    ensures !c.independentCache ==> !CarriesOption(Sent(c, q).extra)
  {
    assert Sent(c, q).question == q.message.question;
  }

  predicate ServedFrom(c: Config, f: Query, q: Query, m: Message) {
    && f.Valid() && q.Valid()
    && f.message.question == q.message.question
    && (c.independentCache ==> f.tag == q.tag && Extract(Sent(c, f)) == Extract(Sent(c, q)))
    && (!c.independentCache ==> !CarriesOption(Sent(c, f).extra) && !CarriesOption(Sent(c, q).extra))
    && Response(c, f).Some? && !TurnsAway(f, Response(c, f).value)
    && var response, ttl := Response(c, f).value, TimeToLive(Response(c, f).value, f.options.rewriteTTL);
      var stored := Stored(response, f.options.rewriteTTL, Sent(c, f));
      && ttl > 0
      && if c.disableExpire then m == stored.(id := q.message.id)
         else q.now <= f.later + ttl * SECOND && m == Aged(stored, SecondsLeft(f.later + ttl * SECOND, q.now)).(id := q.message.id)
  }

  /** When an operation reads the clock. */
  function ClockOf(op: Operation): Option<nat> {
    match op
    case Looked(q) => Some(q.now)
    case Concluded(q) => Some(q.later)
    case _ => None
  }

  /** The clock does not run backwards over a run, and shows `end` at its end. */
  predicate Clocked(ops: seq<Operation>, end: nat) {
    && (forall i, j :: 0 <= i < j < |ops| && ClockOf(ops[i]).Some? && ClockOf(ops[j]).Some? ==> ClockOf(ops[i]).value <= ClockOf(ops[j]).value)
    && (forall i :: 0 <= i < |ops| && ClockOf(ops[i]).Some? ==> ClockOf(ops[i]).value <= end)
  }

  /**
   * Over any run of a clock that does not run backwards, each data record of a hit says the whole seconds that the
   * earlier answer has left, exactly unless flags were stored with it.
   */
  lemma HitTellsRemaining(c: Config, ops: seq<Operation>, q: Query, r: nat)
    requires (forall i :: 0 <= i < |ops| ==> Possible(ops[i])) && q.Valid() && Clocked(ops, q.now) && !c.disableExpire
    requires var hit := Ask(c, Run(c, ops), q).1; hit.Cached? && r < |hit.message.Records()| && !hit.message.Records()[r].Opt?
    ensures var hit := Ask(c, Run(c, ops), q).1.message;
      exists i :: 0 <= i < |ops| && ops[i].Concluded? && ServedFrom(c, ops[i].q, q, hit) && SaysTimeLeft(c, ops[i].q, q, hit, r)
  {
    var hit := Ask(c, Run(c, ops), q).1.message;
    HitsAreIsolated(c, ops, q);
    var i :| 0 <= i < |ops| && ops[i].Concluded? && ServedFrom(c, ops[i].q, q, hit);
    assert ClockOf(ops[i]) == Some(ops[i].q.later);
    ServedTellsRemaining(c, ops[i].q, q, hit, r);
  }

  /** The record says the time the answer to `f` has left, unless flags were stored with that answer. */
  predicate SaysTimeLeft(c: Config, f: Query, q: Query, m: Message, r: nat)
    requires ServedFrom(c, f, q, m) && !c.disableExpire && r < |m.Records()|
  {
    var ttl := TimeToLive(Response(c, f).value, f.options.rewriteTTL);
    m.Records()[r].ttl == SecondsLeft(f.later + ttl * SECOND, q.now) <==>
      !FlagsInStore(Response(c, f).value, f.options.rewriteTTL, Sent(c, f))
  }

  lemma ServedTellsRemaining(c: Config, f: Query, q: Query, m: Message, i: nat)
    requires ServedFrom(c, f, q, m) && !c.disableExpire && f.later <= q.now
    requires i < |m.Records()| && !m.Records()[i].Opt?
    ensures SaysTimeLeft(c, f, q, m, i)
  {
    var response, rewrite, sent := Response(c, f).value, f.options.rewriteTTL, Sent(c, f);
    var stored, expireAt := Stored(response, rewrite, sent), f.later + TimeToLive(response, rewrite) * SECOND;
    SameData(Aged(stored, SecondsLeft(expireAt, q.now)), q.message.id);
    AgedTellsRemaining(response, rewrite, sent, expireAt, q.now, i);
  }

  lemma SameData(m: Message, id: nat)
    ensures m.(id := id).Records() == m.Records()
  {
  }

  lemma AgedTellsRemaining(response: Message, rewrite: Option<uint32>, request: Message, expireAt: nat, now: nat, i: nat)
    requires 0 < TimeToLive(response, rewrite)
    requires now <= expireAt && expireAt - now <= TimeToLive(response, rewrite) * SECOND
    requires var loaded := Aged(Stored(response, rewrite, request), SecondsLeft(expireAt, now)).Records();
      i < |loaded| && !loaded[i].Opt?
    ensures Aged(Stored(response, rewrite, request), SecondsLeft(expireAt, now)).Records()[i].ttl == SecondsLeft(expireAt, now) <==>
      !FlagsInStore(response, rewrite, request)
  {
    var remaining := SecondsLeft(expireAt, now);
    SecondsLeftAtTwoTimes(expireAt, now, now, TimeToLive(response, rewrite));
    AgedRecords(Stored(response, rewrite, request), remaining);
    LoadTellsRemaining(response, rewrite, request, remaining, i);
  }
}
