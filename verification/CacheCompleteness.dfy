/**
 * What the caching client must do, beside what it must not (dns/client.go): which queries use the cache, which answers
 * are stored, and that a stored answer is served until it expires.
 */
module CacheCompleteness {
  import opened Optional
  import opened DnsMessage
  import opened ClientSubnet
  import opened CacheTtl
  import opened DnsCache
  import opened DnsCacheLaws

  // ---------------------------------------------------------------- which queries use the cache

  predicate CacheIsOn(c: Config, q: Query) {
    !c.disableCache && !q.options.disableCache
  }

  /** A lookup uses the cache if it is on, and needs the independent cache if it attaches a subnet. */
  lemma LookupsUseTheCache(c: Config, q: Query)
    requires q.Valid() && IsLookup(q)
    ensures UsesCache(c, q) <==> CacheIsOn(c, q) && (Resolved(c, q) == None || c.independentCache)
  {
    KeysAgree(c, q);
  }

  /** The one option of an OPT record is a client subnet that can be read. */
  predicate IsReadableSubnet(o: EdnsOption) {
    o.Subnet? && ((o.family == 1 && o.netmask <= 32) || (o.family == 2 && o.netmask <= 128))
  }

  /** A question that came with one OPT record, and gets no subnet attached. */
  lemma OneOptUsesTheCache(c: Config, q: Query, opt: Record)
    requires q.Valid() && Resolved(c, q) == None && opt.Opt?
    requires |q.message.question| == 1 && q.message.ns == [] && q.message.extra == [opt]
    ensures UsesCache(c, q) <==>
      && CacheIsOn(c, q) && opt.ttl == 0
      && (opt.options == [] || (c.independentCache && |opt.options| == 1 && IsReadableSubnet(opt.options[0])))
  {
    if |opt.options| == 1 && opt.options[0].Subnet? {
      assert FirstSubnet(opt.options) == 0;
    }
  }

  /** Other messages do not use the cache. */
  lemma OthersDoNot(c: Config, q: Query)
    requires q.Valid()
    requires |q.message.question| != 1 || q.message.ns != [] || |q.message.extra| > 1 || (exists r :: r in q.message.extra && !r.Opt?)
    ensures !UsesCache(c, q)
  {
    var subnet := Resolved(c, q);
    if subnet.Some? {
      SetLeavesTheRest(q.message, subnet.value);
    }
    if r :| r in q.message.extra && !r.Opt? {
      var k :| 0 <= k < |q.message.extra| && q.message.extra[k] == r;
      assert Strip(Sent(c, q).extra[k]) == Strip(r) == r;
      assert !Sent(c, q).extra[k].Opt?;
    }
  }

  // ---------------------------------------------------------------- which answers are stored

  /** The transport's answer goes into the cache. */
  predicate Stores(c: Config, f: Query)
    requires f.Valid() && f.message.question != []
  {
    && UsesCache(c, f) && !f.loopback && (f.accepts == None || !f.knownRejected)
    && Response(c, f).Some?
    && var response := Response(c, f).value;
      && (response.rcode == 0 || response.rcode == 3)
      && IsAccepted(f, response)
      && TimeToLive(response, f.options.rewriteTTL) > 0
  }

  function ExpiryOf(c: Config, f: Query): nat
    requires f.Valid() && Response(c, f).Some?
  {
    f.later + TimeToLive(Response(c, f).value, f.options.rewriteTTL) * 1_000_000_000
  }

  /** Those answers are stored, until their time, and no others: not a SERVFAIL, nor one that was turned away. */
  lemma ExactlyThoseAreStored(c: Config, entries: Entries, f: Query)
    requires f.Valid() && f.message.question != []
    ensures Step(c, entries, Concluded(f)) ==
      if Stores(c, f)
      then entries[QueryKey(c, f) := Entry(Stored(Response(c, f).value, f.options.rewriteTTL, Sent(c, f)), ExpiryOf(c, f))]
      else entries
  {
  }

  // ---------------------------------------------------------------- a stored answer is served

  /** The operation may remove or replace an entry of this key that expires then. */
  ghost predicate Disturbs(c: Config, key: Key, expireAt: nat, op: Operation)
    requires Possible(op)
  {
    match op
    case Looked(q) => UsesCache(c, q) && QueryKey(c, q) == key && !c.disableExpire && expireAt < q.now
    case Concluded(q) => UsesCache(c, q) && QueryKey(c, q) == key
    case Evicted(k) => k == key
    case Purged => true
  }

  lemma EntryStays(c: Config, entries: Entries, op: Operation, key: Key)
    requires Possible(op) && key in entries && !Disturbs(c, key, entries[key].expireAt, op)
    ensures key in Step(c, entries, op) && Step(c, entries, op)[key] == entries[key]
  {
    if op.Concluded? {
      ExactlyThoseAreStored(c, entries, op.q);
    }
  }

  ghost predicate Undisturbed(c: Config, ops: seq<Operation>, i: nat, key: Key, expireAt: nat)
    requires forall j :: 0 <= j < |ops| ==> Possible(ops[j])
  {
    forall j :: i < j < |ops| ==> !Disturbs(c, key, expireAt, ops[j])
  }

  lemma {:induction false} StoredEntryStays(c: Config, ops: seq<Operation>, i: nat)
    requires forall j :: 0 <= j < |ops| ==> Possible(ops[j])
    requires i < |ops| && Possible(ops[i]) && ops[i].Concluded? && Stores(c, ops[i].q)
    requires Undisturbed(c, ops, i, QueryKey(c, ops[i].q), ExpiryOf(c, ops[i].q))
    ensures var f, key := ops[i].q, QueryKey(c, ops[i].q);
      key in Run(c, ops) && Run(c, ops)[key] == Entry(Stored(Response(c, f).value, f.options.rewriteTTL, Sent(c, f)), ExpiryOf(c, f))
  {
    var n := |ops| - 1;
    var before := Run(c, ops[..n]);
    if i == n {
      ExactlyThoseAreStored(c, before, ops[n].q);
    } else {
      assert ops[..n][i] == ops[i];
      StoredEntryStays(c, ops[..n], i);
      EntryStays(c, before, ops[n], QueryKey(c, ops[i].q));
    }
  }

  /** The query's type is one that its strategy rules out. */
  predicate IsRuledOut(q: Query)
    requires q.message.question != []
  {
    var t, s := q.message.question[0].qtype, q.options.strategy;
    (t == 1 && s == IPv6Only) || (t == 28 && s == IPv4Only)
  }

  lemma KeyIsLoaded(c: Config, entries: Entries, q: Query)
    requires q.Valid() && q.message.question != [] && UsesCache(c, q) && !IsRuledOut(q) && QueryKey(c, q) in entries
    ensures var e := entries[QueryKey(c, q)];
      Ask(c, entries, q).1.Cached? <==> c.disableExpire || q.now <= e.expireAt
  {
  }

  /**
   * A stored answer is served: over any run in which nothing evicts, purges or replaces it, and nobody looks for it
   * after its time, every query with its key gets it from the cache if and only if it has not expired, or entries do
   * not expire.
   */
  lemma StoredAnswersAreServed(c: Config, ops: seq<Operation>, i: nat, q: Query)
    requires forall j :: 0 <= j < |ops| ==> Possible(ops[j])
    requires i < |ops| && Possible(ops[i]) && ops[i].Concluded? && Stores(c, ops[i].q)
    requires Undisturbed(c, ops, i, QueryKey(c, ops[i].q), ExpiryOf(c, ops[i].q))
    requires q.Valid() && q.message.question != [] && UsesCache(c, q) && QueryKey(c, q) == QueryKey(c, ops[i].q) && !IsRuledOut(q)
    ensures Ask(c, Run(c, ops), q).1.Cached? <==> c.disableExpire || q.now <= ExpiryOf(c, ops[i].q)
    ensures Ask(c, Run(c, ops), q).1.Cached? ==> ServedFrom(c, ops[i].q, q, Ask(c, Run(c, ops), q).1.message)
  {
    var f, entries := ops[i].q, Run(c, ops);
    StoredEntryStays(c, ops, i);
    KeyIsLoaded(c, entries, q);
    if Ask(c, entries, q).1.Cached? {
      CachedMeansLoaded(c, entries, q);
      StoredSupports(c, f, entries[QueryKey(c, q)]);
      HitServes(c, entries, f, q);
    }
  }

  lemma StoredSupports(c: Config, f: Query, e: Entry)
    requires f.Valid() && f.message.question != [] && Stores(c, f)
    requires e == Entry(Stored(Response(c, f).value, f.options.rewriteTTL, Sent(c, f)), ExpiryOf(c, f))
    ensures Supports(c, f, QueryKey(c, f), e)
  {
  }

  /** Where entries do not expire a hit has the TTLs that were stored. */
  lemma UnexpiringHitsKeepTTLs(c: Config, ops: seq<Operation>, i: nat, q: Query)
    requires forall j :: 0 <= j < |ops| ==> Possible(ops[j])
    requires i < |ops| && Possible(ops[i]) && ops[i].Concluded? && Stores(c, ops[i].q)
    requires Undisturbed(c, ops, i, QueryKey(c, ops[i].q), ExpiryOf(c, ops[i].q))
    requires q.Valid() && q.message.question != [] && UsesCache(c, q) && QueryKey(c, q) == QueryKey(c, ops[i].q) && !IsRuledOut(q)
    requires c.disableExpire
    ensures var f := ops[i].q;
      Ask(c, Run(c, ops), q) ==
        (Run(c, ops), Cached(Stored(Response(c, f).value, f.options.rewriteTTL, Sent(c, f)).(id := q.message.id)))
  {
    StoredEntryStays(c, ops, i);
  }

  /** In numbers: an answer with a TTL of 60 seconds that is stored at 10 seconds is served at 11 for another 59. */
  lemma FreshEntryIsServed(key: Key)
    ensures var m := Message(0, 0, [], [Data(60, 7)], [], []);
      var hit := Load(GLOBAL, AfterStore(map[], key, m, 60, 10_000_000_000), key, 11_000_000_000);
      hit.Some? && hit.value.answer == [Data(59, 7)]
  {
    var m := Message(0, 0, [], [Data(60, 7)], [], []);
    assert m.Records() == [Data(60, 7)];
    MinPositiveIsSmallest(m.Records());
    assert SecondsLeft(70_000_000_000, 11_000_000_000) == 59;
    assert Aged(m, 59).answer[0] == Data(59, 7);
  }

  // ---------------------------------------------------------------- queries that do not get that far

  /** A query for a type that its strategy rules out gets no address, from neither the cache nor the transport. */
  lemma RuledOutTypesGetNothing(c: Config, entries: Entries, q: Query)
    requires q.Valid() && q.message.question != []
    ensures IsRuledOut(q) ==> Ask(c, entries, q) == (entries, Fixed(Message(q.message.id, 0, q.message.question, [], [], [])))
    ensures !IsRuledOut(q) ==> !Ask(c, entries, q).1.Fixed?
  {
  }

  /** A message without a question is answered by a format error. */
  lemma NoQuestionIsAnError(c: Config, entries: Entries, q: Query)
    requires q.Valid() && q.message.question == []
    ensures Ask(c, entries, q) == (entries, Fixed(Message(q.message.id, 1, [], [], [], [])))
  {
  }

  /** The query has no checker, or its checker takes the response, which then has an answer. */
  predicate IsAccepted(q: Query, response: Message) {
    q.accepts.Some? ==> response.rcode == 0 && response.answer != [] && q.accepts.value(response)
  }

  /** What a query gets that is not served from the cache, in the order in which the exchange finds out. */
  lemma MissedQueriesGet(c: Config, entries: Entries, q: Query)
    requires q.Valid() && q.message.question != [] && !IsRuledOut(q) && !Ask(c, entries, q).1.Cached?
    ensures var r := Ask(c, entries, q).1;
      && (r.Loopback? <==> q.loopback)
      && (r.RejectedFromCache? <==> !q.loopback && UsesCache(c, q) && q.accepts.Some? && q.knownRejected)
      && (r.Failed? ==> q.upstream == UpstreamFailed(r.error))
      && (r.Failed? <==> !r.Loopback? && !r.RejectedFromCache? && q.upstream.UpstreamFailed?)
      && (r.Rejected? ==> Response(c, q) == Some(r.response) && !IsAccepted(q, r.response))
      && (r.Fresh? ==>
            && Response(c, q).Some? && IsAccepted(q, Response(c, q).value)
            && r.message == Stored(Response(c, q).value, q.options.rewriteTTL, Sent(c, q)))
      && (q.upstream.Answered? ==> Response(c, q) == Some(q.upstream.response))
      && (q.upstream.RcodeReply? ==> Response(c, q) == Some(Message(q.message.id, q.upstream.rcode, q.message.question, [], [], [])))
  {
  }

  /** What a lookup makes of the message it gets: its answers, or its rcode if that is not NOERROR. */
  lemma LookupsReport(c: Config, entries: Entries, q: Query)
    requires q.Valid() && IsLookup(q) && !IsRuledOut(q)
    ensures var r, found := Ask(c, entries, q).1, Lookup(c, entries, q).1;
      match r
      case Cached(m) => if m.rcode == 0 then found == Addresses(m.answer) else found == LookupRcode(m.rcode)
      case Fresh(m) => if m.rcode == 0 then found == Addresses(m.answer) else found == LookupRcode(m.rcode)
      case _ => found == LookupFailed(r)
  {
    LookupAgreesWithExchange(c, entries, q);
    RuledOutTypesGetNothing(c, entries, q);
  }
}
