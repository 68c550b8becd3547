/**
 * The cache against the exchange it speeds up (dns/client.go): what a hit says is what the transport would say
 * again, apart from TTLs and OPT records, unless the exchange would have turned the query away.
 */
module CacheAgreement {
  import opened Optional
  import opened DnsMessage
  import opened CacheTtl
  import opened DnsCache
  import opened DnsCacheLaws

  /** A message without its TTLs and OPT records. */
  function Content(m: Message): Message {
    m.(answer := WithTTLs(m.answer, 0), ns := WithTTLs(m.ns, 0), extra := WithTTLs(WithoutOpts(m.extra), 0))
  }

  predicate SameButTTLs(a: seq<Record>, b: seq<Record>) {
    |a| == |b| && forall i :: 0 <= i < |a| ==> a[i].(ttl := 0) == b[i].(ttl := 0)
  }

  lemma {:induction false} ContentIgnoresTTLs(a: seq<Record>, b: seq<Record>)
    requires SameButTTLs(a, b)
    ensures WithTTLs(a, 0) == WithTTLs(b, 0)
    ensures WithTTLs(WithoutOpts(a), 0) == WithTTLs(WithoutOpts(b), 0)
  {
    if a != [] {
      var n := |a| - 1;
      ContentIgnoresTTLs(a[..n], b[..n]);
      assert a[n].(ttl := 0) == b[n].(ttl := 0);
      LastStays(WithoutOpts(a[..n]), a[n]);
      LastStays(WithoutOpts(b[..n]), b[n]);
    }
  }

  lemma LastStays(records: seq<Record>, r: Record)
    ensures WithTTLs(records + [r], 0) == WithTTLs(records, 0) + [r.(ttl := 0)]
  {
  }

  lemma {:induction false} WithoutOptsOfOthers(records: seq<Record>)
    requires forall i :: 0 <= i < |records| ==> !records[i].Opt?
    ensures WithoutOpts(records) == records
  {
    if records != [] {
      var n := |records| - 1;
      WithoutOptsOfOthers(records[..n]);
      assert records == records[..n] + [records[n]];
    }
  }

  /** Whatever is done to the OPT records, the others stay. */
  lemma AdjustmentKeepsOthers(extra: seq<Record>, requestOpt: Option<Record>)
    ensures WithoutOpts(AdjustedExtra(extra, requestOpt)) == WithoutOpts(extra)
  {
    var others, adjusted := WithoutOpts(extra), AdjustedExtra(extra, requestOpt);
    WithoutOptsOfOthers(others);
    if adjusted != extra && adjusted != others {
      assert adjusted[..|adjusted| - 1] == others;
    }
  }

  lemma StoredContent(response: Message, rewrite: Option<uint32>, request: Message)
    ensures Content(Stored(response, rewrite, request)) == Content(response).(id := request.id)
  {
    var n := Normalised(response, TimeToLive(response, rewrite));
    ContentIgnoresTTLs(n.answer, response.answer);
    ContentIgnoresTTLs(n.ns, response.ns);
    ContentIgnoresTTLs(n.extra, response.extra);
    AdjustmentKeepsOthers(n.extra, LastOpt(request.extra));
  }

  lemma AgedContent(m: Message, remaining: nat)
    ensures Content(Aged(m, remaining)) == Content(m)
  {
    var aged := Aged(m, remaining);
    ContentIgnoresTTLs(aged.answer, m.answer);
    ContentIgnoresTTLs(aged.ns, m.ns);
    ContentIgnoresTTLs(aged.extra, m.extra);
  }

  lemma ContentUnderId(m: Message, id: nat)
    ensures Content(m.(id := id)) == Content(m).(id := id)
  {
  }

  /** A hit has the content of the answer it serves, under the id of its own query. */
  lemma HitContent(c: Config, f: Query, q: Query, m: Message)
    requires ServedFrom(c, f, q, m)
    ensures Content(m) == Content(Response(c, f).value).(id := q.message.id)
  {
    var response, rewrite := Response(c, f).value, f.options.rewriteTTL;
    var stored := Stored(response, rewrite, Sent(c, f));
    StoredContent(response, rewrite, Sent(c, f));
    var loaded := if c.disableExpire then stored else Aged(stored, SecondsLeft(f.later + TimeToLive(response, rewrite) * SECOND, q.now));
    assert m == loaded.(id := q.message.id);
    ContentUnderId(loaded, q.message.id);
    if !c.disableExpire {
      AgedContent(stored, SecondsLeft(f.later + TimeToLive(response, rewrite) * SECOND, q.now));
    }
  }

  /** What the exchange returns when it does not look into the cache. */
  function Direct(c: Config, q: Query): Result
    requires q.Valid() && q.message.question != []
  {
    AskUpstream(c, map[], q).1
  }

  /** The exchange of a query that uses the cache would not get as far as to return the transport's answer. */
  predicate WouldBeTurnedAway(c: Config, q: Query)
    requires q.Valid() && Response(c, q).Some?
  {
    q.loopback || (q.accepts.Some? && q.knownRejected) || TurnsAway(q, Response(c, q).value)
  }

  /** Two queries for one question that the transport answers alike get responses of one content. */
  lemma ResponsesAlike(c: Config, f: Query, q: Query)
    requires f.Valid() && q.Valid() && f.message.question == q.message.question && f.upstream == q.upstream
    requires Response(c, f).Some?
    ensures Response(c, q).Some?
    ensures Content(Response(c, q).value).(id := 0) == Content(Response(c, f).value).(id := 0)
  {
  }

  /**
   * A hit agrees with the exchange it replaces, for a transport that answers both queries alike, exactly when that
   * exchange would not have been turned away: a hit consults neither the loopback test nor the store of rejections
   * nor its query's own checker.
   */
  lemma HitAgreesWithDirect(c: Config, f: Query, q: Query, m: Message)
    requires ServedFrom(c, f, q, m) && q.message.question != [] && UsesCache(c, q)
    requires f.upstream == q.upstream
    ensures Response(c, q).Some?
    ensures Direct(c, q).Fresh? && Content(Direct(c, q).message) == Content(m) <==> !WouldBeTurnedAway(c, q)
  {
    HitContent(c, f, q, m);
    ResponsesAlike(c, f, q);
    var response := Response(c, q).value;
    StoredContent(response, q.options.rewriteTTL, Sent(c, q));
    assert Sent(c, q).id == q.message.id;
  }

  /** What holds of every hit of a run. */
  lemma HitsAgree(c: Config, ops: seq<Operation>, q: Query)
    requires (forall i :: 0 <= i < |ops| ==> Possible(ops[i])) && q.Valid()
    requires Ask(c, Run(c, ops), q).1.Cached?
    ensures q.message.question != []
    ensures var m := Ask(c, Run(c, ops), q).1.message;
      exists i :: 0 <= i < |ops| && ops[i].Concluded? && ServedFrom(c, ops[i].q, q, m) &&
        (ops[i].q.upstream == q.upstream ==>
           Response(c, q).Some? && (Direct(c, q).Fresh? && Content(Direct(c, q).message) == Content(m) <==> !WouldBeTurnedAway(c, q)))
  {
    var m := Ask(c, Run(c, ops), q).1.message;
    CachedMeansLoaded(c, Run(c, ops), q);
    HitsAreIsolated(c, ops, q);
    var i :| 0 <= i < |ops| && ops[i].Concluded? && ServedFrom(c, ops[i].q, q, m);
    if ops[i].q.upstream == q.upstream {
      HitAgreesWithDirect(c, ops[i].q, q, m);
    }
  }

  /** A query whose checker turns everything away, and that is served from the cache all the same. */
  lemma HitSkipsItsChecker()
    ensures var entries := Ask(GLOBAL, map[], Example(AsIs)).0;
      var picky := Example(AsIs).(accepts := Some((m: Message) => false));
      Ask(GLOBAL, entries, picky).1.Cached? && Direct(GLOBAL, picky).Rejected?
  {
    var q := Example(AsIs);
    var stored := Stored(q.upstream.response, Some(60), q.message);
    assert Ask(GLOBAL, map[], q).0 == map[ByQuestion(Question("a", TYPE_A, 1)) := Entry(stored, 60 * SECOND)];
  }
}
