/**
 * The caching client (dns/client.go): `Exchange`, `lookupToExchange`, `storeCache`, `loadResponse`.
 *
 * The transport's reply, the response checker and the rejection store are inputs of a query. The cache
 * is a map from the key the client's configuration selects; the two shapes of the source differ in the key only.
 */
module DnsCache {
  import opened Optional
  import opened DnsMessage
  import opened ClientSubnet
  import opened CacheTtl

  datatype Settings = Settings(
    disableCache: bool,
    disableExpire: bool,
    independentCache: bool,
    clientSubnet: Option<Prefix>,
    fromInbound: Option<InboundSubnet>)

  /** A configured subnet is a valid prefix. */
  type Config = c: Settings | c.clientSubnet.Some? ==> c.clientSubnet.value.Valid()
    witness Settings(false, false, false, None, None)

  datatype Key = ByQuestion(question: Question) | ByTransport(question: Question, tag: string, subnet: Option<Prefix>)

  datatype Entry = Entry(message: Message, expireAt: nat)

  type Entries = map<Key, Entry>

  datatype Upstream = Answered(response: Message) | RcodeReply(rcode: nat) | UpstreamFailed(error: nat)

  /** One call of Exchange, with everything the outside world contributes to it. */
  datatype Query = Query(
    tag: string,
    message: Message,
    options: Options,
    source: Option<Addr>,
    now: nat,                        // when the cache is read
    later: nat,                      // when the response is stored
    upstream: Upstream,
    accepts: Option<Message -> bool>,  // the response checker
    knownRejected: bool,             // the rejection store's answer
    loopback: bool)
  {
    predicate Valid() {
      && (options.clientSubnet.Some? ==> options.clientSubnet.value.Valid())
      && (source.Some? ==> source.value.Valid())
    }
  }

  datatype Result =
    | Fixed(message: Message)
    | Cached(message: Message)
    | Fresh(message: Message)
    | RejectedFromCache
    | Rejected(response: Message)
    | Failed(error: nat)
    | Loopback

  // ---------------------------------------------------------------- the decisions of Exchange

  function FixedResponse(m: Message, rcode: nat): Message {
    Message(m.id, rcode, m.question, [], [], [])
  }

  predicate StrategyRejects(question: Question, strategy: Strategy) {
    (question.qtype == TYPE_A && strategy == IPv6Only) || (question.qtype == TYPE_AAAA && strategy == IPv4Only)
  }

  function Resolved(c: Config, q: Query): Option<Prefix>
    requires q.Valid()
  {
    Resolve(q.options, c.clientSubnet, c.fromInbound, q.source)
  }

  /** The message that goes to the transport. */
  function Sent(c: Config, q: Query): Message
    requires q.Valid()
  {
    var subnet := Resolved(c, q);
    if subnet.Some? then Set(q.message, subnet.value) else q.message
  }

  function CacheSubnet(c: Config, sent: Message): Option<Prefix> {
    if c.independentCache then Extract(sent) else None
  }

  function KeyFor(c: Config, question: Question, tag: string, subnet: Option<Prefix>): Key {
    if c.independentCache then ByTransport(question, tag, subnet) else ByQuestion(question)
  }

  /** isCacheableDNSExtra. */
  predicate CacheableExtra(r: Record, independentCache: bool, subnet: Option<Prefix>) {
    r.Opt? && r.ttl == 0 &&
    (r.options == [] || (independentCache && |r.options| == 1 && r.options[0].Subnet? && subnet.Some?))
  }

  predicate Simple(c: Config, sent: Message) {
    && |sent.question| == 1
    && sent.ns == []
    && (sent.extra == [] || (|sent.extra| == 1 && CacheableExtra(sent.extra[0], c.independentCache, CacheSubnet(c, sent))))
  }

  predicate UsesCache(c: Config, q: Query)
    requires q.Valid()
  {
    Simple(c, Sent(c, q)) && !c.disableCache && !q.options.disableCache
  }

  function QueryKey(c: Config, q: Query): Key
    requires q.Valid() && |q.message.question| > 0
  {
    KeyFor(c, q.message.question[0], q.tag, CacheSubnet(c, Sent(c, q)))
  }

  // ---------------------------------------------------------------- the cache

  predicate Expired(c: Config, e: Entry, now: nat) {
    !c.disableExpire && now > e.expireAt
  }

  /** The map after loadResponse: an expired entry is removed. */
  function AfterLoad(c: Config, entries: Entries, key: Key, now: nat): Entries {
    if key in entries && Expired(c, entries[key], now) then entries - {key} else entries
  }

  function Load(c: Config, entries: Entries, key: Key, now: nat): Option<Message> {
    if key !in entries || Expired(c, entries[key], now) then None
    else if c.disableExpire then Some(entries[key].message)
    else Some(Aged(entries[key].message, SecondsLeft(entries[key].expireAt, now)))
  }

  function AfterStore(entries: Entries, key: Key, m: Message, ttl: uint32, now: nat): Entries {
    if ttl == 0 then entries else entries[key := Entry(m, now + ttl * SECOND)]
  }

  function Response(c: Config, q: Query): Option<Message>
    requires q.Valid()
  {
    match q.upstream
    case Answered(m) => Some(m)
    case RcodeReply(rcode) => Some(FixedResponse(Sent(c, q), rcode))
    case UpstreamFailed(_) => None
  }

  predicate TurnsAway(q: Query, response: Message) {
    q.accepts.Some? && (response.rcode != RCODE_SUCCESS || response.answer == [] || !q.accepts.value(response))
  }

  predicate CacheableRcode(rcode: nat) {
    rcode == RCODE_SUCCESS || rcode == RCODE_NAME_ERROR
  }

  /** Exchange as a function of the cache: its new contents and the result. */
  function Ask(c: Config, entries: Entries, q: Query): (Entries, Result)
    requires q.Valid()
  {
    if q.message.question == [] then (entries, Fixed(FixedResponse(q.message, RCODE_FORMAT_ERROR)))
    else if StrategyRejects(q.message.question[0], q.options.strategy) then (entries, Fixed(FixedResponse(q.message, RCODE_SUCCESS)))
    else
      var key, uses := QueryKey(c, q), UsesCache(c, q);
      var hit := if uses then Load(c, entries, key, q.now) else None;
      if hit.Some? then (entries, Cached(hit.value.(id := q.message.id)))
      else AskUpstream(c, if uses then AfterLoad(c, entries, key, q.now) else entries, q)
  }

  function AskUpstream(c: Config, entries: Entries, q: Query): (Entries, Result)
    requires q.Valid() && q.message.question != []
  {
    if q.loopback then (entries, Loopback)
    else if UsesCache(c, q) && q.accepts.Some? && q.knownRejected then (entries, RejectedFromCache)
    else
      match Response(c, q)
      case None => (entries, Failed(q.upstream.error))
      case Some(response) =>
        if TurnsAway(q, response) then (entries, Rejected(response))
        else
          var stored := Stored(response, q.options.rewriteTTL, Sent(c, q));
          (if UsesCache(c, q) && CacheableRcode(response.rcode)
           then AfterStore(entries, QueryKey(c, q), stored, TimeToLive(response, q.options.rewriteTTL), q.later)
           else entries,
           Fresh(stored))
  }

  /** lookupToExchange: it looks into the cache under a key of its own making before it calls Exchange. */
  function LookupKey(c: Config, q: Query): Key
    requires q.Valid() && |q.message.question| > 0
  {
    var subnet := Resolved(c, q);
    KeyFor(c, q.message.question[0], q.tag, if c.independentCache && subnet.Some? then Some(subnet.value.Masked()) else None)
  }

  predicate LookupUsesCache(c: Config, q: Query)
    requires q.Valid()
  {
    !c.disableCache && !q.options.disableCache && (Resolved(c, q).None? || c.independentCache)
  }

  datatype LookupResult = Addresses(answer: seq<Record>) | LookupRcode(rcode: nat) | LookupFailed(result: Result)

  function FromMessage(m: Message): LookupResult {
    if m.rcode != RCODE_SUCCESS then LookupRcode(m.rcode) else Addresses(m.answer)
  }

  function FromResult(r: Result): LookupResult {
    if r.Fixed? || r.Cached? || r.Fresh? then FromMessage(r.message) else LookupFailed(r)
  }

  function Lookup(c: Config, entries: Entries, q: Query): (Entries, LookupResult)
    requires q.Valid() && |q.message.question| > 0
  {
    var hit := if LookupUsesCache(c, q) then Load(c, entries, LookupKey(c, q), q.now) else None;
    if hit.Some? then (entries, FromMessage(hit.value))
    else
      var (after, result) := Ask(c, if LookupUsesCache(c, q) then AfterLoad(c, entries, LookupKey(c, q), q.now) else entries, q);
      (after, FromResult(result))
  }

  // ---------------------------------------------------------------- the client object

  class Client {
    const config: Config
    var entries: Entries

    constructor (config: Config)
      ensures this.config == config && entries == map[]
    {
      this.config := config;
      entries := map[];
    }

    method LoadResponse(key: Key, now: nat) returns (r: Option<Message>)
      modifies this
      ensures r == Load(config, old(entries), key, now)
      ensures entries == AfterLoad(config, old(entries), key, now)
    {
      if key !in entries {
        return None;
      }
      var entry := entries[key];
      if config.disableExpire {
        return Some(entry.message);
      }
      if now > entry.expireAt {
        entries := entries - {key};
        return None;
      }
      var aged, _ := Age(entry.message, entry.expireAt, now);
      return Some(aged);
    }

    method StoreCache(key: Key, m: Message, ttl: uint32, now: nat)
      modifies this
      ensures entries == AfterStore(old(entries), key, m, ttl, now)
    {
      if ttl == 0 {
        return;
      }
      entries := entries[key := Entry(m, now + ttl * SECOND)];
    }

    method Exchange(q: Query) returns (r: Result)
      requires q.Valid()
      modifies this
      ensures (entries, r) == Ask(config, old(entries), q)
    {
      if |q.message.question| == 0 {
        return Fixed(FixedResponse(q.message, RCODE_FORMAT_ERROR));
      }
      var question := q.message.question[0];
      if StrategyRejects(question, q.options.strategy) {
        return Fixed(FixedResponse(q.message, RCODE_SUCCESS));
      }
      var sent := Sent(config, q);
      var key := KeyFor(config, question, q.tag, CacheSubnet(config, sent));
      var disableCache := !Simple(config, sent) || config.disableCache || q.options.disableCache;
      if !disableCache {
        var hit := LoadResponse(key, q.now);
        if hit.Some? {
          return Cached(hit.value.(id := q.message.id));
        }
      }
      if q.loopback {
        return Loopback;
      }
      if !disableCache && q.accepts.Some? && q.knownRejected {
        return RejectedFromCache;
      }
      var response: Message;
      match q.upstream {
        case Answered(m) => response := m;
        case RcodeReply(rcode) => response := FixedResponse(sent, rcode);
        case UpstreamFailed(error) => return Failed(error);
      }
      disableCache := disableCache || (response.rcode != RCODE_SUCCESS && response.rcode != RCODE_NAME_ERROR);
      if q.accepts.Some? {
        if response.rcode != RCODE_SUCCESS || |response.answer| == 0 || !q.accepts.value(response) {
          return Rejected(response);
        }
      }
      var normalised, ttl := Normalise(response, q.options.rewriteTTL);
      var reply := normalised.(id := q.message.id, extra := AdjustedExtra(normalised.extra, LastOpt(sent.extra)));
      if !disableCache {
        StoreCache(key, reply, ttl, q.later);
      }
      r := Fresh(reply);
    }

    method LookupToExchange(q: Query) returns (r: LookupResult)
      requires q.Valid() && |q.message.question| > 0
      modifies this
      ensures (entries, r) == Lookup(config, old(entries), q)
    {
      var disableCache := config.disableCache || q.options.disableCache || (Resolved(config, q).Some? && !config.independentCache);
      if !disableCache {
        var cached := LoadResponse(LookupKey(config, q), q.now);
        if cached.Some? {
          return FromMessage(cached.value);
        }
      }
      var result := Exchange(q);
      r := FromResult(result);
    }

    method ClearCache()
      modifies this
      ensures entries == map[]
    {
      entries := map[];
    }
  }
}
