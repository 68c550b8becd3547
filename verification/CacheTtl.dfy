/**
 * The TTLs of a cached response (dns/client.go): how a response is normalised when it is stored, what is
 * stored after the reply's EDNS record has been adjusted, and what a later load makes of it.
 */
module CacheTtl {
  import opened Optional
  import opened DnsMessage

  /** Clock ticks per second; times are in ticks. */
  const SECOND: nat := 1_000_000_000

  // ---------------------------------------------------------------- the smallest positive TTL

  function MinPositive(records: seq<Record>): (t: uint32)
    decreases |records|
  {
    if records == [] then 0
    else
      var t, last: uint32 := MinPositive(records[..|records| - 1]), records[|records| - 1].ttl;
      if t == 0 || (last > 0 && last < t) then last else t
  }

  lemma {:induction false} MinPositiveIsSmallest(records: seq<Record>)
    ensures MinPositive(records) == 0 <==> forall i :: 0 <= i < |records| ==> records[i].ttl == 0
    ensures MinPositive(records) > 0 ==> exists i :: 0 <= i < |records| && records[i].ttl == MinPositive(records)
    ensures MinPositive(records) > 0 ==> forall i :: 0 <= i < |records| && records[i].ttl > 0 ==> MinPositive(records) <= records[i].ttl
  {
    if records != [] {
      var front := records[..|records| - 1];
      MinPositiveIsSmallest(front);
      assert forall i :: 0 <= i < |front| ==> front[i] == records[i];
    }
  }

  /** The loop over answer, authority and additional records. */
  method SmallestTTL(m: Message, initial: uint32) returns (ttl: uint32)
    ensures initial == 0 ==> ttl == MinPositive(m.Records())
  {
    ttl := initial;
    var records := m.Records();
    for i := 0 to |records|
      invariant initial == 0 ==> ttl == MinPositive(records[..i])
    {
      assert records[..i + 1][..i] == records[..i];
      if ttl == 0 || (records[i].ttl > 0 && records[i].ttl < ttl) {
        ttl := records[i].ttl;
      }
    }
    assert records[..|records|] == records;
  }

  // ---------------------------------------------------------------- normalisation

  function FirstSOA(ns: seq<Record>): (r: Option<Record>)
    ensures r.Some? ==> r.value.SOA?
  {
    if ns == [] then None else if ns[0].SOA? then Some(ns[0]) else FirstSOA(ns[1..])
  }

  function Min(a: uint32, b: uint32): uint32 {
    if a < b then a else b
  }

  /** extractNegativeTTL. */
  function NegativeTTL(m: Message): Option<uint32> {
    match FirstSOA(m.ns)
    case Some(soa) => Some(Min(soa.ttl, soa.minimum))
    case None => None
  }

  /** The TTL of a whole response: the rewrite, else a positive negative-answer TTL, else the smallest positive TTL. */
  function TimeToLive(m: Message, rewrite: Option<uint32>): uint32 {
    if rewrite.Some? then rewrite.value
    else if m.answer == [] && NegativeTTL(m).GetOr(0) > 0 then NegativeTTL(m).value
    else MinPositive(m.Records())
  }

  function WithTTLs(records: seq<Record>, ttl: uint32): (r: seq<Record>)
    ensures |r| == |records|
    ensures forall i :: 0 <= i < |r| ==> r[i] == records[i].(ttl := ttl)
  {
    seq(|records|, i requires 0 <= i < |records| => records[i].(ttl := ttl))
  }

  function Normalised(m: Message, ttl: uint32): Message {
    m.(answer := WithTTLs(m.answer, ttl), ns := WithTTLs(m.ns, ttl), extra := WithTTLs(m.extra, ttl))
  }

  method Normalise(m: Message, rewrite: Option<uint32>) returns (r: Message, ttl: uint32)
    ensures ttl == TimeToLive(m, rewrite)
    ensures r == Normalised(m, ttl)
  {
    ttl := 0;
    if |m.answer| == 0 {
      var soaTTL := NegativeTTL(m);
      if soaTTL.Some? {
        ttl := soaTTL.value;
      }
    }
    if ttl == 0 {
      ttl := SmallestTTL(m, ttl);
    }
    if rewrite.Some? {
      ttl := rewrite.value;
    }
    r := Normalised(m, ttl);
  }

  /**
   * Section 3 of RFC 2308 gives a negative answer the smaller of the SOA record's TTL and its MINIMUM field.
   * The code does so unless that is 0 while some record has a positive TTL: then it caches where it should not.
   */
  lemma NegativeAnswerTTL(m: Message)
    requires m.answer == [] && NegativeTTL(m).Some?
    ensures TimeToLive(m, None) == NegativeTTL(m).value <==>
      NegativeTTL(m).value > 0 || forall i :: 0 <= i < |m.Records()| ==> m.Records()[i].ttl == 0
  {
    MinPositiveIsSmallest(m.Records());
  }

  /** A negative answer that should not be cached, and is cached for a minute. */
  lemma NegativeAnswerOfZeroIsCached()
    ensures var m := Message(0, RCODE_NAME_ERROR, [], [], [SOA(60, 0)], []);
      NegativeTTL(m) == Some(0) && TimeToLive(m, None) == 60
  {
    var m := Message(0, RCODE_NAME_ERROR, [], [], [SOA(60, 0)], []);
    assert m.Records()[0] == SOA(60, 0) && |m.Records()| == 1;
    MinPositiveIsSmallest(m.Records());
  }

  /** The negative TTL is that of the first SOA record of the authority section: the smaller of its two values. */
  lemma {:induction false} NegativeTTLOfFirstSOA(m: Message, ns: seq<Record>)
    requires ns == m.ns
    ensures NegativeTTL(m) == None <==> forall i :: 0 <= i < |ns| ==> !ns[i].SOA?
    ensures forall i :: 0 <= i < |ns| && ns[i].SOA? && (forall j :: 0 <= j < i ==> !ns[j].SOA?) ==>
      NegativeTTL(m) == Some(if ns[i].ttl < ns[i].minimum then ns[i].ttl else ns[i].minimum)
  {
    FirstSOAIsFirst(ns);
  }

  lemma {:induction false} FirstSOAIsFirst(ns: seq<Record>)
    ensures FirstSOA(ns) == None <==> forall i :: 0 <= i < |ns| ==> !ns[i].SOA?
    ensures forall i :: 0 <= i < |ns| && ns[i].SOA? && (forall j :: 0 <= j < i ==> !ns[j].SOA?) ==> FirstSOA(ns) == Some(ns[i])
  {
    if ns != [] && !ns[0].SOA? {
      FirstSOAIsFirst(ns[1..]);
      assert forall i :: 1 <= i < |ns| ==> ns[i] == ns[1..][i - 1];
    }
  }

  /** The TTL of a response: a rewrite goes first, an answer has the smallest positive TTL of its records, if any. */
  lemma TtlPrecedence(m: Message, rewrite: Option<uint32>)
    ensures rewrite.Some? ==> TimeToLive(m, rewrite) == rewrite.value
    ensures rewrite == None && (m.answer != [] || NegativeTTL(m) == None) ==>
      var ttl := TimeToLive(m, rewrite);
      && (ttl == 0 <==> forall i :: 0 <= i < |m.Records()| ==> m.Records()[i].ttl == 0)
      && (ttl > 0 ==>
            && (exists i :: 0 <= i < |m.Records()| && m.Records()[i].ttl == ttl)
            && (forall i :: 0 <= i < |m.Records()| && m.Records()[i].ttl > 0 ==> ttl <= m.Records()[i].ttl))
  {
    MinPositiveIsSmallest(m.Records());
  }

  // ---------------------------------------------------------------- the reply's EDNS record

  /** The version and the DO flag are bits of an OPT record's TTL field. */
  function Version(opt: Record): nat {
    opt.ttl / 0x1_0000 % 0x100
  }

  predicate DnssecOk(opt: Record) {
    opt.ttl / 0x8000 % 2 == 1
  }

  const DO_BIT: uint32 := 0x8000

  function WithoutOpts(extra: seq<Record>): (r: seq<Record>)
    ensures forall i :: 0 <= i < |r| ==> !r[i].Opt? && r[i] in extra
  {
    if extra == [] then []
    else
      var rest := WithoutOpts(extra[..|extra| - 1]);
      if extra[|extra| - 1].Opt? then rest else rest + [extra[|extra| - 1]]
  }

  /** The response's OPT is dropped when the request has none, and replaced when the request's version is older. */
  function AdjustedExtra(extra: seq<Record>, requestOpt: Option<Record>): seq<Record> {
    match LastOpt(extra)
    case None => extra
    case Some(opt) =>
      if requestOpt.None? then WithoutOpts(extra)
      else if Version(requestOpt.value) < Version(opt) then
        WithoutOpts(extra) + [Replacement(opt)]
      else extra
  }

  /** The version of EDNS that an OPT record is of, and its DO flag (section 6.1.3 of RFC 6891). */
  lemma OptBits(opt: Record, version: nat, rcode: nat, flag: bool, rest: nat)
    requires version < 0x100 && rcode < 0x100 && rest < 0x8000
    requires opt.ttl == rcode * 0x100_0000 + version * 0x1_0000 + (if flag then 0x8000 else 0) + rest
    ensures Version(opt) == version && (DnssecOk(opt) <==> flag)
  {
    var low := (if flag then 0x8000 else 0) + rest;
    assert opt.ttl == 0x1_0000 * (rcode * 0x100 + version) + low && low < 0x1_0000;
    assert opt.ttl / 0x1_0000 == rcode * 0x100 + version;
    assert opt.ttl == 0x8000 * (2 * (rcode * 0x100 + version) + if flag then 1 else 0) + rest;
    assert opt.ttl / 0x8000 == 2 * (rcode * 0x100 + version) + if flag then 1 else 0;
  }

  lemma {:induction false} NoOptsLeft(extra: seq<Record>)
    requires forall i :: 0 <= i < |extra| ==> !extra[i].Opt?
    ensures LastOpt(extra) == None
  {
    if extra != [] {
      NoOptsLeft(extra[..|extra| - 1]);
    }
  }

  /** The record that replaces one of a newer version. */
  function Replacement(opt: Record): Record
    requires opt.Opt?
  {
    Opt(if DnssecOk(opt) then DO_BIT else 0, opt.udpSize, [])
  }

  lemma ReplacementBits(opt: Record)
    requires opt.Opt?
    ensures Version(Replacement(opt)) == 0 && (DnssecOk(Replacement(opt)) <==> DnssecOk(opt))
  {
  }

  /**
   * A reply has an OPT record only if the request has one. One of a newer version than the request's is replaced by a
   * record of version 0 with its size and DO flag; any other stays.
   */
  lemma ReplyOpt(extra: seq<Record>, requestOpt: Option<Record>)
    ensures var reply := LastOpt(AdjustedExtra(extra, requestOpt));
      match LastOpt(extra)
      case None => AdjustedExtra(extra, requestOpt) == extra
      case Some(opt) =>
        if requestOpt == None then reply == None
        else if Version(requestOpt.value) >= Version(opt) then AdjustedExtra(extra, requestOpt) == extra
        else
          && reply.Some? && Version(reply.value) == 0 && reply.value.udpSize == opt.udpSize && reply.value.options == []
          && (DnssecOk(reply.value) <==> DnssecOk(opt))
  {
    NoOptsLeft(WithoutOpts(extra));
    if LastOpt(extra).Some? {
      ReplacementBits(LastOpt(extra).value);
    }
  }

  /**
   * What the cache holds after an exchange. The response is stored before its id and its OPT record are
   * adjusted, but the adjustments are made to the same object.
   */
  function Stored(response: Message, rewrite: Option<uint32>, request: Message): Message {
    var n := Normalised(response, TimeToLive(response, rewrite));
    n.(id := request.id, extra := AdjustedExtra(n.extra, LastOpt(request.extra)))
  }

  // ---------------------------------------------------------------- loading

  /** One record's TTL: reduced modulo 2^32 by the time spent in the cache, or set if the entry had no TTL at all. */
  function AgedTTL(ttl: uint32, origin: uint32, remaining: nat): uint32 {
    if origin > 0 then (ttl - (origin - remaining) % TWO_32) % TWO_32 else remaining % TWO_32
  }

  function AgeAll(records: seq<Record>, origin: uint32, remaining: nat): (r: seq<Record>)
    ensures |r| == |records|
    ensures forall i :: 0 <= i < |r| ==> r[i] == records[i].(ttl := AgedTTL(records[i].ttl, origin, remaining))
  {
    seq(|records|, i requires 0 <= i < |records| => records[i].(ttl := AgedTTL(records[i].ttl, origin, remaining)))
  }

  /** What `loadResponse` makes of an entry that has this many whole seconds left. */
  function Aged(m: Message, remaining: nat): Message {
    var origin := MinPositive(m.Records());
    m.(answer := AgeAll(m.answer, origin, remaining), ns := AgeAll(m.ns, origin, remaining), extra := AgeAll(m.extra, origin, remaining))
  }

  method AgeRecords(records: seq<Record>, origin: uint32, nowTTL: nat) returns (r: seq<Record>)
    ensures r == AgeAll(records, origin, nowTTL)
  {
    var duration: uint32 := (origin - nowTTL) % TWO_32;
    r := [];
    for i := 0 to |records|
      invariant |r| == i
      invariant forall k :: 0 <= k < i ==> r[k] == records[k].(ttl := AgedTTL(records[k].ttl, origin, nowTTL))
    {
      var ttl := if origin > 0 then (records[i].ttl - duration) % TWO_32 else nowTTL % TWO_32;
      r := r + [records[i].(ttl := ttl)];
    }
  }

  method Age(m: Message, expireAt: nat, now: nat) returns (r: Message, nowTTL: nat)
    requires now <= expireAt
    ensures nowTTL == SecondsLeft(expireAt, now)
    ensures r == Aged(m, nowTTL)
  {
    var origin := SmallestTTL(m, 0);
    nowTTL := (expireAt - now) / SECOND;
    var answer := AgeRecords(m.answer, origin, nowTTL);
    var ns := AgeRecords(m.ns, origin, nowTTL);
    var extra := AgeRecords(m.extra, origin, nowTTL);
    r := m.(answer := answer, ns := ns, extra := extra);
  }

  // ---------------------------------------------------------------- storing and loading together

  /** The exchange stores a replacement OPT record that carries the DO flag in its TTL field. */
  predicate FlagsInStore(response: Message, rewrite: Option<uint32>, request: Message) {
    var ttl := TimeToLive(response, rewrite);
    && LastOpt(response.extra).Some? && LastOpt(request.extra).Some?
    && Version(LastOpt(request.extra).value) < ttl / 0x1_0000 % 0x100
    && ttl / 0x8000 % 2 == 1
  }

  lemma {:induction false} LastOptOfNormalised(extra: seq<Record>, ttl: uint32)
    ensures LastOpt(WithTTLs(extra, ttl)) == match LastOpt(extra) case Some(o) => Some(Opt(ttl, o.udpSize, o.options)) case None => None
  {
    if extra != [] && !extra[|extra| - 1].Opt? {
      var n := |extra| - 1;
      assert WithTTLs(extra, ttl)[..n] == WithTTLs(extra[..n], ttl);
      LastOptOfNormalised(extra[..n], ttl);
    }
  }

  /** The records a replacement OPT leaves, and what it carries itself. */
  lemma AdjustedTTLs(extra: seq<Record>, ttl: uint32, requestOpt: Option<Record>)
    requires forall i :: 0 <= i < |extra| ==> extra[i].ttl == ttl
    ensures var adjusted := AdjustedExtra(extra, requestOpt);
      var replaced := LastOpt(extra).Some? && requestOpt.Some? && Version(requestOpt.value) < Version(LastOpt(extra).value);
      if !replaced then forall i :: 0 <= i < |adjusted| ==> adjusted[i].ttl == ttl
      else
        var n := |adjusted| - 1;
        && 0 <= n && (forall i :: 0 <= i < n ==> adjusted[i].ttl == ttl)
        && adjusted[n].Opt? && adjusted[n].ttl == if DnssecOk(LastOpt(extra).value) then DO_BIT else 0
  {
    var kept := WithoutOpts(extra);
    assert forall i :: 0 <= i < |kept| ==> kept[i] in extra;
  }

  /** Records that all have this TTL, apart from a replacement OPT record at the end. */
  predicate SharesTTL(records: seq<Record>, ttl: uint32, flagged: bool) {
    if flagged then
      var n := |records| - 1;
      0 <= n && (forall i :: 0 <= i < n ==> records[i].ttl == ttl) && records[n].Opt? && records[n].ttl == DO_BIT < ttl
    else forall i :: 0 <= i < |records| && records[i].ttl != ttl ==> i == |records| - 1 && records[i].Opt? && records[i].ttl == 0
  }

  lemma StoredTTLs(response: Message, rewrite: Option<uint32>, request: Message)
    ensures SharesTTL(Stored(response, rewrite, request).Records(), TimeToLive(response, rewrite), FlagsInStore(response, rewrite, request))
  {
    var ttl := TimeToLive(response, rewrite);
    var extra := WithTTLs(response.extra, ttl);
    LastOptOfNormalised(response.extra, ttl);
    AdjustedTTLs(extra, ttl, LastOpt(request.extra));
    JoinedTTLs(WithTTLs(response.answer, ttl), WithTTLs(response.ns, ttl), AdjustedExtra(extra, LastOpt(request.extra)),
               ttl, FlagsInStore(response, rewrite, request));
  }

  lemma JoinedTTLs(answer: seq<Record>, ns: seq<Record>, extra: seq<Record>, ttl: uint32, flagged: bool)
    requires forall i :: 0 <= i < |answer| ==> answer[i].ttl == ttl
    requires forall i :: 0 <= i < |ns| ==> ns[i].ttl == ttl
    requires SharesTTL(extra, ttl, flagged)
    ensures SharesTTL(answer + ns + extra, ttl, flagged)
  {
  }

  lemma AgedRecords(m: Message, remaining: nat)
    ensures Aged(m, remaining).Records() == AgeAll(m.Records(), MinPositive(m.Records()), remaining)
  {
  }

  /** The TTL a load takes for the original one. */
  lemma OriginOfStored(response: Message, rewrite: Option<uint32>, request: Message, i: nat)
    requires 0 < TimeToLive(response, rewrite)
    requires var s := Stored(response, rewrite, request).Records(); i < |s| && !s[i].Opt?
    ensures Stored(response, rewrite, request).Records()[i].ttl == TimeToLive(response, rewrite)
    ensures MinPositive(Stored(response, rewrite, request).Records()) ==
      if FlagsInStore(response, rewrite, request) then DO_BIT else TimeToLive(response, rewrite)
    ensures FlagsInStore(response, rewrite, request) ==> DO_BIT < TimeToLive(response, rewrite)
  {
    StoredTTLs(response, rewrite, request);
    MinPositiveIsSmallest(Stored(response, rewrite, request).Records());
  }

  lemma SubtractModulo(a: int, b: int)
    ensures (a - b % TWO_32) % TWO_32 == (a - b) % TWO_32
  {
    var q := b / TWO_32;
    var r := (a - b) / TWO_32;
    assert a - b % TWO_32 == (a - b) % TWO_32 + TWO_32 * (q + r);
  }

  lemma AgedTTLs(ttl: uint32, remaining: nat)
    requires 0 < ttl && remaining <= ttl
    ensures AgedTTL(ttl, ttl, remaining) == remaining
    ensures DO_BIT < ttl ==> AgedTTL(ttl, DO_BIT, remaining) == (ttl + remaining - DO_BIT) % TWO_32 != remaining
  {
    SubtractModulo(ttl, ttl - remaining);
    SubtractModulo(ttl, DO_BIT - remaining);
    assert ttl - (DO_BIT - remaining) == ttl + remaining - DO_BIT;
  }

  /**
   * A load before expiry gives every data record of an exchanged response the whole seconds that remain,
   * exactly when the exchange put no flag-carrying OPT record into the store; then TTLs come out too large.
   */
  lemma LoadTellsRemaining(response: Message, rewrite: Option<uint32>, request: Message, remaining: nat, i: nat)
    requires 0 < TimeToLive(response, rewrite) && remaining <= TimeToLive(response, rewrite)
    requires var s := Stored(response, rewrite, request).Records(); i < |s| && !s[i].Opt?
    ensures var loaded := Aged(Stored(response, rewrite, request), remaining).Records();
      && i < |loaded|
      && (FlagsInStore(response, rewrite, request) ==>
            loaded[i].ttl == (TimeToLive(response, rewrite) + remaining - DO_BIT) % TWO_32)
      && (loaded[i].ttl == remaining <==> !FlagsInStore(response, rewrite, request))
  {
    OriginOfStored(response, rewrite, request, i);
    AgedTTLs(TimeToLive(response, rewrite), remaining);
    AgedRecords(Stored(response, rewrite, request), remaining);
  }

  /** The failing case in numbers: stored for 98304 seconds and loaded at once, the record is served for 163840 seconds. */
  lemma FlaggedEntryOutlivesItself()
    ensures var response := Message(0, 0, [], [Data(98304, 7)], [], [Opt(0, 0, [])]);
      var request := Message(0, 0, [], [], [], [Opt(0, 0, [])]);
      && TimeToLive(response, None) == 98304
      && |Aged(Stored(response, None, request), 98304).Records()| > 0
      && Aged(Stored(response, None, request), 98304).Records()[0].ttl == 163840
  {
    var response := Message(0, 0, [], [Data(98304, 7)], [], [Opt(0, 0, [])]);
    var request := Message(0, 0, [], [], [], [Opt(0, 0, [])]);
    var records := response.Records();
    MinPositiveIsSmallest(records);
    assert records[0].ttl == 98304 && records[1].ttl == 0;
    assert TimeToLive(response, None) == 98304;
    FlaggedFirst(response, request, Stored(response, None, request));
    LoadTellsRemaining(response, None, request, 98304, 0);
  }

  lemma FlaggedFirst(response: Message, request: Message, stored: Message)
    requires stored == Stored(response, None, request) && TimeToLive(response, None) == 98304
    requires response.answer == [Data(98304, 7)] && response.extra == [Opt(0, 0, [])] && request.extra == [Opt(0, 0, [])]
    ensures |stored.Records()| > 0 && stored.Records()[0] == Data(98304, 7) && FlagsInStore(response, None, request)
  {
    assert stored.answer[0] == Data(98304, 7);
  }

  /** Whole seconds that remain before expiry. */
  function SecondsLeft(expireAt: nat, now: nat): nat
    requires now <= expireAt
  {
    (expireAt - now) / SECOND
  }

  lemma SecondsLeftAtTwoTimes(expireAt: nat, first: nat, second: nat, ttl: nat)
    requires first <= second <= expireAt && expireAt - first <= ttl * SECOND
    ensures SecondsLeft(expireAt, second) <= SecondsLeft(expireAt, first) <= ttl
    ensures SecondsLeft(expireAt, second) * SECOND <= expireAt - second < (SecondsLeft(expireAt, second) + 1) * SECOND
  {
  }

  /** Two values reduced modulo 2^32, of which the larger is less than 2^33 and less than 2^32 above the other. */
  lemma WrappedOrder(early: nat, late: nat)
    requires late <= early < late + TWO_32 && early < 2 * TWO_32
    ensures late % TWO_32 <= early % TWO_32 <==> !(late < TWO_32 <= early)
  {
  }

  lemma FlaggedLoad(response: Message, rewrite: Option<uint32>, request: Message, remaining: nat, i: nat)
    requires FlagsInStore(response, rewrite, request)
    requires 0 < TimeToLive(response, rewrite) && remaining <= TimeToLive(response, rewrite)
    requires var s := Stored(response, rewrite, request).Records(); i < |s| && !s[i].Opt?
    ensures var loaded := Aged(Stored(response, rewrite, request), remaining).Records();
      i < |loaded| && DO_BIT < TimeToLive(response, rewrite) && loaded[i].ttl == (TimeToLive(response, rewrite) - DO_BIT + remaining) % TWO_32
  {
    OriginOfStored(response, rewrite, request, i);
    LoadTellsRemaining(response, rewrite, request, remaining, i);
  }

  /**
   * The TTLs of an entry stored with flags: over two loads they do not grow either, except when the sum that makes
   * them too large has wrapped for the earlier load and no longer does for the later one.
   */
  lemma FlaggedLoadsGrowWhenTheyUnwrap(response: Message, rewrite: Option<uint32>, request: Message, early: nat, late: nat, i: nat)
    requires FlagsInStore(response, rewrite, request)
    requires 0 < TimeToLive(response, rewrite) && late <= early <= TimeToLive(response, rewrite)
    requires var s := Stored(response, rewrite, request).Records(); i < |s| && !s[i].Opt?
    ensures var stored, excess := Stored(response, rewrite, request), TimeToLive(response, rewrite) - DO_BIT;
      var first, second := Aged(stored, early).Records(), Aged(stored, late).Records();
      && i < |first| && i < |second|
      && (second[i].ttl <= first[i].ttl <==> !(excess + late < TWO_32 <= excess + early))
  {
    var excess := TimeToLive(response, rewrite) - DO_BIT;
    FlaggedLoad(response, rewrite, request, early, i);
    FlaggedLoad(response, rewrite, request, late, i);
    WrappedOrder(excess + early, excess + late);
  }

  /**
   * Between two loads of the same entry, no later than it expires, a data record's TTL never grows and is never more
   * than it was stored with; it is the floor of the time that remains.
   */
  lemma LoadsNeverGrow(response: Message, rewrite: Option<uint32>, request: Message, expireAt: nat, first: nat, second: nat, i: nat)
    requires !FlagsInStore(response, rewrite, request)
    requires 0 < TimeToLive(response, rewrite)
    requires first <= second <= expireAt && expireAt - first <= TimeToLive(response, rewrite) * SECOND
    requires var s := Stored(response, rewrite, request).Records(); i < |s| && !s[i].Opt?
    ensures var stored := Stored(response, rewrite, request);
      var early, late := Aged(stored, SecondsLeft(expireAt, first)).Records(), Aged(stored, SecondsLeft(expireAt, second)).Records();
      && i < |early| && i < |late| && late[i].ttl <= early[i].ttl <= TimeToLive(response, rewrite)
      && late[i].ttl * SECOND <= expireAt - second < (late[i].ttl + 1) * SECOND
  {
    var ttl := TimeToLive(response, rewrite);
    var early, late := SecondsLeft(expireAt, first), SecondsLeft(expireAt, second);
    SecondsLeftAtTwoTimes(expireAt, first, second, ttl);
    LoadTellsRemaining(response, rewrite, request, early, i);
    LoadTellsRemaining(response, rewrite, request, late, i);
  }
}
