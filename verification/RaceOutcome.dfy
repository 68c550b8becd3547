/**
 * What the consumer loops of the four DNS racers return (dns/router.go).
 *
 * A loop reads one event per iteration: a worker's result, or the caller's context being done.
 * `Received` and `Interrupted` say which results a stream of events makes it read; the verdicts
 * say what it must return for them, without mentioning the loop's variables.
 */
module RaceOutcome {
  import opened Optional
  import opened DnsMessage

  datatype Event<+R> = Arrived(result: R) | CallerDone

  /** The result of one `client.Exchange` call; `NoReply` is a nil message with a nil error. */
  datatype ExchangeResult =
    | Reply(rcode: nat, message: nat, transport: nat)
    | NoReply
    | RejectedFromCache
    | Rejected
    | Failed(error: nat)

  predicate IsNoError(r: ExchangeResult) {
    r.Reply? && r.rcode == RCODE_SUCCESS
  }

  predicate IsError(r: ExchangeResult) {
    r.RejectedFromCache? || r.Rejected? || r.Failed?
  }

  datatype ExchangeAnswer =
    | Answer(reply: ExchangeResult)
    | ContextError
    | AllRejectedFromCache
    | AllRejected
    | Joined(errors: seq<ExchangeResult>)

  /** The results a consumer loop reads before it stops: up to the first stopping one, or the caller leaving. */
  function Received<R>(events: seq<Event<R>>, stops: R -> bool): (r: seq<R>)
  {
    if events == [] || events[0].CallerDone? then []
    else if stops(events[0].result) then [events[0].result]
    else [events[0].result] + Received(events[1..], stops)
  }

  /** The loop ended because it saw the caller's context done. */
  predicate Interrupted<R>(events: seq<Event<R>>, stops: R -> bool)
  {
    events != [] &&
    (events[0].CallerDone? || (!stops(events[0].result) && Interrupted(events[1..], stops)))
  }

  /** The first element of `s` satisfying `p`. */
  function First<R>(s: seq<R>, p: R -> bool): (r: Option<R>)
    ensures r.Some? ==> p(r.value)
  {
    if s == [] then None else if p(s[0]) then Some(s[0]) else First(s[1..], p)
  }

  function Errors(s: seq<ExchangeResult>): seq<ExchangeResult>
  {
    if s == [] then []
    else Errors(s[..|s| - 1]) + (if IsError(s[|s| - 1]) then [s[|s| - 1]] else [])
  }

  predicate OnlyFromCache(s: seq<ExchangeResult>) {
    forall i :: 0 <= i < |s| && IsError(s[i]) ==> s[i].RejectedFromCache?
  }

  predicate OnlyRejections(s: seq<ExchangeResult>) {
    forall i :: 0 <= i < |s| && IsError(s[i]) ==> !s[i].Failed?
  }

  function ErrorClass(s: seq<ExchangeResult>): ExchangeAnswer
  {
    if OnlyFromCache(s) then AllRejectedFromCache
    else if OnlyRejections(s) then AllRejected
    else Joined(Errors(s))
  }

  /** First NOERROR reply, else first reply, else the caller's error, else the class of the errors. */
  function ExchangeVerdict(received: seq<ExchangeResult>, interrupted: bool): ExchangeAnswer
  {
    match First(received, IsNoError)
    case Some(r) => Answer(r)
    case None =>
      match First(received, IsReply)
      case Some(r) => Answer(r)
      case None => if interrupted then ContextError else ErrorClass(received)
  }

  predicate IsReply(r: ExchangeResult) {
    r.Reply?
  }

  /** The consumer loop of exchangeRacer and exchangeHedgedRacer. */
  method ConsumeExchange(total: nat, events: seq<Event<ExchangeResult>>) returns (answer: ExchangeAnswer)
    requires |events| == total
    ensures answer == ExchangeVerdict(Received(events, IsNoError), Interrupted(events, IsNoError))
    ensures answer.Joined? ==> answer.errors != []
  {
    var fallback: Option<ExchangeResult> := None;
    var errors: seq<ExchangeResult> := [];
    var allRejected, allRejectedOnly := true, true;
    ghost var seen: seq<ExchangeResult> := [];
    var i := 0;
    while i < total
      invariant 0 <= i <= total
      invariant First(seen, IsNoError) == None
      invariant Received(events, IsNoError) == seen + Received(events[i..], IsNoError)
      invariant Interrupted(events, IsNoError) == Interrupted(events[i..], IsNoError)
      invariant fallback == First(seen, IsReply)
      invariant errors == Errors(seen)
      invariant allRejectedOnly <==> OnlyFromCache(seen)
      invariant allRejected <==> OnlyRejections(seen)
    {
      var event := events[i];
      if event.CallerDone? {
        assert Received(events, IsNoError) == seen;
        return if fallback.Some? then Answer(fallback.value) else ContextError;
      }
      var result := event.result;
      Extend(seen, result);
      Advance(seen, events, i, IsNoError);
      seen := seen + [result];
      if !IsError(result) {
        if result.Reply? {
          if fallback.None? {
            fallback := Some(result);
          }
          if result.rcode == RCODE_SUCCESS {
            return Answer(result);
          }
        }
      } else {
        errors := errors + [result];
        if result.RejectedFromCache? {
        } else if result.Rejected? {
          allRejectedOnly := false;
        } else {
          allRejected := false;
          allRejectedOnly := false;
        }
      }
      i := i + 1;
    }
    assert Received(events, IsNoError) == seen;
    if fallback.Some? {
      return Answer(fallback.value);
    }
    if allRejectedOnly {
      return AllRejectedFromCache;
    }
    if allRejected {
      return AllRejected;
    }
    ErrorsNonEmpty(seen);
    return Joined(errors);
  }

  /** What one more received result does to each summary the loop keeps. */
  lemma Extend(seen: seq<ExchangeResult>, x: ExchangeResult)
    ensures First(seen + [x], IsNoError) == (if First(seen, IsNoError).Some? then First(seen, IsNoError) else if IsNoError(x) then Some(x) else None)
    ensures First(seen + [x], IsReply) == (if First(seen, IsReply).Some? then First(seen, IsReply) else if IsReply(x) then Some(x) else None)
    ensures Errors(seen + [x]) == Errors(seen) + (if IsError(x) then [x] else [])
    ensures OnlyFromCache(seen + [x]) <==> OnlyFromCache(seen) && (IsError(x) ==> x.RejectedFromCache?)
    ensures OnlyRejections(seen + [x]) <==> OnlyRejections(seen) && (IsError(x) ==> !x.Failed?)
  {
    FirstOfExtension(seen, x, IsNoError);
    FirstOfExtension(seen, x, IsReply);
    ErrorsOfExtension(seen, x);
  }

  lemma ErrorsOfExtension(seen: seq<ExchangeResult>, x: ExchangeResult)
    ensures Errors(seen + [x]) == Errors(seen) + (if IsError(x) then [x] else [])
    ensures OnlyFromCache(seen + [x]) <==> OnlyFromCache(seen) && (IsError(x) ==> x.RejectedFromCache?)
    ensures OnlyRejections(seen + [x]) <==> OnlyRejections(seen) && (IsError(x) ==> !x.Failed?)
  {
    var more := seen + [x];
    assert more[..|seen|] == seen && more[|seen|] == x;
    if OnlyFromCache(more) {
      forall i | 0 <= i < |seen| && IsError(seen[i]) ensures seen[i].RejectedFromCache? {
        assert more[i] == seen[i];
      }
    }
    if OnlyRejections(more) {
      forall i | 0 <= i < |seen| && IsError(seen[i]) ensures !seen[i].Failed? {
        assert more[i] == seen[i];
      }
    }
  }

  lemma Advance<R>(seen: seq<R>, events: seq<Event<R>>, i: nat, stops: R -> bool)
    requires i < |events| && events[i].Arrived?
    ensures stops(events[i].result) ==>
      seen + Received(events[i..], stops) == seen + [events[i].result] && !Interrupted(events[i..], stops)
    ensures !stops(events[i].result) ==>
      && seen + Received(events[i..], stops) == seen + [events[i].result] + Received(events[i + 1..], stops)
      && Interrupted(events[i..], stops) == Interrupted(events[i + 1..], stops)
  {
    assert events[i..][1..] == events[i + 1..];
  }

  lemma {:induction false} FirstOfExtension<R>(s: seq<R>, x: R, p: R -> bool)
    ensures First(s + [x], p) == (if First(s, p).Some? then First(s, p) else if p(x) then Some(x) else None)
  {
    if s == [] {
      assert s + [x] == [x];
    } else {
      FirstOfExtension(s[1..], x, p);
      assert (s + [x])[1..] == s[1..] + [x];
    }
  }

  lemma {:induction false} ErrorsNonEmpty(s: seq<ExchangeResult>)
    requires !OnlyFromCache(s)
    ensures Errors(s) != []
  {
    var n := |s| - 1;
    if !IsError(s[n]) {
      ErrorsNonEmpty(s[..n]);
    }
  }

  /** `First` finds the element with the least index, and fails only when there is none. */
  lemma {:induction false} FirstIsEarliest<R>(s: seq<R>, p: R -> bool)
    ensures First(s, p).None? <==> forall i :: 0 <= i < |s| ==> !p(s[i])
    ensures First(s, p).Some? ==>
      exists i :: 0 <= i < |s| && s[i] == First(s, p).value && p(s[i]) && forall j :: 0 <= j < i ==> !p(s[j])
  {
    if s != [] && !p(s[0]) {
      var t := s[1..];
      FirstIsEarliest(t, p);
      assert forall i :: 1 <= i < |s| ==> s[i] == t[i - 1];
      if First(t, p).Some? {
        var i :| 0 <= i < |t| && t[i] == First(t, p).value && p(t[i]) && forall j :: 0 <= j < i ==> !p(t[j]);
        assert s[i + 1] == First(s, p).value && p(s[i + 1]);
      }
    }
  }

  /** The element at this index is the first that qualifies. */
  predicate IsFirst<R>(s: seq<R>, p: R -> bool, i: int) {
    0 <= i < |s| && p(s[i]) && forall j :: 0 <= j < i ==> !p(s[j])
  }

  /**
   * The answer is the best that was received, also when the caller has left: the first NOERROR, else the first reply.
   * The caller's own error is returned only when there is no reply, and the class of the errors only when the caller
   * has not left either.
   */
  lemma VerdictIsTheBestReceived(received: seq<ExchangeResult>, interrupted: bool)
    ensures var answer := ExchangeVerdict(received, interrupted);
      && (answer.Answer? <==> exists i :: 0 <= i < |received| && received[i].Reply?)
      && ((exists i :: 0 <= i < |received| && received[i].Reply? && received[i].rcode == 0) ==>
            exists i :: IsFirst(received, (r: ExchangeResult) => r.Reply? && r.rcode == 0, i) && answer == Answer(received[i]))
      && (answer.Answer? && !(exists i :: 0 <= i < |received| && received[i].Reply? && received[i].rcode == 0) ==>
            exists i :: IsFirst(received, (r: ExchangeResult) => r.Reply?, i) && answer == Answer(received[i]))
      && (answer.ContextError? <==> interrupted && forall i :: 0 <= i < |received| ==> !received[i].Reply?)
  {
    FirstIsEarliest(received, IsNoError);
    FirstIsEarliest(received, IsReply);
    if First(received, IsNoError).Some? {
      var i :| 0 <= i < |received| && received[i] == First(received, IsNoError).value && IsNoError(received[i]) && forall j :: 0 <= j < i ==> !IsNoError(received[j]);
      assert IsFirst(received, (r: ExchangeResult) => r.Reply? && r.rcode == 0, i);
    } else if First(received, IsReply).Some? {
      var i :| 0 <= i < |received| && received[i] == First(received, IsReply).value && IsReply(received[i]) && forall j :: 0 <= j < i ==> !IsReply(received[j]);
      assert IsFirst(received, (r: ExchangeResult) => r.Reply?, i);
      assert forall j :: 0 <= j < |received| ==> !IsNoError(received[j]);
    } else {
      assert forall j :: 0 <= j < |received| ==> !IsReply(received[j]);
    }
  }

  /**
   * Which error a race that nobody has answered ends with: "rejected (cached)" when every error is one, "rejected" when
   * none is a failure and one is a fresh rejection, and all errors otherwise.
   */
  lemma ErrorsDecideTheClass(received: seq<ExchangeResult>)
    requires forall i :: 0 <= i < |received| ==> !received[i].Reply?
    ensures var answer := ExchangeVerdict(received, false);
      && (answer == AllRejectedFromCache <==> forall i :: 0 <= i < |received| ==> received[i].RejectedFromCache? || received[i].NoReply?)
      && (answer == AllRejected <==>
            && (forall i :: 0 <= i < |received| ==> !received[i].Failed?)
            && (exists i :: 0 <= i < |received| && received[i].Rejected?))
      && (answer.Joined? <==> exists i :: 0 <= i < |received| && received[i].Failed?)
      && (answer.Joined? ==> forall x :: x in answer.errors <==> x in received && !x.NoReply?)
  {
    VerdictIsTheBestReceived(received, false);
    forall x ensures x in Errors(received) <==> x in received && IsError(x) {
      ErrorsCount(received, x);
      assert x in Errors(received) <==> multiset(Errors(received))[x] > 0;
      assert x in received <==> multiset(received)[x] > 0;
    }
  }

  /** A race whose caller never leaves: every event is a worker's result. */
  function Arrivals<R>(results: seq<R>): (events: seq<Event<R>>)
    ensures |events| == |results|
    ensures forall i :: 0 <= i < |events| ==> events[i] == Arrived(results[i])
  {
    seq(|results|, i requires 0 <= i < |results| => Arrived(results[i]))
  }

  lemma {:induction false} ReceivedOfArrivals<R>(results: seq<R>, stops: R -> bool)
    ensures !Interrupted(Arrivals(results), stops)
    ensures First(Received(Arrivals(results), stops), stops) == First(results, stops)
    ensures First(results, stops).None? ==> Received(Arrivals(results), stops) == results
  {
    if results != [] {
      assert Arrivals(results)[1..] == Arrivals(results[1..]);
      if !stops(results[0]) {
        ReceivedOfArrivals(results[1..], stops);
        var rest := Received(Arrivals(results[1..]), stops);
        assert ([results[0]] + rest)[1..] == rest;
      }
    }
  }

  /** The verdict of a race that runs to its end. */
  function Settled(results: seq<ExchangeResult>): ExchangeAnswer {
    ExchangeVerdict(Received(Arrivals(results), IsNoError), Interrupted(Arrivals(results), IsNoError))
  }

  /** An uninterrupted race answers NOERROR exactly when some worker does, and otherwise reads every result. */
  lemma SettledAnswer(results: seq<ExchangeResult>)
    ensures Settled(results).Answer? && IsNoError(Settled(results).reply) <==> exists i :: 0 <= i < |results| && IsNoError(results[i])
    ensures Settled(results).Answer? <==> exists i :: 0 <= i < |results| && results[i].Reply?
    ensures !Settled(results).Answer? ==> Settled(results) == ErrorClass(results)
  {
    ReceivedOfArrivals(results, IsNoError);
    FirstIsEarliest(results, IsNoError);
    FirstIsEarliest(results, IsReply);
    if First(results, IsNoError).None? && First(results, IsReply).Some? {
      var i :| 0 <= i < |results| && results[i] == First(results, IsReply).value && IsReply(results[i]) && forall j :: 0 <= j < i ==> !IsReply(results[j]);
      assert !IsNoError(results[i]);
    }
  }

  lemma CountOfExtension(s: seq<ExchangeResult>, y: ExchangeResult, x: ExchangeResult)
    ensures multiset(s + [y])[x] == multiset(s)[x] + if x == y then 1 else 0
  {
  }

  lemma {:induction false} ErrorsCount(s: seq<ExchangeResult>, x: ExchangeResult)
    ensures multiset(Errors(s))[x] == if IsError(x) then multiset(s)[x] else 0
  {
    if s != [] {
      var n := |s| - 1;
      var front, last := s[..n], s[n];
      ErrorsCount(front, x);
      CountOfExtension(front, last, x);
      assert s == front + [last];
      if IsError(last) {
        CountOfExtension(Errors(front), last, x);
      } else {
        assert Errors(s) == Errors(front);
      }
    }
  }

  /** Both races see the same kind of answer whatever the order of arrival. */
  predicate SameOutcome(a: ExchangeAnswer, b: ExchangeAnswer) {
    match (a, b)
    case (Answer(x), Answer(y)) => IsNoError(x) == IsNoError(y)
    case (Joined(x), Joined(y)) => multiset(x) == multiset(y)
    case _ => a == b
  }

  lemma SettledIgnoresOrder(a: seq<ExchangeResult>, b: seq<ExchangeResult>)
    requires multiset(a) == multiset(b)
    ensures SameOutcome(Settled(a), Settled(b))
  {
    SettledAnswer(a);
    SettledAnswer(b);
    SameMembers(a, b);
    SameMembers(b, a);
    forall x ensures multiset(Errors(a))[x] == multiset(Errors(b))[x] {
      ErrorsCount(a, x);
      ErrorsCount(b, x);
    }
  }

  lemma SameMembers(a: seq<ExchangeResult>, b: seq<ExchangeResult>)
    requires multiset(a) == multiset(b)
    ensures (exists i :: 0 <= i < |a| && IsNoError(a[i])) ==> exists i :: 0 <= i < |b| && IsNoError(b[i])
    ensures (exists i :: 0 <= i < |a| && a[i].Reply?) ==> exists i :: 0 <= i < |b| && b[i].Reply?
    ensures OnlyFromCache(b) ==> OnlyFromCache(a)
    ensures OnlyRejections(b) ==> OnlyRejections(a)
  {
    forall i | 0 <= i < |a| ensures exists j :: 0 <= j < |b| && b[j] == a[i] {
      assert a[i] in multiset(a);
      assert a[i] in b;
    }
  }

  /** Which non-NOERROR reply is returned does depend on the order. */
  lemma OrderPicksTheReply()
    ensures var servFail, nxDomain := Reply(2, 0, 0), Reply(3, 1, 1);
      Settled([servFail, nxDomain]) == Answer(servFail) && Settled([nxDomain, servFail]) == Answer(nxDomain)
  {
    var a, b := Reply(2, 0, 0), Reply(3, 1, 1);
    ReceivedOfArrivals([a, b], IsNoError);
    ReceivedOfArrivals([b, a], IsNoError);
    assert First([a, b][1..], IsNoError) == None && First([b, a][1..], IsNoError) == None;
  }

  /** A race without workers, and one whose workers all return nothing, is reported as rejected from the cache. */
  lemma SilenceCountsAsRejected(n: nat)
    ensures Settled(seq(n, i => NoReply)) == AllRejectedFromCache
  {
    SettledAnswer(seq(n, i => NoReply));
  }

  // ---------------------------------------------------------------- lookup races

  datatype LookupResult = Addresses(addrs: seq<nat>) | LookupFailed(error: nat)

  /** A lookup worker turns an empty success into an error before it offers its result. */
  const EMPTY_RESULT: nat := 0

  function Offered(addrs: seq<nat>, error: Option<nat>): (r: LookupResult)
    ensures r.Addresses? <==> error.None? && addrs != []
    ensures r.Addresses? ==> r.addrs == addrs
    ensures error.Some? ==> r == LookupFailed(error.value)
  {
    match error
    case Some(e) => LookupFailed(e)
    case None => if addrs == [] then LookupFailed(EMPTY_RESULT) else Addresses(addrs)
  }

  /** A result that a lookup worker may offer. */
  ghost predicate IsOffered(r: LookupResult) {
    exists addrs, error :: r == Offered(addrs, error)
  }

  predicate Succeeded(r: LookupResult) {
    r.Addresses?
  }

  predicate HasFailed(r: LookupResult) {
    r.LookupFailed?
  }

  datatype LookupAnswer = Found(addrs: seq<nat>) | NotFound(error: nat) | LookupContextError

  /** First success, else the first error, else the caller's error, else (no worker at all) an empty success. */
  function LookupVerdict(received: seq<LookupResult>, interrupted: bool): LookupAnswer
  {
    match First(received, Succeeded)
    case Some(r) => Found(r.addrs)
    case None =>
      match First(received, HasFailed)
      case Some(r) => NotFound(r.error)
      case None => if interrupted then LookupContextError else Found([])
  }

  /** The consumer loop of lookupRacer and lookupHedgedRacer. */
  method ConsumeLookup(total: nat, events: seq<Event<LookupResult>>) returns (answer: LookupAnswer)
    requires |events| == total
    ensures answer == LookupVerdict(Received(events, Succeeded), Interrupted(events, Succeeded))
  {
    var fallback: Option<LookupResult> := None;
    var errors: seq<nat> := [];
    ghost var seen: seq<LookupResult> := [];
    var i := 0;
    while i < total
      invariant 0 <= i <= total
      invariant First(seen, Succeeded) == None
      invariant Received(events, Succeeded) == seen + Received(events[i..], Succeeded)
      invariant Interrupted(events, Succeeded) == Interrupted(events[i..], Succeeded)
      invariant fallback == First(seen, HasFailed)
      invariant errors != [] ==> fallback.Some?
    {
      var event := events[i];
      if event.CallerDone? {
        assert Received(events, Succeeded) == seen;
        return if fallback.Some? then NotFound(fallback.value.error) else LookupContextError;
      }
      var result := event.result;
      FirstOfExtension(seen, result, Succeeded);
      FirstOfExtension(seen, result, HasFailed);
      Advance(seen, events, i, Succeeded);
      seen := seen + [result];
      if fallback.None? {
        fallback := Some(result);
      }
      if result.Addresses? {
        return Found(result.addrs);
      }
      errors := errors + [result.error];
      i := i + 1;
    }
    assert Received(events, Succeeded) == seen;
    if fallback.Some? {
      return NotFound(fallback.value.error);
    }
    return Found([]);
  }

  /**
   * When every worker offers what `Offered` makes of a lookup, a race with a worker succeeds only with
   * addresses; the race without workers is the exact exception.
   */
  lemma LookupSuccessHasAddresses(results: seq<LookupResult>, interrupted: bool)
    requires forall i :: 0 <= i < |results| && results[i].Addresses? ==> results[i].addrs != []
    ensures LookupVerdict(results, interrupted).Found? && LookupVerdict(results, interrupted).addrs == [] <==> results == [] && !interrupted
    ensures LookupVerdict(results, interrupted).Found? && results != [] <==> exists i :: 0 <= i < |results| && results[i].Addresses?
  {
    FirstIsEarliest(results, Succeeded);
    FirstIsEarliest(results, HasFailed);
  }

  /**
   * A lookup race returns the first success it received, also when the caller has left, else the first failure's error;
   * the caller's own error is returned only when nothing was received.
   */
  lemma LookupVerdictIsTheBestReceived(received: seq<LookupResult>, interrupted: bool)
    ensures var answer := LookupVerdict(received, interrupted);
      && ((exists i :: 0 <= i < |received| && received[i].Addresses?) ==>
            exists i :: IsFirst(received, (r: LookupResult) => r.Addresses?, i) && answer == Found(received[i].addrs))
      && (received != [] && (forall i :: 0 <= i < |received| ==> received[i].LookupFailed?) ==> answer == NotFound(received[0].error))
      && (answer.LookupContextError? <==> interrupted && received == [])
  {
    FirstIsEarliest(received, Succeeded);
    FirstIsEarliest(received, HasFailed);
    if First(received, Succeeded).Some? {
      var i :| 0 <= i < |received| && received[i] == First(received, Succeeded).value && Succeeded(received[i]) && forall j :: 0 <= j < i ==> !Succeeded(received[j]);
      assert IsFirst(received, (r: LookupResult) => r.Addresses?, i);
    } else {
      assert forall j :: 0 <= j < |received| ==> !Succeeded(received[j]);
      assert received != [] ==> HasFailed(received[0]);
    }
  }
}
