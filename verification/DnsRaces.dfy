/** The answers of the DNS races over every run of the protocol (dns/router.go). */
module DnsRaces {
  import opened Optional
  import opened RaceOutcome
  import opened RaceProtocol

  /** The events a consumer loop meets that reads these results and then, if it goes on, finds the caller gone. */
  function EventsOf<R>(received: seq<R>, more: nat): (events: seq<Event<R>>)
    ensures |events| == |received| + more
  {
    Arrivals(received) + seq(more, i => CallerDone)
  }

  lemma {:induction false} EventsAreRead<R>(received: seq<R>, more: nat, stops: R -> bool)
    requires forall k :: 0 <= k < |received| - 1 ==> !stops(received[k])
    ensures RaceOutcome.Received(EventsOf(received, more), stops) == received
    ensures Interrupted(EventsOf(received, more), stops) <==> more > 0 && (received == [] || !stops(received[|received| - 1]))
  {
    if received != [] {
      assert EventsOf(received, more)[1..] == EventsOf(received[1..], more);
      if !stops(received[0]) {
        EventsAreRead(received[1..], more, stops);
      }
    }
  }

  /**
   * In every run in which the consumer has left its loop, the loop has read one event per iteration such that
   * the results it read and the reason it left are those of the run: its verdict is the verdict of the run.
   */
  lemma ConsumerReadsTheRun<O(!new)>(c: Config<O>, s: State<O>)
    requires Reachable(c, s) && !s.consumer.Waiting?
    ensures |s.received| <= c.Total()
    ensures var events := EventsOf(s.received, c.Total() - |s.received|);
      && |events| == c.Total()
      && RaceOutcome.Received(events, c.stops) == s.received
      && (Interrupted(events, c.stops) <==> s.consumer.interrupted)
  {
    ReachableInv(c, s);
    EventsAreRead(s.received, c.Total() - |s.received|, c.stops);
  }

  lemma ReceivedIsRead<R>(received: seq<R>, stops: R -> bool)
    requires forall k :: 0 <= k < |received| - 1 ==> !stops(received[k])
    ensures RaceOutcome.Received(Arrivals(received), stops) == received
    ensures !Interrupted(Arrivals(received), stops)
  {
    EventsAreRead(received, 0, stops);
    assert EventsOf(received, 0) == Arrivals(received);
  }

  /**
   * The answer of an exchange race is a worker's reply, and any answer other than NOERROR is given only after
   * every worker has been heard without NOERROR, unless the caller left.
   */
  lemma ExchangeRaceAnswer(c: Config<ExchangeResult>, s: State<ExchangeResult>)
    requires c.stops == IsNoError && Reachable(c, s) && !s.consumer.Waiting?
    ensures var answer := ExchangeVerdict(s.received, s.consumer.interrupted);
      && (answer.Answer? ==> exists i :: 0 <= i < |s.workers| && s.workers[i].Delivered? && s.workers[i].outcome == answer.reply)
      && (answer.ContextError? ==> s.callerDone)
      && (!s.consumer.interrupted ==> answer == Settled(s.received))
      && (!s.consumer.interrupted && !(answer.Answer? && IsNoError(answer.reply)) ==>
            forall i :: 0 <= i < |s.workers| ==> s.workers[i].Delivered? && !IsNoError(s.workers[i].outcome))
  {
    ReachableInv(c, s);
    var answer := ExchangeVerdict(s.received, s.consumer.interrupted);
    FirstIsEarliest(s.received, IsNoError);
    FirstIsEarliest(s.received, IsReply);
    if answer.Answer? {
      assert answer.reply in s.received;
      assert answer.reply in multiset(s.received);
      DeliveredBySomeone(s.workers, answer.reply);
    }
    if !s.consumer.interrupted {
      ReceivedIsRead(s.received, IsNoError);
      LeavesForAReason(c, s);
    }
  }

  /**
   * What every exchange race answers, in terms of what its consumer has read when it has left, whether the caller
   * left or not: a reply iff it has read one, the first NOERROR if it has read one, and the caller's error iff the
   * caller has left before any reply.
   */
  lemma ExchangeRaceReturnsTheBest(c: Config<ExchangeResult>, s: State<ExchangeResult>)
    requires c.stops == IsNoError && Reachable(c, s) && !s.consumer.Waiting?
    ensures var answer := ExchangeVerdict(s.received, s.consumer.interrupted);
      && (answer.Answer? <==> exists i :: 0 <= i < |s.received| && s.received[i].Reply?)
      && ((exists i :: 0 <= i < |s.received| && s.received[i].Reply? && s.received[i].rcode == 0) ==>
            |s.received| > 0 && answer == Answer(s.received[|s.received| - 1]))
      && (answer.Answer? && !(exists i :: 0 <= i < |s.received| && s.received[i].Reply? && s.received[i].rcode == 0) ==>
            exists i :: IsFirst(s.received, (r: ExchangeResult) => r.Reply?, i) && answer == Answer(s.received[i]))
      && (answer.ContextError? <==> s.consumer.interrupted && forall i :: 0 <= i < |s.received| ==> !s.received[i].Reply?)
      && (answer.ContextError? ==> s.callerDone)
  {
    ReachableInv(c, s);
    VerdictIsTheBestReceived(s.received, s.consumer.interrupted);
    if i :| 0 <= i < |s.received| && s.received[i].Reply? && s.received[i].rcode == 0 {
      var j :| IsFirst(s.received, (r: ExchangeResult) => r.Reply? && r.rcode == 0, j) && ExchangeVerdict(s.received, s.consumer.interrupted) == Answer(s.received[j]);
      assert IsNoError(s.received[i]) && IsNoError(s.received[j]);
      assert j == |s.received| - 1;
    }
  }

  /** The same for lookup races: an interrupted one that has read a failure returns the earliest one's error. */
  lemma LookupRaceReturnsTheBest(c: Config<LookupResult>, s: State<LookupResult>)
    requires c.stops == Succeeded && Reachable(c, s) && !s.consumer.Waiting?
    ensures var answer := LookupVerdict(s.received, s.consumer.interrupted);
      && ((exists i :: 0 <= i < |s.received| && s.received[i].Addresses?) ==>
            exists i :: IsFirst(s.received, (r: LookupResult) => r.Addresses?, i) && answer == Found(s.received[i].addrs))
      && (s.received != [] && (forall i :: 0 <= i < |s.received| ==> s.received[i].LookupFailed?) ==> answer == NotFound(s.received[0].error))
      && (answer.LookupContextError? <==> s.consumer.interrupted && s.received == [])
      && (answer.LookupContextError? ==> s.callerDone)
  {
    ReachableInv(c, s);
    LookupVerdictIsTheBestReceived(s.received, s.consumer.interrupted);
  }

  lemma {:induction false} DeliveredBySomeone<O>(workers: seq<Worker<O>>, outcome: O)
    requires outcome in Outcomes(workers)
    ensures exists i :: 0 <= i < |workers| && workers[i].Delivered? && workers[i].outcome == outcome
  {
    if !(workers[0].Delivered? && workers[0].outcome == outcome) {
      DeliveredBySomeone(workers[1..], outcome);
      var i :| 0 <= i < |workers[1..]| && workers[1..][i].Delivered? && workers[1..][i].outcome == outcome;
      assert workers[i + 1].Delivered? && workers[i + 1].outcome == outcome;
    }
  }

  lemma {:induction false} SameDeliveries<O>(v: seq<Worker<O>>, w: seq<Worker<O>>)
    requires |v| == |w|
    requires forall i :: 0 <= i < |v| ==> v[i].Delivered? && w[i].Delivered? && v[i].outcome == w[i].outcome
    ensures Outcomes(v) == Outcomes(w)
  {
    if v != [] {
      SameDeliveries(v[1..], w[1..]);
    }
  }

  /** What each worker delivered is what its transport answers. */
  predicate Delivers<O(==)>(s: State<O>, answers: seq<O>) {
    |answers| == |s.workers| && forall i :: 0 <= i < |s.workers| && s.workers[i].Delivered? ==> s.workers[i].outcome == answers[i]
  }

  /** Two runs of a race over the same answers end alike, whatever the interleaving, unless a caller leaves. */
  lemma InterleavingDoesNotMatter(c: Config<ExchangeResult>, s: State<ExchangeResult>, t: State<ExchangeResult>, answers: seq<ExchangeResult>)
    requires c.stops == IsNoError && Reachable(c, s) && Reachable(c, t)
    requires !s.consumer.Waiting? && !s.consumer.interrupted && !t.consumer.Waiting? && !t.consumer.interrupted
    requires Delivers(s, answers) && Delivers(t, answers)
    ensures SameOutcome(ExchangeVerdict(s.received, false), ExchangeVerdict(t.received, false))
    ensures var v := ExchangeVerdict(s.received, false);
      v.Answer? && IsNoError(v.reply) <==> exists i :: 0 <= i < |answers| && IsNoError(answers[i])
  {
    ExchangeRaceAnswer(c, s);
    ExchangeRaceAnswer(c, t);
    ReachableInv(c, s);
    ReachableInv(c, t);
    var v, w := ExchangeVerdict(s.received, false), ExchangeVerdict(t.received, false);
    if !(v.Answer? && IsNoError(v.reply)) && !(w.Answer? && IsNoError(w.reply)) {
      SameDeliveries(s.workers, t.workers);
      SettledIgnoresOrder(s.received, t.received);
    }
  }

  /** What the workers have delivered is what they make of a lookup before they offer it. */
  ghost predicate WorkersOffer(s: State<LookupResult>) {
    forall i :: 0 <= i < |s.workers| && s.workers[i].Delivered? ==> IsOffered(s.workers[i].outcome)
  }

  /**
   * A lookup race that nobody interrupts fails only after every one of its workers has failed, and one with a worker
   * finds addresses only that a worker delivered; there is at least one.
   */
  lemma LookupRaceAnswer(c: Config<LookupResult>, s: State<LookupResult>)
    requires c.stops == Succeeded && Reachable(c, s) && !s.consumer.Waiting?
    ensures var answer := LookupVerdict(s.received, s.consumer.interrupted);
      && (answer.LookupContextError? ==> s.callerDone)
      && (answer.Found? && c.Total() > 0 ==>
            exists i :: 0 <= i < |s.workers| && s.workers[i].Delivered? && s.workers[i].outcome == Addresses(answer.addrs))
      && (!answer.Found? && !s.consumer.interrupted ==>
            forall i :: 0 <= i < |s.workers| ==> s.workers[i].Delivered? && s.workers[i].outcome.LookupFailed?)
      && (answer.Found? && c.Total() > 0 && WorkersOffer(s) ==> answer.addrs != [])
  {
    ReachableInv(c, s);
    var answer := LookupVerdict(s.received, s.consumer.interrupted);
    FirstIsEarliest(s.received, Succeeded);
    FirstIsEarliest(s.received, HasFailed);
    if answer.Found? && c.Total() > 0 {
      if s.received == [] {
        assert false;
      }
      assert First(s.received, Succeeded).Some?;
      assert Addresses(answer.addrs) in s.received;
      assert Addresses(answer.addrs) in multiset(s.received);
      DeliveredBySomeone(s.workers, Addresses(answer.addrs));
    }
    if !s.consumer.interrupted {
      LeavesForAReason(c, s);
    }
  }
}
