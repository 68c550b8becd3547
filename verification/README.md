# A verified model of the resolver, dialer and routing core

The project models the parts of this sing-box variant in which several things happen at once or in an order
that matters, and proves what they promise. It has no dependencies: `dafny verify dfyconfig.toml` checks it.

| file | component |
|---|---|
| `RaceProtocol.dfy` | the goroutines, channels, contexts and timer of the four DNS racers, as a step machine over any number of workers |
| `RaceOutcome.dfy` | the racers' consumer loops, proved against a verdict on the results they read |
| `DnsRaces.dfy` | both together: the answer of a race over every run of the protocol |
| `RuleWalk.dfy`, `RuleRetry.dfy` | `matchDNS`, the options it accumulates, and the retry loops of `Exchange` and `Lookup` |
| `DnsMessage.dfy`, `ClientSubnet.dfy`, `SubnetInPlace.dfy` | messages, and the EDNS client subnet: its laws, and the code that edits records in place |
| `CacheTtl.dfy` | TTL arithmetic of storing and loading |
| `DnsCache.dfy`, `DnsCacheLaws.dfy` | the caching client, and what holds of it over every interleaving of calls |
| `CacheCompleteness.dfy` | what the client must do: which queries use the cache, which answers are stored, and that they are served |
| `CacheAgreement.dfy` | the cache against the exchange it speeds up |
| `SingleFlight.dfy` | the lock map in front of the cache, as a step machine over any number of calls |
| `RaceGates.dfy` | both together with the rule walk: the gates that the workers of one race come to |
| `RaceOverGates.dfy` | the product of both machines: races whose queries wait at gates |
| `DependencyStart.dfy` | starting outbounds and DNS servers after their dependencies, and the diagnosis of a stuck start |
| `Registration.dfy` | the registration tables of both managers |
| `DialRace.dfy` | the parallel dialers, as a step machine that counts connections |
| `RouteMatch.dfy` | route rule matching and its preview before a connection is accepted |
| `BadVersion.dfy` | version numbers and their two printed forms |

Code that changes state step by step is modelled by methods and classes that are proved against functions; the
properties are lemmas about those functions. Concurrent code is modelled by the atomic steps a scheduler may take
next; the properties hold of every reachable state.

What comes from outside is a parameter: transports and dials are oracles that answer anything at any time and honour
their deadline, rule matching is a fixed answer or a predicate on the metadata, and clocks are numbers. Used as
contracts of libraries: `errors.Is` finds an error inside a joined one, `E.Errors` of nothing is no error, `IsEdns0`
is the last OPT record, `Copy` is deep, `sync.Map.LoadOrStore` is atomic, an unbuffered send and its receive are one step.

## What the code does where one might expect something else

Each of these is a lemma here, with the exact condition wherever a promise fails.

- An exchange race that ends with neither a reply nor an error, for instance because it has no worker, reports
  "rejected (cached)" (`SilenceCountsAsRejected`); a lookup race without workers reports success without an address
  (`LookupSuccessHasAddresses`).
- `Lookup` keeps the error of an attempt that was turned away: a predefined success after it is returned with that
  error (`PredefinedSuccessIsReported`, `PredefinedSuccessWithAnError`).
- A server may be both primary and fallback of a rule. With the independent cache its two queries share a gate, so one
  may wait for the other (`BothRolesShareAGate`), unless they ask for different subnets, as when a legacy server with a
  subnet of its own is one of several primaries and the only fallback (`GatesAreDistinct`, `BothRolesMayHaveTwoGates`).
- The settings of a single legacy primary also go before those of a single legacy fallback, for the fallback's own
  queries (`AttemptSettings`).
- Only the leader of a group of equal queries goes alone: when it stores nothing, the waiters it releases ask the
  transport all at once (`WaitersFetchTogether`, `MissReleasesWaiters`). A waiter let in by a leader that stored may find
  a later response than the leader's (`ReleasedWaiterHits`, `WaiterFindsALaterResponse`).
- A hit consults neither the loopback test nor the store of rejections nor its query's own checker. Where none of them
  would turn the query away it agrees with the exchange it replaces (`HitAgreesWithDirect`, `HitSkipsItsChecker`).
- Attaching a client subnet to a message whose OPT record has none and is not the last additional record adds a second
  OPT record (`SetKeepsOneOpt`, `SecondOptIsAdded`).
- A negative TTL of zero is taken for "no negative TTL", and the answer is cached for the smallest positive TTL
  instead, unlike section 3 of RFC 2308 (`NegativeAnswerTTL`, `NegativeAnswerOfZeroIsCached`).
- The TTL field of the reply's OPT record is rewritten before its version and DO bits are read. When this makes the
  client replace the OPT record and set the DO bit, the replacement changes the entry that was just stored, and loads
  of it give out TTLs that are too large (`LoadTellsRemaining`, `FlaggedEntryOutlivesItself`); from one load to
  the next they may even grow, when a sum that had wrapped no longer does (`FlaggedLoadsGrowWhenTheyUnwrap`).
- A lookup consults the cache before the query strategy may reject its type, `Exchange` after
  (`LookupAgreesWithExchange`, `LookupFindsARejectedType`).
- Removing an item that lists a dependency twice can drop the record of another dependent (`EdgesAfterRemove`, `RunThatLosesARecord`).
- Creating an item anew can leave the replaced object as the default (`DefaultStaysRegistered`,
  `RunThatLeavesAStaleDefault`).
- The DNS manager refuses to promote any server but a fake-IP server when the default is removed; the message says the
  opposite (`Manager.Remove`, `RunThatRefusesAPlainDefault`).
- The outbound diagnosis knows no endpoints: it reports a registered tag as missing exactly when its walk comes to one
  outside its table (`LintReadsTheTrail`, `EndpointIsReportedMissing`).
- Version order is not transitive: rc is after beta and beta after alpha, but rc and alpha are not compared
  (`AfterIsAlmostTransitive`, `CandidateIsNotAfterAlpha`).
- The preview of the route rules does not sniff by the legacy inbound option. It is exact where that option is off, or
  would sniff nothing because the port is one where the server speaks first, the protocol is known, there is nothing
  to sniff, or the last such sniff failed (`PreviewIsExact`). Everywhere else a connection that is identified, and
  resolved if that is asked for, may be one that the preview allows and the full match does not
  (`LegacySniffIsNotPreviewed`).

## Model

| member | source | states |
|---|---|---|
| RaceProtocol.StepInv | dns/router.go:640-790 | every step of a race keeps its invariant: worker times and deadlines, why contexts are cancelled, and that the results read are, as a multiset, those delivered |
| RaceProtocol.ReachableInv | dns/router.go:640-790 | the invariant holds in every state of every run, for any number of primaries and fallbacks |
| RaceProtocol.WaitingIsServed | dns/router.go:640-756 | while the consumer waits and its caller is there, the race is not cancelled and exactly total minus received workers will still offer a result |
| RaceProtocol.SilenceNeedsCancellation | dns/router.go:689-730 | a worker ends without a result only if it is a fallback of a cancelled race, or the consumer has returned |
| RaceProtocol.HedgingTimeline | README.md:146-150 | primaries start at zero and end by upstream timeout plus grace; no fallback starts before the upstream timeout; each ends within the fallback timeout of its own start |
| RaceProtocol.TimesAreGranted | README.md:146-150 | these times are reached: a primary may answer when its grace ends, and a fallback may start at the upstream timeout |
| RaceProtocol.ClockWaitsForDeadlines | dns/router.go:640-730 | the clock may run exactly to the first deadline of a running query |
| RaceProtocol.NoQueryStartsAfterCancel | dns/router.go:689-698 | over any run from a cancelled race, the set of workers that have queried stays as it is |
| RaceProtocol.LeavesForAReason | dns/router.go:740-790 | an uninterrupted consumer leaves with a stopping result, or has heard every worker and none had one |
| RaceProtocol.RunsAreBounded | dns/router.go:640-790 | apart from the clock, a run has no more steps than the measure of its first state |
| RaceProtocol.NeverStuck | dns/router.go:640-790 | in every reachable state that is not over a step of the race is possible, or its timer is running and the clock may advance; after the consumer's return no clock is needed |
| RaceProtocol.DrainsAfterReturn | dns/router.go:640-790 | once the consumer has returned, the race's own steps lead to a state in which all workers and the timer goroutine have ended |
| RaceOutcome.ConsumeExchange | dns/router.go:731-790 | the loop returns the verdict on the results it read and on whether its caller left |
| RaceOutcome.VerdictIsTheBestReceived | README.md:155-157 | the verdict, also of an interrupted race: a reply iff one was received, the earliest NOERROR, else the earliest reply, and the caller's error iff there is none and the caller has left |
| RaceOutcome.ErrorsDecideTheClass | dns/router.go:766-790 | without a reply: rejected (cached) iff no other error, rejected iff no failure and a fresh rejection, else exactly the errors received |
| RaceOutcome.FirstIsEarliest | dns/router.go:752-765 | "first" is the least index that qualifies, and there is none exactly when nothing qualifies |
| RaceOutcome.SettledAnswer | README.md:140-143 | an uninterrupted race returns NOERROR iff a worker answered NOERROR, a response iff there was one, and otherwise the class of all errors |
| RaceOutcome.SettledIgnoresOrder | dns/router.go:740-790 | permuting the arrivals changes neither whether NOERROR is returned nor the class and multiset of errors |
| RaceOutcome.OrderPicksTheReply | dns/router.go:752-757 | which response other than NOERROR is returned does depend on the order |
| RaceOutcome.SilenceCountsAsRejected | dns/router.go:782-785 | a race whose workers return nothing, or that has none, is reported as rejected from the cache |
| RaceOutcome.Offered | dns/router.go:1040-1047 | a lookup worker offers addresses only when it has some; an empty success becomes an error |
| RaceOutcome.ConsumeLookup | dns/router.go:1053-1083 | the loop returns the verdict on the lookups it read and on whether its caller left |
| RaceOutcome.LookupVerdictIsTheBestReceived | dns/router.go:1060-1083 | the verdict, also of an interrupted race: the earliest success, else the earliest failure's error, else the caller's error if it has left |
| RaceOutcome.LookupSuccessHasAddresses | dns/router.go:1060-1083 | a lookup race succeeds without addresses iff it has no worker and is not interrupted |
| DnsRaces.ConsumerReadsTheRun | dns/router.go:740-790 | the results and the exit of the consumer in any run are those of one event per iteration of its loop, so the loop's verdict is the run's |
| DnsRaces.ExchangeRaceAnswer | dns/router.go:731-790 | in every run the answer is a worker's response, and anything but NOERROR is given only after every worker was heard without it, unless the caller left |
| DnsRaces.ExchangeRaceReturnsTheBest | dns/router.go:745-790 | in every run, with a caller who leaves or stays: a reply iff the consumer has read one, the first NOERROR, else the earliest reply, and the caller's error iff it has left before any |
| DnsRaces.LookupRaceReturnsTheBest | dns/router.go:1060-1083 | in every run: the earliest success read, else the earliest failure's error, and the caller's error iff nothing was read |
| DnsRaces.InterleavingDoesNotMatter | dns/router.go:640-1014 | two uninterrupted runs over the same transport answers end alike whatever the interleaving, with NOERROR iff some transport answers NOERROR |
| DnsRaces.LookupRaceAnswer | dns/router.go:792-923 | in every run a found list is what a worker delivered and not empty, and an uninterrupted failure means that every worker failed |
| RuleWalk.SelectServers | dns/router.go:172-226 | the loop picks the usable servers and says whether a registered fake-IP server was named |
| RuleWalk.UsableIsExact | dns/router.go:172-226 | the chosen servers are exactly the registered, allowed ones, each once, in the order in which they are first named, none fake-IP when that is disallowed |
| RuleWalk.LastSetterWins | dns/router.go:270-284 | after a walk each option has the value of the last passed rule that sets it, else its initial value |
| RuleWalk.OptionsAfterWalk | dns/router.go:270-284 | this for every option of a query, and the cache is off iff it was off or some passed rule turned it off |
| RuleWalk.MatchRoute | dns/router.go:168-269 | a route rule matches iff one of its servers is usable, with its overrides, legacy settings and inherited timeouts; otherwise it changes nothing |
| RuleWalk.DecisiveRulesEndWalks | dns/router.go:154-290 | a rule ends the walk iff it matches, fits the query's kind, and rejects, is predefined, or names a server that can be asked |
| RuleWalk.VisitRule | dns/router.go:154-284 | one iteration ends the walk iff the rule is decisive, and otherwise applies its overrides iff it is an eligible route-options rule |
| RuleWalk.MatchDNS | dns/router.go:145-297 | the resumed loop ends at the first such rule after the given one, or at none; it returns exactly the servers and fallbacks that rule names and that can be asked, in order, or the default server alone, or nobody; a rule's timeouts go before the router's; with exactly the options of the rules between |
| RuleRetry.NextWalk | dns/router.go:375-385 | a resumed walk goes on from the rule of the attempt before it and passes no rule that would end a walk |
| RuleRetry.ExchangeLoop | dns/router.go:375-472 | the loop ends at the first accepting rule, or the default, with its reply, after exactly one attempt for each rule turned away before it, in order |
| RuleRetry.AttemptSettings | dns/router.go:407-434 | an attempt asks with the strategy and subnet of its rule, else the accumulated ones, else those of a single legacy primary, else, for fallbacks, of a single legacy fallback, else the default |
| RuleRetry.AttemptCaching | dns/router.go:435-444 | when primary and fallback queries leave the cache alone: by an option, a named fake-IP server, or a race with the global cache; other options are the same in both roles |
| RuleRetry.FakeIPDisablesTheCache | dns/router.go:231-233 | a fake-IP server named in either list, usable or not, keeps both roles' queries away from the cache |
| RuleRetry.DefaultServerIsAsked | dns/router.go:292-296 | when no rule ends a walk the default server is asked, and nobody else |
| RuleRetry.RouteServersAreAsked | dns/router.go:445-453 | an attempt asks exactly the servers of its rule, and the fallback servers iff one can be asked and an upstream timeout is set |
| RuleRetry.DefaultSettings | dns/router.go:292-296 | the same order of settings for the default transport, which is never hedged |
| RuleRetry.GoesOn | dns/router.go:375-472 | when the rules before were turned away, the next decisive rule is turned away too or is the accepted one |
| RuleRetry.AcceptsOne | dns/router.go:375-472 | there is only one such rule |
| RuleRetry.ExchangeRepliesAsTold | dns/router.go:387-404 | dropped, refused, predefined or raced, as the rule says |
| RuleRetry.UnlimitedRulesAreFinal | dns/router.go:468-471 | without address limits an exchange ends at the first rule that ends a walk |
| RuleRetry.AcceptedRaceIsNoRejection | dns/router.go:455-471 | where an exchange ends at a limited rule, its race was not rejected |
| RuleRetry.TurnedAwayByResults | dns/router.go:455-471 | a race is a rejection iff no worker has a reply, and one was rejected or none has failed |
| RuleRetry.LookupLoop | dns/router.go:547-638 | the same for lookups, where any failure under an address limit turns a rule away |
| RuleRetry.LookupReturnsWhatWasFound | dns/router.go:547-638 | a lookup returns the addresses its race found, the race's error, or what a reject or predefined rule says |
| RuleRetry.UnlimitedLookupsAreFinal | dns/router.go:624-630 | without address limits a lookup ends at the first rule that ends a walk, and at a limited rule only with addresses |
| RuleRetry.PredefinedSuccessIsReported | dns/router.go:562-575 | a predefined success is reported without error iff it has an address and no attempt was made before it |
| RuleRetry.PredefinedSuccessWithAnError | dns/router.go:562-575 | two rules and a failing lookup for which the predefined address comes with the earlier error |
| RuleRetry.SubnetPrecedence | README.md:240-295 | an explicit subnet goes before one derived from the inbound peer; the lengths for that come from the query or a rule, else the server, else the global setting |
| RuleRetry.OneCachingWorker | dns/router.go:435-444 | with the global cache at most one worker of an attempt has caching enabled |
| RaceGates.OneWorkerUsesTheCache | dns/router.go:435-444 | so at most one worker of an attempt uses the cache |
| RaceGates.GlobalCacheSharesNoGate | dns/router.go:435-444 | and no two workers of an attempt share a gate |
| RaceGates.GateHoldsAskedSubnet | dns/client.go:205-210 | the key of a worker's gate holds its server and the masked subnet it attaches, else the one that came with the message |
| RaceGates.SharedGateMeansSameServerAndSubnet | dns/client.go:232-247 | with the independent cache two workers that come to a gate share it iff they ask one server for one subnet |
| RaceGates.GatesAreDistinct | dns/router.go:640-790 | with the independent cache no two workers of an attempt share a gate iff no fallback runs, or no server of both roles is asked through the cache for one subnet in both |
| RaceGates.NoWaitingWithoutSharedGate | dns/client.go:217-248 | workers that do not share a gate do not wait for each other in any reachable state of the lock map |
| RaceGates.DisjointServersShareNoGate | dns/router.go:435-444 | with disjoint primary and fallback servers no two workers of an attempt share a gate, with either cache |
| RaceOverGates.ReachableInv | dns/client.go:217-256 | in every run of a race over the lock map both machines run as they do alone |
| RaceOverGates.NeverStuck | dns/client.go:217-256 | no race is stuck at its gates, shared ones included: while it is not over the program can step without anyone giving up, or only the timer is awaited |
| RaceOverGates.RunsAreBounded | dns/router.go:640-790 | apart from the clock and evictions, a race over the lock map takes only so many steps, and seven more for each call that others make |
| RaceGates.BothRolesShareAGate | dns/router.go:196-226 | a rule that names a plain server in both roles makes two workers with one gate |
| RaceGates.BothRolesMayHaveTwoGates | dns/router.go:419-428 | a rule with a server in both roles whose workers all come to gates and share none |
| RuleRetry.HedgingHasAFallbackTimeout | dns/router.go:253-267 | whenever hedging is entered, the inherited fallback timeout is positive |
| ClientSubnet.ExtractAfterSet | dns/extension_edns0_subnet.go:9-90 | extracting after setting yields the masked prefix, or the old subnet exactly when an OPT record follows the one that carried it |
| ClientSubnet.ExtractAfterSetWellFormed | dns/extension_edns0_subnet.go:9-90 | it is the masked prefix for every message with at most one OPT record |
| ClientSubnet.SetKeepsOneOpt | dns/extension_edns0_subnet.go:18-43 | a message with at most one OPT record keeps at most one iff it has none, or it is last, or it already carries a subnet |
| ClientSubnet.SecondOptIsAdded | dns/extension_edns0_subnet.go:18-43 | a message with one OPT record that gets a second one |
| ClientSubnet.SetLeavesTheRest | dns/extension_edns0_subnet.go:33-56 | every other record, option and field stays as and where it was; at most one OPT record is added |
| ClientSubnet.SetWritesTheOption | dns/extension_edns0_subnet.go:44-56 | the option written has the family, prefix length and address of section 6 of RFC 7871, and keeps the scope of one it replaces |
| ClientSubnet.ReadableOptions | dns/extension_edns0_subnet.go:59-90 | an option is read iff its family and length fit, as its leading bits padded with zeros |
| ClientSubnet.SameSubnetSamePrefixBits | dns/client.go:117-148 | two clients get the same subnet iff they agree on the family and on the prefix bits |
| ClientSubnet.FromInbound | dns/client.go:117-148 | a derived subnet is valid and masked |
| ClientSubnet.DerivedSubnet | dns/client.go:117-148 | a client gets a subnet iff a length that fits is set for its family, and then the leading bits of its address |
| SubnetInPlace.Find | dns/extension_edns0_subnet.go:14-32 | the nested search ends with the record and option the specification names |
| SubnetInPlace.SetInPlace | dns/extension_edns0_subnet.go:13-57 | editing the records in place gives the specified message |
| SubnetInPlace.SetClientSubnet | dns/extension_edns0_subnet.go:9-57 | the same on a copy, while no record of the caller's message changes |
| SubnetInPlace.ExtractClientSubnet | dns/extension_edns0_subnet.go:59-90 | the loop reads the first subnet of the last OPT record |
| CacheTtl.SmallestTTL | dns/client.go:363-371 | the loop over the three sections computes the smallest positive TTL |
| CacheTtl.MinPositiveIsSmallest | dns/client.go:363-371 | that value is a TTL of some record and below every positive one, and is zero iff all are |
| CacheTtl.Normalise | dns/client.go:356-378 | all records get one TTL: the rewrite value, else the negative TTL, else the smallest positive TTL |
| CacheTtl.TtlPrecedence | dns/client.go:356-373 | the TTL is the rewrite if there is one, and for an answer the smallest positive TTL of its records |
| CacheTtl.NegativeTTLOfFirstSOA | dns/client.go:103-115 | the negative TTL is the smaller value of the first SOA record, if there is one |
| CacheTtl.NegativeAnswerTTL | dns/client.go:103-115 | a negative answer gets the TTL of section 3 of RFC 2308 iff that is positive or no record has a positive TTL |
| CacheTtl.NegativeAnswerOfZeroIsCached | dns/client.go:356-371 | an answer whose negative TTL is 0 and that is cached for 60 seconds |
| CacheTtl.StoredTTLs | dns/client.go:374-393 | what is stored has one TTL throughout, apart from a replacement OPT record at its end |
| CacheTtl.OptBits | dns/client.go:383-391 | version and DO flag are those bits of an OPT record's TTL that section 6.1.3 of RFC 6891 gives them |
| CacheTtl.ReplyOpt | dns/client.go:383-391 | a reply has an OPT record only if the request has; one of a newer version is replaced by version 0 with its size and DO flag |
| CacheTtl.Age | dns/client.go:567-599 | the loops of a load subtract the time spent in the cache modulo 2^32 |
| CacheTtl.LoadTellsRemaining | dns/client.go:567-599 | a load before expiry gives each data record the whole seconds that remain iff no flags went into the store |
| CacheTtl.FlaggedEntryOutlivesItself | dns/client.go:374-393 | a concrete entry stored for 98304 seconds that is at once served for 163840 |
| CacheTtl.LoadsNeverGrow | dns/client.go:526-601 | over two loads of an entry stored without flags its TTLs do not grow, are at most the stored one and the floor of the time left |
| CacheTtl.FlaggedLoadsGrowWhenTheyUnwrap | dns/client.go:526-601 | over two loads of an entry stored with flags a TTL grows iff its sum has wrapped for the earlier load only |
| DnsCache.Client.LoadResponse | dns/client.go:526-601 | a load returns an unexpired entry aged to now, and removes an expired one |
| DnsCache.Client.Exchange | dns/client.go:186-395 | one call as a function of the cache: its result and the cache afterwards |
| DnsCache.Client.LookupToExchange | dns/client.go:480-513 | a lookup looks into the cache under its own key and then exchanges |
| DnsCacheLaws.KeysAgree | dns/client.go:480-513 | the key and the decision to cache that a lookup computes are those `Exchange` computes from the message |
| DnsCacheLaws.LookupAgreesWithExchange | dns/client.go:480-513 | looking first changes the result iff the strategy rejects the type and the cache has something else than an empty answer |
| DnsCacheLaws.LookupFindsARejectedType | dns/client.go:480-513 | a stored address that a lookup for IPv6 only still returns, while an exchange returns none |
| DnsCacheLaws.GlobalCacheIgnoresSubnets | README.md:298-303 | with the global cache a query that carries a client subnet or another EDNS option neither reads nor writes the cache |
| CacheCompleteness.LookupsUseTheCache | dns/client.go:205-217 | a lookup uses the cache iff it is on, and independent if a subnet is attached |
| CacheCompleteness.OneOptUsesTheCache | dns/client.go:165-184 | a question with one OPT record uses the cache iff that has TTL 0 and no option, or with the independent cache one readable subnet |
| CacheCompleteness.OthersDoNot | dns/client.go:212-217 | other messages never use the cache |
| CacheCompleteness.ExactlyThoseAreStored | dns/client.go:330-381 | an answer is stored iff it is NOERROR or NXDOMAIN, not turned away, and has a positive TTL; until that time |
| CacheCompleteness.StoredAnswersAreServed | dns/client.go:249-254 | over any run that does not disturb it, a stored answer is served to every query with its key iff it has not expired or entries do not expire |
| CacheCompleteness.UnexpiringHitsKeepTTLs | dns/client.go:526-556 | where entries do not expire the hit is the stored answer with its TTLs |
| CacheCompleteness.FreshEntryIsServed | dns/client.go:559-596 | an answer of 60 seconds stored at 10 seconds is served at 11 for another 59 |
| CacheCompleteness.RuledOutTypesGetNothing | dns/client.go:194-199 | a query for a type that its strategy rules out gets an empty answer from neither cache nor transport, for both families, and no other query does |
| CacheCompleteness.NoQuestionIsAnError | dns/client.go:187-192 | a message without a question gets a format error |
| CacheCompleteness.MissedQueriesGet | dns/client.go:257-331 | what a query gets that the cache does not serve: loopback, a known rejection, failure, rejection or the stored message, each with its condition |
| CacheCompleteness.LookupsReport | dns/client.go:499-513 | a lookup returns the answers of a NOERROR message and the rcode of any other |
| DnsCacheLaws.CallsAreRuns | dns/client.go:186-395 | every undisturbed call is a look followed by a conclusion unless the look hits; one with a rejected type leaves the cache alone, and a lookup of such a type looks |
| DnsCacheLaws.RunIsBacked | dns/client.go:379-381 | over any interleaving, every entry was stored by a query for its key that was answered and not turned away |
| DnsCacheLaws.HitsAreIsolated | README.md:298-303 | a hit is an earlier, accepted answer to the same question; with the independent cache from the same transport asked with the same masked subnet; never after expiry |
| DnsCacheLaws.LookupHitsAreIsolated | dns/client.go:515-524 | the same for what a lookup finds by itself |
| DnsCacheLaws.HitTellsRemaining | dns/client.go:526-601 | over any run whose clock does not run backwards, a hit's data records say the whole seconds its answer has left iff no flags were stored with it |
| CacheAgreement.HitContent | dns/client.go:249-254 | a hit is the answer it serves, apart from TTLs and OPT records, under the id of its own query |
| CacheAgreement.HitAgreesWithDirect | dns/client.go:249-331 | for a transport that answers both queries alike, a hit is what the exchange would return, apart from TTLs and OPT records, iff that exchange would not be turned away |
| CacheAgreement.HitsAgree | dns/client.go:249-331 | this of every hit in every run |
| CacheAgreement.HitSkipsItsChecker | dns/client.go:249-254 | a hit for a query whose exchange its checker would reject |
| SingleFlight.StepInv | dns/client.go:218-256 | every step of every call keeps the lock map's invariant |
| SingleFlight.OneLeaderPerKey | dns/client.go:220-231 | at most one live call holds a key, and the map names its gate |
| SingleFlight.LeaderCleansUpItsOwnGate | dns/client.go:228-231 | a leader deletes its own gate, then closes it, once |
| SingleFlight.NoOrphanedWaiter | dns/client.go:221-226 | a waiter's gate is closed, or its owner is on its way and is not waiting itself |
| SingleFlight.ReleasedWaiterHits | dns/client.go:249-254 | a waiter released by a leader that stored finds, unless it was lost, the latest response stored for its key: the leader's iff no later call stored one |
| SingleFlight.OnlyMissesAskTheTransport | dns/client.go:249-257 | a call asks the transport iff its key is not in the cache when it looks |
| SingleFlight.WaiterFindsALaterResponse | dns/client.go:218-256 | a reachable state in which a waiter finds another response than that of the leader who let it in |
| SingleFlight.WaitersFetchTogether | dns/client.go:220-256 | when the leader stored nothing, waiters it releases ask the transport together |
| SingleFlight.MissReleasesWaiters | dns/client.go:220-256 | such a state is reached by three calls of which the first may not cache its answer |
| SingleFlight.NeverStuck | dns/client.go:218-248 | while a call is unfinished some call can step without anyone giving up |
| SingleFlight.CallsAreBounded | dns/client.go:218-256 | calls take at most seven steps for each call that has arrived |
| DependencyStart.StartAll | dns/transport_manager.go:77-133 | the start succeeds iff every dependency is there, no dependency walk is a cycle and every item starts; it ends with a failed start iff an item that does not start is in every closed set; starts are in dependency order, each once, and all but the failed one worked; other reports are truthful |
| DependencyStart.StartRound | adapter/outbound/manager.go:93-135 | a pass that starts nothing leaves nothing that could be started |
| DependencyStart.OrderIsLeast | dns/transport_manager.go:77-110 | what is started is contained in every closed set |
| DependencyStart.StartedSetIgnoresListOrder | dns/transport_manager.go:77-110 | the set started when nothing more can be does not depend on the order of the list |
| DependencyStart.EverythingStarted | dns/transport_manager.go:77-110 | when all have started, no dependency is missing and there is no cycle |
| DependencyStart.SomethingStuck | dns/transport_manager.go:105-131 | a stuck item means a missing dependency or a cycle |
| DependencyStart.Lint | dns/transport_manager.go:114-130 | the diagnosis ends; a circular report is a walk that closes a cycle; a missing dependency is a real edge to a tag not in the table |
| DependencyStart.MissingIsUnregistered | dns/transport_manager.go:114-130 | with a complete table it is registered nowhere |
| DependencyStart.LintReadsTheTrail | adapter/outbound/manager.go:139-155 | the report is what the walk of first unstarted dependencies says iff the walk stays inside the table; it calls a registered tag missing iff the walk comes to one outside |
| DependencyStart.InnerDependenciesAreDiagnosed | adapter/outbound/manager.go:139-155 | when nothing depends on a registered tag outside the table, the report is that walk's and a missing dependency is registered nowhere |
| DependencyStart.EndpointIsReportedMissing | adapter/outbound/manager.go:148-152 | an outbound and an endpoint that need each other, of which the endpoint is reported as missing |
| Registration.Manager.Create | dns/transport_manager.go:236-291 | list and map stay in bijection, edges stay recorded, and the failures that leave the tables alone are exactly the early ones; the new default, the new fake-IP server and the error are stated |
| Registration.Manager.Remove | adapter/outbound/manager.go:206-248 | list and map stay in bijection even when removal is refused; the new default, dependents and error are stated, and edges stay recorded iff none is lost |
| Registration.Manager.EnsureDefault | adapter/outbound/manager.go:51-79 | a start that succeeds has a default, and its own outbound is added to empty tables only |
| Registration.Manager.Unlist | dns/transport_manager.go:196-202 | the index of a registered item is found and exactly that item is taken out |
| Registration.EdgesAdded | adapter/outbound/manager.go:285-288 | creating an item records each of its dependencies and loses no record |
| Registration.RecordAfterDrop | adapter/outbound/manager.go:234-243 | what is left of a dependency's record, by how often it was listed |
| Registration.EdgesAfterRemove | adapter/outbound/manager.go:234-243 | removal keeps every other item's edges recorded iff no dependency listed twice has exactly one other dependent |
| Registration.RunThatLosesARecord | adapter/outbound/manager.go:206-296 | three creations and a removal after which an item's dependency has nobody recorded |
| Registration.DefaultStaysRegistered | adapter/outbound/manager.go:268-294 | a default in the list is in it after a creation iff the new item has another tag, or has the default tag and is not a fake-IP server |
| Registration.RunThatLeavesAStaleDefault | adapter/outbound/manager.go:250-296 | two creations of one tag after which the default is an object that is not in the list |
| Registration.RunThatRefusesAPlainDefault | dns/transport_manager.go:204-209 | two creations and a removal after which a DNS manager has refused a plain server and keeps a removed default |
| DialRace.StepInv | common/dialer/default_parallel_interface.go:16-88 | every step of a dial keeps its invariant |
| DialRace.ConnectionsAreConserved | common/dialer/default_parallel_interface.go:34-54 | every connection opened is the one returned, is on its way, or was closed; at the end only the returned one is open |
| DialRace.LostMeansAllFailed | common/dialer/default_parallel_network.go:97-128 | an error is returned iff every attempt, fallbacks included, was made and failed |
| DialRace.FallbacksLaunchTogether | common/dialer/default_parallel_interface.go:60-86 | the fallback group is launched as a whole, after the delay or a primary's failure, and cannot be launched again |
| DialRace.FailureBringsFallbacksForward | common/dialer/default_parallel_interface.go:81-83 | once a primary has failed, the fallbacks have been launched or may be at once |
| DialRace.DelayBringsFallbacks | common/dialer/default_parallel_interface.go:60-86 | without a failure they may dial as soon as the delay has passed |
| DialRace.LaunchedAtMostOnce | common/dialer/default_parallel_interface.go:55-86 | every run launches it at most once, and never without a timer |
| DialRace.WaitingIsServed | common/dialer/default_parallel_interface.go:69-87 | while the caller waits an attempt is under way or the timer is armed or has fired |
| DialRace.NeverStuck | common/dialer/default_parallel_network.go:86-129 | a dial that is not over can step or waits for its timer |
| DialRace.RunsAreBounded | common/dialer/default_parallel_interface.go:90-151 | apart from the clock, a dial has no more steps than the measure of its first state |
| RouteMatch.ActionSniff | route/route.go:498-519 | the guards of a sniff: when one holds nothing is sniffed and the metadata stay as they are |
| RouteMatch.SkippedSniffs | route/route.go:502-518 | which sniffs are skipped, by port, protocol, kind of connection and earlier failure |
| RouteMatch.ActionResolve | route/route.go:695-720 | a resolution that works sets addresses and use, and one that fails or is not needed changes nothing |
| RouteMatch.FakeAddressIsNamed | route/route.go:315-329 | a fake address becomes the name it stands for, with the port kept, or an error if the name is lost |
| RouteMatch.OtherDestinationStays | route/route.go:330-341 | any other destination stays, with the domain of the reverse mapping if it has none |
| RouteMatch.LegacyWithoutSniff | route/route.go:344-372 | what the legacy options resolve, set and reset when they do not sniff |
| RouteMatch.LegacyWithSniff | route/route.go:344-372 | when they sniff, a failed sniff ends the match, and otherwise the rest happens to what was found |
| RouteMatch.MatchRule | route/route.go:277-496 | the loop's selection, error and edited metadata are those of the specification |
| RouteMatch.FirstFinalRuleIsSelected | route/route.go:374-496 | the rule selected is the first that matches at its turn with a final action, if nothing before it failed; the match fails at the first failure that does not fall back; the metadata are those the passed rules left |
| RouteMatch.MatchSelectsFirstFinalRule | route/route.go:277-496 | the same of a whole match |
| RouteMatch.FirstMatchIsSelected | route/route.go:374-496 | with final actions only, the least matching index is selected |
| RouteMatch.DestinationAfterActions | route/route.go:405-424 | after any sequence of route actions the destination from before the first override is kept, and without an override the destination is unchanged |
| RouteMatch.TargetAfterActions | route/route.go:410-424 | the port, and the address with its name, are those of the last action to override them; an overridden address drops the resolved ones |
| RouteMatch.NetworkAfterActions | route/route.go:425-449 | each network setting is that of the last action to set it, else unchanged; the TLS delay belongs to the last action that fragments |
| RouteMatch.FlagsStayOn | route/route.go:437-452 | a flag is on iff it was on or some action switched it on |
| RouteMatch.PreMatch | route/route.go:262-275 | the preview, which works on a copy of the metadata, rejects iff the rule it selects is a reject rule |
| RouteMatch.PassesAgree | route/route.go:374-496 | the passes agree until a sniff rule matches; there the preview stops |
| RouteMatch.PreviewIsExact | route/route.go:262-496 | unless the legacy option sniffs, the preview rejects by a rule iff the full match selects that rule without having met a sniff rule, with equal metadata, and likewise for errors |
| RouteMatch.LegacySniffIsNotPreviewed | route/route.go:344-367 | for every connection that the legacy option sniffs, that is identified, and whose own resolution works if asked for, there are a sniffer and a rule for which the preview allows what the full match rejects, or fails by its resolver; nothing else is replaced |
| RouteMatch.IdleLegacySniffIsPreviewed | common/sniff/sniff.go:25-39 | on ports where the server speaks first, or with a known protocol, both passes agree on rules without a sniff action |
| BadVersion.ParseVersion | common/badversion/version.go:86-124 | parsing field by field gives the version of the specification |
| BadVersion.BuildBadString | common/badversion/version.go:72-84 | the extended string is the short form |
| BadVersion.ParsedIsWellFormed | common/badversion/version.go:86-124 | whatever is parsed has no negative number, and an identifier without '-' and '.' |
| BadVersion.RoundTrip | common/badversion/version.go:64-124 | parsing the printed form gives a version back iff it has no commit, natural numbers, a plain identifier, and no pre-release number without one |
| BadVersion.LeadingVIsDropped | common/badversion/version.go:87-89 | a leading "v" makes no difference |
| BadVersion.CommitIsRead | common/badversion/version.go:94-112 | a suffix that is no pre-release is the commit |
| BadVersion.VersionTexts | common/badversion/version.go:64-84 | both printed forms of some versions, letter by letter |
| BadVersion.ShortRoundTrip | common/badversion/version.go:72-124 | parsing the short form gives it back iff moreover its identifier is empty, "alpha" or "beta" |
| BadVersion.AfterIsAlmostTransitive | common/badversion/version.go:19-58 | the order is asymmetric, and transitive except from rc over beta to alpha of one version |
| BadVersion.AfterIsLexicographic | common/badversion/version.go:19-58 | numbers first, then a release over its pre-releases, then the pre-release number |
| BadVersion.CandidateIsNotAfterAlpha | common/badversion/version.go:46-55 | three version texts of that chain |

## Left out

- Transports, sockets, sniffing, TLS, connection copying and packet NAT: input and output; queries and dials are oracles.
- `freelru`, `sync.Map`, wire packing and `netip`: libraries, used by their contracts. Eviction is a step that may happen at any time.
- Client: the two caches of the client are one map whose key depends on the configuration; the stored pointer is modelled by the message as it is after its last edit, so a load that runs between the store and the edits is not covered.
- Client: remaining seconds are exact, while the source goes through a floating-point number of seconds.
- Client: HTTPS hint filtering, saving rejections, reverse mapping and the parallel A and AAAA queries of `Lookup` do not feed the properties.
- Exchange and Lookup of the router: the path with a fixed transport and the final fix-ups of a response are left out; a reject method other than the default and drop does not exist in the configuration.
- SetClientSubnet: OPT records are objects, but the subnet option inside one is a value; aliasing of option objects is not captured.
- SetInPlace: its caller owns the records (no record is listed twice), which the copy made before it guarantees.
- MatchDNS: the options pointer is an argument and part of the result.
- RaceOverGates: which calls others make, and when an entry goes, is left open; a query whose context ends at its gate gives up at any time.
- HedgingTimeline: a query that ignores its context is not covered.
- Registration: one class with a kind models both managers; `Close`, which empties the list but not the map, ends a run and is not modelled.
- Manager.Create: an object that was registered with stages to start is one that starts or fails as a whole.
- DependencyStart: items are values with a flag for whether their own start succeeds; the starts of later stages are plain loops.
- DialRace: choosing interfaces, serial dialing and packet listening only add easy members; resetting the fast-fallback time and the `primary` flag of the result are left out.
- RouteMatch: rule internals, the rule cache, the sniffers themselves, buffers and logging; the preview and the full match see the same oracles and the same context.
- After: versions are compared as the source does; no total order is claimed.
