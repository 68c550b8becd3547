/**
 * Route rule matching (route/route.go): `matchRule`, and `PreMatch`, which runs the same loop before the
 * connection exists. Rule matching, sniffing, name resolution and the fake-IP and reverse stores are oracles.
 */
module RouteMatch {
  import opened Optional

  /** A destination: an address, or a name to be resolved. */
  datatype Destination = Destination(fqdn: string, addr: Option<nat>, port: nat)

  /** The deprecated inbound options; strategy 0 leaves names unresolved. */
  datatype InboundOptions = InboundOptions(sniffEnabled: bool, strategy: nat, udpDisableDomainUnmapping: bool)

  /** What the last sniff has left. */
  datatype SniffError = NoSniffError | NeedMoreData | SniffFailed

  datatype Metadata = Metadata(
    destination: Destination,
    originDestination: Option<Destination>,
    routeOriginalDestination: Option<Destination>,
    domain: string,
    protocol: string,
    snifferNames: seq<string>,
    sniffError: SniffError,
    ipVersion: nat,
    fakeIP: bool,
    processInfo: Option<nat>,
    inboundOptions: InboundOptions,
    destinationAddresses: seq<nat>,
    resolveRouteOnly: bool,
    networkStrategy: Option<nat>,
    networkType: seq<nat>,
    fallbackNetworkType: seq<nat>,
    fallbackDelay: nat,
    udpDisableDomainUnmapping: bool,
    udpConnect: bool,
    udpTimeout: nat,
    tlsFragment: bool,
    tlsFragmentFallbackDelay: nat,
    tlsRecordFragment: bool)

  datatype RouteOptions = RouteOptions(
    overrideAddress: Option<Destination>,
    overridePort: nat,
    networkStrategy: Option<nat>,
    networkType: seq<nat>,
    fallbackNetworkType: seq<nat>,
    fallbackDelay: nat,
    udpDisableDomainUnmapping: bool,
    udpConnect: bool,
    udpTimeout: nat,
    tlsFragment: bool,
    tlsFragmentFallbackDelay: nat,
    tlsRecordFragment: bool)

  datatype Resolver = Resolver(server: string, strategy: nat, routeOnly: bool, fallbackToFinal: bool)

  /** The sniffers an action names; it has stream sniffers, packet sniffers, both or neither. */
  datatype Sniffers = Sniffers(names: seq<string>, stream: bool, packet: bool)

  /** What the deprecated inbound option sniffs with. */
  const LEGACY_SNIFFERS := Sniffers([], false, false)

  datatype Action =
    | Route(options: RouteOptions)
    | OnlyOptions(options: RouteOptions)
    | Direct
    | Reject
    | HijackDNS
    | Sniff(sniffers: Sniffers)
    | Resolve(resolver: Resolver)

  datatype Rule = Rule(matches: Metadata -> bool, action: Action)

  datatype Error = ServerNotFound | MissingFakeIPRecord | OtherError(code: nat)

  datatype Resolution = NotAName | Resolved(addresses: seq<nat>) | ResolveFailed(error: Error)

  /** What there is to sniff. */
  datatype Connection = Stream | Packets | NoConnection

  /** What the surroundings answer. */
  datatype World = World(
    connection: Connection,
    process: Metadata -> Option<nat>,
    ipVersion: nat -> nat,
    isFakeIP: nat -> bool,
    fakeIPName: nat -> Option<string>,
    reverseName: Option<nat> -> Option<string>,
    sniff: (Metadata, Sniffers) -> (Metadata, Option<Error>),
    resolve: (Metadata, Resolver) -> Resolution,
    contextDone: bool)

  // ---------------------------------------------------------------- the steps of matchRule

  function ApplyResolution(m: Metadata, r: Resolver, resolution: Resolution): Metadata {
    if resolution.Resolved? then m.(destinationAddresses := resolution.addresses, resolveRouteOnly := r.routeOnly) else m
  }

  /** The destination after a route or route-options action; the first one replaced is kept. */
  function Overridden(m: Metadata, o: RouteOptions): Metadata {
    var overridden := o.overrideAddress.Some? || o.overridePort > 0;
    var origin := if overridden && m.routeOriginalDestination.None? then Some(m.destination) else m.routeOriginalDestination;
    var address := if o.overrideAddress.Some? then o.overrideAddress.value.(port := m.destination.port) else m.destination;
    m.(routeOriginalDestination := origin,
       destination := if o.overridePort > 0 then address.(port := o.overridePort) else address,
       destinationAddresses := if o.overrideAddress.Some? then [] else m.destinationAddresses)
  }

  function WithNetwork(m: Metadata, o: RouteOptions): Metadata {
    m.(networkStrategy := if o.networkStrategy.Some? then o.networkStrategy else m.networkStrategy,
       networkType := if o.networkType != [] then o.networkType else m.networkType,
       fallbackNetworkType := if o.fallbackNetworkType != [] then o.fallbackNetworkType else m.fallbackNetworkType,
       fallbackDelay := if o.fallbackDelay != 0 then o.fallbackDelay else m.fallbackDelay)
  }

  function WithTransport(m: Metadata, o: RouteOptions): Metadata {
    m.(udpDisableDomainUnmapping := m.udpDisableDomainUnmapping || o.udpDisableDomainUnmapping,
       udpConnect := m.udpConnect || o.udpConnect,
       udpTimeout := if o.udpTimeout > 0 then o.udpTimeout else m.udpTimeout,
       tlsFragment := m.tlsFragment || o.tlsFragment,
       tlsFragmentFallbackDelay := if o.tlsFragment then o.tlsFragmentFallbackDelay else m.tlsFragmentFallbackDelay,
       tlsRecordFragment := m.tlsRecordFragment || o.tlsRecordFragment)
  }

  /** What a route or route-options action makes of the metadata. */
  function ApplyOptions(m: Metadata, o: RouteOptions): Metadata {
    WithTransport(WithNetwork(Overridden(m, o), o), o)
  }

  // ---------------------------------------------------------------- what a sequence of actions leaves

  function ApplyAll(m: Metadata, actions: seq<RouteOptions>): Metadata {
    if actions == [] then m else ApplyOptions(ApplyAll(m, actions[..|actions| - 1]), actions[|actions| - 1])
  }

  predicate IsLast(actions: seq<RouteOptions>, isSet: RouteOptions -> bool, k: nat)
    requires k < |actions|
  {
    isSet(actions[k]) && forall j :: k < j < |actions| ==> !isSet(actions[j])
  }

  /** The last action that sets something decides it; without one it stays as it was. */
  predicate LastDecides<T(==)>(actions: seq<RouteOptions>, isSet: RouteOptions -> bool, get: RouteOptions -> T, initial: T, value: T) {
    || (exists k :: 0 <= k < |actions| && IsLast(actions, isSet, k) && value == get(actions[k]))
    || ((forall k :: 0 <= k < |actions| ==> !isSet(actions[k])) && value == initial)
  }

  lemma OneMoreAction<T>(actions: seq<RouteOptions>, isSet: RouteOptions -> bool, get: RouteOptions -> T, initial: T, before: T)
    requires actions != [] && LastDecides(actions[..|actions| - 1], isSet, get, initial, before)
    ensures var last := actions[|actions| - 1];
      LastDecides(actions, isSet, get, initial, if isSet(last) then get(last) else before)
  {
    var n := |actions| - 1;
    var front := actions[..n];
    assert forall k :: 0 <= k < n ==> front[k] == actions[k];
    if isSet(actions[n]) {
      assert IsLast(actions, isSet, n);
    } else if k :| 0 <= k < n && IsLast(front, isSet, k) && before == get(front[k]) {
      assert IsLast(actions, isSet, k);
    }
  }

  lemma {:induction false} LastActionDecides<T>(m: Metadata, actions: seq<RouteOptions>, isSet: RouteOptions -> bool, get: RouteOptions -> T, field: Metadata -> T)
    requires forall n: Metadata, o: RouteOptions :: field(ApplyOptions(n, o)) == if isSet(o) then get(o) else field(n)
    ensures LastDecides(actions, isSet, get, field(m), field(ApplyAll(m, actions)))
  {
    if actions != [] {
      var front := actions[..|actions| - 1];
      LastActionDecides(m, front, isSet, get, field);
      OneMoreAction(actions, isSet, get, field(m), field(ApplyAll(m, front)));
    }
  }

  predicate ChangesDestination(o: RouteOptions) {
    o.overrideAddress.Some? || o.overridePort > 0
  }

  predicate SomeAction(actions: seq<RouteOptions>, p: RouteOptions -> bool) {
    exists k :: 0 <= k < |actions| && p(actions[k])
  }

  lemma DestinationAfterOne(m: Metadata, o: RouteOptions)
    ensures ApplyOptions(m, o).routeOriginalDestination ==
      if m.routeOriginalDestination.Some? then m.routeOriginalDestination else if ChangesDestination(o) then Some(m.destination) else None
    ensures !ChangesDestination(o) ==> ApplyOptions(m, o).destination == m.destination
  {
  }

  /**
   * The destination after any sequence of actions: the one from before the first override is kept, and without an
   * override it is the one that it was.
   */
  lemma {:induction false} DestinationAfterActions(m: Metadata, actions: seq<RouteOptions>)
    ensures ApplyAll(m, actions).routeOriginalDestination ==
      if m.routeOriginalDestination.Some? then m.routeOriginalDestination
      else if SomeAction(actions, ChangesDestination) then Some(m.destination) else None
    ensures !SomeAction(actions, ChangesDestination) ==> ApplyAll(m, actions).destination == m.destination
  {
    if actions != [] {
      var n := |actions| - 1;
      DestinationAfterActions(m, actions[..n]);
      DestinationAfterOne(ApplyAll(m, actions[..n]), actions[n]);
      assert forall k :: 0 <= k < n ==> actions[..n][k] == actions[k];
    }
  }

  /** Where the connection goes after the actions: each part is decided by the last action that overrides it. */
  lemma TargetAfterActions(m: Metadata, actions: seq<RouteOptions>)
    ensures var r := ApplyAll(m, actions);
      && LastDecides(actions, (o: RouteOptions) => o.overridePort > 0, (o: RouteOptions) => o.overridePort, m.destination.port, r.destination.port)
      && LastDecides(actions, (o: RouteOptions) => o.overrideAddress.Some?, (o: RouteOptions) => o.overrideAddress.GetOr(m.destination).fqdn,
                     m.destination.fqdn, r.destination.fqdn)
      && LastDecides(actions, (o: RouteOptions) => o.overrideAddress.Some?, (o: RouteOptions) => o.overrideAddress.GetOr(m.destination).addr,
                     m.destination.addr, r.destination.addr)
      && r.destinationAddresses == (if SomeAction(actions, (o: RouteOptions) => o.overrideAddress.Some?) then [] else m.destinationAddresses)
  {
    LastActionDecides(m, actions, (o: RouteOptions) => o.overridePort > 0, (o: RouteOptions) => o.overridePort, (n: Metadata) => n.destination.port);
    LastActionDecides(m, actions, (o: RouteOptions) => o.overrideAddress.Some?,
                      (o: RouteOptions) => o.overrideAddress.GetOr(m.destination).fqdn, (n: Metadata) => n.destination.fqdn);
    LastActionDecides(m, actions, (o: RouteOptions) => o.overrideAddress.Some?,
                      (o: RouteOptions) => o.overrideAddress.GetOr(m.destination).addr, (n: Metadata) => n.destination.addr);
    LastActionDecides(m, actions, (o: RouteOptions) => o.overrideAddress.Some?, (o: RouteOptions) => [], (n: Metadata) => n.destinationAddresses);
  }

  /** The network settings after the actions; the TLS delay belongs to the last action that fragments. */
  lemma NetworkAfterActions(m: Metadata, actions: seq<RouteOptions>)
    ensures var r := ApplyAll(m, actions);
      && LastDecides(actions, (o: RouteOptions) => o.networkStrategy.Some?, (o: RouteOptions) => o.networkStrategy, m.networkStrategy, r.networkStrategy)
      && LastDecides(actions, (o: RouteOptions) => o.networkType != [], (o: RouteOptions) => o.networkType, m.networkType, r.networkType)
      && LastDecides(actions, (o: RouteOptions) => o.fallbackNetworkType != [], (o: RouteOptions) => o.fallbackNetworkType,
                     m.fallbackNetworkType, r.fallbackNetworkType)
      && LastDecides(actions, (o: RouteOptions) => o.fallbackDelay != 0, (o: RouteOptions) => o.fallbackDelay, m.fallbackDelay, r.fallbackDelay)
      && LastDecides(actions, (o: RouteOptions) => o.udpTimeout > 0, (o: RouteOptions) => o.udpTimeout, m.udpTimeout, r.udpTimeout)
      && LastDecides(actions, (o: RouteOptions) => o.tlsFragment, (o: RouteOptions) => o.tlsFragmentFallbackDelay,
                     m.tlsFragmentFallbackDelay, r.tlsFragmentFallbackDelay)
  {
    LastActionDecides(m, actions, (o: RouteOptions) => o.networkStrategy.Some?, (o: RouteOptions) => o.networkStrategy, (n: Metadata) => n.networkStrategy);
    LastActionDecides(m, actions, (o: RouteOptions) => o.networkType != [], (o: RouteOptions) => o.networkType, (n: Metadata) => n.networkType);
    LastActionDecides(m, actions, (o: RouteOptions) => o.fallbackNetworkType != [], (o: RouteOptions) => o.fallbackNetworkType,
                      (n: Metadata) => n.fallbackNetworkType);
    LastActionDecides(m, actions, (o: RouteOptions) => o.fallbackDelay != 0, (o: RouteOptions) => o.fallbackDelay, (n: Metadata) => n.fallbackDelay);
    LastActionDecides(m, actions, (o: RouteOptions) => o.udpTimeout > 0, (o: RouteOptions) => o.udpTimeout, (n: Metadata) => n.udpTimeout);
    LastActionDecides(m, actions, (o: RouteOptions) => o.tlsFragment, (o: RouteOptions) => o.tlsFragmentFallbackDelay,
                      (n: Metadata) => n.tlsFragmentFallbackDelay);
  }

  lemma {:induction false} FlagStaysOn(m: Metadata, actions: seq<RouteOptions>, flag: RouteOptions -> bool, field: Metadata -> bool)
    requires forall n: Metadata, o: RouteOptions :: field(ApplyOptions(n, o)) <==> field(n) || flag(o)
    ensures field(ApplyAll(m, actions)) <==> field(m) || SomeAction(actions, flag)
  {
    if actions != [] {
      var n := |actions| - 1;
      FlagStaysOn(m, actions[..n], flag, field);
      assert forall k :: 0 <= k < n ==> actions[..n][k] == actions[k];
    }
  }

  /** A flag that an action has switched on stays on. */
  lemma FlagsStayOn(m: Metadata, actions: seq<RouteOptions>)
    ensures var r := ApplyAll(m, actions);
      && (r.udpDisableDomainUnmapping <==> m.udpDisableDomainUnmapping || SomeAction(actions, (o: RouteOptions) => o.udpDisableDomainUnmapping))
      && (r.udpConnect <==> m.udpConnect || SomeAction(actions, (o: RouteOptions) => o.udpConnect))
      && (r.tlsFragment <==> m.tlsFragment || SomeAction(actions, (o: RouteOptions) => o.tlsFragment))
      && (r.tlsRecordFragment <==> m.tlsRecordFragment || SomeAction(actions, (o: RouteOptions) => o.tlsRecordFragment))
  {
    FlagStaysOn(m, actions, (o: RouteOptions) => o.udpDisableDomainUnmapping, (n: Metadata) => n.udpDisableDomainUnmapping);
    FlagStaysOn(m, actions, (o: RouteOptions) => o.udpConnect, (n: Metadata) => n.udpConnect);
    FlagStaysOn(m, actions, (o: RouteOptions) => o.tlsFragment, (n: Metadata) => n.tlsFragment);
    FlagStaysOn(m, actions, (o: RouteOptions) => o.tlsRecordFragment, (n: Metadata) => n.tlsRecordFragment);
  }

  // ---------------------------------------------------------------- sniffing

  /** Ports of protocols in which the server speaks first: SMTP, IMAP and POP3. */
  const SERVER_FIRST := {25, 110, 143, 465, 587, 993, 995}

  /** actionSniff returns at once, with the metadata untouched. */
  predicate SkipsSniff(w: World, m: Metadata, a: Sniffers) {
    || m.destination.port in SERVER_FIRST
    || m.protocol != ""
    || w.connection.NoConnection?
    || (w.connection.Stream? && !a.stream && a.packet)
    || (w.connection.Packets? && !a.packet && a.stream)
    || (m.snifferNames == a.names && m.sniffError.SniffFailed?)
  }

  function RunSniff(w: World, m: Metadata, a: Sniffers): (Metadata, Option<Error>) {
    if SkipsSniff(w, m, a) then (m, None) else w.sniff(m, a)
  }

  /** Where a match ends; `sniffed` says that a sniff rule has matched, or that the legacy option has sniffed. */
  datatype Outcome = Outcome(metadata: Metadata, selected: Option<nat>, fatal: Option<Error>, sniffed: bool)

  const NO_INBOUND_OPTIONS := InboundOptions(false, 0, false)

  /** Nothing has changed that decides whether the legacy option sniffs. */
  predicate KeepsSniffState(m: Metadata, r: Metadata) {
    && r.inboundOptions == m.inboundOptions && r.destination.port == m.destination.port
    && r.protocol == m.protocol && r.snifferNames == m.snifferNames && r.sniffError == m.sniffError
  }

  function WithProcess(w: World, m: Metadata): (r: Metadata)
    ensures KeepsSniffState(m, r)
  {
    if m.processInfo.None? then m.(processInfo := w.process(m)) else m
  }

  function WithIPVersion(w: World, m: Metadata): (r: Metadata)
    ensures KeepsSniffState(m, r)
  {
    if m.destination.addr.Some? then m.(ipVersion := w.ipVersion(m.destination.addr.value)) else m
  }

  /** A fake address is replaced by the name it stands for. */
  function Unmasked(m: Metadata, name: string): (r: Metadata)
    ensures KeepsSniffState(m, r)
  {
    if name == "" then m
    else m.(originDestination := Some(m.destination), destination := Destination(name, None, m.destination.port), fakeIP := true)
  }

  function WithDomain(m: Metadata, name: Option<string>): (r: Metadata)
    ensures KeepsSniffState(m, r)
  {
    if m.domain == "" && name.Some? then m.(domain := name.value) else m
  }

  /** Names found for the destination before any rule is looked at. */
  function Identify(w: World, m: Metadata): (Metadata, Option<Error>) {
    var known := WithProcess(w, m);
    var addr := known.destination.addr;
    if addr.Some? && w.isFakeIP(addr.value) then
      match w.fakeIPName(addr.value)
      case None => (known, Some(MissingFakeIPRecord))
      case Some(name) => (WithIPVersion(w, Unmasked(known, name)), None)
    else (WithIPVersion(w, WithDomain(known, w.reverseName(addr))), None)
  }

  /** What the deprecated inbound options do after their sniff. */
  function FinishLegacy(w: World, m: Metadata, o: InboundOptions, sniffed: bool): Outcome {
    var resolver := Resolver("", o.strategy, false, false);
    var resolution := if o.strategy != 0 then w.resolve(m, resolver) else NotAName;
    if resolution.ResolveFailed? then Outcome(m, None, Some(resolution.error), sniffed)
    else
      var m' := ApplyResolution(m, resolver, resolution);
      Outcome(m'.(udpDisableDomainUnmapping := m'.udpDisableDomainUnmapping || o.udpDisableDomainUnmapping, inboundOptions := NO_INBOUND_OPTIONS),
              None, None, sniffed)
  }

  /** The deprecated inbound options, which run a sniff and a resolution of their own. */
  function Legacy(w: World, m: Metadata, preMatch: bool): Outcome {
    var o := m.inboundOptions;
    if o == NO_INBOUND_OPTIONS then Outcome(m, None, None, false)
    else if preMatch || !o.sniffEnabled || SkipsSniff(w, m, LEGACY_SNIFFERS) then FinishLegacy(w, m, o, false)
    else
      var (sniffed, error) := w.sniff(m, LEGACY_SNIFFERS);
      if error.Some? then Outcome(sniffed, None, error, true) else FinishLegacy(w, sniffed, o, true)
  }

  /** The loop over the rules from index `i` on. */
  function MatchFrom(w: World, rules: seq<Rule>, i: nat, m: Metadata, sniffed: bool, preMatch: bool): Outcome
    requires i <= |rules|
    decreases |rules| - i
  {
    if i == |rules| then Outcome(m, None, None, sniffed)
    else if !rules[i].matches(m) then MatchFrom(w, rules, i + 1, m, sniffed, preMatch)
    else
      match rules[i].action
      case Route(options) => Outcome(ApplyOptions(m, options), Some(i), None, sniffed)
      case OnlyOptions(options) => MatchFrom(w, rules, i + 1, ApplyOptions(m, options), sniffed, preMatch)
      case Direct => MatchFrom(w, rules, i + 1, m, sniffed, preMatch)
      case Reject => Outcome(m, Some(i), None, sniffed)
      case HijackDNS => Outcome(m, Some(i), None, sniffed)
      case Sniff(sniffers) =>
        if preMatch then Outcome(m, Some(i), None, sniffed)
        else
          var (m', error) := RunSniff(w, m, sniffers);
          if error.Some? then Outcome(m', None, error, true) else MatchFrom(w, rules, i + 1, m', true, preMatch)
      case Resolve(resolver) =>
        var resolution := w.resolve(m, resolver);
        if resolution.ResolveFailed? then
          if resolver.fallbackToFinal && !w.contextDone && !resolution.error.ServerNotFound? then
            Outcome(m.(destinationAddresses := [], resolveRouteOnly := false), None, None, sniffed)
          else Outcome(m, None, Some(resolution.error), sniffed)
        else MatchFrom(w, rules, i + 1, ApplyResolution(m, resolver, resolution), sniffed, preMatch)
  }

  function Match(w: World, rules: seq<Rule>, m: Metadata, preMatch: bool): Outcome {
    var (identified, error) := Identify(w, m);
    if error.Some? then Outcome(identified, None, error, false)
    else
      var ready := Legacy(w, identified, preMatch);
      if ready.fatal.Some? then ready else MatchFrom(w, rules, 0, ready.metadata, ready.sniffed, preMatch)
  }

  // ---------------------------------------------------------------- the router's methods

  /** The connection's metadata, which matching edits in place. */
  class InboundContext {
    var metadata: Metadata

    constructor (metadata: Metadata)
      ensures this.metadata == metadata
    {
      this.metadata := metadata;
    }
  }

  /** actionSniff up to the sniffers themselves. */
  method ActionSniff(w: World, ctx: InboundContext, a: Sniffers) returns (fatal: Option<Error>, ran: bool)
    modifies ctx
    ensures (ctx.metadata, fatal) == RunSniff(w, old(ctx.metadata), a)
    ensures ran <==> !SkipsSniff(w, old(ctx.metadata), a)
  {
    var m := ctx.metadata;
    if m.destination.port in SERVER_FIRST {
      return None, false;
    } else if m.protocol != "" {
      return None, false;
    }
    if w.connection.Stream? {
      if !a.stream && a.packet {
        return None, false;
      }
    } else if w.connection.Packets? {
      if !a.packet && a.stream {
        return None, false;
      }
    } else {
      return None, false;
    }
    if m.snifferNames == a.names && m.sniffError.SniffFailed? {
      return None, false;
    }
    var (sniffed, error) := w.sniff(m, a);
    ctx.metadata := sniffed;
    return error, true;
  }

  method RunFinishLegacy(w: World, ctx: InboundContext, o: InboundOptions, sniffed: bool) returns (fatal: Option<Error>)
    modifies ctx
    ensures FinishLegacy(w, old(ctx.metadata), o, sniffed) == Outcome(ctx.metadata, None, fatal, sniffed)
  {
    if o.strategy != 0 {
      fatal := ActionResolve(w, ctx, Resolver("", o.strategy, false, false));
      if fatal.Some? {
        return;
      }
    }
    if o.udpDisableDomainUnmapping {
      ctx.metadata := ctx.metadata.(udpDisableDomainUnmapping := true);
    }
    ctx.metadata := ctx.metadata.(inboundOptions := NO_INBOUND_OPTIONS);
    fatal := None;
  }

  /** The deprecated inbound options. */
  method PrepareLegacy(w: World, ctx: InboundContext, preMatch: bool) returns (fatal: Option<Error>, sniffed: bool)
    modifies ctx
    ensures Legacy(w, old(ctx.metadata), preMatch) == Outcome(ctx.metadata, None, fatal, sniffed)
  {
    fatal, sniffed := None, false;
    var o := ctx.metadata.inboundOptions;
    if o == NO_INBOUND_OPTIONS {
      return;
    }
    if !preMatch && o.sniffEnabled {
      fatal, sniffed := ActionSniff(w, ctx, LEGACY_SNIFFERS);
      if fatal.Some? {
        return;
      }
    }
    fatal := RunFinishLegacy(w, ctx, o, sniffed);
  }

  method Prepare(w: World, ctx: InboundContext, preMatch: bool) returns (fatal: Option<Error>, sniffed: bool)
    modifies ctx
    ensures var (identified, error) := Identify(w, old(ctx.metadata));
      if error.Some? then fatal == error && ctx.metadata == identified && !sniffed
      else Legacy(w, identified, preMatch) == Outcome(ctx.metadata, None, fatal, sniffed)
  {
    var (identified, error) := Identify(w, ctx.metadata);
    ctx.metadata := identified;
    if error.Some? {
      return error, false;
    }
    fatal, sniffed := PrepareLegacy(w, ctx, preMatch);
  }

  method OverrideDestination(ctx: InboundContext, o: RouteOptions)
    modifies ctx
    ensures ctx.metadata == Overridden(old(ctx.metadata), o)
  {
    if (o.overrideAddress.Some? || o.overridePort > 0) && ctx.metadata.routeOriginalDestination.None? {
      ctx.metadata := ctx.metadata.(routeOriginalDestination := Some(ctx.metadata.destination));
    }
    if o.overrideAddress.Some? {
      var Destination(fqdn, addr, _) := o.overrideAddress.value;
      ctx.metadata := ctx.metadata.(destination := Destination(fqdn, addr, ctx.metadata.destination.port), destinationAddresses := []);
    }
    if o.overridePort > 0 {
      var Destination(fqdn, addr, _) := ctx.metadata.destination;
      ctx.metadata := ctx.metadata.(destination := Destination(fqdn, addr, o.overridePort));
    }
  }

  method SetNetwork(ctx: InboundContext, o: RouteOptions)
    modifies ctx
    ensures ctx.metadata == WithNetwork(old(ctx.metadata), o)
  {
    var m := ctx.metadata;
    if o.networkStrategy.Some? {
      m := m.(networkStrategy := o.networkStrategy);
    }
    if |o.networkType| > 0 {
      m := m.(networkType := o.networkType);
    }
    if |o.fallbackNetworkType| > 0 {
      m := m.(fallbackNetworkType := o.fallbackNetworkType);
    }
    if o.fallbackDelay != 0 {
      m := m.(fallbackDelay := o.fallbackDelay);
    }
    ctx.metadata := m;
  }

  method SetTransport(ctx: InboundContext, o: RouteOptions)
    modifies ctx
    ensures ctx.metadata == WithTransport(old(ctx.metadata), o)
  {
    var m := ctx.metadata;
    if o.udpDisableDomainUnmapping {
      m := m.(udpDisableDomainUnmapping := true);
    }
    if o.udpConnect {
      m := m.(udpConnect := true);
    }
    if o.udpTimeout > 0 {
      m := m.(udpTimeout := o.udpTimeout);
    }
    if o.tlsFragment {
      m := m.(tlsFragment := true, tlsFragmentFallbackDelay := o.tlsFragmentFallbackDelay);
    }
    if o.tlsRecordFragment {
      m := m.(tlsRecordFragment := true);
    }
    ctx.metadata := m;
  }

  /** The assignments of a route or route-options action. */
  method ApplyRouteOptions(ctx: InboundContext, o: RouteOptions)
    modifies ctx
    ensures ctx.metadata == ApplyOptions(old(ctx.metadata), o)
  {
    OverrideDestination(ctx, o);
    SetNetwork(ctx, o);
    SetTransport(ctx, o);
  }

  /** actionResolve. */
  method ActionResolve(w: World, ctx: InboundContext, r: Resolver) returns (error: Option<Error>)
    modifies ctx
    ensures var resolution := w.resolve(old(ctx.metadata), r);
      && error == (if resolution.ResolveFailed? then Some(resolution.error) else None)
      && ctx.metadata == (if resolution.Resolved?
                          then old(ctx.metadata).(destinationAddresses := resolution.addresses, resolveRouteOnly := r.routeOnly)
                          else old(ctx.metadata))
  {
    match w.resolve(ctx.metadata, r) {
      case NotAName => error := None;
      case ResolveFailed(e) => error := Some(e);
      case Resolved(addresses) =>
        ctx.metadata := ctx.metadata.(destinationAddresses := addresses);
        ctx.metadata := ctx.metadata.(resolveRouteOnly := r.routeOnly);
        error := None;
    }
  }

  /** One iteration of the loop over the rules: it ends the match, or goes on with the next rule. */
  method VisitRule(w: World, rules: seq<Rule>, i: nat, ctx: InboundContext, sniffedBefore: bool, preMatch: bool)
    returns (ended: bool, selected: Option<nat>, fatal: Option<Error>, sniffed: bool)
    requires i < |rules|
    modifies ctx
    ensures MatchFrom(w, rules, i, old(ctx.metadata), sniffedBefore, preMatch) ==
      if ended then Outcome(ctx.metadata, selected, fatal, sniffed) else MatchFrom(w, rules, i + 1, ctx.metadata, sniffed, preMatch)
  {
    ended, selected, fatal, sniffed := false, None, None, sniffedBefore;
    if !rules[i].matches(ctx.metadata) {
      return;
    }
    match rules[i].action {
      case Route(options) =>
        ApplyRouteOptions(ctx, options);
        ended, selected := true, Some(i);
      case OnlyOptions(options) =>
        ApplyRouteOptions(ctx, options);
      case Direct =>
      case Reject =>
        ended, selected := true, Some(i);
      case HijackDNS =>
        ended, selected := true, Some(i);
      case Sniff(sniffers) =>
        if preMatch {
          ended, selected := true, Some(i);
        } else {
          var ran;
          fatal, ran := ActionSniff(w, ctx, sniffers);
          ended, sniffed := fatal.Some?, true;
        }
      case Resolve(resolver) =>
        fatal := ActionResolve(w, ctx, resolver);
        ended := fatal.Some?;
        if fatal.Some? && resolver.fallbackToFinal && !w.contextDone && !fatal.value.ServerNotFound? {
          ctx.metadata := ctx.metadata.(destinationAddresses := [], resolveRouteOnly := false);
          fatal := None;
        }
    }
  }

  method MatchRule(w: World, rules: seq<Rule>, ctx: InboundContext, preMatch: bool)
    returns (selected: Option<nat>, fatal: Option<Error>, sniffed: bool)
    modifies ctx
    ensures Match(w, rules, old(ctx.metadata), preMatch) == Outcome(ctx.metadata, selected, fatal, sniffed)
  {
    selected := None;
    fatal, sniffed := Prepare(w, ctx, preMatch);
    if fatal.Some? {
      return;
    }
    ghost var before, sniffedBefore := ctx.metadata, sniffed;
    var i := 0;
    while i < |rules|
      invariant 0 <= i <= |rules|
      invariant selected == None && fatal == None
      invariant MatchFrom(w, rules, 0, before, sniffedBefore, preMatch) == MatchFrom(w, rules, i, ctx.metadata, sniffed, preMatch)
    {
      var ended;
      ended, selected, fatal, sniffed := VisitRule(w, rules, i, ctx, sniffed, preMatch);
      if ended {
        return;
      }
      selected, fatal := None, None;
      i := i + 1;
    }
  }

  datatype Verdict = Allowed | RejectedBy(rule: nat) | MatchFailed(error: Error)

  function Preview(w: World, rules: seq<Rule>, m: Metadata): Verdict {
    var o := Match(w, rules, m, true);
    if o.fatal.Some? then MatchFailed(o.fatal.value)
    else if o.selected.Some? && o.selected.value < |rules| && rules[o.selected.value].action.Reject? then RejectedBy(o.selected.value)
    else Allowed
  }

  /** PreMatch works on its own copy of the metadata. */
  method PreMatch(w: World, rules: seq<Rule>, m: Metadata) returns (verdict: Verdict)
    ensures verdict == Preview(w, rules, m)
  {
    var copy := new InboundContext(m);
    var selected, fatal, _ := MatchRule(w, rules, copy, true);
    if fatal.Some? {
      return MatchFailed(fatal.value);
    }
    if selected.Some? && selected.value < |rules| && rules[selected.value].action.Reject? {
      return RejectedBy(selected.value);
    }
    return Allowed;
  }

  /**
   * Which sniffs are skipped: on the ports of mail servers, after a protocol has been found, with nothing to sniff,
   * with sniffers for the other kind of connection only, and after the same sniffers have failed.
   */
  lemma SkippedSniffs(w: World, m: Metadata, a: Sniffers)
    ensures var skipped :=
        m.destination.port in {25, 465, 587, 143, 993, 110, 995} || m.protocol != "" ||
        (match w.connection
         case NoConnection => true
         case Stream => (a.packet && !a.stream) || (m.snifferNames == a.names && m.sniffError == SniffFailed)
         case Packets => (a.stream && !a.packet) || (m.snifferNames == a.names && m.sniffError == SniffFailed));
      RunSniff(w, m, a) == if skipped then (m, None) else w.sniff(m, a)
  {
  }

  // ---------------------------------------------------------------- which rule is selected

  /** What a rule that the match passes leaves of the metadata. */
  function Edited(w: World, r: Rule, m: Metadata): Metadata {
    if !r.matches(m) then m
    else
      match r.action
      case OnlyOptions(options) => ApplyOptions(m, options)
      case Sniff(sniffers) => RunSniff(w, m, sniffers).0
      case Resolve(resolver) =>
        match w.resolve(m, resolver) {
          case Resolved(addresses) => m.(destinationAddresses := addresses, resolveRouteOnly := resolver.routeOnly)
          case _ => m
        }
      case _ => m
  }

  /** The metadata when rule `k` has its turn. */
  function Before(w: World, rules: seq<Rule>, m: Metadata, k: nat): Metadata
    requires k <= |rules|
  {
    if k == 0 then m else Edited(w, rules[k - 1], Before(w, rules, m, k - 1))
  }

  /** Rule `k` matches at its turn with an action that selects it. */
  predicate Finishes(w: World, rules: seq<Rule>, m: Metadata, k: nat, preMatch: bool)
    requires k < |rules|
  {
    var action := rules[k].action;
    && rules[k].matches(Before(w, rules, m, k))
    && (action.Route? || action.Reject? || action.HijackDNS? || (action.Sniff? && preMatch))
  }

  /** Rule `k` matches at its turn, and its resolution or its sniff fails. */
  predicate Interrupts(w: World, rules: seq<Rule>, m: Metadata, k: nat, preMatch: bool)
    requires k < |rules|
  {
    var now := Before(w, rules, m, k);
    && rules[k].matches(now)
    && match rules[k].action
       case Resolve(resolver) => w.resolve(now, resolver).ResolveFailed?
       case Sniff(sniffers) => !preMatch && RunSniff(w, now, sniffers).1.Some?
       case _ => false
  }

  predicate EndsAt(w: World, rules: seq<Rule>, m: Metadata, k: nat, preMatch: bool)
    requires k < |rules|
  {
    Finishes(w, rules, m, k, preMatch) || Interrupts(w, rules, m, k, preMatch)
  }

  /** A failed resolution at rule `k` falls back to the final outbound. */
  predicate FallsBack(w: World, rules: seq<Rule>, m: Metadata, k: nat)
    requires k < |rules|
  {
    match rules[k].action
    case Resolve(resolver) =>
      var resolution := w.resolve(Before(w, rules, m, k), resolver);
      resolution.ResolveFailed? && resolver.fallbackToFinal && !w.contextDone && resolution.error != ServerNotFound
    case _ => false
  }

  lemma {:induction false} PassesTo(w: World, rules: seq<Rule>, m: Metadata, sniffed: bool, preMatch: bool, i: nat, k: nat) returns (later: bool)
    requires i <= k <= |rules|
    requires forall j :: i <= j < k ==> !EndsAt(w, rules, m, j, preMatch)
    ensures MatchFrom(w, rules, i, Before(w, rules, m, i), sniffed, preMatch) == MatchFrom(w, rules, k, Before(w, rules, m, k), later, preMatch)
    decreases k - i
  {
    if i == k {
      later := sniffed;
    } else {
      var next := sniffed || (rules[i].matches(Before(w, rules, m, i)) && rules[i].action.Sniff?);
      OnePassed(w, rules, m, sniffed, preMatch, i, next);
      later := PassesTo(w, rules, m, next, preMatch, i + 1, k);
    }
  }

  lemma OnePassed(w: World, rules: seq<Rule>, m: Metadata, sniffed: bool, preMatch: bool, i: nat, next: bool)
    requires i < |rules| && !EndsAt(w, rules, m, i, preMatch)
    requires next == (sniffed || (rules[i].matches(Before(w, rules, m, i)) && rules[i].action.Sniff?))
    ensures MatchFrom(w, rules, i, Before(w, rules, m, i), sniffed, preMatch) == MatchFrom(w, rules, i + 1, Before(w, rules, m, i + 1), next, preMatch)
  {
  }

  /** What the selected rule leaves of the metadata. */
  function Left(action: Action, m: Metadata): Metadata {
    match action
    case Route(options) => ApplyOptions(m, options)
    case _ => m
  }

  /** What a match that ends at rule `k` returns. */
  lemma EndOfMatch(w: World, rules: seq<Rule>, m: Metadata, sniffed: bool, preMatch: bool, k: nat)
    requires k < |rules| && EndsAt(w, rules, m, k, preMatch)
    ensures var o, now := MatchFrom(w, rules, k, Before(w, rules, m, k), sniffed, preMatch), Before(w, rules, m, k);
      && (Finishes(w, rules, m, k, preMatch) ==>
            o.selected == Some(k) && o.fatal == None && o.metadata == Left(rules[k].action, now))
      && (Interrupts(w, rules, m, k, preMatch) ==> o.selected == None && (o.fatal == None <==> FallsBack(w, rules, m, k)))
  {
  }

  /** The first rule at which the match ends, or the number of rules. */
  function FirstEnd(w: World, rules: seq<Rule>, m: Metadata, preMatch: bool, i: nat): (k: nat)
    requires i <= |rules|
    ensures i <= k <= |rules|
    ensures forall j :: i <= j < k ==> !EndsAt(w, rules, m, j, preMatch)
    ensures k < |rules| ==> EndsAt(w, rules, m, k, preMatch)
    decreases |rules| - i
  {
    if i == |rules| || EndsAt(w, rules, m, i, preMatch) then i else FirstEnd(w, rules, m, preMatch, i + 1)
  }

  predicate PassedUpTo(w: World, rules: seq<Rule>, m: Metadata, preMatch: bool, k: nat)
    requires k <= |rules|
  {
    forall j :: 0 <= j < k ==> !EndsAt(w, rules, m, j, preMatch)
  }

  /** Rule `k` is the first at which the match ends, and ends it with a selection. */
  predicate FinishesFirst(w: World, rules: seq<Rule>, m: Metadata, k: nat, preMatch: bool) {
    k < |rules| && Finishes(w, rules, m, k, preMatch) && PassedUpTo(w, rules, m, preMatch, k)
  }

  /** Rule `k` is the first at which the match ends, and ends it by a failure. */
  predicate InterruptsFirst(w: World, rules: seq<Rule>, m: Metadata, k: nat, preMatch: bool) {
    k < |rules| && Interrupts(w, rules, m, k, preMatch) && PassedUpTo(w, rules, m, preMatch, k)
  }

  /** The match fails: at a failed resolution or sniff that does not fall back to the final outbound. */
  predicate FailsAt(w: World, rules: seq<Rule>, m: Metadata, k: nat, preMatch: bool) {
    InterruptsFirst(w, rules, m, k, preMatch) && !FallsBack(w, rules, m, k)
  }

  /**
   * The loop over the rules selects the first rule that matches at its turn with a final action, if no resolution
   * or sniff before it has failed; it fails at the first of these to fail, unless that falls back to the final
   * outbound; and it ends with the metadata that the rules passed have left.
   */
  lemma FirstFinalRuleIsSelected(w: World, rules: seq<Rule>, m: Metadata, sniffed: bool, preMatch: bool, k: nat)
    ensures var o := MatchFrom(w, rules, 0, m, sniffed, preMatch);
      && (o.selected == Some(k) <==> FinishesFirst(w, rules, m, k, preMatch))
      && (o.selected == None <==>
            PassedUpTo(w, rules, m, preMatch, |rules|) || exists j :: 0 <= j < |rules| && InterruptsFirst(w, rules, m, j, preMatch))
      && (o.fatal.Some? <==> exists j :: 0 <= j < |rules| && FailsAt(w, rules, m, j, preMatch))
      && (FinishesFirst(w, rules, m, k, preMatch) ==> o.metadata == Left(rules[k].action, Before(w, rules, m, k)))
      && (PassedUpTo(w, rules, m, preMatch, |rules|) ==> o.metadata == Before(w, rules, m, |rules|))
  {
    var end := FirstEnd(w, rules, m, preMatch, 0);
    var later := PassesTo(w, rules, m, sniffed, preMatch, 0, end);
    if end < |rules| {
      EndOfMatch(w, rules, m, later, preMatch, end);
      OnlyEnd(w, rules, m, preMatch, end);
      assert EndsAt(w, rules, m, end, preMatch);
      assert InterruptsFirst(w, rules, m, end, preMatch) <==> Interrupts(w, rules, m, end, preMatch);
      assert FailsAt(w, rules, m, end, preMatch) <==> Interrupts(w, rules, m, end, preMatch) && !FallsBack(w, rules, m, end);
    } else {
      forall j: nat | j < |rules| ensures !Finishes(w, rules, m, j, preMatch) && !Interrupts(w, rules, m, j, preMatch) {
        assert !EndsAt(w, rules, m, j, preMatch);
      }
    }
  }

  /** No two rules are the first at which a match ends, and none both finishes and interrupts it. */
  lemma OnlyEnd(w: World, rules: seq<Rule>, m: Metadata, preMatch: bool, end: nat)
    requires end < |rules| && EndsAt(w, rules, m, end, preMatch) && PassedUpTo(w, rules, m, preMatch, end)
    ensures !PassedUpTo(w, rules, m, preMatch, |rules|)
    ensures forall j :: FinishesFirst(w, rules, m, j, preMatch) || InterruptsFirst(w, rules, m, j, preMatch) ==> j == end
    ensures !(Finishes(w, rules, m, end, preMatch) && Interrupts(w, rules, m, end, preMatch))
  {
    forall j | FinishesFirst(w, rules, m, j, preMatch) || InterruptsFirst(w, rules, m, j, preMatch) ensures j == end {
      assert EndsAt(w, rules, m, j, preMatch);
    }
  }

  /** The same for a whole match, after what comes before the rules. */
  lemma MatchSelectsFirstFinalRule(w: World, rules: seq<Rule>, m: Metadata, preMatch: bool, k: nat)
    requires Identify(w, m).1 == None && Legacy(w, Identify(w, m).0, preMatch).fatal == None
    ensures var o, ready := Match(w, rules, m, preMatch), Legacy(w, Identify(w, m).0, preMatch).metadata;
      && (o.selected == Some(k) <==> FinishesFirst(w, rules, ready, k, preMatch))
      && (o.fatal.Some? <==> exists j :: 0 <= j < |rules| && FailsAt(w, rules, ready, j, preMatch))
  {
    var ready := Legacy(w, Identify(w, m).0, preMatch);
    FirstFinalRuleIsSelected(w, rules, ready.metadata, ready.sniffed, preMatch, k);
  }

  predicate IsFinal(a: Action) {
    a.Route? || a.Reject? || a.HijackDNS?
  }

  /** With final actions only, the first rule to match is selected. */
  lemma FirstMatchIsSelected(w: World, rules: seq<Rule>, m: Metadata, sniffed: bool, preMatch: bool, k: nat)
    requires forall i :: 0 <= i < |rules| ==> IsFinal(rules[i].action)
    ensures MatchFrom(w, rules, 0, m, sniffed, preMatch).selected == Some(k) <==>
      k < |rules| && rules[k].matches(m) && forall j :: 0 <= j < k ==> !rules[j].matches(m)
  {
    FirstFinalRuleIsSelected(w, rules, m, sniffed, preMatch, k);
    if k < |rules| {
      if (forall j :: 0 <= j < k ==> !rules[j].matches(m)) || PassedUpTo(w, rules, m, preMatch, k) {
        FinalRulesEditNothing(w, rules, m, preMatch, k);
      }
    }
  }

  lemma {:induction false} FinalRulesEditNothing(w: World, rules: seq<Rule>, m: Metadata, preMatch: bool, k: nat)
    requires k < |rules| && forall i :: 0 <= i < |rules| ==> IsFinal(rules[i].action)
    ensures Before(w, rules, m, k) == m
    ensures PassedUpTo(w, rules, m, preMatch, k) <==> forall j :: 0 <= j < k ==> !rules[j].matches(m)
  {
    if k > 0 {
      FinalRulesEditNothing(w, rules, m, preMatch, k - 1);
      assert EndsAt(w, rules, m, k - 1, preMatch) <==> rules[k - 1].matches(m);
      assert PassedUpTo(w, rules, m, preMatch, k) <==> PassedUpTo(w, rules, m, preMatch, k - 1) && !EndsAt(w, rules, m, k - 1, preMatch);
    }
  }

  // ---------------------------------------------------------------- what comes before the rules

  lemma ProcessIsAdded(w: World, m: Metadata)
    ensures var r := WithProcess(w, m);
      && r.destination == m.destination && r.domain == m.domain && r.fakeIP == m.fakeIP
      && r.processInfo == (if m.processInfo.Some? then m.processInfo else w.process(m))
  {
  }

  lemma VersionIsAdded(w: World, m: Metadata)
    ensures var r := WithIPVersion(w, m);
      && r.destination == m.destination && r.originDestination == m.originDestination && r.domain == m.domain
      && r.fakeIP == m.fakeIP && r.processInfo == m.processInfo
      && r.ipVersion == (if m.destination.addr.Some? then w.ipVersion(m.destination.addr.value) else m.ipVersion)
  {
  }

  /** A fake address stands for a name, and it is an error if the name is lost. */
  lemma FakeAddressIsNamed(w: World, m: Metadata)
    requires m.destination.addr.Some? && w.isFakeIP(m.destination.addr.value)
    ensures var (r, error), name := Identify(w, m), w.fakeIPName(m.destination.addr.value);
      && (error.Some? <==> name == None)
      && (name.Some? && name.value != "" ==>
            r.destination == Destination(name.value, None, m.destination.port) && r.originDestination == Some(m.destination) && r.fakeIP)
  {
    var known := WithProcess(w, m);
    ProcessIsAdded(w, m);
    var name := w.fakeIPName(m.destination.addr.value);
    if name.Some? {
      VersionIsAdded(w, Unmasked(known, name.value));
    }
  }

  lemma DomainIsAdded(m: Metadata, name: Option<string>)
    ensures var r := WithDomain(m, name);
      && r.destination == m.destination && r.fakeIP == m.fakeIP && r.processInfo == m.processInfo
      && r.domain == (if m.domain == "" && name.Some? then name.value else m.domain)
  {
  }

  /** Any other destination stays; its name is taken from the reverse mapping if the connection has none. */
  lemma OtherDestinationStays(w: World, m: Metadata)
    requires m.destination.addr.Some? ==> !w.isFakeIP(m.destination.addr.value)
    ensures var (r, error), name := Identify(w, m), w.reverseName(m.destination.addr);
      && error == None && r.destination == m.destination && r.fakeIP == m.fakeIP
      && r.domain == (if m.domain == "" && name.Some? then name.value else m.domain)
      && (m.destination.addr.Some? ==> r.ipVersion == w.ipVersion(m.destination.addr.value))
      && r.processInfo == (if m.processInfo.Some? then m.processInfo else w.process(m))
  {
    var known, name := WithProcess(w, m), w.reverseName(m.destination.addr);
    ProcessIsAdded(w, m);
    DomainIsAdded(known, name);
    VersionIsAdded(w, WithDomain(known, name));
  }

  /** The legacy options have resolved, set and reset what they should in metadata `m`, and left the rest. */
  predicate LegacyFinishes(w: World, m: Metadata, o: InboundOptions, r: Outcome) {
    var resolution := w.resolve(m, Resolver("", o.strategy, false, false));
    && (r.fatal.Some? <==> o.strategy != 0 && resolution.ResolveFailed?)
    && (r.fatal.Some? ==> r.fatal == Some(resolution.error) && r.metadata == m)
    && (r.fatal == None ==>
          && r.metadata.inboundOptions == NO_INBOUND_OPTIONS
          && (r.metadata.udpDisableDomainUnmapping <==> m.udpDisableDomainUnmapping || o.udpDisableDomainUnmapping)
          && (o.strategy != 0 && resolution.Resolved? ==> r.metadata.destinationAddresses == resolution.addresses && !r.metadata.resolveRouteOnly)
          && (o.strategy == 0 || resolution.NotAName? ==> r.metadata.destinationAddresses == m.destinationAddresses)
          && r.metadata.destination == m.destination && r.metadata.protocol == m.protocol)
  }

  /** What the legacy options leave when they do not sniff. */
  lemma LegacyWithoutSniff(w: World, m: Metadata, preMatch: bool)
    requires preMatch || !m.inboundOptions.sniffEnabled || SkipsSniff(w, m, LEGACY_SNIFFERS)
    ensures var o, r := m.inboundOptions, Legacy(w, m, preMatch);
      && r.selected == None && !r.sniffed && LegacyFinishes(w, m, o, r)
      && (o == NO_INBOUND_OPTIONS ==> r == Outcome(m, None, None, false))
  {
  }

  /** When they sniff, a failure of the sniff ends the match, and otherwise the rest happens to what it has found. */
  lemma LegacyWithSniff(w: World, m: Metadata)
    requires m.inboundOptions.sniffEnabled && !SkipsSniff(w, m, LEGACY_SNIFFERS)
    ensures var (found, error) := w.sniff(m, LEGACY_SNIFFERS);
      var r := Legacy(w, m, false);
      && r.selected == None && r.sniffed
      && (error.Some? ==> r.metadata == found && r.fatal == error)
      && (error == None ==> LegacyFinishes(w, found, m.inboundOptions, r))
  {
  }

  // ---------------------------------------------------------------- the preview is exact

  predicate StoppedAtSniff(rules: seq<Rule>, o: Outcome) {
    o.fatal == None && o.selected.Some? && o.selected.value < |rules| && rules[o.selected.value].action.Sniff?
  }

  /** Until a sniff rule matches both passes are the same; at the first one the preview stops. */
  lemma {:induction false} PassesAgree(w: World, rules: seq<Rule>, i: nat, m: Metadata)
    requires i <= |rules|
    ensures var pre, full := MatchFrom(w, rules, i, m, false, true), MatchFrom(w, rules, i, m, false, false);
      if full.sniffed then StoppedAtSniff(rules, pre) else pre == full
    decreases |rules| - i
  {
    if i < |rules| {
      if !rules[i].matches(m) {
        PassesAgree(w, rules, i + 1, m);
      } else {
        match rules[i].action
        case OnlyOptions(options) => PassesAgree(w, rules, i + 1, ApplyOptions(m, options));
        case Direct => PassesAgree(w, rules, i + 1, m);
        case Sniff(sniffers) =>
          var (m', error) := RunSniff(w, m, sniffers);
          if error.None? {
            SniffedStays(w, rules, i + 1, m');
          }
        case Resolve(resolver) =>
          var resolution := w.resolve(m, resolver);
          if !resolution.ResolveFailed? {
            PassesAgree(w, rules, i + 1, ApplyResolution(m, resolver, resolution));
          }
        case _ =>
      }
    }
  }

  lemma {:induction false} SniffedStays(w: World, rules: seq<Rule>, i: nat, m: Metadata)
    requires i <= |rules|
    ensures MatchFrom(w, rules, i, m, true, false).sniffed
    decreases |rules| - i
  {
    if i < |rules| {
      if !rules[i].matches(m) {
        SniffedStays(w, rules, i + 1, m);
      } else {
        match rules[i].action
        case OnlyOptions(options) => SniffedStays(w, rules, i + 1, ApplyOptions(m, options));
        case Direct => SniffedStays(w, rules, i + 1, m);
        case Sniff(sniffers) => SniffedStays(w, rules, i + 1, RunSniff(w, m, sniffers).0);
        case Resolve(resolver) => SniffedStays(w, rules, i + 1, ApplyResolution(m, resolver, w.resolve(m, resolver)));
        case _ =>
      }
    }
  }

  lemma IdentifyKeepsSniffState(w: World, m: Metadata)
    ensures KeepsSniffState(m, Identify(w, m).0)
  {
  }

  /** The legacy option will sniff the connection before any rule is looked at. */
  predicate SniffsEarly(w: World, m: Metadata) {
    m.inboundOptions.sniffEnabled && !SkipsSniff(w, m, LEGACY_SNIFFERS)
  }

  lemma LegacyAgrees(w: World, m: Metadata)
    requires !SniffsEarly(w, m)
    ensures Legacy(w, m, true) == Legacy(w, m, false) && !Legacy(w, m, true).sniffed
  {
  }

  /** The whole pass, with what comes before the rules. */
  lemma MatchesAgree(w: World, rules: seq<Rule>, m: Metadata)
    requires !SniffsEarly(w, m)
    ensures var pre, full := Match(w, rules, m, true), Match(w, rules, m, false);
      if full.sniffed then StoppedAtSniff(rules, pre) else pre == full
  {
    var identified := Identify(w, m).0;
    IdentifyKeepsSniffState(w, m);
    LegacyAgrees(w, identified);
    PassesAgree(w, rules, 0, Legacy(w, identified, true).metadata);
  }

  /**
   * Unless the legacy option sniffs, PreMatch rejects by a rule exactly when the full match selects that reject rule
   * without having met a sniff rule, and fails exactly when the full match fails so, each time with the same metadata.
   */
  lemma PreviewIsExact(w: World, rules: seq<Rule>, m: Metadata, k: nat, error: Error)
    requires !SniffsEarly(w, m)
    ensures var pre, full := Match(w, rules, m, true), Match(w, rules, m, false);
      && (Preview(w, rules, m) == RejectedBy(k) <==>
            full.fatal == None && full.selected == Some(k) && k < |rules| && rules[k].action.Reject? && !full.sniffed)
      && (Preview(w, rules, m) == MatchFailed(error) <==> full.fatal == Some(error) && !full.sniffed)
      && (!full.sniffed ==> pre == full)
  {
    MatchesAgree(w, rules, m);
    var pre, full := Match(w, rules, m, true), Match(w, rules, m, false);
    assert full.sniffed ==> StoppedAtSniff(rules, pre);
  }

  // ---------------------------------------------------------------- and is not when the legacy option sniffs

  const BITTORRENT := "bittorrent"

  /** The same surroundings with a connection that is BitTorrent, which stream and packet sniffers recognise. */
  function WithTorrent(w: World): World {
    w.(sniff := (m: Metadata, a: Sniffers) => (m.(protocol := BITTORRENT, snifferNames := a.names, sniffError := NoSniffError), None))
  }

  function RejectTorrents(): Rule {
    Rule((m: Metadata) => m.protocol == BITTORRENT, Reject)
  }

  lemma RejectsTorrents(w: World, m: Metadata, sniffed: bool, preMatch: bool)
    ensures MatchFrom(w, [RejectTorrents()], 0, m, sniffed, preMatch) ==
      Outcome(m, if m.protocol == BITTORRENT then Some(0) else None, None, sniffed)
  {
    var rules := [RejectTorrents()];
    assert rules[0].matches(m) <==> m.protocol == BITTORRENT;
  }

  /** The legacy option's own resolution of these metadata works, or is not asked for. */
  predicate LegacyResolves(w: World, m: Metadata) {
    var o := m.inboundOptions;
    o.strategy != 0 ==> !w.resolve(m, Resolver("", o.strategy, false, false)).ResolveFailed?
  }

  lemma LegacySniffs(w: World, m: Metadata)
    requires SniffsEarly(w, m) && LegacyResolves(w, m)
    ensures var pre, full := Legacy(WithTorrent(w), m, true), Legacy(WithTorrent(w), m, false);
      && pre.fatal == None && pre.metadata.protocol == ""
      && (full.fatal == None ==> full.metadata.protocol == BITTORRENT)
      && (full.fatal == None <==> LegacyResolves(w, RunSniff(WithTorrent(w), m, LEGACY_SNIFFERS).0))
  {
  }

  lemma TorrentIsIdentified(w: World, m: Metadata)
    ensures Identify(WithTorrent(w), m) == Identify(w, m)
  {
    var known := WithProcess(w, m);
    assert WithProcess(WithTorrent(w), m) == known;
    forall n ensures WithIPVersion(WithTorrent(w), n) == WithIPVersion(w, n) {
    }
  }

  /**
   * When the legacy option sniffs, the preview is not exact: for every such connection that is identified, and whose
   * name the legacy option can resolve, if that is asked for, there are a rule and a sniffer for which the preview
   * allows what the full match rejects, or fails if the resolver fails on the sniffed connection. All other
   * surroundings stay what they are.
   */
  lemma LegacySniffIsNotPreviewed(w: World, m: Metadata)
    requires SniffsEarly(w, m) && Identify(w, m).1.None? && LegacyResolves(w, Identify(w, m).0)
    ensures var torrent, rules := WithTorrent(w), [RejectTorrents()];
      var full := Match(torrent, rules, m, false);
      && Preview(torrent, rules, m) == Allowed
      && (full.fatal.Some? || full.selected == Some(0))
      && (full.selected == Some(0) <==> LegacyResolves(w, RunSniff(torrent, Identify(w, m).0, LEGACY_SNIFFERS).0))
  {
    var known, torrent := Identify(w, m).0, WithTorrent(w);
    IdentifyKeepsSniffState(w, m);
    TorrentIsIdentified(w, m);
    LegacySniffs(w, known);
    var pre, full := Legacy(torrent, known, true), Legacy(torrent, known, false);
    RejectsTorrents(torrent, pre.metadata, pre.sniffed, true);
    RejectsTorrents(torrent, full.metadata, full.sniffed, false);
  }

  /** On a port whose server speaks first, or with a protocol already known, sniffing by option changes nothing. */
  lemma IdleLegacySniffIsPreviewed(w: World, rules: seq<Rule>, m: Metadata)
    requires m.destination.port in {25, 465, 587, 143, 993, 110, 995} || m.protocol != ""
    requires forall i :: 0 <= i < |rules| ==> !rules[i].action.Sniff?
    ensures Match(w, rules, m, true) == Match(w, rules, m, false)
  {
    MatchesAgree(w, rules, m);
  }
}
