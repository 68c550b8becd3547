/** The EDNS client subnet: attaching it, reading it back and deriving it (dns/extension_edns0_subnet.go, dns/client.go). */
module ClientSubnet {
  import opened Optional
  import opened DnsMessage

  // ---------------------------------------------------------------- reading

  /** `copy` into a zeroed array of n bits. */
  function CopyInto(n: nat, source: Bits): (b: Bits)
    ensures |b| == n
  {
    if |source| >= n then source[..n] else source + Zeros(n - |source|)
  }

  function Decode(o: EdnsOption): (p: Option<Prefix>)
    requires o.Subnet?
    ensures p.Some? ==> p.value.Valid() && p.value.Masked() == p.value
  {
    if o.family == 1 && o.netmask <= 32 then Some(Canonical(V4(CopyInto(32, o.address)), o.netmask))
    else if o.family == 2 && o.netmask <= 128 then Some(Canonical(V6(CopyInto(128, o.address)), o.netmask))
    else None
  }

  function Canonical(addr: Addr, len: nat): (p: Prefix)
    requires addr.Valid() && len <= |addr.bits|
    ensures p.Valid() && p.Masked() == p
  {
    var p := Prefix(addr, len).Masked();
    assert p.Masked().addr.bits == p.addr.bits;
    p
  }

  function FirstSubnet(options: seq<EdnsOption>): (j: nat)
    ensures j <= |options|
    ensures j < |options| ==> options[j].Subnet?
    ensures forall i :: 0 <= i < j ==> !options[i].Subnet?
  {
    if options == [] || options[0].Subnet? then 0 else 1 + FirstSubnet(options[1..])
  }

  function Extract(m: Message): (p: Option<Prefix>)
    ensures p.Some? ==> p.value.Valid() && p.value.Masked() == p.value
  {
    var opt := LastOpt(m.extra);
    if opt.None? then None
    else
      var j := FirstSubnet(opt.value.options);
      if j < |opt.value.options| then Decode(opt.value.options[j]) else None
  }

  // ---------------------------------------------------------------- attaching

  /** Where setClientSubnet writes: an existing option, an OPT record without one, or a record it has to add. */
  datatype Target = ExistingOption(record: nat, option: nat) | LastRecord | NewRecord

  /** The OPT record in which the search stops; records before it have no subnet. */
  function FirstSubnetRecord(extra: seq<Record>): (i: nat)
    ensures i <= |extra|
    ensures i < |extra| ==> extra[i].Opt? && FirstSubnet(extra[i].options) < |extra[i].options|
    ensures forall k :: 0 <= k < i && extra[k].Opt? ==> FirstSubnet(extra[k].options) == |extra[k].options|
  {
    if extra == [] || (extra[0].Opt? && FirstSubnet(extra[0].options) < |extra[0].options|) then 0
    else 1 + FirstSubnetRecord(extra[1..])
  }

  /** The search keeps no OPT record that another record follows: the next iteration overwrites it. */
  function FindTarget(extra: seq<Record>): Target {
    var i := FirstSubnetRecord(extra);
    if i < |extra| then ExistingOption(i, FirstSubnet(extra[i].options))
    else if extra != [] && extra[|extra| - 1].Opt? then LastRecord
    else NewRecord
  }

  function Encode(p: Prefix, scope: nat): EdnsOption {
    Subnet(if p.addr.V4? then 1 else 2, p.len, scope, p.addr.bits)
  }

  function WithOption(r: Record, o: EdnsOption): Record
    requires r.Opt?
  {
    r.(options := r.options + [o])
  }

  function SetExtra(extra: seq<Record>, p: Prefix): seq<Record> {
    match FindTarget(extra)
    case ExistingOption(i, j) =>
      extra[i := extra[i].(options := extra[i].options[j := Encode(p, extra[i].options[j].scope)])]
    case LastRecord =>
      var n := |extra| - 1;
      extra[n := WithOption(extra[n], Encode(p, 0))]
    case NewRecord => extra + [Opt(0, 0, [Encode(p, 0)])]
  }

  /** The message SetClientSubnet returns. */
  function Set(m: Message, p: Prefix): Message {
    m.(extra := SetExtra(m.extra, p))
  }

  // ---------------------------------------------------------------- laws

  lemma DecodeEncode(p: Prefix, scope: nat)
    requires p.Valid()
    ensures Decode(Encode(p, scope)) == Some(p.Masked())
  {
    assert p.addr.bits[..|p.addr.bits|] == p.addr.bits;
  }

  /** `LastOpt` after a change of one record. */
  lemma {:induction false} LastOptUpdate(extra: seq<Record>, i: nat, r: Record)
    requires i < |extra| && extra[i].Opt? && r.Opt?
    ensures LastOpt(extra[i := r]) == if (forall k :: i < k < |extra| ==> !extra[k].Opt?) then Some(r) else LastOpt(extra)
  {
    var n := |extra| - 1;
    var updated := extra[i := r];
    if i < n {
      assert updated[..n] == extra[..n][i := r];
      if !extra[n].Opt? {
        LastOptUpdate(extra[..n], i, r);
        assert forall k :: i < k < n ==> extra[..n][k] == extra[k];
      }
    }
  }

  /** Another OPT record follows the one in which the search found a subnet. */
  predicate Shadowed(extra: seq<Record>) {
    var i := FirstSubnetRecord(extra);
    exists k :: i < k < |extra| && extra[k].Opt?
  }

  /** Replacing the first subnet, or adding one where there was none, makes it the first subnet. */
  lemma {:induction false} FirstSubnetOf(options: seq<EdnsOption>, o: EdnsOption)
    requires o.Subnet?
    ensures var j := FirstSubnet(options);
      if j < |options| then FirstSubnet(options[j := o]) == j
      else FirstSubnet(options + [o]) == |options|
  {
    if options != [] && !options[0].Subnet? {
      FirstSubnetOf(options[1..], o);
      assert (options + [o])[1..] == options[1..] + [o];
      var j := FirstSubnet(options);
      if j < |options| {
        assert options[j := o][1..] == options[1..][j - 1 := o];
      }
    }
  }

  /**
   * Reading back what was attached gives the masked prefix, unless an OPT record follows the one that already
   * carried a subnet; then the attached prefix is not read at all.
   */
  lemma ExtractAfterSet(m: Message, p: Prefix)
    requires p.Valid()
    ensures Extract(Set(m, p)) == if Shadowed(m.extra) then Extract(m) else Some(p.Masked())
  {
    var extra := m.extra;
    var n := |extra| - 1;
    match FindTarget(extra)
    case ExistingOption(i, j) =>
      var o := Encode(p, extra[i].options[j].scope);
      var r := extra[i].(options := extra[i].options[j := o]);
      FirstSubnetOf(extra[i].options, o);
      LastOptUpdate(extra, i, r);
      DecodeEncode(p, extra[i].options[j].scope);
    case LastRecord =>
      FirstSubnetOf(extra[n].options, Encode(p, 0));
      assert FirstSubnet(extra[n].options) == |extra[n].options|;
      LastOptUpdate(extra, n, WithOption(extra[n], Encode(p, 0)));
      DecodeEncode(p, 0);
    case NewRecord =>
      var updated := SetExtra(extra, p);
      assert updated[|updated| - 1] == Opt(0, 0, [Encode(p, 0)]);
      DecodeEncode(p, 0);
  }

  function CountOpts(extra: seq<Record>): nat {
    if extra == [] then 0 else CountOpts(extra[..|extra| - 1]) + if extra[|extra| - 1].Opt? then 1 else 0
  }

  lemma {:induction false} CountAtLeast(extra: seq<Record>, i: nat, k: nat)
    requires i < k < |extra| && extra[i].Opt? && extra[k].Opt?
    ensures CountOpts(extra) >= 2
  {
    var n := |extra| - 1;
    if k < n {
      CountAtLeast(extra[..n], i, k);
    } else {
      CountOne(extra[..n], i);
    }
  }

  lemma {:induction false} CountOne(extra: seq<Record>, i: nat)
    requires i < |extra| && extra[i].Opt?
    ensures CountOpts(extra) >= 1
  {
    if i < |extra| - 1 {
      CountOne(extra[..|extra| - 1], i);
    }
  }

  /** The round trip for well-formed messages, which have at most one OPT record. */
  lemma ExtractAfterSetWellFormed(m: Message, p: Prefix)
    requires p.Valid() && CountOpts(m.extra) <= 1
    ensures Extract(Set(m, p)) == Some(p.Masked())
  {
    ExtractAfterSet(m, p);
    if Shadowed(m.extra) {
      var i := FirstSubnetRecord(m.extra);
      var k :| i < k < |m.extra| && m.extra[k].Opt?;
      CountAtLeast(m.extra, i, k);
    }
  }

  lemma {:induction false} CountUpdate(extra: seq<Record>, i: nat, r: Record)
    requires i < |extra| && extra[i].Opt? && r.Opt?
    ensures CountOpts(extra[i := r]) == CountOpts(extra)
  {
    var n := |extra| - 1;
    if i < n {
      assert extra[i := r][..n] == extra[..n][i := r];
      CountUpdate(extra[..n], i, r);
    } else {
      assert extra[i := r][..n] == extra[..n];
    }
  }

  /**
   * A message with at most one OPT record keeps at most one exactly when it has none, or its OPT record is the
   * last additional record or already carries a subnet. Otherwise a second OPT record is added.
   */
  lemma SetKeepsOneOpt(m: Message, p: Prefix)
    requires CountOpts(m.extra) <= 1
    ensures CountOpts(Set(m, p).extra) <= 1 <==>
      CountOpts(m.extra) == 0 || m.extra[|m.extra| - 1].Opt? || FirstSubnetRecord(m.extra) < |m.extra|
  {
    var extra := m.extra;
    match FindTarget(extra)
    case ExistingOption(i, j) =>
      CountUpdate(extra, i, SetExtra(extra, p)[i]);
    case LastRecord =>
      CountUpdate(extra, |extra| - 1, SetExtra(extra, p)[|extra| - 1]);
    case NewRecord =>
      assert SetExtra(extra, p)[..|extra|] == extra;
  }

  /** A well-formed message that gets a second OPT record: the one it has is followed by another record. */
  lemma SecondOptIsAdded(p: Prefix)
    ensures var m := Message(0, 0, [], [], [], [Opt(0, 0, []), Data(0, 0)]);
      CountOpts(m.extra) == 1 && CountOpts(Set(m, p).extra) == 2
  {
    var extra := [Opt(0, 0, []), Data(0, 0)];
    assert extra[..1] == [Opt(0, 0, [])] && extra[..1][..0] == [];
    assert extra[1..] == [Data(0, 0)] && extra[1..][1..] == [];
    assert FirstSubnetRecord(extra) == 2;
    assert SetExtra(extra, p)[..2] == extra;
  }

  // ---------------------------------------------------------------- what is left alone

  function WithoutSubnets(options: seq<EdnsOption>): seq<EdnsOption> {
    if options == [] then []
    else
      var rest := WithoutSubnets(options[..|options| - 1]);
      if options[|options| - 1].Subnet? then rest else rest + [options[|options| - 1]]
  }

  /** A record with its client subnets taken out. */
  function Strip(r: Record): Record {
    if r.Opt? then r.(options := WithoutSubnets(r.options)) else r
  }

  lemma {:induction false} WithoutReplaced(options: seq<EdnsOption>, j: nat, o: EdnsOption)
    requires j < |options| && options[j].Subnet? && o.Subnet?
    ensures WithoutSubnets(options[j := o]) == WithoutSubnets(options)
  {
    var n := |options| - 1;
    if j < n {
      assert options[j := o][..n] == options[..n][j := o];
      WithoutReplaced(options[..n], j, o);
    } else {
      assert options[j := o][..n] == options[..n];
    }
  }

  /** Apart from client subnets, every record and every option stays as and where it was; at most one record is added. */
  lemma SetLeavesTheRest(m: Message, p: Prefix)
    ensures Set(m, p).(extra := m.extra) == m
    ensures |m.extra| <= |Set(m, p).extra| <= |m.extra| + 1
    ensures forall k :: 0 <= k < |m.extra| ==> Strip(Set(m, p).extra[k]) == Strip(m.extra[k])
    ensures |Set(m, p).extra| == |m.extra| + 1 ==> Strip(Set(m, p).extra[|m.extra|]) == Opt(0, 0, [])
  {
    var extra := m.extra;
    match FindTarget(extra)
    case ExistingOption(i, j) =>
      WithoutReplaced(extra[i].options, j, Encode(p, extra[i].options[j].scope));
    case LastRecord =>
      var r := extra[|extra| - 1];
      assert (r.options + [Encode(p, 0)])[..|r.options|] == r.options;
    case NewRecord =>
      var o := Encode(p, 0);
      assert [o][..0] == [];
      assert WithoutSubnets([o]) == [];
      assert SetExtra(extra, p)[|extra|] == Opt(0, 0, [o]);
  }

  /** The subnet option as section 6 of RFC 7871 has it: the family, the source prefix length, and the address. */
  predicate IsOptionOf(o: EdnsOption, p: Prefix) {
    && o.Subnet? && o.family == (match p.addr case V4(_) => 1 case V6(_) => 2)
    && o.netmask == p.len && o.address == p.addr.bits
  }

  /** Setting writes that option, into the option it replaces, whose scope it keeps, or with scope 0. */
  lemma SetWritesTheOption(m: Message, p: Prefix)
    ensures exists i, j :: WritesAt(m, p, i, j)
  {
    match FindTarget(m.extra)
    case ExistingOption(i, j) => assert WritesAt(m, p, i, j);
    case LastRecord => assert WritesAt(m, p, |m.extra| - 1, |m.extra[|m.extra| - 1].options|);
    case NewRecord => assert WritesAt(m, p, |m.extra|, 0);
  }

  predicate WritesAt(m: Message, p: Prefix, i: int, j: int) {
    var extra := Set(m, p).extra;
    && 0 <= i < |extra| && extra[i].Opt? && 0 <= j < |extra[i].options| && IsOptionOf(extra[i].options[j], p)
    && var replaced := i < |m.extra| && m.extra[i].Opt? && j < |m.extra[i].options|;
      && (replaced ==> m.extra[i].options[j].Subnet? && extra[i].options[j].scope == m.extra[i].options[j].scope)
      && (!replaced ==> extra[i].options[j].scope == 0)
  }

  /** Which options are read as subnets, and as which: the address bits that are there, of which the prefix counts. */
  lemma ReadableOptions(o: EdnsOption)
    requires o.Subnet?
    ensures var p := Decode(o);
      && (p.Some? <==> (o.family == 1 && o.netmask <= 32) || (o.family == 2 && o.netmask <= 128))
      && (p.Some? ==>
            && (p.value.addr.V4? <==> o.family == 1) && p.value.len == o.netmask
            && forall i :: 0 <= i < |p.value.addr.bits| ==> p.value.addr.bits[i] == (i < o.netmask && i < |o.address| && o.address[i]))
  {
  }

  // ---------------------------------------------------------------- deriving the subnet

  /** clientSubnetFromInbound: the client's prefix, if a usable length is set for its family. */
  function FromInbound(source: Option<Addr>, o: Option<InboundSubnet>): (p: Option<Prefix>)
    requires source.Some? ==> source.value.Valid()
    ensures p.Some? ==> p.value.Valid() && p.value.Masked() == p.value
  {
    if o.None? || source.None? then None
    else
      var n := if source.value.V4? then o.value.ipv4 else o.value.ipv6;
      if n == 0 || n > |source.value.bits| then None else Some(Canonical(source.value, n))
  }

  /** Which clients are given a subnet, and which: the leading bits of their address, as many as their family is set to. */
  lemma DerivedSubnet(a: Addr, o: InboundSubnet)
    requires a.Valid()
    ensures var p, n := FromInbound(Some(a), Some(o)), if a.V4? then o.ipv4 else o.ipv6;
      && (p.Some? <==> 0 < n <= if a.V4? then 32 else 128)
      && (p.Some? ==>
            && (p.value.addr.V4? <==> a.V4?) && p.value.len == n
            && forall i :: 0 <= i < |a.bits| ==> p.value.addr.bits[i] == (i < n && a.bits[i]))
    ensures FromInbound(Some(a), None) == None && FromInbound(None, Some(o)) == None
  {
  }

  /** Two clients are given the same subnet exactly when they agree on the family and on the prefix bits. */
  lemma SameSubnetSamePrefixBits(a: Addr, b: Addr, o: InboundSubnet)
    requires a.Valid() && b.Valid()
    requires FromInbound(Some(a), Some(o)).Some?
    ensures var n := if a.V4? then o.ipv4 else o.ipv6;
      FromInbound(Some(a), Some(o)) == FromInbound(Some(b), Some(o)) <==> a.V4? == b.V4? && a.bits[..n] == b.bits[..n]
  {
    var n := if a.V4? then o.ipv4 else o.ipv6;
    var p, q := FromInbound(Some(a), Some(o)), FromInbound(Some(b), Some(o));
    if a.V4? == b.V4? {
      assert Mask(a.bits, n)[..n] == a.bits[..n] && Mask(b.bits, n)[..n] == b.bits[..n];
    }
  }

  /** resolveClientSubnet: an explicit subnet, the query's before the client's; else one derived from the inbound peer. */
  function Resolve(o: Options, clientDefault: Option<Prefix>, inboundDefault: Option<InboundSubnet>, source: Option<Addr>): (p: Option<Prefix>)
    requires source.Some? ==> source.value.Valid()
    requires (o.clientSubnet.Some? ==> o.clientSubnet.value.Valid()) && (clientDefault.Some? ==> clientDefault.value.Valid())
    ensures p.Some? ==> p.value.Valid()
  {
    if o.clientSubnet.Some? then o.clientSubnet
    else if clientDefault.Some? then clientDefault
    else FromInbound(source, if o.fromInbound.Some? then o.fromInbound else inboundDefault)
  }
}
