/** DNS messages and client subnets, as far as the resolver's cache and its EDNS code look at them. */
module DnsMessage {
  import opened Optional

  const TWO_32: nat := 0x1_0000_0000

  const RCODE_SUCCESS: nat := 0
  const RCODE_FORMAT_ERROR: nat := 1
  const RCODE_NAME_ERROR: nat := 3

  const TYPE_A: nat := 1
  const TYPE_AAAA: nat := 28

  type uint32 = x: nat | x < TWO_32

  /** A bit string, most significant bit first: the address octets in network order. */
  type Bits = seq<bool>

  datatype Addr = V4(bits: Bits) | V6(bits: Bits)
  {
    predicate Valid() {
      |bits| == if V4? then 32 else 128
    }
  }

  /** An address prefix; an invalid netip.Prefix is None. */
  datatype Prefix = Prefix(addr: Addr, len: nat)
  {
    predicate Valid() {
      addr.Valid() && len <= |addr.bits|
    }

    function Masked(): (p: Prefix)
      requires Valid()
      ensures p.Valid() && p.len == len && (p.addr.V4? <==> addr.V4?)
    {
      this.(addr := if addr.V4? then V4(Mask(addr.bits, len)) else V6(Mask(addr.bits, len)))
    }
  }

  function Zeros(n: nat): (b: Bits)
    ensures |b| == n
  {
    seq(n, i => false)
  }

  function Mask(bits: Bits, n: nat): (b: Bits)
    requires n <= |bits|
    ensures |b| == |bits| && b[..n] == bits[..n]
  {
    bits[..n] + Zeros(|bits| - n)
  }

  datatype EdnsOption =
    | Subnet(family: nat, netmask: nat, scope: nat, address: Bits)
    | OtherOption(code: nat)

  /** `Opt` is the EDNS pseudo-record: its TTL field holds flags, a version and an extended rcode. */
  datatype Record =
    | Opt(ttl: uint32, udpSize: nat, options: seq<EdnsOption>)
    | SOA(ttl: uint32, minimum: uint32)
    | Data(ttl: uint32, content: nat)

  datatype Question = Question(name: string, qtype: nat, qclass: nat)

  datatype Message = Message(
    id: nat,
    rcode: nat,
    question: seq<Question>,
    answer: seq<Record>,
    ns: seq<Record>,
    extra: seq<Record>)
  {
    function Records(): seq<Record> {
      answer + ns + extra
    }
  }

  /** IsEdns0: the last OPT record of the additional section. */
  function LastOpt(extra: seq<Record>): (r: Option<Record>)
    ensures r.Some? ==> r.value.Opt?
  {
    if extra == [] then None
    else if extra[|extra| - 1].Opt? then Some(extra[|extra| - 1])
    else LastOpt(extra[..|extra| - 1])
  }

  datatype Strategy = AsIs | PreferIPv4 | PreferIPv6 | IPv4Only | IPv6Only

  /** The prefix lengths to derive from a client's address; 0 means "not for this family". */
  datatype InboundSubnet = InboundSubnet(ipv4: nat, ipv6: nat)

  /** Query options. */
  datatype Options = Options(
    strategy: Strategy,
    disableCache: bool,
    rewriteTTL: Option<uint32>,
    clientSubnet: Option<Prefix>,
    fromInbound: Option<InboundSubnet>)
}
