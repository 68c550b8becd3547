/**
 * SetClientSubnet and ExtractClientSubnet as they work on the objects of a message
 * (dns/extension_edns0_subnet.go): EDNS records are edited in place, on a copy of the message.
 */
module SubnetInPlace {
  import opened Optional
  import opened DnsMessage
  import opened ClientSubnet

  class OptRecord {
    var ttl: uint32
    var udpSize: nat
    var options: seq<EdnsOption>

    constructor (ttl: uint32, udpSize: nat, options: seq<EdnsOption>)
      ensures this.ttl == ttl && this.udpSize == udpSize && this.options == options
    {
      this.ttl, this.udpSize, this.options := ttl, udpSize, options;
    }
  }

  type PlainRecord = r: Record | !r.Opt? witness Data(0, 0)

  /** An entry of the additional section: EDNS records are shared objects, the others are never edited. */
  datatype RecordRef = OptRef(opt: OptRecord) | PlainRef(record: PlainRecord)

  function Opts(extra: seq<RecordRef>): set<OptRecord> {
    set r | r in extra && r.OptRef? :: r.opt
  }

  function Value(r: RecordRef): Record
    reads if r.OptRef? then {r.opt} else {}
  {
    match r
    case OptRef(opt) => Opt(opt.ttl, opt.udpSize, opt.options)
    case PlainRef(record) => record
  }

  /** What the records say. */
  function Values(extra: seq<RecordRef>): (r: seq<Record>)
    reads Opts(extra)
    ensures |r| == |extra| && forall i :: 0 <= i < |r| ==> r[i] == Value(extra[i])
  {
    seq(|extra|, i requires 0 <= i < |extra| reads Opts(extra) => Value(extra[i]))
  }

  /** No EDNS record is listed twice. */
  predicate Unshared(extra: seq<RecordRef>) {
    forall i, j :: 0 <= i < j < |extra| && extra[i].OptRef? && extra[j].OptRef? ==> extra[i].opt != extra[j].opt
  }

  /** The deep copy of a message's additional section. */
  method CopyRecords(extra: seq<RecordRef>) returns (copy: seq<RecordRef>)
    ensures Values(copy) == old(Values(extra))
    ensures Unshared(copy) && forall i :: 0 <= i < |copy| && copy[i].OptRef? ==> fresh(copy[i].opt)
  {
    copy := [];
    for i := 0 to |extra|
      invariant |copy| == i && Unshared(copy)
      invariant forall k :: 0 <= k < i && copy[k].OptRef? ==> fresh(copy[k].opt)
      invariant forall k :: 0 <= k < i ==> Value(copy[k]) == Value(extra[k])
    {
      var entry := extra[i];
      if entry.OptRef? {
        var opt := new OptRecord(entry.opt.ttl, entry.opt.udpSize, entry.opt.options);
        entry := OptRef(opt);
      }
      copy := copy + [entry];
    }
  }

  /** The inner search loop. */
  method SubnetIndex(options: seq<EdnsOption>) returns (j: nat)
    ensures j == FirstSubnet(options)
  {
    j := 0;
    while j < |options| && !options[j].Subnet?
      invariant j <= |options|
      invariant forall k :: 0 <= k < j ==> !options[k].Subnet?
    {
      j := j + 1;
    }
  }

  /** The search of setClientSubnet: the record it ends with, if any, and the place of the subnet in it. */
  method Find(extra: seq<RecordRef>) returns (opt: OptRecord?, index: nat, option: Option<nat>)
    ensures opt == null <==> FindTarget(Values(extra)).NewRecord?
    ensures match FindTarget(Values(extra))
      case ExistingOption(i, j) => index == i && i < |extra| && extra[i].OptRef? && extra[i].opt == opt && option == Some(j)
      case LastRecord => index == |extra| - 1 && extra[index].OptRef? && extra[index].opt == opt && option == None
      case NewRecord => opt == null
  {
    opt, index, option := null, 0, None;
    for i := 0 to |extra|
      invariant opt == null <==> i == 0 || !extra[i - 1].OptRef?
      invariant i > 0 ==> index == i - 1 && (extra[i - 1].OptRef? ==> opt == extra[i - 1].opt)
      invariant option == None
      invariant forall k :: 0 <= k < i && extra[k].OptRef? ==> FirstSubnet(extra[k].opt.options) == |extra[k].opt.options|
    {
      index := i;
      opt := null;
      if extra[i].OptRef? {
        opt := extra[i].opt;
        var j := SubnetIndex(opt.options);
        if j < |opt.options| {
          option := Some(j);
          SearchEnds(Values(extra), i);
          return;
        }
      }
    }
    SearchEnds(Values(extra), |extra|);
  }

  /** The search ends at the first record that carries a subnet. */
  lemma SearchEnds(extra: seq<Record>, i: nat)
    requires i <= |extra|
    requires i < |extra| ==> extra[i].Opt? && FirstSubnet(extra[i].options) < |extra[i].options|
    requires forall k :: 0 <= k < i && extra[k].Opt? ==> FirstSubnet(extra[k].options) == |extra[k].options|
    ensures FirstSubnetRecord(extra) == i
  {
    var found := FirstSubnetRecord(extra);
    assert found < |extra| ==> extra[found].Opt?;
  }

  /** The edit of one record; the subnet option keeps the scope it had. */
  method PutSubnet(opt: OptRecord, option: Option<nat>, p: Prefix)
    requires option.Some? ==> option.value < |opt.options| && opt.options[option.value].Subnet?
    modifies opt
    ensures opt.ttl == old(opt.ttl) && opt.udpSize == old(opt.udpSize)
    ensures opt.options ==
      if option.None? then old(opt.options) + [Encode(p, 0)]
      else old(opt.options)[option.value := Encode(p, old(opt.options)[option.value].scope)]
  {
    if option.None? {
      opt.options := opt.options + [Encode(p, 0)];
    } else {
      opt.options := opt.options[option.value := Encode(p, opt.options[option.value].scope)];
    }
  }

  /** The edit of the record that the search found. */
  method EditRecord(extra: seq<RecordRef>, index: nat, option: Option<nat>, p: Prefix)
    requires Unshared(extra) && index < |extra| && extra[index].OptRef?
    requires FindTarget(Values(extra)) == if option.Some? then ExistingOption(index, option.value) else LastRecord
    requires option.None? ==> index == |extra| - 1
    modifies Opts(extra)
    ensures Values(extra) == SetExtra(old(Values(extra)), p)
  {
    ghost var before := Values(extra);
    var opt := extra[index].opt;
    assert opt in Opts(extra) && before[index] == Value(extra[index]);
    PutSubnet(opt, option, p);
    forall k | 0 <= k < |extra| && k != index ensures Value(extra[k]) == before[k] {
      assert extra[k].OptRef? ==> extra[k].opt != opt;
    }
    assert Values(extra) == before[index := Value(extra[index])];
  }

  /** The search, as far as it says whether a record has to be added. */
  method HasRecord(extra: seq<RecordRef>) returns (found: bool)
    ensures found <==> !FindTarget(Values(extra)).NewRecord?
  {
    var opt, _, _ := Find(extra);
    found := opt != null;
  }

  /** A list of its own with one more record; the other records are shared with the message. */
  method AddRecord(extra: seq<RecordRef>, p: Prefix) returns (r: seq<RecordRef>)
    requires FindTarget(Values(extra)).NewRecord?
    ensures Values(r) == SetExtra(old(Values(extra)), p)
    ensures Values(extra) == old(Values(extra))
  {
    var added := new OptRecord(0, 0, []);
    added.options := [Encode(p, 0)];
    r := extra + [OptRef(added)];
    assert Value(r[|extra|]) == Opt(0, 0, [Encode(p, 0)]);
  }

  /** setClientSubnet without cloning: it edits the records it is given. */
  method SetInPlace(extra: seq<RecordRef>, p: Prefix) returns (r: seq<RecordRef>)
    requires Unshared(extra)
    modifies Opts(extra)
    ensures Values(r) == SetExtra(old(Values(extra)), p)
  {
    var opt, index, option := Find(extra);
    if opt == null {
      r := AddRecord(extra, p);
    } else {
      EditRecord(extra, index, option, p);
      r := extra;
    }
  }

  method SetOnCopy(extra: seq<RecordRef>, p: Prefix) returns (r: seq<RecordRef>)
    ensures Values(r) == SetExtra(old(Values(extra)), p)
    ensures Values(extra) == old(Values(extra))
  {
    ghost var before := Values(extra);
    var copy := CopyRecords(extra);
    assert Values(copy) == before;
    r := SetInPlace(copy, p);
    forall k | 0 <= k < |extra| ensures Value(extra[k]) == before[k] {
    }
  }

  /**
   * setClientSubnet with cloning, which is what SetClientSubnet calls: it edits a copy and changes no object
   * there was before, so the caller's message reads as before.
   */
  method SetClientSubnet(extra: seq<RecordRef>, p: Prefix) returns (r: seq<RecordRef>)
    ensures Values(r) == SetExtra(old(Values(extra)), p)
    ensures Values(extra) == old(Values(extra))
  {
    ghost var before := Values(extra);
    var found := HasRecord(extra);
    assert Values(extra) == before;
    if found {
      r := SetOnCopy(extra, p);
    } else {
      r := AddRecord(extra, p);
    }
  }

  /** ExtractClientSubnet, with the search for the last EDNS record. */
  method ExtractClientSubnet(m: Message) returns (subnet: Option<Prefix>)
    ensures subnet == Extract(m)
  {
    var opt := LastOpt(m.extra);
    if opt.None? {
      return None;
    }
    var j := SubnetIndex(opt.value.options);
    if j == |opt.value.options| {
      return None;
    }
    subnet := Decode(opt.value.options[j]);
  }
}
