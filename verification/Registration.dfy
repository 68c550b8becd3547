/**
 * The registration tables of the outbound manager and of the DNS transport manager
 * (adapter/outbound/manager.go, dns/transport_manager.go): a list, a map by tag, an index of dependents and
 * a default. The two managers differ in how they treat the default and fake-IP servers only.
 */
module Registration {
  import opened Optional

  /** A registered outbound or DNS server; the managers compare these by identity. */
  class Item {
    const tag: string
    const dependencies: seq<string>
    const fakeIP: bool

    constructor (tag: string, dependencies: seq<string>, fakeIP: bool)
      ensures this.tag == tag && this.dependencies == dependencies && this.fakeIP == fakeIP
    {
      this.tag, this.dependencies, this.fakeIP := tag, dependencies, fakeIP;
    }
  }

  type Dependents = map<string, seq<string>>

  // ---------------------------------------------------------------- the index of dependents

  function Recorded(m: Dependents, d: string): seq<string> {
    if d in m then m[d] else []
  }

  function AddEdges(m: Dependents, dependencies: seq<string>, tag: string): Dependents {
    if dependencies == [] then m
    else
      var n := |dependencies| - 1;
      var before := AddEdges(m, dependencies[..n], tag);
      before[dependencies[n] := Recorded(before, dependencies[n]) + [tag]]
  }

  function Except(tags: seq<string>, tag: string): (r: seq<string>)
    ensures forall t :: t in r <==> t in tags && t != tag
  {
    if tags == [] then []
    else if tags[0] == tag then Except(tags[1..], tag)
    else [tags[0]] + Except(tags[1..], tag)
  }

  /** Remove's step for one dependency: a record of one entry goes, whoever it belongs to. */
  function DropEdge(m: Dependents, d: string, tag: string): Dependents {
    if |Recorded(m, d)| == 1 then m - {d} else m[d := Except(Recorded(m, d), tag)]
  }

  function DropEdges(m: Dependents, dependencies: seq<string>, tag: string): Dependents {
    if dependencies == [] then m
    else
      var n := |dependencies| - 1;
      DropEdge(DropEdges(m, dependencies[..n], tag), dependencies[n], tag)
  }

  lemma {:induction false} EdgesAdded(m: Dependents, dependencies: seq<string>, tag: string, d: string)
    ensures forall t :: t in Recorded(m, d) ==> t in Recorded(AddEdges(m, dependencies, tag), d)
    ensures d in dependencies ==> tag in Recorded(AddEdges(m, dependencies, tag), d)
  {
    if dependencies != [] {
      EdgesAdded(m, dependencies[..|dependencies| - 1], tag, d);
    }
  }

  function Occurrences(s: seq<string>, x: string): nat {
    if s == [] then 0 else Occurrences(s[..|s| - 1], x) + if s[|s| - 1] == x then 1 else 0
  }

  lemma {:induction false} OccursIfMember(s: seq<string>, x: string)
    ensures Occurrences(s, x) > 0 <==> x in s
  {
    if s != [] {
      OccursIfMember(s[..|s| - 1], x);
      assert s == s[..|s| - 1] + [s[|s| - 1]];
    }
  }

  lemma {:induction false} ExceptTwice(tags: seq<string>, tag: string)
    ensures Except(Except(tags, tag), tag) == Except(tags, tag)
    ensures tag in tags ==> |Except(tags, tag)| < |tags|
    ensures |Except(tags, tag)| <= |tags|
  {
    if tags != [] {
      ExceptTwice(tags[1..], tag);
      if tags[0] != tag {
        var rest := Except(tags[1..], tag);
        assert ([tags[0]] + rest)[1..] == rest;
      }
    }
  }

  /** What is left of a dependency's record after Remove has gone through the dependencies of `tag`. */
  lemma {:induction false} RecordAfterDrop(m: Dependents, dependencies: seq<string>, tag: string, d: string)
    requires d in dependencies ==> tag in Recorded(m, d)
    ensures var left := Recorded(DropEdges(m, dependencies, tag), d);
      var others := Except(Recorded(m, d), tag);
      left == if Occurrences(dependencies, d) == 0 then Recorded(m, d)
              else if Occurrences(dependencies, d) == 1 || |others| != 1 then others
              else []
  {
    if dependencies != [] {
      var n := |dependencies| - 1;
      assert dependencies == dependencies[..n] + [dependencies[n]];
      RecordAfterDrop(m, dependencies[..n], tag, d);
      OccursIfMember(dependencies[..n], d);
      OccursIfMember(dependencies, d);
      ExceptTwice(Recorded(m, d), tag);
    }
  }

  /** Remove loses the record that `dependent` needs `d`: `d` is listed twice and nobody else is recorded. */
  predicate LosesEdge(m: Dependents, dependencies: seq<string>, tag: string, dependent: string, d: string) {
    Occurrences(dependencies, d) >= 2 && Except(Recorded(m, d), tag) == [dependent]
  }

  lemma DropKeepsEdges(m: Dependents, dependencies: seq<string>, tag: string, dependent: string, d: string)
    requires d in dependencies ==> tag in Recorded(m, d)
    requires dependent != tag && dependent in Recorded(m, d)
    ensures dependent in Recorded(DropEdges(m, dependencies, tag), d) <==> !LosesEdge(m, dependencies, tag, dependent, d)
  {
    RecordAfterDrop(m, dependencies, tag, d);
    var others := Except(Recorded(m, d), tag);
    assert dependent in others;
    if |others| == 1 {
      assert others == [dependent];
    }
  }

  // ---------------------------------------------------------------- the list

  function Without(items: seq<Item>, x: Item): seq<Item> {
    if items == [] then []
    else if items[0] == x then items[1..]
    else [items[0]] + Without(items[1..], x)
  }

  predicate DistinctItems(items: seq<Item>) {
    forall i, j :: 0 <= i < j < |items| ==> items[i] != items[j]
  }

  lemma {:induction false} WithoutAt(items: seq<Item>, k: nat)
    requires k < |items| && DistinctItems(items)
    ensures Without(items, items[k]) == items[..k] + items[k + 1..]
  {
    if k > 0 {
      assert items[1..][k - 1] == items[k];
      WithoutAt(items[1..], k - 1);
      assert [items[0]] + (items[1..][..k - 1] + items[1..][k..]) == items[..k] + items[k + 1..];
    }
  }

  lemma {:induction false} WithoutMembers(items: seq<Item>, y: Item)
    requires DistinctItems(items)
    ensures forall x :: x in Without(items, y) <==> x in items && x != y
    ensures DistinctItems(Without(items, y))
  {
    if items != [] {
      var rest := items[1..];
      assert items == [items[0]] + rest;
      assert items[0] !in rest;
      if items[0] != y {
        WithoutMembers(rest, y);
      }
    }
  }

  lemma WithoutOne(items: seq<Item>, k: nat)
    requires k < |items| && DistinctItems(items)
    ensures Without(items, items[k]) == items[..k] + items[k + 1..]
    ensures forall x :: x in Without(items, items[k]) <==> x in items && x != items[k]
    ensures DistinctItems(Without(items, items[k]))
  {
    WithoutAt(items, k);
    WithoutMembers(items, items[k]);
  }

  /** List and map are in bijection by tag. */
  predicate Coherent(items: seq<Item>, byTag: map<string, Item>) {
    && DistinctItems(items)
    && (forall x :: x in items ==> x.tag in byTag && byTag[x.tag] == x)
    && (forall t :: t in byTag ==> byTag[t] in items && byTag[t].tag == t)
  }

  /** Every dependency of a registered item is recorded. */
  predicate EdgesRecorded(items: seq<Item>, dependents: Dependents) {
    forall x, d :: x in items && d in x.dependencies ==> x.tag in Recorded(dependents, d)
  }

  lemma TakeOut(items: seq<Item>, byTag: map<string, Item>, tag: string)
    requires Coherent(items, byTag) && tag in byTag
    ensures Coherent(Without(items, byTag[tag]), byTag - {tag})
    ensures forall x :: x in Without(items, byTag[tag]) <==> x in items && x != byTag[tag]
    ensures forall x :: x in items ==> (x != byTag[tag] <==> x.tag != tag)
  {
    var k :| 0 <= k < |items| && items[k] == byTag[tag];
    WithoutOne(items, k);
  }

  /** Removing an item keeps all edges of the others recorded, unless it loses one of them. */
  lemma EdgesAfterRemove(items: seq<Item>, byTag: map<string, Item>, dependents: Dependents, tag: string)
    requires Coherent(items, byTag) && tag in byTag && EdgesRecorded(items, dependents)
    ensures var x := byTag[tag];
      EdgesRecorded(Without(items, x), DropEdges(dependents, x.dependencies, tag)) <==>
        forall y, d :: y in items && y != x && d in y.dependencies ==> !LosesEdge(dependents, x.dependencies, tag, y.tag, d)
    ensures EdgesRecorded(Without(items, byTag[tag]), dependents)
  {
    var x := byTag[tag];
    TakeOut(items, byTag, tag);
    forall y, d | y in items && y != x && d in y.dependencies
      ensures y.tag in Recorded(DropEdges(dependents, x.dependencies, tag), d) <==> !LosesEdge(dependents, x.dependencies, tag, y.tag, d)
    {
      DropKeepsEdges(dependents, x.dependencies, tag, y.tag, d);
    }
    if EdgesRecorded(Without(items, x), DropEdges(dependents, x.dependencies, tag)) {
      forall y, d | y in items && y != x && d in y.dependencies ensures !LosesEdge(dependents, x.dependencies, tag, y.tag, d) {
        assert y in Without(items, x);
        DropKeepsEdges(dependents, x.dependencies, tag, y.tag, d);
      }
    }
  }

  /** The list and the map after Create. */
  function Replaced(items: seq<Item>, byTag: map<string, Item>, tag: string): seq<Item> {
    if tag in byTag then Without(items, byTag[tag]) else items
  }

  lemma PutIn(items: seq<Item>, byTag: map<string, Item>, dependents: Dependents, x: Item)
    requires Coherent(items, byTag) && x !in items
    ensures Coherent(Replaced(items, byTag, x.tag) + [x], byTag[x.tag := x])
    ensures EdgesRecorded(items, dependents) ==>
      EdgesRecorded(Replaced(items, byTag, x.tag) + [x], AddEdges(dependents, x.dependencies, x.tag))
    ensures forall y :: y in Replaced(items, byTag, x.tag) <==> y in items && y.tag != x.tag
  {
    var rest, all := Replaced(items, byTag, x.tag), Replaced(items, byTag, x.tag) + [x];
    if x.tag in byTag {
      TakeOut(items, byTag, x.tag);
    }
    assert all[|rest|] == x;
    forall y | y in all ensures y == x || y in rest {
    }
    if EdgesRecorded(items, dependents) {
      forall y, d | y in all && d in y.dependencies ensures y.tag in Recorded(AddEdges(dependents, x.dependencies, x.tag), d) {
        EdgesAdded(dependents, x.dependencies, x.tag, d);
      }
    }
  }

  // ---------------------------------------------------------------- the managers

  datatype Kind = Outbounds | Transports

  datatype Error =
    | Invalid
    | RegistryFailed
    | StartFailed
    | CloseFailed
    | DependedBy(tags: seq<string>)
    | DefaultCannotBeFakeIP
    | MultipleFakeIP
    | DefaultNotFound

  class Manager {
    const kind: Kind
    const defaultTag: string
    var started: bool
    var items: seq<Item>
    var byTag: map<string, Item>
    var dependents: Dependents
    var defaultItem: Item?
    var fakeIPItem: Item?

    constructor (kind: Kind, defaultTag: string)
      ensures this.kind == kind && this.defaultTag == defaultTag
      ensures Valid() && items == [] && byTag == map[] && dependents == map[] && defaultItem == null && fakeIPItem == null && !started
    {
      this.kind, this.defaultTag := kind, defaultTag;
      started, items, byTag, dependents := false, [], map[], map[];
      defaultItem, fakeIPItem := null, null;
    }

    predicate Valid()
      reads this
    {
      && Coherent(items, byTag)
      && (kind.Outbounds? && defaultTag == "" && defaultItem == null ==> items == [])
    }

    method IndexOf(x: Item) returns (index: int)
      ensures index == -1 <==> x !in items
      ensures index != -1 ==> 0 <= index < |items| && items[index] == x
    {
      for i := 0 to |items|
        invariant x !in items[..i]
      {
        if items[i] == x {
          return i;
        }
      }
      index := -1;
    }

    /** The shared removal from the list; the index is always found. */
    method Unlist(x: Item)
      requires DistinctItems(items) && x in items
      modifies this`items
      ensures items == Without(old(items), x)
    {
      var index := IndexOf(x);
      WithoutOne(items, index);
      items := items[..index] + items[index + 1..];
    }

    /** Create's changes to list, map and dependents. */
    method Register(x: Item)
      requires Coherent(items, byTag) && x !in items
      modifies this`items, this`byTag, this`dependents
      ensures Coherent(items, byTag)
      ensures items == Replaced(old(items), old(byTag), x.tag) + [x]
      ensures byTag == old(byTag)[x.tag := x] && dependents == AddEdges(old(dependents), x.dependencies, x.tag)
      ensures old(EdgesRecorded(items, dependents)) ==> EdgesRecorded(items, dependents)
    {
      PutIn(items, byTag, dependents, x);
      if x.tag in byTag {
        Unlist(byTag[x.tag]);
      }
      items := items + [x];
      byTag := byTag[x.tag := x];
      dependents := AddEdges(dependents, x.dependencies, x.tag);
    }

    /** Create's changes to the default and to the fake-IP server. */
    method Promote(x: Item) returns (error: Option<Error>)
      modifies this`defaultItem, this`fakeIPItem
      ensures defaultItem == if TakesDefault(x.tag, old(defaultItem)) && !(kind.Transports? && x.fakeIP) then x else old(defaultItem)
      ensures error.None? <==> !(kind.Transports? && x.fakeIP && (TakesDefault(x.tag, old(defaultItem)) || old(fakeIPItem) != null))
      ensures error.Some? ==> error.value == if TakesDefault(x.tag, old(defaultItem)) then DefaultCannotBeFakeIP else MultipleFakeIP
      ensures fakeIPItem == if kind.Transports? && x.fakeIP && error.None? then x else old(fakeIPItem)
    {
      if x.tag == defaultTag || (defaultTag == "" && defaultItem == null) {
        if kind.Transports? && x.fakeIP {
          return Some(DefaultCannotBeFakeIP);
        }
        defaultItem := x;
      }
      if kind.Transports? && x.fakeIP {
        if fakeIPItem != null {
          return Some(MultipleFakeIP);
        }
        fakeIPItem := x;
      }
      error := None;
    }

    /** What Create does with a new item: list, map and dependents first, then the default and the fake-IP server. */
    method Install(x: Item) returns (error: Option<Error>)
      requires Valid() && x !in items
      modifies this
      ensures Valid() && started == old(started)
      ensures old(EdgesRecorded(items, dependents)) ==> EdgesRecorded(items, dependents)
      ensures items == Replaced(old(items), old(byTag), x.tag) + [x] && byTag == old(byTag)[x.tag := x]
      ensures dependents == AddEdges(old(dependents), x.dependencies, x.tag)
      ensures defaultItem == if TakesDefault(x.tag, old(defaultItem)) && !(kind.Transports? && x.fakeIP) then x else old(defaultItem)
      ensures old(defaultItem != null && defaultItem in items) ==>
        (defaultItem in items <==> old(defaultItem).tag != x.tag || TakesDefaultByTag(kind, defaultTag, x.tag, x.fakeIP))
      ensures error.None? <==> !(kind.Transports? && x.fakeIP && (TakesDefault(x.tag, old(defaultItem)) || old(fakeIPItem) != null))
      ensures error.Some? ==> error.value == if TakesDefault(x.tag, old(defaultItem)) then DefaultCannotBeFakeIP else MultipleFakeIP
      ensures fakeIPItem == if kind.Transports? && x.fakeIP && error.None? then x else old(fakeIPItem)
    {
      if defaultItem != null && defaultItem in items {
        DefaultStaysRegistered(kind, defaultTag, items, byTag, defaultItem, x);
      }
      Register(x);
      error := Promote(x);
    }

    /**
     * Create. Its failures before the tables change leave everything alone; a DNS manager also fails after it has
     * registered a fake-IP server that may not be the default, or not be the second one. A default in the list
     * stays in the list exactly when the new item has another tag or takes over by its tag.
     */
    method Create(tag: string, dependencies: seq<string>, fakeIP: bool, registryFails: bool, startFails: bool, closeFails: bool)
      returns (error: Option<Error>, x: Item?)
      requires Valid()
      modifies this
      ensures Valid()
      ensures old(EdgesRecorded(items, dependents)) ==> EdgesRecorded(items, dependents)
      ensures x == null <==> tag == "" || registryFails || (started && startFails) || (started && closeFails && tag in old(byTag))
      ensures x == null ==> unchanged(this) && error == Some(
        if tag == "" then Invalid else if registryFails then RegistryFailed else if started && startFails then StartFailed else CloseFailed)
      ensures x != null ==> fresh(x) && x.tag == tag && x.dependencies == dependencies && x.fakeIP == fakeIP
      ensures x != null ==> items == Replaced(old(items), old(byTag), tag) + [x] && byTag == old(byTag)[tag := x]
      ensures x != null ==> dependents == AddEdges(old(dependents), dependencies, tag)
      ensures x != null ==> defaultItem == if TakesDefault(tag, old(defaultItem)) && !(kind.Transports? && fakeIP) then x else old(defaultItem)
      ensures x != null && !(kind.Transports? && fakeIP) && (tag == defaultTag || (defaultTag == "" && old(defaultItem) == null)) ==> defaultItem == x
      ensures x != null && tag != defaultTag && (defaultTag != "" || old(defaultItem) != null) ==> defaultItem == old(defaultItem)
      ensures x != null && old(defaultItem != null && defaultItem in items) ==>
        (defaultItem in items <==> old(defaultItem).tag != tag || TakesDefaultByTag(kind, defaultTag, tag, fakeIP))
      ensures x != null ==> (error.None? <==> !(kind.Transports? && fakeIP && (TakesDefault(tag, old(defaultItem)) || old(fakeIPItem) != null)))
      ensures x != null && error.Some? ==> error.value == if TakesDefault(tag, old(defaultItem)) then DefaultCannotBeFakeIP else MultipleFakeIP
      ensures x != null ==> fakeIPItem == if kind.Transports? && fakeIP && error.None? then x else old(fakeIPItem)
      ensures started == old(started)
    {
      x := null;
      if tag == "" {
        return Some(Invalid), null;
      }
      if registryFails {
        return Some(RegistryFailed), null;
      }
      if started && startFails {
        return Some(StartFailed), null;
      }
      if started && closeFails && tag in byTag {
        return Some(CloseFailed), null;
      }
      x := new Item(tag, dependencies, fakeIP);
      error := Install(x);
    }

    predicate TakesDefault(tag: string, current: Item?) {
      tag == defaultTag || (defaultTag == "" && current == null)
    }

    /**
     * Remove. It edits list, map and default before it refuses an item that others depend on. The DNS manager
     * replaces a removed default by the first remaining server exactly when that one is a fake-IP server.
     */
    method Remove(tag: string, closeFails: bool) returns (error: Option<Error>)
      requires Valid()
      modifies this
      ensures Valid()
      ensures tag !in old(byTag) ==> error == Some(Invalid) && unchanged(this)
      ensures tag in old(byTag) ==> items == Without(old(items), old(byTag)[tag]) && byTag == old(byTag) - {tag}
      ensures tag in old(byTag) ==> var x, refusesDefault := old(byTag)[tag], old(RefusesDefault(byTag, tag));
        && defaultItem == (if x != old(defaultItem) || refusesDefault then old(defaultItem) else if items == [] then null else items[0])
        && (refusesDefault <==> error == Some(DefaultCannotBeFakeIP))
        && (!refusesDefault && Recorded(old(dependents), tag) != [] <==> error.Some? && error.value.DependedBy?)
        && dependents == (if error == Some(DefaultCannotBeFakeIP) || (error.Some? && error.value.DependedBy?) then old(dependents)
                          else DropEdges(old(dependents), x.dependencies, tag))
      ensures fakeIPItem == old(fakeIPItem) && started == old(started)
      ensures tag in old(byTag) && error.Some? && error.value.DependedBy? ==> error.value.tags == old(dependents)[tag]
      ensures tag in old(byTag) && !old(RefusesDefault(byTag, tag)) && Recorded(old(dependents), tag) == [] ==>
        error == if started && closeFails && kind.Outbounds? then Some(CloseFailed) else None
      ensures tag in old(byTag) && old(EdgesRecorded(items, dependents)) ==>
        (EdgesRecorded(items, dependents) <==>
          dependents == old(dependents) ||
          forall y, d :: y in items && d in y.dependencies ==> !LosesEdge(old(dependents), old(byTag)[tag].dependencies, tag, y.tag, d))
    {
      if tag !in byTag {
        return Some(Invalid);
      }
      var x := byTag[tag];
      TakeOut(items, byTag, tag);
      if EdgesRecorded(items, dependents) {
        EdgesAfterRemove(items, byTag, dependents, tag);
      }
      byTag := byTag - {tag};
      Unlist(x);
      if defaultItem == x {
        if |items| > 0 {
          var next := items[0];
          if kind.Transports? && !next.fakeIP {
            return Some(DefaultCannotBeFakeIP);
          }
          defaultItem := next;
        } else {
          defaultItem := null;
        }
      }
      var dependBy := Recorded(dependents, tag);
      if |dependBy| > 0 {
        return Some(DependedBy(dependBy));
      }
      dependents := DropEdges(dependents, x.dependencies, tag);
      if started && closeFails && kind.Outbounds? {
        return Some(CloseFailed);
      }
      error := None;
    }

    /** The DNS manager's check, which refuses every next default but a fake-IP server. */
    predicate RefusesDefault(byTag: map<string, Item>, tag: string)
      requires Coherent(items, byTag) && tag in byTag
      reads this
    {
      kind.Transports? && byTag[tag] == defaultItem && Without(items, byTag[tag]) != [] && !Without(items, byTag[tag])[0].fakeIP
    }

    /**
     * The start of the outbound manager: it looks for a missing default among the endpoints, or makes an outbound
     * of its own. It makes one only while the list is empty, which keeps list and map coherent.
     */
    method EnsureDefault(endpoint: Item?, fallbackTag: string, fallbackFails: bool) returns (error: Option<Error>)
      requires Valid() && kind.Outbounds?
      modifies this
      ensures Valid()
      ensures error.None? ==> defaultItem != null
      ensures old(defaultItem) != null ==> error.None? && unchanged(this)
      ensures old(defaultItem) == null && defaultTag != "" ==>
        items == old(items) && byTag == old(byTag) && defaultItem == endpoint && (error.None? <==> endpoint != null)
      ensures old(defaultItem) == null && defaultTag == "" && error.None? ==>
        fresh(defaultItem) && items == [defaultItem] && byTag == map[fallbackTag := defaultItem]
      ensures dependents == old(dependents) && fakeIPItem == old(fakeIPItem) && started == old(started)
      ensures old(defaultItem) == null && defaultTag == "" ==> (error.None? <==> !fallbackFails) && (error.Some? ==> unchanged(this))
    {
      if defaultTag != "" && defaultItem == null {
        if endpoint == null {
          return Some(DefaultNotFound);
        }
        defaultItem := endpoint;
      }
      if defaultItem == null {
        if fallbackFails {
          return Some(RegistryFailed);
        }
        var direct := new Item(fallbackTag, [], false);
        assert forall t :: t in byTag ==> byTag[t] in items;
        items := items + [direct];
        byTag := byTag[fallbackTag := direct];
        defaultItem := direct;
      }
      error := None;
    }
  }

  /** An item of this tag becomes the default whatever the default was. */
  predicate TakesDefaultByTag(kind: Kind, defaultTag: string, tag: string, fakeIP: bool) {
    tag == defaultTag && !(kind.Transports? && fakeIP)
  }

  /** The default after Create, when there was one before. */
  function DefaultAfter(kind: Kind, defaultTag: string, current: Item, x: Item): Item {
    if TakesDefaultByTag(kind, defaultTag, x.tag, x.fakeIP) then x else current
  }

  /**
   * A default that is in the list before Create is in the list afterwards exactly when the new item has another
   * tag, or takes over by its tag. Creating an item anew otherwise leaves the object it replaced as the default.
   */
  lemma DefaultStaysRegistered(kind: Kind, defaultTag: string, items: seq<Item>, byTag: map<string, Item>, current: Item, x: Item)
    requires Coherent(items, byTag) && x !in items && current in items
    ensures DefaultAfter(kind, defaultTag, current, x) in Replaced(items, byTag, x.tag) + [x] <==>
      current.tag != x.tag || TakesDefaultByTag(kind, defaultTag, x.tag, x.fakeIP)
  {
    PutIn(items, byTag, map[], x);
    var all := Replaced(items, byTag, x.tag) + [x];
    assert all[|all| - 1] == x;
  }

  // ---------------------------------------------------------------- runs that lose something

  /** The dependents of "d" when "b" needs it once and "a" lists it twice. */
  function ListedTwice(): Dependents {
    AddEdges(AddEdges(map[], ["d"], "b"), ["d", "d"], "a")
  }

  lemma AddOneEdge(m: Dependents, d: string, tag: string)
    ensures AddEdges(m, [d], tag) == m[d := Recorded(m, d) + [tag]]
    ensures AddEdges(m, [d, d], tag) == m[d := Recorded(m, d) + [tag, tag]]
  {
    assert [d][..0] == [];
    assert [d, d][..1] == [d];
    var once := AddEdges(m, [d], tag);
    assert once == m[d := Recorded(m, d) + [tag]] by {
      assert AddEdges(m, [], tag) == m;
    }
    assert Recorded(once, d) + [tag] == Recorded(m, d) + [tag, tag];
  }

  lemma ListedTwiceIsLost()
    ensures Recorded(ListedTwice(), "d") == ["b", "a", "a"] && Recorded(ListedTwice(), "a") == []
    ensures Recorded(DropEdges(ListedTwice(), ["d", "d"], "a"), "d") == []
  {
    var before := AddEdges(map[], ["d"], "b");
    AddOneEdge(map[], "d", "b");
    AddOneEdge(before, "d", "a");
    assert Recorded(ListedTwice(), "d") == ["b", "a", "a"];
    assert ["b", "a", "a"][1..] == ["a", "a"] && ["a", "a"][1..] == ["a"] && ["a"][1..] == [];
    assert Except(["a"], "a") == [] && Except(["a", "a"], "a") == [];
    assert Except(["b", "a", "a"], "a") == ["b"];
    assert ["d", "d"][..1] == ["d"] && ["d"][..0] == [];
    assert Occurrences(["d"], "d") == 1 && Occurrences(["d", "d"], "d") == 2;
    RecordAfterDrop(ListedTwice(), ["d", "d"], "a", "d");
  }

  method ThreeItems() returns (m: Manager, b: Item?)
    ensures fresh(m) && m.Valid() && m.kind == Outbounds && m.dependents == ListedTwice()
    ensures "a" in m.byTag && m.byTag["a"].dependencies == ["d", "d"] && m.defaultItem != m.byTag["a"]
    ensures b != null && b in m.items && b != m.byTag["a"] && b.dependencies == ["d"]
  {
    m := new Manager(Outbounds, "");
    var error, d, a;
    error, d := m.Create("d", [], false, false, false, false);
    error, b := m.Create("b", ["d"], false, false, false, false);
    assert m.items == [d, b];
    error, a := m.Create("a", ["d", "d"], false, false, false, false);
    assert m.items[1] == b;
  }

  /** Three creations and a removal that lead to a lost record: "b" still needs "d", and nobody is recorded for it. */
  method RunThatLosesARecord() returns (m: Manager, b: Item?)
    ensures b != null && b in m.items && "d" in b.dependencies && Recorded(m.dependents, "d") == []
  {
    m, b := ThreeItems();
    ListedTwiceIsLost();
    TakeOut(m.items, m.byTag, "a");
    var error := m.Remove("a", false);
  }

  /** Two creations of one item that leave the first as the default, which is no longer in the list. */
  method RunThatLeavesAStaleDefault() returns (m: Manager, first: Item?)
    ensures first != null && m.defaultItem == first && first !in m.items && |m.items| == 1
  {
    m := new Manager(Outbounds, "");
    var error, second;
    error, first := m.Create("a", [], false, false, false, false);
    assert m.items == [first];
    error, second := m.Create("a", [], false, false, false, false);
    assert m.items == [second];
  }

  method OneServer() returns (m: Manager, first: Item?)
    ensures fresh(m) && m.Valid() && m.kind == Transports && m.defaultTag == "" && !m.started && first != null && first.tag == "a"
    ensures m.items == [first] && m.byTag == map["a" := first] && m.defaultItem == first
  {
    m := new Manager(Transports, "");
    var error;
    error, first := m.Create("a", [], false, false, false, false);
  }

  method TwoServers() returns (m: Manager, first: Item?, second: Item?)
    ensures fresh(m) && m.Valid() && m.kind == Transports && first != null && second != null
    ensures m.items == [first, second] && first != second && !second.fakeIP
    ensures m.defaultItem == first && "a" in m.byTag && m.byTag["a"] == first
  {
    m, first := OneServer();
    var error;
    error, second := m.Create("b", [], false, false, false, false);
    assert "a" != "b" by {
      assert "a"[0] != "b"[0];
    }
  }

  /** A DNS manager that refuses to replace its default by a plain server, and keeps a removed one. */
  method RunThatRefusesAPlainDefault() returns (m: Manager, first: Item?, error: Option<Error>)
    ensures error == Some(DefaultCannotBeFakeIP) && first != null && m.defaultItem == first && first !in m.items
    ensures |m.items| == 1 && !m.items[0].fakeIP
  {
    var second;
    m, first, second := TwoServers();
    WithoutAt(m.items, 0);
    assert Without(m.items, first) == [second];
    error := m.Remove("a", false);
  }
}
