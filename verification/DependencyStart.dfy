/**
 * Starting servers and outbounds after their dependencies (dns/transport_manager.go `startTransports`,
 * adapter/outbound/manager.go `startOutbounds`): the greedy rounds, and the diagnosis of a stuck start.
 */
module DependencyStart {

  datatype Item = Item(tag: string, dependencies: seq<string>, starts: bool)

  datatype Report =
    | Started
    | StartFailed(tag: string)
    | Circular(path: seq<string>)
    | NotFound(dependency: string, dependent: string)

  predicate DistinctTags(items: seq<Item>) {
    forall i, j :: 0 <= i < j < |items| ==> items[i].tag != items[j].tag
  }

  /** The manager's map files items of the list under their own tags. */
  predicate TableOf(items: seq<Item>, table: map<string, Item>) {
    forall t :: t in table ==> table[t] in items && table[t].tag == t
  }

  predicate Distinct(s: seq<string>) {
    forall i, j :: 0 <= i < j < |s| ==> s[i] != s[j]
  }

  predicate IsTag(items: seq<Item>, t: string) {
    exists i :: 0 <= i < |items| && items[i].tag == t
  }

  // ---------------------------------------------------------------- what may be started

  predicate Ready(item: Item, started: set<string>) {
    forall d :: d in item.dependencies ==> d in started
  }

  /** Nothing more can be started: whatever has all its dependencies in the set is in the set. */
  predicate Closed(items: seq<Item>, started: set<string>) {
    forall i :: 0 <= i < |items| && Ready(items[i], started) ==> items[i].tag in started
  }

  function Elements(order: seq<string>): set<string> {
    set t | t in order
  }

  /** Each entry is the tag of an item all of whose dependencies come before it, and no tag comes twice. */
  predicate ValidOrder(items: seq<Item>, order: seq<string>) {
    && Distinct(order)
    && (forall k :: 0 <= k < |order| ==> exists i :: 0 <= i < |items| && items[i].tag == order[k] && Ready(items[i], Elements(order[..k])))
  }

  lemma LastOfOrder(items: seq<Item>, order: seq<string>)
    requires ValidOrder(items, order) && order != []
    ensures var n := |order| - 1;
      && ValidOrder(items, order[..n])
      && Elements(order) == Elements(order[..n]) + {order[n]} && order[n] !in Elements(order[..n])
      && exists i :: 0 <= i < |items| && items[i].tag == order[n] && Ready(items[i], Elements(order[..n]))
  {
    var n := |order| - 1;
    var front := order[..n];
    forall k | 0 <= k < n
      ensures exists i :: 0 <= i < |items| && items[i].tag == front[k] && Ready(items[i], Elements(front[..k]))
    {
      assert front[..k] == order[..k];
    }
  }

  /** Whatever is started in a valid order belongs to every closed set. */
  lemma {:induction false} OrderIsLeast(items: seq<Item>, order: seq<string>, closed: set<string>)
    requires ValidOrder(items, order) && Closed(items, closed)
    ensures Elements(order) <= closed
  {
    if order != [] {
      var n := |order| - 1;
      var front := order[..n];
      LastOfOrder(items, order);
      OrderIsLeast(items, front, closed);
      var i :| 0 <= i < |items| && items[i].tag == order[n] && Ready(items[i], Elements(front));
      assert Ready(items[i], closed);
    }
  }

  /** What gets started is the least closed set, whatever the order of the list. */
  lemma StartedSetIgnoresListOrder(items: seq<Item>, order: seq<string>, items': seq<Item>, order': seq<string>)
    requires multiset(items) == multiset(items')
    requires ValidOrder(items, order) && Closed(items, Elements(order))
    requires ValidOrder(items', order') && Closed(items', Elements(order'))
    ensures Elements(order) == Elements(order')
  {
    ClosedIgnoresListOrder(items, items', Elements(order));
    ClosedIgnoresListOrder(items', items, Elements(order'));
    OrderIsLeast(items', order', Elements(order));
    OrderIsLeast(items, order, Elements(order'));
  }

  lemma ClosedIgnoresListOrder(items: seq<Item>, items': seq<Item>, started: set<string>)
    requires multiset(items) == multiset(items') && Closed(items, started)
    ensures Closed(items', started)
  {
    forall i | 0 <= i < |items'| && Ready(items'[i], started) ensures items'[i].tag in started {
      assert items'[i] in multiset(items);
      assert items'[i] in items;
    }
  }

  // ---------------------------------------------------------------- dependency walks

  predicate Edge(items: seq<Item>, a: string, b: string) {
    exists i :: 0 <= i < |items| && items[i].tag == a && b in items[i].dependencies
  }

  predicate Walk(items: seq<Item>, path: seq<string>) {
    forall k :: 0 <= k < |path| - 1 ==> Edge(items, path[k], path[k + 1])
  }

  predicate Cycle(items: seq<Item>, path: seq<string>) {
    |path| >= 2 && path[0] == path[|path| - 1] && Walk(items, path)
  }

  ghost predicate Acyclic(items: seq<Item>) {
    forall path :: !Cycle(items, path)
  }

  predicate AllPresent(items: seq<Item>) {
    forall i, d :: 0 <= i < |items| && d in items[i].dependencies ==> IsTag(items, d)
  }

  /** A circular report is a dependency walk whose last step closes a cycle. */
  predicate ClosesCycle(items: seq<Item>, path: seq<string>) {
    |path| >= 2 && Walk(items, path) && exists k :: 0 <= k < |path| - 1 && path[k] == path[|path| - 1]
  }

  predicate Truthful(items: seq<Item>, table: map<string, Item>, r: Report) {
    match r
    case Circular(path) => ClosesCycle(items, path)
    case NotFound(dependency, dependent) => dependency !in table && Edge(items, dependent, dependency)
    case _ => true
  }

  /** No unstarted item is ready, so each has a dependency that is not started. */
  function FirstUnstarted(dependencies: seq<string>, started: set<string>): (d: string)
    requires exists d :: d in dependencies && d !in started
    ensures d in dependencies && d !in started
  {
    if dependencies[0] !in started then dependencies[0] else FirstUnstarted(dependencies[1..], started)
  }

  lemma {:induction false} Pigeonhole(s: seq<string>, tags: set<string>)
    requires Distinct(s) && forall t :: t in s ==> t in tags
    ensures |s| <= |tags|
  {
    if s != [] {
      var n := |s| - 1;
      Pigeonhole(s[..n], tags - {s[n]});
    }
  }

  function Tags(items: seq<Item>): set<string> {
    set i | 0 <= i < |items| :: items[i].tag
  }

  lemma {:induction false} FewTags(items: seq<Item>)
    ensures |Tags(items)| <= |items|
    ensures DistinctTags(items) ==> |Tags(items)| == |items|
  {
    if items != [] {
      var n := |items| - 1;
      FewTags(items[..n]);
      assert forall i :: 0 <= i < n ==> items[i] == items[..n][i];
      assert Tags(items) == Tags(items[..n]) + {items[n].tag};
    }
  }

  /** A path the diagnosis may hold: a walk over distinct unstarted items that ends at `current`. */
  predicate Tracing(items: seq<Item>, started: set<string>, tree: seq<string>, current: Item) {
    && tree != [] && tree[|tree| - 1] == current.tag && current in items
    && Distinct(tree) && Walk(items, tree)
    && (forall t :: t in tree ==> t in Tags(items) && t !in started)
  }

  /** lintTransport and lintOutbound. */
  function Lint(items: seq<Item>, table: map<string, Item>, started: set<string>, tree: seq<string>, current: Item): (r: Report)
    requires TableOf(items, table) && Closed(items, started) && Tracing(items, started, tree, current)
    ensures r.Circular? || r.NotFound?
    ensures Truthful(items, table, r)
    decreases |items| - |tree|
  {
    assert !Ready(current, started);
    var d := FirstUnstarted(current.dependencies, started);
    assert Edge(items, current.tag, d) by {
      var i :| 0 <= i < |items| && items[i] == current;
    }
    if d in tree then
      var path := tree + [d];
      assert path[|path| - 1] == d;
      assert exists k :: 0 <= k < |path| - 1 && path[k] == d by {
        var k :| 0 <= k < |tree| && tree[k] == d;
        assert path[k] == d;
      }
      Circular(path)
    else if d !in table then NotFound(d, current.tag)
    else
      TracesFurther(items, table, started, tree, current, d);
      Lint(items, table, started, tree + [d], table[d])
  }

  /** With a table of everything, as the DNS manager has it, a dependency reported missing is registered nowhere. */
  lemma MissingIsUnregistered(items: seq<Item>, table: map<string, Item>, started: set<string>, tree: seq<string>, current: Item)
    requires TableOf(items, table) && Closed(items, started) && Tracing(items, started, tree, current)
    requires table.Keys == Tags(items)
    ensures var r := Lint(items, table, started, tree, current);
      r.NotFound? ==> !IsTag(items, r.dependency)
  {
    var r := Lint(items, table, started, tree, current);
    assert r.NotFound? ==> r.dependency !in Tags(items);
  }

  /**
   * The walk of first unstarted dependencies through everything that is registered, whatever a manager's table
   * holds: it ends with a tag that is already on it, or with one that is registered nowhere.
   */
  function Trail(items: seq<Item>, started: set<string>, tree: seq<string>, current: Item): (trail: seq<string>)
    requires Closed(items, started) && Tracing(items, started, tree, current)
    ensures |tree| < |trail| && tree <= trail
    ensures forall k :: 0 <= k < |trail| - 1 ==> trail[k] in Tags(items)
    ensures trail[|trail| - 1] in Tags(items) ==> trail[|trail| - 1] in trail[..|trail| - 1]
    decreases |items| - |tree|
  {
    assert !Ready(current, started);
    var d := FirstUnstarted(current.dependencies, started);
    var longer := tree + [d];
    assert longer[..|tree|] == tree && longer[|tree|] == d;
    if d in tree || d !in Tags(items) then longer
    else
      TrailGoesOn(items, started, tree, current, d);
      Trail(items, started, longer, FullTable(items)[d])
  }

  lemma TrailGoesOn(items: seq<Item>, started: set<string>, tree: seq<string>, current: Item, d: string)
    requires Tracing(items, started, tree, current) && d in current.dependencies
    requires d !in started && d !in tree && d in Tags(items)
    ensures |tree| < |items| && Tracing(items, started, tree + [d], FullTable(items)[d])
  {
    var i :| 0 <= i < |items| && items[i] == current;
    assert Edge(items, current.tag, d);
    TracesFurther(items, FullTable(items), started, tree, current, d);
  }

  /** The walk passes a registered tag that the table does not have. */
  predicate LeavesTable(trail: seq<string>, start: nat, table: map<string, Item>) {
    exists k :: start <= k < |trail| - 1 && trail[k] !in table
  }

  /** What the diagnosis says of a walk that the table has all of. */
  function Diagnosis(trail: seq<string>): Report
    requires |trail| >= 2
  {
    var n := |trail| - 1;
    if trail[n] in trail[..n] then Circular(trail) else NotFound(trail[n], trail[n - 1])
  }

  lemma OneItemPerTag(items: seq<Item>, table: map<string, Item>, d: string)
    requires DistinctTags(items) && TableOf(items, table) && d in table
    ensures table[d] == FullTable(items)[d]
  {
    var full := FullTable(items);
    assert full[d] in items && table[d] in items by {
      assert d in Tags(items) by {
        var i :| 0 <= i < |items| && items[i] == table[d];
      }
    }
    var i :| 0 <= i < |items| && items[i] == table[d];
    var j :| 0 <= j < |items| && items[j] == full[d];
    assert i == j;
  }

  /**
   * The diagnosis says what the walk says exactly when the walk stays inside the table. Otherwise, and only then,
   * it reports a registered tag as missing.
   */
  lemma {:induction false} LintReadsTheTrail(items: seq<Item>, table: map<string, Item>, started: set<string>, tree: seq<string>, current: Item)
    requires DistinctTags(items)
    requires TableOf(items, table) && Closed(items, started) && Tracing(items, started, tree, current)
    ensures var r, trail := Lint(items, table, started, tree, current), Trail(items, started, tree, current);
      && (LeavesTable(trail, |tree|, table) ==> r.NotFound? && IsTag(items, r.dependency))
      && (!LeavesTable(trail, |tree|, table) ==> r == Diagnosis(trail))
      && (r.NotFound? && IsTag(items, r.dependency) <==> LeavesTable(trail, |tree|, table))
    decreases |items| - |tree|
  {
    assert !Ready(current, started);
    var d := FirstUnstarted(current.dependencies, started);
    var longer, trail := tree + [d], Trail(items, started, tree, current);
    TrailUnfolds(items, started, tree, current);
    if d in tree || d !in Tags(items) {
      assert longer[..|tree|] == tree;
    } else if d in table {
      OneItemPerTag(items, table, d);
      LintReadsTheTrail(items, table, started, longer, table[d]);
      assert LeavesTable(trail, |tree|, table) <==> LeavesTable(trail, |longer|, table);
    } else {
      assert trail[|tree|] !in table;
      assert LeavesTable(trail, |tree|, table);
    }
  }

  /** The first step of the walk. */
  lemma TrailUnfolds(items: seq<Item>, started: set<string>, tree: seq<string>, current: Item)
    requires Closed(items, started) && Tracing(items, started, tree, current)
    ensures !Ready(current, started)
    ensures var d, trail := FirstUnstarted(current.dependencies, started), Trail(items, started, tree, current);
      && Edge(items, current.tag, d) && SomeoneNeeds(items, d)
      && trail[|tree|] == d
      && (d in tree || d !in Tags(items) ==> trail == tree + [d])
      && (d !in tree && d in Tags(items) ==>
            && Tracing(items, started, tree + [d], FullTable(items)[d]) && |tree| < |items|
            && trail == Trail(items, started, tree + [d], FullTable(items)[d]) && |tree| + 1 < |trail|)
  {
    assert !Ready(current, started);
    var d := FirstUnstarted(current.dependencies, started);
    var longer := tree + [d];
    var i :| 0 <= i < |items| && items[i] == current;
    assert d in items[i].dependencies && Edge(items, current.tag, d);
    if d !in tree && d in Tags(items) {
      TracesFurther(items, FullTable(items), started, tree, current, d);
      assert Trail(items, started, longer, FullTable(items)[d])[..|longer|] == longer;
    }
  }

  predicate SomeoneNeeds(items: seq<Item>, d: string) {
    exists i :: 0 <= i < |items| && d in items[i].dependencies
  }

  lemma {:induction false} TrailFollowsDependencies(items: seq<Item>, started: set<string>, tree: seq<string>, current: Item, k: nat)
    requires Closed(items, started) && Tracing(items, started, tree, current)
    requires |tree| <= k < |Trail(items, started, tree, current)|
    ensures SomeoneNeeds(items, Trail(items, started, tree, current)[k])
    decreases |items| - |tree|
  {
    TrailUnfolds(items, started, tree, current);
    var d := FirstUnstarted(current.dependencies, started);
    if k > |tree| {
      TrailFollowsDependencies(items, started, tree + [d], FullTable(items)[d], k);
    }
  }

  predicate NeedsNothingOutside(items: seq<Item>, table: map<string, Item>) {
    forall i, d :: 0 <= i < |items| && d in items[i].dependencies && d in Tags(items) ==> d in table
  }

  /** A manager whose items depend on nothing outside its table diagnoses truthfully. */
  lemma InnerDependenciesAreDiagnosed(items: seq<Item>, table: map<string, Item>, started: set<string>, tree: seq<string>, current: Item)
    requires DistinctTags(items)
    requires TableOf(items, table) && Closed(items, started) && Tracing(items, started, tree, current)
    requires NeedsNothingOutside(items, table)
    ensures var r := Lint(items, table, started, tree, current);
      && r == Diagnosis(Trail(items, started, tree, current))
      && (r.NotFound? ==> !IsTag(items, r.dependency))
  {
    var trail := Trail(items, started, tree, current);
    LintReadsTheTrail(items, table, started, tree, current);
    forall k | |tree| <= k < |trail| - 1 ensures trail[k] in table {
      TrailFollowsDependencies(items, started, tree, current, k);
    }
  }

  /** The outbound manager looks in the table of outbounds only: an endpoint in a cycle is reported as missing. */
  lemma EndpointIsReportedMissing()
    ensures var outbound, endpoint := Item("a", ["b"], true), Item("b", ["a"], true);
      var items, table := [outbound, endpoint], map["a" := outbound];
      && TableOf(items, table) && Closed(items, {}) && Tracing(items, {}, ["a"], outbound)
      && Lint(items, table, {}, ["a"], outbound) == NotFound("b", "a") && IsTag(items, "b")
  {
    var outbound, endpoint := Item("a", ["b"], true), Item("b", ["a"], true);
    var items, table := [outbound, endpoint], map["a" := outbound];
    assert items[0].tag == "a" && items[1].tag == "b";
    assert "b" in items[0].dependencies && "a" in items[1].dependencies;
    assert ["a"][0] in Tags(items);
  }

  lemma TracesFurther(items: seq<Item>, table: map<string, Item>, started: set<string>, tree: seq<string>, current: Item, d: string)
    requires TableOf(items, table) && Tracing(items, started, tree, current)
    requires Edge(items, current.tag, d) && d !in started && d !in tree && d in table
    ensures Tracing(items, started, tree + [d], table[d])
    ensures |tree| < |items|
  {
    var longer := tree + [d];
    var i :| 0 <= i < |items| && items[i] == table[d];
    assert d in Tags(items);
    Pigeonhole(longer, Tags(items));
    FewTags(items);
  }

  // ---------------------------------------------------------------- when everything can be started

  function IndexOf(order: seq<string>, t: string): (k: nat)
    requires t in order
    ensures k < |order| && order[k] == t
  {
    if order[0] == t then 0 else 1 + IndexOf(order[1..], t)
  }

  lemma EdgesGoBack(items: seq<Item>, order: seq<string>, a: string, b: string)
    requires DistinctTags(items) && ValidOrder(items, order) && a in order && Edge(items, a, b)
    ensures b in order && IndexOf(order, b) < IndexOf(order, a)
  {
    var k := IndexOf(order, a);
    var i :| 0 <= i < |items| && items[i].tag == a && b in items[i].dependencies;
    var j :| 0 <= j < |items| && items[j].tag == order[k] && Ready(items[j], Elements(order[..k]));
    assert i == j;
    assert b in Elements(order[..k]);
    var m :| 0 <= m < k && order[..k][m] == b;
    assert order[m] == b;
    if m != IndexOf(order, b) {
      assert false;
    }
  }

  lemma {:induction false} WalksGoBack(items: seq<Item>, order: seq<string>, path: seq<string>, n: nat)
    requires DistinctTags(items) && ValidOrder(items, order) && Walk(items, path) && n < |path| && path[0] in order
    ensures path[n] in order && IndexOf(order, path[n]) + n <= IndexOf(order, path[0])
  {
    if n > 0 {
      WalksGoBack(items, order, path, n - 1);
      assert Edge(items, path[n - 1], path[n - 1 + 1]);
      EdgesGoBack(items, order, path[n - 1], path[n]);
    }
  }

  lemma EverythingStarted(items: seq<Item>, order: seq<string>)
    requires DistinctTags(items) && ValidOrder(items, order) && Elements(order) == Tags(items)
    ensures AllPresent(items) && Acyclic(items)
  {
    forall i, d | 0 <= i < |items| && d in items[i].dependencies ensures IsTag(items, d) {
      assert items[i].tag in Tags(items);
      assert Edge(items, items[i].tag, d);
      EdgesGoBack(items, order, items[i].tag, d);
      assert d in Elements(order);
    }
    forall path ensures !Cycle(items, path) {
      if Cycle(items, path) {
        assert Edge(items, path[0], path[0 + 1]);
        var i :| 0 <= i < |items| && items[i].tag == path[0] && path[1] in items[i].dependencies;
        assert path[0] in Elements(order);
        WalksGoBack(items, order, path, |path| - 1);
      }
    }
  }

  function FullTable(items: seq<Item>): (table: map<string, Item>)
    ensures TableOf(items, table) && table.Keys == Tags(items)
  {
    if items == [] then map[]
    else
      var n := |items| - 1;
      var table := FullTable(items[..n]);
      assert forall i :: 0 <= i < n ==> items[i] == items[..n][i];
      table[items[n].tag := items[n]]
  }

  lemma SomethingStuck(items: seq<Item>, started: set<string>, stuck: Item)
    requires Closed(items, started) && stuck in items && stuck.tag !in started
    ensures !(AllPresent(items) && Acyclic(items))
  {
    assert [stuck.tag][0] in Tags(items) by {
      var i :| 0 <= i < |items| && items[i] == stuck;
    }
    match Lint(items, FullTable(items), started, [stuck.tag], stuck)
    case Circular(path) =>
      var k :| 0 <= k < |path| - 1 && path[k] == path[|path| - 1];
      var cycle := path[k..];
      forall j | 0 <= j < |cycle| - 1 ensures Edge(items, cycle[j], cycle[j + 1]) {
        assert Edge(items, path[k + j], path[k + j + 1]);
      }
      assert Cycle(items, cycle);
    case NotFound(d, dependent) =>
      var i :| 0 <= i < |items| && items[i].tag == dependent && d in items[i].dependencies;
      assert IsTag(items, d) ==> d in Tags(items);
    case _ =>
  }

  // ---------------------------------------------------------------- the start loop

  lemma OrderGrows(items: seq<Item>, order: seq<string>, i: nat)
    requires ValidOrder(items, order) && i < |items| && Ready(items[i], Elements(order)) && items[i].tag !in order
    ensures ValidOrder(items, order + [items[i].tag])
    ensures Elements(order + [items[i].tag]) == Elements(order) + {items[i].tag}
  {
    var longer := order + [items[i].tag];
    forall k | 0 <= k < |longer|
      ensures exists j :: 0 <= j < |items| && items[j].tag == longer[k] && Ready(items[j], Elements(longer[..k]))
    {
      if k < |order| {
        assert longer[..k] == order[..k];
      } else {
        assert longer[..k] == order;
      }
    }
  }

  lemma {:induction false} OrderedTags(items: seq<Item>, order: seq<string>)
    requires ValidOrder(items, order)
    ensures Elements(order) <= Tags(items) && |Elements(order)| == |order|
  {
    if order != [] {
      var n := |order| - 1;
      var front := order[..n];
      LastOfOrder(items, order);
      OrderedTags(items, front);
      assert order[n] in Tags(items);
    }
  }

  /** The items of these tags start. */
  predicate AllStart(items: seq<Item>, tags: seq<string>) {
    forall i :: 0 <= i < |items| && items[i].tag in tags ==> items[i].starts
  }

  /** An item that is started in the end, whatever the order of the list: its tag is in every closed set. */
  ghost predicate MustBeStarted(items: seq<Item>, tag: string) {
    forall closed: set<string> :: Closed(items, closed) ==> tag in closed
  }

  ghost predicate SomethingMustFail(items: seq<Item>) {
    exists i :: 0 <= i < |items| && !items[i].starts && MustBeStarted(items, items[i].tag)
  }

  lemma StartedMustBe(items: seq<Item>, order: seq<string>, tag: string)
    requires ValidOrder(items, order) && tag in order
    ensures MustBeStarted(items, tag)
  {
    forall closed: set<string> | Closed(items, closed) ensures tag in closed {
      OrderIsLeast(items, order, closed);
      assert tag in Elements(order);
    }
  }

  predicate AllItemsStart(items: seq<Item>) {
    forall i :: 0 <= i < |items| ==> items[i].starts
  }

  predicate FailsToStart(items: seq<Item>, tag: string) {
    exists i :: 0 <= i < |items| && items[i].tag == tag && !items[i].starts
  }

  lemma FailedStart(items: seq<Item>, order: seq<string>, tag: string)
    requires ValidOrder(items, order) && tag in order
    requires FailsToStart(items, tag)
    ensures SomethingMustFail(items) && !AllItemsStart(items)
  {
    var i :| 0 <= i < |items| && items[i].tag == tag && !items[i].starts;
    StartedMustBe(items, order, tag);
    assert MustBeStarted(items, items[i].tag);
  }

  /** Without a failed start, nothing that fails has to be started. */
  lemma NothingMustFail(items: seq<Item>, order: seq<string>)
    requires ValidOrder(items, order) && AllStart(items, order) && Closed(items, Elements(order))
    ensures !SomethingMustFail(items)
  {
    forall i | 0 <= i < |items| && MustBeStarted(items, items[i].tag) ensures items[i].starts {
      assert items[i].tag in Elements(order);
    }
  }

  lemma AllStartGrows(items: seq<Item>, order: seq<string>, i: nat)
    requires DistinctTags(items) && AllStart(items, order) && i < |items| && items[i].starts
    ensures AllStart(items, order + [items[i].tag])
  {
  }

  /** The inner loop over an item's dependencies. */
  method DependenciesStarted(item: Item, started: set<string>) returns (ready: bool)
    ensures ready <==> Ready(item, started)
  {
    for j := 0 to |item.dependencies|
      invariant forall k :: 0 <= k < j ==> item.dependencies[k] in started
    {
      if item.dependencies[j] !in started {
        return false;
      }
    }
    return true;
  }

  /** One item of a pass: it is started when it is not yet and all its dependencies are. */
  method TryStart(items: seq<Item>, i: nat, started0: set<string>, ghost order0: seq<string>)
    returns (started: set<string>, ghost order: seq<string>, startedOne: bool, failed: bool)
    requires DistinctTags(items) && ValidOrder(items, order0) && started0 == Elements(order0) && AllStart(items, order0)
    requires i < |items|
    ensures ValidOrder(items, order) && started == Elements(order)
    ensures startedOne <==> items[i].tag !in started0 && Ready(items[i], started0)
    ensures order == if startedOne then order0 + [items[i].tag] else order0
    ensures failed <==> startedOne && !items[i].starts
    ensures !failed ==> AllStart(items, order)
  {
    started, order, startedOne, failed := started0, order0, false, false;
    if items[i].tag in started {
      return;
    }
    var ready := DependenciesStarted(items[i], started);
    if !ready {
      return;
    }
    OrderGrows(items, order, i);
    started := started + {items[i].tag};
    order := order + [items[i].tag];
    startedOne := true;
    if !items[i].starts {
      failed := true;
      return;
    }
    AllStartGrows(items, order0, i);
  }

  /** One pass over the list; `failed` says that an item's own start has failed, which ends the pass. */
  method StartRound(items: seq<Item>, started0: set<string>, ghost order0: seq<string>)
    returns (started: set<string>, ghost order: seq<string>, canContinue: bool, failed: bool, failedTag: string)
    requires DistinctTags(items) && ValidOrder(items, order0) && started0 == Elements(order0) && AllStart(items, order0)
    ensures ValidOrder(items, order) && started == Elements(order)
    ensures order0 <= order && (canContinue <==> order != order0)
    ensures failed ==> canContinue && order[|order| - 1] == failedTag && FailsToStart(items, failedTag)
    ensures !canContinue ==> Closed(items, started)
    ensures AllStart(items, if failed then order[..|order| - 1] else order)
  {
    started, order, canContinue, failed, failedTag := started0, order0, false, false, "";
    for i := 0 to |items|
      invariant ValidOrder(items, order) && started == Elements(order)
      invariant AllStart(items, order) && !failed
      invariant order0 <= order && (canContinue <==> order != order0)
      invariant !canContinue ==> forall k :: 0 <= k < i && Ready(items[k], started) ==> items[k].tag in started
    {
      ghost var before := order;
      var startedOne;
      started, order, startedOne, failed := TryStart(items, i, started, order);
      canContinue := canContinue || startedOne;
      if failed {
        failedTag := items[i].tag;
        assert order[..|order| - 1] == before;
        return;
      }
    }
  }

  /** What is left when a pass has started nothing. */
  method Diagnose(items: seq<Item>, table: map<string, Item>, started: set<string>, ghost order: seq<string>) returns (report: Report)
    requires DistinctTags(items) && TableOf(items, table) && Closed(items, started) && started < Tags(items)
    requires ValidOrder(items, order) && started == Elements(order) && AllStart(items, order)
    ensures (report.Circular? || report.NotFound?) && Truthful(items, table, report)
    ensures !(AllPresent(items) && Acyclic(items)) && !SomethingMustFail(items)
  {
    var current := FindUnstarted(items, started);
    SomethingStuck(items, started, current);
    NothingMustFail(items, order);
    report := Lint(items, table, started, [current.tag], current);
  }

  /**
   * startTransports and startOutbounds. `order` is the order of the starts. The loop succeeds exactly when every
   * dependency is there, no dependency walk closes a cycle and every item starts; it ends with a failed start exactly
   * when an item that does not start has to be started, and every start before that one has worked.
   */
  method StartAll(items: seq<Item>, table: map<string, Item>) returns (report: Report, ghost order: seq<string>)
    requires DistinctTags(items) && TableOf(items, table)
    ensures ValidOrder(items, order)
    ensures report.Started? ==> Elements(order) == Tags(items) && AllPresent(items) && Acyclic(items)
    ensures report.StartFailed? ==>
      order != [] && order[|order| - 1] == report.tag && FailsToStart(items, report.tag)
    ensures report.Circular? || report.NotFound? ==>
      Closed(items, Elements(order)) && Elements(order) < Tags(items) && Truthful(items, table, report)
    ensures report.Started? <==> AllPresent(items) && Acyclic(items) && AllItemsStart(items)
    ensures report.StartFailed? <==> SomethingMustFail(items)
    ensures AllStart(items, if report.StartFailed? then order[..|order| - 1] else order)
  {
    var started: set<string> := {};
    order := [];
    FewTags(items);
    while true
      invariant ValidOrder(items, order) && started == Elements(order) && AllStart(items, order)
      decreases |items| - |order|
    {
      ghost var before := order;
      var canContinue, failed, failedTag;
      started, order, canContinue, failed, failedTag := StartRound(items, started, order);
      OrderedTags(items, order);
      if failed {
        FailedStart(items, order, failedTag);
        return StartFailed(failedTag), order;
      }
      SubsetSize(started, Tags(items));
      if |started| == |items| {
        EverythingStarted(items, order);
        AllOfThemStart(items, order);
        return Started, order;
      }
      if canContinue {
        continue;
      }
      report := Diagnose(items, table, started, order);
      return;
    }
  }

  lemma AllOfThemStart(items: seq<Item>, order: seq<string>)
    requires Elements(order) == Tags(items) && AllStart(items, order)
    ensures AllItemsStart(items) && !SomethingMustFail(items)
  {
    forall i | 0 <= i < |items| ensures items[i].starts {
      assert items[i].tag in Tags(items);
      assert items[i].tag in Elements(order);
    }
  }

  lemma SubsetSize(a: set<string>, b: set<string>)
    requires a <= b
    ensures |a| <= |b| && (|a| == |b| <==> a == b)
  {
    var rest := b - a;
    assert b == a + rest;
  }

  method FindUnstarted(items: seq<Item>, started: set<string>) returns (item: Item)
    requires started < Tags(items)
    ensures item in items && item.tag !in started && Tracing(items, started, [item.tag], item)
  {
    var i := 0;
    while items[i].tag in started
      invariant 0 <= i < |items| && exists k :: i <= k < |items| && items[k].tag !in started
      decreases |items| - i
    {
      i := i + 1;
    }
    item := items[i];
    assert item.tag in Tags(items);
  }
}
