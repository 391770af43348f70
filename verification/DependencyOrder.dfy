/**
 The order in which tables are filled and emptied (`dependency_order` in
 monitor_app/services/importer.py).
 */
module DependencyOrder {
  import opened Options

  type Name = string

  /** The tables each table refers to, itself not counted. */
  type Deps = map<Name, set<Name>>

  function Set(tables: seq<Name>): set<Name> {
    set t | t in tables
  }

  /** The dependencies of the configured tables, among them. */
  predicate Wellformed(tables: seq<Name>, deps: Deps) {
    && Distinct(tables) && deps.Keys == Set(tables)
    && forall t :: t in tables ==> deps[t] <= Set(tables) && t !in deps[t]
  }

  /** Every table comes behind those it refers to. */
  ghost predicate ParentsFirst(order: seq<Name>, deps: Deps) {
    forall i :: 0 <= i < |order| ==> order[i] in deps && deps[order[i]] <= Set(order[..i])
  }

  /** A chain of references. */
  predicate Chain(path: seq<Name>, deps: Deps) {
    && (forall i :: 0 <= i < |path| ==> path[i] in deps)
    && (forall i :: 0 <= i < |path| - 1 ==> path[i + 1] in deps[path[i]])
  }

  predicate Cycle(path: seq<Name>, deps: Deps) {
    path != [] && Chain(path, deps) && path[0] in deps[path[|path| - 1]]
  }

  ghost predicate Acyclic(deps: Deps) {
    forall path :: !Cycle(path, deps)
  }

  function Ready(remaining: seq<Name>, done: set<Name>, deps: Deps): (r: seq<Name>)
    requires forall t :: t in remaining ==> t in deps
    ensures forall t :: t in r <==> t in remaining && deps[t] <= done
    ensures |r| <= |remaining|
  {
    if remaining == [] then []
    else (if deps[remaining[0]] <= done then [remaining[0]] else []) + Ready(remaining[1..], done, deps)
  }

  /** `list.remove`. */
  function Without(tables: seq<Name>, t: Name): (r: seq<Name>)
    ensures forall u :: u in r ==> u in tables
    ensures multiset(r) == multiset(tables) - multiset{t}
    ensures t in tables ==> |r| == |tables| - 1
  {
    if tables == [] then []
    else
      assert tables == [tables[0]] + tables[1..];
      if tables[0] == t then tables[1..]
      else [tables[0]] + Without(tables[1..], t)
  }

  /** `dependency_order`: it ends, with every table once, and parents first if it is possible at all. */
  method Order(tables: seq<Name>, deps: Deps) returns (ordered: seq<Name>)
    requires Wellformed(tables, deps)
    ensures multiset(ordered) == multiset(tables) && Distinct(ordered) && Set(ordered) == Set(tables)
    ensures ParentsFirst(ordered, deps) <==> Acyclic(deps)
  {
    ordered := [];
    var remaining := tables;
    ghost var broken := false;
    while remaining != []
      invariant multiset(ordered) + multiset(remaining) == multiset(tables)
      invariant Distinct(remaining)
      invariant !broken ==> ParentsFirst(ordered, deps)
      invariant broken ==> !Acyclic(deps)
      decreases |remaining|
    {
      AmongTables(tables, ordered, remaining);
      var ready := Ready(remaining, Set(ordered), deps);
      ReadyDistinct(remaining, Set(ordered), deps);
      if ready == [] {
        StuckMeansCycle(tables, ordered, remaining, deps);
        broken := true;
        ready := [remaining[0]];
      }
      ordered, remaining := Take(ordered, remaining, ready);
      ghost var before := ordered[..|ordered| - |ready|];
      if !broken {
        MoreParentsFirst(before, ready, deps);
      }
    }
    SameSet(ordered, tables);
    AlsoDistinct(ordered, tables);
    if ParentsFirst(ordered, deps) {
      ParentsFirstIsAcyclic(ordered, deps);
    }
  }

  lemma {:induction false} AlsoDistinct(a: seq<Name>, b: seq<Name>)
    requires multiset(a) == multiset(b) && Distinct(b)
    ensures Distinct(a)
  {
    forall i, j | 0 <= i < j < |a| ensures a[i] != a[j] {
      AtMostOnce(b, a[i]);
      assert a == a[..j] + a[j..];
      assert a[i] in multiset(a[..j]) by {
        assert a[..j][i] == a[i];
      }
      assert a[j] in multiset(a[j..]) by {
        assert a[j..][0] == a[j];
      }
      assert multiset(a)[a[i]] == multiset(a[..j])[a[i]] + multiset(a[j..])[a[i]];
    }
  }

  lemma {:induction false} AtMostOnce(s: seq<Name>, t: Name)
    requires Distinct(s)
    ensures multiset(s)[t] <= 1
  {
    if s != [] {
      assert s == [s[0]] + s[1..];
      AtMostOnce(s[1..], t);
      if s[0] == t {
        assert t !in s[1..];
        assert t !in multiset(s[1..]);
      }
    }
  }

  /** The places that `sorted(..., key=...)` gives to some of the tables. */
  method SortBy(order: seq<Name>, some: seq<Name>) returns (sorted: seq<Name>)
    requires Distinct(order) && forall t :: t in some ==> t in order
    ensures forall t :: t in sorted <==> t in some
    ensures forall i :: 0 <= i < |sorted| ==> sorted[i] in order
    ensures forall i, j :: 0 <= i < j < |sorted| ==> Index(order, sorted[i]) < Index(order, sorted[j])
  {
    sorted := [];
    for i := 0 to |order|
      invariant forall t :: t in sorted <==> t in some && t in order[..i]
      invariant forall j :: 0 <= j < |sorted| ==> sorted[j] in order && Index(order, sorted[j]) < i
      invariant forall j, k :: 0 <= j < k < |sorted| ==> Index(order, sorted[j]) < Index(order, sorted[k])
    {
      assert order[..i + 1] == order[..i] + [order[i]];
      IndexOf(order, i);
      if order[i] in some {
        sorted := sorted + [order[i]];
      }
    }
    assert order[..|order|] == order;
  }

  lemma {:induction false} IndexOf(order: seq<Name>, i: nat)
    requires Distinct(order) && i < |order|
    ensures Index(order, order[i]) == i
  {
    var j := Index(order, order[i]);
    assert order[j] == order[i];
  }

  /** One round: the tables that are ready go from one list to the other. */
  method Take(ordered: seq<Name>, remaining: seq<Name>, ready: seq<Name>)
    returns (ordered': seq<Name>, remaining': seq<Name>)
    requires Distinct(remaining) && Distinct(ready) && forall t :: t in ready ==> t in remaining
    ensures ordered' == ordered + ready && Distinct(remaining')
    ensures multiset(ordered') + multiset(remaining') == multiset(ordered) + multiset(remaining)
    ensures |remaining'| == |remaining| - |ready|
  {
    ordered', remaining' := ordered, remaining;
    for i := 0 to |ready|
      invariant ordered' == ordered + ready[..i] && Distinct(remaining')
      invariant multiset(ordered') + multiset(remaining') == multiset(ordered) + multiset(remaining)
      invariant |remaining'| == |remaining| - i
      invariant forall k :: i <= k < |ready| ==> ready[k] in remaining'
    {
      WithoutDistinct(remaining', ready[i]);
      assert ordered + ready[..i + 1] == (ordered + ready[..i]) + [ready[i]];
      assert multiset(ordered' + [ready[i]]) == multiset(ordered') + multiset{ready[i]};
      ordered', remaining' := ordered' + [ready[i]], Without(remaining', ready[i]);
    }
  }

  lemma {:induction false} WithoutDistinct(tables: seq<Name>, t: Name)
    requires Distinct(tables)
    ensures Distinct(Without(tables, t)) && forall u :: u in tables && u != t ==> u in Without(tables, t)
  {
    if tables != [] && tables[0] != t {
      WithoutDistinct(tables[1..], t);
      assert tables[0] !in tables[1..];
    }
  }

  lemma {:induction false} AmongTables(tables: seq<Name>, ordered: seq<Name>, remaining: seq<Name>)
    requires multiset(ordered) + multiset(remaining) == multiset(tables)
    ensures Set(tables) == Set(ordered) + Set(remaining)
  {
    forall t ensures t in tables <==> t in ordered || t in remaining {
      assert t in tables <==> t in multiset(tables);
      assert t in ordered <==> t in multiset(ordered);
      assert t in remaining <==> t in multiset(remaining);
    }
  }

  lemma {:induction false} SameSet(a: seq<Name>, b: seq<Name>)
    requires multiset(a) == multiset(b)
    ensures Set(a) == Set(b)
  {
    AmongTables(b, a, []);
  }

  lemma {:induction false} ReadyDistinct(remaining: seq<Name>, done: set<Name>, deps: Deps)
    requires Distinct(remaining) && forall t :: t in remaining ==> t in deps
    ensures Distinct(Ready(remaining, done, deps))
  {
    if remaining != [] {
      ReadyDistinct(remaining[1..], done, deps);
      assert remaining[0] !in remaining[1..];
    }
  }

  lemma {:induction false} MoreParentsFirst(before: seq<Name>, ready: seq<Name>, deps: Deps)
    requires ParentsFirst(before, deps)
    requires forall t :: t in ready ==> t in deps && deps[t] <= Set(before)
    ensures ParentsFirst(before + ready, deps)
  {
    var all := before + ready;
    forall i | 0 <= i < |all| ensures all[i] in deps && deps[all[i]] <= Set(all[..i]) {
      if i < |before| {
        assert all[..i] == before[..i];
      } else {
        assert all[i] in ready && all[..i] == before + ready[..i - |before|];
        assert Set(before) <= Set(all[..i]);
      }
    }
  }

  // ------------------------------------------------------------------------- cycles

  /** If nothing is ready, the tables that remain refer to each other in a circle. */
  lemma {:induction false} StuckMeansCycle(tables: seq<Name>, ordered: seq<Name>, remaining: seq<Name>, deps: Deps)
    requires Wellformed(tables, deps) && Set(tables) == Set(ordered) + Set(remaining) && remaining != []
    requires Ready(remaining, Set(ordered), deps) == []
    ensures !Acyclic(deps)
  {
    hide Ready, Acyclic, Cycle, Set, Wellformed;
    var left := Set(remaining);
    InSet(remaining, tables, deps);
    forall t | t in left ensures deps[t] * left != {} {
      NotReady(tables, ordered, remaining, deps, t);
    }
    FindCycle(left, deps, [remaining[0]]);
  }

  lemma {:induction false} InSet(remaining: seq<Name>, tables: seq<Name>, deps: Deps)
    requires remaining != [] && Wellformed(tables, deps) && Set(remaining) <= Set(tables)
    ensures remaining[0] in Set(remaining) && Set(remaining) <= deps.Keys
  {
  }

  lemma {:induction false} NotReady(tables: seq<Name>, ordered: seq<Name>, remaining: seq<Name>, deps: Deps, t: Name)
    requires Wellformed(tables, deps) && Set(tables) == Set(ordered) + Set(remaining) && t in Set(remaining)
    requires Ready(remaining, Set(ordered), deps) == []
    ensures t in deps && deps[t] * Set(remaining) != {}
  {
    assert t !in Ready(remaining, Set(ordered), deps);
    var d :| d in deps[t] && d !in Set(ordered);
    assert d in deps[t] * Set(remaining);
  }

  /** A walk that can always go on within a finite set comes back to itself. */
  lemma {:induction false} FindCycle(left: set<Name>, deps: Deps, path: seq<Name>)
    requires left <= deps.Keys && forall t :: t in left ==> deps[t] * left != {}
    requires path != [] && Distinct(path) && Chain(path, deps) && forall t :: t in path ==> t in left
    ensures !Acyclic(deps)
    decreases |left| - |path|
  {
    PathFits(left, path);
    var last := path[|path| - 1];
    var d :| d in deps[last] * left;
    if d in path {
      var j :| 0 <= j < |path| && path[j] == d;
      var circle := path[j..];
      assert circle[|circle| - 1] == last;
      assert Cycle(circle, deps);
    } else {
      var longer := path + [d];
      PathFits(left, longer);
      FindCycle(left, deps, longer);
    }
  }

  lemma {:induction false} PathFits(left: set<Name>, path: seq<Name>)
    requires Distinct(path) && forall t :: t in path ==> t in left
    ensures |path| <= |left|
    decreases |path|
  {
    if path != [] {
      var last := path[|path| - 1];
      forall t | t in path[..|path| - 1] ensures t in left - {last} {
        assert t != last;
      }
      assert last in path;
      PathFits(left - {last}, path[..|path| - 1]);
    }
  }

  function Index(order: seq<Name>, t: Name): (i: nat)
    requires t in order
    ensures i < |order| && order[i] == t && t !in order[..i]
  {
    if order[0] == t then 0
    else
      assert order == [order[0]] + order[1..];
      var i := Index(order[1..], t) + 1;
      assert order[..i] == [order[0]] + order[1..][..i - 1];
      i
  }

  /** Along a chain of references, the places in the order go down. */
  lemma {:induction false} GoesDown(order: seq<Name>, deps: Deps, path: seq<Name>, i: nat)
    requires ParentsFirst(order, deps) && Set(order) == deps.Keys && Chain(path, deps) && i < |path|
    ensures path[0] in order && path[i] in order && Index(order, path[i]) + i <= Index(order, path[0])
  {
    assert path[i] in deps.Keys && path[0] in deps.Keys;
    if i > 0 {
      GoesDown(order, deps, path, i - 1);
    }
  }

  lemma {:induction false} ParentsFirstIsAcyclic(order: seq<Name>, deps: Deps)
    requires ParentsFirst(order, deps) && Set(order) == deps.Keys
    ensures Acyclic(deps)
  {
    forall path ensures !Cycle(path, deps) {
      if Cycle(path, deps) {
        GoesDown(order, deps, path, |path| - 1);
        assert false;
      }
    }
  }
}
