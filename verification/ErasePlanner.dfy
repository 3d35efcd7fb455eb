/**
`planErase`: the seed tables, every table the cascade reaches from them, the
delete order and the references that order cannot satisfy.
*/
module ErasePlanner {
  import opened Relational
  import opened Ordering
  import opened TableOrder
  import opened EraseModel

  /** An owner-scoped table, or one a delete eraser stages rows of. */
  predicate Root(g: Graph, erasers: seq<Eraser>, t: string) {
    t in g.tables &&
    (g.tables[t].owner != "" ||
     (!g.tables[t].pivot && g.Key(t) != [] && t in g.present && exists er :: er in erasers && er.table == t))
  }

  /** A set of tables that holds the roots and every table the cascade reaches from it. */
  ghost predicate TablesClosed(g: Graph, erasers: seq<Eraser>, tables: set<string>) {
    && (forall t :: Root(g, erasers, t) ==> t in tables)
    && (forall e :: e in g.edges && e.parent in tables && g.Follows(e) ==> e.child in tables)
  }

  /** The erasers of `t` that stage rows, in registration order. */
  function SeedsOf(g: Graph, erasers: seq<Eraser>, t: string): (r: seq<Eraser>)
    ensures forall er :: er in r <==> er in erasers && er.table == t
  {
    if erasers == [] then [] else
      var rest := SeedsOf(g, erasers[1..], t);
      assert erasers == [erasers[0]] + erasers[1..];
      if erasers[0].table == t then [erasers[0]] + rest else rest
  }

  /** The tables the walk starts from. */
  method Roots(g: Graph, erasers: seq<Eraser>) returns (queue: seq<string>)
    ensures Distinct(queue) && forall t :: t in queue <==> Root(g, erasers, t)
  {
    var sorted := SortedKeys(g.tables.Keys);
    queue := [];
    for i := 0 to |sorted|
      invariant Distinct(queue)
      invariant forall t :: t in queue <==> t in sorted[..i] && g.tables[t].owner != ""
    {
      assert sorted[..i + 1] == sorted[..i] + [sorted[i]];
      if g.tables[sorted[i]].owner != "" {
        assert forall j :: 0 <= j < i ==> Less(sorted[j], sorted[i]);
        queue := queue + [sorted[i]];
      }
    }
    assert sorted[..|sorted|] == sorted;
    for i := 0 to |erasers|
      invariant Distinct(queue)
      invariant forall t :: t in queue <==> Root(g, erasers[..i], t)
    {
      assert erasers[..i + 1] == erasers[..i] + [erasers[i]];
      var t := erasers[i].table;
      if t in g.tables && !g.tables[t].pivot && g.Key(t) != [] && t !in queue && t in g.present {
        queue := queue + [t];
      }
      forall u ensures u in queue <==> Root(g, erasers[..i + 1], u) {
        MoreErasers(g, erasers[..i], erasers[i], u);
      }
    }
    assert erasers[..|erasers|] == erasers;
  }

  lemma MoreErasers(g: Graph, erasers: seq<Eraser>, er: Eraser, t: string)
    ensures Root(g, erasers + [er], t) <==>
              Root(g, erasers, t) || (t in g.tables && !g.tables[t].pivot && g.Key(t) != [] && t in g.present && er.table == t)
  {
    assert er in erasers + [er];
    if t in g.tables && exists x :: x in erasers && x.table == t {
      var x :| x in erasers && x.table == t;
      assert x in erasers + [er];
    }
  }

  /** The cascade edges out of the tables already taken off the queue. */
  ghost predicate EdgesFrom(g: Graph, edges: seq<Edge>, done: set<string>) {
    forall e :: e in edges <==> e in g.edges && e.parent in done && g.Follows(e)
  }

  ghost predicate EdgesPart(g: Graph, edges: seq<Edge>, done: set<string>, parent: string, k: nat)
    requires k <= |g.edges|
  {
    forall e :: e in edges <==> (e in g.edges && e.parent in done && g.Follows(e)) || (e in g.edges[..k] && e.parent == parent && g.Follows(e))
  }

  lemma EdgesPartStep(g: Graph, edges: seq<Edge>, done: set<string>, parent: string, k: nat)
    requires k < |g.edges| && EdgesPart(g, edges, done, parent, k)
    ensures var e := g.edges[k];
            EdgesPart(g, if e.parent == parent && g.Follows(e) then edges + [e] else edges, done, parent, k + 1)
  {
    assert g.edges[..k + 1] == g.edges[..k] + [g.edges[k]];
  }

  lemma EdgesPartEnd(g: Graph, edges: seq<Edge>, done: set<string>, parent: string)
    requires EdgesPart(g, edges, done, parent, |g.edges|)
    ensures EdgesFrom(g, edges, done + {parent})
  {
    assert g.edges[..|g.edges|] == g.edges;
  }

  /** Everything on the walk so far is on every closed set's side. */
  ghost predicate Reachable(g: Graph, erasers: seq<Eraser>, tables: set<string>) {
    forall s :: TablesClosed(g, erasers, s) ==> tables <= s
  }

  /** The walk knows the tables in `done` and on the queue, and no others. */
  ghost predicate Walking(g: Graph, erasers: seq<Eraser>, tables: set<string>, queue: seq<string>, done: set<string>) {
    && Distinct(queue) && (forall t :: t in queue ==> t !in done)
    && tables == done + Columns(queue) && tables <= g.tables.Keys
    && (forall t :: Root(g, erasers, t) ==> t in tables) && Reachable(g, erasers, tables)
  }

  ghost predicate ChildrenKnown(edges: seq<Edge>, tables: set<string>) {
    forall e :: e in edges ==> e.child in tables
  }

  lemma QueueTail(queue: seq<string>)
    requires Distinct(queue) && queue != []
    ensures Distinct(queue[1..]) && queue[0] !in queue[1..]
    ensures Columns(queue) == {queue[0]} + Columns(queue[1..])
  {
    assert forall i :: 0 <= i < |queue| - 1 ==> queue[1..][i] == queue[i + 1];
    assert queue == [queue[0]] + queue[1..];
  }

  lemma TakeNext(g: Graph, erasers: seq<Eraser>, tables: set<string>, queue: seq<string>, done: set<string>)
    requires Walking(g, erasers, tables, queue, done) && queue != []
    ensures Walking(g, erasers, tables, queue[1..], done + {queue[0]})
  {
    hide Root, Reachable, Distinct;
    QueueTail(queue);
    assert forall t :: t in queue[1..] ==> t in queue;
    assert tables == done + {queue[0]} + Columns(queue[1..]);
  }

  lemma FewerLeft(g: Graph, erasers: seq<Eraser>, tables: set<string>, queue: seq<string>, done: set<string>)
    requires Walking(g, erasers, tables, queue, done) && queue != []
    ensures queue[0] in tables && |g.tables.Keys - (done + {queue[0]})| < |g.tables.Keys - done|
  {
    hide Root, Reachable, Distinct;
    assert queue[0] in Columns(queue) && queue[0] in queue;
    Fewer(g.tables.Keys - (done + {queue[0]}), g.tables.Keys - done, queue[0]);
  }

  lemma AddChild(g: Graph, erasers: seq<Eraser>, tables: set<string>, queue: seq<string>, done: set<string>, e: Edge)
    requires g.WellFormed() && Walking(g, erasers, tables, queue, done)
    requires e in g.edges && e.parent in tables && g.Follows(e) && e.child !in tables
    ensures Walking(g, erasers, tables + {e.child}, queue + [e.child], done)
  {
    assert Columns(queue + [e.child]) == Columns(queue) + {e.child};
    assert forall t :: t in queue ==> t in Columns(queue);
    forall s | TablesClosed(g, erasers, s) ensures tables + {e.child} <= s {
      assert tables <= s;
    }
  }

  lemma WalkEnds(g: Graph, erasers: seq<Eraser>, tables: set<string>, edges: seq<Edge>, done: set<string>)
    requires Walking(g, erasers, tables, [], done) && EdgesFrom(g, edges, done) && ChildrenKnown(edges, tables)
    ensures tables <= g.tables.Keys && TablesClosed(g, erasers, tables) && Reachable(g, erasers, tables)
    ensures EdgesFrom(g, edges, tables)
  {
    assert tables == done;
  }

  lemma WalkStarts(g: Graph, erasers: seq<Eraser>, roots: seq<string>)
    requires Distinct(roots) && forall t :: t in roots <==> Root(g, erasers, t)
    ensures Walking(g, erasers, Columns(roots), roots, {}) && EdgesFrom(g, [], {}) && ChildrenKnown([], Columns(roots))
  {
  }

  /** The breadth-first walk over cascade edges. */
  method Reach(g: Graph, erasers: seq<Eraser>, roots: seq<string>) returns (tables: set<string>, edges: seq<Edge>)
    requires g.WellFormed() && Distinct(roots) && forall t :: t in roots <==> Root(g, erasers, t)
    ensures tables <= g.tables.Keys && TablesClosed(g, erasers, tables) && Reachable(g, erasers, tables)
    ensures EdgesFrom(g, edges, tables)
  {
    ghost var done: set<string> := {};
    var queue := roots;
    tables, edges := Columns(roots), [];
    WalkStarts(g, erasers, roots);
    while queue != []
      invariant Walking(g, erasers, tables, queue, done)
      invariant EdgesFrom(g, edges, done) && ChildrenKnown(edges, tables)
      decreases |g.tables.Keys - done|
    {
      var parent := queue[0];
      TakeNext(g, erasers, tables, queue, done);
      FewerLeft(g, erasers, tables, queue, done);
      queue := queue[1..];
      tables, queue, edges := ReachFrom(g, erasers, parent, tables, queue, edges, done);
      done := done + {parent};
    }
    WalkEnds(g, erasers, tables, edges, done);
  }

  /** The edges out of one table. */
  method ReachFrom(g: Graph, erasers: seq<Eraser>, parent: string, tables0: set<string>, queue0: seq<string>, edges0: seq<Edge>, ghost done: set<string>)
    returns (tables: set<string>, queue: seq<string>, edges: seq<Edge>)
    requires g.WellFormed() && Walking(g, erasers, tables0, queue0, done + {parent})
    requires parent in tables0 && EdgesFrom(g, edges0, done) && ChildrenKnown(edges0, tables0)
    ensures Walking(g, erasers, tables, queue, done + {parent})
    ensures EdgesFrom(g, edges, done + {parent}) && ChildrenKnown(edges, tables)
  {
    tables, queue, edges := tables0, queue0, edges0;
    assert EdgesPart(g, edges, done, parent, 0);
    hide Walking, EdgesPart, EdgesFrom, Reachable;
    for k := 0 to |g.edges|
      invariant Walking(g, erasers, tables, queue, done + {parent}) && parent in tables
      invariant EdgesPart(g, edges, done, parent, k) && ChildrenKnown(edges, tables)
    {
      var e := g.edges[k];
      EdgesPartStep(g, edges, done, parent, k);
      if e.parent == parent && g.Follows(e) {
        if e.child !in tables {
          AddChild(g, erasers, tables, queue, done + {parent}, e);
          tables := tables + {e.child};
          queue := queue + [e.child];
        }
        edges := edges + [e];
      }
    }
    EdgesPartEnd(g, edges, done, parent);
  }

  /** RESTRICT and NO ACTION edges into the plan, and all edges that order the delete. */
  method Blockers(g: Graph, tables: set<string>, edges: seq<Edge>) returns (blockers: seq<Edge>, order: seq<Edge>)
    ensures forall e :: e in blockers <==> e in g.edges && e.parent in tables && e.Blocks() && g.Managed(e.child)
    ensures forall e :: e in order <==> e in edges || (e in blockers && e.child in tables)
  {
    blockers, order := [], edges;
    for k := 0 to |g.edges|
      invariant forall e :: e in blockers <==> e in g.edges[..k] && e.parent in tables && e.Blocks() && g.Managed(e.child)
      invariant forall e :: e in order <==> e in edges || (e in blockers && e.child in tables)
    {
      var e := g.edges[k];
      assert g.edges[..k + 1] == g.edges[..k] + [e];
      if e.Blocks() && e.parent in tables && g.Managed(e.child) {
        blockers := blockers + [e];
        if e.child in tables {
          order := order + [e];
        }
      }
    }
    assert g.edges[..|g.edges|] == g.edges;
  }

  /** The entries of `s` that are in `keep`, in their order. */
  function Select(s: seq<string>, keep: set<string>): (r: seq<string>)
    ensures forall t :: t in r <==> t in s && t in keep
  {
    if s == [] then [] else
      assert s == [s[0]] + s[1..];
      if s[0] in keep then [s[0]] + Select(s[1..], keep) else Select(s[1..], keep)
  }

  lemma {:induction false} SelectOrder(s: seq<string>, keep: set<string>)
    requires Distinct(s)
    ensures Distinct(Select(s, keep))
    ensures forall a, b :: Precedes(Select(s, keep), a, b) ==> Precedes(s, a, b)
  {
    if s != [] {
      var tail := s[1..];
      assert forall i, j :: 0 <= i < j < |tail| ==> tail[i] == s[i + 1] && tail[j] == s[j + 1];
      SelectOrder(tail, keep);
      var r := Select(tail, keep);
      assert forall t :: t in r ==> t in tail;
      assert s[0] !in tail;
      forall a, b | Precedes(Select(s, keep), a, b) ensures Precedes(s, a, b) {
        SelectStep(s, keep, a, b);
      }
    }
  }

  lemma SelectStep(s: seq<string>, keep: set<string>, a: string, b: string)
    requires s != [] && Precedes(Select(s, keep), a, b)
    requires Precedes(Select(s[1..], keep), a, b) ==> Precedes(s[1..], a, b)
    ensures Precedes(s, a, b)
  {
    var all, r := Select(s, keep), Select(s[1..], keep);
    var i, j :| 0 <= i < j < |all| && all[i] == a && all[j] == b;
    if s[0] in keep && i == 0 {
      assert r[j - 1] == b && b in s[1..];
      var k :| 0 <= k < |s| - 1 && s[1..][k] == b;
      assert s[0] == a && s[k + 1] == b;
    } else {
      if s[0] in keep {
        assert r[i - 1] == a && r[j - 1] == b;
      }
      assert Precedes(r, a, b);
      var x, y :| 0 <= x < y < |s| - 1 && s[1..][x] == a && s[1..][y] == b;
      assert s[x + 1] == a && s[y + 1] == b;
    }
  }

  /** Tables with no key go first: nothing references them, and their rows are matched through columns a later delete may empty. */
  method KeylessFirst(g: Graph, ordered: seq<string>) returns (r: seq<string>)
    requires Distinct(ordered)
    ensures Distinct(r) && forall t :: t in r <==> t in ordered
    ensures forall i, j :: 0 <= i < j < |r| && g.Key(r[j]) == [] ==> g.Key(r[i]) == []
    ensures forall a, b :: Precedes(r, a, b) && g.Key(a) != [] ==> Precedes(ordered, a, b)
  {
    var keyless := set t | t in ordered && g.Key(t) == [];
    var keyed := set t | t in ordered && g.Key(t) != [];
    SelectOrder(ordered, keyless);
    SelectOrder(ordered, keyed);
    var first, last := Select(ordered, keyless), Select(ordered, keyed);
    r := first + last;
    assert forall t :: t in first ==> t !in last;
    assert forall i :: 0 <= i < |first| ==> r[i] == first[i] && first[i] in first;
    assert forall i :: |first| <= i < |r| ==> r[i] == last[i - |first|] && r[i] in last;
    forall a, b | Precedes(r, a, b) && g.Key(a) != [] ensures Precedes(ordered, a, b) {
      var i, j :| 0 <= i < j < |r| && r[i] == a && r[j] == b;
      assert i >= |first|;
      assert last[i - |first|] == a && last[j - |first|] == b;
      assert Precedes(last, a, b);
    }
  }

  /** The order edges the delete order does not satisfy; refuses one that holds a key column. */
  /** A reference that no position in `tables` satisfies goes through a key column of its child. */
  ghost predicate CutsKey(g: Graph, tables: seq<string>, order: seq<Edge>) {
    exists e, c :: e in order && OutOfOrder(tables, e) && c in e.cols && c in g.Key(e.child)
  }

  method Cuts(g: Graph, tables: seq<string>, order: seq<Edge>) returns (r: Outcome<seq<Edge>>)
    requires Distinct(tables)
    ensures r.Ok? ==> forall e :: e in r.value <==> e in order && g.Key(e.child) != [] && OutOfOrder(tables, e)
    ensures r.Ok? ==> forall e :: e in r.value ==> Columns(e.cols) !! Columns(g.Key(e.child))
    ensures r.Refused? <==> CutsKey(g, tables, order)
  {
    var cuts := [];
    for k := 0 to |order|
      invariant forall e :: e in cuts <==> e in order[..k] && g.Key(e.child) != [] && OutOfOrder(tables, e)
      invariant forall e :: e in cuts ==> Columns(e.cols) !! Columns(g.Key(e.child))
      invariant forall e :: e in order[..k] && OutOfOrder(tables, e) ==> Columns(e.cols) !! Columns(g.Key(e.child))
    {
      var e := order[k];
      assert order[..k + 1] == order[..k] + [e];
      var late := if e.child == e.parent then e.action.Restrict? else
        exists i, j :: 0 <= i < j < |tables| && tables[i] == e.parent && tables[j] == e.child;
      assert late == OutOfOrder(tables, e);
      if g.Key(e.child) != [] && late {
        if c :| c in e.cols && c in g.Key(e.child) {
          assert CutsKey(g, tables, order);
          return Refused;
        }
        cuts := cuts + [e];
      }
    }
    assert order[..|order|] == order;
    assert forall e, c :: e in order && OutOfOrder(tables, e) && c in e.cols ==> c in Columns(e.cols) && c !in Columns(g.Key(e.child));
    r := Ok(cuts);
  }

  /** The erasers that seed a table: every delete eraser on a keyed entity table of the plan. */
  ghost predicate SeedsFit(g: Graph, erasers: seq<Eraser>, p: Plan, t: string) {
    forall er :: er in p.Seeds(t) <==> er in erasers && er.table == t && t in p.tables && g.Key(t) != [] && !g.Pivot(t)
  }

  lemma NotBothWays(s: seq<string>, a: string, b: string)
    requires Distinct(s) && Precedes(s, a, b)
    ensures !Precedes(s, b, a)
  {
  }

  /** A reference between two tables that comes out of order lies on a cycle of tables. */
  ghost predicate LateOnlyOnCycles(g: Graph, tables: seq<string>, order: seq<Edge>) {
    forall e :: e in order && g.Key(e.child) != [] && e.child != e.parent && OutOfOrder(tables, e) ==>
      WaitsOn(Columns(tables), order, false, e.child, e.parent)
  }

  /** The references that order the delete: those followed into the plan, and the blockers between its tables. */
  ghost predicate OrdersDelete(g: Graph, tables: seq<string>, order: seq<Edge>) {
    forall e :: e in order <==> e in g.edges && e.parent in tables && e.child in tables && (g.Follows(e) || (e.Blocks() && g.Managed(e.child)))
  }

  /**
  `tables` is the delete order: it reaches exactly the least closed set of tables,
  and only a cycle of tables leaves a reference of `order` out of order in it.
  The plan is refused exactly when an owner-scoped table of it has no key, or a
  reference it cannot order goes through a key column; otherwise it fits the graph.
  */
  method PlanErase(g: Graph, erasers: seq<Eraser>) returns (r: Outcome<Plan>, ghost tables: seq<string>, ghost order: seq<Edge>)
    requires g.WellFormed()
    ensures TablesClosed(g, erasers, Columns(tables)) && Reachable(g, erasers, Columns(tables))
    ensures Distinct(tables) && OrdersDelete(g, tables, order) && LateOnlyOnCycles(g, tables, order)
    ensures r.Refused? <==> (exists t :: t in tables && t in g.tables && g.Key(t) == [] && g.tables[t].owner != "") || CutsKey(g, tables, order)
    ensures r.Ok? ==> PlanFits(g, r.value) && r.value.tables == tables
    ensures r.Ok? ==> forall t :: SeedsFit(g, erasers, r.value, t)
  {
    var roots := Roots(g, erasers);
    var byTable, edges := Reach(g, erasers, roots);
    var blockers, ordering := Blockers(g, byTable, edges);
    var sorted := SortedKeys(byTable);
    assert Distinct(sorted) by {
      forall i, j | 0 <= i < j < |sorted| ensures sorted[i] != sorted[j] {
        assert Less(sorted[i], sorted[j]);
      }
    }
    var ordered := OrderTables(sorted, ordering, false);
    var sequence := KeylessFirst(g, ordered);
    tables, order := sequence, ordering;
    assert Columns(tables) == Columns(sorted) == byTable;
    forall e | e in order && g.Key(e.child) != [] && e.child != e.parent && OutOfOrder(tables, e)
      ensures WaitsOn(Columns(tables), order, false, e.child, e.parent)
    {
      assert Precedes(tables, e.parent, e.child);
      assert g.Key(e.parent) != [];
      assert Precedes(ordered, e.parent, e.child);
      NotBothWays(ordered, e.parent, e.child);
      assert Orders(e, false, e.child, e.parent) && e.child in sorted && e.parent in sorted;
      assert Before(Columns(sorted), order, false, e.child, e.parent);
    }
    if t :| t in sequence && g.Key(t) == [] && g.tables[t].owner != "" {
      return Refused, tables, order;
    }
    var cuts := Cuts(g, sequence, ordering);
    if cuts.Refused? {
      return Refused, tables, order;
    }
    var seeds := map t | t in sequence && g.Key(t) != [] && !g.Pivot(t) :: SeedsOf(g, erasers, t);
    var plan := Plan(sequence, edges, blockers, cuts.value, seeds);
    forall t ensures SeedsFit(g, erasers, plan, t) {
      assert plan.Seeds(t) == if t in seeds then SeedsOf(g, erasers, t) else [];
    }
    r := Ok(plan);
  }
}
