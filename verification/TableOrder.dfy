/**
`orderTables`: the depth-first order the erasure deletes tables in and the
restore writes them in.
*/
module TableOrder {
  import opened Relational
  import opened Ordering

  /** An edge makes `first` come out before `second`. */
  predicate Orders(e: Edge, parentsFirst: bool, first: string, second: string) {
    e.child != e.parent &&
    if parentsFirst then first == e.parent && second == e.child
    else first == e.child && second == e.parent
  }

  /** `first` must come out before `second`: some edge between two of the tables says so. */
  ghost predicate Before(tables: set<string>, edges: seq<Edge>, parentsFirst: bool, first: string, second: string) {
    first in tables && second in tables && exists e :: e in edges && Orders(e, parentsFirst, first, second)
  }

  /** A chain of tables, each waiting on the next. */
  ghost predicate WaitChain(tables: set<string>, edges: seq<Edge>, parentsFirst: bool, p: seq<string>) {
    forall i, j :: 0 <= i < j < |p| && j == i + 1 ==> Before(tables, edges, parentsFirst, p[j], p[i])
  }

  /** `a` waits, directly or through other tables, on `b`. */
  ghost predicate WaitsOn(tables: set<string>, edges: seq<Edge>, parentsFirst: bool, a: string, b: string) {
    exists p :: |p| > 1 && WaitChain(tables, edges, parentsFirst, p) && p[0] == a && p[|p| - 1] == b
  }

  ghost predicate Distinct(s: seq<string>) {
    forall i, j :: 0 <= i < j < |s| ==> s[i] != s[j]
  }

  /** `a` comes out before `b`. */
  ghost predicate Precedes(s: seq<string>, a: string, b: string) {
    exists i, j :: 0 <= i < j < |s| && s[i] == a && s[j] == b
  }

  datatype Mark = InProgress | Done

  ghost predicate Lists(before: map<string, seq<string>>, t: string, d: string) {
    t in before && d in before[t]
  }

  /** The tables, the edges between them and the direction a traversal follows. */
  datatype Relation = Relation(tables: set<string>, edges: seq<Edge>, parentsFirst: bool) {
    ghost predicate Needs(first: string, second: string) {
      Before(tables, edges, parentsFirst, first, second)
    }

    ghost predicate Cyclic(first: string, second: string) {
      WaitsOn(tables, edges, parentsFirst, first, second)
    }

    /** Everything a table already out waits on is out before it, or sits on a cycle with it. */
    ghost predicate Settled(out: seq<string>) {
      forall t, d :: t in out && Needs(d, t) ==> Precedes(out, d, t) || Cyclic(d, t)
    }

    ghost predicate Consistent(state: map<string, Mark>, out: seq<string>, stack: seq<string>) {
      && state.Keys <= tables
      && Distinct(out)
      && (forall t :: t in out <==> t in state && state[t].Done?)
      && (forall t :: t in stack <==> t in state && state[t].InProgress?)
      && WaitChain(tables, edges, parentsFirst, stack)
      && Settled(out)
    }

    lemma Opening(state: map<string, Mark>, out: seq<string>, stack: seq<string>, t: string)
      requires Consistent(state, out, stack) && t in tables && t !in state
      requires stack != [] ==> Needs(t, stack[|stack| - 1])
      ensures Consistent(state[t := InProgress], out, stack + [t])
    {
    }

    lemma SettledGrows(out: seq<string>, t: string)
      requires Settled(out)
      requires forall d :: Needs(d, t) ==> d in out || Cyclic(d, t)
      ensures Settled(out + [t])
    {
      var out' := out + [t];
      forall x, d | x in out' && Needs(d, x) ensures Precedes(out', d, x) || Cyclic(d, x) {
        if x in out && Precedes(out, d, x) {
          var i, j :| 0 <= i < j < |out| && out[i] == d && out[j] == x;
          assert out'[i] == d && out'[j] == x;
        } else if d in out && x == t {
          var i :| 0 <= i < |out| && out[i] == d;
          assert out'[i] == d && out'[|out|] == t;
        }
      }
    }

    lemma Closing(state: map<string, Mark>, out: seq<string>, stack: seq<string>, t: string)
      requires Consistent(state, out, stack + [t]) && t !in stack
      requires forall d :: Needs(d, t) ==> d in state
      ensures Consistent(state[t := Done], out + [t], stack)
    {
      var inner := stack + [t];
      assert t in inner;
      forall d | Needs(d, t) ensures d in out || Cyclic(d, t) {
        if d !in out {
          assert d in inner;
          StackCloses(tables, edges, parentsFirst, inner, d, t);
        }
      }
      SettledGrows(out, t);
      assert forall x :: x in stack ==> x in inner;
      assert forall i :: 0 <= i < |stack| ==> inner[i] == stack[i];
    }
  }

  /** The traversal: the state map, the output and the visit closure over them. */
  class Traversal {
    ghost const rel: Relation
    const before: map<string, seq<string>>
    var state: map<string, Mark>
    var ordered: seq<string>

    constructor (before: map<string, seq<string>>, ghost rel: Relation)
      ensures this.before == before && this.rel == rel
      ensures state == map[] && ordered == []
    {
      this.before, this.rel := before, rel;
      state, ordered := map[], [];
    }

    /** `before` lists exactly the tables each table waits on. */
    ghost predicate Wired() {
      forall t, d :: Lists(before, t, d) <==> rel.Needs(d, t)
    }

    method Visit(t: string, ghost stack: seq<string>)
      requires Wired() && rel.Consistent(state, ordered, stack) && t in rel.tables
      requires stack != [] ==> rel.Needs(t, stack[|stack| - 1])
      modifies this`state, this`ordered
      ensures rel.Consistent(state, ordered, stack)
      ensures old(state).Keys <= state.Keys && t in state
      decreases |rel.tables - state.Keys|, 0
    {
      if t in state {
        return;
      }
      rel.Opening(state, ordered, stack, t);
      state := state[t := InProgress];
      var deps := if t in before then before[t] else [];
      Fewer(rel.tables - state.Keys, rel.tables - old(state).Keys, t);
      assert forall d :: d in deps ==> Lists(before, t, d);
      VisitAll(deps, stack + [t]);
      forall d | rel.Needs(d, t) ensures d in state {
        assert Lists(before, t, d);
      }
      rel.Closing(state, ordered, stack, t);
      state := state[t := Done];
      ordered := ordered + [t];
    }

    /** The loop over what the table on top of the stack waits on. */
    method VisitAll(deps: seq<string>, ghost stack: seq<string>)
      requires Wired() && rel.Consistent(state, ordered, stack) && stack != []
      requires forall d :: d in deps ==> rel.Needs(d, stack[|stack| - 1])
      modifies this`state, this`ordered
      ensures rel.Consistent(state, ordered, stack)
      ensures old(state).Keys <= state.Keys && Seen(deps, state.Keys)
      decreases |rel.tables - state.Keys|, 1
    {
      for k := 0 to |deps|
        invariant rel.Consistent(state, ordered, stack)
        invariant old(state).Keys <= state.Keys && Seen(deps[..k], state.Keys)
      {
        NoMore(rel.tables - state.Keys, rel.tables - old(state).Keys);
        ghost var seen := state.Keys;
        assert deps[k] in deps && rel.Needs(deps[k], stack[|stack| - 1]);
        Visit(deps[k], stack);
        OneMoreSeen(deps, k, seen, state.Keys);
      }
      assert deps[..|deps|] == deps;
    }
  }

  lemma NoMore<T>(small: set<T>, big: set<T>)
    requires small <= big
    ensures |small| <= |big|
  {
    assert big == small + (big - small);
    assert |big| == |small| + |big - small|;
  }

  ghost predicate Seen(deps: seq<string>, seen: set<string>) {
    forall d :: d in deps ==> d in seen
  }

  lemma OneMoreSeen(deps: seq<string>, k: nat, seen: set<string>, now: set<string>)
    requires k < |deps| && Seen(deps[..k], seen) && seen <= now && deps[k] in now
    ensures Seen(deps[..k + 1], now)
  {
    assert deps[..k + 1] == deps[..k] + [deps[k]];
  }

  lemma Fewer<T>(small: set<T>, big: set<T>, x: T)
    requires small <= big && x in big && x !in small
    ensures |small| < |big|
  {
    assert big == small + (big - small) && x in big - small;
    assert |big| == |small| + |big - small|;
  }

  /** A table found in progress is below `t` on the stack, so it waits on `t` in turn. */
  lemma StackCloses(tables: set<string>, edges: seq<Edge>, parentsFirst: bool, stack: seq<string>, d: string, t: string)
    requires WaitChain(tables, edges, parentsFirst, stack) && d in stack
    requires stack[|stack| - 1] == t && Before(tables, edges, parentsFirst, d, t)
    ensures WaitsOn(tables, edges, parentsFirst, d, t)
  {
    var i :| 0 <= i < |stack| && stack[i] == d;
    var p := stack[i..];
    assert p[|p| - 1] == t;
  }

  /** The tables `second` waits on, sorted and without duplicates. */
  method Predecessors(tables: seq<string>, edges: seq<Edge>, parentsFirst: bool) returns (before: map<string, seq<string>>)
    ensures forall t, d :: Lists(before, t, d) <==> Before(Columns(tables), edges, parentsFirst, d, t)
  {
    before := map[];
    for k := 0 to |edges|
      invariant forall t, d :: Lists(before, t, d) <==> Before(Columns(tables), edges[..k], parentsFirst, d, t)
    {
      var e := edges[k];
      assert edges[..k + 1] == edges[..k] + [e];
      ghost var prior := before;
      if e.child != e.parent && e.child in tables && e.parent in tables {
        var first, second := if parentsFirst then e.parent else e.child, if parentsFirst then e.child else e.parent;
        before := before[second := (if second in before then before[second] else []) + [first]];
        assert forall t, d :: Lists(before, t, d) <==>
          Lists(prior, t, d) || (Orders(e, parentsFirst, d, t) && e.child in tables && e.parent in tables);
      }
      forall t, d ensures Lists(before, t, d) <==> Before(Columns(tables), edges[..k + 1], parentsFirst, d, t) {
        OneMoreEdge(Columns(tables), edges[..k], e, parentsFirst, d, t);
        assert Lists(prior, t, d) <==> Before(Columns(tables), edges[..k], parentsFirst, d, t);
      }
    }
    assert edges[..|edges|] == edges;
    ghost var unsorted := before;
    before := map t | t in before :: Compact(Sort(before[t]));
    forall t, d ensures Lists(before, t, d) <==> Lists(unsorted, t, d) {
      if t in unsorted {
        CanonicalList(unsorted[t]);
      }
    }
  }

  lemma OneMoreEdge(tables: set<string>, edges: seq<Edge>, e: Edge, parentsFirst: bool, d: string, t: string)
    ensures Before(tables, edges + [e], parentsFirst, d, t) <==>
              Before(tables, edges, parentsFirst, d, t) ||
              (d in tables && t in tables && Orders(e, parentsFirst, d, t))
  {
    if d in tables && t in tables && Orders(e, parentsFirst, d, t) {
      assert e in edges + [e];
    }
    if Before(tables, edges, parentsFirst, d, t) {
      var x :| x in edges && Orders(x, parentsFirst, d, t);
      assert x in edges + [e];
    }
  }

  /**
  The order is a permutation of the tables. Each edge is respected unless the
  two tables wait on each other, so only a cycle of tables leaves one out of order.
  */
  method OrderTables(tables: seq<string>, edges: seq<Edge>, parentsFirst: bool) returns (ordered: seq<string>)
    requires Distinct(tables)
    ensures Distinct(ordered) && forall t :: t in ordered <==> t in tables
    ensures forall first, second :: Before(Columns(tables), edges, parentsFirst, first, second) ==>
              Precedes(ordered, first, second) || WaitsOn(Columns(tables), edges, parentsFirst, first, second)
  {
    var before := Predecessors(tables, edges, parentsFirst);
    if before == map[] {
      return tables;
    }
    ghost var rel := Relation(Columns(tables), edges, parentsFirst);
    var v := new Traversal(before, rel);
    for k := 0 to |tables|
      invariant v.Wired() && rel.Consistent(v.state, v.ordered, [])
      invariant forall i :: 0 <= i < k ==> tables[i] in v.state
    {
      v.Visit(tables[k], []);
    }
    ordered := v.ordered;
    assert forall first, second :: rel.Needs(first, second) ==> second in ordered ==>
      Precedes(ordered, first, second) || rel.Cyclic(first, second);
    forall t ensures t in ordered <==> t in tables {
      assert t in tables ==> t in v.state;
    }
  }
}
