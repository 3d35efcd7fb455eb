/**
BatteryManager: the dependency order batteries are initialized in and, backwards,
stopped in.
*/
module Battery {
  import opened Ordering

  /** Each registered battery and its declared dependencies, duplicates included. */
  type Entries = map<string, seq<string>>

  datatype Outcome = Resolved(order: seq<string>) | UnknownDependency | Circular(unresolved: set<string>)

  predicate DependsOn(en: Entries, name: string, dep: string) {
    name in en && dep in en[name]
  }

  ghost predicate AllKnown(en: Entries) {
    forall name, dep :: DependsOn(en, name, dep) ==> dep in en
  }

  /** Each battery of the chain depends on the next. */
  ghost predicate Chain(en: Entries, p: seq<string>) {
    forall i, j :: 0 <= i < j < |p| && j == i + 1 ==> DependsOn(en, p[i], p[j])
  }

  ghost predicate Cyclic(en: Entries) {
    exists p :: |p| > 1 && Chain(en, p) && p[0] == p[|p| - 1]
  }

  ghost predicate Distinct(s: seq<string>) {
    forall i, j :: 0 <= i < j < |s| ==> s[i] != s[j]
  }

  /** Dependencies first, as far as the list goes. */
  ghost predicate DependenciesFirst(en: Entries, s: seq<string>) {
    forall i, dep :: 0 <= i < |s| && DependsOn(en, s[i], dep) ==> dep in s[..i]
  }

  /** A permutation of the batteries with dependencies first. */
  ghost predicate Valid(en: Entries, s: seq<string>) {
    Distinct(s) && (forall n :: n in s <==> n in en) && DependenciesFirst(en, s)
  }

  /** `s` is below `o` in dictionary order of names, as far as `s` goes. */
  ghost predicate AtMost(s: seq<string>, o: seq<string>) {
    s <= o || exists k :: 0 <= k < |s| && k < |o| && s[..k] == o[..k] && Less(s[k], o[k])
  }

  // ---- Counting ------------------------------------------------------------

  /** The dependency entries not yet out. */
  function Pending(deps: seq<string>, done: set<string>): nat {
    if deps == [] then 0 else (if deps[0] in done then 0 else 1) + Pending(deps[1..], done)
  }

  function Occurrences(deps: seq<string>, d: string): nat {
    if deps == [] then 0 else (if deps[0] == d then 1 else 0) + Occurrences(deps[1..], d)
  }

  lemma {:induction false} PendingZero(deps: seq<string>, done: set<string>)
    ensures Pending(deps, done) == 0 <==> forall d :: d in deps ==> d in done
  {
    if deps != [] {
      PendingZero(deps[1..], done);
      assert deps == [deps[0]] + deps[1..];
    }
  }

  lemma {:induction false} PendingDrops(deps: seq<string>, done: set<string>, d: string)
    requires d !in done
    ensures Pending(deps, done) == Pending(deps, done + {d}) + Occurrences(deps, d)
  {
    if deps != [] {
      PendingDrops(deps[1..], done, d);
    }
  }

  lemma {:induction false} NothingPendingOut(deps: seq<string>)
    ensures Pending(deps, {}) == |deps|
  {
    if deps != [] {
      NothingPendingOut(deps[1..]);
    }
  }

  // ---- Kahn's algorithm ----------------------------------------------------

  /** adj lists each battery once per dependency entry naming the key. */
  ghost predicate Adjacent(en: Entries, adj: map<string, seq<string>>) {
    forall d, n :: multiset(Dependents(adj, d))[n] == if n in en then Occurrences(en[n], d) else 0
  }

  function Dependents(adj: map<string, seq<string>>, d: string): seq<string> {
    if d in adj then adj[d] else []
  }

  /** The batteries of `part` only. */
  ghost predicate AdjacentPart(en: Entries, part: set<string>, adj: map<string, seq<string>>) {
    forall d, n :: multiset(Dependents(adj, d))[n] == if n in part && n in en then Occurrences(en[n], d) else 0
  }

  method BuildAdjacency(en: Entries) returns (adj: map<string, seq<string>>)
    ensures Adjacent(en, adj)
  {
    adj := map[];
    var left := en.Keys;
    ghost var part: set<string> := {};
    while left != {}
      invariant left <= en.Keys && part == en.Keys - left && AdjacentPart(en, part, adj)
      decreases |left|
    {
      var name :| name in left;
      left := left - {name};
      adj := AddEntry(en, part, adj, name);
      part := part + {name};
    }
  }

  /** One battery's dependency entries. */
  method AddEntry(en: Entries, ghost part: set<string>, adj0: map<string, seq<string>>, name: string) returns (adj: map<string, seq<string>>)
    requires AdjacentPart(en, part, adj0) && name in en && name !in part
    ensures AdjacentPart(en, part + {name}, adj)
  {
    hide *;
    adj := adj0;
    var deps := en[name];
    NoEntriesYet(en, part, adj0, name);
    for k := 0 to |deps|
      invariant EntriesAdded(deps[..k], adj0, adj, name)
    {
      OneMoreOccurrence(deps, k);
      OneEntryAdded(deps, k, adj0, adj, name);
      adj := adj[deps[k] := Dependents(adj, deps[k]) + [name]];
    }
    assert deps[..|deps|] == deps;
    AllEntriesAdded(en, part, adj0, adj, name);
  }

  ghost predicate EntriesAdded(deps: seq<string>, adj0: map<string, seq<string>>, adj: map<string, seq<string>>, name: string) {
    forall d, n :: multiset(Dependents(adj, d))[n] == if n == name then Occurrences(deps, d) else multiset(Dependents(adj0, d))[n]
  }

  lemma NoEntriesYet(en: Entries, part: set<string>, adj0: map<string, seq<string>>, name: string)
    requires AdjacentPart(en, part, adj0) && name !in part && name in en
    ensures EntriesAdded(en[name][..0], adj0, adj0, name)
  {
  }

  lemma OneEntryAdded(deps: seq<string>, k: nat, adj0: map<string, seq<string>>, adj: map<string, seq<string>>, name: string)
    requires k < |deps| && EntriesAdded(deps[..k], adj0, adj, name)
    requires forall d :: Occurrences(deps[..k + 1], d) == Occurrences(deps[..k], d) + if d == deps[k] then 1 else 0
    ensures EntriesAdded(deps[..k + 1], adj0, adj[deps[k] := Dependents(adj, deps[k]) + [name]], name)
  {
    var next := adj[deps[k] := Dependents(adj, deps[k]) + [name]];
    forall d, n
      ensures multiset(Dependents(next, d))[n] == if n == name then Occurrences(deps[..k + 1], d) else multiset(Dependents(adj0, d))[n]
    {
      assert multiset(Dependents(adj, d))[n] == if n == name then Occurrences(deps[..k], d) else multiset(Dependents(adj0, d))[n];
      if d == deps[k] {
        assert multiset(Dependents(next, d)) == multiset(Dependents(adj, d)) + multiset{name};
      }
    }
  }

  lemma AllEntriesAdded(en: Entries, part: set<string>, adj0: map<string, seq<string>>, adj: map<string, seq<string>>, name: string)
    requires name in en && name !in part && AdjacentPart(en, part, adj0) && EntriesAdded(en[name], adj0, adj, name)
    ensures AdjacentPart(en, part + {name}, adj)
  {
  }

  lemma OneMoreOccurrence(deps: seq<string>, k: nat)
    requires k < |deps|
    ensures forall d :: Occurrences(deps[..k + 1], d) == Occurrences(deps[..k], d) + if d == deps[k] then 1 else 0
  {
    forall d ensures Occurrences(deps[..k + 1], d) == Occurrences(deps[..k], d) + if d == deps[k] then 1 else 0 {
      assert deps[..k + 1] == deps[..k] + [deps[k]];
      OccurrencesAppend(deps[..k], deps[k], d);
    }
  }

  lemma {:induction false} OccurrencesAppend(deps: seq<string>, x: string, d: string)
    ensures Occurrences(deps + [x], d) == Occurrences(deps, d) + if x == d then 1 else 0
  {
    if deps != [] {
      assert (deps + [x])[1..] == deps[1..] + [x];
      OccurrencesAppend(deps[1..], x, d);
    }
  }

  function Names(s: seq<string>): set<string> {
    set n | n in s
  }

  /** While the dependents of `curr` are walked, `left` of them still to go. */
  ghost predicate Walking(en: Entries, inDegree: map<string, int>, queue: seq<string>, sorted: seq<string>, left: multiset<string>) {
    && inDegree.Keys == en.Keys
    && (forall n :: n in left ==> n in en)
    && (forall n :: n in en ==> inDegree[n] == Pending(en[n], Names(sorted)) + left[n])
    && Sorted(queue) && Distinct(queue) && (forall n :: n in queue <==> n in en && n !in sorted && inDegree[n] == 0)
  }

  /** What has been put out: a dependencies-first list no order goes below. */
  ghost predicate Emitted(en: Entries, sorted: seq<string>) {
    && Distinct(sorted) && (forall n :: n in sorted ==> n in en) && DependenciesFirst(en, sorted)
    && forall o :: Valid(en, o) ==> AtMost(sorted, o)
  }

  /** Between two pops: the counters, the sorted queue of what is ready, and the output. */
  ghost predicate Between(en: Entries, inDegree: map<string, int>, queue: seq<string>, sorted: seq<string>) {
    Walking(en, inDegree, queue, sorted, multiset{}) && Emitted(en, sorted)
  }

  /** Popping the head: every other order puts nothing smaller there. */
  lemma PopIsLeast(en: Entries, inDegree: map<string, int>, queue: seq<string>, sorted: seq<string>)
    requires Between(en, inDegree, queue, sorted) && queue != []
    ensures Emitted(en, sorted + [queue[0]])
  {
    var curr, next := queue[0], sorted + [queue[0]];
    assert curr in queue;
    PendingZero(en[curr], Names(sorted));
    forall i, dep | 0 <= i < |next| && DependsOn(en, next[i], dep) ensures dep in next[..i] {
      assert next[..i] == sorted[..i];
      assert i == |sorted| ==> sorted[..i] == sorted && dep in Names(sorted);
    }
    forall o | Valid(en, o) ensures AtMost(next, o) {
      assert AtMost(sorted, o);
      if sorted <= o {
        HeadAtMost(en, inDegree, queue, sorted, o);
      } else {
        var k :| 0 <= k < |sorted| && k < |o| && sorted[..k] == o[..k] && Less(sorted[k], o[k]);
        assert next[..k] == sorted[..k] && next[k] == sorted[k];
      }
    }
  }

  lemma HeadAtMost(en: Entries, inDegree: map<string, int>, queue: seq<string>, sorted: seq<string>, o: seq<string>)
    requires Between(en, inDegree, queue, sorted) && queue != [] && Valid(en, o) && sorted <= o
    ensures AtMost(sorted + [queue[0]], o)
  {
    var curr, n := queue[0], |sorted|;
    assert curr in queue && curr in o && curr !in sorted;
    assert o != sorted && |o| > n;
    assert o[..n] == sorted && o[n] in en;
    forall i | 0 <= i < n ensures sorted[i] != o[n] {
      assert o[i] == sorted[i];
    }
    PendingZero(en[o[n]], Names(sorted));
    forall dep | dep in en[o[n]] ensures dep in Names(sorted) {
      assert DependsOn(en, o[n], dep);
    }
    assert o[n] in queue;
    var j :| 0 <= j < |queue| && queue[j] == o[n];
    SortedPairs(queue, 0, j);
    var next := sorted + [curr];
    if curr == o[n] {
      assert next == o[..n + 1];
    } else {
      assert next[..n] == o[..n] && Less(next[n], o[n]);
    }
  }

  /** The step of the inner loop: one dependency entry less, and ready batteries join the queue in order. */
  method Release(en: Entries, inDegree0: map<string, int>, queue0: seq<string>, ghost sorted: seq<string>, ghost left: multiset<string>, dep: string)
    returns (inDegree: map<string, int>, queue: seq<string>)
    requires Walking(en, inDegree0, queue0, sorted, left + multiset{dep})
    requires dep !in sorted
    ensures Walking(en, inDegree, queue, sorted, left)
  {
    assert dep in left + multiset{dep} && dep in en;
    inDegree, queue := inDegree0[dep := inDegree0[dep] - 1], queue0;
    assert dep !in queue0;
    if inDegree[dep] == 0 {
      queue := Ordering.Sort(queue + [dep]);
      JoinQueue(queue0, dep);
    }
  }

  lemma JoinQueue(queue: seq<string>, x: string)
    requires Distinct(queue) && x !in queue
    ensures var r := Ordering.Sort(queue + [x]);
            Sorted(r) && Distinct(r) && forall n :: n in r <==> n in queue || n == x
  {
    var r := Ordering.Sort(queue + [x]);
    assert multiset(r) == multiset(queue) + multiset{x};
    forall n ensures n in r <==> n in queue || n == x {
      assert n in r <==> n in multiset(r);
      assert n in queue <==> n in multiset(queue);
    }
    forall i, j | 0 <= i < j < |r| ensures r[i] != r[j] {
      if r[i] == r[j] {
        TwiceInMultiset(r, i, j);
        OnceInMultiset(queue, x, r[i]);
      }
    }
  }

  lemma TwiceInMultiset(s: seq<string>, i: nat, j: nat)
    requires i < j < |s| && s[i] == s[j]
    ensures multiset(s)[s[i]] >= 2
  {
    assert s == s[..j] + s[j..];
    assert s[..j][i] in multiset(s[..j]) && s[j..][0] in multiset(s[j..]);
  }

  lemma {:induction false} OnceInMultiset(queue: seq<string>, x: string, n: string)
    requires Distinct(queue) && x !in queue
    ensures (multiset(queue) + multiset{x})[n] <= 1
  {
    if queue != [] {
      var front, last := queue[..|queue| - 1], queue[|queue| - 1];
      assert queue == front + [last];
      OnceInMultiset(front, x, n);
      assert last !in front;
    }
  }

  /** The dependents of `curr`, walked in order. */
  method ReleaseAll(en: Entries, dependents: seq<string>, inDegree0: map<string, int>, queue0: seq<string>, ghost sorted: seq<string>)
    returns (inDegree: map<string, int>, queue: seq<string>)
    requires Walking(en, inDegree0, queue0, sorted, multiset(dependents))
    requires forall n :: n in dependents ==> n !in sorted
    ensures Walking(en, inDegree, queue, sorted, multiset{})
  {
    hide *;
    inDegree, queue := inDegree0, queue0;
    assert dependents[0..] == dependents;
    for k := 0 to |dependents|
      invariant Walking(en, inDegree, queue, sorted, multiset(dependents[k..]))
    {
      HeadEntry(dependents, k);
      inDegree, queue := Release(en, inDegree, queue, sorted, multiset(dependents[k + 1..]), dependents[k]);
    }
    assert multiset(dependents[|dependents|..]) == multiset{};
  }

  lemma HeadEntry(s: seq<string>, k: nat)
    requires k < |s|
    ensures multiset(s[k..]) == multiset(s[k + 1..]) + multiset{s[k]}
  {
    assert s[k..] == [s[k]] + s[k + 1..];
  }

  /** Taking the head off the queue, before its dependents are walked. */
  lemma PopStarts(en: Entries, adj: map<string, seq<string>>, inDegree: map<string, int>, queue: seq<string>, sorted: seq<string>)
    requires Adjacent(en, adj) && Between(en, inDegree, queue, sorted) && queue != []
    ensures Walking(en, inDegree, queue[1..], sorted + [queue[0]], multiset(Dependents(adj, queue[0])))
    ensures forall n :: n in Dependents(adj, queue[0]) ==> n !in sorted + [queue[0]]
  {
    var curr, next := queue[0], sorted + [queue[0]];
    assert curr in queue;
    assert Names(next) == Names(sorted) + {curr};
    assert forall n :: n in en ==> inDegree[n] == Pending(en[n], Names(sorted));
    forall n | n in en
      ensures inDegree[n] == Pending(en[n], Names(next)) + multiset(Dependents(adj, curr))[n]
    {
      PendingDrops(en[n], Names(sorted), curr);
    }
    forall n | n in Dependents(adj, curr) ensures n !in next && n in en {
      assert multiset(Dependents(adj, curr))[n] > 0;
      DependentIsLater(en, adj, inDegree, queue, sorted, n);
    }
    QueueTail(queue);
  }

  lemma DependentIsLater(en: Entries, adj: map<string, seq<string>>, inDegree: map<string, int>, queue: seq<string>, sorted: seq<string>, n: string)
    requires Adjacent(en, adj) && Between(en, inDegree, queue, sorted) && queue != []
    requires multiset(Dependents(adj, queue[0]))[n] > 0
    ensures n in en && n !in sorted && n != queue[0]
  {
    assert queue[0] in queue && n in en;
    AnEntryOccurs(en[n], queue[0]);
    PendingZero(en[queue[0]], Names(sorted));
    if n in sorted {
      OutHasNothingPending(en, sorted, n);
    }
  }

  lemma {:induction false} AnEntryOccurs(deps: seq<string>, d: string)
    ensures d in deps <==> Occurrences(deps, d) > 0
  {
    if deps != [] {
      AnEntryOccurs(deps[1..], d);
      assert deps == [deps[0]] + deps[1..];
    }
  }

  lemma OutHasNothingPending(en: Entries, s: seq<string>, n: string)
    requires DependenciesFirst(en, s) && n in en && n in s
    ensures forall d :: d in en[n] ==> d in s
  {
    var i :| 0 <= i < |s| && s[i] == n;
    forall d | d in en[n] ensures d in s {
      assert DependsOn(en, s[i], d);
      assert d in s[..i];
    }
  }

  lemma QueueTail(queue: seq<string>)
    requires Sorted(queue) && Distinct(queue) && queue != []
    ensures Sorted(queue[1..]) && Distinct(queue[1..]) && forall n :: n in queue[1..] <==> n in queue && n != queue[0]
  {
    assert queue == [queue[0]] + queue[1..];
    assert forall i :: 0 <= i < |queue| - 1 ==> queue[1..][i] == queue[i + 1];
  }

  /** Kahn's algorithm over a queue that is sorted again after every push. */
  method Resolve(en: Entries) returns (out: Outcome)
    ensures out.UnknownDependency? <==> !AllKnown(en)
    ensures out.Circular? <==> AllKnown(en) && Cyclic(en)
    ensures out.Circular? ==> Stuck(en, out.unresolved)
    ensures out.Resolved? ==> Valid(en, out.order) && forall o :: Valid(en, o) ==> AtMost(out.order, o)
  {
    hide *;
    var known := VerifyKnown(en);
    if !known {
      return UnknownDependency;
    }
    var adj := BuildAdjacency(en);
    var inDegree, queue := Start(en);
    var sorted: seq<string> := [];
    while queue != []
      invariant Between(en, inDegree, queue, sorted) && |sorted| <= |en.Keys|
      decreases |en.Keys| - |sorted|
    {
      PopIsLeast(en, inDegree, queue, sorted);
      PopStarts(en, adj, inDegree, queue, sorted);
      var curr := queue[0];
      var dependents := Ordering.Sort(Dependents(adj, curr));
      SameMembers(dependents, Dependents(adj, curr));
      sorted := sorted + [curr];
      inDegree, queue := ReleaseAll(en, dependents, inDegree, queue[1..], sorted);
      Resume(en, inDegree, queue, sorted);
    }
    if |sorted| != |en.Keys| {
      var unresolved := set n | n in inDegree && inDegree[n] > 0;
      StuckAtEnd(en, inDegree, sorted, unresolved);
      return Circular(unresolved);
    }
    CompleteAtEnd(en, inDegree, sorted);
    return Resolved(sorted);
  }

  method VerifyKnown(en: Entries) returns (known: bool)
    ensures known <==> AllKnown(en)
  {
    var left := en.Keys;
    while left != {}
      invariant left <= en.Keys
      invariant forall name, dep :: name !in left && DependsOn(en, name, dep) ==> dep in en
      decreases |left|
    {
      var name :| name in left;
      left := left - {name};
      var deps := en[name];
      for k := 0 to |deps|
        invariant forall j :: 0 <= j < k ==> deps[j] in en
      {
        if deps[k] !in en {
          assert DependsOn(en, name, deps[k]);
          return false;
        }
      }
    }
    return true;
  }

  /** The counters start at the number of dependency entries; the batteries with none are ready. */
  method Start(en: Entries) returns (inDegree: map<string, int>, queue: seq<string>)
    ensures Between(en, inDegree, queue, [])
  {
    inDegree := map n | n in en :: |en[n]|;
    queue := Ordering.SortedKeys(set n | n in en && inDegree[n] == 0);
    forall n | n in en ensures inDegree[n] == Pending(en[n], Names([])) {
      assert Names([]) == {};
      NothingPendingOut(en[n]);
    }
    assert forall i, j :: 0 <= i < j < |queue| ==> Less(queue[i], queue[j]);
    assert Walking(en, inDegree, queue, [], multiset{});
    assert Emitted(en, []);
  }

  lemma SameMembers(a: seq<string>, b: seq<string>)
    requires multiset(a) == multiset(b)
    ensures forall n :: n in a <==> n in b
  {
    forall n ensures n in a <==> n in b {
      assert n in a <==> n in multiset(a);
      assert n in b <==> n in multiset(b);
    }
  }

  lemma Resume(en: Entries, inDegree: map<string, int>, queue: seq<string>, sorted: seq<string>)
    requires Walking(en, inDegree, queue, sorted, multiset{}) && Emitted(en, sorted)
    ensures Between(en, inDegree, queue, sorted) && |sorted| <= |en.Keys|
  {
    DistinctCount(sorted, en.Keys);
  }

  lemma {:induction false} DistinctCount(s: seq<string>, all: set<string>)
    requires Distinct(s) && forall n :: n in s ==> n in all
    ensures |s| <= |all| && (|s| == |all| ==> forall n :: n in all ==> n in s)
  {
    if s == [] {
      if |all| == 0 { assert all == {}; }
    } else {
      var front, last := s[..|s| - 1], s[|s| - 1];
      assert s == front + [last];
      DistinctCount(front, all - {last});
    }
  }

  // ---- Cycles --------------------------------------------------------------

  ghost predicate LeansOn(en: Entries, n: string, group: set<string>) {
    exists dep :: dep in group && DependsOn(en, n, dep)
  }

  /** A nonempty set of batteries each depending on one of the set. */
  ghost predicate Stuck(en: Entries, group: set<string>) {
    group != {} && forall n {:trigger LeansOn(en, n, group)} :: n in group ==> LeansOn(en, n, group)
  }

  lemma StuckAtEnd(en: Entries, inDegree: map<string, int>, sorted: seq<string>, unresolved: set<string>)
    requires Between(en, inDegree, [], sorted) && AllKnown(en) && |sorted| != |en.Keys|
    requires unresolved == set n | n in inDegree && inDegree[n] > 0
    ensures Stuck(en, unresolved) && Cyclic(en)
  {
    forall n ensures n in unresolved <==> n in en && n !in sorted {
      if n in sorted {
        OutHasNothingPending(en, sorted, n);
        PendingZero(en[n], Names(sorted));
      }
    }
    DistinctCount(sorted, en.Keys);
    assert unresolved != {} by {
      if forall n :: n in en ==> n in sorted {
        assert en.Keys == Names(sorted);
        NamesCount(sorted);
      }
    }
    forall n | n in unresolved ensures LeansOn(en, n, unresolved) {
      PendingZero(en[n], Names(sorted));
      var dep :| dep in en[n] && dep !in Names(sorted);
      assert DependsOn(en, n, dep);
    }
    assert Stuck(en, unresolved);
    hide *;
    var n :| n in unresolved;
    StuckIsCyclic(en, unresolved, n);
  }

  lemma {:induction false} NamesCount(s: seq<string>)
    ensures |Names(s)| <= |s|
  {
    if s != [] {
      var front := s[..|s| - 1];
      assert s == front + [s[|s| - 1]];
      assert Names(s) == Names(front) + {s[|s| - 1]};
      NamesCount(front);
    }
  }

  lemma StuckIsCyclic(en: Entries, group: set<string>, n: string)
    requires Stuck(en, group) && n in group
    ensures Cyclic(en)
  {
    assert Distinct([n]) && Chain(en, [n]);
    hide Cyclic, Stuck, Distinct, Chain;
    WalkUntilRepeat(en, group, [n]);
  }

  /** A walk that stays in a finite set repeats. */
  lemma {:induction false} WalkUntilRepeat(en: Entries, group: set<string>, p: seq<string>)
    requires Stuck(en, group) && p != [] && Distinct(p) && Chain(en, p) && forall n :: n in p ==> n in group
    ensures Cyclic(en)
    decreases |group| - |p|
  {
    var dep := NextOfGroup(en, group, p[|p| - 1]);
    ChainGrows(en, p, dep);
    if dep in p {
      LoopIsCyclic(en, p + [dep]);
    } else {
      assert Distinct(p + [dep]);
      hide *;
      DistinctCount(p + [dep], group);
      WalkUntilRepeat(en, group, p + [dep]);
    }
  }

  lemma NextOfGroup(en: Entries, group: set<string>, n: string) returns (dep: string)
    requires Stuck(en, group) && n in group
    ensures dep in group && DependsOn(en, n, dep)
  {
    assert LeansOn(en, n, group);
    dep :| dep in group && DependsOn(en, n, dep);
  }

  lemma ChainGrows(en: Entries, p: seq<string>, dep: string)
    requires p != [] && Chain(en, p) && DependsOn(en, p[|p| - 1], dep)
    ensures Chain(en, p + [dep])
  {
  }

  lemma LoopIsCyclic(en: Entries, p: seq<string>)
    requires |p| > 1 && Chain(en, p) && p[|p| - 1] in p[..|p| - 1]
    ensures Cyclic(en)
  {
    var i :| 0 <= i < |p| - 1 && p[i] == p[|p| - 1];
    var loop := p[i..];
    assert Chain(en, loop) && |loop| > 1 && loop[0] == loop[|loop| - 1];
  }

  lemma CompleteAtEnd(en: Entries, inDegree: map<string, int>, sorted: seq<string>)
    requires Between(en, inDegree, [], sorted) && |sorted| == |en.Keys|
    ensures Valid(en, sorted) && !Cyclic(en)
    ensures forall o :: Valid(en, o) ==> AtMost(sorted, o)
  {
    DistinctCount(sorted, en.Keys);
    ValidIsAcyclic(en, sorted);
  }

  lemma ValidIsAcyclic(en: Entries, o: seq<string>)
    requires Valid(en, o)
    ensures !Cyclic(en)
  {
    forall p | |p| > 1 && Chain(en, p) ensures p[0] != p[|p| - 1] {
      assert DependsOn(en, p[0], p[1]);
      var i :| 0 <= i < |o| && o[i] == p[0];
      ChainDescends(en, o, p, i);
    }
  }

  lemma {:induction false} ChainDescends(en: Entries, o: seq<string>, p: seq<string>, i: nat)
    requires Valid(en, o) && |p| > 1 && Chain(en, p) && i < |o| && o[i] == p[0]
    ensures p[|p| - 1] in o[..i]
    decreases |p|
  {
    assert DependsOn(en, p[0], p[1]);
    assert p[1] in o[..i];
    var j :| 0 <= j < i && o[j] == p[1];
    if |p| > 2 {
      assert Chain(en, p[1..]);
      ChainDescends(en, o, p[1..], j);
    }
  }

  /** The least order is one list, whatever order the map was walked in. */
  lemma LeastOrderUnique(en: Entries, a: seq<string>, b: seq<string>)
    requires Valid(en, a) && Valid(en, b)
    requires forall o :: Valid(en, o) ==> AtMost(a, o) && AtMost(b, o)
    ensures a == b
  {
    DistinctCount(a, en.Keys);
    DistinctCount(b, en.Keys);
    SameLength(a, b);
    assert AtMost(a, b) && AtMost(b, a);
    MutuallyAtMost(a, b);
  }

  lemma SameLength(a: seq<string>, b: seq<string>)
    requires Distinct(a) && Distinct(b) && forall n :: n in a <==> n in b
    ensures |a| == |b|
  {
    assert Names(a) == Names(b);
    DistinctCount(a, Names(b));
    DistinctCount(b, Names(a));
    NamesCount(a);
    NamesCount(b);
  }

  lemma MutuallyAtMost(a: seq<string>, b: seq<string>)
    requires |a| == |b| && AtMost(a, b) && AtMost(b, a)
    ensures a == b
  {
    if a != b {
      var k :| 0 <= k < |a| && a[..k] == b[..k] && Less(a[k], b[k]);
      var j :| 0 <= j < |b| && b[..j] == a[..j] && Less(b[j], a[j]);
      assert forall i :: 0 <= i < k ==> a[..k][i] == a[i] && b[..k][i] == b[i];
      assert forall i :: 0 <= i < j ==> a[..j][i] == a[i] && b[..j][i] == b[i];
      LeqAntisymmetric(a[k], b[k]);
    }
  }

  // ---- The manager ---------------------------------------------------------

  datatype Entry = Entry(deps: seq<string>, initialized: bool)

  function Declared(entries: map<string, Entry>): Entries {
    map n | n in entries :: entries[n].deps
  }

  predicate Up(entries: map<string, Entry>, n: string) {
    n in entries && entries[n].initialized
  }

  /** Every initialized battery has all its dependencies initialized. */
  ghost predicate DependenciesUp(entries: map<string, Entry>) {
    forall n, dep :: Up(entries, n) && dep in entries[n].deps ==> Up(entries, dep)
  }

  function UpNames(entries: map<string, Entry>): set<string> {
    set n | n in entries && entries[n].initialized
  }

  /** Each Init call finds its dependencies initialized, and no battery is initialized twice. */
  ghost predicate InitCalls(en: Entries, up: set<string>, inits: seq<string>) {
    && Distinct(inits) && (forall n :: n in inits ==> n !in up)
    && forall i, dep :: 0 <= i < |inits| && DependsOn(en, inits[i], dep) ==> dep in up || dep in inits[..i]
  }

  lemma RegisteredIdle(before: map<string, Entry>, after: map<string, Entry>, name: string)
    requires DependenciesUp(before) && name !in before && after.Keys == before.Keys + {name}
    requires !after[name].initialized && forall n :: n in before ==> after[n] == before[n]
    ensures DependenciesUp(after)
  {
    forall n, dep | Up(after, n) && dep in after[n].deps ensures Up(after, dep) {
      assert Up(before, n) && Up(before, dep);
    }
  }

  lemma CallNext(en: Entries, up: set<string>, order: seq<string>, i: nat, inits: seq<string>)
    requires Valid(en, order) && i < |order| && InitCalls(en, up, inits) && order[i] !in up
    requires Names(inits) == Names(order[..i]) - up
    ensures InitCalls(en, up, inits + [order[i]])
  {
    var next := inits + [order[i]];
    assert forall n :: n in inits ==> n in Names(inits);
    assert order[i] !in Names(order[..i]) && order[i] !in Names(inits);
    forall k, dep | 0 <= k < |next| && DependsOn(en, next[k], dep) ensures dep in up || dep in next[..k] {
      if k < |inits| {
        assert next[..k] == inits[..k] && next[k] == inits[k];
      } else {
        assert dep in order[..i] && next[..k] == inits;
        assert dep in Names(order[..i]);
        assert dep in up || dep in Names(inits);
      }
    }
  }

  /** Initializing a battery whose predecessors in the order are up. */
  lemma Raised(entries: map<string, Entry>, en: Entries, order: seq<string>, i: nat)
    requires DependenciesUp(entries) && en == Declared(entries) && Valid(en, order) && i < |order|
    requires order[i] in entries && Names(order[..i]) <= UpNames(entries)
    ensures var after := entries[order[i] := entries[order[i]].(initialized := true)];
            DependenciesUp(after) && Declared(after) == en && UpNames(after) == UpNames(entries) + {order[i]}
  {
    var after := entries[order[i] := entries[order[i]].(initialized := true)];
    forall n, dep | Up(after, n) && dep in after[n].deps ensures Up(after, dep) {
      if n == order[i] {
        assert DependsOn(en, n, dep);
        assert dep in Names(order[..i]);
      } else {
        assert Up(entries, n) && Up(entries, dep);
      }
    }
  }

  /** After the first i batteries of the order. */
  ghost predicate InitProgress(en: Entries, up: set<string>, order: seq<string>, i: nat, entries: map<string, Entry>, inits: seq<string>, fails: set<string>)
  {
    && i <= |order| && Valid(en, order)
    && Declared(entries) == en && DependenciesUp(entries) && UpNames(entries) == up + Names(order[..i])
    && Names(inits) == Names(order[..i]) - up && Names(inits) !! fails && InitCalls(en, up, inits)
  }

  lemma InitSkipped(en: Entries, up: set<string>, order: seq<string>, i: nat, entries: map<string, Entry>, inits: seq<string>, fails: set<string>)
    requires InitProgress(en, up, order, i, entries, inits, fails) && i < |order| && order[i] in entries && entries[order[i]].initialized
    ensures InitProgress(en, up, order, i + 1, entries, inits, fails)
  {
    assert Names(order[..i + 1]) == Names(order[..i]) + {order[i]};
    assert order[i] !in Names(order[..i]) && order[i] in UpNames(entries);
  }

  lemma InitFailed(en: Entries, up: set<string>, order: seq<string>, i: nat, entries: map<string, Entry>, inits: seq<string>, fails: set<string>)
    requires InitProgress(en, up, order, i, entries, inits, fails) && i < |order|
    requires order[i] in entries && !entries[order[i]].initialized && order[i] in fails
    ensures var next := inits + [order[i]];
            InitCalls(en, up, next) && UpNames(entries) == up + (Names(next) - fails) && forall k :: 0 <= k < |next| - 1 ==> next[k] !in fails
  {
    assert order[i] !in UpNames(entries);
    CallNext(en, up, order, i, inits);
    assert Names(inits + [order[i]]) == Names(inits) + {order[i]};
    assert forall k :: 0 <= k < |inits| ==> inits[k] in Names(inits);
  }

  lemma InitSucceeded(en: Entries, up: set<string>, order: seq<string>, i: nat, entries: map<string, Entry>, inits: seq<string>, fails: set<string>)
    requires InitProgress(en, up, order, i, entries, inits, fails) && i < |order| && order[i] in entries
    requires !entries[order[i]].initialized && order[i] !in fails
    ensures var after := entries[order[i] := entries[order[i]].(initialized := true)];
            InitProgress(en, up, order, i + 1, after, inits + [order[i]], fails)
  {
    assert order[i] !in UpNames(entries);
    CallNext(en, up, order, i, inits);
    Raised(entries, en, order, i);
    hide DependenciesUp, UpNames, Declared, InitCalls, Valid;
    assert Names(order[..i + 1]) == Names(order[..i]) + {order[i]};
    assert Names(inits + [order[i]]) == Names(inits) + {order[i]};
  }

  lemma StartOfInit(entries: map<string, Entry>, order: seq<string>, fails: set<string>)
    requires Valid(Declared(entries), order) && DependenciesUp(entries)
    ensures InitProgress(Declared(entries), UpNames(entries), order, 0, entries, [], fails)
  {
    assert Names(order[..0]) == {} && Names([]) == {};
  }

  lemma NameRegistered(en: Entries, up: set<string>, order: seq<string>, i: nat, entries: map<string, Entry>, inits: seq<string>, fails: set<string>)
    requires InitProgress(en, up, order, i, entries, inits, fails) && i < |order|
    ensures order[i] in entries
  {
    assert order[i] in order;
    assert order[i] in Declared(entries);
  }

  lemma ProgressKeeps(en: Entries, up: set<string>, order: seq<string>, i: nat, entries: map<string, Entry>, inits: seq<string>, fails: set<string>)
    requires InitProgress(en, up, order, i, entries, inits, fails)
    ensures Declared(entries) == en && InOrder(entries, order)
  {
    assert forall n :: n in order ==> n in Declared(entries);
  }

  lemma InitDone(en: Entries, up: set<string>, order: seq<string>, entries: map<string, Entry>, inits: seq<string>, fails: set<string>)
    requires InitProgress(en, up, order, |order|, entries, inits, fails)
    ensures UpNames(entries) == entries.Keys && InitCalls(en, up, inits)
    ensures UpNames(entries) == up + (Names(inits) - fails) && forall k :: 0 <= k < |inits| ==> inits[k] !in fails
  {
    assert order[..|order|] == order;
    assert forall k :: 0 <= k < |inits| ==> inits[k] in Names(inits);
    assert entries.Keys == en.Keys == Names(order);
  }

  /** The last resolved order still respects every dependency, and so does what is initialized. */
  ghost predicate InOrder(entries: map<string, Entry>, sorted: seq<string>) {
    && Distinct(sorted) && (forall n :: n in sorted ==> n in entries)
    && DependenciesFirst(Declared(entries), sorted) && DependenciesUp(entries)
  }

  class BatteryManager {
    var entries: map<string, Entry>
    var sorted: seq<string>

    ghost predicate Consistent()
      reads this
    {
      InOrder(entries, sorted)
    }

    constructor ()
      ensures Consistent() && entries == map[] && sorted == []
    {
      entries, sorted := map[], [];
    }

    /** A second registration of a name is refused. */
    method Register(name: string, deps: seq<string>) returns (ok: bool)
      requires Consistent()
      modifies this
      ensures Consistent() && sorted == old(sorted) && ok == (name !in old(entries))
      ensures entries == if ok then old(entries)[name := Entry(deps, false)] else old(entries)
    {
      ok := name !in entries;
      if ok {
        entries := entries[name := Entry(deps, false)];
        RegisteredIdle(old(entries), entries, name);
      }
    }

    /** A failed resolution leaves the last order in place. */
    method ResolveOrder() returns (out: Outcome)
      requires Consistent()
      modifies this
      ensures Consistent() && entries == old(entries)
      ensures out.UnknownDependency? <==> !AllKnown(Declared(entries))
      ensures out.Circular? <==> AllKnown(Declared(entries)) && Cyclic(Declared(entries))
      ensures !out.Resolved? ==> sorted == old(sorted)
      ensures out.Resolved? ==> sorted == out.order && Valid(Declared(entries), sorted)
                                && forall o :: Valid(Declared(entries), o) ==> AtMost(sorted, o)
    {
      out := Resolve(Declared(entries));
      if out.Resolved? {
        sorted := out.order;
      }
    }

    /**
    Initializes in dependency order and stops at the first failure. `fails` are the batteries whose Init
    fails this time; `inits` lists the Init calls made.
    */
    method InitAll(fails: set<string>) returns (ok: bool, inits: seq<string>)
      requires Consistent()
      modifies this
      ensures Consistent() && Declared(entries) == old(Declared(entries))
      ensures !AllKnown(Declared(entries)) || Cyclic(Declared(entries)) ==> !ok && inits == []
      ensures ok ==> UpNames(entries) == entries.Keys
      ensures !ok && inits != [] ==> inits[|inits| - 1] in fails
      ensures !ok && inits == [] ==> !AllKnown(Declared(entries)) || Cyclic(Declared(entries))
      ensures InitCalls(Declared(entries), old(UpNames(entries)), inits)
      ensures UpNames(entries) == old(UpNames(entries)) + (Names(inits) - fails)
      ensures forall i :: 0 <= i < |inits| - 1 ==> inits[i] !in fails
    {
      inits := [];
      ghost var en, up := Declared(entries), UpNames(entries);
      var out := ResolveOrder();
      if !out.Resolved? {
        return false, inits;
      }
      StartOfInit(entries, sorted, fails);
      assert AllKnown(en) && !Cyclic(en);
      hide *;
      for i := 0 to |sorted|
        invariant sorted == out.order && InitProgress(en, up, sorted, i, entries, inits, fails)
      {
        var name := sorted[i];
        NameRegistered(en, up, sorted, i, entries, inits, fails);
        if entries[name].initialized {
          InitSkipped(en, up, sorted, i, entries, inits, fails);
          continue;
        }
        if name in fails {
          ProgressKeeps(en, up, sorted, i, entries, inits, fails);
          InitFailed(en, up, sorted, i, entries, inits, fails);
          return false, inits + [name];
        }
        InitSucceeded(en, up, sorted, i, entries, inits, fails);
        inits := inits + [name];
        entries := entries[name := entries[name].(initialized := true)];
      }
      InitDone(en, up, sorted, entries, inits, fails);
      ProgressKeeps(en, up, sorted, |sorted|, entries, inits, fails);
      return true, inits;
    }

    /**
    Stops in reverse order, past failures. `stoppable` are the batteries with stop hooks, `fails` those
    whose hook fails; `stops` lists the hook calls made and `errs` the failures joined.
    */
    method StopAll(stoppable: set<string>, fails: set<string>) returns (stops: seq<string>, errs: seq<string>)
      requires Consistent()
      ensures Distinct(stops) && forall n :: n in stops <==> n in sorted && n in stoppable
      ensures forall i, j :: 0 <= i < j < |stops| ==> !DependsOn(Declared(entries), stops[j], stops[i])
      ensures forall n :: n in errs <==> n in stops && n in fails
    {
      stops, errs := [], [];
      for i := |sorted| downto 0
        invariant Distinct(stops) && forall n :: n in stops <==> n in sorted[i..] && n in stoppable
        invariant forall k, j :: 0 <= k < j < |stops| ==> !DependsOn(Declared(entries), stops[j], stops[k])
        invariant forall n :: n in errs <==> n in stops && n in fails
      {
        var name := sorted[i];
        assert sorted[i..] == [name] + sorted[i + 1..];
        if name in stoppable {
          NoDependencyLater(sorted, i);
          stops := stops + [name];
          if name in fails {
            errs := errs + [name];
          }
        }
      }
      assert sorted[0..] == sorted;
    }

    lemma NoDependencyLater(s: seq<string>, i: nat)
      requires Consistent() && s == sorted && i < |s|
      ensures forall dep :: dep in s[i + 1..] ==> dep != s[i] && !DependsOn(Declared(entries), s[i], dep)
    {
      forall dep | dep in s[i + 1..] ensures dep != s[i] && !DependsOn(Declared(entries), s[i], dep) {
        var j :| i < j < |s| && s[j] == dep;
        assert forall k :: 0 <= k < i ==> s[k] != s[j];
      }
    }
  }
}
