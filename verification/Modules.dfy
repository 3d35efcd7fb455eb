/**
ModuleManager: enabled state kept in a cache beside a store. A module with no entry,
in the cache or in the store, is enabled.
*/
module Modules {

  /** The registered modules and the names each depends on. */
  type Manifests = map<string, seq<string>>

  predicate On(state: map<string, bool>, name: string) {
    name in state ==> state[name]
  }

  /** Every registered module has a cache entry, as after loadFromStore. */
  ghost predicate Loaded(mods: Manifests, cache: map<string, bool>) {
    forall n :: n in mods ==> n in cache
  }

  /** The cache says what the store says. */
  ghost predicate Matches(mods: Manifests, cache: map<string, bool>, store: map<string, bool>) {
    forall n :: n in mods ==> On(cache, n) == On(store, n)
  }

  /** Every enabled module has all its dependencies enabled. */
  ghost predicate DependenciesOn(mods: Manifests, cache: map<string, bool>) {
    forall n, d :: n in mods && On(cache, n) && d in mods[n] ==> On(cache, d)
  }

  predicate MayEnable(mods: Manifests, cache: map<string, bool>, name: string) {
    name in mods && forall d :: d in mods[name] ==> d in mods && On(cache, d)
  }

  /** An enabled dependent blocks; one with no cache entry is not counted as enabled here. */
  predicate MayDisable(mods: Manifests, cache: map<string, bool>, name: string) {
    name in mods && forall m :: m in mods && name in mods[m] && m in cache ==> !cache[m]
  }

  predicate MayToggle(mods: Manifests, cache: map<string, bool>, name: string, value: bool) {
    if value then MayEnable(mods, cache, name) else MayDisable(mods, cache, name)
  }

  lemma EnableKeepsDependencies(mods: Manifests, cache: map<string, bool>, name: string)
    requires MayEnable(mods, cache, name) && DependenciesOn(mods, cache)
    ensures DependenciesOn(mods, cache[name := true])
  {
    var after := cache[name := true];
    forall n, d | n in mods && On(after, n) && d in mods[n] ensures On(after, d) {
      assert On(cache, d);
    }
  }

  /** Disabling keeps dependencies enabled exactly when every registered dependent has a cache entry. */
  lemma DisableKeepsDependencies(mods: Manifests, cache: map<string, bool>, name: string)
    requires MayDisable(mods, cache, name) && DependenciesOn(mods, cache)
    ensures DependenciesOn(mods, cache[name := false])
            <==> forall m :: m in mods && m != name && name in mods[m] ==> m in cache
  {
    var after := cache[name := false];
    if forall m :: m in mods && m != name && name in mods[m] ==> m in cache {
      forall n, d | n in mods && On(after, n) && d in mods[n] ensures On(after, d) {
        assert On(cache, n) && On(cache, d);
      }
    } else {
      var m :| m in mods && m != name && name in mods[m] && m !in cache;
      assert On(after, m) && !On(after, name);
    }
  }

  /** A module registered after the load: its dependency can be disabled under it. */
  lemma LateModuleLosesDependency()
    ensures var mods: Manifests := map["base" := [], "late" := ["base"]];
            var cache := map["base" := true];
            DependenciesOn(mods, cache) && MayDisable(mods, cache, "base") && !DependenciesOn(mods, cache["base" := false])
  {
    var mods: Manifests := map["base" := [], "late" := ["base"]];
    var cache := map["base" := true];
    assert "base" in mods["late"] && On(cache["base" := false], "late") && !On(cache["base" := false], "base");
  }

  // ---- One replica ---------------------------------------------------------

  datatype Command = Toggle(name: string, value: bool, storeFails: bool)

  /** The new cache and store after one Enable or Disable. */
  function Toggled(mods: Manifests, cache: map<string, bool>, store: map<string, bool>, c: Command): (map<string, bool>, map<string, bool>) {
    if MayToggle(mods, cache, c.name, c.value) && !c.storeFails then (cache[c.name := c.value], store[c.name := c.value]) else (cache, store)
  }

  function Run(mods: Manifests, cache: map<string, bool>, store: map<string, bool>, cs: seq<Command>): (map<string, bool>, map<string, bool>)
    decreases |cs|
  {
    if cs == [] then (cache, store) else
      var next := Toggled(mods, cache, store, cs[0]);
      Run(mods, next.0, next.1, cs[1..])
  }

  /** Any sequence of toggles on one replica, refused and failed ones included. */
  lemma {:induction false} RunKeepsDependencies(mods: Manifests, cache: map<string, bool>, store: map<string, bool>, cs: seq<Command>)
    requires Loaded(mods, cache) && Matches(mods, cache, store) && DependenciesOn(mods, cache)
    ensures var end := Run(mods, cache, store, cs);
            Loaded(mods, end.0) && Matches(mods, end.0, end.1) && DependenciesOn(mods, end.0)
    decreases |cs|
  {
    if cs != [] {
      var next := Toggled(mods, cache, store, cs[0]);
      if MayToggle(mods, cache, cs[0].name, cs[0].value) {
        if cs[0].value {
          EnableKeepsDependencies(mods, cache, cs[0].name);
        } else {
          DisableKeepsDependencies(mods, cache, cs[0].name);
        }
      }
      RunKeepsDependencies(mods, next.0, next.1, cs[1..]);
    }
  }

  class ModuleManager {
    var modules: Manifests
    var order: seq<string>
    var enabled: map<string, bool>
    /** The persisted rows behind `store`. */
    var rows: map<string, bool>

    ghost predicate Valid()
      reads this
    {
      forall n :: n in order <==> n in modules
    }

    constructor (persisted: map<string, bool>)
      ensures Valid() && modules == map[] && enabled == map[] && rows == persisted
    {
      modules, order, enabled, rows := map[], [], map[], persisted;
    }

    method Register(name: string, dependsOn: seq<string>)
      requires Valid()
      modifies this`modules, this`order
      ensures Valid() && modules == old(modules)[name := dependsOn]
    {
      modules := modules[name := dependsOn];
      order := order + [name];
    }

    /** Registered modules only: rows of unknown modules never reach the cache. */
    method LoadFromStore(storeFails: bool) returns (ok: bool)
      requires Valid()
      modifies this`enabled
      ensures ok == !storeFails && (!ok ==> enabled == old(enabled))
      ensures ok ==> Loaded(modules, enabled) && Matches(modules, enabled, rows)
      ensures forall n :: n !in modules ==> (n in enabled <==> n in old(enabled)) && (n in enabled ==> enabled[n] == old(enabled)[n])
    {
      if storeFails {
        return false;
      }
      var left := modules.Keys;
      while left != {}
        invariant left <= modules.Keys
        invariant forall n :: n in modules && n !in left ==> n in enabled && enabled[n] == On(rows, n)
        invariant forall n :: n !in modules ==> (n in enabled <==> n in old(enabled)) && (n in enabled ==> enabled[n] == old(enabled)[n])
        decreases |left|
      {
        var name :| name in left;
        left := left - {name};
        if name in rows {
          enabled := enabled[name := rows[name]];
        } else {
          enabled := enabled[name := true];
        }
      }
      return true;
    }

    predicate Enabled(name: string)
      reads this
    {
      On(enabled, name)
    }

    method Dependents(name: string) returns (deps: seq<string>)
      requires Valid()
      ensures forall m :: m in deps <==> m in modules && name in modules[m] && m in enabled && enabled[m]
      ensures name in modules ==> (deps == [] <==> MayDisable(modules, enabled, name))
    {
      deps := [];
      for k := 0 to |order|
        invariant forall m :: m in deps <==> m in order[..k] && m in modules && name in modules[m] && m in enabled && enabled[m]
      {
        var m := order[k];
        assert order[..k + 1] == order[..k] + [m];
        if m in modules && name in modules[m] && m in enabled && enabled[m] {
          deps := deps + [m];
        }
      }
      assert order[..|order|] == order;
      if deps != [] { assert deps[0] in deps; }
    }

    method Enable(name: string, storeFails: bool) returns (ok: bool)
      requires Valid()
      modifies this`enabled, this`rows
      ensures ok == (MayEnable(modules, old(enabled), name) && !storeFails)
      ensures (enabled, rows) == Toggled(modules, old(enabled), old(rows), Toggle(name, true, storeFails))
    {
      if name !in modules {
        return false;
      }
      var dependsOn := modules[name];
      for k := 0 to |dependsOn|
        invariant forall j :: 0 <= j < k ==> dependsOn[j] in modules && On(enabled, dependsOn[j])
      {
        if dependsOn[k] !in modules || !Enabled(dependsOn[k]) {
          assert dependsOn[k] in modules[name];
          return false;
        }
      }
      ok := SetEnabled(name, true, storeFails);
    }

    method Disable(name: string, storeFails: bool) returns (ok: bool)
      requires Valid()
      modifies this`enabled, this`rows
      ensures ok == (MayDisable(modules, old(enabled), name) && !storeFails)
      ensures (enabled, rows) == Toggled(modules, old(enabled), old(rows), Toggle(name, false, storeFails))
    {
      if name !in modules {
        return false;
      }
      var deps := Dependents(name);
      if |deps| > 0 {
        return false;
      }
      ok := SetEnabled(name, false, storeFails);
    }

    /** The store first; the cache only once the store has it. */
    method SetEnabled(name: string, value: bool, storeFails: bool) returns (ok: bool)
      modifies this`enabled, this`rows
      ensures ok == !storeFails
      ensures rows == if ok then old(rows)[name := value] else old(rows)
      ensures enabled == if ok then old(enabled)[name := value] else old(enabled)
    {
      if storeFails {
        return false;
      }
      rows := rows[name := value];
      enabled := enabled[name := value];
      return true;
    }
  }

  // ---- Many replicas -------------------------------------------------------

  type Node = nat

  /**
  A refresh whose handler has read the store and not yet set the cache. `row` is
  what it read; `since` is the replica's own last switch of the module after that.
  */
  datatype Refresh = Refresh(name: string, row: Row, since: Own)
  datatype Row = NoRow | HasRow(value: bool)
  datatype Own = Untouched | Switched(value: bool)
  {
    /** The replica switched the module to something other than what had been read. */
    predicate Contradicts(row: Row) {
      Switched? && row.HasRow? && row.value != value
    }
  }

  /**
  The shared store; each booted replica's cache, the refreshes addressed to it and
  not yet handled, and the one its subscriber goroutine is handling. The last two
  keep count of what has happened: `missed` has the modules whose last message to
  a replica was lost or could not be read, `raced` those a replica last set from a
  read that came before its own switch to another value.
  */
  datatype World = World(
    store: map<string, bool>,
    cache: map<Node, map<string, bool>>,
    inbox: map<Node, set<string>>,
    handling: map<Node, Refresh>,
    missed: set<(Node, string)>,
    raced: set<(Node, string)>)

  datatype Event =
    /** A replica starts, or starts again, and loads the store. */
    | Boot(r: Node)
    /** Enable or Disable on one replica: store write, cache flip, publish. */
    | Switch(r: Node, name: string, value: bool, storeFails: bool, published: bool)
    /** The handler takes a refresh, out of order or leaving a duplicate behind, and reads the store. */
    | Take(r: Node, name: string, again: bool)
    /** A refresh nobody published: replayed or crafted, whatever value it claims. */
    | Forge(r: Node, name: string, claimed: bool)
    /** The handler sets the cache to what it read. */
    | Settle(r: Node)
    /** The bus drops a queued refresh. */
    | Drop(r: Node, name: string)
    /** The handler takes a refresh and its store read fails. */
    | ReadFails(r: Node, name: string)

  predicate Enabled(w: World, e: Event) {
    match e
    case Boot(_) => true
    case Switch(r, _, _, _, _) => r in w.cache
    case Take(r, name, _) => r in w.cache && r in w.inbox && name in w.inbox[r] && r !in w.handling
    case Forge(r, _, _) => r in w.cache && r !in w.handling
    case Settle(r) => r in w.cache && r in w.handling
    case Drop(r, name) => r in w.inbox && name in w.inbox[r]
    case ReadFails(r, name) => r in w.inbox && name in w.inbox[r] && r !in w.handling
  }

  function ReadRow(store: map<string, bool>, name: string): Row {
    if name in store then HasRow(store[name]) else NoRow
  }

  function LoadedCache(mods: Manifests, store: map<string, bool>): map<string, bool> {
    map n | n in mods :: On(store, n)
  }

  /** A row sets the cache; no row keeps it. */
  function Refreshed(cache: map<string, bool>, f: Refresh): map<string, bool> {
    if f.row.HasRow? then cache[f.name := f.row.value] else cache
  }

  function Addressed(w: World, r: Node, name: string): bool {
    r in w.inbox && name in w.inbox[r]
  }

  function Without<K, V>(m: map<K, V>, k: K): map<K, V> {
    map x | x in m && x != k :: m[x]
  }

  /** The handler at `r` reads the store for a module it knows. */
  function Reads(mods: Manifests, w: World, r: Node, name: string): World {
    if name !in mods then w
    else w.(handling := w.handling[r := Refresh(name, ReadRow(w.store, name), Untouched)], missed := w.missed - {(r, name)})
  }

  function Apply(mods: Manifests, w: World, e: Event): World
    requires Enabled(w, e)
  {
    match e
    case Boot(r) =>
      w.(cache := w.cache[r := LoadedCache(mods, w.store)], inbox := w.inbox[r := {}], handling := Without(w.handling, r),
         missed := (set x | x in w.missed && x.0 != r), raced := (set x | x in w.raced && x.0 != r))
    case Switch(r, name, value, storeFails, published) =>
      if !MayToggle(mods, w.cache[r], name, value) || storeFails then w
      else
        var others := set o | o in w.cache && o != r;
        w.(store := w.store[name := value], cache := w.cache[r := w.cache[r][name := value]],
           inbox := if published then map o | o in w.inbox :: if o in others then w.inbox[o] + {name} else w.inbox[o] else w.inbox,
           handling := if r in w.handling && w.handling[r].name == name then w.handling[r := w.handling[r].(since := Switched(value))] else w.handling,
           missed := (w.missed - {(r, name)}) + if published then {} else set o | o in others :: (o, name),
           raced := w.raced - {(r, name)})
    case Take(r, name, again) =>
      Reads(mods, w.(inbox := w.inbox[r := if again then w.inbox[r] else w.inbox[r] - {name}]), r, name)
    case Forge(r, name, _) =>
      Reads(mods, w, r, name)
    case Settle(r) =>
      var f := w.handling[r];
      w.(cache := w.cache[r := Refreshed(w.cache[r], f)], handling := Without(w.handling, r),
         raced := if f.since.Contradicts(f.row) then w.raced + {(r, f.name)} else w.raced - {(r, f.name)})
    case Drop(r, name) =>
      w.(inbox := w.inbox[r := w.inbox[r] - {name}], missed := w.missed + {(r, name)})
    case ReadFails(r, name) =>
      w.(inbox := w.inbox[r := w.inbox[r] - {name}], missed := w.missed + {(r, name)})
  }

  /** The replica's cache agrees with the store on this module. */
  predicate Agrees(w: World, r: Node, name: string)
    requires r in w.cache
  {
    On(w.cache[r], name) == On(w.store, name)
  }

  predicate Handling(w: World, r: Node, name: string) {
    r in w.handling && w.handling[r].name == name
  }

  /** What the handler read is what the store says; or the replica has switched since, and store and cache both have that. */
  predicate Current(w: World, r: Node)
    requires r in w.cache && r in w.handling
  {
    var f := w.handling[r];
    match f.since
    case Untouched => f.row == ReadRow(w.store, f.name)
    case Switched(v) => ReadRow(w.store, f.name) == HasRow(v) == ReadRow(w.cache[r], f.name)
  }

  /**
  The replica is about to be told, or was not told; or a read under way is
  current; or else its entry is wrong exactly if it was set from a read its own
  switch had overtaken.
  */
  predicate Covered(w: World, r: Node, name: string)
    requires r in w.cache
  {
    || Addressed(w, r, name) || (r, name) in w.missed
    || if Handling(w, r, name) then Current(w, r) else (Agrees(w, r, name) <==> (r, name) !in w.raced)
  }

  ghost predicate Wired(w: World) {
    w.inbox.Keys == w.cache.Keys && w.handling.Keys <= w.cache.Keys
  }

  /** Only the store turns a module off: a disabled cache entry has its row. */
  ghost predicate OffIsStored(w: World) {
    forall r, n :: r in w.cache && !On(w.cache[r], n) ==> n in w.store
  }

  ghost predicate ReadIsStored(w: World) {
    forall r :: r in w.handling && w.handling[r].row.HasRow? ==> w.handling[r].name in w.store
  }

  ghost predicate Backed(w: World) {
    Wired(w) && OffIsStored(w) && ReadIsStored(w)
  }

  ghost predicate Inv(mods: Manifests, w: World) {
    Backed(w) && forall r, n :: r in w.cache && n in mods ==> Covered(w, r, n)
  }

  lemma StepKeepsBacked(mods: Manifests, w: World, e: Event)
    requires Backed(w) && Enabled(w, e)
    ensures Backed(Apply(mods, w, e))
  {
    StepKeepsWired(mods, w, e);
    StepKeepsStored(mods, w, e);
  }

  lemma StepKeepsWired(mods: Manifests, w: World, e: Event)
    requires Wired(w) && Enabled(w, e)
    ensures Wired(Apply(mods, w, e))
  {
    hide MayToggle, On, LoadedCache, Refreshed, Addressed, ReadRow;
  }

  lemma StepKeepsStored(mods: Manifests, w: World, e: Event)
    requires Backed(w) && Enabled(w, e)
    ensures OffIsStored(Apply(mods, w, e)) && ReadIsStored(Apply(mods, w, e))
  {
    hide MayToggle, Addressed, Wired;
    var after := Apply(mods, w, e);
    forall r, n | r in after.cache && !On(after.cache[r], n) ensures n in after.store {
      assert r in w.cache && !On(w.cache[r], n) ==> n in w.store;
    }
  }

  lemma StepKeepsCover(mods: Manifests, w: World, e: Event, r: Node, n: string)
    requires Inv(mods, w) && Enabled(w, e) && n in mods && r in Apply(mods, w, e).cache
    ensures Covered(Apply(mods, w, e), r, n)
  {
    hide *;
    if e.r == r {
      StepKeepsOwnCover(mods, w, e, n);
    } else {
      StepKeepsOtherCover(mods, w, e, r, n);
    }
  }

  /** What other replicas do reaches this one only as a switch, which tells it or is missed. */
  lemma StepKeepsOtherCover(mods: Manifests, w: World, e: Event, r: Node, n: string)
    requires Inv(mods, w) && Enabled(w, e) && n in mods && r in Apply(mods, w, e).cache && e.r != r
    ensures Covered(Apply(mods, w, e), r, n)
  {
    assert r in w.cache && Covered(w, r, n);
    hide MayToggle, OffIsStored, ReadIsStored, Refreshed, LoadedCache, On;
    if e.Switch? {
      SwitchKeepsOtherCover(mods, w, e, r, n);
    }
  }

  lemma SwitchKeepsOtherCover(mods: Manifests, w: World, e: Event, r: Node, n: string)
    requires Wired(w) && Enabled(w, e) && e.Switch? && e.r != r && r in w.cache && Covered(w, r, n)
    ensures Covered(Apply(mods, w, e), r, n)
  {
    hide MayToggle, Refreshed, LoadedCache;
    if n != e.name {
      hide Wired;
      assert Agrees(Apply(mods, w, e), r, n) == Agrees(w, r, n);
    }
  }

  lemma StepKeepsOwnCover(mods: Manifests, w: World, e: Event, n: string)
    requires Inv(mods, w) && Enabled(w, e) && n in mods && e.r in Apply(mods, w, e).cache
    ensures Covered(Apply(mods, w, e), e.r, n)
  {
    hide *;
    if e.Switch? {
      SwitchKeepsOwnCover(mods, w, e, n);
    } else if e.Settle? {
      SettleKeepsOwnCover(mods, w, e, n);
    } else {
      RestKeepsOwnCover(mods, w, e, n);
    }
  }

  lemma SwitchKeepsOwnCover(mods: Manifests, w: World, e: Event, n: string)
    requires Inv(mods, w) && Enabled(w, e) && n in mods && e.Switch?
    ensures e.r in Apply(mods, w, e).cache && Covered(Apply(mods, w, e), e.r, n)
  {
    assert Covered(w, e.r, n);
    hide MayToggle, OffIsStored, ReadIsStored, LoadedCache, Refreshed;
  }

  lemma SettleKeepsOwnCover(mods: Manifests, w: World, e: Event, n: string)
    requires Inv(mods, w) && Enabled(w, e) && n in mods && e.Settle?
    ensures e.r in Apply(mods, w, e).cache && Covered(Apply(mods, w, e), e.r, n)
  {
    assert Covered(w, e.r, n);
    hide MayToggle, Wired, LoadedCache;
  }

  lemma RestKeepsOwnCover(mods: Manifests, w: World, e: Event, n: string)
    requires Inv(mods, w) && Enabled(w, e) && n in mods && !e.Switch? && !e.Settle? && e.r in Apply(mods, w, e).cache
    ensures Covered(Apply(mods, w, e), e.r, n)
  {
    assert e.r in w.cache ==> Covered(w, e.r, n);
    hide MayToggle, Wired, OffIsStored, ReadIsStored;
  }

  lemma StepInv(mods: Manifests, w: World, e: Event)
    requires Inv(mods, w) && Enabled(w, e)
    ensures Inv(mods, Apply(mods, w, e))
  {
    StepKeepsBacked(mods, w, e);
    forall r, n | r in Apply(mods, w, e).cache && n in mods ensures Covered(Apply(mods, w, e), r, n) {
      StepKeepsCover(mods, w, e, r, n);
    }
  }

  ghost predicate Runs(mods: Manifests, w: World, es: seq<Event>, end: World)
    decreases |es|
  {
    if es == [] then w == end else Enabled(w, es[0]) && Runs(mods, Apply(mods, w, es[0]), es[1..], end)
  }

  /** Before the first replica boots, over whatever rows the store already has. */
  function Initial(store: map<string, bool>): World {
    World(store, map[], map[], map[], {}, {})
  }

  lemma {:induction false} RunInv(mods: Manifests, w: World, es: seq<Event>, end: World)
    requires Inv(mods, w) && Runs(mods, w, es, end)
    ensures Inv(mods, end)
    decreases |es|
  {
    if es != [] {
      StepInv(mods, w, es[0]);
      RunInv(mods, Apply(mods, w, es[0]), es[1..], end);
    }
  }

  /** Every refresh delivered and handled. */
  ghost predicate Quiet(w: World) {
    w.handling == map[] && forall r :: r in w.inbox ==> w.inbox[r] == {}
  }

  /**
  Once every message is handled, each cache agrees with the store on what it did
  not miss, except where it was last set from a read its own switch had overtaken;
  whatever the order, the duplicates and the forgeries were.
  */
  lemma QuietAgrees(mods: Manifests, store: map<string, bool>, es: seq<Event>, end: World)
    requires Runs(mods, Initial(store), es, end) && Quiet(end)
    ensures forall r, n :: r in end.cache && n in mods && (r, n) !in end.missed ==> (Agrees(end, r, n) <==> (r, n) !in end.raced)
  {
    RunInv(mods, Initial(store), es, end);
    forall r, n | r in end.cache && n in mods && (r, n) !in end.missed ensures Agrees(end, r, n) <==> (r, n) !in end.raced {
      assert Covered(end, r, n);
    }
  }

  // ---- When no message is lost ---------------------------------------------

  /** The bus delivers and handlers can read. */
  predicate Lossless(e: Event) {
    match e
    case Switch(_, _, _, _, published) => published
    case Drop(_, _) => false
    case ReadFails(_, _) => false
    case _ => true
  }

  ghost predicate AllLossless(es: seq<Event>) {
    forall e :: e in es ==> Lossless(e)
  }

  lemma {:induction false} LosslessMissesNothing(mods: Manifests, w: World, es: seq<Event>, end: World)
    requires Runs(mods, w, es, end) && AllLossless(es) && w.missed == {}
    ensures end.missed == {}
    decreases |es|
  {
    if es != [] {
      assert es[0] in es;
      assert Apply(mods, w, es[0]).missed == {};
      LosslessMissesNothing(mods, Apply(mods, w, es[0]), es[1..], end);
    }
  }

  /**
  Then the replicas converge exactly where none of them raced itself: all caches
  agree with the store, once every message is handled, if and only if no replica
  last set an entry from a read that came before its own switch to another value.
  */
  lemma ReplicasConverge(mods: Manifests, store: map<string, bool>, es: seq<Event>, end: World)
    requires Runs(mods, Initial(store), es, end) && AllLossless(es) && Quiet(end)
    ensures (forall r :: r in end.cache ==> Matches(mods, end.cache[r], end.store)) <==>
            (forall r, n :: r in end.cache && n in mods ==> (r, n) !in end.raced)
  {
    LosslessMissesNothing(mods, Initial(store), es, end);
    QuietAgrees(mods, store, es, end);
    assert forall r :: r in end.cache ==> (Matches(mods, end.cache[r], end.store) <==> forall n :: n in mods ==> Agrees(end, r, n));
  }

  /** No replica switches a module its own handler is refreshing. */
  predicate Gentle(w: World, e: Event) {
    e.Switch? ==> !Handling(w, e.r, e.name)
  }

  ghost predicate GentleRun(mods: Manifests, w: World, es: seq<Event>)
    decreases |es|
  {
    es == [] || (Enabled(w, es[0]) && Gentle(w, es[0]) && GentleRun(mods, Apply(mods, w, es[0]), es[1..]))
  }

  /** A run of this kind has no such race. */
  lemma {:induction false} GentleRunNeverRaces(mods: Manifests, w: World, es: seq<Event>, end: World)
    requires Runs(mods, w, es, end) && GentleRun(mods, w, es)
    requires w.raced == {} && forall r :: r in w.handling ==> w.handling[r].since == Untouched
    ensures end.raced == {}
    decreases |es|
  {
    if es != [] {
      var next := Apply(mods, w, es[0]);
      assert next.raced == {} && forall r :: r in next.handling ==> next.handling[r].since == Untouched;
      GentleRunNeverRaces(mods, next, es[1..], end);
    }
  }

  // ---- A race --------------------------------------------------------------

  const ONE: Manifests := map["m" := []]

  /** The events of a lossless run of two replicas in which replica 0 switches "m" off while its handler is refreshing it. */
  function Race(): seq<Event> {
    [Boot(0), Boot(1), Switch(1, "m", true, false, true), Take(0, "m", false), Switch(0, "m", false, false, true),
     Settle(0), Take(1, "m", false), Settle(1)]
  }

  function Caches(on0: bool, on1: bool): map<Node, map<string, bool>> {
    map[0 := map["m" := on0], 1 := map["m" := on1]]
  }

  function Inboxes(at0: bool, at1: bool): map<Node, set<string>> {
    map[0 := if at0 then {"m"} else {}, 1 := if at1 then {"m"} else {}]
  }

  ghost predicate Leads(w: World, e: Event, next: World) {
    Enabled(w, e) && Apply(ONE, w, e) == next
  }

  lemma RunsStep(w: World, e: Event, next: World, es: seq<Event>, end: World)
    requires Leads(w, e, next) && Runs(ONE, next, es, end)
    ensures Runs(ONE, w, [e] + es, end)
  {
    assert ([e] + es)[1..] == es;
  }

  /** The run's worlds: nothing is missed, and only replica 0's entry for "m" can be raced. */
  function At(store: map<string, bool>, on0: bool, on1: bool, told0: bool, told1: bool, handling: map<Node, Refresh>, raced: bool): World {
    World(store, Caches(on0, on1), Inboxes(told0, told1), handling, {}, if raced then {(0, "m")} else {})
  }

  lemma CachesAre(m: map<Node, map<string, bool>>, on0: bool, on1: bool)
    requires m.Keys == {0, 1} && m[0].Keys == {"m"} && m[1].Keys == {"m"} && m[0]["m"] == on0 && m[1]["m"] == on1
    ensures m == Caches(on0, on1)
  {
    assert m[0] == map["m" := on0] && m[1] == map["m" := on1];
  }

  lemma InboxesAre(m: map<Node, set<string>>, at0: bool, at1: bool)
    requires m.Keys == {0, 1} && m[0] == (if at0 then {"m"} else {}) && m[1] == (if at1 then {"m"} else {})
    ensures m == Inboxes(at0, at1)
  {
  }

  lemma SameWorld(a: World, b: World)
    requires a.store == b.store && a.cache == b.cache && a.inbox == b.inbox && a.handling == b.handling && a.missed == b.missed && a.raced == b.raced
    ensures a == b
  {
  }

  lemma BothBoot()
    ensures var w1 := World(map[], map[0 := map["m" := true]], map[0 := {}], map[], {}, {});
            Leads(Initial(map[]), Boot(0), w1) && Leads(w1, Boot(1), At(map[], true, true, false, false, map[], false))
  {
    var w0 := Initial(map[]);
    var w1 := World(map[], map[0 := map["m" := true]], map[0 := {}], map[], {}, {});
    assert LoadedCache(ONE, map[]) == map["m" := true];
    assert Without<Node, Refresh>(map[], 0) == map[] && Without<Node, Refresh>(map[], 1) == map[];
    SameWorld(Apply(ONE, w0, Boot(0)), w1);
    CachesAre(Apply(ONE, w1, Boot(1)).cache, true, true);
    SameWorld(Apply(ONE, w1, Boot(1)), At(map[], true, true, false, false, map[], false));
  }

  /** Replica 1 switches "m" on, which tells replica 0. */
  lemma OtherSwitches()
    ensures Leads(At(map[], true, true, false, false, map[], false), Switch(1, "m", true, false, true),
                  At(map["m" := true], true, true, true, false, map[], false))
  {
    var w := At(map[], true, true, false, false, map[], false);
    var next := Apply(ONE, w, Switch(1, "m", true, false, true));
    assert MayToggle(ONE, w.cache[1], "m", true);
    InboxesAre(next.inbox, true, false);
    CachesAre(next.cache, true, true);
    SameWorld(next, At(map["m" := true], true, true, true, false, map[], false));
  }

  /** Replica 0 reads that "m" is on. */
  lemma ZeroReads()
    ensures Leads(At(map["m" := true], true, true, true, false, map[], false), Take(0, "m", false),
                  At(map["m" := true], true, true, false, false, map[0 := Refresh("m", HasRow(true), Untouched)], false))
  {
    var w := At(map["m" := true], true, true, true, false, map[], false);
    var next := Apply(ONE, w, Take(0, "m", false));
    InboxesAre(next.inbox, false, false);
    SameWorld(next, At(map["m" := true], true, true, false, false, map[0 := Refresh("m", HasRow(true), Untouched)], false));
  }

  /** It switches "m" off, which tells replica 1. */
  lemma ZeroSwitches()
    ensures Leads(At(map["m" := true], true, true, false, false, map[0 := Refresh("m", HasRow(true), Untouched)], false), Switch(0, "m", false, false, true),
                  At(map["m" := false], false, true, false, true, map[0 := Refresh("m", HasRow(true), Switched(false))], false))
  {
    var w := At(map["m" := true], true, true, false, false, map[0 := Refresh("m", HasRow(true), Untouched)], false);
    var next := Apply(ONE, w, Switch(0, "m", false, false, true));
    assert MayToggle(ONE, w.cache[0], "m", false);
    InboxesAre(next.inbox, false, true);
    CachesAre(next.cache, false, true);
    assert next.handling == map[0 := Refresh("m", HasRow(true), Switched(false))];
    SameWorld(next, At(map["m" := false], false, true, false, true, map[0 := Refresh("m", HasRow(true), Switched(false))], false));
  }

  /** And then it sets its cache to what it had read. */
  lemma ZeroSettles()
    ensures Leads(At(map["m" := false], false, true, false, true, map[0 := Refresh("m", HasRow(true), Switched(false))], false), Settle(0),
                  At(map["m" := false], true, true, false, true, map[], true))
  {
    var w := At(map["m" := false], false, true, false, true, map[0 := Refresh("m", HasRow(true), Switched(false))], false);
    var next := Apply(ONE, w, Settle(0));
    CachesAre(next.cache, true, true);
    assert next.handling == map[];
    SameWorld(next, At(map["m" := false], true, true, false, true, map[], true));
  }

  /** Replica 1 hears of the switch. */
  lemma OneHears()
    ensures var f := map[1 := Refresh("m", HasRow(false), Untouched)];
            && Leads(At(map["m" := false], true, true, false, true, map[], true), Take(1, "m", false), At(map["m" := false], true, true, false, false, f, true))
            && Leads(At(map["m" := false], true, true, false, false, f, true), Settle(1), At(map["m" := false], true, false, false, false, map[], true))
  {
    var f := map[1 := Refresh("m", HasRow(false), Untouched)];
    var w := At(map["m" := false], true, true, false, true, map[], true);
    var next := Apply(ONE, w, Take(1, "m", false));
    InboxesAre(next.inbox, false, false);
    SameWorld(next, At(map["m" := false], true, true, false, false, f, true));
    var last := Apply(ONE, next, Settle(1));
    CachesAre(last.cache, true, false);
    assert last.handling == map[];
    SameWorld(last, At(map["m" := false], true, false, false, false, map[], true));
  }

  lemma RaceRuns()
    ensures Runs(ONE, Initial(map[]), Race(), At(map["m" := false], true, false, false, false, map[], true))
  {
    hide *;
    BothBoot();
    OtherSwitches();
    ZeroReads();
    ZeroSwitches();
    ZeroSettles();
    OneHears();
    var end := At(map["m" := false], true, false, false, false, map[], true);
    var read, over, heard := map[0 := Refresh("m", HasRow(true), Untouched)], map[0 := Refresh("m", HasRow(true), Switched(false))], map[1 := Refresh("m", HasRow(false), Untouched)];
    var w1 := World(map[], map[0 := map["m" := true]], map[0 := {}], map[], {}, {});
    var w2, w3 := At(map[], true, true, false, false, map[], false), At(map["m" := true], true, true, true, false, map[], false);
    var w4, w5 := At(map["m" := true], true, true, false, false, read, false), At(map["m" := false], false, true, false, true, over, false);
    var w6, w7 := At(map["m" := false], true, true, false, true, map[], true), At(map["m" := false], true, true, false, false, heard, true);
    EndsHere(end);
    RunsStep(w7, Settle(1), end, [], end);
    RunsStep(w6, Take(1, "m", false), w7, [Settle(1)] + [], end);
    var es5 := [Take(1, "m", false)] + ([Settle(1)] + []);
    RunsStep(w5, Settle(0), w6, es5, end);
    RunsStep(w4, Switch(0, "m", false, false, true), w5, [Settle(0)] + es5, end);
    var es3 := [Switch(0, "m", false, false, true)] + ([Settle(0)] + es5);
    RunsStep(w3, Take(0, "m", false), w4, es3, end);
    RunsStep(w2, Switch(1, "m", true, false, true), w3, [Take(0, "m", false)] + es3, end);
    var es1 := [Switch(1, "m", true, false, true)] + ([Take(0, "m", false)] + es3);
    RunsStep(w1, Boot(1), w2, es1, end);
    RunsStep(Initial(map[]), Boot(0), w1, [Boot(1)] + es1, end);
    RaceIs([Boot(0)] + ([Boot(1)] + es1));
  }

  lemma EndsHere(w: World)
    ensures Runs(ONE, w, [], w)
  {
  }

  lemma RaceIs(es: seq<Event>)
    requires es == [Boot(0)] + ([Boot(1)] + ([Switch(1, "m", true, false, true)] + ([Take(0, "m", false)] + ([Switch(0, "m", false, false, true)] +
                   ([Settle(0)] + ([Take(1, "m", false)] + ([Settle(1)] + [])))))))
    ensures es == Race()
  {
  }

  /**
  The remote handler does not take the toggle lock. A local Disable between the
  handler's read and its write is undone in the cache: in this run no message is
  lost and none is left, yet replica 0 answers that "m" is on while the store, and
  replica 1, have it off.
  */
  lemma LocalToggleUndone()
    ensures AllLossless(Race())
    ensures exists end :: Runs(ONE, Initial(map[]), Race(), end) && Quiet(end) && end.cache.Keys == {0, 1}
              && On(end.cache[0], "m") && !On(end.cache[1], "m") && !On(end.store, "m")
  {
    RaceRuns();
    RaceIsLossless();
    hide Runs, Race, AllLossless;
    var end := At(map["m" := false], true, false, false, false, map[], true);
    assert Quiet(end) && end.cache.Keys == {0, 1} && On(end.cache[0], "m") && !On(end.cache[1], "m") && !On(end.store, "m");
  }

  lemma RaceIsLossless()
    ensures AllLossless(Race())
  {
    hide Runs, Apply;
  }
}
