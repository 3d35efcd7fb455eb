/**
`stage`: the user's rows, the delete erasers' matches, then every row whose
foreign key names a staged row, until a pass adds nothing.
*/
module EraseStage {
  import opened Relational
  import opened TableOrder
  import opened EraseModel

  /** owned, seeded and cascaded partition the staged rows of one table. */
  datatype Counts = Counts(owned: nat, seeded: nat, cascaded: nat) {
    function Total(): nat { owned + seeded + cascaded }
  }

  /** The rows each INSERT ... SELECT of the phase picks. */
  function OwnedIds(g: Graph, db: Database, user: nat, t: string): set<nat> {
    set id | id in Rows(db, t) && OwnedRow(g, user, t, Rows(db, t)[id])
  }

  function SeedIds(g: Graph, db: Database, st: Staging, t: string, er: Eraser): set<nat> {
    set id | id in Rows(db, t) && er.Matches(Rows(db, t)[id]) && HasKey(g, t, Rows(db, t)[id])
      && !Held(st, t, Cells(Rows(db, t)[id], g.Key(t)))
  }

  function CascadeIds(g: Graph, db: Database, st: Staging, e: Edge): set<nat> {
    set id | id in Rows(db, e.child) && HasKey(g, e.child, Rows(db, e.child)[id])
      && Held(st, e.parent, Cells(Rows(db, e.child)[id], e.cols))
      && !Held(st, e.child, Cells(Rows(db, e.child)[id], g.Key(e.child)))
  }

  /** The statement's effect on the staging table. */
  function Insert(g: Graph, db: Database, st: Staging, t: string, ids: set<nat>): Staging
    requires t in st && ids <= Rows(db, t).Keys
  {
    st[t := st[t] + map id | id in ids :: Cells(Rows(db, t)[id], g.Key(t))]
  }

  /** The temp tables and the per-table counters, as the statements leave them. */
  datatype Area = Area(st: Staging, counts: map<string, Counts>) {
    /** A counter starts at zero. */
    function Count(t: string): Counts {
      if t in counts then counts[t] else Counts(0, 0, 0)
    }
  }

  /** Nothing was staged that some closed set leaves out. */
  ghost predicate Minimal(g: Graph, p: Plan, db: Database, user: nat, st: Staging) {
    forall rows :: ClosedSet(g, p, db, user, rows) ==> StagedSet(st) <= rows
  }

  ghost predicate Counted(p: Plan, a: Area) {
    && (forall t :: t in p.tables ==> t in a.counts)
    && (forall t :: t in a.st ==> t in a.counts && |a.st[t]| == a.counts[t].Total())
  }

  ghost predicate Filling(g: Graph, p: Plan, db: Database, user: nat, a: Area) {
    && g.WellFormed() && PlanFits(g, p) && UniqueKeys(g, db)
    && Copies(g, p, db, a.st) && Minimal(g, p, db, user, a.st) && Counted(p, a)
  }

  lemma InStagedSet(st: Staging, r: (string, nat))
    ensures r in StagedSet(st) <==> r.0 in st && r.1 in st[r.0]
  {
    assert r == (r.0, r.1);
  }

  lemma InsertStages(g: Graph, db: Database, st: Staging, t: string, ids: set<nat>)
    requires t in st && ids <= Rows(db, t).Keys
    ensures StagedSet(Insert(g, db, st, t, ids)) == StagedSet(st) + set id | id in ids :: (t, id)
  {
    var st', more := Insert(g, db, st, t, ids), set id | id in ids :: (t, id);
    forall r ensures r in StagedSet(st') <==> r in StagedSet(st) || r in more {
      InStagedSet(st, r);
      InStagedSet(st', r);
      assert r in more <==> r.0 == t && r.1 in ids by { assert r == (r.0, r.1); }
    }
  }

  lemma InsertCounts(g: Graph, db: Database, st: Staging, t: string, ids: set<nat>)
    requires t in st && ids <= Rows(db, t).Keys && ids !! st[t].Keys
    ensures |Insert(g, db, st, t, ids)[t]| == |st[t]| + |ids|
  {
    hide Cells, HasKey;
    var m := Insert(g, db, st, t, ids)[t];
    assert m.Keys == st[t].Keys + ids;
    hide *;
    assert |m| == |m.Keys| && |st[t]| == |st[t].Keys|;
  }

  lemma InsertNothing(g: Graph, db: Database, st: Staging, t: string)
    requires t in st
    ensures Insert(g, db, st, t, {}) == st
  {
    assert Insert(g, db, st, t, {})[t] == st[t];
  }

  lemma InsertCopies(g: Graph, p: Plan, db: Database, st: Staging, t: string, ids: set<nat>)
    requires Copies(g, p, db, st) && t in st && ids <= Rows(db, t).Keys
    ensures Copies(g, p, db, Insert(g, db, st, t, ids))
  {
  }

  lemma InsertKeeps(g: Graph, p: Plan, db: Database, user: nat, a: Area, t: string, ids: set<nat>, c: Counts)
    requires Filling(g, p, db, user, a) && t in a.st
    requires ids <= Rows(db, t).Keys && ids !! a.st[t].Keys && c.Total() == a.Count(t).Total() + |ids|
    requires forall rows, id :: ClosedSet(g, p, db, user, rows) && id in ids ==> (t, id) in rows
    ensures Filling(g, p, db, user, Area(Insert(g, db, a.st, t, ids), a.counts[t := c]))
    ensures StagedSet(Insert(g, db, a.st, t, ids)) == StagedSet(a.st) + set id | id in ids :: (t, id)
  {
    hide ClosedSet, Copies, PlanFits, UniqueKeys, StagedSet;
    InsertStages(g, db, a.st, t, ids);
    InsertCounts(g, db, a.st, t, ids);
    InsertCopies(g, p, db, a.st, t, ids);
  }

  /** A row whose key is staged is itself staged: keys are unique. */
  lemma HeldIsStaged(g: Graph, p: Plan, db: Database, st: Staging, t: string, id: nat)
    requires UniqueKeys(g, db) && PlanFits(g, p) && Copies(g, p, db, st)
    requires id in Rows(db, t) && Held(st, t, Cells(Rows(db, t)[id], g.Key(t)))
    ensures (t, id) in StagedSet(st)
  {
    var j :| j in st[t] && st[t][j] == Cells(Rows(db, t)[id], g.Key(t));
    assert Cells(Rows(db, t)[j], g.Key(t)) == Cells(Rows(db, t)[id], g.Key(t));
  }

  /** A keyed row already staged is not picked again. */
  lemma StagedIsHeld(g: Graph, p: Plan, db: Database, st: Staging, t: string, id: nat)
    requires Copies(g, p, db, st) && t in st && id in st[t] && HasKey(g, t, Rows(db, t)[id])
    ensures Held(st, t, Cells(Rows(db, t)[id], g.Key(t)))
  {
    assert st[t][id] in st[t].Values;
  }

  lemma SeedsBelong(g: Graph, p: Plan, db: Database, user: nat, st: Staging, t: string, k: nat)
    requires PlanFits(g, p) && Copies(g, p, db, st) && t in st && t in p.tables && k < |p.Seeds(t)|
    ensures SeedIds(g, db, st, t, p.Seeds(t)[k]) !! st[t].Keys
    ensures forall rows, id :: ClosedSet(g, p, db, user, rows) && id in SeedIds(g, db, st, t, p.Seeds(t)[k]) ==> (t, id) in rows
  {
    forall id | id in SeedIds(g, db, st, t, p.Seeds(t)[k]) ensures id !in st[t] && SeedRow(p, t, Rows(db, t)[id]) {
      if id in st[t] {
        StagedIsHeld(g, p, db, st, t, id);
      }
    }
  }

  lemma CascadesBelong(g: Graph, p: Plan, db: Database, user: nat, st: Staging, e: Edge)
    requires g.WellFormed() && PlanFits(g, p) && Copies(g, p, db, st) && Minimal(g, p, db, user, st)
    requires e in p.edges && e.child in st
    ensures CascadeIds(g, db, st, e) !! st[e.child].Keys
    ensures forall rows, id :: ClosedSet(g, p, db, user, rows) && id in CascadeIds(g, db, st, e) ==> (e.child, id) in rows
  {
    forall id | id in CascadeIds(g, db, st, e) ensures id !in st[e.child] {
      if id in st[e.child] {
        StagedIsHeld(g, p, db, st, e.child, id);
      }
    }
    forall rows, id | ClosedSet(g, p, db, user, rows) && id in CascadeIds(g, db, st, e) ensures (e.child, id) in rows {
      var pid :| pid in st[e.parent] && st[e.parent][pid] == Cells(Rows(db, e.child)[id], e.cols);
      assert (e.parent, pid) in StagedSet(st);
      assert CascadesTo(g, db, e, pid, id);
    }
  }

  /** Every row an owner statement picks from the first `n` tables is staged. */
  ghost predicate OwnersStaged(g: Graph, p: Plan, db: Database, user: nat, st: Staging, n: nat) {
    forall i, id :: 0 <= i < n && i < |p.tables| && id in OwnedIds(g, db, user, p.tables[i]) ==> (p.tables[i], id) in StagedSet(st)
  }

  /** Every keyed row the first `k` erasers of `t` match is staged. */
  ghost predicate SeedsStaged(g: Graph, p: Plan, db: Database, st: Staging, t: string, k: nat) {
    forall i, id :: 0 <= i < k && i < |p.Seeds(t)| && id in Rows(db, t) && p.Seeds(t)[i].Matches(Rows(db, t)[id]) && HasKey(g, t, Rows(db, t)[id]) ==>
      (t, id) in StagedSet(st)
  }

  lemma SeedStatementDone(g: Graph, p: Plan, db: Database, user: nat, st: Staging, st': Staging, t: string, k: nat)
    requires UniqueKeys(g, db) && PlanFits(g, p) && t in p.tables && k < |p.Seeds(t)|
    requires Copies(g, p, db, st) && SeedsStaged(g, p, db, st, t, k) && t in st
    requires StagedSet(st') == StagedSet(st) + set id | id in SeedIds(g, db, st, t, p.Seeds(t)[k]) :: (t, id)
    ensures SeedsStaged(g, p, db, st', t, k + 1)
  {
    forall i, id | 0 <= i < k + 1 && id in Rows(db, t) && p.Seeds(t)[i].Matches(Rows(db, t)[id]) && HasKey(g, t, Rows(db, t)[id])
      ensures (t, id) in StagedSet(st')
    {
      if i == k && id !in SeedIds(g, db, st, t, p.Seeds(t)[k]) {
        HeldIsStaged(g, p, db, st, t, id);
      }
    }
  }

  /** A pass over the cascade edges that added nothing leaves a closed set. */
  lemma QuietPassCloses(g: Graph, p: Plan, db: Database, user: nat, st: Staging)
    requires g.WellFormed() && PlanFits(g, p) && UniqueKeys(g, db) && Copies(g, p, db, st)
    requires OwnersStaged(g, p, db, user, st, |p.tables|)
    requires forall t :: t in p.tables ==> SeedsStaged(g, p, db, st, t, |p.Seeds(t)|)
    requires forall e :: e in p.edges && e.child in st ==> CascadeIds(g, db, st, e) == {}
    ensures ClosedSet(g, p, db, user, StagedSet(st))
  {
    forall t, id | t in p.tables && id in Rows(db, t) && OwnedRow(g, user, t, Rows(db, t)[id])
      ensures (t, id) in StagedSet(st)
    {
      var i :| 0 <= i < |p.tables| && p.tables[i] == t;
      assert id in OwnedIds(g, db, user, p.tables[i]);
    }
    forall e, pid, id: nat | e in p.edges && (e.parent, pid) in StagedSet(st) && CascadesTo(g, db, e, pid, id)
      ensures (e.child, id) in StagedSet(st)
    {
      assert st[e.parent][pid] in st[e.parent].Values;
      assert id !in CascadeIds(g, db, st, e);
      HeldIsStaged(g, p, db, st, e.child, id);
    }
  }

  function AllRows(db: Database): set<(string, nat)> {
    set t, id | t in db && id in db[t] :: (t, id)
  }

  // ---- The statements, each as one step on the area ------------------------

  function Created(g: Graph, p: Plan): Area {
    Area(map t | t in p.tables && g.Key(t) != [] :: map[], map t | t in p.tables :: Counts(0, 0, 0))
  }

  /** The owner statements have run for the first `n` tables. */
  ghost predicate OwnersDone(g: Graph, p: Plan, db: Database, user: nat, a: Area, n: nat) {
    && Filling(g, p, db, user, a) && OwnersStaged(g, p, db, user, a.st, n)
    && (forall i :: n <= i < |p.tables| && p.tables[i] in a.st ==> a.st[p.tables[i]] == map[])
    && (forall i :: n <= i < |p.tables| ==> a.counts[p.tables[i]] == Counts(0, 0, 0))
  }

  function StageOwner(g: Graph, p: Plan, db: Database, user: nat, a: Area, n: nat): Area
    requires OwnersDone(g, p, db, user, a, n) && n < |p.tables|
  {
    var t := p.tables[n];
    if g.tables[t].owner == "" then a
    else
      var ids := OwnedIds(g, db, user, t);
      Area(Insert(g, db, a.st, t, ids), a.counts[t := a.Count(t).(owned := |ids|)])
  }

  lemma CreatedIsEmpty(g: Graph, p: Plan, db: Database, user: nat)
    requires g.WellFormed() && PlanFits(g, p) && UniqueKeys(g, db)
    ensures OwnersDone(g, p, db, user, Created(g, p), 0)
  {
    assert StagedSet(Created(g, p).st) == {};
  }

  lemma OwnerStep(g: Graph, p: Plan, db: Database, user: nat, a: Area, n: nat)
    requires OwnersDone(g, p, db, user, a, n) && n < |p.tables|
    ensures OwnersDone(g, p, db, user, StageOwner(g, p, db, user, a, n), n + 1)
  {
    OwnerStages(g, p, db, user, a, n);
    OwnerLeavesLater(g, p, db, user, a, n);
    OwnersStagedMore(g, p, db, user, a.st, StageOwner(g, p, db, user, a, n).st, n);
  }

  lemma OwnerStages(g: Graph, p: Plan, db: Database, user: nat, a: Area, n: nat)
    requires OwnersDone(g, p, db, user, a, n) && n < |p.tables|
    ensures var t, a' := p.tables[n], StageOwner(g, p, db, user, a, n);
            Filling(g, p, db, user, a') && StagedSet(a'.st) == StagedSet(a.st) + set id | id in OwnedIds(g, db, user, t) :: (t, id)
  {
    var t := p.tables[n];
    var ids := OwnedIds(g, db, user, t);
    if g.tables[t].owner != "" {
      InsertKeeps(g, p, db, user, a, t, ids, a.Count(t).(owned := |ids|));
    } else {
      assert ids == {};
    }
  }

  lemma OwnerLeavesLater(g: Graph, p: Plan, db: Database, user: nat, a: Area, n: nat)
    requires OwnersDone(g, p, db, user, a, n) && n < |p.tables|
    ensures var a' := StageOwner(g, p, db, user, a, n);
            forall i :: n + 1 <= i < |p.tables| ==>
              && (p.tables[i] in a'.st ==> a'.st[p.tables[i]] == map[])
              && p.tables[i] in a'.counts && a'.counts[p.tables[i]] == Counts(0, 0, 0)
  {
    hide OwnedIds, OwnersStaged, Filling, Copies, Counted, PlanFits, UniqueKeys, Minimal, Graph.WellFormed;
    PlanListsOnce(g, p, db, user, a);
    assert forall i :: n + 1 <= i < |p.tables| ==> p.tables[i] != p.tables[n];
  }

  lemma PlanListsOnce(g: Graph, p: Plan, db: Database, user: nat, a: Area)
    requires Filling(g, p, db, user, a)
    ensures Distinct(p.tables) && forall i :: 0 <= i < |p.tables| ==> p.tables[i] in a.counts
  {
    hide Minimal, UniqueKeys, Copies;
    assert forall i :: 0 <= i < |p.tables| ==> p.tables[i] in p.tables;
  }

  lemma OwnersStagedMore(g: Graph, p: Plan, db: Database, user: nat, st: Staging, st': Staging, n: nat)
    requires OwnersStaged(g, p, db, user, st, n) && n < |p.tables|
    requires StagedSet(st') == StagedSet(st) + set id | id in OwnedIds(g, db, user, p.tables[n]) :: (p.tables[n], id)
    ensures OwnersStaged(g, p, db, user, st', n + 1)
  {
    hide StagedSet, OwnedIds;
  }

  /** The erasers of `t` up to `k` have run, on top of what was staged before. */
  ghost predicate SeedsDone(g: Graph, p: Plan, db: Database, user: nat, before: Area, a: Area, t: string, k: nat) {
    && Filling(g, p, db, user, a) && StagedSet(before.st) <= StagedSet(a.st)
    && t in p.tables && (p.Seeds(t) != [] ==> t in a.st) && SeedsStaged(g, p, db, a.st, t, k)
  }

  function StageSeed(g: Graph, p: Plan, db: Database, user: nat, ghost before: Area, a: Area, t: string, k: nat): Area
    requires SeedsDone(g, p, db, user, before, a, t, k) && k < |p.Seeds(t)|
  {
    var ids := SeedIds(g, db, a.st, t, p.Seeds(t)[k]);
    Area(Insert(g, db, a.st, t, ids), a.counts[t := a.Count(t).(seeded := a.Count(t).seeded + |ids|)])
  }

  lemma SeedStep(g: Graph, p: Plan, db: Database, user: nat, before: Area, a: Area, t: string, k: nat)
    requires SeedsDone(g, p, db, user, before, a, t, k) && k < |p.Seeds(t)|
    ensures SeedsDone(g, p, db, user, before, StageSeed(g, p, db, user, before, a, t, k), t, k + 1)
  {
    var ids := SeedIds(g, db, a.st, t, p.Seeds(t)[k]);
    SeedsBelong(g, p, db, user, a.st, t, k);
    InsertKeeps(g, p, db, user, a, t, ids, a.Count(t).(seeded := a.Count(t).seeded + |ids|));
    SeedStatementDone(g, p, db, user, a.st, Insert(g, db, a.st, t, ids), t, k);
  }

  /** The erasers of the first `n` tables have run. */
  ghost predicate SeedTablesDone(g: Graph, p: Plan, db: Database, user: nat, a: Area, n: nat) {
    && Filling(g, p, db, user, a) && OwnersStaged(g, p, db, user, a.st, |p.tables|)
    && (forall i :: 0 <= i < n && i < |p.tables| ==> SeedsStaged(g, p, db, a.st, p.tables[i], |p.Seeds(p.tables[i])|))
  }

  lemma OwnersGrow(g: Graph, p: Plan, db: Database, user: nat, st: Staging, st': Staging, n: nat)
    requires OwnersStaged(g, p, db, user, st, n) && StagedSet(st) <= StagedSet(st')
    ensures OwnersStaged(g, p, db, user, st', n)
  {
    hide StagedSet, OwnedIds;
  }

  lemma SeedsGrow(g: Graph, p: Plan, db: Database, st: Staging, st': Staging, t: string, k: nat)
    requires SeedsStaged(g, p, db, st, t, k) && StagedSet(st) <= StagedSet(st')
    ensures SeedsStaged(g, p, db, st', t, k)
  {
    hide StagedSet, HasKey;
  }

  lemma SeedTableStep(g: Graph, p: Plan, db: Database, user: nat, before: Area, a: Area, n: nat)
    requires SeedTablesDone(g, p, db, user, before, n) && n < |p.tables|
    requires SeedsDone(g, p, db, user, before, a, p.tables[n], |p.Seeds(p.tables[n])|)
    ensures SeedTablesDone(g, p, db, user, a, n + 1)
  {
    hide Filling, StagedSet, SeedsStaged, OwnersStaged;
    OwnersGrow(g, p, db, user, before.st, a.st, |p.tables|);
    forall i | 0 <= i < n ensures SeedsStaged(g, p, db, a.st, p.tables[i], |p.Seeds(p.tables[i])|) {
      SeedsGrow(g, p, db, before.st, a.st, p.tables[i], |p.Seeds(p.tables[i])|);
    }
  }

  lemma SeedTableStart(g: Graph, p: Plan, db: Database, user: nat, a: Area, n: nat)
    requires SeedTablesDone(g, p, db, user, a, n) && n < |p.tables|
    ensures SeedsDone(g, p, db, user, a, a, p.tables[n], 0)
  {
  }

  lemma SeedsStart(g: Graph, p: Plan, db: Database, user: nat, a: Area)
    requires OwnersDone(g, p, db, user, a, |p.tables|)
    ensures SeedTablesDone(g, p, db, user, a, 0)
  {
  }

  /** Owners and erasers are in: what the cascade starts from and never loses. */
  ghost predicate Seeded(g: Graph, p: Plan, db: Database, user: nat, a: Area) {
    SeedTablesDone(g, p, db, user, a, |p.tables|)
  }

  function Follow(g: Graph, db: Database, a: Area, e: Edge): Area
  {
    if e.child !in a.st then a
    else
      var ids := CascadeIds(g, db, a.st, e);
      Area(Insert(g, db, a.st, e.child, ids), a.counts[e.child := a.Count(e.child).(cascaded := a.Count(e.child).cascaded + |ids|)])
  }

  /** The rows one INSERT of the cascade loop adds. */
  function Added(g: Graph, db: Database, a: Area, e: Edge): set<nat> {
    if e.child !in a.st then {} else CascadeIds(g, db, a.st, e)
  }

  lemma SeededGrows(g: Graph, p: Plan, db: Database, user: nat, a: Area, a': Area)
    requires Seeded(g, p, db, user, a) && Filling(g, p, db, user, a') && StagedSet(a.st) <= StagedSet(a'.st)
    ensures Seeded(g, p, db, user, a')
  {
    hide Filling, StagedSet, SeedsStaged, OwnersStaged;
    OwnersGrow(g, p, db, user, a.st, a'.st, |p.tables|);
    forall i | 0 <= i < |p.tables| ensures SeedsStaged(g, p, db, a'.st, p.tables[i], |p.Seeds(p.tables[i])|) {
      SeedsGrow(g, p, db, a.st, a'.st, p.tables[i], |p.Seeds(p.tables[i])|);
    }
  }

  lemma FollowNothing(g: Graph, db: Database, a: Area, e: Edge)
    requires a.st.Keys <= a.counts.Keys && Added(g, db, a, e) == {}
    ensures Follow(g, db, a, e) == a
  {
    if e.child in a.st {
      InsertNothing(g, db, a.st, e.child);
      assert a.counts[e.child := a.Count(e.child).(cascaded := a.Count(e.child).cascaded + 0)] == a.counts;
    }
  }

  lemma FollowStages(g: Graph, db: Database, a: Area, e: Edge)
    ensures StagedSet(Follow(g, db, a, e).st) == StagedSet(a.st) + set id | id in Added(g, db, a, e) :: (e.child, id)
  {
    if e.child in a.st {
      InsertStages(g, db, a.st, e.child, CascadeIds(g, db, a.st, e));
    }
  }

  lemma FollowIs(g: Graph, db: Database, a: Area, e: Edge)
    requires e.child in a.st
    ensures var ids := CascadeIds(g, db, a.st, e);
            var c := a.Count(e.child).(cascaded := a.Count(e.child).cascaded + |ids|);
            && ids <= Rows(db, e.child).Keys && Added(g, db, a, e) == ids
            && c.Total() == a.Count(e.child).Total() + |ids|
            && Follow(g, db, a, e) == Area(Insert(g, db, a.st, e.child, ids), a.counts[e.child := c])
  {
  }

  lemma FollowFills(g: Graph, p: Plan, db: Database, user: nat, a: Area, e: Edge)
    requires Filling(g, p, db, user, a) && e in p.edges && e.child in a.st
    ensures Filling(g, p, db, user, Follow(g, db, a, e))
    ensures CascadeIds(g, db, a.st, e) !! a.st[e.child].Keys
  {
    var ids := CascadeIds(g, db, a.st, e);
    CascadesBelong(g, p, db, user, a.st, e);
    hide *;
    FollowIs(g, db, a, e);
    InsertKeeps(g, p, db, user, a, e.child, ids, a.Count(e.child).(cascaded := a.Count(e.child).cascaded + |ids|));
  }

  lemma FollowStep(g: Graph, p: Plan, db: Database, user: nat, a: Area, e: Edge)
    requires Seeded(g, p, db, user, a) && e in p.edges
    ensures Seeded(g, p, db, user, Follow(g, db, a, e))
    ensures forall id :: id in Added(g, db, a, e) ==> (e.child, id) !in StagedSet(a.st)
  {
    if e.child in a.st {
      assert Filling(g, p, db, user, a);
      hide *;
      FollowFills(g, p, db, user, a, e);
      FollowIs(g, db, a, e);
      FollowStages(g, db, a, e);
      SeededGrows(g, p, db, user, a, Follow(g, db, a, e));
      forall id | id in Added(g, db, a, e) ensures (e.child, id) !in StagedSet(a.st) {
        InStagedSet(a.st, (e.child, id));
      }
    }
  }

  /** Nothing follows from the first `k` cascade edges any more. */
  ghost predicate Quiet(g: Graph, p: Plan, db: Database, a: Area, k: nat) {
    forall i :: 0 <= i < k && i < |p.edges| ==> Added(g, db, a, p.edges[i]) == {}
  }

  /** One pass over the cascade edges, started at `before`, has done the first `k`. */
  ghost predicate Passing(g: Graph, p: Plan, db: Database, user: nat, before: Area, a: Area, k: nat, added: nat) {
    && Seeded(g, p, db, user, a) && StagedSet(before.st) <= StagedSet(a.st)
    && (added == 0 ==> a == before && Quiet(g, p, db, a, k))
    && (added > 0 ==> exists r :: r in StagedSet(a.st) && r !in StagedSet(before.st))
  }

  lemma PassStep(g: Graph, p: Plan, db: Database, user: nat, before: Area, a: Area, k: nat, added: nat)
    requires Passing(g, p, db, user, before, a, k, added) && k < |p.edges|
    ensures Passing(g, p, db, user, before, Follow(g, db, a, p.edges[k]), k + 1, added + |Added(g, db, a, p.edges[k])|)
  {
    var e := p.edges[k];
    FollowStep(g, p, db, user, a, e);
    FollowStages(g, db, a, e);
    if Added(g, db, a, e) == {} {
      FollowNothing(g, db, a, e);
    } else {
      var id :| id in Added(g, db, a, e);
      assert (e.child, id) in StagedSet(Follow(g, db, a, e).st);
    }
  }

  lemma QuietIsClosed(g: Graph, p: Plan, db: Database, user: nat, a: Area)
    requires Seeded(g, p, db, user, a) && Quiet(g, p, db, a, |p.edges|)
    ensures Copies(g, p, db, a.st) && ClosedSet(g, p, db, user, StagedSet(a.st)) && Minimal(g, p, db, user, a.st)
  {
    forall e | e in p.edges && e.child in a.st ensures CascadeIds(g, db, a.st, e) == {} {
      var i :| 0 <= i < |p.edges| && p.edges[i] == e;
      assert Added(g, db, a, p.edges[i]) == {};
    }
    forall t | t in p.tables ensures SeedsStaged(g, p, db, a.st, t, |p.Seeds(t)|) {
      var i :| 0 <= i < |p.tables| && p.tables[i] == t;
    }
    QuietPassCloses(g, p, db, user, a.st);
  }

  lemma PassGrows(g: Graph, p: Plan, db: Database, user: nat, before: Area, a: Area, added: nat)
    requires Passing(g, p, db, user, before, a, |p.edges|, added) && added > 0
    ensures |AllRows(db) - StagedSet(a.st)| < |AllRows(db) - StagedSet(before.st)|
  {
    var r :| r in StagedSet(a.st) && r !in StagedSet(before.st);
    assert r.0 in db && r.1 in Rows(db, r.0);
    Fewer(AllRows(db) - StagedSet(a.st), AllRows(db) - StagedSet(before.st), r);
  }

  /** SELECT COUNT(*) for the tables with no key, once staging has settled. */
  function CountKeyless(g: Graph, p: Plan, db: Database, a: Area): Area {
    a.(counts := map t | t in a.counts :: if t in a.st then a.counts[t] else Counts(0, 0, |Erased(g, p, a.st, db, t)|))
  }

  lemma CountsAgree(g: Graph, p: Plan, db: Database, user: nat, a: Area)
    requires Seeded(g, p, db, user, a) && Quiet(g, p, db, a, |p.edges|) && !NullKeys(g, p, db, user, a.st)
    ensures forall t :: t in p.tables ==>
              t in CountKeyless(g, p, db, a).counts && CountKeyless(g, p, db, a).counts[t].Total() == |Erased(g, p, a.st, db, t)|
  {
    QuietIsClosed(g, p, db, user, a);
    forall t | t in p.tables && t in a.st ensures a.counts[t].Total() == |Erased(g, p, a.st, db, t)| {
      StagedIsErased(g, p, db, user, a.st, t);
    }
  }

  /** One erasure's staging: the loops of `stage` over the plan. */
  class StagingArea {
    const g: Graph
    const p: Plan
    const db: Database
    const user: nat
    var area: Area

    constructor (g: Graph, p: Plan, db: Database, user: nat)
      ensures this.g == g && this.p == p && this.db == db && this.user == user
    {
      this.g, this.p, this.db, this.user := g, p, db, user;
      area := Area(map[], map[]);
    }

    /** CREATE TEMP TABLE for every keyed table, the user's own rows, then each delete eraser's matches. */
    method StageRoots()
      requires g.WellFormed() && PlanFits(g, p) && UniqueKeys(g, db)
      modifies this`area
      ensures Seeded(g, p, db, user, area)
    {
      area := Created(g, p);
      CreatedIsEmpty(g, p, db, user);
      hide *;
      for n := 0 to |p.tables|
        invariant OwnersDone(g, p, db, user, area, n)
      {
        OwnerStep(g, p, db, user, area, n);
        area := StageOwner(g, p, db, user, area, n);
      }
      SeedsStart(g, p, db, user, area);
      for n := 0 to |p.tables|
        invariant SeedTablesDone(g, p, db, user, area, n)
      {
        ghost var before := area;
        SeedTableStart(g, p, db, user, area, n);
        for k := 0 to |p.Seeds(p.tables[n])|
          invariant SeedsDone(g, p, db, user, before, area, p.tables[n], k)
        {
          SeedStep(g, p, db, user, before, area, p.tables[n], k);
          area := StageSeed(g, p, db, user, before, area, p.tables[n], k);
        }
        SeedTableStep(g, p, db, user, before, area, n);
      }
      RootsDone(g, p, db, user, area);
    }

    /** One pass over the cascade edges. */
    method FollowAll() returns (added: nat)
      requires Seeded(g, p, db, user, area)
      modifies this`area
      ensures Passing(g, p, db, user, old(area), area, |p.edges|, added)
    {
      PassStart(g, p, db, user, area);
      hide *;
      added := 0;
      for k := 0 to |p.edges|
        invariant Passing(g, p, db, user, old(area), area, k, added)
      {
        PassStep(g, p, db, user, old(area), area, k, added);
        var e := p.edges[k];
        added := added + |Added(g, db, area, e)|;
        area := Follow(g, db, area, e);
      }
    }

    /**
    The whole of `stage`. It always ends; it leaves the least closed set of rows
    staged and its count partitioned, and refuses exactly when a row it would
    remove has no key or a surviving row blocks a staged one.
    */
    method Stage() returns (ok: bool)
      requires g.WellFormed() && PlanFits(g, p) && UniqueKeys(g, db)
      modifies this`area
      ensures Copies(g, p, db, area.st) && ClosedSet(g, p, db, user, StagedSet(area.st)) && Minimal(g, p, db, user, area.st)
      ensures ok <==> !NullKeys(g, p, db, user, area.st) && !Blocked(g, p, db, area.st)
      ensures ok ==> Staged(g, p, db, user, area.st)
      ensures ok ==> forall t :: t in p.tables ==>
                t in area.counts && area.counts[t].Total() == |Erased(g, p, area.st, db, t)|
    {
      StageRoots();
      var more := true;
      while more
        invariant Seeded(g, p, db, user, area)
        invariant !more ==> Quiet(g, p, db, area, |p.edges|)
        decreases more, |AllRows(db) - StagedSet(area.st)|
      {
        ghost var before := area;
        var added := FollowAll();
        more := added > 0;
        PassIsSeeded(g, p, db, user, before, area, |p.edges|, added);
        if more {
          PassGrows(g, p, db, user, before, area, added);
        }
      }
      QuietIsClosed(g, p, db, user, area);
      var nullKeys := NullKeys(g, p, db, user, area.st);
      if nullKeys {
        return false;
      }
      CountsAgree(g, p, db, user, area);
      area := CountKeyless(g, p, db, area);
      ok := !Blocked(g, p, db, area.st);
    }
  }

  lemma RootsDone(g: Graph, p: Plan, db: Database, user: nat, a: Area)
    requires SeedTablesDone(g, p, db, user, a, |p.tables|)
    ensures Seeded(g, p, db, user, a)
  {
  }

  lemma PassStart(g: Graph, p: Plan, db: Database, user: nat, a: Area)
    requires Seeded(g, p, db, user, a)
    ensures Passing(g, p, db, user, a, a, 0, 0)
  {
  }

  lemma PassIsSeeded(g: Graph, p: Plan, db: Database, user: nat, before: Area, a: Area, k: nat, added: nat)
    requires Passing(g, p, db, user, before, a, k, added)
    ensures Seeded(g, p, db, user, a) && (added == 0 ==> Quiet(g, p, db, a, k))
  {
  }

  /** Every staged row has a key, because a closed set without the others exists. */
  lemma StagedKeysFull(g: Graph, p: Plan, db: Database, user: nat, st: Staging, t: string, id: nat)
    requires Copies(g, p, db, st) && ClosedSet(g, p, db, user, StagedSet(st)) && Minimal(g, p, db, user, st)
    requires PlanFits(g, p) && !NullKeys(g, p, db, user, st) && t in st && id in st[t]
    ensures HasKey(g, t, Rows(db, t)[id])
  {
    var keyed := set r | r in StagedSet(st) && HasKey(g, r.0, Rows(db, r.0)[r.1]);
    forall u, i | u in p.tables && i in Rows(db, u) && OwnedRow(g, user, u, Rows(db, u)[i]) ensures (u, i) in keyed {
      assert !NullKeyRow(g, p, db, user, st, u, Rows(db, u)[i]);
      assert (u, i) in StagedSet(st);
    }
    assert ClosedSet(g, p, db, user, keyed);
    assert (t, id) in StagedSet(st);
  }

  /** The rows a keyed table's DELETE matches are exactly the rows staged for it. */
  lemma StagedIsErased(g: Graph, p: Plan, db: Database, user: nat, st: Staging, t: string)
    requires PlanFits(g, p) && UniqueKeys(g, db)
    requires Copies(g, p, db, st) && ClosedSet(g, p, db, user, StagedSet(st)) && Minimal(g, p, db, user, st)
    requires !NullKeys(g, p, db, user, st) && t in st
    ensures Erased(g, p, st, db, t) == st[t].Keys
    ensures |Erased(g, p, st, db, t)| == |st[t]|
  {
    forall id | id in st[t] ensures id in Erased(g, p, st, db, t) {
      StagedKeysFull(g, p, db, user, st, t, id);
      StagedIsHeld(g, p, db, st, t, id);
    }
    forall id | id in Erased(g, p, st, db, t) ensures id in st[t] {
      HeldIsStaged(g, p, db, st, t, id);
    }
    assert |st[t]| == |st[t].Keys|;
  }
}
