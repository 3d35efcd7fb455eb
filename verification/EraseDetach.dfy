/**
When the erasure leaves a staged row behind. ON DELETE SET NULL can empty a key
column, as in a one-column key that SQLite leaves nullable: the row then loses
the key its own DELETE matches on.
*/
module EraseDetach {
  import opened Relational
  import opened TableOrder
  import opened EraseModel
  import opened EraseStage
  import opened EraseDelete

  /** A key column of the child, not declared NOT NULL, is among the reference's columns. */
  ghost predicate ThroughNullableKey(g: Graph, e: Edge) {
    exists c :: c in e.cols && c in g.Key(e.child) && c !in g.NotNull(e.child)
  }

  /**
  A staged row names a staged row of a table deleted before its own, over a SET
  NULL relation through a nullable key column.
  */
  ghost predicate NamesEarlierRow(er: Erasure) {
    exists e, i, k, id :: e in er.g.edges && NamesOver(er, e, i, k, id)
  }

  ghost predicate NamesOver(er: Erasure, e: Edge, i: nat, k: nat, id: nat) {
    && e.action.SetNull? && er.g.Managed(e.child) && ThroughNullableKey(er.g, e)
    && i < k < |er.p.tables| && e.parent == er.p.tables[i] && e.child == er.p.tables[k]
    && id in Erased(er.g, er.p, er.st, er.start, e.child) && Held(er.st, e.parent, Cells(Rows(er.start, e.child)[id], e.cols))
  }

  // ---- A lost key has such a reference to blame ------------------------------

  /** The DELETE at position `n` is the one that took the key of a row whose table comes later. */
  lemma LossOver(er: Erasure, db: Database, n: nat, k: nat, id: nat)
    requires er.Ready() && er.Running(db, n) && n < k < |er.p.tables| && id in Erased(er.g, er.p, er.st, er.start, er.p.tables[k])
    requires !EmptiesNotNull(er.g, db, er.p.tables[n], Erased(er.g, er.p, er.st, db, er.p.tables[n]))
    requires var t, row := er.p.tables[k], Rows(er.start, er.p.tables[k])[id];
             HasKey(er.g, t, er.Left(t, row, n)) && !HasKey(er.g, t, er.Left(t, row, n + 1))
    ensures NamesEarlierRow(er)
  {
    var t, u := er.p.tables[n], er.p.tables[k];
    var was := er.Left(u, Rows(er.start, u)[id], n);
    assert u !in er.p.tables[..n] && u != t && id in Rows(db, u) && Rows(db, u)[id] == was;
    er.DetachesStaged(db, t, u, id);
    ClearedKey(was, er.DetachedBy(t, u, was), er.g.Key(u));
    var c :| c in er.DetachedBy(t, u, was) && c in Columns(er.g.Key(u));
    var e :| e in er.g.edges && er.g.Managed(u) && e.action.SetNull? && e.parent == t && e.child == u && Held(er.st, t, Cells(was, e.cols)) && c in e.cols;
    NotEmptied(er.g, db, t, Erased(er.g, er.p, er.st, db, t), u, id, c);
    er.NamesAsBefore(db, e, id);
    assert NamesOver(er, e, n, k, id);
  }

  lemma NotEmptied(g: Graph, db: Database, t: string, ids: set<nat>, u: string, id: nat, c: string)
    requires !EmptiesNotNull(g, db, t, ids) && u != t && id in Rows(db, u) && c in Detached(g, db, t, ids, u, Rows(db, u)[id])
    ensures c !in g.NotNull(u)
  {
    assert Stays(t, ids, u, id) && !LosesNotNull(g, db, t, ids, u, db[u][id]);
    hide Detached;
    assert c !in Detached(g, db, t, ids, u, db[u][id]) * g.NotNull(u);
  }

  lemma NotLostYet(er: Erasure, n: nat, k: nat, id: nat)
    requires n <= k < |er.p.tables| && id in Rows(er.start, er.p.tables[k]) && er.LosesKey(k, id)
    ensures HasKey(er.g, er.p.tables[k], er.Left(er.p.tables[k], Rows(er.start, er.p.tables[k])[id], n)) ==> n < k
  {
  }

  lemma {:induction false} LossHasCause(er: Erasure, db: Database, n: nat, k: nat, id: nat)
    requires er.Ready() && er.Running(db, n) && n <= k < |er.p.tables| && er.DeleteFrom(db, n).Ok?
    requires id in Erased(er.g, er.p, er.st, er.start, er.p.tables[k]) && id in Rows(er.start, er.p.tables[k])
    requires HasKey(er.g, er.p.tables[k], er.Left(er.p.tables[k], Rows(er.start, er.p.tables[k])[id], n)) && er.LosesKey(k, id)
    ensures NamesEarlierRow(er)
    decreases |er.p.tables| - n
  {
    hide *;
    var t, row := er.p.tables[k], Rows(er.start, er.p.tables[k])[id];
    NotLostYet(er, n, k, id);
    var ids := Erased(er.g, er.p, er.st, db, er.p.tables[n]);
    er.DeleteFromMeans(db, n);
    er.AcceptedDelete(er.g, db, er.p.tables[n], ids);
    if HasKey(er.g, t, er.Left(t, row, n + 1)) {
      er.RunsOn(db, n);
      LossHasCause(er, AfterDelete(er.g, db, er.p.tables[n], ids), n + 1, k, id);
    } else {
      LossOver(er, db, n, k, id);
    }
  }

  lemma ErasedRowHasKey(er: Erasure, db: Database, t: string, id: nat)
    requires er.Ready() && er.Running(db, 0) && er.KeysSame(db) && id in Erased(er.g, er.p, er.st, er.start, t)
    ensures id in Rows(er.start, t) && HasKey(er.g, t, er.Left(t, Rows(er.start, t)[id], 0))
  {
    assert id in Rows(er.start, t) && Rows(db, t).Keys == Rows(er.start, t).Keys;
    assert id in Rows(db, t) && Rows(db, t)[id] == er.Left(t, Rows(er.start, t)[id], 0);
  }

  lemma LostKeyNamesEarlier(er: Erasure)
    requires er.Ready() && er.DeleteStaged().Ok? && er.KeyLost()
    ensures NamesEarlierRow(er)
  {
    var k, id :| 0 <= k < |er.p.tables| && id in Erased(er.g, er.p, er.st, er.start, er.p.tables[k]) && er.LosesKey(k, id);
    hide *;
    er.DeleteStagedMeans();
    er.CutsStart();
    er.CutsRun(er.start, 0);
    var db := er.CutFrom(er.start, 0).value;
    er.CutsEnd(db);
    er.DeletedRuns(db, 0);
    CutKeysSame(er, db);
    ErasedRowHasKey(er, db, er.p.tables[k], id);
    LossHasCause(er, db, 0, k, id);
  }

  lemma CutKeysSame(er: Erasure, db: Database)
    requires er.CutUpTo(db, |er.p.cuts|)
    ensures er.KeysSame(db)
  {
  }

  // ---- And such a reference takes the key, unless it is emptied first ---------

  /** No other reference of the child goes through one of its columns, except for key columns. */
  ghost predicate Unshared(g: Graph, e: Edge) {
    forall x :: x in g.edges && x.child == e.child && x != e ==> Columns(x.cols) * Columns(e.cols) <= Columns(g.Key(e.child))
  }

  /** Until its target's turn the reference stays as it was, or the key is lost already. */
  ghost predicate Intends(er: Erasure, e: Edge, row: Row, was: Row) {
    !HasKey(er.g, e.child, was) || Cells(was, e.cols) == Cells(row, e.cols)
  }

  lemma ClearedOutside(er: Erasure, e: Edge, row: Row, was: Row, cols: set<string>)
    requires Intends(er, e, row, was) && cols * Columns(e.cols) <= Columns(er.g.Key(e.child))
    ensures Intends(er, e, row, Cleared(was, cols))
  {
    var now := Cleared(was, cols);
    if HasKey(er.g, e.child, now) {
      MasksKeepFullCells(was, now, er.g.Key(e.child));
      ClearedKey(was, cols, er.g.Key(e.child));
      assert forall c :: c in e.cols ==> c in Columns(e.cols);
      SameCells(now, was, e.cols);
    }
  }

  lemma {:induction false} CutIntends(er: Erasure, e: Edge, row: Row, n: nat)
    requires PlanFits(er.g, er.p) && e in er.g.edges && e.action.SetNull? && Unshared(er.g, e) && n <= |er.p.cuts|
    ensures Intends(er, e, row, er.CutRow(e.child, row, n))
  {
    if n > 0 {
      CutIntends(er, e, row, n - 1);
      var was, x := er.CutRow(e.child, row, n - 1), er.p.cuts[n - 1];
      assert x in er.p.edges || x in er.p.blockers;
      assert x in er.g.edges && x != e;
      if x.child == e.child { ClearedOutside(er, e, row, was, Columns(x.cols)); }
    }
  }

  lemma DetachedOutside(er: Erasure, e: Edge, parent: string, was: Row)
    requires Unshared(er.g, e) && parent != e.parent
    ensures er.DetachedBy(parent, e.child, was) * Columns(e.cols) <= Columns(er.g.Key(e.child))
  {
    forall c | c in er.DetachedBy(parent, e.child, was) && c in Columns(e.cols) ensures c in Columns(er.g.Key(e.child)) {
      var x :| x in er.g.edges && x.parent == parent && x.child == e.child && c in x.cols;
      assert c in Columns(x.cols) * Columns(e.cols);
    }
  }

  lemma {:induction false} LeftIntends(er: Erasure, e: Edge, row: Row, n: nat)
    requires PlanFits(er.g, er.p) && e in er.g.edges && e.action.SetNull? && Unshared(er.g, e)
    requires n <= |er.p.tables| && forall i :: 0 <= i < n ==> er.p.tables[i] != e.parent
    ensures Intends(er, e, row, er.Left(e.child, row, n))
  {
    if n == 0 {
      CutIntends(er, e, row, |er.p.cuts|);
    } else {
      LeftIntends(er, e, row, n - 1);
      var was := er.Left(e.child, row, n - 1);
      DetachedOutside(er, e, er.p.tables[n - 1], was);
      ClearedOutside(er, e, row, was, er.DetachedBy(er.p.tables[n - 1], e.child, was));
    }
  }

  lemma {:induction false} LostStaysLost(er: Erasure, t: string, row: Row, n: nat, k: nat)
    requires n <= k <= |er.p.tables| && !HasKey(er.g, t, er.Left(t, row, n))
    ensures !HasKey(er.g, t, er.Left(t, row, k))
    decreases k - n
  {
    if n < k {
      var was, now := er.Left(t, row, n), er.Left(t, row, n + 1);
      if HasKey(er.g, t, now) { MasksKeepFullCells(was, now, er.g.Key(t)); }
      LostStaysLost(er, t, row, n + 1, k);
    }
  }

  lemma UnsharedIsLost(er: Erasure, e: Edge, i: nat, k: nat, id: nat)
    requires er.Ready() && e in er.g.edges && NamesOver(er, e, i, k, id) && Unshared(er.g, e)
    ensures er.LosesKey(k, id)
  {
    var row := Rows(er.start, e.child)[id];
    LeftIntends(er, e, row, i);
    var was := er.Left(e.child, row, i);
    if HasKey(er.g, e.child, was) {
      var c :| c in e.cols && c in er.g.Key(e.child);
      assert c in er.DetachedBy(e.parent, e.child, was);
      ClearedKey(was, er.DetachedBy(e.parent, e.child, was), er.g.Key(e.child));
      assert c in Columns(er.g.Key(e.child));
      assert !HasKey(er.g, e.child, er.Left(e.child, row, i + 1));
      LostStaysLost(er, e.child, row, i + 1, k);
    } else {
      LostStaysLost(er, e.child, row, i, k);
    }
  }

  /**
  An erasure that goes through removes exactly the staged rows if none of them
  names a staged row of an earlier table over a SET NULL relation through a
  nullable key column; and only if, where no such relation shares a column
  outside the key with another one.
  */
  lemma ErasedExactly(er: Erasure)
    requires er.Ready() && er.DeleteStaged().Ok?
    ensures !NamesEarlierRow(er) ==> er.OnlyStagedGone(er.DeleteStaged().value)
    ensures (forall e :: e in er.g.edges && e.action.SetNull? && ThroughNullableKey(er.g, e) ==> Unshared(er.g, e)) ==>
              (er.OnlyStagedGone(er.DeleteStaged().value) <==> !NamesEarlierRow(er))
  {
    er.ErasureSucceeds();
    hide Erasure.Ready, Erasure.OnlyStagedGone, Unshared, ThroughNullableKey, Erasure.DeleteStaged, Erasure.LosesKey;
    if er.KeyLost() {
      LostKeyNamesEarlier(er);
    } else if NamesEarlierRow(er) {
      var e, i, k, id :| e in er.g.edges && NamesOver(er, e, i, k, id);
      if Unshared(er.g, e) { UnsharedIsLost(er, e, i, k, id); }
    }
  }

  // ---- A staged row left behind ----------------------------------------------

  // A one-to-one profile whose key is its user's, ON DELETE SET NULL.
  const USERS := DataTable(["id"], "owner", false, false, {})
  const PROFILES := DataTable(["user"], "owner", false, false, {})
  const OF_USER := Edge("profiles", "accounts", ["user"], ["id"], SetNull)
  const GRAPH := Graph(map["accounts" := USERS, "profiles" := PROFILES], [OF_USER], {"accounts", "profiles"})
  const PLAN := Plan(["accounts", "profiles"], [], [], [], map[])
  const ACCOUNT: Row := map["id" := Val(1), "owner" := Val(7)]
  const PROFILE: Row := map["user" := Val(1), "owner" := Val(7)]
  const START: Database := map["accounts" := map[0 := ACCOUNT], "profiles" := map[0 := PROFILE]]
  const STAGED: Staging := map["accounts" := map[0 := [Val(1)]], "profiles" := map[0 := [Val(1)]]]

  lemma ExampleCells()
    ensures Cells(ACCOUNT, ["id"]) == [Val(1)] && Cells(PROFILE, ["user"]) == [Val(1)]
    ensures Full([Val(1)])
  {
  }

  lemma ExamplePlanFits()
    ensures GRAPH.WellFormed() && PlanFits(GRAPH, PLAN)
  {
    assert PLAN.tables[0] == "accounts" && PLAN.tables[1] == "profiles";
  }

  lemma ExampleDatabase()
    ensures Intact(GRAPH, START) && UniqueKeys(GRAPH, START)
  {
    ExampleCells();
    assert 0 in Rows(START, "accounts") && Rows(START, "accounts")[0] == ACCOUNT;
    assert HoldsKey(START, "accounts", ["id"], [Val(1)]);
  }

  lemma ExampleLeast(x: set<(string, nat)>)
    requires ClosedSet(GRAPH, PLAN, START, 7, x)
    ensures StagedSet(STAGED) <= x
  {
    assert PLAN.tables[0] == "accounts" && PLAN.tables[1] == "profiles";
    assert 0 in Rows(START, "accounts") && OwnedRow(GRAPH, 7, "accounts", ACCOUNT);
    assert 0 in Rows(START, "profiles") && OwnedRow(GRAPH, 7, "profiles", PROFILE);
  }

  lemma ExampleClosed()
    ensures ClosedSet(GRAPH, PLAN, START, 7, StagedSet(STAGED)) && Copies(GRAPH, PLAN, START, STAGED)
  {
    ExampleCells();
    assert PLAN.tables[0] == "accounts" && PLAN.tables[1] == "profiles";
    assert ("accounts", 0) in StagedSet(STAGED) && ("profiles", 0) in StagedSet(STAGED);
  }

  lemma ExampleUnrefused()
    ensures !NullKeys(GRAPH, PLAN, START, 7, STAGED) && !Blocked(GRAPH, PLAN, START, STAGED)
  {
    ExampleCells();
  }

  lemma ExampleIsReady()
    ensures Erasure(GRAPH, PLAN, STAGED, 7, START).Ready()
  {
    ExamplePlanFits();
    ExampleDatabase();
    ExampleClosed();
    ExampleUnrefused();
    forall x | ClosedSet(GRAPH, PLAN, START, 7, x) ensures StagedSet(STAGED) <= x {
      ExampleLeast(x);
    }
    hide PlanFits, Intact, UniqueKeys, ClosedSet, Copies, NullKeys, Blocked, StagedSet;
  }

  /** One of the example's DELETEs is never refused: nothing is RESTRICT or NOT NULL, and the one relation is SET NULL. */
  lemma ExampleDeletes(db: Database, t: string)
    requires t == "accounts" || t == "profiles"
    requires Intact(GRAPH, db)
    ensures DeleteRows(GRAPH, db, t, Erased(GRAPH, PLAN, STAGED, db, t)).Ok?
  {
    var ids := Erased(GRAPH, PLAN, STAGED, db, t);
    var after := AfterDelete(GRAPH, db, t, ids);
    forall e, id | e in GRAPH.edges && GRAPH.Managed(e.child) && id in Rows(after, e.child)
      ensures Satisfied(after, e, Rows(after, e.child)[id])
    {
      ExampleReference(db, t, id);
    }
    assert Intact(GRAPH, after);
    assert forall u :: GRAPH.NotNull(u) == {};
    assert !EmptiesNotNull(GRAPH, db, t, ids) && !Restricted(GRAPH, db, t, ids);
  }

  lemma ExampleReference(db: Database, t: string, id: nat)
    requires Intact(GRAPH, db)
    requires id in Rows(AfterDelete(GRAPH, db, t, Erased(GRAPH, PLAN, STAGED, db, t)), "profiles")
    ensures var after := AfterDelete(GRAPH, db, t, Erased(GRAPH, PLAN, STAGED, db, t));
            Satisfied(after, OF_USER, Rows(after, "profiles")[id])
  {
    var e, ids := OF_USER, Erased(GRAPH, PLAN, STAGED, db, t);
    var after := AfterDelete(GRAPH, db, t, ids);
    var row, row' := Rows(db, "profiles")[id], Rows(after, "profiles")[id];
    hide Erased;
    if t == "accounts" && NamesOne(db, e, row, ids) {
      assert GRAPH.edges[0] == e && "user" in e.cols;
      assert "user" in Detached(GRAPH, db, t, ids, "profiles", row);
      assert Cells(row', ["user"])[0] == Null;
    }
    if Full(Cells(row', ["user"])) {
      MasksKeepFullCells(row, row', ["user"]);
      assert GRAPH.edges[0] == e && GRAPH.Managed("profiles");
      assert Satisfied(db, e, row);
      var pid :| pid in Rows(db, "accounts") && Cells(Rows(db, "accounts")[pid], ["id"]) == Cells(row, ["user"]);
      assert !(t == "accounts" && pid in ids);
      AccountsKeepCells(db, t, pid);
    }
  }

  lemma AccountsKeepCells(db: Database, t: string, pid: nat)
    requires pid in Rows(AfterDelete(GRAPH, db, t, Erased(GRAPH, PLAN, STAGED, db, t)), "accounts")
    ensures Cells(Rows(AfterDelete(GRAPH, db, t, Erased(GRAPH, PLAN, STAGED, db, t)), "accounts")[pid], ["id"]) ==
            Cells(Rows(db, "accounts")[pid], ["id"])
  {
    assert Detached(GRAPH, db, t, Erased(GRAPH, PLAN, STAGED, db, t), "accounts", Rows(db, "accounts")[pid]) == {};
  }

  /** The user's profile outlives the user's erasure, although it was staged and counted. */
  lemma ProfileOutlivesErasure()
    ensures var er := Erasure(GRAPH, PLAN, STAGED, 7, START);
            && er.Ready() && 0 in Erased(GRAPH, PLAN, STAGED, START, "profiles")
            && er.DeleteStaged().Ok? && 0 in Rows(er.DeleteStaged().value, "profiles") && NamesEarlierRow(er)
  {
    var er := Erasure(GRAPH, PLAN, STAGED, 7, START);
    ExampleIsReady();
    ExampleNames(er);
    ExampleRuns(er);
    er.CutsStart();
    er.CutsEnd(START);
    er.DeletedRuns(START, 0);
    hide Erasure.Ready, Erasure.Running, Erasure.LosesKey, Erasure.DeleteStaged, Erasure.DeleteFrom, NamesOver;
    UnsharedIsLost(er, OF_USER, 0, 1, 0);
    er.LosingRowSurvives(START, 0, 1, 0);
  }

  lemma ExampleNames(er: Erasure)
    requires er == Erasure(GRAPH, PLAN, STAGED, 7, START)
    ensures NamesOver(er, OF_USER, 0, 1, 0) && Unshared(GRAPH, OF_USER) && 0 in Erased(GRAPH, PLAN, STAGED, START, "profiles")
    ensures PLAN.tables[1] == "profiles" && OF_USER in GRAPH.edges && 0 in Rows(START, "profiles") && |PLAN.cuts| == 0
  {
    ExampleCells();
    assert PLAN.tables[0] == "accounts" && PLAN.tables[1] == "profiles";
    assert STAGED["accounts"][0] in STAGED["accounts"].Values && STAGED["profiles"][0] in STAGED["profiles"].Values;
    assert "user" in OF_USER.cols && "user" in GRAPH.Key("profiles") && "user" !in GRAPH.NotNull("profiles");
    assert ThroughNullableKey(GRAPH, OF_USER);
    assert GRAPH.edges[0] == OF_USER;
  }

  lemma ExampleRuns(er: Erasure)
    requires er == Erasure(GRAPH, PLAN, STAGED, 7, START) && er.Ready()
    ensures er.DeleteStaged() == er.DeleteFrom(START, 0) && er.DeleteFrom(START, 0).Ok?
  {
    assert |PLAN.tables| == 2 && PLAN.tables[0] == "accounts" && PLAN.tables[1] == "profiles" && |PLAN.cuts| == 0;
    assert er.CutFrom(START, 0) == Ok(START);
    ExampleDeletes(START, "accounts");
    var db := DeleteRows(GRAPH, START, "accounts", Erased(GRAPH, PLAN, STAGED, START, "accounts")).value;
    ExampleDeletes(db, "profiles");
    var last := DeleteRows(GRAPH, db, "profiles", Erased(GRAPH, PLAN, STAGED, db, "profiles")).value;
    assert er.DeleteFrom(last, 2) == Ok(last);
    assert er.DeleteFrom(db, 1) == er.DeleteFrom(last, 2);
    assert er.DeleteFrom(START, 0) == er.DeleteFrom(db, 1);
  }

  // ---- A key that is spared --------------------------------------------------

  // Two SET NULL relations of one table share a column outside its key: deleting
  // the first parent empties it, and with it the second relation, which goes
  // through the key.
  const GROUPS := DataTable(["id"], "owner", false, false, {})
  const PLACES := DataTable(["id", "group"], "owner", false, false, {})
  const SEATS := DataTable(["place"], "owner", false, false, {})
  const OF_GROUP := Edge("seats", "groups", ["group"], ["id"], SetNull)
  const AT_PLACE := Edge("seats", "places", ["place", "group"], ["id", "group"], SetNull)
  const SEATING := Graph(map["groups" := GROUPS, "places" := PLACES, "seats" := SEATS], [OF_GROUP, AT_PLACE], {"groups", "places", "seats"})
  const IN_TURN := Plan(["groups", "places", "seats"], [], [], [], map[])
  const GROUP: Row := map["id" := Val(1), "owner" := Val(7)]
  const PLACE: Row := map["id" := Val(1), "group" := Val(1), "owner" := Val(7)]
  const SEAT: Row := map["place" := Val(1), "group" := Val(1), "owner" := Val(7)]
  const SEATED: Database := map["groups" := map[0 := GROUP], "places" := map[0 := PLACE], "seats" := map[0 := SEAT]]
  const ALL_THREE: Staging := map["groups" := map[0 := [Val(1)]], "places" := map[0 := [Val(1), Val(1)]], "seats" := map[0 := [Val(1)]]]

  lemma SeatingCells()
    ensures Cells(GROUP, ["id"]) == [Val(1)] && Cells(PLACE, ["id", "group"]) == [Val(1), Val(1)] && Cells(SEAT, ["place"]) == [Val(1)]
    ensures Cells(SEAT, ["group"]) == [Val(1)] && Cells(SEAT, ["place", "group"]) == [Val(1), Val(1)]
    ensures Full([Val(1)]) && Full([Val(1), Val(1)])
  {
  }

  lemma SeatingPlanFits()
    ensures SEATING.WellFormed() && PlanFits(SEATING, IN_TURN)
    ensures IN_TURN.tables[0] == "groups" && IN_TURN.tables[1] == "places" && IN_TURN.tables[2] == "seats"
  {
  }

  lemma SeatingRows(t: string, id: nat)
    requires id in Rows(SEATED, t)
    ensures id == 0 && t in {"groups", "places", "seats"}
  {
  }

  lemma SeatingUnique()
    ensures UniqueKeys(SEATING, SEATED)
  {
    forall t, i, j | i in Rows(SEATED, t) && j in Rows(SEATED, t) ensures i == j {
      SeatingRows(t, i);
      SeatingRows(t, j);
    }
  }

  lemma SeatingIntact()
    ensures Intact(SEATING, SEATED)
  {
    SeatingCells();
    assert Rows(SEATED, "groups") == map[0 := GROUP] && Rows(SEATED, "places") == map[0 := PLACE] && Rows(SEATED, "seats") == map[0 := SEAT];
    hide GROUP, PLACE, SEAT, SEATED, Rows;
    assert 0 in Rows(SEATED, "groups") && 0 in Rows(SEATED, "places");
    assert HoldsKey(SEATED, "groups", ["id"], [Val(1)]) && HoldsKey(SEATED, "places", ["id", "group"], [Val(1), Val(1)]);
    forall e, id | e in SEATING.edges && id in Rows(SEATED, e.child) ensures Satisfied(SEATED, e, Rows(SEATED, e.child)[id]) {
      assert e == OF_GROUP || e == AT_PLACE;
    }
  }

  lemma SeatingOwner(t: string, id: nat)
    requires id in Rows(SEATED, t)
    ensures (t, id) in StagedSet(ALL_THREE)
  {
    SeatingRows(t, id);
    assert t in ALL_THREE && 0 in ALL_THREE[t];
  }

  lemma SeatingKeys(t: string, id: nat)
    requires t in ALL_THREE && id in ALL_THREE[t]
    ensures id in Rows(SEATED, t) && ALL_THREE[t][id] == Cells(Rows(SEATED, t)[id], SEATING.Key(t))
  {
    SeatingCells();
  }

  lemma SeatingCopies()
    ensures Copies(SEATING, IN_TURN, SEATED, ALL_THREE)
  {
    SeatingPlanFits();
    assert forall t :: t in ALL_THREE <==> t in {"groups", "places", "seats"};
    hide GROUP, PLACE, SEAT, SEATED, Rows, PlanFits, Cells;
    forall t, id | t in ALL_THREE && id in ALL_THREE[t] ensures id in Rows(SEATED, t) && ALL_THREE[t][id] == Cells(Rows(SEATED, t)[id], SEATING.Key(t)) {
      SeatingKeys(t, id);
    }
    hide ALL_THREE;
  }

  lemma SeatingLeast(x: set<(string, nat)>)
    requires ClosedSet(SEATING, IN_TURN, SEATED, 7, x)
    ensures StagedSet(ALL_THREE) <= x
  {
    SeatingPlanFits();
    assert 0 in Rows(SEATED, "groups") && OwnedRow(SEATING, 7, "groups", GROUP);
    assert 0 in Rows(SEATED, "places") && OwnedRow(SEATING, 7, "places", PLACE);
    assert 0 in Rows(SEATED, "seats") && OwnedRow(SEATING, 7, "seats", SEAT);
  }

  lemma SeatingClosed()
    ensures ClosedSet(SEATING, IN_TURN, SEATED, 7, StagedSet(ALL_THREE))
  {
    forall t, id | id in Rows(SEATED, t) ensures (t, id) in StagedSet(ALL_THREE) {
      SeatingOwner(t, id);
    }
    assert IN_TURN.edges == [];
    hide SEATED, ALL_THREE, OwnedRow, SeedRow, HasKey;
  }

  lemma SeatingUnrefused()
    ensures !NullKeys(SEATING, IN_TURN, SEATED, 7, ALL_THREE) && !Blocked(SEATING, IN_TURN, SEATED, ALL_THREE)
  {
    SeatingCells();
  }

  lemma SeatingIsReady()
    ensures Erasure(SEATING, IN_TURN, ALL_THREE, 7, SEATED).Ready()
  {
    SeatingPlanFits();
    SeatingIntact();
    SeatingUnique();
    SeatingClosed();
    SeatingCopies();
    SeatingUnrefused();
    forall x | ClosedSet(SEATING, IN_TURN, SEATED, 7, x) ensures StagedSet(ALL_THREE) <= x {
      SeatingLeast(x);
    }
    hide PlanFits, Intact, UniqueKeys, ClosedSet, Copies, NullKeys, Blocked, StagedSet;
  }

  /** The groups' turn empties "group" alone. */
  lemma AfterGroups(er: Erasure)
    requires er == Erasure(SEATING, IN_TURN, ALL_THREE, 7, SEATED)
    ensures At(er.Left("seats", SEAT, 1), "group") == Null && At(er.Left("seats", SEAT, 1), "place") == Val(1)
  {
    SeatingCells();
    assert IN_TURN.tables[0] == "groups" && er.Left("seats", SEAT, 0) == SEAT;
    var gone := er.DetachedBy("groups", "seats", SEAT);
    assert SEATING.edges[0] == OF_GROUP && "group" in OF_GROUP.cols;
    assert ALL_THREE["groups"][0] in ALL_THREE["groups"].Values && Held(ALL_THREE, "groups", [Val(1)]);
    assert "group" in gone && "place" !in gone;
  }

  /** So the places' turn finds nothing to empty. */
  lemma AfterPlaces(er: Erasure)
    requires er == Erasure(SEATING, IN_TURN, ALL_THREE, 7, SEATED)
    ensures At(er.Left("seats", SEAT, 2), "place") == Val(1)
  {
    AfterGroups(er);
    assert IN_TURN.tables[1] == "places";
    var was := er.Left("seats", SEAT, 1);
    assert Cells(was, ["place", "group"])[1] == Null;
    hide Erasure.Left;
    assert "place" !in er.DetachedBy("places", "seats", was);
    assert er.Left("seats", SEAT, 2) == Cleared(was, er.DetachedBy("places", "seats", was)) by { LeftStep(er); }
  }

  lemma LeftStep(er: Erasure)
    requires er == Erasure(SEATING, IN_TURN, ALL_THREE, 7, SEATED)
    ensures er.Left("seats", SEAT, 2) == var was := er.Left("seats", SEAT, 1); Cleared(was, er.DetachedBy("places", "seats", was))
  {
    assert IN_TURN.tables[1] == "places";
  }

  lemma NothingLost(er: Erasure)
    requires er == Erasure(SEATING, IN_TURN, ALL_THREE, 7, SEATED)
    ensures !er.KeyLost()
  {
    SeatingCells();
    SeatingPlanFits();
    AfterPlaces(er);
    hide PlanFits, Erasure.DetachedBy;
    forall k, id | 0 <= k < 3 && id in Rows(SEATED, IN_TURN.tables[k]) ensures !er.LosesKey(k, id) {
      SeatingRows(IN_TURN.tables[k], id);
      if k == 2 {
        assert Cells(er.Left("seats", SEAT, 2), ["place"]) == [Val(1)];
      } else {
        FirstTwoKeep(er, k);
      }
    }
  }

  /** Nothing detaches a group or a place. */
  lemma FirstTwoKeep(er: Erasure, k: nat)
    requires er == Erasure(SEATING, IN_TURN, ALL_THREE, 7, SEATED) && k < 2
    ensures !er.LosesKey(k, 0)
  {
    SeatingCells();
    assert IN_TURN.tables[0] == "groups" && IN_TURN.tables[1] == "places";
    assert forall row, parent :: er.DetachedBy(parent, "places", row) == {};
    assert er.Left("places", PLACE, 0) == PLACE && er.Left("groups", GROUP, 0) == GROUP;
    assert er.Left("places", PLACE, 1) == Cleared(PLACE, {});
    assert Cells(Cleared(PLACE, {}), ["id", "group"]) == [Val(1), Val(1)];
  }

  lemma SeatNamesPlace(er: Erasure)
    requires er == Erasure(SEATING, IN_TURN, ALL_THREE, 7, SEATED)
    ensures NamesOver(er, AT_PLACE, 1, 2, 0) && AT_PLACE in SEATING.edges
  {
    SeatingCells();
    SeatingPlanFits();
    hide PlanFits;
    assert SEATING.edges[1] == AT_PLACE && "place" in AT_PLACE.cols && "place" in SEATING.Key("seats") && "place" !in SEATING.NotNull("seats");
    assert ThroughNullableKey(SEATING, AT_PLACE);
    assert ALL_THREE["seats"][0] in ALL_THREE["seats"].Values && ALL_THREE["places"][0] in ALL_THREE["places"].Values;
  }

  /**
  The reference alone does not decide it: the seat names a place deleted before
  it through its key, yet the erasure goes through and removes all three rows.
  */
  lemma SharedColumnSparesKey()
    ensures var er := Erasure(SEATING, IN_TURN, ALL_THREE, 7, SEATED);
            er.Ready() && er.DeleteStaged().Ok? && er.OnlyStagedGone(er.DeleteStaged().value) && NamesEarlierRow(er)
  {
    var er := Erasure(SEATING, IN_TURN, ALL_THREE, 7, SEATED);
    SeatingIsReady();
    NothingLost(er);
    SeatNamesPlace(er);
    NothingRefuses(er);
    hide Erasure.Ready, Erasure.KeyLost, Erasure.DeleteStaged, NamesOver;
    er.ErasureSucceeds();
  }

  lemma NothingRefuses(er: Erasure)
    requires er == Erasure(SEATING, IN_TURN, ALL_THREE, 7, SEATED)
    ensures !er.Uncuttable() && !er.Undetachable() && !er.Strands()
  {
    assert forall t :: SEATING.NotNull(t) == {};
    assert forall e :: e in SEATING.edges ==> e.child == "seats" && e.parent != "seats";
  }
}
