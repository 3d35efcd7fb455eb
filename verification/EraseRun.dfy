/**
The entity plane of one EraseUserData call: plan, stage, cut, delete, inside one
transaction that is rolled back on any refusal.
*/
module EraseRun {
  import opened Relational
  import opened TableOrder
  import opened EraseModel
  import opened EraseStage
  import opened EraseDelete
  import opened ErasePlanner

  /** The transaction's view of the database. */
  class Transaction {
    const g: Graph
    var db: Database

    constructor (g: Graph, db: Database)
      ensures this.g == g && this.db == db
    {
      this.g, this.db := g, db;
    }

    /** cutReferences: one UPDATE per cut edge. */
    method CutReferences(er: Erasure) returns (ok: bool)
      requires er.g == g && er.start == db
      modifies this`db
      ensures ok ==> er.CutFrom(old(db), 0) == Ok(db)
      ensures !ok ==> er.CutFrom(old(db), 0).Refused?
    {
      for n := 0 to |er.p.cuts|
        invariant er.CutFrom(old(db), 0) == er.CutFrom(db, n)
      {
        var next := er.Cut(db, er.p.cuts[n]);
        if next.Refused? {
          return false;
        }
        db := next.value;
      }
      ok := true;
    }

    /** deleteStaged: the cuts, then every staged row, children first. */
    method DeleteStaged(er: Erasure) returns (ok: bool)
      requires er.g == g && er.start == db
      modifies this`db
      ensures ok ==> er.DeleteStaged() == Ok(db)
      ensures !ok ==> er.DeleteStaged().Refused?
    {
      ok := CutReferences(er);
      if !ok {
        return;
      }
      ghost var cut := db;
      for n := 0 to |er.p.tables|
        invariant er.DeleteFrom(cut, 0) == er.DeleteFrom(db, n)
      {
        var next := DeleteRows(g, db, er.p.tables[n], Erased(g, er.p, er.st, db, er.p.tables[n]));
        if next.Refused? {
          return false;
        }
        db := next.value;
      }
    }

    /**
    The whole plane. A refused erasure leaves the database as it was. One that
    succeeds left every foreign key intact, and it removed exactly the least set
    of rows closed under the cascade, as its counts say, if and only if no staged
    row lost its key to a SET NULL relation before its table's turn.
    */
    method EraseEntities(erasers: seq<Eraser>, user: nat) returns (ok: bool, ghost er: Erasure, counts: map<string, Counts>)
      requires g.WellFormed() && Intact(g, db) && UniqueKeys(g, db)
      modifies this`db
      ensures !ok ==> db == old(db)
      ensures ok ==> er.Ready() && er.g == g && er.start == old(db) && er.user == user && er.DeleteStaged() == Ok(db)
      ensures ok ==> TablesClosed(g, erasers, Columns(er.p.tables)) && Reachable(g, erasers, Columns(er.p.tables))
      ensures ok ==> Intact(g, db) && er.SurvivorsKept(db) && (er.OnlyStagedGone(db) <==> !er.KeyLost())
      ensures ok && !er.KeyLost() ==> (forall t :: t in er.p.tables ==> t in counts && |Rows(old(db), t)| - |Rows(db, t)| == counts[t].Total())
      ensures ok && !er.KeyLost() ==> er.NothingDangles(db)
    {
      er, counts := Erasure(g, Plan([], [], [], [], map[]), map[], user, db), map[];
      var begun := db;
      var plan;
      ghost var tables, order;
      plan, tables, order := PlanErase(g, erasers);
      if plan.Refused? {
        return false, er, counts;
      }
      var p := plan.value;
      var area := new StagingArea(g, p, db, user);
      ok := area.Stage();
      if !ok {
        return;
      }
      var work := Erasure(g, p, area.area.st, user, db);
      er, counts := work, area.area.counts;
      work.ErasureSucceeds();
      ok := DeleteStaged(work);
      if ok {
        forall t | t in p.tables && !work.KeyLost() ensures |Rows(old(db), t)| - |Rows(db, t)| == counts[t].Total() {
          RowsLost(Rows(old(db), t), Rows(db, t), Erased(g, p, work.st, old(db), t));
        }
      } else {
        db := begun;
      }
    }
  }

  lemma RowsLost(before: map<nat, Row>, after: map<nat, Row>, gone: set<nat>)
    requires gone <= before.Keys && after.Keys == before.Keys - gone
    ensures |before| - |after| == |gone|
  {
    assert |before| == |before.Keys| && |after| == |after.Keys|;
    assert before.Keys == after.Keys + gone;
  }

  // ---- A second erasure ------------------------------------------------------

  /** Whatever a second stage of the plan comes to on the database the first erasure left. */
  ghost predicate StagedAgain(er: Erasure, db: Database, st: Staging) {
    Copies(er.g, er.p, db, st) && ClosedSet(er.g, er.p, db, er.user, StagedSet(st)) && Minimal(er.g, er.p, db, er.user, st)
  }

  /**
  A second erasure of the same user stages nothing: the rows it would start from
  are gone, so the empty set is already closed, and nothing refuses it.
  */
  lemma SecondErasureStagesNothing(er: Erasure, st: Staging)
    requires er.Ready() && er.DeleteStaged().Ok? && !er.KeyLost() && StagedAgain(er, er.DeleteStaged().value, st)
    ensures StagedSet(st) == {} && Staged(er.g, er.p, er.DeleteStaged().value, er.user, st)
    ensures forall t :: Erased(er.g, er.p, st, er.DeleteStaged().value, t) == {}
  {
    var g, p, db := er.g, er.p, er.DeleteStaged().value;
    er.ErasureSucceeds();
    forall t, id | t in p.tables && id in Rows(db, t)
      ensures !OwnedRow(g, er.user, t, Rows(db, t)[id])
      ensures !(SeedRow(p, t, Rows(db, t)[id]) && HasKey(g, t, Rows(db, t)[id]))
    {
      RootsAreErased(er, db, t, id);
    }
    assert ClosedSet(g, p, db, er.user, {});
    NothingHeld(st);
  }

  lemma NothingHeld(st: Staging)
    requires StagedSet(st) == {}
    ensures forall t, ks :: !Held(st, t, ks)
  {
    forall t | t in st ensures st[t].Keys == {} {
      assert forall id :: id in st[t] ==> (t, id) in StagedSet(st);
    }
  }

  lemma KeysStayUnique(er: Erasure, db: Database)
    requires UniqueKeys(er.g, er.start) && er.Worn(db)
    ensures UniqueKeys(er.g, db)
  {
    forall t, i, j | t in er.g.tables && er.g.Key(t) != [] && i in Rows(db, t) && j in Rows(db, t) && i != j
      ensures !Full(Cells(Rows(db, t)[i], er.g.Key(t))) || Cells(Rows(db, t)[i], er.g.Key(t)) != Cells(Rows(db, t)[j], er.g.Key(t))
    {
      var a, b := Rows(db, t)[i], Rows(db, t)[j];
      if Full(Cells(a, er.g.Key(t))) && Cells(a, er.g.Key(t)) == Cells(b, er.g.Key(t)) {
        MasksKeepFullCells(Rows(er.start, t)[i], a, er.g.Key(t));
        MasksKeepFullCells(Rows(er.start, t)[j], b, er.g.Key(t));
      }
    }
  }

  /** A statement that matches no row changes nothing. */
  lemma NothingToDo(g: Graph, db: Database, t: string, cols: set<string>)
    requires Intact(g, db)
    ensures DeleteRows(g, db, t, {}) == Ok(db) && ClearColumns(g, db, t, {}, cols) == Ok(db)
  {
    forall u, id | u in db && id in db[u] ensures Detached(g, db, t, {}, u, db[u][id]) == {} && Cleared(db[u][id], {}) == db[u][id] {
    }
    var deleted, cleared := AfterDelete(g, db, t, {}), AfterClear(db, t, {}, cols);
    forall u | u in db ensures deleted[u] == db[u] && cleared[u] == db[u] {
      assert deleted[u].Keys == db[u].Keys && cleared[u].Keys == db[u].Keys;
    }
    assert deleted == db && cleared == db;
  }

  /** An erasure with nothing staged. */
  ghost predicate Idle(er: Erasure) {
    Intact(er.g, er.start) && StagedSet(er.st) == {} && forall t :: Erased(er.g, er.p, er.st, er.start, t) == {}
  }

  lemma {:induction false} NothingCut(er: Erasure, n: nat)
    requires Idle(er) && n <= |er.p.cuts|
    ensures er.CutFrom(er.start, n) == Ok(er.start)
    decreases |er.p.cuts| - n
  {
    if n < |er.p.cuts| {
      NothingHeld(er.st);
      assert er.CutRows(er.start, er.p.cuts[n]) == {};
      NothingToDo(er.g, er.start, er.p.cuts[n].child, Columns(er.p.cuts[n].cols));
      NothingCut(er, n + 1);
    }
  }

  lemma {:induction false} NothingDeleted(er: Erasure, n: nat)
    requires Idle(er) && n <= |er.p.tables|
    ensures er.DeleteFrom(er.start, n) == Ok(er.start)
    decreases |er.p.tables| - n
  {
    if n < |er.p.tables| {
      NothingToDo(er.g, er.start, er.p.tables[n], {});
      NothingDeleted(er, n + 1);
    }
  }

  /**
  The second erasure, run on what the first left: its stage goes through with
  every count zero, and its statements leave the database as it is.
  */
  method EraseAgain(er: Erasure, db: Database) returns (ok: bool, counts: map<string, Counts>, ghost again: Erasure)
    requires er.Ready() && er.DeleteStaged() == Ok(db) && !er.KeyLost()
    ensures ok && forall t :: t in er.p.tables ==> t in counts && counts[t].Total() == 0
    ensures again.g == er.g && again.p == er.p && again.start == db && again.user == er.user
    ensures again.Ready() && !again.KeyLost() && again.DeleteStaged() == Ok(db)
  {
    er.ErasureSucceeds();
    KeysStayUnique(er, db);
    var area := new StagingArea(er.g, er.p, db, er.user);
    ok := area.Stage();
    SecondErasureStagesNothing(er, area.area.st);
    counts, again := area.area.counts, Erasure(er.g, er.p, area.area.st, er.user, db);
    NothingCut(again, 0);
    NothingDeleted(again, 0);
  }

  lemma RootsAreErased(er: Erasure, db: Database, t: string, id: nat)
    requires er.Ready() && er.Worn(db) && t in er.p.tables && id in Rows(db, t)
    requires id !in Erased(er.g, er.p, er.st, er.start, t)
    ensures !OwnedRow(er.g, er.user, t, Rows(db, t)[id])
    ensures !(SeedRow(er.p, t, Rows(db, t)[id]) && HasKey(er.g, t, Rows(db, t)[id]))
  {
    var row, orig := Rows(db, t)[id], Rows(er.start, t)[id];
    assert Masks(orig, row);
    if OwnedRow(er.g, er.user, t, row) {
      assert OwnedRow(er.g, er.user, t, orig);
      StagedRowIsErased(er, t, id);
    }
    if SeedRow(er.p, t, row) && HasKey(er.g, t, row) {
      var i :| 0 <= i < |er.p.Seeds(t)| && er.p.Seeds(t)[i].Matches(row);
      SeedStillMatches(er.p.Seeds(t)[i], orig, row);
      assert SeedRow(er.p, t, orig) && HasKey(er.g, t, orig);
      StagedRowIsErased(er, t, id);
    }
  }

  lemma SeedStillMatches(s: Eraser, orig: Row, row: Row)
    requires Masks(orig, row) && s.Matches(row)
    ensures s.Matches(orig)
  {
    forall w | w in s.conds ensures At(orig, w.0) == Val(w.1) {
      assert At(row, w.0) == Val(w.1);
    }
    assert At(row, s.column) == Val(s.value);
  }

  lemma StagedRowIsErased(er: Erasure, t: string, id: nat)
    requires er.Ready() && t in er.p.tables && (t, id) in StagedSet(er.st)
    ensures id in Erased(er.g, er.p, er.st, er.start, t)
  {
    StagedIsErased(er.g, er.p, er.start, er.user, er.st, t);
  }
}
